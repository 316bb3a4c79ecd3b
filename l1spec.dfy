/** What parse_l1_data reads and prints, as functions of the 4096-bit
    buffer: the L1-Basic and L1-Detail field syntax of ATSC A/322
    (sections 9.2 and 9.3) as this decoder walks it, quirks included.
    Every function takes the decoder's state and returns the state after
    its fields; a field that would run past the buffer reads as 0 without
    moving the index, as get_bits does. */
module L1Spec {
  import opened Bits
  import opened Report
  import opened L1Fields
  import Text

  /** The read index, the lines offered to add_line so far, and the two
      locals that carry over from one PLP or subframe to the next:
      l1d_plp_mod and l1d_num_plp */
  datatype St = St(pos: nat, out: seq<Line>, plpMod: nat, numPlp: nat)

  /** The L1-Basic fields the L1-Detail syntax depends on */
  datatype BasicInfo = BasicInfo(
    timeInfo: nat, numSubframes: nat, detailSize: nat,
    firstMimo: nat, firstSbsFirst: nat, firstSbsLast: nat, firstMimoMixed: nat)

  /** n more bits fit in the buffer */
  predicate Fits(bits: seq<Bit>, st: St, n: nat)
  {
    st.pos + n <= |bits|
  }

  /** get_bits(n) */
  function Get(bits: seq<Bit>, st: St, n: nat): (r: (nat, St))
    ensures r.0 < Pow2(n)
    ensures r.1 == st.(pos := if Fits(bits, st, n) then st.pos + n else st.pos)
  {
    var (v, p) := Read(bits, st.pos, n);
    (v, st.(pos := p))
  }

  /** The headings among xs ("Subframe #i:", "PLP #j:"), in order: the
      outline of what was printed */
  function Marks(xs: seq<Line>): seq<Line>
  {
    if xs == [] then []
    else Marks(xs[..|xs| - 1]) + (if xs[|xs| - 1].Heading? then [xs[|xs| - 1]] else [])
  }

  /** add_line */
  function Put(st: St, line: Line): (r: St)
    ensures r.pos == st.pos && r.out == st.out + [line]
    ensures Marks(r.out) == Marks(st.out) + (if line.Heading? then [line] else [])
  {
    assert (st.out + [line])[..|st.out|] == st.out;
    st.(out := st.out + [line])
  }

  /** A field printed as "NAME: %ld" */
  function Num(bits: seq<Bit>, st: St, depth: nat, name: string, n: nat): (r: (nat, St))
    ensures Marks(r.1.out) == Marks(st.out)
  {
    hide Marks;
    var (v, st) := Get(bits, st, n);
    (v, Put(st, Field(depth, name, Dec(v))))
  }

  /** A field printed as "NAME: %ld": the value is the n bits at the read
      index, which moves past them when they fit, and the one line printed
      carries it */
  lemma NumLine(bits: seq<Bit>, st: St, depth: nat, name: string, n: nat)
    ensures var r := Num(bits, st, depth, name, n);
      && (r.0, r.1.pos) == Read(bits, st.pos, n)
      && r.1.out == st.out + [Field(depth, name, Dec(r.0))]
      && r.1.plpMod == st.plpMod && r.1.numPlp == st.numPlp
  {
  }

  // ---------------------------------------------------------------- L1-Basic

  /** L1B_version to the frame-length fields (34 bits) */
  function BasicFrame(bits: seq<Bit>, st: St): (r: (nat, nat, St))
    ensures r.1 < 4
    requires Fits(bits, st, 34)
    ensures r.2.pos == st.pos + 34
    ensures Marks(r.2.out) == Marks(st.out)
  {
    hide Marks;
    var (version, timeInfo, mode, st) := BasicFlags(bits, st);
    (version, timeInfo, FrameLength(bits, st, mode))
  }

  /** L1B_version to L1B_frame_length_mode (11 bits): the version, the
      time-info flag and the frame-length mode */
  function BasicFlags(bits: seq<Bit>, st: St): (r: (nat, nat, nat, St))
    ensures r.1 < 4
    ensures Fits(bits, st, 11) ==> r.3.pos == st.pos + 11
    ensures Marks(r.3.out) == Marks(st.out)
  {
    hide Marks;
    var (version, st) := Num(bits, st, 0, "L1B_version", 3);
    var (v, st) := Get(bits, st, 1);
    var st := Put(st, Field(0, "L1B_mimo_scattered_pilot_encoding", Choice(v, "Walsh-Hadamard", "Null pilots")));
    var (v, st) := Get(bits, st, 1);
    var st := Put(st, Field(0, "L1B_lls_flag", Choice(v, "No LLS", "LLS present")));
    var (timeInfo, st) := Get(bits, st, 2);
    var st := Put(st, Field(0, "L1B_time_info_flag", TimeInfo(timeInfo)));
    var (_, st) := Num(bits, st, 0, "L1B_return_channel_flag", 1);
    var (v, st) := Get(bits, st, 2);
    var st := Put(st, Field(0, "L1B_papr_reduction", Papr(v)));
    var (mode, st) := Get(bits, st, 1);
    (version, timeInfo, mode, st)
  }

  /** Both frame-length modes take 23 bits: 10 + 13 time-aligned,
      16 + 7 symbol-aligned */
  function FrameLength(bits: seq<Bit>, st: St, mode: nat): (r: St)
    requires Fits(bits, st, 23)
    ensures r.pos == st.pos + 23
    ensures |r.out| == |st.out| + 3
    ensures Marks(r.out) == Marks(st.out)
  {
    hide Marks;
    if mode == 0 then
      var st := Put(st, Field(0, "L1B_frame_length_mode", Named("Time-aligned")));
      var (_, st) := Num(bits, st, 1, "L1B_frame_length", 10);
      Num(bits, st, 1, "L1B_excess_samples_per_symbol", 13).1
    else
      var st := Put(st, Field(0, "L1B_frame_length_mode", Named("Symbol-aligned")));
      var (_, st) := Num(bits, st, 1, "L1B_time_offset", 16);
      Num(bits, st, 1, "L1B_additional_samples", 7).1
  }

  /** L1B_num_subframes to L1B_L1_Detail_total_cells (53 bits) */
  function BasicDetail(bits: seq<Bit>, st: St): (r: (nat, nat, St))
    requires Fits(bits, st, 53)
    ensures r.2.pos == st.pos + 53
    ensures Marks(r.2.out) == Marks(st.out)
    ensures r.0 == Read(bits, st.pos, 8).0
    ensures r.1 == Read(bits, st.pos + 16, 13).0
  {
    hide Marks;
    var (numSubframes, st) := Get(bits, st, 8);
    var st := Put(st, Field(0, "L1B_num_subframes", Count(numSubframes)));
    var (v, st) := Get(bits, st, 3);
    var st := Put(st, Field(0, "L1B_preamble_num_symbols", Count(v)));
    var (_, st) := Num(bits, st, 0, "L1B_preamble_reduced_carriers", 3);
    var (_, st) := Num(bits, st, 0, "L1B_L1_Detail_content_tag", 2);
    var (detailSize, st) := Num(bits, st, 0, "L1B_L1_Detail_size_bytes", 13);
    var (v, st) := Get(bits, st, 3);
    var st := Put(st, Field(0, "L1B_L1_Detail_fec_type", DetailFecMode(v)));
    var (v, st) := Get(bits, st, 2);
    var st := Put(st, Field(0, "L1B_L1_additional_parity_mode", Tagged("K=", v)));
    var (_, st) := Num(bits, st, 0, "L1B_L1_Detail_total_cells", 19);
    (numSubframes, detailSize, st)
  }

  /** The first subframe's parameters (33 bits) */
  function BasicFirstSub(bits: seq<Bit>, st: St): (r: (nat, nat, nat, St))
    requires Fits(bits, st, 33)
    ensures r.3.pos == st.pos + 33
    ensures Marks(r.3.out) == Marks(st.out)
  {
    hide Marks;
    var (mimo, st) := Get(bits, st, 1);
    var st := Put(st, Field(0, "L1B_first_sub_mimo", Choice(mimo, "No MIMO", "MIMO")));
    var (_, st) := Num(bits, st, 0, "L1B_first_sub_miso", 2);
    var (v, st) := Get(bits, st, 2);
    var st := Put(st, Field(0, "L1B_first_sub_fft_size", FftSize(v)));
    var (_, st) := Num(bits, st, 0, "L1B_first_sub_reduced_carriers", 3);
    var (v, st) := Get(bits, st, 4);
    var st := Put(st, Field(0, "L1B_first_sub_guard_interval", GuardInterval(v)));
    var (v, st) := Get(bits, st, 11);
    var st := Put(st, Field(0, "L1B_first_sub_num_ofdm_symbols", Count(v)));
    var (_, st) := Num(bits, st, 0, "L1B_first_sub_scattered_pilot_pattern", 5);
    var (_, st) := Num(bits, st, 0, "L1B_first_sub_scattered_pilot_boost", 3);
    var (sbsFirst, st) := Num(bits, st, 0, "L1B_first_sub_sbs_first", 1);
    var (sbsLast, st) := Num(bits, st, 0, "L1B_first_sub_sbs_last", 1);
    (mimo, sbsFirst, sbsLast, st)
  }

  /** Both L1B_version forks take 48 bits: from version 1 on, the
      mimo_mixed flag and 47 reserved bits, before that 48 reserved bits */
  function BasicReserved(bits: seq<Bit>, st: St, version: nat): (r: (nat, St))
    requires Fits(bits, st, 48)
    ensures r.1.pos == st.pos + 48
    ensures version < 1 ==> r.0 == 0 && r.1.out == st.out
    ensures Marks(r.1.out) == Marks(st.out)
  {
    hide Marks;
    if version >= 1 then
      var (mixed, st) := Num(bits, st, 0, "L1B_first_sub_mimo_mixed", 1);
      (mixed, Get(bits, st, 47).1)
    else (0, Get(bits, st, 48).1)
  }

  /** L1-Basic: 200 bits whatever path the fields take */
  function Basic(bits: seq<Bit>, st: St): (r: (BasicInfo, St))
    requires Fits(bits, st, 200)
    ensures r.1.pos == st.pos + 200
    ensures Marks(r.1.out) == Marks(st.out)
  {
    var (version, timeInfo, st) := BasicFrame(bits, st);
    var (numSubframes, detailSize, st) := BasicDetail(bits, st);
    var (mimo, sbsFirst, sbsLast, st) := BasicFirstSub(bits, st);
    var (mixed, st) := BasicReserved(bits, st, version);
    var (crc, st) := Get(bits, st, 32);
    var st := Put(st, Field(0, "L1B_crc", Hex(crc, 8)));
    (BasicInfo(timeInfo, numSubframes, detailSize, mimo, sbsFirst, sbsLast, mixed), st)
  }

  /** L1B_num_subframes is the 8 bits after the first 34 of L1-Basic */
  lemma BasicNumSubframes(bits: seq<Bit>, st: St)
    requires Fits(bits, st, 200)
    ensures Read(bits, st.pos + 34, 8).0 == Basic(bits, st).0.numSubframes
  {
    hide BasicFrame, BasicDetail, BasicFirstSub, BasicReserved, Marks, Get, Put, Read;
    assert Basic(bits, st).0.numSubframes == BasicDetail(bits, BasicFrame(bits, st).2).0;
  }

  /** L1B_L1_Detail_size_bytes, which places L1D_crc, is the 13 bits at
      offset 50 of L1-Basic */
  lemma BasicDetailSize(bits: seq<Bit>, st: St)
    requires Fits(bits, st, 200)
    ensures Read(bits, st.pos + 50, 13).0 == Basic(bits, st).0.detailSize
  {
    hide BasicFrame, BasicDetail, BasicFirstSub, BasicReserved, Marks, Get, Put, Read;
    assert Basic(bits, st).0.detailSize == BasicDetail(bits, BasicFrame(bits, st).2).1;
  }

  // ------------------------------------------------------- L1-Detail: head

  /** L1D_bonded_bsid for i = first..n: 16 bits printed, 3 skipped */
  function BondedBsids(bits: seq<Bit>, st: St, i: nat, n: nat): (r: St)
    requires 1 <= i <= n + 1
    ensures Fits(bits, st, 19 * (n + 1 - i)) ==> r.pos == st.pos + 19 * (n + 1 - i)
    ensures |r.out| == |st.out| + (n + 1 - i)
    ensures Marks(r.out) == Marks(st.out)
    decreases n + 1 - i
  {
    hide Marks;
    if i > n then st
    else
      var (bsid, st) := Get(bits, st, 16);
      var st := Put(st, Field(1, "L1D_bonded_bsid", Hex(bsid, 4)));
      BondedBsids(bits, Get(bits, st, 3).1, i + 1, n)
  }

  /** The time fields L1B_time_info_flag asks for: seconds and
      milliseconds, then microseconds from flag 2, nanoseconds from 3 */
  function TimeFields(bits: seq<Bit>, st: St, timeInfo: nat): (r: St)
    ensures Fits(bits, st, 62) ==> r.pos == st.pos + TimeBits(timeInfo)
    ensures Marks(r.out) == Marks(st.out)
  {
    hide Marks;
    if timeInfo == 0 then st
    else
      var (_, st) := Num(bits, st, 0, "L1D_time_sec", 32);
      var (_, st) := Num(bits, st, 0, "L1D_time_msec", 10);
      if timeInfo > 1 then
        var (_, st) := Num(bits, st, 0, "L1D_time_usec", 10);
        if timeInfo > 2 then Num(bits, st, 0, "L1D_time_nsec", 10).1 else st
      else st
  }

  /** The width of the time fields for each L1B_time_info_flag */
  function TimeBits(timeInfo: nat): nat
  {
    if timeInfo == 0 then 0 else 42 + (if timeInfo > 1 then 10 else 0) + (if timeInfo > 2 then 10 else 0)
  }

  /** L1D_version, L1D_num_rf, the bonded BSIDs and the time fields; yields
      the version and the number of bonded RF channels */
  function DetailHead(bits: seq<Bit>, st: St, timeInfo: nat): (r: (nat, nat, St))
    ensures Fits(bits, st, 7) ==> r.0 == Read(bits, st.pos, 4).0 && r.1 == Read(bits, st.pos + 4, 3).0
    ensures Fits(bits, st, 202) ==> r.2.pos == st.pos + 7 + 19 * r.1 + TimeBits(timeInfo)
    ensures Marks(r.2.out) == Marks(st.out)
  {
    hide Marks;
    var (version, st) := Num(bits, st, 0, "L1D_version", 4);
    var (numRf, st) := Num(bits, st, 0, "L1D_num_rf", 3);
    var st := BondedBsids(bits, st, 1, numRf);
    (version, numRf, TimeFields(bits, st, timeInfo))
  }

  // --------------------------------------------------------- L1-Detail: PLPs

  /** L1D_plp_id to L1D_plp_scrambler_type (59 bits); yields the layer */
  function PlpHead(bits: seq<Bit>, st: St): (r: (nat, St))
    ensures Fits(bits, st, 59) ==> r.1.pos == st.pos + 59
    ensures Fits(bits, st, 59) ==> r.0 == Read(bits, st.pos + 7, 2).0
    ensures Marks(r.1.out) == Marks(st.out)
  {
    hide Marks;
    var (_, st) := Num(bits, st, 3, "L1D_plp_id", 6);
    var (_, st) := Num(bits, st, 3, "L1D_plp_lls_flag", 1);
    var (layer, st) := Get(bits, st, 2);
    var st := Put(st, Field(3, "L1D_plp_layer", Layer(layer)));
    var (_, st) := Num(bits, st, 3, "L1D_plp_start", 24);
    var (_, st) := Num(bits, st, 3, "L1D_plp_size", 24);
    var (v, st) := Get(bits, st, 2);
    var st := Put(st, Field(3, "L1D_plp_scrambler_type", Scrambler(v)));
    (layer, st)
  }

  /** L1D_plp_fec_type, then modulation and code rate only for a defined
      FEC type; for another FEC type l1d_plp_mod keeps the value an earlier
      PLP left in it */
  function PlpFec(bits: seq<Bit>, st: St): (r: St)
    ensures var fec := Read(bits, st.pos, 4).0;
      Fits(bits, st, 12) ==> r.pos == st.pos + (if fec <= 5 then 12 else 4)
    ensures var fec := Read(bits, st.pos, 4).0;
      r.plpMod == if fec <= 5 then Read(bits, Read(bits, st.pos, 4).1, 4).0 else st.plpMod
    ensures r.numPlp == st.numPlp
    ensures Marks(r.out) == Marks(st.out)
  {
    hide Marks;
    var (fec, st) := Get(bits, st, 4);
    var st := Put(st, Field(3, "L1D_plp_fec_type", FecType(fec)));
    if fec <= 5 then
      var (m, st) := Get(bits, st, 4);
      var st := Put(st.(plpMod := m), Field(3, "L1D_plp_mod", Modulation(m)));
      var (c, st) := Get(bits, st, 4);
      Put(st, Field(3, "L1D_plp_cod", CodeRate(c)))
    else st
  }

  /** L1D_plp_TI_mode, then 15 bits of FEC block start for mode 0, 22 for
      mode 1 and nothing for modes 2 and 3 */
  function PlpTi(bits: seq<Bit>, st: St): (r: (nat, St))
    ensures r.0 == Read(bits, st.pos, 2).0
    ensures Fits(bits, st, 24) ==>
      r.1.pos == st.pos + 2 + (if r.0 == 0 then 15 else if r.0 == 1 then 22 else 0)
    ensures r.1.plpMod == st.plpMod && r.1.numPlp == st.numPlp
    ensures Marks(r.1.out) == Marks(st.out)
  {
    hide Marks;
    var (ti, st) := Get(bits, st, 2);
    var st := Put(st, Field(3, "L1D_plp_TI_mode", TiMode(ti)));
    if ti == 0 then (ti, Num(bits, st, 3, "L1D_plp_fec_block_start", 15).1)
    else if ti == 1 then (ti, Num(bits, st, 3, "L1D_plp_CTI_fec_block_start", 22).1)
    else (ti, st)
  }

  /** L1D_plp_bonded_rf_id for k = first..n-1, 3 bits each */
  function BondedRfIds(bits: seq<Bit>, st: St, k: nat, n: nat): (r: St)
    requires k <= n
    ensures Fits(bits, st, 3 * (n - k)) ==> r.pos == st.pos + 3 * (n - k)
    ensures |r.out| == |st.out| + (n - k)
    ensures r.plpMod == st.plpMod && r.numPlp == st.numPlp
    ensures Marks(r.out) == Marks(st.out)
    decreases n - k
  {
    hide Marks;
    if k == n then st
    else BondedRfIds(bits, Num(bits, st, 4, "L1D_plp_bonded_rf_id", 3).1, k + 1, n)
  }

  /** The channel-bonding fields, present only when L1D_num_rf > 0 */
  function PlpBonding(bits: seq<Bit>, st: St, numRf: nat): (r: St)
    ensures numRf == 0 ==> r == st
    ensures var k := Read(bits, st.pos, 3).0;
      numRf > 0 && Fits(bits, st, 26) ==> r.pos == st.pos + (if k == 0 then 3 else 5 + 3 * k)
    ensures r.plpMod == st.plpMod && r.numPlp == st.numPlp
    ensures Marks(r.out) == Marks(st.out)
  {
    hide Marks;
    if numRf == 0 then st
    else
      var (k, st) := Num(bits, st, 3, "L1D_plp_num_channel_bonded", 3);
      if k > 0 then
        var (_, st) := Num(bits, st, 3, "L1D_plp_channel_bonding_format", 2);
        assert k < 8;
        BondedRfIds(bits, st, 0, k)
      else st
  }

  /** The three MIMO flags of a PLP in a MIMO subframe */
  function PlpMimo(bits: seq<Bit>, st: St, mimo: bool): (r: St)
    ensures !mimo ==> r == st
    ensures mimo && Fits(bits, st, 3) ==> r.pos == st.pos + 3
    ensures r.plpMod == st.plpMod && r.numPlp == st.numPlp
    ensures Marks(r.out) == Marks(st.out)
  {
    hide Marks;
    if !mimo then st
    else
      var (_, st) := Num(bits, st, 3, "L1D_plp_mimo_stream_combining", 1);
      var (_, st) := Num(bits, st, 3, "L1D_plp_mimo_IQ_interleaving", 1);
      Num(bits, st, 3, "L1D_plp_mimo_PH", 1).1
  }

  /** L1D_plp_HTI_num_fec_blocks for k = first..n, 12 bits each */
  function HtiFecBlocks(bits: seq<Bit>, st: St, k: nat, n: nat): (r: St)
    requires k <= n + 1
    ensures Fits(bits, st, 12 * (n + 1 - k)) ==> r.pos == st.pos + 12 * (n + 1 - k)
    ensures |r.out| == |st.out| + (n + 1 - k) && st.out <= r.out
    ensures r.plpMod == st.plpMod && r.numPlp == st.numPlp
    ensures Marks(r.out) == Marks(st.out)
    decreases n + 1 - k
  {
    hide Marks;
    if k > n then st
    else
      var (v, st) := Get(bits, st, 12);
      HtiFecBlocks(bits, Put(st, Field(4, "L1D_plp_HTI_num_fec_blocks", Count(v))), k + 1, n)
  }

  /** The hybrid time interleaver fields: one FEC block count when
      inter_subframe is 0, otherwise num_ti_blocks + 1 of them */
  function Hti(bits: seq<Bit>, st: St): (r: St)
    ensures var inter := Read(bits, st.pos, 1).0;
      var blocks := Read(bits, st.pos + 1, 4).0;
      Fits(bits, st, 210) ==> r.pos == st.pos + 18 + (if inter == 0 then 12 else 12 * (blocks + 1))
    ensures r.plpMod == st.plpMod && r.numPlp == st.numPlp
    ensures Marks(r.out) == Marks(st.out)
  {
    hide Marks;
    var (inter, st) := Num(bits, st, 3, "L1D_plp_HTI_inter_subframe", 1);
    var (blocks, st) := Get(bits, st, 4);
    var st := Put(st, Field(3, "L1D_plp_HTI_num_ti_blocks", Count(blocks)));
    var (v, st) := Get(bits, st, 12);
    var st := Put(st, Field(3, "L1D_plp_HTI_num_fec_blocks_max", Count(v)));
    var st :=
      if inter == 0 then
        var (v, st) := Get(bits, st, 12);
        Put(st, Field(3, "L1D_plp_HTI_num_fec_blocks", Count(v)))
      else
        assert blocks < 16;
        HtiFecBlocks(bits, st, 0, blocks);
    Num(bits, st, 3, "L1D_plp_HTI_cell_interleaver", 1).1
  }

  /** The first line Hti prints is L1D_plp_HTI_inter_subframe, and what
      was printed before stays */
  lemma HtiFirstLine(bits: seq<Bit>, st: St)
    ensures st.out + [Field(3, "L1D_plp_HTI_inter_subframe", Dec(Read(bits, st.pos, 1).0))] <= Hti(bits, st).out
  {
    hide Read, Value, Marks, Titled, MimoPlps, MixedOn;
    var (inter, s1) := Num(bits, st, 3, "L1D_plp_HTI_inter_subframe", 1);
    var (blocks, s2) := Get(bits, s1, 4);
    var s3 := Put(s2, Field(3, "L1D_plp_HTI_num_ti_blocks", Count(blocks)));
    var (v, s4) := Get(bits, s3, 12);
    var s5 := Put(s4, Field(3, "L1D_plp_HTI_num_fec_blocks_max", Count(v)));
    var s6 :=
      if inter == 0 then
        var (v, st) := Get(bits, s5, 12);
        Put(st, Field(3, "L1D_plp_HTI_num_fec_blocks", Count(v)))
      else
        assert blocks < 16;
        HtiFecBlocks(bits, s5, 0, blocks);
    var s7 := Num(bits, s6, 3, "L1D_plp_HTI_cell_interleaver", 1).1;
    assert Hti(bits, st) == s7;
    hide Hti, Num, Get, Put, HtiFecBlocks, Read;
    assert s1.out <= s5.out <= s6.out <= s7.out;
  }

  /** L1D_plp_type, and for a dispersed PLP the subslice fields */
  function PlpType(bits: seq<Bit>, st: St): (r: St)
    ensures var d := Read(bits, st.pos, 1).0;
      Fits(bits, st, 39) ==> r.pos == st.pos + 1 + (if d == 0 then 0 else 38)
    ensures var d := Read(bits, st.pos, 1).0;
      |r.out| == |st.out| + (if d == 0 then 1 else 3) && r.out[..|st.out|] == st.out
    ensures r.plpMod == st.plpMod && r.numPlp == st.numPlp
    ensures Marks(r.out) == Marks(st.out)
  {
    hide Marks;
    var (dispersed, st') := Get(bits, st, 1);
    if dispersed == 0 then Put(st', Field(3, "L1D_plp_type", Named("non-dispersed")))
    else
      var st' := Put(st', Field(3, "L1D_plp_type", Named("dispersed")));
      var (v, st') := Get(bits, st', 14);
      var st' := Put(st', Field(3, "L1D_plp_num_subslices", Count(v)));
      Num(bits, st', 3, "L1D_plp_subslice_interval", 24).1
  }

  /** L1D_plp_TI_extended_interleaving, one bit, read only when the TI
      mode is CTI or HTI and l1d_plp_mod (possibly an earlier PLP's) is 0 */
  function ExtendedFlag(bits: seq<Bit>, st: St, ti: nat): (r: St)
    ensures (ti == 1 || ti == 2) && st.plpMod == 0 ==>
      && r.pos == (if Fits(bits, st, 1) then st.pos + 1 else st.pos)
      && r.out == st.out + [Field(3, "L1D_plp_TI_extended_interleaving", Dec(Read(bits, st.pos, 1).0))]
      && r.plpMod == st.plpMod && r.numPlp == st.numPlp
    ensures !((ti == 1 || ti == 2) && st.plpMod == 0) ==> r == st
  {
    if (ti == 1 || ti == 2) && st.plpMod == 0 then Num(bits, st, 3, "L1D_plp_TI_extended_interleaving", 1).1
    else st
  }

  /** The convolutional time interleaver fields */
  function Cti(bits: seq<Bit>, st: St): (r: St)
    ensures Fits(bits, st, 14) ==>
      && r.pos == st.pos + 14
      && r.out == st.out + [Field(3, "L1D_plp_CTI_depth", Dec(Read(bits, st.pos, 3).0)),
                            Field(3, "L1D_plp_CTI_start_row", Dec(Read(bits, st.pos + 3, 11).0))]
    ensures st.out + [Field(3, "L1D_plp_CTI_depth", Dec(Read(bits, st.pos, 3).0))] <= r.out
    ensures r.plpMod == st.plpMod && r.numPlp == st.numPlp
    ensures Marks(r.out) == Marks(st.out)
  {
    hide Marks;
    var (_, st') := Num(bits, st, 3, "L1D_plp_CTI_depth", 3);
    Num(bits, st', 3, "L1D_plp_CTI_start_row", 11).1
  }

  /** The time-interleaving fields of a core-layer PLP: the extended
      interleaving flag, then the CTI or HTI fields */
  function PlpInterleave(bits: seq<Bit>, st: St, ti: nat): (r: St)
    ensures r.plpMod == st.plpMod && r.numPlp == st.numPlp
    ensures Marks(r.out) == Marks(st.out)
  {
    hide Marks;
    var st' := ExtendedFlag(bits, st, ti);
    if ti == 1 then Cti(bits, st')
    else if ti == 2 then Hti(bits, st')
    else st'
  }

  /** PlpInterleave in CTI mode: the flag when l1d_plp_mod is 0, then the
      CTI fields */
  lemma InterleaveCti(bits: seq<Bit>, st: St)
    requires Fits(bits, st, 211)
    ensures var q := st.pos + (if st.plpMod == 0 then 1 else 0);
      PlpInterleave(bits, st, 1).pos == q + 14
    ensures st.plpMod == 0 ==>
      st.out + [Field(3, "L1D_plp_TI_extended_interleaving", Dec(Read(bits, st.pos, 1).0))] <= PlpInterleave(bits, st, 1).out
    ensures st.plpMod != 0 ==>
      st.out + [Field(3, "L1D_plp_CTI_depth", Dec(Read(bits, st.pos, 3).0))] <= PlpInterleave(bits, st, 1).out
  {
    var s1 := ExtendedFlag(bits, st, 1);
    assert s1.pos == st.pos + (if st.plpMod == 0 then 1 else 0);
    assert PlpInterleave(bits, st, 1) == Cti(bits, s1);
  }

  /** PlpInterleave in HTI mode: the flag when l1d_plp_mod is 0, then the
      HTI fields */
  lemma InterleaveHti(bits: seq<Bit>, st: St)
    requires Fits(bits, st, 211)
    ensures var q := st.pos + (if st.plpMod == 0 then 1 else 0);
      PlpInterleave(bits, st, 2).pos
        == q + 18 + (if Read(bits, q, 1).0 == 0 then 12 else 12 * (Read(bits, q + 1, 4).0 + 1))
    ensures st.plpMod == 0 ==>
      st.out + [Field(3, "L1D_plp_TI_extended_interleaving", Dec(Read(bits, st.pos, 1).0))] <= PlpInterleave(bits, st, 2).out
    ensures st.plpMod != 0 ==>
      st.out + [Field(3, "L1D_plp_HTI_inter_subframe", Dec(Read(bits, st.pos, 1).0))] <= PlpInterleave(bits, st, 2).out
  {
    var s1 := ExtendedFlag(bits, st, 2);
    assert s1.pos == st.pos + (if st.plpMod == 0 then 1 else 0);
    HtiFirstLine(bits, s1);
    assert PlpInterleave(bits, st, 2) == Hti(bits, s1);
  }

  /** Where PlpInterleave leaves the read index and which line it prints
      first. The one-bit L1D_plp_TI_extended_interleaving is read exactly
      when the TI mode is CTI or HTI and l1d_plp_mod (possibly an earlier
      PLP's) is 0; otherwise the first line is the first CTI or HTI field,
      and nothing is read or printed for any other mode */
  lemma PlpInterleaveLayout(bits: seq<Bit>, st: St, ti: nat)
    requires Fits(bits, st, 211)
    ensures var gate := (ti == 1 || ti == 2) && st.plpMod == 0;
      var q := st.pos + (if gate then 1 else 0);
      PlpInterleave(bits, st, ti).pos
        == (if ti == 1 then q + 14
            else if ti == 2 then q + 18 + (if Read(bits, q, 1).0 == 0 then 12 else 12 * (Read(bits, q + 1, 4).0 + 1))
            else q)
    ensures (ti == 1 || ti == 2) && st.plpMod == 0 ==>
      st.out + [Field(3, "L1D_plp_TI_extended_interleaving", Dec(Read(bits, st.pos, 1).0))] <= PlpInterleave(bits, st, ti).out
    ensures ti == 1 && st.plpMod != 0 ==>
      st.out + [Field(3, "L1D_plp_CTI_depth", Dec(Read(bits, st.pos, 3).0))] <= PlpInterleave(bits, st, ti).out
    ensures ti == 2 && st.plpMod != 0 ==>
      st.out + [Field(3, "L1D_plp_HTI_inter_subframe", Dec(Read(bits, st.pos, 1).0))] <= PlpInterleave(bits, st, ti).out
    ensures ti != 1 && ti != 2 ==> PlpInterleave(bits, st, ti) == st
  {
    hide Read, Cti, Hti, ExtendedFlag;
    if ti == 1 {
      InterleaveCti(bits, st);
    } else if ti == 2 {
      InterleaveHti(bits, st);
    } else {
      assert PlpInterleave(bits, st, ti) == ExtendedFlag(bits, st, ti);
    }
  }

  /** The core-layer fields: PLP type, then the time-interleaving fields */
  function PlpCore(bits: seq<Bit>, st: St, ti: nat): (r: St)
    ensures r.plpMod == st.plpMod && r.numPlp == st.numPlp
    ensures Marks(r.out) == Marks(st.out)
  {
    PlpInterleave(bits, PlpType(bits, st), ti)
  }

  /** The read index after the core-layer fields, by the field widths of
      the syntax: the 1-bit PLP type, 38 bits of subslice fields for a
      dispersed PLP, the 1-bit extended-interleaving flag when the TI mode is
      CTI or HTI and l1d_plp_mod is 0, then 14 CTI bits or the HTI fields */
  function CoreEnd(bits: seq<Bit>, st: St, ti: nat): nat
  {
    var p := st.pos + 1 + (if Read(bits, st.pos, 1).0 == 0 then 0 else 38);
    var q := p + (if (ti == 1 || ti == 2) && st.plpMod == 0 then 1 else 0);
    if ti == 1 then q + 14
    else if ti == 2 then q + 18 + (if Read(bits, q, 1).0 == 0 then 12 else 12 * (Read(bits, q + 1, 4).0 + 1))
    else q
  }

  /** How many lines the PLP type takes: one, or three for a dispersed PLP */
  function TypeLines(bits: seq<Bit>, st: St): nat
  {
    if Read(bits, st.pos, 1).0 == 0 then 1 else 3
  }

  /** The line that follows the PLP type lines: the extended-interleaving
      flag when the TI mode is CTI or HTI and l1d_plp_mod is 0, else the
      first CTI or HTI field, and none for any other mode */
  function CoreNextLine(bits: seq<Bit>, st: St, ti: nat): Text.Option<Line>
  {
    var p := st.pos + 1 + (if Read(bits, st.pos, 1).0 == 0 then 0 else 38);
    if (ti == 1 || ti == 2) && st.plpMod == 0 then
      Text.Some(Field(3, "L1D_plp_TI_extended_interleaving", Dec(Read(bits, p, 1).0)))
    else if ti == 1 then Text.Some(Field(3, "L1D_plp_CTI_depth", Dec(Read(bits, p, 3).0)))
    else if ti == 2 then Text.Some(Field(3, "L1D_plp_HTI_inter_subframe", Dec(Read(bits, p, 1).0)))
    else Text.None
  }

  /** PlpCore is PlpInterleave after the PLP type lines */
  lemma PlpCoreThen(bits: seq<Bit>, st: St, ti: nat)
    requires Fits(bits, st, 250)
    ensures var s1 := PlpType(bits, st);
      && s1.pos == st.pos + 1 + (if Read(bits, st.pos, 1).0 == 0 then 0 else 38)
      && |s1.out| == |st.out| + TypeLines(bits, st)
      && s1.plpMod == st.plpMod
      && PlpCore(bits, st, ti) == PlpInterleave(bits, s1, ti)
  {
    hide Read, Value, Get, Put, Num, Hti, Cti, ExtendedFlag, HtiFecBlocks, Marks;
  }

  /** PlpCore leaves the read index where CoreEnd says */
  lemma PlpCoreEnd(bits: seq<Bit>, st: St, ti: nat)
    requires Fits(bits, st, 250)
    ensures PlpCore(bits, st, ti).pos == CoreEnd(bits, st, ti)
  {
    hide Read, Value, Get, Put, Num, Hti, Cti, ExtendedFlag, HtiFecBlocks, Marks, CoreNextLine, TypeLines;
    PlpCoreThen(bits, st, ti);
    hide PlpCore, PlpType, PlpInterleave;
    PlpInterleaveLayout(bits, PlpType(bits, st), ti);
  }

  /** After the PLP type lines PlpCore prints CoreNextLine, or nothing */
  lemma PlpCoreNext(bits: seq<Bit>, st: St, ti: nat)
    requires Fits(bits, st, 250)
    ensures var out := PlpCore(bits, st, ti).out;
      var k := |st.out| + TypeLines(bits, st);
      k <= |out| && (if k < |out| then Text.Some(out[k]) else Text.None) == CoreNextLine(bits, st, ti)
  {
    hide Read, Value, Get, Put, Num, Hti, Cti, ExtendedFlag, HtiFecBlocks, Marks, CoreEnd;
    PlpCoreThen(bits, st, ti);
    hide PlpCore, PlpType, PlpInterleave, TypeLines;
    PlpInterleaveLayout(bits, PlpType(bits, st), ti);
  }

  /** A non-core layer has only its 5-bit LDM injection level */
  function PlpLayer(bits: seq<Bit>, st: St, layer: nat, ti: nat): (r: St)
    ensures layer != 0 && Fits(bits, st, 5) ==> r.pos == st.pos + 5 && |r.out| == |st.out| + 1
    ensures r.plpMod == st.plpMod && r.numPlp == st.numPlp
    ensures Marks(r.out) == Marks(st.out)
  {
    hide Marks;
    if layer == 0 then PlpCore(bits, st, ti)
    else Num(bits, st, 3, "L1D_plp_ldm_injection_level", 5).1
  }

  /** PLP #j of a subframe */
  function Plp(bits: seq<Bit>, numRf: nat, mimo: bool, j: nat, st: St): (r: St)
    ensures r.numPlp == st.numPlp
    ensures Marks(r.out) == Marks(st.out) + [Heading(2, "PLP #", j)]
  {
    hide Marks;
    var st := Put(st, Heading(2, "PLP #", j));
    var (layer, st) := PlpHead(bits, st);
    var st := PlpFec(bits, st);
    var (ti, st) := PlpTi(bits, st);
    var st := PlpBonding(bits, st, numRf);
    var st := PlpMimo(bits, st, mimo);
    PlpLayer(bits, st, layer, ti)
  }

  /** The headings "PLP #j:" to "PLP #n:" */
  function PlpMarks(j: nat, n: nat): seq<Line>
    decreases n + 1 - j
  {
    if j > n then [] else [Heading(2, "PLP #", j)] + PlpMarks(j + 1, n)
  }

  /** PLPs j = first..n */
  function Plps(bits: seq<Bit>, numRf: nat, mimo: bool, j: nat, n: nat, st: St): (r: St)
    requires j <= n + 1
    ensures r.numPlp == st.numPlp
    ensures Marks(r.out) == Marks(st.out) + PlpMarks(j, n)
    decreases n + 1 - j, 1
  {
    hide Marks;
    if j > n then st else PlpThenRest(bits, numRf, mimo, j, n, st)
  }

  /** PLP #j, then PLPs j + 1..n */
  function PlpThenRest(bits: seq<Bit>, numRf: nat, mimo: bool, j: nat, n: nat, st: St): (r: St)
    requires j <= n
    ensures r.numPlp == st.numPlp
    ensures Marks(r.out) == Marks(st.out) + PlpMarks(j, n)
    decreases n + 1 - j, 0
  {
    hide Marks, Plp, Plps;
    var st' := Plp(bits, numRf, mimo, j, st);
    var r := Plps(bits, numRf, mimo, j + 1, n, st');
    assert PlpMarks(j, n) == [Heading(2, "PLP #", j)] + PlpMarks(j + 1, n);
    assert Marks(r.out) == Marks(st.out) + ([Heading(2, "PLP #", j)] + PlpMarks(j + 1, n));
    r
  }

  // ---------------------------------------------------- L1-Detail: subframes

  /** The parameters a subframe after the first repeats (33 bits) */
  function SubframeParams(bits: seq<Bit>, st: St): (r: (nat, nat, nat, St))
    ensures Fits(bits, st, 33) ==> r.3.pos == st.pos + 33
    ensures r.3.plpMod == st.plpMod && r.3.numPlp == st.numPlp
    ensures Marks(r.3.out) == Marks(st.out)
  {
    hide Marks;
    var (mimo, st) := Get(bits, st, 1);
    var st := Put(st, Field(1, "L1D_mimo", Choice(mimo, "No MIMO", "MIMO")));
    var (_, st) := Num(bits, st, 1, "L1D_miso", 2);
    var (v, st) := Get(bits, st, 2);
    var st := Put(st, Field(1, "L1D_fft_size", FftSize(v)));
    var (_, st) := Num(bits, st, 1, "L1D_reduced_carriers", 3);
    var (v, st) := Get(bits, st, 4);
    var st := Put(st, Field(1, "L1D_guard_interval", GuardInterval(v)));
    var (v, st) := Get(bits, st, 11);
    var st := Put(st, Field(1, "L1D_num_ofdm_symbols", Count(v)));
    var (_, st) := Num(bits, st, 1, "L1D_scattered_pilot_pattern", 5);
    var (_, st) := Num(bits, st, 1, "L1D_scattered_pilot_boost", 3);
    var (sbsFirst, st) := Num(bits, st, 1, "L1D_sbs_first", 1);
    var (sbsLast, st) := Num(bits, st, 1, "L1D_sbs_last", 1);
    (mimo, sbsFirst, sbsLast, st)
  }

  /** Subframe #i up to its parameters; yields whether its PLPs carry
      MIMO flags and whether it has SBS null cells. Subframe 0 takes its
      parameters from L1-Basic. */
  function SubframeHead(bits: seq<Bit>, b: BasicInfo, i: nat, st: St): (r: (bool, bool, St))
    ensures r.2.plpMod == st.plpMod && r.2.numPlp == st.numPlp
    ensures Marks(r.2.out) == Marks(st.out) + [Heading(0, "Subframe #", i)]
  {
    hide Marks;
    var st := Put(Put(st, Text(" ")), Heading(0, "Subframe #", i));
    var (mimo, sbsFirst, sbsLast, st) :=
      if i > 0 then SubframeParams(bits, st)
      else (b.firstMimo, b.firstSbsFirst, b.firstSbsLast, st);
    (mimo == 1, sbsFirst == 1 || sbsLast == 1, st)
  }

  /** The rest of a subframe's fields up to L1D_num_plp, which it leaves
      in l1d_num_plp */
  function SubframePlpCount(bits: seq<Bit>, b: BasicInfo, sbs: bool, st: St): (r: St)
    ensures r.out != [] && r.out[|r.out| - 1] == Field(1, "L1D_num_plp", Count(r.numPlp))
    ensures var q := st.pos + (if b.numSubframes > 0 then 1 else 0) + 1 + (if sbs then 13 else 0);
      Fits(bits, st, 21) ==> r.pos == q + 6 && r.numPlp == Read(bits, q, 6).0
    ensures r.plpMod == st.plpMod
    ensures Marks(r.out) == Marks(st.out)
  {
    hide Marks, Num, Read, Value, NumPlp;
    var st :=
      if b.numSubframes > 0 then Num(bits, st, 1, "L1D_subframe_multiplex", 1).1
      else st;
    var (v, st) := Get(bits, st, 1);
    var st := Put(st, Field(1, "L1D_frequency_interleaver", Choice(v, "Preamble Only", "All Symbols")));
    var st :=
      if sbs then Num(bits, st, 1, "L1D_sbs_null_cells", 13).1
      else st;
    NumPlp(bits, st)
  }

  /** L1D_num_plp, which becomes l1d_num_plp */
  function NumPlp(bits: seq<Bit>, st: St): (r: St)
    ensures (r.numPlp, r.pos) == Read(bits, st.pos, 6)
    ensures r.out == st.out + [Field(1, "L1D_num_plp", Count(r.numPlp))]
    ensures r.plpMod == st.plpMod
    ensures Marks(r.out) == Marks(st.out)
  {
    hide Marks;
    var (numPlp, st) := Get(bits, st, 6);
    Put(st.(numPlp := numPlp), Field(1, "L1D_num_plp", Count(numPlp)))
  }

  /** SubframeParams yields L1D_mimo, the first of its 33 bits, and
      L1D_sbs_first and L1D_sbs_last, the last two */
  lemma SubframeParamsFlags(bits: seq<Bit>, st: St)
    requires Fits(bits, st, 33)
    ensures var r := SubframeParams(bits, st);
      r.0 == Read(bits, st.pos, 1).0 && r.1 == Read(bits, st.pos + 31, 1).0 && r.2 == Read(bits, st.pos + 32, 1).0
  {
    hide Value, Marks, Titled, MimoPlps, MixedOn;
  }

  /** Whether subframe #i has SBS null cells: L1D_sbs_first or
      L1D_sbs_last, the last two of a later subframe's 33 parameter bits,
      and the L1-Basic ones for subframe 0 */
  function HasSbs(bits: seq<Bit>, b: BasicInfo, i: nat, st: St): bool
  {
    if i > 0 then Read(bits, st.pos + 31, 1).0 == 1 || Read(bits, st.pos + 32, 1).0 == 1
    else b.firstSbsFirst == 1 || b.firstSbsLast == 1
  }

  /** SubframeHead reads the 33 parameter bits of a subframe past the
      first and nothing for subframe 0, whose MIMO and SBS flags come from
      L1-Basic */
  lemma SubframeHeadLayout(bits: seq<Bit>, b: BasicInfo, i: nat, st: St)
    requires Fits(bits, st, 33)
    ensures SubframeHead(bits, b, i, st).2.pos == st.pos + (if i > 0 then 33 else 0)
    ensures SubframeHead(bits, b, i, st).0 == if i > 0 then Read(bits, st.pos, 1).0 == 1 else b.firstMimo == 1
    ensures SubframeHead(bits, b, i, st).1 == HasSbs(bits, b, i, st)
  {
    hide Read, Value, Marks, Get, Num, Titled, MimoPlps, MixedOn;
    var s1 := Put(Put(st, Text(" ")), Heading(0, "Subframe #", i));
    if i > 0 {
      SubframeParamsFlags(bits, s1);
      var (mimo, first, last, s2) := SubframeParams(bits, s1);
      assert SubframeHead(bits, b, i, st) == (mimo == 1, first == 1 || last == 1, s2);
    }
  }

  /** Subframe #i: its heading and parameters, L1D_num_plp, then PLPs
      0..l1d_num_plp */
  function Subframe(bits: seq<Bit>, b: BasicInfo, numRf: nat, i: nat, st: St): (r: St)
    ensures Marks(r.out) == Marks(st.out) + [Heading(0, "Subframe #", i)] + PlpMarks(0, r.numPlp)
  {
    hide Marks;
    var (mimo, sbs, st) := SubframeHead(bits, b, i, st);
    var st := SubframePlpCount(bits, b, sbs, st);
    Plps(bits, numRf, mimo, 0, st.numPlp, st)
  }

  /** Subframes i = first..L1B_num_subframes: the headings printed so far
      stay, and the first new one is "Subframe #i:" */
  function Subframes(bits: seq<Bit>, b: BasicInfo, numRf: nat, i: nat, st: St): (r: St)
    requires i <= b.numSubframes + 1
    ensures Marks(st.out) <= Marks(r.out)
    ensures i <= b.numSubframes ==> Marks(st.out) + [Heading(0, "Subframe #", i)] <= Marks(r.out)
    decreases b.numSubframes + 1 - i
  {
    hide Marks, Subframe;
    if i > b.numSubframes then st
    else
      var st' := Subframe(bits, b, numRf, i, st);
      var r := Subframes(bits, b, numRf, i + 1, st');
      PrefixTrans(Marks(st.out) + [Heading(0, "Subframe #", i)], Marks(st'.out), Marks(r.out));
      r
  }

  /** Prefixes of prefixes are prefixes */
  lemma PrefixTrans<T>(a: seq<T>, b: seq<T>, c: seq<T>)
    requires a <= b && b <= c
    ensures a <= c
  {
    assert c[..|a|] == c[..|b|][..|a|];
  }

  // ------------------------------------------------ L1-Detail: version 2 pass

  /** The per-PLP MIMO flags of the second pass for PLPs j = first..n */
  function PlpMimoFlags(bits: seq<Bit>, st: St, j: nat, n: nat): (r: St)
    requires j <= n + 1
    ensures r.numPlp == st.numPlp
    ensures Marks(r.out) == Marks(st.out)
    decreases n + 1 - j
  {
    hide Marks;
    if j > n then st
    else
      var (m, st) := Get(bits, st, 1);
      var st := Put(st, IndexedField(2, "PLP #", j, "L1D_plp_mimo", Dec(m)));
      var st := if m == 1 then PlpMimo(bits, st, true) else st;
      PlpMimoFlags(bits, st, j + 1, n)
  }

  /** The mixed flag of subframe i in the second pass: read and printed
      for i > 0, L1B_first_sub_mimo_mixed for subframe 0 */
  function MixedFlag(bits: seq<Bit>, b: BasicInfo, i: nat, st: St): (r: (nat, St))
    ensures r.0 == if i > 0 then Read(bits, st.pos, 1).0 else b.firstMimoMixed
    ensures r.1.numPlp == st.numPlp
    ensures MimoPlps(r.1.out) == MimoPlps(st.out)
    ensures MixedOn(r.1.out) == MixedOn(st.out) + (if i > 0 && r.0 == 1 then 1 else 0)
    ensures Marks(r.1.out) == Marks(st.out)
  {
    hide Marks;
    if i > 0 then
      var (m, st') := Get(bits, st, 1);
      var line := IndexedField(1, "Subframe #", i, "L1D_mimo_mixed", Dec(m));
      AppendLine(st'.out, line);
      (m, Put(st', line))
    else (b.firstMimoMixed, st)
  }

  /** Subframes i = first..L1B_num_subframes of the second pass. Every
      subframe walks l1d_num_plp + 1 PLPs: the count the last subframe of
      the first pass left behind. */
  function MimoMixed(bits: seq<Bit>, b: BasicInfo, i: nat, st: St): (r: St)
    requires i <= b.numSubframes + 1
    ensures r.numPlp == st.numPlp
    ensures Marks(r.out) == Marks(st.out)
    decreases b.numSubframes + 1 - i
  {
    hide Marks;
    if i > b.numSubframes then st
    else
      var (mixed, st) := MixedFlag(bits, b, i, st);
      var st := if mixed == 1 then PlpMimoFlags(bits, st, 0, st.numPlp) else st;
      MimoMixed(bits, b, i + 1, st)
  }

  /** The PLP numbers of the "PLP #j L1D_plp_mimo" lines among xs, in order */
  function MimoPlps(xs: seq<Line>): seq<int>
  {
    if xs == [] then []
    else
      var l := xs[|xs| - 1];
      MimoPlps(xs[..|xs| - 1]) + (if l.IndexedField? && l.name == "L1D_plp_mimo" then [l.n] else [])
  }

  /** How many "Subframe #i L1D_mimo_mixed: 1" lines xs holds */
  function MixedOn(xs: seq<Line>): nat
  {
    if xs == [] then 0
    else
      var l := xs[|xs| - 1];
      MixedOn(xs[..|xs| - 1]) + (if l.IndexedField? && l.name == "L1D_mimo_mixed" && l.value == Dec(1) then 1 else 0)
  }

  /** j, j + 1, ..., n */
  function Range(j: int, n: int): seq<int>
    decreases n + 1 - j
  {
    if j > n then [] else [j] + Range(j + 1, n)
  }

  /** c copies of s, one after the other */
  function Repeat(s: seq<int>, c: nat): seq<int>
  {
    if c == 0 then [] else s + Repeat(s, c - 1)
  }

  /** Appending a line extends MimoPlps and MixedOn by what that line is */
  lemma AppendLine(xs: seq<Line>, l: Line)
    ensures MimoPlps(xs + [l]) == MimoPlps(xs) + (if l.IndexedField? && l.name == "L1D_plp_mimo" then [l.n] else [])
    ensures MixedOn(xs + [l]) == MixedOn(xs) + (if l.IndexedField? && l.name == "L1D_mimo_mixed" && l.value == Dec(1) then 1 else 0)
  {
    assert (xs + [l])[..|xs|] == xs;
  }

  /** The three MIMO flags of a PLP are Field lines */
  lemma PlpMimoKeeps(bits: seq<Bit>, st: St)
    ensures MimoPlps(PlpMimo(bits, st, true).out) == MimoPlps(st.out)
    ensures MixedOn(PlpMimo(bits, st, true).out) == MixedOn(st.out)
  {
    var s1 := Num(bits, st, 3, "L1D_plp_mimo_stream_combining", 1).1;
    var s2 := Num(bits, s1, 3, "L1D_plp_mimo_IQ_interleaving", 1).1;
    var s3 := Num(bits, s2, 3, "L1D_plp_mimo_PH", 1).1;
    assert PlpMimo(bits, st, true) == s3;
    AppendLine(st.out, Field(3, "L1D_plp_mimo_stream_combining", Dec(Read(bits, st.pos, 1).0)));
    AppendLine(s1.out, Field(3, "L1D_plp_mimo_IQ_interleaving", Dec(Read(bits, s1.pos, 1).0)));
    AppendLine(s2.out, Field(3, "L1D_plp_mimo_PH", Dec(Read(bits, s2.pos, 1).0)));
  }

  /** The per-PLP loop of the second pass prints one "L1D_plp_mimo" line for
      each of PLPs j..n, in order, and no mixed flag */
  lemma {:induction false} PlpMimoFlagsPlps(bits: seq<Bit>, st: St, j: nat, n: nat)
    requires j <= n + 1
    ensures MimoPlps(PlpMimoFlags(bits, st, j, n).out) == MimoPlps(st.out) + Range(j, n)
    ensures MixedOn(PlpMimoFlags(bits, st, j, n).out) == MixedOn(st.out)
    decreases n + 1 - j
  {
    hide Read, Value, Num, PlpMimo, Marks, Titled, MimoPlps, MixedOn;
    if j <= n {
      var (m, s1) := Get(bits, st, 1);
      var line := IndexedField(2, "PLP #", j, "L1D_plp_mimo", Dec(m));
      var s2 := Put(s1, line);
      var s3 := if m == 1 then PlpMimo(bits, s2, true) else s2;
      assert PlpMimoFlags(bits, st, j, n) == PlpMimoFlags(bits, s3, j + 1, n);
      AppendLine(st.out, line);
      if m == 1 {
        PlpMimoKeeps(bits, s2);
      }
      hide PlpMimoFlags, Get, Put;
      PlpMimoFlagsPlps(bits, s3, j + 1, n);
      assert Range(j, n) == [j] + Range(j + 1, n);
    }
  }

  /** The second pass, from subframe i on: every mixed subframe (subframe 0
      when L1B_first_sub_mimo_mixed is 1, a later one when it prints
      "L1D_mimo_mixed: 1") prints one "L1D_plp_mimo" line for each of PLPs
      0..l1d_num_plp, that count being the one the first pass left behind,
      and the others print none */
  lemma {:induction false} MimoMixedPlps(bits: seq<Bit>, b: BasicInfo, i: nat, st: St)
    requires i <= b.numSubframes + 1
    ensures var r := MimoMixed(bits, b, i, st);
      var first := if i == 0 && b.firstMimoMixed == 1 then 1 else 0;
      && MixedOn(st.out) <= MixedOn(r.out)
      && MimoPlps(r.out) == MimoPlps(st.out) + Repeat(Range(0, st.numPlp), MixedOn(r.out) - MixedOn(st.out) + first)
    decreases b.numSubframes + 1 - i
  {
    hide Read, Value, Num, PlpMimo, Marks, Titled, Get, Put, MimoPlps, MixedOn, Range;
    if i <= b.numSubframes {
      var (mixed, s1) := MixedFlag(bits, b, i, st);
      var s2 := if mixed == 1 then PlpMimoFlags(bits, s1, 0, s1.numPlp) else s1;
      var r := MimoMixed(bits, b, i + 1, s2);
      assert MimoMixed(bits, b, i, st) == r;
      var R := Range(0, st.numPlp);
      if mixed == 1 {
        PlpMimoFlagsPlps(bits, s1, 0, s1.numPlp);
      }
      assert MimoPlps(s2.out) == MimoPlps(st.out) + (if mixed == 1 then R else []);
      assert MixedOn(s2.out) == MixedOn(st.out) + (if i > 0 && mixed == 1 then 1 else 0);
      assert s2.numPlp == st.numPlp;
      hide MimoMixed, PlpMimoFlags, MixedFlag;
      MimoMixedPlps(bits, b, i + 1, s2);
      var c := MixedOn(r.out) - MixedOn(s2.out);
      assert MimoPlps(r.out) == MimoPlps(s2.out) + Repeat(R, c);
      var first := if i == 0 && b.firstMimoMixed == 1 then 1 else 0;
      var total := MixedOn(r.out) - MixedOn(st.out) + first;
      if mixed == 1 {
        assert total == c + 1;
        assert Repeat(R, c + 1) == R + Repeat(R, c);
        assert MimoPlps(r.out) == MimoPlps(st.out) + (R + Repeat(R, c));
      } else {
        assert total == c;
      }
      hide Repeat;
      assert MimoPlps(r.out) == MimoPlps(st.out) + Repeat(R, total);
      assert MixedOn(st.out) <= MixedOn(r.out);
    } else {
      assert MimoMixed(bits, b, i, st) == st;
      assert Repeat(Range(0, st.numPlp), 0) == [];
    }
  }

  /** L1D_bsid from version 1, the second pass from version 2 */
  function DetailTail(bits: seq<Bit>, b: BasicInfo, version: nat, st: St): (r: St)
    ensures version == 0 ==> r == st
    ensures version == 1 ==>
      && r.pos == Read(bits, st.pos, 16).1
      && r.out == st.out + [Field(0, "L1D_bsid", Hex(Read(bits, st.pos, 16).0, 4))]
    ensures r.numPlp == st.numPlp
    ensures Marks(r.out) == Marks(st.out)
  {
    hide Marks;
    var st :=
      if version >= 1 then
        var (bsid, st) := Get(bits, st, 16);
        Put(st, Field(0, "L1D_bsid", Hex(bsid, 4)))
      else st;
    if version >= 2 then MimoMixed(bits, b, 0, st) else st
  }

  /** What the second pass prints by L1D_version: nothing below 2, and
      from 2 one "L1D_plp_mimo" line for each of PLPs 0..l1d_num_plp in every
      mixed subframe */
  lemma DetailTailPlps(bits: seq<Bit>, b: BasicInfo, version: nat, st: St)
    ensures var r := DetailTail(bits, b, version, st);
      var first := if b.firstMimoMixed == 1 then 1 else 0;
      && MixedOn(st.out) <= MixedOn(r.out)
      && MimoPlps(r.out)
         == MimoPlps(st.out) + (if version >= 2 then Repeat(Range(0, st.numPlp), MixedOn(r.out) - MixedOn(st.out) + first) else [])
  {
    hide Read, Value, Num, PlpMimo, Marks, Titled, MimoPlps, MixedOn, Range, Repeat, MimoMixed;
    var s1 :=
      if version >= 1 then
        var (bsid, s) := Get(bits, st, 16);
        Put(s, Field(0, "L1D_bsid", Hex(bsid, 4)))
      else st;
    if version >= 1 {
      var (bsid, s) := Get(bits, st, 16);
      AppendLine(s.out, Field(0, "L1D_bsid", Hex(bsid, 4)));
    }
    assert MimoPlps(s1.out) == MimoPlps(st.out) && MixedOn(s1.out) == MixedOn(st.out) && s1.numPlp == st.numPlp;
    if version >= 2 {
      assert DetailTail(bits, b, version, st) == MimoMixed(bits, b, 0, s1);
      MimoMixedPlps(bits, b, 0, s1);
    } else {
      assert DetailTail(bits, b, version, st) == s1;
    }
  }

  /** The skip to the declared end of L1-Detail and L1D_crc. When the
      fields so far (from bit 200 on) fall short of 8 * size - 32 bits, the
      read index moves to bit 200 + 8 * size - 32, unless that is past the
      buffer, in which case the skip is refused and the index stays. The CRC
      is then the 32 bits at the index, or 0 when they run past the end. */
  function Trailer(bits: seq<Bit>, size: nat, st: St): (r: St)
    ensures var at := CrcAt(size, st.pos, |bits|);
      r.pos == (if at + 32 <= |bits| then at + 32 else at)
      && r.out == st.out + [Field(0, "L1D_crc", Hex(CrcValue(bits, at), 8))]
    ensures Marks(r.out) == Marks(st.out)
  {
    hide Marks;
    var skip := (size * 8 - 32) - (st.pos - 200);
    var st := if skip > 0 then Get(bits, st, skip).1 else st;
    var (crc, st) := Get(bits, st, 32);
    Put(st, Field(0, "L1D_crc", Hex(crc, 8)))
  }

  /** Where L1D_crc is read: bit 200 + 8 * size - 32 when the fields up to
      pos fall short of it and it lies within the len-bit buffer, else pos */
  function CrcAt(size: nat, pos: nat, len: nat): nat
  {
    var skip := (size * 8 - 32) - (pos - 200);
    if skip > 0 && 200 + 8 * size - 32 <= len then 200 + 8 * size - 32 else pos
  }

  /** The 32 bits at `at`, or 0 when they run past the end */
  function CrcValue(bits: seq<Bit>, at: nat): nat
  {
    if at + 32 <= |bits| then Value(bits[at..at + 32]) else 0
  }

  /** On the 4096-bit buffer a declared size of 489 bytes with the fields
      ending at bit 1000 moves the index to bit 4080, and the CRC, which
      would end at bit 4112, reads as 0 */
  lemma TrailerPastEnd(bits: seq<Bit>, st: St)
    requires |bits| == BufferBits && st.pos == 1000
    ensures Trailer(bits, 489, st).pos == 4080
    ensures Trailer(bits, 489, st).out == st.out + [Field(0, "L1D_crc", Hex(0, 8))]
  {
  }

  /** A declared size of 492 bytes or more puts the end past the buffer:
      the skip is refused and the CRC is read where the fields ended */
  lemma TrailerSkipRefused(bits: seq<Bit>, size: nat, st: St)
    requires |bits| == BufferBits && size >= 492 && st.pos + 32 <= |bits|
    ensures Trailer(bits, size, st).pos == st.pos + 32
    ensures Trailer(bits, size, st).out
         == st.out + [Field(0, "L1D_crc", Hex(Value(bits[st.pos..st.pos + 32]), 8))]
  {
  }

  // --------------------------------------------------------------- whole

  /** L1B_L1_Detail_size_bytes: the 13 bits at offset 50 of the buffer */
  function DetailSizeField(bits: seq<Bit>): nat
  {
    Read(bits, 50, 13).0
  }

  /** L1D_version: the 4 bits right after the 200 of L1-Basic */
  function VersionField(bits: seq<Bit>): nat
  {
    Read(bits, 200, 4).0
  }

  /** L1D_num_rf: the 3 bits after L1D_version */
  function NumRfField(bits: seq<Bit>): nat
  {
    Read(bits, 204, 3).0
  }

  /** The L1-Basic banner and fields, the L1-Detail banner and head:
      L1-Basic, L1D_version, L1D_num_rf and the state the subframes start
      from */
  function Start(bits: seq<Bit>): (r: (BasicInfo, nat, nat, St))
    requires |bits| == BufferBits
    ensures r.0.detailSize == DetailSizeField(bits)
    ensures r.1 == VersionField(bits) && r.2 == NumRfField(bits)
    ensures r.3.pos == 207 + 19 * r.2 + TimeBits(r.0.timeInfo)
  {
    hide Marks, Basic, DetailHead, Read;
    var st := Put(St(0, [], 0, 0), Text("--- L1-Basic Signaling ---"));
    BasicDetailSize(bits, st);
    var (b, st) := Basic(bits, st);
    var st := Put(Put(st, Text(" ")), Text("--- L1-Detail Signaling ---"));
    var (version, numRf, st) := DetailHead(bits, st, b.timeInfo);
    (b, version, numRf, st)
  }

  /** The subframes start once L1-Basic has given L1B_num_subframes, from
      an output that holds no subframe heading yet */
  lemma StartOutline(bits: seq<Bit>)
    requires |bits| == BufferBits
    ensures Read(bits, 34, 8).0 == Start(bits).0.numSubframes
    ensures Titled(Marks(Start(bits).3.out), "Subframe #") == 0
  {
    assert Marks([]) == [] && Titled([], "Subframe #") == 0;
    hide Marks, Titled, Read, Basic, DetailHead, Put;
    var st0 := Put(St(0, [], 0, 0), Text("--- L1-Basic Signaling ---"));
    assert Marks(st0.out) == [];
    BasicNumSubframes(bits, st0);
    var (b, st1) := Basic(bits, st0);
    var st2 := Put(Put(st1, Text(" ")), Text("--- L1-Detail Signaling ---"));
    assert Marks(st2.out) == [];
    var (version, numRf, st3) := DetailHead(bits, st2, b.timeInfo);
    assert Start(bits) == (b, version, numRf, st3);
  }

  /** Everything before the trailer: the L1-Basic banner and fields, the
      L1-Detail banner, head, subframes, BSID and second pass */
  function Prologue(bits: seq<Bit>): (r: (BasicInfo, St))
    requires |bits| == BufferBits
    ensures r.0.detailSize == DetailSizeField(bits)
    ensures Marks(Start(bits).3.out) <= Marks(r.1.out)
  {
    hide Marks, Start, Subframes, DetailTail, Read;
    var (b, version, numRf, st) := Start(bits);
    var st := Subframes(bits, b, numRf, 0, st);
    (b, DetailTail(bits, b, version, st))
  }

  /** parse_l1_data on a loaded buffer: the final state */
  function Parse(bits: seq<Bit>): St
    requires |bits| == BufferBits
  {
    var (b, st) := Prologue(bits);
    Trailer(bits, b.detailSize, st)
  }

  /** parse_l1_data ends with L1D_crc, read where the skip by
      L1B_L1_Detail_size_bytes (the 13 bits at offset 50) puts it */
  lemma ParseTrailer(bits: seq<Bit>)
    requires |bits| == BufferBits
    ensures var p := Prologue(bits).1;
      Parse(bits).out == p.out + [Field(0, "L1D_crc", Hex(CrcValue(bits, CrcAt(DetailSizeField(bits), p.pos, |bits|)), 8))]
  {
    hide Marks, Prologue, Trailer, Read, CrcAt, CrcValue;
  }

  // ------------------------------------------------------------ the outline

  /** How many of the headings ms carry the title t */
  function Titled(ms: seq<Line>, t: string): nat
  {
    if ms == [] then 0
    else Titled(ms[..|ms| - 1], t) + (if ms[|ms| - 1].Heading? && ms[|ms| - 1].title == t then 1 else 0)
  }

  lemma {:induction false} TitledAppend(a: seq<Line>, b: seq<Line>, t: string)
    ensures Titled(a + b, t) == Titled(a, t) + Titled(b, t)
    decreases |b|
  {
    if b != [] {
      var b' := b[..|b| - 1];
      assert (a + b)[..|a + b| - 1] == a + b';
      TitledAppend(a, b', t);
    } else {
      assert a + b == a;
    }
  }

  /** PlpMarks(j, n) is "PLP #j:" to "PLP #n:", one heading per PLP */
  lemma {:induction false} PlpMarksAre(j: nat, n: nat)
    ensures |PlpMarks(j, n)| == if j > n then 0 else n + 1 - j
    ensures forall k :: 0 <= k < |PlpMarks(j, n)| ==> PlpMarks(j, n)[k] == Heading(2, "PLP #", j + k)
    decreases n + 1 - j
  {
    if j <= n {
      PlpMarksAre(j + 1, n);
    }
  }

  /** The PLP headings carry no subframe title */
  lemma {:induction false} PlpMarksNoSubframe(j: nat, n: nat)
    ensures Titled(PlpMarks(j, n), "Subframe #") == 0
    decreases n + 1 - j
  {
    if j <= n {
      PlpMarksNoSubframe(j + 1, n);
      TitledAppend([Heading(2, "PLP #", j)], PlpMarks(j + 1, n), "Subframe #");
      assert [Heading(2, "PLP #", j)][..0] == [];
      assert "PLP #" != "Subframe #" by { assert "PLP #"[0] != "Subframe #"[0]; }
    }
  }

  /** Where subframe #i, starting at st, has its L1D_num_plp field: after
      the 33 parameter bits of a subframe past the first, the multiplex
      bit when there are several subframes, the frequency interleaver bit
      and the 13 SBS null-cell bits when the subframe has SBS */
  function NumPlpAt(bits: seq<Bit>, b: BasicInfo, i: nat, st: St): nat
  {
    var p := st.pos + (if i > 0 then 33 else 0);
    p + (if b.numSubframes > 0 then 1 else 0) + 1 + (if HasSbs(bits, b, i, st) then 13 else 0)
  }

  /** The PLP count subframe #i leaves, and walks its PLPs by, is its
      6-bit L1D_num_plp field */
  lemma SubframePlpField(bits: seq<Bit>, b: BasicInfo, numRf: nat, i: nat, st: St)
    requires Fits(bits, st, 54)
    ensures Subframe(bits, b, numRf, i, st).numPlp == Read(bits, NumPlpAt(bits, b, i, st), 6).0
  {
    hide Read, Value, Marks, Titled, MimoPlps, MixedOn, Plps, SubframePlpCount, SubframeHead, HasSbs;
    var (mimo, sbs, st1) := SubframeHead(bits, b, i, st);
    var st2 := SubframePlpCount(bits, b, sbs, st1);
    assert Subframe(bits, b, numRf, i, st) == Plps(bits, numRf, mimo, 0, st2.numPlp, st2);
    SubframeHeadLayout(bits, b, i, st);
  }

  /** Subframe #i adds one "Subframe #" heading, its PLPs none */
  lemma SubframeStep(bits: seq<Bit>, b: BasicInfo, numRf: nat, i: nat, st: St)
    ensures Titled(Marks(Subframe(bits, b, numRf, i, st).out), "Subframe #") == Titled(Marks(st.out), "Subframe #") + 1
  {
    var h := Heading(0, "Subframe #", i);
    assert Titled([h], "Subframe #") == 1 by {
      assert [h][..0] == [];
    }
    hide Marks, Titled, Subframe;
    var st' := Subframe(bits, b, numRf, i, st);
    TitledAppend(Marks(st.out), [h], "Subframe #");
    TitledAppend(Marks(st.out) + [h], PlpMarks(0, st'.numPlp), "Subframe #");
    PlpMarksNoSubframe(0, st'.numPlp);
  }

  /** Subframes i..L1B_num_subframes print one "Subframe #" heading each */
  lemma {:induction false} SubframesOutline(bits: seq<Bit>, b: BasicInfo, numRf: nat, i: nat, st: St)
    requires i <= b.numSubframes + 1
    ensures Titled(Marks(Subframes(bits, b, numRf, i, st).out), "Subframe #")
            == Titled(Marks(st.out), "Subframe #") + (b.numSubframes + 1 - i)
    decreases b.numSubframes + 1 - i
  {
    hide Marks, Titled, Subframe;
    if i <= b.numSubframes {
      SubframeStep(bits, b, numRf, i, st);
      SubframesOutline(bits, b, numRf, i + 1, Subframe(bits, b, numRf, i, st));
    }
  }

  /** parse_l1_data prints L1B_num_subframes + 1 subframes, where
      L1B_num_subframes is the 8 bits at offset 34 of L1-Basic */
  lemma ParseOutline(bits: seq<Bit>)
    requires |bits| == BufferBits
    ensures Read(bits, 34, 8).0 + 1 == Titled(Marks(Parse(bits).out), "Subframe #")
  {
    StartOutline(bits);
    hide Marks, Titled, Start, Trailer, Read, DetailTail, Subframes;
    var (b, version, numRf, st) := Start(bits);
    SubframesOutline(bits, b, numRf, 0, st);
  }
}
