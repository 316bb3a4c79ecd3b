/** parse_l1_data as the program runs it: get_bits advancing the static
    read index, add_line filling the caller's display, and the locals
    l1d_plp_mod and l1d_num_plp carried from one PLP or subframe to the
    next. Every method is proved to leave the decoder in the state the
    matching L1Spec function computes. */
module L1Parser {
  import opened Base64
  import opened Bits
  import opened Report
  import opened L1Fields
  import S = L1Spec

  class Decoder {
    /** The static bit buffer and bits_index */
    const reader: BitReader
    /** display_lines, line_count and max_lines */
    const display: Display
    /** The buffer as loaded for this call */
    ghost const bits: seq<Bit>
    /** What the display showed when this call began */
    ghost const start: seq<Line>
    var plpMod: nat
    var numPlp: nat

    ghost predicate Valid()
      reads this, reader, reader.bits, display, display.slots
    {
      reader.bits.Length == BufferBits && reader.bits[..] == bits && display.Valid() && display.start == start
    }

    /** The decoder's state in the terms of L1Spec */
    ghost function State(): S.St
      reads this, reader, display
    {
      S.St(reader.index, display.offered, plpMod, numPlp)
    }

    constructor(reader: BitReader, display: Display)
      requires reader.bits.Length == BufferBits && display.Valid()
      ensures this.reader == reader && this.display == display
      ensures bits == reader.bits[..] && start == display.start
      ensures Valid() && plpMod == 0 && numPlp == 0
    {
      this.reader := reader;
      this.display := display;
      bits := reader.bits[..];
      start := display.start;
      plpMod := 0;
      numPlp := 0;
    }

    /** get_bits(n) */
    method Get(n: nat) returns (v: nat)
      requires Valid()
      modifies reader`index
      ensures Valid()
      ensures (v, State()) == S.Get(bits, old(State()), n)
    {
      v := reader.GetBits(n);
    }

    /** add_line */
    method Add(line: Line)
      requires Valid()
      modifies display, display.slots
      ensures Valid()
      ensures State() == S.Put(old(State()), line)
    {
      display.Add(line);
    }

    /** value = get_bits(n); add_line("NAME: %ld", value); */
    method Num(depth: nat, name: string, n: nat) returns (v: nat)
      requires Valid()
      modifies reader`index, display, display.slots
      ensures Valid()
      ensures (v, State()) == S.Num(bits, old(State()), depth, name, n)
    {
      v := Get(n);
      Add(Field(depth, name, Dec(v)));
    }

    // -------------------------------------------------------------- L1-Basic

    method BasicFrame() returns (version: nat, timeInfo: nat)
      requires Valid() && S.Fits(bits, State(), 34)
      modifies reader`index, display, display.slots
      ensures Valid()
      ensures (version, timeInfo, State()) == S.BasicFrame(bits, old(State()))
    {
      var mode;
      version, timeInfo, mode := BasicFlags();
      hide S.BasicFlags, S.FrameLength, S.Marks;
      FrameLength(mode);
    }

    method BasicFlags() returns (version: nat, timeInfo: nat, mode: nat)
      requires Valid()
      modifies reader`index, display, display.slots
      ensures Valid()
      ensures (version, timeInfo, mode, State()) == S.BasicFlags(bits, old(State()))
    {
      version := Num(0, "L1B_version", 3);
      var v := Get(1);
      Add(Field(0, "L1B_mimo_scattered_pilot_encoding", Choice(v, "Walsh-Hadamard", "Null pilots")));
      v := Get(1);
      Add(Field(0, "L1B_lls_flag", Choice(v, "No LLS", "LLS present")));
      timeInfo := Get(2);
      Add(Field(0, "L1B_time_info_flag", TimeInfo(timeInfo)));
      v := Num(0, "L1B_return_channel_flag", 1);
      v := Get(2);
      Add(Field(0, "L1B_papr_reduction", Papr(v)));
      mode := Get(1);
    }

    method FrameLength(mode: nat)
      requires Valid() && S.Fits(bits, State(), 23)
      modifies reader`index, display, display.slots
      ensures Valid()
      ensures State() == S.FrameLength(bits, old(State()), mode)
    {
      hide S.Get, S.Put, S.Num, S.Marks;
      var v;
      if mode == 0 {
        Add(Field(0, "L1B_frame_length_mode", Named("Time-aligned")));
        v := Num(1, "L1B_frame_length", 10);
        v := Num(1, "L1B_excess_samples_per_symbol", 13);
      } else {
        Add(Field(0, "L1B_frame_length_mode", Named("Symbol-aligned")));
        v := Num(1, "L1B_time_offset", 16);
        v := Num(1, "L1B_additional_samples", 7);
      }
    }

    method BasicDetail() returns (numSubframes: nat, detailSize: nat)
      requires Valid() && S.Fits(bits, State(), 53)
      modifies reader`index, display, display.slots
      ensures Valid()
      ensures (numSubframes, detailSize, State()) == S.BasicDetail(bits, old(State()))
    {
      hide S.Get, S.Put, S.Num, S.Marks;
      numSubframes := Get(8);
      Add(Field(0, "L1B_num_subframes", Count(numSubframes)));
      var v := Get(3);
      Add(Field(0, "L1B_preamble_num_symbols", Count(v)));
      v := Num(0, "L1B_preamble_reduced_carriers", 3);
      v := Num(0, "L1B_L1_Detail_content_tag", 2);
      detailSize := Num(0, "L1B_L1_Detail_size_bytes", 13);
      v := Get(3);
      Add(Field(0, "L1B_L1_Detail_fec_type", DetailFecMode(v)));
      v := Get(2);
      Add(Field(0, "L1B_L1_additional_parity_mode", Tagged("K=", v)));
      v := Num(0, "L1B_L1_Detail_total_cells", 19);
    }

    method BasicFirstSub() returns (mimo: nat, sbsFirst: nat, sbsLast: nat)
      requires Valid() && S.Fits(bits, State(), 33)
      modifies reader`index, display, display.slots
      ensures Valid()
      ensures (mimo, sbsFirst, sbsLast, State()) == S.BasicFirstSub(bits, old(State()))
    {
      hide S.Get, S.Put, S.Num, S.Marks;
      mimo := Get(1);
      Add(Field(0, "L1B_first_sub_mimo", Choice(mimo, "No MIMO", "MIMO")));
      var v := Num(0, "L1B_first_sub_miso", 2);
      v := Get(2);
      Add(Field(0, "L1B_first_sub_fft_size", FftSize(v)));
      v := Num(0, "L1B_first_sub_reduced_carriers", 3);
      v := Get(4);
      Add(Field(0, "L1B_first_sub_guard_interval", GuardInterval(v)));
      v := Get(11);
      Add(Field(0, "L1B_first_sub_num_ofdm_symbols", Count(v)));
      v := Num(0, "L1B_first_sub_scattered_pilot_pattern", 5);
      v := Num(0, "L1B_first_sub_scattered_pilot_boost", 3);
      sbsFirst := Num(0, "L1B_first_sub_sbs_first", 1);
      sbsLast := Num(0, "L1B_first_sub_sbs_last", 1);
    }

    method BasicReserved(version: nat) returns (mixed: nat)
      requires Valid() && S.Fits(bits, State(), 48)
      modifies reader`index, display, display.slots
      ensures Valid()
      ensures (mixed, State()) == S.BasicReserved(bits, old(State()), version)
    {
      hide S.Get, S.Put, S.Num, S.Marks;
      var skipped;
      if version >= 1 {
        mixed := Num(0, "L1B_first_sub_mimo_mixed", 1);
        skipped := Get(47);
      } else {
        mixed := 0;
        skipped := Get(48);
      }
    }

    method Basic() returns (b: S.BasicInfo)
      requires Valid() && S.Fits(bits, State(), 200)
      modifies reader`index, display, display.slots
      ensures Valid()
      ensures (b, State()) == S.Basic(bits, old(State()))
    {
      hide S.BasicFrame, S.FrameLength, S.BasicDetail, S.BasicFirstSub, S.BasicReserved, S.Marks;
      var version, timeInfo := BasicFrame();
      var numSubframes, detailSize := BasicDetail();
      var mimo, sbsFirst, sbsLast := BasicFirstSub();
      var mixed := BasicReserved(version);
      var crc := Get(32);
      Add(Field(0, "L1B_crc", Hex(crc, 8)));
      b := S.BasicInfo(timeInfo, numSubframes, detailSize, mimo, sbsFirst, sbsLast, mixed);
    }

    // ------------------------------------------------------ L1-Detail: head

    method DetailHead(timeInfo: nat) returns (version: nat, numRf: nat)
      requires Valid()
      modifies reader`index, display, display.slots
      ensures Valid()
      ensures (version, numRf, State()) == S.DetailHead(bits, old(State()), timeInfo)
    {
      hide S.Get, S.Put, S.Num, S.Marks;
      version := Num(0, "L1D_version", 4);
      numRf := Num(0, "L1D_num_rf", 3);
      ghost var st := State();
      var i := 1;
      while i <= numRf
        invariant 1 <= i <= numRf + 1 && Valid()
        invariant S.BondedBsids(bits, State(), i, numRf) == S.BondedBsids(bits, st, 1, numRf)
      {
        var bsid := Get(16);
        Add(Field(1, "L1D_bonded_bsid", Hex(bsid, 4)));
        var skipped := Get(3);
        i := i + 1;
      }
      TimeFields(timeInfo);
    }

    method TimeFields(timeInfo: nat)
      requires Valid()
      modifies reader`index, display, display.slots
      ensures Valid()
      ensures State() == S.TimeFields(bits, old(State()), timeInfo)
    {
      hide S.Get, S.Put, S.Num, S.Marks;
      if timeInfo != 0 {
        var v := Num(0, "L1D_time_sec", 32);
        v := Num(0, "L1D_time_msec", 10);
        if timeInfo > 1 {
          v := Num(0, "L1D_time_usec", 10);
          if timeInfo > 2 {
            v := Num(0, "L1D_time_nsec", 10);
          }
        }
      }
    }

    // ------------------------------------------------------ L1-Detail: PLPs

    method PlpHead() returns (layer: nat)
      requires Valid()
      modifies reader`index, display, display.slots
      ensures Valid()
      ensures (layer, State()) == S.PlpHead(bits, old(State()))
    {
      hide S.Get, S.Put, S.Num, S.Marks;
      var v := Num(3, "L1D_plp_id", 6);
      v := Num(3, "L1D_plp_lls_flag", 1);
      layer := Get(2);
      Add(Field(3, "L1D_plp_layer", Layer(layer)));
      v := Num(3, "L1D_plp_start", 24);
      v := Num(3, "L1D_plp_size", 24);
      v := Get(2);
      Add(Field(3, "L1D_plp_scrambler_type", Scrambler(v)));
    }

    method PlpFec()
      requires Valid()
      modifies this, reader`index, display, display.slots
      ensures Valid()
      ensures State() == S.PlpFec(bits, old(State()))
    {
      hide S.Get, S.Put, S.Num, S.Marks;
      var fec := Get(4);
      Add(Field(3, "L1D_plp_fec_type", FecType(fec)));
      if fec <= 5 {
        var m := Get(4);
        plpMod := m;
        Add(Field(3, "L1D_plp_mod", Modulation(m)));
        var c := Get(4);
        Add(Field(3, "L1D_plp_cod", CodeRate(c)));
      }
    }

    method PlpTi() returns (ti: nat)
      requires Valid()
      modifies reader`index, display, display.slots
      ensures Valid()
      ensures (ti, State()) == S.PlpTi(bits, old(State()))
    {
      hide S.Get, S.Put, S.Num, S.Marks;
      ti := Get(2);
      Add(Field(3, "L1D_plp_TI_mode", TiMode(ti)));
      var v;
      if ti == 0 {
        v := Num(3, "L1D_plp_fec_block_start", 15);
      } else if ti == 1 {
        v := Num(3, "L1D_plp_CTI_fec_block_start", 22);
      }
    }

    method PlpBonding(numRf: nat)
      requires Valid()
      modifies reader`index, display, display.slots
      ensures Valid()
      ensures State() == S.PlpBonding(bits, old(State()), numRf)
    {
      hide S.Get, S.Put, S.Num, S.Marks;
      if numRf > 0 {
        var k := Num(3, "L1D_plp_num_channel_bonded", 3);
        if k > 0 {
          var v := Num(3, "L1D_plp_channel_bonding_format", 2);
          ghost var st := State();
          var i := 0;
          while i < k
            invariant i <= k && Valid()
            invariant S.BondedRfIds(bits, State(), i, k) == S.BondedRfIds(bits, st, 0, k)
          {
            v := Num(4, "L1D_plp_bonded_rf_id", 3);
            i := i + 1;
          }
        }
      }
    }

    method PlpMimo(mimo: bool)
      requires Valid()
      modifies reader`index, display, display.slots
      ensures Valid()
      ensures State() == S.PlpMimo(bits, old(State()), mimo)
    {
      hide S.Get, S.Put, S.Num, S.Marks;
      if mimo {
        var v := Num(3, "L1D_plp_mimo_stream_combining", 1);
        v := Num(3, "L1D_plp_mimo_IQ_interleaving", 1);
        v := Num(3, "L1D_plp_mimo_PH", 1);
      }
    }

    method Hti()
      requires Valid()
      modifies reader`index, display, display.slots
      ensures Valid()
      ensures State() == S.Hti(bits, old(State()))
    {
      hide S.Get, S.Put, S.Num, S.Marks;
      var inter := Num(3, "L1D_plp_HTI_inter_subframe", 1);
      var blocks := Get(4);
      Add(Field(3, "L1D_plp_HTI_num_ti_blocks", Count(blocks)));
      var v := Get(12);
      Add(Field(3, "L1D_plp_HTI_num_fec_blocks_max", Count(v)));
      if inter == 0 {
        v := Get(12);
        Add(Field(3, "L1D_plp_HTI_num_fec_blocks", Count(v)));
      } else {
        ghost var st := State();
        var k := 0;
        while k <= blocks
          invariant k <= blocks + 1 && Valid()
          invariant S.HtiFecBlocks(bits, State(), k, blocks) == S.HtiFecBlocks(bits, st, 0, blocks)
        {
          v := Get(12);
          Add(Field(4, "L1D_plp_HTI_num_fec_blocks", Count(v)));
          k := k + 1;
        }
      }
      v := Num(3, "L1D_plp_HTI_cell_interleaver", 1);
    }

    method PlpCore(ti: nat)
      requires Valid()
      modifies reader`index, display, display.slots
      ensures Valid()
      ensures State() == S.PlpCore(bits, old(State()), ti)
    {
      hide S.Get, S.Put, S.Num, S.Marks;
      var dispersed := Get(1);
      var v;
      if dispersed == 0 {
        Add(Field(3, "L1D_plp_type", Named("non-dispersed")));
      } else {
        Add(Field(3, "L1D_plp_type", Named("dispersed")));
        v := Get(14);
        Add(Field(3, "L1D_plp_num_subslices", Count(v)));
        v := Num(3, "L1D_plp_subslice_interval", 24);
      }
      if (ti == 1 || ti == 2) && plpMod == 0 {
        v := Num(3, "L1D_plp_TI_extended_interleaving", 1);
      }
      if ti == 1 {
        v := Num(3, "L1D_plp_CTI_depth", 3);
        v := Num(3, "L1D_plp_CTI_start_row", 11);
      } else if ti == 2 {
        Hti();
      }
    }

    method PlpLayer(layer: nat, ti: nat)
      requires Valid()
      modifies reader`index, display, display.slots
      ensures Valid()
      ensures State() == S.PlpLayer(bits, old(State()), layer, ti)
    {
      if layer == 0 {
        PlpCore(ti);
      } else {
        var v := Num(3, "L1D_plp_ldm_injection_level", 5);
      }
    }

    /** The body of the PLP loop for PLP #j */
    method Plp(numRf: nat, mimo: bool, j: nat, ghost n: nat)
      requires Valid() && j <= n
      modifies this, reader`index, display, display.slots
      ensures Valid()
      ensures S.Plps(bits, numRf, mimo, j + 1, n, State()) == S.Plps(bits, numRf, mimo, j, n, old(State()))
    {
      hide S.PlpHead, S.PlpFec, S.PlpTi, S.PlpBonding, S.PlpMimo, S.PlpLayer, S.Marks;
      Add(Heading(2, "PLP #", j));
      var layer := PlpHead();
      PlpFec();
      var ti := PlpTi();
      PlpBonding(numRf);
      PlpMimo(mimo);
      PlpLayer(layer, ti);
    }

    /** The PLP loop, j = 0..n with n the subframe's l1d_num_plp */
    method Plps(numRf: nat, mimo: bool, n: nat)
      requires Valid()
      modifies this, reader`index, display, display.slots
      ensures Valid()
      ensures State() == S.Plps(bits, numRf, mimo, 0, n, old(State()))
    {
      hide S.PlpThenRest, S.Plp, S.Marks;
      var j := 0;
      while j <= n
        invariant j <= n + 1 && Valid()
        invariant S.Plps(bits, numRf, mimo, j, n, State()) == S.Plps(bits, numRf, mimo, 0, n, old(State()))
      {
        Plp(numRf, mimo, j, n);
        j := j + 1;
      }
    }

    // ------------------------------------------------- L1-Detail: subframes

    method SubframeParams() returns (mimo: nat, sbsFirst: nat, sbsLast: nat)
      requires Valid()
      modifies reader`index, display, display.slots
      ensures Valid()
      ensures (mimo, sbsFirst, sbsLast, State()) == S.SubframeParams(bits, old(State()))
    {
      hide S.Get, S.Put, S.Num, S.Marks;
      mimo := Get(1);
      Add(Field(1, "L1D_mimo", Choice(mimo, "No MIMO", "MIMO")));
      var v := Num(1, "L1D_miso", 2);
      v := Get(2);
      Add(Field(1, "L1D_fft_size", FftSize(v)));
      v := Num(1, "L1D_reduced_carriers", 3);
      v := Get(4);
      Add(Field(1, "L1D_guard_interval", GuardInterval(v)));
      v := Get(11);
      Add(Field(1, "L1D_num_ofdm_symbols", Count(v)));
      v := Num(1, "L1D_scattered_pilot_pattern", 5);
      v := Num(1, "L1D_scattered_pilot_boost", 3);
      sbsFirst := Num(1, "L1D_sbs_first", 1);
      sbsLast := Num(1, "L1D_sbs_last", 1);
    }

    method SubframeHead(b: S.BasicInfo, i: nat) returns (mimo: bool, sbs: bool)
      requires Valid()
      modifies reader`index, display, display.slots
      ensures Valid()
      ensures (mimo, sbs, State()) == S.SubframeHead(bits, b, i, old(State()))
    {
      hide S.Get, S.Put, S.Num, S.Marks;
      Add(Text(" "));
      Add(Heading(0, "Subframe #", i));
      var m, sbsFirst, sbsLast;
      if i > 0 {
        m, sbsFirst, sbsLast := SubframeParams();
      } else {
        m, sbsFirst, sbsLast := b.firstMimo, b.firstSbsFirst, b.firstSbsLast;
      }
      mimo, sbs := m == 1, sbsFirst == 1 || sbsLast == 1;
    }

    method SubframePlpCount(b: S.BasicInfo, sbs: bool)
      requires Valid()
      modifies this, reader`index, display, display.slots
      ensures Valid()
      ensures State() == S.SubframePlpCount(bits, b, sbs, old(State()))
    {
      hide S.Get, S.Put, S.Num, S.Marks;
      var v;
      if b.numSubframes > 0 {
        v := Num(1, "L1D_subframe_multiplex", 1);
      }
      v := Get(1);
      Add(Field(1, "L1D_frequency_interleaver", Choice(v, "Preamble Only", "All Symbols")));
      if sbs {
        v := Num(1, "L1D_sbs_null_cells", 13);
      }
      v := Get(6);
      numPlp := v;
      Add(Field(1, "L1D_num_plp", Count(v)));
    }

    /** The body of the subframe loop for subframe #i */
    method Subframe(b: S.BasicInfo, numRf: nat, i: nat)
      requires Valid() && i <= b.numSubframes
      modifies this, reader`index, display, display.slots
      ensures Valid()
      ensures State() == S.Subframe(bits, b, numRf, i, old(State()))
    {
      hide S.SubframeHead, S.SubframePlpCount, S.Plps, S.Marks;
      var mimo, sbs := SubframeHead(b, i);
      SubframePlpCount(b, sbs);
      Plps(numRf, mimo, numPlp);
    }

    /** The subframe loop, i = 0..L1B_num_subframes */
    method Subframes(b: S.BasicInfo, numRf: nat)
      requires Valid()
      modifies this, reader`index, display, display.slots
      ensures Valid()
      ensures State() == S.Subframes(bits, b, numRf, 0, old(State()))
    {
      hide S.Subframe, S.SubframeHead, S.SubframePlpCount, S.Plps, S.Marks;
      var i := 0;
      while i <= b.numSubframes
        invariant i <= b.numSubframes + 1 && Valid()
        invariant S.Subframes(bits, b, numRf, i, State()) == S.Subframes(bits, b, numRf, 0, old(State()))
      {
        Subframe(b, numRf, i);
        i := i + 1;
      }
    }

    // ------------------------------------------ L1-Detail: version 2 pass

    /** The PLP loop of the second pass, j = 0..l1d_num_plp */
    method PlpMimoFlags()
      requires Valid()
      modifies reader`index, display, display.slots
      ensures Valid()
      ensures State() == S.PlpMimoFlags(bits, old(State()), 0, numPlp)
    {
      hide S.Get, S.Put, S.Num, S.Marks;
      var j := 0;
      while j <= numPlp
        invariant j <= numPlp + 1 && Valid()
        invariant S.PlpMimoFlags(bits, State(), j, numPlp) == S.PlpMimoFlags(bits, old(State()), 0, numPlp)
      {
        var m := Get(1);
        Add(IndexedField(2, "PLP #", j, "L1D_plp_mimo", Dec(m)));
        PlpMimo(m == 1);
        j := j + 1;
      }
    }

    /** The subframe loop of the second pass */
    method MimoMixed(b: S.BasicInfo)
      requires Valid()
      modifies reader`index, display, display.slots
      ensures Valid()
      ensures State() == S.MimoMixed(bits, b, 0, old(State()))
    {
      hide S.Get, S.Put, S.Num, S.Marks;
      var i := 0;
      while i <= b.numSubframes
        invariant i <= b.numSubframes + 1 && Valid()
        invariant S.MimoMixed(bits, b, i, State()) == S.MimoMixed(bits, b, 0, old(State()))
      {
        var mixed;
        if i > 0 {
          mixed := Get(1);
          Add(IndexedField(1, "Subframe #", i, "L1D_mimo_mixed", Dec(mixed)));
        } else {
          mixed := b.firstMimoMixed;
        }
        if mixed == 1 {
          PlpMimoFlags();
        }
        i := i + 1;
      }
    }

    method DetailTail(b: S.BasicInfo, version: nat)
      requires Valid()
      modifies reader`index, display, display.slots
      ensures Valid()
      ensures State() == S.DetailTail(bits, b, version, old(State()))
    {
      hide S.Get, S.Put, S.Num, S.Marks;
      if version >= 1 {
        var bsid := Get(16);
        Add(Field(0, "L1D_bsid", Hex(bsid, 4)));
      }
      if version >= 2 {
        MimoMixed(b);
      }
    }

    /** The skip to the declared end of L1-Detail, then L1D_crc */
    method Trailer(size: nat)
      requires Valid()
      modifies reader`index, display, display.slots
      ensures Valid()
      ensures State() == S.Trailer(bits, size, old(State()))
    {
      hide S.Get, S.Put, S.Num, S.Marks;
      var skip := (size * 8 - 32) - (reader.index - 200);
      var v;
      if skip > 0 {
        v := Get(skip);
      }
      v := Get(32);
      Add(Field(0, "L1D_crc", Hex(v, 8)));
    }

    /** Everything before the skip to the end of L1-Detail */
    method Prologue() returns (b: S.BasicInfo)
      requires Valid() && State() == S.St(0, [], 0, 0)
      modifies this, reader`index, display, display.slots
      ensures Valid()
      ensures (b, State()) == S.Prologue(bits)
    {
      hide S.Basic, S.DetailHead, S.Subframes, S.DetailTail, S.Marks, S.Titled;
      Add(Text("--- L1-Basic Signaling ---"));
      b := Basic();
      Add(Text(" "));
      Add(Text("--- L1-Detail Signaling ---"));
      var version, numRf := DetailHead(b.timeInfo);
      assert (b, version, numRf, State()) == S.Start(bits);
      Subframes(b, numRf);
      DetailTail(b, version);
    }

    /** Everything parse_l1_data does after filling the buffer */
    method Run()
      requires Valid() && State() == S.St(0, [], 0, 0)
      modifies this, reader`index, display, display.slots
      ensures Valid()
      ensures State() == S.Parse(bits)
    {
      hide S.Prologue, S.Trailer, S.Marks;
      var b := Prologue();
      Trailer(b.detailSize);
    }
  }

  /** parse_l1_data(data, len, display_lines, &line_count, max_lines) with
      max_lines the display's capacity: the buffer holds the bits of data,
      and the display shows what it showed before followed by the lines
      of the parse, as many as fit */
  method ParseL1Data(reader: BitReader, display: Display, data: seq<byte>)
    requires reader.bits.Length == BufferBits && display.Valid()
    modifies reader, reader.bits, display, display.slots
    ensures reader.bits.Length == BufferBits && display.Valid()
    ensures reader.bits[..] == Fill(old(reader.bits[..]), data)
    ensures var r := S.Parse(reader.bits[..]);
      reader.index == r.pos
      && display.Shown() == Kept(old(display.Shown()), r.out, display.slots.Length)
  {
    hide S.Parse, S.Marks;
    reader.Load(data);
    display.Begin();
    var decoder := new Decoder(reader, display);
    decoder.Run();
  }
}
