/** The names parse_l1_data prints for the coded fields of ATSC A/322
    L1 signalling. A code outside a field's table prints as "Reserved"
    (or "Reserved (n)" for the guard interval) and never indexes a table. */
module L1Fields {
  import opened Report

  const Reserved: FieldValue := Named("Reserved")

  predicate IsReserved(v: FieldValue)
  {
    v == Reserved || v.ReservedCode?
  }

  const TimeInfoNames: seq<string> := ["Not included", "ms precision", "us precision", "ns precision"]
  const PaprNames: seq<string> := ["None", "Tone reservation only", "ACE only", "Both TR and ACE"]
  const FftNames: seq<string> := ["8K", "16K", "32K"]
  const GuardIntervalNames: seq<string> :=
    ["GI_1_192", "GI_2_384", "GI_3_512", "GI_4_768", "GI_5_1024", "GI_6_1536",
     "GI_7_2048", "GI_8_2432", "GI_9_3072", "GI_10_3648", "GI_11_4096", "GI_12_4864"]
  const LayerNames: seq<string> := ["Core", "Enhanced"]
  const FecTypeNames: seq<string> :=
    ["BCH + 16K LDPC", "BCH + 64K LDPC", "CRC + 16K LDPC", "CRC + 64K LDPC", "16K LDPC only", "64K LDPC only"]
  const ModulationNames: seq<string> := ["QPSK", "16QAM", "64QAM", "256QAM", "1024QAM", "4096QAM"]
  const CodeRateNames: seq<string> :=
    ["2/15", "3/15", "4/15", "5/15", "6/15", "7/15", "8/15", "9/15", "10/15", "11/15", "12/15", "13/15"]
  const TiModeNames: seq<string> := ["No TI", "CTI", "HTI"]

  /** The name of code v in a table, "Reserved" past its end */
  function Lookup(table: seq<string>, v: nat): (r: FieldValue)
    requires "Reserved" !in table
    ensures IsReserved(r) <==> v >= |table|
    ensures v < |table| ==> r == Named(table[v])
  {
    if v < |table| then Named(table[v]) else Reserved
  }

  /** L1B_time_info_flag, a 2-bit field whose four codes all have names */
  function TimeInfo(v: nat): (r: FieldValue)
    requires v < 4
    ensures !IsReserved(r)
  {
    Lookup(TimeInfoNames, v)
  }

  /** L1B_papr_reduction, a 2-bit field whose four codes all have names */
  function Papr(v: nat): (r: FieldValue)
    requires v < 4
    ensures !IsReserved(r)
  {
    Lookup(PaprNames, v)
  }

  /** L1B_first_sub_fft_size and L1D_fft_size: code 3 is reserved */
  function FftSize(v: nat): (r: FieldValue)
    ensures IsReserved(r) <==> v >= 3
  {
    Lookup(FftNames, v)
  }

  /** The guard interval: codes 1 to 12 name GI_1 to GI_12; 0 and 13 and
      above print "Reserved (code)" */
  function GuardInterval(v: nat): (r: FieldValue)
    ensures IsReserved(r) <==> v == 0 || v > 12
    ensures IsReserved(r) ==> r == ReservedCode(v)
  {
    if 1 <= v <= 12 then Named(GuardIntervalNames[v - 1]) else ReservedCode(v)
  }

  /** L1D_plp_layer: 0 core, 1 enhanced, 2 and 3 reserved */
  function Layer(v: nat): (r: FieldValue)
    ensures IsReserved(r) <==> v >= 2
  {
    Lookup(LayerNames, v)
  }

  /** L1D_plp_scrambler_type: only 0 (PRBS) is defined */
  function Scrambler(v: nat): (r: FieldValue)
    ensures IsReserved(r) <==> v != 0
  {
    Lookup(["PRBS"], v)
  }

  /** L1D_plp_fec_type: codes 0 to 5 */
  function FecType(v: nat): (r: FieldValue)
    ensures IsReserved(r) <==> v > 5
  {
    Lookup(FecTypeNames, v)
  }

  /** L1D_plp_mod: codes 0 to 5, QPSK to 4096QAM */
  function Modulation(v: nat): (r: FieldValue)
    ensures IsReserved(r) <==> v > 5
  {
    Lookup(ModulationNames, v)
  }

  /** L1D_plp_cod: code v is the rate (v + 2)/15 for v up to 11 */
  function CodeRate(v: nat): (r: FieldValue)
    ensures IsReserved(r) <==> v > 11
  {
    Lookup(CodeRateNames, v)
  }

  /** L1D_plp_TI_mode: 0 none, 1 convolutional, 2 hybrid, 3 reserved */
  function TiMode(v: nat): (r: FieldValue)
    ensures IsReserved(r) <==> v > 2
  {
    Lookup(TiModeNames, v)
  }

  /** A field that codes a count n as n - 1 prints value + 1 */
  function Count(v: nat): FieldValue
  {
    Dec(v + 1)
  }

  /** L1B_L1_Detail_fec_type prints code v as "Mode v + 1" */
  function DetailFecMode(v: nat): FieldValue
  {
    Tagged("Mode ", v + 1)
  }

  /** The one-bit fields printed as one of two phrases */
  function Choice(v: nat, zero: string, other: string): FieldValue
  {
    Named(if v == 0 then zero else other)
  }
}
