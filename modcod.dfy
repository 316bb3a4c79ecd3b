/** The table of the signal-to-noise ratio each ATSC 3.0 modulation and
    code rate needs (snr_table), the normaliser that turns a tuner's
    modulation text such as "qam256" into the table's "256QAM"
    (normalize_mod_str), and the lookup (get_snr_for_modcod). SNR values
    are kept in hundredths of a dB. */
module ModCod {
  import opened Text
  import opened L1Fields

  datatype Row = Row(mod: string, cod: string, minSnr: int, maxSnr: int)

  /** Minimum SNR, row m for ModulationNames[m], column c for CodeRateNames[c] */
  const MinSnr: seq<seq<int>> := [
    [-623, -432, -289, -170, -54, 30, 116, 197, 277, 360, 449, 553],
    [-273, -25, 146, 282, 421, 521, 630, 732, 836, 950, 1057, 1183],
    [-26, 227, 407, 550, 696, 801, 911, 1015, 1121, 1238, 1348, 1475],
    [237, 500, 688, 835, 985, 1093, 1205, 1310, 1418, 1535, 1645, 1772],
    [497, 769, 961, 1112, 1265, 1375, 1489, 1595, 1703, 1820, 1931, 2058],
    [758, 1038, 1234, 1388, 1544, 1656, 1772, 1879, 1988, 2105, 2216, 2343]]

  /** Maximum SNR, laid out as MinSnr */
  const MaxSnr: seq<seq<int>> := [
    [-506, -297, -136, -8, 115, 230, 344, 470, 597, 746, 915, 1156],
    [-114, 145, 341, 478, 627, 758, 896, 1028, 1173, 1322, 1497, 1744],
    [160, 430, 622, 774, 931, 1065, 1203, 1334, 1477, 1623, 1795, 2037],
    [421, 700, 899, 1055, 1215, 1351, 1490, 1620, 1761, 1905, 2073, 2310],
    [681, 970, 1175, 1334, 1497, 1635, 1775, 1906, 2046, 2190, 2355, 2588],
    [941, 1240, 1445, 1607, 1772, 1911, 2052, 2184, 2325, 2469, 2634, 2862]]

  const Rows: nat := 72

  /** Row k of snr_table: the rows run through the twelve code rates of
      QPSK, then of 16QAM, and so on up to 4096QAM */
  function TableRow(k: nat): Row
    requires k < Rows
  {
    Row(ModulationNames[k / 12], CodeRateNames[k % 12], MinSnr[k / 12][k % 12], MaxSnr[k / 12][k % 12])
  }

  predicate Matches(k: nat, mod: string, cod: string)
    requires k < Rows
  {
    ModulationNames[k / 12] == mod && CodeRateNames[k % 12] == cod
  }

  /** The scan of get_snr_for_modcod from row i: the first row at or after
      i whose two strings equal mod and cod */
  function LookupFrom(mod: string, cod: string, i: nat): (r: Option<nat>)
    requires i <= Rows
    ensures r.Some? ==> i <= r.value < Rows && Matches(r.value, mod, cod)
    ensures r.Some? ==> forall k :: i <= k < r.value ==> !Matches(k, mod, cod)
    ensures r.None? ==> forall k :: i <= k < Rows ==> !Matches(k, mod, cod)
    decreases Rows - i
  {
    if i == Rows then None
    else if Matches(i, mod, cod) then Some(i)
    else
      var r := LookupFrom(mod, cod, i + 1);
      assert r.Some? ==> forall k :: i <= k < r.value ==> k == i || (i + 1 <= k && !Matches(k, mod, cod));
      r
  }

  /** get_snr_for_modcod: the matching row, or None for NULL */
  function Lookup(mod: string, cod: string): Option<Row>
  {
    match LookupFrom(mod, cod, 0)
    case None => None
    case Some(k) => Some(TableRow(k))
  }

  /** The modulation names are pairwise different */
  lemma ModulationNamesDistinct(a: nat, b: nat)
    requires a < 6 && b < 6 && ModulationNames[a] == ModulationNames[b]
    ensures a == b
  {
    var s, t := ModulationNames[a], ModulationNames[b];
    assert |s| == |t| && s[0] == t[0];
  }

  /** The code rate names are pairwise different */
  lemma CodeRateNamesDistinct(a: nat, b: nat)
    requires a < 12 && b < 12 && CodeRateNames[a] == CodeRateNames[b]
    ensures a == b
  {
    var s, t := CodeRateNames[a], CodeRateNames[b];
    assert |s| == |t| && s[0] == t[0] && s[1] == t[1];
  }

  /** Every pair of a modulation name and a code rate name that the L1
      signalling can print has exactly one row, and the lookup finds it */
  lemma LookupNames(m: nat, c: nat)
    requires m < 6 && c < 12
    ensures Lookup(ModulationNames[m], CodeRateNames[c]) == Some(TableRow(12 * m + c))
  {
    var mod, cod := ModulationNames[m], CodeRateNames[c];
    var k := 12 * m + c;
    assert k / 12 == m && k % 12 == c;
    assert Matches(k, mod, cod);
    var r := LookupFrom(mod, cod, 0);
    assert r.Some? && r.value <= k;
    ModulationNamesDistinct(r.value / 12, m);
    CodeRateNamesDistinct(r.value % 12, c);
  }

  /** The lookup succeeds exactly for a modulation name and a code rate
      name that both occur in the table, and returns their row */
  lemma LookupFound(mod: string, cod: string)
    ensures Lookup(mod, cod).Some? <==> mod in ModulationNames && cod in CodeRateNames
    ensures Lookup(mod, cod).Some? ==> Lookup(mod, cod).value.mod == mod && Lookup(mod, cod).value.cod == cod
  {
    if mod in ModulationNames && cod in CodeRateNames {
      var m :| 0 <= m < 6 && ModulationNames[m] == mod;
      var c :| 0 <= c < 12 && CodeRateNames[c] == cod;
      LookupNames(m, c);
    }
  }

  /** QPSK at rate 7/15 needs 0.30 dB to 2.30 dB */
  lemma LookupExample()
    ensures Lookup("QPSK", "7/15") == Some(Row("QPSK", "7/15", 30, 230))
  {
    LookupNames(0, 5);
  }

  // ---------------------------------------------------------------------
  // normalize_mod_str

  /** The number of characters normalize_mod_str scans */
  const ScanLimit: nat := 15
  /** The capacity of each of its two eight-byte buffers, less the NUL */
  const PartLimit: nat := 7

  /** The first n characters of s, or all of s when shorter */
  function Cap(s: string, n: nat): (r: string)
    ensures |r| == Min(|s|, n)
  {
    s[..Min(|s|, n)]
  }

  /** The other characters of s, in order, upper-cased */
  function Others(s: string): string
  {
    if s == [] then []
    else Others(s[..|s| - 1]) + (if IsDigit(s[|s| - 1]) then [] else [Upper(s[|s| - 1])])
  }

  /** What normalize_mod_str writes: of the first 15 characters, up to
      seven digits, then up to seven of the others upper-cased, each group
      in the order it occurs */
  function Normalized(s: string): (r: string)
    ensures |r| <= 2 * PartLimit
  {
    var t := Cap(s, ScanLimit);
    Cap(Digits(t), PartLimit) + Cap(Others(t), PartLimit)
  }

  /** normalize_mod_str(in, out, 16): the loop that sorts the characters
      into the digits and alphas buffers, then the snprintf that joins
      them. Their 14 characters at most fit in the 16-byte out. */
  method NormalizeModStr(input: string) returns (out: string)
    ensures out == Normalized(input)
  {
    var digits := new char[8](_ => '\0');
    var alphas := new char[8](_ => '\0');
    var dIdx, aIdx := 0, 0;
    var i := 0;
    while i < |input| && i < ScanLimit
      invariant i <= |input| && i <= ScanLimit && dIdx <= PartLimit && aIdx <= PartLimit
      invariant digits[..dIdx] == Cap(Digits(input[..i]), PartLimit)
      invariant alphas[..aIdx] == Cap(Others(input[..i]), PartLimit)
    {
      var c := input[i];
      assert input[..i + 1][..i] == input[..i];
      if IsDigit(c) {
        if dIdx < PartLimit {
          digits[dIdx] := c;
          dIdx := dIdx + 1;
        }
      } else {
        if aIdx < PartLimit {
          alphas[aIdx] := Upper(c);
          aIdx := aIdx + 1;
        }
      }
      i := i + 1;
    }
    assert input[..i] == Cap(input, ScanLimit);
    if dIdx > 0 {
      out := digits[..dIdx] + alphas[..aIdx];
    } else {
      out := alphas[..aIdx];
    }
  }

  lemma {:induction false} DigitsAppend(a: string, b: string)
    ensures Digits(a + b) == Digits(a) + Digits(b)
    decreases |b|
  {
    if b != [] {
      var b' := b[..|b| - 1];
      var c := b[|b| - 1];
      var tail := if IsDigit(c) then [c] else [];
      assert (a + b)[..|a + b| - 1] == a + b' && (a + b)[|a + b| - 1] == c;
      assert Digits(a + b) == Digits(a + b') + tail;
      DigitsAppend(a, b');
      assert Digits(b) == Digits(b') + tail;
    } else {
      assert a + b == a;
    }
  }

  lemma {:induction false} OthersAppend(a: string, b: string)
    ensures Others(a + b) == Others(a) + Others(b)
    decreases |b|
  {
    if b != [] {
      var b' := b[..|b| - 1];
      var c := b[|b| - 1];
      var tail := if IsDigit(c) then [] else [Upper(c)];
      assert (a + b)[..|a + b| - 1] == a + b' && (a + b)[|a + b| - 1] == c;
      assert Others(a + b) == Others(a + b') + tail;
      OthersAppend(a, b');
      assert Others(b) == Others(b') + tail;
    } else {
      assert a + b == a;
    }
  }

  /** The digits of s, when s has only digits, are s */
  lemma {:induction false} DigitsOfDigits(s: string)
    requires forall k :: 0 <= k < |s| ==> IsDigit(s[k])
    ensures Digits(s) == s && Others(s) == []
    decreases |s|
  {
    if s != [] {
      DigitsOfDigits(s[..|s| - 1]);
    }
  }

  /** Upper-casing keeps a character that is not a digit a non-digit, and
      a second upper-casing changes nothing */
  lemma UpperStable(c: char)
    ensures IsDigit(Upper(c)) == IsDigit(c)
    ensures Upper(Upper(c)) == Upper(c)
  {
  }

  /** Others gives non-digits already upper-cased */
  lemma {:induction false} OthersShape(s: string)
    ensures forall k :: 0 <= k < |Others(s)| ==> !IsDigit(Others(s)[k]) && Upper(Others(s)[k]) == Others(s)[k]
    decreases |s|
  {
    if s != [] {
      OthersShape(s[..|s| - 1]);
      UpperStable(s[|s| - 1]);
    }
  }

  /** On upper-cased non-digits, Others gives its input back */
  lemma {:induction false} OthersOfOthers(s: string)
    requires forall k :: 0 <= k < |s| ==> !IsDigit(s[k]) && Upper(s[k]) == s[k]
    ensures Others(s) == s && Digits(s) == []
    decreases |s|
  {
    if s != [] {
      OthersOfOthers(s[..|s| - 1]);
    }
  }

  lemma {:induction false} DigitsAreDigits(s: string)
    ensures forall k :: 0 <= k < |Digits(s)| ==> IsDigit(Digits(s)[k])
    decreases |s|
  {
    if s != [] {
      DigitsAreDigits(s[..|s| - 1]);
    }
  }

  /** Normalising twice gives the same as normalising once: a normalised
      string is short enough to be scanned whole, its digits come first
      and its other characters are already upper case */
  lemma NormalizedIdempotent(s: string)
    ensures Normalized(Normalized(s)) == Normalized(s)
  {
    var t := Cap(s, ScanLimit);
    var d := Cap(Digits(t), PartLimit);
    var a := Cap(Others(t), PartLimit);
    var n := d + a;
    DigitsAreDigits(t);
    OthersShape(t);
    DigitsOfDigits(d);
    OthersOfOthers(a);
    DigitsAppend(d, a);
    OthersAppend(d, a);
    assert Cap(n, ScanLimit) == n;
    assert Digits(n) == d && Others(n) == a;
  }

  /** Others and Digits of a single character */
  lemma OneChar(c: char)
    ensures Others([c]) == (if IsDigit(c) then [] else [Upper(c)])
    ensures Digits([c]) == (if IsDigit(c) then [c] else [])
  {
    assert [c][..0] == [];
  }

  /** The tuner's "qam256" becomes the table's "256QAM" */
  lemma NormalizedExample()
    ensures Normalized("qam256") == "256QAM"
  {
    hide Digits, Others;
    assert Cap("qam256", ScanLimit) == "qam256";
    ExampleDigits();
    ExampleOthers();
  }

  lemma ExampleDigits()
    ensures Digits("qam256") == "256"
  {
    var s1 := ['q'];
    var s2 := s1 + ['a'];
    var s3 := s2 + ['m'];
    var s4 := s3 + ['2'];
    var s5 := s4 + ['5'];
    var s6 := s5 + ['6'];
    OneChar('q');
    DigitsAppend(s1, ['a']);
    DigitsAppend(s2, ['m']);
    DigitsAppend(s3, ['2']);
    DigitsAppend(s4, ['5']);
    DigitsAppend(s5, ['6']);
    assert Digits(s3) == [];
    assert s6 == "qam256";
  }

  lemma ExampleOthers()
    ensures Others("qam256") == "QAM"
  {
    var s1 := ['q'];
    var s2 := s1 + ['a'];
    var s3 := s2 + ['m'];
    var s4 := s3 + ['2'];
    var s5 := s4 + ['5'];
    var s6 := s5 + ['6'];
    OneChar('q');
    OthersAppend(s1, ['a']);
    OthersAppend(s2, ['m']);
    OthersAppend(s3, ['2']);
    OthersAppend(s4, ['5']);
    OthersAppend(s5, ['6']);
    assert Others(s3) == "QAM";
    assert s6 == "qam256";
  }

  /** "QPSK" is already in the table's form */
  lemma NormalizedQpsk()
    ensures Normalized("QPSK") == "QPSK"
  {
    OthersOfOthers("QPSK");
    assert Cap("QPSK", ScanLimit) == "QPSK";
  }
}
