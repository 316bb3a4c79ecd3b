/** strtol() as the status parsers use it: leading white space, an optional
    sign, the base chosen from the prefix when the base is 0 ("0x" hex,
    a leading "0" octal, otherwise decimal), the longest run of digits of
    that base, and saturation at the limits of a 64-bit long. */
module CNumber {
  import opened Text

  const LongMax: int := 0x7FFF_FFFF_FFFF_FFFF
  const LongMin: int := -0x8000_0000_0000_0000

  /** isspace() in the C locale */
  predicate IsSpace(c: char)
  {
    c == ' ' || c == '\t' || c == '\n' || c as int == 11 || c as int == 12 || c == '\r'
  }

  /** The value of c as a digit of any base up to 36, or 36 if it is none */
  function DigitValue(c: char): (d: nat)
    ensures d <= 36
    ensures IsDigit(c) <==> d < 10
  {
    if '0' <= c <= '9' then c as int - '0' as int
    else if 'a' <= c <= 'z' then c as int - 'a' as int + 10
    else if 'A' <= c <= 'Z' then c as int - 'A' as int + 10
    else 36
  }

  function SkipSpace(s: string): (r: string)
    ensures |r| <= |s|
    ensures r == [] || !IsSpace(r[0])
  {
    if s != [] && IsSpace(s[0]) then SkipSpace(s[1..]) else s
  }

  /** Accumulates the leading digits of s in the given base onto acc,
      most significant first, as strtol's loop does */
  function Accumulate(s: string, base: nat, acc: nat): nat
    requires 2 <= base <= 36
  {
    if s != [] && DigitValue(s[0]) < base then Accumulate(s[1..], base, acc * base + DigitValue(s[0]))
    else acc
  }

  /** The base strtol uses for an unsigned digit string s, and where its
      digits start, given the base argument (0 = detect from the prefix) */
  function BaseOf(s: string, base: nat): (r: (nat, nat))
    requires base == 0 || 2 <= base <= 36
    ensures 2 <= r.0 <= 36 && r.1 <= |s|
  {
    if base != 0 then (base, 0)
    else if |s| >= 2 && s[0] == '0' && (s[1] == 'x' || s[1] == 'X') then (16, 2)
    else if s != [] && s[0] == '0' then (8, 0)
    else (10, 0)
  }

  /** The value strtol(s, NULL, base) returns */
  function StrToL(s: string, base: nat): (r: int)
    requires base == 0 || 2 <= base <= 36
    ensures LongMin <= r <= LongMax
  {
    var t := SkipSpace(s);
    var negative := t != [] && t[0] == '-';
    var u := if t != [] && (t[0] == '-' || t[0] == '+') then t[1..] else t;
    var magnitude: int := Magnitude(u, base);
    if negative then (if magnitude > -LongMin then LongMin else -magnitude)
    else (if magnitude > LongMax then LongMax else magnitude)
  }

  /** The unsigned value of the digits of u, in the base BaseOf detects */
  function Magnitude(u: string, base: nat): nat
    requires base == 0 || 2 <= base <= 36
  {
    var (b, start) := BaseOf(u, base);
    Accumulate(u[start..], b, 0)
  }

  function Pow10(n: nat): (r: nat)
    ensures r >= 1
  {
    if n == 0 then 1 else 10 * Pow10(n - 1)
  }

  /** Accumulating the decimal rendering of n appends n's digits to acc */
  lemma {:induction false} AccumulateShowNat(n: nat, t: string, acc: nat)
    ensures Accumulate(ShowNat(n) + t, 10, acc) == Accumulate(t, 10, acc * Pow10(|ShowNat(n)|) + n)
    decreases n
  {
    if n < 10 {
      AccumulateDigit(n, t, acc);
    } else {
      var d := [DigitChar(n % 10)];
      var k := |ShowNat(n / 10)|;
      var p := Pow10(k);
      var m: nat := acc * p + n / 10;
      assert ShowNat(n) + t == ShowNat(n / 10) + (d + t);
      AccumulateShowNat(n / 10, d + t, acc);
      AccumulateDigit(n % 10, t, m);
      Regroup10(acc, p, n / 10, n % 10);
      assert |ShowNat(n)| == k + 1 && Pow10(k + 1) == 10 * p;
      assert m * 10 + n % 10 == acc * Pow10(|ShowNat(n)|) + n;
    }
  }

  /** One step of the accumulation loop, for a decimal digit */
  lemma AccumulateDigit(d: nat, t: string, acc: nat)
    requires d < 10
    ensures Accumulate([DigitChar(d)] + t, 10, acc) == Accumulate(t, 10, acc * 10 + d)
  {
    assert ([DigitChar(d)] + t)[1..] == t;
  }

  lemma Regroup10(a: int, p: int, q: int, r: int)
    ensures (a * p + q) * 10 + r == a * (10 * p) + (10 * q + r)
  {
  }

  /** t does not continue a number: it is empty or starts with a character
      that is neither a letter nor a digit */
  predicate EndsNumber(t: string)
  {
    t == [] || DigitValue(t[0]) == 36
  }

  /** t does not continue a decimal number */
  predicate EndsDecimal(t: string)
  {
    t == [] || !IsDigit(t[0])
  }

  /** Decimal rendering followed by a non-digit reads back in base 10 */
  lemma DecimalRoundTrip(n: int, t: string)
    requires LongMin <= n <= LongMax
    requires EndsDecimal(t)
    ensures StrToL(Show(n) + t, 10) == n
  {
    var m := if n < 0 then -n else n;
    AccumulateShowNat(m, t, 0);
    assert (ShowNat(m) + t)[0..] == ShowNat(m) + t;
    SignedRead(n, t, 10);
  }

  /** Decimal rendering reads back with base detection too: a rendering never
      starts with "0x", and the lone "0" reads the same in octal */
  lemma AutoBaseRoundTrip(n: int, t: string)
    requires LongMin <= n <= LongMax
    requires EndsNumber(t)
    ensures StrToL(Show(n) + t, 0) == n
  {
    var m := if n < 0 then -n else n;
    var u := ShowNat(m) + t;
    if m == 0 {
      assert u == "0" + t && u[0..] == u && u[1..] == t;
      assert Accumulate(u, 8, 0) == Accumulate(t, 8, 0) == 0;
    } else {
      assert u[0] != '0' && u[0..] == u;
      AccumulateShowNat(m, t, 0);
    }
    SignedRead(n, t, 0);
  }

  /** Show(n) + t reads back as n once its digits read back as |n| */
  lemma SignedRead(n: int, t: string, base: nat)
    requires LongMin <= n <= LongMax
    requires base == 0 || 2 <= base <= 36
    requires Magnitude(ShowNat(if n < 0 then -n else n) + t, base) == (if n < 0 then -n else n)
    ensures StrToL(Show(n) + t, base) == n
  {
    hide ShowNat, Magnitude, Accumulate, BaseOf, Pow, DigitsValue, Shifted;
    var s := Show(n) + t;
    assert SkipSpace(s) == s;
    if n < 0 {
      assert s[1..] == ShowNat(-n) + t;
    }
  }

  function Pow(b: nat, n: nat): (r: nat)
  {
    if n == 0 then 1 else b * Pow(b, n - 1)
  }

  /** The number the digits of h stand for in base b, positionally: the
      first digit counts b^(|h|-1), the last one 1 */
  function DigitsValue(h: string, b: nat): nat
  {
    if h == [] then 0 else DigitValue(h[0]) * Pow(b, |h| - 1) + DigitsValue(h[1..], b)
  }

  /** h consists of digits of base b */
  predicate AllDigits(h: string, b: nat)
  {
    forall k :: 0 <= k < |h| ==> DigitValue(h[k]) < b
  }

  /** t does not continue a number of base b */
  predicate EndsBase(t: string, b: nat)
  {
    t == [] || DigitValue(t[0]) >= b
  }

  /** strtol's loop over the digits h, most significant first, shifts what
      it had by |h| places and adds their positional value */
  lemma AccumulateDigits(h: string, t: string, b: nat, acc: nat)
    requires 2 <= b <= 36 && AllDigits(h, b)
    ensures Accumulate(h + t, b, acc) == Accumulate(t, b, acc * Pow(b, |h|) + DigitsValue(h, b))
  {
    AccumulateShifted(h, t, b, acc);
  }

  lemma {:induction false} AccumulateShifted(h: string, t: string, b: nat, acc: nat)
    requires 2 <= b <= 36 && AllDigits(h, b)
    ensures Accumulate(h + t, b, acc) == Accumulate(t, b, Shifted(acc, b, h))
    decreases |h|
  {
    if h != [] {
      var acc': nat := acc * b + DigitValue(h[0]);
      assert DigitValue(h[0]) < b && AllDigits(h[1..], b);
      AccumulateFirst(h, t, b, acc);
      ShiftedFirst(acc, b, h);
      hide Shifted, Pow, DigitsValue, Accumulate;
      AccumulateShifted(h[1..], t, b, acc');
    } else {
      assert h + t == t;
      assert Shifted(acc, b, h) == acc;
    }
  }

  /** acc shifted by |h| places in base b, with the digits h filled in */
  function Shifted(acc: nat, b: nat, h: string): nat
  {
    acc * Pow(b, |h|) + DigitsValue(h, b)
  }

  /** Shifting by h is shifting by its first digit, then by the rest */
  lemma ShiftedFirst(acc: nat, b: nat, h: string)
    requires h != []
    ensures Shifted(acc, b, h) == Shifted(acc * b + DigitValue(h[0]), b, h[1..])
  {
    var p := Pow(b, |h| - 1);
    assert Pow(b, |h|) == b * p;
    Regroup(acc, b, DigitValue(h[0]), p, DigitsValue(h[1..], b), Pow(b, |h|), DigitsValue(h, b));
  }

  /** strtol's loop takes the first digit of h */
  lemma AccumulateFirst(h: string, t: string, b: nat, acc: nat)
    requires 2 <= b <= 36 && h != [] && DigitValue(h[0]) < b
    ensures Accumulate(h + t, b, acc) == Accumulate(h[1..] + t, b, acc * b + DigitValue(h[0]))
  {
    assert (h + t)[0] == h[0] && (h + t)[1..] == h[1..] + t;
  }

  lemma Regroup(a: int, b: int, d: int, p: int, rest: int, pw: int, dv: int)
    requires pw == b * p && dv == d * p + rest
    ensures (a * b + d) * p + rest == a * pw + dv
  {
  }

  /** Nothing more is accumulated once the digits end */
  lemma AccumulateStops(t: string, b: nat, acc: nat)
    requires 2 <= b <= 36 && EndsBase(t, b)
    ensures Accumulate(t, b, acc) == acc
  {
  }

  /** With base detection, "0x" followed by hex digits reads as their value */
  lemma HexRead(h: string, t: string)
    requires AllDigits(h, 16) && EndsBase(t, 16)
    requires DigitsValue(h, 16) <= LongMax
    ensures StrToL("0x" + h + t, 0) == DigitsValue(h, 16)
  {
    hide Pow, DigitsValue, Shifted;
    var u := "0x" + h + t;
    var v := DigitsValue(h, 16);
    assert u[0] == '0' && u[1] == 'x' && u[2..] == h + t;
    assert SkipSpace(u) == u;
    assert BaseOf(u, 0) == (16, 2);
    AccumulateDigits(h, t, 16, 0);
    AccumulateStops(t, 16, v);
    assert Accumulate(u[2..], 16, 0) == v;
    hide Accumulate, SkipSpace, BaseOf, DigitsValue;
    assert Magnitude(u, 0) == v;
  }

  /** With base detection, a leading "0" and octal digits read in octal */
  lemma OctalRead(h: string, t: string)
    requires h != [] && AllDigits(h, 8) && EndsBase(t, 8)
    requires DigitsValue(h, 8) <= LongMax
    ensures StrToL("0" + h + t, 0) == DigitsValue(h, 8)
  {
    hide Pow, DigitsValue, Shifted;
    var u := "0" + h + t;
    var v := DigitsValue(h, 8);
    assert u[0] == '0' && u[1] == h[0] && u[0..] == u && u[1..] == h + t;
    assert SkipSpace(u) == u;
    assert BaseOf(u, 0) == (8, 0);
    assert Accumulate(u, 8, 0) == Accumulate(h + t, 8, 0);
    AccumulateDigits(h, t, 8, 0);
    AccumulateStops(t, 8, v);
    hide Accumulate, SkipSpace, BaseOf, DigitsValue;
    assert Magnitude(u, 0) == v;
  }

  /** Text that starts with no digit, sign or space reads as 0 */
  lemma NoDigitsRead(t: string)
    requires t == [] || (!IsDigit(t[0]) && !IsSpace(t[0]) && t[0] != '-' && t[0] != '+')
    ensures StrToL(t, 0) == 0
  {
    assert SkipSpace(t) == t;
    if t != [] {
      assert t[0..] == t;
    }
  }
}
