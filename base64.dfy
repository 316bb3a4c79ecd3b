/** The base64 decoder that turns the tuner's l1detail text into bytes
    (b64_decoded_size, b64_isvalidchar, b64_decode), with the standard
    encoder of section 4 of RFC 4648 as its reference partner. */
module Base64 {

  newtype byte = x: int | 0 <= x < 256

  /** size_t on the 64-bit hosts the tool targets */
  const SizeModulus: int := 0x1_0000_0000_0000_0000

  /** b64invs: the sextet of each character from '+' (43) to 'z' (122),
      indexed by the character minus 43; -1 marks a character that is
      not in the alphabet */
  const InvTable: seq<int> :=
    [62, -1, -1, -1, 63, 52, 53, 54] + [55, 56, 57, 58, 59, 60, 61, -1] +
    [-1, -1, -1, -1, -1, -1, 0, 1] + [2, 3, 4, 5, 6, 7, 8, 9] +
    [10, 11, 12, 13, 14, 15, 16, 17] + [18, 19, 20, 21, 22, 23, 24, 25] +
    [-1, -1, -1, -1, -1, -1, 26, 27] + [28, 29, 30, 31, 32, 33, 34, 35] +
    [36, 37, 38, 39, 40, 41, 42, 43] + [44, 45, 46, 47, 48, 49, 50, 51]

  /** The alphabet of Table 1 of RFC 4648: the character for sextet x */
  function AlphabetChar(x: nat): (c: char)
    requires x < 64
  {
    if x < 26 then ('A' as int + x) as char
    else if x < 52 then ('a' as int + x - 26) as char
    else if x < 62 then ('0' as int + x - 52) as char
    else if x == 62 then '+'
    else '/'
  }

  /** The inverse of Table 1 of RFC 4648 on character codes, -1 outside it */
  function AlphabetIndex(c: int): int
  {
    if 65 <= c <= 90 then c - 65
    else if 97 <= c <= 122 then c - 71
    else if 48 <= c <= 57 then c + 4
    else if c == 43 then 62
    else if c == 47 then 63
    else -1
  }

  lemma TableRowsLow(k: nat)
    requires k < 5
    ensures forall i :: 8 * k <= i < 8 * k + 8 ==> InvTable[i] == AlphabetIndex(i + 43)
  {
    if k == 0 {} else if k == 1 {} else if k == 2 {} else if k == 3 {} else {}
  }

  lemma TableRowsHigh(k: nat)
    requires 5 <= k < 10
    ensures forall i :: 8 * k <= i < 8 * k + 8 ==> InvTable[i] == AlphabetIndex(i + 43)
  {
    if k == 5 {} else if k == 6 {} else if k == 7 {} else if k == 8 {} else {}
  }

  /** b64invs is exactly the inverse of the RFC 4648 alphabet over '+'..'z' */
  lemma TableIsAlphabetInverse()
    ensures |InvTable| == 80
    ensures forall i :: 0 <= i < 80 ==> InvTable[i] == AlphabetIndex(i + 43)
  {
    forall i | 0 <= i < 80
      ensures InvTable[i] == AlphabetIndex(i + 43)
    {
      if i < 40 { TableRowsLow(i / 8); } else { TableRowsHigh(i / 8); }
    }
  }

  /** b64_isvalidchar: a digit, a letter, '+', '/' or '=' */
  predicate IsValidChar(c: char)
  {
    ('0' <= c <= '9') || ('A' <= c <= 'Z') || ('a' <= c <= 'z') || c == '+' || c == '/' || c == '='
  }

  predicate AllValid(s: string)
  {
    forall k :: 0 <= k < |s| ==> IsValidChar(s[k])
  }

  /** b64invs[c - 43] for a character b64_isvalidchar accepts */
  function Sextet(c: char): (x: int)
    requires IsValidChar(c)
    ensures c != '=' ==> 0 <= x < 64
    ensures c == '=' ==> x == -1
  {
    AlphabetIndex(c as int)
  }

  /** Sextet reads b64invs */
  lemma SextetIsTableEntry(c: char)
    requires IsValidChar(c)
    ensures 0 <= c as int - 43 < |InvTable|
    ensures Sextet(c) == InvTable[c as int - 43]
  {
    TableIsAlphabetInverse();
  }

  /** The number of '=' at the end of s */
  function TrailingPads(s: string): (p: nat)
    ensures p <= |s|
    ensures forall k :: |s| - p <= k < |s| ==> s[k] == '='
    ensures p < |s| ==> s[|s| - 1 - p] != '='
  {
    if s != [] && s[|s| - 1] == '=' then 1 + TrailingPads(s[..|s| - 1]) else 0
  }

  /** size_t wrap-around of a value that is at most one modulus below zero */
  function Wrap(x: int): (r: nat)
    requires -SizeModulus < x < SizeModulus
    ensures r < SizeModulus
  {
    if x < 0 then x + SizeModulus else x
  }

  /** b64_decoded_size: three bytes per four characters less one per
      trailing '=', in size_t arithmetic. For a string that fits in memory
      len / 4 * 3 does not wrap, while the decrements can take it below
      zero, where it wraps. */
  function DecodedSize(s: string): (n: nat)
    requires |s| < SizeModulus
    ensures n < SizeModulus
  {
    Wrap(3 * (|s| / 4) - TrailingPads(s))
  }

  /** b64_decoded_size, with its backwards scan over the trailing '=' */
  method DecodedSizeOf(s: string) returns (ret: nat)
    requires |s| < SizeModulus
    ensures ret == DecodedSize(s)
  {
    ret := |s| / 4 * 3;
    ghost var base := ret;
    var i := |s|;
    while i > 0
      invariant 0 <= i <= |s|
      invariant ret == Wrap(base - (|s| - i))
      invariant TrailingPads(s) == (|s| - i) + TrailingPads(s[..i])
    {
      if s[i - 1] == '=' {
        ret := if ret == 0 then SizeModulus - 1 else ret - 1;
        TrailingPadsPrefix(s, i);
        i := i - 1;
      } else {
        break;
      }
    }
    TrailingPadsPrefix(s, i);
  }

  /** Counting the trailing '=' of the prefix s[..i] one at a time */
  lemma TrailingPadsPrefix(s: string, i: nat)
    requires i <= |s|
    ensures i > 0 && s[i - 1] == '=' ==> TrailingPads(s[..i]) == 1 + TrailingPads(s[..i - 1])
    ensures i == 0 || s[i - 1] != '=' ==> TrailingPads(s[..i]) == 0
  {
    if i > 0 {
      assert s[..i][..i - 1] == s[..i - 1];
    }
  }

  const WordModulus: int := 0x1_0000_0000

  /** The int v of the decoder is tracked as its 32-bit pattern. v << 6 is
      the pattern times 64, modulo 2^32; its low six bits are then zero, so
      OR-ing in a sextet below 64 adds it, while OR-ing in -1 (the entry of
      '=') sets every bit. */
  function ShiftIn(v: nat, x: int): (r: nat)
    requires v < WordModulus && -1 <= x < 64
    ensures r < WordModulus
  {
    if x == -1 then WordModulus - 1 else (v * 64) % WordModulus + x
  }

  /** The pattern of v after the decoder has read the characters c0 c1 c2
      c3: each sextet shifted in, a '=' in the third or fourth place
      contributing a bare shift */
  function QuartetWord(c0: char, c1: char, c2: char, c3: char): (v: nat)
    requires IsValidChar(c0) && IsValidChar(c1) && IsValidChar(c2) && IsValidChar(c3)
    ensures v < WordModulus
  {
    var v := ShiftIn(0, Sextet(c0));
    var v := ShiftIn(v, Sextet(c1));
    var v := if c2 == '=' then ShiftIn(v, 0) else ShiftIn(v, Sextet(c2));
    if c3 == '=' then ShiftIn(v, 0) else ShiftIn(v, Sextet(c3))
  }

  /** The pattern of v after the decoder has read quartet q of s */
  function Word(s: string, q: nat): (v: nat)
    requires 4 * q + 4 <= |s| && AllValid(s)
    ensures v < WordModulus
  {
    QuartetWord(s[4 * q], s[4 * q + 1], s[4 * q + 2], s[4 * q + 3])
  }

  /** Output byte k is stored by quartet k / 3: its first byte always, the
      second unless the third character is '=', the third unless the
      fourth character is '=' */
  predicate Written(s: string, k: nat)
  {
    var q := k / 3;
    4 * q + 4 <= |s| &&
    (k % 3 == 0 || (k % 3 == 1 && s[4 * q + 2] != '=') || (k % 3 == 2 && s[4 * q + 3] != '='))
  }

  /** Bits 8*n to 8*n+7 of a pattern: (v >> 8*n) & 0xFF */
  function ByteOf(v: nat, n: nat): (r: byte)
    requires n < 3
  {
    if n == 0 then (v % 256) as byte
    else if n == 1 then (v / 256 % 256) as byte
    else (v / 256 / 256 % 256) as byte
  }

  /** The byte stored at output index k: bits 16-23, 8-15 or 0-7 of v */
  function ByteAt(s: string, k: nat): byte
    requires 4 * (k / 3) + 4 <= |s| && AllValid(s)
  {
    ByteOf(Word(s, k / 3), 2 - k % 3)
  }

  /** buf after the first q quartets of s are decoded into it */
  function OverlayUpTo(buf: seq<byte>, s: string, q: nat): (r: seq<byte>)
    requires AllValid(s)
    ensures |r| == |buf|
  {
    seq(|buf|, k requires 0 <= k < |buf| =>
      if k / 3 < q && Written(s, k) then ByteAt(s, k) else buf[k])
  }

  /** buf after all of s is decoded into it */
  function Overlay(buf: seq<byte>, s: string): seq<byte>
    requires AllValid(s)
  {
    OverlayUpTo(buf, s, |s| / 4)
  }

  /** The checks b64_decode makes before it writes anything */
  predicate AcceptsAsWritten(s: string, outlen: nat)
    requires |s| < SizeModulus
  {
    outlen >= DecodedSize(s) && |s| % 4 == 0 && AllValid(s)
  }

  /** The same checks, also refusing more than two trailing '=' */
  predicate Accepts(s: string, outlen: nat)
    requires |s| < SizeModulus
  {
    AcceptsAsWritten(s, outlen) && TrailingPads(s) <= 2
  }

  /** As written, three or more trailing '=' pass the checks with an
      outlen of b64_decoded_size(in), yet the last quartet still stores
      its first byte, at an index at or past that size. */
  lemma AsWrittenWritesPastEnd(s: string, n: nat)
    requires |s| == 4 * n && |s| < SizeModulus
    requires AcceptsAsWritten(s, DecodedSize(s))
    requires 3 <= TrailingPads(s) <= 3 * n
    ensures Written(s, 3 * n - 3)
    ensures 3 * n - 3 >= DecodedSize(s)
  {
    assert (3 * n - 3) / 3 == n - 1;
  }

  /** "A===" is accepted into a buffer of b64_decoded_size("A===") == 0
      bytes, and its quartet stores byte 0 */
  lemma AsWrittenExample()
    ensures DecodedSize("A===") == 0
    ensures AcceptsAsWritten("A===", 0)
    ensures Written("A===", 0)
  {
    assert TrailingPads("A===") == 3 by {
      assert "A==="[..3] == "A==";
      assert "A=="[..2] == "A=";
      assert "A="[..1] == "A";
      assert "A"[..0] == "";
    }
  }

  /** With at most two trailing '=', every byte the decoder stores lies
      below b64_decoded_size, hence inside a buffer the checks accept */
  lemma WritesFit(s: string, outlen: nat, k: nat)
    requires |s| < SizeModulus
    requires Accepts(s, outlen)
    requires Written(s, k)
    ensures k < DecodedSize(s) <= outlen
  {
    var n := |s| / 4;
    var p := TrailingPads(s);
    var q := k / 3;
    assert 3 * n - p >= 0;
    if q == n - 1 {
      if p == 2 {
        assert s[4 * q + 2] == '=' && s[4 * q + 3] == '=';
      } else if p == 1 {
        assert s[4 * q + 3] == '=';
      }
    }
  }

  /** More than two trailing '=' means the last three characters are '=' */
  lemma ThreePads(s: string)
    ensures TrailingPads(s) >= 3 <==> |s| >= 3 && s[|s| - 3] == '=' && s[|s| - 2] == '=' && s[|s| - 1] == '='
  {
    if |s| >= 3 && s[|s| - 3] == '=' && s[|s| - 2] == '=' && s[|s| - 1] == '=' {
      var t := s[..|s| - 1];
      var u := t[..|t| - 1];
      assert t[|t| - 1] == '=' && u[|u| - 1] == '=';
    }
  }

  /** The bytes quartet q stores lie inside a buffer the checks accept */
  lemma QuartetFits(s: string, outlen: nat, q: nat)
    requires |s| < SizeModulus
    requires Accepts(s, outlen)
    requires 4 * q + 4 <= |s|
    ensures 3 * q < outlen
    ensures s[4 * q + 2] != '=' ==> 3 * q + 1 < outlen
    ensures s[4 * q + 3] != '=' ==> 3 * q + 2 < outlen
  {
    assert (3 * q) / 3 == q && (3 * q + 1) / 3 == q && (3 * q + 2) / 3 == q;
    WritesFit(s, outlen, 3 * q);
    if s[4 * q + 2] != '=' {
      WritesFit(s, outlen, 3 * q + 1);
    }
    if s[4 * q + 3] != '=' {
      WritesFit(s, outlen, 3 * q + 2);
    }
  }

  /** Which of its three bytes quartet q stores, and their values */
  lemma QuartetBytes(s: string, q: nat)
    requires AllValid(s) && 4 * q + 4 <= |s|
    ensures (3 * q) / 3 == q && (3 * q + 1) / 3 == q && (3 * q + 2) / 3 == q
    ensures Written(s, 3 * q) && ByteAt(s, 3 * q) == ByteOf(Word(s, q), 2)
    ensures Written(s, 3 * q + 1) <==> s[4 * q + 2] != '='
    ensures ByteAt(s, 3 * q + 1) == ByteOf(Word(s, q), 1)
    ensures Written(s, 3 * q + 2) <==> s[4 * q + 3] != '='
    ensures ByteAt(s, 3 * q + 2) == ByteOf(Word(s, q), 0)
  {
    assert (3 * q) / 3 == q && (3 * q + 1) / 3 == q && (3 * q + 2) / 3 == q;
    assert (3 * q) % 3 == 0 && (3 * q + 1) % 3 == 1 && (3 * q + 2) % 3 == 2;
  }

  /** prev after the stores of one quartet with value v at index j: its
      first byte, then the second if second holds, then the third if
      third holds */
  function StoreQuartet(prev: seq<byte>, j: nat, v: nat, second: bool, third: bool): (r: seq<byte>)
    requires j < |prev|
    requires second ==> j + 1 < |prev|
    requires third ==> j + 2 < |prev|
    ensures |r| == |prev|
  {
    var a := prev[j := ByteOf(v, 2)];
    var b := if second then a[j + 1 := ByteOf(v, 1)] else a;
    if third then b[j + 2 := ByteOf(v, 0)] else b
  }

  /** Storing quartet q over the overlay of the first q quartets gives the
      overlay of the first q + 1 */
  lemma OverlayStep(buf: seq<byte>, s: string, q: nat, prev: seq<byte>, i: nat, j: nat, v: nat)
    requires AllValid(s) && 4 * q + 4 <= |s|
    requires prev == OverlayUpTo(buf, s, q) && i == 4 * q && j == 3 * q
    requires v == QuartetWord(s[i], s[i + 1], s[i + 2], s[i + 3])
    requires 3 * q < |buf|
    requires s[4 * q + 2] != '=' ==> 3 * q + 1 < |buf|
    requires s[4 * q + 3] != '=' ==> 3 * q + 2 < |buf|
    ensures StoreQuartet(prev, j, v, s[i + 2] != '=', s[i + 3] != '=') == OverlayUpTo(buf, s, q + 1)
  {
    var next := StoreQuartet(prev, 3 * q, Word(s, q), s[4 * q + 2] != '=', s[4 * q + 3] != '=');
    forall k | 0 <= k < |buf|
      ensures next[k] == OverlayUpTo(buf, s, q + 1)[k]
    {
      StoreQuartetAt(prev, s, q, k);
    }
  }

  /** Byte k after the stores of quartet q */
  lemma StoreQuartetAt(prev: seq<byte>, s: string, q: nat, k: nat)
    requires AllValid(s) && 4 * q + 4 <= |s|
    requires 3 * q < |prev|
    requires s[4 * q + 2] != '=' ==> 3 * q + 1 < |prev|
    requires s[4 * q + 3] != '=' ==> 3 * q + 2 < |prev|
    requires k < |prev|
    ensures StoreQuartet(prev, 3 * q, Word(s, q), s[4 * q + 2] != '=', s[4 * q + 3] != '=')[k]
         == if k / 3 == q && Written(s, k) then ByteAt(s, k) else prev[k]
  {
    QuartetBytes(s, q);
    if k < 3 * q {
      assert k / 3 < q;
    } else if k >= 3 * q + 3 {
      assert k / 3 > q;
    } else {
      assert k / 3 == q;
    }
  }

  /** The second loop of b64_decode: once the checks have passed, each
      quartet of s is decoded into the next three places of out */
  method DecodeQuartets(s: string, out: array<byte>)
    requires |s| < SizeModulus
    requires Accepts(s, out.Length)
    modifies out
    ensures out[..] == Overlay(old(out[..]), s)
  {
    ghost var buf := out[..];
    ghost var n := |s| / 4;
    assert |s| == 4 * n;
    var i := 0;
    var j := 0;
    ghost var q := 0;
    while i < |s|
      invariant 0 <= q <= n && i == 4 * q && j == 3 * q
      invariant out[..] == OverlayUpTo(buf, s, q)
    {
      ghost var prev := out[..];
      var v := ShiftIn(0, Sextet(s[i]));
      v := ShiftIn(v, Sextet(s[i + 1]));
      v := if s[i + 2] == '=' then ShiftIn(v, 0) else ShiftIn(v, Sextet(s[i + 2]));
      v := if s[i + 3] == '=' then ShiftIn(v, 0) else ShiftIn(v, Sextet(s[i + 3]));
      assert v == QuartetWord(s[i], s[i + 1], s[i + 2], s[i + 3]);
      QuartetFits(s, out.Length, q);
      out[j] := ByteOf(v, 2);
      if s[i + 2] != '=' {
        out[j + 1] := ByteOf(v, 1);
      }
      if s[i + 3] != '=' {
        out[j + 2] := ByteOf(v, 0);
      }
      assert out[..] == StoreQuartet(prev, j, v, s[i + 2] != '=', s[i + 3] != '=');
      OverlayStep(buf, s, q, prev, i, j, v);
      i, j, q := i + 4, j + 3, q + 1;
    }
  }

  /** b64_decode(in, out, outlen) with outlen the length of out, refusing
      more than two trailing '='. It returns whether it accepted s; when it
      did, out holds every quartet's bytes and keeps every byte the
      quartets do not store, and otherwise out is untouched. */
  method Decode(s: string, out: array<byte>) returns (ok: bool)
    requires |s| < SizeModulus
    modifies out
    ensures ok == Accepts(s, out.Length)
    ensures ok ==> out[..] == Overlay(old(out[..]), s)
    ensures !ok ==> out[..] == old(out[..])
  {
    var size := DecodedSizeOf(s);
    if out.Length < size || |s| % 4 != 0 {
      return false;
    }
    var i := 0;
    while i < |s|
      invariant 0 <= i <= |s|
      invariant forall k :: 0 <= k < i ==> IsValidChar(s[k])
    {
      if !IsValidChar(s[i]) {
        return false;
      }
      i := i + 1;
    }
    if |s| >= 3 && s[|s| - 3] == '=' && s[|s| - 2] == '=' && s[|s| - 1] == '=' {
      ThreePads(s);
      return false;
    }
    ThreePads(s);
    DecodeQuartets(s, out);
    return true;
  }

  // ---------------------------------------------------------------------
  // The reference encoder (section 4 of RFC 4648) and the round trip.

  /** The three bytes of group g as 24 bits, missing ones taken as zero */
  function Group(b: seq<byte>, g: nat): (w: nat)
    requires 3 * g < |b|
    ensures w < 0x100_0000
  {
    var b1 := if 3 * g + 1 < |b| then b[3 * g + 1] as int else 0;
    var b2 := if 3 * g + 2 < |b| then b[3 * g + 2] as int else 0;
    (b[3 * g] as int * 256 + b1) * 256 + b2
  }

  /** Sextet r of a 24-bit group, the most significant first */
  function SextetOf(w: nat, r: nat): (x: nat)
    requires r < 4
    ensures x < 64
  {
    if r == 0 then w / 64 / 64 / 64 % 64
    else if r == 1 then w / 64 / 64 % 64
    else if r == 2 then (w / 64) % 64
    else w % 64
  }

  /** Character i of the encoding of b: sextet i % 4 of group i / 4, or the
      pad '=' where the group has fewer bytes than that sextet needs */
  function EncodedChar(b: seq<byte>, i: nat): char
    requires i < 4 * ((|b| + 2) / 3)
  {
    var g := i / 4;
    var r := i % 4;
    var left := |b| - 3 * g;
    if (r == 2 && left < 2) || (r == 3 && left < 3) then '='
    else AlphabetChar(SextetOf(Group(b, g), r))
  }

  /** Characters i onwards of the encoding of b */
  function EncodeFrom(b: seq<byte>, i: nat): (s: string)
    requires i <= 4 * ((|b| + 2) / 3)
    ensures |s| == 4 * ((|b| + 2) / 3) - i
    decreases 4 * ((|b| + 2) / 3) - i
  {
    if i == 4 * ((|b| + 2) / 3) then [] else [EncodedChar(b, i)] + EncodeFrom(b, i + 1)
  }

  /** The RFC 4648 encoding of b, padded to a multiple of four characters */
  function Encode(b: seq<byte>): (s: string)
    ensures |s| == 4 * ((|b| + 2) / 3)
  {
    EncodeFrom(b, 0)
  }

  lemma {:induction false} EncodeFromAt(b: seq<byte>, i: nat, k: nat)
    requires i <= k < 4 * ((|b| + 2) / 3)
    ensures EncodeFrom(b, i)[k - i] == EncodedChar(b, k)
    decreases k - i
  {
    hide EncodedChar;
    if i < k {
      EncodeFromAt(b, i + 1, k);
    }
  }

  lemma EncodeAt(b: seq<byte>, k: nat)
    requires k < 4 * ((|b| + 2) / 3)
    ensures Encode(b)[k] == EncodedChar(b, k)
  {
    EncodeFromAt(b, 0, k);
  }

  lemma AlphabetRoundTrip(x: nat)
    requires x < 64
    ensures IsValidChar(AlphabetChar(x)) && AlphabetChar(x) != '='
    ensures Sextet(AlphabetChar(x)) == x
  {
  }

  /** Shifting the four sextets of a 24-bit group back in gives the group */
  lemma RegroupSextets(w: nat)
    requires w < 0x100_0000
    ensures ShiftIn(ShiftIn(ShiftIn(ShiftIn(0, SextetOf(w, 0)), SextetOf(w, 1)), SextetOf(w, 2)), SextetOf(w, 3)) == w
  {
    hide ShiftIn;
    var a := w / 64;
    var b := a / 64;
    var c := b / 64;
    assert c < 64 && b == c * 64 + b % 64 && a == b * 64 + a % 64 && w == a * 64 + w % 64;
    ShiftInSmall(0, c);
    ShiftInSmall(c, b % 64);
    ShiftInSmall(b, a % 64);
    ShiftInSmall(a, w % 64);
  }

  /** Shifting a value below 2^26 in by six bits loses nothing */
  lemma ShiftInSmall(v: nat, x: nat)
    requires v < 0x400_0000 && x < 64
    ensures ShiftIn(v, x) == v * 64 + x
  {
    assert v * 64 < WordModulus;
  }

  /** Splitting a * 256 + r, with r a byte, back into a and r */
  lemma Place256(a: nat, r: nat)
    requires r < 256
    ensures (a * 256 + r) / 256 == a && (a * 256 + r) % 256 == r
  {
  }

  /** The bytes of a group sit in bits 16-23, 8-15 and 0-7 */
  lemma GroupBytes(b: seq<byte>, g: nat)
    requires 3 * g < |b|
    ensures ByteOf(Group(b, g), 2) == b[3 * g]
    ensures 3 * g + 1 < |b| ==> ByteOf(Group(b, g), 1) == b[3 * g + 1]
    ensures 3 * g + 2 < |b| ==> ByteOf(Group(b, g), 0) == b[3 * g + 2]
  {
    var b0 := b[3 * g] as int;
    var b1 := if 3 * g + 1 < |b| then b[3 * g + 1] as int else 0;
    var b2 := if 3 * g + 2 < |b| then b[3 * g + 2] as int else 0;
    Place256(b0 * 256 + b1, b2);
    Place256(b0, b1);
  }

  /** A pad replaces a sextet that is zero anyway: the missing bytes are zero */
  lemma PaddedSextetsZero(b: seq<byte>, g: nat)
    requires 3 * g < |b|
    ensures 3 * g + 1 >= |b| ==> SextetOf(Group(b, g), 2) == 0
    ensures 3 * g + 2 >= |b| ==> SextetOf(Group(b, g), 3) == 0
  {
  }

  lemma EncodeValid(b: seq<byte>)
    ensures AllValid(Encode(b))
  {
    var s := Encode(b);
    forall k | 0 <= k < |s| ensures IsValidChar(s[k])
    {
      EncodeAt(b, k);
      if s[k] != '=' {
        AlphabetRoundTrip(SextetOf(Group(b, k / 4), k % 4));
      }
    }
  }

  lemma {:induction false} TrailingPadsExact(s: string, p: nat)
    requires p < |s|
    requires forall k :: |s| - p <= k < |s| ==> s[k] == '='
    requires s[|s| - 1 - p] != '='
    ensures TrailingPads(s) == p
    decreases p
  {
    if p > 0 {
      var t := s[..|s| - 1];
      assert forall k :: |t| - (p - 1) <= k < |t| ==> t[k] == '=';
      TrailingPadsExact(t, p - 1);
    }
  }

  /** The encoding of b ends in exactly (3 - |b| % 3) % 3 pads */
  lemma EncodePads(b: seq<byte>)
    ensures TrailingPads(Encode(b)) == (3 - |b| % 3) % 3
  {
    var s := Encode(b);
    var pads := (3 - |b| % 3) % 3;
    if b != [] {
      var groups := (|b| + 2) / 3;
      LastGroup(b);
      forall k | |s| - pads <= k < |s| ensures s[k] == '=' {
        EncodeAt(b, k);
        assert k / 4 == groups - 1;
      }
      var last := |s| - 1 - pads;
      EncodeAt(b, last);
      assert last / 4 == groups - 1;
      AlphabetRoundTrip(SextetOf(Group(b, last / 4), last % 4));
      TrailingPadsExact(s, pads);
    }
  }

  /** The last group of a non-empty b holds one to three bytes, and the
      pads make up the rest */
  lemma LastGroup(b: seq<byte>)
    requires b != []
    ensures var groups := (|b| + 2) / 3;
      var left := |b| - 3 * (groups - 1);
      1 <= left <= 3 && (3 - |b| % 3) % 3 == 3 - left
  {
    var n := |b|;
    var q, r := n / 3, n % 3;
    assert n == 3 * q + r && 0 <= r < 3;
    if r == 0 {
      assert (n + 2) / 3 == q;
    } else {
      assert n + 2 == 3 * (q + 1) + (r - 1);
      assert (n + 2) / 3 == q + 1;
    }
  }

  /** Character r of group g of an encoding is a pad standing for a zero
      sextet, or a character whose sextet is sextet r of the group */
  lemma EncodedSextet(b: seq<byte>, g: nat, r: nat)
    requires 3 * g < |b| && r < 4
    ensures var c := Encode(b)[4 * g + r];
      IsValidChar(c) &&
      (c == '=' <==> (r == 2 && |b| - 3 * g < 2) || (r == 3 && |b| - 3 * g < 3)) &&
      (c == '=' ==> r >= 2 && SextetOf(Group(b, g), r) == 0) &&
      (c != '=' ==> Sextet(c) == SextetOf(Group(b, g), r))
  {
    EncodeAt(b, 4 * g + r);
    assert (4 * g + r) / 4 == g && (4 * g + r) % 4 == r;
    AlphabetRoundTrip(SextetOf(Group(b, g), r));
    PaddedSextetsZero(b, g);
  }

  /** A quartet whose characters carry the four sextets of w, pads standing
      for zero sextets in the last two places, decodes to w */
  lemma WordFromSextets(s: string, q: nat, w: nat)
    requires AllValid(s) && 4 * q + 4 <= |s| && w < 0x100_0000
    requires s[4 * q] != '=' && Sextet(s[4 * q]) == SextetOf(w, 0)
    requires s[4 * q + 1] != '=' && Sextet(s[4 * q + 1]) == SextetOf(w, 1)
    requires s[4 * q + 2] == '=' ==> SextetOf(w, 2) == 0
    requires s[4 * q + 2] != '=' ==> Sextet(s[4 * q + 2]) == SextetOf(w, 2)
    requires s[4 * q + 3] == '=' ==> SextetOf(w, 3) == 0
    requires s[4 * q + 3] != '=' ==> Sextet(s[4 * q + 3]) == SextetOf(w, 3)
    ensures Word(s, q) == w
  {
    RegroupSextets(w);
  }

  /** Decoding the characters of group g restores the group's 24 bits */
  lemma WordOfEncode(b: seq<byte>, g: nat)
    requires 3 * g < |b|
    requires AllValid(Encode(b))
    ensures Word(Encode(b), g) == Group(b, g)
  {
    EncodedSextet(b, g, 0);
    EncodedSextet(b, g, 1);
    EncodedSextet(b, g, 2);
    EncodedSextet(b, g, 3);
    WordFromSextets(Encode(b), g, Group(b, g));
  }

  /** Decoding an encoding stores every byte, and stores it unchanged */
  lemma DecodeByteOfEncode(b: seq<byte>, k: nat)
    requires k < |b|
    requires AllValid(Encode(b))
    ensures Written(Encode(b), k)
    ensures ByteAt(Encode(b), k) == b[k]
  {
    var g := k / 3;
    EncodedSextet(b, g, 2);
    EncodedSextet(b, g, 3);
    WordOfEncode(b, g);
    GroupBytes(b, g);
  }

  lemma EncodedLength(n: nat)
    ensures 3 * (4 * ((n + 2) / 3) / 4) - (3 - n % 3) % 3 == n
    ensures (4 * ((n + 2) / 3)) % 4 == 0
  {
    assert 4 * ((n + 2) / 3) / 4 == (n + 2) / 3;
  }

  /** The decoder's checks accept the encoding of b into |b| bytes */
  lemma AcceptsEncode(b: seq<byte>)
    requires |b| < SizeModulus / 2
    ensures AllValid(Encode(b))
    ensures DecodedSize(Encode(b)) == |b|
    ensures Accepts(Encode(b), |b|)
  {
    EncodeValid(b);
    EncodePads(b);
    var s := Encode(b);
    assert |s| == 4 * ((|b| + 2) / 3);
    assert AllValid(s);
    assert TrailingPads(s) == (3 - |b| % 3) % 3;
    AcceptsOfShape(s, |b|);
  }

  /** A valid string of the encoded length and padding of n bytes is
      accepted into n bytes */
  lemma AcceptsOfShape(s: string, n: nat)
    requires n < SizeModulus / 2
    requires AllValid(s)
    requires |s| == 4 * ((n + 2) / 3)
    requires TrailingPads(s) == (3 - n % 3) % 3
    ensures DecodedSize(s) == n
    ensures Accepts(s, n)
  {
    EncodedLength(n);
  }

  /** Round trip: the decoder accepts the RFC 4648 encoding of any byte
      string into a buffer of exactly its length, announces that length
      as the decoded size, and fills the buffer with the original bytes. */
  lemma DecodeEncode(b: seq<byte>, buf: seq<byte>)
    requires |b| < SizeModulus / 2
    requires |buf| == |b|
    ensures AllValid(Encode(b))
    ensures DecodedSize(Encode(b)) == |b|
    ensures Accepts(Encode(b), |b|)
    ensures Overlay(buf, Encode(b)) == b
  {
    AcceptsEncode(b);
    var s := Encode(b);
    forall k | 0 <= k < |b| ensures Overlay(buf, s)[k] == b[k]
    {
      DecodeByteOfEncode(b, k);
    }
  }
}
