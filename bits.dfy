/** The bit cursor of the L1 signalling dump: a static buffer of
    L1_DUMP_BUFFER_SIZE * 8 = 4096 bits, filled from the decoded bytes most
    significant bit first, and a read index that get_bits advances. */
module Bits {
  import opened Base64

  const BufferBytes: nat := 512
  const BufferBits: nat := BufferBytes * 8

  /** One entry of the bit buffer (a char holding 0 or 1) */
  type Bit = b: int | 0 <= b <= 1

  function Pow2(n: nat): (r: nat)
    ensures r >= 1
  {
    if n == 0 then 1 else 2 * Pow2(n - 1)
  }

  /** The number whose binary digits, most significant first, are s */
  function Value(s: seq<Bit>): nat
  {
    if s == [] then 0 else 2 * Value(s[..|s| - 1]) + s[|s| - 1]
  }

  lemma {:induction false} ValueBound(s: seq<Bit>)
    ensures Value(s) < Pow2(|s|)
    decreases |s|
  {
    if s != [] {
      ValueBound(s[..|s| - 1]);
    }
  }

  lemma Regroup(x: int, y: int, p: int, d: int)
    ensures 2 * (x * p + y) + d == x * (2 * p) + (2 * y + d)
    ensures x * (2 * p) + d * p == (2 * x + d) * p
  {
  }

  /** Reading a field in two parts: the first part supplies the high digits */
  lemma {:induction false} ValueAppend(a: seq<Bit>, b: seq<Bit>)
    ensures Value(a + b) == Value(a) * Pow2(|b|) + Value(b)
    decreases |b|
  {
    if b == [] {
      assert a + b == a;
    } else {
      var c, d := b[..|b| - 1], b[|b| - 1];
      assert a + b == (a + c) + [d];
      assert b == c + [d];
      ValueSnoc(a + c, d);
      ValueSnoc(c, d);
      ValueAppend(a, c);
      Regroup(Value(a), Value(c), Pow2(|c|), d);
    }
  }

  /** get_bits(n) with the read index at pos, on the whole buffer: the value
      of the n bits at pos and the index after them, or 0 and an unmoved
      index when the field would run past the end of the buffer */
  function Read(bits: seq<Bit>, pos: nat, n: nat): (r: (nat, nat))
    ensures r.0 < Pow2(n)
    ensures r.1 == if pos + n <= |bits| then pos + n else pos
    ensures pos + n <= |bits| ==> r.0 == Value(bits[pos..pos + n])
    ensures pos + n > |bits| ==> r.0 == 0
  {
    if pos + n <= |bits| then
      ValueBound(bits[pos..pos + n]);
      (Value(bits[pos..pos + n]), pos + n)
    else (0, pos)
  }

  /** One step of get_bits' loop: the next bit, shifted into place below
      the ones already read, extends the field by one digit */
  lemma ShiftInBit(prefix: seq<Bit>, b: Bit, i: nat)
    requires i > 0
    ensures Value(prefix) * Pow2(i) + b * Pow2(i - 1) == Value(prefix + [b]) * Pow2(i - 1)
  {
    ValueSnoc(prefix, b);
    Regroup(Value(prefix), 0, Pow2(i - 1), b);
  }

  /** x shifted right by n places */
  function Half(x: nat, n: nat): nat
  {
    if n == 0 then x else Half(x / 2, n - 1)
  }

  /** Bit n of b, the test b & (1 << n) of the fill loop */
  function BitOf(b: byte, n: nat): Bit
  {
    Half(b as int, n) % 2
  }

  /** The low m bits of x, most significant first */
  function LowBits(x: nat, m: nat): (r: seq<Bit>)
    ensures |r| == m
  {
    if m == 0 then [] else LowBits(x / 2, m - 1) + [x % 2]
  }

  /** Appending one digit doubles the value read so far and adds the digit */
  lemma ValueSnoc(s: seq<Bit>, d: Bit)
    ensures Value(s + [d]) == 2 * Value(s) + d
  {
    assert (s + [d])[..|s|] == s;
  }

  lemma {:induction false} LowBitsAt(x: nat, m: nat, n: nat)
    requires n < m
    ensures LowBits(x, m)[m - 1 - n] == Half(x, n) % 2
    decreases m
  {
    if n > 0 {
      LowBitsAt(x / 2, m - 1, n - 1);
    }
  }

  lemma {:induction false} LowBitsValue(x: nat, m: nat)
    requires x < Pow2(m)
    ensures Value(LowBits(x, m)) == x
    decreases m
  {
    if m > 0 {
      LowBitsValue(x / 2, m - 1);
      ValueSnoc(LowBits(x / 2, m - 1), x % 2);
    }
  }

  /** How many bits the fill loop stores for len bytes */
  function Loaded(len: nat): (n: nat)
    ensures n <= BufferBits && n <= 8 * len
    ensures n == 8 * len || n == BufferBits
  {
    if 8 * len < BufferBits then 8 * len else BufferBits
  }

  /** The buffer entry p after loading data: bit 7 - p % 8 of byte p / 8 */
  function LoadedBit(data: seq<byte>, p: nat): Bit
    requires p < 8 * |data|
  {
    BitOf(data[p / 8], 7 - p % 8)
  }

  /** The buffer prev after the fill loop has stored the bits of data:
      the first Loaded(|data|) entries are data's bits, the rest is prev's */
  function Fill(prev: seq<Bit>, data: seq<byte>): seq<Bit>
    requires |prev| == BufferBits
  {
    seq(BufferBits, p requires 0 <= p < BufferBits =>
      if p < Loaded(|data|) then LoadedBit(data, p) else prev[p])
  }

  /** A byte-aligned 8-bit field of the loaded buffer reads back as the byte
      it came from */
  lemma ByteRoundTrip(data: seq<byte>, bits: seq<Bit>, k: nat)
    requires 8 * k + 8 <= |bits| && k < |data|
    requires forall p :: 8 * k <= p < 8 * k + 8 ==> bits[p] == LoadedBit(data, p)
    ensures Read(bits, 8 * k, 8).0 == data[k] as int
  {
    var x := data[k] as int;
    var field := bits[8 * k..8 * k + 8];
    forall j | 0 <= j < 8
      ensures field[j] == LowBits(x, 8)[j]
    {
      assert field[j] == bits[8 * k + j] == LoadedBit(data, 8 * k + j);
      assert (8 * k + j) / 8 == k && (8 * k + j) % 8 == j;
      LowBitsAt(x, 8, 7 - j);
    }
    assert field == LowBits(x, 8);
    Pow2Facts();
    LowBitsValue(x, 8);
  }

  lemma Pow2Facts()
    ensures Pow2(8) == 256
    ensures Pow2(31) == 0x8000_0000 && Pow2(32) == 0x1_0000_0000
  {
    assert Pow2(4) == 16;
    assert Pow2(8) == 256;
    assert Pow2(12) == 4096;
    assert Pow2(16) == 65536;
    assert Pow2(20) == 0x10_0000;
    assert Pow2(24) == 0x100_0000;
    assert Pow2(28) == 0x1000_0000;
  }

  /** The static buffer and its read index */
  class BitReader {
    const bits: array<Bit>
    var index: nat

    /** The buffer starts zeroed, as static storage does */
    constructor()
      ensures bits.Length == BufferBits && index == 0
      ensures forall p :: 0 <= p < BufferBits ==> bits[p] == 0
      ensures fresh(bits)
    {
      bits := new Bit[BufferBits](_ => 0);
      index := 0;
    }

    /** The fill loop of parse_l1_data: resets the index and stores the
        bits of data, most significant first, until either data or the
        buffer runs out; entries past the loaded ones keep what an earlier
        load left there */
    method Load(data: seq<byte>)
      requires bits.Length == BufferBits
      modifies this, bits
      ensures index == 0 && bits.Length == BufferBits
      ensures bits[..] == Fill(old(bits[..]), data)
    {
      index := 0;
      var count := 0;
      var i := 0;
      while i < |data| && count < BufferBits
        invariant index == 0 && 0 <= i <= |data| && count == 8 * i <= BufferBits
        invariant forall p :: 0 <= p < count ==> bits[p] == LoadedBit(data, p)
        invariant forall p :: count <= p < BufferBits ==> bits[p] == old(bits[p])
      {
        var n := 7;
        while n >= 0 && count < BufferBits
          invariant index == 0 && -1 <= n <= 7 && count == 8 * i + (7 - n) <= BufferBits
          invariant forall p :: 0 <= p < count ==> bits[p] == LoadedBit(data, p)
          invariant forall p :: count <= p < BufferBits ==> bits[p] == old(bits[p])
        {
          assert count / 8 == i && count % 8 == 7 - n;
          bits[count] := BitOf(data[i], n);
          count := count + 1;
          n := n - 1;
        }
        i := i + 1;
      }
    }

    /** get_bits(count) */
    method GetBits(count: nat) returns (value: nat)
      requires bits.Length == BufferBits
      modifies this`index
      ensures (value, index) == Read(bits[..], old(index), count)
    {
      if index + count > bits.Length {
        return 0;
      }
      ghost var start := index;
      value := 0;
      var i := count;
      while i > 0
        invariant 0 <= i <= count && index == start + (count - i)
        invariant value == Value(bits[start..index]) * Pow2(i)
      {
        // the bits land on distinct powers of two, so | adds them
        assert bits[start..index + 1] == bits[start..index] + [bits[index]];
        ShiftInBit(bits[start..index], bits[index], i);
        value := value + bits[index] * Pow2(i - 1);
        index := index + 1;
        i := i - 1;
      }
      assert bits[start..index] == bits[..][start..start + count];
    }
  }

  /** get_bits returns its value as a C int: the high bit of a 32-bit field
      is shifted into the sign bit, so the caller sees the field less 2^32 */
  function AsWrittenResult(v: nat): (r: int)
    requires v < 0x1_0000_0000
    ensures r < 0 <==> v >= 0x8000_0000
    ensures r % 0x1_0000_0000 == v
  {
    if v < 0x8000_0000 then v else v - 0x1_0000_0000
  }

  /** A 32-bit field whose first bit is set comes back negative as written */
  lemma AsWrittenSignFlip(bits: seq<Bit>, pos: nat)
    requires pos + 32 <= |bits| && bits[pos] == 1
    ensures 0x8000_0000 <= Read(bits, pos, 32).0 < 0x1_0000_0000
    ensures AsWrittenResult(Read(bits, pos, 32).0) < 0
  {
    var field := bits[pos..pos + 32];
    assert field == [1] + field[1..];
    ValueAppend([1], field[1..]);
    ValueSnoc([], 1);
    assert [] + [1] == [1];
    Pow2Facts();
  }

  /** The field 1000...0 (32 bits), a CRC of 0x80000000, is reported by
      get_bits as -2147483648 and by the model's Read as 2147483648 */
  lemma AsWrittenExample(bits: seq<Bit>)
    requires |bits| == BufferBits && bits[0] == 1
    requires forall p :: 1 <= p < 32 ==> bits[p] == 0
    ensures Read(bits, 0, 32).0 == 0x8000_0000
    ensures AsWrittenResult(Read(bits, 0, 32).0) == -0x8000_0000
  {
    var rest := bits[1..32];
    assert bits[0..32] == [1] + rest;
    ValueAppend([1], rest);
    ValueSnoc([], 1);
    assert [] + [1] == [1];
    ZeroValue(rest);
    Pow2Facts();
  }

  lemma {:induction false} ZeroValue(s: seq<Bit>)
    requires forall p :: 0 <= p < |s| ==> s[p] == 0
    ensures Value(s) == 0
    decreases |s|
  {
    if s != [] {
      ZeroValue(s[..|s| - 1]);
    }
  }
}
