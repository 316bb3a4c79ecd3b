/** The display list the detail screen scrolls through: a fixed array of
    MAX_DISPLAY_LINES line slots and the count of slots in use. Lines are
    kept as records (what a line says) rather than as formatted text. */
module Report {
  import opened Text

  /** The value part of a "NAME: value" line, by its printf format */
  datatype FieldValue =
    | Dec(n: int)                     // %ld
    | Hex(n: int, digits: nat)        // 0x%0<digits>lx
    | Named(name: string)             // %s, or a fixed phrase
    | Tagged(prefix: string, n: int)  // "Mode %ld", "K=%ld"
    | ReservedCode(n: int)            // "Reserved (%ld)"

  datatype Line =
    | Text(text: string)                          // a literal line
    | Heading(depth: nat, title: string, n: int)  // "Subframe #%d:", "PLP #%d:"
    | Field(depth: nat, name: string, value: FieldValue)
    | IndexedField(depth: nat, title: string, n: int, name: string, value: FieldValue)
    | IdLine(name: string, id: Option<int>)       // "NAME: %ld (0x%lX)" or "NAME: Not set"
    | SnrLine(min: int, max: int)                 // "  -> Required SNR: ..." in hundredths of a dB

  /** MAX_DISPLAY_LINES = MAX_PLPS * 20 + 300 */
  const MaxDisplayLines: nat := 64 * 20 + 300

  /** The lines on display after the lines offered were added one at a time,
      each only while fewer than cap lines were shown, to a display that
      already showed start: the first lines offered, up to the cap */
  function Kept(start: seq<Line>, offered: seq<Line>, cap: nat): seq<Line>
    requires |start| <= cap
  {
    start + offered[..Min(|offered|, cap - |start|)]
  }

  /** The display shows the lines offered, in order, from the start, up
      to its capacity */
  lemma KeptPrefix(start: seq<Line>, offered: seq<Line>, cap: nat)
    requires |start| <= cap
    ensures |Kept(start, offered, cap)| == Min(cap, |start| + |offered|)
    ensures Kept(start, offered, cap) == (start + offered)[..Min(cap, |start| + |offered|)]
  {
    var n := Min(|offered|, cap - |start|);
    assert (start + offered)[..|start| + n] == start + offered[..n];
  }

  /** Offering one more line adds it exactly when the display has room */
  lemma KeptAdd(start: seq<Line>, offered: seq<Line>, cap: nat, x: Line)
    requires |start| <= cap
    ensures Kept(start, offered + [x], cap)
         == if |Kept(start, offered, cap)| < cap then Kept(start, offered, cap) + [x]
            else Kept(start, offered, cap)
  {
    var n := Min(|offered|, cap - |start|);
    if |Kept(start, offered, cap)| < cap {
      assert (offered + [x])[..n + 1] == offered[..n] + [x];
    } else {
      assert (offered + [x])[..n] == offered[..n];
    }
  }

  /** Once the display is full, offering more lines changes nothing */
  lemma KeptFull(start: seq<Line>, offered: seq<Line>, more: seq<Line>, cap: nat)
    requires |start| <= cap && |Kept(start, offered, cap)| == cap
    ensures Kept(start, offered + more, cap) == Kept(start, offered, cap)
  {
    var n := Min(|offered|, cap - |start|);
    assert (offered + more)[..n] == offered[..n];
  }

  /** Offering a then b shows what offering a + b in one go shows */
  lemma KeptThen(start: seq<Line>, a: seq<Line>, b: seq<Line>, cap: nat)
    requires |start| <= cap
    ensures |Kept(start, a, cap)| <= cap
    ensures Kept(Kept(start, a, cap), b, cap) == Kept(start, a + b, cap)
  {
    var n := Min(|a|, cap - |start|);
    if n < |a| {
      assert (a + b)[..n] == a[..n];
    } else {
      var m := Min(|b|, cap - |start| - n);
      assert (a + b)[..n + m] == a + b[..m];
    }
  }

  class Display {
    const slots: array<Line>
    var count: nat
    /** The lines shown when the current batch of add_line calls began */
    ghost var start: seq<Line>
    /** Every line offered to add_line in the current batch, in order */
    ghost var offered: seq<Line>

    ghost predicate Valid()
      reads this, slots
    {
      count <= slots.Length && |start| <= slots.Length
      && slots[..count] == Kept(start, offered, slots.Length)
    }

    /** The lines on display */
    function Shown(): (r: seq<Line>)
      reads this, slots
      requires count <= slots.Length
      ensures |r| == count
    {
      slots[..count]
    }

    constructor(capacity: nat)
      ensures Valid() && fresh(slots) && slots.Length == capacity
      ensures count == 0 && start == [] && offered == []
    {
      slots := new Line[capacity](_ => Text(""));
      count := 0;
      start := [];
      offered := [];
    }

    /** Starts a new batch: what is shown now becomes its starting point */
    ghost method Begin()
      requires Valid()
      modifies this
      ensures Valid() && count == old(count) && start == Shown() && offered == []
      ensures slots[..count] == old(slots[..count])
    {
      start := slots[..count];
      offered := [];
    }

    /** add_line: stores x in the next slot only while count < max_lines */
    method Add(x: Line)
      requires Valid()
      modifies this, slots
      ensures Valid() && start == old(start) && offered == old(offered) + [x]
      ensures Shown() == if old(count) < slots.Length then old(Shown()) + [x] else old(Shown())
    {
      KeptAdd(start, offered, slots.Length, x);
      if count < slots.Length {
        slots[count] := x;
        count := count + 1;
        assert slots[..count] == old(slots[..count]) + [x];
      }
      offered := offered + [x];
    }

    /** display_lines[line_count++] = x, with no check of the count */
    method Push(x: Line)
      requires Valid() && count < slots.Length
      modifies this, slots
      ensures Valid() && start == old(start) && offered == old(offered) + [x]
      ensures Shown() == old(Shown()) + [x]
    {
      Add(x);
    }
  }
}
