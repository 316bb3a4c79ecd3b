/** The PLP detail screen's list of lines (hdhomerun_tui.c 2394-2515): a
    blank line, the BSID and TSID lines, a blank line, then every line of
    the tuner's plpinfo text except its "bsid=" line, each followed by the
    required-SNR annotation for its modulation and code rate when the table
    has one, and by a blank line; then, after a separator, the decoded
    L1-detail block. */
module PlpReport {
  import opened Text
  import opened CNumber
  import opened Status
  import opened ModCod
  import L1Fields
  import opened Report
  import opened Base64
  import opened Bits
  import L1Parser
  import S = L1Spec

  /** The text from the start of s up to the first space (strchr(s, ' ')),
      or all of s when it has none */
  function Token(s: string): (r: string)
    ensures r <= s && ' ' !in r
    ensures |r| < |s| ==> s[|r|] == ' '
  {
    match FindChar(s, ' ')
    case None => s
    case Some(k) => s[..k]
  }

  /** The token right after the first occurrence of key in line */
  function ValueAfter(line: string, key: string): Option<string>
  {
    match Find(line, key)
    case None => None
    case Some(i) => Some(Token(line[i + |key|..]))
  }

  /** The modulation looked up: the normalised token when it fits the
      16-byte raw_mod_str, otherwise the empty string it was zeroed to */
  function ModKey(token: string): string
  {
    if |token| < 16 then Normalized(token) else ""
  }

  /** The code rate looked up: the token when it fits the 8-byte cod_str */
  function CodKey(token: string): string
  {
    if |token| < 8 then token else ""
  }

  /** The annotation a PLP line is given (while the display has room): the
      SNR range of the table row for its mod= and cod= values, if any */
  function SnrLines(line: string): seq<Line>
  {
    match (ValueAfter(line, "mod="), ValueAfter(line, "cod="))
    case (Some(m), Some(c)) =>
      (match Lookup(ModKey(m), CodKey(c))
       case Some(row) => [SnrLine(row.minSnr, row.maxSnr)]
       case None => [])
    case _ => []
  }

  /** The lines one plpinfo line contributes */
  function PlpLine(line: string): seq<Line>
  {
    if StartsWith(line, "bsid=") then [] else [Text(line)] + SnrLines(line) + [Text(" ")]
  }

  function PlpLines(lines: seq<string>): seq<Line>
  {
    if lines == [] then [] else PlpLines(lines[..|lines| - 1]) + PlpLine(lines[|lines| - 1])
  }

  /** A parsed id: "Not set" for the sentinel */
  function IdOf(v: int): Option<int>
  {
    if v == NotFound then None else Some(v)
  }

  /** The BSID from plpinfo and the TSID from streaminfo; a text that could
      not be fetched (a NULL copy) leaves the sentinel */
  function Bsid(plpinfo: Option<string>): int
  {
    if plpinfo.Some? then ParseStatusValue(plpinfo.value, "bsid=") else NotFound
  }

  function Tsid(streaminfo: Option<string>): int
  {
    if streaminfo.Some? then ParseStatusValue(streaminfo.value, "tsid=") else NotFound
  }

  function Header(plpinfo: Option<string>, streaminfo: Option<string>): seq<Line>
  {
    [Text(" "), IdLine("L1D BSID", IdOf(Bsid(plpinfo))), IdLine("SLT TSID", IdOf(Tsid(streaminfo))), Text(" ")]
  }

  /** Every line offered to the display, in order, before the L1 block */
  function DetailLines(plpinfo: Option<string>, streaminfo: Option<string>): seq<Line>
  {
    Header(plpinfo, streaminfo) + (if plpinfo.Some? then PlpLines(Tokens(plpinfo.value)) else [])
  }

  lemma {:induction false} PlpLinesAppend(a: seq<string>, b: seq<string>)
    ensures PlpLines(a + b) == PlpLines(a) + PlpLines(b)
    decreases |b|
  {
    hide PlpLine;
    if b == [] {
      assert a + b == a;
    } else {
      var b' := b[..|b| - 1];
      var x := b[|b| - 1];
      assert (a + b)[..|a + b| - 1] == a + b' && (a + b)[|a + b| - 1] == x;
      assert PlpLines(a + b) == PlpLines(a + b') + PlpLine(x);
      PlpLinesAppend(a, b');
      assert PlpLines(b) == PlpLines(b') + PlpLine(x);
    }
  }

  /** The SNR step of one loop iteration: what SnrLines offers, given that
      mod= and cod= were found and the tokens were cut and normalised */
  lemma SnrStep(line: string, i: nat, j: nat, norm: string, cod: string)
    requires Find(line, "mod=") == Some(i) && Find(line, "cod=") == Some(j)
    requires norm == ModKey(Token(line[i + 4..])) && cod == CodKey(Token(line[j + 4..]))
    ensures SnrLines(line) == match Lookup(norm, cod)
      case Some(row) => [SnrLine(row.minSnr, row.maxSnr)]
      case None => []
  {
    hide Normalized, Lookup, Token, Find;
  }

  lemma SnrAbsent(line: string)
    requires Find(line, "mod=").None? || Find(line, "cod=").None?
    ensures SnrLines(line) == []
  {
  }

  /** The table row for the mod= and cod= tokens of a line that has both:
      each token is cut at the next space, the modulation normalised when
      it fits raw_mod_str and the code rate kept when it fits cod_str */
  method LookupLine(line: string, i: nat, j: nat) returns (row: Option<Row>)
    requires Find(line, "mod=") == Some(i) && Find(line, "cod=") == Some(j)
    ensures SnrLines(line) == if row.Some? then [SnrLine(row.value.minSnr, row.value.maxSnr)] else []
  {
    var modToken := Token(line[i + 4..]);
    var norm := "";
    if |modToken| < 16 {
      norm := NormalizeModStr(modToken);
    }
    var codToken := Token(line[j + 4..]);
    var cod := "";
    if |codToken| < 8 {
      cod := codToken;
    }
    SnrStep(line, i, j, norm, cod);
    row := Lookup(norm, cod);
  }

  /** One pass of the strtok loop over a line that is not "bsid=": the
      line, its SNR annotation when the table has one and the display has
      room, and a blank line (each added only while there is room) */
  method AddPlpLine(display: Display, line: string)
    requires display.Valid() && display.count < display.slots.Length
    requires !StartsWith(line, "bsid=")
    modifies display, display.slots
    ensures display.Valid() && display.start == old(display.start)
    ensures display.Shown() == Kept(old(display.Shown()), PlpLine(line), display.slots.Length)
  {
    hide SnrLines, ValueAfter, Find, Token, Normalized, Lookup;
    ghost var cap := display.slots.Length;
    ghost var old0 := display.Shown();
    assert Kept(old0, [], cap) == old0;
    KeptAdd(old0, [], cap, Text(line));
    assert [] + [Text(line)] == [Text(line)];
    display.Push(Text(line));
    ghost var x := [Text(line)];
    var modAt := Find(line, "mod=");
    var codAt := Find(line, "cod=");
    if modAt.Some? && codAt.Some? && display.count < display.slots.Length {
      var row := LookupLine(line, modAt.value, codAt.value);
      if row.Some? {
        KeptAdd(old0, x, cap, SnrLine(row.value.minSnr, row.value.maxSnr));
        display.Push(SnrLine(row.value.minSnr, row.value.maxSnr));
      } else {
        assert x + SnrLines(line) == x;
      }
    } else if modAt.Some? && codAt.Some? {
      KeptFull(old0, x, SnrLines(line) + [Text(" ")], cap);
      assert x + (SnrLines(line) + [Text(" ")]) == PlpLine(line);
    } else {
      SnrAbsent(line);
      assert x + SnrLines(line) == x;
    }
    assert display.Shown() == Kept(old0, x + SnrLines(line), cap);
    KeptAdd(old0, x + SnrLines(line), cap, Text(" "));
    display.Add(Text(" "));
  }

  lemma PlpLinesStep(lines: seq<string>, k: nat)
    requires k < |lines|
    ensures PlpLines(lines[..k + 1]) == PlpLines(lines[..k]) + PlpLine(lines[k])
  {
    assert lines[..k + 1][..k] == lines[..k];
  }

  /** The strtok loop: every line of the plpinfo text, while the display
      has room */
  method AddPlpLines(display: Display, lines: seq<string>)
    requires display.Valid()
    modifies display, display.slots
    ensures display.Valid()
    ensures display.Shown() == Kept(old(display.Shown()), PlpLines(lines), display.slots.Length)
  {
    hide PlpLine;
    ghost var cap := display.slots.Length;
    ghost var start := display.Shown();
    assert Kept(start, [], cap) == start;
    assert lines[..0] == [];
    var k := 0;
    while k < |lines| && display.count < display.slots.Length
      invariant k <= |lines|
      invariant display.Valid() && display.slots.Length == cap
      invariant display.Shown() == Kept(start, PlpLines(lines[..k]), cap)
    {
      var line := lines[k];
      PlpLinesStep(lines, k);
      if !StartsWith(line, "bsid=") {
        AddPlpLine(display, line);
        KeptThen(start, PlpLines(lines[..k]), PlpLine(line), cap);
      } else {
        BsidLineDropped(line);
        assert PlpLines(lines[..k]) + PlpLine(line) == PlpLines(lines[..k]);
      }
      k := k + 1;
    }
    if k < |lines| {
      PlpLinesSplit(lines, k);
      KeptFull(start, PlpLines(lines[..k]), PlpLines(lines[k..]), cap);
    } else {
      assert lines[..k] == lines;
    }
  }

  lemma BsidLineDropped(line: string)
    requires StartsWith(line, "bsid=")
    ensures PlpLine(line) == []
  {
  }

  lemma PlpLinesSplit(lines: seq<string>, k: nat)
    requires k <= |lines|
    ensures PlpLines(lines) == PlpLines(lines[..k]) + PlpLines(lines[k..])
  {
    hide PlpLine, PlpLines;
    assert lines == lines[..k] + lines[k..];
    PlpLinesAppend(lines[..k], lines[k..]);
  }

  lemma HeaderLines(plpinfo: Option<string>, streaminfo: Option<string>, bsid: int, tsid: int)
    requires bsid == Bsid(plpinfo) && tsid == Tsid(streaminfo)
    ensures Header(plpinfo, streaminfo)
         == [Text(" ")] + [IdLine("L1D BSID", IdOf(bsid))] + [IdLine("SLT TSID", IdOf(tsid))] + [Text(" ")]
  {
  }

  lemma DetailLinesSplit(plpinfo: Option<string>, streaminfo: Option<string>)
    ensures plpinfo.Some? ==> DetailLines(plpinfo, streaminfo) == Header(plpinfo, streaminfo) + PlpLines(Tokens(plpinfo.value))
    ensures plpinfo.None? ==> DetailLines(plpinfo, streaminfo) == Header(plpinfo, streaminfo)
  {
  }

  /** The id block on a fresh display: a blank line, the BSID and TSID
      lines (stored without a check of the count) and a blank line */
  method AddIds(display: Display, bsid: int, tsid: int)
    requires display.Valid() && display.count == 0 && display.slots.Length >= 4
    modifies display, display.slots
    ensures display.Valid()
    ensures display.Shown()
         == [Text(" ")] + [IdLine("L1D BSID", IdOf(bsid))] + [IdLine("SLT TSID", IdOf(tsid))] + [Text(" ")]
  {
    display.Add(Text(" "));
    assert display.Shown() == [Text(" ")];
    if bsid != NotFound {
      display.Push(IdLine("L1D BSID", Some(bsid)));
    } else {
      display.Push(IdLine("L1D BSID", None));
    }
    assert display.Shown() == [Text(" ")] + [IdLine("L1D BSID", IdOf(bsid))];
    if tsid != NotFound {
      display.Push(IdLine("SLT TSID", Some(tsid)));
    } else {
      display.Push(IdLine("SLT TSID", None));
    }
    assert display.Shown() == [Text(" ")] + [IdLine("L1D BSID", IdOf(bsid))] + [IdLine("SLT TSID", IdOf(tsid))];
    display.Add(Text(" "));
  }

  /** show_plp_details_screen up to the L1 block: builds its display list
      from the plpinfo and streaminfo texts (None where the fetch failed) */
  method AssemblePlpDetails(plpinfo: Option<string>, streaminfo: Option<string>) returns (display: Display)
    ensures fresh(display) && fresh(display.slots) && display.Valid()
    ensures display.slots.Length == MaxDisplayLines
    ensures display.Shown() == Kept([], DetailLines(plpinfo, streaminfo), MaxDisplayLines)
  {
    hide PlpLines, ParseStatusValue, Tokens, Header, DetailLines;
    display := new Display(MaxDisplayLines);
    var bsid := NotFound;
    var tsid := NotFound;
    if plpinfo.Some? {
      bsid := ParseStatusValue(plpinfo.value, "bsid=");
    }
    if streaminfo.Some? {
      tsid := ParseStatusValue(streaminfo.value, "tsid=");
    }
    AddIds(display, bsid, tsid);
    ghost var head := Header(plpinfo, streaminfo);
    HeaderLines(plpinfo, streaminfo, bsid, tsid);
    assert Kept([], head, MaxDisplayLines) == head;
    DetailLinesSplit(plpinfo, streaminfo);
    if plpinfo.Some? {
      var lines := Tokens(plpinfo.value);
      AddPlpLines(display, lines);
      KeptThen([], head, PlpLines(lines), MaxDisplayLines);
    } else {
      assert head + [] == head;
    }
  }

  /** The separator offered before the L1-detail block: three lines, only
      while more than three slots are free */
  function Separator(count: nat, cap: nat): (r: seq<Line>)
    ensures count <= cap ==> count + |r| <= cap
    ensures r != [] <==> count + 3 < cap
  {
    if count < cap - 3 then [Text(" "), Text("__HLINE__"), Text(" ")] else []
  }

  /** The bytes parse_l1_data is given: the buffer after b64_decode, when
      the buffer was obtained and the text was accepted */
  function DecodedDetail(l1detail: string, gotBuffer: bool, garbage: seq<byte>): (r: Option<seq<byte>>)
    requires |l1detail| < SizeModulus
    ensures r.Some? <==> gotBuffer && Accepts(l1detail, DecodedSize(l1detail))
  {
    if gotBuffer && Accepts(l1detail, DecodedSize(l1detail)) then Some(Overlay(garbage, l1detail)) else None
  }

  /** The L1-detail block (hdhomerun_tui.c 2503-2515), once the text of
      /tunerN/l1detail has been fetched: the separator, then, when the
      buffer of b64_decoded_size bytes could be allocated (gotBuffer, with
      its initial contents garbage) and the text decodes into it, the lines
      of parse_l1_data over the decoded bytes */
  method AppendL1Detail(display: Display, reader: BitReader, l1detail: string, gotBuffer: bool, garbage: seq<byte>)
    requires display.Valid() && reader.bits.Length == BufferBits
    requires |l1detail| < SizeModulus && |garbage| == DecodedSize(l1detail)
    modifies display, display.slots, reader, reader.bits
    ensures display.Valid() && reader.bits.Length == BufferBits
    ensures var before := old(display.Shown()) + Separator(old(display.count), display.slots.Length);
      |before| <= display.slots.Length
      && match DecodedDetail(l1detail, gotBuffer, garbage)
        case Some(data) =>
          reader.bits[..] == Fill(old(reader.bits[..]), data)
          && reader.index == S.Parse(reader.bits[..]).pos
          && display.Shown() == Kept(before, S.Parse(reader.bits[..]).out, display.slots.Length)
        case None =>
          display.Shown() == before
          && reader.bits[..] == old(reader.bits[..]) && reader.index == old(reader.index)
  {
    hide S.Parse, Fill, Overlay, Kept;
    ghost var before := display.Shown() + Separator(display.count, display.slots.Length);
    ghost var oldBits := reader.bits[..];
    if display.count < display.slots.Length - 3 {
      display.Push(Text(" "));
      display.Push(Text("__HLINE__"));
      display.Push(Text(" "));
    }
    assert display.Shown() == before;
    var size := DecodedSizeOf(l1detail);
    if gotBuffer {
      var buffer := new byte[size](k requires 0 <= k < size => garbage[k]);
      assert buffer[..] == garbage;
      var ok := Decode(l1detail, buffer);
      if ok {
        assert buffer[..] == DecodedDetail(l1detail, gotBuffer, garbage).value;
        L1Parser.ParseL1Data(reader, display, buffer[..]);
      }
    }
  }

  // Properties of the assembled lines

  /** The lines with the SNR annotations taken out */
  function WithoutSnr(xs: seq<Line>): seq<Line>
  {
    if xs == [] then []
    else WithoutSnr(xs[..|xs| - 1]) + (if xs[|xs| - 1].SnrLine? then [] else [xs[|xs| - 1]])
  }

  /** The plpinfo lines the screen lists: all but those starting "bsid=" */
  function Listed(lines: seq<string>): seq<string>
  {
    if lines == [] then []
    else Listed(lines[..|lines| - 1]) + (if StartsWith(lines[|lines| - 1], "bsid=") then [] else [lines[|lines| - 1]])
  }

  /** Each line followed by a blank line */
  function Spaced(lines: seq<string>): seq<Line>
  {
    if lines == [] then [] else Spaced(lines[..|lines| - 1]) + [Text(lines[|lines| - 1]), Text(" ")]
  }

  lemma {:induction false} WithoutSnrAppend(a: seq<Line>, b: seq<Line>)
    ensures WithoutSnr(a + b) == WithoutSnr(a) + WithoutSnr(b)
    decreases |b|
  {
    if b == [] {
      assert a + b == a;
    } else {
      var b' := b[..|b| - 1];
      assert (a + b)[..|a + b| - 1] == a + b';
      WithoutSnrAppend(a, b');
    }
  }

  lemma SpacedSnoc(lines: seq<string>, line: string)
    ensures Spaced(lines + [line]) == Spaced(lines) + [Text(line), Text(" ")]
  {
    assert (lines + [line])[..|lines|] == lines;
  }

  lemma WithoutSnrOfPlpLine(line: string)
    ensures WithoutSnr(PlpLine(line)) == if StartsWith(line, "bsid=") then [] else [Text(line), Text(" ")]
  {
    if !StartsWith(line, "bsid=") {
      var snr := SnrLines(line);
      assert WithoutSnr(snr) == [] by {
        if snr != [] {
          assert snr[..0] == [];
        }
      }
      WithoutSnrAppend([Text(line)], snr);
      WithoutSnrAppend([Text(line)] + snr, [Text(" ")]);
      assert WithoutSnr([Text(line)]) == [Text(line)] by {
        assert [Text(line)][..0] == [];
      }
      assert WithoutSnr([Text(" ")]) == [Text(" ")] by {
        assert [Text(" ")][..0] == [];
      }
    }
  }

  /** With the SNR annotations taken out, the PLP section is every listed
      plpinfo line, in order, each followed by a blank line */
  lemma {:induction false} PlpLinesLayout(lines: seq<string>)
    ensures WithoutSnr(PlpLines(lines)) == Spaced(Listed(lines))
    decreases |lines|
  {
    hide PlpLine, SnrLines;
    if lines != [] {
      var init := lines[..|lines| - 1];
      var line := lines[|lines| - 1];
      PlpLinesLayout(init);
      WithoutSnrAppend(PlpLines(init), PlpLine(line));
      WithoutSnrOfPlpLine(line);
      if !StartsWith(line, "bsid=") {
        assert Listed(lines) == Listed(init) + [line];
        SpacedSnoc(Listed(init), line);
        assert PlpLines(lines) == PlpLines(init) + PlpLine(line);
      } else {
        assert Listed(lines) == Listed(init) + [] == Listed(init);
        assert PlpLines(lines) == PlpLines(init) + PlpLine(line);
        assert WithoutSnr(PlpLines(init)) + WithoutSnr(PlpLine(line)) == Spaced(Listed(init));
      }
    }
  }

  /** Every SNR annotation comes right after the PLP line it annotates */
  predicate Annotated(xs: seq<Line>)
  {
    forall k :: 0 <= k < |xs| && xs[k].SnrLine? ==>
      0 < k && xs[k - 1].Text? && SnrLines(xs[k - 1].text) == [xs[k]]
  }

  lemma AnnotatedAppend(a: seq<Line>, b: seq<Line>)
    requires Annotated(a) && Annotated(b) && (b != [] ==> !b[0].SnrLine?)
    ensures Annotated(a + b)
  {
    forall k | 0 <= k < |a + b| && (a + b)[k].SnrLine?
      ensures 0 < k && (a + b)[k - 1].Text? && SnrLines((a + b)[k - 1].text) == [(a + b)[k]]
    {
      if k < |a| {
        assert a[k].SnrLine?;
      } else {
        assert b[k - |a|].SnrLine?;
        assert (a + b)[k - 1] == b[k - |a| - 1];
      }
    }
  }

  /** An annotation is at most one SNR line */
  lemma SnrLinesShape(line: string)
    ensures SnrLines(line) == [] || (|SnrLines(line)| == 1 && SnrLines(line)[0].SnrLine?)
  {
  }

  lemma PlpLineAnnotated(line: string)
    ensures Annotated(PlpLine(line))
    ensures PlpLine(line) != [] ==> !PlpLine(line)[0].SnrLine?
  {
    hide SnrLines;
    if !StartsWith(line, "bsid=") {
      var snr := SnrLines(line);
      SnrLinesShape(line);
      if snr == [] {
        assert PlpLine(line) == [Text(line), Text(" ")];
      } else {
        assert PlpLine(line) == [Text(line), snr[0], Text(" ")];
      }
    }
  }

  lemma {:induction false} PlpLinesAnnotated(lines: seq<string>)
    ensures Annotated(PlpLines(lines))
    decreases |lines|
  {
    if lines != [] {
      var init := lines[..|lines| - 1];
      PlpLinesAnnotated(init);
      PlpLineAnnotated(lines[|lines| - 1]);
      AnnotatedAppend(PlpLines(init), PlpLine(lines[|lines| - 1]));
    }
  }

  /** A line is annotated exactly when it has mod= and cod= tokens that,
      cut to their buffers and the modulation normalised, name a row of the
      table */
  lemma SnrLinesPresent(line: string)
    ensures SnrLines(line) != [] <==>
      ValueAfter(line, "mod=").Some? && ValueAfter(line, "cod=").Some?
      && ModKey(ValueAfter(line, "mod=").value) in L1Fields.ModulationNames
      && CodKey(ValueAfter(line, "cod=").value) in L1Fields.CodeRateNames
  {
    var m := ValueAfter(line, "mod=");
    var c := ValueAfter(line, "cod=");
    if m.Some? && c.Some? {
      LookupFound(ModKey(m.value), CodKey(c.value));
    }
  }

  /** The annotation is the table's SNR range for that modulation and rate */
  lemma SnrLinesValues(line: string, m: nat, c: nat)
    requires m < 6 && c < 12
    requires ValueAfter(line, "mod=").Some? && ModKey(ValueAfter(line, "mod=").value) == L1Fields.ModulationNames[m]
    requires ValueAfter(line, "cod=").Some? && CodKey(ValueAfter(line, "cod=").value) == L1Fields.CodeRateNames[c]
    ensures SnrLines(line) == [SnrLine(MinSnr[m][c], MaxSnr[m][c])]
  {
    LookupNames(m, c);
    assert (12 * m + c) / 12 == m && (12 * m + c) % 12 == c;
  }

  /** A plpinfo text whose first "bsid=" is followed by the decimal n shows
      "L1D BSID: n" unless n is the sentinel; one without "bsid=" (or none
      at all) shows "Not set" */
  lemma BsidShown(streaminfo: Option<string>, pre: string, n: int, rest: string)
    requires KeyFirstAfter(pre, "bsid=")
    requires LongMin <= n <= LongMax && n != NotFound && EndsNumber(rest)
    ensures Header(Some(pre + "bsid=" + Show(n) + rest), streaminfo)[1] == IdLine("L1D BSID", Some(n))
  {
    StatusValueRoundTrip(pre, "bsid=", n, rest);
  }

  lemma BsidNotSet(plpinfo: Option<string>, streaminfo: Option<string>)
    requires plpinfo.Some? ==> forall i :: !OccursAt(plpinfo.value, "bsid=", i)
    ensures Header(plpinfo, streaminfo)[1] == IdLine("L1D BSID", None)
  {
  }

  /** A streaminfo whose first "tsid=" follows pre and holds decimal n
      shows "SLT TSID: n" */
  lemma TsidShown(plpinfo: Option<string>, pre: string, n: int, rest: string)
    requires KeyFirstAfter(pre, "tsid=")
    requires LongMin <= n <= LongMax && n != NotFound && EndsNumber(rest)
    ensures Header(plpinfo, Some(pre + "tsid=" + Show(n) + rest))[2] == IdLine("SLT TSID", Some(n))
  {
    StatusValueRoundTrip(pre, "tsid=", n, rest);
  }

  /** A streaminfo without "tsid=", or none at all, shows "SLT TSID: Not set" */
  lemma TsidNotSet(plpinfo: Option<string>, streaminfo: Option<string>)
    requires streaminfo.Some? ==> forall i :: !OccursAt(streaminfo.value, "tsid=", i)
    ensures Header(plpinfo, streaminfo)[2] == IdLine("SLT TSID", None)
  {
  }
}
