/** The status mini-parsers: numeric fields pulled out of the tuner's
    free-form "key=value" diagnostic text by substring search. Both return
    the sentinel -999 when the field cannot be found. */
module Status {
  import opened Text
  import opened CNumber

  const NotFound: int := -999

  /** parse_status_value: the number right after the first occurrence of key,
      read by strtol with base detection; NotFound when key does not occur */
  function ParseStatusValue(status: string, key: string): (r: int)
    ensures (forall i :: !OccursAt(status, key, i)) ==> r == NotFound
    ensures LongMin <= r <= LongMax
  {
    match Find(status, key)
    case None => NotFound
    case Some(i) => StrToL(status[i + |key|..], 0)
  }

  /** parse_db_value: the decimal number right after the first '(' found at or
      after the first occurrence of key ("ss=100(-35dBm)" gives -35);
      NotFound when key does not occur or no '(' follows it */
  function ParseDbValue(status: string, key: string): (r: int)
    ensures (forall i :: !OccursAt(status, key, i)) ==> r == NotFound
    ensures (exists i :: Find(status, key) == Some(i) && '(' !in status[i..]) ==> r == NotFound
    ensures LongMin <= r <= LongMax
  {
    match Find(status, key)
    case None => NotFound
    case Some(i) =>
      match FindChar(status[i..], '(')
      case None => NotFound
      case Some(k) => StrToL(status[i + k + 1..], 10)
  }

  /** key occurs in pre + key first at its end: the text before the field
      does not already contain the key */
  predicate KeyFirstAfter(pre: string, key: string)
  {
    forall i :: 0 <= i < |pre| ==> !OccursAt(pre + key, key, i)
  }

  /** strstr finds a key that does not occur earlier right after pre */
  lemma FoundAfter(pre: string, key: string, rest: string)
    requires KeyFirstAfter(pre, key)
    ensures Find(pre + key + rest, key) == Some(|pre|)
    ensures (pre + key + rest)[|pre| + |key|..] == rest
  {
    var s := pre + key + rest;
    assert s[|pre|..|pre| + |key|] == key;
    assert OccursAt(s, key, |pre|);
    forall i | 0 <= i < |pre|
      ensures !OccursAt(s, key, i)
    {
      assert !OccursAt(pre + key, key, i);
      assert s[i..i + |key|] == (pre + key)[i..i + |key|];
    }
  }

  /** With the first occurrence of key at i, the value is strtol with base
      detection of what follows the key */
  lemma StatusValueAt(s: string, key: string, i: nat)
    requires Find(s, key) == Some(i)
    ensures ParseStatusValue(s, key) == StrToL(s[i + |key|..], 0)
  {
  }

  /** A field written as key=<n> followed by a separator reads back as n,
      wherever in the text the field stands */
  lemma StatusValueRoundTrip(pre: string, key: string, n: int, rest: string)
    requires KeyFirstAfter(pre, key)
    requires LongMin <= n <= LongMax
    requires EndsNumber(rest)
    ensures ParseStatusValue(pre + key + Show(n) + rest, key) == n
  {
    var t := Show(n) + rest;
    assert pre + key + Show(n) + rest == pre + key + t;
    FoundAfter(pre, key, t);
    AutoBaseRoundTrip(n, rest);
    StatusValueAt(pre + key + t, key, |pre|);
  }

  /** A field written in hex, key=0x<h>, reads as the value of the hex digits */
  lemma StatusHexValue(pre: string, key: string, h: string, rest: string)
    requires KeyFirstAfter(pre, key)
    requires AllDigits(h, 16) && EndsBase(rest, 16) && DigitsValue(h, 16) <= LongMax
    ensures ParseStatusValue(pre + key + "0x" + h + rest, key) == DigitsValue(h, 16)
  {
    var t := "0x" + h + rest;
    assert pre + key + "0x" + h + rest == pre + key + t;
    FoundAfter(pre, key, t);
    HexRead(h, rest);
    StatusValueAt(pre + key + t, key, |pre|);
  }

  /** A field written with a leading 0, key=0<h>, reads in octal */
  lemma StatusOctalValue(pre: string, key: string, h: string, rest: string)
    requires KeyFirstAfter(pre, key)
    requires h != [] && AllDigits(h, 8) && EndsBase(rest, 8) && DigitsValue(h, 8) <= LongMax
    ensures ParseStatusValue(pre + key + "0" + h + rest, key) == DigitsValue(h, 8)
  {
    var t := "0" + h + rest;
    assert pre + key + "0" + h + rest == pre + key + t;
    FoundAfter(pre, key, t);
    OctalRead(h, rest);
    StatusValueAt(pre + key + t, key, |pre|);
  }

  /** A key followed by no number (no digit, sign or space) reads as 0, not
      as NotFound */
  lemma StatusNoDigits(pre: string, key: string, rest: string)
    requires KeyFirstAfter(pre, key)
    requires rest == [] || (!IsDigit(rest[0]) && !IsSpace(rest[0]) && rest[0] != '-' && rest[0] != '+')
    ensures ParseStatusValue(pre + key + rest, key) == 0
  {
    FoundAfter(pre, key, rest);
    NoDigitsRead(rest);
    StatusValueAt(pre + key + rest, key, |pre|);
  }

  /** A field written as key<text>(<n><unit> reads back as n, whatever the
      text between the key and the parenthesis and wherever the field stands */
  lemma DbValueRoundTrip(pre: string, key: string, text: string, n: int, unit: string)
    requires KeyFirstAfter(pre, key)
    requires LongMin <= n <= LongMax
    requires '(' !in key && '(' !in text
    requires EndsDecimal(unit)
    ensures ParseDbValue(pre + key + text + "(" + Show(n) + unit, key) == n
  {
    hide ParseDbValue, StrToL, Find, FindChar, Show;
    var head := key + text;
    var t := Show(n) + unit;
    var s := pre + head + ("(" + t);
    assert pre + key + text + "(" + Show(n) + unit == s;
    assert s == pre + key + (text + "(" + t);
    FoundAfter(pre, key, text + "(" + t);
    assert s[|pre|..] == head + ("(" + t);
    FirstCharAfter(head, "(" + t, '(');
    DbValueAt(s, key, |pre|, |head|);
    assert s[|pre|..][|head| + 1..] == t;
    assert s[|pre| + |head| + 1..] == t;
    DecimalRoundTrip(n, unit);
  }

  /** With the first occurrence of key at i and the first '(' from there at
      i + k, the value is the decimal strtol after the parenthesis */
  lemma DbValueAt(s: string, key: string, i: nat, k: nat)
    requires Find(s, key) == Some(i)
    requires FindChar(s[i..], '(') == Some(k)
    ensures ParseDbValue(s, key) == StrToL(s[i + k + 1..], 10)
  {
  }

  lemma FirstCharAfter(head: string, tail: string, c: char)
    requires c !in head && tail != [] && tail[0] == c
    ensures FindChar(head + tail, c) == Some(|head|)
    ensures (head + tail)[|head| + 1..] == tail[1..]
  {
    var s := head + tail;
    assert s[|head|] == c;
    assert forall j :: 0 <= j < |head| ==> s[j] == head[j] && s[j] != c;
    var r := FindChar(s, c);
    assert r.Some?;
    assert |head| <= r.value <= |head|;
  }

  /** The sentinel is ambiguous: a field whose value is -999 reads the same as
      a missing field, so NotFound does not imply that the key is absent */
  lemma SentinelCollision()
    ensures OccursAt("bsid=-999", "bsid=", 0)
    ensures ParseStatusValue("bsid=-999", "bsid=") == NotFound
  {
    StatusValueRoundTrip("", "bsid=", -999, "");
    assert "" + "bsid=" + Show(-999) + "" == "bsid=-999";
  }

  /** The key is matched anywhere, also inside a longer key: "se=" is found
      inside "base=" */
  lemma KeyMatchesInsideLongerKey()
    ensures ParseStatusValue("base=5 se=7", "se=") == 5
  {
    var s := "base=5 se=7";
    assert s[0] == 'b' && s[1] == 'a' && s[2] == 's';
    assert !OccursAt(s, "se=", 0) && !OccursAt(s, "se=", 1);
    assert OccursAt(s, "se=", 2);
    assert s[5..] == Show(5) + " se=7";
    AutoBaseRoundTrip(5, " se=7");
  }

  /** The dBm figure in a signal-strength field */
  lemma DbValueExample()
    ensures ParseDbValue("ss=100(-35dBm)", "ss=") == -35
  {
    DbValueRoundTrip("", "ss=", "100", -35, "dBm)");
    DbExampleText();
  }

  lemma DbExampleText()
    ensures "" + "ss=" + "100" + "(" + Show(-35) + "dBm)" == "ss=100(-35dBm)"
  {
    assert ShowNat(3) == "3" && DigitChar(5) == '5';
    assert Show(-35) == "-35";
    assert "ss=" + "100" == "ss=100";
    assert "ss=100" + "(" == "ss=100(";
    assert "ss=100(" + "-35" == "ss=100(-35";
    assert "ss=100(-35" + "dBm)" == "ss=100(-35dBm)";
  }

  /** key cannot occur in s when one of its characters is missing from s */
  lemma AbsentWhenCharMissing(s: string, key: string, j: nat)
    requires j < |key| && key[j] !in s
    ensures forall i :: !OccursAt(s, key, i)
  {
    forall i | 0 <= i && i + |key| <= |s| ensures !OccursAt(s, key, i) {
      assert s[i..i + |key|][j] != key[j];
    }
  }

  /** A key that is missing */
  lemma MissingKeyExample()
    ensures ParseStatusValue("foo=12 bar=34", "baz=") == NotFound
  {
    var s := "foo=12 bar=34";
    assert "baz="[2] == 'z' && 'z' !in s;
    AbsentWhenCharMissing(s, "baz=", 2);
  }

  /** A key followed by a decimal value */
  lemma StatusValueExample()
    ensures ParseStatusValue("bps=18234567 pps=12345", "bps=") == 18234567
  {
    StatusValueRoundTrip("", "bps=", 18234567, " pps=12345");
    StatusExampleText();
  }

  lemma ShowExampleHead()
    ensures ShowNat(1823) == "1823"
  {
    assert ShowNat(1) == "1" && ShowNat(18) == "18" && ShowNat(182) == "182";
  }

  lemma ShowExample()
    ensures Show(18234567) == "18234567"
  {
    ShowExampleHead();
    assert ShowNat(18234) == "18234";
    assert ShowNat(182345) == "182345";
    assert ShowNat(1823456) == "1823456";
  }

  lemma StatusExampleText()
    ensures "" + "bps=" + Show(18234567) + " pps=12345" == "bps=18234567 pps=12345"
  {
    ShowExample();
    assert "bps=" + "18234567" == "bps=18234567";
    assert "bps=18234567" + " pps=12345" == "bps=18234567 pps=12345";
  }

  /** A key whose first character is not in pre does not occur before it */
  lemma KeyFirstAfterWhenHeadMissing(pre: string, key: string)
    requires key != [] && key[0] !in pre
    ensures KeyFirstAfter(pre, key)
  {
    forall i | 0 <= i < |pre|
      ensures !OccursAt(pre + key, key, i)
    {
      assert (pre + key)[i] == pre[i];
    }
  }

  /** A hex field after other fields: "bsid=0x1a" gives 26 */
  lemma StatusHexExample()
    ensures ParseStatusValue("plp=0 bsid=0x1a", "bsid=") == 26
  {
    var pre := "plp=0 ";
    assert "bsid="[0] == 'b' && 'b' !in pre;
    KeyFirstAfterWhenHeadMissing(pre, "bsid=");
    assert DigitsValue("1a", 16) == 26 by {
      assert "1a"[1..] == "a" && "a"[1..] == [];
    }
    StatusHexValue(pre, "bsid=", "1a", "");
    assert pre + "bsid=" + "0x" + "1a" + "" == "plp=0 bsid=0x1a";
  }

  /** A leading 0 makes the field octal: "te=017" gives 15 */
  lemma StatusOctalExample()
    ensures ParseStatusValue("te=017 ", "te=") == 15
  {
    assert DigitsValue("17", 8) == 15 by {
      assert "17"[1..] == "7" && "7"[1..] == [];
    }
    assert KeyFirstAfter("", "te=");
    StatusOctalValue("", "te=", "17", " ");
    assert "" + "te=" + "0" + "17" + " " == "te=017 ";
  }

  /** A key followed by a word reads as 0 */
  lemma StatusNoDigitsExample()
    ensures ParseStatusValue("lock=none", "lock=") == 0
  {
    assert KeyFirstAfter("", "lock=");
    StatusNoDigits("", "lock=", "none");
    assert "" + "lock=" + "none" == "lock=none";
  }

  lemma DbLaterText()
    ensures "ch=8 " + "ss=" + "100" + "(" + Show(-35) + "dBm)" == "ch=8 ss=100(-35dBm)"
  {
    DbExampleText();
    assert "ch=8 " + "ss=" + "100" + "(" + Show(-35) + "dBm)"
        == "ch=8 " + ("" + "ss=" + "100" + "(" + Show(-35) + "dBm)");
  }

  /** A signal-strength field after the channel field */
  lemma DbValueLaterExample()
    ensures ParseDbValue("ch=8 ss=100(-35dBm)", "ss=") == -35
  {
    DbLaterText();
    assert "ss="[0] == 's' && 's' !in "ch=8 ";
    KeyFirstAfterWhenHeadMissing("ch=8 ", "ss=");
    hide ParseDbValue, Show;
    DbValueRoundTrip("ch=8 ", "ss=", "100", -35, "dBm)");
  }
}
