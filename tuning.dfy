/** Two small rules of the main loop: stepping to the previous or next
    channel with the arrow keys, and turning the PLP list typed by the user
    ("0,1") into the form the tuner expects ("0+1"). */
module Tuning {
  import opened Text

  /** unsigned int */
  const UintModulus: nat := 0x1_0000_0000
  type Channel = n: nat | n < UintModulus

  /** The lowest and highest channel stepped through without a list */
  const LowChannel: Channel := 2
  const HighChannel: Channel := 69

  datatype Key = Left | Right

  /** The index the scan over the list leaves in idx: the last index
      holding c (the loop has no break) */
  function LastIndex(channels: seq<Channel>, c: Channel): (r: Option<nat>)
    ensures r.Some? ==> r.value < |channels| && channels[r.value] == c
    ensures r.Some? ==> forall k :: r.value < k < |channels| ==> channels[k] != c
    ensures r.None? <==> c !in channels
  {
    if channels == [] then None
    else if channels[|channels| - 1] == c then Some(|channels| - 1)
    else LastIndex(channels[..|channels| - 1], c)
  }

  /** The channel KEY_LEFT / KEY_RIGHT tunes to from current: the
      neighbour in the scanned list, wrapping round at either end, or the
      list's first (Right) or last (Left) channel when current is not in
      it; without a list, the next or previous number, wrapping between 69
      and 2 and starting from 2 (Right) or 69 (Left) when current is 0 */
  function NextChannel(channels: seq<Channel>, current: Channel, key: Key): Channel
  {
    var n := |channels|;
    if n > 0 then
      match LastIndex(channels, current)
      case Some(i) => if key == Right then channels[(i + 1) % n] else channels[(i - 1 + n) % n]
      case None => if key == Right then channels[0] else channels[n - 1]
    else if current > 0 then
      if key == Right then (if current == HighChannel then LowChannel else (current + 1) % UintModulus)
      else (if current == LowChannel then HighChannel else current - 1)
    else if key == Right then LowChannel else HighChannel
  }

  /** The channel-step rule of main_loop, with its scan of the list */
  method StepChannel(channels: seq<Channel>, current: Channel, key: Key) returns (next: Channel)
    ensures next == NextChannel(channels, current, key)
  {
    var n := |channels|;
    if n > 0 {
      var idx := -1;
      var i := 0;
      while i < n
        invariant 0 <= i <= n
        invariant idx == match LastIndex(channels[..i], current) case Some(k) => k case None => -1
      {
        assert channels[..i + 1][..i] == channels[..i];
        if channels[i] == current {
          idx := i;
        }
        i := i + 1;
      }
      assert channels[..n] == channels;
      if idx != -1 {
        if key == Right {
          idx := (idx + 1) % n;
        } else {
          idx := (idx - 1 + n) % n;
        }
        next := channels[idx];
      } else {
        if key == Right {
          next := channels[0];
        } else {
          next := channels[n - 1];
        }
      }
    } else {
      if current > 0 {
        if key == Right {
          next := if current == HighChannel then LowChannel else (current + 1) % UintModulus;
        } else {
          next := if current == LowChannel then HighChannel else current - 1;
        }
      } else {
        if key == Right {
          next := LowChannel;
        } else {
          next := HighChannel;
        }
      }
    }
  }

  /** With a list, the step always lands on a channel of the list */
  lemma StepStaysInList(channels: seq<Channel>, current: Channel, key: Key)
    requires channels != []
    ensures NextChannel(channels, current, key) in channels
  {
    var n := |channels|;
    match LastIndex(channels, current)
    case Some(i) =>
      assert 0 <= (i + 1) % n < n && 0 <= (i - 1 + n) % n < n;
    case None =>
  }

  /** Without a list, a channel in 2..69 (or none yet, 0) steps to a
      channel in 2..69 */
  lemma StepStaysInBand(current: Channel, key: Key)
    requires current == 0 || LowChannel <= current <= HighChannel
    ensures LowChannel <= NextChannel([], current, key) <= HighChannel
  {
  }

  predicate Distinct(channels: seq<Channel>)
  {
    forall i, j :: 0 <= i < j < |channels| ==> channels[i] != channels[j]
  }

  lemma ModBelow(x: int, n: int)
    requires 0 <= x < n
    ensures x % n == x
  {
  }

  lemma ModOnce(x: int, n: int)
    requires 0 < n <= x < 2 * n
    ensures x % n == x - n
  {
    ModBelow(x - n, n);
    assert x == (x - n) + n;
  }

  lemma WrapBack(i: nat, n: nat)
    requires i < n
    ensures ((i + 1) % n - 1 + n) % n == i
    ensures ((i - 1 + n) % n + 1) % n == i
  {
    if i + 1 == n {
      ModOnce(i + 1, n);
      ModBelow(n - 1, n);
    } else {
      ModBelow(i + 1, n);
      ModOnce(i + n, n);
    }
    if i == 0 {
      ModBelow(n - 1, n);
      ModOnce(n, n);
    } else {
      ModOnce(i - 1 + n, n);
      ModBelow(i, n);
    }
  }

  /** In a list without repeats, Left undoes Right and Right undoes Left */
  lemma StepRoundTrip(channels: seq<Channel>, c: Channel)
    requires Distinct(channels) && c in channels
    ensures NextChannel(channels, NextChannel(channels, c, Right), Left) == c
    ensures NextChannel(channels, NextChannel(channels, c, Left), Right) == c
  {
    hide Distinct;
    var n := |channels|;
    var i := LastIndex(channels, c).value;
    WrapBack(i, n);
    var r := (i + 1) % n;
    var l := (i - 1 + n) % n;
    assert NextChannel(channels, c, Right) == channels[r];
    assert NextChannel(channels, c, Left) == channels[l];
    FoundAtOwnIndex(channels, r);
    FoundAtOwnIndex(channels, l);
    assert NextChannel(channels, channels[r], Left) == channels[(r - 1 + n) % n];
    assert NextChannel(channels, channels[l], Right) == channels[(l + 1) % n];
  }

  /** In a list without repeats each channel is found at its own place */
  lemma FoundAtOwnIndex(channels: seq<Channel>, k: nat)
    requires Distinct(channels) && k < |channels|
    ensures LastIndex(channels, channels[k]) == Some(k)
  {
    var j := LastIndex(channels, channels[k]).value;
    assert !(k < j) && !(j < k);
  }

  /** Without a list, Left undoes Right and Right undoes Left across 2..69 */
  lemma StepRoundTripInBand(c: Channel)
    requires LowChannel <= c <= HighChannel
    ensures NextChannel([], NextChannel([], c, Right), Left) == c
    ensures NextChannel([], NextChannel([], c, Left), Right) == c
  {
  }

  /** A channel listed twice is found at its last place: stepping right
      from the last entry wraps to the first */
  lemma RepeatedChannelExample()
    ensures NextChannel([5, 7, 5], 5, Right) == 5
    ensures NextChannel([5, 7, 5], 5, Left) == 7
  {
    assert LastIndex([5, 7, 5], 5) == Some(2);
  }

  /** The PLP list handed to the tuner: each ',' becomes '+', digits are
      kept, every other character is dropped */
  function PlpList(s: string): string
  {
    if s == [] then []
    else
      var c := s[|s| - 1];
      PlpList(s[..|s| - 1]) + (if c == ',' then "+" else if IsDigit(c) then [c] else [])
  }

  /** The 'p' handler's rewrite loop over a typed list (wgetnstr reads at
      most 19 characters into plp_str_in) into the 40-byte plp_str_out */
  method RewritePlpList(input: string) returns (output: string)
    requires 0 < |input| < 20
    ensures output == PlpList(input)
  {
    var buffer := new char[40](_ => '\0');
    var j := 0;
    var i := 0;
    while i < |input|
      invariant 0 <= i <= |input| && j <= i
      invariant buffer[..j] == PlpList(input[..i])
    {
      assert input[..i + 1][..i] == input[..i];
      if input[i] == ',' {
        buffer[j] := '+';
        j := j + 1;
      } else if IsDigit(input[i]) {
        buffer[j] := input[i];
        j := j + 1;
      }
      i := i + 1;
    }
    assert input[..i] == input;
    output := buffer[..j];
  }

  function Commas(s: string): nat
  {
    if s == [] then 0 else Commas(s[..|s| - 1]) + (if s[|s| - 1] == ',' then 1 else 0)
  }

  /** The rewritten list has one character per comma and per digit of the
      typed list, and holds only digits and '+' */
  lemma {:induction false} PlpListShape(s: string)
    ensures |PlpList(s)| == Commas(s) + |Digits(s)|
    ensures forall k :: 0 <= k < |PlpList(s)| ==> IsDigit(PlpList(s)[k]) || PlpList(s)[k] == '+'
    decreases |s|
  {
    if s != [] {
      PlpListShape(s[..|s| - 1]);
    }
  }

  /** A list typed with digits and commas only is kept character for
      character, each comma turned into '+' */
  lemma {:induction false} PlpListOfPlainList(s: string)
    requires forall k :: 0 <= k < |s| ==> IsDigit(s[k]) || s[k] == ','
    ensures |PlpList(s)| == |s|
    ensures forall k :: 0 <= k < |s| ==> PlpList(s)[k] == if s[k] == ',' then '+' else s[k]
    decreases |s|
  {
    if s != [] {
      PlpListOfPlainList(s[..|s| - 1]);
    }
  }

  lemma PlpListExample()
    ensures PlpList("0, 1") == "0+1"
  {
    var s1 := ['0'];
    var s2 := s1 + [','];
    var s3 := s2 + [' '];
    var s4 := s3 + ['1'];
    assert s1[..0] == [] && s2[..1] == s1 && s3[..2] == s2 && s4[..3] == s3;
    assert IsDigit('0') && IsDigit('1') && !IsDigit(' ');
    assert PlpList(s1) == ['0'];
    assert PlpList(s2) == ['0', '+'];
    assert PlpList(s3) == ['0', '+'];
    assert s4 == "0, 1";
  }

}
