/** Character and string helpers shared by the model: the C library
    routines the tool relies on (isdigit, toupper, strstr, strtok on "\n",
    printf's %ld), stated directly on Dafny strings. A C string is modelled
    by its characters without the terminating NUL. */
module Text {

  datatype Option<T> = None | Some(value: T)

  /** isdigit() in the C locale */
  predicate IsDigit(c: char) { '0' <= c <= '9' }

  function Min(a: int, b: int): int { if a < b then a else b }

  /** The digits of s, in order */
  function Digits(s: string): string
  {
    if s == [] then []
    else Digits(s[..|s| - 1]) + (if IsDigit(s[|s| - 1]) then [s[|s| - 1]] else [])
  }

  /** toupper() in the C locale */
  function Upper(c: char): char
  {
    if 'a' <= c <= 'z' then (c as int - 32) as char else c
  }

  /** key occurs in s starting at index i */
  predicate OccursAt(s: string, key: string, i: int)
  {
    0 <= i && i + |key| <= |s| && s[i..i + |key|] == key
  }

  /** strstr(s, key): the index of the first occurrence of key in s */
  function Find(s: string, key: string): (r: Option<nat>)
    ensures r.Some? ==> OccursAt(s, key, r.value)
    ensures r.Some? ==> forall i :: 0 <= i < r.value ==> !OccursAt(s, key, i)
    ensures r.None? ==> forall i :: !OccursAt(s, key, i)
  {
    FindFrom(s, key, 0)
  }

  function FindFrom(s: string, key: string, start: nat): (r: Option<nat>)
    requires start <= |s| + 1
    requires forall i :: 0 <= i < start ==> !OccursAt(s, key, i)
    ensures r.Some? ==> start <= r.value && OccursAt(s, key, r.value)
    ensures r.Some? ==> forall i :: 0 <= i < r.value ==> !OccursAt(s, key, i)
    ensures r.None? ==> forall i :: !OccursAt(s, key, i)
    decreases |s| + 1 - start
  {
    if start + |key| > |s| then None
    else if s[start..start + |key|] == key then Some(start)
    else FindFrom(s, key, start + 1)
  }

  /** strchr(s, c): the index of the first c in s */
  function FindChar(s: string, c: char): (r: Option<nat>)
    ensures r.Some? ==> r.value < |s| && s[r.value] == c
    ensures r.Some? ==> forall i :: 0 <= i < r.value ==> s[i] != c
    ensures r.None? ==> forall i :: 0 <= i < |s| ==> s[i] != c
  {
    if s == [] then None
    else if s[0] == c then Some(0)
    else match FindChar(s[1..], c)
      case None => None
      case Some(k) => Some(k + 1)
  }

  predicate StartsWith(s: string, prefix: string)
  {
    |prefix| <= |s| && s[..|prefix|] == prefix
  }

  function DigitChar(d: nat): char
    requires d < 10
  {
    ('0' as int + d) as char
  }

  /** printf("%ld") of a non-negative number */
  function ShowNat(n: nat): (r: string)
    ensures |r| >= 1 && forall i :: 0 <= i < |r| ==> IsDigit(r[i])
    ensures r[0] == '0' ==> n == 0
  {
    if n < 10 then [DigitChar(n)] else ShowNat(n / 10) + [DigitChar(n % 10)]
  }

  /** printf("%ld") */
  function Show(n: int): (r: string)
    ensures |r| >= 1
  {
    if n < 0 then "-" + ShowNat(-n) else ShowNat(n)
  }

  /** Length of the first line of s: the index of the first '\n', or |s| */
  function LineLength(s: string): (n: nat)
    ensures n <= |s|
    ensures forall i :: 0 <= i < n ==> s[i] != '\n'
    ensures n < |s| ==> s[n] == '\n'
  {
    if s == [] || s[0] == '\n' then 0 else 1 + LineLength(s[1..])
  }

  /** The pieces strtok(s, "\n") returns, in order: maximal runs of
      characters other than '\n'; empty lines produce nothing. */
  function Tokens(s: string): (r: seq<string>)
    ensures forall k :: 0 <= k < |r| ==> r[k] != [] && '\n' !in r[k]
    decreases |s|
  {
    if s == [] then []
    else if s[0] == '\n' then Tokens(s[1..])
    else
      var n := LineLength(s);
      [s[..n]] + Tokens(s[n..])
  }

  function Concat(ss: seq<string>): string
  {
    if ss == [] then [] else ss[0] + Concat(ss[1..])
  }

  /** s with every '\n' removed */
  function DropNewlines(s: string): string
  {
    if s == [] then [] else (if s[0] == '\n' then [] else [s[0]]) + DropNewlines(s[1..])
  }

  lemma {:induction false} DropNewlinesAppend(a: string, b: string)
    ensures DropNewlines(a + b) == DropNewlines(a) + DropNewlines(b)
    decreases |a|
  {
    if a != [] {
      assert (a + b)[1..] == a[1..] + b;
      DropNewlinesAppend(a[1..], b);
    } else {
      assert a + b == b;
    }
  }

  lemma {:induction false} DropNewlinesOfLine(s: string)
    requires forall i :: 0 <= i < |s| ==> s[i] != '\n'
    ensures DropNewlines(s) == s
    decreases |s|
  {
    if s != [] {
      DropNewlinesOfLine(s[1..]);
    }
  }

  /** The tokens strtok hands out are exactly the characters of s other than
      the line breaks, in order: no character is lost, duplicated or moved. */
  lemma {:induction false} TokensCoverText(s: string)
    ensures Concat(Tokens(s)) == DropNewlines(s)
    decreases |s|
  {
    if s == [] {
    } else if s[0] == '\n' {
      TokensCoverText(s[1..]);
    } else {
      var n := LineLength(s);
      assert s == s[..n] + s[n..];
      TokensCoverText(s[n..]);
      DropNewlinesAppend(s[..n], s[n..]);
      DropNewlinesOfLine(s[..n]);
    }
  }

  /** The lines ls written out one after another, separated by '\n' */
  function JoinLines(ls: seq<string>): string
  {
    if ls == [] then []
    else if |ls| == 1 then ls[0]
    else ls[0] + "\n" + JoinLines(ls[1..])
  }

  /** A line without a break, followed by a break or nothing, is as long
      as the first line of the text */
  lemma {:induction false} LineLengthOfLine(l: string, t: string)
    requires '\n' !in l
    requires t == [] || t[0] == '\n'
    ensures LineLength(l + t) == |l|
    decreases |l|
  {
    if l != [] {
      assert (l + t)[0] == l[0] && (l + t)[1..] == l[1..] + t;
      LineLengthOfLine(l[1..], t);
    } else {
      assert l + t == t;
    }
  }

  /** strtok(s, "\n") splits exactly at the line breaks: non-empty lines
      joined by '\n' come back as the same lines, and blank lines (extra
      breaks) are skipped */
  lemma {:induction false} TokensOfJoinLines(ls: seq<string>)
    requires forall k :: 0 <= k < |ls| ==> ls[k] != [] && '\n' !in ls[k]
    ensures Tokens(JoinLines(ls)) == ls
    decreases |ls|
  {
    if |ls| == 1 {
      LineLengthOfLine(ls[0], []);
      assert ls[0] + [] == ls[0];
      assert JoinLines(ls)[|ls[0]|..] == [];
    } else if |ls| > 1 {
      var l, rest := ls[0], JoinLines(ls[1..]);
      var s := l + ("\n" + rest);
      assert JoinLines(ls) == s;
      LineLengthOfLine(l, "\n" + rest);
      assert s[..|l|] == l && s[|l|..] == "\n" + rest;
      assert s[0] == l[0];
      assert ("\n" + rest)[1..] == rest;
      TokensOfJoinLines(ls[1..]);
      assert [l] + ls[1..] == ls;
    }
  }

  /** Blank lines before the text make no difference */
  lemma {:induction false} TokensSkipBlank(s: string, k: nat)
    ensures Tokens(Newlines(k) + s) == Tokens(s)
    decreases k
  {
    if k > 0 {
      assert (Newlines(k) + s)[0] == '\n';
      assert (Newlines(k) + s)[1..] == Newlines(k - 1) + s;
      TokensSkipBlank(s, k - 1);
    } else {
      assert Newlines(k) + s == s;
    }
  }

  function Newlines(k: nat): string
  {
    if k == 0 then [] else "\n" + Newlines(k - 1)
  }
}
