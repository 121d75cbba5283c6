/**
 * The string operations of JavaScript that the decoder and the components rely on:
 * `includes`, `trim`, `split(/[,、]/)` and the default ordering used by `Array.prototype.sort`.
 */
module Strings {

  /** The characters `String.prototype.trim` removes: WhiteSpace and LineTerminator of ECMAScript. */
  const WhitespaceChars: set<char> := {
    '\U{0009}', '\U{000A}', '\U{000B}', '\U{000C}', '\U{000D}', '\U{0020}', '\U{00A0}', '\U{1680}',
    '\U{2000}', '\U{2001}', '\U{2002}', '\U{2003}', '\U{2004}', '\U{2005}', '\U{2006}', '\U{2007}',
    '\U{2008}', '\U{2009}', '\U{200A}', '\U{2028}', '\U{2029}', '\U{202F}', '\U{205F}', '\U{3000}',
    '\U{FEFF}'
  }

  predicate IsWhitespace(c: char) {
    c in WhitespaceChars
  }

  // ---------------------------------------------------------------------------
  // includes

  /** `s.includes(sub)`: `sub` is a prefix of `s` or of one of its suffixes */
  predicate Contains(s: string, sub: string) {
    sub <= s || (s != [] && Contains(s[1..], sub))
  }

  // ---------------------------------------------------------------------------
  // trim

  /** Neither starts nor ends with white space */
  predicate Trimmed(s: string) {
    s != [] ==> !IsWhitespace(s[0]) && !IsWhitespace(s[|s| - 1])
  }

  /** The first index at or after `i` whose character is not white space (`|s|` if there is none) */
  function SkipWhitespace(s: string, i: nat): (n: nat)
    requires i <= |s|
    ensures i <= n <= |s|
    ensures forall j {:trigger IsWhitespace(s[j])} :: i <= j < n ==> IsWhitespace(s[j])
    ensures n < |s| ==> !IsWhitespace(s[n])
    decreases |s| - i
  {
    if i < |s| && IsWhitespace(s[i]) then SkipWhitespace(s, i + 1) else i
  }

  /** The index just past the last character of `s[lo..k]` that is not white space (`lo` if there is none) */
  function SkipWhitespaceBack(s: string, lo: nat, k: nat): (n: nat)
    requires lo <= k <= |s|
    ensures lo <= n <= k
    ensures forall j {:trigger IsWhitespace(s[j])} :: n <= j < k ==> IsWhitespace(s[j])
    ensures n > lo ==> !IsWhitespace(s[n - 1])
    decreases k - lo
  {
    if k > lo && IsWhitespace(s[k - 1]) then SkipWhitespaceBack(s, lo, k - 1) else k
  }

  /** `s.trim()`: the part of `s` between its leading and its trailing white space */
  function Trim(s: string): (r: string)
    ensures Trimmed(r)
  {
    var i := SkipWhitespace(s, 0);
    var k := SkipWhitespaceBack(s, i, |s|);
    s[i..k]
  }

  /**
   * What `Trim` removes from either end of `s` is white space, and nothing else is removed;
   * with `Trimmed`, this determines the result.
   */
  lemma TrimMargins(s: string)
    ensures var i := SkipWhitespace(s, 0); var r := Trim(s);
      && i + |r| <= |s| && r == s[i..i + |r|]
      && (forall j {:trigger IsWhitespace(s[j])} :: 0 <= j < i ==> IsWhitespace(s[j]))
      && (forall j {:trigger IsWhitespace(s[j])} :: i + |r| <= j < |s| ==> IsWhitespace(s[j]))
  {
    var i := SkipWhitespace(s, 0);
    var k := SkipWhitespaceBack(s, i, |s|);
    assert |Trim(s)| == k - i;
  }

  /** Trimming twice is trimming once. */
  lemma TrimIdempotent(s: string)
    ensures Trim(Trim(s)) == Trim(s)
  {
    var r := Trim(s);
    var i := SkipWhitespace(r, 0);
    assert i == 0;
    var k := SkipWhitespaceBack(r, 0, |r|);
    assert k == |r|;
    assert r[0..|r|] == r;
  }

  // ---------------------------------------------------------------------------
  // split(/[,、]/)

  /** The two separators of the ingredient lists: the ASCII comma and the ideographic comma. */
  predicate IsSeparator(c: char) {
    c == ',' || c == '\U{3001}'
  }

  predicate NoSeparator(s: string) {
    forall k :: 0 <= k < |s| ==> !IsSeparator(s[k])
  }

  /** `s.split(/[,、]/)`: the maximal separator-free pieces of `s`, in order (`[""]` for `""`) */
  function Split(s: string): (r: seq<string>)
    ensures |r| >= 1
    ensures forall k :: 0 <= k < |r| ==> NoSeparator(r[k])
  {
    if s == [] then [""]
    else
      var rest := Split(s[1..]);
      if IsSeparator(s[0]) then [""] + rest
      else [[s[0]] + rest[0]] + rest[1..]
  }

  /** The pieces joined with "," between them (the inverse of `Split`). */
  function Join(pieces: seq<string>): string {
    if |pieces| == 0 then ""
    else if |pieces| == 1 then pieces[0]
    else pieces[0] + "," + Join(pieces[1..])
  }

  /** `s` with every ideographic comma written as an ASCII comma */
  function Normalize(s: string): (r: string)
    ensures |r| == |s|
  {
    if s == [] then "" else [if IsSeparator(s[0]) then ',' else s[0]] + Normalize(s[1..])
  }

  /** Splitting loses nothing but the kind of each separator. */
  lemma {:induction false} JoinSplit(s: string)
    ensures Join(Split(s)) == Normalize(s)
  {
    if s != [] {
      JoinSplit(s[1..]);
      var rest := Split(s[1..]);
      if !IsSeparator(s[0]) {
        if |rest| == 1 {
          assert Join(Split(s)) == [s[0]] + rest[0];
        } else {
          assert [[s[0]] + rest[0]] + rest[1..] == [[s[0]] + rest[0]] + rest[1..];
          assert ([[s[0]] + rest[0]] + rest[1..])[1..] == rest[1..];
          assert Join(rest) == rest[0] + "," + Join(rest[1..]);
        }
      } else {
        assert ([""] + rest)[1..] == rest;
      }
    }
  }

  /** Separator-free pieces survive a join followed by a split. */
  lemma {:induction false} SplitJoin(pieces: seq<string>)
    requires |pieces| >= 1
    requires forall k :: 0 <= k < |pieces| ==> NoSeparator(pieces[k])
    ensures Split(Join(pieces)) == pieces
  {
    if |pieces| == 1 {
      SplitNoSeparator(pieces[0]);
    } else {
      SplitJoin(pieces[1..]);
      var tail := "," + Join(pieces[1..]);
      assert tail[1..] == Join(pieces[1..]);
      assert Split(tail) == [""] + pieces[1..];
      SplitPrefix(pieces[0], tail);
      assert pieces[0] + "," + Join(pieces[1..]) == pieces[0] + tail;
      assert pieces[0] + "" == pieces[0];
      assert pieces == [pieces[0]] + pieces[1..];
    }
  }

  lemma {:induction false} SplitNoSeparator(s: string)
    requires NoSeparator(s)
    ensures Split(s) == [s]
  {
    if s != [] {
      SplitNoSeparator(s[1..]);
      assert [s[0]] + s[1..] == s;
    }
  }

  /** A separator-free prefix is glued onto the first piece of the rest. */
  lemma {:induction false} SplitPrefix(a: string, b: string)
    requires NoSeparator(a)
    ensures Split(a + b) == [a + Split(b)[0]] + Split(b)[1..]
  {
    if a != [] {
      assert (a + b)[1..] == a[1..] + b;
      SplitPrefix(a[1..], b);
      var rest := Split(a[1..] + b);
      assert rest[0] == a[1..] + Split(b)[0];
      assert rest[1..] == Split(b)[1..];
      assert [a[0]] + (a[1..] + Split(b)[0]) == a + Split(b)[0];
    } else {
      assert a + b == b;
      assert a + Split(b)[0] == Split(b)[0];
      assert Split(b) == [Split(b)[0]] + Split(b)[1..];
    }
  }

  // ---------------------------------------------------------------------------
  // The default order of Array.prototype.sort: lexicographic on characters

  predicate Less(a: string, b: string) {
    if |a| == 0 then |b| > 0
    else if |b| == 0 then false
    else a[0] < b[0] || (a[0] == b[0] && Less(a[1..], b[1..]))
  }

  lemma {:induction false} LessIrreflexive(a: string)
    ensures !Less(a, a)
  {
    if |a| > 0 { LessIrreflexive(a[1..]); }
  }

  lemma {:induction false} LessTransitive(a: string, b: string, c: string)
    requires Less(a, b) && Less(b, c)
    ensures Less(a, c)
  {
    if |a| > 0 && |b| > 0 && |c| > 0 && a[0] == b[0] == c[0] {
      LessTransitive(a[1..], b[1..], c[1..]);
    }
  }

  lemma {:induction false} LessTotal(a: string, b: string)
    requires a != b
    ensures Less(a, b) || Less(b, a)
  {
    if |a| > 0 && |b| > 0 && a[0] == b[0] {
      assert a == [a[0]] + a[1..] && b == [b[0]] + b[1..];
      LessTotal(a[1..], b[1..]);
    }
  }

  /** In strictly increasing order, hence free of duplicates */
  predicate StrictlySorted(s: seq<string>) {
    forall i, j :: 0 <= i < j < |s| ==> Less(s[i], s[j])
  }

  lemma StrictlySortedDistinct(s: seq<string>)
    requires StrictlySorted(s)
    ensures forall i, j :: 0 <= i < j < |s| ==> s[i] != s[j]
  {
    forall i, j | 0 <= i < j < |s| ensures s[i] != s[j] {
      if s[i] == s[j] { LessIrreflexive(s[i]); }
    }
  }

  /** `x` inserted into its place in a strictly sorted sequence */
  function Insert(s: seq<string>, x: string): seq<string> {
    if s == [] then [x]
    else if Less(x, s[0]) then [x] + s
    else if x == s[0] then s
    else [s[0]] + Insert(s[1..], x)
  }

  lemma {:induction false} InsertElements(s: seq<string>, x: string)
    ensures forall y :: y in Insert(s, x) <==> y in s || y == x
    ensures x !in s ==> |Insert(s, x)| == |s| + 1
  {
    if s != [] && !Less(x, s[0]) && x != s[0] {
      InsertElements(s[1..], x);
      assert s == [s[0]] + s[1..];
    }
  }

  lemma ConsSorted(a: string, t: seq<string>)
    requires StrictlySorted(t)
    requires forall k :: 0 <= k < |t| ==> Less(a, t[k])
    ensures StrictlySorted([a] + t)
  {
    var s := [a] + t;
    forall i, j | 0 <= i < j < |s| ensures Less(s[i], s[j]) {
      if i == 0 { assert s[j] == t[j - 1]; } else { assert s[i] == t[i - 1] && s[j] == t[j - 1]; }
    }
  }

  lemma {:induction false} InsertSorted(s: seq<string>, x: string)
    requires StrictlySorted(s)
    ensures StrictlySorted(Insert(s, x))
  {
    if s == [] || x == s[0] {
    } else if Less(x, s[0]) {
      forall k | 0 <= k < |s| ensures Less(x, s[k]) {
        if k > 0 { LessTransitive(x, s[0], s[k]); }
      }
      ConsSorted(x, s);
    } else {
      LessTotal(x, s[0]);
      InsertSorted(s[1..], x);
      InsertElements(s[1..], x);
      var t := Insert(s[1..], x);
      forall k | 0 <= k < |t| ensures Less(s[0], t[k]) {
        assert t[k] in s[1..] || t[k] == x;
      }
      ConsSorted(s[0], t);
    }
  }

  /** `Array.from(set).sort()`: the elements of `s` in increasing order, each once */
  method SortedSeq(s: set<string>) returns (r: seq<string>)
    ensures StrictlySorted(r)
    ensures forall x :: x in r <==> x in s
    ensures |r| == |s|
  {
    r := [];
    var rest := s;
    while rest != {}
      invariant StrictlySorted(r)
      invariant forall x :: x in s <==> x in r || x in rest
      invariant forall x :: x in r ==> x !in rest
      invariant |r| + |rest| == |s|
      decreases |rest|
    {
      var x :| x in rest;
      InsertSorted(r, x);
      InsertElements(r, x);
      r := Insert(r, x);
      rest := rest - {x};
    }
  }
}
