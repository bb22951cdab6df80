/**
  Python string operations used by the clone-URL rewrite and by the
  server-URL normalisation, stated with Python's own semantics:
  `pat in s`, `s.split(sep)` (non-empty separator), `sep.join(parts)`,
  `s.replace(old, new)` (left-to-right, non-overlapping) and `s.rstrip(c)`.
 */
module PyStr {

  /** `pat` occurs in `s` starting at index `i`. */
  predicate StartsAt(s: string, i: int, pat: string) {
    0 <= i && i + |pat| <= |s| && s[i..i + |pat|] == pat
  }

  /** Python's `pat in s`. */
  predicate Contains(s: string, pat: string) {
    exists i :: 0 <= i <= |s| && StartsAt(s, i, pat)
  }

  /** `c` put in front of the first of `parts`. */
  function Cons(c: char, parts: seq<string>): seq<string>
    requires |parts| >= 1
  {
    [[c] + parts[0]] + parts[1..]
  }

  /** Python's `s.split(sep)` for a non-empty separator: a left-to-right scan
      that cuts at each non-overlapping occurrence of `sep`. */
  function Split(s: string, sep: string): (parts: seq<string>)
    requires |sep| > 0
    ensures |parts| >= 1
    decreases |s|
  {
    if |s| < |sep| then [s]
    else if s[..|sep|] == sep then [""] + Split(s[|sep|..], sep)
    else Cons(s[0], Split(s[1..], sep))
  }

  /** The summed length of the pieces. */
  function TotalLength(parts: seq<string>): nat {
    if parts == [] then 0 else |parts[0]| + TotalLength(parts[1..])
  }

  /** Python's `sep.join(parts)`: every piece once, with one separator
      between each two neighbours. */
  function Join(parts: seq<string>, sep: string): string {
    if |parts| == 0 then ""
    else if |parts| == 1 then parts[0]
    else parts[0] + sep + Join(parts[1..], sep)
  }

  /** The join holds every piece and `|parts| - 1` separators, and starts with
      the first piece. */
  lemma {:induction false} JoinShape(parts: seq<string>, sep: string)
    requires |parts| >= 1
    ensures |Join(parts, sep)| == TotalLength(parts) + (|parts| - 1) * |sep|
    ensures |parts[0]| <= |Join(parts, sep)| && Join(parts, sep)[..|parts[0]|] == parts[0]
    decreases |parts|
  {
    if |parts| > 1 {
      JoinShape(parts[1..], sep);
      assert (|parts| - 1) * |sep| == |sep| + (|parts| - 2) * |sep|;
    }
  }

  /** Python's `s.replace(pat, rep)`: a left-to-right scan that replaces each
      non-overlapping occurrence of `pat`. */
  function ReplaceAll(s: string, pat: string, rep: string): (r: string)
    requires |pat| > 0
    ensures !Contains(s, pat) ==> r == s
    decreases |s|
  {
    if |s| < |pat| then s
    else if s[..|pat|] == pat then
      assert StartsAt(s, 0, pat);
      rep + ReplaceAll(s[|pat|..], pat, rep)
    else
      ContainsTail(s, pat);
      [s[0]] + ReplaceAll(s[1..], pat, rep)
  }

  /** Python's `s.rstrip(c)` for a single character: drops every trailing `c`. */
  function RStrip(s: string, c: char): (r: string)
    ensures |r| <= |s| && s[..|r|] == r
    ensures forall k :: |r| <= k < |s| ==> s[k] == c
    ensures r == [] || r[|r| - 1] != c
    decreases |s|
  {
    if |s| > 0 && s[|s| - 1] == c then RStrip(s[..|s| - 1], c) else s
  }

  /** No proper suffix of `pat` is also a prefix of it, so two occurrences of
      `pat` can never overlap ("@" and "://" are such patterns). */
  predicate Unbordered(pat: string) {
    forall k :: 0 < k < |pat| ==> pat[k..] != pat[..|pat| - k]
  }

  /** An occurrence at index j >= 1 of `s` is an occurrence at j - 1 of `s[1..]`. */
  lemma StartsAtTail(s: string, pat: string)
    requires |s| > 0
    ensures forall j :: 1 <= j ==> (StartsAt(s, j, pat) <==> StartsAt(s[1..], j - 1, pat))
  {
    forall j | 1 <= j
      ensures StartsAt(s, j, pat) <==> StartsAt(s[1..], j - 1, pat)
    {
      if j + |pat| <= |s| {
        assert s[1..][j - 1..j - 1 + |pat|] == s[j..j + |pat|];
      }
    }
  }

  /** When `pat` does not start `s`, it occurs in `s` exactly when it occurs in `s[1..]`. */
  lemma ContainsTail(s: string, pat: string)
    requires |s| > 0 && !StartsAt(s, 0, pat)
    ensures Contains(s, pat) <==> Contains(s[1..], pat)
  {
    StartsAtTail(s, pat);
    if Contains(s, pat) {
      var i :| 0 <= i <= |s| && StartsAt(s, i, pat);
      assert StartsAt(s[1..], i - 1, pat);
    }
    if Contains(s[1..], pat) {
      var i :| 0 <= i <= |s[1..]| && StartsAt(s[1..], i, pat);
      assert StartsAt(s, i + 1, pat);
    }
  }

  /** A string shorter than the pattern does not contain it. */
  lemma ShortFree(s: string, pat: string)
    requires |s| < |pat|
    ensures !Contains(s, pat)
  {
  }

  /** `s.split(sep)` has two or more pieces exactly when `sep in s`. */
  lemma {:induction false} SplitCount(s: string, sep: string)
    requires |sep| > 0
    ensures |Split(s, sep)| >= 2 <==> Contains(s, sep)
    decreases |s|
  {
    if |s| < |sep| {
      ShortFree(s, sep);
    } else if s[..|sep|] == sep {
      assert StartsAt(s, 0, sep);
    } else {
      SplitCount(s[1..], sep);
      assert !StartsAt(s, 0, sep);
      ContainsTail(s, sep);
    }
  }

  /** A string without the separator splits into itself. */
  lemma SplitFree(s: string, sep: string)
    requires |sep| > 0 && !Contains(s, sep)
    ensures Split(s, sep) == [s]
  {
    SplitCount(s, sep);
    JoinOfSplit(s, sep);
  }

  /** Joining a piece in front of at least one more piece. */
  lemma JoinCons(head: string, tail: seq<string>, sep: string)
    requires |tail| >= 1
    ensures Join([head] + tail, sep) == head + sep + Join(tail, sep)
  {
    assert ([head] + tail)[1..] == tail;
  }

  /** Prefixing the first piece with a character prefixes the join with it. */
  lemma JoinConsFirst(c: char, parts: seq<string>, sep: string)
    requires |parts| >= 1
    ensures Join(Cons(c, parts), sep) == [c] + Join(parts, sep)
  {
    var ps := Cons(c, parts);
    assert ps[1..] == parts[1..];
  }

  /** Round trip one way: joining the pieces of a split with the same separator
      gives back the original string. */
  lemma {:induction false} JoinOfSplit(s: string, sep: string)
    requires |sep| > 0
    ensures Join(Split(s, sep), sep) == s
    decreases |s|
  {
    if |s| >= |sep| {
      if s[..|sep|] == sep {
        JoinSplitAtSep(s, sep);
        JoinOfSplit(s[|sep|..], sep);
        assert s == s[..|sep|] + s[|sep|..];
      } else {
        JoinSplitAtChar(s, sep);
        JoinOfSplit(s[1..], sep);
        assert s == [s[0]] + s[1..];
      }
    }
  }

  /** The join of the split of a string that starts with `sep`. */
  lemma JoinSplitAtSep(s: string, sep: string)
    requires |sep| > 0 && |s| >= |sep| && s[..|sep|] == sep
    ensures Join(Split(s, sep), sep) == sep + Join(Split(s[|sep|..], sep), sep)
  {
    var tail := Split(s[|sep|..], sep);
    SplitAtSep(s, sep);
    JoinCons("", tail, sep);
    assert "" + sep == sep;
  }

  /** A string that starts with `sep` splits into an empty piece and the
      pieces of the rest. */
  lemma SplitAtSep(s: string, sep: string)
    requires |sep| > 0 && |s| >= |sep| && s[..|sep|] == sep
    ensures Split(s, sep) == [""] + Split(s[|sep|..], sep)
  {
  }

  /** The join of the split of a string that does not start with `sep`. */
  lemma JoinSplitAtChar(s: string, sep: string)
    requires |sep| > 0 && |s| >= |sep| && s[..|sep|] != sep
    ensures Join(Split(s, sep), sep) == [s[0]] + Join(Split(s[1..], sep), sep)
  {
    SplitAtChar(s, sep);
    JoinConsFirst(s[0], Split(s[1..], sep), sep);
  }

  /** A string that does not start with `sep` splits into the pieces of its
      tail, with its first character put in front of the first piece. */
  lemma SplitAtChar(s: string, sep: string)
    requires |sep| > 0 && |s| >= |sep| && s[..|sep|] != sep
    ensures Split(s, sep) == Cons(s[0], Split(s[1..], sep))
  {
  }

  /** The first piece of a split is a prefix of the string. */
  lemma {:induction false} SplitFirstIsPrefix(s: string, sep: string)
    requires |sep| > 0
    ensures |Split(s, sep)[0]| <= |s| && s[..|Split(s, sep)[0]|] == Split(s, sep)[0]
    decreases |s|
  {
    if |s| >= |sep| && s[..|sep|] != sep {
      var p := Split(s[1..], sep)[0];
      SplitFirstIsPrefix(s[1..], sep);
      assert Split(s, sep)[0] == [s[0]] + p;
      assert s[..1 + |p|] == [s[0]] + s[1..][..|p|];
    }
  }

  /** The first piece of the split of `s` that `sep` does not start: `s[0]`
      in front of the first piece of `s[1..]` holds no `sep` when that does not. */
  lemma FirstPieceFree(s: string, sep: string)
    requires |sep| > 0 && |s| >= |sep| && s[..|sep|] != sep
    requires !Contains(Split(s[1..], sep)[0], sep)
    ensures !Contains(Split(s, sep)[0], sep)
  {
    var p := Split(s[1..], sep)[0];
    var q := Split(s, sep)[0];
    assert q == [s[0]] + p;
    assert q[1..] == p;
    SplitFirstIsPrefix(s, sep);
    PrefixFreeFront(q, s, sep);
  }

  /** A non-empty prefix `q` of `s` that `sep` does not start, with no `sep`
      in `q[1..]`, holds no `sep`. */
  lemma PrefixFreeFront(q: string, s: string, sep: string)
    requires |sep| > 0 && |s| >= |sep| && s[..|sep|] != sep
    requires 0 < |q| <= |s| && s[..|q|] == q
    requires !Contains(q[1..], sep)
    ensures !Contains(q, sep)
  {
    if |sep| <= |q| {
      assert q[..|sep|] == s[..|sep|];
    }
    assert !StartsAt(q, 0, sep);
    ContainsTail(q, sep);
  }

  /** No piece of a split contains the separator. */
  lemma {:induction false} SplitPiecesFree(s: string, sep: string)
    requires |sep| > 0
    ensures forall k :: 0 <= k < |Split(s, sep)| ==> !Contains(Split(s, sep)[k], sep)
    decreases |s|
  {
    if |s| < |sep| {
      ShortFree(s, sep);
    } else if s[..|sep|] == sep {
      SplitPiecesFree(s[|sep|..], sep);
      ShortFree("", sep);
    } else {
      SplitPiecesFree(s[1..], sep);
      FirstPieceFree(s, sep);
    }
  }

  /** When `a` holds no `sep` and is not empty, and `sep` cannot overlap
      itself, `sep` does not start `a + sep + x`. */
  lemma FrontNotSeparator(a: string, sep: string, x: string)
    requires |sep| > 0 && Unbordered(sep) && |a| > 0
    requires !Contains(a, sep)
    ensures (a + sep + x)[..|sep|] != sep
  {
    var s := a + sep + x;
    if |sep| <= |a| {
      assert !StartsAt(a, 0, sep);
      assert s[..|sep|] == a[..|sep|];
    } else {
      var k := |a|;
      assert sep[k..] != sep[..|sep| - k];
      assert s[..|sep|][k..] == sep[..|sep| - k];
    }
  }

  /** Splitting `a + sep + x` yields `a` followed by the split of `x`. */
  lemma {:induction false} SplitAfterFree(a: string, sep: string, x: string)
    requires |sep| > 0 && Unbordered(sep)
    requires !Contains(a, sep)
    ensures Split(a + sep + x, sep) == [a] + Split(x, sep)
    decreases |a|
  {
    var s := a + sep + x;
    if a == [] {
      assert s == sep + x;
      assert s[|sep|..] == x;
    } else {
      FrontNotSeparator(a, sep, x);
      assert !StartsAt(a, 0, sep);
      ContainsTail(a, sep);
      SplitAfterFree(a[1..], sep, x);
      assert s[1..] == a[1..] + sep + x;
      assert Split(s, sep) == Cons(s[0], Split(s[1..], sep));
      var rest := [a[1..]] + Split(x, sep);
      assert rest[0] == a[1..] && rest[1..] == Split(x, sep);
      assert [s[0]] + a[1..] == a;
    }
  }

  /** Round trip the other way: joining separator-free pieces and splitting
      again gives back the pieces. */
  lemma {:induction false} SplitOfJoin(parts: seq<string>, sep: string)
    requires |sep| > 0 && Unbordered(sep)
    requires |parts| >= 1
    requires forall k :: 0 <= k < |parts| ==> !Contains(parts[k], sep)
    ensures Split(Join(parts, sep), sep) == parts
  {
    if |parts| > 1 {
      SplitOfJoin(parts[1..], sep);
      SplitAfterFree(parts[0], sep, Join(parts[1..], sep));
    } else {
      SplitFree(parts[0], sep);
    }
  }

  /** Python's `s.replace(pat, rep)` equals `rep.join(s.split(pat))`: every
      occurrence that separates two pieces of the split becomes `rep`, and
      nothing else changes. */
  lemma {:induction false} ReplaceAllIsJoinOfSplit(s: string, pat: string, rep: string)
    requires |pat| > 0
    ensures ReplaceAll(s, pat, rep) == Join(Split(s, pat), rep)
    decreases |s|
  {
    if |s| >= |pat| {
      if s[..|pat|] == pat {
        var rest := s[|pat|..];
        ReplaceAllIsJoinOfSplit(rest, pat, rep);
        JoinCons("", Split(rest, pat), rep);
      } else {
        ReplaceAllIsJoinOfSplit(s[1..], pat, rep);
        JoinConsFirst(s[0], Split(s[1..], pat), rep);
      }
    }
  }
}
