/**
 * The few JavaScript string built-ins the host-name logic relies on, with JavaScript's
 * semantics: `indexOf`, `split` on a one-character separator (every separator cuts, empty
 * pieces are kept) and `slice` with non-negative arguments.  `Join` is the inverse of
 * `Split` and is used to state what `Split` does.
 */
module JsStrings {

  /** `pat` occurs in `s` starting at index `i`. */
  predicate OccursAt(s: string, pat: string, i: int)
  {
    0 <= i && i + |pat| <= |s| && s[i..i + |pat|] == pat
  }

  /**
   * `s.indexOf(pat, from)` for `from <= |s|` or a non-empty `pat`: the first index at or after
   * `from` where `pat` occurs, or -1.  (JavaScript clamps a larger `from` to `|s|`, where an
   * empty `pat` is then found; this function answers -1 there.)
   */
  function IndexOfFrom(s: string, pat: string, from: nat): (r: int)
    ensures r == -1 || (from <= r && OccursAt(s, pat, r))
    ensures forall i :: from <= i && (r == -1 || i < r) ==> !OccursAt(s, pat, i)
    decreases |s| - from
  {
    if from + |pat| > |s| then -1
    else if s[from..from + |pat|] == pat then from
    else IndexOfFrom(s, pat, from + 1)
  }

  /** `s.indexOf(pat)`. */
  function IndexOf(s: string, pat: string): (r: int)
    ensures r >= -1
    ensures r >= 0 ==> OccursAt(s, pat, r) && forall i :: 0 <= i < r ==> !OccursAt(s, pat, i)
    ensures r == -1 <==> forall i :: 0 <= i <= |s| ==> !OccursAt(s, pat, i)
  {
    IndexOfFrom(s, pat, 0)
  }

  /** The number of occurrences of `c` in `s`. */
  function Count(s: string, c: char): (n: nat)
  {
    if |s| == 0 then 0 else Count(s[..|s| - 1], c) + (if s[|s| - 1] == c then 1 else 0)
  }

  lemma CountStep(s: string, c: char, n: nat)
    requires n < |s|
    ensures Count(s[..n + 1], c) == Count(s[..n], c) + (if s[n] == c then 1 else 0)
  {
    assert s[..n + 1][..n] == s[..n];
  }

  /** Characters other than `c` do not change the count. */
  lemma {:induction false} CountSkip(s: string, c: char, from: nat, to: nat)
    requires from <= to <= |s|
    requires forall m :: from <= m < to ==> s[m] != c
    ensures Count(s[..to], c) == Count(s[..from], c)
  {
    if from < to {
      CountStep(s, c, to - 1);
      CountSkip(s, c, from, to - 1);
    }
  }

  /** The first index at or after `from` that holds `sep`, or `|s|` when there is none. */
  function NextSep(s: string, sep: char, from: nat): (j: nat)
    requires from <= |s|
    ensures from <= j <= |s|
    ensures j < |s| ==> s[j] == sep
    ensures forall m :: from <= m < j ==> s[m] != sep
    decreases |s| - from
  {
    if from == |s| || s[from] == sep then from else NextSep(s, sep, from + 1)
  }

  /** `NextSep` is determined by its postconditions. */
  lemma {:induction false} NextSepUnique(s: string, sep: char, from: nat, j: nat)
    requires from <= j <= |s|
    requires j < |s| ==> s[j] == sep
    requires forall m :: from <= m < j ==> s[m] != sep
    ensures NextSep(s, sep, from) == j
    decreases j - from
  {
    if from < j {
      NextSepUnique(s, sep, from + 1, j);
    }
  }

  /** The pieces of `s[start..]` between consecutive separators. */
  function SplitFrom(s: string, sep: char, start: nat): (parts: seq<string>)
    requires start <= |s|
    ensures |parts| >= 1
    decreases |s| - start
  {
    var j := NextSep(s, sep, start);
    if j == |s| then [s[start..]]
    else [s[start..j]] + SplitFrom(s, sep, j + 1)
  }

  /** `NextSep` stops at the latest at a separator known to lie ahead. */
  lemma NextSepAtMost(s: string, sep: char, from: nat, m: nat)
    requires from <= m < |s| && s[m] == sep
    ensures NextSep(s, sep, from) <= m
  {
  }

  /** A separator ahead splits off one piece. */
  lemma SplitFromCons(s: string, sep: char, start: nat)
    requires start <= |s| && NextSep(s, sep, start) < |s|
    ensures SplitFrom(s, sep, start)
         == [s[start..NextSep(s, sep, start)]] + SplitFrom(s, sep, NextSep(s, sep, start) + 1)
  {
  }

  /** With no separator ahead, the rest is one piece. */
  lemma SplitFromLast(s: string, sep: char, start: nat)
    requires start <= |s| && NextSep(s, sep, start) == |s|
    ensures SplitFrom(s, sep, start) == [s[start..]]
    ensures Join(SplitFrom(s, sep, start), sep) == s[start..]
  {
  }

  /**
   * `s.split(sep)` for a one-character separator: the pieces between consecutive
   * separators, in order, empty pieces included; a string without `sep` is one piece.
   */
  function Split(s: string, sep: char): (parts: seq<string>)
    ensures |parts| >= 1
    ensures forall k :: 0 <= k < |parts| ==> sep !in parts[k]
  {
    SplitFromSepFree(s, sep, 0);
    SplitFrom(s, sep, 0)
  }

  /** No piece holds the separator. */
  lemma {:induction false} SplitFromSepFree(s: string, sep: char, start: nat)
    requires start <= |s|
    ensures forall k :: 0 <= k < |SplitFrom(s, sep, start)| ==> sep !in SplitFrom(s, sep, start)[k]
    decreases |s| - start
  {
    var j := NextSep(s, sep, start);
    if j < |s| {
      SplitFromSepFree(s, sep, j + 1);
      SplitFromCons(s, sep, start);
      SepFreeSlice(s, sep, start, j);
    } else {
      SplitFromLast(s, sep, start);
      SepFreeSlice(s, sep, start, j);
    }
  }

  lemma SepFreeSlice(s: string, sep: char, start: nat, j: nat)
    requires start <= j <= |s| && forall m :: start <= m < j ==> s[m] != sep
    ensures sep !in s[start..j]
  {
  }

  /** `parts.join(sep)`. */
  function Join(parts: seq<string>, sep: char): (s: string)
  {
    if |parts| == 0 then ""
    else if |parts| == 1 then parts[0]
    else parts[0] + [sep] + Join(parts[1..], sep)
  }

  lemma JoinCons(head: string, rest: seq<string>, sep: char)
    requires |rest| >= 1
    ensures Join([head] + rest, sep) == head + [sep] + Join(rest, sep)
  {
    assert ([head] + rest)[1..] == rest;
  }

  lemma SliceAround(s: string, start: nat, j: nat)
    requires start <= j < |s|
    ensures s[start..] == s[start..j] + [s[j]] + s[j + 1..]
  {
  }

  lemma {:induction false} JoinSplitFrom(s: string, sep: char, start: nat)
    requires start <= |s|
    ensures Join(SplitFrom(s, sep, start), sep) == s[start..]
    decreases |s| - start
  {
    var j := NextSep(s, sep, start);
    if j < |s| {
      JoinSplitFrom(s, sep, j + 1);
      JoinSplitStep(s, sep, start);
    } else {
      SplitFromLast(s, sep, start);
    }
  }

  lemma JoinSplitStep(s: string, sep: char, start: nat)
    requires start <= |s| && NextSep(s, sep, start) < |s|
    requires Join(SplitFrom(s, sep, NextSep(s, sep, start) + 1), sep) == s[NextSep(s, sep, start) + 1..]
    ensures Join(SplitFrom(s, sep, start), sep) == s[start..]
  {
    var j := NextSep(s, sep, start);
    SplitFromCons(s, sep, start);
    JoinCons(s[start..j], SplitFrom(s, sep, j + 1), sep);
    SliceAround(s, start, j);
  }

  /** Joining the pieces back with the separator gives the original string. */
  lemma JoinSplit(s: string, sep: char)
    ensures Join(Split(s, sep), sep) == s
  {
    JoinSplitFrom(s, sep, 0);
  }

  /** When `s[start..]` begins with a separator-free `head`, `NextSep` skips all of it. */
  lemma SepFreePrefix(s: string, sep: char, start: nat, head: string, rest: string)
    requires start <= |s| && s[start..] == head + rest && sep !in head
    ensures start + |head| <= |s|
    ensures forall m :: start <= m < start + |head| ==> s[m] != sep
    ensures s[start..start + |head|] == head
    ensures s[start + |head|..] == rest
  {
    assert forall m :: start <= m < start + |head| ==> s[m] == s[start..][m - start];
  }

  lemma SepThenRest(s: string, i: nat, sep: char, tail: string)
    requires i <= |s| && s[i..] == [sep] + tail
    ensures i < |s| && s[i] == sep && s[i + 1..] == tail
  {
    assert s[i] == s[i..][0];
  }

  lemma {:induction false} SplitFromJoin(s: string, sep: char, start: nat, parts: seq<string>)
    requires start <= |s| && |parts| >= 1
    requires forall k :: 0 <= k < |parts| ==> sep !in parts[k]
    requires s[start..] == Join(parts, sep)
    ensures SplitFrom(s, sep, start) == parts
    decreases |s| - start
  {
    if |parts| == 1 {
      SplitFromJoinLast(s, sep, start, parts[0]);
    } else {
      var next := SplitFromJoinHead(s, sep, start, parts[0], Join(parts[1..], sep));
      SplitFromJoin(s, sep, next, parts[1..]);
      SplitFromCons(s, sep, start);
      assert parts == [parts[0]] + parts[1..];
    }
  }

  lemma SplitFromJoinLast(s: string, sep: char, start: nat, head: string)
    requires start <= |s| && sep !in head && s[start..] == head
    ensures SplitFrom(s, sep, start) == [head]
  {
    assert head + "" == head;
    SepFreePrefix(s, sep, start, head, "");
    NextSepUnique(s, sep, start, |s|);
  }

  /** A separator-free head then a separator: the next separator follows the head. */
  lemma SplitFromJoinHead(s: string, sep: char, start: nat, head: string, tail: string) returns (next: nat)
    requires start <= |s| && sep !in head && s[start..] == head + [sep] + tail
    ensures next == start + |head| + 1 && NextSep(s, sep, start) == start + |head| < |s|
    ensures s[start..NextSep(s, sep, start)] == head && next <= |s| && s[next..] == tail
  {
    assert head + [sep] + tail == head + ([sep] + tail);
    SepFreePrefix(s, sep, start, head, [sep] + tail);
    SepThenRest(s, start + |head|, sep, tail);
    NextSepUnique(s, sep, start, start + |head|);
    next := start + |head| + 1;
  }

  /** Splitting a join of separator-free pieces gives the pieces back. */
  lemma SplitJoin(parts: seq<string>, sep: char)
    requires |parts| >= 1
    requires forall k :: 0 <= k < |parts| ==> sep !in parts[k]
    ensures Split(Join(parts, sep), sep) == parts
  {
    SplitFromJoin(Join(parts, sep), sep, 0, parts);
  }

  lemma {:induction false} SplitFromLength(s: string, sep: char, start: nat)
    requires start <= |s|
    ensures |SplitFrom(s, sep, start)| + Count(s[..start], sep) == Count(s, sep) + 1
    decreases |s| - start
  {
    var j := NextSep(s, sep, start);
    CountSkip(s, sep, start, j);
    if j == |s| {
      assert s[..|s|] == s;
    } else {
      CountStep(s, sep, j);
      SplitFromLength(s, sep, j + 1);
    }
  }

  /** There is one more piece than there are separators. */
  lemma SplitLength(s: string, sep: char)
    ensures |Split(s, sep)| == Count(s, sep) + 1
  {
    SplitFromLength(s, sep, 0);
    assert s[..0] == "";
  }

  /** Where piece `k` of `SplitFrom(s, sep, start)` starts in `s`. */
  function SegmentStartFrom(s: string, sep: char, start: nat, k: nat): (o: nat)
    requires start <= |s| && k < |SplitFrom(s, sep, start)|
    decreases |s| - start
  {
    if k == 0 then start else SegmentStartFrom(s, sep, NextSep(s, sep, start) + 1, k - 1)
  }

  /** One step of `SplitFrom` and `SegmentStartFrom` past the first separator. */
  lemma SplitFromStep(s: string, sep: char, start: nat, k: nat)
    requires start <= |s| && 0 < k < |SplitFrom(s, sep, start)|
    ensures NextSep(s, sep, start) < |s|
    ensures k - 1 < |SplitFrom(s, sep, NextSep(s, sep, start) + 1)|
    ensures SplitFrom(s, sep, start)[k] == SplitFrom(s, sep, NextSep(s, sep, start) + 1)[k - 1]
    ensures SegmentStartFrom(s, sep, start, k)
         == SegmentStartFrom(s, sep, NextSep(s, sep, start) + 1, k - 1)
  {
  }

  lemma {:induction false} PieceAtFrom(s: string, sep: char, start: nat, k: nat)
    requires start <= |s| && k < |SplitFrom(s, sep, start)|
    ensures start <= SegmentStartFrom(s, sep, start, k) <= |s|
    ensures SplitFrom(s, sep, start)[k]
         == s[SegmentStartFrom(s, sep, start, k)..NextSep(s, sep, SegmentStartFrom(s, sep, start, k))]
    decreases |s| - start
  {
    if k > 0 {
      SplitFromStep(s, sep, start, k);
      PieceAtFrom(s, sep, NextSep(s, sep, start) + 1, k - 1);
    }
  }

  /** Up to and including the next separator, the count grows by one. */
  lemma CountThroughSep(s: string, sep: char, start: nat)
    requires start <= |s| && NextSep(s, sep, start) < |s|
    ensures Count(s[..NextSep(s, sep, start) + 1], sep) == Count(s[..start], sep) + 1
  {
    var j := NextSep(s, sep, start);
    CountSkip(s, sep, start, j);
    CountStep(s, sep, j);
  }

  lemma {:induction false} PieceCountFrom(s: string, sep: char, start: nat, k: nat)
    requires start <= |s| && k < |SplitFrom(s, sep, start)|
    ensures start <= SegmentStartFrom(s, sep, start, k) <= |s|
    ensures Count(s[..SegmentStartFrom(s, sep, start, k)], sep) == Count(s[..start], sep) + k
    decreases |s| - start
  {
    if k > 0 {
      SplitFromStep(s, sep, start, k);
      CountThroughSep(s, sep, start);
      PieceCountFrom(s, sep, NextSep(s, sep, start) + 1, k - 1);
    }
  }

  lemma {:induction false} PieceAfterSepFrom(s: string, sep: char, start: nat, k: nat)
    requires start <= |s| && 0 < k < |SplitFrom(s, sep, start)|
    ensures start < SegmentStartFrom(s, sep, start, k) <= |s|
    ensures s[SegmentStartFrom(s, sep, start, k) - 1] == sep
    decreases |s| - start
  {
    SplitFromStep(s, sep, start, k);
    var j := NextSep(s, sep, start);
    if k > 1 {
      PieceAfterSepFrom(s, sep, j + 1, k - 1);
    }
  }

  /** Where piece `k` of `Split(s, sep)` starts in `s`. */
  function SegmentStart(s: string, sep: char, k: nat): (o: nat)
    requires k < |Split(s, sep)|
  {
    SegmentStartFrom(s, sep, 0, k)
  }

  /**
   * Piece `k` of `Split(s, sep)` is the text of `s` that starts right after its `k`-th
   * separator and runs up to the next separator or to the end of `s`.
   */
  lemma PieceAt(s: string, sep: char, k: nat)
    requires k < |Split(s, sep)|
    ensures var o := SegmentStart(s, sep, k);
      && o <= |s|
      && Split(s, sep)[k] == s[o..NextSep(s, sep, o)]
      && Count(s[..o], sep) == k
      && (k > 0 ==> s[o - 1] == sep)
  {
    PieceAtFrom(s, sep, 0, k);
    PieceCountFrom(s, sep, 0, k);
    if k > 0 {
      PieceAfterSepFrom(s, sep, 0, k);
    }
    assert s[..0] == "";
  }

  /** Every `/` cuts and empty pieces are kept. */
  lemma SplitExample()
    ensures Split("http://a.com/x", '/') == ["http:", "", "a.com", "x"]
  {
    var parts := ["http:", "", "a.com", "x"];
    assert Join(parts, '/') == "http://a.com/x" by {
      assert parts[1..] == ["", "a.com", "x"];
      assert parts[1..][1..] == ["a.com", "x"];
      assert parts[1..][1..][1..] == ["x"];
    }
    SplitJoin(parts, '/');
  }

  /** `s.slice(start, end)` with non-negative arguments: both ends are clamped to `|s|`. */
  function Slice(s: string, start: nat, end: nat): (r: string)
    ensures start <= end <= |s| ==> r == s[start..end]
    ensures start >= end ==> r == ""
    ensures start <= |s| <= end ==> r == s[start..]
    ensures |s| <= start ==> r == ""
  {
    var from := if start < |s| then start else |s|;
    var to := if end < |s| then end else |s|;
    if from < to then s[from..to] else ""
  }

  /** `s.slice(start)`: from `start` to the end. */
  function SliceFrom(s: string, start: nat): (r: string)
    ensures start <= |s| ==> r == s[start..]
    ensures start >= |s| ==> r == ""
  {
    Slice(s, start, |s|)
  }
}
