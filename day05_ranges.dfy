/**
 * Closed integer ranges and the merge-on-insert list of sorted, disjoint,
 * non-touching ranges (day_5/solution_part_2.py, `Range` and
 * `SortedRangeList`).
 */
module Ranges {
  import opened Wrappers

  /** A pair of endpoints, before the `start <= end` check. */
  datatype Interval = Interval(start: int, end: int)

  /** A `Range` value: constructing one with `start > end` raises, so every value has `start <= end`. */
  type Range = r: Interval | r.start <= r.end witness Interval(0, 0)

  /** `Range(start, end)`: `None` stands for the `ValueError` raised when `start > end`. */
  function MakeRange(start: int, end: int): (r: Option<Range>)
    ensures r.Some? <==> start <= end
    ensures r.Some? ==> r.value.start == start && r.value.end == end
  {
    if start <= end then Some(Interval(start, end)) else None
  }

  predicate Contains(r: Range, x: int) {
    r.start <= x <= r.end
  }

  function Length(r: Range): nat {
    r.end - r.start + 1
  }

  function Min(a: int, b: int): int { if a <= b then a else b }
  function Max(a: int, b: int): int { if a <= b then b else a }

  /**
   * `Range.try_combine_with`: the ranges overlap or touch exactly when their
   * union is again a range, and then that union is the result; otherwise a
   * gap of at least one integer separates them.
   */
  function TryCombine(a: Range, b: Range): (r: Option<Range>)
    ensures r.Some? ==> forall x :: Contains(r.value, x) <==> Contains(a, x) || Contains(b, x)
    ensures r.None? <==> a.end + 1 < b.start || b.end + 1 < a.start
  {
    if a.start <= b.end + 1 && b.start <= a.end + 1 then
      Some(Interval(Min(a.start, b.start), Max(a.end, b.end)))
    else None
  }

  /** Combining does not depend on which range is the receiver. */
  lemma TryCombineSymmetric(a: Range, b: Range)
    ensures TryCombine(a, b) == TryCombine(b, a)
  {
  }

  /** Sorted by start, and consecutive ranges neither overlap nor touch. */
  ghost predicate Canonical(rs: seq<Range>) {
    forall i, j | 0 <= i < j < |rs| :: rs[i].end + 1 < rs[j].start
  }

  /** Some range of the list holds `x`. */
  ghost predicate InCover(rs: seq<Range>, x: int) {
    exists i | 0 <= i < |rs| :: Contains(rs[i], x)
  }

  function TotalLength(rs: seq<Range>): nat {
    if |rs| == 0 then 0 else Length(rs[0]) + TotalLength(rs[1..])
  }

  lemma InCoverConcat(a: seq<Range>, b: seq<Range>, x: int)
    ensures InCover(a + b, x) <==> InCover(a, x) || InCover(b, x)
  {
    if InCover(a + b, x) {
      var i :| 0 <= i < |a + b| && Contains((a + b)[i], x);
      if i >= |a| {
        assert b[i - |a|] == (a + b)[i];
      }
    }
    if InCover(a, x) {
      var i :| 0 <= i < |a| && Contains(a[i], x);
      assert (a + b)[i] == a[i];
    }
    if InCover(b, x) {
      var i :| 0 <= i < |b| && Contains(b[i], x);
      assert (a + b)[|a| + i] == b[i];
    }
  }

  lemma {:induction false} TotalLengthConcat(a: seq<Range>, b: seq<Range>)
    ensures TotalLength(a + b) == TotalLength(a) + TotalLength(b)
    decreases |a|
  {
    if |a| > 0 {
      assert (a + b)[1..] == a[1..] + b;
      TotalLengthConcat(a[1..], b);
    } else {
      assert a + b == b;
    }
  }

  /**
   * The corrected `SortedRangeList.add` on the list's value: skip the ranges
   * that end more than one below the new range, then absorb every range that
   * overlaps or touches it (re-testing after each merge), then put it in
   * front of the first range left.
   */
  function Insert(rs: seq<Range>, r: Range): seq<Range>
    decreases |rs|
  {
    if |rs| == 0 then [r]
    else if rs[0].end + 1 < r.start then [rs[0]] + Insert(rs[1..], r)
    else if r.end + 1 < rs[0].start then [r] + rs
    else Insert(rs[1..], TryCombine(rs[0], r).value)
  }

  lemma InCoverSingle(a: Range, x: int)
    ensures InCover([a], x) <==> Contains(a, x)
  {
    if Contains(a, x) {
      assert [a][0] == a;
    }
  }

  /** Inserting covers exactly the integers already covered and those of the new range. */
  lemma {:induction false} InsertCover(rs: seq<Range>, r: Range, x: int)
    ensures InCover(Insert(rs, r), x) <==> InCover(rs, x) || Contains(r, x)
    decreases |rs|
  {
    if |rs| == 0 {
      InCoverSingle(r, x);
    } else {
      assert rs == [rs[0]] + rs[1..];
      InCoverConcat([rs[0]], rs[1..], x);
      InCoverSingle(rs[0], x);
      if rs[0].end + 1 < r.start {
        InsertCover(rs[1..], r, x);
        InCoverConcat([rs[0]], Insert(rs[1..], r), x);
      } else if r.end + 1 < rs[0].start {
        InCoverConcat([r], rs, x);
        InCoverSingle(r, x);
      } else {
        InsertCover(rs[1..], TryCombine(rs[0], r).value, x);
      }
    }
  }

  /** Every range starts above `b`. */
  ghost predicate AllAbove(rs: seq<Range>, b: int) {
    forall i | 0 <= i < |rs| :: b < rs[i].start
  }

  lemma {:induction false} InsertAbove(rs: seq<Range>, r: Range, b: int)
    requires AllAbove(rs, b) && b < r.start
    ensures AllAbove(Insert(rs, r), b)
    decreases |rs|
  {
    if |rs| > 0 {
      if rs[0].end + 1 < r.start {
        InsertAbove(rs[1..], r, b);
      } else if r.end + 1 < rs[0].start {
      } else {
        InsertAbove(rs[1..], TryCombine(rs[0], r).value, b);
      }
    }
  }

  /** Insertion keeps the list sorted, with neighbours neither overlapping nor touching. */
  lemma {:induction false} InsertCanonical(rs: seq<Range>, r: Range)
    requires Canonical(rs)
    ensures Canonical(Insert(rs, r))
    decreases |rs|
  {
    if |rs| > 0 {
      if rs[0].end + 1 < r.start {
        InsertCanonical(rs[1..], r);
        InsertAbove(rs[1..], r, rs[0].end + 1);
      } else if r.end + 1 < rs[0].start {
        var out := [r] + rs;
        forall i, j | 0 <= i < j < |out| ensures out[i].end + 1 < out[j].start {
          if i == 0 && j > 1 {
            assert rs[0].end + 1 < rs[j - 1].start;
          }
        }
      } else {
        InsertCanonical(rs[1..], TryCombine(rs[0], r).value);
      }
    }
  }

  /** A range that starts beyond every existing `end + 1` is appended at the end. */
  lemma {:induction false} InsertAppends(rs: seq<Range>, r: Range)
    requires forall i | 0 <= i < |rs| :: rs[i].end + 1 < r.start
    ensures Insert(rs, r) == rs + [r]
    decreases |rs|
  {
    if |rs| > 0 {
      InsertAppends(rs[1..], r);
      assert rs == [rs[0]] + rs[1..];
    }
  }

  /** Ranges ending more than one below the new range are kept in front of it. */
  lemma {:induction false} InsertSkipsPrefix(p: seq<Range>, s: seq<Range>, r: Range)
    requires forall i | 0 <= i < |p| :: p[i].end + 1 < r.start
    ensures Insert(p + s, r) == p + Insert(s, r)
    decreases |p|
  {
    if |p| > 0 {
      var ps := p + s;
      assert ps[0] == p[0] && ps[1..] == p[1..] + s;
      assert Insert(ps, r) == [p[0]] + Insert(p[1..] + s, r);
      InsertSkipsPrefix(p[1..], s, r);
      assert p == [p[0]] + p[1..];
    } else {
      assert p + s == s;
    }
  }

  lemma StartCovered(rs: seq<Range>)
    requires |rs| > 0
    ensures InCover(rs, rs[0].start)
  {
    assert Contains(rs[0], rs[0].start);
  }

  lemma CanonicalFirst(rs: seq<Range>, x: int)
    requires Canonical(rs) && |rs| > 0 && InCover(rs, x)
    ensures rs[0].start <= x && x != rs[0].end + 1
  {
    var i :| 0 <= i < |rs| && Contains(rs[i], x);
    if i > 0 {
      assert rs[0].end + 1 < rs[i].start;
    }
  }

  lemma CanonicalTail(rs: seq<Range>, x: int)
    requires Canonical(rs) && |rs| > 0
    ensures InCover(rs[1..], x) <==> InCover(rs, x) && rs[0].end < x
  {
    if InCover(rs[1..], x) {
      var i :| 0 <= i < |rs[1..]| && Contains(rs[1..][i], x);
      assert rs[i + 1] == rs[1..][i];
      assert rs[0].end + 1 < rs[i + 1].start;
    }
    if InCover(rs, x) && rs[0].end < x {
      var i :| 0 <= i < |rs| && Contains(rs[i], x);
      assert i > 0;
      assert rs[1..][i - 1] == rs[i];
    }
  }

  /**
   * A canonical list is determined by the integers it covers: two canonical
   * lists covering the same integers are equal.
   */
  lemma {:induction false} CanonicalUnique(a: seq<Range>, b: seq<Range>)
    requires Canonical(a) && Canonical(b)
    requires forall x :: InCover(a, x) <==> InCover(b, x)
    ensures a == b
    decreases |a|
  {
    if |a| == 0 || |b| == 0 {
      if |a| > 0 {
        StartCovered(a);
      } else if |b| > 0 {
        StartCovered(b);
      }
    } else {
      StartCovered(a);
      StartCovered(b);
      CanonicalFirst(b, a[0].start);
      CanonicalFirst(a, b[0].start);
      assert a[0].start == b[0].start;
      if a[0].end < b[0].end {
        assert Contains(b[0], a[0].end + 1);
        CanonicalFirst(a, a[0].end + 1);
      } else if b[0].end < a[0].end {
        assert Contains(a[0], b[0].end + 1);
        CanonicalFirst(b, b[0].end + 1);
      }
      assert a[0] == b[0];
      forall x ensures InCover(a[1..], x) <==> InCover(b[1..], x) {
        CanonicalTail(a, x);
        CanonicalTail(b, x);
      }
      CanonicalUnique(a[1..], b[1..]);
      assert a == [a[0]] + a[1..] && b == [b[0]] + b[1..];
    }
  }

  /** Inserting the same range twice gives the same list as inserting it once. */
  lemma InsertIdempotent(rs: seq<Range>, r: Range)
    requires Canonical(rs)
    ensures Insert(Insert(rs, r), r) == Insert(rs, r)
  {
    InsertCanonical(rs, r);
    InsertCanonical(Insert(rs, r), r);
    forall x ensures InCover(Insert(Insert(rs, r), r), x) <==> InCover(Insert(rs, r), x) {
      InsertCover(rs, r, x);
      InsertCover(Insert(rs, r), r, x);
    }
    CanonicalUnique(Insert(Insert(rs, r), r), Insert(rs, r));
  }

  /** Two insertions commute. */
  lemma InsertCommutes(rs: seq<Range>, a: Range, b: Range)
    requires Canonical(rs)
    ensures Insert(Insert(rs, a), b) == Insert(Insert(rs, b), a)
  {
    InsertCanonical(rs, a);
    InsertCanonical(rs, b);
    InsertCanonical(Insert(rs, a), b);
    InsertCanonical(Insert(rs, b), a);
    forall x ensures InCover(Insert(Insert(rs, a), b), x) <==> InCover(Insert(Insert(rs, b), a), x) {
      InsertCover(rs, a, x);
      InsertCover(rs, b, x);
      InsertCover(Insert(rs, a), b, x);
      InsertCover(Insert(rs, b), a, x);
    }
    CanonicalUnique(Insert(Insert(rs, a), b), Insert(Insert(rs, b), a));
  }

  /** `add` applied to each range in turn, starting from an empty list. */
  function InsertAll(ps: seq<Range>): seq<Range>
    decreases |ps|
  {
    if |ps| == 0 then [] else Insert(InsertAll(ps[..|ps| - 1]), ps[|ps| - 1])
  }

  /** Adding ranges one by one covers exactly their union, as a canonical list. */
  lemma {:induction false} InsertAllCover(ps: seq<Range>)
    ensures Canonical(InsertAll(ps))
    ensures forall x :: InCover(InsertAll(ps), x) <==> InCover(ps, x)
    decreases |ps|
  {
    if |ps| > 0 {
      var init := ps[..|ps| - 1];
      InsertAllCover(init);
      InsertCanonical(InsertAll(init), ps[|ps| - 1]);
      forall x ensures InCover(InsertAll(ps), x) <==> InCover(ps, x) {
        InsertCover(InsertAll(init), ps[|ps| - 1], x);
        assert ps == init + [ps[|ps| - 1]];
        InCoverConcat(init, [ps[|ps| - 1]], x);
        InCoverSingle(ps[|ps| - 1], x);
      }
    }
  }

  /** The order in which ranges are added does not matter. */
  lemma InsertAllPermutation(ps: seq<Range>, qs: seq<Range>)
    requires multiset(ps) == multiset(qs)
    ensures InsertAll(ps) == InsertAll(qs)
  {
    InsertAllCover(ps);
    InsertAllCover(qs);
    forall x ensures InCover(ps, x) <==> InCover(qs, x) {
      if InCover(ps, x) {
        var i :| 0 <= i < |ps| && Contains(ps[i], x);
        assert ps[i] in multiset(qs);
        var j :| 0 <= j < |qs| && qs[j] == ps[i];
      }
      if InCover(qs, x) {
        var i :| 0 <= i < |qs| && Contains(qs[i], x);
        assert qs[i] in multiset(ps);
        var j :| 0 <= j < |ps| && ps[j] == qs[i];
      }
    }
    CanonicalUnique(InsertAll(ps), InsertAll(qs));
  }

  /** Adding one more range to the list built so far. */
  lemma InsertAllSnoc(ps: seq<Range>, p: Range)
    ensures InsertAll(ps + [p]) == Insert(InsertAll(ps), p)
  {
    assert (ps + [p])[..|ps|] == ps;
  }

  /** Adding the ranges of a list that is already canonical, one by one, rebuilds that list. */
  lemma InsertAllCanonical(ps: seq<Range>)
    requires Canonical(ps)
    ensures InsertAll(ps) == ps
  {
    InsertAllCover(ps);
    CanonicalUnique(InsertAll(ps), ps);
  }

  /** A non-empty canonical list starts at the smallest integer it covers. */
  lemma LowestStart(rs: seq<Range>)
    requires Canonical(rs) && |rs| > 0
    ensures InCover(rs, rs[0].start)
    ensures forall x :: InCover(rs, x) ==> rs[0].start <= x
  {
    assert Contains(rs[0], rs[0].start);
    forall x | InCover(rs, x) ensures rs[0].start <= x {
      CanonicalFirst(rs, x);
    }
  }

  /** One merge of the corrected `add`: the front range is absorbed and the union inserted into the rest. */
  lemma MergeStep(s: seq<Range>, m: Range)
    requires |s| > 0 && m.start <= s[0].end + 1 && TryCombine(s[0], m).Some?
    ensures Insert(s, m) == Insert(s[1..], TryCombine(s[0], m).value)
    ensures TryCombine(s[0], m).value.start <= m.start
  {
  }

  /** The merging stops at the first range the new one neither overlaps nor touches; it goes in front. */
  lemma MergeStop(s: seq<Range>, m: Range)
    requires |s| > 0 ==> m.start <= s[0].end + 1 && TryCombine(s[0], m).None?
    ensures Insert(s, m) == [m] + s
  {
  }

  /** The first position whose range, widened by one, reaches the start of `r`; `|rs|` when none does. */
  method FirstReachingIndex(rs: seq<Range>, r: Range) returns (i: nat)
    ensures i <= |rs| && forall k | 0 <= k < i :: rs[k].end + 1 < r.start
    ensures i < |rs| ==> r.start <= rs[i].end + 1
  {
    i := 0;
    while i < |rs| && rs[i].end + 1 < r.start
      invariant 0 <= i <= |rs|
      invariant forall k | 0 <= k < i :: rs[k].end + 1 < r.start
    {
      i := i + 1;
    }
  }

  /**
   * The merging loop of `add` from position `index`: while the range there
   * overlaps or touches the merged range, it is removed and absorbed; the
   * merged range then goes in at `index`.
   */
  method MergeFrom(rs: seq<Range>, index: nat, r: Range) returns (result: seq<Range>)
    requires Canonical(rs) && index < |rs| && r.start <= rs[index].end + 1
    ensures result == rs[..index] + Insert(rs[index..], r)
  {
    var s, merged, i := rs, r, index;
    ghost var prefix := rs[..i];
    ghost var goal := prefix + Insert(rs[i..], r);
    forall k | i <= k < |rs| ensures merged.start <= rs[k].end + 1 {
      if k > i {
        assert rs[i].end + 1 < rs[k].start;
      }
    }
    while i < |s| && TryCombine(s[i], merged).Some?
      invariant i <= |s| && s[..i] == prefix
      invariant forall k | i <= k < |s| :: merged.start <= s[k].end + 1
      invariant goal == prefix + Insert(s[i..], merged)
      decreases |s| - i
    {
      MergeStep(s[i..], merged);
      assert s[i..][1..] == s[i + 1..];
      merged := TryCombine(s[i], merged).value;
      s := s[..i] + s[i + 1..];
    }
    MergeStop(s[i..], merged);
    result := s[..i] + [merged] + s[i..];
    assert result == prefix + ([merged] + s[i..]);
  }

  /**
   * `SortedRangeList`: a list of ranges that `add` keeps sorted by start,
   * with neighbours neither overlapping nor touching.
   */
  class SortedRangeList {
    var ranges: seq<Range>

    ghost predicate Valid()
      reads this
    {
      Canonical(ranges)
    }

    constructor ()
      ensures Valid() && ranges == []
    {
      ranges := [];
    }

    /**
     * `add`, with the combined range re-tested against each following range
     * (the source tests only the first one; see README).
     */
    method Add(rangeToAdd: Range)
      requires Valid()
      modifies this
      ensures Valid()
      ensures ranges == Insert(old(ranges), rangeToAdd)
    {
      var rs := ranges;
      var i := FirstReachingIndex(rs, rangeToAdd);
      InsertSkipsPrefix(rs[..i], rs[i..], rangeToAdd);
      assert rs == rs[..i] + rs[i..];
      InsertCanonical(rs, rangeToAdd);
      if i == |rs| {
        InsertAppends(rs, rangeToAdd);
        ranges := rs + [rangeToAdd];
        return;
      }
      ranges := MergeFrom(rs, i, rangeToAdd);
    }
  }
}
