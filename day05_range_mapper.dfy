/**
 * Day 5, part 2 (day_5/solution_part_2.py): the shift rules of one almanac
 * stage applied to whole ranges of integers at once, the chain of stages,
 * and the lowest location reached from the seed ranges.
 *
 * The sweep `Map` is the corrected `RangeMapper.map`: it is proved to cover
 * exactly the integers the point-wise lookup of part 1 produces (see
 * README, Findings, for how the source's loops differ).
 */
module RangeMapping {
  import opened Wrappers
  import opened Text
  import opened Ranges
  import SeedMaps

  /** `MapFunc`: integers inside `validInputRange` are moved by `delta`. */
  datatype MapFunc = MapFunc(validInputRange: Range, delta: int)

  /** `RangeMapper`: the rules of one stage; the sweep needs them sorted by start. */
  datatype RangeMapper = RangeMapper(sortedMapFuncs: seq<MapFunc>)

  /**
   * `MapFunc.map`: the part of `source` inside the rule, shifted by `delta`.
   * With no overlap the source builds a `Range` whose start exceeds its end,
   * which raises: `None`.
   */
  function MapRange(f: MapFunc, source: Range): (r: Option<Range>)
    ensures r.Some? <==> f.validInputRange.start <= source.end && source.start <= f.validInputRange.end
    ensures r.Some? ==> forall y :: Contains(r.value, y) <==>
              Contains(f.validInputRange, y - f.delta) && Contains(source, y - f.delta)
  {
    MakeRange(Max(f.validInputRange.start, source.start) + f.delta, Min(f.validInputRange.end, source.end) + f.delta)
  }

  /**
   * `MapFunc.from_line`: `"dst src len"` gives the valid range
   * `[src, src + len - 1]` and `delta = dst - src`; a length below 1 makes
   * the `Range` check raise.
   */
  function MapFuncFromLine(line: string): Option<MapFunc> {
    var parts := SplitOn(line, " ");
    if |parts| != 3 then None
    else
      var numbers := ParseInts(parts);
      if numbers.None? then None
      else
        var dst, src, rng := numbers.value[0], numbers.value[1], numbers.value[2];
        var valid := MakeRange(src, src + rng - 1);
        if valid.None? then None else Some(MapFunc(valid.value, dst - src))
  }

  /** The part-1 rule read from the same line, as a shift rule; only defined for a non-empty rule. */
  function FromRangeMap(m: SeedMaps.RangeMap): (f: MapFunc)
    requires m.length >= 1
    ensures forall x :: Contains(f.validInputRange, x) <==> SeedMaps.Covers(m, x)
  {
    MapFunc(Interval(m.sourceStart, m.sourceStart + m.length - 1), SeedMaps.Delta(m))
  }

  /**
   * Part 1 and part 2 read a rule line alike: the line is a shift rule
   * exactly when it is a part-1 rule of length at least 1, and then both
   * send every integer to the same place.
   */
  lemma MapFuncFromLineAgrees(line: string, x: int)
    ensures MapFuncFromLine(line).Some? <==>
              SeedMaps.FromLine(line).Some? && SeedMaps.FromLine(line).value.length >= 1
    ensures MapFuncFromLine(line).Some? ==>
              var f, m := MapFuncFromLine(line).value, SeedMaps.FromLine(line).value;
              f == FromRangeMap(m) &&
              SeedMaps.TryGetDestination(m, x) == (if Contains(f.validInputRange, x) then Some(x + f.delta) else None)
  {
  }

  /** A rule line written as destination, source, length reads back as its rule. */
  lemma MapFuncFromLineShow(f: MapFunc)
    ensures MapFuncFromLine(SeedMaps.ShowLine(
              SeedMaps.RangeMap(f.validInputRange.start + f.delta, f.validInputRange.start, Length(f.validInputRange))))
            == Some(f)
  {
    var m := SeedMaps.RangeMap(f.validInputRange.start + f.delta, f.validInputRange.start, Length(f.validInputRange));
    SeedMaps.FromLineShow(m);
    MapFuncFromLineAgrees(SeedMaps.ShowLine(m), 0);
  }

  /**
   * The point-wise meaning of a rule list: the first rule that holds `x`
   * shifts it; with none, `x` is unchanged.
   */
  function MapPoint(rules: seq<MapFunc>, x: int): int {
    if |rules| == 0 then x
    else if Contains(rules[0].validInputRange, x) then x + rules[0].delta
    else MapPoint(rules[1..], x)
  }

  function FromRangeMaps(ms: seq<SeedMaps.RangeMap>): (rules: seq<MapFunc>)
    requires forall i | 0 <= i < |ms| :: ms[i].length >= 1
    ensures |rules| == |ms| && forall i | 0 <= i < |ms| :: rules[i] == FromRangeMap(ms[i])
  {
    if |ms| == 0 then [] else [FromRangeMap(ms[0])] + FromRangeMaps(ms[1..])
  }

  /** On the same rules in the same order, the point map is part 1's `find_destination`. */
  lemma {:induction false} MapPointIsFindDestination(ms: seq<SeedMaps.RangeMap>, x: int)
    requires forall i | 0 <= i < |ms| :: ms[i].length >= 1
    ensures MapPoint(FromRangeMaps(ms), x) == SeedMaps.FindDestination(ms, x)
    decreases |ms|
  {
    if |ms| > 0 {
      MapPointIsFindDestination(ms[1..], x);
      assert FromRangeMaps(ms)[1..] == FromRangeMaps(ms[1..]);
    }
  }

  ghost predicate SortedByStart(rules: seq<MapFunc>) {
    forall i, j | 0 <= i < j < |rules| :: rules[i].validInputRange.start <= rules[j].validInputRange.start
  }

  /** No integer lies in two rules of the list. */
  ghost predicate Disjoint(rules: seq<MapFunc>) {
    forall i, j | 0 <= i < j < |rules| ::
      rules[i].validInputRange.end < rules[j].validInputRange.start ||
      rules[j].validInputRange.end < rules[i].validInputRange.start
  }

  /** With rules that do not overlap, the rule holding `x` decides, whatever its position. */
  lemma {:induction false} MapPointDisjoint(rules: seq<MapFunc>, x: int)
    requires Disjoint(rules)
    ensures forall i | 0 <= i < |rules| && Contains(rules[i].validInputRange, x) :: MapPoint(rules, x) == x + rules[i].delta
    ensures (forall i | 0 <= i < |rules| :: !Contains(rules[i].validInputRange, x)) ==> MapPoint(rules, x) == x
    decreases |rules|
  {
    if |rules| > 0 {
      MapPointDisjoint(rules[1..], x);
      forall i | 1 <= i < |rules| && Contains(rules[i].validInputRange, x)
        ensures MapPoint(rules, x) == x + rules[i].delta
      {
        assert rules[1..][i - 1] == rules[i];
      }
    }
  }

  /** Reordering rules that do not overlap leaves the point map unchanged. */
  lemma PermutedDisjointRules(rules: seq<MapFunc>, reordered: seq<MapFunc>, x: int)
    requires Disjoint(rules) && multiset(rules) == multiset(reordered)
    ensures MapPoint(reordered, x) == MapPoint(rules, x)
  {
    MapPointDisjoint(rules, x);
    if i :| 0 <= i < |reordered| && Contains(reordered[i].validInputRange, x) {
      FirstHolder(reordered, i, x);
      var k :| 0 <= k < |reordered| && Contains(reordered[k].validInputRange, x) && MapPoint(reordered, x) == x + reordered[k].delta;
      assert reordered[k] in multiset(rules);
      var j :| 0 <= j < |rules| && rules[j] == reordered[k];
    } else {
      forall j | 0 <= j < |rules| ensures !Contains(rules[j].validInputRange, x) {
        assert rules[j] in multiset(reordered);
      }
      NoHolder(reordered, x);
    }
  }

  /** Some rule holds `x`: then the point map applies one of the rules that hold it. */
  lemma {:induction false} FirstHolder(rules: seq<MapFunc>, i: int, x: int)
    requires 0 <= i < |rules| && Contains(rules[i].validInputRange, x)
    ensures exists k | 0 <= k < |rules| :: Contains(rules[k].validInputRange, x) && MapPoint(rules, x) == x + rules[k].delta
    decreases |rules|
  {
    if !Contains(rules[0].validInputRange, x) {
      FirstHolder(rules[1..], i - 1, x);
      var k :| 0 <= k < |rules[1..]| && Contains(rules[1..][k].validInputRange, x) && MapPoint(rules[1..], x) == x + rules[1..][k].delta;
      assert rules[k + 1] == rules[1..][k];
    }
  }

  lemma {:induction false} NoHolder(rules: seq<MapFunc>, x: int)
    requires forall i | 0 <= i < |rules| :: !Contains(rules[i].validInputRange, x)
    ensures MapPoint(rules, x) == x
    decreases |rules|
  {
    if |rules| > 0 {
      NoHolder(rules[1..], x);
    }
  }

  /** No rule of a list sorted by start holds an integer below its first start. */
  lemma {:induction false} BelowAllRules(rules: seq<MapFunc>, x: int)
    requires SortedByStart(rules) && |rules| > 0 && x < rules[0].validInputRange.start
    ensures MapPoint(rules, x) == x
    decreases |rules|
  {
    if |rules| > 1 {
      BelowAllRules(rules[1..], x);
    }
  }

  /**
   * A range that meets a rule: its part below the rule, unchanged, then the
   * overlap, shifted.
   */
  function CutPieces(f: MapFunc, r: Range): (ps: seq<Range>)
    requires f.validInputRange.start <= r.end && r.start <= f.validInputRange.end
    ensures |ps| > 0
  {
    var v := f.validInputRange;
    (if r.start < v.start then [Interval(r.start, v.start - 1)] else []) +
    [Interval(Max(r.start, v.start) + f.delta, Min(r.end, v.end) + f.delta)]
  }

  /**
   * The sweep of one source range through rules sorted by start: the part
   * below the first rule passes unchanged, the overlap is shifted, and the
   * part above is swept through the remaining rules.
   */
  function Pieces(rules: seq<MapFunc>, r: Range): seq<Range>
    decreases |rules|
  {
    if |rules| == 0 then [r]
    else
      var v := rules[0].validInputRange;
      if r.end < v.start then [r]
      else if v.end < r.start then Pieces(rules[1..], r)
      else CutPieces(rules[0], r) + (if v.end < r.end then Pieces(rules[1..], Interval(v.end + 1, r.end)) else [])
  }

  /** The integers an image of `S` holds: those `MapPoint` produces from an integer of `S`. */
  ghost predicate InImage(rules: seq<MapFunc>, rs: seq<Range>, y: int) {
    exists x :: InCover(rs, x) && MapPoint(rules, x) == y
  }

  /** Every integer of the source range reaches the pieces at its point-wise image. */
  lemma {:induction false} PiecesComplete(rules: seq<MapFunc>, r: Range, x: int)
    requires SortedByStart(rules) && Contains(r, x)
    ensures InCover(Pieces(rules, r), MapPoint(rules, x))
    decreases |rules|
  {
    var ps := Pieces(rules, r);
    if |rules| == 0 {
      InCoverSingle(r, x);
    } else {
      var v, d := rules[0].validInputRange, rules[0].delta;
      if r.end < v.start {
        BelowAllRules(rules, x);
        InCoverSingle(r, x);
      } else if v.end < r.start {
        PiecesComplete(rules[1..], r, x);
      } else {
        var below := if r.start < v.start then [Interval(r.start, v.start - 1)] else [];
        var mid: Range := Interval(Max(r.start, v.start) + d, Min(r.end, v.end) + d);
        var above := if v.end < r.end then Pieces(rules[1..], Interval(v.end + 1, r.end)) else [];
        assert CutPieces(rules[0], r) == below + [mid];
        assert ps == below + [mid] + above;
        InCoverConcat(below + [mid], above, MapPoint(rules, x));
        InCoverConcat(below, [mid], MapPoint(rules, x));
        if x < v.start {
          BelowAllRules(rules, x);
          InCoverSingle(Interval(r.start, v.start - 1), x);
        } else if x <= v.end {
          InCoverSingle(mid, x + d);
        } else {
          PiecesComplete(rules[1..], Interval(v.end + 1, r.end), x);
        }
      }
    }
  }

  /** Every integer of the pieces is the point-wise image of an integer of the source range. */
  lemma {:induction false} PiecesSound(rules: seq<MapFunc>, r: Range, y: int)
    requires SortedByStart(rules) && InCover(Pieces(rules, r), y)
    ensures exists x :: Contains(r, x) && MapPoint(rules, x) == y
    decreases |rules|
  {
    var ps := Pieces(rules, r);
    if |rules| == 0 {
      InCoverSingle(r, y);
      assert MapPoint(rules, y) == y;
    } else {
      var v, d := rules[0].validInputRange, rules[0].delta;
      if r.end < v.start {
        InCoverSingle(r, y);
        BelowAllRules(rules, y);
      } else if v.end < r.start {
        PiecesSound(rules[1..], r, y);
        var x :| Contains(r, x) && MapPoint(rules[1..], x) == y;
        assert !Contains(v, x);
      } else {
        var below := if r.start < v.start then [Interval(r.start, v.start - 1)] else [];
        var mid: Range := Interval(Max(r.start, v.start) + d, Min(r.end, v.end) + d);
        var above := if v.end < r.end then Pieces(rules[1..], Interval(v.end + 1, r.end)) else [];
        assert CutPieces(rules[0], r) == below + [mid];
        assert ps == below + [mid] + above;
        InCoverConcat(below + [mid], above, y);
        InCoverConcat(below, [mid], y);
        InCoverSingle(mid, y);
        if InCover(below, y) {
          InCoverSingle(Interval(r.start, v.start - 1), y);
          BelowAllRules(rules, y);
        } else if Contains(mid, y) {
          assert Contains(r, y - d) && Contains(v, y - d);
          assert MapPoint(rules, y - d) == y;
        } else {
          PiecesSound(rules[1..], Interval(v.end + 1, r.end), y);
          var x :| v.end + 1 <= x <= r.end && MapPoint(rules[1..], x) == y;
          assert !Contains(v, x) && Contains(r, x);
          assert MapPoint(rules, x) == y;
        }
      }
    }
  }

  /** The pieces hold as many integers, counted with repetition, as the source range. */
  lemma {:induction false} PiecesLength(rules: seq<MapFunc>, r: Range)
    ensures TotalLength(Pieces(rules, r)) == Length(r)
    decreases |rules|
  {
    if |rules| > 0 {
      var v := rules[0].validInputRange;
      if r.end < v.start {
        assert TotalLength([r]) == Length(r);
      } else if v.end < r.start {
        PiecesLength(rules[1..], r);
      } else {
        var cut := CutPieces(rules[0], r);
        CutLength(rules[0], r);
        if v.end < r.end {
          var rest := Interval(v.end + 1, r.end);
          PiecesLength(rules[1..], rest);
          assert Pieces(rules, r) == cut + Pieces(rules[1..], rest);
          TotalLengthConcat(cut, Pieces(rules[1..], rest));
        } else {
          assert Pieces(rules, r) == cut + [];
          assert cut + [] == cut;
        }
      }
    }
  }

  /** The pieces a rule cuts from a range it meets cover the range up to the rule's end. */
  lemma CutLength(f: MapFunc, r: Range)
    requires f.validInputRange.start <= r.end && r.start <= f.validInputRange.end
    ensures TotalLength(CutPieces(f, r)) == Min(r.end, f.validInputRange.end) - r.start + 1
  {
    var v, d := f.validInputRange, f.delta;
    var below: seq<Range> := if r.start < v.start then [Interval(r.start, v.start - 1)] else [];
    var mid: Range := Interval(Max(r.start, v.start) + d, Min(r.end, v.end) + d);
    assert CutPieces(f, r) == below + [mid];
    TotalLengthConcat(below, [mid]);
    assert TotalLength(below) == (if r.start < v.start then v.start - r.start else 0);
    assert TotalLength([mid]) == Min(r.end, v.end) - Max(r.start, v.start) + 1;
  }

  /** A range that no rule overlaps comes through unchanged. */
  lemma {:induction false} PiecesUntouched(rules: seq<MapFunc>, r: Range)
    requires forall i | 0 <= i < |rules| ::
               r.end < rules[i].validInputRange.start || rules[i].validInputRange.end < r.start
    ensures Pieces(rules, r) == [r]
    decreases |rules|
  {
    if |rules| > 0 && rules[0].validInputRange.end < r.start {
      PiecesUntouched(rules[1..], r);
    }
  }

  /** Rules that end below the source range are passed over; the sweep starts after them. */
  lemma {:induction false} PiecesSkip(rules: seq<MapFunc>, k: nat, r: Range)
    requires k <= |rules|
    requires forall j | 0 <= j < k :: rules[j].validInputRange.end < r.start
    ensures Pieces(rules, r) == Pieces(rules[k..], r)
    decreases k
  {
    if k > 0 {
      assert rules[1..][k - 1..] == rules[k..];
      PiecesSkip(rules[1..], k - 1, r);
    }
  }

  /** The pieces of every source range, range after range. */
  function AllPieces(rules: seq<MapFunc>, sources: seq<Range>): seq<Range>
    decreases |sources|
  {
    if |sources| == 0 then []
    else AllPieces(rules, sources[..|sources| - 1]) + Pieces(rules, sources[|sources| - 1])
  }

  /** `RangeMapper.map` on values: every piece added to a fresh `SortedRangeList`. */
  function MapAll(rules: seq<MapFunc>, sources: seq<Range>): seq<Range> {
    InsertAll(AllPieces(rules, sources))
  }

  lemma {:induction false} AllPiecesCover(rules: seq<MapFunc>, sources: seq<Range>, y: int)
    requires SortedByStart(rules)
    ensures InCover(AllPieces(rules, sources), y) <==> InImage(rules, sources, y)
    decreases |sources|
  {
    if |sources| > 0 {
      var init, last := sources[..|sources| - 1], sources[|sources| - 1];
      AllPiecesCover(rules, init, y);
      InCoverConcat(AllPieces(rules, init), Pieces(rules, last), y);
      assert sources == init + [last];
      if InCover(Pieces(rules, last), y) {
        PiecesSound(rules, last, y);
        var x :| Contains(last, x) && MapPoint(rules, x) == y;
        InCoverConcat(init, [last], x);
        InCoverSingle(last, x);
      }
      if InImage(rules, init, y) {
        var x :| InCover(init, x) && MapPoint(rules, x) == y;
        InCoverConcat(init, [last], x);
      }
      if InImage(rules, sources, y) {
        var x :| InCover(sources, x) && MapPoint(rules, x) == y;
        InCoverConcat(init, [last], x);
        InCoverSingle(last, x);
        if Contains(last, x) {
          PiecesComplete(rules, last, x);
        }
      }
    }
  }

  /**
   * The corrected `RangeMapper.map` covers exactly the point-wise image of
   * its input, as a sorted list of ranges that neither overlap nor touch.
   */
  lemma MapAllCover(rules: seq<MapFunc>, sources: seq<Range>)
    requires SortedByStart(rules)
    ensures Canonical(MapAll(rules, sources))
    ensures forall y :: InCover(MapAll(rules, sources), y) <==> InImage(rules, sources, y)
  {
    InsertAllCover(AllPieces(rules, sources));
    forall y ensures InCover(MapAll(rules, sources), y) <==> InImage(rules, sources, y) {
      AllPiecesCover(rules, sources, y);
    }
  }

  /** Before merging, the pieces hold as many integers as the source ranges. */
  lemma {:induction false} AllPiecesLength(rules: seq<MapFunc>, sources: seq<Range>)
    ensures TotalLength(AllPieces(rules, sources)) == TotalLength(sources)
    decreases |sources|
  {
    if |sources| > 0 {
      var init, last := sources[..|sources| - 1], sources[|sources| - 1];
      AllPiecesLength(rules, init);
      PiecesLength(rules, last);
      TotalLengthConcat(AllPieces(rules, init), Pieces(rules, last));
      assert sources == init + [last];
      TotalLengthConcat(init, [last]);
    }
  }

  /** Source ranges that no rule overlaps come back as they were. */
  lemma MapAllUntouched(rules: seq<MapFunc>, sources: seq<Range>)
    requires Canonical(sources)
    requires forall i, k | 0 <= i < |rules| && 0 <= k < |sources| ::
               sources[k].end < rules[i].validInputRange.start || rules[i].validInputRange.end < sources[k].start
    ensures MapAll(rules, sources) == sources
  {
    AllPiecesUntouched(rules, sources);
    InsertAllCanonical(sources);
  }

  lemma {:induction false} AllPiecesUntouched(rules: seq<MapFunc>, sources: seq<Range>)
    requires forall i, k | 0 <= i < |rules| && 0 <= k < |sources| ::
               sources[k].end < rules[i].validInputRange.start || rules[i].validInputRange.end < sources[k].start
    ensures AllPieces(rules, sources) == sources
    decreases |sources|
  {
    if |sources| > 0 {
      var init, last := sources[..|sources| - 1], sources[|sources| - 1];
      AllPiecesUntouched(rules, init);
      PiecesUntouched(rules, last);
      assert sources == init + [last];
    }
  }

  lemma AllPiecesSnoc(rules: seq<MapFunc>, sources: seq<Range>, i: nat)
    requires i < |sources|
    ensures AllPieces(rules, sources[..i + 1]) == AllPieces(rules, sources[..i]) + Pieces(rules, sources[i])
  {
    assert sources[..i + 1][..i] == sources[..i];
  }

  /** A rule that ends below the range is passed over. */
  lemma PiecesPass(rules: seq<MapFunc>, k: nat, r: Range)
    requires k < |rules| && rules[k].validInputRange.end < r.start
    ensures Pieces(rules[k..], r) == Pieces(rules[k + 1..], r)
  {
    assert rules[k..][1..] == rules[k + 1..];
  }

  /** A range that ends below the rule at the cursor ends the sweep unchanged. */
  lemma PiecesStop(rules: seq<MapFunc>, k: nat, r: Range)
    requires k <= |rules| && (k < |rules| ==> r.end < rules[k].validInputRange.start)
    ensures Pieces(rules[k..], r) == [r]
  {
  }

  /** A range that meets the rule at the cursor: its cut pieces, then the rest above swept on. */
  lemma PiecesCut(rules: seq<MapFunc>, k: nat, r: Range)
    requires k < |rules|
    requires rules[k].validInputRange.start <= r.end && r.start <= rules[k].validInputRange.end
    ensures rules[k].validInputRange.end < r.end ==>
              Pieces(rules[k..], r) == CutPieces(rules[k], r) + Pieces(rules[k + 1..], Interval(rules[k].validInputRange.end + 1, r.end))
    ensures r.end <= rules[k].validInputRange.end ==> Pieces(rules[k..], r) == CutPieces(rules[k], r)
  {
    assert rules[k..][1..] == rules[k + 1..];
  }

  lemma AppendAssoc(a: seq<Range>, b: seq<Range>, c: seq<Range>)
    ensures (a + b) + c == a + (b + c)
  {
  }

  lemma AppendNext(a: seq<Range>, b: seq<Range>, i: nat)
    requires i < |b|
    ensures (a + b[..i]) + [b[i]] == a + b[..i + 1]
  {
    assert b[..i + 1] == b[..i] + [b[i]];
  }

  /** `add` of each piece in turn. */
  method AddAll(destinationRanges: SortedRangeList, pieces: seq<Range>, ghost added: seq<Range>)
    requires destinationRanges.Valid() && destinationRanges.ranges == InsertAll(added)
    modifies destinationRanges
    ensures destinationRanges.Valid() && destinationRanges.ranges == InsertAll(added + pieces)
  {
    ghost var done := added;
    for i := 0 to |pieces|
      invariant done == added + pieces[..i]
      invariant destinationRanges.Valid() && destinationRanges.ranges == InsertAll(done)
    {
      InsertAllSnoc(done, pieces[i]);
      destinationRanges.Add(pieces[i]);
      AppendNext(added, pieces, i);
      done := done + [pieces[i]];
    }
    assert pieces[..|pieces|] == pieces;
  }

  /**
   * One turn of the sweep, at rule cursor `funcIndex`: a rule that ends
   * below what is left of the range is passed; a rule the range meets cuts
   * it, and what lies above the rule is left for the next rule; once no
   * rule meets what is left, it is added unchanged and the range is done.
   */
  method SweepStep(rules: seq<MapFunc>, funcIndex: nat, remaining: Range, destinationRanges: SortedRangeList, ghost added: seq<Range>)
    returns (nextFuncIndex: nat, nextRemaining: Range, done: bool, emitted: seq<Range>)
    requires funcIndex <= |rules| && destinationRanges.Valid() && destinationRanges.ranges == InsertAll(added)
    requires forall j | 0 <= j < funcIndex :: rules[j].validInputRange.end < remaining.start
    modifies destinationRanges
    ensures funcIndex <= nextFuncIndex <= |rules| && (done || funcIndex < nextFuncIndex)
    ensures nextRemaining.end == remaining.end
    ensures forall j | 0 <= j < nextFuncIndex :: rules[j].validInputRange.end < nextRemaining.start
    ensures destinationRanges.Valid() && destinationRanges.ranges == InsertAll(added + emitted)
    ensures Pieces(rules[funcIndex..], remaining) ==
              emitted + (if done then [] else Pieces(rules[nextFuncIndex..], nextRemaining))
  {
    nextFuncIndex, nextRemaining, done := funcIndex, remaining, false;
    if funcIndex == |rules| || remaining.end < rules[funcIndex].validInputRange.start {
      PiecesStop(rules, funcIndex, remaining);
      emitted, done := [remaining], true;
    } else if rules[funcIndex].validInputRange.end < remaining.start {
      PiecesPass(rules, funcIndex, remaining);
      nextFuncIndex := funcIndex + 1;
      emitted := [];
    } else {
      PiecesCut(rules, funcIndex, remaining);
      emitted := CutPieces(rules[funcIndex], remaining);
      var v := rules[funcIndex].validInputRange;
      if v.end < remaining.end {
        nextRemaining := Interval(v.end + 1, remaining.end);
        nextFuncIndex := funcIndex + 1;
      } else {
        done := true;
      }
    }
    AddAll(destinationRanges, emitted, added);
  }

  /**
   * The sweep of one source range from rule cursor `funcIndex` on. The
   * cursor only passes a rule that ends below what is left of the range,
   * so a rule that reaches past this range still meets the next one.
   */
  method Sweep(rules: seq<MapFunc>, funcIndex: nat, source: Range, destinationRanges: SortedRangeList, ghost added: seq<Range>)
    returns (nextFuncIndex: nat)
    requires funcIndex <= |rules| && destinationRanges.Valid() && destinationRanges.ranges == InsertAll(added)
    requires forall j | 0 <= j < funcIndex :: rules[j].validInputRange.end < source.start
    modifies destinationRanges
    ensures funcIndex <= nextFuncIndex <= |rules|
    ensures forall j | 0 <= j < nextFuncIndex :: rules[j].validInputRange.end < source.end
    ensures destinationRanges.Valid()
    ensures destinationRanges.ranges == InsertAll(added + Pieces(rules[funcIndex..], source))
  {
    var remaining: Range := source;
    nextFuncIndex := funcIndex;
    ghost var current: seq<Range> := [];
    assert added + current == added;
    var done := false;
    while !done
      invariant funcIndex <= nextFuncIndex <= |rules|
      invariant remaining.end == source.end
      invariant forall j | 0 <= j < nextFuncIndex :: rules[j].validInputRange.end < remaining.start
      invariant destinationRanges.Valid()
      invariant destinationRanges.ranges == InsertAll(added + current)
      invariant Pieces(rules[funcIndex..], source) ==
                  current + (if done then [] else Pieces(rules[nextFuncIndex..], remaining))
      decreases if done then 0 else 1, |rules| - nextFuncIndex
    {
      var emitted;
      nextFuncIndex, remaining, done, emitted := SweepStep(rules, nextFuncIndex, remaining, destinationRanges, added + current);
      AppendAssoc(added, current, emitted);
      AppendAssoc(current, emitted, if done then [] else Pieces(rules[nextFuncIndex..], remaining));
      current := current + emitted;
    }
    assert current + [] == current;
  }

  /**
   * The corrected `RangeMapper.map`: one cursor over the source ranges and
   * one over the rules, each source range swept from the rule cursor on,
   * every piece added to a fresh `SortedRangeList`.
   */
  method Map(mapper: RangeMapper, sourceRanges: SortedRangeList) returns (destinationRanges: SortedRangeList)
    requires sourceRanges.Valid() && SortedByStart(mapper.sortedMapFuncs)
    ensures fresh(destinationRanges) && destinationRanges.Valid()
    ensures destinationRanges.ranges == MapAll(mapper.sortedMapFuncs, sourceRanges.ranges)
  {
    var rules, sources := mapper.sortedMapFuncs, sourceRanges.ranges;
    destinationRanges := new SortedRangeList();
    ghost var added: seq<Range> := [];
    var sourceIndex, funcIndex := 0, 0;
    while sourceIndex < |sources|
      invariant sourceIndex <= |sources| && funcIndex <= |rules|
      invariant fresh(destinationRanges) && destinationRanges.Valid()
      invariant added == AllPieces(rules, sources[..sourceIndex])
      invariant destinationRanges.ranges == InsertAll(added)
      invariant sourceIndex < |sources| ==>
                  forall j | 0 <= j < funcIndex :: rules[j].validInputRange.end < sources[sourceIndex].start
    {
      PiecesSkip(rules, funcIndex, sources[sourceIndex]);
      funcIndex := Sweep(rules, funcIndex, sources[sourceIndex], destinationRanges, added);
      AllPiecesSnoc(rules, sources, sourceIndex);
      added := added + Pieces(rules, sources[sourceIndex]);
      sourceIndex := sourceIndex + 1;
    }
    assert sources[..sourceIndex] == sources;
  }

  /** Inserts a rule after every rule that starts at or before it: one step of a stable sort by start. */
  function InsertRule(sorted: seq<MapFunc>, f: MapFunc): (r: seq<MapFunc>)
    ensures multiset(r) == multiset(sorted) + multiset{f}
  {
    if |sorted| == 0 then [f]
    else if f.validInputRange.start < sorted[0].validInputRange.start then [f] + sorted
    else
      assert sorted == [sorted[0]] + sorted[1..];
      [sorted[0]] + InsertRule(sorted[1..], f)
  }

  /** Every rule of `InsertRule(sorted, f)` starts at or after the lower of `f`'s start and a bound below all of `sorted`. */
  lemma {:induction false} InsertRuleAbove(sorted: seq<MapFunc>, f: MapFunc, low: int)
    requires forall i | 0 <= i < |sorted| :: low <= sorted[i].validInputRange.start
    requires low <= f.validInputRange.start
    ensures forall i | 0 <= i < |InsertRule(sorted, f)| :: low <= InsertRule(sorted, f)[i].validInputRange.start
    decreases |sorted|
  {
    if |sorted| > 0 && sorted[0].validInputRange.start <= f.validInputRange.start {
      InsertRuleAbove(sorted[1..], f, low);
    }
  }

  lemma {:induction false} InsertRuleSorted(sorted: seq<MapFunc>, f: MapFunc)
    requires SortedByStart(sorted)
    ensures SortedByStart(InsertRule(sorted, f))
    decreases |sorted|
  {
    if |sorted| > 0 && sorted[0].validInputRange.start <= f.validInputRange.start {
      InsertRuleSorted(sorted[1..], f);
      InsertRuleAbove(sorted[1..], f, sorted[0].validInputRange.start);
    }
  }

  /** The rules of a stage sorted by start, ties kept in file order. */
  function SortRules(rules: seq<MapFunc>): (r: seq<MapFunc>)
    ensures SortedByStart(r) && multiset(r) == multiset(rules)
    decreases |rules|
  {
    if |rules| == 0 then []
    else
      assert rules == rules[..|rules| - 1] + [rules[|rules| - 1]];
      InsertRuleSorted(SortRules(rules[..|rules| - 1]), rules[|rules| - 1]);
      InsertRule(SortRules(rules[..|rules| - 1]), rules[|rules| - 1])
  }

  /** Every rule line of a block, each read by `MapFuncFromLine`; `None` as soon as one fails. */
  function ParseMapFuncs(lines: seq<string>): (r: Option<seq<MapFunc>>)
    ensures r.Some? <==> forall i | 0 <= i < |lines| :: MapFuncFromLine(lines[i]).Some?
    ensures r.Some? ==> |r.value| == |lines| && forall i | 0 <= i < |lines| :: MapFuncFromLine(lines[i]) == Some(r.value[i])
  {
    if |lines| == 0 then Some([])
    else
      var head, tail := MapFuncFromLine(lines[0]), ParseMapFuncs(lines[1..]);
      if head.Some? && tail.Some? then Some([head.value] + tail.value)
      else
        assert !head.Some? || !(forall i | 1 <= i < |lines| :: MapFuncFromLine(lines[i]).Some?);
        None
  }

  /**
   * `RangeMapper.from_lines`, corrected: the header line is dropped, every
   * other line read as a rule, and the rules sorted by start, as the sweep
   * needs (the source keeps file order; see README, Findings).
   */
  function RangeMapperFromLines(lines: seq<string>): (r: Option<RangeMapper>)
    ensures r.Some? ==> SortedByStart(r.value.sortedMapFuncs)
  {
    var rules := ParseMapFuncs(if |lines| == 0 then [] else lines[1..]);
    if rules.None? then None else Some(RangeMapper(SortRules(rules.value)))
  }

  /**
   * A block that reads as a stage of part 2 reads as a stage of part 1 too,
   * and when its rules do not overlap both stages send every integer to the
   * same place.
   */
  lemma StageAgrees(lines: seq<string>, x: int)
    requires RangeMapperFromLines(lines).Some?
    requires Disjoint(RangeMapperFromLines(lines).value.sortedMapFuncs)
    ensures SeedMaps.MapperFromLines(lines).Some?
    ensures MapPoint(RangeMapperFromLines(lines).value.sortedMapFuncs, x) ==
            SeedMaps.FindDestination(SeedMaps.MapperFromLines(lines).value.rangeMaps, x)
  {
    var body := if |lines| == 0 then [] else lines[1..];
    var parsed := ParseMapFuncs(body).value;
    forall i | 0 <= i < |body|
      ensures SeedMaps.FromLine(body[i]).Some? && SeedMaps.FromLine(body[i]).value.length >= 1
      ensures parsed[i] == FromRangeMap(SeedMaps.FromLine(body[i]).value)
    {
      MapFuncFromLineAgrees(body[i], x);
    }
    var ms := SeedMaps.ParseRangeMaps(body).value;
    assert parsed == FromRangeMaps(ms);
    PermutedDisjointRules(SortRules(parsed), parsed, x);
    MapPointIsFindDestination(ms, x);
  }

  /** `get_range_mappers` on the blocks of lines, one stage per block. */
  function RangeMappersFromBlocks(blocks: seq<seq<string>>): (r: Option<seq<RangeMapper>>)
    ensures r.Some? <==> forall i | 0 <= i < |blocks| :: RangeMapperFromLines(blocks[i]).Some?
    ensures r.Some? ==> |r.value| == |blocks| && forall i | 0 <= i < |blocks| :: RangeMapperFromLines(blocks[i]) == Some(r.value[i])
  {
    if |blocks| == 0 then Some([])
    else
      var head, tail := RangeMapperFromLines(blocks[0]), RangeMappersFromBlocks(blocks[1..]);
      if head.Some? && tail.Some? then Some([head.value] + tail.value)
      else
        assert !head.Some? || !(forall i | 1 <= i < |blocks| :: RangeMapperFromLines(blocks[i]).Some?);
        None
  }

  ghost predicate AllSorted(mappers: seq<RangeMapper>) {
    forall i | 0 <= i < |mappers| :: SortedByStart(mappers[i].sortedMapFuncs)
  }

  /** `find_location_ranges` on values: each stage maps the previous stage's output. */
  function RunStages(mappers: seq<RangeMapper>, sources: seq<Range>): seq<Range>
    decreases |mappers|
  {
    if |mappers| == 0 then sources
    else MapAll(mappers[|mappers| - 1].sortedMapFuncs, RunStages(mappers[..|mappers| - 1], sources))
  }

  /** The location of one integer after the stages in order. */
  function Locate(mappers: seq<RangeMapper>, x: int): int
    decreases |mappers|
  {
    if |mappers| == 0 then x
    else MapPoint(mappers[|mappers| - 1].sortedMapFuncs, Locate(mappers[..|mappers| - 1], x))
  }

  /**
   * After all stages the ranges cover exactly the locations of the integers
   * the sources cover, as a sorted list of ranges that neither overlap nor
   * touch.
   */
  lemma {:induction false} RunStagesCover(mappers: seq<RangeMapper>, sources: seq<Range>)
    requires AllSorted(mappers) && Canonical(sources)
    ensures Canonical(RunStages(mappers, sources))
    ensures forall y :: InCover(RunStages(mappers, sources), y) <==> exists x :: InCover(sources, x) && Locate(mappers, x) == y
    decreases |mappers|
  {
    if |mappers| > 0 {
      var init, last := mappers[..|mappers| - 1], mappers[|mappers| - 1].sortedMapFuncs;
      var mid := RunStages(init, sources);
      RunStagesCover(init, sources);
      MapAllCover(last, mid);
      forall y ensures InCover(RunStages(mappers, sources), y) <==> exists x :: InCover(sources, x) && Locate(mappers, x) == y {
        if InCover(RunStages(mappers, sources), y) {
          var z :| InCover(mid, z) && MapPoint(last, z) == y;
          var x :| InCover(sources, x) && Locate(init, x) == z;
          assert Locate(mappers, x) == y;
        }
        if exists x :: InCover(sources, x) && Locate(mappers, x) == y {
          var x :| InCover(sources, x) && Locate(mappers, x) == y;
          assert InCover(mid, Locate(init, x));
          assert InImage(last, mid, y);
        }
      }
    } else {
      forall y | InCover(sources, y) ensures exists x :: InCover(sources, x) && Locate(mappers, x) == y {
        assert Locate(mappers, y) == y;
      }
    }
  }

  /**
   * `find_location_ranges`: the seed ranges pushed through every stage in
   * order, each output the next stage's input.
   */
  method FindLocationRanges(seedRangeCollection: SortedRangeList, rangeMappers: seq<RangeMapper>)
    returns (sourceRanges: SortedRangeList)
    requires seedRangeCollection.Valid() && AllSorted(rangeMappers)
    ensures sourceRanges.Valid() && sourceRanges.ranges == RunStages(rangeMappers, seedRangeCollection.ranges)
  {
    sourceRanges := seedRangeCollection;
    for i := 0 to |rangeMappers|
      invariant sourceRanges.Valid()
      invariant sourceRanges.ranges == RunStages(rangeMappers[..i], seedRangeCollection.ranges)
    {
      assert rangeMappers[..i + 1][..i] == rangeMappers[..i];
      sourceRanges := Map(rangeMappers[i], sourceRanges);
    }
    assert rangeMappers[..|rangeMappers|] == rangeMappers;
  }

  /** `final_destination_ranges.sorted_ranges[0].start`; an empty list raises (`None`). */
  function FirstStart(ranges: seq<Range>): Option<int> {
    if |ranges| == 0 then None else Some(ranges[0].start)
  }

  /**
   * The part-2 answer: with at least one seed range it is the lowest
   * location of any integer in the seed ranges; with none it raises.
   */
  lemma FirstStartIsLowest(mappers: seq<RangeMapper>, sources: seq<Range>)
    requires AllSorted(mappers) && Canonical(sources)
    ensures FirstStart(RunStages(mappers, sources)).Some? <==> |sources| > 0
    ensures FirstStart(RunStages(mappers, sources)).Some? ==>
              var lowest := FirstStart(RunStages(mappers, sources)).value;
              (exists x :: InCover(sources, x) && Locate(mappers, x) == lowest) &&
              forall x :: InCover(sources, x) ==> lowest <= Locate(mappers, x)
  {
    var out := RunStages(mappers, sources);
    RunStagesCover(mappers, sources);
    if |sources| > 0 {
      StartCovered(sources);
      assert InCover(out, Locate(mappers, sources[0].start));
    }
    if |out| > 0 {
      LowestStart(out);
      var x :| InCover(sources, x) && Locate(mappers, x) == out[0].start;
      forall x | InCover(sources, x) ensures out[0].start <= Locate(mappers, x) {
        assert InCover(out, Locate(mappers, x));
      }
    }
  }

  /** `get_seed_ranges` on parsed numbers: each pair `(start, length)` as `Range(start, start + length - 1)`. */
  function SeedRangeValues(numbers: seq<int>): (r: Option<seq<Range>>)
    ensures r.Some? ==> |numbers| % 2 == 0
    decreases |numbers|
  {
    if |numbers| % 2 == 1 then None
    else if |numbers| == 0 then Some([])
    else
      var init := SeedRangeValues(numbers[..|numbers| - 2]);
      var last := MakeRange(numbers[|numbers| - 2], numbers[|numbers| - 2] + numbers[|numbers| - 1] - 1);
      if init.None? || last.None? then None else Some(init.value + [last.value])
  }

  /** A failing pair makes the whole seed line fail: every even prefix of a good line is good. */
  lemma {:induction false} SeedRangeValuesPrefix(numbers: seq<int>, i: nat)
    requires SeedRangeValues(numbers).Some? && i % 2 == 0 && i <= |numbers|
    ensures SeedRangeValues(numbers[..i]).Some?
    decreases |numbers|
  {
    if i < |numbers| {
      var init := numbers[..|numbers| - 2];
      assert init[..i] == numbers[..i];
      SeedRangeValuesPrefix(init, i);
    } else {
      assert numbers[..i] == numbers;
    }
  }

  /** A pair whose length is below 1 makes the whole seed line fail. */
  lemma SeedRangeValuesBadPair(numbers: seq<int>, i: nat)
    requires i % 2 == 0 && i + 1 < |numbers| && numbers[i + 1] < 1
    ensures SeedRangeValues(numbers).None?
  {
    if SeedRangeValues(numbers).Some? {
      SeedRangeValuesPrefix(numbers, i + 2);
    }
  }

  /** One more good pair extends the ranges read so far by one range. */
  lemma SeedRangeValuesStep(numbers: seq<int>, i: nat, values: seq<Range>, r: Range)
    requires i % 2 == 0 && i + 1 < |numbers| && numbers[i + 1] >= 1
    requires SeedRangeValues(numbers[..i]) == Some(values)
    requires r == Interval(numbers[i], numbers[i] + numbers[i + 1] - 1)
    ensures SeedRangeValues(numbers[..i + 2]) == Some(values + [r])
  {
    assert numbers[..i + 2][..i] == numbers[..i];
  }

  /** The seed ranges cover exactly the seeds part 1 expands the same numbers into. */
  lemma {:induction false} SeedRangeValuesCover(numbers: seq<int>, x: int)
    requires SeedRangeValues(numbers).Some?
    ensures InCover(SeedRangeValues(numbers).value, x) <==> x in SeedMaps.Expand(numbers)
    decreases |numbers|
  {
    if |numbers| > 0 {
      var init := numbers[..|numbers| - 2];
      var rs := SeedRangeValues(init).value;
      var start, length := numbers[|numbers| - 2], numbers[|numbers| - 1];
      var last: Range := Interval(start, start + length - 1);
      SeedRangeValuesCover(init, x);
      InCoverConcat(rs, [last], x);
      InCoverSingle(last, x);
      var span := SeedMaps.Span(start, length);
      if Contains(last, x) {
        assert span[x - start] == x;
      }
    }
  }

  /**
   * The loop of `get_seed_ranges`: every pair of numbers becomes a range,
   * added to a fresh `SortedRangeList`; `None` when a start has no length
   * after it or a length is below 1 (the source's `Range` raises).
   */
  method RangesFromPairs(numbers: seq<int>) returns (seedRanges: Option<SortedRangeList>)
    ensures seedRanges.Some? <==> SeedRangeValues(numbers).Some?
    ensures seedRanges.Some? ==>
              fresh(seedRanges.value) && seedRanges.value.Valid() &&
              seedRanges.value.ranges == InsertAll(SeedRangeValues(numbers).value)
  {
    var list := new SortedRangeList();
    ghost var values: seq<Range> := [];
    var i := 0;
    while i + 1 < |numbers| && numbers[i + 1] >= 1
      invariant 0 <= i <= |numbers| && i % 2 == 0
      invariant fresh(list) && list.Valid()
      invariant SeedRangeValues(numbers[..i]) == Some(values)
      invariant list.ranges == InsertAll(values)
    {
      var start, length := numbers[i], numbers[i + 1];
      var r: Range := Interval(start, start + length - 1);
      SeedRangeValuesStep(numbers, i, values, r);
      InsertAllSnoc(values, r);
      list.Add(r);
      values := values + [r];
      i := i + 2;
    }
    if i == |numbers| {
      assert numbers[..i] == numbers;
      return Some(list);
    }
    if i + 1 < |numbers| {
      SeedRangeValuesBadPair(numbers, i);
    }
    return None;
  }

  /** `get_seed_ranges`: the numbers after "seeds: " read as pairs `(start, length)`. */
  method GetSeedRanges(seedsStr: string) returns (seedRanges: Option<SortedRangeList>)
    ensures seedRanges.Some? <==>
              SeedMaps.GetSeedsPart1(seedsStr).Some? && SeedRangeValues(SeedMaps.GetSeedsPart1(seedsStr).value).Some?
    ensures seedRanges.Some? ==>
              fresh(seedRanges.value) && seedRanges.value.Valid() &&
              seedRanges.value.ranges == InsertAll(SeedRangeValues(SeedMaps.GetSeedsPart1(seedsStr).value).value)
  {
    var parsed := SeedMaps.GetSeedsPart1(seedsStr);
    if parsed.None? {
      return None;
    }
    seedRanges := RangesFromPairs(parsed.value);
  }

  /** Stages that send every integer where part 1's mappers do locate every integer where part 1 does. */
  lemma {:induction false} LocateAgrees(rms: seq<RangeMapper>, ms: seq<SeedMaps.Mapper>, x: int)
    requires |rms| == |ms|
    requires forall k, y | 0 <= k < |rms| :: MapPoint(rms[k].sortedMapFuncs, y) == SeedMaps.FindDestination(ms[k].rangeMaps, y)
    ensures Locate(rms, x) == SeedMaps.LocationOf(ms, x)
    decreases |rms|
  {
    if |rms| > 0 {
      LocateAgrees(rms[..|rms| - 1], ms[..|ms| - 1], x);
    }
  }

  /**
   * Read from the same blocks, the stages of part 2 locate every integer
   * where part 1's mappers do, provided no stage has overlapping rules.
   */
  lemma LocateIsLocationOf(blocks: seq<seq<string>>, x: int)
    requires RangeMappersFromBlocks(blocks).Some?
    requires forall k | 0 <= k < |blocks| :: Disjoint(RangeMappersFromBlocks(blocks).value[k].sortedMapFuncs)
    ensures SeedMaps.MappersFromBlocks(blocks).Some?
    ensures Locate(RangeMappersFromBlocks(blocks).value, x) == SeedMaps.LocationOf(SeedMaps.MappersFromBlocks(blocks).value, x)
  {
    var rms := RangeMappersFromBlocks(blocks).value;
    forall k | 0 <= k < |blocks| ensures SeedMaps.MapperFromLines(blocks[k]).Some? {
      StageAgrees(blocks[k], x);
    }
    var ms := SeedMaps.MappersFromBlocks(blocks).value;
    forall k, y | 0 <= k < |rms| ensures MapPoint(rms[k].sortedMapFuncs, y) == SeedMaps.FindDestination(ms[k].rangeMaps, y) {
      StageAgrees(blocks[k], y);
    }
    LocateAgrees(rms, ms, x);
  }

  /** Two lowest values of the same set of locations are equal. */
  lemma SameLowest(rms: seq<RangeMapper>, ms: seq<SeedMaps.Mapper>, sources: seq<Range>, seeds: seq<int>, a: int, b: int)
    requires forall x :: Locate(rms, x) == SeedMaps.LocationOf(ms, x)
    requires forall x :: InCover(sources, x) <==> x in seeds
    requires exists x :: InCover(sources, x) && Locate(rms, x) == a
    requires forall x :: InCover(sources, x) ==> a <= Locate(rms, x)
    requires exists seed | seed in seeds :: SeedMaps.LocationOf(ms, seed) == b
    requires forall seed | seed in seeds :: b <= SeedMaps.LocationOf(ms, seed)
    ensures a == b
  {
    var x :| InCover(sources, x) && Locate(rms, x) == a;
    assert b <= SeedMaps.LocationOf(ms, x);
    var seed :| seed in seeds && SeedMaps.LocationOf(ms, seed) == b;
    assert a <= Locate(rms, seed);
  }

  /**
   * Ranges covering exactly a list of seeds, pushed through stages that
   * locate every integer as part 1's mappers do, start at part 1's minimum.
   */
  lemma MinimaAgree(rms: seq<RangeMapper>, ms: seq<SeedMaps.Mapper>, sources: seq<Range>, seeds: seq<int>)
    requires AllSorted(rms) && Canonical(sources)
    requires forall x :: Locate(rms, x) == SeedMaps.LocationOf(ms, x)
    requires forall x :: InCover(sources, x) <==> x in seeds
    ensures FirstStart(RunStages(rms, sources)) == SeedMaps.LowestLocation(seeds, ms)
  {
    FirstStartIsLowest(rms, sources);
    var answer := FirstStart(RunStages(rms, sources));
    var expected := SeedMaps.LowestLocation(seeds, ms);
    if |sources| > 0 {
      StartCovered(sources);
      assert sources[0].start in seeds;
    }
    if |seeds| > 0 {
      assert InCover(sources, seeds[0]);
    }
    if answer.Some? {
      SameLowest(rms, ms, sources, seeds, answer.value, expected.value);
    }
  }

  /** When two pipelines locate every integer alike, the lowest location of the seed ranges is part 1's minimum. */
  lemma LowestAgrees(rms: seq<RangeMapper>, ms: seq<SeedMaps.Mapper>, numbers: seq<int>)
    requires SeedRangeValues(numbers).Some? && AllSorted(rms)
    requires forall x :: Locate(rms, x) == SeedMaps.LocationOf(ms, x)
    ensures FirstStart(RunStages(rms, InsertAll(SeedRangeValues(numbers).value))) ==
            SeedMaps.LowestLocation(SeedMaps.Expand(numbers), ms)
  {
    var rs := SeedRangeValues(numbers).value;
    InsertAllCover(rs);
    forall x ensures InCover(InsertAll(rs), x) <==> x in SeedMaps.Expand(numbers) {
      SeedRangeValuesCover(numbers, x);
    }
    MinimaAgree(rms, ms, InsertAll(rs), SeedMaps.Expand(numbers));
  }

  /**
   * The range pipeline answers part 2 as part 1 would on the expanded
   * seeds: the first start after all stages is the lowest location of any
   * seed `get_seeds_part_2` lists, and both fail when there are no seeds.
   */
  lemma Part2IsLowestOfPart1(numbers: seq<int>, blocks: seq<seq<string>>)
    requires SeedRangeValues(numbers).Some? && RangeMappersFromBlocks(blocks).Some?
    requires forall k | 0 <= k < |blocks| :: Disjoint(RangeMappersFromBlocks(blocks).value[k].sortedMapFuncs)
    ensures SeedMaps.MappersFromBlocks(blocks).Some?
    ensures FirstStart(RunStages(RangeMappersFromBlocks(blocks).value, InsertAll(SeedRangeValues(numbers).value))) ==
            SeedMaps.LowestLocation(SeedMaps.Expand(numbers), SeedMaps.MappersFromBlocks(blocks).value)
  {
    var rms := RangeMappersFromBlocks(blocks).value;
    LocateIsLocationOf(blocks, 0);
    var ms := SeedMaps.MappersFromBlocks(blocks).value;
    forall x ensures Locate(rms, x) == SeedMaps.LocationOf(ms, x) {
      LocateIsLocationOf(blocks, x);
    }
    LowestAgrees(rms, ms, numbers);
  }
}
