/**
 * The day-5 interval code exactly as its loops are written, kept beside the
 * corrected model so that each defect can be shown on a concrete input:
 * `SortedRangeList.add` merges once and then deletes every other range,
 * `RangeMapper.map` never moves to the next rule and calls `MapFunc.map`
 * on ranges it does not overlap, and `RangeMapper.from_lines` keeps the
 * rules in file order although `map` walks them as if sorted.
 */
module RangesAsWritten {
  import opened Wrappers
  import opened Ranges
  import opened RangeMapping
  import SeedMaps

  // ---- SortedRangeList.add --------------------------------------------------

  /** The generator in `add`: the first range whose `end + 1` reaches the new range's start. */
  function FirstReaching(sorted: seq<Range>, r: Range): (i: Option<nat>)
    ensures i.None? <==> forall k | 0 <= k < |sorted| :: sorted[k].end + 1 < r.start
    ensures i.Some? ==> i.value < |sorted| && sorted[i.value].end + 1 >= r.start &&
                        forall k | 0 <= k < i.value :: sorted[k].end + 1 < r.start
  {
    if |sorted| == 0 then None
    else if sorted[0].end + 1 >= r.start then Some(0)
    else
      var rest := FirstReaching(sorted[1..], r);
      if rest.None? then None else Some(rest.value + 1)
  }

  /** Python's `list.index(x)`: the first position holding a value equal to `x`. */
  function IndexOf(s: seq<Range>, x: Range): (i: nat)
    requires x in s
    ensures i < |s| && s[i] == x && forall k | 0 <= k < i :: s[k] != x
  {
    if s[0] == x then 0 else IndexOf(s[1..], x) + 1
  }

  /** Python's `list.remove(x)`: drops the first value equal to `x`. */
  function RemoveFirst(s: seq<Range>, x: Range): (t: seq<Range>)
    requires x in s
    ensures |t| == |s| - 1
  {
    s[..IndexOf(s, x)] + s[IndexOf(s, x) + 1..]
  }

  /** Python's `list.insert(i, x)`: an index past the end appends. */
  function InsertAt(s: seq<Range>, i: nat, x: Range): (t: seq<Range>)
    ensures |t| == |s| + 1
  {
    if i >= |s| then s + [x] else s[..i] + [x] + s[i..]
  }

  /**
   * The `while combined_range is not None` loop: `combined_range` is never
   * recomputed, so every pass removes the range at the cursor, moves the
   * cursor one further and stops only when it runs off the end; then the
   * one combined range is inserted there.
   */
  function MergeLoop(s: seq<Range>, index: nat, combined: Range): seq<Range>
    requires index < |s|
    decreases |s| - index
  {
    var t := RemoveFirst(s, s[index]);
    if index + 1 >= |t| then InsertAt(t, index + 1, combined)
    else MergeLoop(t, index + 1, combined)
  }

  /** `SortedRangeList.add` as written. */
  function AddAsWritten(sorted: seq<Range>, r: Range): (t: seq<Range>)
    ensures FirstReaching(sorted, r).None? ==> t == sorted + [r]
  {
    var first := FirstReaching(sorted, r);
    if first.None? then sorted + [r]
    else
      var index := IndexOf(sorted, sorted[first.value]);
      var combined := TryCombine(sorted[first.value], r);
      if combined.None? then InsertAt(sorted, index, r)
      else MergeLoop(sorted, index, combined.value)
  }

  /**
   * Where no merge happens the code as written agrees with the corrected
   * `Insert`: a range beyond every `end + 1` is appended, and a range that
   * touches nothing goes in front of the first range that reaches it.
   */
  lemma AddAsWrittenWithoutMerge(sorted: seq<Range>, r: Range)
    requires Canonical(sorted)
    requires FirstReaching(sorted, r).None? || TryCombine(sorted[FirstReaching(sorted, r).value], r).None?
    ensures AddAsWritten(sorted, r) == Insert(sorted, r)
  {
    var first := FirstReaching(sorted, r);
    if first.None? {
      InsertAppends(sorted, r);
    } else {
      CanonicalIndexOf(sorted, first.value);
      InsertBefore(sorted, r, first.value);
    }
  }

  /** In a sorted list without repeats, `list.index` finds each range where it is. */
  lemma CanonicalIndexOf(sorted: seq<Range>, i: nat)
    requires Canonical(sorted) && i < |sorted|
    ensures IndexOf(sorted, sorted[i]) == i
  {
  }

  /** A range below the `i`-th with a gap, and above every earlier one with a gap, is inserted before it. */
  lemma InsertBefore(sorted: seq<Range>, r: Range, i: nat)
    requires i < |sorted| && r.end + 1 < sorted[i].start
    requires forall k | 0 <= k < i :: sorted[k].end + 1 < r.start
    ensures Insert(sorted, r) == InsertAt(sorted, i, r)
  {
    InsertSkipsPrefix(sorted[..i], sorted[i..], r);
    assert sorted == sorted[..i] + sorted[i..];
    assert Insert(sorted[i..], r) == [r] + sorted[i..];
  }

  /**
   * Adding `[3, 3]` to `[1, 2], [10, 12], [20, 22]`: the code as written
   * merges `[1, 3]`, deletes `[20, 22]` instead of stopping, and appends
   * `[1, 3]` at the end, so the list is neither sorted nor a cover of what
   * it held; the corrected `Insert` gives `[1, 3], [10, 12], [20, 22]`.
   */
  lemma AddAsWrittenDropsRanges()
    ensures AddAsWritten([Interval(1, 2), Interval(10, 12), Interval(20, 22)], Interval(3, 3)) ==
            [Interval(10, 12), Interval(1, 3)]
    ensures !Canonical([Interval(10, 12), Interval(1, 3)])
    ensures InCover([Interval(1, 2), Interval(10, 12), Interval(20, 22)], 21)
    ensures !InCover([Interval(10, 12), Interval(1, 3)], 21)
    ensures Insert([Interval(1, 2), Interval(10, 12), Interval(20, 22)], Interval(3, 3)) ==
            [Interval(1, 3), Interval(10, 12), Interval(20, 22)]
  {
    var s := [Interval(1, 2), Interval(10, 12), Interval(20, 22)];
    AddAsWrittenMergeExample();
    assert Contains(s[2], 21);
    InsertMergeExample();
    var out := [Interval(10, 12), Interval(1, 3)];
    assert out[0].end + 1 >= out[1].start;
  }

  /** The steps of `add` as written on the example: merge, then two removals and an append. */
  lemma AddAsWrittenMergeExample()
    ensures AddAsWritten([Interval(1, 2), Interval(10, 12), Interval(20, 22)], Interval(3, 3)) ==
            [Interval(10, 12), Interval(1, 3)]
  {
    var s, r, c := [Interval(1, 2), Interval(10, 12), Interval(20, 22)], Interval(3, 3), Interval(1, 3);
    assert FirstReaching(s, r) == Some(0);
    assert IndexOf(s, s[0]) == 0;
    assert TryCombine(s[0], r) == Some(c);
    assert AddAsWritten(s, r) == MergeLoop(s, 0, c);
    var t := RemoveFirst(s, s[0]);
    assert t == [Interval(10, 12), Interval(20, 22)];
    assert MergeLoop(s, 0, c) == MergeLoop(t, 1, c);
    assert IndexOf(t, t[1]) == 1;
    var u := RemoveFirst(t, t[1]);
    assert u == [Interval(10, 12)];
    assert MergeLoop(t, 1, c) == InsertAt(u, 2, c);
    assert InsertAt(u, 2, c) == [Interval(10, 12), Interval(1, 3)];
  }

  /** The corrected `Insert` on the example merges `[1, 2]` with `[3, 3]` and keeps the rest. */
  lemma InsertMergeExample()
    ensures Insert([Interval(1, 2), Interval(10, 12), Interval(20, 22)], Interval(3, 3)) ==
            [Interval(1, 3), Interval(10, 12), Interval(20, 22)]
  {
    var s := [Interval(1, 2), Interval(10, 12), Interval(20, 22)];
    assert TryCombine(Interval(1, 2), Interval(3, 3)) == Some(Interval(1, 3));
    assert Insert(s[1..], Interval(1, 3)) == [Interval(1, 3)] + s[1..];
  }

  // ---- MapFunc.map ----------------------------------------------------------

  /**
   * `MapFunc.map` is `MapRange`, which has no overlap check: the rule
   * `[5, 10] + 2` applied to `[31, 37]` builds `Range(33, 12)`, which raises.
   */
  lemma MapFuncMapWithoutOverlap()
    ensures Max(5, 31) + 2 == 33 && Min(10, 37) + 2 == 12
    ensures MapRange(MapFunc(Interval(5, 10), 2), Interval(31, 37)).None?
  {
  }

  // ---- RangeMapper.map ------------------------------------------------------

  /** The variables of `RangeMapper.map`'s loops. */
  datatype LoopState = LoopState(sourceIndex: nat, remaining: Range, funcIndex: nat, destination: seq<Range>)

  /** One pass of the outer loop either raises or leaves a new state. */
  datatype Pass = Raised | Next(state: LoopState)

  /** What `map` has done after a number of passes. */
  datatype Outcome = Raises | Returns(ranges: seq<Range>) | StillLooping

  /**
   * The inner `while` (lines 110-114): while the remaining range lies wholly
   * below the current rule and another source range follows, add it and
   * take the next source range.
   */
  function SkipBelow(f: MapFunc, sources: seq<Range>, s: LoopState): (t: LoopState)
    requires s.sourceIndex < |sources|
    ensures t.sourceIndex < |sources| && t.funcIndex == s.funcIndex
    decreases |sources| - s.sourceIndex
  {
    if s.remaining.end < f.validInputRange.start && s.sourceIndex + 1 < |sources| then
      SkipBelow(f, sources, LoopState(s.sourceIndex + 1, sources[s.sourceIndex + 1], s.funcIndex,
                                      AddAsWritten(s.destination, s.remaining)))
    else s
  }

  /**
   * One pass of the outer loop body (lines 110-122), with the rule fixed at
   * `current_map_func`, which the body never reassigns.
   */
  function PassAsWritten(f: MapFunc, sources: seq<Range>, s: LoopState): (p: Pass)
    requires s.sourceIndex < |sources|
    ensures p.Next? ==> p.state.funcIndex == s.funcIndex && p.state.sourceIndex < |sources|
  {
    var t := SkipBelow(f, sources, s);
    var v := f.validInputRange;
    var below := if t.remaining.start < v.start
                 then AddAsWritten(t.destination, Interval(t.remaining.start, v.start - 1))
                 else t.destination;
    var mapped := MapRange(f, t.remaining);
    if mapped.None? then Raised
    else
      var remaining: Range := if t.remaining.end > v.end then Interval(v.end + 1, t.remaining.end) else t.remaining;
      Next(LoopState(t.sourceIndex, remaining, t.funcIndex, AddAsWritten(below, mapped.value)))
  }

  /**
   * The outer `while` for at most `fuel` passes; when it exits, the last
   * remaining range is added. Started before the last rule, it never gets
   * past it, so it never reaches its `return`.
   */
  function RunAsWritten(rules: seq<MapFunc>, sources: seq<Range>, s: LoopState, fuel: nat): (o: Outcome)
    requires |rules| > 0 && s.sourceIndex < |sources|
    ensures s.funcIndex < |rules| ==> !o.Returns?
    decreases fuel
  {
    if s.funcIndex >= |rules| then Returns(AddAsWritten(s.destination, s.remaining))
    else if fuel == 0 then StillLooping
    else
      var pass := PassAsWritten(rules[0], sources, s);
      if pass.Raised? then Raises else RunAsWritten(rules, sources, pass.state, fuel - 1)
  }

  /**
   * `RangeMapper.map` as written, run for `fuel` passes of its outer loop;
   * no source range or no rule raises `IndexError` at lines 103 and 107.
   * However many passes it is given, it never returns: it raises or keeps
   * looping, because the rule index stays at 0.
   */
  function MapAsWritten(rules: seq<MapFunc>, sources: seq<Range>, fuel: nat): (o: Outcome)
    ensures !o.Returns?
  {
    if |sources| == 0 || |rules| == 0 then Raises
    else RunAsWritten(rules, sources, LoopState(0, sources[0], 0, []), fuel)
  }

  /**
   * On `[5, 10]` with the rules of the tests, the second pass repeats the
   * first state exactly: the loop spins forever where the tests expect
   * `[7, 12]`.
   */
  lemma MapAsWrittenSpins()
    ensures PassAsWritten(MapFunc(Interval(5, 10), 2), [Interval(5, 10)], LoopState(0, Interval(5, 10), 0, [])) ==
            Next(LoopState(0, Interval(5, 10), 0, [Interval(7, 12)]))
    ensures PassAsWritten(MapFunc(Interval(5, 10), 2), [Interval(5, 10)], LoopState(0, Interval(5, 10), 0, [Interval(7, 12)])) ==
            Next(LoopState(0, Interval(5, 10), 0, [Interval(7, 12)]))
  {
    var s := [Interval(7, 12)];
    assert FirstReaching(s, Interval(7, 12)) == Some(0);
    assert RemoveFirst(s, s[0]) == [];
    assert MergeLoop(s, 0, Interval(7, 12)) == [Interval(7, 12)];
  }

  /**
   * On `[31, 37]` the first pass applies the rule `[5, 10] + 2` to a range
   * it does not overlap, and `map` raises where the tests expect
   * `[26, 27], [31, 31], [34, 37]`.
   */
  lemma MapAsWrittenRaises()
    ensures MapAsWritten([MapFunc(Interval(5, 10), 2), MapFunc(Interval(15, 20), 7),
                          MapFunc(Interval(25, 30), -1), MapFunc(Interval(32, 33), -6)],
                         [Interval(31, 37)], 1) == Raises
  {
    MapFuncMapWithoutOverlap();
  }

  // ---- RangeMapper.from_lines -----------------------------------------------

  /** `RangeMapper.from_lines` as written: the rules stay in file order. */
  function RangeMapperFromLinesAsWritten(lines: seq<string>): (r: Option<RangeMapper>)
    ensures r.Some? <==> RangeMapperFromLines(lines).Some?
    ensures r.Some? ==> multiset(r.value.sortedMapFuncs) == multiset(RangeMapperFromLines(lines).value.sortedMapFuncs)
  {
    var rules := ParseMapFuncs(if |lines| == 0 then [] else lines[1..]);
    if rules.None? then None else Some(RangeMapper(rules.value))
  }

  /** The line that `RangeMapper.from_lines` reads back as the rule `f`. */
  function RuleLine(f: MapFunc): string {
    SeedMaps.ShowLine(SeedMaps.RangeMap(f.validInputRange.start + f.delta, f.validInputRange.start, Length(f.validInputRange)))
  }

  /** The lines `50 98 2` and `52 50 48` with a header, as the first block of the puzzle's example. */
  function SeedToSoilLines(): seq<string> {
    ["seed-to-soil map:", RuleLine(MapFunc(Interval(98, 99), -48)), RuleLine(MapFunc(Interval(50, 97), 2))]
  }

  /** The two rule lines of the block read as `[98, 99] - 48` and `[50, 97] + 2`, in that order. */
  lemma SeedToSoilParsed()
    ensures ParseMapFuncs(SeedToSoilLines()[1..]) ==
              Some([MapFunc(Interval(98, 99), -48), MapFunc(Interval(50, 97), 2)])
  {
    var a, b := MapFunc(Interval(98, 99), -48), MapFunc(Interval(50, 97), 2);
    ParseTwoRules(a, b);
    assert SeedToSoilLines()[1..] == [RuleLine(a), RuleLine(b)];
  }

  /** Two rule lines read back as the two rules, in order. */
  lemma ParseTwoRules(a: MapFunc, b: MapFunc)
    ensures ParseMapFuncs([RuleLine(a), RuleLine(b)]) == Some([a, b])
  {
    MapFuncFromLineShow(a);
    MapFuncFromLineShow(b);
    var r := ParseMapFuncs([RuleLine(a), RuleLine(b)]);
    assert r.Some?;
    assert r.value == [a, b];
  }

  /** Sorting the two rules by start swaps them. */
  lemma SeedToSoilSorted()
    ensures SortRules([MapFunc(Interval(98, 99), -48), MapFunc(Interval(50, 97), 2)]) ==
              [MapFunc(Interval(50, 97), 2), MapFunc(Interval(98, 99), -48)]
  {
    var a, b := MapFunc(Interval(98, 99), -48), MapFunc(Interval(50, 97), 2);
    assert [a, b][..1] == [a];
  }

  /** Read as written the rules keep file order; the corrected reading sorts them by start. */
  lemma SeedToSoilRules()
    ensures RangeMapperFromLinesAsWritten(SeedToSoilLines()) ==
              Some(RangeMapper([MapFunc(Interval(98, 99), -48), MapFunc(Interval(50, 97), 2)]))
    ensures RangeMapperFromLines(SeedToSoilLines()) ==
              Some(RangeMapper([MapFunc(Interval(50, 97), 2), MapFunc(Interval(98, 99), -48)]))
  {
    SeedToSoilParsed();
    SeedToSoilSorted();
  }

  /**
   * With the rules in file order the sweep meets `[98, 99]` first, finds
   * `[55, 67]` wholly below it and passes it through unchanged, although
   * 55 lies in `[50, 97]` and maps to 57; the sorted rules give `[57, 69]`.
   */
  lemma UnsortedRulesMisplaceRanges()
    ensures MapAll([MapFunc(Interval(98, 99), -48), MapFunc(Interval(50, 97), 2)], [Interval(55, 67)]) == [Interval(55, 67)]
    ensures MapPoint([MapFunc(Interval(98, 99), -48), MapFunc(Interval(50, 97), 2)], 55) == 57
    ensures MapAll([MapFunc(Interval(50, 97), 2), MapFunc(Interval(98, 99), -48)], [Interval(55, 67)]) == [Interval(57, 69)]
  {
    var a, b := MapFunc(Interval(98, 99), -48), MapFunc(Interval(50, 97), 2);
    assert Pieces([a, b], Interval(55, 67)) == [Interval(55, 67)];
    assert Pieces([b, a], Interval(55, 67)) == [Interval(57, 69)];
  }
}
