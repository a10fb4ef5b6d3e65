/**
 * Day 5, part 1 (day_5/solution.py): almanac rules that send one integer
 * to another, the stage-by-stage lookup of a seed's location, and the
 * parsing of the seed line.
 */
module SeedMaps {
  import opened Wrappers
  import opened Text

  /** `RangeMap`: `sourceStart .. sourceStart + length - 1` goes, in order, to `destinationStart ..`. */
  datatype RangeMap = RangeMap(destinationStart: int, sourceStart: int, length: int)

  /** The part-1 `Range`: two endpoints that nothing checks. */
  datatype Range = Range(start: int, end: int)

  /** `SourceDestinationMapper`: one almanac stage, its rules in file order. */
  datatype Mapper = Mapper(rangeMaps: seq<RangeMap>)

  predicate Covers(m: RangeMap, x: int) {
    m.sourceStart <= x < m.sourceStart + m.length
  }

  function Delta(m: RangeMap): int {
    m.destinationStart - m.sourceStart
  }

  /** `RangeMap.try_get_destination`: a covered integer keeps its offset from the start. */
  function TryGetDestination(m: RangeMap, x: int): (r: Option<int>)
    ensures r.Some? <==> Covers(m, x)
    ensures r.Some? ==> r.value - m.destinationStart == x - m.sourceStart
  {
    var difference := x - m.sourceStart;
    if 0 <= difference < m.length then Some(m.destinationStart + difference) else None
  }

  /**
   * The integers a rule produces are exactly `destinationStart ..
   * destinationStart + length - 1`, each from exactly one source integer.
   */
  lemma DestinationImage(m: RangeMap, y: int)
    ensures (exists x :: TryGetDestination(m, x) == Some(y)) <==>
              m.destinationStart <= y < m.destinationStart + m.length
    ensures forall x1, x2 :: TryGetDestination(m, x1) == Some(y) && TryGetDestination(m, x2) == Some(y) ==> x1 == x2
  {
    if m.destinationStart <= y < m.destinationStart + m.length {
      assert TryGetDestination(m, y - Delta(m)) == Some(y);
    }
  }

  /**
   * The outcome of `RangeMap.try_get_destination_range`: `None`, a `Range`
   * whose endpoints are the mapped ends of the overlap, or (for a rule of
   * length at most 0 that the guard lets through) a `Range` both of whose
   * endpoints are `None`.
   */
  datatype DestinationRange = NoOverlap | Mapped(range: Range) | EndpointsMissing

  function Max(a: int, b: int): int { if a <= b then b else a }
  function Min(a: int, b: int): int { if a <= b then a else b }

  function TryGetDestinationRange(m: RangeMap, r: Range): (d: DestinationRange)
    ensures d.NoOverlap? <==> r.end < m.sourceStart || r.start > m.sourceStart + m.length - 1
    ensures d.EndpointsMissing? <==> !d.NoOverlap? && m.length <= 0
    ensures d.Mapped? ==>
              TryGetDestination(m, Max(m.sourceStart, r.start)) == Some(d.range.start) &&
              TryGetDestination(m, Min(m.sourceStart + m.length - 1, r.end)) == Some(d.range.end)
  {
    if r.end < m.sourceStart || r.start > m.sourceStart + m.length - 1 then NoOverlap
    else
      var smallest := Max(m.sourceStart, r.start);
      var greatest := Min(m.sourceStart + m.length - 1, r.end);
      var start, end := TryGetDestination(m, smallest), TryGetDestination(m, greatest);
      if start.Some? && end.Some? then Mapped(Range(start.value, end.value)) else EndpointsMissing
  }

  /**
   * A mapped range covers exactly the images of the integers in the overlap
   * of the source range with the rule, and is as long as that overlap.
   */
  lemma DestinationRangeImage(m: RangeMap, r: Range, y: int)
    requires TryGetDestinationRange(m, r).Mapped?
    ensures var d := TryGetDestinationRange(m, r).range;
      (d.start <= y <= d.end <==> r.start <= y - Delta(m) <= r.end && Covers(m, y - Delta(m))) &&
      d.end - d.start == Min(m.sourceStart + m.length - 1, r.end) - Max(m.sourceStart, r.start)
  {
  }

  /** `RangeMap.from_line`: three space-separated integers, destination, source, length. */
  function FromLine(line: string): Option<RangeMap> {
    var parts := SplitOn(line, " ");
    if |parts| != 3 then None
    else
      var numbers := ParseInts(parts);
      if numbers.None? then None
      else Some(RangeMap(numbers.value[0], numbers.value[1], numbers.value[2]))
  }

  /** The almanac line of a rule: destination, source, length. */
  function ShowLine(m: RangeMap): string {
    SpaceSeparated([m.destinationStart, m.sourceStart, m.length])
  }

  lemma FromLineShow(m: RangeMap)
    ensures FromLine(ShowLine(m)) == Some(m)
  {
    var xs := [m.destinationStart, m.sourceStart, m.length];
    ParseSpaceSeparated(xs);
    SplitOnJoinLength(xs);
  }

  /** Splitting a space-separated list yields one part per integer. */
  lemma SplitOnJoinLength(xs: seq<int>)
    requires |xs| > 0
    ensures |SplitOn(SpaceSeparated(xs), " ")| == |xs|
  {
    ParseSpaceSeparated(xs);
  }

  /** Every line of a rule block, each parsed by `FromLine`; `None` as soon as one fails. */
  function ParseRangeMaps(lines: seq<string>): (r: Option<seq<RangeMap>>)
    ensures r.Some? <==> forall i | 0 <= i < |lines| :: FromLine(lines[i]).Some?
    ensures r.Some? ==> |r.value| == |lines| && forall i | 0 <= i < |lines| :: FromLine(lines[i]) == Some(r.value[i])
  {
    if |lines| == 0 then Some([])
    else
      var head, tail := FromLine(lines[0]), ParseRangeMaps(lines[1..]);
      if head.Some? && tail.Some? then Some([head.value] + tail.value)
      else
        assert !head.Some? || !(forall i | 1 <= i < |lines| :: FromLine(lines[i]).Some?);
        None
  }

  /** `SourceDestinationMapper.from_lines`: the first line is the block's header and is dropped. */
  function MapperFromLines(lines: seq<string>): Option<Mapper> {
    var rules := ParseRangeMaps(if |lines| == 0 then [] else lines[1..]);
    if rules.None? then None else Some(Mapper(rules.value))
  }

  function ShowLines(ms: seq<RangeMap>): (r: seq<string>)
    ensures |r| == |ms| && forall i | 0 <= i < |ms| :: r[i] == ShowLine(ms[i])
  {
    if |ms| == 0 then [] else [ShowLine(ms[0])] + ShowLines(ms[1..])
  }

  /** A block made of any header followed by one line per rule reads back as those rules. */
  lemma MapperFromLinesShow(header: string, ms: seq<RangeMap>)
    ensures MapperFromLines([header] + ShowLines(ms)) == Some(Mapper(ms))
  {
    var lines := [header] + ShowLines(ms);
    assert lines[1..] == ShowLines(ms);
    forall i | 0 <= i < |ms| ensures FromLine(lines[1..][i]) == Some(ms[i]) {
      FromLineShow(ms[i]);
    }
    assert ParseRangeMaps(lines[1..]).value == ms;
  }
  /**
   * `get_source_destination_mappers` on the input already cut into blocks
   * at blank lines and each block into lines: one mapper per block.
   */
  function MappersFromBlocks(blocks: seq<seq<string>>): (r: Option<seq<Mapper>>)
    ensures r.Some? <==> forall i | 0 <= i < |blocks| :: MapperFromLines(blocks[i]).Some?
    ensures r.Some? ==> |r.value| == |blocks| && forall i | 0 <= i < |blocks| :: MapperFromLines(blocks[i]) == Some(r.value[i])
  {
    if |blocks| == 0 then Some([])
    else
      var head, tail := MapperFromLines(blocks[0]), MappersFromBlocks(blocks[1..]);
      if head.Some? && tail.Some? then Some([head.value] + tail.value)
      else
        assert !head.Some? || !(forall i | 1 <= i < |blocks| :: MapperFromLines(blocks[i]).Some?);
        None
  }


  /** Rule `i` is the first rule of the list that covers `x`. */
  ghost predicate FirstCover(ms: seq<RangeMap>, i: int, x: int) {
    0 <= i < |ms| && Covers(ms[i], x) && forall j | 0 <= j < i :: !Covers(ms[j], x)
  }

  /**
   * `SourceDestinationMapper.find_destination`: the first rule in list order
   * that covers `x` decides; with none, `x` maps to itself.
   */
  function FindDestination(ms: seq<RangeMap>, x: int): (y: int)
    ensures (forall i | 0 <= i < |ms| :: !Covers(ms[i], x)) ==> y == x
    ensures forall i | FirstCover(ms, i, x) :: y == x + Delta(ms[i])
  {
    if |ms| == 0 then x
    else
      var d := TryGetDestination(ms[0], x);
      if d.Some? then d.value
      else
        var y := FindDestination(ms[1..], x);
        assert forall i | 1 <= i < |ms| :: FirstCover(ms, i, x) ==> FirstCover(ms[1..], i - 1, x);
        y
  }

  /** The location of `x` after the stages in order: the specification of `find_location`. */
  function LocationOf(mappers: seq<Mapper>, x: int): int
    decreases |mappers|
  {
    if |mappers| == 0 then x
    else FindDestination(mappers[|mappers| - 1].rangeMaps, LocationOf(mappers[..|mappers| - 1], x))
  }

  /** Running two lists of stages one after the other is running their concatenation. */
  lemma {:induction false} LocationOfConcat(a: seq<Mapper>, b: seq<Mapper>, x: int)
    ensures LocationOf(a + b, x) == LocationOf(b, LocationOf(a, x))
    decreases |b|
  {
    if |b| == 0 {
      assert a + b == a;
    } else {
      var init := b[..|b| - 1];
      assert (a + b)[..|a + b| - 1] == a + init;
      LocationOfConcat(a, init, x);
    }
  }

  /** `find_location`: pushes the seed through every stage in order. */
  method FindLocation(seed: int, mappers: seq<Mapper>) returns (location: int)
    ensures location == LocationOf(mappers, seed)
  {
    location := seed;
    for i := 0 to |mappers|
      invariant location == LocationOf(mappers[..i], seed)
    {
      assert mappers[..i + 1][..i] == mappers[..i];
      location := FindDestination(mappers[i].rangeMaps, location);
    }
    assert mappers[..|mappers|] == mappers;
  }

  /** Part 1: `min` of the seeds' locations; `min` of no seeds raises (`None`). */
  function LowestLocation(seeds: seq<int>, mappers: seq<Mapper>): (r: Option<int>)
    ensures r.Some? <==> |seeds| > 0
    ensures r.Some? ==> exists seed | seed in seeds :: LocationOf(mappers, seed) == r.value
    ensures r.Some? ==> forall seed | seed in seeds :: r.value <= LocationOf(mappers, seed)
  {
    if |seeds| == 0 then None
    else
      var here := LocationOf(mappers, seeds[0]);
      var rest := LowestLocation(seeds[1..], mappers);
      assert forall seed | seed in seeds :: seed == seeds[0] || seed in seeds[1..];
      if rest.None? || here <= rest.value then
        assert seeds[0] in seeds;
        Some(here)
      else
        rest
  }


  /** `get_seeds_part_1`: the space-separated integers after `": "`. */
  function GetSeedsPart1(seedsStr: string): Option<seq<int>> {
    var parts := SplitOn(seedsStr, ": ");
    if |parts| < 2 then None else ParseInts(SplitOn(parts[1], " "))
  }

  lemma {:induction false} JoinChars(parts: seq<string>, sep: string, c: char)
    requires |parts| > 0 && c in Join(parts, sep)
    ensures c in sep || exists i | 0 <= i < |parts| :: c in parts[i]
    decreases |parts|
  {
    if |parts| > 1 {
      if c !in parts[0] && c !in sep {
        JoinChars(parts[1..], sep, c);
        var i :| 0 <= i < |parts[1..]| && c in parts[1..][i];
        assert parts[i + 1] == parts[1..][i];
      }
    }
  }

  /** A seed line whose name part has no colon reads back as its integers. */
  lemma GetSeedsShow(name: string, xs: seq<int>)
    requires |xs| > 0 && ':' !in name
    ensures GetSeedsPart1(name + ": " + SpaceSeparated(xs)) == Some(xs)
  {
    var t := SpaceSeparated(xs);
    if ':' in t {
      JoinChars(ShowInts(xs), " ", ':');
      var i :| 0 <= i < |xs| && ':' in ShowInts(xs)[i];
      ShowIntChars(xs[i], ':');
    }
    SplitOnFirst(name, ": ", t);
    SplitOnWhole(t, ": ");
    ParseSpaceSeparated(xs);
  }

  /** Python's `range(start, start + length)`: empty unless `length > 0`. */
  function Span(start: int, length: int): seq<int> {
    seq(if length > 0 then length else 0, k => start + k)
  }

  /** `get_seeds_part_2` on parsed numbers: each `(start, length)` pair expanded, pairs in order. */
  function Expand(numbers: seq<int>): seq<int>
    requires |numbers| % 2 == 0
    decreases |numbers|
  {
    if |numbers| == 0 then []
    else Expand(numbers[..|numbers| - 2]) + Span(numbers[|numbers| - 2], numbers[|numbers| - 1])
  }

  /** `get_seed_ranges` on parsed numbers: each pair as `Range(start, start + length - 1)`. */
  function SeedRangesOf(numbers: seq<int>): seq<Range>
    requires |numbers| % 2 == 0
    decreases |numbers|
  {
    if |numbers| == 0 then []
    else
      SeedRangesOf(numbers[..|numbers| - 2]) +
      [Range(numbers[|numbers| - 2], numbers[|numbers| - 2] + numbers[|numbers| - 1] - 1)]
  }

  /** Pair `k` of the numbers becomes range `k`, from its start to start + length - 1. */
  lemma {:induction false} SeedRangesOfAt(numbers: seq<int>, k: nat)
    requires |numbers| % 2 == 0 && k < |numbers| / 2
    ensures |SeedRangesOf(numbers)| == |numbers| / 2
    ensures SeedRangesOf(numbers)[k] == Range(numbers[2 * k], numbers[2 * k] + numbers[2 * k + 1] - 1)
    decreases |numbers|
  {
    var init := numbers[..|numbers| - 2];
    if k < |init| / 2 {
      SeedRangesOfAt(init, k);
    } else {
      SeedRangesOfLength(init);
    }
  }

  lemma {:induction false} SeedRangesOfLength(numbers: seq<int>)
    requires |numbers| % 2 == 0
    ensures |SeedRangesOf(numbers)| == |numbers| / 2
    decreases |numbers|
  {
    if |numbers| > 0 {
      SeedRangesOfLength(numbers[..|numbers| - 2]);
    }
  }

  /** The seeds of part 2 are exactly the integers inside the seed ranges, their count the sum of the lengths. */
  lemma {:induction false} ExpandCover(numbers: seq<int>, x: int)
    requires |numbers| % 2 == 0
    ensures x in Expand(numbers) <==>
              exists k | 0 <= k < |SeedRangesOf(numbers)| :: SeedRangesOf(numbers)[k].start <= x <= SeedRangesOf(numbers)[k].end
    decreases |numbers|
  {
    if |numbers| > 0 {
      var init := numbers[..|numbers| - 2];
      var rs, rsInit := SeedRangesOf(numbers), SeedRangesOf(init);
      ExpandCover(init, x);
      var last := Range(numbers[|numbers| - 2], numbers[|numbers| - 2] + numbers[|numbers| - 1] - 1);
      assert rs == rsInit + [last];
      var span := Span(numbers[|numbers| - 2], numbers[|numbers| - 1]);
      assert x in span <==> last.start <= x <= last.end by {
        if last.start <= x <= last.end {
          assert span[x - last.start] == x;
        }
      }
      if x in Expand(init) {
        var k :| 0 <= k < |rsInit| && rsInit[k].start <= x <= rsInit[k].end;
        assert rs[k] == rsInit[k];
      }
      if exists k | 0 <= k < |rs| :: rs[k].start <= x <= rs[k].end {
        var k :| 0 <= k < |rs| && rs[k].start <= x <= rs[k].end;
        if k < |rsInit| {
          assert rs[k] == rsInit[k];
        }
      }
    }
  }

  /** Sum over the pairs of the number of integers each pair contributes. */
  function PairLengthSum(numbers: seq<int>): nat
    requires |numbers| % 2 == 0
    decreases |numbers|
  {
    if |numbers| == 0 then 0
    else
      var length := numbers[|numbers| - 1];
      PairLengthSum(numbers[..|numbers| - 2]) + (if length > 0 then length else 0)
  }

  lemma {:induction false} ExpandLength(numbers: seq<int>)
    requires |numbers| % 2 == 0
    ensures |Expand(numbers)| == PairLengthSum(numbers)
    decreases |numbers|
  {
    if |numbers| > 0 {
      ExpandLength(numbers[..|numbers| - 2]);
    }
  }

  /** The loop of `get_seeds_part_2`: `None` (the `IndexError`) when a start has no length after it. */
  method ExpandPairs(numbers: seq<int>) returns (seeds: Option<seq<int>>)
    ensures seeds.Some? <==> |numbers| % 2 == 0
    ensures seeds.Some? ==> seeds.value == Expand(numbers)
  {
    var acc: seq<int> := [];
    var i := 0;
    while i < |numbers|
      invariant 0 <= i <= |numbers| && i % 2 == 0
      invariant acc == Expand(numbers[..i])
    {
      if i + 1 >= |numbers| {
        return None;
      }
      var start, length := numbers[i], numbers[i + 1];
      assert numbers[..i + 2][..i] == numbers[..i];
      acc := acc + Span(start, length);
      i := i + 2;
    }
    assert numbers[..i] == numbers;
    return Some(acc);
  }

  /** `get_seeds_part_2`: `None` if the seed line does not parse or holds an odd count of numbers. */
  method GetSeedsPart2(seedsStr: string) returns (seeds: Option<seq<int>>)
    ensures seeds.Some? <==> GetSeedsPart1(seedsStr).Some? && |GetSeedsPart1(seedsStr).value| % 2 == 0
    ensures seeds.Some? ==> seeds.value == Expand(GetSeedsPart1(seedsStr).value)
  {
    var parsed := GetSeedsPart1(seedsStr);
    if parsed.None? {
      return None;
    }
    seeds := ExpandPairs(parsed.value);
  }

  lemma SeedRangesOfStep(numbers: seq<int>, i: nat)
    requires i % 2 == 0 && i + 2 <= |numbers|
    ensures SeedRangesOf(numbers[..i + 2]) == SeedRangesOf(numbers[..i]) + [Range(numbers[i], numbers[i] + numbers[i + 1] - 1)]
  {
    assert numbers[..i + 2][..i] == numbers[..i];
  }

  /** The loop of the part-1 `get_seed_ranges`. */
  method PairRanges(numbers: seq<int>) returns (ranges: Option<seq<Range>>)
    ensures ranges.Some? <==> |numbers| % 2 == 0
    ensures ranges.Some? ==> ranges.value == SeedRangesOf(numbers)
  {
    var acc: seq<Range> := [];
    var i := 0;
    while i < |numbers|
      invariant 0 <= i <= |numbers| && i % 2 == 0
      invariant acc == SeedRangesOf(numbers[..i])
    {
      if i + 1 >= |numbers| {
        return None;
      }
      var start, length := numbers[i], numbers[i + 1];
      SeedRangesOfStep(numbers, i);
      acc := acc + [Range(start, start + length - 1)];
      i := i + 2;
    }
    assert numbers[..i] == numbers;
    return Some(acc);
  }

  /** `get_seed_ranges` (part 1): `None` if the seed line does not parse or holds an odd count of numbers. */
  method GetSeedRanges(seedsStr: string) returns (ranges: Option<seq<Range>>)
    ensures ranges.Some? <==> GetSeedsPart1(seedsStr).Some? && |GetSeedsPart1(seedsStr).value| % 2 == 0
    ensures ranges.Some? ==> ranges.value == SeedRangesOf(GetSeedsPart1(seedsStr).value)
  {
    var parsed := GetSeedsPart1(seedsStr);
    if parsed.None? {
      return None;
    }
    ranges := PairRanges(parsed.value);
  }
}
