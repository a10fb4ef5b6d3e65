/**
 * The concrete cases the day-5 tests pin down, proved of the range model:
 * one stage on single ranges, and the seven stages of the puzzle's example.
 */
module RangeExamples {
  import opened Wrappers
  import opened Ranges
  import opened RangeMapping

  /** The four rules of the single-stage tests, sorted by start. */
  function TestRules(): seq<MapFunc> {
    [MapFunc(Interval(5, 10), 2), MapFunc(Interval(15, 20), 7),
     MapFunc(Interval(25, 30), -1), MapFunc(Interval(32, 33), -6)]
  }

  lemma MapRangeExample()
    ensures MapRange(MapFunc(Interval(5, 10), 2), Interval(5, 10)) == Some(Interval(7, 12))
  {
  }

  /** One more step of the left-to-right merge of a literal list of pieces. */
  lemma InsertAllStep(ps: seq<Range>, k: nat, acc: seq<Range>, next: seq<Range>)
    requires 0 < k < |ps| && InsertAll(ps[..k]) == acc && Insert(acc, ps[k]) == next
    ensures InsertAll(ps[..k + 1]) == next
  {
    assert ps[..k + 1] == ps[..k] + [ps[k]];
    InsertAllSnoc(ps[..k], ps[k]);
  }

  /** `[5, 10]` lies inside the first rule and moves up by 2. */
  lemma ShiftedInsideOneRule()
    ensures MapAll(TestRules(), [Interval(5, 10)]) == [Interval(7, 12)]
  {
    var rules := TestRules();
    assert Pieces(rules, Interval(5, 10)) == [Interval(7, 12)];
  }

  /** `[-3, 4]` lies below every rule and comes back unchanged. */
  lemma BelowEveryRule()
    ensures MapAll(TestRules(), [Interval(-3, 4)]) == [Interval(-3, 4)]
  {
    var rules := TestRules();
    assert Pieces(rules, Interval(-3, 4)) == [Interval(-3, 4)];
  }

  /** `[400, 1000]` lies above every rule and comes back unchanged. */
  lemma AboveEveryRule()
    ensures MapAll(TestRules(), [Interval(400, 1000)]) == [Interval(400, 1000)]
  {
    var rules := TestRules();
    assert Pieces(rules, Interval(400, 1000)) == [Interval(400, 1000)] by {
      assert rules[1..][1..] == rules[2..];
      assert rules[2..][1..] == rules[3..];
      assert rules[3..][1..] == rules[4..];
      assert Pieces(rules[4..], Interval(400, 1000)) == [Interval(400, 1000)];
      assert Pieces(rules[3..], Interval(400, 1000)) == [Interval(400, 1000)];
      assert Pieces(rules[2..], Interval(400, 1000)) == [Interval(400, 1000)];
      assert Pieces(rules[1..], Interval(400, 1000)) == [Interval(400, 1000)];
    }
  }

  /** `[31, 37]` is cut by the last two rules and the gaps around them. */
  lemma AcrossTheLastRules()
    ensures MapAll(TestRules(), [Interval(31, 37)]) == [Interval(26, 27), Interval(31, 31), Interval(34, 37)]
  {
    AcrossTheLastRulesPieces();
    AcrossTheLastRulesMerged();
  }

  lemma AcrossTheLastRulesPieces()
    ensures AllPieces(TestRules(), [Interval(31, 37)]) == [Interval(31, 31), Interval(26, 27), Interval(34, 37)]
  {
    var rules := TestRules();
    assert Pieces(rules, Interval(31, 37)) == [Interval(31, 31), Interval(26, 27), Interval(34, 37)] by {
      assert rules[1..][1..] == rules[2..];
      assert rules[2..][1..] == rules[3..];
      assert rules[3..][1..] == rules[4..];
      assert Pieces(rules[4..], Interval(34, 37)) == [Interval(34, 37)];
      assert Pieces(rules[3..], Interval(31, 37)) == [Interval(31, 31), Interval(26, 27), Interval(34, 37)];
      assert Pieces(rules[2..], Interval(31, 37)) == [Interval(31, 31), Interval(26, 27), Interval(34, 37)];
      assert Pieces(rules[1..], Interval(31, 37)) == [Interval(31, 31), Interval(26, 27), Interval(34, 37)];
    }
  }

  lemma AcrossTheLastRulesMerged()
    ensures InsertAll([Interval(31, 31), Interval(26, 27), Interval(34, 37)]) == [Interval(26, 27), Interval(31, 31), Interval(34, 37)]
  {
    var ps := [Interval(31, 31), Interval(26, 27), Interval(34, 37)];
    assert InsertAll(ps[..1]) == [Interval(31, 31)];
    InsertAllStep(ps, 1, [Interval(31, 31)], [Interval(26, 27), Interval(31, 31)]);
    assert Insert([Interval(31, 31)], Interval(34, 37)) == [Interval(31, 31), Interval(34, 37)];
    InsertAllStep(ps, 2, [Interval(26, 27), Interval(31, 31)], [Interval(26, 27), Interval(31, 31), Interval(34, 37)]);
    assert ps[..3] == ps;
  }

  /** `[3, 5]` keeps its part below the first rule. */
  lemma StartingBelowARule()
    ensures MapAll(TestRules(), [Interval(3, 5)]) == [Interval(3, 4), Interval(7, 7)]
  {
    StartingBelowARulePieces();
    StartingBelowARuleMerged();
  }

  lemma StartingBelowARulePieces()
    ensures AllPieces(TestRules(), [Interval(3, 5)]) == [Interval(3, 4), Interval(7, 7)]
  {
    var rules := TestRules();
    assert Pieces(rules, Interval(3, 5)) == [Interval(3, 4), Interval(7, 7)];
  }

  lemma StartingBelowARuleMerged()
    ensures InsertAll([Interval(3, 4), Interval(7, 7)]) == [Interval(3, 4), Interval(7, 7)]
  {
    var ps := [Interval(3, 4), Interval(7, 7)];
    assert InsertAll(ps[..1]) == [Interval(3, 4)];
    InsertAllStep(ps, 1, [Interval(3, 4)], [Interval(3, 4), Interval(7, 7)]);
    assert ps[..2] == ps;
  }

  /** `[6, 24]` spans two rules; touching pieces merge. */
  lemma AcrossTwoRules()
    ensures MapAll(TestRules(), [Interval(6, 24)]) == [Interval(8, 14), Interval(21, 27)]
  {
    AcrossTwoRulesPieces();
    AcrossTwoRulesMerged();
  }

  lemma AcrossTwoRulesPieces()
    ensures AllPieces(TestRules(), [Interval(6, 24)]) == [Interval(8, 12), Interval(11, 14), Interval(22, 27), Interval(21, 24)]
  {
    var rules := TestRules();
    assert Pieces(rules, Interval(6, 24)) == [Interval(8, 12), Interval(11, 14), Interval(22, 27), Interval(21, 24)] by {
      assert rules[1..][1..] == rules[2..];
      assert Pieces(rules[2..], Interval(21, 24)) == [Interval(21, 24)];
      assert Pieces(rules[1..], Interval(11, 24)) == [Interval(11, 14), Interval(22, 27), Interval(21, 24)];
    }
  }

  lemma AcrossTwoRulesMerged()
    ensures InsertAll([Interval(8, 12), Interval(11, 14), Interval(22, 27), Interval(21, 24)]) == [Interval(8, 14), Interval(21, 27)]
  {
    var ps := [Interval(8, 12), Interval(11, 14), Interval(22, 27), Interval(21, 24)];
    assert InsertAll(ps[..1]) == [Interval(8, 12)];
    assert TryCombine(Interval(8, 12), Interval(11, 14)) == Some(Interval(8, 14));
    InsertAllStep(ps, 1, [Interval(8, 12)], [Interval(8, 14)]);
    InsertAllStep(ps, 2, [Interval(8, 14)], [Interval(8, 14), Interval(22, 27)]);
    assert TryCombine(Interval(22, 27), Interval(21, 24)) == Some(Interval(21, 27));
    assert Insert([Interval(22, 27)], Interval(21, 24)) == [Interval(21, 27)];
    InsertAllStep(ps, 3, [Interval(8, 14), Interval(22, 27)], [Interval(8, 14), Interval(21, 27)]);
    assert ps[..4] == ps;
  }

  /** Two source ranges are swept in one pass. */
  lemma TwoSources()
    ensures MapAll(TestRules(), [Interval(6, 24), Interval(30, 31)]) == [Interval(8, 14), Interval(21, 27), Interval(29, 29), Interval(31, 31)]
  {
    TwoSourcesPieces();
    TwoSourcesMerged();
  }

  lemma TwoSourcesPieces()
    ensures AllPieces(TestRules(), [Interval(6, 24), Interval(30, 31)]) == [Interval(8, 12), Interval(11, 14), Interval(22, 27), Interval(21, 24), Interval(29, 29), Interval(31, 31)]
  {
    var rules := TestRules();
    assert Pieces(rules, Interval(6, 24)) == [Interval(8, 12), Interval(11, 14), Interval(22, 27), Interval(21, 24)] by {
      assert rules[1..][1..] == rules[2..];
      assert Pieces(rules[2..], Interval(21, 24)) == [Interval(21, 24)];
      assert Pieces(rules[1..], Interval(11, 24)) == [Interval(11, 14), Interval(22, 27), Interval(21, 24)];
    }
    assert Pieces(rules, Interval(30, 31)) == [Interval(29, 29), Interval(31, 31)] by {
      assert rules[1..][1..] == rules[2..];
      assert rules[2..][1..] == rules[3..];
      assert Pieces(rules[3..], Interval(31, 31)) == [Interval(31, 31)];
      assert Pieces(rules[2..], Interval(30, 31)) == [Interval(29, 29), Interval(31, 31)];
      assert Pieces(rules[1..], Interval(30, 31)) == [Interval(29, 29), Interval(31, 31)];
    }
    assert AllPieces(rules, [Interval(6, 24)]) == [Interval(8, 12), Interval(11, 14), Interval(22, 27), Interval(21, 24)];
    assert [Interval(6, 24), Interval(30, 31)][..1] == [Interval(6, 24)];
  }

  lemma TwoSourcesMerged4()
    ensures InsertAll([Interval(8, 12), Interval(11, 14), Interval(22, 27), Interval(21, 24), Interval(29, 29), Interval(31, 31)][..4]) == [Interval(8, 14), Interval(21, 27)]
  {
    var ps := [Interval(8, 12), Interval(11, 14), Interval(22, 27), Interval(21, 24), Interval(29, 29), Interval(31, 31)];
    assert InsertAll(ps[..1]) == [Interval(8, 12)];
    assert TryCombine(Interval(8, 12), Interval(11, 14)) == Some(Interval(8, 14));
    InsertAllStep(ps, 1, [Interval(8, 12)], [Interval(8, 14)]);
    InsertAllStep(ps, 2, [Interval(8, 14)], [Interval(8, 14), Interval(22, 27)]);
    assert TryCombine(Interval(22, 27), Interval(21, 24)) == Some(Interval(21, 27));
    assert Insert([Interval(22, 27)], Interval(21, 24)) == [Interval(21, 27)];
    InsertAllStep(ps, 3, [Interval(8, 14), Interval(22, 27)], [Interval(8, 14), Interval(21, 27)]);
  }

  lemma TwoSourcesMerged()
    ensures InsertAll([Interval(8, 12), Interval(11, 14), Interval(22, 27), Interval(21, 24), Interval(29, 29), Interval(31, 31)]) == [Interval(8, 14), Interval(21, 27), Interval(29, 29), Interval(31, 31)]
  {
    var ps := [Interval(8, 12), Interval(11, 14), Interval(22, 27), Interval(21, 24), Interval(29, 29), Interval(31, 31)];
    TwoSourcesMerged4();
    assert InsertAll(ps[..4]) == [Interval(8, 14), Interval(21, 27)];
    assert Insert([Interval(21, 27)], Interval(29, 29)) == [Interval(21, 27), Interval(29, 29)];
    InsertAllStep(ps, 4, [Interval(8, 14), Interval(21, 27)], [Interval(8, 14), Interval(21, 27), Interval(29, 29)]);
    assert Insert([Interval(29, 29)], Interval(31, 31)) == [Interval(29, 29), Interval(31, 31)];
    assert Insert([Interval(21, 27), Interval(29, 29)], Interval(31, 31)) == [Interval(21, 27), Interval(29, 29), Interval(31, 31)];
    InsertAllStep(ps, 5, [Interval(8, 14), Interval(21, 27), Interval(29, 29)], [Interval(8, 14), Interval(21, 27), Interval(29, 29), Interval(31, 31)]);
    assert ps[..6] == ps;
  }

  function SeedToSoil(): seq<MapFunc> {
    [MapFunc(Interval(50, 97), 2), MapFunc(Interval(98, 99), -48)]
  }

  function SoilToFertilizer(): seq<MapFunc> {
    [MapFunc(Interval(15, 51), -15), MapFunc(Interval(52, 53), -15)]
  }

  function FertilizerToWater(): seq<MapFunc> {
    [MapFunc(Interval(0, 6), 42), MapFunc(Interval(7, 10), 50), MapFunc(Interval(11, 52), -11), MapFunc(Interval(53, 60), -4)]
  }

  function WaterToLight(): seq<MapFunc> {
    [MapFunc(Interval(18, 24), 70), MapFunc(Interval(25, 94), -7)]
  }

  function LightToTemperature(): seq<MapFunc> {
    [MapFunc(Interval(45, 63), 36), MapFunc(Interval(64, 76), 4), MapFunc(Interval(77, 99), -32)]
  }

  function TemperatureToHumidity(): seq<MapFunc> {
    [MapFunc(Interval(0, 68), 1), MapFunc(Interval(69, 69), -69)]
  }

  function HumidityToLocation(): seq<MapFunc> {
    [MapFunc(Interval(56, 92), 4), MapFunc(Interval(93, 96), -37)]
  }

  /** The SeedToSoil stage of the example. */
  lemma SeedToSoilStage()
    ensures MapAll(SeedToSoil(), [Interval(55, 67), Interval(79, 92)]) == [Interval(57, 69), Interval(81, 94)]
  {
    SeedToSoilStagePieces();
    SeedToSoilStageMerged();
  }

  lemma SeedToSoilStagePieces()
    ensures AllPieces(SeedToSoil(), [Interval(55, 67), Interval(79, 92)]) == [Interval(57, 69), Interval(81, 94)]
  {
    var rules := SeedToSoil();
    assert Pieces(rules, Interval(55, 67)) == [Interval(57, 69)];
    assert Pieces(rules, Interval(79, 92)) == [Interval(81, 94)];
    assert AllPieces(rules, [Interval(55, 67)]) == [Interval(57, 69)];
    assert [Interval(55, 67), Interval(79, 92)][..1] == [Interval(55, 67)];
  }

  lemma SeedToSoilStageMerged()
    ensures InsertAll([Interval(57, 69), Interval(81, 94)]) == [Interval(57, 69), Interval(81, 94)]
  {
    var ps := [Interval(57, 69), Interval(81, 94)];
    assert InsertAll(ps[..1]) == [Interval(57, 69)];
    InsertAllStep(ps, 1, [Interval(57, 69)], [Interval(57, 69), Interval(81, 94)]);
    assert ps[..2] == ps;
  }

  /** The SoilToFertilizer stage of the example. */
  lemma SoilToFertilizerStage()
    ensures MapAll(SoilToFertilizer(), [Interval(57, 69), Interval(81, 94)]) == [Interval(57, 69), Interval(81, 94)]
  {
    SoilToFertilizerStagePieces();
    SoilToFertilizerStageMerged();
  }

  lemma SoilToFertilizerStagePieces()
    ensures AllPieces(SoilToFertilizer(), [Interval(57, 69), Interval(81, 94)]) == [Interval(57, 69), Interval(81, 94)]
  {
    var rules := SoilToFertilizer();
    assert Pieces(rules, Interval(57, 69)) == [Interval(57, 69)] by {
      assert rules[1..][1..] == rules[2..];
      assert Pieces(rules[2..], Interval(57, 69)) == [Interval(57, 69)];
      assert Pieces(rules[1..], Interval(57, 69)) == [Interval(57, 69)];
    }
    assert Pieces(rules, Interval(81, 94)) == [Interval(81, 94)] by {
      assert rules[1..][1..] == rules[2..];
      assert Pieces(rules[2..], Interval(81, 94)) == [Interval(81, 94)];
      assert Pieces(rules[1..], Interval(81, 94)) == [Interval(81, 94)];
    }
    assert AllPieces(rules, [Interval(57, 69)]) == [Interval(57, 69)];
    assert [Interval(57, 69), Interval(81, 94)][..1] == [Interval(57, 69)];
  }

  lemma SoilToFertilizerStageMerged()
    ensures InsertAll([Interval(57, 69), Interval(81, 94)]) == [Interval(57, 69), Interval(81, 94)]
  {
    var ps := [Interval(57, 69), Interval(81, 94)];
    assert InsertAll(ps[..1]) == [Interval(57, 69)];
    InsertAllStep(ps, 1, [Interval(57, 69)], [Interval(57, 69), Interval(81, 94)]);
    assert ps[..2] == ps;
  }

  /** The FertilizerToWater stage of the example. */
  lemma FertilizerToWaterStage()
    ensures MapAll(FertilizerToWater(), [Interval(57, 69), Interval(81, 94)]) == [Interval(53, 56), Interval(61, 69), Interval(81, 94)]
  {
    FertilizerToWaterStagePieces();
    FertilizerToWaterStageMerged();
  }

  lemma FertilizerToWaterStagePieces()
    ensures AllPieces(FertilizerToWater(), [Interval(57, 69), Interval(81, 94)]) == [Interval(53, 56), Interval(61, 69), Interval(81, 94)]
  {
    var rules := FertilizerToWater();
    assert Pieces(rules, Interval(57, 69)) == [Interval(53, 56), Interval(61, 69)] by {
      assert rules[1..][1..] == rules[2..];
      assert rules[2..][1..] == rules[3..];
      assert rules[3..][1..] == rules[4..];
      assert Pieces(rules[4..], Interval(61, 69)) == [Interval(61, 69)];
      assert Pieces(rules[3..], Interval(57, 69)) == [Interval(53, 56), Interval(61, 69)];
      assert Pieces(rules[2..], Interval(57, 69)) == [Interval(53, 56), Interval(61, 69)];
      assert Pieces(rules[1..], Interval(57, 69)) == [Interval(53, 56), Interval(61, 69)];
    }
    assert Pieces(rules, Interval(81, 94)) == [Interval(81, 94)] by {
      assert rules[1..][1..] == rules[2..];
      assert rules[2..][1..] == rules[3..];
      assert rules[3..][1..] == rules[4..];
      assert Pieces(rules[4..], Interval(81, 94)) == [Interval(81, 94)];
      assert Pieces(rules[3..], Interval(81, 94)) == [Interval(81, 94)];
      assert Pieces(rules[2..], Interval(81, 94)) == [Interval(81, 94)];
      assert Pieces(rules[1..], Interval(81, 94)) == [Interval(81, 94)];
    }
    assert AllPieces(rules, [Interval(57, 69)]) == [Interval(53, 56), Interval(61, 69)];
    assert [Interval(57, 69), Interval(81, 94)][..1] == [Interval(57, 69)];
  }

  lemma FertilizerToWaterStageMerged()
    ensures InsertAll([Interval(53, 56), Interval(61, 69), Interval(81, 94)]) == [Interval(53, 56), Interval(61, 69), Interval(81, 94)]
  {
    var ps := [Interval(53, 56), Interval(61, 69), Interval(81, 94)];
    assert InsertAll(ps[..1]) == [Interval(53, 56)];
    InsertAllStep(ps, 1, [Interval(53, 56)], [Interval(53, 56), Interval(61, 69)]);
    assert Insert([Interval(61, 69)], Interval(81, 94)) == [Interval(61, 69), Interval(81, 94)];
    InsertAllStep(ps, 2, [Interval(53, 56), Interval(61, 69)], [Interval(53, 56), Interval(61, 69), Interval(81, 94)]);
    assert ps[..3] == ps;
  }

  /** The WaterToLight stage of the example. */
  lemma WaterToLightStage()
    ensures MapAll(WaterToLight(), [Interval(53, 56), Interval(61, 69), Interval(81, 94)]) == [Interval(46, 49), Interval(54, 62), Interval(74, 87)]
  {
    WaterToLightStagePieces();
    WaterToLightStageMerged();
  }

  lemma WaterToLightStagePieces()
    ensures AllPieces(WaterToLight(), [Interval(53, 56), Interval(61, 69), Interval(81, 94)]) == [Interval(46, 49), Interval(54, 62), Interval(74, 87)]
  {
    var rules := WaterToLight();
    assert Pieces(rules, Interval(53, 56)) == [Interval(46, 49)] by {
      assert Pieces(rules[1..], Interval(53, 56)) == [Interval(46, 49)];
    }
    assert Pieces(rules, Interval(61, 69)) == [Interval(54, 62)] by {
      assert Pieces(rules[1..], Interval(61, 69)) == [Interval(54, 62)];
    }
    assert Pieces(rules, Interval(81, 94)) == [Interval(74, 87)] by {
      assert Pieces(rules[1..], Interval(81, 94)) == [Interval(74, 87)];
    }
    assert AllPieces(rules, [Interval(53, 56)]) == [Interval(46, 49)];
    assert [Interval(53, 56), Interval(61, 69)][..1] == [Interval(53, 56)];
    assert AllPieces(rules, [Interval(53, 56), Interval(61, 69)]) == [Interval(46, 49), Interval(54, 62)];
    assert [Interval(53, 56), Interval(61, 69), Interval(81, 94)][..2] == [Interval(53, 56), Interval(61, 69)];
  }

  lemma WaterToLightStageMerged()
    ensures InsertAll([Interval(46, 49), Interval(54, 62), Interval(74, 87)]) == [Interval(46, 49), Interval(54, 62), Interval(74, 87)]
  {
    var ps := [Interval(46, 49), Interval(54, 62), Interval(74, 87)];
    assert InsertAll(ps[..1]) == [Interval(46, 49)];
    InsertAllStep(ps, 1, [Interval(46, 49)], [Interval(46, 49), Interval(54, 62)]);
    assert Insert([Interval(54, 62)], Interval(74, 87)) == [Interval(54, 62), Interval(74, 87)];
    InsertAllStep(ps, 2, [Interval(46, 49), Interval(54, 62)], [Interval(46, 49), Interval(54, 62), Interval(74, 87)]);
    assert ps[..3] == ps;
  }

  /** The LightToTemperature stage of the example. */
  lemma LightToTemperatureStage()
    ensures MapAll(LightToTemperature(), [Interval(46, 49), Interval(54, 62), Interval(74, 87)]) == [Interval(45, 55), Interval(78, 80), Interval(82, 85), Interval(90, 98)]
  {
    LightToTemperatureStagePieces();
    LightToTemperatureStageMerged();
  }

  lemma LightToTemperatureStagePieces()
    ensures AllPieces(LightToTemperature(), [Interval(46, 49), Interval(54, 62), Interval(74, 87)]) == [Interval(82, 85), Interval(90, 98), Interval(78, 80), Interval(45, 55)]
  {
    var rules := LightToTemperature();
    assert Pieces(rules, Interval(46, 49)) == [Interval(82, 85)];
    assert Pieces(rules, Interval(54, 62)) == [Interval(90, 98)];
    assert Pieces(rules, Interval(74, 87)) == [Interval(78, 80), Interval(45, 55)] by {
      assert rules[1..][1..] == rules[2..];
      assert Pieces(rules[2..], Interval(77, 87)) == [Interval(45, 55)];
      assert Pieces(rules[1..], Interval(74, 87)) == [Interval(78, 80), Interval(45, 55)];
    }
    assert AllPieces(rules, [Interval(46, 49)]) == [Interval(82, 85)];
    assert [Interval(46, 49), Interval(54, 62)][..1] == [Interval(46, 49)];
    assert AllPieces(rules, [Interval(46, 49), Interval(54, 62)]) == [Interval(82, 85), Interval(90, 98)];
    assert [Interval(46, 49), Interval(54, 62), Interval(74, 87)][..2] == [Interval(46, 49), Interval(54, 62)];
  }

  lemma LightToTemperatureStageMerged()
    ensures InsertAll([Interval(82, 85), Interval(90, 98), Interval(78, 80), Interval(45, 55)]) == [Interval(45, 55), Interval(78, 80), Interval(82, 85), Interval(90, 98)]
  {
    var ps := [Interval(82, 85), Interval(90, 98), Interval(78, 80), Interval(45, 55)];
    assert InsertAll(ps[..1]) == [Interval(82, 85)];
    InsertAllStep(ps, 1, [Interval(82, 85)], [Interval(82, 85), Interval(90, 98)]);
    InsertAllStep(ps, 2, [Interval(82, 85), Interval(90, 98)], [Interval(78, 80), Interval(82, 85), Interval(90, 98)]);
    InsertAllStep(ps, 3, [Interval(78, 80), Interval(82, 85), Interval(90, 98)], [Interval(45, 55), Interval(78, 80), Interval(82, 85), Interval(90, 98)]);
    assert ps[..4] == ps;
  }

  /** The TemperatureToHumidity stage of the example. */
  lemma TemperatureToHumidityStage()
    ensures MapAll(TemperatureToHumidity(), [Interval(45, 55), Interval(78, 80), Interval(82, 85), Interval(90, 98)]) == [Interval(46, 56), Interval(78, 80), Interval(82, 85), Interval(90, 98)]
  {
    TemperatureToHumidityStagePieces();
    TemperatureToHumidityStageMerged();
  }

  lemma TemperatureToHumidityStagePieces()
    ensures AllPieces(TemperatureToHumidity(), [Interval(45, 55), Interval(78, 80), Interval(82, 85), Interval(90, 98)]) == [Interval(46, 56), Interval(78, 80), Interval(82, 85), Interval(90, 98)]
  {
    var rules := TemperatureToHumidity();
    assert Pieces(rules, Interval(45, 55)) == [Interval(46, 56)];
    assert Pieces(rules, Interval(78, 80)) == [Interval(78, 80)] by {
      assert rules[1..][1..] == rules[2..];
      assert Pieces(rules[2..], Interval(78, 80)) == [Interval(78, 80)];
      assert Pieces(rules[1..], Interval(78, 80)) == [Interval(78, 80)];
    }
    assert Pieces(rules, Interval(82, 85)) == [Interval(82, 85)] by {
      assert rules[1..][1..] == rules[2..];
      assert Pieces(rules[2..], Interval(82, 85)) == [Interval(82, 85)];
      assert Pieces(rules[1..], Interval(82, 85)) == [Interval(82, 85)];
    }
    assert Pieces(rules, Interval(90, 98)) == [Interval(90, 98)] by {
      assert rules[1..][1..] == rules[2..];
      assert Pieces(rules[2..], Interval(90, 98)) == [Interval(90, 98)];
      assert Pieces(rules[1..], Interval(90, 98)) == [Interval(90, 98)];
    }
    assert AllPieces(rules, [Interval(45, 55)]) == [Interval(46, 56)];
    assert [Interval(45, 55), Interval(78, 80)][..1] == [Interval(45, 55)];
    assert AllPieces(rules, [Interval(45, 55), Interval(78, 80)]) == [Interval(46, 56), Interval(78, 80)];
    assert [Interval(45, 55), Interval(78, 80), Interval(82, 85)][..2] == [Interval(45, 55), Interval(78, 80)];
    assert AllPieces(rules, [Interval(45, 55), Interval(78, 80), Interval(82, 85)]) == [Interval(46, 56), Interval(78, 80), Interval(82, 85)];
    assert [Interval(45, 55), Interval(78, 80), Interval(82, 85), Interval(90, 98)][..3] == [Interval(45, 55), Interval(78, 80), Interval(82, 85)];
  }

  lemma TemperatureToHumidityStageMerged()
    ensures InsertAll([Interval(46, 56), Interval(78, 80), Interval(82, 85), Interval(90, 98)]) == [Interval(46, 56), Interval(78, 80), Interval(82, 85), Interval(90, 98)]
  {
    var ps := [Interval(46, 56), Interval(78, 80), Interval(82, 85), Interval(90, 98)];
    assert InsertAll(ps[..1]) == [Interval(46, 56)];
    InsertAllStep(ps, 1, [Interval(46, 56)], [Interval(46, 56), Interval(78, 80)]);
    assert Insert([Interval(78, 80)], Interval(82, 85)) == [Interval(78, 80), Interval(82, 85)];
    InsertAllStep(ps, 2, [Interval(46, 56), Interval(78, 80)], [Interval(46, 56), Interval(78, 80), Interval(82, 85)]);
    assert Insert([Interval(82, 85)], Interval(90, 98)) == [Interval(82, 85), Interval(90, 98)];
    assert Insert([Interval(78, 80), Interval(82, 85)], Interval(90, 98)) == [Interval(78, 80), Interval(82, 85), Interval(90, 98)];
    InsertAllStep(ps, 3, [Interval(46, 56), Interval(78, 80), Interval(82, 85)], [Interval(46, 56), Interval(78, 80), Interval(82, 85), Interval(90, 98)]);
    assert ps[..4] == ps;
  }

  /** The HumidityToLocation stage of the example. */
  lemma HumidityToLocationStage()
    ensures MapAll(HumidityToLocation(), [Interval(46, 56), Interval(78, 80), Interval(82, 85), Interval(90, 98)]) == [Interval(46, 60), Interval(82, 84), Interval(86, 89), Interval(94, 98)]
  {
    HumidityToLocationStagePieces();
    HumidityToLocationStageMerged();
  }

  lemma HumidityToLocationStagePieces()
    ensures AllPieces(HumidityToLocation(), [Interval(46, 56), Interval(78, 80), Interval(82, 85), Interval(90, 98)]) == [Interval(46, 55), Interval(60, 60), Interval(82, 84), Interval(86, 89), Interval(94, 96), Interval(56, 59), Interval(97, 98)]
  {
    var rules := HumidityToLocation();
    assert Pieces(rules, Interval(46, 56)) == [Interval(46, 55), Interval(60, 60)];
    assert Pieces(rules, Interval(78, 80)) == [Interval(82, 84)];
    assert Pieces(rules, Interval(82, 85)) == [Interval(86, 89)];
    assert Pieces(rules, Interval(90, 98)) == [Interval(94, 96), Interval(56, 59), Interval(97, 98)] by {
      assert rules[1..][1..] == rules[2..];
      assert Pieces(rules[2..], Interval(97, 98)) == [Interval(97, 98)];
      assert Pieces(rules[1..], Interval(93, 98)) == [Interval(56, 59), Interval(97, 98)];
    }
    assert AllPieces(rules, [Interval(46, 56)]) == [Interval(46, 55), Interval(60, 60)];
    assert [Interval(46, 56), Interval(78, 80)][..1] == [Interval(46, 56)];
    assert AllPieces(rules, [Interval(46, 56), Interval(78, 80)]) == [Interval(46, 55), Interval(60, 60), Interval(82, 84)];
    assert [Interval(46, 56), Interval(78, 80), Interval(82, 85)][..2] == [Interval(46, 56), Interval(78, 80)];
    assert AllPieces(rules, [Interval(46, 56), Interval(78, 80), Interval(82, 85)]) == [Interval(46, 55), Interval(60, 60), Interval(82, 84), Interval(86, 89)];
    assert [Interval(46, 56), Interval(78, 80), Interval(82, 85), Interval(90, 98)][..3] == [Interval(46, 56), Interval(78, 80), Interval(82, 85)];
  }

  lemma HumidityToLocationStageMerged4()
    ensures InsertAll([Interval(46, 55), Interval(60, 60), Interval(82, 84), Interval(86, 89), Interval(94, 96), Interval(56, 59), Interval(97, 98)][..4]) == [Interval(46, 55), Interval(60, 60), Interval(82, 84), Interval(86, 89)]
  {
    var ps := [Interval(46, 55), Interval(60, 60), Interval(82, 84), Interval(86, 89), Interval(94, 96), Interval(56, 59), Interval(97, 98)];
    assert InsertAll(ps[..1]) == [Interval(46, 55)];
    InsertAllStep(ps, 1, [Interval(46, 55)], [Interval(46, 55), Interval(60, 60)]);
    assert Insert([Interval(60, 60)], Interval(82, 84)) == [Interval(60, 60), Interval(82, 84)];
    InsertAllStep(ps, 2, [Interval(46, 55), Interval(60, 60)], [Interval(46, 55), Interval(60, 60), Interval(82, 84)]);
    assert Insert([Interval(82, 84)], Interval(86, 89)) == [Interval(82, 84), Interval(86, 89)];
    assert Insert([Interval(60, 60), Interval(82, 84)], Interval(86, 89)) == [Interval(60, 60), Interval(82, 84), Interval(86, 89)];
    InsertAllStep(ps, 3, [Interval(46, 55), Interval(60, 60), Interval(82, 84)], [Interval(46, 55), Interval(60, 60), Interval(82, 84), Interval(86, 89)]);
  }

  lemma HumidityToLocationStageMerged5()
    ensures InsertAll([Interval(46, 55), Interval(60, 60), Interval(82, 84), Interval(86, 89), Interval(94, 96), Interval(56, 59), Interval(97, 98)][..5]) == [Interval(46, 55), Interval(60, 60), Interval(82, 84), Interval(86, 89), Interval(94, 96)]
  {
    var ps := [Interval(46, 55), Interval(60, 60), Interval(82, 84), Interval(86, 89), Interval(94, 96), Interval(56, 59), Interval(97, 98)];
    HumidityToLocationStageMerged4();
    assert Insert([Interval(86, 89)], Interval(94, 96)) == [Interval(86, 89), Interval(94, 96)];
    assert Insert([Interval(82, 84), Interval(86, 89)], Interval(94, 96)) == [Interval(82, 84), Interval(86, 89), Interval(94, 96)];
    assert Insert([Interval(60, 60), Interval(82, 84), Interval(86, 89)], Interval(94, 96)) == [Interval(60, 60), Interval(82, 84), Interval(86, 89), Interval(94, 96)];
    InsertAllStep(ps, 4, [Interval(46, 55), Interval(60, 60), Interval(82, 84), Interval(86, 89)], [Interval(46, 55), Interval(60, 60), Interval(82, 84), Interval(86, 89), Interval(94, 96)]);
  }

  lemma HumidityToLocationStageMerged6()
    ensures InsertAll([Interval(46, 55), Interval(60, 60), Interval(82, 84), Interval(86, 89), Interval(94, 96), Interval(56, 59), Interval(97, 98)][..6]) == [Interval(46, 60), Interval(82, 84), Interval(86, 89), Interval(94, 96)]
  {
    var ps := [Interval(46, 55), Interval(60, 60), Interval(82, 84), Interval(86, 89), Interval(94, 96), Interval(56, 59), Interval(97, 98)];
    HumidityToLocationStageMerged5();
    assert TryCombine(Interval(46, 55), Interval(56, 59)) == Some(Interval(46, 59));
    assert TryCombine(Interval(60, 60), Interval(46, 59)) == Some(Interval(46, 60));
    assert Insert([Interval(82, 84), Interval(86, 89), Interval(94, 96)], Interval(46, 60)) == [Interval(46, 60), Interval(82, 84), Interval(86, 89), Interval(94, 96)];
    assert Insert([Interval(60, 60), Interval(82, 84), Interval(86, 89), Interval(94, 96)], Interval(46, 59)) == [Interval(46, 60), Interval(82, 84), Interval(86, 89), Interval(94, 96)];
    InsertAllStep(ps, 5, [Interval(46, 55), Interval(60, 60), Interval(82, 84), Interval(86, 89), Interval(94, 96)], [Interval(46, 60), Interval(82, 84), Interval(86, 89), Interval(94, 96)]);
  }

  lemma HumidityToLocationStageMerged()
    ensures InsertAll([Interval(46, 55), Interval(60, 60), Interval(82, 84), Interval(86, 89), Interval(94, 96), Interval(56, 59), Interval(97, 98)]) == [Interval(46, 60), Interval(82, 84), Interval(86, 89), Interval(94, 98)]
  {
    var ps := [Interval(46, 55), Interval(60, 60), Interval(82, 84), Interval(86, 89), Interval(94, 96), Interval(56, 59), Interval(97, 98)];
    HumidityToLocationStageMerged6();
    assert TryCombine(Interval(94, 96), Interval(97, 98)) == Some(Interval(94, 98));
    assert Insert([Interval(94, 96)], Interval(97, 98)) == [Interval(94, 98)];
    assert Insert([Interval(86, 89), Interval(94, 96)], Interval(97, 98)) == [Interval(86, 89), Interval(94, 98)];
    assert Insert([Interval(82, 84), Interval(86, 89), Interval(94, 96)], Interval(97, 98)) == [Interval(82, 84), Interval(86, 89), Interval(94, 98)];
    InsertAllStep(ps, 6, [Interval(46, 60), Interval(82, 84), Interval(86, 89), Interval(94, 96)], [Interval(46, 60), Interval(82, 84), Interval(86, 89), Interval(94, 98)]);
    assert ps[..7] == ps;
  }


  /** The seven stages of the example, seed to soil first. */
  function ExampleStages(): seq<RangeMapper> {
    [RangeMapper(SeedToSoil()), RangeMapper(SoilToFertilizer()), RangeMapper(FertilizerToWater()),
     RangeMapper(WaterToLight()), RangeMapper(LightToTemperature()), RangeMapper(TemperatureToHumidity()),
     RangeMapper(HumidityToLocation())]
  }

  /** One more stage of a pipeline whose earlier stages are already computed. */
  lemma RunStagesStep(mappers: seq<RangeMapper>, k: nat, sources: seq<Range>, input: seq<Range>, output: seq<Range>)
    requires k < |mappers| && RunStages(mappers[..k], sources) == input
    requires MapAll(mappers[k].sortedMapFuncs, input) == output
    ensures RunStages(mappers[..k + 1], sources) == output
  {
    assert mappers[..k + 1][..k] == mappers[..k];
  }

  /** The example's seed line `79 14 55 13` gives the ranges `[55, 67]` and `[79, 92]`, sorted. */
  lemma ExampleSeedRanges()
    ensures SeedRangeValues([79, 14, 55, 13]) == Some([Interval(79, 92), Interval(55, 67)])
    ensures InsertAll([Interval(79, 92), Interval(55, 67)]) == [Interval(55, 67), Interval(79, 92)]
  {
    var numbers := [79, 14, 55, 13];
    assert numbers[..2] == [79, 14] && numbers[..2][..0] == [];
    assert SeedRangeValues(numbers[..2][..0]) == Some([]);
    assert SeedRangeValues(numbers[..2]) == Some([] + [Interval(79, 92)]);
    assert [] + [Interval(79, 92)] == [Interval(79, 92)];
    assert MakeRange(55, 55 + 13 - 1) == Some(Interval(55, 67));
    assert SeedRangeValues(numbers) == Some([Interval(79, 92)] + [Interval(55, 67)]);
    assert [Interval(79, 92)] + [Interval(55, 67)] == [Interval(79, 92), Interval(55, 67)];
    assert [Interval(79, 92), Interval(55, 67)][..1] == [Interval(79, 92)];
  }

  lemma ExampleAfterSoil()
    ensures RunStages(ExampleStages()[..1], [Interval(55, 67), Interval(79, 92)]) == [Interval(57, 69), Interval(81, 94)]
  {
    assert ExampleStages()[..0] == [];
    SeedToSoilStage();
    RunStagesStep(ExampleStages(), 0, [Interval(55, 67), Interval(79, 92)], [Interval(55, 67), Interval(79, 92)], [Interval(57, 69), Interval(81, 94)]);
  }

  lemma ExampleAfterFertilizer()
    ensures RunStages(ExampleStages()[..2], [Interval(55, 67), Interval(79, 92)]) == [Interval(57, 69), Interval(81, 94)]
  {
    ExampleAfterSoil();
    SoilToFertilizerStage();
    RunStagesStep(ExampleStages(), 1, [Interval(55, 67), Interval(79, 92)], [Interval(57, 69), Interval(81, 94)], [Interval(57, 69), Interval(81, 94)]);
  }

  lemma ExampleAfterWater()
    ensures RunStages(ExampleStages()[..3], [Interval(55, 67), Interval(79, 92)]) == [Interval(53, 56), Interval(61, 69), Interval(81, 94)]
  {
    ExampleAfterFertilizer();
    FertilizerToWaterStage();
    RunStagesStep(ExampleStages(), 2, [Interval(55, 67), Interval(79, 92)], [Interval(57, 69), Interval(81, 94)], [Interval(53, 56), Interval(61, 69), Interval(81, 94)]);
  }

  lemma ExampleAfterLight()
    ensures RunStages(ExampleStages()[..4], [Interval(55, 67), Interval(79, 92)]) == [Interval(46, 49), Interval(54, 62), Interval(74, 87)]
  {
    ExampleAfterWater();
    WaterToLightStage();
    RunStagesStep(ExampleStages(), 3, [Interval(55, 67), Interval(79, 92)], [Interval(53, 56), Interval(61, 69), Interval(81, 94)], [Interval(46, 49), Interval(54, 62), Interval(74, 87)]);
  }

  lemma ExampleAfterTemperature()
    ensures RunStages(ExampleStages()[..5], [Interval(55, 67), Interval(79, 92)]) == [Interval(45, 55), Interval(78, 80), Interval(82, 85), Interval(90, 98)]
  {
    ExampleAfterLight();
    LightToTemperatureStage();
    RunStagesStep(ExampleStages(), 4, [Interval(55, 67), Interval(79, 92)], [Interval(46, 49), Interval(54, 62), Interval(74, 87)], [Interval(45, 55), Interval(78, 80), Interval(82, 85), Interval(90, 98)]);
  }

  lemma ExampleAfterHumidity()
    ensures RunStages(ExampleStages()[..6], [Interval(55, 67), Interval(79, 92)]) == [Interval(46, 56), Interval(78, 80), Interval(82, 85), Interval(90, 98)]
  {
    ExampleAfterTemperature();
    TemperatureToHumidityStage();
    RunStagesStep(ExampleStages(), 5, [Interval(55, 67), Interval(79, 92)], [Interval(45, 55), Interval(78, 80), Interval(82, 85), Interval(90, 98)], [Interval(46, 56), Interval(78, 80), Interval(82, 85), Interval(90, 98)]);
  }

  /**
   * The seven stages carry `{[55, 67], [79, 92]}` to
   * `{[46, 60], [82, 84], [86, 89], [94, 98]}`, and the answer is 46.
   */
  lemma ExamplePipeline()
    ensures RunStages(ExampleStages(), [Interval(55, 67), Interval(79, 92)]) == [Interval(46, 60), Interval(82, 84), Interval(86, 89), Interval(94, 98)]
    ensures FirstStart(RunStages(ExampleStages(), [Interval(55, 67), Interval(79, 92)])) == Some(46)
  {
    ExampleAfterHumidity();
    HumidityToLocationStage();
    RunStagesStep(ExampleStages(), 6, [Interval(55, 67), Interval(79, 92)], [Interval(46, 56), Interval(78, 80), Interval(82, 85), Interval(90, 98)], [Interval(46, 60), Interval(82, 84), Interval(86, 89), Interval(94, 98)]);
    assert ExampleStages()[..7] == ExampleStages();
  }
}
