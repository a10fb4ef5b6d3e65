/**
 * Day 2: each game line lists draws of red, green and blue cubes from a
 * bag. Part 1 sums the ids of the games a bag of 12 red, 13 green and 14
 * blue cubes allows; part 2 sums, over the games, the product of the
 * smallest counts that allow the game.
 */
module CubeConundrum {
  import opened Wrappers
  import opened Text

  /** `CubeSet`: how many cubes of each colour; a colour not read stays 0. */
  datatype CubeSet = CubeSet(red: int, green: int, blue: int)

  /** `Game`: its id and the draws in line order. */
  datatype Game = Game(id: int, draws: seq<CubeSet>)

  const Empty := CubeSet(0, 0, 0)

  /** `can_be_drawn_from`: no colour asks for more cubes than `bag` holds. */
  predicate CanBeDrawnFrom(draw: CubeSet, bag: CubeSet) {
    draw.red <= bag.red && draw.green <= bag.green && draw.blue <= bag.blue
  }

  /** Drawing from a bag is a partial order on cube sets: reflexive, transitive and antisymmetric. */
  lemma DrawnFromOrder(a: CubeSet, b: CubeSet, c: CubeSet)
    ensures CanBeDrawnFrom(a, a)
    ensures CanBeDrawnFrom(a, b) && CanBeDrawnFrom(b, c) ==> CanBeDrawnFrom(a, c)
    ensures CanBeDrawnFrom(a, b) && CanBeDrawnFrom(b, a) ==> a == b
  {
  }

  // ---- reading one draw -----------------------------------------------------------

  /**
   * One item of a draw, `" N colour"`: the leading space is dropped, and the
   * rest must split at spaces into exactly a number and a colour.
   */
  function ReadItem(part: string): Option<(int, string)> {
    var pieces := SplitOn(RemovePrefix(part, " "), " ");
    if |pieces| != 2 then None
    else
      var n := ParseInt(pieces[0]);
      if n.None? then None
      else Some((n.value, pieces[1]))
  }

  /** `setattr(draw, colour, n)`: the three colours are fields; any other name touches none of them. */
  function SetColour(draw: CubeSet, colour: string, n: int): (d: CubeSet)
    ensures colour == "red" ==> d == draw.(red := n)
    ensures colour == "green" ==> d == draw.(green := n)
    ensures colour == "blue" ==> d == draw.(blue := n)
    ensures colour !in {"red", "green", "blue"} ==> d == draw
  {
    if colour == "red" then draw.(red := n)
    else if colour == "green" then draw.(green := n)
    else if colour == "blue" then draw.(blue := n)
    else draw
  }

  /** The items' `setattr` calls applied in order to `start`. */
  function ApplyItems(start: CubeSet, items: seq<(int, string)>): CubeSet {
    if |items| == 0 then start
    else
      var last := items[|items| - 1];
      SetColour(ApplyItems(start, items[..|items| - 1]), last.1, last.0)
  }

  /** What `from_line_part` computes: the comma-separated items, read and applied in order to an empty set. */
  function ReadDraw(linePart: string): Option<CubeSet> {
    var items := MapOption(ReadItem, SplitOn(linePart, ","));
    if items.None? then None else Some(ApplyItems(Empty, items.value))
  }

  /** `CubeSet.from_line_part`: a fresh set filled item by item; an item that does not read raises. */
  method FromLinePart(linePart: string) returns (draw: Option<CubeSet>)
    ensures draw == ReadDraw(linePart)
  {
    var parts := SplitOn(linePart, ",");
    var acc := Empty;
    ghost var done: seq<(int, string)> := [];
    var i := 0;
    while i < |parts|
      invariant 0 <= i <= |parts| && |done| == i
      invariant forall k | 0 <= k < i :: ReadItem(parts[k]) == Some(done[k])
      invariant acc == ApplyItems(Empty, done)
    {
      var item := ReadItem(parts[i]);
      if item.None? {
        return None;
      }
      ghost var next := done + [item.value];
      assert next[..i] == done;
      forall k | 0 <= k <= i ensures ReadItem(parts[k]) == Some(next[k]) {
        if k < i { assert next[k] == done[k]; }
      }
      acc := SetColour(acc, item.value.1, item.value.0);
      done := next;
      i := i + 1;
    }
    var all := MapOption(ReadItem, parts);
    assert all.value == done;
    draw := Some(acc);
  }

  /** A colour that no item names keeps the count it started with. */
  lemma {:induction false} UnnamedColoursStay(start: CubeSet, items: seq<(int, string)>)
    ensures (forall i | 0 <= i < |items| :: items[i].1 != "red") ==> ApplyItems(start, items).red == start.red
    ensures (forall i | 0 <= i < |items| :: items[i].1 != "green") ==> ApplyItems(start, items).green == start.green
    ensures (forall i | 0 <= i < |items| :: items[i].1 != "blue") ==> ApplyItems(start, items).blue == start.blue
    decreases |items|
  {
    if |items| > 0 {
      var init := items[..|items| - 1];
      UnnamedColoursStay(start, init);
      assert forall i | 0 <= i < |init| :: init[i] == items[i];
    }
  }

  /** A later item for the same colour overwrites an earlier one: only the last count named for red counts. */
  lemma LastItemWins(start: CubeSet, items: seq<(int, string)>, n: int)
    ensures ApplyItems(start, items + [(n, "red")]).red == n
  {
    assert (items + [(n, "red")])[..|items|] == items;
  }

  // ---- writing draws and games, and reading them back -----------------------------

  /** Text free of the separators a game line uses: no space, comma, semicolon or colon. */
  predicate Word(t: string) {
    ' ' !in t && ',' !in t && ';' !in t && ':' !in t
  }

  /** The decimal text of a count is a word that reads back as the count. */
  lemma ShowIntWord(n: int)
    ensures Word(ShowInt(n)) && ParseInt(ShowInt(n)) == Some(n)
  {
    ParseShowInt(n);
    if ',' in ShowInt(n) { ShowIntChars(n, ','); }
    if ';' in ShowInt(n) { ShowIntChars(n, ';'); }
    if ':' in ShowInt(n) { ShowIntChars(n, ':'); }
  }

  /** One item as the puzzle writes it, with its leading space: `" 3 blue"`. */
  function ItemText(num: string, colour: string): string {
    " " + num + " " + colour
  }

  lemma ReadItemText(num: string, n: int, colour: string)
    requires Word(num) && Word(colour) && ParseInt(num) == Some(n)
    ensures ReadItem(ItemText(num, colour)) == Some((n, colour))
    ensures ',' !in ItemText(num, colour) && ';' !in ItemText(num, colour) && ':' !in ItemText(num, colour)
  {
    var s := ItemText(num, colour);
    assert s[..1] == " ";
    assert RemovePrefix(s, " ") == Join([num, colour], " ");
    SplitOnJoin([num, colour], " ");
  }

  /** The three items of a draw joined with commas: `" 4 red, 2 green, 6 blue"`. */
  function DrawTextOf(red: string, green: string, blue: string): string {
    Join([ItemText(red, "red"), ItemText(green, "green"), ItemText(blue, "blue")], ",")
  }

  function DrawText(d: CubeSet): string {
    DrawTextOf(ShowInt(d.red), ShowInt(d.green), ShowInt(d.blue))
  }

  /** Setting red, then green, then blue fills an empty set with the three counts. */
  lemma ApplyThree(d: CubeSet)
    ensures ApplyItems(Empty, [(d.red, "red"), (d.green, "green"), (d.blue, "blue")]) == d
  {
    var items := [(d.red, "red"), (d.green, "green"), (d.blue, "blue")];
    assert items[..2][..1] == [items[0]] && items[..2] == [items[0], items[1]];
    assert ApplyItems(Empty, items[..1]) == Empty.(red := d.red);
    assert ApplyItems(Empty, items[..2]) == Empty.(red := d.red, green := d.green);
  }

  /** Items free of commas, joined with commas, read back item by item and are applied in order. */
  lemma ReadDrawJoin(parts: seq<string>, items: seq<(int, string)>)
    requires |parts| == |items| > 0
    requires forall i | 0 <= i < |parts| :: ',' !in parts[i] && ReadItem(parts[i]) == Some(items[i])
    ensures ReadDraw(Join(parts, ",")) == Some(ApplyItems(Empty, items))
  {
    SplitOnJoin(parts, ",");
    MapOptionAll(ReadItem, parts, items);
  }

  lemma ReadThreeItems(p0: string, p1: string, p2: string, i0: (int, string), i1: (int, string), i2: (int, string))
    requires ',' !in p0 && ',' !in p1 && ',' !in p2
    requires ReadItem(p0) == Some(i0) && ReadItem(p1) == Some(i1) && ReadItem(p2) == Some(i2)
    ensures ReadDraw(Join([p0, p1, p2], ",")) == Some(ApplyItems(Empty, [i0, i1, i2]))
  {
    var parts, items := [p0, p1, p2], [i0, i1, i2];
    forall i | 0 <= i < 3
      ensures ',' !in parts[i] && ReadItem(parts[i]) == Some(items[i])
    {
      if i == 0 {
        assert parts[i] == p0 && items[i] == i0;
      } else if i == 1 {
        assert parts[i] == p1 && items[i] == i1;
      } else {
        assert parts[i] == p2 && items[i] == i2;
      }
    }
    ReadDrawJoin(parts, items);
  }

  lemma ReadDrawTextOf(red: string, green: string, blue: string, d: CubeSet)
    requires Word(red) && Word(green) && Word(blue)
    requires ParseInt(red) == Some(d.red) && ParseInt(green) == Some(d.green) && ParseInt(blue) == Some(d.blue)
    ensures ReadDraw(DrawTextOf(red, green, blue)) == Some(d)
  {
    var parts := [ItemText(red, "red"), ItemText(green, "green"), ItemText(blue, "blue")];
    var items := [(d.red, "red"), (d.green, "green"), (d.blue, "blue")];
    assert Word("red") && Word("green") && Word("blue");
    ReadItemText(red, d.red, "red");
    ReadItemText(green, d.green, "green");
    ReadItemText(blue, d.blue, "blue");
    ReadThreeItems(parts[0], parts[1], parts[2], items[0], items[1], items[2]);
    ApplyThree(d);
  }

  lemma DrawTextOfChars(red: string, green: string, blue: string)
    requires Word(red) && Word(green) && Word(blue)
    ensures ';' !in DrawTextOf(red, green, blue) && ':' !in DrawTextOf(red, green, blue)
  {
    var parts := [ItemText(red, "red"), ItemText(green, "green"), ItemText(blue, "blue")];
    assert Word("red") && Word("green") && Word("blue");
    JoinAvoids(parts, ",", ';');
    JoinAvoids(parts, ",", ':');
  }

  /** `from_line_part` reads back every draw written with all three colours. */
  lemma ReadDrawText(d: CubeSet)
    ensures ReadDraw(DrawText(d)) == Some(d)
    ensures ';' !in DrawText(d) && ':' !in DrawText(d)
  {
    ShowIntWord(d.red);
    ShowIntWord(d.green);
    ShowIntWord(d.blue);
    ReadDrawTextOf(ShowInt(d.red), ShowInt(d.green), ShowInt(d.blue), d);
    DrawTextOfChars(ShowInt(d.red), ShowInt(d.green), ShowInt(d.blue));
  }

  /** A game line as the puzzle writes it: `"Game 3:"` and the draws separated by `";"`. */
  function GameTextOf(id: string, draws: seq<string>): string
    requires |draws| > 0
  {
    "Game " + id + ":" + Join(draws, ";")
  }

  function GameText(g: Game): string
    requires |g.draws| > 0
  {
    GameTextOf(ShowInt(g.id), DrawTexts(g.draws))
  }

  function DrawTexts(draws: seq<CubeSet>): (r: seq<string>)
    ensures |r| == |draws| && forall i | 0 <= i < |draws| :: r[i] == DrawText(draws[i])
  {
    if |draws| == 0 then [] else [DrawText(draws[0])] + DrawTexts(draws[1..])
  }

  /** `from_line_part` on each `;`-separated part, failing if any part fails. */
  function ReadDraws(parts: seq<string>): Option<seq<CubeSet>> {
    MapOption(ReadDraw, parts)
  }

  /**
   * `Game.from_line`: exactly one `:`; the id is the second space-separated
   * word before it; one draw per `;`-separated part after it.
   */
  function FromLine(line: string): (r: Option<Game>)
    ensures r.Some? ==> |r.value.draws| > 0
  {
    var halves := SplitOn(line, ":");
    if |halves| != 2 then None
    else
      var idWords := SplitOn(halves[0], " ");
      if |idWords| < 2 then None
      else
        var id := ParseInt(idWords[1]);
        var draws := ReadDraws(SplitOn(halves[1], ";"));
        if id.None? || draws.None? then None
        else Some(Game(id.value, draws.value))
  }

  lemma GameHead(idText: string)
    requires Word(idText)
    ensures ':' !in "Game " + idText && SplitOn("Game " + idText, " ") == ["Game", idText]
  {
    assert "Game " + idText == Join(["Game", idText], " ");
    SplitOnJoin(["Game", idText], " ");
  }

  lemma FromLineTextOf(idText: string, id: int, texts: seq<string>, draws: seq<CubeSet>)
    requires Word(idText) && ParseInt(idText) == Some(id)
    requires |texts| == |draws| > 0
    requires forall i | 0 <= i < |texts| :: ';' !in texts[i] && ':' !in texts[i] && ReadDraw(texts[i]) == Some(draws[i])
    ensures FromLine(GameTextOf(idText, texts)) == Some(Game(id, draws))
  {
    var head, body := "Game " + idText, Join(texts, ";");
    JoinAvoids(texts, ";", ':');
    GameHead(idText);
    assert GameTextOf(idText, texts) == Join([head, body], ":");
    SplitOnJoin([head, body], ":");
    SplitOnJoin(texts, ";");
    MapOptionAll(ReadDraw, texts, draws);
  }

  /** Every game with at least one draw, written as the puzzle writes it, reads back as itself. */
  lemma FromLineText(g: Game)
    requires |g.draws| > 0
    ensures FromLine(GameText(g)) == Some(g)
  {
    var texts := DrawTexts(g.draws);
    forall i | 0 <= i < |texts| ensures ';' !in texts[i] && ':' !in texts[i] && ReadDraw(texts[i]) == Some(g.draws[i]) {
      ReadDrawText(g.draws[i]);
    }
    ShowIntWord(g.id);
    FromLineTextOf(ShowInt(g.id), g.id, texts, g.draws);
  }

  // ---- games ----------------------------------------------------------------------

  /** `is_possible`: every draw of the game can be drawn from the bag. */
  predicate IsPossible(g: Game, bag: CubeSet) {
    forall i | 0 <= i < |g.draws| :: CanBeDrawnFrom(g.draws[i], bag)
  }

  /** Python's `max` over a non-empty list. */
  function Max(xs: seq<int>): (m: int)
    requires |xs| > 0
    ensures m in xs && forall i | 0 <= i < |xs| :: xs[i] <= m
  {
    if |xs| == 1 then xs[0]
    else
      var rest := Max(xs[1..]);
      assert forall i | 1 <= i < |xs| :: xs[i] == xs[1..][i - 1];
      if xs[0] >= rest then xs[0] else rest
  }

  function Reds(draws: seq<CubeSet>): (r: seq<int>)
    ensures |r| == |draws| && forall i | 0 <= i < |draws| :: r[i] == draws[i].red
  {
    if |draws| == 0 then [] else [draws[0].red] + Reds(draws[1..])
  }

  function Greens(draws: seq<CubeSet>): (r: seq<int>)
    ensures |r| == |draws| && forall i | 0 <= i < |draws| :: r[i] == draws[i].green
  {
    if |draws| == 0 then [] else [draws[0].green] + Greens(draws[1..])
  }

  function Blues(draws: seq<CubeSet>): (r: seq<int>)
    ensures |r| == |draws| && forall i | 0 <= i < |draws| :: r[i] == draws[i].blue
  {
    if |draws| == 0 then [] else [draws[0].blue] + Blues(draws[1..])
  }

  /** The per-colour maxima over the draws: `min_red`, `min_green`, `min_blue` of `compute_power`. */
  function SmallestBag(g: Game): CubeSet
    requires |g.draws| > 0
  {
    CubeSet(Max(Reds(g.draws)), Max(Greens(g.draws)), Max(Blues(g.draws)))
  }

  /**
   * The per-colour maxima form the least bag the game is possible with: it
   * allows every draw, and every bag that allows the game holds at least as
   * many cubes of each colour.
   */
  lemma SmallestBagIsLeast(g: Game, bag: CubeSet)
    requires |g.draws| > 0
    ensures IsPossible(g, SmallestBag(g))
    ensures IsPossible(g, bag) <==> CanBeDrawnFrom(SmallestBag(g), bag)
  {
    var m := SmallestBag(g);
    forall i | 0 <= i < |g.draws| ensures CanBeDrawnFrom(g.draws[i], m) {
      assert Reds(g.draws)[i] == g.draws[i].red;
      assert Greens(g.draws)[i] == g.draws[i].green;
      assert Blues(g.draws)[i] == g.draws[i].blue;
    }
    if IsPossible(g, bag) {
      var r :| 0 <= r < |g.draws| && Reds(g.draws)[r] == m.red;
      var gr :| 0 <= gr < |g.draws| && Greens(g.draws)[gr] == m.green;
      var b :| 0 <= b < |g.draws| && Blues(g.draws)[b] == m.blue;
      assert CanBeDrawnFrom(g.draws[r], bag) && CanBeDrawnFrom(g.draws[gr], bag) && CanBeDrawnFrom(g.draws[b], bag);
      assert CanBeDrawnFrom(m, bag);
    }
    if CanBeDrawnFrom(m, bag) {
      forall i | 0 <= i < |g.draws| ensures CanBeDrawnFrom(g.draws[i], bag) {
        DrawnFromOrder(g.draws[i], m, bag);
      }
    }
  }

  /** `compute_power`: the product of the smallest bag's counts; `max` of no draws raises. */
  function ComputePower(g: Game): (p: Option<int>)
    ensures p.Some? <==> |g.draws| > 0
  {
    if |g.draws| == 0 then None
    else
      var m := SmallestBag(g);
      Some(m.red * m.blue * m.green)
  }

  /** Counts are never negative in a game read from text that has only digits, so neither is its power. */
  lemma PowerNonNegative(g: Game)
    requires |g.draws| > 0
    requires forall i | 0 <= i < |g.draws| :: g.draws[i].red >= 0 && g.draws[i].green >= 0 && g.draws[i].blue >= 0
    ensures ComputePower(g).value >= 0
  {
    var m := SmallestBag(g);
    assert m.red >= Reds(g.draws)[0] >= 0;
    assert m.green >= Greens(g.draws)[0] >= 0;
    assert m.blue >= Blues(g.draws)[0] >= 0;
    NonNegativeProduct(m.red, m.blue, m.green);
  }

  lemma NonNegativeProduct(a: int, b: int, c: int)
    requires a >= 0 && b >= 0 && c >= 0
    ensures a * b * c >= 0
  {
    assert a * b >= 0;
  }

  // ---- the two parts --------------------------------------------------------------

  /** `Game.from_line` for every line, failing if any line fails. */
  function ParseGames(lines: seq<string>): Option<seq<Game>> {
    MapOption(FromLine, lines)
  }

  const Bag := CubeSet(12, 13, 14)

  /** The positions from `from` on of the games possible with `bag`, in increasing order. */
  function PossibleIndices(games: seq<Game>, bag: CubeSet, from: nat): (ix: seq<nat>)
    requires from <= |games|
    ensures forall k | 0 <= k < |ix| :: from <= ix[k] < |games| && IsPossible(games[ix[k]], bag)
    ensures forall k, l | 0 <= k < l < |ix| :: ix[k] < ix[l]
    ensures forall i | from <= i < |games| && IsPossible(games[i], bag) :: i in ix
    decreases |games| - from
  {
    if from == |games| then []
    else if IsPossible(games[from], bag) then [from] + PossibleIndices(games, bag, from + 1)
    else PossibleIndices(games, bag, from + 1)
  }

  /** The ids of the games from `from` on that are possible with `bag`, in game order. */
  function PossibleIdsFrom(games: seq<Game>, bag: CubeSet, from: nat): (ids: seq<int>)
    requires from <= |games|
    ensures var ix := PossibleIndices(games, bag, from);
      |ids| == |ix| && forall k | 0 <= k < |ids| :: ids[k] == games[ix[k]].id
    decreases |games| - from
  {
    if from == |games| then []
    else if IsPossible(games[from], bag) then [games[from].id] + PossibleIdsFrom(games, bag, from + 1)
    else PossibleIdsFrom(games, bag, from + 1)
  }

  /**
   * `valid_game_ids`: the ids of the games possible with `bag`, in game
   * order, once per possible game: entry `k` is the id of the `k`-th
   * possible game.
   */
  function PossibleIds(games: seq<Game>, bag: CubeSet): (ids: seq<int>)
    ensures var ix := PossibleIndices(games, bag, 0);
      |ids| == |ix| && forall k | 0 <= k < |ids| :: ids[k] == games[ix[k]].id
    ensures |ids| <= |games|
    ensures forall i | 0 <= i < |games| :: IsPossible(games[i], bag) ==> games[i].id in ids
    ensures forall x | x in ids :: exists i | 0 <= i < |games| :: IsPossible(games[i], bag) && games[i].id == x
  {
    var ids := PossibleIdsFrom(games, bag, 0);
    var ix := PossibleIndices(games, bag, 0);
    IndicesWithin(ix, |games|);
    forall i | 0 <= i < |games| && IsPossible(games[i], bag) ensures games[i].id in ids {
      var k :| 0 <= k < |ix| && ix[k] == i;
      assert ids[k] == games[i].id;
    }
    forall x | x in ids ensures exists i | 0 <= i < |games| :: IsPossible(games[i], bag) && games[i].id == x {
      var k :| 0 <= k < |ids| && ids[k] == x;
      assert IsPossible(games[ix[k]], bag) && games[ix[k]].id == x;
    }
    ids
  }

  /** A strictly increasing list of positions below `n` holds at most `n` of them. */
  lemma {:induction false} IndicesWithin(ix: seq<nat>, n: nat)
    requires forall k | 0 <= k < |ix| :: ix[k] < n
    requires forall k, l | 0 <= k < l < |ix| :: ix[k] < ix[l]
    ensures |ix| <= n
    decreases n
  {
    if |ix| > 0 {
      assert ix[|ix| - 1] < n;
      var init := ix[..|ix| - 1];
      forall k | 0 <= k < |init| ensures init[k] < n - 1 {
        assert init[k] < ix[|ix| - 1];
      }
      IndicesWithin(init, n - 1);
    }
  }

  function Sum(xs: seq<int>): int {
    if |xs| == 0 then 0 else xs[0] + Sum(xs[1..])
  }

  /** Part 1: the sum of the ids of the games the bag of 12 red, 13 green and 14 blue allows. */
  function SolvePart1(lines: seq<string>): Option<int> {
    var games := ParseGames(lines);
    if games.None? then None else Some(Sum(PossibleIds(games.value, Bag)))
  }

  /** The powers of the games in order; every parsed game has a draw, so every power exists. */
  function Powers(games: seq<Game>): (r: seq<int>)
    requires forall i | 0 <= i < |games| :: |games[i].draws| > 0
    ensures |r| == |games| && forall i | 0 <= i < |games| :: Some(r[i]) == ComputePower(games[i])
  {
    if |games| == 0 then [] else [ComputePower(games[0]).value] + Powers(games[1..])
  }

  /** Part 2: the sum of the powers of all games. */
  function SolvePart2(lines: seq<string>): Option<int> {
    var games := ParseGames(lines);
    if games.None? then None
    else
      assert forall i | 0 <= i < |games.value| :: |games.value[i].draws| > 0 by {
        forall i | 0 <= i < |games.value| ensures |games.value[i].draws| > 0 {
          assert FromLine(lines[i]) == Some(games.value[i]);
        }
      }
      Some(Sum(Powers(games.value)))
  }

  /** The five games of the puzzle's example. */
  function ExampleGames(): seq<Game> {
    [Game(1, [CubeSet(4, 0, 3), CubeSet(1, 2, 6), CubeSet(0, 2, 0)]),
     Game(2, [CubeSet(0, 2, 1), CubeSet(1, 3, 4), CubeSet(0, 1, 1)]),
     Game(3, [CubeSet(20, 8, 6), CubeSet(4, 13, 5), CubeSet(1, 5, 0)]),
     Game(4, [CubeSet(3, 1, 6), CubeSet(6, 3, 0), CubeSet(14, 3, 15)]),
     Game(5, [CubeSet(6, 3, 1), CubeSet(1, 2, 2)])]
  }

  /** With 12 red, 13 green and 14 blue cubes, games 3 and 4 are impossible and the others possible. */
  lemma ExampleVerdicts()
    ensures IsPossible(ExampleGames()[0], Bag) && IsPossible(ExampleGames()[1], Bag)
    ensures !IsPossible(ExampleGames()[2], Bag) && !IsPossible(ExampleGames()[3], Bag)
    ensures IsPossible(ExampleGames()[4], Bag)
  {
    var gs := ExampleGames();
    assert !CanBeDrawnFrom(gs[2].draws[0], Bag);
    assert !CanBeDrawnFrom(gs[3].draws[2], Bag);
  }

  /** Games 1, 2 and 5 are possible, so part 1 gives 8. */
  lemma ExamplePart1()
    ensures PossibleIds(ExampleGames(), Bag) == [1, 2, 5]
    ensures Sum(PossibleIds(ExampleGames(), Bag)) == 8
  {
    ExampleIds();
    assert PossibleIds(ExampleGames(), Bag) == PossibleIdsFrom(ExampleGames(), Bag, 0);
  }

  /** The possible games of the example, collected from the last game back to the first. */
  lemma ExampleIds()
    ensures PossibleIdsFrom(ExampleGames(), Bag, 0) == [1, 2, 5]
  {
    var gs := ExampleGames();
    ExampleVerdicts();
    FiveGames(gs, Bag);
    assert gs[0].id == 1 && gs[1].id == 2 && gs[4].id == 5;
  }

  /** Five games of which the first, second and last are possible contribute exactly their three ids. */
  lemma FiveGames(gs: seq<Game>, bag: CubeSet)
    requires |gs| == 5
    requires IsPossible(gs[0], bag) && IsPossible(gs[1], bag) && IsPossible(gs[4], bag)
    requires !IsPossible(gs[2], bag) && !IsPossible(gs[3], bag)
    ensures PossibleIdsFrom(gs, bag, 0) == [gs[0].id, gs[1].id, gs[4].id]
  {
    assert PossibleIdsFrom(gs, bag, 5) == [];
    assert PossibleIdsFrom(gs, bag, 4) == [gs[4].id];
    assert PossibleIdsFrom(gs, bag, 2) == PossibleIdsFrom(gs, bag, 3) == [gs[4].id];
    assert PossibleIdsFrom(gs, bag, 1) == [gs[1].id, gs[4].id];
  }
}
