/**
 * Day 4, "Scratchcards" (day_4/solution.py).
 *
 * Each card lists winning numbers and the numbers one has. Part 1 scores a
 * card by its matches; part 2 lets each card win copies of the cards that
 * follow it, one per match.
 */
module Scratchcards {
  import opened Wrappers
  import opened Text

  /** `Card`: the winning numbers and my numbers, as written. */
  datatype Card = Card(winning: seq<int>, mine: seq<int>)

  // ---- reading ----------------------------------------------------------------------

  /**
   * `Card._read_numbers`: collapse double spaces, drop one leading and one
   * trailing space, split at single spaces and read each piece as an integer.
   */
  function ReadNumbers(s: string): Option<seq<int>> {
    var single := Replace(s, "  ", " ");
    var trimmed := RemoveSuffix(RemovePrefix(single, " "), " ");
    ParseInts(SplitOn(trimmed, " "))
  }

  /**
   * `Card.from_line`: the text after the first `:` and before any second one
   * must hold exactly one `|`; the numbers before it win, the numbers after it
   * are mine.
   */
  function CardFromLine(line: string): Option<Card> {
    var halves := SplitOn(line, ":");
    if |halves| < 2 then None
    else
      var parts := SplitOn(halves[1], "|");
      if |parts| != 2 then None
      else
        var winning, mine := ReadNumbers(parts[0]), ReadNumbers(parts[1]);
        if winning.None? || mine.None? then None else Some(Card(winning.value, mine.value))
  }

  /** A number's text right-aligned in a field two wide, as the puzzle lays numbers out. */
  function Field(t: string): string {
    if |t| == 1 then " " + t else t
  }

  /** Numbers each preceded by a space and right-aligned in two columns: `" 41  6 83"`. */
  function NumbersText(ts: seq<string>): string {
    if |ts| == 0 then "" else " " + Field(ts[0]) + NumbersText(ts[1..])
  }

  /** A card line as the puzzle writes it: a header, `:`, the winning numbers, ` |`, my numbers. */
  function CardText(header: string, winning: seq<string>, mine: seq<string>): string {
    header + ":" + NumbersText(winning) + " |" + NumbersText(mine)
  }

  /** The text of one number: not empty, no spaces. */
  predicate Token(t: string) {
    |t| > 0 && ' ' !in t
  }

  lemma ReplaceField(t: string, rest: string)
    requires Token(t)
    ensures Replace(" " + Field(t) + rest, "  ", " ") == " " + t + Replace(rest, "  ", " ")
  {
    ReplaceAfter(t, rest, "  ", " ");
    if |t| == 1 {
      PaddedField(t, rest);
    } else {
      WideField(t, rest);
    }
  }

  lemma PaddedField(t: string, rest: string)
    requires |t| == 1
    ensures Replace(" " + Field(t) + rest, "  ", " ") == " " + Replace(t + rest, "  ", " ")
  {
    assert " " + Field(t) + rest == "  " + (t + rest);
    ReplaceFront("  ", " ", t + rest);
  }

  lemma WideField(t: string, rest: string)
    requires |t| > 1 && t[0] != ' '
    ensures Replace(" " + Field(t) + rest, "  ", " ") == " " + Replace(t + rest, "  ", " ")
  {
    var s := " " + (t + rest);
    assert " " + Field(t) + rest == s && s[1..] == t + rest;
    assert s[..2][1] == t[0];
    ReplaceKeepsFirst(s, "  ", " ");
  }

  /** A text shorter than the pattern is left as it is. */
  lemma ReplaceShort(tail: string)
    requires |tail| < 2
    ensures Replace(tail, "  ", " ") == tail
  {
  }

  /** The first field of the layout collapses to a space and its number; the scan goes on with the rest. */
  lemma CollapseHead(ts: seq<string>, tail: string)
    requires |ts| > 0 && Token(ts[0])
    ensures Replace(NumbersText(ts) + tail, "  ", " ") == " " + ts[0] + Replace(NumbersText(ts[1..]) + tail, "  ", " ")
  {
    var rest := NumbersText(ts[1..]) + tail;
    assert NumbersText(ts) + tail == " " + Field(ts[0]) + rest;
    ReplaceField(ts[0], rest);
  }

  /** Collapsing double spaces turns the two-column layout into numbers separated by single spaces. */
  lemma {:induction false} CollapseFields(ts: seq<string>, tail: string)
    requires |ts| > 0 && forall i | 0 <= i < |ts| :: Token(ts[i])
    requires |tail| < 2
    ensures Replace(NumbersText(ts) + tail, "  ", " ") == " " + Join(ts, " ") + tail
    decreases |ts|
  {
    var t, more := ts[0], ts[1..];
    CollapseHead(ts, tail);
    if |ts| == 1 {
      assert NumbersText(more) + tail == tail;
      ReplaceShort(tail);
    } else {
      var j := Join(more, " ");
      assert forall i | 0 <= i < |more| :: Token(more[i]) by {
        forall i | 0 <= i < |more| ensures Token(more[i]) { assert more[i] == ts[i + 1]; }
      }
      CollapseFields(more, tail);
      assert Join(ts, " ") == t + " " + j;
      Regroup(t, j, tail);
    }
  }

  /** Regrouping concatenations around the joined fields. */
  lemma Regroup(t: string, j: string, tail: string)
    ensures " " + t + (" " + j + tail) == " " + (t + " " + j) + tail
  {
  }

  /** `_read_numbers` reads the two-column layout, with or without one trailing space, number by number. */
  lemma ReadNumbersText(ts: seq<string>, tail: string)
    requires |ts| > 0 && forall i | 0 <= i < |ts| :: Token(ts[i])
    requires tail == "" || tail == " "
    ensures ReadNumbers(NumbersText(ts) + tail) == ParseInts(ts)
  {
    CollapseFields(ts, tail);
    NoTrailingSpace(ts);
    Trim(Join(ts, " "), tail);
    SplitOnJoin(ts, " ");
  }

  /** Tokens joined with spaces do not end with a space. */
  lemma NoTrailingSpace(ts: seq<string>)
    requires |ts| > 0 && forall i | 0 <= i < |ts| :: Token(ts[i])
    ensures !EndsWith(Join(ts, " "), " ")
  {
    var j, last := Join(ts, " "), ts[|ts| - 1];
    JoinEnd(ts, " ");
    assert j[|j| - 1] == j[|j| - |last|..][|last| - 1] == last[|last| - 1];
  }

  /** Dropping one leading and one trailing space undoes the framing. */
  lemma Trim(j: string, tail: string)
    requires tail == "" || tail == " "
    requires !EndsWith(j, " ")
    ensures RemoveSuffix(RemovePrefix(" " + j + tail, " "), " ") == j
  {
    assert " " + j + tail == " " + (j + tail);
    RemoveFront(" ", j + tail);
    if tail == " " {
      RemoveBack(j, " ");
    }
  }

  lemma {:induction false} NumbersTextAvoids(ts: seq<string>, c: char)
    requires c != ' ' && forall i | 0 <= i < |ts| :: c !in ts[i]
    ensures c !in NumbersText(ts)
    decreases |ts|
  {
    if |ts| > 0 {
      NumbersTextAvoids(ts[1..], c);
    }
  }

  /** Two parts around one separator, neither holding its first character, split back into the two. */
  lemma SplitPair(a: string, b: string, sep: string)
    requires |sep| > 0 && sep[0] !in a && sep[0] !in b
    ensures SplitOn(a + sep + b, sep) == [a, b]
  {
    assert [a, b][1..] == [b];
    assert Join([a, b], sep) == a + sep + b;
    SplitOnJoin([a, b], sep);
  }

  /** Where the card text is cut at `:` and then at `|`. */
  lemma CardTextSplits(header: string, wt: seq<string>, mt: seq<string>)
    requires ':' !in header
    requires forall i | 0 <= i < |wt| :: ':' !in wt[i] && '|' !in wt[i]
    requires forall i | 0 <= i < |mt| :: ':' !in mt[i] && '|' !in mt[i]
    ensures var rest := NumbersText(wt) + " |" + NumbersText(mt);
      && SplitOn(CardText(header, wt, mt), ":") == [header, rest]
      && SplitOn(rest, "|") == [NumbersText(wt) + " ", NumbersText(mt)]
  {
    var w, m := NumbersText(wt) + " ", NumbersText(mt);
    NumbersTextAvoids(wt, ':');
    NumbersTextAvoids(wt, '|');
    NumbersTextAvoids(mt, ':');
    NumbersTextAvoids(mt, '|');
    var rest := NumbersText(wt) + " |" + NumbersText(mt);
    assert rest == w + "|" + m;
    assert ':' !in w;
    assert ':' !in rest;
    assert CardText(header, wt, mt) == header + ":" + rest;
    SplitPair(header, rest, ":");
    SplitPair(w, m, "|");
  }

  lemma CardFromText(header: string, wt: seq<string>, mt: seq<string>, winning: seq<int>, mine: seq<int>)
    requires ':' !in header
    requires |wt| > 0 && forall i | 0 <= i < |wt| :: Token(wt[i]) && ':' !in wt[i] && '|' !in wt[i]
    requires |mt| > 0 && forall i | 0 <= i < |mt| :: Token(mt[i]) && ':' !in mt[i] && '|' !in mt[i]
    requires ParseInts(wt) == Some(winning) && ParseInts(mt) == Some(mine)
    ensures CardFromLine(CardText(header, wt, mt)) == Some(Card(winning, mine))
  {
    CardTextSplits(header, wt, mt);
    ReadNumbersText(wt, " ");
    ReadNumbersText(mt, "");
    assert NumbersText(mt) + "" == NumbersText(mt);
  }

  /** Every card with numbers on both sides, laid out as the puzzle does, reads back as itself. */
  lemma CardLineRoundTrip(header: string, card: Card)
    requires ':' !in header && |card.winning| > 0 && |card.mine| > 0
    ensures CardFromLine(CardText(header, ShowInts(card.winning), ShowInts(card.mine))) == Some(card)
  {
    var wt, mt := ShowInts(card.winning), ShowInts(card.mine);
    forall i | 0 <= i < |wt| ensures Token(wt[i]) && ':' !in wt[i] && '|' !in wt[i] {
      ParseShowInt(card.winning[i]);
      if ':' in wt[i] { ShowIntChars(card.winning[i], ':'); }
      if '|' in wt[i] { ShowIntChars(card.winning[i], '|'); }
    }
    forall i | 0 <= i < |mt| ensures Token(mt[i]) && ':' !in mt[i] && '|' !in mt[i] {
      ParseShowInt(card.mine[i]);
      if ':' in mt[i] { ShowIntChars(card.mine[i], ':'); }
      if '|' in mt[i] { ShowIntChars(card.mine[i], '|'); }
    }
    ParseShowInts(card.winning);
    ParseShowInts(card.mine);
    CardFromText(header, wt, mt, card.winning, card.mine);
  }

  // ---- scoring ----------------------------------------------------------------------

  /** The comprehension in `count_overlapping_numbers`: my numbers, in order and with repeats, that also win. */
  function Overlapping(winning: seq<int>, mine: seq<int>): (r: seq<int>)
    ensures |r| <= |mine|
    ensures |r| == 0 <==> forall i | 0 <= i < |mine| :: mine[i] !in winning
    ensures |r| == |mine| <==> forall i | 0 <= i < |mine| :: mine[i] in winning
    ensures forall x | x in r :: x in winning && x in mine
  {
    if |mine| == 0 then []
    else
      var init, last := mine[..|mine| - 1], mine[|mine| - 1];
      assert forall i | 0 <= i < |init| :: init[i] == mine[i];
      assert forall x | x in init :: x in mine;
      Overlapping(winning, init) + (if last in winning then [last] else [])
  }

  /**
   * The comprehension keeps each of my numbers that wins as often as it
   * occurs among mine, and no other number.
   */
  lemma {:induction false} OverlappingCount(winning: seq<int>, mine: seq<int>)
    ensures forall x :: multiset(Overlapping(winning, mine))[x] == if x in winning then multiset(mine)[x] else 0
    decreases |mine|
  {
    if |mine| > 0 {
      var init, last := mine[..|mine| - 1], mine[|mine| - 1];
      OverlappingCount(winning, init);
      assert mine == init + [last];
      assert multiset(mine) == multiset(init) + multiset{last};
    }
  }

  /** `count_overlapping_numbers`. */
  function CountOverlapping(card: Card): nat {
    |Overlapping(card.winning, card.mine)|
  }

  function Pow2(k: nat): (r: nat)
    ensures r >= 1
  {
    if k == 0 then 1 else 2 * Pow2(k - 1)
  }

  /** `calculate_points`: nothing without a match, one point for the first match, doubled for each further one. */
  function Points(card: Card): (p: nat)
    ensures p == 0 <==> forall i | 0 <= i < |card.mine| :: card.mine[i] !in card.winning
  {
    var count := CountOverlapping(card);
    if count > 0 then Pow2(count - 1) else 0
  }

  /** One more of my numbers that wins doubles a card's points, or makes the first point. */
  lemma PointsDouble(card: Card, x: int)
    requires x in card.winning
    ensures var more := Card(card.winning, card.mine + [x]);
      Points(more) == if Points(card) == 0 then 1 else 2 * Points(card)
  {
    var more := card.mine + [x];
    assert more[..|more| - 1] == card.mine;
  }

  /** One more of my numbers that does not win leaves a card's points as they were. */
  lemma PointsNoWin(card: Card, x: int)
    requires x !in card.winning
    ensures Points(Card(card.winning, card.mine + [x])) == Points(card)
  {
    var more := card.mine + [x];
    assert more[..|more| - 1] == card.mine;
  }

  /** The points never exceed what a card all of whose numbers win scores. */
  lemma PointsBound(card: Card)
    requires |card.mine| > 0
    ensures Points(card) <= Pow2(|card.mine| - 1)
  {
    var count := CountOverlapping(card);
    if count > 0 {
      Pow2Monotone(count - 1, |card.mine| - 1);
    }
  }

  lemma {:induction false} Pow2Monotone(a: nat, b: nat)
    requires a <= b
    ensures Pow2(a) <= Pow2(b)
    decreases b
  {
    if a < b {
      Pow2Monotone(a, b - 1);
    }
  }

  function SumPoints(cards: seq<Card>): nat {
    if |cards| == 0 then 0 else Points(cards[0]) + SumPoints(cards[1..])
  }

  /** `solve_part_1`: read every line as a card and add up the points; any unreadable line fails. */
  function SolvePart1(lines: seq<string>): (r: Option<nat>)
    ensures r.Some? <==> forall i | 0 <= i < |lines| :: CardFromLine(lines[i]).Some?
  {
    var cards := MapOption(CardFromLine, lines);
    if cards.None? then None else Some(SumPoints(cards.value))
  }

  // ---- copies -----------------------------------------------------------------------

  /** The match count of every card, in order. */
  function Matches(cards: seq<Card>): (m: seq<nat>)
    ensures |m| == |cards| && forall i | 0 <= i < |cards| :: m[i] == CountOverlapping(cards[i])
  {
    if |cards| == 0 then [] else [CountOverlapping(cards[0])] + Matches(cards[1..])
  }

  /**
   * The number of copies of card `k` one ends with: the original, plus one for
   * every copy of an earlier card whose matches reach card `k`.
   */
  function CopiesOf(m: seq<nat>, k: nat): nat
    requires k < |m|
    decreases k, 1
  {
    1 + Inflow(m, k, k)
  }

  /** The copies of card `k` won by cards `0 .. upto - 1`. */
  function Inflow(m: seq<nat>, k: nat, upto: nat): nat
    requires k < |m| && upto <= |m|
    decreases upto, 0
  {
    if upto == 0 then 0
    else
      var i := upto - 1;
      Inflow(m, k, i) + (if i < k <= i + m[i] then CopiesOf(m, i) else 0)
  }

  /** Cards from `k` on win no copies of card `k`. */
  lemma {:induction false} InflowSettled(m: seq<nat>, k: nat, upto: nat)
    requires k <= upto <= |m| && k < |m|
    ensures Inflow(m, k, upto) == Inflow(m, k, k)
    decreases upto
  {
    if upto > k {
      InflowSettled(m, k, upto - 1);
    }
  }

  /**
   * The loop of `solve_part_2`: every card starts with one copy; card `i`
   * adds its copies to each of the next `count` cards. A card whose matches
   * reach past the last card makes the index fail.
   */
  /** Some card wins copies of cards past the end of the table. */
  predicate WinsPastEnd(cards: seq<Card>) {
    exists i | 0 <= i < |cards| :: i + Matches(cards)[i] >= |cards|
  }

  method CopyCounts(cards: seq<Card>) returns (r: Option<seq<nat>>)
    ensures r.None? <==> WinsPastEnd(cards)
    ensures r.Some? ==> |r.value| == |cards| && forall k | 0 <= k < |cards| :: r.value[k] == CopiesOf(Matches(cards), k)
  {
    ghost var m := Matches(cards);
    var copies := new nat[|cards|](_ => 1);
    assert Tallied(m, copies[..], 0);
    for i := 0 to |cards|
      invariant WithinTable(m, i)
      invariant Tallied(m, copies[..], i)
    {
      var count := CountOverlapping(cards[i]);
      assert m[i] == count;
      ghost var before := copies[..];
      var ok := AddCopies(copies, i, count);
      if !ok {
        assert 0 <= i < |cards| && i + Matches(cards)[i] >= |cards|;
        return None;
      }
      assert i + m[i] < |cards|;
      InflowAdvance(m, before, copies[..], i);
    }
    assert !WinsPastEnd(cards);
    CopiesSettled(m, copies[..]);
    return Some(copies[..]);
  }

  /** None of cards `0 .. i - 1` wins copies past the end of the table. */
  ghost predicate WithinTable(m: seq<nat>, i: nat) {
    forall p | 0 <= p < i && p < |m| :: p + m[p] < |m|
  }

  /** `s` holds, for every card, the original plus the copies won by cards `0 .. i - 1`. */
  ghost predicate Tallied(m: seq<nat>, s: seq<nat>, i: nat) {
    |s| == |m| && i <= |m| && forall k | 0 <= k < |m| :: s[k] == 1 + Inflow(m, k, i)
  }

  /** Once every card is tallied, each count is the card's final number of copies. */
  lemma CopiesSettled(m: seq<nat>, s: seq<nat>)
    requires Tallied(m, s, |m|)
    ensures forall k | 0 <= k < |m| :: s[k] == CopiesOf(m, k)
  {
    forall k | 0 <= k < |m|
      ensures s[k] == CopiesOf(m, k)
    {
      InflowSettled(m, k, |m|);
    }
  }

  /**
   * The inner loop of `solve_part_2`: the copies of card `i` are added to
   * each of the next `count` cards; it fails, like the list index in the
   * source, when one of those cards does not exist.
   */
  method AddCopies(copies: array<nat>, i: nat, count: nat) returns (ok: bool)
    requires i < copies.Length
    modifies copies
    ensures ok <==> i + count < copies.Length
    ensures ok ==> forall k | 0 <= k < copies.Length ::
      copies[k] == old(copies[k]) + (if i < k <= i + count then old(copies[i]) else 0)
  {
    for j := i + 1 to i + 1 + count
      invariant j <= copies.Length
      invariant forall k | 0 <= k < copies.Length ::
        copies[k] == old(copies[k]) + (if i < k < j then old(copies[i]) else 0)
    {
      if j >= copies.Length {
        return false;
      }
      copies[j] := copies[j] + copies[i];
    }
    return true;
  }

  /** Adding the copies of card `i` to the cards it wins accounts for card `i`'s share of every count. */
  lemma InflowAdvance(m: seq<nat>, before: seq<nat>, after: seq<nat>, i: nat)
    requires i < |m| && |before| == |m| && |after| == |m|
    requires Tallied(m, before, i)
    requires forall k | 0 <= k < |m| :: after[k] == before[k] + (if i < k <= i + m[i] then before[i] else 0)
    ensures Tallied(m, after, i + 1)
  {
    assert before[i] == CopiesOf(m, i);
    forall k | 0 <= k < |m|
      ensures after[k] == 1 + Inflow(m, k, i + 1)
    {
      InflowStep(m, i, k);
    }
  }

  /** Card `i` adds its copies to card `k` exactly when `k` is one of the next `m[i]` cards. */
  lemma InflowStep(m: seq<nat>, i: nat, k: nat)
    requires i < |m| && k < |m|
    ensures Inflow(m, k, i + 1) == Inflow(m, k, i) + (if i < k <= i + m[i] then CopiesOf(m, i) else 0)
  {
  }

  function Sum(xs: seq<nat>): nat {
    if |xs| == 0 then 0 else xs[0] + Sum(xs[1..])
  }

  lemma {:induction false} SumAtLeastLength(xs: seq<nat>)
    requires forall i | 0 <= i < |xs| :: xs[i] >= 1
    ensures Sum(xs) >= |xs|
    decreases |xs|
  {
    if |xs| > 0 {
      SumAtLeastLength(xs[1..]);
    }
  }

  /** The copy counts of all cards, in order. */
  function AllCopies(m: seq<nat>): (r: seq<nat>)
    ensures |r| == |m| && forall k | 0 <= k < |m| :: r[k] == CopiesOf(m, k) && r[k] >= 1
  {
    seq(|m|, k requires 0 <= k < |m| => CopiesOf(m, k))
  }

  /**
   * `solve_part_2`: read the cards, count the copies and add them up. Every
   * card ends with at least its original, so the total is at least the number
   * of cards.
   */
  method SolvePart2(lines: seq<string>) returns (total: Option<nat>)
    ensures MapOption(CardFromLine, lines).None? ==> total.None?
    ensures MapOption(CardFromLine, lines).Some? ==>
      var cards := MapOption(CardFromLine, lines).value;
      && (total.None? <==> WinsPastEnd(cards))
      && (total.Some? ==> total.value == Sum(AllCopies(Matches(cards))) && total.value >= |cards|)
  {
    var cards := MapOption(CardFromLine, lines);
    if cards.None? {
      return None;
    }
    var copies := CopyCounts(cards.value);
    if copies.None? {
      return None;
    }
    ghost var all := AllCopies(Matches(cards.value));
    assert copies.value == all by {
      assert |copies.value| == |all|;
      forall k | 0 <= k < |all| ensures copies.value[k] == all[k] { }
    }
    SumAtLeastLength(all);
    total := Some(Sum(copies.value));
  }

  /** The puzzle's example: cards with 4, 2, 2, 1, 0 and 0 matches end with 1, 2, 4, 8, 14 and 1 copies. */
  lemma ExampleCopies()
    ensures AllCopies([4, 2, 2, 1, 0, 0]) == [1, 2, 4, 8, 14, 1]
    ensures Sum(AllCopies([4, 2, 2, 1, 0, 0])) == 30
  {
    var m: seq<nat> := [4, 2, 2, 1, 0, 0];
    assert CopiesOf(m, 0) == 1;
    assert CopiesOf(m, 1) == 2;
    assert CopiesOf(m, 2) == 4;
    assert CopiesOf(m, 3) == 8;
    assert CopiesOf(m, 4) == 14;
    assert CopiesOf(m, 5) == 1;
  }
}
