/**
 * Day 17, "Clumsy Crucible" (day_17/solution.py).
 *
 * A crucible moves over a grid of heat-loss digits from the top-left to the
 * bottom-right corner. It may not reverse and may go at most three cells in
 * a row in one direction. The search keeps a dictionary of visited states
 * and a priority queue of found paths; this module models the moves, the
 * states, and one expansion of a state: which successors are pushed, at
 * what distance, and what is marked visited.
 */
module ClumsyCrucible {
  import opened Wrappers

  datatype Direction = N | E | S | W

  /** The directions in the order `get_args(Direction)` lists them. */
  const Directions: seq<Direction> := [N, E, S, W]

  /** The position of a direction in `Directions`. */
  function Index(d: Direction): (i: nat)
    ensures i < 4 && Directions[i] == d
  {
    match d
    case N => 0
    case E => 1
    case S => 2
    case W => 3
  }

  /** The direction back the way one came. */
  function Opposite(d: Direction): Direction {
    match d
    case N => S
    case S => N
    case E => W
    case W => E
  }

  /** `are_opposites`: north and south, east and west. */
  function AreOpposites(d1: Direction, d2: Direction): (b: bool)
    ensures b <==> d2 == Opposite(d1)
  {
    match d1
    case N => d2 == S
    case S => d2 == N
    case E => d2 == W
    case W => d2 == E
  }

  /** Being opposite is symmetric and no direction is opposite to itself. */
  lemma OppositesSymmetric(d1: Direction, d2: Direction)
    ensures AreOpposites(d1, d2) <==> AreOpposites(d2, d1)
    ensures !AreOpposites(d1, d1)
    ensures Opposite(Opposite(d1)) == d1
  {
  }

  /** `get_coordinates`: the neighbouring cell in a direction. */
  function GetCoordinates(row: int, col: int, direction: Direction): (int, int) {
    match direction
    case N => (row - 1, col)
    case S => (row + 1, col)
    case E => (row, col + 1)
    case W => (row, col - 1)
  }

  /** Two cells share a side. */
  predicate Adjacent(r1: int, c1: int, r2: int, c2: int) {
    (r1 == r2 && (c1 - c2 == 1 || c2 - c1 == 1)) || (c1 == c2 && (r1 - r2 == 1 || r2 - r1 == 1))
  }

  /** A move goes to a neighbouring cell, and the opposite move comes back. */
  lemma MoveAndBack(row: int, col: int, d: Direction)
    ensures var (r, c) := GetCoordinates(row, col, d); Adjacent(row, col, r, c)
    ensures var (r, c) := GetCoordinates(row, col, d); GetCoordinates(r, c, Opposite(d)) == (row, col)
  {
  }

  /** `Node`: a cell, the direction that led to it and how often in a row it was taken. */
  datatype Node = Node(row: int, column: int, lastTakenDirection: Direction, repetitivelyTakenDirection: int)

  /** The dictionary key for a node. */
  type NodeKey = (int, int, Direction, int)

  /** `node_to_tuple` */
  function NodeToTuple(node: Node): NodeKey {
    (node.row, node.column, node.lastTakenDirection, node.repetitivelyTakenDirection)
  }

  /** `node_from_tuple`: the inverse of `NodeToTuple`. */
  function NodeFromTuple(tup: NodeKey): (node: Node)
    ensures NodeToTuple(node) == tup
  {
    var (row, column, lastTakenDirection, repetitivelyTakenDirection) := tup;
    Node(row, column, lastTakenDirection, repetitivelyTakenDirection)
  }

  lemma NodeTupleRoundTrip(node: Node)
    ensures NodeFromTuple(NodeToTuple(node)) == node
  {
  }

  /** `DijkstraInfo`: where a state was reached from and at what heat loss. */
  datatype DijkstraInfo = DijkstraInfo(previousNode: Node, shortestPath: int)

  // ---- moves ----------------------------------------------------------------------------

  /**
   * The state reached from `current` by going in direction `d`, if that
   * move is allowed: not back, not off the grid, and not a fourth time in a
   * row.
   */
  function Successor(current: Node, d: Direction, destinationRow: int, destinationCol: int): Option<Node> {
    if AreOpposites(current.lastTakenDirection, d) then None
    else
      var (row, col) := GetCoordinates(current.row, current.column, d);
      if !(0 <= row <= destinationRow && 0 <= col <= destinationCol) then None
      else
        var repeats := if current.lastTakenDirection == d then current.repetitivelyTakenDirection + 1 else 1;
        if repeats > 3 then None else Some(Node(row, col, d, repeats))
  }

  /**
   * A move is allowed exactly when it does not reverse, stays on the grid
   * and, going straight, does not exceed three in a row; it lands on a
   * neighbouring cell, counting up when straight and starting at 1 after a
   * turn.
   */
  lemma SuccessorRules(current: Node, d: Direction, destinationRow: int, destinationCol: int)
    ensures var (row, col) := GetCoordinates(current.row, current.column, d);
      Successor(current, d, destinationRow, destinationCol).Some? <==>
        && !AreOpposites(current.lastTakenDirection, d)
        && 0 <= row <= destinationRow && 0 <= col <= destinationCol
        && (current.lastTakenDirection == d ==> current.repetitivelyTakenDirection < 3)
    ensures match Successor(current, d, destinationRow, destinationCol)
      case Some(next) =>
        && next.lastTakenDirection == d
        && Adjacent(current.row, current.column, next.row, next.column)
        && 0 <= next.row <= destinationRow && 0 <= next.column <= destinationCol
        && next.repetitivelyTakenDirection <= 3
        && next.repetitivelyTakenDirection == if current.lastTakenDirection == d then current.repetitivelyTakenDirection + 1 else 1
      case None => true
  {
    MoveAndBack(current.row, current.column, d);
  }

  // ---- one expansion ------------------------------------------------------------------------

  /** The heat-loss grid: every row `width` long. */
  predicate Shaped(grid: seq<seq<int>>, width: nat) {
    forall i | 0 <= i < |grid| :: |grid[i]| == width
  }

  /** The inner `while`: mark the cell and direction visited for `j` up to 3 times in a row. */
  function MarkFrom(visited: map<NodeKey, DijkstraInfo>, row: int, col: int, d: Direction, j: int, info: DijkstraInfo): map<NodeKey, DijkstraInfo>
    decreases 4 - j
  {
    if j > 3 then visited else MarkFrom(visited[(row, col, d, j) := info], row, col, d, j + 1, info)
  }

  /** Marking sets exactly the keys of that cell and direction from `j` to 3. */
  lemma {:induction false} MarkFromSets(visited: map<NodeKey, DijkstraInfo>, row: int, col: int, d: Direction, j: int, info: DijkstraInfo)
    ensures var m := MarkFrom(visited, row, col, d, j, info);
      && (forall key: NodeKey :: key in m <==> key in visited || (key.0 == row && key.1 == col && key.2 == d && j <= key.3 <= 3))
      && (forall key | key in m :: m[key] == if key.0 == row && key.1 == col && key.2 == d && j <= key.3 <= 3 then info else visited[key])
    decreases 4 - j
  {
    if j <= 3 {
      MarkFromSets(visited[(row, col, d, j) := info], row, col, d, j + 1, info);
    }
  }

  /** What one pass of the `for direction` loop does for direction `d`. */
  function ExpandOne(grid: seq<seq<int>>, width: nat, visited: map<NodeKey, DijkstraInfo>, current: Node, currentDist: int, d: Direction): (map<NodeKey, DijkstraInfo>, seq<(int, Node)>)
    requires Shaped(grid, width)
  {
    match Successor(current, d, |grid| - 1, width - 1)
    case None => (visited, [])
    case Some(next) =>
      if NodeToTuple(next) in visited then (visited, [])
      else
        var nextDistance := currentDist + grid[next.row][next.column];
        (MarkFrom(visited, next.row, next.column, d, next.repetitivelyTakenDirection, DijkstraInfo(current, nextDistance)),
         [(nextDistance, next)])
  }

  /** The visited map and the pushed entries after the first `i` directions. */
  function ExpandUpTo(grid: seq<seq<int>>, width: nat, visited: map<NodeKey, DijkstraInfo>, current: Node, currentDist: int, i: nat): (map<NodeKey, DijkstraInfo>, seq<(int, Node)>)
    requires Shaped(grid, width) && i <= 4
  {
    if i == 0 then (visited, [])
    else
      var (marked, pushed) := ExpandUpTo(grid, width, visited, current, currentDist, i - 1);
      var (marked', pushed') := ExpandOne(grid, width, marked, current, currentDist, Directions[i - 1]);
      (marked', pushed + pushed')
  }

  /**
   * The body of the `while` loop in `solve_part_1` for one state taken from
   * the queue: try every direction, skip the moves not allowed and the
   * states already visited, push the rest with their distance and mark them
   * visited together with the states of more repeats in the same cell and
   * direction.
   */
  method ExpandNode(grid: seq<seq<int>>, width: nat, visited: map<NodeKey, DijkstraInfo>, current: Node, currentDist: int)
    returns (visitedNodes: map<NodeKey, DijkstraInfo>, pushed: seq<(int, Node)>)
    requires Shaped(grid, width)
    ensures (visitedNodes, pushed) == Expanded(grid, width, visited, current, currentDist)
  {
    var destinationRow, destinationCol := |grid| - 1, width - 1;
    visitedNodes, pushed := visited, [];
    for i := 0 to 4
      invariant (visitedNodes, pushed) == ExpandUpTo(grid, width, visited, current, currentDist, i)
    {
      var direction := Directions[i];
      ghost var step := ExpandOne(grid, width, visitedNodes, current, currentDist, direction);
      assert ExpandUpTo(grid, width, visited, current, currentDist, i + 1) == (step.0, pushed + step.1);
      assert pushed + [] == pushed;
      if AreOpposites(current.lastTakenDirection, direction) {
        continue;
      }
      var (row, col) := GetCoordinates(current.row, current.column, direction);
      if !(0 <= row <= destinationRow && 0 <= col <= destinationCol) {
        continue;
      }
      var repeats;
      if current.lastTakenDirection == direction {
        repeats := current.repetitivelyTakenDirection + 1;
        if repeats > 3 {
          continue;
        }
      } else {
        repeats := 1;
      }
      var nextNode := Node(row, col, direction, repeats);
      if NodeToTuple(nextNode) in visitedNodes {
        continue;
      }
      var nextDistance := currentDist + grid[row][col];
      var info := DijkstraInfo(current, nextDistance);
      ghost var before := visitedNodes;
      ghost var first := repeats;
      visitedNodes := visitedNodes[NodeToTuple(nextNode) := info];
      pushed := pushed + [(nextDistance, nextNode)];
      while repeats < 3
        invariant first <= repeats <= 3
        invariant MarkFrom(visitedNodes, row, col, direction, repeats + 1, info) == MarkFrom(before, row, col, direction, first, info)
      {
        repeats := repeats + 1;
        nextNode := Node(row, col, direction, repeats);
        visitedNodes := visitedNodes[NodeToTuple(nextNode) := info];
      }
    }
  }

  // ---- what an expansion promises ---------------------------------------------------------------

  /** One direction's pass touches only keys of that direction, and never drops a key. */
  lemma ExpandOneKeeps(grid: seq<seq<int>>, width: nat, visited: map<NodeKey, DijkstraInfo>, current: Node, currentDist: int, d: Direction)
    requires Shaped(grid, width)
    ensures var (marked, pushed) := ExpandOne(grid, width, visited, current, currentDist, d);
      && (forall key | key in visited :: key in marked)
      && (forall key: NodeKey | key.2 != d :: (key in marked <==> key in visited) && (key in visited ==> marked[key] == visited[key]))
      && |pushed| <= 1
  {
    match Successor(current, d, |grid| - 1, width - 1)
    case None =>
    case Some(next) =>
      var info := DijkstraInfo(current, currentDist + grid[next.row][next.column]);
      MarkFromSets(visited, next.row, next.column, d, next.repetitivelyTakenDirection, info);
  }

  /** The allowed move in direction `d`, when it reaches an unvisited state, is among the pushed entries. */
  predicate Covered(grid: seq<seq<int>>, width: nat, visited: map<NodeKey, DijkstraInfo>, current: Node, d: Direction, pushed: seq<(int, Node)>) {
    match Successor(current, d, |grid| - 1, width - 1)
    case Some(next) => NodeToTuple(next) !in visited ==> exists e | e in pushed :: e.1 == next
    case None => true
  }

  /** An entry pushed for direction `d` is an allowed move to an unvisited state, at the right distance, marked visited. */
  predicate PushedRight(grid: seq<seq<int>>, width: nat, visited: map<NodeKey, DijkstraInfo>, current: Node, currentDist: int,
                        marked: map<NodeKey, DijkstraInfo>, entry: (int, Node))
    requires Shaped(grid, width)
  {
    var next := entry.1;
    && Successor(current, next.lastTakenDirection, |grid| - 1, width - 1) == Some(next)
    && NodeToTuple(next) !in visited
    && 0 <= next.row < |grid| && 0 <= next.column < width
    && entry.0 == currentDist + grid[next.row][next.column]
    && forall j | next.repetitivelyTakenDirection <= j <= 3 ::
         (next.row, next.column, next.lastTakenDirection, j) in marked
         && marked[(next.row, next.column, next.lastTakenDirection, j)] == DijkstraInfo(current, entry.0)
  }

  lemma ExpandOnePushes(grid: seq<seq<int>>, width: nat, visited: map<NodeKey, DijkstraInfo>, current: Node, currentDist: int, d: Direction)
    requires Shaped(grid, width)
    ensures var (marked, pushed) := ExpandOne(grid, width, visited, current, currentDist, d);
      && (forall e | e in pushed :: e.1.lastTakenDirection == d && PushedRight(grid, width, visited, current, currentDist, marked, e))
      && (match Successor(current, d, |grid| - 1, width - 1)
          case Some(next) => NodeToTuple(next) !in visited ==> |pushed| == 1 && pushed[0].1 == next
          case None => pushed == [])
  {
    match Successor(current, d, |grid| - 1, width - 1)
    case None =>
    case Some(next) =>
      SuccessorRules(current, d, |grid| - 1, width - 1);
      var info := DijkstraInfo(current, currentDist + grid[next.row][next.column]);
      MarkFromSets(visited, next.row, next.column, d, next.repetitivelyTakenDirection, info);
  }

  /**
   * After the first `i` directions: keys are only added; keys of the
   * directions still to come are as before; every pushed entry is an
   * allowed move to a state unvisited before, at the current distance plus
   * the heat loss of its cell, with its cell and direction marked visited for
   * its repeat count up to 3; the entries come in direction order; and every
   * allowed move to an unvisited state among those directions was pushed.
   */
  lemma {:induction false} ExpandUpToFacts(grid: seq<seq<int>>, width: nat, visited: map<NodeKey, DijkstraInfo>, current: Node, currentDist: int, i: nat)
    requires Shaped(grid, width) && i <= 4
    ensures var (marked, pushed) := ExpandUpTo(grid, width, visited, current, currentDist, i);
      && (forall key | key in visited :: key in marked)
      && (forall key: NodeKey | Index(key.2) >= i :: (key in marked <==> key in visited) && (key in visited ==> marked[key] == visited[key]))
      && (forall e | e in pushed :: Index(e.1.lastTakenDirection) < i && PushedRight(grid, width, visited, current, currentDist, marked, e))
      && (forall a, b | 0 <= a < b < |pushed| :: Index(pushed[a].1.lastTakenDirection) < Index(pushed[b].1.lastTakenDirection))
      && (forall k | 0 <= k < i :: Covered(grid, width, visited, current, Directions[k], pushed))
  {
    if i > 0 {
      var (marked, pushed) := ExpandUpTo(grid, width, visited, current, currentDist, i - 1);
      var d := Directions[i - 1];
      var (marked', pushed') := ExpandOne(grid, width, marked, current, currentDist, d);
      ExpandUpToFacts(grid, width, visited, current, currentDist, i - 1);
      ExpandOneKeeps(grid, width, marked, current, currentDist, d);
      ExpandOnePushes(grid, width, marked, current, currentDist, d);
      assert Index(d) == i - 1;
      ExpandStep(grid, width, visited, current, currentDist, i, marked, pushed, marked', pushed');
    }
  }

  /** The induction step of `ExpandUpToFacts`, with the pass for direction `i - 1` taken apart. */
  lemma ExpandStep(grid: seq<seq<int>>, width: nat, visited: map<NodeKey, DijkstraInfo>, current: Node, currentDist: int, i: nat,
                   marked: map<NodeKey, DijkstraInfo>, pushed: seq<(int, Node)>, marked': map<NodeKey, DijkstraInfo>, pushed': seq<(int, Node)>)
    requires Shaped(grid, width) && 0 < i <= 4
    requires (marked, pushed) == ExpandUpTo(grid, width, visited, current, currentDist, i - 1)
    requires (marked', pushed') == ExpandOne(grid, width, marked, current, currentDist, Directions[i - 1])
    requires forall key | key in visited :: key in marked
    requires forall key: NodeKey | Index(key.2) >= i - 1 :: (key in marked <==> key in visited) && (key in visited ==> marked[key] == visited[key])
    requires forall e | e in pushed :: Index(e.1.lastTakenDirection) < i - 1 && PushedRight(grid, width, visited, current, currentDist, marked, e)
    requires forall a, b | 0 <= a < b < |pushed| :: Index(pushed[a].1.lastTakenDirection) < Index(pushed[b].1.lastTakenDirection)
    requires forall k | 0 <= k < i - 1 :: Covered(grid, width, visited, current, Directions[k], pushed)
    requires forall key | key in marked :: key in marked'
    requires forall key: NodeKey | key.2 != Directions[i - 1] :: (key in marked' <==> key in marked) && (key in marked ==> marked'[key] == marked[key])
    requires |pushed'| <= 1
    requires forall e | e in pushed' :: e.1.lastTakenDirection == Directions[i - 1] && PushedRight(grid, width, marked, current, currentDist, marked', e)
    requires match Successor(current, Directions[i - 1], |grid| - 1, width - 1)
          case Some(next) => NodeToTuple(next) !in marked ==> |pushed'| == 1 && pushed'[0].1 == next
          case None => pushed' == []
    ensures var all := pushed + pushed';
      && (forall key | key in visited :: key in marked')
      && (forall key: NodeKey | Index(key.2) >= i :: (key in marked' <==> key in visited) && (key in visited ==> marked'[key] == visited[key]))
      && (forall e | e in all :: Index(e.1.lastTakenDirection) < i && PushedRight(grid, width, visited, current, currentDist, marked', e))
      && (forall a, b | 0 <= a < b < |all| :: Index(all[a].1.lastTakenDirection) < Index(all[b].1.lastTakenDirection))
      && (forall k | 0 <= k < i :: Covered(grid, width, visited, current, Directions[k], all))
  {
    StepPushedRight(grid, width, visited, current, currentDist, i, marked, pushed, marked', pushed');
    StepCovered(grid, width, visited, current, i, marked, pushed, pushed');
    StepOrdered(i, pushed, pushed');
  }

  /** Entries pushed before stay right once direction `i - 1` is marked, and so do the new ones. */
  lemma StepPushedRight(grid: seq<seq<int>>, width: nat, visited: map<NodeKey, DijkstraInfo>, current: Node, currentDist: int, i: nat,
                        marked: map<NodeKey, DijkstraInfo>, pushed: seq<(int, Node)>, marked': map<NodeKey, DijkstraInfo>, pushed': seq<(int, Node)>)
    requires Shaped(grid, width) && 0 < i <= 4
    requires forall key | key in visited :: key in marked
    requires forall e | e in pushed :: Index(e.1.lastTakenDirection) < i - 1 && PushedRight(grid, width, visited, current, currentDist, marked, e)
    requires forall key: NodeKey | key.2 != Directions[i - 1] :: (key in marked' <==> key in marked) && (key in marked ==> marked'[key] == marked[key])
    requires forall e | e in pushed' :: e.1.lastTakenDirection == Directions[i - 1] && PushedRight(grid, width, marked, current, currentDist, marked', e)
    ensures forall e | e in pushed + pushed' :: Index(e.1.lastTakenDirection) < i && PushedRight(grid, width, visited, current, currentDist, marked', e)
  {
    forall e | e in pushed
      ensures PushedRight(grid, width, visited, current, currentDist, marked', e)
    {
      assert e.1.lastTakenDirection != Directions[i - 1];
    }
    forall e | e in pushed'
      ensures Index(e.1.lastTakenDirection) < i && PushedRight(grid, width, visited, current, currentDist, marked', e)
    {
      assert Index(e.1.lastTakenDirection) == i - 1;
    }
  }

  /** Every allowed move to an unvisited state among the first `i` directions has an entry. */
  lemma StepCovered(grid: seq<seq<int>>, width: nat, visited: map<NodeKey, DijkstraInfo>, current: Node, i: nat,
                    marked: map<NodeKey, DijkstraInfo>, pushed: seq<(int, Node)>, pushed': seq<(int, Node)>)
    requires Shaped(grid, width) && 0 < i <= 4
    requires forall key: NodeKey | Index(key.2) >= i - 1 :: (key in marked <==> key in visited)
    requires forall k | 0 <= k < i - 1 :: Covered(grid, width, visited, current, Directions[k], pushed)
    requires match Successor(current, Directions[i - 1], |grid| - 1, width - 1)
          case Some(next) => NodeToTuple(next) !in marked ==> |pushed'| == 1 && pushed'[0].1 == next
          case None => pushed' == []
    ensures forall k | 0 <= k < i :: Covered(grid, width, visited, current, Directions[k], pushed + pushed')
  {
    var d := Directions[i - 1];
    var all := pushed + pushed';
    forall k | 0 <= k < i
      ensures Covered(grid, width, visited, current, Directions[k], all)
    {
      if k == i - 1 {
        match Successor(current, d, |grid| - 1, width - 1)
        case None =>
        case Some(next) =>
          SuccessorRules(current, d, |grid| - 1, width - 1);
          if NodeToTuple(next) !in visited {
            assert pushed'[0] in all;
          }
      } else {
        match Successor(current, Directions[k], |grid| - 1, width - 1)
        case None =>
        case Some(next) =>
          if NodeToTuple(next) !in visited {
            var e :| e in pushed && e.1 == next;
            assert e in all;
          }
      }
    }
  }

  /** The new entry, for direction `i - 1`, comes after all earlier ones. */
  lemma StepOrdered(i: nat, pushed: seq<(int, Node)>, pushed': seq<(int, Node)>)
    requires 0 < i <= 4 && |pushed'| <= 1
    requires forall e | e in pushed :: Index(e.1.lastTakenDirection) < i - 1
    requires forall a, b | 0 <= a < b < |pushed| :: Index(pushed[a].1.lastTakenDirection) < Index(pushed[b].1.lastTakenDirection)
    requires forall e | e in pushed' :: e.1.lastTakenDirection == Directions[i - 1]
    ensures var all := pushed + pushed';
      forall a, b | 0 <= a < b < |all| :: Index(all[a].1.lastTakenDirection) < Index(all[b].1.lastTakenDirection)
  {
    var all := pushed + pushed';
    forall a, b | 0 <= a < b < |all|
      ensures Index(all[a].1.lastTakenDirection) < Index(all[b].1.lastTakenDirection)
    {
      if b >= |pushed| {
        assert all[b] in pushed';
        if a < |pushed| {
          assert all[a] in pushed;
        }
      }
    }
  }

  /** The visited map and the pushed entries after all four directions. */
  function Expanded(grid: seq<seq<int>>, width: nat, visited: map<NodeKey, DijkstraInfo>, current: Node, currentDist: int): (map<NodeKey, DijkstraInfo>, seq<(int, Node)>)
    requires Shaped(grid, width)
  {
    ExpandUpTo(grid, width, visited, current, currentDist, 4)
  }

  /** The whole expansion: `ExpandUpToFacts` for all four directions. */
  lemma ExpandNodeFacts(grid: seq<seq<int>>, width: nat, visited: map<NodeKey, DijkstraInfo>, current: Node, currentDist: int)
    requires Shaped(grid, width)
    ensures forall key | key in visited :: key in Expanded(grid, width, visited, current, currentDist).0
    ensures var (marked, pushed) := Expanded(grid, width, visited, current, currentDist);
      forall e | e in pushed :: PushedRight(grid, width, visited, current, currentDist, marked, e)
    ensures var pushed := Expanded(grid, width, visited, current, currentDist).1;
      forall a, b | 0 <= a < b < |pushed| :: pushed[a].1.lastTakenDirection != pushed[b].1.lastTakenDirection
    ensures forall d: Direction :: Covered(grid, width, visited, current, d, Expanded(grid, width, visited, current, currentDist).1)
  {
    ExpandUpToFacts(grid, width, visited, current, currentDist, 4);
    var (marked, pushed) := Expanded(grid, width, visited, current, currentDist);
    forall d: Direction
      ensures Covered(grid, width, visited, current, d, pushed)
    {
      assert Directions[Index(d)] == d;
    }
  }

  /** Every state in `found` is marked visited and none occurs twice. */
  predicate Recorded(found: seq<(int, Node)>, visited: map<NodeKey, DijkstraInfo>) {
    && (forall e | e in found :: NodeToTuple(e.1) in visited)
    && forall a, b | 0 <= a < b < |found| :: NodeToTuple(found[a].1) != NodeToTuple(found[b].1)
  }

  /**
   * Across the search, a visited state is never pushed again: if every
   * state pushed so far is marked visited and none twice, the same holds
   * once an expansion's entries are pushed too.
   */
  lemma NeverPushedTwice(grid: seq<seq<int>>, width: nat, visited: map<NodeKey, DijkstraInfo>, current: Node, currentDist: int,
                         found: seq<(int, Node)>)
    requires Shaped(grid, width) && Recorded(found, visited)
    ensures var (marked, pushed) := Expanded(grid, width, visited, current, currentDist);
      Recorded(found + pushed, marked)
  {
    ExpandNodeFacts(grid, width, visited, current, currentDist);
    var (marked, pushed) := Expanded(grid, width, visited, current, currentDist);
    var all := found + pushed;
    forall e | e in all ensures NodeToTuple(e.1) in marked {
      if e in pushed {
        var next := e.1;
        assert PushedRight(grid, width, visited, current, currentDist, marked, e);
        assert (next.row, next.column, next.lastTakenDirection, next.repetitivelyTakenDirection) in marked;
      }
    }
    forall a, b | 0 <= a < b < |all| ensures NodeToTuple(all[a].1) != NodeToTuple(all[b].1) {
      if b >= |found| {
        assert all[b] in pushed;
        assert NodeToTuple(all[b].1) !in visited;
        if a < |found| {
          assert all[a] in found;
        } else {
          assert all[a] == pushed[a - |found|] && all[b] == pushed[b - |found|];
          assert pushed[a - |found|].1.lastTakenDirection != pushed[b - |found|].1.lastTakenDirection;
        }
      }
    }
  }
}
