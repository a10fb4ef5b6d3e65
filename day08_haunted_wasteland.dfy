/**
 * Day 8, "Haunted Wasteland" (day_8/solution.py).
 *
 * A line of left/right instructions, repeated forever, steers a walk through
 * a network of nodes, each naming a left and a right neighbour. Part 1 counts
 * the moves from `AAA` to `ZZZ`; part 2 walks from every node ending in `A`
 * to a node ending in `Z` and combines the counts with a least common multiple.
 */
module HauntedWasteland {
  import opened Wrappers
  import opened Text
  import opened LeastCommonMultiple

  /** `Node`: a name and the names of its left and right neighbours. */
  datatype Node = Node(name: string, left: string, right: string)

  /** `Graph`: nodes by name. */
  type Graph = map<string, Node>

  /** `Direction`: the enumeration whose values are the characters `L` and `R`. */
  datatype Direction = Left | Right

  /** `Direction(c)`: only `L` and `R` name a direction; any other character raises. */
  function DirectionOf(c: char): (d: Option<Direction>)
    ensures d == Some(Left) <==> c == 'L'
    ensures d == Some(Right) <==> c == 'R'
    ensures d.None? <==> c != 'L' && c != 'R'
  {
    if c == 'L' then Some(Left) else if c == 'R' then Some(Right) else None
  }

  /**
   * The direction the `n`-th call of `next` (counting from 0) returns: the
   * instructions are read round and round. `None` when that character is not
   * a direction, or when there are no instructions at all.
   */
  function DirectionAt(instructions: string, n: nat): Option<Direction> {
    if |instructions| == 0 then None else DirectionOf(instructions[n % |instructions|])
  }

  /** The instructions repeat with their own length as period. */
  lemma {:induction false} DirectionsRepeat(instructions: string, n: nat, rounds: nat)
    ensures DirectionAt(instructions, n + rounds * |instructions|) == DirectionAt(instructions, n)
    decreases rounds
  {
    if rounds > 0 && |instructions| > 0 {
      var L := |instructions|;
      DirectionsRepeat(instructions, n, rounds - 1);
      assert n + rounds * L == (n + (rounds - 1) * L) + L;
      ModAddPeriod(n + (rounds - 1) * L, L);
    }
  }

  /** Adding the modulus does not change the remainder. */
  lemma ModAddPeriod(x: nat, m: nat)
    requires m > 0
    ensures (x + m) % m == x % m
  {
    var q, r := x / m, x % m;
    assert x + m == (q + 1) * m + r;
    ModUnique(x + m, m, q + 1, r);
  }

  /**
   * `DirectionIterator`: the instructions and a cursor into them. The ghost
   * field `taken` counts the directions handed out so far.
   */
  class DirectionIterator {
    const instructions: string
    var index: nat
    ghost var taken: nat

    /** The cursor stays inside the instructions and sits at the count of calls, wrapped. */
    ghost predicate Valid()
      reads this
    {
      if |instructions| == 0 then index == 0 && taken == 0
      else index < |instructions| && index == taken % |instructions|
    }

    constructor(instructions: string)
      ensures this.instructions == instructions && index == 0 && taken == 0 && Valid()
    {
      this.instructions := instructions;
      index := 0;
      taken := 0;
    }

    /**
     * `DirectionIterator.next`: the direction at the cursor, after which the
     * cursor moves on, back to 0 past the end. A character that is not a
     * direction (or an empty instruction line) raises before the cursor moves.
     */
    method Next() returns (d: Option<Direction>)
      requires Valid()
      modifies this
      ensures Valid()
      ensures d == DirectionAt(instructions, old(taken))
      ensures d.Some? ==> taken == old(taken) + 1 && index == (old(index) + 1) % |instructions|
      ensures d.None? ==> taken == old(taken) && index == old(index)
    {
      if index >= |instructions| {
        return None;
      }
      d := DirectionOf(instructions[index]);
      if d.None? {
        return;
      }
      ModSuccessor(taken, |instructions|);
      ModSuccessor(index, |instructions|);
      ModUnique(index, |instructions|, 0, index);
      index := index + 1;
      if index == |instructions| {
        index := 0;
      }
      taken := taken + 1;
    }
  }

  /** The remainder of a successor is the successor of the remainder, wrapped. */
  lemma ModSuccessor(x: nat, m: nat)
    requires m > 0
    ensures (x + 1) % m == if x % m + 1 == m then 0 else x % m + 1
  {
    var q, r := x / m, x % m;
    if r + 1 < m {
      assert x + 1 == q * m + (r + 1);
      ModUnique(x + 1, m, q, r + 1);
    } else {
      assert x + 1 == (q + 1) * m;
      ModUnique(x + 1, m, q + 1, 0);
    }
  }

  // ---- reading ------------------------------------------------------------------------

  /** Python's `s.strip(cs)` with the characters to drop given as a set. */
  function Strip(s: string, cs: set<char>): (r: string)
    ensures |r| <= |s|
  {
    StripRight(StripLeft(s, cs), cs)
  }

  /**
   * What `str.strip` promises: the result is a slice of `s`, everything cut
   * off on either side is in `cs`, and a non-empty result neither starts
   * nor ends with a character of `cs`.
   */
  lemma StripSpec(s: string, cs: set<char>)
    ensures var r := Strip(s, cs);
      exists a, b | 0 <= a <= b <= |s| ::
        && r == s[a..b]
        && (forall k | 0 <= k < a :: s[k] in cs)
        && (forall k | b <= k < |s| :: s[k] in cs)
    ensures var r := Strip(s, cs);
      |r| > 0 ==> r[0] !in cs && r[|r| - 1] !in cs
  {
    var l := StripLeft(s, cs);
    var r := StripRight(l, cs);
    StripLeftSpec(s, cs);
    StripRightSpec(l, cs);
    assert r == Strip(s, cs);
    var a := |s| - |l|;
    assert r == s[a..a + |r|];
    forall k | a + |r| <= k < |s| ensures s[k] in cs {
      assert s[k] == l[k - a];
    }
    if |r| > 0 {
      assert r[0] == l[0];
    }
    var b := a + |r|;
    assert r == s[a..b] && (forall k | 0 <= k < a :: s[k] in cs) && (forall k | b <= k < |s| :: s[k] in cs);
  }

  /** The leading characters of `s` that are in `cs` are dropped. */
  function StripLeft(s: string, cs: set<char>): (r: string)
    ensures |r| <= |s|
    decreases |s|
  {
    if |s| > 0 && s[0] in cs then StripLeft(s[1..], cs) else s
  }

  /** The trailing characters of `s` that are in `cs` are dropped. */
  function StripRight(s: string, cs: set<char>): (r: string)
    ensures |r| <= |s|
    decreases |s|
  {
    if |s| > 0 && s[|s| - 1] in cs then StripRight(s[..|s| - 1], cs) else s
  }

  /** `StripLeft` keeps a suffix, drops only characters of `cs`, and stops at one outside `cs`. */
  lemma {:induction false} StripLeftSpec(s: string, cs: set<char>)
    ensures var r := StripLeft(s, cs);
      && r == s[|s| - |r|..]
      && (forall k | 0 <= k < |s| - |r| :: s[k] in cs)
      && (|r| > 0 ==> r[0] !in cs)
    decreases |s|
  {
    if |s| > 0 && s[0] in cs {
      StripLeftSpec(s[1..], cs);
      var r := StripLeft(s, cs);
      forall k | 0 <= k < |s| - |r| ensures s[k] in cs {
        if k > 0 {
          assert s[k] == s[1..][k - 1];
        }
      }
    }
  }

  /** `StripRight` keeps a prefix, drops only characters of `cs`, and stops at one outside `cs`. */
  lemma {:induction false} StripRightSpec(s: string, cs: set<char>)
    ensures var r := StripRight(s, cs);
      && r == s[..|r|]
      && (forall k | |r| <= k < |s| :: s[k] in cs)
      && (|r| > 0 ==> r[|r| - 1] !in cs)
    decreases |s|
  {
    if |s| > 0 && s[|s| - 1] in cs {
      StripRightSpec(s[..|s| - 1], cs);
      var r := StripRight(s, cs);
      forall k | |r| <= k < |s| ensures s[k] in cs {
        if k < |s| - 1 {
          assert s[k] == s[..|s| - 1][k];
        }
      }
    }
  }

  /** Stripping stops at the first character not to be dropped. */
  lemma StripLeftKeeps(t: string, cs: set<char>)
    requires |t| > 0 ==> t[0] !in cs
    ensures StripLeft(t, cs) == t
  {
  }

  lemma StripLeftDrops(c: char, t: string, cs: set<char>)
    requires c in cs
    ensures StripLeft([c] + t, cs) == StripLeft(t, cs)
  {
    assert ([c] + t)[1..] == t;
  }

  lemma StripRightKeeps(t: string, cs: set<char>)
    requires |t| > 0 ==> t[|t| - 1] !in cs
    ensures StripRight(t, cs) == t
  {
  }

  lemma StripRightDrops(t: string, c: char, cs: set<char>)
    requires c in cs
    ensures StripRight(t + [c], cs) == StripRight(t, cs)
  {
    assert (t + [c])[..|t|] == t;
  }

  /** Brackets around a text that neither starts nor ends with a bracket come off exactly. */
  lemma StripBrackets(mid: string)
    requires |mid| > 0 ==> mid[0] !in {'(', ')'} && mid[|mid| - 1] !in {'(', ')'}
    ensures Strip("(" + mid + ")", {'(', ')'}) == mid
  {
    var cs := {'(', ')'};
    var tail := mid + [')'];
    assert "(" + mid + ")" == ['('] + tail;
    StripLeftDrops('(', tail, cs);
    if |mid| > 0 {
      assert tail[0] == mid[0];
      StripLeftKeeps(tail, cs);
      StripRightDrops(mid, ')', cs);
      StripRightKeeps(mid, cs);
    } else {
      assert tail == [')'] + "";
      StripLeftDrops(')', "", cs);
    }
  }

  /** The characters a node name may not hold, so that its line reads back unambiguously. */
  predicate Label(s: string) {
    forall k | 0 <= k < |s| :: s[k] !in {' ', '=', ',', '(', ')'}
  }

  /**
   * One line of the network, `"NAME = (LEFT, RIGHT)"`: cut at `" = "` into
   * exactly two parts, strip brackets from the second and cut it at `", "`
   * into exactly two names. Any other shape raises in the unpacking.
   */
  function ParseNode(line: string): Option<Node> {
    var parts := SplitOn(line, " = ");
    if |parts| != 2 then None
    else
      var pair := SplitOn(Strip(parts[1], {'(', ')'}), ", ");
      if |pair| != 2 then None else Some(Node(parts[0], pair[0], pair[1]))
  }

  /** The line the puzzle writes for a node. */
  function NodeLine(n: Node): string {
    n.name + " = " + "(" + n.left + ", " + n.right + ")"
  }

  /** The bracketed pair of neighbour names in a node's line. */
  function PairText(left: string, right: string): string {
    "(" + left + ", " + right + ")"
  }

  /** A node's line is cut at `" = "` into its name and the bracketed pair. */
  lemma NodeLineHalves(n: Node)
    requires Label(n.name) && Label(n.left) && Label(n.right)
    ensures SplitOn(NodeLine(n), " = ") == [n.name, PairText(n.left, n.right)]
  {
    var rest := PairText(n.left, n.right);
    assert NodeLine(n) == n.name + " = " + rest;
    assert ' ' !in n.name;
    SplitOnFirst(n.name, " = ", rest);
    PairTextAvoids(n.left, n.right);
    SplitOnMissing(rest, " = ", 1);
  }

  /** The bracketed pair holds no `'='`. */
  lemma PairTextAvoids(left: string, right: string)
    requires Label(left) && Label(right)
    ensures '=' !in PairText(left, right)
  {
    var t := PairText(left, right);
    forall k | 0 <= k < |t| ensures t[k] != '=' {
      if 1 <= k < 1 + |left| {
        assert t[k] == left[k - 1];
      } else if 3 + |left| <= k < 3 + |left| + |right| {
        assert t[k] == right[k - 3 - |left|];
      }
    }
  }

  /** The text between the brackets neither starts nor ends with a bracket. */
  lemma PairInside(left: string, right: string)
    requires Label(left) && Label(right)
    ensures var mid := left + ", " + right; mid[0] !in {'(', ')'} && mid[|mid| - 1] !in {'(', ')'}
  {
    var mid := left + ", " + right;
    if |left| > 0 { assert mid[0] == left[0]; } else { assert mid[0] == ','; }
    if |right| > 0 { assert mid[|mid| - 1] == right[|right| - 1]; } else { assert mid[|mid| - 1] == ' '; }
  }

  /** Stripping the brackets and cutting at `", "` gives back the two names. */
  lemma PairTextSplits(left: string, right: string)
    requires Label(left) && Label(right)
    ensures SplitOn(Strip(PairText(left, right), {'(', ')'}), ", ") == [left, right]
  {
    var mid := left + ", " + right;
    assert Strip(PairText(left, right), {'(', ')'}) == mid by {
      assert PairText(left, right) == "(" + mid + ")";
      PairInside(left, right);
      StripBrackets(mid);
    }
    assert SplitOn(mid, ", ") == [left, right] by {
      assert ',' !in left && ',' !in right;
      SplitOnFirst(left, ", ", right);
      SplitOnWhole(right, ", ");
    }
  }

  /** Reading a node's line gives the node back. */
  lemma ParseNodeLine(n: Node)
    requires Label(n.name) && Label(n.left) && Label(n.right)
    ensures ParseNode(NodeLine(n)) == Some(n)
  {
    NodeLineHalves(n);
    PairTextSplits(n.left, n.right);
  }

  /** Every node is stored under its own name. */
  predicate Keyed(graph: Graph) {
    forall name | name in graph :: graph[name].name == name
  }

  /** Assigning the nodes in order, a later node replacing an earlier one of the same name. */
  function BuildGraph(nodes: seq<Node>): (g: Graph)
    ensures Keyed(g)
  {
    if |nodes| == 0 then map[]
    else
      var last := nodes[|nodes| - 1];
      BuildGraph(nodes[..|nodes| - 1])[last.name := last]
  }

  /** A name is in the graph exactly when some line declares it. */
  lemma {:induction false} BuildGraphKeys(nodes: seq<Node>, name: string)
    ensures name in BuildGraph(nodes) <==> exists i | 0 <= i < |nodes| :: nodes[i].name == name
    decreases |nodes|
  {
    if |nodes| > 0 {
      var init := nodes[..|nodes| - 1];
      BuildGraphKeys(init, name);
      assert forall i | 0 <= i < |init| :: init[i] == nodes[i];
    }
  }

  /** The node stored under a name is the one from the last line declaring it. */
  lemma {:induction false} BuildGraphLast(nodes: seq<Node>, i: nat)
    requires i < |nodes|
    requires forall j | i < j < |nodes| :: nodes[j].name != nodes[i].name
    ensures nodes[i].name in BuildGraph(nodes) && BuildGraph(nodes)[nodes[i].name] == nodes[i]
    decreases |nodes|
  {
    if i < |nodes| - 1 {
      var init := nodes[..|nodes| - 1];
      assert forall j | i < j < |init| :: init[j] == nodes[j];
      BuildGraphLast(init, i);
    }
  }

  /** `lines[2:]`: the lines below the instruction line and the blank line. */
  function NodeLines(lines: seq<string>): (body: seq<string>)
    ensures |lines| >= 2 ==> body == lines[2..]
    ensures |lines| < 2 ==> body == []
  {
    if |lines| < 2 then [] else lines[2..]
  }

  /** The network below the instruction line and the blank line. */
  function ParseGraph(body: seq<string>): Option<Graph> {
    var nodes := MapOption(ParseNode, body);
    if nodes.None? then None else Some(BuildGraph(nodes.value))
  }

  /** One more line adds its node, replacing any earlier node of that name. */
  lemma BuildGraphSnoc(nodes: seq<Node>, node: Node)
    ensures BuildGraph(nodes + [node]) == BuildGraph(nodes)[node.name := node]
  {
    assert (nodes + [node])[..|nodes|] == nodes;
  }

  /** A line that is not a node makes the whole network unreadable. */
  lemma ParseGraphFails(body: seq<string>, i: nat)
    requires i < |body| && ParseNode(body[i]).None?
    ensures ParseGraph(body).None?
  {
  }

  /** When every line reads as its node, the network is built from those nodes. */
  lemma ParseGraphBuilds(body: seq<string>, nodes: seq<Node>)
    requires |nodes| == |body| && forall k | 0 <= k < |body| :: ParseNode(body[k]) == Some(nodes[k])
    ensures ParseGraph(body) == Some(BuildGraph(nodes))
  {
    MapOptionAll(ParseNode, body, nodes);
  }

  /** The loop of `process_input`: each line from index 2 is read as a node and assigned into the graph. */
  method ReadNetwork(body: seq<string>) returns (graph: Option<Graph>)
    ensures graph == ParseGraph(body)
  {
    var g: Graph := map[];
    ghost var nodes: seq<Node> := [];
    for i := 0 to |body|
      invariant |nodes| == i && forall k | 0 <= k < i :: ParseNode(body[k]) == Some(nodes[k])
      invariant g == BuildGraph(nodes)
    {
      var node := ParseNode(body[i]);
      if node.None? {
        ParseGraphFails(body, i);
        return None;
      }
      g := g[node.value.name := node.value];
      BuildGraphSnoc(nodes, node.value);
      nodes := nodes + [node.value];
    }
    ParseGraphBuilds(body, nodes);
    return Some(g);
  }

  /**
   * `process_input`: line 0 holds the instructions, handed to a fresh
   * iterator; the lines from index 2 make the graph.
   */
  method ProcessInput(lines: seq<string>) returns (directions: DirectionIterator?, graph: Option<Graph>)
    ensures graph == if |lines| == 0 then None else ParseGraph(NodeLines(lines))
    ensures graph.Some? ==>
      && directions != null && fresh(directions) && directions.Valid()
      && directions.instructions == lines[0] && directions.taken == 0
  {
    if |lines| == 0 {
      return null, None;
    }
    directions := new DirectionIterator(lines[0]);
    graph := ReadNetwork(NodeLines(lines));
  }

  // ---- the walk -----------------------------------------------------------------------

  /** `is_zzz`: part 1's destination. */
  function IsZzz(name: string): (b: bool)
    ensures b <==> name == "ZZZ"
    ensures b ==> EndsWithZ(name)
  {
    name == "ZZZ"
  }

  /** `ends_with_z`: part 2's destination, the last character being `Z`. */
  function EndsWithZ(name: string): (b: bool)
    ensures b <==> |name| > 0 && name[|name| - 1] == 'Z'
  {
    EndsWith(name, "Z")
  }

  /** The name of the neighbour in the given direction. */
  function Neighbour(node: Node, d: Direction): string {
    if d == Left then node.left else node.right
  }

  /**
   * Where the walk stands after `n` moves: `None` once a lookup has found no
   * node or an instruction character was not a direction.
   */
  function Position(graph: Graph, instructions: string, start: string, n: nat): Option<Node> {
    if n == 0 then
      if start in graph then Some(graph[start]) else None
    else
      var here := Position(graph, instructions, start, n - 1);
      var d := DirectionAt(instructions, n - 1);
      if here.None? || d.None? then None
      else
        var key := Neighbour(here.value, d.value);
        if key in graph then Some(graph[key]) else None
  }

  /**
   * The walk raises at move count `n`: the node is missing, or the direction
   * fetched for the next move is not one (the source fetches it before it
   * looks at the node).
   */
  predicate Stuck(graph: Graph, instructions: string, start: string, n: nat) {
    Position(graph, instructions, start, n).None? || DirectionAt(instructions, n).None?
  }

  /** The walk passes move count `n` without stopping: it is not stuck and not at a destination. */
  predicate PassesOn(graph: Graph, instructions: string, start: string, isDestination: string -> bool, n: nat) {
    !Stuck(graph, instructions, start, n) && !isDestination(Position(graph, instructions, start, n).value.name)
  }

  /** The walk first reaches a destination after exactly `steps` moves. */
  predicate Arrives(graph: Graph, instructions: string, start: string, isDestination: string -> bool, steps: nat) {
    && !Stuck(graph, instructions, start, steps)
    && isDestination(Position(graph, instructions, start, steps).value.name)
    && forall n | 0 <= n < steps :: PassesOn(graph, instructions, start, isDestination, n)
  }

  /** The walk raises after exactly `steps` moves, with no destination before. */
  predicate Raises(graph: Graph, instructions: string, start: string, isDestination: string -> bool, steps: nat) {
    && Stuck(graph, instructions, start, steps)
    && forall n | 0 <= n < steps :: PassesOn(graph, instructions, start, isDestination, n)
  }

  /** A walk has at most one arrival count, and does not both arrive and raise. */
  lemma ArrivalUnique(graph: Graph, instructions: string, start: string, isDestination: string -> bool, s: nat, t: nat)
    requires Arrives(graph, instructions, start, isDestination, s)
    requires Arrives(graph, instructions, start, isDestination, t) || Raises(graph, instructions, start, isDestination, t)
    ensures Arrives(graph, instructions, start, isDestination, t) && s == t
  {
    assert s < t ==> PassesOn(graph, instructions, start, isDestination, s);
    assert t < s ==> PassesOn(graph, instructions, start, isDestination, t);
  }

  /**
   * How a walk ends: it arrives after `steps` moves, it raises after `steps`
   * moves, or it is still going after the allowed number of moves.
   */
  datatype Outcome = Arrived(steps: nat) | Raised(steps: nat) | Unfinished

  /** What an outcome says about the walk it ends. */
  predicate Explains(graph: Graph, instructions: string, start: string, isDestination: string -> bool, fuel: nat, r: Outcome) {
    match r
    case Arrived(s) => Arrives(graph, instructions, start, isDestination, s)
    case Raised(s) => Raises(graph, instructions, start, isDestination, s)
    case Unfinished => forall n | 0 <= n <= fuel :: PassesOn(graph, instructions, start, isDestination, n)
  }

  /**
   * The loop of `solve_part_1`: fetch a direction, then while the node is no
   * destination, follow that direction, count the move and fetch the next
   * direction. `fuel` bounds the number of moves.
   */
  method Walk(graph: Graph, directions: DirectionIterator, start: string, isDestination: string -> bool, fuel: nat)
    returns (r: Outcome)
    requires directions.Valid() && directions.taken == 0
    modifies directions
    ensures Explains(graph, directions.instructions, start, isDestination, fuel, r)
  {
    ghost var ins := directions.instructions;
    var d := directions.Next();
    if start !in graph || d.None? {
      return Raised(0);
    }
    var current := graph[start];
    var steps := 0;
    while !isDestination(current.name)
      invariant directions.Valid() && directions.taken == steps + 1
      invariant steps <= fuel
      invariant Position(graph, ins, start, steps) == Some(current)
      invariant d.Some? && DirectionAt(ins, steps) == d
      invariant forall n | 0 <= n < steps :: PassesOn(graph, ins, start, isDestination, n)
      decreases fuel - steps
    {
      if steps == fuel {
        return Unfinished;
      }
      var key := Neighbour(current, d.value);
      assert PassesOn(graph, ins, start, isDestination, steps);
      if key !in graph {
        return Raised(steps + 1);
      }
      current := graph[key];
      steps := steps + 1;
      d := directions.Next();
      if d.None? {
        return Raised(steps);
      }
    }
    return Arrived(steps);
  }

  /** `solve_part_1`: read the input, then walk from `start` until `isDestination` holds. */
  method SolvePart1(lines: seq<string>, start: string, isDestination: string -> bool, fuel: nat) returns (r: Outcome)
    ensures |lines| == 0 || ParseGraph(NodeLines(lines)).None? ==> r == Raised(0)
    ensures |lines| > 0 && ParseGraph(NodeLines(lines)).Some? ==>
      Explains(ParseGraph(NodeLines(lines)).value, lines[0], start, isDestination, fuel, r)
  {
    var directions, graph := ProcessInput(lines);
    if graph.None? {
      return Raised(0);
    }
    r := Walk(graph.value, directions, start, isDestination, fuel);
  }

  /** The names ending in `A`, where part 2's walks start. */
  function StartNames(graph: Graph): (names: set<string>)
    ensures Keyed(graph) ==> forall name | name in names :: name in graph && EndsWith(name, "A")
    ensures Keyed(graph) ==> forall name | name in graph && EndsWith(name, "A") :: name in names
  {
    set key | key in graph && EndsWith(graph[key].name, "A") :: graph[key].name
  }

  /** Every walk from `names` reaches a node ending in `Z`. */
  ghost predicate AllArrive(graph: Graph, instructions: string, names: set<string>) {
    forall name | name in names :: exists s :: Arrives(graph, instructions, name, EndsWithZ, s)
  }

  /** The number of moves a walk that arrives takes. */
  ghost function StepsOf(graph: Graph, instructions: string, name: string): (s: nat)
    requires exists s :: Arrives(graph, instructions, name, EndsWithZ, s)
    ensures Arrives(graph, instructions, name, EndsWithZ, s)
  {
    var s :| Arrives(graph, instructions, name, EndsWithZ, s); s
  }

  /** The move counts of the walks from `names`. */
  ghost function AllSteps(graph: Graph, instructions: string, names: set<string>): set<nat>
    requires AllArrive(graph, instructions, names)
  {
    set name | name in names :: StepsOf(graph, instructions, name)
  }

  /**
   * `solve_part_2`: walk from every start to a node ending in `Z` and take the
   * least common multiple of the move counts (1 when there is no start).
   */
  method SolvePart2(lines: seq<string>, fuel: nat) returns (r: Outcome)
    ensures |lines| == 0 || ParseGraph(NodeLines(lines)).None? ==> r == Raised(0)
    ensures |lines| > 0 && ParseGraph(NodeLines(lines)).Some? ==>
      var graph := ParseGraph(NodeLines(lines)).value;
      Part2Explains(graph, lines[0], StartNames(graph), fuel, r)
  {
    var directions, graph := ProcessInput(lines);
    if graph.None? {
      return Raised(0);
    }
    r := WalkAll(graph.value, lines[0], StartNames(graph.value), fuel);
  }

  /**
   * The comprehension and `math.lcm` of `solve_part_2`: one walk per start,
   * the first walk that does not arrive ending it all, the move counts combined
   * with `Lcm`. Each walk reads the input afresh in the source; here each gets
   * a fresh iterator over the same graph, which is what re-reading yields. The
   * starts are taken in any order: the least common multiple does not depend
   * on it.
   */
  method WalkAll(graph: Graph, instructions: string, names: set<string>, fuel: nat) returns (r: Outcome)
    ensures Part2Explains(graph, instructions, names, fuel, r)
    decreases |names|
  {
    if names == {} {
      LcmOfNone();
      return Arrived(1);
    }
    var name :| name in names;
    var cursor := new DirectionIterator(instructions);
    var walk := Walk(graph, cursor, name, EndsWithZ, fuel);
    if !walk.Arrived? {
      Part2Stops(graph, instructions, names, fuel, name, walk);
      return walk;
    }
    var rest := WalkAll(graph, instructions, names - {name}, fuel);
    if !rest.Arrived? {
      Part2StopsLater(graph, instructions, names, fuel, name, rest);
      return rest;
    }
    Part2Step(graph, instructions, names - {name}, name, rest.steps, walk.steps);
    assert names - {name} + {name} == names;
    return Arrived(Lcm(rest.steps, walk.steps));
  }

  /**
   * What part 2's outcome says: every walk from `names` arrived and the answer
   * is the least common multiple of their move counts, or the walk from one of
   * them raised or ran out of moves.
   */
  ghost predicate Part2Explains(graph: Graph, instructions: string, names: set<string>, fuel: nat, r: Outcome) {
    match r
    case Arrived(v) => AllArrive(graph, instructions, names) && IsLcm(AllSteps(graph, instructions, names), v)
    case _ => exists name | name in names :: Explains(graph, instructions, name, EndsWithZ, fuel, r)
  }

  /** A walk that does not arrive ends part 2 with its own outcome. */
  lemma Part2Stops(graph: Graph, instructions: string, names: set<string>, fuel: nat, name: string, r: Outcome)
    requires name in names && Explains(graph, instructions, name, EndsWithZ, fuel, r) && !r.Arrived?
    ensures Part2Explains(graph, instructions, names, fuel, r)
  {
  }

  /** So does a walk from one of the remaining starts. */
  lemma Part2StopsLater(graph: Graph, instructions: string, names: set<string>, fuel: nat, name: string, r: Outcome)
    requires Part2Explains(graph, instructions, names - {name}, fuel, r) && !r.Arrived?
    ensures Part2Explains(graph, instructions, names, fuel, r)
  {
  }

  /** Folding one more arriving walk into the answer keeps it the least common multiple. */
  lemma Part2Step(graph: Graph, instructions: string, done: set<string>, name: string, total: nat, s: nat)
    requires AllArrive(graph, instructions, done) && IsLcm(AllSteps(graph, instructions, done), total)
    requires Arrives(graph, instructions, name, EndsWithZ, s)
    ensures AllArrive(graph, instructions, done + {name})
    ensures IsLcm(AllSteps(graph, instructions, done + {name}), Lcm(total, s))
  {
    AllStepsAdd(graph, instructions, done, name, s);
    LcmInsert(AllSteps(graph, instructions, done), total, s);
  }

  /** One more arriving walk adds its move count. */
  lemma AllStepsAdd(graph: Graph, instructions: string, done: set<string>, name: string, s: nat)
    requires AllArrive(graph, instructions, done) && Arrives(graph, instructions, name, EndsWithZ, s)
    ensures AllArrive(graph, instructions, done + {name})
    ensures AllSteps(graph, instructions, done + {name}) == AllSteps(graph, instructions, done) + {s}
  {
    ArrivalStepsOf(graph, instructions, name, s);
  }

  /** A walk's arrival count is the one `StepsOf` picks. */
  lemma ArrivalStepsOf(graph: Graph, instructions: string, name: string, s: nat)
    requires Arrives(graph, instructions, name, EndsWithZ, s)
    ensures StepsOf(graph, instructions, name) == s
  {
    ArrivalUnique(graph, instructions, name, EndsWithZ, StepsOf(graph, instructions, name), s);
  }
}
