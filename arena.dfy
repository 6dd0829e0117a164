/** The search tree of src/tree/tree.ts and src/solver/solver.ts as an arena:
    a sequence of nodes that refer to their parent and children by index, the
    root at index 0. This module holds the value-level definitions the tree's
    methods are proved against: the shape of a well-linked tree, the visit and
    score accounting, backpropagation, expansion, the best-child argmax and the
    descent to a candidate leaf. */
module Arena {
  import opened Board
  import opened Actions
  import opened Rollout

  datatype Node = Node(
    game: Game,
    score: int,
    numSimulations: nat,
    children: seq<nat>,
    parent: Option<nat>,
    action: Option<Action>)

  /** One rollout: the node it started at and its reward in half-points. */
  datatype Visit = Visit(node: nat, reward: int)

  // ---------------------------------------------------------------------------
  // Links

  /** The root has no parent, every other node's parent comes before it, each
      child links back to its parent, children are listed in creation order,
      and every node is among its parent's children. */
  predicate Shaped(nodes: seq<Node>)
  {
    && |nodes| > 0 && nodes[0].parent.None?
    && ParentsBefore(nodes) && ChildrenLinked(nodes) && ChildrenIncreasing(nodes) && ChildrenComplete(nodes)
  }

  predicate ParentsBefore(nodes: seq<Node>)
  {
    forall m :: 0 < m < |nodes| ==> nodes[m].parent.Some? && nodes[m].parent.value < m
  }

  predicate ChildrenLinked(nodes: seq<Node>)
  {
    forall n, k :: 0 <= n < |nodes| && 0 <= k < |nodes[n].children| ==>
      n < nodes[n].children[k] < |nodes| && nodes[nodes[n].children[k]].parent == Some(n)
  }

  predicate ChildrenIncreasing(nodes: seq<Node>)
  {
    forall n, j, k :: 0 <= n < |nodes| && 0 <= j < k < |nodes[n].children| ==>
      nodes[n].children[j] < nodes[n].children[k]
  }

  predicate ChildrenComplete(nodes: seq<Node>)
    requires ParentsBefore(nodes)
  {
    forall m :: 0 < m < |nodes| ==> m in nodes[nodes[m].parent.value].children
  }

  /** `b` extends `a` without moving any node of `a` to another parent. */
  predicate LinksKept(a: seq<Node>, b: seq<Node>)
  {
    |a| <= |b| && forall m :: 0 <= m < |a| ==> b[m].parent == a[m].parent
  }

  lemma ShapedKept(a: seq<Node>, b: seq<Node>)
    requires Shaped(a) && LinksKept(a, b) && |b| == |a|
    requires forall m :: 0 <= m < |a| ==> b[m].children == a[m].children
    ensures Shaped(b)
  {
    forall n, k | 0 <= n < |b| && 0 <= k < |b[n].children|
      ensures n < b[n].children[k] < |b| && b[b[n].children[k]].parent == Some(n)
    {
      assert b[n].children[k] == a[n].children[k];
    }
    forall m | 0 < m < |b| ensures m in b[b[m].parent.value].children {
      assert m in a[a[m].parent.value].children;
    }
  }

  /** Node a is node m or one of its ancestors. */
  predicate OnPath(nodes: seq<Node>, a: nat, m: nat)
    decreases m
  {
    m < |nodes| && (a == m || (nodes[m].parent.Some? && nodes[m].parent.value < m && OnPath(nodes, a, nodes[m].parent.value)))
  }

  lemma {:induction false} OnPathBelow(nodes: seq<Node>, a: nat, m: nat)
    requires OnPath(nodes, a, m)
    ensures a <= m
    decreases m
  {
    if a != m {
      OnPathBelow(nodes, a, nodes[m].parent.value);
    }
  }

  lemma {:induction false} OnPathKept(a: seq<Node>, b: seq<Node>, x: nat, m: nat)
    requires LinksKept(a, b) && m < |a|
    ensures OnPath(b, x, m) == OnPath(a, x, m)
    decreases m
  {
    if x != m && a[m].parent.Some? && a[m].parent.value < m {
      OnPathKept(a, b, x, a[m].parent.value);
    }
  }

  /** The root is on every node's path. */
  lemma {:induction false} RootOnPath(nodes: seq<Node>, m: nat)
    requires Shaped(nodes) && m < |nodes|
    ensures OnPath(nodes, 0, m)
    decreases m
  {
    if m > 0 {
      RootOnPath(nodes, nodes[m].parent.value);
    }
  }

  /** A child's descendants are its parent's descendants. */
  lemma {:induction false} OnPathChild(nodes: seq<Node>, n: nat, c: nat, m: nat)
    requires c < |nodes| && nodes[c].parent == Some(n) && n < c
    requires OnPath(nodes, c, m)
    ensures OnPath(nodes, n, m)
    decreases m
  {
    if c != m {
      OnPathChild(nodes, n, c, nodes[m].parent.value);
    }
  }

  // ---------------------------------------------------------------------------
  // Visit and score accounting

  predicate InRange(history: seq<Visit>, size: nat)
  {
    forall j :: 0 <= j < |history| ==> history[j].node < size
  }

  /** The number of rollouts that passed through node a. */
  function Visits(nodes: seq<Node>, history: seq<Visit>, a: nat): nat
  {
    if history == [] then 0
    else Visits(nodes, history[..|history| - 1], a) + (if OnPath(nodes, a, history[|history| - 1].node) then 1 else 0)
  }

  /** The total reward of the rollouts that passed through node a. */
  function Score(nodes: seq<Node>, history: seq<Visit>, a: nat): int
  {
    if history == [] then 0
    else
      var v := history[|history| - 1];
      Score(nodes, history[..|history| - 1], a) + (if OnPath(nodes, a, v.node) then v.reward else 0)
  }

  /** The number of rollouts that started at node a. */
  function StartedAt(history: seq<Visit>, a: nat): nat
  {
    if history == [] then 0
    else StartedAt(history[..|history| - 1], a) + (if history[|history| - 1].node == a then 1 else 0)
  }

  /** Every node's counters are the tallies of the rollouts through it. */
  predicate Accounted(nodes: seq<Node>, history: seq<Visit>)
  {
    InRange(history, |nodes|)
    && forall a :: 0 <= a < |nodes| ==>
         nodes[a].numSimulations == Visits(nodes, history, a) && nodes[a].score == Score(nodes, history, a)
  }

  lemma {:induction false} VisitsKept(a: seq<Node>, b: seq<Node>, history: seq<Visit>, x: nat)
    requires LinksKept(a, b) && InRange(history, |a|)
    ensures Visits(b, history, x) == Visits(a, history, x)
    ensures Score(b, history, x) == Score(a, history, x)
  {
    if history != [] {
      var last := history[|history| - 1];
      VisitsKept(a, b, history[..|history| - 1], x);
      OnPathKept(a, b, x, last.node);
    }
  }

  /** Every rollout passes through the root, so it counts them all. */
  lemma {:induction false} RootVisits(nodes: seq<Node>, history: seq<Visit>)
    requires Shaped(nodes) && InRange(history, |nodes|)
    ensures Visits(nodes, history, 0) == |history|
  {
    if history != [] {
      RootVisits(nodes, history[..|history| - 1]);
      RootOnPath(nodes, history[|history| - 1].node);
    }
  }

  // ---------------------------------------------------------------------------
  // A node's count is its own rollouts plus its children's counts

  /** How many of the nodes `cs` lie on the path to m. */
  function CountOn(nodes: seq<Node>, cs: seq<nat>, m: nat): nat
  {
    if cs == [] then 0 else CountOn(nodes, cs[..|cs| - 1], m) + (if OnPath(nodes, cs[|cs| - 1], m) then 1 else 0)
  }

  function Occurrences(cs: seq<nat>, x: nat): nat
  {
    if cs == [] then 0 else Occurrences(cs[..|cs| - 1], x) + (if cs[|cs| - 1] == x then 1 else 0)
  }

  lemma {:induction false} OccurrencesIncreasing(cs: seq<nat>, x: nat)
    requires forall j, k :: 0 <= j < k < |cs| ==> cs[j] < cs[k]
    ensures Occurrences(cs, x) == if x in cs then 1 else 0
  {
    if cs != [] {
      var init := cs[..|cs| - 1];
      OccurrencesIncreasing(init, x);
      if x in init {
        var j :| 0 <= j < |init| && init[j] == x;
        assert cs[j] < cs[|cs| - 1];
      }
      assert x in cs <==> x in init || x == cs[|cs| - 1];
    }
  }

  /** Seen from a node m and its parent p, a node's path count goes up by one
      exactly when it is m itself. */
  lemma {:induction false} CountOnParent(nodes: seq<Node>, cs: seq<nat>, m: nat)
    requires m < |nodes| && nodes[m].parent.Some? && nodes[m].parent.value < m
    ensures CountOn(nodes, cs, m) == CountOn(nodes, cs, nodes[m].parent.value) + Occurrences(cs, m)
  {
    if cs != [] {
      CountOnParent(nodes, cs[..|cs| - 1], m);
      var c := cs[|cs| - 1];
      if c == m {
        if OnPath(nodes, c, nodes[m].parent.value) {
          OnPathBelow(nodes, c, nodes[m].parent.value);
        }
      }
    }
  }

  lemma {:induction false} CountOnAbove(nodes: seq<Node>, cs: seq<nat>, m: nat)
    requires forall k :: 0 <= k < |cs| ==> m < cs[k]
    ensures CountOn(nodes, cs, m) == 0
  {
    if cs != [] {
      CountOnAbove(nodes, cs[..|cs| - 1], m);
      if OnPath(nodes, cs[|cs| - 1], m) {
        OnPathBelow(nodes, cs[|cs| - 1], m);
      }
    }
  }

  /** One rollout at m passes through node a exactly when it starts there or
      passes through one of a's children. */
  lemma {:induction false} PathSplits(nodes: seq<Node>, a: nat, m: nat)
    requires Shaped(nodes) && a < |nodes| && m < |nodes|
    ensures (if OnPath(nodes, a, m) then 1 else 0) == (if m == a then 1 else 0) + CountOn(nodes, nodes[a].children, m)
    decreases m
  {
    var cs := nodes[a].children;
    if m <= a {
      CountOnAbove(nodes, cs, m);
      if OnPath(nodes, a, m) {
        OnPathBelow(nodes, a, m);
      }
    } else {
      var p := nodes[m].parent.value;
      PathSplits(nodes, a, p);
      CountOnParent(nodes, cs, m);
      OccurrencesIncreasing(cs, m);
      assert m in cs <==> p == a;
    }
  }

  /** The visits of the nodes `cs`, summed. */
  function SumVisits(nodes: seq<Node>, history: seq<Visit>, cs: seq<nat>): nat
  {
    if cs == [] then 0 else SumVisits(nodes, history, cs[..|cs| - 1]) + Visits(nodes, history, cs[|cs| - 1])
  }

  lemma {:induction false} SumVisitsSnoc(nodes: seq<Node>, history: seq<Visit>, cs: seq<nat>)
    requires history != []
    ensures SumVisits(nodes, history, cs) ==
      SumVisits(nodes, history[..|history| - 1], cs) + CountOn(nodes, cs, history[|history| - 1].node)
  {
    if cs != [] {
      SumVisitsSnoc(nodes, history, cs[..|cs| - 1]);
    }
  }

  lemma {:induction false} VisitsSplit(nodes: seq<Node>, history: seq<Visit>, a: nat)
    requires Shaped(nodes) && InRange(history, |nodes|) && a < |nodes|
    ensures Visits(nodes, history, a) == StartedAt(history, a) + SumVisits(nodes, history, nodes[a].children)
  {
    if history == [] {
      assert SumVisits(nodes, history, nodes[a].children) == 0 by {
        SumVisitsEmpty(nodes, nodes[a].children);
      }
    } else {
      var init := history[..|history| - 1];
      assert InRange(init, |nodes|) by {
        forall j | 0 <= j < |init| ensures init[j].node < |nodes| {
          assert init[j] == history[j];
        }
      }
      VisitsSplit(nodes, init, a);
      SumVisitsSnoc(nodes, history, nodes[a].children);
      PathSplits(nodes, a, history[|history| - 1].node);
    }
  }

  lemma {:induction false} SumVisitsEmpty(nodes: seq<Node>, cs: seq<nat>)
    ensures SumVisits(nodes, [], cs) == 0
  {
    if cs != [] {
      SumVisitsEmpty(nodes, cs[..|cs| - 1]);
    }
  }

  /** The visit counts of the nodes `cs`, summed. */
  function SumSimulations(nodes: seq<Node>, cs: seq<nat>): nat
    requires forall k :: 0 <= k < |cs| ==> cs[k] < |nodes|
  {
    if cs == [] then 0 else SumSimulations(nodes, cs[..|cs| - 1]) + nodes[cs[|cs| - 1]].numSimulations
  }

  lemma {:induction false} SumSimulationsAccounted(nodes: seq<Node>, history: seq<Visit>, cs: seq<nat>)
    requires Accounted(nodes, history) && forall k :: 0 <= k < |cs| ==> cs[k] < |nodes|
    ensures SumSimulations(nodes, cs) == SumVisits(nodes, history, cs)
  {
    if cs != [] {
      SumSimulationsAccounted(nodes, history, cs[..|cs| - 1]);
    }
  }

  /** A node's visit count is the number of rollouts started at it plus the
      visit counts of its children; the root's is the number of rollouts. */
  lemma ChildrenSum(nodes: seq<Node>, history: seq<Visit>, a: nat)
    requires Shaped(nodes) && Accounted(nodes, history) && a < |nodes|
    ensures forall k :: 0 <= k < |nodes[a].children| ==> nodes[a].children[k] < |nodes|
    ensures nodes[a].numSimulations == StartedAt(history, a) + SumSimulations(nodes, nodes[a].children)
    ensures nodes[0].numSimulations == |history|
  {
    VisitsSplit(nodes, history, a);
    SumSimulationsAccounted(nodes, history, nodes[a].children);
    RootVisits(nodes, history);
  }

  // ---------------------------------------------------------------------------
  // Backpropagation

  /** Every node on the path from n to the root gains the reward and one visit;
      every other node is unchanged. */
  function Backprop(nodes: seq<Node>, n: nat, reward: int): (r: seq<Node>)
    ensures |r| == |nodes|
  {
    seq(|nodes|, a requires 0 <= a < |nodes| =>
      if OnPath(nodes, a, n) then nodes[a].(score := nodes[a].score + reward, numSimulations := nodes[a].numSimulations + 1)
      else nodes[a])
  }

  /** Backpropagation changes only the score and the visit count, and only on
      the path from n to the root. */
  lemma BackpropFields(nodes: seq<Node>, n: nat, reward: int, a: nat)
    requires a < |nodes|
    ensures var b := Backprop(nodes, n, reward)[a];
      && b.game == nodes[a].game && b.children == nodes[a].children
      && b.parent == nodes[a].parent && b.action == nodes[a].action
      && b.numSimulations == nodes[a].numSimulations + (if OnPath(nodes, a, n) then 1 else 0)
      && b.score == nodes[a].score + (if OnPath(nodes, a, n) then reward else 0)
  {
  }

  /** Backpropagating from m leaves every later node alone. */
  lemma BackpropLater(nodes: seq<Node>, m: nat, reward: int, j: nat)
    requires m < j < |nodes|
    ensures Backprop(nodes, m, reward)[j] == nodes[j]
  {
    if OnPath(nodes, j, m) {
      OnPathBelow(nodes, j, m);
    }
  }

  /** Node n with the reward added and one more visit. */
  function Bump(nodes: seq<Node>, n: nat, reward: int): seq<Node>
    requires n < |nodes|
  {
    nodes[n := nodes[n].(score := nodes[n].score + reward, numSimulations := nodes[n].numSimulations + 1)]
  }

  lemma BumpShaped(nodes: seq<Node>, n: nat, reward: int)
    requires Shaped(nodes) && n < |nodes|
    ensures Shaped(Bump(nodes, n, reward))
  {
    assert LinksKept(nodes, Bump(nodes, n, reward));
    ShapedKept(nodes, Bump(nodes, n, reward));
  }

  /** At the root, bumping is backpropagating. */
  lemma BackpropRoot(nodes: seq<Node>, n: nat, reward: int)
    requires Shaped(nodes) && n < |nodes| && nodes[n].parent.None?
    ensures Bump(nodes, n, reward) == Backprop(nodes, n, reward)
  {
    assert n == 0;
    forall a | 0 <= a < |nodes| ensures OnPath(nodes, a, n) <==> a == n {
    }
  }

  /** Below the root, bumping n and then backpropagating from its parent is
      backpropagating from n. */
  lemma BackpropParent(nodes: seq<Node>, n: nat, reward: int)
    requires Shaped(nodes) && n < |nodes| && nodes[n].parent.Some?
    ensures nodes[n].parent.value < n
    ensures Backprop(Bump(nodes, n, reward), nodes[n].parent.value, reward) == Backprop(nodes, n, reward)
  {
    var bumped := Bump(nodes, n, reward);
    assert LinksKept(nodes, bumped);
    var p := nodes[n].parent.value;
    forall a | 0 <= a < |nodes| ensures Backprop(bumped, p, reward)[a] == Backprop(nodes, n, reward)[a] {
      OnPathKept(nodes, bumped, a, p);
      if a == n && OnPath(nodes, a, p) {
        OnPathBelow(nodes, a, p);
      }
    }
  }

  /** Bumping n and then backpropagating from n's parent is backpropagating
      from n. */
  lemma BackpropStep(nodes: seq<Node>, n: nat, reward: int)
    requires Shaped(nodes) && n < |nodes|
    ensures Shaped(Bump(nodes, n, reward))
    ensures nodes[n].parent.None? ==> Bump(nodes, n, reward) == Backprop(nodes, n, reward)
    ensures nodes[n].parent.Some? ==>
      nodes[n].parent.value < n && Backprop(Bump(nodes, n, reward), nodes[n].parent.value, reward) == Backprop(nodes, n, reward)
  {
    BumpShaped(nodes, n, reward);
    if nodes[n].parent.None? {
      BackpropRoot(nodes, n, reward);
    } else {
      BackpropParent(nodes, n, reward);
    }
  }

  /** Backpropagation keeps the links and accounts for one more rollout. */
  lemma BackpropAccounted(nodes: seq<Node>, history: seq<Visit>, n: nat, reward: int)
    requires Accounted(nodes, history) && n < |nodes|
    ensures LinksKept(nodes, Backprop(nodes, n, reward))
    ensures Accounted(Backprop(nodes, n, reward), history + [Visit(n, reward)])
  {
    var r := Backprop(nodes, n, reward);
    var h := history + [Visit(n, reward)];
    assert LinksKept(nodes, r);
    assert h[..|h| - 1] == history;
    forall a | 0 <= a < |r|
      ensures r[a].numSimulations == Visits(r, h, a) && r[a].score == Score(r, h, a)
    {
      VisitsKept(nodes, r, history, a);
      OnPathKept(nodes, r, a, n);
    }
  }

  // ---------------------------------------------------------------------------
  // Expansion

  /** The new child for `action`: the parent's game with the action applied,
      no statistics, no children, linked to its parent and to the action. */
  function ChildFor(game: Game, n: nat, action: Action): Node
    requires HasColour(game, action.shape.colour)
  {
    Node(ApplyAction(action, game), 0, 0, [], Some(n), Some(action))
  }

  /** Appends `child` as the last child of node n. */
  function Adopt(nodes: seq<Node>, n: nat, child: Node): (r: seq<Node>)
    requires n < |nodes|
  {
    nodes[n := nodes[n].(children := nodes[n].children + [|nodes|])] + [child]
  }

  lemma AdoptExact(nodes: seq<Node>, n: nat, child: Node)
    requires n < |nodes|
    ensures var r := Adopt(nodes, n, child);
      && |r| == |nodes| + 1
      && r[n] == nodes[n].(children := nodes[n].children + [|nodes|])
      && (forall m :: 0 <= m < |nodes| && m != n ==> r[m] == nodes[m])
      && r[|nodes|] == child
  {
  }

  predicate Colours(game: Game, actions: seq<Action>)
  {
    forall k :: 0 <= k < |actions| ==> HasColour(game, actions[k].shape.colour)
  }

  /** One new child per action, in order. */
  function NewChildren(game: Game, n: nat, actions: seq<Action>): (r: seq<Node>)
    requires Colours(game, actions)
    ensures |r| == |actions| && forall k :: 0 <= k < |actions| ==> r[k] == ChildFor(game, n, actions[k])
  {
    seq(|actions|, k requires 0 <= k < |actions| => ChildFor(game, n, actions[k]))
  }

  lemma NewChildrenSnoc(game: Game, n: nat, actions: seq<Action>, i: nat)
    requires Colours(game, actions) && i < |actions|
    ensures Colours(game, actions[..i]) && Colours(game, actions[..i + 1])
    ensures NewChildren(game, n, actions[..i + 1]) == NewChildren(game, n, actions[..i]) + [ChildFor(game, n, actions[i])]
  {
    ColoursPrefix(game, actions, i);
    ColoursPrefix(game, actions, i + 1);
    assert actions[..i + 1][i] == actions[i];
    forall k | 0 <= k < i ensures actions[..i + 1][k] == actions[..i][k] {
    }
  }

  /** Appends the given nodes as the last children of node n, in order. */
  function ExpandWith(nodes: seq<Node>, n: nat, children: seq<Node>): (r: seq<Node>)
    requires n < |nodes|
    ensures |r| == |nodes| + |children|
  {
    if children == [] then nodes
    else Adopt(ExpandWith(nodes, n, children[..|children| - 1]), n, children[|children| - 1])
  }

  /** The indices lo, lo + 1, ..., lo + count - 1. */
  function Indices(lo: nat, count: nat): (r: seq<nat>)
    ensures |r| == count && forall k :: 0 <= k < count ==> r[k] == lo + k
  {
    if count == 0 then [] else Indices(lo, count - 1) + [lo + count - 1]
  }

  lemma ColoursPrefix(game: Game, actions: seq<Action>, i: nat)
    requires Colours(game, actions) && i <= |actions|
    ensures Colours(game, actions[..i])
  {
    forall k | 0 <= k < i ensures HasColour(game, actions[..i][k].shape.colour) {
      assert actions[..i][k] == actions[k];
    }
  }

  /** Expansion lists the new children after n's old ones, in order. */
  lemma {:induction false} ExpandWithParent(nodes: seq<Node>, n: nat, children: seq<Node>)
    requires n < |nodes|
    ensures ExpandWith(nodes, n, children)[n] == nodes[n].(children := nodes[n].children + Indices(|nodes|, |children|))
  {
    if children != [] {
      var init := children[..|children| - 1];
      ExpandWithParent(nodes, n, init);
      AdoptExact(ExpandWith(nodes, n, init), n, children[|children| - 1]);
    }
  }

  /** Expansion changes no node but n among the existing ones. */
  lemma {:induction false} ExpandWithOthers(nodes: seq<Node>, n: nat, children: seq<Node>, m: nat)
    requires n < |nodes| && m < |nodes| && m != n
    ensures ExpandWith(nodes, n, children)[m] == nodes[m]
  {
    if children != [] {
      var init := children[..|children| - 1];
      ExpandWithOthers(nodes, n, init, m);
      AdoptExact(ExpandWith(nodes, n, init), n, children[|children| - 1]);
    }
  }

  /** Expansion places the k-th new node at index |nodes| + k. */
  lemma {:induction false} ExpandWithChild(nodes: seq<Node>, n: nat, children: seq<Node>, k: nat)
    requires n < |nodes| && k < |children|
    ensures ExpandWith(nodes, n, children)[|nodes| + k] == children[k]
  {
    var init := children[..|children| - 1];
    AdoptExact(ExpandWith(nodes, n, init), n, children[|children| - 1]);
    if k < |init| {
      ExpandWithChild(nodes, n, init, k);
    }
  }

  /** Expanding node n and then backpropagating from the first appended node
      bumps that node only among the new ones, and leaves n's new child list. */
  lemma BackpropFirstChild(nodes: seq<Node>, n: nat, children: seq<Node>, reward: int, k: nat)
    requires n < |nodes| && k < |children|
    ensures var b := Backprop(ExpandWith(nodes, n, children), |nodes|, reward);
      && b[n].children == nodes[n].children + Indices(|nodes|, |children|)
      && b[|nodes| + k] == if k == 0 then children[0].(score := children[0].score + reward, numSimulations := children[0].numSimulations + 1) else children[k]
  {
    var e := ExpandWith(nodes, n, children);
    ExpandWithParent(nodes, n, children);
    ExpandWithChild(nodes, n, children, k);
    BackpropFields(e, |nodes|, reward, n);
    if k == 0 {
      BackpropFields(e, |nodes|, reward, |nodes|);
    } else {
      BackpropLater(e, |nodes|, reward, |nodes| + k);
    }
  }

  /** Adopting a child keeps the tree well linked. */
  lemma AdoptShaped(nodes: seq<Node>, n: nat, child: Node)
    requires Shaped(nodes) && n < |nodes| && child.parent == Some(n) && child.children == []
    ensures Shaped(Adopt(nodes, n, child))
  {
    AdoptExact(nodes, n, child);
    AdoptLinked(nodes, n, child);
    AdoptIncreasing(nodes, n, child);
    AdoptComplete(nodes, n, child);
  }

  lemma AdoptLinked(nodes: seq<Node>, n: nat, child: Node)
    requires ChildrenLinked(nodes) && n < |nodes| && child.parent == Some(n) && child.children == []
    ensures ChildrenLinked(Adopt(nodes, n, child))
  {
    var r := Adopt(nodes, n, child);
    AdoptExact(nodes, n, child);
    forall m, k | 0 <= m < |r| && 0 <= k < |r[m].children|
      ensures m < r[m].children[k] < |r| && r[r[m].children[k]].parent == Some(m)
    {
      if m == n && k == |nodes[n].children| {
        assert r[m].children[k] == |nodes|;
      } else {
        assert r[m].children[k] == nodes[m].children[k];
      }
    }
  }

  lemma AdoptIncreasing(nodes: seq<Node>, n: nat, child: Node)
    requires ChildrenLinked(nodes) && ChildrenIncreasing(nodes) && n < |nodes| && child.children == []
    ensures ChildrenIncreasing(Adopt(nodes, n, child))
  {
    var r := Adopt(nodes, n, child);
    AdoptExact(nodes, n, child);
    forall m, j, k | 0 <= m < |r| && 0 <= j < k < |r[m].children|
      ensures r[m].children[j] < r[m].children[k]
    {
      if m == n && k == |nodes[n].children| {
        assert r[m].children[j] == nodes[m].children[j];
      } else {
        assert r[m].children[k] == nodes[m].children[k];
      }
    }
  }

  lemma AdoptComplete(nodes: seq<Node>, n: nat, child: Node)
    requires Shaped(nodes) && n < |nodes| && child.parent == Some(n)
    ensures ParentsBefore(Adopt(nodes, n, child)) && ChildrenComplete(Adopt(nodes, n, child))
  {
    var r := Adopt(nodes, n, child);
    AdoptExact(nodes, n, child);
    assert ParentsBefore(r);
    forall m | 0 < m < |r| ensures m in r[r[m].parent.value].children {
      if m < |nodes| {
        assert m in nodes[nodes[m].parent.value].children;
      } else {
        assert r[n].children[|nodes[n].children|] == |nodes|;
      }
    }
  }

  /** Adopting a child keeps the accounting: the new node has seen no rollout. */
  lemma AdoptAccounted(nodes: seq<Node>, history: seq<Visit>, n: nat, child: Node)
    requires Accounted(nodes, history) && n < |nodes| && child.numSimulations == 0 && child.score == 0
    ensures Accounted(Adopt(nodes, n, child), history)
  {
    var r := Adopt(nodes, n, child);
    AdoptExact(nodes, n, child);
    assert LinksKept(nodes, r);
    forall a | 0 <= a < |r|
      ensures r[a].numSimulations == Visits(r, history, a) && r[a].score == Score(r, history, a)
    {
      VisitsKept(nodes, r, history, a);
      if a == |nodes| {
        NoVisitsAbove(nodes, history, a);
      }
    }
  }

  /** New nodes fit to be children of n: linked to n, with no children and no
      statistics. */
  predicate Fresh(children: seq<Node>, n: nat)
  {
    forall k :: 0 <= k < |children| ==>
      children[k].parent == Some(n) && children[k].children == [] && children[k].numSimulations == 0 && children[k].score == 0
  }

  /** Expansion keeps the tree well linked and its accounting. */
  lemma {:induction false} ExpandWithKeeps(nodes: seq<Node>, history: seq<Visit>, n: nat, children: seq<Node>)
    requires Shaped(nodes) && Accounted(nodes, history) && n < |nodes| && Fresh(children, n)
    ensures Shaped(ExpandWith(nodes, n, children)) && Accounted(ExpandWith(nodes, n, children), history)
  {
    if children != [] {
      var init := children[..|children| - 1];
      var child := children[|children| - 1];
      assert Fresh(init, n) by {
        forall k | 0 <= k < |init| ensures init[k] == children[k] {
        }
      }
      ExpandWithKeeps(nodes, history, n, init);
      AdoptShaped(ExpandWith(nodes, n, init), n, child);
      AdoptAccounted(ExpandWith(nodes, n, init), history, n, child);
    }
  }

  /** A node created after every rollout's start has seen none of them. */
  lemma {:induction false} NoVisitsAbove(nodes: seq<Node>, history: seq<Visit>, a: nat)
    requires InRange(history, a)
    ensures Visits(nodes, history, a) == 0 && Score(nodes, history, a) == 0
  {
    if history != [] {
      var last := history[|history| - 1];
      NoVisitsAbove(nodes, history[..|history| - 1], a);
      if OnPath(nodes, a, last.node) {
        OnPathBelow(nodes, a, last.node);
      }
    }
  }

  // ---------------------------------------------------------------------------
  // Best child

  /** A node's value: +Infinity while unvisited, otherwise its score on the
      exploration formula, which is left as the parameter `ucb`. */
  datatype Value = Infinite | Finite(v: real)

  /** The strict `>` of the source on values, +Infinity above every number. */
  predicate Greater(x: Value, y: Value)
  {
    match x
    case Infinite => y.Finite?
    case Finite(a) => y.Finite? && a > y.v
  }

  function ValueOf(node: Node, parentSimulations: nat, ucb: (int, nat, nat) -> real): (v: Value)
    ensures v == Infinite <==> node.numSimulations == 0
  {
    if node.numSimulations == 0 then Infinite
    else Finite(ucb(node.score, node.numSimulations, parentSimulations))
  }

  /** The scan of the source's loop: from position i on, keep `best` unless a
      strictly greater value comes. */
  function ArgMaxFrom(values: seq<Value>, i: nat, best: nat): (r: nat)
    requires i <= |values| && best < |values|
    ensures r < |values|
    decreases |values| - i
  {
    if i == |values| then best
    else if Greater(values[i], values[best]) then ArgMaxFrom(values, i + 1, i)
    else ArgMaxFrom(values, i + 1, best)
  }

  /** The scan ends on a maximum, and on the first one: every later value is
      not greater, every earlier one is strictly smaller. */
  lemma {:induction false} ArgMaxFromMaximal(values: seq<Value>, i: nat, best: nat)
    requires i <= |values| && best < |values| && best <= i
    requires forall j :: 0 <= j < i ==> !Greater(values[j], values[best])
    requires forall j :: 0 <= j < best ==> Greater(values[best], values[j])
    ensures var r := ArgMaxFrom(values, i, best);
      && (forall j :: 0 <= j < |values| ==> !Greater(values[j], values[r]))
      && (forall j :: 0 <= j < r ==> Greater(values[r], values[j]))
    decreases |values| - i
  {
    if i < |values| {
      if Greater(values[i], values[best]) {
        ArgMaxFromMaximal(values, i + 1, i);
      } else {
        ArgMaxFromMaximal(values, i + 1, best);
      }
    }
  }

  /** The maximum, ties going to the first: the source starts from the first
      value and scans all of them. */
  function ArgMax(values: seq<Value>): (r: nat)
    requires |values| > 0
    ensures r < |values|
  {
    ArgMaxFrom(values, 0, 0)
  }

  /** ArgMax is the first maximum; if some value is +Infinity it is the first
      +Infinity. */
  lemma ArgMaxFirstMaximum(values: seq<Value>)
    requires |values| > 0
    ensures forall j :: 0 <= j < |values| ==> !Greater(values[j], values[ArgMax(values)])
    ensures forall j :: 0 <= j < ArgMax(values) ==> Greater(values[ArgMax(values)], values[j])
    ensures (exists j :: 0 <= j < |values| && values[j] == Infinite) ==>
      values[ArgMax(values)] == Infinite
      && forall j :: 0 <= j < ArgMax(values) ==> values[j] != Infinite
  {
    ArgMaxFromMaximal(values, 0, 0);
  }

  /** The values of node n's children. */
  function ChildValues(nodes: seq<Node>, n: nat, ucb: (int, nat, nat) -> real): (vs: seq<Value>)
    requires Shaped(nodes) && n < |nodes|
    ensures |vs| == |nodes[n].children|
  {
    var cs := nodes[n].children;
    seq(|cs|, k requires 0 <= k < |cs| => ValueOf(nodes[cs[k]], nodes[n].numSimulations, ucb))
  }

  function BestChild(nodes: seq<Node>, n: nat, ucb: (int, nat, nat) -> real): (c: nat)
    requires Shaped(nodes) && n < |nodes| && |nodes[n].children| > 0
    ensures c in nodes[n].children && n < c < |nodes| && nodes[c].parent == Some(n)
  {
    nodes[n].children[ArgMax(ChildValues(nodes, n, ucb))]
  }

  /** Best child: an argmax of the children's values, ties going to the
      first child. */
  lemma BestChildIsFirstMaximum(nodes: seq<Node>, n: nat, ucb: (int, nat, nat) -> real)
    requires Shaped(nodes) && n < |nodes| && |nodes[n].children| > 0
    ensures var vs := ChildValues(nodes, n, ucb); var b := ArgMax(vs);
      && BestChild(nodes, n, ucb) == nodes[n].children[b]
      && (forall j :: 0 <= j < |vs| ==> !Greater(vs[j], vs[b]))
      && (forall j :: 0 <= j < b ==> Greater(vs[b], vs[j]))
  {
    ArgMaxFirstMaximum(ChildValues(nodes, n, ucb));
  }

  /** If some child is unvisited, the best child is the first unvisited one. */
  lemma BestChildFirstUnvisited(nodes: seq<Node>, n: nat, ucb: (int, nat, nat) -> real, k: nat)
    requires Shaped(nodes) && n < |nodes| && k < |nodes[n].children|
    requires nodes[nodes[n].children[k]].numSimulations == 0
    ensures var b := ArgMax(ChildValues(nodes, n, ucb));
      && BestChild(nodes, n, ucb) == nodes[n].children[b]
      && nodes[BestChild(nodes, n, ucb)].numSimulations == 0
      && forall j :: 0 <= j < b ==> nodes[nodes[n].children[j]].numSimulations > 0
  {
    var vs := ChildValues(nodes, n, ucb);
    ArgMaxFirstMaximum(vs);
    var b := ArgMax(vs);
    assert vs[k] == Infinite;
    assert vs[b] == Infinite;
    forall j | 0 <= j < b ensures nodes[nodes[n].children[j]].numSimulations > 0 {
      assert vs[j] != Infinite;
    }
  }

  // ---------------------------------------------------------------------------
  // Descent

  /** `isLeaf`: a node without children. */
  predicate IsLeaf(node: Node)
  {
    node.children == []
  }

  /** From n, follow best children down to a leaf. */
  function Candidate(nodes: seq<Node>, n: nat, ucb: (int, nat, nat) -> real): (c: nat)
    requires Shaped(nodes) && n < |nodes|
    ensures c < |nodes|
    decreases |nodes| - n
  {
    if IsLeaf(nodes[n]) then n else Candidate(nodes, BestChild(nodes, n, ucb), ucb)
  }

  /** The candidate is a leaf below (or at) the node the descent starts from. */
  lemma {:induction false} CandidateIsLeafBelow(nodes: seq<Node>, n: nat, ucb: (int, nat, nat) -> real)
    requires Shaped(nodes) && n < |nodes|
    ensures var c := Candidate(nodes, n, ucb);
      c < |nodes| && IsLeaf(nodes[c]) && OnPath(nodes, n, c)
    decreases |nodes| - n
  {
    if !IsLeaf(nodes[n]) {
      var b := BestChild(nodes, n, ucb);
      CandidateIsLeafBelow(nodes, b, ucb);
      OnPathChild(nodes, n, b, Candidate(nodes, b, ucb));
    }
  }
}
