/** The Monte-Carlo tree search of src/tree/tree.ts: a tree object whose
    methods descend to a candidate leaf, expand it, roll out and backpropagate,
    updating the node arena in place. */
module Tree {
  import opened Board
  import opened Actions
  import opened Rollout
  import opened Arena

  /** Every node holds a well-formed game. */
  predicate GamesWellFormed(nodes: seq<Node>)
  {
    forall m :: 0 <= m < |nodes| ==> WellFormed(nodes[m].game)
  }

  /** The tree over `game` before any step: one root, no statistics. */
  function RootOf(game: Game): Node
  {
    Node(game, 0, 0, [], None, None)
  }

  /** A valid action of a well-formed game has a colour in the game and leaves
      the game well-formed. */
  lemma ValidActionWellFormed(game: Game, action: Action)
    requires WellFormed(game) && action in ValidActions(game)
    ensures HasColour(game, action.shape.colour) && WellFormed(ApplyAction(action, game))
  {
    ValidActionsSound(game, action);
    var i :| 0 <= i < |game.shapes| && game.shapes[i].positions.None? && game.shapes[i].shape == action.shape;
    ApplyActionWellFormed(action, game, i);
  }

  lemma ValidActionsColours(game: Game)
    requires WellFormed(game)
    ensures Colours(game, ValidActions(game))
  {
    var actions := ValidActions(game);
    forall k | 0 <= k < |actions| ensures HasColour(game, actions[k].shape.colour) {
      ValidActionWellFormed(game, actions[k]);
    }
  }

  /** The children `addNewNodes` creates for node n: fresh, and each holding
      a well-formed game. */
  lemma NewChildrenFresh(game: Game, n: nat)
    requires WellFormed(game)
    ensures Colours(game, ValidActions(game))
    ensures var children := NewChildren(game, n, ValidActions(game));
      Fresh(children, n) && forall k :: 0 <= k < |children| ==> WellFormed(children[k].game)
  {
    ValidActionsColours(game);
    var actions := ValidActions(game);
    forall k | 0 <= k < |actions| ensures WellFormed(ApplyAction(actions[k], game)) {
      ValidActionWellFormed(game, actions[k]);
    }
  }

  lemma {:induction false} ExpandWithGames(nodes: seq<Node>, n: nat, children: seq<Node>)
    requires GamesWellFormed(nodes) && n < |nodes|
    requires forall k :: 0 <= k < |children| ==> WellFormed(children[k].game)
    ensures GamesWellFormed(ExpandWith(nodes, n, children))
  {
    if children != [] {
      var init := children[..|children| - 1];
      assert forall k :: 0 <= k < |init| ==> init[k] == children[k];
      ExpandWithGames(nodes, n, init);
      AdoptExact(ExpandWith(nodes, n, init), n, children[|children| - 1]);
    }
  }

  /** Adopting the child for a valid action of node n's game keeps the tree
      well linked, its accounting, and every game well-formed. */
  lemma AdoptKeeps(nodes: seq<Node>, history: seq<Visit>, n: nat, action: Action)
    requires Shaped(nodes) && Accounted(nodes, history) && GamesWellFormed(nodes) && n < |nodes|
    requires action in ValidActions(nodes[n].game)
    ensures HasColour(nodes[n].game, action.shape.colour)
    ensures var r := Adopt(nodes, n, ChildFor(nodes[n].game, n, action));
      Shaped(r) && Accounted(r, history) && GamesWellFormed(r) && r[n].game == nodes[n].game
  {
    ValidActionWellFormed(nodes[n].game, action);
    var child := ChildFor(nodes[n].game, n, action);
    AdoptShaped(nodes, n, child);
    AdoptAccounted(nodes, history, n, child);
    AdoptExact(nodes, n, child);
  }

  /** The tree after `addNewNodes` on node n. */
  function Expansion(nodes: seq<Node>, n: nat): (r: seq<Node>)
    requires n < |nodes| && WellFormed(nodes[n].game)
    ensures |r| == |nodes| + |ValidActions(nodes[n].game)|
  {
    ValidActionsColours(nodes[n].game);
    ExpandWith(nodes, n, NewChildren(nodes[n].game, n, ValidActions(nodes[n].game)))
  }

  /** Expanding a node keeps the tree well linked, its accounting, and every
      game well-formed. */
  lemma ExpansionKeeps(nodes: seq<Node>, history: seq<Visit>, n: nat)
    requires Shaped(nodes) && Accounted(nodes, history) && GamesWellFormed(nodes) && n < |nodes|
    ensures Shaped(Expansion(nodes, n)) && Accounted(Expansion(nodes, n), history)
    ensures GamesWellFormed(Expansion(nodes, n))
  {
    var game := nodes[n].game;
    NewChildrenFresh(game, n);
    var children := NewChildren(game, n, ValidActions(game));
    ExpandWithKeeps(nodes, history, n, children);
    ExpandWithGames(nodes, n, children);
  }

  /** Expanding node n appends one child index per valid action to n. */
  lemma ExpansionParent(nodes: seq<Node>, n: nat)
    requires n < |nodes| && WellFormed(nodes[n].game)
    ensures Expansion(nodes, n)[n] == nodes[n].(children := nodes[n].children + Indices(|nodes|, |ValidActions(nodes[n].game)|))
  {
    var game := nodes[n].game;
    ValidActionsColours(game);
    ExpandWithParent(nodes, n, NewChildren(game, n, ValidActions(game)));
  }

  /** Expanding node n leaves every other existing node as it was. */
  lemma ExpansionOthers(nodes: seq<Node>, n: nat, m: nat)
    requires n < |nodes| && WellFormed(nodes[n].game) && m < |nodes| && m != n
    ensures Expansion(nodes, n)[m] == nodes[m]
  {
    var game := nodes[n].game;
    ValidActionsColours(game);
    ExpandWithOthers(nodes, n, NewChildren(game, n, ValidActions(game)), m);
  }

  /** The k-th new node of an expansion of n is the k-th valid action's child. */
  lemma ExpansionChild(nodes: seq<Node>, n: nat, k: nat)
    requires n < |nodes| && WellFormed(nodes[n].game) && k < |ValidActions(nodes[n].game)|
    ensures HasColour(nodes[n].game, ValidActions(nodes[n].game)[k].shape.colour)
    ensures Expansion(nodes, n)[|nodes| + k] == ChildFor(nodes[n].game, n, ValidActions(nodes[n].game)[k])
    ensures WellFormed(Expansion(nodes, n)[|nodes| + k].game)
  {
    var game := nodes[n].game;
    ValidActionsColours(game);
    ValidActionWellFormed(game, ValidActions(game)[k]);
    ExpandWithChild(nodes, n, NewChildren(game, n, ValidActions(game)), k);
  }

  /** The first new node of an expansion holds a well-formed game. */
  lemma ExpansionFirstWellFormed(nodes: seq<Node>, n: nat)
    requires n < |nodes| && WellFormed(nodes[n].game) && |ValidActions(nodes[n].game)| > 0
    ensures WellFormed(Expansion(nodes, n)[|nodes|].game)
  {
    ExpansionChild(nodes, n, 0);
    assert |nodes| + 0 == |nodes|;
  }

  /** What one search step does to the tree: the new nodes, the game it
      reports, and the node rolled out, if any. */
  datatype Outcome = Outcome(nodes: seq<Node>, solution: Game, rolledOut: Option<nat>)

  /** `rollout` on node n: play its game out and backpropagate the reward. */
  function RollOutAt(nodes: seq<Node>, n: nat, roll: nat -> nat): Outcome
    requires n < |nodes| && WellFormed(nodes[n].game)
  {
    var result := Simulation(nodes[n].game, roll);
    Outcome(Backprop(nodes, n, RolloutReward(result)), result, Some(n))
  }

  /** Expand node c; roll out its first new child if there is one, else report
      c's game. */
  function ExpandAndRollOut(nodes: seq<Node>, c: nat, roll: nat -> nat): Outcome
    requires c < |nodes| && WellFormed(nodes[c].game)
  {
    var expanded := Expansion(nodes, c);
    if |expanded| == |nodes| then Outcome(expanded, nodes[c].game, None)
    else
      ExpansionFirstWellFormed(nodes, c);
      RollOutAt(expanded, |nodes|, roll)
  }

  /** One step of `solve`: descend to a candidate leaf; if it is unvisited,
      roll it out; otherwise expand it and roll out its first child; if it has
      no valid action, report its game and change nothing. */
  function Step(nodes: seq<Node>, roll: nat -> nat, ucb: (int, nat, nat) -> real): Outcome
    requires Shaped(nodes) && GamesWellFormed(nodes)
  {
    var c := Candidate(nodes, 0, ucb);
    if nodes[c].numSimulations == 0 then RollOutAt(nodes, c, roll)
    else ExpandAndRollOut(nodes, c, roll)
  }

  /** A step keeps the tree well linked and every game well-formed, and its
      accounting covers exactly one more rollout when one happened and
      none otherwise. */
  lemma StepKeeps(nodes: seq<Node>, history: seq<Visit>, roll: nat -> nat, ucb: (int, nat, nat) -> real)
    requires Shaped(nodes) && Accounted(nodes, history) && GamesWellFormed(nodes)
    ensures var o := Step(nodes, roll, ucb);
      && Shaped(o.nodes) && GamesWellFormed(o.nodes) && WellFormed(o.solution)
      && Accounted(o.nodes, history + (if o.rolledOut.Some? then [Visit(o.rolledOut.value, RolloutReward(o.solution))] else []))
  {
    var o := Step(nodes, roll, ucb);
    var c := Candidate(nodes, 0, ucb);
    CandidateIsLeafBelow(nodes, 0, ucb);
    StepSolutionWellFormed(nodes, roll, ucb);
    if nodes[c].numSimulations == 0 {
      BackpropKeeps(nodes, history, c, RolloutReward(o.solution));
    } else {
      ExpansionKeeps(nodes, history, c);
      var expanded := Expansion(nodes, c);
      if |ValidActions(nodes[c].game)| == 0 {
        assert history + [] == history;
      } else {
        BackpropKeeps(expanded, history, |nodes|, RolloutReward(o.solution));
      }
    }
  }

  /** The game a step reports is well-formed: a rollout's result, or the
      game of a leaf that has no valid action. */
  lemma StepSolutionWellFormed(nodes: seq<Node>, roll: nat -> nat, ucb: (int, nat, nat) -> real)
    requires Shaped(nodes) && GamesWellFormed(nodes)
    ensures WellFormed(Step(nodes, roll, ucb).solution)
  {
    var c := Candidate(nodes, 0, ucb);
    CandidateIsLeafBelow(nodes, 0, ucb);
    if nodes[c].numSimulations == 0 {
      SimulationWellFormed(nodes[c].game, roll);
    } else if |ValidActions(nodes[c].game)| > 0 {
      var expanded := Expansion(nodes, c);
      ExpansionFirstWellFormed(nodes, c);
      SimulationWellFormed(expanded[|nodes|].game, roll);
    }
  }

  lemma BackpropKeeps(nodes: seq<Node>, history: seq<Visit>, n: nat, reward: int)
    requires Shaped(nodes) && Accounted(nodes, history) && GamesWellFormed(nodes) && n < |nodes|
    ensures Shaped(Backprop(nodes, n, reward)) && GamesWellFormed(Backprop(nodes, n, reward))
    ensures Accounted(Backprop(nodes, n, reward), history + [Visit(n, reward)])
  {
    var r := Backprop(nodes, n, reward);
    BackpropAccounted(nodes, history, n, reward);
    assert forall m :: 0 <= m < |nodes| ==> r[m].game == nodes[m].game && r[m].children == nodes[m].children;
    ShapedKept(nodes, r);
  }

  /** A step on a tree whose candidate leaf is visited and has no valid action
      changes nothing and reports the leaf's game. */
  lemma StepStuck(nodes: seq<Node>, roll: nat -> nat, ucb: (int, nat, nat) -> real)
    requires Shaped(nodes) && GamesWellFormed(nodes)
    requires var c := Candidate(nodes, 0, ucb);
      nodes[c].numSimulations > 0 && ValidActions(nodes[c].game) == []
    ensures Step(nodes, roll, ucb) == Outcome(nodes, nodes[Candidate(nodes, 0, ucb)].game, None)
  {
    var c := Candidate(nodes, 0, ucb);
    ValidActionsColours(nodes[c].game);
    assert NewChildren(nodes[c].game, c, []) == [];
  }

  /** A stuck leaf stays the candidate: the next step, whatever its draws,
      picks it again and again changes nothing, so the search reports the
      same game from then on. */
  lemma StuckRepeats(nodes: seq<Node>, roll: nat -> nat, again: nat -> nat, ucb: (int, nat, nat) -> real)
    requires Shaped(nodes) && GamesWellFormed(nodes)
    requires var c := Candidate(nodes, 0, ucb);
      nodes[c].numSimulations > 0 && ValidActions(nodes[c].game) == []
    ensures Step(nodes, roll, ucb).nodes == nodes
    ensures Step(Step(nodes, roll, ucb).nodes, again, ucb) == Step(nodes, roll, ucb)
  {
    StepStuck(nodes, roll, ucb);
    StepStuck(nodes, again, ucb);
  }

  /** Expanding leaf c and rolling out adds one child per valid action of c,
      in order, each holding c's game with its action applied and no
      statistics except the first, which is rolled out. */
  lemma ExpandAndRollOutChildren(nodes: seq<Node>, c: nat, roll: nat -> nat, k: nat)
    requires c < |nodes| && WellFormed(nodes[c].game) && nodes[c].children == []
    requires k < |ValidActions(nodes[c].game)|
    ensures HasColour(nodes[c].game, ValidActions(nodes[c].game)[k].shape.colour)
    ensures var o := ExpandAndRollOut(nodes, c, roll);
      var child := ChildFor(nodes[c].game, c, ValidActions(nodes[c].game)[k]);
      && |o.nodes| == |nodes| + |ValidActions(nodes[c].game)|
      && o.rolledOut == Some(|nodes|)
      && o.nodes[c].children == Indices(|nodes|, |ValidActions(nodes[c].game)|)
      && o.nodes[|nodes| + k] == if k == 0 then child.(score := RolloutReward(o.solution), numSimulations := 1) else child
  {
    var game := nodes[c].game;
    var actions := ValidActions(game);
    ValidActionsColours(game);
    var children := NewChildren(game, c, actions);
    var expanded := Expansion(nodes, c);
    assert expanded == ExpandWith(nodes, c, children);
    ExpansionFirstWellFormed(nodes, c);
    var o := ExpandAndRollOut(nodes, c, roll);
    assert o == RollOutAt(expanded, |nodes|, roll);
    BackpropFirstChild(nodes, c, children, RolloutReward(o.solution), k);
  }

  /** A step whose candidate leaf is visited expands it and rolls out its
      first new child. */
  lemma StepExpands(nodes: seq<Node>, roll: nat -> nat, ucb: (int, nat, nat) -> real)
    requires Shaped(nodes) && GamesWellFormed(nodes)
    requires nodes[Candidate(nodes, 0, ucb)].numSimulations > 0
    ensures IsLeaf(nodes[Candidate(nodes, 0, ucb)])
    ensures Step(nodes, roll, ucb) == ExpandAndRollOut(nodes, Candidate(nodes, 0, ucb), roll)
  {
    CandidateIsLeafBelow(nodes, 0, ucb);
  }

  /** From a fresh tree, the first step rolls out the root, and the second
      expands the root, adding one child per valid action of the game. */
  lemma TwoStepsFromRoot(game: Game, roll: nat -> nat, again: nat -> nat, ucb: (int, nat, nat) -> real)
    requires WellFormed(game)
    ensures Shaped([RootOf(game)]) && GamesWellFormed([RootOf(game)])
    ensures var first := Step([RootOf(game)], roll, ucb);
      && first.rolledOut == Some(0) && |first.nodes| == 1
      && first.nodes[0].numSimulations == 1 && first.nodes[0].children == []
      && Shaped(first.nodes) && GamesWellFormed(first.nodes)
      && Candidate(first.nodes, 0, ucb) == 0
      && Step(first.nodes, again, ucb) == ExpandAndRollOut(first.nodes, 0, again)
      && |Step(first.nodes, again, ucb).nodes| == 1 + |ValidActions(game)|
  {
    var root := [RootOf(game)];
    assert Candidate(root, 0, ucb) == 0;
    StepKeeps(root, [], roll, ucb);
    var first := Step(root, roll, ucb);
    assert first == RollOutAt(root, 0, roll);
    assert OnPath(root, 0, 0);
    assert Candidate(first.nodes, 0, ucb) == 0;
  }

  class SearchTree {
    var nodes: seq<Node>
    /** The rollouts so far, oldest first. */
    ghost var history: seq<Visit>

    ghost predicate Valid()
      reads this
    {
      Shaped(nodes) && Accounted(nodes, history) && GamesWellFormed(nodes)
    }

    /** `generateTree`: a root over the game with no statistics, children,
        parent or action. */
    constructor (game: Game)
      ensures nodes == [RootOf(game)] && history == []
      ensures WellFormed(game) ==> Valid()
    {
      nodes := [RootOf(game)];
      history := [];
    }

    /** A node's visit count is the rollouts started at it plus its children's
        visit counts; the root's count is the number of rollouts. */
    lemma VisitAccounting(a: nat)
      requires Valid() && a < |nodes|
      ensures forall k :: 0 <= k < |nodes[a].children| ==> nodes[a].children[k] < |nodes|
      ensures nodes[a].numSimulations == StartedAt(history, a) + SumSimulations(nodes, nodes[a].children)
      ensures nodes[0].numSimulations == |history|
    {
      ChildrenSum(nodes, history, a);
    }

    method BestChildOf(n: nat, ucb: (int, nat, nat) -> real) returns (best: nat)
      requires Shaped(nodes) && n < |nodes| && |nodes[n].children| > 0
      ensures best == BestChild(nodes, n, ucb)
    {
      var children := nodes[n].children;
      var parentSimulations := nodes[n].numSimulations;
      ghost var values := ChildValues(nodes, n, ucb);
      var b := 0;
      var bestValue := ValueOf(nodes[children[0]], parentSimulations, ucb);
      for i := 0 to |children|
        invariant b < |children| && b <= i && bestValue == values[b]
        invariant ArgMaxFrom(values, i, b) == ArgMax(values)
      {
        var value := ValueOf(nodes[children[i]], parentSimulations, ucb);
        assert value == values[i];
        if Greater(value, bestValue) {
          bestValue := value;
          b := i;
        }
      }
      best := children[b];
    }

    method FindCandidate(n: nat, ucb: (int, nat, nat) -> real) returns (candidate: nat)
      requires Shaped(nodes) && n < |nodes|
      ensures candidate == Candidate(nodes, n, ucb)
      decreases |nodes| - n
    {
      if IsLeaf(nodes[n]) {
        candidate := n;
      } else {
        var best := BestChildOf(n, ucb);
        candidate := FindCandidate(best, ucb);
      }
    }

    /** Adds the reward and one visit to n and to each ancestor up to the root. */
    method ApplyScore(n: nat, score: int)
      requires Shaped(nodes) && n < |nodes|
      modifies this
      ensures nodes == Backprop(old(nodes), n, score) && history == old(history)
      decreases n
    {
      ghost var start := nodes;
      BackpropStep(start, n, score);
      var parent := nodes[n].parent;
      nodes := Bump(nodes, n, score);
      if parent.Some? {
        ApplyScore(parent.value, score);
      }
    }

    /** Appends to node n the child for `action`: n's game with the action
        applied, no statistics, linked to n. */
    method AddChild(n: nat, action: Action)
      requires Valid() && n < |nodes| && action in ValidActions(nodes[n].game)
      modifies this
      ensures HasColour(old(nodes)[n].game, action.shape.colour)
      ensures Valid() && history == old(history)
      ensures nodes == Adopt(old(nodes), n, ChildFor(old(nodes)[n].game, n, action))
    {
      AdoptKeeps(nodes, history, n, action);
      var child := Node(ApplyAction(action, nodes[n].game), 0, 0, [], Some(n), Some(action));
      nodes := nodes[n := nodes[n].(children := nodes[n].children + [|nodes|])] + [child];
    }

    /** One child per valid action of node n's game, in order. */
    method AddNewNodes(n: nat)
      requires Valid() && n < |nodes|
      modifies this
      ensures Valid() && history == old(history)
      ensures nodes == Expansion(old(nodes), n)
    {
      var game := nodes[n].game;
      var actions := GetValidActions(game);
      forall k | 0 <= k < |actions| ensures actions[k] in ValidActions(game) {
      }
      ValidActionsColours(game);
      ghost var start := nodes;
      for i := 0 to |actions|
        invariant Colours(game, actions[..i])
        invariant nodes == ExpandWith(start, n, NewChildren(game, n, actions[..i]))
        invariant Valid() && history == old(history) && n < |nodes| && nodes[n].game == game
      {
        NewChildrenSnoc(game, n, actions, i);
        ghost var children := NewChildren(game, n, actions[..i + 1]);
        assert children[..|children| - 1] == NewChildren(game, n, actions[..i]);
        AddChild(n, actions[i]);
      }
      assert actions[..|actions|] == actions;
    }

    /** Plays the node's game out, tallies the result and backpropagates its
        reward; reports the result and whether it is complete. */
    method Rollout(n: nat, roll: nat -> nat) returns (result: Game, complete: bool)
      requires Valid() && n < |nodes|
      modifies this
      ensures Valid()
      ensures result == Simulation(old(nodes)[n].game, roll) && complete == IsComplete(result)
      ensures nodes == Backprop(old(nodes), n, RolloutReward(result))
      ensures history == old(history) + [Visit(n, RolloutReward(result))]
    {
      result := Simulate(nodes[n].game, roll);
      var stats := ComputeGameStats(result);
      complete := stats.complete;
      var score := 0;
      if stats.complete {
        score := 2;
      }
      if stats.numShapesNotPlaced < 2 {
        score := score + 1;
      }
      if stats.numCellsNotPlaced < 2 {
        score := score + 1;
      }
      BackpropKeeps(nodes, history, n, score);
      ApplyScore(n, score);
      history := history + [Visit(n, score)];
    }

    /** The visited-leaf branch of `solve`: expand leaf c, then roll out its
        first new child if it has one. */
    method ExpandLeaf(c: nat, roll: nat -> nat) returns (solution: Game, solved: bool)
      requires Valid() && c < |nodes| && nodes[c].children == []
      modifies this
      ensures Valid()
      ensures var o := ExpandAndRollOut(old(nodes), c, roll);
        && nodes == o.nodes && solution == o.solution
        && history == old(history) + (if o.rolledOut.Some? then [Visit(o.rolledOut.value, RolloutReward(solution))] else [])
        && (solved <==> o.rolledOut.Some? && IsComplete(solution))
    {
      ghost var start := nodes;
      ghost var game := nodes[c].game;
      assert WellFormed(game);
      solution := nodes[c].game;
      solved := false;
      AddNewNodes(c);
      ExpansionParent(start, c);
      assert nodes[c].children == Indices(|start|, |ValidActions(game)|);
      if |nodes[c].children| > 0 {
        assert nodes[c].children[0] == |start|;
        ghost var o := ExpandAndRollOut(start, c, roll);
        assert o == RollOutAt(nodes, |start|, roll);
        assert o.rolledOut == Some(|start|);
        solution, solved := Rollout(nodes[c].children[0], roll);
        assert solution == o.solution;
        assert history == old(history) + [Visit(o.rolledOut.value, RolloutReward(solution))];
        assert solved <==> o.rolledOut.Some? && IsComplete(solution);
      } else {
        assert ExpandAndRollOut(start, c, roll).rolledOut == None;
        assert history + [] == history;
      }
    }

    /** `solve`: one search step. `solved` says whether the rollout found a
        complete game (the source's `onSolution` call). */
    method Solve(roll: nat -> nat, ucb: (int, nat, nat) -> real) returns (solution: Game, solved: bool)
      requires Valid()
      modifies this
      ensures Valid()
      ensures var o := Step(old(nodes), roll, ucb);
        && nodes == o.nodes && solution == o.solution
        && history == old(history) + (if o.rolledOut.Some? then [Visit(o.rolledOut.value, RolloutReward(solution))] else [])
        && (solved <==> o.rolledOut.Some? && IsComplete(solution))
      ensures WellFormed(solution)
    {
      ghost var start := nodes;
      StepSolutionWellFormed(start, roll, ucb);
      var candidate := FindCandidate(0, ucb);
      CandidateIsLeafBelow(nodes, 0, ucb);
      if nodes[candidate].numSimulations == 0 {
        assert Step(start, roll, ucb) == RollOutAt(start, candidate, roll);
        solution, solved := Rollout(candidate, roll);
      } else {
        assert Step(start, roll, ucb) == ExpandAndRollOut(start, candidate, roll);
        solution, solved := ExpandLeaf(candidate, roll);
      }
    }
  }
}
