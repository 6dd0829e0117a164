/** The `Solver` object of src/solver/solver.ts: the same search step as the
    tree, driven by a timer, which it cancels once a step's output is a
    complete game. The timer handle is kept as a number; the timer itself is
    not part of this model. */
module Solving {
  import opened Board
  import opened Rollout
  import opened Arena
  import opened Tree

  class Solver {
    var game: Game
    /** The search tree rooted at the game. */
    var tree: SearchTree
    /** The handle of the running timer, 0 when none runs. */
    var intervalId: nat

    ghost predicate Valid()
      reads this, tree
    {
      tree.Valid()
    }

    /** A root over the game with no statistics, children, parent or action;
        no timer runs yet. */
    constructor (game: Game)
      ensures this.game == game && fresh(tree) && intervalId == 0
      ensures tree.nodes == [RootOf(game)] && tree.history == []
      ensures WellFormed(game) ==> Valid()
    {
      this.game := game;
      tree := new SearchTree(game);
      intervalId := 0;
    }

    /** Cancels the timer: the handle goes back to 0, nothing else changes. */
    method Stop()
      modifies this
      ensures intervalId == 0 && game == old(game) && tree == old(tree)
    {
      intervalId := 0;
    }

    /** Starts the timer ticking; `handle` stands for the identifier the timer
        service hands back. The promise resolved on completion is not modelled. */
    method Solve(handle: nat)
      modifies this
      ensures intervalId == handle && game == old(game) && tree == old(tree)
    {
      intervalId := handle;
    }

    /** One timer tick: one search step, whose output is reported; a complete
        output stops the timer, any other leaves it running. */
    method RunSimulation(roll: nat -> nat, ucb: (int, nat, nat) -> real) returns (solution: Game, complete: bool)
      requires Valid()
      modifies this, tree
      ensures Valid() && tree == old(tree) && game == old(game)
      ensures var o := Step(old(tree.nodes), roll, ucb);
        && tree.nodes == o.nodes && solution == o.solution
        && tree.history == old(tree.history) + (if o.rolledOut.Some? then [Visit(o.rolledOut.value, RolloutReward(solution))] else [])
      ensures complete == IsComplete(solution) && WellFormed(solution)
      ensures intervalId == if complete then 0 else old(intervalId)
    {
      var solved;
      solution, solved := tree.Solve(roll, ucb);
      var stats := ComputeGameStats(solution);
      complete := stats.complete;
      if complete {
        Stop();
      }
    }
  }
}
