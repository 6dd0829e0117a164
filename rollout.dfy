/** The random playout of src/game/game.ts (`simulate`), the tally of a finished
    game (`gameStats`) and the reward the tree search draws from that tally
    (src/tree/tree.ts, `rollout`). Randomness is an oracle `roll`: draw number k
    picks action `roll(k) % n` out of n. */
module Rollout {
  import opened Board
  import opened Actions

  // ---------------------------------------------------------------------------
  // Game statistics

  datatype GameStats = GameStats(
    numShapesPlaced: nat,
    numShapesNotPlaced: nat,
    numCellsPlaced: nat,
    numCellsNotPlaced: nat,
    complete: bool)

  const EmptyStats := GameStats(0, 0, 0, 0, true)

  /** The tally after one more entry: a placed entry adds its shape's cells to
      the placed side, an unplaced one to the other side and clears `complete`. */
  function Count(stats: GameStats, entry: Entry): GameStats
  {
    if entry.positions.Some? then
      stats.(numShapesPlaced := stats.numShapesPlaced + 1,
             numCellsPlaced := stats.numCellsPlaced + |entry.shape.offsets|)
    else
      stats.(complete := false,
             numShapesNotPlaced := stats.numShapesNotPlaced + 1,
             numCellsNotPlaced := stats.numCellsNotPlaced + |entry.shape.offsets|)
  }

  /** The tally of `entries`, in order, starting from `stats`. */
  function StatsFrom(stats: GameStats, entries: seq<Entry>): GameStats
    decreases |entries|
  {
    if entries == [] then stats else StatsFrom(Count(stats, entries[0]), entries[1..])
  }

  /** The shapes of the entries, placed or not. */
  function Catalog(entries: seq<Entry>): (r: seq<Shape>)
    ensures |r| == |entries| && forall i :: 0 <= i < |entries| ==> r[i] == entries[i].shape
  {
    seq(|entries|, i requires 0 <= i < |entries| => entries[i].shape)
  }

  /** What every tally adds up to: each entry is counted on exactly one side,
      the unplaced side holds exactly the unplaced shapes and their cells, and
      `complete` survives only if every entry is placed. */
  lemma {:induction false} StatsFromSums(stats: GameStats, entries: seq<Entry>)
    ensures var r := StatsFrom(stats, entries);
      && r.numShapesPlaced + r.numShapesNotPlaced == stats.numShapesPlaced + stats.numShapesNotPlaced + |entries|
      && r.numCellsPlaced + r.numCellsNotPlaced == stats.numCellsPlaced + stats.numCellsNotPlaced + OffsetTotal(Catalog(entries))
      && r.numShapesNotPlaced == stats.numShapesNotPlaced + |UnplacedShapes(entries)|
      && r.numCellsNotPlaced == stats.numCellsNotPlaced + OffsetTotal(UnplacedShapes(entries))
      && (r.complete <==> stats.complete && forall i :: 0 <= i < |entries| ==> entries[i].positions.Some?)
    decreases |entries|
  {
    if entries != [] {
      var next := Count(stats, entries[0]);
      StatsFromSums(next, entries[1..]);
      assert Catalog(entries)[1..] == Catalog(entries[1..]);
      assert forall i :: 1 <= i < |entries| ==> entries[1..][i - 1] == entries[i];
    }
  }

  /** The tally of a game, with the source's `forEach` loop. */
  method ComputeGameStats(game: Game) returns (stats: GameStats)
    ensures stats == StatsFrom(EmptyStats, game.shapes)
  {
    stats := EmptyStats;
    var shapes := game.shapes;
    for i := 0 to |shapes|
      invariant StatsFrom(stats, shapes[i..]) == StatsFrom(EmptyStats, shapes)
    {
      assert shapes[i..][1..] == shapes[i + 1..];
      var entry := shapes[i];
      if entry.positions.Some? {
        stats := stats.(numShapesPlaced := stats.numShapesPlaced + 1);
        stats := stats.(numCellsPlaced := stats.numCellsPlaced + |entry.shape.offsets|);
      } else {
        stats := stats.(complete := false);
        stats := stats.(numShapesNotPlaced := stats.numShapesNotPlaced + 1);
        stats := stats.(numCellsNotPlaced := stats.numCellsNotPlaced + |entry.shape.offsets|);
      }
    }
    assert shapes[|shapes|..] == [];
  }

  /** The tally of a game: every entry on one side, the unplaced side made of
      the unplaced shapes, and complete exactly when nothing is left to place. */
  lemma GameStatsSums(game: Game)
    ensures var s := StatsFrom(EmptyStats, game.shapes);
      && s.numShapesPlaced + s.numShapesNotPlaced == |game.shapes|
      && s.numCellsPlaced + s.numCellsNotPlaced == OffsetTotal(Catalog(game.shapes))
      && s.numShapesNotPlaced == |UnplacedShapes(game.shapes)|
      && s.numCellsNotPlaced == OffsetTotal(UnplacedShapes(game.shapes))
      && (s.complete <==> s.numShapesNotPlaced == 0)
      && (s.complete <==> forall i :: 0 <= i < |game.shapes| ==> game.shapes[i].positions.Some?)
  {
    StatsFromSums(EmptyStats, game.shapes);
    var u := UnplacedShapes(game.shapes);
    if |u| > 0 {
      assert u[0] in u;
    }
    if exists i :: 0 <= i < |game.shapes| && game.shapes[i].positions.None? {
      var i :| 0 <= i < |game.shapes| && game.shapes[i].positions.None?;
      assert game.shapes[i].shape in u;
    }
  }

  // ---------------------------------------------------------------------------
  // Reward

  /** The rollout's score in half-points: 1 for a complete game, plus 0.5 when
      fewer than two shapes are left, plus 0.5 when fewer than two cells are. */
  function Reward(stats: GameStats): (halves: nat)
    ensures halves <= 4
  {
    (if stats.complete then 2 else 0)
    + (if stats.numShapesNotPlaced < 2 then 1 else 0)
    + (if stats.numCellsNotPlaced < 2 then 1 else 0)
  }

  /** The reward of a game is 0, 0.5, 1 or 2 points: the full two points exactly
      for a complete game, and never 1.5. */
  lemma RewardOfGame(game: Game)
    ensures var h := Reward(StatsFrom(EmptyStats, game.shapes));
      && h in {0, 1, 2, 4}
      && (h == 4 <==> StatsFrom(EmptyStats, game.shapes).complete)
  {
    GameStatsSums(game);
    var u := UnplacedShapes(game.shapes);
    if |u| == 0 {
      assert OffsetTotal(u) == 0;
    }
  }

  /** A game is complete when its tally says so: exactly when every entry is
      placed. */
  function IsComplete(game: Game): (r: bool)
    ensures r <==> forall i :: 0 <= i < |game.shapes| ==> game.shapes[i].positions.Some?
  {
    GameStatsSums(game);
    StatsFrom(EmptyStats, game.shapes).complete
  }

  /** The reward a rollout ending in `game` backpropagates, in half-points. */
  function RolloutReward(game: Game): (h: nat)
    ensures h in {0, 1, 2, 4} && (h == 4 <==> IsComplete(game))
  {
    RewardOfGame(game);
    Reward(StatsFrom(EmptyStats, game.shapes))
  }

  // ---------------------------------------------------------------------------
  // Random playout

  /** Every entry's shape is its shape in `before`: only cells change. */
  predicate SameShapes(before: Game, after: Game)
  {
    |after.shapes| == |before.shapes|
    && (forall i :: 0 <= i < |before.shapes| ==> after.shapes[i].shape == before.shapes[i].shape)
    && after.tokens == before.tokens && after.width == before.width && after.height == before.height
  }

  /** The shape belongs to some entry of the game. */
  predicate InCatalog(game: Game, shape: Shape)
  {
    exists i :: 0 <= i < |game.shapes| && game.shapes[i].shape == shape
  }

  /** The shapes left to play: each rotatable and each in the game. */
  predicate Playable(game: Game, shapes: seq<Shape>)
  {
    forall k :: 0 <= k < |shapes| ==> RotationsInRange(shapes[k]) && InCatalog(game, shapes[k])
  }

  lemma InCatalogKept(before: Game, after: Game, shape: Shape)
    requires SameShapes(before, after) && InCatalog(before, shape)
    ensures InCatalog(after, shape) && HasColour(after, shape.colour)
  {
    var i :| 0 <= i < |before.shapes| && before.shapes[i].shape == shape;
    assert after.shapes[i].shape == shape;
  }

  /** One shape's turn: when it has actions, draw number k picks one of them and
      places it; when it has none, the game is unchanged. */
  function PlayShape(game: Game, shape: Shape, k: nat, roll: nat -> nat): (r: Game)
    requires RotationsInRange(shape) && InCatalog(game, shape)
    ensures SameShapes(game, r)
  {
    var actions := ShapeActions(game, shape);
    if |actions| == 0 then game
    else
      var action := actions[roll(k) % |actions|];
      ShapeActionsSound(game, shape, action);
      InCatalogKept(game, game, shape);
      ApplyAction(action, game)
  }

  lemma SameShapesTransitive(a: Game, b: Game, c: Game)
    requires SameShapes(a, b) && SameShapes(b, c)
    ensures SameShapes(a, c)
  {
  }

  lemma PlayableKept(before: Game, after: Game, shapes: seq<Shape>)
    requires SameShapes(before, after) && Playable(before, shapes)
    ensures Playable(after, shapes)
  {
    forall k | 0 <= k < |shapes| ensures InCatalog(after, shapes[k]) {
      InCatalogKept(before, after, shapes[k]);
    }
  }

  /** The shapes played in order from draw number k on. */
  function PlayFrom(game: Game, shapes: seq<Shape>, k: nat, roll: nat -> nat): (r: Game)
    requires Playable(game, shapes)
    ensures SameShapes(game, r)
    decreases |shapes|
  {
    if shapes == [] then game
    else
      var next := PlayShape(game, shapes[0], k, roll);
      PlayableKept(game, next, shapes[1..]);
      var r := PlayFrom(next, shapes[1..], k + 1, roll);
      SameShapesTransitive(game, next, r);
      r
  }

  lemma UnplacedPlayable(game: Game)
    requires Rotatable(game)
    ensures Playable(game, UnplacedShapes(game.shapes))
  {
    var u := UnplacedShapes(game.shapes);
    forall k | 0 <= k < |u| ensures RotationsInRange(u[k]) && InCatalog(game, u[k]) {
      assert u[k] in u;
    }
  }

  /** The playout: every shape unplaced at the start gets one turn, in catalog
      order, draw number k going to the k-th of them. */
  function Simulation(game: Game, roll: nat -> nat): (r: Game)
    requires Rotatable(game)
    ensures SameShapes(game, r)
  {
    UnplacedPlayable(game);
    PlayFrom(game, UnplacedShapes(game.shapes), 0, roll)
  }

  /** One turn of the playout loop, as seen from the shapes still to play. */
  lemma PlayFromStep(game: Game, shapes: seq<Shape>, i: nat, roll: nat -> nat, next: Game)
    requires i < |shapes| && Playable(game, shapes[i..])
    requires next == PlayShape(game, shapes[i], i, roll)
    ensures Playable(next, shapes[i + 1..])
    ensures PlayFrom(next, shapes[i + 1..], i + 1, roll) == PlayFrom(game, shapes[i..], i, roll)
  {
    assert shapes[i..][0] == shapes[i] && shapes[i..][1..] == shapes[i + 1..];
    PlayableKept(game, next, shapes[i + 1..]);
  }

  method Simulate(game: Game, roll: nat -> nat) returns (result: Game)
    requires Rotatable(game)
    ensures result == Simulation(game, roll)
  {
    result := game;
    var unplaced := UnplacedShapes(game.shapes);
    UnplacedPlayable(game);
    for i := 0 to |unplaced|
      invariant Playable(result, unplaced[i..])
      invariant PlayFrom(result, unplaced[i..], i, roll) == Simulation(game, roll)
    {
      var shape := unplaced[i];
      assert RotationsInRange(shape) && InCatalog(result, shape);
      var actions := GetActionsForShape(result, shape);
      var next := result;
      if |actions| > 0 {
        var index := roll(i) % |actions|;
        ShapeActionsSound(result, shape, actions[index]);
        InCatalogKept(result, result, shape);
        next := ApplyAction(actions[index], result);
      }
      PlayFromStep(result, unplaced, i, roll, next);
      result := next;
    }
  }

  // ---------------------------------------------------------------------------
  // What a playout keeps

  /** An entry whose colour no played shape carries is left exactly as it was. */
  lemma {:induction false} PlayFromUntouched(game: Game, shapes: seq<Shape>, k: nat, roll: nat -> nat, i: int)
    requires Playable(game, shapes) && 0 <= i < |game.shapes|
    requires forall m :: 0 <= m < |shapes| ==> shapes[m].colour != game.shapes[i].shape.colour
    ensures PlayFrom(game, shapes, k, roll).shapes[i] == game.shapes[i]
    decreases |shapes|
  {
    if shapes != [] {
      var next := PlayShape(game, shapes[0], k, roll);
      var actions := ShapeActions(game, shapes[0]);
      if |actions| > 0 {
        var action := actions[roll(k) % |actions|];
        ShapeActionsSound(game, shapes[0], action);
        InCatalogKept(game, game, shapes[0]);
        var j := FindColour(game.shapes, action.shape.colour).value;
        assert j != i;
      }
      assert next.shapes[i] == game.shapes[i];
      PlayableKept(game, next, shapes[1..]);
      PlayFromUntouched(next, shapes[1..], k + 1, roll, i);
    }
  }

  /** With distinct colours, a playout never moves an entry that was already
      placed. */
  lemma SimulationKeepsPlaced(game: Game, roll: nat -> nat, i: int)
    requires Rotatable(game) && DistinctColours(game)
    requires 0 <= i < |game.shapes| && game.shapes[i].positions.Some?
    ensures Simulation(game, roll).shapes[i] == game.shapes[i]
  {
    var u := UnplacedShapes(game.shapes);
    UnplacedPlayable(game);
    forall m | 0 <= m < |u| ensures u[m].colour != game.shapes[i].shape.colour {
      assert u[m] in u;
      var j :| 0 <= j < |game.shapes| && game.shapes[j].positions.None? && game.shapes[j].shape == u[m];
      assert j != i;
    }
    PlayFromUntouched(game, u, 0, roll, i);
  }

  /** A placement by the playout keeps the game well formed. */
  lemma PlayShapeWellFormed(game: Game, shape: Shape, k: nat, roll: nat -> nat)
    requires WellFormed(game) && RotationsInRange(shape) && InCatalog(game, shape)
    ensures WellFormed(PlayShape(game, shape, k, roll))
  {
    var actions := ShapeActions(game, shape);
    if |actions| > 0 {
      var action := actions[roll(k) % |actions|];
      ShapeActionsSound(game, shape, action);
      var i :| 0 <= i < |game.shapes| && game.shapes[i].shape == shape;
      ApplyActionWellFormed(action, game, i);
    }
  }

  /** A shape's turn either leaves the game as it is, when the shape has no free
      placement, or places the shape's own entry on one of its free placements
      and touches no other entry. */
  lemma PlayShapePlaces(game: Game, shape: Shape, k: nat, roll: nat -> nat, i: int)
    requires DistinctColours(game) && RotationsInRange(shape)
    requires 0 <= i < |game.shapes| && game.shapes[i].shape == shape
    ensures InCatalog(game, shape)
    ensures ShapeActions(game, shape) == [] ==> PlayShape(game, shape, k, roll) == game
    ensures ShapeActions(game, shape) != [] ==>
      && (exists a :: a in ShapeActions(game, shape) && Placeable(game, shape, a)
            && PlayShape(game, shape, k, roll).shapes[i] == Entry(shape, Some(a.positions)))
      && forall m :: 0 <= m < |game.shapes| && m != i ==> PlayShape(game, shape, k, roll).shapes[m] == game.shapes[m]
  {
    var actions := ShapeActions(game, shape);
    if |actions| > 0 {
      var action := actions[roll(k) % |actions|];
      ShapeActionsSound(game, shape, action);
      FindColourOfEntry(game, i);
      assert PlayShape(game, shape, k, roll).shapes[i] == Entry(shape, Some(action.positions));
    }
  }

  lemma {:induction false} PlayFromWellFormed(game: Game, shapes: seq<Shape>, k: nat, roll: nat -> nat)
    requires WellFormed(game) && Playable(game, shapes)
    ensures WellFormed(PlayFrom(game, shapes, k, roll))
    decreases |shapes|
  {
    if shapes != [] {
      var next := PlayShape(game, shapes[0], k, roll);
      PlayShapeWellFormed(game, shapes[0], k, roll);
      PlayableKept(game, next, shapes[1..]);
      PlayFromWellFormed(next, shapes[1..], k + 1, roll);
    }
  }

  /** A playout keeps the game well formed: placed cells stay on the board,
      off the tokens and apart. */
  lemma SimulationWellFormed(game: Game, roll: nat -> nat)
    requires WellFormed(game)
    ensures WellFormed(Simulation(game, roll))
  {
    UnplacedPlayable(game);
    PlayFromWellFormed(game, UnplacedShapes(game.shapes), 0, roll);
  }
}
