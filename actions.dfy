/** The action generator and `applyAction` of src/game/game.ts: every placement
    of an unplaced shape, rotation by rotation and anchor by anchor, that covers
    only free cells; and placing one of them on the game. */
module Actions {
  import opened Board

  // ---------------------------------------------------------------------------
  // Applying an action

  /** The index of the first entry with the given colour (the source's `find`). */
  function FindColour(shapes: seq<Entry>, colour: string): (r: Option<nat>)
    ensures r.Some? ==> (r.value < |shapes| && shapes[r.value].shape.colour == colour
      && forall k :: 0 <= k < r.value ==> shapes[k].shape.colour != colour)
    ensures r.None? <==> forall k :: 0 <= k < |shapes| ==> shapes[k].shape.colour != colour
  {
    if shapes == [] then None
    else if shapes[0].shape.colour == colour then Some(0)
    else match FindColour(shapes[1..], colour)
      case None => None
      case Some(k) => Some(k + 1)
  }

  predicate HasColour(game: Game, colour: string)
  {
    exists i :: 0 <= i < |game.shapes| && game.shapes[i].shape.colour == colour
  }

  /** Sets the cells of the first entry whose colour is the action's. The source
      dereferences the result of `find`, so a colour that is absent is excluded;
      an entry that is already placed is overwritten. */
  function ApplyAction(action: Action, game: Game): (r: Game)
    requires HasColour(game, action.shape.colour)
    ensures var j := FindColour(game.shapes, action.shape.colour).value;
      && r.tokens == game.tokens && r.width == game.width && r.height == game.height
      && |r.shapes| == |game.shapes|
      && r.shapes[j] == Entry(game.shapes[j].shape, Some(action.positions))
      && forall k :: 0 <= k < |game.shapes| && k != j ==> r.shapes[k] == game.shapes[k]
  {
    var j := FindColour(game.shapes, action.shape.colour).value;
    game.(shapes := game.shapes[j := game.shapes[j].(positions := Some(action.positions))])
  }

  /** The action is a placement of `shape` on free cells, one per offset. */
  predicate Placeable(game: Game, shape: Shape, action: Action)
  {
    action.shape == shape && AreFree(action.positions, game) && |action.positions| == |shape.offsets|
  }

  /** With distinct colours, the entry found by colour is the one holding the shape. */
  lemma FindColourOfEntry(game: Game, i: int)
    requires DistinctColours(game) && 0 <= i < |game.shapes|
    ensures FindColour(game.shapes, game.shapes[i].shape.colour) == Some(i)
  {
    var r := FindColour(game.shapes, game.shapes[i].shape.colour);
    assert r.Some?;
  }

  /** Giving entry i free cells keeps a legal game legal. */
  lemma PlaceFreeCellsLegal(game: Game, i: int, ps: seq<Position>)
    requires Legal(game) && 0 <= i < |game.shapes| && AreFree(ps, game)
    ensures Legal(game.(shapes := game.shapes[i := game.shapes[i].(positions := Some(ps))]))
  {
    var r := game.(shapes := game.shapes[i := game.shapes[i].(positions := Some(ps))]);
    forall k, p | 0 <= k < |r.shapes| && r.shapes[k].positions.Some? && p in r.shapes[k].positions.value
      ensures InBounds(r, p) && p !in r.tokens
    {
      if k != i {
        assert p in game.shapes[k].positions.value;
        assert InBounds(game, p) && p !in game.tokens;
      } else {
        assert p in ps;
        assert InBounds(game, p) && p !in game.tokens;
      }
    }
    forall k, l, p | 0 <= k < |r.shapes| && 0 <= l < |r.shapes| && k != l
      && r.shapes[k].positions.Some? && r.shapes[l].positions.Some? && p in r.shapes[k].positions.value
      ensures p !in r.shapes[l].positions.value
    {
      if k == i {
        assert p in ps;
        assert !Covered(game, p);
      } else if l == i {
        assert Covered(game, p) by { assert p in game.shapes[k].positions.value; }
      } else {
        assert p in game.shapes[k].positions.value;
      }
    }
  }

  /** Placing a free action of the shape of entry i, in a well-formed game, sets
      exactly entry i and keeps the game well-formed. */
  lemma ApplyActionWellFormed(action: Action, game: Game, i: int)
    requires WellFormed(game)
    requires 0 <= i < |game.shapes| && game.shapes[i].shape == action.shape
    requires Placeable(game, action.shape, action)
    ensures HasColour(game, action.shape.colour)
    ensures ApplyAction(action, game).shapes[i] == Entry(action.shape, Some(action.positions))
    ensures forall k :: 0 <= k < |game.shapes| && k != i ==> ApplyAction(action, game).shapes[k] == game.shapes[k]
    ensures WellFormed(ApplyAction(action, game))
  {
    assert HasColour(game, action.shape.colour);
    FindColourOfEntry(game, i);
    var r := ApplyAction(action, game);
    assert r == game.(shapes := game.shapes[i := game.shapes[i].(positions := Some(action.positions))]);
    PlaceFreeCellsLegal(game, i, action.positions);
    assert forall k :: 0 <= k < |r.shapes| ==> r.shapes[k].shape == game.shapes[k].shape;
  }

  // ---------------------------------------------------------------------------
  // Anchors, in the order of the nested loops: column by column, row by row

  function Column(column: int, rows: int): seq<Position>
  {
    seq(if rows < 0 then 0 else rows, r => Position(column, r))
  }

  function Anchors(width: int, height: int): seq<Position>
    decreases width
  {
    if width <= 0 then [] else Anchors(width - 1, height) + Column(width - 1, height)
  }

  /** The anchors are exactly the board's cells. */
  lemma {:induction false} AnchorsOnBoard(width: int, height: int, p: Position)
    ensures p in Anchors(width, height) <==> 0 <= p.x < width && 0 <= p.y < height
    decreases width
  {
    if width > 0 {
      AnchorsOnBoard(width - 1, height, p);
      var column := Column(width - 1, height);
      if p.x == width - 1 && 0 <= p.y < height {
        assert column[p.y] == p;
      }
      assert p in column ==> p.x == width - 1 && 0 <= p.y < height;
    }
  }

  lemma {:induction false} AnchorsLength(width: int, height: int)
    requires 0 <= width && 0 <= height
    ensures |Anchors(width, height)| == width * height
    decreases width
  {
    if width > 0 {
      AnchorsLength(width - 1, height);
      assert width * height == (width - 1) * height + height;
    }
  }

  /** Cell (c, r) of an n-column board precedes every cell of column n. */
  lemma {:induction false} ColumnMajorBound(c: int, n: int, height: int, r: int)
    requires 0 <= c < n && 0 <= r < height
    ensures c * height + r < n * height
    decreases n
  {
    assert n * height == (n - 1) * height + height;
    if c < n - 1 {
      ColumnMajorBound(c, n - 1, height, r);
    }
  }

  /** The anchors list the board column by column: cell (c, r) sits at index
      c * height + r. */
  lemma {:induction false} AnchorsColumnMajor(width: int, height: int, c: int, r: int)
    requires 0 <= c < width && 0 <= r < height
    ensures |Anchors(width, height)| == width * height
    ensures Anchors(width, height)[c * height + r] == Position(c, r)
    decreases width
  {
    AnchorsLength(width, height);
    AnchorsLength(width - 1, height);
    var prefix := Anchors(width - 1, height);
    assert Anchors(width, height) == prefix + Column(width - 1, height);
    if c < width - 1 {
      AnchorsColumnMajor(width - 1, height, c, r);
      ColumnMajorBound(c, width - 1, height, r);
    } else {
      assert c * height + r == |prefix| + r;
    }
  }

  // ---------------------------------------------------------------------------
  // Enumeration, as specification functions

  function Placement(shape: Shape, anchor: Position, rotation: int): Action
    requires 0 <= rotation < 4
  {
    Action(shape, PositionsForShape(shape, anchor, rotation))
  }

  /** The placements of the shape at the given anchors, in their order, that
      cover only free cells. */
  function Placements(game: Game, shape: Shape, rotation: int, anchors: seq<Position>): (r: seq<Action>)
    requires 0 <= rotation < 4
    ensures |r| <= |anchors|
    decreases |anchors|
  {
    if anchors == [] then []
    else
      var rest := anchors[..|anchors| - 1];
      var action := Placement(shape, anchors[|anchors| - 1], rotation);
      assert anchors == rest + [anchors[|anchors| - 1]];
      Placements(game, shape, rotation, rest) + (if AreFree(action.positions, game) then [action] else [])
  }

  lemma PlacementsSnoc(game: Game, shape: Shape, rotation: int, anchors: seq<Position>, anchor: Position)
    requires 0 <= rotation < 4
    ensures Placements(game, shape, rotation, anchors + [anchor]) ==
      Placements(game, shape, rotation, anchors) +
      (if AreFree(Placement(shape, anchor, rotation).positions, game) then [Placement(shape, anchor, rotation)] else [])
  {
    assert (anchors + [anchor])[..|anchors|] == anchors;
  }

  /** The placements listed are exactly the free ones among the given anchors. */
  lemma {:induction false} PlacementsMembers(game: Game, shape: Shape, rotation: int, anchors: seq<Position>)
    requires 0 <= rotation < 4
    ensures forall a :: a in Placements(game, shape, rotation, anchors) <==>
      (exists anchor :: anchor in anchors && a == Placement(shape, anchor, rotation)) && AreFree(a.positions, game)
    decreases |anchors|
  {
    if anchors != [] {
      var rest := anchors[..|anchors| - 1];
      assert anchors == rest + [anchors[|anchors| - 1]];
      PlacementsMembers(game, shape, rotation, rest);
    }
  }

  function RotationActions(game: Game, shape: Shape, rotation: int): seq<Action>
    requires 0 <= rotation < 4
  {
    Placements(game, shape, rotation, Anchors(game.width, game.height))
  }

  /** A rotation contributes every free placement anchored on the board, and no
      more than one per board cell. */
  lemma RotationActionsExact(game: Game, shape: Shape, rotation: int)
    requires 0 <= rotation < 4 && 0 <= game.width && 0 <= game.height
    ensures |RotationActions(game, shape, rotation)| <= game.width * game.height
    ensures forall a :: a in RotationActions(game, shape, rotation) <==>
      (exists anchor :: InBounds(game, anchor) && a == Placement(shape, anchor, rotation)) && AreFree(a.positions, game)
  {
    AnchorsLength(game.width, game.height);
    PlacementsMembers(game, shape, rotation, Anchors(game.width, game.height));
    forall anchor ensures anchor in Anchors(game.width, game.height) <==> InBounds(game, anchor) {
      AnchorsOnBoard(game.width, game.height, anchor);
    }
  }

  /** The actions of the listed rotations, concatenated in list order. */
  function ActionsForRotations(game: Game, shape: Shape, rotations: seq<int>): seq<Action>
    requires forall k :: 0 <= k < |rotations| ==> 0 <= rotations[k] < 4
    decreases |rotations|
  {
    if rotations == [] then []
    else
      var rest := rotations[..|rotations| - 1];
      assert forall k :: 0 <= k < |rest| ==> rest[k] == rotations[k];
      ActionsForRotations(game, shape, rest) + RotationActions(game, shape, rotations[|rotations| - 1])
  }

  lemma {:induction false} ActionsForRotationsSound(game: Game, shape: Shape, rotations: seq<int>, a: Action)
    requires forall k :: 0 <= k < |rotations| ==> 0 <= rotations[k] < 4
    requires a in ActionsForRotations(game, shape, rotations)
    ensures exists k :: 0 <= k < |rotations| && a in RotationActions(game, shape, rotations[k])
    decreases |rotations|
  {
    assert rotations != [];
    var n := |rotations| - 1;
    var rest := rotations[..n];
    assert forall k :: 0 <= k < |rest| ==> rest[k] == rotations[k];
    assert ActionsForRotations(game, shape, rotations) ==
      ActionsForRotations(game, shape, rest) + RotationActions(game, shape, rotations[n]);
    if a in ActionsForRotations(game, shape, rest) {
      ActionsForRotationsSound(game, shape, rest, a);
      var k :| 0 <= k < |rest| && a in RotationActions(game, shape, rest[k]);
      assert a in RotationActions(game, shape, rotations[k]);
    } else {
      assert a in RotationActions(game, shape, rotations[n]);
    }
  }

  lemma {:induction false} ActionsForRotationsComplete(game: Game, shape: Shape, rotations: seq<int>, k: nat, a: Action)
    requires forall j :: 0 <= j < |rotations| ==> 0 <= rotations[j] < 4
    requires k < |rotations| && a in RotationActions(game, shape, rotations[k])
    ensures a in ActionsForRotations(game, shape, rotations)
    decreases |rotations|
  {
    var n := |rotations| - 1;
    var rest := rotations[..n];
    assert forall j :: 0 <= j < |rest| ==> rest[j] == rotations[j];
    assert ActionsForRotations(game, shape, rotations) ==
      ActionsForRotations(game, shape, rest) + RotationActions(game, shape, rotations[n]);
    if k < n {
      assert a in RotationActions(game, shape, rest[k]);
      ActionsForRotationsComplete(game, shape, rest, k, a);
    }
  }

  /** An action is among those for a list of rotations iff it is among those
      for one of the rotations. */
  lemma ActionsForRotationsMembers(game: Game, shape: Shape, rotations: seq<int>, a: Action)
    requires forall k :: 0 <= k < |rotations| ==> 0 <= rotations[k] < 4
    ensures a in ActionsForRotations(game, shape, rotations) <==>
      exists k :: 0 <= k < |rotations| && a in RotationActions(game, shape, rotations[k])
  {
    if a in ActionsForRotations(game, shape, rotations) {
      ActionsForRotationsSound(game, shape, rotations, a);
    }
    if exists k :: 0 <= k < |rotations| && a in RotationActions(game, shape, rotations[k]) {
      var k :| 0 <= k < |rotations| && a in RotationActions(game, shape, rotations[k]);
      ActionsForRotationsComplete(game, shape, rotations, k, a);
    }
  }

  function ShapeActions(game: Game, shape: Shape): seq<Action>
    requires RotationsInRange(shape)
  {
    ActionsForRotations(game, shape, shape.validRotations)
  }

  /** The shapes of the unplaced entries, in catalog order (the source's `filter`). */
  function UnplacedShapes(entries: seq<Entry>): (r: seq<Shape>)
    ensures |r| <= |entries|
    ensures forall s :: s in r <==> exists i :: 0 <= i < |entries| && entries[i].positions.None? && entries[i].shape == s
  {
    if entries == [] then []
    else
      var rest := UnplacedShapes(entries[1..]);
      assert forall i :: 1 <= i < |entries| ==> entries[1..][i - 1] == entries[i];
      if entries[0].positions.None? then [entries[0].shape] + rest else rest
  }

  /** The actions of the listed shapes, concatenated in list order. */
  function ActionsForShapes(game: Game, shapes: seq<Shape>): seq<Action>
    requires forall k :: 0 <= k < |shapes| ==> RotationsInRange(shapes[k])
    decreases |shapes|
  {
    if shapes == [] then []
    else
      var rest := shapes[..|shapes| - 1];
      assert forall k :: 0 <= k < |rest| ==> rest[k] == shapes[k];
      ActionsForShapes(game, rest) + ShapeActions(game, shapes[|shapes| - 1])
  }

  lemma {:induction false} ActionsForShapesSound(game: Game, shapes: seq<Shape>, a: Action)
    requires forall k :: 0 <= k < |shapes| ==> RotationsInRange(shapes[k])
    requires a in ActionsForShapes(game, shapes)
    ensures exists k :: 0 <= k < |shapes| && a in ShapeActions(game, shapes[k])
    decreases |shapes|
  {
    assert shapes != [];
    var n := |shapes| - 1;
    var rest := shapes[..n];
    assert forall k :: 0 <= k < |rest| ==> rest[k] == shapes[k];
    assert ActionsForShapes(game, shapes) == ActionsForShapes(game, rest) + ShapeActions(game, shapes[n]);
    if a in ActionsForShapes(game, rest) {
      ActionsForShapesSound(game, rest, a);
      var k :| 0 <= k < |rest| && a in ShapeActions(game, rest[k]);
      assert a in ShapeActions(game, shapes[k]);
    } else {
      assert a in ShapeActions(game, shapes[n]);
    }
  }

  lemma {:induction false} ActionsForShapesComplete(game: Game, shapes: seq<Shape>, k: nat, a: Action)
    requires forall j :: 0 <= j < |shapes| ==> RotationsInRange(shapes[j])
    requires k < |shapes| && a in ShapeActions(game, shapes[k])
    ensures a in ActionsForShapes(game, shapes)
    decreases |shapes|
  {
    var n := |shapes| - 1;
    var rest := shapes[..n];
    assert forall j :: 0 <= j < |rest| ==> rest[j] == shapes[j];
    assert ActionsForShapes(game, shapes) == ActionsForShapes(game, rest) + ShapeActions(game, shapes[n]);
    if k < n {
      assert a in ShapeActions(game, rest[k]);
      ActionsForShapesComplete(game, rest, k, a);
    }
  }

  /** An action is among those for a list of shapes iff it is among those for
      one of the shapes. */
  lemma ActionsForShapesMembers(game: Game, shapes: seq<Shape>, a: Action)
    requires forall k :: 0 <= k < |shapes| ==> RotationsInRange(shapes[k])
    ensures a in ActionsForShapes(game, shapes) <==>
      exists k :: 0 <= k < |shapes| && a in ShapeActions(game, shapes[k])
  {
    if a in ActionsForShapes(game, shapes) {
      ActionsForShapesSound(game, shapes, a);
    }
    if exists k :: 0 <= k < |shapes| && a in ShapeActions(game, shapes[k]) {
      var k :| 0 <= k < |shapes| && a in ShapeActions(game, shapes[k]);
      ActionsForShapesComplete(game, shapes, k, a);
    }
  }

  function ValidActions(game: Game): seq<Action>
    requires Rotatable(game)
  {
    var unplaced := UnplacedShapes(game.shapes);
    assert forall k :: 0 <= k < |unplaced| ==> RotationsInRange(unplaced[k]) by {
      forall k | 0 <= k < |unplaced| ensures RotationsInRange(unplaced[k]) {
        assert unplaced[k] in unplaced;
      }
    }
    ActionsForShapes(game, unplaced)
  }

  /** Every action of the shape is a free placement of it, anchored on the board
      and in one of its rotations. */
  lemma ShapeActionsSound(game: Game, shape: Shape, a: Action)
    requires RotationsInRange(shape)
    requires a in ShapeActions(game, shape)
    ensures exists k, anchor :: (0 <= k < |shape.validRotations| && anchor in Anchors(game.width, game.height)
      && a == Placement(shape, anchor, shape.validRotations[k]))
    ensures Placeable(game, shape, a)
  {
    ActionsForRotationsMembers(game, shape, shape.validRotations, a);
    var k :| 0 <= k < |shape.validRotations| && a in RotationActions(game, shape, shape.validRotations[k]);
    PlacementsMembers(game, shape, shape.validRotations[k], Anchors(game.width, game.height));
    var anchor :| anchor in Anchors(game.width, game.height) && a == Placement(shape, anchor, shape.validRotations[k]);
  }

  /** Every valid action covers only free cells, has one cell per offset of its
      shape, and belongs to a shape that is not yet placed. */
  lemma ValidActionsSound(game: Game, a: Action)
    requires Rotatable(game)
    requires a in ValidActions(game)
    ensures AreFree(a.positions, game) && |a.positions| == |a.shape.offsets|
    ensures exists i :: 0 <= i < |game.shapes| && game.shapes[i].positions.None? && game.shapes[i].shape == a.shape
  {
    var unplaced := UnplacedShapes(game.shapes);
    assert forall k :: 0 <= k < |unplaced| ==> RotationsInRange(unplaced[k]) by {
      forall k | 0 <= k < |unplaced| ensures RotationsInRange(unplaced[k]) {
        assert unplaced[k] in unplaced;
      }
    }
    ActionsForShapesMembers(game, unplaced, a);
    var k :| 0 <= k < |unplaced| && a in ShapeActions(game, unplaced[k]);
    ShapeActionsSound(game, unplaced[k], a);
    assert unplaced[k] in unplaced;
  }

  /** Conversely, every free placement of an unplaced shape, in one of its
      rotations and anchored on the board, is a valid action. */
  lemma ValidActionsComplete(game: Game, i: int, k: int, anchor: Position)
    requires Rotatable(game)
    requires 0 <= i < |game.shapes| && game.shapes[i].positions.None?
    requires 0 <= k < |game.shapes[i].shape.validRotations| && InBounds(game, anchor)
    requires AreFree(Placement(game.shapes[i].shape, anchor, game.shapes[i].shape.validRotations[k]).positions, game)
    ensures Placement(game.shapes[i].shape, anchor, game.shapes[i].shape.validRotations[k]) in ValidActions(game)
  {
    var shape := game.shapes[i].shape;
    var rotation := shape.validRotations[k];
    var a := Placement(shape, anchor, rotation);
    AnchorsOnBoard(game.width, game.height, anchor);
    PlacementsMembers(game, shape, rotation, Anchors(game.width, game.height));
    assert a in RotationActions(game, shape, rotation);
    ActionsForRotationsMembers(game, shape, shape.validRotations, a);
    var unplaced := UnplacedShapes(game.shapes);
    assert forall j :: 0 <= j < |unplaced| ==> RotationsInRange(unplaced[j]) by {
      forall j | 0 <= j < |unplaced| ensures RotationsInRange(unplaced[j]) {
        assert unplaced[j] in unplaced;
      }
    }
    assert shape in unplaced;
    var j :| 0 <= j < |unplaced| && unplaced[j] == shape;
    ActionsForShapesMembers(game, unplaced, a);
  }

  // ---------------------------------------------------------------------------
  // The generator's loops

  /** One more row of the current column adds that anchor's placement, if free. */
  lemma PlacementsNextRow(game: Game, shape: Shape, rotation: int, done: seq<Position>, column: int, row: int,
                          actions: seq<Action>, free: bool)
    requires 0 <= rotation < 4 && 0 <= row
    requires actions == Placements(game, shape, rotation, done + Column(column, row))
    requires free == AreFree(Placement(shape, Position(column, row), rotation).positions, game)
    ensures Placements(game, shape, rotation, done + Column(column, row + 1)) ==
      actions + (if free then [Placement(shape, Position(column, row), rotation)] else [])
  {
    assert Column(column, row + 1) == Column(column, row) + [Position(column, row)];
    assert done + Column(column, row + 1) == (done + Column(column, row)) + [Position(column, row)];
    PlacementsSnoc(game, shape, rotation, done + Column(column, row), Position(column, row));
  }

  /** A finished column completes the anchors of the next column count. */
  lemma AnchorsNextColumn(column: int, height: int, row: int)
    requires 0 <= column && 0 <= row && (row == height || (height <= 0 && row == 0))
    ensures Anchors(column, height) + Column(column, row) == Anchors(column + 1, height)
  {
    assert Column(column, row) == Column(column, height);
  }

  /** The inner loop of the scan: appends the free placements anchored in one
      column, top to bottom. */
  method ScanColumn(game: Game, shape: Shape, rotation: int, column: int, before: seq<Action>)
    returns (actions: seq<Action>)
    requires 0 <= rotation < 4 && 0 <= column
    requires before == Placements(game, shape, rotation, Anchors(column, game.height))
    ensures actions == Placements(game, shape, rotation, Anchors(column + 1, game.height))
  {
    actions := before;
    var row := 0;
    ghost var done := Anchors(column, game.height);
    assert done + Column(column, 0) == done;
    while row < game.height
      invariant 0 <= row && (row <= game.height || row == 0)
      invariant actions == Placements(game, shape, rotation, done + Column(column, row))
    {
      var positions := PositionsForShape(shape, Position(column, row), rotation);
      var free := AreFree(positions, game);
      PlacementsNextRow(game, shape, rotation, done, column, row, actions, free);
      if free {
        actions := actions + [Action(shape, positions)];
      }
      row := row + 1;
    }
    AnchorsNextColumn(column, game.height, row);
  }

  /** Scans the board column by column, each column top to bottom. */
  method GetActionsForShapeAndRotation(game: Game, shape: Shape, rotation: int) returns (actions: seq<Action>)
    requires 0 <= rotation < 4
    ensures actions == RotationActions(game, shape, rotation)
  {
    actions := [];
    var column := 0;
    while column < game.width
      invariant 0 <= column && (column <= game.width || column == 0)
      invariant actions == Placements(game, shape, rotation, Anchors(column, game.height))
    {
      actions := ScanColumn(game, shape, rotation, column, actions);
      column := column + 1;
    }
  }

  method GetActionsForShape(game: Game, shape: Shape) returns (actions: seq<Action>)
    requires RotationsInRange(shape)
    ensures actions == ShapeActions(game, shape)
  {
    actions := [];
    var rotations := shape.validRotations;
    for i := 0 to |rotations|
      invariant actions == ActionsForRotations(game, shape, rotations[..i])
    {
      assert rotations[..i + 1][..i] == rotations[..i];
      var more := GetActionsForShapeAndRotation(game, shape, rotations[i]);
      actions := actions + more;
    }
    assert rotations[..|rotations|] == rotations;
  }

  method GetValidActions(game: Game) returns (actions: seq<Action>)
    requires Rotatable(game)
    ensures actions == ValidActions(game)
  {
    var unplaced := UnplacedShapes(game.shapes);
    assert forall k :: 0 <= k < |unplaced| ==> RotationsInRange(unplaced[k]) by {
      forall k | 0 <= k < |unplaced| ensures RotationsInRange(unplaced[k]) {
        assert unplaced[k] in unplaced;
      }
    }
    actions := [];
    for i := 0 to |unplaced|
      invariant actions == ActionsForShapes(game, unplaced[..i])
    {
      assert unplaced[..i + 1][..i] == unplaced[..i];
      var more := GetActionsForShape(game, unplaced[i]);
      actions := actions + more;
    }
    assert unplaced[..|unplaced|] == unplaced;
  }
}
