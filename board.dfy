/** The board model of the puzzle (src/game/game.ts): positions, shapes, the game
    record, quarter-turn rotation, the freedom of cells, the shape catalog and the
    token roll-sets. Everything here is a value; the game is never shared. */
module Board {

  datatype Option<T> = None | Some(value: T)

  /** A board cell, or an offset of a shape relative to its anchor. */
  datatype Position = Position(x: int, y: int)

  /** A coloured polyomino: its offsets in rotation 0 and the quarter turns that
      are distinct for it. The colour is the shape's identity. */
  datatype Shape = Shape(colour: string, offsets: seq<Position>, validRotations: seq<int>)

  /** One catalog shape of a game and, once placed, the cells it covers
      (`None` is the source's missing `positions`; any list, even an empty one,
      counts as placed, as a JavaScript array is always truthy). */
  datatype Entry = Entry(shape: Shape, positions: Option<seq<Position>>)

  datatype Game = Game(tokens: seq<Position>, shapes: seq<Entry>, width: int, height: int)

  /** A candidate placement: the shape and the absolute cells it would cover. */
  datatype Action = Action(shape: Shape, positions: seq<Position>)

  function Equal(a: Position, b: Position): (r: bool)
    ensures r <==> a == b
  {
    a.x == b.x && a.y == b.y
  }

  // ---------------------------------------------------------------------------
  // Rotation by quarter turns, with exact integer cosines and sines

  datatype Angle = Angle(rotation: int, cosTheta: int, sinTheta: int)

  const Angles: seq<Angle> := [Angle(0, 1, 0), Angle(1, 0, 1), Angle(2, -1, 0), Angle(3, 0, -1)]

  /** The first table entry whose rotation number is r (the source's `find`). */
  function FindAngle(table: seq<Angle>, r: int): (a: Option<Angle>)
    ensures a.Some? ==> a.value in table && a.value.rotation == r
    ensures a.None? <==> forall k :: 0 <= k < |table| ==> table[k].rotation != r
  {
    if table == [] then None
    else if table[0].rotation == r then Some(table[0])
    else FindAngle(table[1..], r)
  }

  /** Rotation numbers outside 0..3 are not in the table; the source then reads a
      field of `undefined`, so they are excluded here. */
  function Rotate(position: Position, numRotations: int): Position
    requires 0 <= numRotations < 4
  {
    var a := FindAngle(Angles, numRotations).value;
    Position(position.x * a.cosTheta - position.y * a.sinTheta,
             position.y * a.cosTheta + position.x * a.sinTheta)
  }

  lemma AngleTableExact(r: int)
    requires 0 <= r < 4
    ensures FindAngle(Angles, r) == Some(Angles[r])
    ensures Angles[r].cosTheta in {-1, 0, 1} && Angles[r].sinTheta in {-1, 0, 1}
    ensures Angles[r].cosTheta * Angles[r].cosTheta + Angles[r].sinTheta * Angles[r].sinTheta == 1
  {
  }

  /** Each table entry is the quarter turn it names: 0 is the identity, 1 maps
      (x, y) to (-y, x), 2 negates both, 3 maps (x, y) to (y, -x). */
  lemma RotateQuarterTurns(p: Position)
    ensures Rotate(p, 0) == p
    ensures Rotate(p, 1) == Position(-p.y, p.x)
    ensures Rotate(p, 2) == Position(-p.x, -p.y)
    ensures Rotate(p, 3) == Position(p.y, -p.x)
  {
    AngleTableExact(0);
    AngleTableExact(1);
    AngleTableExact(2);
    AngleTableExact(3);
  }

  /** The quarter turns written out, as a reference for the table-driven Rotate. */
  function QuarterTurn(p: Position, r: int): Position
  {
    if r == 0 then p else if r == 1 then Position(-p.y, p.x)
    else if r == 2 then Position(-p.x, -p.y) else Position(p.y, -p.x)
  }

  lemma RotateIsQuarterTurn(p: Position, r: int)
    requires 0 <= r < 4
    ensures Rotate(p, r) == QuarterTurn(p, r)
  {
    RotateQuarterTurns(p);
  }

  /** Turning by a and then by b is turning by (a + b) mod 4. */
  lemma RotateCompose(p: Position, a: int, b: int)
    requires 0 <= a < 4 && 0 <= b < 4
    ensures Rotate(Rotate(p, a), b) == Rotate(p, (a + b) % 4)
  {
    RotateIsQuarterTurn(p, a);
    RotateIsQuarterTurn(Rotate(p, a), b);
    RotateIsQuarterTurn(p, (a + b) % 4);
    QuarterTurnCompose(p, a, b);
  }

  /** Quarter turns compose by adding their numbers mod 4. */
  lemma QuarterTurnCompose(p: Position, a: int, b: int)
    requires 0 <= a < 4 && 0 <= b < 4
    ensures QuarterTurn(QuarterTurn(p, a), b) == QuarterTurn(p, (a + b) % 4)
  {
  }

  /** Rotation r is undone by rotation (4 - r) mod 4. */
  lemma RotateRoundTrip(p: Position, r: int)
    requires 0 <= r < 4
    ensures Rotate(Rotate(p, r), (4 - r) % 4) == p
  {
    var back := (4 - r) % 4;
    assert back == if r == 0 then 0 else 4 - r;
    RotateIsQuarterTurn(p, r);
    RotateIsQuarterTurn(Rotate(p, r), back);
  }

  function Translate(position: Position, delta: Position): Position
  {
    Position(position.x + delta.x, position.y + delta.y)
  }

  lemma TranslateRoundTrip(p: Position, delta: Position)
    ensures Translate(Translate(p, delta), Position(-delta.x, -delta.y)) == p
  {
  }

  /** The cells the shape covers when its rotated offsets are moved to the anchor. */
  function PositionsForShape(shape: Shape, anchor: Position, rotation: int): seq<Position>
    requires 0 <= rotation < 4
  {
    seq(|shape.offsets|, i requires 0 <= i < |shape.offsets| =>
      Translate(Rotate(shape.offsets[i], rotation), anchor))
  }

  /** One cell per offset, in the offsets' order, and each cell gives back its
      offset when moved back and turned back. */
  lemma PositionsForShapeInverse(shape: Shape, anchor: Position, rotation: int)
    requires 0 <= rotation < 4
    ensures |PositionsForShape(shape, anchor, rotation)| == |shape.offsets|
    ensures forall i :: 0 <= i < |shape.offsets| ==>
      Rotate(Translate(PositionsForShape(shape, anchor, rotation)[i], Position(-anchor.x, -anchor.y)),
             (4 - rotation) % 4) == shape.offsets[i]
  {
    var ps := PositionsForShape(shape, anchor, rotation);
    forall i | 0 <= i < |shape.offsets|
      ensures Rotate(Translate(ps[i], Position(-anchor.x, -anchor.y)), (4 - rotation) % 4) == shape.offsets[i]
    {
      TranslateRoundTrip(Rotate(shape.offsets[i], rotation), anchor);
      RotateRoundTrip(shape.offsets[i], rotation);
    }
  }

  /** Distinct offsets give distinct cells. */
  lemma PositionsForShapeInjective(shape: Shape, anchor: Position, rotation: int, i: int, j: int)
    requires 0 <= rotation < 4
    requires 0 <= i < |shape.offsets| && 0 <= j < |shape.offsets|
    requires shape.offsets[i] != shape.offsets[j]
    ensures PositionsForShape(shape, anchor, rotation)[i] != PositionsForShape(shape, anchor, rotation)[j]
  {
    PositionsForShapeInverse(shape, anchor, rotation);
  }

  // ---------------------------------------------------------------------------
  // Occupancy and freedom of cells

  /** A linear scan for p, as `some`/`find` with `equal` do it. */
  function AnyEqual(ps: seq<Position>, p: Position): (r: bool)
    ensures r <==> p in ps
  {
    if ps == [] then false else Equal(ps[0], p) || AnyEqual(ps[1..], p)
  }

  function ContainsToken(position: Position, game: Game): (r: bool)
    ensures r <==> position in game.tokens
  {
    AnyEqual(game.tokens, position)
  }

  predicate InBounds(game: Game, p: Position)
  {
    0 <= p.x < game.width && 0 <= p.y < game.height
  }

  /** Some placed entry of the game covers p. */
  predicate Covered(game: Game, p: Position)
  {
    exists i :: 0 <= i < |game.shapes| && game.shapes[i].positions.Some? && p in game.shapes[i].positions.value
  }

  function AnyCovers(shapes: seq<Entry>, p: Position): (r: bool)
    ensures r <==> exists i :: 0 <= i < |shapes| && shapes[i].positions.Some? && p in shapes[i].positions.value
  {
    if shapes == [] then false
    else
      (shapes[0].positions.Some? && AnyEqual(shapes[0].positions.value, p))
      || AnyCovers(shapes[1..], p)
  }

  function IsFree(position: Position, game: Game): (r: bool)
    ensures r <==> InBounds(game, position) && position !in game.tokens && !Covered(game, position)
  {
    if position.x < 0 then false
    else if position.x >= game.width then false
    else if position.y < 0 then false
    else if position.y >= game.height then false
    else if ContainsToken(position, game) then false
    else !AnyCovers(game.shapes, position)
  }

  function AllFree(positions: seq<Position>, game: Game): (r: bool)
    ensures r <==> forall i :: 0 <= i < |positions| ==> IsFree(positions[i], game)
  {
    if positions == [] then true else IsFree(positions[0], game) && AllFree(positions[1..], game)
  }

  /** An empty list is never free; otherwise every cell must be free. */
  function AreFree(positions: seq<Position>, game: Game): (r: bool)
    ensures r <==> (|positions| > 0 &&
      forall p :: p in positions ==> InBounds(game, p) && p !in game.tokens && !Covered(game, p))
  {
    |positions| > 0 && AllFree(positions, game)
  }

  /** The colour of the first placed entry covering the cell, or "" for none. */
  method ColourForPosition(position: Position, game: Game) returns (colour: string)
    ensures !Covered(game, position) ==> colour == ""
    ensures Covered(game, position) ==>
      exists i :: 0 <= i < |game.shapes| && game.shapes[i].positions.Some?
        && position in game.shapes[i].positions.value
        && colour == game.shapes[i].shape.colour
        && forall k :: 0 <= k < i ==> !(game.shapes[k].positions.Some? && position in game.shapes[k].positions.value)
  {
    var i := 0;
    while i < |game.shapes|
      invariant 0 <= i <= |game.shapes|
      invariant forall k :: 0 <= k < i ==> !(game.shapes[k].positions.Some? && position in game.shapes[k].positions.value)
    {
      var entry := game.shapes[i];
      if entry.positions.Some? && AnyEqual(entry.positions.value, position) {
        return entry.shape.colour;
      }
      i := i + 1;
    }
    return "";
  }

  // ---------------------------------------------------------------------------
  // Well-formed games

  predicate RotationsInRange(shape: Shape)
  {
    forall k :: 0 <= k < |shape.validRotations| ==> 0 <= shape.validRotations[k] < 4
  }

  predicate Rotatable(game: Game)
  {
    forall i :: 0 <= i < |game.shapes| ==> RotationsInRange(game.shapes[i].shape)
  }

  /** The colour is a key: no two entries share one. */
  predicate DistinctColours(game: Game)
  {
    forall i, j :: 0 <= i < j < |game.shapes| ==> game.shapes[i].shape.colour != game.shapes[j].shape.colour
  }

  /** Every placed cell is on the board and not on a token, and no two placed
      entries share a cell. */
  predicate Legal(game: Game)
  {
    (forall i, p :: 0 <= i < |game.shapes| && game.shapes[i].positions.Some? && p in game.shapes[i].positions.value
       ==> InBounds(game, p) && p !in game.tokens)
    && (forall i, j, p ::
          (0 <= i < |game.shapes| && 0 <= j < |game.shapes| && i != j
           && game.shapes[i].positions.Some? && game.shapes[j].positions.Some?
           && p in game.shapes[i].positions.value) ==> p !in game.shapes[j].positions.value)
  }

  /** Every placed entry covers one cell per offset. */
  predicate SizedPlacements(game: Game)
  {
    forall i :: 0 <= i < |game.shapes| && game.shapes[i].positions.Some? ==>
      |game.shapes[i].positions.value| == |game.shapes[i].shape.offsets|
  }

  predicate WellFormed(game: Game)
  {
    Legal(game) && DistinctColours(game) && Rotatable(game) && SizedPlacements(game)
  }

  // ---------------------------------------------------------------------------
  // The shape catalog and the token roll-sets

  /** Offsets placed in total over a list of shapes. */
  function OffsetTotal(shapes: seq<Shape>): nat
  {
    if shapes == [] then 0 else |shapes[0].offsets| + OffsetTotal(shapes[1..])
  }

  function GenerateShapes(): seq<Shape>
  {
    [
      Shape("grey", [Position(0, 0), Position(1, 0), Position(2, 0), Position(3, 0)], [0, 1]),
      Shape("yellow", [Position(0, 0), Position(1, 0), Position(2, 0), Position(1, 1)], [0, 1, 2, 3]),
      Shape("green", [Position(0, 0), Position(1, 0), Position(1, 1), Position(0, 1)], [0]),
      Shape("red", [Position(0, 0), Position(1, 0), Position(1, 1), Position(2, 1)], [0, 1]),
      Shape("lightblue", [Position(0, 0), Position(1, 0), Position(2, 0), Position(2, 1)], [0, 1, 2, 3]),
      Shape("orange", [Position(0, 0), Position(1, 0), Position(2, 0)], [0, 1]),
      Shape("purple", [Position(0, 0), Position(1, 0), Position(1, 1)], [0, 1, 2, 3]),
      Shape("brown", [Position(0, 0), Position(1, 0)], [0, 1]),
      Shape("blue", [Position(0, 0)], [0])
    ]
  }

  /** The catalog holds nine shapes with distinct colours. */
  lemma GenerateShapesColours()
    ensures |GenerateShapes()| == 9
    ensures forall i, j :: 0 <= i < j < |GenerateShapes()| ==> GenerateShapes()[i].colour != GenerateShapes()[j].colour
  {
  }

  /** Every catalog shape has cells and only rotation numbers 0..3. */
  lemma GenerateShapesRotatable()
    ensures forall i :: 0 <= i < |GenerateShapes()| ==> RotationsInRange(GenerateShapes()[i]) && |GenerateShapes()[i].offsets| > 0
  {
  }

  /** The catalog's 29 cells are exactly the cells the seven tokens leave free. */
  lemma GenerateShapesCells()
    ensures OffsetTotal(GenerateShapes()) == 29 == 6 * 6 - |RollSets|
  {
  }

  /** The seven dice; one face of each is rolled to place a token. The first die
      carries A5 and F2 on two faces each. */
  const RollSets: seq<seq<string>> := [
    ["A5", "F2", "E1", "B6", "A5", "F2"],
    ["A6", "F1"],
    ["C3", "E3", "D3", "D4", "B4", "C4"],
    ["A1", "F3", "D1", "E2", "D2", "C1"],
    ["E4", "F5", "E6", "F4", "D5", "E5"],
    ["A4", "F6", "C5", "D6", "C6", "B5"],
    ["A2", "C2", "B1", "B3", "B2", "A3"]
  ]

  /** A board label: a row letter A..F and a column digit 1..6. */
  predicate IsLabel(v: string)
  {
    |v| == 2 && 'A' <= v[0] <= 'F' && '1' <= v[1] <= '6'
  }

  /** The letter gives y, the digit gives x (1-based). The source asserts the
      length; a non-digit would make `parseInt` yield NaN, which is excluded. */
  function RollToPosition(value: string): Position
    requires |value| == 2 && '0' <= value[1] <= '9'
  {
    Position((value[1] as int - '0' as int) - 1, value[0] as int - 'A' as int)
  }

  /** The label of a cell with column 0..8 and row 0..25 (letters A..Z). */
  function LabelOf(p: Position): string
    requires 0 <= p.x <= 8 && 0 <= p.y < 26
  {
    [(p.y + 'A' as int) as char, (p.x + 1 + '0' as int) as char]
  }

  lemma RollToPositionRoundTrip(v: string, p: Position)
    requires |v| == 2 && '1' <= v[1] <= '9' && 'A' <= v[0] <= 'Z'
    requires 0 <= p.x <= 8 && 0 <= p.y < 26
    ensures LabelOf(RollToPosition(v)) == v
    ensures RollToPosition(LabelOf(p)) == p
  {
  }

  /** A label maps to a cell of the 6 x 6 board, and distinct labels to distinct cells. */
  lemma RollToPositionOnBoard(v: string, w: string)
    requires IsLabel(v) && IsLabel(w)
    ensures 0 <= RollToPosition(v).x < 6 && 0 <= RollToPosition(v).y < 6
    ensures RollToPosition(v) == RollToPosition(w) ==> v == w
  {
    assert RollToPosition(v) == RollToPosition(w) ==> v[0] == w[0] && v[1] == w[1];
  }

  lemma RollSetsAreLabels()
    ensures |RollSets| == 7
    ensures forall i, a :: 0 <= i < |RollSets| && 0 <= a < |RollSets[i]| ==> IsLabel(RollSets[i][a])
  {
  }

  /** No label is on two dice. */
  lemma RollSetsDisjoint()
    ensures forall i, j, a, b ::
      (0 <= i < |RollSets| && 0 <= j < |RollSets| && 0 <= a < |RollSets[i]|
       && 0 <= b < |RollSets[j]| && RollSets[i][a] == RollSets[j][b]) ==> i == j
  {
  }

  predicate OnSomeDie(v: string)
  {
    exists i, a :: 0 <= i < |RollSets| && 0 <= a < |RollSets[i]| && RollSets[i][a] == v
  }

  /** Every label of the board is on some die; with RollSetsDisjoint the dice
      partition the 36 cells. */
  lemma RollSetsCover(v: string)
    requires IsLabel(v)
    ensures OnSomeDie(v)
  {
    assert v == [v[0], v[1]];
    if v == "A1" {
      assert RollSets[3][0] == v;
    } else if v == "A2" {
      assert RollSets[6][0] == v;
    } else if v == "A3" {
      assert RollSets[6][5] == v;
    } else if v == "A4" {
      assert RollSets[5][0] == v;
    } else if v == "A5" {
      assert RollSets[0][0] == v;
    } else if v == "A6" {
      assert RollSets[1][0] == v;
    } else if v == "B1" {
      assert RollSets[6][2] == v;
    } else if v == "B2" {
      assert RollSets[6][4] == v;
    } else if v == "B3" {
      assert RollSets[6][3] == v;
    } else if v == "B4" {
      assert RollSets[2][4] == v;
    } else if v == "B5" {
      assert RollSets[5][5] == v;
    } else if v == "B6" {
      assert RollSets[0][3] == v;
    } else if v == "C1" {
      assert RollSets[3][5] == v;
    } else if v == "C2" {
      assert RollSets[6][1] == v;
    } else if v == "C3" {
      assert RollSets[2][0] == v;
    } else if v == "C4" {
      assert RollSets[2][5] == v;
    } else if v == "C5" {
      assert RollSets[5][2] == v;
    } else if v == "C6" {
      assert RollSets[5][4] == v;
    } else if v == "D1" {
      assert RollSets[3][2] == v;
    } else if v == "D2" {
      assert RollSets[3][4] == v;
    } else if v == "D3" {
      assert RollSets[2][2] == v;
    } else if v == "D4" {
      assert RollSets[2][3] == v;
    } else if v == "D5" {
      assert RollSets[4][4] == v;
    } else if v == "D6" {
      assert RollSets[5][3] == v;
    } else if v == "E1" {
      assert RollSets[0][2] == v;
    } else if v == "E2" {
      assert RollSets[3][3] == v;
    } else if v == "E3" {
      assert RollSets[2][1] == v;
    } else if v == "E4" {
      assert RollSets[4][0] == v;
    } else if v == "E5" {
      assert RollSets[4][5] == v;
    } else if v == "E6" {
      assert RollSets[4][2] == v;
    } else if v == "F1" {
      assert RollSets[1][1] == v;
    } else if v == "F2" {
      assert RollSets[0][1] == v;
    } else if v == "F3" {
      assert RollSets[3][1] == v;
    } else if v == "F4" {
      assert RollSets[4][3] == v;
    } else if v == "F5" {
      assert RollSets[4][1] == v;
    } else if v == "F6" {
      assert RollSets[5][1] == v;
    }
  }

  /** One token per die; `roll(i)` stands for the random face of die i. */
  function GenerateTokens(roll: nat -> nat): seq<Position>
  {
    RollSetsAreLabels();
    seq(|RollSets|, i requires 0 <= i < |RollSets| => RollToPosition(RollSets[i][roll(i) % |RollSets[i]|]))
  }

  /** Whatever the dice show, the seven tokens are distinct cells of the board. */
  lemma GenerateTokensDistinct(roll: nat -> nat)
    ensures |GenerateTokens(roll)| == 7
    ensures forall i :: 0 <= i < 7 ==> 0 <= GenerateTokens(roll)[i].x < 6 && 0 <= GenerateTokens(roll)[i].y < 6
    ensures forall i, j :: 0 <= i < j < 7 ==> GenerateTokens(roll)[i] != GenerateTokens(roll)[j]
  {
    var tokens := GenerateTokens(roll);
    RollSetsAreLabels();
    RollSetsDisjoint();
    forall i, j | 0 <= i < j < 7 ensures tokens[i] != tokens[j] {
      RollToPositionOnBoard(RollSets[i][roll(i) % |RollSets[i]|], RollSets[j][roll(j) % |RollSets[j]|]);
    }
    forall i | 0 <= i < 7 ensures 0 <= tokens[i].x < 6 && 0 <= tokens[i].y < 6 {
      RollToPositionOnBoard(RollSets[i][roll(i) % |RollSets[i]|], RollSets[i][roll(i) % |RollSets[i]|]);
    }
  }

  /** A fresh 6 x 6 game: one token per die and every catalog shape unplaced. */
  function GenerateGame(roll: nat -> nat): (game: Game)
    ensures game.width == 6 && game.height == 6 && game.tokens == GenerateTokens(roll)
    ensures |game.shapes| == |GenerateShapes()|
    ensures forall i :: 0 <= i < |game.shapes| ==> game.shapes[i] == Entry(GenerateShapes()[i], None)
    ensures WellFormed(game)
  {
    GenerateShapesColours();
    GenerateShapesRotatable();
    var catalog := GenerateShapes();
    Game(GenerateTokens(roll), seq(|catalog|, i requires 0 <= i < |catalog| => Entry(catalog[i], None)), 6, 6)
  }
}
