# Genius Square solver core in Dafny

This project models the core of a Genius Square puzzle solver:

- **Board.** A 6×6 board with seven blocker tokens rolled from seven dice. Nine coloured shapes, 29 cells in total, must cover every free cell.
- **Move generator.** It enumerates every free placement of a shape, for each of its allowed quarter-turn rotations.
- **Rollout policy.** It completes a board at random, one unplaced shape at a time.
- **Monte-Carlo tree search step.** It descends to a candidate leaf by best child. An unvisited leaf is rolled out. A visited leaf is expanded with one child per valid action, and its first child is rolled out. The reward is then backpropagated to the root.
- **`Solver` object.** It drives that step from a timer and stops the timer when a step's output is a complete board.

Modules:

- `Board` (board.dfy): positions, rotations, the free-cell test, the shape catalog, the dice and the starting game.
- `Actions` (actions.dfy): applying an action, and the column-by-column enumeration of placements. Each loop is spelt out as a method and proved equal to a specification function.
- `Rollout` (rollout.dfy): game statistics, the rollout reward, and the random completion `simulate`.
- `Arena` (arena.dfy): the search tree as an arena, meaning a sequence of nodes that refer to each other by index. This module holds the specification functions the tree's methods are proved against, for backpropagation, expansion, best child and candidate descent. It also holds the accounting of visits: every node's visit count and score equal those of the rollouts passing through it.
- `Tree` (tree.dfy): one search step as a function `Step`, and the class `SearchTree`, whose methods update the node arena in place.
- `Solving` (solver.dfy): the class `Solver`, with its constructor, `Stop`, `Solve` and `RunSimulation`.

Modelling choices:

- **Randomness** is an oracle `roll: nat -> nat`.
  - Die `i` shows face `roll(i) % 6`, or `% 2` for the two-faced die.
  - During `simulate`, the `k`-th unplaced shape takes action `roll(k) % |actions|`.
- **Rewards** are integers counted in half points, so 0..4 stands for 0, 0.5, …, 2.
- **The UCB value** of a visited node is an uninterpreted parameter `ucb(score, visits, parentVisits)` returning a `real`. An unvisited node's value is `Infinite`, which beats every finite value.
- **Node links.** A node's children and its parent are arena indices. The constructor establishes, and `AddChild`, `AddNewNodes`, `Rollout`, `ExpandLeaf` and `Solve` keep, an invariant `Valid` with these parts:
  - parents come before their children;
  - the two kinds of link agree;
  - child lists are increasing;
  - each node's visit count and score equal those of the rollouts in a ghost `history` that pass through the node;
  - every node holds a well-formed game.
  `ApplyScore` keeps only the links and the games. It bumps the counts ahead of `history`, and `Rollout`, its only caller, restores the accounting by appending the matching visit to `history`.
- **Well-formed game.** Placed shapes lie on free cells, are pairwise disjoint and have one cell per offset. Colours are distinct. Rotations are in 0..3.

Behaviours of the code that its names and comments do not make plain, all modelled as written:

- **Applying an action** to a shape that is already placed is not an error. It overwrites that shape's cells (src/game/game.ts:257-262).
- **Anchors are scanned column by column.** The column is the outer loop and the row the inner loop (src/game/game.ts:221-222), so the order is not row-major.
- **The first die repeats two faces.** It lists `A5` and `F2` twice each (src/game/game.ts:160). The seven dice therefore have 38 faces but only 36 distinct labels, and they cover the 36 board labels once each *as sets* of labels.
- **Solved versus complete.** In src/tree/tree.ts the solution callback fires only when a rollout is complete (tree.ts:83-86). Then `Tree.SearchTree.Solve` returns `solved`. `Solver.runSimulation` in src/solver/solver.ts instead tests completeness of every step output, including a stuck leaf's game (solver.ts:144-152). Then `Solving.Solver.RunSimulation` returns `complete`.
- **A stuck leaf stalls the search.** A visited leaf whose game has no valid action gains no children (src/tree/tree.ts:116-121). Candidate descent depends only on the tree (tree.ts:51-53), so every later step picks the same leaf, changes nothing and reports the same game (`Tree.StepStuck`, `Tree.StuckRepeats`). The search never selects elsewhere once that happens.
- **`isComplete`.** src/solver/solver.ts:8 imports `isComplete`, which src/game/game.ts does not define. It is modelled as `gameStats(game).complete`, which is `Rollout.IsComplete`.

## Model

| member | source | states |
|---|---|---|
| Board.Equal | src/game/game.ts:11-13 | true exactly when the two positions are the same |
| Board.FindAngle | src/game/game.ts:30 | a found entry is in the table with that rotation number; nothing is found exactly when no entry has it |
| Board.AngleTableExact | src/game/game.ts:23-30 | each rotation 0..3 finds its own table entry, whose cosine and sine are in {-1, 0, 1} with cos² + sin² = 1 |
| Board.RotateQuarterTurns | src/game/game.ts:22-36 | rotation 0 is the identity; 1 maps (x, y) to (-y, x); 2 to (-x, -y); 3 to (y, -x) |
| Board.RotateIsQuarterTurn | src/game/game.ts:22-36 | the table-driven rotation agrees with the written-out quarter turns for every rotation 0..3 |
| Board.QuarterTurnCompose | src/game/game.ts:22-36 | quarter turns compose by adding their numbers mod 4 |
| Board.RotateCompose | src/game/game.ts:22-36 | rotating by a then b is rotating by (a + b) mod 4 |
| Board.RotateRoundTrip | src/game/game.ts:22-36 | rotating by r and then by (4 - r) mod 4 gives back the position |
| Board.TranslateRoundTrip | src/game/game.ts:39-41 | translating by d and then by -d gives back the position |
| Board.PositionsForShapeInverse | src/game/game.ts:43-51 | one cell per offset, in offset order; moving a cell back by the anchor and turning it back gives its offset |
| Board.PositionsForShapeInjective | src/game/game.ts:43-51 | distinct offsets give distinct cells |
| Board.AnyEqual | src/game/game.ts:185 | true exactly when the position is in the list |
| Board.ContainsToken | src/game/game.ts:184-186 | true exactly when the position is one of the game's tokens |
| Board.AnyCovers | src/game/game.ts:201-204 | true exactly when some placed entry lists the cell |
| Board.IsFree | src/game/game.ts:193-205 | free exactly when in [0, width) × [0, height), not a token and not covered by a placed shape |
| Board.AllFree | src/game/game.ts:210 | true exactly when every cell of the list is free |
| Board.AreFree | src/game/game.ts:207-212 | false for the empty list; otherwise true exactly when every cell is in bounds, not a token and not covered |
| Board.ColourForPosition | src/game/game.ts:317-325 | "" when no placed shape covers the cell; otherwise the colour of the first placed entry that covers it |
| Board.GenerateShapesColours | src/game/game.ts:63-147 | the catalog has nine shapes with pairwise distinct colours |
| Board.GenerateShapesRotatable | src/game/game.ts:63-147 | every catalog shape has at least one offset and only rotations in 0..3 |
| Board.GenerateShapesCells | src/game/game.ts:63-147 | the catalog's offsets total 29 cells, which is 36 minus the 7 token cells |
| Board.RollToPositionRoundTrip | src/game/game.ts:150-156 | the letter gives y and the digit minus one gives x: a label with a letter A..Z and a digit 1..9, and a cell in columns 0..8 and rows 0..25, convert back and forth exactly |
| Board.RollToPositionOnBoard | src/game/game.ts:150-156 | a label A1..F6 lands in 0..5 × 0..5, and different labels land on different cells |
| Board.RollSetsAreLabels | src/game/game.ts:159-167 | there are seven dice and every face is a label A1..F6 |
| Board.RollSetsDisjoint | src/game/game.ts:159-167 | no label appears on two different dice |
| Board.RollSetsCover | src/game/game.ts:159-167 | every label A1..F6 appears on some die |
| Board.GenerateTokensDistinct | src/game/game.ts:158-170 | whatever the roll, the seven tokens are in-bounds cells, pairwise distinct |
| Board.GenerateGame | src/game/game.ts:172-182 | a 6×6 game with the rolled tokens and every catalog shape unplaced, in catalog order, and the game is well-formed |
| Actions.FindColour | src/game/game.ts:258-260 | the index of the first entry with the colour, or none exactly when no entry has it |
| Actions.FindColourOfEntry | src/game/game.ts:258-260 | with distinct colours, looking up an entry's colour finds that entry |
| Actions.ApplyAction | src/game/game.ts:257-262 | the first entry with the action's colour gets the action's cells; tokens, size and every other entry are unchanged |
| Actions.PlaceFreeCellsLegal | src/game/game.ts:261 | placing an entry on free cells keeps placed cells in bounds, off tokens and pairwise disjoint |
| Actions.ApplyActionWellFormed | src/game/game.ts:257-262 | applying a placeable action for an unplaced entry places exactly that entry and keeps the game well-formed |
| Actions.AnchorsOnBoard | src/game/game.ts:221-222 | the scanned anchors are exactly the cells of the board |
| Actions.AnchorsLength | src/game/game.ts:221-222 | there are width × height anchors |
| Actions.AnchorsColumnMajor | src/game/game.ts:221-222 | anchor number c × height + r is column c, row r: column-major order |
| Actions.Placements | src/game/game.ts:223-229 | at most one placement per anchor |
| Actions.PlacementsMembers | src/game/game.ts:223-229 | an action is kept exactly when it is the placement at one of the anchors and its cells are free |
| Actions.RotationActionsExact | src/game/game.ts:214-234 | a rotation gives at most width × height actions, and exactly the in-bounds placements whose cells are free |
| Actions.ActionsForRotationsSound | src/game/game.ts:238-242 | every action of the concatenation comes from one of the listed rotations |
| Actions.ActionsForRotationsComplete | src/game/game.ts:238-242 | every action of a listed rotation is in the concatenation |
| Actions.ActionsForRotationsMembers | src/game/game.ts:238-242 | an action is in the concatenation exactly when it comes from one of the rotations |
| Actions.UnplacedShapes | src/game/game.ts:247 | no more shapes than entries, and a shape is listed exactly when some unplaced entry holds it |
| Actions.ActionsForShapesSound | src/game/game.ts:250-252 | every action of the concatenation comes from one of the listed shapes |
| Actions.ActionsForShapesComplete | src/game/game.ts:250-252 | every action of a listed shape is in the concatenation |
| Actions.ActionsForShapesMembers | src/game/game.ts:250-252 | an action is in the concatenation exactly when it comes from one of the shapes |
| Actions.ShapeActionsSound | src/game/game.ts:236-244 | every action of a shape is its placement at some allowed rotation and board anchor, on free cells, one cell per offset |
| Actions.ValidActionsSound | src/game/game.ts:246-255 | every valid action has free cells, as many cells as its shape, and a shape that is currently unplaced |
| Actions.ValidActionsComplete | src/game/game.ts:246-255 | every free placement of an unplaced shape, at an allowed rotation and an in-bounds anchor, is a valid action |
| Actions.ScanColumn | src/game/game.ts:222-230 | the row loop extends the actions so far by the free placements of one more column |
| Actions.GetActionsForShapeAndRotation | src/game/game.ts:214-234 | the nested column/row loops compute exactly the rotation's placements, in column-major order |
| Actions.GetActionsForShape | src/game/game.ts:236-244 | the loop over rotations computes the concatenation over the allowed rotations |
| Actions.GetValidActions | src/game/game.ts:246-255 | the loop over unplaced shapes computes the concatenation over them, in catalog order |
| Rollout.StatsFromSums | src/game/game.ts:281-290 | the counters add the entries' counts: shapes and cells split into placed and unplaced, and complete exactly when all are placed |
| Rollout.ComputeGameStats | src/game/game.ts:272-293 | the counting loop computes the statistics of the whole entry list |
| Rollout.GameStatsSums | src/game/game.ts:272-293 | placed + unplaced shapes is the number of shapes; placed + unplaced cells is the offset total; unplaced cells are the unplaced shapes' offsets; complete exactly when no shape is unplaced |
| Rollout.Reward | src/tree/tree.ts:88-91 | the reward is at most 2 points |
| Rollout.RewardOfGame | src/tree/tree.ts:88-91 | the reward of any game is 0, 0.5, 1 or 2 points (never 1.5), and 2 exactly when the game is complete |
| Rollout.IsComplete | src/game/game.ts:278-286 | complete exactly when every entry is placed |
| Rollout.RolloutReward | src/tree/tree.ts:88-91 | the reward is in {0, 0.5, 1, 2} points and is 2 exactly when the result is complete |
| Rollout.PlayShape | src/game/game.ts:309-312 | placing one shape keeps tokens, size and which shape each entry holds |
| Rollout.PlayFrom | src/game/game.ts:308-313 | placing a list of shapes keeps tokens, size and which shape each entry holds |
| Rollout.Simulation | src/game/game.ts:302-315 | the rollout keeps tokens, size and which shape each entry holds |
| Rollout.Simulate | src/game/game.ts:302-315 | the loop over the unplaced shapes computes the rollout of the input game |
| Rollout.PlayFromUntouched | src/game/game.ts:308-313 | an entry whose colour no played shape has stays as it was |
| Rollout.SimulationKeepsPlaced | src/game/game.ts:302-315 | with distinct colours, no already-placed entry changes; only unplaced shapes get placed |
| Rollout.PlayShapePlaces | src/game/game.ts:309-312 | a shape without free placements leaves the game unchanged; otherwise its own entry gets one of its free placements and no other entry changes |
| Rollout.PlayShapeWellFormed | src/game/game.ts:309-312 | placing one shape keeps the game well-formed |
| Rollout.PlayFromWellFormed | src/game/game.ts:308-313 | placing a list of shapes keeps the game well-formed |
| Rollout.SimulationWellFormed | src/game/game.ts:302-315 | the rollout keeps the game well-formed: placed cells on the board, off tokens, pairwise disjoint and one per offset |
| Arena.OnPathBelow | src/tree/tree.ts:74-75 | every node on the path from m to the root has an index at most m |
| Arena.RootOnPath | src/tree/tree.ts:74-75 | the parent chain of every node reaches the root |
| Arena.ChildrenSum | src/tree/tree.ts:71-77 | a node's visit count is the rollouts started at it plus its children's visit counts; the root's count is the number of rollouts |
| Arena.Backprop | src/tree/tree.ts:71-77 | backpropagation keeps the number of nodes |
| Arena.BackpropFields | src/tree/tree.ts:71-77 | only score and visit count change, and only on the path from n to the root, by the reward and by one |
| Arena.BackpropLater | src/tree/tree.ts:71-77 | nodes after n are untouched |
| Arena.BackpropRoot | src/tree/tree.ts:71-76 | at the root the recursion stops: one bump is the whole backpropagation |
| Arena.BackpropParent | src/tree/tree.ts:71-76 | bumping n and backpropagating from its parent is backpropagating from n |
| Arena.BackpropStep | src/tree/tree.ts:71-77 | one level of the recursion keeps the tree well linked and matches the backpropagation |
| Arena.BackpropAccounted | src/tree/tree.ts:71-77 | backpropagation accounts for exactly one more rollout, started at n, with that reward |
| Arena.AdoptExact | src/tree/tree.ts:60-67 | appending a child adds one node, links it as n's last child and changes nothing else |
| Arena.NewChildren | src/tree/tree.ts:57-67 | one child per action, in order, each the parent's game with that action applied |
| Arena.ExpandWithParent | src/tree/tree.ts:55-69 | the expanded node gains the new indices as its last children and nothing else changes in it |
| Arena.ExpandWithOthers | src/tree/tree.ts:55-69 | every other existing node is unchanged |
| Arena.ExpandWithChild | src/tree/tree.ts:55-69 | the k-th new node is the k-th child given |
| Arena.BackpropFirstChild | src/tree/tree.ts:117-119 | after expanding n and rolling out the first new node, among the new nodes only the first gets the reward and a visit, and n keeps its new child list (n and its ancestors are bumped as `Arena.BackpropFields` says) |
| Arena.AdoptShaped | src/tree/tree.ts:60-67 | appending a fresh child keeps the tree well linked |
| Arena.AdoptAccounted | src/tree/tree.ts:60-67 | appending a child with no statistics keeps the visit accounting |
| Arena.ExpandWithKeeps | src/tree/tree.ts:55-69 | expanding with fresh, unvisited children keeps the links and the accounting |
| Arena.ValueOf | src/tree/tree.ts:25-33 | the value is +Infinity exactly when the node is unvisited |
| Arena.ArgMaxFromMaximal | src/tree/tree.ts:40-46 | the scan with strict > ends on a maximum that is strictly above every earlier value |
| Arena.ArgMaxFirstMaximum | src/tree/tree.ts:35-49 | the choice is the first maximum, and the first +Infinity when there is one |
| Arena.BestChild | src/tree/tree.ts:35-49 | the best child is one of n's children, linked back to n |
| Arena.BestChildIsFirstMaximum | src/tree/tree.ts:35-49 | no child's value beats the best child's, and every earlier child's value is strictly smaller |
| Arena.BestChildFirstUnvisited | src/tree/tree.ts:35-49 | when some child is unvisited, the best child is the first unvisited one |
| Arena.Candidate | src/tree/tree.ts:51-53 | the candidate is a node of the tree |
| Arena.CandidateIsLeafBelow | src/tree/tree.ts:51-53 | the candidate has no children and lies below n (n is on its parent chain) |
| Tree.ValidActionWellFormed | src/tree/tree.ts:56-59 | a valid action's colour is in the game, and applying it keeps the game well-formed |
| Tree.ValidActionsColours | src/tree/tree.ts:56-59 | every valid action's colour names an entry of the game, so it can be applied |
| Tree.NewChildrenFresh | src/tree/tree.ts:56-67 | the new children are unvisited leaves linked to n, each with a well-formed game |
| Tree.ExpandWithGames | src/tree/tree.ts:55-69 | expanding with well-formed games keeps every game well-formed |
| Tree.AdoptKeeps | src/tree/tree.ts:58-67 | appending the child for a valid action keeps links, accounting and well-formed games, and leaves the parent's game |
| Tree.Expansion | src/tree/tree.ts:55-69 | the expansion adds one node per valid action |
| Tree.ExpansionParent | src/tree/tree.ts:55-69 | the expanded node gains one child index per valid action and its game is not modified |
| Tree.ExpansionOthers | src/tree/tree.ts:55-69 | every other existing node is unchanged |
| Tree.ExpansionChild | src/tree/tree.ts:57-67 | the k-th new node holds the parent's game with the k-th valid action applied, no statistics, no children, the parent link and the action |
| Tree.ExpansionFirstWellFormed | src/tree/tree.ts:117-119 | the first new node, the one rolled out, holds a well-formed game |
| Tree.ExpansionKeeps | src/tree/tree.ts:55-69 | expanding keeps the tree well linked, its accounting and every game well-formed |
| Tree.StepKeeps | src/tree/tree.ts:109-124 | a step keeps the tree well linked and every game well-formed, reports a well-formed game, and accounts for one more rollout exactly when it rolled one out |
| Tree.StepSolutionWellFormed | src/tree/tree.ts:109-124 | the game a step reports, a rollout result or a stuck leaf's game, is well-formed |
| Tree.BackpropKeeps | src/tree/tree.ts:71-77 | backpropagation keeps the links and games, and accounts for one more rollout |
| Tree.StepStuck | src/tree/tree.ts:116-121 | a visited candidate without valid actions leaves the tree unchanged and reports the candidate's game |
| Tree.StuckRepeats | src/tree/tree.ts:109-124 | once the candidate is a visited leaf without valid actions, a step leaves the tree as it is and the next step, whatever its draws, repeats the same outcome |
| Tree.ExpandAndRollOutChildren | src/tree/tree.ts:116-121 | expansion adds one child per valid action, in order; each holds the parent's game with its action applied; only the first is rolled out and gets one visit and the reward |
| Tree.StepExpands | src/tree/tree.ts:112-121 | a visited candidate is a leaf, and the step expands it and rolls out its first child |
| Tree.TwoStepsFromRoot | src/tree/tree.ts:109-124 | on a fresh tree, the first step rolls out the root; the second expands the root with one child per valid action |
| Tree.SearchTree.constructor | src/tree/tree.ts:98-107 | a single root over the game, with score 0, no visits, no children, no parent and no action |
| Tree.SearchTree.VisitAccounting | src/tree/tree.ts:71-77 | in any reachable tree, a node's visits are its own rollouts plus its children's visits, and the root's are all rollouts |
| Tree.SearchTree.BestChildOf | src/tree/tree.ts:35-49 | the loop with strict > returns the specified best child |
| Tree.SearchTree.FindCandidate | src/tree/tree.ts:51-53 | the recursive descent returns the specified candidate |
| Tree.SearchTree.ApplyScore | src/tree/tree.ts:71-77 | the recursive update of score and visits up the parent chain is the backpropagation |
| Tree.SearchTree.AddChild | src/tree/tree.ts:58-67 | one push: the new node is the child for the action, and the tree stays valid |
| Tree.SearchTree.AddNewNodes | src/tree/tree.ts:55-69 | the loop over the valid actions yields the expansion, and the tree stays valid |
| Tree.SearchTree.Rollout | src/tree/tree.ts:79-96 | plays the node's game out, computes 1 / +0.5 / +0.5 points, backpropagates them, and reports whether the result is complete |
| Tree.SearchTree.ExpandLeaf | src/tree/tree.ts:116-121 | expands the leaf and rolls out its first child if there is one, as specified |
| Tree.SearchTree.Solve | src/tree/tree.ts:109-124 | the step changes the tree and reports the game as `Step` says; the reported game is well-formed; `solved` exactly when a rollout happened and its result is complete |
| Solving.Solver.constructor | src/solver/solver.ts:105-116 | a root over the game with score 0, no visits, no children, no parent; no timer handle |
| Solving.Solver.Stop | src/solver/solver.ts:118-121 | the timer handle becomes 0 and nothing else changes |
| Solving.Solver.Solve | src/solver/solver.ts:123-128 | starting the timer records its handle and changes nothing else |
| Solving.Solver.RunSimulation | src/solver/solver.ts:130-153 | runs one search step; the output is well-formed, and complete exactly when all shapes are placed, and then the timer is stopped, otherwise it keeps running |

## Left out

- The React user interface (src/components/, src/App.tsx) and the context singleton (src/context/game-context.ts): rendering and wiring only.
- `Math.random` in `generateTokens` and `simulate`, replaced by the `roll` oracle. No probability distribution is modelled.
- `shuffle` (src/game/game.ts:295-300): nothing calls it.
- The floating-point UCB formula with `Math.sqrt` and `Math.log`. It is the uninterpreted `ucb` parameter; only the unvisited → +Infinity case is concrete.
- `lodash.cloneDeep`. All games are values, so a copy is the value itself, and a rollout never changes its input.
- Actions.ApplyAction: a function returning the updated game rather than an update in place. Every caller applies it to a fresh copy (src/game/game.ts:303, src/tree/tree.ts:58-59), so no aliasing is lost.
- Actions.ApplyAction: requires that some entry has the action's colour. The source dereferences the missing entry and throws.
- Board.Rotate: requires a rotation number in 0..3. For any other number the source's `find` yields undefined and reading its fields throws.
- Board.RollToPosition: defined only for two-character labels with a digit second, as the source asserts the length.
- The node objects and their references. They are arena indices; node identity is the index.
- `setInterval`, `clearInterval`, the interval length, the Promise of `Solver.solve`, `console.log`, and the `onSolution`, `onUpdate` and `onComplete` callbacks. The timer handle is a parameter of `Solving.Solver.Solve`; the callbacks are the returned `solved` and `complete` flags.
- The duplicated tree functions of src/solver/solver.ts (solver.ts:22-96). They match those of src/tree/tree.ts apart from the missing `onSolution` call, so they are modelled once in `Tree`; `Solving.Solver.RunSimulation` runs `Tree.SearchTree.Solve`.
- Colours are compared only for equality. No other string handling is modelled.
