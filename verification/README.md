# A verified model of the taktics 5x5 Tak engine core

taktics is a game engine for Tak on a 5x5 board. Each cell holds a stack of
stones. A stone is a flat, a standing wall or a capstone of either colour,
plus a fourth "crushed wall" marker per colour: a wall that a capstone has
landed on.

The engine has two parts, and this project models both:

- The board (`board.cpp`):
  - placing a stone and sliding part of a stack across the board, with their
    exact inverses;
  - the road and flat-majority win tests;
  - the static evaluation, built from captives, tops, central control and
    connected components;
  - the string key of a position.
- The player (`player.cpp`):
  - the move generator: placements, and slides with every drop partition
    through the recursive `motion`/`cap_motion`;
  - the depth-limited alpha-beta search with its two transposition tables.

## How the model is built

The model follows the shape of the C++ code.

**The board.** `Boards.Board` is a class. Its `grid` field is an `array2`
of stacks, the fixed 5x5 buffer of the C++ `board[x][y]` vectors. Four
integer fields hold the reserves. A ghost copy of the cells, tied to the
array by `Valid()`, lets contracts talk about the whole position as a
value, `Rules.Position`.

**State-changing operations.** Every operation that changes the board is a
method with a `modifies` clause. Its postcondition gives the new position
as a function of the old one. Those functions live in module `Rules`:
`Place`, `UndoPlace`, `PerformSlide`, `UndoSlide`, `PerformMove` and
`UndoMove`. They are written stone by stone, as the C++ loops drop and
take back stones. The lemmas of modules `SlideLaws`, `MoveLaws` and
`Conservation` say what these functions mean:
- the closed form of a slide;
- the crush flag;
- the undo round trip;
- the count of every kind of piece.

**Read-only loops.** The win tests, the evaluation terms, `board_to_string`
and the generators are methods with loops. Each is proved equal to a
specification function. Lemmas about those functions state what the game
promises:
- a marked road is a real chain of cells;
- the flat win always has a winner on a full board;
- two boards share a key exactly when their stacks print alike;
- every generated move is legal;
- the placement count on an empty board is 75.

**Search.** `Search.Engine` holds the two tables as `map` fields. The
search methods restore the board. They only add entries to the tables,
and each new entry is no deeper than the cutoff. Their result is:
- the table hit;
- the terminal value;
- or the loop's best (worst) child, with alpha-beta pruning.

**Modules.** The modules are: `Stones` (pieces, stacks, directions),
`Notation` (move text), `Rules`, `Boards`, `SlideLaws`, `MoveLaws`,
`Conservation`, `Wins`, `Encoding`, `Components`, `Evaluation`, `MoveGen`
and `Search`.

**Quirks of the code that the model keeps:**
- The flat-win tiebreak gives a board with equal flat counts to the side
  with MORE flats left in reserve:
  `(black_flats_rem < white_flats_rem) == player_color` (board.cpp:308-309,
  `Wins.MoreFlatsLeftWins`).
- Central control weights a cell by its Manhattan distance from the centre,
  `|x - 2| + |y - 2|` (board.cpp:57-69, `Evaluation.CentralRings`).
- Central control is counted only when `white(x, y) && player_color`, so
  black's term is always 0 (board.cpp:61-65, `Evaluation.CentralBounds`).
- The key prints a crushed wall like a flat of its colour, so two different
  boards can share a key (board.cpp:321-325, `Encoding.CrushSharesKey`).
- `min_value` generates moves for the same colour as `max_value`, because
  both pass `player_color` on unchanged (player.cpp:201-206). The model
  does the same.

## Model

| member | source | states |
|---|---|---|
| Stones.Crushed | board.cpp:159-160 | a crushed wall keeps the colour of the wall it replaces |
| Stones.Uncrushed | board.cpp:215-219 | undoing a crush marker yields the wall of the marker's colour; the marker must be on top, as the code asserts |
| Stones.PathDistinct | board.cpp:147-150 | the cells a slide steps onto are pairwise distinct and never the origin |
| Notation.MakeSqr | player.cpp:65 | the two-letter square of a cell reads back, through `make_xy`, as that cell |
| Notation.SquareInBounds | board.cpp:101-103 | every well-formed square names a cell on the board and is spelled by `make_sqr` |
| Notation.Digit | player.cpp:114 | `to_string` of a single digit is a digit character whose value is the number |
| Notation.DigitValues | board.cpp:140-141 | the drop list has one entry per drop character, its digit value |
| Notation.SlidePrefixParts | player.cpp:95 | a generated slide text parses back to its count, square, direction and drop digits |
| Rules.PlacedStone | board.cpp:105-119 | the pushed stone has the mover's colour and is a flat for F, a wall for S, a capstone for C |
| Rules.Group | board.cpp:151-153 | drop i takes exactly `drops[i]` stones off the pickup |
| Boards.ReadDrops | board.cpp:140-141 | the loop reads the drop digits after position 4 into `Drops(m)` |
| Boards.Board.Push | board.cpp:163 | `push_back` adds the stone on top of one cell and changes nothing else |
| Boards.Board.Pop | board.cpp:143-144 | `back`/`pop_back` returns the top stone and removes it from that cell only |
| Boards.Board.SetTop | board.cpp:159-160 | assigning `back()` replaces the top stone of one cell only |
| Boards.Board.PerformPlacement | board.cpp:100-121 | the position becomes `Place(old, kind, square, colour)`: one stone pushed, one reserve decremented; the result is false |
| Boards.Board.Lift | board.cpp:142-146 | the origin loses its top h stones; the pickup holds them top first |
| Boards.Board.DropOne | board.cpp:152-163 | one stone lands as `DropStone` says; a wall under it is crushed and raises the flag |
| Boards.Board.DropOnto | board.cpp:151-164 | a drop lands its group stone by stone and the pickup shrinks by the drop |
| Boards.Board.DropStep | board.cpp:147-165 | one round of the drop loop advances the position and flag to the next prefix of `SlideDrops` |
| Boards.Board.DropAll | board.cpp:147-165 | the drop loop yields the grid and crush flag of `SlideDrops` over the whole path |
| Boards.Board.PerformMotion | board.cpp:123-167 | the new position and the returned crush flag are `PerformSlide` of the old position |
| Boards.Board.UndoPlacement | board.cpp:169-185 | the position becomes `UndoPlace`: the cell is emptied and the stone returns to its reserve |
| Boards.Board.TakeBack | board.cpp:203-213 | the top k stones of a path cell move, in order, onto the origin |
| Boards.Board.PushBack | board.cpp:209-213 | popping the buffer onto the origin puts the taken stones back in their original order |
| Boards.Board.UndoStep | board.cpp:201-214 | one round of the undo loop keeps the position equal to `UndoSteps` of the next prefix |
| Boards.Board.TakeAllBack | board.cpp:201-214 | the undo loop takes every drop back, as `UndoSteps` over the whole path |
| Boards.Board.Uncrush | board.cpp:215-220 | the top of the last cell becomes the wall it was crushed from |
| Boards.Board.UndoMotion | board.cpp:187-222 | the position becomes `UndoSlide` of the old one |
| Boards.Board.PerformMove | board.cpp:224-229 | dispatches on the first letter: the new position and flag are `Rules.PerformMove` |
| Boards.Board.UndoMove | board.cpp:231-237 | dispatches on the first letter: the position becomes `Rules.UndoMove` |
| MoveLaws.PlacementRoundTrip | board.cpp:169-185 | a placement on an empty cell puts one stone there, changes one reserve by one, and `undo_placement` restores the position exactly |
| MoveLaws.MoveRoundTrip | board.cpp:224-237 | for every legal move, `undo_move` with the flag `perform_move` returned restores the position exactly, reserves included |
| MoveLaws.SlideWellStacked | board.cpp:147-165 | after a legal slide every stack still has walls and capstones only on top |
| MoveLaws.LegalPreservesWellFormed | board.cpp:224-229 | a legal move keeps every stack well stacked and every reserve non-negative |
| Conservation.CrushCount | board.cpp:159-160 | crushing a wall changes no piece count |
| Conservation.DropStoneCount | board.cpp:154-163 | landing a stone adds exactly that stone to the counts |
| Conservation.DropGroupCount | board.cpp:151-164 | landing a group adds exactly the group's stones |
| Conservation.SlideDropsCount | board.cpp:147-165 | the first i drops add exactly the first `Sum(drops[..i])` carried stones to the board |
| Conservation.SlideConserves | board.cpp:123-167 | a slide that drops every carried stone keeps the board count of every kind and all four reserves |
| Conservation.PlaceCount | board.cpp:100-121 | a placement adds exactly one stone of the placed kind to the board |
| Conservation.MoveConserves | board.cpp:224-229 | each colour's flats+walls and capstones, on the board plus in reserve, are unchanged by a move |
| SlideLaws.DropGroupClosed | board.cpp:151-164 | dropping stone by stone equals landing the whole group; the flag is raised iff it lands on a wall |
| SlideLaws.SlideDropsMiss | board.cpp:147-165 | a cell not yet reached by the drops is unchanged |
| SlideLaws.SlideDropsHit | board.cpp:147-165 | the j-th path cell ends up as its old stack with group j landed on it |
| SlideLaws.SlideDropsFlag | board.cpp:154-157 | the crush flag is set iff some non-empty drop lands on a wall |
| SlideLaws.LandingsOkClosed | board.cpp:154-161 | the per-stone crush assert holds iff every group landing on a wall starts with a capstone |
| SlideLaws.CapGroupIsLast | board.cpp:158 | a group headed by a capstone is the last drop and is that capstone alone |
| SlideLaws.CarriedShape | board.cpp:142-146 | the stones picked up from a well-stacked stack have no inner wall and at most a capstone on top |
| SlideLaws.LandsOnWallWithCap | board.cpp:154-161 | in a legal slide, a group that meets a wall is headed by a capstone |
| SlideLaws.WallOnlyAtEnd | board.cpp:154-161 | a wall can be met only by the last drop, of one stone, a capstone |
| SlideLaws.SlideOrigin | board.cpp:142-146 | the origin keeps all but its top h stones |
| SlideLaws.SlideOff | board.cpp:147-165 | cells off the path and not the origin are unchanged |
| SlideLaws.SlideDest | board.cpp:147-165 | each path cell ends up as its old stack with its group on top |
| SlideLaws.SlideFlag | board.cpp:154-166 | `perform_motion` returns true iff the last cell of the path was topped by a wall |
| SlideLaws.SlideEffect | board.cpp:123-167 | the whole effect of a legal slide: reserves, origin, untouched cells, path cells and flag |
| SlideLaws.UndoStepsMiss | board.cpp:201-214 | the undo loop leaves cells off the path and the origin alone |
| SlideLaws.UndoStepsHit | board.cpp:203-207 | each path cell loses exactly its drop's stones |
| SlideLaws.UndoStepsOrigin | board.cpp:209-213 | the origin gains the taken stones in path order |
| SlideLaws.TakenIsCarried | board.cpp:201-214 | when each path cell carries its group on top, the stones taken back are the carried stones in order |
| SlideLaws.SlideGroupsOnTop | board.cpp:147-165 | after a legal slide, undo's pops fit and take back exactly the carried stones |
| SlideLaws.UndoOriginAfterSlide | board.cpp:201-214 | undoing a legal slide restores the origin stack |
| SlideLaws.UndoPathAfterSlide | board.cpp:201-214 | undoing restores each path cell, with a crushed wall left as the crush marker |
| SlideLaws.UndoOffAfterSlide | board.cpp:201-214 | undoing leaves the cells the slide did not touch as they were |
| SlideLaws.UncrushCrushed | board.cpp:219 | uncrushing a crushed wall gives back that wall |
| SlideLaws.UndoDefinedAfterSlide | board.cpp:215-217 | after a crushing slide, the undo asserts hold: a crush marker under the last cell's top and a capstone on the origin |
| SlideLaws.Uncrush | board.cpp:219 | replacing the crush marker by its wall restores the stack that was crushed |
| SlideLaws.UndoSlideCell | board.cpp:187-222 | `undo_motion` with the returned flag restores every cell of a legal slide |
| SlideLaws.SlideRoundTrip | board.cpp:187-222 | `undo_motion` with the returned flag restores the whole position of a legal slide |
| Wins.ReachChain | board.cpp:242-258 | every cell the sweep marks ends a chain of road pieces starting on the first lane |
| Wins.EntryChain | board.cpp:248-250 | a cell marked by the straight pass ends a chain of road pieces from the first lane |
| Wins.UpChain | board.cpp:251-253 | a cell marked by the upward pass ends such a chain |
| Wins.DownChain | board.cpp:254-256 | a cell marked by the downward pass ends such a chain |
| Wins.RoadWinSound | board.cpp:239-282 | a reported road win has a real road joining two opposite edges |
| Wins.StraightPass | board.cpp:248-250 | the straight pass marks exactly the entry cells and leaves other lanes unchanged |
| Wins.UpPass | board.cpp:251-253 | the upward pass marks exactly `Up` and leaves other lanes unchanged |
| Wins.DownPass | board.cpp:254-256 | the downward pass marks exactly `Down` and leaves other lanes unchanged |
| Wins.Sweep | board.cpp:242-261 | one sweep reports whether its last lane is reached |
| Wins.PlayerRoadWin | board.cpp:239-282 | the result is `RoadWin`: a column sweep or a row sweep reaches its far side |
| Wins.GameFlatWin | board.cpp:284-292 | the result is true iff no cell is empty |
| Wins.PlayerFlatWin | board.cpp:294-312 | the result is `FlatWin`: more controlled cells, then the reserve tiebreak, then true |
| Wins.FlatWinSomeone | board.cpp:306-311 | at least one colour wins the flat count |
| Wins.MoreTopsWins | board.cpp:306-307 | the colour controlling more cells wins and the other does not |
| Wins.MoreFlatsLeftWins | board.cpp:308-309 | on equal cells, the colour with more flats left in reserve wins and the other does not |
| Wins.FullTops | board.cpp:299-305 | on a full board every cell is counted for exactly one colour |
| Wins.FullBoardOneWinner | board.cpp:294-307 | on a full board (an odd number of cells) exactly one colour wins |
| Encoding.Symbol | board.cpp:319-328 | no stone is printed as the separator 'p' |
| Encoding.SymbolShared | board.cpp:319-328 | two stones print alike iff they are equal or both are flat-or-crushed of one colour |
| Encoding.StackText | board.cpp:318-329 | a stack prints one letter per stone, bottom first |
| Encoding.KeyPrefix | board.cpp:316-332 | the key of the first k cells has one letter per stone and one separator per cell, ending in 'p' |
| Encoding.KeyLength | board.cpp:314-334 | the key's length is the number of stones plus 25 |
| Encoding.AppendCell | board.cpp:317-331 | the inner loops append one cell's stack text and its separator |
| Encoding.BoardToString | board.cpp:314-334 | the result is `Key` of the cells |
| Encoding.PrefixDetermines | board.cpp:316-332 | equal key prefixes give equal stack texts for every cell scanned |
| Encoding.PrefixFromCells | board.cpp:316-332 | equal stack texts on every scanned cell give equal key prefixes |
| Encoding.SameKey | board.cpp:314-334 | two boards have the same key iff every cell's stack prints alike |
| Encoding.CrushSharesKey | board.cpp:321-325 | turning a crush marker into a flat of its colour leaves the key unchanged |
| Encoding.KeyRestored | board.cpp:314-334 | after a legal move and its undo the key is the one before |
| Evaluation.LevelsCount | board.cpp:15-24 | the captives of a stack are its buried stones of the colour times one per-kind weight |
| Evaluation.CaptivesPerStone | board.cpp:13-24 | a stack's captive score is positive for its owner and negative for the other colour |
| Evaluation.StackCaptives | board.cpp:13-24 | the inner loop computes `CellCaptives` of the stack |
| Evaluation.CaptivesColumn | board.cpp:12-25 | one column adds its cells' captive scores |
| Evaluation.EvaluateCaptives | board.cpp:6-28 | the result is `Captives` of the cells |
| Evaluation.TopsShare | board.cpp:30-55 | the tops scores of the two colours add up to the kind values of all occupied cells |
| Evaluation.TopScore | board.cpp:37-51 | one cell scores its kind value when `white(x, y)` equals the colour |
| Evaluation.TopsColumn | board.cpp:36-52 | one column adds its cells' top values |
| Evaluation.EvaluateTops | board.cpp:30-55 | the result is `TopsScore` of the cells |
| Evaluation.CentralRings | board.cpp:57-69 | central control weights each held cell by its Manhattan ring around the centre |
| Evaluation.HeldOn | board.cpp:61-65 | a cell is held when it is white and the colour is white |
| Evaluation.EvaluateCentralControl | board.cpp:57-69 | the result is `CentralControl` of the cells |
| Evaluation.CentralBounds | board.cpp:57-69 | central control is 0 for black and between 0 and 488 for white |
| Evaluation.EvaluateHelper | board.cpp:89-94 | the result is the sum of the four terms |
| Evaluation.Evaluate | board.cpp:96-98 | the result is the colour's terms minus the other colour's |
| Evaluation.EvaluationAntisymmetric | board.cpp:96-98 | the evaluation for one colour is the negation of the other's; this follows from `evaluate` being a difference of the two colours' helpers and says nothing about the four terms themselves |
| Evaluation.EmptyBoardEvaluation | board.cpp:89-98 | the empty board scores 0 for both colours |
| Components.ComponentShape | board.cpp:336-350 | a group holds its seed, only stacks of the colour, and is closed under adjacency |
| Components.SameComponent | board.cpp:336-350 | any member of a group grows the same group |
| Components.GrownIsComponent | board.cpp:336-350 | a closed set of connected cells grown from a seed outside the visited cells is exactly its group |
| Components.BoxOnBoard | board.cpp:338-341 | the box of a group of cells lies on the board |
| Components.Spread | board.cpp:82 | a group's score is non-negative |
| Components.Mark | board.cpp:337 | marking a cell adds exactly that cell to the visited set |
| Components.NeighbourTest | board.cpp:346 | the neighbour test holds iff the neighbour is an unvisited stack of the colour |
| Components.Dfs | board.cpp:336-350 | `dfs` visits exactly the seed's group and stretches the box to the group's least box |
| Components.TryNeighbour | board.cpp:343-349 | one neighbour's visit keeps the partial group and box invariants |
| Components.SeedFound | board.cpp:79-82 | the group found from a seed is its component, scored by `WEIGHTS` of its width and height |
| Components.FoundCases | board.cpp:79-83 | a new seed adds its group and score; any other cell changes nothing |
| Components.SeedTest | board.cpp:79 | the seed test holds iff the cell is an unvisited stack of the colour |
| Components.ScoreSeed | board.cpp:79-83 | scoring a seed visits exactly its group and adds its score |
| Components.ScoreCell | board.cpp:78-84 | one cell of the scan moves the state as `Found` says |
| Components.ScanCoversOwn | board.cpp:77-85 | the scan visits exactly the stacks of the colour, and the score is non-negative |
| Components.NoStacksNoScore | board.cpp:77-85 | a colour with no stacks scores 0 |
| Components.EvaluateComponents | board.cpp:72-87 | the result is `ComponentsScore` of the cells |
| MoveGen.CellPlacementsExact | player.cpp:64-73 | a cell's placements are exactly the legal three-letter placements on it |
| MoveGen.ColumnPlacementsExact | player.cpp:63-74 | a column's placements are exactly the legal placements on its cells |
| MoveGen.PlacementsUpToExact | player.cpp:62-75 | the first k columns' placements are exactly the legal placements on them |
| MoveGen.PlacementMovesExact | player.cpp:58-76 | the placements are exactly the legal three-letter placements |
| MoveGen.ColumnPlacementsCount | player.cpp:63-74 | a column yields (2 if flats remain) + (1 if a capstone remains) moves per empty cell |
| MoveGen.PlacementCount | player.cpp:62-75 | the same count summed over columns |
| MoveGen.EmptyBoardPlacements | player.cpp:58-76 | an empty board with both reserves yields 75 placements |
| MoveGen.CarryLimit | player.cpp:94 | the carry limit is `min(height, N)` |
| MoveGen.SlidesShape | player.cpp:110-132 | every text `motion`/`cap_motion` emits is its prefix plus positive drops summing to the count that land where allowed |
| MoveGen.BranchesShape | player.cpp:117-119 | each recursive call emits the prefix, one drop digit, then a shaped tail |
| MoveGen.ShapedSlideLegal | player.cpp:94-132 | a slide of that shape off the mover's stack or capstone is legal |
| MoveGen.PickupSlidesSound | player.cpp:94-104 | every slide generated for a pickup is legal, carries at most 5 stones and starts at the mover's stack |
| MoveGen.SlideMovesSound | player.cpp:78-108 | every slide `generate_motion_moves` emits is legal |
| MoveGen.AllMovesLegal | player.cpp:51-56 | every move `generate_moves` emits is legal |
| MoveGen.NoSlidesFromOthers | player.cpp:96-103 | a cell not topped by the mover's flat, wall or capstone starts no slide |
| MoveGen.AddPlacements | player.cpp:64-73 | the cell body appends S and F while flats remain, then C while a capstone remains |
| MoveGen.PlaceColumn | player.cpp:63-74 | the inner loop appends the column's placements |
| MoveGen.GeneratePlacementMoves | player.cpp:58-76 | the result is the input followed by `PlacementMoves` |
| MoveGen.Motion | player.cpp:110-120 | `motion` appends exactly `Slides` without the capstone rule |
| MoveGen.CapMotion | player.cpp:122-132 | `cap_motion` appends exactly `Slides` with a lone capstone allowed onto a wall |
| MoveGen.AddOriginSlides | player.cpp:84-105 | one cell's body appends its slides for every pickup |
| MoveGen.ScanColumn | player.cpp:83-106 | the y loop appends a column's slides |
| MoveGen.AddDirSlides | player.cpp:82-107 | the x loop appends a direction's slides |
| MoveGen.GenerateMotionMoves | player.cpp:78-108 | the result is the input followed by `SlideMoves` |
| MoveGen.GenerateMoves | player.cpp:51-56 | the result is the input followed by the placements, then the slides |
| Search.Insert | player.cpp:176 | `insert` keeps every existing entry and adds the key only when absent |
| Search.TerminalCases | player.cpp:148-157 | a road or a full board always ends a node with a win or a loss; otherwise only the cutoff does |
| Search.BothRoads | player.cpp:149-150 | when both colours have roads, the colour checked first decides the result |
| Search.CheckTerminal | player.cpp:148-157 | the tests return `Terminal` of the position, in the code's order |
| Search.BestStep | player.cpp:167-170 | a strictly better child replaces the best, otherwise the best stays |
| Search.WorstStep | player.cpp:208-211 | a strictly smaller child replaces the worst, otherwise the worst stays |
| Search.BestIsMaximum | player.cpp:163-174 | the best value is the maximum, reached first at its move, or INT_MIN with no move |
| Search.WorstIsMinimum | player.cpp:203-215 | the worst value is the minimum, reached first at its move, or INT_MAX with no move |
| Search.MaxLoopValue | player.cpp:163-177 | a loop cut at beta returns at least beta; an uncut loop returns the maximum of all children |
| Search.MinLoopValue | player.cpp:203-218 | a loop cut at alpha returns at most alpha; an uncut loop returns the minimum of all children |
| Search.Engine.constructor | player.cpp:13-14 | both tables start empty |
| Search.Engine.AlphaBetaSearch | player.cpp:135-137 | the board is restored, the tables only grow, and the result is the table hit, the terminal value or the full max loop; the root is stored only when its loop was not cut, and a cut root adds only shallower entries |
| Search.Engine.MaxValue | player.cpp:139-178 | a table hit or terminal returns without touching the tables; otherwise the max loop's result, stored when the loop ran to the end, while a loop cut at beta stores nothing at this cutoff (only shallower entries from the children) |
| Search.Engine.ExpandMax | player.cpp:158-177 | the loop restores the board and returns the best child or the move that reached beta |
| Search.Engine.MaxChild | player.cpp:165-171 | performing, searching and undoing one move restores the board and only adds shallower table entries; the value is the child's stored value on a deep enough table hit, otherwise its terminal value when the child is terminal |
| Search.Engine.MinValueOf | player.cpp:166 | the child search restores the board and only adds shallower table entries; its value is the stored value on a deep enough hit in `min_table`, otherwise the terminal value when the node is terminal |
| Search.Engine.MinValue | player.cpp:180-219 | a table hit or terminal returns without touching the tables; otherwise the min loop's result, stored when the loop ran to the end, while a loop cut at alpha stores nothing at this cutoff (only shallower entries from the children) |
| Search.Engine.ExpandMin | player.cpp:198-218 | the loop restores the board and returns the worst child or the move that reached alpha |
| Search.Engine.MaxValueOf | player.cpp:206 | the child search restores the board and only adds shallower table entries; its value is the stored value on a deep enough hit in `max_table`, otherwise the terminal value when the node is terminal |
| Search.Engine.MinChild | player.cpp:204-212 | performing, searching and undoing one move restores the board and only adds shallower table entries; the value is the child's stored value on a deep enough table hit, otherwise its terminal value when the child is terminal |

## Left out

- `board.h` is not part of this model. That covers the `Stones` enumeration, the top-of-stack predicates, `next_x`/`next_y`, `out_of_bounds`, `make_xy`, `make_sqr` and the `Board` constructor. Their definitions here are assumptions:
  - '+' and '-' step the row, '>' and '<' the column;
  - `white` is false on an empty cell;
  - the constructor takes the four reserves as parameters.
- The C++ `assert`s become preconditions. `perform_motion` also requires that the drops fit the pickup and stay on the board, because the code has undefined behaviour otherwise.
- `print_board`, `main`, the opponent protocol and all console output (player.cpp:17-39 and 224-321) are I/O and are left out.
- The global `visit` array of `evaluate_components` is a fresh local array. `memset` on `reach` becomes a fresh array per sweep.
- Integers are unbounded. No value computed here comes near the 32-bit range, apart from the `INT_MIN`/`INT_MAX` sentinels, which are constants.
- MoveGen.SlideMovesSound: proves that every generated slide is legal, not that every legal slide is generated.
- Boards.Board.PerformMotion: the closed form of a slide (`SlideLaws.SlideEffect`) and its round trip (`SlideLaws.SlideRoundTrip`) are proved only under three conditions:
  - every stack has walls and capstones only on top;
  - every drop is at least 1;
  - the drops add up to the count.

  These are the positions and moves the generator produces.
- Search.Engine.MaxChild: the value of a child that is expanded (no deep enough hit and not terminal) is not stated. It comes out of the child's own move loop, which the contracts do not relate to a minimax value.
- Search.Engine.MinChild: the same.
- Search.Engine.MinValueOf: the same, for a node that is expanded.
- Search.Engine.MaxValueOf: the same, for a node that is expanded.
- Search.Engine.ExpandMax: the ghost list of child values holds what `MaxChild` returned, but the loop's contract does not carry each child's hit or terminal clause across the loop. A later child's search can store the key an earlier child looked up, so those clauses hold only for the table as it was at that child's step, and the model leaves that bookkeeping out. The selection and pruning over the list are proved.
- Search.Engine.ExpandMin: the same, with `MinChild`.
- Search.Engine.MaxValue: the ghost list of child values is tied to the children only as `ExpandMax` ties it. The contract states the table rules and the selection and pruning loop, not that the result is the minimax value.
- Search.Engine.MinValue: the same, with `ExpandMin`.
- Search.Engine.AlphaBetaSearch: the same as `MaxValue`.
- Search.Engine.MaxValue requires `cutoff >= 0`. The code never calls it with a negative cutoff.
- Search.Engine.MaxValue: a table entry that a deeper recursive call stored for the same key blocks the `insert` at the end (`Stored` allows it), as `unordered_map::insert` does.
