# Blokus rules core and agent helpers, in Dafny

This project models the modellable logic of a small Blokus learning
environment written in Python:

- **The board** (`game/blokus.py`): a `size` by `size` grid of square data.
  It is built with every square `EMPTY`. `get_placement_at` reads one square
  and raises `ValueError` when either coordinate is at least the size.
  `get_size` reports the size. The enumeration of square contents is the
  datatype `Blokus.SquareData`, with the numeric values of the Python enum.
- **The placement validator** (`game/blokus.py`). Building a
  `BlokusPlacement` sorts the given cells by x and keeps the board state. It
  raises `InvalidPlacementError` unless the list has 3 to 5 cells and every
  cell has some other cell of the list at Manhattan distance 1. The
  constructor is `Blokus.NewPlacement`, which returns either the placement
  or the error, carrying the board state and the list as given. The two
  checks are the imperative methods `IsPlacementValid` and
  `IsPlacementContinuous`, with the same loops, `continue`, `break` and early
  return as the Python code. Each is proved against a predicate (`Acceptable`,
  `Continuous`). The lemmas show three things about the validator. It does
  not depend on the order of the cells, so the sort cannot change a verdict.
  It accepts every edge-connected list of 3 to 5 distinct cells. It is
  strictly weaker than edge-connectedness: two far-apart dominoes are
  accepted. It also counts list entries, not distinct squares: a list of
  three entries that names only two squares is accepted.
- **Grid distances** (`game/distance.py`): Manhattan and Chebyshev
  distance, with their metric properties. These are non-negativity, zero
  exactly on equal points, symmetry and the triangle inequality. The lemmas
  also cover Manhattan distance 1 on exactly the orthogonal neighbours,
  `chebyshev <= manhattan <= 2 * chebyshev`, and invariance under translation.
- **Two helpers of the DQN agent** (`blokus_agent.py`).
  - `_save_replay` is a bounded first-in first-out memory of capacity
    300000: append, then drop the oldest entry when over capacity.
  - `_preprocess_action` marks an action's cells with 1 in a fresh zero grid
    (an `array2`) and flattens it row by row. A cell with a coordinate at least
    the board size is the `IndexError` path of the result (coordinates are
    natural numbers here; see "Left out").

Files: `wrappers.dfy` (`Option`, `Result`), `distance.dfy` (module
`Distance`), `blokus.dfy` (module `Blokus`), `blokus_agent.dfy` (module
`BlokusAgent`).

The model follows the code where it is looser or narrower than the usual
Blokus rules:
- Board reads reject only coordinates that are too large. Negative
  coordinates are excluded by the type `Coord = (nat, nat)`.
- The validator keeps its local adjacency test and does not demand
  distinct cells (`RepeatedCellAccepted`).
- There is no occupancy, anchor, touching or inventory check, because the
  code has none.

## Model

| member | source | states |
|---|---|---|
| `Distance.Manhattan` | game/distance.py:1-3 | the distance is a natural number, zero exactly when the two points are equal |
| `Distance.ManhattanUnitIffNeighbours` | game/distance.py:3 | distance 1 holds exactly when one coordinate differs by one and the other is equal (one of the four orthogonal offsets) |
| `Distance.ManhattanSymmetric` | game/distance.py:1-3 | swapping the points leaves the Manhattan distance unchanged |
| `Distance.ManhattanTriangle` | game/distance.py:1-3 | the Manhattan distance satisfies the triangle inequality |
| `Distance.Chebyshev` | game/distance.py:6-8 | the distance is a natural number, zero exactly when the points are equal, and 1 exactly for the eight surrounding squares |
| `Distance.ChebyshevSymmetric` | game/distance.py:6-8 | swapping the points leaves the Chebyshev distance unchanged |
| `Distance.ChebyshevTriangle` | game/distance.py:6-8 | the Chebyshev distance satisfies the triangle inequality |
| `Distance.ChebyshevBoundsManhattan` | game/distance.py:1-8 | chebyshev(a, b) <= manhattan(a, b) <= 2 * chebyshev(a, b) |
| `Distance.TranslationInvariant` | game/distance.py:1-8 | moving both points by the same offset changes neither distance |
| `Blokus.SquareData.Value` | game/blokus.py:10-18 | each square content has its enum value in -3..3; 0 exactly for EMPTY, positive exactly for the three player marks |
| `Blokus.SquareDataOf` | game/blokus.py:10-18 | looking a value up finds a member exactly for -3..3, and the member found has that value |
| `Blokus.SquareDataValueRoundTrip` | game/blokus.py:10-18 | looking up a member's value gives back that member, so the seven values are distinct |
| `Blokus.EmptyGrid` | game/blokus.py:30 | the initial grid has `size` rows of `size` squares, every one EMPTY |
| `Blokus.Board.constructor` | game/blokus.py:24-30 | a new board has the given size (12 by default), reported by `GetSize`, and reads EMPTY at every in-range square |
| `Blokus.Board.GetPlacementAt` | game/blokus.py:32-41 | fails with the out-of-range error carrying (x, y) exactly when x >= size or y >= size; otherwise returns the stored square |
| `Blokus.Board.GetSize` | game/blokus.py:43-45 | the reported size is the number of rows of the grid and the length of each row |
| `Blokus.IsPlacementContinuous` | game/blokus.py:74-91 | returns true exactly when every index i has another index j whose cell is at Manhattan distance 1 from cell i |
| `Blokus.IsPlacementValid` | game/blokus.py:67-72 | returns true exactly when the list has 3 to 5 cells and is continuous; false for any other length whatever the geometry |
| `Blokus.SortByX` | game/blokus.py:61 | the sorted list is a permutation of the given one and is in non-decreasing order of x |
| `Blokus.NewPlacement` | game/blokus.py:54-65 | fails exactly when the given cells are not acceptable, with the error carrying the board state and the cells as given; otherwise returns the cells sorted by x and the board state |
| `Blokus.ContinuousIffEveryCellHasNeighbour` | game/blokus.py:74-91 | the index condition j != i is implied: continuity holds exactly when every cell has some cell of the list at distance 1 |
| `Blokus.AcceptablePermutationInvariant` | game/blokus.py:61-72 | two lists with the same cells in any order get the same verdict, so the sort cannot change acceptance |
| `Blokus.EdgeConnectedIsAccepted` | game/blokus.py:67-91 | every edge-connected list of 3 to 5 distinct cells is accepted |
| `Blokus.DisjointDominoesAccepted` | game/blokus.py:74-91 | the two dominoes (0,0),(0,1) and (5,5),(5,6) are accepted although they are not edge-connected |
| `Blokus.RepeatedCellAccepted` | game/blokus.py:67-91 | the list (0,0),(0,0),(0,1), which names only two squares, is accepted |
| `BlokusAgent.SavedReplay` | blokus_agent.py:112-115 | saving keeps a memory of at most 300000 entries within that bound, ends with the saved action; below capacity appends without dropping, at capacity drops exactly the oldest entry and keeps the order of the rest |
| `BlokusAgent.DQNAgent.constructor` | blokus_agent.py:69-78 | a new agent keeps the board size (12 by default) and starts with an empty replay memory |
| `BlokusAgent.DQNAgent.SaveReplay` | blokus_agent.py:112-115 | the new replay memory is the saved memory of the old one, and the capacity bound is preserved |
| `BlokusAgent.DQNAgent.PreprocessAction` | blokus_agent.py:117-121 | succeeds exactly when every cell is on the board, returning the flattened marked grid of board_size * board_size entries; otherwise fails with the first cell that is off the board |
| `BlokusAgent.FlattenGrid` | blokus_agent.py:121 | the result is the grid's rows laid end to end, in row order |
| `BlokusAgent.OneHotLength` | blokus_agent.py:118-121 | the encoding of every action, for every size including 0, has size * size entries |
| `BlokusAgent.OneHotAt` | blokus_agent.py:118-121 | the encoding has size * size entries, and entry x * size + y is 1 exactly when (x, y) occurs in the action, 0 otherwise |
| `BlokusAgent.OneHotBinary` | blokus_agent.py:119-120 | every entry of the encoding is 0 or 1 |
| `BlokusAgent.OneHotIgnoresOrderAndRepetition` | blokus_agent.py:119-120 | two actions naming the same cells, in any order and with any repetitions, have the same encoding |

## Left out

- `BlokusGame` (game/blokus.py:93-97) only builds a board; it is not modelled beyond `Board`.
- Row aliasing: `[[EMPTY] * size] * size` makes every row one shared list. The model gives each row its own sequence. Nothing in the code writes a square, so no read can tell the difference.
- The sort call at game/blokus.py:61 passes its key positionally. As written that raises `TypeError` on Python 3, so every construction would fail. The model takes the intended sort by x.
- `SortByX`: stability (cells with equal x keep their order) holds of the definition but is not stated or proved.
- `PreprocessAction`: cells are pairs of natural numbers, so it does not model Python's negative indexing. In the code a coordinate in -size..-1 raises nothing and marks a wrapped square; for example, (0, -1) sets row 0, column size-1.
- `Blokus.Board.constructor`, `DQNAgent.constructor`: sizes are natural numbers, so a negative size is not modelled. In the code a negative size builds an empty grid, and every read of that grid raises.
- Negative coordinates given to `get_placement_at` are not rejected by the code and would wrap through Python indexing. Coordinates here are natural numbers.
- `InvalidPlacementError.__str__` (game/blokus_exception.py:8-9) formats the placement twice; string formatting is not modelled. The error itself is the `Failure` case of `NewPlacement`.
- `DQNAgent.constructor`: keeps only lines 72 and 78 of `__init__` (blokus_agent.py:69-99), the board size and the empty replay memory. As written, `__init__` never returns. `_construct_network` and `_build_training_op` (blokus_agent.py:101-106) are stubs returning `None`, so reading `target_network.trainable_weights` at blokus_agent.py:87 raises `AttributeError`. No agent is therefore ever built in the program, and `_save_replay` and `_preprocess_action` are modelled as the bodies they would run on an agent that existed.
- The rest of `DQNBlokusAgent` is not modelled:
  - the network stubs, the weight-copying loop and the TensorFlow session (a foreign call);
  - epsilon decay is floating point;
  - `get_action` draws random numbers and takes an argmax over floats;
  - `_preprocess_board_state` calls board methods that do not exist in the board code.
- `RandomBlokusAgent` is random and is not modelled.
- `blokus_env.py` and `dqn_lerning.py` are orchestration and console output over methods that do not exist in the game code; they are not part of this model.
- Move enumeration, inventories, turn state, the anchor and corner/side touching rules and `place` do not exist in the code and are not modelled.
