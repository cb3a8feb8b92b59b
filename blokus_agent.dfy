/**
  The two list-handling helpers of the DQN agent (blokus_agent.py): a bounded
  first-in first-out replay memory, and the one-hot encoding of an action as a
  flattened `size * size` vector of 0s and 1s.
 */
module BlokusAgent {
  import opened Wrappers
  import opened Blokus

  /** `DQNBlokusAgent.REPLAY_MEMORY_MAX` (blokus_agent.py:64). */
  const ReplayMemoryMax: nat := 300000

  /**
    The replay memory after saving `action`: appended at the end, then the
    oldest entry dropped when the memory has grown over capacity.
   */
  function SavedReplay<A>(memory: seq<A>, action: A): (r: seq<A>)
    ensures |memory| <= ReplayMemoryMax ==> |r| <= ReplayMemoryMax
    ensures |r| > 0 && r[|r| - 1] == action
    ensures |memory| < ReplayMemoryMax ==> r == memory + [action]
    ensures |memory| >= ReplayMemoryMax ==> r == memory[1..] + [action]
  {
    var appended := memory + [action];
    if |appended| > ReplayMemoryMax then appended[1..] else appended
  }

  /** Row `x` holds a 1 in column `y` exactly when the action names cell (x, y). */
  function Marked(action: seq<Coord>, size: nat): (rows: seq<seq<int>>)
    ensures |rows| == size && forall x :: 0 <= x < size ==> |rows[x]| == size
  {
    seq(size, x requires 0 <= x => seq(size, y requires 0 <= y => if (x, y) in action then 1 else 0))
  }

  /** The rows laid end to end, as `list(chain.from_iterable(rows))`. */
  function Flatten(rows: seq<seq<int>>): seq<int>
  {
    if rows == [] then [] else Flatten(rows[..|rows| - 1]) + rows[|rows| - 1]
  }

  /** Every cell of the action lies on a `size` by `size` board. */
  predicate InRange(action: seq<Coord>, size: nat)
  {
    forall k :: 0 <= k < |action| ==> action[k].0 < size && action[k].1 < size
  }

  /** The `IndexError` raised for a cell outside the board. */
  datatype IndexError = IndexError(cell: Coord)

  /** The replay-memory and board-size state of `DQNBlokusAgent` (blokus_agent.py:54-121). */
  class DQNAgent {
    const boardSize: nat
    var replayMemory: seq<seq<Coord>>

    /** At most `ReplayMemoryMax` actions are remembered. */
    predicate Valid()
      reads this
    {
      |replayMemory| <= ReplayMemoryMax
    }

    /** The parts of `__init__` kept here: the board size (12 by default) and an empty replay memory. */
    constructor (boardSize: nat := 12)
      ensures Valid()
      ensures this.boardSize == boardSize && replayMemory == []
    {
      this.boardSize := boardSize;
      replayMemory := [];
    }

    /** `_save_replay` (blokus_agent.py:112-115). */
    method SaveReplay(action: seq<Coord>)
      modifies this`replayMemory
      ensures replayMemory == SavedReplay(old(replayMemory), action)
      ensures old(Valid()) ==> Valid()
    {
      replayMemory := replayMemory + [action];
      if |replayMemory| > ReplayMemoryMax {
        replayMemory := replayMemory[1..];
      }
    }

    /**
      `_preprocess_action` (blokus_agent.py:117-121): mark the action's cells
      in a fresh zero grid, then flatten it row by row. A cell outside the
      board raises the index error instead.
     */
    method PreprocessAction(action: seq<Coord>) returns (r: Result<seq<int>, IndexError>)
      ensures r.Success? <==> InRange(action, boardSize)
      ensures r.Success? ==> r.value == Flatten(Marked(action, boardSize))
      ensures r.Success? ==> |r.value| == boardSize * boardSize
      ensures r.Failure? ==> r.error.cell.0 >= boardSize || r.error.cell.1 >= boardSize
      ensures r.Failure? ==> exists k :: 0 <= k < |action| && action[k] == r.error.cell && InRange(action[..k], boardSize)
    {
      var n := boardSize;
      var boardState := new int[n, n]((_, _) => 0);
      for k := 0 to |action|
        invariant InRange(action[..k], n)
        invariant forall x, y :: 0 <= x < n && 0 <= y < n ==>
          boardState[x, y] == if (x, y) in action[..k] then 1 else 0
      {
        var cell := action[k];
        if cell.0 >= n || cell.1 >= n {
          assert !InRange(action, n);
          assert action[k] == cell && InRange(action[..k], n);
          return Failure(IndexError(cell));
        }
        assert action[..k + 1] == action[..k] + [cell];
        boardState[cell.0, cell.1] := 1;
      }
      assert action[..|action|] == action;
      var flat := FlattenGrid(boardState, Marked(action, n));
      OneHotLength(action, n);
      return Success(flat);
    }
  }

  /** `list(chain.from_iterable(grid))`: the rows of `grid`, which `rows` describes, end to end. */
  method FlattenGrid(grid: array2<int>, ghost rows: seq<seq<int>>) returns (flat: seq<int>)
    requires |rows| == grid.Length0
    requires forall x :: 0 <= x < |rows| ==> |rows[x]| == grid.Length1
    requires forall x, y :: 0 <= x < grid.Length0 && 0 <= y < grid.Length1 ==> grid[x, y] == rows[x][y]
    ensures flat == Flatten(rows)
  {
    flat := [];
    for x := 0 to grid.Length0
      invariant flat == Flatten(rows[..x])
    {
      for y := 0 to grid.Length1
        invariant flat == Flatten(rows[..x]) + rows[x][..y]
      {
        flat := flat + [grid[x, y]];
      }
      assert rows[..x + 1][..x] == rows[..x];
      assert rows[x][..grid.Length1] == rows[x];
    }
    assert rows[..grid.Length0] == rows;
  }

  /** Flattening `m` rows of `n` entries gives `m * n` entries, row `x` starting at `x * n`. */
  lemma {:induction false} FlattenAt(rows: seq<seq<int>>, n: nat, x: nat, y: nat)
    requires forall i :: 0 <= i < |rows| ==> |rows[i]| == n
    requires x < |rows| && y < n
    ensures |Flatten(rows)| == |rows| * n
    ensures x * n + y < |Flatten(rows)| && Flatten(rows)[x * n + y] == rows[x][y]
  {
    var last := |rows| - 1;
    var prefix := rows[..last];
    FlattenLength(rows, n);
    FlattenLength(prefix, n);
    assert Flatten(rows) == Flatten(prefix) + rows[last];
    if x < last {
      FlattenAt(prefix, n, x, y);
    } else {
      assert x * n + y == |Flatten(prefix)| + y;
    }
  }

  /** Flattening `m` rows of `n` entries gives `m * n` entries. */
  lemma {:induction false} FlattenLength(rows: seq<seq<int>>, n: nat)
    requires forall i :: 0 <= i < |rows| ==> |rows[i]| == n
    ensures |Flatten(rows)| == |rows| * n
  {
    if rows != [] {
      var last := |rows| - 1;
      FlattenLength(rows[..last], n);
      assert |Flatten(rows)| == last * n + n;
      MulSucc(last, n);
    }
  }

  lemma MulSucc(m: nat, n: nat)
    ensures (m + 1) * n == m * n + n
  {
  }

  /** The encoding of any action has `size * size` entries. */
  lemma OneHotLength(action: seq<Coord>, size: nat)
    ensures |Flatten(Marked(action, size))| == size * size
  {
    FlattenLength(Marked(action, size), size);
  }

  /** The encoding has `size * size` entries; entry `x * size + y` is 1 iff the action names (x, y). */
  lemma OneHotAt(action: seq<Coord>, size: nat, x: nat, y: nat)
    requires x < size && y < size
    ensures |Flatten(Marked(action, size))| == size * size
    ensures Flatten(Marked(action, size))[x * size + y] == if (x, y) in action then 1 else 0
  {
    FlattenAt(Marked(action, size), size, x, y);
  }

  /** Every entry of the flattened rows is an entry of some row. */
  lemma {:induction false} FlattenBinary(rows: seq<seq<int>>)
    requires forall i, j :: 0 <= i < |rows| && 0 <= j < |rows[i]| ==> rows[i][j] in {0, 1}
    ensures forall k :: 0 <= k < |Flatten(rows)| ==> Flatten(rows)[k] in {0, 1}
  {
    if rows != [] {
      FlattenBinary(rows[..|rows| - 1]);
    }
  }

  /** Every entry of the encoding is 0 or 1. */
  lemma OneHotBinary(action: seq<Coord>, size: nat)
    ensures forall k :: 0 <= k < |Flatten(Marked(action, size))| ==>
      Flatten(Marked(action, size))[k] in {0, 1}
  {
    FlattenBinary(Marked(action, size));
  }

  /** Two actions naming the same cells, in any order and with any repetition, encode alike. */
  lemma OneHotIgnoresOrderAndRepetition(a: seq<Coord>, b: seq<Coord>, size: nat)
    requires forall c :: c in a <==> c in b
    ensures Flatten(Marked(a, size)) == Flatten(Marked(b, size))
  {
    var ma, mb := Marked(a, size), Marked(b, size);
    forall x | 0 <= x < size
      ensures ma[x] == mb[x]
    {
      assert forall y :: 0 <= y < size ==> ((x, y) in a <==> (x, y) in b);
    }
    assert ma == mb;
  }
}
