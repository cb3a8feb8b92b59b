/**
  The Blokus board and the placement validator (game/blokus.py).

  A board is a fixed square grid of square data that is built empty and read
  through a bounds-checked accessor. A placement is a list of 3 to 5 cells in
  which every cell has some other cell of the list as an orthogonal neighbour;
  building a placement from any other list fails with an invalid-placement
  error that carries the board state and the list it was given.
 */
module Blokus {
  import opened Wrappers
  import opened Distance

  /** The content of one square: empty, or one of three player or enemy marks. */
  datatype SquareData = Empty | Player1 | Player2 | Player3 | Enemy1 | Enemy2 | Enemy3
  {
    /** The value the enumeration assigns to each member (game/blokus.py:10-18). */
    function Value(): (v: int)
      ensures -3 <= v <= 3
      ensures v == 0 <==> this == Empty
      ensures v > 0 <==> this in {Player1, Player2, Player3}
    {
      match this
      case Empty => 0
      case Player1 => 1
      case Player2 => 2
      case Player3 => 3
      case Enemy1 => -1
      case Enemy2 => -2
      case Enemy3 => -3
    }
  }

  /** Lookup of an enumeration member by its value, as `BlokusSquareData(v)` does. */
  function SquareDataOf(v: int): (r: Option<SquareData>)
    ensures r.Some? <==> -3 <= v <= 3
    ensures r.Some? ==> r.value.Value() == v
  {
    match v
    case 0 => Some(Empty)
    case 1 => Some(Player1)
    case 2 => Some(Player2)
    case 3 => Some(Player3)
    case -1 => Some(Enemy1)
    case -2 => Some(Enemy2)
    case -3 => Some(Enemy3)
    case _ => None
  }

  /** Every member is found again from its value, so the values are distinct. */
  lemma SquareDataValueRoundTrip(s: SquareData)
    ensures SquareDataOf(s.Value()) == Some(s)
  {
  }

  /** A square of the board, as (x, y); negative coordinates are not modelled. */
  type Coord = (nat, nat)

  /** The error `get_placement_at` raises for an out-of-range coordinate. */
  datatype OutOfRangeError = OutOfRange(x: nat, y: nat)

  /**
    A grid of `size` rows of `size` empty squares. Every row is its own
    sequence; the Python code builds `[[EMPTY] * size] * size`, whose rows are one
    shared list, which no read can observe because nothing writes a square.
   */
  function EmptyGrid(size: nat): (g: seq<seq<SquareData>>)
    ensures |g| == size
    ensures forall x :: 0 <= x < size ==> |g[x]| == size
    ensures forall x, y :: 0 <= x < size && 0 <= y < size ==> g[x][y] == Empty
  {
    seq(size, _ => seq(size, _ => Empty))
  }

  /** The board of a game (game/blokus.py:21-45); it is never changed once built. */
  class Board {
    const size: nat
    const grid: seq<seq<SquareData>>

    /** `grid` is `size` rows of `size` squares each. */
    predicate Valid()
    {
      |grid| == size && forall x :: 0 <= x < size ==> |grid[x]| == size
    }

    /** A board of `size` by `size` squares, all of them empty; 12 when no size is given. */
    constructor (size: nat := 12)
      ensures Valid()
      ensures this.size == size && GetSize() == size
      ensures forall x: nat, y: nat :: x < size && y < size ==> GetPlacementAt(x, y) == Success(Empty)
    {
      this.size := size;
      grid := EmptyGrid(size);
    }

    /** The square at (x, y), or the out-of-range error when either coordinate is too large. */
    function GetPlacementAt(x: nat, y: nat): (r: Result<SquareData, OutOfRangeError>)
      requires Valid()
      ensures r.Failure? <==> x >= size || y >= size
      ensures r.Failure? ==> r.error == OutOfRange(x, y)
      ensures r.Success? ==> r.value == grid[x][y]
    {
      if x >= size || y >= size then Failure(OutOfRange(x, y)) else Success(grid[x][y])
    }

    /** The side length of the board, which is the number of rows of its grid. */
    function GetSize(): (r: nat)
      requires Valid()
      ensures r == |grid| && forall x :: 0 <= x < |grid| ==> |grid[x]| == r
    {
      size
    }
  }

  /** A validated placement: its cells sorted by x, and the board state it was made against. */
  datatype Placement = Placement(cells: seq<Coord>, oldBoardState: Board)

  /** The error raised for a rejected list of cells; it carries the board and the list as given. */
  datatype InvalidPlacementError = InvalidPlacementError(boardState: Board, placement: seq<Coord>)

  /** Cell `i` of `p` has another cell of `p`, at a different index, at Manhattan distance 1. */
  predicate HasNeighbourAt(p: seq<Coord>, i: int)
    requires 0 <= i < |p|
  {
    exists j :: 0 <= j < |p| && j != i && Manhattan(p[i], p[j]) == 1
  }

  /** The continuity test of the program: every cell has such a neighbour. */
  predicate Continuous(p: seq<Coord>)
  {
    forall i :: 0 <= i < |p| ==> HasNeighbourAt(p, i)
  }

  /** What the validator accepts: 3 to 5 cells, continuous. */
  predicate Acceptable(p: seq<Coord>)
  {
    3 <= |p| <= 5 && Continuous(p)
  }

  /** The nested search of `_is_placement_continuous` (game/blokus.py:74-91). */
  method IsPlacementContinuous(placement: seq<Coord>) returns (ok: bool)
    ensures ok <==> Continuous(placement)
  {
    var placementNum := |placement|;
    for i := 0 to placementNum
      invariant forall k :: 0 <= k < i ==> HasNeighbourAt(placement, k)
    {
      var checkTargetCell := placement[i];
      var isAdjacentFound := false;
      for j := 0 to placementNum
        invariant !isAdjacentFound
        invariant forall m :: 0 <= m < j && m != i ==> Manhattan(checkTargetCell, placement[m]) != 1
      {
        if j == i {
          continue;
        }
        if Manhattan(checkTargetCell, placement[j]) == 1 {
          isAdjacentFound := true;
          break;
        }
      }
      if !isAdjacentFound {
        assert !HasNeighbourAt(placement, i);
        return false;
      }
    }
    return true;
  }

  /** `_is_placement_valid` (game/blokus.py:67-72): the size bound, then continuity. */
  method IsPlacementValid(placement: seq<Coord>) returns (ok: bool)
    ensures ok <==> 3 <= |placement| <= 5 && Continuous(placement)
    ensures |placement| < 3 || |placement| > 5 ==> !ok
  {
    var placementNum := |placement|;
    if placementNum < 3 || placementNum > 5 {
      return false;
    }
    ok := IsPlacementContinuous(placement);
  }

  /** All cells of `s` in non-decreasing order of x. */
  predicate SortedByX(s: seq<Coord>)
  {
    forall i :: 0 <= i < |s| - 1 ==> s[i].0 <= s[i + 1].0
  }

  /** Puts `c` before the first cell of `s` whose x is not smaller. */
  function InsertByX(c: Coord, s: seq<Coord>): (r: seq<Coord>)
    ensures multiset(r) == multiset(s) + multiset{c}
  {
    if s == [] then [c]
    else if c.0 <= s[0].0 then [c] + s
    else
      assert s == [s[0]] + s[1..];
      [s[0]] + InsertByX(c, s[1..])
  }

  /** Inserting into a sorted list keeps it sorted. */
  lemma {:induction false} InsertByXSorted(c: Coord, s: seq<Coord>)
    requires SortedByX(s)
    ensures SortedByX(InsertByX(c, s))
  {
    if s != [] && c.0 > s[0].0 {
      var rest := InsertByX(c, s[1..]);
      InsertByXSorted(c, s[1..]);
      assert rest[0] == c || rest[0] == s[1];
      assert InsertByX(c, s) == [s[0]] + rest;
    }
  }

  /**
    The sort by x of line 61, taken as intended: an insertion sort that keeps
    cells with equal x in their given order.
   */
  function SortByX(s: seq<Coord>): (r: seq<Coord>)
    ensures multiset(r) == multiset(s)
    ensures SortedByX(r)
  {
    if s == [] then []
    else
      assert s == [s[0]] + s[1..];
      InsertByXSorted(s[0], SortByX(s[1..]));
      InsertByX(s[0], SortByX(s[1..]))
  }

  /**
    `BlokusPlacement.__init__` (game/blokus.py:54-65): sort the cells, keep
    the board state, and fail exactly when the validator rejects the cells.
   */
  method NewPlacement(placementArray: seq<Coord>, boardState: Board)
    returns (r: Result<Placement, InvalidPlacementError>)
    ensures r.Failure? <==> !Acceptable(placementArray)
    ensures r.Failure? ==> r.error == InvalidPlacementError(boardState, placementArray)
    ensures r.Success? ==> r.value == Placement(SortByX(placementArray), boardState)
  {
    var sorted := SortByX(placementArray);
    AcceptablePermutationInvariant(sorted, placementArray);
    var placement := Placement(sorted, boardState);
    var valid := IsPlacementValid(placement.cells);
    if !valid {
      return Failure(InvalidPlacementError(boardState, placementArray));
    }
    return Success(placement);
  }

  /** Some square of `cells` is at Manhattan distance 1 from `c`. */
  predicate HasNeighbourIn(c: Coord, cells: seq<Coord>)
  {
    exists d :: d in cells && Manhattan(c, d) == 1
  }

  /**
    Since no cell is at distance 1 from itself, the index condition `j != i`
    is implied: continuity only asks that every cell has a neighbour in the list.
   */
  lemma ContinuousIffEveryCellHasNeighbour(p: seq<Coord>)
    ensures Continuous(p) <==> forall c :: c in p ==> HasNeighbourIn(c, p)
  {
    if Continuous(p) {
      forall c | c in p
        ensures HasNeighbourIn(c, p)
      {
        var i :| 0 <= i < |p| && p[i] == c;
        assert HasNeighbourAt(p, i);
        var j :| 0 <= j < |p| && j != i && Manhattan(p[i], p[j]) == 1;
        assert p[j] in p;
      }
    }
    if forall c :: c in p ==> HasNeighbourIn(c, p) {
      forall i | 0 <= i < |p|
        ensures HasNeighbourAt(p, i)
      {
        assert p[i] in p;
        var d :| d in p && Manhattan(p[i], d) == 1;
        var j :| 0 <= j < |p| && p[j] == d;
        assert j != i;
      }
    }
  }

  /** The verdict does not depend on the order of the cells, so sorting cannot change it. */
  lemma AcceptablePermutationInvariant(p: seq<Coord>, q: seq<Coord>)
    requires multiset(p) == multiset(q)
    ensures Acceptable(p) <==> Acceptable(q)
  {
    assert |p| == |multiset(p)| == |multiset(q)| == |q|;
    assert forall c :: c in p <==> c in q by {
      forall c
        ensures c in p <==> c in q
      {
        assert c in p <==> c in multiset(p);
        assert c in q <==> c in multiset(q);
      }
    }
    ContinuousIffEveryCellHasNeighbour(p);
    ContinuousIffEveryCellHasNeighbour(q);
  }

  /** A walk through `cells` whose consecutive squares are orthogonal neighbours. */
  ghost predicate IsPathIn(path: seq<Coord>, cells: set<Coord>)
  {
    && |path| >= 1
    && (forall k :: 0 <= k < |path| ==> path[k] in cells)
    && (forall k :: 0 <= k < |path| - 1 ==> Manhattan(path[k], path[k + 1]) == 1)
  }

  /** Some walk inside `cells` leads from `c` to `d`. */
  ghost predicate Joined(cells: set<Coord>, c: Coord, d: Coord)
  {
    exists path :: IsPathIn(path, cells) && path[0] == c && path[|path| - 1] == d
  }

  /** Edge-connectedness: any two cells of the set are joined by a walk inside it. */
  ghost predicate EdgeConnected(cells: set<Coord>)
  {
    forall c, d :: c in cells && d in cells ==> Joined(cells, c, d)
  }

  /** Every edge-connected list of 3 to 5 distinct cells is accepted. */
  lemma EdgeConnectedIsAccepted(p: seq<Coord>)
    requires 3 <= |p| <= 5
    requires forall i, j :: 0 <= i < j < |p| ==> p[i] != p[j]
    requires EdgeConnected(set c | c in p)
    ensures Acceptable(p)
  {
    var cells := set c | c in p;
    forall i | 0 <= i < |p|
      ensures HasNeighbourAt(p, i)
    {
      var other := if i == 0 then 1 else 0;
      assert p[i] in cells && p[other] in cells;
      assert Joined(cells, p[i], p[other]);
      var path :| IsPathIn(path, cells) && path[0] == p[i] && path[|path| - 1] == p[other];
      assert |path| >= 2;
      assert path[1] in cells;
      var j :| 0 <= j < |p| && p[j] == path[1];
      assert Manhattan(p[i], p[j]) == 1;
    }
  }

  /** A walk that starts in a part of `cells` closed under adjacency never leaves it. */
  lemma {:induction false} PathStaysInClosedPart(path: seq<Coord>, cells: set<Coord>, part: set<Coord>)
    requires IsPathIn(path, cells)
    requires path[0] in part
    requires forall a, b :: a in part && b in cells && Manhattan(a, b) == 1 ==> b in part
    ensures path[|path| - 1] in part
  {
    if |path| > 1 {
      var prefix := path[..|path| - 1];
      assert IsPathIn(prefix, cells) by {
        forall k | 0 <= k < |prefix| - 1
          ensures Manhattan(prefix[k], prefix[k + 1]) == 1
        {
          assert prefix[k] == path[k] && prefix[k + 1] == path[k + 1];
        }
      }
      PathStaysInClosedPart(prefix, cells, part);
      assert Manhattan(path[|path| - 2], path[|path| - 1]) == 1;
    }
  }

  /** Two dominoes far apart: (0, 0), (0, 1) and (5, 5), (5, 6). */
  const TwoDominoes: seq<Coord> := [(0, 0), (0, 1), (5, 5), (5, 6)]

  lemma TwoDominoesAcceptable()
    ensures Acceptable(TwoDominoes)
  {
    var p := TwoDominoes;
    assert HasNeighbourAt(p, 0) by { assert Manhattan(p[0], p[1]) == 1; }
    assert HasNeighbourAt(p, 1) by { assert Manhattan(p[1], p[0]) == 1; }
    assert HasNeighbourAt(p, 2) by { assert Manhattan(p[2], p[3]) == 1; }
    assert HasNeighbourAt(p, 3) by { assert Manhattan(p[3], p[2]) == 1; }
  }

  lemma TwoDominoesNotConnected()
    ensures !EdgeConnected(set c | c in TwoDominoes)
  {
    var cells := set c | c in TwoDominoes;
    assert cells == {(0, 0), (0, 1), (5, 5), (5, 6)};
    var part: set<Coord> := {(0, 0), (0, 1)};
    forall a, b | a in part && b in cells && b !in part
      ensures Manhattan(a, b) != 1
    {
      assert a.0 == 0 && b.0 == 5;
    }
    if Joined(cells, (0, 0), (5, 5)) {
      var path :| IsPathIn(path, cells) && path[0] == (0, 0) && path[|path| - 1] == (5, 5);
      PathStaysInClosedPart(path, cells, part);
      assert false;
    }
    assert (0, 0) in cells && (5, 5) in cells;
  }

  /**
    The continuity test is weaker than edge-connectedness: two dominoes far
    apart are accepted, although no walk joins them.
   */
  lemma DisjointDominoesAccepted()
    ensures Acceptable(TwoDominoes) && !EdgeConnected(set c | c in TwoDominoes)
  {
    TwoDominoesAcceptable();
    TwoDominoesNotConnected();
  }

  /** Duplicates are not rejected: a list of three cells naming only two squares is accepted. */
  lemma RepeatedCellAccepted()
    ensures var p: seq<Coord> := [(0, 0), (0, 0), (0, 1)];
      Acceptable(p) && |set c | c in p| == 2
  {
    var p: seq<Coord> := [(0, 0), (0, 0), (0, 1)];
    assert HasNeighbourAt(p, 0) by { assert Manhattan(p[0], p[2]) == 1; }
    assert HasNeighbourAt(p, 1) by { assert Manhattan(p[1], p[2]) == 1; }
    assert HasNeighbourAt(p, 2) by { assert Manhattan(p[2], p[0]) == 1; }
    assert (set c | c in p) == {(0, 0), (0, 1)};
  }
}
