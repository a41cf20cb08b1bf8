/**
 * The classic sliding puzzle: an n x n grid stored row by row, tile numbers
 * 1..n²-1 and the blank as 0. A tile moves by trading places with the blank
 * when the two share a side.
 */
module Puzzle {
  import opened JsMath

  datatype PuzzleState = PuzzleState(size: nat, tiles: seq<int>, emptyIndex: int)

  /** The shape every state of a game has: n² slots and `emptyIndex` pointing at the blank. */
  predicate WellFormed(s: PuzzleState)
  {
    && |s.tiles| == s.size * s.size
    && 0 <= s.emptyIndex < |s.tiles|
    && s.tiles[s.emptyIndex] == 0
  }

  /** `createSolvedState`: tiles 1..n²-1 in order and the blank in the last slot. */
  function CreateSolvedState(size: nat): (s: PuzzleState)
    ensures s.size == size && |s.tiles| == size * size
  {
    var total := size * size;
    PuzzleState(size, seq(total, i => if i == total - 1 then 0 else i + 1), total - 1)
  }

  /**
   * `isSolved`, as a reference definition: slots 0..n²-2 hold 1..n²-1 and the
   * last slot holds the blank. A slot past the end of `tiles` reads as
   * `undefined` in JavaScript, which equals no number, hence the bounds.
   */
  predicate Solved(s: PuzzleState)
  {
    var total := s.size * s.size;
    && (forall i :: 0 <= i < total - 1 ==> i < |s.tiles| && s.tiles[i] == i + 1)
    && 0 <= total - 1 < |s.tiles|
    && s.tiles[total - 1] == 0
  }

  /** The solved state is well formed, solved, and holds every number 0..n²-1 exactly once. */
  lemma SolvedStateIsSolved(size: nat)
    requires size >= 1
    ensures var s := CreateSolvedState(size);
      && WellFormed(s)
      && Solved(s)
      && s.emptyIndex == size * size - 1
      && (forall i :: 0 <= i < |s.tiles| ==> 0 <= s.tiles[i] < size * size)
      && (forall i, j :: 0 <= i < j < |s.tiles| ==> s.tiles[i] != s.tiles[j])
  {
    var total := size * size;
    MulAtLeast(size, size);
    var s := CreateSolvedState(size);
    assert forall i :: 0 <= i < total ==> s.tiles[i] == if i == total - 1 then 0 else i + 1;
  }

  /** A well-formed state is solved exactly when it is the solved state of its size. */
  lemma SolvedIffCanonical(s: PuzzleState)
    requires WellFormed(s)
    ensures Solved(s) <==> s == CreateSolvedState(s.size)
  {
    var total := s.size * s.size;
    var c := CreateSolvedState(s.size);
    assert forall i :: 0 <= i < total ==> c.tiles[i] == if i == total - 1 then 0 else i + 1;
    if Solved(s) {
      assert s.tiles == c.tiles;
    }
    if s == c {
      assert Solved(s);
    }
  }

  /** `isSolved`: checks the slots one by one, then the last. */
  method IsSolved(s: PuzzleState) returns (solved: bool)
    ensures solved == Solved(s)
  {
    var total := s.size * s.size;
    var i := 0;
    while i < total - 1
      invariant 0 <= i
      invariant i <= total - 1 || total == 0
      invariant forall j :: 0 <= j < i ==> j < |s.tiles| && s.tiles[j] == j + 1
    {
      if !(i < |s.tiles| && s.tiles[i] == i + 1) {
        return false;
      }
      i := i + 1;
    }
    return 0 <= total - 1 < |s.tiles| && s.tiles[total - 1] == 0;
  }

  /**
   * `indexToRowCol`: `Math.floor(index / size)` and JavaScript's
   * `index % size`. On a slot index it is the slot's row and column.
   */
  function IndexToRowCol(index: int, size: nat): (rc: (int, int))
    requires size > 0
    ensures index >= 0 ==> 0 <= rc.1 < size && rc.0 >= 0 && rc.0 * size + rc.1 == index
    ensures index < 0 ==> rc.0 < 0
  {
    DivSign(index, size);
    var row, col := index / size, TruncRem(index, size);
    assert index == row * size + index % size;
    (row, col)
  }

  /** `isAdjacent`: the two slots' rows differ by one in the same column, or their columns by one in the same row. */
  function IsAdjacent(a: int, b: int, size: nat): bool
  {
    // A size of 0 makes `isAdjacent` divide by zero; every comparison with NaN is false.
    if size == 0 then false
    else
      var (rowA, colA) := IndexToRowCol(a, size);
      var (rowB, colB) := IndexToRowCol(b, size);
      var rowDiff, colDiff := Abs(rowA - rowB), Abs(colA - colB);
      (rowDiff == 1 && colDiff == 0) || (rowDiff == 0 && colDiff == 1)
  }

  /** Adjacency is symmetric and no slot is adjacent to itself. */
  lemma AdjacentSymmetricIrreflexive(a: int, b: int, size: nat)
    ensures IsAdjacent(a, b, size) == IsAdjacent(b, a, size)
    ensures !IsAdjacent(a, a, size)
  {
  }

  /** The slot `size` further on is in the next row, same column. */
  lemma NextRow(a: nat, size: nat)
    requires size > 0
    ensures (a + size) / size == a / size + 1 && (a + size) % size == a % size
  {
    assert a == a / size * size + a % size;
    assert (a / size + 1) * size == a / size * size + size;
    DivModUnique(a + size, size, a / size + 1, a % size);
  }

  /** The slot after `a` is in the same row unless `a` ends its row, and then it starts the next. */
  lemma NextSlot(a: nat, size: nat)
    requires size > 0
    ensures a % size + 1 < size ==> (a + 1) / size == a / size && (a + 1) % size == a % size + 1
    ensures a % size + 1 == size ==> (a + 1) % size == 0
  {
    assert a == a / size * size + a % size;
    if a % size + 1 < size {
      DivModUnique(a + 1, size, a / size, a % size + 1);
    } else {
      assert (a / size + 1) * size == a / size * size + size;
      DivModUnique(a + 1, size, a / size + 1, 0);
    }
  }

  /** Slots in consecutive rows and the same column are `size` apart. */
  lemma RowsApart(a: nat, b: nat, size: nat)
    requires size > 0
    requires b / size == a / size + 1 && b % size == a % size
    ensures b == a + size
  {
    assert a == a / size * size + a % size;
    assert b == b / size * size + b % size;
    assert (a / size + 1) * size == a / size * size + size;
  }

  /** Slots in the same row and consecutive columns are 1 apart. */
  lemma ColumnsApart(a: nat, b: nat, size: nat)
    requires size > 0
    requires b / size == a / size && b % size == a % size + 1
    ensures b == a + 1
  {
    assert a == a / size * size + a % size;
    assert b == b / size * size + b % size;
  }

  /**
   * On slot indices, adjacency is a plain relation on the numbers: one row
   * apart (`size` apart), or one apart without a row break between them.
   */
  lemma AdjacentIff(a: nat, b: nat, size: nat)
    requires size > 0
    ensures IsAdjacent(a, b, size) <==>
      || b == a + size || a == b + size
      || (b == a + 1 && b % size != 0)
      || (a == b + 1 && a % size != 0)
  {
    NextRow(a, size);
    NextRow(b, size);
    NextSlot(a, size);
    NextSlot(b, size);
    if a / size + 1 == b / size && a % size == b % size {
      RowsApart(a, b, size);
    }
    if b / size + 1 == a / size && a % size == b % size {
      RowsApart(b, a, size);
    }
    if a / size == b / size && a % size + 1 == b % size {
      ColumnsApart(a, b, size);
    }
    if a / size == b / size && b % size + 1 == a % size {
      ColumnsApart(b, a, size);
    }
  }

  /** `getMovableIndexes`: every slot next to the blank, in ascending order. */
  method GetMovableIndexes(s: PuzzleState) returns (moves: seq<int>)
    ensures forall k :: 0 <= k < |moves| ==> 0 <= moves[k] < |s.tiles| && IsAdjacent(moves[k], s.emptyIndex, s.size)
    ensures forall i :: 0 <= i < |s.tiles| && IsAdjacent(i, s.emptyIndex, s.size) ==> i in moves
    ensures forall j, k :: 0 <= j < k < |moves| ==> moves[j] < moves[k]
  {
    moves := [];
    for i := 0 to |s.tiles|
      invariant forall k :: 0 <= k < |moves| ==> 0 <= moves[k] < i && IsAdjacent(moves[k], s.emptyIndex, s.size)
      invariant forall m :: 0 <= m < i && IsAdjacent(m, s.emptyIndex, s.size) ==> m in moves
      invariant forall j, k :: 0 <= j < k < |moves| ==> moves[j] < moves[k]
    {
      if IsAdjacent(i, s.emptyIndex, s.size) {
        moves := moves + [i];
      }
    }
  }

  /**
   * `moveTile`: a tile next to the blank trades places with it in a copy of
   * the state; any other index leaves the state as it is. The input is a
   * value, so it is never changed.
   */
  function MoveTile(s: PuzzleState, index: int): (r: PuzzleState)
    requires 0 <= index < |s.tiles|
    requires 0 <= s.emptyIndex < |s.tiles|
    ensures !IsAdjacent(index, s.emptyIndex, s.size) ==> r == s
    ensures IsAdjacent(index, s.emptyIndex, s.size) ==>
      && r.size == s.size
      && |r.tiles| == |s.tiles|
      && r.emptyIndex == index
      && r.tiles[s.emptyIndex] == s.tiles[index]
      && r.tiles[index] == 0
      && forall j :: 0 <= j < |s.tiles| && j != index && j != s.emptyIndex ==> r.tiles[j] == s.tiles[j]
    ensures r.emptyIndex != s.emptyIndex <==> IsAdjacent(index, s.emptyIndex, s.size)
  {
    if !IsAdjacent(index, s.emptyIndex, s.size) then s
    else
      AdjacentSymmetricIrreflexive(index, index, s.size);
      var tiles := s.tiles[s.emptyIndex := s.tiles[index]][index := 0];
      PuzzleState(s.size, tiles, index)
  }

  /** A move keeps the state well formed and the tiles a permutation of what they were. */
  lemma MovePreservesTiles(s: PuzzleState, index: int)
    requires WellFormed(s)
    requires 0 <= index < |s.tiles|
    ensures WellFormed(MoveTile(s, index))
    ensures multiset(MoveTile(s, index).tiles) == multiset(s.tiles)
  {
    if IsAdjacent(index, s.emptyIndex, s.size) {
      var e := s.emptyIndex;
      var t := s.tiles[e := s.tiles[index]];
      assert multiset(t) == multiset(s.tiles) - multiset{0} + multiset{s.tiles[index]};
      assert t[index] == s.tiles[index];
      assert multiset(t[index := 0]) == multiset(t) - multiset{s.tiles[index]} + multiset{0};
      assert MoveTile(s, index).tiles == t[index := 0];
    }
  }

  /** A legal move is undone by moving the tile back into the slot that was blank. */
  lemma MoveReversible(s: PuzzleState, index: int)
    requires WellFormed(s)
    requires 0 <= index < |s.tiles|
    requires IsAdjacent(index, s.emptyIndex, s.size)
    ensures MoveTile(MoveTile(s, index), s.emptyIndex) == s
  {
    AdjacentSymmetricIrreflexive(index, s.emptyIndex, s.size);
    var r := MoveTile(s, index);
    assert MoveTile(r, s.emptyIndex).tiles == s.tiles;
  }

  /** The state reached by clicking the slots of `path` in turn. */
  function Replay(s: PuzzleState, path: seq<int>): (r: PuzzleState)
    requires WellFormed(s)
    requires forall k :: 0 <= k < |path| ==> 0 <= path[k] < |s.tiles|
    ensures WellFormed(r) && r.size == s.size && multiset(r.tiles) == multiset(s.tiles)
    decreases |path|
  {
    if path == [] then s
    else
      MovePreservesTiles(s, path[0]);
      Replay(MoveTile(s, path[0]), path[1..])
  }

  /** Every click of `path` is on a slot next to the blank of the state it acts on. */
  predicate LegalClicks(s: PuzzleState, path: seq<int>)
    requires WellFormed(s)
    requires forall k :: 0 <= k < |path| ==> 0 <= path[k] < |s.tiles|
  {
    forall k :: 0 <= k < |path| ==> IsAdjacent(path[k], Replay(s, path[..k]).emptyIndex, s.size)
  }

  /** A legal click after legal clicks makes legal clicks. */
  lemma LegalClicksAppend(s: PuzzleState, path: seq<int>, index: int)
    requires WellFormed(s)
    requires forall k :: 0 <= k < |path| ==> 0 <= path[k] < |s.tiles|
    requires 0 <= index < |s.tiles|
    requires LegalClicks(s, path)
    requires IsAdjacent(index, Replay(s, path).emptyIndex, s.size)
    ensures LegalClicks(s, path + [index])
  {
    var path' := path + [index];
    assert path'[..|path|] == path;
    forall k | 0 <= k < |path|
      ensures IsAdjacent(path'[k], Replay(s, path'[..k]).emptyIndex, s.size)
    {
      assert path'[..k] == path[..k];
    }
  }

  /** The elements of `xs` other than `v`, in order (the shuffle's `filter`). */
  function Without(xs: seq<int>, v: int): (r: seq<int>)
    ensures forall k :: 0 <= k < |r| ==> r[k] in xs && r[k] != v
    ensures forall k :: 0 <= k < |xs| && xs[k] != v ==> xs[k] in r
  {
    if xs == [] then []
    else if xs[0] == v then Without(xs[1..], v)
    else [xs[0]] + Without(xs[1..], v)
  }

  /**
   * `shuffleByMoves` with its random draws given as `choices`: draw `i`
   * picks entry `choices[i] % |list|` of the list it draws from, which covers
   * every index `Math.floor(Math.random() * list.length)` can produce. Each
   * round moves a tile next to the blank, preferring one that does not undo
   * the previous round. The result is reached from the input by clicks, each
   * on a slot next to the blank of the state it acts on.
   */
  method ShuffleByMoves(s: PuzzleState, moves: nat, choices: seq<nat>) returns (r: PuzzleState, ghost path: seq<int>)
    requires WellFormed(s)
    requires |choices| >= moves
    ensures forall k :: 0 <= k < |path| ==> 0 <= path[k] < |s.tiles|
    ensures LegalClicks(s, path)
    ensures r == Replay(s, path)
    ensures WellFormed(r) && r.size == s.size && multiset(r.tiles) == multiset(s.tiles)
  {
    r := s;
    path := [];
    var lastEmpty := r.emptyIndex;
    for i := 0 to moves
      invariant forall k :: 0 <= k < |path| ==> 0 <= path[k] < |s.tiles|
      invariant LegalClicks(s, path)
      invariant r == Replay(s, path)
    {
      var movable := GetMovableIndexes(r);
      var candidates := Without(movable, lastEmpty);
      var list := if |candidates| > 0 then candidates else movable;
      lastEmpty := r.emptyIndex;
      if |list| > 0 {
        var choice := list[choices[i] % |list|];
        assert choice in movable;
        assert 0 <= choice < |s.tiles|;
        assert IsAdjacent(choice, r.emptyIndex, s.size);
        ReplayAppend(s, path, choice);
        LegalClicksAppend(s, path, choice);
        r := MoveTile(r, choice);
        path := path + [choice];
      }
    }
  }

  /** Replaying one more click is one more move. */
  lemma {:induction false} ReplayAppend(s: PuzzleState, path: seq<int>, index: int)
    requires WellFormed(s)
    requires forall k :: 0 <= k < |path| ==> 0 <= path[k] < |s.tiles|
    requires 0 <= index < |s.tiles|
    ensures Replay(s, path + [index]) == MoveTile(Replay(s, path), index)
    decreases |path|
  {
    if path == [] {
      assert [index][1..] == [];
    } else {
      MovePreservesTiles(s, path[0]);
      assert (path + [index])[1..] == path[1..] + [index];
      ReplayAppend(MoveTile(s, path[0]), path[1..], index);
    }
  }
}
