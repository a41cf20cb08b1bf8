/**
 * The level-mode board engine (`LevelModel`): a `boardW` x `boardH` grid, a
 * table of pieces keyed by id, the targets and the obstacle cells.
 *
 * The first half of the module states the engine's rules as functions on a
 * `Board` value; the class `LevelModel` at the end holds the mutable piece
 * table and implements the TypeScript class's queries and its one mutation, each
 * proved against those functions.
 */
module LevelBoard {
  import opened Wrappers
  import opened LevelTypes

  /** `directionVectors`: one cell along exactly one axis. */
  function Vector(d: Direction): (v: Coord)
    ensures (v.x == 0) != (v.y == 0)
    ensures -1 <= v.x <= 1 && -1 <= v.y <= 1
  {
    match d
    case Up => Coord(0, -1)
    case Down => Coord(0, 1)
    case Left => Coord(-1, 0)
    case Right => Coord(1, 0)
  }

  /** The cell `k` steps from `c` along `d`, computed as `getMaxSteps` and `canMove` do: `c + vector(d) * k`. */
  function Step(c: Coord, d: Direction, k: int): Coord
  {
    var v := Vector(d);
    Coord(c.x + v.x * k, c.y + v.y * k)
  }

  lemma StepAdd(c: Coord, d: Direction, i: int, j: int)
    ensures Step(Step(c, d, i), d, j) == Step(c, d, i + j)
  {
    match d
    case Up =>
    case Down =>
    case Left =>
    case Right =>
  }

  /**
   * What a `LevelModel` holds: the dimensions of its level, the pieces in the
   * insertion order of the engine's `Map`, the targets and the obstacle cells.
   * `LevelModel` keys obstacles by the string `${x},${y}`, which is injective on
   * integer pairs, so a set of coordinates holds the same information.
   */
  datatype Board = Board(
    boardW: int,
    boardH: int,
    pieces: seq<Piece>,
    targets: seq<Target>,
    obstacles: set<Coord>)

  function ObstacleCells(obstacles: seq<Obstacle>): (cells: set<Coord>)
    ensures forall i :: 0 <= i < |obstacles| ==> obstacles[i].pos in cells
    ensures forall c :: c in cells ==> exists i :: 0 <= i < |obstacles| && obstacles[i].pos == c
  {
    set i | 0 <= i < |obstacles| :: obstacles[i].pos
  }

  /** The board the constructor builds from a level definition. */
  function InitialBoard(level: LevelDefinition): Board
  {
    Board(level.boardW, level.boardH, level.pieces, level.targets, ObstacleCells(level.obstacles))
  }

  /** `isInside`. */
  predicate Inside(b: Board, c: Coord)
  {
    0 <= c.x < b.boardW && 0 <= c.y < b.boardH
  }

  /**
   * The class invariant: ids are distinct, every piece is on the board and
   * off the obstacles, and no two pieces share a cell.
   */
  predicate ValidBoard(b: Board)
  {
    && (forall i, j :: 0 <= i < j < |b.pieces| ==>
          b.pieces[i].id != b.pieces[j].id && b.pieces[i].pos != b.pieces[j].pos)
    && (forall i :: 0 <= i < |b.pieces| ==>
          Inside(b, b.pieces[i].pos) && b.pieces[i].pos !in b.obstacles)
  }

  /**
   * A well-formed level: the board it yields is valid and every target and
   * obstacle lies on the board. `LevelModel` does not check this; it is the
   * caller's duty.
   */
  predicate WellFormedLevel(level: LevelDefinition)
  {
    && ValidBoard(InitialBoard(level))
    && (forall i :: 0 <= i < |level.targets| ==> Inside(InitialBoard(level), level.targets[i].pos))
    && (forall i :: 0 <= i < |level.obstacles| ==> Inside(InitialBoard(level), level.obstacles[i].pos))
  }

  /**
   * The skip test of `getPieceAt`: the optional id is tested for truthiness,
   * so the empty string skips nothing, exactly as an absent id does.
   */
  predicate Skipped(p: Piece, ignoreId: string)
  {
    ignoreId != "" && p.id == ignoreId
  }

  predicate Occupies(p: Piece, c: Coord, ignoreId: string)
  {
    !Skipped(p, ignoreId) && p.pos == c
  }

  /** Piece `i` is the first piece, in table order, that `getPieceAt` does not skip and that sits at `c`. */
  predicate FirstOccupant(pieces: seq<Piece>, c: Coord, ignoreId: string, i: int)
  {
    && 0 <= i < |pieces|
    && Occupies(pieces[i], c, ignoreId)
    && forall j :: 0 <= j < i ==> !Occupies(pieces[j], c, ignoreId)
  }

  /** `getPieceAt`: the first piece in table order at `c` whose id is not `ignoreId`. */
  function PieceAt(pieces: seq<Piece>, c: Coord, ignoreId: string): (r: Option<Piece>)
    ensures r.None? <==> forall i :: 0 <= i < |pieces| ==> !Occupies(pieces[i], c, ignoreId)
    ensures r.Some? ==> r.value in pieces && Occupies(r.value, c, ignoreId)
    decreases |pieces|
  {
    if pieces == [] then None
    else if Occupies(pieces[0], c, ignoreId) then Some(pieces[0])
    else
      assert forall i :: 0 < i < |pieces| ==> pieces[i] == pieces[1..][i - 1];
      PieceAt(pieces[1..], c, ignoreId)
  }

  /** The piece `getPieceAt` returns is the first one in table order that sits at `c` and is not skipped. */
  lemma {:induction false} PieceAtFirst(pieces: seq<Piece>, c: Coord, ignoreId: string, i: int)
    requires FirstOccupant(pieces, c, ignoreId, i)
    ensures PieceAt(pieces, c, ignoreId) == Some(pieces[i])
    decreases |pieces|
  {
    if i > 0 {
      assert FirstOccupant(pieces[1..], c, ignoreId, i - 1);
      PieceAtFirst(pieces[1..], c, ignoreId, i - 1);
    }
  }

  /** The position in the table of the piece with id `id` (the `Map` lookup of `LevelModel`). */
  function IndexOfId(pieces: seq<Piece>, id: string): (r: Option<nat>)
    ensures r.None? <==> forall i :: 0 <= i < |pieces| ==> pieces[i].id != id
    ensures r.Some? ==> r.value < |pieces| && pieces[r.value].id == id
    ensures r.Some? ==> forall j :: 0 <= j < r.value ==> pieces[j].id != id
    decreases |pieces|
  {
    if pieces == [] then None
    else if pieces[0].id == id then Some(0)
    else
      match IndexOfId(pieces[1..], id)
      case None => None
      case Some(k) => Some(k + 1)
  }

  /** `getPieceById` and `pieces.get`: the piece with id `id`, if there is one. */
  function Lookup(b: Board, id: string): (r: Option<Piece>)
    ensures r.None? <==> forall i :: 0 <= i < |b.pieces| ==> b.pieces[i].id != id
    ensures r.Some? ==> r.value in b.pieces && r.value.id == id
  {
    match IndexOfId(b.pieces, id)
    case None => None
    case Some(i) => Some(b.pieces[i])
  }

  /**
   * `isBlocked`: a cell off the board or on an obstacle is blocked; any other
   * cell is blocked exactly when a piece not skipped for `movingId` sits there.
   */
  function Blocked(b: Board, c: Coord, movingId: string): (r: bool)
    ensures !Inside(b, c) ==> r
    ensures c in b.obstacles ==> r
    ensures Inside(b, c) && c !in b.obstacles ==>
              (r <==> exists i :: 0 <= i < |b.pieces| && Occupies(b.pieces[i], c, movingId))
  {
    !Inside(b, c) || c in b.obstacles || PieceAt(b.pieces, c, movingId).Some?
  }

  /** How many steps along `d` the board edge is from `c`; positive on the board. */
  function EdgeDistance(b: Board, c: Coord, d: Direction): int
  {
    match d
    case Up => c.y + 1
    case Down => b.boardH - c.y
    case Left => c.x + 1
    case Right => b.boardW - c.x
  }

  /**
   * The slide of `getMaxSteps` from cell `c`: the number of consecutive
   * unblocked cells starting at the neighbour of `c` along `d`. It ends
   * because every cell off the board is blocked.
   */
  function SlideFrom(b: Board, id: string, c: Coord, d: Direction): (k: nat)
    ensures forall i :: 1 <= i <= k ==> !Blocked(b, Step(c, d, i), id)
    ensures Blocked(b, Step(c, d, k + 1), id)
    decreases EdgeDistance(b, c, d)
  {
    var next := Step(c, d, 1);
    if Blocked(b, next, id) then 0
    else
      var k := SlideFrom(b, id, next, d);
      assert forall i :: 1 <= i <= 1 + k ==> !Blocked(b, Step(c, d, i), id) by {
        forall i | 2 <= i <= 1 + k ensures !Blocked(b, Step(c, d, i), id) {
          StepAdd(c, d, 1, i - 1);
        }
      }
      StepAdd(c, d, 1, k + 1);
      1 + k
  }

  /** `getMaxSteps`: 0 for an unknown piece, otherwise the slide from the piece's cell. */
  function MaxSlide(b: Board, id: string, d: Direction): (k: nat)
    ensures Lookup(b, id).None? ==> k == 0
    ensures Lookup(b, id).Some? ==>
              && (forall i :: 1 <= i <= k ==> !Blocked(b, Step(Lookup(b, id).value.pos, d, i), id))
              && Blocked(b, Step(Lookup(b, id).value.pos, d, k + 1), id)
  {
    match Lookup(b, id)
    case None => 0
    case Some(p) => SlideFrom(b, id, p.pos, d)
  }

  /**
   * `canMove`, as a reference definition: a positive step count, a known
   * piece, and every cell at offsets 1..steps unblocked, not only the last.
   */
  predicate PathClear(b: Board, id: string, d: Direction, steps: int)
  {
    && steps > 0
    && Lookup(b, id).Some?
    && forall i :: 1 <= i <= steps ==> !Blocked(b, Step(Lookup(b, id).value.pos, d, i), id)
  }

  /** The outcome of a refused move. */
  const NoMove := MoveResult(false, 0, None)

  /** `movePiece` on a board value: all or nothing. */
  function ApplyMove(b: Board, id: string, d: Direction, steps: int): (Board, MoveResult)
  {
    match IndexOfId(b.pieces, id)
    case None => (b, NoMove)
    case Some(i) =>
      if !PathClear(b, id, d, steps) then (b, NoMove)
      else
        var p := b.pieces[i];
        var q := p.(pos := Step(p.pos, d, steps));
        (b.(pieces := b.pieces[i := q]), MoveResult(true, steps, Some(q)))
  }

  /** `isSolved` for one target: the first piece at its cell has the wanted type. */
  predicate TargetMet(b: Board, t: Target)
  {
    match PieceAt(b.pieces, t.pos, "")
    case None => false
    case Some(p) => p.pieceType == t.targetType
  }

  /** `isSolved`: every target is met. */
  predicate Solved(b: Board)
  {
    forall k :: 0 <= k < |b.targets| ==> TargetMet(b, b.targets[k])
  }

  // ---------------------------------------------------------------------
  // Properties of the rules

  /** A move of `steps` is possible exactly when the piece exists and `steps` is between 1 and its slide. */
  lemma CanMoveIffWithinSlide(b: Board, id: string, d: Direction, steps: int)
    ensures PathClear(b, id, d, steps) <==> Lookup(b, id).Some? && 1 <= steps <= MaxSlide(b, id, d)
  {
    if Lookup(b, id).Some? && steps > MaxSlide(b, id, d) {
      var k := MaxSlide(b, id, d);
      assert Blocked(b, Step(Lookup(b, id).value.pos, d, k + 1), id);
    }
  }

  /**
   * The slide is the only count with every cell up to it free and the next
   * one blocked: the piece's run of free cells determines it.
   */
  lemma SlideUnique(b: Board, id: string, c: Coord, d: Direction, n: nat)
    requires forall i :: 1 <= i <= n ==> !Blocked(b, Step(c, d, i), id)
    requires Blocked(b, Step(c, d, n + 1), id)
    ensures SlideFrom(b, id, c, d) == n
  {
  }

  /** The slide is the longest possible move: it is possible and one step more is not. */
  lemma SlideIsLongestMove(b: Board, id: string, d: Direction)
    requires MaxSlide(b, id, d) > 0
    ensures PathClear(b, id, d, MaxSlide(b, id, d))
    ensures !PathClear(b, id, d, MaxSlide(b, id, d) + 1)
  {
    CanMoveIffWithinSlide(b, id, d, MaxSlide(b, id, d));
    CanMoveIffWithinSlide(b, id, d, MaxSlide(b, id, d) + 1);
  }

  /** A possible move stays possible when shortened. */
  lemma CanMovePrefix(b: Board, id: string, d: Direction, k: int, j: int)
    requires PathClear(b, id, d, k)
    requires 1 <= j <= k
    ensures PathClear(b, id, d, j)
  {
  }

  /** Ids and their positions in the table are untouched by a move. */
  lemma {:induction false} IndexOfIdSameIds(pieces: seq<Piece>, pieces': seq<Piece>, id: string)
    requires |pieces| == |pieces'|
    requires forall i :: 0 <= i < |pieces| ==> pieces[i].id == pieces'[i].id
    ensures IndexOfId(pieces', id) == IndexOfId(pieces, id)
    decreases |pieces|
  {
    if pieces != [] {
      IndexOfIdSameIds(pieces[1..], pieces'[1..], id);
    }
  }

  /**
   * `movePiece` succeeds exactly when `canMove` holds. On success only the
   * moved piece changes: same id and type, position old + steps * vector.
   * On failure nothing changes and the result is `{moved: false, steps: 0}`.
   */
  lemma MoveSpec(b: Board, id: string, d: Direction, steps: int)
    ensures ApplyMove(b, id, d, steps).1.moved <==> PathClear(b, id, d, steps)
    ensures var (b', r) := ApplyMove(b, id, d, steps);
      && b'.boardW == b.boardW && b'.boardH == b.boardH
      && b'.targets == b.targets && b'.obstacles == b.obstacles
      && |b'.pieces| == |b.pieces|
    ensures !PathClear(b, id, d, steps) ==> ApplyMove(b, id, d, steps) == (b, NoMove)
    ensures PathClear(b, id, d, steps) ==>
      var (b', r) := ApplyMove(b, id, d, steps);
      exists i :: 0 <= i < |b.pieces| && b.pieces[i].id == id
        && b'.pieces[i] == Piece(id, b.pieces[i].pieceType, Step(b.pieces[i].pos, d, steps))
        && (forall j :: 0 <= j < |b.pieces| && j != i ==> b'.pieces[j] == b.pieces[j])
        && r == MoveResult(true, steps, Some(b'.pieces[i]))
  {
    if PathClear(b, id, d, steps) {
      var i := IndexOfId(b.pieces, id).value;
      var (b', r) := ApplyMove(b, id, d, steps);
      assert b'.pieces[i] == Piece(id, b.pieces[i].pieceType, Step(b.pieces[i].pos, d, steps));
    }
  }

  /** Repeating a refused move refuses it again and still changes nothing. */
  lemma FailedMoveIdempotent(b: Board, id: string, d: Direction, steps: int)
    requires !ApplyMove(b, id, d, steps).1.moved
    ensures ApplyMove(ApplyMove(b, id, d, steps).0, id, d, steps) == ApplyMove(b, id, d, steps)
  {
    MoveSpec(b, id, d, steps);
  }

  /** A move keeps every piece on the board, off the obstacles and on a cell of its own. */
  lemma MovePreservesValid(b: Board, id: string, d: Direction, steps: int)
    requires ValidBoard(b)
    ensures ValidBoard(ApplyMove(b, id, d, steps).0)
  {
    if PathClear(b, id, d, steps) {
      var i := IndexOfId(b.pieces, id).value;
      var p := b.pieces[i];
      var dest := Step(p.pos, d, steps);
      assert !Blocked(b, dest, id);
      var b' := ApplyMove(b, id, d, steps).0;
      assert b'.pieces == b.pieces[i := p.(pos := dest)];
      forall j | 0 <= j < |b.pieces| && j != i
        ensures b.pieces[j].pos != dest
      {
        assert b.pieces[j].id != id;
        assert !Occupies(b.pieces[j], dest, id);
      }
    }
  }

  /** On a board without shared cells, `PieceAt` finds any piece that sits at the cell and is not skipped. */
  lemma PieceAtUnique(pieces: seq<Piece>, c: Coord, i: int)
    requires forall j, k :: 0 <= j < k < |pieces| ==> pieces[j].pos != pieces[k].pos
    requires 0 <= i < |pieces| && pieces[i].pos == c
    ensures PieceAt(pieces, c, "") == Some(pieces[i])
  {
    assert forall j :: 0 <= j < i ==> !Occupies(pieces[j], c, "");
    PieceAtFirst(pieces, c, "", i);
  }

  /** Some piece of the wanted type sits on the target's cell. */
  predicate Covered(b: Board, t: Target)
  {
    exists i :: 0 <= i < |b.pieces| && b.pieces[i].pos == t.pos && b.pieces[i].pieceType == t.targetType
  }

  /**
   * `isSolved` holds exactly when every target has a piece of its type on its
   * cell; with no targets it holds trivially.
   */
  lemma SolvedIff(b: Board)
    requires ValidBoard(b)
    ensures Solved(b) <==> forall k :: 0 <= k < |b.targets| ==> Covered(b, b.targets[k])
    ensures |b.targets| == 0 ==> Solved(b)
  {
    forall k | 0 <= k < |b.targets|
      ensures TargetMet(b, b.targets[k]) <==> Covered(b, b.targets[k])
    {
      var t := b.targets[k];
      if TargetMet(b, t) {
        var p := PieceAt(b.pieces, t.pos, "").value;
        var j :| 0 <= j < |b.pieces| && b.pieces[j] == p;
        assert b.pieces[j].pos == t.pos && b.pieces[j].pieceType == t.targetType;
      }
      if Covered(b, t) {
        var i :| 0 <= i < |b.pieces| && b.pieces[i].pos == t.pos && b.pieces[i].pieceType == t.targetType;
        PieceAtUnique(b.pieces, t.pos, i);
      }
    }
  }

  /** Replacing a piece that neither was nor is at `c` does not change what `PieceAt` finds there. */
  lemma {:induction false} PieceAtUpdateElsewhere(pieces: seq<Piece>, i: int, q: Piece, c: Coord, ignoreId: string)
    requires 0 <= i < |pieces|
    requires !Occupies(pieces[i], c, ignoreId) && !Occupies(q, c, ignoreId)
    ensures PieceAt(pieces[i := q], c, ignoreId) == PieceAt(pieces, c, ignoreId)
    decreases |pieces|
  {
    if i > 0 {
      assert pieces[i := q][1..] == pieces[1..][i - 1 := q];
      PieceAtUpdateElsewhere(pieces[1..], i - 1, q, c, ignoreId);
    } else {
      assert pieces[i := q][1..] == pieces[1..];
    }
  }

  /** Moving a piece from a cell that is no target to a cell that is no target leaves `isSolved` as it was. */
  lemma MoveOffTargetsKeepsSolved(b: Board, id: string, d: Direction, steps: int)
    requires Lookup(b, id).Some?
    requires forall k :: 0 <= k < |b.targets| ==>
               b.targets[k].pos != Lookup(b, id).value.pos
               && b.targets[k].pos != Step(Lookup(b, id).value.pos, d, steps)
    ensures Solved(ApplyMove(b, id, d, steps).0) == Solved(b)
  {
    if PathClear(b, id, d, steps) {
      var i := IndexOfId(b.pieces, id).value;
      var p := b.pieces[i];
      var q := p.(pos := Step(p.pos, d, steps));
      var b' := ApplyMove(b, id, d, steps).0;
      assert b'.pieces == b.pieces[i := q];
      forall k | 0 <= k < |b.targets|
        ensures TargetMet(b', b.targets[k]) == TargetMet(b, b.targets[k])
      {
        PieceAtUpdateElsewhere(b.pieces, i, q, b.targets[k].pos, "");
      }
    }
  }

  // ---------------------------------------------------------------------
  // The engine object

  /** `LevelModel`: the level it was built from and a mutable table of pieces. */
  class LevelModel {
    const level: LevelDefinition
    var pieces: seq<Piece>
    const targets: seq<Target>
    const obstacles: set<Coord>

    /** The board this object represents. */
    function State(): Board
      reads this
    {
      Board(level.boardW, level.boardH, pieces, targets, obstacles)
    }

    predicate Valid()
      reads this
    {
      ValidBoard(State())
    }

    constructor (level: LevelDefinition)
      requires WellFormedLevel(level)
      ensures this.level == level
      ensures State() == InitialBoard(level)
      ensures Valid()
    {
      this.level := level;
      pieces := level.pieces;
      targets := level.targets;
      obstacles := ObstacleCells(level.obstacles);
    }

    /** `getPieceById`: the piece with id `id`, if the table has one. */
    method GetPieceById(id: string) returns (r: Option<Piece>)
      ensures r.Some? <==> exists i :: 0 <= i < |pieces| && pieces[i].id == id
      ensures r.Some? ==> r.value in pieces && r.value.id == id
    {
      return Lookup(State(), id);
    }

    /** `getPieceAt`: scans the table in order and returns the first unskipped piece at `c`. */
    method GetPieceAt(c: Coord, ignoreId: string) returns (r: Option<Piece>)
      ensures r == PieceAt(pieces, c, ignoreId)
    {
      for i := 0 to |pieces|
        invariant forall j :: 0 <= j < i ==> !Occupies(pieces[j], c, ignoreId)
      {
        var piece := pieces[i];
        if ignoreId != "" && piece.id == ignoreId {
          continue;
        }
        if piece.pos == c {
          PieceAtFirst(pieces, c, ignoreId, i);
          return Some(piece);
        }
      }
      return None;
    }

    /** `isBlocked`. */
    method IsBlocked(c: Coord, movingId: string) returns (blocked: bool)
      ensures blocked == Blocked(State(), c, movingId)
    {
      if !Inside(State(), c) {
        return true;
      }
      if c in obstacles {
        return true;
      }
      var p := GetPieceAt(c, movingId);
      return p.Some?;
    }

    /** `getMaxSteps`: walks from the neighbouring cell until a blocked cell. */
    method GetMaxSteps(pieceId: string, direction: Direction) returns (steps: int)
      ensures steps == MaxSlide(State(), pieceId, direction)
    {
      var piece := Lookup(State(), pieceId);
      if piece.None? {
        return 0;
      }
      var start := piece.value.pos;
      var v := Vector(direction);
      steps := 0;
      var next := Coord(start.x + v.x, start.y + v.y);
      var blocked := IsBlocked(next, pieceId);
      while !blocked
        invariant 0 <= steps
        invariant next == Step(start, direction, steps + 1)
        invariant blocked == Blocked(State(), next, pieceId)
        invariant forall i :: 1 <= i <= steps ==> !Blocked(State(), Step(start, direction, i), pieceId)
        decreases EdgeDistance(State(), next, direction)
      {
        steps := steps + 1;
        next := Coord(next.x + v.x, next.y + v.y);
        blocked := IsBlocked(next, pieceId);
      }
    }

    /** `canMove`: checks every cell from offset 1 to `steps`. */
    method CanMove(pieceId: string, direction: Direction, steps: int) returns (ok: bool)
      ensures ok == PathClear(State(), pieceId, direction, steps)
    {
      if steps <= 0 {
        return false;
      }
      var piece := Lookup(State(), pieceId);
      if piece.None? {
        return false;
      }
      var start := piece.value.pos;
      var v := Vector(direction);
      for i := 1 to steps + 1
        invariant forall j :: 1 <= j < i ==> !Blocked(State(), Step(start, direction, j), pieceId)
      {
        var next := Coord(start.x + v.x * i, start.y + v.y * i);
        assert next == Step(start, direction, i);
        var blocked := IsBlocked(next, pieceId);
        if blocked {
          return false;
        }
      }
      return true;
    }

    /** `movePiece`: moves the piece only if `canMove` holds; the only mutation of the engine. */
    method MovePiece(pieceId: string, direction: Direction, steps: int) returns (result: MoveResult)
      modifies this
      ensures (State(), result) == ApplyMove(old(State()), pieceId, direction, steps)
      ensures old(Valid()) ==> Valid()
    {
      if Valid() {
        MovePreservesValid(State(), pieceId, direction, steps);
      }
      var index := IndexOfId(pieces, pieceId);
      if index.None? {
        return NoMove;
      }
      var ok := CanMove(pieceId, direction, steps);
      if !ok {
        return NoMove;
      }
      var piece := pieces[index.value];
      var v := Vector(direction);
      var updated := piece.(pos := Coord(piece.pos.x + v.x * steps, piece.pos.y + v.y * steps));
      pieces := pieces[index.value := updated];
      return MoveResult(true, steps, Some(updated));
    }

    /** `isSolved`: every target has a piece of its type on its cell. */
    method IsSolved() returns (solved: bool)
      ensures solved == Solved(State())
    {
      for k := 0 to |targets|
        invariant forall j :: 0 <= j < k ==> TargetMet(State(), targets[j])
      {
        var target := targets[k];
        var piece := GetPieceAt(target.pos, "");
        if !(piece.Some? && piece.value.pieceType == target.targetType) {
          return false;
        }
      }
      return true;
    }
  }
}
