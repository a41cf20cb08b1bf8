/**
 * The level-mode session (`LevelController` without its DOM, view and timer
 * calls): which level is loaded, which piece is selected, the step counter
 * and the elapsed seconds, and the translation of a key press or a cell
 * click into a `(direction, steps)` move on the board engine.
 */
module LevelSession {
  import opened Wrappers
  import opened JsMath
  import opened LevelTypes
  import opened LevelBoard

  /** `nextDirection`: the arrow keys and W, A, S, D in either case. */
  function NextDirection(key: string): (r: Option<Direction>)
    ensures r == Some(Up) <==> key in {"ArrowUp", "w", "W"}
    ensures r == Some(Down) <==> key in {"ArrowDown", "s", "S"}
    ensures r == Some(Left) <==> key in {"ArrowLeft", "a", "A"}
    ensures r == Some(Right) <==> key in {"ArrowRight", "d", "D"}
  {
    if key == "ArrowUp" || key == "w" || key == "W" then Some(Up)
    else if key == "ArrowDown" || key == "s" || key == "S" then Some(Down)
    else if key == "ArrowLeft" || key == "a" || key == "A" then Some(Left)
    else if key == "ArrowRight" || key == "d" || key == "D" then Some(Right)
    else None
  }

  /**
   * The index `switchLevel` loads: `(index + delta + count) % count` with
   * JavaScript's remainder. Its two callers pass +1 and -1; it is then the
   * next or the previous level, wrapping around at both ends.
   */
  function WrapLevel(index: int, delta: int, count: int): (r: int)
    requires 0 <= index < count
    requires delta == 1 || delta == -1
    ensures 0 <= r < count
    ensures r == if index + delta == count then 0
                 else if index + delta < 0 then count - 1
                 else index + delta
  {
    var n := index + delta + count;
    if n < count then RemBelow(n, count); TruncRem(n, count)
    else RemOnce(n, count); TruncRem(n, count)
  }

  /** Going forward and then back (or back and then forward) returns to the same level. */
  lemma WrapLevelRoundTrip(index: int, count: int)
    requires 0 <= index < count
    ensures WrapLevel(WrapLevel(index, 1, count), -1, count) == index
    ensures WrapLevel(WrapLevel(index, -1, count), 1, count) == index
  {
  }

  /**
   * The decision table of `handleCellMove`: a click on a cell in the piece's
   * row or column, other than its own, gives the direction towards it and
   * either the full distance (with the modifier) or a single step.
   */
  function CellIntent(from: Coord, target: Coord, multi: bool): (r: Option<(Direction, int)>)
    ensures r.None? <==> from == target || (from.x != target.x && from.y != target.y)
    ensures r.Some? ==> r.value.1 >= 1 && exists k :: k >= 1 && Step(from, r.value.0, k) == target
    ensures r.Some? && multi ==> Step(from, r.value.0, r.value.1) == target
    ensures r.Some? && !multi ==> r.value.1 == 1
  {
    var dx := target.x - from.x;
    var dy := target.y - from.y;
    if (dx != 0 && dy != 0) || (dx == 0 && dy == 0) then None
    else
      var direction := if dx > 0 then Right else if dx < 0 then Left else if dy > 0 then Down else Up;
      var distance := Abs(if dx != 0 then dx else dy);
      assert Step(from, direction, distance) == target;
      Some((direction, if multi then distance else 1))
  }

  /** The intent of a cell click for the selected piece on board `b`, if the click asks for a move at all. */
  function CellMoveIntent(b: Board, selected: string, target: Coord, multi: bool): Option<(Direction, int)>
  {
    if selected == "" then None
    else
      match Lookup(b, selected)
      case None => None
      case Some(p) => CellIntent(p.pos, target, multi)
  }

  /** The step count of `handleDirectionalMove`: the whole slide with the modifier, one step without. */
  function DirectionalSteps(b: Board, selected: string, d: Direction, multi: bool): int
  {
    if multi then MaxSlide(b, selected, d) else 1
  }

  /**
   * `performMove` on a board: without a selected piece or with a step count
   * of 0 or less nothing is attempted; otherwise `movePiece` decides. The
   * second component says whether a piece moved.
   */
  function Perform(b: Board, selected: string, d: Direction, steps: int): (Board, bool)
  {
    if selected == "" || steps <= 0 then (b, false)
    else
      var (b', r) := ApplyMove(b, selected, d, steps);
      (b', r.moved)
  }

  /**
   * A directional move with the modifier moves a piece that can move at all,
   * and leaves it against a wall, an obstacle or another piece: a second such
   * move in the same direction does nothing.
   */
  lemma RunToWallStops(b: Board, selected: string, d: Direction)
    requires selected != ""
    requires DirectionalSteps(b, selected, d, true) > 0
    ensures Perform(b, selected, d, DirectionalSteps(b, selected, d, true)).1
    ensures var b' := Perform(b, selected, d, DirectionalSteps(b, selected, d, true)).0;
      && Lookup(b', selected).Some?
      && Lookup(b', selected).value.pos == Step(Lookup(b, selected).value.pos, d, MaxSlide(b, selected, d))
      && MaxSlide(b', selected, d) == 0
  {
    var k := MaxSlide(b, selected, d);
    SlideIsLongestMove(b, selected, d);
    var i := IndexOfId(b.pieces, selected).value;
    var p := b.pieces[i];
    var q := p.(pos := Step(p.pos, d, k));
    var b' := ApplyMove(b, selected, d, k).0;
    assert b'.pieces == b.pieces[i := q];
    IndexOfIdSameIds(b.pieces, b'.pieces, selected);
    assert Lookup(b', selected) == Some(q);
    var wall := Step(p.pos, d, k + 1);
    assert Blocked(b, wall, selected);
    StepAdd(p.pos, d, k, 1);
    assert Step(q.pos, d, 1) == wall;
    if Inside(b, wall) && wall !in b.obstacles {
      var j :| 0 <= j < |b.pieces| && Occupies(b.pieces[j], wall, selected);
      assert j != i;
      assert b'.pieces[j] == b.pieces[j];
    }
    assert Blocked(b', wall, selected);
  }

  /**
   * A cell click with the modifier either lands the piece exactly on the
   * clicked cell or changes nothing; it never stops short at an obstruction.
   */
  lemma ModifiedCellMoveIsExact(b: Board, selected: string, target: Coord)
    requires CellMoveIntent(b, selected, target, true).Some?
    ensures var (d, n) := CellMoveIntent(b, selected, target, true).value;
      var (b', moved) := Perform(b, selected, d, n);
      && (moved ==> Lookup(b', selected).Some? && Lookup(b', selected).value.pos == target)
      && (!moved ==> b' == b)
  {
    var (d, n) := CellMoveIntent(b, selected, target, true).value;
    var p := Lookup(b, selected).value;
    MoveSpec(b, selected, d, n);
    if PathClear(b, selected, d, n) {
      var i := IndexOfId(b.pieces, selected).value;
      var b' := ApplyMove(b, selected, d, n).0;
      IndexOfIdSameIds(b.pieces, b'.pieces, selected);
    }
  }

  /** A click off the piece's row and column, or on its own cell, asks for no move. */
  lemma MisalignedClickIgnored(b: Board, selected: string, target: Coord, multi: bool)
    requires Lookup(b, selected).Some?
    requires var p := Lookup(b, selected).value.pos;
      p == target || (p.x != target.x && p.y != target.y)
    ensures CellMoveIntent(b, selected, target, multi).None?
  {
  }

  /** `LevelController`: the levels, the current engine and the session counters. */
  class LevelController {
    const levels: seq<LevelDefinition>
    var model: LevelModel
    var levelIndex: int
    /** The selected piece; the empty string means none, as `LevelController` tests it for truthiness. */
    var selectedPieceId: string
    var steps: int
    var seconds: int

    ghost predicate Valid()
      reads this, model
    {
      && |levels| > 0
      && (forall i :: 0 <= i < |levels| ==> WellFormedLevel(levels[i]))
      && 0 <= levelIndex < |levels|
      && model.level == levels[levelIndex]
      && model.Valid()
      && steps >= 0
      && seconds >= 0
    }

    /** The state part of the constructor: an engine for the first level, then `loadLevel(0)`. */
    constructor (levels: seq<LevelDefinition>)
      requires |levels| > 0
      requires forall i :: 0 <= i < |levels| ==> WellFormedLevel(levels[i])
      ensures Valid() && this.levels == levels
      ensures levelIndex == 0 && model.State() == InitialBoard(levels[0])
      ensures selectedPieceId == "" && steps == 0 && seconds == 0
    {
      this.levels := levels;
      model := new LevelModel(levels[0]);
      levelIndex := 0;
      selectedPieceId := "";
      steps := 0;
      seconds := 0;
      new;
      LoadLevel(0);
    }

    /** `loadLevel`: a fresh engine for level `index`, no selection, counters at zero. */
    method LoadLevel(index: int)
      requires Valid()
      requires 0 <= index < |levels|
      modifies this
      ensures Valid() && fresh(model)
      ensures levelIndex == index && model.State() == InitialBoard(levels[index])
      ensures selectedPieceId == "" && steps == 0 && seconds == 0
    {
      levelIndex := index;
      var level := levels[index];
      model := new LevelModel(level);
      selectedPieceId := "";
      steps := 0;
      seconds := 0;
    }

    /** `switchLevel`: loads the level `delta` places on, wrapping around. */
    method SwitchLevel(delta: int)
      requires Valid()
      requires delta == 1 || delta == -1
      modifies this
      ensures Valid() && fresh(model)
      ensures levelIndex == WrapLevel(old(levelIndex), delta, |levels|)
      ensures model.State() == InitialBoard(levels[levelIndex])
      ensures selectedPieceId == "" && steps == 0 && seconds == 0
    {
      var nextIndex := TruncRem(levelIndex + delta + |levels|, |levels|);
      LoadLevel(nextIndex);
    }

    /** `reloadLevel`: the current level from scratch. */
    method ReloadLevel()
      requires Valid()
      modifies this
      ensures Valid() && fresh(model)
      ensures levelIndex == old(levelIndex) && model.State() == InitialBoard(levels[levelIndex])
      ensures selectedPieceId == "" && steps == 0 && seconds == 0
    {
      LoadLevel(levelIndex);
    }

    /** `resetTimer`: the clock back to zero, nothing else. */
    method ResetTimer()
      requires Valid()
      modifies this`seconds
      ensures Valid() && seconds == 0
    {
      seconds := 0;
    }

    /** `selectPiece`. */
    method SelectPiece(pieceId: string)
      requires Valid()
      modifies this`selectedPieceId
      ensures Valid() && selectedPieceId == pieceId
    {
      selectedPieceId := pieceId;
    }

    /**
     * `handleMoveResult`: a move that happened adds exactly one to the step
     * counter, whatever its distance; the result says whether the level is now
     * solved (`LevelController` then stops the clock and shows its overlay).
     */
    method HandleMoveResult(result: MoveResult) returns (completed: bool)
      requires Valid()
      modifies this`steps
      ensures Valid()
      ensures steps == old(steps) + (if result.moved then 1 else 0)
      ensures completed == (result.moved && Solved(model.State()))
    {
      if !result.moved {
        return false;
      }
      steps := steps + 1;
      completed := model.IsSolved();
    }

    /** `performMove`: ignored without a selection or with a step count of 0 or less. */
    method PerformMove(direction: Direction, n: int) returns (completed: bool)
      requires Valid()
      modifies this, model
      ensures Valid() && model == old(model)
      ensures var (b', moved) := Perform(old(model.State()), selectedPieceId, direction, n);
        && model.State() == b'
        && steps == old(steps) + (if moved then 1 else 0)
        && completed == (moved && Solved(b'))
      ensures levelIndex == old(levelIndex) && selectedPieceId == old(selectedPieceId)
      ensures seconds == old(seconds)
    {
      if selectedPieceId == "" || n <= 0 {
        return false;
      }
      var result := model.MovePiece(selectedPieceId, direction, n);
      completed := HandleMoveResult(result);
    }

    /** `handleDirectionalMove`: the whole slide with the modifier, one step without. */
    method HandleDirectionalMove(direction: Direction, multi: bool) returns (completed: bool)
      requires Valid()
      modifies this, model
      ensures Valid() && model == old(model)
      ensures var n := DirectionalSteps(old(model.State()), selectedPieceId, direction, multi);
        var (b', moved) := Perform(old(model.State()), selectedPieceId, direction, n);
        && model.State() == b'
        && steps == old(steps) + (if moved then 1 else 0)
        && completed == (moved && Solved(b'))
      ensures levelIndex == old(levelIndex) && selectedPieceId == old(selectedPieceId)
      ensures seconds == old(seconds)
    {
      if selectedPieceId == "" {
        return false;
      }
      var n := 1;
      if multi {
        n := model.GetMaxSteps(selectedPieceId, direction);
      }
      completed := PerformMove(direction, n);
    }

    /** `handleCellMove`: a click in the piece's row or column moves it towards the clicked cell. */
    method HandleCellMove(target: Coord, multi: bool) returns (completed: bool)
      requires Valid()
      modifies this, model
      ensures Valid() && model == old(model)
      ensures match CellMoveIntent(old(model.State()), selectedPieceId, target, multi)
        case None =>
          && model.State() == old(model.State())
          && steps == old(steps) && !completed
        case Some((d, n)) =>
          var (b', moved) := Perform(old(model.State()), selectedPieceId, d, n);
          && model.State() == b'
          && steps == old(steps) + (if moved then 1 else 0)
          && completed == (moved && Solved(b'))
      ensures levelIndex == old(levelIndex) && selectedPieceId == old(selectedPieceId)
      ensures seconds == old(seconds)
    {
      if selectedPieceId == "" {
        return false;
      }
      var piece := Lookup(model.State(), selectedPieceId);
      if piece.None? {
        return false;
      }
      var intent := CellIntent(piece.value.pos, target, multi);
      if intent.None? {
        return false;
      }
      var (direction, n) := intent.value;
      completed := PerformMove(direction, n);
    }
  }
}
