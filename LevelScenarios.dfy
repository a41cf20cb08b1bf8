/**
 * Worked examples of the level rules on small boards: a slide onto a target,
 * a slide cut short by an obstacle, a step into an occupied cell and a
 * click off the piece's row and column.
 */
module LevelScenarios {
  import opened Wrappers
  import opened LevelTypes
  import opened LevelBoard
  import opened LevelSession

  /**
   * A piece alone on the board never blocks itself: it slides until the
   * first cell that is off the board or holds an obstacle.
   */
  lemma LoneSlide(b: Board, p: Piece, d: Direction, stop: int)
    requires b.pieces == [p] && p.id != ""
    requires stop >= 1
    requires forall i :: 1 <= i < stop ==> Inside(b, Step(p.pos, d, i)) && Step(p.pos, d, i) !in b.obstacles
    requires !Inside(b, Step(p.pos, d, stop)) || Step(p.pos, d, stop) in b.obstacles
    ensures MaxSlide(b, p.id, d) == stop - 1
  {
    assert IndexOfId(b.pieces, p.id) == Some(0);
    forall i | 1 <= i <= stop - 1
      ensures !Blocked(b, Step(p.pos, d, i), p.id)
    {
      assert !Occupies(p, Step(p.pos, d, i), p.id);
    }
    SlideUnique(b, p.id, p.pos, d, stop - 1);
  }

  /** A possible move of a lone piece puts it `n` cells further along and reports a move. */
  lemma LoneMove(b: Board, p: Piece, d: Direction, n: int)
    requires b.pieces == [p] && p.id != ""
    requires 1 <= n <= MaxSlide(b, p.id, d)
    ensures Perform(b, p.id, d, n) == (b.(pieces := [p.(pos := Step(p.pos, d, n))]), true)
  {
    assert IndexOfId(b.pieces, p.id) == Some(0);
    CanMoveIffWithinSlide(b, p.id, d, n);
    assert b.pieces[0 := p.(pos := Step(p.pos, d, n))] == [p.(pos := Step(p.pos, d, n))];
  }

  /**
   * A `w` x `w` board with the given pieces and obstacle cells and one "cat"
   * target in the top right corner, (w - 1, 0). The worked examples use the
   * cat below at the top left corner; `w` = 5 is the 5 x 5 board.
   */
  function RowBoard(w: int, pieces: seq<Piece>, obstacles: set<Coord>): Board
  {
    Board(w, w, pieces, [Target("t", "cat", Coord(w - 1, 0))], obstacles)
  }

  const Cat := Piece("A", "cat", Coord(0, 0))

  /** On an empty top row the cat's slide to the right reaches the edge: `w - 1` cells. */
  lemma OpenRowSlide(w: int)
    requires w >= 2
    ensures MaxSlide(RowBoard(w, [Cat], {}), "A", Right) == w - 1
    ensures DirectionalSteps(RowBoard(w, [Cat], {}), "A", Right, true) == w - 1
  {
    var b := RowBoard(w, [Cat], {});
    forall i | 1 <= i < w
      ensures Inside(b, Step(Cat.pos, Right, i)) && Step(Cat.pos, Right, i) !in b.obstacles
    {
      assert Step(Cat.pos, Right, i) == Coord(i, 0);
    }
    assert Step(Cat.pos, Right, w) == Coord(w, 0);
    LoneSlide(b, Cat, Right, w);
  }

  /**
   * With the modifier, the cat on an empty top row slides all the way to the
   * right, onto the target.
   */
  lemma SlideOntoTarget(w: int)
    requires w >= 2
    ensures Perform(RowBoard(w, [Cat], {}), "A", Right, w - 1) ==
      (RowBoard(w, [Cat.(pos := Coord(w - 1, 0))], {}), true)
  {
    var b := RowBoard(w, [Cat], {});
    assert Cat.id == "A";
    assert Perform(b, "A", Right, w - 1) == (b.(pieces := [Cat.(pos := Step(Cat.pos, Right, w - 1))]), true) by {
      OpenRowSlide(w);
      LoneMove(b, Cat, Right, w - 1);
    }
    assert Step(Cat.pos, Right, w - 1) == Coord(w - 1, 0);
  }

  /** The level is unsolved with the cat in the corner and solved once it reaches the target. */
  lemma TargetReachedSolves(w: int)
    requires w >= 2
    ensures !Solved(RowBoard(w, [Cat], {}))
    ensures Solved(RowBoard(w, [Cat.(pos := Coord(w - 1, 0))], {}))
  {
    var b, b' := RowBoard(w, [Cat], {}), RowBoard(w, [Cat.(pos := Coord(w - 1, 0))], {});
    assert !TargetMet(b, b.targets[0]);
    assert TargetMet(b', b'.targets[0]);
  }

  /**
   * An obstacle at (ox, 0) stops the slide one cell short of it, and `ox`
   * cells is already too far. On the 5 x 5 board with the obstacle at
   * (2, 0) the slide is 1.
   */
  lemma ObstacleStopsSlide(w: int, ox: int)
    requires 2 <= ox < w
    ensures MaxSlide(RowBoard(w, [Cat], {Coord(ox, 0)}), "A", Right) == ox - 1
    ensures !PathClear(RowBoard(w, [Cat], {Coord(ox, 0)}), "A", Right, ox)
  {
    var b := RowBoard(w, [Cat], {Coord(ox, 0)});
    forall i | 1 <= i < ox
      ensures Inside(b, Step(Cat.pos, Right, i)) && Step(Cat.pos, Right, i) !in b.obstacles
    {
      assert Step(Cat.pos, Right, i) == Coord(i, 0);
    }
    assert Step(Cat.pos, Right, ox) == Coord(ox, 0);
    LoneSlide(b, Cat, Right, ox);
    CanMoveIffWithinSlide(b, "A", Right, ox);
  }

  /**
   * The full slide towards the obstacle lands the cat at (ox - 1, 0), next
   * to it and short of the target, so the level stays unsolved.
   */
  lemma SlideToObstacle(w: int, ox: int)
    requires 2 <= ox < w
    ensures Perform(RowBoard(w, [Cat], {Coord(ox, 0)}), "A", Right,
                    DirectionalSteps(RowBoard(w, [Cat], {Coord(ox, 0)}), "A", Right, true)) ==
      (RowBoard(w, [Cat.(pos := Coord(ox - 1, 0))], {Coord(ox, 0)}), true)
    ensures !Solved(RowBoard(w, [Cat.(pos := Coord(ox - 1, 0))], {Coord(ox, 0)}))
  {
    var b, b' := RowBoard(w, [Cat], {Coord(ox, 0)}), RowBoard(w, [Cat.(pos := Coord(ox - 1, 0))], {Coord(ox, 0)});
    ObstacleStopsSlide(w, ox);
    LoneMove(b, Cat, Right, ox - 1);
    assert Step(Cat.pos, Right, ox - 1) == Coord(ox - 1, 0);
    assert DirectionalSteps(b, "A", Right, true) == ox - 1;
    assert b.(pieces := [Cat.(pos := Step(Cat.pos, Right, ox - 1))]) == b';
    assert !TargetMet(b', b'.targets[0]);
  }

  /** A single step into a cell held by another piece is refused and nothing changes. */
  lemma OccupiedCellRefused()
    ensures var b := RowBoard(5, [Cat, Piece("B", "dog", Coord(1, 0))], {});
      Perform(b, "A", Right, 1) == (b, false)
  {
    var b := RowBoard(5, [Cat, Piece("B", "dog", Coord(1, 0))], {});
    assert Blocked(b, Step(Coord(0, 0), Right, 1), "A");
  }

  /** A click at (4, 3) is neither in the cat's row nor in its column, so no move is attempted. */
  lemma DiagonalClickIgnored()
    ensures CellMoveIntent(RowBoard(5, [Cat], {}), "A", Coord(4, 3), false).None?
    ensures CellMoveIntent(RowBoard(5, [Cat], {}), "A", Coord(4, 3), true).None?
  {
  }
}
