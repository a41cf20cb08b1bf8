/**
 * The value types of the level mode: board coordinates, pieces, targets,
 * obstacles, level definitions, directions and move results.
 */
module LevelTypes {
  import opened Wrappers

  /** A board cell; x grows to the right and y grows downwards. */
  datatype Coord = Coord(x: int, y: int)

  /** A movable piece. `pieceType` is the field the TypeScript type calls `type`. */
  datatype Piece = Piece(id: string, pieceType: string, pos: Coord)

  /** A cell that wants a piece whose type is `targetType`. */
  datatype Target = Target(id: string, targetType: string, pos: Coord)

  /** A permanently blocked cell. */
  datatype Obstacle = Obstacle(id: string, pos: Coord)

  /** A level as authored: board size, rendering cell size and the initial entities. */
  datatype LevelDefinition = LevelDefinition(
    id: string,
    name: string,
    boardW: int,
    boardH: int,
    cellSize: int,
    pieces: seq<Piece>,
    targets: seq<Target>,
    obstacles: seq<Obstacle>)

  datatype Direction = Up | Down | Left | Right

  /** What `movePiece` reports; `updatedPiece` is present only on a move. */
  datatype MoveResult = MoveResult(moved: bool, steps: int, updatedPiece: Option<Piece>)
}
