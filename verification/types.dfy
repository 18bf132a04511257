/** Optional values, used for "no ship found here" and for placements that
    could not be made. */
module Wrappers {

  datatype Option<+T> = None | Some(value: T)
}

/** The shared data model of server/src/types.ts: coordinates, ship classes,
    ships, cell states, players and the match record. */
module Types {
  import opened Wrappers

  /** A grid position; `x` is the column and `y` the row. */
  datatype Coord = Coord(x: int, y: int)

  /** The five ship classes, in the order the type union lists them. */
  datatype ShipType = Carrier | Battleship | Cruiser | Submarine | Destroyer {

    /** The tag string `ShipType` in server/src/types.ts uses for this class (also what a sinking
        shot reports as the sunk ship's name). */
    function Name(): string {
      match this
      case Carrier => "carrier"
      case Battleship => "battleship"
      case Cruiser => "cruiser"
      case Submarine => "submarine"
      case Destroyer => "destroyer"
    }
  }

  /** The tag names the class: no two classes share one, so a reported
      sunk ship name identifies its class. */
  lemma NamesDistinct(s: ShipType, t: ShipType)
    ensures s.Name() == t.Name() <==> s == t
  {
  }

  /** A ship of a fleet. `kind` is the `type` field of `Ship` in server/src/types.ts. `positions` is
      ordered; `hits` counts the shots that struck it; `sunk` is its flag. */
  datatype Ship = Ship(
    id: string,
    kind: ShipType,
    size: nat,
    positions: seq<Coord>,
    hits: nat,
    sunk: bool)

  datatype CellState = Empty | ShipCell | HitCell | MissCell

  /** A board is a list of rows; the cell of column x in row y is `b[y][x]`. */
  type Board = seq<seq<CellState>>

  datatype Player = Player(
    id: string,
    name: string,
    ready: bool,
    ships: seq<Ship>,
    myBoard: Board,
    shotsFired: seq<Coord>,
    enemyBoard: Board)

  datatype GameStatus = Lobby | PlacingShips | Playing | GameOver

  /** A match record. server/src/types.ts documents `players` as holding at most two
      entries; `Valid` states that bound. */
  datatype GameState = GameState(
    roomId: string,
    players: seq<Player>,
    status: GameStatus,
    turn: string,
    winner: Option<string>)
  {
    predicate Valid() {
      |players| <= 2
    }
  }
}
