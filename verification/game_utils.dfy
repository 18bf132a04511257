/** Shot resolution, victory and the empty board of server/src/gameUtils.ts. */
module GameUtils {
  import opened Wrappers
  import opened Types

  /** Side length of every board. */
  const BoardSize: nat := 10

  /** True exactly when `c` names a cell of the 10x10 board. */
  function IsValidCoordinate(c: Coord): bool {
    c.x >= 0 && c.x < 10 && c.y >= 0 && c.y < 10
  }

  /** A board of exactly 10 rows of 10 cells, which is every board createEmptyBoard in server/src/gameUtils.ts
      and the placement screen build. */
  ghost predicate WellFormed(b: Board) {
    |b| == BoardSize && forall row :: 0 <= row < |b| ==> |b[row]| == BoardSize
  }

  /** The state of cell `c`, read as `b[c.y][c.x]`. */
  function At(b: Board, c: Coord): CellState
    requires WellFormed(b) && IsValidCoordinate(c)
  {
    b[c.y][c.x]
  }

  /** `b` with the single cell `c` overwritten by `v`; every other cell keeps its state. */
  function SetCell(b: Board, c: Coord, v: CellState): (b': Board)
    requires WellFormed(b) && IsValidCoordinate(c)
    ensures WellFormed(b')
    ensures At(b', c) == v
    ensures forall d :: IsValidCoordinate(d) && d != c ==> At(b', d) == At(b, d)
  {
    b[c.y := b[c.y][c.x := v]]
  }

  /** A coordinate is valid exactly when it addresses an existing cell of a
      well-formed board, so the check is the right guard for `b[y][x]`. */
  lemma ValidCoordinateAddressesCell(b: Board, c: Coord)
    requires WellFormed(b)
    ensures IsValidCoordinate(c) <==> (0 <= c.y < |b| && 0 <= c.x < |b[c.y]|)
  {
  }

  /** A fresh 10x10 board, every cell EMPTY. */
  function CreateEmptyBoard(): (b: Board)
    ensures WellFormed(b)
    ensures forall c :: IsValidCoordinate(c) ==> At(b, c) == Empty
  {
    seq(BoardSize, _ => seq(BoardSize, _ => Empty))
  }

  /** The outcome of one shot. `Sunk` carries the class of the ship it sank
      (`hitShipName` in processShot, server/src/gameUtils.ts). */
  datatype ShotResult = Invalid | Miss | Hit | Sunk(kind: ShipType)

  /** Both players after the shot, and its outcome. */
  datatype ShotOutcome = ShotOutcome(attacker: Player, defender: Player, result: ShotResult)

  /** Ship `i` is the first ship of `ships`, in fleet order, whose positions include `c`. */
  ghost predicate FirstCover(ships: seq<Ship>, c: Coord, i: int) {
    && 0 <= i < |ships|
    && c in ships[i].positions
    && forall j :: 0 <= j < i ==> c !in ships[j].positions
  }

  /** No ship of `ships` has `c` among its positions. */
  ghost predicate Uncovered(ships: seq<Ship>, c: Coord) {
    forall j :: 0 <= j < |ships| ==> c !in ships[j].positions
  }

  /** The fleet scan of processShot: the index of the first ship, from
      index `from` on, that occupies `c`. */
  function FindShip(ships: seq<Ship>, c: Coord, from: nat): (r: Option<nat>)
    requires from <= |ships|
    requires forall j :: 0 <= j < from ==> c !in ships[j].positions
    ensures r.None? <==> Uncovered(ships, c)
    ensures r.Some? ==> FirstCover(ships, c, r.value)
    decreases |ships| - from
  {
    if from == |ships| then None
    else if c in ships[from].positions then Some(from)
    else FindShip(ships, c, from + 1)
  }

  /** The first ship covering a cell is unique. */
  lemma FirstCoverUnique(ships: seq<Ship>, c: Coord, i: int, j: int)
    requires FirstCover(ships, c, i) && FirstCover(ships, c, j)
    ensures i == j
  {
  }

  /** `s` after one more hit: the counter rises by one and the ship sinks once
      the counter reaches its size; a ship that was already sunk stays sunk. */
  function Struck(s: Ship): (s': Ship)
    ensures s'.hits == s.hits + 1
    ensures s'.sunk <==> s.sunk || s'.hits >= s.size
    ensures s'.(hits := s.hits, sunk := s.sunk) == s
  {
    var hits := s.hits + 1;
    s.(hits := hits, sunk := if hits >= s.size then true else s.sunk)
  }

  /** One shot of `attacker` at (x, y) against `defender`.

      A coordinate already in the attacker's history is refused with INVALID
      and nothing changes. Otherwise the coordinate joins the history, and the
      first defender ship covering it takes a hit: the attacker's tracking
      board shows HIT there, and the result is SUNK (with the ship's class)
      once the ship's hits reach its size, HIT before that. With no ship
      there, the tracking board shows MISS and the result is MISS. The
      defender's own board is never written. */
  function ProcessShot(attacker: Player, defender: Player, x: int, y: int): (o: ShotOutcome)
    requires IsValidCoordinate(Coord(x, y))
    requires WellFormed(attacker.enemyBoard)
    // a repeated coordinate is refused and leaves both players as they were
    ensures Coord(x, y) in attacker.shotsFired ==> o == ShotOutcome(attacker, defender, Invalid)
    // a fresh coordinate is always recorded and never refused
    ensures Coord(x, y) !in attacker.shotsFired ==>
              && o.result != Invalid
              && o.attacker.shotsFired == attacker.shotsFired + [Coord(x, y)]
    // the attacker changes only in history and tracking board
    ensures o.attacker.(shotsFired := attacker.shotsFired, enemyBoard := attacker.enemyBoard) == attacker
    ensures WellFormed(o.attacker.enemyBoard)
    ensures forall c :: IsValidCoordinate(c) && c != Coord(x, y) ==>
              At(o.attacker.enemyBoard, c) == At(attacker.enemyBoard, c)
    // the defender changes only in its fleet, never in its own board
    ensures o.defender.(ships := defender.ships) == defender
    ensures |o.defender.ships| == |defender.ships|
    // a miss: no ship there, MISS on the tracking board, the fleet untouched
    ensures o.result == Miss <==> Coord(x, y) !in attacker.shotsFired && Uncovered(defender.ships, Coord(x, y))
    ensures o.result == Miss ==>
              At(o.attacker.enemyBoard, Coord(x, y)) == MissCell && o.defender.ships == defender.ships
    // a hit: the first covering ship takes exactly one more hit, HIT on the
    // tracking board, SUNK once its hits reach its size, every other ship untouched
    ensures forall i :: Coord(x, y) !in attacker.shotsFired && FirstCover(defender.ships, Coord(x, y), i) ==>
              && At(o.attacker.enemyBoard, Coord(x, y)) == HitCell
              && o.defender.ships[i].hits == defender.ships[i].hits + 1
              && (o.defender.ships[i].sunk <==> defender.ships[i].sunk || o.defender.ships[i].hits >= defender.ships[i].size)
              && o.defender.ships[i].(hits := defender.ships[i].hits, sunk := defender.ships[i].sunk) == defender.ships[i]
              && (forall j :: 0 <= j < |defender.ships| && j != i ==> o.defender.ships[j] == defender.ships[j])
              && o.result == (if o.defender.ships[i].hits >= defender.ships[i].size then Sunk(defender.ships[i].kind) else Hit)
  {
    var c := Coord(x, y);
    if c in attacker.shotsFired then ShotOutcome(attacker, defender, Invalid)
    else
      var fired := attacker.(shotsFired := attacker.shotsFired + [c]);
      match FindShip(defender.ships, c, 0)
      case None =>
        ShotOutcome(fired.(enemyBoard := SetCell(attacker.enemyBoard, c, MissCell)), defender, Miss)
      case Some(i) =>
        var s' := Struck(defender.ships[i]);
        ShotOutcome(
          fired.(enemyBoard := SetCell(attacker.enemyBoard, c, HitCell)),
          defender.(ships := defender.ships[i := s']),
          if s'.hits >= s'.size then Sunk(s'.kind) else Hit)
  }

  /** The fleet scan of checkVictory, from index `from` on. */
  function AllSunk(ships: seq<Ship>, from: nat): (r: bool)
    requires from <= |ships|
    ensures r <==> forall i :: from <= i < |ships| ==> ships[i].sunk
    decreases |ships| - from
  {
    from == |ships| || (ships[from].sunk && AllSunk(ships, from + 1))
  }

  /** True exactly when every ship of the player's fleet is sunk; an empty
      fleet counts as defeated. */
  function CheckVictory(p: Player): (r: bool)
    ensures r <==> forall i :: 0 <= i < |p.ships| ==> p.ships[i].sunk
    ensures |p.ships| == 0 ==> r
  {
    AllSunk(p.ships, 0)
  }
}
