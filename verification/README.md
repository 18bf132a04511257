# Battleship core in Dafny

A functional model of the game logic of a two-player Battleship game. The
server side resolves shots: it refuses a coordinate the attacker already
fired at, records the shot in the attacker's history, finds the first
defender ship covering the cell, counts the hit and sinks the ship once its
hits reach its size, and marks HIT or MISS on the attacker's tracking board.
A player is defeated when every ship of their fleet is sunk. The client side
places a fleet on a 10x10 board. A ship may be laid only where it fits and
every cell it would take is EMPTY. A drop lays one ship where it is dropped.
Auto-placement retries random positions (at most 50 per ship and 100 whole
fleets). The dock lists the ship classes not yet placed. A reset clears
everything.

Modules:

- `Wrappers` (types.dfy): `Option`.
- `Types` (types.dfy): coordinates, ship classes, ships, cell states,
  players and the match record.
- `GameUtils` (game_utils.dfy): `IsValidCoordinate`, `CreateEmptyBoard`,
  `ProcessShot` and `CheckVictory`.
- `Battle` (battle.dfy): what repeated shots preserve. Damage only grows and
  sunk flags stay in step with hit counters. The tracking board mirrors the
  history. Every hit counter equals the number of the ship's cells fired at.
  Defeat means every ship cell has been fired at.
- `Simulation` (simulation.dfy): the battle script of the server's test file,
  replayed as a lemma.
- `ShipDefinitions` (ship_definitions.dfy): the fleet table.
- `ShipPlacement` (ship_placement.dfy): `CanPlace`, the laying loop, drops,
  the dock, reset and auto-placement. The random numbers are an input
  sequence of draws.

Boards are `seq<seq<CellState>>` indexed `b[y][x]`. Operations that mutate
their arguments in the source (`processShot` pushes into `shotsFired` and
bumps `hits`) return the updated values instead.

## Model

| member | source | states |
|---|---|---|
| Types.ShipType.Name | server/src/types.ts:10 | the five class tags: carrier, battleship, cruiser, submarine, destroyer |
| Types.NamesDistinct | server/src/types.ts:10 | two classes have the same tag exactly when they are the same class, so a reported sunk ship name identifies its class |
| Types.GameState.Valid | server/src/types.ts:36-38 | a match record holds at most two players |
| GameUtils.IsValidCoordinate | server/src/gameUtils.ts:4-6 | a coordinate is valid when both components lie in 0..9 |
| GameUtils.ValidCoordinateAddressesCell | server/src/gameUtils.ts:4-6 | on a 10x10 board a coordinate is valid exactly when `b[y][x]` exists |
| GameUtils.CreateEmptyBoard | server/src/gameUtils.ts:56-58 | the board has 10 rows of 10 cells and every cell is EMPTY |
| GameUtils.SetCell | server/src/gameUtils.ts:32 | writing `enemyBoard[y][x]` changes that one cell and keeps the board 10x10 |
| GameUtils.FindShip | server/src/gameUtils.ts:24-27 | the scan returns no ship exactly when no ship covers the cell, otherwise the first covering ship in fleet order |
| GameUtils.FirstCoverUnique | server/src/gameUtils.ts:24-27 | only one ship can be the first to cover a cell |
| GameUtils.Struck | server/src/gameUtils.ts:29-36 | a hit raises the counter by one and sets the sunk flag once hits reach size, changing nothing else |
| GameUtils.ProcessShot | server/src/gameUtils.ts:9-47 | a repeated coordinate gives INVALID and changes nothing; a fresh one is appended to the history; MISS exactly when no ship covers the cell, with MISS on the tracking board; otherwise the first covering ship gains one hit, the tracking board shows HIT, the result is SUNK with the ship's class once hits reach size, else HIT; only the attacker's tracking board is written, never the defender's own board |
| GameUtils.AllSunk | server/src/gameUtils.ts:52 | the fleet scan is true exactly when every ship from the start index on is sunk |
| GameUtils.CheckVictory | server/src/gameUtils.ts:50-53 | true exactly when every ship is sunk; an empty fleet counts as defeated |
| Battle.RepeatedShotIsInvalid | server/src/gameUtils.ts:17-18 | a second shot at the same coordinate is INVALID and leaves both players unchanged |
| Battle.ShotOnlyAddsDamage | server/src/gameUtils.ts:29-36 | no shot lowers a hit counter or clears a sunk flag |
| Battle.ShotKeepsSunkIffHits | server/src/gameUtils.ts:29-37 | if each ship is sunk exactly when hits >= size before a shot, that still holds after it |
| Battle.ShotKeepsTracking | server/src/gameUtils.ts:21-45 | the tracking board stays marked exactly on the coordinates of the shot history |
| Battle.TotalHitsUpdate | server/src/gameUtils.ts:29 | replacing one ship changes the fleet's total hits by the difference of the two counters |
| Battle.ShotAddsAtMostOneHit | server/src/gameUtils.ts:24-46 | a HIT or SUNK raises the fleet's total hits by exactly one; MISS and INVALID leave it unchanged |
| Battle.VictoryOnlyBySinking | server/src/gameUtils.ts:35-37 | a fleet not yet defeated can only become defeated through a SUNK result |
| Battle.CountAddShot | server/src/gameUtils.ts:21-29 | a new shot adds one to a ship's fired-at cell count exactly when it lands on one of its cells |
| Battle.CountFull | server/src/gameUtils.ts:35 | the fired-at count of a ship is at most its length, and equals it exactly when every cell was fired at |
| Battle.EngagedAtStart | server/src/test.ts:8-39 | a freshly placed fleet facing an empty history satisfies the battle invariant |
| Battle.ShotKeepsEngaged | server/src/gameUtils.ts:9-47 | every shot keeps each ship's hit counter equal to the number of its cells in the attacker's history |
| Battle.VictoryMeansEveryCellFired | server/src/gameUtils.ts:50-53 | under the battle invariant no ship exceeds its size in hits, and the player is defeated exactly when every ship cell has been fired at |
| Battle.FireAll | server/src/gameUtils.ts:9-47 | a sequence of shots yields one result per shot and keeps the tracking board 10x10 |
| Battle.VolleyHistory | server/src/gameUtils.ts:17-21 | after a sequence of shots the history holds exactly the earlier coordinates and those of the sequence |
| Battle.VolleyRefusesRepeats | server/src/gameUtils.ts:17-18 | within a sequence of shots, shot k is INVALID exactly when its coordinate was in the history before or was fired earlier in the sequence |
| Battle.VolleyKeepsEngaged | server/src/gameUtils.ts:9-47 | the battle invariant survives any sequence of shots |
| Simulation.BattleScript | server/src/test.ts:28-86 | the test script yields MISS, HIT with one hit counted, INVALID, SUNK naming "destroyer", then defeat |
| ShipDefinitions.TableShape | cliente/src/components/ShipDefinitions.tsx:30-219 | five entries carrier 5, battleship 4, submarine 3, cruiser 3, destroyer 2, with distinct ids, each fitting the board, every class listed |
| ShipDefinitions.IdsDetermineEntry | cliente/src/components/ShipDefinitions.tsx:30-219 | a class tag picks out a single table entry |
| ShipPlacement.CellsEmpty | cliente/src/components/ShipPlacement.tsx:87-92 | the cell loop is true exactly when every remaining cell of the ship is EMPTY |
| ShipPlacement.CanPlace | cliente/src/components/ShipPlacement.tsx:84-93 | accepted exactly when every cell the ship would take is on the board and EMPTY; acceptance implies the far end is within the board |
| ShipPlacement.LayShip | cliente/src/components/ShipPlacement.tsx:118-123 | positions are the ship's cells in order from the origin, those cells become SHIP and every other cell is unchanged |
| ShipPlacement.NewShip | cliente/src/components/ShipPlacement.tsx:126-133 | a new ship has the entry's class and size, the laid positions, no hits and is not sunk |
| ShipPlacement.TryPlace | cliente/src/components/ShipPlacement.tsx:113-133 | placing succeeds exactly when canPlace accepts, and then appends one laid ship of the entry and marks its cells |
| ShipPlacement.LaidCellsStraight | cliente/src/components/ShipPlacement.tsx:118-123 | the laid cells form one straight run without repeats |
| ShipPlacement.TryPlaceKeepsConsistent | cliente/src/components/ShipPlacement.tsx:113-133 | placing after canPlace keeps SHIP cells equal to the union of ship positions, and keeps ships straight and disjoint |
| ShipPlacement.DropShip | cliente/src/components/ShipPlacement.tsx:100-135 | a drop canPlace rejects changes nothing; an accepted one adds exactly one laid ship |
| ShipPlacement.DropKeepsConsistent | cliente/src/components/ShipPlacement.tsx:100-135 | every drop keeps the board and the fleet in agreement |
| ShipPlacement.Unplaced | cliente/src/components/ShipPlacement.tsx:39 | the filter keeps exactly the entries whose class is not placed, in table order (a subsequence of the table), and keeps everything when nothing is placed |
| ShipPlacement.UnplacedCounts | cliente/src/components/ShipPlacement.tsx:39 | the filter keeps each unplaced entry exactly as often as the table lists it and drops every placed one |
| ShipPlacement.AvailableShips | cliente/src/components/ShipPlacement.tsx:39 | the dock holds exactly the table entries whose class has no placed ship, in table order and each at most once; with nothing placed it is the whole table |
| ShipPlacement.DistinctEntriesOnce | cliente/src/components/ShipDefinitions.tsx:30-219 | a table with distinct class tags lists every entry at most once |
| ShipPlacement.DropTakesEntryOffDock | cliente/src/components/ShipPlacement.tsx:39 | after an accepted drop the dock is the old dock without the dropped entry's class |
| ShipPlacement.ResetBoard | cliente/src/components/ShipPlacement.tsx:137-140 | reset yields an all-EMPTY board, no ships, a consistent placement and the full table in the dock |
| ShipPlacement.EmptyPlacementConsistent | cliente/src/components/ShipPlacement.tsx:137-140 | an empty board with no ships is consistent |
| ShipPlacement.FirstAccepted | cliente/src/components/ShipPlacement.tsx:52-69 | the retry scan finds the first of its draws canPlace accepts, every earlier draw being rejected, or reports that all were rejected |
| ShipPlacement.PlaceWithRetries | cliente/src/components/ShipPlacement.tsx:52-70 | uses at most 50 draws; on success the ship is laid at the first draw canPlace accepts and every earlier draw was rejected; on failure all 50 draws were rejected |
| ShipPlacement.RetriesKeepConsistent | cliente/src/components/ShipPlacement.tsx:52-70 | a successful run of tries appends one laid ship of the entry and keeps the placement consistent |
| ShipPlacement.PlaceFleet | cliente/src/components/ShipPlacement.tsx:49-72 | a fleet attempt that succeeds keeps the placement consistent and appends one laid ship per entry, in table order, each laid by the first accepted draw of its own 50-draw window, each window starting where the previous one stopped; one that fails stopped at an entry whose 50 draws, ending where the attempt stopped, were all rejected on exactly the board those draws had built for the earlier entries |
| ShipPlacement.BuiltCons | cliente/src/components/ShipPlacement.tsx:49-72 | laying one entry at the first accepted draw of its window and then building the rest from where that window stopped builds the entry followed by the rest |
| ShipPlacement.BuiltJoins | cliente/src/components/ShipPlacement.tsx:49-72 | laying the first entry and building the remaining entries from where its window stopped builds the whole list of entries |
| ShipPlacement.StuckShifts | cliente/src/components/ShipPlacement.tsx:49-72 | getting stuck after the first entry was laid is getting stuck one entry later in the whole attempt, on the same board built by the same draws |
| ShipPlacement.StuckShiftsAt | cliente/src/components/ShipPlacement.tsx:49-72 | a given stuck point of the rest of the attempt, with the draws that built its board, is a stuck point of the whole attempt at the next entry |
| ShipPlacement.FleetGrows | cliente/src/components/ShipPlacement.tsx:49-72 | the first placed ship and the rest of the attempt together give one ship per entry |
| ShipPlacement.RandomizeFrom | cliente/src/components/ShipPlacement.tsx:44-80 | fails exactly when every remaining fleet attempt fails, each starting where the previous one stopped; each attempt uses at most 250 draws and a failed one at least 50; on failure the shown placement is unchanged; on success it is complete and is exactly the placement built by the first succeeding attempt, every attempt before it having failed, with the draw count where that attempt stopped |
| ShipPlacement.FailedAttemptMovesOn | cliente/src/components/ShipPlacement.tsx:71-79 | after a failed fleet attempt, auto-placement continues exactly as the next attempt, starting at the draw where the failed one stopped |
| ShipPlacement.ShownAfterFailure | cliente/src/components/ShipPlacement.tsx:44-79 | a failed attempt placed in front of the attempts that produced a shown placement makes it the shown placement one attempt later |
| ShipPlacement.FailureExtends | cliente/src/components/ShipPlacement.tsx:44-79 | one failed attempt followed by k failed attempts is k + 1 failed attempts in a row |
| ShipPlacement.FirstFleetWins | cliente/src/components/ShipPlacement.tsx:74-78 | when the current fleet attempt succeeds it ends auto-placement, and its placement and draw count are the ones shown; later attempts are covered by FailedAttemptMovesOn |
| ShipPlacement.FleetAttempt | cliente/src/components/ShipPlacement.tsx:45-78 | a fleet attempt starts on a fresh empty board; on success it yields a complete placement, the one the draws build when each table entry is laid at the first accepted draw of its window; on failure some entry had all 50 of its draws rejected on the board the draws had built for the entries before it |
| ShipPlacement.Randomize | cliente/src/components/ShipPlacement.tsx:42-82 | auto-placement uses at most 25000 draws; it fails (the alert) exactly when all 100 fleet attempts fail, having used at least 5000 draws, and then the placement is unchanged; otherwise the shown placement is the one built by the first of the 100 attempts that succeeds, and it is consistent with one laid ship per table entry |
| ShipPlacement.CompleteFleetEmptiesDock | cliente/src/components/ShipPlacement.tsx:39-78 | a complete placement, which every successful auto-placement yields, leaves the dock empty and holds no class twice |
| ShipPlacement.CompleteFleetIsBattleReady | cliente/src/components/ShipPlacement.tsx:74-78 | a complete fleet facing an empty history satisfies the battle invariant and is not defeated |

## Left out

- The lobby, turn order, surrender and the game-status transitions are not modelled: the modelled files contain no lobby, turn or surrender logic, and server.ts only logs connections. `GameState` is only a record, and its two-player bound is the `Valid` predicate.
- Rendering, drag overlays, icons, modals, sounds and the socket server (server.ts, App.tsx, GameBoard.tsx and the hooks) are not modelled. They are user interface, I/O and networking.
- Parsing the drop target's `cell-x-y` id is not modelled. `DropShip` receives the parsed column and row, and a missing drop target or entry is simply no call.
- `Math.random` is not modelled. Auto-placement reads a sequence of `Draw` values (orientation, column, row), one per try.
- `Date.now()` is not modelled. It becomes the `stamp` string parameter, so every ship of one call carries the same stamp.
- The alert after 100 failed fleet attempts is reported as `success == false` with the placement unchanged.
- Aliasing between attacker and defender is not modelled. `processShot` mutates the objects it is given, and the model returns new values, so the case where attacker and defender are the same object is left out.
- ProcessShot: shots off the board are excluded by its precondition. In the source, a fresh off-board shot is first pushed onto the history (gameUtils.ts:21). With `y` off the board, `attacker.enemyBoard[y]` is undefined and the write at line 32 or 45 throws a TypeError; on the hit path `ship.hits++` (line 29) has already run by then. With `x` off the board and `y` on it, the write lands outside the row and the shot reports MISS, HIT or SUNK (SUNK when a ship holding that off-board cell, which the unvalidated fleets allow, reaches its size at line 35). `isValidCoordinate` is the guard the module exports for this.
- CanPlace: the origin must be on the board. The source checks only the upper bounds, so a negative origin would read outside the board. Every caller (drop targets and random draws) passes cells 0..9.
- processShot writes only `attacker.enemyBoard`; `defender.myBoard` is never updated. The model does the same, and `ProcessShot`'s contract states that the defender's own board is unchanged.
- The server does not validate submitted fleets, so no such check is modelled.
- The `name`, `desc`, `viewBox` and render fields of the fleet table are not modelled. They are display data.
- Numbers are unbounded integers. JavaScript's floating-point `number` never overflows at these magnitudes.
