/** Fleet placement of cliente/src/components/ShipPlacement.tsx: the bounds
    and overlap test, laying a ship on the board, placing by drop, random
    auto-placement with bounded retries, the dock of ships still to place,
    and clearing the board. */
module ShipPlacement {
  import opened Wrappers
  import opened Types
  import opened GameUtils
  import opened ShipDefinitions
  import Battle

  /** The placement state: the board being edited and the ships on it. */
  datatype Placement = Placement(board: Board, placed: seq<Ship>)

  /** Cell `i` of a ship laid from (x, y): to the right when horizontal, downwards otherwise. */
  function CellOf(x: int, y: int, horizontal: bool, i: int): Coord {
    if horizontal then Coord(x + i, y) else Coord(x, y + i)
  }

  /** The far end of a ship of `size` cells from (x, y) stays within the 10 columns or rows. */
  predicate Fits(x: int, y: int, size: nat, horizontal: bool) {
    if horizontal then x + size <= 10 else y + size <= 10
  }

  // ---------------------------------------------------------------------
  // canPlace
  // ---------------------------------------------------------------------

  /** The cell loop of canPlace, from cell `from` on. */
  function CellsEmpty(board: Board, x: int, y: int, size: nat, horizontal: bool, from: nat): (ok: bool)
    requires WellFormed(board) && IsValidCoordinate(Coord(x, y)) && Fits(x, y, size, horizontal)
    requires from <= size
    ensures ok <==> forall i :: from <= i < size ==> At(board, CellOf(x, y, horizontal, i)) == Empty
    decreases size - from
  {
    from == size
    || (At(board, CellOf(x, y, horizontal, from)) == Empty && CellsEmpty(board, x, y, size, horizontal, from + 1))
  }

  /** A ship of `size` cells may be laid from (x, y) exactly when every one of
      its cells lies on the board and is EMPTY. The code tests only the far
      end against the upper edge; the origin is a board cell to begin with. */
  function CanPlace(board: Board, x: int, y: int, size: nat, horizontal: bool): (ok: bool)
    requires WellFormed(board) && IsValidCoordinate(Coord(x, y))
    ensures ok ==> Fits(x, y, size, horizontal)
    ensures ok <==> forall i :: 0 <= i < size ==>
              IsValidCoordinate(CellOf(x, y, horizontal, i)) && At(board, CellOf(x, y, horizontal, i)) == Empty
  {
    if horizontal && x + size > 10 then
      assert !IsValidCoordinate(CellOf(x, y, horizontal, size - 1));
      false
    else if !horizontal && y + size > 10 then
      assert !IsValidCoordinate(CellOf(x, y, horizontal, size - 1));
      false
    else CellsEmpty(board, x, y, size, horizontal, 0)
  }

  // ---------------------------------------------------------------------
  // Laying a ship
  // ---------------------------------------------------------------------

  /** The laying loop shared by the drop handler and auto-placement: marks
      the ship's cells SHIP on a copy of the board and lists them in order.
      The resulting positions are the cells from (x, y) along the chosen
      axis, `size` of them; exactly those cells become SHIP. */
  function LayShip(board: Board, x: int, y: int, size: nat, horizontal: bool): (r: (Board, seq<Coord>))
    requires WellFormed(board) && IsValidCoordinate(Coord(x, y)) && Fits(x, y, size, horizontal)
    ensures WellFormed(r.0)
    ensures |r.1| == size
    ensures forall i :: 0 <= i < size ==> r.1[i] == CellOf(x, y, horizontal, i)
    ensures forall c :: IsValidCoordinate(c) ==>
              At(r.0, c) == if c in r.1 then ShipCell else At(board, c)
    decreases size
  {
    if size == 0 then (board, [])
    else
      var (b, ps) := LayShip(board, x, y, size - 1, horizontal);
      var c := CellOf(x, y, horizontal, size - 1);
      (SetCell(b, c, ShipCell), ps + [c])
  }

  /** The cells of a ship lie on one row or one column, one after another. */
  ghost predicate Straight(ps: seq<Coord>) {
    |ps| == 0
    || (forall i :: 0 <= i < |ps| ==> ps[i] == CellOf(ps[0].x, ps[0].y, true, i))
    || (forall i :: 0 <= i < |ps| ==> ps[i] == CellOf(ps[0].x, ps[0].y, false, i))
  }

  /** A ship as auto-placement and the drop handler create it: untouched,
      afloat, with as many straight, distinct cells as its size. */
  ghost predicate Laid(s: Ship) {
    && s.hits == 0 && !s.sunk
    && |s.positions| == s.size
    && Straight(s.positions)
    && Battle.NoDup(s.positions)
  }

  /** A new ship from a table entry. Its id joins the class tag to a
      timestamp, which is supplied as `stamp`. */
  function NewShip(cfg: ShipConfig, positions: seq<Coord>, stamp: string): (s: Ship)
    ensures s.kind == cfg.id && s.size == cfg.size && s.positions == positions
    ensures s.hits == 0 && !s.sunk
  {
    Ship(cfg.id.Name() + "-" + stamp, cfg.id, cfg.size, positions, 0, false)
  }

  /** Test and lay in one step: when canPlace accepts (x, y), the board gains
      the ship's cells and the fleet gains the new ship at its end;
      otherwise nothing is placed. */
  function TryPlace(p: Placement, cfg: ShipConfig, x: int, y: int, horizontal: bool, stamp: string): (r: Option<Placement>)
    requires WellFormed(p.board) && IsValidCoordinate(Coord(x, y))
    ensures r.Some? <==> CanPlace(p.board, x, y, cfg.size, horizontal)
    ensures r.Some? ==>
              && WellFormed(r.value.board)
              && |r.value.placed| == |p.placed| + 1
              && r.value.placed[..|p.placed|] == p.placed
              && Added(p, r.value, cfg, x, y, horizontal)
  {
    if CanPlace(p.board, x, y, cfg.size, horizontal) then
      var (b, ps) := LayShip(p.board, x, y, cfg.size, horizontal);
      Some(Placement(b, p.placed + [NewShip(cfg, ps, stamp)]))
    else None
  }

  /** `q` is `p` with one more ship of entry `cfg` laid from (x, y): the new
      ship has the entry's class and size, no hits, is afloat, holds the
      cells from (x, y) in order, and those cells, and only those, turned SHIP. */
  ghost predicate Added(p: Placement, q: Placement, cfg: ShipConfig, x: int, y: int, horizontal: bool)
    requires WellFormed(p.board) && WellFormed(q.board) && |q.placed| == |p.placed| + 1
  {
    var s := q.placed[|p.placed|];
    && s.kind == cfg.id && s.size == cfg.size && s.hits == 0 && !s.sunk
    && |s.positions| == cfg.size
    && (forall i :: 0 <= i < cfg.size ==> s.positions[i] == CellOf(x, y, horizontal, i))
    && (forall c :: IsValidCoordinate(c) ==> At(q.board, c) == if c in s.positions then ShipCell else At(p.board, c))
  }

  // ---------------------------------------------------------------------
  // The board agrees with the fleet
  // ---------------------------------------------------------------------

  /** Some placed ship covers `c`. */
  ghost predicate Occupied(ships: seq<Ship>, c: Coord) {
    exists i :: 0 <= i < |ships| && c in ships[i].positions
  }

  /** The placement invariant: a 10x10 board holding only EMPTY and SHIP,
      whose SHIP cells are exactly the union of the ships' positions; every
      ship lies on the board, was laid straight, and no two ships share a cell. */
  ghost predicate Consistent(p: Placement) {
    && WellFormed(p.board)
    && (forall c :: IsValidCoordinate(c) ==> At(p.board, c) == Empty || At(p.board, c) == ShipCell)
    && (forall c :: IsValidCoordinate(c) ==> (At(p.board, c) == ShipCell <==> Occupied(p.placed, c)))
    && (forall i, k :: 0 <= i < |p.placed| && 0 <= k < |p.placed[i].positions| ==>
          IsValidCoordinate(p.placed[i].positions[k]))
    && (forall i :: 0 <= i < |p.placed| ==> Laid(p.placed[i]))
    && Battle.FleetDisjoint(p.placed)
  }

  /** The cells of a ship laid from (x, y) are straight and pairwise distinct. */
  lemma LaidCellsStraight(ps: seq<Coord>, x: int, y: int, size: nat, horizontal: bool)
    requires |ps| == size
    requires forall i :: 0 <= i < size ==> ps[i] == CellOf(x, y, horizontal, i)
    ensures Straight(ps) && Battle.NoDup(ps)
  {
  }

  /** Placing after a successful canPlace keeps the board and the fleet in agreement. */
  lemma TryPlaceKeepsConsistent(p: Placement, cfg: ShipConfig, x: int, y: int, horizontal: bool, stamp: string)
    requires Consistent(p) && IsValidCoordinate(Coord(x, y))
    requires TryPlace(p, cfg, x, y, horizontal, stamp).Some?
    ensures Consistent(TryPlace(p, cfg, x, y, horizontal, stamp).value)
  {
    var q := TryPlace(p, cfg, x, y, horizontal, stamp).value;
    var n := |p.placed|;
    var s := q.placed[n];
    assert q.placed == p.placed + [s] by {
      assert q.placed[..n] == p.placed;
    }
    // every new cell is on the board and was EMPTY, so no old ship had it
    forall c | c in s.positions
      ensures IsValidCoordinate(c) && At(p.board, c) == Empty && !Occupied(p.placed, c)
    {
      var i :| 0 <= i < |s.positions| && s.positions[i] == c;
      assert c == CellOf(x, y, horizontal, i);
    }
    LaidCellsStraight(s.positions, x, y, cfg.size, horizontal);
    forall c | IsValidCoordinate(c)
      ensures At(q.board, c) == ShipCell <==> Occupied(q.placed, c)
    {
      if c in s.positions {
        assert q.placed[n] == s;
      } else if Occupied(p.placed, c) {
        var i :| 0 <= i < n && c in p.placed[i].positions;
        assert q.placed[i] == p.placed[i];
      } else {
        forall i | 0 <= i < |q.placed| ensures c !in q.placed[i].positions {
          if i < n {
            assert q.placed[i] == p.placed[i];
          }
        }
      }
    }
    forall i, j, k | 0 <= i < j < |q.placed| && 0 <= k < |q.placed[i].positions|
      ensures q.placed[i].positions[k] !in q.placed[j].positions
    {
      if j == n {
        var c := p.placed[i].positions[k];
        assert Occupied(p.placed, c);
      }
    }
  }

  // ---------------------------------------------------------------------
  // Drag and drop
  // ---------------------------------------------------------------------

  /** Dropping a dock ship on cell (x, y): placed when canPlace accepts,
      otherwise the drop is ignored. */
  function DropShip(p: Placement, cfg: ShipConfig, x: int, y: int, horizontal: bool, stamp: string): (q: Placement)
    requires WellFormed(p.board) && IsValidCoordinate(Coord(x, y))
    ensures !CanPlace(p.board, x, y, cfg.size, horizontal) ==> q == p
    ensures CanPlace(p.board, x, y, cfg.size, horizontal) ==>
              && WellFormed(q.board)
              && |q.placed| == |p.placed| + 1
              && q.placed == p.placed + [q.placed[|p.placed|]]
              && Added(p, q, cfg, x, y, horizontal)
  {
    match TryPlace(p, cfg, x, y, horizontal, stamp)
    case None => p
    case Some(q) =>
      assert q.placed == q.placed[..|p.placed|] + [q.placed[|p.placed|]];
      q
  }

  /** A drop keeps the board and the fleet in agreement. */
  lemma DropKeepsConsistent(p: Placement, cfg: ShipConfig, x: int, y: int, horizontal: bool, stamp: string)
    requires Consistent(p) && IsValidCoordinate(Coord(x, y))
    ensures Consistent(DropShip(p, cfg, x, y, horizontal, stamp))
  {
    if CanPlace(p.board, x, y, cfg.size, horizontal) {
      TryPlaceKeepsConsistent(p, cfg, x, y, horizontal, stamp);
    }
  }

  // ---------------------------------------------------------------------
  // Ships still to place, and reset
  // ---------------------------------------------------------------------

  /** Some placed ship has class `t`. */
  predicate IsPlaced(placed: seq<Ship>, t: ShipType) {
    exists i :: 0 <= i < |placed| && placed[i].kind == t
  }

  /** `r` is obtained from `s` by deleting entries: it keeps their order. */
  ghost predicate IsSubsequence(r: seq<ShipConfig>, s: seq<ShipConfig>)
    decreases |s|
  {
    if |r| == 0 then true
    else if |s| == 0 then false
    else (r[0] == s[0] && IsSubsequence(r[1..], s[1..])) || IsSubsequence(r, s[1..])
  }

  /** The entries of `cfgs` whose class no placed ship has, in their table
      order. */
  function Unplaced(cfgs: seq<ShipConfig>, placed: seq<Ship>): (r: seq<ShipConfig>)
    ensures forall c :: c in r <==> c in cfgs && !IsPlaced(placed, c.id)
    ensures IsSubsequence(r, cfgs)
    ensures |r| <= |cfgs|
    ensures (forall i :: 0 <= i < |cfgs| ==> !IsPlaced(placed, cfgs[i].id)) ==> r == cfgs
    decreases |cfgs|
  {
    if |cfgs| == 0 then []
    else
      var rest := Unplaced(cfgs[1..], placed);
      assert forall c :: c in cfgs <==> c == cfgs[0] || c in cfgs[1..];
      if IsPlaced(placed, cfgs[0].id) then
        assert IsSubsequence(rest, cfgs) by {
          if |rest| > 0 { assert IsSubsequence(rest, cfgs[1..]); }
        }
        rest
      else
        assert ([cfgs[0]] + rest)[1..] == rest;
        [cfgs[0]] + rest
  }

  /** The filter keeps each unplaced entry exactly as often as `cfgs` lists
      it, and drops every placed one. */
  lemma {:induction false} UnplacedCounts(cfgs: seq<ShipConfig>, placed: seq<Ship>)
    ensures var r := Unplaced(cfgs, placed);
            forall c :: multiset(r)[c] == if IsPlaced(placed, c.id) then 0 else multiset(cfgs)[c]
    decreases |cfgs|
  {
    if |cfgs| > 0 {
      UnplacedCounts(cfgs[1..], placed);
      assert cfgs == [cfgs[0]] + cfgs[1..];
      assert multiset(cfgs) == multiset{cfgs[0]} + multiset(cfgs[1..]);
      var rest := Unplaced(cfgs[1..], placed);
      if !IsPlaced(placed, cfgs[0].id) {
        assert multiset([cfgs[0]] + rest) == multiset{cfgs[0]} + multiset(rest);
      }
    }
  }

  /** The dock: the table's entries whose class has not been placed yet, in
      table order, each at most once. */
  function AvailableShips(placed: seq<Ship>): (r: seq<ShipConfig>)
    ensures forall c :: c in r <==> c in Ships && !IsPlaced(placed, c.id)
    ensures forall c :: multiset(r)[c] == if IsPlaced(placed, c.id) then 0 else multiset(Ships)[c]
    ensures forall c :: multiset(r)[c] <= 1
    ensures IsSubsequence(r, Ships)
    ensures |r| <= |Ships|
    ensures placed == [] ==> r == Ships
  {
    TableEntriesOnce();
    UnplacedCounts(Ships, placed);
    var r := Unplaced(Ships, placed);
    assert forall c :: multiset(r)[c] <= multiset(Ships)[c];
    r
  }

  /** Every entry of the fleet table occurs in it once. */
  lemma TableEntriesOnce()
    ensures forall c :: multiset(Ships)[c] <= 1
  {
    TableShape();
    DistinctEntriesOnce(Ships);
  }

  /** In a table with distinct class tags every entry occurs at most once. */
  lemma {:induction false} DistinctEntriesOnce(cfgs: seq<ShipConfig>)
    requires DistinctIds(cfgs)
    ensures forall c :: multiset(cfgs)[c] <= 1
    decreases |cfgs|
  {
    if |cfgs| > 0 {
      DistinctEntriesOnce(cfgs[1..]);
      assert cfgs == [cfgs[0]] + cfgs[1..];
      assert cfgs[0] !in cfgs[1..];
    }
  }

  /** Clearing the board: an all-EMPTY board with no ships, so every table
      entry is back in the dock. */
  function ResetBoard(): (p: Placement)
    ensures Consistent(p)
    ensures p.placed == []
    ensures forall c :: IsValidCoordinate(c) ==> At(p.board, c) == Empty
    ensures AvailableShips(p.placed) == Ships
  {
    EmptyPlacementConsistent();
    Placement(CreateEmptyBoard(), [])
  }

  /** An empty board with no ships is consistent. */
  lemma EmptyPlacementConsistent()
    ensures Consistent(Placement(CreateEmptyBoard(), []))
  {
  }

  /** Dropping a dock ship removes exactly its entry from the dock. */
  lemma DropTakesEntryOffDock(p: Placement, cfg: ShipConfig, x: int, y: int, horizontal: bool, stamp: string)
    requires WellFormed(p.board) && IsValidCoordinate(Coord(x, y))
    requires CanPlace(p.board, x, y, cfg.size, horizontal)
    ensures var q := DropShip(p, cfg, x, y, horizontal, stamp);
            forall c :: c in AvailableShips(q.placed) <==> c in AvailableShips(p.placed) && c.id != cfg.id
  {
    var q := DropShip(p, cfg, x, y, horizontal, stamp);
    var n := |p.placed|;
    forall t: ShipType ensures IsPlaced(q.placed, t) <==> IsPlaced(p.placed, t) || t == cfg.id {
      if IsPlaced(q.placed, t) {
        var i :| 0 <= i < |q.placed| && q.placed[i].kind == t;
        if i < n {
          assert q.placed[i] == p.placed[i];
        }
      }
      if IsPlaced(p.placed, t) {
        var i :| 0 <= i < n && p.placed[i].kind == t;
        assert q.placed[i] == p.placed[i];
      }
      if t == cfg.id {
        assert q.placed[n].kind == t;
      }
    }
  }

  // ---------------------------------------------------------------------
  // Random auto-placement
  // ---------------------------------------------------------------------

  /** Attempts at a whole fleet before giving up. */
  const FleetAttempts: nat := 100
  /** Attempts at one ship within a fleet attempt. */
  const ShipAttempts: nat := 50
  /** Draws one fleet attempt may consume: 50 tries for each of the 5 entries. */
  const DrawsPerFleet: nat := 250
  /** Draws a whole auto-placement may consume: 100 fleet attempts. */
  const MaxDraws: nat := 25000

  /** A board index drawn as the floor of a uniform draw times 10. */
  type Index = i: int | 0 <= i < 10

  /** One random draw: orientation first, then column, then row. */
  datatype Draw = Draw(horizontal: bool, x: Index, y: Index)

  /** Where a bounded sequence of attempts ended, and how many draws it had
      consumed by then. */
  datatype Attempt = Attempt(placement: Option<Placement>, cursor: nat)

  /** canPlace rejects draw `d` for a ship of `size` cells. */
  predicate Rejected(board: Board, size: nat, d: Draw)
    requires WellFormed(board)
  {
    !CanPlace(board, d.x, d.y, size, d.horizontal)
  }

  /** The scan of the per-ship retry loop: the index of the first of the
      `left` draws from `cursor` on that canPlace accepts for a ship of
      `size` cells, or None when it rejects them all. */
  function FirstAccepted(board: Board, size: nat, draws: seq<Draw>, cursor: nat, left: nat): (r: Option<nat>)
    requires WellFormed(board) && cursor + left <= |draws|
    ensures r.None? ==> forall k :: cursor <= k < cursor + left ==> Rejected(board, size, draws[k])
    ensures r.Some? ==>
              && cursor <= r.value < cursor + left
              && !Rejected(board, size, draws[r.value])
              && forall k :: cursor <= k < r.value ==> Rejected(board, size, draws[k])
    decreases left
  {
    if left == 0 then None
    else if !Rejected(board, size, draws[cursor]) then Some(cursor)
    else FirstAccepted(board, size, draws, cursor + 1, left - 1)
  }

  /** Up to 50 tries at one ship, one draw per try: the first draw canPlace
      accepts places the ship; when every try fails, nothing is placed and
      all 50 draws are spent. */
  function PlaceWithRetries(p: Placement, cfg: ShipConfig, draws: seq<Draw>, cursor: nat, stamp: string): (r: Attempt)
    requires WellFormed(p.board) && cursor + ShipAttempts <= |draws|
    ensures cursor <= r.cursor <= cursor + ShipAttempts
    ensures r.placement.None? ==>
              && r.cursor == cursor + ShipAttempts
              && forall k :: cursor <= k < r.cursor ==> Rejected(p.board, cfg.size, draws[k])
    ensures r.placement.Some? ==>
              && cursor < r.cursor
              && (forall k :: cursor <= k < r.cursor - 1 ==> Rejected(p.board, cfg.size, draws[k]))
              && var d := draws[r.cursor - 1];
                 r.placement == TryPlace(p, cfg, d.x, d.y, d.horizontal, stamp)
  {
    match FirstAccepted(p.board, cfg.size, draws, cursor, ShipAttempts)
    case None => Attempt(None, cursor + ShipAttempts)
    case Some(k) =>
      var d := draws[k];
      Attempt(TryPlace(p, cfg, d.x, d.y, d.horizontal, stamp), k + 1)
  }

  /** `ships` holds one ship per entry of `cfgs`, in the same order, each of
      the entry's class and size and freshly laid. */
  ghost predicate FleetOf(ships: seq<Ship>, cfgs: seq<ShipConfig>) {
    && |ships| == |cfgs|
    && forall i :: 0 <= i < |cfgs| ==>
         ships[i].kind == cfgs[i].id && ships[i].size == cfgs[i].size && Laid(ships[i])
  }

  /** `q` is what laying the entries `cfgs` in order from `p` builds, each
      entry taking its tries from where the previous one stopped: the first
      entry's tries begin at draw `cursor`, and the last entry was placed
      by the draw just before `end`. */
  ghost predicate BuiltFrom(p: Placement, cfgs: seq<ShipConfig>, draws: seq<Draw>, stamp: string, cursor: nat, end: nat, q: Placement)
    decreases |cfgs|
  {
    if |cfgs| == 0 then q == p && end == cursor
    else
      && WellFormed(p.board)
      && cursor + ShipAttempts <= |draws|
      && var a := PlaceWithRetries(p, cfgs[0], draws, cursor, stamp);
         && a.placement.Some?
         && BuiltFrom(a.placement.value, cfgs[1..], draws, stamp, a.cursor, end, q)
  }

  /** A fleet attempt from `p` over `cfgs`, starting at draw `cursor`, got
      stuck at entry `i`: `q` is the placement the draws built for entries
      0 .. i-1, up to draw `start`, laid in order and consistent, and
      canPlace rejected, on `q`'s board, all 50 draws for entry `i`, from
      `start` up to `end`. */
  ghost predicate StuckAt(p: Placement, cfgs: seq<ShipConfig>, draws: seq<Draw>, stamp: string, cursor: nat, start: nat, end: nat, i: int, q: Placement) {
    && 0 <= i < |cfgs|
    && end == start + ShipAttempts
    && end <= |draws|
    && BuiltFrom(p, cfgs[..i], draws, stamp, cursor, start, q)
    && Consistent(q)
    && |q.placed| == |p.placed| + i
    && q.placed[..|p.placed|] == p.placed
    && FleetOf(q.placed[|p.placed|..], cfgs[..i])
    && forall k :: start <= k < end ==> Rejected(q.board, cfgs[i].size, draws[k])
  }

  /** One fleet attempt over the entries `cfgs`, in order; it stops at the
      first entry whose 50 tries all fail. On success every entry has been
      appended to the fleet, in order, each by the first accepted draw of
      its tries, and the board still agrees with it; on failure some entry
      had all 50 of its draws rejected on the board the draws had built for
      the entries before it. */
  function PlaceFleet(p: Placement, cfgs: seq<ShipConfig>, draws: seq<Draw>, cursor: nat, stamp: string): (r: Attempt)
    requires Consistent(p)
    requires cursor + ShipAttempts * |cfgs| <= |draws|
    ensures cursor <= r.cursor <= cursor + ShipAttempts * |cfgs|
    ensures r.placement.Some? ==>
              && Consistent(r.placement.value)
              && |r.placement.value.placed| == |p.placed| + |cfgs|
              && r.placement.value.placed[..|p.placed|] == p.placed
              && FleetOf(r.placement.value.placed[|p.placed|..], cfgs)
              && BuiltFrom(p, cfgs, draws, stamp, cursor, r.cursor, r.placement.value)
    ensures r.placement.None? ==>
              && cursor + ShipAttempts <= r.cursor
              && exists start, i, q :: StuckAt(p, cfgs, draws, stamp, cursor, start, r.cursor, i, q)
    decreases |cfgs|
  {
    if |cfgs| == 0 then
      assert p.placed[|p.placed|..] == [];
      Attempt(Some(p), cursor)
    else
      var a := PlaceWithRetries(p, cfgs[0], draws, cursor, stamp);
      RetriesKeepConsistent(p, cfgs[0], draws, cursor, stamp);
      match a.placement
      case None =>
        assert p.placed[..|p.placed|] == p.placed;
        assert cfgs[..0] == [];
        assert StuckAt(p, cfgs, draws, stamp, cursor, cursor, a.cursor, 0, p);
        Attempt(None, a.cursor)
      case Some(q) =>
        var rest := PlaceFleet(q, cfgs[1..], draws, a.cursor, stamp);
        match rest.placement
        case None =>
          StuckShifts(p, q, cfgs, draws, stamp, cursor, a.cursor, rest.cursor);
          Attempt(None, rest.cursor)
        case Some(f) =>
          FleetGrows(p, q, f, cfgs);
          BuiltJoins(p, q, f, cfgs, draws, stamp, cursor, a.cursor, rest.cursor);
          Attempt(Some(f), rest.cursor)
  }

  /** Laying the first entry and then building the rest of `cfgs` from
      where its tries stopped builds all of `cfgs`. */
  lemma BuiltJoins(p: Placement, q: Placement, f: Placement, cfgs: seq<ShipConfig>, draws: seq<Draw>, stamp: string, cursor: nat, mid: nat, end: nat)
    requires |cfgs| > 0
    requires WellFormed(p.board) && cursor + ShipAttempts <= |draws|
    ensures PlaceWithRetries(p, cfgs[0], draws, cursor, stamp) == Attempt(Some(q), mid) &&
            BuiltFrom(q, cfgs[1..], draws, stamp, mid, end, f) ==>
              BuiltFrom(p, cfgs, draws, stamp, cursor, end, f)
  {
  }

  /** Getting stuck after the first entry was laid is getting stuck one
      entry later in the whole attempt. */
  lemma StuckShifts(p: Placement, q: Placement, cfgs: seq<ShipConfig>, draws: seq<Draw>, stamp: string, cursor: nat, mid: nat, end: nat)
    requires |cfgs| > 0
    requires WellFormed(p.board) && cursor + ShipAttempts <= |draws|
    requires |q.placed| == |p.placed| + 1 && q.placed[..|p.placed|] == p.placed
    requires q.placed[|p.placed|].kind == cfgs[0].id && q.placed[|p.placed|].size == cfgs[0].size
    requires Laid(q.placed[|p.placed|])
    ensures PlaceWithRetries(p, cfgs[0], draws, cursor, stamp) == Attempt(Some(q), mid) &&
            (exists start, i, g :: StuckAt(q, cfgs[1..], draws, stamp, mid, start, end, i, g)) ==>
              exists start, i, g :: StuckAt(p, cfgs, draws, stamp, cursor, start, end, i, g)
  {
    if PlaceWithRetries(p, cfgs[0], draws, cursor, stamp) == Attempt(Some(q), mid) &&
       exists start, i, g :: StuckAt(q, cfgs[1..], draws, stamp, mid, start, end, i, g)
    {
      var start, i, g :| StuckAt(q, cfgs[1..], draws, stamp, mid, start, end, i, g);
      StuckShiftsAt(p, q, cfgs, draws, stamp, cursor, mid, start, end, i, g);
    }
  }

  /** `StuckShifts` for one stuck point of the tail attempt. */
  lemma StuckShiftsAt(p: Placement, q: Placement, cfgs: seq<ShipConfig>, draws: seq<Draw>, stamp: string, cursor: nat, mid: nat, start: nat, end: nat, i: int, g: Placement)
    requires |cfgs| > 0
    requires WellFormed(p.board) && cursor + ShipAttempts <= |draws|
    requires |q.placed| == |p.placed| + 1 && q.placed[..|p.placed|] == p.placed
    requires q.placed[|p.placed|].kind == cfgs[0].id && q.placed[|p.placed|].size == cfgs[0].size
    requires Laid(q.placed[|p.placed|])
    ensures PlaceWithRetries(p, cfgs[0], draws, cursor, stamp) == Attempt(Some(q), mid) &&
            StuckAt(q, cfgs[1..], draws, stamp, mid, start, end, i, g) ==>
              StuckAt(p, cfgs, draws, stamp, cursor, start, end, i + 1, g)
  {
    if PlaceWithRetries(p, cfgs[0], draws, cursor, stamp) == Attempt(Some(q), mid) &&
       StuckAt(q, cfgs[1..], draws, stamp, mid, start, end, i, g)
    {
      BuiltCons(p, q, cfgs[0], cfgs[1..][..i], draws, stamp, cursor, mid, start, g);
      PrefixTail(cfgs, i);
      FleetGrows(p, q, g, cfgs[..i + 1]);
    }
  }

  /** The first `i + 1` entries, without the first, are the first `i`
      entries after the first. */
  lemma PrefixTail<T>(s: seq<T>, i: nat)
    requires i < |s|
    ensures s[..i + 1] == [s[0]] + s[1..][..i]
  {
  }

  /** Placing entry `cfg` and then building `rest` from where its tries
      stopped builds `cfg` followed by `rest`. */
  lemma BuiltCons(p: Placement, q: Placement, cfg: ShipConfig, rest: seq<ShipConfig>, draws: seq<Draw>, stamp: string, cursor: nat, mid: nat, end: nat, g: Placement)
    requires WellFormed(p.board) && cursor + ShipAttempts <= |draws|
    ensures PlaceWithRetries(p, cfg, draws, cursor, stamp) == Attempt(Some(q), mid) &&
            BuiltFrom(q, rest, draws, stamp, mid, end, g) ==>
              BuiltFrom(p, [cfg] + rest, draws, stamp, cursor, end, g)
  {
    assert ([cfg] + rest)[0] == cfg;
    assert ([cfg] + rest)[1..] == rest;
  }

  /** A successful run of tries appends one ship of the entry to a
      consistent placement and keeps it consistent. */
  lemma RetriesKeepConsistent(p: Placement, cfg: ShipConfig, draws: seq<Draw>, cursor: nat, stamp: string)
    requires Consistent(p) && cursor + ShipAttempts <= |draws|
    ensures var a := PlaceWithRetries(p, cfg, draws, cursor, stamp);
            a.placement.Some? ==>
              && Consistent(a.placement.value)
              && |a.placement.value.placed| == |p.placed| + 1
              && a.placement.value.placed[..|p.placed|] == p.placed
              && a.placement.value.placed[|p.placed|].kind == cfg.id
              && a.placement.value.placed[|p.placed|].size == cfg.size
              && Laid(a.placement.value.placed[|p.placed|])
  {
    var a := PlaceWithRetries(p, cfg, draws, cursor, stamp);
    if a.placement.Some? {
      var d := draws[a.cursor - 1];
      TryPlaceKeepsConsistent(p, cfg, d.x, d.y, d.horizontal, stamp);
    }
  }

  /** Gluing the first placed entry to the rest of a fleet attempt. */
  lemma FleetGrows(p: Placement, q: Placement, f: Placement, cfgs: seq<ShipConfig>)
    requires |cfgs| > 0
    requires |q.placed| == |p.placed| + 1 && q.placed[..|p.placed|] == p.placed
    requires q.placed[|p.placed|].kind == cfgs[0].id && q.placed[|p.placed|].size == cfgs[0].size
    requires Laid(q.placed[|p.placed|])
    requires |f.placed| == |q.placed| + |cfgs| - 1 && f.placed[..|q.placed|] == q.placed
    requires FleetOf(f.placed[|q.placed|..], cfgs[1..])
    ensures |f.placed| == |p.placed| + |cfgs|
    ensures f.placed[..|p.placed|] == p.placed
    ensures FleetOf(f.placed[|p.placed|..], cfgs)
  {
  }

  /** The outcome of auto-placement: the placement now shown, whether a
      fleet was found, and how many draws were consumed. */
  datatype Randomized = Randomized(placement: Placement, success: bool, used: nat)

  /** Every one of the `n` fleet attempts starting at draw `cursor` fails,
      each one starting where the previous one stopped. */
  ghost predicate AllAttemptsFail(draws: seq<Draw>, cursor: nat, n: nat, stamp: string)
    requires cursor + 250 * n <= |draws|
    decreases n
  {
    n == 0 ||
    var a := FleetAttempt(draws, cursor, stamp);
    a.placement.None? && AllAttemptsFail(draws, a.cursor, n - 1, stamp)
  }

  /** The first `k` fleet attempts from draw `cursor` all fail, each one
      starting where the previous one stopped, and the attempt after them
      starts at draw `next`. */
  ghost predicate FailsThrough(draws: seq<Draw>, cursor: nat, k: nat, stamp: string, next: nat)
    decreases k
  {
    if k == 0 then next == cursor
    else
      && cursor + 250 <= |draws|
      && var a := FleetAttempt(draws, cursor, stamp);
         && a.placement.None?
         && FailsThrough(draws, a.cursor, k - 1, stamp, next)
  }

  /** Placement `pl`, after `used` draws, is what the first successful
      fleet attempt from draw `cursor` built: the `k` attempts before it
      failed, and the one starting at draw `next` built `pl`. */
  ghost predicate ShownBy(draws: seq<Draw>, cursor: nat, k: nat, stamp: string, next: nat, pl: Placement, used: nat) {
    && FailsThrough(draws, cursor, k, stamp, next)
    && next + 250 <= |draws|
    && FleetAttempt(draws, next, stamp) == Attempt(Some(pl), used)
  }

  /** A failed attempt in front of a shown placement's attempts adds one
      more failed attempt to them. */
  lemma ShownAfterFailure(draws: seq<Draw>, cursor: nat, n: nat, stamp: string, pl: Placement, used: nat)
    requires cursor + 250 <= |draws|
    ensures var a := FleetAttempt(draws, cursor, stamp);
            a.placement.None? && (exists k: nat, next: nat :: k < n && ShownBy(draws, a.cursor, k, stamp, next, pl, used)) ==>
              exists k: nat, next: nat :: k < n + 1 && ShownBy(draws, cursor, k, stamp, next, pl, used)
  {
    var a := FleetAttempt(draws, cursor, stamp);
    if a.placement.None? && exists k: nat, next: nat :: k < n && ShownBy(draws, a.cursor, k, stamp, next, pl, used) {
      var k: nat, next: nat :| k < n && ShownBy(draws, a.cursor, k, stamp, next, pl, used);
      FailureExtends(draws, cursor, k, stamp, next);
      assert ShownBy(draws, cursor, k + 1, stamp, next, pl, used);
    }
  }

  /** A failed attempt followed by `k` more failed ones is `k + 1` failed
      attempts. */
  lemma FailureExtends(draws: seq<Draw>, cursor: nat, k: nat, stamp: string, next: nat)
    requires cursor + 250 <= |draws|
    ensures var a := FleetAttempt(draws, cursor, stamp);
            a.placement.None? && FailsThrough(draws, a.cursor, k, stamp, next) ==>
              FailsThrough(draws, cursor, k + 1, stamp, next)
  {
  }

  /** Fleet attempts from attempt `attempts` on; each starts again from an
      empty board and no ships. Each remaining attempt may use up to 250
      (`DrawsPerFleet`) draws and a failed one uses at least 50; the bounds
      are written with literals so that they stay linear arithmetic. */
  function RandomizeFrom(p: Placement, draws: seq<Draw>, cursor: nat, attempts: nat, stamp: string): (r: Randomized)
    requires attempts <= FleetAttempts
    requires cursor + 250 * (FleetAttempts - attempts) <= |draws|
    ensures cursor <= r.used <= cursor + 250 * (FleetAttempts - attempts)
    ensures !r.success <==> AllAttemptsFail(draws, cursor, FleetAttempts - attempts, stamp)
    ensures !r.success ==> r.placement == p && cursor + 50 * (FleetAttempts - attempts) <= r.used
    ensures r.success ==> Complete(r.placement)
    ensures r.success ==>
              exists k: nat, next: nat :: k < FleetAttempts - attempts && ShownBy(draws, cursor, k, stamp, next, r.placement, r.used)
    decreases FleetAttempts - attempts
  {
    if attempts == FleetAttempts then Randomized(p, false, cursor)
    else
      var a := FleetAttempt(draws, cursor, stamp);
      match a.placement
      case Some(q) =>
        assert ShownBy(draws, cursor, 0, stamp, cursor, q, a.cursor);
        Randomized(q, true, a.cursor)
      case None =>
        var r := RandomizeFrom(p, draws, a.cursor, attempts + 1, stamp);
        ShownAfterFailure(draws, cursor, FleetAttempts - (attempts + 1), stamp, r.placement, r.used);
        r
  }

  /** A failed fleet attempt hands auto-placement on to the next attempt,
      which starts where the failed one stopped. */
  lemma FailedAttemptMovesOn(p: Placement, draws: seq<Draw>, cursor: nat, attempts: nat, stamp: string)
    requires attempts < FleetAttempts
    requires cursor + 250 * (FleetAttempts - attempts) <= |draws|
    ensures var a := FleetAttempt(draws, cursor, stamp);
            a.placement.None? ==>
              RandomizeFrom(p, draws, cursor, attempts, stamp) == RandomizeFrom(p, draws, a.cursor, attempts + 1, stamp)
  {
  }

  /** The first fleet attempt that succeeds ends auto-placement: its
      placement is the one shown. */
  lemma FirstFleetWins(p: Placement, draws: seq<Draw>, cursor: nat, attempts: nat, stamp: string)
    requires attempts < FleetAttempts
    requires cursor + 250 * (FleetAttempts - attempts) <= |draws|
    ensures var r := RandomizeFrom(p, draws, cursor, attempts, stamp);
            var a := FleetAttempt(draws, cursor, stamp);
            a.placement.Some? ==> r.success && r.placement == a.placement.value && r.used == a.cursor
  {
  }

  /** A finished auto-placement: consistent, with one freshly laid ship per
      table entry, in table order. */
  ghost predicate Complete(pl: Placement) {
    Consistent(pl) && FleetOf(pl.placed, Ships)
  }

  /** One whole-fleet attempt, on a fresh empty board with no ships: on
      success the fleet the draws built from it, on failure the entry the
      draws got stuck at. */
  function FleetAttempt(draws: seq<Draw>, cursor: nat, stamp: string): (a: Attempt)
    requires cursor + DrawsPerFleet <= |draws|
    ensures cursor <= a.cursor <= cursor + DrawsPerFleet
    ensures a.placement.Some? ==>
              && Complete(a.placement.value)
              && BuiltFrom(Placement(CreateEmptyBoard(), []), Ships, draws, stamp, cursor, a.cursor, a.placement.value)
    ensures a.placement.None? ==>
              && cursor + ShipAttempts <= a.cursor
              && exists start, i, q :: StuckAt(Placement(CreateEmptyBoard(), []), Ships, draws, stamp, cursor, start, a.cursor, i, q)
  {
    TableShape();
    assert ShipAttempts * |Ships| == DrawsPerFleet;
    EmptyPlacementConsistent();
    var a := PlaceFleet(Placement(CreateEmptyBoard(), []), Ships, draws, cursor, stamp);
    assert a.placement.Some? ==> a.placement.value.placed[0..] == a.placement.value.placed;
    a
  }

  /** Random auto-placement. Draws come from `draws` in order, one per try.
      On success the shown placement is the one built by the first fleet
      attempt that succeeds, a fresh board holding every table entry
      exactly once, in table order, consistent with the board;
      it fails only when all 100 fleet attempts fail, and then the shown
      placement is left as it was. At most 100 x 5 x 50 draws are consumed,
      and a failure has consumed at least 100 x 50. */
  function Randomize(p: Placement, draws: seq<Draw>, stamp: string): (r: Randomized)
    requires MaxDraws <= |draws|
    ensures r.used <= MaxDraws
    ensures !r.success <==> AllAttemptsFail(draws, 0, FleetAttempts, stamp)
    ensures !r.success ==> r.placement == p && 5000 <= r.used
    ensures r.success ==> Complete(r.placement)
    ensures r.success ==>
              exists k: nat, next: nat :: k < FleetAttempts && ShownBy(draws, 0, k, stamp, next, r.placement, r.used)
  {
    RandomizeFrom(p, draws, 0, 0, stamp)
  }

  /** A complete placement, such as a successful auto-placement produces,
      leaves the dock empty and holds no class twice. */
  lemma CompleteFleetEmptiesDock(pl: Placement)
    requires Complete(pl)
    ensures AvailableShips(pl.placed) == []
    ensures forall i, j :: 0 <= i < j < |pl.placed| ==> pl.placed[i].kind != pl.placed[j].kind
  {
    TableShape();
    forall c | c in Ships ensures IsPlaced(pl.placed, c.id) {
      var i :| 0 <= i < |Ships| && Ships[i] == c;
      assert pl.placed[i].kind == c.id;
    }
  }

  /** A complete placement, handed to a defender facing an attacker who has
      not fired, satisfies the battle invariant and is not yet defeated. */
  lemma CompleteFleetIsBattleReady(pl: Placement, a: Player, d: Player)
    requires Complete(pl)
    requires d.ships == pl.placed
    requires a.shotsFired == []
    ensures Battle.Engaged(a, d)
    ensures !CheckVictory(d)
  {
    TableShape();
    var placed := d.ships;
    forall i | 0 <= i < |placed|
      ensures Battle.NoDup(placed[i].positions)
      ensures |placed[i].positions| == placed[i].size >= 1
      ensures placed[i].hits == 0 && !placed[i].sunk
    {
      assert placed[i].size == Ships[i].size;
    }
    Battle.EngagedAtStart(a, d);
    assert !placed[0].sunk;
  }
}
