/** What repeated calls of processShot (server/src/gameUtils.ts) guarantee
    over a whole match: duplicate shots are refused, damage only grows, and
    once a fleet is in play its hit counters count exactly the attacker's
    shots that landed on it, so checkVictory holds exactly when every ship
    cell has been fired at. */
module Battle {
  import opened Types
  import opened GameUtils

  /** Every coordinate of `shots` is a legal shot target. */
  ghost predicate ValidShots(shots: seq<Coord>) {
    forall k :: 0 <= k < |shots| ==> IsValidCoordinate(shots[k])
  }

  /** No coordinate occurs twice. */
  ghost predicate NoDup(cs: seq<Coord>) {
    forall i, j :: 0 <= i < j < |cs| ==> cs[i] != cs[j]
  }

  /** Every ship is flagged sunk exactly when its hits have reached its size. */
  ghost predicate SunkIffHits(ships: seq<Ship>) {
    forall i :: 0 <= i < |ships| ==> (ships[i].sunk <==> ships[i].hits >= ships[i].size)
  }

  // ---------------------------------------------------------------------
  // One shot
  // ---------------------------------------------------------------------

  /** Firing again at a coordinate already fired at is refused, whatever the
      first shot's outcome and whatever the defender looks like now. */
  lemma RepeatedShotIsInvalid(a: Player, d: Player, x: int, y: int, d2: Player)
    requires IsValidCoordinate(Coord(x, y)) && WellFormed(a.enemyBoard)
    ensures var o := ProcessShot(a, d, x, y);
            ProcessShot(o.attacker, d2, x, y) == ShotOutcome(o.attacker, d2, Invalid)
  {
  }

  /** A shot never lowers a ship's hit counter and never clears a sunk flag. */
  lemma ShotOnlyAddsDamage(a: Player, d: Player, x: int, y: int)
    requires IsValidCoordinate(Coord(x, y)) && WellFormed(a.enemyBoard)
    ensures var o := ProcessShot(a, d, x, y);
            forall i :: 0 <= i < |d.ships| ==>
              && o.defender.ships[i].hits >= d.ships[i].hits
              && (d.ships[i].sunk ==> o.defender.ships[i].sunk)
              && o.defender.ships[i].positions == d.ships[i].positions
              && o.defender.ships[i].size == d.ships[i].size
  {
  }

  /** A shot keeps every ship's sunk flag in step with its hit counter. */
  lemma ShotKeepsSunkIffHits(a: Player, d: Player, x: int, y: int)
    requires IsValidCoordinate(Coord(x, y)) && WellFormed(a.enemyBoard)
    requires SunkIffHits(d.ships)
    ensures SunkIffHits(ProcessShot(a, d, x, y).defender.ships)
  {
  }

  /** The tracking board shows a mark exactly on the cells the player has fired at. */
  ghost predicate TracksHistory(p: Player) {
    && WellFormed(p.enemyBoard)
    && ValidShots(p.shotsFired)
    && forall c :: IsValidCoordinate(c) ==> (At(p.enemyBoard, c) != Empty <==> c in p.shotsFired)
  }

  /** A shot keeps the tracking board in step with the shot history. */
  lemma ShotKeepsTracking(a: Player, d: Player, x: int, y: int)
    requires IsValidCoordinate(Coord(x, y)) && TracksHistory(a)
    ensures TracksHistory(ProcessShot(a, d, x, y).attacker)
  {
  }

  /** The sum of the hit counters of a fleet. */
  function TotalHits(ships: seq<Ship>): nat
    decreases |ships|
  {
    if |ships| == 0 then 0 else ships[0].hits + TotalHits(ships[1..])
  }

  /** Replacing one ship changes the fleet's total by the difference of the two counters. */
  lemma {:induction false} TotalHitsUpdate(ships: seq<Ship>, i: nat, s: Ship)
    requires i < |ships|
    ensures TotalHits(ships[i := s]) + ships[i].hits == TotalHits(ships) + s.hits
    decreases |ships|
  {
    if i > 0 {
      TotalHitsUpdate(ships[1..], i - 1, s);
      assert ships[i := s][1..] == ships[1..][i - 1 := s];
    }
  }

  /** A landing shot adds exactly one hit to the whole fleet; a miss or a
      refused shot adds none. */
  lemma ShotAddsAtMostOneHit(a: Player, d: Player, x: int, y: int)
    requires IsValidCoordinate(Coord(x, y)) && WellFormed(a.enemyBoard)
    ensures var o := ProcessShot(a, d, x, y);
            TotalHits(o.defender.ships)
              == TotalHits(d.ships) + (if o.result.Hit? || o.result.Sunk? then 1 else 0)
  {
    var c := Coord(x, y);
    if c !in a.shotsFired {
      var f := FindShip(d.ships, c, 0);
      if f.Some? {
        var i := f.value;
        assert FirstCover(d.ships, c, i);
        TotalHitsUpdate(d.ships, i, Struck(d.ships[i]));
      }
    }
  }

  /** A fleet that was not yet defeated can only become defeated through a
      shot that reports SUNK. */
  lemma VictoryOnlyBySinking(a: Player, d: Player, x: int, y: int)
    requires IsValidCoordinate(Coord(x, y)) && WellFormed(a.enemyBoard)
    requires !CheckVictory(d)
    ensures var o := ProcessShot(a, d, x, y);
            CheckVictory(o.defender) ==> o.result.Sunk?
  {
  }

  // ---------------------------------------------------------------------
  // Hit counters count landed shots
  // ---------------------------------------------------------------------

  /** How many of the cells `ps` occur among `shots`. */
  function Count(ps: seq<Coord>, shots: seq<Coord>): nat
    decreases |ps|
  {
    if |ps| == 0 then 0 else (if ps[0] in shots then 1 else 0) + Count(ps[1..], shots)
  }

  /** A new shot adds one to the count of a ship exactly when it lands on one
      of the ship's (distinct) cells. */
  lemma {:induction false} CountAddShot(ps: seq<Coord>, shots: seq<Coord>, c: Coord)
    requires NoDup(ps) && c !in shots
    ensures Count(ps, shots + [c]) == Count(ps, shots) + (if c in ps then 1 else 0)
    decreases |ps|
  {
    if |ps| > 0 {
      assert NoDup(ps[1..]);
      CountAddShot(ps[1..], shots, c);
      assert c in ps <==> c == ps[0] || c in ps[1..];
      assert c == ps[0] ==> c !in ps[1..];
    }
  }

  /** The count never exceeds the number of cells, and equals it exactly when
      every cell was fired at. */
  lemma {:induction false} CountFull(ps: seq<Coord>, shots: seq<Coord>)
    ensures Count(ps, shots) <= |ps|
    ensures Count(ps, shots) == |ps| <==> forall k :: 0 <= k < |ps| ==> ps[k] in shots
    decreases |ps|
  {
    if |ps| > 0 {
      CountFull(ps[1..], shots);
      if forall k :: 0 <= k < |ps| ==> ps[k] in shots {
        assert forall k :: 0 <= k < |ps[1..]| ==> ps[1..][k] in shots by {
          forall k | 0 <= k < |ps[1..]| ensures ps[1..][k] in shots {
            assert ps[1..][k] == ps[k + 1];
          }
        }
      }
      if Count(ps, shots) == |ps| {
        forall k | 0 <= k < |ps| ensures ps[k] in shots {
          if k > 0 {
            assert ps[k] == ps[1..][k - 1];
          }
        }
      }
    }
  }

  /** No cell belongs to two ships of the fleet. */
  ghost predicate FleetDisjoint(ships: seq<Ship>) {
    forall i, j, k :: 0 <= i < j < |ships| && 0 <= k < |ships[i].positions| ==>
      ships[i].positions[k] !in ships[j].positions
  }

  /** The fleet is sound for battle: each ship has as many distinct cells as
      its size, no cell is shared, and each ship's hit counter equals the
      number of its cells in the attacker's history; the sunk flags follow
      the counters. */
  ghost predicate Engaged(attacker: Player, defender: Player) {
    && (forall i :: 0 <= i < |defender.ships| ==>
          && NoDup(defender.ships[i].positions)
          && |defender.ships[i].positions| == defender.ships[i].size
          && defender.ships[i].hits == Count(defender.ships[i].positions, attacker.shotsFired))
    && FleetDisjoint(defender.ships)
    && SunkIffHits(defender.ships)
  }

  /** A fleet just placed (no hits, nothing sunk, no ship of size zero) faced
      by an attacker who has not fired yet is engaged. */
  lemma EngagedAtStart(a: Player, d: Player)
    requires a.shotsFired == []
    requires forall i :: 0 <= i < |d.ships| ==>
               && NoDup(d.ships[i].positions)
               && |d.ships[i].positions| == d.ships[i].size >= 1
               && d.ships[i].hits == 0 && !d.ships[i].sunk
    requires FleetDisjoint(d.ships)
    ensures Engaged(a, d)
  {
    forall i | 0 <= i < |d.ships|
      ensures d.ships[i].hits == Count(d.ships[i].positions, a.shotsFired)
    {
      CountNone(d.ships[i].positions);
    }
  }

  /** Nothing is counted against an empty history. */
  lemma {:induction false} CountNone(ps: seq<Coord>)
    ensures Count(ps, []) == 0
    decreases |ps|
  {
    if |ps| > 0 {
      CountNone(ps[1..]);
    }
  }

  /** Every shot keeps the fleet engaged. */
  lemma ShotKeepsEngaged(a: Player, d: Player, x: int, y: int)
    requires IsValidCoordinate(Coord(x, y)) && WellFormed(a.enemyBoard)
    requires Engaged(a, d)
    ensures var o := ProcessShot(a, d, x, y);
            Engaged(o.attacker, o.defender)
  {
    var o := ProcessShot(a, d, x, y);
    var c := Coord(x, y);
    ShotKeepsSunkIffHits(a, d, x, y);
    ShotOnlyAddsDamage(a, d, x, y);
    if c !in a.shotsFired {
      var f := FindShip(d.ships, c, 0);
      forall j | 0 <= j < |d.ships|
        ensures o.defender.ships[j].hits == Count(o.defender.ships[j].positions, o.attacker.shotsFired)
      {
        CountAddShot(d.ships[j].positions, a.shotsFired, c);
        if f.Some? {
          var i := f.value;
          assert FirstCover(d.ships, c, i);
          if j != i {
            if j > i {
              var k :| 0 <= k < |d.ships[i].positions| && d.ships[i].positions[k] == c;
              assert c !in d.ships[j].positions;
            }
          }
        }
      }
    }
  }

  /** For an engaged fleet, no ship has been hit more often than it has cells,
      and the fleet is defeated exactly when every cell of every ship has
      been fired at. */
  lemma VictoryMeansEveryCellFired(a: Player, d: Player)
    requires Engaged(a, d)
    ensures forall i :: 0 <= i < |d.ships| ==> d.ships[i].hits <= d.ships[i].size
    ensures CheckVictory(d) <==>
              forall i, k :: 0 <= i < |d.ships| && 0 <= k < |d.ships[i].positions| ==>
                d.ships[i].positions[k] in a.shotsFired
  {
    forall i | 0 <= i < |d.ships|
      ensures d.ships[i].hits <= d.ships[i].size
      ensures d.ships[i].sunk <==> forall k :: 0 <= k < |d.ships[i].positions| ==> d.ships[i].positions[k] in a.shotsFired
    {
      CountFull(d.ships[i].positions, a.shotsFired);
    }
  }

  // ---------------------------------------------------------------------
  // A sequence of shots
  // ---------------------------------------------------------------------

  /** Both players after a sequence of shots by the same attacker, and the
      result of each shot in order. */
  datatype Volley = Volley(attacker: Player, defender: Player, results: seq<ShotResult>)

  /** Shot `k` of `shots` repeats a coordinate fired earlier in the same sequence. */
  ghost predicate RepeatsEarlier(shots: seq<Coord>, k: int)
    requires 0 <= k < |shots|
  {
    exists j :: 0 <= j < k && shots[j] == shots[k]
  }

  /** Fire `shots` one after another from `a` at `d`, collecting each result. */
  function FireAll(a: Player, d: Player, shots: seq<Coord>): (v: Volley)
    requires WellFormed(a.enemyBoard) && ValidShots(shots)
    ensures WellFormed(v.attacker.enemyBoard)
    ensures |v.results| == |shots|
    decreases |shots|
  {
    if |shots| == 0 then Volley(a, d, [])
    else
      var o := ProcessShot(a, d, shots[0].x, shots[0].y);
      var rest := FireAll(o.attacker, o.defender, shots[1..]);
      Volley(rest.attacker, rest.defender, [o.result] + rest.results)
  }

  /** After a volley the history holds exactly the coordinates it held before
      and those of the volley. */
  lemma {:induction false} VolleyHistory(a: Player, d: Player, shots: seq<Coord>)
    requires WellFormed(a.enemyBoard) && ValidShots(shots)
    ensures forall c :: c in FireAll(a, d, shots).attacker.shotsFired <==> c in a.shotsFired || c in shots
    decreases |shots|
  {
    if |shots| > 0 {
      var o := ProcessShot(a, d, shots[0].x, shots[0].y);
      assert forall c :: c in o.attacker.shotsFired <==> c in a.shotsFired || c == shots[0];
      VolleyHistory(o.attacker, o.defender, shots[1..]);
      assert forall c :: c in shots <==> c == shots[0] || c in shots[1..];
    }
  }

  /** Within a volley a shot is refused exactly when its coordinate was in
      the history before the volley or was fired earlier in the volley. */
  lemma {:induction false} VolleyRefusesRepeats(a: Player, d: Player, shots: seq<Coord>)
    requires WellFormed(a.enemyBoard) && ValidShots(shots)
    ensures var v := FireAll(a, d, shots);
            forall k :: 0 <= k < |shots| ==>
              (v.results[k] == Invalid <==> shots[k] in a.shotsFired || RepeatsEarlier(shots, k))
    decreases |shots|
  {
    if |shots| > 0 {
      var o := ProcessShot(a, d, shots[0].x, shots[0].y);
      var rest := FireAll(o.attacker, o.defender, shots[1..]);
      var v := FireAll(a, d, shots);
      assert v.results == [o.result] + rest.results;
      assert forall c :: c in o.attacker.shotsFired <==> c in a.shotsFired || c == shots[0];
      VolleyRefusesRepeats(o.attacker, o.defender, shots[1..]);
      forall k | 0 <= k < |shots|
        ensures v.results[k] == Invalid <==> shots[k] in a.shotsFired || RepeatsEarlier(shots, k)
      {
        if k == 0 {
          assert !RepeatsEarlier(shots, 0);
        } else {
          assert v.results[k] == rest.results[k - 1];
          assert shots[1..][k - 1] == shots[k];
          if RepeatsEarlier(shots, k) {
            var j :| 0 <= j < k && shots[j] == shots[k];
            if j > 0 {
              assert shots[1..][j - 1] == shots[k];
              assert RepeatsEarlier(shots[1..], k - 1);
            }
          }
          if RepeatsEarlier(shots[1..], k - 1) {
            var j :| 0 <= j < k - 1 && shots[1..][j] == shots[1..][k - 1];
            assert shots[j + 1] == shots[k];
            assert RepeatsEarlier(shots, k);
          }
        }
      }
    }
  }

  /** An engaged fleet stays engaged through any volley. */
  lemma {:induction false} VolleyKeepsEngaged(a: Player, d: Player, shots: seq<Coord>)
    requires WellFormed(a.enemyBoard) && ValidShots(shots)
    requires Engaged(a, d)
    ensures var v := FireAll(a, d, shots);
            Engaged(v.attacker, v.defender)
    decreases |shots|
  {
    if |shots| > 0 {
      var o := ProcessShot(a, d, shots[0].x, shots[0].y);
      ShotKeepsEngaged(a, d, shots[0].x, shots[0].y);
      VolleyKeepsEngaged(o.attacker, o.defender, shots[1..]);
    }
  }
}
