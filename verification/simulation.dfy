/** The battle simulation script of server/src/test.ts, replayed against the
    model: a destroyer at (0,0) and (0,1), then shots at (5,5), (0,0), (0,0)
    and (0,1). */
module Simulation {
  import opened Types
  import opened GameUtils

  function FreshPlayer(id: string, name: string, ships: seq<Ship>): Player {
    Player(id, name, true, ships, CreateEmptyBoard(), [], CreateEmptyBoard())
  }

  /** The script's outcomes: MISS, then HIT with one hit recorded, then
      INVALID for the repeat, then SUNK naming the destroyer, after which the
      defender has lost. */
  lemma BattleScript()
    ensures
      var destroyer := Ship("ship-1", Destroyer, 2, [Coord(0, 0), Coord(0, 1)], 0, false);
      var a0 := FreshPlayer("player-A", "Capitán A", []);
      var b0 := FreshPlayer("player-B", "Objetivo B", [destroyer]);
      var s1 := ProcessShot(a0, b0, 5, 5);
      var s2 := ProcessShot(s1.attacker, s1.defender, 0, 0);
      var s3 := ProcessShot(s2.attacker, s2.defender, 0, 0);
      var s4 := ProcessShot(s3.attacker, s3.defender, 0, 1);
      && s1.result == Miss
      && s2.result == Hit && s2.defender.ships[0].hits == 1 && !s2.defender.ships[0].sunk
      && s3.result == Invalid
      && s4.result == Sunk(Destroyer) && s4.defender.ships[0].sunk
      && s4.result.kind.Name() == "destroyer"
      && CheckVictory(s4.defender)
  {
    var destroyer := Ship("ship-1", Destroyer, 2, [Coord(0, 0), Coord(0, 1)], 0, false);
    var a0 := FreshPlayer("player-A", "Capitán A", []);
    var b0 := FreshPlayer("player-B", "Objetivo B", [destroyer]);
    var s1 := ProcessShot(a0, b0, 5, 5);
    assert Uncovered(b0.ships, Coord(5, 5));
    assert s1.result == Miss && s1.defender == b0;
    assert s1.attacker.shotsFired == [Coord(5, 5)];
    var s2 := ProcessShot(s1.attacker, s1.defender, 0, 0);
    assert FirstCover(b0.ships, Coord(0, 0), 0);
    assert s2.defender.ships == [destroyer.(hits := 1)];
    assert s2.attacker.shotsFired == [Coord(5, 5), Coord(0, 0)];
    var s3 := ProcessShot(s2.attacker, s2.defender, 0, 0);
    assert s3.defender == s2.defender && s3.attacker == s2.attacker;
    var s4 := ProcessShot(s3.attacker, s3.defender, 0, 1);
    assert Coord(0, 1) !in s3.attacker.shotsFired;
    assert FirstCover(s3.defender.ships, Coord(0, 1), 0);
  }
}
