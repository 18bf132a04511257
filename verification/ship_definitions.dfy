/** The fleet table of cliente/src/components/ShipDefinitions.tsx, reduced to
    the two fields the game logic reads: the class tag and the length. */
module ShipDefinitions {
  import opened Types
  import GameUtils

  datatype ShipConfig = ShipConfig(id: ShipType, size: nat)

  /** The fleet every player places, in table order. */
  const Ships: seq<ShipConfig> := [
    ShipConfig(Carrier, 5),
    ShipConfig(Battleship, 4),
    ShipConfig(Submarine, 3),
    ShipConfig(Cruiser, 3),
    ShipConfig(Destroyer, 2)
  ]

  /** No two entries share a class tag. */
  ghost predicate DistinctIds(cfgs: seq<ShipConfig>) {
    forall i, j :: 0 <= i < j < |cfgs| ==> cfgs[i].id != cfgs[j].id
  }

  /** Every entry is at least one cell long and fits on the board. */
  ghost predicate SizesFit(cfgs: seq<ShipConfig>) {
    forall i :: 0 <= i < |cfgs| ==> 1 <= cfgs[i].size <= GameUtils.BoardSize
  }

  /** Some entry of `cfgs` carries class tag `t`. */
  ghost predicate Lists(cfgs: seq<ShipConfig>, t: ShipType) {
    exists i :: 0 <= i < |cfgs| && cfgs[i].id == t
  }

  /** The table has five entries, one per class, with the sizes the game
      uses; the ids are distinct and every ship fits the board. */
  lemma TableShape()
    ensures |Ships| == 5
    ensures [Ships[0].id, Ships[1].id, Ships[2].id, Ships[3].id, Ships[4].id]
         == [Carrier, Battleship, Submarine, Cruiser, Destroyer]
    ensures [Ships[0].size, Ships[1].size, Ships[2].size, Ships[3].size, Ships[4].size]
         == [5, 4, 3, 3, 2]
    ensures DistinctIds(Ships)
    ensures SizesFit(Ships)
    ensures forall t: ShipType :: Lists(Ships, t)
  {
  }

  /** The entry a class tag names is unique: equal tags in the table mean the same entry. */
  lemma IdsDetermineEntry(c: ShipConfig, d: ShipConfig)
    requires c in Ships && d in Ships && c.id == d.id
    ensures c == d
  {
  }
}
