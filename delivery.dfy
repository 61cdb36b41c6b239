/** The drop-off filter shared by the builder (builder.ts `useEnergy`) and the
    miner (miner.ts `dropOffEnergy`): extensions, spawns and towers that still
    have room for energy, in the order the room lists its structures. */
module Delivery {
  import opened Engine

  predicate IsDeliveryTarget(s: Structure) {
    && (s.structureType == StructureExtension
        || s.structureType == StructureSpawn
        || s.structureType == StructureTower)
    && s.energy < s.energyCapacity
  }

  /** `room.find(FIND_STRUCTURES, { filter })` with the filter above. */
  function DeliveryTargets(structures: seq<Structure>): (r: seq<Structure>)
    ensures |r| <= |structures|
    ensures forall s :: s in r <==> s in structures && IsDeliveryTarget(s)
    ensures r == [] <==> forall j :: 0 <= j < |structures| ==> !IsDeliveryTarget(structures[j])
    ensures r != [] ==> FirstDeliveryTargetAt(structures, r[0])
  {
    if structures == [] then []
    else
      var rest := DeliveryTargets(structures[1..]);
      if IsDeliveryTarget(structures[0]) then [structures[0]] + rest
      else
        assert forall j :: 1 <= j < |structures| ==> structures[j] == structures[1..][j - 1];
        assert rest != [] ==> FirstDeliveryTargetAt(structures, rest[0]) by {
          if rest != [] {
            var k :| 0 <= k < |structures[1..]| && structures[1..][k] == rest[0]
                     && forall j :: 0 <= j < k ==> !IsDeliveryTarget(structures[1..][j]);
            assert structures[k + 1] == rest[0];
          }
        }
        rest
  }

  /** `creep.transfer(targets[0], RESOURCE_ENERGY)` with a move on
      `ERR_NOT_IN_RANGE`, when the filter keeps any structure; nothing
      otherwise. */
  function TransferToFirstTarget(structures: seq<Structure>, result: Code): (intents: seq<Intent>)
    ensures intents == [] <==> DeliveryTargets(structures) == []
    ensures intents != [] ==>
              exists t :: FirstDeliveryTargetAt(structures, t)
                          && intents == AttemptThenApproach(Transfer(t.id), t.pos, result)
  {
    var targets := DeliveryTargets(structures);
    if targets == [] then [] else AttemptThenApproach(Transfer(targets[0].id), targets[0].pos, result)
  }

  /** Energy only ever goes to an extension, spawn or tower with room to
      spare, and to the first such structure in the list. */
  lemma TransferTargetsOnlyDeliveryTargets(structures: seq<Structure>, result: Code, id: string)
    requires Transfer(id) in TransferToFirstTarget(structures, result)
    ensures exists s :: s in structures && s.id == id && IsDeliveryTarget(s) && FirstDeliveryTargetAt(structures, s)
  {
    var targets := DeliveryTargets(structures);
    assert targets[0] in targets;
  }

  /** `t` is the first structure of the list that the filter keeps. */
  predicate FirstDeliveryTargetAt(structures: seq<Structure>, t: Structure) {
    exists k :: 0 <= k < |structures| && structures[k] == t && IsDeliveryTarget(t)
                && forall j :: 0 <= j < k ==> !IsDeliveryTarget(structures[j])
  }
}
