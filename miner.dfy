/** miner.ts: a miner harvests the first active source until it is full,
    then carries the energy to the first structure that needs it. It keeps
    no state of its own. */
module Miner {
  import opened Engine
  import opened Delivery

  /** `run(creep)`: `carried` is `_.sum(creep.carry)`, `capacity` the carry
      capacity, `activeSources` the room's `FIND_SOURCES_ACTIVE` list. */
  function Run(carried: int, capacity: int, activeSources: seq<Source>, structures: seq<Structure>,
               harvestResult: Code, transferResult: Code): (intents: seq<Intent>)
    ensures carried == capacity ==> intents == TransferToFirstTarget(structures, transferResult)
    ensures carried != capacity ==> intents == HarvestFirst(activeSources, harvestResult)
  {
    if carried == capacity then TransferToFirstTarget(structures, transferResult)
    else HarvestFirst(activeSources, harvestResult)
  }

  /** A full miner never harvests and a miner with room to spare never
      delivers; a delivery only goes to the first structure that needs
      energy, and a harvest only to the first active source. */
  lemma RunDecision(carried: int, capacity: int, activeSources: seq<Source>, structures: seq<Structure>,
                    harvestResult: Code, transferResult: Code)
    ensures var intents := Run(carried, capacity, activeSources, structures, harvestResult, transferResult);
            forall i :: 0 <= i < |intents| ==>
              && (intents[i].Harvest? ==> carried != capacity && intents[i].sourceId == activeSources[0].id)
              && (intents[i].Transfer? ==>
                    && carried == capacity
                    && exists s :: s in structures && s.id == intents[i].targetId && FirstDeliveryTargetAt(structures, s))
    ensures var intents := Run(carried, capacity, activeSources, structures, harvestResult, transferResult);
            carried == capacity && DeliveryTargets(structures) == [] ==> intents == []
  {
    var intents := Run(carried, capacity, activeSources, structures, harvestResult, transferResult);
    forall i | 0 <= i < |intents| && intents[i].Transfer?
      ensures carried == capacity
      ensures exists s :: s in structures && s.id == intents[i].targetId && FirstDeliveryTargetAt(structures, s)
    {
      if carried == capacity {
        assert Transfer(intents[i].targetId) in TransferToFirstTarget(structures, transferResult);
        TransferTargetsOnlyDeliveryTargets(structures, transferResult, intents[i].targetId);
      }
    }
  }
}
