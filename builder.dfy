/** builder.ts: a builder creep alternates between gathering energy from
    its assigned container and spending it on the room's structures. Its
    memory (`assignedContainerId`, `gathering`) persists between ticks. */
module Builder {
  import opened Basics
  import opened Grid
  import opened Mem
  import opened Engine
  import opened Delivery
  import opened RoomManager

  /** The container a builder works from this tick: its stored one, or the
      least-used container when it has none yet. */
  function AssignedContainer(current: Option<string>, containers: seq<string>, assignments: seq<Option<string>>): (r: Option<string>)
    ensures current.Some? ==> r == current
    ensures current.None? ==> (r.None? <==> containers == [])
  {
    if current.None? then ContainerIdWithLeastBuildersAssigned(containers, assignments) else current
  }

  /** The `gathering` flag after the two checks of `run`: it is cleared when
      the carried energy equals the capacity and set again when it is 0. An
      absent energy reading compares unequal to both. */
  function NextGathering(gathering: bool, energy: Option<int>, capacity: int): (r: bool)
    ensures gathering ==> (r <==> energy != Some(capacity) || capacity == 0)
    ensures !gathering ==> (r <==> energy == Some(0))
  {
    var afterFull := if gathering && energy == Some(capacity) then false else gathering;
    if !afterFull && energy == Some(0) then true else afterFull
  }

  /** Hysteresis: a partly filled builder keeps doing what it was doing, a
      full one spends and an empty one gathers. */
  lemma GatheringHysteresis(gathering: bool, energy: Option<int>, capacity: int)
    ensures (energy.None? || (energy.Some? && 0 < energy.value < capacity)) ==>
              NextGathering(gathering, energy, capacity) == gathering
    ensures energy == Some(capacity) && capacity > 0 ==> !NextGathering(gathering, energy, capacity)
    ensures energy == Some(0) ==> NextGathering(gathering, energy, capacity)
  {
  }

  /** `creep.carry.energy`, with `undefined` read as 0. */
  function EnergyOrZero(energy: Option<int>): int {
    if energy.Some? then energy.value else 0
  }

  /** The calls `pickupEnergy` makes on a container that exists: a withdraw
      of the free capacity, a move on `ERR_NOT_IN_RANGE`, and an error
      report for any code other than `OK`, `ERR_NOT_IN_RANGE` and
      `ERR_NOT_ENOUGH_RESOURCES`. */
  function PickupIntents(containerId: string, at: MyPosition, energy: Option<int>, capacity: int, result: Code): (intents: seq<Intent>)
    ensures |intents| >= 1 && intents[0] == Withdraw(containerId, capacity - EnergyOrZero(energy))
    ensures MoveTo(at) in intents <==> result == ErrNotInRange
    ensures ReportError(result) in intents <==> IsUnexpected(result)
    ensures |intents| <= 2
  {
    [Withdraw(containerId, capacity - EnergyOrZero(energy))]
      + (if result == ErrNotInRange then [MoveTo(at)] else [])
      + (if IsUnexpected(result) then [ReportError(result)] else [])
  }

  /** `pickupEnergy(creep, cm, rm)`: `objects` maps the ids of objects that
      still exist to their positions (`Game.getObjectById`). A vanished
      container is forgotten and nothing is withdrawn. */
  method PickupEnergy(cm: CreepMemory, objects: map<string, MyPosition>, energy: Option<int>, capacity: int, result: Code)
    returns (intents: seq<Intent>)
    modifies cm`assignedContainerId
    ensures var id := old(cm.assignedContainerId);
            if id.Some? && id.value in objects
            then cm.assignedContainerId == id && intents == PickupIntents(id.value, objects[id.value], energy, capacity, result)
            else cm.assignedContainerId == None && intents == []
  {
    if cm.assignedContainerId.None? || cm.assignedContainerId.value !in objects {
      cm.assignedContainerId := None;
      return [];
    }
    var targetId := cm.assignedContainerId.value;
    var target := objects[targetId];
    var energyCount := 0;
    if energy.Some? {
      energyCount := energy.value;
    }
    var amtEnergy := capacity - energyCount;
    intents := [Withdraw(targetId, amtEnergy)];
    if result == ErrNotInRange {
      intents := intents + [MoveTo(target)];
    }
    if result != Ok && result != ErrNotInRange && result != ErrNotEnoughResources {
      intents := intents + [ReportError(result)];
    }
  }

  /** `useEnergy(room, creep)`: deliver to the first structure that needs
      energy or, when none does, upgrade the room's controller if it has
      one. */
  function UseEnergy(structures: seq<Structure>, controller: Option<MyPosition>, transferResult: Code, upgradeResult: Code): (intents: seq<Intent>)
    ensures DeliveryTargets(structures) != [] ==> intents == TransferToFirstTarget(structures, transferResult)
    ensures DeliveryTargets(structures) == [] ==>
              (intents == [] <==> controller.None?)
              && (controller.Some? ==> intents == AttemptThenApproach(UpgradeController, controller.value, upgradeResult))
  {
    if DeliveryTargets(structures) != [] then TransferToFirstTarget(structures, transferResult)
    else if controller.Some? then AttemptThenApproach(UpgradeController, controller.value, upgradeResult)
    else []
  }

  /** The builder upgrades the controller only when no structure needs energy. */
  lemma UpgradeOnlyWhenNothingToFill(structures: seq<Structure>, controller: Option<MyPosition>, transferResult: Code, upgradeResult: Code)
    requires UpgradeController in UseEnergy(structures, controller, transferResult, upgradeResult)
    ensures forall s :: s in structures ==> !IsDeliveryTarget(s)
    ensures controller.Some?
  {
    if DeliveryTargets(structures) != [] {
      // the calls are then a transfer and perhaps a move, never an upgrade
      assert false;
    }
  }

  /** `buildIfCan(room, creep)`: builds the first construction site, moving
      toward it when out of range; reports whether there was a site. */
  function BuildIfCan(sites: seq<ConstructionSite>, result: Code): (r: (bool, seq<Intent>))
    ensures r.0 <==> sites != []
    ensures r.0 ==> r.1 == AttemptThenApproach(Build(sites[0].id), sites[0].pos, result)
    ensures !r.0 ==> r.1 == []
  {
    (sites != [], BuildFirst(sites, result))
  }

  /** `run(room, creep, rm)` for a builder. `containers` are the room's
      container ids and `assignments` the current `assignedContainerId` of
      every builder in the room; `energy` and `capacity` are the creep's
      carried energy and carry capacity. */
  method Run(cm: CreepMemory, containers: seq<string>, assignments: seq<Option<string>>,
             energy: Option<int>, capacity: int, objects: map<string, MyPosition>,
             structures: seq<Structure>, controller: Option<MyPosition>,
             withdrawResult: Code, transferResult: Code, upgradeResult: Code)
    returns (intents: seq<Intent>)
    modifies cm`assignedContainerId, cm`gathering
    ensures var chosen := AssignedContainer(old(cm.assignedContainerId), containers, assignments);
            var gathering := NextGathering(old(cm.gathering), energy, capacity);
            if chosen.None? then
              cm.assignedContainerId == None && cm.gathering == old(cm.gathering) && intents == []
            else if !gathering then
              && cm.assignedContainerId == chosen && cm.gathering == gathering
              && intents == UseEnergy(structures, controller, transferResult, upgradeResult)
            else
              && cm.gathering == gathering
              && (if chosen.value in objects
                  then cm.assignedContainerId == chosen
                       && intents == PickupIntents(chosen.value, objects[chosen.value], energy, capacity, withdrawResult)
                  else cm.assignedContainerId == None && intents == [])
  {
    if cm.assignedContainerId.None? {
      cm.assignedContainerId := ContainerIdWithLeastBuildersAssigned(containers, assignments);
    }

    if cm.assignedContainerId.None? {
      return [];
    }

    if cm.gathering && energy == Some(capacity) {
      cm.gathering := false;
    }
    if !cm.gathering && energy == Some(0) {
      cm.gathering := true;
    }

    if cm.gathering {
      intents := PickupEnergy(cm, objects, energy, capacity, withdrawResult);
    } else {
      intents := UseEnergy(structures, controller, transferResult, upgradeResult);
    }
  }
}
