/** tutorial/role.builder.js: the tutorial's builder keeps one flag,
    `building`, in its memory; it builds while the flag is set and
    harvests otherwise. */
module TutorialBuilder {
  import opened Engine

  /** `creep.memory` of a tutorial builder, as far as `run` uses it. */
  class BuilderMemory {
    var building: bool
  }

  /** The flag after the two checks of `run`: cleared when the creep is
      empty, then set when it is full. */
  function NextBuilding(building: bool, energy: int, capacity: int): (r: bool)
    ensures building ==> (r <==> energy != 0 || capacity == 0)
    ensures !building ==> (r <==> energy == capacity)
  {
    var afterEmpty := if building && energy == 0 then false else building;
    if !afterEmpty && energy == capacity then true else afterEmpty
  }

  /** Hysteresis: a partly filled creep keeps its flag, an empty one (with
      room to carry) harvests and a full one builds. */
  lemma BuildingHysteresis(building: bool, energy: int, capacity: int)
    ensures 0 < energy < capacity ==> NextBuilding(building, energy, capacity) == building
    ensures energy == 0 && capacity != 0 ==> !NextBuilding(building, energy, capacity)
    ensures energy == capacity ==> NextBuilding(building, energy, capacity)
  {
  }

  /** `roleBuilder.run(creep)`: `energy` and `capacity` are the carried
      energy and carry capacity, `sites` the room's construction sites and
      `sources` its sources, in `find` order. */
  method Run(mem: BuilderMemory, energy: int, capacity: int, sites: seq<ConstructionSite>, sources: seq<Source>,
             buildResult: Code, harvestResult: Code)
    returns (intents: seq<Intent>)
    modifies mem`building
    ensures mem.building == NextBuilding(old(mem.building), energy, capacity)
    ensures mem.building ==> intents == BuildFirst(sites, buildResult)
    ensures !mem.building ==> intents == HarvestFirst(sources, harvestResult)
  {
    if mem.building && energy == 0 {
      mem.building := false;
    }
    if !mem.building && energy == capacity {
      mem.building := true;
    }

    if mem.building {
      intents := [];
      if |sites| > 0 {
        intents := [Build(sites[0].id)];
        if buildResult == ErrNotInRange {
          intents := intents + [MoveTo(sites[0].pos)];
        }
      }
    } else {
      intents := [];
      if |sources| > 0 {
        intents := [Harvest(sources[0].id)];
        if harvestResult == ErrNotInRange {
          intents := intents + [MoveTo(sources[0].pos)];
        }
      }
    }
  }
}
