/** creepManager.ts: the older spawn planner. It keeps the room's creeps
    and its harvesters in module-level lists, asks every idle spawn for a
    harvester while there are fewer than two, and runs the harvesters. */
module CreepManager {
  import opened Basics
  import opened Mem
  import opened Engine
  import opened Spawning

  /** A creep as this planner sees it: its name and `memory.role` (any
      stored value; an absent role is any text other than "harvester"). */
  datatype LegacyCreep = LegacyCreep(name: string, role: string)

  const HarvesterRole: string := "harvester"

  /** `_.filter(creeps, creep => creep.memory.role === "harvester")`. */
  function Harvesters(creeps: seq<LegacyCreep>): (r: seq<LegacyCreep>)
    ensures |r| <= |creeps|
  {
    if creeps == [] then []
    else (if creeps[0].role == HarvesterRole then [creeps[0]] else []) + Harvesters(creeps[1..])
  }

  /** The harvesters are exactly the creeps whose role is "harvester". */
  lemma {:induction false} HarvestersSpec(creeps: seq<LegacyCreep>)
    ensures forall c :: c in Harvesters(creeps) <==> c in creeps && c.role == HarvesterRole
  {
    if creeps != [] {
      HarvestersSpec(creeps[1..]);
      assert creeps == [creeps[0]] + creeps[1..];
    }
  }

  /** The body `_buildMissingCreeps` chooses: the 4-part body for the first
      harvester or a room that holds at most 800 energy, the 8-part body
      otherwise. */
  function HarvesterBody(harvesters: nat, energyCapacity: int): (body: seq<BodyPart>)
    ensures body == SmallBody || body == LargeBody
    ensures body == LargeBody <==> harvesters >= 1 && energyCapacity > 800
  {
    if harvesters < 1 || energyCapacity <= 800 then SmallBody
    else LargeBody
  }

  /** Energy cost of a body part: `BODYPART_COST` of the game. */
  function PartCost(p: BodyPart): nat {
    match p
    case Work => 100
    case Carry => 50
    case Move => 50
  }

  function BodyCost(body: seq<BodyPart>): nat {
    if body == [] then 0 else PartCost(body[0]) + BodyCost(body[1..])
  }

  /** The chosen body never costs more than the room can hold once the room
      holds at least 300 energy: the 8-part body (600) is chosen only above
      800, the 4-part one costs 300. */
  lemma HarvesterBodyAffordable(harvesters: nat, energyCapacity: int)
    requires energyCapacity >= 300
    ensures BodyCost(HarvesterBody(harvesters, energyCapacity)) <= energyCapacity
  {
    assert BodyCost(SmallBody) == 300;
    assert BodyCost(LargeBody) == 600;
  }

  /** The module-level state of creepManager.ts. */
  class Manager {
    var creeps: seq<LegacyCreep>
    var creepCount: nat
    var harvesters: seq<LegacyCreep>

    constructor ()
      ensures creepCount == 0 && harvesters == []
    {
      creepCount := 0;
      harvesters := [];
    }

    /** `_loadCreeps(room)`. */
    method LoadCreeps(roomCreeps: seq<LegacyCreep>)
      modifies this
      ensures creeps == roomCreeps
      ensures creepCount == |roomCreeps|
      ensures harvesters == Harvesters(roomCreeps)
    {
      creeps := roomCreeps;
      creepCount := |creeps|;
      harvesters := Harvesters(creeps);
    }

    /** `_buildMissingCreeps(room)`: while there are fewer than two
        harvesters, every idle spawn is asked for one, whatever the earlier
        spawns answered. */
    method BuildMissingCreeps(gm: GameMemory, spawns: seq<Spawn>, energyCapacity: int)
      returns (calls: seq<Intent>)
      requires gm.uuid.Some?
      modifies gm`uuid
      ensures var inactive := InactiveSpawns(spawns);
              var body := HarvesterBody(|harvesters|, energyCapacity);
              if |harvesters| < 2 then
                && calls == CreateCalls(inactive, body, LegacyTemplate(HarvesterRole), old(gm.uuid).value)
                && gm.uuid == Some(old(gm.uuid).value + |Accepting(inactive)|)
              else calls == [] && gm.uuid == old(gm.uuid)
    {
      calls := [];
      if |harvesters| < 2 {
        var bodyParts := HarvesterBody(|harvesters|, energyCapacity);
        calls := SpawnFromEach(gm, InactiveSpawns(spawns), bodyParts, LegacyTemplate(HarvesterRole));
      }
    }

    /** `run(room)`: load, spawn, then hand every harvester, in order, to
        the harvester role; returns the spawn calls and the names of the
        creeps run as harvesters. */
    method Run(gm: GameMemory, roomCreeps: seq<LegacyCreep>, spawns: seq<Spawn>, energyCapacity: int)
      returns (calls: seq<Intent>, dispatched: seq<string>)
      requires gm.uuid.Some?
      modifies this, gm`uuid
      ensures creeps == roomCreeps && creepCount == |roomCreeps| && harvesters == Harvesters(roomCreeps)
      ensures var inactive := InactiveSpawns(spawns);
              var body := HarvesterBody(|Harvesters(roomCreeps)|, energyCapacity);
              if |Harvesters(roomCreeps)| < 2 then
                && calls == CreateCalls(inactive, body, LegacyTemplate(HarvesterRole), old(gm.uuid).value)
                && gm.uuid == Some(old(gm.uuid).value + |Accepting(inactive)|)
              else calls == [] && gm.uuid == old(gm.uuid)
      ensures |dispatched| == |Harvesters(roomCreeps)|
      ensures forall i :: 0 <= i < |dispatched| ==> dispatched[i] == Harvesters(roomCreeps)[i].name
    {
      LoadCreeps(roomCreeps);
      calls := BuildMissingCreeps(gm, spawns, energyCapacity);
      dispatched := Dispatch(creeps);
      HarvesterNamesSpec(roomCreeps);
    }
  }

  /** `_.each(spawns, spawn => _spawnCreep(...))`: every given spawn is
      asked, whatever the earlier ones answered. */
  method SpawnFromEach(gm: GameMemory, inactive: seq<Spawn>, body: seq<BodyPart>, t: Template)
    returns (calls: seq<Intent>)
    requires gm.uuid.Some?
    modifies gm`uuid
    ensures calls == CreateCalls(inactive, body, t, old(gm.uuid).value)
    ensures gm.uuid == Some(old(gm.uuid).value + |Accepting(inactive)|)
  {
    ghost var base := gm.uuid.value;
    calls := [];
    for i := 0 to |inactive|
      invariant calls == CreateCalls(inactive[..i], body, t, base)
      invariant gm.uuid == Some(base + |Accepting(inactive[..i])|)
    {
      var status;
      status, calls := AskSpawn(gm, inactive, i, body, t, base, calls);
    }
    assert inactive[..|inactive|] == inactive;
  }

  /** The loop of `run` that hands each harvester, in order, to the
      harvester role; returns the names of the creeps it runs. */
  method Dispatch(roster: seq<LegacyCreep>) returns (dispatched: seq<string>)
    ensures dispatched == HarvesterNames(roster)
  {
    dispatched := [];
    for i := 0 to |roster|
      invariant dispatched == HarvesterNames(roster[..i])
    {
      if roster[i].role == HarvesterRole {
        dispatched := dispatched + [roster[i].name];
      }
      assert roster[..i + 1] == roster[..i] + [roster[i]];
      HarvesterNamesSnoc(roster[..i], roster[i]);
    }
    assert roster[..|roster|] == roster;
  }

  /** The names of the harvesters among the given creeps, in order. */
  function HarvesterNames(creeps: seq<LegacyCreep>): seq<string>
    decreases |creeps|
  {
    if creeps == [] then []
    else
      var last := creeps[|creeps| - 1];
      HarvesterNames(creeps[..|creeps| - 1]) + (if last.role == HarvesterRole then [last.name] else [])
  }

  lemma {:induction false} HarvestersSnoc(creeps: seq<LegacyCreep>, c: LegacyCreep)
    ensures Harvesters(creeps + [c]) == Harvesters(creeps) + (if c.role == HarvesterRole then [c] else [])
    decreases |creeps|
  {
    if creeps != [] {
      assert (creeps + [c])[1..] == creeps[1..] + [c];
      HarvestersSnoc(creeps[1..], c);
    } else {
      assert [c][1..] == [];
    }
  }

  lemma HarvesterNamesSnoc(creeps: seq<LegacyCreep>, c: LegacyCreep)
    ensures HarvesterNames(creeps + [c]) == HarvesterNames(creeps) + (if c.role == HarvesterRole then [c.name] else [])
  {
    assert (creeps + [c])[..|creeps|] == creeps;
  }

  /** The names collected one creep at a time are the names of the
      filtered harvesters, position by position. */
  lemma {:induction false} HarvesterNamesSpec(creeps: seq<LegacyCreep>)
    ensures |HarvesterNames(creeps)| == |Harvesters(creeps)|
    ensures forall i :: 0 <= i < |Harvesters(creeps)| ==> HarvesterNames(creeps)[i] == Harvesters(creeps)[i].name
    decreases |creeps|
  {
    if creeps != [] {
      var prefix := creeps[..|creeps| - 1];
      var last := creeps[|creeps| - 1];
      HarvesterNamesSpec(prefix);
      assert creeps == prefix + [last];
      HarvestersSnoc(prefix, last);
    }
  }
}
