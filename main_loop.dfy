/** main.ts: the once-per-tick housekeeping around the room managers: the
    global creep-name counter is kept in range and the memory of dead
    creeps is dropped every hundred ticks. */
module MainLoop {
  import opened Basics
  import opened Mem

  /** `if (!Memory.uuid || Memory.uuid > 1000) Memory.uuid = 0`: a missing
      or zero counter and one past 1000 start again from 0. */
  function ResetUuid(u: Option<int>): (r: Option<int>)
    ensures r.Some? && r.value <= 1000
    ensures u.Some? && u.value != 0 && u.value <= 1000 ==> r == u
    ensures u.None? || u.value == 0 || u.value > 1000 ==> r == Some(0)
  {
    if u.None? || u.value == 0 || u.value > 1000 then Some(0) else u
  }

  /** Normalising twice is normalising once. */
  lemma ResetUuidIdempotent(u: Option<int>)
    ensures ResetUuid(ResetUuid(u)) == ResetUuid(u)
  {
  }

  /** The first statement of `mainLoop`. */
  method NormalizeUuid(gm: GameMemory)
    modifies gm`uuid
    ensures gm.uuid == ResetUuid(old(gm.uuid))
  {
    if gm.uuid.None? || gm.uuid.value == 0 || gm.uuid.value > 1000 {
      gm.uuid := Some(0);
    }
  }

  /** `Memory.creeps` with the entries of dead creeps removed; `live` holds
      the names in `Game.creeps`. */
  function LiveCreepMemory(m: map<string, CreepMemory>, live: set<string>): (r: map<string, CreepMemory>)
    ensures forall name :: name in r <==> name in m && name in live
    ensures forall name :: name in r ==> r[name] == m[name]
  {
    map name | name in m && name in live :: m[name]
  }

  /** A second clean-up in the same tick removes nothing more. */
  lemma LiveCreepMemoryIdempotent(m: map<string, CreepMemory>, live: set<string>)
    ensures LiveCreepMemory(LiveCreepMemory(m, live), live) == LiveCreepMemory(m, live)
  {
  }

  /** `clearStaleCreepMemory()`: on ticks divisible by 100, walks the stored
      names and deletes every one that has no live creep. */
  method ClearStaleCreepMemory(gm: GameMemory, time: nat, live: set<string>)
    modifies gm`creeps
    ensures time % 100 != 0 ==> gm.creeps == old(gm.creeps)
    ensures time % 100 == 0 ==> gm.creeps == LiveCreepMemory(old(gm.creeps), live)
  {
    if time % 100 == 0 {
      var names := gm.creeps.Keys;
      while names != {}
        invariant names <= old(gm.creeps).Keys
        invariant gm.creeps == map name | name in old(gm.creeps) && (name in live || name in names) :: old(gm.creeps)[name]
        decreases |names|
      {
        var name :| name in names;
        if name !in live {
          gm.creeps := gm.creeps - {name};
        }
        names := names - {name};
      }
    }
  }

  /** `mainLoop()` without the room managers: normalise the counter, then
      clean up creep memory. */
  method Tick(gm: GameMemory, time: nat, live: set<string>)
    modifies gm`uuid, gm`creeps
    ensures gm.uuid == ResetUuid(old(gm.uuid))
    ensures time % 100 != 0 ==> gm.creeps == old(gm.creeps)
    ensures time % 100 == 0 ==> gm.creeps == LiveCreepMemory(old(gm.creeps), live)
  {
    NormalizeUuid(gm);
    ClearStaleCreepMemory(gm, time, live);
  }
}
