/** Asking a spawn for a new creep, as both spawn planners do it
    (roomManager.ts `spawnCreep`, creepManager.ts `_spawnCreep`): a pre-check
    with `canCreateCreep`, and on success a name built from the global
    counter `Memory.uuid`, which is advanced, and a `createCreep` call. */
module Spawning {
  import opened Basics
  import opened Mem
  import opened Engine

  /** A spawn as the planners see it: `spawning` is whether it is busy;
      `canCreate` and `create` are the engine's answers to `canCreateCreep`
      and `createCreep` this tick (a returned name counts as `Ok`). */
  datatype Spawn = Spawn(name: string, roomName: string, spawning: bool, canCreate: Code, create: Code)

  /** `room.find(FIND_MY_SPAWNS, { filter: spawn.spawning === null })`. */
  function InactiveSpawns(spawns: seq<Spawn>): (r: seq<Spawn>)
    ensures |r| <= |spawns|
  {
    if spawns == [] then []
    else (if !spawns[0].spawning then [spawns[0]] else []) + InactiveSpawns(spawns[1..])
  }

  /** The filter keeps exactly the spawns that are not busy. */
  lemma {:induction false} InactiveSpawnsMembers(spawns: seq<Spawn>)
    ensures forall s :: s in InactiveSpawns(spawns) <==> s in spawns && !s.spawning
  {
    if spawns != [] {
      InactiveSpawnsMembers(spawns[1..]);
      assert spawns == [spawns[0]] + spawns[1..];
    }
  }

  /** What one spawn attempt returns: the answer of `createCreep` after a
      passed pre-check, otherwise the pre-check's own answer. */
  function Outcome(s: Spawn): Code {
    if s.canCreate == Ok then s.create else s.canCreate
  }

  /** An attempt reports `Ok` exactly when both the pre-check and
      `createCreep` accept; any other answer is one of the two failures. */
  lemma OutcomeSpec(s: Spawn)
    ensures Outcome(s) == Ok <==> s.canCreate == Ok && s.create == Ok
    ensures Outcome(s) != Ok ==> Outcome(s) == s.canCreate || Outcome(s) == s.create
  {
  }

  /** Which planner is asking: the role-based one passes a `CreepRoles`
      member, the older one the role string "harvester". */
  datatype Template = RoleTemplate(role: Role) | LegacyTemplate(legacyRole: string)

  /** The role text the creep name embeds. */
  function Label(t: Template): string {
    match t
    case RoleTemplate(role) => RoleToString(role)
    case LegacyTemplate(role) => role
  }

  /** The memory literal handed to `createCreep`. */
  function MemoryFor(t: Template, s: Spawn): InitialMemory {
    match t
    case RoleTemplate(role) => RoleMemory(role, RoleToString(role), false, true)
    case LegacyTemplate(role) => LegacyMemory(role, s.roomName)
  }

  /** `spawn.room.name + " - " + label + uuid`. */
  function CreepName(roomName: string, roleText: string, uuid: int): string {
    roomName + " - " + roleText + IntToString(uuid)
  }

  /** In one room and for one label, different counter values give
      different names. */
  lemma CreepNameInjective(roomName: string, roleText: string, a: int, b: int)
    requires CreepName(roomName, roleText, a) == CreepName(roomName, roleText, b)
    ensures a == b
  {
    var prefix := roomName + " - " + roleText;
    assert CreepName(roomName, roleText, a)[|prefix|..] == IntToString(a);
    assert CreepName(roomName, roleText, b)[|prefix|..] == IntToString(b);
    IntToStringInjective(a, b);
  }

  /** `spawnCreep(spawn, bodyParts, role)` / `_spawnCreep(spawn, bodyParts, role)`:
      on a passed pre-check the counter grows by exactly one and the creep
      is requested under a name holding the counter's old value; otherwise
      nothing changes and the pre-check's code is returned. */
  method SpawnCreep(gm: GameMemory, spawn: Spawn, body: seq<BodyPart>, t: Template)
    returns (status: Code, call: Option<Intent>)
    requires gm.uuid.Some?
    modifies gm`uuid
    ensures status == Outcome(spawn)
    ensures spawn.canCreate == Ok ==>
              && gm.uuid == Some(old(gm.uuid).value + 1)
              && call == Some(CreateCall(spawn, body, t, old(gm.uuid).value))
    ensures spawn.canCreate != Ok ==> gm.uuid == old(gm.uuid) && call == None
  {
    var uuid := gm.uuid.value;
    var precheck := spawn.canCreate;
    if precheck == Ok {
      gm.uuid := Some(uuid + 1);
      var creepName := CreepName(spawn.roomName, Label(t), uuid);
      call := Some(CreateCreep(spawn.name, body, creepName, MemoryFor(t, spawn)));
      status := spawn.create;
    } else {
      call := None;
      status := precheck;
    }
  }

  /** The `createCreep` call for spawn `s` under counter value `uuid`: the
      given body, the name "room - role" followed by the counter, and the
      memory the planner hands to new creeps. */
  function CreateCall(s: Spawn, body: seq<BodyPart>, t: Template, uuid: int): Intent {
    CreateCreep(s.name, body, CreepName(s.roomName, Label(t), uuid), MemoryFor(t, s))
  }

  /** The spawns, in order, whose pre-check passes: each one advances the
      counter by one. */
  function Accepting(spawns: seq<Spawn>): (r: seq<Spawn>)
    ensures |r| <= |spawns|
    decreases |spawns|
  {
    if spawns == [] then []
    else
      var last := spawns[|spawns| - 1];
      Accepting(spawns[..|spawns| - 1]) + (if last.canCreate == Ok then [last] else [])
  }

  /** The accepting spawns are exactly the listed spawns whose pre-check passes. */
  lemma {:induction false} AcceptingMembers(spawns: seq<Spawn>)
    ensures forall s :: s in Accepting(spawns) <==> s in spawns && s.canCreate == Ok
    decreases |spawns|
  {
    if spawns != [] {
      var last := spawns[|spawns| - 1];
      AcceptingMembers(spawns[..|spawns| - 1]);
      assert spawns == spawns[..|spawns| - 1] + [last];
    }
  }

  /** The `createCreep` calls made when the given spawns are asked in turn,
      starting from counter value `base`: each spawn reads the counter as
      the attempts before it have left it. */
  function CreateCalls(spawns: seq<Spawn>, body: seq<BodyPart>, t: Template, base: int): seq<Intent>
    decreases |spawns|
  {
    if spawns == [] then []
    else
      var prefix := spawns[..|spawns| - 1];
      var s := spawns[|spawns| - 1];
      CreateCalls(prefix, body, t, base) +
        (if s.canCreate == Ok then [CreateCall(s, body, t, base + |Accepting(prefix)|)] else [])
  }

  /** One `createCreep` call per passed pre-check, in order, and the k-th
      call uses counter value base + k: the values handed out are
      consecutive and none is skipped or reused. */
  lemma {:induction false} CreateCallsSpec(spawns: seq<Spawn>, body: seq<BodyPart>, t: Template, base: int)
    ensures |CreateCalls(spawns, body, t, base)| == |Accepting(spawns)|
    ensures forall k :: 0 <= k < |Accepting(spawns)| ==>
              CreateCalls(spawns, body, t, base)[k] == CreateCall(Accepting(spawns)[k], body, t, base + k)
    decreases |spawns|
  {
    if spawns != [] {
      var prefix := spawns[..|spawns| - 1];
      CreateCallsSpec(prefix, body, t, base);
      if spawns[|spawns| - 1].canCreate == Ok {
        CreateCallsAppend(CreateCalls(prefix, body, t, base), Accepting(prefix), spawns[|spawns| - 1], body, t, base);
      }
    }
  }

  /** One step of the induction above: appending an accepted spawn and its
      call keeps calls and accepted spawns in step. */
  lemma CreateCallsAppend(calls: seq<Intent>, accepted: seq<Spawn>, s: Spawn, body: seq<BodyPart>, t: Template, base: int)
    requires |calls| == |accepted|
    requires forall k :: 0 <= k < |accepted| ==> calls[k] == CreateCall(accepted[k], body, t, base + k)
    ensures var calls', accepted' := calls + [CreateCall(s, body, t, base + |accepted|)], accepted + [s];
            forall k :: 0 <= k < |accepted'| ==> calls'[k] == CreateCall(accepted'[k], body, t, base + k)
  {
  }

  /** Asking one more spawn extends the calls and the accepted spawns by
      that spawn's share. */
  lemma CreateCallsStep(spawns: seq<Spawn>, i: nat, body: seq<BodyPart>, t: Template, base: int)
    requires i < |spawns|
    ensures CreateCalls(spawns[..i + 1], body, t, base) == CreateCalls(spawns[..i], body, t, base) +
              (if spawns[i].canCreate == Ok then [CreateCall(spawns[i], body, t, base + |Accepting(spawns[..i])|)] else [])
    ensures |Accepting(spawns[..i + 1])| == |Accepting(spawns[..i])| + (if spawns[i].canCreate == Ok then 1 else 0)
  {
    assert spawns[..i + 1][..i] == spawns[..i];
  }

  /** Asks the i-th spawn of a pass and records its call, if any, after
      the calls of the spawns before it. */
  method AskSpawn(gm: GameMemory, spawns: seq<Spawn>, i: nat, body: seq<BodyPart>, t: Template,
                  ghost base: int, calls: seq<Intent>)
    returns (status: Code, after: seq<Intent>)
    requires i < |spawns|
    requires calls == CreateCalls(spawns[..i], body, t, base)
    requires gm.uuid == Some(base + |Accepting(spawns[..i])|)
    modifies gm`uuid
    ensures status == Outcome(spawns[i])
    ensures after == CreateCalls(spawns[..i + 1], body, t, base)
    ensures gm.uuid == Some(base + |Accepting(spawns[..i + 1])|)
  {
    var call;
    status, call := SpawnCreep(gm, spawns[i], body, t);
    after := calls;
    if call.Some? {
      after := after + [call.value];
    }
    SpawnStep(spawns, i, body, t, base, calls, call, after);
  }

  /** One spawn asked in a pass: its call, if any, extends the calls of the
      spawns before it. */
  lemma SpawnStep(inactive: seq<Spawn>, i: nat, body: seq<BodyPart>, t: Template, base: int,
                          calls: seq<Intent>, call: Option<Intent>, after: seq<Intent>)
    requires i < |inactive|
    requires calls == CreateCalls(inactive[..i], body, t, base)
    requires inactive[i].canCreate == Ok ==>
               call == Some(CreateCall(inactive[i], body, t, base + |Accepting(inactive[..i])|))
    requires inactive[i].canCreate != Ok ==> call == None
    requires after == if call.Some? then calls + [call.value] else calls
    ensures after == CreateCalls(inactive[..i + 1], body, t, base)
    ensures |Accepting(inactive[..i + 1])| == |Accepting(inactive[..i])| + (if call.Some? then 1 else 0)
  {
    CreateCallsStep(inactive, i, body, t, base);
  }

  /** The k-th call of a pass requests a creep named with counter value base + k. */
  lemma CreateCallName(spawns: seq<Spawn>, body: seq<BodyPart>, t: Template, base: int, roomName: string, k: int)
    requires forall s :: s in spawns ==> s.roomName == roomName
    requires 0 <= k < |CreateCalls(spawns, body, t, base)|
    ensures CreateCalls(spawns, body, t, base)[k].CreateCreep?
    ensures CreateCalls(spawns, body, t, base)[k].name == CreepName(roomName, Label(t), base + k)
  {
    CreateCallsSpec(spawns, body, t, base);
    AcceptingMembers(spawns);
    assert Accepting(spawns)[k] in Accepting(spawns);
  }

  /** Every call requests a creep, each under a name of its own. */
  predicate NamesDistinct(calls: seq<Intent>) {
    && (forall k :: 0 <= k < |calls| ==> calls[k].CreateCreep?)
    && (forall i, j :: 0 <= i < j < |calls| ==> calls[i].name != calls[j].name)
  }

  /** When the spawns all stand in one room, the creeps requested in one
      pass get pairwise different names. */
  lemma CreateCallNamesDistinct(spawns: seq<Spawn>, body: seq<BodyPart>, t: Template, base: int, roomName: string)
    requires forall s :: s in spawns ==> s.roomName == roomName
    ensures NamesDistinct(CreateCalls(spawns, body, t, base))
  {
    var calls := CreateCalls(spawns, body, t, base);
    forall k | 0 <= k < |calls|
      ensures calls[k].CreateCreep? && calls[k].name == CreepName(roomName, Label(t), base + k)
    {
      CreateCallName(spawns, body, t, base, roomName, k);
    }
    forall i, j | 0 <= i < j < |calls|
      ensures calls[i].name != calls[j].name
    {
      if calls[i].name == calls[j].name {
        CreepNameInjective(roomName, Label(t), base + i, base + j);
      }
    }
  }

  /** How many spawns `tryToSpawnCreep` asks: all of them up to and including
      the first one whose attempt returns `Ok`. */
  function AttemptCount(spawns: seq<Spawn>): (n: nat)
    ensures n <= |spawns|
  {
    if spawns == [] then 0
    else if Outcome(spawns[0]) == Ok then 1
    else 1 + AttemptCount(spawns[1..])
  }

  /** Attempts stop right after the first accepted one: every attempt but
      the last was refused, and either all spawns were asked or the last
      one asked accepted. Some spawn accepts iff the last one asked did. */
  lemma {:induction false} AttemptCountSpec(spawns: seq<Spawn>)
    ensures forall j :: 0 <= j < AttemptCount(spawns) - 1 ==> Outcome(spawns[j]) != Ok
    ensures AttemptCount(spawns) < |spawns| ==> AttemptCount(spawns) > 0 && Outcome(spawns[AttemptCount(spawns) - 1]) == Ok
    ensures (exists j :: 0 <= j < |spawns| && Outcome(spawns[j]) == Ok) <==>
              (AttemptCount(spawns) > 0 && Outcome(spawns[AttemptCount(spawns) - 1]) == Ok)
    decreases |spawns|
  {
    if spawns != [] && Outcome(spawns[0]) != Ok {
      AttemptCountSpec(spawns[1..]);
      assert forall j :: 1 <= j < |spawns| ==> spawns[j] == spawns[1..][j - 1];
    }
  }

  lemma {:induction false} AttemptCountAt(spawns: seq<Spawn>, i: nat)
    requires i < |spawns| && Outcome(spawns[i]) == Ok
    requires forall j :: 0 <= j < i ==> Outcome(spawns[j]) != Ok
    ensures AttemptCount(spawns) == i + 1
    decreases i
  {
    if i > 0 {
      AttemptCountAt(spawns[1..], i - 1);
    }
  }

  lemma {:induction false} AttemptCountNone(spawns: seq<Spawn>)
    requires forall j :: 0 <= j < |spawns| ==> Outcome(spawns[j]) != Ok
    ensures AttemptCount(spawns) == |spawns|
    decreases |spawns|
  {
    if spawns != [] {
      AttemptCountNone(spawns[1..]);
    }
  }
}
