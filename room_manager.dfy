/** The imperative half of roomManager.ts: filling a room's memory, revalidating
    mining-task owners, choosing a container for a builder, deciding which
    creep to spawn, and the per-tick `run` over the room's creeps. */
module RoomManager {
  import opened Basics
  import opened Grid
  import opened Mem
  import opened Engine
  import opened RoomPlanning
  import opened Spawning

  // ---------------------------------------------------------------------
  // initRoomMemory
  // ---------------------------------------------------------------------

  /** `initRoomMemory(room, roomName)`: the room's memory is rebuilt from its
      sources, in `find` order. The mining tasks, source entries and
      container positions are those the planning functions describe. */
  method InitRoomMemory(rm: RoomMemory, roomName: string, sources: seq<Source>,
                        isWall: MyPosition -> bool, spawns: seq<MyPosition>)
    modifies rm
    ensures rm.roomName == roomName
    ensures rm.minerTasks == RoomTasks(sources, isWall)
    ensures rm.energySources == SourcePositions(sources)
    ensures rm.containerPositions == RoomContainers(sources, isWall, spawns)
    ensures rm.desiredBuilders == 2
  {
    rm.roomName := roomName;
    rm.minerTasks := [];
    rm.energySources := [];
    rm.containerPositions := [];
    rm.desiredBuilders := 2;

    var taskIdNum := 0;
    for i := 0 to |sources|
      invariant rm.roomName == roomName && rm.desiredBuilders == 2
      invariant rm.minerTasks == RoomTasks(sources[..i], isWall)
      invariant taskIdNum == |rm.minerTasks|
      invariant rm.energySources == SourcePositions(sources[..i])
      invariant rm.containerPositions == RoomContainers(sources[..i], isWall, spawns)
    {
      var source := sources[i];
      assert sources[..i + 1][..i] == sources[..i];
      assert sources[..i + 1][i] == source;
      var sourcePos := PositionPlusTarget(source.pos.x, source.pos.y, source.id);
      SourcePositionsSnoc(sources, i);
      rm.energySources := rm.energySources + [sourcePos];

      var minerTasksForSource;
      minerTasksForSource, taskIdNum := PushSourceTasks(rm, source, isWall, taskIdNum);

      var containerPos := OptimalContainerPosition(minerTasksForSource, sourcePos, isWall, spawns);
      if containerPos.Some? {
        rm.containerPositions := rm.containerPositions + [containerPos.value];
      }
    }
    assert sources[..|sources|] == sources;
  }

  /** The inner loop of `initRoomMemory`: one task per kept neighbour of the
      source, numbered on from `taskIdNum`, pushed onto `rm.minerTasks` and
      onto the per-source list. */
  method PushSourceTasks(rm: RoomMemory, source: Source, isWall: MyPosition -> bool, taskIdNum: int)
    returns (minerTasksForSource: seq<MinerTask>, lastTaskId: int)
    modifies rm`minerTasks
    ensures minerTasksForSource == SourceTasks(source, isWall, taskIdNum)
    ensures rm.minerTasks == old(rm.minerTasks) + minerTasksForSource
    ensures lastTaskId == taskIdNum + |minerTasksForSource|
  {
    ghost var cells: seq<MyPosition> := [];
    minerTasksForSource := [];
    lastTaskId := taskIdNum;
    for j := 0 to 8
      invariant cells == KeptNeighbours(source.pos, isWall, j)
      invariant minerTasksForSource == NumberTasks(cells, source.id, taskIdNum)
      invariant rm.minerTasks == old(rm.minerTasks) + minerTasksForSource
      invariant lastTaskId == taskIdNum + |minerTasksForSource|
    {
      var pos := NeighbourCell(source.pos, j);
      assert KeptNeighbours(source.pos, isWall, j + 1)
             == KeptNeighbours(source.pos, isWall, j) + (if InRoom(pos) && !isWall(pos) then [pos] else []);
      if InRoom(pos) {
        if !isWall(pos) {
          var minerPos := PositionPlusTarget(pos.x, pos.y, source.id);
          lastTaskId := lastTaskId + 1;
          var minerTask := MinerTask(lastTaskId, minerPos, None);
          NumberTasksSnoc(cells, pos, source.id, taskIdNum);
          cells := cells + [pos];
          rm.minerTasks := rm.minerTasks + [minerTask];
          minerTasksForSource := minerTasksForSource + [minerTask];
        }
      }
    }
  }

  // ---------------------------------------------------------------------
  // cleanupAssignMiners
  // ---------------------------------------------------------------------

  /** The named creep is alive (`Game.creeps[name]`) and its role is miner. */
  predicate OwnerIsLiveMiner(name: string, live: map<string, Role>) {
    name in live && live[name] == RoleMiner
  }

  /** What `cleanupAssignMiners` leaves of one task. */
  function ReleaseStaleOwner(t: MinerTask, live: map<string, Role>): MinerTask {
    if t.assignedMinerName.Some? && !OwnerIsLiveMiner(t.assignedMinerName.value, live)
    then t.(assignedMinerName := None)
    else t
  }

  /** The mining task list after `cleanupAssignMiners`. */
  function ReleaseStaleOwners(tasks: seq<MinerTask>, live: map<string, Role>): (r: seq<MinerTask>)
    ensures |r| == |tasks|
  {
    seq(|tasks|, i requires 0 <= i < |tasks| => ReleaseStaleOwner(tasks[i], live))
  }

  /** An owner is cleared exactly when it is gone or no longer a miner; ids
      and positions never change and a valid owner stays; afterwards every
      owner is a live miner. */
  lemma ReleaseStaleOwnersSpec(tasks: seq<MinerTask>, live: map<string, Role>)
    ensures forall i :: 0 <= i < |tasks| ==>
              && ReleaseStaleOwners(tasks, live)[i].taskId == tasks[i].taskId
              && ReleaseStaleOwners(tasks, live)[i].minerPosition == tasks[i].minerPosition
    ensures forall i :: 0 <= i < |tasks| ==>
              (ReleaseStaleOwners(tasks, live)[i].assignedMinerName == None <==>
                 (tasks[i].assignedMinerName == None || !OwnerIsLiveMiner(tasks[i].assignedMinerName.value, live)))
    ensures forall i :: 0 <= i < |tasks| && ReleaseStaleOwners(tasks, live)[i].assignedMinerName.Some? ==>
              && ReleaseStaleOwners(tasks, live)[i].assignedMinerName == tasks[i].assignedMinerName
              && OwnerIsLiveMiner(ReleaseStaleOwners(tasks, live)[i].assignedMinerName.value, live)
  {
  }

  /** Running the cleanup twice in one tick is the same as running it once. */
  lemma ReleaseStaleOwnersIdempotent(tasks: seq<MinerTask>, live: map<string, Role>)
    ensures ReleaseStaleOwners(ReleaseStaleOwners(tasks, live), live) == ReleaseStaleOwners(tasks, live)
  {
    var once := ReleaseStaleOwners(tasks, live);
    ReleaseStaleOwnersSpec(tasks, live);
    assert forall i :: 0 <= i < |once| ==> ReleaseStaleOwner(once[i], live) == once[i];
  }

  /** `cleanupAssignMiners(rm)`: walks the mining tasks and clears stale owners in
      place. `live` maps each live creep's name to its memory role. */
  method CleanupAssignMiners(rm: RoomMemory, live: map<string, Role>)
    modifies rm`minerTasks
    ensures rm.minerTasks == ReleaseStaleOwners(old(rm.minerTasks), live)
  {
    for i := 0 to |rm.minerTasks|
      invariant |rm.minerTasks| == |old(rm.minerTasks)|
      invariant forall k :: 0 <= k < i ==> rm.minerTasks[k] == ReleaseStaleOwner(old(rm.minerTasks)[k], live)
      invariant forall k :: i <= k < |rm.minerTasks| ==> rm.minerTasks[k] == old(rm.minerTasks)[k]
    {
      var task := rm.minerTasks[i];
      if task.assignedMinerName.Some? {
        var name := task.assignedMinerName.value;
        if name !in live {
          rm.minerTasks := rm.minerTasks[i := task.(assignedMinerName := None)];
        } else if live[name] != RoleMiner {
          rm.minerTasks := rm.minerTasks[i := task.(assignedMinerName := None)];
        }
      }
    }
  }

  // ---------------------------------------------------------------------
  // loadCreeps and getContainerIdWithLeastBuildersAssigned
  // ---------------------------------------------------------------------

  /** How many of the room's creeps carry role `r` (`_.filter(creeps, ...)`). */
  function CountRole(roles: seq<Role>, r: Role): nat {
    multiset(roles)[r]
  }

  /** The count never exceeds the number of creeps; it is zero exactly when
      no creep has the role, and every creep is counted exactly when all of
      them have it. */
  lemma {:induction false} CountRoleSpec(roles: seq<Role>, r: Role)
    ensures CountRole(roles, r) <= |roles|
    ensures CountRole(roles, r) == 0 <==> r !in roles
    ensures CountRole(roles, r) == |roles| <==> forall i :: 0 <= i < |roles| ==> roles[i] == r
    decreases |roles|
  {
    if roles != [] {
      var prefix := roles[..|roles| - 1];
      var x := roles[|roles| - 1];
      assert roles == prefix + [x];
      CountRoleSpec(prefix, r);
      assert multiset(roles) == multiset(prefix) + multiset{x};
      assert forall i :: 0 <= i < |prefix| ==> prefix[i] == roles[i];
    }
  }

  /** The ids of the room's containers, in `find` order. */
  function ContainerIds(structures: seq<Structure>): (ids: seq<string>)
    ensures |ids| <= |structures|
    ensures forall id :: id in ids <==> exists s :: s in structures && s.structureType == StructureContainer && s.id == id
  {
    if structures == [] then []
    else
      assert forall s :: s in structures <==> s == structures[0] || s in structures[1..];
      (if structures[0].structureType == StructureContainer then [structures[0].id] else []) + ContainerIds(structures[1..])
  }

  /** How many builders name container `id` as theirs; `assignments` are the
      builders' `assignedContainerId` values. */
  function BuildersAssignedTo(assignments: seq<Option<string>>, id: string): nat {
    multiset(assignments)[Some(id)]
  }

  /** `getContainerIdWithLeastBuildersAssigned`: the container with the
      fewest builders, the first such one in list order. */
  function ContainerIdWithLeastBuildersAssigned(containers: seq<string>, assignments: seq<Option<string>>): (r: Option<string>)
    ensures r.None? <==> containers == []
  {
    if containers == [] then None
    else
      var counts := seq(|containers|, i requires 0 <= i < |containers| => BuildersAssignedTo(assignments, containers[i]));
      Some(containers[FirstMinIndex(counts)])
  }

  /** The chosen container is one of the room's, no container has fewer
      builders, and every container listed before it has strictly more. */
  lemma LeastBuildersChoice(containers: seq<string>, assignments: seq<Option<string>>)
    requires containers != []
    ensures var r := ContainerIdWithLeastBuildersAssigned(containers, assignments).value;
            exists k :: 0 <= k < |containers| && containers[k] == r
                        && (forall j :: 0 <= j < k ==> BuildersAssignedTo(assignments, r) < BuildersAssignedTo(assignments, containers[j]))
                        && (forall j :: 0 <= j < |containers| ==> BuildersAssignedTo(assignments, r) <= BuildersAssignedTo(assignments, containers[j]))
  {
    var counts := seq(|containers|, i requires 0 <= i < |containers| => BuildersAssignedTo(assignments, containers[i]));
    var k := FirstMinIndex(counts);
    assert forall j :: 0 <= j < |containers| ==> counts[j] == BuildersAssignedTo(assignments, containers[j]);
    assert containers[k] == ContainerIdWithLeastBuildersAssigned(containers, assignments).value;
  }

  // ---------------------------------------------------------------------
  // buildMissingCreeps, tryToSpawnCreep
  // ---------------------------------------------------------------------

  /** The roles `buildMissingCreeps` asks for this tick, given the counts
      `loadCreeps` took. */
  function SpawnRequests(miners: nat, builders: nat, tasks: nat, containers: nat,
                         sources: nat, desiredBuilders: int): (r: seq<Role>)
    ensures |r| <= 1
    ensures RoleMiner in r <==> miners < tasks
    ensures RoleBuilder in r <==> miners == tasks && containers == sources && builders < desiredBuilders
  {
    (if miners < tasks then [RoleMiner] else [])
      + (if miners == tasks && containers == sources && builders < desiredBuilders then [RoleBuilder] else [])
  }

  /** The `createCreep` calls `tryToSpawnCreep` makes for one role: one per
      passed pre-check among the spawns it asks. */
  function TryCalls(inactive: seq<Spawn>, body: seq<BodyPart>, role: Role, base: int): seq<Intent> {
    CreateCalls(inactive[..AttemptCount(inactive)], body, RoleTemplate(role), base)
  }

  /** How far `tryToSpawnCreep` advances the counter. */
  function TryAdvance(inactive: seq<Spawn>): nat {
    |Accepting(inactive[..AttemptCount(inactive)])|
  }

  /** `tryToSpawnCreep(inactiveSpawns, bodyParts, role)`: asks the inactive
      spawns in order and stops after the first whose attempt returns `Ok`. */
  method TryToSpawnCreep(gm: GameMemory, inactive: seq<Spawn>, body: seq<BodyPart>, role: Role)
    returns (calls: seq<Intent>)
    requires gm.uuid.Some?
    modifies gm`uuid
    ensures calls == TryCalls(inactive, body, role, old(gm.uuid).value)
    ensures gm.uuid == Some(old(gm.uuid).value + TryAdvance(inactive))
  {
    ghost var base := gm.uuid.value;
    ghost var n := AttemptCount(inactive);
    ghost var asked := 0;
    var spawned := false;
    calls := [];
    for i := 0 to |inactive|
      invariant spawned ==> asked == n
      invariant !spawned ==> asked == i && forall j :: 0 <= j < i ==> Outcome(inactive[j]) != Ok
      invariant 0 <= asked <= |inactive|
      invariant calls == CreateCalls(inactive[..asked], body, RoleTemplate(role), base)
      invariant gm.uuid == Some(base + |Accepting(inactive[..asked])|)
    {
      if !spawned {
        spawned, calls := AskNextSpawn(gm, inactive, i, body, role, base, calls);
        asked := i + 1;
      }
    }
    if !spawned {
      AttemptCountNone(inactive);
    }
  }

  /** One step of `tryToSpawnCreep` while no attempt has succeeded yet: asks
      the i-th spawn and reports whether its attempt returned `Ok`. */
  method AskNextSpawn(gm: GameMemory, inactive: seq<Spawn>, i: nat, body: seq<BodyPart>, role: Role,
                      ghost base: int, calls: seq<Intent>)
    returns (spawned: bool, after: seq<Intent>)
    requires i < |inactive|
    requires forall j :: 0 <= j < i ==> Outcome(inactive[j]) != Ok
    requires calls == CreateCalls(inactive[..i], body, RoleTemplate(role), base)
    requires gm.uuid == Some(base + |Accepting(inactive[..i])|)
    modifies gm`uuid
    ensures after == CreateCalls(inactive[..i + 1], body, RoleTemplate(role), base)
    ensures gm.uuid == Some(base + |Accepting(inactive[..i + 1])|)
    ensures spawned ==> AttemptCount(inactive) == i + 1
    ensures !spawned ==> forall j :: 0 <= j < i + 1 ==> Outcome(inactive[j]) != Ok
  {
    var status;
    status, after := AskSpawn(gm, inactive, i, body, RoleTemplate(role), base, calls);
    spawned := status == Ok;
    if spawned {
      AttemptCountAt(inactive, i);
    }
  }

  /** The `createCreep` calls `buildMissingCreeps` makes, starting from
      counter value `base`. */
  function PlannedCalls(requests: seq<Role>, inactive: seq<Spawn>, base: int): seq<Intent> {
    if requests == [] then [] else TryCalls(inactive, SmallBody, requests[0], base)
  }

  /** How far `buildMissingCreeps` advances the counter. */
  function PlannedAdvance(requests: seq<Role>, inactive: seq<Spawn>): nat {
    if requests == [] then 0 else TryAdvance(inactive)
  }

  /** `buildMissingCreeps(room, rm)`: at most one role is requested, always
      with the 4-part body, from the spawns that are not busy. `roles` are
      the memory roles of the room's creeps and `containerCount` the number
      of containers in the room. */
  method BuildMissingCreeps(gm: GameMemory, rm: RoomMemory, roles: seq<Role>, containerCount: nat, spawns: seq<Spawn>)
    returns (calls: seq<Intent>)
    requires gm.uuid.Some?
    modifies gm`uuid
    ensures var requests := SpawnRequests(CountRole(roles, RoleMiner), CountRole(roles, RoleBuilder), |rm.minerTasks|,
                                          containerCount, |rm.energySources|, rm.desiredBuilders);
            && calls == PlannedCalls(requests, InactiveSpawns(spawns), old(gm.uuid).value)
            && gm.uuid == Some(old(gm.uuid).value + PlannedAdvance(requests, InactiveSpawns(spawns)))
  {
    var inactiveSpawns := InactiveSpawns(spawns);
    var miners := CountRole(roles, RoleMiner);
    var builders := CountRole(roles, RoleBuilder);
    calls := [];
    if miners < |rm.minerTasks| {
      calls := TryToSpawnCreep(gm, inactiveSpawns, SmallBody, RoleMiner);
    }
    if miners == |rm.minerTasks| {
      if containerCount == |rm.energySources| {
        if builders < rm.desiredBuilders {
          calls := TryToSpawnCreep(gm, inactiveSpawns, SmallBody, RoleBuilder);
        }
      }
    }
  }

  /** The counter advances by exactly one per `createCreep` call, and
      nothing is called or counted when no role is requested. */
  lemma PlannedCallsSpec(requests: seq<Role>, inactive: seq<Spawn>, base: int)
    ensures |PlannedCalls(requests, inactive, base)| == PlannedAdvance(requests, inactive)
    ensures requests == [] ==> PlannedCalls(requests, inactive, base) == []
  {
    if requests != [] {
      CreateCallsSpec(inactive[..AttemptCount(inactive)], SmallBody, RoleTemplate(requests[0]), base);
    }
  }

  // ---------------------------------------------------------------------
  // run
  // ---------------------------------------------------------------------

  /** What `run` does with one creep after spawning. */
  datatype Turn = MinerTurn | BuilderTurn | Relabelled

  function TurnFor(role: Role): Turn {
    if role == RoleMiner then MinerTurn
    else if role == RoleBuilder then BuilderTurn
    else Relabelled
  }

  /** The memory roles of the given creeps, in order. */
  function RolesOf(creeps: seq<CreepMemory>): (roles: seq<Role>)
    reads set c | c in creeps
    ensures |roles| == |creeps|
    ensures forall i :: 0 <= i < |creeps| ==> roles[i] == creeps[i].role
  {
    if creeps == [] then [] else RolesOf(creeps[..|creeps| - 1]) + [creeps[|creeps| - 1].role]
  }

  /** The loop at the end of `run`: every miner and builder gets its turn,
      every creep with any other role is re-labelled as a miner. */
  method TakeTurns(creeps: seq<CreepMemory>) returns (turns: seq<Turn>)
    requires forall i, j :: 0 <= i < j < |creeps| ==> creeps[i] != creeps[j]
    modifies (set c | c in creeps)`role
    ensures |turns| == |creeps|
    ensures forall i :: 0 <= i < |creeps| ==> turns[i] == TurnFor(old(creeps[i].role))
    ensures forall i :: 0 <= i < |creeps| ==>
              creeps[i].role == (if old(creeps[i].role) == RoleBuilder then RoleBuilder else RoleMiner)
  {
    turns := [];
    for i := 0 to |creeps|
      invariant |turns| == i
      invariant forall k :: 0 <= k < i ==> turns[k] == TurnFor(old(creeps[k].role))
      invariant forall k :: 0 <= k < i ==>
                  creeps[k].role == (if old(creeps[k].role) == RoleBuilder then RoleBuilder else RoleMiner)
      invariant forall k :: i <= k < |creeps| ==> creeps[k].role == old(creeps[k].role)
    {
      var creepMem := creeps[i];
      if creepMem.role == RoleMiner {
        turns := turns + [MinerTurn];
      } else if creepMem.role == RoleBuilder {
        turns := turns + [BuilderTurn];
      } else {
        creepMem.role := RoleMiner;
        turns := turns + [Relabelled];
      }
    }
  }

  /** `run(room, rm)`: counts the room's creeps and containers, spawns what
      is missing, then lets every creep take its turn. Miner and builder
      turns themselves are `Miner.Run` and `Builder.Run`. */
  method Run(gm: GameMemory, rm: RoomMemory, creeps: seq<CreepMemory>, structures: seq<Structure>, spawns: seq<Spawn>)
    returns (calls: seq<Intent>, turns: seq<Turn>)
    requires gm.uuid.Some?
    requires forall i, j :: 0 <= i < j < |creeps| ==> creeps[i] != creeps[j]
    modifies gm`uuid, (set c | c in creeps)`role
    ensures var requests := SpawnRequests(CountRole(old(RolesOf(creeps)), RoleMiner), CountRole(old(RolesOf(creeps)), RoleBuilder),
                                          |rm.minerTasks|, |ContainerIds(structures)|, |rm.energySources|, rm.desiredBuilders);
            && calls == PlannedCalls(requests, InactiveSpawns(spawns), old(gm.uuid).value)
            && gm.uuid == Some(old(gm.uuid).value + PlannedAdvance(requests, InactiveSpawns(spawns)))
    ensures |turns| == |creeps|
    ensures forall i :: 0 <= i < |creeps| ==> turns[i] == TurnFor(old(creeps[i].role))
    ensures forall i :: 0 <= i < |creeps| ==>
              creeps[i].role == (if old(creeps[i].role) == RoleBuilder then RoleBuilder else RoleMiner)
  {
    var roles := RolesOf(creeps);
    var containers := ContainerIds(structures);
    ghost var requests := SpawnRequests(CountRole(roles, RoleMiner), CountRole(roles, RoleBuilder),
                                        |rm.minerTasks|, |containers|, |rm.energySources|, rm.desiredBuilders);
    ghost var advanced := old(gm.uuid).value + PlannedAdvance(requests, InactiveSpawns(spawns));
    calls := BuildMissingCreeps(gm, rm, roles, |containers|, spawns);
    assert gm.uuid == Some(advanced);
    turns := TakeTurns(creeps);
    assert gm.uuid == Some(advanced);
    assert roles == old(RolesOf(creeps));
    assert rm.minerTasks == old(rm.minerTasks) && rm.energySources == old(rm.energySources)
           && rm.desiredBuilders == old(rm.desiredBuilders);
  }
}
