/** The persisted memory layout of the bot: creep roles, mining tasks and the
    per-room, per-creep and global records. */
module Mem {
  import opened Basics
  import opened Grid

  /** Schema tag of the persisted memory. */
  const MemoryVersion: int := 4

  /** The `CreepRoles` const enum, in declaration order. */
  datatype Role =
    | RoleUnassigned
    | RoleAll
    | RoleBuilder
    | RoleMiner
    | RoleMineHauler
    | RoleHealer
    | RoleFighter
    | RoleRanger
    | RoleClaimer
    | RoleRemoteMiner
    | RoleRemoteMineHauler
    | RoleCustomControl
    | RoleUpgrader
    | RoleUpgradeTransport

  /** The number the enum member is compiled to: consecutive from 0. */
  function RoleValue(r: Role): (n: nat)
    ensures n < 14
    ensures RoleOfValue(n) == Some(r)
  {
    match r
    case RoleUnassigned => 0
    case RoleAll => 1
    case RoleBuilder => 2
    case RoleMiner => 3
    case RoleMineHauler => 4
    case RoleHealer => 5
    case RoleFighter => 6
    case RoleRanger => 7
    case RoleClaimer => 8
    case RoleRemoteMiner => 9
    case RoleRemoteMineHauler => 10
    case RoleCustomControl => 11
    case RoleUpgrader => 12
    case RoleUpgradeTransport => 13
  }

  /** The enum member a stored number denotes, if any. */
  function RoleOfValue(n: int): Option<Role> {
    if n == 0 then Some(RoleUnassigned)
    else if n == 1 then Some(RoleAll)
    else if n == 2 then Some(RoleBuilder)
    else if n == 3 then Some(RoleMiner)
    else if n == 4 then Some(RoleMineHauler)
    else if n == 5 then Some(RoleHealer)
    else if n == 6 then Some(RoleFighter)
    else if n == 7 then Some(RoleRanger)
    else if n == 8 then Some(RoleClaimer)
    else if n == 9 then Some(RoleRemoteMiner)
    else if n == 10 then Some(RoleRemoteMineHauler)
    else if n == 11 then Some(RoleCustomControl)
    else if n == 12 then Some(RoleUpgrader)
    else if n == 13 then Some(RoleUpgradeTransport)
    else None
  }

  /** Every number 0..13 is the value of exactly one role, and no other
      number is. */
  lemma RoleValuesConsecutive(n: int)
    ensures RoleOfValue(n).Some? <==> 0 <= n < 14
    ensures RoleOfValue(n).Some? ==> RoleValue(RoleOfValue(n).value) == n
  {
  }

  /** The roles `roleToString` has a case for. */
  predicate HasRoleName(r: Role) {
    !(r == RoleUnassigned || r == RoleAll || r == RoleUpgrader || r == RoleUpgradeTransport)
  }

  /** `roleToString`. */
  function RoleToString(job: Role): (s: string)
    ensures s == "unknown role" <==> !HasRoleName(job)
    ensures job == RoleBuilder <==> s == "ROLE_BUILDER"
    ensures job == RoleMiner <==> s == "ROLE_MINER"
  {
    match job
    case RoleBuilder => "ROLE_BUILDER"
    case RoleMiner => "ROLE_MINER"
    case RoleMineHauler => "ROLE_MINEHAULER"
    case RoleHealer => "ROLE_HEALER"
    case RoleFighter => "ROLE_FIGHTER"
    case RoleRanger => "ROLE_RANGER"
    case RoleClaimer => "ROLE_CLAIMER"
    case RoleRemoteMiner => "ROLE_REMOTEMINER"
    case RoleRemoteMineHauler => "ROLE_REMOTEMINEHAULER"
    case RoleCustomControl => "ROLE_CUSTOMCONTROL"
    case _ => "unknown role"
  }

  /** Distinct named roles get distinct names. */
  lemma RoleToStringInjective(a: Role, b: Role)
    requires HasRoleName(a) && HasRoleName(b)
    requires RoleToString(a) == RoleToString(b)
    ensures a == b
  {
  }

  /** A cell plus the id of the object it serves (mem.ts `PositionPlusTarget`). */
  datatype PositionPlusTarget = PositionPlusTarget(x: int, y: int, targetId: string) {
    function Cell(): MyPosition {
      MyPosition(x, y)
    }
  }

  /** One harvesting slot next to an energy source. */
  datatype MinerTask = MinerTask(taskId: int, minerPosition: PositionPlusTarget, assignedMinerName: Option<string>)

  /** The memory literal handed to `createCreep` for a new creep. */
  datatype InitialMemory =
    | RoleMemory(role: Role, roleString: string, log: bool, gathering: bool)  // roomManager.ts spawnCreep
    | LegacyMemory(legacyRole: string, room: string)                          // creepManager.ts _spawnCreep

  /** `Memory.rooms[name]`. */
  class RoomMemory {
    var roomName: string
    var minerTasks: seq<MinerTask>
    var desiredBuilders: int
    var energySources: seq<PositionPlusTarget>
    var containerPositions: seq<PositionPlusTarget>

    /** The constructor sets the name only; the other fields stay undefined
        until the room is initialised. */
    constructor (name: string)
      ensures roomName == name
    {
      roomName := name;
    }
  }

  /** `creep.memory`, as the role-based code reads and writes it. */
  class CreepMemory {
    var role: Role
    var roleString: string
    var log: bool
    var gathering: bool
    var assignedMineTaskId: Option<int>
    var assignedContainerId: Option<string>
  }

  /** The global `Memory` object, as far as the core uses it. */
  class GameMemory {
    var uuid: Option<int>
    var creeps: map<string, CreepMemory>
  }
}
