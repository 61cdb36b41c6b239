/** The pure half of roomManager.ts: the mining-task catalogue that
    `initRoomMemory` builds for a room and the container placement search of
    `getOptimalContainerPosition`. Terrain is the predicate `isWall`
    (`lookFor(LOOK_TERRAIN) == "wall"`). */
module RoomPlanning {
  import opened Basics
  import opened Grid
  import opened Mem
  import opened Engine

  // ---------------------------------------------------------------------
  // Mining tasks
  // ---------------------------------------------------------------------

  /** The j-th entry of the `positions` list of `initRoomMemory`: the eight
      neighbours of a source, west column first, then east, then north and
      south. */
  function NeighbourCell(src: MyPosition, j: nat): MyPosition
    requires j < 8
  {
    var offsets := [(-1, -1), (-1, 0), (-1, 1), (1, -1), (1, 0), (1, 1), (0, -1), (0, 1)];
    MyPosition(src.x + offsets[j].0, src.y + offsets[j].1)
  }

  /** The eight listed cells are distinct and are exactly the cells at range 1. */
  lemma NeighbourCells(src: MyPosition)
    ensures forall i, j :: 0 <= i < j < 8 ==> NeighbourCell(src, i) != NeighbourCell(src, j)
    ensures forall p :: Range(src, p) == 1 <==> exists j :: 0 <= j < 8 && NeighbourCell(src, j) == p
  {
    forall p | Range(src, p) == 1
      ensures exists j :: 0 <= j < 8 && NeighbourCell(src, j) == p
    {
      var dx, dy := p.x - src.x, p.y - src.y;
      var j := if dx == -1 then dy + 1 else if dx == 1 then dy + 4 else if dy == -1 then 6 else 7;
      assert NeighbourCell(src, j) == p;
    }
    forall j | 0 <= j < 8
      ensures Range(src, NeighbourCell(src, j)) == 1
    {
    }
  }

  /** A cell that gets a mining task: next to the source, inside the room
      and not a wall. */
  predicate IsTaskCell(src: MyPosition, p: MyPosition, isWall: MyPosition -> bool) {
    Range(src, p) == 1 && InRoom(p) && !isWall(p)
  }

  /** The cells among the first j listed neighbours that get a task. */
  function KeptNeighbours(src: MyPosition, isWall: MyPosition -> bool, j: nat): (cells: seq<MyPosition>)
    requires j <= 8
    ensures |cells| <= j
  {
    if j == 0 then []
    else
      var c := NeighbourCell(src, j - 1);
      KeptNeighbours(src, isWall, j - 1) + (if InRoom(c) && !isWall(c) then [c] else [])
  }

  /** The kept cells are the in-room, non-wall ones among the first j
      neighbours, each once. */
  lemma {:induction false} KeptNeighboursSpec(src: MyPosition, isWall: MyPosition -> bool, j: nat)
    requires j <= 8
    ensures forall p :: p in KeptNeighbours(src, isWall, j) <==>
              exists k :: 0 <= k < j && NeighbourCell(src, k) == p && InRoom(p) && !isWall(p)
    ensures forall a, b :: 0 <= a < b < |KeptNeighbours(src, isWall, j)| ==>
              KeptNeighbours(src, isWall, j)[a] != KeptNeighbours(src, isWall, j)[b]
  {
    if j > 0 {
      KeptNeighboursSpec(src, isWall, j - 1);
      NeighbourCells(src);
    }
  }

  /** The mining task cells of one source, in listing order. */
  function TaskCells(src: MyPosition, isWall: MyPosition -> bool): seq<MyPosition> {
    KeptNeighbours(src, isWall, 8)
  }

  /** The mining task cells of a source are its in-room, non-wall neighbours, each
      once, so a source has at most 8 tasks. */
  lemma TaskCellsSpec(src: MyPosition, isWall: MyPosition -> bool)
    ensures |TaskCells(src, isWall)| <= 8
    ensures forall p :: p in TaskCells(src, isWall) <==> IsTaskCell(src, p, isWall)
    ensures forall a, b :: 0 <= a < b < |TaskCells(src, isWall)| ==> TaskCells(src, isWall)[a] != TaskCells(src, isWall)[b]
  {
    KeptNeighboursSpec(src, isWall, 8);
    NeighbourCells(src);
  }

  /** Tasks for the given cells with ids base+1, base+2, ... and no owner. */
  function NumberTasks(cells: seq<MyPosition>, targetId: string, base: int): seq<MinerTask> {
    seq(|cells|, k requires 0 <= k < |cells| =>
      MinerTask(base + k + 1, PositionPlusTarget(cells[k].x, cells[k].y, targetId), None))
  }

  /** Numbering one more cell appends one task with the next id. */
  lemma NumberTasksSnoc(cells: seq<MyPosition>, c: MyPosition, targetId: string, base: int)
    ensures NumberTasks(cells + [c], targetId, base)
            == NumberTasks(cells, targetId, base) + [MinerTask(base + |cells| + 1, PositionPlusTarget(c.x, c.y, targetId), None)]
  {
  }

  /** The mining tasks `initRoomMemory` creates for one source when `base` tasks
      exist already (`minerTasksForSource`). */
  function SourceTasks(source: Source, isWall: MyPosition -> bool, base: int): seq<MinerTask> {
    NumberTasks(TaskCells(source.pos, isWall), source.id, base)
  }

  /** `rm.minerTasks` after `initRoomMemory` has gone through the sources. */
  function RoomTasks(sources: seq<Source>, isWall: MyPosition -> bool): seq<MinerTask>
    decreases |sources|
  {
    if sources == [] then []
    else
      var before := RoomTasks(sources[..|sources| - 1], isWall);
      before + SourceTasks(sources[|sources| - 1], isWall, |before|)
  }

  /** Every task of a source serves that source, sits on one of its task
      cells, is unowned, and every task cell of the source has exactly one
      task. */
  lemma SourceTasksSpec(source: Source, isWall: MyPosition -> bool, base: int)
    ensures |SourceTasks(source, isWall, base)| <= 8
    ensures forall t :: t in SourceTasks(source, isWall, base) ==>
              t.minerPosition.targetId == source.id && t.assignedMinerName == None
              && IsTaskCell(source.pos, t.minerPosition.Cell(), isWall)
    ensures forall p :: IsTaskCell(source.pos, p, isWall) <==>
              exists k :: 0 <= k < |SourceTasks(source, isWall, base)| && SourceTasks(source, isWall, base)[k].minerPosition.Cell() == p
    ensures forall a, b :: 0 <= a < b < |SourceTasks(source, isWall, base)| ==>
              SourceTasks(source, isWall, base)[a].minerPosition != SourceTasks(source, isWall, base)[b].minerPosition
  {
    TaskCellsSpec(source.pos, isWall);
    var cells := TaskCells(source.pos, isWall);
    var tasks := SourceTasks(source, isWall, base);
    forall p | IsTaskCell(source.pos, p, isWall)
      ensures exists k :: 0 <= k < |tasks| && tasks[k].minerPosition.Cell() == p
    {
      var k :| 0 <= k < |cells| && cells[k] == p;
      assert tasks[k].minerPosition.Cell() == p;
    }
    forall t | t in tasks
      ensures t.minerPosition.targetId == source.id && t.assignedMinerName == None
      ensures IsTaskCell(source.pos, t.minerPosition.Cell(), isWall)
    {
      var k :| 0 <= k < |tasks| && tasks[k] == t;
      assert t.minerPosition.Cell() == cells[k];
    }
    forall a, b | 0 <= a < b < |tasks|
      ensures tasks[a].minerPosition != tasks[b].minerPosition
    {
      assert tasks[a].minerPosition.Cell() == cells[a];
      assert tasks[b].minerPosition.Cell() == cells[b];
    }
  }

  /** Task ids run 1, 2, 3, ... across all sources: no gap, no reuse. */
  lemma {:induction false} RoomTaskIds(sources: seq<Source>, isWall: MyPosition -> bool)
    ensures forall i :: 0 <= i < |RoomTasks(sources, isWall)| ==> RoomTasks(sources, isWall)[i].taskId == i + 1
    decreases |sources|
  {
    if sources != [] {
      RoomTaskIds(sources[..|sources| - 1], isWall);
    }
  }

  /** Every task of the room serves one of the room's sources, from a task
      cell of that source, and is unowned; there are at most 8 per source. */
  lemma {:induction false} RoomTaskOrigins(sources: seq<Source>, isWall: MyPosition -> bool)
    ensures |RoomTasks(sources, isWall)| <= 8 * |sources|
    ensures forall i :: 0 <= i < |RoomTasks(sources, isWall)| ==>
              RoomTasks(sources, isWall)[i].assignedMinerName == None
              && exists k :: 0 <= k < |sources|
                   && RoomTasks(sources, isWall)[i].minerPosition.targetId == sources[k].id
                   && IsTaskCell(sources[k].pos, RoomTasks(sources, isWall)[i].minerPosition.Cell(), isWall)
    decreases |sources|
  {
    if sources != [] {
      var n := |sources| - 1;
      var prefix := sources[..n];
      RoomTaskOrigins(prefix, isWall);
      var before := RoomTasks(prefix, isWall);
      var added := SourceTasks(sources[n], isWall, |before|);
      SourceTasksSpec(sources[n], isWall, |before|);
      var tasks := RoomTasks(sources, isWall);
      forall i | 0 <= i < |tasks|
        ensures tasks[i].assignedMinerName == None
        ensures exists k :: 0 <= k < |sources|
                  && tasks[i].minerPosition.targetId == sources[k].id
                  && IsTaskCell(sources[k].pos, tasks[i].minerPosition.Cell(), isWall)
      {
        if i < |before| {
          var k :| 0 <= k < |prefix| && before[i].minerPosition.targetId == prefix[k].id
                   && IsTaskCell(prefix[k].pos, before[i].minerPosition.Cell(), isWall);
          assert sources[k] == prefix[k];
        } else {
          assert tasks[i] == added[i - |before|];
          assert tasks[i] in added;
        }
      }
    }
  }

  /** `rm.energySources` after `initRoomMemory`: one entry per source, in order. */
  function SourcePositions(sources: seq<Source>): seq<PositionPlusTarget> {
    seq(|sources|, i requires 0 <= i < |sources| =>
      PositionPlusTarget(sources[i].pos.x, sources[i].pos.y, sources[i].id))
  }

  lemma SourcePositionsSnoc(sources: seq<Source>, i: nat)
    requires i < |sources|
    ensures SourcePositions(sources[..i + 1])
            == SourcePositions(sources[..i]) + [PositionPlusTarget(sources[i].pos.x, sources[i].pos.y, sources[i].id)]
  {
  }

  // ---------------------------------------------------------------------
  // Container placement
  // ---------------------------------------------------------------------

  /** A cell the container search keeps: range exactly 2 from the source,
      inside the room, not a wall. */
  predicate IsContainerSite(src: MyPosition, p: MyPosition, isWall: MyPosition -> bool) {
    Range(src, p) == 2 && InRoom(p) && !isWall(p)
  }

  /** The scan order of the search loops: x first, then y. */
  predicate ScanBefore(a: MyPosition, b: MyPosition) {
    a.x < b.x || (a.x == b.x && a.y < b.y)
  }

  predicate ScanSorted(s: seq<MyPosition>) {
    forall i, j :: 0 <= i < j < |s| ==> ScanBefore(s[i], s[j])
  }

  /** The sites the inner loop finds in column x, from row y on. */
  function ColumnSites(src: MyPosition, isWall: MyPosition -> bool, x: int, y: int): (sites: seq<MyPosition>)
    ensures forall p :: p in sites <==> p.x == x && y <= p.y && IsContainerSite(src, p, isWall)
    ensures ScanSorted(sites)
    decreases src.y + 3 - y
  {
    if y > src.y + 2 then []
    else
      var p := MyPosition(x, y);
      (if IsContainerSite(src, p, isWall) then [p] else []) + ColumnSites(src, isWall, x, y + 1)
  }

  /** The sites both loops find from column x on, in scan order. */
  function WindowSites(src: MyPosition, isWall: MyPosition -> bool, x: int): (sites: seq<MyPosition>)
    ensures forall p :: p in sites <==> x <= p.x && IsContainerSite(src, p, isWall)
    ensures ScanSorted(sites)
    decreases src.x + 3 - x
  {
    if x > src.x + 2 then []
    else
      var column := ColumnSites(src, isWall, x, src.y - 2);
      var rest := WindowSites(src, isWall, x + 1);
      assert forall i, j :: 0 <= i < |column| <= j < |column + rest| ==>
               (column + rest)[i] in column && (column + rest)[j] in rest;
      column + rest
  }

  /** The candidate list of `getOptimalContainerPosition`, in scan order. */
  function ContainerCandidates(src: MyPosition, isWall: MyPosition -> bool): (sites: seq<MyPosition>)
    ensures forall p :: p in sites <==> IsContainerSite(src, p, isWall)
    ensures ScanSorted(sites)
  {
    WindowSites(src, isWall, src.x - 2)
  }

  /** Sum of the ranges from the mining tasks' cells to p; a task cell outside the
      room counts 0. */
  function TaskRangeSum(tasks: seq<MinerTask>, p: MyPosition): nat {
    if tasks == [] then 0
    else
      var cell := tasks[0].minerPosition.Cell();
      (if InRoom(cell) then Range(cell, p) else 0) + TaskRangeSum(tasks[1..], p)
  }

  /** The `dist` of a candidate: task ranges plus the range to the first spawn. */
  function ContainerCost(tasks: seq<MinerTask>, firstSpawn: MyPosition, p: MyPosition): nat {
    TaskRangeSum(tasks, p) + Range(firstSpawn, p)
  }

  /** `getOptimalContainerPosition(minerTasksForSource, sourcePos, room)`;
      `spawns` are the positions of the room's spawns in `find` order. */
  function OptimalContainerPosition(tasks: seq<MinerTask>, sourcePos: PositionPlusTarget,
                                    isWall: MyPosition -> bool, spawns: seq<MyPosition>): (r: Option<PositionPlusTarget>)
    ensures r.Some? ==> r.value.targetId == sourcePos.targetId
                        && IsContainerSite(sourcePos.Cell(), r.value.Cell(), isWall)
  {
    var src := sourcePos.Cell();
    if !InRoom(src) || spawns == [] then None
    else
      var sites := ContainerCandidates(src, isWall);
      if sites == [] then None
      else
        var costs := seq(|sites|, i requires 0 <= i < |sites| => ContainerCost(tasks, spawns[0], sites[i]));
        var best := sites[FirstMinIndex(costs)];
        Some(PositionPlusTarget(best.x, best.y, sourcePos.targetId))
  }

  /** The search gives up exactly when the source cell is off the room, the
      room has no spawn, or no cell qualifies. Otherwise its answer has the
      least cost of all qualifying cells, and every qualifying cell that the
      scan meets earlier costs strictly more. */
  lemma OptimalContainerChoice(tasks: seq<MinerTask>, sourcePos: PositionPlusTarget,
                               isWall: MyPosition -> bool, spawns: seq<MyPosition>)
    ensures var r := OptimalContainerPosition(tasks, sourcePos, isWall, spawns);
            r.None? <==> (!InRoom(sourcePos.Cell()) || spawns == []
                          || forall p :: !IsContainerSite(sourcePos.Cell(), p, isWall))
    ensures var r := OptimalContainerPosition(tasks, sourcePos, isWall, spawns);
            r.Some? ==> forall q :: IsContainerSite(sourcePos.Cell(), q, isWall) ==>
                          && ContainerCost(tasks, spawns[0], r.value.Cell()) <= ContainerCost(tasks, spawns[0], q)
                          && (ScanBefore(q, r.value.Cell()) ==>
                                ContainerCost(tasks, spawns[0], r.value.Cell()) < ContainerCost(tasks, spawns[0], q))
  {
    var src := sourcePos.Cell();
    if InRoom(src) && spawns != [] {
      var sites := ContainerCandidates(src, isWall);
      if sites != [] {
        var costs := seq(|sites|, i requires 0 <= i < |sites| => ContainerCost(tasks, spawns[0], sites[i]));
        var k := FirstMinIndex(costs);
        var best := sites[k];
        assert OptimalContainerPosition(tasks, sourcePos, isWall, spawns).value.Cell() == best;
        forall q | IsContainerSite(src, q, isWall)
          ensures ContainerCost(tasks, spawns[0], best) <= ContainerCost(tasks, spawns[0], q)
          ensures ScanBefore(q, best) ==> ContainerCost(tasks, spawns[0], best) < ContainerCost(tasks, spawns[0], q)
        {
          var j :| 0 <= j < |sites| && sites[j] == q;
          assert costs[j] == ContainerCost(tasks, spawns[0], q);
          if ScanBefore(q, best) {
            assert j < k;
          }
        }
      } else {
        assert sites == [];
        forall p ensures !IsContainerSite(src, p, isWall) {
          assert p !in sites;
        }
      }
    }
  }

  /** `rm.containerPositions` after `initRoomMemory`: one optimiser answer
      per source that has one, in source order. */
  function RoomContainers(sources: seq<Source>, isWall: MyPosition -> bool, spawns: seq<MyPosition>): seq<PositionPlusTarget>
    decreases |sources|
  {
    if sources == [] then []
    else
      var prefix := sources[..|sources| - 1];
      var source := sources[|sources| - 1];
      var sourcePos := PositionPlusTarget(source.pos.x, source.pos.y, source.id);
      var found := OptimalContainerPosition(SourceTasks(source, isWall, |RoomTasks(prefix, isWall)|), sourcePos, isWall, spawns);
      RoomContainers(prefix, isWall, spawns) + (if found.Some? then [found.value] else [])
  }

  /** At most one container position per source; each one is a non-wall
      room cell at range 2 from the source whose id it carries. */
  lemma {:induction false} RoomContainersSpec(sources: seq<Source>, isWall: MyPosition -> bool, spawns: seq<MyPosition>)
    ensures |RoomContainers(sources, isWall, spawns)| <= |sources|
    ensures spawns == [] ==> RoomContainers(sources, isWall, spawns) == []
    ensures forall c :: c in RoomContainers(sources, isWall, spawns) ==>
              exists k :: 0 <= k < |sources| && c.targetId == sources[k].id
                          && IsContainerSite(sources[k].pos, c.Cell(), isWall)
    decreases |sources|
  {
    if sources != [] {
      var n := |sources| - 1;
      var prefix := sources[..n];
      RoomContainersSpec(prefix, isWall, spawns);
      forall c | c in RoomContainers(sources, isWall, spawns)
        ensures exists k :: 0 <= k < |sources| && c.targetId == sources[k].id
                            && IsContainerSite(sources[k].pos, c.Cell(), isWall)
      {
        if c in RoomContainers(prefix, isWall, spawns) {
          var k :| 0 <= k < |prefix| && c.targetId == prefix[k].id && IsContainerSite(prefix[k].pos, c.Cell(), isWall);
          assert sources[k] == prefix[k];
        } else {
          assert c.targetId == sources[n].id && IsContainerSite(sources[n].pos, c.Cell(), isWall);
        }
      }
    }
  }
}
