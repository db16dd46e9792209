/**
 kernel/process.cpp and kernel/syscall_manager.cpp: processes, the scheduler and the
 system calls, in place.  Each operation is proved to make the step of the state machine
 that KernelState and KernelSteps describe.
 */
module ProcessManagers {
  import opened Words
  import opened Sv39Bits
  import opened Bitmaps
  import opened PhysicalMemories
  import opened PageTables
  import opened Mappings
  import opened BootMaps
  import opened AddressSpaces
  import opened Copying
  import opened Lists
  import opened MemoryManagers
  import opened ProcessMemory
  import opened Elf
  import opened ElfLoading
  import opened ElfLoader
  import opened KernelState
  import opened KernelSteps
  import opened KernelRuns
  import opened ProcessCreation
  import opened ForkSteps
  import opened Sv39

  /** The slots that the items of a list belong to. */
  ghost function Slots(items: seq<ListItem>): (r: seq<nat>)
    ensures |r| == |items| && forall i :: 0 <= i < |items| ==> r[i] == items[i].owner
  {
    seq(|items|, i requires 0 <= i < |items| => items[i].owner)
  }

  /** One link for every slot. */
  method MakeTags() returns (tags: seq<ListItem>)
    ensures |tags| == 32 && forall i :: 0 <= i < 32 ==> fresh(tags[i]) && tags[i].owner == i
  {
    tags := [];
    for i := 0 to 32
      invariant |tags| == i && forall j :: 0 <= j < i ==> fresh(tags[j]) && tags[j].owner == j
    {
      var item := new ListItem(i);
      tags := tags + [item];
    }
  }

  /** Both kinds of links, and two empty lists. */
  method MakeLists() returns (schedule: seq<ListItem>, universal: seq<ListItem>, all: List, ready: List)
    ensures |schedule| == |universal| == 32
    ensures forall i :: 0 <= i < 32 ==> schedule[i].owner == i && fresh(schedule[i])
    ensures forall i :: 0 <= i < 32 ==> universal[i].owner == i && fresh(universal[i])
    ensures forall i, j :: 0 <= i < 32 && 0 <= j < 32 ==> schedule[i] != universal[j]
    ensures all.Valid() && ready.Valid() && all.items == [] && ready.items == [] && all != ready
    ensures all.head != ready.head
    ensures fresh(all) && fresh(ready) && fresh(all.head) && fresh(ready.head)
    ensures all.head !in schedule && all.head !in universal && ready.head !in schedule && ready.head !in universal
  {
    schedule := MakeTags();
    universal := MakeTags();
    all := new List();
    ready := new List();
  }

  /** A record of zeros, but for the pid. */
  function BlankPcb(slot: nat): Pcb {
    Pcb(CREATED, 0, slot, 0, 0, 0, 0, seq(32, i => 0), [])
  }

  lemma Limit()
    ensures WORD_LIMIT == 0x1_0000_0000_0000_0000
  {
  }

  lemma NoneIs()
    ensures NONE == 0xffff_ffff_ffff_ffff
  {
  }

  lemma NewPcbIs(slot: nat, table: PhysAddr, entry: Word, env: Env)
    ensures BlankPcb(slot).(status := READY, totalTicks := 0, ticksAfterSchedule := 0).(
              l2PageTable := table, registers := FreshRegisters(), frame := [env.startProcess, 0x4_0020, entry, 0])
            == NewPcb(slot, table, entry, env)
  {
  }

  class ProcessManager {
    const mm: MemoryManager
    const pcbSet: array<Pcb>
    const pcbSetStatus: array<bool>
    const scheduleTag: seq<ListItem>
    const universalTag: seq<ListItem>
    const allProcess: List
    const readyProcess: List
    var current: int // the slot of current_running_process, -1 for none
    var satp: Word

    /** What never changes: sizes, and which objects are different. */
    ghost predicate Separate() {
      && pcbSet.Length == 32 && pcbSetStatus.Length == 32 && |scheduleTag| == 32 && |universalTag| == 32
      && (forall i :: 0 <= i < 32 ==> scheduleTag[i].owner == i)
      && (forall i :: 0 <= i < 32 ==> universalTag[i].owner == i)
      && (forall i, j :: 0 <= i < 32 && 0 <= j < 32 ==> scheduleTag[i] != universalTag[j])
      && allProcess != readyProcess && allProcess.head != readyProcess.head
      && allProcess.head !in scheduleTag && allProcess.head !in universalTag
      && readyProcess.head !in scheduleTag && readyProcess.head !in universalTag
      && (pcbSet as object) != pcbSetStatus
      && (pcbSet as object) !in mm.Footprint() && (pcbSetStatus as object) !in mm.Footprint()
    }

    /** The items of a list are tags of their slots. */
    ghost predicate Tagged(items: seq<ListItem>, tags: seq<ListItem>) {
      forall k :: 0 <= k < |items| ==> items[k].owner < |tags| && items[k] == tags[items[k].owner]
    }

    ghost predicate ListsValid()
      reads allProcess, allProcess.head, allProcess.items, readyProcess, readyProcess.head, readyProcess.items
    {
      && Separate() && allProcess.Valid() && readyProcess.Valid()
      && Tagged(allProcess.items, universalTag) && Tagged(readyProcess.items, scheduleTag)
    }

    ghost predicate Valid()
      reads mm, mm.mem, mm.mem.words, mm.pool.resources.bitmap
      reads allProcess, allProcess.head, allProcess.items, readyProcess, readyProcess.head, readyProcess.items
    {
      mm.Valid() && ListsValid()
    }

    /** The data of the kernel as one value. */
    ghost function State(): Kernel
      requires current >= 0
      reads this, mm, pcbSet, pcbSetStatus, allProcess, readyProcess
    {
      Kernel(mm.phys, pcbSet[..], pcbSetStatus[..], Slots(allProcess.items), Slots(readyProcess.items), current, satp,
             mm.l2PageTable)
    }

    /** initialize(): no process, no slot taken; the control blocks hold whatever they hold. */
    constructor (mm: MemoryManager, pcbSet: array<Pcb>, satp: Word)
      requires mm.Valid() && pcbSet.Length == 32 && (pcbSet as object) !in mm.Footprint()
      ensures Valid() && this.mm == mm && this.pcbSet == pcbSet && this.satp == satp
      ensures IsEmpty() && fresh(Objects() - mm.Footprint() - {pcbSet})
    {
      this.mm := mm;
      this.pcbSet := pcbSet;
      this.satp := satp;
      current := -1;
      var schedule, universal, all, ready := MakeLists();
      scheduleTag, universalTag, allProcess, readyProcess := schedule, universal, all, ready;
      pcbSetStatus := new bool[32](i => false);
    }

    method SetL2PageTable(address: PhysAddr)
      modifies this`satp
      ensures satp / 0x1000_0000_0000 == old(satp) / 0x1000_0000_0000 && satp % 0x1000_0000_0000 == address / 4096
    {
      satp := SatpFor(satp, address);
    }

    /** ready_process.push_back(&pcb->schedule_tag) */
    method Enqueue(slot: nat)
      requires Valid() && slot < 32 && slot !in Slots(readyProcess.items)
      modifies readyProcess, readyProcess.head, scheduleTag
      ensures Valid() && Slots(readyProcess.items) == old(Slots(readyProcess.items)) + [slot]
    {
      var item := scheduleTag[slot];
      forall k | 0 <= k < |readyProcess.items| ensures readyProcess.items[k] != item {
        assert Slots(readyProcess.items)[k] == readyProcess.items[k].owner;
      }
      readyProcess.PushBack(item);
    }

    /** all_process.push_back(&pcb->universal_tag) */
    method Register(slot: nat)
      requires Valid() && slot < 32 && slot !in Slots(allProcess.items)
      modifies allProcess, allProcess.head, universalTag
      ensures Valid() && Slots(allProcess.items) == old(Slots(allProcess.items)) + [slot]
    {
      var item := universalTag[slot];
      forall k | 0 <= k < |allProcess.items| ensures allProcess.items[k] != item {
        assert Slots(allProcess.items)[k] == allProcess.items[k].owner;
      }
      allProcess.PushBack(item);
    }

    /** The front of the ready list, by way of ListItem2PCB. */
    method FirstReady() returns (slot: nat)
      requires Valid() && readyProcess.items != []
      ensures slot < 32 && slot == Slots(readyProcess.items)[0]
    {
      var item := readyProcess.Front();
      slot := item.owner;
    }

    method Dequeue()
      requires Valid() && readyProcess.items != []
      modifies readyProcess, readyProcess.head, scheduleTag
      ensures Valid() && Slots(readyProcess.items) == old(Slots(readyProcess.items))[1..]
    {
      readyProcess.PopFront();
    }

    /** What the frame of Valid leaves out: the arrays of control blocks and of slot states, and this object. */
    lemma ArraysApart()
      requires Valid()
      ensures pcbSet.Length == 32 && pcbSetStatus.Length == 32 && (pcbSet as object) != pcbSetStatus
      ensures allProcess != readyProcess
      ensures {pcbSet as object, pcbSetStatus} !!
              {mm, mm.mem, mm.mem.words, mm.pool.resources.bitmap, allProcess, allProcess.head, readyProcess,
               readyProcess.head}
      ensures forall k :: 0 <= k < |allProcess.items| ==>
                allProcess.items[k] as object !in {pcbSet as object, pcbSetStatus}
      ensures forall k :: 0 <= k < |readyProcess.items| ==>
                readyProcess.items[k] as object !in {pcbSet as object, pcbSetStatus}
    {
    }

    /** An update of one control block. */
    method SetPcb(slot: nat, pcb: Pcb)
      requires Valid() && slot < 32
      modifies pcbSet
      ensures Valid() && pcbSet[..] == old(pcbSet[..])[slot := pcb] && pcbSet[slot] == pcb
    {
      hide Valid;
      ArraysApart();
      pcbSet[slot] := pcb;
    }

    /** The first half of schedule: the clock bookkeeping, and the current process back in the queue if it still
        runs. */
    method ChargeCurrent()
      requires Valid() && 0 <= current < 32 && current !in Slots(readyProcess.items)
      modifies pcbSet, readyProcess, readyProcess.head, scheduleTag
      ensures Valid() && old(State()).current < |old(State()).pcbs| && State() == Charged(old(State()))
    {
      hide Valid;
      ArraysApart();
      var pcb := pcbSet[current];
      SetPcb(current, pcb.(totalTicks := (pcb.totalTicks + 1) % WORD_LIMIT,
                           ticksAfterSchedule := (pcb.ticksAfterSchedule + 1) % WORD_LIMIT));
      assert pcbSet[..][current] == pcbSet[current] && old(pcbSet[..])[current] == pcb;
      if pcbSet[current].status == RUNNING {
        Enqueue(current);
        SetPcb(current, pcbSet[current].(ticksAfterSchedule := 0, status := READY));
      }
    }

    /** The second half of schedule: the front of the queue becomes current. */
    method SwitchToFirst()
      requires Valid() && current >= 0 && readyProcess.items != []
      modifies this`current, this`satp, pcbSet, readyProcess, readyProcess.head, scheduleTag
      ensures Valid() && current >= 0
      ensures var c := old(State()); c.ready != [] && c.ready[0] < |c.pcbs| && State() == Switched(c)
    {
      hide SatpFor;
      hide Valid;
      ArraysApart();
      var next := FirstReady();
      SetPcb(next, pcbSet[next].(status := RUNNING));
      current := next;
      Dequeue();
      SetL2PageTable(pcbSet[next].l2PageTable);
      SatpIs(old(satp), pcbSet[next].l2PageTable, satp);
    }

    /** schedule() */
    method Schedule()
      requires Valid() && current >= 0 && GoodLists(State())
      modifies this`current, this`satp, pcbSet, readyProcess, readyProcess.head, scheduleTag
      ensures Valid() && current >= 0
      ensures CanSchedule(old(State())) && State() == Scheduled(old(State()))
      ensures var k, k' := old(State()), State();
        k.ready != [] ==>
          && |k'.pcbs| == |k.pcbs|
          && k'.pcbs[k.current].totalTicks == (k.pcbs[k.current].totalTicks + 1) % 0x1_0000_0000_0000_0000
          && k'.pcbs[k.current].ticksAfterSchedule ==
               (if k.pcbs[k.current].status == RUNNING then 0
                else (k.pcbs[k.current].ticksAfterSchedule + 1) % 0x1_0000_0000_0000_0000)
          && (forall i: nat {:trigger k'.pcbs[i]} :: i < |k.pcbs| ==>
                && k'.pcbs[i].registers == k.pcbs[i].registers && k'.pcbs[i].frame == k.pcbs[i].frame
                && k'.pcbs[i].priority == k.pcbs[i].priority && k'.pcbs[i].parentPid == k.pcbs[i].parentPid)
    {
      hide *;
      ScheduleReady();
      ScheduledFields(State());
      StateQueue();
      var size := readyProcess.Size();
      if size < 1 {
        return;
      }
      ChargeCurrent();
      StateQueue();
      SwitchToFirst();
    }

    lemma StateQueue()
      requires Valid() && current >= 0
      ensures readyProcess.items == [] <==> State().ready == []
    {
      hide Valid;
    }

    /** What schedule relies on, and its two cases. */
    lemma ScheduleReady()
      requires Valid() && current >= 0 && GoodLists(State())
      ensures current < 32 && current !in Slots(readyProcess.items) && readyProcess.Valid()
      ensures var k := State();
        && CanSchedule(k) && k.current < |k.pcbs|
        && (k.ready == [] ==> Scheduled(k) == k)
        && (k.ready != [] ==>
              && Charged(k).ready != [] && Charged(k).ready[0] < |Charged(k).pcbs|
              && Scheduled(k) == Switched(Charged(k)))
    {
      hide Switched;
      hide SatpFor;
      GoodSchedules(State());
      ValidShape();
      hide Valid;
      if State().ready != [] {
        assert Charged(State()).ready[0] == State().ready[0] && State().ready[0] in State().ready;
      }
    }

    /** The objects of the memory manager are none of the others. */
    lemma MemoryApart()
      requires Valid()
      ensures {mm as object, mm.mem, mm.mem.words, mm.pool.resources.bitmap} !!
              {this, pcbSet, pcbSetStatus, allProcess, allProcess.head, readyProcess, readyProcess.head}
      ensures forall k :: 0 <= k < |allProcess.items| ==>
                allProcess.items[k] as object !in {mm as object, mm.mem, mm.mem.words, mm.pool.resources.bitmap}
      ensures forall k :: 0 <= k < |readyProcess.items| ==>
                readyProcess.items[k] as object !in {mm as object, mm.mem, mm.mem.words, mm.pool.resources.bitmap}
    {
    }

    /** The links of a slot that is in neither list are apart from everything in the lists. */
    lemma LinksApart(slot: nat)
      requires Valid() && slot < 32 && slot !in Slots(allProcess.items) && slot !in Slots(readyProcess.items)
      ensures |scheduleTag| == 32 && |universalTag| == 32
      ensures {scheduleTag[slot], universalTag[slot]} !! {allProcess.head, readyProcess.head}
      ensures forall k :: 0 <= k < |allProcess.items| ==>
                allProcess.items[k] !in {scheduleTag[slot], universalTag[slot]}
      ensures forall k :: 0 <= k < |readyProcess.items| ==>
                readyProcess.items[k] !in {scheduleTag[slot], universalTag[slot]}
      ensures {scheduleTag[slot] as object, universalTag[slot]} !!
              {mm as object, mm.mem, mm.mem.words, mm.pool.resources.bitmap, allProcess, readyProcess, pcbSet,
               pcbSetStatus}
    {
      forall k | 0 <= k < |allProcess.items| ensures allProcess.items[k] !in {scheduleTag[slot], universalTag[slot]} {
        assert Slots(allProcess.items)[k] == allProcess.items[k].owner;
      }
      forall k | 0 <= k < |readyProcess.items|
        ensures readyProcess.items[k] !in {scheduleTag[slot], universalTag[slot]}
      {
        assert Slots(readyProcess.items)[k] == readyProcess.items[k].owner;
      }
    }

    /** memset(pcb, 0, PCB_SIZE), which also clears the two links, and the pid. */
    method ClearPcb(slot: nat)
      requires Valid() && slot < 32 && slot !in Slots(allProcess.items) && slot !in Slots(readyProcess.items)
      modifies pcbSet, scheduleTag, universalTag
      ensures Valid() && pcbSet[..] == old(pcbSet[..])[slot := BlankPcb(slot)]
    {
      hide *;
      LinksApart(slot);
      scheduleTag[slot].previous, scheduleTag[slot].next := null, null;
      universalTag[slot].previous, universalTag[slot].next := null, null;
      SetPcb(slot, BlankPcb(slot));
    }

    /** A slot that is not taken has no address space and is in no list. */
    ghost predicate FreeSlotsUnused()
      requires pcbSetStatus.Length == 32
      reads mm, pcbSetStatus, allProcess, readyProcess
    {
      forall i: nat {:trigger pcbSetStatus[i]} :: i < 32 && !pcbSetStatus[i] ==>
        Proc(i) !in mm.phys.roots && i !in Slots(allProcess.items) && i !in Slots(readyProcess.items)
    }

    /** allocate_pcb: the first free slot, cleared; 32 stands for the null pointer. */
    method AllocatePcb() returns (slot: nat)
      requires Valid() && pcbSetStatus.Length == 32 && FreeSlotsUnused()
      modifies pcbSet, pcbSetStatus, scheduleTag, universalTag
      ensures Valid() && slot == FirstFree(old(pcbSetStatus[..]))
      ensures slot < 32 ==> pcbSetStatus[..] == old(pcbSetStatus[..])[slot := true]
      ensures slot < 32 ==> pcbSet[..] == old(pcbSet[..])[slot := BlankPcb(slot)]
      ensures slot < 32 ==> var p := BlankPcb(slot);
                && p.pid == slot && p.priority == 0 && p.totalTicks == 0 && p.ticksAfterSchedule == 0
                && p.parentPid == 0 && forall i :: 0 <= i < 32 ==> p.registers[i] == 0
      ensures slot >= 32 ==> pcbSetStatus[..] == old(pcbSetStatus[..]) && pcbSet[..] == old(pcbSet[..])
    {
      hide Valid;
      hide FirstFree;
      hide Slots;
      ghost var used := pcbSetStatus[..];
      ArraysApart();
      slot := 0;
      while slot < 32
        invariant slot <= 32 && Valid() && pcbSetStatus[..] == used && pcbSet[..] == old(pcbSet[..])
        invariant forall j :: 0 <= j < slot ==> used[j]
        invariant unchanged(pcbSet, pcbSetStatus) && unchanged(scheduleTag) && unchanged(universalTag)
      {
        if !pcbSetStatus[slot] {
          pcbSetStatus[slot] := true;
          ClearPcb(slot);
          return;
        }
        slot := slot + 1;
      }
    }

    /** find_process_by_pid: the first process of the list with that pid; 32 stands for the null pointer. */
    method FindProcessByPid(pid: nat) returns (found: nat)
      requires Valid()
      ensures pcbSet.Length == 32
      ensures found < 32 ==> found in Slots(allProcess.items) && pcbSet[found].pid == pid
      ensures found >= 32 ==> forall i :: i in Slots(allProcess.items) ==> i < 32 && pcbSet[i].pid != pid
    {
      var item := allProcess.Front();
      ghost var k := 0;
      while item != null
        invariant 0 <= k <= |allProcess.items| && item == if k < |allProcess.items| then allProcess.items[k] else null
        invariant forall j :: 0 <= j < k ==> pcbSet[allProcess.items[j].owner].pid != pid
        decreases |allProcess.items| - k
      {
        if pcbSet[item.owner].pid == pid {
          assert Slots(allProcess.items)[k] == item.owner;
          return item.owner;
        }
        item := item.next;
        k := k + 1;
      }
      found := 32;
    }

    lemma ValidParts()
      requires Valid()
      ensures mm.Valid() && ListsValid()
    {
    }

    lemma ValidWhole()
      requires mm.Valid() && ListsValid()
      ensures Valid()
    {
    }

    lemma FreeSlots()
      requires Valid() && pcbSetStatus.Length == 32 && FreeSlotsUnused()
      ensures var c := FirstFree(pcbSetStatus[..]);
        c < 32 ==>
          && Proc(c) !in mm.phys.roots && Proc(c) != Boot
          && c !in Slots(allProcess.items) && c !in Slots(readyProcess.items)
    {
      hide Valid;
      hide FirstFree;
      hide Slots;
      assert |pcbSetStatus[..]| == 32;
    }

    /** The rest of create_process: the root, the initial registers and switch frame, and both lists. */
    method AddToLists(slot: nat, table: PhysAddr, entry: Word, env: Env)
      requires Valid() && slot < 32 && pcbSet.Length == 32
      requires pcbSet[slot] == BlankPcb(slot).(status := READY, totalTicks := 0, ticksAfterSchedule := 0)
      requires slot !in Slots(allProcess.items) && slot !in Slots(readyProcess.items)
      modifies pcbSet, scheduleTag, universalTag, allProcess, allProcess.head, readyProcess, readyProcess.head
      ensures Valid() && pcbSet[..] == old(pcbSet[..])[slot := NewPcb(slot, table, entry, env)]
      ensures Slots(allProcess.items) == old(Slots(allProcess.items)) + [slot]
      ensures Slots(readyProcess.items) == old(Slots(readyProcess.items)) + [slot]
    {
      hide *;
      ArraysApart();
      NewPcbIs(slot, table, entry, env);
      SetPcb(slot, pcbSet[slot].(l2PageTable := table, registers := FreshRegisters(),
                                 frame := [env.startProcess, 0x4_0020, entry, 0]));
      Register(slot);
      Enqueue(slot);
    }

    /**
     create_process.  Apart from a table that is full, which it reports as -1, the call fails
     only by trapping, exactly when the pool is too small for the new space.
     */
    method CreateProcess(program: Program, env: Env, junk: Word, ghost b: Space) returns (trapped: bool, pid: Word)
      requires Valid() && pcbSetStatus.Length == 32 && FreeSlotsUnused() && Template(mm.phys, mm.l2PageTable, b)
      requires program.Program? ==> HeadersInside(program.file)
      requires FileFits(FileOf(program), SegmentsOf(program))
      modifies pcbSet, pcbSetStatus, scheduleTag, universalTag, mm.mem, mm.mem.words, mm.pool.resources.bitmap, mm`phys
      modifies allProcess, allProcess.head, readyProcess, readyProcess.head
      ensures Valid()
      ensures var c := FirstFree(old(pcbSetStatus[..])); var gs := SegmentsOf(program);
        && (c == 32 ==> !trapped && pid == NONE)
        && (c < 32 ==> (trapped <==> BuildUse(old(mm.phys), Proc(c), gs) > 0x7eff))
        && (c < 32 && !trapped ==>
              && pid == c && SpaceBuilt(old(mm.phys), mm.phys, Proc(c), FileOf(program), gs, junk)
              && Proc(c) in mm.phys.roots && IsPage(mm.phys.roots[Proc(c)])
              && pcbSetStatus[..] == old(pcbSetStatus[..])[c := true]
              && Slots(allProcess.items) == old(Slots(allProcess.items)) + [c]
              && Slots(readyProcess.items) == old(Slots(readyProcess.items)) + [c]
              && pcbSet[..] == old(pcbSet[..])[c := NewPcb(c, mm.phys.roots[Proc(c)] * 4096,
                                                             if program.Program? then Entry64(program.file) else 0,
                                                             env)]
              && (program.Program? ==> EntryIs(program.file, Entry64(program.file)))
              && var entry := if program.Program? then Entry64(program.file) else 0;
                 pcbSet[c].status == READY && StartsAt(pcbSet[c], c, mm.phys.roots[Proc(c)] * 4096, entry, env))
      ensures FirstFree(old(pcbSetStatus[..])) == 32 ==>
                && mm.phys == old(mm.phys) && pcbSetStatus[..] == old(pcbSetStatus[..]) && pcbSet[..] == old(pcbSet[..])
                && Slots(allProcess.items) == old(Slots(allProcess.items))
                && Slots(readyProcess.items) == old(Slots(readyProcess.items))
    {
      hide *;
      trapped, pid := false, 0xffff_ffff_ffff_ffff;
      NoneIs();
      ArraysApart();
      MemoryApart();
      FreeSlots();
      var slot := AllocatePcb();
      if slot >= 32 {
        return;
      }
      SetPcb(slot, pcbSet[slot].(status := READY, totalTicks := 0, ticksAfterSchedule := 0));
      var table, entry;
      ValidParts();
      trapped, table, entry := BuildSpace(mm, program, Proc(slot), b, junk);
      ValidWhole();
      if trapped {
        return;
      }
      PageWord(mm.phys.roots[Proc(slot)]);
      AddToLists(slot, table, entry, env);
      NewPcbFields(slot, table, entry, env);
      ProgramEntry(program);
      assert pcbSet[..][slot] == pcbSet[slot];
      pid := slot;
    }

    /**
     copy_process: the child's control block and saved registers, then its memory.
     */
    method CopyProcess(parent: nat, child: nat, env: Env, ghost a: Space, ghost c: Space)
        returns (trapped: bool, ok: bool)
      requires Valid() && parent < 32 && child < 32 && pcbSet.Length == 32 && CanCopy(mm.phys, a, c)
      requires a in mm.phys.roots && c in mm.phys.roots
      requires pcbSet[parent].l2PageTable == mm.phys.roots[a] * 4096
      requires pcbSet[child].l2PageTable == mm.phys.roots[c] * 4096
      modifies pcbSet, mm.mem, mm.mem.words, mm.pool.resources.bitmap, mm`phys
      ensures Valid() && pcbSet[..] == old(pcbSet[..])[child := ForkedPcb(old(pcbSet[parent]), old(pcbSet[child]), env)]
      ensures old(pcbSet[parent]).pid < WORD_LIMIT ==>
                && ResumesLike(pcbSet[child], old(pcbSet[parent]), env) && pcbSet[child].status == READY
                && pcbSet[child].pid == old(pcbSet[child]).pid
                && pcbSet[child].l2PageTable == old(pcbSet[child]).l2PageTable
      ensures !trapped && ok ==> CopyState(old(mm.phys), mm.phys, a, c, 0x800_0000)
      ensures !trapped && !ok ==> Stuck(old(mm.phys), mm.phys, a, c)
      ensures !trapped && ok <==> old(Used(mm.phys)) + Need(old(mm.phys), a, c) <= 0x7eff
      ensures !trapped && !ok <==> RunsOut(old(mm.phys), a, c, 0x400_0000, 0x800_0000)
    {
      hide *;
      ArraysApart();
      MemoryApart();
      var p, q := pcbSet[parent], pcbSet[child];
      SetPcb(child, ForkedPcb(p, q, env));
      if p.pid < 0x1_0000_0000_0000_0000 {
        ForkedPcbFields(p, q, env);
      }
      Limit();
      ValidParts();
      trapped, ok := CopyUserMemory(mm, p.l2PageTable, q.l2PageTable, a, c);
      ValidWhole();
    }

    /** The fields of State. */
    lemma StateIs()
      requires Valid() && current >= 0
      ensures State().phys == mm.phys && State().pcbs == pcbSet[..] && State().used == pcbSetStatus[..]
      ensures State().all == Slots(allProcess.items) && State().ready == Slots(readyProcess.items)
      ensures State().current == current && State().satp == satp && State().l2 == mm.l2PageTable
      ensures State() == Kernel(mm.phys, pcbSet[..], pcbSetStatus[..], Slots(allProcess.items),
                                Slots(readyProcess.items), current, satp, mm.l2PageTable)
    {
    }

    /** What create_process asks for holds in a good state. */
    lemma ForkStarts()
      requires Valid() && current >= 0 && Good(State())
      ensures pcbSetStatus.Length == 32 && pcbSet.Length == 32 && FreeSlotsUnused()
      ensures Template(mm.phys, mm.l2PageTable, Proc(0))
      ensures current < 32 && Live(State(), current) && |State().used| == 32
    {
      hide Valid;
      hide Good;
      hide Slots;
      hide Template;
      ArraysApart();
      GoodCurrent(State());
      GoodTemplate(State());
      forall i: nat | i < 32 && !pcbSetStatus[i]
        ensures Proc(i) !in mm.phys.roots && i !in Slots(allProcess.items) && i !in Slots(readyProcess.items)
      {
        assert !State().used[i];
        GoodFreeSlot(State(), i);
      }
    }

    /** do_fork first makes a process without a program, which costs four pages. */
    method MakeChild(env: Env) returns (trapped: bool, pid: Word)
      requires Valid() && current >= 0 && Good(State())
      modifies pcbSet, pcbSetStatus, scheduleTag, universalTag, mm.mem, mm.mem.words, mm.pool.resources.bitmap, mm`phys
      modifies allProcess, allProcess.head, readyProcess, readyProcess.head
      ensures Valid() && pcbSet.Length == 32 && pcbSetStatus.Length == 32
      ensures var k := old(State()); var c := FirstFree(k.used);
        && (c == 32 ==> !trapped && pid == NONE && State() == k)
        && (c < 32 ==> (trapped <==> Used(k.phys) + 4 > 0x7eff))
        && (c < 32 && !trapped ==>
              && pid == c && SpaceBuilt(k.phys, mm.phys, Proc(c), [], [], 0)
              && ChildFits(k, mm.phys) && State() == ChildMade(k, mm.phys, env))
    {
      hide *;
      ghost var k := State();
      NoneIs();
      StateIs();
      ForkStarts();
      NoSegments();
      BuildUseAtLeast(k.phys, Proc(FirstFree(k.used)), []);
      trapped, pid := CreateProcess(NoProgram, env, 0, Proc(0));
      StateIs();
      if !trapped && pid != NONE {
        ChildFitsIs(k, mm.phys);
        ChildMadeIs(k, mm.phys, env);
      }
    }

    /** The child is the only process with its pid. */
    lemma ChildFound(k: Kernel, c: nat, found: nat, env: Env, root: PhysAddr)
      requires Good(k) && |k.pcbs| == 32 && |k.used| == 32 && c < 32 && !k.used[c]
      requires found < 32 ==> found in k.all + [c] && k.pcbs[c := NewPcb(c, root, 0, env)][found].pid == c
      requires found >= 32 ==> forall i :: i in k.all + [c] ==>
                i < 32 && k.pcbs[c := NewPcb(c, root, 0, env)][i].pid != c
      ensures found == c
    {
      hide Good;
      GoodCurrent(k);
      assert c in k.all + [c];
      if found < 32 && found != c {
        GoodPcb(k, found);
      }
    }

    /** The rest of do_fork, once the child's space is built: look the child up, copy, and give it up if that fails. */
    method FillChild(pid: nat, env: Env, ghost k: Kernel) returns (trapped: bool, ok: bool)
      requires Valid() && current >= 0 && pcbSet.Length == 32 && Good(k)
      requires pid == FirstFree(k.used) && SpaceBuilt(k.phys, mm.phys, Proc(pid), [], [], 0)
      requires ChildFits(k, mm.phys) && State() == ChildMade(k, mm.phys, env)
      modifies pcbSet, mm.mem, mm.mem.words, mm.pool.resources.bitmap, mm`phys
      ensures Valid()
      ensures !trapped ==> Next(k, Fork(ok, env), State())
      ensures !trapped && ok <==> Used(k.phys) + |Footprint(k.phys, Proc(k.current))| + 1 <= 0x7eff
      ensures !trapped && !ok <==> ForkFails(k.phys, Proc(k.current))
    {
      hide *;
      ghost var a, s1, was := Proc(k.current), mm.phys, pcbSet[..];
      ChildMadeIs(k, s1, env);
      ghost var made := NewPcb(pid, s1.roots[Proc(pid)] * 4096, 0, env);
      ArraysApart();
      MemoryApart();
      StateIs();
      GoodCurrent(k);
      GoodPcb(k, k.current);
      ForkReady(k, s1, pid);
      assert was[pid] == pcbSet[pid] == made && was[current] == pcbSet[current] == k.pcbs[current];
      var child := FindProcessByPid(pid);
      ChildFound(k, pid, child, env, s1.roots[Proc(pid)] * 4096);
      trapped, ok := CopyProcess(current, child, env, a, Proc(pid));
      if trapped {
        return;
      }
      ghost var v := 0x800_0000;
      if !ok {
        v := StuckWhere(s1, mm.phys, a, Proc(pid));
      }
      CopyKeepsRoots(s1, mm.phys, a, Proc(pid), v);
      if !ok {
        SetPcb(child, pcbSet[child].(status := DEAD));
      }
      StateIs();
      assert State().pcbs == k.pcbs[pid := if ok then ForkedPcb(k.pcbs[current], made, env)
                                           else ForkedPcb(k.pcbs[current], made, env).(status := DEAD)];
      ValidParts();
      mm.UsedFits();
      ForkIsStep(k, s1, State(), ok, env);
    }

    /**
     do_fork.  It makes a step of the kernel.  It succeeds exactly when there is a free slot and
     the pool has a page for every root, table and frame of the parent, and one more.  It returns
     -1 exactly when there is no slot or the pool runs out at a frame; and that happens, for
     instance, with exactly four pages left.
     */
    method DoFork(env: Env) returns (trapped: bool, pid: Word)
      requires Valid() && current >= 0 && Good(State())
      modifies pcbSet, pcbSetStatus, scheduleTag, universalTag, mm.mem, mm.mem.words, mm.pool.resources.bitmap, mm`phys
      modifies allProcess, allProcess.head, readyProcess, readyProcess.head
      ensures Valid() && current >= 0
      ensures !trapped ==> Next(old(State()), ForkOutcome(old(State()).used, pid, env), State())
      ensures !trapped && pid != NONE ==> pid == FirstFree(old(State()).used)
      ensures var k := old(State());
        !trapped && pid != NONE <==>
        FirstFree(k.used) < 32 && Used(k.phys) + |Footprint(k.phys, Proc(k.current))| + 1 <= 0x7eff
      ensures var k := old(State());
        !trapped && pid == NONE <==> FirstFree(k.used) >= 32 || ForkFails(k.phys, Proc(k.current))
      ensures var k := old(State()); var c := FirstFree(k.used);
        c < 32 && Used(k.phys) == 0x7efb ==>
          && !trapped && pid == NONE && c < |State().pcbs| && State().pcbs[c].status == DEAD
          && State().ready == k.ready + [c] && !Clean(State())
    {
      hide *;
      ghost var k := State();
      NoneIs();
      StateIs();
      ForkStarts();
      GoodPcb(k, k.current);
      AtLeastFour(k.phys, Proc(k.current));
      if ForkFails(k.phys, Proc(k.current)) {
        FailsAfterStack(k.phys, Proc(k.current));
      }
      if Used(k.phys) == 0x7efb {
        FourPagesLeft(k.phys, Proc(k.current));
      }
      trapped, pid := MakeChild(env);
      if trapped {
        return;
      }
      if pid == NONE {
        NoSlotIsStep(k, env);
        return;
      }
      var ok;
      trapped, ok := FillChild(pid, env, k);
      if !trapped && !ok {
        pid := 0xffff_ffff_ffff_ffff;
      }
      ForkOutcomeIs(k.used, pid, env);
      if !trapped {
        ForkEndsAs(k, State(), pid != NONE, env);
      }
    }

    /** do_exit */
    method DoExit()
      requires Valid() && current >= 0 && Good(State())
      modifies this`current, this`satp, pcbSet, readyProcess, readyProcess.head, scheduleTag
      ensures Valid() && current >= 0 && Next(old(State()), Exit, State())
    {
      hide *;
      ghost var k := State();
      ArraysApart();
      StateIs();
      ForkStarts();
      SetPcb(current, pcbSet[current].(status := DEAD));
      StateIs();
      KilledIs(k, State());
      GoodKilledLists(k);
      Schedule();
      ExitIsStep(k, State());
    }

    /** do_test, and the handler of the timer interrupt */
    method DoTest()
      requires Valid() && current >= 0 && Good(State())
      modifies this`current, this`satp, pcbSet, readyProcess, readyProcess.head, scheduleTag
      ensures Valid() && current >= 0 && Next(old(State()), Tick, State())
    {
      hide *;
      ghost var k := State();
      GoodMeans(k);
      Schedule();
      TickIsStep(k, State());
    }

    /**
     handle_syscall.  Numbers above 3 stop the kernel in an endless loop; write prints and
     changes nothing here.
     */
    method HandleSyscall(number: Word, env: Env) returns (stopped: bool, r: Word)
      requires Valid() && current >= 0 && Good(State())
      modifies this`current, this`satp, pcbSet, pcbSetStatus, scheduleTag, universalTag
      modifies mm.mem, mm.mem.words, mm.pool.resources.bitmap, mm`phys
      modifies allProcess, allProcess.head, readyProcess, readyProcess.head
      ensures Valid() && current >= 0
      ensures !stopped ==> Good(State())
      ensures number == 0 ==> !stopped && r == 0 && Next(old(State()), Tick, State())
      ensures number == 1 ==> !stopped && r == 0 && State() == old(State())
      ensures number == 2 ==> !stopped && r == 0 && Next(old(State()), Exit, State())
      ensures number == 3 && !stopped ==> Next(old(State()), ForkOutcome(old(State()).used, r, env), State())
      ensures var k := old(State());
        number == 3 ==>
          (!stopped && r != NONE <==>
           FirstFree(k.used) < 32 && Used(k.phys) + |Footprint(k.phys, Proc(k.current))| + 1 <= 0x7eff)
      ensures var k := old(State());
        number == 3 ==> (!stopped && r == NONE <==> FirstFree(k.used) >= 32 || ForkFails(k.phys, Proc(k.current)))
      ensures number > 3 ==> stopped
    {
      hide *;
      ghost var k := State();
      stopped, r := false, 0;
      if number == 0 {
        DoTest();
        NextIsGood(k, Tick, State());
      } else if number == 2 {
        DoExit();
        NextIsGood(k, Exit, State());
      } else if number == 3 {
        stopped, r := DoFork(env);
        if !stopped {
          NextIsGood(k, ForkOutcome(k.used, r, env), State());
        }
      } else if number != 1 {
        stopped := true;
      }
    }

    /** Takes the front of the ready list out and marks it RUNNING. */
    method TakeFirst() returns (slot: nat)
      requires Valid() && readyProcess.items != []
      modifies pcbSet, readyProcess, readyProcess.head, scheduleTag
      ensures Valid() && slot == old(Slots(readyProcess.items))[0] && slot < 32 && pcbSet.Length == 32
      ensures Slots(readyProcess.items) == old(Slots(readyProcess.items))[1..]
      ensures pcbSet[..] == old(pcbSet[..])[slot := old(pcbSet[..])[slot].(status := RUNNING)]
    {
      hide *;
      ArraysApart();
      slot := FirstReady();
      Dequeue();
      SetPcb(slot, pcbSet[slot].(status := RUNNING));
    }

    /** The end of kernel_entry: the process at the front of the ready list becomes the first to run. */
    method StartFirst()
      requires Valid() && readyProcess.items != []
      modifies this`current, this`satp, pcbSet, readyProcess, readyProcess.head, scheduleTag, mm`l2PageTable
      ensures Valid() && current == old(Slots(readyProcess.items))[0] && 0 <= current < 32 && pcbSet.Length == 32
      ensures Slots(readyProcess.items) == old(Slots(readyProcess.items))[1..]
      ensures pcbSet[..] == old(pcbSet[..])[current := old(pcbSet[..])[current].(status := RUNNING)]
      ensures satp == SatpFor(old(satp), pcbSet[current].l2PageTable) && mm.l2PageTable == pcbSet[current].l2PageTable
    {
      hide *;
      MemoryApart();
      var slot := TakeFirst();
      SetL2PageTable(pcbSet[slot].l2PageTable);
      SatpIs(old(satp), pcbSet[slot].l2PageTable, satp);
      ValidParts();
      mm.SetRoot(pcbSet[slot].l2PageTable);
      ValidWhole();
      current := slot;
    }

    /** Everything that the methods above may change. */
    ghost function Objects(): set<object> {
      {mm, mm.mem, mm.mem.words, mm.pool.resources.bitmap, pcbSet, pcbSetStatus, allProcess, allProcess.head,
       readyProcess, readyProcess.head} + (set o | o in scheduleTag) + (set o | o in universalTag)
    }

    /** No process, and no slot taken. */
    ghost predicate IsEmpty()
      reads this, pcbSetStatus, allProcess, readyProcess
    {
      && current == -1 && pcbSetStatus.Length == 32 && (forall i :: 0 <= i < 32 ==> !pcbSetStatus[i])
      && allProcess.items == [] && readyProcess.items == []
    }

    lemma NothingYet(s: Phys)
      requires Valid() && IsEmpty() && mm.phys == s && Proc(0) !in s.roots && s.roots.Keys == {Boot}
      ensures pcbSetStatus.Length == 32 && pcbSet.Length == 32 && FreeSlotsUnused()
      ensures pcbSetStatus[..] == seq(32, i => false) && FirstFree(pcbSetStatus[..]) == 0
      ensures seq(32, i => false)[0 := true] == seq(32, i => i == 0)
      ensures Slots(allProcess.items) == [] && Slots(readyProcess.items) == []
    {
      hide Valid;
      ArraysApart();
    }

    /** Process 0 is made and started. */
    method StartZero(file: File, env: Env, junk: Word, ghost s0: Phys) returns (trapped: bool)
      requires Valid() && IsEmpty() && mm.phys == s0 && Template(s0, mm.l2PageTable, Boot)
      requires Proc(0) !in s0.roots && s0.roots.Keys == {Boot}
      requires |file| <= KERNEL_SIZE && HeadersInside(file) && FileFits(file, Segments(file))
      modifies this`current, this`satp, Objects()
      ensures Valid()
      ensures trapped <==> BuildUse(s0, Proc(0), Segments(file)) > 0x7eff
      ensures !trapped ==>
                && current == 0 && pcbSet.Length == 32 && SpaceBuilt(s0, mm.phys, Proc(0), file, Segments(file), junk)
                && Proc(0) in mm.phys.roots && IsPage(mm.phys.roots[Proc(0)])
                && mm.phys.roots[Proc(0)] * 4096 < 0x100_0000_0000_0000
                && pcbSet[0] == NewPcb(0, mm.phys.roots[Proc(0)] * 4096, Entry64(file), env).(status := RUNNING)
                && pcbSetStatus[..] == seq(32, i => i == 0)
                && Slots(allProcess.items) == [0] && Slots(readyProcess.items) == []
                && mm.l2PageTable == pcbSet[0].l2PageTable && satp == SatpFor(old(satp), pcbSet[0].l2PageTable)
    {
      hide *;
      NothingYet(s0);
      ObjectsAre();
      ArraysApart();
      MemoryApart();
      ProgramIs(file);
      var pid;
      trapped, pid := CreateProcess(Program(file), env, junk, Boot);
      if !trapped {
        QueueOfOne();
        PageWord(mm.phys.roots[Proc(0)]);
        StartFirst();
      }
    }

    lemma ObjectsAre()
      ensures Objects() == {mm, mm.mem, mm.mem.words, mm.pool.resources.bitmap, pcbSet, pcbSetStatus, allProcess,
                            allProcess.head, readyProcess, readyProcess.head} +
                           (set o | o in scheduleTag) + (set o | o in universalTag)
    {
    }

    lemma ObjectsIn()
      ensures mm in Objects() && mm.mem in Objects() && mm.mem.words in Objects()
      ensures mm.pool.resources.bitmap in Objects() && pcbSet in Objects() && pcbSetStatus in Objects()
      ensures allProcess in Objects() && allProcess.head in Objects()
      ensures readyProcess in Objects() && readyProcess.head in Objects()
      ensures forall i {:trigger scheduleTag[i]} :: 0 <= i < |scheduleTag| ==> scheduleTag[i] in Objects()
      ensures forall i {:trigger universalTag[i]} :: 0 <= i < |universalTag| ==> universalTag[i] in Objects()
    {
    }

    lemma QueueOfOne()
      requires Slots(readyProcess.items) == [] + [0]
      ensures readyProcess.items != [] && Slots(readyProcess.items)[1..] == []
    {
    }

    lemma ValidShape()
      requires Valid()
      ensures pcbSet.Length == 32 && pcbSetStatus.Length == 32 && (pcbSet as object) != pcbSetStatus
      ensures |scheduleTag| == 32 && |universalTag| == 32
      ensures readyProcess.Valid() && allProcess.Valid()
    {
    }
  }

  /** rv64_kernel_init: memory, page tables and lists, and no process yet. */
  method KernelInit(words: array<Word>, bitmap: array<bv8>, pcbSet: array<Pcb>) returns (kernel: ProcessManager)
    requires words.Length == 0x100_0000 && bitmap.Length == 4064 && pcbSet.Length == 32
    requires (words as object) != bitmap && (pcbSet as object) != words && (pcbSet as object) != bitmap
    modifies words, bitmap
    ensures kernel.Valid() && kernel.IsEmpty() && fresh(kernel)
    ensures forall o :: o in kernel.Objects() ==> fresh(o) || o in {words as object, bitmap, pcbSet}
    ensures BootOnly(kernel.mm.phys, kernel.mm.l2PageTable) && Used(kernel.mm.phys) == 69
    ensures forall t: Path {:trigger LeafAt(kernel.mm.phys, Boot, t)} :: t.InRange() ==>
              LeafAt(kernel.mm.phys, Boot, t) == if Covered(BootRanges(), Vpn(t)) then IdentityLeaf(Vpn(t)) else 0
    ensures kernel.satp / 0x1000_0000_0000_0000 == 8
    ensures kernel.satp % 0x1000_0000_0000_0000 == kernel.mm.l2PageTable / 4096
  {
    hide *;
    var mm := new MemoryManager(words, bitmap);
    FootprintIs(mm);
    var satp := mm.Initialize();
    FootprintIs(mm);
    label L:
    kernel := new ProcessManager(mm, pcbSet, satp);
    forall o | o in kernel.Objects() ensures fresh(o) || o in {words as object, bitmap, pcbSet} {
      if o !in mm.Footprint() && o != pcbSet {
        assert o in kernel.Objects() - mm.Footprint() - {pcbSet} && fresh@L(o);
        assert old(allocated(o)) ==> old@L(allocated(o));
      }
    }
  }

  lemma FootprintIs(mm: MemoryManager)
    ensures mm.Footprint() == {mm, mm.mem, mm.mem.words, mm.pool.resources.bitmap}
  {
  }

  /**
   kernel_entry: process 0 from the program that is linked into the kernel image, and off it
   goes; it traps exactly when the pool is too small for the program.  The state it leaves is
   good, the boot table maps CLINT, UART and DRAM to themselves and nothing else, and process 0
   has the program and the stack in its memory, and the entry point of the file in its frame.
   */
  method KernelEntry(words: array<Word>, bitmap: array<bv8>, pcbSet: array<Pcb>, file: File, env: Env, junk: Word)
    returns (trapped: bool, kernel: ProcessManager)
    requires words.Length == 0x100_0000 && bitmap.Length == 4064 && pcbSet.Length == 32
    requires (words as object) != bitmap && (pcbSet as object) != words && (pcbSet as object) != bitmap
    requires |file| <= KERNEL_SIZE && HeadersInside(file) && FileFits(file, Segments(file))
    modifies words, bitmap, pcbSet
    ensures var gs := Segments(file);
      trapped <==> 71 + PagesBefore(gs, |gs|) + |TablesFor(Proc(0), BuiltSet(gs))| > 0x7eff
    ensures fresh(kernel) && forall o :: o in kernel.Objects() ==> fresh(o) || o in {words as object, bitmap, pcbSet}
    ensures !trapped ==> kernel.Valid() && kernel.current == 0 && Good(kernel.State()) && Clean(kernel.State())
    ensures !trapped ==> ProgramInPlace(kernel.State().phys, Proc(0), file, Segments(file), junk)
    ensures !trapped ==>
              && kernel.State().used == seq(32, i => i == 0) && |kernel.State().pcbs| == 32
              && kernel.State().pcbs[0].status == RUNNING
              && Proc(0) in kernel.State().phys.roots && EntryIs(file, Entry64(file))
              && StartsAt(kernel.State().pcbs[0], 0, kernel.State().phys.roots[Proc(0)] * 4096, Entry64(file), env)
    ensures !trapped && (forall i :: 0 <= i < |Segments(file)| ==> !Segments(file)[i].Covers(0xf_ffff_ffff_fffe)) ==>
              forall d: nat, access {:trigger StackAccess(kernel.State(), d, access)} ::
                0 < d <= 4096 && access in {Read, Write} ==> StackAccess(kernel.State(), d, access) != Fault
    ensures var gs := Segments(file);
      !trapped ==> Used(kernel.State().phys) == 71 + PagesBefore(gs, |gs|) + |TablesFor(Proc(0), BuiltSet(gs))|
    ensures !trapped ==> forall t: Path {:trigger LeafAt(kernel.State().phys, Boot, t)} :: t.InRange() ==>
              LeafAt(kernel.State().phys, Boot, t) == if Covered(BootRanges(), Vpn(t)) then IdentityLeaf(Vpn(t)) else 0
  {
    hide *;
    kernel := KernelInit(words, bitmap, pcbSet);
    ghost var s0, l2, satp, gs := kernel.mm.phys, kernel.mm.l2PageTable, kernel.satp, Segments(file);
    BootTemplate(s0, l2);
    ProgramIs(file);
    trapped := kernel.StartZero(file, env, junk, s0);
    BuildUseAtBoot(s0, gs);
    if trapped {
      return;
    }
    kernel.StateIs();
    BootedIs(kernel.State(), s0, l2, satp, file, gs, junk, Entry64(file), env);
    BuiltInPlace(s0, kernel.mm.phys, Proc(0), file, gs, junk);
    NewPcbFields(0, kernel.mm.phys.roots[Proc(0)] * 4096, Entry64(file), env);
    EntryBytes(file);
    BootIsGood(kernel.State(), s0, l2, satp, file, gs, junk);
    BootStack(kernel.State(), file, gs, junk);
  }

  lemma BootedIs(k: Kernel, s0: Phys, l2: Word, satp: Word, file: File, gs: seq<Segment>, junk: Word, entry: Word,
      env: Env)
    requires BootOnly(s0, l2) && SpaceBuilt(s0, k.phys, Proc(0), file, gs, junk)
    requires Proc(0) in k.phys.roots && IsPage(k.phys.roots[Proc(0)])
    requires |k.pcbs| == 32 && k.pcbs[0] == NewPcb(0, k.phys.roots[Proc(0)] * 4096, entry, env).(status := RUNNING)
    requires k.used == seq(32, i => i == 0) && k.all == [0] && k.ready == [] && k.current == 0
    requires k.l2 == k.pcbs[0].l2PageTable && k.satp == SatpFor(satp, k.pcbs[0].l2PageTable)
    requires satp / 0x1000_0000_0000_0000 == 8 && satp % 0x1000_0000_0000_0000 == l2 / 4096
    ensures Booted(k, s0, l2, satp, file, gs, junk)
  {
    hide BootOnly;
    hide SpaceBuilt;
    hide SatpFor;
  }

  lemma BootTemplate(s: Phys, l2: Word)
    requires BootOnly(s, l2)
    ensures Template(s, l2, Boot) && s.roots.Keys == {Boot} && Proc(0) !in s.roots
  {
    hide WellFormed;
  }

  lemma ProgramIs(file: File)
    requires HeadersInside(file)
    ensures HasHeader(file) && Program(file).Program? && SegmentsOf(Program(file)) == Segments(file)
    ensures FileOf(Program(file)) == file
  {
  }

  lemma BuildUseAtBoot(s: Phys, gs: seq<Segment>)
    ensures BuildUse(s, Proc(0), gs) == Used(s) + 2 + PagesBefore(gs, |gs|) + |TablesFor(Proc(0), BuiltSet(gs))|
  {
    hide TablesFor;
    hide BuiltSet;
    hide PagesBefore;
  }

  /** What an access of the current program to the byte d below its first stack pointer hits. */
  ghost function StackAccess(k: Kernel, d: nat, access: Access): Translation
    requires d <= 4096
  {
    TranslateUser(k.phys.mem, k.satp % 0x1000_0000_0000, 0xffff_ffff_ffff_f000 - d, access)
  }

  lemma BootStack(k: Kernel, file: File, gs: seq<Segment>, junk: Word)
    requires Good(k) && k.current == 0 && FileFits(file, gs) && ProgramInPlace(k.phys, Proc(0), file, gs, junk)
    ensures (forall i :: 0 <= i < |gs| ==> !gs[i].Covers(0xf_ffff_ffff_fffe)) ==>
              forall d: nat, access {:trigger StackAccess(k, d, access)} ::
                0 < d <= 4096 && access in {Read, Write} ==> StackAccess(k, d, access) != Fault
  {
    hide Good;
    hide FileFits;
    hide ProgramInPlace;
    hide TranslateUser;
    hide WellFormed;
    GoodRoot(k);
    if forall i :: 0 <= i < |gs| ==> !gs[i].Covers(0xf_ffff_ffff_fffe) {
      forall d: nat, access | 0 < d <= 4096 && access in {Read, Write} ensures StackAccess(k, d, access) != Fault {
        StackUsable(k.phys, Proc(0), file, gs, junk, d, access);
      }
    }
  }
}
