/**
 The kernel as a state machine.  A step is a system call or timer interrupt, taken as
 one atomic transition, or a store by the running program.
 */
module KernelState {
  import opened Words
  import opened Sv39Bits
  import opened PageTables
  import opened AddressSpaces

  datatype Status = CREATED | RUNNING | READY | BLOCKED | DEAD

  /** Physical addresses have 56 bits. */
  type PhysAddr = a: nat | a < 0x100_0000_0000_0000

  /** The saved general registers. */
  type RegisterFile = r: seq<Word> | |r| == 32 witness seq(32, i => 0)

  /** A process control block, with the saved registers and the switch frame on its kernel stack. */
  datatype Pcb = Pcb(
    status: Status, priority: Word, pid: nat, totalTicks: Word, ticksAfterSchedule: Word,
    l2PageTable: PhysAddr, parentPid: Word, registers: RegisterFile, frame: seq<Word>)

  /** The kernel's data: pcbs and used are the static arrays, all and ready the lists by slot number. */
  datatype Kernel = Kernel(
    phys: Phys, pcbs: seq<Pcb>, used: seq<bool>, all: seq<nat>, ready: seq<nat>, current: nat, satp: Word, l2: Word)

  // --------------------------------------------------------------------- invariant

  function StackPath(): Path {
    PathOf(0xffff_ffff_ffff_e000)
  }

  ghost predicate NoDuplicates(xs: seq<nat>) {
    forall i, j :: 0 <= i < j < |xs| ==> xs[i] != xs[j]
  }

  ghost predicate Live(k: Kernel, i: nat) {
    i < |k.used| && k.used[i]
  }

  ghost predicate GoodMemory(k: Kernel) {
    && WellFormed(k.phys) && |k.pcbs| == 32 && |k.used| == 32
    && (forall i: nat :: Live(k, i) ==>
          && Proc(i) in k.phys.roots && k.pcbs[i].pid == i
          && k.pcbs[i].l2PageTable == k.phys.roots[Proc(i)] * 4096
          && NoIdleTables(k.phys, Proc(i)) && StackPath() in MappedSet(k.phys, Proc(i)))
    && (forall a :: a in k.phys.roots ==> a == Boot || Live(k, a.pid))
    && Live(k, 0) && k.l2 == k.pcbs[0].l2PageTable
  }

  /** The lists against the statuses; a queued process that is not READY is a DEAD one that fork gave up on. */
  ghost predicate GoodLists(k: Kernel) {
    && |k.pcbs| == 32 && |k.used| == 32
    && NoDuplicates(k.all) && (forall i: nat :: i in k.all <==> Live(k, i))
    && NoDuplicates(k.ready) && k.current !in k.ready && Live(k, k.current)
    && (forall i :: i in k.ready ==> Live(k, i) && k.pcbs[i].status in {READY, DEAD})
    && (forall i: nat :: Live(k, i) && k.pcbs[i].status == READY ==> i in k.ready)
    && (forall i: nat :: Live(k, i) && k.pcbs[i].status == RUNNING ==> i == k.current)
    && k.pcbs[k.current].status in {RUNNING, DEAD}
    && (forall i: nat :: Live(k, i) ==> k.pcbs[i].status in {RUNNING, READY, DEAD})
  }

  /** satp: mode Sv39, address space identifier 0, and the root of the current process. */
  ghost predicate GoodSatp(k: Kernel) {
    && Proc(k.current) in k.phys.roots
    && k.satp / 0x1000_0000_0000 == 0x8_0000
    && k.satp % 0x1000_0000_0000 == k.phys.roots[Proc(k.current)]
  }

  ghost predicate Good(k: Kernel) {
    GoodMemory(k) && GoodLists(k) && GoodSatp(k)
  }

  /** No process in the ready list is DEAD. */
  ghost predicate Clean(k: Kernel) {
    forall i :: i in k.ready ==> i < |k.pcbs| && k.pcbs[i].status == READY
  }

  /** In a clean state the ready list holds exactly the READY processes. */
  lemma CleanReadyList(k: Kernel, i: nat)
    requires Good(k) && Clean(k)
    ensures i in k.ready <==> Live(k, i) && k.pcbs[i].status == READY
  {
    hide GoodMemory;
    hide GoodSatp;
  }

  // ----------------------------------------------------------------------- schedule

  /** The current process after the clock bookkeeping, and back in the queue if it still runs. */
  function Charged(k: Kernel): Kernel
    requires k.current < |k.pcbs|
  {
    var p := k.pcbs[k.current];
    var p1 := p.(totalTicks := (p.totalTicks + 1) % WORD_LIMIT,
                  ticksAfterSchedule := (p.ticksAfterSchedule + 1) % WORD_LIMIT);
    if p.status == RUNNING
    then k.(pcbs := k.pcbs[k.current := p1.(ticksAfterSchedule := 0, status := READY)], ready := k.ready + [k.current])
    else k.(pcbs := k.pcbs[k.current := p1])
  }

  predicate CanSchedule(k: Kernel) {
    k.current < |k.pcbs| && forall i :: i in k.ready ==> i < |k.pcbs|
  }

  /** The front of the queue becomes the current process. */
  function Switched(c: Kernel): Kernel
    requires c.ready != [] && c.ready[0] < |c.pcbs|
  {
    var next := c.ready[0];
    c.(pcbs := c.pcbs[next := c.pcbs[next].(status := RUNNING)], ready := c.ready[1..], current := next,
       satp := SatpFor(c.satp, c.pcbs[next].l2PageTable))
  }

  /** schedule(): nothing when no process is ready, else round robin. */
  function Scheduled(k: Kernel): Kernel
    requires CanSchedule(k)
  {
    if k.ready == [] then k
    else
      assert Charged(k).ready[0] == k.ready[0] && k.ready[0] in k.ready;
      Switched(Charged(k))
  }

  /** do_exit(): the current process is DEAD, then schedule. */
  function Killed(k: Kernel): Kernel
    requires k.current < |k.pcbs|
  {
    k.(pcbs := k.pcbs[k.current := k.pcbs[k.current].(status := DEAD)])
  }

  // ---------------------------------------------------------- schedule and exit are good

  /** A queue without its front, perhaps with c behind. */
  lemma QueueRotates(ready: seq<nat>, c: nat, again: bool)
    requires NoDuplicates(ready) && ready != [] && c !in ready
    ensures var queue := if again then ready + [c] else ready;
      && queue[0] == ready[0] && NoDuplicates(queue[1..])
      && forall i :: i in queue[1..] <==> (i in ready && i != ready[0]) || (again && i == c)
  {
    var queue := if again then ready + [c] else ready;
    var rest := queue[1..];
    forall i ensures i in rest <==> (i in ready && i != ready[0]) || (again && i == c) {
      if i in ready && i != ready[0] {
        var j :| 0 <= j < |ready| && ready[j] == i;
        assert rest[j - 1] == i;
      }
      if again && i == c {
        assert rest[|rest| - 1] == c;
      }
      if i in rest {
        var j :| 0 <= j < |rest| && rest[j] == i;
        assert queue[j + 1] == i && queue[0] != queue[j + 1];
      }
    }
  }

  /** Scheduled, spelled out: only the old and the new current process change. */
  lemma ScheduledFacts(k: Kernel)
    requires CanSchedule(k) && k.ready != []
    ensures var k' := Scheduled(k); var next := k.ready[0]; var again := k.pcbs[k.current].status == RUNNING;
      && |k'.pcbs| == |k.pcbs| && k'.used == k.used && k'.all == k.all && k'.current == next && next in k.ready
      && k'.phys == k.phys && k'.l2 == k.l2
      && k'.ready == (if again then k.ready + [k.current] else k.ready)[1..]
      && (forall i: nat {:trigger k'.pcbs[i]} :: i < |k.pcbs| ==>
            && k'.pcbs[i].pid == k.pcbs[i].pid && k'.pcbs[i].l2PageTable == k.pcbs[i].l2PageTable
            && k'.pcbs[i].status ==
                 if i == next then RUNNING else if i == k.current && again then READY else k.pcbs[i].status)
  {
    hide SatpFor;
    hide And;
    hide Or;
    var c, next := Charged(k), k.ready[0];
    assert c.ready[0] == next && next in k.ready;
    assert Scheduled(k).pcbs == c.pcbs[next := c.pcbs[next].(status := RUNNING)];
  }

  /** The clock, field by field; the saved registers and the rest of every control block stay. */
  lemma ScheduledFields(k: Kernel)
    requires CanSchedule(k)
    ensures k.ready == [] ==> Scheduled(k) == k
    ensures k.ready != [] ==>
              var k', p := Scheduled(k), k.current;
              && |k'.pcbs| == |k.pcbs|
              && k'.pcbs[p].totalTicks == (k.pcbs[p].totalTicks + 1) % 0x1_0000_0000_0000_0000
              && k'.pcbs[p].ticksAfterSchedule ==
                   (if k.pcbs[p].status == RUNNING then 0
                    else (k.pcbs[p].ticksAfterSchedule + 1) % 0x1_0000_0000_0000_0000)
              && (forall i: nat {:trigger k'.pcbs[i]} :: i < |k.pcbs| ==>
                    && k'.pcbs[i].registers == k.pcbs[i].registers && k'.pcbs[i].frame == k.pcbs[i].frame
                    && k'.pcbs[i].priority == k.pcbs[i].priority && k'.pcbs[i].parentPid == k.pcbs[i].parentPid
                    && (i != p ==>
                          && k'.pcbs[i].totalTicks == k.pcbs[i].totalTicks
                          && k'.pcbs[i].ticksAfterSchedule == k.pcbs[i].ticksAfterSchedule))
  {
    hide SatpFor;
    hide And;
    hide Or;
    if k.ready != [] {
      var c, next := Charged(k), k.ready[0];
      assert c.ready[0] == next && next in k.ready;
      assert Scheduled(k).pcbs == c.pcbs[next := c.pcbs[next].(status := RUNNING)];
    }
  }

  /** The control blocks after scheduling, when the process that leaves is not the one that comes. */
  lemma ScheduledPcbs(k: Kernel)
    requires CanSchedule(k) && k.ready != [] && k.current != k.ready[0]
    ensures var k', p, next := Scheduled(k), k.current, k.ready[0];
            var again := k.pcbs[p].status == RUNNING;
      && next in k.ready && |k'.pcbs| == |k.pcbs|
      && k'.pcbs[p] == k.pcbs[p].(
           status := if again then READY else k.pcbs[p].status,
           totalTicks := (k.pcbs[p].totalTicks + 1) % 0x1_0000_0000_0000_0000,
           ticksAfterSchedule := if again then 0 else (k.pcbs[p].ticksAfterSchedule + 1) % 0x1_0000_0000_0000_0000)
      && k'.pcbs[next] == k.pcbs[next].(status := RUNNING)
      && forall i: nat {:trigger k'.pcbs[i]} :: i < |k.pcbs| && i != p && i != next ==> k'.pcbs[i] == k.pcbs[i]
  {
    hide SatpFor;
    hide And;
    hide Or;
    var c, next := Charged(k), k.ready[0];
    assert c.ready[0] == next && next in k.ready;
    assert Scheduled(k).pcbs == c.pcbs[next := c.pcbs[next].(status := RUNNING)];
  }

  lemma KilledParts(k: Kernel)
    requires k.current < |k.pcbs|
    ensures var c := Killed(k);
      && c.pcbs == k.pcbs[k.current := k.pcbs[k.current].(status := DEAD)] && c.ready == k.ready
      && c.current == k.current && c.used == k.used && c.all == k.all && c.phys == k.phys
  {
  }

  lemma ScheduledLists(k: Kernel)
    requires GoodLists(k) && k.ready != []
    ensures CanSchedule(k) && GoodLists(Scheduled(k))
    ensures Clean(k) ==> Clean(Scheduled(k))
  {
    hide NoDuplicates;
    hide Scheduled;
    hide Charged;
    GoodSchedules(k);
    ScheduledFacts(k);
    QueueRotates(k.ready, k.current, k.pcbs[k.current].status == RUNNING);
    var k', again := Scheduled(k), k.pcbs[k.current].status == RUNNING;
    assert forall i: nat :: Live(k', i) <==> Live(k, i);
    assert k.ready[0] in k.ready;
    assert NoDuplicates(k'.ready);
    assert forall i :: i in k'.ready <==> (i in k.ready && i != k'.current) || (again && i == k.current);
    assert forall i: nat :: Live(k, i) ==> i < 32;
  }

  /** Scheduling changes nothing in a control block but status and ticks. */
  lemma ScheduledMemory(k: Kernel)
    requires GoodMemory(k) && CanSchedule(k)
    ensures GoodMemory(Scheduled(k))
  {
    hide WellFormed;
    hide NoIdleTables;
    hide MappedSet;
    hide Charged;
    hide SatpFor;
    if k.ready != [] {
      ScheduledFacts(k);
      SameSlots(k, Scheduled(k));
    }
  }

  lemma SameSlots(k: Kernel, k': Kernel)
    requires GoodMemory(k) && k'.phys == k.phys && k'.used == k.used && k'.l2 == k.l2 && |k'.pcbs| == |k.pcbs|
    requires forall i: nat {:trigger k'.pcbs[i]} :: i < |k.pcbs| ==>
               k'.pcbs[i].pid == k.pcbs[i].pid && k'.pcbs[i].l2PageTable == k.pcbs[i].l2PageTable
    ensures GoodMemory(k')
  {
    hide WellFormed;
    hide NoIdleTables;
    hide MappedSet;
    hide StackPath;
    assert forall i: nat :: Live(k', i) <==> Live(k, i);
  }

  lemma ScheduledSatp(k: Kernel)
    requires GoodMemory(k) && GoodSatp(k) && GoodLists(k) && CanSchedule(k)
    ensures GoodSatp(Scheduled(k))
  {
    hide WellFormed;
    hide NoIdleTables;
    hide MappedSet;
    hide SatpFor;
    hide And;
    hide Or;
    if k.ready != [] {
      var next := k.ready[0];
      assert next in k.ready && Live(k, next);
      assert Scheduled(k).satp == SatpFor(k.satp, k.pcbs[next].l2PageTable);
    }
  }

  lemma ScheduledIsGood(k: Kernel)
    requires Good(k)
    ensures CanSchedule(k) && Good(Scheduled(k)) && Scheduled(k).phys == k.phys
    ensures Clean(k) ==> Clean(Scheduled(k))
  {
    GoodSchedules(k);
    if k.ready != [] {
      ScheduledLists(k);
    }
    ScheduledMemory(k);
    ScheduledSatp(k);
    hide GoodMemory;
    hide GoodLists;
    hide GoodSatp;
    hide SatpFor;
  }

  lemma GoodSchedules(k: Kernel)
    requires GoodLists(k)
    ensures CanSchedule(k)
  {
  }

  lemma KilledIsGood(k: Kernel)
    requires Good(k)
    ensures Good(Killed(k)) && (Clean(k) ==> Clean(Killed(k)))
  {
    KilledMemory(k);
    KilledLists(k);
    hide GoodMemory;
    hide GoodLists;
  }

  lemma KilledMemory(k: Kernel)
    requires GoodMemory(k) && k.current < 32
    ensures GoodMemory(Killed(k))
  {
    hide *;
    GoodShape(k);
    KilledFacts(k);
    SameSlots(k, Killed(k));
  }

  lemma KilledFacts(k: Kernel)
    requires k.current < |k.pcbs|
    ensures var k' := Killed(k);
      && k'.phys == k.phys && k'.used == k.used && k'.l2 == k.l2 && |k'.pcbs| == |k.pcbs|
      && forall i: nat {:trigger k'.pcbs[i]} :: i < |k.pcbs| ==>
           k'.pcbs[i].pid == k.pcbs[i].pid && k'.pcbs[i].l2PageTable == k.pcbs[i].l2PageTable
  {
  }

  lemma GoodShape(k: Kernel)
    requires GoodMemory(k)
    ensures |k.pcbs| == 32 && |k.used| == 32 && WellFormed(k.phys)
  {
  }

  lemma KilledLists(k: Kernel)
    requires GoodLists(k)
    ensures GoodLists(Killed(k)) && (Clean(k) ==> Clean(Killed(k)))
  {
    hide NoDuplicates;
  }
}
