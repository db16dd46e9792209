/**
 What do_fork relies on, and how its parts add up to one step of the kernel.
 */
module ForkSteps {
  import opened Words
  import opened Sv39Bits
  import opened Bitmaps
  import opened PhysicalMemories
  import opened PageTables
  import opened Mappings
  import opened BootMaps
  import opened AddressSpaces
  import opened Copying
  import opened ProcessMemory
  import opened Elf
  import opened ElfLoader
  import opened KernelState
  import opened KernelSteps
  import opened KernelRuns

  /** The template root that create_process copies is that of process 0, whose address kernel_entry left in place. */
  lemma GoodTemplate(k: Kernel)
    requires Good(k)
    ensures Template(k.phys, k.l2, Proc(0))
  {
    hide WellFormed;
    hide NoIdleTables;
    hide MappedSet;
    hide GoodLists;
    hide GoodSatp;
    hide StackPath;
  }

  /** Free slots have no space and are in no list. */
  lemma GoodFreeSlot(k: Kernel, i: nat)
    requires Good(k) && i < |k.used| && !k.used[i]
    ensures Proc(i) !in k.phys.roots && i !in k.all && i !in k.ready
  {
    hide WellFormed;
    hide NoIdleTables;
    hide MappedSet;
    hide StackPath;
    assert !Live(k, i);
  }

  lemma GoodPcb(k: Kernel, i: nat)
    requires Good(k) && Live(k, i)
    ensures |k.pcbs| == 32 && |k.used| == 32 && i < 32 && k.pcbs[i].pid == i
    ensures WellFormed(k.phys) && Proc(i) in k.phys.roots && k.pcbs[i].l2PageTable == k.phys.roots[Proc(i)] * 4096
    ensures NoIdleTables(k.phys, Proc(i)) && StackPath() in MappedSet(k.phys, Proc(i))
  {
    hide WellFormed;
    hide NoIdleTables;
    hide MappedSet;
    hide GoodLists;
    hide GoodSatp;
    hide StackPath;
  }

  lemma GoodCurrent(k: Kernel)
    requires Good(k)
    ensures Live(k, k.current) && |k.used| == 32 && |k.pcbs| == 32 && forall i :: i in k.all <==> Live(k, i)
    ensures k.used[k.current]
  {
    hide GoodMemory;
    hide GoodSatp;
  }

  /** A space with a stack page owns at least its root, two tables and that page. */
  lemma AtLeastFour(s: Phys, a: Space)
    requires NoIdleTables(s, a) && StackPath() in MappedSet(s, a)
    ensures |Footprint(s, a)| >= 4
  {
    hide StackPath;
    hide MappedSet;
    hide Footprint;
    var t := StackPath();
    var four := {Root(a), L1(a, t.i2), L0(a, t.i2, t.i1), Frame(a, t)};
    assert four <= RolesFor(a, MappedSet(s, a));
    assert |four| == 4;
    SubsetSize(four, Footprint(s, a));
  }

  /** Once the child's space is built, the parent's can be copied into it, at the price fork is said to cost. */
  lemma ForkReady(k: Kernel, s1: Phys, c: nat)
    requires Good(k) && SpaceBuilt(k.phys, s1, Proc(c), [], [], 0)
    ensures var a := Proc(k.current);
      && CanCopy(s1, a, Proc(c)) && a in k.phys.roots && a in s1.roots && s1.roots[a] == k.phys.roots[a]
      && c != k.current
      && Used(s1) + Need(s1, a, Proc(c)) == Used(k.phys) + |Footprint(k.phys, a)| + 1
      && (RunsOut(s1, a, Proc(c), 0x400_0000, 0x800_0000) <==> ForkFails(k.phys, a))
  {
    hide *;
    var a := Proc(k.current);
    GoodCurrent(k);
    GoodPcb(k, k.current);
    SpaceBuiltFacts(k.phys, s1, Proc(c), [], [], 0);
    KeptSpaces(k.phys, s1, Proc(c), a);
    OtherSpace(k.phys, s1, Proc(c), a);
    CanCopyIs(s1, a, Proc(c));
    ForkCost(k.phys, s1, a, Proc(c));
    ForkEnds(k.phys, s1, a, Proc(c));
  }

  lemma CanCopyIs(s: Phys, a: Space, c: Space)
    requires WellFormed(s) && a in s.roots && c in s.roots && a != c && a != Boot && c != Boot
    requires NoIdleTables(s, a) && NoIdleTables(s, c) && StackPath() in MappedSet(s, a)
    requires MappedSet(s, c) == {StackPath()}
    ensures CanCopy(s, a, c)
  {
    hide WellFormed;
    hide NoIdleTables;
    hide MappedSet;
    hide StackPath;
  }

  ghost predicate ChildFits(k: Kernel, s1: Phys) {
    && FirstFree(k.used) < 32 && |k.pcbs| == 32 && |k.used| == 32
    && Proc(FirstFree(k.used)) in s1.roots && IsPage(s1.roots[Proc(FirstFree(k.used))])
  }

  /** The kernel after create_process has made a child without a program. */
  ghost function ChildMade(k: Kernel, s1: Phys, env: Env): Kernel
    requires ChildFits(k, s1)
  {
    var c := FirstFree(k.used);
    k.(phys := s1, used := k.used[c := true], all := k.all + [c], ready := k.ready + [c],
       pcbs := k.pcbs[c := NewPcb(c, s1.roots[Proc(c)] * 4096, 0, env)])
  }

  lemma ChildMadeIs(k: Kernel, s1: Phys, env: Env)
    requires ChildFits(k, s1)
    ensures var c := FirstFree(k.used);
      && c < 32 && |k.pcbs| == 32 && |k.used| == 32 && Proc(c) in s1.roots
      && s1.roots[Proc(c)] * 4096 < 0x100_0000_0000_0000
      && var made := NewPcb(c, s1.roots[Proc(c)] * 4096, 0, env);
         && made.l2PageTable == s1.roots[Proc(c)] * 4096
         && ChildMade(k, s1, env) ==
              k.(phys := s1, used := k.used[c := true], all := k.all + [c], ready := k.ready + [c],
                 pcbs := k.pcbs[c := made])
  {
    hide FirstFree;
  }

  lemma ChildFitsIs(k: Kernel, s1: Phys)
    requires FirstFree(k.used) < 32 && |k.pcbs| == 32 && |k.used| == 32
    requires Proc(FirstFree(k.used)) in s1.roots && IsPage(s1.roots[Proc(FirstFree(k.used))])
    ensures ChildFits(k, s1)
  {
  }

  /** The parts of do_fork make a step. */
  lemma ForkIsStep(k: Kernel, s1: Phys, k': Kernel, ok: bool, env: Env)
    requires Good(k) && FirstFree(k.used) < 32
    requires var a, c := Proc(k.current), FirstFree(k.used);
      && SpaceBuilt(k.phys, s1, Proc(c), [], [], 0) && Used(k'.phys) <= 0x7eff
      && (if ok then CopyState(s1, k'.phys, a, Proc(c), 0x800_0000) else Stuck(s1, k'.phys, a, Proc(c)))
      && |k.pcbs| == 32 && |k.used| == 32 && k.current < 32 && Proc(c) in k'.phys.roots
      && k'.phys.roots[Proc(c)] < 0x1000_0000_0000
      && var child := ForkedPcb(k.pcbs[k.current], NewPcb(c, k'.phys.roots[Proc(c)] * 4096, 0, env), env);
         k' == k.(phys := k'.phys, used := k.used[c := true], all := k.all + [c], ready := k.ready + [c],
                  pcbs := k.pcbs[c := if ok then child else child.(status := DEAD)])
    ensures Next(k, Fork(ok, env), k')
  {
    hide Good;
    hide SpaceBuilt;
    hide CopyState;
    hide Stuck;
    hide Used;
    hide FirstFree;
    hide ForkedPcb;
    hide NewPcb;
    assert ForkVia(k.phys, s1, k'.phys, Proc(k.current), Proc(FirstFree(k.used)), ok);
    assert ForkMemory(k.phys, k'.phys, Proc(k.current), Proc(FirstFree(k.used)), ok);
  }

  /** Where a copy stopped. */
  lemma StuckWhere(s1: Phys, s': Phys, a: Space, c: Space) returns (v: nat)
    requires Stuck(s1, s', a, c)
    ensures CopyState(s1, s', a, c, v)
  {
    hide CopyState;
    hide MappedSet;
    hide Vpn;
    var t :| t in MappedSet(s1, a) && CopyState(s1, s', a, c, Vpn(t)) && Used(s') == 0x7eff;
    v := Vpn(t);
  }

  lemma CopyKeepsRoots(s1: Phys, s': Phys, a: Space, c: Space, v: nat)
    requires CopyState(s1, s', a, c, v)
    ensures s'.roots == s1.roots && c in s1.roots && IsPage(s1.roots[c]) && s1.roots[c] < 0x1000_0000_0000
  {
    hide CopyState;
    CopyFacts(s1, s', a, c, v);
    Basics(s1);
    hide WellFormed;
  }

  lemma NoSegments()
    ensures SegmentsOf(NoProgram) == [] && FileOf(NoProgram) == [] && FileFits([], [])
  {
  }

  /** The step that a call of do_fork with result pid makes. */
  function ForkOutcome(used: seq<bool>, pid: Word, env: Env): Step {
    if pid != NONE then Fork(true, env) else if FirstFree(used) >= 32 then NoSlot else Fork(false, env)
  }

  lemma NoSlotIsStep(k: Kernel, env: Env)
    requires FirstFree(k.used) == 32 == |k.used|
    ensures Next(k, ForkOutcome(k.used, 0xffff_ffff_ffff_ffff, env), k)
  {
  }

  lemma ForkOutcomeIs(used: seq<bool>, pid: Word, env: Env)
    requires FirstFree(used) < 32
    ensures ForkOutcome(used, pid, env) == Fork(pid != 0xffff_ffff_ffff_ffff, env)
  {
    hide FirstFree;
  }

  lemma KilledIs(k: Kernel, k': Kernel)
    requires k.current < |k.pcbs|
    requires k' == k.(pcbs := k.pcbs[k.current := k.pcbs[k.current].(status := DEAD)])
    ensures k' == Killed(k)
  {
  }

  lemma GoodMeans(k: Kernel)
    requires Good(k)
    ensures GoodMemory(k) && GoodLists(k) && GoodSatp(k)
  {
    hide GoodMemory;
    hide GoodLists;
    hide GoodSatp;
  }

  lemma GoodKilledLists(k: Kernel)
    requires Good(k) && k.current < |k.pcbs|
    ensures GoodLists(Killed(k))
  {
    hide *;
    GoodMeans(k);
    KilledLists(k);
  }

  lemma ExitIsStep(k: Kernel, k': Kernel)
    requires k.current < |k.pcbs| && CanSchedule(Killed(k)) && k' == Scheduled(Killed(k))
    ensures Next(k, Exit, k')
  {
    hide Killed;
    hide Scheduled;
    hide CanSchedule;
  }

  lemma TickIsStep(k: Kernel, k': Kernel)
    requires CanSchedule(k) && k' == Scheduled(k)
    ensures Next(k, Tick, k')
  {
    hide Scheduled;
    hide CanSchedule;
  }

  // ------------------------------------------------------------------- boot

  /** The kernel as kernel_entry leaves it: process 0 alone, running. */
  ghost predicate Booted(k: Kernel, s0: Phys, l2: Word, satp: Word, file: File, gs: seq<Segment>, junk: Word) {
    && BootOnly(s0, l2) && SpaceBuilt(s0, k.phys, Proc(0), file, gs, junk)
    && |k.pcbs| == 32 && k.used == seq(32, i => i == 0) && k.all == [0] && k.ready == [] && k.current == 0
    && Proc(0) in k.phys.roots && k.pcbs[0].pid == 0 && k.pcbs[0].status == RUNNING
    && k.pcbs[0].l2PageTable == k.phys.roots[Proc(0)] * 4096 && k.l2 == k.pcbs[0].l2PageTable
    && satp / 0x1000_0000_0000_0000 == 8 && satp % 0x1000_0000_0000_0000 == l2 / 4096
    && k.satp == SatpFor(satp, k.pcbs[0].l2PageTable)
  }

  lemma BootedLists(k: Kernel, s0: Phys, l2: Word, satp: Word, file: File, gs: seq<Segment>, junk: Word)
    requires Booted(k, s0, l2, satp, file, gs, junk)
    ensures GoodLists(k) && Clean(k)
  {
    hide BootOnly;
    hide SpaceBuilt;
    hide SatpFor;
    assert forall i: nat :: Live(k, i) <==> i == 0;
    assert k.all[0] == 0;
  }

  lemma BootedMemory(k: Kernel, s0: Phys, l2: Word, satp: Word, file: File, gs: seq<Segment>, junk: Word)
    requires Booted(k, s0, l2, satp, file, gs, junk)
    ensures GoodMemory(k)
  {
    hide SpaceBuilt;
    hide SatpFor;
    hide WellFormed;
    hide NoIdleTables;
    hide MappedSet;
    hide StackPath;
    hide KeptBut;
    SpaceBuiltFacts(s0, k.phys, Proc(0), file, gs, junk);
    assert forall i: nat :: Live(k, i) <==> i == 0;
  }

  lemma BootedSatp(k: Kernel, s0: Phys, l2: Word, satp: Word, file: File, gs: seq<Segment>, junk: Word)
    requires Booted(k, s0, l2, satp, file, gs, junk) && IsPage(k.phys.roots[Proc(0)])
    ensures GoodSatp(k)
  {
    hide SpaceBuilt;
    hide And;
    hide Or;
    hide WellFormed;
    Basics(s0);
    var low := satp % 0x1000_0000_0000_0000;
    assert satp == 0x1000_0000_0000 * 0x8_0000 + low && low < 0x1000_0000_0000;
    QuotientIs(satp, 0x1000_0000_0000, 0x8_0000, low);
  }

  /** Boot ends in a good, clean state, from which all runs start; the boot table is untouched. */
  lemma BootIsGood(k: Kernel, s0: Phys, l2: Word, satp: Word, file: File, gs: seq<Segment>, junk: Word)
    requires Booted(k, s0, l2, satp, file, gs, junk) && IsPage(k.phys.roots[Proc(0)])
    ensures Good(k) && Clean(k)
    ensures forall t: Path {:trigger LeafAt(k.phys, Boot, t)} :: t.InRange() ==>
              LeafAt(k.phys, Boot, t) == LeafAt(s0, Boot, t)
  {
    BootedLists(k, s0, l2, satp, file, gs, junk);
    BootedMemory(k, s0, l2, satp, file, gs, junk);
    BootedSatp(k, s0, l2, satp, file, gs, junk);
    BootedBoot(k, s0, l2, satp, file, gs, junk);
    hide GoodLists;
    hide GoodMemory;
    hide GoodSatp;
    hide Clean;
    hide Booted;
  }

  lemma BootedBoot(k: Kernel, s0: Phys, l2: Word, satp: Word, file: File, gs: seq<Segment>, junk: Word)
    requires Booted(k, s0, l2, satp, file, gs, junk)
    ensures forall t: Path {:trigger LeafAt(k.phys, Boot, t)} :: t.InRange() ==>
              LeafAt(k.phys, Boot, t) == LeafAt(s0, Boot, t)
  {
    hide SpaceBuilt;
    hide SatpFor;
    hide LeafAt;
    hide WellFormed;
    SpaceBuiltFacts(s0, k.phys, Proc(0), file, gs, junk);
    KeptSpaces(s0, k.phys, Proc(0), Boot);
  }
}
