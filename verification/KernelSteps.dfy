/**
 The steps that change memory: building a space, fork, and a user store.
 */
module KernelSteps {
  import opened Words
  import opened Sv39Bits
  import opened PhysicalMemories
  import opened PageTables
  import opened Mappings
  import opened BootMaps
  import opened AddressSpaces
  import opened Copying
  import opened Elf
  import opened ElfLoading
  import opened Sv39
  import opened KernelState

  // ---------------------------------------------------------- create_process

  /** V, R, W and U. */
  const STACK_FLAGS: Word := 23

  /** The memory part of create_process: a root, a stack page, and the program. */
  ghost predicate SpaceBuilt(s: Phys, s': Phys, a: Space, file: File, gs: seq<Segment>, junk: Word) {
    exists s1: Phys, p: nat, s2: Phys :: SpaceBuiltBy(s, s1, p, s2, s', a, file, gs, junk)
  }

  ghost predicate SpaceBuiltBy(s: Phys, s1: Phys, p: nat, s2: Phys, s': Phys, a: Space, file: File, gs: seq<Segment>,
      junk: Word) {
    && a != Boot && SpaceAdded(s, s1, a) && p !in s1.own && IsPage(p)
    && Connected(Take(s1, p), s2, a, StackPath(), MakePte(p * 4096, STACK_FLAGS))
    && LoadState(s2, s', a, file, gs, |gs|, 0, junk)
  }

  lemma StackIsUser()
    ensures UserPath(StackPath()) && StackPath() == Path(511, 511, 510)
    ensures L2Index(0xffff_ffff_ffff_e000) == 511
  {
    hide And;
  }

  /** A new root with its stack page: one table of either level, nothing idle. */
  lemma StackAdded(s: Phys, s1: Phys, p: nat, s2: Phys, a: Space)
    requires a != Boot && SpaceAdded(s, s1, a) && p !in s1.own && IsPage(p)
    requires Connected(Take(s1, p), s2, a, StackPath(), MakePte(p * 4096, STACK_FLAGS))
    ensures KeptBut(s, s2, a) && s2.roots == s1.roots && NoIdleTables(s2, a)
    ensures MappedSet(s2, a) == {StackPath()} && |Footprint(s2, a)| == 4 && Used(s2) == Used(s) + 4
    ensures View(s2, a, StackPath()) == Present(STACK_FLAGS, PageAt(s1.mem, p))
    ensures forall t: Path {:trigger View(s2, a, t)} :: UserPath(t) && t != StackPath() ==> View(s2, a, t) == Absent
  {
    hide *;
    PageWord(p);
    var t, pte := StackPath(), MakePte(p * 4096, STACK_FLAGS);
    StackTaken(s, s1, p, a);
    var s1' := Take(s1, p);
    StackIsUser();
    StackPte(p);
    KeptConnect(s, s1', s2, a, t, pte);
    ConnectedFootprint(s1', s2, a, t, pte);
    ConnectedCounts(s1', s2, a, t, pte);
    UsedByConnect(s1', s2, a, t, pte);
    CountMissing(s1', a, t);
    NoIdleMeans(s1', a);
    EmptyRoles(a);
    StackViews(s, s1, p, s2, a);
  }

  /** The new root with the stack page allocated. */
  lemma StackTaken(s: Phys, s1: Phys, p: nat, a: Space)
    requires a != Boot && SpaceAdded(s, s1, a) && p !in s1.own && IsPage(p)
    ensures var s1' := Take(s1, p);
      && WellFormed(s1') && s1'.roots == s1.roots && a in s1.roots && KeptBut(s, s1', a)
      && Footprint(s1', a) == {Root(a)} && MappedSet(s1', a) == {} && Used(s1') == Used(s) + 2
      && p !in s.own && MayHold(s1', a, MakePte(p * 4096, STACK_FLAGS))
  {
    hide *;
    PageWord(p);
    StackPte(p);
    AddedFacts(s, s1, a);
    KeptTake(s, s1, a, p);
    TakeKeeps(s1, p);
    TakenIs(s1, p);
    CanHold(Take(s1, p), a, MakePte(p * 4096, STACK_FLAGS));
  }

  lemma StackViews(s: Phys, s1: Phys, p: nat, s2: Phys, a: Space)
    requires a != Boot && SpaceAdded(s, s1, a) && p !in s1.own && IsPage(p)
    requires Connected(Take(s1, p), s2, a, StackPath(), MakePte(p * 4096, STACK_FLAGS))
    ensures Shaped(s1.mem) && View(s2, a, StackPath()) == Present(STACK_FLAGS, PageAt(s1.mem, p))
    ensures forall t: Path {:trigger View(s2, a, t)} :: UserPath(t) && t != StackPath() ==> View(s2, a, t) == Absent
  {
    hide *;
    PageWord(p);
    StackIsUser();
    StackPte(p);
    StackTaken(s, s1, p, a);
    AddedFacts(s, s1, a);
    Basics(s1);
    TakenIs(s1, p);
    TakeViews(s1, p);
    ConnectedView(Take(s1, p), s2, a, StackPath(), MakePte(p * 4096, STACK_FLAGS), StackPath());
    forall u: Path | UserPath(u) && u != StackPath() ensures View(s2, a, u) == Absent {
      ConnectedView(Take(s1, p), s2, a, StackPath(), MakePte(p * 4096, STACK_FLAGS), u);
      assert View(Take(s1, p), a, u) == View(s1, a, u);
      NothingSeen(s, s1, a, u);
    }
  }

  lemma PageWord(p: nat)
    requires IsPage(p)
    ensures p * 4096 < 0x100_0000_0000_0000
  {
  }

  lemma StackPte(p: nat)
    requires IsPage(p)
    ensures var pte := MakePte(p * 4096, STACK_FLAGS); V(pte) && pte / 1024 == p && pte % 1024 == STACK_FLAGS
  {
    hide MakePte;
    OddEntry(p, 11);
  }

  lemma OddEntry(p: nat, f: nat)
    ensures (p * 1024 + (2 * f + 1)) % 2 == 1
  {
    assert p * 1024 + (2 * f + 1) == 2 * (512 * p + f) + 1;
  }

  lemma AddedFacts(s: Phys, s1: Phys, a: Space)
    requires SpaceAdded(s, s1, a)
    ensures WellFormed(s) && WellFormed(s1) && KeptBut(s, s1, a) && a in s1.roots && a !in s.roots
    ensures Footprint(s1, a) == {Root(a)} && MappedSet(s1, a) == {} && Used(s1) == Used(s) + 1
    ensures s1.roots == s.roots[a := s1.roots[a]] && forall q :: q !in s1.own ==> q !in s.own
  {
  }

  lemma EmptyRoles(a: Space)
    ensures RolesFor(a, {}) == {Root(a)}
  {
  }

  lemma NothingSeen(s: Phys, s1: Phys, a: Space, u: Path)
    requires SpaceAdded(s, s1, a) && UserPath(u)
    ensures View(s1, a, u) == Absent
  {
    hide WellFormed;
    hide LeafAt;
    assert LeafAt(s1, a, u) == 0;
  }

  /** What create_process guarantees about the new space, whatever the program. */
  lemma SpaceBuiltFacts(s: Phys, s': Phys, a: Space, file: File, gs: seq<Segment>, junk: Word)
    requires SpaceBuilt(s, s', a, file, gs, junk)
    ensures a != Boot && a !in s.roots && a in s'.roots && s'.roots == s.roots[a := s'.roots[a]]
    ensures KeptBut(s, s', a) && WellFormed(s) && WellFormed(s')
    ensures NoIdleTables(s', a) && StackPath() in MappedSet(s', a)
    ensures gs == [] ==> MappedSet(s', a) == {StackPath()} && |Footprint(s', a)| == 4 && Used(s') == Used(s) + 4
  {
    hide *;
    var s1, p, s2 := BuiltInStages(s, s', a, file, gs, junk);
    BuiltByMeans(s, s1, p, s2, s', a, file, gs, junk);
    AddedFacts(s, s1, a);
    StackAdded(s, s1, p, s2, a);
    LoadFits(s2, s', a, file, gs, |gs|, 0, junk);
    LoadKeepsBut(s2, s', a, file, gs, |gs|, 0, junk);
    KeptTwice(s, s2, s', a);
    LoadKeepsMapped(s2, s', a, file, gs, junk);
    if gs == [] {
      LoadedNothing(s2, s', a, file, gs, junk);
    }
  }

  lemma BuiltInStages(s: Phys, s': Phys, a: Space, file: File, gs: seq<Segment>, junk: Word)
      returns (s1: Phys, p: nat, s2: Phys)
    requires SpaceBuilt(s, s', a, file, gs, junk)
    ensures SpaceBuiltBy(s, s1, p, s2, s', a, file, gs, junk)
  {
    hide SpaceBuiltBy;
    s1, p, s2 :| SpaceBuiltBy(s, s1, p, s2, s', a, file, gs, junk);
  }

  lemma BuiltByMeans(s: Phys, s1: Phys, p: nat, s2: Phys, s': Phys, a: Space, file: File, gs: seq<Segment>, junk: Word)
    requires SpaceBuiltBy(s, s1, p, s2, s', a, file, gs, junk)
    ensures a != Boot && SpaceAdded(s, s1, a) && p !in s1.own && IsPage(p)
    ensures Connected(Take(s1, p), s2, a, StackPath(), MakePte(p * 4096, STACK_FLAGS))
    ensures LoadState(s2, s', a, file, gs, |gs|, 0, junk)
  {
    hide SpaceAdded;
    hide Connected;
    hide LoadState;
  }

  lemma LoadKeepsBut(s0: Phys, s: Phys, a: Space, file: File, gs: seq<Segment>, i: nat, v: nat, junk: Word)
    requires LoadState(s0, s, a, file, gs, i, v, junk)
    ensures KeptBut(s0, s, a)
  {
  }

  /** Loading never unmaps a page. */
  lemma LoadKeepsMapped(s0: Phys, s: Phys, a: Space, file: File, gs: seq<Segment>, junk: Word)
    requires LoadState(s0, s, a, file, gs, |gs|, 0, junk)
    ensures MappedSet(s0, a) <= MappedSet(s, a)
  {
    hide *;
    LoadFits(s0, s, a, file, gs, |gs|, 0, junk);
    LoadEnds(s0, s, a, file, gs, junk);
    forall t | t in MappedSet(s0, a) ensures t in MappedSet(s, a) {
      MappedInRange(s0, a, t);
      InFinalSet(s0, a, gs, t);
    }
  }

  lemma LoadedNothing(s0: Phys, s: Phys, a: Space, file: File, gs: seq<Segment>, junk: Word)
    requires LoadState(s0, s, a, file, gs, |gs|, 0, junk) && gs == []
    ensures MappedSet(s, a) == MappedSet(s0, a) && Footprint(s, a) == Footprint(s0, a) && Used(s) == Used(s0)
  {
    hide *;
    LoadFits(s0, s, a, file, gs, |gs|, 0, junk);
    LoadEnds(s0, s, a, file, gs, junk);
    forall t | t in FinalSet(s0, a, gs) ensures t in MappedSet(s0, a) {
      FinalPath(s0, a, gs, t);
      NoCover(gs, PageOfPath(t));
    }
    LoadKeepsMapped(s0, s, a, file, gs, junk);
    LoadedUseOfNothing(s0, a, gs, FinalSet(s0, a, gs));
    NoIdleMeans(s, a);
    NoIdleMeans(s0, a);
  }

  lemma FinalPath(s0: Phys, a: Space, gs: seq<Segment>, t: Path)
    requires t in FinalSet(s0, a, gs)
    ensures UserPath(t) && (t in MappedSet(s0, a) || LastCover(gs, |gs|, PageOfPath(t)) >= 0)
  {
    hide PageOfPath;
    hide MappedSet;
    InAllUserPaths(t);
  }

  lemma NoCover(gs: seq<Segment>, pn: nat)
    requires gs == []
    ensures LastCover(gs, |gs|, pn) == -1
  {
  }

  lemma LoadedUseOfNothing(s0: Phys, a: Space, gs: seq<Segment>, m: set<Path>)
    requires gs == [] && m == FinalSet(s0, a, gs)
    ensures m == MappedSet(s0, a) ==> LoadedUse(s0, a, gs) == Used(s0)
  {
    hide FinalSet;
    hide MappedSet;
    hide TablesFor;
  }

  // ---------------------------------------------------------------------- fork

  /** What fork reads besides the kernel's own data: the address of start_process and four registers. */
  datatype Env = Env(startProcess: Word, sscratch: Word, sstatus: Word, sepc: Word)

  /** The first free slot, or 32. */
  function FirstFree(used: seq<bool>): nat
    ensures FirstFree(used) <= |used|
    ensures FirstFree(used) < |used| ==> !used[FirstFree(used)]
    ensures forall i :: 0 <= i < FirstFree(used) ==> used[i]
  {
    if used == [] then 0 else if !used[0] then 0 else 1 + FirstFree(used[1..])
  }

  /** Thirty-two registers, all zero but the stack pointer. */
  function FreshRegisters(): RegisterFile {
    seq(32, i => if i == 2 then 0xffff_ffff_ffff_f000 else 0)
  }

  /** The control block create_process makes. */
  function NewPcb(slot: nat, root: PhysAddr, entry: Word, env: Env): Pcb {
    Pcb(READY, 0, slot, 0, 0, root, 0, FreshRegisters(), [env.startProcess, 0x4_0020, entry, 0])
  }

  /** copy_process on the control blocks: the child resumes where the parent called, with a0 = 0. */
  function ForkedPcb(parent: Pcb, child: Pcb, env: Env): Pcb
  {
    child.(registers := parent.registers[10 := 0][2 := env.sscratch],
           frame := [env.startProcess, ClearSie(env.sstatus), env.sepc, 0],
           status := READY, parentPid := parent.pid % WORD_LIMIT, priority := parent.priority,
           ticksAfterSchedule := parent.ticksAfterSchedule, totalTicks := parent.totalTicks)
  }

  /**
   A new process starts at its entry point, by way of start_process, in user mode; its stack
   pointer is the end of the user half, and all other registers and the clock are zero.
   */
  predicate StartsAt(p: Pcb, slot: nat, root: nat, entry: Word, env: Env) {
    && p.pid == slot && p.l2PageTable == root && p.frame == [env.startProcess, 0x4_0020, entry, 0]
    && p.registers[2] == 0xffff_ffff_ffff_f000 && (forall i :: 0 <= i < 32 && i != 2 ==> p.registers[i] == 0)
    && p.priority == 0 && p.parentPid == 0 && p.totalTicks == 0 && p.ticksAfterSchedule == 0
  }

  lemma NewPcbFields(slot: nat, root: PhysAddr, entry: Word, env: Env)
    ensures var p := NewPcb(slot, root, entry, env);
      p.status == READY && p.pid == slot && StartsAt(p, slot, root, entry, env)
      && StartsAt(p.(status := RUNNING), slot, root, entry, env)
  {
  }

  /** The 4096 bytes below the first stack pointer are the stack page. */
  lemma StackBelow(d: nat)
    requires 0 < d <= 4096
    ensures PathOf(0xffff_ffff_ffff_f000 - d) == StackPath()
  {
    hide PathOf;
    var va := 0xffff_ffff_ffff_f000 - d;
    SamePage(va);
    assert va / 4096 * 4096 == 0xffff_ffff_ffff_e000;
  }

  /**
   The child resumes where the parent called: at sepc, by way of start_process, with interrupts
   off until then; with the parent's registers but for a0 and sp; and with the parent's clock.
   */
  predicate ResumesLike(child: Pcb, parent: Pcb, env: Env) {
    && |child.frame| == 4 && child.frame[0] == env.startProcess && child.frame[2] == env.sepc && child.frame[3] == 0
    && child.frame[1] / 2 % 2 == 0 && child.frame[1] / 4 == env.sstatus / 4 && child.frame[1] % 2 == env.sstatus % 2
    && child.registers[10] == 0 && child.registers[2] == env.sscratch
    && (forall i :: 0 <= i < 32 && i != 2 && i != 10 ==> child.registers[i] == parent.registers[i])
    && child.parentPid == parent.pid && child.priority == parent.priority
    && child.totalTicks == parent.totalTicks && child.ticksAfterSchedule == parent.ticksAfterSchedule
  }

  lemma ForkedPcbFields(parent: Pcb, child: Pcb, env: Env)
    requires parent.pid < 0x1_0000_0000_0000_0000
    ensures var p := ForkedPcb(parent, child, env);
      && ResumesLike(p, parent, env) && ResumesLike(p.(status := DEAD), parent, env)
      && p.status == READY && p.pid == child.pid && p.l2PageTable == child.l2PageTable
  {
    hide And;
  }

  /** do_fork once a slot is found: ok tells whether copy_process had room for everything. */
  ghost predicate ForkStep(k: Kernel, k': Kernel, ok: bool, env: Env) {
    var c := FirstFree(k.used);
    && k.current < |k.pcbs| && c < |k.used| && c < |k.pcbs|
    && Proc(c) in k'.phys.roots && k'.phys.roots[Proc(c)] < 0x1000_0000_0000
    && ForkMemory(k.phys, k'.phys, Proc(k.current), Proc(c), ok)
    && var child := ForkedPcb(k.pcbs[k.current], NewPcb(c, k'.phys.roots[Proc(c)] * 4096, 0, env), env);
       k' == k.(phys := k'.phys, used := k.used[c := true], all := k.all + [c], ready := k.ready + [c],
                pcbs := k.pcbs[c := if ok then child else child.(status := DEAD)])
  }

  /** The memory part: a new space, and a whole copy or one that ran out of pages; the pool has 0x7eff pages. */
  ghost predicate ForkMemory(s: Phys, s': Phys, a: Space, c: Space, ok: bool) {
    Used(s') <= 0x7eff && exists s1: Phys :: ForkVia(s, s1, s', a, c, ok)
  }

  ghost predicate ForkVia(s: Phys, s1: Phys, s': Phys, a: Space, c: Space, ok: bool) {
    SpaceBuilt(s, s1, c, [], [], 0) && if ok then CopyState(s1, s', a, c, 0x800_0000) else Stuck(s1, s', a, c)
  }

  /** The memory effect of fork: only the child's space is new, everything else is as it was. */
  lemma ForkMemoryFacts(s: Phys, s': Phys, a: Space, c: Space, ok: bool)
    requires ForkMemory(s, s', a, c, ok)
    ensures c != Boot && c !in s.roots && c in s'.roots && s'.roots == s.roots[c := s'.roots[c]]
    ensures KeptBut(s, s', c) && WellFormed(s) && WellFormed(s')
    ensures NoIdleTables(s', c) && StackPath() in MappedSet(s', c)
  {
    hide *;
    var s1, v := ForkStages(s, s', a, c, ok);
    SpaceBuiltFacts(s, s1, c, [], [], 0);
    CopyFacts(s1, s', a, c, v);
    KeptTwice(s, s1, s', c);
  }

  lemma ForkStages(s: Phys, s': Phys, a: Space, c: Space, ok: bool) returns (s1: Phys, v: nat)
    requires ForkMemory(s, s', a, c, ok)
    ensures SpaceBuilt(s, s1, c, [], [], 0) && CopyState(s1, s', a, c, v) && Used(s') <= 0x7eff
    ensures if ok then v == 0x800_0000 else Used(s') == 0x7eff && exists t :: t in MappedSet(s1, a) && v == Vpn(t)
  {
    hide SpaceBuilt;
    hide CopyState;
    hide MappedSet;
    hide Vpn;
    s1 :| ForkVia(s, s1, s', a, c, ok);
    v := 0x800_0000;
    if !ok {
      var t :| t in MappedSet(s1, a) && CopyState(s1, s', a, c, Vpn(t)) && Used(s') == 0x7eff;
      v := Vpn(t);
    }
  }

  // ------------------------------------------------------ when fork fails

  /** The mapped pages of a below v. */
  ghost function MappedBelow(s: Phys, a: Space, v: nat): set<Path> {
    set t | t in MappedSet(s, a) && Vpn(t) < v
  }

  /**
   The pages in use when a fork of a reaches v: a root, the child's stack page, and what the
   pages below v need, where the copy of the stack page comes on top of the first one.
   */
  ghost function ForkUse(s: Phys, a: Space, v: nat): int {
    Used(s) + |RolesFor(a, {StackPath()} + MappedBelow(s, a, v))| + if Vpn(StackPath()) < v then 1 else 0
  }

  /** When fork comes to some page of the parent, all pages of the pool are in use, and none too many. */
  ghost predicate ForkFails(s: Phys, a: Space) {
    exists t :: t in MappedSet(s, a) && ForkUse(s, a, Vpn(t)) == 0x7eff
  }

  lemma ForkUseIs(s: Phys, s1: Phys, a: Space, c: Space, v: nat)
    requires MappedSet(s1, a) == MappedSet(s, a) && MappedSet(s1, c) == {StackPath()}
    requires |Footprint(s1, c)| == 4 && Used(s1) == Used(s) + 4
    ensures UseAt(s1, a, c, v) == ForkUse(s, a, v)
  {
    hide MappedSet;
    hide RolesFor;
    hide Footprint;
    hide StackPath;
    hide Vpn;
    hide Used;
    var m := {StackPath()} + MappedBelow(s, a, v);
    CopiedOnStack(s, s1, a, c, v);
    hide CopiedSet;
    hide Replaced;
    hide MappedBelow;
    RolesForSize(c, a, m);
  }

  lemma CopiedOnStack(s: Phys, s1: Phys, a: Space, c: Space, v: nat)
    requires MappedSet(s1, a) == MappedSet(s, a) && MappedSet(s1, c) == {StackPath()}
    ensures CopiedSet(s1, a, c, v) == {StackPath()} + MappedBelow(s, a, v)
    ensures Replaced(s1, c, v) == if Vpn(StackPath()) < v then 1 else 0
  {
    hide MappedSet;
    hide StackPath;
    hide Vpn;
    var replaced := set t | t in MappedSet(s1, c) && Vpn(t) < v;
    assert replaced == if Vpn(StackPath()) < v then {StackPath()} else {};
  }

  /** The outcome of fork is decided by the pages: it fails half way exactly when ForkFails, and is whole exactly
      when all fits. */
  lemma ForkDecided(s: Phys, s': Phys, a: Space, c: Space, ok: bool)
    requires ForkMemory(s, s', a, c, ok) && a in s.roots && a != Boot && NoIdleTables(s, a)
    ensures ok <==> Used(s) + |Footprint(s, a)| + 1 <= 0x7eff
    ensures !ok <==> ForkFails(s, a)
  {
    hide *;
    var s1, v := ForkStages(s, s', a, c, ok);
    SpaceBuiltFacts(s, s1, c, [], [], 0);
    CopyFacts(s1, s', a, c, v);
    KeptSpaces(s, s1, c, a);
    ForkEnds(s, s1, a, c);
    CanCopyFrom(s1, s', a, c, v);
    ForkCost(s, s1, a, c);
    UsedIsUseAt(s1, s', a, c, v);
    if ok {
      UseEnds(s1, a, c);
      CopyGotTo(s1, s', a, c, 0x400_0000, 0x800_0000);
    } else {
      var t :| t in MappedSet(s1, a) && v == Vpn(t);
      MappedInRange(s1, a, t);
      UserPathInRange(t);
      VpnRange(t);
      RunsOutAt(s1, a, c, t, 0x400_0000, 0x800_0000);
      EndsMeanNoRoom(s1, a, c, 0x400_0000);
    }
  }

  lemma CanCopyFrom(s0: Phys, s: Phys, a: Space, c: Space, v: nat)
    requires CopyState(s0, s, a, c, v)
    ensures CanCopy(s0, a, c)
  {
    hide CanCopy;
    hide KeptBut;
    hide CopiedBefore;
    hide Accounted;
  }

  /** In terms of the state before, the copy runs out exactly when ForkFails. */
  lemma ForkEnds(s: Phys, s1: Phys, a: Space, c: Space)
    requires WellFormed(s1) && MappedSet(s1, a) == MappedSet(s, a) && MappedSet(s1, c) == {StackPath()}
    requires |Footprint(s1, c)| == 4 && Used(s1) == Used(s) + 4
    ensures RunsOut(s1, a, c, 0x400_0000, 0x800_0000) <==> ForkFails(s, a)
  {
    hide WellFormed;
    hide MappedSet;
    hide UseAt;
    hide ForkUse;
    hide Footprint;
    hide StackPath;
    hide Vpn;
    hide Used;
    forall t | t in MappedSet(s, a)
      ensures 0x400_0000 <= Vpn(t) < 0x800_0000 && UseAt(s1, a, c, Vpn(t)) == ForkUse(s, a, Vpn(t))
    {
      MappedInRange(s1, a, t);
      UserPathInRange(t);
      VpnRange(t);
      ForkUseIs(s, s1, a, c, Vpn(t));
    }
  }

  /** A fork that fails half way has room for the child's root, tables and stack. */
  lemma FailsAfterStack(s: Phys, a: Space)
    requires ForkFails(s, a)
    ensures Used(s) + 4 <= 0x7eff
  {
    hide MappedSet;
    hide StackPath;
    hide Vpn;
    hide RolesFor;
    hide Used;
    var t :| t in MappedSet(s, a) && ForkUse(s, a, Vpn(t)) == 0x7eff;
    var m := {StackPath()} + MappedBelow(s, a, Vpn(t));
    StackRoles(a);
    RolesForMonotone(a, {StackPath()}, m);
    SubsetSize(RolesFor(a, {StackPath()}), RolesFor(a, m));
  }

  /** With exactly four pages left, enough for the child's stack, fork fails at its first page. */
  lemma FourPagesLeft(s: Phys, a: Space)
    requires StackPath() in MappedSet(s, a) && Used(s) == 0x7efb
    ensures ForkFails(s, a)
  {
    hide MappedSet;
    hide StackPath;
    hide Vpn;
    hide RolesFor;
    hide Used;
    var t := LowestPage(MappedSet(s, a), StackPath());
    assert {StackPath()} + MappedBelow(s, a, Vpn(t)) == {StackPath()};
    StackRoles(a);
    assert ForkUse(s, a, Vpn(t)) == 0x7eff;
  }

  lemma StackRoles(a: Space)
    ensures |RolesFor(a, {StackPath()})| == 4
  {
    hide *;
    var t := StackPath();
    EmptyRoles(a);
    RolesForMore(a, {}, t);
    assert {} + {t} == {t};
    AddThree({Root(a)}, L1(a, t.i2), L0(a, t.i2, t.i1), Frame(a, t));
  }

  lemma {:induction false} LowestPage(m: set<Path>, t: Path) returns (low: Path)
    requires t in m
    ensures low in m && Vpn(low) <= Vpn(t) && forall u :: u in m ==> Vpn(low) <= Vpn(u)
    decreases Vpn(t)
  {
    hide Vpn;
    if u :| u in m && Vpn(u) < Vpn(t) {
      low := LowestPage(m, u);
    } else {
      low := t;
    }
  }

  /** Copying never unmaps a page of the child. */
  lemma CopyFacts(s0: Phys, s: Phys, a: Space, c: Space, v: nat)
    requires CopyState(s0, s, a, c, v)
    ensures KeptBut(s0, s, c) && s.roots == s0.roots && NoIdleTables(s, c) && MappedSet(s0, c) <= MappedSet(s, c)
    ensures WellFormed(s0) && a in s0.roots && c in s0.roots && a != c && a != Boot && c != Boot && WellFormed(s)
  {
    hide WellFormed;
    hide LeafAt;
    hide View;
    hide Footprint;
    hide MappedSet;
    hide KeptBut;
    hide NoIdleTables;
    OpenState(s0, s, a, c, v);
    forall t | t in MappedSet(s0, c) ensures t in MappedSet(s, c) {
      MappedInRange(s0, c, t);
      MappedView(s0, c, t);
      MappedView(s0, a, t);
      MappedView(s, c, t);
      ViewOrBoth(s0, s, a, c, v, t);
    }
  }

  lemma ViewOrBoth(s0: Phys, s: Phys, a: Space, c: Space, v: nat, t: Path)
    requires CopyState(s0, s, a, c, v) && UserPath(t)
    ensures View(s, c, t) == if Vpn(t) < v && Mapped(s0, a, t) then View(s0, a, t) else View(s0, c, t)
  {
    hide WellFormed;
    hide LeafAt;
    hide View;
    hide KeptBut;
    hide NoIdleTables;
    hide MappedSet;
  }

  /**
   A successful fork: the child sees at every user address exactly what the parent saw, on
   frames that were free before; and the pool pays one page for every root, table and frame of
   the parent, and one for the stack page that the copy replaced.
   */
  lemma ForkCopies(s: Phys, s': Phys, a: Space, c: Space)
    requires ForkMemory(s, s', a, c, true) && a in s.roots && a != Boot && NoIdleTables(s, a)
    ensures forall t: Path {:trigger View(s', c, t)} :: UserPath(t) ==> View(s', c, t) == View(s, a, t)
    ensures forall t: Path {:trigger LeafAt(s', c, t)} :: UserPath(t) && Mapped(s, a, t) ==>
              LeafAt(s', c, t) / 1024 !in s.own
    ensures MappedSet(s', c) == MappedSet(s, a)
    ensures Used(s') == Used(s) + |Footprint(s, a)| + 1
  {
    hide *;
    var s1, v := ForkStages(s, s', a, c, true);
    SpaceBuiltFacts(s, s1, c, [], [], 0);
    CopyFacts(s1, s', a, c, v);
    KeptSpaces(s, s1, c, a);
    CopyEnds(s1, s', a, c);
    forall t: Path | UserPath(t)
      ensures View(s', c, t) == View(s, a, t)
      ensures Mapped(s, a, t) ==> LeafAt(s', c, t) / 1024 !in s.own
    {
      SameViewAt(s, s1, a, t);
      MappedView(s, a, t);
      MappedView(s1, a, t);
      if Mapped(s, a, t) {
        OwnedStays(s, s1, c, LeafAt(s', c, t) / 1024);
      }
    }
    ForkCost(s, s1, a, c);
  }

  lemma OwnedStays(s: Phys, s': Phys, a: Space, q: nat)
    requires KeptBut(s, s', a) && q !in s'.own
    ensures q !in s.own
  {
  }

  lemma ForkCost(s: Phys, s1: Phys, a: Space, c: Space)
    requires WellFormed(s) && a in s.roots && NoIdleTables(s, a)
    requires Footprint(s1, a) == Footprint(s, a) && MappedSet(s1, a) == MappedSet(s, a)
    requires MappedSet(s1, c) == {StackPath()} && |Footprint(s1, c)| == 4 && Used(s1) == Used(s) + 4
    ensures Used(s1) + Need(s1, a, c) == Used(s) + |Footprint(s, a)| + 1
  {
    hide *;
    NoIdleMeans(s, a);
    RolesForSize(c, a, MappedSet(s, a));
    NeedIs(s1, a, c);
  }

  // ----------------------------------------------------------------- a user store

  /** A 64-bit store by the running program, translated by the hardware through satp. */
  ghost predicate StoreStep(k: Kernel, k': Kernel, va: Word, w: Word) {
    && Shaped(k.phys.mem) && va % 8 == 0
    && var target := TranslateUser(k.phys.mem, k.satp % 0x1000_0000_0000, va, Write);
       && target != Fault && IsPage(target.paddr / 4096)
       && k' == k.(phys := StoredAt(k.phys, target.paddr, w))
  }

  /** Memory with the word at a physical address replaced. */
  function StoredAt(s: Phys, pa: nat, w: Word): Phys
    requires Shaped(s.mem) && IsPage(pa / 4096)
  {
    s.(mem := SetEntry(s.mem, pa / 4096, pa % 4096 / 8, w))
  }

  /** The store hits one frame of the current process, and changes one word of it. */
  lemma StoreHitsFrame(k: Kernel, k': Kernel, va: Word, w: Word)
    requires Good(k) && StoreStep(k, k', va, w)
    ensures var a, t := Proc(k.current), PathOf(va);
      && a in k.phys.roots && WellFormed(k.phys) && UserPath(t) && Mapped(k.phys, a, t)
      && var p := LeafAt(k.phys, a, t) / 1024;
         && p in k.phys.own && k.phys.own[p] == Frame(a, t) && IsPage(p)
         && |PageAt(k.phys.mem, p)| == 512
         && k'.phys == Fill(k.phys, p, PageAt(k.phys.mem, p)[va % 4096 / 8 := w])
         && View(k.phys, a, t) == Present(LeafAt(k.phys, a, t) % 1024, PageAt(k.phys.mem, p))
  {
    hide WellFormed;
    hide LeafAt;
    hide TranslateUser;
    hide PathOf;
    hide NoIdleTables;
    hide MappedSet;
    hide View;
    hide GoodLists;
    var a, t := Proc(k.current), PathOf(va);
    GoodRoot(k);
    UserHitsOwnFrame(k.phys, a, va, Write);
    Basics(k.phys);
    ViewIsMapped(k.phys, a, t);
    var pa := TranslateUser(k.phys.mem, k.satp % 0x1000_0000_0000, va, Write).paddr;
    SetEntryIsFill(k.phys, pa / 4096, pa % 4096 / 8, w);
  }

  lemma GoodRoot(k: Kernel)
    requires Good(k)
    ensures Proc(k.current) in k.phys.roots && k.satp % 0x1000_0000_0000 == k.phys.roots[Proc(k.current)]
    ensures WellFormed(k.phys)
  {
    hide WellFormed;
  }

  /** A store changes the one word it addresses in the current process, and nothing anywhere else. */
  lemma StoreEffect(k: Kernel, k': Kernel, va: Word, w: Word)
    requires Good(k) && StoreStep(k, k', va, w)
    ensures var a, t := Proc(k.current), PathOf(va);
      && KeptBut(k.phys, k'.phys, a) && k'.phys.roots == k.phys.roots
      && Footprint(k'.phys, a) == Footprint(k.phys, a) && MappedSet(k'.phys, a) == MappedSet(k.phys, a)
      && View(k.phys, a, t).Present? && |View(k.phys, a, t).page| == 512
      && (forall u: Path {:trigger View(k'.phys, a, u)} :: UserPath(u) ==>
            View(k'.phys, a, u) ==
              if u == t then View(k.phys, a, t).(page := View(k.phys, a, t).page[va % 4096 / 8 := w])
              else View(k.phys, a, u))
  {
    hide *;
    StoreHitsFrame(k, k', va, w);
    var a, t := Proc(k.current), PathOf(va);
    var p := LeafAt(k.phys, a, t) / 1024;
    Basics(k.phys);
    var page: Page := PageAt(k.phys.mem, p)[va % 4096 / 8 := w];
    KeptSelf(k.phys, a);
    FillFrame(k.phys, k.phys, a, t, p, page);
    FillRoots(k.phys, p, page);
  }

  lemma FillRoots(s: Phys, p: nat, page: Page)
    requires Shaped(s.mem) && IsPage(p) && |page| == 512
    ensures Fill(s, p, page).roots == s.roots
  {
  }
}
