/**
 What holds in every state of every run, and along runs.
 */
module KernelRuns {
  import opened Words
  import opened Sv39Bits
  import opened PhysicalMemories
  import opened PageTables
  import opened Mappings
  import opened BootMaps
  import opened AddressSpaces
  import opened Copying
  import opened Sv39
  import opened KernelState
  import opened KernelSteps

  // ------------------------------------------------------------ fork and store are good

  /** The lists and statuses after slot c was filled and queued. */
  lemma ForkLists(k: Kernel, k': Kernel, ok: bool, env: Env)
    requires GoodLists(k) && ForkStep(k, k', ok, env)
    ensures GoodLists(k') && (Clean(k) && ok ==> Clean(k')) && (!ok ==> !Clean(k'))
    ensures Live(k', FirstFree(k.used)) && !Live(k, FirstFree(k.used)) && FirstFree(k.used) != k.current
    ensures forall i: nat :: Live(k', i) <==> Live(k, i) || i == FirstFree(k.used)
  {
    hide ForkMemory;
    hide ClearSie;
    var c := FirstFree(k.used);
    assert forall i: nat :: Live(k', i) <==> Live(k, i) || i == c;
    assert c !in k.all && c !in k.ready;
    assert k'.ready[|k.ready|] == c && c in k'.ready;
    assert forall i :: i in k'.ready <==> i in k.ready || i == c;
    assert forall i :: i in k'.all <==> i in k.all || i == c;
  }

  lemma ForkMemoryIsGood(k: Kernel, k': Kernel, ok: bool, env: Env)
    requires GoodMemory(k) && ForkStep(k, k', ok, env)
    ensures GoodMemory(k')
  {
    hide WellFormed;
    hide NoIdleTables;
    hide MappedSet;
    hide Footprint;
    hide KeptBut;
    hide ForkMemory;
    hide StackPath;
    hide ClearSie;
    var c := FirstFree(k.used);
    ForkMemoryFacts(k.phys, k'.phys, Proc(k.current), Proc(c), ok);
    assert forall i: nat :: Live(k', i) <==> Live(k, i) || i == c;
    forall i: nat | Live(k, i) ensures NoIdleTables(k'.phys, Proc(i)) && StackPath() in MappedSet(k'.phys, Proc(i)) {
      OtherSpace(k.phys, k'.phys, Proc(c), Proc(i));
    }
  }

  lemma OtherSpace(s: Phys, s': Phys, a: Space, b: Space)
    requires KeptBut(s, s', a) && a != Boot && b in s.roots && b != a
    ensures NoIdleTables(s, b) ==> NoIdleTables(s', b)
    ensures MappedSet(s', b) == MappedSet(s, b)
  {
    hide *;
    KeptSpaces(s, s', a, b);
    NoIdleMeans(s, b);
    NoIdleMeans(s', b);
  }

  lemma ForkIsGood(k: Kernel, k': Kernel, ok: bool, env: Env)
    requires Good(k) && ForkStep(k, k', ok, env)
    ensures Good(k') && (Clean(k) && ok ==> Clean(k')) && (!ok ==> !Clean(k'))
  {
    ForkMemoryIsGood(k, k', ok, env);
    ForkLists(k, k', ok, env);
    ForkSatp(k, k', ok, env);
    hide GoodMemory;
    hide GoodLists;
    hide GoodSatp;
    hide ForkStep;
  }

  lemma ForkSatp(k: Kernel, k': Kernel, ok: bool, env: Env)
    requires GoodSatp(k) && ForkStep(k, k', ok, env)
    ensures GoodSatp(k')
  {
    hide ForkMemory;
    hide ClearSie;
    ForkMemoryFacts(k.phys, k'.phys, Proc(k.current), Proc(FirstFree(k.used)), ok);
    hide KeptBut;
    hide WellFormed;
  }

  lemma StoreIsGood(k: Kernel, k': Kernel, va: Word, w: Word)
    requires Good(k) && StoreStep(k, k', va, w)
    ensures Good(k') && (Clean(k) ==> Clean(k'))
  {
    hide WellFormed;
    hide NoIdleTables;
    hide MappedSet;
    hide Footprint;
    hide KeptBut;
    hide StackPath;
    hide View;
    hide TranslateUser;
    StoreEffect(k, k', va, w);
    KeptWell(k.phys, k'.phys, Proc(k.current));
    forall i: nat | Live(k, i) ensures NoIdleTables(k'.phys, Proc(i)) && StackPath() in MappedSet(k'.phys, Proc(i)) {
      if i != k.current {
        OtherSpace(k.phys, k'.phys, Proc(k.current), Proc(i));
      } else {
        NoIdleMeans(k.phys, Proc(i));
        NoIdleMeans(k'.phys, Proc(i));
      }
    }
  }

  lemma KeptWell(s: Phys, s': Phys, a: Space)
    requires KeptBut(s, s', a)
    ensures WellFormed(s) && WellFormed(s')
  {
  }

  // ----------------------------------------------------------------------- runs

  /** Tick stands for the timer interrupt and for the test system call. */
  datatype Step =
    | Fork(ok: bool, env: Env)
    | NoSlot
    | Exit
    | Tick
    | UserStore(va: Word, w: Word)

  ghost predicate Next(k: Kernel, step: Step, k': Kernel) {
    match step
    case Fork(ok, env) => ForkStep(k, k', ok, env)
    case NoSlot => FirstFree(k.used) == |k.used| && k' == k
    case Exit => k.current < |k.pcbs| && CanSchedule(Killed(k)) && k' == Scheduled(Killed(k))
    case Tick => CanSchedule(k) && k' == Scheduled(k)
    case UserStore(va, w) => StoreStep(k, k', va, w)
  }

  predicate Schedules(step: Step) {
    step.Exit? || step.Tick?
  }

  ghost predicate IsRun(states: seq<Kernel>, steps: seq<Step>) {
    |states| == |steps| + 1 && forall i :: 0 <= i < |steps| ==> Next(states[i], steps[i], states[i + 1])
  }

  lemma NextIsGood(k: Kernel, step: Step, k': Kernel)
    requires Good(k) && Next(k, step, k')
    ensures Good(k')
    ensures Clean(k) && !(step.Fork? && !step.ok) ==> Clean(k')
    ensures step.Fork? && !step.ok ==> !Clean(k')
  {
    hide Good;
    hide ForkStep;
    hide StoreStep;
    hide Clean;
    hide Scheduled;
    hide Killed;
    match step
    case Fork(ok, env) => ForkIsGood(k, k', ok, env);
    case NoSlot =>
    case Exit =>
      KilledIsGood(k);
      ScheduledIsGood(Killed(k));
    case Tick => ScheduledIsGood(k);
    case UserStore(va, w) => StoreIsGood(k, k', va, w);
  }

  /**
   What scheduling does to the control blocks, field by field.  The process that leaves has run
   one tick more, and its ticks since it was scheduled start anew if it goes back to the queue.
   All others change in status only, and nobody's saved registers or switch frame change.
   */
  lemma SchedulingFields(k: Kernel, step: Step, k': Kernel)
    requires Good(k) && Schedules(step) && Next(k, step, k')
    ensures |k.pcbs| == |k'.pcbs| == 32 && k.current < 32 && k'.used == k.used && k'.all == k.all && k'.phys == k.phys
    ensures k.ready == [] ==>
              && k'.current == k.current
              && k'.pcbs == if step.Tick? then k.pcbs
                            else k.pcbs[k.current := k.pcbs[k.current].(status := DEAD)]
    ensures k.ready != [] ==>
              var p, next, again := k.current, k.ready[0], step.Tick? && k.pcbs[k.current].status == RUNNING;
              && p != next && next < 32 && k'.current == next
              && k'.ready == (if again then k.ready + [p] else k.ready)[1..]
              && k'.pcbs[next].status == RUNNING && k'.pcbs[p].status == (if again then READY else DEAD)
              && k'.pcbs[p].totalTicks == (k.pcbs[p].totalTicks + 1) % 0x1_0000_0000_0000_0000
              && k'.pcbs[p].ticksAfterSchedule ==
                   (if again then 0 else (k.pcbs[p].ticksAfterSchedule + 1) % 0x1_0000_0000_0000_0000)
              && k'.pcbs[p].(status := READY, totalTicks := 0, ticksAfterSchedule := 0) ==
                   k.pcbs[p].(status := READY, totalTicks := 0, ticksAfterSchedule := 0)
              && k'.pcbs[next] == k.pcbs[next].(status := RUNNING)
              && forall i: nat {:trigger k'.pcbs[i]} :: i < 32 && i != p && i != next ==> k'.pcbs[i] == k.pcbs[i]
  {
    hide *;
    NextMeans(k, step, k');
    GoodQueue(k);
    LeavesCpuIs(k, step, 0);
    KilledParts(k);
    var c := if step.Exit? then Killed(k) else k;
    ScheduledFields(c);
    if k.ready != [] {
      assert k.ready[0] in k.ready;
      ScheduledFacts(c);
      ScheduledPcbs(c);
    }
  }

  lemma GoodQueue(k: Kernel)
    requires Good(k)
    ensures |k.pcbs| == 32 && k.current < 32 && k.current !in k.ready
    ensures k.pcbs[k.current].status in {RUNNING, DEAD} && forall i :: i in k.ready ==> i < 32
  {
    hide GoodMemory;
    hide GoodSatp;
  }

  /** No step changes the saved registers, the switch frame or the parent of a live process. */
  lemma NextKeepsFrame(k: Kernel, step: Step, k': Kernel, b: nat)
    requires Good(k) && Next(k, step, k') && Live(k, b)
    ensures b < |k.pcbs| && b < |k'.pcbs| && Live(k', b)
    ensures k'.pcbs[b].registers == k.pcbs[b].registers && k'.pcbs[b].frame == k.pcbs[b].frame
    ensures k'.pcbs[b].parentPid == k.pcbs[b].parentPid && k'.pcbs[b].priority == k.pcbs[b].priority
    ensures k'.pcbs[b].pid == k.pcbs[b].pid && k'.pcbs[b].l2PageTable == k.pcbs[b].l2PageTable
    ensures k'.pcbs[b].totalTicks ==
              (k.pcbs[b].totalTicks + if LeavesCpu(k, step, b) then 1 else 0) % 0x1_0000_0000_0000_0000
  {
    hide *;
    LiveSpace(k, b);
    GoodQueue(k);
    NextMeans(k, step, k');
    LeavesCpuIs(k, step, b);
    match step
    case Fork(ok, env) => ForkKeepsPcb(k, k', ok, env, b);
    case NoSlot =>
    case Exit => SchedulingKeeps(k, step, k', b);
    case Tick => SchedulingKeeps(k, step, k', b);
    case UserStore(va, w) =>
      StoreKeepsPcbs(k, k', va, w);
      SameLive(k, k', b);
  }

  /** The step is a scheduling away from b. */
  predicate LeavesCpu(k: Kernel, step: Step, b: nat) {
    Schedules(step) && k.current == b && k.ready != []
  }

  lemma LeavesCpuIs(k: Kernel, step: Step, b: nat)
    ensures LeavesCpu(k, step, b) <==> (step.Exit? || step.Tick?) && k.current == b && k.ready != []
    ensures Schedules(step) <==> step.Exit? || step.Tick?
  {
  }

  lemma SchedulingKeeps(k: Kernel, step: Step, k': Kernel, b: nat)
    requires Good(k) && Schedules(step) && Next(k, step, k') && b < 32
    ensures |k.pcbs| == |k'.pcbs| == 32 && (Live(k', b) <==> Live(k, b))
    ensures k'.pcbs[b].registers == k.pcbs[b].registers && k'.pcbs[b].frame == k.pcbs[b].frame
    ensures k'.pcbs[b].parentPid == k.pcbs[b].parentPid && k'.pcbs[b].priority == k.pcbs[b].priority
    ensures k'.pcbs[b].pid == k.pcbs[b].pid && k'.pcbs[b].l2PageTable == k.pcbs[b].l2PageTable
    ensures k'.pcbs[b].totalTicks ==
              (k.pcbs[b].totalTicks + if k.current == b && k.ready != [] then 1 else 0) % 0x1_0000_0000_0000_0000
  {
    hide *;
    SchedulingFields(k, step, k');
    SameLive(k, k', b);
  }

  lemma SameLive(k: Kernel, k': Kernel, b: nat)
    requires k'.used == k.used
    ensures Live(k', b) <==> Live(k, b)
  {
  }

  lemma ForkKeepsPcb(k: Kernel, k': Kernel, ok: bool, env: Env, b: nat)
    requires ForkStep(k, k', ok, env) && Live(k, b) && b < |k.pcbs|
    ensures b < |k'.pcbs| && k'.pcbs[b] == k.pcbs[b] && Live(k', b)
  {
    hide ForkMemory;
    hide ForkedPcb;
    hide NewPcb;
  }

  lemma StoreKeepsPcbs(k: Kernel, k': Kernel, va: Word, w: Word)
    requires StoreStep(k, k', va, w)
    ensures k'.pcbs == k.pcbs && k'.used == k.used
  {
    hide TranslateUser;
  }

  /** How often the first n steps of a run take the CPU from b. */
  function TimesLeft(states: seq<Kernel>, steps: seq<Step>, n: nat, b: nat): nat
    requires n <= |steps| <= |states|
  {
    if n == 0 then 0
    else TimesLeft(states, steps, n - 1, b) + if LeavesCpu(states[n - 1], steps[n - 1], b) then 1 else 0
  }

  /** Along every run: registers, frame and parent stay, and the clock counts the times the process left the CPU. */
  lemma {:induction false} RunKeepsFrame(states: seq<Kernel>, steps: seq<Step>, n: nat, b: nat)
    requires IsRun(states, steps) && Good(states[0]) && n <= |steps| && Live(states[0], b)
    ensures b < |states[0].pcbs| && b < |states[n].pcbs| && Live(states[n], b)
    ensures var p, q := states[0].pcbs[b], states[n].pcbs[b];
      && q.registers == p.registers && q.frame == p.frame && q.parentPid == p.parentPid && q.priority == p.priority
      && q.totalTicks == (p.totalTicks + TimesLeft(states, steps, n, b)) % 0x1_0000_0000_0000_0000
  {
    hide Good;
    hide Next;
    hide LeavesCpu;
    LiveSpace(states[0], b);
    GoodQueue(states[0]);
    if n > 0 {
      RunKeepsFrame(states, steps, n - 1, b);
      RunsAreGood(states, steps, n - 1);
      NextKeepsFrame(states[n - 1], steps[n - 1], states[n], b);
      AddWrapped(states[0].pcbs[b].totalTicks + TimesLeft(states, steps, n - 1, b),
                 if LeavesCpu(states[n - 1], steps[n - 1], b) then 1 else 0);
    }
  }

  lemma AddWrapped(x: nat, d: nat)
    ensures (x % 0x1_0000_0000_0000_0000 + d) % 0x1_0000_0000_0000_0000 == (x + d) % 0x1_0000_0000_0000_0000
  {
  }

  /** Every state of a run that begins in a good state is good; and clean, while no fork has failed half way. */
  lemma {:induction false} RunsAreGood(states: seq<Kernel>, steps: seq<Step>, n: nat)
    requires IsRun(states, steps) && Good(states[0]) && n <= |steps|
    ensures Good(states[n])
    ensures Clean(states[0]) && (forall i :: 0 <= i < n ==> !(steps[i].Fork? && !steps[i].ok)) ==> Clean(states[n])
  {
    hide Good;
    hide Clean;
    hide Next;
    if n > 0 {
      RunsAreGood(states, steps, n - 1);
      NextIsGood(states[n - 1], steps[n - 1], states[n]);
    }
  }

  // ------------------------------------------------------------------- isolation

  /** A step changes the user memory of a process only if it is a store by that very process. */
  lemma NextLeavesOthers(k: Kernel, step: Step, k': Kernel, b: nat)
    requires Good(k) && Next(k, step, k') && Live(k, b)
    requires !(step.UserStore? && k.current == b)
    ensures Live(k', b) && SameUserMemory(k.phys, k'.phys, Proc(b))
  {
    hide *;
    LiveSpace(k, b);
    NextMeans(k, step, k');
    match step
    case Fork(ok, env) =>
      ForkKeeps(k, k', ok, env, b);
      KeptSpaces(k.phys, k'.phys, Proc(FirstFree(k.used)), Proc(b));
    case NoSlot => SameMemory(k.phys, k'.phys, Proc(b));
    case Exit =>
      ScheduledKeeps(Killed(k), b);
      SameMemory(k.phys, k'.phys, Proc(b));
    case Tick =>
      ScheduledKeeps(k, b);
      SameMemory(k.phys, k'.phys, Proc(b));
    case UserStore(va, w) =>
      StoreEffect(k, k', va, w);
      KeptSpaces(k.phys, k'.phys, Proc(k.current), Proc(b));
      StoreKeepsSlots(k, k', va, w, b);
  }

  lemma NextMeans(k: Kernel, step: Step, k': Kernel)
    requires Next(k, step, k')
    ensures step.Fork? ==> ForkStep(k, k', step.ok, step.env)
    ensures step.NoSlot? ==> k' == k
    ensures step.Exit? ==> k.current < |k.pcbs| && CanSchedule(Killed(k)) && k' == Scheduled(Killed(k))
    ensures step.Exit? ==> Killed(k).phys == k.phys && Killed(k).used == k.used
    ensures step.Tick? ==> CanSchedule(k) && k' == Scheduled(k)
    ensures step.UserStore? ==> StoreStep(k, k', step.va, step.w)
    ensures step.Exit? ==> k.current < |k.pcbs| && forall i: nat :: Live(Killed(k), i) <==> Live(k, i)
  {
    hide ForkStep;
    hide StoreStep;
    hide CanSchedule;
    hide Scheduled;
  }

  lemma LiveSpace(k: Kernel, b: nat)
    requires Good(k) && Live(k, b)
    ensures b < 32 && Proc(b) in k.phys.roots && WellFormed(k.phys) && Proc(b) != Boot && Boot in k.phys.roots
  {
  }

  lemma ForkKeeps(k: Kernel, k': Kernel, ok: bool, env: Env, b: nat)
    requires ForkStep(k, k', ok, env) && Live(k, b)
    ensures b != FirstFree(k.used) && Live(k', b) && KeptBut(k.phys, k'.phys, Proc(FirstFree(k.used)))
    ensures Proc(FirstFree(k.used)) != Boot && Proc(FirstFree(k.used)) != Proc(b)
  {
    hide ForkMemory;
    hide ClearSie;
    hide KeptBut;
    ForkMemoryFacts(k.phys, k'.phys, Proc(k.current), Proc(FirstFree(k.used)), ok);
  }

  lemma SameMemory(s: Phys, s': Phys, a: Space)
    requires s' == s
    ensures SameUserMemory(s, s', a)
  {
  }

  lemma ScheduledKeeps(k: Kernel, b: nat)
    requires CanSchedule(k) && Live(k, b)
    ensures Live(Scheduled(k), b) && Scheduled(k).phys == k.phys
  {
    hide SatpFor;
    if k.ready != [] {
      ScheduledFacts(k);
    }
  }

  lemma StoreKeepsSlots(k: Kernel, k': Kernel, va: Word, w: Word, b: nat)
    requires StoreStep(k, k', va, w) && Live(k, b)
    ensures Live(k', b) && Proc(b) in k.phys.roots ==> Proc(b) in k'.phys.roots
    ensures Live(k', b)
  {
    hide TranslateUser;
  }

  /** Along a run, the user memory of a process stays as it is until that process itself stores. */
  lemma {:induction false} RunIsolation(states: seq<Kernel>, steps: seq<Step>, n: nat, b: nat)
    requires IsRun(states, steps) && Good(states[0]) && n <= |steps| && Live(states[0], b)
    requires forall i :: 0 <= i < n ==> !(steps[i].UserStore? && states[i].current == b)
    ensures Live(states[n], b) && SameUserMemory(states[0].phys, states[n].phys, Proc(b))
  {
    hide Good;
    hide Next;
    hide Live;
    hide SameUserMemory;
    if n == 0 {
      SameMemory(states[0].phys, states[0].phys, Proc(b));
    } else {
      RunIsolation(states, steps, n - 1, b);
      RunsAreGood(states, steps, n - 1);
      NextLeavesOthers(states[n - 1], steps[n - 1], states[n], b);
      SameTwice(states[0].phys, states[n - 1].phys, states[n].phys, Proc(b));
    }
  }

  lemma SameTwice(s: Phys, s1: Phys, s2: Phys, a: Space)
    requires SameUserMemory(s, s1, a) && SameUserMemory(s1, s2, a)
    ensures SameUserMemory(s, s2, a)
  {
    hide View;
    forall t: Path | UserPath(t) ensures View(s2, a, t) == View(s, a, t) {
      assert View(s1, a, t) == View(s, a, t);
    }
  }

  datatype Loaded = PageFault | Value(w: Word)

  /** What a 64-bit load of a user program at va reads under the given root. */
  function UserLoad(s: Phys, root: nat, va: Word): Loaded {
    match TranslateUser(s.mem, root, va, Read)
    case Fault => PageFault
    case To(pa) => Value(Entry(s.mem, pa / 4096, pa % 4096 / 8))
  }

  /** A load depends on nothing but the program's own user memory. */
  lemma LoadFromView(s: Phys, a: Space, va: Word)
    requires WellFormed(s) && a in s.roots && a != Boot
    ensures var view := View(s, a, PathOf(va));
      UserLoad(s, s.roots[a], va) ==
        if Canonical(va) && UserPath(PathOf(va)) && view.Present? && |view.page| == 512
           && R(view.flags) && U(view.flags)
        then Value(view.page[va % 4096 / 8]) else PageFault
  {
    hide WellFormed;
    hide LeafAt;
    hide TranslateUser;
    hide PathOf;
    hide View;
    var t, e := PathOf(va), LeafAt(s, a, PathOf(va));
    UserTranslation(s, a, va, Read);
    Basics(s);
    FlagBits(e);
    if TranslateUser(s.mem, s.roots[a], va, Read) != Fault {
      UserHitsOwnFrame(s, a, va, Read);
      ViewIsMapped(s, a, t);
    } else if UserPath(t) {
      ViewIsMapped(s, a, t);
    }
  }

  /** After a store the process loads the new word there, if it may load at all, and every other word as before. */
  lemma StoreThenLoad(k: Kernel, k': Kernel, va: Word, w: Word, va': Word)
    requires Good(k) && Next(k, UserStore(va, w), k') && va' % 8 == 0
    ensures Proc(k.current) in k.phys.roots && k'.phys.roots == k.phys.roots
    ensures var root := k.phys.roots[Proc(k.current)];
      UserLoad(k'.phys, root, va') ==
        if va' == va && UserLoad(k.phys, root, va) != PageFault then Value(w) else UserLoad(k.phys, root, va')
  {
    hide *;
    var a := Proc(k.current);
    NextMeans(k, UserStore(va, w), k');
    NextIsGood(k, UserStore(va, w), k');
    GoodRoot(k);
    CurrentLives(k);
    LiveSpace(k, k.current);
    StoreEffect(k, k', va, w);
    GoodRoot(k');
    StoredCanonical(k, k', va, w);
    LoadFromView(k.phys, a, va');
    LoadFromView(k.phys, a, va);
    LoadFromView(k'.phys, a, va');
    if UserPath(PathOf(va')) {
      assert View(k'.phys, a, PathOf(va')) == if PathOf(va') == PathOf(va)
        then View(k.phys, a, PathOf(va)).(page := View(k.phys, a, PathOf(va)).page[va % 4096 / 8 := w])
        else View(k.phys, a, PathOf(va'));
      if Canonical(va') && PathOf(va) == PathOf(va') && va % 4096 / 8 == va' % 4096 / 8 {
        SameWord(va, va');
      }
    }
  }

  lemma StoredCanonical(k: Kernel, k': Kernel, va: Word, w: Word)
    requires StoreStep(k, k', va, w)
    ensures Canonical(va) && va % 8 == 0 && k'.current == k.current
  {
    hide Walk;
    hide Canonical;
  }

  /** Two words of one page at one place are one word. */
  lemma SameWord(va: Word, va': Word)
    requires va % 8 == 0 && va' % 8 == 0
    requires Canonical(va) && Canonical(va') && PathOf(va) == PathOf(va') && va % 4096 / 8 == va' % 4096 / 8
    ensures va == va'
  {
    hide *;
    CanonicalAddress(va);
    CanonicalAddress(va');
    WordOffset(va);
    WordOffset(va');
  }

  lemma WordOffset(va: Word)
    requires va % 8 == 0
    ensures va % 4096 == 8 * (va % 4096 / 8)
  {
    var q, r := va / 4096, va % 4096;
    assert va == 8 * (512 * q) + r;
  }

  /** The permission bits of an entry are those of its low ten bits. */
  lemma FlagBits(e: Word)
    ensures R(e) == R(e % 1024) && U(e) == U(e % 1024) && W(e) == W(e % 1024)
  {
    BitTwo(e);
    BitFour(e);
    BitSixteen(e);
  }

  lemma BitTwo(e: nat)
    ensures e / 2 % 2 == e % 1024 / 2 % 2
  {
    var q, r := e / 1024, e % 1024;
    QuotientIs(e, 2, 512 * q + r / 2, r % 2);
    QuotientIs(512 * q + r / 2, 2, 256 * q + r / 2 / 2, r / 2 % 2);
  }

  lemma BitFour(e: nat)
    ensures e / 4 % 2 == e % 1024 / 4 % 2
  {
    var q, r := e / 1024, e % 1024;
    QuotientIs(e, 4, 256 * q + r / 4, r % 4);
    QuotientIs(256 * q + r / 4, 2, 128 * q + r / 4 / 2, r / 4 % 2);
  }

  lemma BitSixteen(e: nat)
    ensures e / 16 % 2 == e % 1024 / 16 % 2
  {
    var q, r := e / 1024, e % 1024;
    QuotientIs(e, 16, 64 * q + r / 16, r % 16);
    QuotientIs(64 * q + r / 16, 2, 32 * q + r / 16 / 2, r / 16 % 2);
  }

  /** So what a process can load never depends on what another one stores, forks or exits. */
  lemma RunIsolationOfLoads(states: seq<Kernel>, steps: seq<Step>, n: nat, b: nat, va: Word)
    requires IsRun(states, steps) && Good(states[0]) && n <= |steps| && Live(states[0], b)
    requires forall i :: 0 <= i < n ==> !(steps[i].UserStore? && states[i].current == b)
    ensures Proc(b) in states[0].phys.roots && Proc(b) in states[n].phys.roots
    ensures UserLoad(states[n].phys, states[n].phys.roots[Proc(b)], va) ==
              UserLoad(states[0].phys, states[0].phys.roots[Proc(b)], va)
  {
    hide *;
    RunIsolation(states, steps, n, b);
    RunsAreGood(states, steps, n);
    RunShape(states, steps);
    LiveSpace(states[0], b);
    LiveSpace(states[n], b);
    LoadFromView(states[0].phys, Proc(b), va);
    LoadFromView(states[n].phys, Proc(b), va);
    if UserPath(PathOf(va)) {
      SameViewAt(states[0].phys, states[n].phys, Proc(b), PathOf(va));
    }
  }

  /**
   What a successful fork gives the program: the child loads at every address what the parent
   loaded there, resumes with the parent's registers and a0 = 0, and waits at the end of the
   queue; the parent keeps its control block and its memory.
   */
  lemma ForkGivesACopy(k: Kernel, k': Kernel, env: Env, va: Word)
    requires Good(k) && Next(k, Fork(true, env), k')
    ensures var p, c := k.current, FirstFree(k.used);
      && c != p && Proc(p) in k.phys.roots && Proc(p) in k'.phys.roots && Proc(c) in k'.phys.roots
      && UserLoad(k'.phys, k'.phys.roots[Proc(c)], va) == UserLoad(k.phys, k.phys.roots[Proc(p)], va)
      && UserLoad(k'.phys, k'.phys.roots[Proc(p)], va) == UserLoad(k.phys, k.phys.roots[Proc(p)], va)
      && Live(k', c) && Live(k', p) && c < |k'.pcbs| == |k.pcbs| && p < |k.pcbs| && k'.current == p
      && k'.pcbs[p] == k.pcbs[p]
      && k'.pcbs[c].registers == k.pcbs[p].registers[10 := 0][2 := env.sscratch]
      && k'.pcbs[c].pid == c && k'.pcbs[c].status == READY && k'.ready == k.ready + [c]
      && ResumesLike(k'.pcbs[c], k.pcbs[p], env) && k.pcbs[p].pid == p
  {
    hide *;
    var p, c := k.current, FirstFree(k.used);
    ForkedChild(k, k', true, env);
    NextMeans(k, Fork(true, env), k');
    GoodRoot(k);
    CurrentLives(k);
    ForkIsGood(k, k', true, env);
    ForkKeeps(k, k', true, env, p);
    LiveSpace(k, p);
    ChildFields(k, k', env);
    LiveSpace(k', p);
    LiveSpace(k', c);
    ForkCopies(k.phys, k'.phys, Proc(p), Proc(c));
    KeptSpaces(k.phys, k'.phys, Proc(c), Proc(p));
    LoadFromView(k.phys, Proc(p), va);
    LoadFromView(k'.phys, Proc(p), va);
    LoadFromView(k'.phys, Proc(c), va);
    if UserPath(PathOf(va)) {
      SameViewAt(k.phys, k'.phys, Proc(p), PathOf(va));
    }
  }

  lemma CurrentLives(k: Kernel)
    requires Good(k)
    ensures Live(k, k.current) && NoIdleTables(k.phys, Proc(k.current))
  {
    hide WellFormed;
    hide NoIdleTables;
    hide MappedSet;
    hide StackPath;
  }

  lemma ChildFields(k: Kernel, k': Kernel, env: Env)
    requires ForkStep(k, k', true, env) && Live(k, k.current)
    ensures var p, c := k.current, FirstFree(k.used);
      && ForkMemory(k.phys, k'.phys, Proc(p), Proc(c), true)
      && c != p && Live(k', c) && c < |k'.pcbs| == |k.pcbs| && p < |k.pcbs| && k'.current == p
      && k'.pcbs[p] == k.pcbs[p]
      && k'.pcbs[c].registers == k.pcbs[p].registers[10 := 0][2 := env.sscratch]
      && k'.pcbs[c].pid == c && k'.pcbs[c].status == READY && k'.ready == k.ready + [c]
  {
    hide ForkMemory;
    hide ClearSie;
  }

  /**
   The child of every fork, field by field: it resumes where the parent called, with the parent's
   registers but for a0 and sp, in user mode, with its parent's clock.  Nobody else's changes.
   */
  lemma ForkedChild(k: Kernel, k': Kernel, ok: bool, env: Env)
    requires Good(k) && Next(k, Fork(ok, env), k')
    ensures |k.pcbs| == |k'.pcbs| == 32 && k.current < 32
    ensures var p, c := k.current, FirstFree(k.used);
      && c < 32 && c != p && Live(k', c) && k'.current == p && k'.all == k.all + [c] && k'.ready == k.ready + [c]
      && (forall i: nat {:trigger k'.pcbs[i]} :: i < 32 && i != c ==> k'.pcbs[i] == k.pcbs[i])
      && k'.pcbs[c].status == (if ok then READY else DEAD) && k'.pcbs[c].pid == c && k.pcbs[p].pid == p
      && ResumesLike(k'.pcbs[c], k.pcbs[p], env)
  {
    hide *;
    var p, c := k.current, FirstFree(k.used);
    CurrentLives(k);
    GoodQueue(k);
    LiveSpace(k, p);
    GoodPids(k, p);
    NextMeans(k, Fork(ok, env), k');
    NextIsGood(k, Fork(ok, env), k');
    GoodQueue(k');
    ChildIs(k, k', ok, env);
    ForkedPcbFields(k.pcbs[p], NewPcb(c, k'.phys.roots[Proc(c)] * 4096, 0, env), env);
    NewPcbFields(c, k'.phys.roots[Proc(c)] * 4096, 0, env);
  }

  lemma GoodPids(k: Kernel, b: nat)
    requires Good(k) && Live(k, b)
    ensures b < |k.pcbs| && k.pcbs[b].pid == b < 0x1_0000_0000_0000_0000
  {
    hide WellFormed;
    hide GoodLists;
    hide GoodSatp;
  }

  lemma ChildIs(k: Kernel, k': Kernel, ok: bool, env: Env)
    requires ForkStep(k, k', ok, env) && Live(k, k.current)
    ensures var p, c := k.current, FirstFree(k.used);
      && p < |k.pcbs| && c < |k.pcbs| == |k'.pcbs| && c != p && Live(k', c)
      && Proc(c) in k'.phys.roots && k'.phys.roots[Proc(c)] * 4096 < 0x100_0000_0000_0000
      && k'.current == p && k'.all == k.all + [c] && k'.ready == k.ready + [c]
      && (forall i: nat {:trigger k'.pcbs[i]} :: i < |k.pcbs| && i != c ==> k'.pcbs[i] == k.pcbs[i])
      && var child := ForkedPcb(k.pcbs[p], NewPcb(c, k'.phys.roots[Proc(c)] * 4096, 0, env), env);
         k'.pcbs[c] == if ok then child else child.(status := DEAD)
  {
    hide ForkMemory;
    hide ForkedPcb;
    hide NewPcb;
  }

  /** And from then on, until one of the two stores, both still load what the parent loaded before the fork. */
  lemma ForkThenRun(k: Kernel, env: Env, states: seq<Kernel>, steps: seq<Step>, n: nat, va: Word)
    requires Good(k) && IsRun(states, steps) && n <= |steps| && Next(k, Fork(true, env), states[0])
    requires forall i :: 0 <= i < n && steps[i].UserStore? ==>
              states[i].current != k.current && states[i].current != FirstFree(k.used)
    ensures var p, c := k.current, FirstFree(k.used);
      && Proc(p) in k.phys.roots && Proc(p) in states[n].phys.roots && Proc(c) in states[n].phys.roots
      && UserLoad(states[n].phys, states[n].phys.roots[Proc(p)], va) == UserLoad(k.phys, k.phys.roots[Proc(p)], va)
      && UserLoad(states[n].phys, states[n].phys.roots[Proc(c)], va) == UserLoad(k.phys, k.phys.roots[Proc(p)], va)
  {
    hide *;
    RunShape(states, steps);
    ForkGivesACopy(k, states[0], env, va);
    NextIsGood(k, Fork(true, env), states[0]);
    RunIsolationOfLoads(states, steps, n, k.current, va);
    RunIsolationOfLoads(states, steps, n, FirstFree(k.used), va);
  }

  lemma RunShape(states: seq<Kernel>, steps: seq<Step>)
    requires IsRun(states, steps)
    ensures |states| == |steps| + 1
  {
    hide Next;
  }

  /** Frames and tables of different live processes are different pages, all of them allocated. */
  lemma SeparatePages(k: Kernel, a: nat, b: nat, t: Path, u: Path)
    requires Good(k) && Live(k, a) && Live(k, b) && a != b && UserPath(t) && UserPath(u)
    ensures Mapped(k.phys, Proc(a), t) && Mapped(k.phys, Proc(b), u) ==>
              var p, q := LeafAt(k.phys, Proc(a), t) / 1024, LeafAt(k.phys, Proc(b), u) / 1024;
              p in k.phys.own && q in k.phys.own && p != q
    ensures Table1(k.phys, Proc(a), t.i2) != 0 ==>
              && Table1(k.phys, Proc(a), t.i2) in k.phys.own
              && Table1(k.phys, Proc(a), t.i2) != Table1(k.phys, Proc(b), u.i2)
    ensures Table0(k.phys, Proc(a), t.i2, t.i1) != 0 ==>
              && Table0(k.phys, Proc(a), t.i2, t.i1) in k.phys.own
              && Table0(k.phys, Proc(a), t.i2, t.i1) != Table0(k.phys, Proc(b), u.i2, u.i1)
  {
    hide WellFormed;
    hide LeafAt;
    hide Table0;
    hide Table1;
    hide NoIdleTables;
    hide MappedSet;
    WalkMeets(k.phys, Proc(a), t);
    WalkMeets(k.phys, Proc(b), u);
  }

  // ------------------------------------------------------------------ kernel half

  /** Below entry 256 every space walks exactly like the boot table. */
  lemma KernelHalf(s: Phys, a: Space, t: Path)
    requires WellFormed(s) && a in s.roots && t.InRange() && t.i2 < 256
    ensures LeafAt(s, a, t) == LeafAt(s, Boot, t)
  {
    assert Entry(s.mem, s.roots[a], t.i2) == Entry(s.mem, s.roots[Boot], t.i2);
  }

  lemma NextKeepsBoot(k: Kernel, step: Step, k': Kernel, t: Path)
    requires Good(k) && Next(k, step, k') && t.InRange()
    ensures LeafAt(k'.phys, Boot, t) == LeafAt(k.phys, Boot, t)
  {
    hide *;
    GoodRoot(k);
    BootThere(k.phys);
    NextMeans(k, step, k');
    match step
    case Fork(ok, env) =>
      ForkKeepsBoot(k, k', ok, env);
      KeptSpaces(k.phys, k'.phys, Proc(FirstFree(k.used)), Boot);
    case NoSlot =>
    case Exit => ScheduledPhys(Killed(k));
    case Tick => ScheduledPhys(k);
    case UserStore(va, w) =>
      StoreEffect(k, k', va, w);
      KeptSpaces(k.phys, k'.phys, Proc(k.current), Boot);
  }

  lemma BootThere(s: Phys)
    requires WellFormed(s)
    ensures Boot in s.roots
  {
  }

  lemma ScheduledPhys(k: Kernel)
    requires CanSchedule(k)
    ensures Scheduled(k).phys == k.phys
  {
  }

  lemma ForkKeepsBoot(k: Kernel, k': Kernel, ok: bool, env: Env)
    requires ForkStep(k, k', ok, env)
    ensures KeptBut(k.phys, k'.phys, Proc(FirstFree(k.used))) && Proc(FirstFree(k.used)) != Boot
  {
    hide ForkMemory;
    hide ClearSie;
    hide KeptBut;
    ForkMemoryFacts(k.phys, k'.phys, Proc(k.current), Proc(FirstFree(k.used)), ok);
  }

  /** In every state of a run, kernel and device addresses translate in every process as the boot table said at the
      start. */
  lemma {:induction false} RunKeepsKernelHalf(states: seq<Kernel>, steps: seq<Step>, n: nat, i: nat, t: Path)
    requires IsRun(states, steps) && Good(states[0]) && n <= |steps| && Live(states[n], i) && t.InRange() && t.i2 < 256
    ensures LeafAt(states[n].phys, Proc(i), t) == LeafAt(states[0].phys, Boot, t)
  {
    hide Good;
    hide Next;
    hide Live;
    hide LeafAt;
    RunsAreGood(states, steps, n);
    LiveSpace(states[n], i);
    KernelHalf(states[n].phys, Proc(i), t);
    RunKeepsBoot(states, steps, n, t);
  }

  lemma {:induction false} RunKeepsBoot(states: seq<Kernel>, steps: seq<Step>, n: nat, t: Path)
    requires IsRun(states, steps) && Good(states[0]) && n <= |steps| && t.InRange()
    ensures LeafAt(states[n].phys, Boot, t) == LeafAt(states[0].phys, Boot, t)
  {
    hide Good;
    hide Next;
    hide LeafAt;
    if n > 0 {
      RunKeepsBoot(states, steps, n - 1, t);
      RunsAreGood(states, steps, n - 1);
      NextKeepsBoot(states[n - 1], steps[n - 1], states[n], t);
    }
  }

  /**
   Addresses below the CLINT are mapped nowhere: neither by the boot table nor, in any state of a
   run, by a process.  So the store that follows a failed allocation traps.
   */
  lemma NothingAtZero(states: seq<Kernel>, steps: seq<Step>, n: nat, i: nat, va: Word)
    requires IsRun(states, steps) && Good(states[0]) && n <= |steps| && Live(states[n], i) && va < 0x200_0000
    requires forall t: Path {:trigger LeafAt(states[0].phys, Boot, t)} :: t.InRange() ==>
               LeafAt(states[0].phys, Boot, t) == if Covered(BootRanges(), Vpn(t)) then IdentityLeaf(Vpn(t)) else 0
    ensures Boot in states[n].phys.roots && Proc(i) in states[n].phys.roots
    ensures Walk(states[n].phys.mem, states[n].phys.roots[Boot], va, 2) == NoLeaf
    ensures Walk(states[n].phys.mem, states[n].phys.roots[Proc(i)], va, 2) == NoLeaf
  {
    hide *;
    RunShape(states, steps);
    LowAddress(va);
    RunsAreGood(states, steps, n);
    LiveSpace(states[n], i);
    RunKeepsBoot(states, steps, n, PathOf(va));
    RunKeepsKernelHalf(states, steps, n, i, PathOf(va));
    WalkIsLeafAt(states[n].phys, Boot, va);
    WalkIsLeafAt(states[n].phys, Proc(i), va);
    ZeroIsNoLeaf();
  }

  lemma LowAddress(va: Word)
    requires va < 0x200_0000
    ensures PathOf(va).InRange() && PathOf(va).i2 < 256 && !Covered(BootRanges(), Vpn(PathOf(va)))
  {
    hide And;
    VpnPaths(va / 4096);
    SamePage(va);
  }

  lemma ZeroIsNoLeaf()
    ensures !ProperLeaf(0)
  {
  }

  // ---------------------------------------------------------- the dead and the waiting

  /** Dead, and switched away from. */
  ghost predicate Gone(k: Kernel, i: nat) {
    Live(k, i) && i < |k.pcbs| && k.pcbs[i].status == DEAD && i != k.current && i !in k.ready
  }

  lemma ScheduledLeavesGone(k: Kernel, i: nat)
    requires Good(k) && Gone(k, i)
    ensures CanSchedule(k) && Gone(Scheduled(k), i)
  {
    hide GoodMemory;
    hide GoodSatp;
    hide SatpFor;
    hide Scheduled;
    hide NoDuplicates;
    GoodSchedules(k);
    if k.ready != [] {
      ScheduledFacts(k);
      QueueRotates(k.ready, k.current, k.pcbs[k.current].status == RUNNING);
    } else {
      EmptyQueue(k);
    }
  }

  lemma EmptyQueue(k: Kernel)
    requires CanSchedule(k) && k.ready == []
    ensures Scheduled(k) == k
  {
  }

  lemma KilledLeavesGone(k: Kernel, i: nat)
    requires Good(k) && Gone(k, i)
    ensures Gone(Killed(k), i)
  {
    hide GoodMemory;
    hide GoodSatp;
  }

  lemma NextKeepsGone(k: Kernel, step: Step, k': Kernel, i: nat)
    requires Good(k) && Next(k, step, k') && Gone(k, i)
    ensures Gone(k', i)
  {
    hide *;
    NextMeans(k, step, k');
    match step
    case Fork(ok, env) => ForkLeavesGone(k, k', ok, env, i);
    case NoSlot =>
    case Exit =>
      KilledIsGood(k);
      KilledLeavesGone(k, i);
      ScheduledLeavesGone(Killed(k), i);
    case Tick => ScheduledLeavesGone(k, i);
    case UserStore(va, w) => StoreLeavesGone(k, k', va, w, i);
  }

  lemma ForkLeavesGone(k: Kernel, k': Kernel, ok: bool, env: Env, i: nat)
    requires ForkStep(k, k', ok, env) && Gone(k, i)
    ensures Gone(k', i)
  {
    hide ForkMemory;
    hide ClearSie;
  }

  lemma StoreLeavesGone(k: Kernel, k': Kernel, va: Word, w: Word, i: nat)
    requires StoreStep(k, k', va, w) && Gone(k, i)
    ensures Gone(k', i)
  {
    hide TranslateUser;
  }

  /** A process that has died and been switched away from never runs again. */
  lemma {:induction false} TheDeadStayDead(states: seq<Kernel>, steps: seq<Step>, m: nat, n: nat, i: nat)
    requires IsRun(states, steps) && Good(states[0]) && m <= n <= |steps| && Gone(states[m], i)
    ensures Gone(states[n], i) && states[n].current != i
    decreases n - m
  {
    hide Good;
    hide Next;
    if m < n {
      RunsAreGood(states, steps, m);
      NextKeepsGone(states[m], steps[m], states[m + 1], i);
      TheDeadStayDead(states, steps, m + 1, n, i);
    }
  }

  /** Exit makes the current process one of those, unless nobody else can run. */
  lemma ExitIsForGood(k: Kernel)
    requires Good(k) && k.ready != []
    ensures CanSchedule(Killed(k)) && Gone(Scheduled(Killed(k)), k.current)
  {
    hide GoodMemory;
    hide GoodSatp;
    hide SatpFor;
    hide Scheduled;
    hide NoDuplicates;
    KilledLists(k);
    GoodSchedules(Killed(k));
    ScheduledFacts(Killed(k));
    QueueRotates(k.ready, k.current, false);
  }

  /** How many of the first n steps call schedule. */
  function Switches(steps: seq<Step>, n: nat): nat
    requires n <= |steps|
  {
    if n == 0 then 0 else Switches(steps, n - 1) + if Schedules(steps[n - 1]) then 1 else 0
  }

  /** One scheduling moves everybody one place up. */
  lemma ScheduledMovesUp(k: Kernel, pos: nat)
    requires Good(k) && pos < |k.ready|
    ensures CanSchedule(k)
    ensures pos == 0 ==> Scheduled(k).current == k.ready[pos] && k.ready[pos] < |Scheduled(k).pcbs|
    ensures pos == 0 ==> Scheduled(k).pcbs[k.ready[pos]].status == RUNNING
    ensures pos > 0 ==> pos - 1 < |Scheduled(k).ready| && Scheduled(k).ready[pos - 1] == k.ready[pos]
  {
    hide GoodMemory;
    hide GoodSatp;
    hide SatpFor;
    hide Scheduled;
    hide NoDuplicates;
    GoodSchedules(k);
    ScheduledFacts(k);
    assert k.ready[0] in k.ready && Live(k, k.ready[0]);
  }

  /** Other steps leave the queue as it is, or add behind. */
  lemma NextMoves(k: Kernel, step: Step, k': Kernel, pos: nat)
    requires Good(k) && Next(k, step, k') && pos < |k.ready|
    ensures !Schedules(step) ==> pos < |k'.ready| && k'.ready[pos] == k.ready[pos]
    ensures Schedules(step) && pos == 0 ==>
              k'.current == k.ready[pos] && k'.current < |k'.pcbs| && k'.pcbs[k'.current].status == RUNNING
    ensures Schedules(step) && pos > 0 ==> pos - 1 < |k'.ready| && k'.ready[pos - 1] == k.ready[pos]
  {
    hide Good;
    hide ForkMemory;
    hide ClearSie;
    hide TranslateUser;
    hide Scheduled;
    match step
    case Fork(ok, env) =>
    case NoSlot =>
    case Exit =>
      KilledIsGood(k);
      ScheduledMovesUp(Killed(k), pos);
    case Tick =>
      ScheduledMovesUp(k, pos);
    case UserStore(va, w) =>
  }

  /** A waiting process moves up by one with every scheduling, whatever else happens in between. */
  lemma {:induction false} WaitsInLine(states: seq<Kernel>, steps: seq<Step>, n: nat, pos: nat)
    requires IsRun(states, steps) && Good(states[0]) && n <= |steps| && pos < |states[0].ready|
    requires Switches(steps, n) <= pos
    ensures pos - Switches(steps, n) < |states[n].ready|
    ensures states[n].ready[pos - Switches(steps, n)] == states[0].ready[pos]
  {
    hide Good;
    hide Next;
    if n > 0 {
      WaitsInLine(states, steps, n - 1, pos);
      RunsAreGood(states, steps, n - 1);
      NextMoves(states[n - 1], steps[n - 1], states[n], pos - Switches(steps, n - 1));
    }
  }

  /**
   Bounded wait: the process at position pos of the ready list is running exactly after the
   scheduling number pos + 1, and that number is at most 31.
   */
  lemma BoundedWait(states: seq<Kernel>, steps: seq<Step>, n: nat, pos: nat)
    requires IsRun(states, steps) && Good(states[0]) && 0 < n <= |steps| && pos < |states[0].ready|
    requires Schedules(steps[n - 1]) && Switches(steps, n) == pos + 1
    ensures states[n].current == states[0].ready[pos]
    ensures states[n].current < |states[n].pcbs| && states[n].pcbs[states[n].current].status == RUNNING
    ensures pos + 1 <= 31
  {
    hide Good;
    hide Next;
    WaitsInLine(states, steps, n - 1, pos);
    RunsAreGood(states, steps, n - 1);
    NextMoves(states[n - 1], steps[n - 1], states[n], 0);
    QueueIsShort(states[0]);
  }

  /** With 32 slots and the current process outside, at most 31 wait. */
  lemma QueueIsShort(k: Kernel)
    requires Good(k)
    ensures |k.ready| <= 31
  {
    hide GoodMemory;
    hide GoodSatp;
    QueueInside(k);
    DistinctBelow(k.ready + [k.current], 32);
  }

  lemma QueueInside(k: Kernel)
    requires GoodLists(k)
    ensures NoDuplicates(k.ready + [k.current]) && forall i :: i in k.ready + [k.current] ==> i < 32
  {
  }

  lemma {:induction false} DistinctBelow(xs: seq<nat>, n: nat)
    requires NoDuplicates(xs) && forall i :: i in xs ==> i < n
    ensures |xs| <= n
  {
    assert |xs| > 0 ==> xs[0] in xs;
    if n == 0 {
    } else if n - 1 in xs {
      var j :| 0 <= j < |xs| && xs[j] == n - 1;
      var rest := xs[..j] + xs[j + 1..];
      assert forall i :: 0 <= i < |rest| ==> rest[i] == xs[if i < j then i else i + 1];
      forall i | i in rest ensures i < n - 1 {
        var m :| 0 <= m < |rest| && rest[m] == i;
        assert xs[if m < j then m else m + 1] == i && i in xs && i != xs[j];
      }
      DistinctBelow(rest, n - 1);
    } else {
      DistinctBelow(xs, n - 1);
    }
  }

  /** The pages decide how a fork ends; one that fails leaves the child DEAD at the end of the queue. */
  lemma ForkEndsAs(k: Kernel, k': Kernel, ok: bool, env: Env)
    requires Good(k) && Next(k, Fork(ok, env), k')
    ensures ok <==> Used(k.phys) + |Footprint(k.phys, Proc(k.current))| + 1 <= 0x7eff
    ensures !ok <==> ForkFails(k.phys, Proc(k.current))
    ensures !ok ==> var child := FirstFree(k.used);
              child < |k'.pcbs| && k'.pcbs[child].status == DEAD && k'.ready == k.ready + [child] && !Clean(k')
  {
    hide *;
    var p, c := k.current, FirstFree(k.used);
    NextMeans(k, Fork(ok, env), k');
    GoodRoot(k);
    CurrentLives(k);
    LiveSpace(k, p);
    ForkPages(k, k', ok, env);
    ForkDecided(k.phys, k'.phys, Proc(p), Proc(c), ok);
    if !ok {
      FailedChild(k, k', env);
      ForkIsGood(k, k', ok, env);
    }
  }

  lemma ForkPages(k: Kernel, k': Kernel, ok: bool, env: Env)
    requires ForkStep(k, k', ok, env)
    ensures ForkMemory(k.phys, k'.phys, Proc(k.current), Proc(FirstFree(k.used)), ok)
  {
    hide ForkMemory;
    hide ClearSie;
  }

  /**
   The one way a DEAD process runs: when the pool runs out in the middle of a fork, the child
   stays queued, and the scheduling that reaches it makes it RUNNING.
   */
  lemma FailedForkRuns(states: seq<Kernel>, steps: seq<Step>, n: nat)
    requires IsRun(states, steps) && Good(states[0]) && 1 < n <= |steps|
    requires steps[0].Fork? && ForkFails(states[0].phys, Proc(states[0].current))
    requires Schedules(steps[n - 1]) && Switches(steps, n) == |states[0].ready| + 1
    ensures var child := FirstFree(states[0].used);
      && child < |states[1].pcbs| && states[1].pcbs[child].status == DEAD
      && states[n].current == child && child < |states[n].pcbs| && states[n].pcbs[child].status == RUNNING
  {
    hide *;
    FirstStep(states, steps);
    ForkEndsAs(states[0], states[1], steps[0].ok, steps[0].env);
    NextMeans(states[0], steps[0], states[1]);
    NextIsGood(states[0], steps[0], states[1]);
    FailedChild(states[0], states[1], steps[0].env);
    RunTail(states, steps);
    NotScheduling(steps[0]);
    SwitchesTail(steps, n);
    BoundedWait(states[1..], steps[1..], n - 1, |states[0].ready|);
  }

  lemma FirstStep(states: seq<Kernel>, steps: seq<Step>)
    requires IsRun(states, steps) && |steps| > 0
    ensures |states| == |steps| + 1 && Next(states[0], steps[0], states[1])
    ensures states[1..][0] == states[1]
  {
    hide Next;
  }

  lemma NotScheduling(step: Step)
    requires step.Fork?
    ensures !Schedules(step)
  {
  }

  lemma FailedChild(k: Kernel, k': Kernel, env: Env)
    requires ForkStep(k, k', false, env)
    ensures var child := FirstFree(k.used);
      && child < |k'.pcbs| && k'.pcbs[child].status == DEAD
      && k'.ready == k.ready + [child] && |k'.ready| == |k.ready| + 1 && k'.ready[|k.ready|] == child
  {
    hide ForkMemory;
    hide ClearSie;
  }

  lemma RunTail(states: seq<Kernel>, steps: seq<Step>)
    requires IsRun(states, steps) && |steps| > 0
    ensures IsRun(states[1..], steps[1..])
  {
    hide Next;
    forall i | 0 <= i < |steps[1..]| ensures Next(states[1..][i], steps[1..][i], states[1..][i + 1]) {
      assert Next(states[i + 1], steps[i + 1], states[i + 2]);
    }
  }

  lemma {:induction false} SwitchesTail(steps: seq<Step>, n: nat)
    requires 0 < n <= |steps| && !Schedules(steps[0])
    ensures Switches(steps[1..], n - 1) == Switches(steps, n)
  {
    if n > 1 {
      SwitchesTail(steps, n - 1);
      assert steps[1..][n - 2] == steps[n - 1];
    }
  }
}
