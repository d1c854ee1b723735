/** fork, exit, reparent and wait of xv6-riscv/kernel/proc.c as interleaved steps over the process
    table.  Slot 0 is initproc.  sleep and wakeup are taken as atomic, as SleepWakeup allows. */
module ProcTree {

  const NONE: int := -1

  datatype ProcState = Unused | Used | Alive | Zombie

  /** Where the process in a slot is.  Want... is about to acquire wait_lock. */
  datatype Pc =
    | Nothing | User
    | WantExit | Reparent(k: nat) | ReparentWake(k: nat) | ExitWake | ExitMark | Sched | Dead
    | WantWait | Scan(k: nat, kids: bool) | Hit(k: nat, kids: bool) | AsleepInWait
    | ForkCopy(np: nat) | WantLink(np: nat) | Link(np: nat) | ForkRun(np: nat)

  datatype Reap = Reap(reaper: nat, child: nat)

  datatype State = State(
    st: seq<ProcState>, pid: seq<nat>, parent: seq<int>, pc: seq<Pc>,
    lk: int,                // holder of wait_lock
    nextpid: nat,
    reaped: seq<Reap>)      // pids, oldest first

  /** The steps of process i, with what they choose. */
  datatype Step =
    | CallExit(i: nat) | CallWait(i: nat) | CallFork(i: nat, np: nat)
    | CopyFails(i: nat) | GiveUp(i: nat) | Wakes(i: nat)
    | ExitGo(i: nat) | WaitGo(i: nat) | ForkGo(i: nat)

  predicate Sized(n: nat, s: State) {
    |s.st| == |s.pid| == |s.parent| == |s.pc| == n && n > 0
  }

  ghost predicate Initial(n: nat, s: State) {
    && Sized(n, s) && s.lk == NONE && s.reaped == []
    && s.st[0] == Alive && s.pc[0] == User && s.parent[0] == NONE && s.pid[0] < s.nextpid
    && forall x :: 0 < x < n ==> s.st[x] == Unused && s.pc[x] == Nothing && s.parent[x] == NONE
  }

  /** wakeup(p). */
  function Wake(pc: seq<Pc>, p: int): seq<Pc> {
    if 0 <= p < |pc| && pc[p] == AsleepInWait then pc[p := WantWait] else pc
  }

  ghost predicate Next(n: nat, s: State, e: Step, t: State) {
    && Sized(n, s) && e.i < n
    && match e
       case CallExit(i) => s.pc[i] == User && i != 0 && t == s.(pc := s.pc[i := WantExit])
       case CallWait(i) => s.pc[i] == User && t == s.(pc := s.pc[i := WantWait])
       case CallFork(i, np) =>
         && s.pc[i] == User && np < n && s.st[np] == Unused
         && t == s.(st := s.st[np := Used], pid := s.pid[np := s.nextpid], nextpid := s.nextpid + 1, pc := s.pc[i := ForkCopy(np)])
       case CopyFails(i) =>
         s.pc[i].ForkCopy? && s.pc[i].np < n &&
         t == s.(st := s.st[s.pc[i].np := Unused], pid := s.pid[s.pc[i].np := 0], parent := s.parent[s.pc[i].np := NONE],
                 pc := s.pc[i := User])
       case Wakes(i) => s.pc[i] == AsleepInWait && t == s.(pc := s.pc[i := WantWait])
       case GiveUp(i) =>
         // killed at the end of the scan, or copyout of the status failed
         ((s.pc[i].Scan? && s.pc[i].k >= n) || (s.pc[i].Hit? && s.pc[i].k < n && s.st[s.pc[i].k] == Zombie && s.pc[s.pc[i].k] != Sched)) &&
         t == s.(lk := NONE, pc := s.pc[i := User])
       case ExitGo(i) => ExitStep(n, s, i, t)
       case WaitGo(i) => WaitStep(n, s, i, t)
       case ForkGo(i) => ForkStep(n, s, i, t)
  }

  /** exit, up to the scheduler's release of the exited process. */
  ghost predicate ExitStep(n: nat, s: State, i: nat, t: State)
    requires Sized(n, s) && i < n
  {
    match s.pc[i]
    case WantExit => s.lk == NONE && t == s.(lk := i, pc := s.pc[i := Reparent(0)])
    case Reparent(k) =>
      if k >= n then t == s.(pc := s.pc[i := ExitWake])
      else if s.parent[k] == i then t == s.(parent := s.parent[k := 0], pc := s.pc[i := ReparentWake(k)])
      else t == s.(pc := s.pc[i := Reparent(k + 1)])
    case ReparentWake(k) => t == s.(pc := Wake(s.pc, 0)[i := Reparent(k + 1)])
    case ExitWake => t == s.(pc := Wake(s.pc, s.parent[i])[i := ExitMark])
    case ExitMark => t == s.(lk := NONE, st := s.st[i := Zombie], pc := s.pc[i := Sched])
    case Sched => t == s.(pc := s.pc[i := Dead])
    case _ => false
  }

  /** wait; it frees a child only when the child's lock can be had, that is when it is off its CPU. */
  ghost predicate WaitStep(n: nat, s: State, i: nat, t: State)
    requires Sized(n, s) && i < n
  {
    match s.pc[i]
    case WantWait => s.lk == NONE && t == s.(lk := i, pc := s.pc[i := Scan(0, false)])
    case Scan(k, kids) =>
      if k >= n then t == s.(lk := NONE, pc := s.pc[i := if kids then AsleepInWait else User])
      else if s.parent[k] == i then t == s.(pc := s.pc[i := Hit(k, kids)])
      else t == s.(pc := s.pc[i := Scan(k + 1, kids)])
    case Hit(k, kids) =>
      k < n && s.pc[k] != Sched &&
      if s.st[k] == Zombie then
        t == s.(lk := NONE, st := s.st[k := Unused], pid := s.pid[k := 0], parent := s.parent[k := NONE],
                pc := s.pc[k := Nothing][i := User], reaped := s.reaped + [Reap(s.pid[i], s.pid[k])])
      else t == s.(pc := s.pc[i := Scan(k + 1, true)])
    case _ => false
  }

  /** fork, once the slot is allocated. */
  ghost predicate ForkStep(n: nat, s: State, i: nat, t: State)
    requires Sized(n, s) && i < n
  {
    match s.pc[i]
    case ForkCopy(np) => t == s.(pc := s.pc[i := WantLink(np)])
    case WantLink(np) => s.lk == NONE && t == s.(lk := i, pc := s.pc[i := Link(np)])
    case Link(np) => np < n && t == s.(lk := NONE, parent := s.parent[np := i], pc := s.pc[i := ForkRun(np)])
    case ForkRun(np) => np < n && t == s.(st := s.st[np := Alive], pc := s.pc[np := User][i := User])
    case _ => false
  }

  // ----- The invariant -----

  predicate HoldsLk(pc: Pc) {
    pc.Reparent? || pc.ReparentWake? || pc.ExitWake? || pc.ExitMark? || pc.Scan? || pc.Hit? || pc.Link?
  }

  predicate Exiting(pc: Pc) {
    pc.WantExit? || pc.Reparent? || pc.ReparentWake? || pc.ExitWake? || pc.ExitMark?
  }

  predicate Forking(pc: Pc) {
    pc.ForkCopy? || pc.WantLink? || pc.Link? || pc.ForkRun?
  }

  /** A parent is always alive. */
  ghost predicate TreeOk(n: nat, s: State, x: nat)
    requires Sized(n, s) && x < n
  {
    && -1 <= s.parent[x] < n
    && (s.parent[x] != NONE ==> s.st[s.parent[x]] == Alive)
    && (x != 0 && s.st[x] in {Alive, Zombie} ==> s.parent[x] != NONE)
    && (s.st[x] == Unused ==> s.parent[x] == NONE)
    && (x == 0 ==> s.st[x] == Alive)
  }

  ghost predicate SlotOk(n: nat, s: State, x: nat)
    requires Sized(n, s) && x < n
  {
    && (s.pc[x] == Nothing <==> s.st[x] in {Unused, Used})
    && (s.pc[x] in {Sched, Dead} <==> s.st[x] == Zombie)
    && (s.lk == x <==> HoldsLk(s.pc[x]))
    && (Exiting(s.pc[x]) ==> x != 0)
    && (s.pc[x].Hit? ==> s.pc[x].k < n && s.parent[s.pc[x].k] == x)
    && (Forking(s.pc[x]) ==> s.pc[x].np < n && s.st[s.pc[x].np] == Used && s.pc[x].np != 0
                             && s.parent[s.pc[x].np] == if s.pc[x].ForkRun? then x as int else NONE)
    && (s.st[x] != Unused ==> s.pid[x] < s.nextpid)
    && (s.pc[x] == ExitMark ==> s.parent[x] != NONE && 0 <= s.parent[x] < n && s.pc[s.parent[x]] != AsleepInWait)
  }

  /** While x exits, the slots it has passed are not its children. */
  ghost predicate ExitPair(n: nat, s: State, x: nat, y: nat)
    requires Sized(n, s) && x < n && y < n
  {
    && (s.pc[x].Reparent? && y < s.pc[x].k ==> s.parent[y] != x)
    && (s.pc[x].ReparentWake? && y <= s.pc[x].k ==> s.parent[y] != x)
    && (s.pc[x] in {ExitWake, ExitMark} ==> s.parent[y] != x)
  }

  ghost predicate ForkPair(n: nat, s: State, x: nat, y: nat)
    requires Sized(n, s) && x < n && y < n
  {
    && (Forking(s.pc[x]) && Forking(s.pc[y]) && x != y ==> s.pc[x].np != s.pc[y].np)
    && (s.st[x] != Unused && s.st[y] != Unused && x != y ==> s.pid[x] != s.pid[y])
  }

  /** Nobody sleeps in wait with a zombie child, but for initproc just before its wakeup in reparent;
      and a scan has met no zombie child so far. */
  ghost predicate WaitPair(n: nat, s: State, x: nat, y: nat)
    requires Sized(n, s) && x < n && y < n
  {
    && (s.pc[x] == AsleepInWait && s.parent[y] == x && s.st[y] == Zombie ==> x == 0 && 0 <= s.lk < n && s.pc[s.lk].ReparentWake?)
    && (s.pc[x].Scan? && y < s.pc[x].k && s.parent[y] == x ==> s.st[y] != Zombie)
    && (s.pc[x].Hit? && y < s.pc[x].k && s.parent[y] == x ==> s.st[y] != Zombie)
    && ((s.pc[x].Scan? || s.pc[x].Hit?) && y < s.pc[x].k && s.parent[y] == x ==> s.pc[x].kids)
  }

  /** A scan that says it met a child did. */
  ghost predicate KidsOk(n: nat, s: State, x: nat)
    requires Sized(n, s) && x < n
  {
    (s.pc[x].Scan? || s.pc[x].Hit?) && s.pc[x].kids ==> exists y: nat :: y < n && s.parent[y] == x
  }

  ghost predicate PairOk(n: nat, s: State, x: nat, y: nat)
    requires Sized(n, s) && x < n && y < n
  {
    ExitPair(n, s, x, y) && ForkPair(n, s, x, y) && WaitPair(n, s, x, y)
  }

  ghost predicate ReapsOk(n: nat, s: State)
    requires Sized(n, s)
  {
    && (forall j :: 0 <= j < |s.reaped| ==> s.reaped[j].child < s.nextpid)
    && (forall j, x :: 0 <= j < |s.reaped| && 0 <= x < n && s.st[x] != Unused ==> s.reaped[j].child != s.pid[x])
    && (forall j, k :: 0 <= j < k < |s.reaped| ==> s.reaped[j].child != s.reaped[k].child)
  }

  ghost predicate Inv(n: nat, s: State) {
    && Sized(n, s) && -1 <= s.lk < n
    && (forall x: nat :: x < n ==> TreeOk(n, s, x))
    && (forall x: nat :: x < n ==> SlotOk(n, s, x) && KidsOk(n, s, x))
    && (forall x: nat, y: nat :: x < n && y < n ==> PairOk(n, s, x, y))
    && ReapsOk(n, s)
  }

  lemma InitInv(n: nat, s: State)
    requires Initial(n, s)
    ensures Inv(n, s)
  {
  }

  lemma StepInv(n: nat, s: State, e: Step, t: State)
    requires Inv(n, s) && Next(n, s, e, t)
    ensures Inv(n, t)
  {
    StepSized(n, s, e, t);
    assert Known(n, s, e);
    hide Next, TreeOk, SlotOk, PairOk, ReapsOk, Known, KidsOk;
    forall x: nat | x < n ensures TreeOk(n, t, x) && SlotOk(n, t, x) {
      assert SlotOk(n, s, x) && TreeOk(n, s, x) && PairOk(n, s, e.i, x);
      StepSlot(n, s, e, t, x);
    }
    forall x: nat, y: nat | x < n && y < n ensures PairOk(n, t, x, y) {
      assert SlotOk(n, s, x) && SlotOk(n, s, y) && PairOk(n, s, x, y);
      StepPair(n, s, e, t, x, y);
    }
    forall x: nat | x < n ensures KidsOk(n, t, x) {
      assert SlotOk(n, s, x) && KidsOk(n, s, x);
      StepKids(n, s, e, t, x);
    }
    StepReaps(n, s, e, t);
  }

  /** Parents that point at a scanning process change only by its own steps. */
  lemma StepKids(n: nat, s: State, e: Step, t: State, x: nat)
    requires Sized(n, s) && Known(n, s, e) && x < n && SlotOk(n, s, x) && KidsOk(n, s, x) && Next(n, s, e, t) && Sized(n, t)
    ensures KidsOk(n, t, x)
  {
    if (t.pc[x].Scan? || t.pc[x].Hit?) && t.pc[x].kids {
      if (s.pc[x].Scan? || s.pc[x].Hit?) && s.pc[x].kids {
        var y: nat :| y < n && s.parent[y] == x;
        assert t.parent[y] == x;
      } else {
        assert t.parent[s.pc[x].k] == x;
      }
    }
  }

  /** At the end of its scan wait goes to sleep exactly when it has a child, and otherwise returns. */
  lemma WaitSleeps(n: nat, s: State, i: nat, t: State)
    requires Inv(n, s) && i < n && WaitStep(n, s, i, t) && s.pc[i].Scan? && s.pc[i].k >= n
    ensures t.pc[i] == AsleepInWait <==> exists y: nat :: y < n && s.parent[y] == i
    ensures t.pc[i] != AsleepInWait ==> t.pc[i] == User && t.reaped == s.reaped && t.lk == NONE
  {
    assert KidsOk(n, s, i);
    forall y: nat | y < n && s.parent[y] == i ensures s.pc[i].kids {
      assert PairOk(n, s, i, y);
    }
  }

  /** The slots a step reads or writes. */
  ghost predicate Known(n: nat, s: State, e: Step)
    requires Sized(n, s)
  {
    && e.i < n && SlotOk(n, s, e.i) && TreeOk(n, s, e.i) && TreeOk(n, s, 0)
    && (e.CallFork? && e.np < n ==> TreeOk(n, s, e.np) && SlotOk(n, s, e.np))
    && (s.pc[e.i].Hit? && s.pc[e.i].k < n ==> TreeOk(n, s, s.pc[e.i].k) && SlotOk(n, s, s.pc[e.i].k))
    && (Forking(s.pc[e.i]) && s.pc[e.i].np < n ==> TreeOk(n, s, s.pc[e.i].np) && SlotOk(n, s, s.pc[e.i].np))
  }

  lemma StepSized(n: nat, s: State, e: Step, t: State)
    requires Sized(n, s) && Next(n, s, e, t) && -1 <= s.lk < n
    ensures Sized(n, t) && -1 <= t.lk < n
  {
  }

  lemma StepSlot(n: nat, s: State, e: Step, t: State, x: nat)
    requires Sized(n, s) && Known(n, s, e) && x < n && SlotOk(n, s, x) && TreeOk(n, s, x) && PairOk(n, s, e.i, x)
    requires Next(n, s, e, t) && Sized(n, t)
    ensures TreeOk(n, t, x) && SlotOk(n, t, x)
  {
    hide Known, TreeOk, SlotOk, PairOk, ExitStep, WaitStep, ForkStep;
    match e {
      case ExitGo(i) => ExitTree(n, s, e, t, x); ExitSlot(n, s, e, t, x);
      case WaitGo(i) => WaitTree(n, s, e, t, x); WaitSlot(n, s, e, t, x);
      case ForkGo(i) => ForkTree(n, s, e, t, x); ForkSlot(n, s, e, t, x);
      case _ => CallTree(n, s, e, t, x); CallSlot(n, s, e, t, x);
    }
  }

  lemma CallTree(n: nat, s: State, e: Step, t: State, x: nat)
    requires Sized(n, s) && Known(n, s, e) && x < n && TreeOk(n, s, x)
    requires Next(n, s, e, t) && !e.ExitGo? && !e.WaitGo? && !e.ForkGo?
    ensures TreeOk(n, t, x)
  {
    hide ExitStep, WaitStep, ForkStep;
  }

  lemma CallSlot(n: nat, s: State, e: Step, t: State, x: nat)
    requires Sized(n, s) && Known(n, s, e) && x < n && SlotOk(n, s, x) && PairOk(n, s, e.i, x)
    requires Next(n, s, e, t) && !e.ExitGo? && !e.WaitGo? && !e.ForkGo?
    ensures SlotOk(n, t, x)
  {
    hide ExitStep, WaitStep, ForkStep;
  }

  lemma ExitTree(n: nat, s: State, e: Step, t: State, x: nat)
    requires Sized(n, s) && Known(n, s, e) && x < n && TreeOk(n, s, x) && PairOk(n, s, e.i, x) && ExitStep(n, s, e.i, t)
    ensures TreeOk(n, t, x)
  {
  }

  lemma ExitSlot(n: nat, s: State, e: Step, t: State, x: nat)
    requires Sized(n, s) && Known(n, s, e) && x < n && SlotOk(n, s, x) && TreeOk(n, s, x) && ExitStep(n, s, e.i, t) && Sized(n, t)
    ensures SlotOk(n, t, x)
  {
    hide ExitStep, SlotOk, TreeOk, Known;
    if x == e.i {
      ExitSelf(n, s, e, t);
    } else {
      ExitOther(n, s, e, t, x);
    }
  }

  lemma ExitSelf(n: nat, s: State, e: Step, t: State)
    requires Sized(n, s) && e.i < n && Known(n, s, e) && ExitStep(n, s, e.i, t)
    ensures SlotOk(n, t, e.i)
  {
    hide SlotOk, Known;
    if s.pc[e.i].WantExit? || s.pc[e.i].Reparent? || s.pc[e.i].ReparentWake? {
      ReparentSelf(n, s, e, t);
    } else {
      LeaveSelf(n, s, e, t);
    }
  }

  lemma ReparentSelf(n: nat, s: State, e: Step, t: State)
    requires Sized(n, s) && Known(n, s, e) && ExitStep(n, s, e.i, t)
    requires s.pc[e.i].WantExit? || s.pc[e.i].Reparent? || s.pc[e.i].ReparentWake?
    ensures SlotOk(n, t, e.i)
  {
  }

  lemma LeaveSelf(n: nat, s: State, e: Step, t: State)
    requires Sized(n, s) && Known(n, s, e) && ExitStep(n, s, e.i, t)
    requires s.pc[e.i].ExitWake? || s.pc[e.i].ExitMark? || s.pc[e.i].Sched?
    ensures SlotOk(n, t, e.i)
  {
  }

  lemma ExitOther(n: nat, s: State, e: Step, t: State, x: nat)
    requires Sized(n, s) && Known(n, s, e) && x < n && x != e.i && SlotOk(n, s, x) && TreeOk(n, s, x) && ExitStep(n, s, e.i, t)
    ensures SlotOk(n, t, x)
  {
    ExitLeaves(n, s, e, t, x);
    if Forking(s.pc[x]) {
      ExitLeaves(n, s, e, t, s.pc[x].np);
    }
    if s.pc[x].Hit? {
      ExitLeaves(n, s, e, t, s.pc[x].k);
    }
    if s.pc[x] == ExitMark {
      ExitLeaves(n, s, e, t, s.parent[x]);
    }
    assert SlotOk(n, s, e.i);
    hide ExitStep, Known;
  }

  /** What a step of exit leaves of another slot. */
  lemma ExitLeaves(n: nat, s: State, e: Step, t: State, x: nat)
    requires Sized(n, s) && Known(n, s, e) && x < n && ExitStep(n, s, e.i, t)
    ensures Sized(n, t) && t.pid == s.pid && t.nextpid == s.nextpid
    ensures x != e.i ==> t.st[x] == s.st[x] && (t.pc[x] == s.pc[x] || (s.pc[x] == AsleepInWait && t.pc[x] == WantWait))
    ensures t.parent[x] == s.parent[x] || (s.parent[x] == e.i && t.parent[x] == 0 && s.lk == e.i)
    ensures t.lk == s.lk || (s.lk in {NONE, e.i as int} && t.lk in {NONE, e.i as int})
    ensures t.st[e.i] in {Alive, Zombie} && (s.pc[e.i] == ExitMark ==> s.lk == e.i)
    ensures t.pc[e.i] != AsleepInWait
  {
  }

  lemma WaitTree(n: nat, s: State, e: Step, t: State, x: nat)
    requires Sized(n, s) && Known(n, s, e) && x < n && TreeOk(n, s, x) && WaitStep(n, s, e.i, t)
    ensures TreeOk(n, t, x)
  {
  }

  lemma WaitSlot(n: nat, s: State, e: Step, t: State, x: nat)
    requires Sized(n, s) && Known(n, s, e) && x < n && SlotOk(n, s, x) && WaitStep(n, s, e.i, t) && Sized(n, t)
    ensures SlotOk(n, t, x)
  {
    hide WaitStep, SlotOk, TreeOk, Known;
    if x == e.i {
      WaitSelf(n, s, e, t);
    } else {
      WaitOther(n, s, e, t, x);
    }
  }

  lemma WaitSelf(n: nat, s: State, e: Step, t: State)
    requires Sized(n, s) && e.i < n && Known(n, s, e) && WaitStep(n, s, e.i, t)
    ensures SlotOk(n, t, e.i)
  {
    hide SlotOk, Known;
    if s.pc[e.i].Hit? {
      HitSelf(n, s, e, t);
    } else {
      ScanSelf(n, s, e, t);
    }
  }

  lemma HitSelf(n: nat, s: State, e: Step, t: State)
    requires Sized(n, s) && e.i < n && Known(n, s, e) && WaitStep(n, s, e.i, t) && s.pc[e.i].Hit?
    ensures SlotOk(n, t, e.i)
  {
  }

  lemma ScanSelf(n: nat, s: State, e: Step, t: State)
    requires Sized(n, s) && e.i < n && Known(n, s, e) && WaitStep(n, s, e.i, t) && !s.pc[e.i].Hit?
    ensures SlotOk(n, t, e.i)
  {
  }

  lemma WaitOther(n: nat, s: State, e: Step, t: State, x: nat)
    requires Sized(n, s) && Known(n, s, e) && x < n && x != e.i && SlotOk(n, s, x) && WaitStep(n, s, e.i, t)
    ensures SlotOk(n, t, x)
  {
  }

  lemma ForkTree(n: nat, s: State, e: Step, t: State, x: nat)
    requires Sized(n, s) && Known(n, s, e) && x < n && TreeOk(n, s, x) && ForkStep(n, s, e.i, t)
    ensures TreeOk(n, t, x)
  {
  }

  lemma ForkSlot(n: nat, s: State, e: Step, t: State, x: nat)
    requires Sized(n, s) && Known(n, s, e) && x < n && SlotOk(n, s, x) && PairOk(n, s, e.i, x) && ForkStep(n, s, e.i, t) && Sized(n, t)
    ensures SlotOk(n, t, x)
  {
    hide ForkStep, SlotOk, TreeOk, Known, PairOk;
    if x == e.i {
      ForkSelf(n, s, e, t);
    } else {
      ForkOther(n, s, e, t, x);
    }
  }

  lemma ForkSelf(n: nat, s: State, e: Step, t: State)
    requires Sized(n, s) && Known(n, s, e) && ForkStep(n, s, e.i, t)
    ensures SlotOk(n, t, e.i)
  {
  }

  lemma ForkOther(n: nat, s: State, e: Step, t: State, x: nat)
    requires Sized(n, s) && Known(n, s, e) && x < n && x != e.i && SlotOk(n, s, x) && PairOk(n, s, e.i, x) && ForkStep(n, s, e.i, t)
    ensures SlotOk(n, t, x)
  {
  }

  lemma StepPair(n: nat, s: State, e: Step, t: State, x: nat, y: nat)
    requires Sized(n, s) && Known(n, s, e) && x < n && y < n && SlotOk(n, s, x) && SlotOk(n, s, y) && PairOk(n, s, x, y)
    requires Next(n, s, e, t) && Sized(n, t)
    ensures PairOk(n, t, x, y)
  {
    hide ExitPair, ForkPair, WaitPair, SlotOk, TreeOk, Known, ExitStep, WaitStep, ForkStep;
    match e {
      case ExitGo(i) => ExitExit(n, s, e, t, x, y); ExitFork(n, s, e, t, x, y); ExitWaitPair(n, s, e, t, x, y);
      case WaitGo(i) => WaitExit(n, s, e, t, x, y); WaitFork(n, s, e, t, x, y); WaitWait(n, s, e, t, x, y);
      case ForkGo(i) => ForkExit(n, s, e, t, x, y); ForkFork(n, s, e, t, x, y); ForkWait(n, s, e, t, x, y);
      case _ => CallExits(n, s, e, t, x, y); CallForks(n, s, e, t, x, y); CallWaits(n, s, e, t, x, y);
    }
  }

  lemma ExitExit(n: nat, s: State, e: Step, t: State, x: nat, y: nat)
    requires Sized(n, s) && Known(n, s, e) && x < n && y < n && SlotOk(n, s, x) && SlotOk(n, s, y) && ExitPair(n, s, x, y)
    requires ExitStep(n, s, e.i, t)
    ensures ExitPair(n, t, x, y)
  {
  }

  lemma ExitFork(n: nat, s: State, e: Step, t: State, x: nat, y: nat)
    requires Sized(n, s) && Known(n, s, e) && x < n && y < n && SlotOk(n, s, x) && SlotOk(n, s, y) && ForkPair(n, s, x, y)
    requires ExitStep(n, s, e.i, t)
    ensures ForkPair(n, t, x, y)
  {
    ExitFrame(n, s, e, t, x);
    ExitFrame(n, s, e, t, y);
    hide ExitStep, Known, SlotOk;
  }

  lemma ExitFrame(n: nat, s: State, e: Step, t: State, x: nat)
    requires Sized(n, s) && Known(n, s, e) && x < n && ExitStep(n, s, e.i, t)
    ensures Sized(n, t) && t.pid == s.pid && (t.st[x] == Unused <==> s.st[x] == Unused)
    ensures Forking(t.pc[x]) ==> t.pc[x] == s.pc[x]
  {
  }

  lemma ExitWaitPair(n: nat, s: State, e: Step, t: State, x: nat, y: nat)
    requires Sized(n, s) && Known(n, s, e) && x < n && y < n && SlotOk(n, s, x) && SlotOk(n, s, y) && WaitPair(n, s, x, y)
    requires ExitStep(n, s, e.i, t)
    ensures WaitPair(n, t, x, y)
  {
  }

  lemma WaitExit(n: nat, s: State, e: Step, t: State, x: nat, y: nat)
    requires Sized(n, s) && Known(n, s, e) && x < n && y < n && SlotOk(n, s, x) && SlotOk(n, s, y) && ExitPair(n, s, x, y)
    requires WaitStep(n, s, e.i, t)
    ensures ExitPair(n, t, x, y)
  {
  }

  lemma WaitFork(n: nat, s: State, e: Step, t: State, x: nat, y: nat)
    requires Sized(n, s) && Known(n, s, e) && x < n && y < n && SlotOk(n, s, x) && SlotOk(n, s, y) && ForkPair(n, s, x, y)
    requires WaitStep(n, s, e.i, t)
    ensures ForkPair(n, t, x, y)
  {
  }

  lemma WaitWait(n: nat, s: State, e: Step, t: State, x: nat, y: nat)
    requires Sized(n, s) && Known(n, s, e) && x < n && y < n && SlotOk(n, s, x) && SlotOk(n, s, y) && WaitPair(n, s, x, y)
    requires WaitStep(n, s, e.i, t)
    ensures WaitPair(n, t, x, y)
  {
  }

  lemma ForkExit(n: nat, s: State, e: Step, t: State, x: nat, y: nat)
    requires Sized(n, s) && Known(n, s, e) && x < n && y < n && SlotOk(n, s, x) && SlotOk(n, s, y) && ExitPair(n, s, x, y)
    requires ForkStep(n, s, e.i, t)
    ensures ExitPair(n, t, x, y)
  {
  }

  lemma ForkFork(n: nat, s: State, e: Step, t: State, x: nat, y: nat)
    requires Sized(n, s) && Known(n, s, e) && x < n && y < n && SlotOk(n, s, x) && SlotOk(n, s, y) && ForkPair(n, s, x, y)
    requires ForkStep(n, s, e.i, t)
    ensures ForkPair(n, t, x, y)
  {
  }

  lemma ForkWait(n: nat, s: State, e: Step, t: State, x: nat, y: nat)
    requires Sized(n, s) && Known(n, s, e) && x < n && y < n && SlotOk(n, s, x) && SlotOk(n, s, y) && WaitPair(n, s, x, y)
    requires ForkStep(n, s, e.i, t)
    ensures WaitPair(n, t, x, y)
  {
  }

  lemma CallExits(n: nat, s: State, e: Step, t: State, x: nat, y: nat)
    requires Sized(n, s) && Known(n, s, e) && x < n && y < n && SlotOk(n, s, x) && SlotOk(n, s, y) && ExitPair(n, s, x, y)
    requires Next(n, s, e, t) && !e.ExitGo? && !e.WaitGo? && !e.ForkGo?
    ensures ExitPair(n, t, x, y)
  {
    hide ExitStep, WaitStep, ForkStep;
  }

  lemma CallForks(n: nat, s: State, e: Step, t: State, x: nat, y: nat)
    requires Sized(n, s) && Known(n, s, e) && x < n && y < n && SlotOk(n, s, x) && SlotOk(n, s, y) && ForkPair(n, s, x, y)
    requires Next(n, s, e, t) && !e.ExitGo? && !e.WaitGo? && !e.ForkGo?
    ensures ForkPair(n, t, x, y)
  {
    hide ExitStep, WaitStep, ForkStep;
  }

  lemma CallWaits(n: nat, s: State, e: Step, t: State, x: nat, y: nat)
    requires Sized(n, s) && Known(n, s, e) && x < n && y < n && SlotOk(n, s, x) && SlotOk(n, s, y) && WaitPair(n, s, x, y)
    requires Next(n, s, e, t) && !e.ExitGo? && !e.WaitGo? && !e.ForkGo?
    ensures WaitPair(n, t, x, y)
  {
    hide ExitStep, WaitStep, ForkStep;
  }

  lemma StepReaps(n: nat, s: State, e: Step, t: State)
    requires Inv(n, s) && Next(n, s, e, t)
    ensures ReapsOk(n, t)
  {
    assert SlotOk(n, s, e.i);
    if e.WaitGo? && s.pc[e.i].Hit? {
      forall x: nat | x < n && t.st[x] != Unused ensures s.pid[x] != s.pid[s.pc[e.i].k] || s.st[s.pc[e.i].k] != Zombie {
        assert PairOk(n, s, x, s.pc[e.i].k);
      }
      assert SlotOk(n, s, s.pc[e.i].k);
    }
    hide PairOk, TreeOk;
  }

  // ----- Runs -----

  ghost predicate IsRun(n: nat, run: seq<State>, steps: seq<Step>) {
    |run| == |steps| + 1 && Initial(n, run[0]) && forall k: nat {:trigger StepAt(n, run, steps, k)} :: k < |steps| ==> StepAt(n, run, steps, k)
  }

  ghost predicate StepAt(n: nat, run: seq<State>, steps: seq<Step>, k: nat)
    requires k < |steps| < |run|
  {
    Next(n, run[k], steps[k], run[k + 1])
  }

  lemma {:induction false} RunInv(n: nat, run: seq<State>, steps: seq<Step>, k: nat)
    requires IsRun(n, run, steps) && k < |run|
    ensures Inv(n, run[k])
  {
    hide Inv, Next;
    if k == 0 {
      InitInv(n, run[0]);
    } else {
      RunInv(n, run, steps, k - 1);
      assert StepAt(n, run, steps, k - 1);
      StepInv(n, run[k - 1], steps[k - 1], run[k]);
    }
  }

  /** In every interleaving, at every moment: a parent is alive; every process but initproc, running
      or exited, has one; and with wait_lock free nobody sleeps in wait who has a zombie child. */
  lemma SoundTree(n: nat, run: seq<State>, steps: seq<Step>, k: nat, x: nat)
    requires IsRun(n, run, steps) && k < |run| && x < n
    ensures var s := run[k];
            && Sized(n, s) && -1 <= s.parent[x] < n
            && (s.parent[x] != NONE ==> s.st[s.parent[x]] == Alive)
            && (x != 0 && s.st[x] in {Alive, Zombie} ==> s.parent[x] != NONE)
            && (s.lk == NONE && s.st[x] == Zombie ==> s.parent[x] != NONE && s.pc[s.parent[x]] != AsleepInWait)
  {
    RunInv(n, run, steps, k);
    assert TreeOk(n, run[k], x);
    if run[k].parent[x] != NONE {
      assert PairOk(n, run[k], run[k].parent[x], x);
    }
  }

  /** A process is reaped by its parent, after it exited and left its CPU. */
  lemma ReapedByParent(n: nat, run: seq<State>, steps: seq<Step>, k: nat)
    requires IsRun(n, run, steps) && k < |steps| && run[k + 1].reaped != run[k].reaped
    ensures Sized(n, run[k]) && steps[k].i < n && run[k].pc[steps[k].i].Hit?
    ensures var i := steps[k].i;
            var c := run[k].pc[i].k;
            && c < n && run[k].parent[c] == i && run[k].st[c] == Zombie && run[k].pc[c] == Dead
            && run[k + 1].reaped == run[k].reaped + [Reap(run[k].pid[i], run[k].pid[c])]
  {
    assert StepAt(n, run, steps, k);
    RunInv(n, run, steps, k);
    assert SlotOk(n, run[k], steps[k].i);
    if run[k].pc[steps[k].i].Hit? {
      assert SlotOk(n, run[k], run[k].pc[steps[k].i].k);
    }
  }

  /** No pid is reaped twice, and no reaped pid is in the table again. */
  lemma ReapedOnce(n: nat, run: seq<State>, steps: seq<Step>, k: nat, i: nat, j: nat, x: nat)
    requires IsRun(n, run, steps) && k < |run| && i < j < |run[k].reaped| && x < n
    ensures Sized(n, run[k]) && run[k].reaped[i].child != run[k].reaped[j].child
    ensures run[k].st[x] != Unused ==> run[k].reaped[i].child != run[k].pid[x]
  {
    RunInv(n, run, steps, k);
  }
}
