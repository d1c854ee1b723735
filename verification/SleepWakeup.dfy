/** sleep and wakeup of xv6-riscv/kernel/proc.c as interleaved steps, for n processes and the data
    that one spinlock guards.  A channel c is blocked when blocked(c, data): that is when a process
    may sleep on c. */
module SleepWakeup {

  datatype Pc =
    | Outside                  // does not hold the lock
    | Inside                   // holds it
    | Sleep1(c: nat)           // in sleep: about to acquire p->lock
    | Sleep2(c: nat)           // holds both locks, about to release the monitor's
    | Sleep3(c: nat)           // about to set chan and state
    | Sleep4(c: nat)           // in sched, p->lock not yet released by the scheduler
    | Asleep(c: nat)           // switched out
    | Woken                    // switched in again, holding p->lock
    | Reacquire                // about to acquire the monitor's lock
    | Wake(c: nat, k: nat)     // in wakeup: about to acquire the lock of process k
    | WakeHas(c: nat, k: nat)  // holding the lock of process k

  datatype ProcState = Running | Runnable | Sleeping

  const NOBODY: int := -1

  datatype State<D> = State(
    data: D,
    lk: int,                 // holder of the monitor's lock
    plock: seq<int>,         // holder of each p->lock
    pc: seq<Pc>,
    state: seq<ProcState>,
    chan: seq<int>,
    owed: set<nat>,          // unblocked in this critical section and not woken up since
    quiet: set<nat>)         // woken up in this critical section

  datatype Step<D> =
    | Acquire(i: nat) | Release(i: nat) | Change(i: nat, d: D)
    | CallSleep(i: nat, c: nat) | SleepStep(i: nat) | Schedule(i: nat) | WakeStep(i: nat)
    | CallWakeup(i: nat, c: nat) | Kill(i: nat, j: nat)

  ghost predicate Initial<D(!new)>(n: nat, s: State<D>) {
    && |s.plock| == |s.pc| == |s.state| == |s.chan| == n && s.lk == NOBODY && s.owed == {} && s.quiet == {}
    && forall i :: 0 <= i < n ==> s.plock[i] == NOBODY && s.pc[i] == Outside && s.state[i] == Running && s.chan[i] == 0
  }

  predicate Sized<D>(n: nat, s: State<D>) {
    |s.plock| == |s.pc| == |s.state| == |s.chan| == n
  }

  /** The channels a change of the data unblocks. */
  predicate Unblocks<D>(blocked: (nat, D) -> bool, d0: D, d1: D, c: nat) {
    blocked(c, d0) && !blocked(c, d1)
  }

  /** What each step needs.  Callers sleep on c only while c is blocked; everything else is the code's. */
  ghost predicate Enabled<D(!new)>(n: nat, blocked: (nat, D) -> bool, s: State<D>, e: Step<D>)
    requires Sized(n, s)
  {
    e.i < n &&
    match e
    case Acquire(i) => s.pc[i] in {Outside, Reacquire} && s.lk == NOBODY
    case Release(i) => s.pc[i] == Inside
    case Change(i, d) => s.pc[i] == Inside
    case CallSleep(i, c) => s.pc[i] == Inside && blocked(c, s.data)
    case SleepStep(i) =>
      s.pc[i].Sleep2? || s.pc[i].Sleep3? || s.pc[i].Sleep4? || s.pc[i] == Woken || (s.pc[i].Sleep1? && s.plock[i] == NOBODY)
    case Schedule(i) => s.pc[i].Asleep? && s.state[i] == Runnable && s.plock[i] == NOBODY
    case CallWakeup(i, c) => s.pc[i] == Inside
    case WakeStep(i) =>
      s.pc[i].WakeHas? || (s.pc[i].Wake? && (s.pc[i].k >= n || s.pc[i].k == i || s.plock[s.pc[i].k] == NOBODY))
    case Kill(i, j) => j < n && s.plock[j] == NOBODY
  }

  /** The channels owed a wakeup after the data change from d0 to d1 are given by `owed`. */
  ghost predicate Owes<D(!new)>(blocked: (nat, D) -> bool, d0: D, d1: D, owed0: set<nat>, owed1: set<nat>, quiet: set<nat>) {
    forall c: nat :: c in owed1 <==> c in owed0 || (Unblocks(blocked, d0, d1, c) && c !in quiet)
  }

  ghost predicate Next<D(!new)>(n: nat, blocked: (nat, D) -> bool, s: State<D>, e: Step<D>, t: State<D>) {
    && Sized(n, s) && Enabled(n, blocked, s, e)
    && match e
       case Acquire(i) => t == s.(lk := i, pc := s.pc[i := Inside])
       case Release(i) => t == s.(lk := NOBODY, pc := s.pc[i := Outside], owed := {}, quiet := {})
       case Change(i, d) => t == s.(data := d, owed := t.owed) && Owes(blocked, s.data, d, s.owed, t.owed, s.quiet)
       case CallSleep(i, c) => t == s.(pc := s.pc[i := Sleep1(c)])
       case SleepStep(i) =>
         (match s.pc[i]
          case Sleep1(c) => t == s.(plock := s.plock[i := i], pc := s.pc[i := Sleep2(c)])
          case Sleep2(c) => t == s.(lk := NOBODY, owed := {}, quiet := {}, pc := s.pc[i := Sleep3(c)])
          case Sleep3(c) => t == s.(chan := s.chan[i := c], state := s.state[i := Sleeping], pc := s.pc[i := Sleep4(c)])
          case Sleep4(c) => t == s.(plock := s.plock[i := NOBODY], pc := s.pc[i := Asleep(c)])
          case Woken => t == s.(chan := s.chan[i := 0], plock := s.plock[i := NOBODY], pc := s.pc[i := Reacquire])
          case _ => false)
       case Schedule(i) => t == s.(state := s.state[i := Running], plock := s.plock[i := i], pc := s.pc[i := Woken])
       case CallWakeup(i, c) => t == s.(pc := s.pc[i := Wake(c, 0)])
       case WakeStep(i) =>
         (match s.pc[i]
          case Wake(c, k) =>
            if k >= n then t == s.(pc := s.pc[i := Inside], owed := s.owed - {c}, quiet := s.quiet + {c})
            else if k == i then t == s.(pc := s.pc[i := Wake(c, k + 1)])
            else t == s.(plock := s.plock[k := i], pc := s.pc[i := WakeHas(c, k)])
          case WakeHas(c, k) =>
            k < n &&
            t == s.(state := if s.state[k] == Sleeping && s.chan[k] == c then s.state[k := Runnable] else s.state,
                    plock := s.plock[k := NOBODY], pc := s.pc[i := Wake(c, k + 1)])
          case _ => false)
       case Kill(i, j) => t == s.(state := if s.state[j] == Sleeping then s.state[j := Runnable] else s.state)
  }

  // ----- The invariant -----

  predicate HoldsLk(pc: Pc) {
    pc == Inside || pc.Sleep1? || pc.Sleep2? || pc.Wake? || pc.WakeHas?
  }

  predicate HoldsOwn(pc: Pc) {
    pc.Sleep2? || pc.Sleep3? || pc.Sleep4? || pc == Woken
  }

  /** Process i has given up the lock in sleep(c) and has not been made runnable since. */
  predicate Waiting<D>(s: State<D>, i: nat, c: nat)
    requires i < |s.pc| == |s.state|
  {
    s.pc[i] == Sleep3(c) || s.pc[i] == Sleep4(c) || (s.pc[i] == Asleep(c) && s.state[i] == Sleeping)
  }

  ghost predicate ProcOk<D(!new)>(n: nat, blocked: (nat, D) -> bool, s: State<D>, i: nat)
    requires Sized(n, s) && i < n
  {
    && (s.lk == i <==> HoldsLk(s.pc[i]))
    && (s.plock[i] == i <==> HoldsOwn(s.pc[i]))
    && (s.plock[i] == NOBODY || s.plock[i] == i || (0 <= s.plock[i] < n && s.pc[s.plock[i]].WakeHas? && s.pc[s.plock[i]].k == i))
    && (s.pc[i].WakeHas? ==> s.pc[i].k < n && s.pc[i].k != i && s.plock[s.pc[i].k] == i)
    && (match s.pc[i]
        case Sleep4(c) => s.chan[i] == c && s.state[i] == Sleeping
        case Asleep(c) => s.chan[i] == c && s.state[i] != Running
        case _ => s.state[i] == Running)
    && (s.pc[i].Sleep1? || s.pc[i].Sleep2? ==> blocked(s.pc[i].c, s.data))
    && (s.pc[i].Wake? || s.pc[i].WakeHas? ==> Scanned(n, s, i, s.pc[i].c, s.pc[i].k))
  }

  /** Nobody before k waits on c while process i scans. */
  ghost predicate Scanned<D(!new)>(n: nat, s: State<D>, i: nat, c: nat, k: nat)
    requires Sized(n, s)
  {
    forall j: nat {:trigger s.pc[j]} :: j < n && j < k && j != i ==> !Waiting(s, j, c)
  }

  /** Nobody waits on a channel woken up in this critical section. */
  ghost predicate WaitOk<D(!new)>(n: nat, s: State<D>, j: nat)
    requires Sized(n, s) && j < n
  {
    forall c: nat :: Waiting(s, j, c) ==> c !in s.quiet
  }

  ghost predicate Inv<D(!new)>(n: nat, blocked: (nat, D) -> bool, s: State<D>) {
    && Sized(n, s)
    && (forall i: nat :: i < n ==> ProcOk(n, blocked, s, i))
    && (forall j: nat :: j < n ==> WaitOk(n, s, j))
    && (s.lk == NOBODY ==> s.owed == {} && s.quiet == {})
    && (s.lk == NOBODY || 0 <= s.lk < n)
  }

  lemma InitInv<D(!new)>(n: nat, blocked: (nat, D) -> bool, s: State<D>)
    requires Initial(n, s)
    ensures Inv(n, blocked, s)
  {
  }

  /** A step of process i changes no lock but its own, the monitor's, and those it takes in wakeup. */
  lemma StepInv<D(!new)>(n: nat, blocked: (nat, D) -> bool, s: State<D>, e: Step<D>, t: State<D>)
    requires Inv(n, blocked, s) && Next(n, blocked, s, e, t)
    ensures Inv(n, blocked, t)
  {
    assert ProcOk(n, blocked, s, e.i);
    forall i: nat | i < n ensures ProcOk(n, blocked, t, i) {
      assert ProcOk(n, blocked, s, i) && ProcOk(n, blocked, s, e.i);
      StepProc(n, blocked, s, e, t, i);
    }
    forall j: nat | j < n ensures WaitOk(n, t, j) {
      assert ProcOk(n, blocked, s, j) && ProcOk(n, blocked, s, e.i) && WaitOk(n, s, j);
      StepWait(n, blocked, s, e, t, j);
    }
  }

  lemma StepProc<D(!new)>(n: nat, blocked: (nat, D) -> bool, s: State<D>, e: Step<D>, t: State<D>, i: nat)
    requires Inv(n, blocked, s) && Next(n, blocked, s, e, t) && i < n
    ensures ProcOk(n, blocked, t, i)
  {
    assert ProcOk(n, blocked, s, i) && ProcOk(n, blocked, s, e.i);
    if s.pc[i].Wake? || s.pc[i].WakeHas? {
      StepScan(n, blocked, s, e, t, i);
    }
    if i == e.i {
      StepSelf(n, blocked, s, e, t);
    } else {
      StepOther(n, blocked, s, e, t, i);
    }
  }

  lemma StepSelf<D(!new)>(n: nat, blocked: (nat, D) -> bool, s: State<D>, e: Step<D>, t: State<D>)
    requires Inv(n, blocked, s) && Next(n, blocked, s, e, t)
    requires s.pc[e.i].Wake? || s.pc[e.i].WakeHas? ==> t.pc[e.i].Wake? || t.pc[e.i].WakeHas? ==> Scanned(n, t, e.i, t.pc[e.i].c, t.pc[e.i].k)
    ensures ProcOk(n, blocked, t, e.i)
  {
    var i := e.i;
    assert ProcOk(n, blocked, s, i);
    if s.plock[i] != NOBODY && s.plock[i] != i {
      assert ProcOk(n, blocked, s, s.plock[i]);
    }
    if e.Kill? {
      assert ProcOk(n, blocked, s, e.j);
    }
    assert e.CallWakeup? ==> Scanned(n, t, i, e.c, 0);
    hide Scanned;
  }

  lemma OtherWakes<D(!new)>(n: nat, blocked: (nat, D) -> bool, s: State<D>, e: Step<D>, t: State<D>, i: nat)
    requires e.WakeStep?
    requires Inv(n, blocked, s) && Next(n, blocked, s, e, t) && i < n && i != e.i
    requires s.pc[i].Wake? || s.pc[i].WakeHas? ==> t.pc[i].Wake? || t.pc[i].WakeHas? ==> Scanned(n, t, i, t.pc[i].c, t.pc[i].k)
    ensures ProcOk(n, blocked, t, i)
  {
    hide Scanned;
    assert ProcOk(n, blocked, s, i) && ProcOk(n, blocked, s, e.i);
    assert t.pc[i] == s.pc[i];
    if s.plock[i] != NOBODY && s.plock[i] != i {
      assert ProcOk(n, blocked, s, s.plock[i]);
    }
  }

  lemma OtherSleeps<D(!new)>(n: nat, blocked: (nat, D) -> bool, s: State<D>, e: Step<D>, t: State<D>, i: nat)
    requires e.SleepStep?
    requires Inv(n, blocked, s) && Next(n, blocked, s, e, t) && i < n && i != e.i
    requires s.pc[i].Wake? || s.pc[i].WakeHas? ==> t.pc[i].Wake? || t.pc[i].WakeHas? ==> Scanned(n, t, i, t.pc[i].c, t.pc[i].k)
    ensures ProcOk(n, blocked, t, i)
  {
    hide Scanned;
    assert ProcOk(n, blocked, s, i) && ProcOk(n, blocked, s, e.i);
    assert t.pc[i] == s.pc[i];
    if s.plock[i] != NOBODY && s.plock[i] != i {
      assert ProcOk(n, blocked, s, s.plock[i]);
    }
  }

  lemma OtherActs<D(!new)>(n: nat, blocked: (nat, D) -> bool, s: State<D>, e: Step<D>, t: State<D>, i: nat)
    requires !e.WakeStep? && !e.SleepStep?
    requires Inv(n, blocked, s) && Next(n, blocked, s, e, t) && i < n && i != e.i
    requires s.pc[i].Wake? || s.pc[i].WakeHas? ==> t.pc[i].Wake? || t.pc[i].WakeHas? ==> Scanned(n, t, i, t.pc[i].c, t.pc[i].k)
    ensures ProcOk(n, blocked, t, i)
  {
    hide Scanned;
    assert ProcOk(n, blocked, s, i) && ProcOk(n, blocked, s, e.i);
    assert t.pc[i] == s.pc[i];
    if s.plock[i] != NOBODY && s.plock[i] != i {
      assert ProcOk(n, blocked, s, s.plock[i]);
    }
    if e.Kill? {
      assert ProcOk(n, blocked, s, e.j);
    }
  }

  lemma StepOther<D(!new)>(n: nat, blocked: (nat, D) -> bool, s: State<D>, e: Step<D>, t: State<D>, i: nat)
    requires Inv(n, blocked, s) && Next(n, blocked, s, e, t) && i < n && i != e.i
    requires s.pc[i].Wake? || s.pc[i].WakeHas? ==> t.pc[i].Wake? || t.pc[i].WakeHas? ==> Scanned(n, t, i, t.pc[i].c, t.pc[i].k)
    ensures ProcOk(n, blocked, t, i)
  {
    hide ProcOk, Next, Inv, Scanned;
    if e.WakeStep? {
      OtherWakes(n, blocked, s, e, t, i);
    } else if e.SleepStep? {
      OtherSleeps(n, blocked, s, e, t, i);
    } else {
      OtherActs(n, blocked, s, e, t, i);
    }
  }

  /** A scan meets no one who waits on its channel behind it: to start waiting takes the lock. */
  lemma StepScan<D(!new)>(n: nat, blocked: (nat, D) -> bool, s: State<D>, e: Step<D>, t: State<D>, i: nat)
    requires Inv(n, blocked, s) && Next(n, blocked, s, e, t) && i < n
    requires s.pc[i].Wake? || s.pc[i].WakeHas?
    ensures t.pc[i].Wake? || t.pc[i].WakeHas? ==> Scanned(n, t, i, t.pc[i].c, t.pc[i].k)
  {
    assert ProcOk(n, blocked, s, i) && ProcOk(n, blocked, s, e.i);
    if t.pc[i].Wake? || t.pc[i].WakeHas? {
      forall j: nat | j < n && j < t.pc[i].k && j != i ensures !Waiting(t, j, t.pc[i].c) {
        assert ProcOk(n, blocked, s, j);
        assert j < s.pc[i].k ==> !Waiting(s, j, s.pc[i].c);
      }
    }
  }

  lemma StepWait<D(!new)>(n: nat, blocked: (nat, D) -> bool, s: State<D>, e: Step<D>, t: State<D>, j: nat)
    requires Inv(n, blocked, s) && Next(n, blocked, s, e, t) && j < n
    ensures WaitOk(n, t, j)
  {
    assert ProcOk(n, blocked, s, j) && ProcOk(n, blocked, s, e.i) && WaitOk(n, s, j);
  }

  /** A step that gives up the monitor's lock. */
  predicate GivesUp<D>(s: State<D>, e: Step<D>)
    requires e.i < |s.pc|
  {
    e.Release? || (e.SleepStep? && s.pc[e.i].Sleep2?)
  }

  /** Who waits has a reason, or is owed a wakeup, until the lock is given up owing it. */
  lemma StepReason<D(!new)>(n: nat, blocked: (nat, D) -> bool, s: State<D>, e: Step<D>, t: State<D>, j: nat, c: nat)
    requires Inv(n, blocked, s) && Next(n, blocked, s, e, t) && j < n && Sized(n, t) && Waiting(t, j, c)
    requires Waiting(s, j, c) ==> blocked(c, s.data) || c in s.owed
    ensures blocked(c, t.data) || c in t.owed || (GivesUp(s, e) && c in s.owed && Waiting(s, j, c))
  {
    assert ProcOk(n, blocked, s, j) && ProcOk(n, blocked, s, e.i) && WaitOk(n, s, j);
  }

  // ----- Runs -----

  /** The states of a run, with the steps between them; the data changes only as `op` allows. */
  ghost predicate IsRun<D(!new)>(n: nat, blocked: (nat, D) -> bool, op: (D, D) -> bool, run: seq<State<D>>, steps: seq<Step<D>>) {
    && |run| == |steps| + 1 && Initial(n, run[0])
    && forall k: nat :: k < |steps| ==> StepAt(n, blocked, op, run, steps, k)
  }

  ghost predicate StepAt<D(!new)>(n: nat, blocked: (nat, D) -> bool, op: (D, D) -> bool, run: seq<State<D>>, steps: seq<Step<D>>, k: nat)
    requires k < |steps| < |run|
  {
    && Next(n, blocked, run[k], steps[k], run[k + 1])
    && (steps[k].Change? ==> op(run[k].data, steps[k].d))
  }

  lemma {:induction false} RunInv<D(!new)>(n: nat, blocked: (nat, D) -> bool, op: (D, D) -> bool, run: seq<State<D>>, steps: seq<Step<D>>, k: nat)
    requires IsRun(n, blocked, op, run, steps) && k < |run|
    ensures Inv(n, blocked, run[k])
  {
    hide Inv, Next;
    if k == 0 {
      InitInv(n, blocked, run[0]);
    } else {
      RunInv(n, blocked, op, run, steps, k - 1);
      assert StepAt(n, blocked, op, run, steps, k - 1);
      StepInv(n, blocked, run[k - 1], steps[k - 1], run[k]);
    }
  }

  /** What the allowed changes keep, every run keeps. */
  lemma {:induction false} RunData<D(!new)>(n: nat, blocked: (nat, D) -> bool, op: (D, D) -> bool, run: seq<State<D>>, steps: seq<Step<D>>,
                                            ok: D -> bool, k: nat)
    requires IsRun(n, blocked, op, run, steps) && k < |run| && ok(run[0].data)
    requires forall d0, d1 {:trigger op(d0, d1)} :: ok(d0) && op(d0, d1) ==> ok(d1)
    ensures ok(run[k].data)
  {
    if k == 0 {
    } else {
      RunData(n, blocked, op, run, steps, ok, k - 1);
      assert StepAt(n, blocked, op, run, steps, k - 1);
      assert run[k].data == if steps[k - 1].Change? then steps[k - 1].d else run[k - 1].data;
    }
  }

  predicate WaitsAt<D>(run: seq<State<D>>, k: nat, j: nat, c: nat) {
    k < |run| && j < |run[k].pc| == |run[k].state| && Waiting(run[k], j, c)
  }

  /** At time m the lock was given up with a wakeup of c owed, and j has waited on c from then to time k. */
  ghost predicate LostAt<D(!new)>(run: seq<State<D>>, steps: seq<Step<D>>, m: nat, k: nat, j: nat, c: nat) {
    && m < k < |run| && m < |steps| && steps[m].i < |run[m].pc| && GivesUp(run[m], steps[m]) && c in run[m].owed
    && forall x: nat :: m <= x <= k ==> WaitsAt(run, x, j, c)
  }

  lemma {:induction false} Reason<D(!new)>(n: nat, blocked: (nat, D) -> bool, op: (D, D) -> bool, run: seq<State<D>>, steps: seq<Step<D>>,
                                           k: nat, j: nat, c: nat)
    requires IsRun(n, blocked, op, run, steps) && j < n && WaitsAt(run, k, j, c)
    ensures blocked(c, run[k].data) || c in run[k].owed || exists m: nat :: LostAt(run, steps, m, k, j, c)
  {
    if k == 0 {
      assert false;
    } else {
      assert StepAt(n, blocked, op, run, steps, k - 1);
      RunInv(n, blocked, op, run, steps, k - 1);
      RunInv(n, blocked, op, run, steps, k);
      if WaitsAt(run, k - 1, j, c) {
        Reason(n, blocked, op, run, steps, k - 1, j, c);
      }
      if blocked(c, run[k - 1].data) || c in run[k - 1].owed || !WaitsAt(run, k - 1, j, c) {
        StepReason(n, blocked, run[k - 1], steps[k - 1], run[k], j, c);
        if !blocked(c, run[k].data) && c !in run[k].owed {
          assert LostAt(run, steps, k - 1, k, j, c);
        }
      } else {
        var m: nat :| LostAt(run, steps, m, k - 1, j, c);
        assert LostAt(run, steps, m, k, j, c);
      }
    }
  }

  /** With the lock free, j waits on c for nothing. */
  ghost predicate Stranded<D(!new)>(blocked: (nat, D) -> bool, run: seq<State<D>>, k: nat, j: nat, c: nat) {
    WaitsAt(run, k, j, c) && run[k].lk == NOBODY && !blocked(c, run[k].data)
  }

  /** The exact condition for a lost wakeup: the lock was given up while a wakeup of c was owed, by
      release or by sleep on another channel, and the process has been waiting ever since. */
  lemma StrandedExactly<D(!new)>(n: nat, blocked: (nat, D) -> bool, op: (D, D) -> bool, run: seq<State<D>>, steps: seq<Step<D>>,
                                 k: nat, j: nat, c: nat)
    requires IsRun(n, blocked, op, run, steps) && k < |run| && j < n
    ensures Stranded(blocked, run, k, j, c) <==>
            run[k].lk == NOBODY && !blocked(c, run[k].data) && exists m: nat :: LostAt(run, steps, m, k, j, c)
  {
    RunInv(n, blocked, op, run, steps, k);
    if Stranded(blocked, run, k, j, c) {
      Reason(n, blocked, op, run, steps, k, j, c);
    }
  }

  /** Nobody gives up the lock while a wakeup is owed. */
  ghost predicate Disciplined<D(!new)>(run: seq<State<D>>, steps: seq<Step<D>>) {
    forall m: nat :: m < |steps| && m < |run| && steps[m].i < |run[m].pc| && GivesUp(run[m], steps[m]) ==> run[m].owed == {}
  }

  /** No lost wakeup: in every run of disciplined callers, when the lock is free, whoever still waits on
      a channel has reason to: the channel is blocked. */
  lemma NoLostWakeup<D(!new)>(n: nat, blocked: (nat, D) -> bool, op: (D, D) -> bool, run: seq<State<D>>, steps: seq<Step<D>>,
                              k: nat, j: nat, c: nat)
    requires IsRun(n, blocked, op, run, steps) && k < |run| && j < n && Disciplined(run, steps)
    ensures Sized(n, run[k])
    ensures run[k].lk == NOBODY && Waiting(run[k], j, c) ==> blocked(c, run[k].data)
  {
    RunInv(n, blocked, op, run, steps, k);
    StrandedExactly(n, blocked, op, run, steps, k, j, c);
  }

  /** When wakeup(c) has gone through the table, nobody waits on c. */
  lemma WakeupReachesAll<D(!new)>(n: nat, blocked: (nat, D) -> bool, op: (D, D) -> bool, run: seq<State<D>>, steps: seq<Step<D>>,
                                  k: nat, i: nat, c: nat, j: nat)
    requires IsRun(n, blocked, op, run, steps) && k < |run| && i < n && j < n && Sized(n, run[k])
    requires run[k].pc[i] == Wake(c, n)
    ensures !Waiting(run[k], j, c)
  {
    RunInv(n, blocked, op, run, steps, k);
    assert ProcOk(n, blocked, run[k], i);
  }

  /** The only way out of waiting is to be made runnable. */
  lemma WaitEnds<D(!new)>(n: nat, blocked: (nat, D) -> bool, s: State<D>, e: Step<D>, t: State<D>, j: nat, c: nat)
    requires Inv(n, blocked, s) && Next(n, blocked, s, e, t) && j < n && Sized(n, t) && Waiting(s, j, c) && !Waiting(t, j, c)
    ensures t.pc[j] == Asleep(c) && t.state[j] == Runnable
  {
    assert ProcOk(n, blocked, s, j) && ProcOk(n, blocked, s, e.i);
  }

  /** So a process that waits on c at time a, and finds wakeup(c) completed at time b, was made
      runnable in between. */
  lemma {:induction false} MadeRunnable<D(!new)>(n: nat, blocked: (nat, D) -> bool, op: (D, D) -> bool, run: seq<State<D>>, steps: seq<Step<D>>,
                                                 a: nat, b: nat, i: nat, c: nat, j: nat) returns (m: nat)
    requires IsRun(n, blocked, op, run, steps) && a <= b < |run| && i < n && j < n && Sized(n, run[a]) && Sized(n, run[b])
    requires Waiting(run[a], j, c) && run[b].pc[i] == Wake(c, n)
    ensures a < m <= b && Sized(n, run[m]) && run[m].pc[j] == Asleep(c) && run[m].state[j] == Runnable
    decreases b - a
  {
    WakeupReachesAll(n, blocked, op, run, steps, b, i, c, j);
    assert StepAt(n, blocked, op, run, steps, a);
    RunInv(n, blocked, op, run, steps, a);
    RunInv(n, blocked, op, run, steps, a + 1);
    if Waiting(run[a + 1], j, c) {
      m := MadeRunnable(n, blocked, op, run, steps, a + 1, b, i, c, j);
    } else {
      WaitEnds(n, blocked, run[a], steps[a], run[a + 1], j, c);
      m := a + 1;
    }
  }

  /** The monitor's lock excludes: two processes are never both past acquire. */
  lemma LockExcludes<D(!new)>(n: nat, blocked: (nat, D) -> bool, op: (D, D) -> bool, run: seq<State<D>>, steps: seq<Step<D>>, k: nat, i: nat, j: nat)
    requires IsRun(n, blocked, op, run, steps) && k < |run| && i < n && j < n && Sized(n, run[k])
    ensures HoldsLk(run[k].pc[i]) && HoldsLk(run[k].pc[j]) ==> i == j
  {
    RunInv(n, blocked, op, run, steps, k);
    assert ProcOk(n, blocked, run[k], i) && ProcOk(n, blocked, run[k], j);
  }
}
