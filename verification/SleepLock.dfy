/** xv6-riscv/kernel/sleeplock.c: a lock held across sleeps, as the data of a sleep/wakeup monitor. */
module SleepLock {
  import S = SleepWakeup

  /** The channel &lk. */
  const LOCK: nat := 0

  /** struct sleeplock, with the processes that returned from acquiresleep and have not called
      releasesleep since. */
  datatype Data = Data(locked: bool, pid: nat, holders: set<nat>)

  predicate Blocked(c: nat, d: Data) { c == LOCK && d.locked }

  /** locked is set exactly while somebody holds the lock, nobody else does, and pid is the holder's. */
  ghost predicate Ok(pids: nat -> nat, d: Data) {
    && (d.locked <==> d.holders != {})
    && forall i :: i in d.holders ==> d.holders == {i} && d.pid == pids(i)
  }

  /** A change that process i makes under the spinlock: only a holder releases. */
  predicate OpBy(pids: nat -> nat, d0: Data, d1: Data, i: nat) {
    || (!d0.locked && d1 == Data(true, pids(i), d0.holders + {i}))
    || (i in d0.holders && d1 == Data(false, 0, d0.holders - {i}))
  }

  ghost predicate Op(pids: nat -> nat, d0: Data, d1: Data) {
    exists i: nat :: OpBy(pids, d0, d1, i)
  }

  /** In every interleaving of acquiresleep, releasesleep, sleeps, wakeups and kills: at most one process
      holds the sleep-lock, and holdingsleep tells it alone.  When no section ends owing a wakeup, as Code
      shows of these, a process that waits for the sleep-lock with the spinlock free waits for somebody. */
  lemma Excludes(n: nat, pids: nat -> nat, run: seq<S.State<Data>>, steps: seq<S.Step<Data>>, k: nat, i: nat, j: nat)
    requires S.IsRun(n, Blocked, (d0, d1) => Op(pids, d0, d1), run, steps) && k < |run| && run[0].data == Data(false, 0, {})
    requires forall x: nat, y: nat :: pids(x) == pids(y) ==> x == y
    ensures i in run[k].data.holders && j in run[k].data.holders ==> i == j
    ensures run[k].data.locked && run[k].data.pid == pids(i) <==> i in run[k].data.holders
    ensures S.Sized(n, run[k])
    ensures S.Disciplined(run, steps) && j < n && run[k].lk == S.NOBODY && S.Waiting(run[k], j, LOCK) ==> exists h :: run[k].data.holders == {h}
  {
    var op := (d0, d1) => Op(pids, d0, d1);
    var ok := (d: Data) => Ok(pids, d);
    forall d0, d1 {:trigger op(d0, d1)} | ok(d0) && op(d0, d1) ensures ok(d1) {
      var p: nat :| OpBy(pids, d0, d1, p);
    }
    S.RunData(n, Blocked, op, run, steps, ok, k);
    S.RunInv(n, Blocked, op, run, steps, k);
    assert Ok(pids, run[k].data);
    if j < n && S.Disciplined(run, steps) {
      S.NoLostWakeup(n, Blocked, op, run, steps, k, j, LOCK);
    }
    if run[k].data.locked {
      var h :| h in run[k].data.holders;
    }
  }

  /** The critical sections. */
  class Code {
    var locked: bool
    var pid: nat
    ghost var holders: set<nat>
    /** Channels owed a wakeup in this critical section. */
    ghost var owed: set<nat>

    ghost function D(): Data
      reads this
    {
      Data(locked, pid, holders)
    }

    /** initsleeplock. */
    constructor ()
      ensures D() == Data(false, 0, {}) && owed == {}
    {
      locked, pid, holders, owed := false, 0, {}, {};
    }

    /** One turn of the loop of acquiresleep by process i, up to where it lets go of the spin lock or sleeps on it,
        and then with the lock blocked. */
    method Acquire(pids: nat -> nat, i: nat) returns (got: bool)
      requires Ok(pids, D()) && owed == {}
      modifies this
      ensures Ok(pids, D()) && owed == {} && (got <==> !old(locked))
      ensures if got then OpBy(pids, old(D()), D(), i) && i in holders else D() == old(D()) && Blocked(LOCK, D())
      ensures forall c: nat :: !S.Unblocks(Blocked, old(D()), D(), c)
    {
      got := !locked;
      if got {
        locked := true;
        pid := pids(i);
        holders := holders + {i};
      }
    }

    /** releasesleep by the holder i: it unblocks the channel, and wakes it. */
    method Release(pids: nat -> nat, i: nat)
      requires Ok(pids, D()) && i in holders && owed == {}
      modifies this
      ensures Ok(pids, D()) && OpBy(pids, old(D()), D(), i) && owed == {} && !locked && holders == {}
      ensures forall c: nat :: S.Unblocks(Blocked, old(D()), D(), c) <==> c == LOCK
    {
      locked := false;
      pid := 0;
      holders := holders - {i};
      owed := owed + {LOCK};
      Wakeup(LOCK);
    }

    method Wakeup(ghost c: nat)
      modifies this`owed
      ensures owed == old(owed) - {c}
    {
      owed := owed - {c};
    }

    /** holdingsleep by process i: 1 iff that process holds the lock. */
    method Holding(pids: nat -> nat, i: nat) returns (r: bool)
      requires Ok(pids, D()) && forall x: nat, y: nat :: pids(x) == pids(y) ==> x == y
      ensures r <==> i in holders
    {
      r := locked && pid == pids(i);
      if locked {
        ghost var h :| h in holders;
      }
    }
  }
}
