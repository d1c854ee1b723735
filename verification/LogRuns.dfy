/** What every run of the log protocol guarantees: crash safety, all-or-nothing operations,
    durability, and the log-space budget. */
module LogRuns {
  import opened LogProtocol

  /** A run: states joined by enabled actions, from power-on. */
  ghost predicate IsRun(c: Config, run: seq<State>, acts: seq<Action>) {
    && |run| == |acts| + 1
    && Init(c, run[0])
    && forall i {:trigger acts[i]} :: 0 <= i < |acts| ==>
         Enabled(c, run[i], acts[i]) && run[i + 1] == Next(c, run[i], acts[i])
  }

  lemma {:induction false} RunInv(c: Config, run: seq<State>, acts: seq<Action>, i: nat)
    requires IsRun(c, run, acts) && i < |run|
    ensures Inv(c, run[i])
  {
    InitInv(c, run[0]);
    if i == 0 {
    } else {
      RunInv(c, run, acts, i - 1);
      assert run[i] == Next(c, run[i - 1], acts[i - 1]);
      StepInv(c, run[i - 1], acts[i - 1]);
    }
  }

  // ----- Crash safety -----

  /** Pull the plug anywhere in any run, even during an earlier recovery: recovery, and every
      interrupted prefix of it, yields the initial disk plus the whole groups committed so far. */
  lemma CrashSafety(c: Config, run: seq<State>, acts: seq<Action>, i: nat)
    requires IsRun(c, run, acts) && i < |run|
    ensures var d := run[i].disk; var v := Replay(run[0].disk, run[i].txns);
            && ValidHead(c, d)
            && AgreeHome(c, Recover(c, d), v)
            && forall k {:trigger Install(c, d, Head(c, d), k)} :: 0 <= k <= |Head(c, d)| ==>
                 var e := Install(c, d, Head(c, d), k);
                 ValidHead(c, e) && AgreeHome(c, Recover(c, e), v)
  {
    RunInv(c, run, acts, i);
    CommittedIsReplay(c, run, acts, i);
    InvRecovers(c, run[i]);
    var d, v := run[i].disk, run[i].committed;
    RecoverRestores(c, d, v);
    forall k {:trigger Install(c, d, Head(c, d), k)} | 0 <= k <= |Head(c, d)|
      ensures ValidHead(c, Install(c, d, Head(c, d), k))
      ensures AgreeHome(c, Recover(c, Install(c, d, Head(c, d), k)), v)
    {
      RecoverRestores(c, Install(c, d, Head(c, d), k), v);
    }
  }

  lemma {:induction false} CommittedIsReplay(c: Config, run: seq<State>, acts: seq<Action>, i: nat)
    requires IsRun(c, run, acts) && i < |run|
    ensures run[i].committed == Replay(run[0].disk, run[i].txns)
  {
    if i == 0 {
    } else {
      CommittedIsReplay(c, run, acts, i - 1);
      RunInv(c, run, acts, i - 1);
      var s := run[i - 1];
      assert run[i] == Next(c, s, acts[i - 1]);
      assert (s.txns + [s.pending])[..|s.txns|] == s.txns;
    }
  }

  // ----- All or nothing -----

  predicate Decisive(a: Action) { a.WriteHead? || a.Crash? }

  /** The first header write or crash in acts[i..j], or j. */
  function Decision(acts: seq<Action>, i: nat, j: nat): (k: nat)
    requires i <= j <= |acts|
    ensures i <= k <= j && (k < j ==> Decisive(acts[k])) && forall m :: i <= m < k ==> !Decisive(acts[m])
    decreases j - i
  {
    if i == j || Decisive(acts[i]) then i else Decision(acts, i + 1, j)
  }

  lemma {:induction false} Undecided(c: Config, run: seq<State>, acts: seq<Action>, i: nat, k: nat)
    requires IsRun(c, run, acts) && i <= k < |run|
    requires forall m :: i <= m < k ==> !Decisive(acts[m])
    ensures run[i].pending <= run[k].pending && run[k].txns == run[i].txns
    ensures run[k].committed == run[i].committed
    decreases k
  {
    if i == k {
    } else {
      Undecided(c, run, acts, i, k - 1);
      assert run[k] == Next(c, run[k - 1], acts[k - 1]);
      assert !Decisive(acts[k - 1]);
    }
  }

  lemma {:induction false} CommittedStays(c: Config, run: seq<State>, acts: seq<Action>, i: nat, j: nat)
    requires IsRun(c, run, acts) && i <= j < |run|
    ensures run[i].txns <= run[j].txns
    decreases j
  {
    if i == j {
    } else {
      CommittedStays(c, run, acts, i, j - 1);
      assert run[j] == Next(c, run[j - 1], acts[j - 1]);
    }
  }

  /** The updates pending at any moment share one fate: the next header write commits them all, in
      one group, for good, while no operation is open; a crash before it loses them all. */
  lemma AllOrNothing(c: Config, run: seq<State>, acts: seq<Action>, i: nat, j: nat)
    requires IsRun(c, run, acts) && i <= j < |run|
    ensures var k := Decision(acts, i, j);
            && run[i].pending <= run[k].pending && run[k].txns == run[i].txns
            && (k < j && acts[k].WriteHead? ==>
                  && run[k].open == []
                  && run[i].txns + [run[k].pending] <= run[j].txns
                  && run[k + 1].committed == run[k].live)
            && (k < j && acts[k].Crash? ==>
                  run[k + 1].txns == run[i].txns && run[k + 1].pending == [] && run[k + 1].live == run[i].committed)
  {
    var k := Decision(acts, i, j);
    Undecided(c, run, acts, i, k);
    if k < j {
      RunInv(c, run, acts, k);
      assert run[k + 1] == Next(c, run[k], acts[k]);
      CommittedStays(c, run, acts, k + 1, j);
    }
  }

  /** No header write happens while an operation is open, so none is committed in part. */
  lemma OpenOpsHoldCommit(c: Config, s: State, a: Action)
    requires Inv(c, s) && Enabled(c, s, a) && s.open != []
    ensures Next(c, s, a).committed == s.committed
    ensures a.Crash? || s.pending <= Next(c, s, a).pending
  {
  }

  // ----- Durability -----

  /** committing is set and cleared: the states strictly between have a commit under way. */
  ghost predicate Returns(run: seq<State>, i: nat, j: nat)
  {
    i < j < |run| && run[j].phase == Idle && forall k :: i < k < j ==> run[k].phase != Idle
  }

  /** When the last outstanding end_op returns, everything written before it is committed. */
  lemma EndOpDurable(c: Config, run: seq<State>, acts: seq<Action>, i: nat, j: nat)
    requires IsRun(c, run, acts) && Returns(run, i, j)
    requires acts[i].EndOp? && |run[i].open| == 1
    requires forall k :: i <= k < j ==> !acts[k].Crash?
    ensures run[j].committed == run[i].live && run[j].live == run[i].live && run[j].pending == []
  {
    RunInv(c, run, acts, i);
    assert run[i + 1] == Next(c, run[i], acts[i]);
    RunInv(c, run, acts, i + 1);
    if run[i + 1].phase == Idle {
      assert j == i + 1;
    } else {
      Committing(c, run, acts, i + 1, j - 1);
      RunInv(c, run, acts, j - 1);
      assert run[j] == Next(c, run[j - 1], acts[j - 1]);
    }
  }

  lemma {:induction false} Committing(c: Config, run: seq<State>, acts: seq<Action>, i: nat, k: nat)
    requires IsRun(c, run, acts) && i <= k < |run| && run[i].phase == Logging(0)
    requires forall m :: i <= m <= k ==> run[m].phase != Idle
    requires forall m :: i <= m < k ==> !acts[m].Crash?
    ensures run[k].phase.Logging? || run[k].phase.Installing?
    ensures run[k].live == run[i].live
    decreases k
  {
    if i == k {
    } else {
      Committing(c, run, acts, i, k - 1);
      assert !acts[k - 1].Crash? && run[k - 1].phase != Idle;
      RunInv(c, run, acts, k - 1);
      assert run[k] == Next(c, run[k - 1], acts[k - 1]);
    }
  }

  /** Group commit: an end_op returns with its updates durable exactly when it is the last
      outstanding one (or there was nothing to commit).  Otherwise it returns at once, and a crash
      right then loses the updates. */
  lemma EndOpDelayed(c: Config, s: State, who: nat)
    requires Inv(c, s) && Enabled(c, s, EndOp(who)) && |s.open| > 1
    ensures var n := Next(c, s, EndOp(who));
            && n.phase == Idle && n.committed == s.committed && n.pending == s.pending
            && Inv(c, n) && Next(c, n, Crash).live == s.committed
  {
    StepInv(c, s, EndOp(who));
  }

  // ----- Log space -----

  /** Blocks still reserved by the open operations. */
  ghost function Reserved(c: Config, open: seq<OpenOp>): int {
    if open == [] then 0 else Reserved(c, open[..|open| - 1]) + c.maxOpBlocks - open[|open| - 1].used
  }

  ghost predicate Modest(s: State, k: nat) {
    forall i :: 0 <= i < |s.open| ==> s.open[i].used <= k
  }

  lemma {:induction false} ReservedDrop(c: Config, open: seq<OpenOp>, i: nat)
    requires i < |open|
    ensures Reserved(c, open[..i] + open[i + 1..]) == Reserved(c, open) - (c.maxOpBlocks - open[i].used)
  {
    var n := |open| - 1;
    if i == n {
      assert open[..i] + open[i + 1..] == open[..n];
    } else {
      ReservedDrop(c, open[..n], i);
      assert (open[..i] + open[i + 1..])[..n - 1] == open[..n][..i] + open[..n][i + 1..];
    }
  }

  lemma {:induction false} ReservedUpdate(c: Config, open: seq<OpenOp>, i: nat, o: OpenOp)
    requires i < |open|
    ensures Reserved(c, open[i := o]) == Reserved(c, open) + open[i].used - o.used
  {
    var n := |open| - 1;
    if i == n {
      assert open[i := o][..n] == open[..n];
    } else {
      ReservedUpdate(c, open[..n], i, o);
      assert open[i := o][..n] == open[..n][i := o];
    }
  }

  lemma {:induction false} ReservedBound(c: Config, open: seq<OpenOp>, k: nat)
    requires forall i :: 0 <= i < |open| ==> open[i].used <= k
    ensures (c.maxOpBlocks - k) * |open| <= Reserved(c, open) <= |open| * c.maxOpBlocks
  {
    if open == [] {
    } else {
      ReservedBound(c, open[..|open| - 1], k);
      var n := |open| - 1;
      assert (c.maxOpBlocks - k) * |open| == (c.maxOpBlocks - k) * n + (c.maxOpBlocks - k);
    }
  }

  /** Blocks already logged plus blocks still reserved fit the log. */
  ghost predicate Budget(c: Config, s: State) {
    s.phase == Idle && s.open != [] ==> |s.lh| + Reserved(c, s.open) <= c.logSize
  }

  lemma BeginBudget(c: Config, s: State, id: nat)
    requires |s.lh| + (|s.open| + 1) * c.maxOpBlocks <= c.logSize && Modest(s, c.maxOpBlocks)
    ensures |s.lh| + Reserved(c, s.open + [OpenOp(id, 0)]) <= c.logSize
  {
    ReservedBound(c, s.open, c.maxOpBlocks);
    assert (s.open + [OpenOp(id, 0)])[..|s.open|] == s.open;
    assert (|s.open| + 1) * c.maxOpBlocks == |s.open| * c.maxOpBlocks + c.maxOpBlocks;
  }

  lemma OpBudget(c: Config, s: State, a: Action)
    requires a.BeginOp? || a.LogWrite? || a.EndOp?
    requires Enabled(c, s, a) && Budget(c, s) && Modest(s, c.maxOpBlocks)
    ensures Budget(c, Next(c, s, a))
  {
    match a {
      case BeginOp(id) => BeginBudget(c, s, id);
      case LogWrite(i, _, _) => ReservedUpdate(c, s.open, i, OpenOp(s.open[i].id, s.open[i].used + 1));
      case EndOp(i) => ReservedDrop(c, s.open, i);
    }
  }

  lemma StepBudget(c: Config, s: State, a: Action)
    requires Inv(c, s) && Enabled(c, s, a) && Budget(c, s) && Modest(s, c.maxOpBlocks)
    ensures Budget(c, Next(c, s, a))
  {
    if a.BeginOp? || a.LogWrite? || a.EndOp? {
      OpBudget(c, s, a);
    }
  }

  lemma {:induction false} RunBudget(c: Config, run: seq<State>, acts: seq<Action>, i: nat)
    requires IsRun(c, run, acts) && i < |run|
    requires forall m :: 0 <= m < i ==> Modest(run[m], c.maxOpBlocks)
    ensures Budget(c, run[i])
  {
    if i == 0 {
    } else {
      RunBudget(c, run, acts, i - 1);
      RunInv(c, run, acts, i - 1);
      assert Modest(run[i - 1], c.maxOpBlocks);
      StepBudget(c, run[i - 1], acts[i - 1]);
      assert run[i] == Next(c, run[i - 1], acts[i - 1]);
    }
  }

  /** If every operation appends at most MAXOPBLOCKS - 2 blocks and the log area holds LOGSIZE
      blocks, header included, no log_write ever finds the log full. */
  lemma NeverFull(c: Config, run: seq<State>, acts: seq<Action>, i: nat)
    requires IsRun(c, run, acts) && i < |run| && c.size >= c.logSize && c.maxOpBlocks >= 2
    requires forall m :: 0 <= m <= i ==> Modest(run[m], c.maxOpBlocks - 2)
    requires run[i].phase == Idle && run[i].open != []
    ensures !LogFull(c, |run[i].lh|)
  {
    forall m | 0 <= m < i ensures Modest(run[m], c.maxOpBlocks) {
      assert Modest(run[m], c.maxOpBlocks - 2);
    }
    RunBudget(c, run, acts, i);
    assert Modest(run[i], c.maxOpBlocks - 2);
    ReservedBound(c, run[i].open, c.maxOpBlocks - 2);
  }

  /** With the shipped constants one operation at a time is open, it starts on an empty log, and
      its own appended blocks are all that the log holds. */
  ghost predicate Solo(s: State) {
    |s.open| <= 1 && (s.phase == Idle ==> |s.lh| == if s.open == [] then 0 else s.open[0].used)
  }

  lemma {:induction false} ShippedSolo(run: seq<State>, acts: seq<Action>, i: nat)
    requires IsRun(SHIPPED, run, acts) && i < |run|
    ensures Solo(run[i])
  {
    if i == 0 {
    } else {
      ShippedSolo(run, acts, i - 1);
      RunInv(SHIPPED, run, acts, i - 1);
      assert run[i] == Next(SHIPPED, run[i - 1], acts[i - 1]);
    }
  }

  /** So a log_write panics "too big a transaction" exactly when its operation has already
      appended 15 blocks, one short of MAXOPBLOCKS, even if the block is one of those 15. */
  lemma ShippedPanic(run: seq<State>, acts: seq<Action>, i: nat)
    requires IsRun(SHIPPED, run, acts) && i < |run| && run[i].phase == Idle && run[i].open != []
    ensures LogFull(SHIPPED, |run[i].lh|) <==> run[i].open[0].used >= SHIPPED.maxOpBlocks - 1
  {
    ShippedSolo(run, acts, i);
  }

  lemma Extend(c: Config, run: seq<State>, acts: seq<Action>, a: Action) returns (longer: seq<State>)
    requires IsRun(c, run, acts) && |run| == |acts| + 1 && Enabled(c, run[|acts|], a)
    ensures IsRun(c, longer, acts + [a]) && longer == run + [Next(c, run[|acts|], a)]
  {
    longer := run + [Next(c, run[|acts|], a)];
    var more := acts + [a];
    forall i {:trigger more[i]} | 0 <= i < |more|
      ensures Enabled(c, longer[i], more[i]) && longer[i + 1] == Next(c, longer[i], more[i])
    {
      if i < |acts| { assert more[i] == acts[i]; }
    }
  }

  /** Power-on with an empty log, then an operation that has read some home blocks. */
  lemma FirstOp(c: Config, s0: State, blocks: seq<nat>) returns (run: seq<State>, acts: seq<Action>)
    requires Init(c, s0) && c.maxOpBlocks <= c.logSize && forall i :: 0 <= i < |blocks| ==> blocks[i] < c.total
    ensures IsRun(c, run, acts) && |run| == |acts| + 1 && run[0] == s0
    ensures var s := run[|acts|];
            s.phase == Idle && s.open == [OpenOp(0, 0)] && s.lh == [] && forall b :: b in blocks ==> b in s.cache
  {
    hide IsRun, Inv;
    run, acts := [s0], [];
    assert IsRun(c, run, acts) by { StartRun(c, s0); }
    run := Extend(c, run, acts, ReadHead);
    acts := acts + [ReadHead];
    run := Extend(c, run, acts, ClearHead);
    acts := acts + [ClearHead];
    run := Extend(c, run, acts, BeginOp(0));
    acts := acts + [BeginOp(0)];
    var s := run[3];
    var m := map b: nat | b in blocks :: s.disk[b];
    run := Extend(c, run, acts, MoveCache(m));
    acts := acts + [MoveCache(m)];
  }

  lemma StartRun(c: Config, s0: State)
    requires Init(c, s0)
    ensures IsRun(c, [s0], [])
  {
  }

  /** Such a run exists: an operation that logs any 15 different blocks after power-on leaves a state
      in which the next log_write panics. */
  lemma PanicReached(s0: State, blocks: seq<nat>, data: seq<Block>) returns (run: seq<State>, acts: seq<Action>)
    requires Init(SHIPPED, s0) && |blocks| == |data| == 15 && Distinct(blocks)
    requires forall i :: 0 <= i < 15 ==> IsHome(SHIPPED, blocks[i]) && |data[i]| == SHIPPED.words
    ensures IsRun(SHIPPED, run, acts) && |run| == |acts| + 1 && run[0] == s0
    ensures var s := run[|acts|]; s.phase == Idle && s.open != [] && s.lh == blocks && LogFull(SHIPPED, |s.lh|)
  {
    hide IsRun, Init, Distinct;
    run, acts := FirstOp(SHIPPED, s0, blocks);
    assert blocks[..0] == [];
    var i := 0;
    while i < 15
      invariant i <= 15 && IsRun(SHIPPED, run, acts) && |run| == |acts| + 1 && run[0] == s0
      invariant var s := run[|acts|];
                s.phase == Idle && |s.open| == 1 && s.lh == blocks[..i] && forall b :: b in blocks ==> b in s.cache
    {
      run := Extend(SHIPPED, run, acts, LogWrite(0, blocks[i], data[i]));
      acts := acts + [LogWrite(0, blocks[i], data[i])];
      NewBlock(blocks, i);
      i := i + 1;
    }
    assert blocks[..i] == blocks;
  }

  lemma NewBlock(blocks: seq<nat>, i: nat)
    requires Distinct(blocks) && i < |blocks|
    ensures blocks[i] !in blocks[..i] && blocks[..i + 1] == blocks[..i] + [blocks[i]]
  {
  }

  /** And every end_op is the last outstanding one, hence durable when it returns. */
  lemma ShippedDurable(run: seq<State>, acts: seq<Action>, i: nat, j: nat)
    requires IsRun(SHIPPED, run, acts) && Returns(run, i, j) && acts[i].EndOp?
    requires forall k :: i <= k < j ==> !acts[k].Crash?
    ensures run[j].committed == run[i].live && run[j].pending == []
  {
    ShippedSolo(run, acts, i);
    RunInv(SHIPPED, run, acts, i);
    assert Enabled(SHIPPED, run[i], acts[i]);
    EndOpDurable(SHIPPED, run, acts, i, j);
  }
}
