/** Crashes and files together: the file system's operations over the log protocol.  Whatever the moment
    of the crash, recovery gives the disk as it was between two whole operations. */
module FsCrash {
  import opened FsModel
  import opened FsCode
  import P = LogProtocol
  import R = LogRuns

  /** Where mkfs puts things, and the blocks that no operation writes (boot and super block). */
  datatype Layout = Layout(c: P.Config, g: Geometry, ib: nat, bb: nat, fixed: P.Disk)

  /** mkfs.c: log, inode blocks, bitmap blocks, data blocks, in this order. */
  ghost predicate LaidOut(l: Layout, s: Snap) {
    && l.c.total == l.g.size == |s.disk| && l.c.words == 128 && |l.fixed| == l.g.size
    && l.c.start + l.c.size <= l.ib && l.ib + (|s.dinodes| + 7) / 8 <= l.bb && l.bb + |s.bm| / BSIZE <= l.g.nmeta
    && |s.bm| % BSIZE == 0
  }

  // ----- The file system as blocks of words -----

  /** A data block, or an indirect one. */
  function DataWords(b: Block): P.Block {
    seq(128, j requires 0 <= j < 128 => Word(b, j))
  }

  function BitWord(bm: seq<bv8>, i: nat): nat
    requires i + 3 < |bm|
  {
    (bm[i] as int) + 256 * (bm[i + 1] as int) + 65536 * (bm[i + 2] as int) + 16777216 * (bm[i + 3] as int)
  }

  /** Bitmap block k. */
  function BitWords(bm: seq<bv8>, k: nat): P.Block
    requires (k + 1) * BSIZE <= |bm|
  {
    seq(128, j requires 0 <= j < 128 => BitWord(bm, k * BSIZE + 4 * j))
  }

  /** struct dinode: four short fields, the size, and the 13 block numbers. */
  function InodeWord(i: Inode, j: nat): nat {
    if j == 0 then i.typ + 65536 * i.major
    else if j == 1 then i.minor + 65536 * i.nlink
    else if j == 2 then i.size
    else if j - 3 < |i.addrs| then i.addrs[j - 3] else 0
  }

  /** Inode block k; the last one may not be full. */
  function InodeWords(inodes: seq<Inode>, k: nat): P.Block {
    seq(128, j requires 0 <= j < 128 => if 8 * k + j / 16 < |inodes| then InodeWord(inodes[8 * k + j / 16], j % 16) else 0)
  }

  /** Block b of the file system's disk. */
  ghost function ViewBlock(l: Layout, s: Snap, b: nat): P.Block
    requires LaidOut(l, s) && b < l.g.size
  {
    if b >= l.g.nmeta then DataWords(s.disk[b])
    else if l.bb <= b < l.bb + |s.bm| / BSIZE then BitWords(s.bm, b - l.bb)
    else if l.ib <= b < l.ib + (|s.dinodes| + 7) / 8 then InodeWords(s.dinodes, b - l.ib)
    else l.fixed[b]
  }

  /** v shows the file system s, outside the log. */
  ghost predicate Shows(l: Layout, s: Snap, v: P.Disk) {
    LaidOut(l, s) && |v| == l.g.size && forall b: nat :: P.IsHome(l.c, b) ==> v[b] == ViewBlock(l, s, b)
  }

  /** A block that was not logged is as before. */
  lemma ViewFrame(l: Layout, s0: Snap, s1: Snap, b: nat)
    requires LaidOut(l, s0) && LaidOut(l, s1) && Logs(l.ib, l.bb, s0.(logged := {}), s1) && b < l.g.size && b !in s1.logged
    ensures ViewBlock(l, s1, b) == ViewBlock(l, s0, b)
  {
    if b >= l.g.nmeta {
    } else if l.bb <= b < l.bb + |s0.bm| / BSIZE {
      BitsFrame(l, s0, s1, b - l.bb);
    } else if l.ib <= b < l.ib + (|s0.dinodes| + 7) / 8 {
      InodesFrame(l, s0, s1, b - l.ib);
    }
  }

  lemma BitsFrame(l: Layout, s0: Snap, s1: Snap, k: nat)
    requires Logs(l.ib, l.bb, s0.(logged := {}), s1) && (k + 1) * BSIZE <= |s0.bm| && k + l.bb !in s1.logged
    ensures BitWords(s1.bm, k) == BitWords(s0.bm, k)
  {
    forall i | k * BSIZE <= i < (k + 1) * BSIZE ensures s1.bm[i] == s0.bm[i] {
      assert i / BSIZE == k;
    }
  }

  lemma InodesFrame(l: Layout, s0: Snap, s1: Snap, k: nat)
    requires Logs(l.ib, l.bb, s0.(logged := {}), s1) && k + l.ib !in s1.logged
    ensures InodeWords(s1.dinodes, k) == InodeWords(s0.dinodes, k)
  {
    forall m | 8 * k <= m < 8 * k + 8 && m < |s0.dinodes| ensures s1.dinodes[m] == s0.dinodes[m] {
      assert m / 8 == k;
    }
  }

  // ----- An operation's log_writes -----

  /** The last update of block b, if there is one. */
  ghost function Last(us: seq<P.Update>, b: nat): (r: seq<P.Block>)
    ensures |r| <= 1
  {
    if us == [] then []
    else if us[|us| - 1].blockno == b then [us[|us| - 1].data]
    else Last(us[..|us| - 1], b)
  }

  lemma {:induction false} ApplyLast(v: P.Disk, us: seq<P.Update>, b: nat)
    requires b < |v|
    ensures P.Apply(v, us)[b] == if Last(us, b) == [] then v[b] else Last(us, b)[0]
  {
    if us == [] {
    } else {
      ApplyLast(v, us[..|us| - 1], b);
    }
  }

  /** The updates of an operation that ended in s1: they are to blocks it logged, each of which is left
      as in s1. */
  ghost predicate Carries(l: Layout, us: seq<P.Update>, s1: Snap)
    requires LaidOut(l, s1)
  {
    forall b: nat :: b < l.g.size ==> Last(us, b) == if b in s1.logged then [ViewBlock(l, s1, b)] else []
  }

  /** Such updates take the one state to the other. */
  lemma OneStep(l: Layout, v: P.Disk, s0: Snap, us: seq<P.Update>, s1: Snap)
    requires Shows(l, s0, v) && LaidOut(l, s1) && Step(l.g, l.ib, l.bb, s0, s1) && Carries(l, us, s1)
    ensures Shows(l, s1, P.Apply(v, us))
  {
    hide Whole, Logs, LaidOut;
    forall b: nat | P.IsHome(l.c, b) ensures b < l.g.size && P.Apply(v, us)[b] == ViewBlock(l, s1, b) {
      HomeBound(l, s0, b);
      ApplyLast(v, us, b);
      if b !in s1.logged {
        ViewFrame(l, s0, s1, b);
      }
    }
  }

  lemma HomeBound(l: Layout, s: Snap, b: nat)
    requires LaidOut(l, s) && P.IsHome(l.c, b)
    ensures b < l.g.size
  {
  }

  /** One update for each logged block is enough. */
  lemma {:induction false} UpdatesFor(l: Layout, s1: Snap, n: nat) returns (us: seq<P.Update>, blocks: set<nat>)
    requires LaidOut(l, s1) && n <= l.g.size
    ensures forall b: nat :: b < l.g.size ==> Last(us, b) == if b in s1.logged && b < n then [ViewBlock(l, s1, b)] else []
    ensures forall u :: u in us ==> u.op == 0 && u.blockno in s1.logged && u.blockno < n && u.data == ViewBlock(l, s1, u.blockno)
    ensures |us| == |blocks| && blocks <= s1.logged && forall b :: b in blocks ==> b < n
  {
    hide LaidOut, ViewBlock;
    if n == 0 {
      us, blocks := [], {};
    } else {
      us, blocks := UpdatesFor(l, s1, n - 1);
      if n - 1 in s1.logged {
        LastMore(l, s1, n - 1, us);
        us, blocks := us + [P.Update(0, n - 1, ViewBlock(l, s1, n - 1))], blocks + {n - 1};
      }
    }
  }

  lemma LastMore(l: Layout, s1: Snap, n: nat, us: seq<P.Update>)
    requires LaidOut(l, s1) && n < l.g.size
    ensures forall b: nat {:trigger Last(us + [P.Update(0, n, ViewBlock(l, s1, n))], b)} :: b < l.g.size ==>
              Last(us + [P.Update(0, n, ViewBlock(l, s1, n))], b) == if b == n then [ViewBlock(l, s1, b)] else Last(us, b)
  {
    hide LaidOut, ViewBlock;
    var more := us + [P.Update(0, n, ViewBlock(l, s1, n))];
    assert more[..|more| - 1] == us;
  }

  // ----- Runs of the log, section by section -----

  /** What the operation that is open after acts[..j], or was the last to be, has passed to log_write. */
  function Writes(acts: seq<P.Action>, j: nat): seq<P.Update>
    requires j <= |acts|
  {
    if j == 0 then []
    else match acts[j - 1]
      case BeginOp(_) => []
      case Crash => []
      case LogWrite(who, b, data) => Writes(acts, j - 1) + [P.Update(who, b, data)]
      case _ => Writes(acts, j - 1)
  }

  /** The last end_op in acts[..i]. */
  function LastEnd(acts: seq<P.Action>, i: nat): (j: nat)
    requires i <= |acts|
    ensures j <= i
  {
    if i == 0 then 0 else if acts[i - 1].EndOp? then i - 1 else LastEnd(acts, i - 1)
  }

  /** The file system as committed after acts[..i], where ends[j] is how the operation that ends at j
      leaves it. */
  ghost function Current(acts: seq<P.Action>, ends: seq<Snap>, s0: Snap, i: nat): Snap
    requires |ends| == |acts| && i <= |acts|
  {
    if i == 0 then s0
    else if acts[i - 1].WriteHead? && LastEnd(acts, i - 1) < |ends| then ends[LastEnd(acts, i - 1)]
    else Current(acts, ends, s0, i - 1)
  }

  /** Every operation of the run is one of the file system: between begin_op and end_op it passes to
      log_write, as they become, the blocks that a step from the committed state changes. */
  ghost predicate Operates(l: Layout, acts: seq<P.Action>, ends: seq<Snap>, s0: Snap) {
    && |ends| == |acts| && Whole(l.g, s0) && LaidOut(l, s0)
    && forall j {:trigger ends[j]} :: 0 <= j < |acts| && acts[j].EndOp? && Writes(acts, j) != [] ==>
         LaidOut(l, ends[j]) && Step(l.g, l.ib, l.bb, Current(acts, ends, s0, j), ends[j]) && Carries(l, Writes(acts, j), ends[j])
  }

  /** Updates of the same blocks with the same contents. */
  ghost predicate Alike(us: seq<P.Update>, ws: seq<P.Update>) {
    |us| == |ws| && forall k :: 0 <= k < |us| ==> us[k].blockno == ws[k].blockno && us[k].data == ws[k].data
  }

  lemma {:induction false} ApplyAlike(v: P.Disk, us: seq<P.Update>, ws: seq<P.Update>)
    requires Alike(us, ws)
    ensures P.Apply(v, us) == P.Apply(v, ws)
  {
    if us == [] {
    } else {
      ApplyAlike(v, us[..|us| - 1], ws[..|us| - 1]);
    }
  }

  /** What holds at every point of a run with the shipped constants. */
  ghost predicate Sections(run: seq<P.State>, acts: seq<P.Action>, ends: seq<Snap>, s0: Snap, i: nat)
    requires |run| == |acts| + 1 && |ends| == |acts| && i < |run|
  {
    var s := run[i];
    && (s.open != [] || s.phase.Logging? ==> Alike(s.pending, Writes(acts, i)))
    && (s.phase.Idle? || s.phase.Logging? ==> |s.lh| <= |s.pending|)
    && (s.phase.Logging? ==>
          var j := LastEnd(acts, i);
          j < i && acts[j].EndOp? && Writes(acts, j) == Writes(acts, i) && Current(acts, ends, s0, j) == Current(acts, ends, s0, i))
  }

  lemma {:induction false} SectionsHold(run: seq<P.State>, acts: seq<P.Action>, ends: seq<Snap>, s0: Snap, i: nat)
    requires R.IsRun(P.SHIPPED, run, acts) && |ends| == |acts| && i < |run|
    ensures Sections(run, acts, ends, s0, i)
  {
    if i == 0 {
    } else {
      SectionsHold(run, acts, ends, s0, i - 1);
      R.ShippedSolo(run, acts, i - 1);
      R.RunInv(P.SHIPPED, run, acts, i - 1);
      SectionsNext(run, acts, ends, s0, i - 1);
    }
  }

  lemma SectionsNext(run: seq<P.State>, acts: seq<P.Action>, ends: seq<Snap>, s0: Snap, i: nat)
    requires |run| == |acts| + 1 && |ends| == |acts| && i < |acts| && P.Inv(P.SHIPPED, run[i]) && R.Solo(run[i])
    requires P.Enabled(P.SHIPPED, run[i], acts[i]) && run[i + 1] == P.Next(P.SHIPPED, run[i], acts[i])
    requires Sections(run, acts, ends, s0, i)
    ensures Sections(run, acts, ends, s0, i + 1)
  {
    hide P.Inv, Alike, P.SetSector, P.WithHead, P.Head, P.Readable, P.Pinned, P.IsHome, P.Sector, P.Apply;
    InvPhase(run[i]);
    match acts[i] {
      case LogWrite(who, b, data) => AlikeMore(run[i], acts, i);
      case BeginOp(_) => AlikeNone();
      case EndOp(_) =>
      case _ =>
    }
  }

  lemma AlikeNone()
    ensures Alike([], [])
  {
  }

  lemma AlikeMore(s: P.State, acts: seq<P.Action>, i: nat)
    requires i < |acts| && acts[i].LogWrite? && P.Enabled(P.SHIPPED, s, acts[i]) && Alike(s.pending, Writes(acts, i))
    ensures Alike(P.Next(P.SHIPPED, s, acts[i]).pending, Writes(acts, i + 1))
  {
  }

  lemma InvPhase(s: P.State)
    requires P.Inv(P.SHIPPED, s)
    ensures (s.phase.Idle? && s.lh == [] ==> s.pending == []) && (s.phase.Logging? ==> s.lh != [] && s.open == [])
    ensures !s.phase.Idle? ==> s.open == []
  {
  }

  lemma RunStep(run: seq<P.State>, acts: seq<P.Action>, i: nat)
    requires R.IsRun(P.SHIPPED, run, acts) && i < |acts|
    ensures |run| == |acts| + 1 && P.Enabled(P.SHIPPED, run[i], acts[i]) && run[i + 1] == P.Next(P.SHIPPED, run[i], acts[i])
  {
  }

  lemma StillCommitted(s: P.State, a: P.Action)
    requires P.Enabled(P.SHIPPED, s, a) && !a.WriteHead?
    ensures P.Next(P.SHIPPED, s, a).committed == s.committed
  {
  }

  /** The header write commits the operation that ended last. */
  lemma CommitShows(l: Layout, s: P.State, acts: seq<P.Action>, ends: seq<Snap>, s0: Snap, i: nat)
    requires l.c == P.SHIPPED && P.Inv(P.SHIPPED, s) && i < |acts| && acts[i].WriteHead? && P.Enabled(P.SHIPPED, s, acts[i])
    requires Operates(l, acts, ends, s0) && LastEnd(acts, i) < i && acts[LastEnd(acts, i)].EndOp?
    requires Alike(s.pending, Writes(acts, i)) && |s.lh| <= |s.pending|
    requires Writes(acts, LastEnd(acts, i)) == Writes(acts, i) && Current(acts, ends, s0, LastEnd(acts, i)) == Current(acts, ends, s0, i)
    requires Shows(l, Current(acts, ends, s0, i), s.committed)
    ensures Shows(l, ends[LastEnd(acts, i)], P.Next(P.SHIPPED, s, acts[i]).committed) && Whole(l.g, ends[LastEnd(acts, i)])
  {
    hide Whole, Shows, LaidOut, Step, Carries, P.Inv, Alike;
    var j := LastEnd(acts, i);
    LiveIs(s);
    InvPhase(s);
    AlikeLength(s.pending, Writes(acts, i));
    ApplyAlike(s.committed, s.pending, Writes(acts, j));
    StepWhole(l, Current(acts, ends, s0, j), ends[j]);
    OneStep(l, s.committed, Current(acts, ends, s0, j), Writes(acts, j), ends[j]);
  }

  lemma AlikeLength(us: seq<P.Update>, ws: seq<P.Update>)
    requires Alike(us, ws)
    ensures |us| == |ws|
  {
  }

  /** What is committed is always the file system between two operations. */
  lemma {:induction false} CommittedShows(l: Layout, run: seq<P.State>, acts: seq<P.Action>, ends: seq<Snap>, s0: Snap, i: nat)
    requires l.c == P.SHIPPED && R.IsRun(P.SHIPPED, run, acts) && |run| == |acts| + 1 == |ends| + 1 && i < |run|
    requires Operates(l, acts, ends, s0) && Shows(l, s0, run[0].disk)
    ensures Shows(l, Current(acts, ends, s0, i), run[i].committed) && Whole(l.g, Current(acts, ends, s0, i))
  {
    hide Whole, Shows, LaidOut, P.Inv, R.IsRun, Alike;
    if i == 0 {
      StartShows(run, acts);
    } else {
      CommittedShows(l, run, acts, ends, s0, i - 1);
      SectionsHold(run, acts, ends, s0, i - 1);
      R.RunInv(P.SHIPPED, run, acts, i - 1);
      RunStep(run, acts, i - 1);
      if acts[i - 1].WriteHead? {
        CommitShows(l, run[i - 1], acts, ends, s0, i - 1);
      } else {
        StillCommitted(run[i - 1], acts[i - 1]);
      }
    }
  }

  lemma StartShows(run: seq<P.State>, acts: seq<P.Action>)
    requires R.IsRun(P.SHIPPED, run, acts)
    ensures |run| > 0 && run[0].committed == run[0].disk
  {
  }

  lemma LiveIs(s: P.State)
    requires P.Inv(P.SHIPPED, s)
    ensures s.live == P.Apply(s.committed, s.pending)
  {
  }

  lemma StepWhole(l: Layout, s0: Snap, s1: Snap)
    requires Step(l.g, l.ib, l.bb, s0, s1)
    ensures Whole(l.g, s1)
  {
  }

  /** The plug is pulled anywhere in a run of the shipped log whose operations are the file system's,
      even during an earlier recovery: recovery, and every interrupted recovery, gives the file system
      as it was between two of them, with the block partition intact. */
  lemma CrashBetween(l: Layout, run: seq<P.State>, acts: seq<P.Action>, ends: seq<Snap>, s0: Snap, i: nat)
    requires l.c == P.SHIPPED && R.IsRun(P.SHIPPED, run, acts) && |run| == |acts| + 1 == |ends| + 1 && i < |run|
    requires Operates(l, acts, ends, s0) && Shows(l, s0, run[0].disk)
    ensures P.ValidHead(l.c, run[i].disk)
    ensures var s := Current(acts, ends, s0, i); Whole(l.g, s) && Shows(l, s, P.Recover(l.c, run[i].disk))
    ensures forall k {:trigger P.Install(l.c, run[i].disk, P.Head(l.c, run[i].disk), k)} :: 0 <= k <= |P.Head(l.c, run[i].disk)| ==>
              var e := P.Install(l.c, run[i].disk, P.Head(l.c, run[i].disk), k);
              P.ValidHead(l.c, e) && Shows(l, Current(acts, ends, s0, i), P.Recover(l.c, e))
  {
    hide Whole, LaidOut, Operates, Current, P.Inv, R.IsRun;
    var d, h, s := run[i].disk, P.Head(l.c, run[i].disk), Current(acts, ends, s0, i);
    CommittedShows(l, run, acts, ends, s0, i);
    R.CrashSafety(l.c, run, acts, i);
    R.CommittedIsReplay(l.c, run, acts, i);
    var v := run[i].committed;
    SameShown(l, s, v, P.Recover(l.c, d));
    forall k | 0 <= k <= |h| ensures Shows(l, s, P.Recover(l.c, P.Install(l.c, d, h, k))) {
      SameShown(l, s, v, P.Recover(l.c, P.Install(l.c, d, h, k)));
    }
  }

  lemma SameShown(l: Layout, s: Snap, v: P.Disk, d: P.Disk)
    requires Shows(l, s, v) && P.AgreeHome(l.c, d, v)
    ensures Shows(l, s, d)
  {
    hide LaidOut;
    forall b: nat | P.IsHome(l.c, b) ensures b < |d| && d[b] == v[b] {
    }
  }

  /** From an end_op until it returns: before the header write the old state is the committed one, after
      it the new one. */
  lemma {:induction false} WhileEnding(run: seq<P.State>, acts: seq<P.Action>, ends: seq<Snap>, s0: Snap, i: nat, k: nat)
    requires R.IsRun(P.SHIPPED, run, acts) && |ends| == |acts| && i < k < |run| && acts[i].EndOp?
    requires forall m :: i < m <= k ==> run[m].phase != P.Idle
    requires forall m :: i <= m < k ==> !acts[m].Crash?
    ensures run[k].phase.Logging? || run[k].phase.Installing?
    ensures LastEnd(acts, k) == i
    ensures Current(acts, ends, s0, k) == if run[k].phase.Logging? then Current(acts, ends, s0, i) else ends[i]
    decreases k
  {
    hide P.Inv, P.WithHead, P.SetSector, P.Head, P.Readable, P.Pinned;
    assert P.Enabled(P.SHIPPED, run[k - 1], acts[k - 1]) && run[k] == P.Next(P.SHIPPED, run[k - 1], acts[k - 1]);
    if i < k - 1 {
      WhileEnding(run, acts, ends, s0, i, k - 1);
    }
  }

  /** When end_op returns, what its operation did is committed. */
  lemma EndCommits(run: seq<P.State>, acts: seq<P.Action>, ends: seq<Snap>, s0: Snap, i: nat, j: nat)
    requires R.IsRun(P.SHIPPED, run, acts) && |run| == |acts| + 1 == |ends| + 1
    requires R.Returns(run, i, j) && acts[i].EndOp? && forall k :: i <= k < j ==> !acts[k].Crash?
    ensures Current(acts, ends, s0, j) == if Writes(acts, i) == [] then Current(acts, ends, s0, i) else ends[i]
  {
    hide P.Inv, R.IsRun, Alike, P.Enabled, P.Next;
    SectionsHold(run, acts, ends, s0, i);
    R.RunInv(P.SHIPPED, run, acts, i);
    R.ShippedSolo(run, acts, i);
    RunStep(run, acts, i);
    EndPhase(run[i], acts, i);
    if i + 1 < j {
      WhileEnding(run, acts, ends, s0, i, j - 1);
      WhileEnding(run, acts, ends, s0, i, i + 1);
      RunStep(run, acts, j - 1);
      BackToIdle(run[j - 1], acts[j - 1]);
    }
  }

  /** ...and is what recovery will give. */
  lemma EndDurable(l: Layout, run: seq<P.State>, acts: seq<P.Action>, ends: seq<Snap>, s0: Snap, i: nat, j: nat)
    requires l.c == P.SHIPPED && R.IsRun(P.SHIPPED, run, acts) && |run| == |acts| + 1 == |ends| + 1
    requires R.Returns(run, i, j) && acts[i].EndOp? && forall k :: i <= k < j ==> !acts[k].Crash?
    requires Operates(l, acts, ends, s0) && Shows(l, s0, run[0].disk)
    ensures var s := if Writes(acts, i) == [] then Current(acts, ends, s0, i) else ends[i];
            P.ValidHead(l.c, run[j].disk) && Shows(l, s, P.Recover(l.c, run[j].disk))
  {
    hide R.IsRun, Operates, Whole, LaidOut, Shows, P.Recover, P.ValidHead;
    EndCommits(run, acts, ends, s0, i, j);
    CrashBetween(l, run, acts, ends, s0, j);
  }

  /** An end_op with something to commit starts a commit, one without returns at once. */
  lemma EndPhase(s: P.State, acts: seq<P.Action>, i: nat)
    requires P.Inv(P.SHIPPED, s) && R.Solo(s) && i < |acts| && acts[i].EndOp? && P.Enabled(P.SHIPPED, s, acts[i])
    requires |s.lh| <= |s.pending| && Alike(s.pending, Writes(acts, i))
    ensures P.Next(P.SHIPPED, s, acts[i]).phase == if Writes(acts, i) == [] then P.Idle else P.Logging(0)
  {
    hide P.Inv;
    InvPhase(s);
  }

  lemma BackToIdle(s: P.State, a: P.Action)
    requires P.Enabled(P.SHIPPED, s, a) && (s.phase.Logging? || s.phase.Installing?) && P.Next(P.SHIPPED, s, a).phase == P.Idle
    ensures s.phase.Installing? && !a.WriteHead?
  {
  }

  // ----- Runs of given operations -----

  /** The same but for the record of what was logged. */
  ghost predicate Same(s: Snap, t: Snap) {
    s.(logged := {}) == t.(logged := {})
  }

  lemma SameShows(l: Layout, s: Snap, t: Snap, v: P.Disk)
    requires Same(s, t)
    ensures Shows(l, s, v) <==> Shows(l, t, v)
    ensures Whole(l.g, s) <==> Whole(l.g, t)
  {
    if Whole(l.g, s) { SameWhole(l.g, s, t); }
    if Whole(l.g, t) { SameWhole(l.g, t, s); }
    if LaidOut(l, s) {
      forall b: nat | b < l.g.size ensures ViewBlock(l, s, b) == ViewBlock(l, t, b) {
      }
    }
  }

  lemma SameWhole(g: Geometry, s: Snap, t: Snap)
    requires Same(s, t) && Whole(g, s)
    ensures Whole(g, t)
  {
    var owner :| Names(g, s, owner);
    assert Names(g, t, owner);
  }

  /** s and t are neighbours among `steps`. */
  ghost predicate Neighbours(steps: seq<Snap>, s: Snap, t: Snap) {
    exists k :: 0 <= k < |steps| - 1 && Same(s, steps[k]) && Same(t, steps[k + 1])
  }

  /** Each operation of the run takes one of `steps` to the next. */
  ghost predicate Along(acts: seq<P.Action>, ends: seq<Snap>, s0: Snap, steps: seq<Snap>) {
    && |ends| == |acts| && |steps| >= 1 && Same(s0, steps[0])
    && forall j {:trigger ends[j]} :: 0 <= j < |acts| && acts[j].EndOp? && Writes(acts, j) != [] ==>
         Neighbours(steps, Current(acts, ends, s0, j), ends[j])
  }

  /** So what is committed is always one of them. */
  lemma {:induction false} OnSteps(run: seq<P.State>, acts: seq<P.Action>, ends: seq<Snap>, s0: Snap, steps: seq<Snap>, i: nat)
    requires R.IsRun(P.SHIPPED, run, acts) && |run| == |acts| + 1 == |ends| + 1 && i < |run| && Along(acts, ends, s0, steps)
    ensures exists k :: 0 <= k < |steps| && Same(Current(acts, ends, s0, i), steps[k])
  {
    hide R.IsRun, P.Inv, Alike, Same;
    if i == 0 {
      assert Same(Current(acts, ends, s0, 0), steps[0]);
    } else {
      OnSteps(run, acts, ends, s0, steps, i - 1);
      if acts[i - 1].WriteHead? {
        SectionsHold(run, acts, ends, s0, i - 1);
        R.RunInv(P.SHIPPED, run, acts, i - 1);
        RunStep(run, acts, i - 1);
        InvPhase(run[i - 1]);
        AlikeLength(run[i - 1].pending, Writes(acts, i - 1));
        var j := LastEnd(acts, i - 1);
        var k :| 0 <= k < |steps| - 1 && Same(Current(acts, ends, s0, j), steps[k]) && Same(ends[j], steps[k + 1]);
        assert Same(Current(acts, ends, s0, i), steps[k + 1]);
      }
    }
  }

  /** A crash in a run of the file system's calls, each operation one of `steps`: the recovered disk is
      one of these states. */
  lemma CrashOnSteps(l: Layout, run: seq<P.State>, acts: seq<P.Action>, ends: seq<Snap>, s0: Snap, steps: seq<Snap>, i: nat)
    returns (k: nat)
    requires l.c == P.SHIPPED && R.IsRun(P.SHIPPED, run, acts) && |run| == |acts| + 1 == |ends| + 1 && i < |run|
    requires Operates(l, acts, ends, s0) && Shows(l, s0, run[0].disk) && Along(acts, ends, s0, steps)
    ensures k < |steps| && P.ValidHead(l.c, run[i].disk) && Whole(l.g, steps[k]) && Shows(l, steps[k], P.Recover(l.c, run[i].disk))
  {
    hide R.IsRun, Operates, Along, Whole, Shows, Same;
    CrashBetween(l, run, acts, ends, s0, i);
    OnSteps(run, acts, ends, s0, steps, i);
    k :| 0 <= k < |steps| && Same(Current(acts, ends, s0, i), steps[k]);
    SameShows(l, Current(acts, ends, s0, i), steps[k], P.Recover(l.c, run[i].disk));
  }

  /** A crash during a filewrite: the recovered file has a whole number of its chunks, nothing else of
      any file differs, and the blocks are partitioned. */
  lemma CrashInWrite(l: Layout, run: seq<P.State>, acts: seq<P.Action>, ends: seq<Snap>, s0: Snap, steps: seq<Snap>, i: nat,
                     n: nat, off: nat, src: seq<byte>, total: nat) returns (k: nat)
    requires l.c == P.SHIPPED && R.IsRun(P.SHIPPED, run, acts) && |run| == |acts| + 1 == |ends| + 1 && i < |run|
    requires Operates(l, acts, ends, s0) && Shows(l, s0, run[0].disk) && Along(acts, ends, s0, steps)
    requires Chunks(l.g, l.ib, l.bb, steps, n, off, src, total)
    ensures k < |steps| && P.ValidHead(l.c, run[i].disk) && Whole(l.g, steps[k]) && Shows(l, steps[k], P.Recover(l.c, run[i].disk))
    ensures ChunkAt(steps[0], steps[k], n, off, src, Min(total, k * MAXCHUNK))
  {
    hide R.IsRun, Operates, Along, Whole, Shows, ChunkAt, Step;
    k := CrashOnSteps(l, run, acts, ends, s0, steps, i);
  }

  // ----- Such runs exist -----

  /** A run of the shipped log with the file system's states. */
  datatype Trace = Trace(run: seq<P.State>, acts: seq<P.Action>, ends: seq<Snap>)

  ghost predicate Good(l: Layout, t: Trace, steps: seq<Snap>) {
    && |steps| >= 1 && |t.run| == |t.acts| + 1 == |t.ends| + 1 && R.IsRun(P.SHIPPED, t.run, t.acts)
    && Operates(l, t.acts, t.ends, steps[0]) && Along(t.acts, t.ends, steps[0], steps)
  }

  function Now(t: Trace): P.State
    requires |t.run| > 0
  {
    t.run[|t.run| - 1]
  }

  function Section(t: Trace): seq<P.Update> { Writes(t.acts, |t.acts|) }

  ghost function Committed(t: Trace, s0: Snap): Snap
    requires |t.ends| == |t.acts|
  {
    Current(t.acts, t.ends, s0, |t.acts|)
  }

  lemma {:induction false} WritesPrefix(acts: seq<P.Action>, a: P.Action, j: nat)
    requires j <= |acts|
    ensures Writes(acts + [a], j) == Writes(acts, j) && LastEnd(acts + [a], j) == LastEnd(acts, j)
  {
    if j == 0 {
    } else {
      WritesPrefix(acts, a, j - 1);
    }
  }

  lemma {:induction false} CurrentPrefix(acts: seq<P.Action>, a: P.Action, ends: seq<Snap>, e: Snap, s0: Snap, j: nat)
    requires |ends| == |acts| && j <= |acts|
    ensures Current(acts + [a], ends + [e], s0, j) == Current(acts, ends, s0, j)
  {
    if j == 0 {
    } else {
      CurrentPrefix(acts, a, ends, e, s0, j - 1);
      WritesPrefix(acts, a, j - 1);
    }
  }

  lemma OperatesMore(l: Layout, acts: seq<P.Action>, ends: seq<Snap>, s0: Snap, a: P.Action, e: Snap)
    requires Operates(l, acts, ends, s0)
    requires a.EndOp? && Writes(acts, |acts|) != [] ==>
               LaidOut(l, e) && Step(l.g, l.ib, l.bb, Current(acts, ends, s0, |acts|), e) && Carries(l, Writes(acts, |acts|), e)
    ensures Operates(l, acts + [a], ends + [e], s0)
  {
    hide Whole, LaidOut, Step, Carries, Writes, Current;
    var acts1, ends1 := acts + [a], ends + [e];
    forall j {:trigger ends1[j]} | 0 <= j < |acts1| && acts1[j].EndOp? && Writes(acts1, j) != []
      ensures LaidOut(l, ends1[j]) && Step(l.g, l.ib, l.bb, Current(acts1, ends1, s0, j), ends1[j])
      ensures Carries(l, Writes(acts1, j), ends1[j])
    {
      WritesPrefix(acts, a, j);
      CurrentPrefix(acts, a, ends, e, s0, j);
      assert j < |acts| ==> ends1[j] == ends[j];
    }
  }

  lemma AlongMore(acts: seq<P.Action>, ends: seq<Snap>, s0: Snap, steps: seq<Snap>, a: P.Action, e: Snap)
    requires Along(acts, ends, s0, steps)
    requires a.EndOp? && Writes(acts, |acts|) != [] ==> Neighbours(steps, Current(acts, ends, s0, |acts|), e)
    ensures Along(acts + [a], ends + [e], s0, steps)
  {
    hide Neighbours, Same, Writes, Current;
    var acts1, ends1 := acts + [a], ends + [e];
    forall j {:trigger ends1[j]} | 0 <= j < |acts1| && acts1[j].EndOp? && Writes(acts1, j) != []
      ensures Neighbours(steps, Current(acts1, ends1, s0, j), ends1[j])
    {
      WritesPrefix(acts, a, j);
      CurrentPrefix(acts, a, ends, e, s0, j);
      assert j < |acts| ==> ends1[j] == ends[j];
    }
  }

  /** One more action; the end of an operation needs its step. */
  lemma More(l: Layout, t: Trace, steps: seq<Snap>, a: P.Action, e: Snap, k: nat) returns (u: Trace)
    requires Good(l, t, steps) && P.Enabled(P.SHIPPED, Now(t), a)
    requires a.EndOp? && Section(t) != [] ==>
               && k < |steps| - 1 && Same(Committed(t, steps[0]), steps[k]) && e == steps[k + 1]
               && LaidOut(l, e) && Step(l.g, l.ib, l.bb, Committed(t, steps[0]), e) && Carries(l, Section(t), e)
    ensures Good(l, u, steps) && u.run[0] == t.run[0] && u.acts == t.acts + [a] && u.ends == t.ends + [e]
    ensures Now(u) == P.Next(P.SHIPPED, Now(t), a)
    ensures Section(u) == match a
              case BeginOp(_) => []
              case Crash => []
              case LogWrite(who, b, data) => Section(t) + [P.Update(who, b, data)]
              case _ => Section(t)
    ensures LastEnd(u.acts, |u.acts|) == if a.EndOp? then |t.acts| else LastEnd(t.acts, |t.acts|)
    ensures !a.WriteHead? ==> Committed(u, steps[0]) == Committed(t, steps[0])
    ensures a.WriteHead? && LastEnd(t.acts, |t.acts|) < |t.acts| ==> Committed(u, steps[0]) == t.ends[LastEnd(t.acts, |t.acts|)]
  {
    hide Whole, LaidOut, Step, Carries, Same, Neighbours, P.Inv, R.IsRun, P.Enabled, P.Next, Operates, Along;
    var acts, ends := t.acts + [a], t.ends + [e];
    var run := R.Extend(P.SHIPPED, t.run, t.acts, a);
    u := Trace(run, acts, ends);
    if a.EndOp? && Section(t) != [] { NextStep(steps, Committed(t, steps[0]), k); }
    OperatesMore(l, t.acts, t.ends, steps[0], a, e);
    AlongMore(t.acts, t.ends, steps[0], steps, a, e);
    WritesPrefix(t.acts, a, |t.acts|);
    CurrentPrefix(t.acts, a, t.ends, e, steps[0], |t.acts|);
  }

  lemma NextStep(steps: seq<Snap>, s: Snap, k: nat)
    requires k < |steps| - 1 && Same(s, steps[k])
    ensures Neighbours(steps, s, steps[k + 1])
  {
  }

  /** No operation is open, nothing is in the log, and the k-th state is committed. */
  ghost predicate AtRest(t: Trace, steps: seq<Snap>, k: nat)
    requires |t.run| > 0 && |t.ends| == |t.acts| && k < |steps|
  {
    Now(t).phase == P.Idle && Now(t).open == [] && Now(t).lh == [] && Same(Committed(t, steps[0]), steps[k])
  }

  /** Power-on with an empty log. */
  lemma PowerOn(l: Layout, s0: P.State, steps: seq<Snap>) returns (t: Trace)
    requires P.Init(P.SHIPPED, s0) && |steps| >= 1 && Whole(l.g, steps[0]) && LaidOut(l, steps[0])
    ensures Good(l, t, steps) && t.run[0] == s0 && AtRest(t, steps, 0)
  {
    hide Whole, LaidOut, R.IsRun;
    R.StartRun(P.SHIPPED, s0);
    t := Trace([s0], [], []);
    t := More(l, t, steps, P.ReadHead, steps[0], 0);
    t := More(l, t, steps, P.ClearHead, steps[0], 0);
  }

  /** The open operation's calls of log_write. */
  lemma Fill(l: Layout, t: Trace, steps: seq<Snap>, us: seq<P.Update>) returns (u: Trace)
    requires Good(l, t, steps) && Now(t).phase == P.Idle && |Now(t).open| == 1 && Now(t).lh == [] && Section(t) == [] && |us| <= 14
    requires forall w :: w in us ==> w.op == 0 && P.IsHome(P.SHIPPED, w.blockno) && |w.data| == 128 && w.blockno in Now(t).cache
    ensures Good(l, u, steps) && u.run[0] == t.run[0] && Now(u).phase == P.Idle && |Now(u).open| == 1 && Section(u) == us
    ensures Committed(u, steps[0]) == Committed(t, steps[0])
  {
    hide R.IsRun, Operates, Along, Section, Committed, P.IsHome, LastEnd;
    u := t;
    assert us[..0] == [];
    var i := 0;
    while i < |us|
      invariant i <= |us| && Good(l, u, steps) && u.run[0] == t.run[0]
      invariant Now(u).phase == P.Idle && |Now(u).open| == 1 && |Now(u).lh| <= i && Section(u) == us[..i]
      invariant Committed(u, steps[0]) == Committed(t, steps[0])
      invariant forall w :: w in us ==> w.blockno in Now(u).cache
    {
      assert us[i] in us && us[..i + 1] == us[..i] + [us[i]];
      u := More(l, u, steps, P.LogWrite(0, us[i].blockno, us[i].data), steps[0], 0);
      i := i + 1;
    }
    assert us[..i] == us;
  }

  lemma PinnedCached(s: P.State)
    requires P.Inv(P.SHIPPED, s)
    ensures (s.phase.Logging? ==> forall b :: b in s.lh ==> b in s.cache)
  {
  }

  /** The commit, from write_log to the erased header. */
  lemma CommitOut(l: Layout, t: Trace, steps: seq<Snap>) returns (u: Trace)
    requires Good(l, t, steps) && Now(t).phase == P.Logging(0) && Now(t).open == [] && LastEnd(t.acts, |t.acts|) < |t.acts|
    ensures Good(l, u, steps) && u.run[0] == t.run[0] && Now(u).phase == P.Idle && Now(u).open == [] && Now(u).lh == []
    ensures Committed(u, steps[0]) == t.ends[LastEnd(t.acts, |t.acts|)]
  {
    hide R.IsRun, Operates, Along, Section, Committed, P.SetSector, P.WithHead, P.Sector, LastEnd;
    var n, j, e := |Now(t).lh|, LastEnd(t.acts, |t.acts|), t.ends[LastEnd(t.acts, |t.acts|)];
    u := t;
    var i := 0;
    while i < n
      invariant i <= n && Good(l, u, steps) && u.run[0] == t.run[0]
      invariant Now(u).phase == P.Logging(i) && Now(u).open == [] && |Now(u).lh| == n
      invariant LastEnd(u.acts, |u.acts|) == j < |u.acts| && u.ends[j] == e
    {
      GoodInv(l, u, steps);
      PinnedCached(Now(u));
      u := More(l, u, steps, P.WriteLog, steps[0], 0);
      i := i + 1;
    }
    u := More(l, u, steps, P.WriteHead, steps[0], 0);
    i := 0;
    while i < n
      invariant i <= n && Good(l, u, steps) && u.run[0] == t.run[0]
      invariant Now(u).phase == P.Installing(i) && Now(u).open == [] && |Now(u).lh| == n && Committed(u, steps[0]) == e
    {
      u := More(l, u, steps, P.InstallOne, steps[0], 0);
      i := i + 1;
    }
    u := More(l, u, steps, P.EraseHead, steps[0], 0);
  }

  lemma GoodInv(l: Layout, t: Trace, steps: seq<Snap>)
    requires Good(l, t, steps)
    ensures P.Inv(P.SHIPPED, Now(t)) && R.Solo(Now(t))
    ensures Now(t).phase.Idle? ==> |Now(t).lh| <= |Now(t).pending|
    ensures Now(t).open != [] ==> Alike(Now(t).pending, Section(t))
  {
    R.RunInv(P.SHIPPED, t.run, t.acts, |t.acts|);
    R.ShippedSolo(t.run, t.acts, |t.acts|);
    SectionsHold(t.run, t.acts, t.ends, steps[0], |t.acts|);
  }

  /** A block that an operation logs is a home block of the log, with 128 words. */
  lemma LoggedHome(l: Layout, s0: Snap, s1: Snap, b: nat)
    requires l.c == P.SHIPPED && LaidOut(l, s1) && Step(l.g, l.ib, l.bb, s0, s1) && b in s1.logged
    ensures b < l.g.size && P.IsHome(P.SHIPPED, b) && |ViewBlock(l, s1, b)| == 128
  {
    BitmapSize(l, s0, s1);
    hide Whole, Logs;
    assert Loggable(l.g, l.ib, l.bb, |s1.dinodes|, b);
  }

  lemma BitmapSize(l: Layout, s0: Snap, s1: Snap)
    requires Step(l.g, l.ib, l.bb, s0, s1)
    ensures l.g.size <= 8 * |s1.bm| && l.g.nmeta <= l.g.size
  {
  }

  /** An operation that logged nothing changed nothing. */
  lemma NothingLogged(ib: nat, bb: nat, s0: Snap, s1: Snap)
    requires Logs(ib, bb, s0.(logged := {}), s1) && s1.logged == {}
    ensures Same(s0, s1)
  {
    assert s0.bm == s1.bm && s0.disk == s1.disk && s0.dinodes == s1.dinodes;
  }

  lemma NoUpdates(us: seq<P.Update>, b: nat)
    requires us == []
    ensures Last(us, b) == []
  {
  }

  /** The log_writes of a step of the file system. */
  lemma StepUpdates(l: Layout, s0: Snap, s1: Snap) returns (us: seq<P.Update>)
    requires l.c == P.SHIPPED && LaidOut(l, s1) && Step(l.g, l.ib, l.bb, s0, s1)
    ensures |us| <= 14 && Carries(l, us, s1) && (us == [] ==> Same(s0, s1))
    ensures forall w :: w in us ==> w.op == 0 && P.IsHome(P.SHIPPED, w.blockno) && |w.data| == 128
  {
    hide Whole, ViewBlock, Logs, P.IsHome, Loggable, Same;
    var blocks;
    us, blocks := UpdatesFor(l, s1, l.g.size);
    SubsetSize(blocks, s1.logged);
    assert OpBound(l.g) == 10;
    forall w | w in us ensures P.IsHome(P.SHIPPED, w.blockno) && |w.data| == 128 {
      LoggedHome(l, s0, s1, w.blockno);
    }
    if us == [] {
      if b :| b in s1.logged {
        LoggedHome(l, s0, s1, b);
        NoUpdates(us, b);
        assert false;
      }
      NothingLogged(l.ib, l.bb, s0, s1);
    }
  }

  /** One operation, from begin_op until end_op returns. */
  lemma Operation(l: Layout, t: Trace, steps: seq<Snap>, k: nat) returns (u: Trace)
    requires l.c == P.SHIPPED && Good(l, t, steps) && k + 1 < |steps| && AtRest(t, steps, k)
    requires Step(l.g, l.ib, l.bb, steps[k], steps[k + 1]) && LaidOut(l, steps[k + 1])
    ensures Good(l, u, steps) && u.run[0] == t.run[0] && AtRest(u, steps, k + 1)
  {
    hide R.IsRun, Operates, Along, Section, Committed, LastEnd, Same, LaidOut, Step, Carries, P.IsHome, Alike, P.Inv;
    var e := steps[k + 1];
    var us := StepUpdates(l, steps[k], e);
    u := More(l, t, steps, P.BeginOp(0), steps[0], 0);
    if us == [] {
      u := More(l, u, steps, P.EndOp(0), e, k);
      SameTrans(Committed(u, steps[0]), steps[k], e);
    } else {
      u := Read(l, u, steps, us);
      u := Fill(l, u, steps, us);
      GoodInv(l, u, steps);
      AlikeLength(Now(u).pending, Section(u));
      InvPhase(Now(u));
      CommittedStep(l, steps[k], Committed(u, steps[0]), e);
      u := More(l, u, steps, P.EndOp(0), e, k);
      u := CommitOut(l, u, steps);
      SameTrans(e, e, e);
    }
  }

  lemma SameTrans(s: Snap, t: Snap, u: Snap)
    requires (Same(s, t) && Same(t, u)) || s == t == u
    ensures Same(s, u)
  {
  }

  lemma CommittedStep(l: Layout, s0: Snap, t0: Snap, s1: Snap)
    requires Step(l.g, l.ib, l.bb, s0, s1) && Same(t0, s0)
    ensures Step(l.g, l.ib, l.bb, t0, s1)
  {
    hide Step;
    StepFrom(l.g, l.ib, l.bb, s0, t0, s1);
  }

  /** The operation reads the blocks it is going to change. */
  lemma Read(l: Layout, t: Trace, steps: seq<Snap>, us: seq<P.Update>) returns (u: Trace)
    requires Good(l, t, steps) && Now(t).phase == P.Idle && |Now(t).open| == 1 && Now(t).lh == []
    requires forall w :: w in us ==> P.IsHome(P.SHIPPED, w.blockno)
    ensures Good(l, u, steps) && u.run[0] == t.run[0] && Now(u) == Now(t).(cache := Now(u).cache)
    ensures Section(u) == Section(t) && Committed(u, steps[0]) == Committed(t, steps[0])
    ensures forall w :: w in us ==> w.blockno in Now(u).cache
  {
    hide R.IsRun, Operates, Along, Section, Committed, LastEnd;
    GoodInv(l, t, steps);
    P.InvBasics(P.SHIPPED, Now(t));
    hide P.Inv;
    var d := Now(t).disk;
    var m := map b: nat | b in (set w | w in us :: w.blockno) :: d[b];
    u := More(l, t, steps, P.MoveCache(m), steps[0], 0);
  }

  /** Any chain of operations of the file system is what some run of the log, from power-on, carries out:
      each ends committed.  So the runs that CrashBetween is about exist, and with EndCommits and
      CrashOnSteps a crash anywhere in this one gives one of the states between the operations. */
  lemma CarryOut(l: Layout, s0: P.State, steps: seq<Snap>) returns (t: Trace)
    requires l.c == P.SHIPPED && P.Init(P.SHIPPED, s0) && |steps| >= 1 && Whole(l.g, steps[0])
    requires forall k :: 0 <= k < |steps| ==> LaidOut(l, steps[k])
    requires forall k :: 0 <= k < |steps| - 1 ==> Step(l.g, l.ib, l.bb, steps[k], steps[k + 1])
    ensures Good(l, t, steps) && t.run[0] == s0 && AtRest(t, steps, |steps| - 1)
  {
    hide Good, AtRest, Step, LaidOut, Whole, P.Init;
    t := PowerOn(l, s0, steps);
    Shaped(l, t, steps);
    var k := 0;
    while k < |steps| - 1
      invariant k < |steps| && |t.run| > 0 && |t.ends| == |t.acts|
      invariant Good(l, t, steps) && t.run[0] == s0 && AtRest(t, steps, k)
    {
      t := Operation(l, t, steps, k);
      Shaped(l, t, steps);
      k := k + 1;
    }
  }

  /** d recovers to one of the states between operations. */
  ghost predicate RecoversToStep(l: Layout, d: P.Disk, steps: seq<Snap>) {
    P.ValidHead(l.c, d) && exists k :: 0 <= k < |steps| && Whole(l.g, steps[k]) && Shows(l, steps[k], P.Recover(l.c, d))
  }

  /** A chain of operations, as FsOps.BootAndRun gives for any run of system calls, has a run of the log
      that carries it out; crash that run at any sector write or between two, and recovery gives one of
      the states between the operations. */
  lemma CrashAnywhere(l: Layout, s0: P.State, steps: seq<Snap>) returns (t: Trace)
    requires l.c == P.SHIPPED && P.Init(P.SHIPPED, s0) && |steps| >= 1 && Whole(l.g, steps[0]) && Shows(l, steps[0], s0.disk)
    requires forall k :: 0 <= k < |steps| ==> LaidOut(l, steps[k])
    requires forall k :: 0 <= k < |steps| - 1 ==> Step(l.g, l.ib, l.bb, steps[k], steps[k + 1])
    ensures Good(l, t, steps) && t.run[0] == s0 && AtRest(t, steps, |steps| - 1)
    ensures forall i :: 0 <= i < |t.run| ==> RecoversToStep(l, t.run[i].disk, steps)
  {
    hide AtRest, Step, LaidOut, Whole, P.Init, R.IsRun, Operates, Along, Shows, P.ValidHead, P.Recover;
    t := CarryOut(l, s0, steps);
    forall i | 0 <= i < |t.run| ensures RecoversToStep(l, t.run[i].disk, steps) {
      var k := CrashOnSteps(l, t.run, t.acts, t.ends, steps[0], steps, i);
    }
  }

  lemma Shaped(l: Layout, t: Trace, steps: seq<Snap>)
    requires Good(l, t, steps)
    ensures |t.run| > 0 && |t.ends| == |t.acts|
  {
  }
}
