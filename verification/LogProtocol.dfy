/** The write-ahead log of xv6-riscv/kernel/log.c as a protocol: every sector write, every
    buffer-cache reload or eviction, every critical section of begin_op, log_write and end_op,
    and a crash are single steps.  A sector write is atomic. */
module LogProtocol {

  type Block = seq<nat>
  type Disk = seq<Block>

  /** `size` is log.size (header block included), `words` the number of 32-bit words in a block. */
  datatype Config = Config(logSize: nat, maxOpBlocks: nat, start: nat, size: nat, words: nat, total: nat)

  /** param.h and mkfs.c: LOGSIZE = MAXOPBLOCKS = 16, nlog = LOGSIZE, log at block 2, 2000 blocks. */
  const SHIPPED := Config(16, 16, 2, 16, 128, 2000)

  /** initlog panics unless the header is smaller than a block. */
  ghost predicate ValidConfig(c: Config) {
    1 + c.logSize < c.words && 0 < c.size && c.start + c.size <= c.total
  }

  ghost predicate IsHome(c: Config, b: nat) {
    b < c.total && !(c.start <= b < c.start + c.size)
  }

  ghost predicate ValidDisk(c: Config, d: Disk) {
    |d| == c.total && forall b: nat {:trigger d[b]} :: 0 <= b < |d| ==> |d[b]| == c.words
  }

  ghost predicate AgreeHome(c: Config, d: Disk, v: Disk) {
    |d| == |v| == c.total && forall b: nat {:trigger d[b]} {:trigger v[b]} :: IsHome(c, b) ==> d[b] == v[b]
  }

  ghost predicate Distinct(s: seq<nat>) {
    forall i, j :: 0 <= i < j < |s| ==> s[i] != s[j]
  }

  /** A list of block numbers that fits the log: what log_write's checks leave possible. */
  ghost predicate ValidList(c: Config, lh: seq<nat>) {
    |lh| <= c.logSize && |lh| < c.size && Distinct(lh) && forall i :: 0 <= i < |lh| ==> IsHome(c, lh[i])
  }

  /** The header block after write_head: count, block numbers, and whatever words followed. */
  function WithHead(blk: Block, lh: seq<nat>): (r: Block) {
    if 1 + |lh| <= |blk| then [|lh|] + lh + blk[1 + |lh|..] else blk
  }

  /** read_head: the block numbers a header block holds. */
  function HeadOf(blk: Block): (r: seq<nat>) {
    if |blk| > 0 && blk[0] < |blk| then blk[1..1 + blk[0]] else []
  }

  function Sector(d: Disk, b: nat): (r: Block) {
    if b < |d| then d[b] else []
  }

  function SetSector(d: Disk, b: nat, data: Block): (r: Disk) {
    if b < |d| then d[b := data] else d
  }

  ghost predicate ValidHead(c: Config, d: Disk) {
    && ValidConfig(c) && ValidDisk(c, d)
    && d[c.start][0] <= c.logSize
    && ValidList(c, Head(c, d))
  }

  ghost function Head(c: Config, d: Disk): seq<nat> {
    HeadOf(Sector(d, c.start))
  }

  /** install_trans over the first k log blocks. */
  ghost function Install(c: Config, d: Disk, lh: seq<nat>, k: nat): (r: Disk)
    requires ValidConfig(c) && |d| == c.total && ValidList(c, lh) && k <= |lh|
    ensures |r| == |d|
  {
    if k == 0 then d
    else
      var e := Install(c, d, lh, k - 1);
      e[lh[k - 1] := e[c.start + k]]
  }

  /** recover_from_log on a disk: redo the logged blocks, then clear the header. */
  ghost function Recover(c: Config, d: Disk): Disk
    requires ValidHead(c, d)
  {
    var e := Install(c, d, Head(c, d), |Head(c, d)|);
    e[c.start := WithHead(d[c.start], [])]
  }

  /** The words of a header block say: these blocks. */
  ghost predicate HeadIs(c: Config, blk: Block, h: seq<nat>) {
    |h| <= c.logSize < c.words - 1 && |blk| == c.words && blk[0] == |h| && forall i :: 0 <= i < |h| ==> blk[1 + i] == h[i]
  }

  /** Disk d holds view v, once the log blocks are copied to the home blocks h. */
  ghost predicate Redoes(c: Config, d: Disk, h: seq<nat>, v: Disk) {
    && ValidConfig(c) && ValidList(c, h) && |d| == |v| == c.total
    && (forall i {:trigger h[i]} :: 0 <= i < |h| ==> d[c.start + 1 + i] == v[h[i]])
    && (forall b: nat {:trigger d[b]} :: IsHome(c, b) && b !in h ==> d[b] == v[b])
  }

  /** Disk d holds view v, once the transaction its header names is redone. */
  ghost predicate RecoversTo(c: Config, d: Disk, v: Disk) {
    ValidHead(c, d) && Redoes(c, d, Head(c, d), v)
  }

  lemma HeadUnique(c: Config, d: Disk, h: seq<nat>)
    requires ValidConfig(c) && ValidDisk(c, d) && ValidList(c, h) && HeadIs(c, d[c.start], h)
    ensures ValidHead(c, d) && Head(c, d) == h
  {
    assert d[c.start][1..1 + |h|] == h;
  }

  lemma {:induction false} InstallPoint(c: Config, d: Disk, lh: seq<nat>, k: nat)
    requires ValidConfig(c) && |d| == c.total && ValidList(c, lh) && k <= |lh|
    ensures forall i {:trigger lh[i]} :: 0 <= i < k ==> Install(c, d, lh, k)[lh[i]] == d[c.start + 1 + i]
    ensures forall b :: 0 <= b < c.total && b !in lh[..k] ==> Install(c, d, lh, k)[b] == d[b]
  {
    if k == 0 {
    } else {
      InstallPoint(c, d, lh, k - 1);
      assert lh[..k] == lh[..k - 1] + [lh[k - 1]];
    }
  }

  lemma InstallRedoes(c: Config, d: Disk, h: seq<nat>, v: Disk, k: nat)
    requires Redoes(c, d, h, v) && ValidDisk(c, d) && k <= |h|
    ensures var e := Install(c, d, h, k); Redoes(c, e, h, v) && ValidDisk(c, e) && e[c.start] == d[c.start]
    ensures k == |h| ==> AgreeHome(c, Install(c, d, h, k), v)
  {
    var e := Install(c, d, h, k);
    InstallPoint(c, d, h, k);
    forall b: nat | b < |e| ensures |e[b]| == c.words && (IsHome(c, b) && b !in h ==> e[b] == v[b])
      ensures !IsHome(c, b) ==> e[b] == d[b]
    {
      if b in h[..k] { var i :| 0 <= i < k && h[i] == b; }
    }
    if k == |h| {
      forall b: nat | IsHome(c, b) ensures e[b] == v[b] {
        if b in h { var i :| 0 <= i < |h| && h[i] == b; }
      }
    }
  }

  /** Recovery restores the view, leaves an empty log, and may crash after any of its writes. */
  lemma RecoverRestores(c: Config, d: Disk, v: Disk)
    requires RecoversTo(c, d, v)
    ensures AgreeHome(c, Recover(c, d), v)
    ensures RecoversTo(c, Recover(c, d), v) && Head(c, Recover(c, d)) == []
    ensures forall k {:trigger Install(c, d, Head(c, d), k)} :: 0 <= k <= |Head(c, d)| ==>
              RecoversTo(c, Install(c, d, Head(c, d), k), v)
  {
    var h := Head(c, d);
    forall k | 0 <= k <= |h| ensures RecoversTo(c, Install(c, d, h, k), v) {
      InstallRedoes(c, d, h, v, k);
      HeadUnique(c, Install(c, d, h, k), h);
    }
    InstallRedoes(c, d, h, v, |h|);
    var r := Recover(c, d);
    HeadUnique(c, r, []);
  }

  // ---------------------------------------------------------------------------------------------

  /** One logged block update, by operation `op`. */
  datatype Update = Update(op: nat, blockno: nat, data: Block)

  ghost function Apply(v: Disk, us: seq<Update>): (r: Disk)
    ensures |r| == |v|
  {
    if us == [] then v
    else
      var w := Apply(v, us[..|us| - 1]);
      SetSector(w, us[|us| - 1].blockno, us[|us| - 1].data)
  }

  ghost function Replay(v: Disk, txns: seq<seq<Update>>): (r: Disk)
    ensures |r| == |v|
  {
    if txns == [] then v else Apply(Replay(v, txns[..|txns| - 1]), txns[|txns| - 1])
  }

  /** An open operation: its name and how many blocks it has appended to the header list. */
  datatype OpenOp = OpenOp(id: nat, used: nat)

  /** Where commit() or recover_from_log() is; Idle when neither runs. */
  datatype Phase =
    | Idle
    | Logging(tail: nat)
    | Installing(tail: nat)
    | Booting
    | Recovering(tail: nat)

  /** `disk` survives a crash; `cache`, `lh`, `open` do not.  The rest is history: the blocks the
      header on disk names, the last committed view, the view the operations see, the updates
      between the two, and the groups of updates committed so far. */
  datatype State = State(
    disk: Disk, head: seq<nat>, cache: map<nat, Block>, lh: seq<nat>, open: seq<OpenOp>, phase: Phase,
    committed: Disk, live: Disk, pending: seq<Update>, txns: seq<seq<Update>>)

  /** Blocks whose buffers log_write pinned and install_trans has not yet unpinned. */
  ghost function Pinned(s: State): seq<nat> {
    match s.phase
    case Idle => s.lh
    case Logging(_) => s.lh
    case Installing(t) => if t <= |s.lh| then s.lh[t..] else []
    case _ => []
  }

  datatype Action =
    | BeginOp(id: nat)
    | LogWrite(who: nat, blockno: nat, data: Block)
    | EndOp(who: nat)
    | WriteLog
    | WriteHead
    | InstallOne
    | EraseHead
    | MoveCache(cache: map<nat, Block>)
    | Crash
    | ReadHead
    | RecoverOne
    | ClearHead

  /** log_write's two capacity tests: true means it panics. */
  predicate LogFull(c: Config, n: nat) {
    n >= c.logSize || n >= c.size - 1
  }

  /** Block b may be in the cache with this content after some buffers were recycled and re-read. */
  ghost predicate Readable(s: State, b: nat, data: Block) {
    b < |s.disk| && ((b in s.cache && data == s.cache[b]) || (b !in Pinned(s) && data == s.disk[b]))
  }

  ghost predicate Enabled(c: Config, s: State, a: Action)
  {
    match a
    case BeginOp(_) => s.phase == Idle && |s.lh| + (|s.open| + 1) * c.maxOpBlocks <= c.logSize
    case LogWrite(i, b, data) =>
      i < |s.open| && s.phase == Idle && !LogFull(c, |s.lh|) && IsHome(c, b) && |data| == c.words && b in s.cache
    case EndOp(i) => i < |s.open| && s.phase == Idle
    case WriteLog => s.phase.Logging? && s.phase.tail < |s.lh| && s.lh[s.phase.tail] in s.cache
    case WriteHead => s.phase == Logging(|s.lh|)
    case InstallOne => s.phase.Installing? && s.phase.tail < |s.lh|
    case EraseHead => s.phase == Installing(|s.lh|)
    case MoveCache(m) =>
      && (forall b: nat :: b in m ==> Readable(s, b, m[b]))
      && (forall b: nat :: b in Pinned(s) && b in s.cache ==> b in m)
    case Crash => true
    case ReadHead => s.phase == Booting
    case RecoverOne => s.phase.Recovering? && s.phase.tail < |s.lh|
    case ClearHead => s.phase == Recovering(|s.lh|)
  }

  /** Writes sector b through its buffer. */
  ghost function Put(s: State, b: nat, data: Block): (r: State) {
    s.(disk := SetSector(s.disk, b, data), cache := s.cache[b := data])
  }

  ghost function Next(c: Config, s: State, a: Action): (r: State)
    requires Enabled(c, s, a)
  {
    match a
    case BeginOp(id) => s.(open := s.open + [OpenOp(id, 0)])
    case LogWrite(i, b, data) =>
      var o := s.open[i];
      var isNew := b !in s.lh;
      s.(cache := s.cache[b := data],
         lh := if isNew then s.lh + [b] else s.lh,
         open := if isNew then s.open[i := OpenOp(o.id, o.used + 1)] else s.open,
         live := SetSector(s.live, b, data),
         pending := s.pending + [Update(o.id, b, data)])
    case EndOp(i) =>
      var rest := s.open[..i] + s.open[i + 1..];
      s.(open := rest, phase := if rest == [] && s.lh != [] then Logging(0) else Idle)
    case WriteLog =>
      var t := s.phase.tail;
      Put(s, c.start + 1 + t, s.cache[s.lh[t]]).(phase := Logging(t + 1))
    case WriteHead =>
      Put(s, c.start, WithHead(Sector(s.disk, c.start), s.lh)).(phase := Installing(0), head := s.lh,
        committed := s.live, pending := [], txns := s.txns + [s.pending])
    case InstallOne =>
      var t := s.phase.tail;
      Put(s, s.lh[t], Sector(s.disk, c.start + 1 + t)).(phase := Installing(t + 1))
    case EraseHead =>
      Put(s, c.start, WithHead(Sector(s.disk, c.start), [])).(phase := Idle, lh := [], head := [])
    case MoveCache(m) => s.(cache := m)
    case Crash =>
      s.(cache := map[], lh := [], open := [], phase := Booting, live := s.committed, pending := [])
    case ReadHead => s.(lh := Head(c, s.disk), phase := Recovering(0))
    case RecoverOne =>
      var t := s.phase.tail;
      Put(s, s.lh[t], Sector(s.disk, c.start + 1 + t)).(phase := Recovering(t + 1))
    case ClearHead =>
      Put(s, c.start, WithHead(Sector(s.disk, c.start), [])).(phase := Idle, lh := [], head := [])
  }

  predicate Restarting(s: State) {
    s.phase.Booting? || s.phase.Recovering?
  }

  /** Cached blocks agree with what their readers should see. */
  ghost predicate CacheInv(c: Config, s: State)
    requires |s.disk| == |s.live| == c.total
  {
    forall b: nat {:trigger s.cache[b]} {:trigger b in s.cache} :: b in s.cache ==>
      && b < c.total
      && (!IsHome(c, b) || Restarting(s) ==> s.cache[b] == s.disk[b])
      && (IsHome(c, b) && !Restarting(s) ==> s.cache[b] == s.live[b])
  }

  ghost predicate PinInv(s: State) {
    forall b: nat :: b in Pinned(s) ==> b in s.cache
  }

  /** The blocks logged so far have reached the log area. */
  ghost predicate Copied(c: Config, s: State, t: nat)
    requires ValidConfig(c) && |s.disk| == |s.live| == c.total && ValidList(c, s.lh) && t <= |s.lh|
  {
    forall i :: 0 <= i < t ==> s.disk[c.start + 1 + i] == s.live[s.lh[i]]
  }

  /** The first t logged blocks have reached their home locations. */
  ghost predicate Installed(c: Config, s: State, t: nat)
    requires |s.disk| == |s.live| == c.total && ValidList(c, s.lh) && t <= |s.lh|
  {
    forall i :: 0 <= i < t ==> s.disk[s.lh[i]] == s.live[s.lh[i]]
  }

  /** Only logged blocks differ between the live and the committed view. */
  ghost predicate OnlyLogged(c: Config, s: State)
    requires |s.committed| == |s.live| == c.total
  {
    forall b: nat {:trigger s.live[b]} :: IsHome(c, b) && b !in s.lh ==> s.live[b] == s.committed[b]
  }

  ghost predicate NothingPending(s: State) {
    s.open == [] && s.pending == [] && s.live == s.committed
  }

  ghost predicate PhaseInv(c: Config, s: State)
    requires |s.committed| == |s.disk| == |s.live| == c.total && ValidConfig(c) && ValidList(c, s.lh)
  {
    match s.phase
    case Idle => s.head == [] && OnlyLogged(c, s) && (s.lh == [] ==> s.pending == [])
    case Logging(t) =>
      s.head == [] && OnlyLogged(c, s) && s.open == [] && s.lh != [] && t <= |s.lh| && Copied(c, s, t)
    case Installing(t) => s.head == s.lh && NothingPending(s) && t <= |s.lh| && Installed(c, s, t)
    case Booting => NothingPending(s) && s.lh == []
    case Recovering(t) => s.head == s.lh && NothingPending(s) && t <= |s.lh| && Installed(c, s, t)
  }

  /** The invariant of every run. */
  ghost predicate Inv(c: Config, s: State) {
    && ValidConfig(c) && ValidList(c, s.lh)
    && ValidDisk(c, s.disk) && ValidDisk(c, s.live) && ValidDisk(c, s.committed)
    && HeadIs(c, s.disk[c.start], s.head) && Redoes(c, s.disk, s.head, s.committed)
    && s.live == Apply(s.committed, s.pending)
    && CacheInv(c, s) && PinInv(s)
    && PhaseInv(c, s)
  }

  lemma InvBasics(c: Config, s: State)
    requires Inv(c, s)
    ensures ValidConfig(c) && ValidList(c, s.lh) && |s.disk| == |s.live| == |s.committed| == c.total
    ensures ValidDisk(c, s.disk) && CacheInv(c, s)
  {
  }

  lemma InvRecovers(c: Config, s: State)
    requires Inv(c, s)
    ensures RecoversTo(c, s.disk, s.committed) && Head(c, s.disk) == s.head
  {
    HeadUnique(c, s.disk, s.head);
  }

  /** A machine switched on with a disk whose log is empty, as mkfs leaves it. */
  ghost predicate Init(c: Config, s: State) {
    && ValidConfig(c) && ValidDisk(c, s.disk) && s.disk[c.start][0] == 0
    && s == State(s.disk, [], map[], [], [], Booting, s.disk, s.disk, [], [])
  }

  lemma InitInv(c: Config, s: State)
    requires Init(c, s)
    ensures Inv(c, s)
  {
  }

  lemma StepInv(c: Config, s: State, a: Action)
    requires Inv(c, s) && Enabled(c, s, a)
    ensures Inv(c, Next(c, s, a))
  {
    match a
    case BeginOp(_) => KeepBegin(c, s, a);
    case LogWrite(_, _, _) => KeepLogWrite(c, s, a);
    case EndOp(_) => KeepEnd(c, s, a);
    case WriteLog => KeepWriteLog(c, s);
    case WriteHead => KeepWriteHead(c, s);
    case InstallOne => KeepInstall(c, s);
    case EraseHead => KeepClear(c, s, EraseHead);
    case MoveCache(_) => KeepMove(c, s, a);
    case Crash => KeepCrash(c, s, a);
    case ReadHead => KeepReadHead(c, s, a);
    case RecoverOne => KeepRecover(c, s);
    case ClearHead => KeepClear(c, s, ClearHead);
  }

  lemma KeepBegin(c: Config, s: State, a: Action)
    requires a.BeginOp? && Inv(c, s) && Enabled(c, s, a)
    ensures Inv(c, Next(c, s, a))
  {
  }

  lemma AppendList(c: Config, l: seq<nat>, b: nat)
    requires ValidList(c, l) && !LogFull(c, |l|) && IsHome(c, b) && b !in l
    ensures ValidList(c, l + [b])
    ensures forall x: nat :: x in l + [b] <==> x in l || x == b
  {
  }

  lemma KeepLogWrite(c: Config, s: State, a: Action)
    requires a.LogWrite? && Inv(c, s) && Enabled(c, s, a)
    ensures Inv(c, Next(c, s, a))
  {
    var n := Next(c, s, a);
    assert n.pending[..|s.pending|] == s.pending;
    if a.blockno !in s.lh {
      AppendList(c, s.lh, a.blockno);
    }
    assert CacheInv(c, n);
    assert PinInv(n);
  }

  lemma KeepEnd(c: Config, s: State, a: Action)
    requires a.EndOp? && Inv(c, s) && Enabled(c, s, a)
    ensures Inv(c, Next(c, s, a))
  {
  }

  lemma KeepCrash(c: Config, s: State, a: Action)
    requires a.Crash? && Inv(c, s) && Enabled(c, s, a)
    ensures Inv(c, Next(c, s, a))
  {
  }

  lemma KeepReadHead(c: Config, s: State, a: Action)
    requires a.ReadHead? && Inv(c, s) && Enabled(c, s, a)
    ensures Inv(c, Next(c, s, a))
  {
    InvRecovers(c, s);
  }

  lemma InSuffix(l: seq<nat>, t: nat, i: nat)
    requires t <= |l| && i < |l|
    ensures t <= i ==> l[i] in l[t..]
  {
    if t <= i { assert l[t..][i - t] == l[i]; }
  }

  lemma KeepMove(c: Config, s: State, a: Action)
    requires a.MoveCache? && Inv(c, s) && Enabled(c, s, a)
    ensures Inv(c, Next(c, s, a))
  {
    forall b: nat | IsHome(c, b) && b !in Pinned(s) && !Restarting(s)
      ensures s.disk[b] == s.live[b]
    {
      if s.phase.Installing? && b in s.lh {
        var i :| 0 <= i < |s.lh| && s.lh[i] == b;
        InSuffix(s.lh, s.phase.tail, i);
      }
    }
  }

  /** Redoing one more logged block changes nothing that recovery will produce. */
  lemma RedoOne(c: Config, d: Disk, h: seq<nat>, v: Disk, t: nat)
    requires Redoes(c, d, h, v) && t < |h|
    ensures d[c.start + 1 + t] == v[h[t]]
    ensures Redoes(c, d[h[t] := v[h[t]]], h, v)
  {
  }

  /** Writing through a buffer what its readers should see. */
  lemma PutKeepsCache(c: Config, s: State, n: State, b: nat, data: Block)
    requires |s.disk| == |s.live| == c.total && b < c.total && CacheInv(c, s)
    requires n.disk == s.disk[b := data] && n.cache == s.cache[b := data] && n.live == s.live
    requires Restarting(n) == Restarting(s) && (IsHome(c, b) && !Restarting(s) ==> data == s.live[b])
    ensures CacheInv(c, n)
  {
  }

  lemma SuffixShrinks(l: seq<nat>, t: nat)
    requires t < |l|
    ensures forall b: nat :: b in l[t + 1..] ==> b in l[t..]
  {
    assert l[t + 1..] == l[t..][1..];
  }

  lemma KeepWriteLog(c: Config, s: State)
    requires Inv(c, s) && Enabled(c, s, WriteLog)
    ensures Inv(c, Next(c, s, WriteLog))
  {
    var t := s.phase.tail;
    PutKeepsCache(c, s, Next(c, s, WriteLog), c.start + 1 + t, s.cache[s.lh[t]]);
  }

  lemma KeepWriteHead(c: Config, s: State)
    requires Inv(c, s) && Enabled(c, s, WriteHead)
    ensures Inv(c, Next(c, s, WriteHead))
  {
    PutKeepsCache(c, s, Next(c, s, WriteHead), c.start, WithHead(s.disk[c.start], s.lh));
    HeadWritten(c, s.disk[c.start], s.lh);
    hide WithHead;
  }

  lemma HeadWritten(c: Config, blk: Block, lh: seq<nat>)
    requires |blk| == c.words && |lh| <= c.logSize < c.words - 1
    ensures HeadIs(c, WithHead(blk, lh), lh)
  {
  }

  lemma KeepInstall(c: Config, s: State)
    requires Inv(c, s) && Enabled(c, s, InstallOne)
    ensures Inv(c, Next(c, s, InstallOne))
  {
    hide HeadIs, WithHead, Apply, OnlyLogged, Copied, Redoes;
    RedoOne(c, s.disk, s.head, s.committed, s.phase.tail);
    SuffixShrinks(s.lh, s.phase.tail);
    var t, n := s.phase.tail, Next(c, s, InstallOne);
    PutKeepsCache(c, s, n, s.lh[t], s.disk[c.start + 1 + t]);
  }

  lemma KeepRecover(c: Config, s: State)
    requires Inv(c, s) && Enabled(c, s, RecoverOne)
    ensures Inv(c, Next(c, s, RecoverOne))
  {
    hide HeadIs, WithHead, Apply, OnlyLogged, Copied, Redoes;
    var t := s.phase.tail;
    RedoOne(c, s.disk, s.head, s.committed, t);
    PutKeepsCache(c, s, Next(c, s, RecoverOne), s.lh[t], s.disk[c.start + 1 + t]);
  }

  lemma KeepClear(c: Config, s: State, a: Action)
    requires (a.EraseHead? || a.ClearHead?) && Inv(c, s) && Enabled(c, s, a)
    ensures Inv(c, Next(c, s, a))
  {
    var n := Next(c, s, a);
    forall b: nat | IsHome(c, b) ensures n.disk[b] == s.committed[b] {
      if b in s.lh { var i :| 0 <= i < |s.lh| && s.lh[i] == b; }
    }
  }
}
