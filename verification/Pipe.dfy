/** xv6-riscv/kernel/pipe.c: a ring of 512 bytes between two counters that wrap at 2^32, as the data
    of a sleep/wakeup monitor.  Readers sleep on &nread, writers on &nwrite. */
module Pipe {
  import S = SleepWakeup

  type byte = x: int | 0 <= x < 256

  const PIPESIZE: nat := 512
  const LIMIT: nat := 0x1_0000_0000
  const READERS: nat := 0
  const WRITERS: nat := 1

  /** struct pipe, with the bytes accepted from writers and handed to readers so far. */
  datatype Data = Data(buf: seq<byte>, nread: nat, nwrite: nat, readopen: bool, writeopen: bool,
                       accepted: seq<byte>, consumed: seq<byte>)

  predicate Empty(d: Data) { d.nread == d.nwrite }

  predicate Full(d: Data) { d.nwrite == (d.nread + PIPESIZE) % LIMIT }

  predicate Blocked(c: nat, d: Data) {
    if c == READERS then Empty(d) && d.writeopen else if c == WRITERS then Full(d) && d.readopen else false
  }

  /** nwrite - nread in 32 bits. */
  function Between(r: nat, w: nat): nat
    requires r < LIMIT
  {
    (w + LIMIT - r) % LIMIT
  }

  /** Where the k-th byte after counter r lies in the ring. */
  function Place(r: nat, k: nat): (p: nat)
    ensures p < PIPESIZE
  {
    (r + k) % LIMIT % PIPESIZE
  }

  /** The bytes between the counters, oldest first. */
  function Contents(d: Data): (r: seq<byte>)
    requires |d.buf| == PIPESIZE && d.nread < LIMIT
  {
    seq(Between(d.nread, d.nwrite), k requires k >= 0 => d.buf[Place(d.nread, k)])
  }

  ghost predicate Ok(d: Data) {
    && |d.buf| == PIPESIZE && d.nread < LIMIT && d.nwrite < LIMIT && Between(d.nread, d.nwrite) <= PIPESIZE
    && d.accepted == d.consumed + Contents(d)
  }

  // ----- The changes made under the lock -----

  function Put(d: Data, b: byte): Data
    requires |d.buf| == PIPESIZE
  {
    d.(buf := d.buf[d.nwrite % PIPESIZE := b], nwrite := (d.nwrite + 1) % LIMIT, accepted := d.accepted + [b])
  }

  function Take(d: Data): Data
    requires |d.buf| == PIPESIZE
  {
    d.(nread := (d.nread + 1) % LIMIT, consumed := d.consumed + [d.buf[d.nread % PIPESIZE]])
  }

  predicate Op(d0: Data, d1: Data) {
    || (|d0.buf| == PIPESIZE && !Full(d0) && d1.accepted != [] && d1 == Put(d0, d1.accepted[|d1.accepted| - 1]))
    || (|d0.buf| == PIPESIZE && !Empty(d0) && d1 == Take(d0))
    || d1 == d0.(readopen := false) || d1 == d0.(writeopen := false)
  }

  /** Places less than 512 apart are distinct, also across the wrap of the counters. */
  lemma Apart(r: nat, j: nat, k: nat)
    requires r < LIMIT && j < k < PIPESIZE
    ensures Place(r, j) != Place(r, k)
  {
    Ring(r, j);
    Ring(r, k);
    Shifted(r + j, k - j);
  }

  lemma Shifted(x: nat, m: nat)
    requires 0 < m < PIPESIZE
    ensures x % PIPESIZE != (x + m) % PIPESIZE
  {
  }

  lemma Ring(r: nat, k: nat)
    requires r < LIMIT && k <= PIPESIZE
    ensures (r + k) % LIMIT % PIPESIZE == (r + k) % PIPESIZE
  {
    assert LIMIT == 0x80_0000 * PIPESIZE;
  }

  lemma PutOk(d: Data, b: byte)
    requires Ok(d) && !Full(d)
    ensures Ok(Put(d, b)) && Contents(Put(d, b)) == Contents(d) + [b]
  {
    var c, d1 := Between(d.nread, d.nwrite), Put(d, b);
    CountPut(d.nread, d.nwrite);
    hide Between, Place, Full;
    forall k: nat | k < c ensures Contents(d1)[k] == Contents(d)[k] {
      Apart(d.nread, k, c);
    }
    assert Contents(d1) == Contents(d) + [b];
  }

  lemma CountPut(r: nat, w: nat)
    requires r < LIMIT && w < LIMIT && Between(r, w) <= PIPESIZE && w != (r + PIPESIZE) % LIMIT
    ensures Between(r, w) < PIPESIZE && Between(r, (w + 1) % LIMIT) == Between(r, w) + 1
    ensures Place(r, Between(r, w)) == w % PIPESIZE
  {
  }

  lemma TakeOk(d: Data)
    requires Ok(d) && !Empty(d)
    ensures Ok(Take(d)) && Contents(d) == [d.buf[d.nread % PIPESIZE]] + Contents(Take(d))
  {
    TakeContents(d);
    CountTake(d.nread, d.nwrite);
    hide Contents, Between;
    Associate(d.consumed, [d.buf[d.nread % PIPESIZE]], Contents(Take(d)));
  }

  lemma Associate(a: seq<byte>, b: seq<byte>, c: seq<byte>)
    ensures a + (b + c) == a + b + c
  {
  }

  lemma TakeContents(d: Data)
    requires Ok(d) && !Empty(d)
    ensures Contents(d) == [d.buf[d.nread % PIPESIZE]] + Contents(Take(d))
  {
    var c, d1 := Between(d.nread, d.nwrite), Take(d);
    CountTake(d.nread, d.nwrite);
    hide Between, Place, Ok;
    forall k: nat | k < c - 1 ensures Contents(d1)[k] == Contents(d)[k + 1] {
      NextPlace(d.nread, k);
    }
  }

  lemma CountTake(r: nat, w: nat)
    requires r < LIMIT && w < LIMIT && r != w
    ensures Between(r, w) > 0 && Between((r + 1) % LIMIT, w) == Between(r, w) - 1
    ensures Place(r, 0) == r % PIPESIZE
  {
  }

  lemma NextPlace(r: nat, k: nat)
    requires r < LIMIT && k < PIPESIZE
    ensures Place((r + 1) % LIMIT, k) == Place(r, k + 1)
  {
  }

  lemma OpOk(d0: Data, d1: Data)
    requires Ok(d0) && Op(d0, d1)
    ensures Ok(d1)
  {
    if d1 == d0.(readopen := false) || d1 == d0.(writeopen := false) {
      assert Contents(d1) == Contents(d0);
    } else if !Full(d0) && d1.accepted != [] && d1 == Put(d0, d1.accepted[|d1.accepted| - 1]) {
      PutOk(d0, d1.accepted[|d1.accepted| - 1]);
    } else {
      TakeOk(d0);
    }
  }

  // ----- Whole runs -----

  /** In every interleaving at most 512 bytes are in flight, and readers get a prefix of what writers
      gave.  A process that sleeps, with the lock free, on a pipe that has bytes or no writer (to read),
      or that has room or no reader (to write), was left asleep by a section that ended owing it a
      wakeup. */
  lemma Fifo(n: nat, run: seq<S.State<Data>>, steps: seq<S.Step<Data>>, k: nat)
    requires S.IsRun(n, Blocked, Op, run, steps) && k < |run| && Ok(run[0].data)
    ensures Ok(run[k].data) && Between(run[k].data.nread, run[k].data.nwrite) <= PIPESIZE
    ensures run[k].data.consumed <= run[k].data.accepted
    ensures S.Sized(n, run[k])
    ensures forall j: nat, c: nat {:trigger S.Stranded(Blocked, run, k, j, c)} :: j < n ==>
              (S.Stranded(Blocked, run, k, j, c) <==>
               run[k].lk == S.NOBODY && !Blocked(c, run[k].data) && exists m: nat :: S.LostAt(run, steps, m, k, j, c))
  {
    forall d0, d1 {:trigger Op(d0, d1)} | Ok(d0) && Op(d0, d1) ensures Ok(d1) {
      OpOk(d0, d1);
    }
    S.RunData(n, Blocked, Op, run, steps, d => Ok(d), k);
    S.RunInv(n, Blocked, Op, run, steps, k);
    forall j: nat, c: nat | j < n
      ensures S.Stranded(Blocked, run, k, j, c) <==>
              run[k].lk == S.NOBODY && !Blocked(c, run[k].data) && exists m: nat :: S.LostAt(run, steps, m, k, j, c)
    {
      S.StrandedExactly(n, Blocked, Op, run, steps, k, j, c);
    }
  }

  /** When no section ends owing a wakeup, nobody sleeps without reason. */
  lemma SleepersHaveReason(n: nat, run: seq<S.State<Data>>, steps: seq<S.Step<Data>>, k: nat, j: nat)
    requires S.IsRun(n, Blocked, Op, run, steps) && k < |run| && S.Disciplined(run, steps) && j < n && run[k].lk == S.NOBODY
    ensures S.Sized(n, run[k])
    ensures S.Waiting(run[k], j, READERS) ==> run[k].data.nread == run[k].data.nwrite && run[k].data.writeopen
    ensures S.Waiting(run[k], j, WRITERS) ==> Full(run[k].data) && run[k].data.readopen
  {
    S.NoLostWakeup(n, Blocked, Op, run, steps, k, j, READERS);
    S.NoLostWakeup(n, Blocked, Op, run, steps, k, j, WRITERS);
  }

  /** The release of a writer that was killed owing the readers their wakeup leaves reader j asleep on
      a pipe that has bytes exactly when j was waiting. */
  lemma KilledWriterStrands(n: nat, s: S.State<Data>, e: S.Step<Data>, t: S.State<Data>, j: nat)
    requires S.Inv(n, Blocked, s) && S.Next(n, Blocked, s, e, t) && e.Release? && j < n
    requires READERS in s.owed && !Empty(s.data)
    ensures S.Sized(n, s) && S.Sized(n, t)
    ensures t.lk == S.NOBODY && S.Waiting(t, j, READERS) && !Blocked(READERS, t.data) <==> S.Waiting(s, j, READERS)
  {
    assert S.ProcOk(n, Blocked, s, j) && S.ProcOk(n, Blocked, s, e.i);
  }

  /** Process 0 finds the pipe empty and sleeps; process 1 writes a byte, is killed by process 2 before
      its next one, and gives the lock up. */
  function Story(d0: Data, d1: Data): (run: seq<S.State<Data>>)
    ensures |run| == 11
  {
    var none, three := S.NOBODY, [S.NOBODY, S.NOBODY, S.NOBODY];
    var out, go := [S.Outside, S.Outside, S.Outside], [S.Running, S.Running, S.Running];
    var s0 := S.State(d0, none, three, out, go, [0, 0, 0], {}, {});
    var s1 := s0.(lk := 0, pc := out[0 := S.Inside]);
    var s2 := s1.(pc := out[0 := S.Sleep1(READERS)]);
    var s3 := s2.(plock := three[0 := 0], pc := out[0 := S.Sleep2(READERS)]);
    var s4 := s3.(lk := none, pc := out[0 := S.Sleep3(READERS)]);
    var s5 := s4.(state := go[0 := S.Sleeping], pc := out[0 := S.Sleep4(READERS)]);
    var s6 := s5.(plock := three, pc := out[0 := S.Asleep(READERS)]);
    var s7 := s6.(lk := 1, pc := s6.pc[1 := S.Inside]);
    var s8 := s7.(data := d1, owed := {READERS});
    var s10 := s8.(lk := none, pc := s6.pc, owed := {});
    [s0, s1, s2, s3, s4, s5, s6, s7, s8, s8, s10]
  }

  function StorySteps(d1: Data): (steps: seq<S.Step<Data>>)
    ensures |steps| == 10
  {
    [S.Acquire(0), S.CallSleep(0, READERS), S.SleepStep(0), S.SleepStep(0), S.SleepStep(0), S.SleepStep(0),
     S.Acquire(1), S.Change(1, d1), S.Kill(2, 1), S.Release(1)]
  }

  lemma StoryStep(d0: Data, d1: Data, k: nat)
    requires Blocked(READERS, d0) && Op(d0, d1) && S.Owes(Blocked, d0, d1, {}, {READERS}, {}) && k < 10
    ensures S.StepAt(3, Blocked, Op, Story(d0, d1), StorySteps(d1), k)
  {
    var s, t, e := Story(d0, d1)[k], Story(d0, d1)[k + 1], StorySteps(d1)[k];
    if k < 5 {
      ReaderSteps(d0, d1, k);
    } else {
      WriterSteps(d0, d1, k);
    }
  }

  lemma ReaderSteps(d0: Data, d1: Data, k: nat)
    requires Blocked(READERS, d0) && k < 5
    ensures S.Next(3, Blocked, Story(d0, d1)[k], StorySteps(d1)[k], Story(d0, d1)[k + 1]) && !StorySteps(d1)[k].Change?
  {
    hide Blocked;
    if k == 0 {
    } else if k == 1 {
    } else if k == 2 {
    } else if k == 3 {
    }
  }

  lemma WriterSteps(d0: Data, d1: Data, k: nat)
    requires S.Owes(Blocked, d0, d1, {}, {READERS}, {}) && 5 <= k < 10
    ensures S.Next(3, Blocked, Story(d0, d1)[k], StorySteps(d1)[k], Story(d0, d1)[k + 1])
    ensures StorySteps(d1)[k].Change? ==> Story(d0, d1)[k].data == d0 && StorySteps(d1)[k].d == d1
  {
    hide Blocked;
    if k == 5 {
    } else if k == 6 {
    } else if k == 7 {
    } else if k == 8 {
    }
  }

  /** So the reader sleeps on with a byte in the pipe. */
  lemma KilledWriter() returns (run: seq<S.State<Data>>, steps: seq<S.Step<Data>>)
    ensures S.IsRun(3, Blocked, Op, run, steps) && |run| == 11 && steps[8] == S.Kill(2, 1) && steps[9] == S.Release(1)
    ensures S.Stranded(Blocked, run, 10, 0, READERS) && Ok(run[0].data) && Ok(run[10].data) && Contents(run[10].data) == [7]
  {
    var d0 := Data(seq(PIPESIZE, _ => 0), 0, 0, true, true, [], []);
    assert Contents(d0) == [];
    PutOk(d0, 7);
    var d1 := Put(d0, 7);
    FirstByte(d0, d1);
    run, steps := Story(d0, d1), StorySteps(d1);
    hide Put, Contents, Blocked, Op;
    forall k: nat | k < 10 ensures S.StepAt(3, Blocked, Op, run, steps, k) {
      StoryStep(d0, d1, k);
    }
  }

  lemma FirstByte(d0: Data, d1: Data)
    requires Ok(d0) && Empty(d0) && d0.nread < PIPESIZE && d0.writeopen && d1 == Put(d0, 7)
    ensures Blocked(READERS, d0) && !Blocked(READERS, d1) && Op(d0, d1) && S.Owes(Blocked, d0, d1, {}, {READERS}, {})
  {
    assert d1.accepted[|d1.accepted| - 1] == 7;
    StoreOwes(d0, d1, 7);
  }

  // ----- pipewrite, piperead, pipeclose: one critical section at a time -----

  datatype Outcome = Finished | Sleeps | Failed

  class Code {
    var buf: seq<byte>
    var nread: nat
    var nwrite: nat
    var readopen: bool
    var writeopen: bool
    ghost var accepted: seq<byte>
    ghost var consumed: seq<byte>
    /** Channels owed a wakeup, and channels woken, in this critical section. */
    ghost var owed: set<nat>
    ghost var quiet: set<nat>

    ghost function D(): Data
      reads this
    {
      Data(buf, nread, nwrite, readopen, writeopen, accepted, consumed)
    }

    /** pipealloc. */
    constructor ()
      ensures Ok(D()) && Empty(D()) && readopen && writeopen && accepted == [] && owed == {} && quiet == {}
    {
      buf := seq(PIPESIZE, _ => 0);
      nread, nwrite, readopen, writeopen := 0, 0, true, true;
      accepted, consumed, owed, quiet := [], [], {}, {};
    }

    /** What the change from d0 left owed, by the rule of the monitor. */
    ghost method Settle(d0: Data)
      modifies this`owed
      ensures S.Owes(Blocked, d0, D(), old(owed), owed, quiet)
    {
      var o: set<nat> := {};
      if S.Unblocks(Blocked, d0, D(), READERS) && READERS !in quiet { o := o + {READERS}; }
      if S.Unblocks(Blocked, d0, D(), WRITERS) && WRITERS !in quiet { o := o + {WRITERS}; }
      owed := owed + o;
    }

    method Wakeup(ghost c: nat)
      modifies this`owed, this`quiet
      ensures owed == old(owed) - {c} && quiet == old(quiet) + {c}
    {
      owed, quiet := owed - {c}, quiet + {c};
    }

    /** A byte goes into the ring at the write counter. */
    method Store(ch: byte)
      requires Ok(D()) && !Full(D())
      modifies this`buf, this`nwrite, this`accepted, this`owed
      ensures Ok(D()) && D() == Put(old(D()), ch) && Op(old(D()), D()) && S.Owes(Blocked, old(D()), D(), old(owed), owed, quiet)
    {
      ghost var d0 := D();
      PutOk(d0, ch);
      buf := buf[nwrite % PIPESIZE := ch];
      nwrite := (nwrite + 1) % LIMIT;
      accepted := accepted + [ch];
      Settle(d0);
    }

    /** A byte comes out of the ring at the read counter. */
    method Fetch() returns (ch: byte)
      requires Ok(D()) && !Empty(D())
      modifies this`nread, this`consumed, this`owed
      ensures Ok(D()) && D() == Take(old(D())) && consumed == old(consumed) + [ch]
      ensures Op(old(D()), D()) && S.Owes(Blocked, old(D()), D(), old(owed), owed, quiet)
      ensures Contents(old(D())) == [ch] + Contents(D())
    {
      ghost var d0 := D();
      TakeOk(d0);
      ch := buf[nread % PIPESIZE];
      nread := (nread + 1) % LIMIT;
      consumed := consumed + [ch];
      Settle(d0);
    }

    /** pipewrite from holding the lock to giving it up, with i0 of the n bytes of src written before.
        killed() answers true from byte killedAt on, and copyin fails from byte bad on.  Bytes go in
        until the first of these holds for the next one, or the ring has 512.  A writer killed after
        it wrote into an empty pipe gives the lock up owing the readers their wakeup. */
    method WriteSection(src: seq<byte>, i0: nat, killedAt: nat, bad: nat) returns (i: nat, r: Outcome)
      requires Ok(D()) && i0 <= |src| && owed == {} && quiet == {}
      modifies this`buf, this`nwrite, this`accepted, this`owed, this`quiet
      ensures Ok(D()) && i0 <= i <= |src| && accepted == old(accepted) + src[i0..i]
      ensures Contents(D()) == Contents(old(D())) + src[i0..i] && (i > i0 ==> readopen && i <= killedAt && i <= bad)
      ensures r == Failed <==> i < |src| && (!readopen || i >= killedAt)
      ensures r == Sleeps <==> i < |src| && readopen && i < killedAt && |Contents(D())| == PIPESIZE
      ensures r == Finished <==> i == |src| || (i >= bad && readopen && i < killedAt && |Contents(D())| < PIPESIZE)
      ensures owed == if r == Failed && i > i0 && Empty(old(D())) && writeopen then {READERS} else {}
    {
      hide Ok, Contents, S.Owes, Blocked;
      OkCounts(D());
      i := i0;
      while i < |src|
        invariant Ok(D()) && i0 <= i <= |src| && accepted == old(accepted) + src[i0..i] && quiet == {}
        invariant |buf| == PIPESIZE && nread < LIMIT && |old(buf)| == PIPESIZE
        invariant Contents(D()) == Contents(old(D())) + src[i0..i] && (i > i0 ==> readopen && i <= killedAt && i <= bad)
        invariant i == i0 ==> D() == old(D())
        invariant i > i0 ==> !Empty(D())
        invariant owed == if i > i0 && Empty(old(D())) && writeopen then {READERS} else {}
        decreases |src| - i
      {
        OkCounts(D());
        if !readopen || i >= killedAt {
          return i, Failed;
        }
        if nwrite == (nread + PIPESIZE) % LIMIT {
          Wakeup(READERS);
          return i, Sleeps;
        }
        if i >= bad {
          break;
        }
        ghost var d0 := D();
        PutOk(d0, src[i]);
        Store(src[i]);
        StoreOwes(d0, D(), src[i]);
        assert src[i0..i + 1] == src[i0..i] + [src[i]];
        OkCounts(D());
        i := i + 1;
      }
      Wakeup(READERS);
      r := Finished;
    }

    /** piperead from holding the lock to giving it up; copyout fails from byte bad on, and then the
        byte fetched last is lost.  It sleeps, or fails if killed, exactly on an empty pipe that
        somebody may still write to; otherwise it takes the oldest bytes, and none exactly at the end
        of the file. */
    method ReadSection(n: nat, killed: bool, bad: nat) returns (out: seq<byte>, r: Outcome)
      requires Ok(D()) && owed == {} && quiet == {}
      modifies this`nread, this`consumed, this`owed, this`quiet
      ensures Ok(D()) && owed == {} && |old(buf)| == PIPESIZE && old(nread) < LIMIT
      ensures r != Finished <==> Contents(old(D())) == [] && writeopen
      ensures r != Finished ==> out == [] && D() == old(D()) && (r == Failed <==> killed)
      ensures r == Finished ==> |out| == Min(Min(n, bad), |Contents(old(D()))|) && out == Contents(old(D()))[..|out|]
      ensures r == Finished ==>
                var took := if bad < n && bad < |Contents(old(D()))| then bad + 1 else |out|;
                && took <= |Contents(old(D()))| && Contents(D()) == Contents(old(D()))[took..]
                && consumed == old(consumed) + Contents(old(D()))[..took]
      ensures n > 0 && bad > 0 ==> (r == Finished && out == [] <==> Contents(old(D())) == [] && !writeopen)
    {
      hide Ok, Contents, S.Owes, Blocked;
      OkCounts(D());
      ghost var d, c := D(), Contents(D());
      out := [];
      if nread == nwrite && writeopen {
        r := if killed then Failed else Sleeps;
        return;
      }
      var i := 0;
      ghost var took := 0;
      while i < n
        invariant Ok(D()) && i <= n && i <= bad && took == i <= |c| && out == c[..i] && consumed == d.consumed + c[..i]
        invariant |buf| == PIPESIZE && nread < LIMIT && Contents(D()) == c[i..] && quiet == {} && owed <= {WRITERS}
      {
        OkCounts(D());
        if nread == nwrite {
          break;
        }
        ghost var d0 := D();
        TakeOk(d0);
        var ch := Fetch();
        FetchOwes(d0, D());
        OkCounts(D());
        assert ch == c[i] && c[..i + 1] == c[..i] + [c[i]];
        took := i + 1;
        if i >= bad {
          break;
        }
        out := out + [ch];
        i := i + 1;
      }
      Wakeup(WRITERS);
      r := Finished;
    }

    /** pipeclose, but for freeing the page. */
    method Close(writable: bool)
      requires Ok(D()) && owed == {} && quiet == {}
      modifies this`readopen, this`writeopen, this`owed, this`quiet
      ensures Ok(D()) && owed == {}
      ensures D() == if writable then old(D()).(writeopen := false) else old(D()).(readopen := false)
    {
      ghost var d0 := D();
      if writable {
        writeopen := false;
        Settle(d0);
        Wakeup(READERS);
      } else {
        readopen := false;
        Settle(d0);
        Wakeup(WRITERS);
      }
      OpOk(d0, D());
    }
  }

  function Min(a: nat, b: nat): nat { if a < b then a else b }

  /** The tests on the counters, said of the bytes between them. */
  lemma OkCounts(d: Data)
    requires Ok(d)
    ensures |d.buf| == PIPESIZE && d.nread < LIMIT && |Contents(d)| <= PIPESIZE
    ensures Full(d) <==> |Contents(d)| == PIPESIZE
    ensures Empty(d) <==> Contents(d) == []
  {
  }

  lemma StoreOwes(d0: Data, d1: Data, ch: byte)
    requires Ok(d0) && !Full(d0) && d1 == Put(d0, ch)
    ensures !Empty(d1)
    ensures forall c: nat :: S.Unblocks(Blocked, d0, d1, c) <==> c == READERS && Empty(d0) && d0.writeopen
  {
    CountPut(d0.nread, d0.nwrite);
  }

  lemma FetchOwes(d0: Data, d1: Data)
    requires Ok(d0) && !Empty(d0) && d1 == Take(d0)
    ensures forall c: nat :: S.Unblocks(Blocked, d0, d1, c) ==> c == WRITERS
  {
  }
}
