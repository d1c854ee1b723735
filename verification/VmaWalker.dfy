/** fpga/vma.v: the hardware page-table walker, clock by clock, against the kernel's walk.
    Registers change all at once on a clock edge, so a clock is a function of registers and inputs. */
module VmaWalker {
  import opened VmModel

  /** The registers; stbN are the walkN_stb of the source. */
  datatype Regs = Regs(walk1: bool, walk2: bool, walk3: bool, stb1: bool, stb2: bool, stb3: bool, pte: nat)

  /** The inputs during one clock: the core's request and the answer of the bus. */
  datatype In = In(rst: bool, vaddr: nat, vstb: bool, satp: nat, smode: bool, sfence: bool, pack: bool, pdat: nat)

  /** The mode bit of satp. */
  predicate Enabled(satp: nat) { satp / 0x8000_0000 % 2 == 1 }

  predicate Mode(i: In) { Enabled(i.satp) && i.smode }

  predicate Exception(r: Regs, i: In) { (r.walk1 || r.walk2) && i.pack && i.pdat % 2 == 0 }

  predicate Reset(r: Regs, i: In) { i.rst || i.sfence || Exception(r, i) }

  /** o_p_addr. */
  function PAddr(r: Regs, i: In): nat {
    var low := if Mode(i) && r.walk1 then i.vaddr / 0x40_0000 * 4
               else if Mode(i) && r.walk2 then i.vaddr / PGSIZE % ENTRIES * 4
               else i.vaddr % PGSIZE;
    var high := if !Mode(i) then i.vaddr / PGSIZE else if r.walk1 then i.satp % NPAGES else Frame(r.pte);
    high * PGSIZE + low
  }

  /** o_p_stb. */
  predicate PStb(r: Regs, i: In) {
    if !Mode(i) then i.vstb else r.stb3 || r.stb1 || r.stb2
  }

  /** o_v_ack. */
  predicate VAck(r: Regs, i: In) {
    if !Mode(i) then i.pack else r.walk3 && i.pack
  }

  /** The always blocks. */
  function Next(r: Regs, i: In): Regs {
    var start := Mode(i) && i.vstb;
    var rst := Reset(r, i);
    Regs(
      if rst then false else if start then true else if r.walk1 && i.pack then false else r.walk1,
      if rst then false else if r.walk1 && i.pack then true else if r.walk2 && i.pack then false else r.walk2,
      if rst then false else if r.walk2 && i.pack then true else if r.walk3 && i.pack then false else r.walk3,
      if rst || r.stb1 then false else if start then true else r.stb1,
      if rst || r.stb2 then false else if r.walk1 && i.pack then true else r.stb2,
      if rst || r.stb3 then false else if r.walk2 && i.pack then true else r.stb3,
      if rst then 0 else if (r.walk1 || r.walk2) && i.pack then i.pdat else r.pte)
  }

  predicate Idle(r: Regs) {
    !r.walk1 && !r.walk2 && !r.walk3 && !r.stb1 && !r.stb2 && !r.stb3
  }

  /** With paging off, outside supervisor mode or by satp, the core's address, strobe and the bus's answer go
      straight through, and no walk begins. */
  lemma Bare(r: Regs, i: In)
    requires !(i.satp / 0x8000_0000 % 2 == 1 && i.smode) && i.vaddr < LIMIT
    ensures PAddr(r, i) == i.vaddr && (PStb(r, i) <==> i.vstb) && (VAck(r, i) <==> i.pack)
    ensures Idle(r) ==> Idle(Next(r, i))
  {
    assert i.vaddr / PGSIZE * PGSIZE + i.vaddr % PGSIZE == i.vaddr;
  }

  // ----- The bus: it answers each strobe once, after any number of clocks, possibly none -----

  datatype Bus = NoRequest | Request(addr: nat)

  datatype System = System(regs: Regs, bus: Bus)

  /** The request the bus sees during a clock. */
  function Seen(s: System, i: In): Bus {
    if PStb(s.regs, i) then Request(PAddr(s.regs, i)) else s.bus
  }

  function Clock(s: System, i: In): System {
    System(Next(s.regs, i), if i.pack then NoRequest else Seen(s, i))
  }

  function After(s: System, ins: seq<In>): System {
    if ins == [] then s else Clock(After(s, ins[..|ins| - 1]), ins[|ins| - 1])
  }

  function Answers(ins: seq<In>): nat {
    if ins == [] then 0 else Answers(ins[..|ins| - 1]) + if ins[|ins| - 1].pack then 1 else 0
  }

  /** The word of physical memory at an address; 0 outside it. */
  function WordAt(mem: seq<Page>, a: nat): nat {
    if a / PGSIZE < |mem| then mem[a / PGSIZE][a % PGSIZE / 4] else 0
  }

  /** Paging is on, va and satp hold still, nothing is reset, the core strobes in the first clock
      only (rv32.v:38-41), and the bus answers requests from memory. */
  ghost predicate Fair(mem: seq<Page>, satp: nat, va: nat, s: System, ins: seq<In>) {
    forall t {:trigger ins[t]} :: 0 <= t < |ins| ==>
      var i := ins[t];
      && !i.rst && !i.sfence && i.smode && i.satp == satp && i.vaddr == va && (i.vstb <==> t == 0)
      && (i.pack ==> Served(mem, Seen(After(s, ins[..t]), i), i))
  }

  predicate Served(mem: seq<Page>, b: Bus, i: In) {
    b.Request? && i.pdat == WordAt(mem, b.addr)
  }

  /** ...clock after clock: with paging off each request reaches the bus as it is, and its answer the core. */
  lemma {:induction false} BareRun(s: System, ins: seq<In>)
    requires Idle(s.regs) && forall t {:trigger ins[t]} :: 0 <= t < |ins| ==>
               !(ins[t].satp / 0x8000_0000 % 2 == 1 && ins[t].smode) && ins[t].vaddr < LIMIT
    ensures Idle(After(s, ins).regs)
    ensures forall t {:trigger ins[t]} :: 0 <= t < |ins| ==>
              var u, i := After(s, ins[..t]), ins[t];
              && (i.vstb ==> Seen(u, i) == Request(i.vaddr)) && (VAck(u.regs, i) <==> i.pack)
  {
    if ins != [] {
      var n := |ins| - 1;
      BareRun(s, ins[..n]);
      Bare(After(s, ins[..n]).regs, ins[n]);
      forall t | 0 <= t < n ensures ins[..n][t] == ins[t] && ins[..n][..t] == ins[..t] {
      }
    }
  }

  // ----- What the walk must compute -----

  function Addr1(satp: nat, va: nat): nat { satp % NPAGES * PGSIZE + va / 0x40_0000 * 4 }

  /** The first entry read. */
  function Pte1(mem: seq<Page>, satp: nat, va: nat): nat { WordAt(mem, Addr1(satp, va)) }

  function Addr2(mem: seq<Page>, satp: nat, va: nat): nat {
    Frame(Pte1(mem, satp, va)) * PGSIZE + va / PGSIZE % ENTRIES * 4
  }

  function Pte2(mem: seq<Page>, satp: nat, va: nat): nat { WordAt(mem, Addr2(mem, satp, va)) }

  function Physical(mem: seq<Page>, satp: nat, va: nat): nat {
    Frame(Pte2(mem, satp, va)) * PGSIZE + va % PGSIZE
  }

  /** The entries the kernel's walk finds for the same root: in the root, and *walk(root, va, 0). */
  function KernelTable(mem: seq<Page>, satp: nat, va: nat): nat
    requires va < LIMIT && satp % NPAGES < |mem|
  {
    Entry(mem, Table(satp % NPAGES, va / PGSIZE / ENTRIES))
  }

  function KernelLeaf(mem: seq<Page>, satp: nat, va: nat): nat
    requires va < LIMIT && satp % NPAGES < |mem|
  {
    Entry(mem, Leaf(satp % NPAGES, va / PGSIZE))
  }

  lemma SameEntries32(mem: seq<Page>, satp: nat, va: nat)
    requires va < LIMIT && satp % NPAGES < |mem|
    ensures Pte1(mem, satp, va) == KernelTable(mem, satp, va)
    ensures IsValid(Pte1(mem, satp, va)) ==> Pte2(mem, satp, va) == KernelLeaf(mem, satp, va)
    ensures !IsValid(Pte1(mem, satp, va)) ==> !IsValid(KernelLeaf(mem, satp, va))
  {
    Split(satp % NPAGES, va / 0x40_0000);
    Split(Frame(Pte1(mem, satp, va)), va / PGSIZE % ENTRIES);
    assert va / 0x40_0000 == va / PGSIZE / ENTRIES;
  }

  lemma Split(frame: nat, i: nat)
    requires i < ENTRIES
    ensures (frame * PGSIZE + i * 4) / PGSIZE == frame && (frame * PGSIZE + i * 4) % PGSIZE / 4 == i
  {
    assert (frame * PGSIZE + i * 4) % PGSIZE == i * 4;
  }

  /** Where the walker is after n answers. */
  ghost predicate Phase(mem: seq<Page>, satp: nat, va: nat, s: System, n: nat) {
    var r := s.regs;
    var e1, e2 := Pte1(mem, satp, va), Pte2(mem, satp, va);
    if n == 0 then
      r == Regs(true, false, false, r.stb1, false, false, r.pte) && Asked(r.stb1, s.bus, Addr1(satp, va))
    else if n == 1 && IsValid(e1) then
      r == Regs(false, true, false, false, r.stb2, false, e1) && Asked(r.stb2, s.bus, Addr2(mem, satp, va))
    else if n == 2 && IsValid(e1) && IsValid(e2) then
      r == Regs(false, false, true, false, false, r.stb3, e2) && Asked(r.stb3, s.bus, Physical(mem, satp, va))
    else
      Idle(r) && s.bus == NoRequest && n == if !IsValid(e1) then 1 else if !IsValid(e2) then 2 else 3
  }

  /** The request is being strobed, or is with the bus. */
  predicate Asked(stb: bool, b: Bus, a: nat) {
    b == if stb then NoRequest else Request(a)
  }

  lemma PhaseStep(mem: seq<Page>, satp: nat, va: nat, s: System, n: nat, i: In)
    requires va < LIMIT && Enabled(satp) && Phase(mem, satp, va, s, n)
    requires !i.rst && !i.sfence && i.smode && i.satp == satp && i.vaddr == va && !i.vstb
    requires i.pack ==> Served(mem, Seen(s, i), i)
    ensures Phase(mem, satp, va, Clock(s, i), if i.pack then n + 1 else n)
    ensures VAck(s.regs, i) ==> n == 2 && IsValid(Pte1(mem, satp, va)) && IsValid(Pte2(mem, satp, va))
                                && Seen(s, i) == Request(Physical(mem, satp, va))
  {
    hide WordAt, Frame;
  }

  /** From idle, the phase is decided by the number of answers and the two valid bits, whatever the
      delays. */
  lemma {:induction false} WalkPhases(mem: seq<Page>, satp: nat, va: nat, s: System, ins: seq<In>)
    requires va < LIMIT && Enabled(satp) && Idle(s.regs) && s.bus == NoRequest && ins != [] && Fair(mem, satp, va, s, ins)
    ensures Phase(mem, satp, va, After(s, ins), Answers(ins))
  {
    var n := |ins| - 1;
    var front := ins[..n];
    assert After(s, ins) == Clock(After(s, front), ins[n]);
    if n > 0 {
      assert Fair(mem, satp, va, s, front) by { Shorter(mem, satp, va, s, ins); }
      WalkPhases(mem, satp, va, s, front);
      PhaseStep(mem, satp, va, After(s, front), Answers(front), ins[n]);
    } else {
      FirstClock(mem, satp, va, s, ins);
    }
  }

  lemma FirstClock(mem: seq<Page>, satp: nat, va: nat, s: System, ins: seq<In>)
    requires Enabled(satp) && Idle(s.regs) && s.bus == NoRequest && |ins| == 1 && Fair(mem, satp, va, s, ins)
    ensures Phase(mem, satp, va, After(s, ins), Answers(ins))
  {
    hide WordAt, Frame;
    assert ins[..0] == [];
    assert After(s, ins[..0]) == s && Answers(ins[..0]) == 0;
    assert !ins[0].pack;
  }

  lemma Shorter(mem: seq<Page>, satp: nat, va: nat, s: System, ins: seq<In>)
    requires ins != [] && Fair(mem, satp, va, s, ins)
    ensures Fair(mem, satp, va, s, ins[..|ins| - 1])
  {
    var front := ins[..|ins| - 1];
    forall t | 0 <= t < |front| ensures front[t] == ins[t] && front[..t] == ins[..t] {
    }
  }

  lemma Reached(mem: seq<Page>, satp: nat, va: nat, s: System, ins: seq<In>)
    requires va < LIMIT && Enabled(satp) && Idle(s.regs) && s.bus == NoRequest && ins != [] && Fair(mem, satp, va, s, ins)
    ensures var e1, e2 := Pte1(mem, satp, va), Pte2(mem, satp, va);
            && (After(s, ins).regs.walk3 <==> IsValid(e1) && IsValid(e2) && Answers(ins) == 2)
            && (After(s, ins).regs.walk3 ==> forall i: In :: i.satp == satp && i.vaddr == va && i.smode ==>
                  PAddr(After(s, ins).regs, i) == Physical(mem, satp, va))
            && Answers(ins) <= (if !IsValid(e1) then 1 else if !IsValid(e2) then 2 else 3)
  {
    WalkPhases(mem, satp, va, s, ins);
    hide WordAt, Frame, After, Answers, Fair, Addr1, Addr2;
  }

  /** Phase 3 is reached exactly when both entries are valid and have been read; the address is then
      PTE2PA(*walk(root, va, 0)) plus the offset. */
  lemma Translates(mem: seq<Page>, satp: nat, va: nat, s: System, ins: seq<In>)
    requires va < LIMIT && Enabled(satp) && satp % NPAGES < |mem|
    requires Idle(s.regs) && s.bus == NoRequest && ins != [] && Fair(mem, satp, va, s, ins)
    ensures var e1, e2 := KernelTable(mem, satp, va), KernelLeaf(mem, satp, va);
            && (After(s, ins).regs.walk3 <==> IsValid(e1) && IsValid(e2) && Answers(ins) == 2)
            && (After(s, ins).regs.walk3 ==> forall i: In :: i.satp == satp && i.vaddr == va && i.smode ==>
                  PAddr(After(s, ins).regs, i) == Frame(e2) * PGSIZE + va % PGSIZE)
            && Answers(ins) <= (if !IsValid(e1) then 1 else if !IsValid(e2) then 2 else 3)
  {
    SameEntries32(mem, satp, va);
    Reached(mem, satp, va, s, ins);
    hide WordAt, Frame, After, Answers, Fair, KernelTable, KernelLeaf, Pte1, Pte2, PAddr, Next, Enabled, IsValid;
  }

  /** The core is answered only after a complete walk, with the word at the translated address. */
  lemma AnswerRight(mem: seq<Page>, satp: nat, va: nat, s: System, ins: seq<In>, t: nat)
    requires va < LIMIT && Enabled(satp) && satp % NPAGES < |mem| && Idle(s.regs) && s.bus == NoRequest
    requires t < |ins| && Fair(mem, satp, va, s, ins) && VAck(After(s, ins[..t]).regs, ins[t])
    ensures IsValid(KernelTable(mem, satp, va)) && IsValid(KernelLeaf(mem, satp, va))
    ensures ins[t].pdat == WordAt(mem, Frame(KernelLeaf(mem, satp, va)) * PGSIZE + va % PGSIZE)
  {
    SameEntries32(mem, satp, va);
    Answered(mem, satp, va, s, ins, t);
    hide WordAt, Frame, After, Fair, KernelTable, KernelLeaf, Pte1, Pte2, Enabled, IsValid, VAck;
  }

  lemma Answered(mem: seq<Page>, satp: nat, va: nat, s: System, ins: seq<In>, t: nat)
    requires va < LIMIT && Enabled(satp) && Idle(s.regs) && s.bus == NoRequest
    requires t < |ins| && Fair(mem, satp, va, s, ins) && VAck(After(s, ins[..t]).regs, ins[t])
    ensures IsValid(Pte1(mem, satp, va)) && IsValid(Pte2(mem, satp, va)) && ins[t].pdat == WordAt(mem, Physical(mem, satp, va))
  {
    Prefix(mem, satp, va, s, ins, t);
    hide WordAt, Frame;
    assert After(s, []) == s;
    if t > 0 {
      WalkPhases(mem, satp, va, s, ins[..t]);
      PhaseStep(mem, satp, va, After(s, ins[..t]), Answers(ins[..t]), ins[t]);
    }
  }

  lemma Prefix(mem: seq<Page>, satp: nat, va: nat, s: System, ins: seq<In>, t: nat)
    requires t <= |ins| && Fair(mem, satp, va, s, ins)
    ensures Fair(mem, satp, va, s, ins[..t])
  {
    forall k | 0 <= k < t ensures ins[..t][k] == ins[k] && ins[..t][..k] == ins[..k] {
    }
  }

  /** The strobe must be a single pulse: after the answer to the first read the walker leaves phase 1
      exactly when the strobe is low. */
  lemma SinglePulse(r: Regs, i: In)
    requires r.walk1 && !r.walk2 && i.pack && Mode(i) && !Reset(r, i)
    ensures Next(r, i).walk2 && (Next(r, i).walk1 <==> i.vstb)
    ensures i.vstb ==> forall j: In :: Mode(j) && j.vaddr == i.vaddr && j.satp == i.satp ==> PAddr(Next(r, i), j) == PAddr(r, i)
  {
  }
}
