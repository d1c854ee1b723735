/** Link counts under create, sys_link and sys_unlink (xv6-riscv/kernel/sysfile.c) and the directory
    routines of fs.c.  Each call is one transaction; paths are already resolved to a directory. */
module Links {

  const ROOT: nat := 1

  datatype Kind = Free | Dir | File | Device

  /** struct dirent; inum 0 is an empty slot. */
  datatype Entry = Entry(inum: nat, name: string)

  /** An inode with its directory entries, if it is a directory. */
  datatype Node = Node(kind: Kind, nlink: int, entries: seq<Entry>)

  // ----- Counting -----

  function One(e: Entry, t: nat): nat {
    if e.inum == t && e.name != "." then 1 else 0
  }

  /** Entries other than "." that name t. */
  function Names(es: seq<Entry>, t: nat): nat {
    if es == [] then 0 else Names(es[..|es| - 1], t) + One(es[|es| - 1], t)
  }

  predicate Linked(d: Node) { d.kind == Dir && d.nlink > 0 }

  function Weight(d: Node, t: nat): nat {
    if Linked(d) then Names(d.entries, t) else 0
  }

  /** Entries other than "." that name t in linked directories among the first n inodes. */
  function Total(nodes: seq<Node>, t: nat, n: nat): nat
    requires n <= |nodes|
  {
    if n == 0 then 0 else Total(nodes, t, n - 1) + Weight(nodes[n - 1], t)
  }

  lemma {:induction false} NamesSet(es: seq<Entry>, k: nat, e: Entry, t: nat)
    requires k < |es|
    ensures Names(es[k := e], t) == Names(es, t) - One(es[k], t) + One(e, t)
    ensures Names(es, t) >= One(es[k], t)
  {
    var n := |es| - 1;
    if k < n {
      assert es[k := e][..n] == es[..n][k := e];
      NamesSet(es[..n], k, e, t);
    } else {
      assert es[k := e][..n] == es[..n];
    }
  }

  lemma NamesAdd(es: seq<Entry>, e: Entry, t: nat)
    ensures Names(es + [e], t) == Names(es, t) + One(e, t)
  {
    assert (es + [e])[..|es|] == es;
  }

  /** Something is counted exactly when some entry counts. */
  lemma {:induction false} NamesSome(es: seq<Entry>, t: nat) returns (k: nat)
    requires Names(es, t) > 0
    ensures k < |es| && One(es[k], t) == 1
  {
    if One(es[|es| - 1], t) == 1 {
      k := |es| - 1;
    } else {
      k := NamesSome(es[..|es| - 1], t);
    }
  }

  lemma {:induction false} TotalSet(nodes: seq<Node>, d: nat, x: Node, t: nat, n: nat)
    requires d < |nodes| && n <= |nodes|
    ensures Total(nodes[d := x], t, n) == if d < n then Total(nodes, t, n) - Weight(nodes[d], t) + Weight(x, t) else Total(nodes, t, n)
    ensures d < n ==> Total(nodes, t, n) >= Weight(nodes[d], t)
  {
    if n == 0 {
    } else {
      TotalSet(nodes, d, x, t, n - 1);
    }
  }

  lemma {:induction false} TotalSome(nodes: seq<Node>, t: nat, n: nat) returns (d: nat, k: nat)
    requires n <= |nodes| && Total(nodes, t, n) > 0
    ensures d < n && Linked(nodes[d]) && k < |nodes[d].entries| && One(nodes[d].entries[k], t) == 1
  {
    if Weight(nodes[n - 1], t) > 0 {
      d := n - 1;
      k := NamesSome(nodes[d].entries, t);
    } else {
      d, k := TotalSome(nodes, t, n - 1);
    }
  }

  // ----- The invariant -----

  /** Entry k of directory d, other than its first two, is in use. */
  predicate Child(nodes: seq<Node>, d: nat, k: nat) {
    d < |nodes| && nodes[d].kind == Dir && 2 <= k < |nodes[d].entries| && nodes[d].entries[k].inum != 0
  }

  /** nlink counts the entries that name the inode, other than ".", in linked directories. */
  ghost predicate Counted(nodes: seq<Node>, t: nat)
    requires t < |nodes|
  {
    nodes[t].nlink == Total(nodes, t, |nodes|) && (nodes[t].kind == Free ==> nodes[t].nlink == 0)
  }

  /** A directory begins with "." and ".."; an unlinked one is empty. */
  ghost predicate DirOk(nodes: seq<Node>, d: nat)
    requires d < |nodes|
  {
    var es := nodes[d].entries;
    && (nodes[d].kind == Dir ==> |es| >= 2 && es[0] == Entry(d, ".") && es[1].name == ".." && 0 < es[1].inum < |nodes|)
    && (nodes[d].kind == Dir && nodes[d].nlink <= 0 ==> forall k :: 2 <= k < |es| ==> es[k].inum == 0)
    && (nodes[d].kind != Dir ==> es == [])
  }

  /** A child entry names an inode in use, is not "." or "..", and if that is a directory it is the
      child's only name and the child's ".." leads back. */
  ghost predicate ChildOk(nodes: seq<Node>, d: nat, k: nat)
    requires Child(nodes, d, k)
  {
    var e := nodes[d].entries[k];
    && e.name != "." && e.name != ".." && e.inum < |nodes| && nodes[e.inum].kind != Free && e.inum != ROOT
    && (nodes[e.inum].kind == Dir ==> Linked(nodes[e.inum]) && |nodes[e.inum].entries| >= 2 && nodes[e.inum].entries[1].inum == d)
  }

  ghost predicate OneName(nodes: seq<Node>, d: nat, j: nat, k: nat)
    requires Child(nodes, d, j) && Child(nodes, d, k)
  {
    var t := nodes[d].entries[j].inum;
    j != k && t < |nodes| && nodes[t].kind == Dir ==> nodes[d].entries[k].inum != t
  }

  /** Every linked directory but the root has a name in its parent. */
  ghost predicate Named(nodes: seq<Node>, t: nat) {
    t < |nodes| && t != ROOT && Linked(nodes[t]) && |nodes[t].entries| >= 2 ==>
      exists k: nat :: Child(nodes, nodes[t].entries[1].inum, k) && nodes[nodes[t].entries[1].inum].entries[k].inum == t
  }

  /** The shape of the tree. */
  ghost predicate Shaped(nodes: seq<Node>) {
    && |nodes| > ROOT && nodes[0].kind == Free
    && Linked(nodes[ROOT]) && |nodes[ROOT].entries| >= 2 && nodes[ROOT].entries[1].inum == ROOT
    && (forall d :: 0 <= d < |nodes| ==> DirOk(nodes, d))
    && (forall d: nat, k: nat :: Child(nodes, d, k) ==> ChildOk(nodes, d, k))
    && (forall d: nat, j: nat, k: nat :: Child(nodes, d, j) && Child(nodes, d, k) ==> OneName(nodes, d, j, k))
    && (forall t: nat :: Named(nodes, t))
  }

  ghost predicate Consistent(nodes: seq<Node>) {
    Shaped(nodes) && forall t :: 1 <= t < |nodes| ==> Counted(nodes, t)
  }

  /** A linked directory with no children is named once: no other linked directory has it as parent. */
  lemma EmptyNamedOnce(nodes: seq<Node>, d: nat, k: nat)
    requires Consistent(nodes) && Child(nodes, d, k) && nodes[nodes[d].entries[k].inum].kind == Dir
    requires forall j: nat :: !Child(nodes, nodes[d].entries[k].inum, j)
    ensures nodes[nodes[d].entries[k].inum].nlink == 1
  {
    var t := nodes[d].entries[k].inum;
    assert ChildOk(nodes, d, k);
    assert DirOk(nodes, d) && Counted(nodes, t) && DirOk(nodes, t);
    var es := nodes[d].entries;
    var n1 := nodes[d := nodes[d].(entries := es[k := Entry(0, es[k].name)])];
    NamesSet(es, k, Entry(0, es[k].name), t);
    TotalSet(nodes, d, nodes[d].(entries := es[k := Entry(0, es[k].name)]), t, |nodes|);
    if Total(n1, t, |nodes|) > 0 {
      var d2, k2 := TotalSome(n1, t, |nodes|);
      NoOther(nodes, d, k, d2, k2);
      assert false;
    }
  }

  /** No other entry counts for an empty directory. */
  lemma NoOther(nodes: seq<Node>, d: nat, k: nat, d2: nat, k2: nat)
    requires Consistent(nodes) && Child(nodes, d, k) && nodes[nodes[d].entries[k].inum].kind == Dir
    requires forall j: nat :: !Child(nodes, nodes[d].entries[k].inum, j)
    requires d2 < |nodes| && Linked(nodes[d2]) && k2 < |nodes[d2].entries| && (d2, k2) != (d, k)
    ensures One(nodes[d2].entries[k2], nodes[d].entries[k].inum) == 0
  {
    var t := nodes[d].entries[k].inum;
    assert ChildOk(nodes, d, k) && DirOk(nodes, d2);
    if k2 >= 2 && nodes[d2].entries[k2].inum != 0 {
      assert Child(nodes, d2, k2) && ChildOk(nodes, d2, k2);
      assert d2 == d ==> OneName(nodes, d, k, k2);
    } else if k2 == 1 {
      assert Named(nodes, d2);
    }
  }

  // ----- What the operations do to the counts -----

  function WithEntry(es: seq<Entry>, k: nat, e: Entry): seq<Entry> {
    if k < |es| then es[k := e] else es + [e]
  }

  lemma NamesWith(es: seq<Entry>, k: nat, e: Entry, t: nat)
    requires t != 0 && k <= |es| && (k < |es| ==> es[k].inum == 0)
    ensures Names(WithEntry(es, k, e), t) == Names(es, t) + One(e, t)
  {
    if k < |es| {
      NamesSet(es, k, e, t);
    } else {
      NamesAdd(es, e, t);
    }
  }

  lemma Counts(nodes: seq<Node>, d: nat, k: nat, t: nat)
    requires d < |nodes| && Linked(nodes[d]) && k < |nodes[d].entries| && One(nodes[d].entries[k], t) == 1
    ensures Total(nodes, t, |nodes|) >= 1
  {
    NamesSet(nodes[d].entries, k, nodes[d].entries[k], t);
    TotalSet(nodes, d, nodes[d], t, |nodes|);
  }

  /** An empty directory names only its parent. */
  lemma {:induction false} NamesEmpty(es: seq<Entry>, d: nat, p: nat, t: nat)
    requires |es| >= 2 && es[0].name == "." && es[1] == Entry(p, "..") && t != 0
    requires forall k :: 2 <= k < |es| ==> es[k].inum == 0
    ensures Names(es, t) == if t == p then 1 else 0
  {
    if |es| > 2 {
      NamesEmpty(es[..|es| - 1], d, p, t);
    } else {
      assert es[..1] == [es[0]];
      assert es[..1][..0] == [];
      assert Names(es[..1], t) == 0;
    }
  }

  /** sys_link done: one more name, one more link. */
  function Linking(nodes: seq<Node>, ip: nat, dp: nat, k: nat, e: Entry): seq<Node>
    requires ip < |nodes| && dp < |nodes| && ip != dp
  {
    nodes[ip := nodes[ip].(nlink := nodes[ip].nlink + 1)][dp := nodes[dp].(entries := WithEntry(nodes[dp].entries, k, e))]
  }

  lemma LinkTotals(nodes: seq<Node>, ip: nat, dp: nat, k: nat, e: Entry, t: nat)
    requires ip < |nodes| && dp < |nodes| && ip != dp && nodes[ip].kind != Dir && t != 0
    requires k <= |nodes[dp].entries| && (k < |nodes[dp].entries| ==> nodes[dp].entries[k].inum == 0)
    ensures Total(Linking(nodes, ip, dp, k, e), t, |nodes|) == Total(nodes, t, |nodes|) + if Linked(nodes[dp]) then One(e, t) else 0
  {
    var n1 := nodes[ip := nodes[ip].(nlink := nodes[ip].nlink + 1)];
    TotalSet(nodes, ip, nodes[ip].(nlink := nodes[ip].nlink + 1), t, |nodes|);
    TotalSet(n1, dp, nodes[dp].(entries := WithEntry(nodes[dp].entries, k, e)), t, |nodes|);
    NamesWith(nodes[dp].entries, k, e, t);
  }

  /** Where dirlink may put an entry. */
  ghost predicate Vacant(nodes: seq<Node>, dp: nat, k: nat, name: string) {
    && dp < |nodes| && nodes[dp].kind == Dir && k <= |nodes[dp].entries|
    && (k < |nodes[dp].entries| ==> nodes[dp].entries[k].inum == 0)
    && (forall j :: 0 <= j < |nodes[dp].entries| && nodes[dp].entries[j].inum != 0 ==> nodes[dp].entries[j].name != name)
  }

  /** In a consistent file system a new name is a child's name. */
  lemma VacantChild(nodes: seq<Node>, dp: nat, k: nat, name: string)
    requires Consistent(nodes) && Vacant(nodes, dp, k, name) && dp != 0 && Linked(nodes[dp])
    ensures k >= 2 && name != "." && name != ".."
  {
    assert DirOk(nodes, dp);
  }

  lemma LinkKeeps(nodes: seq<Node>, ip: nat, dp: nat, k: nat, name: string)
    requires Consistent(nodes) && 0 < ip < |nodes| && nodes[ip].kind in {File, Device} && dp != 0 && Vacant(nodes, dp, k, name)
    ensures Consistent(Linking(nodes, ip, dp, k, Entry(ip, name))) <==> Linked(nodes[dp])
  {
    var n1 := Linking(nodes, ip, dp, k, Entry(ip, name));
    if Linked(nodes[dp]) {
      VacantChild(nodes, dp, k, name);
      forall t | 1 <= t < |n1| ensures Counted(n1, t) {
        assert Counted(nodes, t);
        LinkTotals(nodes, ip, dp, k, Entry(ip, name), t);
      }
      assert DirOk(nodes, ip);
      EntryShape(nodes, n1, ip, nodes[ip].kind, dp, k, name);
    } else {
      assert Counted(nodes, ip);
      LinkTotals(nodes, ip, dp, k, Entry(ip, name), ip);
      assert !Counted(n1, ip);
    }
  }

  function NewNode(kind: Kind, ip: nat, dp: nat): Node {
    if kind == Dir then Node(Dir, 1, [Entry(ip, "."), Entry(dp, "..")]) else Node(kind, 1, [])
  }

  /** n1 is n0 with one more child entry in dp, for an inode that is new or is not a directory. */
  ghost predicate Entered(n0: seq<Node>, n1: seq<Node>, ip: nat, kind: Kind, dp: nat, k: nat, name: string) {
    && Shaped(n0) && |n1| == |n0| && 0 < ip < |n0| && 0 < dp && ip != dp && Vacant(n0, dp, k, name)
    && Linked(n0[dp]) && k >= 2 && name != "." && name != ".."
    && Linked(n1[dp]) && n1[dp].entries == WithEntry(n0[dp].entries, k, Entry(ip, name))
    && (forall d :: 0 <= d < |n0| && d != dp && d != ip ==> n1[d] == n0[d])
    && kind != Free && n1[ip].kind == kind
    && (if n0[ip].kind == Free then n1[ip] == NewNode(kind, ip, dp) else n0[ip].kind == kind && kind != Dir && n1[ip].entries == [])
  }

  lemma EntryShape(n0: seq<Node>, n1: seq<Node>, ip: nat, kind: Kind, dp: nat, k: nat, name: string)
    requires Entered(n0, n1, ip, kind, dp, k, name)
    ensures Shaped(n1)
  {
    forall d | 0 <= d < |n1| ensures DirOk(n1, d) {
      assert DirOk(n0, d);
    }
    assert n1[ROOT].kind == Dir by { assert ROOT != ip; }
    EntryChildren(n0, n1, ip, kind, dp, k, name);
    forall t: nat ensures Named(n1, t) {
      EntryNamed(n0, n1, ip, kind, dp, k, name, t);
    }
  }

  lemma EntryChildren(n0: seq<Node>, n1: seq<Node>, ip: nat, kind: Kind, dp: nat, k: nat, name: string)
    requires Entered(n0, n1, ip, kind, dp, k, name)
    ensures forall d: nat, j: nat :: Child(n1, d, j) ==> ChildOk(n1, d, j)
    ensures forall d: nat, i: nat, j: nat :: Child(n1, d, i) && Child(n1, d, j) ==> OneName(n1, d, i, j)
  {
    forall d: nat, j: nat | Child(n1, d, j)
      ensures (d, j) == (dp, k) || (Child(n0, d, j) && n1[d].entries[j] == n0[d].entries[j] && (n0[ip].kind == Free ==> n0[d].entries[j].inum != ip))
      ensures ChildOk(n1, d, j)
    {
      OldChild(n0, n1, ip, kind, dp, k, name, d, j);
    }
    hide Shaped, ChildOk, DirOk, Named;
    forall d: nat, i: nat, j: nat | Child(n1, d, i) && Child(n1, d, j) ensures OneName(n1, d, i, j) {
      if (d, i) != (dp, k) && (d, j) != (dp, k) {
        OldPair(n0, d, i, j);
      }
    }
  }

  lemma OldPair(n0: seq<Node>, d: nat, i: nat, j: nat)
    requires Shaped(n0) && Child(n0, d, i) && Child(n0, d, j)
    ensures OneName(n0, d, i, j)
  {
  }

  lemma OldChild(n0: seq<Node>, n1: seq<Node>, ip: nat, kind: Kind, dp: nat, k: nat, name: string, d: nat, j: nat)
    requires Entered(n0, n1, ip, kind, dp, k, name) && Child(n1, d, j)
    ensures (d, j) == (dp, k) || (Child(n0, d, j) && n1[d].entries[j] == n0[d].entries[j] && (n0[ip].kind == Free ==> n0[d].entries[j].inum != ip))
    ensures ChildOk(n1, d, j)
  {
    if (d, j) != (dp, k) {
      assert Child(n0, d, j);
      assert ChildOk(n0, d, j);
    }
  }

  lemma EntryNamed(n0: seq<Node>, n1: seq<Node>, ip: nat, kind: Kind, dp: nat, k: nat, name: string, t: nat)
    requires Entered(n0, n1, ip, kind, dp, k, name)
    ensures Named(n1, t)
  {
    assert Named(n0, t);
    if t == ip {
      var p := if n1[ip].kind == Dir then n1[ip].entries[1].inum else dp;
      assert p == dp && Child(n1, p, k) && n1[p].entries[k].inum == ip;
    } else {
      NamedStill(n0, n1, dp, k, t);
    }
  }

  /** A directory that had a name still has it after an entry was filled in. */
  lemma NamedStill(n0: seq<Node>, n1: seq<Node>, dp: nat, k: nat, t: nat)
    requires |n0| == |n1| && Named(n0, t) && dp < |n0| && k >= 2
    requires t < |n0| ==> (Linked(n1[t]) ==> Linked(n0[t])) && (|n1[t].entries| >= 2 ==> |n0[t].entries| >= 2 && n1[t].entries[1] == n0[t].entries[1])
    requires forall d: nat, j: nat {:trigger Child(n0, d, j)} :: Child(n0, d, j) ==> Child(n1, d, j) && n1[d].entries[j] == n0[d].entries[j]
    ensures Named(n1, t)
  {
    if t < |n1| && t != ROOT && Linked(n1[t]) && |n1[t].entries| >= 2 {
      var p := n0[t].entries[1].inum;
      var j: nat :| Child(n0, p, j) && n0[p].entries[j].inum == t;
      assert Child(n1, p, j);
    }
  }

  // ----- create -----

  /** create done. */
  function Creating(nodes: seq<Node>, ip: nat, kind: Kind, dp: nat, k: nat, e: Entry): seq<Node>
    requires ip < |nodes| && dp < |nodes| && ip != dp
  {
    nodes[ip := NewNode(kind, ip, dp)]
         [dp := nodes[dp].(entries := WithEntry(nodes[dp].entries, k, e), nlink := nodes[dp].nlink + if kind == Dir then 1 else 0)]
  }

  ghost predicate CanCreate(nodes: seq<Node>, ip: nat, kind: Kind, dp: nat, k: nat, name: string) {
    Consistent(nodes) && 0 < ip < |nodes| && nodes[ip].kind == Free && kind != Free && dp != 0 && Vacant(nodes, dp, k, name)
  }

  lemma CreateTotals(nodes: seq<Node>, ip: nat, kind: Kind, dp: nat, k: nat, name: string, t: nat)
    requires CanCreate(nodes, ip, kind, dp, k, name) && t != 0 && (Linked(nodes[dp]) || kind != Dir)
    ensures Total(Creating(nodes, ip, kind, dp, k, Entry(ip, name)), t, |nodes|) ==
              Total(nodes, t, |nodes|) + (if Linked(nodes[dp]) then One(Entry(ip, name), t) else 0)
                + if kind == Dir && t == dp then 1 else 0
  {
    var e := Entry(ip, name);
    var n1 := nodes[ip := NewNode(kind, ip, dp)];
    TotalSet(nodes, ip, NewNode(kind, ip, dp), t, |nodes|);
    TotalSet(n1, dp, Creating(nodes, ip, kind, dp, k, e)[dp], t, |nodes|);
    NamesWith(nodes[dp].entries, k, e, t);
    NamesEmpty([Entry(ip, "."), Entry(dp, "..")], ip, dp, t);
  }

  lemma CreateKeeps(nodes: seq<Node>, ip: nat, kind: Kind, dp: nat, k: nat, name: string)
    requires CanCreate(nodes, ip, kind, dp, k, name)
    ensures Consistent(Creating(nodes, ip, kind, dp, k, Entry(ip, name))) <==> Linked(nodes[dp])
  {
    var n1 := Creating(nodes, ip, kind, dp, k, Entry(ip, name));
    if Linked(nodes[dp]) {
      VacantChild(nodes, dp, k, name);
      forall t | 1 <= t < |n1| ensures Counted(n1, t) {
        assert Counted(nodes, t);
        CreateTotals(nodes, ip, kind, dp, k, name, t);
      }
      EntryShape(nodes, n1, ip, kind, dp, k, name);
    } else if kind != Dir {
      assert Counted(nodes, ip);
      CreateTotals(nodes, ip, kind, dp, k, name, ip);
      assert !Counted(n1, ip);
    } else {
      CreateOrphan(nodes, ip, dp, k, name);
    }
  }

  lemma NameExists(nodes: seq<Node>, t: nat)
    requires Shaped(nodes) && t < |nodes| && t != ROOT && Linked(nodes[t])
    ensures exists p: nat, j: nat :: Child(nodes, p, j) && nodes[p].entries[j].inum == t
  {
    assert DirOk(nodes, t) && Named(nodes, t);
  }

  /** mkdir in a removed directory: the count of the removed directory becomes positive, but no
      directory names it. */
  lemma CreateOrphan(nodes: seq<Node>, ip: nat, dp: nat, k: nat, name: string)
    requires CanCreate(nodes, ip, Dir, dp, k, name) && !Linked(nodes[dp])
    ensures !Consistent(Creating(nodes, ip, Dir, dp, k, Entry(ip, name)))
  {
    var n1 := Creating(nodes, ip, Dir, dp, k, Entry(ip, name));
    assert Counted(nodes, dp);
    forall p: nat, j: nat | Child(nodes, p, j) ensures nodes[p].entries[j].inum != dp {
      assert ChildOk(nodes, p, j);
    }
    forall p: nat, j: nat | Child(n1, p, j) ensures n1[p].entries[j].inum != dp {
      assert (p, j) == (dp, k) || Child(nodes, p, j);
    }
    if Shaped(n1) {
      NameExists(n1, dp);
    }
  }

  // ----- sys_unlink -----

  /** sys_unlink done; `last` says that no one else holds the inode, so that iput frees it at 0. */
  function Unlinking(nodes: seq<Node>, dp: nat, k: nat, last: bool): seq<Node>
    requires dp < |nodes| && k < |nodes[dp].entries| && nodes[dp].entries[k].inum < |nodes| && nodes[dp].entries[k].inum != dp
  {
    var ip := nodes[dp].entries[k].inum;
    var less := nodes[ip].(nlink := nodes[ip].nlink - 1);
    nodes[dp := nodes[dp].(entries := nodes[dp].entries[k := Entry(0, "")], nlink := nodes[dp].nlink - if nodes[ip].kind == Dir then 1 else 0)]
         [ip := if less.nlink == 0 && last then Node(Free, 0, []) else less]
  }

  ghost predicate CanUnlink(nodes: seq<Node>, dp: nat, k: nat) {
    && Consistent(nodes) && Child(nodes, dp, k)
    && forall j: nat :: !Child(nodes, nodes[dp].entries[k].inum, j)
  }

  lemma UnlinkBasics(nodes: seq<Node>, dp: nat, k: nat)
    requires CanUnlink(nodes, dp, k)
    ensures var ip := nodes[dp].entries[k].inum;
            && ip < |nodes| && ip != dp && 0 < ip && dp != 0 && Linked(nodes[dp]) && nodes[ip].kind != Free && ip != ROOT
            && nodes[ip].nlink >= 1 && One(nodes[dp].entries[k], ip) == 1
            && (nodes[ip].kind == Dir ==> nodes[ip].nlink == 1 && nodes[dp].nlink >= 2 && DirOk(nodes, ip) && Linked(nodes[ip])
                                          && nodes[ip].entries[1].inum == dp)
            && (nodes[ip].kind != Dir ==> nodes[ip].entries == [])
  {
    var ip := nodes[dp].entries[k].inum;
    assert ChildOk(nodes, dp, k) && DirOk(nodes, dp) && DirOk(nodes, ip) && Counted(nodes, ip);
    Counts(nodes, dp, k, ip);
    assert Child(nodes, dp, k);
    assert ip != dp;
    if nodes[ip].kind == Dir {
      EmptyNamedOnce(nodes, dp, k);
      ParentStays(nodes, dp, k);
    }
  }

  /** The parent of a directory has two names: its own, and the child's "..". */
  lemma ParentStays(nodes: seq<Node>, dp: nat, k: nat)
    requires CanUnlink(nodes, dp, k) && nodes[nodes[dp].entries[k].inum].kind == Dir
    ensures nodes[dp].nlink >= 2
  {
    var ip := nodes[dp].entries[k].inum;
    assert ChildOk(nodes, dp, k) && DirOk(nodes, dp) && DirOk(nodes, ip) && Counted(nodes, dp);
    var x := nodes[ip].(nlink := 0);
    var n1 := nodes[ip := x];
    TotalSet(nodes, ip, x, dp, |nodes|);
    ChildrenNone(nodes, ip);
    NamesEmpty(nodes[ip].entries, ip, dp, dp);
    if dp == ROOT {
      Counts(n1, ROOT, 1, ROOT);
    } else {
      assert Named(nodes, dp);
      var p := nodes[dp].entries[1].inum;
      var j: nat :| Child(nodes, p, j) && nodes[p].entries[j].inum == dp;
      assert ChildOk(nodes, p, j) && DirOk(nodes, p);
      Counts(n1, p, j, dp);
    }
  }

  lemma ChildrenNone(nodes: seq<Node>, ip: nat)
    requires ip < |nodes| && nodes[ip].kind == Dir && forall j: nat :: !Child(nodes, ip, j)
    ensures forall j :: 2 <= j < |nodes[ip].entries| ==> nodes[ip].entries[j].inum == 0
  {
    forall j | 2 <= j < |nodes[ip].entries| ensures nodes[ip].entries[j].inum == 0 {
      assert !Child(nodes, ip, j);
    }
  }

  lemma UnlinkTotals(nodes: seq<Node>, dp: nat, k: nat, last: bool, t: nat)
    requires CanUnlink(nodes, dp, k) && t != 0
    requires nodes[dp].entries[k].inum < |nodes| && nodes[dp].entries[k].inum != dp
    ensures Total(Unlinking(nodes, dp, k, last), t, |nodes|) ==
              Total(nodes, t, |nodes|) - One(nodes[dp].entries[k], t)
                - if nodes[nodes[dp].entries[k].inum].kind == Dir && t == dp then 1 else 0
  {
    UnlinkBasics(nodes, dp, k);
    var ip := nodes[dp].entries[k].inum;
    var n2 := Unlinking(nodes, dp, k, last);
    var n1 := nodes[dp := n2[dp]];
    NamesSet(nodes[dp].entries, k, Entry(0, ""), t);
    TotalSet(nodes, dp, n2[dp], t, |nodes|);
    TotalSet(n1, ip, n2[ip], t, |nodes|);
    if nodes[ip].kind == Dir {
      ChildrenNone(nodes, ip);
      NamesEmpty(nodes[ip].entries, ip, dp, t);
    }
  }

  lemma UnlinkKeeps(nodes: seq<Node>, dp: nat, k: nat, last: bool)
    requires CanUnlink(nodes, dp, k)
    requires nodes[dp].entries[k].inum < |nodes| && nodes[dp].entries[k].inum != dp
    ensures Consistent(Unlinking(nodes, dp, k, last))
  {
    var n1 := Unlinking(nodes, dp, k, last);
    UnlinkBasics(nodes, dp, k);
    forall t | 1 <= t < |n1| ensures Counted(n1, t) {
      assert Counted(nodes, t);
      UnlinkTotals(nodes, dp, k, last, t);
    }
    UnlinkShape(nodes, dp, k, last);
  }

  /** Another name of the inode keeps it from being freed. */
  lemma OtherName(nodes: seq<Node>, dp: nat, k: nat, last: bool, d: nat, j: nat)
    requires CanUnlink(nodes, dp, k) && Child(nodes, d, j) && (d, j) != (dp, k) && nodes[d].entries[j].inum == nodes[dp].entries[k].inum
    ensures var ip := nodes[dp].entries[k].inum; ip < |nodes| && nodes[ip].kind != Dir && nodes[ip].nlink >= 2
  {
    UnlinkBasics(nodes, dp, k);
    var ip := nodes[dp].entries[k].inum;
    assert ChildOk(nodes, d, j) && ChildOk(nodes, dp, k) && DirOk(nodes, d) && Counted(nodes, ip);
    assert d == dp ==> OneName(nodes, dp, k, j);
    if nodes[ip].kind != Dir {
      var n1 := Unlinking(nodes, dp, k, last);
      UnlinkTotals(nodes, dp, k, last, ip);
      assert n1[d].entries[j] == nodes[d].entries[j];
      Counts(n1, d, j, ip);
    }
  }

  lemma UnlinkShape(nodes: seq<Node>, dp: nat, k: nat, last: bool)
    requires CanUnlink(nodes, dp, k)
    requires nodes[dp].entries[k].inum < |nodes| && nodes[dp].entries[k].inum != dp
    ensures Shaped(Unlinking(nodes, dp, k, last))
  {
    var n1 := Unlinking(nodes, dp, k, last);
    var ip := nodes[dp].entries[k].inum;
    UnlinkBasics(nodes, dp, k);
    forall d | 0 <= d < |n1| ensures DirOk(n1, d) {
      assert DirOk(nodes, d);
      if d == ip && nodes[ip].kind == Dir { ChildrenNone(nodes, ip); }
    }
    forall d: nat, j: nat | Child(n1, d, j) ensures Child(nodes, d, j) && (d, j) != (dp, k) && d != ip && n1[d].entries[j] == nodes[d].entries[j] {
      assert !Child(nodes, ip, j);
    }
    forall d: nat, j: nat | Child(n1, d, j) ensures ChildOk(n1, d, j) {
      assert ChildOk(nodes, d, j);
      if nodes[d].entries[j].inum == ip {
        OtherName(nodes, dp, k, last, d, j);
      }
    }
    forall d: nat, i: nat, j: nat | Child(n1, d, i) && Child(n1, d, j) ensures OneName(n1, d, i, j) {
      assert OneName(nodes, d, i, j) && ChildOk(nodes, d, i);
    }
    forall t: nat ensures Named(n1, t) {
      UnlinkNamed(nodes, dp, k, last, t);
    }
  }

  lemma UnlinkNamed(nodes: seq<Node>, dp: nat, k: nat, last: bool, t: nat)
    requires CanUnlink(nodes, dp, k)
    requires nodes[dp].entries[k].inum < |nodes| && nodes[dp].entries[k].inum != dp
    ensures Named(Unlinking(nodes, dp, k, last), t)
  {
    var n1 := Unlinking(nodes, dp, k, last);
    var ip := nodes[dp].entries[k].inum;
    UnlinkBasics(nodes, dp, k);
    assert Named(nodes, t);
    if t < |n1| && t != ROOT && Linked(n1[t]) && |n1[t].entries| >= 2 {
      assert t != ip && nodes[t].entries[1] == n1[t].entries[1] && Linked(nodes[t]);
      var p := nodes[t].entries[1].inum;
      var j: nat :| Child(nodes, p, j) && nodes[p].entries[j].inum == t;
      assert !Child(nodes, ip, j);
      assert Child(n1, p, j);
    }
  }

  // ----- iput -----

  /** The last holder of an inode without links lets go of it. */
  function Freeing(nodes: seq<Node>, ip: nat): seq<Node>
    requires ip < |nodes|
  {
    nodes[ip := Node(Free, 0, [])]
  }

  lemma FreeKeeps(nodes: seq<Node>, ip: nat)
    requires Consistent(nodes) && 0 < ip < |nodes| && nodes[ip].nlink == 0
    ensures Consistent(Freeing(nodes, ip))
  {
    var n1 := Freeing(nodes, ip);
    assert Counted(nodes, ip) && DirOk(nodes, ip);
    forall t | 1 <= t < |n1| ensures Counted(n1, t) {
      assert Counted(nodes, t);
      TotalSet(nodes, ip, Node(Free, 0, []), t, |nodes|);
    }
    forall d | 0 <= d < |n1| ensures DirOk(n1, d) {
      assert DirOk(nodes, d);
    }
    forall d: nat, j: nat | Child(n1, d, j)
      ensures Child(nodes, d, j) && d != ip && n1[d] == nodes[d] && nodes[d].entries[j].inum != ip
    {
      assert ChildOk(nodes, d, j) && DirOk(nodes, d);
      if nodes[d].entries[j].inum == ip { Counts(nodes, d, j, ip); }
    }
    forall d: nat, j: nat | Child(n1, d, j) ensures ChildOk(n1, d, j) {
      assert ChildOk(nodes, d, j);
    }
    forall d: nat, i: nat, j: nat | Child(n1, d, i) && Child(n1, d, j) ensures OneName(n1, d, i, j) {
      OldPair(nodes, d, i, j);
    }
    forall t: nat ensures Named(n1, t) {
      assert Named(nodes, t);
      if t < |n1| && t != ROOT && Linked(n1[t]) && |n1[t].entries| >= 2 {
        var p := nodes[t].entries[1].inum;
        var j: nat :| Child(nodes, p, j) && nodes[p].entries[j].inum == t;
        assert DirOk(nodes, p);
        assert Child(n1, p, j);
      }
    }
  }

  // ----- The system calls -----

  ghost predicate HasName(es: seq<Entry>, name: string) {
    exists j :: 0 <= j < |es| && es[j].inum != 0 && es[j].name == name
  }

  ghost predicate HasGap(es: seq<Entry>) {
    exists j :: 0 <= j < |es| && es[j].inum == 0
  }

  /** The first empty entry, or the end. */
  function FirstGap(es: seq<Entry>): (k: nat)
    ensures k <= |es| && (k < |es| ==> es[k].inum == 0) && forall j :: 0 <= j < k ==> es[j].inum != 0
    ensures HasGap(es) <==> k < |es|
  {
    if es == [] || es[0].inum == 0 then 0 else 1 + FirstGap(es[1..])
  }

  /** The first entry in use with the name, or the end. */
  function Find(es: seq<Entry>, name: string): (k: nat)
    ensures k <= |es| && (k < |es| ==> es[k].inum != 0 && es[k].name == name)
    ensures forall j :: 0 <= j < k ==> !(es[j].inum != 0 && es[j].name == name)
    ensures HasName(es, name) <==> k < |es|
  {
    if es == [] || (es[0].inum != 0 && es[0].name == name) then 0 else 1 + Find(es[1..], name)
  }

  /** The first free inode from i on, or 0. */
  function FirstFree(nodes: seq<Node>, i: nat): (r: nat)
    requires i >= 1
    ensures r != 0 ==> i <= r < |nodes| && nodes[r].kind == Free && forall j :: i <= j < r ==> nodes[j].kind != Free
    ensures r == 0 ==> forall j :: i <= j < |nodes| ==> nodes[j].kind != Free
    decreases |nodes| - i
  {
    if i >= |nodes| then 0 else if nodes[i].kind == Free then i else FirstFree(nodes, i + 1)
  }

  predicate Childless(es: seq<Entry>) {
    forall j :: 2 <= j < |es| ==> es[j].inum == 0
  }

  /** sys_link: nothing for a directory, a name in use, or want of room. */
  function LinkAfter(nodes: seq<Node>, ip: nat, dp: nat, name: string, room: bool): seq<Node>
    requires ip < |nodes| && dp < |nodes| && (dp != 0 ==> nodes[dp].kind == Dir)
  {
    var es := nodes[dp].entries;
    if nodes[ip].kind == Dir || dp == 0 || Find(es, name) < |es| || !(room || FirstGap(es) < |es|) then nodes
    else Linking(nodes, ip, dp, FirstGap(es), Entry(ip, name))
  }

  /** create: nothing for a name in use, or want of an inode or of room. */
  function CreateAfter(nodes: seq<Node>, kind: Kind, dp: nat, name: string, rooms: seq<bool>): seq<Node>
    requires 0 < dp < |nodes| && nodes[dp].kind == Dir && |rooms| == 3
  {
    var es, ip := nodes[dp].entries, FirstFree(nodes, 1);
    if Find(es, name) < |es| || ip == 0 || (kind == Dir && !(rooms[0] && rooms[1])) || !(rooms[2] || FirstGap(es) < |es|) then nodes
    else Creating(nodes, ip, kind, dp, FirstGap(es), Entry(ip, name))
  }

  /** sys_unlink: nothing for "." and "..", a name not there, or a directory with children. */
  function UnlinkAfter(nodes: seq<Node>, dp: nat, name: string, last: bool): seq<Node>
    requires 0 < dp < |nodes| && nodes[dp].kind == Dir
  {
    var es := nodes[dp].entries;
    var k := Find(es, name);
    if name == "." || name == ".." || k == |es| || es[k].inum >= |nodes| || es[k].inum == dp then nodes
    else if nodes[es[k].inum].kind == Dir && !Childless(nodes[es[k].inum].entries) then nodes
    else Unlinking(nodes, dp, k, last)
  }

  function IputAfter(nodes: seq<Node>, ip: nat, last: bool): seq<Node>
    requires ip < |nodes|
  {
    if last && nodes[ip].nlink == 0 then Freeing(nodes, ip) else nodes
  }

  datatype Outcome = Done | Fails | Panics

  function Fresh(n: nat): (nodes: seq<Node>)
    requires n > ROOT
    ensures |nodes| == n && nodes[ROOT] == Node(Dir, 1, [Entry(ROOT, "."), Entry(ROOT, "..")])
    ensures forall d :: 0 <= d < n && d != ROOT ==> nodes[d] == Node(Free, 0, [])
  {
    seq(n, _ => Node(Free, 0, []))[ROOT := Node(Dir, 1, [Entry(ROOT, "."), Entry(ROOT, "..")])]
  }

  class FileTree {
    var nodes: seq<Node>

    /** The fresh image: the root directory, named by its own "..". */
    constructor (n: nat)
      requires n > ROOT
      ensures Consistent(nodes) && nodes == Fresh(n)
    {
      nodes := seq(n, _ => Node(Free, 0, []))[ROOT := Node(Dir, 1, [Entry(ROOT, "."), Entry(ROOT, "..")])];
      new;
      FreshImage(nodes);
    }

    /** dirlookup: the first entry in use with the name, or -1. */
    method Dirlookup(dp: nat, name: string) returns (k: int)
      requires dp < |nodes| && nodes[dp].kind == Dir
      ensures -1 <= k < |nodes[dp].entries|
      ensures k >= 0 ==> nodes[dp].entries[k].inum != 0 && nodes[dp].entries[k].name == name
      ensures k < 0 ==> forall j :: 0 <= j < |nodes[dp].entries| && nodes[dp].entries[j].inum != 0 ==> nodes[dp].entries[j].name != name
      ensures Find(nodes[dp].entries, name) == if k < 0 then |nodes[dp].entries| else k
    {
      var off := 0;
      while off < |nodes[dp].entries|
        invariant off <= |nodes[dp].entries|
        invariant forall j :: 0 <= j < off && nodes[dp].entries[j].inum != 0 ==> nodes[dp].entries[j].name != name
      {
        if nodes[dp].entries[off].inum != 0 {
          if nodes[dp].entries[off].name == name {
            return off;
          }
        }
        off := off + 1;
      }
      k := -1;
    }

    /** dirlink; `room` says whether writei can append an entry when no slot is empty. */
    method Dirlink(dp: nat, name: string, inum: nat, room: bool) returns (ok: bool, ghost k: nat)
      requires dp < |nodes| && nodes[dp].kind == Dir
      modifies this`nodes
      ensures ok ==> Vacant(old(nodes), dp, k, name)
      ensures ok ==> nodes == old(nodes)[dp := old(nodes)[dp].(entries := WithEntry(old(nodes)[dp].entries, k, Entry(inum, name)))]
      ensures !ok ==> nodes == old(nodes)
      ensures ok <==> !HasName(old(nodes)[dp].entries, name) && (room || HasGap(old(nodes)[dp].entries))
      ensures ok ==> k == FirstGap(old(nodes)[dp].entries)
    {
      k := 0;
      var found := Dirlookup(dp, name);
      if found >= 0 {
        return false, 0;
      }
      var off := 0;
      while off < |nodes[dp].entries|
        invariant off <= |nodes[dp].entries| && nodes == old(nodes)
        invariant forall j :: 0 <= j < off ==> nodes[dp].entries[j].inum != 0
      {
        if nodes[dp].entries[off].inum == 0 {
          break;
        }
        off := off + 1;
      }
      if off == |nodes[dp].entries| && !room {
        return false, 0;
      }
      k := off;
      nodes := nodes[dp := nodes[dp].(entries := WithEntry(nodes[dp].entries, off, Entry(inum, name)))];
      ok := true;
    }

    /** sys_link, from the inode that `old` names to the entry `name` in dp; dp == 0 when the new
        path leads nowhere.  The counts stay right exactly when it fails or the directory is linked. */
    method Link(ip: nat, dp: nat, name: string, room: bool) returns (ok: bool)
      requires Consistent(nodes) && 0 < ip < |nodes| && nodes[ip].kind != Free
      requires dp < |nodes| && (dp != 0 ==> nodes[dp].kind == Dir)
      modifies this`nodes
      ensures !ok ==> nodes == old(nodes)
      ensures ok <==> old(nodes)[ip].kind != Dir && dp != 0 && !HasName(old(nodes)[dp].entries, name)
                      && (room || HasGap(old(nodes)[dp].entries))
      ensures ok ==> dp != 0 && old(nodes)[ip].kind != Dir && exists k: nat ::
                Vacant(old(nodes), dp, k, name) && nodes == Linking(old(nodes), ip, dp, k, Entry(ip, name))
      ensures Consistent(nodes) <==> !ok || Linked(old(nodes)[dp])
      ensures nodes == LinkAfter(old(nodes), ip, dp, name, room)
    {
      ghost var n0 := nodes;
      if nodes[ip].kind == Dir {
        return false;
      }
      nodes := nodes[ip := nodes[ip].(nlink := nodes[ip].nlink + 1)];
      if dp == 0 {
        nodes := nodes[ip := nodes[ip].(nlink := nodes[ip].nlink - 1)];
        assert nodes == n0;
        return false;
      }
      ghost var k;
      ok, k := Dirlink(dp, name, ip, room);
      if !ok {
        nodes := nodes[ip := nodes[ip].(nlink := nodes[ip].nlink - 1)];
        assert nodes == n0;
        return;
      }
      assert nodes == Linking(n0, ip, dp, k, Entry(ip, name));
      LinkKeeps(n0, ip, dp, k, name);
    }

    /** ialloc: the first free inode after 0, or 0. */
    method Ialloc() returns (inum: nat)
      ensures inum != 0 ==> inum < |nodes| && nodes[inum].kind == Free
      ensures inum == 0 ==> forall i :: 1 <= i < |nodes| ==> nodes[i].kind != Free
      ensures inum == FirstFree(nodes, 1)
    {
      inum := 1;
      while inum < |nodes|
        invariant inum >= 1 && forall i :: 1 <= i < inum && i < |nodes| ==> nodes[i].kind != Free
        invariant FirstFree(nodes, 1) == FirstFree(nodes, inum)
      {
        if nodes[inum].kind == Free {
          return;
        }
        inum := inum + 1;
      }
      inum := 0;
    }

    /** "." and ".." of a new directory. */
    method Dots(ip: nat, dp: nat, rooms: seq<bool>) returns (ok: bool)
      requires 0 < ip < |nodes| && nodes[ip] == Node(Dir, 1, []) && |rooms| == 3
      modifies this`nodes
      ensures ok <==> rooms[0] && rooms[1]
      ensures |nodes| == |old(nodes)| && nodes == old(nodes)[ip := if ok then NewNode(Dir, ip, dp) else nodes[ip]]
    {
      ghost var k;
      ok, k := Dirlink(ip, ".", ip, rooms[0]);
      if ok {
        assert nodes[ip].entries == [Entry(ip, ".")];
        ok, k := Dirlink(ip, "..", dp, rooms[1]);
        assert ok ==> k == 1 && nodes[ip].entries == [Entry(ip, ".")] + [Entry(dp, "..")];
        assert ok ==> nodes[ip] == NewNode(Dir, ip, dp);
      }
      assert nodes == old(nodes)[ip := nodes[ip]];
    }

    /** create, of a name that dp may already have; rooms answers for the three dirlinks.  On failure
        the new inode is freed again and nothing has changed. */
    method Create(kind: Kind, dp: nat, name: string, rooms: seq<bool>) returns (inum: nat, made: bool)
      requires Consistent(nodes) && 0 < dp < |nodes| && nodes[dp].kind == Dir && kind != Free && |rooms| == 3
      modifies this`nodes
      ensures !made ==> nodes == old(nodes)
      ensures !made && inum == 0 ==> HasName(nodes[dp].entries, name) || rooms != [true, true, true]
                                     || forall i :: 1 <= i < |nodes| ==> nodes[i].kind != Free
      ensures made ==> !HasName(old(nodes)[dp].entries, name)
      ensures !made && inum != 0 ==> kind == File && exists j :: 0 <= j < |nodes[dp].entries| && nodes[dp].entries[j] == Entry(inum, name)
      ensures made ==> exists k: nat ::
                CanCreate(old(nodes), inum, kind, dp, k, name) && nodes == Creating(old(nodes), inum, kind, dp, k, Entry(inum, name))
      ensures Consistent(nodes) <==> !made || Linked(old(nodes)[dp])
      ensures nodes == CreateAfter(old(nodes), kind, dp, name, rooms)
    {
      hide Consistent;
      ghost var n0 := nodes;
      inum, made := 0, false;
      var at := Dirlookup(dp, name);
      if at >= 0 {
        var ip := nodes[dp].entries[at].inum;
        if kind == File && ip < |nodes| && nodes[ip].kind in {File, Device} {
          inum := ip;
        }
        return;
      }
      var ip := Ialloc();
      if ip == 0 {
        return;
      }
      nodes := nodes[ip := Node(kind, 1, [])];
      var ok := true;
      ghost var k := 0;
      if kind == Dir {
        ok := Dots(ip, dp, rooms);
      }
      assert ok ==> nodes[ip] == NewNode(kind, ip, dp);
      assert ok ==> nodes == n0[ip := NewNode(kind, ip, dp)];
      if ok {
        ok, k := Dirlink(dp, name, ip, rooms[2]);
      }
      if !ok {
        nodes := nodes[ip := nodes[ip].(nlink := 0)];
        nodes := nodes[ip := Node(Free, 0, [])];
        FreeBlank(n0, ip);
        assert nodes == n0;
        return;
      }
      if kind == Dir {
        nodes := nodes[dp := nodes[dp].(nlink := nodes[dp].nlink + 1)];
      }
      assert nodes == Creating(n0, ip, kind, dp, k, Entry(ip, name));
      CreateKeeps(n0, ip, kind, dp, k, name);
      inum, made := ip, true;
    }

    /** isdirempty. */
    method Isdirempty(d: nat) returns (r: bool)
      requires d < |nodes|
      ensures r <==> forall j :: 2 <= j < |nodes[d].entries| ==> nodes[d].entries[j].inum == 0
    {
      var off := 2;
      while off < |nodes[d].entries|
        invariant off >= 2 && forall j :: 2 <= j < off && j < |nodes[d].entries| ==> nodes[d].entries[j].inum == 0
      {
        if nodes[d].entries[off].inum != 0 {
          return false;
        }
        off := off + 1;
      }
      r := true;
    }

    /** sys_unlink of `name` in dp; `last` says whether iput finds no other holder of the inode.  It
        never panics, and the counts stay right on every path. */
    method Unlink(dp: nat, name: string, last: bool) returns (r: Outcome)
      requires Consistent(nodes) && 0 < dp < |nodes| && nodes[dp].kind == Dir
      modifies this`nodes
      ensures Consistent(nodes) && r != Panics
      ensures r == Fails ==> nodes == old(nodes)
      ensures r == Fails && name != "." && name != ".." && HasName(nodes[dp].entries, name) ==>
                exists k: nat, j: nat :: Child(nodes, dp, k) && nodes[dp].entries[k].name == name
                                         && Child(nodes, nodes[dp].entries[k].inum, j)
      ensures r == Done ==> name != "." && name != ".." && exists k: nat ::
                && Child(old(nodes), dp, k) && old(nodes)[dp].entries[k].name == name
                && old(nodes)[dp].entries[k].inum < |old(nodes)| && old(nodes)[dp].entries[k].inum != dp
                && nodes == Unlinking(old(nodes), dp, k, last)
      ensures nodes == UnlinkAfter(old(nodes), dp, name, last)
    {
      hide Consistent;
      ghost var n0 := nodes;
      if name == "." || name == ".." {
        return Fails;
      }
      var k := Dirlookup(dp, name);
      if k < 0 {
        return Fails;
      }
      Found(n0, dp, k, name);
      var ip := nodes[dp].entries[k].inum;
      if nodes[ip].nlink < 1 {
        return Panics;
      }
      if nodes[ip].kind == Dir {
        var empty := Isdirempty(ip);
        if !empty {
          ghost var j: nat :| 2 <= j < |nodes[ip].entries| && nodes[ip].entries[j].inum != 0;
          assert Child(nodes, nodes[dp].entries[k].inum, j);
          return Fails;
        }
      }
      MayUnlink(n0, dp, k, name);
      UnlinkBasics(n0, dp, k);
      nodes := nodes[dp := nodes[dp].(entries := nodes[dp].entries[k := Entry(0, "")])];
      if nodes[ip].kind == Dir {
        nodes := nodes[dp := nodes[dp].(nlink := nodes[dp].nlink - 1)];
      }
      nodes := nodes[ip := nodes[ip].(nlink := nodes[ip].nlink - 1)];
      if nodes[ip].nlink == 0 && last {
        nodes := nodes[ip := Node(Free, 0, [])];
      }
      assert nodes == Unlinking(n0, dp, k, last);
      UnlinkKeeps(n0, dp, k, last);
      r := Done;
    }

    /** iput; `last` says whether it finds no other holder of the inode. */
    method Iput(ip: nat, last: bool)
      requires Consistent(nodes) && 0 < ip < |nodes|
      modifies this`nodes
      ensures Consistent(nodes) && nodes == IputAfter(old(nodes), ip, last)
    {
      if last && nodes[ip].nlink == 0 {
        FreeKeeps(nodes, ip);
        nodes := nodes[ip := Node(Free, 0, [])];
      }
    }
  }

  // ----- Runs -----

  /** A system call with its paths resolved, or the release of an inode. */
  datatype Call =
    | CallLink(ip: nat, dp: nat, name: string, room: bool)
    | CallCreate(kind: Kind, dp: nat, name: string, rooms: seq<bool>)
    | CallUnlink(dp: nat, name: string, last: bool)
    | CallIput(ip: nat, last: bool)

  /** What path resolution and the callers guarantee: dp is a directory, ip an inode in use. */
  predicate Resolved(nodes: seq<Node>, call: Call) {
    match call
    case CallLink(ip, dp, _, _) => 0 < ip < |nodes| && nodes[ip].kind != Free && dp < |nodes| && (dp != 0 ==> nodes[dp].kind == Dir)
    case CallCreate(kind, dp, _, rooms) => 0 < dp < |nodes| && nodes[dp].kind == Dir && kind != Free && |rooms| == 3
    case CallUnlink(dp, _, _) => 0 < dp < |nodes| && nodes[dp].kind == Dir
    case CallIput(ip, _) => 0 < ip < |nodes|
  }

  /** What a call makes of the tree; nothing if its paths do not resolve. */
  function After(nodes: seq<Node>, call: Call): seq<Node> {
    if !Resolved(nodes, call) then nodes
    else
      match call
      case CallLink(ip, dp, name, room) => LinkAfter(nodes, ip, dp, name, room)
      case CallCreate(kind, dp, name, rooms) => CreateAfter(nodes, kind, dp, name, rooms)
      case CallUnlink(dp, name, last) => UnlinkAfter(nodes, dp, name, last)
      case CallIput(ip, last) => IputAfter(nodes, ip, last)
  }

  /** The call succeeds in making an entry in a directory without links. */
  predicate Strays(nodes: seq<Node>, call: Call) {
    && Resolved(nodes, call) && (call.CallLink? || call.CallCreate?) && After(nodes, call) != nodes
    && !Linked(nodes[call.dp])
  }

  /** The trees a list of calls goes through, from the fresh image. */
  ghost predicate IsRun(n: nat, calls: seq<Call>, states: seq<seq<Node>>) {
    && n > ROOT && 1 <= |states| <= |calls| + 1 && states[0] == Fresh(n)
    && forall i :: 0 <= i < |states| - 1 ==> states[i + 1] == After(states[i], calls[i])
  }

  /** Any calls, from the fresh image, up to the first that strays. */
  method Run(n: nat, calls: seq<Call>) returns (t: FileTree, stray: bool, ghost states: seq<seq<Node>>)
    requires n > ROOT
    ensures fresh(t) && IsRun(n, calls, states) && t.nodes == states[|states| - 1]
    ensures forall i :: 0 <= i < |states| - 1 ==> Consistent(states[i])
    ensures forall i :: 0 <= i < |states| - 2 ==> !Strays(states[i], calls[i])
    ensures stray <==> !Consistent(t.nodes)
    ensures stray <==> |states| > 1 && Strays(states[|states| - 2], calls[|states| - 2])
    ensures !stray ==> |states| == |calls| + 1
  {
    hide Consistent, After, Strays, Fresh;
    t := new FileTree(n);
    stray, states := false, [t.nodes];
    var done := 0;
    while done < |calls| && !stray
      invariant fresh(t) && done <= |calls| && |states| == done + 1 && IsRun(n, calls, states) && t.nodes == states[done]
      invariant stray <==> !Consistent(t.nodes)
      invariant stray <==> done > 0 && Strays(states[done - 1], calls[done - 1])
      invariant forall i :: 0 <= i < done ==> Consistent(states[i])
      invariant forall i :: 0 <= i < done - 1 ==> !Strays(states[i], calls[i])
      decreases |calls| - done
    {
      stray := Perform(t, calls[done]);
      states := states + [t.nodes];
      done := done + 1;
    }
  }

  /** One call keeps the tree consistent exactly when it does not stray. */
  lemma AfterKeeps(nodes: seq<Node>, call: Call)
    requires Consistent(nodes)
    ensures Consistent(After(nodes, call)) <==> !Strays(nodes, call)
  {
    if Resolved(nodes, call) && After(nodes, call) != nodes {
      match call {
        case CallLink(ip, dp, name, room) =>
          LinkKeeps(nodes, ip, dp, FirstGap(nodes[dp].entries), name);
        case CallCreate(kind, dp, name, rooms) =>
          CreateKeeps(nodes, FirstFree(nodes, 1), kind, dp, FirstGap(nodes[dp].entries), name);
        case CallUnlink(dp, name, last) =>
          UnlinkAfterKeeps(nodes, dp, name, last);
        case CallIput(ip, last) =>
          FreeKeeps(nodes, ip);
      }
    }
  }

  lemma UnlinkAfterKeeps(nodes: seq<Node>, dp: nat, name: string, last: bool)
    requires Consistent(nodes) && 0 < dp < |nodes| && nodes[dp].kind == Dir
    ensures Consistent(UnlinkAfter(nodes, dp, name, last))
  {
    var es := nodes[dp].entries;
    var k := Find(es, name);
    if name != "." && name != ".." && k < |es| {
      Found(nodes, dp, k, name);
      var ip := es[k].inum;
      if nodes[ip].kind != Dir || Childless(nodes[ip].entries) {
        MayUnlink(nodes, dp, k, name);
        UnlinkBasics(nodes, dp, k);
        UnlinkKeeps(nodes, dp, k, last);
      }
    }
  }

  /** In every run the tree is consistent as long as no call has strayed, and not right after one has. */
  lemma {:induction false} RunConsistent(n: nat, calls: seq<Call>, states: seq<seq<Node>>, i: nat)
    requires IsRun(n, calls, states) && i < |states| && forall j :: 0 <= j < i - 1 ==> !Strays(states[j], calls[j])
    ensures Consistent(states[i]) <==> i == 0 || !Strays(states[i - 1], calls[i - 1])
  {
    hide Consistent, After, Strays;
    if i == 0 {
      FreshImage(states[0]);
    } else {
      RunConsistent(n, calls, states, i - 1);
      AfterKeeps(states[i - 1], calls[i - 1]);
    }
  }

  /** Such a run exists: a directory is made, entered, and removed by its name; then a link or a new
      directory in it leaves the counts wrong. */
  method RemovedDirectory(link: bool) returns (t: FileTree)
    ensures !Consistent(t.nodes)
  {
    hide Consistent, CreateAfter, LinkAfter;
    var d, f, ok, made;
    t, d, f := HeldDirectory();
    if link {
      ok := t.Link(f, d, "x", true);
      assert ok;
    } else {
      assert t.nodes[if d != 2 && f != 2 then 2 else if d != 3 && f != 3 then 3 else 4].kind == Free;
      f, made := t.Create(Dir, d, "x", [true, true, true]);
      assert made;
    }
  }

  /** A tree with a file, and a directory that was unlinked while somebody holds it. */
  method HeldDirectory() returns (t: FileTree, d: nat, f: nat)
    ensures fresh(t) && Consistent(t.nodes) && |t.nodes| == 8 && 1 < d < 8 && 1 < f < 8 && d != f
    ensures t.nodes[d] == Node(Dir, 0, [Entry(d, "."), Entry(ROOT, "..")]) && t.nodes[f].kind == File
    ensures forall i :: 2 <= i < 8 && i != d && i != f ==> t.nodes[i].kind == Free
  {
    hide Consistent, Counted, Shaped, CreateAfter, UnlinkAfter;
    t := new FileTree(8);
    var made, r;
    var root := [Entry(ROOT, "."), Entry(ROOT, "..")];
    ghost var n0 := t.nodes;
    assert n0[2].kind == Free && n0[ROOT].entries == root;
    d, made := t.Create(Dir, ROOT, "d", [true, true, true]);
    var own := [Entry(d, "."), Entry(ROOT, "..")];
    ghost var n1, e1 := t.nodes, root + [Entry(d, "d")];
    assert made && n1[ROOT].entries == e1 && n1[d] == Node(Dir, 1, own);
    assert n1[if d == 2 then 3 else 2].kind == Free;
    f, made := t.Create(File, ROOT, "f", [true, true, true]);
    ghost var n2, e2 := t.nodes, e1 + [Entry(f, "f")];
    assert made && n2[ROOT].entries == e2 && n2[d] == Node(Dir, 1, own) && n2[f].kind == File && f != d;
    r := t.Unlink(ROOT, "d", false);
    assert e2[2] == Entry(d, "d");
    assert HasName(e2, "d");
    assert r == Done;
  }

  /** One call; true if it strays. */
  method Perform(t: FileTree, call: Call) returns (stray: bool)
    requires Consistent(t.nodes)
    modifies t`nodes
    ensures t.nodes == After(old(t.nodes), call)
    ensures stray <==> Strays(old(t.nodes), call)
    ensures stray <==> !Consistent(t.nodes)
  {
    hide Consistent, LinkAfter, CreateAfter, UnlinkAfter, IputAfter;
    AfterKeeps(t.nodes, call);
    stray := false;
    if !Resolved(t.nodes, call) {
      return;
    }
    match call {
      case CallLink(ip, dp, name, room) =>
        var linked := Linked(t.nodes[dp]);
        var ok := t.Link(ip, dp, name, room);
        stray := ok && !linked;
      case CallCreate(kind, dp, name, rooms) =>
        var linked := Linked(t.nodes[dp]);
        var inum, made := t.Create(kind, dp, name, rooms);
        stray := made && !linked;
      case CallUnlink(dp, name, last) =>
        var r := t.Unlink(dp, name, last);
      case CallIput(ip, last) =>
        t.Iput(ip, last);
    }
  }

  lemma {:induction false} FreshTotals(nodes: seq<Node>, t: nat, n: nat)
    requires n <= |nodes| && |nodes| > ROOT && t != 0
    requires nodes[ROOT] == Node(Dir, 1, [Entry(ROOT, "."), Entry(ROOT, "..")])
    requires forall d :: 0 <= d < |nodes| && d != ROOT ==> nodes[d] == Node(Free, 0, [])
    ensures Total(nodes, t, n) == if t == ROOT && n > ROOT then 1 else 0
  {
    if n == 0 {
    } else {
      FreshTotals(nodes, t, n - 1);
      NamesEmpty(nodes[ROOT].entries, ROOT, ROOT, t);
    }
  }

  lemma FreshImage(nodes: seq<Node>)
    requires |nodes| > ROOT && nodes[ROOT] == Node(Dir, 1, [Entry(ROOT, "."), Entry(ROOT, "..")])
    requires forall d :: 0 <= d < |nodes| && d != ROOT ==> nodes[d] == Node(Free, 0, [])
    ensures Consistent(nodes)
  {
    forall t | 1 <= t < |nodes| ensures Counted(nodes, t) {
      FreshTotals(nodes, t, |nodes|);
    }
  }

  lemma MayUnlink(nodes: seq<Node>, dp: nat, k: nat, name: string)
    requires Consistent(nodes) && 0 < dp < |nodes| && nodes[dp].kind == Dir && k < |nodes[dp].entries|
    requires nodes[dp].entries[k].inum != 0 && nodes[dp].entries[k].name == name && name != "." && name != ".."
    requires nodes[dp].entries[k].inum < |nodes|
    requires var ip := nodes[dp].entries[k].inum; nodes[ip].kind == Dir ==> Childless(nodes[ip].entries)
    ensures CanUnlink(nodes, dp, k)
  {
    Found(nodes, dp, k, name);
    assert DirOk(nodes, nodes[dp].entries[k].inum);
  }

  lemma FreeBlank(nodes: seq<Node>, ip: nat)
    requires Consistent(nodes) && 0 < ip < |nodes| && nodes[ip].kind == Free
    ensures nodes[ip] == Node(Free, 0, [])
  {
    assert DirOk(nodes, ip) && Counted(nodes, ip);
  }

  /** An entry that dirlookup finds, other than "." and "..", is a child. */
  lemma Found(nodes: seq<Node>, dp: nat, k: nat, name: string)
    requires Consistent(nodes) && 0 < dp < |nodes| && nodes[dp].kind == Dir && k < |nodes[dp].entries|
    requires nodes[dp].entries[k].inum != 0 && nodes[dp].entries[k].name == name && name != "." && name != ".."
    ensures Child(nodes, dp, k) && nodes[dp].entries[k].inum < |nodes| && nodes[nodes[dp].entries[k].inum].nlink >= 1
    ensures nodes[nodes[dp].entries[k].inum].kind != Dir ==> nodes[nodes[dp].entries[k].inum].entries == []
  {
    assert DirOk(nodes, dp) && Counted(nodes, dp);
    assert Child(nodes, dp, k);
    assert ChildOk(nodes, dp, k);
    var ip := nodes[dp].entries[k].inum;
    assert DirOk(nodes, ip) && Counted(nodes, ip);
    Counts(nodes, dp, k, ip);
  }
}
