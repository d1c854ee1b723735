/** Link counts in the bytes of the file system: directory entries decoded from the files' data, and
    every run of system calls from mkfs's image followed as a run of the trees of Links. */
module FileLinks {
  import opened FsModel
  import opened FsCode
  import opened FileStore
  import opened FsOps
  import L = Links
  import Mkfs

  // ----- Directories, decoded -----

  /** Two bytes, the low one first. */
  function Inum(data: seq<byte>, k: nat): nat
    requires 16 * k + 16 <= |data|
  {
    (data[16 * k] as int) + 256 * (data[16 * k + 1] as int)
  }

  /** The characters before the first zero byte. */
  function CName(b: seq<byte>): string {
    if b == [] || b[0] == 0 then "" else [b[0] as char] + CName(b[1..])
  }

  function EntryAt(data: seq<byte>, k: nat): L.Entry
    requires 16 * k + 16 <= |data|
  {
    L.Entry(Inum(data, k), CName(data[16 * k + 2..16 * k + 16]))
  }

  function Decode(data: seq<byte>): (r: seq<L.Entry>)
    ensures |r| == |data| / 16 && forall k: nat :: k < |r| ==> r[k] == EntryAt(data, k)
  {
    seq(|data| / 16, k requires 0 <= k < |data| / 16 => EntryAt(data, k))
  }

  function KindOf(typ: nat): L.Kind {
    if typ == 0 then L.Free else if typ == T_DIR then L.Dir else if typ == T_FILE then L.File else L.Device
  }

  function NodeOf(f: File): L.Node {
    L.Node(KindOf(f.typ), f.nlink, if f.typ == T_DIR then Decode(f.data) else [])
  }

  function Tree(files: seq<File>): (r: seq<L.Node>)
    ensures |r| == |files| && forall m :: 0 <= m < |r| ==> r[m] == NodeOf(files[m])
  {
    seq(|files|, m requires 0 <= m < |files| => NodeOf(files[m]))
  }

  /** Entries other than "." that name inode t, over the directories that have links. */
  function NameCount(files: seq<File>, t: nat): nat {
    L.Total(Tree(files), t, |files|)
  }

  /** The tree is in order, nlink counts names for every inode, and directories are whole entries. */
  ghost predicate Good(files: seq<File>) {
    && 1 < |files| <= 65536 && L.Consistent(Tree(files))
    && forall m :: 0 <= m < |files| ==> files[m].nlink < 65536 && (files[m].typ == T_DIR ==> |files[m].data| % 16 == 0)
  }

  lemma DirentDecodes(n: nat, name: seq<byte>)
    requires n < 65536 && |name| == 14
    ensures EntryAt(Dirent(n, name), 0) == L.Entry(n, CName(name))
  {
    assert Dirent(n, name)[2..16] == name;
  }

  lemma DotDecodes()
    ensures CName(DOT) == "." && CName(DOTDOT) == ".."
  {
    assert DOT[1..][0] == 0 && CName(DOT[1..]) == "";
    assert DOTDOT[1..][0] == 46 && DOTDOT[1..][1..][0] == 0 && CName(DOTDOT[1..][1..]) == "";
    assert CName(DOTDOT[1..]) == ".";
  }

  lemma NoneDecodes()
    ensures EntryAt(NO_ENTRY, 0) == L.Entry(0, "")
  {
    assert NO_ENTRY[2..16][0] == 0;
  }

  lemma SameEntry(a: seq<byte>, j: nat, b: seq<byte>, k: nat)
    requires 16 * j + 16 <= |a| && 16 * k + 16 <= |b| && a[16 * j..16 * j + 16] == b[16 * k..16 * k + 16]
    ensures EntryAt(a, j) == EntryAt(b, k)
  {
    var p, q := a[16 * j..16 * j + 16], b[16 * k..16 * k + 16];
    assert p[0] == a[16 * j] && p[1] == a[16 * j + 1] && q[0] == b[16 * k] && q[1] == b[16 * k + 1];
    assert p[2..] == a[16 * j + 2..16 * j + 16] && q[2..] == b[16 * k + 2..16 * k + 16];
  }

  lemma DecodeAdd(a: seq<byte>, b: seq<byte>)
    requires |a| % 16 == 0 && |b| % 16 == 0
    ensures |a + b| % 16 == 0 && Decode(a + b) == Decode(a) + Decode(b)
  {
    hide EntryAt;
    var n := |a| / 16;
    forall k: nat | k < n ensures EntryAt(a + b, k) == EntryAt(a, k) {
      assert (a + b)[16 * k..16 * k + 16] == a[16 * k..16 * k + 16];
      SameEntry(a + b, k, a, k);
    }
    forall k: nat | k < |b| / 16 ensures EntryAt(a + b, n + k) == EntryAt(b, k) {
      assert (a + b)[16 * (n + k)..16 * (n + k) + 16] == b[16 * k..16 * k + 16];
      SameEntry(a + b, n + k, b, k);
    }
  }

  /** 16 bytes at entry k are one entry, in place of another or after the last. */
  lemma SpliceEntry(data: seq<byte>, k: nat, e: seq<byte>)
    requires |data| % 16 == 0 && |e| == 16 && k <= |data| / 16
    ensures |SpliceInto(data, 16 * k, e)| % 16 == 0
    ensures Decode(SpliceInto(data, 16 * k, e)) == L.WithEntry(Decode(data), k, EntryAt(e, 0))
  {
    hide Decode, EntryAt;
    var head := data[..16 * k];
    var tail := if 16 * k < |data| then data[16 * k + 16..] else [];
    var mid := if 16 * k < |data| then data[16 * k..16 * k + 16] else [];
    assert SpliceInto(data, 16 * k, e) == head + e + tail && data == head + mid + tail;
    DecodeAdd(head, e);
    DecodeAdd(head + e, tail);
    DecodeAdd(head, mid);
    DecodeAdd(head + mid, tail);
    DecodeOne(e);
  }

  lemma DecodeOne(e: seq<byte>)
    requires |e| == 16
    ensures Decode(e) == [EntryAt(e, 0)]
  {
  }

  // ----- The steps, on trees -----

  lemma TreeSet(files: seq<File>, n: nat, f: File)
    requires n < |files|
    ensures Tree(files[n := f]) == Tree(files)[n := NodeOf(f)]
  {
  }

  lemma TreePut(files: seq<File>, dp: nat, k: nat, e: seq<byte>)
    requires dp < |files| && files[dp].typ == T_DIR && |files[dp].data| % 16 == 0 && |e| == 16 && k <= |files[dp].data| / 16
    ensures var d := Tree(files)[dp];
            Tree(Put(files, dp, 16 * k, e)) == Tree(files)[dp := d.(entries := L.WithEntry(d.entries, k, EntryAt(e, 0)))]
    ensures |Put(files, dp, 16 * k, e)[dp].data| % 16 == 0
  {
    hide SpliceInto, Decode;
    SpliceEntry(files[dp].data, k, e);
    TreeSet(files, dp, files[dp].(data := SpliceInto(files[dp].data, 16 * k, e)));
  }

  lemma TreeRelink(files: seq<File>, n: nat, d: int)
    requires n < |files|
    ensures Tree(Relink(files, n, d)) == Tree(files)[n := Tree(files)[n].(nlink := (files[n].nlink + d) % 65536)]
  {
    TreeSet(files, n, files[n].(nlink := (files[n].nlink + d) % 65536));
  }

  lemma Relinked(files: seq<File>, n: nat, d: int)
    requires n < |files|
    ensures var f := Relink(files, n, d);
            |f| == |files| && f[n] == files[n].(nlink := (files[n].nlink + d) % 65536) && forall m :: 0 <= m < |f| && m != n ==> f[m] == files[m]
  {
  }

  lemma TreeDropped(files: seq<File>, n: nat, last: bool)
    requires n < |files|
    ensures Tree(Dropped(files, n, last)) == L.IputAfter(Tree(files), n, last)
  {
    TreeSet(files, n, files[n].(typ := 0, data := []));
  }

  lemma DropKeeps(files: seq<File>, n: nat, last: bool)
    requires Good(files) && n < |files|
    ensures Good(Dropped(files, n, last))
  {
    hide L.Consistent;
    TreeDropped(files, n, last);
    if n == 0 {
      NodeZero(Tree(files));
      assert files[0].typ == 0;
      if last && files[0].nlink == 0 { assert L.IputAfter(Tree(files), n, last) == Tree(files); }
    } else if last && files[n].nlink == 0 {
      L.FreeKeeps(Tree(files), n);
    }
  }

  lemma NodeZero(nodes: seq<L.Node>)
    requires L.Consistent(nodes)
    ensures |nodes| > L.ROOT && nodes[0].kind == L.Free && nodes[0].entries == []
  {
    assert L.DirOk(nodes, 0);
  }

  lemma BlankNode(nodes: seq<L.Node>, n: nat)
    requires L.Consistent(nodes) && 0 < n < |nodes| && nodes[n].kind == L.Free
    ensures nodes[n] == L.Node(L.Free, 0, [])
  {
    assert L.DirOk(nodes, n) && L.Counted(nodes, n);
  }

  // ----- The 16 bits of a directory's count suffice -----

  /** A directory that names t among its children does so once, and is t's parent. */
  lemma {:induction false} NamesBound(nodes: seq<L.Node>, d: nat, t: nat, j: nat)
    requires L.Shaped(nodes) && d < |nodes| && nodes[d].kind == L.Dir && 0 < t < |nodes| && nodes[t].kind == L.Dir
    requires j <= |nodes[d].entries| && |nodes[t].entries| >= 2
    ensures L.Names(nodes[d].entries[..j], t) <=
              (if j >= 2 && nodes[d].entries[1].inum == t then 1 else 0) + if Child(nodes, d, t, j) then 1 else 0
    ensures Child(nodes, d, t, j) ==> t != L.ROOT && nodes[t].entries[1].inum == d
  {
    var es := nodes[d].entries;
    assert L.DirOk(nodes, d);
    if j > 0 {
      NamesBound(nodes, d, t, j - 1);
      assert es[..j][..j - 1] == es[..j - 1];
      if j > 2 && es[j - 1].inum == t {
        assert L.Child(nodes, d, j - 1) && L.ChildOk(nodes, d, j - 1);
        forall k: nat | 2 <= k < j - 1 ensures es[k].inum != t {
          if es[k].inum != 0 {
            assert L.Child(nodes, d, k) && L.OneName(nodes, d, k, j - 1);
          }
        }
        assert !Child(nodes, d, t, j - 1);
      } else if Child(nodes, d, t, j) {
        var k: nat :| 2 <= k < j && es[k].inum == t;
        assert Child(nodes, d, t, j - 1);
      }
    }
  }

  /** One of the children of d before entry j is t. */
  ghost predicate Child(nodes: seq<L.Node>, d: nat, t: nat, j: nat)
    requires d < |nodes| && j <= |nodes[d].entries|
  {
    exists k: nat :: 2 <= k < j && nodes[d].entries[k].inum == t
  }

  lemma WeightBound(nodes: seq<L.Node>, d: nat, t: nat)
    requires L.Shaped(nodes) && d < |nodes| && 0 < t < |nodes| && nodes[t].kind == L.Dir && |nodes[t].entries| >= 2
    ensures L.Weight(nodes[d], t) <=
              (if L.Linked(nodes[d]) && (d != L.ROOT || t == L.ROOT) then 1 else 0)
                + if t != L.ROOT && nodes[t].entries[1].inum == d then 1 else 0
  {
    if L.Linked(nodes[d]) {
      var es := nodes[d].entries;
      assert es[..|es|] == es;
      NamesBound(nodes, d, t, |es|);
    }
  }

  /** Each directory with links counts once by its ".." at most, and t's parent once more. */
  lemma {:induction false} TotalBound(nodes: seq<L.Node>, t: nat, blank: nat, n: nat)
    requires L.Shaped(nodes) && 0 < t < |nodes| && nodes[t].kind == L.Dir && |nodes[t].entries| >= 2
    requires 0 < blank < |nodes| && nodes[blank].kind == L.Free && n <= |nodes|
    ensures L.Total(nodes, t, n) <=
              n - (if n > 0 then 1 else 0) - (if n > blank then 1 else 0)
                - (if t != L.ROOT && n > L.ROOT then 1 else 0) + if t != L.ROOT && n > nodes[t].entries[1].inum then 1 else 0
  {
    if n > 0 {
      TotalBound(nodes, t, blank, n - 1);
      WeightBound(nodes, n - 1, t);
      assert nodes[0].kind == L.Free && nodes[L.ROOT].kind == L.Dir;
    }
  }

  /** With an inode to spare no directory's count is at its limit. */
  lemma RoomForLink(nodes: seq<L.Node>, t: nat, blank: nat)
    requires L.Consistent(nodes) && |nodes| <= 65536 && 0 < t < |nodes| && nodes[t].kind == L.Dir
    requires 0 < blank < |nodes| && nodes[blank].kind == L.Free
    ensures nodes[t].nlink <= 65534
  {
    assert L.DirOk(nodes, t) && L.Counted(nodes, t);
    TotalBound(nodes, t, blank, |nodes|);
  }

  // ----- The calls -----

  /** The call carries what its lookups found: a place for a name that is not there, or an entry in use,
      not "." or "..", that names the inode, which has no children of its own.  No directory is opened
      for writing. */
  ghost predicate Looked(files: seq<File>, call: Call) {
    Sane(call, |files|) &&
    match call
    case Write(n, _, _) => files[n].typ != T_DIR
    case Create(_, _, _, dp, k, name, _) => files[dp].typ == T_DIR ==> L.Vacant(Tree(files), dp, k, CName(name))
    case Link(_, dp, k, name, _, _) => files[dp].typ == T_DIR ==> L.Vacant(Tree(files), dp, k, CName(name))
    case Unlink(n, dp, k, _, _) =>
      files[dp].typ == T_DIR ==>
        && k < |files[dp].data| / 16 && Inum(files[dp].data, k) == n && n != 0
        && Decode(files[dp].data)[k].name != "." && Decode(files[dp].data)[k].name != ".."
        && (files[n].typ == T_DIR ==> L.Childless(Decode(files[n].data)))
    case _ => true
  }

  /** An entry went into a directory without links, or a count past what 16 bits hold. */
  predicate Astray(files: seq<File>, call: Call, r: Result) {
    Sane(call, |files|) &&
    match call
    case Create(_, _, _, dp, _, _, _) => r.Made? && files[dp].nlink == 0
    case Link(n, dp, _, _, _, _) => r == Done && (files[dp].nlink == 0 || files[n].nlink == 65535)
    case _ => false
  }

  lemma CountedAt(nodes: seq<L.Node>, t: nat)
    requires L.Consistent(nodes) && 1 <= t < |nodes|
    ensures L.Counted(nodes, t)
  {
  }

  /** Inode t's count is off. */
  ghost predicate Off(files: seq<File>, t: nat)
    requires t < |files|
  {
    files[t].nlink != NameCount(files, t)
  }

  lemma OffBad(files: seq<File>, t: nat)
    requires 1 <= t < |files| && Off(files, t)
    ensures !Good(files)
  {
    assert L.Consistent(Tree(files)) ==> L.Counted(Tree(files), t);
  }

  lemma OffDropped(files: seq<File>, n: nat, last: bool, t: nat)
    requires n < |files| && t < |files|
    ensures Off(Dropped(files, n, last), t) <==> Off(files, t)
  {
    TreeDropped(files, n, last);
    L.TotalSet(Tree(files), n, L.Node(L.Free, 0, []), t, |files|);
  }

  // ----- link -----

  lemma LinkedTree(files: seq<File>, n: nat, dp: nat, k: nat, name: seq<byte>)
    requires Good(files) && n < |files| && dp < |files| && n != dp && |name| == 14 && files[dp].typ == T_DIR
    requires files[n].typ != T_DIR && k <= |files[dp].data| / 16
    ensures var t, f := Tree(files), Linked(files, n, dp, k, name);
            && Tree(f) == t[n := t[n].(nlink := (files[n].nlink + 1) % 65536)]
                           [dp := t[dp].(entries := L.WithEntry(t[dp].entries, k, L.Entry(n, CName(name))))]
            && |f| == |files| && f[dp].nlink == files[dp].nlink && f[n].nlink == (files[n].nlink + 1) % 65536
            && (files[n].nlink < 65535 ==> Tree(f) == L.Linking(t, n, dp, k, L.Entry(n, CName(name))))
            && forall m :: 0 <= m < |f| ==> f[m].nlink < 65536 && (f[m].typ == T_DIR ==> |f[m].data| % 16 == 0)
  {
    hide L.Consistent, Put, Tree;
    var r := Relink(files, n, 1);
    TreeRelink(files, n, 1);
    TreePut(r, dp, k, Dirent(n, name));
    DirentDecodes(n, name);
    PutOthers(r, dp, 16 * k, Dirent(n, name));
  }

  lemma PutOthers(files: seq<File>, n: nat, off: nat, src: seq<byte>)
    requires n < |files|
    ensures var f := Put(files, n, off, src);
            |f| == |files| && f[n] == files[n].(data := f[n].data) && forall m :: 0 <= m < |f| && m != n ==> f[m] == files[m]
  {
  }

  lemma LinkOff(files: seq<File>, n: nat, dp: nat, k: nat, name: seq<byte>)
    requires Good(files) && 0 < n < |files| && dp < |files| && n != dp && |name| == 14 && files[dp].typ == T_DIR
    requires files[n].typ != T_DIR && L.Vacant(Tree(files), dp, k, CName(name)) && CName(name) != "."
    requires files[dp].nlink == 0 || files[n].nlink == 65535
    ensures |Linked(files, n, dp, k, name)| == |files| && Off(Linked(files, n, dp, k, name), n)
  {
    hide L.Consistent, Linked, Tree, CName, L.Total, L.WithEntry;
    LinkedTree(files, n, dp, k, name);
    WrongLink(Tree(files), n, dp, k, CName(name), (files[n].nlink + 1) % 65536);
  }

  /** The count goes up without a name for it, or starts again from 0. */
  lemma WrongLink(nodes: seq<L.Node>, n: nat, dp: nat, k: nat, name: string, links: nat)
    requires L.Consistent(nodes) && 0 < n < |nodes| && dp < |nodes| && n != dp && nodes[n].kind != L.Dir && name != "."
    requires L.Vacant(nodes, dp, k, name) && links == (nodes[n].nlink + 1) % 65536 && 0 <= nodes[n].nlink < 65536
    requires nodes[dp].nlink == 0 || nodes[n].nlink == 65535
    ensures var t := nodes[n := nodes[n].(nlink := links)]
                          [dp := nodes[dp].(entries := L.WithEntry(nodes[dp].entries, k, L.Entry(n, name)))];
            links != L.Total(t, n, |t|)
  {
    hide L.Consistent, L.WithEntry, L.Names, L.Total;
    CountedAt(nodes, n);
    var e, x := L.Entry(n, name), nodes[n].(nlink := links);
    var y := nodes[dp].(entries := L.WithEntry(nodes[dp].entries, k, e));
    L.TotalSet(nodes, n, x, n, |nodes|);
    L.TotalSet(nodes[n := x], dp, y, n, |nodes|);
    L.NamesWith(nodes[dp].entries, k, e, n);
  }

  lemma LinkCall(g: Geometry, st0: State, c: Call, r: Result, st1: State)
    requires c.Link? && Step1(g, st0, c, r, st1) && r != Panicked
    requires Good(FilesIn(st0)) && Looked(FilesIn(st0), c)
    ensures Good(FilesIn(st1)) <==> !Astray(FilesIn(st0), c, r)
  {
    hide L.Consistent, Room, Files, FilesIn, Put, Relink;
    var f0 := FilesIn(st0);
    var t := Tree(f0);
    if r == Done {
      var f := Linked(f0, c.n, c.dp, c.k, c.name);
      NodeZero(t);
      assert t[c.n].kind != L.Free && c.n != 0 && c.dp != 0 by { assert t[c.dp].kind == L.Dir; }
      LinkedTree(f0, c.n, c.dp, c.k, c.name);
      if !Astray(f0, c, r) {
        L.LinkKeeps(t, c.n, c.dp, c.k, CName(c.name));
        DropKeeps(f, c.dp, c.lastDp);
        DropKeeps(Dropped(f, c.dp, c.lastDp), c.n, c.last);
      } else {
        VacantDot(t, c.dp, c.k, CName(c.name));
        LinkOff(f0, c.n, c.dp, c.k, c.name);
        OffDropped(f, c.dp, c.lastDp, c.n);
        OffDropped(Dropped(f, c.dp, c.lastDp), c.n, c.last, c.n);
        OffBad(FilesIn(st1), c.n);
      }
    } else if f0[c.n].typ == T_DIR {
      DropKeeps(f0, c.n, c.last);
    } else {
      DropKeeps(f0, c.dp, c.lastDp);
      DropKeeps(Dropped(f0, c.dp, c.lastDp), c.n, c.last);
    }
  }

  /** A name that is not in a directory is not ".". */
  lemma VacantDot(nodes: seq<L.Node>, dp: nat, k: nat, name: string)
    requires L.Consistent(nodes) && L.Vacant(nodes, dp, k, name)
    ensures name != "."
  {
    assert L.DirOk(nodes, dp);
    NodeZero(nodes);
  }

  // ----- create -----

  lemma NewDirectory(n: nat, dp: nat)
    requires n < 65536 && dp < 65536
    ensures |Dirent(n, DOT) + Dirent(dp, DOTDOT)| == 32
    ensures Decode(Dirent(n, DOT) + Dirent(dp, DOTDOT)) == [L.Entry(n, "."), L.Entry(dp, "..")]
  {
    DotDecodes();
    DirentDecodes(n, DOT);
    DirentDecodes(dp, DOTDOT);
    DecodeAdd(Dirent(n, DOT), Dirent(dp, DOTDOT));
    assert Decode(Dirent(n, DOT)) == [L.Entry(n, ".")] && Decode(Dirent(dp, DOTDOT)) == [L.Entry(dp, "..")];
  }

  lemma NewNodeOf(n: nat, c: Call)
    requires c.Create? && n < 65536 && c.dp < 65536 && c.typ > 0
    ensures NodeOf(NewNode(n, c.typ, c.major, c.minor, c.dp)) == L.NewNode(KindOf(c.typ), n, c.dp)
    ensures |NewNode(n, c.typ, c.major, c.minor, c.dp).data| % 16 == 0
  {
    NewDirectory(n, c.dp);
  }

  lemma EnteredTree(files: seq<File>, n: nat, c: Call)
    requires Good(files) && c.Create? && Sane(c, |files|) && 0 < n < |files| && files[n].typ == 0 && n != c.dp
    requires files[c.dp].typ == T_DIR && c.k <= |files[c.dp].data| / 16
    ensures var f := Entered(files, n, NewNode(n, c.typ, c.major, c.minor, c.dp), c.dp, c.k, c.name);
            && Tree(f) == L.Creating(Tree(files), n, KindOf(c.typ), c.dp, c.k, L.Entry(n, CName(c.name))) && |f| == |files|
            && forall m :: 0 <= m < |f| ==> f[m].nlink < 65536 && (f[m].typ == T_DIR ==> |f[m].data| % 16 == 0)
  {
    hide L.Consistent, Put, NewNode, L.NewNode, Dirent, L.WithEntry, CName, Decode;
    var t, node := Tree(files), NewNode(n, c.typ, c.major, c.minor, c.dp);
    var f1 := files[n := node];
    NodeZero(t);
    assert c.dp != 0 by { assert t[c.dp].kind == L.Dir; }
    RoomForLink(t, c.dp, n);
    NewNodeOf(n, c);
    NewNodeFields(n, c);
    TreeSet(files, n, node);
    TreePut(f1, c.dp, c.k, Dirent(n, c.name));
    DirentDecodes(n, c.name);
    var f2 := Put(f1, c.dp, 16 * c.k, Dirent(n, c.name));
    PutOthers(f1, c.dp, 16 * c.k, Dirent(n, c.name));
    TreeRelink(f2, c.dp, 1);
  }

  lemma NewNodeFields(n: nat, c: Call)
    requires c.Create? && n < 65536 && c.dp < 65536
    ensures var node := NewNode(n, c.typ, c.major, c.minor, c.dp); node.typ == c.typ && node.nlink == 1
  {
  }

  lemma CreateCall(g: Geometry, st0: State, c: Call, r: Result, st1: State)
    requires c.Create? && Step1(g, st0, c, r, st1) && r != Panicked
    requires Good(FilesIn(st0)) && Looked(FilesIn(st0), c)
    ensures Good(FilesIn(st1)) <==> !Astray(FilesIn(st0), c, r)
  {
    hide L.Consistent, Room, Files, FilesIn, Entered, NewNode;
    var f0 := FilesIn(st0);
    var t, n := Tree(f0), FirstBlank(f0, 1);
    if f0[c.dp].typ != T_DIR || n >= |f0| {
      DropKeeps(f0, c.dp, c.last);
    } else if r.Made? {
      var f := Entered(f0, n, NewNode(n, c.typ, c.major, c.minor, c.dp), c.dp, c.k, c.name);
      EnteredTree(f0, n, c);
      NodeZero(t);
      assert t[c.dp].kind == L.Dir && c.dp != 0;
      L.CreateKeeps(t, n, KindOf(c.typ), c.dp, c.k, CName(c.name));
      if !Astray(f0, c, r) {
        DropKeeps(f, c.dp, c.last);
      } else {
        CreateBad(f0, n, c);
      }
    } else {
      BlankNode(t, n);
      TreeSet(f0, n, File(0, c.major, c.minor, 0, []));
      assert Tree(f0[n := File(0, c.major, c.minor, 0, [])]) == t;
      DropKeeps(f0[n := File(0, c.major, c.minor, 0, [])], c.dp, c.last);
    }
  }

  /** An entry in a removed directory, also after that directory is let go of. */
  lemma CreateBad(files: seq<File>, n: nat, c: Call)
    requires Good(files) && c.Create? && Sane(c, |files|) && 0 < n < |files| && files[n].typ == 0 && n != c.dp
    requires files[c.dp].typ == T_DIR && L.Vacant(Tree(files), c.dp, c.k, CName(c.name)) && files[c.dp].nlink == 0
    ensures var f := Entered(files, n, NewNode(n, c.typ, c.major, c.minor, c.dp), c.dp, c.k, c.name);
            c.dp < |f| && !Good(Dropped(f, c.dp, c.last))
  {
    hide Entered, NewNode, L.Consistent, L.NewNode;
    var t := Tree(files);
    var f := Entered(files, n, NewNode(n, c.typ, c.major, c.minor, c.dp), c.dp, c.k, c.name);
    EnteredTree(files, n, c);
    NodeZero(t);
    assert t[c.dp].kind == L.Dir && c.dp != 0;
    if c.typ == T_DIR {
      L.CreateOrphan(t, n, c.dp, c.k, CName(c.name));
      assert Tree(f)[c.dp].nlink == 1;
    } else {
      VacantDot(t, c.dp, c.k, CName(c.name));
      CreateOff(t, n, c);
      OffDropped(f, c.dp, c.last, n);
      OffBad(Dropped(f, c.dp, c.last), n);
    }
  }

  lemma CreateOff(nodes: seq<L.Node>, n: nat, c: Call)
    requires c.Create? && c.typ != T_DIR && c.typ != 0 && L.CanCreate(nodes, n, KindOf(c.typ), c.dp, c.k, CName(c.name))
    requires CName(c.name) != "." && n != c.dp && !L.Linked(nodes[c.dp])
    ensures var f := L.Creating(nodes, n, KindOf(c.typ), c.dp, c.k, L.Entry(n, CName(c.name)));
            |f| == |nodes| && f[n].nlink != L.Total(f, n, |f|)
  {
    BlankNode(nodes, n);
    assert L.Counted(nodes, n);
    L.CreateTotals(nodes, n, KindOf(c.typ), c.dp, c.k, CName(c.name), n);
  }

  // ----- unlink -----

  lemma ClearedTree(files: seq<File>, n: nat, dp: nat, k: nat)
    requires Good(files) && n < |files| && dp < |files| && n != dp && files[dp].typ == T_DIR && k < |files[dp].data| / 16
    requires files[dp].nlink >= 1
    ensures var t, f := Tree(files), EntryCleared(files, n, dp, k);
            && |f| == |files| && f[n] == files[n] && f[dp].nlink == files[dp].nlink - (if files[n].typ == T_DIR then 1 else 0)
            && Tree(f) == t[dp := L.Node(L.Dir, f[dp].nlink, t[dp].entries[k := L.Entry(0, "")])]
            && forall m :: 0 <= m < |f| ==> f[m].nlink < 65536 && (f[m].typ == T_DIR ==> |f[m].data| % 16 == 0)
  {
    hide L.Consistent, Put, Relink, Tree, EntryAt, Inum, CName, SpliceInto;
    var f := Put(files, dp, 16 * k, NO_ENTRY);
    TreePut(files, dp, k, NO_ENTRY);
    NoneDecodes();
    PutOthers(files, dp, 16 * k, NO_ENTRY);
    TreeRelink(f, dp, -1);
    Relinked(f, dp, -1);
  }

  lemma UnlinkCall(g: Geometry, st0: State, c: Call, r: Result, st1: State)
    requires c.Unlink? && Step1(g, st0, c, r, st1) && r != Panicked
    requires Good(FilesIn(st0)) && Looked(FilesIn(st0), c)
    ensures Good(FilesIn(st1))
  {
    hide L.Consistent, Room, Files, FilesIn, EntryCleared, Tree, Relink;
    var f0 := FilesIn(st0);
    if f0[c.dp].typ != T_DIR {
      DropKeeps(f0, c.dp, c.lastDp);
    } else {
      UnlinkedTree(f0, c);
      var f1 := EntryCleared(f0, c.n, c.dp, c.k);
      assert Dropped(f1, c.dp, c.lastDp) == f1;
    }
  }

  lemma UnlinkedTree(files: seq<File>, c: Call)
    requires c.Unlink? && Sane(c, |files|) && Good(files) && Looked(files, c) && files[c.dp].typ == T_DIR
    ensures var f := EntryCleared(files, c.n, c.dp, c.k);
            |f| == |files| && f[c.dp].nlink > 0 && Good(Dropped(Relink(f, c.n, -1), c.n, c.last))
  {
    hide L.Consistent, EntryCleared, Tree, EntryAt, Decode, L.Unlinking, Relink, Dropped, L.Childless;
    MayUnlink(files, c);
    UnlinkedFiles(files, c);
  }

  lemma MayUnlink(files: seq<File>, c: Call)
    requires c.Unlink? && Sane(c, |files|) && Good(files) && Looked(files, c) && files[c.dp].typ == T_DIR
    ensures L.CanUnlink(Tree(files), c.dp, c.k) && Tree(files)[c.dp].entries[c.k].inum == c.n && c.k < |files[c.dp].data| / 16
    ensures files[c.dp].nlink >= 1 && files[c.n].nlink >= 1 && (files[c.n].typ == T_DIR ==> files[c.dp].nlink >= 2)
  {
    hide L.Consistent, L.Names, CName;
    var t := Tree(files);
    NodeZero(t);
    assert t[c.dp].kind == L.Dir && c.dp != 0;
    assert t[c.dp].entries[c.k] == EntryAt(files[c.dp].data, c.k);
    L.MayUnlink(t, c.dp, c.k, t[c.dp].entries[c.k].name);
    L.UnlinkBasics(t, c.dp, c.k);
  }

  lemma UnlinkedFiles(files: seq<File>, c: Call)
    requires c.Unlink? && Sane(c, |files|) && Good(files) && files[c.dp].typ == T_DIR
    requires L.CanUnlink(Tree(files), c.dp, c.k) && Tree(files)[c.dp].entries[c.k].inum == c.n && c.k < |files[c.dp].data| / 16
    requires files[c.dp].nlink >= 1 && files[c.n].nlink >= 1 && (files[c.n].typ == T_DIR ==> files[c.dp].nlink >= 2)
    ensures var f := EntryCleared(files, c.n, c.dp, c.k);
            |f| == |files| && f[c.dp].nlink > 0 && Good(Dropped(Relink(f, c.n, -1), c.n, c.last))
  {
    hide L.Consistent, EntryCleared, Tree, L.CanUnlink, L.Unlinking, L.IputAfter;
    var t, f := Tree(files), EntryCleared(files, c.n, c.dp, c.k);
    L.UnlinkKeeps(t, c.dp, c.k, c.last);
    ClearedTree(files, c.n, c.dp, c.k);
    TreeRelink(f, c.n, -1);
    TreeDropped(Relink(f, c.n, -1), c.n, c.last);
    UnlinkedNodes(t, c.dp, c.k, c.last, f[c.dp].nlink, Tree(f));
  }

  /** The three steps together. */
  lemma UnlinkedNodes(t: seq<L.Node>, dp: nat, k: nat, last: bool, links: int, f: seq<L.Node>)
    requires dp < |t| && k < |t[dp].entries| && t[dp].entries[k].inum < |t| && t[dp].entries[k].inum != dp && t[dp].kind == L.Dir
    requires var n := t[dp].entries[k].inum;
             1 <= t[n].nlink < 65536 && links == t[dp].nlink - if t[n].kind == L.Dir then 1 else 0
    requires f == t[dp := L.Node(L.Dir, links, t[dp].entries[k := L.Entry(0, "")])]
    ensures var n := t[dp].entries[k].inum;
            L.IputAfter(f[n := f[n].(nlink := (t[n].nlink - 1) % 65536)], n, last) == L.Unlinking(t, dp, k, last)
  {
  }

  // ----- Every call, every run -----

  /** A call that carries what its lookups found keeps the counts right, exactly when it does not go
      astray. */
  lemma CallKeeps(g: Geometry, st0: State, call: Call, r: Result, st1: State)
    requires Step1(g, st0, call, r, st1) && r != Panicked && Good(FilesIn(st0)) && Looked(FilesIn(st0), call)
    ensures Good(FilesIn(st1)) <==> !Astray(FilesIn(st0), call, r)
  {
    hide L.Consistent, Room, Files, FilesIn, DidCreate, DidLink, DidUnlink;
    var f0 := FilesIn(st0);
    match call {
      case Write(n, off, src) =>
        TreeSet(f0, n, FilesIn(st1)[n]);
        assert Tree(FilesIn(st1)) == Tree(f0);
      case Read(_, _, _, _) =>
      case Trunc(n) =>
        if f0[n].typ == T_FILE {
          TreeSet(f0, n, f0[n].(data := []));
          assert Tree(FilesIn(st1)) == Tree(f0);
        }
      case Close(n, last) => DropKeeps(f0, n, last);
      case Create(_, _, _, _, _, _, _) => CreateCall(g, st0, call, r, st1);
      case Link(_, _, _, _, _, _) => LinkCall(g, st0, call, r, st1);
      case Unlink(_, _, _, _, _) => UnlinkCall(g, st0, call, r, st1);
    }
  }

  /** Up to state i no call panicked or went astray, and each carried what its lookups found. */
  ghost predicate Orderly(calls: seq<Call>, states: seq<State>, results: seq<Result>, i: nat) {
    i <= |results| <= |calls| && |results| < |states| &&
    forall j :: 0 <= j < i ==>
      results[j] != Panicked && Looked(FilesIn(states[j]), calls[j]) && !Astray(FilesIn(states[j]), calls[j], results[j])
  }

  /** In every state that a run reaches in order, nlink counts the names; and not after a call astray. */
  lemma {:induction false} RunCounts(g: Geometry, calls: seq<Call>, states: seq<State>, results: seq<Result>, i: nat)
    requires History(g, calls, states, results) && Good(FilesIn(states[0])) && Orderly(calls, states, results, i)
    ensures Good(FilesIn(states[i])) && forall t :: 1 <= t < |FilesIn(states[i])| ==> FilesIn(states[i])[t].nlink == NameCount(FilesIn(states[i]), t)
    ensures i < |results| && results[i] != Panicked && Looked(FilesIn(states[i]), calls[i]) ==>
              (Good(FilesIn(states[i + 1])) <==> !Astray(FilesIn(states[i]), calls[i], results[i]))
  {
    hide L.Consistent, Parted, Step1, FilesIn, Looked, Astray, Tree;
    if i > 0 {
      RunCounts(g, calls, states, results, i - 1);
      CallKeeps(g, states[i - 1], calls[i - 1], results[i - 1], states[i]);
    }
    forall t: nat | 1 <= t < |FilesIn(states[i])| ensures FilesIn(states[i])[t].nlink == NameCount(FilesIn(states[i]), t) {
      CountedAt(Tree(FilesIn(states[i])), t);
    }
    if i < |results| && results[i] != Panicked && Looked(FilesIn(states[i]), calls[i]) {
      CallKeeps(g, states[i], calls[i], results[i], states[i + 1]);
    }
  }

  // ----- mkfs's image -----

  /** A program for the image: its name, padded to 14 bytes, and its bytes. */
  datatype Prog = Prog(name: seq<byte>, data: seq<byte>)

  /** main's calls: the root with "." and "..", then an inode, an entry and the bytes for each program. */
  function MainCalls(progs: seq<Prog>): seq<Mkfs.Call>
    requires |progs| + 1 < 65536 && forall i :: 0 <= i < |progs| ==> |progs[i].name| == 14
  {
    if progs == [] then
      [Mkfs.Alloc(T_DIR), Mkfs.Append(1, Dirent(1, DOT)), Mkfs.Append(1, Dirent(1, DOTDOT))]
    else
      var n, last := |progs| + 1, progs[|progs| - 1];
      MainCalls(progs[..|progs| - 1]) + [Mkfs.Alloc(T_FILE), Mkfs.Append(1, Dirent(n, last.name)), Mkfs.Append(n, last.data)]
  }

  /** Programs named other than "." and "..". */
  predicate Nameable(progs: seq<Prog>) {
    |progs| + 1 < 65536 && forall i :: 0 <= i < |progs| ==> |progs[i].name| == 14 && CName(progs[i].name) != "." && CName(progs[i].name) != ".."
  }

  function RootEntries(progs: seq<Prog>): (r: seq<L.Entry>)
    ensures |r| == |progs| + 2
  {
    if progs == [] then [L.Entry(1, "."), L.Entry(1, "..")]
    else RootEntries(progs[..|progs| - 1]) + [L.Entry(|progs| + 1, CName(progs[|progs| - 1].name))]
  }

  lemma LaidThree(calls: seq<Mkfs.Call>, a: Mkfs.Call, b: Mkfs.Call, c: Mkfs.Call, n: nat)
    ensures Mkfs.Laid(calls + [a, b, c], n) ==
              Mkfs.Laid(calls, n) + (if a.Append? && a.inum == n then a.data else [])
                + (if b.Append? && b.inum == n then b.data else []) + if c.Append? && c.inum == n then c.data else []
    ensures Mkfs.Types(calls + [a, b, c]) ==
              Mkfs.Types(calls) + (if a.Alloc? then [a.typ] else []) + (if b.Alloc? then [b.typ] else []) + if c.Alloc? then [c.typ] else []
    ensures Mkfs.Allocs(calls + [a, b, c]) ==
              Mkfs.Allocs(calls) + (if a.Alloc? then 1 else 0) + (if b.Alloc? then 1 else 0) + if c.Alloc? then 1 else 0
  {
    LaidOne(calls, a, n);
    LaidOne(calls + [a], b, n);
    LaidOne(calls + [a] + [b], c, n);
    assert calls + [a, b, c] == calls + [a] + [b] + [c];
  }

  lemma LaidOne(calls: seq<Mkfs.Call>, a: Mkfs.Call, n: nat)
    ensures Mkfs.Laid(calls + [a], n) == Mkfs.Laid(calls, n) + if a.Append? && a.inum == n then a.data else []
    ensures Mkfs.Types(calls + [a]) == Mkfs.Types(calls) + if a.Alloc? then [a.typ] else []
    ensures Mkfs.Allocs(calls + [a]) == Mkfs.Allocs(calls) + if a.Alloc? then 1 else 0
    ensures Mkfs.Proper(calls + [a]) <==> Mkfs.Proper(calls) && (a.Append? ==> a.inum <= Mkfs.Allocs(calls))
  {
    assert (calls + [a])[..|calls|] == calls;
  }

  lemma ProperThree(calls: seq<Mkfs.Call>, a: Mkfs.Call, b: Mkfs.Call, c: Mkfs.Call)
    requires Mkfs.Proper(calls) && a.Alloc? && b.Append? && b.inum == 1 && c.Append? && c.inum <= Mkfs.Allocs(calls) + 1
    ensures Mkfs.Proper(calls + [a, b, c])
  {
    LaidOne(calls, a, 0);
    LaidOne(calls + [a], b, 0);
    LaidOne(calls + [a] + [b], c, 0);
    assert calls + [a, b, c] == calls + [a] + [b] + [c];
  }

  /** What main lays down in the root, decoded, and the types of its inodes. */
  lemma {:induction false} MainLaid(progs: seq<Prog>)
    requires Nameable(progs)
    ensures var laid := MainCalls(progs);
            && Mkfs.Proper(laid) && Mkfs.Plain(laid) && Mkfs.Allocs(laid) == |progs| + 1
            && |Mkfs.Laid(laid, 1)| == 16 * (|progs| + 2) && Decode(Mkfs.Laid(laid, 1)) == RootEntries(progs)
            && |Mkfs.Types(laid)| == |progs| + 1 && Mkfs.Types(laid)[0] == T_DIR
            && forall i :: 1 <= i < |Mkfs.Types(laid)| ==> Mkfs.Types(laid)[i] == T_FILE
    decreases |progs|
  {
    hide Mkfs.Laid, Mkfs.Types, Mkfs.Allocs, Mkfs.Proper, Decode, Dirent, CName;
    var laid := MainCalls(progs);
    if progs == [] {
      var a, b, c := Mkfs.Alloc(T_DIR), Mkfs.Append(1, Dirent(1, DOT)), Mkfs.Append(1, Dirent(1, DOTDOT));
      NothingLaid();
      assert laid == [] + [a, b, c];
      LaidThree([], a, b, c, 1);
      assert [] + [] + b.data + c.data == b.data + c.data;
      ProperThree([], a, b, c);
      NewDirectory(1, 1);
    } else {
      var n, most, last := |progs| + 1, progs[..|progs| - 1], progs[|progs| - 1];
      MainLaid(most);
      var was := MainCalls(most);
      LaidThree(was, Mkfs.Alloc(T_FILE), Mkfs.Append(1, Dirent(n, last.name)), Mkfs.Append(n, last.data), 1);
      ProperThree(was, Mkfs.Alloc(T_FILE), Mkfs.Append(1, Dirent(n, last.name)), Mkfs.Append(n, last.data));
      assert Mkfs.Laid(laid, 1) == Mkfs.Laid(was, 1) + Dirent(n, last.name);
      DecodeAdd(Mkfs.Laid(was, 1), Dirent(n, last.name));
      DecodeOne(Dirent(n, last.name));
      DirentDecodes(n, last.name);
    }
  }

  lemma NothingLaid()
    ensures Mkfs.Laid([], 1) == [] && Mkfs.Types([]) == [] && Mkfs.Allocs([]) == 0 && Mkfs.Proper([])
  {
  }

  lemma {:induction false} RootEntryAt(progs: seq<Prog>, k: nat)
    requires k < |progs| + 2
    ensures RootEntries(progs)[k] ==
              if k < 2 then L.Entry(1, if k == 0 then "." else "..") else L.Entry(k, CName(progs[k - 2].name))
  {
    if progs == [] {
    } else if k < |progs| + 1 {
      RootEntryAt(progs[..|progs| - 1], k);
    }
  }

  lemma {:induction false} ZeroEntries(n: nat)
    ensures Decode(Zeros(16 * n)) == seq(n, _ => L.Entry(0, ""))
  {
    forall k: nat | k < n ensures EntryAt(Zeros(16 * n), k) == L.Entry(0, "") {
      assert Zeros(16 * n)[16 * k + 2..16 * k + 16][0] == 0;
    }
  }

  /** The files of the image: the root names itself twice and each program once. */
  ghost predicate Image(files: seq<File>, progs: seq<Prog>) {
    && |progs| + 1 < |files| <= 65536
    && AsMade(files, [T_DIR] + seq(|progs|, _ => T_FILE))
    && |files[1].data| % 16 == 0 && |files[1].data| / 16 >= |progs| + 2
    && (forall k :: 0 <= k < |progs| + 2 ==> Decode(files[1].data)[k] == RootEntries(progs)[k])
    && (forall k :: |progs| + 2 <= k < |files[1].data| / 16 ==> Decode(files[1].data)[k] == L.Entry(0, ""))
  }

  lemma {:induction false} RootNames(es: seq<L.Entry>, progs: seq<Prog>, t: nat, j: nat)
    requires Nameable(progs) && t > 0 && |progs| + 2 <= |es| && j <= |es|
    requires forall k :: 0 <= k < |progs| + 2 ==> es[k] == RootEntries(progs)[k]
    requires forall k :: |progs| + 2 <= k < |es| ==> es[k] == L.Entry(0, "")
    ensures L.Names(es[..j], t) == if t == 1 then (if j >= 2 then 1 else 0) else if t < j && t < |progs| + 2 then 1 else 0
  {
    if j > 0 {
      RootNames(es, progs, t, j - 1);
      assert es[..j][..j - 1] == es[..j - 1];
      if j - 1 < |progs| + 2 { RootEntryAt(progs, j - 1); }
    }
  }

  lemma {:induction false} RootTotal(nodes: seq<L.Node>, t: nat, n: nat)
    requires n <= |nodes| && 1 < |nodes| && L.Linked(nodes[1]) && forall m :: 0 <= m < |nodes| && m != 1 ==> nodes[m].kind != L.Dir
    ensures L.Total(nodes, t, n) == if n > 1 then L.Names(nodes[1].entries, t) else 0
  {
    if n > 0 {
      RootTotal(nodes, t, n - 1);
    }
  }

  lemma {:induction false} ImageGood(files: seq<File>, progs: seq<Prog>)
    requires Nameable(progs) && Image(files, progs)
    ensures Good(files)
  {
    hide Decode, L.Names, L.Total, CName;
    var nodes := Tree(files);
    var es := nodes[1].entries;
    assert es == Decode(files[1].data);
    assert es[..|es|] == es;
    forall m: nat | m < |nodes| ensures nodes[m].nlink == (if 1 <= m < |progs| + 2 then 1 else 0)
      ensures nodes[m].kind == if m == 1 then L.Dir else if 1 < m < |progs| + 2 then L.File else L.Free
    {
    }
    forall t: nat | 1 <= t < |nodes| ensures L.Counted(nodes, t) {
      RootTotal(nodes, t, |nodes|);
      RootNames(es, progs, t, |es|);
    }
    forall k: nat | k < |progs| + 2 ensures es[k] == if k < 2 then L.Entry(1, if k == 0 then "." else "..") else L.Entry(k, CName(progs[k - 2].name)) {
      RootEntryAt(progs, k);
    }
    RootShape(nodes, progs);
  }

  lemma {:induction false} RootShape(nodes: seq<L.Node>, progs: seq<Prog>)
    requires Nameable(progs) && |progs| + 1 < |nodes| && |nodes[1].entries| >= |progs| + 2 && nodes[1].nlink == 1
    requires forall m :: 0 <= m < |nodes| ==>
               && nodes[m].kind == (if m == 1 then L.Dir else if 1 < m < |progs| + 2 then L.File else L.Free)
               && (m != 1 ==> nodes[m].entries == [])
    requires var es := nodes[1].entries;
             && es[0] == L.Entry(1, ".") && es[1] == L.Entry(1, "..")
             && (forall k :: 2 <= k < |progs| + 2 ==> es[k] == L.Entry(k, CName(progs[k - 2].name)))
             && forall k :: |progs| + 2 <= k < |es| ==> es[k] == L.Entry(0, "")
    ensures L.Shaped(nodes)
  {
    hide CName;
    forall d: nat, k: nat | L.Child(nodes, d, k) ensures d == 1 && k < |progs| + 2 && nodes[d].entries[k].inum == k {
    }
    forall d: nat, k: nat | L.Child(nodes, d, k) ensures L.ChildOk(nodes, d, k) {
    }
    forall d: nat, i: nat, k: nat | L.Child(nodes, d, i) && L.Child(nodes, d, k) ensures L.OneName(nodes, d, i, k) {
    }
  }

  lemma {:induction false} BootImage(files: seq<File>, progs: seq<Prog>)
    requires Nameable(progs) && |progs| + 1 < |files| <= 65536
    requires AsMade(files, Mkfs.Types(MainCalls(progs))) && files[1].data == Shipped(MainCalls(progs), 1)
    ensures Image(files, progs)
  {
    hide Decode, Mkfs.Laid, Mkfs.Types;
    var laid := MainCalls(progs);
    MainLaid(progs);
    var data := Mkfs.Laid(laid, 1);
    var pad := (|data| / BSIZE + 1) * BSIZE - |data|;
    assert pad == 16 * (pad / 16);
    ZeroEntries(pad / 16);
    DecodeAdd(data, Zeros(pad));
    assert Mkfs.Types(laid) == [T_DIR] + seq(|progs|, _ => T_FILE);
  }

  /** Boot the image that mkfs makes of any programs, and run any calls.  In every state reached in
      order each inode's nlink is the number of entries that name it; the next call keeps that exactly
      when it does not go astray. */
  method BootAndCount(g: Geometry, ninodes: nat, progs: seq<Prog>, nbitmap: nat, inodestart: nat, bmapstart: nat, calls: seq<Call>)
    returns (ok: bool, fs: FileSystem, results: seq<Result>, ghost states: seq<State>)
    requires 1 <= g.nmeta <= g.size < LIMIT && g.size <= nbitmap * BPB && inodestart > 0 && bmapstart > 0
    requires Nameable(progs) && 1 < ninodes <= 65536 && forall i :: 0 <= i < |calls| ==> Sane(calls[i], ninodes)
    ensures ok <==> Mkfs.Fits(g, ninodes, MainCalls(progs)) && g.nmeta + Mkfs.Total(Mkfs.After(MainCalls(progs), ninodes)) < BPB
    ensures ok ==> History(g, calls, states, results) && states[|states| - 1] == At(fs) && |FilesIn(states[0])| == ninodes
    ensures ok ==> forall i: nat :: i < |states| && Orderly(calls, states, results, i) ==>
              && Good(FilesIn(states[i]))
              && forall t :: 1 <= t < |FilesIn(states[i])| ==> FilesIn(states[i])[t].nlink == NameCount(FilesIn(states[i]), t)
    ensures ok ==> forall i: nat ::
              i < |results| < |states| && Orderly(calls, states, results, i) && results[i] != Panicked && Looked(FilesIn(states[i]), calls[i]) ==>
                (Good(FilesIn(states[i + 1])) <==> !Astray(FilesIn(states[i]), calls[i], results[i]))
  {
    hide Good, FilesIn, Shipped, Parted, Step1, AsMade, OnDisk, AllWhole, Chain, Mkfs.Fits, Mkfs.Total, Mkfs.Laid, Mkfs.Proper, Mkfs.Allocs,
         Mkfs.Plain, Mkfs.Types, Mkfs.After, MainCalls, Sane, Looked, Astray, Image;
    MainLaid(progs);
    var laid := MainCalls(progs);
    ghost var steps;
    ok, fs, results, states, steps := BootAndRun(g, ninodes, laid, nbitmap, inodestart, bmapstart, calls);
    if !ok { return; }
    FitsEnough(g, ninodes, progs);
    BootImage(FilesIn(states[0]), progs);
    ImageGood(FilesIn(states[0]), progs);
    forall i: nat | i < |states| && Orderly(calls, states, results, i)
      ensures Good(FilesIn(states[i]))
      ensures forall t :: 1 <= t < |FilesIn(states[i])| ==> FilesIn(states[i])[t].nlink == NameCount(FilesIn(states[i]), t)
      ensures i < |results| && results[i] != Panicked && Looked(FilesIn(states[i]), calls[i]) ==>
                (Good(FilesIn(states[i + 1])) <==> !Astray(FilesIn(states[i]), calls[i], results[i]))
    {
      RunCounts(g, calls, states, results, i);
    }
  }

  lemma {:induction false} FitsEnough(g: Geometry, ninodes: nat, progs: seq<Prog>)
    requires Nameable(progs) && Mkfs.Fits(g, ninodes, MainCalls(progs))
    ensures |progs| + 1 < ninodes
  {
    hide Mkfs.Total, Mkfs.Allocs;
    MainLaid(progs);
  }
}
