/** The file system as its callers see it, without blocks: a table of files with their bytes and links,
    and what each system call of xv6-riscv/kernel/sysfile.c and file.c makes of it. */
module FileStore {
  import opened FsModel

  const T_DIR: nat := 1
  const T_FILE: nat := 2

  /** typ 0 is an inode that is not in use. */
  datatype File = File(typ: nat, major: nat, minor: nat, nlink: nat, data: seq<byte>)

  ghost function Bytes(disk: seq<Block>, inodes: seq<Inode>, m: nat): (r: seq<byte>)
    requires Sized(inodes) && m < |inodes|
    ensures |r| == inodes[m].size && forall k: nat :: k < |r| ==> r[k] == ByteAt(disk, inodes, m, k)
  {
    seq(inodes[m].size, k requires 0 <= k => ByteAt(disk, inodes, m, k))
  }

  ghost function FileOf(disk: seq<Block>, inodes: seq<Inode>, m: nat): File
    requires Sized(inodes) && m < |inodes|
  {
    File(inodes[m].typ, inodes[m].major, inodes[m].minor, inodes[m].nlink, Bytes(disk, inodes, m))
  }

  /** The files that the blocks and inodes hold. */
  ghost function Files(disk: seq<Block>, inodes: seq<Inode>): (r: seq<File>)
    ensures Sized(inodes) ==> |r| == |inodes|
  {
    if Sized(inodes) then seq(|inodes|, m requires 0 <= m < |inodes| => FileOf(disk, inodes, m)) else []
  }

  // ----- What the calls do -----

  /** src replaces the bytes at off, and goes past the end where it must. */
  function SpliceInto(data: seq<byte>, off: nat, src: seq<byte>): seq<byte> {
    if src == [] || off > |data| then data
    else data[..off] + src + if off + |src| < |data| then data[off + |src|..] else []
  }

  function Put(files: seq<File>, n: nat, off: nat, src: seq<byte>): seq<File>
    requires n < |files|
  {
    files[n := files[n].(data := SpliceInto(files[n].data, off, src))]
  }

  /** The link count is 16 bits wide. */
  function Relink(files: seq<File>, n: nat, d: int): seq<File>
    requires n < |files|
  {
    files[n := files[n].(nlink := (files[n].nlink + d) % 65536)]
  }

  /** iput: an inode without links is freed with its last reference. */
  function Dropped(files: seq<File>, n: nat, last: bool): seq<File>
    requires n < |files|
  {
    if last && files[n].nlink == 0 then files[n := files[n].(typ := 0, data := [])] else files
  }

  /** ialloc's search: the first inode from 1 that is not in use. */
  function FirstBlank(files: seq<File>, from: nat): (r: nat)
    ensures from <= r && (r < |files| ==> files[r].typ == 0)
    ensures forall m :: from <= m < r && m < |files| ==> files[m].typ != 0
    decreases |files| - from
  {
    if from >= |files| || files[from].typ == 0 then from else FirstBlank(files, from + 1)
  }

  const DOT: seq<byte> := [46, 0, 0, 0, 0, 0, 0, 0, 0, 0, 0, 0, 0, 0]
  const DOTDOT: seq<byte> := [46, 46, 0, 0, 0, 0, 0, 0, 0, 0, 0, 0, 0, 0]
  const NO_ENTRY: seq<byte> := [0, 0, 0, 0, 0, 0, 0, 0, 0, 0, 0, 0, 0, 0, 0, 0]

  /** create: inode n, with entry k of directory dp naming it; a directory has "." and "..". */
  function Entered(files: seq<File>, n: nat, node: File, dp: nat, k: nat, name: seq<byte>): seq<File>
    requires n < |files| <= 65536 && dp < |files| && |name| == 14
  {
    var f := Put(files[n := node], dp, 16 * k, Dirent(n, name));
    if node.typ == T_DIR then Relink(f, dp, 1) else f
  }

  function NewNode(n: nat, typ: nat, major: nat, minor: nat, dp: nat): File
    requires n < 65536 && dp < 65536
  {
    File(typ, major, minor, 1, if typ == T_DIR then Dirent(n, DOT) + Dirent(dp, DOTDOT) else [])
  }

  /** link: one more link, and entry k of dp. */
  function Linked(files: seq<File>, n: nat, dp: nat, k: nat, name: seq<byte>): seq<File>
    requires n < |files| <= 65536 && dp < |files| && |name| == 14
  {
    Put(Relink(files, n, 1), dp, 16 * k, Dirent(n, name))
  }

  /** unlink's first half: entry k of dp is cleared, and a directory's ".." no longer counts. */
  function EntryCleared(files: seq<File>, n: nat, dp: nat, k: nat): seq<File>
    requires n < |files| && dp < |files|
  {
    var f := Put(files, dp, 16 * k, NO_ENTRY);
    if files[n].typ == T_DIR then Relink(f, dp, -1) else f
  }

  // ----- Files from blocks -----

  /** Inodes differ in their block numbers only. */
  ghost predicate SameNodes(i0: seq<Inode>, i1: seq<Inode>) {
    |i0| == |i1| && forall m :: 0 <= m < |i0| ==> i1[m] == i0[m].(addrs := i1[m].addrs)
  }

  lemma SameFiles(d0: seq<Block>, i0: seq<Inode>, d1: seq<Block>, i1: seq<Inode>)
    requires Sized(i0) && Sized(i1) && SameBytes(d0, i0, d1, i1) && SameNodes(i0, i1)
    ensures Files(d1, i1) == Files(d0, i0)
  {
    hide ByteAt;
    forall m | 0 <= m < |i0| ensures FileOf(d1, i1, m) == FileOf(d0, i0, m) {
    }
  }

  /** Another inode n, its bytes as before or none. */
  lemma NodeFiles(disk: seq<Block>, i0: seq<Inode>, i1: seq<Inode>, n: nat)
    requires Sized(i0) && Sized(i1) && |i0| == |i1| && n < |i0| && forall m :: 0 <= m < |i0| && m != n ==> i1[m] == i0[m]
    requires i1[n].size == 0 || (i1[n].size == i0[n].size && i1[n].addrs == i0[n].addrs)
    ensures var f, i := Files(disk, i0), i1[n];
            Files(disk, i1) == f[n := File(i.typ, i.major, i.minor, i.nlink, if i.size == 0 then [] else f[n].data)]
  {
    forall m | 0 <= m < |i0|
      ensures FileOf(disk, i1, m) ==
        if m != n then FileOf(disk, i0, m)
        else File(i1[n].typ, i1[n].major, i1[n].minor, i1[n].nlink, if i1[n].size == 0 then [] else FileOf(disk, i0, n).data)
    {
      if m != n || i1[n].size != 0 {
        forall k: nat ensures ByteAt(disk, i1, m, k) == ByteAt(disk, i0, m, k) {
        }
      }
    }
  }

  /** What writei and filewrite do is a splice of the file's bytes. */
  lemma WroteFiles(d0: seq<Block>, i0: seq<Inode>, d1: seq<Block>, i1: seq<Inode>, n: nat, off: nat, src: seq<byte>)
    requires Wrote(d0, i0, d1, i1, n, off, src)
    ensures Files(d1, i1) == Put(Files(d0, i0), n, off, src)
  {
    hide ByteAt, KeepsOthers;
    var f := Put(Files(d0, i0), n, off, src);
    forall m | 0 <= m < |i0| ensures FileOf(d1, i1, m) == f[m] {
      if m == n {
        forall k: nat | k < i1[n].size ensures ByteAt(d1, i1, n, k) == f[n].data[k] {
        }
      }
    }
  }
}
