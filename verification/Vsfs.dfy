/**
 * The very simple file system (related_info/ostep/ostep13-vsfs.py).
 *
 * Two bitmaps, a table of inodes, one block per file or directory, and beside them an index from full path
 * names to inodes.  The module proves what a consistency check looks for, after any sequence of
 * operations: the bitmaps agree with the tables, no block has two owners, every reference count is the number
 * of entries, and every listed path resolves through its parent's directory.
 */
module Vsfs {

  // ----- Path names

  /** Splitting at slashes, as Python's split does. */
  function Split(s: string): (r: seq<string>)
    ensures r != []
  {
    if s == "" then [""]
    else
      var rest := Split(s[1..]);
      if s[0] == '/' then [""] + rest else [[s[0]] + rest[0]] + rest[1..]
  }

  /** Every part with a slash before it. */
  function Rejoin(parts: seq<string>): string {
    if parts == [] then "" else "/" + parts[0] + Rejoin(parts[1..])
  }

  lemma {:induction false} SplitRejoins(s: string)
    ensures Split(s)[0] + Rejoin(Split(s)[1..]) == s
  {
    if s != "" {
      var rest := Split(s[1..]);
      SplitRejoins(s[1..]);
      if s[0] == '/' {
        assert Split(s)[1..] == rest;
      } else {
        assert Split(s)[1..] == rest[1..];
      }
    }
  }

  lemma {:induction false} SplitOne(n: string)
    requires '/' !in n
    ensures Split(n) == [n]
  {
    if n != "" {
      SplitOne(n[1..]);
      assert [n[0]] + n[1..] == n;
    }
  }

  lemma {:induction false} SplitLast(s: string, n: string)
    requires '/' !in n
    ensures Split(s + "/" + n) == Split(s) + [n]
  {
    var full := s + "/" + n;
    if s == "" {
      SplitOne(n);
      assert full[1..] == n;
    } else {
      SplitLast(s[1..], n);
      assert full[1..] == s[1..] + "/" + n;
    }
  }

  /** The name of the directory a path is in. */
  function Parent(name: string): string {
    var parts := Split(name);
    if |parts| == 2 then "/" else if |parts| == 1 then "" else Rejoin(parts[1..|parts| - 1])
  }

  function Last(name: string): string {
    var parts := Split(name);
    parts[|parts| - 1]
  }

  function Full(parent: string, n: string): string {
    if parent == "/" then parent + n else parent + "/" + n
  }

  predicate IsDirPath(p: string) {
    p == "/" || (|p| >= 2 && p[0] == '/')
  }

  predicate IsName(n: string) {
    n != "" && '/' !in n
  }

  /** Taking a full name apart gives back its parts. */
  lemma FullParts(parent: string, n: string)
    requires IsDirPath(parent) && IsName(n)
    ensures Parent(Full(parent, n)) == parent && Last(Full(parent, n)) == n
    ensures IsDirPath(Full(parent, n)) && Full(parent, n) != "/"
  {
    if parent == "/" {
      SplitLast("", n);
      assert "" + "/" + n == "/" + n;
    } else {
      SplitLast(parent, n);
      SplitRejoins(parent);
      var parts := Split(parent);
      assert parts[0] == "" && |parts| >= 2;
      assert (parts + [n])[1..|parts|] == parts[1..];
    }
  }

  method GetParent(name: string) returns (pname: string)
    ensures pname == Parent(name)
  {
    var tmp := Split(name);
    if |tmp| == 2 {
      return "/";
    }
    pname := "";
    if |tmp| == 1 {
      return;
    }
    var i := 1;
    assert tmp[1..1] == [];
    while i < |tmp| - 1
      invariant 1 <= i <= |tmp| - 1
      invariant pname == Rejoin(tmp[1..i])
    {
      RejoinMore(tmp[1..i], tmp[i]);
      assert tmp[1..i + 1] == tmp[1..i] + [tmp[i]];
      pname := pname + "/" + tmp[i];
      i := i + 1;
    }
  }

  lemma {:induction false} RejoinMore(parts: seq<string>, n: string)
    ensures Rejoin(parts + [n]) == Rejoin(parts) + "/" + n
  {
    if parts == [] {
      assert Rejoin([n]) == "/" + n + Rejoin([]);
    } else {
      RejoinMore(parts[1..], n);
      assert (parts + [n])[1..] == parts[1..] + [n];
    }
  }

  // ----- The disk

  datatype Type = Free | Dir | File
  datatype Entry = Entry(name: string, inum: nat)
  datatype Inode = Inode(ftype: Type, addr: int, refCnt: int)
  datatype Block = Block(ftype: Type, dirUsed: int, dirList: seq<Entry>, data: string)

  /** The bitmaps and tables; owner[b] is the inode that points at block b in use. */
  datatype Disk = Disk(ibitmap: seq<bool>, inodes: seq<Inode>, dbitmap: seq<bool>, data: seq<Block>)

  ghost predicate InodeOk(d: Disk, owner: map<int, nat>, i: nat)
    requires |d.ibitmap| == |d.inodes| && i < |d.inodes|
  {
    var n := d.inodes[i];
    (d.ibitmap[i] <==> n.ftype != Free)
    && (n.ftype == Free ==> n.addr == -1)
    && (n.ftype == Dir ==> n.addr != -1)
    && (n.addr != -1 ==>
          0 <= n.addr < |d.data| && n.addr in owner && owner[n.addr] == i && d.data[n.addr].ftype == n.ftype)
  }

  ghost predicate BlockOk(d: Disk, owner: map<int, nat>, b: nat)
    requires |d.dbitmap| == |d.data| && b < |d.data|
  {
    (d.dbitmap[b] <==> d.data[b].ftype != Free)
    && (d.dbitmap[b] <==> b in owner)
    && (b in owner ==> owner[b] < |d.inodes| && d.inodes[owner[b]].addr == b)
    && (d.data[b].ftype != Dir ==> d.data[b].dirList == [] && d.data[b].dirUsed == 0)
    && (d.data[b].ftype == Free ==> d.data[b].data == "")
  }

  /** A set bit for every inode and block in use and only for those, and one owner for every block in use. */
  ghost predicate BitsOk(d: Disk, owner: map<int, nat>) {
    |d.ibitmap| == |d.inodes| && |d.dbitmap| == |d.data|
    && (forall i: nat {:trigger InodeOk(d, owner, i)} :: i < |d.inodes| ==> InodeOk(d, owner, i))
    && (forall b: nat {:trigger BlockOk(d, owner, b)} :: b < |d.data| ==> BlockOk(d, owner, b))
  }

  predicate IsDir(d: Disk, i: nat) {
    i < |d.inodes| && d.inodes[i].ftype == Dir && 0 <= d.inodes[i].addr < |d.data|
  }

  function List(d: Disk, i: nat): seq<Entry>
    requires IsDir(d, i)
  {
    d.data[d.inodes[i].addr].dirList
  }

  /** A directory: itself first, its parent second, all names different, all entries of inodes in use. */
  ghost predicate DirOk(d: Disk, i: nat)
    requires IsDir(d, i)
  {
    var list := List(d, i);
    d.inodes[i].refCnt == d.data[d.inodes[i].addr].dirUsed == |list|
    && 2 <= |list| <= 32 && list[0] == Entry(".", i) && list[1].name == ".."
    && (forall j, k :: 0 <= j < k < |list| ==> list[j].name != list[k].name)
    && (forall k :: 0 <= k < |list| ==> IsName(list[k].name))
    && forall k :: 0 <= k < |list| ==> list[k].inum < |d.inodes| && d.inodes[list[k].inum].ftype != Free
  }

  ghost predicate DirsOk(d: Disk) {
    forall i: nat {:trigger DirOk(d, i)} :: IsDir(d, i) ==> DirOk(d, i)
  }

  /** The number of entries of a list that name inode i. */
  function CountIn(list: seq<Entry>, i: nat): nat {
    if list == [] then 0 else CountIn(list[..|list| - 1], i) + (if list[|list| - 1].inum == i then 1 else 0)
  }

  /** The number of entries that name inode i in all directories. */
  function Refs(data: seq<Block>, i: nat): nat {
    if data == [] then 0 else Refs(data[..|data| - 1], i) + CountIn(data[|data| - 1].dirList, i)
  }

  /** A file's count is the number of entries that name it; only that of pending, if any, is one ahead. */
  ghost predicate CountOk(d: Disk, pending: int, i: nat)
    requires i < |d.inodes|
  {
    d.inodes[i].ftype == File ==>
      d.inodes[i].refCnt >= 1 && d.inodes[i].refCnt == Refs(d.data, i) + (if i == pending then 1 else 0)
  }

  ghost predicate CountsOk(d: Disk, pending: int) {
    forall i: nat {:trigger CountOk(d, pending, i)} :: i < |d.inodes| ==> CountOk(d, pending, i)
  }

  ghost predicate DiskOk(d: Disk, owner: map<int, nat>, pending: int) {
    BitsOk(d, owner) && DirsOk(d) && CountsOk(d, pending)
  }

  lemma {:induction false} RefsAfter(data: seq<Block>, b: nat, r: Block, i: nat)
    requires b < |data|
    ensures Refs(data[b := r], i) == Refs(data, i) - CountIn(data[b].dirList, i) + CountIn(r.dirList, i)
  {
    var init := data[..|data| - 1];
    if b == |data| - 1 {
      assert data[b := r][..|data| - 1] == init;
    } else {
      RefsAfter(init, b, r, i);
      assert data[b := r][..|data| - 1] == init[b := r];
    }
  }

  lemma {:induction false} NoneCounted(list: seq<Entry>, i: nat)
    requires forall k :: 0 <= k < |list| ==> list[k].inum != i
    ensures CountIn(list, i) == 0
  {
    if list != [] {
      NoneCounted(list[..|list| - 1], i);
    }
  }

  lemma {:induction false} SomeCounted(list: seq<Entry>, k: nat, i: nat)
    requires k < |list| && list[k].inum == i
    ensures CountIn(list, i) >= 1
  {
    if k < |list| - 1 {
      SomeCounted(list[..|list| - 1], k, i);
    }
  }

  lemma {:induction false} CountWithout(list: seq<Entry>, k: nat, i: nat)
    requires k < |list|
    ensures CountIn(list[..k] + list[k + 1..], i) == CountIn(list, i) - (if list[k].inum == i then 1 else 0)
  {
    var n := |list| - 1;
    if k == n {
      assert list[..k] + list[k + 1..] == list[..n];
    } else {
      CountWithout(list[..n], k, i);
      assert (list[..k] + list[k + 1..])[..n - 1] == list[..n][..k] + list[..n][k + 1..];
    }
  }

  lemma {:induction false} NoRefs(data: seq<Block>, i: nat)
    requires forall b :: 0 <= b < |data| ==> CountIn(data[b].dirList, i) == 0
    ensures Refs(data, i) == 0
  {
    if data != [] {
      NoRefs(data[..|data| - 1], i);
    }
  }

  lemma {:induction false} RefsAtLeast(data: seq<Block>, b: nat, i: nat)
    requires b < |data|
    ensures Refs(data, i) >= CountIn(data[b].dirList, i)
  {
    if b < |data| - 1 {
      RefsAtLeast(data[..|data| - 1], b, i);
    }
  }

  /** No entry names an inode that is free. */
  lemma FreeUnnamed(d: Disk, owner: map<int, nat>, pending: int, i: nat)
    requires DiskOk(d, owner, pending) && i < |d.inodes| && d.inodes[i].ftype == Free
    ensures Refs(d.data, i) == 0
  {
    forall b: nat | b < |d.data| ensures CountIn(d.data[b].dirList, i) == 0 {
      assert BlockOk(d, owner, b);
      if d.data[b].ftype == Dir {
        var o := owner[b];
        assert InodeOk(d, owner, o) && IsDir(d, o);
        assert DirOk(d, o);
        NoneCounted(d.data[b].dirList, i);
      }
    }
    NoRefs(d.data, i);
  }

  // ----- The steps the operations are made of

  /** Inode i, free so far, becomes a file without data. */
  function NewFile(d: Disk, i: nat): Disk
    requires i < |d.ibitmap| == |d.inodes|
  {
    d.(ibitmap := d.ibitmap[i := true], inodes := d.inodes[i := Inode(File, -1, 1)])
  }

  /** Inode i and block b, free so far, become a directory in directory p. */
  function NewDir(d: Disk, i: nat, b: nat, p: nat): Disk
    requires i < |d.ibitmap| == |d.inodes| && b < |d.dbitmap| == |d.data|
  {
    d.(ibitmap := d.ibitmap[i := true], inodes := d.inodes[i := Inode(Dir, b, 2)],
       dbitmap := d.dbitmap[b := true],
       data := d.data[b := Block(Dir, 2, [Entry(".", i), Entry("..", p)], d.data[b].data)])
  }

  /** One more reference to inode i. */
  function Bump(d: Disk, i: nat): Disk
    requires i < |d.inodes|
  {
    d.(inodes := d.inodes[i := d.inodes[i].(refCnt := d.inodes[i].refCnt + 1)])
  }

  function WithList(d: Disk, p: nat, list: seq<Entry>, more: int): Disk
    requires IsDir(d, p)
  {
    var b := d.inodes[p].addr;
    d.(inodes := d.inodes[p := d.inodes[p].(refCnt := d.inodes[p].refCnt + more)],
       data := d.data[b := d.data[b].(dirList := list, dirUsed := d.data[b].dirUsed + more)])
  }

  /** An entry for inode i at the end of directory p. */
  function Enter(d: Disk, p: nat, name: string, i: nat): Disk
    requires IsDir(d, p)
  {
    WithList(d, p, List(d, p) + [Entry(name, i)], 1)
  }

  /** Directory p without its entry k. */
  function Leave(d: Disk, p: nat, k: nat): Disk
    requires IsDir(d, p) && k < |List(d, p)|
  {
    WithList(d, p, List(d, p)[..k] + List(d, p)[k + 1..], -1)
  }

  /** One reference to file i less; the last one frees the file and its block. */
  function Drop(d: Disk, i: nat): Disk
    requires i < |d.ibitmap| == |d.inodes| && |d.dbitmap| == |d.data| && -1 <= d.inodes[i].addr < |d.data|
  {
    var n := d.inodes[i];
    if n.refCnt != 1 then d.(inodes := d.inodes[i := n.(refCnt := n.refCnt - 1)])
    else
      var e := d.(ibitmap := d.ibitmap[i := false], inodes := d.inodes[i := n.(ftype := Free, addr := -1)]);
      if n.addr == -1 then e
      else e.(dbitmap := d.dbitmap[n.addr := false],
              data := d.data[n.addr := d.data[n.addr].(data := "", ftype := Free)])
  }

  /** The data of file i goes to block b, free so far. */
  function Write(d: Disk, i: nat, b: nat, data: string): Disk
    requires i < |d.inodes| && b < |d.dbitmap| == |d.data|
  {
    d.(inodes := d.inodes[i := d.inodes[i].(addr := b)], dbitmap := d.dbitmap[b := true],
       data := d.data[b := d.data[b].(ftype := File, data := data)])
  }

  // ----- Every step keeps the disk in order

  /** Directories whose inode and block are as before are in order if the inodes they name stay in use. */
  lemma DirStays(d: Disk, e: Disk, i: nat)
    requires IsDir(d, i) && DirOk(d, i) && |e.inodes| == |d.inodes| && |e.data| == |d.data|
    requires e.inodes[i] == d.inodes[i] && e.data[d.inodes[i].addr] == d.data[d.inodes[i].addr]
    requires forall j: nat :: j < |d.inodes| && d.inodes[j].ftype != Free ==> e.inodes[j].ftype != Free
    ensures IsDir(e, i) && DirOk(e, i)
  {
  }

  lemma NewFileOk(d: Disk, owner: map<int, nat>, i: nat)
    requires DiskOk(d, owner, -1) && i < |d.inodes| && !d.ibitmap[i]
    ensures DiskOk(NewFile(d, i), owner, i)
  {
    var e := NewFile(d, i);
    assert InodeOk(d, owner, i);
    FreeUnnamed(d, owner, -1, i);
    forall j: nat | j < |e.inodes| ensures InodeOk(e, owner, j) {
      assert InodeOk(d, owner, j);
    }
    forall b: nat | b < |e.data| ensures BlockOk(e, owner, b) {
      assert BlockOk(d, owner, b);
    }
    forall j: nat | IsDir(e, j) ensures DirOk(e, j) {
      DirStays(d, e, j);
    }
    forall j: nat | j < |e.inodes| ensures CountOk(e, i, j) {
      assert CountOk(d, -1, j);
    }
  }

  lemma NewDirOk(d: Disk, owner: map<int, nat>, i: nat, b: nat, p: nat)
    requires DiskOk(d, owner, -1) && i < |d.inodes| && !d.ibitmap[i] && b < |d.data| && !d.dbitmap[b]
    requires IsDir(d, p)
    ensures DiskOk(NewDir(d, i, b, p), owner[b := i], -1)
  {
    var e, owner' := NewDir(d, i, b, p), owner[b := i];
    assert InodeOk(d, owner, i) && BlockOk(d, owner, b);
    forall j: nat | j < |e.inodes| ensures InodeOk(e, owner', j) {
      assert InodeOk(d, owner, j);
    }
    forall c: nat | c < |e.data| ensures BlockOk(e, owner', c) {
      assert BlockOk(d, owner, c);
    }
    forall j: nat | IsDir(e, j) ensures DirOk(e, j) {
      if j != i {
        assert InodeOk(d, owner, j);
        DirStays(d, e, j);
      }
    }
    forall j: nat | j < |e.inodes| ensures CountOk(e, -1, j) {
      assert CountOk(d, -1, j);
      if j != i && e.inodes[j].ftype == File {
        RefsAfter(d.data, b, e.data[b], j);
        NoneCounted(e.data[b].dirList, j);
        assert CountIn(d.data[b].dirList, j) == 0;
      }
    }
  }

  lemma BumpOk(d: Disk, owner: map<int, nat>, i: nat)
    requires DiskOk(d, owner, -1) && i < |d.inodes| && d.inodes[i].ftype == File
    ensures DiskOk(Bump(d, i), owner, i)
  {
    var e := Bump(d, i);
    forall j: nat | j < |e.inodes| ensures InodeOk(e, owner, j) {
      assert InodeOk(d, owner, j);
    }
    forall b: nat | b < |e.data| ensures BlockOk(e, owner, b) {
      assert BlockOk(d, owner, b);
    }
    forall j: nat | IsDir(e, j) ensures DirOk(e, j) {
      DirStays(d, e, j);
    }
    forall j: nat | j < |e.inodes| ensures CountOk(e, i, j) {
      assert CountOk(d, -1, j);
    }
  }

  /** A directory's new list keeps bitmaps and owners. */
  lemma WithListBits(d: Disk, owner: map<int, nat>, p: nat, list: seq<Entry>, more: int)
    requires BitsOk(d, owner) && IsDir(d, p)
    ensures BitsOk(WithList(d, p, list, more), owner)
  {
    var e := WithList(d, p, list, more);
    assert InodeOk(d, owner, p);
    forall j: nat | j < |e.inodes| ensures InodeOk(e, owner, j) {
      assert InodeOk(d, owner, j);
    }
    forall b: nat | b < |e.data| ensures BlockOk(e, owner, b) {
      assert BlockOk(d, owner, b);
    }
  }

  /** The other directories do not change. */
  lemma WithListOthers(d: Disk, owner: map<int, nat>, p: nat, list: seq<Entry>, more: int, j: nat)
    requires BitsOk(d, owner) && DirsOk(d) && IsDir(d, p) && IsDir(WithList(d, p, list, more), j) && j != p
    ensures IsDir(d, j) && DirOk(WithList(d, p, list, more), j) && List(WithList(d, p, list, more), j) == List(d, j)
  {
    assert InodeOk(d, owner, j) && InodeOk(d, owner, p) && DirOk(d, j);
    DirStays(d, WithList(d, p, list, more), j);
  }

  lemma EnterOk(d: Disk, owner: map<int, nat>, pending: int, p: nat, name: string, i: nat)
    requires DiskOk(d, owner, pending) && IsDir(d, p) && |List(d, p)| < 32
    requires IsName(name) && forall k :: 0 <= k < |List(d, p)| ==> List(d, p)[k].name != name
    requires i < |d.inodes| && d.inodes[i].ftype != Free
    requires if d.inodes[i].ftype == File then pending == i else pending == -1
    ensures DiskOk(Enter(d, p, name, i), owner, -1)
  {
    var list := List(d, p) + [Entry(name, i)];
    var e := Enter(d, p, name, i);
    assert DirOk(d, p);
    WithListBits(d, owner, p, list, 1);
    forall j: nat | IsDir(e, j) ensures DirOk(e, j) {
      if j != p {
        WithListOthers(d, owner, p, list, 1, j);
      }
    }
    forall j: nat | j < |e.inodes| ensures CountOk(e, -1, j) {
      assert CountOk(d, pending, j);
      var b := d.inodes[p].addr;
      RefsAfter(d.data, b, e.data[b], j);
      assert list[..|list| - 1] == List(d, p);
    }
  }

  lemma LeaveOk(d: Disk, owner: map<int, nat>, p: nat, k: nat)
    requires DiskOk(d, owner, -1) && IsDir(d, p) && 2 <= k < |List(d, p)|
    requires List(d, p)[k].inum < |d.inodes| && d.inodes[List(d, p)[k].inum].ftype == File
    ensures DiskOk(Leave(d, p, k), owner, List(d, p)[k].inum)
  {
    var i := List(d, p)[k].inum;
    var list := List(d, p)[..k] + List(d, p)[k + 1..];
    var e := Leave(d, p, k);
    assert DirOk(d, p);
    WithListBits(d, owner, p, list, -1);
    forall j: nat | IsDir(e, j) ensures DirOk(e, j) {
      if j != p {
        WithListOthers(d, owner, p, list, -1, j);
      } else {
        LeftOk(d, p, k);
      }
    }
    forall j: nat | j < |e.inodes| ensures CountOk(e, i, j) {
      assert CountOk(d, -1, j);
      var b := d.inodes[p].addr;
      RefsAfter(d.data, b, e.data[b], j);
      CountWithout(List(d, p), k, j);
    }
  }

  lemma LeftOk(d: Disk, p: nat, k: nat)
    requires IsDir(d, p) && DirOk(d, p) && 2 <= k < |List(d, p)|
    ensures IsDir(Leave(d, p, k), p) && DirOk(Leave(d, p, k), p)
  {
    var list := List(d, p)[..k] + List(d, p)[k + 1..];
    forall x, y | 0 <= x < y < |list| ensures list[x].name != list[y].name {
      var x', y' := if x < k then x else x + 1, if y < k then y else y + 1;
      assert list[x] == List(d, p)[x'] && list[y] == List(d, p)[y'];
    }
    forall x | 0 <= x < |list|
      ensures IsName(list[x].name) && list[x].inum < |d.inodes| && d.inodes[list[x].inum].ftype != Free
    {
      var x' := if x < k then x else x + 1;
      assert list[x] == List(d, p)[x'];
    }
  }

  /** The owners after a reference to file i is gone. */
  ghost function Owners(d: Disk, owner: map<int, nat>, i: nat): map<int, nat>
    requires i < |d.inodes|
  {
    if d.inodes[i].refCnt == 1 then owner - {d.inodes[i].addr} else owner
  }

  lemma DropOk(d: Disk, owner: map<int, nat>, i: nat)
    requires DiskOk(d, owner, i) && i < |d.inodes| && d.inodes[i].ftype == File
    ensures -1 <= d.inodes[i].addr < |d.data|
    ensures DiskOk(Drop(d, i), Owners(d, owner, i), -1)
  {
    assert InodeOk(d, owner, i) && CountOk(d, i, i);
    var e, owner' := Drop(d, i), Owners(d, owner, i);
    forall j: nat | j < |e.inodes| ensures InodeOk(e, owner', j) {
      assert InodeOk(d, owner, j);
    }
    forall b: nat | b < |e.data| ensures BlockOk(e, owner', b) {
      assert BlockOk(d, owner, b);
    }
    forall j: nat | IsDir(e, j) ensures DirOk(e, j) {
      assert InodeOk(d, owner, j) && DirOk(d, j);
      if d.inodes[i].refCnt == 1 {
        Unlisted(d, owner, i, j);
      }
    }
    forall j: nat | j < |e.inodes| ensures CountOk(e, -1, j) {
      assert CountOk(d, i, j);
      SameRefs(d, e, i, j);
    }
  }

  /** A file whose last reference is pending is in no directory. */
  lemma Unlisted(d: Disk, owner: map<int, nat>, i: nat, j: nat)
    requires DiskOk(d, owner, i) && i < |d.inodes| && d.inodes[i].ftype == File && d.inodes[i].refCnt == 1
    requires IsDir(d, j)
    ensures forall k :: 0 <= k < |List(d, j)| ==> List(d, j)[k].inum != i
  {
    assert CountOk(d, i, i);
    forall k: nat | k < |List(d, j)| ensures List(d, j)[k].inum != i {
      if List(d, j)[k].inum == i {
        SomeCounted(List(d, j), k, i);
        RefsAtLeast(d.data, d.inodes[j].addr, i);
      }
    }
  }

  lemma SameRefs(d: Disk, e: Disk, i: nat, j: nat)
    requires i < |d.ibitmap| == |d.inodes| && |d.dbitmap| == |d.data| && -1 <= d.inodes[i].addr < |d.data|
    requires e == Drop(d, i)
    ensures Refs(e.data, j) == Refs(d.data, j)
  {
    var b := d.inodes[i].addr;
    if d.inodes[i].refCnt == 1 && b != -1 {
      RefsAfter(d.data, b, e.data[b], j);
    }
  }

  lemma WriteOk(d: Disk, owner: map<int, nat>, i: nat, b: nat, data: string)
    requires DiskOk(d, owner, -1) && i < |d.inodes| && d.inodes[i].ftype == File && d.inodes[i].addr == -1
    requires b < |d.data| && !d.dbitmap[b]
    ensures DiskOk(Write(d, i, b, data), owner[b := i], -1)
  {
    var e, owner' := Write(d, i, b, data), owner[b := i];
    assert InodeOk(d, owner, i) && BlockOk(d, owner, b);
    forall j: nat | j < |e.inodes| ensures InodeOk(e, owner', j) {
      assert InodeOk(d, owner, j);
    }
    forall c: nat | c < |e.data| ensures BlockOk(e, owner', c) {
      assert BlockOk(d, owner, c);
    }
    forall j: nat | IsDir(e, j) ensures DirOk(e, j) {
      assert InodeOk(d, owner, j);
      DirStays(d, e, j);
    }
    forall j: nat | j < |e.inodes| ensures CountOk(e, -1, j) {
      assert CountOk(d, -1, j);
      RefsAfter(d.data, b, e.data[b], j);
    }
  }

  // ----- The index of names

  /** The listed files and directories, and the inode every path has or once had. */
  datatype Index = Index(files: seq<string>, dirs: seq<string>, inum: map<string, nat>)

  ghost predicate Distinct(s: seq<string>) {
    forall j, k :: 0 <= j < k < |s| ==> s[j] != s[k]
  }

  ghost predicate DirNamed(d: Disk, x: Index, path: map<nat, string>, p: string) {
    p in x.inum && IsDirPath(p) && IsDir(d, x.inum[p]) && x.inum[p] in path && path[x.inum[p]] == p
  }

  ghost predicate FileNamed(d: Disk, x: Index, p: string) {
    p in x.inum && p != "/" && x.inum[p] < |d.inodes| && d.inodes[x.inum[p]].ftype == File
  }

  /** Entry k of directory i, behind the first two, is the name n for inode j. */
  ghost predicate EntryAt(d: Disk, i: nat, k: nat, n: string, j: nat) {
    IsDir(d, i) && 2 <= k < |List(d, i)| && List(d, i)[k] == Entry(n, j)
  }

  /** Looking up the last part of the path in its parent directory finds its inode. */
  ghost predicate Resolves(d: Disk, x: Index, p: string) {
    p in x.inum && Parent(p) in x.dirs && Parent(p) in x.inum
    && IsName(Last(p)) && Full(Parent(p), Last(p)) == p
    && exists k: nat :: EntryAt(d, x.inum[Parent(p)], k, Last(p), x.inum[p])
  }

  /** Every entry of a directory is a listed path. */
  ghost predicate Listed(d: Disk, x: Index, path: map<nat, string>, i: nat)
    requires IsDir(d, i)
  {
    i in path && path[i] in x.dirs && path[i] in x.inum && x.inum[path[i]] == i
    && (forall k :: 2 <= k < |List(d, i)| ==> IsListed(x, Full(path[i], List(d, i)[k].name), List(d, i)[k].inum))
    && |List(d, i)| >= 2
    && (path[i] == "/" ==> List(d, i)[1].inum == i)
    && (path[i] != "/" ==> Parent(path[i]) in x.inum && List(d, i)[1].inum == x.inum[Parent(path[i])])
  }

  ghost predicate IsListed(x: Index, f: string, j: nat) {
    (f in x.dirs || f in x.files) && f in x.inum && x.inum[f] == j
  }

  ghost predicate NamesOk(d: Disk, x: Index, path: map<nat, string>) {
    "/" in x.dirs && "/" in x.inum && x.inum["/"] == 0 && Distinct(x.files)
    && (forall p {:trigger DirNamed(d, x, path, p)} :: p in x.dirs ==> DirNamed(d, x, path, p))
    && (forall p {:trigger FileNamed(d, x, p)} :: p in x.files ==> FileNamed(d, x, p))
    && (forall p {:trigger Resolves(d, x, p)} :: p in x.dirs + x.files && p != "/" ==> Resolves(d, x, p))
    && (forall i: nat {:trigger Listed(d, x, path, i)} :: IsDir(d, i) ==> Listed(d, x, path, i))
  }

  /** Lists that stay as they are keep the names, as long as no listed file is freed. */
  lemma NamesStay(d: Disk, e: Disk, x: Index, path: map<nat, string>)
    requires NamesOk(d, x, path) && |e.inodes| == |d.inodes|
    requires forall j: nat :: IsDir(e, j) <==> IsDir(d, j)
    requires forall j: nat :: IsDir(d, j) ==> List(e, j) == List(d, j)
    requires forall p :: p in x.files && FileNamed(d, x, p) ==> e.inodes[x.inum[p]].ftype == File
    ensures NamesOk(e, x, path)
  {
    forall p | p in x.dirs ensures DirNamed(e, x, path, p) {
      assert DirNamed(d, x, path, p);
    }
    forall p | p in x.files ensures FileNamed(e, x, p) {
      assert FileNamed(d, x, p);
    }
    forall p | p in x.dirs + x.files && p != "/" ensures Resolves(e, x, p) {
      assert Resolves(d, x, p);
      var k: nat :| EntryAt(d, x.inum[Parent(p)], k, Last(p), x.inum[p]);
      assert EntryAt(e, x.inum[Parent(p)], k, Last(p), x.inum[p]);
    }
    forall i: nat | IsDir(e, i) ensures Listed(e, x, path, i) {
      assert Listed(d, x, path, i);
    }
  }

  /** A name that is listed is one that the parent directory has. */
  lemma ListedIsThere(d: Disk, x: Index, path: map<nat, string>, parent: string, n: string)
    requires NamesOk(d, x, path) && parent in x.dirs && IsName(n) && DirNamed(d, x, path, parent)
    ensures Full(parent, n) in x.dirs + x.files ==>
              exists k :: 0 <= k < |List(d, x.inum[parent])| && List(d, x.inum[parent])[k].name == n
  {
    var f := Full(parent, n);
    FullParts(parent, n);
    if f in x.dirs + x.files {
      assert Resolves(d, x, f);
      var k: nat :| EntryAt(d, x.inum[parent], k, n, x.inum[f]);
      assert List(d, x.inum[parent])[k].name == n;
    }
  }

  /** The index with a new name for inode i. */
  function Added(x: Index, f: string, i: nat, isDir: bool): Index {
    Index(if isDir then x.files else x.files + [f], if isDir then x.dirs + [f] else x.dirs, x.inum[f := i])
  }

  /** Disk e has one more entry than d, in directory p, and if isDir then i is a new directory in it. */
  ghost predicate Extended(d: Disk, e: Disk, p: nat, n: string, i: nat, isDir: bool) {
    |e.inodes| == |d.inodes| && i < |d.inodes| && IsDir(d, p) && IsDir(e, p)
    && List(e, p) == List(d, p) + [Entry(n, i)]
    && (forall j: nat :: IsDir(d, j) ==> IsDir(e, j))
    && (forall j: nat :: IsDir(e, j) ==> IsDir(d, j) || (isDir && j == i))
    && (forall j: nat :: IsDir(d, j) && j != p ==> List(e, j) == List(d, j))
    && (forall j: nat :: j < |d.inodes| && j != i ==> e.inodes[j].ftype == d.inodes[j].ftype)
    && (if isDir then !IsDir(d, i) && d.inodes[i].ftype == Free && IsDir(e, i)
                      && List(e, i) == [Entry(".", i), Entry("..", p)]
        else e.inodes[i].ftype == File)
  }

  lemma NamesAdded(d: Disk, e: Disk, x: Index, path: map<nat, string>, parent: string, n: string, i: nat, isDir: bool)
    requires NamesOk(d, x, path) && parent in x.dirs && IsName(n) && DirNamed(d, x, path, parent)
    requires forall k :: 0 <= k < |List(d, x.inum[parent])| ==> List(d, x.inum[parent])[k].name != n
    requires Extended(d, e, x.inum[parent], n, i, isDir)
    ensures NamesOk(e, Added(x, Full(parent, n), i, isDir), if isDir then path[i := Full(parent, n)] else path)
  {
    var p, f := x.inum[parent], Full(parent, n);
    var y, path' := Added(x, f, i, isDir), if isDir then path[i := f] else path;
    FullParts(parent, n);
    ListedIsThere(d, x, path, parent, n);
    forall q | q in y.dirs ensures DirNamed(e, y, path', q) {
      assert q in x.dirs ==> DirNamed(d, x, path, q);
    }
    forall q | q in y.files ensures FileNamed(e, y, q) {
      assert q in x.files ==> FileNamed(d, x, q);
    }
    forall q | q in y.dirs + y.files && q != "/" ensures Resolves(e, y, q) {
      if q == f {
        assert EntryAt(e, p, |List(d, p)|, n, i) by {
          assert Listed(d, x, path, p);
        }
      } else {
        assert Resolves(d, x, q);
        var k: nat :| EntryAt(d, x.inum[Parent(q)], k, Last(q), x.inum[q]);
        assert EntryAt(e, y.inum[Parent(q)], k, Last(q), y.inum[q]);
      }
    }
    forall j: nat | IsDir(e, j) ensures Listed(e, y, path', j) {
      ListedAdded(d, e, x, path, parent, n, i, isDir, j);
    }
  }

  lemma ListedAdded(d: Disk, e: Disk, x: Index, path: map<nat, string>, parent: string, n: string, i: nat, isDir: bool,
                    j: nat)
    requires NamesOk(d, x, path) && parent in x.dirs && IsName(n) && DirNamed(d, x, path, parent)
    requires Full(parent, n) !in x.dirs + x.files && Full(parent, n) != "/" && Parent(Full(parent, n)) == parent
    requires Extended(d, e, x.inum[parent], n, i, isDir) && IsDir(e, j)
    ensures Listed(e, Added(x, Full(parent, n), i, isDir), if isDir then path[i := Full(parent, n)] else path, j)
  {
    var p, f := x.inum[parent], Full(parent, n);
    var y, path' := Added(x, f, i, isDir), if isDir then path[i := f] else path;
    if IsDir(d, j) {
      assert Listed(d, x, path, j);
      assert path[j] != "/" ==> Resolves(d, x, path[j]);
      forall k | 2 <= k < |List(e, j)| ensures IsListed(y, Full(path'[j], List(e, j)[k].name), List(e, j)[k].inum) {
        if j == p && k == |List(d, p)| {
          assert List(e, j)[k] == Entry(n, i);
        } else {
          assert List(e, j)[k] == List(d, j)[k];
          assert IsListed(x, Full(path[j], List(d, j)[k].name), List(d, j)[k].inum);
        }
      }
    }
  }

  /** The list without its first f, as Python's remove leaves it. */
  function Without(s: seq<string>, f: string): seq<string> {
    if s == [] then [] else if s[0] == f then s[1..] else [s[0]] + Without(s[1..], f)
  }

  lemma {:induction false} WithoutIs(s: seq<string>, f: string)
    requires Distinct(s)
    ensures Distinct(Without(s, f)) && forall q :: q in Without(s, f) <==> q in s && q != f
  {
    if s != [] && s[0] != f {
      WithoutIs(s[1..], f);
      var rest := Without(s[1..], f);
      assert Without(s, f) == [s[0]] + rest;
      assert s == [s[0]] + s[1..];
      forall j, k | 0 <= j < k < |Without(s, f)| ensures Without(s, f)[j] != Without(s, f)[k] {
        assert Without(s, f)[k] == rest[k - 1] && rest[k - 1] in rest;
      }
    } else if s != [] {
      assert s == [s[0]] + s[1..];
    }
  }

  /** The other directories' lists stay when one loses an entry. */
  lemma OtherLists(d: Disk, owner: map<int, nat>, p: nat, k: nat, j: nat)
    requires BitsOk(d, owner) && DirsOk(d) && IsDir(d, p) && k < |List(d, p)|
    ensures IsDir(Leave(d, p, k), j) <==> IsDir(d, j)
    ensures IsDir(d, j) && j != p ==> List(Leave(d, p, k), j) == List(d, j)
    ensures List(Leave(d, p, k), p) == List(d, p)[..k] + List(d, p)[k + 1..]
  {
    if IsDir(d, j) && j != p {
      WithListOthers(d, owner, p, List(d, p)[..k] + List(d, p)[k + 1..], -1, j);
    }
  }

  /** Taking file f out of its directory p, whose entry k it is, and off the list of files. */
  lemma NamesLeft(d: Disk, owner: map<int, nat>, x: Index, path: map<nat, string>, f: string, p: nat, k: nat)
    requires NamesOk(d, x, path) && BitsOk(d, owner) && DirsOk(d) && f in x.files && Resolves(d, x, f)
    requires FileNamed(d, x, f) && p == x.inum[Parent(f)] && EntryAt(d, p, k, Last(f), x.inum[f])
    ensures NamesOk(Leave(d, p, k), x.(files := Without(x.files, f)), path)
  {
    var e, y := Leave(d, p, k), x.(files := Without(x.files, f));
    WithoutIs(x.files, f);
    forall q | q in y.dirs ensures DirNamed(e, y, path, q) {
      assert DirNamed(d, x, path, q);
    }
    forall q | q in y.files ensures FileNamed(e, y, q) {
      assert FileNamed(d, x, q);
    }
    forall q | q in y.dirs + y.files && q != "/" ensures Resolves(e, y, q) {
      assert q == f ==> DirNamed(d, x, path, q);
      assert q != f && Resolves(d, x, q);
      StillThere(d, owner, x, path, f, p, k, q);
    }
    forall j: nat | IsDir(e, j) ensures Listed(e, y, path, j) {
      OtherLists(d, owner, p, k, j);
      ListedLeft(d, owner, x, path, f, p, k, j);
    }
  }

  lemma StillThere(d: Disk, owner: map<int, nat>, x: Index, path: map<nat, string>, f: string, p: nat, k: nat,
                   q: string)
    requires NamesOk(d, x, path) && BitsOk(d, owner) && DirsOk(d) && Resolves(d, x, f) && Resolves(d, x, q) && q != f
    requires p == x.inum[Parent(f)] && EntryAt(d, p, k, Last(f), x.inum[f])
    ensures exists t: nat :: EntryAt(Leave(d, p, k), x.inum[Parent(q)], t, Last(q), x.inum[q])
  {
    var e, r := Leave(d, p, k), x.inum[Parent(q)];
    var t: nat :| EntryAt(d, r, t, Last(q), x.inum[q]);
    OtherLists(d, owner, p, k, r);
    if r == p {
      assert DirNamed(d, x, path, Parent(q)) && DirNamed(d, x, path, Parent(f));
      assert t != k;
      assert EntryAt(e, r, if t < k then t else t - 1, Last(q), x.inum[q]);
    } else {
      assert EntryAt(e, r, t, Last(q), x.inum[q]);
    }
  }

  lemma ListedLeft(d: Disk, owner: map<int, nat>, x: Index, path: map<nat, string>, f: string, p: nat, k: nat, j: nat)
    requires NamesOk(d, x, path) && BitsOk(d, owner) && DirsOk(d) && f in x.files && Resolves(d, x, f)
    requires FileNamed(d, x, f) && p == x.inum[Parent(f)] && EntryAt(d, p, k, Last(f), x.inum[f])
    requires IsDir(d, j) && IsDir(Leave(d, p, k), j)
    ensures Listed(Leave(d, p, k), x.(files := Without(x.files, f)), path, j)
  {
    var e, y := Leave(d, p, k), x.(files := Without(x.files, f));
    WithoutIs(x.files, f);
    OtherLists(d, owner, p, k, j);
    assert Listed(d, x, path, j) && DirOk(d, j) && DirNamed(d, x, path, path[j]) && DirNamed(d, x, path, Parent(f));
    forall t: nat | 2 <= t < |List(e, j)| ensures IsListed(y, Full(path[j], List(e, j)[t].name), List(e, j)[t].inum) {
      var t' := if j == p && t >= k then t + 1 else t;
      assert List(e, j)[t] == List(d, j)[t'];
      assert IsListed(x, Full(path[j], List(d, j)[t'].name), List(d, j)[t'].inum);
      FullParts(path[j], List(d, j)[t'].name);
    }
    assert f !in x.dirs by {
      assert f in x.dirs ==> DirNamed(d, x, path, f);
    }
  }

  /** A file whose last reference is pending is not listed, so that freeing it keeps the names. */
  lemma NamesDropped(d: Disk, owner: map<int, nat>, x: Index, path: map<nat, string>, i: nat)
    requires DiskOk(d, owner, i) && NamesOk(d, x, path) && i < |d.inodes| && d.inodes[i].ftype == File
    requires -1 <= d.inodes[i].addr < |d.data|
    ensures NamesOk(Drop(d, i), x, path)
  {
    var e := Drop(d, i);
    assert InodeOk(d, owner, i);
    forall p | p in x.files && FileNamed(d, x, p) ensures e.inodes[x.inum[p]].ftype == File {
      if d.inodes[i].refCnt == 1 && x.inum[p] == i {
        assert Resolves(d, x, p);
        var k: nat :| EntryAt(d, x.inum[Parent(p)], k, Last(p), x.inum[p]);
        Unlisted(d, owner, i, x.inum[Parent(p)]);
      }
    }
    forall j: nat ensures IsDir(e, j) <==> IsDir(d, j) {
    }
    forall j: nat | IsDir(d, j) ensures List(e, j) == List(d, j) {
      assert InodeOk(d, owner, j);
    }
    NamesStay(d, e, x, path);
  }

  // ----- The operations

  /** The first free bit, or -1. */
  method FirstFree(bmap: seq<bool>) returns (num: int)
    ensures -1 <= num < |bmap| && forall k :: 0 <= k < (if num == -1 then |bmap| else num) ==> bmap[k]
    ensures num != -1 ==> !bmap[num]
  {
    num := 0;
    while num < |bmap|
      invariant 0 <= num <= |bmap| && forall k :: 0 <= k < num ==> bmap[k]
    {
      if !bmap[num] {
        return;
      }
      num := num + 1;
    }
    num := -1;
  }

  /** What the file of a name holds: its one block, or nothing. */
  function Content(d: Disk, x: Index, p: string): string {
    if p in x.inum && x.inum[p] < |d.inodes| && 0 <= d.inodes[x.inum[p]].addr < |d.data|
    then d.data[d.inodes[x.inum[p]].addr].data else ""
  }

  predicate HasName(list: seq<Entry>, name: string) {
    exists k :: 0 <= k < |list| && list[k].name == name
  }

  predicate NoneFree(bmap: seq<bool>) {
    forall k :: 0 <= k < |bmap| ==> bmap[k]
  }

  /** Whether createFile has nowhere to put a new entry, inode or block. */
  ghost predicate CannotCreate(d: Disk, p: nat, n: string, isDir: bool)
    requires IsDir(d, p)
  {
    |List(d, p)| >= 32 || HasName(List(d, p), n) || NoneFree(d.ibitmap) || (isDir && NoneFree(d.dbitmap))
  }

  /** e is d after its first free inode i, with the first free block for a directory, has been taken. */
  ghost predicate NodeMade(d: Disk, e: Disk, p: nat, isDir: bool, i: nat) {
    |d.ibitmap| == |d.inodes| && |d.dbitmap| == |d.data|
    && i < |d.ibitmap| && !d.ibitmap[i] && (forall k :: 0 <= k < i ==> d.ibitmap[k])
    && if isDir then exists b: nat :: NewBlock(d, b) && e == NewDir(d, i, b, p) else e == NewFile(d, i)
  }

  /** e is d after file or directory n was created in directory p as inode i. */
  ghost predicate CreatedAs(d: Disk, e: Disk, p: nat, n: string, isDir: bool, i: nat) {
    exists m :: NodeMade(d, m, p, isDir, i) && IsDir(m, p) && e == Enter(m, p, n, i)
  }

  lemma NodeMadeOk(d: Disk, owner: map<int, nat>, m: Disk, p: nat, isDir: bool, i: nat)
    requires DiskOk(d, owner, -1) && IsDir(d, p) && NodeMade(d, m, p, isDir, i)
    ensures i != p && IsDir(m, p)
    ensures DiskOk(m, if isDir then owner[m.inodes[i].addr := i] else owner, if isDir then -1 else i)
    ensures forall j: nat :: IsDir(m, j) <==> IsDir(d, j) || (isDir && j == i)
    ensures forall j: nat :: IsDir(d, j) ==> List(m, j) == List(d, j)
    ensures isDir ==> IsDir(m, i) && List(m, i) == [Entry(".", i), Entry("..", p)]
    ensures |m.inodes| == |d.inodes| && forall j: nat :: j < |d.inodes| && j != i ==> m.inodes[j] == d.inodes[j]
    ensures i < |d.inodes| && d.inodes[i].ftype == Free && m.inodes[i].ftype == (if isDir then Dir else File)
    ensures forall b: nat :: b < |d.data| && d.data[b].ftype == File ==> m.data[b] == d.data[b]
  {
    assert InodeOk(d, owner, i) && InodeOk(d, owner, p);
    if isDir {
      var b: nat :| NewBlock(d, b) && m == NewDir(d, i, b, p);
      assert BlockOk(d, owner, b);
      NewDirOk(d, owner, i, b, p);
      forall j: nat | IsDir(d, j) ensures List(m, j) == List(d, j) {
        assert InodeOk(d, owner, j);
      }
    } else {
      NewFileOk(d, owner, i);
    }
  }

  /** Directories do not hold files' data, so a new entry changes none. */
  lemma EnterContent(d: Disk, owner: map<int, nat>, p: nat, n: string, i: nat, j: nat)
    requires BitsOk(d, owner) && IsDir(d, p) && j < |d.inodes| && d.inodes[j].ftype == File
    ensures Enter(d, p, n, i).inodes[j] == d.inodes[j]
    ensures 0 <= d.inodes[j].addr < |d.data| ==>
              Enter(d, p, n, i).data[d.inodes[j].addr] == d.data[d.inodes[j].addr]
  {
    assert InodeOk(d, owner, j) && InodeOk(d, owner, p);
  }

  lemma EnterIs(d: Disk, owner: map<int, nat>, p: nat, n: string, i: nat)
    requires BitsOk(d, owner) && DirsOk(d) && IsDir(d, p)
    ensures var e := Enter(d, p, n, i);
      |e.inodes| == |d.inodes| && (forall j: nat :: IsDir(e, j) <==> IsDir(d, j))
      && List(e, p) == List(d, p) + [Entry(n, i)]
      && (forall j: nat :: IsDir(d, j) && j != p ==> List(e, j) == List(d, j))
      && forall j: nat :: j < |d.inodes| ==> e.inodes[j].ftype == d.inodes[j].ftype
  {
    var e := Enter(d, p, n, i);
    forall j: nat ensures IsDir(e, j) <==> IsDir(d, j) {
    }
    forall j: nat | IsDir(d, j) && j != p ensures List(e, j) == List(d, j) {
      assert IsDir(e, j);
      WithListOthers(d, owner, p, List(d, p) + [Entry(n, i)], 1, j);
    }
  }

  /** Creating keeps the disk in order, and all files' contents; a new file is empty. */
  lemma CreatedOk(d: Disk, owner: map<int, nat>, e: Disk, p: nat, n: string, isDir: bool, i: nat)
    requires DiskOk(d, owner, -1) && IsDir(d, p) && |List(d, p)| < 32 && IsName(n) && !HasName(List(d, p), n)
    requires CreatedAs(d, e, p, n, isDir, i)
    ensures DiskOk(e, if isDir then owner[e.inodes[i].addr := i] else owner, -1)
    ensures Extended(d, e, p, n, i, isDir)
  {
    var m :| NodeMade(d, m, p, isDir, i) && IsDir(m, p) && e == Enter(m, p, n, i);
    NodeMadeOk(d, owner, m, p, isDir, i);
    var owner' := if isDir then owner[m.inodes[i].addr := i] else owner;
    EnterOk(m, owner', if isDir then -1 else i, p, n, i);
    EnterIs(m, owner', p, n, i);
    assert e.inodes[i].addr == m.inodes[i].addr;
  }

  /** Every file listed before and after holds what it held before. */
  ghost predicate SameContents(d: Disk, x: Index, e: Disk, y: Index) {
    forall q :: q in x.files && q in y.files ==> Content(e, y, q) == Content(d, x, q)
  }

  lemma CreatedContents(d: Disk, owner: map<int, nat>, x: Index, path: map<nat, string>, e: Disk, p: nat, n: string,
                        isDir: bool, i: nat, f: string)
    requires DiskOk(d, owner, -1) && NamesOk(d, x, path) && IsDir(d, p) && CreatedAs(d, e, p, n, isDir, i)
    requires f !in x.files
    ensures SameContents(d, x, e, Added(x, f, i, isDir))
    ensures !isDir ==> Content(e, Added(x, f, i, isDir), f) == ""
  {
    var y := Added(x, f, i, isDir);
    var m :| NodeMade(d, m, p, isDir, i) && IsDir(m, p) && e == Enter(m, p, n, i);
    NodeMadeOk(d, owner, m, p, isDir, i);
    var owner' := if isDir then owner[m.inodes[i].addr := i] else owner;
    forall q | q in x.files ensures Content(e, y, q) == Content(d, x, q) {
      assert FileNamed(d, x, q) && InodeOk(d, owner, x.inum[q]);
      EnterContent(m, owner', p, n, i, x.inum[q]);
    }
  }

  /** Creating and listing n in a directory keeps everything in order. */
  lemma CreatedAll(d: Disk, owner: map<int, nat>, x: Index, path: map<nat, string>, e: Disk, parent: string, p: nat,
                   n: string, isDir: bool, i: nat)
    requires DiskOk(d, owner, -1) && NamesOk(d, x, path) && parent in x.dirs && DirNamed(d, x, path, parent)
    requires p == x.inum[parent] && |List(d, p)| < 32 && IsName(n) && !HasName(List(d, p), n)
    requires CreatedAs(d, e, p, n, isDir, i)
    ensures i < |e.inodes|
    ensures DiskOk(e, if isDir then owner[e.inodes[i].addr := i] else owner, -1)
    ensures var y := Added(x, Full(parent, n), i, isDir);
      NamesOk(e, y, if isDir then path[i := Full(parent, n)] else path) && SameContents(d, x, e, y)
  {
    ListedIsThere(d, x, path, parent, n);
    CreatedOk(d, owner, e, p, n, isDir, i);
    CreatedContents(d, owner, x, path, e, p, n, isDir, i, Full(parent, n));
    NamesAdded(d, e, x, path, parent, n, i, isDir);
  }

  /** One more name for file i. */
  lemma LinkedOk(d: Disk, owner: map<int, nat>, x: Index, path: map<nat, string>, p: nat, n: string, i: nat, f: string)
    requires DiskOk(d, owner, -1) && NamesOk(d, x, path) && IsDir(d, p) && |List(d, p)| < 32
    requires IsName(n) && !HasName(List(d, p), n) && f !in x.files
    requires i < |d.inodes| && d.inodes[i].ftype == File
    ensures IsDir(Bump(d, i), p)
    ensures var e := Enter(Bump(d, i), p, n, i);
      DiskOk(e, owner, -1) && Extended(d, e, p, n, i, false)
      && SameContents(d, x, e, Added(x, f, i, false))
      && forall q :: q in x.files && q in x.inum && x.inum[q] == i ==>
           Content(e, Added(x, f, i, false), f) == Content(d, x, q)
  {
    var m := Bump(d, i);
    BumpOk(d, owner, i);
    EnterOk(m, owner, i, p, n, i);
    EnterIs(m, owner, p, n, i);
    var e, y := Enter(m, p, n, i), Added(x, f, i, false);
    forall q | q in x.files ensures Content(e, y, q) == Content(d, x, q) {
      assert FileNamed(d, x, q) && InodeOk(d, owner, x.inum[q]);
      EnterContent(m, owner, p, n, i, x.inum[q]);
    }
    EnterContent(m, owner, p, n, i, i);
    assert InodeOk(d, owner, i);
  }

  /** One name less for file i: entry k of directory p. */
  lemma DeletedOk(d: Disk, owner: map<int, nat>, x: Index, path: map<nat, string>, f: string, p: nat, k: nat)
    requires DiskOk(d, owner, -1) && NamesOk(d, x, path) && f in x.files && FileNamed(d, x, f) && Resolves(d, x, f)
    requires p == x.inum[Parent(f)] && EntryAt(d, p, k, Last(f), x.inum[f])
    requires -1 <= d.inodes[x.inum[f]].addr < |d.data|
    ensures var i := x.inum[f]; var m := Leave(d, p, k);
      i != p && m.inodes[i] == d.inodes[i] && |m.ibitmap| == |m.inodes| == |d.inodes|
      && |m.dbitmap| == |m.data| == |d.data| && i < |d.inodes|
      && DiskOk(Drop(m, i), Owners(d, owner, i), -1)
      && NamesOk(Drop(m, i), x.(files := Without(x.files, f)), path)
  {
    var i, m, y := x.inum[f], Leave(d, p, k), x.(files := Without(x.files, f));
    LeaveOk(d, owner, p, k);
    NamesLeft(d, owner, x, path, f, p, k);
    DropOk(m, owner, i);
    NamesDropped(m, owner, y, path, i);
  }

  lemma DeletedContents(d: Disk, owner: map<int, nat>, x: Index, path: map<nat, string>, f: string, p: nat, k: nat)
    requires DiskOk(d, owner, -1) && NamesOk(d, x, path) && f in x.files && FileNamed(d, x, f) && Resolves(d, x, f)
    requires p == x.inum[Parent(f)] && EntryAt(d, p, k, Last(f), x.inum[f])
    requires -1 <= d.inodes[x.inum[f]].addr < |d.data|
    ensures var i := x.inum[f]; var m, y := Leave(d, p, k), x.(files := Without(x.files, f));
      i < |m.ibitmap| == |m.inodes| && |m.dbitmap| == |m.data| && -1 <= m.inodes[i].addr < |m.data|
      && SameContents(d, x, Drop(m, i), y)
  {
    var i, m, y := x.inum[f], Leave(d, p, k), x.(files := Without(x.files, f));
    DeletedOk(d, owner, x, path, f, p, k);
    LeaveOk(d, owner, p, k);
    WithoutIs(x.files, f);
    assert InodeOk(d, owner, p);
    forall q | q in x.files && q in y.files ensures Content(Drop(m, i), y, q) == Content(d, x, q) {
      assert FileNamed(d, x, q) && InodeOk(d, owner, x.inum[q]) && InodeOk(m, owner, x.inum[q]) && InodeOk(m, owner, i);
      assert FileNamed(Drop(m, i), y, q);
    }
  }

  /** All names of file i have the text in e, and all others what they had in d. */
  ghost predicate Holds(d: Disk, e: Disk, x: Index, i: nat, text: string) {
    forall q :: q in x.files ==>
      q in x.inum && Content(e, x, q) == if x.inum[q] == i then text else Content(d, x, q)
  }

  lemma WrittenOk(d: Disk, owner: map<int, nat>, x: Index, path: map<nat, string>, i: nat, b: nat, data: string)
    requires DiskOk(d, owner, -1) && NamesOk(d, x, path) && i < |d.inodes| && d.inodes[i].ftype == File
    requires d.inodes[i].addr == -1 && b < |d.data| && !d.dbitmap[b]
    ensures var e := Write(d, i, b, data);
      DiskOk(e, owner[b := i], -1) && NamesOk(e, x, path)
      && Holds(d, e, x, i, data)
  {
    var e := Write(d, i, b, data);
    WriteOk(d, owner, i, b, data);
    assert BlockOk(d, owner, b);
    forall j: nat | IsDir(d, j) ensures IsDir(e, j) && List(e, j) == List(d, j) {
      assert InodeOk(d, owner, j);
    }
    NamesStay(d, e, x, path);
    forall q | q in x.files
      ensures q in x.inum && Content(e, x, q) == if x.inum[q] == i then data else Content(d, x, q)
    {
      assert FileNamed(d, x, q) && InodeOk(d, owner, x.inum[q]);
    }
  }

  // ----- What a request does

  /** A link is refused exactly if its directory is full or has the name; otherwise the target's inode has one more
      name, and one more reference. */
  ghost predicate LinkServed(d: Disk, x: Index, e: Disk, y: Index, target: string, parent: string, n: string, rc: int) {
    target in x.inum && parent in x.inum && IsDir(d, x.inum[parent]) && SameContents(d, x, e, y)
    && x.inum[target] < |d.inodes| == |e.inodes|
    && var list, i := List(d, x.inum[parent]), x.inum[target];
       if |list| >= 32 || HasName(list, n) then rc == -1 && e == d && y == x
       else
         rc == 0 && y == Added(x, Full(parent, n), i, false) && IsDir(e, x.inum[parent])
         && List(e, x.inum[parent]) == list + [Entry(n, i)]
         && e.inodes[i] == d.inodes[i].(refCnt := d.inodes[i].refCnt + 1)
  }

  /** Creating is refused exactly if the directory is full or has the name, or an inode or a directory's block is
      lacking; otherwise the first free inode gets the name. */
  ghost predicate CreateServed(d: Disk, x: Index, e: Disk, y: Index, parent: string, n: string, isDir: bool, rc: int) {
    parent in x.inum && IsDir(d, x.inum[parent]) && SameContents(d, x, e, y)
    && if CannotCreate(d, x.inum[parent], n, isDir) then rc == -1 && e == d && y == x
       else
         rc == 0 && Full(parent, n) in y.inum && IsDir(e, x.inum[parent])
         && var i := y.inum[Full(parent, n)];
            FirstFreeIs(d.ibitmap, i) && i < |e.inodes|
            && y == Added(x, Full(parent, n), i, isDir)
            && List(e, x.inum[parent]) == List(d, x.inum[parent]) + [Entry(n, i)]
            && (if isDir then IsDir(e, i) && List(e, i) == [Entry(".", i), Entry("..", x.inum[parent])]
                else e.inodes[i] == Inode(File, -1, 1))
  }

  lemma CreatedServed(d: Disk, owner: map<int, nat>, x: Index, path: map<nat, string>, e: Disk, parent: string, p: nat,
                      n: string, isDir: bool, i: nat)
    requires DiskOk(d, owner, -1) && NamesOk(d, x, path) && parent in x.dirs && DirNamed(d, x, path, parent)
    requires p == x.inum[parent] && !CannotCreate(d, p, n, isDir) && IsName(n)
    requires CreatedAs(d, e, p, n, isDir, i)
    ensures CreateServed(d, x, e, Added(x, Full(parent, n), i, isDir), parent, n, isDir, 0)
  {
    CreatedAll(d, owner, x, path, e, parent, p, n, isDir, i);
    var m :| NodeMade(d, m, p, isDir, i) && IsDir(m, p) && e == Enter(m, p, n, i);
    NodeMadeOk(d, owner, m, p, isDir, i);
    EnterIs(m, if isDir then owner[m.inodes[i].addr := i] else owner, p, n, i);
  }

  ghost predicate FirstFreeIs(bmap: seq<bool>, i: nat) {
    i < |bmap| && !bmap[i] && forall k :: 0 <= k < i ==> bmap[k]
  }

  /** Writing is refused exactly if the file has its block or none is free; otherwise all names of the file see the
      text, which is in the first free block. */
  ghost predicate WriteServed(d: Disk, x: Index, e: Disk, y: Index, f: string, text: string, rc: int) {
    f in x.inum && x.inum[f] < |d.inodes| == |e.inodes| && y == x
    && var i := x.inum[f];
       if d.inodes[i].addr != -1 || NoneFree(d.dbitmap) then rc == -1 && e == d
       else rc == 0 && Holds(d, e, x, i, text) && e.inodes[i].addr >= 0 && FirstFreeIs(d.dbitmap, e.inodes[i].addr)
  }

  /** The name is taken off the list and its entry out of its directory; the inode loses a reference, and with the last
      one itself and its block. */
  ghost predicate DeleteServed(d: Disk, x: Index, e: Disk, y: Index, f: string) {
    y == x.(files := Without(x.files, f)) && SameContents(d, x, e, y)
    && f in x.inum && Parent(f) in x.inum && EntryGone(d, e, x.inum[Parent(f)], Last(f))
    && ReferenceGone(d, e, x.inum[f])
  }

  ghost predicate EntryGone(d: Disk, e: Disk, p: nat, n: string) {
    IsDir(d, p) && IsDir(e, p) && |List(e, p)| == |List(d, p)| - 1 && !HasName(List(e, p), n)
    && forall k :: 0 <= k < |List(d, p)| && List(d, p)[k].name != n ==> List(d, p)[k] in List(e, p)
  }

  ghost predicate ReferenceGone(d: Disk, e: Disk, i: nat) {
    i < |d.inodes| == |e.inodes| == |e.ibitmap| && |e.dbitmap| == |d.data|
    && if d.inodes[i].refCnt == 1 then
         !e.ibitmap[i] && e.inodes[i].ftype == Free
         && forall b :: 0 <= b < |d.data| && d.inodes[i].addr == b ==> !e.dbitmap[b]
       else e.inodes[i] == d.inodes[i].(refCnt := d.inodes[i].refCnt - 1)
  }

  lemma DeletedServed(d: Disk, owner: map<int, nat>, x: Index, path: map<nat, string>, f: string, p: nat, k: nat)
    requires DiskOk(d, owner, -1) && NamesOk(d, x, path) && f in x.files && FileNamed(d, x, f) && Resolves(d, x, f)
    requires p == x.inum[Parent(f)] && EntryAt(d, p, k, Last(f), x.inum[f])
    requires -1 <= d.inodes[x.inum[f]].addr < |d.data|
    ensures var i := x.inum[f]; var m, y := Leave(d, p, k), x.(files := Without(x.files, f));
      i < |m.ibitmap| == |m.inodes| && |m.dbitmap| == |m.data| && -1 <= m.inodes[i].addr < |m.data|
      && DeleteServed(d, x, Drop(m, i), y, f)
  {
    DeletedOk(d, owner, x, path, f, p, k);
    DeletedContents(d, owner, x, path, f, p, k);
    LeftEntry(d, owner, p, k, x.inum[f]);
  }

  /** Where the entry of a listed file is, and what deleting it will do. */
  lemma DeletePlan(d: Disk, owner: map<int, nat>, x: Index, path: map<nat, string>, f: string) returns (k: nat)
    requires DiskOk(d, owner, -1) && NamesOk(d, x, path) && f in x.files
    ensures f in x.inum && Parent(f) in x.inum
    ensures var i, p := x.inum[f], x.inum[Parent(f)];
      i < |d.inodes| && IsDir(d, p) && EntryAt(d, p, k, Last(f), i) && DirOk(d, p) && FileInUse(d, i)
      && -1 <= d.inodes[i].addr < |d.data| && d.data[d.inodes[p].addr].ftype == Dir
      && i != p && d.inodes[i].addr != d.inodes[p].addr
    ensures var i, p := x.inum[f], x.inum[Parent(f)];
      var m, y := Leave(d, p, k), x.(files := Without(x.files, f));
      i < |m.ibitmap| == |m.inodes| && |m.dbitmap| == |m.data| && -1 <= m.inodes[i].addr < |m.data|
      && DiskOk(Drop(m, i), Owners(d, owner, i), -1) && NamesOk(Drop(m, i), y, path)
      && DeleteServed(d, x, Drop(m, i), y, f)
  {
    assert FileNamed(d, x, f) && Resolves(d, x, f);
    var i, p := x.inum[f], x.inum[Parent(f)];
    assert DirOk(d, p);
    BlocksInUse(d, owner, i, p);
    k :| EntryAt(d, p, k, Last(f), i);
    DeletedOk(d, owner, x, path, f, p, k);
    DeletedServed(d, owner, x, path, f, p, k);
  }

  /** Entry k is gone from directory p, and no other entry had its name. */
  lemma LeftEntry(d: Disk, owner: map<int, nat>, p: nat, k: nat, i: nat)
    requires DiskOk(d, owner, -1) && IsDir(d, p) && k < |List(d, p)|
    requires i != p && i < |d.inodes| && d.inodes[i].ftype == File && -1 <= d.inodes[i].addr < |d.data|
    ensures var m := Leave(d, p, k);
      i < |m.ibitmap| == |m.inodes| && |m.dbitmap| == |m.data| && -1 <= m.inodes[i].addr < |m.data|
      && EntryGone(d, Drop(m, i), p, List(d, p)[k].name)
  {
    var list := List(d, p);
    BlocksInUse(d, owner, i, p);
    assert DirOk(d, p);
    var rest := list[..k] + list[k + 1..];
    forall j | 0 <= j < |rest| ensures rest[j].name != list[k].name {
      assert rest[j] == list[if j < k then j else j + 1];
    }
    forall j | 0 <= j < |list| && list[j].name != list[k].name ensures list[j] in rest {
      assert list[j] == rest[if j < k then j else j - 1];
    }
  }

  /** Block b is the first free one. */
  ghost predicate NewBlock(d: Disk, b: nat) {
    b < |d.dbitmap| == |d.data| && !d.dbitmap[b] && forall k :: 0 <= k < b ==> d.dbitmap[k]
  }

  /** What freeing file i relies on: its bits are set, and its block, if any, is a file's. */
  predicate FileInUse(d: Disk, i: nat) {
    i < |d.ibitmap| == |d.inodes| && d.ibitmap[i]
    && var b := d.inodes[i].addr;
       b != -1 ==> 0 <= b < |d.dbitmap| == |d.data| && d.dbitmap[b] && d.data[b].ftype == File
  }

  lemma BlocksInUse(d: Disk, owner: map<int, nat>, i: nat, p: nat)
    requires BitsOk(d, owner) && i < |d.inodes| && d.inodes[i].ftype == File && IsDir(d, p)
    ensures FileInUse(d, i) && -1 <= d.inodes[i].addr < |d.data|
    ensures d.data[d.inodes[p].addr].ftype == Dir && i != p && d.inodes[i].addr != d.inodes[p].addr
  {
    assert InodeOk(d, owner, i) && InodeOk(d, owner, p);
    assert d.inodes[i].addr != -1 ==> BlockOk(d, owner, d.inodes[i].addr);
  }

  /** The disk with nothing but the root directory. */
  lemma FirstDisk(d: Disk, owner: map<int, nat>)
    requires |d.ibitmap| == |d.inodes| >= 1 && |d.dbitmap| == |d.data| >= 1 && owner == map[0 := 0]
    requires d.ibitmap[0] && d.inodes[0] == Inode(Dir, 0, 2)
    requires d.dbitmap[0] && d.data[0] == Block(Dir, 2, [Entry(".", 0), Entry("..", 0)], "")
    requires forall i :: 0 < i < |d.inodes| ==> !d.ibitmap[i] && d.inodes[i] == Inode(Free, -1, 1)
    requires forall b :: 0 < b < |d.data| ==> !d.dbitmap[b] && d.data[b] == Block(Free, 0, [], "")
    ensures DiskOk(d, owner, -1)
  {
  }

  class Fs {
    var ibitmap: seq<bool>
    var inodes: seq<Inode>
    var dbitmap: seq<bool>
    var data: seq<Block>
    var files: seq<string>
    var dirs: seq<string>
    var nameToInum: map<string, nat>
    ghost var owner: map<int, nat>
    ghost var path: map<nat, string>

    ghost function D(): Disk
      reads this
    {
      Disk(ibitmap, inodes, dbitmap, data)
    }

    ghost function X(): Index
      reads this
    {
      Index(files, dirs, nameToInum)
    }

    ghost predicate Valid()
      reads this
    {
      DiskOk(D(), owner, -1) && NamesOk(D(), X(), path)
    }

    constructor (numInodes: nat, numData: nat)
      requires numInodes >= 1 && numData >= 1
      ensures Valid() && files == [] && dirs == ["/"]
      ensures |inodes| == numInodes && |data| == numData
      ensures forall i :: 0 < i < numInodes ==> !ibitmap[i]
    {
      ibitmap, dbitmap := seq(numInodes, _ => false), seq(numData, _ => false);
      inodes, data := seq(numInodes, _ => Inode(Free, -1, 1)), seq(numData, _ => Block(Free, 0, [], ""));
      files, dirs, nameToInum := [], ["/"], map["/" := 0];
      owner, path := map[0 := 0], map[0 := "/"];
      new;
      MarkInode(0);
      inodes := inodes[0 := Inode(Dir, 0, 2)];
      MarkData(0);
      SetBlockType(0, Dir);
      AddDirEntry(0, ".", 0);
      AddDirEntry(0, "..", 0);
      assert data[0] == Block(Dir, 2, [Entry(".", 0), Entry("..", 0)], "");
      FirstDisk(D(), owner);
    }

    /** Whether the directory in block b has an entry of that name. */
    method DirEntryExists(b: nat, name: string) returns (found: bool)
      requires b < |data| && data[b].ftype == Dir
      ensures found == HasName(data[b].dirList, name)
    {
      var list := data[b].dirList;
      var k := 0;
      while k < |list|
        invariant 0 <= k <= |list| && forall j :: 0 <= j < k ==> list[j].name != name
      {
        if name == list[k].name {
          return true;
        }
        k := k + 1;
      }
      found := false;
    }

    /** A bit is set only if it is clear. */
    method MarkInode(i: nat)
      requires i < |ibitmap| && !ibitmap[i]
      modifies this`ibitmap
      ensures ibitmap == old(ibitmap)[i := true]
    {
      ibitmap := ibitmap[i := true];
    }

    method MarkData(b: nat)
      requires b < |dbitmap| && !dbitmap[b]
      modifies this`dbitmap
      ensures dbitmap == old(dbitmap)[b := true]
    {
      dbitmap := dbitmap[b := true];
    }

    /** Only a free block gets a type. */
    method SetBlockType(b: nat, ftype: Type)
      requires b < |data| && data[b].ftype == Free
      modifies this`data
      ensures data == old(data)[b := old(data)[b].(ftype := ftype)]
    {
      data := data[b := data[b].(ftype := ftype)];
    }

    /** Only a file's block gets data. */
    method AddData(b: nat, text: string)
      requires b < |data| && data[b].ftype == File
      modifies this`data
      ensures data == old(data)[b := old(data)[b].(data := text)]
    {
      data := data[b := data[b].(data := text)];
    }

    /** Only an inode whose bit is set is freed. */
    method FreeInode(i: nat)
      requires i < |ibitmap| == |inodes| && ibitmap[i]
      modifies this`ibitmap, this`inodes
      ensures ibitmap == old(ibitmap)[i := false]
      ensures inodes == old(inodes)[i := old(inodes)[i].(ftype := Free, addr := -1)]
    {
      ibitmap := ibitmap[i := false];
      inodes := inodes[i := inodes[i].(ftype := Free, addr := -1)];
    }

    /** Only a block in use is freed, and a directory's only with no entries but its first two. */
    method FreeData(b: nat)
      requires b < |dbitmap| == |data| && dbitmap[b]
      requires data[b].ftype != Free && (data[b].ftype == Dir ==> data[b].dirUsed == 2)
      modifies this`dbitmap, this`data
      ensures dbitmap == old(dbitmap)[b := false]
      ensures var was := old(data)[b]; var dirUsed := if was.ftype == Dir then 0 else was.dirUsed;
        data == old(data)[b := was.(dirUsed := dirUsed, data := "", ftype := Free)]
    {
      dbitmap := dbitmap[b := false];
      if data[b].ftype == Dir {
        data := data[b := data[b].(dirUsed := 0)];
      }
      data := data[b := data[b].(data := "", ftype := Free)];
    }

    /** Only a directory gets entries, and no more than 32. */
    method AddDirEntry(b: nat, name: string, inum: nat)
      requires b < |data| && data[b].ftype == Dir && data[b].dirUsed < 32
      modifies this`data
      ensures data == old(data)[b := old(data)[b].(dirList := old(data)[b].dirList + [Entry(name, inum)],
                                                    dirUsed := old(data)[b].dirUsed + 1)]
    {
      data := data[b := data[b].(dirList := data[b].dirList + [Entry(name, inum)], dirUsed := data[b].dirUsed + 1)];
    }

    /** A free inode becomes a file, or with a free block a directory in directory p; nothing changes if there is
        none. */
    method NewNode(isDir: bool, p: nat) returns (inum: int)
      requires DiskOk(D(), owner, -1) && IsDir(D(), p)
      modifies this`ibitmap, this`inodes, this`dbitmap, this`data
      ensures inum == -1 <==> NoneFree(old(ibitmap)) || (isDir && NoneFree(old(dbitmap)))
      ensures inum == -1 ==> D() == old(D())
      ensures inum != -1 ==> 0 <= inum != p && NodeMade(old(D()), D(), p, isDir, inum)
    {
      ghost var d := D();
      assert InodeOk(d, owner, p);
      inum := FirstFree(ibitmap);
      if inum == -1 {
        return;
      }
      assert InodeOk(d, owner, inum);
      MarkInode(inum);
      var fblock, refCnt := -1, 1;
      if isDir {
        refCnt := 2;
        fblock := FirstFree(dbitmap);
        if fblock == -1 {
          FreeInode(inum);
          assert ibitmap == d.ibitmap && inodes == d.inodes;
          return -1;
        }
        assert BlockOk(d, owner, fblock);
        MarkData(fblock);
        SetBlockType(fblock, Dir);
        AddDirEntry(fblock, ".", inum);
        AddDirEntry(fblock, "..", p);
        assert NewBlock(d, fblock) && data[fblock].dirList == [Entry(".", inum), Entry("..", p)];
        assert data == NewDir(d, inum, fblock, p).data;
      }
      inodes := inodes[inum := Inode(if isDir then Dir else File, fblock, refCnt)];
      assert isDir ==> D() == NewDir(d, inum, fblock, p);
    }

    /** One more entry in directory p, whose count goes up with it. */
    method EnterName(p: nat, name: string, inum: nat)
      requires IsDir(D(), p) && data[inodes[p].addr].ftype == Dir && data[inodes[p].addr].dirUsed < 32
      modifies this`inodes, this`data
      ensures D() == Enter(old(D()), p, name, inum)
    {
      inodes := inodes[p := inodes[p].(refCnt := inodes[p].refCnt + 1)];
      AddDirEntry(inodes[p].addr, name, inum);
    }

    /** A new file or directory; nothing changes if there is no room for it. */
    method CreateFile(parent: string, newfile: string, isDir: bool) returns (inum: int)
      requires Valid() && parent in dirs
      modifies this`ibitmap, this`inodes, this`dbitmap, this`data
      ensures parent in nameToInum && IsDir(old(D()), nameToInum[parent])
      ensures inum == -1 <==> CannotCreate(old(D()), nameToInum[parent], newfile, isDir)
      ensures inum == -1 ==> D() == old(D())
      ensures inum != -1 ==> inum >= 0 && CreatedAs(old(D()), D(), nameToInum[parent], newfile, isDir, inum)
    {
      assert DirNamed(D(), X(), path, parent);
      var parentInum := nameToInum[parent];
      assert DirOk(D(), parentInum) && InodeOk(D(), owner, parentInum);
      var pblock := inodes[parentInum].addr;
      if 32 - data[pblock].dirUsed <= 0 {
        return -1;
      }
      var taken := DirEntryExists(pblock, newfile);
      if taken {
        return -1;
      }
      assert BlockOk(D(), owner, pblock);
      inum := NewNode(isDir, parentInum);
      if inum != -1 {
        EnterName(parentInum, newfile, inum);
      }
    }

    /** A link to a file; nothing changes if the directory has no room for it or has the name already. */
    method CreateLink(target: string, newfile: string, parent: string) returns (tinum: int)
      requires Valid() && parent in dirs && target in files
      modifies this`inodes, this`data
      ensures parent in nameToInum && IsDir(old(D()), nameToInum[parent])
      ensures tinum == -1 <==> var list := List(old(D()), nameToInum[parent]); |list| >= 32 || HasName(list, newfile)
      ensures tinum == -1 ==> D() == old(D())
      ensures tinum != -1 ==> target in nameToInum && 0 <= tinum == nameToInum[target] < |old(inodes)|
      ensures tinum != -1 ==> IsDir(Bump(old(D()), tinum), nameToInum[parent])
                              && D() == Enter(Bump(old(D()), tinum), nameToInum[parent], newfile, tinum)
    {
      assert DirNamed(D(), X(), path, parent) && FileNamed(D(), X(), target);
      var parentInum := nameToInum[parent];
      assert DirOk(D(), parentInum) && InodeOk(D(), owner, parentInum);
      var pblock := inodes[parentInum].addr;
      if 32 - data[pblock].dirUsed <= 0 {
        return -1;
      }
      var taken := DirEntryExists(pblock, newfile);
      if taken {
        return -1;
      }
      tinum := nameToInum[target];
      inodes := inodes[tinum := inodes[tinum].(refCnt := inodes[tinum].refCnt + 1)];
      EnterName(parentInum, newfile, tinum);
    }

    /** One reference to file inum is gone; the last one takes its block and inode with it. */
    method Release(inum: nat)
      requires |ibitmap| == |inodes| && |dbitmap| == |data| && inum < |inodes| && -1 <= inodes[inum].addr < |data|
      requires FileInUse(D(), inum)
      modifies this`ibitmap, this`inodes, this`dbitmap, this`data
      ensures D() == Drop(old(D()), inum)
    {
      if inodes[inum].refCnt == 1 {
        var dblock := inodes[inum].addr;
        if dblock != -1 {
          FreeData(dblock);
        }
        FreeInode(inum);
      } else {
        inodes := inodes[inum := inodes[inum].(refCnt := inodes[inum].refCnt - 1)];
      }
    }

    /** The first entry with the last part of that path as its name is taken out. */
    method DelDirEntry(b: nat, name: string, ghost k: nat)
      requires b < |data| && data[b].ftype == Dir
      requires k < |data[b].dirList| && data[b].dirList[k].name == Last(name)
      requires forall j :: 0 <= j < k ==> data[b].dirList[j].name != Last(name)
      modifies this`data
      ensures data == old(data)[b := old(data)[b].(dirList := old(data)[b].dirList[..k] + old(data)[b].dirList[k + 1..],
                                                    dirUsed := old(data)[b].dirUsed - 1)]
    {
      var tname := Split(name);
      var dname := tname[|tname| - 1];
      var list := data[b].dirList;
      var i := 0;
      while list[i].name != dname
        invariant 0 <= i <= k
        decreases k - i
      {
        i := i + 1;
      }
      data := data[b := data[b].(dirList := list[..i] + list[i + 1..], dirUsed := data[b].dirUsed - 1)];
    }

    /** The part of deleteFile that touches the disk: entry k of directory pinum is that of the file. */
    method Unlink(tfile: string, inum: nat, pinum: nat, ghost k: nat)
      requires |ibitmap| == |inodes| && |dbitmap| == |data| && inum < |inodes| && -1 <= inodes[inum].addr < |data|
      requires EntryAt(D(), pinum, k, Last(tfile), inum) && DirOk(D(), pinum)
      requires FileInUse(D(), inum) && data[inodes[pinum].addr].ftype == Dir
      requires inum != pinum && inodes[inum].addr != inodes[pinum].addr
      modifies this`ibitmap, this`inodes, this`dbitmap, this`data
      ensures Leave(old(D()), pinum, k).inodes[inum] == old(inodes)[inum]
      ensures D() == Drop(Leave(old(D()), pinum, k), inum)
    {
      ghost var d := D();
      Release(inum);
      var pblock := inodes[pinum].addr;
      inodes := inodes[pinum := inodes[pinum].(refCnt := inodes[pinum].refCnt - 1)];
      DelDirEntry(pblock, tfile, k);
      assert inodes == Drop(Leave(d, pinum, k), inum).inodes;
      assert data == Drop(Leave(d, pinum, k), inum).data;
    }

    /** The file is taken off its directory and the list, and freed if this was its last name. */
    method DeleteFile(tfile: string)
      requires Valid() && tfile in files
      modifies this`ibitmap, this`inodes, this`dbitmap, this`data, this`files, this`owner
      ensures Valid() && DeleteServed(old(D()), old(X()), D(), X(), tfile)
    {
      ghost var d, x := D(), X();
      ghost var k := DeletePlan(d, owner, x, path, tfile);
      var inum := nameToInum[tfile];
      var parent := GetParent(tfile);
      var pinum := nameToInum[parent];
      Unlink(tfile, inum, pinum, k);
      files := Without(files, tfile);
      owner := Owners(d, owner, inum);
    }

    /** Writing an empty file; all its names see the data, and all other files stay as they are. */
    method WriteFile(tfile: string, text: string) returns (rc: int)
      requires Valid() && tfile in files
      modifies this`inodes, this`dbitmap, this`data, this`owner
      ensures Valid() && WriteServed(old(D()), old(X()), D(), X(), tfile, text, rc)
    {
      ghost var d := D();
      assert FileNamed(d, X(), tfile);
      var inum := nameToInum[tfile];
      assert InodeOk(d, owner, inum);
      if inodes[inum].addr != -1 {
        return -1;
      }
      var fblock := FirstFree(dbitmap);
      if fblock == -1 {
        return -1;
      }
      assert BlockOk(d, owner, fblock);
      WrittenOk(d, owner, X(), path, inum, fblock, text);
      MarkData(fblock);
      SetBlockType(fblock, File);
      AddData(fblock, text);
      inodes := inodes[inum := inodes[inum].(addr := fblock)];
      assert D() == Write(d, inum, fblock, text);
      owner := owner[fblock := inum];
      rc := 0;
    }

    /** Creating nfile in a listed directory, and listing it. */
    method DoCreate(parent: string, nfile: string, isDir: bool) returns (rc: int)
      requires Valid() && parent in dirs && IsName(nfile)
      modifies this
      ensures Valid() && CreateServed(old(D()), old(X()), D(), X(), parent, nfile, isDir, rc)
    {
      ghost var d, x := D(), X();
      assert DirNamed(d, x, path, parent);
      var fullName := if parent == "/" then parent + nfile else parent + "/" + nfile;
      var inum := CreateFile(parent, nfile, isDir);
      if inum < 0 {
        return -1;
      }
      ghost var p := nameToInum[parent];
      CreatedAll(d, owner, x, path, D(), parent, p, nfile, isDir, inum);
      CreatedServed(d, owner, x, path, D(), parent, p, nfile, isDir, inum);
      owner := if isDir then owner[inodes[inum].addr := inum] else owner;
      ListName(fullName, inum, isDir);
      rc := 0;
    }

    /** The new name on the list of files or directories, and in the index. */
    method ListName(fullName: string, inum: nat, isDir: bool)
      modifies this`files, this`dirs, this`nameToInum, this`path
      ensures X() == Added(old(X()), fullName, inum, isDir)
      ensures path == if isDir then old(path)[inum := fullName] else old(path)
    {
      if isDir {
        dirs := dirs + [fullName];
        path := path[inum := fullName];
      } else {
        files := files + [fullName];
      }
      nameToInum := nameToInum[fullName := inum];
    }

    /** Giving a listed file one more name, in a listed directory. */
    method DoLink(target: string, parent: string, nfile: string) returns (rc: int)
      requires Valid() && parent in dirs && target in files && IsName(nfile)
      modifies this
      ensures Valid() && LinkServed(old(D()), old(X()), D(), X(), target, parent, nfile, rc)
      ensures rc == 0 ==> Content(D(), X(), Full(parent, nfile)) == Content(old(D()), old(X()), target)
    {
      ghost var d, x := D(), X();
      assert DirNamed(d, x, path, parent) && FileNamed(d, x, target);
      var fullName := if parent == "/" then parent + nfile else parent + "/" + nfile;
      var inum := CreateLink(target, nfile, parent);
      if inum < 0 {
        return -1;
      }
      ghost var p := nameToInum[parent];
      ListedIsThere(d, x, path, parent, nfile);
      LinkedOk(d, owner, x, path, p, nfile, inum, fullName);
      NamesAdded(d, D(), x, path, parent, nfile, inum, false);
      ListName(fullName, inum, false);
      rc := 0;
    }
  }

  /** What the workload generator may choose next; a number picks from the list of files or directories. */
  datatype Request =
    | Delete(file: nat)
    | Link(dir: nat, target: nat, name: string)
    | Create(dir: nat, name: string, isDir: bool)
    | Append(file: nat, text: string)

  /** What a request does to the disk and the index, and what it answers; without a file there is none to delete,
      link or write. */
  ghost predicate Serves(d: Disk, x: Index, e: Disk, y: Index, r: Request, rc: int) {
    if !r.Create? && x.files == [] then rc == -1 && e == d && y == x
    else
      match r
      case Delete(file) => rc == 0 && DeleteServed(d, x, e, y, x.files[file % |x.files|])
      case Link(dir, target, name) =>
        x.dirs != [] && LinkServed(d, x, e, y, x.files[target % |x.files|], x.dirs[dir % |x.dirs|], name, rc)
      case Create(dir, name, isDir) =>
        x.dirs != [] && CreateServed(d, x, e, y, x.dirs[dir % |x.dirs|], name, isDir, rc)
      case Append(file, text) => WriteServed(d, x, e, y, x.files[file % |x.files|], text, rc)
  }

  method Serve(fs: Fs, r: Request) returns (rc: int)
    requires fs.Valid() && (r.Link? || r.Create? ==> IsName(r.name))
    modifies fs
    ensures fs.Valid() && Serves(old(fs.D()), old(fs.X()), fs.D(), fs.X(), r, rc)
  {
    rc := -1;
    match r
    case Delete(file) =>
      if |fs.files| > 0 {
        fs.DeleteFile(fs.files[file % |fs.files|]);
        rc := 0;
      }
    case Link(dir, target, name) =>
      if |fs.files| > 0 {
        rc := fs.DoLink(fs.files[target % |fs.files|], fs.dirs[dir % |fs.dirs|], name);
      }
    case Create(dir, name, isDir) =>
      rc := fs.DoCreate(fs.dirs[dir % |fs.dirs|], name, isDir);
    case Append(file, text) =>
      if |fs.files| > 0 {
        rc := fs.WriteFile(fs.files[file % |fs.files|], text);
      }
  }

  datatype State = State(d: Disk, x: Index)

  ghost predicate ServesAt(states: seq<State>, requests: seq<Request>, rcs: seq<int>, k: nat)
    requires k + 1 < |states| && k < |requests| && k < |rcs|
  {
    Serves(states[k].d, states[k].x, states[k + 1].d, states[k + 1].x, requests[k], rcs[k])
  }

  /** Any number of requests: each is served or refused as it should be, and the file system stays in order. */
  method Run(fs: Fs, requests: seq<Request>) returns (rcs: seq<int>, ghost states: seq<State>)
    requires fs.Valid() && forall r :: r in requests && (r.Link? || r.Create?) ==> IsName(r.name)
    modifies fs
    ensures fs.Valid() && |rcs| == |requests| && |states| == |requests| + 1
    ensures states[0] == State(old(fs.D()), old(fs.X())) && states[|requests|] == State(fs.D(), fs.X())
    ensures forall k :: 0 <= k < |requests| ==> ServesAt(states, requests, rcs, k)
  {
    rcs, states := [], [State(fs.D(), fs.X())];
    for k := 0 to |requests|
      invariant fs.Valid() && |rcs| == k && |states| == k + 1
      invariant states[0] == State(old(fs.D()), old(fs.X())) && states[k] == State(fs.D(), fs.X())
      invariant forall j :: 0 <= j < k ==> ServesAt(states, requests, rcs, j)
    {
      ghost var states0, rcs0 := states, rcs;
      var rc := Serve(fs, requests[k]);
      rcs, states := rcs + [rc], states + [State(fs.D(), fs.X())];
      forall j | 0 <= j < k ensures ServesAt(states, requests, rcs, j) {
        assert ServesAt(states0, requests, rcs0, j);
      }
    }
  }
}
