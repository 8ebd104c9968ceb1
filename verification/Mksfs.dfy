/**
 * The image builder of the simple file system (labcodes/lab8/tools/mksfs.c).
 *
 * A file's blocks hang off twelve direct pointers, one index block and one block of index blocks.  The
 * builder keeps index blocks in a cache and remembers, per file, the two it touched last.  The module
 * proves that a block appended k-th is the block the image finds at position k, that no block number is
 * ever used twice, and that the image written at the end mirrors the host directory it was built from.
 *
 * The cache files every index block under the hash of 0 instead of the hash of its number, so looking one
 * up by number fails for nearly all of them.  The builder is right only because it never looks one up.
 */
module Mksfs {

  datatype Kind = File | Dir | Link

  /** An inode as it lies on the disk. */
  datatype Inode = Inode(size: nat, kind: Kind, nlinks: nat, blocks: nat,
                         direct: seq<nat>, indirect: nat, dbIndirect: nat)

  /** What a disk block holds. */
  datatype Block =
    | Data(bytes: seq<int>)
    | Entry(ino: nat, name: string)
    | Index(words: seq<nat>)
    | InodeBlock(inode: Inode)
    | FreeMap(bits: seq<bool>)
    | Super(blocks: nat, unused: nat)

  /** The one place of the image that refers to a block: the inode of file id, or one of its pointers. */
  datatype Slot = InodeSlot | DataSlot(k: nat) | IndexSlot(j: nat)
  datatype Use = Use(id: nat, slot: Slot)

  /** The index blocks by number. */
  type Image = map<nat, seq<nat>>

  // ----- Following pointers

  function Word(img: Image, b: nat, i: nat): nat {
    if b in img && i < |img[b]| then img[b][i] else 0
  }

  /** The number of block k of a file. */
  function Ptr(img: Image, inode: Inode, k: nat): nat {
    if k < 12 then (if k < |inode.direct| then inode.direct[k] else 0)
    else if k < 1036 then Word(img, inode.indirect, k - 12)
    else Word(img, Word(img, inode.dbIndirect, (k - 1036) / 1024), (k - 1036) % 1024)
  }

  ghost predicate IndexBlock(img: Image, use: map<nat, Use>, b: nat, id: nat, j: nat) {
    b != 0 && b in img && |img[b]| == 1024 && b in use && use[b] == Use(id, IndexSlot(j))
  }

  /** Entry j of the block of index blocks is set once the file has reached that group of blocks. */
  ghost predicate Group(img: Image, use: map<nat, Use>, id: nat, db: nat, n: nat, j: nat) {
    if 1036 + 1024 * j < n then IndexBlock(img, use, Word(img, db, j), id, 2 + j) else Word(img, db, j) == 0
  }

  ghost predicate Groups(img: Image, use: map<nat, Use>, id: nat, db: nat, n: nat) {
    forall j: nat :: j < 1024 ==> Group(img, use, id, db, n, j)
  }

  /** File id, n blocks long, has exactly the index blocks it needs. */
  ghost predicate Indexed(img: Image, use: map<nat, Use>, id: nat, inode: Inode, n: nat) {
    |inode.direct| == 12 && n <= 32768 && (forall k: nat :: n <= k < 12 ==> inode.direct[k] == 0)
    && (if n > 12 then IndexBlock(img, use, inode.indirect, id, 0) else inode.indirect == 0)
    && (if n > 1036 then IndexBlock(img, use, inode.dbIndirect, id, 1) && Groups(img, use, id, inode.dbIndirect, n)
        else inode.dbIndirect == 0)
  }

  /** Block k of the file is owned[k], for every k. */
  ghost predicate Points(img: Image, use: map<nat, Use>, id: nat, inode: Inode, owned: seq<nat>) {
    forall k: nat {:trigger PointsAt(img, use, id, inode, owned, k)} :: k < |owned| ==>
      PointsAt(img, use, id, inode, owned, k)
  }

  ghost predicate PointsAt(img: Image, use: map<nat, Use>, id: nat, inode: Inode, owned: seq<nat>, k: nat)
    requires k < |owned|
  {
    Ptr(img, inode, k) == owned[k] && owned[k] in use && use[owned[k]] == Use(id, DataSlot(k))
  }

  /** The cached index blocks l1 and l2 are those of the block appended last. */
  ghost predicate Tip(img: Image, inode: Inode, n: nat, l1: nat, l2: nat) {
    (12 < n <= 1036 ==> l1 == inode.indirect)
    && (n > 1036 ==> l2 == inode.dbIndirect && l1 == Word(img, inode.dbIndirect, (n - 1037) / 1024))
  }

  ghost predicate FileOk(img: Image, use: map<nat, Use>, id: nat, inode: Inode, owned: seq<nat>, l1: nat, l2: nat) {
    Indexed(img, use, id, inode, |owned|) && Points(img, use, id, inode, owned) && Tip(img, inode, |owned|, l1, l2)
  }

  /** Whatever was in use stays in use for the same purpose. */
  ghost predicate Extends(use: map<nat, Use>, use': map<nat, Use>) {
    forall b :: b in use ==> b in use' && use'[b] == use[b]
  }

  /** No index block of file id changes. */
  ghost predicate Spares(img: Image, use: map<nat, Use>, img': Image, id: nat) {
    forall b :: b in img && b in use && use[b].id == id ==> b in img' && img'[b] == img[b]
  }

  /** A file whose index blocks are left alone stays as it is. */
  lemma FileStays(img: Image, use: map<nat, Use>, img': Image, use': map<nat, Use>, id: nat, inode: Inode,
                  owned: seq<nat>, l1: nat, l2: nat)
    requires FileOk(img, use, id, inode, owned, l1, l2) && Extends(use, use') && Spares(img, use, img', id)
    ensures FileOk(img', use', id, inode, owned, l1, l2)
  {
    var n := |owned|;
    var db := inode.dbIndirect;
    if n > 1036 {
      forall j: nat | j < 1024 ensures Group(img', use', id, db, n, j) {
        assert Group(img, use, id, db, n, j);
      }
    }
    forall k: nat | k < n ensures PointsAt(img', use', id, inode, owned, k) {
      assert PointsAt(img, use, id, inode, owned, k);
      if k >= 1036 {
        assert Group(img, use, id, db, n, (k - 1036) / 1024);
      }
    }
  }

  /** Appending block b through a direct pointer. */
  lemma AppendedDirect(img: Image, use: map<nat, Use>, id: nat, inode: Inode, inode': Inode, owned: seq<nat>, b: nat,
                       l1: nat, l2: nat)
    requires FileOk(img, use, id, inode, owned, l1, l2) && |owned| < 12
    requires b in use && use[b] == Use(id, DataSlot(|owned|))
    requires inode'.direct == inode.direct[|owned| := b]
    requires inode'.indirect == inode.indirect && inode'.dbIndirect == inode.dbIndirect
    ensures FileOk(img, use, id, inode', owned + [b], l1, l2)
  {
    var owned' := owned + [b];
    forall k: nat | k < |owned'| ensures PointsAt(img, use, id, inode', owned', k) {
      assert k < |owned| ==> PointsAt(img, use, id, inode, owned, k);
    }
  }

  /** Writing word i of index block x changes that word only. */
  ghost predicate WordSet(img: Image, img': Image, x: nat, i: nat, b: nat) {
    (forall c, t: nat :: Word(img', c, t) == if c == x && t == i then b else Word(img, c, t))
    && forall c :: c in img ==> c in img' && |img'[c]| == |img[c]|
  }

  /** Appending block b through the index block x. */
  lemma AppendedSingle(img: Image, use: map<nat, Use>, img': Image, use': map<nat, Use>, id: nat, inode: Inode,
                       inode': Inode, owned: seq<nat>, b: nat, l1: nat, l2: nat)
    requires FileOk(img, use, id, inode, owned, l1, l2) && 12 <= |owned| < 1036 && Extends(use, use')
    requires b in use' && use'[b] == Use(id, DataSlot(|owned|))
    requires inode'.direct == inode.direct && inode'.dbIndirect == inode.dbIndirect
    requires |owned| > 12 ==> inode'.indirect == inode.indirect
    requires IndexBlock(img', use', inode'.indirect, id, 0)
    requires WordSet(img, img', inode'.indirect, |owned| - 12, b)
    ensures FileOk(img', use', id, inode', owned + [b], inode'.indirect, l2)
  {
    var owned' := owned + [b];
    forall k: nat | k < |owned'| ensures PointsAt(img', use', id, inode', owned', k) {
      assert k < |owned| ==> PointsAt(img, use, id, inode, owned, k);
    }
  }

  /** Entry j of block y names x, and word i of x is b; all other words are as before. */
  ghost predicate TwoWordsSet(img: Image, img': Image, y: nat, j: nat, x: nat, i: nat, b: nat) {
    x != y
    && (forall c, t: nat :: Word(img', c, t) ==
          if c == y && t == j then x else if c == x && t == i then b else Word(img, c, t))
    && forall c :: c in img ==> c in img' && |img'[c]| == |img[c]|
  }

  /** Appending block b through block y of index blocks and the index block x that it names. */
  lemma AppendedDouble(img: Image, use: map<nat, Use>, img': Image, use': map<nat, Use>, id: nat, inode: Inode,
                       inode': Inode, owned: seq<nat>, b: nat, l1: nat, l2: nat, x: nat)
    requires FileOk(img, use, id, inode, owned, l1, l2) && 1036 <= |owned| < 32768 && Extends(use, use')
    requires b in use' && use'[b] == Use(id, DataSlot(|owned|))
    requires inode'.direct == inode.direct && inode'.indirect == inode.indirect
    requires |owned| > 1036 ==> inode'.dbIndirect == inode.dbIndirect
    requires |owned| == 1036 ==> forall t: nat :: Word(img, inode'.dbIndirect, t) == 0
    requires var j := (|owned| - 1036) / 1024; var y := inode'.dbIndirect;
      IndexBlock(img', use', y, id, 1) && IndexBlock(img', use', x, id, 2 + j)
      && (1036 + 1024 * j < |owned| ==> x == Word(img, y, j))
      && TwoWordsSet(img, img', y, j, x, (|owned| - 1036) % 1024, b)
    ensures FileOk(img', use', id, inode', owned + [b], x, inode'.dbIndirect)
  {
    var n, y := |owned|, inode'.dbIndirect;
    var j, next := (n - 1036) / 1024, n + 1;
    forall t: nat | t < 1024 ensures Group(img', use', id, y, next, t) {
      if n > 1036 {
        assert Group(img, use, id, y, n, t);
      }
    }
    var owned' := owned + [b];
    forall k: nat | k < |owned'| ensures PointsAt(img', use', id, inode', owned', k) {
      if k < n {
        assert PointsAt(img, use, id, inode, owned, k);
        if k >= 1036 {
          assert Group(img, use, id, y, n, (k - 1036) / 1024);
        }
      }
    }
  }

  // ----- The builder's state

  function WithWord(img: Image, x: nat, i: nat, b: nat): Image
    requires x in img && i < |img[x]|
  {
    var words: seq<nat> := img[x][i := b];
    img[x := words]
  }

  /** Following pointer ptr leads to block b: b is new if ptr is 0, and ptr itself otherwise. */
  ghost predicate Leads(img: Image, use: map<nat, Use>, ptr: nat, b: nat) {
    if ptr == 0 then b != 0 && b !in use else b == ptr && b in img
  }

  function WithBlock(img: Image, ptr: nat, b: nat): Image {
    if ptr == 0 then img[b := Zeros()] else img
  }

  ghost function WithUse(use: map<nat, Use>, ptr: nat, b: nat, u: Use): map<nat, Use> {
    if ptr == 0 then use[b := u] else use
  }

  /** Every cached block is in use as an index block. */
  ghost predicate Cached(img: Image, use: map<nat, Use>) {
    forall b :: b in img ==> b in use && use[b].slot.IndexSlot? && |img[b]| == 1024
  }

  /** What appending block b to file id does to the index blocks, the uses and the inode. */
  ghost predicate Appended(img: Image, use: map<nat, Use>, id: nat, inode: Inode, owned: seq<nat>, b: nat,
                           img': Image, use': map<nat, Use>, inode': Inode, l1: nat, l2: nat) {
    FileOk(img', use', id, inode', owned + [b], l1, l2) && Extends(use, use')
    && (forall t :: t != id ==> Spares(img, use, img', t))
    && inode'.size == inode.size && inode'.blocks == inode.blocks && inode'.kind == inode.kind
    && inode'.nlinks == inode.nlinks
  }

  lemma PutSingle(img: Image, use: map<nat, Use>, id: nat, inode: Inode, owned: seq<nat>, b: nat, l1: nat, l2: nat,
                  x: nat)
    requires FileOk(img, use, id, inode, owned, l1, l2) && 12 <= |owned| < 1036 && Cached(img, use)
    requires b in use && use[b] == Use(id, DataSlot(|owned|)) && Leads(img, use, inode.indirect, x)
    ensures var img1 := WithBlock(img, inode.indirect, x);
      x in img1 && |img1[x]| == 1024
      && Appended(img, use, id, inode, owned, b, WithWord(img1, x, |owned| - 12, b),
                  WithUse(use, inode.indirect, x, Use(id, IndexSlot(0))), inode.(indirect := x), x, l2)
  {
    var img' := WithWord(WithBlock(img, inode.indirect, x), x, |owned| - 12, b);
    var use' := WithUse(use, inode.indirect, x, Use(id, IndexSlot(0)));
    AppendedSingle(img, use, img', use', id, inode, inode.(indirect := x), owned, b, l1, l2);
  }

  /** The pointers and cached blocks that appending block n, doubly indirect, starts from. */
  ghost predicate Ready(img: Image, inode: Inode, n: nat, l1: nat, l2: nat)
    requires n >= 1036
  {
    (n == 1036 <==> inode.dbIndirect == 0) && (n > 1036 ==> l2 == inode.dbIndirect)
    && var w := if n == 1036 then 0 else Word(img, inode.dbIndirect, (n - 1036) / 1024);
    (w == 0 <==> (n - 1036) % 1024 == 0) && (w != 0 ==> l1 == w)
  }

  /** Block y of index blocks and the index block x are there for the next block to be put behind entry j. */
  ghost predicate Loaded(img: Image, use: map<nat, Use>, id: nat, ptr: nat, j: nat,
                         img': Image, use': map<nat, Use>, x: nat, y: nat) {
    var img1, use1 := WithBlock(img, ptr, y), WithUse(use, ptr, y, Use(id, IndexSlot(1)));
    var w := Word(img1, y, j);
    Leads(img, use, ptr, y) && Leads(img1, use1, w, x)
    && img' == WithBlock(img1, w, x) && use' == WithUse(use1, w, x, Use(id, IndexSlot(2 + j)))
  }

  lemma LoadedApart(img: Image, use: map<nat, Use>, id: nat, inode: Inode, owned: seq<nat>, l1: nat, l2: nat,
                    img1: Image, use': map<nat, Use>, y: nat, x: nat, j: nat)
    requires FileOk(img, use, id, inode, owned, l1, l2) && 1036 <= |owned| < 32768
    requires j == (|owned| - 1036) / 1024 && Loaded(img, use, id, inode.dbIndirect, j, img1, use', x, y)
    ensures x != y && x in img1 && y in img1 && |img1[y]| == |img1[x]| == 1024
  {
    assert |owned| > 1036 ==> Group(img, use, id, y, |owned|, j);
  }

  lemma PutDouble(img: Image, use: map<nat, Use>, id: nat, inode: Inode, owned: seq<nat>, b: nat, l1: nat, l2: nat,
                  img1: Image, use': map<nat, Use>, y: nat, x: nat, j: nat, i: nat)
    requires FileOk(img, use, id, inode, owned, l1, l2) && 1036 <= |owned| < 32768 && Cached(img, use)
    requires b in use && use[b] == Use(id, DataSlot(|owned|))
    requires j == (|owned| - 1036) / 1024 && i == (|owned| - 1036) % 1024
    requires Loaded(img, use, id, inode.dbIndirect, j, img1, use', x, y)
    ensures x != y && x in img1 && y in img1 && |img1[y]| == |img1[x]| == 1024
    ensures Appended(img, use, id, inode, owned, b, WithWord(WithWord(img1, y, j, x), x, i, b), use',
                     inode.(dbIndirect := y), x, y)
  {
    LoadedApart(img, use, id, inode, owned, l1, l2, img1, use', y, x, j);
    assert |owned| > 1036 ==> Group(img, use, id, y, |owned|, j);
    var img' := WithWord(WithWord(img1, y, j, x), x, i, b);
    AppendedDouble(img, use, img', use', id, inode, inode.(dbIndirect := y), owned, b, l1, l2, x);
  }

  /** The index block touched last is the one that the next block needs, unless that is yet to be allocated. */
  lemma TipServes(img: Image, use: map<nat, Use>, id: nat, inode: Inode, owned: seq<nat>, l1: nat, l2: nat)
    requires FileOk(img, use, id, inode, owned, l1, l2) && 1036 <= |owned| < 32768
    ensures Ready(img, inode, |owned|, l1, l2)
  {
    assert |owned| > 1036 ==> Group(img, use, id, inode.dbIndirect, |owned|, (|owned| - 1036) / 1024);
  }

  function Hash(val: nat): (h: nat)
    ensures h < 1024
  {
    val % 0x1_0000_0000 * 0x9e37_0001 % 0x1_0000_0000 / 0x40_0000
  }

  function Zeros(): (r: seq<nat>)
    ensures |r| == 1024 && forall i :: 0 <= i < 1024 ==> r[i] == 0
  {
    seq(1024, _ => 0)
  }

  /** The bytes a block adds to the size of its file; an entry counts as its name field. */
  function Length(b: Block): nat {
    match b
    case Data(bytes) => |bytes|
    case _ => 256
  }

  ghost function Total(content: seq<Block>): nat {
    if content == [] then 0 else Total(content[..|content| - 1]) + Length(content[|content| - 1])
  }

  /** The blocks owned hold the content. */
  ghost predicate Stored(disk: map<nat, Block>, owned: seq<nat>, content: seq<Block>) {
    |owned| == |content| && forall k :: 0 <= k < |owned| ==> owned[k] in disk && disk[owned[k]] == content[k]
  }

  /** A file in the builder's memory; l1 and l2 are the numbers of its cached index blocks, or 0. */
  datatype CacheInode = CacheInode(host: nat, inode: Inode, nblks: nat, l1: nat, l2: nat)

  /** The blocks a file consists of: their numbers and what they hold. */
  datatype Kept = Kept(owned: seq<nat>, content: seq<Block>)

  /** Block b, holding block, has become the last one of file id. */
  function With(kept: map<nat, Kept>, id: nat, b: nat, block: Block): map<nat, Kept>
    requires id in kept
  {
    kept[id := Kept(kept[id].owned + [b], kept[id].content + [block])]
  }

  ghost predicate RecOk(img: Image, use: map<nat, Use>, disk: map<nat, Block>, i: nat, f: CacheInode, k: Kept) {
    i in use && use[i] == Use(i, InodeSlot)
    && FileOk(img, use, i, f.inode, k.owned, f.l1, f.l2)
    && f.nblks == f.inode.blocks == |k.owned| && f.inode.size == Total(k.content)
    && Stored(disk, k.owned, k.content)
    && (f.l1 != 0 ==> f.l1 in img) && (f.l2 != 0 ==> f.l2 in img)
  }

  ghost predicate AllOk(img: Image, use: map<nat, Use>, disk: map<nat, Block>, file: map<nat, CacheInode>,
                        kept: map<nat, Kept>) {
    file.Keys == kept.Keys
    && forall i {:trigger RecOk(img, use, disk, i, file[i], kept[i])} :: i in file ==>
         RecOk(img, use, disk, i, file[i], kept[i])
  }

  /** The record of a file after a block of the given size has been linked in. */
  function Counted(f: CacheInode, inode': Inode, l1': nat, l2': nat, size: nat): CacheInode {
    CacheInode(f.host, inode'.(size := inode'.size + size, blocks := inode'.blocks + 1), f.nblks + 1, l1', l2')
  }

  /** Appending a block to file id keeps all files in order. */
  lemma AllStay(img: Image, use: map<nat, Use>, disk: map<nat, Block>, file: map<nat, CacheInode>, kept: map<nat, Kept>,
                img': Image, use': map<nat, Use>, id: nat, b: nat, block: Block, inode': Inode, l1': nat, l2': nat)
    requires AllOk(img, use, disk, file, kept) && id in file && id in kept && b in disk && disk[b] == block
    requires Appended(img, use, id, file[id].inode, kept[id].owned, b, img', use', inode', l1', l2')
    requires forall b :: b in img ==> b in img'
    requires (l1' != 0 ==> l1' in img') && (l2' != 0 ==> l2' in img')
    ensures AllOk(img', use', disk, file[id := Counted(file[id], inode', l1', l2', Length(block))],
                  With(kept, id, b, block))
  {
    var f, k := file[id], kept[id];
    var f', k' := Counted(f, inode', l1', l2', Length(block)), Kept(k.owned + [b], k.content + [block]);
    assert k'.content[..|k'.content| - 1] == k.content;
    forall i | i in file && i != id ensures RecOk(img', use', disk, i, file[i], kept[i]) {
      assert RecOk(img, use, disk, i, file[i], kept[i]);
      FileStays(img, use, img', use', i, file[i].inode, kept[i].owned, file[i].l1, file[i].l2);
    }
    assert RecOk(img, use, disk, id, f, k);
    assert RecOk(img', use', disk, id, f', k') by {
      SameShape(img', use', id, inode', f'.inode, k'.owned, l1', l2');
    }
  }

  /** The same file of the host, of the same kind and with the same number of links. */
  predicate SameIdentity(f: CacheInode, g: CacheInode) {
    f.host == g.host && f.inode.kind == g.inode.kind && f.inode.nlinks == g.inode.nlinks
  }

  ghost predicate InChain(inodes: seq<seq<nat>>, h: nat, i: nat) {
    h < |inodes| && i in inodes[h]
  }

  /** Every inode is in the chain of the hash of its host number, and no other. */
  ghost predicate ChainsOk(inodes: seq<seq<nat>>, file: map<nat, CacheInode>) {
    |inodes| == 1024
    && forall h: nat, i {:trigger InChain(inodes, h, i)} ::
         InChain(inodes, h, i) <==> i in file && h == Hash(file[i].host)
  }

  lemma ChainsStay(inodes: seq<seq<nat>>, file: map<nat, CacheInode>, id: nat, f': CacheInode)
    requires ChainsOk(inodes, file) && id in file && f'.host == file[id].host
    ensures ChainsOk(inodes, file[id := f'])
  {
  }

  predicate SameFiles(file: map<nat, CacheInode>, file': map<nat, CacheInode>) {
    file.Keys == file'.Keys && forall i :: i in file ==> SameIdentity(file'[i], file[i])
  }

  /** Sizes and counts do not matter for the pointers. */
  lemma SameShape(img: Image, use: map<nat, Use>, id: nat, inode: Inode, inode': Inode, owned: seq<nat>, l1: nat,
                  l2: nat)
    requires FileOk(img, use, id, inode, owned, l1, l2)
    requires inode'.direct == inode.direct && inode'.indirect == inode.indirect && inode'.dbIndirect == inode.dbIndirect
    ensures FileOk(img, use, id, inode', owned, l1, l2)
  {
    forall k: nat | k < |owned| ensures PointsAt(img, use, id, inode', owned, k) {
      assert PointsAt(img, use, id, inode, owned, k);
    }
  }

  /** The first block after the super block, the root inode and the free map. */
  function First(ninos: nat): (r: nat)
    ensures r >= 2 && 32768 * (r - 2) >= ninos && (r > 2 ==> 32768 * (r - 3) < ninos)
  {
    2 + (ninos + 32767) / 32768
  }

  /** The number of index blocks that appending block n of a file allocates. */
  function IndexNeeded(n: nat): nat {
    if n == 12 then 1
    else if n == 1036 then 2
    else if n > 1036 && (n - 1036) % 1024 == 0 then 1
    else 0
  }

  /** A block that has only just been handed out holds no file's data yet. */
  lemma AllWritten(img: Image, use: map<nat, Use>, disk: map<nat, Block>, file: map<nat, CacheInode>,
                   kept: map<nat, Kept>, id: nat, b: nat, block: Block)
    requires AllOk(img, use, disk, file, kept) && id in file && b !in use
    ensures AllOk(img, use[b := Use(id, DataSlot(file[id].nblks))], disk[b := block], file, kept)
  {
    var use', disk' := use[b := Use(id, DataSlot(file[id].nblks))], disk[b := block];
    forall i | i in file ensures RecOk(img, use', disk', i, file[i], kept[i]) {
      var f, owned := file[i], kept[i].owned;
      assert RecOk(img, use, disk, i, f, kept[i]);
      FileStays(img, use, img, use', i, f.inode, owned, f.l1, f.l2);
      forall k: nat | k < |owned| ensures owned[k] != b {
        assert PointsAt(img, use, i, f.inode, owned, k);
      }
    }
  }

  function NewInode(host: nat, kind: Kind): CacheInode {
    CacheInode(host, Inode(0, kind, 0, 0, [0, 0, 0, 0, 0, 0, 0, 0, 0, 0, 0, 0], 0, 0), 0, 0, 0)
  }

  lemma NewFile(img: Image, use: map<nat, Use>, disk: map<nat, Block>, file: map<nat, CacheInode>,
                kept: map<nat, Kept>, id: nat, host: nat, kind: Kind)
    requires AllOk(img, use, disk, file, kept) && id !in use
    ensures id !in file
    ensures AllOk(img, use[id := Use(id, InodeSlot)], disk, file[id := NewInode(host, kind)], kept[id := Kept([], [])])
  {
    var use' := use[id := Use(id, InodeSlot)];
    assert id in file ==> RecOk(img, use, disk, id, file[id], kept[id]);
    forall i | i in file ensures i != id && RecOk(img, use', disk, i, file[i], kept[i]) {
      var f := file[i];
      assert RecOk(img, use, disk, i, f, kept[i]);
      FileStays(img, use, img, use', i, f.inode, kept[i].owned, f.l1, f.l2);
    }
  }

  lemma NewInChain(inodes: seq<seq<nat>>, file: map<nat, CacheInode>, id: nat, f: CacheInode)
    requires ChainsOk(inodes, file) && id !in file
    ensures ChainsOk(inodes[Hash(f.host) := [id] + inodes[Hash(f.host)]], file[id := f])
  {
    var head := Hash(f.host);
    var inodes', file' := inodes[head := [id] + inodes[head]], file[id := f];
    forall h: nat, i | true
      ensures InChain(inodes', h, i) <==> i in file' && h == Hash(file'[i].host)
    {
      assert InChain(inodes, h, i) <==> i in file && h == Hash(file[i].host);
    }
  }

  /** The slots that a file of n blocks fills. */
  predicate HasSlot(n: nat, s: Slot) {
    match s
    case InodeSlot => true
    case DataSlot(k) => k < n
    case IndexSlot(j) =>
      if j == 0 then n > 12
      else if j == 1 then n > 1036
      else j < 1026 && 1036 + 1024 * (j - 2) < n
  }

  /** The number of the block in a slot of file i. */
  function At(img: Image, i: nat, inode: Inode, s: Slot): nat {
    match s
    case InodeSlot => i
    case DataSlot(k) => Ptr(img, inode, k)
    case IndexSlot(j) =>
      if j == 0 then inode.indirect else if j == 1 then inode.dbIndirect else Word(img, inode.dbIndirect, j - 2)
  }

  lemma SlotUsed(img: Image, use: map<nat, Use>, disk: map<nat, Block>, file: map<nat, CacheInode>,
                 kept: map<nat, Kept>, i: nat, s: Slot)
    requires AllOk(img, use, disk, file, kept) && i in file && HasSlot(file[i].nblks, s)
    ensures At(img, i, file[i].inode, s) in use && use[At(img, i, file[i].inode, s)] == Use(i, s)
  {
    var inode, owned := file[i].inode, kept[i].owned;
    assert RecOk(img, use, disk, i, file[i], kept[i]);
    match s
    case InodeSlot =>
    case DataSlot(k) =>
      assert PointsAt(img, use, i, inode, owned, k);
    case IndexSlot(j) =>
      if j >= 2 {
        assert Group(img, use, i, inode.dbIndirect, |owned|, j - 2);
      }
  }

  /** No two inodes, pointers or index entries of the image name the same block. */
  lemma NoSharing(img: Image, use: map<nat, Use>, disk: map<nat, Block>, file: map<nat, CacheInode>,
                  kept: map<nat, Kept>, i: nat, s: Slot, j: nat, t: Slot)
    requires AllOk(img, use, disk, file, kept)
    requires i in file && HasSlot(file[i].nblks, s) && j in file && HasSlot(file[j].nblks, t)
    requires At(img, i, file[i].inode, s) == At(img, j, file[j].inode, t)
    ensures i == j && s == t
  {
    SlotUsed(img, use, disk, file, kept, i, s);
    SlotUsed(img, use, disk, file, kept, j, t);
  }

  // ----- The finished image

  /** The words of index block b as they lie on the disk. */
  function DiskWord(disk: map<nat, Block>, b: nat, i: nat): nat {
    if b in disk && disk[b].Index? && i < |disk[b].words| then disk[b].words[i] else 0
  }

  /** The number of block k of a file, found on the disk alone. */
  function DiskPtr(disk: map<nat, Block>, inode: Inode, k: nat): nat {
    if k < 12 then (if k < |inode.direct| then inode.direct[k] else 0)
    else if k < 1036 then DiskWord(disk, inode.indirect, k - 12)
    else DiskWord(disk, DiskWord(disk, inode.dbIndirect, (k - 1036) / 1024), (k - 1036) % 1024)
  }

  /** Whoever reads file i from the disk gets this content. */
  ghost predicate Reads(disk: map<nat, Block>, i: nat, content: seq<Block>) {
    i in disk && disk[i].InodeBlock?
    && disk[i].inode.blocks == |content| && disk[i].inode.size == Total(content)
    && forall k: nat :: k < |content| ==>
         DiskPtr(disk, disk[i].inode, k) in disk && disk[DiskPtr(disk, disk[i].inode, k)] == content[k]
  }

  ghost predicate Flushed(disk: map<nat, Block>, img: Image, file: map<nat, CacheInode>, b: nat) {
    (b in img ==> b in disk && disk[b] == Index(img[b]))
    && (b in file ==> b in disk && disk[b] == InodeBlock(file[b].inode))
  }

  lemma FileReads(img: Image, use: map<nat, Use>, disk: map<nat, Block>, file: map<nat, CacheInode>,
                  kept: map<nat, Kept>, i: nat)
    requires AllOk(img, use, disk, file, kept) && i in file
    requires forall b :: b in img || b in file ==> Flushed(disk, img, file, b)
    ensures ClosedFile(disk, file, kept, i)
  {
    var f, owned, n := file[i], kept[i].owned, |kept[i].owned|;
    assert RecOk(img, use, disk, i, f, kept[i]);
    assert Flushed(disk, img, file, i);
    forall k: nat | k < n ensures DiskPtr(disk, f.inode, k) == owned[k] {
      assert PointsAt(img, use, i, f.inode, owned, k);
      if k >= 1036 {
        assert Group(img, use, i, f.inode.dbIndirect, n, (k - 1036) / 1024);
        assert Flushed(disk, img, file, f.inode.dbIndirect);
        assert Flushed(disk, img, file, Word(img, f.inode.dbIndirect, (k - 1036) / 1024));
      } else if k >= 12 {
        assert Flushed(disk, img, file, f.inode.indirect);
      }
    }
  }

  /** Bit b of the map block for blocks i and up says whether block i + b is free. */
  ghost predicate FreeBits(bits: seq<bool>, i: nat, next: nat, ninos: nat) {
    |bits| == 32768 && forall b :: 0 <= b < 32768 ==> (bits[b] <==> next <= i + b < ninos)
  }

  ghost function Ones(bits: seq<bool>): nat {
    if bits == [] then 0 else Ones(bits[..|bits| - 1]) + (if bits[|bits| - 1] then 1 else 0)
  }

  /** The bits set in the first k blocks of the free map. */
  ghost function FreeCount(disk: map<nat, Block>, k: nat): nat {
    if k == 0 then 0
    else FreeCount(disk, k - 1) + (if 1 + k in disk && disk[1 + k].FreeMap? then Ones(disk[1 + k].bits) else 0)
  }

  lemma {:induction false} OnesInRange(bits: seq<bool>, i: nat, next: nat, ninos: nat)
    requires next <= ninos && forall b :: 0 <= b < |bits| ==> (bits[b] <==> next <= i + b < ninos)
    ensures Ones(bits) == Between(i, i + |bits|, next, ninos)
  {
    if bits != [] {
      OnesInRange(bits[..|bits| - 1], i, next, ninos);
    }
  }

  /** The number of values from lo up to hi that are also from next up to ninos. */
  function Between(lo: nat, hi: nat, next: nat, ninos: nat): nat {
    var a, b := if lo < next then next else lo, if hi < ninos then hi else ninos;
    if a < b then b - a else 0
  }

  /** Block m of the free map. */
  ghost predicate MapOk(disk: map<nat, Block>, m: nat, next: nat, ninos: nat) {
    2 + m in disk && disk[2 + m].FreeMap? && FreeBits(disk[2 + m].bits, 32768 * m, next, ninos)
  }

  ghost predicate MapsOk(disk: map<nat, Block>, k: nat, next: nat, ninos: nat) {
    forall m: nat :: m < k ==> MapOk(disk, m, next, ninos)
  }

  lemma MoreMaps(disk: map<nat, Block>, m: nat, bits: seq<bool>, next: nat, ninos: nat)
    requires MapsOk(disk, m, next, ninos) && FreeBits(bits, 32768 * m, next, ninos)
    ensures MapsOk(disk[2 + m := FreeMap(bits)], m + 1, next, ninos)
  {
    var disk', n := disk[2 + m := FreeMap(bits)], m + 1;
    forall k: nat | k < n ensures MapOk(disk', k, next, ninos) {
      assert k < m ==> MapOk(disk, k, next, ninos);
    }
  }

  lemma {:induction false} FreeCountIs(disk: map<nat, Block>, k: nat, next: nat, ninos: nat)
    requires MapsOk(disk, k, next, ninos) && next <= ninos
    ensures FreeCount(disk, k) == Between(0, 32768 * k, next, ninos)
  {
    if k > 0 {
      var m := k - 1;
      FreeCountIs(disk, m, next, ninos);
      assert MapOk(disk, m, next, ninos);
      OnesInRange(disk[2 + m].bits, 32768 * m, next, ninos);
    }
  }

  /** Behind its n blocks a file names none, nor index blocks that it does not need. */
  ghost predicate Unused(inode: Inode, n: nat) {
    |inode.direct| == 12 && (forall k: nat :: n <= k < 12 ==> inode.direct[k] == 0)
    && (n <= 12 ==> inode.indirect == 0) && (n <= 1036 ==> inode.dbIndirect == 0)
  }

  /** The inode of file i lies on the disk as the builder has it, and its blocks are the file's content. */
  ghost predicate ClosedFile(disk: map<nat, Block>, file: map<nat, CacheInode>, kept: map<nat, Kept>, i: nat)
    requires i in file
  {
    i in kept && Reads(disk, i, kept[i].content) && disk[i] == InodeBlock(file[i].inode)
    && Unused(file[i].inode, |kept[i].content|)
  }

  /** What a closed image says about a builder's files and free blocks. */
  ghost predicate Closed(disk: map<nat, Block>, file: map<nat, CacheInode>, kept: map<nat, Kept>,
                         next: nat, ninos: nat) {
    0 in disk && disk[0] == Super(ninos, FreeCount(disk, First(ninos) - 2))
    && MapsOk(disk, First(ninos) - 2, next, ninos)
    && forall i :: i in file ==> ClosedFile(disk, file, kept, i)
  }

  // ----- Reading the image back

  function DiskBlock(disk: map<nat, Block>, b: nat): Block {
    if b in disk then disk[b] else Data([])
  }

  /** The blocks of file i, found on the disk alone. */
  function DiskContent(disk: map<nat, Block>, i: nat): seq<Block> {
    if i in disk && disk[i].InodeBlock?
    then seq(disk[i].inode.blocks, (k: nat) => DiskBlock(disk, DiskPtr(disk, disk[i].inode, k)))
    else []
  }

  lemma ContentIs(disk: map<nat, Block>, i: nat, content: seq<Block>)
    requires Reads(disk, i, content)
    ensures DiskContent(disk, i) == content
  {
    forall k: nat | k < |content| ensures DiskContent(disk, i)[k] == content[k] {
      assert DiskPtr(disk, disk[i].inode, k) in disk;
    }
  }

  /** The files as the disk has them; what the builder remembers adds the host numbers, which no inode holds. */
  function FilesOn(disk: map<nat, Block>, file: map<nat, CacheInode>): map<nat, CacheInode> {
    map i | i in file :: if i in disk && disk[i].InodeBlock? then file[i].(inode := disk[i].inode)
                         else NewInode(file[i].host, File)
  }

  function ContentsOn(disk: map<nat, Block>, file: map<nat, CacheInode>): map<nat, Kept> {
    map i | i in file :: Kept([], DiskContent(disk, i))
  }

  /** A closed image gives back every inode and every content. */
  lemma ReadBack(disk: map<nat, Block>, file: map<nat, CacheInode>, kept: map<nat, Kept>, next: nat, ninos: nat)
    requires Closed(disk, file, kept, next, ninos)
    ensures FilesOn(disk, file) == file
    ensures forall i :: i in file ==> i in kept && ContentsOn(disk, file)[i].content == kept[i].content
  {
    forall i | i in file
      ensures FilesOn(disk, file)[i] == file[i] && i in kept && DiskContent(disk, i) == kept[i].content
    {
      assert ClosedFile(disk, file, kept, i);
      ContentIs(disk, i, kept[i].content);
    }
  }

  /** The blocks in use are block 1 and those from first up to next. */
  ghost predicate Taken(use: map<nat, Use>, first: nat, next: nat) {
    forall b: nat :: b in use <==> b == 1 || first <= b < next
  }

  /** Inodes and index blocks are in use, and never the same block. */
  ghost predicate Apart(img: Image, use: map<nat, Use>, file: map<nat, CacheInode>) {
    (forall b :: b in img ==> b in use && use[b].slot.IndexSlot?)
    && forall i :: i in file ==> i in use && use[i].slot.InodeSlot?
  }

  lemma FilesApart(img: Image, use: map<nat, Use>, disk: map<nat, Block>, file: map<nat, CacheInode>, kept: map<nat,
                   Kept>)
    requires Cached(img, use) && AllOk(img, use, disk, file, kept)
    ensures Apart(img, use, file)
  {
    forall i | i in file ensures i in use && use[i].slot.InodeSlot? {
      assert RecOk(img, use, disk, i, file[i], kept[i]);
    }
  }

  /** Writing the map, the super block, the index blocks and the inodes changes no data block. */
  lemma DataStays(img: Image, use: map<nat, Use>, disk: map<nat, Block>, disk': map<nat, Block>,
                  file: map<nat, CacheInode>, kept: map<nat, Kept>)
    requires AllOk(img, use, disk, file, kept)
    requires forall b :: b in disk && b in use && use[b].slot.DataSlot? ==> b in disk' && disk'[b] == disk[b]
    ensures AllOk(img, use, disk', file, kept)
  {
    forall i | i in file ensures RecOk(img, use, disk', i, file[i], kept[i]) {
      var f, owned := file[i], kept[i].owned;
      assert RecOk(img, use, disk, i, f, kept[i]);
      forall k: nat | k < |owned| ensures owned[k] in disk' && disk'[owned[k]] == disk[owned[k]] {
        assert PointsAt(img, use, i, f.inode, owned, k);
      }
    }
  }

  lemma MapsStay(use: map<nat, Use>, disk: map<nat, Block>, disk': map<nat, Block>, next: nat, ninos: nat)
    requires Taken(use, First(ninos), next) && First(ninos) <= next <= ninos
    requires MapsOk(disk, First(ninos) - 2, next, ninos)
    requires forall b :: b in disk && b != 0 && b !in use ==> b in disk' && disk'[b] == disk[b]
    ensures MapsOk(disk', First(ninos) - 2, next, ninos) && FreeCount(disk', First(ninos) - 2) == ninos - next
  {
    var maps := First(ninos) - 2;
    forall m: nat | m < maps ensures MapOk(disk', m, next, ninos) {
      assert MapOk(disk, m, next, ninos);
      assert 2 + m !in use;
    }
    FreeCountIs(disk', maps, next, ninos);
  }

  /** disk1 has the map, and disk2 the super block, the index blocks and the inodes as well. */
  lemma CloseIs(img: Image, use: map<nat, Use>, disk: map<nat, Block>, disk1: map<nat, Block>, disk2: map<nat, Block>,
                file: map<nat, CacheInode>, kept: map<nat, Kept>, next: nat, ninos: nat)
    requires AllOk(img, use, disk, file, kept) && Apart(img, use, file) && Taken(use, First(ninos), next) && 1 in file
    requires First(ninos) <= next <= ninos
    requires forall b :: b in disk && !(2 <= b < First(ninos)) ==> b in disk1 && disk1[b] == disk[b]
    requires forall b :: b in disk1 && b != 0 && b !in img && b !in file ==> b in disk2 && disk2[b] == disk1[b]
    requires forall b :: b in img || b in file ==> Flushed(disk2, img, file, b)
    requires MapsOk(disk1, First(ninos) - 2, next, ninos) && 0 in disk2 && disk2[0] == Super(ninos, ninos - next)
    ensures Closed(disk2, file, kept, next, ninos)
  {
    DataStays(img, use, disk, disk2, file, kept);
    MapsStay(use, disk1, disk2, next, ninos);
    forall i | i in file ensures ClosedFile(disk2, file, kept, i) {
      FileReads(img, use, disk2, file, kept, i);
    }
  }

  /** A link count has 16 bits. */
  function OneMoreLink(f: CacheInode): CacheInode {
    f.(inode := f.inode.(nlinks := (f.inode.nlinks + 1) % 0x1_0000))
  }

  lemma LinkCounted(img: Image, use: map<nat, Use>, disk: map<nat, Block>, file: map<nat, CacheInode>,
                    kept: map<nat, Kept>, id: nat)
    requires AllOk(img, use, disk, file, kept) && id in file
    ensures AllOk(img, use, disk, file[id := OneMoreLink(file[id])], kept)
  {
    var f := file[id];
    assert RecOk(img, use, disk, id, f, kept[id]);
    SameShape(img, use, id, f.inode, OneMoreLink(f).inode, kept[id].owned, f.l1, f.l2);
  }

  class Fs {
    const ninos: nat
    var nextIno: nat
    var unused: int
    /** The cached index blocks by number, and the hash chains they are searched in. */
    var cache: Image
    var blocks: seq<seq<nat>>
    /** The files by inode number, and the hash chains they are searched in. */
    var file: map<nat, CacheInode>
    var inodes: seq<seq<nat>>
    var disk: map<nat, Block>
    ghost var use: map<nat, Use>
    ghost var kept: map<nat, Kept>
    /** How often the cache was searched by block number. */
    ghost var searches: nat
    /** All directory entries made so far, as pairs of the directory and the inode named. */
    ghost var log: seq<(nat, nat)>

    constructor (ninos: nat)
      requires First(ninos) < ninos
      ensures Valid() && this.ninos == ninos && unused == ninos - First(ninos) && searches == 0 && log == []
      ensures file == map[1 := NewInode(0, Dir)] && kept == map[1 := Kept([], [])] && disk == map[]
    {
      this.ninos, nextIno, unused := ninos, First(ninos), ninos - First(ninos);
      cache, blocks, disk := map[], seq(1024, _ => []), map[];
      file := map[1 := NewInode(0, Dir)];
      inodes := seq(1024, h => if h == Hash(0) then [1] else []);
      use, kept, searches, log := map[1 := Use(1, InodeSlot)], map[1 := Kept([], [])], 0, [];
    }

    /** Every block handed out is in use for one purpose; the rest are counted as unused. */
    ghost predicate SpaceOk()
      reads this`nextIno, this`unused, this`use
    {
      First(ninos) <= nextIno <= ninos && unused == ninos - nextIno
      && Taken(use, First(ninos), nextIno)
    }

    /** The cached blocks are all in the chain of hash 0, whatever their numbers. */
    ghost predicate CachesOk()
      reads this`blocks, this`cache, this`use
    {
      |blocks| == 1024 && Cached(cache, use)
      && (forall b :: b in cache <==> b in blocks[0])
      && forall h :: 0 < h < 1024 ==> blocks[h] == []
    }

    ghost predicate Valid()
      reads this
    {
      SpaceOk() && CachesOk() && ChainsOk(inodes, file) && 1 in file && AllOk(cache, use, disk, file, kept)
    }

    /** The next block, in use from now on for u; none if the disk is full. */
    method AllocIno(ghost u: Use) returns (ino: nat, ok: bool)
      requires SpaceOk()
      modifies this`nextIno, this`unused, this`use
      ensures ok <==> old(unused) > 0
      ensures ok ==> SpaceOk() && ino == old(nextIno) && ino !in old(use) && use == old(use)[ino := u]
      ensures ok ==> unused == old(unused) - 1
    {
      ino, ok := 0, false;
      if nextIno < ninos {
        unused := unused - 1;
        use := use[nextIno := u];
        ino, ok := nextIno, true;
        nextIno := nextIno + 1;
      }
    }

    /** A new cached block.  Its callers always ask for a new number with ino = 0, and 0 is what is hashed. */
    method AllocCacheBlock(ghost u: Use) returns (cb: nat, ok: bool)
      requires SpaceOk() && CachesOk() && u.slot.IndexSlot?
      modifies this`nextIno, this`unused, this`use, this`blocks, this`cache
      ensures ok <==> old(unused) > 0
      ensures ok ==> SpaceOk() && CachesOk() && unused == old(unused) - 1
      ensures ok ==> cb == old(nextIno) && cb !in old(use) && use == old(use)[cb := u]
      ensures ok ==> cache == old(cache)[cb := Zeros()]
    {
      cb, ok := AllocIno(u);
      if ok {
        var head := Hash(0);
        assert head == 0;
        cache := cache[cb := Zeros()];
        blocks := blocks[head := [cb] + blocks[head]];
      }
    }

    /** A search by number finds a cached block only if its number happens to hash like 0. */
    method SearchCacheBlock(ino: nat) returns (cb: nat)
      requires CachesOk() && ino != 0
      ensures cb == if ino in cache && Hash(ino) == 0 then ino else 0
    {
      var chain := blocks[Hash(ino)];
      var i := 0;
      while i < |chain| && chain[i] != ino
        invariant 0 <= i <= |chain| && forall k :: 0 <= k < i ==> chain[k] != ino
      {
        i := i + 1;
      }
      cb := if i < |chain| then chain[i] else 0;
    }

    /** The cached block for the pointer ino, which is allocated if the pointer is 0. */
    method UpdateCache(cbp: nat, inop: nat, ghost u: Use) returns (cb: nat, ino: nat, ok: bool)
      requires SpaceOk() && CachesOk() && u.slot.IndexSlot? && (cbp != 0 ==> cbp in cache)
      modifies this`nextIno, this`unused, this`use, this`blocks, this`cache, this`searches
      ensures ok ==> SpaceOk() && CachesOk() && cb == ino
      ensures ok ==> Leads(old(cache), old(use), inop, ino)
      ensures ok ==> cache == WithBlock(old(cache), inop, ino) && use == WithUse(old(use), inop, ino, u)
      ensures ok ==> unused == old(unused) - (if inop == 0 then 1 else 0)
      ensures inop == 0 ==> (ok <==> old(unused) > 0) && searches == old(searches)
      ensures inop != 0 && cbp == inop ==> ok && searches == old(searches)
      ensures inop != 0 && cbp != inop ==>
                searches == old(searches) + 1 && (ok <==> inop in old(cache) && Hash(inop) == 0)
    {
      cb, ino, ok := cbp, inop, true;
      if ino == 0 {
        cb, ok := AllocCacheBlock(u);
        ino := cb;
      } else if cb == 0 || cb != ino {
        searches := searches + 1;
        cb := SearchCacheBlock(ino);
        ok := cb != 0 && cb == ino;
      }
    }

    /** Block number b has been handed out to be the next block of file id. */
    ghost predicate Given(id: nat, b: nat)
      requires id in file
      reads this`use, this`file
    {
      b in use && use[b] == Use(id, DataSlot(file[id].nblks))
    }

    /** Word i of a cached block becomes b. */
    method SetWord(cb: nat, i: nat, b: nat)
      requires CachesOk() && cb in cache && i < 1024
      modifies this`cache
      ensures CachesOk() && cache == WithWord(old(cache), cb, i, b)
    {
      var words: seq<nat> := cache[cb][i := b];
      cache := cache[cb := words];
    }

    /** The part of append_block for blocks behind the indirect pointer; f is the file's record. */
    method AppendSingle(id: nat, f: CacheInode, b: nat, ghost owned: seq<nat>) returns (f': CacheInode, ok: bool)
      requires SpaceOk() && CachesOk() && FileOk(cache, use, id, f.inode, owned, f.l1, f.l2)
      requires b in use && use[b] == Use(id, DataSlot(f.nblks)) && 12 <= f.nblks == |owned| < 1036
      requires f.l1 != 0 ==> f.l1 in cache
      modifies this`nextIno, this`unused, this`use, this`blocks, this`cache, this`searches
      ensures searches == old(searches)
      ensures ok <==> old(unused) >= IndexNeeded(f.nblks)
      ensures ok ==> unused == old(unused) - IndexNeeded(f.nblks) && SpaceOk() && CachesOk()
      ensures ok ==> f' == f.(inode := f'.inode, l1 := f'.l1) && f'.l1 in cache
      ensures ok ==> forall c :: c in old(cache) ==> c in cache
      ensures ok ==> Appended(old(cache), old(use), id, f.inode, owned, b, cache, use, f'.inode, f'.l1, f'.l2)
    {
      ghost var img, use0 := cache, use;
      f' := f;
      var cb, ino;
      cb, ino, ok := UpdateCache(f.l1, f.inode.indirect, Use(id, IndexSlot(0)));
      if ok {
        PutSingle(img, use0, id, f.inode, owned, b, f.l1, f.l2, cb);
        f' := f.(l1 := cb, inode := f.inode.(indirect := ino));
        SetWord(cb, f.nblks - 12, b);
      }
    }

    /** Bringing the file's block of index blocks and the index block behind its entry j into the cache. */
    method LoadDouble(id: nat, f: CacheInode, j: nat) returns (cb2: nat, cb: nat, ok: bool)
      requires SpaceOk() && CachesOk() && 1036 <= f.nblks < 32768 && j == (f.nblks - 1036) / 1024
      requires Ready(cache, f.inode, f.nblks, f.l1, f.l2)
      requires (f.l1 != 0 ==> f.l1 in cache) && (f.l2 != 0 ==> f.l2 in cache)
      modifies this`nextIno, this`unused, this`use, this`blocks, this`cache, this`searches
      ensures searches == old(searches)
      ensures ok <==> old(unused) >= IndexNeeded(f.nblks)
      ensures ok ==> unused == old(unused) - IndexNeeded(f.nblks) && SpaceOk() && CachesOk()
      ensures ok ==> cb in cache && cb2 in cache && forall c :: c in old(cache) ==> c in cache
      ensures ok ==> Loaded(old(cache), old(use), id, f.inode.dbIndirect, j, cache, use, cb, cb2)
    {
      var ino;
      cb := 0;
      cb2, ino, ok := UpdateCache(f.l2, f.inode.dbIndirect, Use(id, IndexSlot(1)));
      if ok {
        cb, ino, ok := UpdateCache(f.l1, cache[cb2][j], Use(id, IndexSlot(2 + j)));
      }
    }

    /** The part of append_block for blocks behind the doubly indirect pointer. */
    method AppendDouble(id: nat, f: CacheInode, b: nat, ghost owned: seq<nat>) returns (f': CacheInode, ok: bool)
      requires SpaceOk() && CachesOk() && FileOk(cache, use, id, f.inode, owned, f.l1, f.l2)
      requires b in use && use[b] == Use(id, DataSlot(f.nblks)) && 1036 <= f.nblks == |owned| < 32768
      requires (f.l1 != 0 ==> f.l1 in cache) && (f.l2 != 0 ==> f.l2 in cache)
      modifies this`nextIno, this`unused, this`use, this`blocks, this`cache, this`searches
      ensures searches == old(searches)
      ensures ok <==> old(unused) >= IndexNeeded(f.nblks)
      ensures ok ==> unused == old(unused) - IndexNeeded(f.nblks) && SpaceOk() && CachesOk()
      ensures ok ==> f' == f.(inode := f'.inode, l1 := f'.l1, l2 := f'.l2) && f'.l1 in cache && f'.l2 in cache
      ensures ok ==> forall c :: c in old(cache) ==> c in cache
      ensures ok ==> Appended(old(cache), old(use), id, f.inode, owned, b, cache, use, f'.inode, f'.l1, f'.l2)
    {
      ghost var img, use0 := cache, use;
      f' := f;
      var j, i := (f.nblks - 1036) / 1024, (f.nblks - 1036) % 1024;
      TipServes(img, use, id, f.inode, owned, f.l1, f.l2);
      var cb, cb2;
      cb2, cb, ok := LoadDouble(id, f, j);
      if ok {
        PutDouble(img, use0, id, f.inode, owned, b, f.l1, f.l2, cache, use, cb2, cb, j, i);
        f' := f.(l1 := cb, l2 := cb2, inode := f.inode.(dbIndirect := cb2));
        SetWord(cb2, j, cb);
        SetWord(cb, i, b);
      }
    }

    /** The pointer to block b: everything of append_block but the counters. */
    method Link(id: nat, f: CacheInode, b: nat, ghost owned: seq<nat>) returns (f': CacheInode, ok: bool)
      requires SpaceOk() && CachesOk() && FileOk(cache, use, id, f.inode, owned, f.l1, f.l2)
      requires b in use && use[b] == Use(id, DataSlot(f.nblks)) && f.nblks == |owned| < 32768
      requires (f.l1 != 0 ==> f.l1 in cache) && (f.l2 != 0 ==> f.l2 in cache)
      modifies this`nextIno, this`unused, this`use, this`blocks, this`cache, this`searches
      ensures searches == old(searches)
      ensures ok <==> old(unused) >= IndexNeeded(f.nblks)
      ensures ok ==> unused == old(unused) - IndexNeeded(f.nblks) && SpaceOk() && CachesOk()
      ensures ok ==> f' == f.(inode := f'.inode, l1 := f'.l1, l2 := f'.l2)
      ensures ok ==> (f'.l1 != 0 ==> f'.l1 in cache) && (f'.l2 != 0 ==> f'.l2 in cache)
      ensures ok ==> forall c :: c in old(cache) ==> c in cache
      ensures ok ==> Appended(old(cache), old(use), id, f.inode, owned, b, cache, use, f'.inode, f'.l1, f'.l2)
    {
      if f.nblks < 12 {
        f' := f.(inode := f.inode.(direct := f.inode.direct[f.nblks := b]));
        AppendedDirect(cache, use, id, f.inode, f'.inode, owned, b, f.l1, f.l2);
        ok := true;
      } else if f.nblks < 1036 {
        f', ok := AppendSingle(id, f, b, owned);
      } else {
        f', ok := AppendDouble(id, f, b, owned);
      }
    }

    /** The pointer to block b is set; the files will be in order once this one's record is the one returned. */
    method LinkAll(id: nat, b: nat, size: nat, ghost block: Block) returns (f': CacheInode, ok: bool)
      requires SpaceOk() && CachesOk() && AllOk(cache, use, disk, file, kept)
      requires id in file && Given(id, b) && b in disk && disk[b] == block && size == Length(block)
      requires file[id].nblks < 32768 && id in kept
      modifies this`nextIno, this`unused, this`use, this`blocks, this`cache, this`searches
      ensures searches == old(searches)
      ensures ok <==> old(unused) >= IndexNeeded(file[id].nblks)
      ensures ok ==> unused == old(unused) - IndexNeeded(file[id].nblks) && SpaceOk() && CachesOk()
      ensures ok ==> AllOk(cache, use, disk, file[id := f'],
                           With(kept, id, b, block))
      ensures ok ==> SameIdentity(f', file[id]) && Extends(old(use), use)
    {
      ghost var img, use0, owned := cache, use, kept[id].owned;
      var f := file[id];
      assert RecOk(cache, use, disk, id, f, kept[id]);
      f', ok := Link(id, f, b, owned);
      if ok {
        AllStay(img, use0, disk, file, kept, cache, use, id, b, block, f'.inode, f'.l1, f'.l2);
        f' := Counted(f', f'.inode, f'.l1, f'.l2, size);
      }
    }

    /** Block b becomes the last block of file id. */
    method AppendBlock(id: nat, b: nat, size: nat, ghost block: Block) returns (ok: bool)
      requires Valid() && id in file && Given(id, b) && b in disk && disk[b] == block && size == Length(block)
      modifies this`nextIno, this`unused, this`use, this`blocks, this`cache, this`searches, this`file, this`kept
      ensures searches == old(searches)
      ensures ok <==> old(file[id].nblks) < 32768 && old(unused) >= IndexNeeded(old(file[id].nblks))
      ensures ok ==> Valid() && unused == old(unused) - IndexNeeded(old(file[id].nblks)) && Extends(old(use), use)
      ensures ok ==> id in old(kept) && kept == With(old(kept), id, b, block)
      ensures ok ==> SameFiles(old(file), file)
    {
      if file[id].nblks >= 32768 {
        return false;
      }
      var f';
      f', ok := LinkAll(id, b, size, block);
      if ok {
        Record(id, f', b, block);
      }
    }

    /** The new record of file id. */
    method Record(id: nat, f': CacheInode, ghost b: nat, ghost block: Block)
      requires ChainsOk(inodes, file) && id in file && id in kept && SameIdentity(f', file[id])
      modifies this`file, this`kept
      ensures file == old(file)[id := f'] && kept == With(old(kept), id, b, block)
      ensures ChainsOk(inodes, file) && SameFiles(old(file), file)
    {
      ChainsStay(inodes, file, id, f');
      file := file[id := f'];
      kept := With(kept, id, b, block);
    }

    /** Writing a block to the image. */
    method WriteBlock(ino: nat, block: Block)
      requires ino < ninos
      modifies this`disk
      ensures disk == old(disk)[ino := block]
    {
      disk := disk[ino := block];
    }

    /** A new block for file id, written to the image but not yet part of the file. */
    method NewBlock(id: nat, block: Block) returns (b: nat, ok: bool)
      requires Valid() && id in file
      modifies this`nextIno, this`unused, this`use, this`disk
      ensures ok <==> old(unused) > 0
      ensures ok ==> Valid() && unused == old(unused) - 1 && b == old(nextIno) && Extends(old(use), use)
      ensures ok ==> Given(id, b) && b in disk && disk[b] == block
    {
      ghost var use0, disk0 := use, disk;
      b, ok := AllocIno(Use(id, DataSlot(file[id].nblks)));
      if ok {
        AllWritten(cache, use0, disk0, file, kept, id, b, block);
        WriteBlock(b, block);
      }
    }

    /** How files grow everywhere in the builder: a new block is written and appended. */
    method AddBlock(id: nat, block: Block, size: nat) returns (ok: bool)
      requires Valid() && id in file && size == Length(block)
      modifies this`nextIno, this`unused, this`use, this`blocks, this`cache, this`searches, this`file, this`kept
      modifies this`disk
      ensures id in old(kept) && old(file[id].nblks) == |old(kept)[id].content|
      ensures ok <==> old(file[id].nblks) < 32768 && old(unused) >= 1 + IndexNeeded(old(file[id].nblks))
      ensures ok ==> Valid() && searches == old(searches) && SameFiles(old(file), file)
      ensures ok ==> kept == With(old(kept), id, old(nextIno), block)
      ensures ok ==> unused == old(unused) - 1 - IndexNeeded(old(file[id].nblks))
    {
      assert RecOk(cache, use, disk, id, file[id], kept[id]);
      var b;
      b, ok := NewBlock(id, block);
      if ok {
        ok := AppendBlock(id, b, size, block);
      }
    }

    /** A new, empty file for the host's file of that number. */
    method AllocCacheInode(host: nat, kind: Kind) returns (id: nat, ok: bool)
      requires Valid()
      modifies this`nextIno, this`unused, this`use, this`file, this`kept, this`inodes
      ensures ok <==> old(unused) > 0
      ensures ok ==> Valid() && id == old(nextIno) && id !in old(file) && unused == old(unused) - 1
      ensures ok ==> file == old(file)[id := NewInode(host, kind)] && kept == old(kept)[id := Kept([], [])]
    {
      ghost var use0 := use;
      id, ok := AllocIno(Use(nextIno, InodeSlot));
      if ok {
        NewFile(cache, use0, disk, file, kept, id, host, kind);
        NewInChain(inodes, file, id, NewInode(host, kind));
        var head := Hash(host);
        inodes := inodes[head := [id] + inodes[head]];
        file := file[id := NewInode(host, kind)];
        kept := kept[id := Kept([], [])];
      }
    }

    /** The file that stands for the host's file of that number, if there is one; the latest if there are several. */
    method SearchCacheInode(host: nat) returns (id: nat)
      requires Valid()
      ensures if id == 0 then forall i :: i in file ==> file[i].host != host else id in file && file[id].host == host
    {
      var h := Hash(host);
      var chain := inodes[h];
      assert forall k :: 0 <= k < |chain| ==> InChain(inodes, h, chain[k]);
      var k := 0;
      while k < |chain| && file[chain[k]].host != host
        invariant 0 <= k <= |chain| && forall j :: 0 <= j < k ==> file[chain[j]].host != host
      {
        k := k + 1;
      }
      forall i | i in file && file[i].host == host ensures i in chain && i != 0 {
        assert InChain(inodes, h, i) && RecOk(cache, use, disk, i, file[i], kept[i]);
      }
      id := if k < |chain| then chain[k] else 0;
    }

    /** The free-map block that covers the blocks from i on. */
    method FillMap(i: nat) returns (bits: seq<bool>)
      requires nextIno <= ninos && i < ninos
      ensures FreeBits(bits, i, nextIno, ninos)
    {
      bits := seq(32768, _ => false);
      if i + 32768 > nextIno {
        var start, end := 0, 32768;
        if i < nextIno {
          start := nextIno - i;
        }
        if i + 32768 > ninos {
          end := ninos - i;
        }
        var j := start;
        while j < end
          invariant start <= j && (j <= end || j == start) && |bits| == 32768
          invariant forall b :: 0 <= b < 32768 ==> (bits[b] <==> start <= b < j)
        {
          bits := bits[j := true];
          j := j + 1;
        }
      }
    }

    /** Writing the free map, which fills the blocks reserved for it. */
    method WriteMaps()
      requires Valid()
      modifies this`disk
      ensures MapsOk(disk, First(ninos) - 2, nextIno, ninos)
      ensures forall b :: b in old(disk) && !(2 <= b < First(ninos)) ==> b in disk && disk[b] == old(disk)[b]
    {
      var i, ino := 0, 2;
      while i < ninos
        invariant 2 <= ino <= First(ninos) && i == 32768 * (ino - 2)
        invariant MapsOk(disk, ino - 2, nextIno, ninos)
        invariant forall b :: b in old(disk) && !(2 <= b < First(ninos)) ==> b in disk && disk[b] == old(disk)[b]
      {
        ghost var disk0, m := disk, ino - 2;
        var bits := FillMap(i);
        WriteBlock(ino, FreeMap(bits));
        MoreMaps(disk0, m, bits, nextIno, ninos);
        ino, i := ino + 1, i + 32768;
      }
    }

    /** Writing the cached blocks of chain h; what is written already stays. */
    method FlushBlocks(h: nat)
      requires SpaceOk() && CachesOk() && h < 1024
      modifies this`disk
      ensures forall b :: b in blocks[h] ==> b in disk && disk[b] == Index(cache[b])
      ensures forall b :: b in old(disk) && (b !in cache || old(disk)[b] == Index(cache[b])) ==>
                b in disk && disk[b] == old(disk)[b]
    {
      var chain := blocks[h];
      var k := 0;
      while k < |chain|
        invariant 0 <= k <= |chain|
        invariant forall j :: 0 <= j < k ==> chain[j] in disk && disk[chain[j]] == Index(cache[chain[j]])
        invariant forall b :: b in old(disk) && (b !in cache || old(disk)[b] == Index(cache[b])) ==>
                    b in disk && disk[b] == old(disk)[b]
      {
        WriteBlock(chain[k], Index(cache[chain[k]]));
        k := k + 1;
      }
    }

    /** Writing the inodes of chain h; what is written already stays. */
    method FlushInodes(h: nat)
      requires ChainsOk(inodes, file) && h < 1024 && Apart(cache, use, file) && SpaceOk()
      modifies this`disk
      ensures forall i :: i in file && Hash(file[i].host) == h ==> i in disk && disk[i] == InodeBlock(file[i].inode)
      ensures forall b :: b in old(disk) && (b !in file || old(disk)[b] == InodeBlock(file[b].inode)) ==>
                b in disk && disk[b] == old(disk)[b]
    {
      var chain := inodes[h];
      assert forall k :: 0 <= k < |chain| ==> InChain(inodes, h, chain[k]);
      var k := 0;
      while k < |chain|
        invariant 0 <= k <= |chain|
        invariant forall j :: 0 <= j < k ==> chain[j] in disk && disk[chain[j]] == InodeBlock(file[chain[j]].inode)
        invariant forall b :: b in old(disk) && (b !in file || old(disk)[b] == InodeBlock(file[b].inode)) ==>
                    b in disk && disk[b] == old(disk)[b]
      {
        WriteBlock(chain[k], InodeBlock(file[chain[k]].inode));
        k := k + 1;
      }
      assert forall i :: i in file && Hash(file[i].host) == h ==> InChain(inodes, h, i);
    }

    /** Writing all index blocks and inodes. */
    method FlushAll()
      requires SpaceOk() && CachesOk() && ChainsOk(inodes, file) && Apart(cache, use, file)
      modifies this`disk
      ensures forall b :: b in cache || b in file ==> Flushed(disk, cache, file, b)
      ensures forall b :: b in old(disk) && b !in cache && b !in file ==> b in disk && disk[b] == old(disk)[b]
    {
      var h := 0;
      while h < 1024
        invariant 0 <= h <= 1024
        invariant h > 0 ==> forall b :: b in cache ==> b in disk && disk[b] == Index(cache[b])
        invariant forall i :: i in file && Hash(file[i].host) < h ==> i in disk && disk[i] == InodeBlock(file[i].inode)
        invariant forall b :: b in old(disk) && b !in cache && b !in file ==> b in disk && disk[b] == old(disk)[b]
      {
        FlushBlocks(h);
        FlushInodes(h);
        h := h + 1;
      }
    }

    /** Writing everything that is still in memory: the free map, the super block, the index blocks and the inodes. */
    method CloseSfs()
      requires Valid()
      modifies this`disk
      ensures Closed(disk, file, kept, nextIno, ninos)
    {
      ghost var disk0 := disk;
      FilesApart(cache, use, disk, file, kept);
      WriteMaps();
      ghost var disk1 := disk;
      WriteBlock(0, Super(ninos, unused));
      FlushAll();
      CloseIs(cache, use, disk0, disk1, disk, file, kept, nextIno, ninos);
    }

    /** One more entry, in directory dir, names file id. */
    method CountLink(id: nat, ghost dir: nat)
      requires Valid() && id in file
      modifies this`file, this`log
      ensures Valid() && file == old(file)[id := OneMoreLink(old(file)[id])] && log == old(log) + [(dir, id)]
    {
      log := log + [(dir, id)];
      LinkCounted(cache, use, disk, file, kept, id);
      ChainsStay(inodes, file, id, OneMoreLink(file[id]));
      file := file[id := OneMoreLink(file[id])];
    }
  }

  /** The blocks of an image of that many bytes: a number of 32 bits, and then at most 524288. */
  function BlocksOf(size: nat): nat {
    var ninos := size / 4096 % 0x1_0000_0000;
    if ninos > 524288 then 524288 else ninos
  }

  /** A file system for an image of that many bytes, if the image is large enough for it. */
  method CreateSfs(size: nat) returns (fs: Fs?)
    ensures (fs == null <==> First(BlocksOf(size)) >= BlocksOf(size)) && (fs != null ==> fs.ninos == BlocksOf(size))
    ensures fs != null ==> fresh(fs) && fs.Valid() && fs.disk == map[] && fs.searches == 0 && fs.log == []
    ensures fs != null ==> fs.unused == fs.ninos - First(fs.ninos)
    ensures fs != null ==> fs.file == map[1 := NewInode(0, Dir)] && fs.kept == map[1 := Kept([], [])]
  {
    var ninos := size / 4096 % 0x1_0000_0000;
    if ninos > 524288 {
      ninos := 524288;
    }
    if First(ninos) >= ninos {
      return null;
    }
    fs := new Fs(ninos);
  }
}
