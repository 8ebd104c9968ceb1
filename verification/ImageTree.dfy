/**
 * Copying a directory of the host into an image (open_dir and its helpers in labcodes/lab8/tools/mksfs.c).
 *
 * The host is a map from inode numbers to what the calls of the C library report about them.  The main
 * theorem: the program succeeds exactly if nothing in the host's tree ends it and the image has the blocks that
 * the tree needs, and then the image mirrors the host directory.  Every file, link and directory that the walk
 * reaches has exactly one inode (files with several names share theirs), and reading it back from the image
 * gives what the host holds.
 */
module ImageTree {
  import opened Mksfs

  datatype Item = Item(name: string, host: nat)

  /** What a read returns before the end of a file. */
  type Part = s: seq<int> | 0 < |s| <= 4096 witness [0]

  /**
   * A file is given by what successive reads return, a directory by what readdir and lstat return.  A node of
   * another kind can be opened, and is refused if it cannot, as is a file, link or directory that a call fails for
   * or never returns from.
   */
  datatype Node =
    | HostFile(parts: seq<Part>)
    | HostLink(target: seq<int>)
    | HostDir(items: seq<Item>)
    | HostOther
    | HostRefused

  type Host = map<nat, Node>
  type Files = map<nat, CacheInode>
  type Keeps = map<nat, Kept>

  /** A name as it is stored: an entry is written with the length of its name field, which cuts off four bytes. */
  function Cut(name: string): string {
    if |name| <= 252 then name else name[..252]
  }

  predicate Hidden(name: string) {
    name != "" && name[0] == '.'
  }

  predicate Skipped(host: Host, item: Item) {
    Hidden(item.name) || (item.host in host && host[item.host].HostOther?)
  }

  ghost function Chunks(parts: seq<seq<int>>): (r: seq<Block>)
    ensures |r| == |parts|
  {
    if parts == [] then [] else Chunks(parts[..|parts| - 1]) + [Data(parts[|parts| - 1])]
  }

  // ----- What it means for an image to mirror the host

  predicate Fits(kind: Kind, node: Node) {
    match node
    case HostFile(_) => kind == File
    case HostLink(_) => kind == Link
    case HostDir(_) => kind == Dir
    case HostOther => false
    case HostRefused => false
  }

  predicate Allowed(host: Host, item: Item) {
    item.host in host && |item.name| <= 255
  }

  /** The entry names the inode that stands for the item. */
  ghost predicate Tells(file: Files, entry: Block, item: Item) {
    entry.Entry? && entry.name == Cut(item.name) && entry.ino in file && file[entry.ino].host == item.host
  }

  /** The entries are those of the items that are not skipped, in the same order. */
  ghost predicate Lists(host: Host, file: Files, items: seq<Item>, entries: seq<Block>)
    decreases |items|
  {
    if items == [] then entries == []
    else
      var last, init := items[|items| - 1], items[..|items| - 1];
      if Skipped(host, last) then Lists(host, file, init, entries)
      else Allowed(host, last) && entries != [] && Tells(file, entries[|entries| - 1], last)
           && Lists(host, file, init, entries[..|entries| - 1])
  }

  ghost predicate DirStart(file: Files, i: nat, content: seq<Block>) {
    |content| >= 2 && content[0] == Entry(i, ".") && content[1].Entry? && content[1].name == ".."
    && content[1].ino in file && file[content[1].ino].inode.kind == Dir
  }

  /** Directory p has an entry for inode i behind its first two. */
  ghost predicate Named(kept: Keeps, p: nat, i: nat) {
    p in kept && exists k :: 2 <= k < |kept[p].content| && kept[p].content[k].Entry? && kept[p].content[k].ino == i
  }

  ghost predicate Mirrors(host: Host, home: nat, file: Files, kept: Keeps, i: nat)
    requires i in file && i in kept
  {
    var h, kind, content := if i == 1 then home else file[i].host, file[i].inode.kind, kept[i].content;
    h in host && Fits(kind, host[h])
    && match host[h]
       case HostFile(parts) => content == Chunks(parts)
       case HostLink(target) => content == [Data(target)]
       case HostDir(items) =>
         DirStart(file, i, content) && Lists(host, file, items, content[2..])
         && (if i == 1 then content[1].ino == 1 else Named(kept, content[1].ino, i))
       case HostOther => false
       case HostRefused => false
  }

  /** Only the contents matter, not the numbers of the blocks that hold them. */
  lemma MirrorsSame(host: Host, home: nat, file: Files, kept: Keeps, kept': Keeps)
    requires AllMirror(host, home, file, kept, {}) && kept'.Keys == kept.Keys == file.Keys
    requires forall i :: i in file ==> kept'[i].content == kept[i].content
    ensures AllMirror(host, home, file, kept', {})
  {
    forall i | i in file ensures Mirrors(host, home, file, kept', i) {
      assert Mirrors(host, home, file, kept, i);
      var content := kept[i].content;
      if i != 1 && host[file[i].host].HostDir? {
        NamedStays(kept, kept', content[1].ino, i);
      }
    }
  }

  /** Every inode but the root's stands for a node of the host, and only links are copied more than once. */
  ghost predicate Ids(host: Host, file: Files) {
    1 in file && file[1].host == 0 && file[1].inode.kind == Dir
    && (forall i :: i in file && i != 1 ==> file[i].host in host && Fits(file[i].inode.kind, host[file[i].host]))
    && forall i, j :: i in file && j in file && file[i].host == file[j].host && !file[i].inode.kind.Link? ==> i == j
  }

  /** All inodes mirror the host but for the directories still open. */
  ghost predicate AllMirror(host: Host, home: nat, file: Files, kept: Keeps, open: set<nat>) {
    forall i :: i in file ==> i in kept && (i !in open ==> Mirrors(host, home, file, kept, i))
  }

  // ----- Which items are copied

  /** The items at these places are those that are copied: their names do not begin with a dot, and they are files,
      links or directories. */
  ghost predicate Selects(host: Host, items: seq<Item>, places: seq<nat>) {
    (forall a, b :: 0 <= a < b < |places| ==> places[a] < places[b])
    && (forall m: nat :: m in places <==> m < |items| && IsCopied(host, items[m]))
  }

  predicate IsCopied(host: Host, item: Item) {
    (item.name == "" || item.name[0] != '.') && item.host in host
    && (host[item.host].HostFile? || host[item.host].HostLink? || host[item.host].HostDir?)
  }

  /** The entry is for the item: its inode stands for the item's node, and its name is the item's, up to 252 characters
      of it. */
  ghost predicate IsFor(file: Files, entry: Block, item: Item) {
    entry.Entry? && entry.ino in file && file[entry.ino].host == item.host && |item.name| <= 255
    && entry.name <= item.name && |entry.name| == (if |item.name| < 252 then |item.name| else 252)
  }

  /** Entry n is for the item at place n of those that are copied. */
  ghost predicate AreFor(file: Files, items: seq<Item>, entries: seq<Block>, places: seq<nat>) {
    |entries| == |places|
    && forall n :: 0 <= n < |places| ==> places[n] < |items| && IsFor(file, entries[n], items[places[n]])
  }

  lemma {:induction false} ListsSelected(host: Host, file: Files, items: seq<Item>, entries: seq<Block>)
    returns (places: seq<nat>)
    requires Lists(host, file, items, entries) && Ids(host, file) && 0 !in host
    ensures Selects(host, items, places) && AreFor(file, items, entries, places)
    decreases |items|
  {
    places := [];
    if items != [] {
      var n := |items| - 1;
      if Skipped(host, items[n]) {
        places := ListsSelected(host, file, items[..n], entries);
        SelectsSame(host, items, places);
      } else {
        var init := ListsSelected(host, file, items[..n], entries[..|entries| - 1]);
        SelectsMore(host, file, items, entries, init);
        places := init + [n];
      }
    }
  }

  lemma SelectsSame(host: Host, items: seq<Item>, places: seq<nat>)
    requires items != [] && Selects(host, items[..|items| - 1], places) && Skipped(host, items[|items| - 1])
    ensures Selects(host, items, places)
  {
    var n := |items| - 1;
    assert !IsCopied(host, items[n]);
    forall m: nat ensures m in places <==> m < |items| && IsCopied(host, items[m]) {
      if m < n {
        assert items[..n][m] == items[m];
      }
    }
  }

  lemma SelectsMore(host: Host, file: Files, items: seq<Item>, entries: seq<Block>, init: seq<nat>)
    requires items != [] && Selects(host, items[..|items| - 1], init) && Lists(host, file, items, entries)
    requires Ids(host, file) && 0 !in host && !Skipped(host, items[|items| - 1])
    requires AreFor(file, items[..|items| - 1], entries[..|entries| - 1], init)
    ensures Selects(host, items, init + [|items| - 1]) && AreFor(file, items, entries, init + [|items| - 1])
  {
    var n, last := |items| - 1, entries[|entries| - 1];
    var places := init + [n];
    assert IsCopied(host, items[n]) && IsFor(file, last, items[n]);
    forall m: nat ensures m in places <==> m < |items| && IsCopied(host, items[m]) {
      assert m in places <==> m in init || m == n;
      if m < n {
        assert items[..n][m] == items[m];
      }
    }
    forall a, b | 0 <= a < b < |places| ensures places[a] < places[b] {
      assert init[a] in init;
    }
    forall k | 0 <= k < |places| ensures places[k] < |items| && IsFor(file, entries[k], items[places[k]]) {
      if k < |init| {
        assert entries[..|entries| - 1][k] == entries[k] && items[..n][init[k]] == items[init[k]];
      }
    }
  }

  /** No entry behind the first two has a name that begins with a dot. */
  ghost predicate NoDots(content: seq<Block>) {
    forall n :: 2 <= n < |content| ==> content[n].Entry? && (content[n].name == "" || content[n].name[0] != '.')
  }

  /** The entries of directory i behind its first two are those for the items that are copied, in order, one each, and
      none of them has a name that begins with a dot. */
  ghost predicate CopiesListed(host: Host, home: nat, file: Files, kept: Keeps, i: nat)
    requires i in file && i in kept
  {
    var h, content := if i == 1 then home else file[i].host, kept[i].content;
    h in host && host[h].HostDir? && |content| >= 2
    && (exists places :: Selects(host, host[h].items, places) && AreFor(file, host[h].items, content[2..], places))
    && NoDots(content)
  }

  ghost predicate AllListed(host: Host, home: nat, file: Files, kept: Keeps) {
    forall i :: i in file && file[i].inode.kind == Dir ==> i in kept && CopiesListed(host, home, file, kept, i)
  }

  lemma MirrorListed(host: Host, home: nat, file: Files, kept: Keeps, i: nat)
    requires Ids(host, file) && 0 !in host && i in file && file[i].inode.kind == Dir && i in kept
    requires Mirrors(host, home, file, kept, i)
    ensures CopiesListed(host, home, file, kept, i)
  {
    var h, content := if i == 1 then home else file[i].host, kept[i].content;
    var items := host[h].items;
    var places := ListsSelected(host, file, items, content[2..]);
    forall n | 2 <= n < |content|
      ensures content[n].Entry? && (content[n].name == "" || content[n].name[0] != '.')
    {
      assert content[2..][n - 2] == content[n] && IsFor(file, content[2..][n - 2], items[places[n - 2]]);
      assert places[n - 2] in places && IsCopied(host, items[places[n - 2]]);
    }
  }

  /** So it is in every image that mirrors the host. */
  lemma ImageListed(host: Host, home: nat, file: Files, kept: Keeps)
    requires Ids(host, file) && 0 !in host && AllMirror(host, home, file, kept, {})
    ensures AllListed(host, home, file, kept)
  {
    forall i | i in file && file[i].inode.kind == Dir ensures i in kept && CopiesListed(host, home, file, kept, i) {
      MirrorListed(host, home, file, kept, i);
    }
  }

  // ----- Link counts

  /** The inodes that the entries of a content name, in order. */
  ghost function Targets(content: seq<Block>): seq<nat> {
    if content == [] then []
    else
      var last := content[|content| - 1];
      Targets(content[..|content| - 1]) + (if last.Entry? then [last.ino] else [])
  }

  /** The inodes that the entries logged for directory d name, in order. */
  ghost function From(log: seq<(nat, nat)>, d: nat): seq<nat> {
    if log == [] then []
    else
      var last := log[|log| - 1];
      From(log[..|log| - 1], d) + (if last.0 == d then [last.1] else [])
  }

  /** The number of entries logged that name inode i. */
  ghost function CountTo(log: seq<(nat, nat)>, i: nat): nat {
    if log == [] then 0 else CountTo(log[..|log| - 1], i) + (if log[|log| - 1].1 == i then 1 else 0)
  }

  /** The log interleaves the entries of all directories, and every link count counts the entries, in 16 bits. */
  ghost predicate Linked(file: Files, kept: Keeps, log: seq<(nat, nat)>) {
    (forall e :: e in log ==> e.0 in file && e.1 in file)
    && (forall i :: i in file ==> i in kept && Targets(kept[i].content) == From(log, i))
    && forall i :: i in file ==> file[i].inode.nlinks == CountTo(log, i) % 0x1_0000
  }

  lemma {:induction false} NotLogged(log: seq<(nat, nat)>, id: nat)
    requires forall e :: e in log ==> e.0 != id && e.1 != id
    ensures From(log, id) == [] && CountTo(log, id) == 0
  {
    if log != [] {
      NotLogged(log[..|log| - 1], id);
      assert log[|log| - 1] in log;
    }
  }

  lemma LinkedNew(file: Files, kept: Keeps, log: seq<(nat, nat)>, id: nat, h: nat, kind: Kind)
    requires Linked(file, kept, log) && id !in file
    ensures Linked(file[id := NewInode(h, kind)], kept[id := Kept([], [])], log)
  {
    NotLogged(log, id);
  }

  /** Contents that gain no entries leave the links. */
  lemma LinkedStays(file: Files, kept: Keeps, file': Files, kept': Keeps, log: seq<(nat, nat)>)
    requires Linked(file, kept, log) && SameFiles(file, file')
    requires forall i :: i in file ==> i in kept' && Targets(kept'[i].content) == Targets(kept[i].content)
    ensures Linked(file', kept', log)
  {
  }

  /** One more entry, logged and counted. */
  lemma LinkedMore(file: Files, kept: Keeps, file': Files, kept': Keeps, log: seq<(nat, nat)>, dir: nat, target: nat,
                   name: string)
    requires Linked(file, kept, log) && file'.Keys == file.Keys && dir in file && target in file && dir in kept'
    requires kept'[dir].content == kept[dir].content + [Entry(target, name)]
    requires forall i :: i in file && i != dir ==> i in kept' && kept'[i].content == kept[i].content
    requires OneLinkMore(file, file', target)
    ensures Linked(file', kept', log + [(dir, target)])
  {
    var log', content' := log + [(dir, target)], kept'[dir].content;
    assert content'[..|content'| - 1] == kept[dir].content;
    assert Targets(content') == Targets(kept[dir].content) + [target];
    forall i | i in file
      ensures file'[i].inode.nlinks == CountTo(log', i) % 0x1_0000
      ensures i in kept' && Targets(kept'[i].content) == From(log', i)
    {
      LoggedMore(log, dir, target, i);
      CountWraps(CountTo(log, i));
    }
  }

  lemma CountWraps(n: nat)
    ensures (n % 0x1_0000 + 1) % 0x1_0000 == (n + 1) % 0x1_0000
  {
  }

  lemma LoggedMore(log: seq<(nat, nat)>, dir: nat, target: nat, i: nat)
    ensures var log' := log + [(dir, target)];
      CountTo(log', i) == CountTo(log, i) + (if i == target then 1 else 0)
      && From(log', i) == From(log, i) + (if i == dir then [target] else [])
  {
    var log' := log + [(dir, target)];
    assert log'[..|log'| - 1] == log;
  }

  /** The host number that an entry for an inode adds to the names; none for a directory, which has one name only. */
  ghost function NameOf(file: Files, i: nat): multiset<nat> {
    if i in file && file[i].inode.kind != Dir then multiset{file[i].host} else multiset{}
  }

  /** How often the entries logged name each file and link of the host. */
  ghost function NamesOf(file: Files, log: seq<(nat, nat)>): multiset<nat> {
    if log == [] then multiset{} else NamesOf(file, log[..|log| - 1]) + NameOf(file, log[|log| - 1].1)
  }

  /** Of an item, the same. */
  function ItemName(host: Host, item: Item): multiset<nat>
    requires item.host in host
  {
    if host[item.host].HostDir? then multiset{} else multiset{item.host}
  }

  lemma NameIs(host: Host, file: Files, i: nat, item: Item)
    requires Ids(host, file) && 0 !in host && i in file && item.host in host && file[i].host == item.host
    ensures NameOf(file, i) == ItemName(host, item)
  {
  }

  ghost predicate Logged(file: Files, log: seq<(nat, nat)>) {
    forall e :: e in log ==> e.1 in file
  }

  lemma {:induction false} NamesStay(file: Files, file': Files, log: seq<(nat, nat)>)
    requires Logged(file, log)
    requires forall i :: i in file ==>
               i in file' && file'[i].host == file[i].host && file'[i].inode.kind == file[i].inode.kind
    ensures NamesOf(file', log) == NamesOf(file, log)
  {
    if log != [] {
      NamesStay(file, file', log[..|log| - 1]);
      assert log[|log| - 1] in log;
    }
  }

  /** As a file has one inode, its names are the entries for that inode. */
  lemma {:induction false} NamesAreEntries(host: Host, file: Files, log: seq<(nat, nat)>, i: nat)
    requires Ids(host, file) && 0 !in host && Logged(file, log) && i in file && file[i].inode.kind == File
    ensures CountTo(log, i) == NamesOf(file, log)[file[i].host]
  {
    if log != [] {
      var init, last := log[..|log| - 1], log[|log| - 1];
      assert last in log;
      NamesAreEntries(host, file, init, i);
      assert file[last.1].host == file[i].host ==> last.1 == i;
    }
  }

  lemma {:induction false} NoTargets(parts: seq<seq<int>>)
    ensures Targets(Chunks(parts)) == []
  {
    if parts != [] {
      var init := parts[..|parts| - 1];
      NoTargets(init);
      assert Chunks(parts)[..|Chunks(parts)| - 1] == Chunks(init);
    }
  }

  // ----- Growing

  /** No file but cur has changed its content, and cur has only grown. */
  ghost predicate Grew(file: Files, kept: Keeps, file': Files, kept': Keeps, cur: nat) {
    forall i :: i in file && i in kept ==>
      i in file' && i in kept' && file'[i].host == file[i].host && file'[i].inode.kind == file[i].inode.kind
      && (if i == cur then kept[i].content <= kept'[i].content else kept'[i].content == kept[i].content)
  }

  lemma {:induction false} ListsStay(host: Host, file: Files, file': Files, items: seq<Item>, entries: seq<Block>)
    requires Lists(host, file, items, entries)
    requires forall i :: i in file ==> i in file' && file'[i].host == file[i].host
    ensures Lists(host, file', items, entries)
    decreases |items|
  {
    if items != [] {
      var last, init := items[|items| - 1], items[..|items| - 1];
      ListsStay(host, file, file', init, if Skipped(host, last) then entries else entries[..|entries| - 1]);
    }
  }

  lemma NamedStays(kept: Keeps, kept': Keeps, p: nat, i: nat)
    requires Named(kept, p, i) && p in kept' && kept[p].content <= kept'[p].content
    ensures Named(kept', p, i)
  {
    var k :| 2 <= k < |kept[p].content| && kept[p].content[k].Entry? && kept[p].content[k].ino == i;
    assert kept'[p].content[k] == kept[p].content[k];
  }

  lemma MirrorsStays(host: Host, home: nat, file: Files, kept: Keeps, file': Files, kept': Keeps, cur: nat, i: nat)
    requires i in file && i != cur && Grew(file, kept, file', kept', cur)
    requires (forall j :: j in file ==> j in kept) && Mirrors(host, home, file, kept, i)
    ensures i in file' && i in kept' && Mirrors(host, home, file', kept', i)
  {
    var h, content := if i == 1 then home else file[i].host, kept[i].content;
    if host[h].HostDir? {
      ListsStay(host, file, file', host[h].items, content[2..]);
      if i != 1 {
        NamedStays(kept, kept', content[1].ino, i);
      }
    }
  }

  lemma AllStay(host: Host, home: nat, file: Files, kept: Keeps, file': Files, kept': Keeps, cur: nat,
                open: set<nat>, open': set<nat>)
    requires AllMirror(host, home, file, kept, open) && Grew(file, kept, file', kept', cur)
    requires open <= open' && cur in open'
    requires forall i :: i in file' ==> i in kept' && (i in file || i in open')
    ensures AllMirror(host, home, file', kept', open')
  {
    forall i | i in file' && i !in open' ensures Mirrors(host, home, file', kept', i) {
      MirrorsStays(host, home, file, kept, file', kept', cur, i);
    }
  }

  /** Growing new files and then cur is, for the files there were, growing cur. */
  lemma GrewTwice(file: Files, kept: Keeps, file1: Files, kept1: Keeps, x: nat, file2: Files, kept2: Keeps, cur: nat)
    requires Grew(file, kept, file1, kept1, x) && Grew(file1, kept1, file2, kept2, cur)
    requires x == cur || x !in file
    ensures Grew(file, kept, file2, kept2, cur)
  {
  }

  lemma ListsMore(host: Host, file: Files, items: seq<Item>, entries: seq<Block>, item: Item, entry: Block)
    requires Lists(host, file, items, entries)
    requires !Skipped(host, item) && Allowed(host, item) && Tells(file, entry, item)
    ensures Lists(host, file, items + [item], entries + [entry])
  {
    assert (items + [item])[..|items|] == items && (entries + [entry])[..|entries|] == entries;
  }

  lemma ListsSame(host: Host, file: Files, items: seq<Item>, entries: seq<Block>, item: Item)
    requires Lists(host, file, items, entries) && Skipped(host, item)
    ensures Lists(host, file, items + [item], entries)
  {
    assert (items + [item])[..|items|] == items;
  }

  /** The host's nodes that no inode stands for yet. */
  ghost function Unseen(host: Host, file: Files): set<nat> {
    set h | h in host && forall i :: i in file ==> file[i].host != h
  }

  lemma UnseenShrinks(host: Host, file: Files, kept: Keeps, file': Files, kept': Keeps, cur: nat)
    requires file.Keys == kept.Keys && Grew(file, kept, file', kept', cur)
    ensures Unseen(host, file') <= Unseen(host, file)
  {
    forall h | h in Unseen(host, file') ensures h in Unseen(host, file) {
      forall i | i in file ensures file[i].host != h {
        assert i in file' && file'[i].host == file[i].host;
      }
    }
  }

  lemma IdsStay(host: Host, file: Files, kept: Keeps, file': Files, kept': Keeps, cur: nat)
    requires Ids(host, file) && file.Keys == kept.Keys && file'.Keys == file.Keys && Grew(file, kept, file', kept', cur)
    ensures Ids(host, file')
  {
  }

  lemma IdsNew(host: Host, file: Files, id: nat, h: nat, kind: Kind)
    requires Ids(host, file) && id !in file && h in host && 0 !in host && Fits(kind, host[h])
    requires kind.Link? || forall i :: i in file ==> file[i].host != h
    ensures Ids(host, file[id := NewInode(h, kind)])
  {
  }

  /** The state of the walk; the directories in open are not complete yet. */
  ghost predicate Ok(host: Host, home: nat, fs: Fs, open: set<nat>)
    reads fs
  {
    0 !in host && fs.Valid() && Ids(host, fs.file) && AllMirror(host, home, fs.file, fs.kept, open)
    && Linked(fs.file, fs.kept, fs.log)
  }

  /** The content has gained one entry, for the item. */
  ghost predicate Gained(file: Files, content: seq<Block>, content': seq<Block>, item: Item) {
    content' != [] && content'[..|content'| - 1] == content && Tells(file, content'[|content'| - 1], item)
  }

  // ----- What the walk costs

  /** The host nodes that have inodes, and how many entries each file and link has. */
  datatype Book = Book(seen: set<nat>, named: multiset<nat>) {
    function See(h: nat): Book { Book(seen + {h}, named) }

    function Name(names: multiset<nat>): Book { Book(seen, named + names) }
  }

  /** The blocks that a program needs and the book after it; none if it ends with an error. */
  datatype Bill = Fails | Bill(need: nat, book: Book)

  ghost function BookOf(file: Files, log: seq<(nat, nat)>): Book {
    Book(set i | i in file :: file[i].host, NamesOf(file, log))
  }

  /** The blocks for block n of a file: itself and the index blocks it is the first to need. */
  function Cost(n: nat): nat {
    1 + IndexNeeded(n)
  }

  /** The blocks for the first n blocks of a file. */
  function CostUpTo(n: nat): nat {
    if n == 0 then 0 else CostUpTo(n - 1) + Cost(n - 1)
  }

  /** Only the last read may be short, and a file has at most 32768 blocks. */
  predicate Whole(parts: seq<seq<int>>) {
    |parts| <= 32768 && forall k :: 0 <= k < |parts| - 1 ==> |parts[k]| == 4096
  }

  function FileBill(parts: seq<Part>, h: nat, book: Book): Bill {
    if h in book.seen then Bill(0, book)
    else if !Whole(parts) then Fails
    else Bill(1 + CostUpTo(|parts|), book.See(h))
  }

  function LinkBill(target: seq<int>, h: nat, book: Book): Bill {
    if |target| >= 4096 then Fails else Bill(2, book.See(h))
  }

  /** One more block, for these names, for a directory of n blocks. */
  function WithEntry(bill: Bill, n: nat, names: multiset<nat>): (r: Bill)
    ensures r.Bill? ==> bill.Bill? && r.book.seen == bill.book.seen
  {
    if bill.Fails? || n >= 32768 then Fails else Bill(bill.need + Cost(n), bill.book.Name(names))
  }

  /** How many of the items get entries. */
  function Entries(host: Host, items: seq<Item>): nat {
    if items == [] then 0
    else Entries(host, items[..|items| - 1]) + (if Skipped(host, items[|items| - 1]) then 0 else 1)
  }

  /** The bill for one item of a directory that has n blocks already. */
  function ItemBill(host: Host, item: Item, book: Book, n: nat): (r: Bill)
    ensures r.Bill? ==> book.seen <= r.book.seen
    decreases host.Keys - book.seen, 0, 0
  {
    var h := item.host;
    if Hidden(item.name) then Bill(0, book)
    else if |item.name| > 255 || h !in host then Fails
    else match host[h]
      case HostRefused => Fails
      case HostOther => Bill(0, book)
      case HostLink(target) => WithEntry(LinkBill(target, h, book), n, multiset{h})
      case HostFile(parts) => WithEntry(FileBill(parts, h, book), n, multiset{h})
      case HostDir(items) =>
        if h in book.seen then Fails
        else WithEntry(DirBill(1, ItemsBill(host, items, book.See(h))), n, multiset{})
  }

  /** The items' bill, the first two entries, and what was spent before. */
  function DirBill(spent: nat, items: Bill): (r: Bill)
    ensures r.Bill? ==> items.Bill? && r.book == items.book
  {
    if items.Fails? then Fails else Bill(spent + 2 + items.need, items.book)
  }

  /** The bill for the items of a directory that has its first two entries. */
  function ItemsBill(host: Host, items: seq<Item>, book: Book): (r: Bill)
    ensures r.Bill? ==> book.seen <= r.book.seen
    decreases host.Keys - book.seen, 1, |items|
  {
    if items == [] then Bill(0, book)
    else
      var init := items[..|items| - 1];
      var bill := ItemsBill(host, init, book);
      if bill.Fails? then Fails
      else
        var last := ItemBill(host, items[|items| - 1], bill.book, 2 + Entries(host, init));
        if last.Fails? then Fails else Bill(bill.need + last.need, last.book)
  }

  /** A program with this bill, started with so many unused blocks, ends like this. */
  ghost predicate Billed(bill: Bill, unused: int, ok: bool, unused': int, book': Book) {
    (ok <==> bill.Bill? && bill.need <= unused) && (ok ==> unused' == unused - bill.need && book' == bill.book)
  }

  /** Appending block n of a file, with so many unused blocks. */
  ghost predicate Appends(n: nat, unused: int, ok: bool, unused': int) {
    (ok <==> n < 32768 && Cost(n) <= unused) && (ok ==> unused' == unused - Cost(n))
  }

  /** A program that has run so far, and then an entry or, if it failed, nothing more. */
  lemma BilledEntry(bill: Bill, unused: int, ok1: bool, unused1: int, book1: Book, n: nat, names: multiset<nat>,
                    ok: bool, unused': int, book': Book)
    requires Billed(bill, unused, ok1, unused1, book1)
    requires if ok1 then Appends(n, unused1, ok, unused') && (ok ==> book' == book1.Name(names)) else !ok
    ensures Billed(WithEntry(bill, n, names), unused, ok, unused', book')
  {
  }

  lemma BilledLink(target: seq<int>, h: nat, book: Book, unused: int, ok1: bool, unused1: int, book1: Book,
                   ok: bool, unused': int, book': Book)
    requires Billed(Bill(1, book.See(h)), unused, ok1, unused1, book1)
    requires if ok1 && |target| < 4096 then Appends(0, unused1, ok, unused') && (ok ==> book' == book1) else !ok
    ensures Billed(LinkBill(target, h, book), unused, ok, unused', book')
  {
  }

  lemma WholeMore(parts: seq<seq<int>>, k: nat)
    requires k < |parts| && k < 32768 && Whole(parts[..k]) && (k > 0 ==> |parts[k - 1]| == 4096)
    ensures Whole(parts[..k + 1])
  {
    forall j | 0 <= j < k ensures |parts[j]| == 4096 {
      assert j < k - 1 ==> |parts[..k][j]| == 4096;
    }
  }

  lemma BilledDots(book: Book, unused: int, ok1: bool, unused1: int, ok: bool, unused': int, book': Book)
    requires Appends(0, unused, ok1, unused1)
    requires if ok1 then Appends(1, unused1, ok, unused') && (ok ==> book' == book) else !ok
    ensures Billed(Bill(2, book), unused, ok, unused', book')
  {
  }

  /** A directory: its inode, what OpenDir costs, and its entry. */
  lemma BilledDir(items: Bill, h: nat, book: Book, unused: int, ok1: bool, unused1: int, book1: Book, ok2: bool,
                  unused2: int, book2: Book, n: nat, ok: bool, unused': int, book': Book)
    requires Billed(Bill(1, book.See(h)), unused, ok1, unused1, book1)
    requires if ok1 then Billed(DirBill(0, items), unused1, ok2, unused2, book2) else !ok2
    requires if ok2 then Appends(n, unused2, ok, unused') && (ok ==> book' == book2) else !ok
    ensures Billed(WithEntry(DirBill(1, items), n, multiset{}), unused, ok, unused', book')
  {
  }

  /** If the bill for all items can be paid, so can that for the first k of them. */
  lemma {:induction false} PrefixBill(host: Host, items: seq<Item>, book: Book, k: nat)
    requires k <= |items|
    ensures var all, prefix := ItemsBill(host, items, book), ItemsBill(host, items[..k], book);
      all.Bill? ==> prefix.Bill? && prefix.need <= all.need
  {
    if k == |items| {
      assert items[..k] == items;
    } else {
      var init := items[..|items| - 1];
      PrefixBill(host, init, book, k);
      assert init[..k] == items[..k];
    }
  }

  /** Item k of the directory after the items before it. */
  lemma BilledItem(host: Host, items: seq<Item>, book: Book, k: nat, unused: int, unused1: int, book1: Book,
                   ok: bool, unused': int, book': Book)
    requires k < |items| && Billed(DirBill(0, ItemsBill(host, items[..k], book)), unused, true, unused1, book1)
    requires Billed(ItemBill(host, items[k], book1, 2 + Entries(host, items[..k])), unused1, ok, unused', book')
    ensures Billed(DirBill(0, ItemsBill(host, items[..k + 1], book)), unused, ok, unused', book')
  {
    var longer := items[..k + 1];
    assert longer[..|longer| - 1] == items[..k];
  }

  lemma {:induction false} ListsLength(host: Host, file: Files, items: seq<Item>, entries: seq<Block>)
    requires Lists(host, file, items, entries)
    ensures |entries| == Entries(host, items)
    decreases |items|
  {
    if items != [] {
      var last, init := items[|items| - 1], items[..|items| - 1];
      ListsLength(host, file, init, if Skipped(host, last) then entries else entries[..|entries| - 1]);
    }
  }

  lemma {:induction false} CostGrows(n: nat, m: nat)
    requires n <= m
    ensures CostUpTo(n) <= CostUpTo(m)
  {
    if n < m {
      CostGrows(n, m - 1);
    }
  }

  lemma SameBook(file: Files, file': Files, log: seq<(nat, nat)>)
    requires file.Keys == file'.Keys && Logged(file, log)
    requires forall i :: i in file ==>
               file'[i].host == file[i].host && file'[i].inode.kind == file[i].inode.kind
    ensures BookOf(file', log) == BookOf(file, log)
  {
    NamesStay(file, file', log);
  }

  /** One more entry in the book. */
  lemma BookMore(file: Files, file': Files, log: seq<(nat, nat)>, dir: nat, i: nat)
    requires file.Keys == file'.Keys && Logged(file, log)
    requires forall i :: i in file ==>
               file'[i].host == file[i].host && file'[i].inode.kind == file[i].inode.kind
    ensures BookOf(file', log + [(dir, i)]) == BookOf(file, log).Name(NameOf(file, i))
  {
    var log' := log + [(dir, i)];
    assert log'[..|log'| - 1] == log;
    NamesStay(file, file', log);
  }

  // ----- The walk

  /** The target has one link more, in 16 bits, and no other file has. */
  ghost predicate OneLinkMore(file: Files, file': Files, target: nat) {
    forall i :: i in file && i in file' ==>
      file'[i].inode.nlinks
      == if i == target then (file[i].inode.nlinks + 1) % 0x1_0000 else file[i].inode.nlinks
  }

  lemma EntryAdded(file: Files, kept: Keeps, file1: Files, kept': Keeps, dir: nat, target: nat, b: nat, entry: Block)
    requires SameFiles(file, file1) && dir in kept && kept' == With(kept, dir, b, entry)
    requires target in file1
    ensures var file' := file1[target := OneMoreLink(file1[target])];
      file'.Keys == file.Keys && OneLinkMore(file, file', target) && Grew(file, kept, file', kept', dir)
      && kept'[dir].content == kept[dir].content + [entry]
  {
  }

  /** An entry for target at the end of directory dir. */
  method AddEntry(fs: Fs, dir: nat, target: nat, name: string) returns (ok: bool)
    requires fs.Valid() && dir in fs.file && target in fs.file && fs.file[dir].inode.kind == Dir && |name| <= 255
    modifies fs
    ensures ok ==> fs.Valid() && fs.searches == old(fs.searches) && fs.file.Keys == old(fs.file).Keys
    ensures ok ==> Grew(old(fs.file), old(fs.kept), fs.file, fs.kept, dir)
    ensures ok ==> dir in old(fs.kept) && dir in fs.kept
                   && fs.kept[dir].content == old(fs.kept)[dir].content + [Entry(target, Cut(name))]
    ensures ok ==> OneLinkMore(old(fs.file), fs.file, target)
    ensures ok ==> fs.log == old(fs.log) + [(dir, target)]
    ensures dir in old(fs.kept) && Appends(|old(fs.kept)[dir].content|, old(fs.unused), ok, fs.unused)
  {
    ghost var file0, kept0, b := fs.file, fs.kept, fs.nextIno;
    ok := fs.AddBlock(dir, Entry(target, Cut(name)), 256);
    if ok {
      EntryAdded(file0, kept0, fs.file, fs.kept, dir, target, b, Entry(target, Cut(name)));
      fs.CountLink(target, dir);
    }
  }

  /** One more block of data for file id. */
  method AddData(fs: Fs, id: nat, bytes: seq<int>) returns (ok: bool)
    requires fs.Valid() && id in fs.file
    modifies fs
    ensures ok ==> fs.Valid() && fs.searches == old(fs.searches) && SameFiles(old(fs.file), fs.file)
    ensures ok ==> fs.log == old(fs.log) && Grew(old(fs.file), old(fs.kept), fs.file, fs.kept, id)
    ensures ok ==> id in fs.kept && id in old(fs.kept)
                   && fs.kept[id].content == old(fs.kept)[id].content + [Data(bytes)]
    ensures id in old(fs.kept) && Appends(|old(fs.kept)[id].content|, old(fs.unused), ok, fs.unused)
  {
    ok := fs.AddBlock(id, Data(bytes), |bytes|);
  }

  /** File id has got the content of these reads, and nothing else has changed. */
  ghost predicate Copied(file0: Files, kept0: Keeps, file: Files, kept: Keeps, id: nat, parts: seq<seq<int>>) {
    Grew(file0, kept0, file, kept, id) && SameFiles(file0, file) && id in kept && kept[id].content == Chunks(parts)
  }

  lemma CopyMore(file0: Files, kept0: Keeps, file1: Files, kept1: Keeps, file2: Files, kept2: Keeps, id: nat,
                 parts: seq<seq<int>>, k: nat)
    requires k < |parts| && Copied(file0, kept0, file1, kept1, id, parts[..k])
    requires SameFiles(file1, file2) && Grew(file1, kept1, file2, kept2, id) && id in kept2
    requires kept2[id].content == kept1[id].content + [Data(parts[k])]
    ensures Copied(file0, kept0, file2, kept2, id, parts[..k + 1])
  {
    GrewTwice(file0, kept0, file1, kept1, id, file2, kept2, id);
    assert parts[..k + 1][..k] == parts[..k];
  }

  /** Read k, after the reads before it. */
  method AddPart(fs: Fs, id: nat, parts: seq<seq<int>>, k: nat, ghost file0: Files, ghost kept0: Keeps)
    returns (ok: bool)
    requires fs.Valid() && id in fs.file && k < |parts| && Copied(file0, kept0, fs.file, fs.kept, id, parts[..k])
    modifies fs
    ensures ok ==> fs.Valid() && fs.searches == old(fs.searches) && fs.log == old(fs.log)
    ensures ok ==> Copied(file0, kept0, fs.file, fs.kept, id, parts[..k + 1])
    ensures Appends(k, old(fs.unused), ok, fs.unused)
  {
    ghost var file1, kept1 := fs.file, fs.kept;
    ok := AddData(fs, id, parts[k]);
    if ok {
      CopyMore(file0, kept0, file1, kept1, fs.file, fs.kept, id, parts, k);
    }
  }

  /** The content of a file; only its last read may be short. */
  method OpenFile(fs: Fs, id: nat, parts: seq<seq<int>>) returns (ok: bool)
    requires fs.Valid() && id in fs.file && id in fs.kept && fs.kept[id].content == []
    modifies fs
    ensures ok ==> fs.Valid() && fs.searches == old(fs.searches) && fs.log == old(fs.log)
    ensures ok ==> Copied(old(fs.file), old(fs.kept), fs.file, fs.kept, id, parts)
    ensures ok <==> Whole(parts) && CostUpTo(|parts|) <= old(fs.unused)
    ensures ok ==> fs.unused == old(fs.unused) - CostUpTo(|parts|)
  {
    ghost var file0, kept0 := fs.file, fs.kept;
    ok := true;
    var k, last := 0, 4096;
    assert parts[..0] == [];
    while k < |parts|
      invariant 0 <= k <= |parts| && k <= 32768 && last == if k > 0 then |parts[k - 1]| else 4096
      invariant fs.Valid() && fs.searches == old(fs.searches) && fs.log == old(fs.log)
      invariant Copied(file0, kept0, fs.file, fs.kept, id, parts[..k])
      invariant Whole(parts[..k])
      invariant CostUpTo(k) <= old(fs.unused) && fs.unused == old(fs.unused) - CostUpTo(k)
    {
      if last != 4096 {
        return false;
      }
      ok := AddPart(fs, id, parts, k, file0, kept0);
      if !ok {
        CostGrows(k + 1, |parts|);
        return;
      }
      WholeMore(parts, k);
      last := |parts[k]|;
      k := k + 1;
    }
    assert parts[..k] == parts;
  }

  lemma GrewNew(file: Files, kept: Keeps, id: nat, f: CacheInode)
    requires id !in file
    ensures Grew(file, kept, file[id := f], kept[id := Kept([], [])], id)
  {
  }

  lemma BookNew(file: Files, log: seq<(nat, nat)>, id: nat, f: CacheInode)
    requires id !in file && Logged(file, log)
    ensures BookOf(file[id := f], log) == BookOf(file, log).See(f.host)
  {
    var file' := file[id := f];
    NamesStay(file, file', log);
    assert file'[id].host == f.host;
    forall x | x in BookOf(file, log).seen ensures x in BookOf(file', log).seen {
      var i :| i in file && file[i].host == x;
      assert file'[i].host == x;
    }
  }

  lemma NodeAdded(host: Host, home: nat, file: Files, kept: Keeps, log: seq<(nat, nat)>, id: nat, h: nat, kind: Kind,
                  open: set<nat>)
    requires 0 !in host && h in host && Fits(kind, host[h])
    requires Ids(host, file) && AllMirror(host, home, file, kept, open) && Linked(file, kept, log)
    requires id !in file && file.Keys == kept.Keys && (kind.Link? || forall i :: i in file ==> file[i].host != h)
    ensures var file', kept' := file[id := NewInode(h, kind)], kept[id := Kept([], [])];
      Ids(host, file') && AllMirror(host, home, file', kept', open + {id}) && Linked(file', kept', log)
      && Grew(file, kept, file', kept', id) && BookOf(file', log) == BookOf(file, log).See(h)
  {
    var file', kept' := file[id := NewInode(h, kind)], kept[id := Kept([], [])];
    IdsNew(host, file, id, h, kind);
    LinkedNew(file, kept, log, id, h, kind);
    GrewNew(file, kept, id, NewInode(h, kind));
    BookNew(file, log, id, NewInode(h, kind));
    AllStay(host, home, file, kept, file', kept', id, open, open + {id});
  }

  /** A new inode for host node h; its content is still to come. */
  method NewNode(fs: Fs, ghost host: Host, ghost home: nat, h: nat, kind: Kind, ghost open: set<nat>)
    returns (id: nat, ok: bool)
    requires Ok(host, home, fs, open) && h in host && Fits(kind, host[h])
    requires kind.Link? || forall i :: i in fs.file ==> fs.file[i].host != h
    modifies fs
    ensures ok ==> id !in old(fs.file) && id in fs.file && fs.file[id] == NewInode(h, kind)
    ensures ok ==> id in fs.kept && fs.kept[id].content == [] && fs.file.Keys == old(fs.file).Keys + {id}
    ensures ok ==> Ok(host, home, fs, open + {id}) && fs.searches == old(fs.searches)
    ensures ok ==> Grew(old(fs.file), old(fs.kept), fs.file, fs.kept, id)
    ensures Billed(Bill(1, BookOf(old(fs.file), old(fs.log)).See(h)), old(fs.unused), ok, fs.unused,
                   BookOf(fs.file, fs.log))
  {
    ghost var file0, kept0 := fs.file, fs.kept;
    id, ok := fs.AllocCacheInode(h, kind);
    if ok {
      NodeAdded(host, home, file0, kept0, fs.log, id, h, kind, open);
    }
  }

  lemma SameTargets(file: Files, kept: Keeps, file': Files, kept': Keeps, id: nat)
    requires Grew(file, kept, file', kept', id) && file.Keys == kept.Keys && id in file
    requires id in kept' && Targets(kept'[id].content) == Targets(kept[id].content)
    ensures forall i :: i in file ==> i in kept' && Targets(kept'[i].content) == Targets(kept[i].content)
  {
  }

  /** File id, new and empty in file1, has been filled in file2 and mirrors the host. */
  lemma Filled(host: Host, home: nat, file: Files, kept: Keeps, file1: Files, kept1: Keeps, file2: Files, kept2: Keeps,
               log: seq<(nat, nat)>, id: nat, open: set<nat>)
    requires Ids(host, file1) && AllMirror(host, home, file1, kept1, open + {id}) && Linked(file1, kept1, log)
    requires file1.Keys == kept1.Keys == kept2.Keys && SameFiles(file1, file2)
    requires Grew(file, kept, file1, kept1, id) && Grew(file1, kept1, file2, kept2, id) && id !in file
    requires id in file1 && id in file2 && kept1[id].content == [] && Targets(kept2[id].content) == []
    requires Mirrors(host, home, file2, kept2, id)
    ensures Ids(host, file2) && AllMirror(host, home, file2, kept2, open) && Linked(file2, kept2, log)
    ensures Grew(file, kept, file2, kept2, id) && BookOf(file2, log) == BookOf(file1, log)
  {
    GrewTwice(file, kept, file1, kept1, id, file2, kept2, id);
    SameBook(file1, file2, log);
    IdsStay(host, file1, kept1, file2, kept2, id);
    AllStay(host, home, file1, kept1, file2, kept2, id, open + {id}, open + {id});
    SameTargets(file1, kept1, file2, kept2, id);
    LinkedStays(file1, kept1, file2, kept2, log);
  }

  /** A new file with the content of the host's file h. */
  method CopyFile(fs: Fs, host: Host, ghost home: nat, h: nat, ghost open: set<nat>) returns (id: nat, ok: bool)
    requires Ok(host, home, fs, open) && h in host && host[h].HostFile?
    requires forall i :: i in fs.file ==> fs.file[i].host != h
    modifies fs
    ensures ok ==> id !in old(fs.file) && id in fs.file && fs.file[id].host == h && fs.searches == old(fs.searches)
    ensures ok ==> Ok(host, home, fs, open) && Grew(old(fs.file), old(fs.kept), fs.file, fs.kept, id)
    ensures Billed(FileBill(host[h].parts, h, BookOf(old(fs.file), old(fs.log))), old(fs.unused), ok, fs.unused,
                   BookOf(fs.file, fs.log))
  {
    ghost var file0, kept0 := fs.file, fs.kept;
    id, ok := NewNode(fs, host, home, h, File, open);
    if !ok {
      return;
    }
    ghost var file1, kept1 := fs.file, fs.kept;
    ok := OpenFile(fs, id, host[h].parts);
    if ok {
      NoTargets(host[h].parts);
      Filled(host, home, file0, kept0, file1, kept1, fs.file, fs.kept, fs.log, id, open);
    }
  }

  lemma LinkFilled(host: Host, home: nat, file: Files, kept: Keeps, file1: Files, kept1: Keeps, file2: Files,
                   kept2: Keeps,
                   log: seq<(nat, nat)>, id: nat, h: nat, open: set<nat>)
    requires Ids(host, file1) && AllMirror(host, home, file1, kept1, open + {id}) && Linked(file1, kept1, log)
    requires file1.Keys == kept1.Keys == kept2.Keys && SameFiles(file1, file2)
    requires Grew(file, kept, file1, kept1, id) && Grew(file1, kept1, file2, kept2, id) && id !in file && id != 1
    requires id in file1 && file1[id] == NewInode(h, Link) && kept1[id].content == []
    requires h in host && host[h].HostLink? && kept2[id].content == [Data(host[h].target)]
    ensures Ids(host, file2) && AllMirror(host, home, file2, kept2, open) && Linked(file2, kept2, log)
    ensures Grew(file, kept, file2, kept2, id) && BookOf(file2, log) == BookOf(file1, log)
  {
    assert Mirrors(host, home, file2, kept2, id);
    Filled(host, home, file, kept, file1, kept1, file2, kept2, log, id, open);
  }

  /** A new link with the target of the host's link h. */
  method CopyLink(fs: Fs, host: Host, ghost home: nat, h: nat, ghost open: set<nat>) returns (id: nat, ok: bool)
    requires Ok(host, home, fs, open) && h in host && host[h].HostLink?
    modifies fs
    ensures ok ==> id !in old(fs.file) && id in fs.file && fs.file[id].host == h && fs.searches == old(fs.searches)
    ensures ok ==> Ok(host, home, fs, open) && Grew(old(fs.file), old(fs.kept), fs.file, fs.kept, id)
    ensures Billed(LinkBill(host[h].target, h, BookOf(old(fs.file), old(fs.log))), old(fs.unused), ok, fs.unused,
                   BookOf(fs.file, fs.log))
  {
    ghost var file0, kept0, unused0, book0 := fs.file, fs.kept, fs.unused, BookOf(fs.file, fs.log);
    id, ok := NewNode(fs, host, home, h, Link, open);
    ghost var file1, kept1, unused1, book1, ok1 := fs.file, fs.kept, fs.unused, BookOf(fs.file, fs.log), ok;
    ok := ok && |host[h].target| < 4096;
    if ok {
      ok := AddData(fs, id, host[h].target);
      if ok {
        LinkFilled(host, home, file0, kept0, file1, kept1, fs.file, fs.kept, fs.log, id, h, open);
      }
    }
    BilledLink(host[h].target, h, book0, unused0, ok1, unused1, book1, ok, fs.unused, BookOf(fs.file, fs.log));
  }

  /** An entry, with the state of the walk kept. */
  method AddNamed(fs: Fs, ghost host: Host, ghost home: nat, cur: nat, id: nat, name: string, ghost open: set<nat>)
    returns (ok: bool)
    requires Ok(host, home, fs, open) && cur in open && cur in fs.file && fs.file[cur].inode.kind == Dir
    requires id in fs.file && |name| <= 255
    modifies fs
    ensures ok ==> Ok(host, home, fs, open) && Grew(old(fs.file), old(fs.kept), fs.file, fs.kept, cur)
    ensures ok ==> cur in old(fs.kept) && cur in fs.kept && fs.searches == old(fs.searches)
    ensures ok ==> fs.kept[cur].content == old(fs.kept)[cur].content + [Entry(id, Cut(name))]
    ensures ok ==> fs.file.Keys == old(fs.file).Keys
    ensures ok ==> BookOf(fs.file, fs.log) == BookOf(old(fs.file), old(fs.log)).Name(NameOf(old(fs.file), id))
    ensures cur in old(fs.kept) && Appends(|old(fs.kept)[cur].content|, old(fs.unused), ok, fs.unused)
  {
    ghost var file0, kept0, log0 := fs.file, fs.kept, fs.log;
    ok := AddEntry(fs, cur, id, name);
    if ok {
      IdsStay(host, file0, kept0, fs.file, fs.kept, cur);
      AllStay(host, home, file0, kept0, fs.file, fs.kept, cur, open, open);
      LinkedMore(file0, kept0, fs.file, fs.kept, log0, cur, id, Cut(name));
      BookMore(file0, fs.file, log0, cur, id);
    }
  }

  /** The entry for an item whose inode is there. */
  method Enter(fs: Fs, ghost host: Host, ghost home: nat, cur: nat, id: nat, item: Item, ghost open: set<nat>)
    returns (ok: bool)
    requires Ok(host, home, fs, open) && cur in open && cur in fs.file && fs.file[cur].inode.kind == Dir
    requires id in fs.file && fs.file[id].host == item.host && |item.name| <= 255 && item.host in host
    modifies fs
    ensures ok ==> Ok(host, home, fs, open) && Grew(old(fs.file), old(fs.kept), fs.file, fs.kept, cur)
    ensures ok ==> cur in old(fs.kept) && cur in fs.kept && fs.searches == old(fs.searches)
    ensures ok ==> Gained(fs.file, old(fs.kept)[cur].content, fs.kept[cur].content, item)
    ensures ok ==> fs.file.Keys == old(fs.file).Keys && fs.kept[cur].content[|fs.kept[cur].content| - 1].ino == id
    ensures ok ==> BookOf(fs.file, fs.log) == BookOf(old(fs.file), old(fs.log)).Name(ItemName(host, item))
    ensures cur in old(fs.kept) && Appends(|old(fs.kept)[cur].content|, old(fs.unused), ok, fs.unused)
  {
    NameIs(host, fs.file, id, item);
    ok := AddNamed(fs, host, home, cur, id, item.name, open);
  }

  /** The inode of the host's file h, which is copied if it has none. */
  method FindFile(fs: Fs, host: Host, ghost home: nat, h: nat, ghost open: set<nat>) returns (id: nat, ok: bool)
    requires Ok(host, home, fs, open) && h in host && host[h].HostFile?
    modifies fs
    ensures ok ==> id in fs.file && fs.file[id].host == h && fs.searches == old(fs.searches) && Ok(host, home, fs, open)
    ensures ok && id in old(fs.file) ==> fs.file == old(fs.file) && fs.kept == old(fs.kept)
    ensures ok && id !in old(fs.file) ==> Grew(old(fs.file), old(fs.kept), fs.file, fs.kept, id)
    ensures Billed(FileBill(host[h].parts, h, BookOf(old(fs.file), old(fs.log))), old(fs.unused), ok, fs.unused,
                   BookOf(fs.file, fs.log))
  {
    ok := true;
    id := fs.SearchCacheInode(h);
    if id == 0 {
      id, ok := CopyFile(fs, host, home, h, open);
    }
  }

  method AddFile(fs: Fs, host: Host, ghost home: nat, cur: nat, item: Item, ghost open: set<nat>) returns (ok: bool)
    requires Ok(host, home, fs, open) && cur in open && cur in fs.file && fs.file[cur].inode.kind == Dir
    requires item.host in host && host[item.host].HostFile? && |item.name| <= 255 && cur in fs.kept
    modifies fs
    ensures ok ==> Ok(host, home, fs, open) && Grew(old(fs.file), old(fs.kept), fs.file, fs.kept, cur)
    ensures ok ==> cur in fs.kept && fs.searches == old(fs.searches)
    ensures ok ==> Gained(fs.file, old(fs.kept)[cur].content, fs.kept[cur].content, item)
    ensures var bill := FileBill(host[item.host].parts, item.host, BookOf(old(fs.file), old(fs.log)));
      Billed(WithEntry(bill, |old(fs.kept)[cur].content|, multiset{item.host}), old(fs.unused), ok, fs.unused,
             BookOf(fs.file, fs.log))
  {
    ghost var file0, kept0, unused0, n := fs.file, fs.kept, fs.unused, |fs.kept[cur].content|;
    ghost var bill := FileBill(host[item.host].parts, item.host, BookOf(fs.file, fs.log));
    var id;
    id, ok := FindFile(fs, host, home, item.host, open);
    ghost var file1, kept1, unused1, book1, ok1 := fs.file, fs.kept, fs.unused, BookOf(fs.file, fs.log), ok;
    if ok {
      ok := Enter(fs, host, home, cur, id, item, open);
      if ok {
        GrewTwice(file0, kept0, file1, kept1, if id in file0 then cur else id, fs.file, fs.kept, cur);
      }
    }
    BilledEntry(bill, unused0, ok1, unused1, book1, n, multiset{item.host}, ok, fs.unused, BookOf(fs.file, fs.log));
  }

  method AddLink(fs: Fs, host: Host, ghost home: nat, cur: nat, item: Item, ghost open: set<nat>) returns (ok: bool)
    requires Ok(host, home, fs, open) && cur in open && cur in fs.file && fs.file[cur].inode.kind == Dir
    requires item.host in host && host[item.host].HostLink? && |item.name| <= 255 && cur in fs.kept
    modifies fs
    ensures ok ==> Ok(host, home, fs, open) && Grew(old(fs.file), old(fs.kept), fs.file, fs.kept, cur)
    ensures ok ==> cur in fs.kept && fs.searches == old(fs.searches)
    ensures ok ==> Gained(fs.file, old(fs.kept)[cur].content, fs.kept[cur].content, item)
    ensures var bill := LinkBill(host[item.host].target, item.host, BookOf(old(fs.file), old(fs.log)));
      Billed(WithEntry(bill, |old(fs.kept)[cur].content|, multiset{item.host}), old(fs.unused), ok, fs.unused,
             BookOf(fs.file, fs.log))
  {
    ghost var file0, kept0, unused0, n := fs.file, fs.kept, fs.unused, |fs.kept[cur].content|;
    ghost var bill := LinkBill(host[item.host].target, item.host, BookOf(fs.file, fs.log));
    var id;
    id, ok := CopyLink(fs, host, home, item.host, open);
    ghost var file1, kept1, unused1, book1, ok1 := fs.file, fs.kept, fs.unused, BookOf(fs.file, fs.log), ok;
    if ok {
      ok := Enter(fs, host, home, cur, id, item, open);
      if ok {
        GrewTwice(file0, kept0, file1, kept1, id, fs.file, fs.kept, cur);
      }
    }
    BilledEntry(bill, unused0, ok1, unused1, book1, n, multiset{item.host}, ok, fs.unused, BookOf(fs.file, fs.log));
  }

  /** Directory id, complete but for a name, gets one. */
  lemma Completed(host: Host, home: nat, file: Files, kept: Keeps, id: nat, cur: nat, open: set<nat>)
    requires Ids(host, file) && AllMirror(host, home, file, kept, open + {id}) && id in file && id != 1
    requires file[id].host in host && host[file[id].host].HostDir?
    requires DirStart(file, id, kept[id].content) && kept[id].content[1].ino == cur
    requires Lists(host, file, host[file[id].host].items, kept[id].content[2..]) && Named(kept, cur, id)
    ensures AllMirror(host, home, file, kept, open)
  {
    assert Mirrors(host, home, file, kept, id);
  }

  method AddDir(fs: Fs, host: Host, ghost home: nat, cur: nat, item: Item, ghost open: set<nat>) returns (ok: bool)
    requires Ok(host, home, fs, open) && cur in open && cur in fs.file && fs.file[cur].inode.kind == Dir
    requires cur in fs.kept && |fs.kept[cur].content| >= 2
    requires item.host in host && host[item.host].HostDir? && |item.name| <= 255
    modifies fs
    ensures ok ==> Ok(host, home, fs, open) && Grew(old(fs.file), old(fs.kept), fs.file, fs.kept, cur)
    ensures ok ==> cur in fs.kept && fs.searches == old(fs.searches)
    ensures ok ==> Gained(fs.file, old(fs.kept)[cur].content, fs.kept[cur].content, item)
    ensures ok ==> item.host !in BookOf(old(fs.file), old(fs.log)).seen
    ensures item.host !in BookOf(old(fs.file), old(fs.log)).seen ==>
      var bill := DirBill(1, ItemsBill(host, host[item.host].items, BookOf(old(fs.file), old(fs.log)).See(item.host)));
      Billed(WithEntry(bill, |old(fs.kept)[cur].content|, multiset{}), old(fs.unused), ok, fs.unused,
             BookOf(fs.file, fs.log))
    decreases Unseen(host, fs.file), 0
  {
    ghost var file0, kept0, unused0, n := fs.file, fs.kept, fs.unused, |fs.kept[cur].content|;
    ghost var book0 := BookOf(fs.file, fs.log);
    var id := fs.SearchCacheInode(item.host);
    if id != 0 {
      return false;
    }
    id, ok := NewNode(fs, host, home, item.host, Dir, open);
    ghost var file1, kept1, unused1, book1, ok1 := fs.file, fs.kept, fs.unused, BookOf(fs.file, fs.log), ok;
    if ok {
      UnseenShrinks(host, file0, kept0, file1, kept1, id);
      assert item.host in Unseen(host, file0) && item.host !in Unseen(host, file1);
      ok := OpenDir(fs, host, home, id, cur, host[item.host].items, open + {id});
    }
    ghost var file2, kept2, unused2, book2, ok2 := fs.file, fs.kept, fs.unused, BookOf(fs.file, fs.log), ok;
    if ok {
      GrewTwice(file0, kept0, file1, kept1, id, file2, kept2, id);
      ok := Enter(fs, host, home, cur, id, item, open + {id});
      if ok {
        GrewTwice(file0, kept0, file2, kept2, id, fs.file, fs.kept, cur);
        ListsStay(host, file2, fs.file, host[item.host].items, kept2[id].content[2..]);
        Completed(host, home, fs.file, fs.kept, id, cur, open);
      }
    }
    BilledDir(ItemsBill(host, host[item.host].items, book0.See(item.host)), item.host, book0, unused0,
              ok1, unused1, book1, ok2, unused2, book2, n, ok, fs.unused, BookOf(fs.file, fs.log));
  }

  /** One item of the directory cur: copied and entered, skipped, or the end of the program. */
  method AddItem(fs: Fs, host: Host, ghost home: nat, cur: nat, item: Item, ghost open: set<nat>) returns (ok: bool)
    requires Ok(host, home, fs, open) && cur in open && cur in fs.file && fs.file[cur].inode.kind == Dir
    requires cur in fs.kept && |fs.kept[cur].content| >= 2
    modifies fs
    ensures ok ==> Ok(host, home, fs, open) && Grew(old(fs.file), old(fs.kept), fs.file, fs.kept, cur)
    ensures ok ==> cur in fs.kept && fs.searches == old(fs.searches)
    ensures ok ==> if Skipped(host, item) then fs.kept[cur].content == old(fs.kept)[cur].content
                   else Allowed(host, item) && Gained(fs.file, old(fs.kept)[cur].content, fs.kept[cur].content, item)
    ensures var bill := ItemBill(host, item, BookOf(old(fs.file), old(fs.log)), |old(fs.kept)[cur].content|);
      Billed(bill, old(fs.unused), ok, fs.unused, BookOf(fs.file, fs.log))
    decreases Unseen(host, fs.file), 1
  {
    if Hidden(item.name) {
      return true;
    }
    if |item.name| > 255 || item.host !in host {
      return false;
    }
    match host[item.host]
    case HostLink(_) => ok := AddLink(fs, host, home, cur, item, open);
    case HostDir(_) => ok := AddDir(fs, host, home, cur, item, open);
    case HostFile(_) => ok := AddFile(fs, host, home, cur, item, open);
    case HostOther => ok := true;
    case HostRefused => ok := false;
  }

  /** Item k, after the items before it. */
  method AddNext(fs: Fs, host: Host, ghost home: nat, cur: nat, ghost parent: nat, items: seq<Item>, k: nat,
                 ghost open: set<nat>, ghost file0: Files, ghost kept0: Keeps, ghost book0: Book, ghost unused0: int)
    returns (ok: bool)
    requires Ok(host, home, fs, open) && cur in open && k < |items|
    requires Progress(host, file0, kept0, fs.file, fs.kept, cur, parent, items[..k])
    requires Billed(DirBill(0, ItemsBill(host, items[..k], book0)), unused0, true, fs.unused, BookOf(fs.file, fs.log))
    modifies fs
    ensures ok ==> Ok(host, home, fs, open) && fs.searches == old(fs.searches)
    ensures ok ==> Progress(host, file0, kept0, fs.file, fs.kept, cur, parent, items[..k + 1])
    ensures ok ==> Unseen(host, fs.file) <= Unseen(host, old(fs.file))
    ensures Billed(DirBill(0, ItemsBill(host, items[..k + 1], book0)), unused0, ok, fs.unused, BookOf(fs.file, fs.log))
    decreases Unseen(host, fs.file), 2
  {
    ghost var file1, kept1, unused1, book1 := fs.file, fs.kept, fs.unused, BookOf(fs.file, fs.log);
    ListsLength(host, file1, items[..k], kept1[cur].content[2..]);
    assert |kept1[cur].content| == 2 + Entries(host, items[..k]);
    ok := AddItem(fs, host, home, cur, items[k], open);
    BilledItem(host, items, book0, k, unused0, unused1, book1, ok, fs.unused, BookOf(fs.file, fs.log));
    if ok {
      OneMore(host, file0, kept0, file1, kept1, fs.file, fs.kept, cur, parent, items, k);
      UnseenShrinks(host, file1, kept1, fs.file, fs.kept, cur);
    }
  }

  /** All items, after the first two entries. */
  method AddAll(fs: Fs, host: Host, ghost home: nat, cur: nat, ghost parent: nat, items: seq<Item>,
                ghost open: set<nat>, ghost file0: Files, ghost kept0: Keeps, ghost book0: Book, ghost unused0: int)
    returns (ok: bool)
    requires Ok(host, home, fs, open) && cur in open
    requires Progress(host, file0, kept0, fs.file, fs.kept, cur, parent, [])
    requires Billed(DirBill(0, ItemsBill(host, [], book0)), unused0, true, fs.unused, BookOf(fs.file, fs.log))
    modifies fs
    ensures ok ==> Ok(host, home, fs, open) && fs.searches == old(fs.searches)
    ensures ok ==> Progress(host, file0, kept0, fs.file, fs.kept, cur, parent, items)
    ensures Billed(DirBill(0, ItemsBill(host, items, book0)), unused0, ok, fs.unused, BookOf(fs.file, fs.log))
    decreases Unseen(host, fs.file), 3
  {
    ghost var unseen := Unseen(host, fs.file);
    ok := true;
    var k := 0;
    assert items[..0] == [];
    while ok && k < |items|
      invariant 0 <= k <= |items|
      invariant Billed(DirBill(0, ItemsBill(host, items[..k], book0)), unused0, ok, fs.unused, BookOf(fs.file, fs.log))
      invariant ok ==> Ok(host, home, fs, open) && fs.searches == old(fs.searches)
      invariant ok ==> Progress(host, file0, kept0, fs.file, fs.kept, cur, parent, items[..k])
      invariant ok ==> Unseen(host, fs.file) <= unseen
    {
      ok := AddNext(fs, host, home, cur, parent, items, k, open, file0, kept0, book0, unused0);
      k := k + 1;
    }
    PrefixBill(host, items, book0, k);
    assert items[..|items|] == items;
  }

  /** The directory cur, empty so far, becomes a copy of the host's directory with these items. */
  method OpenDir(fs: Fs, host: Host, ghost home: nat, cur: nat, parent: nat, items: seq<Item>, ghost open: set<nat>)
    returns (ok: bool)
    requires Ok(host, home, fs, open) && cur in open && cur in fs.file && fs.file[cur].inode.kind == Dir
    requires parent in fs.file && fs.file[parent].inode.kind == Dir
    requires cur in fs.kept && fs.kept[cur].content == []
    modifies fs
    ensures ok ==> Ok(host, home, fs, open) && Grew(old(fs.file), old(fs.kept), fs.file, fs.kept, cur)
    ensures ok ==> cur in fs.kept && DirStart(fs.file, cur, fs.kept[cur].content) && fs.searches == old(fs.searches)
    ensures ok ==> fs.kept[cur].content[1].ino == parent && Lists(host, fs.file, items, fs.kept[cur].content[2..])
    ensures var bill := DirBill(0, ItemsBill(host, items, BookOf(old(fs.file), old(fs.log))));
      Billed(bill, old(fs.unused), ok, fs.unused, BookOf(fs.file, fs.log))
    decreases Unseen(host, fs.file), 4
  {
    ghost var file0, kept0, unused0, book0 := fs.file, fs.kept, fs.unused, BookOf(fs.file, fs.log);
    ok := AddDots(fs, host, home, cur, parent, open);
    if ok {
      NoneYet(host, file0, kept0, fs.file, fs.kept, cur, parent);
      UnseenShrinks(host, file0, kept0, fs.file, fs.kept, cur);
      ok := AddAll(fs, host, home, cur, parent, items, open, file0, kept0, book0, unused0);
    } else {
      PrefixBill(host, items, book0, 0);
    }
  }

  /** Directory cur has its first two entries and those of the items, and nothing else has changed. */
  ghost predicate Progress(host: Host, file0: Files, kept0: Keeps, file: Files, kept: Keeps, cur: nat, parent: nat,
                           items: seq<Item>) {
    Grew(file0, kept0, file, kept, cur) && cur in file && cur in kept
    && DirStart(file, cur, kept[cur].content) && kept[cur].content[1].ino == parent
    && Lists(host, file, items, kept[cur].content[2..]) && file[cur].inode.kind == Dir
  }

  lemma NoneYet(host: Host, file0: Files, kept0: Keeps, file: Files, kept: Keeps, cur: nat, parent: nat)
    requires Grew(file0, kept0, file, kept, cur) && cur in file && cur in kept && file[cur].inode.kind == Dir
    requires kept[cur].content == [Entry(cur, "."), Entry(parent, "..")]
    requires parent in file && file[parent].inode.kind == Dir
    ensures Progress(host, file0, kept0, file, kept, cur, parent, [])
  {
    assert kept[cur].content[2..] == [];
  }

  lemma OneMore(host: Host, file0: Files, kept0: Keeps, file: Files, kept: Keeps, file': Files, kept': Keeps,
                cur: nat, parent: nat, items: seq<Item>, k: nat)
    requires k < |items| && Progress(host, file0, kept0, file, kept, cur, parent, items[..k])
    requires file.Keys == kept.Keys && Grew(file, kept, file', kept', cur) && cur in kept'
    requires if Skipped(host, items[k]) then kept'[cur].content == kept[cur].content
             else Allowed(host, items[k]) && Gained(file', kept[cur].content, kept'[cur].content, items[k])
    ensures Progress(host, file0, kept0, file', kept', cur, parent, items[..k + 1])
  {
    GrewTwice(file0, kept0, file, kept, cur, file', kept', cur);
    ItemDone(host, file, file', items, k, kept[cur].content, kept'[cur].content);
    assert kept'[cur].content[..2] == kept[cur].content[..2];
    assert kept'[cur].content[0] == kept[cur].content[0] && kept'[cur].content[1] == kept[cur].content[1];
  }

  /** The entries for the directory itself and its parent. */
  method AddDots(fs: Fs, ghost host: Host, ghost home: nat, cur: nat, parent: nat, ghost open: set<nat>)
    returns (ok: bool)
    requires Ok(host, home, fs, open) && cur in open && cur in fs.file && fs.file[cur].inode.kind == Dir
    requires parent in fs.file && fs.file[parent].inode.kind == Dir
    requires cur in fs.kept && fs.kept[cur].content == []
    modifies fs
    ensures ok ==> Ok(host, home, fs, open) && Grew(old(fs.file), old(fs.kept), fs.file, fs.kept, cur)
    ensures ok ==> cur in fs.kept && fs.kept[cur].content == [Entry(cur, "."), Entry(parent, "..")]
    ensures ok ==> fs.searches == old(fs.searches)
    ensures Billed(Bill(2, BookOf(old(fs.file), old(fs.log))), old(fs.unused), ok, fs.unused, BookOf(fs.file, fs.log))
  {
    ghost var file0, kept0, unused0, book0 := fs.file, fs.kept, fs.unused, BookOf(fs.file, fs.log);
    ok := AddNamed(fs, host, home, cur, cur, ".", open);
    ghost var file1, kept1, unused1, ok1 := fs.file, fs.kept, fs.unused, ok;
    if ok {
      assert kept1[cur].content == [Entry(cur, ".")];
      ok := AddNamed(fs, host, home, cur, parent, "..", open);
      if ok {
        GrewTwice(file0, kept0, file1, kept1, cur, fs.file, fs.kept, cur);
      }
    }
    BilledDots(book0, unused0, ok1, unused1, ok, fs.unused, BookOf(fs.file, fs.log));
  }

  lemma ItemDone(host: Host, file: Files, file': Files, items: seq<Item>, k: nat, content: seq<Block>,
                 content': seq<Block>)
    requires k < |items| && 2 <= |content| && Lists(host, file, items[..k], content[2..])
    requires forall i :: i in file ==> i in file' && file'[i].host == file[i].host
    requires if Skipped(host, items[k]) then content' == content
             else Allowed(host, items[k]) && Gained(file', content, content', items[k])
    ensures 2 <= |content'| && content'[..2] == content[..2] && Lists(host, file', items[..k + 1], content'[2..])
  {
    assert items[..k + 1] == items[..k] + [items[k]];
    ListsStay(host, file, file', items[..k], content[2..]);
    if Skipped(host, items[k]) {
      ListsSame(host, file', items[..k], content[2..], items[k]);
    } else {
      var e := content'[|content'| - 1];
      assert content' == content + [e];
      assert content'[2..] == content[2..] + [e];
      ListsMore(host, file', items[..k], content[2..], items[k], e);
    }
  }

  function HomeBill(host: Host, home: nat): Bill
    requires home in host && host[home].HostDir?
  {
    DirBill(0, ItemsBill(host, host[home].items, Book({0}, multiset{})))
  }

  /** The directory home becomes the root of a new image. */
  method CopyHome(fs: Fs, host: Host, home: nat) returns (ok: bool)
    requires 0 !in host && home in host && host[home].HostDir? && fs.Valid() && fs.log == []
    requires fs.file == map[1 := NewInode(0, Dir)] && fs.kept == map[1 := Kept([], [])]
    modifies fs
    ensures ok ==> Ok(host, home, fs, {}) && fs.searches == old(fs.searches)
    ensures Billed(HomeBill(host, home), old(fs.unused), ok, fs.unused, BookOf(fs.file, fs.log))
  {
    assert BookOf(fs.file, fs.log) == Book({0}, multiset{}) by {
      assert fs.file[1].host == 0;
    }
    ok := OpenDir(fs, host, home, 1, 1, host[home].items, {1});
    if ok {
      assert Mirrors(host, home, fs.file, fs.kept, 1);
    }
  }

  /** How many names the host file h has in the tree below home. */
  function Names(host: Host, home: nat, h: nat): nat
    requires home in host && host[home].HostDir?
  {
    var bill := HomeBill(host, home);
    if bill.Fails? then 0 else bill.book.named[h]
  }

  /** The link count of every file is the number of its names in 16 bits. */
  ghost predicate CountsNames(host: Host, home: nat, file: Files)
    requires home in host && host[home].HostDir?
  {
    forall i :: i in file && file[i].inode.kind == File ==>
      var names, nlinks := Names(host, home, file[i].host), file[i].inode.nlinks;
      nlinks == names % 0x1_0000 && (nlinks == names <==> names < 0x1_0000)
  }

  lemma CountsAre(host: Host, home: nat, file: Files, kept: Keeps, log: seq<(nat, nat)>)
    requires home in host && host[home].HostDir? && 0 !in host && Ids(host, file) && Linked(file, kept, log)
    requires HomeBill(host, home).Bill? && BookOf(file, log) == HomeBill(host, home).book
    ensures CountsNames(host, home, file)
  {
    forall i | i in file && file[i].inode.kind == File
      ensures file[i].inode.nlinks == Names(host, home, file[i].host) % 0x1_0000
    {
      CountIs(host, home, file, kept, log, i);
    }
  }

  lemma CountIs(host: Host, home: nat, file: Files, kept: Keeps, log: seq<(nat, nat)>, i: nat)
    requires home in host && host[home].HostDir? && 0 !in host
    requires Ids(host, file) && Linked(file, kept, log) && i in file && file[i].inode.kind == File
    requires HomeBill(host, home).Bill? && BookOf(file, log) == HomeBill(host, home).book
    ensures file[i].inode.nlinks == Names(host, home, file[i].host) % 0x1_0000
  {
    NamesAreEntries(host, file, log, i);
  }

  /** The files and contents found on the disk mirror the host, and the link counts count entries in 16 bits. */
  ghost predicate ImageMirrors(host: Host, home: nat, disk: map<nat, Block>, file: Files, log: seq<(nat, nat)>) {
    var onDisk, contents := FilesOn(disk, file), ContentsOn(disk, file);
    Ids(host, onDisk) && AllMirror(host, home, onDisk, contents, {}) && Linked(onDisk, contents, log)
  }

  lemma ImageIs(host: Host, home: nat, disk: map<nat, Block>, file: Files, kept: Keeps, log: seq<(nat, nat)>,
                next: nat, ninos: nat)
    requires Closed(disk, file, kept, next, ninos) && file.Keys == kept.Keys
    requires Ids(host, file) && AllMirror(host, home, file, kept, {}) && Linked(file, kept, log)
    ensures ImageMirrors(host, home, disk, file, log)
  {
    ReadBack(disk, file, kept, next, ninos);
    MirrorsSame(host, home, file, kept, ContentsOn(disk, file));
    LinkedStays(file, kept, file, ContentsOn(disk, file), log);
  }

  // ----- The sizes

  ghost function Bytes(parts: seq<Part>): nat {
    if parts == [] then 0 else Bytes(parts[..|parts| - 1]) + |parts[|parts| - 1]|
  }

  /** A copy has the size in bytes of its file or link, and a directory 256 bytes for each entry. */
  ghost predicate SizeTells(host: Host, home: nat, file: Files, i: nat)
    requires i in file
  {
    var h, inode := if i == 1 then home else file[i].host, file[i].inode;
    h in host
    && match host[h]
       case HostFile(parts) => inode.size == Bytes(parts) && inode.blocks == |parts|
       case HostLink(target) => inode.size == |target| && inode.blocks == 1
       case HostDir(items) => inode.size == 256 * inode.blocks
       case HostOther => false
       case HostRefused => false
  }

  ghost predicate AllSized(host: Host, home: nat, file: Files) {
    forall i :: i in file ==> SizeTells(host, home, file, i)
  }

  lemma {:induction false} TotalOfChunks(parts: seq<Part>)
    ensures Total(Chunks(parts)) == Bytes(parts)
    decreases |parts|
  {
    if parts != [] {
      TotalOfChunks(parts[..|parts| - 1]);
      assert Chunks(parts)[..|parts| - 1] == Chunks(parts[..|parts| - 1]);
    }
  }

  lemma {:induction false} TotalOfEntries(content: seq<Block>)
    requires forall n :: 0 <= n < |content| ==> content[n].Entry?
    ensures Total(content) == 256 * |content|
    decreases |content|
  {
    if content != [] {
      TotalOfEntries(content[..|content| - 1]);
    }
  }

  lemma DirSized(file: Files, i: nat, content: seq<Block>)
    requires DirStart(file, i, content) && NoDots(content)
    ensures Total(content) == 256 * |content|
  {
    assert content[0].Entry? && content[1].Entry?;
    TotalOfEntries(content);
  }

  lemma MirrorSized(host: Host, home: nat, file: Files, kept: Keeps, i: nat)
    requires Ids(host, file) && 0 !in host && i in file && i in kept && Mirrors(host, home, file, kept, i)
    requires file[i].inode.blocks == |kept[i].content| && file[i].inode.size == Total(kept[i].content)
    ensures SizeTells(host, home, file, i)
  {
    var h, content := if i == 1 then home else file[i].host, kept[i].content;
    match host[h]
    case HostFile(parts) => TotalOfChunks(parts);
    case HostLink(target) => assert content[..0] == [];
    case HostDir(items) =>
      MirrorListed(host, home, file, kept, i);
      DirSized(file, i, content);
  }

  lemma ImageSized(host: Host, home: nat, disk: map<nat, Block>, file: Files, kept: Keeps, next: nat, ninos: nat)
    requires Closed(disk, file, kept, next, ninos) && Ids(host, file) && 0 !in host
    requires AllMirror(host, home, file, kept, {})
    ensures AllSized(host, home, FilesOn(disk, file))
  {
    ReadBack(disk, file, kept, next, ninos);
    forall i | i in file ensures SizeTells(host, home, file, i) {
      assert ClosedFile(disk, file, kept, i) && FilesOn(disk, file)[i].inode == disk[i].inode;
      MirrorSized(host, home, file, kept, i);
    }
  }

  /** Writing what is left once everything is copied. */
  method Finish(fs: Fs, ghost host: Host, ghost home: nat)
    requires Ok(host, home, fs, {}) && home in host && host[home].HostDir?
    requires HomeBill(host, home).Bill? && BookOf(fs.file, fs.log) == HomeBill(host, home).book
    modifies fs`disk
    ensures CountsNames(host, home, FilesOn(fs.disk, fs.file))
    ensures Closed(fs.disk, fs.file, fs.kept, fs.nextIno, fs.ninos)
    ensures ImageMirrors(host, home, fs.disk, fs.file, fs.log)
    ensures AllListed(host, home, FilesOn(fs.disk, fs.file), ContentsOn(fs.disk, fs.file))
    ensures AllSized(host, home, FilesOn(fs.disk, fs.file))
  {
    ghost var file, kept, log := fs.file, fs.kept, fs.log;
    fs.CloseSfs();
    ImageIs(host, home, fs.disk, file, kept, log, fs.nextIno, fs.ninos);
    CountsAre(host, home, file, kept, log);
    ImageSized(host, home, fs.disk, file, kept, fs.nextIno, fs.ninos);
    ReadBack(fs.disk, file, kept, fs.nextIno, fs.ninos);
    ImageListed(host, home, FilesOn(fs.disk, file), ContentsOn(fs.disk, file));
  }

  /** The image is large enough for its own map and for everything that hangs off the host's directory home. */
  ghost predicate Buildable(size: nat, host: Host, home: nat) {
    var ninos := BlocksOf(size);
    home in host && host[home].HostDir? && First(ninos) < ninos
    && var bill := HomeBill(host, home); bill.Bill? && bill.need <= ninos - First(ninos)
  }

  /**
   * The whole program: an image of size bytes for the host's directory home.  It ends without error exactly if
   * everything it meets can be copied and the image is large enough, and then what the closed image says when it
   * is read back, inode by inode and block by block, mirrors the host, each directory with one entry for each file,
   * link or directory in it whose name does not begin with a dot, and no other.  The link count of a file is the
   * number of its names if those are fewer than 65536.
   */
  method CreateImage(size: nat, host: Host, home: nat) returns (fs: Fs?, ok: bool)
    requires 0 !in host
    ensures ok <==> Buildable(size, host, home)
    ensures ok ==> fs != null && fs.searches == 0
    ensures ok ==> Closed(fs.disk, fs.file, fs.kept, fs.nextIno, fs.ninos)
    ensures ok ==> ImageMirrors(host, home, fs.disk, fs.file, fs.log)
    ensures ok ==> CountsNames(host, home, FilesOn(fs.disk, fs.file))
    ensures ok ==> AllListed(host, home, FilesOn(fs.disk, fs.file), ContentsOn(fs.disk, fs.file))
    ensures ok ==> AllSized(host, home, FilesOn(fs.disk, fs.file))
  {
    fs := CreateSfs(size);
    if fs == null || home !in host || !host[home].HostDir? {
      return fs, false;
    }
    ok := CopyHome(fs, host, home);
    if ok {
      Finish(fs, host, home);
    }
  }
}
