/**
 * Where the widths of the image builder's numbers show (labcodes/lab8/tools/mksfs.c): images of so many bytes that
 * the number of blocks leaves 32 bits, and files with so many names that their number leaves 16 bits.
 */
module ImageLimits {
  import opened Mksfs
  import opened ImageTree

  // ----- An image that is too large

  /** The cap holds for large images up to where the number of blocks wraps around, and now and then behind. */
  lemma BlocksCapped(size: nat)
    ensures BlocksOf(size) == (if size / 4096 > 524288 then 524288 else size / 4096)
        <==> size / 4096 < 0x1_0000_0000 || size / 4096 % 0x1_0000_0000 >= 524288
  {
  }

  /** An image of 16 TiB counts as one of no blocks, so that nothing can be built in it. */
  lemma HugeImage(host: Host, home: nat)
    ensures BlocksOf(0x1000_0000_0000) == 0 && !Buildable(0x1000_0000_0000, host, home)
  {
  }

  // ----- A file with too many names

  /** Names of four characters, all different. */
  function ShortName(k: nat): string {
    var c := (d: nat) => 'A' + (d % 16) as char;
    [c(k / 16 / 16 / 16), c(k / 16 / 16), c(k / 16), c(k)]
  }

  lemma SameQuotient(j: nat, k: nat)
    requires j % 16 == k % 16 && j / 16 == k / 16
    ensures j == k
  {
  }

  lemma ShortNamesDiffer(j: nat, k: nat)
    requires j < 65536 && k < 65536 && ShortName(j) == ShortName(k)
    ensures j == k
  {
    var a, b := ShortName(j), ShortName(k);
    assert a[0] == b[0] && a[1] == b[1] && a[2] == b[2] && a[3] == b[3];
    SameQuotient(j / 16 / 16 / 16, k / 16 / 16 / 16);
    SameQuotient(j / 16 / 16, k / 16 / 16);
    SameQuotient(j / 16, k / 16);
    SameQuotient(j, k);
  }

  /** n names for one node. */
  function Aliases(n: nat, h: nat): (r: seq<Item>)
    ensures |r| == n
  {
    seq(n, k requires 0 <= k => Item(ShortName(k), h))
  }

  /** An empty file, node 2, with one name in the home directory, node 1, and 65535 in three directories below. */
  function ManyNames(): Host {
    map[1 := HostDir([Item("file", 2), Item("a", 3), Item("b", 4), Item("c", 5)]), 2 := HostFile([]),
        3 := HostDir(Aliases(32766, 2)), 4 := HostDir(Aliases(32766, 2)), 5 := HostDir(Aliases(3, 2))]
  }

  /** The blocks for n entries of a directory that has its first two. */
  function EntryCost(n: nat): nat {
    if n == 0 then 0 else EntryCost(n - 1) + Cost(n + 1)
  }

  lemma {:induction false} EntryCostBound(n: nat)
    ensures EntryCost(n) <= 3 * n
  {
    if n > 0 {
      EntryCostBound(n - 1);
    }
  }

  /** Names of a file that has an inode already cost their entries only. */
  lemma {:induction false} AliasesBill(host: Host, n: nat, h: nat, book: Book)
    requires n <= 32766 && h in host && host[h].HostFile? && h in book.seen
    ensures Entries(host, Aliases(n, h)) == n
    ensures ItemsBill(host, Aliases(n, h), book)
         == Bill(EntryCost(n), book.Name(multiset{}[h := n]))
  {
    if n > 0 {
      var m := n - 1;
      assert Aliases(n, h)[..m] == Aliases(m, h);
      AliasesBill(host, m, h, book);
      var named := multiset{}[h := m];
      assert named + multiset{h} == multiset{}[h := n];
      assert book.Name(named).Name(multiset{h}) == book.Name(multiset{}[h := n]);
    } else {
      assert book.Name(multiset{}[h := n]) == book;
    }
  }

  lemma ItemsMore(host: Host, items: seq<Item>, item: Item, book: Book, bill: Bill, last: Bill)
    requires bill == ItemsBill(host, items, book) && bill.Bill? && last.Bill? && !Skipped(host, item)
    requires last == ItemBill(host, item, bill.book, 2 + Entries(host, items))
    ensures ItemsBill(host, items + [item], book) == Bill(bill.need + last.need, last.book)
    ensures Entries(host, items + [item]) == Entries(host, items) + 1
  {
    assert (items + [item])[..|items|] == items;
  }

  /** A directory of names for a file that has an inode, in a directory of k blocks. */
  lemma AliasDir(host: Host, item: Item, h: nat, n: nat, book: Book, k: nat)
    requires item.host in host && host[item.host] == HostDir(Aliases(n, h)) && n <= 32766
    requires h in host && host[h].HostFile? && h in book.seen && item.host !in book.seen
    requires 2 <= k < 12 && !Hidden(item.name) && |item.name| <= 255
    ensures ItemBill(host, item, book, k)
         == Bill(4 + EntryCost(n), book.See(item.host).Name(multiset{}[h := n]).Name(multiset{}))
  {
    AliasesBill(host, n, h, book.See(item.host));
  }

  /** One more such directory behind these items, all of which get entries. */
  lemma OneMoreDir(host: Host, items: seq<Item>, item: Item, h: nat, n: nat, book: Book, need: nat, after: Book)
    requires ItemsBill(host, items, book) == Bill(need, after) && Entries(host, items) == |items| <= 8
    requires item.host in host && host[item.host] == HostDir(Aliases(n, h)) && n <= 32766
    requires h in host && host[h].HostFile? && h in after.seen && item.host !in after.seen
    requires !Hidden(item.name) && |item.name| <= 255
    ensures Entries(host, items + [item]) == |items| + 1
    ensures ItemsBill(host, items + [item], book)
         == Bill(need + 4 + EntryCost(n), after.See(item.host).Name(multiset{}[h := n]).Name(multiset{}))
  {
    AliasDir(host, item, h, n, after, 2 + |items|);
    ItemsMore(host, items, item, book, Bill(need, after),
              Bill(4 + EntryCost(n), after.See(item.host).Name(multiset{}[h := n]).Name(multiset{})));
  }

  lemma FirstFile(host: Host, item: Item, book: Book)
    requires item.host in host && host[item.host] == HostFile([]) && item.host !in book.seen
    requires !Hidden(item.name) && |item.name| <= 255
    ensures ItemsBill(host, [item], book) == Bill(2, book.See(item.host).Name(multiset{item.host}))
    ensures Entries(host, [item]) == 1
  {
    var last := Bill(2, book.See(item.host).Name(multiset{item.host}));
    assert ItemBill(host, item, book, 2) == last;
    ItemsMore(host, [], item, book, Bill(0, book), last);
    assert [] + [item] == [item];
  }

  lemma ThreeDirs(host: Host, f: Item, a: Item, b: Item, c: Item, n: nat, m: nat) returns (after: Book)
    requires f.host != 0 && f.host in host && host[f.host] == HostFile([]) && n <= 32766 && m <= 32766
    requires forall d :: d in {a, b, c} ==> d.host in host && d.host != 0 && host[d.host].HostDir?
    requires a.host != b.host && b.host != c.host && c.host != a.host
    requires host[a.host].items == host[b.host].items == Aliases(n, f.host) && host[c.host].items == Aliases(m, f.host)
    requires forall d :: d in {f, a, b, c} ==> !Hidden(d.name) && |d.name| <= 255
    ensures ItemsBill(host, [f, a, b, c], Book({0}, multiset{}))
         == Bill(14 + 2 * EntryCost(n) + EntryCost(m), after)
    ensures after.named[f.host] == 1 + 2 * n + m
  {
    var book, h := Book({0}, multiset{}), f.host;
    FirstFile(host, f, book);
    var book1 := book.See(h).Name(multiset{h});
    OneMoreDir(host, [f], a, h, n, book, 2, book1);
    assert [f] + [a] == [f, a];
    var book2 := book1.See(a.host).Name(multiset{}[h := n]).Name(multiset{});
    OneMoreDir(host, [f, a], b, h, n, book, 6 + EntryCost(n), book2);
    assert [f, a] + [b] == [f, a, b];
    var book3 := book2.See(b.host).Name(multiset{}[h := n]).Name(multiset{});
    OneMoreDir(host, [f, a, b], c, h, m, book, 10 + 2 * EntryCost(n), book3);
    assert [f, a, b] + [c] == [f, a, b, c];
    after := book3.See(c.host).Name(multiset{}[h := m]).Name(multiset{});
  }

  lemma NodesOf(host: Host)
    requires host == ManyNames()
    ensures host.Keys == {1, 2, 3, 4, 5} && host[2] == HostFile([])
    ensures host[1] == HostDir([Item("file", 2), Item("a", 3), Item("b", 4), Item("c", 5)])
    ensures host[3] == host[4] == HostDir(Aliases(32766, 2)) && host[5] == HostDir(Aliases(3, 2))
  {
  }

  lemma {:induction false} TreeFits(host: Host, f: Item, a: Item, b: Item, c: Item, n: nat, m: nat)
    requires 1 in host && host[1] == HostDir([f, a, b, c])
    requires f.host != 0 && f.host in host && host[f.host] == HostFile([]) && n <= 32766 && m <= 32766
    requires forall d :: d in {a, b, c} ==> d.host in host && d.host != 0 && host[d.host].HostDir?
    requires a.host != b.host && b.host != c.host && c.host != a.host
    requires host[a.host].items == host[b.host].items == Aliases(n, f.host) && host[c.host].items == Aliases(m, f.host)
    requires forall d :: d in {f, a, b, c} ==> !Hidden(d.name) && |d.name| <= 255
    ensures Buildable(0x8000_0000, host, 1) && Names(host, 1, f.host) == 1 + 2 * n + m
  {
    var after := ThreeDirs(host, f, a, b, c, n, m);
    EntryCostBound(n);
    EntryCostBound(m);
    assert HomeBill(host, 1) == Bill(16 + 2 * EntryCost(n) + EntryCost(m), after.Name(multiset{}));
  }

  /** The tree with 65536 names for one file fits an image of 2 GB; the count that is written for the file is 0. */
  lemma ManyNamesFit(host: Host)
    requires host == ManyNames()
    ensures Buildable(0x8000_0000, host, 1) && Names(host, 1, 2) == 65536
  {
    NodesOf(host);
    TreeFits(host, Item("file", 2), Item("a", 3), Item("b", 4), Item("c", 5), 32766, 3);
  }

  // ----- What ends the program

  /** A home directory with one item. */
  function OneItem(name: string, node: Node): Host {
    map[1 := HostDir([Item(name, 2)]), 2 := node]
  }

  lemma OneItemBill(name: string, node: Node)
    ensures var last := ItemBill(OneItem(name, node), Item(name, 2), Book({0}, multiset{}), 2);
      HomeBill(OneItem(name, node), 1) == if last.Fails? then Fails else Bill(2 + last.need, last.book)
  {
    var host, item, book := OneItem(name, node), Item(name, 2), Book({0}, multiset{});
    assert [item][..0] == [];
    assert ItemsBill(host, [], book) == Bill(0, book) && Entries(host, []) == 0;
    var last := ItemBill(host, item, book, 2);
    assert ItemsBill(host, [item], book) == if last.Fails? then Fails else Bill(0 + last.need, last.book);
  }

  /** Names may have 255 characters, unless they are not looked at. */
  lemma NameLimit(name: string)
    ensures Buildable(0x8000_0000, OneItem(name, HostFile([])), 1)
       <==> (name != "" && name[0] == '.') || |name| <= 255
  {
    OneItemBill(name, HostFile([]));
  }

  /** Targets of links are shorter than a block. */
  lemma LinkLimit(target: seq<int>)
    ensures Buildable(0x8000_0000, OneItem("a", HostLink(target)), 1) <==> |target| < 4096
  {
    OneItemBill("a", HostLink(target));
  }

  /** Only the last read of a file may be short. */
  lemma ReadLimit(a: Part, b: Part)
    ensures Buildable(0x8000_0000, OneItem("a", HostFile([a, b])), 1) <==> |a| == 4096
  {
    OneItemBill("a", HostFile([a, b]));
    assert [a, b][0] == a;
    assert CostUpTo(2) == 2;
  }

  lemma {:induction false} CostBound(n: nat)
    ensures CostUpTo(n) <= 3 * n
  {
    if n > 0 {
      CostBound(n - 1);
    }
  }

  /** A file may have 32768 blocks. */
  lemma FileLimit(parts: seq<Part>)
    requires forall k :: 0 <= k < |parts| ==> |parts[k]| == 4096
    ensures Buildable(0x8000_0000, OneItem("a", HostFile(parts)), 1) <==> |parts| <= 32768
  {
    OneItemBill("a", HostFile(parts));
    CostBound(|parts|);
  }

  /** An item that cannot be opened ends the program, one of another kind that can be does not. */
  lemma OpenLimit(node: Node)
    requires node.HostOther? || node.HostRefused?
    ensures Buildable(0x8000_0000, OneItem("a", node), 1) <==> node.HostOther?
  {
    OneItemBill("a", node);
  }
}
