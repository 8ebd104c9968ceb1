/**
 * Two-level page tables kept in the memory they map (related_info/ostep/ostep5-paging-multilevel-translate.py).
 *
 * Physical memory is 128 pages of 32 bytes.  A process has a page that is its directory, with one byte for each
 * group of 32 virtual pages, and a page of table entries for each group that has a mapped page.  Directories,
 * tables and data lie in the same array.  The module proves that this array represents one map from virtual to
 * physical pages per process, that translation reads that map and nothing else, and that filling data pages and
 * allocating for other processes leaves it alone.
 */
module PageTable {

  // ----- Addresses

  /** The masks and shifts of an address are quotients and remainders. */
  lemma Masks(va: bv16)
    ensures (va & 0x7c00) >> 10 == (va / 1024) % 32
    ensures (va & 0x03e0) >> 5 == (va / 32) % 32
    ensures va & 0x1f == va % 32
  {
    assert va / 1024 == va >> 10 && va / 32 == va >> 5;
    assert (va >> 10) % 32 == (va >> 10) & 0x1f && (va >> 5) % 32 == (va >> 5) & 0x1f;
  }

  /** So are those of a directory or table entry, and setting the valid bit adds 128. */
  lemma EntryMasks(e: bv8, p: bv8)
    requires p < 128
    ensures (e & 0x80) >> 7 == e / 128 % 2 && e & 0x7f == e % 128
    ensures 0x80 | p == 128 + p && ((0x80 | p) & 0x80) >> 7 == 1 && (0x80 | p) & 0x7f == p
  {
    assert e / 128 == e >> 7 && e % 128 == e & 0x7f;
  }

  /** A page number and an offset, put together to an address. */
  lemma AddressMasks(page: bv16, offset: bv16)
    requires page < 128 && offset < 32
    ensures (page << 5) | offset == page * 32 + offset
  {
    assert page * 32 == page << 5;
    assert (page << 5) & offset == 0;
  }

  function PdeIndex(va: nat): nat { va / 1024 % 32 }

  function PteIndex(va: nat): nat { va / 32 % 32 }

  /** The virtual page of an address. */
  function Vpn(va: nat): nat { va / 32 % 1024 }

  /** Byte i of page p; also page i of group p. */
  function At(p: nat, i: nat): nat { p * 32 + i }

  // ----- What memory holds

  /** What a physical page is used for: a directory, the table of group g, or the data of virtual page v. */
  datatype Role = Dir(pid: nat) | Table(pid: nat, g: nat) | Data(pid: nat, v: nat)

  type Mapping = map<nat, nat>

  /** Some page of group g is mapped. */
  predicate Any(m: Mapping, g: nat) {
    exists i: nat :: i < 32 && At(g, i) in m
  }

  predicate Entry(b: nat, m: Mapping, v: nat) {
    b == if v in m then 128 + m[v] else 127
  }

  predicate TableOk(mem: seq<nat>, t: nat, m: Mapping, g: nat)
    requires |mem| == 4096 && t < 128
  {
    forall i: nat :: i < 32 ==> Entry(mem[At(t, i)], m, At(g, i))
  }

  ghost predicate GroupOk(mem: seq<nat>, d: nat, role: map<nat, Role>, pid: nat, m: Mapping, g: nat)
    requires |mem| == 4096 && d < 128 && g < 32
  {
    var e := mem[At(d, g)];
    if Any(m, g) then
      128 <= e < 256 && e - 128 in role && role[e - 128] == Table(pid, g) && TableOk(mem, e - 128, m, g)
    else e == 127
  }

  /** The directory in page d and its tables represent the mapping m. */
  ghost predicate ProcOk(mem: seq<nat>, d: nat, role: map<nat, Role>, pid: nat, m: Mapping)
    requires |mem| == 4096 && d < 128
  {
    d in role && role[d] == Dir(pid)
    && (forall v :: v in m ==> v < 1024 && m[v] < 128 && m[v] in role && role[m[v]] == Data(pid, v))
    && forall g: nat {:trigger GroupOk(mem, d, role, pid, m, g)} :: g < 32 ==> GroupOk(mem, d, role, pid, m, g)
  }

  ghost predicate AllOk(mem: seq<nat>, pdbr: map<nat, nat>, role: map<nat, Role>, maps: map<nat, Mapping>) {
    |mem| == 4096 && pdbr.Keys == maps.Keys
    && forall pid {:trigger pdbr[pid]} :: pid in pdbr ==>
         pdbr[pid] < 128 && ProcOk(mem, pdbr[pid], role, pid, maps[pid])
  }

  predicate SamePage(mem: seq<nat>, mem': seq<nat>, p: nat)
    requires |mem| == |mem'| == 4096 && p < 128
  {
    forall i: nat :: i < 32 ==> mem'[At(p, i)] == mem[At(p, i)]
  }

  ghost predicate Keeps(role: map<nat, Role>, role': map<nat, Role>) {
    forall p :: p in role ==> p in role' && role'[p] == role[p]
  }

  /** A process whose directory and tables are not written to keeps its mapping. */
  lemma ProcStays(mem: seq<nat>, mem': seq<nat>, d: nat, role: map<nat, Role>, role': map<nat, Role>, pid: nat,
                  m: Mapping)
    requires |mem| == |mem'| == 4096 && d < 128 && ProcOk(mem, d, role, pid, m) && Keeps(role, role')
    requires SamePage(mem, mem', d)
    requires forall p :: p in role && role[p].Table? && role[p].pid == pid && p < 128 ==> SamePage(mem, mem', p)
    ensures ProcOk(mem', d, role', pid, m)
  {
    forall g: nat | g < 32 ensures GroupOk(mem', d, role', pid, m, g) {
      assert GroupOk(mem, d, role, pid, m, g);
      assert mem'[At(d, g)] == mem[At(d, g)];
      if Any(m, g) {
        var t := mem[At(d, g)] - 128;
        assert SamePage(mem, mem', t);
        forall i: nat | i < 32 ensures Entry(mem'[At(t, i)], m, At(g, i)) {
          assert Entry(mem[At(t, i)], m, At(g, i));
        }
      }
    }
  }

  /** Writing one byte of page q leaves the other pages. */
  lemma OtherPages(mem: seq<nat>, q: nat, i: nat, b: nat, p: nat)
    requires |mem| == 4096 && q < 128 && i < 32 && p < 128 && p != q
    ensures SamePage(mem, mem[At(q, i) := b], p)
  {
  }

  /** What a virtual address translates to: -1 if no page of its group is mapped, -2 if only its own is not. */
  function Translation(m: Mapping, va: nat): int {
    if Vpn(va) in m then m[Vpn(va)] * 32 + va % 32
    else if Any(m, PdeIndex(va)) then -2
    else -1
  }

  /** Addresses of one page keep their distance. */
  lemma TranslationSteps(m: Mapping, va: nat, vb: nat)
    requires va / 32 == vb / 32 && Translation(m, va) >= 0
    ensures Translation(m, vb) - Translation(m, va) == vb - va
  {
    assert va == va / 32 * 32 + va % 32 && vb == vb / 32 * 32 + vb % 32;
    assert Vpn(va) == Vpn(vb);
  }

  /** What the two faults say: no page within the same 32 pages is mapped, or another one is, but not this. */
  lemma TranslationFaults(m: Mapping, va: nat)
    requires va < 32768 && forall v :: v in m ==> v < 1024
    ensures Translation(m, va) == -1 <==> forall v :: v in m ==> v / 32 != va / 1024
    ensures Translation(m, va) == -2 <==> va / 32 !in m && exists v :: v in m && v / 32 == va / 1024
    ensures Translation(m, va) >= 0 <==> va / 32 in m
  {
    VpnParts(va);
    assert Vpn(va) == va / 32 && PdeIndex(va) == va / 1024 == va / 32 / 32;
    if v :| v in m && v / 32 == va / 1024 {
      assert At(PdeIndex(va), v % 32) == v && v % 32 < 32;
    }
    if i: nat :| i < 32 && At(PdeIndex(va), i) in m {
      assert At(PdeIndex(va), i) / 32 == va / 1024;
    }
  }

  /** A mapped address is translated to one in the data page of its virtual page. */
  lemma TranslationInPage(mem: seq<nat>, d: nat, role: map<nat, Role>, pid: nat, m: Mapping, va: nat)
    requires |mem| == 4096 && d < 128 && ProcOk(mem, d, role, pid, m) && va < 32768 && Translation(m, va) >= 0
    ensures var pa := Translation(m, va);
      pa < 4096 && pa / 32 in role && role[pa / 32] == Data(pid, va / 32) && pa % 32 == va % 32
  {
    assert Vpn(va) in m && Vpn(va) == va / 32;
    var pp := m[Vpn(va)];
    assert (pp * 32 + va % 32) / 32 == pp;
  }

  /** Different mapped addresses, of one process or of two, never meet. */
  lemma TranslationsApart(mem: seq<nat>, pdbr: map<nat, nat>, role: map<nat, Role>, maps: map<nat, Mapping>, p: nat,
                          va: nat, q: nat, vb: nat)
    requires AllOk(mem, pdbr, role, maps) && p in maps && q in maps && va < 32768 && vb < 32768
    requires Translation(maps[p], va) == Translation(maps[q], vb) >= 0
    ensures p == q && va == vb
  {
    assert p in pdbr && q in pdbr && pdbr[p] < 128 && pdbr[q] < 128;
    TranslationInPage(mem, pdbr[p], role, p, maps[p], va);
    TranslationInPage(mem, pdbr[q], role, q, maps[q], vb);
    assert va == va / 32 * 32 + va % 32 && vb == vb / 32 * 32 + vb % 32;
  }

  lemma VpnParts(va: nat)
    ensures Vpn(va) == At(PdeIndex(va), PteIndex(va))
  {
    var q := va / 32;
    assert va / 1024 == q / 32;
    assert q == q / 32 * 32 + q % 32 && q / 32 == q / 32 / 32 * 32 + q / 32 % 32;
  }

  /** A table with a new entry for page v of its group. */
  lemma EntrySet(mem: seq<nat>, t: nat, m: Mapping, g: nat, i: nat, pp: nat)
    requires |mem| == 4096 && t < 128 && TableOk(mem, t, m, g) && i < 32 && pp < 128
    ensures TableOk(mem[At(t, i) := 128 + pp], t, m[At(g, i) := pp], g)
  {
  }

  /** Mapping page v of group g, whose table t has its entry for it. */
  lemma MappedOk(mem: seq<nat>, mem': seq<nat>, d: nat, role: map<nat, Role>, pid: nat, m: Mapping, g: nat, i: nat,
                 t: nat, pp: nat, role': map<nat, Role>)
    requires |mem| == |mem'| == 4096 && d < 128 && ProcOk(mem, d, role, pid, m) && Keeps(role, role')
    requires g < 32 && i < 32 && pp < 128 && pp in role' && role'[pp] == Data(pid, At(g, i))
    requires t < 128 && t in role' && role'[t] == Table(pid, g) && mem'[At(d, g)] == 128 + t
    requires TableOk(mem', t, m[At(g, i) := pp], g)
    requires forall h: nat :: h < 32 && h != g ==> mem'[At(d, h)] == mem[At(d, h)]
    requires forall p :: p in role && role[p].Table? && role[p].pid == pid && role[p].g != g && p < 128 ==>
               SamePage(mem, mem', p)
    ensures ProcOk(mem', d, role', pid, m[At(g, i) := pp])
  {
    var m' := m[At(g, i) := pp];
    assert Any(m', g);
    forall h: nat | h < 32 ensures GroupOk(mem', d, role', pid, m', h) {
      assert GroupOk(mem, d, role, pid, m, h);
      if h != g {
        OtherGroup(m, At(g, i), pp, g, h);
        if Any(m, h) {
          var u := mem[At(d, h)] - 128;
          assert SamePage(mem, mem', u);
          forall j: nat | j < 32 ensures Entry(mem'[At(u, j)], m', At(h, j)) {
            assert Entry(mem[At(u, j)], m, At(h, j));
          }
        }
      }
    }
  }

  lemma OtherGroup(m: Mapping, v: nat, pp: nat, g: nat, h: nat)
    requires g != h && v / 32 == g
    ensures Any(m[v := pp], h) <==> Any(m, h)
  {
    forall i: nat | i < 32 ensures At(h, i) in m[v := pp] <==> At(h, i) in m {
    }
  }

  /** Entry g of directory d names table t, and no page but these two has changed. */
  predicate TableSet(mem: seq<nat>, mem': seq<nat>, d: nat, g: nat, t: nat)
    requires |mem| == |mem'| == 4096 && d < 128 && g < 32
  {
    mem'[At(d, g)] == 128 + t
    && (forall h: nat :: h < 32 && h != g ==> mem'[At(d, h)] == mem[At(d, h)])
    && forall p: nat :: p < 128 && p != d && p != t ==> SamePage(mem, mem', p)
  }

  lemma TableMade(mem: seq<nat>, mem1: seq<nat>, mem': seq<nat>, d: nat, g: nat, t: nat)
    requires |mem| == |mem1| == |mem'| == 4096 && d < 128 && g < 32 && t < 128 && t != d
    requires mem1 == mem[At(d, g) := 128 + t] && forall p: nat :: p < 128 && p != t ==> SamePage(mem1, mem', p)
    ensures TableSet(mem, mem', d, g, t)
  {
    assert SamePage(mem1, mem', d);
    forall p: nat | p < 128 && p != d && p != t ensures SamePage(mem, mem', p) {
      OtherPages(mem, d, g, 128 + t, p);
      assert SamePage(mem1, mem', p);
    }
  }

  lemma EntryKeeps(mem: seq<nat>, mem1: seq<nat>, d: nat, g: nat, t: nat, i: nat, b: nat)
    requires |mem| == |mem1| == 4096 && d < 128 && g < 32 && t < 128 && t != d && i < 32
    requires TableSet(mem, mem1, d, g, t)
    ensures TableSet(mem, mem1[At(t, i) := b], d, g, t)
  {
    var mem' := mem1[At(t, i) := b];
    forall p: nat | p < 128 && p != d && p != t ensures SamePage(mem, mem', p) {
      assert SamePage(mem, mem1, p);
      OtherPages(mem1, t, i, b, p);
    }
  }

  lemma GroupOf(m: Mapping, va: nat)
    ensures Vpn(va) in m ==> Any(m, PdeIndex(va))
  {
    VpnParts(va);
  }

  lemma PageStart(vp: nat)
    requires vp < 1024
    ensures Vpn(vp * 32) == vp && PdeIndex(vp * 32) == vp / 32
  {
  }

  ghost function Remap(maps: map<nat, Mapping>, pid: nat, v: nat, pp: nat): map<nat, Mapping>
    requires pid in maps
  {
    var m: Mapping := maps[pid][v := pp];
    maps[pid := m]
  }

  /** A new mapping of one process keeps those of the others. */
  lemma MappedInAll(mem: seq<nat>, mem': seq<nat>, pdbr: map<nat, nat>, role: map<nat, Role>, role': map<nat, Role>,
                    maps: map<nat, Mapping>, pid: nat, g: nat, i: nat, t: nat, pp: nat)
    requires AllOk(mem, pdbr, role, maps) && |mem'| == 4096 && pid in pdbr && Keeps(role, role')
    requires g < 32 && i < 32 && pp in role' && pp < 128 && role'[pp] == Data(pid, At(g, i))
    requires t < 128 && t in role' && role'[t] == Table(pid, g) && pdbr[pid] < 128 && forall p :: p in role ==> p < 128
    requires TableOk(mem', t, maps[pid][At(g, i) := pp], g) && TableSet(mem, mem', pdbr[pid], g, t)
    ensures AllOk(mem', pdbr, role', Remap(maps, pid, At(g, i), pp))
  {
    var maps' := Remap(maps, pid, At(g, i), pp);
    assert ProcOk(mem, pdbr[pid], role, pid, maps[pid]);
    MappedOk(mem, mem', pdbr[pid], role, pid, maps[pid], g, i, t, pp, role');
    forall q | q in pdbr && q != pid ensures pdbr[q] < 128 && ProcOk(mem', pdbr[q], role', q, maps'[q]) {
      assert ProcOk(mem, pdbr[q], role, q, maps[q]);
      ProcStays(mem, mem', pdbr[q], role, role', q, maps[q]);
    }
  }

  /** Roles for more pages, and writes to pages without a directory or table, keep every mapping. */
  lemma AllStay(mem: seq<nat>, mem': seq<nat>, pdbr: map<nat, nat>, role: map<nat, Role>, role': map<nat, Role>,
                maps: map<nat, Mapping>)
    requires AllOk(mem, pdbr, role, maps) && |mem'| == 4096 && Keeps(role, role')
    requires forall p :: p in role && !role[p].Data? && p < 128 ==> SamePage(mem, mem', p)
    ensures AllOk(mem', pdbr, role', maps)
  {
    forall q | q in pdbr ensures pdbr[q] < 128 && ProcOk(mem', pdbr[q], role', q, maps[q]) {
      assert ProcOk(mem, pdbr[q], role, q, maps[q]);
      ProcStays(mem, mem', pdbr[q], role, role', q, maps[q]);
    }
  }

  lemma NewDirOk(mem: seq<nat>, mem': seq<nat>, pdbr: map<nat, nat>, role: map<nat, Role>, role': map<nat, Role>,
                 maps: map<nat, Mapping>, pid: nat, d: nat)
    requires AllOk(mem, pdbr, role, maps) && |mem'| == 4096 && d < 128 && d !in role && role' == role[d := Dir(pid)]
    requires forall i: nat :: i < 32 ==> mem'[At(d, i)] == 127
    requires forall p: nat :: p < 128 && p != d ==> SamePage(mem, mem', p)
    ensures AllOk(mem', pdbr[pid := d], role', maps[pid := map[]])
  {
    var pdbr', maps' := pdbr[pid := d], maps[pid := map[]];
    forall q | q in pdbr' ensures pdbr'[q] < 128 && ProcOk(mem', pdbr'[q], role', q, maps'[q]) {
      if q == pid {
        forall g: nat | g < 32 ensures GroupOk(mem', d, role', pid, map[], g) {
        }
      } else {
        assert ProcOk(mem, pdbr[q], role, q, maps[q]);
        ProcStays(mem, mem', pdbr[q], role, role', q, maps[q]);
      }
    }
  }

  // ----- Free pages

  function Used(s: seq<bool>): nat {
    if s == [] then 0 else Used(s[..|s| - 1]) + (if s[|s| - 1] then 1 else 0)
  }

  lemma {:induction false} SomeFree(s: seq<bool>)
    requires Used(s) < |s|
    ensures exists k :: 0 <= k < |s| && !s[k]
  {
    var n := |s| - 1;
    if s[n] {
      SomeFree(s[..n]);
      var k :| 0 <= k < n && !s[..n][k];
      assert !s[k];
    }
  }

  lemma {:induction false} UsedMore(s: seq<bool>, k: nat)
    requires k < |s| && !s[k]
    ensures Used(s[k := true]) == Used(s) + 1
  {
    var n := |s| - 1;
    if k == n {
      assert s[k := true][..n] == s[..n];
    } else {
      UsedMore(s[..n], k);
      assert s[k := true][..n] == s[..n][k := true];
    }
  }

  lemma {:induction false} NoneUsed(s: seq<bool>)
    requires forall k :: 0 <= k < |s| ==> !s[k]
    ensures Used(s) == 0
  {
    if s != [] {
      NoneUsed(s[..|s| - 1]);
    }
  }

  /** The pages chosen so far are those marked, and those mapped. */
  ghost predicate Picked(vps: seq<nat>, used: seq<bool>, m: Mapping) {
    |used| == 1024 && Used(used) == |vps| == |m|
    && (forall v :: v in m <==> v in vps) && forall v: nat :: v in vps <==> v < 1024 && used[v]
  }

  lemma PickedMore(vps: seq<nat>, used: seq<bool>, m: Mapping, vp: nat, pp: nat)
    requires Picked(vps, used, m) && vp < 1024 && !used[vp]
    ensures vp !in m && Picked(vps + [vp], used[vp := true], m[vp := pp])
  {
    UsedMore(used, vp);
  }

  class OS {
    const memory: array<nat>
    var usedPages: seq<bool>
    var usedPagesCount: nat
    var pdbr: map<nat, nat>
    ghost var role: map<nat, Role>
    ghost var maps: map<nat, Mapping>

    /** Exactly the used pages have a role. */
    ghost predicate PagesOk()
      reads this`usedPages, this`usedPagesCount, this`role
    {
      |usedPages| == 128 && usedPagesCount == Used(usedPages)
      && forall p: nat :: p in role <==> p < 128 && usedPages[p]
    }

    ghost predicate Valid()
      reads this, memory
    {
      memory.Length == 4096 && PagesOk() && AllOk(memory[..], pdbr, role, maps)
    }

    constructor ()
      ensures Valid() && pdbr == map[] && maps == map[] && usedPagesCount == 0 && fresh(memory)
      ensures forall a :: 0 <= a < memory.Length ==> memory[a] == 0
    {
      memory := new nat[4096](_ => 0);
      usedPages, usedPagesCount, pdbr := seq(128, _ => false), 0, map[];
      role, maps := map[], map[];
      new;
      NoneUsed(usedPages);
    }

    /** Any free page, taken for the role r; none if all are used. */
    method FindFree(ghost r: Role) returns (look: nat, ok: bool)
      requires PagesOk()
      modifies this`usedPages, this`usedPagesCount, this`role
      ensures ok <==> old(usedPagesCount) < 128
      ensures usedPagesCount == old(usedPagesCount) + (if ok then 1 else 0)
      ensures ok ==> PagesOk()
      ensures ok ==> look < 128 && look !in old(role) && role == old(role)[look := r]
    {
      look, ok := 0, usedPagesCount < 128;
      if ok {
        SomeFree(usedPages);
        look :| 0 <= look < 128 && !usedPages[look];
        UsedMore(usedPages, look);
        usedPagesCount := usedPagesCount + 1;
        usedPages := usedPages[look := true];
        role := role[look := r];
      }
    }

    /** A page of invalid entries, for a directory or a table. */
    method InitPage(whichPage: nat)
      requires memory.Length == 4096 && whichPage < 128
      modifies memory
      ensures forall i: nat :: i < 32 ==> memory[..][At(whichPage, i)] == 127
      ensures forall p: nat :: p < 128 && p != whichPage ==> SamePage(old(memory[..]), memory[..], p)
    {
      var i := 0;
      while i < 32
        invariant 0 <= i <= 32
        invariant forall j: nat :: j < i ==> memory[At(whichPage, j)] == 127
        invariant forall b: nat :: b < 4096 && b / 32 != whichPage ==> memory[b] == old(memory[b])
      {
        memory[At(whichPage, i)] := 127;
        i := i + 1;
      }
      forall p: nat, j: nat | p < 128 && p != whichPage && j < 32
        ensures memory[..][At(p, j)] == old(memory[..])[At(p, j)]
      {
        assert At(p, j) / 32 == p;
      }
    }

    /** The directory entry for an address: whether it is valid, the page it names, and where it is. */
    method GetPageDirEntry(pid: nat, va: nat) returns (valid: bool, ptPtr: nat, pdeAddr: nat)
      requires Valid() && pid in pdbr
      ensures pdeAddr == At(pdbr[pid], PdeIndex(va)) < 4096
      ensures valid <==> Any(maps[pid], PdeIndex(va))
      ensures valid ==> memory[pdeAddr] == 128 + ptPtr && ptPtr < 128 && ptPtr in role
                        && role[ptPtr] == Table(pid, PdeIndex(va))
                        && TableOk(memory[..], ptPtr, maps[pid], PdeIndex(va))
      ensures !valid ==> ptPtr == 127
    {
      assert ProcOk(memory[..], pdbr[pid], role, pid, maps[pid]);
      assert GroupOk(memory[..], pdbr[pid], role, pid, maps[pid], PdeIndex(va));
      pdeAddr := At(pdbr[pid], PdeIndex(va));
      var pde := memory[pdeAddr];
      valid, ptPtr := pde / 128 % 2 == 1, pde % 128;
    }

    method GetPageTableEntry(va: nat, ptePage: nat, ghost m: Mapping) returns (valid: bool, pfn: nat, pteAddr: nat)
      requires memory.Length == 4096 && ptePage < 128 && TableOk(memory[..], ptePage, m, PdeIndex(va))
      requires forall v :: v in m ==> m[v] < 128
      ensures pteAddr == At(ptePage, PteIndex(va)) < 4096
      ensures valid <==> Vpn(va) in m
      ensures pfn == if Vpn(va) in m then m[Vpn(va)] else 127
    {
      VpnParts(va);
      pteAddr := At(ptePage, PteIndex(va));
      var pte := memory[pteAddr];
      assert Entry(memory[..][pteAddr], m, Vpn(va));
      valid, pfn := pte / 128 % 2 == 1, pte % 128;
    }

    /** What the hardware does: it sees the mapping, whatever else memory holds. */
    method Translate(pid: nat, virtualAddr: nat) returns (paddr: int)
      requires Valid() && pid in pdbr
      ensures pid in maps && paddr == Translation(maps[pid], virtualAddr)
    {
      var valid, ptPtr, addr := GetPageDirEntry(pid, virtualAddr);
      GroupOf(maps[pid], virtualAddr);
      assert ProcOk(memory[..], pdbr[pid], role, pid, maps[pid]);
      if valid {
        var pfn;
        valid, pfn, addr := GetPageTableEntry(virtualAddr, ptPtr, maps[pid]);
        if valid {
          return pfn * 32 + virtualAddr % 32;
        }
        return -2;
      }
      return -1;
    }

    /** A table for a group that has none so far. */
    method NewTable(pid: nat, va: nat, pdeAddr: nat, ghost mem: seq<nat>, ghost d: nat) returns (ptePage: nat, ok: bool)
      requires memory.Length == 4096 && mem == memory[..] && PagesOk() && d in role && d < 128
      requires pdeAddr == At(d, PdeIndex(va))
      modifies memory, this`usedPages, this`usedPagesCount, this`role
      ensures ok <==> old(usedPagesCount) < 128
      ensures usedPagesCount == old(usedPagesCount) + (if ok then 1 else 0)
      ensures ok ==> PagesOk() && ptePage < 128 && ptePage !in old(role)
                     && role == old(role)[ptePage := Table(pid, PdeIndex(va))]
      ensures ok ==> TableSet(mem, memory[..], d, PdeIndex(va), ptePage)
      ensures ok ==> forall i: nat :: i < 32 ==> memory[..][At(ptePage, i)] == 127
    {
      ptePage, ok := FindFree(Table(pid, PdeIndex(va)));
      if ok {
        ghost var entry: nat := 128 + ptePage;
        memory[pdeAddr] := 128 + ptePage;
        assert memory[..] == mem[pdeAddr := entry];
        InitPage(ptePage);
        TableMade(mem, mem[pdeAddr := entry], memory[..], d, PdeIndex(va), ptePage);
      }
    }

    /** The table for an address, which is allocated if its group has none. */
    method TableFor(pid: nat, va: nat) returns (ptePage: nat, ok: bool)
      requires Valid() && pid in pdbr
      modifies memory, this`usedPages, this`usedPagesCount, this`role
      ensures ok <==> old(usedPagesCount) < 128 || Any(maps[pid], PdeIndex(va))
      ensures old(usedPagesCount) <= usedPagesCount <= old(usedPagesCount) + (if ok then 1 else 0)
      ensures ok ==> PagesOk() && Keeps(old(role), role) && pdbr[pid] < 128
      ensures ok ==> ptePage < 128 && ptePage in role && role[ptePage] == Table(pid, PdeIndex(va))
      ensures ok ==> TableOk(memory[..], ptePage, maps[pid], PdeIndex(va))
      ensures ok ==> TableSet(old(memory[..]), memory[..], pdbr[pid], PdeIndex(va), ptePage)
    {
      ghost var mem, d := memory[..], pdbr[pid];
      assert ProcOk(mem, d, role, pid, maps[pid]);
      var valid, ptPtr, pdeAddr := GetPageDirEntry(pid, va);
      ptePage, ok := ptPtr, true;
      if !valid {
        assert ptPtr == 127;
        ptePage, ok := NewTable(pid, va, pdeAddr, mem, d);
      }
    }

    /** Mapping one virtual page, not mapped so far, to a data page. */
    method AllocVirtualPage(pid: nat, virtualPage: nat, physicalPage: nat) returns (ok: bool)
      requires Valid() && pid in pdbr && virtualPage < 1024 && pid in maps && virtualPage !in maps[pid]
      requires physicalPage in role && role[physicalPage] == Data(pid, virtualPage)
      modifies memory, this`usedPages, this`usedPagesCount, this`role, this`maps
      ensures ok <==> old(usedPagesCount) < 128 || Any(old(maps)[pid], virtualPage / 32)
      ensures old(usedPagesCount) <= usedPagesCount <= old(usedPagesCount) + (if ok then 1 else 0)
      ensures ok ==> Valid() && Keeps(old(role), role)
      ensures ok ==> maps == Remap(old(maps), pid, virtualPage, physicalPage)
    {
      var virtualAddr := virtualPage * 32;
      PageStart(virtualPage);
      ghost var mem, role0, d := memory[..], role, pdbr[pid];
      assert ProcOk(mem, d, role, pid, maps[pid]);
      var ptePage;
      ptePage, ok := TableFor(pid, virtualAddr);
      if ok {
        SetEntry(pid, virtualAddr, ptePage, physicalPage, mem, role0);
      }
    }

    /** The entry for an address in the table its directory entry names. */
    method SetEntry(pid: nat, va: nat, ptePage: nat, physicalPage: nat, ghost mem: seq<nat>, ghost role0: map<nat,
                    Role>)
      requires memory.Length == 4096 && PagesOk() && AllOk(mem, pdbr, role0, maps) && Keeps(role0, role)
      requires pid in pdbr && pdbr[pid] < 128 && ptePage < 128 && Vpn(va) !in maps[pid]
      requires pdbr[pid] in role0 && role0[pdbr[pid]] == Dir(pid)
      requires ptePage in role && role[ptePage] == Table(pid, PdeIndex(va))
      requires physicalPage in role && role[physicalPage] == Data(pid, Vpn(va))
      requires TableOk(memory[..], ptePage, maps[pid], PdeIndex(va))
      requires TableSet(mem, memory[..], pdbr[pid], PdeIndex(va), ptePage)
      requires forall v :: v in maps[pid] ==> maps[pid][v] < 128
      modifies memory, this`maps
      ensures Valid() && maps == Remap(old(maps), pid, Vpn(va), physicalPage)
    {
      VpnParts(va);
      var valid, pfn, pteAddr := GetPageTableEntry(va, ptePage, maps[pid]);
      assert !valid && pfn == 127;
      ghost var g, i, mem1 := PdeIndex(va), PteIndex(va), memory[..];
      EntrySet(mem1, ptePage, maps[pid], g, i, physicalPage);
      EntryKeeps(mem, mem1, pdbr[pid], g, ptePage, i, 128 + physicalPage);
      memory[pteAddr] := 128 + physicalPage;
      ghost var entry: nat := 128 + physicalPage;
      assert memory[..] == mem1[At(ptePage, i) := entry];
      MappedInAll(mem, memory[..], pdbr, role0, role, maps, pid, g, i, ptePage, physicalPage);
      maps := Remap(maps, pid, Vpn(va), physicalPage);
    }

    /** Arbitrary contents for a data page. */
    method FillPage(whichPage: nat, values: seq<nat>)
      requires Valid() && whichPage in role && role[whichPage].Data? && |values| == 32
      modifies memory
      ensures Valid()
    {
      ghost var mem := memory[..];
      var j := 0;
      while j < 32
        invariant 0 <= j <= 32
        invariant forall b: nat :: b < 4096 && b / 32 != whichPage ==> memory[b] == mem[b]
      {
        memory[whichPage * 32 + j] := values[j];
        j := j + 1;
      }
      forall p: nat, i: nat | p < 128 && p != whichPage && i < 32 ensures memory[..][At(p, i)] == mem[At(p, i)] {
        assert At(p, i) / 32 == p;
      }
      AllStay(mem, memory[..], pdbr, role, role, maps);
    }

    /** A directory for process pid, with nothing mapped. */
    method NewProcess(pid: nat) returns (ok: bool)
      requires Valid()
      modifies memory, this`usedPages, this`usedPagesCount, this`role, this`pdbr, this`maps
      ensures ok <==> old(usedPagesCount) < 128
      ensures usedPagesCount == old(usedPagesCount) + (if ok then 1 else 0)
      ensures ok ==> Valid() && pid in pdbr && pdbr == old(pdbr)[pid := pdbr[pid]] && maps == old(maps)[pid := map[]]
    {
      ghost var mem, role0, pdbr0, maps0 := memory[..], role, pdbr, maps;
      var pageDir;
      pageDir, ok := FindFree(Dir(pid));
      if ok {
        pdbr := pdbr[pid := pageDir];
        maps := maps[pid := map[]];
        InitPage(pageDir);
        NewDirOk(mem, memory[..], pdbr0, role0, role, maps0, pid, pageDir);
      }
    }

    /** One more virtual page for process pid, with any free page behind it. */
    method MapPage(pid: nat, vp: nat, values: seq<nat>) returns (ok: bool, pp: nat)
      requires Valid() && pid in pdbr && vp < 1024 && pid in maps && vp !in maps[pid] && |values| == 32
      modifies memory, this`usedPages, this`usedPagesCount, this`role, this`maps
      ensures ok ==> Valid() && maps == Remap(old(maps), pid, vp, pp)
      ensures ok ==> old(usedPagesCount) + 1 <= usedPagesCount <= old(usedPagesCount) + 2
      ensures !ok ==> usedPagesCount >= 128 && usedPagesCount <= old(usedPagesCount) + 1
    {
      ghost var role0 := role;
      pp, ok := FindFree(Data(pid, vp));
      if !ok {
        return;
      }
      AllStay(memory[..], memory[..], pdbr, role0, role, maps);
      ok := AllocVirtualPage(pid, vp, pp);
      if ok {
        FillPage(pp, values);
      }
    }

    /**
     * A process with numPages pages at virtual addresses that the choices decide; it fails only when every page
     * of memory is in use, and never if more than two pages are left for each page asked for.  No other process's
     * mapping changes.
     */
    method ProcAlloc(pid: nat, numPages: nat, values: seq<nat>) returns (allocatedVPs: seq<nat>, ok: bool)
      requires Valid() && numPages <= 1024 && |values| == 32
      modifies memory, this`usedPages, this`usedPagesCount, this`role, this`pdbr, this`maps
      ensures ok ==> Valid() && pid in pdbr && |allocatedVPs| == numPages && |maps[pid]| == numPages
      ensures ok ==> forall v :: v in maps[pid] <==> v in allocatedVPs
      ensures ok ==> old(usedPagesCount) + 1 + numPages <= usedPagesCount <= old(usedPagesCount) + 1 + 2 * numPages
      ensures !ok ==> 128 <= usedPagesCount <= old(usedPagesCount) + 2 * numPages
      ensures ok ==> forall q :: q in old(maps) && q != pid ==>
                q in maps && maps[q] == old(maps)[q] && pdbr[q] == old(pdbr)[q]
    {
      ghost var maps0, pdbr0 := maps, pdbr;
      assert AllOk(memory[..], pdbr, role, maps);
      ok := NewProcess(pid);
      allocatedVPs := [];
      if ok {
        allocatedVPs, ok := AllocPages(pid, numPages, values);
        assert ok ==> AllOk(memory[..], pdbr, role, maps);
      }
    }

    /** The pages of a process that has none yet. */
    method AllocPages(pid: nat, numPages: nat, values: seq<nat>) returns (allocatedVPs: seq<nat>, ok: bool)
      requires Valid() && numPages <= 1024 && |values| == 32 && pid in pdbr && pid in maps && maps[pid] == map[]
      modifies memory, this`usedPages, this`usedPagesCount, this`role, this`maps
      ensures ok ==> Valid() && pid in maps && |allocatedVPs| == numPages && |maps[pid]| == numPages
      ensures ok ==> forall v :: v in maps[pid] <==> v in allocatedVPs
      ensures ok ==> old(usedPagesCount) + numPages <= usedPagesCount <= old(usedPagesCount) + 2 * numPages
      ensures !ok ==> 128 <= usedPagesCount <= old(usedPagesCount) + 2 * numPages - 1
      ensures ok ==> forall q :: q in old(maps) && q != pid ==> q in maps && maps[q] == old(maps)[q]
    {
      ghost var maps0, count0 := maps, usedPagesCount;
      var used := seq(1024, _ => false);
      NoneUsed(used);
      allocatedVPs, ok := [], true;
      while ok && |allocatedVPs| < numPages
        invariant |allocatedVPs| <= numPages
        invariant ok ==> Valid() && pid in maps && Picked(allocatedVPs, used, maps[pid])
        invariant ok ==> count0 + |allocatedVPs| <= usedPagesCount <= count0 + 2 * |allocatedVPs|
        invariant !ok ==> 128 <= usedPagesCount <= count0 + 2 * |allocatedVPs| - 1
        invariant ok ==> forall q :: q in maps0 && q != pid ==> q in maps && maps[q] == maps0[q]
        decreases numPages - |allocatedVPs|
      {
        allocatedVPs, used, ok := AllocOne(pid, allocatedVPs, used, values);
      }
    }

    /** Any virtual page not chosen so far, mapped. */
    method AllocOne(pid: nat, vps: seq<nat>, used: seq<bool>, values: seq<nat>)
      returns (vps': seq<nat>, used': seq<bool>, ok: bool)
      requires Valid() && pid in pdbr && pid in maps && |values| == 32
      requires Picked(vps, used, maps[pid]) && |vps| < 1024
      modifies memory, this`usedPages, this`usedPagesCount, this`role, this`maps
      ensures |vps'| == |vps| + 1
      ensures ok ==> old(usedPagesCount) + 1 <= usedPagesCount <= old(usedPagesCount) + 2
      ensures !ok ==> 128 <= usedPagesCount <= old(usedPagesCount) + 1
      ensures ok ==> Valid() && pid in maps && Picked(vps', used', maps[pid])
      ensures ok ==> forall q :: q in old(maps) && q != pid ==> q in maps && maps[q] == old(maps)[q]
    {
      SomeFree(used);
      var vp: nat :| vp < 1024 && !used[vp];
      ghost var m := maps[pid];
      PickedMore(vps, used, m, vp, 0);
      used', vps' := used[vp := true], vps + [vp];
      var pp;
      ok, pp := MapPage(pid, vp, values);
      PickedMore(vps, used, m, vp, pp);
    }
  }
}
