/**
 * Where a RAID puts its blocks (related_info/ostep/ostep16-raid.py): striping, mirroring, a parity disk, and
 * rotated parity in the left-symmetric layout.
 *
 * Every mapping is a bijection, parity never shares a disk with the data it protects, a write is cut at stripe
 * boundaries into exactly the blocks asked for and their parity, and all of that parity can be computed from
 * what is read and written.  The choice between the two ways of computing parity compares block counts that are right
 * for chunks of one block only; the module says exactly when the choice is the cheaper one.
 */
module Raid {

  import opened Quotients

  // ----- Mappings

  /** The shape of an array: blocks per chunk, disks, and the RAID level. */
  datatype Shape = Shape(chunk: nat, disks: nat, level: nat) {
    predicate Ok() {
      chunk >= 1 && (level == 0 || level == 1 || level == 4 || level == 5)
      && disks >= (if level == 0 then 1 else 2) && (level == 1 ==> disks % 2 == 0)
    }

    /** The number of columns that data is spread over. */
    function Columns(): nat
      requires Ok()
    {
      if level == 0 then disks else if level == 1 then disks / 2 else disks - 1
    }

    function BlocksInStripe(): nat
      requires Ok()
    {
      Columns() * chunk
    }
  }

  datatype Place = Place(disk: int, off: int)

  function Bmap0(s: Shape, b: nat): Place
    requires s.Ok() && s.level == 0
  {
    var cnum, coff := b / s.chunk, b % s.chunk;
    Place(cnum % s.disks, (cnum / s.disks) * s.chunk + coff)
  }

  /** The first of the two copies; the second is at the same offset of the next disk. */
  function Bmap1(s: Shape, b: nat): Place
    requires s.Ok() && s.level == 1
  {
    var cnum, coff := b / s.chunk, b % s.chunk;
    var pairs := s.disks / 2;
    Place(2 * (cnum % pairs), (cnum / pairs) * s.chunk + coff)
  }

  function Bmap4(s: Shape, b: nat): Place
    requires s.Ok() && s.level == 4
  {
    var cnum, coff := b / s.chunk, b % s.chunk;
    Place(cnum % (s.disks - 1), (cnum / (s.disks - 1)) * s.chunk + coff)
  }

  /** The place of a block and the disk of its parity. */
  function Both5(s: Shape, b: nat): (Place, int)
    requires s.Ok() && s.level == 5
  {
    var cnum, coff := b / s.chunk, b % s.chunk;
    var ddsk := cnum / (s.disks - 1);
    var doff := ddsk * s.chunk + coff;
    var disk := cnum % (s.disks - 1);
    var col := ddsk % s.disks;
    var pdsk := (s.disks - 1) - col;
    (Place((disk - col) % s.disks, doff), pdsk)
  }

  function Bmap(s: Shape, b: nat): Place
    requires s.Ok()
  {
    if s.level == 0 then Bmap0(s, b) else if s.level == 1 then Bmap1(s, b)
    else if s.level == 4 then Bmap4(s, b) else Both5(s, b).0
  }

  /** The parity disk of a stripe. */
  function Pmap(s: Shape, stripe: nat): int
    requires s.Ok() && s.level >= 4
  {
    if s.level == 4 then s.disks - 1 else Both5(s, stripe * s.BlocksInStripe()).1
  }

  /** The column of a place in its stripe; the last column is the parity's. */
  function Column(s: Shape, at: Place): int
    requires s.Ok()
  {
    if s.level == 1 then at.disk / 2
    else if s.level == 5 then (at.disk + (at.off / s.chunk) % s.disks) % s.disks
    else at.disk
  }

  /** The block at a place. */
  function Unmap(s: Shape, at: Place): int
    requires s.Ok()
  {
    ((at.off / s.chunk) * s.Columns() + Column(s, at)) * s.chunk + at.off % s.chunk
  }

  /** A place that holds data; with mirroring, the first copy. */
  predicate Holds(s: Shape, at: Place)
    requires s.Ok()
  {
    at.off >= 0 && 0 <= at.disk < s.disks && (s.level == 1 ==> at.disk % 2 == 0)
    && (s.level >= 4 ==> Column(s, at) != s.disks - 1)
  }

  /** Turning a column by the row and back. */
  lemma Turned(c: int, col: int, n: int)
    requires 0 <= c < n && 0 <= col < n
    ensures ((c - col) % n + col) % n == c
    ensures (c - col) % n == if c >= col then c - col else c - col + n
  {
    if c >= col {
      Divided(0, c - col, n);
      Divided(0, c, n);
    } else {
      Divided(-1, c - col + n, n);
      Divided(1, c, n);
    }
  }

  lemma TurnedBack(d: int, col: int, n: int)
    requires 0 <= d < n && 0 <= col < n
    ensures ((d + col) % n - col) % n == d && 0 <= (d + col) % n < n
    ensures (d + col) % n == if d + col < n then d + col else d + col - n
  {
    if d + col < n {
      Divided(0, d + col, n);
      Divided(0, d, n);
    } else {
      Divided(1, d + col - n, n);
      Divided(-1, d, n);
    }
  }

  /** Row, column and offset of a block, in every layout. */
  lemma Where(s: Shape, b: nat)
    requires s.Ok()
    ensures var at := Bmap(s, b); var row := b / s.chunk / s.Columns();
      row >= 0 && 0 <= b / s.chunk % s.Columns() < s.Columns()
      && at.off == row * s.chunk + b % s.chunk && at.off >= 0
      && at.off / s.chunk == row && at.off % s.chunk == b % s.chunk
      && Column(s, at) == b / s.chunk % s.Columns() && 0 <= at.disk < s.disks
  {
    var c, k := s.chunk, s.Columns();
    Split(b, c);
    Split(b / c, k);
    var row, col := b / c / k, b / c % k;
    Divided(row, b % c, c);
    assert row * c >= 0;
    if s.level == 5 {
      Split(row, s.disks);
      Turned(col, row % s.disks, s.disks);
    }
  }

  /** A block is found again at its place, so no two blocks share one. */
  lemma UnmapsBmap(s: Shape, b: nat)
    requires s.Ok()
    ensures Holds(s, Bmap(s, b)) && Unmap(s, Bmap(s, b)) == b
  {
    Where(s, b);
    Split(b, s.chunk);
    Split(b / s.chunk, s.Columns());
  }

  /** Every place that is not a copy or parity holds a block. */
  lemma BmapsUnmap(s: Shape, at: Place)
    requires s.Ok() && Holds(s, at)
    ensures Unmap(s, at) >= 0 && Bmap(s, Unmap(s, at)) == at
  {
    var c, k := s.chunk, s.Columns();
    Split(at.off, c);
    var row, col := at.off / c, Column(s, at);
    if s.level == 5 {
      Split(row, s.disks);
      TurnedBack(at.disk, row % s.disks, s.disks);
    }
    assert 0 <= col < k;
    Divided(row * k + col, at.off % c, c);
    Divided(row, col, k);
    assert row * k >= 0 && (row * k + col) * c >= 0;
  }

  // ----- Stripes

  predicate InStripe(s: Shape, stripe: nat, v: nat)
    requires s.Ok()
  {
    stripe * s.BlocksInStripe() <= v < stripe * s.BlocksInStripe() + s.BlocksInStripe()
  }

  lemma StripeSize(s: Shape)
    requires s.Ok()
    ensures s.BlocksInStripe() >= s.chunk && s.BlocksInStripe() >= s.Columns() >= 1
  {
    ProductAtLeast(s.Columns(), s.chunk);
  }

  /** The row of a block is its stripe. */
  lemma RowIsStripe(s: Shape, stripe: nat, v: nat)
    requires s.Ok() && InStripe(s, stripe, v)
    ensures v / s.chunk / s.Columns() == stripe && v / s.BlocksInStripe() == stripe
  {
    StripeSize(s);
    Divided(stripe, v - stripe * s.BlocksInStripe(), s.BlocksInStripe());
    Nested(v, s.chunk, s.Columns());
  }

  lemma StripeOf(s: Shape, v: nat)
    requires s.Ok()
    ensures s.BlocksInStripe() > 0 && v / s.BlocksInStripe() >= 0 && InStripe(s, v / s.BlocksInStripe(), v)
  {
    StripeSize(s);
    Split(v, s.BlocksInStripe());
  }

  /** The parity of stripe st is in the last column of each of its rows. */
  lemma ParityColumn(s: Shape, st: nat)
    requires s.Ok() && s.level >= 4
    ensures 0 <= Pmap(s, st) < s.disks
    ensures s.level == 5 ==> Pmap(s, st) == s.disks - 1 - st % s.disks
    ensures forall off: int :: off >= 0 && off / s.chunk == st ==> Column(s, Place(Pmap(s, st), off)) == s.disks - 1
  {
    Split(st, s.disks);
    if s.level == 5 {
      StripeSize(s);
      assert st * s.BlocksInStripe() >= 0;
      RowIsStripe(s, st, st * s.BlocksInStripe());
      Divided(0, s.disks - 1, s.disks);
    }
  }

  /** Block o of chunk c of a row: the chunks of a row lie on one disk after the other, the first one on the first disk,
      or with rotated parity on the disk behind the row's parity disk, around from the last disk to the first. */
  lemma ChunksInTurn(s: Shape, row: nat, c: nat, o: nat)
    requires s.Ok() && c < s.Columns() && o < s.chunk
    ensures var b := (row * s.Columns() + c) * s.chunk + o;
      b >= 0 && Bmap(s, b).off == row * s.chunk + o
      && Bmap(s, b).disk ==
         if s.level == 1 then 2 * c
         else if s.level == 5 then (Pmap(s, row) + 1 + c) % s.disks
         else c
  {
    var k, n := s.Columns(), s.disks;
    var cnum := row * k + c;
    assert row * k >= 0 && cnum * s.chunk >= 0;
    Divided(cnum, o, s.chunk);
    Divided(row, c, k);
    if s.level == 5 {
      ParityColumn(s, row);
      Split(row, n);
      var t := row % n;
      Turned(c, t, n);
      if c >= t {
        Divided(1, c - t, n);
      } else {
        Divided(0, c - t + n, n);
      }
    }
  }

  /** Every block of an array with parity is either one block's data or its own stripe's parity, never both. */
  lemma DataOrParity(s: Shape, at: Place)
    requires s.Ok() && s.level >= 4 && at.off >= 0 && 0 <= at.disk < s.disks
    ensures at.off / s.chunk >= 0
    ensures Holds(s, at) <==> at.disk != Pmap(s, at.off / s.chunk)
  {
    Split(at.off, s.chunk);
    var row := at.off / s.chunk;
    ParityColumn(s, row);
    Split(row, s.disks);
    if s.level == 5 {
      TurnedBack(at.disk, row % s.disks, s.disks);
      TurnedBack(Pmap(s, row), row % s.disks, s.disks);
    }
  }

  /** A block's parity is on another disk. */
  lemma ParityApart(s: Shape, stripe: nat, v: nat)
    requires s.Ok() && s.level >= 4 && InStripe(s, stripe, v)
    ensures Bmap(s, v).disk != Pmap(s, stripe)
  {
    Where(s, v);
    RowIsStripe(s, stripe, v);
    UnmapsBmap(s, v);
    DataOrParity(s, Bmap(s, v));
  }

  // ----- The requests to the disks

  datatype Io = Read(at: Place) | Write(at: Place)

  /** How a layout numbers its blocks. */
  type Numbering = nat -> Place

  function Layout(s: Shape): Numbering
    requires s.Ok()
  {
    (b: nat) => Bmap(s, b)
  }

  function Reads(m: Numbering, b: nat, e: nat): seq<Io>
    decreases e - b
  {
    if b >= e then [] else Reads(m, b, e - 1) + [Read(m(e - 1))]
  }

  function Writes(m: Numbering, b: nat, e: nat): seq<Io>
    decreases e - b
  {
    if b >= e then [] else Writes(m, b, e - 1) + [Write(m(e - 1))]
  }

  /** The offsets of the blocks from b up to e, each once, in the order of their first use. */
  function Offs(m: Numbering, b: nat, e: nat): seq<int>
    decreases e - b
  {
    if b >= e then []
    else
      var offs, off := Offs(m, b, e - 1), m(e - 1).off;
      if off in offs then offs else offs + [off]
  }

  function ReadAll(disk: int, offs: seq<int>): (r: seq<Io>)
    ensures |r| == |offs|
  {
    seq(|offs|, i requires 0 <= i < |offs| => Read(Place(disk, offs[i])))
  }

  function WriteAll(disk: int, offs: seq<int>): (r: seq<Io>)
    ensures |r| == |offs|
  {
    seq(|offs|, i requires 0 <= i < |offs| => Write(Place(disk, offs[i])))
  }

  /** A stripe: its first block, its length and the disk of its parity. */
  datatype Stripe = Stripe(first: nat, size: nat, parity: int)

  function StripeAt(s: Shape, n: nat): Stripe
    requires s.Ok() && s.level >= 4
  {
    Stripe(Product(n, s.BlocksInStripe()), s.BlocksInStripe(), Pmap(s, n))
  }

  function Product(x: nat, y: nat): nat {
    assert x * y >= 0;
    x * y
  }

  /** Reading what the new blocks replace, and the old parity. */
  function Subtractive(m: Numbering, st: Stripe, b: nat, e: nat): seq<Io> {
    Reads(m, b, e) + ReadAll(st.parity, Offs(m, b, e))
  }

  /** Reading the rest of the stripe. */
  function Additive(m: Numbering, st: Stripe, b: nat, e: nat): seq<Io> {
    Reads(m, st.first, b) + Reads(m, e, st.first + st.size)
  }

  predicate PrefersSubtractive(st: Stripe, b: nat, e: nat) {
    (e - b) + 1 <= st.size - (e - b)
  }

  function NewBlocks(m: Numbering, st: Stripe, b: nat, e: nat): seq<Io> {
    Writes(m, b, e) + WriteAll(st.parity, Offs(m, b, e))
  }

  /** The requests for writing the blocks from b up to e of one stripe. */
  function PartialIo(m: Numbering, st: Stripe, b: nat, e: nat): seq<Io> {
    (if PrefersSubtractive(st, b, e) then Subtractive(m, st, b, e) else Additive(m, st, b, e)) + NewBlocks(m, st, b, e)
  }

  lemma {:induction false} ReadsAre(m: Numbering, b: nat, e: nat)
    ensures |Reads(m, b, e)| == if b < e then e - b else 0
    ensures forall io :: io in Reads(m, b, e) <==> exists v: nat :: b <= v < e && io == Read(m(v))
    decreases e - b
  {
    if b < e {
      ReadsAre(m, b, e - 1);
    }
  }

  lemma {:induction false} WritesAre(m: Numbering, b: nat, e: nat)
    ensures |Writes(m, b, e)| == if b < e then e - b else 0
    ensures forall io :: io in Writes(m, b, e) <==> exists v: nat :: b <= v < e && io == Write(m(v))
    decreases e - b
  {
    if b < e {
      WritesAre(m, b, e - 1);
    }
  }

  lemma {:induction false} OffsAre(m: Numbering, b: nat, e: nat)
    ensures forall o :: o in Offs(m, b, e) <==> exists v: nat :: b <= v < e && o == m(v).off
    ensures forall i, j :: 0 <= i < j < |Offs(m, b, e)| ==> Offs(m, b, e)[i] != Offs(m, b, e)[j]
    decreases e - b
  {
    if b < e {
      OffsAre(m, b, e - 1);
    }
  }

  predicate Range(st: Stripe, b: nat, e: nat) {
    st.first <= b <= e <= st.first + st.size
  }

  lemma NewBlocksAre(m: Numbering, st: Stripe, b: nat, e: nat, at: Place)
    ensures Write(at) in NewBlocks(m, st, b, e)
        <==> (exists v: nat :: b <= v < e && at == m(v)) || (at.disk == st.parity && at.off in Offs(m, b, e))
  {
    WritesAre(m, b, e);
    var offs, all := Offs(m, b, e), WriteAll(st.parity, Offs(m, b, e));
    if at.disk == st.parity && at.off in offs {
      var i :| 0 <= i < |offs| && offs[i] == at.off;
      assert all[i] == Write(at);
    }
  }

  /** What is written is the new blocks and, at each of their offsets, the parity. */
  lemma PartialWrites(m: Numbering, st: Stripe, b: nat, e: nat, at: Place)
    ensures Write(at) in PartialIo(m, st, b, e)
        <==> (exists v: nat :: b <= v < e && at == m(v)) || (at.disk == st.parity && at.off in Offs(m, b, e))
  {
    NewBlocksAre(m, st, b, e, at);
    ReadsAre(m, b, e);
    ReadsAre(m, st.first, b);
    ReadsAre(m, e, st.first + st.size);
  }

  /** The old parity and all the blocks of the row that change have been read. */
  ghost predicate OldKnown(m: Numbering, io: seq<Io>, st: Stripe, b: nat, e: nat, off: int) {
    Read(Place(st.parity, off)) in io
    && forall v: nat :: b <= v < e && m(v).off == off ==> Read(m(v)) in io
  }

  /** Every block of the row is read or written. */
  ghost predicate RowKnown(m: Numbering, io: seq<Io>, st: Stripe, off: int) {
    forall v: nat :: st.first <= v < st.first + st.size && m(v).off == off ==> Read(m(v)) in io || Write(m(v)) in io
  }

  lemma OldIsKnown(m: Numbering, st: Stripe, b: nat, e: nat, off: int)
    requires off in Offs(m, b, e)
    ensures OldKnown(m, Subtractive(m, st, b, e), st, b, e, off)
  {
    var offs, all := Offs(m, b, e), ReadAll(st.parity, Offs(m, b, e));
    var i :| 0 <= i < |offs| && offs[i] == off;
    assert all[i] == Read(Place(st.parity, off)) && all[i] in all;
    ReadsAre(m, b, e);
  }

  lemma RowIsKnown(m: Numbering, st: Stripe, b: nat, e: nat, off: int)
    requires Range(st, b, e)
    ensures RowKnown(m, Additive(m, st, b, e) + NewBlocks(m, st, b, e), st, off)
  {
    ReadsAre(m, st.first, b);
    WritesAre(m, b, e);
    ReadsAre(m, e, st.first + st.size);
  }

  /** Whatever parity is written can be computed, from what it was before or from the whole row. */
  lemma ParityComputable(m: Numbering, st: Stripe, b: nat, e: nat, off: int)
    requires Range(st, b, e)
    requires forall v: nat :: b <= v < e ==> m(v).disk != st.parity
    requires Write(Place(st.parity, off)) in PartialIo(m, st, b, e)
    ensures OldKnown(m, PartialIo(m, st, b, e), st, b, e, off) || RowKnown(m, PartialIo(m, st, b, e), st, off)
  {
    PartialWrites(m, st, b, e, Place(st.parity, off));
    if PrefersSubtractive(st, b, e) {
      OldIsKnown(m, st, b, e, off);
    } else {
      RowIsKnown(m, st, b, e, off);
    }
  }

  // ----- The number of requests

  lemma SameRemainder(u: nat, v: nat, c: nat)
    requires c > 0 && u < v
    ensures u % c == v % c ==> v - u >= c
    ensures v - u == c ==> u % c == v % c
  {
    Split(u, c);
    Split(v, c);
    if u % c == v % c {
      assert (v / c) * c - (u / c) * c == (v / c - u / c) * c;
      if v - u < c {
        NoMultiple(v / c - u / c, c);
      }
    }
    if v - u == c {
      assert v == (u / c + 1) * c + u % c;
      Divided(u / c + 1, u % c, c);
    }
  }

  /** Blocks of one stripe have the same offset only if they are whole chunks apart. */
  lemma SameOffset(s: Shape, n: nat, u: nat, v: nat)
    requires s.Ok() && InStripe(s, n, u) && InStripe(s, n, v) && u < v
    ensures Bmap(s, u).off == Bmap(s, v).off ==> v - u >= s.chunk
    ensures v - u == s.chunk ==> Bmap(s, u).off == Bmap(s, v).off
  {
    Where(s, u);
    RowIsStripe(s, n, u);
    Where(s, v);
    RowIsStripe(s, n, v);
    SameRemainder(u, v, s.chunk);
  }

  lemma {:induction false} OffsCount(s: Shape, n: nat, b: nat, e: nat)
    requires s.Ok() && s.level >= 4 && Range(StripeAt(s, n), b, e)
    ensures |Offs(Layout(s), b, e)| == if e - b < s.chunk then e - b else s.chunk
    decreases e - b
  {
    if b < e {
      var m, v: nat := Layout(s), e - 1;
      OffsCount(s, n, b, v);
      OffsAre(m, b, v);
      forall u: nat | b <= u < v && (v - u < s.chunk || v - u == s.chunk)
        ensures m(u).off == m(v).off <==> v - u == s.chunk
      {
        SameOffset(s, n, u, v);
      }
      assert v - b >= s.chunk ==> b <= v - s.chunk && m(v - s.chunk).off == m(v).off;
    }
  }

  /**
   * The way of computing parity that is chosen is never the dearer one, unless writing w blocks of a stripe
   * changes parity at more offsets than the comparison allows for.
   */
  lemma ChoiceIsBest(s: Shape, n: nat, b: nat, e: nat)
    requires s.Ok() && s.level >= 4 && Range(StripeAt(s, n), b, e)
    ensures var m, st := Layout(s), StripeAt(s, n);
      var sub, add := |Subtractive(m, st, b, e)|, |Additive(m, st, b, e)|;
      var w, rest := e - b, st.size - (e - b);
      ((if PrefersSubtractive(st, b, e) then sub else add) <= (if sub < add then sub else add))
      <==> !(w + 1 <= rest < w + (if w < s.chunk then w else s.chunk))
  {
    var m, st := Layout(s), StripeAt(s, n);
    OffsCount(s, n, b, e);
    Counts(m, st, b, e);
  }

  lemma Counts(m: Numbering, st: Stripe, b: nat, e: nat)
    requires Range(st, b, e)
    ensures |Subtractive(m, st, b, e)| == e - b + |Offs(m, b, e)|
    ensures |Additive(m, st, b, e)| == st.size - (e - b)
  {
    ReadsAre(m, b, e);
    ReadsAre(m, st.first, b);
    ReadsAre(m, e, st.first + st.size);
  }

  /** Four disks with chunks of four blocks: writing five blocks reads nine where seven would do. */
  lemma ChoiceCanLose()
    ensures var s := Shape(4, 4, 5); s.Ok() && var m, st := Layout(s), StripeAt(s, 0);
      PrefersSubtractive(st, 0, 5) && |Subtractive(m, st, 0, 5)| == 9 && |Additive(m, st, 0, 5)| == 7
  {
    var s, n, b, e := Shape(4, 4, 5), 0, 0, 5;
    OffsCount(s, n, b, e);
    Counts(Layout(s), StripeAt(s, n), b, e);
  }

  // ----- Requests

  /** Where a write that starts at addr is first cut. */
  function EndOfStripe(s: Shape, addr: nat): (next: nat)
    requires s.Ok()
    ensures addr < next
    ensures addr / s.BlocksInStripe() >= 0
    ensures next == Product(addr / s.BlocksInStripe(), s.BlocksInStripe()) + s.BlocksInStripe()
  {
    StripeOf(s, addr);
    Product(addr / s.BlocksInStripe(), s.BlocksInStripe()) + s.BlocksInStripe()
  }

  /** Where the part of a write in the stripe of its first block ends. */
  function PartEnd(s: Shape, addr: nat, limit: nat): (end: nat)
    requires s.Ok()
    ensures addr < limit ==> addr < end
    ensures addr <= limit ==> addr <= end <= limit
  {
    if limit < EndOfStripe(s, addr) then limit else EndOfStripe(s, addr)
  }

  /** The next stripe is asked for exactly if something is left after this part. */
  lemma NextPart(s: Shape, addr: nat, limit: nat)
    requires s.Ok() && addr <= limit
    ensures s.BlocksInStripe() > 0
    ensures var stripe, final := addr / s.BlocksInStripe(), (limit - 1) / s.BlocksInStripe();
      var end := PartEnd(s, addr, limit);
      (stripe + 1 <= final ==> end / s.BlocksInStripe() == stripe + 1) && (stripe + 1 > final ==> end == limit)
  {
    StripeOf(s, addr);
    NextQuotient(addr, limit, addr / s.BlocksInStripe(), s.BlocksInStripe());
  }

  /** The requests for writing the blocks from addr up to limit, stripe by stripe. */
  function WriteIo(s: Shape, addr: nat, limit: nat): seq<Io>
    requires s.Ok() && s.level >= 4
    decreases limit - addr
  {
    if addr >= limit then []
    else
      var end := PartEnd(s, addr, limit);
      PartialIo(Layout(s), StripeAt(s, addr / s.BlocksInStripe()), addr, end) + WriteIo(s, end, limit)
  }

  /** The first part of a write, which is no request at all if nothing is to be written. */
  lemma Cut(s: Shape, addr: nat, limit: nat)
    requires s.Ok() && s.level >= 4 && addr <= limit
    ensures var end := PartEnd(s, addr, limit);
      addr / s.BlocksInStripe() >= 0 && Range(StripeAt(s, addr / s.BlocksInStripe()), addr, end)
      && WriteIo(s, addr, limit)
         == PartialIo(Layout(s), StripeAt(s, addr / s.BlocksInStripe()), addr, end) + WriteIo(s, end, limit)
  {
    StripeOf(s, addr);
    if addr == limit {
      var m, st := Layout(s), StripeAt(s, addr / s.BlocksInStripe());
      assert ReadAll(st.parity, Offs(m, addr, addr)) == [] && WriteAll(st.parity, Offs(m, addr, addr)) == [];
    }
  }

  /** The parity of a stripe is never a data block. */
  lemma ParityIsNoData(s: Shape, n: nat, u: nat, v: nat)
    requires s.Ok() && s.level >= 4 && InStripe(s, n, u)
    ensures Bmap(s, v) != Place(Pmap(s, n), Bmap(s, u).off)
  {
    Where(s, u);
    RowIsStripe(s, n, u);
    UnmapsBmap(s, v);
    Where(s, v);
    DataOrParity(s, Bmap(s, v));
  }

  /** The data blocks that one stripe's part of a write touches are those in its range. */
  lemma PartData(s: Shape, n: nat, b: nat, e: nat, v: nat)
    requires s.Ok() && s.level >= 4 && Range(StripeAt(s, n), b, e)
    ensures Write(Bmap(s, v)) in PartialIo(Layout(s), StripeAt(s, n), b, e) <==> b <= v < e
  {
    var m, st := Layout(s), StripeAt(s, n);
    PartialWrites(m, st, b, e, m(v));
    OffsAre(m, b, e);
    forall u: nat | b <= u < e ensures m(u) == m(v) ==> u == v {
      UnmapsBmap(s, u);
      UnmapsBmap(s, v);
    }
    forall u: nat | b <= u < e ensures m(v) != Place(st.parity, m(u).off) {
      ParityIsNoData(s, n, u, v);
    }
  }

  /** A write touches exactly the data blocks it asks for. */
  lemma {:induction false} WritesWhatIsAsked(s: Shape, addr: nat, limit: nat, v: nat)
    requires s.Ok() && s.level >= 4
    ensures Write(Bmap(s, v)) in WriteIo(s, addr, limit) <==> addr <= v < limit
    decreases limit - addr
  {
    if addr < limit {
      StripeOf(s, addr);
      var n: nat, end := addr / s.BlocksInStripe(), PartEnd(s, addr, limit);
      PartData(s, n, addr, end, v);
      WritesWhatIsAsked(s, end, limit, v);
    }
  }

  /** Where the parity of a block is. */
  function ParityOf(s: Shape, v: nat): Place
    requires s.Ok() && s.level >= 4
  {
    StripeOf(s, v);
    Place(Pmap(s, v / s.BlocksInStripe()), Bmap(s, v).off)
  }

  /** The place of the block, or of its parity. */
  predicate WrittenFor(s: Shape, v: nat, at: Place)
    requires s.Ok() && s.level >= 4
  {
    at == Bmap(s, v) || at == ParityOf(s, v)
  }

  lemma PartWrites(s: Shape, n: nat, b: nat, e: nat, at: Place)
    requires s.Ok() && s.level >= 4 && Range(StripeAt(s, n), b, e)
    ensures Write(at) in PartialIo(Layout(s), StripeAt(s, n), b, e)
        <==> exists v: nat :: b <= v < e && WrittenFor(s, v, at)
  {
    var m, st := Layout(s), StripeAt(s, n);
    PartialWrites(m, st, b, e, at);
    OffsAre(m, b, e);
    forall v: nat | b <= v < e ensures ParityOf(s, v) == Place(st.parity, m(v).off) {
      RowIsStripe(s, n, v);
    }
    if at.disk == st.parity && at.off in Offs(m, b, e) {
      var v: nat :| b <= v < e && at.off == m(v).off;
      assert WrittenFor(s, v, at);
    }
    forall v: nat | b <= v < e && at == m(v) ensures WrittenFor(s, v, at) {
    }
  }

  /** A write changes the blocks asked for and their parity, and nothing else. */
  lemma {:induction false} WritesAreAll(s: Shape, addr: nat, limit: nat, at: Place)
    requires s.Ok() && s.level >= 4
    ensures Write(at) in WriteIo(s, addr, limit) <==> exists v: nat :: addr <= v < limit && WrittenFor(s, v, at)
    decreases limit - addr
  {
    if addr < limit {
      StripeOf(s, addr);
      var n: nat, end := addr / s.BlocksInStripe(), PartEnd(s, addr, limit);
      PartWrites(s, n, addr, end, at);
      WritesAreAll(s, end, limit, at);
    }
  }

  /** The part of a write that lies in stripe st. */
  function PartIn(st: Stripe, addr: nat, limit: nat): (nat, nat) {
    (if addr < st.first then st.first else addr, if limit < st.first + st.size then limit else st.first + st.size)
  }

  /** The parity at this offset of a stripe follows from what a write reads and writes. */
  ghost predicate Computable(m: Numbering, io: seq<Io>, st: Stripe, addr: nat, limit: nat, off: int) {
    var part := PartIn(st, addr, limit);
    OldKnown(m, io, st, part.0, part.1, off) || RowKnown(m, io, st, off)
  }

  lemma ComputableInMore(m: Numbering, io: seq<Io>, more: seq<Io>, st: Stripe, b: nat, e: nat, off: int)
    requires forall x :: x in io ==> x in more
    ensures OldKnown(m, io, st, b, e, off) ==> OldKnown(m, more, st, b, e, off)
    ensures RowKnown(m, io, st, off) ==> RowKnown(m, more, st, off)
  {
  }

  /** In the stripe that a write starts in, its part ends where the write is cut. */
  lemma FirstPart(s: Shape, n: nat, addr: nat, limit: nat, v: nat)
    requires s.Ok() && s.level >= 4 && InStripe(s, n, addr) && InStripe(s, n, v) && addr <= v < limit
    ensures addr < limit && Range(StripeAt(s, n), addr, PartEnd(s, addr, limit)) && v < PartEnd(s, addr, limit)
    ensures PartIn(StripeAt(s, n), addr, limit) == (addr, PartEnd(s, addr, limit))
    ensures var end := PartEnd(s, addr, limit);
      WriteIo(s, addr, limit) == PartialIo(Layout(s), StripeAt(s, n), addr, end) + WriteIo(s, end, limit)
  {
    RowIsStripe(s, n, addr);
  }

  lemma FirstComputable(s: Shape, n: nat, addr: nat, limit: nat, v: nat)
    requires s.Ok() && s.level >= 4 && InStripe(s, n, addr) && InStripe(s, n, v) && addr <= v < limit
    ensures Computable(Layout(s), WriteIo(s, addr, limit), StripeAt(s, n), addr, limit, Bmap(s, v).off)
  {
    var m, st, end, off := Layout(s), StripeAt(s, n), PartEnd(s, addr, limit), Bmap(s, v).off;
    FirstPart(s, n, addr, limit, v);
    forall u: nat | addr <= u < end ensures m(u).disk != st.parity {
      ParityApart(s, n, u);
    }
    OffsAre(m, addr, end);
    assert m(v).off == off;
    PartialWrites(m, st, addr, end, Place(st.parity, off));
    ParityComputable(m, st, addr, end, off);
    ComputableInMore(m, PartialIo(m, st, addr, end), WriteIo(s, addr, limit), st, addr, end, off);
  }

  /** In a whole write, the parity of every block written follows from what is read and written. */
  lemma {:induction false} WriteComputable(s: Shape, n: nat, addr: nat, limit: nat, v: nat)
    requires s.Ok() && s.level >= 4 && InStripe(s, n, v) && addr <= v < limit
    ensures Computable(Layout(s), WriteIo(s, addr, limit), StripeAt(s, n), addr, limit, Bmap(s, v).off)
    decreases limit - addr
  {
    StripeOf(s, addr);
    if InStripe(s, n, addr) {
      FirstComputable(s, n, addr, limit, v);
    } else {
      var k: nat, end, st := addr / s.BlocksInStripe(), PartEnd(s, addr, limit), StripeAt(s, n);
      LaterStripe(s, k, n, addr, v);
      WriteComputable(s, n, end, limit, v);
      var part := PartIn(st, end, limit);
      ComputableInMore(Layout(s), WriteIo(s, end, limit), WriteIo(s, addr, limit), st, part.0, part.1, Bmap(s, v).off);
    }
  }

  /** A block of a later stripe lies behind the end of this one. */
  lemma LaterStripe(s: Shape, k: nat, n: nat, u: nat, v: nat)
    requires s.Ok() && InStripe(s, k, u) && InStripe(s, n, v) && u <= v && k != n
    ensures Product(k, s.BlocksInStripe()) + s.BlocksInStripe() <= Product(n, s.BlocksInStripe())
  {
    var size := s.BlocksInStripe();
    StripeSize(s);
    assert (n - k) * size == n * size - k * size;
    GrowsBy(n - k, size);
  }

  class Array {
    const shape: Shape
    /** What has been asked of the disks. */
    var log: seq<Io>

    constructor (shape: Shape)
      ensures this.shape == shape && log == []
    {
      this.shape, log := shape, [];
    }

    method DoSingleRead(at: Place)
      modifies this
      ensures log == old(log) + [Read(at)]
    {
      log := log + [Read(at)];
    }

    method DoSingleWrite(at: Place)
      modifies this
      ensures log == old(log) + [Write(at)]
    {
      log := log + [Write(at)];
    }

    method ReadRange(b: nat, e: nat)
      requires shape.Ok()
      modifies this
      ensures log == old(log) + Reads(Layout(shape), b, e)
    {
      var voff := b;
      while voff < e
        invariant b <= voff && (voff <= e || voff == b)
        invariant log == old(log) + Reads(Layout(shape), b, voff)
      {
        DoSingleRead(Bmap(shape, voff));
        voff := voff + 1;
      }
    }

    /** The blocks of a range, read or written, and the offsets they are at. */
    method Touch(b: nat, e: nat, isWrite: bool) returns (offList: seq<int>)
      requires shape.Ok()
      modifies this
      ensures offList == Offs(Layout(shape), b, e)
      ensures log == old(log) + (if isWrite then Writes(Layout(shape), b, e) else Reads(Layout(shape), b, e))
    {
      offList := [];
      var voff := b;
      while voff < e
        invariant b <= voff && (voff <= e || voff == b)
        invariant offList == Offs(Layout(shape), b, voff)
        invariant log == old(log) + (if isWrite then Writes(Layout(shape), b, voff) else Reads(Layout(shape), b, voff))
      {
        var at := Bmap(shape, voff);
        if isWrite {
          DoSingleWrite(at);
        } else {
          DoSingleRead(at);
        }
        if at.off !in offList {
          offList := offList + [at.off];
        }
        voff := voff + 1;
      }
    }

    method TouchParity(disk: int, offList: seq<int>, isWrite: bool)
      modifies this
      ensures log == old(log) + (if isWrite then WriteAll(disk, offList) else ReadAll(disk, offList))
    {
      ghost var all := if isWrite then WriteAll(disk, offList) else ReadAll(disk, offList);
      var i := 0;
      while i < |offList|
        invariant 0 <= i <= |offList| && log == old(log) + all[..i]
      {
        assert all[..i + 1] == all[..i] + [all[i]];
        if isWrite {
          DoSingleWrite(Place(disk, offList[i]));
        } else {
          DoSingleRead(Place(disk, offList[i]));
        }
        i := i + 1;
      }
      assert all[..i] == all;
    }

    /** The blocks of a range and their parity. */
    method TouchBoth(stripe: nat, begin: nat, end: nat, isWrite: bool)
      requires shape.Ok() && shape.level >= 4
      modifies this
      ensures var m, st := Layout(shape), StripeAt(shape, stripe);
        log == old(log) + (if isWrite then NewBlocks(m, st, begin, end) else Subtractive(m, st, begin, end))
    {
      ghost var before, m, disk := log, Layout(shape), Pmap(shape, stripe);
      var offList := Touch(begin, end, isWrite);
      TouchParity(Pmap(shape, stripe), offList, isWrite);
      ghost var data := if isWrite then Writes(m, begin, end) else Reads(m, begin, end);
      ghost var parity := if isWrite then WriteAll(disk, offList) else ReadAll(disk, offList);
      assert before + data + parity == before + (data + parity);
    }

    /** Reading what the new parity is computed from. */
    method ReadForParity(stripe: nat, begin: nat, end: nat)
      requires shape.Ok() && shape.level >= 4 && Range(StripeAt(shape, stripe), begin, end)
      modifies this
      ensures var m, st := Layout(shape), StripeAt(shape, stripe);
        log == old(log) + (if PrefersSubtractive(st, begin, end) then Subtractive(m, st, begin, end)
                           else Additive(m, st, begin, end))
    {
      var numWrites, size := end - begin, shape.BlocksInStripe();
      if numWrites + 1 <= size - numWrites {
        TouchBoth(stripe, begin, end, false);
      } else {
        var stripeBegin := Product(stripe, size);
        ghost var before, m := log, Layout(shape);
        ReadRange(stripeBegin, begin);
        ReadRange(end, stripeBegin + size);
        ghost var below, above := Reads(m, stripeBegin, begin), Reads(m, end, stripeBegin + size);
        assert before + below + above == before + (below + above);
      }
    }

    /** Writing some blocks of a stripe. */
    method DoPartialWrite(stripe: nat, begin: nat, end: nat)
      requires shape.Ok() && shape.level >= 4 && Range(StripeAt(shape, stripe), begin, end)
      modifies this
      ensures log == old(log) + PartialIo(Layout(shape), StripeAt(shape, stripe), begin, end)
    {
      ReadForParity(stripe, begin, end);
      TouchBoth(stripe, begin, end, true);
    }

    /** A request to an array with parity. */
    method Enqueue45(addr: nat, size: nat, isWrite: bool)
      requires shape.Ok() && shape.level >= 4
      modifies this
      ensures log == old(log) + (if isWrite then WriteIo(shape, addr, addr + size)
                                 else Reads(Layout(shape), addr, addr + size))
    {
      if !isWrite {
        ReadRange(addr, addr + size);
        return;
      }
      var size' := shape.BlocksInStripe();
      StripeSize(shape);
      NoneLeft(addr, size, size');
      var initStripe, finalStripe := addr / size', (addr + size - 1) / size';
      var left: nat, begin: nat, stripe := size, addr, initStripe;
      ghost var limit := addr + size;
      while stripe <= finalStripe
        invariant begin + left == limit
        invariant log + WriteIo(shape, begin, limit) == old(log) + WriteIo(shape, addr, limit)
        invariant stripe <= finalStripe ==> stripe == begin / size'
        invariant stripe > finalStripe ==> left == 0
        decreases finalStripe + 1 - stripe
      {
        NextPart(shape, begin, limit);
        var end := WritePart(begin, left, limit);
        left := left - (end - begin);
        begin := end;
        stripe := stripe + 1;
      }
    }

    /** The part of a write that lies in the stripe of its first block. */
    method WritePart(begin: nat, left: nat, ghost limit: nat) returns (end: nat)
      requires shape.Ok() && shape.level >= 4 && begin + left == limit
      modifies this
      ensures end == PartEnd(shape, begin, limit)
      ensures log + WriteIo(shape, end, limit) == old(log) + WriteIo(shape, begin, limit)
    {
      Cut(shape, begin, limit);
      end := FindEnd(begin, left);
      var stripe: nat := begin / shape.BlocksInStripe();
      DoPartialWrite(stripe, begin, end);
    }

    method FindEnd(begin: nat, left: nat) returns (end: nat)
      requires shape.Ok() && shape.level >= 4
      ensures end == PartEnd(shape, begin, begin + left)
    {
      StripeOf(shape, begin);
      var size := shape.BlocksInStripe();
      var endOfStripe := Product(begin / size, size) + size;
      end := if left >= size then begin + size else begin + left;
      if end >= endOfStripe {
        end := endOfStripe;
      }
    }
  }
}
