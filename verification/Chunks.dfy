// The chunks of an Open-Channel SSD: their states and write pointers, and what vector writes and
// resets send to the NAND flash.
module Chunks {
  import Arithmetic
  import opened LbaFormat

  datatype ChunkState = Free | Closed | Open | Offline

  datatype ChunkDescriptor = ChunkDescriptor(chunkState: ChunkState, slba: nat, nlb: nat, writePointer: nat)

  // Groups, parallel units per group (packages times dies), chunks per unit, pages per chunk and
  // blocks per page; dies per package and planes per die.
  datatype Geometry = Geometry(group: Pos, package: Pos, die: Pos, plane: Pos, block: Pos, page: Pos, writeSize: Pos,
    useMP: bool)
  {
    function ParallelUnit(): Pos { package * die }

    function Chunk(): Pos { if useMP then block else block * plane }

    function ChunkSize(): nat { page * writeSize }

    function Structure(): Structure {
      LbaFormat.Structure.Structure(group, ParallelUnit(), Chunk(), ChunkSize())
    }

    function Descriptors(): nat { group * ParallelUnit() * Chunk() }
  }

  // The chunk at the index, and the page.
  datatype Unit = Unit(index: nat, page: nat)

  datatype Nand = Nand(channel: nat, package: nat, die: nat, plane: nat, block: nat, page: nat) {
    predicate SameBlock(other: Nand) {
      && channel == other.channel && package == other.package && die == other.die
      && plane == other.plane && block == other.block
    }
  }

  function IndexOf(geo: Geometry, g: nat, p: nat, c: nat): nat {
    g * geo.ParallelUnit() * geo.Chunk() + p * geo.Chunk() + c
  }

  function NandOf(geo: Geometry, g: nat, p: nat, c: nat, page: nat): Nand {
    if geo.useMP then Nand(g, p / geo.die, p % geo.die, 0, c, page)
    else Nand(g, p / geo.die, p % geo.die, c % geo.plane, c / geo.plane, page)
  }

  // Coordinates in range give a descriptor, and the descriptor stands for one block.
  lemma {:induction false} IndexInRange(geo: Geometry, g: nat, p: nat, c: nat)
    requires g < geo.group && p < geo.ParallelUnit() && c < geo.Chunk()
    ensures IndexOf(geo, g, p, c) < geo.Descriptors()
  {
    var u, n := geo.ParallelUnit(), geo.Chunk();
    Arithmetic.DigitBound(g, geo.group, p, u);
    Arithmetic.DigitBound(g * u + p, geo.group * u, c, n);
    Arithmetic.Distribute2(g * u, p, n);
  }

  lemma {:induction false} IndexIsBlock(geo: Geometry, g: nat, p: nat, c: nat, page: nat, g': nat, p': nat, c': nat,
      page': nat)
    requires g < geo.group && p < geo.ParallelUnit() && c < geo.Chunk()
    requires g' < geo.group && p' < geo.ParallelUnit() && c' < geo.Chunk()
    ensures IndexOf(geo, g, p, c) == IndexOf(geo, g', p', c') <==>
      NandOf(geo, g, p, c, page).SameBlock(NandOf(geo, g', p', c', page'))
    ensures NandOf(geo, g, p, c, page).page == page && NandOf(geo, g', p', c', page').page == page'
  {
    var u, n := geo.ParallelUnit(), geo.Chunk();
    Arithmetic.Distribute2(g * u, p, n);
    Arithmetic.Distribute2(g' * u, p', n);
    if IndexOf(geo, g, p, c) == IndexOf(geo, g', p', c') {
      Arithmetic.ThreeDigitsUnique(g, p, c, g', p', c', u, n);
    }
    if NandOf(geo, g, p, c, page).SameBlock(NandOf(geo, g', p', c', page')) {
      SameDigits(p, p', geo.die);
      SameDigits(c, c', geo.plane);
    }
  }

  // The flash address is in the flash, and names the parallel unit and the chunk: units of one package are
  // its dies, and chunks next to each other are on the planes of one die.
  lemma {:induction false} NandIsAddress(geo: Geometry, g: nat, p: nat, c: nat, page: nat)
    requires g < geo.group && p < geo.ParallelUnit() && c < geo.Chunk()
    ensures var n := NandOf(geo, g, p, c, page);
      && n.channel == g && n.page == page && n.package < geo.package && n.die < geo.die && n.block < geo.block
      && n.package * geo.die + n.die == p
      && if geo.useMP then n.plane == 0 && n.block == c else n.plane < geo.plane && n.block * geo.plane + n.plane == c
  {
    Arithmetic.QuotientBound(p, geo.die, geo.package);
    Arithmetic.QuotientBound(c, geo.plane, geo.block);
  }

  lemma {:induction false} SameDigits(x: nat, y: nat, n: Pos)
    requires x / n == y / n && x % n == y % n
    ensures x == y
  {
    assert x == x / n * n + x % n && y == y / n * n + y % n;
  }

  // A list of LBAs in range.
  ghost predicate InRange(geo: Geometry, m: Mask, lba: nat) {
    var (g, p, c, l) := ParseLBA(m, lba);
    g < geo.group && p < geo.ParallelUnit() && c < geo.Chunk() && l < geo.ChunkSize()
  }

  function UnitOf(geo: Geometry, m: Mask, lba: nat): Unit {
    var (g, p, c, l) := ParseLBA(m, lba);
    Unit(IndexOf(geo, g, p, c), l / geo.writeSize)
  }

  function NandOfLba(geo: Geometry, m: Mask, lba: nat): Nand {
    var (g, p, c, l) := ParseLBA(m, lba);
    NandOf(geo, g, p, c, l / geo.writeSize)
  }

  // The LBAs that open a new unit: those next to one of the same page, or for a reset of the same
  // chunk, are left out.
  function Leaders(geo: Geometry, m: Mask, lbas: seq<nat>, block: bool): seq<nat> {
    if |lbas| == 0 then []
    else
      var before := Leaders(geo, m, lbas[..|lbas| - 1], block);
      var lba := lbas[|lbas| - 1];
      if |before| > 0 && Joins(UnitOf(geo, m, before[|before| - 1]), UnitOf(geo, m, lba), block) then before
      else before + [lba]
  }

  predicate Joins(u: Unit, v: Unit, block: bool) { u.index == v.index && (block || u.page == v.page) }

  function UnitsOf(geo: Geometry, m: Mask, lbas: seq<nat>): (r: seq<Unit>)
    ensures |r| == |lbas|
  {
    seq(|lbas|, k requires 0 <= k < |lbas| => UnitOf(geo, m, lbas[k]))
  }

  function NandsOf(geo: Geometry, m: Mask, lbas: seq<nat>): (r: seq<Nand>)
    ensures |r| == |lbas|
  {
    seq(|lbas|, k requires 0 <= k < |lbas| => NandOfLba(geo, m, lbas[k]))
  }

  lemma {:induction false} UnitInRange(geo: Geometry, m: Mask, lba: nat)
    requires InRange(geo, m, lba)
    ensures UnitOf(geo, m, lba).index < geo.Descriptors() && UnitOf(geo, m, lba).page < geo.page
  {
    var (g, p, c, l) := ParseLBA(m, lba);
    IndexInRange(geo, g, p, c);
    Arithmetic.QuotientBound(l, geo.writeSize, geo.page);
  }

  // convertUnit compares flash addresses; that is comparing chunks.
  lemma {:induction false} SameUnit(geo: Geometry, m: Mask, a: nat, b: nat, block: bool)
    requires InRange(geo, m, a) && InRange(geo, m, b)
    ensures var x, y := NandOfLba(geo, m, a), NandOfLba(geo, m, b);
      (x.SameBlock(y) && (block || x.page == y.page)) == Joins(UnitOf(geo, m, a), UnitOf(geo, m, b), block)
  {
    hide ParseLBA, IndexOf, NandOf;
    var (g, p, c, l) := ParseLBA(m, a);
    var (g', p', c', l') := ParseLBA(m, b);
    IndexIsBlock(geo, g, p, c, l / geo.writeSize, g', p', c', l' / geo.writeSize);
  }

  // A chunk that a page can be written to, and the chunk afterwards.
  predicate CanWrite(geo: Geometry, d: ChunkDescriptor, page: nat) {
    d.chunkState == Free || (d.chunkState == Open && d.writePointer / geo.writeSize <= page)
  }

  function Written(geo: Geometry, d: ChunkDescriptor, page: nat): ChunkDescriptor {
    d.(writePointer := (page + 1) * geo.writeSize, chunkState := if page == geo.page - 1 then Closed else Open)
  }

  predicate AllIn(geo: Geometry, ds: seq<ChunkDescriptor>, units: seq<Unit>) {
    |ds| == geo.Descriptors() && forall k | 0 <= k < |units| :: units[k].index < |ds| && units[k].page < geo.page
  }

  // The descriptors after the first n entries of a write, and how many of them were accepted: all
  // before the first that was refused.
  function Accepting(geo: Geometry, ds: seq<ChunkDescriptor>, units: seq<Unit>, n: nat): (r: (seq<ChunkDescriptor>,
      nat))
    requires AllIn(geo, ds, units) && n <= |units|
    ensures |r.0| == |ds| && r.1 <= n
  {
    if n == 0 then (ds, 0)
    else
      var (d, a) := Accepting(geo, ds, units, n - 1);
      var u := units[n - 1];
      if a == n - 1 && CanWrite(geo, d[u.index], u.page) then (d[u.index := Written(geo, d[u.index], u.page)], n)
        else (d, a)
  }

  // The descriptors after the first n entries of a reset, and how many entries come before the first
  // that was refused: entries after that are still applied to the descriptors.
  function Resetting(geo: Geometry, ds: seq<ChunkDescriptor>, units: seq<Unit>, n: nat): (r: (seq<ChunkDescriptor>,
      nat))
    requires AllIn(geo, ds, units) && n <= |units|
    ensures |r.0| == |ds| && r.1 <= n
  {
    if n == 0 then (ds, 0)
    else
      var (d, e) := Resetting(geo, ds, units, n - 1);
      var i := units[n - 1].index;
      if d[i].chunkState == Closed then
        (d[i := d[i].(writePointer := 0, chunkState := Free)], if e == n - 1 then n else e)
      else (d, e)
  }

  // A chunk is free exactly with write pointer 0, closed exactly with a write pointer at its end, and
  // open in between.
  ghost predicate StateOk(geo: Geometry, d: ChunkDescriptor) {
    && d.chunkState != Offline && d.writePointer <= geo.ChunkSize()
    && (d.chunkState == Free <==> d.writePointer == 0)
    && (d.chunkState == Closed <==> d.writePointer == geo.ChunkSize())
    && d.nlb == geo.ChunkSize()
  }

  ghost predicate StatesOk(geo: Geometry, ds: seq<ChunkDescriptor>) {
    |ds| == geo.Descriptors() && forall i | 0 <= i < |ds| :: StateOk(geo, ds[i])
  }

  lemma {:induction false} WrittenOk(geo: Geometry, d: ChunkDescriptor, page: nat)
    requires StateOk(geo, d) && page < geo.page
    ensures StateOk(geo, Written(geo, d, page))
  {
    Arithmetic.MulMonotone(1, page + 1, geo.writeSize);
    Arithmetic.MulMonotone(page + 1, geo.page, geo.writeSize);
    if page + 1 < geo.page {
      Arithmetic.MulMonotone(page + 2, geo.page, geo.writeSize);
      Arithmetic.NextMultiple(page + 1, geo.writeSize);
    }
  }

  // The next page of a block to program, and whether its pages were programmed in ascending order, none
  // twice without an erase in between.
  datatype Programmed = Programmed(next: nat, inOrder: bool)

  // The blocks once the first n units are programmed.
  function ProgramAll(nand: seq<Programmed>, units: seq<Unit>, n: nat): (r: seq<Programmed>)
    requires n <= |units| && forall k | 0 <= k < |units| :: units[k].index < |nand|
    ensures |r| == |nand|
  {
    if n == 0 then nand
    else
      var s := ProgramAll(nand, units, n - 1);
      var u := units[n - 1];
      s[u.index := Programmed(u.page + 1, s[u.index].inOrder && s[u.index].next <= u.page)]
  }

  function EraseAll(nand: seq<Programmed>, units: seq<Unit>, n: nat): (r: seq<Programmed>)
    requires n <= |units| && forall k | 0 <= k < |units| :: units[k].index < |nand|
    ensures |r| == |nand|
  {
    if n == 0 then nand
    else var s := EraseAll(nand, units, n - 1); s[units[n - 1].index := s[units[n - 1].index].(next := 0)]
  }

  // A descriptor tells how far its block is programmed, and no page was programmed twice.
  ghost predicate AgreesAt(geo: Geometry, d: ChunkDescriptor, b: Programmed) {
    d.writePointer == b.next * geo.writeSize && b.inOrder
  }

  // So do the descriptors of the chunks outside ex.
  ghost predicate Agrees(geo: Geometry, ds: seq<ChunkDescriptor>, nand: seq<Programmed>, ex: set<nat>) {
    |ds| == |nand| && forall i: nat | i < |ds| && i !in ex :: AgreesAt(geo, ds[i], nand[i])
  }

  // A write keeps the states, and the pages accepted are programmed for the first time.
  lemma {:induction false} WriteKeeps(geo: Geometry, ds: seq<ChunkDescriptor>, units: seq<Unit>, n: nat,
      nand: seq<Programmed>, ex: set<nat>)
    requires StatesOk(geo, ds) && AllIn(geo, ds, units) && n <= |units| && Agrees(geo, ds, nand, ex)
    ensures var (d, a) := Accepting(geo, ds, units, n);
      StatesOk(geo, d) && Agrees(geo, d, ProgramAll(nand, units, a), ex)
  {
    if n > 0 {
      WriteKeeps(geo, ds, units, n - 1, nand, ex);
      var (d, a) := Accepting(geo, ds, units, n - 1);
      var u := units[n - 1];
      if a == n - 1 && CanWrite(geo, d[u.index], u.page) {
        WrittenOk(geo, d[u.index], u.page);
        WriteAgrees(geo, d, u, ProgramAll(nand, units, a), ex);
      }
    }
  }

  lemma {:induction false} WriteAgrees(geo: Geometry, d: seq<ChunkDescriptor>, u: Unit, s: seq<Programmed>,
      ex: set<nat>)
    requires u.index < |d| && StateOk(geo, d[u.index]) && CanWrite(geo, d[u.index], u.page) && Agrees(geo, d, s, ex)
    ensures Agrees(geo, d[u.index := Written(geo, d[u.index], u.page)],
      s[u.index := Programmed(u.page + 1, s[u.index].inOrder && s[u.index].next <= u.page)], ex)
  {
    Arithmetic.ExactQuotient(s[u.index].next, geo.writeSize);
  }

  ghost predicate UnitsIn(log: seq<Programmed>, units: seq<Unit>) {
    forall k | 0 <= k < |units| :: units[k].index < |log|
  }

  // Entry k names no page below the next one of its chunk, once the entries before it are programmed. A full
  // chunk has no page that is not below.
  ghost predicate InOrderAt(log: seq<Programmed>, units: seq<Unit>, k: nat)
    requires k < |units| && UnitsIn(log, units)
  {
    ProgramAll(log, units, k)[units[k].index].next <= units[k].page
  }

  // Entry a is the first of the first n that is not in order, if there is one.
  ghost predicate FirstRefused(log: seq<Programmed>, units: seq<Unit>, n: nat, a: nat)
    requires n <= |units| && UnitsIn(log, units)
  {
    && a <= n && (forall k: nat | k < a :: InOrderAt(log, units, k))
    && (a < n ==> !InOrderAt(log, units, a))
  }

  lemma {:induction false} CanWriteExactly(geo: Geometry, d: ChunkDescriptor, b: Programmed, page: nat)
    requires StateOk(geo, d) && AgreesAt(geo, d, b) && page < geo.page
    ensures CanWrite(geo, d, page) <==> b.next <= page
  {
    Arithmetic.ExactQuotient(b.next, geo.writeSize);
    Arithmetic.ExactQuotient(geo.page, geo.writeSize);
  }

  // The entries accepted are exactly those before the first that is not in order.
  lemma {:induction false} AcceptsInOrder(geo: Geometry, ds: seq<ChunkDescriptor>, units: seq<Unit>, n: nat,
      log: seq<Programmed>)
    requires StatesOk(geo, ds) && AllIn(geo, ds, units) && n <= |units| && Agrees(geo, ds, log, {})
    ensures UnitsIn(log, units) && FirstRefused(log, units, n, Accepting(geo, ds, units, n).1)
  {
    hide CanWrite, Written, StateOk, AgreesAt, ProgramAll;
    if n > 0 {
      AcceptsInOrder(geo, ds, units, n - 1, log);
      WriteKeeps(geo, ds, units, n - 1, log, {});
      var (d, a) := Accepting(geo, ds, units, n - 1);
      if a == n - 1 {
        var u := units[n - 1];
        CanWriteExactly(geo, d[u.index], ProgramAll(log, units, a)[u.index], u.page);
      }
    }
  }

  // The first n entries name, chunk by chunk, ascending pages from the next one on.
  ghost predicate Ascending(log: seq<Programmed>, units: seq<Unit>, n: nat)
    requires n <= |units| && UnitsIn(log, units)
  {
    && (forall k | 0 <= k < n :: log[units[k].index].next <= units[k].page)
    && (forall j, k | 0 <= j < k < n && units[j].index == units[k].index :: units[j].page < units[k].page)
  }

  lemma {:induction false} NextAfterAscending(log: seq<Programmed>, units: seq<Unit>, n: nat, i: nat, page: nat)
    requires n <= |units| && UnitsIn(log, units) && i < |log| && Ascending(log, units, n)
    ensures ProgramAll(log, units, n)[i].next <= page <==>
      log[i].next <= page && forall j | 0 <= j < n && units[j].index == i :: units[j].page < page
  {
    if n > 0 {
      NextAfterAscending(log, units, n - 1, i, page);
    }
  }

  // All entries are in order exactly if they are ascending.
  lemma {:induction false} InOrderIsAscending(log: seq<Programmed>, units: seq<Unit>, n: nat)
    requires n <= |units| && UnitsIn(log, units)
    ensures (forall k: nat | k < n :: InOrderAt(log, units, k)) <==> Ascending(log, units, n)
  {
    hide ProgramAll;
    if n > 0 {
      InOrderIsAscending(log, units, n - 1);
      if Ascending(log, units, n - 1) {
        NextAfterAscending(log, units, n - 1, units[n - 1].index, units[n - 1].page);
        assert InOrderAt(log, units, n - 1) <==> Ascending(log, units, n);
      } else {
        var k: nat :| k < n - 1 && !InOrderAt(log, units, k);
      }
    }
  }

  // A write is accepted as a whole exactly if it is ascending.
  lemma {:induction false} AcceptedExactly(log: seq<Programmed>, units: seq<Unit>, a: nat)
    requires UnitsIn(log, units) && FirstRefused(log, units, |units|, a)
    ensures a == |units| <==> Ascending(log, units, |units|)
  {
    InOrderIsAscending(log, units, |units|);
  }

  ghost predicate Full(geo: Geometry, b: Programmed) { b.next == geo.page }

  // The first n entries name full chunks, each once.
  ghost predicate FullOnce(geo: Geometry, log: seq<Programmed>, units: seq<Unit>, n: nat)
    requires n <= |units| && UnitsIn(log, units)
  {
    && (forall k | 0 <= k < n :: Full(geo, log[units[k].index]))
    && (forall j, k | 0 <= j < k < n :: units[j].index != units[k].index)
  }

  // A reset is accepted as a whole exactly if it names full chunks, each once.
  lemma {:induction false} ResetsFullOnce(geo: Geometry, ds: seq<ChunkDescriptor>, units: seq<Unit>, n: nat,
      log: seq<Programmed>)
    requires StatesOk(geo, ds) && AllIn(geo, ds, units) && n <= |units| && Agrees(geo, ds, log, {})
    ensures UnitsIn(log, units) && (Resetting(geo, ds, units, n).1 == n <==> FullOnce(geo, log, units, n))
  {
    hide StateOk, AgreesAt, Full;
    if n > 0 {
      ResetsFullOnce(geo, ds, units, n - 1, log);
      ResetEffect(geo, ds, units, n - 1);
      var i := units[n - 1].index;
      ClosedIsFull(geo, ds[i], log[i]);
      if Named(units, n - 1, i) {
        var k: nat :| k < n - 1 && units[k].index == i;
      }
    }
  }

  lemma {:induction false} ClosedIsFull(geo: Geometry, d: ChunkDescriptor, b: Programmed)
    requires StateOk(geo, d) && AgreesAt(geo, d, b)
    ensures d.chunkState == Closed <==> Full(geo, b)
  {
    Arithmetic.ExactQuotient(b.next, geo.writeSize);
    Arithmetic.ExactQuotient(geo.page, geo.writeSize);
  }

  // The full chunks named.
  ghost function FullNamed(geo: Geometry, log: seq<Programmed>, units: seq<Unit>): set<nat> {
    set i | 0 <= i < |log| && Full(geo, log[i]) && Named(units, |units|, i)
  }

  lemma {:induction false} FreedAreFull(geo: Geometry, ds: seq<ChunkDescriptor>, units: seq<Unit>, log: seq<Programmed>)
    requires StatesOk(geo, ds) && AllIn(geo, ds, units) && Agrees(geo, ds, log, {})
    ensures Freed(geo, ds, units) == FullNamed(geo, log, units)
  {
    hide StateOk, AgreesAt, Full, Named;
    forall i: nat | i < |ds| ensures ds[i].chunkState == Closed <==> Full(geo, log[i]) {
      ClosedIsFull(geo, ds[i], log[i]);
    }
  }

  // A reset keeps the states.
  lemma {:induction false} ResetKeeps(geo: Geometry, ds: seq<ChunkDescriptor>, units: seq<Unit>, n: nat)
    requires StatesOk(geo, ds) && AllIn(geo, ds, units) && n <= |units|
    ensures StatesOk(geo, Resetting(geo, ds, units, n).0)
  {
    if n > 0 {
      ResetKeeps(geo, ds, units, n - 1);
      Arithmetic.MulMonotone(1, geo.page, geo.writeSize);
    }
  }

  ghost predicate Named(units: seq<Unit>, n: nat, i: nat) {
    exists k: nat :: k < n && k < |units| && units[k].index == i
  }

  lemma {:induction false} NamedNext(units: seq<Unit>, n: nat, i: nat)
    requires n < |units|
    ensures Named(units, n + 1, i) <==> Named(units, n, i) || units[n].index == i
  {
  }

  // Every closed chunk named is freed; the entries before the first refused one name closed chunks.
  lemma {:induction false} ResetEffect(geo: Geometry, ds: seq<ChunkDescriptor>, units: seq<Unit>, n: nat)
    requires AllIn(geo, ds, units) && n <= |units|
    ensures var (d, e) := Resetting(geo, ds, units, n);
      && (forall i: nat | i < |ds| :: d[i] ==
            if ds[i].chunkState == Closed && Named(units, n, i) then ds[i].(writePointer := 0, chunkState := Free)
              else ds[i])
      && (forall k | 0 <= k < e :: ds[units[k].index].chunkState == Closed)
  {
    if n > 0 {
      ResetEffect(geo, ds, units, n - 1);
      forall i: nat ensures Named(units, n, i) <==> Named(units, n - 1, i) || units[n - 1].index == i {
        NamedNext(units, n - 1, i);
      }
    }
  }

  lemma {:induction false} EraseEffect(nand: seq<Programmed>, units: seq<Unit>, n: nat)
    requires n <= |units| && forall k | 0 <= k < |units| :: units[k].index < |nand|
    ensures forall i: nat | i < |nand| ::
      EraseAll(nand, units, n)[i] == if Named(units, n, i) then nand[i].(next := 0) else nand[i]
  {
    if n > 0 {
      EraseEffect(nand, units, n - 1);
      forall i: nat ensures Named(units, n, i) <==> Named(units, n - 1, i) || units[n - 1].index == i {
        NamedNext(units, n - 1, i);
      }
    }
  }

  // The chunks that a reset frees, and those among them that no erase is sent for: the closed ones that
  // are named only after the first refused entry.
  ghost function Freed(geo: Geometry, ds: seq<ChunkDescriptor>, units: seq<Unit>): set<nat>
    requires AllIn(geo, ds, units)
  {
    set i | 0 <= i < |ds| && ds[i].chunkState == Closed && Named(units, |units|, i)
  }

  ghost function Unerased(geo: Geometry, ds: seq<ChunkDescriptor>, units: seq<Unit>): set<nat>
    requires AllIn(geo, ds, units)
  {
    set i | i in Freed(geo, ds, units) && !Named(units, Resetting(geo, ds, units, |units|).1, i)
  }

  // The pages accepted since a chunk was last freed.
  function FreeAll(accepted: seq<Programmed>, freed: set<nat>): (r: seq<Programmed>)
    ensures |r| == |accepted|
  {
    seq(|accepted|, i requires 0 <= i < |accepted| => if i in freed then accepted[i].(next := 0) else accepted[i])
  }

  lemma {:induction false} FreeKeeps(geo: Geometry, ds: seq<ChunkDescriptor>, units: seq<Unit>,
      accepted: seq<Programmed>)
    requires AllIn(geo, ds, units) && Agrees(geo, ds, accepted, {})
    ensures Agrees(geo, Resetting(geo, ds, units, |units|).0, FreeAll(accepted, Freed(geo, ds, units)), {})
  {
    hide Named;
    ResetEffect(geo, ds, units, |units|);
  }

  // The erases sent, those before the first refused entry, match the freed descriptor of a chunk exactly
  // if it is not one of those freed without an erase.
  lemma {:induction false} ResetExactly(geo: Geometry, ds: seq<ChunkDescriptor>, units: seq<Unit>,
      nand: seq<Programmed>, i: nat)
    requires StatesOk(geo, ds) && AllIn(geo, ds, units) && |nand| == |ds| && i < |ds| && AgreesAt(geo, ds[i], nand[i])
    ensures var (d, e) := Resetting(geo, ds, units, |units|);
      AgreesAt(geo, d[i], EraseAll(nand, units, e)[i]) <==> i !in Unerased(geo, ds, units)
  {
    var n := |units|;
    var (d, e) := Resetting(geo, ds, units, n);
    ResetEffect(geo, ds, units, n);
    EraseEffect(nand, units, e);
    if Named(units, e, i) {
      var k: nat :| k < e && k < |units| && units[k].index == i;
      assert Named(units, n, i);
    }
    Arithmetic.MulMonotone(1, geo.page, geo.writeSize);
  }

  lemma {:induction false} EraseKeeps(geo: Geometry, ds: seq<ChunkDescriptor>, units: seq<Unit>,
      nand: seq<Programmed>, ex: set<nat>)
    requires StatesOk(geo, ds) && AllIn(geo, ds, units) && Agrees(geo, ds, nand, ex)
    ensures var (d, e) := Resetting(geo, ds, units, |units|);
      Agrees(geo, d, EraseAll(nand, units, e), ex + Unerased(geo, ds, units))
  {
    hide AgreesAt, Unerased, StatesOk;
    var (d, e) := Resetting(geo, ds, units, |units|);
    forall i: nat | i < |ds| && i !in ex + Unerased(geo, ds, units)
      ensures AgreesAt(geo, d[i], EraseAll(nand, units, e)[i])
    {
      ResetExactly(geo, ds, units, nand, i);
    }
  }

  // A chunk freed without an erase: the first chunk is free, so the entry for the second, closed one is not
  // sent, yet its descriptor is freed; its page can then be written, and is programmed twice.
  lemma {:induction false} ResetThenWriteTwice()
    ensures var geo := Geometry(1, 1, 1, 1, 2, 1, 1, true);
      var ds := [ChunkDescriptor(Free, 0, 1, 0), ChunkDescriptor(Closed, 1, 1, 1)];
      var nand, reset, write := [Programmed(0, true), Programmed(1, true)], [Unit(0, 0), Unit(1, 0)], [Unit(1, 0)];
      && StatesOk(geo, ds) && Agrees(geo, ds, nand, {}) && AllIn(geo, ds, reset) && Unerased(geo, ds, reset) == {1}
      && var (d, e) := Resetting(geo, ds, reset, 2);
         && e == 0 && AllIn(geo, d, write)
         && var (d', a) := Accepting(geo, d, write, 1);
            a == 1 && !ProgramAll(EraseAll(nand, reset, e), write, a)[1].inOrder
  {
    var geo := Geometry(1, 1, 1, 1, 2, 1, 1, true);
    var ds := [ChunkDescriptor(Free, 0, 1, 0), ChunkDescriptor(Closed, 1, 1, 1)];
    var nand, reset, write := [Programmed(0, true), Programmed(1, true)], [Unit(0, 0), Unit(1, 0)], [Unit(1, 0)];
    assert geo.Descriptors() == 2 && AllIn(geo, ds, reset);
    assert ds[reset[0].index] == ds[0] && ds[reset[1].index] == ds[1];
    assert Resetting(geo, ds, reset, 0) == (ds, 0);
    assert Resetting(geo, ds, reset, 1) == (ds, 0);
    var d := [ChunkDescriptor(Free, 0, 1, 0), ChunkDescriptor(Free, 1, 1, 0)];
    assert d == ds[1 := ds[1].(writePointer := 0, chunkState := Free)];
    assert Resetting(geo, ds, reset, 2) == (d, 0);
    assert reset[1].index == 1 && Named(reset, 2, 1) && !Named(reset, 0, 1);
    assert Accepting(geo, d, write, 0) == (d, 0);
    assert ProgramAll(nand, write, 0) == nand;
  }

  function NewChunk(geo: Geometry, m: Mask, g: nat, p: nat, c: nat): ChunkDescriptor {
    ChunkDescriptor(Free, MakeLBA(m, g, p, c, 0), geo.ChunkSize(), 0)
  }

  // The first n descriptors are set up.
  ghost predicate FilledTo(geo: Geometry, m: Mask, ds: seq<ChunkDescriptor>, n: nat) {
    && n <= |ds|
    && (forall i | 0 <= i < n :: StateOk(geo, ds[i]) && ds[i].writePointer == 0)
    && (forall g: nat, p: nat, c: nat {:trigger IndexOf(geo, g, p, c)} |
          g < geo.group && p < geo.ParallelUnit() && c < geo.Chunk() && IndexOf(geo, g, p, c) < n ::
          ds[IndexOf(geo, g, p, c)] == NewChunk(geo, m, g, p, c))
  }

  lemma {:induction false} FillStep(geo: Geometry, m: Mask, ds: seq<ChunkDescriptor>, g: nat, p: nat, c: nat)
    requires g < geo.group && p < geo.ParallelUnit() && c < geo.Chunk() && |ds| == geo.Descriptors()
    requires FilledTo(geo, m, ds, IndexOf(geo, g, p, c))
    ensures IndexOf(geo, g, p, c) < |ds| && IndexOf(geo, g, p, c + 1) == IndexOf(geo, g, p, c) + 1
    ensures FilledTo(geo, m, ds[IndexOf(geo, g, p, c) := NewChunk(geo, m, g, p, c)], IndexOf(geo, g, p, c) + 1)
  {
    IndexInRange(geo, g, p, c);
    var i := IndexOf(geo, g, p, c);
    forall g': nat, p': nat, c': nat
      ensures g' < geo.group && p' < geo.ParallelUnit() && c' < geo.Chunk() && IndexOf(geo, g', p', c') == i ==>
        g == g' && p == p' && c == c'
    {
      if g' < geo.group && p' < geo.ParallelUnit() && c' < geo.Chunk() && IndexOf(geo, g', p', c') == i {
        IndexUnique(geo, g, p, c, g', p', c');
      }
    }
    hide IndexOf;
    Arithmetic.MulMonotone(1, geo.page, geo.writeSize);
  }

  lemma {:induction false} IndexUnique(geo: Geometry, g: nat, p: nat, c: nat, g': nat, p': nat, c': nat)
    requires p < geo.ParallelUnit() && c < geo.Chunk() && p' < geo.ParallelUnit() && c' < geo.Chunk()
    requires IndexOf(geo, g, p, c) == IndexOf(geo, g', p', c')
    ensures g == g' && p == p' && c == c'
  {
    var u, n := geo.ParallelUnit(), geo.Chunk();
    Arithmetic.Distribute2(g * u, p, n);
    Arithmetic.Distribute2(g' * u, p', n);
    Arithmetic.ThreeDigitsUnique(g, p, c, g', p', c', u, n);
  }

  lemma {:induction false} IndexCarries(geo: Geometry, g: nat, p: nat)
    ensures IndexOf(geo, g, p, geo.Chunk()) == IndexOf(geo, g, p + 1, 0)
    ensures IndexOf(geo, g, geo.ParallelUnit(), 0) == IndexOf(geo, g + 1, 0, 0)
    ensures IndexOf(geo, 0, 0, 0) == 0 && IndexOf(geo, geo.group, 0, 0) == geo.Descriptors()
  {
    var u, n := geo.ParallelUnit(), geo.Chunk();
    Arithmetic.Distribute2(p, 1, n);
    Arithmetic.Distribute2(g, 1, u);
    Arithmetic.Distribute2(g * u, u, n);
  }

  lemma {:induction false} FilledAll(geo: Geometry, m: Mask, ds: seq<ChunkDescriptor>,
      nand: seq<Programmed>)
    requires FilledTo(geo, m, ds, geo.Descriptors()) && |ds| == geo.Descriptors() == |nand|
    requires forall i | 0 <= i < |nand| :: nand[i] == Programmed(0, true)
    ensures StatesOk(geo, ds) && Agrees(geo, ds, nand, {})
    ensures forall g: nat, p: nat, c: nat {:trigger IndexOf(geo, g, p, c)} |
      g < geo.group && p < geo.ParallelUnit() && c < geo.Chunk() ::
      IndexOf(geo, g, p, c) < |ds| && ds[IndexOf(geo, g, p, c)] == NewChunk(geo, m, g, p, c)
  {
    forall g: nat, p: nat, c: nat | g < geo.group && p < geo.ParallelUnit() && c < geo.Chunk()
      ensures IndexOf(geo, g, p, c) < |ds|
    {
      IndexInRange(geo, g, p, c);
    }
  }

  // The status bit of entry k: the first 32 entries are in one word of the response, the others in
  // the next; there is none for later entries.
  predicate Marked(dword0: set<nat>, reserved: set<nat>, k: nat) {
    if k < 32 then k in dword0 else k < 64 && k - 32 in reserved
  }

  // Exactly the entries from a on, below n, are marked.
  ghost predicate MarkedFrom(dword0: set<nat>, reserved: set<nat>, a: nat, n: nat) {
    forall k: nat :: k < 64 ==> (Marked(dword0, reserved, k) <==> a <= k < n)
  }

  lemma {:induction false} LeadersStep(geo: Geometry, m: Mask, lbas: seq<nat>, block: bool, i: nat)
    requires i < |lbas|
    ensures var before := Leaders(geo, m, lbas[..i], block);
      Leaders(geo, m, lbas[..i + 1], block) ==
      if |before| > 0 && Joins(UnitOf(geo, m, before[|before| - 1]), UnitOf(geo, m, lbas[i]), block) then before
      else before + [lbas[i]]
  {
    assert lbas[..i + 1][..i] == lbas[..i];
  }

  lemma {:induction false} LeadersAmong(geo: Geometry, m: Mask, lbas: seq<nat>, block: bool)
    ensures |Leaders(geo, m, lbas, block)| <= |lbas|
    ensures forall lba | lba in Leaders(geo, m, lbas, block) :: lba in lbas
  {
    if |lbas| > 0 {
      LeadersAmong(geo, m, lbas[..|lbas| - 1], block);
      forall lba | lba in lbas[..|lbas| - 1] ensures lba in lbas { }
    }
  }

  lemma {:induction false} AllUnitsIn(geo: Geometry, m: Mask, lbas: seq<nat>, ds: seq<ChunkDescriptor>)
    requires |ds| == geo.Descriptors() && forall lba | lba in lbas :: InRange(geo, m, lba)
    ensures AllIn(geo, ds, UnitsOf(geo, m, lbas))
  {
    forall k | 0 <= k < |lbas| ensures var u := UnitsOf(geo, m, lbas)[k]; u.index < |ds| && u.page < geo.page {
      assert lbas[k] in lbas;
      UnitInRange(geo, m, lbas[k]);
    }
  }

  class OpenChannelSSD20 {
    const geo: Geometry
    const m: Mask
    const pDescriptor: array<ChunkDescriptor>

    // What was programmed to each block; the pages of each chunk accepted since it was last freed; and the
    // chunks ever freed without an erase.
    ghost var nand: seq<Programmed>
    ghost var accepted: seq<Programmed>
    ghost var unerased: set<nat>

    ghost predicate Valid()
      reads this, pDescriptor
    {
      && StatesOk(geo, pDescriptor[..]) && Agrees(geo, pDescriptor[..], accepted, {})
      && Agrees(geo, pDescriptor[..], nand, unerased)
    }

    constructor (geo: Geometry)
      requires geo.Structure().Valid()
      ensures Valid() && this.geo == geo && Packed(geo.Structure(), m) && unerased == {}
      ensures forall g: nat, p: nat, c: nat {:trigger IndexOf(geo, g, p, c)} |
        g < geo.group && p < geo.ParallelUnit() && c < geo.Chunk() ::
        IndexOf(geo, g, p, c) < pDescriptor.Length
          && pDescriptor[..][IndexOf(geo, g, p, c)] == NewChunk(geo, m, g, p, c)
      ensures fresh(pDescriptor)
    {
      var mask := InitMasks(geo.Structure());
      this.geo, m := geo, mask;
      pDescriptor := new ChunkDescriptor[geo.Descriptors()](_ => ChunkDescriptor(Free, 0, 0, 0));
      nand, unerased := seq(geo.Descriptors(), _ => Programmed(0, true)), {};
      accepted := nand;
      new;
      hide MakeLBA, Packed, IndexOf, FilledTo, NewChunk, StatesOk, Agrees;
      Fill();
      FilledAll(geo, m, pDescriptor[..], nand);
    }

    method Fill()
      requires pDescriptor.Length == geo.Descriptors()
      modifies pDescriptor
      ensures FilledTo(geo, m, pDescriptor[..], geo.Descriptors())
    {
      hide MakeLBA, IndexOf, FilledTo;
      IndexCarries(geo, 0, 0);
      NothingFilled(pDescriptor[..]);
      for g := 0 to geo.group
        invariant FilledTo(geo, m, pDescriptor[..], IndexOf(geo, g, 0, 0))
      {
        for p := 0 to geo.ParallelUnit()
          invariant FilledTo(geo, m, pDescriptor[..], IndexOf(geo, g, p, 0))
        {
          for c := 0 to geo.Chunk()
            invariant FilledTo(geo, m, pDescriptor[..], IndexOf(geo, g, p, c))
          {
            FillStep(geo, m, pDescriptor[..], g, p, c);
            ghost var before := pDescriptor[..];
            pDescriptor[IndexOf(geo, g, p, c)] := ChunkDescriptor(Free, MakeLBA(m, g, p, c, 0), geo.ChunkSize(), 0);
            assert pDescriptor[..] == before[IndexOf(geo, g, p, c) := NewChunk(geo, m, g, p, c)];
          }
          IndexCarries(geo, g, p);
        }
        IndexCarries(geo, g, 0);
      }
    }

    lemma {:induction false} NothingFilled(ds: seq<ChunkDescriptor>)
      ensures FilledTo(geo, m, ds, 0)
    {
    }

    // convertUnit for a vector command: the flash pages, and the entries for their chunks.
    method ConvertUnit(lbaList: seq<nat>, block: bool) returns (list: seq<Nand>, chunks: seq<Unit>)
      requires forall lba | lba in lbaList :: InRange(geo, m, lba)
      ensures list == NandsOf(geo, m, Leaders(geo, m, lbaList, block))
      ensures chunks == UnitsOf(geo, m, Leaders(geo, m, lbaList, block))
    {
      hide ParseLBA, IndexOf, NandOf, UnitOf, NandOfLba, Joins, InRange, Leaders, NandsOf, UnitsOf;
      list, chunks := [], [];
      NothingLeads(lbaList, block);
      for i := 0 to |lbaList|
        invariant list == NandsOf(geo, m, Leaders(geo, m, lbaList[..i], block))
        invariant chunks == UnitsOf(geo, m, Leaders(geo, m, lbaList[..i], block))
      {
        ghost var leaders := Leaders(geo, m, lbaList[..i], block);
        LeadersStep(geo, m, lbaList, block, i);
        var temp, unit := NandOfLba(geo, m, lbaList[i]), UnitOf(geo, m, lbaList[i]);
        var same := false;
        AppendLeader(leaders, lbaList[i]);
        if |list| > 0 {
          LeadersAmong(geo, m, lbaList[..i], block);
          assert leaders[|list| - 1] in leaders && lbaList[i] in lbaList;
          SameUnit(geo, m, leaders[|list| - 1], lbaList[i], block);
          LastNand(leaders);
          var back := list[|list| - 1];
          same := back.SameBlock(temp) && (block || back.page == temp.page);
        }
        if !same {
          chunks := chunks + [unit];
          list := list + [temp];
        }
      }
      assert lbaList[..|lbaList|] == lbaList;
    }

    lemma {:induction false} NothingLeads(lbaList: seq<nat>, block: bool)
      ensures var leaders := Leaders(geo, m, lbaList[..0], block);
        NandsOf(geo, m, leaders) == [] && UnitsOf(geo, m, leaders) == []
    {
    }

    lemma {:induction false} AppendLeader(leaders: seq<nat>, lba: nat)
      ensures NandsOf(geo, m, leaders + [lba]) == NandsOf(geo, m, leaders) + [NandOfLba(geo, m, lba)]
      ensures UnitsOf(geo, m, leaders + [lba]) == UnitsOf(geo, m, leaders) + [UnitOf(geo, m, lba)]
    {
    }

    lemma {:induction false} LastNand(leaders: seq<nat>)
      requires |leaders| > 0
      ensures var n := |leaders| - 1; NandsOf(geo, m, leaders)[n] == NandOfLba(geo, m, leaders[n])
    {
    }

    // The status bits for a refused entry.
    method Mark(dword0: set<nat>, reserved: set<nat>, k: nat, ghost a: nat) returns (d: set<nat>, r: set<nat>)
      requires MarkedFrom(dword0, reserved, a, k) && a <= k < 64
      ensures MarkedFrom(d, r, a, k + 1)
    {
      d, r := dword0, reserved;
      if k < 32 {
        d := d + {k};
      } else {
        r := r + {k - 32};
      }
      forall j: nat | j < 64 ensures Marked(d, r, j) <==> a <= j < k + 1 {
        assert Marked(dword0, reserved, j) <==> a <= j < k;
      }
    }

    // Marked entries are taken off the list.
    method RemoveMarked(all: seq<Nand>, dword0: set<nat>, reserved: set<nat>, ghost a: nat) returns (list: seq<Nand>)
      requires a <= |all| <= 64 && MarkedFrom(dword0, reserved, a, |all|)
      ensures list == all[..a]
    {
      list := all;
      var i, k := 0, 0;
      while i < |list|
        invariant k <= |all| && i == (if k < a then k else a) && list == all[..i] + all[k..]
        decreases |all| - k
      {
        hide Marked;
        assert list[..i] == all[..i] && list[i + 1..] == all[k + 1..];
        assert Marked(dword0, reserved, k) <==> a <= k;
        if Marked(dword0, reserved, k) {
          list := list[..i] + list[i + 1..];
        } else {
          assert list == all[..k + 1] + all[k + 1..];
          i := i + 1;
        }
        k := k + 1;
      }
    }

    // A vector write: the pages sent to the flash are those of the entries before the first refused one.
    method WriteInternal(lbaList: seq<nat>) returns (sent: seq<Nand>, err: bool, dword0: set<nat>, reserved: set<nat>)
      requires Valid() && |lbaList| <= 64 && forall lba | lba in lbaList :: InRange(geo, m, lba)
      modifies pDescriptor, `nand, `accepted
      ensures Valid()
      ensures var leaders := Leaders(geo, m, lbaList, false);
        var units := UnitsOf(geo, m, leaders);
        AllIn(geo, old(pDescriptor[..]), units) &&
        var (d, a) := Accepting(geo, old(pDescriptor[..]), units, |units|);
        && pDescriptor[..] == d && sent == NandsOf(geo, m, leaders)[..a] && err == (a < |units|)
        && (err ==> MarkedFrom(dword0, reserved, a, |units|))
        && (!err ==> forall k: nat | k < 64 :: Marked(dword0, reserved, k))
        && nand == ProgramAll(old(nand), units, a) && accepted == ProgramAll(old(accepted), units, a)
        && UnitsIn(old(accepted), units) && FirstRefused(old(accepted), units, |units|, a)
      ensures Served(geo, m, old(accepted), WriteOp(lbaList), err, accepted)
    {
      hide ParseLBA, IndexOf, NandOf, UnitOf, NandOfLba, Joins, CanWrite, Written, StatesOk, Agrees, InRange, Marked,
        MarkedFrom, FirstRefused, Ascending;
      ghost var ds := pDescriptor[..];
      var list, chunks := ConvertUnit(lbaList, false);
      LeadersAmong(geo, m, lbaList, false);
      DescriptorCount();
      AllUnitsIn(geo, m, Leaders(geo, m, lbaList, false), ds);
      ghost var a;
      err, dword0, reserved, a := UpdateWritten(chunks);
      if !err {
        dword0, reserved := Bits(32), Bits(32);
        AllMarked();
        sent := list;
      } else {
        sent := RemoveMarked(list, dword0, reserved, a);
      }
      WriteKeeps(geo, ds, chunks, |chunks|, nand, unerased);
      WriteKeeps(geo, ds, chunks, |chunks|, accepted, {});
      AcceptsInOrder(geo, ds, chunks, |chunks|, accepted);
      AcceptedExactly(accepted, chunks, a);
      nand, accepted := ProgramAll(nand, chunks, a), ProgramAll(accepted, chunks, a);
    }

    lemma {:induction false} DescriptorCount()
      requires Valid()
      ensures |pDescriptor[..]| == geo.Descriptors() == |nand| == |accepted|
    {
    }

    // The lowest n bits.
    static function Bits(n: nat): (b: set<nat>)
      ensures forall k: nat :: k in b <==> k < n
    {
      if n == 0 then {} else Bits(n - 1) + {n - 1}
    }

    lemma {:induction false} AllMarked()
      ensures forall k: nat | k < 64 :: Marked(Bits(32), Bits(32), k)
    {
    }

    // The chunk updates of a write.
    method UpdateWritten(chunks: seq<Unit>) returns (err: bool, dword0: set<nat>, reserved: set<nat>, ghost a: nat)
      requires AllIn(geo, pDescriptor[..], chunks) && |chunks| <= 64
      modifies pDescriptor
      ensures (pDescriptor[..], a) == Accepting(geo, old(pDescriptor[..]), chunks, |chunks|)
      ensures err == (a < |chunks|) && MarkedFrom(dword0, reserved, a, |chunks|)
    {
      hide Marked;
      ghost var ds := pDescriptor[..];
      err, dword0, reserved, a := false, {}, {}, 0;
      NoneMarked();
      for i := 0 to |chunks|
        invariant |pDescriptor[..]| == |ds| && (pDescriptor[..], a) == Accepting(geo, ds, chunks, i)
        invariant err == (a < i) && MarkedFrom(dword0, reserved, a, i)
      {
        var u := chunks[i];
        var d := pDescriptor[u.index];
        if d.chunkState == Offline || d.chunkState == Closed {
          err := true;
        } else if d.chunkState == Open && d.writePointer / geo.writeSize > u.page {
          err := true;
        }
        ghost var before := pDescriptor[..];
        if !err {
          d := d.(writePointer := (u.page + 1) * geo.writeSize, chunkState := Open);
          if u.page == geo.page - 1 {
            d := d.(chunkState := Closed);
          }
          pDescriptor[u.index] := d;
          assert pDescriptor[..] == before[u.index := d];
          MarkNone(dword0, reserved, a, i);
          a := i + 1;
        } else {
          dword0, reserved := Mark(dword0, reserved, i, a);
        }
      }
    }

    lemma {:induction false} NoneMarked()
      ensures MarkedFrom({}, {}, 0, 0)
    {
    }

    lemma {:induction false} MarkNone(dword0: set<nat>, reserved: set<nat>, a: nat, i: nat)
      requires a == i && MarkedFrom(dword0, reserved, a, i)
      ensures MarkedFrom(dword0, reserved, i + 1, i + 1)
    {
    }

    // A vector reset: the erases sent to the flash are those before the first refused entry, but later
    // entries for closed chunks free their descriptors as well.
    method EraseInternal(lbaList: seq<nat>) returns (sent: seq<Nand>, err: bool, dword0: set<nat>, reserved: set<nat>)
      requires Valid() && |lbaList| <= 64 && forall lba | lba in lbaList :: InRange(geo, m, lba)
      modifies pDescriptor, `nand, `accepted, `unerased
      ensures Valid()
      ensures var leaders := Leaders(geo, m, lbaList, true);
        var units := UnitsOf(geo, m, leaders);
        AllIn(geo, old(pDescriptor[..]), units) &&
        var (d, e) := Resetting(geo, old(pDescriptor[..]), units, |units|);
        && pDescriptor[..] == d && sent == NandsOf(geo, m, leaders)[..e] && err == (e < |units|)
        && (err ==> MarkedFrom(dword0, reserved, e, |units|))
        && (!err ==> forall k: nat | k < 64 :: Marked(dword0, reserved, k))
        && nand == EraseAll(old(nand), units, e)
        && accepted == FreeAll(old(accepted), Freed(geo, old(pDescriptor[..]), units))
        && UnitsIn(old(accepted), units)
        && unerased == old(unerased) + Unerased(geo, old(pDescriptor[..]), units)
      ensures Served(geo, m, old(accepted), ResetOp(lbaList), err, accepted)
    {
      hide ParseLBA, IndexOf, NandOf, UnitOf, NandOfLba, Joins, StatesOk, Agrees, InRange, Marked, MarkedFrom,
        Freed, Unerased, FullOnce, FullNamed;
      ghost var ds := pDescriptor[..];
      var list, chunks := ConvertUnit(lbaList, true);
      LeadersAmong(geo, m, lbaList, true);
      DescriptorCount();
      AllUnitsIn(geo, m, Leaders(geo, m, lbaList, true), ds);
      ghost var e;
      err, dword0, reserved, e := UpdateReset(chunks);
      if !err {
        dword0, reserved := Bits(32), Bits(32);
        AllMarked();
        sent := list;
      } else {
        sent := RemoveMarked(list, dword0, reserved, e);
      }
      ResetKeeps(geo, ds, chunks, |chunks|);
      EraseKeeps(geo, ds, chunks, nand, unerased);
      FreeKeeps(geo, ds, chunks, accepted);
      ResetsFullOnce(geo, ds, chunks, |chunks|, accepted);
      FreedAreFull(geo, ds, chunks, accepted);
      nand, accepted := EraseAll(nand, chunks, e), FreeAll(accepted, Freed(geo, ds, chunks));
      unerased := unerased + Unerased(geo, ds, chunks);
    }

    // The chunk updates of a reset. Once an entry is refused every later one is reported as refused.
    method UpdateReset(chunks: seq<Unit>) returns (err: bool, dword0: set<nat>, reserved: set<nat>, ghost e: nat)
      requires AllIn(geo, pDescriptor[..], chunks) && |chunks| <= 64
      modifies pDescriptor
      ensures (pDescriptor[..], e) == Resetting(geo, old(pDescriptor[..]), chunks, |chunks|)
      ensures err == (e < |chunks|) && MarkedFrom(dword0, reserved, e, |chunks|)
    {
      hide Marked, MarkedFrom;
      ghost var ds := pDescriptor[..];
      err, dword0, reserved, e := false, {}, {}, 0;
      NoneMarked();
      for i := 0 to |chunks|
        invariant |pDescriptor[..]| == |ds| && (pDescriptor[..], e) == Resetting(geo, ds, chunks, i)
        invariant err == (e < i) && MarkedFrom(dword0, reserved, e, i)
      {
        var u := chunks[i];
        var d := pDescriptor[u.index];
        ghost var before := pDescriptor[..];
        if d.chunkState == Offline {
          err := true;
        } else if d.chunkState == Free || d.chunkState == Open {
          err := true;
        } else {
          d := d.(writePointer := 0, chunkState := Free);
          pDescriptor[u.index] := d;
          assert pDescriptor[..] == before[u.index := d];
        }
        if err {
          dword0, reserved := Mark(dword0, reserved, i, e);
        } else {
          MarkNone(dword0, reserved, e, i);
          e := i + 1;
        }
      }
    }

    ghost predicate PagesOnce()
      reads this
    {
      |nand| == |accepted| && forall i: nat | i < |nand| :: accepted[i].inOrder && (i !in unerased ==> nand[i].inOrder)
    }

    lemma {:induction false} ValidMeansOnce()
      requires Valid()
      ensures PagesOnce()
    {
    }

    // Any run of vector writes and resets. Each is served as the pages accepted before it demand. No page of a
    // chunk is accepted twice without the chunk being freed in between; and none of a chunk never freed
    // without an erase is programmed twice without an erase in between.
    method Run(ops: seq<Op>) returns (errs: seq<bool>, ghost logs: seq<seq<Programmed>>)
      requires Valid() && forall op | op in ops :: |op.lbas| <= 64 && forall lba | lba in op.lbas ::
        InRange(geo, m, lba)
      modifies pDescriptor, `nand, `accepted, `unerased
      ensures Valid() && PagesOnce()
      ensures |errs| == |ops| && |logs| == |ops| + 1 && logs[0] == old(accepted) && logs[|ops|] == accepted
      ensures forall i | 0 <= i < |ops| :: Served(geo, m, logs[i], ops[i], errs[i], logs[i + 1])
    {
      hide StatesOk, Agrees, PagesOnce, InRange, Leaders, UnitsOf, NandsOf, Accepting, Resetting, AllIn, Freed,
        Unerased, ProgramAll, EraseAll, Served, FirstRefused, UnitsIn;
      errs, logs := [], [accepted];
      for i := 0 to |ops|
        invariant Valid()
        invariant |errs| == i && |logs| == i + 1 && logs[0] == old(accepted) && logs[i] == accepted
        invariant forall k | 0 <= k < i :: Served(geo, m, logs[k], ops[k], errs[k], logs[k + 1])
      {
        assert ops[i] in ops;
        match ops[i] {
          case WriteOp(lbas) =>
            var sent, err, dword0, reserved := WriteInternal(lbas);
            errs := errs + [err];
          case ResetOp(lbas) =>
            var sent, err, dword0, reserved := EraseInternal(lbas);
            errs := errs + [err];
        }
        logs := logs + [accepted];
      }
      ValidMeansOnce();
    }
  }

  datatype Op = WriteOp(lbas: seq<nat>) | ResetOp(lbas: seq<nat>)

  // What becomes of a command, given the pages accepted since each chunk was last freed. A write fails exactly
  // if it is not ascending, and what comes before its first entry out of order is accepted. A reset fails
  // exactly if it does not name full chunks, each once, and frees the full ones named.
  ghost predicate Served(geo: Geometry, m: Mask, log: seq<Programmed>, op: Op, err: bool, log': seq<Programmed>) {
    var units := UnitsOf(geo, m, Leaders(geo, m, op.lbas, op.ResetOp?));
    UnitsIn(log, units) &&
    if op.WriteOp? then
      && (err <==> !Ascending(log, units, |units|))
      && exists a: nat :: FirstRefused(log, units, |units|, a) && log' == ProgramAll(log, units, a)
    else
      (err <==> !FullOnce(geo, log, units, |units|)) && log' == FreeAll(log, FullNamed(geo, log, units))
  }
}
