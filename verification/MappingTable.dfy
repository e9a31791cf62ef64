// The page-mapping table and the blocks in use, as values: which physical unit holds
// which logical unit, and what one step of the FTL does to that.
module MappingTable {
  import opened Blocks
  import opened Options

  datatype Config = Config(
    totalPhysicalBlocks: nat,
    pagesInBlock: nat,
    ioUnitInPage: nat,
    pageCountToMaxPerf: nat,
    bRandomTweak: bool)
  {
    // Mapping entries per logical page.
    function bitsetSize(): nat { if bRandomTweak then ioUnitInPage else 1 }

    predicate Valid() {
      1 <= totalPhysicalBlocks && 1 <= pagesInBlock && 1 <= ioUnitInPage && 1 <= pageCountToMaxPerf
    }
  }

  datatype Location = Location(block: nat, page: nat)
  datatype Physical = Physical(block: nat, page: nat, unit: nat)

  // `flash` is what the physical units hold; the simulator itself keeps no user data.
  datatype Maps = Maps(table: map<nat, seq<Location>>, blocks: map<nat, BlockState>, flash: map<Physical, nat>)

  predicate Mapped(c: Config, at: Location) {
    at.block < c.totalPhysicalBlocks && at.page < c.pagesInBlock
  }

  function Nowhere(c: Config): Location { Location(c.totalPhysicalBlocks, c.pagesInBlock) }

  ghost predicate BlocksWellFormed(c: Config, s: Maps) {
    forall b | b in s.blocks ::
      b < c.totalPhysicalBlocks && s.blocks[b].idx == b && WellFormed(s.blocks[b], c.pagesInBlock, c.ioUnitInPage)
  }

  ghost predicate TableWellFormed(c: Config, s: Maps) {
    forall l | l in s.table ::
      && |s.table[l]| == c.bitsetSize()
      && forall i | 0 <= i < c.bitsetSize() :: Mapped(c, s.table[l][i]) || s.table[l][i] == Nowhere(c)
  }

  // The unit is valid and belongs to logical unit (l, i).
  ghost predicate Holds(c: Config, s: Maps, b: nat, p: nat, i: nat, l: nat)
    requires BlocksWellFormed(c, s)
  {
    b in s.blocks && p < c.pagesInBlock && i < c.ioUnitInPage && s.blocks[b].valid[p][i] && s.blocks[b].lpns[p][i] == l
  }

  // Mapped entries point at valid units of their own, other than the entries (lpn, i) with i
  // in `pending`, which are between invalidation and rewriting.
  ghost predicate TablePointsToValid(c: Config, s: Maps, lpn: nat, pending: set<nat>)
    requires BlocksWellFormed(c, s) && TableWellFormed(c, s)
  {
    forall l: nat, i: nat {:trigger s.table[l][i]} |
      l in s.table && i < c.bitsetSize() && !(l == lpn && i in pending) && Mapped(c, s.table[l][i]) ::
      Holds(c, s, s.table[l][i].block, s.table[l][i].page, i, l)
  }

  // Every valid unit is where the table says its logical unit is.
  ghost predicate ValidIsMapped(c: Config, s: Maps, lpn: nat, pending: set<nat>)
    requires BlocksWellFormed(c, s) && TableWellFormed(c, s)
  {
    forall b: nat, p: nat, i: nat, l: nat | Holds(c, s, b, p, i, l) ::
      i < c.bitsetSize() && l in s.table && s.table[l][i] == Location(b, p) && !(l == lpn && i in pending)
  }

  ghost predicate ValidHasData(c: Config, s: Maps)
    requires BlocksWellFormed(c, s)
  {
    forall b: nat, p: nat, i: nat, l: nat | Holds(c, s, b, p, i, l) :: Physical(b, p, i) in s.flash
  }

  ghost predicate MapsOkExcept(c: Config, s: Maps, lpn: nat, pending: set<nat>) {
    && BlocksWellFormed(c, s)
    && TableWellFormed(c, s)
    && TablePointsToValid(c, s, lpn, pending)
    && ValidIsMapped(c, s, lpn, pending)
    && ValidHasData(c, s)
  }

  ghost predicate MapsOk(c: Config, s: Maps) { MapsOkExcept(c, s, 0, {}) }

  // What a read of logical unit (l, i) resolves to.
  ghost function Look(c: Config, s: Maps, l: nat, i: nat): Option<nat> {
    if l in s.table && i < |s.table[l]| && Mapped(c, s.table[l][i])
       && Physical(s.table[l][i].block, s.table[l][i].page, i) in s.flash
    then Some(s.flash[Physical(s.table[l][i].block, s.table[l][i].page, i)])
    else None
  }

  // ---------- single steps ----------

  function InvalidateAt(s: Maps, b: nat, p: nat, i: nat): Maps
    requires b in s.blocks && p < |s.blocks[b].valid| && i < |s.blocks[b].valid[p]|
  {
    s.(blocks := s.blocks[b := Invalidated(s.blocks[b], p, i)])
  }

  // Unit i of block d, at its write pointer, becomes the home of (lpn, i).
  function WriteAt(s: Maps, d: nat, lpn: nat, i: nat, data: nat): Maps
    requires d in s.blocks && i < |s.blocks[d].next|
    requires var p := s.blocks[d].next[i];
      && p < |s.blocks[d].valid| && p < |s.blocks[d].erased| && p < |s.blocks[d].lpns|
      && i < |s.blocks[d].valid[p]| && i < |s.blocks[d].erased[p]| && i < |s.blocks[d].lpns[p]|
    requires lpn in s.table && i < |s.table[lpn]|
  {
    var p := s.blocks[d].next[i];
    Maps(s.table[lpn := s.table[lpn][i := Location(d, p)]],
         s.blocks[d := Written(s.blocks[d], p, lpn, i)],
         s.flash[Physical(d, p, i) := data])
  }

  // Invalidation removes exactly one holder.
  lemma {:induction false} InvalidateHolds(c: Config, s: Maps, b: nat, p: nat, i: nat)
    requires BlocksWellFormed(c, s) && b in s.blocks && p < c.pagesInBlock && i < c.ioUnitInPage
    ensures BlocksWellFormed(c, InvalidateAt(s, b, p, i))
    ensures forall b': nat, p': nat, i': nat, l: nat ::
      Holds(c, InvalidateAt(s, b, p, i), b', p', i', l)
      <==> Holds(c, s, b', p', i', l) && !(b' == b && p' == p && i' == i)
  {
    InvalidateKeeps(s.blocks[b], p, i, c.pagesInBlock, c.ioUnitInPage);
    assert BlocksWellFormed(c, InvalidateAt(s, b, p, i));
  }

  lemma {:induction false} InvalidateStep(c: Config, s: Maps, lpn: nat, pending: set<nat>, i: nat)
    requires MapsOkExcept(c, s, lpn, pending) && lpn in s.table && i < c.bitsetSize() && i !in pending
      && Mapped(c, s.table[lpn][i])
    requires c.bitsetSize() <= c.ioUnitInPage
    ensures s.table[lpn][i].block in s.blocks
    ensures MapsOkExcept(c, InvalidateAt(s, s.table[lpn][i].block, s.table[lpn][i].page, i), lpn, pending + {i})
  {
    var at := s.table[lpn][i];
    assert Holds(c, s, at.block, at.page, i, lpn);
    var t := InvalidateAt(s, at.block, at.page, i);
    InvalidateHolds(c, s, at.block, at.page, i);
    forall l: nat, j: nat | l in t.table && j < c.bitsetSize() && !(l == lpn && j in pending + {i})
      && Mapped(c, t.table[l][j])
      ensures Holds(c, t, t.table[l][j].block, t.table[l][j].page, j, l)
    {
      assert Holds(c, s, s.table[l][j].block, s.table[l][j].page, j, l);
    }
  }

  // An entry that is not mapped needs no invalidation.
  lemma {:induction false} UnmappedStep(c: Config, s: Maps, lpn: nat, pending: set<nat>, i: nat)
    requires MapsOkExcept(c, s, lpn, pending) && lpn in s.table && i < c.bitsetSize() && !Mapped(c, s.table[lpn][i])
    ensures MapsOkExcept(c, s, lpn, pending + {i})
  {
    forall b: nat, p: nat, j: nat, l: nat | Holds(c, s, b, p, j, l) ensures !(l == lpn && j in pending + {i}) {
      assert s.table[l][j] == Location(b, p);
      assert Mapped(c, Location(b, p));
    }
  }

  // A write adds exactly one holder, where nothing was valid.
  lemma {:induction false} WriteHolds(c: Config, s: Maps, d: nat, lpn: nat, i: nat, data: nat)
    requires BlocksWellFormed(c, s) && d in s.blocks && i < c.ioUnitInPage && s.blocks[d].next[i] < c.pagesInBlock
    requires lpn in s.table && i < |s.table[lpn]|
    ensures var q := s.blocks[d].next[i];
      var t := WriteAt(s, d, lpn, i, data);
      && CanWrite(s.blocks[d], q, i) && BlocksWellFormed(c, t)
      && (forall l :: !Holds(c, s, d, q, i, l))
      && (forall b: nat, p: nat, j: nat, l: nat :: Holds(c, t, b, p, j, l) <==>
           if b == d && p == q && j == i then l == lpn else Holds(c, s, b, p, j, l))
  {
    WriteKeeps(s.blocks[d], s.blocks[d].next[i], lpn, i, c.pagesInBlock, c.ioUnitInPage);
    assert BlocksWellFormed(c, WriteAt(s, d, lpn, i, data));
  }

  lemma {:induction false} WriteStep(c: Config, s: Maps, lpn: nat, pending: set<nat>, d: nat, i: nat, data: nat)
    requires MapsOkExcept(c, s, lpn, pending) && lpn in s.table && i < c.bitsetSize() && i in pending
    requires c.bitsetSize() <= c.ioUnitInPage
    requires d in s.blocks && s.blocks[d].next[i] < c.pagesInBlock
    ensures MapsOkExcept(c, WriteAt(s, d, lpn, i, data), lpn, pending - {i})
    ensures CanWrite(s.blocks[d], s.blocks[d].next[i], i)
  {
    var q := s.blocks[d].next[i];
    var t := WriteAt(s, d, lpn, i, data);
    WriteHolds(c, s, d, lpn, i, data);
    forall l: nat, j: nat | l in t.table && j < c.bitsetSize() && !(l == lpn && j in pending - {i})
      && Mapped(c, t.table[l][j])
      ensures Holds(c, t, t.table[l][j].block, t.table[l][j].page, j, l)
    {
      if !(l == lpn && j == i) {
        assert Holds(c, s, s.table[l][j].block, s.table[l][j].page, j, l);
      }
    }
    forall b: nat, p: nat, j: nat, l: nat | Holds(c, t, b, p, j, l)
      ensures j < c.bitsetSize() && l in t.table && t.table[l][j] == Location(b, p) && !(l == lpn && j in pending - {i})
    {
    }
  }

  // The rewritten unit reads as the new data, and no other as anything else.
  lemma {:induction false} WriteLooks(c: Config, s: Maps, lpn: nat, pending: set<nat>, d: nat, i: nat, data: nat)
    requires MapsOkExcept(c, s, lpn, pending) && lpn in s.table && i < c.bitsetSize() && i in pending
    requires c.bitsetSize() <= c.ioUnitInPage
    requires d in s.blocks && s.blocks[d].next[i] < c.pagesInBlock
    ensures Look(c, WriteAt(s, d, lpn, i, data), lpn, i) == Some(data)
    ensures forall l: nat, j: nat | !(l == lpn && j in pending) ::
      Look(c, WriteAt(s, d, lpn, i, data), l, j) == Look(c, s, l, j)
  {
    var q := s.blocks[d].next[i];
    var t := WriteAt(s, d, lpn, i, data);
    WriteHolds(c, s, d, lpn, i, data);
    forall l: nat, j: nat | !(l == lpn && j in pending) ensures Look(c, t, l, j) == Look(c, s, l, j) {
      if l in s.table && j < |s.table[l]| && Mapped(c, s.table[l][j]) {
        assert Holds(c, s, s.table[l][j].block, s.table[l][j].page, j, l);
      }
    }
  }

  // No read can tell the two states apart.
  ghost predicate SameView(c: Config, s: Maps, t: Maps) {
    forall l: nat, i: nat :: Look(c, s, l, i) == Look(c, t, l, i)
  }

  // Garbage collection moves valid unit (v, p, i), data and all, to block d.
  ghost function MoveAt(c: Config, s: Maps, v: nat, p: nat, i: nat, d: nat): Maps
    requires MapsOk(c, s) && c.bitsetSize() <= c.ioUnitInPage
    requires v in s.blocks && d in s.blocks && v != d && p < c.pagesInBlock && i < c.ioUnitInPage
    requires s.blocks[v].valid[p][i] && s.blocks[d].next[i] < c.pagesInBlock
  {
    assert Holds(c, s, v, p, i, s.blocks[v].lpns[p][i]);
    WriteAt(InvalidateAt(s, v, p, i), d, s.blocks[v].lpns[p][i], i, s.flash[Physical(v, p, i)])
  }

  // The move finds its table entry, writes an erased unit at its write pointer, keeps the
  // bijection and changes what no read returns.
  lemma {:induction false} MoveStep(c: Config, s: Maps, v: nat, p: nat, i: nat, d: nat)
    requires MapsOk(c, s) && c.bitsetSize() <= c.ioUnitInPage
    requires v in s.blocks && d in s.blocks && v != d && p < c.pagesInBlock && i < c.ioUnitInPage
    requires s.blocks[v].valid[p][i] && s.blocks[d].next[i] < c.pagesInBlock
    ensures s.blocks[v].lpns[p][i] in s.table && i < |s.table[s.blocks[v].lpns[p][i]]|
    ensures CanWrite(s.blocks[d], s.blocks[d].next[i], i)
    ensures MapsOk(c, MoveAt(c, s, v, p, i, d)) && SameView(c, s, MoveAt(c, s, v, p, i, d))
  {
    var l := s.blocks[v].lpns[p][i];
    assert Holds(c, s, v, p, i, l);
    var t := InvalidateAt(s, v, p, i);
    InvalidateStep(c, s, l, {}, i);
    WriteStep(c, t, l, {i}, d, i, s.flash[Physical(v, p, i)]);
    WriteLooks(c, t, l, {i}, d, i, s.flash[Physical(v, p, i)]);
    assert Look(c, s, l, i) == Some(s.flash[Physical(v, p, i)]);
    assert {i} - {i} == {};
    var u := MoveAt(c, s, v, p, i, d);
    forall l': nat, j: nat ensures Look(c, u, l', j) == Look(c, s, l', j) {
      assert (l' == l && j == i) || Look(c, u, l', j) == Look(c, t, l', j);
    }
  }

  // A new logical page starts with nothing mapped.
  lemma {:induction false} CreateStep(c: Config, s: Maps, lpn: nat)
    requires MapsOk(c, s) && lpn !in s.table
    ensures var t := s.(table := s.table[lpn := seq(c.bitsetSize(), _ => Nowhere(c))]);
      && MapsOk(c, t) && MapsOkExcept(c, t, lpn, {})
      && (forall l: nat, i: nat :: Look(c, t, l, i) == Look(c, s, l, i))
  {
    var t := s.(table := s.table[lpn := seq(c.bitsetSize(), _ => Nowhere(c))]);
    assert BlocksWellFormed(c, t);
    forall b: nat, p: nat, i: nat, l: nat ensures Holds(c, t, b, p, i, l) <==> Holds(c, s, b, p, i, l) {
    }
    assert TablePointsToValid(c, t, lpn, {});
  }

  // A logical page with every unit invalidated can leave the table.
  lemma {:induction false} RemoveStep(c: Config, s: Maps, lpn: nat, pending: set<nat>)
    requires MapsOkExcept(c, s, lpn, pending) && lpn in s.table
    requires forall i: nat | i < c.bitsetSize() :: i in pending
    ensures var t := s.(table := s.table - {lpn});
      && MapsOk(c, t)
      && (forall l: nat, i: nat :: Look(c, t, l, i) == if l == lpn then None else Look(c, s, l, i))
  {
    var t := s.(table := s.table - {lpn});
    assert BlocksWellFormed(c, t);
    forall b: nat, p: nat, i: nat, l: nat ensures Holds(c, t, b, p, i, l) <==> Holds(c, s, b, p, i, l) {
    }
    assert TablePointsToValid(c, t, 0, {});
  }

  // A fresh block coming into use changes nothing that is mapped.
  lemma {:induction false} AddBlockStep(c: Config, s: Maps, b: nat, st: BlockState, lpn: nat, pending: set<nat>)
    requires MapsOkExcept(c, s, lpn, pending)
    requires b !in s.blocks && b < c.totalPhysicalBlocks && st.idx == b && Fresh(st, c.pagesInBlock, c.ioUnitInPage)
    ensures MapsOkExcept(c, s.(blocks := s.blocks[b := st]), lpn, pending)
  {
    var t := s.(blocks := s.blocks[b := st]);
    FreshIsEmpty(st, c.pagesInBlock, c.ioUnitInPage);
    assert BlocksWellFormed(c, t);
    forall b': nat, p: nat, i: nat, l: nat ensures Holds(c, t, b', p, i, l) <==> Holds(c, s, b', p, i, l) {
    }
    assert TablePointsToValid(c, t, lpn, pending);
  }

  lemma {:induction false} FreshIsEmpty(st: BlockState, pages: nat, units: nat)
    requires Fresh(st, pages, units)
    ensures forall p, i | 0 <= p < pages && 0 <= i < units :: !st.valid[p][i]
  {
    FreshHasNothingValid(st, pages, units);
    NothingValidIsEmpty(st);
  }

  lemma {:induction false} NothingValidIsEmpty(st: BlockState)
    requires NothingValid(st)
    ensures forall p, i | 0 <= p < |st.valid| && 0 <= i < |st.valid[p]| :: !st.valid[p][i]
  {
    forall p, i | 0 <= p < |st.valid| && 0 <= i < |st.valid[p]| ensures !st.valid[p][i] {
      assert st.valid[p][i] ==> (p, i) in ValidUnits(st);
    }
  }

  // Nothing is mapped to a block without valid units, so it can leave.
  lemma {:induction false} RemoveBlockStep(c: Config, s: Maps, b: nat)
    requires MapsOk(c, s) && b in s.blocks && NothingValid(s.blocks[b])
    ensures MapsOk(c, s.(blocks := s.blocks - {b}))
  {
    var t := s.(blocks := s.blocks - {b});
    assert BlocksWellFormed(c, t);
    NothingValidIsEmpty(s.blocks[b]);
    forall b': nat, p: nat, i: nat, l: nat ensures Holds(c, t, b', p, i, l) <==> Holds(c, s, b', p, i, l) {
    }
    assert TablePointsToValid(c, t, 0, {});
  }

  // The mapping is a bijection: the table names a unit exactly when that unit is valid and
  // owned by the entry.
  lemma {:induction false} MappingIsBijection(c: Config, s: Maps, l: nat, i: nat, b: nat, p: nat)
    requires MapsOk(c, s) && c.bitsetSize() <= c.ioUnitInPage && b < c.totalPhysicalBlocks && p < c.pagesInBlock
    ensures l in s.table && i < c.bitsetSize() && s.table[l][i] == Location(b, p) <==> Holds(c, s, b, p, i, l)
  {
  }

  // ---------- counting ----------

  ghost function MappedUnits(c: Config, s: Maps): set<(nat, nat)> {
    set l, i | l in s.table && 0 <= i < |s.table[l]| && Mapped(c, s.table[l][i]) :: (l, i)
  }

  // Valid units of the blocks in use with index below n.
  ghost function ValidBelow(s: Maps, n: nat): set<Physical> {
    set b, u | b in s.blocks && b < n && u in ValidUnits(s.blocks[b]) :: Physical(b, u.0, u.1)
  }

  ghost function TotalValidBelow(s: Maps, n: nat): nat {
    if n == 0 then 0
    else TotalValidBelow(s, n - 1) + if n - 1 in s.blocks then |ValidUnits(s.blocks[n - 1])| else 0
  }

  lemma {:induction false} SameSize<A, B>(s: set<A>, t: set<B>, f: map<A, B>)
    requires f.Keys == s && f.Values == t
    requires forall x, y | x in s && y in s && x != y :: f[x] != f[y]
    ensures |s| == |t|
    decreases |s|
  {
    if s != {} {
      var x :| x in s;
      var g := map y | y in s && y != x :: f[y];
      assert g.Values == t - {f[x]} by {
        forall z | z in t - {f[x]} ensures z in g.Values {
          var y :| y in s && f[y] == z;
          assert g[y] == z;
        }
      }
      SameSize(s - {x}, t - {f[x]}, g);
    }
  }

  ghost function Located(b: nat, units: set<(nat, nat)>): set<Physical> {
    set u | u in units :: Physical(b, u.0, u.1)
  }

  lemma {:induction false} LocatedSize(b: nat, units: set<(nat, nat)>)
    ensures |Located(b, units)| == |units|
  {
    SameSize(units, Located(b, units), map u | u in units :: Physical(b, u.0, u.1));
  }

  lemma {:induction false} ValidBelowSplits(s: Maps, n: nat)
    requires n in s.blocks
    ensures ValidBelow(s, n + 1) == ValidBelow(s, n) + Located(n, ValidUnits(s.blocks[n]))
  {
    forall x | x in ValidBelow(s, n + 1) ensures x in ValidBelow(s, n) + Located(n, ValidUnits(s.blocks[n])) {
      assert (x.page, x.unit) in ValidUnits(s.blocks[x.block]);
    }
    forall x | x in Located(n, ValidUnits(s.blocks[n])) ensures x in ValidBelow(s, n + 1) {
      assert (x.page, x.unit) in ValidUnits(s.blocks[n]);
    }
  }

  lemma {:induction false} ValidBelowSkips(s: Maps, n: nat)
    requires n !in s.blocks
    ensures ValidBelow(s, n + 1) == ValidBelow(s, n)
  {
  }

  lemma {:induction false} DisjointSize<T>(a: set<T>, b: set<T>)
    requires a !! b
    ensures |a + b| == |a| + |b|
  {
  }

  lemma {:induction false} ValidBelowStep(s: Maps, n: nat)
    ensures |ValidBelow(s, n + 1)| == |ValidBelow(s, n)| + if n in s.blocks then |ValidUnits(s.blocks[n])| else 0
  {
    if n in s.blocks {
      ValidBelowSplits(s, n);
      LocatedSize(n, ValidUnits(s.blocks[n]));
      DisjointSize(ValidBelow(s, n), Located(n, ValidUnits(s.blocks[n])));
    } else {
      ValidBelowSkips(s, n);
    }
  }

  lemma {:induction false} CountBelow(s: Maps, n: nat)
    ensures |ValidBelow(s, n)| == TotalValidBelow(s, n)
  {
    if n == 0 {
      assert ValidBelow(s, 0) == {};
    } else {
      CountBelow(s, n - 1);
      ValidBelowStep(s, n - 1);
    }
  }

  // Where each mapped unit is.
  ghost function Places(c: Config, s: Maps): (f: map<(nat, nat), Physical>)
    ensures f.Keys == MappedUnits(c, s)
  {
    map u | u in MappedUnits(c, s) :: Physical(s.table[u.0][u.1].block, s.table[u.0][u.1].page, u.1)
  }

  lemma {:induction false} PlacesAreValid(c: Config, s: Maps)
    requires MapsOk(c, s) && c.bitsetSize() <= c.ioUnitInPage
    ensures forall u | u in MappedUnits(c, s) ::
      Holds(c, s, Places(c, s)[u].block, Places(c, s)[u].page, u.1, u.0)
  {
  }

  lemma {:induction false} PlacesCoverValid(c: Config, s: Maps)
    requires MapsOk(c, s) && c.bitsetSize() <= c.ioUnitInPage
    ensures Places(c, s).Values == ValidBelow(s, c.totalPhysicalBlocks)
  {
    PlacesAreValid(c, s);
    forall u | u in ValidBelow(s, c.totalPhysicalBlocks) ensures u in Places(c, s).Values {
      var l := s.blocks[u.block].lpns[u.page][u.unit];
      assert Holds(c, s, u.block, u.page, u.unit, l);
      assert Places(c, s)[(l, u.unit)] == u;
    }
    forall u | u in MappedUnits(c, s) ensures Places(c, s)[u] in ValidBelow(s, c.totalPhysicalBlocks) {
      assert (Places(c, s)[u].page, u.1) in ValidUnits(s.blocks[Places(c, s)[u].block]);
    }
  }

  // As many logical units are mapped as the blocks in use count valid ones.
  lemma {:induction false} MappedEqualsValid(c: Config, s: Maps)
    requires MapsOk(c, s) && c.bitsetSize() <= c.ioUnitInPage
    ensures |MappedUnits(c, s)| == TotalValidBelow(s, c.totalPhysicalBlocks)
  {
    var f := Places(c, s);
    PlacesAreValid(c, s);
    forall u, v | u in f && v in f && u != v ensures f[u] != f[v] {
      assert Holds(c, s, f[u].block, f[u].page, u.1, u.0);
      assert Holds(c, s, f[v].block, f[v].page, v.1, v.0);
    }
    SameSize(MappedUnits(c, s), f.Values, f);
    PlacesCoverValid(c, s);
    CountBelow(s, c.totalPhysicalBlocks);
  }
}
