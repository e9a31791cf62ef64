// The lines of the write cache: where lines may be, what they hold, and which line an eviction
// prefers. The ticks stored in lines are arbitrary, below the largest 64-bit one.
module CacheLines {
  import Arithmetic

  const MAX_TICK: nat := 0xFFFF_FFFF_FFFF_FFFF

  type Tick = t: nat | t < MAX_TICK witness 0

  datatype Policy = Random | Fifo | LeastRecentlyUsed

  datatype EvictMode = SuperPage | All

  datatype Config = Config(setSize: nat, waySize: nat, lineCountInSuperPage: nat, parallelIO: nat, lineSize: nat,
    useWriteCaching: bool, policy: Policy, evictMode: EvictMode)
  {
    ghost predicate Valid() {
      1 <= setSize && 1 <= waySize && 1 <= lineCountInSuperPage && 1 <= parallelIO
    }
  }

  datatype Line = Line(tag: nat, lastAccessed: Tick, insertedAt: Tick, dirty: bool, valid: bool)

  datatype Slot = Slot(setIdx: nat, wayIdx: nat)

  type Grid = seq<seq<Line>>

  const EMPTY_LINE := Line(0, 0, 0, false, false)

  predicate Shape(c: Config, g: Grid) {
    |g| == c.setSize && forall s | 0 <= s < |g| :: |g[s]| == c.waySize
  }

  predicate InGrid(c: Config, x: Slot) { x.setIdx < c.setSize && x.wayIdx < c.waySize }

  function At(g: Grid, x: Slot): Line {
    if x.setIdx < |g| && x.wayIdx < |g[x.setIdx]| then g[x.setIdx][x.wayIdx] else EMPTY_LINE
  }

  function Put(g: Grid, x: Slot, l: Line): Grid
    requires x.setIdx < |g| && x.wayIdx < |g[x.setIdx]|
  {
    g[x.setIdx := g[x.setIdx][x.wayIdx := l]]
  }

  // The position of a line in an I/O over all planes.
  function RowOf(c: Config, lca: nat): nat
    requires c.Valid()
  {
    lca % (c.parallelIO * c.lineCountInSuperPage) % c.lineCountInSuperPage
  }

  function ColOf(c: Config, lca: nat): nat
    requires c.Valid()
  {
    lca % (c.parallelIO * c.lineCountInSuperPage) / c.lineCountInSuperPage
  }

  // The row is the unit within the logical page.
  lemma {:induction false} PositionOf(c: Config, lca: nat)
    requires c.Valid()
    ensures RowOf(c, lca) == lca % c.lineCountInSuperPage && ColOf(c, lca) < c.parallelIO
  {
    Arithmetic.DigitOfRemainder(lca, c.parallelIO, c.lineCountInSuperPage);
  }

  // Row and column are the digits of the remainder, so LCAs share a position exactly if they are congruent.
  lemma {:induction false} PositionIsRemainder(c: Config, lca: nat)
    requires c.Valid()
    ensures c.parallelIO * c.lineCountInSuperPage >= 1
    ensures ColOf(c, lca) * c.lineCountInSuperPage + RowOf(c, lca) == lca % (c.parallelIO * c.lineCountInSuperPage)
    ensures RowOf(c, lca) < c.lineCountInSuperPage && ColOf(c, lca) < c.parallelIO
  {
    PositionOf(c, lca);
  }

  lemma {:induction false} SamePositionExactly(c: Config, a: nat, b: nat)
    requires c.Valid()
    ensures c.parallelIO * c.lineCountInSuperPage >= 1
    ensures RowOf(c, a) == RowOf(c, b) && ColOf(c, a) == ColOf(c, b) <==>
      a % (c.parallelIO * c.lineCountInSuperPage) == b % (c.parallelIO * c.lineCountInSuperPage)
  {
    PositionIsRemainder(c, a);
    PositionIsRemainder(c, b);
  }

  // A valid line is in the set its tag belongs to, and no two valid lines have the same tag.
  ghost predicate Placed(c: Config, g: Grid)
    requires c.Valid()
  {
    && Shape(c, g)
    && (forall x: Slot {:trigger At(g, x)} | InGrid(c, x) && At(g, x).valid :: At(g, x).tag % c.setSize == x.setIdx)
    && (forall x: Slot, y: Slot {:trigger At(g, x), At(g, y)} |
          InGrid(c, x) && InGrid(c, y) && At(g, x).valid && At(g, y).valid && At(g, x).tag == At(g, y).tag :: x == y)
  }

  ghost predicate Cached(c: Config, g: Grid, lca: nat) {
    exists x: Slot :: InGrid(c, x) && At(g, x).valid && At(g, x).tag == lca
  }

  ghost predicate HeldDirty(c: Config, g: Grid, lca: nat) {
    exists x: Slot :: InGrid(c, x) && At(g, x).valid && At(g, x).dirty && At(g, x).tag == lca
  }

  // Data are numbered by write. What the FTL has: the data it was last given for each LCA, and the
  // data of every request that named an LCA.
  datatype Given = Given(lca: nat, data: nat)

  datatype FtlData = FtlData(holds: map<nat, nat>, given: set<Given>)

  function GiveFtl(ftl: FtlData, lca: nat, v: nat): FtlData {
    FtlData(ftl.holds[lca := v], ftl.given + {Given(lca, v)})
  }

  ghost predicate Stored(holds: map<nat, nat>, newest: map<nat, nat>, lca: nat) {
    lca in newest && lca in holds && holds[lca] == newest[lca]
  }

  // But for the LCAs in ex every valid line holds the newest data of its LCA.
  ghost predicate LinesHold(c: Config, g: Grid, content: map<Slot, nat>, newest: map<nat, nat>, ex: set<nat>) {
    forall x: Slot {:trigger At(g, x)} | InGrid(c, x) && At(g, x).valid && At(g, x).tag !in ex ::
      x in content && At(g, x).tag in newest && content[x] == newest[At(g, x).tag]
  }

  // The newest data were given to the FTL in a request that names their LCA, or are in a valid dirty line.
  ghost predicate GivenOrHeld(c: Config, g: Grid, newest: map<nat, nat>, given: set<Given>, ex: set<nat>) {
    forall lca: nat {:trigger newest[lca]} | lca in newest && lca !in ex ::
      Given(lca, newest[lca]) in given || HeldDirty(c, g, lca)
  }

  // The LCAs whose newest data neither the FTL nor a valid dirty line has are those in lost.
  ghost predicate LostExactly(lost: set<nat>, c: Config, g: Grid, newest: map<nat, nat>, holds: map<nat, nat>,
      ex: set<nat>) {
    forall lca: nat {:trigger newest[lca]} | lca in newest && lca !in ex ::
      lca in lost <==> !Stored(holds, newest, lca) && !HeldDirty(c, g, lca)
  }

  ghost predicate DataOkExcept(lost: set<nat>, c: Config, g: Grid, content: map<Slot, nat>, newest: map<nat, nat>,
      ftl: FtlData, ex: set<nat>)
  {
    && LinesHold(c, g, content, newest, ex)
    && GivenOrHeld(c, g, newest, ftl.given, ex)
    && LostExactly(lost, c, g, newest, ftl.holds, ex)
  }

  ghost predicate DataOk(lost: set<nat>, c: Config, g: Grid, content: map<Slot, nat>, newest: map<nat, nat>,
      ftl: FtlData) {
    DataOkExcept(lost, c, g, content, newest, ftl, {})
  }

  // The write of v to lca is stored in line x, which held lca before or held nothing.
  lemma {:induction false} StoreKeepsPlaced(c: Config, g: Grid, x: Slot, l: Line)
    requires c.Valid() && Placed(c, g) && InGrid(c, x) && l.valid && l.tag % c.setSize == x.setIdx
    requires (At(g, x).valid && At(g, x).tag == l.tag) || !Cached(c, g, l.tag)
    ensures Placed(c, Put(g, x, l))
  {
    var h := Put(g, x, l);
    forall y: Slot ensures At(h, y) == if y == x then l else At(g, y) { }
  }

  lemma {:induction false} StoreKeepsData(lost: set<nat>, c: Config, g: Grid, x: Slot, l: Line, content: map<Slot, nat>,
      newest: map<nat, nat>, ftl: FtlData, v: nat)
    requires c.Valid() && Placed(c, g) && InGrid(c, x) && l.valid
    requires (At(g, x).valid && At(g, x).tag == l.tag) || (!Cached(c, g, l.tag) && !At(g, x).valid)
    requires DataOkExcept(lost, c, g, content, newest, ftl, {l.tag})
    requires l.dirty || GiveFtl(ftl, l.tag, v) == ftl
    ensures DataOk(lost - {l.tag}, c, Put(g, x, l), content[x := v], newest[l.tag := v], ftl)
  {
    var h, newest' := Put(g, x, l), newest[l.tag := v];
    forall y: Slot ensures At(h, y) == if y == x then l else At(g, y) { }
    forall lca: nat | lca in newest' && lca != l.tag ensures HeldDirty(c, h, lca) <==> HeldDirty(c, g, lca) {
      HeldElsewhere(c, g, h, x, lca);
    }
    assert l.dirty ==> HeldDirty(c, h, l.tag) by {
      assert At(h, x) == l;
    }
    assert !l.dirty ==> l.tag in GiveFtl(ftl, l.tag, v).holds && Given(l.tag, v) in GiveFtl(ftl, l.tag, v).given;
  }

  // A line that neither had nor has the LCA does not matter to it.
  lemma {:induction false} HeldElsewhere(c: Config, g: Grid, h: Grid, x: Slot, lca: nat)
    requires forall y: Slot :: y != x ==> At(h, y) == At(g, y)
    requires !(At(g, x).valid && At(g, x).dirty && At(g, x).tag == lca)
      && !(At(h, x).valid && At(h, x).dirty && At(h, x).tag == lca)
    ensures HeldDirty(c, h, lca) <==> HeldDirty(c, g, lca)
  {
    if HeldDirty(c, g, lca) {
      var y: Slot :| InGrid(c, y) && At(g, y).valid && At(g, y).dirty && At(g, y).tag == lca;
      assert At(h, y) == At(g, y);
    }
    if HeldDirty(c, h, lca) {
      var y: Slot :| InGrid(c, y) && At(h, y).valid && At(h, y).dirty && At(h, y).tag == lca;
      assert At(h, y) == At(g, y);
    }
  }

  // A write that only goes to the FTL.
  lemma {:induction false} WriteThroughKeeps(lost: set<nat>, c: Config, g: Grid, content: map<Slot, nat>,
      newest: map<nat, nat>, ftl: FtlData, lca: nat, v: nat)
    requires DataOkExcept(lost, c, g, content, newest, ftl, {})
    ensures DataOkExcept(lost, c, g, content, newest, ftl, {lca})
    ensures DataOkExcept(lost, c, g, content, newest, GiveFtl(ftl, lca, v), {lca})
    ensures GiveFtl(GiveFtl(ftl, lca, v), lca, v) == GiveFtl(ftl, lca, v)
    ensures !Cached(c, g, lca) ==> DataOk(lost - {lca}, c, g, content, newest[lca := v], GiveFtl(ftl, lca, v))
  {
    assert Given(lca, v) in GiveFtl(ftl, lca, v).given;
  }

  // Line x is given up: what it holds goes to the FTL if it is dirty.
  function AfterGivingUp(l: Line, held: nat, ftl: FtlData): FtlData {
    if l.valid && l.dirty then GiveFtl(ftl, l.tag, held) else ftl
  }

  lemma {:induction false} GiveUpKeeps(lost: set<nat>, c: Config, g: Grid, x: Slot, l: Line, content: map<Slot, nat>,
      newest: map<nat, nat>, ftl: FtlData, ex: set<nat>)
    requires c.Valid() && Placed(c, g) && InGrid(c, x)
    requires !l.valid || (At(g, x).valid && l.tag == At(g, x).tag)
    requires !(l.valid && l.dirty)
    requires DataOkExcept(lost, c, g, content, newest, ftl, ex) && x in content
    requires !(At(g, x).valid && At(g, x).tag in ex)
    ensures DataOkExcept(lost, c, Put(g, x, l), content, newest, AfterGivingUp(At(g, x), content[x], ftl), ex)
  {
    var h, ftl' := Put(g, x, l), AfterGivingUp(At(g, x), content[x], ftl);
    forall y: Slot ensures At(h, y) == if y == x then l else At(g, y) { }
    forall lca: nat | lca in newest && lca !in ex
      ensures Given(lca, newest[lca]) in ftl'.given || HeldDirty(c, h, lca)
      ensures lca in lost <==> !Stored(ftl'.holds, newest, lca) && !HeldDirty(c, h, lca)
    {
      if At(g, x).valid && At(g, x).dirty && At(g, x).tag == lca {
        assert HeldDirty(c, g, lca);
        assert Stored(ftl'.holds, newest, lca) && Given(lca, newest[lca]) in ftl'.given;
      } else {
        HeldElsewhere(c, g, h, x, lca);
      }
    }
  }

  // No line is placed where it may not be, and none is cached anew, when a line keeps its tag or is freed.
  lemma {:induction false} GiveUpKeepsPlaced(c: Config, g: Grid, x: Slot, l: Line)
    requires c.Valid() && Placed(c, g) && InGrid(c, x)
    requires !l.valid || (At(g, x).valid && l.tag == At(g, x).tag)
    ensures Placed(c, Put(g, x, l))
    ensures forall lca: nat :: Cached(c, Put(g, x, l), lca) ==> Cached(c, g, lca)
  {
    var h := Put(g, x, l);
    forall y: Slot ensures At(h, y) == if y == x then l else At(g, y) { }
    forall lca: nat | Cached(c, h, lca) ensures Cached(c, g, lca) {
      var y: Slot :| InGrid(c, y) && At(h, y).valid && At(h, y).tag == lca;
      assert At(g, y).valid && At(g, y).tag == lca;
    }
  }

  // A request of the FTL: the units of a logical page that are written.
  datatype FtlRequest = FtlRequest(lpn: nat, ioFlag: set<nat>)

  // The request for one line.
  function OwnRequest(c: Config, lca: nat): FtlRequest
    requires c.Valid()
  {
    FtlRequest(lca / c.lineCountInSuperPage, {lca % c.lineCountInSuperPage})
  }

  // The FTL once data v were written with the request.
  ghost function FtlAfter(c: Config, ftl: FtlData, r: FtlRequest, v: nat): FtlData {
    var named := set f | f in r.ioFlag :: r.lpn * c.lineCountInSuperPage + f;
    FtlData(
      map lca | lca in ftl.holds.Keys + named :: if lca in named then v else ftl.holds[lca],
      ftl.given + set lca | lca in named :: Given(lca, v))
  }

  // The FTL once all the requests were served, each with its data.
  ghost function FtlOf(c: Config, sent: seq<FtlRequest>, data: seq<nat>): FtlData
    requires |sent| == |data|
  {
    if |sent| == 0 then FtlData(map[], {})
    else var n := |sent| - 1; FtlAfter(c, FtlOf(c, sent[..n], data[..n]), sent[n], data[n])
  }

  lemma {:induction false} FtlOfNext(c: Config, sent: seq<FtlRequest>, data: seq<nat>, r: FtlRequest, v: nat)
    requires |sent| == |data|
    ensures FtlOf(c, sent + [r], data + [v]) == FtlAfter(c, FtlOf(c, sent, data), r, v)
  {
    assert (sent + [r])[..|sent|] == sent && (data + [v])[..|data|] == data;
  }

  predicate FlagInPage(c: Config, r: FtlRequest) {
    forall f | f in r.ioFlag :: f < c.lineCountInSuperPage
  }

  predicate NamesUnit(c: Config, r: FtlRequest, lca: nat)
    requires c.Valid()
  {
    r.lpn == lca / c.lineCountInSuperPage && lca % c.lineCountInSuperPage in r.ioFlag
  }

  lemma {:induction false} OwnRequestWrites(c: Config, ftl: FtlData, lca: nat, v: nat)
    requires c.Valid()
    ensures FtlAfter(c, ftl, OwnRequest(c, lca), v) == GiveFtl(ftl, lca, v)
  {
    var n := c.lineCountInSuperPage;
    assert lca / n * n + lca % n == lca;
    assert (set f | f in OwnRequest(c, lca).ioFlag :: lca / n * n + f) == {lca};
    assert (set k | k in {lca} :: Given(k, v)) == {Given(lca, v)};
  }

  // Data were given to an LCA by a request that names it.
  lemma {:induction false} GivenWasSent(c: Config, sent: seq<FtlRequest>, data: seq<nat>, p: Given) returns (k: nat)
    requires c.Valid() && |sent| == |data| && p in FtlOf(c, sent, data).given
    requires forall r | r in sent :: FlagInPage(c, r)
    ensures k < |sent| && NamesUnit(c, sent[k], p.lca) && data[k] == p.data
  {
    var n := |sent| - 1;
    if p in FtlOf(c, sent[..n], data[..n]).given {
      k := GivenWasSent(c, sent[..n], data[..n], p);
    } else {
      k := n;
      assert sent[n] in sent;
      var f :| f in sent[n].ioFlag && p.lca == sent[n].lpn * c.lineCountInSuperPage + f;
      Arithmetic.DivModOf(p.lca, c.lineCountInSuperPage, sent[n].lpn, f);
    }
  }
}
