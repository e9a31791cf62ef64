// What a flush of the write cache sends to the FTL. One request is used for all lines, and its I/O
// flag is never reset, so a request names the units of the earlier lines as well.
module Flushes {
  import opened CacheLines
  import opened Evictions
  import Arithmetic

  // The LCAs to flush.
  datatype Range = Range(slpn: nat, nlp: nat) {
    predicate Has(lca: nat) { slpn <= lca < slpn + nlp }
  }

  // The I/O flag, the data in the FTL, the flushed lines and the requests sent for them.
  datatype Flushed = Flushed(ioFlag: set<nat>, ftl: FtlData, lines: seq<Slot>, sent: seq<FtlRequest>)

  predicate Flushable(g: Grid, range: Range, x: Slot) {
    range.Has(At(g, x).tag) && At(g, x).dirty
  }

  // One line is visited.
  ghost function FlushLine(c: Config, g: Grid, content: map<Slot, nat>, range: Range, f: Flushed, x: Slot): Flushed
    requires c.Valid()
  {
    if Flushable(g, range, x) && x in content then
      var ioFlag := f.ioFlag + {At(g, x).tag % c.lineCountInSuperPage};
      var r := FtlRequest(At(g, x).tag / c.lineCountInSuperPage, ioFlag);
      Flushed(ioFlag, FtlAfter(c, f.ftl, r, content[x]), f.lines + [x], f.sent + [r])
    else f
  }

  // The lines before (s, w) are visited.
  ghost function Flushing(c: Config, g: Grid, content: map<Slot, nat>, range: Range, ftl: FtlData, s: nat,
      w: nat): Flushed
    requires c.Valid()
    decreases s, w
  {
    if w > 0 then FlushLine(c, g, content, range, Flushing(c, g, content, range, ftl, s, w - 1), Slot(s, w - 1))
    else if s > 0 then Flushing(c, g, content, range, ftl, s - 1, c.waySize)
    else Flushed({}, ftl, [], [])
  }

  // The flushable lines are all valid, and of the same unit of their logical pages.
  ghost predicate Clean(c: Config, g: Grid, range: Range)
    requires c.Valid()
  {
    && (forall x: Slot {:trigger At(g, x)} | InGrid(c, x) && Flushable(g, range, x) :: At(g, x).valid)
    && (forall x: Slot, y: Slot {:trigger At(g, x), At(g, y)} |
          InGrid(c, x) && InGrid(c, y) && Flushable(g, range, x) && Flushable(g, range, y) ::
          At(g, x).tag % c.lineCountInSuperPage == At(g, y).tag % c.lineCountInSuperPage)
  }

  // Every request writes the one unit of a valid line, and no other.
  ghost predicate OwnUnits(c: Config, g: Grid, f: Flushed)
    requires c.Valid()
  {
    && |f.sent| == |f.lines|
    && forall k | 0 <= k < |f.sent| :: At(g, f.lines[k]).valid && f.sent[k] == OwnRequest(c, At(g, f.lines[k]).tag)
  }

  predicate RequestFor(c: Config, l: Line, r: FtlRequest)
    requires c.Valid()
  {
    l.tag % c.lineCountInSuperPage in r.ioFlag && r.lpn == l.tag / c.lineCountInSuperPage
  }

  ghost predicate VisitedLines(c: Config, g: Grid, range: Range, lines: seq<Slot>, s: nat, w: nat) {
    forall x: Slot :: x in lines <==> InGrid(c, x) && Before(x, s, w) && Flushable(g, range, x)
  }

  ghost predicate FlagNames(c: Config, g: Grid, lines: seq<Slot>, ioFlag: set<nat>)
    requires c.Valid()
  {
    forall u :: u in ioFlag <==> exists x: Slot :: x in lines && u == At(g, x).tag % c.lineCountInSuperPage
  }

  ghost predicate Requested(c: Config, g: Grid, f: Flushed)
    requires c.Valid()
  {
    && |f.sent| == |f.lines|
    && (forall k | 0 <= k < |f.sent| :: RequestFor(c, At(g, f.lines[k]), f.sent[k]) && f.sent[k].ioFlag <= f.ioFlag)
    && (|f.sent| > 0 ==> f.sent[|f.sent| - 1].ioFlag == f.ioFlag)
  }

  // The flushed lines are the flushable ones visited, and the flag names their units.
  ghost predicate Visited(c: Config, g: Grid, range: Range, f: Flushed, s: nat, w: nat)
    requires c.Valid()
  {
    VisitedLines(c, g, range, f.lines, s, w) && FlagNames(c, g, f.lines, f.ioFlag) && Requested(c, g, f)
  }

  lemma {:induction false} FlushVisits(c: Config, g: Grid, content: map<Slot, nat>, range: Range, ftl: FtlData,
      s: nat, w: nat)
    requires c.Valid() && s <= c.setSize && w <= c.waySize && (s == c.setSize ==> w == 0)
    requires forall x: Slot | InGrid(c, x) :: x in content
    ensures Visited(c, g, range, Flushing(c, g, content, range, ftl, s, w), s, w)
    decreases s, w
  {
    hide Visited, FlushLine;
    if w > 0 {
      FlushVisits(c, g, content, range, ftl, s, w - 1);
      VisitLine(c, g, content, range, Flushing(c, g, content, range, ftl, s, w - 1), s, w - 1);
    } else if s > 0 {
      FlushVisits(c, g, content, range, ftl, s - 1, c.waySize);
      VisitNextSet(c, g, range, Flushing(c, g, content, range, ftl, s - 1, c.waySize), s - 1);
    } else {
      VisitStarts(c, g, range, ftl);
    }
  }

  lemma {:induction false} VisitStarts(c: Config, g: Grid, range: Range, ftl: FtlData)
    requires c.Valid()
    ensures Visited(c, g, range, Flushed({}, ftl, [], []), 0, 0)
  {
  }

  lemma {:induction false} VisitNextSet(c: Config, g: Grid, range: Range, f: Flushed, s: nat)
    requires c.Valid() && Visited(c, g, range, f, s, c.waySize)
    ensures Visited(c, g, range, f, s + 1, 0)
  {
    hide Flushable;
    forall x: Slot ensures InGrid(c, x) && Before(x, s, c.waySize) <==> InGrid(c, x) && Before(x, s + 1, 0) { }
  }

  lemma {:induction false} VisitLine(c: Config, g: Grid, content: map<Slot, nat>, range: Range, f: Flushed, s: nat,
      w: nat)
    requires c.Valid() && s < c.setSize && w < c.waySize && Slot(s, w) in content
    requires Visited(c, g, range, f, s, w)
    ensures Visited(c, g, range, FlushLine(c, g, content, range, f, Slot(s, w)), s, w + 1)
  {
    hide VisitedLines, FlagNames, Requested, FtlAfter;
    LinesVisit(c, g, range, f.lines, s, w);
    FlagVisits(c, g, f.lines, f.ioFlag, Slot(s, w));
    RequestsVisit(c, g, content, range, f, Slot(s, w));
  }

  lemma {:induction false} LinesVisit(c: Config, g: Grid, range: Range, lines: seq<Slot>, s: nat, w: nat)
    requires c.Valid() && s < c.setSize && w < c.waySize && VisitedLines(c, g, range, lines, s, w)
    ensures var y := Slot(s, w);
      VisitedLines(c, g, range, if Flushable(g, range, y) then lines + [y] else lines, s, w + 1)
  {
    hide Flushable;
    var y := Slot(s, w);
    forall x: Slot ensures Before(x, s, w + 1) <==> Before(x, s, w) || x == y { }
    forall x: Slot ensures x in lines + [y] <==> x in lines || x == y { }
  }

  lemma {:induction false} RequestsVisit(c: Config, g: Grid, content: map<Slot, nat>, range: Range, f: Flushed, y: Slot)
    requires c.Valid() && Requested(c, g, f)
    ensures Requested(c, g, FlushLine(c, g, content, range, f, y))
  {
    hide Flushable, FtlAfter;
    var h := FlushLine(c, g, content, range, f, y);
    forall k | 0 <= k < |h.sent| ensures RequestFor(c, At(g, h.lines[k]), h.sent[k]) && h.sent[k].ioFlag <= h.ioFlag {
      assert k < |f.sent| ==> h.sent[k] == f.sent[k] && h.lines[k] == f.lines[k];
    }
  }

  lemma {:induction false} FlagVisits(c: Config, g: Grid, lines: seq<Slot>, ioFlag: set<nat>, y: Slot)
    requires c.Valid()
    requires FlagNames(c, g, lines, ioFlag)
    ensures FlagNames(c, g, lines + [y], ioFlag + {At(g, y).tag % c.lineCountInSuperPage})
  {
    forall u
      ensures u in ioFlag + {At(g, y).tag % c.lineCountInSuperPage} <==>
        exists x: Slot :: x in lines + [y] && u == At(g, x).tag % c.lineCountInSuperPage
    {
      if u in ioFlag {
        var x: Slot :| x in lines && u == At(g, x).tag % c.lineCountInSuperPage;
        assert x in lines + [y];
      }
      assert y in lines + [y];
    }
  }

  // A flush writes only the units of valid lines, each with its own line, exactly if it is clean.
  lemma {:induction false} FlushIsExact(c: Config, g: Grid, content: map<Slot, nat>, range: Range, ftl: FtlData)
    requires c.Valid() && forall x: Slot | InGrid(c, x) :: x in content
    ensures OwnUnits(c, g, Flushing(c, g, content, range, ftl, c.setSize, 0)) <==> Clean(c, g, range)
  {
    var f := Flushing(c, g, content, range, ftl, c.setSize, 0);
    FlushVisits(c, g, content, range, ftl, c.setSize, 0);
    if Clean(c, g, range) {
      forall k | 0 <= k < |f.sent|
        ensures At(g, f.lines[k]).valid && f.sent[k] == OwnRequest(c, At(g, f.lines[k]).tag)
      {
        assert f.lines[k] in f.lines;
        OneUnit(c, g, range, f, k);
      }
    }
    if OwnUnits(c, g, f) {
      forall x: Slot | InGrid(c, x) && Flushable(g, range, x)
        ensures At(g, x).valid && f.ioFlag == {At(g, x).tag % c.lineCountInSuperPage}
      {
        assert x in f.lines;
        var k :| 0 <= k < |f.lines| && f.lines[k] == x;
        var n := |f.sent| - 1;
        assert f.sent[n] == OwnRequest(c, At(g, f.lines[n]).tag);
        assert RequestFor(c, At(g, x), f.sent[k]);
      }
    }
  }

  lemma {:induction false} OneUnit(c: Config, g: Grid, range: Range, f: Flushed, k: nat)
    requires c.Valid() && Visited(c, g, range, f, c.setSize, 0) && Clean(c, g, range) && k < |f.sent|
    ensures f.sent[k] == OwnRequest(c, At(g, f.lines[k]).tag)
  {
    var u := At(g, f.lines[k]).tag % c.lineCountInSuperPage;
    assert f.lines[k] in f.lines;
    forall i | i in f.sent[k].ioFlag ensures i == u {
      var x: Slot :| x in f.lines && i == At(g, x).tag % c.lineCountInSuperPage;
    }
    assert f.sent[k].ioFlag == {u};
  }

  // The lines of the range among those before (s, w) are free.
  ghost predicate FlushedTo(c: Config, g: Grid, h: Grid, range: Range, s: nat, w: nat) {
    && Shape(c, h)
    && forall x: Slot {:trigger At(h, x)} | InGrid(c, x) ::
         At(h, x) == if Before(x, s, w) && range.Has(At(g, x).tag) then At(g, x).(valid := false) else At(g, x)
  }

  lemma {:induction false} FlushedLine(c: Config, g: Grid, h: Grid, range: Range, s: nat, w: nat)
    requires FlushedTo(c, g, h, range, s, w) && s < c.setSize && w < c.waySize
    ensures var y := Slot(s, w);
      && At(h, y) == At(g, y)
      && FlushedTo(c, g, if range.Has(At(g, y).tag) then Put(h, y, At(g, y).(valid := false)) else h, range, s, w + 1)
  {
    var y := Slot(s, w);
    forall x: Slot ensures Before(x, s, w + 1) <==> Before(x, s, w) || x == y { }
    if range.Has(At(g, y).tag) {
      var k := Put(h, y, At(g, y).(valid := false));
      forall x: Slot ensures At(k, x) == if x == y then At(g, y).(valid := false) else At(h, x) { }
    }
  }

  // In a clean flush the request for a line writes its own unit.
  lemma {:induction false} CleanRequest(c: Config, g: Grid, content: map<Slot, nat>, range: Range, f: Flushed, s: nat,
      w: nat)
    requires c.Valid() && Clean(c, g, range) && Visited(c, g, range, f, s, w) && s < c.setSize && w < c.waySize
    ensures var y := Slot(s, w);
      Flushable(g, range, y) && y in content ==>
        At(g, y).valid && FlushLine(c, g, content, range, f, y).ftl == GiveFtl(f.ftl, At(g, y).tag, content[y])
  {
    var y := Slot(s, w);
    if Flushable(g, range, y) && y in content {
      var u := At(g, y).tag % c.lineCountInSuperPage;
      forall i | i in f.ioFlag ensures i == u {
        var x: Slot :| x in f.lines && i == At(g, x).tag % c.lineCountInSuperPage;
      }
      assert f.ioFlag + {u} == {u};
      OwnRequestWrites(c, f.ftl, At(g, y).tag, content[y]);
    }
  }

  // The request for a line names its own LCA, so all newest data are given to the FTL or held.
  lemma {:induction false} FlushLineGives(c: Config, g: Grid, h: Grid, content: map<Slot, nat>, newest: map<nat, nat>,
      range: Range, f: Flushed, x: Slot)
    requires c.Valid() && Shape(c, h) && InGrid(c, x) && At(h, x) == At(g, x) && x in content && range.Has(At(g, x).tag)
    requires LinesHold(c, h, content, newest, {}) && GivenOrHeld(c, h, newest, f.ftl.given, {})
    ensures var h' := Put(h, x, At(g, x).(valid := false));
      LinesHold(c, h', content, newest, {}) &&
      GivenOrHeld(c, h', newest, FlushLine(c, g, content, range, f, x).ftl.given, {})
  {
    var l := At(g, x);
    var h', f' := Put(h, x, l.(valid := false)), FlushLine(c, g, content, range, f, x);
    LineIsPut(c, h, x, l.(valid := false));
    if l.dirty {
      var n := c.lineCountInSuperPage;
      assert l.tag / n * n + l.tag % n == l.tag;
      assert l.tag % n in f.ioFlag + {l.tag % n};
      assert Given(l.tag, content[x]) in f'.ftl.given;
    }
    forall lca: nat | lca in newest ensures Given(lca, newest[lca]) in f'.ftl.given || HeldDirty(c, h', lca) {
      if !(l.valid && l.dirty && l.tag == lca) {
        HeldElsewhere(c, h, h', x, lca);
      }
    }
  }

  lemma {:induction false} LineIsPut(c: Config, g: Grid, x: Slot, l: Line)
    requires Shape(c, g) && InGrid(c, x)
    ensures forall y: Slot :: At(Put(g, x, l), y) == if y == x then l else At(g, y)
  {
  }

  // ---------- what the FTL has after a flush ----------

  // The request for line x names the LCA: it is for a line of its logical page, and the line of its
  // unit was flushed up to then.
  ghost predicate Names(c: Config, g: Grid, range: Range, x: Slot, lca: nat)
    requires c.Valid()
  {
    && InGrid(c, x) && Flushable(g, range, x) && At(g, x).tag / c.lineCountInSuperPage == lca / c.lineCountInSuperPage
    && UnitFlushed(c, g, range, lca % c.lineCountInSuperPage, x.setIdx, x.wayIdx + 1)
  }

  ghost predicate UnitFlushed(c: Config, g: Grid, range: Range, u: nat, s: nat, w: nat)
    requires c.Valid()
  {
    exists y: Slot :: InGrid(c, y) && Before(y, s, w) && Flushable(g, range, y)
      && At(g, y).tag % c.lineCountInSuperPage == u
  }

  ghost predicate NoneNames(c: Config, g: Grid, range: Range, lca: nat, s: nat, w: nat)
    requires c.Valid()
  {
    forall x: Slot | Names(c, g, range, x, lca) :: !Before(x, s, w)
  }

  ghost predicate LastNaming(c: Config, g: Grid, range: Range, x: Slot, lca: nat, s: nat, w: nat)
    requires c.Valid()
  {
    && Names(c, g, range, x, lca) && Before(x, s, w)
    && forall y: Slot | Names(c, g, range, y, lca) && Before(y, s, w) :: y == x || Before(y, x.setIdx, x.wayIdx)
  }

  // The FTL holds the data of the last line whose request names the LCA, if there is one.
  ghost predicate LastNamingWins(c: Config, g: Grid, content: map<Slot, nat>, range: Range, holds: map<nat, nat>,
      lca: nat, s: nat, w: nat, after: map<nat, nat>)
    requires c.Valid()
  {
    || (NoneNames(c, g, range, lca, s, w) && (lca in after <==> lca in holds)
      && (lca in holds ==> after[lca] == holds[lca]))
    || exists x: Slot ::
         LastNaming(c, g, range, x, lca, s, w) && x in content && lca in after && after[lca] == content[x]
  }

  lemma {:induction false} LastNamingIsUnique(c: Config, g: Grid, range: Range, x: Slot, y: Slot, lca: nat, s: nat,
    w: nat)
    requires c.Valid() && LastNaming(c, g, range, x, lca, s, w) && LastNaming(c, g, range, y, lca, s, w)
    ensures x == y
  {
  }

  // The request for line y, once the lines before it are visited.
  lemma {:induction false} RequestNames(c: Config, g: Grid, range: Range, f: Flushed, y: Slot, lca: nat)
    requires c.Valid() && InGrid(c, y) && Flushable(g, range, y) && Visited(c, g, range, f, y.setIdx, y.wayIdx)
    ensures var flag := f.ioFlag + {At(g, y).tag % c.lineCountInSuperPage};
      lca in (set u | u in flag :: At(g, y).tag / c.lineCountInSuperPage * c.lineCountInSuperPage + u) <==>
        Names(c, g, range, y, lca)
  {
    hide Visited, Flushable, UnitFlushed;
    var n := c.lineCountInSuperPage;
    var flag := f.ioFlag + {At(g, y).tag % n};
    forall u ensures u in flag <==> UnitFlushed(c, g, range, u, y.setIdx, y.wayIdx + 1)
      ensures u in flag ==> u < n
    {
      FlaggedUnits(c, g, range, f, y, u);
    }
    UnitsOfPage(flag, At(g, y).tag / n, n, lca);
  }

  // The LCAs of the units of a logical page.
  lemma {:induction false} UnitsOfPage(units: set<nat>, p: nat, n: nat, lca: nat)
    requires 1 <= n && forall u | u in units :: u < n
    ensures lca in (set u | u in units :: p * n + u) <==> p == lca / n && lca % n in units
  {
    if lca in (set u | u in units :: p * n + u) {
      var u :| u in units && lca == p * n + u;
      Arithmetic.DivModOf(lca, n, p, u);
    }
    assert lca / n * n + lca % n == lca;
  }

  lemma {:induction false} FlaggedUnits(c: Config, g: Grid, range: Range, f: Flushed, y: Slot, u: nat)
    requires c.Valid() && InGrid(c, y) && Flushable(g, range, y) && Visited(c, g, range, f, y.setIdx, y.wayIdx)
    ensures u in f.ioFlag + {At(g, y).tag % c.lineCountInSuperPage} <==>
      UnitFlushed(c, g, range, u, y.setIdx, y.wayIdx + 1)
    ensures u in f.ioFlag + {At(g, y).tag % c.lineCountInSuperPage} ==> u < c.lineCountInSuperPage
  {
    hide Requested, Flushable;
    forall x: Slot ensures Before(x, y.setIdx, y.wayIdx + 1) <==> Before(x, y.setIdx, y.wayIdx) || x == y { }
  }

  lemma {:induction false} FlushGives(c: Config, g: Grid, content: map<Slot, nat>, range: Range, ftl: FtlData,
      s: nat, w: nat, lca: nat)
    requires c.Valid() && s <= c.setSize && w <= c.waySize && (s == c.setSize ==> w == 0)
    requires forall x: Slot | InGrid(c, x) :: x in content
    ensures LastNamingWins(c, g, content, range, ftl.holds, lca, s, w,
      Flushing(c, g, content, range, ftl, s, w).ftl.holds)
    decreases s, w
  {
    hide LastNamingWins, FlushLine;
    if w > 0 {
      FlushVisits(c, g, content, range, ftl, s, w - 1);
      FlushGives(c, g, content, range, ftl, s, w - 1, lca);
      LineGives(c, g, content, range, ftl.holds, Flushing(c, g, content, range, ftl, s, w - 1), s, w - 1, lca);
    } else if s > 0 {
      FlushGives(c, g, content, range, ftl, s - 1, c.waySize, lca);
      NextSetGives(c, g, content, range, ftl.holds, lca, s - 1, Flushing(c, g, content, range, ftl, s, w).ftl.holds);
    } else {
      NothingGiven(c, g, content, range, ftl.holds, lca);
    }
  }

  lemma {:induction false} NothingGiven(c: Config, g: Grid, content: map<Slot, nat>, range: Range, holds: map<nat, nat>,
      lca: nat)
    requires c.Valid()
    ensures LastNamingWins(c, g, content, range, holds, lca, 0, 0, holds)
  {
  }

  lemma {:induction false} NextSetGives(c: Config, g: Grid, content: map<Slot, nat>, range: Range, holds: map<nat, nat>,
      lca: nat, s: nat, after: map<nat, nat>)
    requires c.Valid() && LastNamingWins(c, g, content, range, holds, lca, s, c.waySize, after)
    ensures LastNamingWins(c, g, content, range, holds, lca, s + 1, 0, after)
  {
    hide Flushable, UnitFlushed;
    forall x: Slot ensures InGrid(c, x) && Before(x, s, c.waySize) <==> InGrid(c, x) && Before(x, s + 1, 0) { }
  }

  lemma {:induction false} LineGives(c: Config, g: Grid, content: map<Slot, nat>, range: Range, holds: map<nat, nat>,
      f: Flushed, s: nat, w: nat, lca: nat)
    requires c.Valid() && s < c.setSize && w < c.waySize && Slot(s, w) in content && Visited(c, g, range, f, s, w)
    requires LastNamingWins(c, g, content, range, holds, lca, s, w, f.ftl.holds)
    ensures LastNamingWins(c, g, content, range, holds, lca, s, w + 1,
      FlushLine(c, g, content, range, f, Slot(s, w)).ftl.holds)
  {
    hide Flushable, UnitFlushed, Visited;
    var y := Slot(s, w);
    forall x: Slot ensures Before(x, s, w + 1) <==> Before(x, s, w) || x == y { }
    if Flushable(g, range, y) {
      RequestNames(c, g, range, f, y, lca);
    }
    if Names(c, g, range, y, lca) {
      assert LastNaming(c, g, range, y, lca, s, w + 1);
    } else if x: Slot :| LastNaming(c, g, range, x, lca, s, w) {
      assert LastNaming(c, g, range, x, lca, s, w + 1);
    }
  }

  // A flush keeps the newest data of the LCA: a dirty line keeps them, or the last line whose request
  // names the LCA holds them, or no request names it and the FTL has them.
  ghost predicate FlushKeeps(c: Config, g: Grid, content: map<Slot, nat>, newest: map<nat, nat>, holds: map<nat, nat>,
      range: Range, lca: nat)
    requires c.Valid()
  {
    || (HeldDirty(c, g, lca) && !range.Has(lca))
    || (NoneNames(c, g, range, lca, c.setSize, 0) && Stored(holds, newest, lca))
    || (lca in newest && exists x: Slot ::
          LastNaming(c, g, range, x, lca, c.setSize, 0) && x in content && content[x] == newest[lca])
  }

  lemma {:induction false} HeldAfterFlush(c: Config, g: Grid, h: Grid, range: Range, lca: nat)
    requires FlushedTo(c, g, h, range, c.setSize, 0)
    ensures HeldDirty(c, h, lca) <==> HeldDirty(c, g, lca) && !range.Has(lca)
  {
    if HeldDirty(c, g, lca) && !range.Has(lca) {
      var x: Slot :| InGrid(c, x) && At(g, x).valid && At(g, x).dirty && At(g, x).tag == lca;
      assert At(h, x) == At(g, x);
    }
    if HeldDirty(c, h, lca) {
      var x: Slot :| InGrid(c, x) && At(h, x).valid && At(h, x).dirty && At(h, x).tag == lca;
      assert At(h, x) == At(g, x);
    }
  }

  // After the flush the FTL or a valid dirty line has the newest data of the LCA exactly if it keeps them.
  lemma {:induction false} FlushKeepsExactly(c: Config, g: Grid, h: Grid, content: map<Slot, nat>,
      newest: map<nat, nat>, range: Range, ftl: FtlData, lca: nat)
    requires c.Valid() && FlushedTo(c, g, h, range, c.setSize, 0) && lca in newest
    requires forall x: Slot | InGrid(c, x) :: x in content
    ensures var after := Flushing(c, g, content, range, ftl, c.setSize, 0).ftl.holds;
      Stored(after, newest, lca) || HeldDirty(c, h, lca) <==> FlushKeeps(c, g, content, newest, ftl.holds, range, lca)
  {
    hide HeldDirty, Names, NoneNames, LastNaming, FlushedTo, Flushing;
    HeldAfterFlush(c, g, h, range, lca);
    FlushGives(c, g, content, range, ftl, c.setSize, 0, lca);
    forall x: Slot, y: Slot | LastNaming(c, g, range, x, lca, c.setSize, 0)
      && LastNaming(c, g, range, y, lca, c.setSize, 0)
      ensures x == y
    {
      LastNamingIsUnique(c, g, range, x, y, lca, c.setSize, 0);
    }
    if NoneNames(c, g, range, lca, c.setSize, 0) {
      NoneOrLast(c, g, range, lca, c.setSize, 0);
    }
  }

  lemma {:induction false} NoneOrLast(c: Config, g: Grid, range: Range, lca: nat, s: nat, w: nat)
    requires c.Valid() && NoneNames(c, g, range, lca, s, w)
    ensures forall x: Slot :: !LastNaming(c, g, range, x, lca, s, w)
  {
  }

  // A clean flush keeps all newest data that are not lost already.
  lemma {:induction false} CleanKeeps(c: Config, g: Grid, content: map<Slot, nat>, newest: map<nat, nat>, range: Range,
      ftl: FtlData, lost: set<nat>, lca: nat)
    requires c.Valid() && Placed(c, g) && Clean(c, g, range) && DataOk(lost, c, g, content, newest, ftl)
    requires forall x: Slot | InGrid(c, x) :: x in content
    requires lca in newest && lca !in lost
    ensures FlushKeeps(c, g, content, newest, ftl.holds, range, lca)
  {
    hide Flushing;
    if HeldDirty(c, g, lca) && range.Has(lca) {
      var x: Slot :| InGrid(c, x) && At(g, x).valid && At(g, x).dirty && At(g, x).tag == lca;
      assert Names(c, g, range, x, lca);
    }
    FlushGives(c, g, content, range, ftl, c.setSize, 0, lca);
    if x: Slot :| LastNaming(c, g, range, x, lca, c.setSize, 0) {
      NamedInClean(c, g, range, x, lca);
    }
  }

  lemma {:induction false} NamedInClean(c: Config, g: Grid, range: Range, x: Slot, lca: nat)
    requires c.Valid() && Clean(c, g, range) && Names(c, g, range, x, lca)
    ensures At(g, x).valid && At(g, x).tag == lca
  {
    var n := c.lineCountInSuperPage;
    assert At(g, x).tag / n * n + At(g, x).tag % n == At(g, x).tag && lca / n * n + lca % n == lca;
  }

  // A request that names a unit overwrites it.
  lemma {:induction false} UnitOverwritten(c: Config, ftl: FtlData, r: FtlRequest, v: nat, u: nat)
    requires u in r.ioFlag
    ensures var lca, after := r.lpn * c.lineCountInSuperPage + u, FtlAfter(c, ftl, r, v);
      lca in after.holds && after.holds[lca] == v
  {
  }

  // Newest data that neither the FTL nor a line has are lost.
  lemma {:induction false} LostData(c: Config, h: Grid, content: map<Slot, nat>, newest: map<nat, nat>, ftl: FtlData,
    lca: nat)
    requires lca in newest && lca in ftl.holds && ftl.holds[lca] != newest[lca] && forall x: Slot | InGrid(c, x) ::
      !At(h, x).valid
    ensures !DataOk({}, c, h, content, newest, ftl)
  {
  }

  // Two dirty lines of different units, LCAs 0 and 3, whose flush overwrites LCA 2.
  function TwoUnits(): Config { Config(2, 1, 2, 1, 4096, true, Fifo, All) }

  function TwoDirty(valid: bool): Grid {
    [[Line(0, 5, 5, true, valid)], [Line(3, 6, 6, true, valid)]]
  }

  lemma {:induction false} TwoDirtyFlushed(content: map<Slot, nat>, ftl: FtlData)
    requires content == map[Slot(0, 0) := 1, Slot(1, 0) := 2]
    ensures var f := Flushing(TwoUnits(), TwoDirty(true), content, Range(0, 4), ftl, 2, 0);
      2 in f.ftl.holds && f.ftl.holds[2] == 2
  {
    hide FtlAfter;
    var c, g, range := TwoUnits(), TwoDirty(true), Range(0, 4);
    assert At(g, Slot(0, 0)) == g[0][0] && At(g, Slot(1, 0)) == g[1][0];
    var f0 := Flushed({}, ftl, [], []);
    var f1 := FlushLine(c, g, content, range, f0, Slot(0, 0));
    var f2 := FlushLine(c, g, content, range, f1, Slot(1, 0));
    assert Flushing(c, g, content, range, ftl, 0, 0) == f0;
    assert Flushing(c, g, content, range, ftl, 0, 1) == f1;
    assert Flushing(c, g, content, range, ftl, 1, 0) == f1;
    assert Flushing(c, g, content, range, ftl, 1, 1) == f2;
    assert f2.ioFlag == {0} + {1};
    UnitOverwritten(c, f1.ftl, FtlRequest(1, f2.ioFlag), 2, 0);
  }

  // A flush that is not clean can lose data: the FTL's newest data of LCA 2 is overwritten with the
  // data of LCA 3.
  lemma {:induction false} FlushLosesData()
    ensures var c, g, h, range := TwoUnits(), TwoDirty(true), TwoDirty(false), Range(0, 4);
      var content, newest, ftl := map[Slot(0, 0) := 1, Slot(1, 0) := 2], map[0 := 1, 3 := 2, 2 := 0],
        FtlData(map[2 := 0], {Given(2, 0)});
      && Placed(c, g) && DataOk({}, c, g, content, newest, ftl) && FlushedTo(c, g, h, range, c.setSize, 0)
      && !DataOk({}, c, h, content, newest, Flushing(c, g, content, range, ftl, c.setSize, 0).ftl)
  {
    hide Flushing;
    var c, g, h := TwoUnits(), TwoDirty(true), TwoDirty(false);
    var content, newest, ftl := map[Slot(0, 0) := 1, Slot(1, 0) := 2], map[0 := 1, 3 := 2, 2 := 0],
      FtlData(map[2 := 0], {Given(2, 0)});
    forall x: Slot | InGrid(c, x) ensures x == Slot(0, 0) || x == Slot(1, 0) { }
    assert At(g, Slot(0, 0)) == g[0][0] && At(g, Slot(1, 0)) == g[1][0];
    assert HeldDirty(c, g, 0) && HeldDirty(c, g, 3);
    TwoDirtyFlushed(content, ftl);
    LostData(c, h, content, newest, Flushing(c, g, content, Range(0, 4), ftl, c.setSize, 0).ftl, 2);
  }

  // Two lines with LCA 5, the second freed by an earlier flush.
  function TwoWays(): Config { Config(1, 2, 1, 1, 4096, true, Fifo, All) }

  function Stale(valid: bool): Grid {
    [[Line(5, 7, 7, true, valid), Line(5, 4, 4, true, false)]]
  }

  lemma {:induction false} StaleFlushed(content: map<Slot, nat>, ftl: FtlData)
    requires content == map[Slot(0, 0) := 1, Slot(0, 1) := 0]
    ensures var f := Flushing(TwoWays(), Stale(true), content, Range(5, 1), ftl, 1, 0);
      5 in f.ftl.holds && f.ftl.holds[5] == 0
  {
    hide FtlAfter;
    var c, g, range := TwoWays(), Stale(true), Range(5, 1);
    assert At(g, Slot(0, 0)) == g[0][0] && At(g, Slot(0, 1)) == g[0][1];
    var f0 := Flushed({}, ftl, [], []);
    var f1 := FlushLine(c, g, content, range, f0, Slot(0, 0));
    var f2 := FlushLine(c, g, content, range, f1, Slot(0, 1));
    assert Flushing(c, g, content, range, ftl, 0, 0) == f0;
    assert Flushing(c, g, content, range, ftl, 0, 1) == f1;
    assert Flushing(c, g, content, range, ftl, 0, 2) == f2;
    assert f2.ioFlag == {0} + {0};
    UnitOverwritten(c, f1.ftl, FtlRequest(5, f2.ioFlag), 0, 0);
  }

  // A line that an earlier flush freed stays dirty: flushing it again overwrites newer data.
  lemma {:induction false} StaleLineLosesData()
    ensures var c, g, h, range := TwoWays(), Stale(true), Stale(false), Range(5, 1);
      var content, newest, ftl := map[Slot(0, 0) := 1, Slot(0, 1) := 0], map[5 := 1],
        FtlData(map[5 := 0], {Given(5, 0)});
      && Placed(c, g) && DataOk({}, c, g, content, newest, ftl) && FlushedTo(c, g, h, range, c.setSize, 0)
      && !DataOk({}, c, h, content, newest, Flushing(c, g, content, range, ftl, c.setSize, 0).ftl)
  {
    hide Flushing;
    var c, g, h := TwoWays(), Stale(true), Stale(false);
    var content, newest, ftl := map[Slot(0, 0) := 1, Slot(0, 1) := 0], map[5 := 1],
        FtlData(map[5 := 0], {Given(5, 0)});
    forall x: Slot | InGrid(c, x) ensures x == Slot(0, 0) || x == Slot(0, 1) { }
    assert At(g, Slot(0, 0)) == g[0][0] && At(g, Slot(0, 1)) == g[0][1];
    assert HeldDirty(c, g, 5);
    StaleFlushed(content, ftl);
    LostData(c, h, content, newest, Flushing(c, g, content, Range(5, 1), ftl, c.setSize, 0).ftl, 5);
  }
}
