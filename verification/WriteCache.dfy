// The write cache with read caching off: lines are filled by writes, evicted when a set is full,
// and flushed on request.
module WriteCaches {
  import opened CacheLines
  import opened Evictions
  import opened EvictedLines
  import opened Flushes
  import opened Options

  datatype Op = WriteOp(lca: nat, length: nat, at: Tick, evictAt: (nat, nat) -> Tick) | FlushOp(range: Range)

  // The newest data after the operations, the first write being number n.
  function Replayed(newest: map<nat, nat>, n: nat, ops: seq<Op>): map<nat, nat>
    decreases |ops|
  {
    if |ops| == 0 then newest
    else if ops[0].WriteOp? then Replayed(newest[ops[0].lca := n], n + 1, ops[1..])
    else Replayed(newest, n, ops[1..])
  }

  class GenericCache {
    const c: Config
    const cacheData: array2<Line>
    const evictData: array2<Option<Slot>>
    // The random numbers the random policy draws, and how many it has drawn.
    const coin: nat -> bool
    var flips: nat

    // The data in the lines, the newest data of each LCA and the data the FTL was given, numbered by write;
    // and the requests sent to the FTL, with their data.
    ghost var content: map<Slot, nat>
    ghost var newest: map<nat, nat>
    ghost var ftl: FtlData
    ghost var sent: seq<FtlRequest>
    ghost var data: seq<nat>
    ghost var writes: nat
    // The LCAs whose newest data neither the FTL nor a valid dirty line has.
    ghost var lost: set<nat>

    ghost predicate Sized() {
      && c.Valid() && cacheData.Length0 == c.setSize && cacheData.Length1 == c.waySize
      && evictData.Length0 == c.lineCountInSuperPage && evictData.Length1 == c.parallelIO
    }

    ghost function Lines(): (g: Grid)
      requires Sized()
      reads cacheData
      ensures Shape(c, g)
      ensures forall x: Slot {:trigger At(g, x)} | InGrid(c, x) :: At(g, x) == cacheData[x.setIdx, x.wayIdx]
    {
      seq(c.setSize, s requires 0 <= s < c.setSize reads cacheData =>
        seq(c.waySize, w requires 0 <= w < c.waySize reads cacheData => cacheData[s, w]))
    }

    ghost function Picked(): (v: Picks)
      requires Sized()
      reads evictData
      ensures PicksShape(c, v)
      ensures forall r: nat, k: nat {:trigger v[r][k]} | r < c.lineCountInSuperPage && k < c.parallelIO ::
        v[r][k] == evictData[r, k]
    {
      seq(c.lineCountInSuperPage, r requires 0 <= r < c.lineCountInSuperPage reads evictData =>
        seq(c.parallelIO, k requires 0 <= k < c.parallelIO reads evictData => evictData[r, k]))
    }

    method SetLine(x: Slot, l: Line)
      requires Sized() && InGrid(c, x)
      modifies cacheData
      ensures Lines() == Put(old(Lines()), x, l)
    {
      ghost var g := Lines();
      cacheData[x.setIdx, x.wayIdx] := l;
      forall s, w | 0 <= s < c.setSize && 0 <= w < c.waySize ensures Lines()[s][w] == Put(g, x, l)[s][w] {
        assert At(g, Slot(s, w)) == g[s][w];
      }
      assert forall s | 0 <= s < c.setSize :: Lines()[s] == Put(g, x, l)[s];
    }

    method SetPick(row: nat, col: nat, p: Option<Slot>)
      requires Sized() && row < c.lineCountInSuperPage && col < c.parallelIO
      modifies evictData
      ensures Picked() == PutPick(old(Picked()), row, col, p)
    {
      ghost var v := Picked();
      evictData[row, col] := p;
      assert forall r | 0 <= r < c.lineCountInSuperPage :: Picked()[r] == PutPick(v, row, col, p)[r];
    }

    ghost predicate HasFreeWay(setIdx: nat)
      requires Sized() && setIdx < c.setSize
      reads cacheData
    {
      exists w: nat :: w < c.waySize && !cacheData[setIdx, w].valid
    }

    // getEmptyWay: the free way inserted into first, or waySize.
    method GetEmptyWay(setIdx: nat) returns (way: nat)
      requires Sized() && setIdx < c.setSize
      ensures way <= c.waySize
      ensures way < c.waySize ==> !cacheData[setIdx, way].valid
      ensures forall w | 0 <= w < c.waySize && !cacheData[setIdx, w].valid ::
        way < c.waySize && cacheData[setIdx, way].insertedAt <= cacheData[setIdx, w].insertedAt
    {
      way := c.waySize;
      var minInsertedAt := MAX_TICK;
      var w := 0;
      while w < c.waySize
        invariant w <= c.waySize && (way == c.waySize || way < w)
        invariant way < c.waySize ==>
          !cacheData[setIdx, way].valid && minInsertedAt == cacheData[setIdx, way].insertedAt
        invariant way == c.waySize ==> minInsertedAt == MAX_TICK
        invariant forall k | 0 <= k < w && !cacheData[setIdx, k].valid ::
          way < c.waySize && cacheData[setIdx, way].insertedAt <= cacheData[setIdx, k].insertedAt
      {
        if !cacheData[setIdx, w].valid && minInsertedAt > cacheData[setIdx, w].insertedAt {
          minInsertedAt := cacheData[setIdx, w].insertedAt;
          way := w;
        }
        w := w + 1;
      }
    }

    // getValidWay: the way that holds the LCA, or waySize.
    method GetValidWay(lca: nat) returns (way: nat)
      requires Sized() && Placed(c, Lines())
      ensures way <= c.waySize
      ensures way < c.waySize ==> cacheData[lca % c.setSize, way].valid && cacheData[lca % c.setSize, way].tag == lca
      ensures way == c.waySize <==> !Cached(c, Lines(), lca)
    {
      var setIdx := lca % c.setSize;
      way := 0;
      while way < c.waySize && !(cacheData[setIdx, way].valid && cacheData[setIdx, way].tag == lca)
        invariant way <= c.waySize
        invariant forall w | 0 <= w < way :: !(cacheData[setIdx, w].valid && cacheData[setIdx, w].tag == lca)
      {
        way := way + 1;
      }
      if way < c.waySize {
        assert At(Lines(), Slot(setIdx, way)).valid;
      }
    }

    // compareFunction
    method Compare(a: Option<Slot>, b: Option<Slot>) returns (r: Option<Slot>)
      requires Sized() && (a.Some? ==> InGrid(c, a.value)) && (b.Some? ==> InGrid(c, b.value))
      modifies `flips
      ensures Prefers(Lines(), c.policy, a, b, r)
    {
      if a.Some? && b.Some? {
        var x, y := cacheData[a.value.setIdx, a.value.wayIdx], cacheData[b.value.setIdx, b.value.wayIdx];
        assert x == At(Lines(), a.value) && y == At(Lines(), b.value);
        match c.policy
        case Random =>
          r := if coin(flips) then a else b;
          flips := flips + 1;
        case Fifo =>
          r := if x.insertedAt < y.insertedAt then a else b;
        case LeastRecentlyUsed =>
          r := if x.lastAccessed < y.lastAccessed then a else b;
      } else {
        r := if a.Some? then a else b;
      }
    }

    ghost predicate NonePicked()
      requires Sized()
      reads evictData
    {
      forall r: nat, k: nat | r < c.lineCountInSuperPage && k < c.parallelIO :: evictData[r, k] == None
    }

    // The best line of each position.
    method ScanLines()
      requires Sized() && NonePicked()
      modifies evictData, `flips
      ensures AllPicked(c, Lines(), Picked())
    {
      ghost var g := Lines();
      ScanStarts(c, g, Picked());
      var s := 0;
      while s < c.setSize
        invariant s <= c.setSize && ScannedTo(c, g, Picked(), s, 0)
      {
        var w := 0;
        while w < c.waySize
          invariant w <= c.waySize && ScannedTo(c, g, Picked(), s, w)
        {
          ScanLine(s, w);
          w := w + 1;
        }
        ScanNextSet(c, g, Picked(), s);
        s := s + 1;
      }
      ScanEnds(c, g, Picked());
    }

    method ScanLine(s: nat, w: nat)
      requires Sized() && s < c.setSize && w < c.waySize && ScannedTo(c, Lines(), Picked(), s, w)
      modifies evictData, `flips
      ensures ScannedTo(c, Lines(), Picked(), s, w + 1)
    {
      ghost var g, v := Lines(), Picked();
      ScanStep(c, g, v, s, w, None);
      assert At(g, Slot(s, w)) == cacheData[s, w];
      if cacheData[s, w].valid {
        var row, col := RowOf(c, cacheData[s, w].tag), ColOf(c, cacheData[s, w].tag);
        PickInGrid(v, s, w, row, col);
        var r := Compare(evictData[row, col], Some(Slot(s, w)));
        ScanStep(c, g, v, s, w, r);
        SetPick(row, col, r);
      }
    }

    lemma {:induction false} PickInGrid(v: Picks, s: nat, w: nat, row: nat, col: nat)
      requires Sized() && ScannedTo(c, Lines(), v, s, w) && row < c.lineCountInSuperPage && col < c.parallelIO
      ensures v[row][col].Some? ==> InGrid(c, v[row][col].value)
    {
      assert Best(Lines(), c.policy, Scanned(c, Lines(), row, col, s, w), v[row][col]);
    }

    // In super-page mode one line of each row remains, in the last column.
    method MergeColumns()
      requires Sized() && AllPicked(c, Lines(), Picked()) && c.evictMode == SuperPage
      modifies evictData, `flips
      ensures Chosen(c, Lines(), Picked())
    {
      hide RowMerged, Best;
      ghost var g, v := Lines(), Picked();
      var row := 0;
      while row < c.lineCountInSuperPage
        invariant row <= c.lineCountInSuperPage
        invariant forall r: nat | r < row :: RowMerged(c, g, Picked()[r], r, c.parallelIO - 1)
        invariant forall r: nat | row <= r < c.lineCountInSuperPage :: Picked()[r] == v[r]
      {
        MergeStarts(c, g, v, row);
        MergeRow(row);
        row := row + 1;
      }
    }

    method MergeRow(row: nat)
      requires Sized() && row < c.lineCountInSuperPage && RowMerged(c, Lines(), Picked()[row], row, 0)
      modifies evictData, `flips
      ensures RowMerged(c, Lines(), Picked()[row], row, c.parallelIO - 1)
      ensures forall r: nat | r < c.lineCountInSuperPage && r != row :: Picked()[r] == old(Picked())[r]
    {
      hide RowMerged, Best;
      ghost var g, v := Lines(), Picked();
      var col := 0;
      while col < c.parallelIO - 1
        invariant col <= c.parallelIO - 1
        invariant RowMerged(c, g, Picked()[row], row, col)
        invariant forall r: nat | r < c.lineCountInSuperPage && r != row :: Picked()[r] == v[r]
      {
        MergeNext(row, col);
        col := col + 1;
      }
    }

    method MergeNext(row: nat, col: nat)
      requires Sized() && row < c.lineCountInSuperPage && col + 1 < c.parallelIO
      requires RowMerged(c, Lines(), Picked()[row], row, col)
      modifies evictData, `flips
      ensures RowMerged(c, Lines(), Picked()[row], row, col + 1)
      ensures forall r: nat | r < c.lineCountInSuperPage && r != row :: Picked()[r] == old(Picked())[r]
    {
      ghost var g, v := Lines(), Picked()[row];
      assert Best(g, c.policy, SlotsAt(c, g, row, col + 1), v[col + 1]);
      var r := Compare(evictData[row, col], evictData[row, col + 1]);
      MergeStep(c, g, v, row, col, r);
      SetPick(row, col + 1, r);
      SetPick(row, col, None);
    }

    // Whether a pick makes room in the set.
    method HavePick(setIdx: nat) returns (have: bool)
      requires Sized() && InRows(c, Lines(), Picked())
      ensures have <==> Have(c, Lines(), Picked(), setIdx)
    {
      ghost var g, v := Lines(), Picked();
      have := false;
      var row := 0;
      while row < c.lineCountInSuperPage
        invariant row <= c.lineCountInSuperPage
        invariant have <==> exists r: nat, k: nat :: r < row && k < c.parallelIO && OfSet(c, g, v[r][k], setIdx)
      {
        var col := 0;
        while col < c.parallelIO
          invariant col <= c.parallelIO
          invariant have <==> exists r: nat, k: nat ::
            r <= row && k < c.parallelIO && (r < row || k < col) && OfSet(c, g, v[r][k], setIdx)
        {
          var p := evictData[row, col];
          assert p == v[row][col];
          if p.Some? {
            assert InGrid(c, p.value) && cacheData[p.value.setIdx, p.value.wayIdx] == At(g, p.value);
            if cacheData[p.value.setIdx, p.value.wayIdx].tag % c.setSize == setIdx {
              assert OfSet(c, g, v[row][col], setIdx);
              have := true;
            }
          }
          col := col + 1;
        }
        row := row + 1;
      }
    }

    // The best line of the set.
    method BestOfSet(setIdx: nat) returns (best: Option<Slot>)
      requires Sized() && setIdx < c.setSize
      modifies `flips
      ensures Best(Lines(), c.policy, SlotsOf(c, Lines(), setIdx, c.waySize), best)
    {
      ghost var g := Lines();
      best := None;
      assert SlotsOf(c, g, setIdx, 0) == {};
      var w := 0;
      while w < c.waySize
        invariant w <= c.waySize && Best(g, c.policy, SlotsOf(c, g, setIdx, w), best)
      {
        ghost var x, before := Slot(setIdx, w), best;
        assert At(g, x) == cacheData[setIdx, w];
        if cacheData[setIdx, w].valid {
          best := Compare(best, Some(Slot(setIdx, w)));
          assert SlotsOf(c, g, setIdx, w + 1) == SlotsOf(c, g, setIdx, w) + {x};
          assert Best(g, c.policy, {x}, Some(x));
          BestOfBoth(g, c.policy, SlotsOf(c, g, setIdx, w), {x}, before, Some(x), best);
        } else {
          assert SlotsOf(c, g, setIdx, w + 1) == SlotsOf(c, g, setIdx, w);
        }
        w := w + 1;
      }
    }

    // The lines to evict when the set is full.
    method SelectLines(setIdx: nat) returns (ghost chosen: Picks)
      requires Sized() && NonePicked() && setIdx < c.setSize
      modifies evictData, `flips
      ensures Chosen(c, Lines(), chosen) && Selected(c, Lines(), chosen, Picked(), setIdx)
    {
      hide RowMerged, Best, Have, Forced, InRows;
      ScanLines();
      if c.evictMode == SuperPage {
        MergeColumns();
      }
      chosen := Picked();
      ChosenInRows(c, Lines(), chosen);
      var have := HavePick(setIdx);
      if !have {
        ForceSet(setIdx);
      }
    }

    // None of the picks makes room in the set.
    method ForceSet(setIdx: nat)
      requires Sized() && setIdx < c.setSize && !Have(c, Lines(), Picked(), setIdx)
      modifies evictData, `flips
      ensures Selected(c, Lines(), old(Picked()), Picked(), setIdx)
    {
      hide Have;
      var best := BestOfSet(setIdx);
      if best.Some? {
        assert cacheData[best.value.setIdx, best.value.wayIdx] == At(Lines(), best.value);
        var tag := cacheData[best.value.setIdx, best.value.wayIdx].tag;
        PositionOf(c, tag);
        SetPick(RowOf(c, tag), ColOf(c, tag), best);
        assert Forced(c, Lines(), old(Picked()), Picked(), setIdx, best.value);
      }
    }

    ghost predicate Logged()
      reads this
    {
      |sent| == |data| && ftl == FtlOf(c, sent, data) && forall r | r in sent :: FlagInPage(c, r)
    }

    // The FTL is asked to write the units of the request, with data v.
    method FtlWrite(r: FtlRequest, ghost v: nat)
      requires Logged() && FlagInPage(c, r)
      modifies `ftl, `sent, `data
      ensures Logged() && data == old(data) + [v]
      ensures ftl == FtlAfter(c, old(ftl), r, v) && sent == old(sent) + [r]
    {
      FtlOfNext(c, sent, data, r, v);
      ftl := FtlAfter(c, ftl, r, v);
      sent, data := sent + [r], data + [v];
    }

    // What evictions and writes keep; but for the LCAs in ex, which no line holds, no data is lost.
    ghost predicate Kept(ex: set<nat>)
      requires Sized()
      reads this, cacheData
    {
      && Logged() && Placed(c, Lines())
      && (forall x: Slot | InGrid(c, x) :: x in content)
      && DataOkExcept(lost, c, Lines(), content, newest, ftl, ex)
      && forall lca: nat | lca in ex :: !Cached(c, Lines(), lca)
    }

    // The picked lines are written to the FTL if dirty, and given up if flush is set.
    method EvictCache(flush: bool, evictAt: (nat, nat) -> Tick, ghost ex: set<nat>)
      requires Sized() && Kept(ex) && InRows(c, Lines(), Picked())
      modifies cacheData, evictData, `ftl, `sent, `data
      ensures Kept(ex) && NonePicked()
      ensures EvictedTo(c, old(Lines()), Lines(), old(Picked()), c.lineCountInSuperPage, 0, flush)
      ensures |sent| >= |old(sent)| && sent[..|old(sent)|] == old(sent)
      ensures SentFor(c, old(Lines()), old(Picked()), c.lineCountInSuperPage, 0, sent[|old(sent)|..])
    {
      hide Kept, Logged, FtlOf, EvictedTo, SentFor, Evicted, Listed, Placed, DataOkExcept, Cached, InRows, IsFor;
      ghost var g, v, n := Lines(), Picked(), |sent|;
      EvictStarts(c, g, v, flush);
      assert sent[n..] == [];
      var row := 0;
      while row < c.lineCountInSuperPage
        invariant row <= c.lineCountInSuperPage && Evicting(g, v, old(sent), row, 0, flush, ex)
      {
        var col := 0;
        while col < c.parallelIO
          invariant col <= c.parallelIO && Evicting(g, v, old(sent), row, col, flush, ex)
        {
          EvictOne(row, col, flush, evictAt(row, col), g, v, old(sent), ex);
          col := col + 1;
        }
        NextRow(g, v, old(sent), row, flush, ex);
        row := row + 1;
      }
    }

    // The eviction of the picks v of grid g has come to (row, col).
    ghost predicate Evicting(g: Grid, v: Picks, sentBefore: seq<FtlRequest>, row: nat, col: nat, flush: bool,
        ex: set<nat>)
      requires Sized()
      reads this, cacheData, evictData
    {
      && Kept(ex) && PicksShape(c, v) && InRows(c, g, v) && Shape(c, g)
      && EvictedTo(c, g, Lines(), v, row, col, flush)
      && |sent| >= |sentBefore| && sent[..|sentBefore|] == sentBefore
      && SentFor(c, g, v, row, col, sent[|sentBefore|..])
      && forall r: nat, k: nat | r < c.lineCountInSuperPage && k < c.parallelIO ::
           evictData[r, k] == if r < row || (r == row && k < col) then None else v[r][k]
    }

    lemma {:induction false} NextRow(g: Grid, v: Picks, sentBefore: seq<FtlRequest>, row: nat, flush: bool,
        ex: set<nat>)
      requires Sized() && row < c.lineCountInSuperPage && Evicting(g, v, sentBefore, row, c.parallelIO, flush, ex)
      ensures Evicting(g, v, sentBefore, row + 1, 0, flush, ex)
    {
      EvictNextRow(c, g, Lines(), v, row, flush);
      SentNextRow(c, g, v, row, sent[|sentBefore|..]);
    }

    method EvictOne(row: nat, col: nat, flush: bool, at: Tick, ghost g: Grid, ghost v: Picks,
        ghost sentBefore: seq<FtlRequest>,
        ghost ex: set<nat>)
      requires Sized() && row < c.lineCountInSuperPage && col < c.parallelIO
      requires Evicting(g, v, sentBefore, row, col, flush, ex)
      modifies cacheData, evictData, `ftl, `sent, `data
      ensures Evicting(g, v, sentBefore, row, col + 1, flush, ex)
    {
      hide Kept, Placed, DataOkExcept, EvictedTo, SentFor, FtlAfter, Cached, InRows, Picked;
      SentStep(c, g, Lines(), v, row, col, flush, sent[|sentBefore|..]);
      EvictStep(c, g, Lines(), v, row, col, flush, EMPTY_LINE);
      assert sent[|sentBefore|..] + [] == sent[|sentBefore|..];
      if evictData[row, col].Some? {
        var x := evictData[row, col].value;
        PickOf(g, v, row, col);
        var l := cacheData[x.setIdx, x.wayIdx].(insertedAt := at, lastAccessed := at, dirty := false);
        if flush {
          l := l.(valid := false, tag := 0);
        }
        EvictStep(c, g, Lines(), v, row, col, flush, l);
        GiveUp(x, row, l, ex);
        assert sent[|sentBefore|..] == old(sent)[|sentBefore|..] + sent[|old(sent)|..];
        evictData[row, col] := None;
      }
    }

    lemma {:induction false} PickOf(g: Grid, v: Picks, row: nat, col: nat)
      requires Sized() && InRows(c, g, v) && row < c.lineCountInSuperPage && col < c.parallelIO && v[row][col].Some?
      ensures InGrid(c, v[row][col].value)
      ensures cacheData[v[row][col].value.setIdx, v[row][col].value.wayIdx] == At(Lines(), v[row][col].value)
    {
    }

    // Line x becomes l; what it held goes to the FTL if it was dirty.
    method GiveUp(x: Slot, row: nat, l: Line, ghost ex: set<nat>)
      requires Sized() && Kept(ex) && InGrid(c, x)
      requires At(Lines(), x).valid ==> At(Lines(), x).tag % c.lineCountInSuperPage == row
      requires (!l.valid || (At(Lines(), x).valid && l.tag == At(Lines(), x).tag)) && !(l.valid && l.dirty)
      modifies cacheData, `ftl, `sent, `data
      ensures Kept(ex) && Lines() == Put(old(Lines()), x, l)
      ensures var l0 := old(At(Lines(), x));
        sent == old(sent) + if l0.valid && l0.dirty then [OwnRequest(c, l0.tag)] else []
    {
      hide Placed, DataOkExcept, FtlAfter, Cached;
      var l0 := cacheData[x.setIdx, x.wayIdx];
      assert At(Lines(), x) == l0;
      Untouched(x, ex);
      GiveUpKeeps(lost, c, Lines(), x, l, content, newest, ftl, ex);
      GiveUpKeepsPlaced(c, Lines(), x, l);
      if l0.valid && l0.dirty {
        OwnRequestWrites(c, ftl, l0.tag, content[x]);
        FtlWrite(FtlRequest(l0.tag / c.lineCountInSuperPage, {row}), content[x]);
      }
      SetLine(x, l);
    }

    lemma {:induction false} Untouched(x: Slot, ex: set<nat>)
      requires Sized() && InGrid(c, x) && forall lca: nat | lca in ex :: !Cached(c, Lines(), lca)
      ensures At(Lines(), x).valid ==> At(Lines(), x).tag !in ex
    {
    }

    ghost predicate Valid()
      reads this, cacheData, evictData
    {
      Sized() && Kept({}) && NonePicked() && (c.useWriteCaching || AllFree())
    }

    ghost predicate AllFree()
      requires Sized()
      reads cacheData
    {
      forall x: Slot | InGrid(c, x) :: !At(Lines(), x).valid
    }

    constructor (c: Config, coin: nat -> bool)
      requires c.Valid()
      ensures Valid() && this.c == c && newest == map[] && sent == [] && lost == {}
      ensures fresh(cacheData) && fresh(evictData)
    {
      this.c, this.coin, flips := c, coin, 0;
      cacheData := new Line[c.setSize, c.waySize]((s, w) => EMPTY_LINE);
      evictData := new Option<Slot>[c.lineCountInSuperPage, c.parallelIO]((r, k) => None);
      content := map x | x in AllSlots(c) :: 0;
      newest, ftl, sent, data, writes, lost := map[], FtlData(map[], {}), [], [], 0, {};
    }

    // The lines of a full set make room for the LCA.
    method EvictFor(lca: nat, evictAt: (nat, nat) -> Tick, ghost ex: set<nat>) returns (way: nat)
      requires Sized() && Kept(ex) && NonePicked() && ex <= {lca} && !Cached(c, Lines(), lca)
      requires forall w | 0 <= w < c.waySize :: cacheData[lca % c.setSize, w].valid
      modifies cacheData, evictData, `flips, `ftl, `sent, `data
      ensures Kept(ex) && NonePicked() && !Cached(c, Lines(), lca)
      ensures way < c.waySize && !cacheData[lca % c.setSize, way].valid
      ensures |sent| >= |old(sent)| && sent[..|old(sent)|] == old(sent)
      ensures MadeRoom(c, old(Lines()), Lines(), lca % c.setSize, sent[|old(sent)|..])
    {
      hide Chosen, Selected, EvictedTo, SentFor, Placed, DataOkExcept, InRows, Have, Picked;
      var setIdx := lca % c.setSize;
      ghost var g := Lines();
      assert At(g, Slot(setIdx, 0)) == cacheData[setIdx, 0];
      ghost var chosen := SelectLines(setIdx);
      ghost var v := Picked();
      ChosenInRows(c, g, chosen);
      SelectedInRows(c, g, chosen, v, setIdx);
      SelectedMakesRoom(c, g, chosen, v, setIdx);
      EvictCache(true, evictAt, ex);
      ghost var x := EvictedHasRoom(c, g, Lines(), v, setIdx);
      assert At(Lines(), x) == cacheData[setIdx, x.wayIdx];
      StillUncached(g, Lines(), v, lca);
      RoomMade(c, g, Lines(), chosen, v, setIdx, sent[|old(sent)|..]);
      way := GetEmptyWay(setIdx);
    }

    lemma {:induction false} StillUncached(g: Grid, h: Grid, v: Picks, lca: nat)
      requires Sized() && EvictedTo(c, g, h, v, c.lineCountInSuperPage, 0, true) && !Cached(c, g, lca)
      ensures !Cached(c, h, lca)
    {
    }

    // Some line is l, and the others are as before if `others` is set.
    ghost predicate Holds(l: Line, others: bool, before: Grid)
      requires Sized() && Shape(c, before)
      reads cacheData
    {
      exists x: Slot :: InGrid(c, x) && At(Lines(), x) == l && (others ==> Lines() == Put(before, x, l))
    }

    lemma {:induction false} HoldsAnyway(l: Line, a: Grid, b: Grid)
      requires Sized() && Shape(c, a) && Shape(c, b) && Holds(l, false, a)
      ensures Holds(l, false, b)
    {
    }

    // The newest data of the line's LCA is stored in line x.
    method StoreLine(x: Slot, l: Line, ghost v: nat)
      requires Sized() && InGrid(c, x) && l.valid && l.tag % c.setSize == x.setIdx
      requires Logged() && Placed(c, Lines()) && forall y: Slot | InGrid(c, y) :: y in content
      requires DataOkExcept(lost, c, Lines(), content, newest, ftl, {l.tag})
      requires (At(Lines(), x).valid && At(Lines(), x).tag == l.tag)
        || (!Cached(c, Lines(), l.tag) && !At(Lines(), x).valid)
      requires l.dirty || GiveFtl(ftl, l.tag, v) == ftl
      modifies cacheData, `content, `newest, `lost
      ensures Kept({}) && lost == old(lost) - {l.tag} && newest == old(newest)[l.tag := v]
      ensures Holds(l, true, old(Lines())) && Holds(l, false, old(Lines()))
    {
      hide Placed, DataOkExcept, Cached;
      StoreKeepsPlaced(c, Lines(), x, l);
      StoreKeepsData(lost, c, Lines(), x, l, content, newest, ftl, v);
      SetLine(x, l);
      content, newest, lost := content[x := v], newest[l.tag := v], lost - {l.tag};
      assert At(Lines(), x) == l;
    }

    // Lines were evicted, and the LCA is held in a line that is free afterwards.
    ghost predicate StoredAfterEviction(before: Grid, lca: nat, at: Tick, requests: seq<FtlRequest>)
      requires Sized()
      reads cacheData
    {
      exists emptied: Grid :: Shape(c, emptied) && MadeRoom(c, before, emptied, lca % c.setSize, requests)
        && Holds(Line(lca, at, at, true, true), true, emptied)
    }

    // The data of a write are stored in the line that holds the LCA, in a free line, or in one that is
    // made free.
    method Store(lca: nat, dirty: bool, at: Tick, evictAt: (nat, nat) -> Tick, ghost v: nat) returns (ret: bool)
      requires Sized() && NonePicked() && Logged() && Placed(c, Lines()) && forall y: Slot | InGrid(c, y) ::
        y in content
      requires DataOkExcept(lost, c, Lines(), content, newest, ftl, {lca}) && (dirty || GiveFtl(ftl, lca, v) == ftl)
      modifies cacheData, evictData, `flips, `ftl, `sent, `data, `content, `newest, `lost
      ensures Kept({}) && NonePicked() && newest == old(newest)[lca := v] && lost == old(lost) - {lca}
      ensures ret == old(Cached(c, Lines(), lca) || HasFreeWay(lca % c.setSize))
      ensures Holds(Line(lca, at, at, dirty || !ret, true), ret, old(Lines()))
      ensures |sent| >= |old(sent)| && sent[..|old(sent)|] == old(sent)
      ensures ret ==> sent == old(sent)
      ensures !ret ==> StoredAfterEviction(old(Lines()), lca, at, sent[|old(sent)|..])
    {
      hide Placed, DataOkExcept, Chosen, Selected, EvictedTo, SentFor, Picked, Holds, Cached, MadeRoom;
      var setIdx := lca % c.setSize;
      var way := GetValidWay(lca);
      ret := true;
      if way < c.waySize {
        var x := Slot(setIdx, way);
        assert At(Lines(), x) == cacheData[setIdx, way];
        StoreLine(x, cacheData[setIdx, way].(insertedAt := at, lastAccessed := at, dirty := dirty), v);
      } else {
        way := GetEmptyWay(setIdx);
        if way < c.waySize {
          var x := Slot(setIdx, way);
          assert At(Lines(), x) == cacheData[setIdx, way];
          StoreLine(x, Line(lca, at, at, dirty, true), v);
        } else {
          ret := false;
          way := EvictFor(lca, evictAt, {lca});
          var x := Slot(setIdx, way);
          assert At(Lines(), x) == cacheData[setIdx, way];
          ghost var emptied := Lines();
          StoreLine(x, Line(lca, at, at, true, true), v);
          HoldsAnyway(Line(lca, at, at, true, true), emptied, old(Lines()));
        }
      }
    }

    // A write of one LCA; `at` is the tick stored in its line. The panic for a set without room is
    // not reached.
    method Write(lca: nat, length: nat, at: Tick, evictAt: (nat, nat) -> Tick) returns (ret: bool)
      requires Valid()
      modifies this, cacheData, evictData
      ensures lost == old(lost) - {lca}
      ensures Valid() && writes == old(writes) + 1 && newest == old(newest)[lca := old(writes)]
      ensures c.useWriteCaching ==> Holds(Line(lca, at, at, length < c.lineSize || !ret, true), ret, old(Lines()))
      ensures ret == (c.useWriteCaching &&
                      old(Cached(c, Lines(), lca) || HasFreeWay(lca % c.setSize)))
      ensures var direct := if length >= c.lineSize || !c.useWriteCaching then [OwnRequest(c, lca)] else [];
        && |sent| >= |old(sent) + direct| && sent[..|old(sent) + direct|] == old(sent) + direct
        && (ret || !c.useWriteCaching ==> sent == old(sent) + direct)
        && (!ret && c.useWriteCaching ==>
              StoredAfterEviction(old(Lines()), lca, at, sent[|old(sent) + direct|..]))
    {
      hide StoredAfterEviction, Holds, Placed, DataOkExcept, FtlAfter, FtlOf;
      ghost var v := writes;
      writes := writes + 1;
      ret := false;
      var dirty := length < c.lineSize;
      OwnRequestWrites(c, ftl, lca, v);
      WriteThroughKeeps(lost, c, Lines(), content, newest, ftl, lca, v);
      if !dirty {
        FtlWrite(FtlRequest(lca / c.lineCountInSuperPage, {lca % c.lineCountInSuperPage}), v);
      }
      if c.useWriteCaching {
        ret := Store(lca, dirty, at, evictAt, v);
      } else {
        if dirty {
          FtlWrite(FtlRequest(lca / c.lineCountInSuperPage, {lca % c.lineCountInSuperPage}), v);
        }
        newest, lost := newest[lca := v], lost - {lca};
      }
    }

    // What every step keeps: newest data are in the lines, and given to the FTL or held.
    ghost predicate AllGiven()
      requires Sized()
      reads this, cacheData
    {
      && Logged() && Placed(c, Lines())
      && (forall x: Slot | InGrid(c, x) :: x in content)
      && LinesHold(c, Lines(), content, newest, {})
      && GivenOrHeld(c, Lines(), newest, ftl.given, {})
    }

    // The flush has come to line (s, w), from lines g and FTL data ftlBefore.
    ghost predicate FlushingTo(g: Grid, ftlBefore: FtlData, sentBefore: seq<FtlRequest>, range: Range,
        ioFlag: set<nat>,
        s: nat, w: nat)
      requires Sized()
      reads this, cacheData
    {
      && AllGiven() && Shape(c, g) && FlushedTo(c, g, Lines(), range, s, w)
      && (forall u | u in ioFlag :: u < c.lineCountInSuperPage)
      && var f := Flushing(c, g, content, range, ftlBefore, s, w);
         ioFlag == f.ioFlag && ftl == f.ftl && sent == sentBefore + f.sent
    }

    method FlushOne(s: nat, w: nat, range: Range, flag: set<nat>, ghost g: Grid, ghost ftlBefore: FtlData,
        ghost sentBefore: seq<FtlRequest>) returns (ioFlag: set<nat>)
      requires Sized() && s < c.setSize && w < c.waySize
      requires FlushingTo(g, ftlBefore, sentBefore, range, flag, s, w)
      modifies cacheData, `ftl, `sent, `data
      ensures FlushingTo(g, ftlBefore, sentBefore, range, ioFlag, s, w + 1)
    {
      hide Flushing, FlushedTo, Placed, LinesHold, GivenOrHeld, FtlAfter, Cached, Visited;
      ghost var x := Slot(s, w);
      var l := cacheData[s, w];
      assert At(Lines(), x) == l;
      FlushedLine(c, g, Lines(), range, s, w);
      FlushStep(x, range, g, ftlBefore);
      ioFlag := flag;
      if range.Has(l.tag) {
        if l.dirty {
          ioFlag := ioFlag + {l.tag % c.lineCountInSuperPage};
          FtlWrite(FtlRequest(l.tag / c.lineCountInSuperPage, ioFlag), content[x]);
        }
        SetLine(Slot(s, w), l.(valid := false));
      }
    }

    // What the visit of line x keeps.
    lemma {:induction false} FlushStep(x: Slot, range: Range, g: Grid, ftlBefore: FtlData)
      requires Sized() && InGrid(c, x) && AllGiven() && Shape(c, g) && At(Lines(), x) == At(g, x)
      requires ftl == Flushing(c, g, content, range, ftlBefore, x.setIdx, x.wayIdx).ftl
      ensures var f := Flushing(c, g, content, range, ftlBefore, x.setIdx, x.wayIdx);
        && Flushing(c, g, content, range, ftlBefore, x.setIdx, x.wayIdx + 1) == FlushLine(c, g, content, range, f, x)
        && var h := Put(Lines(), x, At(g, x).(valid := false));
           range.Has(At(g, x).tag) ==>
             && Placed(c, h) && LinesHold(c, h, content, newest, {})
             && GivenOrHeld(c, h, newest, FlushLine(c, g, content, range, f, x).ftl.given, {})
    {
      hide Placed, LinesHold, GivenOrHeld, FtlAfter, Cached, Visited;
      var f := Flushing(c, g, content, range, ftlBefore, x.setIdx, x.wayIdx);
      if range.Has(At(g, x).tag) {
        GiveUpKeepsPlaced(c, Lines(), x, At(g, x).(valid := false));
        FlushLineGives(c, g, Lines(), content, newest, range, f, x);
      }
    }

    // Whether a flush keeps the newest data of the LCA.
    ghost predicate KeptByFlush(range: Range, lca: nat)
      requires Sized()
      reads this, cacheData
    {
      FlushKeeps(c, Lines(), content, newest, ftl.holds, range, lca)
    }

    // A flush of a range of LCAs. It loses exactly the newest data that it does not keep.
    method Flush(range: Range)
      requires Valid()
      modifies cacheData, `ftl, `sent, `data, `lost
      ensures Valid() && newest == old(newest)
      ensures if c.useWriteCaching then
          && FlushedTo(c, old(Lines()), Lines(), range, c.setSize, 0)
          && var f := Flushing(c, old(Lines()), content, range, old(ftl), c.setSize, 0);
             ftl == f.ftl && sent == old(sent) + f.sent
        else Lines() == old(Lines()) && ftl == old(ftl) && sent == old(sent)
      ensures if c.useWriteCaching then forall lca: nat :: lca in lost <==>
        lca in newest && !old(KeptByFlush(range, lca))
        else lost == old(lost)
      ensures old(Clean(c, Lines(), range)) ==> lost <= old(lost)
    {
      hide Flushing, FlushedTo, Clean, Placed, LinesHold, GivenOrHeld, LostExactly, FtlAfter, Cached, Visited,
        FlushKeeps;
      if c.useWriteCaching {
        ghost var g, ftlBefore, sentBefore, lostBefore := Lines(), ftl, sent, lost;
        FlushStarts(range);
        var ioFlag: set<nat> := {};
        var s := 0;
        while s < c.setSize
          invariant s <= c.setSize && FlushingTo(g, ftlBefore, sentBefore, range, ioFlag, s, 0)
        {
          var w := 0;
          while w < c.waySize
            invariant w <= c.waySize && FlushingTo(g, ftlBefore, sentBefore, range, ioFlag, s, w)
          {
            ioFlag := FlushOne(s, w, range, ioFlag, g, ftlBefore, sentBefore);
            w := w + 1;
          }
          FlushNextSet(g, ftlBefore, range, s);
          s := s + 1;
        }
        FlushDone(c, g, Lines(), content, newest, range, ftlBefore);
        CleanLosesNone(c, g, content, newest, range, ftlBefore, lostBefore);
        lost := set lca | lca in newest && !FlushKeeps(c, g, content, newest, ftlBefore.holds, range, lca);
      }
    }

    lemma {:induction false} FlushNextSet(g: Grid, ftlBefore: FtlData, range: Range, s: nat)
      requires Sized() && FlushedTo(c, g, Lines(), range, s, c.waySize)
      ensures FlushedTo(c, g, Lines(), range, s + 1, 0)
      ensures Flushing(c, g, content, range, ftlBefore, s + 1, 0) ==
        Flushing(c, g, content, range, ftlBefore, s, c.waySize)
    {
    }

    lemma {:induction false} FlushStarts(range: Range)
      requires Valid()
      ensures FlushedTo(c, Lines(), Lines(), range, 0, 0)
      ensures var f := Flushing(c, Lines(), content, range, ftl, 0, 0); f.ioFlag == {} && f.ftl == ftl && f.sent == []
    {
    }

    // The newest data of an LCA are in its home set in the one valid line with its tag, which is dirty.
    ghost predicate Held(lca: nat)
      requires Sized()
      reads this, cacheData
    {
      exists x: Slot :: InGrid(c, x) && x in content && HeldBy(lca, x)
    }

    ghost predicate HeldBy(lca: nat, x: Slot)
      requires Sized() && InGrid(c, x) && x in content
      reads this, cacheData
    {
      && x.setIdx == lca % c.setSize && At(Lines(), x).valid && At(Lines(), x).dirty && At(Lines(), x).tag == lca
      && lca in newest && content[x] == newest[lca]
      && forall y: Slot | InGrid(c, y) && At(Lines(), y).valid && At(Lines(), y).tag == lca :: y == x
    }

    lemma {:induction false} HeldOnce(lca: nat)
      requires Valid() && HeldDirty(c, Lines(), lca)
      ensures Held(lca)
    {
      var x: Slot :| InGrid(c, x) && At(Lines(), x).valid && At(Lines(), x).dirty && At(Lines(), x).tag == lca;
      assert HeldBy(lca, x);
    }

    // The newest data of an LCA were sent to the FTL in a request naming its unit, or are held.
    ghost predicate Sent(lca: nat)
      requires Sized()
      reads this, cacheData
    {
      lca in newest ==>
        (exists k :: 0 <= k < |sent| && k < |data| && NamesUnit(c, sent[k], lca) && data[k] == newest[lca]) || Held(lca)
    }

    // The FTL has the newest data of the LCA, or they are held.
    ghost predicate Safe(lca: nat)
      requires Sized()
      reads this, cacheData
    {
      Stored(ftl.holds, newest, lca) || Held(lca)
    }

    // In every state newest data were given to the FTL or are held, and they are safe exactly if they are
    // not lost.
    lemma {:induction false} NothingLost(lca: nat)
      requires Valid()
      ensures Sent(lca)
      ensures lca in newest ==> (Safe(lca) <==> lca !in lost)
    {
      if HeldDirty(c, Lines(), lca) {
        HeldOnce(lca);
      } else if lca in newest {
        var k := GivenWasSent(c, sent, data, Given(lca, newest[lca]));
      }
      if Held(lca) {
        var x: Slot :| InGrid(c, x) && x in content && HeldBy(lca, x);
        assert HeldDirty(c, Lines(), lca);
      }
    }

    // Any run of writes and flushes. All newest data were given to the FTL or are held; all that are not
    // lost are safe, and writes alone lose none.
    method Run(ops: seq<Op>)
      requires Valid()
      modifies this, cacheData, evictData
      ensures Valid() && newest == Replayed(old(newest), old(writes), ops)
      ensures forall lca: nat :: Sent(lca) && (lca in newest ==> (Safe(lca) <==> lca !in lost))
      ensures (forall op | op in ops :: op.WriteOp?) ==> lost <= old(lost)
    {
      hide Kept, NonePicked, Holds, Flushing, FlushedTo, Clean, Safe, Sent, FlushKeeps;
      for i := 0 to |ops|
        invariant Valid()
        invariant Replayed(newest, writes, ops[i..]) == Replayed(old(newest), old(writes), ops)
        invariant (forall op | op in ops :: op.WriteOp?) ==> lost <= old(lost)
      {
        assert ops[i..][0] == ops[i] && ops[i..][1..] == ops[i + 1..];
        match ops[i]
        case WriteOp(lca, length, at, evictAt) =>
          var ret := Write(lca, length, at, evictAt);
        case FlushOp(range) =>
          Flush(range);
      }
      forall lca: nat ensures Sent(lca) && (lca in newest ==> (Safe(lca) <==> lca !in lost)) {
        NothingLost(lca);
      }
    }
  }

  // The lines and the FTL after a flush.
  lemma {:induction false} FlushDone(c: Config, g: Grid, h: Grid, content: map<Slot, nat>, newest: map<nat, nat>,
      range: Range, ftl: FtlData)
    requires c.Valid() && FlushedTo(c, g, h, range, c.setSize, 0) && forall x: Slot | InGrid(c, x) :: x in content
    ensures LostExactly((set lca | lca in newest && !FlushKeeps(c, g, content, newest, ftl.holds, range, lca)), c, h,
      newest,
      Flushing(c, g, content, range, ftl, c.setSize, 0).ftl.holds, {})
  {
    hide Flushing, FlushedTo, FlushKeeps, HeldDirty;
    forall lca: nat | lca in newest
      ensures var after := Flushing(c, g, content, range, ftl, c.setSize, 0).ftl.holds;
        Stored(after, newest, lca) || HeldDirty(c, h, lca) <==> FlushKeeps(c, g, content, newest, ftl.holds, range, lca)
    {
      FlushKeepsExactly(c, g, h, content, newest, range, ftl, lca);
    }
  }

  lemma {:induction false} CleanLosesNone(c: Config, g: Grid, content: map<Slot, nat>, newest: map<nat, nat>,
      range: Range, ftl: FtlData, lost: set<nat>)
    requires c.Valid() && Placed(c, g) && DataOk(lost, c, g, content, newest, ftl)
    requires forall x: Slot | InGrid(c, x) :: x in content
    ensures Clean(c, g, range) ==>
      (set lca | lca in newest && !FlushKeeps(c, g, content, newest, ftl.holds, range, lca)) <= lost
  {
    hide Placed, Clean, DataOkExcept, FlushKeeps;
    forall lca: nat | Clean(c, g, range) && lca in newest && lca !in lost
      ensures FlushKeeps(c, g, content, newest, ftl.holds, range, lca)
    {
      CleanKeeps(c, g, content, newest, range, ftl, lost, lca);
    }
  }
}
