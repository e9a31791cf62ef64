// Garbage collection as values: moving the valid units of a victim's page to the open
// block, and the budget of free blocks that moving draws on.
module Collections {
  import opened Arithmetic
  import opened Blocks
  import opened FreeLists
  import opened MappingTable
  import opened Options

  // Page p of the block without its valid units before position i.
  function RowCleared(b: BlockState, p: nat, i: nat): BlockState
    requires p < |b.valid|
  {
    b.(valid := b.valid[p := seq(|b.valid[p]|, j requires 0 <= j < |b.valid[p]| => i <= j && b.valid[p][j])])
  }

  // The block without the valid units of the pages before p.
  function RowsCleared(b: BlockState, p: nat): BlockState {
    b.(valid := seq(|b.valid|, q requires 0 <= q < |b.valid| =>
         if q < p then seq(|b.valid[q]|, _ => false) else b.valid[q]))
  }

  lemma {:induction false} RowClearedNext(b: BlockState, p: nat, i: nat)
    requires p < |b.valid| && i < |b.valid[p]|
    ensures RowCleared(b, p, 0) == b
    ensures |RowCleared(b, p, i).valid| == |b.valid| && |RowCleared(b, p, i).valid[p]| == |b.valid[p]|
    ensures RowCleared(b, p, i).valid[p][i] == b.valid[p][i]
    ensures b.valid[p][i] ==> RowCleared(b, p, i + 1) == Invalidated(RowCleared(b, p, i), p, i)
    ensures !b.valid[p][i] ==> RowCleared(b, p, i + 1) == RowCleared(b, p, i)
  {
    assert RowCleared(b, p, 0).valid[p] == b.valid[p];
    assert RowCleared(b, p, 0).valid == b.valid;
    if b.valid[p][i] {
      assert RowCleared(b, p, i + 1).valid[p] == RowCleared(b, p, i).valid[p][i := false];
      assert RowCleared(b, p, i + 1).valid == Invalidated(RowCleared(b, p, i), p, i).valid;
    } else {
      assert RowCleared(b, p, i + 1).valid[p] == RowCleared(b, p, i).valid[p];
    }
  }

  lemma {:induction false} RowsClearedNext(b: BlockState, p: nat, n: nat)
    requires p < |b.valid| && forall j | n <= j < |b.valid[p]| :: !b.valid[p][j]
    ensures RowsCleared(b, 0) == b
    ensures RowsCleared(b, p).valid[p] == b.valid[p]
    ensures RowCleared(RowsCleared(b, p), p, n) == RowsCleared(b, p + 1)
  {
    assert RowsCleared(b, 0).valid == b.valid;
    assert RowCleared(RowsCleared(b, p), p, n).valid[p] == RowsCleared(b, p + 1).valid[p];
    assert RowCleared(RowsCleared(b, p), p, n).valid == RowsCleared(b, p + 1).valid;
  }

  lemma {:induction false} AllRowsCleared(b: BlockState)
    ensures NothingValid(RowsCleared(b, |b.valid|))
  {
  }

  // Units past the mapping entries are never valid.
  lemma {:induction false} NoValidPastEntries(c: Config, s: Maps, b: nat, p: nat, i: nat)
    requires MapsOk(c, s) && b in s.blocks && p < c.pagesInBlock && c.bitsetSize() <= i < c.ioUnitInPage
    ensures !s.blocks[b].valid[p][i]
  {
    assert !Holds(c, s, b, p, i, s.blocks[b].lpns[p][i]);
  }

  // Block d took at most one more page at each unit position before n, none from n on.
  ghost predicate TookUpTo(b: BlockState, b': BlockState, n: nat) {
    && |b'.next| == |b.next|
    && (forall j | 0 <= j < |b.next| && n <= j :: b'.next[j] == b.next[j])
    && (forall j | 0 <= j < |b.next| :: b.next[j] <= b'.next[j] <= b.next[j] + 1)
  }

  // Moving page p of block v to block d, from state s on, has come to state t before position i,
  // with `moved` units moved.
  ghost predicate Moving(c: Config, s: Maps, t: Maps, v: nat, p: nat, d: nat, i: nat, moved: nat) {
    && v in s.blocks && d in s.blocks && v != d && p < |s.blocks[v].valid| && i <= c.bitsetSize()
    && t.blocks.Keys == s.blocks.Keys
    && (forall b | b in s.blocks && b != v && b != d :: t.blocks[b] == s.blocks[b])
    && t.blocks[v] == RowCleared(s.blocks[v], p, i)
    && TookUpTo(s.blocks[d], t.blocks[d], i)
    && (forall j | 0 <= j < i && j < |t.blocks[d].next| && j < |s.blocks[v].valid[p]| && s.blocks[v].valid[p][j] ::
          t.blocks[d].next[j] > 0)
    && |ValidUnits(t.blocks[v])| + moved == |ValidUnits(s.blocks[v])|
  }

  // What a whole collection keeps while it moves units.
  ghost predicate Kept(c: Config, s: Maps, t: Maps) {
    MapsOk(c, t) && SameView(c, s, t)
  }

  lemma {:induction false} KeptIsOk(c: Config, s: Maps, t: Maps)
    requires Kept(c, s, t)
    ensures MapsOk(c, t)
  {
  }

  lemma {:induction false} MovingStarts(c: Config, s: Maps, v: nat, p: nat, d: nat)
    requires MapsOk(c, s) && v in s.blocks && d in s.blocks && v != d && p < c.pagesInBlock && c.Valid()
    ensures Moving(c, s, s, v, p, d, 0, 0) && Kept(c, s, s)
    ensures |s.blocks[v].lpns[p]| == c.ioUnitInPage
  {
    RowClearedNext(s.blocks[v], p, 0);
  }

  lemma {:induction false} TookNext(b: BlockState, b': BlockState, i: nat, l: nat)
    requires TookUpTo(b, b', i) && i < |b'.next|
    requires var p := b'.next[i];
      && p < |b'.valid| && p < |b'.erased| && p < |b'.lpns|
      && i < |b'.valid[p]| && i < |b'.erased[p]| && i < |b'.lpns[p]|
    ensures TookUpTo(b, Written(b', b'.next[i], l, i), i + 1)
  {
  }

  // What one more move does to the blocks.
  lemma {:induction false} MovingBlocks(c: Config, s: Maps, t: Maps, u: Maps, v: nat, p: nat, d: nat, i: nat,
      moved: nat, l: nat)
    requires Moving(c, s, t, v, p, d, i, moved) && i < c.bitsetSize() && c.Valid()
    requires p < c.pagesInBlock && i < |s.blocks[v].valid[p]| && s.blocks[v].valid[p][i]
    requires WellFormed(t.blocks[v], c.pagesInBlock, c.ioUnitInPage)
    requires WellFormed(t.blocks[d], c.pagesInBlock, c.ioUnitInPage) && t.blocks[d].next[i] < c.pagesInBlock
    requires u.blocks == t.blocks[v := Invalidated(t.blocks[v], p, i)]
                                 [d := Written(t.blocks[d], t.blocks[d].next[i], l, i)]
    ensures Moving(c, s, u, v, p, d, i + 1, moved + 1)
  {
    hide TookUpTo, RowCleared;
    RowClearedNext(s.blocks[v], p, i);
    TookNext(s.blocks[d], t.blocks[d], i, l);
    InvalidateKeeps(t.blocks[v], p, i, c.pagesInBlock, c.ioUnitInPage);
    assert (p, i) in ValidUnits(t.blocks[v]);
    assert u.blocks[d].next[i] > 0;
  }

  lemma {:induction false} MovingRoom(c: Config, s: Maps, t: Maps, v: nat, p: nat, d: nat, i: nat, moved: nat)
    requires MapsOk(c, s) && c.Valid() && Moving(c, s, t, v, p, d, i, moved) && Kept(c, s, t) && i < c.bitsetSize()
    requires p < c.pagesInBlock && !Full(s.blocks[d], c.pagesInBlock) && s.blocks[v].valid[p][i]
    ensures v in t.blocks && d in t.blocks && v != d && t.blocks[v].valid[p][i] && t.blocks[d].next[i] < c.pagesInBlock
    ensures t.blocks[v].lpns == s.blocks[v].lpns && p < |s.blocks[v].valid| && i < |s.blocks[v].valid[p]|
  {
    RoomEverywhere(s.blocks[d], c.pagesInBlock, c.ioUnitInPage, i);
  }

  lemma {:induction false} MovingNext(c: Config, s: Maps, t: Maps, v: nat, p: nat, d: nat, i: nat, moved: nat)
    requires MapsOk(c, s) && c.Valid() && Moving(c, s, t, v, p, d, i, moved) && Kept(c, s, t) && i < c.bitsetSize()
    requires p < c.pagesInBlock && !Full(s.blocks[d], c.pagesInBlock) && s.blocks[v].valid[p][i]
    ensures v in t.blocks && d in t.blocks && v != d && t.blocks[v].valid[p][i] && t.blocks[d].next[i] < c.pagesInBlock
    ensures t.blocks[v].lpns == s.blocks[v].lpns
    ensures t.blocks[v].lpns[p][i] in t.table && i < |t.table[t.blocks[v].lpns[p][i]]|
    ensures CanWrite(t.blocks[d], t.blocks[d].next[i], i)
    ensures Moving(c, s, MoveAt(c, t, v, p, i, d), v, p, d, i + 1, moved + 1)
    ensures Kept(c, s, MoveAt(c, t, v, p, i, d))
  {
    hide Moving, TookUpTo, RowCleared;
    MovingRoom(c, s, t, v, p, d, i, moved);
    MoveStep(c, t, v, p, i, d);
    var u := MoveAt(c, t, v, p, i, d);
    MovingBlocks(c, s, t, u, v, p, d, i, moved, t.blocks[v].lpns[p][i]);
    ViewsChain(c, s, t, u);
  }

  lemma {:induction false} ViewsChain(c: Config, s: Maps, t: Maps, u: Maps)
    requires SameView(c, s, t) && SameView(c, t, u)
    ensures SameView(c, s, u)
  {
    forall l: nat, i: nat ensures Look(c, s, l, i) == Look(c, u, l, i) {
      assert Look(c, s, l, i) == Look(c, t, l, i);
    }
  }

  lemma {:induction false} MovingSkips(c: Config, s: Maps, t: Maps, v: nat, p: nat, d: nat, i: nat, moved: nat)
    requires MapsOk(c, s) && c.Valid() && Moving(c, s, t, v, p, d, i, moved) && i < c.bitsetSize()
    requires p < c.pagesInBlock && !s.blocks[v].valid[p][i]
    ensures Moving(c, s, t, v, p, d, i + 1, moved)
  {
    RowClearedNext(s.blocks[v], p, i);
  }

  // Page p of victim v has been emptied; the other full blocks are as they were.
  ghost predicate PageCollected(c: Config, bs: map<nat, BlockState>, cs: map<nat, BlockState>, v: nat, p: nat,
      moved: nat) {
    && v in bs && v in cs && p < |bs[v].valid| && bs.Keys <= cs.Keys
    && cs[v] == RowCleared(bs[v], p, c.ioUnitInPage)
    && (forall b | b in bs && b != v && Full(bs[b], c.pagesInBlock) :: b in cs && cs[b] == bs[b])
    && |ValidUnits(cs[v])| + moved == |ValidUnits(bs[v])|
  }

  lemma {:induction false} EmptyPageCollected(c: Config, s: Maps, v: nat, p: nat)
    requires MapsOk(c, s) && v in s.blocks && p < c.pagesInBlock
    requires forall i | 0 <= i < c.ioUnitInPage :: !s.blocks[v].valid[p][i]
    ensures PageCollected(c, s.blocks, s.blocks, v, p, 0)
  {
    var b := s.blocks[v];
    assert RowCleared(b, p, c.ioUnitInPage).valid[p] == b.valid[p];
    assert RowCleared(b, p, c.ioUnitInPage).valid == b.valid;
  }

  lemma {:induction false} RowClearedPastEntries(c: Config, s: Maps, v: nat, p: nat)
    requires MapsOk(c, s) && c.Valid() && v in s.blocks && p < c.pagesInBlock
    ensures RowCleared(s.blocks[v], p, c.bitsetSize()) == RowCleared(s.blocks[v], p, c.ioUnitInPage)
  {
    var b := s.blocks[v];
    forall j | c.bitsetSize() <= j < c.ioUnitInPage ensures !b.valid[p][j] {
      NoValidPastEntries(c, s, v, p, j);
    }
    assert RowCleared(b, p, c.bitsetSize()).valid[p] == RowCleared(b, p, c.ioUnitInPage).valid[p];
  }

  // The page is done: bs before, s once the open block d was chosen, t after the moves.
  lemma {:induction false} MovedPageCollected(c: Config, bs: map<nat, BlockState>, s: Maps, t: Maps, v: nat, p: nat,
      d: nat, moved: nat)
    requires MapsOk(c, s) && c.Valid() && Moving(c, s, t, v, p, d, c.bitsetSize(), moved)
    requires p < c.pagesInBlock && v in bs && !Full(s.blocks[d], c.pagesInBlock)
    requires forall b | b in bs :: b in s.blocks && s.blocks[b] == bs[b]
    ensures PageCollected(c, bs, t.blocks, v, p, moved)
  {
    RowClearedPastEntries(c, s, v, p);
  }

  // The open block got its page.
  lemma {:induction false} MovedPageWritten(c: Config, s: Maps, t: Maps, v: nat, p: nat, d: nat, moved: nat, i: nat)
    requires MapsOk(c, s) && c.Valid() && Moving(c, s, t, v, p, d, c.bitsetSize(), moved)
    requires p < c.pagesInBlock && i < c.ioUnitInPage && s.blocks[v].valid[p][i]
    ensures t.blocks.Keys == s.blocks.Keys && d in s.blocks
    ensures forall b | b in s.blocks && b != d :: t.blocks[b].next == s.blocks[b].next
    ensures 1 <= MaxOf(t.blocks[d].next) <= MaxOf(s.blocks[d].next) + 1
  {
    assert i < c.bitsetSize() by {
      if c.bitsetSize() <= i {
        NoValidPastEntries(c, s, v, p, i);
        assert false;
      }
    }
    assert t.blocks[d].next[i] > 0;
    MaxBelow(t.blocks[d].next, MaxOf(s.blocks[d].next) + 1);
  }

  // The pages of victim v before q have been emptied, `moved` units in all.
  ghost predicate CollectedUpTo(c: Config, bs: map<nat, BlockState>, cs: map<nat, BlockState>, v: nat, q: nat,
      moved: nat) {
    && v in bs && v in cs && bs.Keys <= cs.Keys
    && cs[v] == RowsCleared(bs[v], q)
    && (forall b | b in bs && b != v && Full(bs[b], c.pagesInBlock) :: b in cs && cs[b] == bs[b])
    && |ValidUnits(cs[v])| + moved == |ValidUnits(bs[v])|
  }

  lemma {:induction false} CollectedStarts(c: Config, bs: map<nat, BlockState>, v: nat)
    requires v in bs
    ensures CollectedUpTo(c, bs, bs, v, 0, 0)
  {
    assert RowsCleared(bs[v], 0).valid == bs[v].valid;
  }

  lemma {:induction false} CollectedNext(c: Config, bs: map<nat, BlockState>, cs: map<nat, BlockState>, ds: map<nat,
      BlockState>,
                      v: nat, q: nat, moved: nat, more: nat)
    requires CollectedUpTo(c, bs, cs, v, q, moved) && PageCollected(c, cs, ds, v, q, more)
    requires Shaped(bs[v], c.pagesInBlock, c.ioUnitInPage) && q < c.pagesInBlock
    ensures CollectedUpTo(c, bs, ds, v, q + 1, moved + more)
  {
    RowsClearedNext(bs[v], q, c.ioUnitInPage);
  }

  lemma {:induction false} CollectedStillFull(c: Config, bs: map<nat, BlockState>, cs: map<nat, BlockState>, v: nat,
      q: nat, moved: nat)
    requires CollectedUpTo(c, bs, cs, v, q, moved) && Full(bs[v], c.pagesInBlock)
    ensures v in cs && Full(cs[v], c.pagesInBlock)
  {
  }

  // Victim v is empty; its valid units have all been moved.
  ghost predicate BlockCollected(c: Config, bs: map<nat, BlockState>, cs: map<nat, BlockState>, v: nat, moved: nat) {
    && v in bs && v in cs && bs.Keys <= cs.Keys
    && NothingValid(cs[v]) && cs[v].next == bs[v].next && cs[v].eraseCount == bs[v].eraseCount
    && (forall b | b in bs && b != v && Full(bs[b], c.pagesInBlock) :: b in cs && cs[b] == bs[b])
    && moved == |ValidUnits(bs[v])|
  }

  lemma {:induction false} CollectedEnds(c: Config, bs: map<nat, BlockState>, cs: map<nat, BlockState>, v: nat,
      moved: nat)
    requires CollectedUpTo(c, bs, cs, v, c.pagesInBlock, moved) && |bs[v].valid| == c.pagesInBlock
    ensures BlockCollected(c, bs, cs, v, moved)
  {
    AllRowsCleared(bs[v]);
  }

  // ---------- all victims ----------

  ghost function Elements(victims: seq<nat>): set<nat> { set v | v in victims }

  predicate Distinct(victims: seq<nat>) {
    forall j, k | 0 <= j < k < |victims| :: victims[j] != victims[k]
  }

  ghost predicate Victims(c: Config, blocks: map<nat, BlockState>, victims: seq<nat>) {
    && Distinct(victims)
    && forall k | 0 <= k < |victims| :: victims[k] in blocks && Full(blocks[victims[k]], c.pagesInBlock)
  }

  ghost function ValidCounts(blocks: map<nat, BlockState>, victims: seq<nat>): seq<nat>
    requires forall k | 0 <= k < |victims| :: victims[k] in blocks
  {
    seq(|victims|, k requires 0 <= k < |victims| => |ValidUnits(blocks[victims[k]])|)
  }

  // Victims before i are empty, the others untouched, and `moved` units were moved.
  ghost predicate EmptiedUpTo(c: Config, bs: map<nat, BlockState>, cs: map<nat, BlockState>, victims: seq<nat>, i: nat,
      moved: nat) {
    && i <= |victims| && Victims(c, bs, victims) && bs.Keys <= cs.Keys
    && (forall k | 0 <= k < i ::
          victims[k] in cs && NothingValid(cs[victims[k]]) && Full(cs[victims[k]], c.pagesInBlock)
          && victims[k] in bs && cs[victims[k]].eraseCount == bs[victims[k]].eraseCount)
    && (forall k | i <= k < |victims| :: victims[k] in cs && cs[victims[k]] == bs[victims[k]])
    && moved == Sum(ValidCounts(bs, victims)[..i])
  }

  lemma {:induction false} EmptiedStarts(c: Config, bs: map<nat, BlockState>, victims: seq<nat>)
    requires Victims(c, bs, victims)
    ensures EmptiedUpTo(c, bs, bs, victims, 0, 0)
  {
  }

  lemma {:induction false} EmptiedNextIsFull(c: Config, bs: map<nat, BlockState>, cs: map<nat, BlockState>,
      victims: seq<nat>, i: nat, moved: nat)
    requires EmptiedUpTo(c, bs, cs, victims, i, moved) && i < |victims|
    ensures victims[i] in cs && victims[i] in bs && cs[victims[i]] == bs[victims[i]]
      && Full(cs[victims[i]], c.pagesInBlock)
  {
  }

  lemma {:induction false} EmptiedNext(c: Config, bs: map<nat, BlockState>, cs: map<nat, BlockState>, ds: map<nat,
      BlockState>,
                    victims: seq<nat>, i: nat, moved: nat, more: nat)
    requires EmptiedUpTo(c, bs, cs, victims, i, moved) && i < |victims|
    requires BlockCollected(c, cs, ds, victims[i], more)
    ensures EmptiedUpTo(c, bs, ds, victims, i + 1, moved + more)
  {
    var s := ValidCounts(bs, victims);
    assert s[..i + 1][..i] == s[..i];
    forall k | i < k < |victims| ensures victims[k] in ds && ds[victims[k]] == bs[victims[k]] {
      assert victims[i] != victims[k];
    }
    forall k | 0 <= k < i ensures victims[k] in ds && ds[victims[k]] == cs[victims[k]] {
      assert victims[k] != victims[i];
    }
  }

  // ---------- the budget of free blocks ----------

  // Collecting n full victims started with F free blocks. After `calls` page moves the blocks
  // taken since are paid for by the pages moved and by what the open blocks held at the start.
  ghost predicate Funded(c: Config, blocks: map<nat, BlockState>, open: seq<nat>, nFree: nat, F: nat, n: nat,
      calls: nat) {
    && OpenBlocks(blocks, open) && |open| == c.pageCountToMaxPerf
    && nFree <= F && n + c.pageCountToMaxPerf <= F
    && (F - nFree) * c.pagesInBlock + FillSum(blocks, open) <= c.pageCountToMaxPerf * c.pagesInBlock + calls
    && (nFree < F ==> FillSum(blocks, open) >= 1)
  }

  ghost predicate FundedToTheEnd(c: Config, blocks: map<nat, BlockState>, open: seq<nat>, nFree: nat, F: nat, n: nat) {
    Funded(c, blocks, open, nFree, F, n, n * c.pagesInBlock)
  }

  lemma {:induction false} FundedStart(c: Config, blocks: map<nat, BlockState>, open: seq<nat>, F: nat, n: nat)
    requires OpenBlocks(blocks, open) && |open| == c.pageCountToMaxPerf && n + c.pageCountToMaxPerf <= F
    requires forall b | b in blocks :: WellFormed(blocks[b], c.pagesInBlock, c.ioUnitInPage)
    ensures Funded(c, blocks, open, F, F, n, 0)
  {
    FillAtMost(c, blocks, open);
  }

  lemma {:induction false} FundedIdle(c: Config, blocks: map<nat, BlockState>, open: seq<nat>, nFree: nat, F: nat,
      n: nat, calls: nat)
    requires Funded(c, blocks, open, nFree, F, n, calls)
    ensures Funded(c, blocks, open, nFree, F, n, calls + 1)
  {
  }

  lemma {:induction false} TooMany(u: nat, m: nat, k: nat, rest: nat)
    requires 1 <= k && u * k + rest <= m * k && 1 <= rest
    ensures u < m
  {
    if m <= u {
      MulMonotone(m, u, k);
      assert false;
    }
  }

  // With moves still due, a full open block finds a free one to replace it.
  lemma {:induction false} FundedCanOpen(c: Config, blocks: map<nat, BlockState>, open: seq<nat>, nFree: nat, F: nat,
      n: nat, calls: nat, k: nat)
    requires c.Valid() && Funded(c, blocks, open, nFree, F, n, calls) && calls < n * c.pagesInBlock
    requires k < |open| && Full(blocks[open[k]], c.pagesInBlock)
    requires forall b | b in blocks :: WellFormed(blocks[b], c.pagesInBlock, c.ioUnitInPage)
    ensures nFree > 0
  {
    FillAtMost(c, blocks, open);
    StillPaid(F - nFree, c.pageCountToMaxPerf, n, c.pagesInBlock, calls, FillSum(blocks, open));
  }

  lemma {:induction false} StillPaid(u: nat, P: nat, n: nat, N: nat, calls: nat, fill: nat)
    requires 1 <= N <= fill && u * N + fill <= P * N + calls && calls < n * N
    ensures u < P + n
  {
    assert (P + n) * N == P * N + n * N;
    TooMany(u, P + n, N, 1);
  }

  // At the end at most n + P - 1 blocks were taken, so at least one is free.
  lemma {:induction false} FundedEnd(c: Config, blocks: map<nat, BlockState>, open: seq<nat>, nFree: nat, F: nat,
      n: nat)
    requires c.Valid() && Funded(c, blocks, open, nFree, F, n, n * c.pagesInBlock)
    ensures F - nFree <= n + c.pageCountToMaxPerf - 1 && 1 <= nFree
  {
    var P, N := c.pageCountToMaxPerf, c.pagesInBlock;
    assert (P + n) * N == P * N + n * N;
    if nFree < F {
      TooMany(F - nFree, P + n, N, FillSum(blocks, open));
    }
  }

  // Opening a block for a page and writing the page there costs one call.
  lemma {:induction false} FundedStep(c: Config, blocks: map<nat, BlockState>, free: seq<BlockState>, open: seq<nat>,
      k: nat,
                   blocks': map<nat, BlockState>, free': seq<BlockState>, open': seq<nat>,
                   after: map<nat, BlockState>, F: nat, n: nat, calls: nat)
    requires c.Valid() && k < |open| && Funded(c, blocks, open, |free|, F, n, calls)
    requires Opened(c, blocks, free, open, k, blocks', free', open')
    requires after.Keys == blocks'.Keys
    requires forall b | b in blocks' && b != open'[k] :: after[b].next == blocks'[b].next
    requires open'[k] in blocks' && 1 <= MaxOf(after[open'[k]].next) <= MaxOf(blocks'[open'[k]].next) + 1
    ensures Funded(c, after, open', |free'|, F, n, calls + 1)
  {
    OpenedKeepsOpen(c, blocks, free, open, k, blocks', free', open');
    OpenedFunds(c, blocks, free, open, k, blocks', free', open', F, n, calls);
    FillOfWrite(blocks', after, open', k);
    SumUpdate(Fills(after, open'), k, 0);
  }

  lemma {:induction false} OpenedFunds(c: Config, blocks: map<nat, BlockState>, free: seq<BlockState>, open: seq<nat>,
      k: nat,
                    blocks': map<nat, BlockState>, free': seq<BlockState>, open': seq<nat>, F: nat, n: nat, calls: nat)
    requires c.Valid() && k < |open| && Funded(c, blocks, open, |free|, F, n, calls)
    requires Opened(c, blocks, free, open, k, blocks', free', open')
    ensures OpenBlocks(blocks', open') && |open'| == |open| && |free'| <= |free|
    ensures (F - |free'|) * c.pagesInBlock + FillSum(blocks', open') <= c.pageCountToMaxPerf * c.pagesInBlock + calls
  {
    hide FillSum;
    hide Fresh;
    OpenedKeepsOpen(c, blocks, free, open, k, blocks', free', open');
    if Full(blocks[open[k]], c.pagesInBlock) {
      var t := TakenAt(free, c.pageCountToMaxPerf, k);
      FillOfReplacement(c, blocks, open, k, free[t]);
      assert |free'| == |free| - 1;
      NextMultiple(F - |free|, c.pagesInBlock);
    }
  }
}
