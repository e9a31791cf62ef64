// The FTL's list of free blocks, kept in order of wear, and the accounting of where every
// physical block is.
module FreeLists {
  import opened Blocks
  import opened MappingTable

  ghost predicate ByWear(free: seq<BlockState>) {
    forall j, k | 0 <= j < k < |free| :: free[j].eraseCount <= free[k].eraseCount
  }

  ghost predicate DistinctIds(free: seq<BlockState>) {
    forall j, k | 0 <= j < k < |free| :: free[j].idx != free[k].idx
  }

  ghost function Ids(free: seq<BlockState>): set<nat> { set b | b in free :: b.idx }

  ghost predicate AllFresh(c: Config, free: seq<BlockState>) {
    forall b | b in free :: b.idx < c.totalPhysicalBlocks && Fresh(b, c.pagesInBlock, c.ioUnitInPage)
  }

  lemma {:induction false} FreeElement(c: Config, free: seq<BlockState>, k: nat)
    requires FreeListOk(c, free) && k < |free|
    ensures free[k].idx < c.totalPhysicalBlocks && Fresh(free[k], c.pagesInBlock, c.ioUnitInPage)
  {
    assert free[k] in free;
  }

  ghost predicate FreeListOk(c: Config, free: seq<BlockState>) {
    AllFresh(c, free) && DistinctIds(free) && ByWear(free)
  }

  // Every physical block is in use, free or retired, and only one of these.
  ghost predicate Conserved(c: Config, used: set<nat>, ids: set<nat>, retired: set<nat>) {
    && (forall b: nat {:trigger b in used} {:trigger b in ids} {:trigger b in retired} ::
          b < c.totalPhysicalBlocks <==> b in used || b in ids || b in retired)
    && used !! ids && used !! retired && ids !! retired
  }

  // Block k is the one getFreeBlock takes for class idx: the first of that class, or the
  // first of all when the class has none.
  ghost predicate FirstOfClass(free: seq<BlockState>, classes: nat, idx: nat, k: nat)
    requires classes > 0
  {
    && k < |free|
    && if exists j :: 0 <= j < |free| && free[j].idx % classes == idx then
         free[k].idx % classes == idx && forall j | 0 <= j < k :: free[j].idx % classes != idx
       else k == 0
  }

  // It is a least-worn block of its class, or a least-worn block when the class has none.
  lemma {:induction false} FirstOfClassIsLeastWorn(free: seq<BlockState>, classes: nat, idx: nat, k: nat)
    requires classes > 0 && ByWear(free) && FirstOfClass(free, classes, idx, k)
    ensures forall j | 0 <= j < |free| && free[j].idx % classes == idx :: free[k].eraseCount <= free[j].eraseCount
    ensures free[k].idx % classes != idx ==>
      (forall j | 0 <= j < |free| :: free[j].idx % classes != idx && free[k].eraseCount <= free[j].eraseCount)
  {
    forall j | 0 <= j < |free| && free[j].idx % classes == idx ensures free[k].eraseCount <= free[j].eraseCount {
      assert k <= j;
    }
  }

  // The first free block of a class; |free| if there is none.
  function FirstInClass(free: seq<BlockState>, classes: nat, idx: nat): (k: nat)
    requires classes > 0
    ensures k <= |free|
    ensures k < |free| ==> free[k].idx % classes == idx
    ensures forall j | 0 <= j < k :: free[j].idx % classes != idx
  {
    if |free| == 0 || free[0].idx % classes == idx then 0 else 1 + FirstInClass(free[1..], classes, idx)
  }

  function TakenAt(free: seq<BlockState>, classes: nat, idx: nat): (k: nat)
    requires classes > 0 && |free| > 0
    ensures FirstOfClass(free, classes, idx, k)
  {
    var k := FirstInClass(free, classes, idx);
    if k == |free| then 0 else k
  }

  function Without(free: seq<BlockState>, k: nat): seq<BlockState>
    requires k < |free|
  {
    free[..k] + free[k + 1..]
  }

  lemma {:induction false} WithoutElements(free: seq<BlockState>, k: nat)
    requires k < |free|
    ensures |Without(free, k)| == |free| - 1
    ensures forall i | 0 <= i < |free| - 1 :: Without(free, k)[i] == if i < k then free[i] else free[i + 1]
  {
  }

  lemma {:induction false} WithoutIds(free: seq<BlockState>, k: nat)
    requires k < |free| && DistinctIds(free)
    ensures Ids(Without(free, k)) == Ids(free) - {free[k].idx}
  {
    assert free == free[..k] + [free[k]] + free[k + 1..];
    assert Ids(free) == Ids(free[..k]) + {free[k].idx} + Ids(free[k + 1..]);
    assert Ids(Without(free, k)) == Ids(free[..k]) + Ids(free[k + 1..]);
  }

  lemma {:induction false} WithoutOk(c: Config, free: seq<BlockState>, k: nat)
    requires FreeListOk(c, free) && k < |free|
    ensures FreeListOk(c, Without(free, k))
  {
    WithoutElements(free, k);
  }

  lemma {:induction false} TakeKeeps(c: Config, used: set<nat>, free: seq<BlockState>, retired: set<nat>, k: nat)
    requires FreeListOk(c, free) && Conserved(c, used, Ids(free), retired) && k < |free|
    ensures FreeListOk(c, Without(free, k))
    ensures free[k].idx !in used && Conserved(c, used + {free[k].idx}, Ids(Without(free, k)), retired)
  {
    WithoutOk(c, free, k);
    WithoutIds(free, k);
    assert free[k].idx in Ids(free);
  }

  function Insert(free: seq<BlockState>, k: nat, b: BlockState): seq<BlockState>
    requires k <= |free|
  {
    free[..k] + [b] + free[k..]
  }

  // Where a worn block goes, searching from the most worn end: behind every block worn no more.
  method FindByWear(free: seq<BlockState>, erasedCount: nat) returns (k: nat)
    requires |free| > 0
    ensures k <= |free|
    ensures k > 0 ==> free[k - 1].eraseCount <= erasedCount
    ensures forall j | k <= j < |free| :: erasedCount < free[j].eraseCount
  {
    k := |free|;
    while true
      invariant 0 < k <= |free|
      invariant forall j | k <= j < |free| :: erasedCount < free[j].eraseCount
      decreases k
    {
      k := k - 1;
      if free[k].eraseCount <= erasedCount {
        k := k + 1;
        return;
      }
      if k == 0 {
        return;
      }
    }
  }

  lemma {:induction false} InsertIds(free: seq<BlockState>, k: nat, b: BlockState)
    requires k <= |free|
    ensures Ids(Insert(free, k, b)) == Ids(free) + {b.idx}
  {
    assert free == free[..k] + free[k..];
  }

  lemma {:induction false} InsertAt(free: seq<BlockState>, k: nat, b: BlockState, i: nat)
    requires k <= |free| && i <= |free|
    ensures |Insert(free, k, b)| == |free| + 1
    ensures Insert(free, k, b)[i] == if i < k then free[i] else if i == k then b else free[i - 1]
  {
  }

  lemma {:induction false} InsertDistinct(free: seq<BlockState>, k: nat, b: BlockState)
    requires DistinctIds(free) && k <= |free| && b.idx !in Ids(free)
    ensures DistinctIds(Insert(free, k, b))
  {
    var r := Insert(free, k, b);
    forall i | 0 <= i < |free| ensures free[i].idx != b.idx {
      assert free[i].idx in Ids(free);
    }
    forall i, j | 0 <= i < j < |r| ensures r[i].idx != r[j].idx {
      InsertAt(free, k, b, i);
      InsertAt(free, k, b, j);
    }
  }

  lemma {:induction false} InsertByWear(free: seq<BlockState>, k: nat, b: BlockState)
    requires ByWear(free) && k <= |free| && (k > 0 ==> free[k - 1].eraseCount <= b.eraseCount)
    requires forall j | k <= j < |free| :: b.eraseCount < free[j].eraseCount
    ensures ByWear(Insert(free, k, b))
  {
    var r := Insert(free, k, b);
    forall i, j | 0 <= i < j < |r| ensures r[i].eraseCount <= r[j].eraseCount {
      InsertAt(free, k, b, i);
      InsertAt(free, k, b, j);
    }
  }

  lemma {:induction false} InsertOk(c: Config, free: seq<BlockState>, k: nat, b: BlockState)
    requires FreeListOk(c, free) && b.idx < c.totalPhysicalBlocks && b.idx !in Ids(free)
    requires Fresh(b, c.pagesInBlock, c.ioUnitInPage)
    requires k <= |free| && (k > 0 ==> free[k - 1].eraseCount <= b.eraseCount)
    requires forall j | k <= j < |free| :: b.eraseCount < free[j].eraseCount
    ensures FreeListOk(c, Insert(free, k, b))
  {
    InsertDistinct(free, k, b);
    InsertByWear(free, k, b);
    assert AllFresh(c, Insert(free, k, b)) by {
      assert forall x | x in Insert(free, k, b) :: x in free || x == b;
    }
  }

  lemma {:induction false} InsertKeeps(c: Config, used: set<nat>, free: seq<BlockState>, retired: set<nat>, k: nat,
      b: BlockState)
    requires FreeListOk(c, free) && Conserved(c, used, Ids(free), retired) && b.idx in used
    requires Fresh(b, c.pagesInBlock, c.ioUnitInPage)
    requires k <= |free| && (k > 0 ==> free[k - 1].eraseCount <= b.eraseCount)
    requires forall j | k <= j < |free| :: b.eraseCount < free[j].eraseCount
    ensures FreeListOk(c, Insert(free, k, b)) && Conserved(c, used - {b.idx}, Ids(Insert(free, k, b)), retired)
  {
    InsertIds(free, k, b);
    InsertOk(c, free, k, b);
  }

  lemma {:induction false} RetireKeeps(c: Config, used: set<nat>, ids: set<nat>, retired: set<nat>, b: nat)
    requires Conserved(c, used, ids, retired) && b in used
    ensures Conserved(c, used - {b}, ids, retired + {b})
  {
  }

  // As many blocks are free as are not in use and not retired.
  lemma {:induction false} FreeCount(c: Config, used: set<nat>, free: seq<BlockState>, retired: set<nat>)
    requires FreeListOk(c, free) && Conserved(c, used, Ids(free), retired)
    ensures |free| + |used| + |retired| == c.totalPhysicalBlocks
  {
    IdsCount(free);
    var all := AllIds(c.totalPhysicalBlocks);
    assert all == used + Ids(free) + retired by {
      forall b: nat ensures b in all <==> b in used + Ids(free) + retired { }
    }
  }

  lemma {:induction false} IdsCount(free: seq<BlockState>)
    requires DistinctIds(free)
    ensures |Ids(free)| == |free|
  {
    if |free| > 0 {
      var n := |free| - 1;
      IdsCount(free[..n]);
      assert free == free[..n] + [free[n]];
      assert Ids(free) == Ids(free[..n]) + {free[n].idx};
    }
  }

  function AllIds(n: nat): (s: set<nat>)
    ensures |s| == n && forall b: nat :: b in s <==> b < n
  {
    if n == 0 then {} else AllIds(n - 1) + {n - 1}
  }

  // The count after blocks were opened and others left use, some of them to be retired.
  lemma {:induction false} FreeAfter(c: Config, used: set<nat>, free: seq<BlockState>, retired: set<nat>,
      used': set<nat>, free': seq<BlockState>, retired': set<nat>, gone: set<nat>, worn: set<nat>)
    requires FreeListOk(c, free) && Conserved(c, used, Ids(free), retired)
    requires FreeListOk(c, free') && Conserved(c, used', Ids(free'), retired')
    requires gone <= used && gone !! used' && used - gone <= used' && worn <= gone && retired' == retired + worn
    ensures |free'| + |used' - used| + |worn| == |free| + |gone|
  {
    FreeCount(c, used, free, retired);
    FreeCount(c, used', free', retired');
    assert used' == (used - gone) + (used' - used);
    assert used == (used - gone) + gone;
  }

  // ---------- how full the open blocks are ----------

  function Sum(s: seq<nat>): nat {
    if |s| == 0 then 0 else Sum(s[..|s| - 1]) + s[|s| - 1]
  }

  lemma {:induction false} SumUpdate(s: seq<nat>, k: nat, x: nat)
    requires k < |s|
    ensures Sum(s[k := x]) + s[k] == Sum(s) + x
    ensures s[k] <= Sum(s)
  {
    var n := |s| - 1;
    if k == n {
      assert s[k := x][..n] == s[..n];
    } else {
      assert s[k := x][..n] == s[..n][k := x];
      SumUpdate(s[..n], k, x);
    }
  }

  lemma {:induction false} SumBound(s: seq<nat>, m: nat)
    requires forall i | 0 <= i < |s| :: s[i] <= m
    ensures Sum(s) <= |s| * m
  {
    if |s| > 0 {
      SumBound(s[..|s| - 1], m);
    }
  }

  ghost predicate OpenBlocks(blocks: map<nat, BlockState>, open: seq<nat>) {
    && (forall k | 0 <= k < |open| :: open[k] in blocks)
    && (forall j, k | 0 <= j < k < |open| :: open[j] != open[k])
  }

  ghost function Fills(blocks: map<nat, BlockState>, open: seq<nat>): seq<nat>
    requires forall k | 0 <= k < |open| :: open[k] in blocks
  {
    seq(|open|, k requires 0 <= k < |open| => MaxOf(blocks[open[k]].next))
  }

  ghost function FillSum(blocks: map<nat, BlockState>, open: seq<nat>): nat
    requires forall k | 0 <= k < |open| :: open[k] in blocks
  {
    Sum(Fills(blocks, open))
  }

  // Replacing a full open block by a fresh one takes a block's worth of pages off the sum.
  lemma {:induction false} FillOfReplacement(c: Config, blocks: map<nat, BlockState>, open: seq<nat>, k: nat,
      st: BlockState)
    requires OpenBlocks(blocks, open) && k < |open| && Full(blocks[open[k]], c.pagesInBlock)
    requires st.idx !in blocks && Fresh(st, c.pagesInBlock, c.ioUnitInPage)
    ensures OpenBlocks(blocks[st.idx := st], open[k := st.idx])
    ensures FillSum(blocks[st.idx := st], open[k := st.idx]) + c.pagesInBlock == FillSum(blocks, open)
  {
    FreshHasNothingValid(st, c.pagesInBlock, c.ioUnitInPage);
    assert Fills(blocks[st.idx := st], open[k := st.idx]) == Fills(blocks, open)[k := 0];
    SumUpdate(Fills(blocks, open), k, 0);
  }

  // Writing one page into one open block raises the sum by at most one.
  lemma {:induction false} FillOfWrite(blocks: map<nat, BlockState>, after: map<nat, BlockState>, open: seq<nat>,
      k: nat)
    requires OpenBlocks(blocks, open) && k < |open| && after.Keys == blocks.Keys
    requires forall j | 0 <= j < |open| && j != k :: after[open[j]].next == blocks[open[j]].next
    requires MaxOf(after[open[k]].next) <= MaxOf(blocks[open[k]].next) + 1
    ensures FillSum(after, open) <= FillSum(blocks, open) + 1
  {
    var x := MaxOf(after[open[k]].next);
    assert Fills(after, open) == Fills(blocks, open)[k := x];
    SumUpdate(Fills(blocks, open), k, x);
  }

  lemma {:induction false} FillAtMost(c: Config, blocks: map<nat, BlockState>, open: seq<nat>)
    requires OpenBlocks(blocks, open)
    requires forall b | b in blocks :: WellFormed(blocks[b], c.pagesInBlock, c.ioUnitInPage)
    ensures FillSum(blocks, open) <= |open| * c.pagesInBlock
    ensures forall k | 0 <= k < |open| :: MaxOf(blocks[open[k]].next) <= FillSum(blocks, open)
  {
    forall k | 0 <= k < |open| ensures Fills(blocks, open)[k] <= c.pagesInBlock {
      MaxBelow(blocks[open[k]].next, c.pagesInBlock);
    }
    SumBound(Fills(blocks, open), c.pagesInBlock);
    forall k | 0 <= k < |open| ensures MaxOf(blocks[open[k]].next) <= FillSum(blocks, open) {
      SumUpdate(Fills(blocks, open), k, 0);
    }
  }

  // Open position k afterwards: as before, or, if its block was full, a fresh free block.
  ghost predicate Opened(c: Config, blocks: map<nat, BlockState>, free: seq<BlockState>, open: seq<nat>, k: nat,
                         blocks': map<nat, BlockState>, free': seq<BlockState>, open': seq<nat>)
    requires k < |open| && c.Valid()
  {
    && open[k] in blocks
    && if Full(blocks[open[k]], c.pagesInBlock) then
         && |free| > 0
         && var t := TakenAt(free, c.pageCountToMaxPerf, k);
         && free[t].idx !in blocks && free[t].idx < c.totalPhysicalBlocks
           && Fresh(free[t], c.pagesInBlock, c.ioUnitInPage)
         && blocks' == blocks[free[t].idx := free[t]] && free' == Without(free, t) && open' == open[k := free[t].idx]
       else
         blocks' == blocks && free' == free && open' == open
  }

  // Opening keeps every entry and leaves a block with room.
  lemma {:induction false} OpenedKeeps(c: Config, s: Maps, free: seq<BlockState>, open: seq<nat>, k: nat,
                    blocks': map<nat, BlockState>, free': seq<BlockState>, open': seq<nat>, lpn: nat, pending: set<nat>)
    requires k < |open| && c.Valid() && MapsOkExcept(c, s, lpn, pending)
    requires FreeListOk(c, free)
    requires Opened(c, s.blocks, free, open, k, blocks', free', open')
    ensures MapsOkExcept(c, s.(blocks := blocks'), lpn, pending)
    ensures open'[k] in blocks' && !Full(blocks'[open'[k]], c.pagesInBlock)
  {
    if Full(s.blocks[open[k]], c.pagesInBlock) {
      var st := free[TakenAt(free, c.pageCountToMaxPerf, k)];
      assert st in free;
      AddBlockStep(c, s, st.idx, st, lpn, pending);
      FreshHasNothingValid(st, c.pagesInBlock, c.ioUnitInPage);
    }
  }

  // Distinct blocks in use stay so when one is opened afresh.
  lemma {:induction false} OpenedKeepsOpen(c: Config, blocks: map<nat, BlockState>, free: seq<BlockState>,
      open: seq<nat>, k: nat,
                        blocks': map<nat, BlockState>, free': seq<BlockState>, open': seq<nat>)
    requires k < |open| && c.Valid() && Opened(c, blocks, free, open, k, blocks', free', open')
    ensures OpenBlocks(blocks, open) ==> OpenBlocks(blocks', open')
  {
  }
}
