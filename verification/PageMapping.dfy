// The page-mapping FTL: writes, trims and reads through the mapping table, open blocks
// filled in turn, and garbage collection.
module PageMappings {
  import opened Arithmetic
  import opened Blocks
  import opened Collections
  import opened FreeLists
  import opened MappingTable
  import opened OpenCursors
  import opened Options
  import opened VictimSelection

  // The units a request selects: those flagged, or the whole page without the random tweak.
  predicate Selected(c: Config, flags: seq<bool>, i: nat)
    requires |flags| == c.ioUnitInPage
  {
    i < c.bitsetSize() && i < |flags| && (flags[i] || !c.bRandomTweak)
  }

  ghost function SelectedIn(c: Config, flags: seq<bool>, lo: nat, hi: nat): set<nat>
    requires |flags| == c.ioUnitInPage
  {
    set i: nat | lo <= i < hi && Selected(c, flags, i)
  }

  function NewBlock(c: Config, idx: nat): BlockState {
    BlockState(idx, Fill(c.pagesInBlock, c.ioUnitInPage, false), Fill(c.pagesInBlock, c.ioUnitInPage, true),
               Fill(c.pagesInBlock, c.ioUnitInPage, 0), seq(c.ioUnitInPage, _ => 0), 0)
  }

  function NewBlocks(c: Config): seq<BlockState> {
    seq(c.totalPhysicalBlocks, i requires 0 <= i => NewBlock(c, i))
  }

  lemma {:induction false} NewBlockFresh(c: Config, idx: nat)
    ensures Fresh(NewBlock(c, idx), c.pagesInBlock, c.ioUnitInPage)
  {
  }

  lemma {:induction false} NewBlocksOk(c: Config)
    ensures FreeListOk(c, NewBlocks(c)) && Conserved(c, {}, Ids(NewBlocks(c)), {})
  {
    var free := NewBlocks(c);
    forall b | b in free ensures b.idx < c.totalPhysicalBlocks && Fresh(b, c.pagesInBlock, c.ioUnitInPage) {
      var i :| 0 <= i < |free| && free[i] == b;
      NewBlockFresh(c, i);
    }
    forall b: nat ensures b in Ids(free) <==> b < c.totalPhysicalBlocks {
      if b < c.totalPhysicalBlocks {
        assert free[b] in free && free[b].idx == b;
      }
    }
  }

  lemma {:induction false} EmptyMapsOk(c: Config)
    ensures MapsOk(c, Maps(map[], map[], map[]))
  {
  }

  lemma {:induction false} OpenOneMore(bs: map<nat, BlockState>, cs: map<nat, BlockState>, open: seq<nat>, i: nat,
      b: nat)
    requires i < |open| && open[i] == b && OpenBlocks(bs, open[..i]) && b !in bs && cs.Keys == bs.Keys + {b}
    ensures OpenBlocks(cs, open[..i + 1])
  {
    forall k | 0 <= k < i ensures open[..i + 1][k] == open[..i][k] {
    }
  }

  // How many blocks a collection reclaims: a fixed number, or what is missing to a share of all blocks.
  datatype GcMode = Fixed(reclaim: nat) | Threshold(share: real)

  // What an operation finds: the maps, the number of free blocks, the open blocks and the one in turn, the
  // blocks worn out, and whether an open block filled up since the last collection.
  datatype Snapshot = Snapshot(maps: Maps, nFree: nat, open: seq<nat>, cursor: Cursor, retired: set<nat>,
    reclaimMore: bool)

  // Blocks came into use exactly when that was noted.
  ghost predicate Noted(more: bool, used: set<nat>, more': bool, used': set<nat>) {
    used <= used' && more' == (more || used != used')
  }

  lemma {:induction false} NotedSelf(more: bool, used: set<nat>)
    ensures Noted(more, used, more, used)
  {
  }

  lemma {:induction false} NotedChain(more: bool, used: set<nat>, more': bool, used': set<nat>, more'': bool,
      used'': set<nat>)
    requires Noted(more, used, more', used') && Noted(more', used', more'', used'')
    ensures Noted(more, used, more'', used'')
  {
  }

  lemma {:induction false} NotedOpened(c: Config, blocks: map<nat, BlockState>, free: seq<BlockState>, open: seq<nat>,
      k: nat, mid: map<nat, BlockState>, free': seq<BlockState>, open': seq<nat>, more: bool, more': bool)
    requires k < |open| && c.Valid() && Opened(c, blocks, free, open, k, mid, free', open')
    requires more' == (more || Full(blocks[open[k]], c.pagesInBlock))
    ensures Noted(more, blocks.Keys, more', mid.Keys)
  {
    if Full(blocks[open[k]], c.pagesInBlock) {
      assert free[TakenAt(free, c.pageCountToMaxPerf, k)].idx in mid.Keys;
    }
  }

  // No open block is full once one more page is written at position k.
  ghost predicate RoomAfter(c: Config, blocks: map<nat, BlockState>, open: seq<nat>, k: nat) {
    && OpenBlocks(blocks, open) && k < |open|
    && (forall j | 0 <= j < |open| && j != k :: !Full(blocks[open[j]], c.pagesInBlock))
    && (if Full(blocks[open[k]], c.pagesInBlock) then 1 else MaxOf(blocks[open[k]].next) + 1) < c.pagesInBlock
  }

  ghost predicate NoneFull(c: Config, blocks: map<nat, BlockState>, open: seq<nat>) {
    OpenBlocks(blocks, open) && forall k | 0 <= k < |open| :: !Full(blocks[open[k]], c.pagesInBlock)
  }

  // A write without a collection: the cursor moves on, the open block in turn is replaced by a free one if it
  // is full, and it takes at most one page more.
  ghost predicate StoredStep(c: Config, s: Snapshot, flags: seq<bool>, t: Snapshot)
    requires |flags| == |s.cursor.iomap|
  {
    var cur := Next(c, s.cursor, flags);
    var k := cur.index;
    && t.cursor == cur && t.retired == s.retired && k < |s.open| == |t.open| && s.open[k] in s.maps.blocks
    && t.reclaimMore == (s.reclaimMore || Full(s.maps.blocks[s.open[k]], c.pagesInBlock))
    && (forall j | 0 <= j < |s.open| && j != k :: t.open[j] == s.open[j])
    && (OpenBlocks(s.maps.blocks, s.open) ==> OpenBlocks(t.maps.blocks, t.open))
    && (forall b | b in s.maps.blocks && b != t.open[k] ::
          b in t.maps.blocks && t.maps.blocks[b].next == s.maps.blocks[b].next)
    && t.open[k] in t.maps.blocks
    && var fill := MaxOf(t.maps.blocks[t.open[k]].next);
       if Full(s.maps.blocks[s.open[k]], c.pagesInBlock) then
         t.nFree + 1 == s.nFree && t.open[k] !in s.maps.blocks && fill <= 1
       else
         t.nFree == s.nFree && t.open[k] == s.open[k] && fill <= MaxOf(s.maps.blocks[s.open[k]].next) + 1
  }

  lemma {:induction false} StoredFacts(c: Config, s: Snapshot, flags: seq<bool>, cs: map<nat, BlockState>,
      free: seq<BlockState>, mid: map<nat, BlockState>, free': seq<BlockState>, t: Snapshot)
    requires c.Valid() && |flags| == |s.cursor.iomap| && t.cursor == Next(c, s.cursor, flags)
    requires t.cursor.index < |s.open| && t.retired == s.retired && |free| == s.nFree && |free'| == t.nFree
    requires SameWriting(s.maps.blocks, cs) && t.cursor.index < |s.open| && s.open[t.cursor.index] in cs
    requires t.reclaimMore == (s.reclaimMore || Full(cs[s.open[t.cursor.index]], c.pagesInBlock))
    requires Opened(c, cs, free, s.open, t.cursor.index, mid, free', t.open)
    requires t.cursor.index < |t.open| && OnePageWritten(mid, t.maps.blocks, t.open[t.cursor.index])
    ensures StoredStep(c, s, flags, t)
  {
    hide Full, Fresh, Next;
    var k := t.cursor.index;
    OpenedKeepsOpen(c, cs, free, s.open, k, mid, free', t.open);
    if Full(cs[s.open[k]], c.pagesInBlock) {
      var b := free[TakenAt(free, c.pageCountToMaxPerf, k)];
      FreshHasNothingValid(b, c.pagesInBlock, c.ioUnitInPage);
      assert t.open[k] == b.idx && |free'| + 1 == |free|;
    }
    SameFullness(s.maps.blocks[s.open[k]], cs[s.open[k]], c.pagesInBlock);
    OpenByKeys(s.maps.blocks, cs, s.open);
    OpenByKeys(mid, t.maps.blocks, t.open);
  }

  lemma {:induction false} SameFullness(b: BlockState, b': BlockState, n: nat)
    requires b.next == b'.next
    ensures Full(b, n) <==> Full(b', n)
  {
  }

  lemma {:induction false} OpenedTakesOne(c: Config, blocks: map<nat, BlockState>, free: seq<BlockState>,
      open: seq<nat>, k: nat, blocks': map<nat, BlockState>, free': seq<BlockState>, open': seq<nat>)
    requires k < |open| && c.Valid() && Opened(c, blocks, free, open, k, blocks', free', open')
    ensures |free| - 1 <= |free'| && blocks.Keys <= blocks'.Keys && |open'| == |open|
  {
  }

  // With room for one more page no open block is full after a write.
  lemma {:induction false} RoomStays(c: Config, s: Snapshot, flags: seq<bool>, t: Snapshot)
    requires |flags| == |s.cursor.iomap| && StoredStep(c, s, flags, t)
    requires RoomAfter(c, s.maps.blocks, s.open, Next(c, s.cursor, flags).index)
    ensures NoneFull(c, t.maps.blocks, t.open)
  {
  }

  // Every unit of the page is mapped, or it is not in the table.
  ghost predicate TrimReady(c: Config, s: Maps, lpn: nat) {
    lpn in s.table ==> forall i | 0 <= i < c.bitsetSize() && i < |s.table[lpn]| :: Mapped(c, s.table[lpn][i])
  }

  // That is, every unit reads as written.
  lemma {:induction false} TrimReadyByReads(c: Config, s: Maps, lpn: nat)
    requires MapsOk(c, s)
    ensures TrimReady(c, s, lpn) <==>
      lpn !in s.table || forall i: nat | i < c.bitsetSize() :: Look(c, s, lpn, i) != None
  {
    if lpn in s.table {
      forall i: nat | i < c.bitsetSize() ensures Mapped(c, s.table[lpn][i]) <==> Look(c, s, lpn, i) != None {
        if Mapped(c, s.table[lpn][i]) {
          assert Holds(c, s, s.table[lpn][i].block, s.table[lpn][i].page, i, lpn);
        }
      }
    }
  }

  lemma {:induction false} LightestIs(c: Config, blocks: map<nat, BlockState>, list: seq<nat>, n: nat)
    requires Lightest(c, blocks, list, n)
    ensures Victims(c, blocks, list) && |list| <= n
  {
  }

  // A collection with no full block open keeps the open blocks in use.
  lemma {:induction false} NoOpenVictims(c: Config, blocks: map<nat, BlockState>, open: seq<nat>, victims: seq<nat>,
      cur: Cursor)
    requires NoneFull(c, blocks, open) && Victims(c, blocks, victims)
    requires VictimsShaped(c, blocks, victims) && |cur.iomap| == c.ioUnitInPage
    ensures OpenVictimsVisited(c, blocks, open, victims, cur)
  {
    forall k | 0 <= k < |open| ensures open[k] !in victims { }
  }

  class PageMapping {
    const c: Config
    const badBlockThreshold: nat
    const gcThresholdRatio: real
    const gcMode: GcMode

    var table: map<nat, seq<Location>>
    var blocks: map<nat, BlockState>
    var freeBlocks: seq<BlockState>
    var nFreeBlocks: nat
    var lastFreeBlock: seq<nat>
    var lastFreeBlockIOMap: seq<bool>
    var lastFreeBlockIndex: nat
    var bReclaimMore: bool
    var validPageCopies: nat
    // What the physical units hold, and the blocks worn out.
    ghost var flash: map<Physical, nat>
    ghost var retired: set<nat>

    ghost function State(): Maps
      reads this
    {
      Maps(table, blocks, flash)
    }

    function Cur(): Cursor
      reads this
    {
      Cursor(lastFreeBlockIndex, lastFreeBlockIOMap)
    }

    ghost function Snap(): Snapshot
      reads this
    {
      Snapshot(State(), nFreeBlocks, lastFreeBlock, Cur(), retired, bReclaimMore)
    }

    // Block conservation and wear order.
    ghost predicate Accounted()
      reads this
    {
      && FreeListOk(c, freeBlocks)
      && Conserved(c, blocks.Keys, Ids(freeBlocks), retired)
      && nFreeBlocks == |freeBlocks|
    }

    ghost predicate Cursors()
      reads this
    {
      && c.Valid() && 2 <= c.ioUnitInPage
      && |lastFreeBlock| == c.pageCountToMaxPerf
      && lastFreeBlockIndex < c.pageCountToMaxPerf
      && |lastFreeBlockIOMap| == c.ioUnitInPage
    }

    // Everything is in order but the entries (lpn, pending), which are being rewritten.
    ghost predicate ValidExcept(lpn: nat, pending: set<nat>)
      reads this
    {
      Cursors() && Accounted() && MapsOkExcept(c, State(), lpn, pending)
    }

    ghost predicate Valid()
      reads this
    {
      ValidExcept(0, {})
    }

    // All blocks start free; then one is opened per position.
    constructor (config: Config, badBlocks: nat, gcRatio: real, mode: GcMode)
      requires config.Valid() && 2 <= config.ioUnitInPage && config.pageCountToMaxPerf <= config.totalPhysicalBlocks
      ensures c == config && Valid() && OpenBlocks(blocks, lastFreeBlock)
      ensures nFreeBlocks == c.totalPhysicalBlocks - c.pageCountToMaxPerf && retired == {}
      ensures forall l: nat, i: nat :: Look(c, State(), l, i) == None
    {
      c, badBlockThreshold, gcThresholdRatio, gcMode := config, badBlocks, gcRatio, mode;
      table, blocks, flash, retired := map[], map[], map[], {};
      freeBlocks := NewBlocks(config);
      nFreeBlocks := config.totalPhysicalBlocks;
      lastFreeBlock := seq(config.pageCountToMaxPerf, _ => 0);
      lastFreeBlockIOMap := seq(config.ioUnitInPage, _ => false);
      lastFreeBlockIndex, bReclaimMore, validPageCopies := 0, false, 0;
      new;
      hide FreeListOk, Conserved, Fresh, MapsOkExcept;
      NewBlocksOk(c);
      EmptyMapsOk(c);
      OpenInitial();
    }

    // The first open blocks, one of each class.
    method OpenInitial()
      requires Valid() && table == map[] && blocks == map[] && lastFreeBlockIndex == 0 && retired == {}
      requires nFreeBlocks == c.totalPhysicalBlocks && c.pageCountToMaxPerf <= c.totalPhysicalBlocks
      modifies `blocks, `freeBlocks, `nFreeBlocks, `lastFreeBlock
      ensures Valid() && OpenBlocks(blocks, lastFreeBlock)
      ensures nFreeBlocks == c.totalPhysicalBlocks - c.pageCountToMaxPerf
    {
      hide FreeListOk, Conserved, Fresh, MapsOkExcept;
      var i := 0;
      while i < c.pageCountToMaxPerf
        invariant i <= c.pageCountToMaxPerf && Valid() && table == map[] && lastFreeBlockIndex == 0
        invariant nFreeBlocks == c.totalPhysicalBlocks - i && retired == {}
        invariant OpenBlocks(blocks, lastFreeBlock[..i])
      {
        ghost var s, free := State(), freeBlocks;
        var ok, b := GetFreeBlock(i);
        ghost var k := TakenAt(free, c.pageCountToMaxPerf, i);
        FreeElement(c, free, k);
        AddBlockStep(c, s, b, free[k], 0, {});
        lastFreeBlock := lastFreeBlock[i := b];
        OpenOneMore(s.blocks, blocks, lastFreeBlock, i, b);
        i := i + 1;
      }
      assert lastFreeBlock[..i] == lastFreeBlock;
    }

    // getFreeBlock: panics when idx is no class or no block is free.
    method GetFreeBlock(idx: nat) returns (ok: bool, blockIndex: nat)
      requires c.Valid() && Accounted()
      modifies this`blocks, this`freeBlocks, this`nFreeBlocks
      ensures ok == (idx < c.pageCountToMaxPerf && old(nFreeBlocks) > 0)
      ensures !ok ==> blocks == old(blocks) && freeBlocks == old(freeBlocks) && nFreeBlocks == old(nFreeBlocks)
      ensures ok ==>
        var k := TakenAt(old(freeBlocks), c.pageCountToMaxPerf, idx);
        && blockIndex == old(freeBlocks)[k].idx && blockIndex !in old(blocks)
        && blocks == old(blocks)[blockIndex := old(freeBlocks)[k]]
        && freeBlocks == Without(old(freeBlocks), k) && nFreeBlocks == old(nFreeBlocks) - 1
      ensures Accounted()
    {
      blockIndex := 0;
      if idx >= c.pageCountToMaxPerf || nFreeBlocks == 0 {
        return false, 0;
      }
      var k := 0;
      while k < |freeBlocks| && freeBlocks[k].idx % c.pageCountToMaxPerf != idx
        invariant k <= |freeBlocks|
        invariant forall j | 0 <= j < k :: freeBlocks[j].idx % c.pageCountToMaxPerf != idx
      {
        k := k + 1;
      }
      if k == |freeBlocks| {
        k := 0;
      }
      assert k == TakenAt(freeBlocks, c.pageCountToMaxPerf, idx);
      blockIndex := freeBlocks[k].idx;
      TakeKeeps(c, blocks.Keys, freeBlocks, retired, k);
      assert (blocks[blockIndex := freeBlocks[k]]).Keys == blocks.Keys + {blockIndex};
      blocks := blocks[blockIndex := freeBlocks[k]];
      freeBlocks := Without(freeBlocks, k);
      nFreeBlocks := nFreeBlocks - 1;
      return true, blockIndex;
    }

    // getLastFreeBlock: panics when the open block is not in use, or is full and none is free.
    method GetLastFreeBlock(iomap: seq<bool>) returns (ok: bool, blockIndex: nat)
      requires Cursors() && Accounted() && |iomap| == c.ioUnitInPage
      modifies this`blocks, this`freeBlocks, this`nFreeBlocks
      modifies this`lastFreeBlock, this`lastFreeBlockIOMap, this`lastFreeBlockIndex, this`bReclaimMore
      ensures Cursors() && Accounted()
      ensures Cur() == Next(c, old(Cur()), iomap)
      ensures ok == (&& old(lastFreeBlock)[lastFreeBlockIndex] in old(blocks)
                     && (Full(old(blocks)[old(lastFreeBlock)[lastFreeBlockIndex]], c.pagesInBlock) ==>
                       old(nFreeBlocks) > 0))
      ensures ok ==> blockIndex == lastFreeBlock[lastFreeBlockIndex]
      ensures ok ==> Opened(c, old(blocks), old(freeBlocks), old(lastFreeBlock), lastFreeBlockIndex,
                            blocks, freeBlocks, lastFreeBlock)
      ensures ok ==>
        var wasFull := Full(old(blocks)[old(lastFreeBlock)[lastFreeBlockIndex]], c.pagesInBlock);
        bReclaimMore == (old(bReclaimMore) || wasFull)
    {
      hide FreeListOk;
      hide Conserved;
      hide Fresh;
      if Advances(c, Cur(), iomap) {
        lastFreeBlockIndex := lastFreeBlockIndex + 1;
        if lastFreeBlockIndex == c.pageCountToMaxPerf {
          lastFreeBlockIndex := 0;
        }
        lastFreeBlockIOMap := iomap;
      } else {
        lastFreeBlockIOMap := Union(lastFreeBlockIOMap, iomap);
      }
      blockIndex := lastFreeBlock[lastFreeBlockIndex];
      if blockIndex !in blocks {
        return false, 0;
      }
      if MaxOf(blocks[blockIndex].next) == c.pagesInBlock {
        ok, blockIndex := GetFreeBlock(lastFreeBlockIndex);
        if !ok {
          return;
        }
        FreeElement(c, old(freeBlocks), TakenAt(old(freeBlocks), c.pageCountToMaxPerf, lastFreeBlockIndex));
        lastFreeBlock := lastFreeBlock[lastFreeBlockIndex := blockIndex];
        bReclaimMore := true;
      }
      return true, blockIndex;
    }

    // Invalidates the old location of unit i, if it has one.
    method InvalidateEntry(lpn: nat, ghost pending: set<nat>, i: nat)
      requires ValidExcept(lpn, pending) && lpn in table && i < c.bitsetSize() && i !in pending
      modifies this`blocks
      ensures ValidExcept(lpn, pending + {i}) && SameWriting(old(blocks), blocks)
    {
      var mapping := table[lpn][i];
      if mapping.block < c.totalPhysicalBlocks && mapping.page < c.pagesInBlock {
        InvalidateStep(c, State(), lpn, pending, i);
        blocks := blocks[mapping.block := Invalidated(blocks[mapping.block], mapping.page, i)];
        assert blocks.Keys == old(blocks).Keys;
      } else {
        UnmappedStep(c, State(), lpn, pending, i);
      }
    }

    // The first half of writeInternal: the page's selected units lose their old locations, or
    // the page enters the table with none.
    method InvalidateOld(lpn: nat, flags: seq<bool>)
      requires Valid() && |flags| == c.ioUnitInPage
      modifies this`table, this`blocks
      ensures ValidExcept(lpn, SelectedIn(c, flags, 0, c.bitsetSize()))
      ensures SameView(c, old(State()), State())
      ensures lpn in table && SameWriting(old(blocks), blocks)
    {
      if lpn in table {
        var i := 0;
        while i < c.bitsetSize()
          invariant i <= c.bitsetSize() && Cursors() && Accounted()
          invariant MapsOkExcept(c, State(), lpn, SelectedIn(c, flags, 0, i))
          invariant table == old(table) && SameWriting(old(blocks), blocks)
        {
          SelectedNext(c, flags, 0, i);
          if flags[i] || !c.bRandomTweak {
            InvalidateEntry(lpn, SelectedIn(c, flags, 0, i), i);
          }
          i := i + 1;
        }
      } else {
        CreateStep(c, State(), lpn);
        table := table[lpn := seq(c.bitsetSize(), _ => Nowhere(c))];
        NewPagePending(c, State(), lpn, SelectedIn(c, flags, 0, c.bitsetSize()));
      }
    }

    // Unit i of the page goes to block d, at its write pointer.
    method PutUnit(lpn: nat, d: nat, i: nat, ghost data: nat)
      requires BlocksWellFormed(c, State())
      requires lpn in table && i < |table[lpn]| && i < c.ioUnitInPage
      requires d in blocks && blocks[d].next[i] < c.pagesInBlock
      modifies this`table, this`blocks, this`flash
      ensures State() == WriteAt(old(State()), d, lpn, i, data)
    {
      var pageIndex := blocks[d].next[i];
      blocks := blocks[d := Written(blocks[d], pageIndex, lpn, i)];
      table := table[lpn := table[lpn][i := Location(d, pageIndex)]];
      flash := flash[Physical(d, pageIndex, i) := data];
    }

    // The second half of writeInternal: the selected units are written to the open block.
    method PutUnits(lpn: nat, flags: seq<bool>, d: nat, ghost data: seq<nat>)
      requires |flags| == c.ioUnitInPage && |data| == c.ioUnitInPage
      requires c.Valid() && MapsOkExcept(c, State(), lpn, SelectedIn(c, flags, 0, c.bitsetSize())) && lpn in table
      requires d in blocks && !Full(blocks[d], c.pagesInBlock)
      modifies this`table, this`blocks, this`flash
      ensures MapsOk(c, State())
      ensures Updated(c, old(State()), State(), lpn, flags, data, c.bitsetSize())
      ensures OnePageWritten(old(blocks), blocks, d)
    {
      hide Writing;
      var i := 0;
      WritingStarts(c, State(), lpn, flags, d, data);
      while i < c.bitsetSize()
        invariant i <= c.bitsetSize()
        invariant Writing(c, old(State()), State(), lpn, flags, d, i, data)
      {
        WritingNext(c, old(State()), State(), lpn, flags, d, i, data);
        if flags[i] || !c.bRandomTweak {
          PutUnit(lpn, d, i, data[i]);
        }
        i := i + 1;
      }
      WritingEnds(c, old(State()), State(), lpn, flags, d, data);
    }

    // writeInternal up to garbage collection. Panics exactly when the open block in turn is not in
    // use, or is full with no block free.
    method StoreUnits(lpn: nat, flags: seq<bool>, ghost data: seq<nat>) returns (ok: bool)
      requires Valid() && |flags| == c.ioUnitInPage && |data| == c.ioUnitInPage
      modifies this`table, this`blocks, this`flash, this`freeBlocks, this`nFreeBlocks
      modifies this`lastFreeBlock, this`lastFreeBlockIOMap, this`lastFreeBlockIndex, this`bReclaimMore
      ensures ok == old(CanOpen(flags))
      ensures ok ==> Valid() && Updated(c, old(State()), State(), lpn, flags, data, c.bitsetSize())
      ensures ok ==> StoredStep(c, old(Snap()), flags, Snap())
    {
      hide MapsOkExcept, FreeListOk, Conserved, SameView, Updated, OpenBlocks, Fresh, Next, Opened, StoredStep;
      ghost var before := Snap();
      InvalidateOld(lpn, flags);
      ghost var s := State();
      ghost var pending := SelectedIn(c, flags, 0, c.bitsetSize());
      ghost var free, open := freeBlocks, lastFreeBlock;
      var d;
      ok, d := GetLastFreeBlock(flags);
      if ok {
        OpenedKeeps(c, s, free, open, lastFreeBlockIndex, blocks, freeBlocks, lastFreeBlock, lpn, pending);
        OpenedTakesOne(c, s.blocks, free, open, lastFreeBlockIndex, blocks, freeBlocks, lastFreeBlock);
        ghost var t, freeT := State(), freeBlocks;
        ViewIgnoresBlocks(c, old(State()), s, blocks);
        PutUnits(lpn, flags, d, data);
        UpdatedSince(c, old(State()), t, State(), lpn, flags, data, c.bitsetSize());
        StoredFacts(c, before, flags, s.blocks, free, t.blocks, freeT, Snap());
      }
    }

    // The open block a request with these units goes to can take it.
    ghost predicate CanOpen(flags: seq<bool>)
      requires Cursors() && |flags| == c.ioUnitInPage
      reads this
    {
      var k := Next(c, Cur(), flags).index;
      lastFreeBlock[k] in blocks && (Full(blocks[lastFreeBlock[k]], c.pagesInBlock) ==> nFreeBlocks > 0)
    }

    // One unit of a victim's page goes to block d: invalidated there, found in the table, written here.
    method MoveUnit(v: nat, p: nat, i: nat, d: nat, lpn: nat)
      requires c.Valid() && MapsOk(c, State()) && v in blocks && d in blocks && v != d
      requires p < c.pagesInBlock && i < c.ioUnitInPage && blocks[v].valid[p][i] && blocks[d].next[i] < c.pagesInBlock
      requires lpn == blocks[v].lpns[p][i] && lpn in table && i < |table[lpn]|
      modifies this`table, this`blocks, this`flash, this`validPageCopies
      ensures State() == MoveAt(c, old(State()), v, p, i, d)
      ensures validPageCopies == old(validPageCopies) + 1
    {
      assert Holds(c, State(), v, p, i, lpn);
      ghost var data := flash[Physical(v, p, i)];
      hide MapsOkExcept;
      blocks := blocks[v := Invalidated(blocks[v], p, i)];
      var newPageIdx := blocks[d].next[i];
      table := table[lpn := table[lpn][i := Location(d, newPageIdx)]];
      blocks := blocks[d := Written(blocks[d], newPageIdx, lpn, i)];
      flash := flash[Physical(d, newPageIdx, i) := data];
      validPageCopies := validPageCopies + 1;
    }

    method MoveNext(ghost s: Maps, v: nat, p: nat, i: nat, d: nat, lpn: nat, ghost moved: nat)
      requires c.Valid() && MapsOk(c, s) && Moving(c, s, State(), v, p, d, i, moved) && Kept(c, s, State())
      requires i < c.bitsetSize() && p < c.pagesInBlock && !Full(s.blocks[d], c.pagesInBlock)
      requires s.blocks[v].valid[p][i] && lpn == s.blocks[v].lpns[p][i]
      modifies this`table, this`blocks, this`flash, this`validPageCopies
      ensures Moving(c, s, State(), v, p, d, i + 1, moved + 1) && Kept(c, s, State())
      ensures validPageCopies == old(validPageCopies) + 1
    {
      hide Moving, Kept, MapsOkExcept, Full;
      MovingNext(c, s, State(), v, p, d, i, moved);
      KeptIsOk(c, s, State());
      MoveUnit(v, p, i, d, lpn);
    }

    // The units of one page, in order of position.
    method MoveUnits(v: nat, p: nat, d: nat, bit: seq<bool>, lpns: seq<nat>)
      requires c.Valid() && MapsOk(c, State()) && v in blocks && d in blocks && v != d && p < c.pagesInBlock
      requires !Full(blocks[d], c.pagesInBlock) && |bit| == c.ioUnitInPage
      requires forall i | 0 <= i < c.bitsetSize() :: bit[i] == blocks[v].valid[p][i]
      requires lpns == blocks[v].lpns[p]
      modifies this`table, this`blocks, this`flash, this`validPageCopies
      ensures Kept(c, old(State()), State()) && validPageCopies >= old(validPageCopies)
      ensures Moving(c, old(State()), State(), v, p, d, c.bitsetSize(), validPageCopies - old(validPageCopies))
    {
      hide Moving, Kept, MapsOkExcept, Full;
      ghost var s := State();
      MovingStarts(c, s, v, p, d);
      var i := 0;
      while i < c.bitsetSize()
        invariant i <= c.bitsetSize() && validPageCopies >= old(validPageCopies)
        invariant Moving(c, s, State(), v, p, d, i, validPageCopies - old(validPageCopies))
        invariant Kept(c, s, State())
      {
        if bit[i] {
          MoveNext(s, v, p, i, d, lpns[i], validPageCopies - old(validPageCopies));
        } else {
          MovingSkips(c, s, State(), v, p, d, i, validPageCopies - old(validPageCopies));
        }
        i := i + 1;
      }
    }

    // getPageInfo: the valid bits and owners of one page.
    method GetPageInfo(v: nat, p: nat) returns (any: bool, bit: seq<bool>, lpns: seq<nat>)
      requires MapsOk(c, State()) && 2 <= c.ioUnitInPage && v in blocks && p < c.pagesInBlock
      ensures bit == blocks[v].valid[p] && lpns == blocks[v].lpns[p]
      ensures |bit| == c.ioUnitInPage && any == exists i :: 0 <= i < |bit| && bit[i]
    {
      bit := PageMap(blocks[v], p, c.ioUnitInPage);
      lpns := blocks[v].lpns[p];
      any := exists i :: 0 <= i < |bit| && bit[i];
    }

    // A page with valid units: the open block in turn takes them.
    method MovePage(v: nat, p: nat, bit: seq<bool>, iomap: seq<bool>, lpns: seq<nat>) returns (ok: bool,
        ghost mid: map<nat, BlockState>)
      requires Valid() && v in blocks && Full(blocks[v], c.pagesInBlock) && p < c.pagesInBlock
      requires bit == blocks[v].valid[p] && lpns == blocks[v].lpns[p] && |bit| == c.ioUnitInPage
        && |iomap| == c.ioUnitInPage
      requires exists i :: 0 <= i < |bit| && bit[i]
      modifies this`table, this`blocks, this`flash, this`validPageCopies, this`freeBlocks, this`nFreeBlocks
      modifies this`lastFreeBlock, this`lastFreeBlockIOMap, this`lastFreeBlockIndex, this`bReclaimMore
      ensures ok == old(CanOpen(iomap))
      ensures ok ==> Valid() && SameView(c, old(State()), State())
      ensures ok ==> validPageCopies >= old(validPageCopies)
      ensures ok ==> PageCollected(c, old(blocks), blocks, v, p, validPageCopies - old(validPageCopies))
      ensures ok ==> PageWritten(c, old(blocks), old(freeBlocks), old(lastFreeBlock), lastFreeBlockIndex,
                                 mid, freeBlocks, lastFreeBlock, blocks)
      ensures ok ==> Cur() == Next(c, old(Cur()), iomap)
      ensures ok ==> Noted(old(bReclaimMore), old(blocks.Keys), bReclaimMore, blocks.Keys)
    {
      hide MapsOkExcept, FreeListOk, Conserved, Fresh, SameView, OpenBlocks, PageCollected, Moving, Opened, Full, Next,
        Noted, PageWritten;
      ghost var more := bReclaimMore;
      ghost var s := State();
      ghost var free, open := freeBlocks, lastFreeBlock;
      ghost var copies := validPageCopies;
      ghost var i :| 0 <= i < |bit| && bit[i];
      var d;
      ok, d := GetLastFreeBlock(iomap);
      mid := blocks;
      if ok {
        OpenedKeeps(c, s, free, open, lastFreeBlockIndex, blocks, freeBlocks, lastFreeBlock, 0, {});
        OpenedSame(c, s.blocks, free, open, lastFreeBlockIndex, blocks, freeBlocks, lastFreeBlock);
        NotedOpened(c, s.blocks, free, open, lastFreeBlockIndex, blocks, freeBlocks, lastFreeBlock, more, bReclaimMore);
        ghost var t := State();
        MoveUnits(v, p, d, bit, lpns);
        PageDone(c, s, t, State(), v, p, validPageCopies - copies, i, free, open, lastFreeBlockIndex, freeBlocks,
          lastFreeBlock);
        assert Accounted();
      }
    }

    // One page of a victim: its valid units go to the open block in turn.
    method CollectPage(v: nat, p: nat, ghost F: nat, ghost n: nat, ghost calls: nat) returns (ok: bool)
      requires Valid() && v in blocks && Full(blocks[v], c.pagesInBlock) && p < c.pagesInBlock
      modifies this`table, this`blocks, this`flash, this`validPageCopies, this`freeBlocks, this`nFreeBlocks
      modifies this`lastFreeBlock, this`lastFreeBlockIOMap, this`lastFreeBlockIndex, this`bReclaimMore
      ensures ok ==> Valid() && SameView(c, old(State()), State())
      ensures ok ==> validPageCopies >= old(validPageCopies)
      ensures ok ==> PageCollected(c, old(blocks), blocks, v, p, validPageCopies - old(validPageCopies))
      ensures ok ==> PageTurned(c, old(blocks)[v], p, old(blocks), old(lastFreeBlock), old(Cur()), blocks,
        lastFreeBlock, Cur())
      ensures ok ==> Noted(old(bReclaimMore), old(blocks.Keys), bReclaimMore, blocks.Keys)
      ensures old(Funded(c, blocks, lastFreeBlock, nFreeBlocks, F, n, calls)) && calls < n * c.pagesInBlock ==>
        ok && Funded(c, blocks, lastFreeBlock, nFreeBlocks, F, n, calls + 1)
    {
      hide MapsOkExcept, FreeListOk, Conserved, Fresh, SameView, Funded, OpenBlocks, PageCollected, PageWritten,
        PageTurned, Next, Noted;
      ghost var s := State();
      NotedSelf(bReclaimMore, blocks.Keys);
      var any, bit, lpns := GetPageInfo(v, p);
      if !any {
        EmptyPageCollected(c, s, v, p);
        SameViewSelf(c, s);
        PagePassed(c, blocks[v], p, blocks, lastFreeBlock, Cur());
        if Funded(c, blocks, lastFreeBlock, nFreeBlocks, F, n, calls) {
          FundedIdle(c, blocks, lastFreeBlock, nFreeBlocks, F, n, calls);
        }
        return true;
      }
      var iomap := Asked(c, bit);
      ghost var free, open := freeBlocks, lastFreeBlock;
      ghost var cur, k := Cur(), Next(c, Cur(), iomap).index;
      ghost var funded := Funded(c, blocks, open, nFreeBlocks, F, n, calls) && calls < n * c.pagesInBlock;
      if funded {
        FundedOpens(c, s, open, |free|, F, n, calls, k);
      }
      ghost var mid;
      ok, mid := MovePage(v, p, bit, iomap, lpns);
      if ok {
        PageWrittenTurns(c, s.blocks, free, open, cur, v, p, mid, freeBlocks, lastFreeBlock, blocks, Cur(),
          validPageCopies - old(validPageCopies));
        if funded {
          PageWrittenFunds(c, s.blocks, free, open, lastFreeBlockIndex, mid, freeBlocks, lastFreeBlock, blocks, F, n,
            calls);
        }
      }
    }

    // All pages of one victim.
    method CollectBlock(v: nat, ghost F: nat, ghost n: nat, ghost calls: nat) returns (ok: bool)
      requires Valid() && v in blocks && Full(blocks[v], c.pagesInBlock)
      modifies this`table, this`blocks, this`flash, this`validPageCopies, this`freeBlocks, this`nFreeBlocks
      modifies this`lastFreeBlock, this`lastFreeBlockIOMap, this`lastFreeBlockIndex, this`bReclaimMore
      ensures ok ==> Valid() && SameView(c, old(State()), State())
      ensures ok ==> validPageCopies >= old(validPageCopies)
      ensures ok ==> BlockCollected(c, old(blocks), blocks, v, validPageCopies - old(validPageCopies))
      ensures ok ==> PagesTurned(c, old(blocks)[v], c.pagesInBlock, old(blocks), old(lastFreeBlock), old(Cur()), blocks,
                                 lastFreeBlock, Cur())
      ensures ok ==> Noted(old(bReclaimMore), old(blocks.Keys), bReclaimMore, blocks.Keys)
      ensures
        old(Funded(c, blocks, lastFreeBlock, nFreeBlocks, F, n, calls)) &&
        calls + c.pagesInBlock <= n * c.pagesInBlock ==>
        ok && Funded(c, blocks, lastFreeBlock, nFreeBlocks, F, n, calls + c.pagesInBlock)
    {
      hide MapsOkExcept, FreeListOk, Conserved, SameView, Funded, CollectedUpTo, PageCollected, BlockCollected,
        PageTurned, PagesTurned, Full, Noted;
      ghost var more := bReclaimMore;
      NotedSelf(more, blocks.Keys);
      ghost var s, open, cur := State(), lastFreeBlock, Cur();
      ghost var funded := Funded(c, blocks, open, nFreeBlocks, F, n, calls)
        && calls + c.pagesInBlock <= n * c.pagesInBlock;
      CollectedStarts(c, blocks, v);
      SameViewSelf(c, s);
      BlockShape(c, s, v);
      PagesTurnStart(c, blocks[v], blocks, open, cur);
      var p := 0;
      while p < c.pagesInBlock
        invariant p <= c.pagesInBlock && Valid() && SameView(c, s, State())
        invariant validPageCopies >= old(validPageCopies)
        invariant CollectedUpTo(c, s.blocks, blocks, v, p, validPageCopies - old(validPageCopies))
        invariant PagesTurned(c, s.blocks[v], p, s.blocks, open, cur, blocks, lastFreeBlock, Cur())
        invariant Noted(more, s.blocks.Keys, bReclaimMore, blocks.Keys)
        invariant funded ==> Funded(c, blocks, lastFreeBlock, nFreeBlocks, F, n, calls + p)
      {
        ghost var t, wasOpen, copies, turned, noted := State(), lastFreeBlock, validPageCopies, Cur(), bReclaimMore;
        CollectedStillFull(c, s.blocks, blocks, v, p, validPageCopies - old(validPageCopies));
        RowAhead(c, s.blocks, blocks, v, p, validPageCopies - old(validPageCopies));
        ok := CollectPage(v, p, F, n, calls + p);
        if !ok {
          return;
        }
        CollectedNext(c, s.blocks, t.blocks, blocks, v, p, copies - old(validPageCopies), validPageCopies - copies);
        ViewsChain(c, s, t, State());
        NotedChain(more, s.blocks.Keys, noted, t.blocks.Keys, bReclaimMore, blocks.Keys);
        PagesTurnNext(c, s.blocks[v], p, s.blocks, open, cur, t.blocks, wasOpen, turned, t.blocks[v], blocks,
          lastFreeBlock, Cur());
        p := p + 1;
      }
      CollectedEnds(c, s.blocks, blocks, v, validPageCopies - old(validPageCopies));
      ok := true;
    }

    // The copying half of doGarbageCollection.
    method CollectAll(victims: seq<nat>, ghost F: nat) returns (ok: bool)
      requires Valid() && Victims(c, blocks, victims)
      modifies this`table, this`blocks, this`flash, this`validPageCopies, this`freeBlocks, this`nFreeBlocks
      modifies this`lastFreeBlock, this`lastFreeBlockIOMap, this`lastFreeBlockIndex, this`bReclaimMore
      ensures ok ==> Valid() && SameView(c, old(State()), State())
      ensures ok ==> validPageCopies >= old(validPageCopies)
      ensures ok ==> EmptiedUpTo(c, old(blocks), blocks, victims, |victims|, validPageCopies - old(validPageCopies))
      ensures ok ==> VictimsTurned(c, victims, |victims|, old(blocks), old(lastFreeBlock), old(Cur()), blocks,
                                   lastFreeBlock, Cur())
      ensures ok ==> Noted(old(bReclaimMore), old(blocks.Keys), bReclaimMore, blocks.Keys)
      ensures old(Funded(c, blocks, lastFreeBlock, nFreeBlocks, F, |victims|, 0)) ==>
        ok && FundedToTheEnd(c, blocks, lastFreeBlock, nFreeBlocks, F, |victims|)
    {
      hide MapsOkExcept, FreeListOk, Conserved, SameView, Funded, EmptiedUpTo, BlockCollected, PagesTurned,
        VictimsTurned, Victims,
        Full, Noted;
      ghost var more := bReclaimMore;
      NotedSelf(more, blocks.Keys);
      ghost var s, open, n, cur := State(), lastFreeBlock, |victims|, Cur();
      ghost var funded := Funded(c, blocks, open, nFreeBlocks, F, n, 0);
      EmptiedStarts(c, blocks, victims);
      SameViewSelf(c, s);
      ShapedVictims(c, s, victims);
      VictimsTurnStart(c, victims, blocks, open, cur);
      var i := 0;
      while i < |victims|
        invariant i <= |victims| && Valid() && SameView(c, s, State())
        invariant validPageCopies >= old(validPageCopies)
        invariant EmptiedUpTo(c, s.blocks, blocks, victims, i, validPageCopies - old(validPageCopies))
        invariant VictimsTurned(c, victims, i, s.blocks, open, cur, blocks, lastFreeBlock, Cur())
        invariant Noted(more, s.blocks.Keys, bReclaimMore, blocks.Keys)
        invariant funded ==> Funded(c, blocks, lastFreeBlock, nFreeBlocks, F, n, i * c.pagesInBlock)
      {
        ghost var t, wasOpen, copies, turned, noted := State(), lastFreeBlock, validPageCopies, Cur(), bReclaimMore;
        EmptiedNextIsFull(c, s.blocks, blocks, victims, i, validPageCopies - old(validPageCopies));
        NextMultiple(i, c.pagesInBlock);
        MulMonotone(i + 1, n, c.pagesInBlock);
        ok := CollectBlock(victims[i], F, n, i * c.pagesInBlock);
        if !ok {
          return;
        }
        EmptiedNext(c, s.blocks, t.blocks, blocks, victims, i, copies - old(validPageCopies), validPageCopies - copies);
        ViewsChain(c, s, t, State());
        NotedChain(more, s.blocks.Keys, noted, t.blocks.Keys, bReclaimMore, blocks.Keys);
        VictimsTurnNext(c, victims, i, s.blocks, open, cur, t.blocks, wasOpen, turned, blocks, lastFreeBlock, Cur());
        i := i + 1;
      }
      ok := true;
    }

    // eraseInternal: panics when the block is not in use or still holds a valid unit; searching an
    // empty free list for its place is undefined.
    method EraseInternal(v: nat) returns (ok: bool)
      requires Valid()
      modifies this`blocks, this`freeBlocks, this`nFreeBlocks, this`retired
      ensures ok == (&& v in old(blocks) && NothingValid(old(blocks)[v])
                     && (old(blocks)[v].eraseCount + 1 < badBlockThreshold ==> old(nFreeBlocks) > 0))
      ensures ok ==> Valid() && SameView(c, old(State()), State()) && blocks == old(blocks) - {v}
      ensures ok ==>
        var b := Erased(old(blocks)[v], c.pagesInBlock, c.ioUnitInPage);
        if b.eraseCount < badBlockThreshold then
          && (exists k :: 0 <= k <= |old(freeBlocks)| && freeBlocks == Insert(old(freeBlocks), k, b))
          && nFreeBlocks == old(nFreeBlocks) + 1 && retired == old(retired)
        else
          freeBlocks == old(freeBlocks) && nFreeBlocks == old(nFreeBlocks) && retired == old(retired) + {v}
    {
      hide MapsOkExcept, FreeListOk, Conserved, SameView, Fresh;
      if v !in blocks {
        return false;
      }
      BlockAt(c, State(), v);
      if exists p, i :: 0 <= p < |blocks[v].valid| && 0 <= i < |blocks[v].valid[p]| && blocks[v].valid[p][i] {
        ghost var p, i :| 0 <= p < |blocks[v].valid| && 0 <= i < |blocks[v].valid[p]| && blocks[v].valid[p][i];
        assert (p, i) in ValidUnits(blocks[v]);
        return false;
      }
      RemoveBlockStep(c, State(), v);
      var b := Erased(blocks[v], c.pagesInBlock, c.ioUnitInPage);
      EraseMakesFresh(blocks[v], c.pagesInBlock, c.ioUnitInPage);
      SameViewSelf(c, State());
      ViewIgnoresBlocks(c, State(), State(), blocks - {v});
      if b.eraseCount < badBlockThreshold {
        if |freeBlocks| == 0 {
          return false;
        }
        var k := FindByWear(freeBlocks, b.eraseCount);
        InsertKeeps(c, blocks.Keys, freeBlocks, retired, k, b);
        freeBlocks := Insert(freeBlocks, k, b);
        nFreeBlocks := nFreeBlocks + 1;
      } else {
        RetireKeeps(c, blocks.Keys, Ids(freeBlocks), retired, v);
        retired := retired + {v};
      }
      assert (blocks - {v}).Keys == blocks.Keys - {v};
      blocks := blocks - {v};
      ok := true;
    }

    // The victims whose next erase is their last.
    ghost function WornOut(victims: seq<nat>): set<nat>
      reads this
    {
      Worn(blocks, victims, badBlockThreshold)
    }

    // The erasing half of doGarbageCollection.
    method EraseAll(victims: seq<nat>) returns (ok: bool)
      requires Valid() && Distinct(victims)
      requires forall k | 0 <= k < |victims| :: victims[k] in blocks && NothingValid(blocks[victims[k]])
      modifies this`blocks, this`freeBlocks, this`nFreeBlocks, this`retired
      ensures ok ==> Valid() && SameView(c, old(State()), State())
      ensures ok ==> blocks == old(blocks) - Elements(victims)
      ensures ok ==> retired == old(retired) + old(WornOut(victims))
      ensures old(nFreeBlocks) > 0 ==> ok && nFreeBlocks >= old(nFreeBlocks)
    {
      hide MapsOkExcept, FreeListOk, Conserved, SameView, Fresh, NothingValid;
      ghost var s := State();
      SameViewSelf(c, s);
      var i := 0;
      assert blocks == s.blocks - Elements(victims[..0]);
      while i < |victims|
        invariant i <= |victims| && Valid() && SameView(c, s, State())
        invariant blocks == s.blocks - Elements(victims[..i])
        invariant retired == old(retired) + old(WornOut(victims[..i]))
        invariant old(nFreeBlocks) > 0 ==> nFreeBlocks >= old(nFreeBlocks)
      {
        ghost var t := State();
        assert victims[i] in blocks && blocks[victims[i]] == s.blocks[victims[i]];
        ok := EraseInternal(victims[i]);
        if !ok {
          return;
        }
        ViewsChain(c, s, t, State());
        assert victims[..i + 1] == victims[..i] + [victims[i]];
        assert old(WornOut(victims[..i + 1])) == old(WornOut(victims[..i]) + WornOut([victims[i]]));
        i := i + 1;
      }
      assert victims[..|victims|] == victims;
      ok := true;
    }

    // doGarbageCollection: the victims' valid units are moved, then the victims are erased. No read
    // changes, and validPageCopies counts every valid unit once. When a block is free for each victim and
    // for each open block, nothing panics. The open blocks stay in use exactly if every victim that is
    // open is at a position that the collection visits while it is full. As many blocks are free as
    // before, less those opened, and with the victims that are not worn out.
    method DoGarbageCollection(victims: seq<nat>) returns (ok: bool)
      requires Valid() && Victims(c, blocks, victims)
      modifies this`table, this`blocks, this`flash, this`validPageCopies, this`freeBlocks, this`nFreeBlocks
      modifies this`lastFreeBlock, this`lastFreeBlockIOMap, this`lastFreeBlockIndex, this`bReclaimMore, this`retired
      ensures ok ==> Valid() && Gone(old(Snap()), victims, Snap())
      ensures ok ==> validPageCopies == old(validPageCopies) + Sum(ValidCounts(old(blocks), victims))
      ensures old(GcFunded(victims)) ==>
        ok && OpenedBelow(old(blocks.Keys), blocks.Keys, |victims| + c.pageCountToMaxPerf)
    {
      hide MapsOkExcept, FreeListOk, Conserved, SameView, EmptiedUpTo, Funded, Victims, OpenBlocks, VictimsTurned, Worn,
        Elements, OpenedBelow, Noted, Gone;
      ghost var s, F, free := Snap(), nFreeBlocks, freeBlocks;
      ShapedVictims(c, s.maps, victims);
      SameViewSelf(c, s.maps);
      if |victims| == 0 {
        NothingGone(s, free, victims);
        return true;
      }
      ghost var funded := GcFunded(victims);
      if funded {
        GcIsFunded(c, s.maps, s.open, F, |victims|);
      }
      ok := CollectAll(victims, F);
      if !ok {
        return;
      }
      ghost var t, freeT := Snap(), freeBlocks;
      EmptiedFacts(c, s.maps.blocks, blocks, victims, validPageCopies - old(validPageCopies));
      SameWear(s.maps.blocks, blocks, victims, badBlockThreshold);
      if funded {
        FundedFacts(c, blocks, lastFreeBlock, nFreeBlocks, F, |victims|);
      }
      ok := EraseAll(victims);
      if ok {
        ViewsChain(c, s.maps, t.maps, State());
        GoneAfter(s, free, t.maps.blocks, victims, Snap(), freeBlocks);
        if funded {
          GcOpened(c, s.maps.blocks, free, s.retired, t.maps.blocks, freeT, blocks, victims, s.open, s.cursor,
            lastFreeBlock, Cur(), |victims| + c.pageCountToMaxPerf);
        }
      }
    }

    // What collecting victims leads to: they are free or worn out, nothing reads differently, the cursor went
    // over their pages, and the open blocks stay in use exactly if each victim that is open was visited.
    ghost predicate Gone(s: Snapshot, victims: seq<nat>, t: Snapshot) {
      && VictimsShaped(c, s.maps.blocks, victims) && |s.cursor.iomap| == c.ioUnitInPage
      && SameView(c, s.maps, t.maps) && (forall v | v in victims :: v !in t.maps.blocks)
      && t.retired == s.retired + Worn(s.maps.blocks, victims, badBlockThreshold)
      && Worn(s.maps.blocks, victims, badBlockThreshold) !! s.retired
      && Counted(s.nFree, s.maps.blocks.Keys, t.nFree, t.maps.blocks.Keys, |victims|,
           Worn(s.maps.blocks, victims, badBlockThreshold))
      && NotedAfter(s.reclaimMore, s.maps.blocks.Keys, t.reclaimMore, t.maps.blocks.Keys)
      && t.cursor == VisitVictims(c, s.maps.blocks, victims, |victims|, s.cursor).cursor
      && (OpenBlocks(s.maps.blocks, s.open) ==>
            (OpenBlocks(t.maps.blocks, t.open) <==> OpenVictimsVisited(c, s.maps.blocks, s.open, victims, s.cursor)))
    }

    // The block lists agree with the snapshot.
    ghost predicate AccountedIn(s: Snapshot, free: seq<BlockState>) {
      FreeListOk(c, free) && Conserved(c, s.maps.blocks.Keys, Ids(free), s.retired) && |free| == s.nFree
    }

    lemma {:induction false} GoneAfter(s: Snapshot, free: seq<BlockState>, mid: map<nat, BlockState>,
        victims: seq<nat>, t: Snapshot, free': seq<BlockState>)
      requires AccountedIn(s, free) && AccountedIn(t, free') && Victims(c, s.maps.blocks, victims)
      requires VictimsTurned(c, victims, |victims|, s.maps.blocks, s.open, s.cursor, mid, t.open, t.cursor)
      requires Noted(s.reclaimMore, s.maps.blocks.Keys, t.reclaimMore, mid.Keys)
        && t.maps.blocks == mid - Elements(victims)
      requires t.retired == s.retired + Worn(s.maps.blocks, victims, badBlockThreshold)
      requires SameView(c, s.maps, t.maps)
      ensures Gone(s, victims, t)
    {
      hide FreeListOk, Conserved, Victims, OpenBlocks, VictimsTurned, OpenVictimsVisited, Worn, Counted, NotedAfter,
        Noted, SameView, VictimsShaped;
      var bs, worn := s.maps.blocks, Worn(s.maps.blocks, victims, badBlockThreshold);
      WornAmong(bs, victims, badBlockThreshold);
      GcCounts(c, bs, free, s.retired, mid, t.maps.blocks, free', t.retired, victims, worn, s.open, s.cursor, t.open,
        t.cursor);
      GcNoted(c, bs, mid, t.maps.blocks, victims, s.open, s.cursor, t.open, t.cursor, s.reclaimMore, t.reclaimMore);
      WornNotRetired(s, free, victims);
      if OpenBlocks(bs, s.open) {
        OpenOutlastErase(c, victims, bs, s.open, s.cursor, mid, t.open, t.cursor, t.maps.blocks);
      }
    }

    lemma {:induction false} WornNotRetired(s: Snapshot, free: seq<BlockState>, victims: seq<nat>)
      requires AccountedIn(s, free)
      ensures Worn(s.maps.blocks, victims, badBlockThreshold) !! s.retired
    {
    }

    lemma {:induction false} NothingGone(s: Snapshot, free: seq<BlockState>, victims: seq<nat>)
      requires AccountedIn(s, free) && victims == [] && SameView(c, s.maps, s.maps)
        && |s.cursor.iomap| == c.ioUnitInPage
      ensures Gone(s, victims, s) && Victims(c, s.maps.blocks, victims) && Sum(ValidCounts(s.maps.blocks, victims)) == 0
      ensures forall n: nat :: n > 0 ==> OpenedBelow(s.maps.blocks.Keys, s.maps.blocks.Keys, n)
    {
      hide FreeListOk, Conserved, SameView, OpenedBelow, Gone;
      NothingWorn(s.maps.blocks, victims, badBlockThreshold);
      VictimsTurnStart(c, victims, s.maps.blocks, s.open, s.cursor);
      NotedSelf(s.reclaimMore, s.maps.blocks.Keys);
      assert s.maps.blocks == s.maps.blocks - Elements(victims);
      assert s.retired == s.retired + Worn(s.maps.blocks, victims, badBlockThreshold);
      GoneAfter(s, free, s.maps.blocks, victims, s, free);
    }

    // Enough free blocks for a collection of these victims.
    ghost predicate GcFunded(victims: seq<nat>)
      reads this
    {
      OpenBlocks(blocks, lastFreeBlock) && |victims| + c.pageCountToMaxPerf <= nFreeBlocks
    }

    // Every victim that is open is at a position that the collection visits.
    ghost predicate OpenVisited(victims: seq<nat>)
      requires Valid() && Victims(c, blocks, victims)
      reads this
    {
      ShapedVictims(c, State(), victims);
      OpenVictimsVisited(c, blocks, lastFreeBlock, victims, Cur())
    }

    // A fixed number of blocks, or what the free ones lack of the share, rounded down.
    function ReclaimCount(free: nat): (r: nat)
      ensures gcMode.Fixed? ==> r == gcMode.reclaim
      ensures gcMode.Threshold? ==>
        var wanted := c.totalPhysicalBlocks as real * gcMode.share;
        && (wanted <= free as real ==> r == 0)
        && (free as real <= wanted ==> (free + r) as real <= wanted < (free + r + 1) as real)
    {
      match gcMode
      case Fixed(reclaim) => reclaim
      case Threshold(share) =>
        var missing := c.totalPhysicalBlocks as real * share - free as real;
        if missing < 0.0 then 0 else missing.Floor
    }

    // The ratio is below the threshold exactly if the free blocks are fewer than that share of all.
    lemma {:induction false} CollectsBelowShare(free: nat)
      requires c.Valid()
      ensures GcNeeded(free) <==> (free as real) < gcThresholdRatio * c.totalPhysicalBlocks as real
    {
      var n := c.totalPhysicalBlocks as real;
      assert free as real / n * n == free as real;
    }

    lemma {:induction false} CountFalls(a: nat, b: nat)
      requires a <= b
      ensures ReclaimCount(b) <= ReclaimCount(a)
    {
    }

    // One block more per open block once some open block filled up since the last collection.
    method SelectVictims() returns (list: seq<nat>)
      requires Valid()
      modifies this`bReclaimMore
      ensures Lightest(c, blocks, list, ReclaimCount(nFreeBlocks) + if old(bReclaimMore) then c.pageCountToMaxPerf
        else 0)
      ensures !bReclaimMore
    {
      var nBlocks := ReclaimCount(nFreeBlocks);
      if bReclaimMore {
        nBlocks := nBlocks + c.pageCountToMaxPerf;
        bReclaimMore := false;
      }
      list := SelectVictimBlock(c, blocks, nBlocks);
    }

    predicate GcNeeded(free: nat)
      requires c.Valid()
    {
      free as real / c.totalPhysicalBlocks as real < gcThresholdRatio
    }

    // Whether a write that finds so many free blocks can make a collection necessary, and whether they
    // are enough for it: one to open, one for each victim and one for each open block.
    predicate MayCollect(free: nat)
      requires c.Valid()
    {
      free == 0 || GcNeeded(free - 1)
    }

    predicate EnoughFree(free: nat) {
      1 <= free && ReclaimCount(free - 1) + 2 * c.pageCountToMaxPerf < free
    }

    // A write that cannot panic, and leaves every open block in use.
    ghost predicate WriteReady(s: Snapshot, flags: seq<bool>)
      requires c.Valid() && |flags| == |s.cursor.iomap|
    {
      && OpenBlocks(s.maps.blocks, s.open) && 1 <= s.nFree
      && (MayCollect(s.nFree) ==>
            EnoughFree(s.nFree) && RoomAfter(c, s.maps.blocks, s.open, Next(c, s.cursor, flags).index))
    }

    // The free blocks, the open blocks and the cursor as an operation finds them.
    ghost predicate Proper(s: Snapshot) {
      |s.cursor.iomap| == c.ioUnitInPage && s.cursor.index < c.pageCountToMaxPerf == |s.open|
    }

    // The open block that a write goes to can take it.
    ghost predicate CanStore(s: Snapshot, flags: seq<bool>)
      requires |flags| == |s.cursor.iomap|
    {
      var k := Next(c, s.cursor, flags).index;
      && k < |s.open| && s.open[k] in s.maps.blocks
      && (Full(s.maps.blocks[s.open[k]], c.pagesInBlock) ==> s.nFree > 0)
    }

    // The units are stored, and if too few blocks are then free there is a collection.
    ghost predicate Through(s: Snapshot, lpn: nat, flags: seq<bool>, data: seq<nat>, mid: Snapshot, t: Snapshot)
      requires c.Valid() && |flags| == |s.cursor.iomap| == c.ioUnitInPage == |data|
    {
      && Updated(c, s.maps, mid.maps, lpn, flags, data, c.bitsetSize()) && StoredStep(c, s, flags, mid)
      && if GcNeeded(mid.nFree) then Reclaimed(mid, t) else t == mid
    }

    // What a write that succeeds leads to. With a collection at most one free block for each open block is
    // lost, other than to wear.
    ghost predicate WriteStepped(s: Snapshot, lpn: nat, flags: seq<bool>, data: seq<nat>, t: Snapshot)
      requires c.Valid() && |flags| == |s.cursor.iomap| == c.ioUnitInPage == |data|
    {
      && (exists mid: Snapshot :: Through(s, lpn, flags, data, mid, t))
      && Updated(c, s.maps, t.maps, lpn, flags, data, c.bitsetSize())
      && CanStore(s, flags) && s.retired <= t.retired
      && (!MayCollect(s.nFree) ==> StoredStep(c, s, flags, t))
      && (WriteReady(s, flags) ==> OpenBlocks(t.maps.blocks, t.open))
      && (OpenBlocks(s.maps.blocks, s.open) && EnoughFree(s.nFree) ==>
            t.nFree + |t.retired - s.retired| + c.pageCountToMaxPerf >= s.nFree)
    }

    // writeInternal. Afterwards the page's selected units read as the new data and everything else
    // as before, whatever was collected meanwhile. With open blocks in use it succeeds if there are
    // enough free blocks for what it may collect.
    method WriteInternal(lpn: nat, flags: seq<bool>, ghost data: seq<nat>) returns (ok: bool)
      requires Valid() && |flags| == c.ioUnitInPage && |data| == c.ioUnitInPage
      modifies this
      ensures ok ==> Valid() && WriteStepped(old(Snap()), lpn, flags, data, Snap())
      ensures old(CanOpen(flags) && !MayCollect(nFreeBlocks)) ==> ok
      ensures old(OpenBlocks(blocks, lastFreeBlock) && EnoughFree(nFreeBlocks)) ==> ok
      ensures old(WriteReady(Snap(), flags)) ==> ok
    {
      hide MapsOkExcept, FreeListOk, Conserved, Updated, SameView, ValidCounts, OpenBlocks, RoomAfter, NoneFull, Next,
        StoredStep, Counted, OpenedBelow, WornOut, Reclaimed;
      ghost var before, room := Snap(), RoomAfter(c, blocks, lastFreeBlock, Next(c, Cur(), flags).index);
      if OpenBlocks(blocks, lastFreeBlock) {
        OpensIfFree(flags);
      }
      ok := StoreUnits(lpn, flags, data);
      if !ok {
        return;
      }
      ghost var mid := Snap();
      StoredTakesOne(before, flags, mid);
      if before.nFree > 0 {
        RatioGrows(before.nFree - 1, nFreeBlocks, c.totalPhysicalBlocks);
        CountFalls(before.nFree - 1, nFreeBlocks);
      }
      if room {
        RoomStays(c, before, flags, mid);
      }
      if GcNeeded(nFreeBlocks) {
        ok := Collect(room);
        if ok {
          UpdatedStays(c, before.maps, mid.maps, State(), lpn, flags, data, c.bitsetSize());
        }
      }
      assert ok ==> Through(before, lpn, flags, data, mid, Snap());
    }

    // The victims of a collection that finds s: as many as configured, of the fewest valid units.
    ghost predicate Chosen(s: Snapshot, victims: seq<nat>) {
      Lightest(c, s.maps.blocks, victims, ReclaimCount(s.nFree) + if s.reclaimMore then c.pageCountToMaxPerf else 0)
    }

    // A collection was started in s and led to t.
    ghost predicate Reclaimed(s: Snapshot, t: Snapshot) {
      exists victims :: Chosen(s, victims) && Gone(s.(reclaimMore := false), victims, t)
    }

    // On-demand garbage collection; room tells that no open block is full.
    method Collect(ghost room: bool) returns (ok: bool)
      requires Valid() && (room ==> NoneFull(c, blocks, lastFreeBlock))
      modifies this
      ensures ok ==> Reclaimed(old(Snap()), Snap())
      ensures ok ==> Valid() && SameView(c, old(State()), State()) && old(retired) <= retired
      ensures old(OpenBlocks(blocks, lastFreeBlock)
                  && ReclaimCount(nFreeBlocks) + 2 * c.pageCountToMaxPerf <= nFreeBlocks) ==>
        ok && nFreeBlocks + |retired - old(retired)| + c.pageCountToMaxPerf > old(nFreeBlocks)
      ensures ok && room ==> OpenBlocks(blocks, lastFreeBlock)
    {
      hide MapsOkExcept, FreeListOk, Conserved, SameView, ValidCounts, OpenBlocks, NoneFull, OpenedBelow, Victims,
        Lightest, Gone;
      ghost var before := Snap();
      var list := SelectVictims();
      ghost var s := Snap();
      LightestIs(c, blocks, list, ReclaimCount(s.nFree) + if before.reclaimMore then c.pageCountToMaxPerf else 0);
      ok := DoGarbageCollection(list);
      if ok {
        assert Chosen(before, list);
        GoneFacts(s, list, Snap(), room);
      }
    }

    lemma {:induction false} GoneFacts(s: Snapshot, victims: seq<nat>, t: Snapshot, room: bool)
      requires Gone(s, victims, t) && Victims(c, s.maps.blocks, victims)
      requires room ==> NoneFull(c, s.maps.blocks, s.open)
      ensures SameView(c, s.maps, t.maps) && s.retired <= t.retired
      ensures OpenedBelow(s.maps.blocks.Keys, t.maps.blocks.Keys, |victims| + c.pageCountToMaxPerf) ==>
        t.nFree + |t.retired - s.retired| + c.pageCountToMaxPerf > s.nFree
      ensures room ==> OpenBlocks(t.maps.blocks, t.open)
    {
      hide SameView, Victims, OpenBlocks, OpenVictimsVisited, Worn, Counted, NotedAfter, NoneFull;
      NetGain(s.nFree, s.maps.blocks.Keys, t.nFree, t.maps.blocks.Keys, |victims|,
        Worn(s.maps.blocks, victims, badBlockThreshold), s.retired, t.retired, c.pageCountToMaxPerf);
      if room {
        NoOpenVictims(c, s.maps.blocks, s.open, victims, s.cursor);
        NoneFullInUse(s);
      }
    }

    lemma {:induction false} NoneFullInUse(s: Snapshot)
      requires NoneFull(c, s.maps.blocks, s.open)
      ensures OpenBlocks(s.maps.blocks, s.open)
    {
    }

    lemma {:induction false} StoredTakesOne(s: Snapshot, flags: seq<bool>, t: Snapshot)
      requires |flags| == |s.cursor.iomap| && StoredStep(c, s, flags, t)
      ensures t.nFree <= s.nFree <= t.nFree + 1 && t.retired == s.retired
      ensures OpenBlocks(s.maps.blocks, s.open) ==> OpenBlocks(t.maps.blocks, t.open)
    {
    }

    lemma {:induction false} OpensIfFree(flags: seq<bool>)
      requires Valid() && |flags| == c.ioUnitInPage && OpenBlocks(blocks, lastFreeBlock)
      ensures nFreeBlocks > 0 ==> CanOpen(flags)
    {
    }

    // write: a request with no unit flagged is ignored.
    method Write(lpn: nat, flags: seq<bool>, ghost data: seq<nat>) returns (ok: bool)
      requires Valid() && |flags| == c.ioUnitInPage && |data| == c.ioUnitInPage
      modifies this
      ensures ok ==> Valid()
      ensures ok && AnyOf(flags) ==> WriteStepped(old(Snap()), lpn, flags, data, Snap())
      ensures !AnyOf(flags) ==> ok && Snap() == old(Snap())
      ensures old(OpenBlocks(blocks, lastFreeBlock) && EnoughFree(nFreeBlocks)) ==> ok
      ensures old(WriteReady(Snap(), flags)) ==> ok
    {
      hide MapsOkExcept, FreeListOk, Conserved, Updated, OpenBlocks, RoomAfter, Next, WriteStepped;
      if AnyOf(flags) {
        ok := WriteInternal(lpn, flags, data);
      } else {
        ok := true;
      }
    }

    // trimInternal: panics exactly on a page with some unit not mapped.
    method Trim(lpn: nat) returns (ok: bool)
      requires Valid()
      modifies this`table, this`blocks
      ensures ok == old(TrimReady(c, State(), lpn))
      ensures ok ==> Valid() && Trimmed(c, old(State()), State(), lpn) && SameWriting(old(blocks), blocks)
    {
      hide FreeListOk, Conserved, Trimmed, MapsOkExcept;
      if lpn !in table {
        TrimmedUnmapped(c, State(), lpn);
        return true;
      }
      EntrySize(c, State(), lpn);
      var i := 0;
      ghost var gone: set<nat> := {};
      while i < c.bitsetSize()
        invariant i <= c.bitsetSize() && table == old(table) && flash == old(flash) && SameWriting(old(blocks), blocks)
        invariant forall j: nat :: j in gone <==> j < i
        invariant ValidExcept(lpn, gone)
        invariant forall j | 0 <= j < i :: Mapped(c, table[lpn][j])
      {
        var mapping := table[lpn][i];
        InUseIfMapped(c, State(), lpn, gone, i);
        if mapping.block !in blocks {
          return false;
        }
        InvalidateEntry(lpn, gone, i);
        gone := gone + {i};
        i := i + 1;
      }
      RemoveStep(c, State(), lpn, gone);
      TrimmedAfter(c, old(State()), State(), lpn);
      table := table - {lpn};
      ok := true;
    }

    // readInternal: where each selected mapped unit is read, in order of position.
    method Read(lpn: nat, flags: seq<bool>) returns (ok: bool, found: seq<Physical>)
      requires Valid() && |flags| == c.ioUnitInPage
      ensures ok && Resolves(c, State(), lpn, flags, c.bitsetSize(), found)
    {
      hide FreeListOk, Conserved;
      found := [];
      if lpn !in table {
        return true, [];
      }
      var i := 0;
      while i < c.bitsetSize()
        invariant i <= c.bitsetSize() && Resolves(c, State(), lpn, flags, i, found)
      {
        if flags[i] || !c.bRandomTweak {
          var mapping := table[lpn][i];
          if mapping.block < c.totalPhysicalBlocks && mapping.page < c.pagesInBlock {
            assert Holds(c, State(), mapping.block, mapping.page, i, lpn);
            if mapping.block !in blocks {
              return false, found;
            }
            found := found + [Physical(mapping.block, mapping.page, i)];
          }
        }
        i := i + 1;
      }
      ok := true;
    }

    // An operation that cannot panic, and leaves every open block in use.
    ghost predicate Ready(s: Snapshot, op: Operation)
      requires c.Valid() && WellTyped(c, op) && Proper(s)
    {
      && OpenBlocks(s.maps.blocks, s.open)
      && match op
         case WriteOp(lpn, flags, data) => AnyOf(flags) ==> WriteReady(s, flags)
         case TrimOp(lpn) => TrimReady(c, s.maps, lpn)
    }

    // What an operation that succeeds leads to.
    ghost predicate Stepped(s: Snapshot, op: Operation, t: Snapshot)
      requires c.Valid() && WellTyped(c, op) && Proper(s)
    {
      && Proper(t) && MapsOk(c, t.maps)
      && match op
         case WriteOp(lpn, flags, data) => if AnyOf(flags) then WriteStepped(s, lpn, flags, data, t) else t == s
         case TrimOp(lpn) =>
           && TrimReady(c, s.maps, lpn) && Trimmed(c, s.maps, t.maps, lpn) && SameWriting(s.maps.blocks, t.maps.blocks)
           && t == s.(maps := t.maps)
    }

    // After a ready operation the open blocks are in use.
    lemma {:induction false} ReadyStep(s: Snapshot, op: Operation, t: Snapshot)
      requires c.Valid() && WellTyped(c, op) && Proper(s) && Ready(s, op) && Stepped(s, op, t)
      ensures OpenBlocks(t.maps.blocks, t.open)
    {
    }

    // Every operation is ready in every state the ones before it can lead to.
    ghost predicate Safe(s: Snapshot, ops: seq<Operation>)
      requires c.Valid() && AllTyped(c, ops)
      decreases |ops|
    {
      && Proper(s) && OpenBlocks(s.maps.blocks, s.open)
      && (|ops| > 0 ==> Ready(s, ops[0]) && forall t: Snapshot | Stepped(s, ops[0], t) :: Safe(t, ops[1..]))
    }

    // Writes that never bring the free blocks down to where a collection is needed.
    ghost predicate Quiet(s: Snapshot, ops: seq<Operation>)
      requires c.Valid()
    {
      && Proper(s) && OpenBlocks(s.maps.blocks, s.open) && (forall k | 0 <= k < |ops| :: ops[k].WriteOp?)
      && |ops| <= s.nFree && !GcNeeded(s.nFree - |ops|)
    }

    lemma {:induction false} QuietStep(s: Snapshot, op: Operation, n: nat)
      requires c.Valid() && WellTyped(c, op) && op.WriteOp? && Proper(s) && OpenBlocks(s.maps.blocks, s.open)
      requires 1 <= s.nFree && n < s.nFree && !GcNeeded(n)
      ensures Ready(s, op)
      ensures forall t: Snapshot | Stepped(s, op, t) ::
        && Proper(t) && OpenBlocks(t.maps.blocks, t.open) && t.nFree <= s.nFree <= t.nFree + 1
        && (t == s || StoredStep(c, s, op.flags, t))
    {
      RatioGrows(n, s.nFree - 1, c.totalPhysicalBlocks);
    }

    lemma {:induction false} QuietIsSafe(s: Snapshot, ops: seq<Operation>)
      requires c.Valid() && AllTyped(c, ops) && Quiet(s, ops)
      ensures Safe(s, ops)
      decreases |ops|
    {
      hide Stepped, Ready, OpenBlocks;
      if |ops| > 0 {
        QuietStep(s, ops[0], s.nFree - |ops|);
        forall t: Snapshot | Stepped(s, ops[0], t) ensures Safe(t, ops[1..]) {
          if t.nFree > s.nFree - 1 {
            RatioGrows(s.nFree - |ops|, t.nFree - (|ops| - 1), c.totalPhysicalBlocks);
          }
          QuietIsSafe(t, ops[1..]);
        }
      }
    }

    // Writes of which only the last can make a collection necessary, with room for them in every open block
    // and enough free blocks.
    ghost predicate QuietButLast(s: Snapshot, ops: seq<Operation>)
      requires c.Valid()
    {
      && Proper(s) && OpenBlocks(s.maps.blocks, s.open) && (forall k | 0 <= k < |ops| :: ops[k].WriteOp?)
      && 1 <= |ops| <= s.nFree && !GcNeeded(s.nFree - |ops| + 1) && EnoughFree(s.nFree - |ops| + 1)
      && forall k | 0 <= k < |s.open| :: MaxOf(s.maps.blocks[s.open[k]].next) + |ops| < c.pagesInBlock
    }

    lemma {:induction false} LastIsReady(s: Snapshot, op: Operation)
      requires c.Valid() && WellTyped(c, op) && QuietButLast(s, [op])
      ensures Ready(s, op)
    {
      hide MayCollect, GcNeeded, EnoughFree;
      assert [op][0] == op && |[op]| == 1;
    }

    lemma {:induction false} EnoughStays(a: nat, b: nat)
      requires EnoughFree(a) && a <= b
      ensures EnoughFree(b)
    {
      CountFalls(a - 1, b - 1);
    }

    lemma {:induction false} RoomShrinks(s: Snapshot, flags: seq<bool>, t: Snapshot, n: nat)
      requires |flags| == |s.cursor.iomap| && StoredStep(c, s, flags, t) && OpenBlocks(s.maps.blocks, s.open)
      requires forall k | 0 <= k < |s.open| :: MaxOf(s.maps.blocks[s.open[k]].next) + n + 1 < c.pagesInBlock
      ensures OpenBlocks(t.maps.blocks, t.open)
      ensures forall k | 0 <= k < |t.open| :: MaxOf(t.maps.blocks[t.open[k]].next) + n < c.pagesInBlock
    {
    }

    // Such writes succeed, whatever the last one collects.
    lemma {:induction false} QuietButLastIsSafe(s: Snapshot, ops: seq<Operation>)
      requires c.Valid() && AllTyped(c, ops) && QuietButLast(s, ops)
      ensures Safe(s, ops)
      decreases |ops|
    {
      hide Stepped, Ready, OpenBlocks, StoredStep, EnoughFree, GcNeeded;
      if |ops| == 1 {
        assert ops == [ops[0]];
        LastIsReady(s, ops[0]);
        forall t: Snapshot | Stepped(s, ops[0], t) ensures Safe(t, ops[1..]) {
          ReadyStep(s, ops[0], t);
          SteppedIsProper(s, ops[0], t);
        }
      } else {
        QuietStep(s, ops[0], s.nFree - |ops| + 1);
        forall t: Snapshot | Stepped(s, ops[0], t) ensures Safe(t, ops[1..]) {
          NextIsQuiet(s, ops, t);
          QuietButLastIsSafe(t, ops[1..]);
        }
      }
    }

    lemma {:induction false} SteppedIsProper(s: Snapshot, op: Operation, t: Snapshot)
      requires c.Valid() && WellTyped(c, op) && Proper(s) && Stepped(s, op, t)
      ensures Proper(t)
    {
    }

    lemma {:induction false} NextIsQuiet(s: Snapshot, ops: seq<Operation>, t: Snapshot)
      requires c.Valid() && AllTyped(c, ops) && QuietButLast(s, ops) && |ops| > 1
      requires Proper(t) && OpenBlocks(t.maps.blocks, t.open) && t.nFree <= s.nFree <= t.nFree + 1
      requires t == s || StoredStep(c, s, ops[0].flags, t)
      ensures QuietButLast(t, ops[1..])
    {
      hide StoredStep, GcNeeded, EnoughFree, OpenBlocks;
      var n := s.nFree - |ops| + 1;
      GcNeededFalls(n, t.nFree - |ops[1..]| + 1);
      EnoughStays(n, t.nFree - |ops[1..]| + 1);
      if t != s {
        RoomShrinks(s, ops[0].flags, t, |ops| - 1);
      }
    }

    lemma {:induction false} GcNeededFalls(a: nat, b: nat)
      requires c.Valid() && a <= b && !GcNeeded(a)
      ensures !GcNeeded(b)
    {
      RatioGrows(a, b, c.totalPhysicalBlocks);
    }

    // The states before each of the first operations of a run, and what each operation led to; each state
    // reads as the flat array then does.
    ghost predicate Traced(trace: seq<Snapshot>, flat: map<(nat, nat), nat>, ops: seq<Operation>)
      requires c.Valid() && AllTyped(c, ops)
    {
      && |trace| <= |ops|
      && (forall k | 0 <= k < |trace| ::
            Proper(trace[k]) && MapsOk(c, trace[k].maps) && Agrees(c, trace[k].maps, Replay(c, flat, ops[..k])))
      && forall k | 0 < k < |trace| :: Stepped(trace[k - 1], ops[k - 1], trace[k])
    }

    lemma {:induction false} TraceGrows(trace: seq<Snapshot>, flat: map<(nat, nat), nat>, ops: seq<Operation>,
        s: Snapshot)
      requires c.Valid() && AllTyped(c, ops) && Traced(trace, flat, ops) && |trace| < |ops|
      requires Proper(s) && MapsOk(c, s.maps) && Agrees(c, s.maps, Replay(c, flat, ops[..|trace|]))
      requires trace != [] ==> Stepped(trace[|trace| - 1], ops[|trace| - 1], s)
      ensures Traced(trace + [s], flat, ops)
    {
      hide Proper, MapsOkExcept, Agrees, Stepped, Replay;
      var grown := trace + [s];
      forall k | 0 <= k < |grown| ensures grown[k] == if k < |trace| then trace[k] else s { }
    }

    // Any run of writes and trims leaves the FTL reading as a flat array indexed by (LPN, unit), up to the
    // first panic, which can only come on an operation that is not ready in the state before it, to which the
    // operations before led. A run that is safe at its start succeeds, with all open blocks in use.
    method Run(ops: seq<Operation>, ghost flat: map<(nat, nat), nat>) returns (ok: bool, ghost trace: seq<Snapshot>)
      requires Valid() && Agrees(c, State(), flat) && AllTyped(c, ops)
      modifies this
      ensures ok ==> Valid() && Agrees(c, State(), Replay(c, flat, ops)) && |trace| == |ops|
      ensures Traced(trace, flat, ops) && (ops != [] ==> trace != [] && trace[0] == old(Snap()))
      ensures var n := |trace| - 1;
        if ok then ops != [] ==> Stepped(trace[n], ops[n], Snap()) else n >= 0 && !Ready(trace[n], ops[n])
      ensures ops != [] && (forall k | 0 <= k < |trace| :: Ready(trace[k], ops[k])) ==>
        ok && OpenBlocks(blocks, lastFreeBlock)
      ensures old(Safe(Snap(), ops)) ==> ok && OpenBlocks(blocks, lastFreeBlock)
      ensures old(Quiet(Snap(), ops)) ==> ok && OpenBlocks(blocks, lastFreeBlock)
    {
      hide MapsOkExcept, FreeListOk, Conserved, Agrees, OpenBlocks, Ready, Apply, Stepped, Traced, Quiet, Safe;
      ghost var now, safe := flat, Safe(Snap(), ops);
      if Quiet(Snap(), ops) {
        QuietIsSafe(Snap(), ops);
      }
      var k := 0;
      trace := [];
      RunStarts(flat, ops);
      while k < |ops|
        invariant k <= |ops| && Valid() && Agrees(c, State(), now) && now == Replay(c, flat, ops[..k])
        invariant |trace| == k && Traced(trace, flat, ops)
        invariant if k == 0 then Snap() == old(Snap()) else trace[0] == old(Snap()) && Proper(trace[k - 1])
        invariant k > 0 ==> Stepped(trace[k - 1], ops[k - 1], Snap())
        invariant safe ==> Safe(Snap(), ops[k..])
      {
        TraceGrows(trace, flat, ops, Snap());
        trace := trace + [Snap()];
        SafeIsReady(Snap(), ops, k);
        ok := Step(ops[k], now);
        if !ok {
          return;
        }
        StepsOn(trace[k], ops, k, Snap(), safe);
        ReplayNext(flat, ops, k);
        now := Apply(c, now, ops[k]);
        k := k + 1;
      }
      assert ops[..k] == ops;
      if k > 0 && Ready(trace[k - 1], ops[k - 1]) {
        ReadyStep(trace[k - 1], ops[k - 1], Snap());
      }
      if safe {
        SafeIsOpen(Snap(), ops[k..]);
      }
      ok := true;
    }

    lemma {:induction false} RunStarts(flat: map<(nat, nat), nat>, ops: seq<Operation>)
      requires c.Valid() && AllTyped(c, ops)
      ensures Traced([], flat, ops) && ops[0..] == ops && ops[..0] == [] && Replay(c, flat, []) == flat
    {
    }

    lemma {:induction false} ReplayNext(flat: map<(nat, nat), nat>, ops: seq<Operation>, k: nat)
      requires AllTyped(c, ops) && k < |ops|
      ensures Replay(c, flat, ops[..k + 1]) == Apply(c, Replay(c, flat, ops[..k]), ops[k])
    {
      assert ops[..k + 1][..k] == ops[..k];
    }

    lemma {:induction false} StepsOn(s: Snapshot, ops: seq<Operation>, k: nat, t: Snapshot, safe: bool)
      requires c.Valid() && AllTyped(c, ops) && k < |ops| && Proper(s) && Stepped(s, ops[k], t)
      requires safe ==> Safe(s, ops[k..])
      ensures safe ==> Safe(t, ops[k + 1..])
    {
      assert ops[k..][0] == ops[k] && ops[k..][1..] == ops[k + 1..];
    }

    lemma {:induction false} SafeIsReady(s: Snapshot, ops: seq<Operation>, k: nat)
      requires c.Valid() && AllTyped(c, ops) && k < |ops|
      ensures Safe(s, ops[k..]) ==> Proper(s) && Ready(s, ops[k])
    {
      assert ops[k..][0] == ops[k];
    }

    lemma {:induction false} SafeIsOpen(s: Snapshot, ops: seq<Operation>)
      requires c.Valid() && AllTyped(c, ops) && Safe(s, ops)
      ensures OpenBlocks(s.maps.blocks, s.open)
    {
    }

    method Step(op: Operation, ghost flat: map<(nat, nat), nat>) returns (ok: bool)
      requires Valid() && Agrees(c, State(), flat) && WellTyped(c, op)
      modifies this
      ensures ok ==> Valid() && Agrees(c, State(), Apply(c, flat, op)) && Stepped(old(Snap()), op, Snap())
      ensures old(Ready(Snap(), op)) ==> ok
    {
      hide MapsOkExcept, FreeListOk, Conserved, Agrees, Updated, Trimmed, OpenBlocks, WriteReady, TrimReady, StoredStep,
        CanStore;
      match op {
        case WriteOp(lpn, flags, data) =>
          ok := Write(lpn, flags, data);
          if ok {
            if AnyOf(flags) {
              WriteAgrees(c, old(State()), State(), flat, lpn, flags, data);
            }
          }
        case TrimOp(lpn) =>
          ok := Trim(lpn);
          if ok {
            TrimAgrees(c, old(State()), State(), flat, lpn);
          }
      }
    }
  }

  predicate AllTyped(c: Config, ops: seq<Operation>) {
    forall k | 0 <= k < |ops| :: WellTyped(c, ops[k])
  }

  datatype Operation =
    | WriteOp(lpn: nat, flags: seq<bool>, data: seq<nat>)
    | TrimOp(lpn: nat)

  predicate WellTyped(c: Config, op: Operation) {
    op.WriteOp? ==> |op.flags| == c.ioUnitInPage && |op.data| == c.ioUnitInPage
  }

  ghost function WrittenUnits(c: Config, lpn: nat, flags: seq<bool>): set<(nat, nat)>
    requires |flags| == c.ioUnitInPage
  {
    set i | i in SelectedIn(c, flags, 0, c.bitsetSize()) :: (lpn, i)
  }

  // The same operations on a flat array of units.
  ghost function Apply(c: Config, flat: map<(nat, nat), nat>, op: Operation): map<(nat, nat), nat>
    requires WellTyped(c, op)
  {
    match op
    case WriteOp(lpn, flags, data) =>
      if AnyOf(flags) then
        flat + map u | u in WrittenUnits(c, lpn, flags) :: data[u.1]
      else
        flat
    case TrimOp(lpn) => map u | u in flat && u.0 != lpn :: flat[u]
  }

  ghost function Replay(c: Config, flat: map<(nat, nat), nat>, ops: seq<Operation>): map<(nat, nat), nat>
    requires AllTyped(c, ops)
  {
    if |ops| == 0 then flat else Apply(c, Replay(c, flat, ops[..|ops| - 1]), ops[|ops| - 1])
  }

  ghost predicate Agrees(c: Config, s: Maps, flat: map<(nat, nat), nat>) {
    forall l: nat, i: nat :: Look(c, s, l, i) == if (l, i) in flat then Some(flat[(l, i)]) else None
  }

  lemma {:induction false} WriteAgrees(c: Config, s: Maps, t: Maps, flat: map<(nat, nat), nat>, lpn: nat,
      flags: seq<bool>, data: seq<nat>)
    requires |flags| == c.ioUnitInPage && |data| == c.ioUnitInPage && AnyOf(flags)
    requires Agrees(c, s, flat) && Updated(c, s, t, lpn, flags, data, c.bitsetSize())
    ensures Agrees(c, t, Apply(c, flat, WriteOp(lpn, flags, data)))
  {
    var after := Apply(c, flat, WriteOp(lpn, flags, data));
    forall l: nat, i: nat ensures (l, i) in WrittenUnits(c, lpn, flags) <==> l == lpn && Selected(c, flags, i) {
      assert i in SelectedIn(c, flags, 0, c.bitsetSize()) <==> Selected(c, flags, i);
    }
    forall l: nat, i: nat ensures Look(c, t, l, i) == if (l, i) in after then Some(after[(l, i)]) else None {
      assert Look(c, s, l, i) == if (l, i) in flat then Some(flat[(l, i)]) else None;
    }
  }

  lemma {:induction false} TrimAgrees(c: Config, s: Maps, t: Maps, flat: map<(nat, nat), nat>, lpn: nat)
    requires Agrees(c, s, flat) && Trimmed(c, s, t, lpn)
    ensures Agrees(c, t, Apply(c, flat, TrimOp(lpn)))
  {
    var after := Apply(c, flat, TrimOp(lpn));
    forall l: nat, i: nat ensures Look(c, t, l, i) == if (l, i) in after then Some(after[(l, i)]) else None {
      assert Look(c, s, l, i) == if (l, i) in flat then Some(flat[(l, i)]) else None;
    }
  }

  lemma {:induction false} RatioGrows(a: nat, b: nat, n: nat)
    requires a <= b && 1 <= n
    ensures a as real / n as real <= b as real / n as real
  {
  }

  lemma {:induction false} UpdatedStays(c: Config, s: Maps, t: Maps, u: Maps, lpn: nat, flags: seq<bool>,
      data: seq<nat>, n: nat)
    requires |flags| == c.ioUnitInPage && |data| == c.ioUnitInPage
    requires Updated(c, s, t, lpn, flags, data, n) && SameView(c, t, u)
    ensures Updated(c, s, u, lpn, flags, data, n)
  {
    forall l: nat, j: nat ensures Look(c, u, l, j) == Look(c, t, l, j) {
    }
  }

  // The page reads as never written, the others as before.
  ghost predicate Trimmed(c: Config, s: Maps, t: Maps, lpn: nat) {
    forall l: nat, i: nat :: Look(c, t, l, i) == if l == lpn then None else Look(c, s, l, i)
  }

  lemma {:induction false} TrimmedUnmapped(c: Config, s: Maps, lpn: nat)
    requires lpn !in s.table
    ensures Trimmed(c, s, s, lpn)
  {
  }

  lemma {:induction false} TrimmedAfter(c: Config, s: Maps, t: Maps, lpn: nat)
    requires t.table == s.table && t.flash == s.flash
    ensures Trimmed(c, s, t.(table := t.table - {lpn}), lpn)
  {
  }

  lemma {:induction false} EntrySize(c: Config, s: Maps, lpn: nat)
    requires MapsOk(c, s) && lpn in s.table
    ensures MapsOkExcept(c, s, lpn, {}) && |s.table[lpn]| == c.bitsetSize()
  {
  }

  // An entry's block is in use exactly when the entry is mapped.
  lemma {:induction false} InUseIfMapped(c: Config, s: Maps, lpn: nat, pending: set<nat>, i: nat)
    requires MapsOkExcept(c, s, lpn, pending) && lpn in s.table && i < c.bitsetSize() && i !in pending
    ensures Mapped(c, s.table[lpn][i]) <==> s.table[lpn][i].block in s.blocks
  {
    if Mapped(c, s.table[lpn][i]) {
      assert Holds(c, s, s.table[lpn][i].block, s.table[lpn][i].page, i, lpn);
    }
  }

  // The reads are, in order, one per selected unit before n that was ever written, each from the
  // valid unit that holds it, with what was last written there.
  ghost predicate Resolves(c: Config, s: Maps, lpn: nat, flags: seq<bool>, n: nat, found: seq<Physical>)
    requires |flags| == c.ioUnitInPage
  {
    && BlocksWellFormed(c, s)
    && (forall j, k | 0 <= j < k < |found| :: found[j].unit < found[k].unit)
    && (forall u | u in found ::
          && u.unit < n && Selected(c, flags, u.unit) && u in s.flash && Holds(c, s, u.block, u.page, u.unit, lpn)
          && Look(c, s, lpn, u.unit) == Some(s.flash[u]))
    && (forall i | 0 <= i < n && Selected(c, flags, i) && Look(c, s, lpn, i) != None ::
          exists u :: u in found && u.unit == i)
  }

  lemma {:induction false} GcIsFunded(c: Config, s: Maps, open: seq<nat>, F: nat, n: nat)
    requires MapsOk(c, s) && OpenBlocks(s.blocks, open) && |open| == c.pageCountToMaxPerf
      && n + c.pageCountToMaxPerf <= F
    ensures Funded(c, s.blocks, open, F, F, n, 0)
  {
    FundedStart(c, s.blocks, open, F, n);
  }

  lemma {:induction false} FundedFacts(c: Config, blocks: map<nat, BlockState>, open: seq<nat>, nFree: nat, F: nat,
      n: nat)
    requires c.Valid() && FundedToTheEnd(c, blocks, open, nFree, F, n)
    ensures OpenBlocks(blocks, open) && F - nFree <= n + c.pageCountToMaxPerf - 1 && 1 <= nFree
  {
    FundedEnd(c, blocks, open, nFree, F, n);
  }

  lemma {:induction false} EmptiedFacts(c: Config, bs: map<nat, BlockState>, cs: map<nat, BlockState>,
      victims: seq<nat>, moved: nat)
    requires EmptiedUpTo(c, bs, cs, victims, |victims|, moved)
    ensures Distinct(victims) && (forall k | 0 <= k < |victims| :: victims[k] in bs)
    ensures forall k | 0 <= k < |victims| :: victims[k] in cs && NothingValid(cs[victims[k]])
    ensures moved == Sum(ValidCounts(bs, victims))
    ensures forall v | v in victims :: v in bs && v in cs && cs[v].eraseCount == bs[v].eraseCount
  {
    assert ValidCounts(bs, victims)[..|victims|] == ValidCounts(bs, victims);
  }

  lemma {:induction false} BlockAt(c: Config, s: Maps, v: nat)
    requires MapsOk(c, s) && v in s.blocks
    ensures s.blocks[v].idx == v && WellFormed(s.blocks[v], c.pagesInBlock, c.ioUnitInPage)
  {
  }

  lemma {:induction false} BlockShape(c: Config, s: Maps, v: nat)
    requires MapsOk(c, s) && v in s.blocks
    ensures Shaped(s.blocks[v], c.pagesInBlock, c.ioUnitInPage) && |s.blocks[v].valid| == c.pagesInBlock
  {
  }

  lemma {:induction false} OpenedSame(c: Config, blocks: map<nat, BlockState>, free: seq<BlockState>, open: seq<nat>,
      k: nat,
                   blocks': map<nat, BlockState>, free': seq<BlockState>, open': seq<nat>)
    requires k < |open| && c.Valid() && Opened(c, blocks, free, open, k, blocks', free', open')
    ensures forall b | b in blocks :: b in blocks' && blocks'[b] == blocks[b]
    ensures k < |open'|
  {
  }

  // Open position k was made ready (mid) and its block then took one page.
  ghost predicate PageWritten(c: Config, blocks: map<nat, BlockState>, free: seq<BlockState>, open: seq<nat>, k: nat,
                              mid: map<nat, BlockState>, free': seq<BlockState>, open': seq<nat>, after: map<nat,
                                BlockState>) {
    && c.Valid() && k < |open| && Opened(c, blocks, free, open, k, mid, free', open')
    && after.Keys == mid.Keys && k < |open'| && open'[k] in mid
    && (forall b | b in mid && b != open'[k] :: after[b].next == mid[b].next)
    && 1 <= MaxOf(after[open'[k]].next) <= MaxOf(mid[open'[k]].next) + 1
  }

  // The page of victim v that was moved made the cursor visit position cur'.index.
  lemma {:induction false} PageWrittenTurns(c: Config, blocks: map<nat, BlockState>, free: seq<BlockState>,
      open: seq<nat>, cur: Cursor, v: nat, p: nat, mid: map<nat, BlockState>, free': seq<BlockState>, open': seq<nat>,
      after: map<nat, BlockState>, cur': Cursor, moved: nat)
    requires PageWritten(c, blocks, free, open, cur'.index, mid, free', open', after)
    requires PageCollected(c, blocks, after, v, p, moved) && |blocks[v].valid[p]| == |cur.iomap|
      && AnyOf(blocks[v].valid[p])
    requires cur' == Next(c, cur, Asked(c, blocks[v].valid[p]))
    ensures PageTurned(c, blocks[v], p, blocks, open, cur, after, open', cur')
  {
    OpenedReplaces(c, blocks, free, open, cur'.index, mid, free', open', after);
    PageStaysFull(c, blocks, after, v, p, moved);
  }

  lemma {:induction false} ShapedVictims(c: Config, s: Maps, victims: seq<nat>)
    requires MapsOk(c, s) && Victims(c, s.blocks, victims)
    ensures VictimsShaped(c, s.blocks, victims)
  {
  }

  // Afterwards the free blocks are those before, less those that came into use, and with the blocks
  // collected, but for the worn ones.
  ghost predicate Counted(nFree: nat, used: set<nat>, nFree': nat, used': set<nat>, collected: nat, worn: set<nat>) {
    nFree' + |used' - used| + |worn| == nFree + collected
  }

  // At most one free block for each open block is lost, other than to wear.
  lemma {:induction false} NetGain(nFree: nat, used: set<nat>, nFree': nat, used': set<nat>, n: nat, worn: set<nat>,
      gone: set<nat>, gone': set<nat>, P: nat)
    requires Counted(nFree, used, nFree', used', n, worn) && gone' == gone + worn && worn !! gone
    ensures OpenedBelow(used, used', n + P) ==> nFree' + |gone' - gone| + P > nFree
  {
    assert gone' - gone == worn;
  }

  ghost predicate OpenedBelow(used: set<nat>, used': set<nat>, n: nat) { |used' - used| < n }

  ghost function Worn(blocks: map<nat, BlockState>, victims: seq<nat>, threshold: nat): set<nat> {
    set v | v in victims && v in blocks && blocks[v].eraseCount + 1 >= threshold
  }

  lemma {:induction false} NothingWorn(bs: map<nat, BlockState>, victims: seq<nat>, threshold: nat)
    requires victims == []
    ensures Worn(bs, victims, threshold) == {}
    ensures forall n: nat :: Counted(n, bs.Keys, n, bs.Keys, 0, Worn(bs, victims, threshold))
    ensures forall n: nat :: n > 0 ==> OpenedBelow(bs.Keys, bs.Keys, n)
  {
    assert Worn(bs, victims, threshold) == {} && bs.Keys - bs.Keys == {};
  }

  lemma {:induction false} SameWear(bs: map<nat, BlockState>, cs: map<nat, BlockState>, victims: seq<nat>,
      threshold: nat)
    requires forall v | v in victims :: v in bs && v in cs && cs[v].eraseCount == bs[v].eraseCount
    ensures Worn(bs, victims, threshold) == Worn(cs, victims, threshold)
    ensures Worn(bs, victims, threshold) <= Elements(victims)
  {
  }

  // The free blocks before a collection (bs), once the pages were moved (ts) and at its end (cs).
  lemma {:induction false} GcCounts(c: Config, bs: map<nat, BlockState>, free: seq<BlockState>, gone: set<nat>,
      ts: map<nat, BlockState>, cs: map<nat, BlockState>, free': seq<BlockState>, gone': set<nat>, victims: seq<nat>,
      worn: set<nat>, open: seq<nat>, cur: Cursor, open': seq<nat>, cur': Cursor)
    requires FreeListOk(c, free) && Conserved(c, bs.Keys, Ids(free), gone)
    requires FreeListOk(c, free') && Conserved(c, cs.Keys, Ids(free'), gone')
    requires Victims(c, bs, victims) && VictimsTurned(c, victims, |victims|, bs, open, cur, ts, open', cur')
    requires cs == ts - Elements(victims) && gone' == gone + worn && worn <= Elements(victims)
    ensures Counted(|free|, bs.Keys, |free'|, cs.Keys, |victims|, worn)
  {
    hide FreeListOk, Conserved, Victims, VictimsTurned, Elements;
    TurnedKeys(c, bs, victims, ts, open, cur, open', cur');
    ElementsCount(victims);
    OpenedKeys(bs.Keys, ts.Keys, Elements(victims));
    assert cs.Keys == ts.Keys - Elements(victims);
    FreeAfter(c, bs.Keys, free, gone, cs.Keys, free', gone', Elements(victims), worn);
  }

  // Blocks that came into use and stayed are exactly what was noted.
  ghost predicate NotedAfter(more: bool, used: set<nat>, more': bool, used': set<nat>) {
    more' == (more || used' - used != {})
  }

  lemma {:induction false} NothingNoted(more: bool, used: set<nat>)
    ensures NotedAfter(more, used, more, used)
  {
  }

  lemma {:induction false} WornAmong(bs: map<nat, BlockState>, victims: seq<nat>, threshold: nat)
    ensures Worn(bs, victims, threshold) <= Elements(victims)
  {
  }

  lemma {:induction false} NoneMore(a: set<nat>, b: set<nat>)
    requires a <= b
    ensures b - a == {} <==> a == b
  {
    if b - a == {} {
      forall x | x in b ensures x in a {
        assert x !in b - a;
      }
    }
  }

  lemma {:induction false} GcNoted(c: Config, bs: map<nat, BlockState>, ts: map<nat, BlockState>,
      cs: map<nat, BlockState>, victims: seq<nat>, open: seq<nat>, cur: Cursor, open': seq<nat>, cur': Cursor,
      more: bool, more': bool)
    requires Victims(c, bs, victims) && VictimsTurned(c, victims, |victims|, bs, open, cur, ts, open', cur')
    requires cs == ts - Elements(victims) && Noted(more, bs.Keys, more', ts.Keys)
    ensures NotedAfter(more, bs.Keys, more', cs.Keys)
    ensures VictimsShaped(c, bs, victims) && |cur.iomap| == c.ioUnitInPage
    ensures cur' == VisitVictims(c, bs, victims, |victims|, cur).cursor
  {
    hide Victims, Elements;
    TurnedKeys(c, bs, victims, ts, open, cur, open', cur');
    OpenedKeys(bs.Keys, ts.Keys, Elements(victims));
    assert cs.Keys == ts.Keys - Elements(victims);
    NoneMore(bs.Keys, ts.Keys);
  }

  lemma {:induction false} GcOpened(c: Config, bs: map<nat, BlockState>, free: seq<BlockState>, gone: set<nat>,
      ts: map<nat, BlockState>, freeT: seq<BlockState>, cs: map<nat, BlockState>, victims: seq<nat>, open: seq<nat>,
      cur: Cursor, open': seq<nat>, cur': Cursor, n: nat)
    requires FreeListOk(c, free) && Conserved(c, bs.Keys, Ids(free), gone)
    requires FreeListOk(c, freeT) && Conserved(c, ts.Keys, Ids(freeT), gone)
    requires Victims(c, bs, victims) && VictimsTurned(c, victims, |victims|, bs, open, cur, ts, open', cur')
    requires cs == ts - Elements(victims) && |free| < |freeT| + n
    ensures OpenedBelow(bs.Keys, cs.Keys, n)
  {
    hide FreeListOk, Conserved, Victims, VictimsTurned, Elements;
    TurnedKeys(c, bs, victims, ts, open, cur, open', cur');
    OpenedKeys(bs.Keys, ts.Keys, Elements(victims));
    assert cs.Keys == ts.Keys - Elements(victims);
    assert gone == gone + {};
    FreeAfter(c, bs.Keys, free, gone, ts.Keys, freeT, gone, {}, {});
  }

  lemma {:induction false} TurnedKeys(c: Config, bs: map<nat, BlockState>, victims: seq<nat>, ts: map<nat, BlockState>,
      open: seq<nat>, cur: Cursor, open': seq<nat>, cur': Cursor)
    requires Victims(c, bs, victims) && VictimsTurned(c, victims, |victims|, bs, open, cur, ts, open', cur')
    ensures Distinct(victims) && Elements(victims) <= bs.Keys <= ts.Keys
  {
  }

  lemma {:induction false} OpenedKeys(bs: set<nat>, ts: set<nat>, gone: set<nat>)
    requires gone <= bs <= ts
    ensures (ts - gone) - bs == ts - bs && bs - gone <= ts - gone && gone !! (ts - gone) && bs - {} <= ts
  {
  }

  lemma {:induction false} ElementsCount(victims: seq<nat>)
    requires Distinct(victims)
    ensures |Elements(victims)| == |victims|
  {
    if |victims| > 0 {
      var n := |victims| - 1;
      ElementsCount(victims[..n]);
      assert victims == victims[..n] + [victims[n]];
      assert Elements(victims) == Elements(victims[..n]) + {victims[n]};
    }
  }

  lemma {:induction false} NoVictims(c: Config, blocks: map<nat, BlockState>, open: seq<nat>, victims: seq<nat>,
      cur: Cursor)
    requires VictimsShaped(c, blocks, victims) && |cur.iomap| == c.ioUnitInPage && victims == []
    ensures OpenVictimsVisited(c, blocks, open, victims, cur)
  {
  }

  lemma {:induction false} PageWrittenFunds(c: Config, blocks: map<nat, BlockState>, free: seq<BlockState>,
      open: seq<nat>, k: nat,
                         mid: map<nat, BlockState>, free': seq<BlockState>, open': seq<nat>, after: map<nat,
                           BlockState>,
                         F: nat, n: nat, calls: nat)
    requires PageWritten(c, blocks, free, open, k, mid, free', open', after)
    requires Funded(c, blocks, open, |free|, F, n, calls)
    ensures Funded(c, after, open', |free'|, F, n, calls + 1)
  {
    FundedStep(c, blocks, free, open, k, mid, free', open', after, F, n, calls);
  }

  // A funded collection can always open the block it needs.
  lemma {:induction false} FundedOpens(c: Config, s: Maps, open: seq<nat>, nFree: nat, F: nat, n: nat, calls: nat,
      k: nat)
    requires c.Valid() && MapsOk(c, s) && Funded(c, s.blocks, open, nFree, F, n, calls) && calls < n * c.pagesInBlock
    requires k < |open|
    ensures open[k] in s.blocks && (Full(s.blocks[open[k]], c.pagesInBlock) ==> nFree > 0)
  {
    if Full(s.blocks[open[k]], c.pagesInBlock) {
      FundedCanOpen(c, s.blocks, open, nFree, F, n, calls, k);
    }
  }

  // State s became t by opening block d and u by moving the page there.
  lemma {:induction false} PageMoved(c: Config, s: Maps, t: Maps, u: Maps, v: nat, p: nat, d: nat, moved: nat, i: nat)
    requires c.Valid() && MapsOk(c, t) && t == s.(blocks := t.blocks) && Kept(c, t, u)
    requires Moving(c, t, u, v, p, d, c.bitsetSize(), moved) && !Full(t.blocks[d], c.pagesInBlock)
    requires p < c.pagesInBlock && v in s.blocks && i < c.ioUnitInPage && t.blocks[v].valid[p][i]
    requires forall b | b in s.blocks :: b in t.blocks && t.blocks[b] == s.blocks[b]
    ensures MapsOk(c, u) && SameView(c, s, u) && PageCollected(c, s.blocks, u.blocks, v, p, moved)
    ensures u.blocks.Keys == t.blocks.Keys && d in t.blocks
    ensures forall b | b in t.blocks && b != d :: u.blocks[b].next == t.blocks[b].next
    ensures 1 <= MaxOf(u.blocks[d].next) <= MaxOf(t.blocks[d].next) + 1
  {
    MovedPageCollected(c, s.blocks, t, u, v, p, d, moved);
    MovedPageWritten(c, t, u, v, p, d, moved, i);
    KeptView(c, s, t, u);
  }

  lemma {:induction false} PageDone(c: Config, s: Maps, t: Maps, u: Maps, v: nat, p: nat, moved: nat, i: nat,
      free: seq<BlockState>, open: seq<nat>, k: nat, free': seq<BlockState>, open': seq<nat>)
    requires c.Valid() && k < |open| && k < |open'| && Opened(c, s.blocks, free, open, k, t.blocks, free', open')
    requires MapsOk(c, t) && t == s.(blocks := t.blocks) && Kept(c, t, u) && open'[k] in t.blocks
    requires Moving(c, t, u, v, p, open'[k], c.bitsetSize(), moved) && !Full(t.blocks[open'[k]], c.pagesInBlock)
    requires p < c.pagesInBlock && v in s.blocks && i < c.ioUnitInPage && t.blocks[v].valid[p][i]
    requires forall b | b in s.blocks :: b in t.blocks && t.blocks[b] == s.blocks[b]
    ensures MapsOk(c, u) && SameView(c, s, u) && PageCollected(c, s.blocks, u.blocks, v, p, moved)
    ensures PageWritten(c, s.blocks, free, open, k, t.blocks, free', open', u.blocks) && u.blocks.Keys == t.blocks.Keys
  {
    hide MapsOkExcept, SameView, PageCollected, Kept, Moving, Opened, Full;
    PageMoved(c, s, t, u, v, p, open'[k], moved, i);
  }

  // Reads before a block was opened for s to become t, and after the moves to u, agree.
  lemma {:induction false} KeptView(c: Config, s: Maps, t: Maps, u: Maps)
    requires t == s.(blocks := t.blocks) && Kept(c, t, u)
    ensures MapsOk(c, u) && SameView(c, s, u)
  {
    SameViewSelf(c, s);
    ViewIgnoresBlocks(c, s, s, t.blocks);
    ViewsChain(c, s, t, u);
  }

  lemma {:induction false} SameViewSelf(c: Config, s: Maps)
    ensures SameView(c, s, s)
  {
  }

  lemma {:induction false} ViewIgnoresBlocks(c: Config, s: Maps, t: Maps, bs: map<nat, BlockState>)
    requires SameView(c, s, t)
    ensures SameView(c, s, t.(blocks := bs))
  {
    forall l: nat, i: nat ensures Look(c, s, l, i) == Look(c, t.(blocks := bs), l, i) {
      assert Look(c, s, l, i) == Look(c, t, l, i);
    }
  }

  lemma {:induction false} OpenByKeys(bs: map<nat, BlockState>, cs: map<nat, BlockState>, open: seq<nat>)
    requires bs.Keys == cs.Keys
    ensures OpenBlocks(bs, open) <==> OpenBlocks(cs, open)
  {
  }

  lemma {:induction false} UpdatedSince(c: Config, s: Maps, t: Maps, u: Maps, lpn: nat, flags: seq<bool>,
      data: seq<nat>, n: nat)
    requires |flags| == c.ioUnitInPage && |data| == c.ioUnitInPage
    requires SameView(c, s, t) && Updated(c, t, u, lpn, flags, data, n)
    ensures Updated(c, s, u, lpn, flags, data, n)
  {
    forall l: nat, j: nat ensures Look(c, s, l, j) == Look(c, t, l, j) {
    }
  }

  // Writing the selected units of the page to block d, from state s on, has come to state t
  // before position i.
  ghost predicate Writing(c: Config, s: Maps, t: Maps, lpn: nat, flags: seq<bool>, d: nat, i: nat, data: seq<nat>)
    requires |flags| == c.ioUnitInPage && |data| == c.ioUnitInPage
  {
    && i <= c.bitsetSize() && lpn in t.table
    && MapsOkExcept(c, t, lpn, SelectedIn(c, flags, i, c.bitsetSize()))
    && Updated(c, s, t, lpn, flags, data, i)
    && WrittenUpTo(s.blocks, t.blocks, d, i)
    && d in s.blocks && |s.blocks[d].next| == c.ioUnitInPage && !Full(s.blocks[d], c.pagesInBlock)
    && (forall j | 0 <= j < c.ioUnitInPage :: s.blocks[d].next[j] <= c.pagesInBlock)
  }

  lemma {:induction false} WritingStarts(c: Config, s: Maps, lpn: nat, flags: seq<bool>, d: nat, data: seq<nat>)
    requires |flags| == c.ioUnitInPage && |data| == c.ioUnitInPage && c.Valid()
    requires MapsOkExcept(c, s, lpn, SelectedIn(c, flags, 0, c.bitsetSize())) && lpn in s.table
    requires d in s.blocks && !Full(s.blocks[d], c.pagesInBlock)
    ensures Writing(c, s, s, lpn, flags, d, 0, data)
  {
  }

  lemma {:induction false} WritingNext(c: Config, s: Maps, t: Maps, lpn: nat, flags: seq<bool>, d: nat, i: nat,
      data: seq<nat>)
    requires |flags| == c.ioUnitInPage && |data| == c.ioUnitInPage && c.Valid() && i < c.bitsetSize()
    requires Writing(c, s, t, lpn, flags, d, i, data)
    ensures BlocksWellFormed(c, t) && lpn in t.table && i < |t.table[lpn]|
    ensures d in t.blocks && i < |t.blocks[d].next| && t.blocks[d].next[i] < c.pagesInBlock
    ensures CanWrite(t.blocks[d], t.blocks[d].next[i], i)
    ensures if flags[i] || !c.bRandomTweak then
      Writing(c, s, WriteAt(t, d, lpn, i, data[i]), lpn, flags, d, i + 1, data)
            else Writing(c, s, t, lpn, flags, d, i + 1, data)
  {
    var pending := SelectedIn(c, flags, i, c.bitsetSize());
    SelectedFirst(c, flags, i);
    RoomAt(c, s.blocks, t.blocks, d, i);
    WriteHolds(c, t, d, lpn, i, data[i]);
    if flags[i] || !c.bRandomTweak {
      WriteStep(c, t, lpn, pending, d, i, data[i]);
      WriteLooks(c, t, lpn, pending, d, i, data[i]);
      UpdatedNext(c, s, t, WriteAt(t, d, lpn, i, data[i]), lpn, flags, data, i);
      WrittenNext(s.blocks, t, d, lpn, i, data[i]);
    } else {
      UpdatedSkip(c, s, t, lpn, flags, data, i);
    }
  }

  lemma {:induction false} WritingEnds(c: Config, s: Maps, t: Maps, lpn: nat, flags: seq<bool>, d: nat, data: seq<nat>)
    requires |flags| == c.ioUnitInPage && |data| == c.ioUnitInPage
    requires Writing(c, s, t, lpn, flags, d, c.bitsetSize(), data)
    ensures MapsOk(c, t) && OnePageWritten(s.blocks, t.blocks, d)
    ensures Updated(c, s, t, lpn, flags, data, c.bitsetSize())
  {
    assert SelectedIn(c, flags, c.bitsetSize(), c.bitsetSize()) == {};
    WrittenBound(s.blocks, t.blocks, d, c.bitsetSize());
  }

  lemma {:induction false} WrittenNext(bs: map<nat, BlockState>, t: Maps, d: nat, lpn: nat, i: nat, data: nat)
    requires WrittenUpTo(bs, t.blocks, d, i) && i < |t.blocks[d].next| && lpn in t.table && i < |t.table[lpn]|
    requires var p := t.blocks[d].next[i];
      && p < |t.blocks[d].valid| && p < |t.blocks[d].erased| && p < |t.blocks[d].lpns|
      && i < |t.blocks[d].valid[p]| && i < |t.blocks[d].erased[p]| && i < |t.blocks[d].lpns[p]|
    ensures WrittenUpTo(bs, WriteAt(t, d, lpn, i, data).blocks, d, i + 1)
  {
  }

  // Reads of the page's selected units before n give the new data; other reads, except of
  // selected units still to come, are as before.
  ghost predicate Updated(c: Config, s: Maps, t: Maps, lpn: nat, flags: seq<bool>, data: seq<nat>, n: nat)
    requires |flags| == c.ioUnitInPage && |data| == c.ioUnitInPage
  {
    forall l: nat, j: nat ::
      if l == lpn && Selected(c, flags, j) then
        j < n ==> Look(c, t, l, j) == Some(data[j])
      else
        Look(c, t, l, j) == Look(c, s, l, j)
  }

  lemma {:induction false} UpdatedNext(c: Config, s: Maps, t: Maps, u: Maps, lpn: nat, flags: seq<bool>,
      data: seq<nat>, i: nat)
    requires |flags| == c.ioUnitInPage && |data| == c.ioUnitInPage && c.Valid() && i < c.bitsetSize()
    requires Selected(c, flags, i) && Updated(c, s, t, lpn, flags, data, i)
    requires Look(c, u, lpn, i) == Some(data[i])
    requires forall l: nat, j: nat | !(l == lpn && j in SelectedIn(c, flags, i, c.bitsetSize())) ::
      Look(c, u, l, j) == Look(c, t, l, j)
    ensures Updated(c, s, u, lpn, flags, data, i + 1)
  {
    forall l: nat, j: nat
      ensures if l == lpn && Selected(c, flags, j) then j < i + 1 ==> Look(c, u, l, j) == Some(data[j])
              else Look(c, u, l, j) == Look(c, s, l, j)
    {
      if !(l == lpn && j in SelectedIn(c, flags, i, c.bitsetSize())) {
        assert Look(c, u, l, j) == Look(c, t, l, j);
      }
    }
  }

  lemma {:induction false} UpdatedSkip(c: Config, s: Maps, t: Maps, lpn: nat, flags: seq<bool>, data: seq<nat>, i: nat)
    requires |flags| == c.ioUnitInPage && |data| == c.ioUnitInPage && !Selected(c, flags, i)
    requires Updated(c, s, t, lpn, flags, data, i)
    ensures Updated(c, s, t, lpn, flags, data, i + 1)
  {
    forall l: nat, j: nat
      ensures if l == lpn && Selected(c, flags, j) then j < i + 1 ==> Look(c, t, l, j) == Some(data[j])
              else Look(c, t, l, j) == Look(c, s, l, j)
    {
    }
  }

  lemma {:induction false} SelectedFirst(c: Config, flags: seq<bool>, i: nat)
    requires |flags| == c.ioUnitInPage && i < c.bitsetSize() && c.Valid()
    ensures Selected(c, flags, i) <==> flags[i] || !c.bRandomTweak
    ensures Selected(c, flags, i) <==> i in SelectedIn(c, flags, i, c.bitsetSize())
    ensures SelectedIn(c, flags, i + 1, c.bitsetSize()) == SelectedIn(c, flags, i, c.bitsetSize()) - {i}
  {
  }

  // Units of block d before position n moved on by at most one page; nothing else was written.
  ghost predicate WrittenUpTo(bs: map<nat, BlockState>, cs: map<nat, BlockState>, d: nat, n: nat) {
    && bs.Keys == cs.Keys && d in bs && |cs[d].next| == |bs[d].next|
    && (forall b | b in bs && b != d :: cs[b] == bs[b])
    && (forall j | 0 <= j < |bs[d].next| && n <= j :: cs[d].next[j] == bs[d].next[j])
    && (forall j | 0 <= j < |bs[d].next| :: cs[d].next[j] <= bs[d].next[j] + 1)
  }

  lemma {:induction false} RoomAt(c: Config, bs: map<nat, BlockState>, cs: map<nat, BlockState>, d: nat, i: nat)
    requires WrittenUpTo(bs, cs, d, i) && !Full(bs[d], c.pagesInBlock) && i < |bs[d].next|
    requires forall j | 0 <= j < |bs[d].next| :: bs[d].next[j] <= c.pagesInBlock
    ensures cs[d].next[i] < c.pagesInBlock
  {
    MaxBelow(bs[d].next, c.pagesInBlock);
  }

  // Block d took at most one page more at any unit position; the others are untouched.
  ghost predicate OnePageWritten(bs: map<nat, BlockState>, cs: map<nat, BlockState>, d: nat) {
    && bs.Keys == cs.Keys && d in bs
    && (forall b | b in bs && b != d :: cs[b] == bs[b])
    && MaxOf(cs[d].next) <= MaxOf(bs[d].next) + 1
  }

  lemma {:induction false} WrittenBound(bs: map<nat, BlockState>, cs: map<nat, BlockState>, d: nat, n: nat)
    requires WrittenUpTo(bs, cs, d, n)
    ensures OnePageWritten(bs, cs, d)
  {
    MaxBelow(cs[d].next, MaxOf(bs[d].next) + 1);
  }

  // A page with nothing mapped can have any units pending.
  lemma {:induction false} NewPagePending(c: Config, s: Maps, lpn: nat, pending: set<nat>)
    requires MapsOkExcept(c, s, lpn, {}) && lpn in s.table
    requires forall i | 0 <= i < c.bitsetSize() :: s.table[lpn][i] == Nowhere(c)
    ensures MapsOkExcept(c, s, lpn, pending)
  {
    forall b: nat, p: nat, i: nat, l: nat | Holds(c, s, b, p, i, l) ensures l != lpn {
      assert s.table[l][i] == Location(b, p);
    }
  }

  // The same blocks in use, with the same write pointers.
  ghost predicate SameWriting(bs: map<nat, BlockState>, cs: map<nat, BlockState>) {
    bs.Keys == cs.Keys && forall b | b in bs :: cs[b].next == bs[b].next
  }

  lemma {:induction false} SelectedNext(c: Config, flags: seq<bool>, lo: nat, i: nat)
    requires |flags| == c.ioUnitInPage && lo <= i < c.bitsetSize() && c.Valid()
    ensures SelectedIn(c, flags, lo, i + 1) == SelectedIn(c, flags, lo, i) + if flags[i] || !c.bRandomTweak then {i}
      else {}
  {
  }

  // ---------- where the code falls short ----------

  // Two open positions of one-page blocks, after LPN 0 was written twice: block 0 is full and nothing in it
  // is valid, and block 1 is full and holds the page. Both are open, and the second was used last.
  function TwoPositions(): Config { Config(5, 1, 2, 2, true) }

  function OnePage(idx: nat, valid: bool): BlockState {
    BlockState(idx, [[valid, valid]], [[false, false]], [[0, 0]], [1, 1], 0)
  }

  function WrittenTwice(): Maps {
    Maps(map[0 := [Location(1, 0), Location(1, 0)]], map[0 := OnePage(0, false), 1 := OnePage(1, true)],
      map[Physical(0, 0, 0) := 1, Physical(0, 0, 1) := 2, Physical(1, 0, 0) := 3, Physical(1, 0, 1) := 4])
  }

  function ThreeFree(): seq<BlockState> {
    [NewBlock(TwoPositions(), 2), NewBlock(TwoPositions(), 3), NewBlock(TwoPositions(), 4)]
  }

  // A collection can erase an open block: greedy selection takes block 0, whose position is not visited
  // because nothing is copied. The next write comes to that position, and panics.
  lemma {:induction false} OpenBlockIsErased()
    ensures var c, s, open, victims, cur := TwoPositions(), WrittenTwice(), [0, 1], [0], Cursor(1, [true, true]);
      && MapsOk(c, s) && FreeListOk(c, ThreeFree()) && Conserved(c, {0, 1}, Ids(ThreeFree()), {})
      && OpenBlocks(s.blocks, open) && Victims(c, s.blocks, victims)
      && (forall list: seq<nat> | Lightest(c, s.blocks, list, 1) :: list == victims)
      && !OpenVictimsVisited(c, s.blocks, open, victims, cur)
      && (forall flags: seq<bool> | |flags| == 2 && AnyOf(flags) ::
            open[Next(c, cur, flags).index] !in s.blocks - Elements(victims))
  {
    hide MapsOkExcept, FreeListOk, Conserved, Full;
    var c, s, victims: seq<nat>, cur := TwoPositions(), WrittenTwice(), [0], Cursor(1, [true, true]);
    WrittenTwiceOk();
    ThreeAreFree();
    OnePages();
    LightestIsZero();
    assert VisitPages(c, OnePage(0, false), 0, cur) == Visits(cur, {});
    assert VisitVictims(c, s.blocks, victims, 0, cur) == Visits(cur, {});
    assert [0, 1][0] in victims;
    forall flags: seq<bool> | |flags| == 2 && AnyOf(flags) ensures Next(c, cur, flags).index == 0 {
      ComesToFirst(flags);
    }
    assert 0 in Elements(victims);
  }

  lemma {:induction false} ComesToFirst(flags: seq<bool>)
    requires |flags| == 2 && AnyOf(flags)
    ensures Next(TwoPositions(), Cursor(1, [true, true]), flags).index == 0
  {
    var i :| 0 <= i < 2 && flags[i];
    assert [true, true][i] && flags[i];
  }

  lemma {:induction false} OnePages()
    ensures Full(OnePage(0, false), 1) && Full(OnePage(1, true), 1)
    ensures WellFormed(OnePage(0, false), 1, 2) && WellFormed(OnePage(1, true), 1, 2)
    ensures ValidUnits(OnePage(0, false)) == {} && ValidUnits(OnePage(1, true)) == {(0, 0), (0, 1)}
  {
    assert MaxOf([]) == 0 && MaxOf([1]) == 1 && MaxOf([1, 1]) == 1;
  }

  lemma {:induction false} LightestIsZero()
    ensures forall list: seq<nat> | Lightest(TwoPositions(), WrittenTwice().blocks, list, 1) :: list == [0]
  {
    hide Full, ValidUnits, WellFormed;
    var c, blocks := TwoPositions(), WrittenTwice().blocks;
    OnePages();
    assert FullBlocks(c, blocks) == {0, 1};
    forall list: seq<nat> | Lightest(c, blocks, list, 1) ensures list == [0] {
      assert list[0] in blocks;
      assert list[0] in list;
    }
  }

  lemma {:induction false} WrittenTwiceOk()
    ensures MapsOk(TwoPositions(), WrittenTwice())
  {
    hide WellFormed, Full;
    var c, s := TwoPositions(), WrittenTwice();
    OnePages();
    assert BlocksWellFormed(c, s);
    forall b: nat, p: nat, i: nat, l: nat | Holds(c, s, b, p, i, l)
      ensures i < 2 && l == 0 && b == 1 && p == 0
    {
    }
  }

  lemma {:induction false} ThreeAreFree()
    ensures FreeListOk(TwoPositions(), ThreeFree()) && Conserved(TwoPositions(), {0, 1}, Ids(ThreeFree()), {})
  {
    hide Fresh;
    var free := ThreeFree();
    NewBlockFresh(TwoPositions(), 2);
    NewBlockFresh(TwoPositions(), 3);
    NewBlockFresh(TwoPositions(), 4);
    assert free[0] in free && free[1] in free && free[2] in free;
    assert Ids(free) == {2, 3, 4};
  }

  // A trim can panic: of page 7 only the first unit was ever written.
  lemma {:induction false} PartlyMappedPage()
    ensures var c := Config(1, 1, 2, 1, true);
      var s := Maps(map[7 := [Location(0, 0), Nowhere(c)]],
                    map[0 := BlockState(0, [[true, false]], [[false, true]], [[7, 0]], [1, 0], 0)],
                    map[Physical(0, 0, 0) := 5]);
      MapsOk(c, s) && !TrimReady(c, s, 7)
  {
    var c := Config(1, 1, 2, 1, true);
    assert !Mapped(c, [Location(0, 0), Nowhere(c)][1]);
  }
}
