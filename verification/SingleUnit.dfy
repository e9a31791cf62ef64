// Garbage collection when pages have a single unit. Every page of a full block is then reported valid, so
// a collection copies the invalid pages as well, and a later read can find an old one.
module SingleUnits {
  import opened Blocks
  import opened Collections
  import opened FreeLists
  import opened MappingTable
  import opened OpenCursors
  import opened Options
  import opened VictimSelection

  datatype Ftl = Ftl(maps: Maps, free: seq<BlockState>, open: seq<nat>, cur: Cursor)

  // Mapped entries point to written pages, which hold data.
  ghost predicate TableWritten(c: Config, s: Maps)
    requires BlocksWellFormed(c, s) && TableWellFormed(c, s) && c.bitsetSize() == 1 == c.ioUnitInPage
  {
    && (forall l | l in s.table && Mapped(c, s.table[l][0]) ::
          s.table[l][0].block in s.blocks && s.table[l][0].page < s.blocks[s.table[l][0].block].next[0])
    && (forall b: nat, p: nat | b in s.blocks && p < s.blocks[b].next[0] :: Physical(b, p, 0) in s.flash)
  }

  // What a collection keeps: unlike in MapsOk, entries may point to invalid pages.
  ghost predicate MapsSound(c: Config, s: Maps) {
    && c.Valid() && c.bitsetSize() == 1 == c.ioUnitInPage
    && BlocksWellFormed(c, s) && TableWellFormed(c, s) && TableWritten(c, s)
  }

  ghost predicate Sound(c: Config, s: Ftl) {
    && MapsSound(c, s.maps)
    && FreeListOk(c, s.free) && (forall b | b in s.free :: b.idx !in s.maps.blocks)
    && OpenBlocks(s.maps.blocks, s.open) && |s.open| == c.pageCountToMaxPerf
    && s.cur.index < c.pageCountToMaxPerf && |s.cur.iomap| == 1
  }

  // The open block in turn is made ready; None is the panic for lack of a free block.
  ghost function OpenNext(c: Config, s: Ftl): Option<Ftl>
    requires Sound(c, s)
  {
    var cur := Next(c, s.cur, [true]);
    if !Full(s.maps.blocks[s.open[cur.index]], c.pagesInBlock) then Some(s.(cur := cur))
    else if |s.free| == 0 then None
    else
      var t := TakenAt(s.free, c.pageCountToMaxPerf, cur.index);
      Some(Ftl(s.maps.(blocks := s.maps.blocks[s.free[t].idx := s.free[t]]), Without(s.free, t),
               s.open[cur.index := s.free[t].idx], cur))
  }

  lemma {:induction false} OpenNextSound(c: Config, s: Ftl)
    requires Sound(c, s)
    ensures OpenNext(c, s).None? ==>
      |s.free| == 0 && Full(s.maps.blocks[s.open[Next(c, s.cur, [true]).index]], c.pagesInBlock)
    ensures OpenNext(c, s).Some? ==>
      var t := OpenNext(c, s).value;
      && t.cur == Next(c, s.cur, [true]) && t.cur.index < |s.open| == |t.open|
      && Opened(c, s.maps.blocks, s.free, s.open, t.cur.index, t.maps.blocks, t.free, t.open)
      && t.maps == s.maps.(blocks := t.maps.blocks)
      && Sound(c, t) && !Full(t.maps.blocks[t.open[t.cur.index]], c.pagesInBlock)
      && forall b | b in s.maps.blocks :: b in t.maps.blocks && t.maps.blocks[b] == s.maps.blocks[b]
  {
    var k := Next(c, s.cur, [true]).index;
    if Full(s.maps.blocks[s.open[k]], c.pagesInBlock) && |s.free| > 0 {
      var i := TakenAt(s.free, c.pageCountToMaxPerf, k);
      TakenFromFree(c, s.free, i);
      FreshHasNothingValid(s.free[i], c.pagesInBlock, c.ioUnitInPage);
      OpenedKeepsOpen(c, s.maps.blocks, s.free, s.open, k, s.maps.blocks[s.free[i].idx := s.free[i]],
        Without(s.free, i), s.open[k := s.free[i].idx]);
    }
  }

  lemma {:induction false} TakenFromFree(c: Config, free: seq<BlockState>, i: nat)
    requires FreeListOk(c, free) && i < |free|
    ensures free[i] in free && FreeListOk(c, Without(free, i))
    ensures free[i].idx < c.totalPhysicalBlocks && Fresh(free[i], c.pagesInBlock, c.ioUnitInPage)
    ensures forall b | b in Without(free, i) :: b in free && b.idx != free[i].idx
  {
    WithoutOk(c, free, i);
    WithoutElements(free, i);
    forall b | b in Without(free, i) ensures b in free && b.idx != free[i].idx {
      var j :| 0 <= j < |free| - 1 && Without(free, i)[j] == b;
    }
  }

  // The LPN stored in a page.
  function StoredAt(s: Maps, at: Location): nat
    requires at.block in s.blocks && at.page < |s.blocks[at.block].lpns| && |s.blocks[at.block].lpns[at.page]| > 0
  {
    s.blocks[at.block].lpns[at.page][0]
  }

  ghost predicate FullPage(c: Config, s: Maps, at: Location) {
    at.block in s.blocks && at.page < c.pagesInBlock && Full(s.blocks[at.block], c.pagesInBlock)
  }

  ghost predicate FullPages(c: Config, s: Maps, pages: seq<Location>) {
    forall k | 0 <= k < |pages| :: FullPage(c, s, pages[k])
  }

  lemma {:induction false} FullPageIs(c: Config, s: Maps, at: Location)
    requires MapsSound(c, s) && FullPage(c, s, at)
    ensures var b := s.blocks[at.block];
      && Shaped(b, c.pagesInBlock, 1) && b.next[0] == c.pagesInBlock && |b.next| == 1 && at.page < |b.lpns|
      && |b.lpns[at.page]| == 1 && Physical(at.block, at.page, 0) in s.flash
  {
    assert MaxOf(s.blocks[at.block].next) in s.blocks[at.block].next;
  }

  // One page is copied, valid or not, to the entry of the LPN stored in it. None is the panic on a missing
  // entry or for lack of a free block.
  ghost function CopyPage(c: Config, s: Ftl, at: Location): Option<Ftl>
    requires Sound(c, s) && FullPage(c, s.maps, at)
  {
    OpenNextSound(c, s);
    FullPageIs(c, s.maps, at);
    if OpenNext(c, s).None? then None
    else
      var t := OpenNext(c, s).value;
      var d, l := t.open[t.cur.index], StoredAt(t.maps, at);
      if l !in t.maps.table then None
      else
        RoomAt(c, t.maps, d, at);
        Some(t.(maps := CopyTo(t.maps, at, d)))
  }

  // The page becomes invalid, and its data go to block d, at its write pointer.
  ghost function CopyTo(s: Maps, at: Location, d: nat): Maps
    requires CanCopy(s, at, d)
  {
    WriteAt(InvalidateAt(s, at.block, at.page, 0), d, StoredAt(s, at), 0, s.flash[Physical(at.block, at.page, 0)])
  }

  ghost predicate CanCopy(s: Maps, at: Location, d: nat) {
    && at.block in s.blocks && at.page < |s.blocks[at.block].lpns| && |s.blocks[at.block].lpns[at.page]| > 0
    && at.page < |s.blocks[at.block].valid| && |s.blocks[at.block].valid[at.page]| > 0
    && Physical(at.block, at.page, 0) in s.flash && at.block != d
    && d in s.blocks && |s.blocks[d].next| > 0
    && StoredAt(s, at) in s.table && |s.table[StoredAt(s, at)]| > 0
    && var p := s.blocks[d].next[0];
       && p < |s.blocks[d].valid| && p < |s.blocks[d].erased| && p < |s.blocks[d].lpns|
       && |s.blocks[d].valid[p]| > 0 && |s.blocks[d].erased[p]| > 0 && |s.blocks[d].lpns[p]| > 0
  }

  lemma {:induction false} RoomAt(c: Config, s: Maps, d: nat, at: Location)
    requires MapsSound(c, s) && FullPage(c, s, at) && d in s.blocks && !Full(s.blocks[d], c.pagesInBlock)
    requires at.page < |s.blocks[at.block].lpns| && |s.blocks[at.block].lpns[at.page]| > 0
    requires StoredAt(s, at) in s.table
    ensures CanCopy(s, at, d) && s.blocks[d].next[0] < c.pagesInBlock
  {
    FullPageIs(c, s, at);
    assert Shaped(s.blocks[d], c.pagesInBlock, 1);
    MaxBelow(s.blocks[d].next, s.blocks[d].next[0]);
  }

  // Full blocks stay as they are, but for valid bits, which are only cleared.
  ghost predicate FullSame(c: Config, s: Maps, t: Maps) {
    forall b, p: nat | b in s.blocks && Full(s.blocks[b], c.pagesInBlock) && p < c.pagesInBlock ::
      FullSameAt(s, t, b, p)
  }

  ghost predicate FullSameAt(s: Maps, t: Maps, b: nat, p: nat) {
    && b in s.blocks && b in t.blocks && t.blocks[b].next == s.blocks[b].next && t.blocks[b].lpns == s.blocks[b].lpns
    && Physical(b, p, 0) in s.flash && Physical(b, p, 0) in t.flash
    && t.flash[Physical(b, p, 0)] == s.flash[Physical(b, p, 0)]
    && p < |t.blocks[b].valid| && |t.blocks[b].valid[p]| == 1 && p < |s.blocks[b].valid| && |s.blocks[b].valid[p]| == 1
    && (t.blocks[b].valid[p][0] ==> s.blocks[b].valid[p][0])
  }

  // What one copy does.
  ghost predicate Copied(c: Config, s: Maps, t: Maps, at: Location)
    requires MapsSound(c, s) && FullPage(c, s, at)
  {
    FullPageIs(c, s, at);
    var l := StoredAt(s, at);
    && l in s.table && t.table.Keys == s.table.Keys && s.blocks.Keys <= t.blocks.Keys && FullSame(c, s, t)
    && (forall k: nat ::
          Look(c, t, k, 0) ==
          if k == l then Some(s.flash[Physical(at.block, at.page, 0)]) else Look(c, s, k, 0))
    && (forall k | k in s.table && k != l :: t.table[k] == s.table[k])
    && |t.table[l]| == 1
    && (t.table[l][0].block in s.blocks ==> !Full(s.blocks[t.table[l][0].block], c.pagesInBlock))
    && t.table[l][0].block in t.blocks
    && at.block in t.blocks && at.page < |t.blocks[at.block].valid| && |t.blocks[at.block].valid[at.page]| == 1
    && !t.blocks[at.block].valid[at.page][0]
  }

  lemma {:induction false} CopyIs(s: Maps, at: Location, d: nat)
    requires CanCopy(s, at, d)
    ensures CopyTo(s, at, d) ==
      Maps(s.table[StoredAt(s, at) := s.table[StoredAt(s, at)][0 := Location(d, s.blocks[d].next[0])]],
           s.blocks[at.block := Invalidated(s.blocks[at.block], at.page, 0)]
             [d := Written(s.blocks[d], s.blocks[d].next[0], StoredAt(s, at), 0)],
           s.flash[Physical(d, s.blocks[d].next[0], 0) := s.flash[Physical(at.block, at.page, 0)]])
  {
  }

  lemma {:induction false} CopyBlocks(c: Config, s: Maps, at: Location, d: nat)
    requires MapsSound(c, s) && FullPage(c, s, at) && d in s.blocks && CanCopy(s, at, d)
    requires s.blocks[d].next[0] < c.pagesInBlock
    ensures var t := CopyTo(s, at, d);
      && BlocksWellFormed(c, t) && t.blocks.Keys == s.blocks.Keys
      && (forall b | b in s.blocks && b != d ::
            t.blocks[b].next == s.blocks[b].next && t.blocks[b].lpns == s.blocks[b].lpns)
      && t.blocks[d].next == [s.blocks[d].next[0] + 1] && |s.blocks[d].next| == 1
      && (forall b | b in s.blocks && b != d && b != at.block :: t.blocks[b] == s.blocks[b])
      && t.blocks[at.block] == Invalidated(s.blocks[at.block], at.page, 0)
  {
    hide WellFormed, MapsSound, Full, CopyTo;
    BlockIs(c, s, at.block);
    BlockIs(c, s, d);
    CopyIs(s, at, d);
    InvalidateKeeps(s.blocks[at.block], at.page, 0, c.pagesInBlock, 1);
    WriteKeeps(s.blocks[d], s.blocks[d].next[0], StoredAt(s, at), 0, c.pagesInBlock, 1);
    assert s.blocks[d].next[0 := s.blocks[d].next[0] + 1] == [s.blocks[d].next[0] + 1];
  }

  lemma {:induction false} BlockIs(c: Config, s: Maps, b: nat)
    requires MapsSound(c, s) && b in s.blocks
    ensures BlocksWellFormed(c, s) && c.ioUnitInPage == 1
    ensures WellFormed(s.blocks[b], c.pagesInBlock, 1) && |s.blocks[b].next| == 1 && s.blocks[b].idx == b
  {
  }

  lemma {:induction false} CopyTable(c: Config, s: Maps, at: Location, d: nat)
    requires MapsSound(c, s) && FullPage(c, s, at) && d in s.blocks && CanCopy(s, at, d)
    requires s.blocks[d].next[0] < c.pagesInBlock
    ensures MapsSound(c, CopyTo(s, at, d))
  {
    hide WellFormed, Full, FullPage, CopyTo;
    var t, p := CopyTo(s, at, d), s.blocks[d].next[0];
    CopyBlocks(c, s, at, d);
    CopyIs(s, at, d);
    assert t.table[StoredAt(s, at)] == [Location(d, p)];
    OneNext(c, s);
    OneNext(c, t);
    forall l | l in s.table ensures l != StoredAt(s, at) ==> t.table[l] == s.table[l] { }
  }

  lemma {:induction false} OneNext(c: Config, s: Maps)
    requires BlocksWellFormed(c, s) && c.ioUnitInPage == 1
    ensures forall b | b in s.blocks :: |s.blocks[b].next| == 1
  {
  }

  lemma {:induction false} CopyReads(c: Config, s: Maps, at: Location, d: nat)
    requires MapsSound(c, s) && FullPage(c, s, at) && d in s.blocks && CanCopy(s, at, d)
    requires s.blocks[d].next[0] < c.pagesInBlock
    ensures forall k: nat ::
      Look(c, CopyTo(s, at, d), k, 0) ==
      if k == StoredAt(s, at) then Some(s.flash[Physical(at.block, at.page, 0)]) else Look(c, s, k, 0)
  {
    var t, p := CopyTo(s, at, d), s.blocks[d].next[0];
    assert t.table[StoredAt(s, at)] == [Location(d, p)];
    assert d < c.totalPhysicalBlocks;
    hide WellFormed, Full, FullPage;
    forall k: nat ensures Look(c, t, k, 0) ==
      if k == StoredAt(s, at) then Some(s.flash[Physical(at.block, at.page, 0)]) else Look(c, s, k, 0)
    {
      if k != StoredAt(s, at) && k in s.table && Mapped(c, s.table[k][0]) {
        assert s.table[k][0] != Location(d, p);
      }
    }
  }

  lemma {:induction false} CopyKeepsFull(c: Config, s: Maps, at: Location, d: nat)
    requires MapsSound(c, s) && FullPage(c, s, at) && d in s.blocks && CanCopy(s, at, d)
    requires s.blocks[d].next[0] < c.pagesInBlock && !Full(s.blocks[d], c.pagesInBlock)
    ensures FullSame(c, s, CopyTo(s, at, d))
  {
    hide MapsSound, Full, CopyTo, CanWrite;
    var t := CopyTo(s, at, d);
    CopyBlocks(c, s, at, d);
    CopyIs(s, at, d);
    forall b, p: nat | b in s.blocks && Full(s.blocks[b], c.pagesInBlock) && p < c.pagesInBlock
      ensures FullSameAt(s, t, b, p)
    {
      FullPageIs(c, s, Location(b, p));
    }
  }

  lemma {:induction false} CopyToCopies(c: Config, s: Maps, at: Location, d: nat)
    requires MapsSound(c, s) && FullPage(c, s, at) && d in s.blocks && CanCopy(s, at, d)
    requires s.blocks[d].next[0] < c.pagesInBlock && !Full(s.blocks[d], c.pagesInBlock)
    ensures Copied(c, s, CopyTo(s, at, d), at)
  {
    hide FullSame, Look, MapsSound, Full;
    CopyBlocks(c, s, at, d);
    CopyReads(c, s, at, d);
    CopyKeepsFull(c, s, at, d);
    FullPageIs(c, s, at);
    TableIs(c, s, StoredAt(s, at));
  }

  lemma {:induction false} TableIs(c: Config, s: Maps, l: nat)
    requires MapsSound(c, s) && l in s.table
    ensures |s.table[l]| == 1
  {
  }

  // ---------- a whole collection ----------

  // A copy takes a page of the open block in turn.
  lemma {:induction false} CopyPageCopies(c: Config, s: Ftl, at: Location)
    requires Sound(c, s) && FullPage(c, s.maps, at)
    ensures at.page < |s.maps.blocks[at.block].lpns| && |s.maps.blocks[at.block].lpns[at.page]| > 0
    ensures CopyPage(c, s, at).None? <==> OpenNext(c, s).None? || StoredAt(s.maps, at) !in s.maps.table
    ensures CopyPage(c, s, at).Some? ==>
      var t, r := OpenNext(c, s).value, CopyPage(c, s, at).value;
      && Sound(c, r) && Copied(c, s.maps, r.maps, at)
      && r == t.(maps := r.maps) && r.maps.blocks.Keys == t.maps.blocks.Keys
      && (forall b | b in t.maps.blocks && b != t.open[t.cur.index] :: r.maps.blocks[b].next == t.maps.blocks[b].next)
      && 1 <= MaxOf(r.maps.blocks[t.open[t.cur.index]].next) <= MaxOf(t.maps.blocks[t.open[t.cur.index]].next) + 1
  {
    hide Copied, Sound, MapsSound, CopyTo, CanCopy;
    SoundMaps(c, s);
    OpenNextSound(c, s);
    FullPageIs(c, s.maps, at);
    if CopyPage(c, s, at).Some? {
      var t := OpenNext(c, s).value;
      var d := t.open[t.cur.index];
      SoundMaps(c, t);
      RoomAt(c, t.maps, d, at);
      CopyBlocks(c, t.maps, at, d);
      CopyTable(c, t.maps, at, d);
      CopyToCopies(c, t.maps, at, d);
      CopiedSince(c, s.maps, t.maps, CopyTo(t.maps, at, d), at);
      StillSound(c, t, CopyTo(t.maps, at, d));
      OneMore(t.maps.blocks[d].next);
    }
  }

  lemma {:induction false} SoundMaps(c: Config, s: Ftl)
    requires Sound(c, s)
    ensures MapsSound(c, s.maps) && |s.open| == c.pageCountToMaxPerf && s.cur.index < |s.open|
    ensures OpenBlocks(s.maps.blocks, s.open) && |s.cur.iomap| == 1
  {
  }

  lemma {:induction false} StillSound(c: Config, s: Ftl, t: Maps)
    requires Sound(c, s) && MapsSound(c, t) && t.blocks.Keys == s.maps.blocks.Keys
    ensures Sound(c, s.(maps := t))
  {
  }

  lemma {:induction false} OneMore(next: seq<nat>)
    requires |next| == 1
    ensures MaxOf(next) == next[0] && MaxOf([next[0] + 1]) == next[0] + 1
  {
  }

  // State s became t by opening a block and u by the copy.
  lemma {:induction false} CopiedSince(c: Config, s: Maps, t: Maps, u: Maps, at: Location)
    requires MapsSound(c, s) && FullPage(c, s, at) && MapsSound(c, t) && FullPage(c, t, at) && Copied(c, t, u, at)
    requires t == s.(blocks := t.blocks) && forall b | b in s.blocks :: b in t.blocks && t.blocks[b] == s.blocks[b]
    ensures Copied(c, s, u, at)
  {
    hide MapsSound, Full;
    FullPageIs(c, s, at);
    FullPageIs(c, t, at);
    forall k: nat ensures Look(c, s, k, 0) == Look(c, t, k, 0) { }
    forall b, p: nat | b in s.blocks && Full(s.blocks[b], c.pagesInBlock) && p < c.pagesInBlock
      ensures FullSameAt(s, u, b, p)
    {
      assert FullSameAt(t, u, b, p);
    }
  }

  // The pages are copied in order.
  ghost function Collect(c: Config, s: Ftl, pages: seq<Location>, n: nat): (r: Option<Ftl>)
    requires Sound(c, s) && FullPages(c, s.maps, pages) && n <= |pages|
    ensures r.Some? ==> Sound(c, r.value) && FullPages(c, r.value.maps, pages)
  {
    if n == 0 then Some(s)
    else
      var t := Collect(c, s, pages, n - 1);
      if t.None? then None
      else
        StillFull(c, t.value, pages, pages[n - 1]);
        CopyPage(c, t.value, pages[n - 1])
  }

  lemma {:induction false} StillFull(c: Config, s: Ftl, pages: seq<Location>, at: Location)
    requires Sound(c, s) && FullPages(c, s.maps, pages) && FullPage(c, s.maps, at)
    ensures CopyPage(c, s, at).Some? ==>
      Sound(c, CopyPage(c, s, at).value) && FullPages(c, CopyPage(c, s, at).value.maps, pages)
  {
    hide Sound, MapsSound, CopyPage, Look, Full;
    CopyPageCopies(c, s, at);
    if CopyPage(c, s, at).Some? {
      var r := CopyPage(c, s, at).value;
      SoundMaps(c, s);
      forall k | 0 <= k < |pages| ensures FullPage(c, r.maps, pages[k]) {
        assert FullSameAt(s.maps, r.maps, pages[k].block, pages[k].page);
        SameFull(s.maps.blocks[pages[k].block], r.maps.blocks[pages[k].block], c.pagesInBlock);
      }
    }
  }

  lemma {:induction false} SameFull(b: BlockState, b': BlockState, n: nat)
    requires b.next == b'.next
    ensures Full(b, n) <==> Full(b', n)
  {
  }

  // The last of the first n pages that stores the LPN.
  ghost function LastStoring(c: Config, s: Maps, pages: seq<Location>, n: nat, l: nat): (r: Option<Location>)
    requires MapsSound(c, s) && FullPages(c, s, pages) && n <= |pages|
    ensures r.Some? ==> r.value in pages[..n] && FullPage(c, s, r.value)
    ensures r.Some? ==> Physical(r.value.block, r.value.page, 0) in s.flash
  {
    if n == 0 then None
    else
      FullPageIs(c, s, pages[n - 1]);
      if StoredAt(s, pages[n - 1]) == l then Some(pages[n - 1]) else LastStoring(c, s, pages, n - 1, l)
  }

  // What a read finds after the first n pages were copied.
  ghost function Found(c: Config, s: Maps, pages: seq<Location>, n: nat, l: nat): Option<nat>
    requires MapsSound(c, s) && FullPages(c, s, pages) && n <= |pages|
  {
    match LastStoring(c, s, pages, n, l)
    case None => Look(c, s, l, 0)
    case Some(at) => Some(s.flash[Physical(at.block, at.page, 0)])
  }

  // From s on, the first n pages were copied, and t is reached.
  ghost predicate Progress(c: Config, s: Maps, t: Maps, pages: seq<Location>, n: nat)
    requires MapsSound(c, s) && FullPages(c, s, pages) && n <= |pages|
  {
    && t.table.Keys == s.table.Keys && s.blocks.Keys <= t.blocks.Keys && FullSame(c, s, t)
    && (forall l: nat :: Look(c, t, l, 0) == Found(c, s, pages, n, l))
    && (forall l | l in s.table :: Resides(c, s, t, l, LastStoring(c, s, pages, n, l).Some?))
    && (forall j | 0 <= j < n :: Cleared(t, pages[j]))
  }

  // The entry is as before, or, once moved, outside the blocks that were full.
  ghost predicate Resides(c: Config, s: Maps, t: Maps, l: nat, moved: bool) {
    && l in s.table && l in t.table
    && if moved then
         && |t.table[l]| == 1 && t.table[l][0].block in t.blocks
         && (t.table[l][0].block in s.blocks ==> !Full(s.blocks[t.table[l][0].block], c.pagesInBlock))
       else t.table[l] == s.table[l]
  }

  ghost predicate Cleared(s: Maps, at: Location) {
    && at.block in s.blocks && at.page < |s.blocks[at.block].valid| && |s.blocks[at.block].valid[at.page]| == 1
    && !s.blocks[at.block].valid[at.page][0]
  }

  lemma {:induction false} ProgressStarts(c: Config, s: Maps, pages: seq<Location>)
    requires MapsSound(c, s) && FullPages(c, s, pages)
    ensures Progress(c, s, s, pages, 0)
  {
    forall b, p: nat | b in s.blocks && Full(s.blocks[b], c.pagesInBlock) && p < c.pagesInBlock
      ensures FullSameAt(s, s, b, p)
    {
      FullPageIs(c, s, Location(b, p));
    }
  }

  lemma {:induction false} ProgressNext(c: Config, s: Maps, t: Maps, u: Maps, pages: seq<Location>, n: nat)
    requires MapsSound(c, s) && FullPages(c, s, pages) && n < |pages| && Progress(c, s, t, pages, n)
    requires MapsSound(c, t) && FullPage(c, t, pages[n]) && Copied(c, t, u, pages[n])
    ensures Progress(c, s, u, pages, n + 1)
  {
    hide MapsSound, Look, Full;
    var at := pages[n];
    FullPageIs(c, s, at);
    FullPageIs(c, t, at);
    assert FullSameAt(s, t, at.block, at.page);
    forall b, p: nat | b in s.blocks && Full(s.blocks[b], c.pagesInBlock) && p < c.pagesInBlock
      ensures FullSameAt(s, u, b, p)
    {
      FullStays(s, t, u, b, p, c);
    }
    forall l: nat ensures Look(c, u, l, 0) == Found(c, s, pages, n + 1, l) {
      assert Look(c, t, l, 0) == Found(c, s, pages, n, l);
    }
    forall l | l in s.table ensures Resides(c, s, u, l, LastStoring(c, s, pages, n + 1, l).Some?) {
      ResidesNext(c, s, t, u, at, l, LastStoring(c, s, pages, n, l).Some?);
    }
    forall j | 0 <= j < n + 1 ensures Cleared(u, pages[j]) {
      if j < n {
        assert FullPage(c, s, pages[j]) && Cleared(t, pages[j]);
        FullStays(s, t, u, pages[j].block, pages[j].page, c);
      }
    }
  }

  lemma {:induction false} FullStays(s: Maps, t: Maps, u: Maps, b: nat, p: nat, c: Config)
    requires FullSame(c, s, t) && FullSame(c, t, u)
    requires b in s.blocks && Full(s.blocks[b], c.pagesInBlock) && p < c.pagesInBlock
    ensures FullSameAt(s, u, b, p) && FullSameAt(t, u, b, p)
  {
    assert FullSameAt(s, t, b, p);
    assert FullSameAt(t, u, b, p);
  }

  lemma {:induction false} ResidesNext(c: Config, s: Maps, t: Maps, u: Maps, at: Location, l: nat, moved: bool)
    requires MapsSound(c, s) && MapsSound(c, t) && FullPage(c, t, at) && Copied(c, t, u, at) && FullSame(c, s, t)
    requires FullPage(c, s, at) && Resides(c, s, t, l, moved) && s.blocks.Keys <= t.blocks.Keys
    ensures at.page < |t.blocks[at.block].lpns| && |t.blocks[at.block].lpns[at.page]| > 0
    ensures Resides(c, s, u, l, moved || StoredAt(t, at) == l)
  {
    hide MapsSound, Look;
    FullPageIs(c, t, at);
    if StoredAt(t, at) == l {
      var d := u.table[l][0].block;
      assert d in s.blocks && Full(s.blocks[d], c.pagesInBlock) ==> FullSameAt(s, t, d, at.page);
    }
  }

  ghost predicate Funded1(c: Config, s: Ftl, F: nat, m: nat, calls: nat) {
    Funded(c, s.maps.blocks, s.open, |s.free|, F, m, calls)
  }

  // A copy costs one page of the open blocks, and finds one while copies are due.
  lemma {:induction false} CopyFunded(c: Config, s: Ftl, at: Location, F: nat, m: nat, calls: nat)
    requires Sound(c, s) && FullPage(c, s.maps, at) && Funded1(c, s, F, m, calls) && calls < m * c.pagesInBlock
    ensures OpenNext(c, s).Some?
    ensures CopyPage(c, s, at).Some? ==> Funded1(c, CopyPage(c, s, at).value, F, m, calls + 1)
  {
    hide Sound, MapsSound, CopyPage, OpenNext, Funded, Full, Opened, Copied;
    SoundMaps(c, s);
    OpenNextSound(c, s);
    CopyPageCopies(c, s, at);
    AllWellFormed(c, s.maps);
    if OpenNext(c, s).None? {
      FundedCanOpen(c, s.maps.blocks, s.open, |s.free|, F, m, calls, Next(c, s.cur, [true]).index);
      assert false;
    }
    if CopyPage(c, s, at).Some? {
      var t, r := OpenNext(c, s).value, CopyPage(c, s, at).value;
      OpenedInUse(c, s.maps.blocks, s.free, s.open, t.cur.index, t.maps.blocks, t.free, t.open);
      FundedStep(c, s.maps.blocks, s.free, s.open, t.cur.index, t.maps.blocks, t.free, t.open, r.maps.blocks, F, m,
        calls);
    }
  }

  lemma {:induction false} OpenedInUse(c: Config, blocks: map<nat, BlockState>, free: seq<BlockState>, open: seq<nat>,
      k: nat, blocks': map<nat, BlockState>, free': seq<BlockState>, open': seq<nat>)
    requires k < |open| && c.Valid() && Opened(c, blocks, free, open, k, blocks', free', open')
    ensures k < |open'| && open'[k] in blocks'
  {
  }

  lemma {:induction false} AllWellFormed(c: Config, s: Maps)
    requires MapsSound(c, s)
    ensures c.Valid() && forall b | b in s.blocks :: WellFormed(s.blocks[b], c.pagesInBlock, c.ioUnitInPage)
  {
  }

  // Every page stores an LPN in the table.
  ghost predicate AllStored(c: Config, s: Maps, pages: seq<Location>, n: nat)
    requires MapsSound(c, s) && FullPages(c, s, pages) && n <= |pages|
  {
    forall k | 0 <= k < n :: IsStored(c, s, pages[k])
  }

  ghost predicate IsStored(c: Config, s: Maps, at: Location)
    requires MapsSound(c, s) && FullPage(c, s, at)
  {
    FullPageIs(c, s, at);
    StoredAt(s, at) in s.table
  }

  // With enough free blocks copying pages panics exactly if one of them stores an LPN that is not in the
  // table. Otherwise every LPN reads as the last page that stores it, or, without one, as before.
  lemma {:induction false} CollectReads(c: Config, s: Ftl, pages: seq<Location>, n: nat, F: nat, m: nat)
    requires Sound(c, s) && FullPages(c, s.maps, pages) && n <= |pages|
    requires Funded1(c, s, F, m, 0) && n <= m * c.pagesInBlock
    ensures Collect(c, s, pages, n).Some? <==> AllStored(c, s.maps, pages, n)
    ensures Collect(c, s, pages, n).Some? ==>
      Progress(c, s.maps, Collect(c, s, pages, n).value.maps, pages, n) &&
      Funded1(c, Collect(c, s, pages, n).value, F, m, n)
  {
    hide Sound, MapsSound, Funded1, Progress, CopyPage, IsStored, FullPage, Copied, OpenNext;
    SoundMaps(c, s);
    if n == 0 {
      ProgressStarts(c, s.maps, pages);
    } else {
      CollectReads(c, s, pages, n - 1, F, m);
      var t := Collect(c, s, pages, n - 1);
      if t.Some? {
        SoundMaps(c, t.value);
        CopyFunded(c, t.value, pages[n - 1], F, m, n - 1);
        CopyPageCopies(c, t.value, pages[n - 1]);
        SameStored(c, s.maps, t.value.maps, pages, n - 1);
        if Collect(c, s, pages, n).Some? {
          ProgressNext(c, s.maps, t.value.maps, Collect(c, s, pages, n).value.maps, pages, n - 1);
        }
      }
    }
  }

  lemma {:induction false} SameStored(c: Config, s: Maps, t: Maps, pages: seq<Location>, n: nat)
    requires MapsSound(c, s) && FullPages(c, s, pages) && n < |pages| && Progress(c, s, t, pages, n)
    requires MapsSound(c, t) && FullPage(c, t, pages[n])
    ensures pages[n].page < |t.blocks[pages[n].block].lpns| && |t.blocks[pages[n].block].lpns[pages[n].page]| > 0
    ensures IsStored(c, s, pages[n]) <==> StoredAt(t, pages[n]) in t.table
  {
    hide MapsSound;
    FullPageIs(c, s, pages[n]);
    FullPageIs(c, t, pages[n]);
    assert FullSameAt(s, t, pages[n].block, pages[n].page);
  }

  // The pages of the victims, in the order they are collected.
  function InOrder(c: Config, victims: seq<nat>): (pages: seq<Location>)
    ensures |pages| == |victims| * c.pagesInBlock
  {
    if |victims| == 0 then []
    else
      var n := |victims| - 1;
      InOrder(c, victims[..n]) + seq(c.pagesInBlock, p requires 0 <= p => Location(victims[n], p))
  }

  lemma {:induction false} InOrderPages(c: Config, victims: seq<nat>)
    ensures forall at :: at in InOrder(c, victims) <==> at.block in victims && at.page < c.pagesInBlock
  {
    if |victims| > 0 {
      var n := |victims| - 1;
      InOrderPages(c, victims[..n]);
      var last := seq(c.pagesInBlock, p requires 0 <= p => Location(victims[n], p));
      assert victims == victims[..n] + [victims[n]];
      forall at ensures at in last <==> at.block == victims[n] && at.page < c.pagesInBlock {
        if at.block == victims[n] && at.page < c.pagesInBlock {
          assert last[at.page] == at;
        }
      }
    }
  }

  lemma {:induction false} VictimPages(c: Config, s: Maps, victims: seq<nat>)
    requires Victims(c, s.blocks, victims)
    ensures FullPages(c, s, InOrder(c, victims))
    ensures forall at :: at in InOrder(c, victims) <==> at.block in victims && at.page < c.pagesInBlock
  {
    InOrderPages(c, victims);
    forall k | 0 <= k < |InOrder(c, victims)| ensures FullPage(c, s, InOrder(c, victims)[k]) {
      assert InOrder(c, victims)[k] in InOrder(c, victims);
    }
  }

  // The victims can be erased without a panic, and no entry points to one.
  ghost predicate Erasable(c: Config, s: Maps, victims: seq<nat>) {
    && (forall v | v in victims :: v in s.blocks && NothingValid(s.blocks[v]))
    && (forall l | l in s.table && |s.table[l]| == 1 && Mapped(c, s.table[l][0]) ::
          s.table[l][0].block in s.blocks && s.table[l][0].block !in victims)
  }

  // What a collection finds: victims, and enough free blocks for them.
  ghost predicate Collectable(c: Config, s: Ftl, victims: seq<nat>) {
    && Sound(c, s) && MapsOk(c, s.maps) && Victims(c, s.maps.blocks, victims)
    && |victims| + c.pageCountToMaxPerf <= |s.free|
  }

  ghost function Collected(c: Config, s: Ftl, victims: seq<nat>): Option<Ftl>
    requires Collectable(c, s, victims)
  {
    VictimPages(c, s.maps, victims);
    Collect(c, s, InOrder(c, victims), |victims| * c.pagesInBlock)
  }

  // The last page of the victims that stores the LPN.
  ghost function LastCopied(c: Config, s: Ftl, victims: seq<nat>, l: nat): Option<Location>
    requires Collectable(c, s, victims)
  {
    SoundMaps(c, s);
    VictimPages(c, s.maps, victims);
    LastStoring(c, s.maps, InOrder(c, victims), |InOrder(c, victims)|, l)
  }

  // A collection panics exactly if a page of a victim stores an LPN that is not in the table. Otherwise the
  // victims can be erased, and every LPN reads as the last of their pages that stores it, or as before.
  lemma {:induction false} CollectionReads(c: Config, s: Ftl, victims: seq<nat>)
    requires Collectable(c, s, victims)
    ensures MapsSound(c, s.maps) && FullPages(c, s.maps, InOrder(c, victims))
    ensures Collected(c, s, victims).Some? <==>
      forall at: Location | at.block in victims && at.page < c.pagesInBlock ::
        FullPage(c, s.maps, at) && IsStored(c, s.maps, at)
    ensures Collected(c, s, victims).Some? ==>
      var t := Collected(c, s, victims).value;
      && Sound(c, t) && Erasable(c, t.maps, victims)
      && forall l: nat :: Look(c, t.maps, l, 0) == Found(c, s.maps, InOrder(c, victims), |InOrder(c, victims)|, l)
  {
    hide Sound, MapsSound, MapsOkExcept, IsStored, FullPage, Look, Found;
    var pages := InOrder(c, victims);
    SoundMaps(c, s);
    VictimPages(c, s.maps, victims);
    AllWellFormed(c, s.maps);
    FundedStart(c, s.maps.blocks, s.open, |s.free|, |victims|);
    CollectReads(c, s, pages, |pages|, |s.free|, |victims|);
    if AllStored(c, s.maps, pages, |pages|) {
      forall at: Location | at.block in victims && at.page < c.pagesInBlock
        ensures FullPage(c, s.maps, at) && IsStored(c, s.maps, at)
      {
        assert at in pages;
      }
      Outlasts(c, s, victims, Collected(c, s, victims).value);
    } else {
      var k :| 0 <= k < |pages| && !IsStored(c, s.maps, pages[k]);
      assert pages[k] in pages;
    }
  }

  lemma {:induction false} Outlasts(c: Config, s: Ftl, victims: seq<nat>, t: Ftl)
    requires Collectable(c, s, victims) && Sound(c, t)
    requires MapsSound(c, s.maps) && FullPages(c, s.maps, InOrder(c, victims))
    requires Progress(c, s.maps, t.maps, InOrder(c, victims), |InOrder(c, victims)|)
    ensures Erasable(c, t.maps, victims)
  {
    hide Sound, MapsSound, MapsOkExcept, Look;
    var pages := InOrder(c, victims);
    SoundMaps(c, t);
    VictimPages(c, s.maps, victims);
    forall v | v in victims ensures v in t.maps.blocks && NothingValid(t.maps.blocks[v]) {
      VictimCleared(c, s.maps, t.maps, victims, v);
    }
    forall l | l in t.maps.table && |t.maps.table[l]| == 1 && Mapped(c, t.maps.table[l][0])
      ensures t.maps.table[l][0].block in t.maps.blocks && t.maps.table[l][0].block !in victims
    {
      assert Resides(c, s.maps, t.maps, l, LastStoring(c, s.maps, pages, |pages|, l).Some?);
      if LastStoring(c, s.maps, pages, |pages|, l).None? {
        NotInVictims(c, s.maps, victims, l);
      }
    }
  }

  lemma {:induction false} VictimCleared(c: Config, s: Maps, t: Maps, victims: seq<nat>, v: nat)
    requires MapsSound(c, s) && FullPages(c, s, InOrder(c, victims)) && MapsSound(c, t) && v in victims
    requires Progress(c, s, t, InOrder(c, victims), |InOrder(c, victims)|)
    ensures v in t.blocks && NothingValid(t.blocks[v])
  {
    hide Progress;
    Clears(c, s, t, victims, v, 0);
    forall p: nat | p < c.pagesInBlock ensures v in t.blocks && Cleared(t, Location(v, p)) {
      Clears(c, s, t, victims, v, p);
    }
    BlockIs(c, t, v);
    forall p, i | 0 <= p < |t.blocks[v].valid| && 0 <= i < |t.blocks[v].valid[p]| ensures !t.blocks[v].valid[p][i] {
      assert Cleared(t, Location(v, p));
    }
  }

  lemma {:induction false} Clears(c: Config, s: Maps, t: Maps, victims: seq<nat>, v: nat, p: nat)
    requires MapsSound(c, s) && FullPages(c, s, InOrder(c, victims)) && v in victims && p < c.pagesInBlock
    requires Progress(c, s, t, InOrder(c, victims), |InOrder(c, victims)|)
    ensures v in t.blocks && Cleared(t, Location(v, p))
  {
    hide MapsSound;
    InOrderPages(c, victims);
    var pages := InOrder(c, victims);
    assert Location(v, p) in pages;
    var k :| 0 <= k < |pages| && pages[k] == Location(v, p);
    assert Cleared(t, pages[k]);
  }

  // An LPN that no victim stores is not mapped to one.
  lemma {:induction false} NotInVictims(c: Config, s: Maps, victims: seq<nat>, l: nat)
    requires MapsSound(c, s) && MapsOk(c, s) && FullPages(c, s, InOrder(c, victims))
    requires l in s.table && Mapped(c, s.table[l][0])
    requires LastStoring(c, s, InOrder(c, victims), |InOrder(c, victims)|, l).None?
    ensures s.table[l][0].block in s.blocks && s.table[l][0].block !in victims
  {
    var at := s.table[l][0];
    assert Holds(c, s, at.block, at.page, 0, l);
    if at.block in victims {
      InOrderPages(c, victims);
      var pages := InOrder(c, victims);
      var k :| 0 <= k < |pages| && pages[k] == at;
      NoneStores(c, s, pages, |pages|, l, k);
    }
  }

  lemma {:induction false} NoneStores(c: Config, s: Maps, pages: seq<Location>, n: nat, l: nat, k: nat)
    requires MapsSound(c, s) && FullPages(c, s, pages) && k < n <= |pages|
    requires LastStoring(c, s, pages, n, l).None?
    ensures pages[k].page < |s.blocks[pages[k].block].lpns| && |s.blocks[pages[k].block].lpns[pages[k].page]| > 0
    ensures StoredAt(s, pages[k]) != l
  {
    hide MapsSound;
    FullPageIs(c, s, pages[n - 1]);
    if k < n - 1 {
      NoneStores(c, s, pages, n - 1, l, k);
    }
  }

  // The page was written with data of the LPN.
  ghost predicate Stores(s: Maps, at: Location, l: nat) {
    && at.block in s.blocks && |s.blocks[at.block].next| > 0 && at.page < s.blocks[at.block].next[0]
    && at.page < |s.blocks[at.block].lpns| && |s.blocks[at.block].lpns[at.page]| > 0 && StoredAt(s, at) == l
    && Physical(at.block, at.page, 0) in s.flash
  }

  // No two writes of the LPN had the same data.
  ghost predicate DataDiffer(s: Maps, l: nat) {
    forall a: Location, b: Location | Stores(s, a, l) && Stores(s, b, l) && a != b ::
      s.flash[Physical(a.block, a.page, 0)] != s.flash[Physical(b.block, b.page, 0)]
  }

  ghost predicate IsValid(s: Maps, at: Location) {
    && at.block in s.blocks && at.page < |s.blocks[at.block].valid| && |s.blocks[at.block].valid[at.page]| > 0
    && s.blocks[at.block].valid[at.page][0]
  }

  // After a collection an LPN reads as before exactly if no page of a victim stores it, or the last one
  // holds what it reads as; that is its valid page, unless two writes of it had the same data.
  lemma {:induction false} ReadKeptExactly(c: Config, s: Ftl, victims: seq<nat>, l: nat)
    requires Collectable(c, s, victims) && Collected(c, s, victims).Some?
    ensures var same := Look(c, Collected(c, s, victims).value.maps, l, 0) == Look(c, s.maps, l, 0);
      var last := LastCopied(c, s, victims, l);
      && (same <==> last.Some? ==>
           Look(c, s.maps, l, 0) == Some(s.maps.flash[Physical(last.value.block, last.value.page, 0)]))
      && (DataDiffer(s.maps, l) ==> (same <==> (last.Some? ==> IsValid(s.maps, last.value))))
  {
    hide Collectable, Collected, MapsSound, Look, DataDiffer, IsValid;
    CollectableIs(c, s, victims);
    CollectionReads(c, s, victims);
    var last := LastCopied(c, s, victims, l);
    LastStores(c, s.maps, InOrder(c, victims), |InOrder(c, victims)|, l);
    if last.Some? {
      ValidPageRead(c, s.maps, last.value, l);
    }
  }

  lemma {:induction false} CollectableIs(c: Config, s: Ftl, victims: seq<nat>)
    requires Collectable(c, s, victims)
    ensures Sound(c, s) && MapsOk(c, s.maps) && MapsSound(c, s.maps) && FullPages(c, s.maps, InOrder(c, victims))
  {
    VictimPages(c, s.maps, victims);
  }

  lemma {:induction false} LastStores(c: Config, s: Maps, pages: seq<Location>, n: nat, l: nat)
    requires MapsSound(c, s) && FullPages(c, s, pages) && n <= |pages|
    ensures LastStoring(c, s, pages, n, l).Some? ==> Stores(s, LastStoring(c, s, pages, n, l).value, l)
  {
    if n > 0 {
      FullPageIs(c, s, pages[n - 1]);
      LastStores(c, s, pages, n - 1, l);
    }
  }

  // A page that stores an LPN is what the LPN reads as exactly if it is valid.
  lemma {:induction false} ValidPageRead(c: Config, s: Maps, at: Location, l: nat)
    requires MapsOk(c, s) && MapsSound(c, s) && Stores(s, at, l)
    ensures IsValid(s, at) ==> Look(c, s, l, 0) == Some(s.flash[Physical(at.block, at.page, 0)])
    ensures DataDiffer(s, l) && Look(c, s, l, 0) == Some(s.flash[Physical(at.block, at.page, 0)]) ==> IsValid(s, at)
  {
    BlockIs(c, s, at.block);
    if IsValid(s, at) {
      assert Holds(c, s, at.block, at.page, 0, l);
    }
    if Look(c, s, l, 0).Some? {
      var r := s.table[l][0];
      assert Holds(c, s, r.block, r.page, 0, l);
      assert Stores(s, r, l);
      assert IsValid(s, r);
    }
  }

  // ---------- an input ----------

  // LPNs 7, 8, 7, 9 and 6 were written, in blocks of two pages, with one open block. Block 0 is left with an
  // invalid page of LPN 7 and the page of LPN 8.
  function FiveBlocks(): Config { Config(5, 2, 1, 1, true) }

  function Pages(idx: nat, valid0: bool, valid1: bool, lpn0: nat, lpn1: nat, next: nat): BlockState {
    BlockState(idx, [[valid0], [valid1]], [[next == 0], [next < 2]], [[lpn0], [lpn1]], [next], 0)
  }

  function FiveWrites(): Maps {
    Maps(map[7 := [Location(1, 0)], 8 := [Location(0, 1)], 9 := [Location(1, 1)], 6 := [Location(2, 0)]],
         map[0 := Pages(0, false, true, 7, 8, 2), 1 := Pages(1, true, true, 7, 9, 2),
             2 := Pages(2, true, false, 6, 0, 1)],
         map[Physical(0, 0, 0) := 10, Physical(0, 1, 0) := 20, Physical(1, 0, 0) := 11, Physical(1, 1, 0) := 30,
             Physical(2, 0, 0) := 40])
  }

  function AfterFiveWrites(): Ftl {
    Ftl(FiveWrites(), [Pages(3, false, false, 0, 0, 0), Pages(4, false, false, 0, 0, 0)], [2], Cursor(0, [true]))
  }

  // Greedy selection takes block 0, and copying its invalid page brings the overwritten data of LPN 7 back.
  lemma {:induction false} OldDataReturn()
    ensures var c, s, victims: seq<nat> := FiveBlocks(), AfterFiveWrites(), [0];
      && Collectable(c, s, victims) && Collected(c, s, victims).Some?
      && (forall list: seq<nat> | Lightest(c, s.maps.blocks, list, 1) :: list == victims)
      && Look(c, s.maps, 7, 0) == Some(11) && Look(c, Collected(c, s, victims).value.maps, 7, 0) == Some(10)
  {
    hide Sound, MapsSound, MapsOkExcept, Collected, Full;
    var c, s, victims: seq<nat> := FiveBlocks(), AfterFiveWrites(), [0];
    FiveWritesSound();
    WhichAreFull();
    LightestIsZero();
    assert Collectable(c, s, victims);
    CollectionReads(c, s, victims);
    TwoPagesInOrder();
    FullPageIs(c, s.maps, Location(0, 0));
    FullPageIs(c, s.maps, Location(0, 1));
    var pages := InOrder(c, victims);
    assert LastStoring(c, s.maps, pages, 1, 7) == Some(Location(0, 0));
    assert LastStoring(c, s.maps, pages, 2, 7) == Some(Location(0, 0));
    forall at: Location | at.block in victims && at.page < c.pagesInBlock
      ensures FullPage(c, s.maps, at) && IsStored(c, s.maps, at)
    {
      assert at == Location(0, 0) || at == Location(0, 1);
    }
  }

  lemma {:induction false} TwoPagesInOrder()
    ensures InOrder(FiveBlocks(), [0]) == [Location(0, 0), Location(0, 1)]
  {
    assert [0][..0] == [];
    assert InOrder(FiveBlocks(), []) == [];
  }

  lemma {:induction false} WhichAreFull()
    ensures var b := FiveWrites().blocks;
      Full(b[0], 2) && Full(b[1], 2) && !Full(b[2], 2)
  {
    OneMore([1]);
    OneMore([2]);
  }

  lemma {:induction false} LightestIsZero()
    ensures forall list: seq<nat> | Lightest(FiveBlocks(), FiveWrites().blocks, list, 1) :: list == [0]
  {
    var c, blocks := FiveBlocks(), FiveWrites().blocks;
    WhichAreFull();
    hide Full, Victims;
    assert ValidUnits(blocks[0]) == {(1, 0)};
    assert ValidUnits(blocks[1]) == {(0, 0), (1, 0)};
    assert FullBlocks(c, blocks) == {0, 1};
    forall list: seq<nat> | Lightest(c, blocks, list, 1) ensures list == [0] {
      LightestIsFull(c, blocks, list, 1);
      assert list[0] in list;
    }
  }

  lemma {:induction false} LightestIsFull(c: Config, blocks: map<nat, BlockState>, list: seq<nat>, n: nat)
    requires Lightest(c, blocks, list, n)
    ensures forall v | v in list :: v in FullBlocks(c, blocks)
  {
  }

  lemma {:induction false} FiveWritesSound()
    ensures Sound(FiveBlocks(), AfterFiveWrites()) && MapsOk(FiveBlocks(), FiveWrites())
  {
    hide MapsSound, MapsOkExcept, FreeListOk;
    FiveMapsOk();
    FiveMapsSound();
    FreeTwo();
  }

  lemma {:induction false} FiveTable()
    ensures BlocksWellFormed(FiveBlocks(), FiveWrites()) && TableWellFormed(FiveBlocks(), FiveWrites())
  {
    hide WellFormed;
    FiveWellFormed();
  }

  lemma {:induction false} FiveMapsSound()
    ensures MapsSound(FiveBlocks(), FiveWrites())
  {
    hide BlocksWellFormed, TableWellFormed;
    FiveTable();
  }

  lemma {:induction false} FiveMapsOk()
    ensures MapsOk(FiveBlocks(), FiveWrites())
  {
    hide WellFormed, BlocksWellFormed, TableWellFormed, Holds;
    var c, s := FiveBlocks(), FiveWrites();
    FiveTable();
    forall b: nat, p: nat, i: nat, l: nat | Holds(c, s, b, p, i, l)
      ensures i == 0 && l in s.table && s.table[l] == [Location(b, p)] && Physical(b, p, 0) in s.flash
    {
      FiveHold(b, p, i, l);
    }
    FiveEntries();
  }

  lemma {:induction false} FiveHold(b: nat, p: nat, i: nat, l: nat)
    requires BlocksWellFormed(FiveBlocks(), FiveWrites()) && Holds(FiveBlocks(), FiveWrites(), b, p, i, l)
    ensures i == 0 && (p == 0 || p == 1) && l in FiveWrites().table && FiveWrites().table[l] == [Location(b, p)]
    ensures Physical(b, p, 0) in FiveWrites().flash
  {
    hide BlocksWellFormed, WellFormed;
    assert p == 0 || p == 1;
  }

  lemma {:induction false} FiveEntries()
    requires BlocksWellFormed(FiveBlocks(), FiveWrites())
    ensures forall l | l in FiveWrites().table ::
      |FiveWrites().table[l]| == 1 &&
      Holds(FiveBlocks(), FiveWrites(), FiveWrites().table[l][0].block, FiveWrites().table[l][0].page, 0, l)
  {
    hide BlocksWellFormed, WellFormed;
  }

  lemma {:induction false} FiveWellFormed()
    ensures forall b | b in FiveWrites().blocks :: WellFormed(FiveWrites().blocks[b], 2, 1)
  {
  }

  lemma {:induction false} FreeTwo()
    ensures FreeListOk(FiveBlocks(), AfterFiveWrites().free)
  {
  }
}
