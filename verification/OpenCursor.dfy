// The open block in turn: which open positions writing and collecting visit, and what becomes of open
// blocks that are collected.
module OpenCursors {
  import Arithmetic
  import opened Blocks
  import opened Collections
  import opened FreeLists
  import opened MappingTable

  predicate Overlap(a: seq<bool>, b: seq<bool>)
    requires |a| == |b|
  {
    exists i :: 0 <= i < |a| && a[i] && b[i]
  }

  function Union(a: seq<bool>, b: seq<bool>): seq<bool>
    requires |a| == |b|
  {
    seq(|a|, i requires 0 <= i < |a| => a[i] || b[i])
  }

  // The open position in turn, and the unit positions used since it was reached.
  datatype Cursor = Cursor(index: nat, iomap: seq<bool>)

  // The open block a request goes to: the next one in turn when the current round already used
  // one of its unit positions, or always without the random tweak.
  predicate Advances(c: Config, cur: Cursor, iomap: seq<bool>)
    requires |cur.iomap| == |iomap|
  {
    !c.bRandomTweak || Overlap(cur.iomap, iomap)
  }

  function Next(c: Config, cur: Cursor, iomap: seq<bool>): (r: Cursor)
    requires |cur.iomap| == |iomap|
    ensures |r.iomap| == |iomap|
    ensures cur.index < c.pageCountToMaxPerf ==> r.index < c.pageCountToMaxPerf
  {
    if Advances(c, cur, iomap) then Cursor(if cur.index + 1 == c.pageCountToMaxPerf then 0 else cur.index + 1, iomap)
    else Cursor(cur.index, Union(cur.iomap, iomap))
  }

  // The cursor after requests for the given units, and how often it advanced.
  function Turned(c: Config, cur: Cursor, requests: seq<seq<bool>>): (r: Cursor)
    requires forall q | q in requests :: |q| == |cur.iomap|
    ensures |r.iomap| == |cur.iomap|
  {
    if |requests| == 0 then cur
    else var n := |requests| - 1; Next(c, Turned(c, cur, requests[..n]), requests[n])
  }

  function Turns(c: Config, cur: Cursor, requests: seq<seq<bool>>): nat
    requires forall q | q in requests :: |q| == |cur.iomap|
  {
    if |requests| == 0 then 0
    else
      var n := |requests| - 1;
      Turns(c, cur, requests[..n]) + if Advances(c, Turned(c, cur, requests[..n]), requests[n]) then 1 else 0
  }

  // The positions are taken in turn.
  lemma {:induction false} TurnsGoRound(c: Config, cur: Cursor, requests: seq<seq<bool>>)
    requires forall q | q in requests :: |q| == |cur.iomap|
    requires cur.index < c.pageCountToMaxPerf
    ensures Turned(c, cur, requests).index == (cur.index + Turns(c, cur, requests)) % c.pageCountToMaxPerf
  {
    if |requests| > 0 {
      var n := |requests| - 1;
      TurnsGoRound(c, cur, requests[..n]);
      hide Next, Advances;
      NextInTurn(c, Turned(c, cur, requests[..n]), requests[n], cur.index + Turns(c, cur, requests[..n]));
    }
  }

  lemma {:induction false} NextInTurn(c: Config, cur: Cursor, iomap: seq<bool>, x: nat)
    requires |cur.iomap| == |iomap| && c.pageCountToMaxPerf >= 1 && cur.index == x % c.pageCountToMaxPerf
    ensures Next(c, cur, iomap).index == (x + if Advances(c, cur, iomap) then 1 else 0) % c.pageCountToMaxPerf
  {
    NextRemainder(x, c.pageCountToMaxPerf);
  }

  lemma {:induction false} NextRemainder(x: nat, n: nat)
    requires n >= 1
    ensures (x + 1) % n == if x % n + 1 == n then 0 else x % n + 1
  {
    var q, r := x / n, x % n;
    assert x == q * n + r;
    if r + 1 == n {
      Arithmetic.NextMultiple(q, n);
      Arithmetic.DivModOf(x + 1, n, q + 1, 0);
    } else {
      Arithmetic.DivModOf(x + 1, n, q, r + 1);
    }
  }

  // Request j is one of the round under way after the first k requests: the cursor has not advanced since.
  ghost predicate InRound(c: Config, cur: Cursor, requests: seq<seq<bool>>, j: nat, k: nat)
    requires j < k <= |requests| && forall q | q in requests :: |q| == |cur.iomap|
  {
    Turns(c, cur, requests[..j + 1]) == Turns(c, cur, requests[..k])
  }

  // Unit u was used in the round under way after the first k requests, the round the cursor started in included.
  ghost predicate UsedInRound(c: Config, cur: Cursor, requests: seq<seq<bool>>, k: nat, u: nat)
    requires k <= |requests| && u < |cur.iomap| && forall q | q in requests :: |q| == |cur.iomap|
  {
    || (Turns(c, cur, requests[..k]) == 0 && cur.iomap[u])
    || exists j: nat :: j < k && InRound(c, cur, requests, j, k) && requests[j][u]
  }

  lemma {:induction false} RoundsUse(c: Config, cur: Cursor, requests: seq<seq<bool>>, k: nat, u: nat)
    requires k <= |requests| && u < |cur.iomap| && forall q | q in requests :: |q| == |cur.iomap|
    ensures Turned(c, cur, requests[..k]).iomap[u] <==> UsedInRound(c, cur, requests, k, u)
  {
    hide Advances;
    if k == 0 {
      assert requests[..0] == [];
    } else {
      hide UsedInRound, Turns;
      var n := k - 1;
      assert requests[..k][..n] == requests[..n] && requests[n] in requests;
      RoundsUse(c, cur, requests, n, u);
      UsedNext(c, cur, requests, n, u);
    }
  }

  lemma {:induction false} UsedNext(c: Config, cur: Cursor, requests: seq<seq<bool>>, n: nat, u: nat)
    requires n < |requests| && u < |cur.iomap| && forall q | q in requests :: |q| == |cur.iomap|
    ensures requests[n] in requests
    ensures UsedInRound(c, cur, requests, n + 1, u) <==>
      (requests[n][u] ||
       (UsedInRound(c, cur, requests, n, u) && !Advances(c, Turned(c, cur, requests[..n]), requests[n])))
  {
    hide Advances, Turned;
    assert requests[..n + 1][..n] == requests[..n] && requests[n] in requests;
    forall j: nat | j < n ensures InRound(c, cur, requests, j, n + 1) <==>
      InRound(c, cur, requests, j, n) && !Advances(c, Turned(c, cur, requests[..n]), requests[n])
    {
      TurnsGrow(c, cur, requests, j + 1, n);
    }
    assert InRound(c, cur, requests, n, n + 1);
    if UsedInRound(c, cur, requests, n, u) && !Advances(c, Turned(c, cur, requests[..n]), requests[n])
      && !(Turns(c, cur, requests[..n]) == 0 && cur.iomap[u])
    {
      var j: nat :| j < n && InRound(c, cur, requests, j, n) && requests[j][u];
      assert InRound(c, cur, requests, j, n + 1);
    }
    if !requests[n][u] && UsedInRound(c, cur, requests, n + 1, u)
      && !(Turns(c, cur, requests[..n + 1]) == 0 && cur.iomap[u])
    {
      var j: nat :| j < n + 1 && InRound(c, cur, requests, j, n + 1) && requests[j][u];
      assert InRound(c, cur, requests, j, n);
    }
  }

  lemma {:induction false} TurnsGrow(c: Config, cur: Cursor, requests: seq<seq<bool>>, j: nat, k: nat)
    requires j <= k <= |requests| && forall q | q in requests :: |q| == |cur.iomap|
    ensures Turns(c, cur, requests[..j]) <= Turns(c, cur, requests[..k])
    decreases k
  {
    if j < k {
      TurnsGrow(c, cur, requests, j, k - 1);
      assert requests[..k][..k - 1] == requests[..k - 1];
    }
  }

  // With the random tweak the cursor advances exactly on a request for a unit that was used in the round; a
  // round never uses a unit twice.
  lemma {:induction false} AdvancesExactly(c: Config, cur: Cursor, requests: seq<seq<bool>>, k: nat)
    requires c.bRandomTweak && k < |requests| && forall q | q in requests :: |q| == |cur.iomap|
    ensures requests[k] in requests
    ensures Turns(c, cur, requests[..k + 1]) == Turns(c, cur, requests[..k]) + 1 <==>
      exists u: nat :: u < |cur.iomap| && requests[k][u] && UsedInRound(c, cur, requests, k, u)
  {
    hide UsedInRound;
    assert requests[..k + 1][..k] == requests[..k];
    forall u: nat | u < |cur.iomap|
      ensures Turned(c, cur, requests[..k]).iomap[u] <==> UsedInRound(c, cur, requests, k, u)
    {
      RoundsUse(c, cur, requests, k, u);
    }
    if u: nat :| u < |cur.iomap| && requests[k][u] && UsedInRound(c, cur, requests, k, u) {
      assert Turned(c, cur, requests[..k]).iomap[u] && requests[k][u];
    }
  }

  predicate AnyOf(row: seq<bool>) { exists i :: 0 <= i < |row| && row[i] }

  // What the collection of a page asks for.
  function Asked(c: Config, row: seq<bool>): (iomap: seq<bool>)
    ensures |iomap| == |row|
  {
    if c.bRandomTweak then row else seq(|row|, _ => true)
  }

  datatype Visits = Visits(cursor: Cursor, positions: set<nat>)

  // Collecting a page visits an open position if the page has a valid unit.
  function VisitPage(c: Config, row: seq<bool>, cur: Cursor): (r: Visits)
    requires |row| == |cur.iomap|
    ensures |r.cursor.iomap| == |row|
  {
    if AnyOf(row) then
      var next := Next(c, cur, Asked(c, row)); Visits(next, {next.index})
    else Visits(cur, {})
  }

  // The first n pages of a block.
  function VisitPages(c: Config, b: BlockState, n: nat, cur: Cursor): (r: Visits)
    requires Shaped(b, c.pagesInBlock, c.ioUnitInPage) && n <= c.pagesInBlock && |cur.iomap| == c.ioUnitInPage
    ensures |r.cursor.iomap| == c.ioUnitInPage
  {
    if n == 0 then Visits(cur, {})
    else
      var before := VisitPages(c, b, n - 1, cur);
      var page := VisitPage(c, b.valid[n - 1], before.cursor);
      Visits(page.cursor, before.positions + page.positions)
  }

  ghost predicate VictimsShaped(c: Config, blocks: map<nat, BlockState>, victims: seq<nat>) {
    forall k | 0 <= k < |victims| :: victims[k] in blocks && Shaped(blocks[victims[k]], c.pagesInBlock, c.ioUnitInPage)
  }

  // The first n victims.
  ghost function VisitVictims(c: Config, blocks: map<nat, BlockState>, victims: seq<nat>, n: nat,
    cur: Cursor): (r: Visits)
    requires VictimsShaped(c, blocks, victims) && n <= |victims| && |cur.iomap| == c.ioUnitInPage
    ensures |r.cursor.iomap| == c.ioUnitInPage
  {
    if n == 0 then Visits(cur, {})
    else
      var before := VisitVictims(c, blocks, victims, n - 1, cur);
      var block := VisitPages(c, blocks[victims[n - 1]], c.pagesInBlock, before.cursor);
      Visits(block.cursor, before.positions + block.positions)
  }

  // Every victim that is open is at a position that the collection visits.
  ghost predicate OpenVictimsVisited(c: Config, blocks: map<nat, BlockState>, open: seq<nat>, victims: seq<nat>,
    cur: Cursor)
    requires VictimsShaped(c, blocks, victims) && |cur.iomap| == c.ioUnitInPage
  {
    forall k | 0 <= k < |open| && open[k] in victims :: k in VisitVictims(c, blocks, victims, |victims|, cur).positions
  }

  // The open positions not visited are as before, and no full block is open at one that was. Blocks
  // in use stay so.
  ghost predicate Replaced(c: Config, bs: map<nat, BlockState>, open: seq<nat>, cs: map<nat, BlockState>,
      open': seq<nat>, visited: set<nat>) {
    && |open'| == |open|
    && (forall k | 0 <= k < |open| && k !in visited :: open'[k] == open[k])
    && (forall k | 0 <= k < |open| && k in visited :: open'[k] !in bs || !Full(bs[open'[k]], c.pagesInBlock))
    && (OpenBlocks(bs, open) ==> OpenBlocks(cs, open'))
  }

  // Blocks stay in use, and full ones full.
  ghost predicate StayFull(c: Config, bs: map<nat, BlockState>, cs: map<nat, BlockState>) {
    bs.Keys <= cs.Keys && forall b | b in bs && Full(bs[b], c.pagesInBlock) :: Full(cs[b], c.pagesInBlock)
  }

  lemma {:induction false} ReplacedSelf(c: Config, bs: map<nat, BlockState>, open: seq<nat>)
    ensures Replaced(c, bs, open, bs, open, {}) && StayFull(c, bs, bs)
  {
  }

  lemma {:induction false} ReplacedChain(c: Config, bs: map<nat, BlockState>, open: seq<nat>, cs: map<nat, BlockState>,
      open': seq<nat>, visited: set<nat>, ds: map<nat, BlockState>, open'': seq<nat>, more: set<nat>)
    requires Replaced(c, bs, open, cs, open', visited) && StayFull(c, bs, cs)
      && Replaced(c, cs, open', ds, open'', more)
    ensures Replaced(c, bs, open, ds, open'', visited + more)
  {
  }

  lemma {:induction false} StayFullChain(c: Config, bs: map<nat, BlockState>, cs: map<nat, BlockState>,
      ds: map<nat, BlockState>)
    requires StayFull(c, bs, cs) && StayFull(c, cs, ds)
    ensures StayFull(c, bs, ds)
  {
  }

  // Opening position k, and then writing a page there, replaces what was full there.
  lemma {:induction false} OpenedReplaces(c: Config, blocks: map<nat, BlockState>, free: seq<BlockState>,
    open: seq<nat>,
      k: nat, mid: map<nat, BlockState>, free': seq<BlockState>, open': seq<nat>, after: map<nat, BlockState>)
    requires k < |open| && c.Valid() && Opened(c, blocks, free, open, k, mid, free', open') && after.Keys == mid.Keys
    ensures Replaced(c, blocks, open, after, open', {k})
  {
    OpenedKeepsOpen(c, blocks, free, open, k, mid, free', open');
  }

  // ---------- along a collection ----------

  // Page p of block b has been collected.
  ghost predicate PageTurned(c: Config, b: BlockState, p: nat, bs: map<nat, BlockState>, open: seq<nat>, cur: Cursor,
      cs: map<nat, BlockState>, open': seq<nat>, cur': Cursor) {
    && p < |b.valid| && |b.valid[p]| == |cur.iomap|
    && var r := VisitPage(c, b.valid[p], cur);
       cur' == r.cursor && Replaced(c, bs, open, cs, open', r.positions) && StayFull(c, bs, cs)
  }

  lemma {:induction false} PageStaysFull(c: Config, bs: map<nat, BlockState>, cs: map<nat, BlockState>, v: nat, p: nat,
      moved: nat)
    requires PageCollected(c, bs, cs, v, p, moved)
    ensures StayFull(c, bs, cs)
  {
  }

  lemma {:induction false} RowAhead(c: Config, bs: map<nat, BlockState>, cs: map<nat, BlockState>, v: nat, p: nat,
      moved: nat)
    requires CollectedUpTo(c, bs, cs, v, p, moved) && p < |bs[v].valid|
    ensures p < |cs[v].valid| && cs[v].valid[p] == bs[v].valid[p]
  {
  }

  // A page without valid units is passed over.
  lemma {:induction false} PagePassed(c: Config, b: BlockState, p: nat, bs: map<nat, BlockState>, open: seq<nat>,
      cur: Cursor)
    requires p < |b.valid| && |b.valid[p]| == |cur.iomap| && !AnyOf(b.valid[p])
    ensures PageTurned(c, b, p, bs, open, cur, bs, open, cur)
  {
    ReplacedSelf(c, bs, open);
  }

  // The first n pages of block b have been collected.
  ghost predicate PagesTurned(c: Config, b: BlockState, n: nat, bs: map<nat, BlockState>, open: seq<nat>, cur: Cursor,
      cs: map<nat, BlockState>, open': seq<nat>, cur': Cursor) {
    && Shaped(b, c.pagesInBlock, c.ioUnitInPage) && n <= c.pagesInBlock && |cur.iomap| == c.ioUnitInPage
    && var r := VisitPages(c, b, n, cur);
       cur' == r.cursor && Replaced(c, bs, open, cs, open', r.positions) && StayFull(c, bs, cs)
  }

  lemma {:induction false} PagesTurnStart(c: Config, b: BlockState, bs: map<nat, BlockState>, open: seq<nat>,
    cur: Cursor)
    requires Shaped(b, c.pagesInBlock, c.ioUnitInPage) && |cur.iomap| == c.ioUnitInPage
    ensures PagesTurned(c, b, 0, bs, open, cur, bs, open, cur)
  {
    ReplacedSelf(c, bs, open);
  }

  lemma {:induction false} PagesTurnNext(c: Config, b: BlockState, n: nat, bs: map<nat, BlockState>, open: seq<nat>,
      cur: Cursor, cs: map<nat, BlockState>, open': seq<nat>, cur': Cursor, b': BlockState, ds: map<nat, BlockState>,
      open'': seq<nat>, cur'': Cursor)
    requires PagesTurned(c, b, n, bs, open, cur, cs, open', cur') && n < c.pagesInBlock
    requires n < |b'.valid| && b'.valid[n] == b.valid[n]
    requires PageTurned(c, b', n, cs, open', cur', ds, open'', cur'')
    ensures PagesTurned(c, b, n + 1, bs, open, cur, ds, open'', cur'')
  {
    hide Replaced, StayFull, VisitPage;
    var r, q := VisitPages(c, b, n, cur), VisitPage(c, b.valid[n], cur');
    ReplacedChain(c, bs, open, cs, open', r.positions, ds, open'', q.positions);
    StayFullChain(c, bs, cs, ds);
  }

  // The first n victims have been collected.
  ghost predicate VictimsTurned(c: Config, victims: seq<nat>, n: nat, bs: map<nat, BlockState>, open: seq<nat>,
      cur: Cursor, cs: map<nat, BlockState>, open': seq<nat>, cur': Cursor) {
    && VictimsShaped(c, bs, victims) && n <= |victims| && |cur.iomap| == c.ioUnitInPage
    && var r := VisitVictims(c, bs, victims, n, cur);
       cur' == r.cursor && Replaced(c, bs, open, cs, open', r.positions) && StayFull(c, bs, cs)
  }

  lemma {:induction false} VictimsTurnStart(c: Config, victims: seq<nat>, bs: map<nat, BlockState>, open: seq<nat>,
      cur: Cursor)
    requires VictimsShaped(c, bs, victims) && |cur.iomap| == c.ioUnitInPage
    ensures VictimsTurned(c, victims, 0, bs, open, cur, bs, open, cur)
  {
    ReplacedSelf(c, bs, open);
  }

  lemma {:induction false} VictimsTurnNext(c: Config, victims: seq<nat>, n: nat, bs: map<nat, BlockState>,
      open: seq<nat>, cur: Cursor, cs: map<nat, BlockState>, open': seq<nat>, cur': Cursor, ds: map<nat, BlockState>,
      open'': seq<nat>, cur'': Cursor)
    requires VictimsTurned(c, victims, n, bs, open, cur, cs, open', cur') && n < |victims|
    requires PagesTurned(c, bs[victims[n]], c.pagesInBlock, cs, open', cur', ds, open'', cur'')
    ensures VictimsTurned(c, victims, n + 1, bs, open, cur, ds, open'', cur'')
  {
    hide Replaced, StayFull, VisitPages;
    var r, q := VisitVictims(c, bs, victims, n, cur), VisitPages(c, bs[victims[n]], c.pagesInBlock, cur');
    ReplacedChain(c, bs, open, cs, open', r.positions, ds, open'', q.positions);
    StayFullChain(c, bs, cs, ds);
  }

  // After all victims were collected and erased, the open blocks are in use exactly if every victim that
  // was open was at a position visited.
  lemma {:induction false} OpenOutlastErase(c: Config, victims: seq<nat>, bs: map<nat, BlockState>, open: seq<nat>,
      cur: Cursor, cs: map<nat, BlockState>, open': seq<nat>, cur': Cursor, ds: map<nat, BlockState>)
    requires VictimsTurned(c, victims, |victims|, bs, open, cur, cs, open', cur') && Victims(c, bs, victims)
    requires OpenBlocks(bs, open) && ds == cs - Elements(victims)
    ensures OpenBlocks(ds, open') <==> OpenVictimsVisited(c, bs, open, victims, cur)
  {
    var r := VisitVictims(c, bs, victims, |victims|, cur);
    forall k | 0 <= k < |open| ensures open'[k] in ds <==> open[k] !in victims || k in r.positions {
      if open'[k] in victims {
        var j :| 0 <= j < |victims| && victims[j] == open'[k];
      }
    }
    if !OpenVictimsVisited(c, bs, open, victims, cur) {
      var k :| 0 <= k < |open| && open[k] in victims && k !in r.positions;
      assert open'[k] !in ds;
    }
  }
}
