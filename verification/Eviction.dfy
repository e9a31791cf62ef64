// Which lines an eviction picks: at most one for each position of an I/O, the one the policy prefers.
module Evictions {
  import opened CacheLines
  import opened Options

  // One slot for each row (unit of a logical page) and column (plane).
  type Picks = seq<seq<Option<Slot>>>

  predicate PicksShape(c: Config, v: Picks) {
    |v| == c.lineCountInSuperPage && forall r | 0 <= r < |v| :: |v[r]| == c.parallelIO
  }

  function Pick(v: Picks, row: nat, col: nat): Option<Slot> {
    if row < |v| && col < |v[row]| then v[row][col] else None
  }

  function PutPick(v: Picks, row: nat, col: nat, x: Option<Slot>): Picks
    requires row < |v| && col < |v[row]|
  {
    v[row := v[row][col := x]]
  }

  function Key(policy: Policy, l: Line): nat {
    if policy == LeastRecentlyUsed then l.lastAccessed else l.insertedAt
  }

  // What compareFunction may return: one of the two if any; by age unless the policy is random.
  predicate Prefers(g: Grid, policy: Policy, a: Option<Slot>, b: Option<Slot>, r: Option<Slot>) {
    if a.Some? && b.Some? then
      if policy == Random then r == a || r == b
      else r == if Key(policy, At(g, a.value)) < Key(policy, At(g, b.value)) then a else b
    else r == if a.Some? then a else b
  }

  // r is one of the slots, if any, and unless the policy is random none is older.
  ghost predicate Best(g: Grid, policy: Policy, slots: set<Slot>, r: Option<Slot>) {
    && (r.None? <==> slots == {})
    && (r.Some? ==> r.value in slots)
    && (r.Some? && policy != Random ==> forall x | x in slots :: Key(policy, At(g, r.value)) <= Key(policy, At(g, x)))
  }

  lemma {:induction false} BestOfBoth(g: Grid, policy: Policy, s: set<Slot>, t: set<Slot>, a: Option<Slot>,
      b: Option<Slot>,
      r: Option<Slot>)
    requires Best(g, policy, s, a) && Best(g, policy, t, b) && Prefers(g, policy, a, b, r)
    ensures Best(g, policy, s + t, r)
  {
    if a.None? {
      assert s + t == t;
    } else if b.None? {
      assert s + t == s;
    } else {
      assert a.value in s + t;
    }
  }

  ghost function AllSlots(c: Config): set<Slot> {
    set s: nat, w: nat | s < c.setSize && w < c.waySize :: Slot(s, w)
  }

  // The scan over all lines has come to line (s, w).
  predicate Before(x: Slot, s: nat, w: nat) {
    x.setIdx < s || (x.setIdx == s && x.wayIdx < w)
  }

  ghost predicate ValidAt(c: Config, g: Grid, x: Slot, row: nat, col: nat)
    requires c.Valid()
  {
    At(g, x).valid && RowOf(c, At(g, x).tag) == row && ColOf(c, At(g, x).tag) == col
  }

  ghost function Scanned(c: Config, g: Grid, row: nat, col: nat, s: nat, w: nat): set<Slot>
    requires c.Valid()
  {
    set x | x in AllSlots(c) && ValidAt(c, g, x, row, col) && Before(x, s, w)
  }

  ghost predicate ScannedTo(c: Config, g: Grid, v: Picks, s: nat, w: nat)
    requires c.Valid()
  {
    && PicksShape(c, v)
    && forall row: nat, col: nat {:trigger v[row][col]} | row < c.lineCountInSuperPage && col < c.parallelIO ::
         Best(g, c.policy, Scanned(c, g, row, col, s, w), v[row][col])
  }

  lemma {:induction false} ScanStarts(c: Config, g: Grid, v: Picks)
    requires c.Valid() && PicksShape(c, v)
    requires forall row: nat, col: nat | row < c.lineCountInSuperPage && col < c.parallelIO :: v[row][col] == None
    ensures ScannedTo(c, g, v, 0, 0)
  {
    forall row: nat, col: nat | row < c.lineCountInSuperPage && col < c.parallelIO
      ensures Best(g, c.policy, Scanned(c, g, row, col, 0, 0), v[row][col])
    {
      assert Scanned(c, g, row, col, 0, 0) == {};
    }
  }

  lemma {:induction false} ScanStep(c: Config, g: Grid, v: Picks, s: nat, w: nat, r: Option<Slot>)
    requires c.Valid() && ScannedTo(c, g, v, s, w) && s < c.setSize && w < c.waySize
    ensures !At(g, Slot(s, w)).valid ==> ScannedTo(c, g, v, s, w + 1)
    ensures var l := At(g, Slot(s, w)); var row, col := RowOf(c, l.tag), ColOf(c, l.tag);
      row < |v| && col < |v[row]| && (l.valid && Prefers(g, c.policy, v[row][col], Some(Slot(s, w)), r) ==>
        ScannedTo(c, g, PutPick(v, row, col, r), s, w + 1))
  {
    var x := Slot(s, w);
    var l := At(g, x);
    PositionOf(c, l.tag);
    forall row: nat, col: nat
      ensures Scanned(c, g, row, col, s, w + 1) ==
        Scanned(c, g, row, col, s, w) + if ValidAt(c, g, x, row, col) then {x} else {}
    {
      assert x in AllSlots(c);
      forall y | Before(y, s, w + 1) && !Before(y, s, w) ensures y == x { }
    }
    var row, col := RowOf(c, l.tag), ColOf(c, l.tag);
    if l.valid && Prefers(g, c.policy, v[row][col], Some(x), r) {
      assert Best(g, c.policy, {x}, Some(x));
      BestOfBoth(g, c.policy, Scanned(c, g, row, col, s, w), {x}, v[row][col], Some(x), r);
    }
  }

  lemma {:induction false} ScanNextSet(c: Config, g: Grid, v: Picks, s: nat)
    requires c.Valid() && ScannedTo(c, g, v, s, c.waySize)
    ensures ScannedTo(c, g, v, s + 1, 0)
  {
    forall row: nat, col: nat
      ensures Scanned(c, g, row, col, s, c.waySize) == Scanned(c, g, row, col, s + 1, 0) {
    }
  }

  // The valid lines of a position, and those of a row up to a column.
  ghost function SlotsAt(c: Config, g: Grid, row: nat, col: nat): set<Slot>
    requires c.Valid()
  {
    set x | x in AllSlots(c) && ValidAt(c, g, x, row, col)
  }

  ghost function SlotsUpTo(c: Config, g: Grid, row: nat, col: nat): set<Slot>
    requires c.Valid()
  {
    set x | x in AllSlots(c) && At(g, x).valid && RowOf(c, At(g, x).tag) == row && ColOf(c, At(g, x).tag) <= col
  }

  ghost predicate AllPicked(c: Config, g: Grid, v: Picks)
    requires c.Valid()
  {
    && PicksShape(c, v)
    && forall row: nat, col: nat {:trigger v[row][col]} | row < c.lineCountInSuperPage && col < c.parallelIO ::
         Best(g, c.policy, SlotsAt(c, g, row, col), v[row][col])
  }

  lemma {:induction false} ScanEnds(c: Config, g: Grid, v: Picks)
    requires c.Valid() && ScannedTo(c, g, v, c.setSize, 0)
    ensures AllPicked(c, g, v)
  {
    forall row: nat, col: nat ensures Scanned(c, g, row, col, c.setSize, 0) == SlotsAt(c, g, row, col) { }
  }

  // The picks of a row, merged into column col.
  ghost predicate RowMerged(c: Config, g: Grid, v: seq<Option<Slot>>, row: nat, col: nat)
    requires c.Valid()
  {
    && |v| == c.parallelIO && col < c.parallelIO
    && (forall k | 0 <= k < col :: v[k] == None)
    && Best(g, c.policy, SlotsUpTo(c, g, row, col), v[col])
    && (forall k: nat | col < k < c.parallelIO :: Best(g, c.policy, SlotsAt(c, g, row, k), v[k]))
  }

  lemma {:induction false} MergeStarts(c: Config, g: Grid, v: Picks, row: nat)
    requires c.Valid() && AllPicked(c, g, v) && row < c.lineCountInSuperPage
    ensures RowMerged(c, g, v[row], row, 0)
  {
    assert SlotsUpTo(c, g, row, 0) == SlotsAt(c, g, row, 0);
    assert Best(g, c.policy, SlotsAt(c, g, row, 0), v[row][0]);
  }

  lemma {:induction false} MergeStep(c: Config, g: Grid, v: seq<Option<Slot>>, row: nat, col: nat, r: Option<Slot>)
    requires c.Valid() && RowMerged(c, g, v, row, col) && col + 1 < c.parallelIO
    requires Prefers(g, c.policy, v[col], v[col + 1], r)
    ensures RowMerged(c, g, v[col + 1 := r][col := None], row, col + 1)
  {
    assert SlotsUpTo(c, g, row, col + 1) == SlotsUpTo(c, g, row, col) + SlotsAt(c, g, row, col + 1);
    BestOfBoth(g, c.policy, SlotsUpTo(c, g, row, col), SlotsAt(c, g, row, col + 1), v[col], v[col + 1], r);
  }

  // The picks before the set that needs room is looked at: the best line of each position, or in
  // super-page mode the best line of each row.
  ghost predicate Chosen(c: Config, g: Grid, v: Picks)
    requires c.Valid()
  {
    && PicksShape(c, v)
    && if c.evictMode == SuperPage then
         forall row: nat | row < c.lineCountInSuperPage :: RowMerged(c, g, v[row], row, c.parallelIO - 1)
       else AllPicked(c, g, v)
  }

  // Every pick is a valid line of its row.
  ghost predicate InRows(c: Config, g: Grid, v: Picks)
    requires c.Valid()
  {
    && PicksShape(c, v)
    && forall row: nat, col: nat {:trigger v[row][col]} | row < c.lineCountInSuperPage && col < c.parallelIO
      && v[row][col].Some? ::
         InGrid(c, v[row][col].value) && At(g, v[row][col].value).valid && RowOf(c, At(g, v[row][col].value).tag) == row
  }

  lemma {:induction false} ChosenInRows(c: Config, g: Grid, v: Picks)
    requires c.Valid() && Chosen(c, g, v)
    ensures InRows(c, g, v)
  {
    forall row: nat, col: nat | row < c.lineCountInSuperPage && col < c.parallelIO && v[row][col].Some?
      ensures InGrid(c, v[row][col].value) && At(g, v[row][col].value).valid
        && RowOf(c, At(g, v[row][col].value).tag) == row
    {
      if c.evictMode == SuperPage {
        assert RowMerged(c, g, v[row], row, c.parallelIO - 1);
      } else {
        assert Best(g, c.policy, SlotsAt(c, g, row, col), v[row][col]);
      }
    }
  }

  ghost predicate OfSet(c: Config, g: Grid, p: Option<Slot>, s: nat)
    requires c.Valid()
  {
    p.Some? && At(g, p.value).tag % c.setSize == s
  }

  ghost predicate Have(c: Config, g: Grid, v: Picks, s: nat)
    requires c.Valid() && PicksShape(c, v)
  {
    exists row: nat, col: nat :: row < c.lineCountInSuperPage && col < c.parallelIO && OfSet(c, g, v[row][col], s)
  }

  ghost function SlotsOf(c: Config, g: Grid, s: nat, w: nat): set<Slot> {
    set x | x in AllSlots(c) && At(g, x).valid && x.setIdx == s && x.wayIdx < w
  }

  // The final picks v: those chosen, and if none of them makes room in set s the best line of that set.
  ghost predicate Selected(c: Config, g: Grid, chosen: Picks, v: Picks, s: nat)
    requires c.Valid() && PicksShape(c, chosen)
  {
    if Have(c, g, chosen, s) || SlotsOf(c, g, s, c.waySize) == {} then v == chosen
    else exists x :: Forced(c, g, chosen, v, s, x)
  }

  ghost predicate Forced(c: Config, g: Grid, chosen: Picks, v: Picks, s: nat, x: Slot)
    requires c.Valid() && PicksShape(c, chosen)
  {
    var row, col := RowOf(c, At(g, x).tag), ColOf(c, At(g, x).tag);
    && Best(g, c.policy, SlotsOf(c, g, s, c.waySize), Some(x))
    && row < |chosen| && col < |chosen[row]| && v == PutPick(chosen, row, col, Some(x))
  }

  lemma {:induction false} SelectedInRows(c: Config, g: Grid, chosen: Picks, v: Picks, s: nat)
    requires c.Valid() && InRows(c, g, chosen) && Selected(c, g, chosen, v, s)
    ensures InRows(c, g, v)
  {
    if !(Have(c, g, chosen, s) || SlotsOf(c, g, s, c.waySize) == {}) {
      var x :| Forced(c, g, chosen, v, s, x);
      assert x in SlotsOf(c, g, s, c.waySize);
    }
  }

  // A full set loses a line.
  lemma {:induction false} SelectedMakesRoom(c: Config, g: Grid, chosen: Picks, v: Picks, s: nat)
    requires c.Valid() && Placed(c, g) && InRows(c, g, chosen) && Selected(c, g, chosen, v, s)
    requires s < c.setSize && At(g, Slot(s, 0)).valid
    ensures PicksShape(c, v) && Have(c, g, v, s)
  {
    if !Have(c, g, chosen, s) {
      assert Slot(s, 0) in AllSlots(c) && Slot(s, 0) in SlotsOf(c, g, s, c.waySize);
      var x :| Forced(c, g, chosen, v, s, x);
      assert x in SlotsOf(c, g, s, c.waySize);
      PositionOf(c, At(g, x).tag);
      assert At(g, x).tag % c.setSize == s;
      var row, col := RowOf(c, At(g, x).tag), ColOf(c, At(g, x).tag);
      assert OfSet(c, g, v[row][col], s);
    }
  }

  // x is picked at a position before (row, col).
  ghost predicate Listed(v: Picks, x: Slot, row: nat, col: nat) {
    exists r: nat, k: nat :: Pick(v, r, k) == Some(x) && (r < row || (r == row && k < col))
  }

  // What becomes of an evicted line: it is clean and, when flushed, free.
  predicate Evicted(before: Line, l: Line, flush: bool) {
    && !l.dirty && l.insertedAt == l.lastAccessed
    && if flush then !l.valid && l.tag == 0 else l.valid == before.valid && l.tag == before.tag
  }

  // Exactly the lines picked at positions before (row, col) are evicted.
  ghost predicate EvictedTo(c: Config, g0: Grid, g: Grid, v: Picks, row: nat, col: nat, flush: bool) {
    && Shape(c, g)
    && (forall x: Slot {:trigger At(g, x)} | InGrid(c, x) && Listed(v, x, row, col) ::
      Evicted(At(g0, x), At(g, x), flush))
    && (forall x: Slot {:trigger At(g, x)} | InGrid(c, x) && !Listed(v, x, row, col) :: At(g, x) == At(g0, x))
  }

  lemma {:induction false} EvictStep(c: Config, g0: Grid, g: Grid, v: Picks, row: nat, col: nat, flush: bool, l: Line)
    requires EvictedTo(c, g0, g, v, row, col, flush) && PicksShape(c, v)
    requires row < c.lineCountInSuperPage && col < c.parallelIO
    ensures v[row][col].None? ==> EvictedTo(c, g0, g, v, row, col + 1, flush)
    ensures v[row][col].Some? && InGrid(c, v[row][col].value) && Evicted(At(g, v[row][col].value), l, flush) ==>
      EvictedTo(c, g0, Put(g, v[row][col].value, l), v, row, col + 1, flush)
  {
    forall x: Slot
      ensures Listed(v, x, row, col + 1) <==> Listed(v, x, row, col) || v[row][col] == Some(x)
    {
      assert Pick(v, row, col) == v[row][col];
    }
    if v[row][col].Some? && InGrid(c, v[row][col].value) && Evicted(At(g, v[row][col].value), l, flush) {
      var y := v[row][col].value;
      var h := Put(g, y, l);
      forall x: Slot ensures At(h, x) == if x == y then l else At(g, x) { }
    }
  }

  lemma {:induction false} EvictNextRow(c: Config, g0: Grid, g: Grid, v: Picks, row: nat, flush: bool)
    requires EvictedTo(c, g0, g, v, row, c.parallelIO, flush) && PicksShape(c, v) && row < c.lineCountInSuperPage
    ensures EvictedTo(c, g0, g, v, row + 1, 0, flush)
  {
    forall x: Slot ensures Listed(v, x, row + 1, 0) <==> Listed(v, x, row, c.parallelIO) { }
  }

  lemma {:induction false} EvictStarts(c: Config, g: Grid, v: Picks, flush: bool)
    requires c.Valid() && Shape(c, g)
    ensures EvictedTo(c, g, g, v, 0, 0, flush) && SentFor(c, g, v, 0, 0, [])
  {
  }

  // The requests r are those for the valid dirty lines picked at positions before (row, col).
  ghost predicate SentFor(c: Config, g0: Grid, v: Picks, row: nat, col: nat, sent: seq<FtlRequest>)
    requires c.Valid()
  {
    && (forall r | r in sent :: exists x: Slot :: Listed(v, x, row, col) && IsFor(c, At(g0, x), r))
    && (forall x: Slot | Listed(v, x, row, col) && At(g0, x).valid && At(g0, x).dirty ::
          OwnRequest(c, At(g0, x).tag) in sent)
  }

  ghost predicate IsFor(c: Config, l: Line, r: FtlRequest)
    requires c.Valid()
  {
    l.valid && l.dirty && r == OwnRequest(c, l.tag)
  }

  lemma {:induction false} SentStep(c: Config, g0: Grid, g: Grid, v: Picks, row: nat, col: nat, flush: bool,
      sent: seq<FtlRequest>)
    requires c.Valid() && SentFor(c, g0, v, row, col, sent) && EvictedTo(c, g0, g, v, row, col, flush)
      && InRows(c, g0, v)
    requires row < c.lineCountInSuperPage && col < c.parallelIO
    ensures var p := v[row][col];
      var l := if p.Some? then At(g, p.value) else EMPTY_LINE;
      && (l.valid ==> l.tag % c.lineCountInSuperPage == row)
      && SentFor(c, g0, v, row, col + 1, sent + if l.valid && l.dirty then [OwnRequest(c, l.tag)] else [])
  {
    var p := v[row][col];
    assert Pick(v, row, col) == p;
    forall x: Slot
      ensures Listed(v, x, row, col + 1) <==> Listed(v, x, row, col) || p == Some(x)
    {
    }
    if p.Some? {
      var x := p.value;
      PositionOf(c, At(g0, x).tag);
      if Listed(v, x, row, col) {
        assert Evicted(At(g0, x), At(g, x), flush);
      } else {
        assert At(g, x) == At(g0, x);
      }
      var l := At(g, x);
      var more := if l.valid && l.dirty then [OwnRequest(c, l.tag)] else [];
      assert l.valid && l.dirty ==> IsFor(c, At(g0, x), OwnRequest(c, l.tag)) && Listed(v, x, row, col + 1);
      forall r | r in sent + more ensures exists y: Slot :: Listed(v, y, row, col + 1) && IsFor(c, At(g0, y), r) {
        if r in sent {
          var y: Slot :| Listed(v, y, row, col) && IsFor(c, At(g0, y), r);
          assert Listed(v, y, row, col + 1);
        }
      }
      forall y: Slot | Listed(v, y, row, col + 1) && At(g0, y).valid && At(g0, y).dirty
        ensures OwnRequest(c, At(g0, y).tag) in sent + more
      {
      }
    } else {
      assert sent + [] == sent;
      forall r | r in sent ensures exists y: Slot :: Listed(v, y, row, col + 1) && IsFor(c, At(g0, y), r) {
        var y: Slot :| Listed(v, y, row, col) && IsFor(c, At(g0, y), r);
        assert Listed(v, y, row, col + 1);
      }
    }
  }

  lemma {:induction false} SentNextRow(c: Config, g0: Grid, v: Picks, row: nat, sent: seq<FtlRequest>)
    requires c.Valid() && PicksShape(c, v) && row < c.lineCountInSuperPage && SentFor(c, g0, v, row, c.parallelIO, sent)
    ensures SentFor(c, g0, v, row + 1, 0, sent)
  {
    forall x: Slot ensures Listed(v, x, row + 1, 0) <==> Listed(v, x, row, c.parallelIO) { }
    forall r | r in sent ensures exists y: Slot :: Listed(v, y, row + 1, 0) && IsFor(c, At(g0, y), r) {
      var y: Slot :| Listed(v, y, row, c.parallelIO) && IsFor(c, At(g0, y), r);
      assert Listed(v, y, row + 1, 0);
    }
  }

  // An evicted set has room.
  lemma {:induction false} EvictedHasRoom(c: Config, g: Grid, g': Grid, v: Picks, s: nat) returns (x: Slot)
    requires c.Valid() && Placed(c, g) && InRows(c, g, v) && Have(c, g, v, s)
    requires EvictedTo(c, g, g', v, c.lineCountInSuperPage, 0, true)
    ensures InGrid(c, x) && x.setIdx == s && !At(g', x).valid
  {
    var row: nat, col: nat :| row < c.lineCountInSuperPage && col < c.parallelIO && OfSet(c, g, v[row][col], s);
    x := v[row][col].value;
    assert Pick(v, row, col) == Some(x);
    assert Listed(v, x, c.lineCountInSuperPage, 0);
    assert Evicted(At(g, x), At(g', x), true);
  }
}
