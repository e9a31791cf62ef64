// What an eviction means for the LCAs: congruent LCAs share a position of an I/O, and each class of them
// loses its oldest line.
module EvictedLines {
  import opened CacheLines
  import opened Evictions
  import opened Options
  import Arithmetic

  // The LCAs of one class are congruent modulo this number: those of one unit of one plane, or in super-page
  // mode those of one unit.
  function Classes(c: Config): nat {
    if c.evictMode == All then c.parallelIO * c.lineCountInSuperPage else c.lineCountInSuperPage
  }

  ghost function ClassOf(c: Config, g: Grid, k: nat): set<Slot> {
    set x | x in AllSlots(c) && At(g, x).valid && Classes(c) >= 1 && At(g, x).tag % Classes(c) == k
  }

  ghost function LinesOfSet(c: Config, g: Grid, s: nat): set<Slot> {
    set x | x in AllSlots(c) && At(g, x).valid && x.setIdx == s
  }

  // The policy may give up a before b.
  predicate NoYounger(policy: Policy, a: Line, b: Line) {
    match policy
    case Random => true
    case Fifo => a.insertedAt <= b.insertedAt
    case LeastRecentlyUsed => a.lastAccessed <= b.lastAccessed
  }

  // One of the lines that is no younger than any, if there are some.
  ghost predicate Oldest(policy: Policy, g: Grid, slots: set<Slot>, r: Option<Slot>) {
    match r
    case None => slots == {}
    case Some(x) => x in slots && forall y | y in slots :: NoYounger(policy, At(g, x), At(g, y))
  }

  ghost predicate OnePerClass(c: Config, g: Grid, pick: seq<Option<Slot>>) {
    |pick| == Classes(c) && forall k: nat | k < |pick| :: Oldest(c.policy, g, ClassOf(c, g, k), pick[k])
  }

  ghost function Members(pick: seq<Option<Slot>>): set<Slot> {
    set k | 0 <= k < |pick| && pick[k].Some? :: pick[k].value
  }

  // A line of the set is lost for the set's sake. In super-page mode it takes the place of its class's
  // line only in the last plane, and comes in addition elsewhere.
  predicate TakesPlace(c: Config, lca: nat)
    requires c.Valid()
  {
    c.evictMode == All || (c.parallelIO - 1) * c.lineCountInSuperPage <= lca % (c.parallelIO * c.lineCountInSuperPage)
  }

  // The lines lost: one of each class and, if none of them is of set s, the oldest of that set.
  ghost predicate Lost(c: Config, g: Grid, pick: seq<Option<Slot>>, s: nat, lost: set<Slot>)
    requires c.Valid() && |pick| == Classes(c)
  {
    if exists x :: x in Members(pick) && x.setIdx == s then lost == Members(pick)
    else exists x :: LostToo(c, g, pick, s, x, lost)
  }

  ghost predicate LostToo(c: Config, g: Grid, pick: seq<Option<Slot>>, s: nat, x: Slot, lost: set<Slot>)
    requires c.Valid() && |pick| == Classes(c)
  {
    && Oldest(c.policy, g, LinesOfSet(c, g, s), Some(x)) && Classes(c) >= 1
    && var k := At(g, x).tag % Classes(c);
       lost == Members(if TakesPlace(c, At(g, x).tag) then pick[k := None] else pick) + {x}
  }

  // Exactly the lines lost are freed, the others stay as they are.
  ghost predicate Freed(c: Config, g: Grid, g': Grid, lost: set<Slot>) {
    forall x: Slot {:trigger At(g', x)} | InGrid(c, x) ::
      if x in lost then !At(g', x).valid else At(g', x) == At(g, x)
  }

  // Exactly the dirty ones of them are sent.
  ghost predicate DirtySent(c: Config, g: Grid, lost: set<Slot>, sent: seq<FtlRequest>)
    requires c.Valid()
  {
    && (forall r | r in sent :: exists x: Slot :: x in lost && IsFor(c, At(g, x), r))
    && (forall x: Slot | x in lost && At(g, x).valid && At(g, x).dirty :: OwnRequest(c, At(g, x).tag) in sent)
  }

  // Set s got room.
  ghost predicate MadeRoom(c: Config, g: Grid, g': Grid, s: nat, sent: seq<FtlRequest>)
    requires c.Valid()
  {
    exists pick: seq<Option<Slot>>, lost: set<Slot> ::
      OnePerClass(c, g, pick) && Lost(c, g, pick, s, lost) && Freed(c, g, g', lost) && DirtySent(c, g, lost, sent)
  }

  // The pick of each class.
  ghost function PicksOf(c: Config, v: Picks): (pick: seq<Option<Slot>>)
    requires c.Valid() && PicksShape(c, v)
    ensures |pick| == Classes(c)
  {
    seq(Classes(c), k requires 0 <= k < Classes(c) =>
      if c.evictMode == All then Pick(v, RowOf(c, k), ColOf(c, k))
      else Pick(v, k, c.parallelIO - 1))
  }

  lemma {:induction false} BestIsOldest(g: Grid, policy: Policy, slots: set<Slot>, r: Option<Slot>)
    requires Best(g, policy, slots, r)
    ensures Oldest(policy, g, slots, r)
  {
  }

  lemma {:induction false} ChosenArePerClass(c: Config, g: Grid, v: Picks)
    requires c.Valid() && Chosen(c, g, v)
    ensures OnePerClass(c, g, PicksOf(c, v))
  {
    hide AllPicked, RowMerged, Oldest, PicksOf;
    forall k: nat | k < Classes(c) ensures Oldest(c.policy, g, ClassOf(c, g, k), PicksOf(c, v)[k]) {
      PickOfClass(c, g, v, k);
    }
  }

  lemma {:induction false} PickOfClass(c: Config, g: Grid, v: Picks, k: nat)
    requires c.Valid() && Chosen(c, g, v) && k < Classes(c)
    ensures Oldest(c.policy, g, ClassOf(c, g, k), PicksOf(c, v)[k])
  {
    hide Best, Oldest, RowOf, ColOf;
    if c.evictMode == All {
      var row, col := RowOf(c, k), ColOf(c, k);
      PositionIsRemainder(c, k);
      PositionsAreClasses(c, g, k);
      assert Best(g, c.policy, SlotsAt(c, g, row, col), v[row][col]);
      BestIsOldest(g, c.policy, ClassOf(c, g, k), v[row][col]);
      assert PicksOf(c, v)[k] == v[row][col];
    } else {
      RowsAreClasses(c, g, k);
      assert RowMerged(c, g, v[k], k, c.parallelIO - 1);
      BestIsOldest(g, c.policy, ClassOf(c, g, k), v[k][c.parallelIO - 1]);
      assert Pick(v, k, c.parallelIO - 1) == v[k][c.parallelIO - 1];
      assert PicksOf(c, v)[k] == Pick(v, k, c.parallelIO - 1);
    }
  }

  lemma {:induction false} PositionsAreClasses(c: Config, g: Grid, k: nat)
    requires c.Valid() && c.evictMode == All && k < Classes(c)
    ensures SlotsAt(c, g, RowOf(c, k), ColOf(c, k)) == ClassOf(c, g, k)
  {
    hide RowOf, ColOf;
    Arithmetic.SmallRemainder(k, Classes(c));
    forall lca: nat
      ensures RowOf(c, lca) == RowOf(c, k) && ColOf(c, lca) == ColOf(c, k) <==> lca % Classes(c) == k
    {
      SamePositionExactly(c, lca, k);
    }
  }

  lemma {:induction false} RowsAreClasses(c: Config, g: Grid, k: nat)
    requires c.Valid() && c.evictMode == SuperPage
    ensures SlotsUpTo(c, g, k, c.parallelIO - 1) == ClassOf(c, g, k)
  {
    forall lca: nat ensures RowOf(c, lca) == lca % Classes(c) && ColOf(c, lca) <= c.parallelIO - 1 {
      PositionOf(c, lca);
    }
  }

  // The lines picked at any position.
  ghost function Listing(c: Config, v: Picks): set<Slot> {
    set x | x in AllSlots(c) && Listed(v, x, c.lineCountInSuperPage, 0)
  }

  lemma {:induction false} ListedAt(c: Config, v: Picks, x: Slot)
    requires PicksShape(c, v)
    ensures Listed(v, x, c.lineCountInSuperPage, 0) <==>
      exists row: nat, col: nat :: row < c.lineCountInSuperPage && col < c.parallelIO && Pick(v, row, col) == Some(x)
  {
  }

  // In super-page mode only the last column has picks.
  ghost predicate LastOnly(c: Config, v: Picks) {
    c.evictMode == SuperPage ==>
      forall row: nat, col: nat {:trigger Pick(v, row, col)} |
        row < c.lineCountInSuperPage && col < c.parallelIO && Pick(v, row, col).Some? :: col == c.parallelIO - 1
  }

  lemma {:induction false} ChosenLastOnly(c: Config, g: Grid, v: Picks)
    requires c.Valid() && Chosen(c, g, v)
    ensures LastOnly(c, v)
  {
    hide Best;
    if c.evictMode == SuperPage {
      forall row: nat, col: nat | row < c.lineCountInSuperPage && col < c.parallelIO && Pick(v, row, col).Some?
        ensures col == c.parallelIO - 1
      {
        assert RowMerged(c, g, v[row], row, c.parallelIO - 1);
      }
    }
  }

  // The class of a position with a pick.
  function IndexOf(c: Config, row: nat, col: nat): nat {
    if c.evictMode == All then col * c.lineCountInSuperPage + row else row
  }

  lemma {:induction false} IndexIsPosition(c: Config, v: Picks, row: nat, col: nat)
    requires c.Valid() && PicksShape(c, v) && row < c.lineCountInSuperPage && col < c.parallelIO
    requires c.evictMode == All || col == c.parallelIO - 1
    ensures IndexOf(c, row, col) < Classes(c) && PicksOf(c, v)[IndexOf(c, row, col)] == Pick(v, row, col)
  {
    hide RowOf, ColOf;
    if c.evictMode == All {
      Arithmetic.DigitBound(col, c.parallelIO, row, c.lineCountInSuperPage);
      var k := IndexOf(c, row, col);
      Arithmetic.SmallRemainder(k, Classes(c));
      PositionIsRemainder(c, k);
      Arithmetic.DivModUnique(ColOf(c, k), RowOf(c, k), col, row, c.lineCountInSuperPage);
    }
  }

  lemma {:induction false} PickedAt(c: Config, v: Picks, k: nat) returns (row: nat, col: nat)
    requires c.Valid() && PicksShape(c, v) && k < Classes(c)
    ensures row < c.lineCountInSuperPage && col < c.parallelIO && PicksOf(c, v)[k] == Pick(v, row, col)
    ensures c.evictMode == All || col == c.parallelIO - 1
    ensures IndexOf(c, row, col) == k
  {
    hide RowOf, ColOf;
    if c.evictMode == All {
      Arithmetic.SmallRemainder(k, Classes(c));
      PositionIsRemainder(c, k);
      row, col := RowOf(c, k), ColOf(c, k);
    } else {
      row, col := k, c.parallelIO - 1;
    }
  }

  lemma {:induction false} PicksAreListed(c: Config, g: Grid, v: Picks)
    requires c.Valid() && InRows(c, g, v) && LastOnly(c, v)
    ensures Members(PicksOf(c, v)) == Listing(c, v)
  {
    hide Classes, PicksOf;
    forall x ensures x in Members(PicksOf(c, v)) <==> x in Listing(c, v) {
      ListedAt(c, v, x);
      if x in Members(PicksOf(c, v)) {
        var k: nat :| k < Classes(c) && PicksOf(c, v)[k] == Some(x);
        var row, col := PickedAt(c, v, k);
        assert v[row][col] == Some(x) && Pick(v, row, col) == Some(x);
      }
      if x in Listing(c, v) {
        var row: nat, col: nat :| row < c.lineCountInSuperPage && col < c.parallelIO && Pick(v, row, col) == Some(x);
        IndexIsPosition(c, v, row, col);
      }
    }
  }

  lemma {:induction false} IndexInRange(c: Config, row: nat, col: nat)
    requires c.Valid() && row < c.lineCountInSuperPage && col < c.parallelIO
    ensures IndexOf(c, row, col) < Classes(c)
  {
    Arithmetic.DigitBound(col, c.parallelIO, row, c.lineCountInSuperPage);
  }

  lemma {:induction false} IndexNamesPosition(c: Config, row: nat, col: nat, row': nat, col': nat)
    requires c.Valid() && row < c.lineCountInSuperPage && row' < c.lineCountInSuperPage
    requires c.evictMode == All || col == col'
    ensures IndexOf(c, row, col) == IndexOf(c, row', col') ==> row == row' && col == col'
  {
    if IndexOf(c, row, col) == IndexOf(c, row', col') && c.evictMode == All {
      Arithmetic.DivModUnique(col, row, col', row', c.lineCountInSuperPage);
    }
  }

  lemma {:induction false} NoneAt(c: Config, v: Picks, row: nat, col: nat)
    requires c.Valid() && PicksShape(c, v) && row < c.lineCountInSuperPage && col < c.parallelIO
    requires row < |v| && col < |v[row]|
    ensures IndexOf(c, row, col) < Classes(c)
    ensures PicksOf(c, PutPick(v, row, col, None)) ==
      if c.evictMode == All || col == c.parallelIO - 1 then PicksOf(c, v)[IndexOf(c, row, col) := None]
      else PicksOf(c, v)
  {
    hide PicksOf, Classes, IndexOf;
    var none := PutPick(v, row, col, None);
    IndexInRange(c, row, col);
    if c.evictMode == All || col == c.parallelIO - 1 {
      IndexIsPosition(c, v, row, col);
    }
    forall k: nat | k < Classes(c)
      ensures PicksOf(c, none)[k] ==
        if (c.evictMode == All || col == c.parallelIO - 1) && k == IndexOf(c, row, col) then None else PicksOf(c, v)[k]
    {
      var r, l := PickedAt(c, v, k);
      IndexIsPosition(c, none, r, l);
      IndexIsPosition(c, v, r, l);
      if c.evictMode == All || col == c.parallelIO - 1 {
        IndexNamesPosition(c, r, l, row, col);
      }
      assert Pick(none, r, l) == if r == row && l == col then None else Pick(v, r, l);
    }
  }

  // The pick at one position is replaced.
  lemma {:induction false} PutIsListed(c: Config, g: Grid, chosen: Picks, row: nat, col: nat, x: Slot)
    requires c.Valid() && InRows(c, g, chosen) && LastOnly(c, chosen) && x in AllSlots(c)
    requires row < c.lineCountInSuperPage && col < c.parallelIO && row < |chosen| && col < |chosen[row]|
    ensures IndexOf(c, row, col) < Classes(c) && PicksShape(c, PutPick(chosen, row, col, Some(x)))
    ensures Listing(c, PutPick(chosen, row, col, Some(x))) ==
      Members(if c.evictMode == All || col == c.parallelIO - 1 then PicksOf(c, chosen)[IndexOf(c, row, col) := None]
              else PicksOf(c, chosen)) + {x}
  {
    hide Classes, PicksOf;
    var none := PutPick(chosen, row, col, None);
    forall r: nat, k: nat {:trigger Pick(none, r, k)}
      ensures Pick(none, r, k) == if r == row && k == col then None else Pick(chosen, r, k) { }
    PicksAreListed(c, g, none);
    PutAddsOne(c, chosen, row, col, x);
    NoneAt(c, chosen, row, col);
  }

  lemma {:induction false} PutAddsOne(c: Config, v: Picks, row: nat, col: nat, x: Slot)
    requires PicksShape(c, v) && row < c.lineCountInSuperPage && col < c.parallelIO && row < |v| && col < |v[row]|
    requires x in AllSlots(c)
    ensures Listing(c, PutPick(v, row, col, Some(x))) == Listing(c, PutPick(v, row, col, None)) + {x}
  {
    hide Listed;
    var none, put := PutPick(v, row, col, None), PutPick(v, row, col, Some(x));
    forall y ensures y in Listing(c, put) <==> y in Listing(c, none) + {x} {
      ListedAt(c, none, y);
      ListedAt(c, put, y);
      if y in Listing(c, put) && y != x {
        var r: nat, k: nat :| r < c.lineCountInSuperPage && k < c.parallelIO && Pick(put, r, k) == Some(y);
        assert Pick(none, r, k) == Some(y);
      }
      if y in Listing(c, none) {
        var r: nat, k: nat :| r < c.lineCountInSuperPage && k < c.parallelIO && Pick(none, r, k) == Some(y);
        assert Pick(put, r, k) == Some(y);
      }
      assert Pick(put, row, col) == Some(x);
    }
  }

  lemma {:induction false} IndexIsClass(c: Config, lca: nat)
    requires c.Valid()
    ensures Classes(c) >= 1 && IndexOf(c, RowOf(c, lca), ColOf(c, lca)) == lca % Classes(c)
    ensures TakesPlace(c, lca) <==> c.evictMode == All || ColOf(c, lca) == c.parallelIO - 1
  {
    PositionOf(c, lca);
    PositionIsRemainder(c, lca);
    if ColOf(c, lca) < c.parallelIO - 1 {
      Arithmetic.MulMonotone(ColOf(c, lca) + 1, c.parallelIO - 1, c.lineCountInSuperPage);
    }
  }

  lemma {:induction false} SetsAgree(c: Config, g: Grid, s: nat)
    ensures SlotsOf(c, g, s, c.waySize) == LinesOfSet(c, g, s)
  {
  }

  lemma {:induction false} HaveExactly(c: Config, g: Grid, v: Picks, s: nat)
    requires c.Valid() && Placed(c, g) && InRows(c, g, v)
    ensures Have(c, g, v, s) <==> exists x :: x in Listing(c, v) && x.setIdx == s
  {
    if Have(c, g, v, s) {
      var row: nat, col: nat :| row < c.lineCountInSuperPage && col < c.parallelIO && OfSet(c, g, v[row][col], s);
      var x := v[row][col].value;
      assert Pick(v, row, col) == Some(x);
      assert At(g, x).tag % c.setSize == x.setIdx;
      assert x in Listing(c, v);
    }
    if x :| x in Listing(c, v) && x.setIdx == s {
      ListedAt(c, v, x);
      var row: nat, col: nat :| row < c.lineCountInSuperPage && col < c.parallelIO && Pick(v, row, col) == Some(x);
      assert v[row][col] == Some(x) && At(g, x).tag % c.setSize == x.setIdx;
      assert OfSet(c, g, v[row][col], s);
    }
  }

  lemma {:induction false} SelectedAreLost(c: Config, g: Grid, chosen: Picks, v: Picks, s: nat)
    requires c.Valid() && Placed(c, g) && Chosen(c, g, chosen) && Selected(c, g, chosen, v, s)
    requires s < c.setSize && At(g, Slot(s, 0)).valid
    ensures PicksShape(c, v) && Lost(c, g, PicksOf(c, chosen), s, Listing(c, v))
  {
    hide Have, Forced, RowOf, ColOf, TakesPlace, Oldest, Best, PicksOf, Classes, Placed, Chosen, InRows;
    ChosenInRows(c, g, chosen);
    ChosenLastOnly(c, g, chosen);
    PicksAreListed(c, g, chosen);
    HaveExactly(c, g, chosen, s);
    if !Have(c, g, chosen, s) {
      assert Slot(s, 0) in AllSlots(c) && Slot(s, 0) in SlotsOf(c, g, s, c.waySize);
      var x :| Forced(c, g, chosen, v, s, x);
      ForcedIsLost(c, g, chosen, v, s, x);
    }
  }

  lemma {:induction false} ForcedIsLost(c: Config, g: Grid, chosen: Picks, v: Picks, s: nat, x: Slot)
    requires c.Valid() && InRows(c, g, chosen) && LastOnly(c, chosen) && Forced(c, g, chosen, v, s, x)
    ensures PicksShape(c, v) && LostToo(c, g, PicksOf(c, chosen), s, x, Listing(c, v))
  {
    hide RowOf, ColOf, TakesPlace, Oldest, PicksOf, Classes, InRows, LastOnly;
    var tag := At(g, x).tag;
    var row, col := RowOf(c, tag), ColOf(c, tag);
    PositionOf(c, tag);
    IndexIsClass(c, tag);
    SetsAgree(c, g, s);
    BestIsOldest(g, c.policy, LinesOfSet(c, g, s), Some(x));
    PutIsListed(c, g, chosen, row, col, x);
  }

  // The picks make room, whatever class they were found in.
  lemma {:induction false} RoomMade(c: Config, g: Grid, g': Grid, chosen: Picks, v: Picks, s: nat,
      sent: seq<FtlRequest>)
    requires c.Valid() && Placed(c, g) && Chosen(c, g, chosen) && Selected(c, g, chosen, v, s)
    requires s < c.setSize && At(g, Slot(s, 0)).valid
    requires EvictedTo(c, g, g', v, c.lineCountInSuperPage, 0, true)
    requires SentFor(c, g, v, c.lineCountInSuperPage, 0, sent)
    ensures MadeRoom(c, g, g', s, sent)
  {
    hide Have, Forced, RowOf, ColOf, TakesPlace, Oldest, Best, PicksOf, Classes, Placed, Chosen, Selected, InRows,
      OnePerClass, Lost, Listed;
    ChosenInRows(c, g, chosen);
    SelectedInRows(c, g, chosen, v, s);
    ChosenArePerClass(c, g, chosen);
    SelectedAreLost(c, g, chosen, v, s);
    ListedInGrid(c, g, v);
    assert OnePerClass(c, g, PicksOf(c, chosen)) && Lost(c, g, PicksOf(c, chosen), s, Listing(c, v)) &&
      Freed(c, g, g', Listing(c, v)) && DirtySent(c, g, Listing(c, v), sent);
  }

  lemma {:induction false} ListedInGrid(c: Config, g: Grid, v: Picks)
    requires c.Valid() && InRows(c, g, v)
    ensures forall x :: Listed(v, x, c.lineCountInSuperPage, 0) ==> x in AllSlots(c)
    ensures forall x :: InGrid(c, x) ==> x in AllSlots(c)
  {
    forall x | Listed(v, x, c.lineCountInSuperPage, 0) ensures x in AllSlots(c) {
      ListedAt(c, v, x);
      var row: nat, col: nat :| row < c.lineCountInSuperPage && col < c.parallelIO && Pick(v, row, col) == Some(x);
      assert v[row][col] == Some(x);
    }
  }
}
