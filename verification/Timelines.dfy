// Free time of one channel or one die, as PAL2 keeps it: free slots in buckets by
// length, and a start point from which everything is free.
module Timelines {

  // One entry of a bucket's ordered map: the ticks start..end, both inclusive, are free.
  datatype Slot = Slot(start: nat, end: nat)

  // An ordered map from start tick to end tick, listed in iteration order, under its
  // bucket key. A bucket holds the slots at least `key` long and shorter than the next key.
  datatype Bucket = Bucket(key: nat, slots: seq<Slot>)

  // What is free on a resource.
  datatype Track = Track(buckets: seq<Bucket>, startPoint: nat)

  function Max(a: nat, b: nat): nat { if a < b then b else a }

  ghost predicate Apart(a: Slot, b: Slot) {
    a.end < b.start || b.end < a.start
  }

  ghost predicate AllApart(s: set<Slot>) {
    forall a, b | a in s && b in s && a != b :: Apart(a, b)
  }

  ghost predicate ApartFrom(s: set<Slot>, b: Slot) {
    forall a | a in s :: Apart(a, b)
  }

  // Every slot of every bucket.
  ghost function Tracked(bs: seq<Bucket>): set<Slot> {
    set k, a | 0 <= k < |bs| && a in bs[k].slots :: a
  }

  predicate Ordered(s: seq<Slot>) {
    forall i, j | 0 <= i < j < |s| :: s[i].start < s[j].start
  }

  predicate KeysIncrease(bs: seq<Bucket>) {
    && |bs| > 0
    && forall j, k | 0 <= j < k < |bs| :: bs[j].key < bs[k].key
  }

  // The slot is listed in the bucket with the largest key not above its length.
  predicate InHome(bs: seq<Bucket>, k: nat, a: Slot)
    requires k < |bs|
  {
    && a.start <= a.end
    && bs[k].key <= a.end - a.start + 1
    && (k + 1 < |bs| ==> a.end - a.start + 1 < bs[k + 1].key)
  }

  ghost predicate AllHome(bs: seq<Bucket>) {
    forall k, a | 0 <= k < |bs| && a in bs[k].slots :: InHome(bs, k, a)
  }

  ghost predicate WellFormed(bs: seq<Bucket>) {
    && KeysIncrease(bs)
    && (forall k | 0 <= k < |bs| :: Ordered(bs[k].slots))
    && AllHome(bs)
    && AllApart(Tracked(bs))
  }

  ghost predicate EndsBefore(s: set<Slot>, t: nat) {
    forall a | a in s :: a.end < t
  }

  ghost predicate ValidTrack(f: Track) {
    && WellFormed(f.buckets)
    && EndsBefore(Tracked(f.buckets), f.startPoint)
  }

  // [t, t + len) lies inside the slot.
  predicate Fits(a: Slot, len: nat, t: nat) {
    a.start <= t && t + len <= a.end + 1
  }

  // The slot can hold len ticks starting no earlier than `from`.
  predicate Hosts(a: Slot, len: nat, from: nat) {
    Fits(a, len, Max(a.start, from))
  }

  // [t, t + len) is free, and `s` is where the free stretch around it begins.
  ghost predicate InRegion(f: Track, s: nat, t: nat, len: nat) {
    || (s == f.startPoint && f.startPoint <= t)
    || exists a :: a in Tracked(f.buckets) && a.start == s && Fits(a, len, t)
  }

  // [t, t + len) is free in one piece.
  ghost predicate FreeAt(f: Track, t: nat, len: nat) {
    f.startPoint <= t || exists a :: a in Tracked(f.buckets) && Fits(a, len, t)
  }

  // ---------- std::map primitives ----------

  // Index of the first slot that starts after t (upper_bound).
  function UpperBound(s: seq<Slot>, t: nat): (r: nat)
    requires Ordered(s)
    ensures r <= |s|
    ensures forall i | 0 <= i < r :: s[i].start <= t
    ensures forall i | r <= i < |s| :: t < s[i].start
  {
    if |s| == 0 || t < s[0].start then 0 else 1 + UpperBound(s[1..], t)
  }

  // Index of the first bucket whose key exceeds len.
  function KeyUpperBound(bs: seq<Bucket>, len: nat): (r: nat)
    requires forall j, k | 0 <= j < k < |bs| :: bs[j].key < bs[k].key
    ensures r <= |bs|
    ensures forall k | 0 <= k < r :: bs[k].key <= len
    ensures forall k | r <= k < |bs| :: len < bs[k].key
  {
    if |bs| == 0 || len < bs[0].key then 0 else 1 + KeyUpperBound(bs[1..], len)
  }

  // std::map::insert: does nothing when the start tick is already a key.
  function MapInsert(s: seq<Slot>, a: Slot): (r: seq<Slot>)
    requires Ordered(s)
    ensures Ordered(r)
    ensures (exists b :: b in s && b.start == a.start) ==> r == s
    ensures (forall b | b in s :: b.start != a.start) ==> forall c :: c in r <==> c in s || c == a
  {
    var i := UpperBound(s, a.start);
    if i > 0 && s[i - 1].start == a.start then
      assert s[i - 1] in s;
      s
    else
      InsertedOrdered(s, i, a);
      s[..i] + [a] + s[i..]
  }

  // A slot that starts between its new neighbours goes in.
  lemma {:induction false} InsertedOrdered(s: seq<Slot>, i: nat, a: Slot)
    requires Ordered(s) && i == UpperBound(s, a.start) && (i > 0 ==> s[i - 1].start != a.start)
    ensures Ordered(s[..i] + [a] + s[i..])
    ensures forall b | b in s :: b.start != a.start
    ensures forall c :: c in s[..i] + [a] + s[i..] <==> c in s || c == a
  {
    hide Ordered, UpperBound;
    var p, q := s[..i], s[i..];
    Divided(s, i, a.start);
    assert s == p + q;
    JoinedInOrder(p, a, q);
  }

  lemma {:induction false} Divided(s: seq<Slot>, i: nat, t: nat)
    requires Ordered(s) && i == UpperBound(s, t) && (i > 0 ==> s[i - 1].start != t)
    ensures Ordered(s[..i]) && Ordered(s[i..])
    ensures (forall b | b in s[..i] :: b.start < t) && forall b | b in s[i..] :: t < b.start
  {
    forall k | 0 <= k < i ensures s[k].start < t {
      assert k < i - 1 ==> s[k].start < s[i - 1].start;
    }
  }

  lemma {:induction false} JoinedInOrder(p: seq<Slot>, a: Slot, q: seq<Slot>)
    requires Ordered(p) && Ordered(q)
    requires (forall b | b in p :: b.start < a.start) && forall b | b in q :: a.start < b.start
    ensures Ordered(p + [a] + q)
    ensures forall c :: c in p + [a] + q <==> c in p + q || c == a
  {
    var r := p + [a] + q;
    var n := |p|;
    forall i, j | 0 <= i < j < |r| ensures r[i].start < r[j].start {
      assert r[i] == if i < n then p[i] else if i == n then a else q[i - n - 1];
      assert r[j] == if j < n then p[j] else if j == n then a else q[j - n - 1];
    }
  }

  function RemoveAt(s: seq<Slot>, i: nat): (r: seq<Slot>)
    requires Ordered(s) && i < |s|
    ensures Ordered(r)
    ensures forall c :: c in r <==> c in s && c != s[i]
  {
    var r := s[..i] + s[i + 1..];
    assert forall j | 0 <= j < |r| :: r[j] == if j < i then s[j] else s[j + 1];
    RemovedElements(s, i, r);
    r
  }

  lemma {:induction false} RemovedElements(s: seq<Slot>, i: nat, r: seq<Slot>)
    requires Ordered(s) && i < |s| && r == s[..i] + s[i + 1..]
    ensures forall c :: c in r <==> c in s && c != s[i]
  {
    assert s == s[..i] + [s[i]] + s[i + 1..];
    assert s[i] !in s[..i] && s[i] !in s[i + 1..];
  }

  // ---------- searching ----------

  // First slot from index i on that is long enough.
  method FirstLongEnough(s: seq<Slot>, len: nat, i: nat) returns (f: nat)
    requires i <= |s|
    requires forall a | a in s :: a.start <= a.end
    ensures i <= f <= |s|
    ensures f < |s| ==> Fits(s[f], len, s[f].start)
    ensures forall j | i <= j < f :: !Fits(s[j], len, s[j].start)
  {
    f := i;
    while f != |s|
      invariant i <= f <= |s|
      invariant forall j | i <= j < f :: !Fits(s[j], len, s[j].start)
    {
      if s[f].end >= len + s[f].start - 1 {
        return;
      }
      f := f + 1;
    }
  }

  // The best answer among the slots of the set.
  ghost predicate BestIn(s: set<Slot>, len: nat, from: nat, found: bool, start: nat, conflicts: bool) {
    if found then
      && (exists a :: a in s && a.start == start && Hosts(a, len, from))
      && conflicts == (from < start)
      && (forall b | b in s && Hosts(b, len, from) :: Max(start, from) <= Max(b.start, from))
    else
      !conflicts && forall b | b in s :: !Hosts(b, len, from)
  }

  ghost function Elements(s: seq<Slot>): set<Slot> { set a | a in s }

  ghost function TrackedIn(bs: seq<Bucket>, lo: nat, hi: nat): set<Slot>
    requires lo <= hi <= |bs|
  {
    Tracked(bs[lo..hi])
  }

  // In an ordered row of disjoint slots, only the last one starting at or before `from`
  // can still be free at `from`.
  lemma {:induction false} OnlyPredecessorContains(s: seq<Slot>, from: nat, i: nat)
    requires Ordered(s) && AllApart(Elements(s))
    requires forall a | a in s :: a.start <= a.end
    requires i <= |s| && forall j | 0 <= j < i :: s[j].start <= from
    ensures forall j | 0 <= j < i - 1 :: s[j].end < from
  {
    forall j | 0 <= j < i - 1 ensures s[j].end < from {
      assert s[j] in Elements(s) && s[i - 1] in Elements(s);
      assert s[j].start < s[i - 1].start;
      assert Apart(s[j], s[i - 1]);
    }
  }

  // With no room around `from` (index f is the first later slot) and none before index g,
  // every slot with room starts at or after slot g.
  lemma {:induction false} OnlyLaterHost(s: seq<Slot>, len: nat, from: nat, f: nat, g: nat)
    requires 1 <= len && Ordered(s) && AllApart(Elements(s)) && forall a | a in s :: a.start <= a.end
    requires f <= g <= |s| && (forall j | 0 <= j < f :: s[j].start <= from)
      && (forall j | f <= j < |s| :: from < s[j].start)
    requires f != 0 ==> s[f - 1].end < len + from - 1
    requires forall j | f <= j < g :: !Fits(s[j], len, s[j].start)
    ensures forall b | b in Elements(s) && Hosts(b, len, from) :: g < |s| && s[g].start <= b.start
  {
    OnlyPredecessorContains(s, from, f);
    forall b | b in Elements(s) && Hosts(b, len, from) ensures g < |s| && s[g].start <= b.start {
      var j :| 0 <= j < |s| && s[j] == b;
      assert j >= g;
    }
  }

  // Search of one bucket: the slot around `from` if it has room, else the first later one that has.
  method SearchBucket(s: seq<Slot>, len: nat, from: nat) returns (found: bool, start: nat, conflicts: bool)
    requires 1 <= len
    requires Ordered(s) && AllApart(Elements(s))
    requires forall a | a in s :: a.start <= a.end
    ensures BestIn(Elements(s), len, from, found, start, conflicts)
  {
    var f := UpperBound(s, from);
    if f != 0 {
      if s[f - 1].end >= len + from - 1 {
        assert s[f - 1] in Elements(s);
        return true, s[f - 1].start, false;
      }
    }
    var g := FirstLongEnough(s, len, f);
    OnlyLaterHost(s, len, from, f, g);
    if g != |s| {
      assert s[g] in Elements(s);
      return true, s[g].start, true;
    }
    return false, 0, false;
  }

  // A slot in an earlier bucket than the last one with key <= len is too short for len.
  lemma {:induction false} SmallerBucketsTooShort(bs: seq<Bucket>, e: nat, len: nat, from: nat)
    requires WellFormed(bs) && e < |bs| && (e > 0 ==> bs[e].key <= len)
    ensures forall b | b in TrackedIn(bs, 0, e) :: !Hosts(b, len, from)
  {
    forall b | b in TrackedIn(bs, 0, e) ensures !Hosts(b, len, from) {
      var k :| 0 <= k < e && b in bs[..e][k].slots;
      assert b in bs[k].slots;
      assert InHome(bs, k, b);
      assert bs[k + 1].key <= bs[e].key;
    }
  }

  lemma {:induction false} TrackedSplit(bs: seq<Bucket>, e: nat)
    requires e <= |bs|
    ensures Tracked(bs) == TrackedIn(bs, 0, e) + TrackedIn(bs, e, |bs|)
  {
    forall a | a in Tracked(bs) ensures a in TrackedIn(bs, 0, e) + TrackedIn(bs, e, |bs|) {
      var k :| 0 <= k < |bs| && a in bs[k].slots;
      assert if k < e then bs[0..e][k] == bs[k] else bs[e..][k - e] == bs[k];
    }
    forall a | a in TrackedIn(bs, 0, e) + TrackedIn(bs, e, |bs|) ensures a in Tracked(bs) {
      if a in TrackedIn(bs, 0, e) {
        var k :| 0 <= k < e && a in bs[0..e][k].slots;
        assert a in bs[k].slots;
      } else {
        var k :| 0 <= k < |bs| - e && a in bs[e..][k].slots;
        assert a in bs[e + k].slots;
      }
    }
  }

  lemma {:induction false} TrackedStep(bs: seq<Bucket>, lo: nat, e: nat)
    requires lo <= e < |bs|
    ensures TrackedIn(bs, lo, e + 1) == TrackedIn(bs, lo, e) + Elements(bs[e].slots)
  {
    assert bs[lo..e + 1] == bs[lo..e] + [bs[e]];
    TrackedSplit(bs[lo..e + 1], e - lo);
    assert bs[lo..e + 1][e - lo..] == [bs[e]];
    assert Tracked([bs[e]]) == Elements(bs[e].slots) by {
      assert [bs[e]][0] == bs[e];
    }
  }

  lemma {:induction false} ElementsTracked(bs: seq<Bucket>, lo: nat, e: nat)
    requires lo <= e < |bs|
    ensures Elements(bs[e].slots) <= TrackedIn(bs, lo, |bs|)
  {
    forall a | a in Elements(bs[e].slots) ensures a in TrackedIn(bs, lo, |bs|) {
      assert bs[lo..][e - lo] == bs[e];
    }
  }

  lemma {:induction false} BucketFacts(bs: seq<Bucket>, e: nat)
    requires WellFormed(bs) && e < |bs|
    ensures Ordered(bs[e].slots) && AllApart(Elements(bs[e].slots))
    ensures forall a | a in bs[e].slots :: a.start <= a.end
  {
    assert Elements(bs[e].slots) <= Tracked(bs);
    forall a | a in bs[e].slots ensures a.start <= a.end {
      assert InHome(bs, e, a);
    }
  }

  // A later find in one part and none or a later one in the other: the earlier start wins.
  lemma {:induction false} BestOfUnion(s: set<Slot>, t: set<Slot>, len: nat, from: nat, f: bool, x: nat, g: bool,
      y: nat)
    requires BestIn(s, len, from, f, x, f) && BestIn(t, len, from, g, y, g)
    ensures BestIn(s + t, len, from, f || g, if g && (!f || x > y) then y else x, f || g)
  {
  }

  lemma {:induction false} BestBesidesShort(s: set<Slot>, t: set<Slot>, len: nat, from: nat, f: bool, x: nat, c: bool)
    requires forall b | b in s :: !Hosts(b, len, from)
    requires BestIn(t, len, from, f, x, c)
    ensures BestIn(s + t, len, from, f, x, c)
  {
  }

  // Room at `from` itself cannot be beaten.
  lemma {:induction false} BestAtOnce(s: set<Slot>, t: set<Slot>, len: nat, from: nat, x: nat)
    requires s <= t && BestIn(s, len, from, true, x, false)
    ensures BestIn(t, len, from, true, x, false)
  {
  }

  // FindFreeTime on the bucketed slots. The answer is the best over all tracked slots.
  method FindFreeTime(bs: seq<Bucket>, tickLen: nat, tickFrom: nat)
    returns (found: bool, startTick: nat, conflicts: bool)
    requires WellFormed(bs) && 1 <= tickLen
    ensures BestIn(Tracked(bs), tickLen, tickFrom, found, startTick, conflicts)
  {
    var e := KeyUpperBound(bs, tickLen);
    if e == |bs| {
      e := e - 1;
      BucketFacts(bs, e);
      found, startTick, conflicts := SearchBucket(bs[e].slots, tickLen, tickFrom);
      SmallerBucketsTooShort(bs, e, tickLen, tickFrom);
      TrackedStep(bs, 0, e);
      assert bs[0..e + 1] == bs;
      BestBesidesShort(TrackedIn(bs, 0, e), Elements(bs[e].slots), tickLen, tickFrom, found, startTick, conflicts);
      return;
    }
    if e != 0 {
      e := e - 1;
    }
    found, startTick, conflicts := SearchFrom(bs, e, tickLen, tickFrom);
    SmallerBucketsTooShort(bs, e, tickLen, tickFrom);
    TrackedSplit(bs, e);
    BestBesidesShort(TrackedIn(bs, 0, e), TrackedIn(bs, e, |bs|), tickLen, tickFrom, found, startTick, conflicts);
  }

  lemma {:induction false} StopSearch(bs: seq<Bucket>, first: nat, e: nat, len: nat, from: nat, x: nat)
    requires first <= e < |bs| && BestIn(Elements(bs[e].slots), len, from, true, x, false)
    ensures BestIn(TrackedIn(bs, first, |bs|), len, from, true, x, false)
  {
    ElementsTracked(bs, first, e);
    BestAtOnce(Elements(bs[e].slots), TrackedIn(bs, first, |bs|), len, from, x);
  }

  lemma {:induction false} ExtendSearch(bs: seq<Bucket>, first: nat, e: nat, len: nat, from: nat, f: bool, x: nat,
      g: bool, y: nat)
    requires first <= e < |bs| && BestIn(TrackedIn(bs, first, e), len, from, f, x, f)
    requires BestIn(Elements(bs[e].slots), len, from, g, y, g)
    ensures BestIn(TrackedIn(bs, first, e + 1), len, from, f || g, if g && (!f || x > y) then y else x, f || g)
  {
    TrackedStep(bs, first, e);
    BestOfUnion(TrackedIn(bs, first, e), Elements(bs[e].slots), len, from, f, x, g, y);
  }

  // The loop over the buckets from the first one that can matter.
  method SearchFrom(bs: seq<Bucket>, first: nat, tickLen: nat, tickFrom: nat)
    returns (found: bool, startTick: nat, conflicts: bool)
    requires WellFormed(bs) && 1 <= tickLen && first < |bs|
    ensures BestIn(TrackedIn(bs, first, |bs|), tickLen, tickFrom, found, startTick, conflicts)
  {
    var e := first;
    found, startTick := false, 0;
    while e != |bs|
      invariant first <= e <= |bs|
      invariant BestIn(TrackedIn(bs, first, e), tickLen, tickFrom, found, startTick, found)
    {
      BucketFacts(bs, e);
      var here, start, later := SearchBucket(bs[e].slots, tickLen, tickFrom);
      if here && !later {
        StopSearch(bs, first, e, tickLen, tickFrom, start);
        return true, start, false;
      }
      ExtendSearch(bs, first, e, tickLen, tickFrom, found, startTick, here, start);
      if here && (!found || startTick > start) {
        found, startTick := true, start;
      }
      e := e + 1;
    }
    conflicts := found;
  }

  // ---------- updating ----------

  function Piece(from: nat, len: nat): Slot
    requires 1 <= len
  {
    Slot(from, from + len - 1)
  }

  // A piece is kept only if some bucket takes slots of its length; shorter ones are dropped.
  ghost function Kept(minKey: nat, from: nat, len: nat): set<Slot> {
    if 1 <= len && minKey <= len then {Piece(from, len)} else {}
  }

  ghost function Keys(bs: seq<Bucket>): seq<nat> { seq(|bs|, k requires 0 <= k < |bs| => bs[k].key) }

  ghost predicate SameKeys(bs: seq<Bucket>, cs: seq<Bucket>) { Keys(bs) == Keys(cs) }

  lemma {:induction false} TrackedOfUpdate(bs: seq<Bucket>, e: nat, s: seq<Slot>)
    requires e < |bs|
    ensures var cs := bs[e := Bucket(bs[e].key, s)];
      && SameKeys(bs, cs)
      && Tracked(cs) == TrackedIn(bs, 0, e) + Elements(s) + TrackedIn(bs, e + 1, |bs|)
      && Tracked(bs) == TrackedIn(bs, 0, e) + Elements(bs[e].slots) + TrackedIn(bs, e + 1, |bs|)
  {
    var cs := bs[e := Bucket(bs[e].key, s)];
    TrackedSplit(bs, e + 1);
    TrackedStep(bs, 0, e);
    TrackedSplit(cs, e + 1);
    TrackedStep(cs, 0, e);
    assert bs[0..e] == cs[0..e];
    assert bs[e + 1..|bs|] == cs[e + 1..|bs|];
  }

  // Length decides the bucket, so a slot is listed in one bucket only.
  lemma {:induction false} OneHome(bs: seq<Bucket>, j: nat, k: nat, a: Slot)
    requires KeysIncrease(bs) && j < |bs| && k < |bs|
    requires InHome(bs, j, a) && InHome(bs, k, a)
    ensures j == k
  {
  }

  lemma {:induction false} HomesOfUpdate(bs: seq<Bucket>, e: nat, s: seq<Slot>)
    requires AllHome(bs) && e < |bs| && forall b | b in s :: InHome(bs, e, b)
    ensures AllHome(bs[e := Bucket(bs[e].key, s)])
  {
    var cs := bs[e := Bucket(bs[e].key, s)];
    forall k, b | 0 <= k < |cs| && b in cs[k].slots ensures InHome(cs, k, b) {
      assert InHome(bs, k, b);
    }
  }

  lemma {:induction false} UpdateWellFormed(bs: seq<Bucket>, e: nat, s: seq<Slot>)
    requires WellFormed(bs) && e < |bs|
    requires Ordered(s) && forall b | b in s :: InHome(bs, e, b)
    requires AllApart(Tracked(bs[e := Bucket(bs[e].key, s)]))
    ensures WellFormed(bs[e := Bucket(bs[e].key, s)])
  {
    HomesOfUpdate(bs, e, s);
  }

  lemma {:induction false} InsertedElements(bs: seq<Bucket>, e: nat, a: Slot, s: seq<Slot>)
    requires WellFormed(bs) && e < |bs| && InHome(bs, e, a) && ApartFrom(Tracked(bs), a)
    requires s == MapInsert(bs[e].slots, a)
    ensures Elements(s) == Elements(bs[e].slots) + {a}
    ensures forall b | b in s :: InHome(bs, e, b)
  {
    forall b | b in bs[e].slots ensures b.start != a.start && InHome(bs, e, b) {
      assert b in Tracked(bs);
      assert Apart(b, a);
    }
  }

  lemma {:induction false} AddToBucket(bs: seq<Bucket>, e: nat, a: Slot, s: seq<Slot>)
    requires WellFormed(bs) && e < |bs| && InHome(bs, e, a) && ApartFrom(Tracked(bs), a)
    requires s == MapInsert(bs[e].slots, a)
    ensures var cs := bs[e := Bucket(bs[e].key, s)];
      WellFormed(cs) && SameKeys(bs, cs) && Tracked(cs) == Tracked(bs) + {a}
  {
    InsertedElements(bs, e, a, s);
    TrackedOfUpdate(bs, e, s);
    WithElement(TrackedIn(bs, 0, e), Elements(bs[e].slots), TrackedIn(bs, e + 1, |bs|), a);
    UpdateWellFormed(bs, e, s);
  }

  lemma {:induction false} WithElement(p: set<Slot>, m: set<Slot>, q: set<Slot>, a: Slot)
    requires AllApart(p + m + q) && ApartFrom(p + m + q, a)
    ensures p + (m + {a}) + q == p + m + q + {a} && AllApart(p + (m + {a}) + q)
  {
  }

  lemma {:induction false} WithoutElement(p: set<Slot>, m: set<Slot>, q: set<Slot>, a: Slot)
    requires a !in p && a !in q && AllApart(p + m + q)
    ensures p + (m - {a}) + q == p + m + q - {a} && AllApart(p + (m - {a}) + q)
  {
  }

  lemma {:induction false} RemoveFromBucket(bs: seq<Bucket>, e: nat, i: nat)
    requires WellFormed(bs) && e < |bs| && i < |bs[e].slots|
    ensures var cs := bs[e := Bucket(bs[e].key, RemoveAt(bs[e].slots, i))];
      WellFormed(cs) && SameKeys(bs, cs) && Tracked(cs) == Tracked(bs) - {bs[e].slots[i]}
  {
    var a := bs[e].slots[i];
    var s := RemoveAt(bs[e].slots, i);
    TrackedOfUpdate(bs, e, s);
    assert Elements(s) == Elements(bs[e].slots) - {a};
    NotInOthers(bs, e, a);
    WithoutElement(TrackedIn(bs, 0, e), Elements(bs[e].slots), TrackedIn(bs, e + 1, |bs|), a);
    UpdateWellFormed(bs, e, s);
  }

  lemma {:induction false} NotInOthers(bs: seq<Bucket>, e: nat, a: Slot)
    requires KeysIncrease(bs) && AllHome(bs) && e < |bs| && a in bs[e].slots
    ensures a !in TrackedIn(bs, 0, e) && a !in TrackedIn(bs, e + 1, |bs|)
  {
    assert InHome(bs, e, a);
    forall k | 0 <= k < |bs| && k != e ensures a !in bs[k].slots {
      if a in bs[k].slots {
        OneHome(bs, k, e, a);
      }
    }
  }

  // Where a slot with this start tick is listed, searching from the largest key <= len.
  method FindByStart(bs: seq<Bucket>, tickLen: nat, startTick: nat, ghost a: Slot) returns (e: nat, i: nat)
    requires WellFormed(bs) && a in Tracked(bs) && a.start == startTick && tickLen <= a.end - a.start + 1
    ensures e < |bs| && i < |bs[e].slots| && bs[e].slots[i] == a
  {
    ghost var home: nat :| home < |bs| && a in bs[home].slots;
    assert InHome(bs, home, a);
    e := KeyUpperBound(bs, tickLen);
    if e != 0 {
      e := e - 1;
    }
    assert e <= home;
    while e != |bs|
      invariant e <= home
      decreases |bs| - e
    {
      var here;
      here, i := FindKey(bs, e, startTick, a);
      if here {
        return;
      }
      e := e + 1;
    }
  }

  // std::map::find in one bucket.
  method FindKey(bs: seq<Bucket>, e: nat, startTick: nat, ghost a: Slot) returns (here: bool, i: nat)
    requires WellFormed(bs) && a in Tracked(bs) && a.start == startTick && e < |bs|
    ensures here == (a in bs[e].slots)
    ensures here ==> i < |bs[e].slots| && bs[e].slots[i] == a
  {
    BucketFacts(bs, e);
    i := UpperBound(bs[e].slots, startTick);
    here := i > 0 && bs[e].slots[i - 1].start == startTick;
    if here {
      i := i - 1;
      assert bs[e].slots[i] in bs[e].slots;
      assert bs[e].slots[i] in Tracked(bs);
      TrackedNonEmpty(bs, a);
      SameStart(Tracked(bs), bs[e].slots[i], a);
    }
  }

  lemma {:induction false} TrackedNonEmpty(bs: seq<Bucket>, a: Slot)
    requires AllHome(bs) && a in Tracked(bs)
    ensures a.start <= a.end
  {
    var k :| 0 <= k < |bs| && a in bs[k].slots;
    assert InHome(bs, k, a);
  }

  lemma {:induction false} SameStart(s: set<Slot>, a: Slot, b: Slot)
    requires AllApart(s) && a in s && b in s && a.start == b.start
    requires a.start <= a.end && b.start <= b.end
    ensures a == b
  {
  }

  // The free track after [t, t + len) is taken out of the stretch starting at s (or only
  // split off from it): the rest of the stretch stays tracked unless it is too short.
  ghost predicate Carved(f: Track, g: Track, s: nat, t: nat, len: nat, split: bool)
    requires ValidTrack(f)
  {
    && SameKeys(f.buckets, g.buckets)
    && if s == f.startPoint then
         && s <= t && g.startPoint == t + len
         && Tracked(g.buckets) == Tracked(f.buckets) + Kept(f.buckets[0].key, s, t - s)
                                    + (if split then Kept(f.buckets[0].key, t, len) else {})
       else
         && g.startPoint == f.startPoint
         && exists a ::
           a in Tracked(f.buckets) && a.start == s && Fits(a, len, t)
           && Tracked(g.buckets) == Refill(f.buckets[0].key, Tracked(f.buckets) - {a}, a, t, len, split)
  }

  lemma {:induction false} SameMinKey(bs: seq<Bucket>, cs: seq<Bucket>)
    requires SameKeys(bs, cs) && |bs| > 0
    ensures |cs| > 0 && bs[0].key == cs[0].key
  {
    assert Keys(bs)[0] == Keys(cs)[0];
  }

  // The tracked slots once slot `a` is erased (`rest` remain) and its unused pieces put back.
  ghost function Refill(minKey: nat, rest: set<Slot>, a: Slot, t: nat, len: nat, split: bool): set<Slot>
    requires Fits(a, len, t)
  {
    rest + Kept(minKey, a.start, t - a.start) + (if split then Kept(minKey, t, len) else {})
    + Kept(minKey, t + len, a.end + 1 - (t + len))
  }

  // The three pieces of a slot are apart from the others and from each other.
  lemma {:induction false} ApartPieces(minKey: nat, rest: set<Slot>, a: Slot, t: nat, len: nat, split: bool)
    requires ApartFrom(rest, a) && Fits(a, len, t) && 1 <= len
    ensures a.start < t ==> ApartFrom(rest, Piece(a.start, t - a.start))
    ensures ApartFrom(rest + Kept(minKey, a.start, t - a.start), Piece(t, len))
    ensures t + len <= a.end ==>
      ApartFrom(rest + Kept(minKey, a.start, t - a.start) + (if split then Kept(minKey, t, len) else {}),
                Piece(t + len, a.end + 1 - (t + len)))
  {
    if t + len <= a.end {
      var last := Piece(t + len, a.end + 1 - (t + len));
      ApartInside(rest, a, last);
      KeptBefore(minKey, a.start, t - a.start, last);
      KeptBefore(minKey, t, len, last);
    }
    ApartInside(rest, a, Piece(t, len));
    KeptBefore(minKey, a.start, t - a.start, Piece(t, len));
  }

  lemma {:induction false} ApartInside(s: set<Slot>, a: Slot, b: Slot)
    requires ApartFrom(s, a) && a.start <= b.start && b.end <= a.end
    ensures ApartFrom(s, b)
  {
  }

  lemma {:induction false} KeptBefore(minKey: nat, from: nat, len: nat, b: Slot)
    requires from + len <= b.start
    ensures ApartFrom(Kept(minKey, from, len), b)
  {
  }

  lemma {:induction false} NonEmptyBuckets(bs: seq<Bucket>)
    requires WellFormed(bs)
    ensures |bs| > 0
  {
  }

  // What is put back lies inside the erased slot, and outside the part taken.
  lemma {:induction false} RefillInside(minKey: nat, rest: set<Slot>, a: Slot, t: nat, len: nat, split: bool, b: Slot)
    requires Fits(a, len, t) && 1 <= len && b in Refill(minKey, rest, a, t, len, split)
    ensures b in rest || (a.start <= b.start <= b.end <= a.end && (!split ==> Apart(b, Piece(t, len))))
  {
  }

  lemma {:induction false} RefillEnds(minKey: nat, all: set<Slot>, a: Slot, t: nat, len: nat, split: bool, sp: nat)
    requires Fits(a, len, t) && 1 <= len && a in all && EndsBefore(all, sp)
    ensures EndsBefore(Refill(minKey, all - {a}, a, t, len, split), sp)
  {
    forall b | b in Refill(minKey, all - {a}, a, t, len, split) ensures b.end < sp {
      RefillInside(minKey, all - {a}, a, t, len, split, b);
    }
  }

  lemma {:induction false} RestApart(all: set<Slot>, a: Slot)
    requires AllApart(all) && a in all
    ensures ApartFrom(all - {a}, a)
  {
  }

  class Timeline {
    var buckets: seq<Bucket>
    var startPoint: nat
    // Every interval taken so far, oldest first.
    ghost var reserved: seq<Slot>

    ghost function Free(): Track
      reads this
    {
      Track(buckets, startPoint)
    }

    ghost predicate Valid()
      reads this
    {
      ValidTrack(Free()) && ReservedApart(Free(), reserved)
    }

    // Empty buckets, one per key.
    constructor (keys: seq<nat>)
      requires |keys| > 0 && forall i, j | 0 <= i < j < |keys| :: keys[i] < keys[j]
      ensures Valid() && Keys(buckets) == keys && Tracked(buckets) == {}
      ensures startPoint == 0 && reserved == []
    {
      buckets := seq(|keys|, k requires 0 <= k < |keys| => Bucket(keys[k], []));
      startPoint := 0;
      reserved := [];
    }

    // AddFreeSlot: a slot shorter than every bucket key is silently dropped.
    method AddFreeSlot(tickLen: nat, tickFrom: nat)
      requires WellFormed(buckets) && 1 <= tickLen
      requires ApartFrom(Tracked(buckets), Piece(tickFrom, tickLen))
      modifies this`buckets
      ensures WellFormed(buckets) && SameKeys(old(buckets), buckets)
      ensures buckets[0].key == old(buckets[0].key)
      ensures Tracked(buckets) == old(Tracked(buckets)) + Kept(old(buckets[0].key), tickFrom, tickLen)
    {
      var e := KeyUpperBound(buckets, tickLen);
      if e != 0 {
        e := e - 1;
        var slots := MapInsert(buckets[e].slots, Piece(tickFrom, tickLen));
        AddToBucket(buckets, e, Piece(tickFrom, tickLen), slots);
        buckets := buckets[e := Bucket(buckets[e].key, slots)];
      }
    }

    // The caller's use of FindFreeTime: when no tracked slot serves, the stretch from the
    // start point on does.
    method Place(tickLen: nat, tickFrom: nat) returns (startTick: nat, tick: nat)
      requires Valid() && 1 <= tickLen
      ensures Placed(Free(), tickLen, tickFrom, startTick, tick)
    {
      var found, start, conflicts := FindFreeTime(buckets, tickLen, tickFrom);
      SearchIsScan(Free(), tickLen, tickFrom, found, start, conflicts);
      if !found {
        startTick := startPoint;
        tick := if tickFrom < startPoint then startPoint else tickFrom;
      } else {
        startTick := start;
        tick := if conflicts then start else tickFrom;
      }
    }

    // FlushAFreeSlot: slots that ended before currentTick are forgotten.
    method Flush(currentTick: nat)
      requires Valid()
      modifies this`buckets
      ensures Valid() && SameKeys(old(buckets), buckets)
      ensures Tracked(buckets) == EndingFrom(old(Tracked(buckets)), currentTick)
    {
      var e := 0;
      while e != |buckets|
        invariant |buckets| == |old(buckets)| && e <= |buckets|
        invariant forall k | 0 <= k < e :: Flushed(old(buckets)[k], buckets[k], currentTick)
        invariant forall k | e <= k < |buckets| :: buckets[k] == old(buckets)[k]
      {
        BucketFacts(old(buckets), e);
        var slots := FlushBucket(buckets[e].slots, currentTick);
        buckets := buckets[e := Bucket(buckets[e].key, slots)];
        e := e + 1;
      }
      FlushedWellFormed(old(buckets), buckets, currentTick);
    }

    // InsertFreeSlot when the stretch is the one from the start point on.
    method CarveTail(tickLen: nat, tickFrom: nat, split: bool)
      requires ValidTrack(Free()) && 1 <= tickLen && startPoint <= tickFrom
      modifies this`buckets, this`startPoint
      ensures ValidTrack(Free())
      ensures Carved(old(Free()), Free(), old(startPoint), tickFrom, tickLen, split)
    {
      var startTick := startPoint;
      if split {
        AddFreeSlot(tickLen, tickFrom);
      }
      startPoint := tickFrom + tickLen;
      if tickFrom != startTick {
        AddFreeSlot(tickFrom - startTick, startTick);
      }
    }

    // Finds the slot with this start tick and erases it.
    method EraseSlot(tickLen: nat, startTick: nat, ghost a: Slot) returns (tmpStart: nat, tmpEnd: nat)
      requires WellFormed(buckets) && a in Tracked(buckets) && a.start == startTick && tickLen <= a.end - a.start + 1
      modifies this`buckets
      ensures Slot(tmpStart, tmpEnd) == a
      ensures WellFormed(buckets) && SameKeys(old(buckets), buckets) && buckets[0].key == old(buckets[0].key)
      ensures Tracked(buckets) == old(Tracked(buckets)) - {a}
    {
      var e, i := FindByStart(buckets, tickLen, startTick, a);
      tmpStart, tmpEnd := buckets[e].slots[i].start, buckets[e].slots[i].end;
      RemoveFromBucket(buckets, e, i);
      buckets := buckets[e := Bucket(buckets[e].key, RemoveAt(buckets[e].slots, i))];
      SameMinKey(old(buckets), buckets);
    }

    // InsertFreeSlot when the stretch is a tracked slot.
    method CarveSlot(tickLen: nat, tickFrom: nat, startTick: nat, split: bool, ghost a: Slot)
      requires ValidTrack(Free()) && 1 <= tickLen && startTick != startPoint
      requires a in Tracked(buckets) && a.start == startTick && Fits(a, tickLen, tickFrom)
      modifies this`buckets
      ensures ValidTrack(Free())
      ensures Carved(old(Free()), Free(), startTick, tickFrom, tickLen, split)
    {
      RestApart(Tracked(buckets), a);
      RefillEnds(buckets[0].key, Tracked(buckets), a, tickFrom, tickLen, split, startPoint);
      var tmpStart, tmpEnd := EraseSlot(tickLen, startTick, a);
      AddPieces(tickLen, tickFrom, tmpStart, tmpEnd, split, Tracked(buckets));
    }

    // What is left of an erased slot goes back, piece by piece.
    method AddPieces(tickLen: nat, tickFrom: nat, tmpStart: nat, tmpEnd: nat, split: bool, ghost rest: set<Slot>)
      requires WellFormed(buckets) && 1 <= tickLen && tmpStart <= tickFrom && tickFrom + tickLen <= tmpEnd + 1
      requires rest == Tracked(buckets) && ApartFrom(rest, Slot(tmpStart, tmpEnd))
      modifies this`buckets
      ensures WellFormed(buckets) && SameKeys(old(buckets), buckets)
      ensures Tracked(buckets) == Refill(old(buckets[0].key), rest, Slot(tmpStart, tmpEnd), tickFrom, tickLen, split)
    {
      hide WellFormed, Tracked;
      NonEmptyBuckets(buckets);
      ApartPieces(buckets[0].key, rest, Slot(tmpStart, tmpEnd), tickFrom, tickLen, split);
      if tmpStart < tickFrom {
        AddFreeSlot(tickFrom - tmpStart, tmpStart);
      }
      if split {
        AddFreeSlot(tickLen, tickFrom);
      }
      if tmpEnd > tickLen + tickFrom - 1 {
        AddFreeSlot(tmpEnd - (tickFrom + tickLen - 1), tickFrom + tickLen);
      }
    }

    // InsertFreeSlot's effect on the free track.
    method Carve(tickLen: nat, tickFrom: nat, startTick: nat, split: bool)
      requires ValidTrack(Free()) && 1 <= tickLen && InRegion(Free(), startTick, tickFrom, tickLen)
      modifies this`buckets, this`startPoint
      ensures ValidTrack(Free())
      ensures Carved(old(Free()), Free(), startTick, tickFrom, tickLen, split)
    {
      if startTick == startPoint {
        RegionIsTail(Free(), startTick, tickFrom, tickLen);
        CarveTail(tickLen, tickFrom, split);
      } else {
        ghost var a :| a in Tracked(buckets) && a.start == startTick && Fits(a, tickLen, tickFrom);
        CarveSlot(tickLen, tickFrom, startTick, split, a);
      }
    }

    // InsertFreeSlot: takes [tickFrom, tickFrom + tickLen) out of the free stretch that
    // begins at startTick, or with `split` only cuts the stretch there.
    method InsertFreeSlot(tickLen: nat, tickFrom: nat, startTick: nat, split: bool)
      requires Valid() && 1 <= tickLen && InRegion(Free(), startTick, tickFrom, tickLen)
      modifies this
      ensures Valid()
      ensures Carved(old(Free()), Free(), startTick, tickFrom, tickLen, split)
      ensures reserved == if split then old(reserved) else old(reserved) + [Piece(tickFrom, tickLen)]
    {
      Carve(tickLen, tickFrom, startTick, split);
      CarvedReserved(old(Free()), Free(), startTick, tickFrom, tickLen, split, reserved);
      if !split {
        reserved := reserved + [Piece(tickFrom, tickLen)];
      }
    }
  }

  // ---------- the naive reading of the same questions ----------

  // The first tick from `from` on at which len free ticks begin, trying every tick in turn.
  ghost function EarliestFit(f: Track, len: nat, from: nat): (t: nat)
    ensures from <= t <= Max(from, f.startPoint) && FreeAt(f, t, len)
    ensures forall x | from <= x < t :: !FreeAt(f, x, len)
    decreases f.startPoint - from
  {
    if FreeAt(f, from, len) then from else EarliestFit(f, len, from + 1)
  }

  // The placement a caller of FindFreeTime settles on: the earliest tick, and the stretch it is in.
  ghost predicate Placed(f: Track, len: nat, from: nat, s: nat, t: nat) {
    t == EarliestFit(f, len, from) && InRegion(f, s, t, len) && t == Max(s, from)
  }

  // The bucketed search agrees with the naive scan: it fails exactly when no tracked slot can
  // serve, and otherwise names the first tick that can.
  lemma {:induction false} SearchIsScan(f: Track, len: nat, from: nat, found: bool, start: nat, conflicts: bool)
    requires ValidTrack(f) && 1 <= len && BestIn(Tracked(f.buckets), len, from, found, start, conflicts)
    ensures found <==> exists t, a :: from <= t && a in Tracked(f.buckets) && Fits(a, len, t)
    ensures EarliestFit(f, len, from) == if found then Max(start, from) else Max(f.startPoint, from)
    ensures conflicts <==> found && from < start
    ensures InRegion(f, if found then start else f.startPoint, EarliestFit(f, len, from), len)
  {
    var t := EarliestFit(f, len, from);
    forall x, a | from <= x && a in Tracked(f.buckets) && Fits(a, len, x)
      ensures Hosts(a, len, from) && Max(a.start, from) <= x {
    }
    if found {
      var a :| a in Tracked(f.buckets) && a.start == start && Hosts(a, len, from);
      var x := Max(start, from);
      assert Fits(a, len, x);
      assert FreeAt(f, x, len);
      assert x < f.startPoint;
      assert t <= x;
      var b :| b in Tracked(f.buckets) && Fits(b, len, t);
    }
  }

  // The stretch a free interval lies in begins at one tick only.
  lemma {:induction false} RegionUnique(f: Track, s: nat, s': nat, t: nat, len: nat, len': nat)
    requires ValidTrack(f) && 1 <= len && 1 <= len'
    requires InRegion(f, s, t, len) && InRegion(f, s', t, len')
    ensures s == s'
  {
  }

  // A carve takes [t, t + len) from the slot starting at s. A later stretch stays free unless
  // it was in that slot and what is left of the slot is too short to be kept.
  ghost predicate RemainderDropped(f: Track, s: nat, t: nat, len: nat, x: nat, l: nat)
    requires |f.buckets| > 0
  {
    exists a :: a in Tracked(f.buckets) && a.start == s && Fits(a, l, x) && a.end + 1 < t + len + f.buckets[0].key
  }

  lemma {:induction false} RoomAfterTailCarve(f: Track, g: Track, t: nat, len: nat, x: nat, l: nat)
    requires ValidTrack(f) && 1 <= len && 1 <= l && Carved(f, g, f.startPoint, t, len, false)
    requires FreeAt(f, x, l) && t + len <= x
    ensures FreeAt(g, x, l)
  {
  }

  lemma {:induction false} RoomAfterSlotCarve(f: Track, g: Track, a: Slot, t: nat, len: nat, x: nat, l: nat)
    requires ValidTrack(f) && 1 <= len && 1 <= l && a in Tracked(f.buckets) && Fits(a, len, t)
    requires g.startPoint == f.startPoint
    requires Tracked(g.buckets) == Refill(f.buckets[0].key, Tracked(f.buckets) - {a}, a, t, len, false)
    requires FreeAt(f, x, l) && t + len <= x
    ensures FreeAt(g, x, l) <==> !(Fits(a, l, x) && a.end + 1 < t + len + f.buckets[0].key)
  {
    var minKey := f.buckets[0].key;
    if Fits(a, l, x) {
      var rest := Kept(minKey, t + len, a.end + 1 - (t + len));
      if minKey <= a.end + 1 - (t + len) {
        var p := Piece(t + len, a.end + 1 - (t + len));
        assert p in rest && Fits(p, l, x);
      } else if FreeAt(g, x, l) {
        assert a.end < f.startPoint;
        var b :| b in Tracked(g.buckets) && Fits(b, l, x);
        RefillInside(minKey, Tracked(f.buckets) - {a}, a, t, len, false, b);
        RestApart(Tracked(f.buckets), a);
      }
    } else if x < f.startPoint {
      var b :| b in Tracked(f.buckets) && Fits(b, l, x);
      assert b in Tracked(f.buckets) - {a};
    }
  }

  lemma {:induction false} RoomAfterCarve(f: Track, g: Track, s: nat, t: nat, len: nat, x: nat, l: nat)
    requires ValidTrack(f) && 1 <= len && 1 <= l && Carved(f, g, s, t, len, false)
    requires FreeAt(f, x, l) && t + len <= x
    ensures FreeAt(g, x, l) <==> !RemainderDropped(f, s, t, len, x, l)
  {
    if s == f.startPoint {
      RoomAfterTailCarve(f, g, t, len, x, l);
      forall a | a in Tracked(f.buckets) ensures a.start != s {
        TrackedNonEmpty(f.buckets, a);
      }
    } else {
      var a :| a in Tracked(f.buckets) && a.start == s && Fits(a, len, t)
               && Tracked(g.buckets) == Refill(f.buckets[0].key, Tracked(f.buckets) - {a}, a, t, len, false);
      RoomAfterSlotCarve(f, g, a, t, len, x, l);
      forall b | b in Tracked(f.buckets) && b.start == s ensures b == a {
        TrackedNonEmpty(f.buckets, a);
        TrackedNonEmpty(f.buckets, b);
        SameStart(Tracked(f.buckets), a, b);
      }
    }
  }

  // ---------- which ticks are free ----------

  ghost predicate TickFree(f: Track, x: nat) {
    f.startPoint <= x || exists a :: a in Tracked(f.buckets) && a.start <= x <= a.end
  }

  // The tick x is before or after [t, t + len) in the free stretch from s on, in a part of the stretch that
  // is shorter than the smallest key.
  ghost predicate InShortRest(f: Track, s: nat, t: nat, len: nat, x: nat)
    requires |f.buckets| > 0
  {
    || (s <= x < t && t - s < f.buckets[0].key)
    || (s != f.startPoint && exists a ::
          a in Tracked(f.buckets) && a.start == s && t + len <= x <= a.end && a.end + 1 - (t + len) < f.buckets[0].key)
  }

  // The ticks an interval covers, or, when a stretch is only cut there, those of an interval too short to be
  // kept.
  ghost predicate InCarved(f: Track, t: nat, len: nat, split: bool, x: nat)
    requires |f.buckets| > 0
  {
    t <= x < t + len && (split ==> len < f.buckets[0].key)
  }

  lemma {:induction false} RefillTicks(minKey: nat, rest: set<Slot>, a: Slot, t: nat, len: nat, split: bool, x: nat)
    requires Fits(a, len, t) && 1 <= len
    ensures (exists b :: b in Refill(minKey, rest, a, t, len, split) && b.start <= x <= b.end) <==>
      || (exists b :: b in rest && b.start <= x <= b.end)
      || (a.start <= x < t && minKey <= t - a.start)
      || (split && t <= x < t + len && minKey <= len)
      || (t + len <= x <= a.end && minKey <= a.end + 1 - (t + len))
  {
    var r := Refill(minKey, rest, a, t, len, split);
    if a.start <= x < t && minKey <= t - a.start {
      assert Piece(a.start, t - a.start) in r;
    }
    if split && t <= x < t + len && minKey <= len {
      assert Piece(t, len) in r;
    }
    if t + len <= x <= a.end && minKey <= a.end + 1 - (t + len) {
      assert Piece(t + len, a.end + 1 - (t + len)) in r;
    }
    if exists b :: b in rest && b.start <= x <= b.end {
      var b :| b in rest && b.start <= x <= b.end;
      assert b in r;
    }
  }

  // Carving leaves every free tick free but for those carved out and those of remainders too short to be
  // kept.
  lemma {:induction false} CarvedTicks(f: Track, g: Track, s: nat, t: nat, len: nat, split: bool, x: nat)
    requires ValidTrack(f) && 1 <= len && Carved(f, g, s, t, len, split) && InRegion(f, s, t, len)
    ensures TickFree(g, x) <==> TickFree(f, x) && !InCarved(f, t, len, split, x) && !InShortRest(f, s, t, len, x)
  {
    if s == f.startPoint {
      TailTicks(f, g, t, len, split, x);
    } else {
      var a :| a in Tracked(f.buckets) && a.start == s && Fits(a, len, t)
               && Tracked(g.buckets) == Refill(f.buckets[0].key, Tracked(f.buckets) - {a}, a, t, len, split);
      SlotTicks(f, g, a, t, len, split, x);
    }
  }

  lemma {:induction false} TailTicks(f: Track, g: Track, t: nat, len: nat, split: bool, x: nat)
    requires ValidTrack(f) && 1 <= len && Carved(f, g, f.startPoint, t, len, split)
    ensures TickFree(g, x) <==>
      TickFree(f, x) && !InCarved(f, t, len, split, x) && !InShortRest(f, f.startPoint, t, len, x)
  {
    var minKey, sp := f.buckets[0].key, f.startPoint;
    if sp <= x < t && minKey <= t - sp {
      assert Piece(sp, t - sp) in Tracked(g.buckets);
    }
    if split && t <= x < t + len && minKey <= len {
      assert Piece(t, len) in Tracked(g.buckets);
    }
    forall b | b in Tracked(f.buckets) ensures b in Tracked(g.buckets) && b.end < sp { }
  }

  lemma {:induction false} SlotTicks(f: Track, g: Track, a: Slot, t: nat, len: nat, split: bool, x: nat)
    requires ValidTrack(f) && 1 <= len && a in Tracked(f.buckets) && Fits(a, len, t) && a.start != f.startPoint
    requires g.startPoint == f.startPoint
    requires Tracked(g.buckets) == Refill(f.buckets[0].key, Tracked(f.buckets) - {a}, a, t, len, split)
    ensures TickFree(g, x) <==>
      TickFree(f, x) && !InCarved(f, t, len, split, x) && !InShortRest(f, a.start, t, len, x)
  {
    var rest := Tracked(f.buckets) - {a};
    RefillTicks(f.buckets[0].key, rest, a, t, len, split, x);
    RestApart(Tracked(f.buckets), a);
    assert a.end < f.startPoint;
    forall b | b in Tracked(f.buckets) && b.start == a.start ensures b == a {
      TrackedNonEmpty(f.buckets, a);
      TrackedNonEmpty(f.buckets, b);
      SameStart(Tracked(f.buckets), a, b);
    }
    if a.start <= x <= a.end {
      assert forall b | b in rest :: Apart(b, a);
    }
  }

  // No slot put back reaches across an end of the interval.
  lemma {:induction false} RefillSeparates(minKey: nat, rest: set<Slot>, a: Slot, t: nat, len: nat, b: Slot)
    requires Fits(a, len, t) && 1 <= len && b in Refill(minKey, rest, a, t, len, true) && ApartFrom(rest, a)
    ensures !(b.start < t <= b.end) && !(b.start < t + len <= b.end)
  {
    if b in rest {
      assert Apart(b, a);
    }
  }

  // Where a stretch was cut no tracked slot reaches across either end of the interval, and the start point is
  // not before its end.
  lemma {:induction false} CutSeparates(f: Track, g: Track, s: nat, t: nat, len: nat)
    requires ValidTrack(f) && ValidTrack(g) && 1 <= len && Carved(f, g, s, t, len, true) && InRegion(f, s, t, len)
    ensures t + len <= g.startPoint
    ensures forall b | b in Tracked(g.buckets) :: !(b.start < t <= b.end) && !(b.start < t + len <= b.end)
  {
    hide WellFormed;
    if s == f.startPoint {
      assert forall b | b in Tracked(f.buckets) :: b.end < s;
    } else {
      var a :| a in Tracked(f.buckets) && a.start == s && Fits(a, len, t)
               && Tracked(g.buckets) == Refill(f.buckets[0].key, Tracked(f.buckets) - {a}, a, t, len, true);
      TrackedApart(f, a);
      assert a.end < f.startPoint;
      hide Refill;
      forall b | b in Tracked(g.buckets) ensures !(b.start < t <= b.end) && !(b.start < t + len <= b.end) {
        RefillSeparates(f.buckets[0].key, Tracked(f.buckets) - {a}, a, t, len, b);
      }
    }
  }

  lemma {:induction false} TrackedApart(f: Track, a: Slot)
    requires ValidTrack(f) && a in Tracked(f.buckets)
    ensures ApartFrom(Tracked(f.buckets) - {a}, a)
  {
    RestApart(Tracked(f.buckets), a);
  }

  // The interval is taken out of the free stretch it lies in.
  ghost predicate Taken(f: Track, g: Track, t: nat, len: nat)
    requires ValidTrack(f)
  {
    exists s :: InRegion(f, s, t, len) && Carved(f, g, s, t, len, false)
  }

  // The free stretch is cut at the ends of the interval, if the interval is free.
  ghost predicate CutAt(f: Track, g: Track, t: nat, len: nat)
    requires ValidTrack(f)
  {
    if FreeAt(f, t, len) then exists s :: InRegion(f, s, t, len) && Carved(f, g, s, t, len, true) else g == f
  }

  // The tick is in a remainder, of the stretch around the interval, that is too short to be kept.
  ghost predicate Dropped(f: Track, t: nat, len: nat, x: nat)
    requires |f.buckets| > 0
  {
    exists s :: InRegion(f, s, t, len) && InShortRest(f, s, t, len, x)
  }

  lemma {:induction false} TakenTicks(f: Track, g: Track, t: nat, len: nat, x: nat)
    requires ValidTrack(f) && 1 <= len && Taken(f, g, t, len)
    ensures TickFree(g, x) <==> TickFree(f, x) && !(t <= x < t + len) && !Dropped(f, t, len, x)
  {
    var s :| InRegion(f, s, t, len) && Carved(f, g, s, t, len, false);
    CarvedTicks(f, g, s, t, len, false, x);
    forall s' | InRegion(f, s', t, len) ensures s' == s {
      RegionUnique(f, s, s', t, len, len);
    }
  }

  lemma {:induction false} CutTicks(f: Track, g: Track, t: nat, len: nat, x: nat)
    requires ValidTrack(f) && ValidTrack(g) && 1 <= len && CutAt(f, g, t, len)
    ensures FreeAt(f, t, len) ==>
      && t + len <= g.startPoint
      && (forall b | b in Tracked(g.buckets) :: !(b.start < t <= b.end) && !(b.start < t + len <= b.end))
      && (TickFree(g, x) <==> TickFree(f, x) && !InCarved(f, t, len, true, x) && !Dropped(f, t, len, x))
  {
    if FreeAt(f, t, len) {
      var s :| InRegion(f, s, t, len) && Carved(f, g, s, t, len, true);
      CarvedTicks(f, g, s, t, len, true, x);
      CutSeparates(f, g, s, t, len);
      forall s' | InRegion(f, s', t, len) ensures s' == s {
        RegionUnique(f, s, s', t, len, len);
      }
    }
  }

  // ---------- flushing ----------

  ghost function EndingFrom(s: set<Slot>, tick: nat): set<Slot> { set a | a in s && tick <= a.end }

  // Forgetting slots that ended before `tick` changes no answer for a search from `tick` on.
  lemma {:induction false} FlushKeepsAnswers(s: set<Slot>, tick: nat, len: nat, from: nat, found: bool, start: nat,
      conflicts: bool)
    requires 1 <= len && tick <= from
    ensures BestIn(s, len, from, found, start, conflicts)
       <==> BestIn(EndingFrom(s, tick), len, from, found, start, conflicts)
  {
    forall a | a in s && Hosts(a, len, from) ensures a in EndingFrom(s, tick) {
    }
  }

  // FlushAFreeSlot in one bucket: slots are dropped from the front while they end too early.
  method FlushBucket(s: seq<Slot>, currentTick: nat) returns (r: seq<Slot>)
    requires Ordered(s) && AllApart(Elements(s)) && forall a | a in s :: a.start <= a.end
    ensures Ordered(r) && Elements(r) == EndingFrom(Elements(s), currentTick)
  {
    var f := 0;
    while f != |s| && s[f].end < currentTick
      invariant f <= |s|
      invariant forall i | 0 <= i < f :: s[i].end < currentTick
    {
      f := f + 1;
    }
    r := s[f..];
    forall i | f <= i < |s| ensures currentTick <= s[i].end {
      assert s[f] in Elements(s) && s[i] in Elements(s);
      assert f < i ==> Apart(s[f], s[i]);
    }
    forall a | a in EndingFrom(Elements(s), currentTick) ensures a in Elements(r) {
      var i :| 0 <= i < |s| && s[i] == a;
      assert r[i - f] == a;
    }
  }

  ghost predicate Flushed(b: Bucket, c: Bucket, tick: nat) {
    c.key == b.key && Ordered(c.slots) && Elements(c.slots) == EndingFrom(Elements(b.slots), tick)
  }

  lemma {:induction false} FlushedWellFormed(bs: seq<Bucket>, cs: seq<Bucket>, tick: nat)
    requires WellFormed(bs) && |cs| == |bs| && forall k | 0 <= k < |bs| :: Flushed(bs[k], cs[k], tick)
    ensures WellFormed(cs) && SameKeys(bs, cs) && Tracked(cs) == EndingFrom(Tracked(bs), tick)
  {
    forall k, a | 0 <= k < |cs| ensures a in cs[k].slots <==> a in bs[k].slots && tick <= a.end {
      assert a in Elements(cs[k].slots) <==> a in EndingFrom(Elements(bs[k].slots), tick);
    }
    forall k, a | 0 <= k < |cs| && a in cs[k].slots ensures InHome(cs, k, a) {
      assert InHome(bs, k, a);
    }
    assert Tracked(cs) == EndingFrom(Tracked(bs), tick);
  }

  // No tracked slot starts at the start point.
  lemma {:induction false} RegionIsTail(f: Track, s: nat, t: nat, len: nat)
    requires ValidTrack(f) && s == f.startPoint && InRegion(f, s, t, len)
    ensures s <= t
  {
    forall a | a in Tracked(f.buckets) ensures a.start != s {
      TrackedNonEmpty(f.buckets, a);
    }
  }

  // Every slot left after a carve lies inside a slot that was there or past the old start point.
  ghost predicate Inside(f: Track, b: Slot) {
    f.startPoint <= b.start || exists a :: a in Tracked(f.buckets) && a.start <= b.start && b.end <= a.end
  }

  lemma {:induction false} CarvedInside(f: Track, g: Track, s: nat, t: nat, len: nat, split: bool, b: Slot)
    requires ValidTrack(f) && ValidTrack(g) && 1 <= len && Carved(f, g, s, t, len, split) && b in Tracked(g.buckets)
    ensures Inside(f, b)
    ensures !split ==> Apart(b, Piece(t, len))
  {
    if s == f.startPoint {
      if b in Tracked(f.buckets) {
        assert b.end < f.startPoint;
      }
    } else {
      var a :| a in Tracked(f.buckets) && a.start == s && Fits(a, len, t)
               && Tracked(g.buckets) == Refill(f.buckets[0].key, Tracked(f.buckets) - {a}, a, t, len, split);
      RefillInside(f.buckets[0].key, Tracked(f.buckets) - {a}, a, t, len, split, b);
      RestApart(Tracked(f.buckets), a);
    }
  }

  lemma {:induction false} CarvedPieceInside(f: Track, g: Track, s: nat, t: nat, len: nat, split: bool)
    requires ValidTrack(f) && 1 <= len && Carved(f, g, s, t, len, split)
    ensures Inside(f, Piece(t, len)) && t + len <= g.startPoint && f.startPoint <= g.startPoint
  {
    if s != f.startPoint {
      var a :| a in Tracked(f.buckets) && a.start == s && Fits(a, len, t);
      assert a.end < f.startPoint;
    }
  }

  lemma {:induction false} InsideApart(f: Track, reserved: seq<Slot>, i: nat, b: Slot)
    requires ReservedApart(f, reserved) && i < |reserved| && Inside(f, b)
    ensures Apart(b, reserved[i])
  {
    if b.start < f.startPoint {
      var a :| a in Tracked(f.buckets) && a.start <= b.start && b.end <= a.end;
      assert Apart(a, reserved[i]);
    }
  }

  lemma {:induction false} CarvedReserved(f: Track, g: Track, s: nat, t: nat, len: nat, split: bool,
      reserved: seq<Slot>)
    requires ValidTrack(f) && ValidTrack(g) && 1 <= len && Carved(f, g, s, t, len, split)
    requires ReservedApart(f, reserved)
    ensures ReservedApart(g, reserved)
    ensures !split ==> ReservedApart(g, reserved + [Piece(t, len)])
  {
    CarvedPieceInside(f, g, s, t, len, split);
    forall i | 0 <= i < |reserved| ensures ApartFrom(Tracked(g.buckets), reserved[i]) {
      forall b | b in Tracked(g.buckets) ensures Apart(b, reserved[i]) {
        CarvedInside(f, g, s, t, len, split, b);
        InsideApart(f, reserved, i, b);
      }
    }
    forall i | 0 <= i < |reserved| ensures Apart(reserved[i], Piece(t, len)) {
      InsideApart(f, reserved, i, Piece(t, len));
    }
    if !split {
      forall b | b in Tracked(g.buckets) ensures Apart(b, Piece(t, len)) {
        CarvedInside(f, g, s, t, len, split, b);
      }
    }
  }

  ghost predicate ReservedApart(f: Track, reserved: seq<Slot>) {
    && (forall i, j | 0 <= i < j < |reserved| :: Apart(reserved[i], reserved[j]))
    && (forall i | 0 <= i < |reserved| :: reserved[i].end < f.startPoint)
    && (forall i | 0 <= i < |reserved| :: ApartFrom(Tracked(f.buckets), reserved[i]))
  }
}
