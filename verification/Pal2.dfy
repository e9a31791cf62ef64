// The PAL2 scheduler: a command takes its channel twice (DMA0 and DMA1) and its die
// once, from the start of DMA0 to the end of DMA1.
module Pal2 {
  import opened Timelines
  import opened Arithmetic

  // Latencies of one command; `anti` is the anticipation gap kept before DMA1.
  datatype Latency = Latency(dma0: nat, mem: nat, dma1: nat, anti: nat)

  predicate Positive(l: Latency) { 1 <= l.dma0 && 1 <= l.dma1 && 1 <= l.anti }

  // ---------- the search, read tick by tick ----------

  // DMA0 fits on the channel and DMA0 plus the cell operation fit on the die, both at t.
  ghost predicate JointAt(c: Track, d: Track, l: Latency, t: nat) {
    FreeAt(c, t, l.dma0) && FreeAt(d, t, l.dma0 + l.mem)
  }

  ghost function Horizon(c: Track, d: Track): nat { Max(c.startPoint, d.startPoint) }

  // The first such tick from `from` on.
  ghost function JointFit(c: Track, d: Track, l: Latency, from: nat): (t: nat)
    ensures from <= t <= Max(from, Horizon(c, d)) && JointAt(c, d, l, t)
    ensures forall x | from <= x < t :: !JointAt(c, d, l, x)
    decreases Horizon(c, d) - from
  {
    if JointAt(c, d, l, from) then from else JointFit(c, d, l, from + 1)
  }

  // When DMA0 starts at t, DMA1 with its gap goes to the first room on the channel after the cell operation.
  ghost function Dma1Fit(c: Track, l: Latency, t: nat): nat {
    EarliestFit(c, l.dma1 + l.anti, t + l.dma0 + l.mem)
  }

  // How long the die is then held.
  ghost function DieTime(c: Track, l: Latency, t: nat): nat {
    Dma1Fit(c, l, t) + l.dma1 + l.anti - t
  }

  // The start of DMA0: the first joint tick whose die time fits there too; on failure the
  // scan resumes where the die first has that much time.
  ghost function Schedule(c: Track, d: Track, l: Latency, from: nat): (t: nat)
    ensures from <= t <= Max(from, Horizon(c, d))
    ensures JointAt(c, d, l, t) && FreeAt(d, t, DieTime(c, l, t))
    decreases Horizon(c, d) - from
  {
    var x := JointFit(c, d, l, from);
    var y := RetryTick(c, d, l, x);
    if y == x then x else Schedule(c, d, l, y)
  }

  lemma {:induction false} JointFitSkips(c: Track, d: Track, l: Latency, from: nat, next: nat)
    requires from <= next && forall x | from <= x < next :: !JointAt(c, d, l, x)
    ensures JointFit(c, d, l, from) == JointFit(c, d, l, next)
    decreases next - from
  {
    if from < next {
      JointFitSkips(c, d, l, from + 1, next);
    }
  }

  // One round of LOOP1 skips no joint tick: room on the channel from `from`, then on the die.
  lemma {:induction false} RoundSkipsNothing(c: Track, d: Track, l: Latency, from: nat)
    ensures var m := EarliestFit(d, l.dma0 + l.mem, EarliestFit(c, l.dma0, from));
      from <= m && JointFit(c, d, l, from) == JointFit(c, d, l, m)
  {
    JointFitSkips(c, d, l, from, EarliestFit(d, l.dma0 + l.mem, EarliestFit(c, l.dma0, from)));
  }

  // Placing again from a later tick m: naming the same stretch means m itself is good, and
  // a tick that was already good names its own stretch.
  lemma {:induction false} PlacedAgain(f: Track, len: nat, s: nat, t: nat, m: nat, s': nat)
    requires ValidTrack(f) && 1 <= len && InRegion(f, s, t, len) && s <= t <= m
    requires InRegion(f, s', EarliestFit(f, len, m), len) && EarliestFit(f, len, m) == Max(s', m)
    ensures s' == s ==> EarliestFit(f, len, m) == m
    ensures FreeAt(f, m, len) && m == t ==> s' == s
  {
    if m == t && FreeAt(f, m, len) {
      RegionUnique(f, s, s', m, len, len);
    }
  }

  lemma {:induction false} RegionIsFree(f: Track, s: nat, t: nat, len: nat)
    requires InRegion(f, s, t, len)
    ensures FreeAt(f, t, len)
  {
  }

  // A command could start at t: DMA0 and the cell operation fit, and so does the die time.
  ghost predicate CanStart(c: Track, d: Track, l: Latency, t: nat) {
    JointAt(c, d, l, t) && FreeAt(d, t, DieTime(c, l, t))
  }

  // The schedule is the first tick at which the command can start, except for ticks whose die
  // time is shorter than that of a candidate tried before them.
  lemma {:induction false} ScheduleSkips(c: Track, d: Track, l: Latency, from: nat, z: nat)
    requires from <= z < Schedule(c, d, l, from) && CanStart(c, d, l, z)
    ensures exists w :: from <= w < z && JointAt(c, d, l, w) && DieTime(c, l, z) < DieTime(c, l, w)
    decreases Horizon(c, d) - from
  {
    var x := JointFit(c, d, l, from);
    var y := RetryTick(c, d, l, x);
    assert x <= z;
    if z < y {
      ShorterFits(d, z, DieTime(c, l, z), DieTime(c, l, x));
    } else {
      ScheduleSkips(c, d, l, y, z);
    }
  }

  // The search tries w first or after retries, and the die has no room for its die time there.
  ghost predicate Rejected(c: Track, d: Track, l: Latency, from: nat, w: nat)
    decreases Horizon(c, d) - from
  {
    var x := JointFit(c, d, l, from);
    var y := RetryTick(c, d, l, x);
    y != x && (w == x || Rejected(c, d, l, y, w))
  }

  // Where the search goes on when it rejects w.
  ghost function RetryTick(c: Track, d: Track, l: Latency, w: nat): nat {
    EarliestFit(d, DieTime(c, l, w), w)
  }

  lemma {:induction false} RejectedBefore(c: Track, d: Track, l: Latency, from: nat, w: nat)
    requires Rejected(c, d, l, from, w)
    ensures from <= w && RetryTick(c, d, l, w) <= Schedule(c, d, l, from)
    decreases Horizon(c, d) - from
  {
    var x := JointFit(c, d, l, from);
    if w != x {
      RejectedBefore(c, d, l, RetryTick(c, d, l, x), w);
    }
  }

  // A start passed over lies between a rejected candidate and the tick it was retried at.
  lemma {:induction false} SkippedAfterRejected(c: Track, d: Track, l: Latency, from: nat, z: nat) returns (w: nat)
    requires from <= z < Schedule(c, d, l, from) && CanStart(c, d, l, z)
    ensures Rejected(c, d, l, from, w) && w < z < RetryTick(c, d, l, w)
    decreases Horizon(c, d) - from
  {
    w := JointFit(c, d, l, from);
    var y := RetryTick(c, d, l, w);
    if z >= y {
      w := SkippedAfterRejected(c, d, l, y, z);
    }
  }

  // Some rejected candidate comes before z, and the search goes on only after z.
  ghost predicate InRetryGap(c: Track, d: Track, l: Latency, from: nat, z: nat) {
    exists w: nat :: Rejected(c, d, l, from, w) && w < z < RetryTick(c, d, l, w)
  }

  // A possible start is passed over exactly if it lies between a rejected candidate and the tick the
  // search goes on at.
  lemma {:induction false} PassedOverExactly(c: Track, d: Track, l: Latency, from: nat, z: nat)
    requires CanStart(c, d, l, z)
    ensures from <= z < Schedule(c, d, l, from) <==> InRetryGap(c, d, l, from, z)
  {
    if from <= z < Schedule(c, d, l, from) {
      var w := SkippedAfterRejected(c, d, l, from, z);
    }
    if InRetryGap(c, d, l, from, z) {
      var w: nat :| Rejected(c, d, l, from, w) && w < z < RetryTick(c, d, l, w);
      RejectedBefore(c, d, l, from, w);
    }
  }

  // The schedule is the first possible start exactly if there is none in a retry gap.
  lemma {:induction false} ScheduleIsFirstExactly(c: Track, d: Track, l: Latency, from: nat)
    ensures (forall z: nat | from <= z < Schedule(c, d, l, from) :: !CanStart(c, d, l, z)) <==>
      forall z: nat | InRetryGap(c, d, l, from, z) :: !CanStart(c, d, l, z)
  {
    hide InRetryGap, CanStart, Schedule;
    forall z: nat | CanStart(c, d, l, z)
      ensures from <= z < Schedule(c, d, l, from) <==> InRetryGap(c, d, l, from, z)
    {
      PassedOverExactly(c, d, l, from, z);
    }
  }

  // A start can be passed over: the command could start at tick 20 and is scheduled for tick 1000.
  lemma {:induction false} StartIsPassedOver()
    ensures var c := Track([Bucket(1, [Slot(0, 0), Slot(20, 20)])], 35);
      var d := Track([Bucket(1, [Slot(0, 9), Slot(20, 40)])], 1000);
      var l := Latency(1, 1, 1, 1);
      ValidTrack(c) && ValidTrack(d) && CanStart(c, d, l, 20) && Schedule(c, d, l, 0) == 1000
  {
    var c := Track([Bucket(1, [Slot(0, 0), Slot(20, 20)])], 35);
    var d := Track([Bucket(1, [Slot(0, 9), Slot(20, 40)])], 1000);
    TwoSlots(c, 1, Slot(0, 0), Slot(20, 20));
    TwoSlots(d, 1, Slot(0, 9), Slot(20, 40));
    PassedOverIn(c, d, Latency(1, 1, 1, 1));
  }

  lemma {:induction false} PassedOverIn(c: Track, d: Track, l: Latency)
    requires c.startPoint == 35 && Tracked(c.buckets) == {Slot(0, 0), Slot(20, 20)}
    requires d.startPoint == 1000 && Tracked(d.buckets) == {Slot(0, 9), Slot(20, 40)}
    requires l == Latency(1, 1, 1, 1)
    ensures CanStart(c, d, l, 20) && Schedule(c, d, l, 0) == 1000
  {
    hide Schedule, JointFit, EarliestFit, Tracked;
    assert Fits(Slot(0, 0), 1, 0) && Fits(Slot(0, 9), 2, 0);
    assert Fits(Slot(20, 20), 1, 20) && Fits(Slot(20, 40), 2, 20) && Fits(Slot(20, 40), 17, 20);
    assert DieTime(c, l, 0) == 37 && DieTime(c, l, 20) == 17;
    assert JointAt(c, d, l, 0) && JointFit(c, d, l, 0) == 0;
    assert RetryTick(c, d, l, 0) == 1000;
    ScheduleStep(c, d, l, 0);
  }

  lemma {:induction false} TwoSlots(f: Track, key: nat, a: Slot, b: Slot)
    requires f.buckets == [Bucket(key, [a, b])] && a.start <= a.end < b.start <= b.end < f.startPoint
    requires key <= a.end - a.start + 1 && key <= b.end - b.start + 1
    ensures ValidTrack(f) && Tracked(f.buckets) == {a, b}
  {
    assert f.buckets[0].slots == [a, b];
    forall x | x in {a, b} ensures x in Tracked(f.buckets) {
      assert x in f.buckets[0].slots;
    }
  }

  lemma {:induction false} ShorterFits(f: Track, t: nat, len: nat, len': nat)
    requires FreeAt(f, t, len) && !FreeAt(f, t, len')
    ensures len < len'
  {
  }

  // When DMA1 never has to wait for the channel, the schedule is the first possible start.
  lemma {:induction false} ScheduleIsEarliest(c: Track, d: Track, l: Latency, from: nat)
    requires forall x | from <= x :: Dma1Fit(c, l, x) == x + l.dma0 + l.mem
    ensures CanStart(c, d, l, Schedule(c, d, l, from))
    ensures forall z | from <= z < Schedule(c, d, l, from) :: !CanStart(c, d, l, z)
  {
    forall z | from <= z < Schedule(c, d, l, from) ensures !CanStart(c, d, l, z) {
      if CanStart(c, d, l, z) {
        ScheduleSkips(c, d, l, from, z);
      }
    }
  }

  // ---------- one request ----------

  // What a request was given: the channel intervals of DMA0 and DMA1, and the die interval.
  datatype Grant = Grant(dma0: Slot, dma1: Slot, mem: Slot)

  ghost predicate RoundResult(c: Track, d: Track, l: Latency, from: nat, done: bool, t: nat, s: nat, m: nat) {
    && from <= t <= Max(from, Horizon(c, d))
    && JointFit(c, d, l, from) == JointFit(c, d, l, t)
    && if done then InRegion(c, s, t, l.dma0) && InRegion(d, m, t, l.dma0 + l.mem) else from < t
  }

  lemma {:induction false} RoundAgrees(c: Track, d: Track, l: Latency, from: nat, s: nat, t: nat, s': nat, t': nat)
    requires Placed(c, l.dma0, from, s, t) && Placed(d, l.dma0 + l.mem, t, s', t')
    ensures s == s' ==> t == t' && RoundResult(c, d, l, from, true, t, s, s')
  {
    RoundSkipsNothing(c, d, l, from);
  }

  lemma {:induction false} RoundVerified(c: Track, d: Track, l: Latency, from: nat, s: nat, t: nat, s': nat, t': nat,
      v: nat, u: nat)
    requires ValidTrack(c) && 1 <= l.dma0
    requires Placed(c, l.dma0, from, s, t) && Placed(d, l.dma0 + l.mem, t, s', t') && Placed(c, l.dma0, t', v, u)
    ensures RoundResult(c, d, l, from, v == s, t', s, s')
  {
    RoundSkipsNothing(c, d, l, from);
    PlacedAgain(c, l.dma0, s, t, t', v);
    RegionIsFree(c, s, t, l.dma0);
  }

  // LOOP1's body: room for DMA0 on the channel, then for DMA0 and the cell operation on
  // the die; done when the two agree.
  method JointRound(ch: Timeline, die: Timeline, l: Latency, from: nat)
    returns (done: bool, DMA0tickFrom: nat, tickDMA0: nat, tickMEM: nat)
    requires ch.Valid() && die.Valid() && Positive(l)
    ensures RoundResult(ch.Free(), die.Free(), l, from, done, DMA0tickFrom, tickDMA0, tickMEM)
  {
    var MEMtickFrom;
    tickDMA0, DMA0tickFrom := ch.Place(l.dma0, from);
    tickMEM, MEMtickFrom := die.Place(l.dma0 + l.mem, DMA0tickFrom);
    RoundAgrees(ch.Free(), die.Free(), l, from, tickDMA0, DMA0tickFrom, tickMEM, MEMtickFrom);
    if tickMEM == tickDMA0 {
      return true, DMA0tickFrom, tickDMA0, tickMEM;
    }
    ghost var t := DMA0tickFrom;
    DMA0tickFrom := MEMtickFrom;
    var verify, v := ch.Place(l.dma0, DMA0tickFrom);
    RoundVerified(ch.Free(), die.Free(), l, from, tickDMA0, t, tickMEM, MEMtickFrom, verify, v);
    done := verify == tickDMA0;
  }

  // What LOOP1 settles on.
  ghost predicate Joined(c: Track, d: Track, l: Latency, from: nat, t: nat, s: nat, m: nat) {
    t == JointFit(c, d, l, from) && InRegion(c, s, t, l.dma0) && InRegion(d, m, t, l.dma0 + l.mem)
  }

  // LOOP1.
  method FindJoint(ch: Timeline, die: Timeline, l: Latency, from: nat)
    returns (DMA0tickFrom: nat, tickDMA0: nat, tickMEM: nat)
    requires ch.Valid() && die.Valid() && Positive(l)
    ensures Joined(ch.Free(), die.Free(), l, from, DMA0tickFrom, tickDMA0, tickMEM)
  {
    ghost var c, d := ch.Free(), die.Free();
    DMA0tickFrom := from;
    tickDMA0, tickMEM := 0, 0;
    var done := false;
    while !done
      invariant from <= DMA0tickFrom <= Max(from, Horizon(c, d))
      invariant JointFit(c, d, l, DMA0tickFrom) == JointFit(c, d, l, from)
      invariant done ==> InRegion(c, tickDMA0, DMA0tickFrom, l.dma0)
      invariant done ==> InRegion(d, tickMEM, DMA0tickFrom, l.dma0 + l.mem)
      decreases !done, Max(from, Horizon(c, d)) - DMA0tickFrom
    {
      done, DMA0tickFrom, tickDMA0, tickMEM := JointRound(ch, die, l, DMA0tickFrom);
    }
    RegionIsFree(c, tickDMA0, DMA0tickFrom, l.dma0);
    RegionIsFree(d, tickMEM, DMA0tickFrom, l.dma0 + l.mem);
  }

  // The die check of LOOP0: naming the stretch the cell operation is in means the whole die
  // time fits there, and any other answer is a later tick.
  lemma {:induction false} DieVerified(d: Track, s: nat, m: nat, len: nat, len': nat, v: nat, u: nat)
    requires ValidTrack(d) && 1 <= len && 1 <= len' && InRegion(d, s, m, len) && Placed(d, len', m, v, u)
    ensures if v == s then u == m && InRegion(d, s, m, len') else u == v && m < v
  {
    assert s <= m;
    if u == m {
      RegionUnique(d, s, v, m, len, len');
    }
  }

  // The ticks and stretches LOOP0 settles on.
  ghost predicate Chosen(c: Track, d: Track, l: Latency, arrived: nat,
                         t: nat, tickDMA0: nat, t1: nat, tickMEM: nat, totalLat: nat) {
    && t == Schedule(c, d, l, arrived)
    && t1 == Dma1Fit(c, l, t)
    && totalLat == DieTime(c, l, t)
    && InRegion(c, tickDMA0, t, l.dma0)
    && InRegion(d, tickMEM, t, totalLat)
  }

  // A retry of LOOP0 loses nothing and moves on.
  ghost predicate Retried(c: Track, d: Track, l: Latency, from: nat, next: nat) {
    && from < next <= Max(from, Horizon(c, d))
    && Schedule(c, d, l, from) == Schedule(c, d, l, next)
  }

  lemma {:induction false} ScheduleStep(c: Track, d: Track, l: Latency, from: nat)
    ensures var x := JointFit(c, d, l, from);
      var y := RetryTick(c, d, l, x);
      if y == x then Schedule(c, d, l, from) == x else Retried(c, d, l, from, y)
  {
  }

  lemma {:induction false} DieTimeChecked(c: Track, d: Track, l: Latency, from: nat, x: nat, s: nat, m: nat, v: nat,
      u: nat)
    requires ValidTrack(d) && Positive(l) && Joined(c, d, l, from, x, s, m)
    requires Placed(d, DieTime(c, l, x), x, v, u)
    ensures if v == m then Chosen(c, d, l, from, x, s, Dma1Fit(c, l, x), m, DieTime(c, l, x))
      else Retried(c, d, l, from, v)
  {
    DieVerified(d, m, x, l.dma0 + l.mem, DieTime(c, l, x), v, u);
    ScheduleStep(c, d, l, from);
  }

  lemma {:induction false} DieChecked(c: Track, d: Track, l: Latency, from: nat, x: nat, s: nat, m: nat, t1: nat,
      total: nat, v: nat, u: nat)
    requires ValidTrack(d) && Positive(l) && Joined(c, d, l, from, x, s, m)
    requires t1 == Dma1Fit(c, l, x) && total == DieTime(c, l, x)
    requires Placed(d, total, x, v, u)
    ensures if v == m then Chosen(c, d, l, from, x, s, t1, m, total) else Retried(c, d, l, from, v)
  {
    DieTimeChecked(c, d, l, from, x, s, m, v, u);
  }

  // Room for DMA1 once the cell operation is over, and how long the die is then held.
  method FindDma1(ch: Timeline, l: Latency, DMA0tickFrom: nat) returns (DMA1tickFrom: nat, totalLat: nat)
    requires ch.Valid() && Positive(l)
    ensures DMA1tickFrom == Dma1Fit(ch.Free(), l, DMA0tickFrom)
    ensures totalLat == DieTime(ch.Free(), l, DMA0tickFrom)
  {
    DMA1tickFrom := DMA0tickFrom + (l.dma0 + l.mem);
    var tickDMA1;
    tickDMA1, DMA1tickFrom := ch.Place(l.dma1 + l.anti, DMA1tickFrom);
    totalLat := (DMA1tickFrom + l.dma1 + l.anti) - DMA0tickFrom;
  }

  // LOOP0's body.
  method ScheduleRound(ch: Timeline, die: Timeline, l: Latency, from: nat)
    returns (done: bool, DMA0tickFrom: nat, tickDMA0: nat, DMA1tickFrom: nat, tickMEM: nat, totalLat: nat)
    requires ch.Valid() && die.Valid() && Positive(l)
    ensures if done then Chosen(ch.Free(), die.Free(), l, from, DMA0tickFrom, tickDMA0, DMA1tickFrom, tickMEM, totalLat)
            else Retried(ch.Free(), die.Free(), l, from, DMA0tickFrom)
  {
    DMA0tickFrom, tickDMA0, tickMEM := FindJoint(ch, die, l, from);
    DMA1tickFrom, totalLat := FindDma1(ch, l, DMA0tickFrom);
    var verify, u := die.Place(totalLat, DMA0tickFrom);
    DieChecked(ch.Free(), die.Free(), l, from, DMA0tickFrom, tickDMA0, tickMEM, DMA1tickFrom, totalLat, verify, u);
    done := verify == tickMEM;
    if !done {
      DMA0tickFrom := verify;
    }
  }

  // LOOP0.
  method FindSlots(ch: Timeline, die: Timeline, l: Latency, arrived: nat)
    returns (DMA0tickFrom: nat, tickDMA0: nat, DMA1tickFrom: nat, tickMEM: nat, totalLat: nat)
    requires ch.Valid() && die.Valid() && Positive(l)
    ensures Chosen(ch.Free(), die.Free(), l, arrived, DMA0tickFrom, tickDMA0, DMA1tickFrom, tickMEM, totalLat)
  {
    ghost var c, d := ch.Free(), die.Free();
    DMA0tickFrom := arrived;
    var done := false;
    tickDMA0, DMA1tickFrom, tickMEM, totalLat := 0, 0, 0, 0;
    while !done
      invariant DMA0tickFrom <= Max(arrived, Horizon(c, d))
      invariant Schedule(c, d, l, DMA0tickFrom) == Schedule(c, d, l, arrived)
      invariant done ==> Chosen(c, d, l, arrived, DMA0tickFrom, tickDMA0, DMA1tickFrom, tickMEM, totalLat)
      decreases !done, Max(arrived, Horizon(c, d)) - DMA0tickFrom
    {
      done, DMA0tickFrom, tickDMA0, DMA1tickFrom, tickMEM, totalLat := ScheduleRound(ch, die, l, DMA0tickFrom);
    }
  }

  // ---------- assigning ----------

  // The channel slot that holds both DMA0 and the room found for DMA1 leaves, once DMA0 is
  // taken, a remainder shorter than every bucket key; AddFreeSlot forgets such a remainder.
  ghost predicate Dma1RoomLost(c: Track, l: Latency, t: nat)
    requires |c.buckets| > 0
  {
    exists a :: a in Tracked(c.buckets) && Fits(a, l.dma0, t) && Fits(a, l.dma1 + l.anti, Dma1Fit(c, l, t))
                && a.end + 1 < t + l.dma0 + c.buckets[0].key
  }

  lemma {:induction false} LostIsDropped(c: Track, l: Latency, t: nat, s: nat)
    requires ValidTrack(c) && Positive(l) && InRegion(c, s, t, l.dma0)
    ensures Dma1RoomLost(c, l, t) <==> RemainderDropped(c, s, t, l.dma0, Dma1Fit(c, l, t), l.dma1 + l.anti)
  {
    forall a | a in Tracked(c.buckets) && Fits(a, l.dma0, t) ensures a.start == s {
      RegionUnique(c, a.start, s, t, l.dma0, l.dma0);
    }
  }

  // A smallest bucket key of at most latDMA1 + latANTI rules the loss out.
  lemma {:induction false} SmallKeyKeepsRoom(c: Track, l: Latency, t: nat)
    requires |c.buckets| > 0 && c.buckets[0].key <= l.dma1 + l.anti
    ensures !Dma1RoomLost(c, l, t)
  {
  }

  // The loss can happen: ten free ticks under a smallest key of ten.
  lemma {:induction false} RoomCanBeLost()
    ensures var c := Track([Bucket(10, [Slot(0, 9)])], 10);
      var l := Latency(5, 1, 1, 1);
      ValidTrack(c) && InRegion(c, 0, 0, l.dma0) && Dma1RoomLost(c, l, 0)
  {
    var a := Slot(0, 9);
    var c := Track([Bucket(10, [a])], 10);
    assert a in c.buckets[0].slots;
    assert a in Tracked(c.buckets);
    assert Tracked(c.buckets) == {a};
    assert Fits(a, 2, 6);
    assert EarliestFit(c, 2, 6) == 6;
  }

  // Taking DMA0 out of the channel leaves the room for DMA1, unless it is lost.
  lemma {:induction false} Dma1AfterDma0(c: Track, g: Track, l: Latency, s: nat, t: nat)
    requires ValidTrack(c) && Positive(l) && InRegion(c, s, t, l.dma0) && Carved(c, g, s, t, l.dma0, false)
    ensures EarliestFit(g, l.dma1 + l.anti, Dma1Fit(c, l, t)) == Dma1Fit(c, l, t) <==> !Dma1RoomLost(c, l, t)
  {
    LostIsDropped(c, l, t, s);
    RoomAfterCarve(c, g, s, t, l.dma0, Dma1Fit(c, l, t), l.dma1 + l.anti);
  }

  lemma {:induction false} SubRegion(f: Track, s: nat, t: nat, len: nat, t': nat, len': nat)
    requires InRegion(f, s, t, len) && t <= t' && t' + len' <= t + len
    ensures InRegion(f, s, t', len')
  {
  }

  // DMA1 takes the end of the room found again for it; the gap before it stays free.
  method AssignDma1(ch: Timeline, l: Latency, from: nat) returns (start: nat)
    requires ch.Valid() && Positive(l)
    modifies ch
    ensures ch.Valid()
    ensures start == EarliestFit(old(ch.Free()), l.dma1 + l.anti, from) + l.anti
    ensures Taken(old(ch.Free()), ch.Free(), start, l.dma1)
    ensures ch.reserved == old(ch.reserved) + [Piece(start, l.dma1)]
    ensures SameKeys(old(ch.buckets), ch.buckets)
  {
    var tickDMA1, DMA1tickFrom := ch.Place(l.dma1 + l.anti, from);
    SubRegion(ch.Free(), tickDMA1, DMA1tickFrom, l.dma1 + l.anti, DMA1tickFrom + l.anti, l.dma1);
    if DMA1tickFrom > tickDMA1 {
      start := DMA1tickFrom + l.anti;
    } else {
      start := tickDMA1 + l.anti;
    }
    ch.InsertFreeSlot(l.dma1, start, tickDMA1, false);
  }

  lemma {:induction false} AppendedTwice(r: seq<Slot>, a: Slot, b: Slot)
    ensures r + [a] + [b] == r + [a, b]
  {
  }

  // The free track of the channel is c before a command, c1 once DMA0 was taken out of it and c2 once DMA1
  // was, at the end of the first room for it then.
  ghost predicate DmasTaken(c: Track, c1: Track, c2: Track, l: Latency, dma0: nat, dma1: nat) {
    && ValidTrack(c) && ValidTrack(c1) && ValidTrack(c2)
    && Taken(c, c1, dma0, l.dma0)
    && dma1 == EarliestFit(c1, l.dma1 + l.anti, Dma1Fit(c, l, dma0)) + l.anti
    && Taken(c1, c2, dma1, l.dma1)
  }

  method AssignDmas(ch: Timeline, l: Latency, DMA0tickFrom: nat, tickDMA0: nat, DMA1tickFrom: nat)
    returns (start: nat, ghost c1: Track)
    requires ch.Valid() && Positive(l)
    requires InRegion(ch.Free(), tickDMA0, DMA0tickFrom, l.dma0) && DMA1tickFrom == Dma1Fit(ch.Free(), l, DMA0tickFrom)
    modifies ch
    ensures ch.Valid()
    ensures DMA1tickFrom + l.anti <= start
    ensures start == DMA1tickFrom + l.anti <==> !Dma1RoomLost(old(ch.Free()), l, DMA0tickFrom)
    ensures DmasTaken(old(ch.Free()), c1, ch.Free(), l, DMA0tickFrom, start)
    ensures ch.reserved == old(ch.reserved) + [Piece(DMA0tickFrom, l.dma0), Piece(start, l.dma1)]
    ensures SameKeys(old(ch.buckets), ch.buckets)
  {
    ghost var r := ch.reserved;
    ch.InsertFreeSlot(l.dma0, DMA0tickFrom, tickDMA0, false);
    c1 := ch.Free();
    Dma1AfterDma0(old(ch.Free()), ch.Free(), l, tickDMA0, DMA0tickFrom);
    assert Taken(old(ch.Free()), c1, DMA0tickFrom, l.dma0);
    start := AssignDma1(ch, l, DMA1tickFrom);
    AppendedTwice(r, Piece(DMA0tickFrom, l.dma0), Piece(start, l.dma1));
  }

  // The free stretch right after DMA0 is cut two gaps further on.
  method SplitAfterDma0(ch: Timeline, l: Latency, from: nat)
    requires ch.Valid() && Positive(l)
    modifies ch
    ensures ch.Valid() && ch.reserved == old(ch.reserved)
    ensures CutAt(old(ch.Free()), ch.Free(), from, l.anti * 2)
    ensures SameKeys(old(ch.buckets), ch.buckets)
  {
    var tickDMA0, DMA0tickFrom := ch.Place(l.anti * 2, from);
    if DMA0tickFrom == from {
      ch.InsertFreeSlot(l.anti * 2, DMA0tickFrom, tickDMA0, true);
    }
  }

  // What a command was given: DMA0 from the scheduled tick on, the die from there to the end of
  // the room for DMA1, and DMA1 at that end unless its room was lost, in which case it is later.
  ghost predicate Granted(c: Track, d: Track, l: Latency, arrived: nat, g: Grant)
    requires Positive(l) && |c.buckets| > 0
  {
    var t := Schedule(c, d, l, arrived);
    && g.dma0 == Piece(t, l.dma0)
    && g.mem == Piece(t, DieTime(c, l, t))
    && g.dma1 == Piece(g.dma1.start, l.dma1)
    && Dma1Fit(c, l, t) + l.anti <= g.dma1.start
    && (g.dma1.start == Dma1Fit(c, l, t) + l.anti <==> !Dma1RoomLost(c, l, t))
  }

  // What a command leaves free. On the channel DMA0 and DMA1 are taken, and the stretch after DMA0 is cut two
  // gaps further on if it reaches that far; on the die the reservation is taken.
  ghost predicate Leaves(c: Track, d: Track, l: Latency, g: Grant, c': Track, d': Track)
    requires Positive(l) && ValidTrack(d)
  {
    && g.mem.start <= g.mem.end && Taken(d, d', g.mem.start, g.mem.end + 1 - g.mem.start)
    && exists c1, c2 ::
         DmasTaken(c, c1, c2, l, g.dma0.start, g.dma1.start) && CutAt(c2, c', g.dma0.start + l.dma0, l.anti * 2)
  }

  // The tick is in a remainder, of the stretch DMA0, DMA1 or the cut was in, shorter than the smallest key.
  ghost predicate Forgotten(c: Track, c1: Track, c2: Track, l: Latency, g: Grant, x: nat)
    requires ValidTrack(c) && ValidTrack(c1) && ValidTrack(c2)
  {
    var t := g.dma0.start + l.dma0;
    || Dropped(c, g.dma0.start, l.dma0, x)
    || Dropped(c1, g.dma1.start, l.dma1, x)
    || (FreeAt(c2, t, l.anti * 2) && (Dropped(c2, t, l.anti * 2, x) || InCarved(c2, t, l.anti * 2, true, x)))
  }

  // After a command a tick of the channel is free exactly if it was free, is in neither of its intervals and is
  // not in a remainder too short to be kept; and if the two gaps after DMA0 are free, no tracked slot reaches
  // across their end, nor is the start point before it.
  lemma {:induction false} CommandTicks(c: Track, c1: Track, c2: Track, c': Track, l: Latency, g: Grant, x: nat)
    requires Positive(l) && DmasTaken(c, c1, c2, l, g.dma0.start, g.dma1.start)
    requires ValidTrack(c') && CutAt(c2, c', g.dma0.start + l.dma0, l.anti * 2)
    ensures TickFree(c', x) <==>
      && TickFree(c, x) && !(g.dma0.start <= x < g.dma0.start + l.dma0) && !(g.dma1.start <= x < g.dma1.start + l.dma1)
      && !Forgotten(c, c1, c2, l, g, x)
    ensures var end := g.dma0.start + l.dma0 + l.anti * 2;
      FreeAt(c2, g.dma0.start + l.dma0, l.anti * 2) ==>
        end <= c'.startPoint && forall b | b in Tracked(c'.buckets) :: !(b.start < end <= b.end)
  {
    hide ValidTrack, Taken, CutAt, Dropped, InCarved, TickFree, FreeAt;
    TakenTicks(c, c1, g.dma0.start, l.dma0, x);
    TakenTicks(c1, c2, g.dma1.start, l.dma1, x);
    CutTicks(c2, c', g.dma0.start + l.dma0, l.anti * 2, x);
    UncutTicks(c2, c', g.dma0.start + l.dma0, l.anti * 2);
  }

  lemma {:induction false} UncutTicks(f: Track, g: Track, t: nat, len: nat)
    requires ValidTrack(f) && CutAt(f, g, t, len)
    ensures !FreeAt(f, t, len) ==> g == f
  {
  }

  // A smallest key of one forgets nothing.
  lemma {:induction false} KeyOneForgetsNothing(f: Track, t: nat, len: nat, x: nat)
    requires |f.buckets| > 0 && f.buckets[0].key <= 1 && 1 <= len
    ensures !Dropped(f, t, len, x) && !InCarved(f, t, len, true, x)
  {
  }

  // TimelineScheduling for one command.
  method TimelineScheduling(ch: Timeline, die: Timeline, l: Latency, arrived: nat) returns (g: Grant)
    requires ch.Valid() && die.Valid() && ch != die && Positive(l)
    modifies ch, die
    ensures ch.Valid() && die.Valid()
    ensures Granted(old(ch.Free()), old(die.Free()), l, arrived, g)
    ensures Leaves(old(ch.Free()), old(die.Free()), l, g, ch.Free(), die.Free())
    ensures ch.reserved == old(ch.reserved) + [g.dma0, g.dma1]
    ensures die.reserved == old(die.reserved) + [g.mem]
    ensures SameKeys(old(ch.buckets), ch.buckets) && SameKeys(old(die.buckets), die.buckets)
  {
    hide ValidTrack, ReservedApart, Taken, CutAt, Carved, InRegion, Schedule, Dma1Fit, Dma1RoomLost, DmasTaken;
    var DMA0tickFrom, tickDMA0, DMA1tickFrom, tickMEM, totalLat := FindSlots(ch, die, l, arrived);
    ChosenIsPositive(ch.Free(), die.Free(), l, arrived, DMA0tickFrom, tickDMA0, DMA1tickFrom, tickMEM, totalLat);
    var start, c1 := AssignDmas(ch, l, DMA0tickFrom, tickDMA0, DMA1tickFrom);
    ghost var c2 := ch.Free();
    die.InsertFreeSlot(totalLat, DMA0tickFrom, tickMEM, false);
    g := Grant(Piece(DMA0tickFrom, l.dma0), Piece(start, l.dma1), Piece(DMA0tickFrom, totalLat));
    CarvedIsTaken(old(die.Free()), die.Free(), tickMEM, DMA0tickFrom, totalLat);
    SplitAfterDma0(ch, l, DMA0tickFrom + l.dma0);
    assert DmasTaken(old(ch.Free()), c1, c2, l, g.dma0.start, g.dma1.start);
  }

  lemma {:induction false} ChosenIsPositive(c: Track, d: Track, l: Latency, arrived: nat, t: nat, tickDMA0: nat,
      t1: nat, tickMEM: nat, totalLat: nat)
    requires Positive(l) && Chosen(c, d, l, arrived, t, tickDMA0, t1, tickMEM, totalLat)
    ensures 1 <= totalLat
  {
  }

  lemma {:induction false} CarvedIsTaken(f: Track, g: Track, s: nat, t: nat, len: nat)
    requires ValidTrack(f) && InRegion(f, s, t, len) && Carved(f, g, s, t, len, false)
    ensures Taken(f, g, t, len)
  {
  }

  // The same, in one.
  method Serve(ch: Timeline, die: Timeline, l: Latency, arrived: nat) returns (g: Grant)
    requires ch.Valid() && die.Valid() && ch != die && Positive(l)
    modifies ch, die
    ensures ch.Valid() && die.Valid()
    ensures SubmitDone(old(ch.Free()), old(die.Free()), arrived, l, g, ch.Free(), die.Free())
    ensures ch.reserved == old(ch.reserved) + [g.dma0, g.dma1]
    ensures die.reserved == old(die.reserved) + [g.mem]
    ensures SameKeys(old(ch.buckets), ch.buckets) && SameKeys(old(die.buckets), die.buckets)
  {
    hide Granted, Leaves;
    g := TimelineScheduling(ch, die, l, arrived);
  }

  // The phases of a granted command come in order, none before it arrived, and the search never
  // looks past the start points. DMA1 ends with the die reservation exactly when its room was not
  // lost; otherwise it ends later.
  lemma {:induction false} GrantedInOrder(c: Track, d: Track, l: Latency, arrived: nat, g: Grant)
    requires Positive(l) && |c.buckets| > 0 && Granted(c, d, l, arrived, g)
    ensures arrived <= g.dma0.start <= Max(arrived, Horizon(c, d))
    ensures g.mem.start == g.dma0.start && g.dma0.end == g.dma0.start + l.dma0 - 1
    ensures g.dma0.end + l.mem + l.anti < g.dma1.start && g.dma1.end == g.dma1.start + l.dma1 - 1
    ensures g.mem.end <= g.dma1.end
    ensures g.dma1.end == g.mem.end <==> !Dma1RoomLost(c, l, g.dma0.start)
  {
  }

  // ---------- the whole device ----------

  datatype Address = Address(channel: nat, package: nat, die: nat)

  datatype Command =
    | Submit(addr: Address, arrived: nat, lat: Latency)
    | FlushFreeSlots(tick: nat)

  datatype Outcome = Flushed | Scheduled(grant: Grant)

  // CPDPBPtoDieIdx.
  function DieIdx(a: Address, packages: nat, dies: nat): nat {
    a.die + a.package * dies + a.channel * dies * packages
  }

  predicate InGeometry(a: Address, channels: nat, packages: nat, dies: nat) {
    a.channel < channels && a.package < packages && a.die < dies
  }

  lemma {:induction false} DieIdxByRow(a: Address, packages: nat, dies: nat)
    ensures DieIdx(a, packages, dies) == (a.channel * packages + a.package) * dies + a.die
  {
  }

  lemma {:induction false} DieIdxInRange(a: Address, channels: nat, packages: nat, dies: nat)
    requires InGeometry(a, channels, packages, dies)
    ensures DieIdx(a, packages, dies) < channels * packages * dies
  {
    DieIdxByRow(a, packages, dies);
    DigitBound(a.channel, channels, a.package, packages);
    DigitBound(a.channel * packages + a.package, channels * packages, a.die, dies);
  }

  // Two addresses share a die timeline only if they name the same die.
  lemma {:induction false} DieIdxInjective(a: Address, b: Address, channels: nat, packages: nat, dies: nat)
    requires InGeometry(a, channels, packages, dies) && InGeometry(b, channels, packages, dies)
    requires DieIdx(a, packages, dies) == DieIdx(b, packages, dies)
    ensures a == b
  {
    DieIdxByRow(a, packages, dies);
    DieIdxByRow(b, packages, dies);
    ThreeDigitsUnique(a.channel, a.package, a.die, b.channel, b.package, b.die, packages, dies);
  }

  // What holds of the grant of every command.
  ghost predicate InOrder(l: Latency, arrived: nat, minKey: nat, g: Grant) {
    && arrived <= g.dma0.start && g.dma0.end + 1 == g.dma0.start + l.dma0
    && g.dma0.end + l.mem + l.anti < g.dma1.start && g.dma1.end + 1 == g.dma1.start + l.dma1
    && g.mem.start == g.dma0.start && g.mem.end <= g.dma1.end
    && (minKey <= l.dma1 + l.anti ==> g.mem.end == g.dma1.end)
  }

  lemma {:induction false} GrantedIsInOrder(c: Track, d: Track, l: Latency, arrived: nat, g: Grant)
    requires Positive(l) && |c.buckets| > 0 && Granted(c, d, l, arrived, g)
    ensures InOrder(l, arrived, c.buckets[0].key, g)
  {
    GrantedInOrder(c, d, l, arrived, g);
    if c.buckets[0].key <= l.dma1 + l.anti {
      SmallKeyKeepsRoom(c, l, g.dma0.start);
    }
  }

  lemma {:induction false} AppendedApart(f: Track, r: seq<Slot>, more: seq<Slot>, x: Slot, k: nat)
    requires ReservedApart(f, r + more) && x in r && k < |more|
    ensures Apart(x, more[k])
  {
    var i :| 0 <= i < |r| && r[i] == x;
    assert (r + more)[i] == x && (r + more)[|r| + k] == more[k];
  }

  ghost predicate ChannelApart(g: Grant, h: Grant) {
    Apart(g.dma0, h.dma0) && Apart(g.dma0, h.dma1) && Apart(g.dma1, h.dma0) && Apart(g.dma1, h.dma1)
  }

  datatype Logs = Logs(channels: seq<seq<Slot>>, dies: seq<seq<Slot>>)

  // Reservations are only ever added.
  ghost predicate Grown(a: Logs, b: Logs) {
    && |a.channels| == |b.channels| && |a.dies| == |b.dies|
    && (forall k | 0 <= k < |a.channels| :: a.channels[k] <= b.channels[k])
    && (forall k | 0 <= k < |a.dies| :: a.dies[k] <= b.dies[k])
  }

  // The grant is on record with its channel and its die.
  ghost predicate Recorded(log: Logs, channel: nat, die: nat, g: Grant) {
    && channel < |log.channels| && die < |log.dies|
    && g.dma0 in log.channels[channel] && g.dma1 in log.channels[channel] && g.mem in log.dies[die]
  }

  // A grant goes on the record of its channel and of its die, and of no other.
  ghost function WithGrant(log: Logs, channel: nat, die: nat, g: Grant): Logs
    requires channel < |log.channels| && die < |log.dies|
  {
    Logs(log.channels[channel := log.channels[channel] + [g.dma0, g.dma1]],
         log.dies[die := log.dies[die] + [g.mem]])
  }

  lemma {:induction false} WithGrantGrows(log: Logs, channel: nat, die: nat, g: Grant)
    requires channel < |log.channels| && die < |log.dies|
    ensures Grown(log, WithGrant(log, channel, die, g))
    ensures Recorded(WithGrant(log, channel, die, g), channel, die, g)
  {
    assert (log.channels[channel] + [g.dma0, g.dma1])[|log.channels[channel]|] == g.dma0;
  }

  lemma {:induction false} RecordKept(a: Logs, b: Logs, channel: nat, die: nat, g: Grant)
    requires Grown(a, b) && Recorded(a, channel, die, g)
    ensures Recorded(b, channel, die, g)
  {
  }

  // The free tracks of the channels and of the dies.
  datatype Device = Device(channels: seq<Track>, dies: seq<Track>)

  // A command on a channel and a die was granted g in state s and leads to t, in which the other channels and
  // dies are as before.
  ghost predicate SubmitLeads(s: Device, channel: nat, die: nat, arrived: nat, l: Latency, g: Grant, t: Device)
    requires Positive(l)
  {
    && channel < |s.channels| == |t.channels| && die < |s.dies| == |t.dies|
    && (forall k | 0 <= k < |s.channels| && k != channel :: t.channels[k] == s.channels[k])
    && (forall k | 0 <= k < |s.dies| && k != die :: t.dies[k] == s.dies[k])
    && SubmitDone(s.channels[channel], s.dies[die], arrived, l, g, t.channels[channel], t.dies[die])
  }

  ghost predicate SubmitDone(c: Track, d: Track, arrived: nat, l: Latency, g: Grant, c': Track, d': Track)
    requires Positive(l)
  {
    && |c.buckets| > 0 && ValidTrack(d)
    && Granted(c, d, l, arrived, g) && Leaves(c, d, l, g, c', d')
  }

  lemma {:induction false} SubmitInOrder(s: Device, channel: nat, die: nat, arrived: nat, l: Latency, g: Grant,
      t: Device, keys: seq<nat>)
    requires Positive(l) && SubmitLeads(s, channel, die, arrived, l, g, t)
    requires Keys(s.channels[channel].buckets) == keys && |keys| > 0
    ensures InOrder(l, arrived, keys[0], g)
  {
    hide Granted, Leaves, ValidTrack, InOrder;
    GrantedIsInOrder(s.channels[channel], s.dies[die], l, arrived, g);
    assert Keys(s.channels[channel].buckets)[0] == keys[0];
  }

  // The slots that ended before the tick are forgotten.
  ghost predicate TrackFlushed(f: Track, g: Track, tick: nat) {
    && SameKeys(f.buckets, g.buckets) && g.startPoint == f.startPoint
    && Tracked(g.buckets) == EndingFrom(Tracked(f.buckets), tick)
  }

  ghost predicate FlushLeads(s: Device, tick: nat, t: Device) {
    && |s.channels| == |t.channels| && |s.dies| == |t.dies|
    && (forall k | 0 <= k < |s.channels| :: TrackFlushed(s.channels[k], t.channels[k], tick))
    && (forall k | 0 <= k < |s.dies| :: TrackFlushed(s.dies[k], t.dies[k], tick))
  }

  method NewTimelines(n: nat, keys: seq<nat>) returns (ts: seq<Timeline>)
    requires |keys| > 0 && forall i, j | 0 <= i < j < |keys| :: keys[i] < keys[j]
    ensures |ts| == n && forall i, j | 0 <= i < j < n :: ts[i] != ts[j]
    ensures forall i | 0 <= i < n ::
      fresh(ts[i]) && ts[i].Valid() && Keys(ts[i].buckets) == keys && ts[i].reserved == []
  {
    ts := [];
    while |ts| < n
      invariant |ts| <= n && forall i, j | 0 <= i < j < |ts| :: ts[i] != ts[j]
      invariant forall i | 0 <= i < |ts| ::
        fresh(ts[i]) && ts[i].Valid() && Keys(ts[i].buckets) == keys && ts[i].reserved == []
    {
      var t := new Timeline(keys);
      ts := ts + [t];
    }
  }

  method FlushTrack(t: Timeline, tick: nat)
    requires t.Valid()
    modifies t
    ensures t.Valid() && t.reserved == old(t.reserved) && TrackFlushed(old(t.Free()), t.Free(), tick)
    ensures Keys(t.buckets) == old(Keys(t.buckets))
  {
    t.Flush(tick);
  }

  class PAL2 {
    const packages: nat
    const diesInPackage: nat
    const channels: seq<Timeline>
    const dies: seq<Timeline>
    // The bucket keys every channel and every die starts with.
    const channelKeys: seq<nat>
    const dieKeys: seq<nat>

    ghost predicate Separate() {
      && (forall i, j | 0 <= i < j < |channels| :: channels[i] != channels[j])
      && (forall i, j | 0 <= i < j < |dies| :: dies[i] != dies[j])
      && (forall i, j | 0 <= i < |channels| && 0 <= j < |dies| :: channels[i] != dies[j])
    }

    ghost predicate Valid()
      reads channels, dies
    {
      && |dies| == |channels| * packages * diesInPackage
      && Separate()
      && (forall i | 0 <= i < |channels| :: channels[i].Valid() && Keys(channels[i].buckets) == channelKeys)
      && (forall i | 0 <= i < |dies| :: dies[i].Valid() && Keys(dies[i].buckets) == dieKeys)
    }

    constructor (channelCount: nat, packageCount: nat, dieCount: nat, chKeys: seq<nat>, dKeys: seq<nat>)
      requires |chKeys| > 0 && forall i, j | 0 <= i < j < |chKeys| :: chKeys[i] < chKeys[j]
      requires |dKeys| > 0 && forall i, j | 0 <= i < j < |dKeys| :: dKeys[i] < dKeys[j]
      ensures Valid() && |channels| == channelCount && packages == packageCount && diesInPackage == dieCount
      ensures channelKeys == chKeys && dieKeys == dKeys
      ensures forall i | 0 <= i < |channels| :: fresh(channels[i]) && channels[i].reserved == []
      ensures forall i | 0 <= i < |dies| :: fresh(dies[i]) && dies[i].reserved == []
    {
      var cs := NewTimelines(channelCount, chKeys);
      var ds := NewTimelines(channelCount * packageCount * dieCount, dKeys);
      packages, diesInPackage := packageCount, dieCount;
      channels, dies := cs, ds;
      channelKeys, dieKeys := chKeys, dKeys;
    }

    predicate Accepts(cmd: Command) {
      cmd.Submit? ==> InGeometry(cmd.addr, |channels|, packages, diesInPackage) && Positive(cmd.lat)
    }

    function DieOf(a: Address): nat { DieIdx(a, packages, diesInPackage) }

    // Everything reserved so far, per channel and per die.
    ghost function Log(): Logs
      reads channels, dies
    {
      Logs(seq(|channels|, k requires 0 <= k < |channels| reads channels => channels[k].reserved),
           seq(|dies|, k requires 0 <= k < |dies| reads dies => dies[k].reserved))
    }

    ghost function Now(): Device
      reads channels, dies
    {
      Device(seq(|channels|, k requires 0 <= k < |channels| reads channels => channels[k].Free()),
             seq(|dies|, k requires 0 <= k < |dies| reads dies => dies[k].Free()))
    }

    method Submit(a: Address, arrived: nat, l: Latency) returns (g: Grant)
      requires Valid() && InGeometry(a, |channels|, packages, diesInPackage) && Positive(l)
      requires DieOf(a) < |dies|
      modifies channels[a.channel], dies[DieOf(a)]
      ensures Valid()
      ensures SubmitLeads(old(Now()), a.channel, DieOf(a), arrived, l, g, Now())
      ensures Log() == WithGrant(old(Log()), a.channel, DieOf(a), g)
    {
      hide Granted, Leaves, ValidTrack, ReservedApart;
      g := Serve(channels[a.channel], dies[DieOf(a)], l, arrived);
      assert forall k | 0 <= k < |channels| && k != a.channel :: channels[k].Free() == old(channels[k].Free());
      assert forall k | 0 <= k < |dies| && k != DieOf(a) :: dies[k].Free() == old(dies[k].Free());
    }

    // FlushFreeSlots: every channel, then every die.
    method FlushFreeSlots(currentTick: nat)
      requires Valid()
      modifies channels, dies
      ensures Valid() && FlushLeads(old(Now()), currentTick, Now())
      ensures Log() == old(Log())
    {
      hide TrackFlushed, ValidTrack, ReservedApart;
      FlushChannels(currentTick);
      FlushDies(currentTick);
    }

    method FlushChannels(currentTick: nat)
      requires Valid()
      modifies channels
      ensures Valid()
      ensures forall k | 0 <= k < |channels| ::
        TrackFlushed(old(channels[k].Free()), channels[k].Free(), currentTick) &&
        channels[k].reserved == old(channels[k].reserved)
    {
      hide TrackFlushed, ValidTrack, ReservedApart, Keys;
      for i := 0 to |channels|
        invariant Valid()
        invariant forall k | 0 <= k < |channels| :: channels[k].reserved == old(channels[k].reserved)
        invariant forall k | 0 <= k < i :: TrackFlushed(old(channels[k].Free()), channels[k].Free(), currentTick)
        invariant forall k | i <= k < |channels| :: channels[k].Free() == old(channels[k].Free())
      {
        FlushTrack(channels[i], currentTick);
      }
    }

    method FlushDies(currentTick: nat)
      requires Valid()
      modifies dies
      ensures Valid()
      ensures forall k | 0 <= k < |dies| ::
        TrackFlushed(old(dies[k].Free()), dies[k].Free(), currentTick) && dies[k].reserved == old(dies[k].reserved)
    {
      hide TrackFlushed, ValidTrack, ReservedApart, Keys;
      for i := 0 to |dies|
        invariant Valid()
        invariant forall k | 0 <= k < |dies| :: dies[k].reserved == old(dies[k].reserved)
        invariant forall k | 0 <= k < i :: TrackFlushed(old(dies[k].Free()), dies[k].Free(), currentTick)
        invariant forall k | i <= k < |dies| :: dies[k].Free() == old(dies[k].Free())
      {
        FlushTrack(dies[i], currentTick);
      }
    }

    // The promise about commands i < j of a run.
    ghost predicate NoOverlap(a: Command, b: Command, g: Outcome, h: Outcome) {
      a.Submit? && b.Submit? && g.Scheduled? && h.Scheduled? ==>
        && (a.addr.channel == b.addr.channel ==> ChannelApart(g.grant, h.grant))
        && (DieOf(a.addr) == DieOf(b.addr) ==> Apart(g.grant.mem, h.grant.mem))
    }

    // No two of the commands so far overlap.
    ghost predicate NoneOverlap(cmds: seq<Command>, outs: seq<Outcome>)
      requires |outs| <= |cmds|
    {
      forall i, j | 0 <= i < j < |outs| :: NoOverlap(cmds[i], cmds[j], outs[i], outs[j])
    }

    lemma {:induction false} NoneOverlapWithNext(cmds: seq<Command>, outs: seq<Outcome>, out: Outcome)
      requires |outs| < |cmds| && NoneOverlap(cmds, outs)
      requires forall i | 0 <= i < |outs| :: NoOverlap(cmds[i], cmds[|outs|], outs[i], out)
      ensures NoneOverlap(cmds, outs + [out])
    {
      var r := outs + [out];
      forall i, j | 0 <= i < j < |r| ensures NoOverlap(cmds[i], cmds[j], r[i], r[j]) {
        if j < |outs| {
          assert r[j] == outs[j];
        }
        assert r[i] == outs[i];
      }
    }

    ghost predicate Served(cmd: Command, out: Outcome)
      requires |channelKeys| > 0
    {
      if cmd.Submit? then out.Scheduled? && InOrder(cmd.lat, cmd.arrived, channelKeys[0], out.grant) else out.Flushed?
    }

    // What a command with this outcome leads to.
    ghost predicate Leads(s: Device, cmd: Command, out: Outcome, t: Device)
      requires Accepts(cmd)
    {
      match cmd
      case Submit(addr, arrived, lat) =>
        out.Scheduled? && SubmitLeads(s, addr.channel, DieOf(addr), arrived, lat, out.grant, t)
      case FlushFreeSlots(tick) => out.Flushed? && FlushLeads(s, tick, t)
    }

    ghost predicate OnRecord(log: Logs, cmd: Command, out: Outcome) {
      cmd.Submit? && out.Scheduled? ==> Recorded(log, cmd.addr.channel, DieOf(cmd.addr), out.grant)
    }

    ghost predicate AllOnRecord(log: Logs, cmds: seq<Command>, outs: seq<Outcome>)
      requires |outs| <= |cmds|
    {
      forall i | 0 <= i < |outs| :: OnRecord(log, cmds[i], outs[i])
    }

    lemma {:induction false} OnRecordKept(a: Logs, b: Logs, cmds: seq<Command>, outs: seq<Outcome>)
      requires Grown(a, b) && |outs| <= |cmds| && AllOnRecord(a, cmds, outs)
      ensures AllOnRecord(b, cmds, outs)
    {
      forall i | 0 <= i < |outs| ensures OnRecord(b, cmds[i], outs[i]) {
        if cmds[i].Submit? && outs[i].Scheduled? {
          RecordKept(a, b, cmds[i].addr.channel, DieOf(cmds[i].addr), outs[i].grant);
        }
      }
    }

    // A grant on record is apart from the ones appended after it.
    lemma {:induction false} LaterGrantApart(a: Address, g: Grant, b: Address, h: Grant, ch: seq<Slot>, die: seq<Slot>)
      requires Valid() && a.channel < |channels| && b.channel < |channels| && DieOf(a) < |dies| && DieOf(b) < |dies|
      requires channels[b.channel].reserved == ch + [h.dma0, h.dma1] && dies[DieOf(b)].reserved == die + [h.mem]
      requires a.channel == b.channel ==> g.dma0 in ch && g.dma1 in ch
      requires DieOf(a) == DieOf(b) ==> g.mem in die
      ensures a.channel == b.channel ==> ChannelApart(g, h)
      ensures DieOf(a) == DieOf(b) ==> Apart(g.mem, h.mem)
    {
      if a.channel == b.channel {
        var c := channels[b.channel];
        assert c.Valid();
        AppendedApart(c.Free(), ch, [h.dma0, h.dma1], g.dma0, 0);
        AppendedApart(c.Free(), ch, [h.dma0, h.dma1], g.dma0, 1);
        AppendedApart(c.Free(), ch, [h.dma0, h.dma1], g.dma1, 0);
        AppendedApart(c.Free(), ch, [h.dma0, h.dma1], g.dma1, 1);
      }
      if DieOf(a) == DieOf(b) {
        var d := dies[DieOf(b)];
        assert d.Valid();
        AppendedApart(d.Free(), die, [h.mem], g.mem, 0);
      }
    }

    // One command of a run, after commands whose grants are on record.
    method Execute(cmd: Command, ghost cmds: seq<Command>, ghost given: seq<Outcome>) returns (out: Outcome)
      requires Valid() && |channelKeys| > 0 && Accepts(cmd)
      requires |given| < |cmds| && cmd == cmds[|given|]
      requires AllOnRecord(Log(), cmds, given)
      modifies channels, dies
      ensures Valid() && Grown(old(Log()), Log())
      ensures Served(cmd, out) && OnRecord(Log(), cmd, out) && Leads(old(Now()), cmd, out, Now())
      ensures forall i | 0 <= i < |given| :: NoOverlap(cmds[i], cmd, given[i], out)
    {
      hide Granted, Leaves, ValidTrack, ReservedApart, TrackFlushed, Taken, InOrder, Keys, SubmitDone;
      if cmd.FlushFreeSlots? {
        FlushFreeSlots(cmd.tick);
        return Flushed;
      }
      DieIdxInRange(cmd.addr, |channels|, packages, diesInPackage);
      ghost var log := Log();
      var g := Submit(cmd.addr, cmd.arrived, cmd.lat);
      WithGrantGrows(log, cmd.addr.channel, DieOf(cmd.addr), g);
      SubmitInOrder(old(Now()), cmd.addr.channel, DieOf(cmd.addr), cmd.arrived, cmd.lat, g, Now(), channelKeys);
      out := Scheduled(g);
      forall i | 0 <= i < |given| && cmds[i].Submit? && given[i].Scheduled?
        ensures NoOverlap(cmds[i], cmd, given[i], out)
      {
        assert OnRecord(log, cmds[i], given[i]);
        LaterGrantApart(cmds[i].addr, given[i].grant, cmd.addr, g, log.channels[cmd.addr.channel],
          log.dies[DieOf(cmd.addr)]);
      }
    }

    // Any run of submits and flushes: commands are served in order of their phases, and no two
    // of them are given the same tick of a channel or of a die. Each is granted its schedule on the free
    // tracks that the ones before it led to.
    method Run(cmds: seq<Command>) returns (outs: seq<Outcome>, ghost trace: seq<Device>)
      requires Valid() && |channelKeys| > 0 && forall i | 0 <= i < |cmds| :: Accepts(cmds[i])
      modifies channels, dies
      ensures Valid()
      ensures |outs| == |cmds| && forall i | 0 <= i < |cmds| :: Served(cmds[i], outs[i])
      ensures NoneOverlap(cmds, outs)
      ensures |trace| == |cmds| + 1 && trace[0] == old(Now()) && trace[|cmds|] == Now()
      ensures forall i | 0 <= i < |cmds| :: Leads(trace[i], cmds[i], outs[i], trace[i + 1])
    {
      hide Leads, Served, NoneOverlap, AllOnRecord, ValidTrack, ReservedApart;
      outs, trace := [], [Now()];
      NoneYet(cmds);
      while |outs| < |cmds|
        invariant Valid() && |outs| <= |cmds|
        invariant forall i | 0 <= i < |outs| :: Served(cmds[i], outs[i])
        invariant AllOnRecord(Log(), cmds, outs)
        invariant NoneOverlap(cmds, outs)
        invariant |trace| == |outs| + 1 && trace[0] == old(Now()) && trace[|outs|] == Now()
        invariant forall i | 0 <= i < |outs| :: Leads(trace[i], cmds[i], outs[i], trace[i + 1])
      {
        ghost var log := Log();
        var out := Execute(cmds[|outs|], cmds, outs);
        OnRecordKept(log, Log(), cmds, outs);
        NoneOverlapWithNext(cmds, outs, out);
        RecordOne(Log(), cmds, outs, out);
        outs, trace := outs + [out], trace + [Now()];
      }
    }

    lemma {:induction false} NoneYet(cmds: seq<Command>)
      ensures NoneOverlap(cmds, []) && AllOnRecord(Log(), cmds, [])
    {
    }

    lemma {:induction false} RecordOne(log: Logs, cmds: seq<Command>, outs: seq<Outcome>, out: Outcome)
      requires |outs| < |cmds| && AllOnRecord(log, cmds, outs) && OnRecord(log, cmds[|outs|], out)
      ensures AllOnRecord(log, cmds, outs + [out])
    {
      forall i | 0 <= i < |outs| + 1 ensures OnRecord(log, cmds[i], (outs + [out])[i]) {
        if i < |outs| {
          assert (outs + [out])[i] == outs[i];
        }
      }
    }
  }
}
