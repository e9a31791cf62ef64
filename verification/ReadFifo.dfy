// The read pipeline of the DMA FIFO: waiting entries are read from the upstream one after the
// other, and handed downstream one after the other. A fragment is complete when both the
// upstream's read and the insertion have ended; their two signals come in either order.
module ReadFifos {
  import opened Fragments
  import opened Options

  datatype ReadEntry = ReadEntry(id: nat, insertEndAt: nat, dmaEndAt: nat, latency: nat)

  // What is pending of the insertion of the front fragment: the insertDone event; the end of its
  // read; nothing (both signals are there); the submitCompletion event; its handler.
  datatype Stage = Idle | Inserting | Inserted | Merging | Completing | Ready | Calling {
    // The record of the front fragment is gone.
    predicate Merged() { Completing? || Ready? || Calling? }

    predicate AtRest() { !Merging? && !Ready? && !Calling? }
  }

  // The records are those of the fragments q, read at the given ticks.
  ghost predicate Recorded(records: seq<ReadEntry>, q: seq<Entry>, at: seq<nat>, latency: nat -> nat, unit: nat) {
    && |records| == |q| == |at|
    && forall k | 0 <= k < |q| ::
         records[k].id == q[k].id && records[k].dmaEndAt == at[k]
           && records[k].latency == UnitLatency(latency, unit, q[k].size)
  }

  // Fragments are numbered in order.
  ghost predicate Numbered(q: seq<Entry>, counter: nat) {
    && (forall i, j | 0 <= i < j < |q| :: q[i].id < q[j].id)
    && (forall i | 0 <= i < |q| :: q[i].id < counter)
  }

  // Of the queued fragments q the first n were read, at the ticks in at. There is a record for each
  // of those, except a front one whose two signals were merged; only if the single fragment is
  // inserted before it was read, the record is for that.
  ghost predicate LandingOk(records: seq<ReadEntry>, q: seq<Entry>, n: int, at: seq<nat>, stage: Stage, counter: nat,
      latency: nat -> nat, unit: nat)
  {
    && 0 <= n <= |q| <= n + 1 && |at| == n
    && Numbered(q, counter)
    && (stage.Merging? || stage.Merged() ==> n >= 1)
    && if stage.Inserted? then
         && n == 0 && |records| == |q| == 1 && records[0].id == q[0].id
         && records[0].latency == UnitLatency(latency, unit, q[0].size)
       else
         var skip := if stage.Merged() then 1 else 0;
         Recorded(records, q[skip..n], at[skip..], latency, unit)
  }

  lemma {:induction false} LandingAsked(records: seq<ReadEntry>, q: seq<Entry>, at: seq<nat>, stage: Stage,
      counter: nat, e: Entry, latency: nat -> nat, unit: nat)
    requires LandingOk(records, q, |q|, at, stage, counter, latency, unit) && e.id == counter
    ensures LandingOk(records, q + [e], |q|, at, stage, counter + 1, latency, unit)
  {
    var skip := if stage.Merged() then 1 else 0;
    assert (q + [e])[skip..|q|] == q[skip..|q|];
  }

  // The upstream's callback for the last fragment adds its record.
  lemma {:induction false} LandingRecorded(records: seq<ReadEntry>, q: seq<Entry>, at: seq<nat>, stage: Stage,
      counter: nat, now: nat, latency: nat -> nat, unit: nat)
    requires |q| > 0 && LandingOk(records, q, |q| - 1, at, stage, counter, latency, unit)
    requires !stage.Inserted?
    ensures stage.Merged() ==> |at| > 0
    ensures var e := q[|q| - 1];
      LandingOk(records + [ReadEntry(e.id, 0, now, UnitLatency(latency, unit, e.size))], q, |q|, at + [now], stage,
        counter,
        latency, unit)
  {
    var skip := if stage.Merged() then 1 else 0;
    assert q[skip..|q| - 1] + [q[|q| - 1]] == q[skip..|q|];
    assert at[skip..] + [now] == (at + [now])[skip..];
  }

  // The callback completes the record left by the insertion.
  lemma {:induction false} LandingMerges(records: seq<ReadEntry>, q: seq<Entry>, at: seq<nat>,
      counter: nat, now: nat, latency: nat -> nat, unit: nat)
    requires |q| > 0 && LandingOk(records, q, |q| - 1, at, Inserted, counter, latency, unit)
    ensures LandingOk([records[0].(dmaEndAt := now)], q, |q|, at + [now], Merging, counter, latency, unit)
  {
    assert q[0..|q|] == q && at == [];
  }

  // Where the record of a fragment is found.
  lemma {:induction false} LandingFind(records: seq<ReadEntry>, q: seq<Entry>, n: int, at: seq<nat>, stage: Stage,
      counter: nat, k: nat, latency: nat -> nat, unit: nat)
    requires LandingOk(records, q, n, at, stage, counter, latency, unit)
    requires k < |records|
    ensures forall j | k < j < |records| :: records[j].id != records[k].id
    ensures |q| > 0 && n == |q| - 1 && records[k].id == q[|q| - 1].id ==> stage.Inserted? && k == 0 && |records| == 1
    ensures |q| > 0 && !stage.Merged() && records[k].id == q[0].id ==> k == 0
    ensures stage.Inserting? && |q| > 0 && records[k].id == q[0].id ==>
      LandingOk(records, q, n, at, Merging, counter, latency, unit)
  {
    var skip := if stage.Merged() then 1 else 0;
    if !stage.Inserted? {
      assert records[k].id == q[skip..n][k].id == q[skip + k].id;
      forall j | k < j < |records| ensures records[j].id != records[k].id {
        assert records[j].id == q[skip..n][j].id == q[skip + j].id;
      }
    }
  }

  // The insertion of a fragment that was not read yet leaves a record.
  lemma {:induction false} LandingInserted(records: seq<ReadEntry>, q: seq<Entry>, n: int, at: seq<nat>,
      counter: nat, now: nat, latency: nat -> nat, unit: nat)
    requires LandingOk(records, q, n, at, Inserting, counter, latency, unit) && |q| > 0
    requires forall j | 0 <= j < |records| :: records[j].id != q[0].id
    ensures n == 0
    ensures LandingOk(records + [ReadEntry(q[0].id, now, 0, UnitLatency(latency, unit, q[0].size))], q, n, at,
      Inserted, counter,
      latency, unit)
  {
    if n >= 1 {
      LandingFound(records, q, n, at, Inserting, counter, latency, unit);
      assert false;
    }
  }

  lemma {:induction false} LandingFound(records: seq<ReadEntry>, q: seq<Entry>, n: int, at: seq<nat>, stage: Stage,
      counter: nat, latency: nat -> nat, unit: nat)
    requires LandingOk(records, q, n, at, stage, counter, latency, unit) && |q| > 0 && !stage.Merged()
    requires n >= 1 || stage.Inserted? || stage.Merging?
    ensures |records| > 0 && records[0].id == q[0].id && |at| == n
    ensures stage.Merging? ==> n >= 1
    ensures n >= 1 ==> records[0].dmaEndAt == at[0] && records[0].latency == UnitLatency(latency, unit, q[0].size)
  {
    if !stage.Inserted? {
      assert q[0..n][0] == q[0] && at[0..][0] == at[0];
    }
  }

  lemma {:induction false} OneQueued(records: seq<ReadEntry>, q: seq<Entry>, n: int, at: seq<nat>, counter: nat,
      latency: nat -> nat, unit: nat)
    requires LandingOk(records, q, n, at, Inserted, counter, latency, unit)
    ensures |q| == |records| == 1 && records[0].id == q[0].id
  { }

  // The front record is dropped once both signals are there.
  lemma {:induction false} LandingDrop(records: seq<ReadEntry>, q: seq<Entry>, n: int, at: seq<nat>, stage: Stage,
      stage': Stage, counter: nat, latency: nat -> nat, unit: nat)
    requires LandingOk(records, q, n, at, stage, counter, latency, unit) && n >= 1
    requires !stage.Merged() && stage'.Merged()
    ensures LandingOk(records[1..], q, n, at, stage', counter, latency, unit)
  {
    assert q[0..n][1..] == q[1..n] && at[0..][1..] == at[1..];
    forall k | 0 <= k < n - 1
      ensures var r := records[1..][k];
        r.id == q[1..n][k].id && r.dmaEndAt == at[1..][k] && r.latency == UnitLatency(latency, unit, q[1..n][k].size)
    {
      assert records[1..][k] == records[k + 1] && q[0..n][k + 1] == q[1..n][k] && at[0..][k + 1] == at[1..][k];
    }
  }

  // The front fragment leaves.
  lemma {:induction false} LandingPop(records: seq<ReadEntry>, q: seq<Entry>, n: int, at: seq<nat>, stage: Stage,
      counter: nat, latency: nat -> nat, unit: nat)
    requires LandingOk(records, q, n, at, stage, counter, latency, unit) && stage.Merged()
    ensures |q| > 0 && |at| > 0 && LandingOk(records, q[1..], n - 1, at[1..], Idle, counter, latency, unit)
  {
    assert q[1..][0..n - 1] == q[1..n] && at[1..][0..] == at[1..];
    forall i, j | 0 <= i < j < |q[1..]| ensures q[1..][i].id < q[1..][j].id {
      assert q[1..][i] == q[i + 1] && q[1..][j] == q[j + 1];
    }
  }

  // The handlers called are those of the finished fragments, and of the front one while it is called.
  ghost predicate LogsOk(called: seq<nat>, done: seq<Entry>, q: seq<Entry>, calling: bool) {
    (calling ==> |q| > 0) && called == Fired(done + if calling then q[..1] else [])
  }

  // A fragment finishes one unit's latency after it was read, or later.
  ghost predicate TimelyOk(done: seq<Entry>, doneAt: seq<nat>, landedAt: seq<nat>, q: seq<Entry>, due: Option<nat>,
      latency: nat -> nat, unit: nat)
  {
    && |doneAt| == |done| <= |landedAt|
    && (forall k | 0 <= k < |done| :: doneAt[k] >= landedAt[k] + UnitLatency(latency, unit, done[k].size))
    && (due.Some? ==> |q| > 0 && |landedAt| > |done|)
    && (due.Some? ==> due.value >= landedAt[|done|] + UnitLatency(latency, unit, q[0].size))
  }

  lemma {:induction false} QueueGrows(called: seq<nat>, done: seq<Entry>, q: seq<Entry>, calling: bool,
      doneAt: seq<nat>, landedAt: seq<nat>, due: Option<nat>, e: Entry, latency: nat -> nat, unit: nat)
    requires LogsOk(called, done, q, calling) && TimelyOk(done, doneAt, landedAt, q, due, latency, unit)
    ensures LogsOk(called, done, q + [e], calling) && TimelyOk(done, doneAt, landedAt, q + [e], due, latency, unit)
  {
    assert |q| > 0 ==> (q + [e])[..1] == q[..1];
  }

  lemma {:induction false} ReadLater(done: seq<Entry>, doneAt: seq<nat>, landedAt: seq<nat>, q: seq<Entry>,
      due: Option<nat>, now: nat, latency: nat -> nat, unit: nat)
    requires TimelyOk(done, doneAt, landedAt, q, due, latency, unit)
    ensures TimelyOk(done, doneAt, landedAt + [now], q, due, latency, unit)
  { }

  lemma {:induction false} FrontLeaves(called: seq<nat>, done: seq<Entry>, q: seq<Entry>,
      doneAt: seq<nat>, landedAt: seq<nat>, now: nat, due: Option<nat>, latency: nat -> nat, unit: nat)
    requires LogsOk(called, done, q, true) && TimelyOk(done, doneAt, landedAt, q, due, latency, unit)
    requires |landedAt| > |done| && now >= landedAt[|done|] + UnitLatency(latency, unit, q[0].size)
    ensures LogsOk(called, done + [q[0]], q[1..], false)
    ensures TimelyOk(done + [q[0]], doneAt + [now], landedAt, q[1..], None, latency, unit)
  {
    assert q[..1] == [q[0]] && done + [q[0]] + [] == done + [q[0]];
  }

  lemma {:induction false} HandlerRuns(called: seq<nat>, done: seq<Entry>, q: seq<Entry>)
    requires LogsOk(called, done, q, false) && |q| > 0
    ensures LogsOk(if q[0].last then called + [q[0].context] else called, done, q, true)
  {
    FiredAppend(done, q[0]);
    assert q[..1] == [q[0]] && done + [] == done;
  }

  lemma {:induction false} NothingYet(p: Param, latency: nat -> nat)
    requires ParamOk(p)
    ensures StreamOk(p, [], [], [], false, []) && TotalSize([], p.unit) == 0
    ensures LandingOk([], [], 0, [], Idle, 0, latency, p.unit)
    ensures LogsOk([], [], [], false) && TimelyOk([], [], [], [], None, latency, p.unit)
  {
    hide Covers, Recorded, Fired, UnitLatency, CalcSize;
    NothingLands(latency, p.unit);
    NothingCovered();
  }

  lemma {:induction false} NothingLands(latency: nat -> nat, unit: nat)
    requires 1 <= unit
    ensures Recorded([], [], [], latency, unit) && Recorded([], [][0..0], [][0..], latency, unit)
  {
  }

  lemma {:induction false} NothingCovered()
    ensures Covers([], []) && Covers([] + [] + [], []) && Fired([]) == [] && Fired([] + []) == []
  {
  }

  // The records, the fragments finished and when, and the contexts whose handler was called.
  datatype Log = Log(records: seq<ReadEntry>, done: seq<Entry>, doneAt: seq<nat>, called: seq<nat>)

  predicate HasRecord(records: seq<ReadEntry>, id: nat) {
    exists j :: 0 <= j < |records| && records[j].id == id
  }

  // The queues, and the event that begins an insertion.
  datatype Queues = Queues(usage: nat, waitQueue: seq<Entry>, transferQueue: seq<Entry>, transferPending: bool,
    beginTransfer: Option<nat>, counter: nat)

  // An event that was scheduled or moved is not due before now.
  predicate NotInPast(before: Option<nat>, event: Option<nat>, now: nat) {
    event == before || (event.Some? ==> event.value >= now)
  }

  class ReadFifo {
    const p: Param
    const latency: nat -> nat

    var usage: nat
    var waitQueue: seq<Entry>
    var transferQueue: seq<Entry>
    var insertPending: bool
    var transferPending: bool
    var insertDone: Option<nat>
    var beginTransfer: Option<nat>
    var submitCompletion: Option<nat>
    var counter: nat
    var readCompletion: seq<ReadEntry>

    // The requests taken in; the fragments asked of the upstream are done + transferQueue. The ticks
    // at which fragments were read and finished, and the contexts whose handler was called.
    ghost var requests: seq<Request>
    ghost var done: seq<Entry>
    ghost var landedAt: seq<nat>
    ghost var doneAt: seq<nat>
    ghost var called: seq<nat>
    ghost var stage: Stage
    // The upstream's callback is being handled.
    ghost var landing: bool

    ghost predicate Stream()
      reads this
    {
      ParamOk(p) && StreamOk(p, done, transferQueue, waitQueue, transferPending, requests)
    }

    // The usage is that of the queued fragments, and within the capacity unless a request was larger
    // than the whole FIFO.
    ghost predicate Space()
      reads this
    {
      ParamOk(p) && usage == TotalSize(transferQueue, p.unit) && (usage <= p.capacity || Oversized(p, requests))
    }

    // The flags agree with what is scheduled, so no event is scheduled twice, and an event finds
    // the entry it is about.
    ghost predicate Flags()
      reads this
    {
      && (insertPending <==> !stage.Idle?)
      && (insertDone.Some? <==> stage.Inserting?)
      && (submitCompletion.Some? <==> stage.Completing?)
      && (transferPending ==> |waitQueue| > 0)
      && (landing ==> transferPending)
      && (insertPending ==> |transferQueue| > 0)
      && (beginTransfer.Some? ==> |transferQueue| > if insertPending then 1 else 0)
    }

    // The last fragment is still being read, and is the front of the waiting ones.
    ghost predicate Awaited()
      reads this
    {
      transferPending && !landing ==>
        && |transferQueue| > 0 && |waitQueue| > 0
        && waitQueue[0] == transferQueue[|transferQueue| - 1]
    }

    // How many of the queued fragments have been read.
    ghost function LandedCount(): int
      reads this
    {
      if transferPending && !landing then |transferQueue| - 1 else |transferQueue|
    }

    ghost predicate Landing()
      reads this
    {
      && |landedAt| >= |done|
      && LandingOk(readCompletion, transferQueue, LandedCount(), landedAt[|done|..], stage, counter, latency, p.unit)
    }

    ghost predicate Logs()
      reads this
    {
      LogsOk(called, done, transferQueue, stage.Calling?)
    }

    // The tick the front fragment may finish at.
    ghost function FrontDue(): nat
      requires |transferQueue| > 0 && |landedAt| > |done|
      reads this
    {
      landedAt[|done|] + UnitLatency(latency, p.unit, transferQueue[0].size)
    }

    ghost predicate Timely()
      reads this
    {
      TimelyOk(done, doneAt, landedAt, transferQueue, submitCompletion, latency, p.unit)
    }

    ghost predicate Core()
      reads this
    {
      Stream() && Space() && Flags() && Awaited() && Landing() && Logs() && Timely()
    }

    // Queued fragments are on their way.
    ghost predicate Drains()
      reads this
    {
      |transferQueue| > 0 ==> insertPending || beginTransfer.Some?
    }

    // The front entry waits only while there is no room for it, and there can be room for it.
    ghost predicate HeldBackOnlyIfFull()
      reads this
    {
      1 <= p.unit && (|waitQueue| > 0 && !transferPending ==>
        CalcSize(waitQueue[0].size, p.unit) <= p.capacity < usage + CalcSize(waitQueue[0].size, p.unit))
    }

    ghost predicate Valid()
      reads this
    {
      Core() && Drains() && HeldBackOnlyIfFull()
    }

    // Nothing is scheduled and the upstream owes no callback.
    ghost predicate Quiet()
      reads this
    {
      insertDone.None? && beginTransfer.None? && submitCompletion.None? && !transferPending && stage.AtRest()
    }

    // An upper bound on the events still to come.
    ghost function Work(): int
      requires ParamOk(p) && (transferPending ==> |waitQueue| > 0)
      reads this
    {
      7 * TotalPieces(Todo(waitQueue, transferPending), p) + 5 * |transferQueue|
      + (if transferPending && !landing then 1 else 0) + (if beginTransfer.Some? then 1 else 0)
      - (match stage case Idle => 0 case Inserting => 1 case Inserted => 2 case Merging => 2 case _ => 3)
    }

    constructor (p: Param, latency: nat -> nat)
      requires ParamOk(p)
      ensures Valid() && this.p == p && this.latency == latency
      ensures requests == [] && Quiet()
    {
      this.p, this.latency := p, latency;
      usage, waitQueue, transferQueue := 0, [], [];
      insertPending, transferPending := false, false;
      insertDone, beginTransfer, submitCompletion := None, None, None;
      counter, readCompletion := 0, [];
      requests, done, landedAt, doneAt, called := [], [], [], [], [];
      stage, landing := Idle, false;
      new;
      hide Covers, StreamOk, LandingOk, LogsOk, TimelyOk, TotalSize, Oversized;
      NothingYet(p, latency);
    }

    // The front entry is too large for the FIFO.
    method CutFront()
      requires Core() && Drains() && !transferPending && |waitQueue| > 0
      requires CalcSize(waitQueue[0].size, p.unit) > p.capacity
      modifies `waitQueue
      ensures ReadyToAsk() && Space() && Flags() && Landing() && Logs() && Timely() && Drains()
      ensures TotalPieces(waitQueue, p) == old(TotalPieces(waitQueue, p))
      ensures waitQueue == [FirstPart(old(waitQueue[0]), p.unit), RestPart(old(waitQueue[0]), p.unit)] +
        old(waitQueue)[1..]
    {
      hide Covers, Fired, LogsOk, TimelyOk, TotalSize, TotalPieces, Pieces, LandingOk;
      CutKeeps(p, done, transferQueue, waitQueue, requests);
      waitQueue := [FirstPart(waitQueue[0], p.unit), RestPart(waitQueue[0], p.unit)] + waitQueue[1..];
    }

    // The front entry fits.
    ghost predicate ReadyToAsk()
      reads this
    {
      && ParamOk(p) && !transferPending && |waitQueue| > 0
      && Covers(done + transferQueue + waitQueue, requests)
      && (forall k | 0 <= k < |transferQueue| :: 1 <= transferQueue[k].size)
      && Fresh(waitQueue[1..]) && 1 <= waitQueue[0].size && CalcSize(waitQueue[0].size, p.unit) <= p.capacity
      && (usage + CalcSize(waitQueue[0].size, p.unit) <= p.capacity || Oversized(p, requests))
    }

    ghost function Now(): Queues
      reads `usage, `waitQueue, `transferQueue, `transferPending, `beginTransfer, `counter
    {
      Queues(usage, waitQueue, transferQueue, transferPending, beginTransfer, counter)
    }

    // The entry e is asked of the upstream and queued under a fresh number.
    ghost predicate Asked(e: Entry, q: Queues, now: nat, q': Queues)
      requires 1 <= p.unit
    {
      && q'.transferPending && q'.counter == q.counter + 1 && q'.usage == q.usage + CalcSize(e.size, p.unit)
      && q'.transferQueue == q.transferQueue + [e.(id := q.counter)]
      && |q'.waitQueue| > 0 && q'.waitQueue[0] == q'.transferQueue[|q'.transferQueue| - 1]
      && q'.beginTransfer ==
         if q.beginTransfer.Some? then q.beginTransfer else Some(now + UnitLatency(latency, p.unit, e.size))
    }

    // What becomes of the waiting entries: the front one, cut if it is larger than the FIFO, is asked of the
    // upstream, or all wait on while another is being read or there is no room.
    ghost predicate AskedNext(q: Queues, now: nat, q': Queues)
      requires 1 <= p.unit && |q.waitQueue| > 0
    {
      var front := q.waitQueue[0];
      var size := CalcSize(front.size, p.unit);
      if (q.transferPending || q.usage + size > p.capacity) && size <= p.capacity then q' == q
      else
        && (size > p.capacity ==> p.unit <= front.size)
        && Asked(if size <= p.capacity then front else FirstPart(front, p.unit), q, now, q')
        && q'.waitQueue[1..] == (if size <= p.capacity then [] else [RestPart(front, p.unit)]) + q.waitQueue[1..]
    }

    // The next waiting entry, if any, goes on.
    ghost predicate GoesOn(q: Queues, now: nat, q': Queues)
      requires 1 <= p.unit
    {
      if |q.waitQueue| > 0 then AskedNext(q, now, q') else q' == q
    }

    // The fragment that was read leaves the waiting queue.
    ghost function Released(q: Queues): Queues
      requires |q.waitQueue| > 0
    {
      q.(waitQueue := q.waitQueue[1..], transferPending := false)
    }

    // A request arrives.
    ghost predicate Submitted(q: Queues, r: Request, now: nat, q': Queues)
      requires 1 <= p.unit
    {
      if r.size == 0 then q' == q else AskedNext(q.(waitQueue := q.waitQueue + [Whole(r)]), now, q')
    }

    ghost predicate AllSubmitted(q: Queues, rs: seq<Request>, now: nat, q': Queues)
      requires 1 <= p.unit
      decreases |rs|
    {
      if |rs| == 0 then q' == q
      else exists m: Queues :: Submitted(q, rs[0], now, m) && AllSubmitted(m, rs[1..], now, q')
    }

    lemma {:induction false} SubmittedOne(q: Queues, rs: seq<Request>, r: Request, now: nat, m: Queues, q': Queues)
      requires 1 <= p.unit && AllSubmitted(q, rs, now, m) && Submitted(m, r, now, q')
      ensures AllSubmitted(q, rs + [r], now, q')
      decreases |rs|
    {
      hide Submitted;
      if |rs| == 0 {
        assert [r][1..] == [] && AllSubmitted(q', [], now, q');
        assert [] + [r] == [r];
      } else {
        var k: Queues :| Submitted(q, rs[0], now, k) && AllSubmitted(k, rs[1..], now, m);
        SubmittedOne(k, rs[1..], r, now, m, q');
        assert (rs + [r])[1..] == rs[1..] + [r];
      }
    }

    // The front fragment leaves.
    ghost function WithoutFront(q: Queues): Queues
      requires 1 <= p.unit && |q.transferQueue| > 0 && q.usage >= CalcSize(q.transferQueue[0].size, p.unit)
    {
      q.(usage := q.usage - CalcSize(q.transferQueue[0].size, p.unit), transferQueue := q.transferQueue[1..])
    }

    // The front fragment finishes: its handler submits requests if it is a last one, which leads to m, it
    // leaves, and the next waiting entry goes on.
    ghost predicate Finishes(q: Queues, followUps: seq<Request>, now: nat, m: Queues, q': Queues)
      requires 1 <= p.unit && |q.transferQueue| > 0
    {
      && AllSubmitted(q, if q.transferQueue[0].last then followUps else [], now, m)
      && |m.transferQueue| > 0 && m.usage >= CalcSize(m.transferQueue[0].size, p.unit)
      && GoesOn(WithoutFront(m), now, q')
    }

    // When the front fragment leaves, the insertion of the next one ends, unless it is still to begin.
    ghost function InsertedAt(q: Queues, now: nat): Option<nat>
      requires 1 <= p.unit
    {
      if |q.transferQueue| > 1 && q.beginTransfer.None? then
        Some(now + latency(CalcSize(q.transferQueue[1].size, p.unit)))
      else None
    }

    ghost predicate FinishedTo(q: Queues, followUps: seq<Request>, now: nat, q': Queues)
      requires 1 <= p.unit
      reads `insertDone, `stage
    {
      |q.transferQueue| > 0 && exists m: Queues ::
        && Finishes(q, followUps, now, m, q')
        && insertDone == InsertedAt(m, now) && stage == (if InsertedAt(m, now).None? then Idle else Inserting)
    }

    lemma {:induction false} AskedNotInPast(q: Queues, now: nat, q': Queues)
      requires 1 <= p.unit && GoesOn(q, now, q')
      ensures NotInPast(q.beginTransfer, q'.beginTransfer, now)
    {
    }

    // No event is scheduled for a tick before the one it is scheduled at.
    lemma {:induction false} SubmittedNotInPast(q: Queues, rs: seq<Request>, now: nat, q': Queues)
      requires 1 <= p.unit && AllSubmitted(q, rs, now, q')
      ensures NotInPast(q.beginTransfer, q'.beginTransfer, now)
      decreases |rs|
    {
      if |rs| > 0 {
        var m: Queues :| Submitted(q, rs[0], now, m) && AllSubmitted(m, rs[1..], now, q');
        if rs[0].size > 0 {
          AskedNotInPast(q.(waitQueue := q.waitQueue + [Whole(rs[0])]), now, m);
        }
        SubmittedNotInPast(m, rs[1..], now, q');
      }
    }

    lemma {:induction false} FinishedNotInPast(q: Queues, followUps: seq<Request>, now: nat, q': Queues)
      requires 1 <= p.unit && FinishedTo(q, followUps, now, q')
      ensures NotInPast(q.beginTransfer, q'.beginTransfer, now) && NotInPast(None, insertDone, now)
    {
      var m: Queues :| Finishes(q, followUps, now, m, q') && insertDone == InsertedAt(m, now);
      SubmittedNotInPast(q, if q.transferQueue[0].last then followUps else [], now, m);
      AskedNotInPast(WithoutFront(m), now, q');
    }

    ghost function Logged(): Log
      reads `readCompletion, `done, `doneAt, `called
    {
      Log(readCompletion, done, doneAt, called)
    }

    // A first signal: it is recorded, and nothing is finished.
    ghost predicate Records(r: ReadEntry, before: Log)
      reads `readCompletion, `done, `doneAt, `called
    {
      Logged() == before.(records := before.records + [r])
    }

    // A second signal: record k is dropped, and the front fragment e is finished if it is due, or else when
    // it is due.
    ghost predicate Merges(e: Entry, due: nat, k: nat, before: Log, now: nat)
      reads `readCompletion, `done, `doneAt, `called, `submitCompletion, `stage
    {
      && k < |before.records| && readCompletion == before.records[..k] + before.records[k + 1..]
      && if now >= due then
           && done == before.done + [e] && doneAt == before.doneAt + [now]
           && called == if e.last then before.called + [e.context] else before.called
         else
           && submitCompletion == Some(due) && stage == Completing
           && done == before.done && doneAt == before.doneAt && called == before.called
    }

    // With both signals there the front fragment finishes, or nothing happens before it is due.
    ghost predicate MergedTo(due: nat, q: Queues, followUps: seq<Request>, now: nat, q': Queues)
      requires 1 <= p.unit
      reads `insertDone, `stage, `submitCompletion
    {
      if now >= due then FinishedTo(q, followUps, now, q') && submitCompletion == None
      else q' == q && insertDone == None
    }

    // After that, the fragment that was read leaves the waiting queue, and the next waiting entry goes on.
    ghost predicate LandedTo(due: nat, q: Queues, followUps: seq<Request>, now: nat)
      requires 1 <= p.unit
      reads `insertDone, `stage, `submitCompletion, `usage, `waitQueue, `transferQueue, `transferPending,
        `beginTransfer, `counter
    {
      exists m: Queues ::
        MergedTo(due, q, followUps, now, m) && |m.waitQueue| > 0 && GoesOn(Released(m), now, Now())
    }

    lemma {:induction false} MergedNotInPast(e: Entry, due: nat, k: nat, before: Log, q: Queues,
        followUps: seq<Request>, now: nat, q': Queues)
      requires 1 <= p.unit && MergedTo(due, q, followUps, now, q') && Merges(e, due, k, before, now)
      ensures NotInPast(q.beginTransfer, q'.beginTransfer, now) && NotInPast(None, insertDone, now)
      ensures NotInPast(None, submitCompletion, now)
    {
      hide Finishes;
      if now >= due {
        FinishedNotInPast(q, followUps, now, q');
      }
    }

    lemma {:induction false} LandedNotInPast(q: Queues, now: nat, m: Queues)
      requires 1 <= p.unit && |m.waitQueue| > 0 && GoesOn(Released(m), now, Now())
      requires NotInPast(q.beginTransfer, m.beginTransfer, now)
      ensures NotInPast(q.beginTransfer, beginTransfer, now)
    {
      hide AskedNext;
      AskedNotInPast(Released(m), now, Now());
    }

    method AskFront(now: nat)
      requires ReadyToAsk() && Space() && Flags() && Landing() && Logs() && Timely() && Drains()
      modifies `usage, `waitQueue, `transferQueue, `transferPending, `beginTransfer, `counter
      ensures Valid() && Work() <= old(Work())
      ensures |old(waitQueue)| > 0 && Asked(old(waitQueue)[0], old(Now()), now, Now())
      ensures waitQueue[1..] == old(waitQueue)[1..]
    {
      hide Covers, Fired, LogsOk, TimelyOk, TotalSize, TotalPieces, Pieces, Oversized, StreamOk, CalcSize, Fresh,
        LandingOk, UnitLatency, Asked;
      ghost var e := waitQueue[0].(id := counter);
      LandingAsked(readCompletion, transferQueue, landedAt[|done|..], stage, counter, e, latency, p.unit);
      TotalSizeAppend(transferQueue, e, p.unit);
      FeedKeeps(p, done, transferQueue, waitQueue, e, requests);
      QueueGrows(called, done, transferQueue, stage.Calling?, doneAt, landedAt, submitCompletion, e, latency, p.unit);
      Ask(now);
    }

    // The front entry is asked of the upstream and queued.
    method Ask(now: nat)
      requires |waitQueue| > 0 && 1 <= p.unit
      modifies `usage, `waitQueue, `transferQueue, `transferPending, `beginTransfer, `counter
      ensures Asked(old(waitQueue)[0], old(Now()), now, Now())
      ensures transferPending && usage == old(usage + CalcSize(waitQueue[0].size, p.unit))
      ensures counter == old(counter) + 1 && beginTransfer.Some?
      ensures transferQueue == old(transferQueue) + [old(waitQueue)[0].(id := old(counter))]
      ensures waitQueue == old(waitQueue)[0 := old(waitQueue)[0].(id := old(counter))]
    {
      UnitLatencyIs(waitQueue[0].size);
      hide CalcSize, UnitLatency;
      var size := CalcSize(waitQueue[0].size, p.unit);
      transferPending := true;
      waitQueue := waitQueue[0 := waitQueue[0].(id := counter)];
      counter := counter + 1;
      usage := usage + size;
      if beginTransfer.None? {
        beginTransfer := Some(now + if size < p.unit then latency(size) else latency(p.unit));
      }
      transferQueue := transferQueue + [waitQueue[0]];
    }

    lemma {:induction false} UnitLatencyIs(size: nat)
      requires 1 <= p.unit
      ensures UnitLatency(latency, p.unit, size) ==
        if CalcSize(size, p.unit) < p.unit then latency(CalcSize(size, p.unit)) else latency(p.unit)
    {
    }

    method TransferRead(now: nat)
      requires Core() && Drains() && |waitQueue| > 0
      modifies `usage, `waitQueue, `transferQueue, `transferPending, `beginTransfer, `counter
      ensures Valid() && Work() <= old(Work())
      ensures old(transferQueue) <= transferQueue
      ensures old(transferPending) ==> transferPending && waitQueue == old(waitQueue)
      ensures AskedNext(old(Now()), now, Now())
    {
      hide Covers, Fired, LogsOk, TimelyOk, TotalPieces, Pieces, Oversized, LandingOk;
      var size := CalcSize(waitQueue[0].size, p.unit);
      if (transferPending || usage + size > p.capacity) && size <= p.capacity {
        return;
      }
      if size > p.capacity {
        CutFront();
      }
      AskFront(now);
    }

    // A read request arrives.
    method DmaRead(now: nat, r: Request)
      requires Valid()
      modifies `usage, `waitQueue, `transferQueue, `transferPending, `beginTransfer, `counter, `requests
      ensures Valid() && old(transferQueue) <= transferQueue
      ensures requests == if r.size == 0 then old(requests) else old(requests) + [r]
      ensures old(transferPending) ==> transferPending && old(waitQueue) <= waitQueue
      ensures Work() <= old(Work()) + if r.size == 0 then 0 else 7 * Pieces(r.size, p)
      ensures Submitted(old(Now()), r, now, Now()) && NotInPast(old(beginTransfer), beginTransfer, now)
    {
      hide Covers, Fired, LogsOk, TimelyOk, TotalSize, TotalPieces, Pieces, StreamOk, CalcSize, Fresh, Oversized,
        LandingOk, AskedNext;
      if r.size == 0 {
        return;
      }
      AppendKeeps(p, done, transferQueue, waitQueue, transferPending, requests, r);
      assert Todo(waitQueue + [Whole(r)], transferPending) == Todo(waitQueue, transferPending) + [Whole(r)];
      TotalPiecesAppend(Todo(waitQueue, transferPending), Whole(r), p);
      waitQueue := waitQueue + [Whole(r)];
      requests := requests + [r];
      ghost var q := Now();
      TransferRead(now);
      AskedNotInPast(q, now, Now());
    }

    // The record with the id, if any.
    method Find(id: nat) returns (k: nat)
      ensures k <= |readCompletion|
      ensures k < |readCompletion| ==> readCompletion[k].id == id
      ensures forall j | 0 <= j < k :: readCompletion[j].id != id
    {
      k := 0;
      while k < |readCompletion| && readCompletion[k].id != id
        invariant k <= |readCompletion|
        invariant forall j | 0 <= j < k :: readCompletion[j].id != id
      {
        k := k + 1;
      }
    }

    method InsertRead(now: nat)
      requires Core() && |transferQueue| > 0 && beginTransfer.None?
      modifies `insertPending, `stage, `insertDone
      ensures Core() && Drains() && Work() <= old(Work())
      ensures insertPending && stage == if old(insertPending) then old(stage) else Inserting
      ensures insertDone ==
        if old(insertPending) then old(insertDone) else Some(now + latency(CalcSize(transferQueue[0].size, p.unit)))
    {
      hide Covers, Fired, LogsOk, TimelyOk, TotalSize, TotalPieces, Pieces, CalcSize, Fresh, StreamOk, Oversized,
        UnitLatency, Numbered, Recorded;
      if insertPending {
        return;
      }
      insertPending := true;
      insertDone := Some(now + latency(CalcSize(transferQueue[0].size, p.unit)));
      stage := Inserting;
    }

    // The beginTransfer event.
    method BeginInsertion(now: nat)
      requires Valid() && beginTransfer == Some(now) && stage.AtRest()
      modifies `insertPending, `stage, `insertDone, `beginTransfer
      ensures Valid() && Work() < old(Work()) && beginTransfer.None? && stage.AtRest()
      ensures insertPending && stage == if old(insertPending) then old(stage) else Inserting
    {
      hide Covers, Fired, LogsOk, TimelyOk, TotalSize, TotalPieces, Pieces, CalcSize, Fresh, StreamOk, Oversized,
        LandingOk, UnitLatency;
      beginTransfer := None;
      InsertRead(now);
    }

    // The insertDone event.
    method InsertReadDone(now: nat, followUps: seq<Request>)
      requires Valid() && insertDone == Some(now) && !landing
      modifies this
      ensures Valid() && stage.AtRest() && landing == old(landing)
      ensures var e := old(transferQueue[0]); var before := old(Logged());
        if HasRecord(before.records, e.id) then
          exists k: nat :: k < |before.records| && before.records[k].id == e.id &&
            Merges(e, before.records[k].dmaEndAt + before.records[k].latency, k, before, now) &&
            MergedTo(before.records[k].dmaEndAt + before.records[k].latency, old(Now()), followUps, now, Now())
        else
          && Records(ReadEntry(e.id, now, 0, UnitLatency(latency, p.unit, e.size)), before) && stage == Inserted
          && Now() == old(Now()) && requests == old(requests) && insertDone == None
      ensures NotInPast(old(beginTransfer), beginTransfer, now) && NotInPast(None, insertDone, now)
      ensures NotInPast(None, submitCompletion, now)
      ensures followUps == [] ==> Work() < old(Work()) && requests == old(requests)
    {
      hide Covers, Fired, LogsOk, TimelyOk, TotalSize, TotalPieces, Pieces, CalcSize, Fresh, StreamOk, Oversized,
        LandingOk, UnitLatency, Merges, Records, MergedTo, HasRecord, NotInPast, Stream, Awaited, Landing, Logs, Timely,
        Drains, HeldBackOnlyIfFull;
      var k := Find(transferQueue[0].id);
      FoundRecord(readCompletion, transferQueue[0].id, k);
      if k == |readCompletion| {
        Unmoved(beginTransfer, now);
        InsertFirst(now);
      } else {
        ghost var e, before, q := transferQueue[0], Logged(), Now();
        StartMerge(k);
        InsertReadDoneMerge(k, now, followUps);
        MergedNotInPast(e, before.records[k].dmaEndAt + before.records[k].latency, k, before, q, followUps, now,
          Now());
      }
    }

    lemma {:induction false} Unmoved(event: Option<nat>, now: nat)
      ensures NotInPast(event, event, now) && NotInPast(None, None, now)
    {
    }

    lemma {:induction false} FoundRecord(records: seq<ReadEntry>, id: nat, k: nat)
      requires k <= |records| && (k < |records| ==> records[k].id == id)
      requires forall j | 0 <= j < k :: records[j].id != id
      ensures HasRecord(records, id) <==> k < |records|
    {
    }

    // The insertion ends before the read.
    method InsertFirst(now: nat)
      requires Valid() && insertDone.Some? && !HasRecord(readCompletion, transferQueue[0].id)
      modifies `insertDone, `readCompletion, `stage
      ensures Valid() && stage == Inserted && Work() < old(Work()) && insertDone == None && submitCompletion == None
      ensures Records(ReadEntry(transferQueue[0].id, now, 0, UnitLatency(latency, p.unit, transferQueue[0].size)),
        old(Logged()))
    {
      hide Covers, Fired, LogsOk, TimelyOk, TotalSize, TotalPieces, Pieces, CalcSize, Fresh, StreamOk, Oversized,
        LandingOk, UnitLatency;
      var e := transferQueue[0];
      LandingInserted(readCompletion, transferQueue, LandedCount(), landedAt[|done|..], counter, now, latency, p.unit);
      insertDone := None;
      readCompletion := readCompletion + [ReadEntry(e.id, now, 0, UnitLatency(latency, p.unit, e.size))];
      stage := Inserted;
    }

    // The insertion finds the record of the read.
    method StartMerge(k: nat)
      requires Valid() && insertDone.Some?
      requires k < |readCompletion| && readCompletion[k].id == transferQueue[0].id
      modifies `insertDone, `stage
      ensures Valid() && stage == Merging && Work() < old(Work()) && insertDone == None
    {
      hide Covers, Fired, LogsOk, TimelyOk, TotalSize, TotalPieces, Pieces, CalcSize, Fresh, StreamOk, Oversized,
        LandingOk, UnitLatency;
      LandingFind(readCompletion, transferQueue, LandedCount(), landedAt[|done|..], stage, counter, k, latency, p.unit);
      insertDone := None;
      stage := Merging;
    }

    // Both signals are there: the front fragment is complete one unit's latency after its read.
    method InsertReadDoneMerge(k: nat, now: nat, followUps: seq<Request>)
      requires Valid() && stage.Merging?
      requires k < |readCompletion| && readCompletion[k].id == transferQueue[0].id
      modifies this
      ensures Valid() && stage.AtRest() && landing == old(landing) && landedAt == old(landedAt)
      ensures Merges(old(transferQueue[0]), old(readCompletion[k].dmaEndAt + readCompletion[k].latency), k,
        old(Logged()), now)
      ensures MergedTo(old(readCompletion[k].dmaEndAt + readCompletion[k].latency), old(Now()), followUps, now, Now())
      ensures landing ==> old(waitQueue) <= waitQueue
      ensures followUps == [] ==> Work() < old(Work()) && requests == old(requests)
    {
      hide Covers, Fired, TotalSize, TotalPieces, Pieces, CalcSize, Fresh, StreamOk, Oversized, LandingOk, UnitLatency;
      ghost var n, at := LandedCount(), landedAt[|done|..];
      LandingFind(readCompletion, transferQueue, n, at, stage, counter, k, latency, p.unit);
      LandingFound(readCompletion, transferQueue, n, at, stage, counter, latency, p.unit);
      LandingDrop(readCompletion, transferQueue, n, at, stage, Ready, counter, latency, p.unit);
      LandingDrop(readCompletion, transferQueue, n, at, stage, Completing, counter, latency, p.unit);
      assert readCompletion[..k] + readCompletion[k + 1..] == readCompletion[1..];
      var ready := Drop(k, now);
      if ready {
        InsertReadDoneNext(now, followUps);
      }
    }

    // Record k is dropped; the front fragment is ready, or completes later.
    method Drop(k: nat, now: nat) returns (ready: bool)
      requires k < |readCompletion|
      modifies `readCompletion, `stage, `submitCompletion
      ensures readCompletion == old(readCompletion[..k] + readCompletion[k + 1..])
      ensures var due := old(readCompletion[k].dmaEndAt + readCompletion[k].latency);
        ready == (now >= due) &&
        if ready then stage == Ready && submitCompletion == old(submitCompletion)
        else stage == Completing && submitCompletion == Some(due)
    {
      var comp := readCompletion[k];
      readCompletion := readCompletion[..k] + readCompletion[k + 1..];
      ready := now >= comp.dmaEndAt + comp.latency;
      if ready {
        stage := Ready;
      } else {
        submitCompletion := Some(comp.dmaEndAt + comp.latency);
        stage := Completing;
      }
    }

    // The submitCompletion event.
    method SubmitCompletion(now: nat, followUps: seq<Request>)
      requires Valid() && submitCompletion == Some(now)
      modifies this
      ensures Valid() && stage.AtRest() && landing == old(landing)
      ensures |old(transferQueue)| > 0 && done == old(done) + [old(transferQueue)[0]] && doneAt == old(doneAt) + [now]
      ensures called == if old(transferQueue)[0].last then old(called) + [old(transferQueue)[0].context]
        else old(called)
      ensures FinishedTo(old(Now()), followUps, now, Now()) && submitCompletion == None
      ensures NotInPast(old(beginTransfer), beginTransfer, now) && NotInPast(None, insertDone, now)
      ensures followUps == [] ==> Work() < old(Work()) && requests == old(requests)
    {
      hide Covers, Fired, TotalSize, TotalPieces, Pieces, CalcSize, Fresh, StreamOk, Oversized, UnitLatency, Recorded,
        Numbered, FinishedTo;
      ghost var q := Now();
      submitCompletion := None;
      stage := Ready;
      InsertReadDoneNext(now, followUps);
      FinishedNotInPast(q, followUps, now, Now());
    }

    method InsertReadDoneNext(now: nat, followUps: seq<Request>)
      requires Valid() && stage.Ready? && now >= FrontDue()
      modifies this
      ensures Valid() && stage.AtRest() && landing == old(landing) && landedAt == old(landedAt)
      ensures readCompletion == old(readCompletion)
      ensures FinishedTo(old(Now()), followUps, now, Now()) && submitCompletion == old(submitCompletion)
      ensures landing ==> old(waitQueue) <= waitQueue
      ensures done == old(done) + [old(transferQueue[0])] && doneAt == old(doneAt) + [now]
      ensures called == if old(transferQueue[0]).last then old(called) + [old(transferQueue[0]).context]
        else old(called)
      ensures followUps == [] ==> Work() < old(Work()) && requests == old(requests)
    {
      hide Covers, Fired, LogsOk, TimelyOk, TotalSize, TotalPieces, Pieces, CalcSize, Fresh, StreamOk, Oversized,
        UnitLatency, Recorded, Numbered, AllSubmitted, GoesOn;
      ghost var q := Now();
      CallHandler(now, followUps);
      ghost var m := Now();
      Retire(now);
      assert Finishes(q, followUps, now, m, Now());
    }

    // The handler of the front fragment's request runs if this is its last fragment; it may submit
    // further requests.
    method CallHandler(now: nat, followUps: seq<Request>)
      requires Valid() && stage.Ready?
      modifies `usage, `waitQueue, `transferQueue, `transferPending, `beginTransfer, `counter, `requests, `stage,
        `called
      ensures Valid() && stage.Calling? && old(transferQueue) <= transferQueue
      ensures landing ==> old(waitQueue) <= waitQueue
      ensures called == if old(transferQueue[0]).last then old(called) + [old(transferQueue[0]).context]
        else old(called)
      ensures AllSubmitted(old(Now()), if old(transferQueue[0]).last then followUps else [], now, Now())
      ensures followUps == [] ==> Work() <= old(Work()) && requests == old(requests)
    {
      hide Covers, Fired, LogsOk, TimelyOk, TotalSize, TotalPieces, Pieces, CalcSize, Fresh, StreamOk, Oversized,
        UnitLatency, LandingOk, Submitted;
      FrontQueued();
      var last := transferQueue[0].last;
      StartHandler();
      if last {
        SubmitAll(now, followUps);
      }
    }

    lemma {:induction false} FrontQueued()
      requires Valid() && stage.Ready?
      ensures |transferQueue| > 0
    {
    }

    method StartHandler()
      requires Valid() && stage.Ready?
      modifies `stage, `called
      ensures Valid() && stage.Calling? && Work() == old(Work())
      ensures called == if transferQueue[0].last then old(called) + [transferQueue[0].context] else old(called)
    {
      hide Covers, Fired, LogsOk, TotalSize, TotalPieces, Pieces, CalcSize, Fresh, StreamOk, Oversized, UnitLatency,
        Recorded, Numbered;
      HandlerRuns(called, done, transferQueue);
      stage := Calling;
      if transferQueue[0].last {
        called := called + [transferQueue[0].context];
      }
    }

    // The handler submits requests.
    method SubmitAll(now: nat, followUps: seq<Request>)
      requires Valid() && stage.Calling?
      modifies `usage, `waitQueue, `transferQueue, `transferPending, `beginTransfer, `counter, `requests
      ensures Valid() && old(transferQueue) <= transferQueue
      ensures landing ==> old(waitQueue) <= waitQueue
      ensures AllSubmitted(old(Now()), followUps, now, Now())
      ensures followUps == [] ==> Work() == old(Work()) && requests == old(requests)
    {
      hide LandingOk, LogsOk, TimelyOk, StreamOk, Oversized, Fresh, TotalSize, TotalPieces, Pieces, CalcSize, Submitted;
      ghost var q := Now();
      assert followUps[..0] == [] && AllSubmitted(q, [], now, q);
      for i := 0 to |followUps|
        invariant Valid() && old(transferQueue) <= transferQueue
        invariant landing ==> old(waitQueue) <= waitQueue
        invariant AllSubmitted(q, followUps[..i], now, Now())
        invariant followUps == [] ==> Work() == old(Work()) && requests == old(requests)
      {
        ghost var m := Now();
        DmaRead(now, followUps[i]);
        SubmittedOne(q, followUps[..i], followUps[i], now, m, Now());
        assert followUps[..i] + [followUps[i]] == followUps[..i + 1];
      }
      assert followUps[..|followUps|] == followUps;
    }

    // The front fragment leaves the FIFO.
    method PopFront(now: nat)
      requires Valid() && stage.Calling?
      requires |landedAt| > |done| && now >= FrontDue()
      modifies `usage, `insertPending, `stage, `done, `doneAt, `transferQueue
      ensures Core() && stage.Idle? && transferQueue == old(transferQueue)[1..]
      ensures |old(transferQueue)| > 0 && old(usage) >= CalcSize(old(transferQueue)[0].size, p.unit)
      ensures Now() == WithoutFront(old(Now())) && !insertPending
      ensures done == old(done) + [old(transferQueue[0])] && doneAt == old(doneAt) + [now]
      ensures Work() < old(Work())
    {
      hide Covers, Fired, LogsOk, TimelyOk, TotalPieces, Pieces, CalcSize, Fresh, StreamOk, Oversized, LandingOk,
        UnitLatency;
      FinishKeeps(p, done, transferQueue, waitQueue, transferPending, requests);
      LandingPop(readCompletion, transferQueue, LandedCount(), landedAt[|done|..], stage, counter, latency, p.unit);
      assert landedAt[|done|..][1..] == landedAt[|done| + 1..];
      FrontLeaves(called, done, transferQueue, doneAt, landedAt, now, submitCompletion, latency, p.unit);
      Pop(now);
    }

    method Pop(now: nat)
      requires |transferQueue| > 0 && 1 <= p.unit && usage >= CalcSize(transferQueue[0].size, p.unit)
      modifies `usage, `insertPending, `stage, `done, `doneAt, `transferQueue
      ensures usage == old(usage) - CalcSize(old(transferQueue)[0].size, p.unit)
      ensures !insertPending && stage == Idle && transferQueue == old(transferQueue)[1..]
      ensures done == old(done) + [old(transferQueue)[0]] && doneAt == old(doneAt) + [now]
    {
      usage := usage - CalcSize(transferQueue[0].size, p.unit);
      insertPending := false;
      stage, done, doneAt := Idle, done + [transferQueue[0]], doneAt + [now];
      transferQueue := transferQueue[1..];
    }

    // What waited for the front fragment to leave goes on.
    method Retire(now: nat)
      requires Valid() && stage.Calling?
      requires |landedAt| > |done| && now >= FrontDue()
      modifies this
      ensures Valid() && stage.AtRest() && landing == old(landing) && landedAt == old(landedAt)
      ensures readCompletion == old(readCompletion)
      ensures landing ==> old(waitQueue) == waitQueue
      ensures done == old(done) + [old(transferQueue[0])] && doneAt == old(doneAt) + [now]
      ensures called == old(called) && requests == old(requests) && Work() < old(Work())
      ensures |old(transferQueue)| > 0 && old(usage) >= CalcSize(old(transferQueue)[0].size, p.unit)
      ensures GoesOn(WithoutFront(old(Now())), now, Now()) && submitCompletion == old(submitCompletion)
      ensures insertDone == InsertedAt(old(Now()), now)
      ensures stage == if InsertedAt(old(Now()), now).None? then Idle else Inserting
    {
      hide Covers, Fired, LogsOk, TimelyOk, TotalSize, TotalPieces, Pieces, CalcSize, Fresh, StreamOk, Oversized,
        LandingOk, UnitLatency, AskedNext, Stream, Space, Awaited, Landing, Logs, Timely;
      PopFront(now);
      if |transferQueue| > 0 && beginTransfer.None? {
        InsertRead(now);
      }
      if |waitQueue| > 0 {
        TransferRead(now);
      }
    }

    // The upstream calls back: the fragment asked for is read.
    method TransferReadDone(now: nat, followUps: seq<Request>)
      requires Valid() && transferPending && !landing && stage.AtRest()
      modifies this
      ensures Valid() && stage.AtRest() && !landing && landedAt == old(landedAt) + [now]
      ensures var e := old(waitQueue[0]); var before := old(Logged());
        if HasRecord(before.records, e.id) then
          exists k: nat :: k < |before.records| && before.records[k].id == e.id &&
            var due := now + before.records[k].latency;
            && Merges(old(transferQueue)[0], due, k, before, now)
            && LandedTo(due, old(Now()), followUps, now)
        else
          && Records(ReadEntry(e.id, 0, now, UnitLatency(latency, p.unit, e.size)), before) && stage == old(stage)
          && |old(waitQueue)| > 0 && GoesOn(Released(old(Now())), now, Now())
          && insertDone == old(insertDone) && submitCompletion == old(submitCompletion)
      ensures NotInPast(old(beginTransfer), beginTransfer, now) && NotInPast(old(insertDone), insertDone, now)
      ensures NotInPast(old(submitCompletion), submitCompletion, now)
      ensures followUps == [] ==> Work() < old(Work()) && requests == old(requests)
    {
      hide Covers, Fired, LogsOk, TimelyOk, TotalSize, TotalPieces, Pieces, CalcSize, Fresh, StreamOk, Oversized,
        LandingOk, UnitLatency, Records, Merges, AskedNext, HasRecord, FinishedTo, NotInPast, MergedTo, Space, Awaited,
        Landing, Logs, Timely, Drains, HeldBackOnlyIfFull, GoesOn, Flags;
      ghost var q := Now();
      Land(now, followUps);
      ghost var m := Now();
      ReleaseNext(now);
      LandedNotInPast(q, now, m);
    }

    // The fragment read leaves the waiting queue, and the next one goes on.
    method ReleaseNext(now: nat)
      requires Valid() && landing && stage.AtRest()
      modifies `usage, `waitQueue, `transferQueue, `transferPending, `beginTransfer, `counter, `landing
      ensures Valid() && !landing && Work() <= old(Work())
      ensures |old(waitQueue)| > 0 && GoesOn(Released(old(Now())), now, Now())
    {
      hide Covers, Fired, LogsOk, TimelyOk, TotalSize, TotalPieces, Pieces, CalcSize, Fresh, StreamOk, Oversized,
        LandingOk, UnitLatency, AskedNext;
      Release();
      if |waitQueue| > 0 {
        TransferRead(now);
      }
    }

    // The fragment read leaves the waiting queue.
    method Release()
      requires Valid() && landing && stage.AtRest()
      modifies `waitQueue, `transferPending, `landing
      ensures Core() && Drains() && !transferPending && !landing && Work() == old(Work())
      ensures |old(waitQueue)| > 0 && Now() == Released(old(Now()))
      ensures |waitQueue| == 0 ==> Valid()
    {
      hide Covers, Fired, LogsOk, TimelyOk, TotalSize, TotalPieces, Pieces, CalcSize, Fresh, StreamOk, Oversized,
        LandingOk, UnitLatency;
      ReleaseKeeps(p, done, transferQueue, waitQueue, requests);
      waitQueue := waitQueue[1..];
      transferPending := false;
      landing := false;
    }

    // The end of the read is recorded, or merged with the insertion's.
    method Land(now: nat, followUps: seq<Request>)
      requires Valid() && transferPending && !landing && stage.AtRest()
      modifies this
      ensures Valid() && stage.AtRest() && landing && old(waitQueue) <= waitQueue && landedAt == old(landedAt) + [now]
      ensures var e := old(waitQueue[0]); var before := old(Logged());
        if HasRecord(before.records, e.id) then
          exists k: nat :: k < |before.records| && before.records[k].id == e.id &&
            var due := now + before.records[k].latency;
            && Merges(old(transferQueue)[0], due, k, before, now) && MergedTo(due, old(Now()), followUps, now, Now())
        else
          && Records(ReadEntry(e.id, 0, now, UnitLatency(latency, p.unit, e.size)), before) && stage == old(stage)
          && Now() == old(Now()) && insertDone == old(insertDone) && submitCompletion == old(submitCompletion)
      ensures NotInPast(old(beginTransfer), beginTransfer, now) && NotInPast(old(insertDone), insertDone, now)
      ensures NotInPast(old(submitCompletion), submitCompletion, now)
      ensures followUps == [] ==> Work() < old(Work()) && requests == old(requests)
    {
      hide Covers, Fired, TotalSize, TotalPieces, Pieces, CalcSize, Fresh, StreamOk, Oversized, LandingOk, UnitLatency,
        Records, Merges, MergedTo, HasRecord;
      ghost var before, q := Logged(), Now();
      var k := Find(waitQueue[0].id);
      FoundRecord(readCompletion, waitQueue[0].id, k);
      if k == |readCompletion| {
        LandFirst(k, now);
      } else {
        ghost var e, due := transferQueue[0], now + readCompletion[k].latency;
        LandSecond(k, now, followUps);
        MergedNotInPast(e, due, k, before, q, followUps, now, Now());
      }
    }

    // The read ends before the insertion.
    method LandFirst(k: nat, now: nat)
      requires Valid() && transferPending && !landing && stage.AtRest()
      requires k == |readCompletion| && forall j | 0 <= j < k :: readCompletion[j].id != waitQueue[0].id
      modifies `landedAt, `landing, `readCompletion
      ensures Valid() && landing && Work() < old(Work()) && landedAt == old(landedAt) + [now]
      ensures Records(ReadEntry(waitQueue[0].id, 0, now, UnitLatency(latency, p.unit, waitQueue[0].size)),
        old(Logged()))
    {
      hide Covers, Fired, LogsOk, TimelyOk, TotalSize, TotalPieces, Pieces, CalcSize, Fresh, StreamOk, Oversized,
        LandingOk, UnitLatency;
      ghost var at := landedAt[|done|..];
      if stage.Inserted? {
        LandingFound(readCompletion, transferQueue, LandedCount(), at, stage, counter, latency, p.unit);
        OneQueued(readCompletion, transferQueue, LandedCount(), at, counter, latency, p.unit);
        assert false;
      }
      LandingRecorded(readCompletion, transferQueue, at, stage, counter, now, latency, p.unit);
      ReadLater(done, doneAt, landedAt, transferQueue, submitCompletion, now, latency, p.unit);
      assert (landedAt + [now])[|done|..] == at + [now];
      landedAt := landedAt + [now];
      landing := true;
      readCompletion := readCompletion +
        [ReadEntry(waitQueue[0].id, 0, now, UnitLatency(latency, p.unit, waitQueue[0].size))];
    }

    // The insertion ended before the read.
    method LandSecond(k: nat, now: nat, followUps: seq<Request>)
      requires Valid() && transferPending && !landing && stage.AtRest()
      requires k < |readCompletion| && readCompletion[k].id == waitQueue[0].id
      modifies this
      ensures Valid() && stage.AtRest() && landing && old(waitQueue) <= waitQueue && landedAt == old(landedAt) + [now]
      ensures var due := now + old(readCompletion[k]).latency;
        && |old(transferQueue)| > 0 && Merges(old(transferQueue)[0], due, k, old(Logged()), now)
        && MergedTo(due, old(Now()), followUps, now, Now())
      ensures followUps == [] ==> Work() < old(Work()) && requests == old(requests)
    {
      hide Covers, Fired, LogsOk, TimelyOk, TotalSize, TotalPieces, Pieces, CalcSize, Fresh, StreamOk, Oversized,
        LandingOk, UnitLatency;
      ghost var n, at := LandedCount(), landedAt[|done|..];
      LandingFind(readCompletion, transferQueue, n, at, stage, counter, k, latency, p.unit);
      OneQueued(readCompletion, transferQueue, n, at, counter, latency, p.unit);
      LandingMerges(readCompletion, transferQueue, at, counter, now, latency, p.unit);
      ReadLater(done, doneAt, landedAt, transferQueue, submitCompletion, now, latency, p.unit);
      assert (landedAt + [now])[|done|..] == at + [now];
      landedAt := landedAt + [now];
      landing := true;
      readCompletion := readCompletion[k := readCompletion[k].(dmaEndAt := now)];
      assert readCompletion == [readCompletion[0]];
      stage := Merging;
      InsertReadDoneMerge(k, now, followUps);
    }

    // Handlers are called in the order the requests came in, at most once each, and only when all
    // fragments of the request are finished.
    lemma {:induction false} HandlersInOrder() returns (m: nat)
      requires Valid()
      ensures |called| <= |requests| && forall k | 0 <= k < |called| :: called[k] == requests[k].context
      ensures m <= |done| + if stage.Calling? then 1 else 0
      ensures Covers((done + if stage.Calling? then transferQueue[..1] else [])[..m], requests[..|called|])
    {
      hide Covers, Fired, TotalSize, CalcSize, Fresh, Oversized, LandingOk, TimelyOk;
      var finished := done + if stage.Calling? then transferQueue[..1] else [];
      var rest := if stage.Calling? then transferQueue[1..] else transferQueue;
      var todo := Todo(waitQueue, transferPending);
      assert finished + rest == done + transferQueue;
      assert finished + (rest + todo) == done + transferQueue + todo;
      m := FiredInOrder(finished, rest + todo, requests);
    }

    // No wakeup is lost: when nothing is scheduled or owed, every request is finished.
    lemma {:induction false} QuietMeansFinished()
      requires Valid() && Quiet()
      ensures waitQueue == [] && transferQueue == [] && usage == 0
      ensures Covers(done, requests) && called == Contexts(requests)
    {
      assert !stage.Inserted?;
      assert |transferQueue| == 0;
      assert TotalSize(transferQueue, p.unit) == 0;
      assert |waitQueue| == 0;
      assert done + [] == done && done + transferQueue + Todo(waitQueue, transferPending) == done;
      FiredAll(done, requests);
    }

    lemma {:induction false} WorkIsNat()
      requires Valid()
      ensures Work() >= 0
    { }

    // However the events and the upstream's callbacks are interleaved, and whenever the upstream calls
    // back, the FIFO finishes every request it has taken in after finitely many of them.
    method Drain(choice: nat -> nat, tick: nat -> nat)
      requires Valid() && stage.AtRest() && !landing
      modifies this
      ensures Valid() && Quiet() && requests == old(requests)
      ensures Covers(done, requests) && called == Contexts(requests)
    {
      hide Covers, Fired, TotalSize, TotalPieces, Pieces, CalcSize, Fresh, StreamOk, Oversized, LandingOk, LogsOk,
        TimelyOk;
      var i := 0;
      while insertDone.Some? || beginTransfer.Some? || submitCompletion.Some? || transferPending
        invariant Valid() && stage.AtRest() && !landing && requests == old(requests)
        decreases Work()
      {
        WorkIsNat();
        var c, now := choice(i), tick(i);
        i := i + 1;
        if transferPending && (c % 4 == 0 || !(insertDone.Some? || beginTransfer.Some? || submitCompletion.Some?)) {
          TransferReadDone(now, []);
        } else if insertDone.Some? && (c % 4 == 1 || beginTransfer.None?) {
          InsertReadDone(insertDone.value, []);
        } else if beginTransfer.Some? && (c % 4 == 2 || submitCompletion.None?) {
          BeginInsertion(beginTransfer.value);
        } else {
          SubmitCompletion(submitCompletion.value, []);
        }
      }
      QuietMeansFinished();
    }
  }
}
