// The write pipeline of the DMA FIFO: waiting entries are inserted one after the other, and
// inserted entries are sent upstream one after the other. Steps are event handlers.
module WriteFifos {
  import opened Fragments
  import opened Options

  // What is pending of the one transfer that can be under way.
  datatype Stage = Idle | InFlight | Completing | Calling

  // The queues and the events of the insertion.
  datatype Queues = Queues(usage: nat, waitQueue: seq<Entry>, transferQueue: seq<Entry>, insertPending: bool,
    insertDone: Option<nat>, beginTransfer: Option<nat>)

  // An event that was scheduled or moved is not due before now.
  predicate NotInPast(before: Option<nat>, event: Option<nat>, now: nat) {
    event == before || (event.Some? ==> event.value >= now)
  }

  ghost predicate NothingInPast(q: Queues, now: nat, q': Queues) {
    NotInPast(q.insertDone, q'.insertDone, now) && NotInPast(q.beginTransfer, q'.beginTransfer, now)
  }

  class WriteFifo {
    const p: Param
    const latency: nat -> nat

    var usage: nat
    var waitQueue: seq<Entry>
    var transferQueue: seq<Entry>
    var insertPending: bool
    var transferPending: bool
    // The ticks the three events are scheduled at.
    var insertDone: Option<nat>
    var beginTransfer: Option<nat>
    var submitCompletion: Option<nat>

    // The requests taken in, the fragments sent upstream, those finished and at which tick, and
    // the contexts whose handler was called, each in order.
    ghost var requests: seq<Request>
    ghost var sent: seq<Entry>
    ghost var done: seq<Entry>
    ghost var doneAt: seq<nat>
    ghost var called: seq<nat>
    ghost var stage: Stage

    ghost predicate Stream()
      reads this
    {
      ParamOk(p) && StreamOk(p, done, transferQueue, waitQueue, insertPending, requests)
    }

    // The usage is that of the queued fragments, and within the capacity unless a request was larger
    // than the whole FIFO.
    ghost predicate Space()
      reads this
    {
      ParamOk(p) && usage == TotalSize(transferQueue, p.unit) && (usage <= p.capacity || Oversized(p, requests))
    }

    // The flags agree with what is scheduled, so no event is scheduled twice, and an event finds
    // the entry it is about.
    ghost predicate Flags()
      reads this
    {
      && (insertPending <==> insertDone.Some?)
      && (transferPending <==> !stage.Idle?)
      && (submitCompletion.Some? <==> stage.Completing?)
      && (insertPending ==> |waitQueue| > 0)
      && (transferPending ==> |transferQueue| > 0)
      && (beginTransfer.Some? ==> |transferQueue| > if transferPending then 1 else 0)
    }

    // Inserted entries are on their way.
    ghost predicate Drains()
      reads this
    {
      |transferQueue| > 0 ==> transferPending || beginTransfer.Some?
    }

    // The front entry waits only while there is no room for it, and there can be room for it.
    ghost predicate HeldBackOnlyIfFull()
      reads this
    {
      1 <= p.unit && (|waitQueue| > 0 && !insertPending ==>
        CalcSize(waitQueue[0].size, p.unit) <= p.capacity < usage + CalcSize(waitQueue[0].size, p.unit))
    }

    ghost predicate Logs()
      reads this
    {
      && (transferPending || stage.Calling? ==> |transferQueue| > 0)
      && sent == done + (if transferPending then transferQueue[..1] else [])
      && called == Fired(done + if stage.Calling? then transferQueue[..1] else [])
    }

    // A fragment finishes one unit's latency after it was fully inserted, or later.
    ghost predicate Timely()
      reads this
    {
      && 1 <= p.unit
      && |doneAt| == |done|
      && (forall k | 0 <= k < |done| :: doneAt[k] >= done[k].insertEndAt + UnitLatency(latency, p.unit, done[k].size))
      && (submitCompletion.Some? && |transferQueue| > 0 ==>
            submitCompletion.value >= transferQueue[0].insertEndAt +
              UnitLatency(latency, p.unit, transferQueue[0].size))
    }

    ghost predicate Core()
      reads this
    {
      Stream() && Space() && Flags() && Logs() && Timely()
    }

    ghost predicate Valid()
      reads this
    {
      Core() && Drains() && HeldBackOnlyIfFull()
    }

    // An upper bound on the events still to come.
    ghost function Work(): int
      requires ParamOk(p) && (insertPending ==> |waitQueue| > 0)
      reads this
    {
      6 * TotalPieces(Todo(waitQueue, insertPending), p) + 4 * |transferQueue|
      + (if insertPending then 1 else 0) + (if beginTransfer.Some? then 1 else 0)
      - (match stage case Idle => 0 case InFlight => 1 case _ => 2)
    }

    constructor (p: Param, latency: nat -> nat)
      requires ParamOk(p)
      ensures Valid() && this.p == p && this.latency == latency
      ensures requests == [] && Quiet()
    {
      this.p, this.latency := p, latency;
      usage, waitQueue, transferQueue := 0, [], [];
      insertPending, transferPending := false, false;
      insertDone, beginTransfer, submitCompletion := None, None, None;
      requests, sent, done, doneAt, called := [], [], [], [], [];
      stage := Idle;
    }

    // Nothing is scheduled and the upstream owes no callback.
    ghost predicate Quiet()
      reads this
    {
      insertDone.None? && beginTransfer.None? && stage.Idle?
    }

    // The front entry is too large for the FIFO.
    method CutFront()
      requires Core() && Drains() && !insertPending && |waitQueue| > 0
      requires CalcSize(waitQueue[0].size, p.unit) > p.capacity
      modifies `waitQueue
      ensures ReadyToFeed() && Space() && Flags() && Logs() && Timely() && Drains()
      ensures TotalPieces(waitQueue, p) == old(TotalPieces(waitQueue, p))
      ensures waitQueue == [FirstPart(old(waitQueue[0]), p.unit), RestPart(old(waitQueue[0]), p.unit)] +
        old(waitQueue)[1..]
    {
      hide Covers, Fired, TotalSize, TotalPieces, Pieces;
      CutKeeps(p, done, transferQueue, waitQueue, requests);
      waitQueue := [FirstPart(waitQueue[0], p.unit), RestPart(waitQueue[0], p.unit)] + waitQueue[1..];
    }

    // The front entry fits.
    ghost predicate ReadyToFeed()
      reads this
    {
      && ParamOk(p) && !insertPending && |waitQueue| > 0
      && Covers(done + transferQueue + waitQueue, requests)
      && (forall k | 0 <= k < |transferQueue| :: 1 <= transferQueue[k].size)
      && Fresh(waitQueue[1..]) && 1 <= waitQueue[0].size && CalcSize(waitQueue[0].size, p.unit) <= p.capacity
      && (usage + CalcSize(waitQueue[0].size, p.unit) <= p.capacity || Oversized(p, requests))
    }

    ghost function Now(): Queues
      reads this
    {
      Queues(usage, waitQueue, transferQueue, insertPending, insertDone, beginTransfer)
    }

    // The entry e is queued for transfer, and the two events are scheduled for when it, and its
    // first unit, are in the FIFO.
    ghost predicate Fed(e: Entry, q: Queues, now: nat, q': Queues)
      requires 1 <= p.unit
    {
      && q'.insertPending && q'.insertDone == Some(now + latency(CalcSize(e.size, p.unit)))
      && q'.usage == q.usage + CalcSize(e.size, p.unit)
      && q'.transferQueue == q.transferQueue + [e.(insertEndAt := q'.insertDone.value)]
      && |q'.waitQueue| > 0 && q'.waitQueue[0] == q'.transferQueue[|q'.transferQueue| - 1]
      && q'.beginTransfer ==
         if q.beginTransfer.Some? then q.beginTransfer else Some(now + UnitLatency(latency, p.unit, e.size))
    }

    // What becomes of the waiting entries: the front one, cut if it is larger than the FIFO, is fed in, or
    // all wait on while another is being inserted or there is no room.
    ghost predicate Inserted(q: Queues, now: nat, q': Queues)
      requires 1 <= p.unit && |q.waitQueue| > 0
    {
      var front := q.waitQueue[0];
      var size := CalcSize(front.size, p.unit);
      if (q.insertPending || q.usage + size > p.capacity) && size <= p.capacity then q' == q
      else
        && (size > p.capacity ==> p.unit <= front.size)
        && Fed(if size <= p.capacity then front else FirstPart(front, p.unit), q, now, q')
        && q'.waitQueue[1..] == (if size <= p.capacity then [] else [RestPart(front, p.unit)]) + q.waitQueue[1..]
    }

    // The next waiting entry, if any, goes on.
    ghost predicate GoesOn(q: Queues, now: nat, q': Queues)
      requires 1 <= p.unit
    {
      if |q.waitQueue| > 0 then Inserted(q, now, q') else q' == q
    }

    // A request arrives.
    ghost predicate Submitted(q: Queues, r: Request, now: nat, q': Queues)
      requires 1 <= p.unit
    {
      if r.size == 0 then q' == q else Inserted(q.(waitQueue := q.waitQueue + [Whole(r)]), now, q')
    }

    ghost predicate AllSubmitted(q: Queues, rs: seq<Request>, now: nat, q': Queues)
      requires 1 <= p.unit
      decreases |rs|
    {
      if |rs| == 0 then q' == q
      else exists m: Queues :: Submitted(q, rs[0], now, m) && AllSubmitted(m, rs[1..], now, q')
    }

    // The front fragment leaves.
    ghost function WithoutFront(q: Queues): Queues
      requires 1 <= p.unit && |q.transferQueue| > 0 && q.usage >= CalcSize(q.transferQueue[0].size, p.unit)
    {
      q.(usage := q.usage - CalcSize(q.transferQueue[0].size, p.unit), transferQueue := q.transferQueue[1..])
    }

    // The front fragment finishes: its handler submits requests if it is a last one, which leads to m, it
    // leaves, and the next waiting entry goes on.
    ghost predicate Finishes(q: Queues, followUps: seq<Request>, now: nat, m: Queues, q': Queues)
      requires 1 <= p.unit && |q.transferQueue| > 0
    {
      && AllSubmitted(q, if q.transferQueue[0].last then followUps else [], now, m)
      && |m.transferQueue| > 0 && m.usage >= CalcSize(m.transferQueue[0].size, p.unit)
      && GoesOn(WithoutFront(m), now, q')
    }

    // The fragment sent upstream when the front one leaves: the next one, unless the event for that is still
    // to come.
    ghost function Sends(q: Queues): seq<Entry> {
      if |q.transferQueue| > 1 && q.beginTransfer.None? then [q.transferQueue[1]] else []
    }

    lemma {:induction false} SubmittedOne(q: Queues, rs: seq<Request>, r: Request, now: nat, m: Queues, q': Queues)
      requires 1 <= p.unit && AllSubmitted(q, rs, now, m) && Submitted(m, r, now, q')
      ensures AllSubmitted(q, rs + [r], now, q')
      decreases |rs|
    {
      hide Submitted;
      if |rs| == 0 {
        assert [r][1..] == [] && AllSubmitted(q', [], now, q');
        assert [] + [r] == [r];
      } else {
        var k: Queues :| Submitted(q, rs[0], now, k) && AllSubmitted(k, rs[1..], now, m);
        SubmittedOne(k, rs[1..], r, now, m, q');
        assert (rs + [r])[1..] == rs[1..] + [r];
      }
    }

    lemma {:induction false} InsertedNotInPast(q: Queues, now: nat, q': Queues)
      requires 1 <= p.unit && |q.waitQueue| > 0 && Inserted(q, now, q')
      ensures NothingInPast(q, now, q')
    {
    }

    // No event is scheduled for a tick before the one it is scheduled at.
    lemma {:induction false} SubmittedNotInPast(q: Queues, rs: seq<Request>, now: nat, q': Queues)
      requires 1 <= p.unit && AllSubmitted(q, rs, now, q')
      ensures NothingInPast(q, now, q')
      decreases |rs|
    {
      if |rs| > 0 {
        var m: Queues :| Submitted(q, rs[0], now, m) && AllSubmitted(m, rs[1..], now, q');
        if rs[0].size > 0 {
          InsertedNotInPast(q.(waitQueue := q.waitQueue + [Whole(rs[0])]), now, m);
        }
        SubmittedNotInPast(m, rs[1..], now, q');
      }
    }

    lemma {:induction false} FinishedNotInPast(q: Queues, followUps: seq<Request>, now: nat, m: Queues, q': Queues)
      requires 1 <= p.unit && |q.transferQueue| > 0 && Finishes(q, followUps, now, m, q')
      ensures NothingInPast(q, now, q')
    {
      SubmittedNotInPast(q, if q.transferQueue[0].last then followUps else [], now, m);
      if |m.waitQueue| > 0 {
        InsertedNotInPast(WithoutFront(m), now, q');
      }
    }

    method FeedFront(now: nat)
      requires ReadyToFeed() && Space() && Flags() && Logs() && Timely() && Drains()
      modifies `usage, `waitQueue, `transferQueue, `insertPending, `insertDone, `beginTransfer
      ensures Valid() && Work() <= old(Work())
      ensures |old(waitQueue)| > 0 && Fed(old(waitQueue)[0], old(Now()), now, Now())
      ensures waitQueue[1..] == old(waitQueue)[1..]
    {
      hide Covers, Fired, TotalSize, TotalPieces, Pieces, Oversized, StreamOk, CalcSize, Fresh, UnitLatency;
      ghost var e := waitQueue[0].(insertEndAt := now + latency(CalcSize(waitQueue[0].size, p.unit)));
      TotalSizeAppend(transferQueue, e, p.unit);
      FeedKeeps(p, done, transferQueue, waitQueue, e, requests);
      assert |transferQueue| > 0 ==> (transferQueue + [e])[..1] == transferQueue[..1];
      Feed(now);
    }

    method Feed(now: nat)
      requires |waitQueue| > 0 && 1 <= p.unit
      modifies `usage, `waitQueue, `transferQueue, `insertPending, `insertDone, `beginTransfer
      ensures Fed(old(waitQueue)[0], old(Now()), now, Now())
      ensures waitQueue == old(waitQueue)[0 := transferQueue[|transferQueue| - 1]]
    {
      UnitLatencyIs(waitQueue[0].size);
      hide CalcSize, UnitLatency;
      var size := CalcSize(waitQueue[0].size, p.unit);
      insertPending := true;
      usage := usage + size;
      waitQueue := waitQueue[0 := waitQueue[0].(insertEndAt := now + latency(size))];
      insertDone := Some(waitQueue[0].insertEndAt);
      if beginTransfer.None? {
        beginTransfer := Some(now + if size < p.unit then latency(size) else latency(p.unit));
      }
      transferQueue := transferQueue + [waitQueue[0]];
    }

    lemma {:induction false} UnitLatencyIs(size: nat)
      requires 1 <= p.unit
      ensures UnitLatency(latency, p.unit, size) ==
        if CalcSize(size, p.unit) < p.unit then latency(CalcSize(size, p.unit)) else latency(p.unit)
    {
    }

    method InsertWrite(now: nat)
      requires Core() && Drains() && |waitQueue| > 0
      modifies `usage, `waitQueue, `transferQueue, `insertPending, `insertDone, `beginTransfer
      ensures Valid() && Work() <= old(Work())
      ensures old(transferQueue) <= transferQueue
      ensures Inserted(old(Now()), now, Now())
    {
      hide Covers, Fired, TotalPieces, Pieces;
      var size := CalcSize(waitQueue[0].size, p.unit);
      if (insertPending || usage + size > p.capacity) && size <= p.capacity {
        return;
      }
      if size > p.capacity {
        CutFront();
      }
      FeedFront(now);
    }

    // A write request arrives.
    method DmaWrite(now: nat, r: Request)
      requires Valid()
      modifies `usage, `waitQueue, `transferQueue, `insertPending, `insertDone, `beginTransfer, `requests
      ensures Valid() && old(transferQueue) <= transferQueue
      ensures requests == if r.size == 0 then old(requests) else old(requests) + [r]
      ensures Work() <= old(Work()) + if r.size == 0 then 0 else 6 * Pieces(r.size, p)
      ensures Submitted(old(Now()), r, now, Now()) && NothingInPast(old(Now()), now, Now())
    {
      hide Covers, Fired, TotalSize, TotalPieces, Pieces, Oversized, StreamOk, CalcSize, Fresh, Inserted;
      ghost var before := Now();
      if r.size == 0 {
        return;
      }
      AppendKeeps(p, done, transferQueue, waitQueue, insertPending, requests, r);
      assert Todo(waitQueue + [Whole(r)], insertPending) == Todo(waitQueue, insertPending) + [Whole(r)];
      TotalPiecesAppend(Todo(waitQueue, insertPending), Whole(r), p);
      waitQueue := waitQueue + [Whole(r)];
      requests := requests + [r];
      ghost var q := Now();
      InsertWrite(now);
      InsertedNotInPast(q, now, Now());
    }

    // The insertDone event.
    method InsertWriteDone(now: nat)
      requires Valid() && insertDone == Some(now)
      modifies `usage, `waitQueue, `transferQueue, `insertPending, `insertDone, `beginTransfer
      ensures Valid() && Work() < old(Work())
      ensures |old(waitQueue)| > 0
      ensures GoesOn(old(Now()).(waitQueue := old(waitQueue)[1..], insertPending := false, insertDone := None), now,
        Now())
      ensures NothingInPast(old(Now()), now, Now())
    {
      hide Covers, Fired, TotalSize, TotalPieces, Pieces, CalcSize, Fresh, StreamOk, Oversized, Inserted;
      ReleaseKeeps(p, done, transferQueue, waitQueue, requests);
      waitQueue := waitQueue[1..];
      insertPending := false;
      insertDone := None;
      if |waitQueue| > 0 {
        ghost var q := Now();
        InsertWrite(now);
        InsertedNotInPast(q, now, Now());
      }
    }

    method TransferWrite()
      requires Core() && |transferQueue| > 0 && beginTransfer.None?
      modifies `transferPending, `stage, `sent
      ensures Core() && Drains() && Work() <= old(Work())
      ensures transferPending && stage == if old(transferPending) then old(stage) else InFlight
      ensures sent == if old(transferPending) then old(sent) else old(sent) + [transferQueue[0]]
    {
      hide Covers, Fired, TotalSize, TotalPieces, Pieces, CalcSize, Fresh, StreamOk, Oversized;
      if transferPending {
        return;
      }
      transferPending := true;
      stage := InFlight;
      sent := sent + [transferQueue[0]];
      assert transferQueue[..1] == [transferQueue[0]];
    }

    // The beginTransfer event.
    method BeginTransfer(now: nat)
      requires Valid() && beginTransfer == Some(now)
      modifies `transferPending, `stage, `sent, `beginTransfer
      ensures Valid() && Work() < old(Work()) && beginTransfer.None?
      ensures transferPending && stage == if old(transferPending) then old(stage) else InFlight
      ensures sent == if old(transferPending) then old(sent) else old(sent) + [transferQueue[0]]
    {
      hide Covers, Fired, TotalSize, TotalPieces, Pieces, CalcSize, Fresh, StreamOk, Oversized;
      beginTransfer := None;
      TransferWrite();
    }

    // The upstream calls back: the fragment is complete one unit's latency after its insertion.
    method TransferWriteDone(now: nat, followUps: seq<Request>)
      requires Valid() && stage.InFlight?
      modifies this
      ensures Valid() && !stage.Calling?
      ensures var e := old(transferQueue[0]); var due := e.insertEndAt + UnitLatency(latency, p.unit, e.size);
        if now >= due then
          && done == old(done) + [e] && doneAt == old(doneAt) + [now]
          && called == (if e.last then old(called) + [e.context] else old(called))
          && FinishedSince(old(Now()), followUps, now, old(sent)) && submitCompletion == None
        else
          && submitCompletion == Some(due) && stage == Completing && done == old(done) && called == old(called)
          && Now() == old(Now()) && requests == old(requests) && sent == old(sent)
      ensures NothingInPast(old(Now()), now, Now()) && NotInPast(None, submitCompletion, now)
      ensures followUps == [] ==> Work() < old(Work()) && requests == old(requests)
    {
      hide Covers, Fired, TotalSize, TotalPieces, Pieces, CalcSize, Fresh, StreamOk, Oversized;
      var e := transferQueue[0];
      var completeAt := e.insertEndAt + if e.size < p.unit then latency(e.size) else latency(p.unit);
      if now >= completeAt {
        TransferWriteDoneNext(now, followUps);
      } else {
        submitCompletion := Some(completeAt);
        stage := Completing;
      }
    }

    // The submitCompletion event.
    method SubmitCompletion(now: nat, followUps: seq<Request>)
      requires Valid() && submitCompletion == Some(now)
      modifies this
      ensures Valid() && !stage.Calling?
      ensures done == old(done) + [old(transferQueue[0])] && doneAt == old(doneAt) + [now]
      ensures called == if old(transferQueue[0]).last then old(called) + [old(transferQueue[0]).context]
        else old(called)
      ensures FinishedSince(old(Now()), followUps, now, old(sent)) && submitCompletion == None
      ensures NothingInPast(old(Now()), now, Now())
      ensures followUps == [] ==> Work() < old(Work()) && requests == old(requests)
    {
      TransferWriteDoneNext(now, followUps);
    }

    method TransferWriteDoneNext(now: nat, followUps: seq<Request>)
      requires Valid() && (stage.InFlight? || stage.Completing?)
      requires now >= transferQueue[0].insertEndAt + UnitLatency(latency, p.unit, transferQueue[0].size)
      modifies this
      ensures Valid() && !stage.Calling?
      ensures done == old(done) + [old(transferQueue[0])] && doneAt == old(doneAt) + [now]
      ensures called == if old(transferQueue[0]).last then old(called) + [old(transferQueue[0]).context]
        else old(called)
      ensures FinishedSince(old(Now()), followUps, now, old(sent)) && submitCompletion == None
      ensures NothingInPast(old(Now()), now, Now())
      ensures followUps == [] ==> Work() < old(Work()) && requests == old(requests)
    {
      hide Covers, Fired, TotalSize, TotalPieces, Pieces, CalcSize, Fresh, StreamOk, Oversized, AllSubmitted, GoesOn,
        NothingInPast, UnitLatency;
      ghost var q := Now();
      CallHandler(now, followUps);
      ghost var m := Now();
      Retire(now);
      assert Finishes(q, followUps, now, m, Now());
      FinishedNotInPast(q, followUps, now, m, Now());
    }

    // The front fragment has finished since, and the next one was sent upstream if it can be.
    ghost predicate FinishedSince(q: Queues, followUps: seq<Request>, now: nat, sentBefore: seq<Entry>)
      requires 1 <= p.unit
      reads this
    {
      |q.transferQueue| > 0 && exists m: Queues ::
        && Finishes(q, followUps, now, m, Now())
        && sent == sentBefore + Sends(m) && stage == (if Sends(m) == [] then Idle else InFlight)
    }

    // The handler of the front fragment's request runs if this is its last fragment; it may submit
    // further requests.
    method CallHandler(now: nat, followUps: seq<Request>)
      requires Valid() && (stage.InFlight? || stage.Completing?)
      modifies `usage, `waitQueue, `transferQueue, `insertPending, `insertDone, `beginTransfer, `requests,
        `submitCompletion, `stage, `called
      ensures Valid() && stage.Calling? && old(transferQueue) <= transferQueue
      ensures called == if old(transferQueue[0]).last then old(called) + [old(transferQueue[0]).context]
        else old(called)
      ensures AllSubmitted(old(Now()), if old(transferQueue[0]).last then followUps else [], now, Now())
      ensures submitCompletion == None
      ensures followUps == [] ==> Work() <= old(Work()) && requests == old(requests)
    {
      hide Covers, Fired, TotalSize, TotalPieces, Pieces, CalcSize, Fresh, StreamOk, Oversized, Inserted;
      var e := transferQueue[0];
      ghost var q := Now();
      assert transferQueue[..1] == [e] && done + [] == done;
      FiredAppend(done, e);
      submitCompletion := None;
      stage := Calling;
      if e.last {
        called := called + [e.context];
        SubmitAll(now, followUps);
      }
    }

    // The handler submits requests.
    method SubmitAll(now: nat, followUps: seq<Request>)
      requires Valid() && stage.Calling?
      modifies `usage, `waitQueue, `transferQueue, `insertPending, `insertDone, `beginTransfer, `requests
      ensures Valid() && old(transferQueue) <= transferQueue
      ensures AllSubmitted(old(Now()), followUps, now, Now())
      ensures followUps == [] ==> Work() == old(Work()) && requests == old(requests)
    {
      hide StreamOk, Oversized, Fresh, TotalSize, TotalPieces, Pieces, CalcSize, Covers, Fired, Submitted;
      ghost var q := Now();
      assert followUps[..0] == [] && AllSubmitted(q, [], now, q);
      for i := 0 to |followUps|
        invariant Valid() && stage.Calling? && old(transferQueue) <= transferQueue
        invariant AllSubmitted(q, followUps[..i], now, Now())
        invariant followUps == [] ==> Work() == old(Work()) && requests == old(requests)
      {
        ghost var m := Now();
        DmaWrite(now, followUps[i]);
        SubmittedOne(q, followUps[..i], followUps[i], now, m, Now());
        assert followUps[..i] + [followUps[i]] == followUps[..i + 1];
      }
      assert followUps[..|followUps|] == followUps;
    }

    // The front fragment leaves the FIFO.
    method PopFront(now: nat)
      requires Valid() && stage.Calling?
      requires now >= transferQueue[0].insertEndAt + UnitLatency(latency, p.unit, transferQueue[0].size)
      modifies `usage, `transferPending, `stage, `done, `doneAt, `transferQueue
      ensures Core() && stage.Idle? && transferQueue == old(transferQueue)[1..]
      ensures |old(transferQueue)| > 0 && old(usage) >= CalcSize(old(transferQueue)[0].size, p.unit)
      ensures Now() == WithoutFront(old(Now())) && !transferPending
      ensures done == old(done) + [old(transferQueue[0])] && doneAt == old(doneAt) + [now]
      ensures Work() < old(Work())
    {
      hide Covers, Fired, TotalPieces, Pieces, CalcSize, Fresh, StreamOk, Oversized;
      FinishKeeps(p, done, transferQueue, waitQueue, insertPending, requests);
      assert transferQueue[..1] == [transferQueue[0]] && done + [transferQueue[0]] + [] == done + [transferQueue[0]];
      Pop(now);
    }

    method Pop(now: nat)
      requires |transferQueue| > 0 && 1 <= p.unit && usage >= CalcSize(transferQueue[0].size, p.unit)
      modifies `usage, `transferPending, `stage, `done, `doneAt, `transferQueue
      ensures usage == old(usage) - CalcSize(old(transferQueue)[0].size, p.unit)
      ensures !transferPending && stage == Idle && transferQueue == old(transferQueue)[1..]
      ensures done == old(done) + [old(transferQueue)[0]] && doneAt == old(doneAt) + [now]
    {
      usage := usage - CalcSize(transferQueue[0].size, p.unit);
      transferPending := false;
      stage, done, doneAt := Idle, done + [transferQueue[0]], doneAt + [now];
      transferQueue := transferQueue[1..];
    }

    // What waited for the front fragment to leave goes on.
    method Retire(now: nat)
      requires Valid() && stage.Calling?
      requires now >= transferQueue[0].insertEndAt + UnitLatency(latency, p.unit, transferQueue[0].size)
      modifies this
      ensures Valid() && !stage.Calling?
      ensures done == old(done) + [old(transferQueue[0])] && doneAt == old(doneAt) + [now]
      ensures called == old(called) && requests == old(requests) && Work() < old(Work())
      ensures |old(transferQueue)| > 0 && old(usage) >= CalcSize(old(transferQueue)[0].size, p.unit)
      ensures GoesOn(WithoutFront(old(Now())), now, Now()) && submitCompletion == old(submitCompletion)
      ensures sent == old(sent) + Sends(old(Now())) && stage == if Sends(old(Now())) == [] then Idle else InFlight
    {
      hide Covers, Fired, TotalSize, TotalPieces, Pieces, Fresh, StreamOk, Oversized, Inserted, CalcSize;
      PopFront(now);
      if |transferQueue| > 0 && beginTransfer.None? {
        TransferWrite();
      }
      if |waitQueue| > 0 {
        InsertWrite(now);
      }
    }

    // Handlers are called in the order the requests came in, at most once each, and only when all
    // fragments of the request are finished.
    lemma {:induction false} HandlersInOrder() returns (m: nat)
      requires Valid()
      ensures |called| <= |requests| && forall k | 0 <= k < |called| :: called[k] == requests[k].context
      ensures m <= |done| + if stage.Calling? then 1 else 0
      ensures Covers((done + if stage.Calling? then transferQueue[..1] else [])[..m], requests[..|called|])
    {
      hide Covers, Fired, TotalSize, CalcSize, Fresh, Oversized;
      var finished := done + if stage.Calling? then transferQueue[..1] else [];
      var rest := if stage.Calling? then transferQueue[1..] else transferQueue;
      var todo := Todo(waitQueue, insertPending);
      assert finished + rest == done + transferQueue;
      assert finished + (rest + todo) == done + transferQueue + todo;
      m := FiredInOrder(finished, rest + todo, requests);
    }

    // The fragments sent upstream are the first ones of a cover of the requests.
    lemma {:induction false} SentTiles() returns (rest: seq<Entry>)
      requires Valid()
      ensures Covers(sent + rest, requests)
    {
      hide Covers, Fired, TotalSize, CalcSize, Fresh, Oversized;
      var todo := Todo(waitQueue, insertPending);
      rest := if transferPending then transferQueue[1..] + todo else transferQueue + todo;
      assert sent + rest == done + transferQueue + todo;
    }

    // No wakeup is lost: when nothing is scheduled or owed, every request is finished.
    lemma {:induction false} QuietMeansFinished()
      requires Valid() && Quiet()
      ensures waitQueue == [] && transferQueue == [] && usage == 0
      ensures Covers(sent, requests)
      ensures called == Contexts(requests)
    {
      assert |transferQueue| == 0;
      assert TotalSize(transferQueue, p.unit) == 0;
      assert |waitQueue| == 0;
      assert done + [] == done && done + transferQueue + Todo(waitQueue, insertPending) == done;
      FiredAll(done, requests);
    }

    lemma {:induction false} WorkIsNat()
      requires Valid()
      ensures Work() >= 0
    { }

    // However the events and the upstream's callbacks are interleaved, and whenever the upstream calls
    // back, the FIFO finishes every request it has taken in after finitely many of them.
    method Drain(choice: nat -> nat, tick: nat -> nat)
      requires Valid() && !stage.Calling?
      modifies this
      ensures Valid() && Quiet() && requests == old(requests)
      ensures called == Contexts(requests)
    {
      hide Covers, Fired, TotalSize, TotalPieces, Pieces, CalcSize, Fresh, StreamOk, Oversized;
      var i := 0;
      while insertDone.Some? || beginTransfer.Some? || transferPending
        invariant Valid() && !stage.Calling? && requests == old(requests)
        decreases Work()
      {
        WorkIsNat();
        var c, now := choice(i), tick(i);
        i := i + 1;
        if insertDone.Some? && (c % 3 == 0 || (beginTransfer.None? && !transferPending)) {
          InsertWriteDone(insertDone.value);
        } else if beginTransfer.Some? && (c % 3 == 1 || !transferPending) {
          BeginTransfer(beginTransfer.value);
        } else if submitCompletion.None? {
          TransferWriteDone(now, []);
        } else {
          SubmitCompletion(submitCompletion.value, []);
        }
      }
      QuietMeansFinished();
    }
  }
}
