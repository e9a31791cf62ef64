// The DMA FIFO: requests are split, inserted and transferred in a pipeline driven by
// events. This part is about the stream of fragments; the queues are in WriteFifo and ReadFifo.
module Fragments {
  import Arithmetic
  import opened Options

  datatype Request = Request(context: nat, addr: nat, size: nat)

  // FIFOEntry; the context stands for the caller's handler and context.
  datatype Entry = Entry(context: nat, last: bool, id: nat, addr: nat, size: nat, insertEndAt: nat)

  // The entry as pushed by the caller.
  function Whole(r: Request): Entry { Entry(r.context, true, 0, r.addr, r.size, 0) }

  predicate Multiple(x: nat, unit: nat)
    requires 1 <= unit
  {
    x % unit == 0
  }

  // calcSize: whole transfer units, except below one unit.
  function CalcSize(size: nat, unit: nat): (r: nat)
    requires 1 <= unit
    ensures size <= r < size + unit
    ensures size <= unit ==> r <= unit
    ensures size < unit ==> r == size
    ensures unit <= size ==> Multiple(r, unit)
  {
    if size < unit then size
    else
      RoundUp(size, unit);
      WholeUnits((size - 1) / unit + 1, unit);
      ((size - 1) / unit + 1) * unit
  }

  lemma {:induction false} WholeUnits(n: nat, unit: nat)
    requires 1 <= unit
    ensures Multiple(n * unit, unit)
  {
    Arithmetic.DivModOf(n * unit, unit, n, 0);
  }

  lemma {:induction false} RoundUp(size: nat, unit: nat)
    requires 1 <= unit <= size
    ensures size <= ((size - 1) / unit + 1) * unit < size + unit
    ensures size == unit ==> ((size - 1) / unit + 1) * unit == unit
  {
    var q := (size - 1) / unit;
    assert size - 1 == q * unit + (size - 1) % unit;
    assert (q + 1) * unit == q * unit + unit;
  }

  // The upstream's latency for a fragment: that of one unit, or of the fragment if smaller.
  function UnitLatency(latency: nat -> nat, unit: nat, size: nat): nat {
    if size < unit then latency(size) else latency(unit)
  }

  // The request without its first n bytes.
  function After(r: Request, n: nat): Request
    requires n <= r.size
  {
    Request(r.context, r.addr + n, r.size - n)
  }

  // The fragments are those of the requests, in order: each request's fragments are non-empty,
  // lie end to end from its address on, add up to its size, and only the final one is marked last.
  predicate Covers(s: seq<Entry>, requests: seq<Request>)
    decreases |s|
  {
    if |s| == 0 then |requests| == 0
    else
      && |requests| > 0
      && s[0].context == requests[0].context && s[0].addr == requests[0].addr && 1 <= s[0].size
      && if s[0].last then s[0].size == requests[0].size && Covers(s[1..], requests[1..])
         else s[0].size < requests[0].size && Covers(s[1..], [After(requests[0], s[0].size)] + requests[1..])
  }

  // What is left to transfer of the requests once the fragments s are done.
  function Remaining(s: seq<Entry>, requests: seq<Request>): Option<seq<Request>>
    decreases |s|
  {
    if |s| == 0 then Some(requests)
    else if |requests| == 0 || s[0].context != requests[0].context || s[0].addr != requests[0].addr
      || s[0].size == 0 then None
    else if s[0].last then (if s[0].size == requests[0].size then Remaining(s[1..], requests[1..]) else None)
    else if s[0].size < requests[0].size then Remaining(s[1..], [After(requests[0], s[0].size)] + requests[1..])
    else None
  }

  lemma {:induction false} CoversConcat(s: seq<Entry>, t: seq<Entry>, requests: seq<Request>)
    ensures Covers(s + t, requests) <==> Remaining(s, requests).Some? && Covers(t, Remaining(s, requests).value)
    decreases |s|
  {
    if |s| == 0 {
      assert s + t == t;
    } else {
      assert (s + t)[1..] == s[1..] + t;
      if |requests| > 0 {
        if s[0].last {
          CoversConcat(s[1..], t, requests[1..]);
        } else if s[0].size < requests[0].size {
          CoversConcat(s[1..], t, [After(requests[0], s[0].size)] + requests[1..]);
        }
      }
    }
  }

  // A new request appends one whole fragment.
  lemma {:induction false} CoversAppend(s: seq<Entry>, requests: seq<Request>, r: Request)
    requires Covers(s, requests) && 1 <= r.size
    ensures Covers(s + [Whole(r)], requests + [r])
    decreases |s|
  {
    var t, rs := s + [Whole(r)], requests + [r];
    if |s| == 0 {
      assert t == [Whole(r)] && rs == [r] && t[1..] == [] && rs[1..] == [];
    } else {
      assert t[1..] == s[1..] + [Whole(r)];
      if s[0].last {
        assert rs[1..] == requests[1..] + [r];
        CoversAppend(s[1..], requests[1..], r);
      } else {
        var rest := [After(requests[0], s[0].size)] + requests[1..];
        assert [After(requests[0], s[0].size)] + rs[1..] == rest + [r];
        CoversAppend(s[1..], rest, r);
      }
    }
  }

  // The two parts of an entry that is too large: the first unit, and the rest.
  function FirstPart(e: Entry, unit: nat): Entry { e.(last := false, size := unit) }

  function RestPart(e: Entry, unit: nat): Entry
    requires unit <= e.size
  {
    e.(last := true, addr := e.addr + unit, size := e.size - unit)
  }

  // Splitting a fragment keeps the cover.
  lemma {:induction false} CoversSplit(s: seq<Entry>, e: Entry, t: seq<Entry>, unit: nat, requests: seq<Request>)
    requires Covers(s + [e] + t, requests) && e.last && 1 <= unit < e.size
    ensures Covers(s + [FirstPart(e, unit), RestPart(e, unit)] + t, requests)
  {
    var parts := [FirstPart(e, unit), RestPart(e, unit)];
    assert s + [e] + t == s + ([e] + t);
    assert s + parts + t == s + (parts + t);
    CoversConcat(s, [e] + t, requests);
    CoversConcat(s, parts + t, requests);
    var rs := Remaining(s, requests).value;
    var rest := [After(rs[0], unit)] + rs[1..];
    assert ([e] + t)[1..] == t;
    assert (parts + t)[1..] == [RestPart(e, unit)] + t;
    assert ([RestPart(e, unit)] + t)[1..] == t;
    assert rest[1..] == rs[1..];
  }

  // Only what a fragment carries matters, not when it was inserted or its id.
  predicate SameFragment(a: Entry, b: Entry) {
    a.context == b.context && a.last == b.last && a.addr == b.addr && a.size == b.size
  }

  lemma {:induction false} CoversSame(s: seq<Entry>, t: seq<Entry>, requests: seq<Request>)
    requires Covers(s, requests) && |s| == |t| && forall k | 0 <= k < |s| :: SameFragment(s[k], t[k])
    ensures Covers(t, requests)
    decreases |s|
  {
    if |s| > 0 {
      assert SameFragment(s[0], t[0]);
      forall k | 0 <= k < |s| - 1 ensures SameFragment(s[1..][k], t[1..][k]) {
        assert SameFragment(s[k + 1], t[k + 1]);
      }
      CoversSame(s[1..], t[1..], if s[0].last then requests[1..] else [After(requests[0], s[0].size)] + requests[1..]);
    }
  }

  // The callers told of completion once the fragments s are done.
  function Fired(s: seq<Entry>): seq<nat> {
    if |s| == 0 then []
    else Fired(s[..|s| - 1]) + if s[|s| - 1].last then [s[|s| - 1].context] else []
  }

  lemma {:induction false} FiredAppend(s: seq<Entry>, e: Entry)
    ensures Fired(s + [e]) == Fired(s) + if e.last then [e.context] else []
  {
    assert (s + [e])[..|s|] == s;
  }

  // Handlers run in submission order, each once, and only when every fragment of the request is
  // done: some prefix of the done fragments covers exactly the requests whose handler ran.
  lemma {:induction false} FiredInOrder(done: seq<Entry>, rest: seq<Entry>, requests: seq<Request>) returns (m: nat)
    requires Covers(done + rest, requests)
    ensures |Fired(done)| <= |requests| && m <= |done|
    ensures Covers(done[..m], requests[..|Fired(done)|])
    ensures forall k | m <= k < |done| :: !done[k].last
    ensures forall k | 0 <= k < |Fired(done)| :: Fired(done)[k] == requests[k].context
    decreases |done|
  {
    if |done| == 0 {
      return 0;
    }
    var n := |done| - 1;
    var init, e := done[..n], done[n];
    assert done == init + [e];
    assert init + ([e] + rest) == done + rest;
    m := FiredInOrder(init, [e] + rest, requests);
    if e.last {
      FiredOneMore(init, e, rest, requests, m);
      assert done[..|done|] == done;
      m := |done|;
    } else {
      assert init[..m] == done[..m];
    }
  }

  lemma {:induction false} FiredOneMore(init: seq<Entry>, e: Entry, rest: seq<Entry>, requests: seq<Request>, m: nat)
    requires Covers(init + ([e] + rest), requests) && e.last && m <= |init|
    requires |Fired(init)| <= |requests| && Covers(init[..m], requests[..|Fired(init)|])
    requires forall k | m <= k < |init| :: !init[k].last
    ensures var f := |Fired(init)|;
      f < |requests| && e.context == requests[f].context && Covers(init + [e], requests[..f + 1])
  {
    var f := |Fired(init)|;
    var s, t := init[..m], init[m..] + [e];
    assert s + (t + rest) == init + ([e] + rest);
    assert requests[..f] + requests[f..] == requests;
    CoversConcat(s, t + rest, requests);
    CoveredRemain(s, requests[..f], requests[f..]);
    RunCovers(t, rest, requests[f..]);
    assert requests[..f + 1] == requests[..f] + [requests[f]];
    CoversConcat(s, t, requests[..f + 1]);
    CoveredRemain(s, requests[..f], [requests[f]]);
    assert s + t == init + [e];
  }

  // Fragments that cover the first requests leave the others.
  lemma {:induction false} CoveredRemain(s: seq<Entry>, a: seq<Request>, b: seq<Request>)
    requires Covers(s, a)
    ensures Remaining(s, a + b) == Some(b)
    decreases |s|
  {
    if |s| == 0 {
      assert a + b == b;
    } else if s[0].last {
      assert (a + b)[1..] == a[1..] + b;
      CoveredRemain(s[1..], a[1..], b);
    } else {
      var rest := [After(a[0], s[0].size)] + a[1..];
      assert [After(a[0], s[0].size)] + (a + b)[1..] == rest + b;
      CoveredRemain(s[1..], rest, b);
    }
  }

  // Fragments of which only the final one is last cover the first request.
  lemma {:induction false} RunCovers(t: seq<Entry>, rest: seq<Entry>, requests: seq<Request>)
    requires |t| > 0 && t[|t| - 1].last && forall k | 0 <= k < |t| - 1 :: !t[k].last
    requires Covers(t + rest, requests)
    ensures |requests| > 0 && Covers(t, [requests[0]]) && t[|t| - 1].context == requests[0].context
    decreases |t|
  {
    assert (t + rest)[1..] == t[1..] + rest;
    if |t| == 1 {
      assert [requests[0]][1..] == [];
    } else {
      var next := After(requests[0], t[0].size);
      assert t[1..][|t| - 2] == t[|t| - 1];
      RunCovers(t[1..], rest, [next] + requests[1..]);
      assert [next] + [requests[0]][1..] == [next];
    }
  }

  function Contexts(requests: seq<Request>): seq<nat> {
    seq(|requests|, k requires 0 <= k < |requests| => requests[k].context)
  }

  // Once the fragments cover the requests exactly, every handler has run.
  lemma {:induction false} FiredAll(done: seq<Entry>, requests: seq<Request>)
    requires Covers(done, requests)
    ensures Fired(done) == Contexts(requests)
  {
    assert done + [] == done;
    var m := FiredInOrder(done, [], requests);
    var f := |Fired(done)|;
    assert done[..m] + done[m..] == done;
    assert requests[..f] + requests[f..] == requests;
    CoversConcat(done[..m], done[m..], requests);
    CoveredRemain(done[..m], requests[..f], requests[f..]);
    forall k | 0 <= k < |done[m..]| ensures !done[m..][k].last {
      assert done[m..][k] == done[m + k];
    }
    NeverLast(done[m..], requests[f..]);
  }

  // Fragments that cover whole requests end with a last one.
  lemma {:induction false} NeverLast(s: seq<Entry>, requests: seq<Request>)
    requires Covers(s, requests) && forall k | 0 <= k < |s| :: !s[k].last
    ensures s == [] && requests == []
    decreases |s|
  {
    if |s| > 0 {
      var rest := [After(requests[0], s[0].size)] + requests[1..];
      forall k | 0 <= k < |s[1..]| ensures !s[1..][k].last {
        assert s[1..][k] == s[k + 1];
      }
      NeverLast(s[1..], rest);
      assert false;
    }
  }

  datatype Param = Param(capacity: nat, unit: nat)

  predicate ParamOk(p: Param) { 1 <= p.unit <= p.capacity }

  // The waiting entries not yet in the FIFO: while an entry is fed in, it stays at the front.
  function Todo(wait: seq<Entry>, feeding: bool): seq<Entry>
    requires feeding ==> |wait| > 0
  {
    if feeding then wait[1..] else wait
  }

  predicate Fresh(s: seq<Entry>) { forall k | 0 <= k < |s| :: s[k].last && 1 <= s[k].size }

  // The finished, queued and waiting fragments, in order, are those of the requests.
  ghost predicate StreamOk(p: Param, done: seq<Entry>, transfer: seq<Entry>, wait: seq<Entry>, feeding: bool,
      requests: seq<Request>)
    requires ParamOk(p)
  {
    && (feeding ==> |wait| > 0 && CalcSize(wait[0].size, p.unit) <= p.capacity)
    && Fresh(Todo(wait, feeding))
    && (forall k | 0 <= k < |transfer| :: 1 <= transfer[k].size)
    && Covers(done + transfer + Todo(wait, feeding), requests)
  }

  // Some request is larger than the whole FIFO.
  ghost predicate Oversized(p: Param, requests: seq<Request>)
    requires ParamOk(p)
  {
    exists k :: 0 <= k < |requests| && CalcSize(requests[k].size, p.unit) > p.capacity
  }

  // A fragment too large for the FIFO comes from such a request.
  lemma {:induction false} LargeFragment(p: Param, s: seq<Entry>, k: nat, requests: seq<Request>)
    requires ParamOk(p) && Covers(s, requests) && k < |s| && CalcSize(s[k].size, p.unit) > p.capacity
    ensures Oversized(p, requests)
    decreases |s|
  {
    CalcSizeMonotone(s[0].size, requests[0].size, p.unit);
    if k > 0 {
      var rest := if s[0].last then requests[1..] else [After(requests[0], s[0].size)] + requests[1..];
      LargeFragment(p, s[1..], k - 1, rest);
      var j :| 0 <= j < |rest| && CalcSize(rest[j].size, p.unit) > p.capacity;
      if s[0].last {
        assert rest[j] == requests[j + 1];
      } else {
        CalcSizeMonotone(rest[0].size, requests[0].size, p.unit);
        assert j > 0 ==> rest[j] == requests[j];
      }
    }
  }

  lemma {:induction false} CalcSizeMonotone(a: nat, b: nat, unit: nat)
    requires 1 <= unit && a <= b
    ensures CalcSize(a, unit) <= CalcSize(b, unit)
  {
    hide Multiple;
    if a >= unit {
      var q := (b - 1) / unit;
      RoundUp(b, unit);
      Arithmetic.QuotientBound(a - 1, unit, q + 1);
      Arithmetic.MulMonotone((a - 1) / unit, q, unit);
      Arithmetic.NextMultiple((a - 1) / unit, unit);
      Arithmetic.NextMultiple(q, unit);
    }
  }

  // A new request waits at the end.
  lemma {:induction false} AppendKeeps(p: Param, done: seq<Entry>, transfer: seq<Entry>, wait: seq<Entry>,
      feeding: bool, requests: seq<Request>, r: Request)
    requires ParamOk(p) && StreamOk(p, done, transfer, wait, feeding, requests) && 1 <= r.size
    ensures StreamOk(p, done, transfer, wait + [Whole(r)], feeding, requests + [r])
    ensures Oversized(p, requests) ==> Oversized(p, requests + [r])
  {
    if Oversized(p, requests) {
      var k :| 0 <= k < |requests| && CalcSize(requests[k].size, p.unit) > p.capacity;
      assert (requests + [r])[k] == requests[k];
    }
    var todo := Todo(wait, feeding);
    assert Todo(wait + [Whole(r)], feeding) == todo + [Whole(r)];
    assert done + transfer + (todo + [Whole(r)]) == (done + transfer + todo) + [Whole(r)];
    CoversAppend(done + transfer + todo, requests, r);
  }

  // The front entry goes to the transfer queue, stamped with its id and time.
  lemma {:induction false} FeedKeeps(p: Param, done: seq<Entry>, transfer: seq<Entry>, wait: seq<Entry>, e: Entry,
      requests: seq<Request>)
    requires ParamOk(p) && |wait| > 0 && SameFragment(wait[0], e)
    requires Covers(done + transfer + wait, requests)
    requires forall k | 0 <= k < |transfer| :: 1 <= transfer[k].size
    requires Fresh(wait[1..]) && 1 <= e.size && CalcSize(e.size, p.unit) <= p.capacity
    ensures StreamOk(p, done, transfer + [e], wait[0 := e], true, requests)
    ensures TotalPieces(wait, p) >= 1 + TotalPieces(Todo(wait[0 := e], true), p)
  {
    var s, t := done + transfer + wait, done + (transfer + [e]) + wait[1..];
    assert wait[0 := e][1..] == wait[1..];
    forall k | 0 <= k < |s| ensures SameFragment(s[k], t[k]) { }
    CoversSame(s, t, requests);
  }

  // An entry larger than the whole FIFO is cut after one unit.
  lemma {:induction false} CutKeeps(p: Param, done: seq<Entry>, transfer: seq<Entry>, wait: seq<Entry>,
      requests: seq<Request>)
    requires ParamOk(p) && StreamOk(p, done, transfer, wait, false, requests)
    requires |wait| > 0 && CalcSize(wait[0].size, p.unit) > p.capacity
    ensures p.unit < wait[0].size && Oversized(p, requests)
    ensures Covers(done + transfer + ([FirstPart(wait[0], p.unit), RestPart(wait[0], p.unit)] + wait[1..]), requests)
    ensures Fresh([RestPart(wait[0], p.unit)] + wait[1..])
    ensures TotalPieces([FirstPart(wait[0], p.unit), RestPart(wait[0], p.unit)] + wait[1..], p) == TotalPieces(wait, p)
  {
    var s, e, t := done + transfer, wait[0], wait[1..];
    LargeFragment(p, s + wait, |s|, requests);
    assert s + wait == s + [e] + t;
    CoversSplit(s, e, t, p.unit, requests);
    var parts := [FirstPart(e, p.unit), RestPart(e, p.unit)];
    assert s + (parts + t) == s + parts + t;
    assert (parts + t)[1..] == [RestPart(e, p.unit)] + t && ([RestPart(e, p.unit)] + t)[1..] == t;
  }

  // The entry that was fed in leaves the waiting queue.
  lemma {:induction false} ReleaseKeeps(p: Param, done: seq<Entry>, transfer: seq<Entry>, wait: seq<Entry>,
      requests: seq<Request>)
    requires ParamOk(p) && StreamOk(p, done, transfer, wait, true, requests)
    ensures |wait| > 0 && StreamOk(p, done, transfer, wait[1..], false, requests)
  { }

  // The front of the transfer queue is finished.
  lemma {:induction false} FinishKeeps(p: Param, done: seq<Entry>, transfer: seq<Entry>, wait: seq<Entry>,
      feeding: bool, requests: seq<Request>)
    requires ParamOk(p) && StreamOk(p, done, transfer, wait, feeding, requests) && |transfer| > 0
    ensures StreamOk(p, done + [transfer[0]], transfer[1..], wait, feeding, requests)
  {
    assert done + [transfer[0]] + transfer[1..] == done + transfer;
  }

  // The bytes the transfer queue takes up.
  function TotalSize(s: seq<Entry>, unit: nat): nat
    requires 1 <= unit
  {
    if |s| == 0 then 0 else CalcSize(s[0].size, unit) + TotalSize(s[1..], unit)
  }

  lemma {:induction false} TotalSizeAppend(s: seq<Entry>, e: Entry, unit: nat)
    requires 1 <= unit
    ensures TotalSize(s + [e], unit) == TotalSize(s, unit) + CalcSize(e.size, unit)
  {
    if |s| == 0 {
      assert (s + [e])[1..] == [];
    } else {
      assert (s + [e])[1..] == s[1..] + [e];
      TotalSizeAppend(s[1..], e, unit);
    }
  }

  // How many fragments an entry becomes.
  function Pieces(size: nat, p: Param): (n: nat)
    requires ParamOk(p)
    ensures n >= 1
    decreases size
  {
    if CalcSize(size, p.unit) > p.capacity then 1 + Pieces(size - p.unit, p) else 1
  }

  function TotalPieces(s: seq<Entry>, p: Param): nat
    requires ParamOk(p)
  {
    if |s| == 0 then 0 else Pieces(s[0].size, p) + TotalPieces(s[1..], p)
  }

  lemma {:induction false} TotalPiecesAppend(s: seq<Entry>, e: Entry, p: Param)
    requires ParamOk(p)
    ensures TotalPieces(s + [e], p) == TotalPieces(s, p) + Pieces(e.size, p)
  {
    if |s| == 0 {
      assert (s + [e])[1..] == [];
    } else {
      assert (s + [e])[1..] == s[1..] + [e];
      TotalPiecesAppend(s[1..], e, p);
    }
  }

  // The bytes a fragment or request moves, in order: for whom, and where.
  function Span(context: nat, addr: nat, size: nat): seq<(nat, nat)> {
    seq(size, k requires 0 <= k < size => (context, addr + k))
  }

  function FragmentBytes(s: seq<Entry>): seq<(nat, nat)> {
    if |s| == 0 then [] else Span(s[0].context, s[0].addr, s[0].size) + FragmentBytes(s[1..])
  }

  function RequestBytes(requests: seq<Request>): seq<(nat, nat)> {
    if |requests| == 0 then []
    else Span(requests[0].context, requests[0].addr, requests[0].size) + RequestBytes(requests[1..])
  }

  // Fragments that cover the requests move exactly the bytes asked for, in order.
  lemma {:induction false} CoversBytes(s: seq<Entry>, requests: seq<Request>)
    requires Covers(s, requests)
    ensures FragmentBytes(s) == RequestBytes(requests)
    decreases |s|
  {
    if |s| > 0 {
      var e, r := s[0], requests[0];
      if e.last {
        CoversBytes(s[1..], requests[1..]);
      } else {
        var rest := After(r, e.size);
        CoversBytes(s[1..], [rest] + requests[1..]);
        assert ([rest] + requests[1..])[1..] == requests[1..];
        assert Span(r.context, r.addr, r.size) ==
          Span(e.context, e.addr, e.size) + Span(rest.context, rest.addr, rest.size);
      }
    }
  }
}
