// A physical block of the FTL: one valid bit, one erased bit and one owner LPN per I/O
// unit of every page, and one write pointer per unit position.
module Blocks {

  datatype BlockState = BlockState(
    idx: nat,
    valid: seq<seq<bool>>,
    erased: seq<seq<bool>>,
    lpns: seq<seq<nat>>,
    next: seq<nat>,
    eraseCount: nat)

  // A bit or owner table of the block.
  predicate Table<T>(t: seq<seq<T>>, pages: nat, units: nat) {
    |t| == pages && forall p | 0 <= p < pages :: |t[p]| == units
  }

  predicate Shaped(b: BlockState, pages: nat, units: nat) {
    && Table(b.valid, pages, units) && Table(b.erased, pages, units) && Table(b.lpns, pages, units)
    && |b.next| == units
  }

  // Units of one position are written in page order: exactly those from the write pointer
  // on are erased, and only written ones can be valid.
  predicate Sequential(b: BlockState, pages: nat, units: nat)
    requires Shaped(b, pages, units)
  {
    && (forall i | 0 <= i < units :: b.next[i] <= pages)
    && (forall p, i | 0 <= p < pages && 0 <= i < units :: b.erased[p][i] <==> b.next[i] <= p)
    && (forall p, i | 0 <= p < pages && 0 <= i < units :: b.valid[p][i] ==> p < b.next[i])
  }

  predicate WellFormed(b: BlockState, pages: nat, units: nat) {
    Shaped(b, pages, units) && Sequential(b, pages, units)
  }

  function Set<T>(t: seq<seq<T>>, p: nat, i: nat, x: T): seq<seq<T>>
    requires p < |t| && i < |t[p]|
  {
    t[p := t[p][i := x]]
  }

  function Fill<T>(pages: nat, units: nat, x: T): (t: seq<seq<T>>)
    ensures Table(t, pages, units)
  {
    seq(pages, _ => seq(units, _ => x))
  }

  // ---------- the operations ----------

  predicate CanWrite(b: BlockState, p: nat, i: nat) {
    && p < |b.erased| && i < |b.erased[p]| && i < |b.next|
    && b.erased[p][i] && b.next[i] <= p
  }

  function Written(b: BlockState, p: nat, lpn: nat, i: nat): BlockState
    requires p < |b.valid| && p < |b.erased| && p < |b.lpns|
    requires i < |b.valid[p]| && i < |b.erased[p]| && i < |b.lpns[p]| && i < |b.next|
  {
    b.(valid := Set(b.valid, p, i, true), erased := Set(b.erased, p, i, false),
       lpns := Set(b.lpns, p, i, lpn), next := b.next[i := p + 1])
  }

  function Invalidated(b: BlockState, p: nat, i: nat): BlockState
    requires p < |b.valid| && i < |b.valid[p]|
  {
    b.(valid := Set(b.valid, p, i, false))
  }

  function Erased(b: BlockState, pages: nat, units: nat): BlockState {
    b.(valid := Fill(pages, units, false), erased := Fill(pages, units, true),
       next := seq(units, _ => 0), eraseCount := b.eraseCount + 1)
  }

  // Nothing of the block has been written.
  predicate Fresh(b: BlockState, pages: nat, units: nat) {
    && WellFormed(b, pages, units)
    && forall i | 0 <= i < units :: b.next[i] == 0
  }

  // The furthest write pointer: getNextWritePageIndex() without a unit.
  function MaxOf(s: seq<nat>): (m: nat)
    ensures forall i | 0 <= i < |s| :: s[i] <= m
    ensures m == 0 || m in s
  {
    if |s| == 0 then 0
    else
      var m := MaxOf(s[..|s| - 1]);
      if m < s[|s| - 1] then s[|s| - 1] else m
  }

  predicate Full(b: BlockState, pages: nat) { MaxOf(b.next) == pages }

  // getPageInfo's map of the page: with a single unit per page every page is reported valid.
  function PageMap(b: BlockState, p: nat, units: nat): seq<bool>
    requires p < |b.valid|
  {
    if units == 1 then [true] else b.valid[p]
  }

  // The valid units of the block; their number is getValidPageCountRaw().
  function ValidUnits(b: BlockState): set<(nat, nat)> {
    set p, i | 0 <= p < |b.valid| && 0 <= i < |b.valid[p]| && b.valid[p][i] :: (p, i)
  }

  ghost predicate NothingValid(b: BlockState) { ValidUnits(b) == {} }

  // ---------- what the operations keep ----------

  lemma {:induction false} WriteKeeps(b: BlockState, p: nat, lpn: nat, i: nat, pages: nat, units: nat)
    requires WellFormed(b, pages, units) && i < units && p == b.next[i] < pages
    ensures CanWrite(b, p, i) && !b.valid[p][i]
    ensures WellFormed(Written(b, p, lpn, i), pages, units)
    ensures ValidUnits(Written(b, p, lpn, i)) == ValidUnits(b) + {(p, i)}
  {
  }

  lemma {:induction false} InvalidateKeeps(b: BlockState, p: nat, i: nat, pages: nat, units: nat)
    requires WellFormed(b, pages, units) && p < pages && i < units
    ensures WellFormed(Invalidated(b, p, i), pages, units)
    ensures ValidUnits(Invalidated(b, p, i)) == ValidUnits(b) - {(p, i)}
  {
  }

  lemma {:induction false} EraseMakesFresh(b: BlockState, pages: nat, units: nat)
    requires WellFormed(b, pages, units)
    ensures Fresh(Erased(b, pages, units), pages, units) && NothingValid(Erased(b, pages, units))
  {
  }

  lemma {:induction false} FreshHasNothingValid(b: BlockState, pages: nat, units: nat)
    requires Fresh(b, pages, units)
    ensures NothingValid(b) && MaxOf(b.next) == 0
  {
    MaxBelow(b.next, 0);
    forall p, i | 0 <= p < pages && 0 <= i < units ensures !b.valid[p][i] {
      assert b.next[i] == 0;
    }
  }

  // A block that is not full has room at every unit position.
  lemma {:induction false} RoomEverywhere(b: BlockState, pages: nat, units: nat, i: nat)
    requires WellFormed(b, pages, units) && !Full(b, pages) && i < units
    ensures b.next[i] < pages
  {
  }

  lemma {:induction false} MaxBelow(s: seq<nat>, m: nat)
    requires forall i | 0 <= i < |s| :: s[i] <= m
    ensures MaxOf(s) <= m
  {
  }

  // ---------- the class ----------

  class Block {
    const idx: nat
    const pageCount: nat
    const ioUnitInPage: nat
    var pNextWritePageIndex: seq<nat>
    var validBits: seq<seq<bool>>
    var erasedBits: seq<seq<bool>>
    var ppLPNs: seq<seq<nat>>
    var eraseCount: nat

    ghost function State(): BlockState
      reads this
    {
      BlockState(idx, validBits, erasedBits, ppLPNs, pNextWritePageIndex, eraseCount)
    }

    ghost predicate Valid()
      reads this
    {
      WellFormed(State(), pageCount, ioUnitInPage)
    }

    constructor (blockIdx: nat, count: nat, ioUnit: nat)
      ensures Valid() && Fresh(State(), count, ioUnit) && State().eraseCount == 0
      ensures idx == blockIdx && pageCount == count && ioUnitInPage == ioUnit
    {
      idx, pageCount, ioUnitInPage := blockIdx, count, ioUnit;
      validBits := Fill(count, ioUnit, false);
      erasedBits := Fill(count, ioUnit, true);
      ppLPNs := Fill(count, ioUnit, 0);
      pNextWritePageIndex := seq(ioUnit, _ => 0);
      eraseCount := 0;
    }

    // Panics when the unit is not erased, or lies before the write pointer.
    method Write(pageIndex: nat, lpn: nat, i: nat) returns (ok: bool)
      requires Valid() && pageIndex < pageCount && i < ioUnitInPage
      modifies this
      ensures ok == CanWrite(old(State()), pageIndex, i)
      ensures State() == if ok then Written(old(State()), pageIndex, lpn, i) else old(State())
    {
      ok := erasedBits[pageIndex][i];
      if ok {
        if pageIndex < pNextWritePageIndex[i] {
          return false;
        }
        erasedBits := Set(erasedBits, pageIndex, i, false);
        validBits := Set(validBits, pageIndex, i, true);
        ppLPNs := Set(ppLPNs, pageIndex, i, lpn);
        pNextWritePageIndex := pNextWritePageIndex[i := pageIndex + 1];
      }
    }

    method Invalidate(pageIndex: nat, i: nat)
      requires Valid() && pageIndex < pageCount && i < ioUnitInPage
      modifies this
      ensures Valid() && State() == Invalidated(old(State()), pageIndex, i)
    {
      validBits := Set(validBits, pageIndex, i, false);
    }

    method Erase()
      requires Valid()
      modifies this
      ensures Valid() && State() == Erased(old(State()), pageCount, ioUnitInPage)
    {
      validBits := Fill(pageCount, ioUnitInPage, false);
      erasedBits := Fill(pageCount, ioUnitInPage, true);
      pNextWritePageIndex := seq(ioUnitInPage, _ => 0);
      eraseCount := eraseCount + 1;
    }

    // The largest per-unit write pointer.
    method GetNextWritePageIndex() returns (r: nat)
      ensures r == MaxOf(pNextWritePageIndex)
    {
      r := 0;
      for i := 0 to |pNextWritePageIndex|
        invariant r == MaxOf(pNextWritePageIndex[..i])
      {
        assert pNextWritePageIndex[..i + 1][..i] == pNextWritePageIndex[..i];
        if r < pNextWritePageIndex[i] {
          r := pNextWritePageIndex[i];
        }
      }
      assert pNextWritePageIndex[..|pNextWritePageIndex|] == pNextWritePageIndex;
    }

    // The number of valid units, page by page.
    method GetValidPageCountRaw() returns (ret: nat)
      requires Valid()
      ensures ret == |ValidUnits(State())|
    {
      ret := 0;
      for p := 0 to pageCount
        invariant ret == |ValidBefore(validBits, p, 0)|
      {
        for i := 0 to ioUnitInPage
          invariant ret == |ValidBefore(validBits, p, i)|
        {
          NextUnit(validBits, p, i);
          if validBits[p][i] {
            ret := ret + 1;
          }
        }
        assert ValidBefore(validBits, p, ioUnitInPage) == ValidBefore(validBits, p + 1, 0);
      }
      assert ValidBefore(validBits, pageCount, 0) == ValidUnits(State());
    }

    // The number of pages with a valid unit.
    method GetValidPageCount() returns (ret: nat)
      requires Valid()
      ensures ret == |ValidPages(State().valid, pageCount)|
    {
      ret := 0;
      for p := 0 to pageCount
        invariant ret == |ValidPages(validBits, p)|
      {
        NextPage(validBits, p);
        if exists i :: 0 <= i < ioUnitInPage && validBits[p][i] {
          ret := ret + 1;
        }
      }
    }
  }

  ghost predicate AnyValid(row: seq<bool>) { exists i :: 0 <= i < |row| && row[i] }

  // The pages before n with a valid unit.
  ghost function ValidPages(t: seq<seq<bool>>, n: nat): set<nat> {
    set p | 0 <= p < n && p < |t| && AnyValid(t[p])
  }

  lemma {:induction false} NextPage(t: seq<seq<bool>>, p: nat)
    requires p < |t|
    ensures |ValidPages(t, p + 1)| == |ValidPages(t, p)| + if AnyValid(t[p]) then 1 else 0
  {
    if AnyValid(t[p]) {
      assert ValidPages(t, p + 1) == ValidPages(t, p) + {p};
    } else {
      assert ValidPages(t, p + 1) == ValidPages(t, p);
    }
  }

  // A block has no valid unit exactly if it has no page with one.
  lemma {:induction false} NoValidPages(b: BlockState)
    ensures ValidPages(b.valid, |b.valid|) == {} <==> NothingValid(b)
  {
    if NothingValid(b) {
      forall p, i | 0 <= p < |b.valid| && 0 <= i < |b.valid[p]| ensures !b.valid[p][i] {
        assert (p, i) !in ValidUnits(b);
      }
    }
    if ValidPages(b.valid, |b.valid|) == {} {
      forall p, i | 0 <= p < |b.valid| && 0 <= i < |b.valid[p]| ensures !b.valid[p][i] {
        assert p !in ValidPages(b.valid, |b.valid|);
      }
    }
  }

  // Valid units in the pages before p, and in page p before position i.
  ghost function ValidBefore(t: seq<seq<bool>>, p: nat, i: nat): set<(nat, nat)> {
    set q, j | 0 <= q < |t| && 0 <= j < |t[q]| && t[q][j] && (q < p || (q == p && j < i)) :: (q, j)
  }

  lemma {:induction false} NextUnit(t: seq<seq<bool>>, p: nat, i: nat)
    requires p < |t| && i < |t[p]|
    ensures |ValidBefore(t, p, i + 1)| == |ValidBefore(t, p, i)| + if t[p][i] then 1 else 0
  {
    var unit := if t[p][i] then {(p, i)} else {};
    forall u: (nat, nat)
      ensures u in ValidBefore(t, p, i + 1) <==> u in ValidBefore(t, p, i) || u in unit
    {
    }
    assert ValidBefore(t, p, i + 1) == ValidBefore(t, p, i) + unit;
  }
}
