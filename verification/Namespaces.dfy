// The namespaces of the NVMe subsystem: each takes the first free range of logical pages that is
// long enough, and the smallest free namespace ID.
module Namespaces {
  import Arithmetic

  const NSID_LOWEST := 1
  const NSID_ALL := 0xFFFF_FFFF
  const WORD: nat := 0x1_0000_0000_0000_0000

  datatype LPNRange = LPNRange(slpn: nat, nlp: nat)

  function End(r: LPNRange): nat { r.slpn + r.nlp }

  predicate Apart(a: LPNRange, b: LPNRange) { End(a) <= b.slpn || End(b) <= a.slpn }

  datatype Namespace = Namespace(nsid: nat, size: nat, lbaSize: nat, range: LPNRange)

  // Ranges in ascending order, none overlapping.
  ghost predicate InOrder(s: seq<LPNRange>, total: nat) {
    && (forall i, j | 0 <= i < j < |s| :: End(s[i]) <= s[j].slpn)
    && (forall i | 0 <= i < |s| :: s[i].nlp > 0 && End(s[i]) <= total)
  }

  ghost predicate PairwiseApart(s: seq<LPNRange>, total: nat) {
    && (forall i, j | 0 <= i < j < |s| :: Apart(s[i], s[j]))
    && (forall i | 0 <= i < |s| :: s[i].nlp > 0 && End(s[i]) <= total)
  }

  // Sorting by start.
  function Insert(s: seq<LPNRange>, r: LPNRange): seq<LPNRange> {
    if |s| == 0 || s[|s| - 1].slpn <= r.slpn then s + [r]
    else Insert(s[..|s| - 1], r) + [s[|s| - 1]]
  }

  function Sorted(s: seq<LPNRange>): seq<LPNRange> {
    if |s| == 0 then [] else Insert(Sorted(s[..|s| - 1]), s[|s| - 1])
  }

  lemma {:induction false} AppendInOrder(s: seq<LPNRange>, r: LPNRange, total: nat)
    requires InOrder(s, total) && r.nlp > 0 && End(r) <= total && forall x | x in s :: End(x) <= r.slpn
    ensures InOrder(s + [r], total)
  {
    forall i | 0 <= i < |s| ensures End(s[i]) <= r.slpn {
      assert s[i] in s;
    }
  }

  lemma {:induction false} InitInOrder(s: seq<LPNRange>, total: nat)
    requires InOrder(s, total) && |s| > 0
    ensures var n := |s| - 1;
      && InOrder(s[..n], total) && (forall x | x in s[..n] :: End(x) <= s[n].slpn) && s[n].nlp > 0 && End(s[n]) <= total
      && (forall x :: x in s <==> x in s[..n] || x == s[n])
  {
    var n := |s| - 1;
    assert s == s[..n] + [s[n]];
    forall x | x in s[..n] ensures End(x) <= s[n].slpn {
      var i :| 0 <= i < n && s[..n][i] == x;
      assert s[i] == x;
    }
  }

  lemma {:induction false} InsertKeeps(s: seq<LPNRange>, r: LPNRange, total: nat)
    requires InOrder(s, total) && r.nlp > 0 && End(r) <= total && forall x | x in s :: Apart(x, r)
    ensures InOrder(Insert(s, r), total) && forall x :: x in Insert(s, r) <==> x in s || x == r
  {
    hide InOrder;
    if |s| == 0 {
      AppendInOrder(s, r, total);
    } else {
      var n := |s| - 1;
      InitInOrder(s, total);
      if s[n].slpn <= r.slpn {
        assert Apart(s[n], r);
        AppendInOrder(s, r, total);
      } else {
        InsertKeeps(s[..n], r, total);
        assert Apart(s[n], r);
        AppendInOrder(Insert(s[..n], r), s[n], total);
      }
    }
  }

  lemma {:induction false} SortedInOrder(s: seq<LPNRange>, total: nat)
    requires PairwiseApart(s, total)
    ensures InOrder(Sorted(s), total) && forall x :: x in Sorted(s) <==> x in s
  {
    if |s| > 0 {
      var n := |s| - 1;
      SortedInOrder(s[..n], total);
      var t := Sorted(s[..n]);
      forall x | x in t ensures Apart(x, s[n]) {
        assert x in s[..n];
        var k :| 0 <= k < n && s[k] == x;
      }
      InsertKeeps(t, s[n], total);
      assert s == s[..n] + [s[n]];
    }
  }

  // The gaps before, between and after the first k ranges.
  function Gap(s: seq<LPNRange>, k: nat, total: nat): (g: LPNRange)
    requires k <= |s| && total >= (if k < |s| then s[k].slpn else 0)
  {
    var start := if k == 0 then 0 else End(s[k - 1]);
    var end := if k < |s| then s[k].slpn else total;
    LPNRange(start, if end >= start then end - start else 0)
  }

  ghost predicate Free(s: seq<LPNRange>, r: LPNRange, total: nat) {
    End(r) <= total && forall x | x in s :: Apart(x, r)
  }

  // A gap is free.
  lemma {:induction false} GapIsFree(s: seq<LPNRange>, k: nat, total: nat)
    requires InOrder(s, total) && k <= |s| && Gap(s, k, total).nlp > 0
    ensures Free(s, Gap(s, k, total), total)
  {
    forall x | x in s ensures Apart(x, Gap(s, k, total)) {
      var i :| 0 <= i < |s| && s[i] == x;
      assert i < k - 1 ==> End(s[i]) <= s[k - 1].slpn;
    }
  }

  // Every free range lies in a gap.
  lemma {:induction false} FreeInGap(s: seq<LPNRange>, r: LPNRange, total: nat) returns (k: nat)
    requires InOrder(s, total) && Free(s, r, total) && r.nlp > 0
    ensures k <= |s| && Gap(s, k, total).slpn <= r.slpn && End(r) <= End(Gap(s, k, total))
  {
    k := 0;
    while k < |s| && End(s[k]) <= r.slpn
      invariant k <= |s| && (k > 0 ==> End(s[k - 1]) <= r.slpn)
    {
      k := k + 1;
    }
    if k < |s| {
      assert s[k] in s;
      assert Apart(s[k], r);
    }
  }

  // Later gaps start later.
  lemma {:induction false} GapsAscend(s: seq<LPNRange>, j: nat, k: nat, total: nat)
    requires InOrder(s, total) && j <= k <= |s|
    ensures Gap(s, j, total).slpn <= Gap(s, k, total).slpn
  {
    if 0 < j < k {
      assert End(s[j - 1]) <= s[k - 1].slpn;
    }
  }

  function RangesOf(ns: seq<Namespace>): (r: seq<LPNRange>)
    ensures |r| == |ns| && forall i | 0 <= i < |r| :: r[i] == ns[i].range
  {
    seq(|ns|, i requires 0 <= i < |ns| => ns[i].range)
  }

  // The namespaces in order of their IDs, which are distinct, with non-empty ranges inside the device
  // that do not overlap.
  ghost predicate Allocated(ns: seq<Namespace>, total: nat) {
    && (forall i, j | 0 <= i < j < |ns| :: ns[i].nsid < ns[j].nsid && Apart(ns[i].range, ns[j].range))
    && forall x | x in ns :: NSID_LOWEST <= x.nsid < NSID_ALL && x.range.nlp > 0 && End(x.range) <= total
  }

  lemma {:induction false} RangesApart(ns: seq<Namespace>, total: nat)
    requires Allocated(ns, total)
    ensures PairwiseApart(RangesOf(ns), total)
  {
    forall i | 0 <= i < |ns| ensures ns[i].range.nlp > 0 && End(ns[i].range) <= total {
      assert ns[i] in ns;
    }
  }

  // Whether an ID is taken.
  ghost predicate HasId(ns: seq<Namespace>, nsid: nat) {
    exists x :: x in ns && x.nsid == nsid
  }

  function InsertById(ns: seq<Namespace>, n: Namespace): seq<Namespace> {
    if |ns| == 0 || ns[|ns| - 1].nsid <= n.nsid then ns + [n]
    else InsertById(ns[..|ns| - 1], n) + [ns[|ns| - 1]]
  }

  lemma {:induction false} AppendAllocated(ns: seq<Namespace>, n: Namespace, total: nat)
    requires Allocated(ns, total) && NSID_LOWEST <= n.nsid < NSID_ALL && n.range.nlp > 0 && End(n.range) <= total
    requires forall x | x in ns :: x.nsid < n.nsid && Apart(x.range, n.range)
    ensures Allocated(ns + [n], total)
  {
    forall i | 0 <= i < |ns| ensures ns[i].nsid < n.nsid && Apart(ns[i].range, n.range) {
      assert ns[i] in ns;
    }
  }

  // Sorting the list with a new namespace at its end.
  lemma {:induction false} InsertByIdKeeps(ns: seq<Namespace>, n: Namespace, total: nat)
    requires Allocated(ns, total) && NSID_LOWEST <= n.nsid < NSID_ALL && n.range.nlp > 0 && End(n.range) <= total
    requires forall x | x in ns :: x.nsid != n.nsid && Apart(x.range, n.range)
    ensures Allocated(InsertById(ns, n), total) && forall x :: x in InsertById(ns, n) <==> x in ns || x == n
  {
    var k := |ns| - 1;
    if |ns| == 0 || ns[k].nsid <= n.nsid {
      forall x | x in ns ensures x.nsid < n.nsid {
        var i :| 0 <= i < |ns| && ns[i] == x;
        assert i < k ==> ns[i].nsid < ns[k].nsid;
        assert ns[k] in ns;
      }
      AppendAllocated(ns, n, total);
    } else {
      var init := ns[..k];
      assert ns == init + [ns[k]];
      InsertByIdKeeps(init, n, total);
      forall x | x in InsertById(init, n) ensures x.nsid < ns[k].nsid && Apart(x.range, ns[k].range) {
        if x in init {
          var i :| 0 <= i < k && init[i] == x;
          assert ns[i] == x;
        } else {
          assert ns[k] in ns;
        }
      }
      AppendAllocated(InsertById(init, n), ns[k], total);
    }
  }

  // Whether the range of n pages fits somewhere.
  ghost predicate Fits(ns: seq<Namespace>, n: nat, total: nat) {
    exists slpn: nat :: Free(RangesOf(ns), LPNRange(slpn, n), total)
  }

  // The lowest free range of its length.
  ghost predicate FirstFit(ns: seq<Namespace>, r: LPNRange, total: nat) {
    && Free(RangesOf(ns), r, total)
    && forall slpn: nat {:trigger LPNRange(slpn, r.nlp)} | Free(RangesOf(ns), LPNRange(slpn, r.nlp), total) ::
      r.slpn <= slpn
  }

  // The first gap that is long enough gives the lowest free range; without one there is none.
  lemma {:induction false} GapFits(ns: seq<Namespace>, s: seq<LPNRange>, k: nat, n: nat, total: nat)
    requires InOrder(s, total) && (forall x :: x in s <==> x in RangesOf(ns)) && n > 0 && k <= |s| + 1
    requires forall j: nat | j < k :: Gap(s, j, total).nlp < n
    ensures k <= |s| && Gap(s, k, total).nlp >= n ==> FirstFit(ns, LPNRange(Gap(s, k, total).slpn, n), total)
    ensures k == |s| + 1 ==> !Fits(ns, n, total)
  {
    if k <= |s| && Gap(s, k, total).nlp >= n {
      GapIsFree(s, k, total);
    }
    forall slpn: nat | Free(RangesOf(ns), LPNRange(slpn, n), total)
      ensures k <= |s| && Gap(s, k, total).slpn <= slpn
    {
      var j := FreeInGap(s, LPNRange(slpn, n), total);
      assert Gap(s, j, total).nlp >= n;
      GapsAscend(s, k, j, total);
    }
  }

  // A namespace with a new ID joins at its first fit.
  lemma {:induction false} JoiningKeeps(ns: seq<Namespace>, n: Namespace, total: nat)
    requires Allocated(ns, total) && NSID_LOWEST <= n.nsid < NSID_ALL && !HasId(ns, n.nsid)
    requires n.range.nlp > 0 && FirstFit(ns, n.range, total)
    ensures Allocated(InsertById(ns, n), total)
  {
    forall x | x in ns ensures x.nsid != n.nsid && Apart(x.range, n.range) {
      var i :| 0 <= i < |ns| && ns[i] == x;
      assert RangesOf(ns)[i] == x.range;
    }
    InsertByIdKeeps(ns, n, total);
  }

  class Subsystem {
    const totalLogicalPages: nat
    const logicalPageSize: nat
    var lNamespaces: seq<Namespace>
    // A 64-bit counter that creation and destruction update with different roundings.
    var allocatedLogicalPages: nat

    ghost predicate Valid()
      reads this
    {
      1 <= logicalPageSize && Allocated(lNamespaces, totalLogicalPages)
    }

    constructor (totalLogicalPages: nat, logicalPageSize: nat)
      requires 1 <= logicalPageSize
      ensures Valid() && lNamespaces == []
      ensures this.totalLogicalPages == totalLogicalPages && this.logicalPageSize == logicalPageSize
    {
      this.totalLogicalPages, this.logicalPageSize := totalLogicalPages, logicalPageSize;
      lNamespaces, allocatedLogicalPages := [], 0;
    }

    // The pages asked for, and those counted as free, in 64 bits.
    function Requested(size: nat, lbaSize: nat): nat
      requires 1 <= logicalPageSize
    {
      size / logicalPageSize * lbaSize % WORD
    }

    // With those counted as allocated they add up to all, but for what does not fit in 64 bits.
    function FreeWith(counted: nat): (r: nat)
      ensures r < WORD && (r + counted - totalLogicalPages) % WORD == 0
      ensures counted <= totalLogicalPages < WORD ==> r == totalLogicalPages - counted
    {
      (totalLogicalPages + WORD - counted % WORD) % WORD
    }

    // The pages asked for are the LBA size once for each whole multiple q of the page size, but for what does
    // not fit in 64 bits.
    lemma {:induction false} RequestedWraps(size: nat, lbaSize: nat, q: nat)
      requires 1 <= logicalPageSize && q * logicalPageSize <= size < (q + 1) * logicalPageSize
      ensures Requested(size, lbaSize) < WORD && (q * lbaSize - Requested(size, lbaSize)) % WORD == 0
      ensures q * lbaSize < WORD ==> Requested(size, lbaSize) == q * lbaSize
    {
      Arithmetic.DivModOf(size, logicalPageSize, q, size - q * logicalPageSize);
    }

    function CountedFree(): nat
      reads this
    {
      FreeWith(allocatedLogicalPages)
    }

    ghost function Now(): Situation
      reads this
    {
      Situation(lNamespaces, allocatedLogicalPages)
    }

    // The counter less the pages of a namespace, in 64 bits.
    function CountedWithout(counted: nat, x: Namespace): (r: nat)
      requires 1 <= logicalPageSize
      ensures r < WORD && (r + x.size * x.lbaSize % WORD / logicalPageSize - counted) % WORD == 0
    {
      (counted % WORD + WORD - x.size * x.lbaSize % WORD / logicalPageSize) % WORD
    }

    // createNamespace with a fresh description, whose range is empty and is then filled in. It never comes
    // upon overlapping ranges, on which it would panic.
    method CreateNamespace(nsid: nat, size: nat, lbaSize: nat) returns (created: bool, range: LPNRange)
      requires Valid() && NSID_LOWEST <= nsid < NSID_ALL && !HasId(lNamespaces, nsid)
      modifies this
      ensures Valid()
      ensures var n := Requested(size, lbaSize);
        && created == (n <= old(CountedFree()) && n > 0 && Fits(old(lNamespaces), n, totalLogicalPages))
        && if created then
             range.nlp == n && FirstFit(old(lNamespaces), range, totalLogicalPages) &&
             lNamespaces == InsertById(old(lNamespaces), Namespace(nsid, size, lbaSize, range))
           else lNamespaces == old(lNamespaces)
      ensures allocatedLogicalPages ==
        if created then (old(allocatedLogicalPages) + Requested(size, lbaSize)) % WORD else old(allocatedLogicalPages)
    {
      hide Allocated, HasId, Fits, FirstFit, Free, Apart, InsertById;
      var requested := Requested(size, lbaSize);
      range := LPNRange(0, 0);
      if requested > CountedFree() {
        return false, range;
      }
      var ok;
      ok, range := FindRange(requested);
      assert ok;
      if range.nlp == 0 {
        return false, range;
      }
      allocatedLogicalPages := (allocatedLogicalPages + requested) % WORD;
      JoiningKeeps(lNamespaces, Namespace(nsid, size, lbaSize, range), totalLogicalPages);
      lNamespaces := InsertById(lNamespaces, Namespace(nsid, size, lbaSize, range));
      created := true;
    }

    // The first gap between the ranges of the namespaces that is long enough; ok is false for the panic.
    method FindRange(requested: nat) returns (ok: bool, range: LPNRange)
      requires Valid()
      ensures ok
      ensures range.nlp == 0 <==> requested == 0 || !Fits(lNamespaces, requested, totalLogicalPages)
      ensures range.nlp > 0 ==> range.nlp == requested && FirstFit(lNamespaces, range, totalLogicalPages)
    {
      var taken := Sorted(RangesOf(lNamespaces));
      RangesApart(lNamespaces, totalLogicalPages);
      SortedInOrder(RangesOf(lNamespaces), totalLogicalPages);
      var unallocated;
      ok, unallocated := Invert(taken);
      range := LPNRange(0, 0);
      if requested > 0 {
        GapFits(lNamespaces, taken, 0, requested, totalLogicalPages);
      }
      var i := 0;
      while i < |unallocated| && unallocated[i].nlp < requested
        invariant i <= |unallocated|
        invariant forall j: nat | j < i :: Gap(taken, j, totalLogicalPages).nlp < requested
      {
        i := i + 1;
      }
      if requested > 0 {
        GapFits(lNamespaces, taken, i, requested, totalLogicalPages);
      }
      if i < |unallocated| {
        range := unallocated[i].(nlp := requested);
      }
    }

    // The gaps between the ranges; ok is false for the panic on overlapping ranges.
    method Invert(taken: seq<LPNRange>) returns (ok: bool, unallocated: seq<LPNRange>)
      requires InOrder(taken, totalLogicalPages)
      ensures ok && |unallocated| == |taken| + 1
      ensures forall k: nat | k <= |taken| :: unallocated[k] == Gap(taken, k, totalLogicalPages)
    {
      ok, unallocated := true, [LPNRange(0, totalLogicalPages)];
      for i := 0 to |taken|
        invariant ok && |unallocated| == i + 1
        invariant forall k: nat | k < i :: unallocated[k] == Gap(taken, k, totalLogicalPages)
        invariant var start := if i == 0 then 0 else End(taken[i - 1]);
          start <= totalLogicalPages && unallocated[i] == LPNRange(start, totalLogicalPages - start)
      {
        var iter, last := taken[i], unallocated[i];
        assert i > 0 ==> End(taken[i - 1]) <= iter.slpn;
        if last.slpn <= iter.slpn && End(last) >= End(iter) {
          unallocated := unallocated[i := last.(nlp := iter.slpn - last.slpn)] +
            [LPNRange(End(iter), End(last) - End(iter))];
        } else {
          ok := false;
        }
      }
    }

    // destroyNamespace
    method DestroyNamespace(nsid: nat) returns (found: bool)
      requires Valid()
      modifies this
      ensures Valid() && found == HasId(old(lNamespaces), nsid)
      ensures forall x :: x in lNamespaces <==> x in old(lNamespaces) && x.nsid != nsid
      ensures if found then
          exists x :: x in old(lNamespaces) && x.nsid == nsid
            && allocatedLogicalPages == CountedWithout(old(allocatedLogicalPages), x)
        else allocatedLogicalPages == old(allocatedLogicalPages)
    {
      var i := 0;
      while i < |lNamespaces| && lNamespaces[i].nsid != nsid
        invariant i <= |lNamespaces| && forall j | 0 <= j < i :: lNamespaces[j].nsid != nsid
      {
        i := i + 1;
      }
      found := i < |lNamespaces|;
      if found {
        var info := lNamespaces[i];
        ghost var before := lNamespaces;
        allocatedLogicalPages := CountedWithout(allocatedLogicalPages, info);
        Without(lNamespaces, i, totalLogicalPages);
        lNamespaces := lNamespaces[..i] + lNamespaces[i + 1..];
      }
    }

    // The ID of a new namespace.
    method NewId() returns (nsid: nat)
      requires Valid()
      ensures NSID_LOWEST <= nsid <= NSID_ALL && !HasId(lNamespaces, nsid)
      ensures forall id | NSID_LOWEST <= id < nsid :: HasId(lNamespaces, id)
    {
      nsid := NSID_LOWEST;
      var i := 0;
      while i < |lNamespaces| && lNamespaces[i].nsid == nsid
        invariant i <= |lNamespaces| && nsid == NSID_LOWEST + i
        invariant forall j | 0 <= j < i :: lNamespaces[j].nsid == NSID_LOWEST + j
      {
        nsid := nsid + 1;
        i := i + 1;
      }
      assert i > 0 ==> lNamespaces[i - 1] in lNamespaces;
      forall id | NSID_LOWEST <= id < nsid ensures HasId(lNamespaces, id) {
        assert lNamespaces[id - NSID_LOWEST] in lNamespaces;
      }
      forall x | x in lNamespaces ensures x.nsid != nsid {
        var k :| 0 <= k < |lNamespaces| && lNamespaces[k] == x;
        assert k > i ==> lNamespaces[i].nsid < lNamespaces[k].nsid;
        assert 0 < i <= k ==> lNamespaces[i - 1].nsid < lNamespaces[i].nsid;
        assert i < |lNamespaces| ==> lNamespaces[i] in lNamespaces;
      }
    }
  }

  // A namespace is taken off the list.
  lemma {:induction false} Without(ns: seq<Namespace>, i: nat, total: nat)
    requires Allocated(ns, total) && i < |ns|
    ensures Allocated(ns[..i] + ns[i + 1..], total)
    ensures forall x :: x in ns[..i] + ns[i + 1..] <==> x in ns && x.nsid != ns[i].nsid
  {
    hide Apart;
    var t := ns[..i] + ns[i + 1..];
    OthersStay(ns, i);
    AroundId(ns, i, total);
    forall j, k | 0 <= j < k < |t| ensures t[j].nsid < t[k].nsid && Apart(t[j].range, t[k].range) {
      Shifted(ns, i, j);
      Shifted(ns, i, k);
    }
  }

  lemma {:induction false} Shifted(ns: seq<Namespace>, i: nat, j: nat)
    requires i < |ns| && j < |ns| - 1
    ensures (ns[..i] + ns[i + 1..])[j] == ns[if j < i then j else j + 1]
  {
  }

  lemma {:induction false} OthersStay(ns: seq<Namespace>, i: nat)
    requires i < |ns|
    ensures forall x :: x in ns <==> x in ns[..i] + ns[i + 1..] || x == ns[i]
  {
    assert ns == ns[..i] + [ns[i]] + ns[i + 1..];
  }

  lemma {:induction false} AroundId(ns: seq<Namespace>, i: nat, total: nat)
    requires Allocated(ns, total) && i < |ns|
    ensures forall x | x in ns[..i] + ns[i + 1..] :: x.nsid != ns[i].nsid
  {
    hide Apart;
    var t := ns[..i] + ns[i + 1..];
    forall x | x in t ensures x.nsid != ns[i].nsid {
      var j :| 0 <= j < |t| && t[j] == x;
      Shifted(ns, i, j);
      assert j < i ==> ns[j].nsid < ns[i].nsid;
    }
  }

  // The commands of namespaceManagement, and what becomes of one. There is no ID left for a creation, or the
  // pages asked for cannot be had.
  datatype Command = Create(size: nat, lbaSize: nat) | Delete(nsid: nat)

  datatype Outcome = Created(nsid: nat, range: LPNRange) | NoId | Refused | Deleted | NotFound

  // The namespaces and the page counter.
  datatype Situation = Situation(namespaces: seq<Namespace>, counted: nat)

  // The smallest ID that is not taken.
  ghost predicate SmallestFree(ns: seq<Namespace>, nsid: nat) {
    NSID_LOWEST <= nsid && !HasId(ns, nsid) && forall id | NSID_LOWEST <= id < nsid :: HasId(ns, id)
  }

  // A command is executed in s, with the outcome, and leads to t.
  ghost predicate Executed(u: Subsystem, s: Situation, command: Command, outcome: Outcome, t: Situation)
    requires 1 <= u.logicalPageSize
  {
    && Allocated(t.namespaces, u.totalLogicalPages)
    && match command
       case Create(size, lbaSize) => CreatedAs(u, s, size, lbaSize, outcome, t)
       case Delete(nsid) => DeletedAs(u, s, nsid, outcome, t)
  }

  ghost predicate CreatedAs(u: Subsystem, s: Situation, size: nat, lbaSize: nat, outcome: Outcome, t: Situation)
    requires 1 <= u.logicalPageSize
  {
    var n := u.Requested(size, lbaSize);
    var fits := n <= u.FreeWith(s.counted) && n > 0 && Fits(s.namespaces, n, u.totalLogicalPages);
    match outcome
    case NoId => SmallestFree(s.namespaces, NSID_ALL) && t == s
    case Refused => !SmallestFree(s.namespaces, NSID_ALL) && !fits && t == s
    case Created(nsid, range) =>
      && fits && SmallestFree(s.namespaces, nsid) && nsid < NSID_ALL
      && range.nlp == n && FirstFit(s.namespaces, range, u.totalLogicalPages)
      && t == Situation(InsertById(s.namespaces, Namespace(nsid, size, lbaSize, range)), (s.counted + n) % WORD)
    case _ => false
  }

  ghost predicate DeletedAs(u: Subsystem, s: Situation, nsid: nat, outcome: Outcome, t: Situation)
    requires 1 <= u.logicalPageSize
  {
    && outcome == (if HasId(s.namespaces, nsid) then Deleted else NotFound)
    && (forall x :: x in t.namespaces <==> x in s.namespaces && x.nsid != nsid)
    && if HasId(s.namespaces, nsid) then
         exists x :: x in s.namespaces && x.nsid == nsid && t.counted == u.CountedWithout(s.counted, x)
       else t.counted == s.counted
  }

  // Any run of creations and deletions, each executed as a whole. A creation gets the smallest free ID and
  // the first fit for its pages, and fails exactly without an ID or a fit.
  method Run(subsystem: Subsystem, commands: seq<Command>)
    returns (outcomes: seq<Outcome>, ghost trace: seq<Situation>)
    requires subsystem.Valid()
    modifies subsystem
    ensures subsystem.Valid() && |outcomes| == |commands| && |trace| == |commands| + 1
    ensures trace[0] == old(subsystem.Now()) && trace[|commands|] == subsystem.Now()
    ensures forall k | 0 <= k < |commands| :: Executed(subsystem, trace[k], commands[k], outcomes[k], trace[k + 1])
  {
    hide Executed, Allocated;
    outcomes, trace := [], [subsystem.Now()];
    for i := 0 to |commands|
      invariant subsystem.Valid() && |outcomes| == i && |trace| == i + 1
      invariant trace[0] == old(subsystem.Now()) && trace[i] == subsystem.Now()
      invariant forall k | 0 <= k < i :: Executed(subsystem, trace[k], commands[k], outcomes[k], trace[k + 1])
    {
      var outcome := Execute(subsystem, commands[i]);
      outcomes, trace := outcomes + [outcome], trace + [subsystem.Now()];
    }
  }

  method Execute(subsystem: Subsystem, command: Command) returns (outcome: Outcome)
    requires subsystem.Valid()
    modifies subsystem
    ensures subsystem.Valid() && Executed(subsystem, old(subsystem.Now()), command, outcome, subsystem.Now())
  {
    hide Allocated, HasId, Fits, FirstFit, InsertById;
    match command
    case Create(size, lbaSize) =>
      var nsid := subsystem.NewId();
      assert SmallestFree(subsystem.lNamespaces, nsid);
      SmallestIsUnique(subsystem.lNamespaces, nsid, NSID_ALL);
      if nsid == NSID_ALL {
        return NoId;
      }
      var created, range := subsystem.CreateNamespace(nsid, size, lbaSize);
      outcome := if created then Created(nsid, range) else Refused;
    case Delete(nsid) =>
      var found := subsystem.DestroyNamespace(nsid);
      outcome := if found then Deleted else NotFound;
  }

  lemma {:induction false} SmallestIsUnique(ns: seq<Namespace>, a: nat, b: nat)
    requires SmallestFree(ns, a)
    ensures SmallestFree(ns, b) ==> a == b
  {
  }
}
