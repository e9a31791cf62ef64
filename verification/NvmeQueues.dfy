// The NVMe completion and submission rings: entry n lands in slot n modulo the size, and the phase tag
// of a completion entry tells the host whether it is new.
module NvmeQueues {
  import Arithmetic

  type Pos = Arithmetic.Pos

  datatype CQEntry = CQEntry(command: nat, phase: bool)

  // Entries are tagged true on the first pass through the ring, false on the second, and so on.
  function PhaseOf(n: nat, size: Pos): bool { n / size % 2 == 0 }

  // The slots after the first entries of the log were written: the last `size` ones are in place, and
  // a slot never written has phase tag false.
  ghost predicate Ring(slots: seq<CQEntry>, log: seq<nat>, size: Pos) {
    && |slots| == size
    && (forall n: nat | n < |log| <= n + size :: slots[n % size] == CQEntry(log[n], PhaseOf(n, size)))
    && (forall s: nat | |log| <= s < size :: !slots[s].phase)
  }

  lemma {:induction false} SlotsDiffer(m: nat, n: nat, size: Pos)
    requires m < n < m + size
    ensures m % size != n % size
  {
    var q, r, d := m / size, m % size, n - m;
    assert m == q * size + r;
    if r + d < size {
      Arithmetic.DivModOf(n, size, q, r + d);
    } else {
      Arithmetic.NextMultiple(q, size);
      Arithmetic.DivModOf(n, size, q + 1, r + d - size);
    }
  }

  // One entry more: its index and phase.
  lemma {:induction false} NextSlot(n: nat, size: Pos)
    ensures (n + 1) % size == if n % size + 1 == size then 0 else n % size + 1
    ensures PhaseOf(n + 1, size) == if n % size + 1 == size then !PhaseOf(n, size) else PhaseOf(n, size)
  {
    var q, r := n / size, n % size;
    assert n == q * size + r;
    if r + 1 == size {
      Arithmetic.NextMultiple(q, size);
      Arithmetic.DivModOf(n + 1, size, q + 1, 0);
    } else {
      Arithmetic.DivModOf(n + 1, size, q, r + 1);
    }
  }

  // A pass later the slot is the same and the phase the other one.
  lemma {:induction false} PassLater(n: nat, size: Pos)
    ensures (n + size) % size == n % size && PhaseOf(n + size, size) == !PhaseOf(n, size)
  {
    var q, r := n / size, n % size;
    assert n == q * size + r;
    Arithmetic.NextMultiple(q, size);
    Arithmetic.DivModOf(n + size, size, q + 1, r);
  }

  lemma {:induction false} RingWrite(slots: seq<CQEntry>, log: seq<nat>, size: Pos, command: nat)
    requires Ring(slots, log, size)
    ensures var n := |log|; Ring(slots[n % size := CQEntry(command, PhaseOf(n, size))], log + [command], size)
  {
    var n := |log|;
    forall m: nat | m < n < m + size ensures m % size != n % size {
      SlotsDiffer(m, n, size);
    }
    if n < size {
      Arithmetic.DivModOf(n, size, 0, n);
    }
  }

  // A host that has taken h entries, of which the device may not know all, finds the next one exactly
  // if it was written: the slot then has the phase the host expects, and holds that entry.
  lemma {:induction false} HostSees(slots: seq<CQEntry>, log: seq<nat>, size: Pos, h: nat)
    requires Ring(slots, log, size) && h <= |log| < h + size
    ensures slots[h % size].phase == PhaseOf(h, size) <==> h < |log|
    ensures h < |log| ==> slots[h % size].command == log[h]
  {
    if h == |log| {
      if h < size {
        Arithmetic.DivModOf(h, size, 0, h);
      } else {
        PassLater(h - size, size);
      }
    }
  }

  // getItemCount: the distance from head to tail.
  function ItemCount(head: nat, tail: nat, size: nat): nat
    requires head <= size
  {
    if tail >= head then tail - head else size - head + tail
  }

  lemma {:induction false} ItemCountIs(consumed: nat, produced: nat, size: Pos)
    requires consumed <= produced < consumed + size
    ensures ItemCount(consumed % size, produced % size, size) == produced - consumed
  {
    var q, r, d := consumed / size, consumed % size, produced - consumed;
    assert consumed == q * size + r;
    if r + d < size {
      Arithmetic.DivModOf(produced, size, q, r + d);
    } else {
      Arithmetic.NextMultiple(q, size);
      Arithmetic.DivModOf(produced, size, q + 1, r + d - size);
    }
  }

  // Moving an index to a new place adds the distance.
  lemma {:induction false} IndexMoves(n: nat, place: nat, size: Pos)
    requires place < size
    ensures (n + ItemCount(n % size, place, size)) % size == place
  {
    var q, r := n / size, n % size;
    assert n == q * size + r;
    var m := n + ItemCount(r, place, size);
    if place >= r {
      Arithmetic.DivModOf(m, size, q, place);
    } else {
      Arithmetic.NextMultiple(q, size);
      Arithmetic.DivModOf(m, size, q + 1, place);
    }
  }

  class CQueue {
    const size: Pos
    const slots: array<CQEntry>
    var head: nat
    var tail: nat
    var phase: bool

    // All commands completed so far, and how many of them the host has acknowledged.
    ghost var log: seq<nat>
    ghost var consumed: nat

    ghost predicate Valid()
      reads this, slots
    {
      && Ring(slots[..], log, size)
      && consumed <= |log| < consumed + size
      && head == consumed % size && tail == |log| % size && phase == PhaseOf(|log|, size)
    }

    constructor (size: Pos)
      ensures Valid() && this.size == size && log == [] && consumed == 0 && fresh(slots)
    {
      this.size := size;
      slots := new CQEntry[size](_ => CQEntry(0, false));
      head, tail, phase := 0, 0, true;
      log, consumed := [], 0;
    }

    function GetItemCount(): (n: nat)
      requires Valid()
      reads this, slots
      ensures n == |log| - consumed < size
    {
      ItemCountIs(consumed, |log|, size);
      ItemCount(head, tail, size)
    }

    // setData: the entry is tagged and written. It panics exactly on the entry that fills the ring.
    method SetData(command: nat) returns (ok: bool)
      requires Valid()
      modifies this, slots
      ensures ok == (old(|log| - consumed) + 1 < size)
      ensures log == old(log) + [command] && consumed == old(consumed)
      ensures slots[..] == old(slots[..])[old(tail) := CQEntry(command, old(phase))]
      ensures ok ==> Valid()
    {
      ghost var n := |log|;
      RingWrite(slots[..], log, size, command);
      NextSlot(n, size);
      if n + 1 < consumed + size {
        ItemCountIs(consumed, n + 1, size);
      } else {
        PassLater(consumed, size);
      }
      slots[tail] := CQEntry(command, phase);
      log := log + [command];
      tail := tail + 1;
      if tail == size {
        tail := 0;
        phase := !phase;
      }
      ok := head != tail;
    }

    // setHead with the host's new head: the host can only have taken entries that are there.
    method SetHead(newHead: nat)
      requires Valid() && newHead < size && ItemCount(head, newHead, size) <= |log| - consumed
      modifies this
      ensures Valid() && head == newHead && log == old(log)
      ensures consumed == old(consumed) + ItemCount(old(head), newHead, size)
    {
      IndexMoves(consumed, newHead, size);
      consumed := consumed + ItemCount(head, newHead, size);
      head := newHead;
    }

    // The host polls the slot after the entries it has taken.
    method Poll(h: nat) returns (command: nat, seen: bool)
      requires Valid() && consumed <= h <= |log|
      ensures seen <==> h < |log|
      ensures seen ==> command == log[h]
    {
      HostSees(slots[..], log, size, h);
      var entry := slots[h % size];
      seen := entry.phase == PhaseOf(h, size);
      command := entry.command;
    }
  }

  class SQueue {
    const size: Pos
    var head: nat
    var tail: nat

    // How many commands the host has submitted, and how many were fetched.
    ghost var submitted: nat
    ghost var fetched: nat

    ghost predicate Valid()
      reads this
    {
      && fetched <= submitted < fetched + size
      && head == fetched % size && tail == submitted % size
    }

    constructor (size: Pos)
      ensures Valid() && this.size == size && submitted == 0 && fetched == 0
    {
      this.size := size;
      head, tail := 0, 0;
      submitted, fetched := 0, 0;
    }

    function GetItemCount(): (n: nat)
      requires Valid()
      reads this
      ensures n == submitted - fetched < size
    {
      ItemCountIs(fetched, submitted, size);
      ItemCount(head, tail, size)
    }

    // setTail with the host's new tail: the host leaves the slots of commands not fetched yet.
    method SetTail(newTail: nat)
      requires Valid() && newTail < size && ItemCount(tail, newTail, size) + (submitted - fetched) < size
      modifies this
      ensures Valid() && tail == newTail && fetched == old(fetched)
      ensures submitted == old(submitted) + ItemCount(old(tail), newTail, size)
    {
      IndexMoves(submitted, newTail, size);
      submitted := submitted + ItemCount(tail, newTail, size);
      tail := newTail;
    }

    // getData: the oldest command is fetched, from its slot, if there is one.
    method GetData() returns (found: bool, slot: nat)
      requires Valid()
      modifies this
      ensures Valid() && submitted == old(submitted) && tail == old(tail)
      ensures found == (old(fetched) < submitted) && fetched == old(fetched) + if found then 1 else 0
      ensures found ==> slot == old(fetched) % size
    {
      ItemCountIs(fetched, submitted, size);
      found, slot := false, 0;
      if head != tail {
        NextSlot(fetched, size);
        found, slot := true, head;
        fetched := fetched + 1;
        head := head + 1;
        if head == size {
          head := 0;
        }
      }
    }
  }
}
