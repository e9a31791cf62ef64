// The packed logical block address of an Open-Channel SSD: group, parallel unit, chunk and logical
// block, each in as many bits as its count needs. Words are numbers; the bit operations are defined
// bit by bit.
module LbaFormat {
  import Arithmetic

  type Pos = Arithmetic.Pos

  const WORD32: Pos := 0x1_0000_0000
  const WORD64: Pos := 0x1_0000_0000_0000_0000

  function Pow2(n: nat): Pos {
    if n == 0 then 1 else 2 * Pow2(n - 1)
  }

  function And(x: nat, y: nat): nat {
    if x == 0 || y == 0 then 0 else (x % 2) * (y % 2) + 2 * And(x / 2, y / 2)
  }

  function Or(x: nat, y: nat): nat
    decreases x + y
  {
    if x == 0 then y else if y == 0 then x
    else (if x % 2 == 1 || y % 2 == 1 then 1 else 0) + 2 * Or(x / 2, y / 2)
  }

  // The position of the highest set bit counted from one, 64 minus the leading zeros of a 64-bit word.
  function BitLength(v: nat): nat {
    if v == 0 then 0 else 1 + BitLength(v / 2)
  }

  // The position of the lowest set bit counted from one.
  function FirstSet(v: Pos): nat {
    if v % 2 == 1 then 1 else 1 + FirstSet(v / 2)
  }

  // generateMask: a mask for values below val above the first count bits, and the bits used then.
  method GenerateMask(val: nat, count: nat) returns (mask: nat, newCount: nat)
    requires val < WORD32
    ensures newCount == count + Width(val)
    ensures mask == FieldMask(count, Width(val)) % WORD64
  {
    hide Pow2, FirstSet, BitLength, Width;
    WidthOfNone();
    var tmp := 0;
    if val > 0 {
      WordSizes();
      BitLengthBound(val, 32);
      var shift := 64 - BitLength(val);
      if shift + FirstSet(val) == 64 {
        shift := shift + 1;
      }
      tmp := 64 - shift;
      BitLengthsAgree(val);
    }
    mask := (Pow2(tmp) - 1) * Pow2(count) % WORD64;
    newCount := count + tmp;
  }

  // The least number of bits that can tell val values apart.
  function Width(val: nat): nat {
    if val <= 1 then 0 else 1 + Width((val + 1) / 2)
  }

  function FieldMask(shift: nat, width: nat): nat { (Pow2(width) - 1) * Pow2(shift) }

  lemma {:induction false} WidthIsLeast(val: nat)
    ensures val <= Pow2(Width(val))
    ensures forall w: nat :: val <= Pow2(w) ==> Width(val) <= w
  {
    if val > 1 {
      var half := (val + 1) / 2;
      WidthIsLeast(half);
      forall w: nat | val <= Pow2(w) ensures Width(val) <= w {
        assert w > 0 && half <= Pow2(w - 1);
      }
    }
  }

  lemma {:induction false} BitLengthBound(v: nat, n: nat)
    requires v < Pow2(n)
    ensures BitLength(v) <= n
  {
    if v > 0 {
      BitLengthBound(v / 2, n - 1);
    }
  }

  // What generateMask computes from the highest and lowest set bits.
  lemma {:induction false} BitLengthsAgree(v: Pos)
    ensures FirstSet(v) <= BitLength(v)
    ensures Width(v) == if FirstSet(v) == BitLength(v) then BitLength(v) - 1 else BitLength(v)
  {
    if v > 1 {
      BitLengthsAgree(v / 2);
      if v % 2 == 1 {
        WidthOfNext(v / 2);
        assert (v + 1) / 2 == v / 2 + 1;
      } else {
        assert (v + 1) / 2 == v / 2;
      }
    }
  }

  // One value more takes as many bits as all numbers up to it.
  lemma {:induction false} WidthOfNext(v: Pos)
    ensures Width(v + 1) == BitLength(v)
  {
    if v > 1 {
      WidthOfNext(v / 2);
      assert (v + 2) / 2 == v / 2 + 1;
    }
  }

  lemma {:induction false} WidthOfNone()
    ensures Width(0) == 0
  {
  }

  lemma {:induction false} Pow2Add(m: nat, n: nat)
    ensures Pow2(m + n) == Pow2(m) * Pow2(n)
  {
    if m > 0 {
      Pow2Add(m - 1, n);
      Arithmetic.MulAssoc(2, Pow2(m - 1), Pow2(n));
    }
  }

  // A mask of the lowest bits takes the remainder.
  lemma {:induction false} AndLow(x: nat, w: nat)
    ensures And(x, Pow2(w) - 1) == x % Pow2(w)
    decreases w
  {
    hide And, Pow2;
    if w == 0 {
      AndNothing(x);
    } else {
      Pow2Next(w - 1);
      AndOdd(x, Pow2(w - 1) - 1);
      AndLow(x / 2, w - 1);
      RemainderHalf(x, Pow2(w - 1));
    }
  }

  lemma {:induction false} AndNothing(x: nat)
    ensures And(x, 0) == 0 && Pow2(0) == 1
  {
  }

  lemma {:induction false} AndOdd(x: nat, h: nat)
    ensures And(x, 2 * h + 1) == x % 2 + 2 * And(x / 2, h)
  {
  }

  lemma {:induction false} RemainderHalf(x: nat, n: Pos)
    ensures x % (2 * n) == x % 2 + 2 * (x / 2 % n)
    ensures x / (2 * n) == x / 2 / n
  {
    Halves(x, n, 2 * n, x / 2 / n, x / 2 % n, x / 2 / n * n);
  }

  lemma {:induction false} Halves(x: nat, n: Pos, m: Pos, q: nat, r: nat, qn: nat)
    requires m == 2 * n && qn == q * n && x / 2 == qn + r && r < n
    ensures x % m == x % 2 + 2 * r && x / m == q
  {
    Arithmetic.DoubleBase(q, n);
    assert q * m == 2 * qn;
    Arithmetic.DivModOf(x, m, q, x % 2 + 2 * r);
  }

  // A field's mask takes the field.
  lemma {:induction false} AndField(x: nat, s: nat, w: nat)
    ensures And(x, FieldMask(s, w)) == x / Pow2(s) % Pow2(w) * Pow2(s)
    decreases s
  {
    if s == 0 {
      AndLow(x, w);
    } else {
      var y, h := FieldMask(s, w), FieldMask(s - 1, w);
      Arithmetic.MulSwap(Pow2(w) - 1, Pow2(s - 1), 2);
      assert y == 2 * h;
      AndField(x / 2, s - 1, w);
      AndEven(x, h);
      RemainderHalf(x, Pow2(s - 1));
      Arithmetic.MulSwap(x / Pow2(s) % Pow2(w), Pow2(s - 1), 2);
    }
  }

  lemma {:induction false} AndEven(x: nat, h: nat)
    ensures And(x, 2 * h) == 2 * And(x / 2, h)
  {
  }

  // Words without common bits are added.
  lemma {:induction false} OrDisjoint(x: nat, s: nat, y: nat)
    requires x < Pow2(s)
    ensures Or(x, y * Pow2(s)) == x + y * Pow2(s)
    decreases s
  {
    if s > 0 {
      var h := y * Pow2(s - 1);
      Arithmetic.MulSwap(y, Pow2(s - 1), 2);
      assert y * Pow2(s) == 2 * h;
      OrDisjoint(x / 2, s - 1, y);
      OrEven(x, h);
    }
  }

  lemma {:induction false} OrEven(x: nat, h: nat)
    ensures Or(x, 2 * h) == x % 2 + 2 * Or(x / 2, h)
  {
  }

  // How many groups, parallel units per group, chunks per parallel unit and blocks per chunk there are.
  datatype Structure = Structure(group: nat, parallelUnit: nat, chunk: nat, chunkSize: nat) {
    ghost predicate Valid() {
      && group < WORD32 && parallelUnit < WORD32 && chunk < WORD32 && chunkSize < WORD32
      && Width(chunkSize) + Width(chunk) + Width(parallelUnit) + Width(group) <= 64
    }

    ghost predicate Has(g: nat, p: nat, c: nat, l: nat) {
      g < group && p < parallelUnit && c < chunk && l < chunkSize
    }
  }

  datatype Mask = Mask(sectorMask: nat, blockMask: nat, blockShift: nat, wayMask: nat, wayShift: nat, channelMask: nat,
    channelShift: nat)

  // Successive fields, from the lowest bit on.
  ghost predicate Packed(s: Structure, m: Mask) {
    && m.blockShift == Width(s.chunkSize)
    && m.wayShift == m.blockShift + Width(s.chunk)
    && m.channelShift == m.wayShift + Width(s.parallelUnit)
    && m.sectorMask == FieldMask(0, Width(s.chunkSize))
    && m.blockMask == FieldMask(m.blockShift, Width(s.chunk))
    && m.wayMask == FieldMask(m.wayShift, Width(s.parallelUnit))
    && m.channelMask == FieldMask(m.channelShift, Width(s.group))
  }

  method InitMasks(s: Structure) returns (m: Mask)
    requires s.Valid()
    ensures Packed(s, m)
  {
    hide Pow2, Width, FieldMask;
    var lastidx: nat := 0;
    var sector, block, way, channel;
    sector, lastidx := GenerateMask(s.chunkSize, lastidx);
    var blockShift := lastidx;
    block, lastidx := GenerateMask(s.chunk, lastidx);
    var wayShift := lastidx;
    way, lastidx := GenerateMask(s.parallelUnit, lastidx);
    var channelShift := lastidx;
    channel, lastidx := GenerateMask(s.group, lastidx);
    MaskFits(0, Width(s.chunkSize));
    MaskFits(blockShift, Width(s.chunk));
    MaskFits(wayShift, Width(s.parallelUnit));
    MaskFits(channelShift, Width(s.group));
    m := Mask(sector, block, blockShift, way, wayShift, channel, channelShift);
  }

  lemma {:induction false} WordSizes()
    ensures Pow2(32) == WORD32 && Pow2(64) == WORD64
  {
    assert Pow2(16) == 0x1_0000 && Pow2(15) == 0x8000;
    Squares(16, 0x1_0000);
    Squares(32, WORD32);
  }

  lemma {:induction false} Squares(n: nat, x: nat)
    requires Pow2(n) == x
    ensures Pow2(2 * n) == x * x
  {
    Pow2Add(n, n);
  }

  lemma {:induction false} MaskFits(shift: nat, width: nat)
    requires shift + width <= 64
    ensures FieldMask(shift, width) % WORD64 == FieldMask(shift, width)
  {
    Pow2Add(width, shift);
    WordSizes();
    Pow2Monotone(shift + width, 64);
    Arithmetic.MulMonotone(Pow2(width) - 1, Pow2(width), Pow2(shift));
    Arithmetic.NextMultiple(Pow2(width) - 1, Pow2(shift));
    Small(FieldMask(shift, width), WORD64);
  }

  lemma {:induction false} Small(x: nat, n: Pos)
    requires x < n
    ensures x % n == x && x / n == 0
  {
  }

  lemma {:induction false} Pow2Monotone(m: nat, n: nat)
    requires m <= n
    ensures Pow2(m) <= Pow2(n)
    decreases n
  {
    if m < n {
      Pow2Monotone(m, n - 1);
    }
  }

  // A 32-bit word shifted left.
  function Shl32(x: nat, s: nat): nat { x * Pow2(s) % WORD32 }

  function Shr(x: nat, s: nat): nat { Arithmetic.Quotient(x, Pow2(s)) }

  function MakeLBA(m: Mask, g: nat, p: nat, c: nat, l: nat): nat {
    Or(Or(Or(And(l, m.sectorMask), And(Shl32(c, m.blockShift), m.blockMask)), And(Shl32(p, m.wayShift), m.wayMask)),
       And(Shl32(g, m.channelShift), m.channelMask))
  }

  function ParseLBA(m: Mask, lba: nat): (nat, nat, nat, nat) {
    (Shr(And(lba, m.channelMask), m.channelShift), Shr(And(lba, m.wayMask), m.wayShift),
     Shr(And(lba, m.blockMask), m.blockShift), And(lba, m.sectorMask))
  }

  // The part of a coordinate that survives the 32-bit shift.
  function Kept(x: nat, shift: nat, width: nat): nat {
    Shr(Shl32(x, shift), shift) % Pow2(width)
  }

  lemma {:induction false} ShiftBack(x: nat, s: nat)
    ensures Shr(x * Pow2(s), s) == x
  {
    Arithmetic.DivModOf(x * Pow2(s), Pow2(s), x, 0);
  }

  // Two fields end to end.
  lemma {:induction false} AddField(low: nat, shift: nat, x: nat, width: nat)
    requires low < Pow2(shift) && x < Pow2(width)
    ensures Or(low, x * Pow2(shift)) == low + x * Pow2(shift) < Pow2(shift + width)
  {
    OrDisjoint(low, shift, x);
    Pow2Add(width, shift);
    Arithmetic.DigitBound(x, Pow2(width), low, Pow2(shift));
  }

  // A field of a word in which higher fields follow.
  lemma {:induction false} FieldOf(low: nat, shift: nat, x: nat, width: nat, high: nat)
    requires low < Pow2(shift) && x < Pow2(width)
    ensures Shr(And(low + (x + high * Pow2(width)) * Pow2(shift), FieldMask(shift, width)), shift) == x
  {
    var y := x + high * Pow2(width);
    var lba := low + y * Pow2(shift);
    AndField(lba, shift, width);
    Arithmetic.DivModOf(lba, Pow2(shift), y, low);
    Arithmetic.DivModOf(y, Pow2(width), high, x);
    ShiftBack(x, shift);
  }

  // What comes back from a packed address: each coordinate as far as it survived its shift.
  lemma {:induction false} ParseOfMake(s: Structure, m: Mask, g: nat, p: nat, c: nat, l: nat)
    requires s.Valid() && Packed(s, m)
    ensures ParseLBA(m, MakeLBA(m, g, p, c, l)) ==
      (Kept(g, m.channelShift, Width(s.group)), Kept(p, m.wayShift, Width(s.parallelUnit)),
       Kept(c, m.blockShift, Width(s.chunk)), l % Pow2(Width(s.chunkSize)))
  {
    hide Pow2, Width, FieldMask, And, Or, Shr, Shl32, Sum;
    var ws, wb, ww, wg := Width(s.chunkSize), Width(s.chunk), Width(s.parallelUnit), Width(s.group);
    FieldPart(l, 0, ws);
    FieldPart(Shl32(c, m.blockShift), m.blockShift, wb);
    FieldPart(Shl32(p, m.wayShift), m.wayShift, ww);
    FieldPart(Shl32(g, m.channelShift), m.channelShift, wg);
    var x0, x1, x2, x3 := l % Pow2(ws), Kept(c, m.blockShift, wb), Kept(p, m.wayShift, ww), Kept(g, m.channelShift, wg);
    SumOfFields(x0, x1, x2, x3, ws, wb, ww, wg);
    ParseSum(s, m, x0, x1, x2, x3);
  }

  // An address whose shifted coordinates fit in 32 bits is their sum: blocks first, then chunks, parallel
  // units and groups.
  lemma {:induction false} MakeIsSum(s: Structure, m: Mask, g: nat, p: nat, c: nat, l: nat)
    requires s.Valid() && Packed(s, m) && Fits(s, m) && s.Has(g, p, c, l)
    ensures MakeLBA(m, g, p, c, l) ==
      l + c * Pow2(Width(s.chunkSize)) + p * Pow2(Width(s.chunkSize) + Width(s.chunk)) +
      g * Pow2(Width(s.chunkSize) + Width(s.chunk) + Width(s.parallelUnit))
  {
    hide Pow2, Width, FieldMask, And, Or, Shr, Shl32;
    var ws, wb, ww, wg := Width(s.chunkSize), Width(s.chunk), Width(s.parallelUnit), Width(s.group);
    AllKept(s, m, g, p, c, l);
    InWidth(s, g, p, c, l);
    FieldPart(l, 0, ws);
    FieldPart(Shl32(c, m.blockShift), m.blockShift, wb);
    FieldPart(Shl32(p, m.wayShift), m.wayShift, ww);
    FieldPart(Shl32(g, m.channelShift), m.channelShift, wg);
    SumOfFields(l, c, p, g, ws, wb, ww, wg);
  }

  // Four fields end to end.
  function Sum(x0: nat, x1: nat, x2: nat, x3: nat, ws: nat, wb: nat, ww: nat): nat {
    x0 + x1 * Pow2(ws) + x2 * Pow2(ws + wb) + x3 * Pow2(ws + wb + ww)
  }

  lemma {:induction false} SumOfFields(x0: nat, x1: nat, x2: nat, x3: nat, ws: nat, wb: nat, ww: nat, wg: nat)
    requires x0 < Pow2(ws) && x1 < Pow2(wb) && x2 < Pow2(ww) && x3 < Pow2(wg)
    ensures x0 + x1 * Pow2(ws) < Pow2(ws + wb)
    ensures x0 + x1 * Pow2(ws) + x2 * Pow2(ws + wb) < Pow2(ws + wb + ww)
    ensures Or(Or(Or(x0, x1 * Pow2(ws)), x2 * Pow2(ws + wb)), x3 * Pow2(ws + wb + ww)) ==
      Sum(x0, x1, x2, x3, ws, wb, ww)
  {
    hide Pow2, Or;
    AddField(x0, ws, x1, wb);
    AddField(x0 + x1 * Pow2(ws), ws + wb, x2, ww);
    AddField(x0 + x1 * Pow2(ws) + x2 * Pow2(ws + wb), ws + wb + ww, x3, wg);
  }

  lemma {:induction false} ParseSum(s: Structure, m: Mask, x0: nat, x1: nat, x2: nat, x3: nat)
    requires s.Valid() && Packed(s, m)
    requires x0 < Pow2(Width(s.chunkSize)) && x1 < Pow2(Width(s.chunk))
    requires x2 < Pow2(Width(s.parallelUnit)) && x3 < Pow2(Width(s.group))
    ensures ParseLBA(m, Sum(x0, x1, x2, x3, Width(s.chunkSize), Width(s.chunk), Width(s.parallelUnit))) ==
      (x3, x2, x1, x0)
  {
    hide Pow2, Width, FieldMask, And, Shr;
    var ws, wb, ww, wg := Width(s.chunkSize), Width(s.chunk), Width(s.parallelUnit), Width(s.group);
    SumOfFields(x0, x1, x2, x3, ws, wb, ww, wg);
    ParseSector(x0, x1, x2, x3, ws, wb, ww);
    ParseBlock(x0, x1, x2, x3, ws, wb, ww);
    ParseWay(x0, x1, x2, x3, ws, wb, ww);
    ParseChannel(x0, x1, x2, x3, ws, wb, ww, wg);
  }

  lemma {:induction false} ParseSector(x0: nat, x1: nat, x2: nat, x3: nat, ws: nat, wb: nat, ww: nat)
    requires x0 < Pow2(ws)
    ensures And(Sum(x0, x1, x2, x3, ws, wb, ww), FieldMask(0, ws)) == x0
  {
    hide Pow2, And;
    SumNested(x0, x1, x2, x3, ws, wb, ww);
    var lba := Sum(x0, x1, x2, x3, ws, wb, ww);
    var high := x1 + (x2 + x3 * Pow2(ww)) * Pow2(wb);
    FieldPart(lba, 0, ws);
    Arithmetic.DivModOf(lba, Pow2(ws), high, x0);
  }

  lemma {:induction false} ParseBlock(x0: nat, x1: nat, x2: nat, x3: nat, ws: nat, wb: nat, ww: nat)
    requires x0 < Pow2(ws) && x1 < Pow2(wb)
    ensures Shr(And(Sum(x0, x1, x2, x3, ws, wb, ww), FieldMask(ws, wb)), ws) == x1
  {
    hide Pow2, And, Shr, FieldMask;
    SumNested(x0, x1, x2, x3, ws, wb, ww);
    FieldOf(x0, ws, x1, wb, x2 + x3 * Pow2(ww));
  }

  lemma {:induction false} ParseWay(x0: nat, x1: nat, x2: nat, x3: nat, ws: nat, wb: nat, ww: nat)
    requires x0 + x1 * Pow2(ws) < Pow2(ws + wb) && x2 < Pow2(ww)
    ensures Shr(And(Sum(x0, x1, x2, x3, ws, wb, ww), FieldMask(ws + wb, ww)), ws + wb) == x2
  {
    hide Pow2, And, Shr, FieldMask;
    SumNested(x0, x1, x2, x3, ws, wb, ww);
    FieldOf(x0 + x1 * Pow2(ws), ws + wb, x2, ww, x3);
  }

  lemma {:induction false} ParseChannel(x0: nat, x1: nat, x2: nat, x3: nat, ws: nat, wb: nat, ww: nat, wg: nat)
    requires x0 + x1 * Pow2(ws) + x2 * Pow2(ws + wb) < Pow2(ws + wb + ww) && x3 < Pow2(wg)
    ensures Shr(And(Sum(x0, x1, x2, x3, ws, wb, ww), FieldMask(ws + wb + ww, wg)), ws + wb + ww) == x3
  {
    hide Pow2, And, Shr, FieldMask;
    FieldOf(x0 + x1 * Pow2(ws) + x2 * Pow2(ws + wb), ws + wb + ww, x3, wg, 0);
    NoMore(x3, Pow2(wg));
  }

  lemma {:induction false} NoMore(x: nat, n: nat)
    ensures x + 0 * n == x
  {
  }

  lemma {:induction false} SumNested(x0: nat, x1: nat, x2: nat, x3: nat, ws: nat, wb: nat, ww: nat)
    ensures var lba, y2 := Sum(x0, x1, x2, x3, ws, wb, ww), x2 + x3 * Pow2(ww);
      && lba == x0 + x1 * Pow2(ws) + y2 * Pow2(ws + wb)
      && lba == x0 + (x1 + y2 * Pow2(wb)) * Pow2(ws)
  {
    hide Pow2;
    Pow2Add(ww, ws + wb);
    Pow2Add(wb, ws);
    var y2 := x2 + x3 * Pow2(ww);
    Arithmetic.Distribute(x2, x3, Pow2(ww), Pow2(ws + wb));
    Arithmetic.Distribute(x1, y2, Pow2(wb), Pow2(ws));
  }

  // The masked part of a word.
  lemma {:induction false} FieldPart(x: nat, shift: nat, width: nat)
    ensures And(x, FieldMask(shift, width)) == Shr(x, shift) % Pow2(width) * Pow2(shift)
    ensures Shr(x, 0) == x && Pow2(0) == 1
    ensures Shr(x, shift) % Pow2(width) < Pow2(width)
  {
    AndField(x, shift, width);
  }

  // A coordinate survives its shift exactly if the shifted value fits in 32 bits.
  lemma {:induction false} KeptExactly(x: nat, shift: nat, width: nat)
    requires x < Pow2(width)
    ensures Kept(x, shift, width) == x <==> x * Pow2(shift) < WORD32
  {
    hide Pow2;
    var y, z := x * Pow2(shift), Shl32(x, shift);
    if y < WORD32 {
      Small(y, WORD32);
      ShiftBack(x, shift);
      Small(x, Pow2(width));
    } else if Kept(x, shift, width) == x {
      Arithmetic.QuotientBound(z, Pow2(shift), x);
      Small(Shr(z, shift), Pow2(width));
      assert false;
    }
  }

  // The shifted coordinates all fit in 32 bits.
  ghost predicate Fits(s: Structure, m: Mask) {
    && (s.group > 0 ==> (s.group - 1) * Pow2(m.channelShift) < WORD32)
    && (s.parallelUnit > 0 ==> (s.parallelUnit - 1) * Pow2(m.wayShift) < WORD32)
    && (s.chunk > 0 ==> (s.chunk - 1) * Pow2(m.blockShift) < WORD32)
  }

  // Every address of the structure is parsed back exactly if the largest shifted coordinates fit
  // in 32 bits.
  lemma {:induction false} RoundTripExactly(s: Structure, m: Mask)
    requires s.Valid() && Packed(s, m) && s.group > 0 && s.parallelUnit > 0 && s.chunk > 0 && s.chunkSize > 0
    ensures Fits(s, m) <==>
      forall g: nat, p: nat, c: nat, l: nat | s.Has(g, p, c, l) :: ParseLBA(m, MakeLBA(m, g, p, c, l)) == (g, p, c, l)
  {
    hide Pow2, Width, FieldMask, MakeLBA, ParseLBA;
    if Fits(s, m) {
      forall g: nat, p: nat, c: nat, l: nat | s.Has(g, p, c, l)
        ensures ParseLBA(m, MakeLBA(m, g, p, c, l)) == (g, p, c, l)
      {
        FitsAll(s, m, g, p, c, l);
      }
    } else {
      var g, p, c := s.group - 1, s.parallelUnit - 1, s.chunk - 1;
      assert s.Has(g, p, c, 0);
      LosesSome(s, m, g, p, c, 0);
    }
  }

  lemma {:induction false} FitsAll(s: Structure, m: Mask, g: nat, p: nat, c: nat, l: nat)
    requires s.Valid() && Packed(s, m) && Fits(s, m) && s.Has(g, p, c, l)
    ensures ParseLBA(m, MakeLBA(m, g, p, c, l)) == (g, p, c, l)
  {
    hide Pow2, Width, FieldMask, MakeLBA, ParseLBA, Kept;
    AllKept(s, m, g, p, c, l);
    ParseOfMake(s, m, g, p, c, l);
  }

  lemma {:induction false} AllKept(s: Structure, m: Mask, g: nat, p: nat, c: nat, l: nat)
    requires s.Valid() && Packed(s, m) && Fits(s, m) && s.Has(g, p, c, l)
    ensures Kept(g, m.channelShift, Width(s.group)) == g && Kept(p, m.wayShift, Width(s.parallelUnit)) == p
    ensures Kept(c, m.blockShift, Width(s.chunk)) == c && l % Pow2(Width(s.chunkSize)) == l
  {
    hide Pow2, Width, FieldMask, Kept;
    InWidth(s, g, p, c, l);
    Arithmetic.MulMonotone(g, s.group - 1, Pow2(m.channelShift));
    Arithmetic.MulMonotone(p, s.parallelUnit - 1, Pow2(m.wayShift));
    Arithmetic.MulMonotone(c, s.chunk - 1, Pow2(m.blockShift));
    KeptExactly(g, m.channelShift, Width(s.group));
    KeptExactly(p, m.wayShift, Width(s.parallelUnit));
    KeptExactly(c, m.blockShift, Width(s.chunk));
    Small(l, Pow2(Width(s.chunkSize)));
  }

  lemma {:induction false} LosesSome(s: Structure, m: Mask, g: nat, p: nat, c: nat, l: nat)
    requires s.Valid() && Packed(s, m) && s.Has(g, p, c, l)
    requires g * Pow2(m.channelShift) >= WORD32 || p * Pow2(m.wayShift) >= WORD32 || c * Pow2(m.blockShift) >= WORD32
    ensures ParseLBA(m, MakeLBA(m, g, p, c, l)) != (g, p, c, l)
  {
    hide Pow2, Width, FieldMask, MakeLBA, ParseLBA, Kept;
    InWidth(s, g, p, c, l);
    ParseOfMake(s, m, g, p, c, l);
    KeptExactly(g, m.channelShift, Width(s.group));
    KeptExactly(p, m.wayShift, Width(s.parallelUnit));
    KeptExactly(c, m.blockShift, Width(s.chunk));
  }

  lemma {:induction false} InWidth(s: Structure, g: nat, p: nat, c: nat, l: nat)
    requires s.Has(g, p, c, l)
    ensures g < Pow2(Width(s.group)) && p < Pow2(Width(s.parallelUnit)) && c < Pow2(Width(s.chunk))
      && l < Pow2(Width(s.chunkSize))
  {
    WidthIsLeast(s.group);
    WidthIsLeast(s.parallelUnit);
    WidthIsLeast(s.chunk);
    WidthIsLeast(s.chunkSize);
  }

  // An address can be lost: with 65536 blocks, 32768 chunks and 4 parallel units, unit 2 is shifted out
  // of the word.
  lemma {:induction false} AddressIsLost(m: Mask)
    requires Packed(Structure(1, 4, 0x8000, 0x1_0000), m)
    ensures ParseLBA(m, MakeLBA(m, 0, 2, 0, 0)) == (0, 0, 0, 0)
  {
    hide FieldMask, MakeLBA, ParseLBA, Pow2, Width, Kept;
    LostWidths();
    ParseOfMake(Structure(1, 4, 0x8000, 0x1_0000), m, 0, 2, 0, 0);
    ShiftedOut();
    ZeroIsKept(0, 0);
    ZeroIsKept(16, 15);
    ZeroIsKept(33, 0);
    Small(0, Pow2(16));
  }

  lemma {:induction false} LostWidths()
    ensures Width(0x1_0000) == 16 && Width(0x8000) == 15 && Width(4) == 2 && Width(1) == 0
  {
    hide Width;
    assert Pow2(16) == 0x1_0000 && Pow2(15) == 0x8000 && Pow2(2) == 4 && Pow2(0) == 1;
    WidthOfPow2(16);
    WidthOfPow2(15);
    WidthOfPow2(2);
    WidthOfPow2(0);
  }

  lemma {:induction false} WidthOfPow2(n: nat)
    ensures Width(Pow2(n)) == n
  {
    if n > 0 {
      WidthOfPow2(n - 1);
    }
  }

  lemma {:induction false} ShiftedOut()
    ensures Kept(2, 31, 2) == 0
  {
    hide Pow2;
    WordSizes();
    Pow2Next(31);
    Small(0, Pow2(31));
    Small(0, Pow2(2));
  }

  lemma {:induction false} Pow2Next(n: nat)
    ensures Pow2(n + 1) == 2 * Pow2(n)
  {
  }

  lemma {:induction false} ZeroIsKept(shift: nat, width: nat)
    ensures Kept(0, shift, width) == 0
  {
    hide Pow2;
    Small(0, WORD32);
    Small(0, Pow2(shift));
    Small(0, Pow2(width));
  }
}
