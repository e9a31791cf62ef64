// The expansion of a page of a superblock to pages of the NAND flash, and the geometry it relies on.
module Superblocks {
  import Arithmetic

  type Pos = Arithmetic.Pos

  datatype Dim = Channel | Package | Die | Plane

  // The geometry, the order of the dimensions in a block index, those that a superblock spans, and the
  // multi-plane mode, in which planes are not addressed.
  datatype Geometry = Geometry(channel: Pos, package: Pos, die: Pos, plane: Pos, block: nat, pageSize: Pos,
    order: seq<Dim>, superblock: set<Dim>, multiPlane: bool, randomTweak: bool)
  {
    ghost predicate Valid() {
      |order| == 4 && Distinct(order)
    }

    function Size(d: Dim): Pos {
      match d case Channel => channel case Package => package case Die => die case Plane => plane
    }

    predicate Addressed(d: Dim) { !(multiPlane && d == Plane) }
  }

  datatype Address = Address(channel: nat, package: nat, die: nat, plane: nat, block: nat, page: nat) {
    function Get(d: Dim): nat {
      match d case Channel => channel case Package => package case Die => die case Plane => plane
    }

    function With(d: Dim, v: nat): (a: Address)
      ensures a.block == block && a.page == page
      ensures forall e :: a.Get(e) == if e == d then v else Get(e)
    {
      match d
      case Channel => this.(channel := v)
      case Package => this.(package := v)
      case Die => this.(die := v)
      case Plane => this.(plane := v)
    }
  }

  ghost predicate Distinct(s: seq<Dim>) {
    forall i, j | 0 <= i < j < |s| :: s[i] != s[j]
  }

  // The dimensions a superblock spans, or those that the block index picks, in order.
  function Chosen(g: Geometry, s: seq<Dim>, spanned: bool): (r: seq<Dim>)
    ensures |r| <= |s| && forall d :: d in r <==> d in s && g.Addressed(d) && (d in g.superblock) == spanned
  {
    if |s| == 0 then []
    else
      var rest := Chosen(g, s[..|s| - 1], spanned);
      var d := s[|s| - 1];
      if g.Addressed(d) && (d in g.superblock) == spanned then rest + [d] else rest
  }

  lemma {:induction false} ChosenDistinct(g: Geometry, s: seq<Dim>, spanned: bool)
    requires Distinct(s)
    ensures Distinct(Chosen(g, s, spanned))
  {
    if |s| > 0 {
      ChosenDistinct(g, s[..|s| - 1], spanned);
      var rest, d := Chosen(g, s[..|s| - 1], spanned), s[|s| - 1];
      assert d !in rest;
    }
  }

  function Product(g: Geometry, ds: seq<Dim>): nat {
    if |ds| == 0 then 1 else g.Size(ds[0]) * Product(g, ds[1..])
  }

  // x as a number with one digit for each dimension, the first dimension's digit the lowest: the
  // digits, and what is left.
  function Assign(g: Geometry, a: Address, ds: seq<Dim>, x: nat): Address
    decreases |ds|
  {
    if |ds| == 0 then a else Assign(g, a.With(ds[0], x % g.Size(ds[0])), ds[1..], x / g.Size(ds[0]))
  }

  function Rest(g: Geometry, ds: seq<Dim>, x: nat): nat
  {
    if |ds| == 0 then x else Rest(g, ds[1..], x / g.Size(ds[0]))
  }

  function Number(g: Geometry, a: Address, ds: seq<Dim>, rest: nat): nat {
    if |ds| == 0 then rest else a.Get(ds[0]) + g.Size(ds[0]) * Number(g, a, ds[1..], rest)
  }

  // Digits of the dimensions are assigned, and nothing else.
  lemma {:induction false} AssignDims(g: Geometry, a: Address, ds: seq<Dim>, x: nat)
    requires Distinct(ds)
    ensures var r := Assign(g, a, ds, x);
      && r.block == a.block && r.page == a.page
      && forall d :: if d in ds then r.Get(d) < g.Size(d) else r.Get(d) == a.Get(d)
    decreases |ds|
  {
    if |ds| > 0 {
      TailDistinct(ds);
      AssignDims(g, a.With(ds[0], x % g.Size(ds[0])), ds[1..], x / g.Size(ds[0]));
    }
  }

  lemma {:induction false} TailDistinct(ds: seq<Dim>)
    requires Distinct(ds) && |ds| > 0
    ensures Distinct(ds[1..]) && ds[0] !in ds[1..] && forall d :: d in ds <==> d == ds[0] || d in ds[1..]
  {
  }

  // The digits and the rest make up the number.
  lemma {:induction false} NumberOfAssign(g: Geometry, a: Address, ds: seq<Dim>, x: nat)
    requires Distinct(ds)
    ensures Number(g, Assign(g, a, ds, x), ds, Rest(g, ds, x)) == x
    decreases |ds|
  {
    if |ds| > 0 {
      TailDistinct(ds);
      var n := g.Size(ds[0]);
      var b := a.With(ds[0], x % n);
      NumberOfAssign(g, b, ds[1..], x / n);
      AssignDims(g, b, ds[1..], x / n);
      assert x == x / n * n + x % n;
    }
  }

  // An address with small digits is that of its number.
  lemma {:induction false} AssignOfNumber(g: Geometry, a: Address, b: Address, ds: seq<Dim>, rest: nat)
    requires Distinct(ds)
    requires forall d :: if d in ds then b.Get(d) < g.Size(d) else b.Get(d) == a.Get(d)
    requires a.block == b.block && a.page == b.page
    ensures var x := Number(g, b, ds, rest); Assign(g, a, ds, x) == b && Rest(g, ds, x) == rest
    decreases |ds|
  {
    if |ds| == 0 {
      forall d ensures b.Get(d) == a.Get(d) { }
      assert a.Get(Channel) == b.Get(Channel) && a.Get(Package) == b.Get(Package);
      assert a.Get(Die) == b.Get(Die) && a.Get(Plane) == b.Get(Plane);
    } else {
      TailDistinct(ds);
      var n, v, q := g.Size(ds[0]), b.Get(ds[0]), Number(g, b, ds[1..], rest);
      Arithmetic.DigitAndRest(v, q, n);
      AssignOfNumber(g, a.With(ds[0], v), b, ds[1..], rest);
    }
  }

  // The number is small enough exactly if the rest is.
  lemma {:induction false} RestBound(g: Geometry, ds: seq<Dim>, x: nat, m: nat)
    ensures Rest(g, ds, x) < m <==> x < m * Product(g, ds)
    decreases |ds|
  {
    if |ds| > 0 {
      var n, p := g.Size(ds[0]), Product(g, ds[1..]);
      RestBound(g, ds[1..], x / n, m);
      Arithmetic.QuotientBound(x, n, m * p);
      Arithmetic.MulSwap(m, p, n);
    }
  }

  // The dimensions that the block index picks, and those a superblock spans.
  function Outside(g: Geometry): seq<Dim> { Chosen(g, g.order, false) }

  function Inside(g: Geometry): seq<Dim> { Chosen(g, g.order, true) }

  // The page that position pos of the I/O flag of a page of a superblock stands for.
  function AddressOf(g: Geometry, blockIndex: nat, pageIndex: nat, pos: nat): Address {
    var base := Address(0, 0, 0, 0, Rest(g, Outside(g), blockIndex), pageIndex);
    Assign(g, Assign(g, base, Outside(g), blockIndex), Inside(g), pos)
  }

  function BlockOf(g: Geometry, a: Address): nat { Number(g, a, Outside(g), a.block) }

  function PositionOf(g: Geometry, a: Address): nat { Number(g, a, Inside(g), 0) }

  ghost predicate InGeometry(g: Geometry, a: Address) {
    && (forall d :: a.Get(d) < if g.Addressed(d) then g.Size(d) else 1)
    && a.block < g.block
  }

  // A dimension is outside, inside or not addressed.
  lemma {:induction false} DimsSplit(g: Geometry)
    requires g.Valid()
    ensures Distinct(Outside(g)) && Distinct(Inside(g))
    ensures forall d :: g.Addressed(d) <==> d in Outside(g) || d in Inside(g)
    ensures forall d :: !(d in Outside(g) && d in Inside(g))
  {
    ChosenDistinct(g, g.order, false);
    ChosenDistinct(g, g.order, true);
    AllDims(g.order);
  }

  lemma {:induction false} AllDims(s: seq<Dim>)
    requires |s| == 4 && Distinct(s)
    ensures forall d :: d in s
  {
    assert s[0] != s[1] && s[0] != s[2] && s[0] != s[3] && s[1] != s[2] && s[1] != s[3] && s[2] != s[3];
    forall d ensures d in s {
      assert d == s[0] || d == s[1] || d == s[2] || d == s[3];
    }
  }

  // From a superblock's page and a position to a page of the flash and back.
  lemma {:induction false} ExpandIsInjective(g: Geometry, blockIndex: nat, pageIndex: nat, pos: nat)
    requires g.Valid() && blockIndex < g.block * Product(g, Outside(g)) && pos < Product(g, Inside(g))
    ensures var a := AddressOf(g, blockIndex, pageIndex, pos);
      InGeometry(g, a) && a.page == pageIndex && BlockOf(g, a) == blockIndex && PositionOf(g, a) == pos
  {
    DimsSplit(g);
    var base := Address(0, 0, 0, 0, Rest(g, Outside(g), blockIndex), pageIndex);
    var outer := Assign(g, base, Outside(g), blockIndex);
    var a := Assign(g, outer, Inside(g), pos);
    AssignDims(g, base, Outside(g), blockIndex);
    AssignDims(g, outer, Inside(g), pos);
    RestBound(g, Outside(g), blockIndex, g.block);
    RestBound(g, Inside(g), pos, 1);
    NumberOfAssign(g, base, Outside(g), blockIndex);
    NumberOfAssign(g, outer, Inside(g), pos);
    SameDigits(g, outer, a, Outside(g), a.block);
  }

  lemma {:induction false} SameDigits(g: Geometry, a: Address, b: Address, ds: seq<Dim>, rest: nat)
    requires forall d | d in ds :: a.Get(d) == b.Get(d)
    ensures Number(g, a, ds, rest) == Number(g, b, ds, rest)
    decreases |ds|
  {
    if |ds| > 0 {
      SameDigits(g, a, b, ds[1..], rest);
    }
  }

  // The digits of some dimensions, the others zero.
  function Only(a: Address, ds: seq<Dim>): Address {
    Address(if Channel in ds then a.channel else 0, if Package in ds then a.package else 0, if Die in ds then a.die
      else 0,
            if Plane in ds then a.plane else 0, a.block, a.page)
  }

  lemma {:induction false} OnlyDims(a: Address, ds: seq<Dim>)
    ensures forall d :: Only(a, ds).Get(d) == if d in ds then a.Get(d) else 0
    ensures forall d :: Address(0, 0, 0, 0, a.block, a.page).Get(d) == 0
  {
  }

  // And every page of the flash is reached.
  lemma {:induction false} ExpandIsOnto(g: Geometry, a: Address)
    requires g.Valid() && InGeometry(g, a)
    ensures BlockOf(g, a) < g.block * Product(g, Outside(g)) && PositionOf(g, a) < Product(g, Inside(g))
    ensures AddressOf(g, BlockOf(g, a), a.page, PositionOf(g, a)) == a
  {
    hide Number, Assign, Chosen, Product, Rest;
    DimsSplit(g);
    var base := Address(0, 0, 0, 0, a.block, a.page);
    var x, y := BlockOf(g, a), PositionOf(g, a);
    var outer := Only(a, Outside(g));
    OnlyDims(a, Outside(g));
    SameDigits(g, a, outer, Outside(g), a.block);
    AssignOfNumber(g, base, outer, Outside(g), a.block);
    AssignOfNumber(g, outer, a, Inside(g), 0);
    RestBound(g, Outside(g), x, g.block);
    RestBound(g, Inside(g), y, 1);
  }

  function Factor(g: Geometry, d: Dim, spanned: bool): Pos {
    if g.Addressed(d) && (d in g.superblock) == spanned then g.Size(d) else 1
  }

  lemma {:induction false} ProductAppend(g: Geometry, ds: seq<Dim>, d: Dim)
    ensures Product(g, ds + [d]) == Product(g, ds) * g.Size(d)
  {
    if |ds| == 0 {
      assert ([] + [d])[1..] == [];
    } else {
      assert (ds + [d])[1..] == ds[1..] + [d];
      ProductAppend(g, ds[1..], d);
      Arithmetic.MulAssoc(g.Size(ds[0]), Product(g, ds[1..]), g.Size(d));
    }
  }

  lemma {:induction false} ProductOfChosen(g: Geometry, s: seq<Dim>, spanned: bool)
    requires |s| > 0
    ensures Product(g, Chosen(g, s, spanned)) ==
      Product(g, Chosen(g, s[..|s| - 1], spanned)) * Factor(g, s[|s| - 1], spanned)
  {
    ProductAppend(g, Chosen(g, s[..|s| - 1], spanned), s[|s| - 1]);
  }

  // The order of the dimensions does not matter.
  lemma {:induction false} ProductOfAll(g: Geometry, spanned: bool)
    requires g.Valid()
    ensures Product(g, Chosen(g, g.order, spanned)) ==
      Factor(g, Channel, spanned) * Factor(g, Package, spanned) * Factor(g, Die, spanned) * Factor(g, Plane, spanned)
  {
    hide Factor, Product, Chosen;
    ProductInOrder(g, g.order, spanned);
    Reorder(g, g.order, spanned);
  }

  lemma {:induction false} ProductInOrder(g: Geometry, s: seq<Dim>, spanned: bool)
    requires |s| == 4
    ensures Product(g, Chosen(g, s, spanned)) ==
      Factor(g, s[0], spanned) * Factor(g, s[1], spanned) * Factor(g, s[2], spanned) * Factor(g, s[3], spanned)
  {
    hide Factor, Product, Chosen;
    NoneChosen(g, spanned);
    ProductOfPrefix(g, s, spanned, 0);
    ProductOfPrefix(g, s, spanned, 1);
    ProductOfPrefix(g, s, spanned, 2);
    ProductOfPrefix(g, s, spanned, 3);
    assert s[..4] == s && s[..0] == [];
  }

  lemma {:induction false} NoneChosen(g: Geometry, spanned: bool)
    ensures Product(g, Chosen(g, [], spanned)) == 1
  {
  }

  lemma {:induction false} ProductOfPrefix(g: Geometry, s: seq<Dim>, spanned: bool, k: nat)
    requires k < |s|
    ensures Product(g, Chosen(g, s[..k + 1], spanned)) ==
      Product(g, Chosen(g, s[..k], spanned)) * Factor(g, s[k], spanned)
  {
    assert s[..k + 1][..k] == s[..k];
    ProductOfChosen(g, s[..k + 1], spanned);
  }

  lemma {:induction false} Reorder(g: Geometry, s: seq<Dim>, spanned: bool)
    requires |s| == 4 && Distinct(s)
    ensures Factor(g, s[0], spanned) * Factor(g, s[1], spanned) * Factor(g, s[2], spanned) * Factor(g, s[3], spanned) ==
      Factor(g, Channel, spanned) * Factor(g, Package, spanned) * Factor(g, Die, spanned) * Factor(g, Plane, spanned)
  {
    hide Factor;
    assert s[0] != s[1] && s[0] != s[2] && s[0] != s[3] && s[1] != s[2] && s[1] != s[3] && s[2] != s[3];
    var c, w, d, p := Factor(g, Channel, spanned), Factor(g, Package, spanned), Factor(g, Die, spanned),
      Factor(g, Plane, spanned);
    match s[3] {
      case Plane => Reorder3(Factor(g, s[0], spanned), Factor(g, s[1], spanned), Factor(g, s[2], spanned), c, w, d);
      case Die =>
        Reorder3(Factor(g, s[0], spanned), Factor(g, s[1], spanned), Factor(g, s[2], spanned), c, w, p);
        Arithmetic.MulLast(c * w, p, d);
      case Package =>
        Reorder3(Factor(g, s[0], spanned), Factor(g, s[1], spanned), Factor(g, s[2], spanned), c, d, p);
        Arithmetic.MulLast(c * d, p, w);
        Arithmetic.MulLast(c, d, w);
      case Channel =>
        Reorder3(Factor(g, s[0], spanned), Factor(g, s[1], spanned), Factor(g, s[2], spanned), w, d, p);
        Arithmetic.MulLast(w * d, p, c);
        Arithmetic.MulLast(w, d, c);
    }
  }

  lemma {:induction false} Reorder3(x: nat, y: nat, z: nat, a: nat, b: nat, c: nat)
    requires (x, y, z) in {(a, b, c), (a, c, b), (b, a, c), (b, c, a), (c, a, b), (c, b, a)}
    ensures x * y * z == a * b * c
  {
    Arithmetic.MulLast(a, c, b);
    Arithmetic.MulLast(b, c, a);
    Arithmetic.MulLast(c, b, a);
    Arithmetic.MulLast(c, a, b);
  }

  lemma {:induction false} AssignAppend(g: Geometry, a: Address, ds: seq<Dim>, d: Dim, x: nat)
    ensures Assign(g, a, ds + [d], x) == Assign(g, a, ds, x).With(d, Rest(g, ds, x) % g.Size(d))
    ensures Rest(g, ds + [d], x) == Rest(g, ds, x) / g.Size(d)
    decreases |ds|
  {
    if |ds| == 0 {
      assert ([] + [d])[1..] == [];
    } else {
      assert (ds + [d])[1..] == ds[1..] + [d];
      AssignAppend(g, a.With(ds[0], x % g.Size(ds[0])), ds[1..], d, x / g.Size(ds[0]));
    }
  }

  // What a step of the index is worth for the dimension after those of s.
  function PlaceValue(g: Geometry, s: seq<Dim>, spanned: bool): Pos {
    if |s| == 0 then 1
    else var n := |s| - 1; Arithmetic.TimesPos(PlaceValue(g, s[..n], spanned), Factor(g, s[n], spanned))
  }

  lemma {:induction false} RestIs(g: Geometry, s: seq<Dim>, spanned: bool, x: nat)
    ensures Rest(g, Chosen(g, s, spanned), x) == Arithmetic.Quotient(x, PlaceValue(g, s, spanned))
  {
    hide Arithmetic.Quotient, Rest;
    if |s| == 0 {
      QuotientByOne(g, x);
    } else {
      RestIs(g, s[..|s| - 1], spanned, x);
      RestNext(g, s, spanned, x);
    }
  }

  lemma {:induction false} QuotientByOne(g: Geometry, x: nat)
    ensures Arithmetic.Quotient(x, 1) == x && Rest(g, [], x) == x
  {
  }

  lemma {:induction false} RestNext(g: Geometry, s: seq<Dim>, spanned: bool, x: nat)
    requires |s| > 0
    ensures var f, init := Factor(g, s[|s| - 1], spanned), s[..|s| - 1];
      && Rest(g, Chosen(g, s, spanned), x) == Arithmetic.Quotient(Rest(g, Chosen(g, init, spanned), x), f)
      && forall m: Pos ::
           Arithmetic.Quotient(Arithmetic.Quotient(x, m), f) == Arithmetic.Quotient(x, Arithmetic.TimesPos(m, f))
  {
    var f, init := Factor(g, s[|s| - 1], spanned), s[..|s| - 1];
    ChosenNext(g, s, spanned);
    AssignAppend(g, Address(0, 0, 0, 0, 0, 0), Chosen(g, init, spanned), s[|s| - 1], x);
    hide Rest, Chosen, Assign, Arithmetic.TimesPos;
    forall m: Pos
      ensures Arithmetic.Quotient(Arithmetic.Quotient(x, m), f) == Arithmetic.Quotient(x, Arithmetic.TimesPos(m, f))
    {
      Arithmetic.DivideTwice(x, m, f);
    }
  }

  // The digit of one dimension is the lowest of what those before it leave.
  lemma {:induction false} DigitIs(g: Geometry, a: Address, s: seq<Dim>, spanned: bool, x: nat, k: nat)
    requires Distinct(s) && k < |s| && g.Addressed(s[k]) && (s[k] in g.superblock) == spanned
    ensures Assign(g, a, Chosen(g, s, spanned), x).Get(s[k]) == Rest(g, Chosen(g, s[..k], spanned), x) % g.Size(s[k])
  {
    hide Assign, Rest, Chosen, Address.Get, Geometry.Size;
    var n := |s| - 1;
    var init := s[..n];
    AssignAppend(g, a, Chosen(g, init, spanned), s[n], x);
    ChosenNext(g, s, spanned);
    var before, v := Assign(g, a, Chosen(g, init, spanned), x), Rest(g, Chosen(g, init, spanned), x) % g.Size(s[n]);
    WithGets(before, s[n], v, s[k]);
    if k < n {
      DigitIs(g, a, init, spanned, x, k);
      assert init[..k] == s[..k] && init[k] == s[k] && s[n] != s[k];
      assert Chosen(g, init, spanned) + [] == Chosen(g, init, spanned);
    } else {
      assert s[..k] == init;
    }
  }

  lemma {:induction false} WithGets(a: Address, d: Dim, v: nat, e: Dim)
    ensures a.With(d, v).Get(e) == if e == d then v else a.Get(e)
  {
  }

  lemma {:induction false} ChosenNext(g: Geometry, s: seq<Dim>, spanned: bool)
    requires |s| > 0
    ensures var d := s[|s| - 1];
      Chosen(g, s, spanned) ==
      Chosen(g, s[..|s| - 1], spanned) + if g.Addressed(d) && (d in g.superblock) == spanned then [d] else []
  {
  }

  // In the order of the dimensions, each that a superblock spans takes its digit from the position, each other
  // one that is addressed from the block index; what is left of that is the block.
  lemma {:induction false} DigitsInOrder(g: Geometry, blockIndex: nat, pageIndex: nat, pos: nat, k: nat)
    requires g.Valid() && k < 4
    ensures var a, d := AddressOf(g, blockIndex, pageIndex, pos), g.order[k];
      && a.block == Arithmetic.Quotient(blockIndex, PlaceValue(g, g.order, false)) && a.page == pageIndex
      && a.Get(d) ==
         if !g.Addressed(d) then 0
         else if d in g.superblock then Arithmetic.Quotient(pos, PlaceValue(g, g.order[..k], true)) % g.Size(d)
         else Arithmetic.Quotient(blockIndex, PlaceValue(g, g.order[..k], false)) % g.Size(d)
  {
    hide Rest, Assign, Chosen, Address.Get, Geometry.Size, Arithmetic.Quotient, PlaceValue;
    var d := g.order[k];
    RestIs(g, g.order, false, blockIndex);
    DimsSplit(g);
    var base := Address(0, 0, 0, 0, Rest(g, Outside(g), blockIndex), pageIndex);
    var outer := Assign(g, base, Outside(g), blockIndex);
    BaseIsZero(base, d);
    AssignDims(g, base, Outside(g), blockIndex);
    AssignDims(g, outer, Inside(g), pos);
    if g.Addressed(d) {
      if d in g.superblock {
        DigitIs(g, outer, g.order, true, pos, k);
        RestIs(g, g.order[..k], true, pos);
      } else {
        DigitIs(g, base, g.order, false, blockIndex, k);
        RestIs(g, g.order[..k], false, blockIndex);
        NotInside(g, d);
      }
    }
  }

  lemma {:induction false} BaseIsZero(a: Address, d: Dim)
    requires a.channel == 0 && a.package == 0 && a.die == 0 && a.plane == 0
    ensures a.Get(d) == 0
  {
  }

  lemma {:induction false} NotInside(g: Geometry, d: Dim)
    requires d !in g.superblock
    ensures d !in Inside(g)
  {
  }

  lemma {:induction false} AssignBlock(g: Geometry, a: Address, ds: seq<Dim>, x: nat, block: nat, page: nat)
    ensures Assign(g, a.(block := block, page := page), ds, x) == Assign(g, a, ds, x).(block := block, page := page)
    decreases |ds|
  {
    if |ds| > 0 {
      AssignBlock(g, a.With(ds[0], x % g.Size(ds[0])), ds[1..], x / g.Size(ds[0]), block, page);
    }
  }

  // The pages at the first n positions whose flag is set.
  function Expanded(g: Geometry, blockIndex: nat, pageIndex: nat, ioFlag: seq<bool>, n: nat): seq<Address>
    requires n <= |ioFlag|
  {
    if n == 0 then []
    else
      Expanded(g, blockIndex, pageIndex, ioFlag, n - 1) +
      if ioFlag[n - 1] then [AddressOf(g, blockIndex, pageIndex, n - 1)] else []
  }

  // The list has the pages of the superblock with the page index, one for each of the first n flags that is
  // set, in order.
  ghost predicate Lists(g: Geometry, blockIndex: nat, pageIndex: nat, ioFlag: seq<bool>, n: nat, list: seq<Address>)
    requires n <= |ioFlag|
  {
    && (forall a | a in list :: InGeometry(g, a) && BlockOf(g, a) == blockIndex && a.page == pageIndex)
    && (forall a | a in list :: PositionOf(g, a) < n && ioFlag[PositionOf(g, a)])
    && (forall i, j | 0 <= i < j < |list| :: PositionOf(g, list[i]) < PositionOf(g, list[j]))
    && (forall p: nat | p < n && ioFlag[p] :: exists a :: a in list && PositionOf(g, a) == p)
  }

  lemma {:induction false} ExpandedExactly(g: Geometry, blockIndex: nat, pageIndex: nat, ioFlag: seq<bool>, n: nat)
    requires g.Valid() && blockIndex < g.block * Product(g, Outside(g))
    requires n <= |ioFlag| == Product(g, Inside(g))
    ensures Lists(g, blockIndex, pageIndex, ioFlag, n, Expanded(g, blockIndex, pageIndex, ioFlag, n))
  {
    hide AddressOf, InGeometry, BlockOf, PositionOf, Product, Outside, Inside;
    if n > 0 {
      hide Lists;
      ExpandedExactly(g, blockIndex, pageIndex, ioFlag, n - 1);
      ExpandIsInjective(g, blockIndex, pageIndex, n - 1);
      ListsNext(g, blockIndex, pageIndex, ioFlag, n, Expanded(g, blockIndex, pageIndex, ioFlag, n - 1),
        AddressOf(g, blockIndex, pageIndex, n - 1));
    }
  }

  lemma {:induction false} ListsNext(g: Geometry, blockIndex: nat, pageIndex: nat, ioFlag: seq<bool>, n: nat,
      list: seq<Address>, a: Address)
    requires 0 < n <= |ioFlag| && Lists(g, blockIndex, pageIndex, ioFlag, n - 1, list)
    requires InGeometry(g, a) && BlockOf(g, a) == blockIndex && a.page == pageIndex && PositionOf(g, a) == n - 1
    ensures Lists(g, blockIndex, pageIndex, ioFlag, n, list + if ioFlag[n - 1] then [a] else [])
  {
    hide InGeometry, BlockOf, PositionOf;
    var next := list + if ioFlag[n - 1] then [a] else [];
    forall i | 0 <= i < |list| ensures PositionOf(g, list[i]) < n - 1 {
      assert list[i] in list;
    }
    forall p: nat | p < n && ioFlag[p] ensures exists x :: x in next && PositionOf(g, x) == p {
      if p == n - 1 {
        assert a in next;
      } else {
        var x :| x in list && PositionOf(g, x) == p;
        assert x in next;
      }
    }
  }

  // How often the loop for the first dimension runs: once if there is none.
  function Bound(g: Geometry, ds: seq<Dim>): (n: nat)
    ensures n >= 1
  {
    if |ds| > 0 then g.Size(ds[0]) else 1
  }

  function Tail(ds: seq<Dim>): seq<Dim> {
    if |ds| > 0 then ds[1..] else []
  }

  // The counter of nested loops with the given variables, the innermost first.
  function Counter(g: Geometry, ds: seq<Dim>, vars: seq<nat>): nat
    decreases |vars|
  {
    if |vars| == 0 then 0 else vars[0] + Bound(g, ds) * Counter(g, Tail(ds), vars[1..])
  }

  predicate Bounded(g: Geometry, ds: seq<Dim>, vars: seq<nat>)
    decreases |vars|
  {
    |vars| > 0 ==> vars[0] < Bound(g, ds) && Bounded(g, Tail(ds), vars[1..])
  }

  // The loop variables stored through the pointers.
  function SetAll(g: Geometry, a: Address, ds: seq<Dim>, vars: seq<nat>): Address
    decreases |vars|
  {
    if |vars| == 0 || |ds| == 0 then a else SetAll(g, a.With(ds[0], vars[0]), ds[1..], vars[1..])
  }

  // They are the digits of the counter.
  lemma {:induction false} CounterDigits(g: Geometry, a: Address, ds: seq<Dim>, vars: seq<nat>)
    requires |ds| <= |vars| && Bounded(g, ds, vars)
    ensures Assign(g, a, ds, Counter(g, ds, vars)) == SetAll(g, a, ds, vars)
    decreases |vars|
  {
    if |ds| > 0 {
      Arithmetic.DigitAndRest(vars[0], Counter(g, ds[1..], vars[1..]), g.Size(ds[0]));
      CounterDigits(g, a.With(ds[0], vars[0]), ds[1..], vars[1..]);
    }
  }

  lemma {:induction false} NothingToCount(g: Geometry, vars: seq<nat>)
    requires Bounded(g, [], vars)
    ensures Counter(g, [], vars) == 0
    decreases |vars|
  {
    if |vars| > 0 {
      NothingToCount(g, vars[1..]);
    }
  }

  // Bounded variables give a counter below the product of the sizes.
  lemma {:induction false} CounterBound(g: Geometry, ds: seq<Dim>, vars: seq<nat>)
    requires |ds| <= |vars| && Bounded(g, ds, vars)
    ensures Counter(g, ds, vars) < Product(g, ds)
    decreases |vars|
  {
    if |ds| == 0 {
      NothingToCount(g, vars);
    } else {
      CounterBound(g, ds[1..], vars[1..]);
      Arithmetic.DigitBound(Counter(g, ds[1..], vars[1..]), Product(g, ds[1..]), vars[0], g.Size(ds[0]));
    }
  }

  // When a loop ends its bound carries over into the next variable.
  lemma {:induction false} Carry(g: Geometry, ds: seq<Dim>, v: nat, rest: seq<nat>)
    ensures Counter(g, ds, [Bound(g, ds), v] + rest) == Counter(g, ds, [0, v + 1] + rest)
  {
    var n, m := Bound(g, ds), Bound(g, Tail(ds));
    var x := Counter(g, Tail(Tail(ds)), rest);
    assert ([n, v] + rest)[1..] == [v] + rest && ([v] + rest)[1..] == rest;
    assert ([0, v + 1] + rest)[1..] == [v + 1] + rest && ([v + 1] + rest)[1..] == rest;
    Arithmetic.MulNext(n, v + m * x);
  }

  lemma {:induction false} CarryInside(g: Geometry, ds: seq<Dim>, u: nat, s: seq<nat>, t: seq<nat>)
    requires Counter(g, Tail(ds), s) == Counter(g, Tail(ds), t)
    ensures Counter(g, ds, [u] + s) == Counter(g, ds, [u] + t)
  {
    assert ([u] + s)[1..] == s && ([u] + t)[1..] == t;
  }

  // The variables before the first pass, and after the last one.
  lemma {:induction false} CounterEnds(g: Geometry, ds: seq<Dim>)
    requires |ds| <= 4
    ensures Counter(g, ds, [0, 0, 0, 0]) == 0
    ensures Counter(g, ds, [0, 0, 0, Bound(g, Tail(Tail(Tail(ds))))]) == Product(g, ds)
  {
    ZeroCounter(g, ds, 4);
    TopCounter(g, ds, [0, 0, 0]);
    assert [0, 0, 0] + [Last(g, ds, 3)] == [0, 0, 0, Bound(g, Tail(Tail(Tail(ds))))];
  }

  function Zeros(n: nat): seq<nat> { seq(n, _ => 0) }

  lemma {:induction false} ZeroCounter(g: Geometry, ds: seq<Dim>, n: nat)
    ensures Counter(g, ds, Zeros(n)) == 0
    ensures n == 4 ==> Zeros(n) == [0, 0, 0, 0]
    decreases n
  {
    if n > 0 {
      ZeroCounter(g, Tail(ds), n - 1);
      assert Zeros(n)[1..] == Zeros(n - 1);
    }
  }

  // The last variable at its bound, the others zero.
  function Last(g: Geometry, ds: seq<Dim>, zeros: nat): nat
    decreases zeros
  {
    if zeros == 0 then Bound(g, ds) else Last(g, Tail(ds), zeros - 1)
  }

  lemma {:induction false} TopCounter(g: Geometry, ds: seq<Dim>, zeros: seq<nat>)
    requires |ds| <= |zeros| + 1 && forall z | z in zeros :: z == 0
    ensures Counter(g, ds, zeros + [Last(g, ds, |zeros|)]) == Product(g, ds)
    decreases |zeros|
  {
    var vars := zeros + [Last(g, ds, |zeros|)];
    if |zeros| == 0 {
      assert vars[1..] == [];
    } else {
      assert zeros[0] in zeros && vars[0] == 0;
      forall z | z in zeros[1..] ensures z == 0 {
        assert z in zeros;
      }
      assert vars[1..] == zeros[1..] + [Last(g, Tail(ds), |zeros| - 1)];
      TopCounter(g, Tail(ds), zeros[1..]);
    }
  }

  // The flash's parameters, and the expansion of superblock requests.
  class PAL {
    const g: Geometry
    var superBlock: nat
    var superPageSize: nat
    var pageInSuperPage: nat

    ghost predicate Valid()
      reads this
    {
      && g.Valid()
      && superBlock == g.block * Product(g, Outside(g))
      && pageInSuperPage == Product(g, Inside(g))
    }

    constructor (g: Geometry)
      requires g.Valid()
      ensures Valid() && this.g == g
      ensures superPageSize == g.pageSize * pageInSuperPage * (if g.multiPlane then g.plane else 1)
    {
      hide Times4, Product, Chosen, Factor, PagesOf;
      this.g := g;
      var blocks, pageSize := MultiplyUp(g);
      BothProducts(g, blocks, pageSize);
      superBlock, superPageSize := blocks, pageSize;
      pageInSuperPage := PagesOf(g, pageSize);
    }

    // Each dimension multiplies the page or the number of blocks.
    static method MultiplyUp(g: Geometry) returns (blocks: nat, pageSize: nat)
      ensures blocks == Times4(g.block, Factor(g, Channel, false), Factor(g, Package, false), Factor(g, Die, false),
        Factor(g, Plane, false))
      ensures pageSize == Times4(g.pageSize, Factor(g, Channel, true), Factor(g, Package, true), Factor(g, Die, true),
                                 if g.multiPlane then g.plane else Factor(g, Plane, true))
    {
      hide Arithmetic.Times;
      blocks, pageSize := g.block, g.pageSize;
      if Channel in g.superblock {
        pageSize := Arithmetic.Times(pageSize, g.channel);
        Arithmetic.TimesOne(blocks);
      } else {
        blocks := Arithmetic.Times(blocks, g.channel);
        Arithmetic.TimesOne(pageSize);
      }
      ghost var page1: nat, block1: nat := Arithmetic.Times(g.pageSize, Factor(g, Channel, true)),
        Arithmetic.Times(g.block, Factor(g, Channel, false));
      assert pageSize == page1 && blocks == block1;
      if Package in g.superblock {
        pageSize := Arithmetic.Times(pageSize, g.package);
        Arithmetic.TimesOne(blocks);
      } else {
        blocks := Arithmetic.Times(blocks, g.package);
        Arithmetic.TimesOne(pageSize);
      }
      ghost var page2: nat, block2: nat := Arithmetic.Times(page1, Factor(g, Package, true)),
        Arithmetic.Times(block1, Factor(g, Package, false));
      assert pageSize == page2 && blocks == block2;
      if Die in g.superblock {
        pageSize := Arithmetic.Times(pageSize, g.die);
        Arithmetic.TimesOne(blocks);
      } else {
        blocks := Arithmetic.Times(blocks, g.die);
        Arithmetic.TimesOne(pageSize);
      }
      ghost var page3: nat, block3: nat := Arithmetic.Times(page2, Factor(g, Die, true)),
        Arithmetic.Times(block2, Factor(g, Die, false));
      assert pageSize == page3 && blocks == block3;
      if g.multiPlane || Plane in g.superblock {
        pageSize := Arithmetic.Times(pageSize, g.plane);
        Arithmetic.TimesOne(blocks);
      } else {
        blocks := Arithmetic.Times(blocks, g.plane);
        Arithmetic.TimesOne(pageSize);
      }
    }

    // The dimensions of the block index go into the address; for those spanned a pointer is kept.
    method SplitIndex(blockIndex: nat, pageIndex: nat) returns (addr: Address, ptr: seq<Dim>)
      requires g.Valid()
      ensures ptr == Inside(g)
      ensures addr == Assign(g, Address(0, 0, 0, 0, Rest(g, Outside(g), blockIndex), pageIndex), Outside(g), blockIndex)
    {
      var tmp := blockIndex;
      ghost var base := Address(0, 0, 0, 0, 0, 0);
      addr, ptr := Address(0, 0, 0, 0, 0, 0), [];
      for i := 0 to 4
        invariant ptr == Chosen(g, g.order[..i], true)
        invariant addr == Assign(g, base, Chosen(g, g.order[..i], false), blockIndex)
        invariant tmp == Rest(g, Chosen(g, g.order[..i], false), blockIndex)
      {
        var d := g.order[i];
        assert g.order[..i + 1][..i] == g.order[..i];
        AssignAppend(g, base, Chosen(g, g.order[..i], false), d, blockIndex);
        if g.Addressed(d) {
          if d in g.superblock {
            ptr := ptr + [d];
          } else {
            addr := addr.With(d, tmp % g.Size(d));
            tmp := tmp / g.Size(d);
          }
        }
      }
      assert g.order[..4] == g.order;
      AssignBlock(g, base, Outside(g), blockIndex, tmp, pageIndex);
      addr := addr.(block := tmp, page := pageIndex);
    }

    // The pages of the flash behind a page of a superblock. It panics only on an I/O flag of the wrong
    // size under the random tweak: the check at the end always passes.
    method ConvertCPDPBP(blockIndex: nat, pageIndex: nat, ioFlag: seq<bool>) returns (ok: bool, list: seq<Address>)
      requires Valid()
      ensures ok == (|ioFlag| == pageInSuperPage || !g.randomTweak)
      ensures ok ==>
        var flags := if |ioFlag| == pageInSuperPage then ioFlag else AllSet(pageInSuperPage);
        list == Expanded(g, blockIndex, pageIndex, flags, pageInSuperPage)
    {
      if g.randomTweak && |ioFlag| != pageInSuperPage {
        return false, [];
      }
      var flags := if |ioFlag| == pageInSuperPage then ioFlag else AllSet(pageInSuperPage);
      var addr, ptr := SplitIndex(blockIndex, pageIndex);
      var tmp;
      list, tmp := ExpandFlags(blockIndex, pageIndex, addr, ptr, flags);
      ok := tmp == pageInSuperPage;
    }

    static function AllSet(n: nat): seq<bool> { seq(n, _ => true) }

    // The loop nest over the spanned dimensions. The original has one nest for each number of
    // dimensions; here a missing dimension is a loop that runs once.
    method ExpandFlags(blockIndex: nat, pageIndex: nat, addr: Address, ptr: seq<Dim>, flags: seq<bool>)
      returns (list: seq<Address>, tmp: nat)
      requires Valid() && ptr == Inside(g) && |ptr| <= 4 && |flags| == pageInSuperPage
      requires addr == Assign(g, Address(0, 0, 0, 0, Rest(g, Outside(g), blockIndex), pageIndex), Outside(g),
        blockIndex)
      ensures tmp == pageInSuperPage && list == Expanded(g, blockIndex, pageIndex, flags, pageInSuperPage)
    {
      hide Assign, Product, Counter, Bounded, SetAll, Expanded;
      list, tmp := [], 0;
      var p1, p2, p3 := Tail(ptr), Tail(Tail(ptr)), Tail(Tail(Tail(ptr)));
      CounterEnds(g, ptr);
      ExpandedNone(blockIndex, pageIndex, flags);
      var i := 0;
      while i < Bound(g, p3)
        invariant i <= Bound(g, p3) && CountedTo(blockIndex, pageIndex, flags, list, tmp, [0, 0, 0, i])
      {
        var j := 0;
        while j < Bound(g, p2)
          invariant j <= Bound(g, p2) && CountedTo(blockIndex, pageIndex, flags, list, tmp, [0, 0, j, i])
        {
          var k := 0;
          while k < Bound(g, p1)
            invariant k <= Bound(g, p1) && CountedTo(blockIndex, pageIndex, flags, list, tmp, [0, k, j, i])
          {
            var l := 0;
            while l < Bound(g, ptr)
              invariant l <= Bound(g, ptr) && CountedTo(blockIndex, pageIndex, flags, list, tmp, [l, k, j, i])
            {
              InnerStep(blockIndex, pageIndex, addr, flags, list, tmp, l, k, j, i);
              if flags[tmp] {
                list := list + [SetAll(g, addr, ptr, [l, k, j, i])];
              }
              tmp := tmp + 1;
              l := l + 1;
            }
            CarryInnermost(ptr, k, j, i);
            k := k + 1;
          }
          CarryInner(ptr, j, i);
          j := j + 1;
        }
        CarryOuter(ptr, i);
        i := i + 1;
      }
    }

    ghost predicate CountedTo(blockIndex: nat, pageIndex: nat, flags: seq<bool>, list: seq<Address>, tmp: nat,
        vars: seq<nat>)
      reads this
    {
      tmp == Counter(g, Inside(g), vars) <= |flags| && list == Expanded(g, blockIndex, pageIndex, flags, tmp)
    }

    lemma {:induction false} ExpandedNone(blockIndex: nat, pageIndex: nat, flags: seq<bool>)
      ensures Expanded(g, blockIndex, pageIndex, flags, 0) == []
    {
    }

    lemma {:induction false} InnerStep(blockIndex: nat, pageIndex: nat, addr: Address, flags: seq<bool>,
        list: seq<Address>, tmp: nat,
        l: nat, k: nat, j: nat, i: nat)
      requires Valid() && |Inside(g)| <= 4 && |flags| == pageInSuperPage
      requires addr == Assign(g, Address(0, 0, 0, 0, Rest(g, Outside(g), blockIndex), pageIndex), Outside(g),
        blockIndex)
      requires var ptr := Inside(g);
        l < Bound(g, ptr) && k < Bound(g, Tail(ptr)) && j < Bound(g, Tail(Tail(ptr)))
          && i < Bound(g, Tail(Tail(Tail(ptr))))
      requires CountedTo(blockIndex, pageIndex, flags, list, tmp, [l, k, j, i])
      ensures tmp < |flags|
      ensures var more := if flags[tmp] then [SetAll(g, addr, Inside(g), [l, k, j, i])] else [];
        CountedTo(blockIndex, pageIndex, flags, list + more, tmp + 1, [l + 1, k, j, i])
    {
      var ptr, vars := Inside(g), [l, k, j, i];
      assert vars[1..] == [k, j, i] && [k, j, i][1..] == [j, i] && [j, i][1..] == [i] && [i][1..] == [];
      assert [l + 1, k, j, i][1..] == [k, j, i];
      var p1, p2, p3 := Tail(ptr), Tail(Tail(ptr)), Tail(Tail(Tail(ptr)));
      assert Bounded(g, Tail(p3), []);
      assert Bounded(g, p3, [i]);
      assert Bounded(g, p2, [j, i]);
      assert Bounded(g, p1, [k, j, i]);
      CounterBound(g, ptr, vars);
      CounterDigits(g, addr, ptr, vars);
    }

    lemma {:induction false} CarryInnermost(ptr: seq<Dim>, k: nat, j: nat, i: nat)
      ensures Counter(g, ptr, [Bound(g, ptr), k, j, i]) == Counter(g, ptr, [0, k + 1, j, i])
    {
      hide Counter;
      Carry(g, ptr, k, [j, i]);
      assert [Bound(g, ptr), k] + [j, i] == [Bound(g, ptr), k, j, i] && [0, k + 1] + [j, i] == [0, k + 1, j, i];
    }

    lemma {:induction false} CarryInner(ptr: seq<Dim>, j: nat, i: nat)
      ensures Counter(g, ptr, [0, Bound(g, Tail(ptr)), j, i]) == Counter(g, ptr, [0, 0, j + 1, i])
    {
      hide Counter;
      var s, t := [Bound(g, Tail(ptr)), j] + [i], [0, j + 1] + [i];
      Carry(g, Tail(ptr), j, [i]);
      CarryInside(g, ptr, 0, s, t);
      assert [0] + s == [0, Bound(g, Tail(ptr)), j, i] && [0] + t == [0, 0, j + 1, i];
    }

    lemma {:induction false} CarryOuter(ptr: seq<Dim>, i: nat)
      ensures Counter(g, ptr, [0, 0, Bound(g, Tail(Tail(ptr))), i]) == Counter(g, ptr, [0, 0, 0, i + 1])
    {
      hide Counter;
      var n := Bound(g, Tail(Tail(ptr)));
      var s, t := [n, i] + [], [0, i + 1] + [];
      Carry(g, Tail(Tail(ptr)), i, []);
      CarryInside(g, Tail(ptr), 0, s, t);
      CarryInside(g, ptr, 0, [0] + s, [0] + t);
      assert [0] + ([0] + s) == [0, 0, n, i] && [0] + ([0] + t) == [0, 0, 0, i + 1];
    }
  }

  // The pages of a superblock's page; under multi-plane the planes count as one.
  function PagesOf(g: Geometry, superPageSize: nat): nat {
    if g.multiPlane then superPageSize / g.pageSize / g.plane else superPageSize / g.pageSize
  }

  // What the constructor multiplies up.
  lemma {:induction false} BothProducts(g: Geometry, blocks: nat, pageSize: nat)
    requires g.Valid()
    requires blocks == Times4(g.block, Factor(g, Channel, false), Factor(g, Package, false), Factor(g, Die, false),
      Factor(g, Plane, false))
    requires pageSize == Times4(g.pageSize, Factor(g, Channel, true), Factor(g, Package, true), Factor(g, Die, true),
                                if g.multiPlane then g.plane else Factor(g, Plane, true))
    ensures blocks == g.block * Product(g, Outside(g))
    ensures var n := Product(g, Inside(g));
      && PagesOf(g, pageSize) == n
      && pageSize == g.pageSize * n * (if g.multiPlane then g.plane else 1)
  {
    ProductOfAll(g, true);
    ProductOfAll(g, false);
    hide Product, Chosen;
    var a, b, c := Factor(g, Channel, true), Factor(g, Package, true), Factor(g, Die, true);
    Arithmetic.Product4(g.block, Factor(g, Channel, false), Factor(g, Package, false), Factor(g, Die, false),
      Factor(g, Plane, false));
    if g.multiPlane {
      PagesOfPlanes(g.pageSize, a, b, c, g.plane);
    } else {
      Arithmetic.Product4(g.pageSize, a, b, c, Factor(g, Plane, true));
      Arithmetic.ExactQuotient(a * b * c * Factor(g, Plane, true), g.pageSize);
    }
  }

  lemma {:induction false} PagesOfPlanes(size: Pos, a: nat, b: nat, c: nat, plane: Pos)
    ensures var pageSize := Times4(size, a, b, c, plane);
      pageSize / size / plane == a * b * c && pageSize == size * (a * b * c) * plane
  {
    Arithmetic.Product4(size, a, b, c, plane);
    Arithmetic.ExactQuotient(a * b * c * plane, size);
    Arithmetic.ExactQuotient(a * b * c, plane);
    Arithmetic.MulAssoc(size, a * b * c, plane);
  }

  function Times4(x: nat, a: nat, b: nat, c: nat, d: nat): nat {
    Arithmetic.Times(Arithmetic.Times(Arithmetic.Times(Arithmetic.Times(x, a), b), c), d)
  }
}
