// Greedy victim selection: the full blocks with the fewest valid units.
module VictimSelection {
  import opened Blocks
  import opened MappingTable
  import opened Collections

  datatype Weight = Weight(block: nat, valid: nat)

  predicate Ascending(w: seq<Weight>) {
    forall j, k | 0 <= j < k < |w| :: w[j].valid <= w[k].valid
  }

  predicate DistinctBlocks(w: seq<Weight>) {
    forall j, k | 0 <= j < k < |w| :: w[j].block != w[k].block
  }

  // Behind every weight not above x's.
  function PlaceOf(w: seq<Weight>, x: Weight): (k: nat)
    requires Ascending(w)
    ensures k <= |w|
    ensures forall i | 0 <= i < k :: w[i].valid <= x.valid
    ensures forall i | k <= i < |w| :: x.valid < w[i].valid
  {
    if |w| == 0 || w[|w| - 1].valid <= x.valid then |w| else PlaceOf(w[..|w| - 1], x)
  }

  function InsertByWeight(w: seq<Weight>, x: Weight): seq<Weight>
    requires Ascending(w)
  {
    w[..PlaceOf(w, x)] + [x] + w[PlaceOf(w, x)..]
  }

  lemma {:induction false} Inserted(w: seq<Weight>, x: Weight, i: nat)
    requires Ascending(w) && i <= |w|
    ensures var r, k := InsertByWeight(w, x), PlaceOf(w, x);
      |r| == |w| + 1 && r[i] == if i < k then w[i] else if i == k then x else w[i - 1]
  {
  }

  lemma {:induction false} InsertSorts(w: seq<Weight>, x: Weight)
    requires Ascending(w)
    ensures Ascending(InsertByWeight(w, x))
    ensures multiset(InsertByWeight(w, x)) == multiset(w) + multiset{x}
  {
    var r := InsertByWeight(w, x);
    forall i, j | 0 <= i < j < |r| ensures r[i].valid <= r[j].valid {
      Inserted(w, x, i);
      Inserted(w, x, j);
    }
    assert w == w[..PlaceOf(w, x)] + w[PlaceOf(w, x)..];
  }

  lemma {:induction false} InsertKeepsDistinct(w: seq<Weight>, x: Weight)
    requires Ascending(w) && DistinctBlocks(w) && forall y | y in w :: y.block != x.block
    ensures DistinctBlocks(InsertByWeight(w, x))
  {
    var r := InsertByWeight(w, x);
    forall i, j | 0 <= i < j < |r| ensures r[i].block != r[j].block {
      Inserted(w, x, i);
      Inserted(w, x, j);
    }
  }

  // std::sort by weight.
  function SortByWeight(w: seq<Weight>): (r: seq<Weight>)
    ensures Ascending(r) && multiset(r) == multiset(w)
    ensures DistinctBlocks(w) ==> DistinctBlocks(r)
  {
    if |w| == 0 then []
    else
      var rest := SortByWeight(w[1..]);
      SortStep(w, rest);
      InsertByWeight(rest, w[0])
  }

  lemma {:induction false} SortStep(w: seq<Weight>, rest: seq<Weight>)
    requires |w| > 0 && Ascending(rest) && multiset(rest) == multiset(w[1..])
    requires DistinctBlocks(w[1..]) ==> DistinctBlocks(rest)
    ensures Ascending(InsertByWeight(rest, w[0])) && multiset(InsertByWeight(rest, w[0])) == multiset(w)
    ensures DistinctBlocks(w) ==> DistinctBlocks(InsertByWeight(rest, w[0]))
  {
    InsertSorts(rest, w[0]);
    assert w == [w[0]] + w[1..];
    if DistinctBlocks(w) {
      forall y | y in rest ensures y.block != w[0].block {
        assert y in multiset(rest);
        var i :| 0 <= i < |w| - 1 && w[1..][i] == y;
        assert w[i + 1] == y;
      }
      InsertKeepsDistinct(rest, w[0]);
    }
  }

  ghost function FullBlocks(c: Config, blocks: map<nat, BlockState>): set<nat> {
    set b | b in blocks && Full(blocks[b], c.pagesInBlock)
  }

  // The weights of the full blocks among `ids`.
  ghost predicate WeightsOf(c: Config, blocks: map<nat, BlockState>, ids: set<nat>, w: seq<Weight>) {
    && DistinctBlocks(w)
    && (forall x | x in w ::
          x.block in ids && x.block in FullBlocks(c, blocks) && x.valid == |ValidUnits(blocks[x.block])|)
    && (forall b | b in ids && b in FullBlocks(c, blocks) :: exists x :: x in w && x.block == b)
  }

  // The blocks of the map in some order: an unordered map promises none.
  method CalculateVictimWeight(c: Config, blocks: map<nat, BlockState>) returns (weight: seq<Weight>)
    ensures WeightsOf(c, blocks, blocks.Keys, weight)
  {
    weight := [];
    var rest := blocks.Keys;
    while rest != {}
      invariant rest <= blocks.Keys
      invariant WeightsOf(c, blocks, blocks.Keys - rest, weight)
      decreases rest
    {
      var b :| b in rest;
      if MaxOf(blocks[b].next) == c.pagesInBlock {
        WeightsGrow(c, blocks, blocks.Keys - rest, weight, b);
        weight := weight + [Weight(b, |ValidUnits(blocks[b])|)];
      }
      assert blocks.Keys - (rest - {b}) == blocks.Keys - rest + {b};
      rest := rest - {b};
    }
    assert blocks.Keys - {} == blocks.Keys;
  }

  lemma {:induction false} WeightsGrow(c: Config, blocks: map<nat, BlockState>, ids: set<nat>, w: seq<Weight>, b: nat)
    requires WeightsOf(c, blocks, ids, w) && b !in ids && b in FullBlocks(c, blocks)
    ensures WeightsOf(c, blocks, ids + {b}, w + [Weight(b, |ValidUnits(blocks[b])|)])
  {
    var r := w + [Weight(b, |ValidUnits(blocks[b])|)];
    forall d | d in ids + {b} && d in FullBlocks(c, blocks) ensures exists x :: x in r && x.block == d {
      if d == b {
        assert r[|w|].block == b;
      } else {
        var x :| x in w && x.block == d;
        assert x in r;
      }
    }
  }

  // Victims are full, distinct, as many as asked for or all there are, and no full block left
  // out has fewer valid units than a victim.
  ghost predicate Lightest(c: Config, blocks: map<nat, BlockState>, list: seq<nat>, nBlocks: nat) {
    && Victims(c, blocks, list)
    && |list| == (if nBlocks < |FullBlocks(c, blocks)| then nBlocks else |FullBlocks(c, blocks)|)
    && forall v, b | v in list && b in FullBlocks(c, blocks) && b !in list ::
         v in blocks && |ValidUnits(blocks[v])| <= |ValidUnits(blocks[b])|
  }

  lemma {:induction false} WeightsInit(c: Config, blocks: map<nat, BlockState>, ids: set<nat>, w: seq<Weight>)
    requires WeightsOf(c, blocks, ids, w) && |w| > 0
    ensures var x, init := w[|w| - 1], w[..|w| - 1];
      && WeightsOf(c, blocks, ids - {x.block}, init) && x.block in ids * FullBlocks(c, blocks)
  {
    var x, init := w[|w| - 1], w[..|w| - 1];
    assert w == init + [x];
    forall y | y in init ensures y.block != x.block {
    }
  }

  lemma {:induction false} WeightCount(c: Config, blocks: map<nat, BlockState>, ids: set<nat>, w: seq<Weight>)
    requires WeightsOf(c, blocks, ids, w)
    ensures |w| == |ids * FullBlocks(c, blocks)|
    decreases |w|
  {
    if |w| == 0 {
      assert ids * FullBlocks(c, blocks) == {};
    } else {
      hide WeightsOf, FullBlocks;
      var x := w[|w| - 1];
      WeightsInit(c, blocks, ids, w);
      WeightCount(c, blocks, ids - {x.block}, w[..|w| - 1]);
      assert (ids - {x.block}) * FullBlocks(c, blocks) == ids * FullBlocks(c, blocks) - {x.block};
    }
  }

  lemma {:induction false} FirstAreLightest(c: Config, blocks: map<nat, BlockState>, w: seq<Weight>, n: nat,
      list: seq<nat>)
    requires WeightsOf(c, blocks, blocks.Keys, w) && Ascending(w) && n <= |w|
    requires |list| == n && forall i | 0 <= i < n :: list[i] == w[i].block
    ensures Victims(c, blocks, list)
    ensures forall v, b | v in list && b in FullBlocks(c, blocks) && b !in list ::
      v in blocks && |ValidUnits(blocks[v])| <= |ValidUnits(blocks[b])|
  {
    forall k | 0 <= k < n ensures list[k] in blocks && Full(blocks[list[k]], c.pagesInBlock) {
      assert w[k] in w;
    }
    forall v, b | v in list && b in FullBlocks(c, blocks) && b !in list
      ensures v in blocks && |ValidUnits(blocks[v])| <= |ValidUnits(blocks[b])|
    {
      var i :| 0 <= i < n && list[i] == v;
      var x :| x in w && x.block == b;
      var j :| 0 <= j < |w| && w[j] == x;
      assert w[i] in w;
      assert n <= j;
    }
  }

  // selectVictimBlock under the greedy policy, with nBlocks already decided.
  method SelectVictimBlock(c: Config, blocks: map<nat, BlockState>, nBlocks: nat) returns (list: seq<nat>)
    ensures Lightest(c, blocks, list, nBlocks)
  {
    hide WeightsOf, FullBlocks;
    var weight := CalculateVictimWeight(c, blocks);
    SortedWeights(c, blocks, weight);
    weight := SortByWeight(weight);
    WeightCount(c, blocks, blocks.Keys, weight);
    FullAreInUse(c, blocks);
    var n := if nBlocks < |weight| then nBlocks else |weight|;
    list := [];
    for i := 0 to n
      invariant |list| == i && forall k | 0 <= k < i :: list[k] == weight[k].block
    {
      list := list + [weight[i].block];
    }
    FirstAreLightest(c, blocks, weight, n, list);
  }

  lemma {:induction false} FullAreInUse(c: Config, blocks: map<nat, BlockState>)
    ensures blocks.Keys * FullBlocks(c, blocks) == FullBlocks(c, blocks)
  {
  }

  lemma {:induction false} SortedWeights(c: Config, blocks: map<nat, BlockState>, w: seq<Weight>)
    requires WeightsOf(c, blocks, blocks.Keys, w)
    ensures WeightsOf(c, blocks, blocks.Keys, SortByWeight(w))
  {
    forall x ensures x in SortByWeight(w) <==> x in w {
      assert x in multiset(SortByWeight(w)) <==> x in multiset(w);
    }
    forall b | b in FullBlocks(c, blocks) ensures exists x :: x in SortByWeight(w) && x.block == b {
      var x :| x in w && x.block == b;
      assert x in SortByWeight(w);
    }
  }
}
