/**
  The weighted selector, `choose_weighted`: draw r in [0, total] and return the
  first item whose running prefix sum of weights has reached r, falling back to
  the last item when none has.
 */
module Selector {
  import opened Common
  import opened RandomSource
  import Catalog

  /** The sum of the first k weights: `upto` after k turns of the selector's loop. */
  function PrefixSum(ws: seq<nat>, k: nat): nat
    requires k <= |ws|
  {
    if k == 0 then 0 else PrefixSum(ws, k - 1) + ws[k - 1]
  }

  /** `sum(weights)`. */
  function Total(ws: seq<nat>): nat {
    PrefixSum(ws, |ws|)
  }

  /** Item i qualifies for draw r: the running sum including it has reached r. */
  ghost predicate Reaches(ws: seq<nat>, r: real, i: int) {
    0 <= i < |ws| && PrefixSum(ws, i + 1) as real >= r
  }

  /** Item i is the first to qualify. */
  ghost predicate FirstReaching(ws: seq<nat>, r: real, i: int) {
    Reaches(ws, r, i) && forall j :: 0 <= j < i ==> !Reaches(ws, r, j)
  }

  /** The selector's loop from turn k on, with `upto` the running sum so far. */
  function Scan(ws: seq<nat>, r: real, k: nat, upto: nat): (i: nat)
    requires 0 < |ws| && k <= |ws| && upto == PrefixSum(ws, k)
    requires forall j :: 0 <= j < k ==> !Reaches(ws, r, j)
    ensures i < |ws|
    ensures (exists j :: Reaches(ws, r, j)) ==> FirstReaching(ws, r, i)
    ensures (forall j :: !Reaches(ws, r, j)) ==> i == |ws| - 1
    decreases |ws| - k
  {
    if k == |ws| then |ws| - 1
    else if (upto + ws[k]) as real >= r then k
    else Scan(ws, r, k + 1, upto + ws[k])
  }

  /** The index `choose_weighted` returns for draw r. */
  function Choose(ws: seq<nat>, r: real): (i: nat)
    requires 0 < |ws|
    ensures i < |ws|
    ensures (exists j :: Reaches(ws, r, j)) ==> FirstReaching(ws, r, i)
    ensures (forall j :: !Reaches(ws, r, j)) ==> i == |ws| - 1
  {
    Scan(ws, r, 0, 0)
  }

  /** The item `choose_weighted` returns for draw r; None stands for the IndexError of `items[-1]` on an empty list. */
  function Pick(fs: seq<Catalog.Facility>, r: real): (p: Option<string>)
    ensures p.None? <==> |fs| == 0
    ensures p.Some? ==> p.value in Catalog.Ids(fs)
  {
    if |fs| == 0 then None
    else
      var i := Choose(Catalog.Weights(fs), r);
      assert Catalog.Ids(fs)[i] == fs[i].id;
      Some(fs[i].id)
  }

  /**
    `choose_weighted(rng, items, weights)` as written: one `uniform(0, total)` draw,
    then the running-sum loop with its fallback to the last item.
   */
  method ChooseWeighted<S(!new)>(g: Generator<S>, fs: seq<Catalog.Facility>, s: S) returns (p: Option<string>, s': S)
    requires Valid(g)
    ensures s' == g.uniform(s, 0.0, Total(Catalog.Weights(fs)) as real).1
    ensures p == Pick(fs, g.uniform(s, 0.0, Total(Catalog.Weights(fs)) as real).0)
  {
    var ws := Catalog.Weights(fs);
    var draw := g.uniform(s, 0.0, Total(ws) as real);
    var r := draw.0;
    s' := draw.1;
    var upto: nat := 0;
    var k := 0;
    while k < |fs|
      invariant k <= |fs|
      invariant upto == PrefixSum(ws, k)
      invariant forall j :: 0 <= j < k ==> !Reaches(ws, r, j)
    {
      upto := upto + fs[k].weight;
      if upto as real >= r {
        assert FirstReaching(ws, r, k);
        return Some(fs[k].id), s';
      }
      k := k + 1;
    }
    if |fs| == 0 {
      return None, s';
    }
    return Some(fs[|fs| - 1].id), s';
  }

  lemma {:induction false} PrefixSumMonotone(ws: seq<nat>, i: nat, j: nat)
    requires i <= j <= |ws|
    ensures PrefixSum(ws, i) <= PrefixSum(ws, j)
    decreases j - i
  {
    if i < j {
      PrefixSumMonotone(ws, i, j - 1);
    }
  }

  /** Some item qualifies exactly when the draw does not exceed the total: in exact arithmetic the fallback needs r > total. */
  lemma FallbackNeedsDrawAboveTotal(ws: seq<nat>, r: real)
    requires 0 < |ws|
    ensures (exists j :: Reaches(ws, r, j)) <==> r <= Total(ws) as real
  {
    if exists j :: Reaches(ws, r, j) {
      var j :| Reaches(ws, r, j);
      PrefixSumMonotone(ws, j + 1, |ws|);
    } else {
      assert !Reaches(ws, r, |ws| - 1);
    }
  }

  /** For a positive draw within the total, the chosen item's interval (PrefixSum(i), PrefixSum(i+1)] contains the draw. */
  lemma ChosenIntervalContainsDraw(ws: seq<nat>, r: real)
    requires 0 < |ws| && 0.0 < r <= Total(ws) as real
    ensures PrefixSum(ws, Choose(ws, r)) as real < r <= PrefixSum(ws, Choose(ws, r) + 1) as real
  {
    FallbackNeedsDrawAboveTotal(ws, r);
    var i := Choose(ws, r);
    if i > 0 {
      assert !Reaches(ws, r, i - 1);
    }
  }

  /** Conversely, a draw inside item i's interval selects item i: the chance of i is its weight over the total. */
  lemma DrawInIntervalSelects(ws: seq<nat>, r: real, i: nat)
    requires i < |ws| && PrefixSum(ws, i) as real < r <= PrefixSum(ws, i + 1) as real
    ensures Choose(ws, r) == i
  {
    assert Reaches(ws, r, i);
    forall j | 0 <= j < i
      ensures !Reaches(ws, r, j)
    {
      PrefixSumMonotone(ws, j + 1, i);
    }
  }

  /** A facility of weight 0 is chosen only when the draw is exactly 0. */
  lemma ZeroWeightNeverChosen(ws: seq<nat>, r: real)
    requires 0 < |ws| && 0.0 < r <= Total(ws) as real
    ensures ws[Choose(ws, r)] > 0
  {
    ChosenIntervalContainsDraw(ws, r);
  }
}
