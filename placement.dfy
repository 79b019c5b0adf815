/**
 * Placement of the groups at initialization, as values: the spacing test of the
 * rejection sampling that places the group centers, the centers it accepts from a
 * stream of candidate cells, and the list of strategies built from the proportions
 * (whole quotas first, then random fill choices up to the number of groups).
 */
module Placement {
  import opened Config
  import opened Grid
  import opened Shortfall
  import RealFacts

  /** The spacing test: a candidate is far enough from the accepted centers when its
      distance to each is at least min(width, height) / (sqrt(n) * 1.5). Squaring both
      sides, that is 9 * d^2 * n >= 4 * side^2 for the squared distance d^2. */
  predicate FarEnough(c: Cell, centers: seq<Cell>, n: int, side: int)
  {
    forall i :: 0 <= i < |centers| ==> ApartBy(c, centers[i], n, side)
  }

  /** The spacing test for one pair of cells. */
  predicate ApartBy(a: Cell, b: Cell, n: int, side: int)
  {
    9 * SqDist(a, b) * n >= 4 * side * side
  }

  /** The centers accepted from the first k candidates: a candidate is accepted while
      fewer than n are accepted and it passes the spacing test. */
  function Spaced(cells: nat -> Cell, k: nat, n: int, side: int): (acc: seq<Cell>)
    ensures |acc| <= k
    ensures n >= 0 ==> |acc| <= n
    ensures Drawn(cells, acc, k)
  {
    if k == 0 then []
    else
      var prev := Spaced(cells, k - 1, n, side);
      FromEarlier(cells, prev, k - 1);
      if |prev| < n && FarEnough(cells(k - 1), prev, n, side) then
        assert forall i :: 0 <= i < |prev| ==> (prev + [cells(k - 1)])[i] == prev[i];
        assert Candidates(cells, k)[k - 1] == cells(k - 1);
        prev + [cells(k - 1)]
      else prev
  }

  /** The first k candidate cells, in draw order. */
  function Candidates(cells: nat -> Cell, k: nat): (cs: seq<Cell>)
    ensures |cs| == k && forall j :: 0 <= j < k ==> cs[j] == cells(j)
  {
    seq(k, j requires 0 <= j => cells(j))
  }

  /** Every cell of acc is one of the first k candidates. */
  predicate Drawn(cells: nat -> Cell, acc: seq<Cell>, k: nat)
  {
    forall i :: 0 <= i < |acc| ==> acc[i] in Candidates(cells, k)
  }

  /** Cells drawn among the first k candidates are drawn among the first k + 1. */
  lemma FromEarlier(cells: nat -> Cell, acc: seq<Cell>, k: nat)
    requires Drawn(cells, acc, k)
    ensures Drawn(cells, acc, k + 1)
  {
    assert Candidates(cells, k + 1) == Candidates(cells, k) + [cells(k)];
  }

  /** Every center is far enough from every center before it. */
  predicate PairwiseApart(acc: seq<Cell>, n: int, side: int)
  {
    forall i, j :: 0 <= i < j < |acc| ==> ApartBy(acc[j], acc[i], n, side)
  }

  lemma AppendApart(prev: seq<Cell>, c: Cell, n: int, side: int)
    requires PairwiseApart(prev, n, side) && FarEnough(c, prev, n, side)
    ensures PairwiseApart(prev + [c], n, side)
  {
    var acc := prev + [c];
    forall i, j | 0 <= i < j < |acc|
      ensures ApartBy(acc[j], acc[i], n, side)
    {
      assert acc[i] == prev[i];
      if j < |prev| {
        assert acc[j] == prev[j];
      }
    }
  }

  /** Every accepted center is far enough from every center accepted before it. */
  lemma {:induction false} SpacedApart(cells: nat -> Cell, k: nat, n: int, side: int)
    ensures PairwiseApart(Spaced(cells, k, n, side), n, side)
  {
    if k > 0 {
      var prev := Spaced(cells, k - 1, n, side);
      SpacedApart(cells, k - 1, n, side);
      if |prev| < n && FarEnough(cells(k - 1), prev, n, side) {
        AppendApart(prev, cells(k - 1), n, side);
      }
    }
  }

  /** Accepting stops for good once n centers are accepted. */
  lemma {:induction false} SpacedSaturates(cells: nat -> Cell, k: nat, k': nat, n: int, side: int)
    requires k <= k'
    requires |Spaced(cells, k, n, side)| == n
    ensures Spaced(cells, k', n, side) == Spaced(cells, k, n, side)
    decreases k' - k
  {
    if k < k' {
      SpacedSaturates(cells, k, k' - 1, n, side);
    }
  }

  /** Python's `[strategy] * int(n * prop)`: the whole number of copies, none when
      the product truncates to zero or below. */
  function Quota(n: int, prop: real): (k: nat)
    ensures n >= 0 && prop >= 0.0 ==> k as real <= n as real * prop
  {
    var t := Trunc(n as real * prop);
    if t > 0 then t else 0
  }

  /** The proportions used when none are given: an even split between the strategies. */
  function DefaultProportions(): seq<(Strategy, real)>
  {
    [(CostlySignaling, 0.5), (HighReproduction, 0.5)]
  }

  /** The given proportions, or the even split when none are given. */
  function Proportions(given: Option<seq<(Strategy, real)>>): seq<(Strategy, real)>
  {
    if given.Some? then given.value else DefaultProportions()
  }

  /** With the even split, n groups get n / 2 signaling and n / 2 reproduction
      strategies from the quotas and, for odd n, one random fill choice. */
  lemma DefaultSplitsEvenly(n: int)
    requires n >= 0
    ensures BaseStrategies(DefaultProportions(), n) == seq(n / 2, _ => CostlySignaling) + seq(n / 2, _ => HighReproduction)
    ensures FillCount(DefaultProportions(), n) == n % 2
    ensures TotalProportion(DefaultProportions()) == 1.0
  {
    var h := n / 2;
    assert n == 2 * h + n % 2;
    assert h as real <= n as real * 0.5 < h as real + 1.0;
    assert Quota(n, 0.5) == h;
    var props := DefaultProportions();
    assert props[..1] == [(CostlySignaling, 0.5)];
    assert props[..1][..0] == [];
    assert BaseStrategies(props[..1], n) == [] + seq(h, _ => CostlySignaling);
    assert BaseStrategies(props, n) == BaseStrategies(props[..1], n) + seq(h, _ => HighReproduction);
  }

  /** The strategies before the fill: each entry's quota of copies, in entry order. */
  function BaseStrategies(props: seq<(Strategy, real)>, n: int): (base: seq<Strategy>)
  {
    if |props| == 0 then []
    else
      var last := props[|props| - 1];
      BaseStrategies(props[..|props| - 1], n) + seq(Quota(n, last.1), _ => last.0)
  }

  /** How many random choices complete the list to n entries. */
  function FillCount(props: seq<(Strategy, real)>, n: int): (m: nat)
    ensures |BaseStrategies(props, n)| + m == if n > |BaseStrategies(props, n)| then n else |BaseStrategies(props, n)|
    ensures n <= 0 ==> m == 0
  {
    var b := |BaseStrategies(props, n)|;
    if n > b then n - b else 0
  }

  /** The first m fill choices: the k-th is the strategy of entry pick(k). */
  function Fill(props: seq<(Strategy, real)>, pick: nat -> nat, m: nat): (fill: seq<Strategy>)
    requires forall k :: 0 <= k < m ==> pick(k) < |props|
    ensures |fill| == m
    ensures forall k :: 0 <= k < m ==> fill[k] == props[pick(k)].0
  {
    if m == 0 then [] else Fill(props, pick, m - 1) + [props[pick(m - 1)].0]
  }

  /** The strategy list before the shuffle. */
  function StrategySpec(props: seq<(Strategy, real)>, n: int, pick: nat -> nat): seq<Strategy>
    requires forall k :: 0 <= k < FillCount(props, n) ==> pick(k) < |props|
  {
    BaseStrategies(props, n) + Fill(props, pick, FillCount(props, n))
  }

  /** The sum of the proportions. */
  function TotalProportion(props: seq<(Strategy, real)>): real
  {
    if |props| == 0 then 0.0 else TotalProportion(props[..|props| - 1]) + props[|props| - 1].1
  }

  /** With non-negative proportions, the quotas add up to at most n times their sum. */
  lemma {:induction false} BaseWithinShare(props: seq<(Strategy, real)>, n: int)
    requires n >= 0
    requires forall i :: 0 <= i < |props| ==> props[i].1 >= 0.0
    ensures |BaseStrategies(props, n)| as real <= n as real * TotalProportion(props)
  {
    if |props| > 0 {
      var init, last := props[..|props| - 1], props[|props| - 1];
      BaseWithinShare(init, n);
      assert n as real * TotalProportion(props) == n as real * TotalProportion(init) + n as real * last.1;
    }
  }

  /** With non-negative proportions summing to at most one the list has exactly n
      entries, and every entry is the strategy of some proportion entry. */
  lemma StrategyListShape(props: seq<(Strategy, real)>, n: int, pick: nat -> nat)
    requires n >= 0
    requires forall k :: 0 <= k < FillCount(props, n) ==> pick(k) < |props|
    requires forall i :: 0 <= i < |props| ==> props[i].1 >= 0.0
    requires TotalProportion(props) <= 1.0
    ensures |StrategySpec(props, n, pick)| == n
    ensures forall s :: s in StrategySpec(props, n, pick) ==> exists i :: 0 <= i < |props| && props[i].0 == s
  {
    BaseWithinCount(props, n);
    BaseEntries(props, n);
    var base, fill := BaseStrategies(props, n), Fill(props, pick, FillCount(props, n));
    forall s | s in StrategySpec(props, n, pick)
      ensures exists i :: 0 <= i < |props| && props[i].0 == s
    {
      if s !in base {
        var k :| 0 <= k < |fill| && fill[k] == s;
        assert props[pick(k)].0 == s;
      }
    }
  }

  /** With non-negative proportions summing to at most one the quotas leave room
      for the fill: they add up to at most n. */
  lemma BaseWithinCount(props: seq<(Strategy, real)>, n: int)
    requires n >= 0
    requires forall i :: 0 <= i < |props| ==> props[i].1 >= 0.0
    requires TotalProportion(props) <= 1.0
    ensures |BaseStrategies(props, n)| <= n
  {
    BaseWithinShare(props, n);
    var b, share := |BaseStrategies(props, n)|, TotalProportion(props);
    assert b as real <= n as real * share;
    WithinWholeShare(b, n, share);
  }

  /** A count within n times a share of at most one is at most n. */
  lemma WithinWholeShare(b: nat, n: int, share: real)
    requires n >= 0 && share <= 1.0 && b as real <= n as real * share
    ensures b <= n
  {
    RealFacts.ScaleMonotone(share, 1.0, n as real);
    assert n as real * share == share * n as real;
  }

  /** Every base entry is the strategy of some proportion entry. */
  lemma {:induction false} BaseEntries(props: seq<(Strategy, real)>, n: int)
    ensures forall s :: s in BaseStrategies(props, n) ==> exists i :: 0 <= i < |props| && props[i].0 == s
  {
    if |props| > 0 {
      var init := props[..|props| - 1];
      BaseEntries(init, n);
      forall s | s in BaseStrategies(props, n)
        ensures exists i :: 0 <= i < |props| && props[i].0 == s
      {
        if s in BaseStrategies(init, n) {
          var i :| 0 <= i < |init| && init[i].0 == s;
          assert props[i] == init[i];
        } else {
          assert props[|props| - 1].0 == s;
        }
      }
    }
  }
}
