/** Choosing a validator with probability proportional to its weight. */
module Selection {
  import opened Types

  /** The true sum of the first n weights. */
  function Prefix(ws: seq<nat>, n: nat): nat
    requires n <= |ws|
  {
    if n == 0 then 0 else Prefix(ws, n - 1) + ws[n - 1]
  }

  function Total(ws: seq<nat>): nat { Prefix(ws, |ws|) }

  lemma {:induction false} PrefixGrows(ws: seq<nat>, i: nat, j: nat)
    requires i <= j <= |ws|
    ensures Prefix(ws, i) <= Prefix(ws, j)
  {
    if i < j { PrefixGrows(ws, i, j - 1); }
  }

  // ---------- the selection loop, with 64-bit sums ----------

  datatype Outcome = DivisionByZero | Selected(index: nat, weight: uint64, score: uint64)

  function Weights(addresses: seq<string>, weightOf: string -> uint64): (ws: seq<nat>)
    ensures |ws| == |addresses| && forall i :: 0 <= i < |ws| ==> ws[i] == weightOf(addresses[i])
  {
    seq(|addresses|, i requires 0 <= i < |addresses| => weightOf(addresses[i]))
  }

  /** The running sum as the loops hold it. */
  function Wrapped(ws: seq<nat>, n: nat): uint64
    requires n <= |ws|
  {
    Prefix(ws, n) % TWO_64
  }

  predicate Reaches(ws: seq<nat>, target: nat, i: nat)
    requires i < |ws|
  {
    Wrapped(ws, i + 1) >= target
  }

  /** The first validator at which the running sum reaches the target. */
  ghost predicate FirstReaching(ws: seq<nat>, target: nat, i: nat) {
    && i < |ws| && Reaches(ws, target, i)
    && forall j :: 0 <= j < i ==> !Reaches(ws, target, j)
  }

  lemma {:induction false} WrappedStep(ws: seq<nat>, i: nat)
    requires i < |ws| && ws[i] < TWO_64
    ensures Wrapped(ws, i + 1) == Add64(Wrapped(ws, i), ws[i])
  {
    AddAfterWrap(Prefix(ws, i), ws[i]);
  }

  /** Even if the sum of the weights wraps: a validator is selected exactly when the wrapped sum is not zero. */
  method WeightedSelection(addresses: seq<string>, weightOf: string -> uint64, random: uint64) returns (r: Outcome)
    ensures var ws := Weights(addresses, weightOf);
      var total := Wrapped(ws, |ws|);
      && (r.DivisionByZero? <==> total == 0)
      && (r.Selected? ==>
            && FirstReaching(ws, random % total, r.index)
            && r.weight == ws[r.index] && r.score == Wrapped(ws, r.index + 1))
  {
    ghost var ws := Weights(addresses, weightOf);
    var weights: map<string, uint64> := map[];
    var totalWeight: uint64 := 0;
    for i := 0 to |addresses|
      invariant totalWeight == Wrapped(ws, i)
      invariant forall j :: 0 <= j < i ==> addresses[j] in weights
      invariant forall a :: a in weights ==> weights[a] == weightOf(a)
    {
      WrappedStep(ws, i);
      var weight := weightOf(addresses[i]);
      weights := weights[addresses[i] := weight];
      totalWeight := Add64(totalWeight, weight);
    }
    if totalWeight == 0 {
      return DivisionByZero;
    }
    var target := random % totalWeight;
    var cumulative: uint64 := 0;
    for i := 0 to |addresses|
      invariant cumulative == Wrapped(ws, i)
      invariant forall j :: 0 <= j < i ==> !Reaches(ws, target, j)
    {
      WrappedStep(ws, i);
      cumulative := Add64(cumulative, weights[addresses[i]]);
      if cumulative >= target {
        return Selected(i, weights[addresses[i]], cumulative);
      }
    }
    SomeoneReaches(ws, target);
    assert false;
  }

  lemma {:induction false} SomeoneReaches(ws: seq<nat>, target: nat)
    requires target < Wrapped(ws, |ws|)
    ensures |ws| > 0 && Reaches(ws, target, |ws| - 1)
  {
  }

  // ---------- how often each validator is picked ----------

  /** The validator picked for a target below the total. */
  function Pick(ws: seq<nat>, target: nat): nat { PickFrom(ws, target, 0) }

  function PickFrom(ws: seq<nat>, target: nat, i: nat): nat
    decreases |ws| - i
  {
    if i >= |ws| || Prefix(ws, i + 1) >= target then i else PickFrom(ws, target, i + 1)
  }

  /** The targets that pick validator i: one open interval of the running sum, and 0 for the first. */
  predicate Hits(ws: seq<nat>, i: nat, target: nat)
    requires i < |ws|
  {
    (i == 0 || Prefix(ws, i) < target) && target <= Prefix(ws, i + 1)
  }

  lemma {:induction false} PickFromIff(ws: seq<nat>, target: nat, from: nat, i: nat)
    requires from <= i < |ws| && target < Total(ws)
    requires from > 0 ==> Prefix(ws, from) < target
    ensures PickFrom(ws, target, from) == i <==> Hits(ws, i, target)
    ensures PickFrom(ws, target, from) < |ws|
    decreases |ws| - from
  {
    if Prefix(ws, from + 1) >= target {
      if from < i { PrefixGrows(ws, from + 1, i); }
    } else {
      if from + 1 == |ws| {
        assert false;
      }
      if i == from {
        PickFromIff(ws, target, from + 1, from + 1);
        PickIsLater(ws, target, from + 1);
      } else {
        PickFromIff(ws, target, from + 1, i);
      }
    }
  }

  lemma {:induction false} PickIsLater(ws: seq<nat>, target: nat, from: nat)
    ensures PickFrom(ws, target, from) >= from
    decreases |ws| - from
  {
    if from < |ws| && Prefix(ws, from + 1) < target { PickIsLater(ws, target, from + 1); }
  }

  /** When nothing wraps, the loop picks what Pick says. */
  lemma {:induction false} LoopPicks(ws: seq<nat>, target: nat, i: nat)
    requires target < Total(ws) < TWO_64 && FirstReaching(ws, target, i)
    ensures i == Pick(ws, target)
  {
    PrefixGrows(ws, i + 1, |ws|);
    PrefixGrows(ws, i, |ws|);
    if i > 0 { assert !Reaches(ws, target, i - 1); }
    PickFromIff(ws, target, 0, i);
  }

  /** How many targets below n pick validator i. */
  function Count(ws: seq<nat>, i: nat, n: nat): nat {
    if n == 0 then 0 else Count(ws, i, n - 1) + if Pick(ws, n - 1) == i then 1 else 0
  }

  lemma {:induction false} CountInterval(ws: seq<nat>, i: nat, n: nat)
    requires i < |ws| && n <= Total(ws)
    ensures var lo, hi := if i == 0 then 0 else Prefix(ws, i) + 1, Prefix(ws, i + 1) + 1;
      Count(ws, i, n) == if n <= lo then 0 else if n <= hi then n - lo else hi - lo
  {
    if n > 0 {
      CountInterval(ws, i, n - 1);
      PickFromIff(ws, n - 1, 0, i);
    }
  }

  /** The share of a validator: its weight, plus one for the first, less one for the last that has any weight. */
  function Share(ws: seq<nat>, i: nat): int
    requires i < |ws|
  {
    ws[i] + (if i == 0 then 1 else 0) - (if EndsTotal(ws, i) then 1 else 0)
  }

  /** The running sum is complete at i and was not before: i is the last validator with weight. */
  predicate EndsTotal(ws: seq<nat>, i: nat)
    requires i < |ws|
  {
    Prefix(ws, i + 1) == Total(ws) && ws[i] > 0
  }

  /** Over all targets below the total, each validator is picked exactly its share of times. */
  lemma {:induction false} CountIsShare(ws: seq<nat>, i: nat)
    requires i < |ws| && Total(ws) > 0
    ensures Count(ws, i, Total(ws)) == Share(ws, i)
    ensures -1 <= Count(ws, i, Total(ws)) - ws[i] <= 1
    ensures ws[i] == 0 && i > 0 ==> Count(ws, i, Total(ws)) == 0
  {
    CountInterval(ws, i, Total(ws));
    PrefixGrows(ws, i + 1, |ws|);
  }

  function CountSum(ws: seq<nat>, n: nat, m: nat): nat
    requires m <= |ws|
  {
    if m == 0 then 0 else CountSum(ws, n, m - 1) + Count(ws, m - 1, n)
  }

  lemma {:induction false} CountSumStep(ws: seq<nat>, n: nat, m: nat)
    requires m <= |ws|
    ensures CountSum(ws, n + 1, m) == CountSum(ws, n, m) + if Pick(ws, n) < m then 1 else 0
  {
    if m > 0 { CountSumStep(ws, n, m - 1); }
  }

  lemma {:induction false} CountSumOfNone(ws: seq<nat>, m: nat)
    requires m <= |ws|
    ensures CountSum(ws, 0, m) == 0
  {
    if m > 0 { CountSumOfNone(ws, m - 1); }
  }

  /** Every target picks exactly one validator: the counts add up to the number of targets. */
  lemma {:induction false} CountsAddUp(ws: seq<nat>, n: nat)
    requires n <= Total(ws)
    ensures CountSum(ws, n, |ws|) == n
  {
    if n == 0 {
      CountSumOfNone(ws, |ws|);
    } else {
      CountsAddUp(ws, n - 1);
      CountSumStep(ws, n - 1, |ws|);
      PickFromIff(ws, n - 1, 0, 0);
    }
  }
}
