/**
 * The choice GetHost makes, as a function of the sorted eligible hosts, their weights and the two fields of
 * the shared record it depends on, and the schedule it produces over many calls.
 */
module RoundRobinSchedule {

  import opened Options

  // The two fields of the record that one call reads and the next call finds changed.
  datatype Turn = Turn(lastHost: Option<string>, weightCounter: int)

  const FRESH := Turn(None, 0)

  // The last index that holds the name, as the search loop leaves it, or -1.
  function LastIndexOf(names: seq<string>, name: string): (i: int)
    ensures -1 <= i < |names|
    ensures i >= 0 ==> names[i] == name
    ensures forall k :: i < k < |names| ==> names[k] != name
  {
    if names == [] then -1
    else if names[|names| - 1] == name then |names| - 1
    else LastIndexOf(names[..|names| - 1], name)
  }

  function LastHostIndex(names: seq<string>, turn: Turn): (i: int)
    ensures -1 <= i < |names|
  {
    if turn.lastHost.Some? then LastIndexOf(names, turn.lastHost.value) else -1
  }

  predicate KeepsTurn(names: seq<string>, turn: Turn) { turn.weightCounter > 0 && LastHostIndex(names, turn) != -1 }

  function Target(names: seq<string>, turn: Turn): (i: nat)
    requires names != []
    ensures i < |names|
  {
    var last := LastHostIndex(names, turn);
    if KeepsTurn(names, turn) then last else if last != -1 && last != |names| - 1 then last + 1 else 0
  }

  function NextTurn(names: seq<string>, weights: seq<int>, turn: Turn): Turn
    requires names != [] && |weights| == |names|
  {
    var target := Target(names, turn);
    Turn(Some(names[target]), (if KeepsTurn(names, turn) then turn.weightCounter else weights[target]) - 1)
  }

  function TurnAfter(names: seq<string>, weights: seq<int>, n: nat): Turn
    requires names != [] && |weights| == |names|
  {
    if n == 0 then FRESH else NextTurn(names, weights, TurnAfter(names, weights, n - 1))
  }

  // The index chosen by call n, counting from zero, on a fresh record.
  function Pick(names: seq<string>, weights: seq<int>, n: nat): (i: nat)
    requires names != [] && |weights| == |names|
    ensures i < |names|
  {
    Target(names, TurnAfter(names, weights, n))
  }

  // ---------- the closed form ----------

  function Prefix(weights: seq<int>, j: nat): int
    requires j <= |weights|
  {
    if j == 0 then 0 else Prefix(weights, j - 1) + weights[j - 1]
  }

  function Total(weights: seq<int>): int { Prefix(weights, |weights|) }

  ghost predicate Schedulable(names: seq<string>, weights: seq<int>) {
    && names != [] && |weights| == |names|
    && (forall i, j :: 0 <= i < j < |names| ==> names[i] != names[j])
    && (forall i :: 0 <= i < |weights| ==> weights[i] >= 1)
  }

  lemma {:induction false} PrefixMonotone(weights: seq<int>, i: nat, j: nat)
    requires i <= j <= |weights| && forall k :: 0 <= k < |weights| ==> weights[k] >= 1
    ensures Prefix(weights, i) + (j - i) <= Prefix(weights, j)
  {
    if i < j {
      PrefixMonotone(weights, i, j - 1);
    }
  }

  lemma TotalIsPositive(names: seq<string>, weights: seq<int>)
    requires Schedulable(names, weights)
    ensures names != [] && |weights| == |names| && Total(weights) >= 1
  {
    PrefixMonotone(weights, 0, |weights|);
  }

  // The intervals [Prefix(j), Prefix(j + 1)) are disjoint, so a residue lies in at most one.
  lemma IntervalUnique(weights: seq<int>, m: int, i: nat, j: nat)
    requires i < |weights| && j < |weights| && forall k :: 0 <= k < |weights| ==> weights[k] >= 1
    requires Prefix(weights, i) <= m < Prefix(weights, i + 1) && Prefix(weights, j) <= m < Prefix(weights, j + 1)
    ensures i == j
  {
    if i < j {
      PrefixMonotone(weights, i + 1, j);
    } else if j < i {
      PrefixMonotone(weights, j + 1, i);
    }
  }

  // ---------- the position of a call in its cycle ----------

  function Residue(n: nat, w: int): (r: int)
    requires w >= 1
    ensures 0 <= r < w
  {
    n % w
  }

  lemma QuotientUnique(w: int, p: int, s: int, q: int, r: int)
    requires 0 <= r < w && 0 <= s < w && p * w + s == q * w + r
    ensures s == r
  {
    if p > q {
      Multiple(w, p, q);
    } else if p < q {
      Multiple(w, q, p);
    }
  }

  lemma {:induction false} Multiple(w: int, p: int, q: int)
    requires w >= 0 && p > q
    ensures p * w >= q * w + w
    decreases p - q
  {
    if p > q + 1 {
      Multiple(w, p - 1, q);
      assert p * w == (p - 1) * w + w;
    }
  }

  lemma ResidueIs(n: nat, w: int, q: int, r: int)
    requires 0 <= r < w && n == q * w + r
    ensures Residue(n, w) == r
  {
    var p, s := n / w, n % w;
    assert n == p * w + s;
    QuotientUnique(w, p, s, q, r);
  }

  lemma NextResidue(n: nat, w: int)
    requires w >= 1
    ensures Residue(n + 1, w) == if Residue(n, w) == w - 1 then 0 else Residue(n, w) + 1
  {
    var q, r := n / w, Residue(n, w);
    assert n == q * w + r;
    if r == w - 1 {
      ResidueIs(n + 1, w, q + 1, 0);
    } else {
      ResidueIs(n + 1, w, q, r + 1);
    }
  }

  lemma ResidueOfSmall(n: nat, w: int)
    requires n < w
    ensures Residue(n, w) == n
  {
    ResidueIs(n, w, 0, n);
  }

  lemma ResidueRepeats(n: nat, w: int)
    requires w >= 1
    ensures Residue(n + w, w) == Residue(n, w)
  {
    var q, r := n / w, Residue(n, w);
    assert n == q * w + r;
    assert n + w == (q + 1) * w + r;
    ResidueIs(n + w, w, q + 1, r);
  }

  // The record names host i, whose interval holds the position m, and counts what is left of the interval.
  ghost predicate At(names: seq<string>, weights: seq<int>, i: nat, m: int, turn: Turn)
    requires |weights| == |names|
  {
    i < |names| && Prefix(weights, i) <= m < Prefix(weights, i + 1)
    && turn == Turn(Some(names[i]), Prefix(weights, i + 1) - 1 - m)
  }

  lemma DistinctIndex(names: seq<string>, i: nat)
    requires i < |names| && forall i, j :: 0 <= i < j < |names| ==> names[i] != names[j]
    ensures LastIndexOf(names, names[i]) == i
  {
  }

  lemma OneCallFurther(names: seq<string>, weights: seq<int>, i: nat, m: int, turn: Turn)
    requires Schedulable(names, weights) && At(names, weights, i, m, turn)
    ensures At(names, weights, Target(names, turn), if m == Total(weights) - 1 then 0 else m + 1,
               NextTurn(names, weights, turn))
  {
    DistinctIndex(names, i);
    hide LastIndexOf;
    PrefixMonotone(weights, i + 1, |weights|);
    if i + 1 < |weights| {
      PrefixMonotone(weights, i + 1, i + 2);
      PrefixMonotone(weights, i + 2, |weights|);
    } else {
      PrefixMonotone(weights, 0, 1);
    }
  }

  lemma FirstCall(names: seq<string>, weights: seq<int>)
    requires Schedulable(names, weights)
    ensures At(names, weights, Pick(names, weights, 0), 0, TurnAfter(names, weights, 1))
  {
    hide LastIndexOf;
    assert TurnAfter(names, weights, 0) == FRESH;
    assert Prefix(weights, 1) == Prefix(weights, 0) + weights[0];
  }

  lemma {:induction false} StaysOnSchedule(names: seq<string>, weights: seq<int>, n: nat)
    requires Schedulable(names, weights)
    ensures Total(weights) >= 1
    ensures At(names, weights, Pick(names, weights, n), Residue(n, Total(weights)), TurnAfter(names, weights, n + 1))
    decreases n
  {
    hide Schedulable, Residue, Prefix, Total, Target, NextTurn, At;
    TotalIsPositive(names, weights);
    var w := Total(weights);
    if n == 0 {
      FirstCall(names, weights);
      ResidueOfSmall(0, w);
    } else {
      StaysOnSchedule(names, weights, n - 1);
      NextResidue(n - 1, w);
      OneCallFurther(names, weights, Pick(names, weights, n - 1), Residue(n - 1, w), TurnAfter(names, weights, n));
    }
  }

  /** The exact closed form: on a fresh record, with hosts of distinct names and weights at least 1 summing to
      W, call n returns the host whose prefix-weight interval contains n mod W, and no other host does. */
  lemma ClosedForm(names: seq<string>, weights: seq<int>, n: nat)
    requires Schedulable(names, weights)
    ensures Total(weights) >= 1
    ensures forall j: nat :: j < |names| ==>
      (Pick(names, weights, n) == j <==> Prefix(weights, j) <= Residue(n, Total(weights)) < Prefix(weights, j + 1))
  {
    StaysOnSchedule(names, weights, n);
    hide Residue, Pick, TurnAfter;
    var i, m := Pick(names, weights, n), Residue(n, Total(weights));
    forall j: nat | j < |names| && Prefix(weights, j) <= m < Prefix(weights, j + 1) ensures i == j {
      IntervalUnique(weights, m, j, i);
    }
  }

  // ---------- every cycle is fair ----------

  // How many of the calls from..to-1 picked host j.
  function Picks(names: seq<string>, weights: seq<int>, from: nat, to: nat, j: nat): nat
    requires names != [] && |weights| == |names| && from <= to
  {
    if from == to then 0
    else Picks(names, weights, from, to - 1, j) + (if Pick(names, weights, to - 1) == j then 1 else 0)
  }

  lemma {:induction false} PicksFromFront(names: seq<string>, weights: seq<int>, from: nat, to: nat, j: nat)
    requires names != [] && |weights| == |names| && from < to
    ensures Picks(names, weights, from, to, j)
         == (if Pick(names, weights, from) == j then 1 else 0) + Picks(names, weights, from + 1, to, j)
  {
    hide Pick;
    if from + 1 < to {
      PicksFromFront(names, weights, from, to - 1, j);
    }
  }

  lemma {:induction false} PicksInFirstCycle(names: seq<string>, weights: seq<int>, m: nat, j: nat)
    requires Schedulable(names, weights) && j < |names| && m <= Total(weights)
    ensures Picks(names, weights, 0, m, j)
         == if m <= Prefix(weights, j) then 0
            else if m <= Prefix(weights, j + 1) then m - Prefix(weights, j)
            else weights[j]
  {
    hide Pick, Residue;
    assert Prefix(weights, j + 1) == Prefix(weights, j) + weights[j];
    PrefixMonotone(weights, 0, j);
    if m > 0 {
      PicksInFirstCycle(names, weights, m - 1, j);
      ClosedForm(names, weights, m - 1);
      ResidueOfSmall(m - 1, Total(weights));
    }
  }

  lemma PickRepeats(names: seq<string>, weights: seq<int>, n: nat)
    requires Schedulable(names, weights)
    ensures Total(weights) >= 1 && Pick(names, weights, n + Total(weights)) == Pick(names, weights, n)
  {
    hide Pick, Residue, Prefix;
    PrefixMonotone(weights, 0, |weights|);
    ClosedForm(names, weights, n);
    ClosedForm(names, weights, n + Total(weights));
    ResidueRepeats(n, Total(weights));
    var i := Pick(names, weights, n);
    assert Prefix(weights, i) <= Residue(n + Total(weights), Total(weights)) < Prefix(weights, i + 1);
  }

  lemma FirstCycleIsFair(names: seq<string>, weights: seq<int>, j: nat)
    requires Schedulable(names, weights) && j < |names|
    ensures Total(weights) >= 1 && Picks(names, weights, 0, Total(weights), j) == weights[j]
  {
    hide Pick, Picks;
    PrefixMonotone(weights, 0, |weights|);
    PrefixMonotone(weights, 0, j);
    PrefixMonotone(weights, j + 1, |weights|);
    assert Prefix(weights, j + 1) == Prefix(weights, j) + weights[j];
    PicksInFirstCycle(names, weights, Total(weights), j);
  }

  lemma PicksOneMore(names: seq<string>, weights: seq<int>, from: nat, to: nat, j: nat)
    requires names != [] && |weights| == |names| && from <= to
    ensures Picks(names, weights, from, to + 1, j)
         == Picks(names, weights, from, to, j) + (if Pick(names, weights, to) == j then 1 else 0)
  {
    hide Pick;
  }

  /** Every W consecutive calls, wherever they start, pick each host exactly as often as its weight says. */
  lemma {:induction false} EveryCycleIsFair(names: seq<string>, weights: seq<int>, start: nat, j: nat)
    requires Schedulable(names, weights) && j < |names|
    ensures Total(weights) >= 1
    ensures Picks(names, weights, start, start + Total(weights), j) == weights[j]
    decreases start
  {
    hide Schedulable, Pick, Picks, Prefix, Total;
    TotalIsPositive(names, weights);
    var w := Total(weights);
    if start == 0 {
      FirstCycleIsFair(names, weights, j);
    } else {
      EveryCycleIsFair(names, weights, start - 1, j);
      PicksFromFront(names, weights, start - 1, start - 1 + w, j);
      PickRepeats(names, weights, start - 1);
      PicksOneMore(names, weights, start, start - 1 + w, j);
    }
  }
}
