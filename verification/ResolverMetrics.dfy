// Ranking metrics of the resolver evaluation, over the reals.

module ResolverMetrics {
  import opened Options

  // ---------------------------------------------------------------- the rank of a case

  /** The position, from one, of the first gold candidate. */
  function FirstRank(gold: seq<string>, candidates: seq<string>): Option<nat> {
    if candidates == [] then None
    else if candidates[0] in gold then Some(1)
    else match FirstRank(gold, candidates[1..]) case None => None case Some(k) => Some(k + 1)
  }

  lemma {:induction false} FirstRankIsLeast(gold: seq<string>, candidates: seq<string>)
    ensures FirstRank(gold, candidates) == None <==> forall i :: 0 <= i < |candidates| ==> candidates[i] !in gold
    ensures forall k: nat ::
              FirstRank(gold, candidates) == Some(k)
              <==> && 1 <= k <= |candidates| && candidates[k - 1] in gold
                   && forall i :: 0 <= i < k - 1 ==> candidates[i] !in gold
  {
    if candidates != [] && candidates[0] !in gold {
      var rest := candidates[1..];
      FirstRankIsLeast(gold, rest);
      assert forall i :: 1 <= i < |candidates| ==> candidates[i] == rest[i - 1];
      assert forall i :: 0 <= i < |rest| ==> rest[i] == candidates[i + 1];
    }
  }

  /** `candidates.index(handle)`. */
  function Index(candidates: seq<string>, handle: string): (i: nat)
    requires handle in candidates
    ensures i < |candidates| && candidates[i] == handle && handle !in candidates[..i]
  {
    if candidates[0] == handle then 0 else 1 + Index(candidates[1..], handle)
  }

  /** The least rank over the gold handles that were retrieved. */
  method FirstGoldRank(gold: seq<string>, candidates: seq<string>) returns (first: Option<nat>)
    ensures first == FirstRank(gold, candidates)
  {
    first := None;
    for g := 0 to |gold|
      invariant first == None <==> forall i :: 0 <= i < |candidates| ==> candidates[i] !in gold[..g]
      invariant forall k :: first == Some(k) ==>
        && 1 <= k <= |candidates| && candidates[k - 1] in gold[..g]
        && forall i :: 0 <= i < k - 1 ==> candidates[i] !in gold[..g]
    {
      var handle := gold[g];
      assert gold[..g + 1] == gold[..g] + [handle];
      if handle in candidates {
        var rank := Index(candidates, handle) + 1;
        assert forall i :: 0 <= i < rank - 1 ==> candidates[i] == candidates[..rank - 1][i];
        if first.None? || rank < first.value { first := Some(rank); }
      }
    }
    assert gold[..|gold|] == gold;
    FirstRankIsLeast(gold, candidates);
  }

  // ---------------------------------------------------------------- metrics

  datatype Scored = Scored(
      owner: string, gold: bool, rank: Option<nat>, statusOk: bool, bindingOk: bool, severityOk: bool)

  /** Only a case with gold evidence has a rank, and ranks start at one. */
  predicate Ranked(c: Scored) {
    c.rank.Some? ==> c.gold && c.rank.value >= 1
  }

  ghost predicate AllRanked(cases: seq<Scored>) {
    forall i :: 0 <= i < |cases| ==> Ranked(cases[i])
  }

  datatype Metrics = Metrics(
      recall: map<nat, real>, mrr: real, status: real, binding: real, severity: real, count: nat, failed: nat)

  type Measure = Scored -> real

  function Indicator(b: bool): real { if b then 1.0 else 0.0 }
  function Hit(c: Scored, k: nat): real { Indicator(c.gold && c.rank.Some? && c.rank.value <= k) }
  function Inverse(c: Scored): real {
    if c.gold && c.rank.Some? && c.rank.value > 0 then 1.0 / c.rank.value as real else 0.0
  }

  function HasGold(): Measure { (c: Scored) => Indicator(c.gold) }
  function HitAt(k: nat): Measure { (c: Scored) => Hit(c, k) }
  function Reciprocal(): Measure { Inverse }
  function StatusOk(): Measure { (c: Scored) => Indicator(c.statusOk) }
  function BindingOk(): Measure { (c: Scored) => Indicator(c.bindingOk) }
  function SeverityOk(): Measure { (c: Scored) => Indicator(c.severityOk) }
  function Failed(): Measure { (c: Scored) => Indicator(!(c.statusOk && c.bindingOk && c.severityOk)) }
  function One(): Measure { (c: Scored) => 1.0 }

  function Sum(cases: seq<Scored>, w: Measure): real {
    if cases == [] then 0.0 else Sum(cases[..|cases| - 1], w) + w(cases[|cases| - 1])
  }

  /** A mean, one over nothing. */
  function Ratio(x: real, n: real): real { if n == 0.0 then 1.0 else x / n }

  function Mean(cases: seq<Scored>, w: Measure, weight: Measure): real {
    Ratio(Sum(cases, w), Sum(cases, weight))
  }

  function RecallAt(cases: seq<Scored>, k: nat): real { Mean(cases, HitAt(k), HasGold()) }
  function MeanReciprocalRank(cases: seq<Scored>): real { Mean(cases, Reciprocal(), HasGold()) }

  lemma SumNext(cases: seq<Scored>, i: nat, w: Measure)
    requires i < |cases|
    ensures Sum(cases[..i + 1], w) == Sum(cases[..i], w) + w(cases[i])
  {
    assert cases[..i + 1][..i] == cases[..i];
  }

  /** Which cases have a property. */
  ghost function Which(cases: seq<Scored>, p: Scored -> bool): set<int> {
    set i | 0 <= i < |cases| && p(cases[i])
  }

  lemma {:induction false} SumCounts(cases: seq<Scored>, w: Measure, p: Scored -> bool)
    requires forall c :: w(c) == if p(c) then 1.0 else 0.0
    ensures Sum(cases, w) == |Which(cases, p)| as real
  {
    if cases != [] {
      var n := |cases| - 1;
      SumCounts(cases[..n], w, p);
      assert Which(cases, p) == Which(cases[..n], p) + if p(cases[n]) then {n} else {};
    }
  }

  /** `x` of `n`, and one of nothing. */
  ghost predicate IsShare(r: real, x: nat, n: nat) {
    if n == 0 then r == 1.0 else r * n as real == x as real
  }

  lemma RatioIsShare(x: nat, n: nat)
    ensures IsShare(Ratio(x as real, n as real), x, n)
  {
  }

  lemma MeanIsShare(cases: seq<Scored>, w: Measure, p: Scored -> bool, weight: Measure, q: Scored -> bool)
    requires forall c :: w(c) == if p(c) then 1.0 else 0.0
    requires forall c :: weight(c) == if q(c) then 1.0 else 0.0
    ensures IsShare(Mean(cases, w, weight), |Which(cases, p)|, |Which(cases, q)|)
  {
    SumCounts(cases, w, p);
    SumCounts(cases, weight, q);
    RatioIsShare(|Which(cases, p)|, |Which(cases, q)|);
  }

  lemma AllOf(cases: seq<Scored>)
    ensures |Which(cases, c => true)| == |cases|
  {
    SumCounts(cases, One(), c => true);
    SumOne(cases);
  }

  /** The figures as shares of the cases, and of those with gold evidence. */
  ghost predicate Figures(cases: seq<Scored>, m: Metrics) {
    && m.recall.Keys == {1, 3, 5, 8} && m.count == |cases|
    && (forall k :: k in m.recall ==>
          IsShare(m.recall[k], |Which(cases, (c: Scored) => c.gold && c.rank.Some? && c.rank.value <= k)|,
                  |Which(cases, (c: Scored) => c.gold)|))
    && IsShare(m.status, |Which(cases, (c: Scored) => c.statusOk)|, |cases|)
    && IsShare(m.binding, |Which(cases, (c: Scored) => c.bindingOk)|, |cases|)
    && IsShare(m.severity, |Which(cases, (c: Scored) => c.severityOk)|, |cases|)
    && m.failed == |Which(cases, (c: Scored) => !c.statusOk || !c.bindingOk || !c.severityOk)|
    && (Which(cases, (c: Scored) => c.gold) == {} ==> m.mrr == 1.0)
  }

  lemma FiguresHold(cases: seq<Scored>, m: Metrics)
    requires m.recall.Keys == {1, 3, 5, 8} && forall k :: k in m.recall ==> m.recall[k] == RecallAt(cases, k)
    requires m.mrr == MeanReciprocalRank(cases)
    requires m.status == Mean(cases, StatusOk(), One()) && m.binding == Mean(cases, BindingOk(), One())
    requires m.severity == Mean(cases, SeverityOk(), One())
    requires m.count == |cases| && m.failed as real == Sum(cases, Failed())
    ensures Figures(cases, m)
  {
    hide Sum, Mean, Which, IsShare;
    AllOf(cases);
    forall k | k in m.recall
      ensures IsShare(m.recall[k], |Which(cases, (c: Scored) => c.gold && c.rank.Some? && c.rank.value <= k)|,
                      |Which(cases, (c: Scored) => c.gold)|) {
      MeanIsShare(cases, HitAt(k), (c: Scored) => c.gold && c.rank.Some? && c.rank.value <= k,
          HasGold(), (c: Scored) => c.gold);
    }
    MeanIsShare(cases, StatusOk(), (c: Scored) => c.statusOk, One(), c => true);
    MeanIsShare(cases, BindingOk(), (c: Scored) => c.bindingOk, One(), c => true);
    MeanIsShare(cases, SeverityOk(), (c: Scored) => c.severityOk, One(), c => true);
    SumCounts(cases, Failed(), (c: Scored) => !c.statusOk || !c.bindingOk || !c.severityOk);
    if Which(cases, (c: Scored) => c.gold) == {} { NoGoldIsOne(cases); }
  }

  lemma NoGoldIsOne(cases: seq<Scored>)
    requires Which(cases, (c: Scored) => c.gold) == {}
    ensures MeanReciprocalRank(cases) == 1.0
  {
    SumCounts(cases, HasGold(), (c: Scored) => c.gold);
  }

  /** Reciprocal ranks add up case by case. */
  lemma ReciprocalsAddUp(cases: seq<Scored>, c: Scored)
    requires Sum(cases, HasGold()) > 0.0 && c.gold
    ensures Sum(cases + [c], HasGold()) == Sum(cases, HasGold()) + 1.0
    ensures MeanReciprocalRank(cases + [c]) * Sum(cases + [c], HasGold())
         == MeanReciprocalRank(cases) * Sum(cases, HasGold())
            + if c.rank.Some? && c.rank.value > 0 then 1.0 / c.rank.value as real else 0.0
  {
    SumOfMore(cases, c, Reciprocal());
    SumOfMore(cases, c, HasGold());
    assert HasGold()(c) == 1.0;
    assert Reciprocal()(c) == if c.rank.Some? && c.rank.value > 0 then 1.0 / c.rank.value as real else 0.0;
    hide Sum, Reciprocal, HasGold, MeanReciprocalRank;
    MeanTimesGold(cases);
    MeanTimesGold(cases + [c]);
  }

  lemma MeanTimesGold(cases: seq<Scored>)
    requires Sum(cases, HasGold()) > 0.0
    ensures MeanReciprocalRank(cases) * Sum(cases, HasGold()) == Sum(cases, Reciprocal())
  {
    hide Sum, Reciprocal, HasGold;
    RatioTimes(Sum(cases, Reciprocal()), Sum(cases, HasGold()));
  }

  lemma SumOfMore(cases: seq<Scored>, c: Scored, w: Measure)
    ensures Sum(cases + [c], w) == Sum(cases, w) + w(c)
  {
    assert (cases + [c])[..|cases|] == cases;
  }

  method CaseMetrics(cases: seq<Scored>) returns (m: Metrics)
    requires AllRanked(cases)
    ensures Figures(cases, m)
    ensures m.recall.Keys == {1, 3, 5, 8} && forall k :: k in m.recall ==> m.recall[k] == RecallAt(cases, k)
    ensures m.mrr == MeanReciprocalRank(cases)
    ensures m.status == Mean(cases, StatusOk(), One()) && m.binding == Mean(cases, BindingOk(), One())
    ensures m.severity == Mean(cases, SeverityOk(), One())
    ensures m.count == |cases| && m.failed as real == Sum(cases, Failed())
  {
    hide Sum, HitAt, Reciprocal, HasGold, StatusOk, BindingOk, SeverityOk, Failed, One;
    var hits: map<nat, nat> := map[1 := 0, 3 := 0, 5 := 0, 8 := 0];
    var reciprocals, golds := 0.0, 0;
    var statusOk, bindingOk, severityOk, failed := 0, 0, 0, 0;
    var i := 0;
    forall w ensures Sum(cases[..0], w) == 0.0 { SumNothing(w); }
    while i < |cases|
      invariant i <= |cases|
      invariant hits.Keys == {1, 3, 5, 8} && forall k :: k in hits ==> hits[k] as real == Sum(cases[..i], HitAt(k))
      invariant reciprocals == Sum(cases[..i], Reciprocal())
      invariant golds as real == Sum(cases[..i], HasGold())
      invariant statusOk as real == Sum(cases[..i], StatusOk()) && bindingOk as real == Sum(cases[..i], BindingOk())
      invariant severityOk as real == Sum(cases[..i], SeverityOk()) && failed as real == Sum(cases[..i], Failed())
    {
      var c := cases[i];
      SumsNext(cases, i);
      if c.gold {
        golds := golds + 1;
        if c.rank.Some? { reciprocals := reciprocals + 1.0 / c.rank.value as real; }
        hits := map k | k in hits :: if c.rank.Some? && c.rank.value <= k then hits[k] + 1 else hits[k];
      }
      if c.statusOk { statusOk := statusOk + 1; }
      if c.bindingOk { bindingOk := bindingOk + 1; }
      if c.severityOk { severityOk := severityOk + 1; }
      if !(c.statusOk && c.bindingOk && c.severityOk) { failed := failed + 1; }
      i := i + 1;
    }
    assert cases[..i] == cases;
    SumOne(cases);
    var n := |cases|;
    m := Metrics(
      map k | k in hits :: Ratio(hits[k] as real, golds as real),
      Ratio(reciprocals, golds as real),
      Ratio(statusOk as real, n as real),
      Ratio(bindingOk as real, n as real),
      Ratio(severityOk as real, n as real),
      n,
      failed);
    FiguresHold(cases, m);
  }

  lemma SumNothing(w: Measure)
    ensures Sum([], w) == 0.0
  {
  }

  lemma SumsNext(cases: seq<Scored>, i: nat)
    requires i < |cases| && Ranked(cases[i])
    ensures var c, front, next := cases[i], cases[..i], cases[..i + 1];
            && (forall k :: Sum(next, HitAt(k))
                  == Sum(front, HitAt(k)) + Indicator(c.gold && c.rank.Some? && c.rank.value <= k))
            && Sum(next, Reciprocal()) == Sum(front, Reciprocal())
               + (if c.gold && c.rank.Some? then 1.0 / c.rank.value as real else 0.0)
            && Sum(next, HasGold()) == Sum(front, HasGold()) + Indicator(c.gold)
            && Sum(next, StatusOk()) == Sum(front, StatusOk()) + Indicator(c.statusOk)
            && Sum(next, BindingOk()) == Sum(front, BindingOk()) + Indicator(c.bindingOk)
            && Sum(next, SeverityOk()) == Sum(front, SeverityOk()) + Indicator(c.severityOk)
            && Sum(next, Failed()) == Sum(front, Failed()) + Indicator(!(c.statusOk && c.bindingOk && c.severityOk))
  {
    hide Sum;
    forall w ensures Sum(cases[..i + 1], w) == Sum(cases[..i], w) + w(cases[i]) { SumNext(cases, i, w); }
  }

  lemma {:induction false} SumOne(cases: seq<Scored>)
    ensures Sum(cases, One()) == |cases| as real
  {
    if cases != [] { SumOne(cases[..|cases| - 1]); }
  }

  // ---------------------------------------------------------------- recall and rank

  /** What a case adds beyond the least its recall allows, and lacks of the most. */
  function AboveLeast(c: Scored): real {
    Inverse(c) - (Hit(c, 1) + (Hit(c, 3) - Hit(c, 1)) / 3.0 + (Hit(c, 5) - Hit(c, 3)) / 5.0
      + (Hit(c, 8) - Hit(c, 5)) / 8.0)
  }

  function BelowMost(c: Scored): real {
    Hit(c, 1) + (Hit(c, 3) - Hit(c, 1)) / 2.0 + (Hit(c, 5) - Hit(c, 3)) / 4.0 + (Hit(c, 8) - Hit(c, 5)) / 6.0
    + (Indicator(c.gold) - Hit(c, 8)) / 9.0 - Inverse(c)
  }

  /** The case ranks last within its band of cutoffs, or is not retrieved. */
  predicate LastInBand(c: Scored) {
    c.gold && c.rank.Some? ==> c.rank.value in {1, 3, 5, 8}
  }

  /** The case ranks first within its band. */
  predicate FirstInBand(c: Scored) {
    c.gold ==> c.rank.Some? && c.rank.value in {1, 2, 4, 6, 9}
  }

  lemma OneCase(c: Scored)
    requires Ranked(c)
    ensures AboveLeast(c) >= 0.0 && (AboveLeast(c) == 0.0 <==> LastInBand(c))
    ensures BelowMost(c) >= 0.0 && (BelowMost(c) == 0.0 <==> FirstInBand(c))
  {
    if c.gold && c.rank.Some? {
      var n := c.rank.value;
      Reciprocals(n);
    }
  }

  lemma Reciprocals(n: nat)
    requires n >= 1
    ensures n == 1 ==> 1.0 / n as real == 1.0
    ensures 1 < n <= 3 ==> 1.0 / 3.0 <= 1.0 / n as real <= 1.0 / 2.0
    ensures (1.0 / n as real == 1.0 / 3.0 <==> n == 3) && (1.0 / n as real == 1.0 / 2.0 <==> n == 2)
    ensures 3 < n <= 5 ==> 1.0 / 5.0 <= 1.0 / n as real <= 1.0 / 4.0
    ensures (1.0 / n as real == 1.0 / 5.0 <==> n == 5) && (1.0 / n as real == 1.0 / 4.0 <==> n == 4)
    ensures 5 < n <= 8 ==> 1.0 / 8.0 <= 1.0 / n as real <= 1.0 / 6.0
    ensures (1.0 / n as real == 1.0 / 8.0 <==> n == 8) && (1.0 / n as real == 1.0 / 6.0 <==> n == 6)
    ensures 8 < n ==> 0.0 < 1.0 / n as real <= 1.0 / 9.0
    ensures 1.0 / n as real == 1.0 / 9.0 <==> n == 9
  {
    var x := 1.0 / n as real;
    assert x * n as real == 1.0;
    if n > 9 {
      BeyondNine(n);
    } else {
      assert n == 1 || n == 2 || n == 3 || n == 4 || n == 5 || n == 6 || n == 7 || n == 8 || n == 9;
    }
  }

  lemma BeyondNine(n: nat)
    requires n > 9
    ensures 0.0 < 1.0 / n as real < 1.0 / 9.0
  {
  }

  lemma {:induction false} SumZero(cases: seq<Scored>, w: Measure)
    requires forall i :: 0 <= i < |cases| ==> w(cases[i]) >= 0.0
    ensures Sum(cases, w) >= 0.0
    ensures Sum(cases, w) == 0.0 <==> forall i :: 0 <= i < |cases| ==> w(cases[i]) == 0.0
  {
    if cases != [] {
      var front := cases[..|cases| - 1];
      SumZero(front, w);
      assert forall i :: 0 <= i < |front| ==> front[i] == cases[i];
    }
  }

  /** Both slacks, summed, in terms of the summed hits. */
  lemma {:induction false} SumSlack(cases: seq<Scored>)
    ensures var h1, h3 := Sum(cases, HitAt(1)), Sum(cases, HitAt(3));
            var h5, h8 := Sum(cases, HitAt(5)), Sum(cases, HitAt(8));
            && Sum(cases, AboveLeast)
               == Sum(cases, Reciprocal()) - (h1 + (h3 - h1) / 3.0 + (h5 - h3) / 5.0 + (h8 - h5) / 8.0)
            && Sum(cases, BelowMost)
               == h1 + (h3 - h1) / 2.0 + (h5 - h3) / 4.0 + (h8 - h5) / 6.0
               + (Sum(cases, HasGold()) - h8) / 9.0 - Sum(cases, Reciprocal())
  {
    if cases != [] {
      hide Hit, Inverse, Indicator;
      SumSlack(cases[..|cases| - 1]);
    }
  }

  function LowerBound(cases: seq<Scored>): real {
    var r1, r3, r5, r8 := RecallAt(cases, 1), RecallAt(cases, 3), RecallAt(cases, 5), RecallAt(cases, 8);
    r1 + (r3 - r1) / 3.0 + (r5 - r3) / 5.0 + (r8 - r5) / 8.0
  }

  function UpperBound(cases: seq<Scored>): real {
    var r1, r3, r5, r8 := RecallAt(cases, 1), RecallAt(cases, 3), RecallAt(cases, 5), RecallAt(cases, 8);
    r1 + (r3 - r1) / 2.0 + (r5 - r3) / 4.0 + (r8 - r5) / 6.0 + (1.0 - r8) / 9.0
  }

  /** The recalls pin the mean reciprocal rank down between two sharp bounds. */
  lemma MrrBetweenRecalls(cases: seq<Scored>)
    requires AllRanked(cases)
    ensures LowerBound(cases) <= MeanReciprocalRank(cases) <= UpperBound(cases)
    ensures LowerBound(cases) == MeanReciprocalRank(cases) <==> forall i :: 0 <= i < |cases| ==> LastInBand(cases[i])
    ensures Sum(cases, HasGold()) > 0.0 ==>
      (MeanReciprocalRank(cases) == UpperBound(cases) <==> forall i :: 0 <= i < |cases| ==> FirstInBand(cases[i]))
  {
    forall i | 0 <= i < |cases|
      ensures AboveLeast(cases[i]) >= 0.0 && (AboveLeast(cases[i]) == 0.0 <==> LastInBand(cases[i]))
      ensures BelowMost(cases[i]) >= 0.0 && (BelowMost(cases[i]) == 0.0 <==> FirstInBand(cases[i]))
      ensures HasGold()(cases[i]) >= 0.0 {
      OneCase(cases[i]);
    }
    hide Sum, AboveLeast, BelowMost, HitAt, Reciprocal, LastInBand, FirstInBand;
    SumZero(cases, AboveLeast);
    SumZero(cases, BelowMost);
    SumZero(cases, HasGold());
    SumSlack(cases);
    var g := Sum(cases, HasGold());
    if g > 0.0 {
      Divided(Sum(cases, HitAt(1)), Sum(cases, HitAt(3)), Sum(cases, HitAt(5)), Sum(cases, HitAt(8)),
          Sum(cases, Reciprocal()), g);
    } else {
      NoGold(cases);
    }
  }

  lemma NoGold(cases: seq<Scored>)
    requires AllRanked(cases) && Sum(cases, HasGold()) == 0.0
    ensures forall i :: 0 <= i < |cases| ==> LastInBand(cases[i])
  {
    SumZero(cases, HasGold());
    forall i | 0 <= i < |cases| ensures !cases[i].gold { assert HasGold()(cases[i]) == 0.0; }
  }

  lemma Divided(h1: real, h3: real, h5: real, h8: real, s: real, g: real)
    requires g > 0.0
    ensures var lower := h1 + (h3 - h1) / 3.0 + (h5 - h3) / 5.0 + (h8 - h5) / 8.0;
            var scaled := h1 / g + (h3 / g - h1 / g) / 3.0 + (h5 / g - h3 / g) / 5.0 + (h8 / g - h5 / g) / 8.0;
            (lower <= s <==> scaled <= s / g) && (lower == s <==> scaled == s / g)
    ensures var upper := h1 + (h3 - h1) / 2.0 + (h5 - h3) / 4.0 + (h8 - h5) / 6.0 + (g - h8) / 9.0;
            var scaled := h1 / g + (h3 / g - h1 / g) / 2.0 + (h5 / g - h3 / g) / 4.0 + (h8 / g - h5 / g) / 6.0
              + (1.0 - h8 / g) / 9.0;
            (s <= upper <==> s / g <= scaled) && (upper == s <==> scaled == s / g)
  {
    var a, b, c, d, e := h1 / g, h3 / g, h5 / g, h8 / g, s / g;
    assert h1 == a * g && h3 == b * g && h5 == c * g && h8 == d * g && s == e * g;
    var low := a + (b - a) / 3.0 + (c - b) / 5.0 + (d - c) / 8.0;
    var high := a + (b - a) / 2.0 + (c - b) / 4.0 + (d - c) / 6.0 + (1.0 - d) / 9.0;
    assert h1 + (h3 - h1) / 3.0 + (h5 - h3) / 5.0 + (h8 - h5) / 8.0 == low * g;
    assert h1 + (h3 - h1) / 2.0 + (h5 - h3) / 4.0 + (h8 - h5) / 6.0 + (g - h8) / 9.0 == high * g;
    Scaled(low, e, g);
    Scaled(e, high, g);
  }

  lemma Scaled(x: real, y: real, g: real)
    requires g > 0.0
    ensures (x * g <= y * g <==> x <= y) && (x * g == y * g <==> x == y)
  {
  }

  lemma {:induction false} SumMonotone(cases: seq<Scored>, v: Measure, w: Measure)
    requires forall i :: 0 <= i < |cases| ==> v(cases[i]) <= w(cases[i])
    ensures Sum(cases, v) <= Sum(cases, w)
  {
    if cases != [] {
      var front := cases[..|cases| - 1];
      assert forall i :: 0 <= i < |front| ==> front[i] == cases[i];
      SumMonotone(front, v, w);
    }
  }

  lemma RatioMonotone(x: real, y: real, n: real)
    requires 0.0 <= x <= y <= n
    ensures 0.0 <= Ratio(x, n) <= Ratio(y, n) <= 1.0
  {
    if n > 0.0 {
      Scaled(0.0, x / n, n);
      Scaled(x / n, y / n, n);
      Scaled(y / n, 1.0, n);
    }
  }

  lemma RecallMonotone(cases: seq<Scored>, j: nat, k: nat)
    requires j <= k
    ensures 0.0 <= RecallAt(cases, j) <= RecallAt(cases, k) <= 1.0
  {
    SumMonotone(cases, HitAt(j), HitAt(k));
    SumMonotone(cases, HitAt(k), HasGold());
    SumZero(cases, HitAt(j));
    RatioMonotone(Sum(cases, HitAt(j)), Sum(cases, HitAt(k)), Sum(cases, HasGold()));
  }

  // ---------------------------------------------------------------- layers

  function OfLayer(cases: seq<Scored>, owner: string): seq<Scored> {
    if cases == [] then []
    else
      var front := OfLayer(cases[..|cases| - 1], owner);
      if cases[|cases| - 1].owner == owner then front + [cases[|cases| - 1]] else front
  }

  function SumOver(owners: seq<string>, f: string -> real): real {
    if owners == [] then 0.0 else SumOver(owners[..|owners| - 1], f) + f(owners[|owners| - 1])
  }

  ghost predicate Partition(owners: seq<string>, cases: seq<Scored>) {
    && (forall i, j :: 0 <= i < j < |owners| ==> owners[i] != owners[j])
    && (forall i :: 0 <= i < |cases| ==> cases[i].owner in owners)
  }

  function LayerSum(cases: seq<Scored>, w: Measure): string -> real {
    o => Sum(OfLayer(cases, o), w)
  }

  /** A layer's mean times the layer's weight. */
  function LayerShare(cases: seq<Scored>, w: Measure, weight: Measure): string -> real {
    o => Mean(OfLayer(cases, o), w, weight) * Sum(OfLayer(cases, o), weight)
  }

  /** Every summed measure is the sum of its layers'. */
  lemma {:induction false} LayersAddUp(owners: seq<string>, cases: seq<Scored>, w: Measure)
    requires Partition(owners, cases)
    ensures SumOver(owners, LayerSum(cases, w)) == Sum(cases, w)
  {
    if cases == [] {
      AllZero(owners, LayerSum(cases, w));
    } else {
      var front, last := cases[..|cases| - 1], cases[|cases| - 1];
      assert forall i :: 0 <= i < |front| ==> front[i] == cases[i];
      LayersAddUp(owners, front, w);
      forall o ensures LayerSum(cases, w)(o) == LayerSum(front, w)(o) + if o == last.owner then w(last) else 0.0 {
        LayerNext(cases, o, w);
      }
      hide OfLayer, Sum, LayerSum, SumOver;
      var k :| 0 <= k < |owners| && owners[k] == last.owner;
      OneMore(owners, k, LayerSum(front, w), LayerSum(cases, w), w(last));
    }
  }

  lemma LayerNext(cases: seq<Scored>, o: string, w: Measure)
    requires cases != []
    ensures var front, last := cases[..|cases| - 1], cases[|cases| - 1];
            LayerSum(cases, w)(o) == LayerSum(front, w)(o) + if o == last.owner then w(last) else 0.0
  {
    var front, last := cases[..|cases| - 1], cases[|cases| - 1];
    assert (OfLayer(front, o) + [last])[..|OfLayer(front, o)|] == OfLayer(front, o);
  }

  lemma {:induction false} AllZero(owners: seq<string>, f: string -> real)
    requires forall o :: o in owners ==> f(o) == 0.0
    ensures SumOver(owners, f) == 0.0
  {
    if owners != [] { AllZero(owners[..|owners| - 1], f); }
  }

  lemma {:induction false} Same(owners: seq<string>, f: string -> real, g: string -> real)
    requires forall o :: o in owners ==> f(o) == g(o)
    ensures SumOver(owners, f) == SumOver(owners, g)
  {
    if owners != [] { Same(owners[..|owners| - 1], f, g); }
  }

  lemma {:induction false} OneMore(owners: seq<string>, k: nat, f: string -> real, g: string -> real, x: real)
    requires k < |owners| && g(owners[k]) == f(owners[k]) + x
    requires forall i :: 0 <= i < |owners| && i != k ==> owners[i] != owners[k] && g(owners[i]) == f(owners[i])
    ensures SumOver(owners, g) == SumOver(owners, f) + x
  {
    var front := owners[..|owners| - 1];
    assert forall i :: 0 <= i < |front| ==> front[i] == owners[i];
    if k == |owners| - 1 {
      Same(front, f, g);
    } else {
      OneMore(front, k, f, g, x);
    }
  }

  lemma RatioTimes(x: real, n: real)
    requires n == 0.0 ==> x == 0.0
    ensures Ratio(x, n) * n == x
  {
  }

  lemma MeanTimesWeight(layer: seq<Scored>, w: Measure, weight: Measure)
    requires forall c :: 0.0 <= w(c) <= weight(c)
    ensures Mean(layer, w, weight) * Sum(layer, weight) == Sum(layer, w)
  {
    SumMonotone(layer, w, weight);
    SumZero(layer, w);
    RatioTimes(Sum(layer, w), Sum(layer, weight));
  }

  /** A mean over all cases is the weighted mean of the layers' means; a layer without weight
      reports one and does not count. */
  lemma OverallIsWeightedMean(owners: seq<string>, cases: seq<Scored>, w: Measure, weight: Measure)
    requires Partition(owners, cases)
    requires forall c :: 0.0 <= w(c) <= weight(c)
    requires Sum(cases, weight) > 0.0
    ensures Mean(cases, w, weight) == SumOver(owners, LayerShare(cases, w, weight)) / Sum(cases, weight)
  {
    forall o ensures LayerShare(cases, w, weight)(o) == LayerSum(cases, w)(o) {
      MeanTimesWeight(OfLayer(cases, o), w, weight);
    }
    hide Sum, OfLayer, SumOver, LayerShare, LayerSum, Partition;
    LayersAddUp(owners, cases, w);
    Same(owners, LayerShare(cases, w, weight), LayerSum(cases, w));
    assert Mean(cases, w, weight) == Sum(cases, w) / Sum(cases, weight);
    hide Mean;
  }

  /** Overall recall and mean reciprocal rank are the gold-weighted means of the layers', and
      the failed cases of the layers add up. */
  lemma {:induction false} OverallFromLayers(owners: seq<string>, cases: seq<Scored>, k: nat)
    requires Partition(owners, cases) && AllRanked(cases) && Sum(cases, HasGold()) > 0.0
    ensures RecallAt(cases, k)
         == SumOver(owners, LayerShare(cases, HitAt(k), HasGold())) / Sum(cases, HasGold())
    ensures MeanReciprocalRank(cases)
         == SumOver(owners, LayerShare(cases, Reciprocal(), HasGold())) / Sum(cases, HasGold())
    ensures Sum(cases, Failed()) == SumOver(owners, LayerSum(cases, Failed()))
  {
    hide SumOver, Sum, OfLayer;
    OverallIsWeightedMean(owners, cases, HitAt(k), HasGold());
    OverallIsWeightedMean(owners, cases, Reciprocal(), HasGold());
    LayersAddUp(owners, cases, Failed());
  }
}
