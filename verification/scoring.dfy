/** Scoring of one category of metrics and of the whole session
    (`MetricsCalculator.normalize`, `compute_category`, `compute_global_score`). */
module Scoring {
  import opened Wrappers
  import opened Values
  import opened Numeric
  import opened Statistics

  // ---------------------------------------------------------------
  // Normalisation
  // ---------------------------------------------------------------

  /** `np.clip(x, 0, 1)`. */
  function Clip(x: real): (r: real)
    ensures 0.0 <= r <= 1.0
    ensures 0.0 <= x <= 1.0 ==> r == x
  {
    if x < 0.0 then 0.0 else if x > 1.0 then 1.0 else x
  }

  /** Both bounds are declared and they differ, so the range can be divided by. */
  predicate Divisible(lo: Option<real>, hi: Option<real>) {
    lo.Some? && hi.Some? ==> lo.value != hi.value
  }

  /** `normalize(value, min, max, invert)`; `None` is NaN. With both bounds the
      value is rescaled so that `min` goes to 0 and `max` to 1, then clipped;
      with a bound missing the value passes through unscaled. */
  function Normalize(value: Option<real>, lo: Option<real>, hi: Option<real>, invert: bool): (r: real)
    requires Divisible(lo, hi)
    ensures value.None? ==> r == 0.0
    ensures value.Some? && (lo.None? || hi.None?) ==> r == value.value
    ensures value.Some? && lo.Some? && hi.Some? ==> 0.0 <= r <= 1.0
  {
    if value.None? then 0.0
    else if lo.None? || hi.None? then value.value
    else
      var v := Clip((value.value - lo.value) / (hi.value - lo.value));
      if invert then 1.0 - v else v
  }

  /** Inversion is the reflection of the plain result inside [0, 1]. */
  lemma NormalizeInvert(x: real, lo: real, hi: real)
    requires lo != hi
    ensures Normalize(Some(x), Some(lo), Some(hi), true) == 1.0 - Normalize(Some(x), Some(lo), Some(hi), false)
  {
  }

  /** The declared minimum maps to 0 and the declared maximum to 1. */
  lemma NormalizeEnds(lo: real, hi: real)
    requires lo != hi
    ensures Normalize(Some(lo), Some(lo), Some(hi), false) == 0.0
    ensures Normalize(Some(hi), Some(lo), Some(hi), false) == 1.0
  {
    DivSelf(hi - lo);
  }

  /** For an increasing range a larger raw value never normalises lower. */
  lemma NormalizeMonotone(x: real, y: real, lo: real, hi: real)
    requires lo < hi && x <= y
    ensures Normalize(Some(x), Some(lo), Some(hi), false) <= Normalize(Some(y), Some(lo), Some(hi), false)
  {
    DivMonotone(x - lo, y - lo, hi - lo);
  }

  // ---------------------------------------------------------------
  // Category score
  // ---------------------------------------------------------------

  /** One metric block of a category: the parameters it may declare, `None`
      where the key is absent. `enabled` keeps the declared value as is, so an
      explicit `null` (falsy) is told apart from an absent key. */
  datatype MetricSpec = MetricSpec(
    enabled: Option<Value>,
    weight: Option<real>,
    min: Option<real>,
    max: Option<real>,
    invert: Option<bool>)

  /** What a counted metric contributes (`{"raw", "normalized", "weight"}`). */
  datatype MetricEntry = MetricEntry(raw: real, normalized: real, weight: real)

  /** The `compute_category` result: the counted metrics in configuration order
      and the category `score`. */
  datatype CategoryResult = CategoryResult(metrics: seq<(string, MetricEntry)>, score: real)

  type CategoryConfig = seq<(string, MetricSpec)>

  /** `metric_funcs.get(name)` applied to the table being scored: `None` for a
      name that is not registered, else the metric's result. */
  type Evaluator = string -> Option<MetricResult>

  function WeightOf(spec: MetricSpec): real {
    spec.weight.GetOr(1.0)
  }

  /** `params.get("enabled", True)`: an absent key enables the metric, a
      declared value enables it when truthy. */
  predicate Enabled(spec: MetricSpec) {
    spec.enabled.None? || Truthy(spec.enabled.value)
  }

  /** A configured metric takes part in the score: its name is registered, it
      is not disabled, and its function does not ask to be skipped. */
  predicate Counted(name: string, spec: MetricSpec, eval: Evaluator) {
    && eval(name).Some?
    && Enabled(spec)
    && !eval(name).value.Skip?
  }

  /** The parameters `compute_category` divides by are sound: every counted
      metric with both bounds has distinct bounds. */
  predicate Scorable(cfg: CategoryConfig, eval: Evaluator) {
    forall i :: 0 <= i < |cfg| && Counted(cfg[i].0, cfg[i].1, eval) ==> Divisible(cfg[i].1.min, cfg[i].1.max)
  }

  /** The raw value recorded for a counted metric: its number, or 0.0 for NaN. */
  function RawValue(r: MetricResult): real {
    match r
    case Val(x) => x
    case _ => 0.0
  }

  /** The contribution of one configured metric, `None` when it is not counted. */
  function EntryOf(name: string, spec: MetricSpec, eval: Evaluator): (r: Option<MetricEntry>)
    requires Counted(name, spec, eval) ==> Divisible(spec.min, spec.max)
    ensures r.Some? <==> Counted(name, spec, eval)
  {
    if !Counted(name, spec, eval) then None
    else
      var raw := RawValue(eval(name).value);
      Some(MetricEntry(raw, Normalize(Some(raw), spec.min, spec.max, spec.invert.GetOr(false)), WeightOf(spec)))
  }

  lemma ScorableTail(cfg: CategoryConfig, eval: Evaluator)
    requires |cfg| > 0 && Scorable(cfg, eval)
    ensures Scorable(cfg[1..], eval)
  {
    forall i | 0 <= i < |cfg[1..]| && Counted(cfg[1..][i].0, cfg[1..][i].1, eval)
      ensures Divisible(cfg[1..][i].1.min, cfg[1..][i].1.max)
    {
      assert cfg[1..][i] == cfg[i + 1];
    }
  }

  /** The counted metrics of `cfg`, in order: the reference definition of
      `results` without its `score` key. */
  function Entries(cfg: CategoryConfig, eval: Evaluator): (r: seq<(string, MetricEntry)>)
    requires Scorable(cfg, eval)
    ensures |r| <= |cfg|
  {
    if cfg == [] then []
    else
      assert Counted(cfg[0].0, cfg[0].1, eval) ==> Divisible(cfg[0].1.min, cfg[0].1.max);
      ScorableTail(cfg, eval);
      var e := EntryOf(cfg[0].0, cfg[0].1, eval);
      (if e.Some? then [(cfg[0].0, e.value)] else []) + Entries(cfg[1..], eval)
  }

  /** `normalized * weight`. */
  function Contribution(e: MetricEntry): real {
    e.normalized * e.weight
  }

  function WeightedSum(es: seq<(string, MetricEntry)>): real {
    if es == [] then 0.0 else Contribution(es[0].1) + WeightedSum(es[1..])
  }

  function TotalWeight(es: seq<(string, MetricEntry)>): real {
    if es == [] then 0.0 else es[0].1.weight + TotalWeight(es[1..])
  }

  /** The weighted mean of the normalised values, 0.0 without positive weight. */
  function WeightedMean(es: seq<(string, MetricEntry)>): real {
    if TotalWeight(es) > 0.0 then Ratio(WeightedSum(es), TotalWeight(es)) else 0.0
  }

  /** The loop of `compute_category`: running `results`, `weighted_sum` and
      `total_weight` over the configured metrics in order. */
  function Accumulate(cfg: CategoryConfig, eval: Evaluator,
                      results: seq<(string, MetricEntry)>, weightedSum: real, totalWeight: real)
    : (seq<(string, MetricEntry)>, real, real)
    requires Scorable(cfg, eval)
  {
    if cfg == [] then (results, weightedSum, totalWeight)
    else
      assert Counted(cfg[0].0, cfg[0].1, eval) ==> Divisible(cfg[0].1.min, cfg[0].1.max);
      ScorableTail(cfg, eval);
      match EntryOf(cfg[0].0, cfg[0].1, eval)
      case None => Accumulate(cfg[1..], eval, results, weightedSum, totalWeight)
      case Some(e) =>
        Accumulate(cfg[1..], eval, results + [(cfg[0].0, e)],
                   weightedSum + Contribution(e), totalWeight + e.weight)
  }

  /** `compute_category(category_name, df)` on the category's block `cfg`:
      the running sums of its loop compute exactly the counted entries and
      their weighted mean (0.0 for a zero total weight). */
  function ComputeCategory(cfg: CategoryConfig, eval: Evaluator): (r: CategoryResult)
    requires Scorable(cfg, eval)
    ensures r.metrics == Entries(cfg, eval)
    ensures r.score == WeightedMean(Entries(cfg, eval))
  {
    var (results, ws, tw) := Accumulate(cfg, eval, [], 0.0, 0.0);
    AccumulateIsEntries(cfg, eval, [], 0.0, 0.0);
    assert [] + Entries(cfg, eval) == Entries(cfg, eval);
    CategoryResult(results, if tw > 0.0 then Ratio(ws, tw) else 0.0)
  }

  lemma {:induction false} AccumulateIsEntries(cfg: CategoryConfig, eval: Evaluator,
                                               results: seq<(string, MetricEntry)>, ws: real, tw: real)
    requires Scorable(cfg, eval)
    ensures Accumulate(cfg, eval, results, ws, tw)
            == (results + Entries(cfg, eval),
                ws + WeightedSum(Entries(cfg, eval)),
                tw + TotalWeight(Entries(cfg, eval)))
  {
    if cfg != [] {
      assert Counted(cfg[0].0, cfg[0].1, eval) ==> Divisible(cfg[0].1.min, cfg[0].1.max);
      ScorableTail(cfg, eval);
      var rest := Entries(cfg[1..], eval);
      match EntryOf(cfg[0].0, cfg[0].1, eval)
      case None =>
        AccumulateIsEntries(cfg[1..], eval, results, ws, tw);
        assert Accumulate(cfg, eval, results, ws, tw) == Accumulate(cfg[1..], eval, results, ws, tw);
        assert Entries(cfg, eval) == [] + rest;
        assert [] + rest == rest;
      case Some(e) =>
        var head := (cfg[0].0, e);
        AccumulateIsEntries(cfg[1..], eval, results + [head], ws + Contribution(e), tw + e.weight);
        assert Accumulate(cfg, eval, results, ws, tw)
               == Accumulate(cfg[1..], eval, results + [head], ws + Contribution(e), tw + e.weight);
        assert Entries(cfg, eval) == [head] + rest;
        assert ([head] + rest)[1..] == rest;
        assert results + [head] + rest == results + ([head] + rest);
    } else {
      assert results + [] == results;
    }
  }

  /** `entry` is what the counted configuration entry `cfg[i]` contributes:
      same name, raw value its number or 0.0 for NaN, normalised with the
      entry's bounds and `invert` flag (false when absent), and weight 1.0
      when none is declared. */
  predicate ListedFrom(entry: (string, MetricEntry), cfg: CategoryConfig, eval: Evaluator, i: int) {
    && 0 <= i < |cfg|
    && Counted(cfg[i].0, cfg[i].1, eval)
    && entry.0 == cfg[i].0
    && entry.1.weight == WeightOf(cfg[i].1)
    && entry.1.raw == RawValue(eval(cfg[i].0).value)
    && Divisible(cfg[i].1.min, cfg[i].1.max)
    && entry.1.normalized == Normalize(Some(entry.1.raw), cfg[i].1.min, cfg[i].1.max, cfg[i].1.invert.GetOr(false))
  }

  /** The `k`-th listed metric comes from some counted configuration entry. */
  ghost predicate Provenant(es: seq<(string, MetricEntry)>, k: int, cfg: CategoryConfig, eval: Evaluator)
    requires 0 <= k < |es|
  {
    exists i :: ListedFrom(es[k], cfg, eval, i)
  }

  /** Every listed metric comes from a counted configuration entry. */
  lemma {:induction false} EntriesAreCounted(cfg: CategoryConfig, eval: Evaluator)
    requires Scorable(cfg, eval)
    ensures forall k :: 0 <= k < |Entries(cfg, eval)| ==> Provenant(Entries(cfg, eval), k, cfg, eval)
  {
    if cfg != [] {
      assert Counted(cfg[0].0, cfg[0].1, eval) ==> Divisible(cfg[0].1.min, cfg[0].1.max);
      ScorableTail(cfg, eval);
      EntriesAreCounted(cfg[1..], eval);
      var rest := Entries(cfg[1..], eval);
      var es := Entries(cfg, eval);
      var e := EntryOf(cfg[0].0, cfg[0].1, eval);
      var off := if e.Some? then 1 else 0;
      assert es == (if e.Some? then [(cfg[0].0, e.value)] else []) + rest;
      forall k | 0 <= k < |es|
        ensures Provenant(es, k, cfg, eval)
      {
        if k < off {
          assert es[k] == (cfg[0].0, e.value);
          assert ListedFrom(es[k], cfg, eval, 0);
        } else {
          assert es[k] == rest[k - off];
          assert Provenant(rest, k - off, cfg[1..], eval);
          var i :| ListedFrom(rest[k - off], cfg[1..], eval, i);
          assert cfg[1..][i] == cfg[i + 1];
          assert ListedFrom(es[k], cfg, eval, i + 1);
        }
      }
    }
  }

  /** No counted metric is lost: every configuration entry is listed exactly
      when every one of them is counted. */
  lemma {:induction false} EntriesComplete(cfg: CategoryConfig, eval: Evaluator)
    requires Scorable(cfg, eval)
    ensures |Entries(cfg, eval)| == |cfg| <==> forall i :: 0 <= i < |cfg| ==> Counted(cfg[i].0, cfg[i].1, eval)
  {
    if cfg != [] {
      assert Counted(cfg[0].0, cfg[0].1, eval) ==> Divisible(cfg[0].1.min, cfg[0].1.max);
      ScorableTail(cfg, eval);
      EntriesComplete(cfg[1..], eval);
      var rest := Entries(cfg[1..], eval);
      var e := EntryOf(cfg[0].0, cfg[0].1, eval);
      assert Entries(cfg, eval) == (if e.Some? then [(cfg[0].0, e.value)] else []) + rest;
      assert (forall i :: 0 <= i < |cfg| ==> Counted(cfg[i].0, cfg[i].1, eval))
             <==> Counted(cfg[0].0, cfg[0].1, eval) && forall i :: 0 <= i < |cfg[1..]| ==> Counted(cfg[1..][i].0, cfg[1..][i].1, eval)
      by {
        forall i | 0 <= i < |cfg[1..]| ensures cfg[1..][i] == cfg[i + 1] { }
        if Counted(cfg[0].0, cfg[0].1, eval) && forall i :: 0 <= i < |cfg[1..]| ==> Counted(cfg[1..][i].0, cfg[1..][i].1, eval) {
          forall i | 0 <= i < |cfg| ensures Counted(cfg[i].0, cfg[i].1, eval) {
            if i > 0 { assert cfg[i] == cfg[1..][i - 1]; }
          }
        }
      }
    }
  }

  /** Some listed metric is what `cfg[i]` contributes. */
  ghost predicate ListedAt(es: seq<(string, MetricEntry)>, cfg: CategoryConfig, eval: Evaluator, i: int)
  {
    exists k :: 0 <= k < |es| && ListedFrom(es[k], cfg, eval, i)
  }

  /** No counted metric is lost: every counted configuration entry is listed. */
  lemma {:induction false} CountedAreListed(cfg: CategoryConfig, eval: Evaluator)
    requires Scorable(cfg, eval)
    ensures forall i :: 0 <= i < |cfg| && Counted(cfg[i].0, cfg[i].1, eval) ==> ListedAt(Entries(cfg, eval), cfg, eval, i)
  {
    if cfg != [] {
      assert Counted(cfg[0].0, cfg[0].1, eval) ==> Divisible(cfg[0].1.min, cfg[0].1.max);
      ScorableTail(cfg, eval);
      CountedAreListed(cfg[1..], eval);
      var rest := Entries(cfg[1..], eval);
      var es := Entries(cfg, eval);
      var e := EntryOf(cfg[0].0, cfg[0].1, eval);
      var off := if e.Some? then 1 else 0;
      assert es == (if e.Some? then [(cfg[0].0, e.value)] else []) + rest;
      forall i | 0 <= i < |cfg| && Counted(cfg[i].0, cfg[i].1, eval)
        ensures ListedAt(es, cfg, eval, i)
      {
        if i == 0 {
          assert es[0] == (cfg[0].0, e.value);
          assert ListedFrom(es[0], cfg, eval, 0);
        } else {
          assert cfg[1..][i - 1] == cfg[i];
          assert ListedAt(rest, cfg[1..], eval, i - 1);
          var k :| 0 <= k < |rest| && ListedFrom(rest[k], cfg[1..], eval, i - 1);
          assert es[k + off] == rest[k];
          assert ListedFrom(es[k + off], cfg, eval, i);
        }
      }
    }
  }

  /** With no counted metric (an empty or unknown category) the score is 0.0. */
  lemma NothingCountedScoresZero(cfg: CategoryConfig, eval: Evaluator)
    requires Scorable(cfg, eval)
    requires forall i :: 0 <= i < |cfg| ==> !Counted(cfg[i].0, cfg[i].1, eval)
    ensures ComputeCategory(cfg, eval) == CategoryResult([], 0.0)
  {
    NoneCounted(cfg, eval);
  }

  lemma {:induction false} NoneCounted(cfg: CategoryConfig, eval: Evaluator)
    requires Scorable(cfg, eval)
    requires forall i :: 0 <= i < |cfg| ==> !Counted(cfg[i].0, cfg[i].1, eval)
    ensures Entries(cfg, eval) == []
  {
    if cfg != [] {
      assert !Counted(cfg[0].0, cfg[0].1, eval);
      ScorableTail(cfg, eval);
      assert forall i :: 0 <= i < |cfg[1..]| ==> !Counted(cfg[1..][i].0, cfg[1..][i].1, eval) by {
        forall i | 0 <= i < |cfg[1..]| ensures !Counted(cfg[1..][i].0, cfg[1..][i].1, eval) {
          assert cfg[1..][i] == cfg[i + 1];
        }
      }
      NoneCounted(cfg[1..], eval);
    }
  }

  /** Every listed metric is rescaled into [0, 1] and weighs non-negatively. */
  predicate UnitEntries(es: seq<(string, MetricEntry)>) {
    forall k :: 0 <= k < |es| ==> 0.0 <= es[k].1.normalized <= 1.0 && 0.0 <= es[k].1.weight
  }

  lemma {:induction false} WeightedSumBounds(es: seq<(string, MetricEntry)>)
    requires UnitEntries(es)
    ensures 0.0 <= WeightedSum(es) <= TotalWeight(es)
  {
    if es != [] {
      assert UnitEntries(es[1..]) by {
        forall k | 0 <= k < |es[1..]|
          ensures 0.0 <= es[1..][k].1.normalized <= 1.0 && 0.0 <= es[1..][k].1.weight
        {
          assert es[1..][k] == es[k + 1];
        }
      }
      WeightedSumBounds(es[1..]);
      assert 0.0 <= es[0].1.normalized <= 1.0 && 0.0 <= es[0].1.weight;
      HeadBounds(es[0].1, WeightedSum(es[1..]), TotalWeight(es[1..]));
    }
  }

  /** One unit entry in front of a bounded rest keeps the sum bounded. */
  lemma HeadBounds(e: MetricEntry, restSum: real, restTotal: real)
    requires 0.0 <= e.normalized <= 1.0 && 0.0 <= e.weight
    requires 0.0 <= restSum <= restTotal
    ensures 0.0 <= Contribution(e) + restSum <= e.weight + restTotal
  {
    ScaleBound(e.normalized, e.weight);
    assert Contribution(e) == e.normalized * e.weight;
    AddBounds(Contribution(e), restSum, e.weight, restTotal);
  }

  /** The score is a weighted mean, so it stays in [0, 1] when every counted
      metric is rescaled into [0, 1] and no weight is negative. */
  lemma ScoreInUnit(cfg: CategoryConfig, eval: Evaluator)
    requires Scorable(cfg, eval)
    requires UnitEntries(Entries(cfg, eval))
    ensures 0.0 <= ComputeCategory(cfg, eval).score <= 1.0
  {
    WeightedSumBounds(Entries(cfg, eval));
  }

  /** Bounded metric blocks with non-negative weights give unit entries. */
  lemma {:induction false} BoundedSpecsGiveUnitEntries(cfg: CategoryConfig, eval: Evaluator)
    requires Scorable(cfg, eval)
    requires forall i :: 0 <= i < |cfg| ==> cfg[i].1.min.Some? && cfg[i].1.max.Some? && WeightOf(cfg[i].1) >= 0.0
    ensures UnitEntries(Entries(cfg, eval))
  {
    if cfg != [] {
      assert Counted(cfg[0].0, cfg[0].1, eval) ==> Divisible(cfg[0].1.min, cfg[0].1.max);
      assert cfg[0].1.min.Some? && cfg[0].1.max.Some? && WeightOf(cfg[0].1) >= 0.0;
      ScorableTail(cfg, eval);
      assert forall i :: 0 <= i < |cfg[1..]| ==> cfg[1..][i].1.min.Some? && cfg[1..][i].1.max.Some? && WeightOf(cfg[1..][i].1) >= 0.0 by {
        forall i | 0 <= i < |cfg[1..]|
          ensures cfg[1..][i].1.min.Some? && cfg[1..][i].1.max.Some? && WeightOf(cfg[1..][i].1) >= 0.0
        {
          assert cfg[1..][i] == cfg[i + 1];
        }
      }
      BoundedSpecsGiveUnitEntries(cfg[1..], eval);
      var rest := Entries(cfg[1..], eval);
      var e := EntryOf(cfg[0].0, cfg[0].1, eval);
      var es := Entries(cfg, eval);
      assert es == (if e.Some? then [(cfg[0].0, e.value)] else []) + rest;
      forall k | 0 <= k < |es| ensures 0.0 <= es[k].1.normalized <= 1.0 && 0.0 <= es[k].1.weight {
        if e.Some? && k == 0 {
        } else if e.Some? {
          assert es[k] == rest[k - 1];
        } else {
          assert es[k] == rest[k];
        }
      }
    }
  }

  lemma {:induction false} ConstantWeightedSum(es: seq<(string, MetricEntry)>, v: real)
    requires forall k :: 0 <= k < |es| ==> es[k].1.normalized == v
    ensures WeightedSum(es) == v * TotalWeight(es)
  {
    if es != [] {
      assert forall k :: 0 <= k < |es[1..]| ==> es[1..][k].1.normalized == v by {
        forall k | 0 <= k < |es[1..]| ensures es[1..][k].1.normalized == v {
          assert es[1..][k] == es[k + 1];
        }
      }
      ConstantWeightedSum(es[1..], v);
      Distribute2(v, es[0].1.weight, TotalWeight(es[1..]));
    }
  }

  /** When every counted metric normalises to the same `v` and the weights
      total more than 0, the category score is `v`. */
  lemma UniformCategory(cfg: CategoryConfig, eval: Evaluator, v: real)
    requires Scorable(cfg, eval)
    requires forall k :: 0 <= k < |Entries(cfg, eval)| ==> Entries(cfg, eval)[k].1.normalized == v
    requires TotalWeight(Entries(cfg, eval)) > 0.0
    ensures ComputeCategory(cfg, eval).score == v
  {
    var es := Entries(cfg, eval);
    ConstantWeightedSum(es, v);
    MeanOfConstant(es, v);
  }

  /** Entries whose normalised values all equal `v`, with positive total
      weight, have weighted mean `v`. */
  lemma MeanOfConstant(es: seq<(string, MetricEntry)>, v: real)
    requires WeightedSum(es) == v * TotalWeight(es) && TotalWeight(es) > 0.0
    ensures WeightedMean(es) == v
  {
    RatioOfMultiple(v, TotalWeight(es));
  }

  // ---------------------------------------------------------------
  // Global score
  // ---------------------------------------------------------------

  /** The four categories, in the order the engine scores them. */
  const Categories: seq<string> := ["efectividad", "eficiencia", "satisfaccion", "presencia"]

  /** A profile block: weights keyed `<category>_weight`. */
  type Profile = map<string, real>

  /** `profile.get(key, 1)`. */
  function WeightFor(p: Profile, key: string): real {
    if key in p then p[key] else 1.0
  }

  /** The four category scores of one table or partition. */
  datatype Scores = Scores(efectividad: real, eficiencia: real, satisfaccion: real, presencia: real)

  /** The four profile weights, in category order. */
  datatype Weights = Weights(efectividad: real, eficiencia: real, satisfaccion: real, presencia: real)

  function WeightsOf(p: Profile): Weights {
    Weights(WeightFor(p, "efectividad_weight"), WeightFor(p, "eficiencia_weight"),
            WeightFor(p, "satisfaccion_weight"), WeightFor(p, "presencia_weight"))
  }

  function WeightTotal(w: Weights): real {
    w.efectividad + w.eficiencia + w.satisfaccion + w.presencia
  }

  function WeightedScores(s: Scores, w: Weights): real {
    s.efectividad * w.efectividad + s.eficiencia * w.eficiencia
    + s.satisfaccion * w.satisfaccion + s.presencia * w.presencia
  }

  /** `compute_global_score`: the profile-weighted mean of the four category
      scores. The source divides without a guard, so the weights must not
      cancel out. */
  function ComputeGlobalScore(s: Scores, p: Profile): (r: real)
    requires WeightTotal(WeightsOf(p)) != 0.0
    ensures r * WeightTotal(WeightsOf(p)) == WeightedScores(s, WeightsOf(p))
  {
    WeightedScores(s, WeightsOf(p)) / WeightTotal(WeightsOf(p))
  }

  /** A profile that declares no weight (an unknown profile) averages the four scores. */
  lemma DefaultProfileAverages(s: Scores)
    ensures ComputeGlobalScore(s, map[]) == (s.efectividad + s.eficiencia + s.satisfaccion + s.presencia) / 4.0
  {
  }

  lemma WeightedScoresBound(s: Scores, w: Weights)
    requires w.efectividad >= 0.0 && w.eficiencia >= 0.0 && w.satisfaccion >= 0.0 && w.presencia >= 0.0
    requires 0.0 <= s.efectividad <= 1.0 && 0.0 <= s.eficiencia <= 1.0
    requires 0.0 <= s.satisfaccion <= 1.0 && 0.0 <= s.presencia <= 1.0
    ensures 0.0 <= WeightedScores(s, w) <= WeightTotal(w)
  {
    ScaleBound(s.efectividad, w.efectividad);
    ScaleBound(s.eficiencia, w.eficiencia);
    ScaleBound(s.satisfaccion, w.satisfaccion);
    ScaleBound(s.presencia, w.presencia);
    SumBound4(s.efectividad * w.efectividad, s.eficiencia * w.eficiencia,
              s.satisfaccion * w.satisfaccion, s.presencia * w.presencia,
              w.efectividad, w.eficiencia, w.satisfaccion, w.presencia);
  }

  /** With non-negative weights of positive total, unit scores give a unit global score. */
  lemma GlobalScoreInUnit(s: Scores, p: Profile)
    requires WeightsOf(p).efectividad >= 0.0 && WeightsOf(p).eficiencia >= 0.0
    requires WeightsOf(p).satisfaccion >= 0.0 && WeightsOf(p).presencia >= 0.0
    requires WeightTotal(WeightsOf(p)) > 0.0
    requires 0.0 <= s.efectividad <= 1.0 && 0.0 <= s.eficiencia <= 1.0
    requires 0.0 <= s.satisfaccion <= 1.0 && 0.0 <= s.presencia <= 1.0
    ensures 0.0 <= ComputeGlobalScore(s, p) <= 1.0
  {
    var w := WeightsOf(p);
    WeightedScoresBound(s, w);
    assert ComputeGlobalScore(s, p) == Ratio(WeightedScores(s, w), WeightTotal(w));
  }

  lemma UniformWeighted(v: real, w: Weights)
    ensures WeightedScores(Scores(v, v, v, v), w) == v * WeightTotal(w)
  {
    Distribute4(v, w.efectividad, w.eficiencia, w.satisfaccion, w.presencia);
  }

  /** Equal category scores give that score globally, whatever the weights. */
  lemma UniformGlobalScore(v: real, p: Profile)
    requires WeightTotal(WeightsOf(p)) != 0.0
    ensures ComputeGlobalScore(Scores(v, v, v, v), p) == v
  {
    var w := WeightsOf(p);
    UniformWeighted(v, w);
    QuotientOfMultiple(v, WeightTotal(w));
  }
}
