/** The fixed table of metric names a configuration may refer to
    (`MetricsCalculator._available_metric_functions`) and the dispatch from
    a name to its statistic. */
module Registry {
  import opened Wrappers
  import opened Events
  import opened Statistics

  datatype Metric =
    | HitRatioMetric
    | PrecisionMetric
    | SuccessRateMetric
    | LearningCurveMeanMetric
    | AvgReactionTimeMetric
    | AvgTaskDurationMetric
    | TimePerSuccessMetric
    | RetriesAfterEndMetric
    | VoluntaryPlayTimeMetric
    | AidUsageMetric
    | InactivityTimeMetric
    | FirstSuccessTimeMetric
    | SoundLocalizationTimeMetric
    | ActivityLevelMetric
    | ProgressionMetric
    | SuccessAfterRestartMetric
    | NavigationErrorsMetric
    | AimErrorsMetric
    | TaskDurationSuccessMetric
    | TaskDurationFailMetric
    | InterfaceErrorsMetric
    | LearningStabilityMetric
    | ErrorReductionRateMetric
    | AudioPerformanceGainMetric

  /** The configuration key of each metric. */
  function NameOf(m: Metric): string {
    match m
    case HitRatioMetric => "hit_ratio"
    case PrecisionMetric => "precision"
    case SuccessRateMetric => "success_rate"
    case LearningCurveMeanMetric => "learning_curve_mean"
    case AvgReactionTimeMetric => "avg_reaction_time_ms"
    case AvgTaskDurationMetric => "avg_task_duration_ms"
    case TimePerSuccessMetric => "time_per_success_s"
    case RetriesAfterEndMetric => "retries_after_end"
    case VoluntaryPlayTimeMetric => "voluntary_play_time_s"
    case AidUsageMetric => "aid_usage"
    case InactivityTimeMetric => "inactivity_time_s"
    case FirstSuccessTimeMetric => "first_success_time_s"
    case SoundLocalizationTimeMetric => "sound_localization_time_s"
    case ActivityLevelMetric => "activity_level_per_min"
    case ProgressionMetric => "progression"
    case SuccessAfterRestartMetric => "success_after_restart"
    case NavigationErrorsMetric => "navigation_errors"
    case AimErrorsMetric => "aim_errors"
    case TaskDurationSuccessMetric => "task_duration_success"
    case TaskDurationFailMetric => "task_duration_fail"
    case InterfaceErrorsMetric => "interface_errors"
    case LearningStabilityMetric => "learning_stability"
    case ErrorReductionRateMetric => "error_reduction_rate"
    case AudioPerformanceGainMetric => "audio_performance_gain"
  }

  /** The registered metrics, in the order the source lists them. */
  const AllMetrics: seq<Metric> := [
    HitRatioMetric, PrecisionMetric, SuccessRateMetric, LearningCurveMeanMetric,
    AvgReactionTimeMetric, AvgTaskDurationMetric, TimePerSuccessMetric,
    RetriesAfterEndMetric, VoluntaryPlayTimeMetric, AidUsageMetric,
    InactivityTimeMetric, FirstSuccessTimeMetric, SoundLocalizationTimeMetric, ActivityLevelMetric,
    ProgressionMetric, SuccessAfterRestartMetric, NavigationErrorsMetric, AimErrorsMetric,
    TaskDurationSuccessMetric, TaskDurationFailMetric, InterfaceErrorsMetric,
    LearningStabilityMetric, ErrorReductionRateMetric, AudioPerformanceGainMetric]

  lemma AllMetricsComplete(m: Metric)
    ensures m in AllMetrics
  {
  }

  /** The first metric of `ms` registered under `name`. */
  function Find(ms: seq<Metric>, name: string): (r: Option<Metric>)
    ensures r.Some? ==> r.value in ms && NameOf(r.value) == name
    ensures r.None? ==> forall m :: m in ms ==> NameOf(m) != name
  {
    if ms == [] then None
    else if NameOf(ms[0]) == name then Some(ms[0])
    else Find(ms[1..], name)
  }

  /** `metric_funcs.get(name)`: the metric registered under `name`, or `None`
      for a name the table does not know. */
  function MetricOfName(name: string): (r: Option<Metric>)
    ensures r.Some? ==> NameOf(r.value) == name
    ensures r.None? <==> forall m: Metric :: NameOf(m) != name
  {
    var r := Find(AllMetrics, name);
    if r.None? then NotRegistered(name); r else r
  }

  lemma NotRegistered(name: string)
    requires Find(AllMetrics, name).None?
    ensures forall m: Metric :: NameOf(m) != name
  {
    forall m: Metric ensures NameOf(m) != name {
      AllMetricsComplete(m);
    }
  }

  /** `func(df)` for the metric `m`; `std` is `np.std`. */
  function Evaluate(m: Metric, t: Table, std: seq<real> -> NonNegReal): (r: MetricResult)
    ensures r.Skip? ==> m == SoundLocalizationTimeMetric
    ensures m == SoundLocalizationTimeMetric ==> r == SoundLocalizationTime(t)
    ensures m == TaskDurationSuccessMetric || m == TaskDurationFailMetric ==> r == AvgTaskDuration(t)
  {
    match m
    case HitRatioMetric => Val(HitRatio(t))
    case PrecisionMetric => Precision(t)
    case SuccessRateMetric => SuccessRate(t)
    case LearningCurveMeanMetric => Val(LearningCurveMean(t))
    case AvgReactionTimeMetric => AvgReactionTime(t)
    case AvgTaskDurationMetric => AvgTaskDuration(t)
    case TimePerSuccessMetric => TimePerSuccess(t)
    case RetriesAfterEndMetric => Val(RetriesAfterEnd(t))
    case VoluntaryPlayTimeMetric => Val(VoluntaryPlayTime(t))
    case AidUsageMetric => Val(AidUsage(t))
    case InactivityTimeMetric => Val(InactivityTime(t))
    case FirstSuccessTimeMetric => FirstSuccessTime(t)
    case SoundLocalizationTimeMetric => SoundLocalizationTime(t)
    case ActivityLevelMetric => ActivityLevel(t)
    case ProgressionMetric => Val(Progression(t))
    case SuccessAfterRestartMetric => Val(SuccessAfterRestart(t))
    case NavigationErrorsMetric => Val(NavigationErrors(t))
    case AimErrorsMetric => Val(AimErrors(t))
    case TaskDurationSuccessMetric => AvgTaskDuration(t)
    case TaskDurationFailMetric => AvgTaskDuration(t)
    case InterfaceErrorsMetric => Val(InterfaceErrors(t))
    case LearningStabilityMetric => Val(LearningStability(t, std))
    case ErrorReductionRateMetric => Val(ErrorReductionRate(t))
    case AudioPerformanceGainMetric => Val(AudioPerformanceGain(t))
  }

  /** Metrics whose value is a count of rows, never NaN and never negative. */
  predicate IsCount(m: Metric) {
    m in {RetriesAfterEndMetric, AidUsageMetric, ProgressionMetric, NavigationErrorsMetric,
          AimErrorsMetric, InterfaceErrorsMetric}
  }

  /** Only the sound-localization metric can ask to be skipped, and it skips
      exactly when one of its two events is absent or the head turn does not
      come after the audio cue. */
  lemma SkipOnlySoundLocalization(m: Metric, t: Table, std: seq<real> -> NonNegReal)
    ensures Evaluate(m, t, std).Skip? <==> m == SoundLocalizationTimeMetric && SoundLocalizationTime(t).Skip?
  {
  }

  /** `success_after_restart` is a constant placeholder. */
  lemma SuccessAfterRestartZero(t: Table, std: seq<real> -> NonNegReal)
    ensures Evaluate(SuccessAfterRestartMetric, t, std) == Val(0.0)
  {
  }

  /** `audio_performance_gain` always yields a number, never `None`, and
      0.0 when the frame has no `audio_enabled` column. */
  lemma AudioGainNeverSkips(t: Table, std: seq<real> -> NonNegReal)
    ensures Evaluate(AudioPerformanceGainMetric, t, std).Val?
    ensures "audio_enabled" !in t.columns ==> Evaluate(AudioPerformanceGainMetric, t, std) == Val(0.0)
  {
  }

  /** A count metric yields a non-negative number. */
  lemma CountsAreValues(m: Metric, t: Table, std: seq<real> -> NonNegReal)
    requires IsCount(m)
    ensures Evaluate(m, t, std).Val? && Evaluate(m, t, std).x >= 0.0
  {
  }

  /** The table has no duplicate key: distinct metrics have distinct names. */
  lemma NameOfInjective(m1: Metric, m2: Metric)
    requires NameOf(m1) == NameOf(m2)
    ensures m1 == m2
  {
  }

  /** Looking a metric's own name up finds that metric. */
  lemma MetricOfNameRoundTrip(m: Metric)
    ensures MetricOfName(NameOf(m)) == Some(m)
  {
    var r := MetricOfName(NameOf(m));
    NameOfInjective(r.value, m);
  }
}
