/** The statistic methods of `MetricsCalculator`: each computes one scalar
    from an event (sub-)table. NaN is `NoData`, a `None` return is `Skip`. */
module Statistics {
  import opened Wrappers
  import opened Values
  import opened Numeric
  import Strings
  import opened Events
  import opened TaskPairs

  /** What a metric function returns: a number, NaN, or `None` (skip me). */
  datatype MetricResult = Val(x: real) | NoData | Skip

  /** Milliseconds to seconds (`Timedelta.total_seconds()`). */
  function Seconds(ms: int): real {
    ms as real / 1000.0
  }

  /** Seconds from the stamp `from` to the stamp `to` (negative when `to` is earlier). */
  function Elapsed(from: int, to: int): real {
    Seconds(to - from)
  }

  /** Minutes from the stamp `from` to the stamp `to`. */
  function Minutes(from: int, to: int): real {
    Elapsed(from, to) / 60.0
  }

  function RoleCount(t: Table, role: string): nat {
    Count(t.rows, RoleIs(role))
  }

  // ---------------------------------------------------------------
  // Counting facts
  // ---------------------------------------------------------------

  /** Rows satisfying `a` or `b` (never both) split into the two counts. */
  lemma {:induction false} CountSplit(rows: seq<Event>, p: Event -> bool, a: Event -> bool, b: Event -> bool)
    requires forall e :: p(e) <==> (a(e) || b(e))
    requires forall e :: !(a(e) && b(e))
    ensures Count(rows, p) == Count(rows, a) + Count(rows, b)
  {
    if rows != [] {
      CountSplit(rows[1..], p, a, b);
    }
  }

  /** Selecting by `q` inside a selection by a weaker `p` selects by `q`. */
  lemma {:induction false} FilterNarrow(rows: seq<Event>, p: Event -> bool, q: Event -> bool)
    requires forall e :: q(e) ==> p(e)
    ensures Filter(Filter(rows, p), q) == Filter(rows, q)
  {
    if rows != [] {
      FilterNarrow(rows[1..], p, q);
    }
  }

  lemma ActionCount(t: Table)
    ensures Count(t.rows, IsAction) == RoleCount(t, ActionSuccess) + RoleCount(t, ActionFail)
    ensures Count(Filter(t.rows, IsAction), RoleIs(ActionSuccess)) == RoleCount(t, ActionSuccess)
  {
    CountSplit(t.rows, IsAction, RoleIs(ActionSuccess), RoleIs(ActionFail));
    FilterNarrow(t.rows, IsAction, RoleIs(ActionSuccess));
  }

  // ---------------------------------------------------------------
  // Effectiveness
  // ---------------------------------------------------------------

  /** `hit_ratio`: successes over successes plus fails; 0.0 on an empty
      table and when there is no action at all. */
  function HitRatio(t: Table): (r: real)
    ensures 0.0 <= r <= 1.0
    ensures t.rows == [] || RoleCount(t, ActionSuccess) == 0 ==> r == 0.0
    ensures RoleCount(t, ActionSuccess) > 0 && RoleCount(t, ActionFail) == 0 ==> r == 1.0
    ensures t.rows != [] && RoleCount(t, ActionSuccess) + RoleCount(t, ActionFail) > 0 ==>
              r == Ratio(RoleCount(t, ActionSuccess) as real, (RoleCount(t, ActionSuccess) + RoleCount(t, ActionFail)) as real)
  {
    if t.rows == [] then 0.0 else SuccessShare(RoleCount(t, ActionSuccess), RoleCount(t, ActionFail))
  }

  /** `hits / tot if tot > 0 else 0.0` with `tot = hits + fails`. */
  function SuccessShare(hits: nat, fails: nat): (r: real)
    ensures 0.0 <= r <= 1.0
    ensures hits == 0 ==> r == 0.0
    ensures hits > 0 && fails == 0 ==> r == 1.0
    ensures hits + fails > 0 ==> r == Ratio(hits as real, (hits + fails) as real)
  {
    var tot := hits + fails;
    if tot == 0 then 0.0
    else
      var r := Ratio(hits as real, tot as real);
      if hits == 0 then
        RatioOfMultiple(0.0, tot as real);
        assert 0.0 * (tot as real) == hits as real;
        r
      else if fails == 0 then
        RatioOfMultiple(1.0, tot as real);
        assert 1.0 * (tot as real) == hits as real;
        r
      else r
  }

  /** `precision`: the same ratio as `hit_ratio` over the action rows, but NaN
      when there is no action. */
  function Precision(t: Table): (r: MetricResult)
    ensures r.NoData? <==> Matching(t.rows, IsAction) == {}
    ensures !r.Skip?
    ensures r.Val? ==> 0.0 <= r.x <= 1.0
    ensures r.Val? ==> r.x == Ratio(|Matching(t.rows, RoleIs(ActionSuccess))| as real, |Matching(t.rows, IsAction)| as real)
  {
    var actions := Filter(t.rows, IsAction);
    var hits := Count(actions, RoleIs(ActionSuccess));
    ActionPositions(t);
    if |actions| == 0 then NoData
    else
      Val(Ratio(hits as real, |actions| as real))
  }

  /** The action rows and their successes, counted by position. */
  lemma ActionPositions(t: Table)
    ensures |Filter(t.rows, IsAction)| == |Matching(t.rows, IsAction)|
    ensures Count(Filter(t.rows, IsAction), RoleIs(ActionSuccess)) == |Matching(t.rows, RoleIs(ActionSuccess))|
    ensures Count(Filter(t.rows, IsAction), RoleIs(ActionSuccess)) <= |Filter(t.rows, IsAction)|
  {
    CountIsMatching(t.rows, IsAction);
    ActionCount(t);
    CountIsMatching(t.rows, RoleIs(ActionSuccess));
  }

  /** `precision` and `hit_ratio` agree whenever there is an action;
      otherwise `precision` is NaN while `hit_ratio` is 0.0. */
  lemma PrecisionIsHitRatio(t: Table)
    ensures Count(t.rows, IsAction) > 0 ==> Precision(t) == Val(HitRatio(t))
    ensures Count(t.rows, IsAction) == 0 ==> Precision(t) == NoData && HitRatio(t) == 0.0
  {
    ActionCount(t);
  }

  /** `str(v).lower() == "success"`: only a string can print as `success`. */
  predicate IsSuccessText(v: Value) {
    v.Str? && Strings.Lower(v.s) == "success"
  }

  function SucceededTaskEnd(e: Event): bool {
    e.eventRole == TaskEnd && IsSuccessText(e.eventValue)
  }

  /** `success_rate`: share of `task_end` rows whose value reads `success`
      in any letter case; NaN without `task_end` rows. */
  function SuccessRate(t: Table): (r: MetricResult)
    ensures r.NoData? <==> RoleCount(t, TaskEnd) == 0
    ensures r.Val? ==> 0.0 <= r.x <= 1.0
    ensures !r.Skip?
  {
    var tasks := Filter(t.rows, RoleIs(TaskEnd));
    if |tasks| == 0 then NoData
    else
      var n := Count(tasks, (e: Event) => IsSuccessText(e.eventValue));
      Val(Ratio(n as real, |tasks| as real))
  }

  /** `progression`: number of `task_end` rows whose value reads `success`. */
  function Progression(t: Table): (r: real)
    ensures r == |Matching(t.rows, SucceededTaskEnd)| as real
  {
    CountIsMatching(t.rows, SucceededTaskEnd);
    Count(t.rows, SucceededTaskEnd) as real
  }

  /** `success_rate` is `progression` divided by the number of `task_end` rows. */
  lemma SuccessRateIsProgressionShare(t: Table)
    requires RoleCount(t, TaskEnd) > 0
    ensures SuccessRate(t) == Val(Progression(t) / RoleCount(t, TaskEnd) as real)
  {
    FilterNarrow(t.rows, RoleIs(TaskEnd), SucceededTaskEnd);
    var tasks := Filter(t.rows, RoleIs(TaskEnd));
    FilterSame(tasks, (e: Event) => IsSuccessText(e.eventValue), SucceededTaskEnd);
  }

  /** Two selections agreeing on every row of `rows` select the same rows. */
  lemma {:induction false} FilterSame(rows: seq<Event>, p: Event -> bool, q: Event -> bool)
    requires forall i :: 0 <= i < |rows| ==> p(rows[i]) == q(rows[i])
    ensures Filter(rows, p) == Filter(rows, q)
  {
    if rows != [] {
      FilterSame(rows[1..], p, q);
    }
  }

  /** Success fraction of consecutive blocks of `b` actions, in table order. */
  function BlockRatios(actions: seq<Event>, b: nat): (r: seq<real>)
    requires b > 0
    ensures r == [] <==> actions == []
    ensures |actions| <= b ==> |r| <= 1
    ensures |actions| > b ==> |r| >= 2
    ensures forall i :: 0 <= i < |r| ==> 0.0 <= r[i] <= 1.0
    decreases |actions|
  {
    if actions == [] then []
    else
      var k := if b <= |actions| then b else |actions|;
      var hits := Count(actions[..k], RoleIs(ActionSuccess));
      [Ratio(hits as real, k as real)] + BlockRatios(actions[k..], b)
  }

  /** `learning_curve(df, block_size)`: one success fraction per block of
      actions; a block is never empty, so no entry is NaN. */
  function LearningCurve(t: Table, blockSize: nat): (r: seq<real>)
    requires blockSize > 0
    ensures r == [] <==> Count(t.rows, IsAction) == 0
    ensures Count(t.rows, IsAction) <= blockSize ==> |r| <= 1
    ensures Count(t.rows, IsAction) > blockSize ==> |r| >= 2
    ensures forall i :: 0 <= i < |r| ==> 0.0 <= r[i] <= 1.0
  {
    BlockRatios(Filter(t.rows, IsAction), blockSize)
  }

  /** Where block `j` of size `b` ends in a sequence of `n` actions. */
  function BlockEnd(n: nat, b: nat, j: nat): nat {
    if (j + 1) * b <= n then (j + 1) * b else n
  }

  /** The success fraction of block `j`: `actions[j*b : (j+1)*b]`, the last
      block cut short at the end of the sequence. */
  function BlockRatio(actions: seq<Event>, b: nat, j: nat): real
    requires b > 0 && j * b < |actions|
  {
    var lo := j * b;
    var hi := BlockEnd(|actions|, b, j);
    Ratio(Count(actions[lo..hi], RoleIs(ActionSuccess)) as real, (hi - lo) as real)
  }

  lemma MulStep(j: nat, b: nat)
    ensures (j + 1) * b == j * b + b
  {
  }

  /** The first block, then the blocks of what follows it. */
  lemma BlockRatiosHead(actions: seq<Event>, b: nat)
    requires b > 0 && actions != []
    ensures BlockRatios(actions, b)
            == [BlockRatio(actions, b, 0)] + BlockRatios(actions[if b <= |actions| then b else |actions|..], b)
  {
    MulStep(0, b);
    assert BlockEnd(|actions|, b, 0) == if b <= |actions| then b else |actions|;
  }

  /** Block `j - 1` of `actions[b..]` is block `j` of `actions`. */
  lemma BlockShift(actions: seq<Event>, b: nat, j: nat)
    requires 0 < b < |actions| && j > 0 && (j - 1) * b < |actions| - b
    ensures j * b < |actions|
    ensures BlockRatio(actions[b..], b, j - 1) == BlockRatio(actions, b, j)
  {
    var n := |actions|;
    MulStep(j - 1, b);
    MulStep(j, b);
    assert BlockEnd(n - b, b, j - 1) + b == BlockEnd(n, b, j);
    assert actions[b..][(j - 1) * b..BlockEnd(n - b, b, j - 1)] == actions[j * b..BlockEnd(n, b, j)];
  }

  /** One more block covers `b` more actions. */
  lemma CeilStep(c: nat, rest: nat, b: nat, n: nat)
    requires 0 < b < n && rest > 0 && c == rest + 1
    requires (rest - 1) * b < n - b <= rest * b
    ensures (c - 1) * b < n <= c * b
  {
    MulStep(rest, b);
  }

  /** `range(0, len(actions), b)`: for `n > 0` actions there are `ceil(n / b)`
      blocks, the one count `c` with `(c - 1) * b < n <= c * b`. */
  lemma {:induction false} BlockCount(actions: seq<Event>, b: nat)
    requires b > 0
    ensures actions != [] ==>
              (|BlockRatios(actions, b)| - 1) * b < |actions| <= |BlockRatios(actions, b)| * b
    decreases |actions|
  {
    if actions != [] {
      BlockRatiosHead(actions, b);
      var c := |BlockRatios(actions, b)|;
      if b < |actions| {
        var rest := BlockRatios(actions[b..], b);
        BlockCount(actions[b..], b);
        CeilStep(c, |rest|, b, |actions|);
      } else {
        MulStep(0, b);
      }
    }
  }

  /** Block `j` is the fraction of successes among `actions[j*b : (j+1)*b]`. */
  lemma {:induction false} BlockValues(actions: seq<Event>, b: nat)
    requires b > 0
    ensures forall j :: 0 <= j < |BlockRatios(actions, b)| ==>
              j * b < |actions| && BlockRatios(actions, b)[j] == BlockRatio(actions, b, j)
    decreases |actions|
  {
    if actions != [] {
      var k := if b <= |actions| then b else |actions|;
      var r := BlockRatios(actions, b);
      var rest := BlockRatios(actions[k..], b);
      BlockRatiosHead(actions, b);
      BlockValues(actions[k..], b);
      forall j | 0 <= j < |r|
        ensures j * b < |actions| && r[j] == BlockRatio(actions, b, j)
      {
        if j > 0 {
          assert r[j] == rest[j - 1];
          BlockShift(actions, b, j);
        } else {
          MulStep(0, b);
        }
      }
    }
  }

  /** The learning curve has `ceil(n / block_size)` entries for `n > 0`
      actions, entry `j` the success fraction of the `j`-th block of actions. */
  lemma LearningCurveExact(t: Table, blockSize: nat)
    requires blockSize > 0
    ensures Count(t.rows, IsAction) > 0 ==>
              (|LearningCurve(t, blockSize)| - 1) * blockSize < Count(t.rows, IsAction) <= |LearningCurve(t, blockSize)| * blockSize
    ensures forall j :: 0 <= j < |LearningCurve(t, blockSize)| ==>
              j * blockSize < Count(t.rows, IsAction) &&
              LearningCurve(t, blockSize)[j] == BlockRatio(Filter(t.rows, IsAction), blockSize, j)
  {
    BlockCount(Filter(t.rows, IsAction), blockSize);
    BlockValues(Filter(t.rows, IsAction), blockSize);
  }

  const DefaultBlockSize: nat := 5

  /** With at most one block of actions, the curve is the single hit ratio. */
  lemma SingleBlockCurve(t: Table, blockSize: nat)
    requires 0 < Count(t.rows, IsAction) <= blockSize
    ensures LearningCurve(t, blockSize) == [HitRatio(t)]
  {
    var actions := Filter(t.rows, IsAction);
    assert actions[..|actions|] == actions;
    assert actions[|actions|..] == [];
    ActionCount(t);
  }

  /** `learning_curve_mean`: the mean block ratio, 0.0 without any action. */
  function LearningCurveMean(t: Table): (r: real)
    ensures 0.0 <= r <= 1.0
    ensures Count(t.rows, IsAction) == 0 ==> r == 0.0
  {
    var vals := LearningCurve(t, DefaultBlockSize);
    if vals == [] then 0.0
    else
      MeanBounds(vals, 0.0, 1.0);
      Mean(vals)
  }

  /** `success_after_restart` is a placeholder that always yields 0.0. */
  function SuccessAfterRestart(t: Table): (r: real)
    ensures r == 0.0
  {
    0.0
  }

  // ---------------------------------------------------------------
  // Efficiency
  // ---------------------------------------------------------------

  /** `pd.to_numeric(v, errors="coerce")` on one cell: a number stays, a
      boolean counts 1 or 0, a decimal literal is read, anything else is NaN. */
  function ToNumeric(v: Value): (r: Option<real>)
    ensures v.Num? ==> r == Some(v.x)
    ensures v.Bool? ==> r == Some(if v.b then 1.0 else 0.0)
    ensures v.Str? ==> r == Strings.ParseDecimal(v.s)
    ensures v.Null? || v.Stamp? || v.List? || v.Dict? ==> r.None?
  {
    match v
    case Num(x) => Some(x)
    case Bool(b) => Some(if b then 1.0 else 0.0)
    case Str(s) => Strings.ParseDecimal(s)
    case _ => None
  }

  /** The cell of column `col` converts to a number. */
  predicate Converts(e: Event, col: string) {
    col in e.cells && ToNumeric(e.cells[col]).Some?
  }

  /** The numeric cells of column `col`, in row order, NaN and unconvertible
      cells dropped (`pd.to_numeric(..., errors="coerce").dropna()`). */
  function NumericCells(rows: seq<Event>, col: string): (r: seq<real>)
    ensures |r| <= |rows|
    ensures r == [] <==> forall i :: 0 <= i < |rows| ==> !Converts(rows[i], col)
    ensures forall x :: x in r ==> exists i :: 0 <= i < |rows| && Converts(rows[i], col) && ToNumeric(rows[i].cells[col]) == Some(x)
    ensures forall i :: 0 <= i < |rows| && Converts(rows[i], col) ==> ToNumeric(rows[i].cells[col]).value in r
  {
    if rows == [] then []
    else
      var rest := NumericCells(rows[1..], col);
      assert forall i :: 1 <= i < |rows| ==> rows[i] == rows[1..][i - 1];
      if Converts(rows[0], col) then [ToNumeric(rows[0].cells[col]).value] + rest else rest
  }

  /** A column of numeric strings is read as the numbers they spell. */
  lemma NumericStringCell(e: Event, col: string, n: nat)
    requires col in e.cells && e.cells[col] == Str(Strings.NatToString(n))
    ensures NumericCells([e], col) == [n as real]
  {
    Strings.ParseNatString(n);
  }

  /** The non-NaN `reaction_time_ms` values of the derived rows. */
  function Reactions(stats: seq<TaskStat>): seq<real> {
    if stats == [] then []
    else (if stats[0].reactionMs.Some? then [stats[0].reactionMs.value] else []) + Reactions(stats[1..])
  }

  /** The non-NaN `task_duration_ms` values of the derived rows. */
  function Durations(stats: seq<TaskStat>): seq<real> {
    if stats == [] then []
    else (if stats[0].durationMs.Some? then [stats[0].durationMs.value] else []) + Durations(stats[1..])
  }

  predicate AllCoherent(stats: seq<TaskStat>) {
    forall i :: 0 <= i < |stats| ==> Coherent(stats[i])
  }

  /** A derived row has a reaction time only when it has a duration, so there
      are never more reaction values than duration values, and none is negative. */
  lemma {:induction false} DerivedValues(stats: seq<TaskStat>)
    requires AllCoherent(stats)
    ensures NonNegative(Reactions(stats)) && NonNegative(Durations(stats))
    ensures |Reactions(stats)| <= |Durations(stats)|
  {
    if stats != [] {
      assert Coherent(stats[0]);
      assert AllCoherent(stats[1..]) by {
        forall i | 0 <= i < |stats[1..]| ensures Coherent(stats[1..][i]) {
          assert stats[1..][i] == stats[i + 1];
        }
      }
      DerivedValues(stats[1..]);
    }
  }

  const ReactionColumn := "reaction_time_ms"
  const DurationColumn := "duration_ms"

  /** The explicit column when it exists and has a number; else the derived
      values; else NaN. */
  function ExplicitOrDerived(t: Table, col: string, derived: seq<real>): (r: MetricResult)
    ensures col in t.columns && |NumericCells(t.rows, col)| > 0 ==> r == Val(Mean(NumericCells(t.rows, col)))
    ensures !(col in t.columns && |NumericCells(t.rows, col)| > 0) ==>
              r == (if |derived| > 0 then Val(Mean(derived)) else NoData)
  {
    var explicit := NumericCells(t.rows, col);
    if col in t.columns && |explicit| > 0 then Val(Mean(explicit))
    else if |derived| > 0 then Val(Mean(derived))
    else NoData
  }

  /** `avg_reaction_time`: mean of the explicit `reaction_time_ms` column
      when it has a number, else the mean derived reaction time, else NaN. */
  function AvgReactionTime(t: Table): (r: MetricResult)
    ensures !r.Skip?
    ensures !(ReactionColumn in t.columns && |NumericCells(t.rows, ReactionColumn)| > 0) ==>
              (r.NoData? <==> Reactions(DeriveTaskStats(t)) == []) && (r.Val? ==> r.x >= 0.0)
  {
    var derived := Reactions(DeriveTaskStats(t));
    DerivedValues(DeriveTaskStats(t));
    MeanNonNegative(derived);
    ExplicitOrDerived(t, ReactionColumn, derived)
  }

  /** `avg_task_duration`: the same rule over `duration_ms` and the derived durations. */
  function AvgTaskDuration(t: Table): (r: MetricResult)
    ensures !r.Skip?
    ensures !(DurationColumn in t.columns && |NumericCells(t.rows, DurationColumn)| > 0) ==>
              (r.NoData? <==> Durations(DeriveTaskStats(t)) == []) && (r.Val? ==> r.x >= 0.0)
  {
    var derived := Durations(DeriveTaskStats(t));
    DerivedValues(DeriveTaskStats(t));
    MeanNonNegative(derived);
    ExplicitOrDerived(t, DurationColumn, derived)
  }

  /** `time_per_success`: the table's time span in seconds per success. */
  function TimePerSuccess(t: Table): (r: MetricResult)
    ensures r.NoData? <==> RoleCount(t, ActionSuccess) == 0 || Stamps(t.rows) == []
    ensures r.Val? ==> r.x >= 0.0
    ensures r.Val? ==>
              && Stamps(t.rows) != []
              && |Matching(t.rows, RoleIs(ActionSuccess))| > 0
              && r.x == Ratio(Elapsed(MinOf(Stamps(t.rows)).value, MaxOf(Stamps(t.rows)).value),
                              |Matching(t.rows, RoleIs(ActionSuccess))| as real)
    ensures !r.Skip?
  {
    CountIsMatching(t.rows, RoleIs(ActionSuccess));
    var hits := RoleCount(t, ActionSuccess);
    if hits == 0 then NoData
    else
      match (MinOf(Stamps(t.rows)), MaxOf(Stamps(t.rows)))
      case (Some(lo), Some(hi)) => Val(Ratio(Elapsed(lo, hi), hits as real))
      case _ => NoData
  }

  /** `navigation_errors` counts rows literally named `collision`, not the
      `navigation_error` role. */
  function NavigationErrors(t: Table): (r: real)
    ensures r == |Matching(t.rows, NameIs("collision"))| as real
  {
    CountIsMatching(t.rows, NameIs("collision"));
    Count(t.rows, NameIs("collision")) as real
  }

  /** `aim_errors`: number of `action_fail` rows. */
  function AimErrors(t: Table): (r: real)
    ensures r == |Matching(t.rows, RoleIs(ActionFail))| as real
  {
    CountIsMatching(t.rows, RoleIs(ActionFail));
    RoleCount(t, ActionFail) as real
  }

  // ---------------------------------------------------------------
  // Satisfaction
  // ---------------------------------------------------------------

  /** `retries_after_end`: number of `task_restart` rows. */
  function RetriesAfterEnd(t: Table): (r: real)
    ensures r == |Matching(t.rows, RoleIs(TaskRestart))| as real
  {
    CountIsMatching(t.rows, RoleIs(TaskRestart));
    RoleCount(t, TaskRestart) as real
  }

  /** Rows with role `task_end` whose value is exactly the string `success`. */
  function ExactSuccessEnd(e: Event): bool {
    e.eventRole == TaskEnd && e.eventValue == Str("success")
  }

  /** `voluntary_play_time`: seconds from the last successful `task_end` to
      the last event, counted only above 2 s. The match on `success` is
      case-sensitive here, unlike `success_rate`. */
  function VoluntaryPlayTime(t: Table): (r: real)
    ensures r == 0.0 || r > 2.0
    ensures Count(t.rows, ExactSuccessEnd) == 0 ==> r == 0.0
    ensures r > 0.0 <==>
              var ends := Stamps(Filter(t.rows, ExactSuccessEnd));
              ends != [] && Stamps(t.rows) != [] &&
              Elapsed(MaxOf(ends).value, MaxOf(Stamps(t.rows)).value) > 2.0
    ensures r > 0.0 ==>
              var ends := Stamps(Filter(t.rows, ExactSuccessEnd));
              ends != [] && Stamps(t.rows) != [] &&
              r == Elapsed(MaxOf(ends).value, MaxOf(Stamps(t.rows)).value)
  {
    var ends := Filter(t.rows, ExactSuccessEnd);
    if ends == [] then 0.0
    else
      match (MaxOf(Stamps(ends)), MaxOf(Stamps(t.rows)))
      case (Some(te), Some(last)) =>
        var diff := Elapsed(te, last);
        if diff > 2.0 then diff else 0.0
      case _ => 0.0
  }

  /** `aid_usage`: number of `help_event` rows. */
  function AidUsage(t: Table): (r: real)
    ensures r == |Matching(t.rows, RoleIs(HelpEvent))| as real
  {
    CountIsMatching(t.rows, RoleIs(HelpEvent));
    RoleCount(t, HelpEvent) as real
  }

  /** `interface_errors` counts rows literally named `ui_error`, not the
      `interface_error` role. */
  function InterfaceErrors(t: Table): (r: real)
    ensures r == |Matching(t.rows, NameIs("ui_error"))| as real
  {
    CountIsMatching(t.rows, NameIs("ui_error"));
    Count(t.rows, NameIs("ui_error")) as real
  }

  /** Counting by event name looks at names only: two tables whose rows
      carry the same names, row by row, give the same count. */
  lemma {:induction false} NameCountIgnoresRoles(a: seq<Event>, b: seq<Event>, name: string)
    requires |a| == |b| && forall i :: 0 <= i < |a| ==> a[i].eventName == b[i].eventName
    ensures Count(a, NameIs(name)) == Count(b, NameIs(name))
  {
    if a != [] {
      assert forall i :: 0 <= i < |a| - 1 ==> a[1..][i] == a[i + 1] && b[1..][i] == b[i + 1];
      NameCountIgnoresRoles(a[1..], b[1..], name);
    }
  }

  /** `navigation_errors` and `interface_errors` do not depend on the roles
      the configuration assigns: relabelling the rows leaves both unchanged. */
  lemma ErrorCountsIgnoreRoles(t: Table, u: Table)
    requires |t.rows| == |u.rows| && forall i :: 0 <= i < |t.rows| ==> t.rows[i].eventName == u.rows[i].eventName
    ensures NavigationErrors(t) == NavigationErrors(u)
    ensures InterfaceErrors(t) == InterfaceErrors(u)
  {
    NameCountIgnoresRoles(t.rows, u.rows, "collision");
    NameCountIgnoresRoles(t.rows, u.rows, "ui_error");
  }

  /** `learning_stability`: `1 / (1 + std(curve))` with at least two blocks, else 0.0.
      The standard deviation is the caller-supplied `std`. */
  function LearningStability(t: Table, std: seq<real> -> NonNegReal): (r: real)
    ensures 0.0 <= r <= 1.0
    ensures Count(t.rows, IsAction) <= DefaultBlockSize ==> r == 0.0
  {
    var vals := LearningCurve(t, DefaultBlockSize);
    if |vals| < 2 then 0.0 else Ratio(1.0, 1.0 + std(vals))
  }

  type NonNegReal = r: real | 0.0 <= r

  /** `error_reduction_rate`: last block ratio minus the first, 0.0 below two blocks. */
  function ErrorReductionRate(t: Table): (r: real)
    ensures -1.0 <= r <= 1.0
    ensures |LearningCurve(t, DefaultBlockSize)| < 2 ==> r == 0.0
    ensures Count(t.rows, IsAction) <= DefaultBlockSize ==> r == 0.0
  {
    var vals := LearningCurve(t, DefaultBlockSize);
    if |vals| < 2 then 0.0 else vals[|vals| - 1] - vals[0]
  }

  // ---------------------------------------------------------------
  // Presence
  // ---------------------------------------------------------------

  /** Seconds of the gaps between consecutive sorted timestamps that exceed `threshold`. */
  function GapSum(ts: seq<int>, threshold: real): (r: real)
    ensures r >= 0.0 || threshold < 0.0
  {
    if |ts| < 2 then 0.0
    else
      var gap := Seconds(ts[1] - ts[0]);
      (if gap > threshold then gap else 0.0) + GapSum(ts[1..], threshold)
  }

  /** Over sorted timestamps, the counted gaps never exceed the whole span. */
  lemma {:induction false} GapSumWithinSpan(ts: seq<int>, threshold: real)
    requires Sorted(ts) && |ts| > 0 && threshold >= 0.0
    ensures 0.0 <= GapSum(ts, threshold) <= Seconds(ts[|ts| - 1] - ts[0])
  {
    if |ts| >= 2 {
      GapSumWithinSpan(ts[1..], threshold);
      assert ts[1..][|ts[1..]| - 1] == ts[|ts| - 1];
    }
  }

  const InactivityThreshold: real := 5.0

  /** `inactivity_time`: total of the idle gaps longer than 5 s, in seconds. */
  function InactivityTime(t: Table): (r: real)
    ensures r >= 0.0
  {
    GapSum(Sort(Stamps(t.rows)), InactivityThreshold)
  }

  /** The idle time is bounded by the table's time span. */
  lemma InactivityWithinSpan(t: Table)
    requires Stamps(t.rows) != []
    ensures InactivityTime(t) <= Seconds(MaxOf(Stamps(t.rows)).value - MinOf(Stamps(t.rows)).value)
  {
    var ts := Stamps(t.rows);
    GapSumWithinSpan(Sort(ts), InactivityThreshold);
    SortedEnds(ts);
  }

  /** `first_success_time`: seconds from the first `session_start` to the
      first success; NaN when either has no timestamp. */
  function FirstSuccessTime(t: Table): (r: MetricResult)
    ensures r.NoData? <==> Stamps(Filter(t.rows, RoleIs(SessionStart))) == []
                           || Stamps(Filter(t.rows, RoleIs(ActionSuccess))) == []
    ensures MinOf(Stamps(Filter(t.rows, RoleIs(SessionStart)))).Some? && MinOf(Stamps(Filter(t.rows, RoleIs(ActionSuccess)))).Some? ==>
              r == Val(Elapsed(MinOf(Stamps(Filter(t.rows, RoleIs(SessionStart)))).value,
                               MinOf(Stamps(Filter(t.rows, RoleIs(ActionSuccess)))).value))
    ensures !r.Skip?
  {
    var start := MinOf(Stamps(Filter(t.rows, RoleIs(SessionStart))));
    var succ := MinOf(Stamps(Filter(t.rows, RoleIs(ActionSuccess))));
    if start.Some? && succ.Some? then Val(Elapsed(start.value, succ.value)) else NoData
  }

  /** `sound_localization_time`: seconds from the first `audio_triggered` to the
      first `head_turn`, by raw event name. The only metric that can skip: when
      either event is absent, or the head turn is not strictly later. */
  function SoundLocalizationTime(t: Table): (r: MetricResult)
    ensures !r.NoData?
    ensures Count(t.rows, NameIs("audio_triggered")) == 0 || Count(t.rows, NameIs("head_turn")) == 0 ==> r.Skip?
    ensures r.Val? ==> r.x > 0.0
    ensures r.Skip? <==>
              var audio := Stamps(Filter(t.rows, NameIs("audio_triggered")));
              var head := Stamps(Filter(t.rows, NameIs("head_turn")));
              audio == [] || head == [] || MinOf(head).value <= MinOf(audio).value
    ensures r.Val? ==>
              var audio := Stamps(Filter(t.rows, NameIs("audio_triggered")));
              var head := Stamps(Filter(t.rows, NameIs("head_turn")));
              audio != [] && head != [] && r.x == Elapsed(MinOf(audio).value, MinOf(head).value)
  {
    var audio := Filter(t.rows, NameIs("audio_triggered"));
    var head := Filter(t.rows, NameIs("head_turn"));
    if audio == [] || head == [] then Skip
    else
      match (MinOf(Stamps(audio)), MinOf(Stamps(head)))
      case (Some(a), Some(h)) => if h > a then Val(Elapsed(a, h)) else Skip
      case _ => Skip
  }

  /** `activity_level`: events per minute of time span; NaN for a span of zero. */
  function ActivityLevel(t: Table): (r: MetricResult)
    ensures r.Val? ==> r.x > 0.0
    ensures !r.Skip?
    ensures r.NoData? <==> (Stamps(t.rows) == [] || MaxOf(Stamps(t.rows)).value <= MinOf(Stamps(t.rows)).value)
    ensures r.Val? ==>
              && Stamps(t.rows) != []
              && Minutes(MinOf(Stamps(t.rows)).value, MaxOf(Stamps(t.rows)).value) > 0.0
              && r.x == Ratio(|t.rows| as real, Minutes(MinOf(Stamps(t.rows)).value, MaxOf(Stamps(t.rows)).value))
  {
    match (MinOf(Stamps(t.rows)), MaxOf(Stamps(t.rows)))
    case (Some(lo), Some(hi)) =>
      var minutes := Minutes(lo, hi);
      if minutes <= 0.0 then NoData
      else
        assert |t.rows| > 0 by { assert |Stamps(t.rows)| > 0; }
        Val(Ratio(|t.rows| as real, minutes))
    case _ => NoData
  }

  /** `df["audio_enabled"] == b` for one row: Python compares `True == 1`. */
  predicate AudioFlag(e: Event, b: bool) {
    "audio_enabled" in e.cells &&
    (e.cells["audio_enabled"] == Bool(b) || e.cells["audio_enabled"] == Num(if b then 1.0 else 0.0))
  }

  predicate AudioOn(e: Event) {
    AudioFlag(e, true)
  }

  predicate AudioOff(e: Event) {
    AudioFlag(e, false)
  }

  /** `audio_performance_gain`: relative success-rate gain of the rows with
      audio over those without, when both rates exist and the second is
      positive; otherwise 0.0. Never skips. */
  function AudioPerformanceGain(t: Table): (r: real)
    ensures "audio_enabled" !in t.columns ==> r == 0.0
    ensures r >= -1.0
  {
    if "audio_enabled" in t.columns then
      var with := SuccessRate(Where(t, AudioOn));
      var without := SuccessRate(Where(t, AudioOff));
      if with.Val? && without.Val? && without.x > 0.0 then Ratio(with.x, without.x) - 1.0
      else 0.0
    else 0.0
  }
}
