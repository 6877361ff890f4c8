/** Reconstruction of task duration and reaction time from the raw event
    stream (`MetricsCalculator._derive_task_stats`): the i-th `task_start`
    is paired with the i-th `task_end` in timestamp order. */
module TaskPairs {
  import opened Wrappers
  import opened Numeric
  import opened Events

  function Lift(xs: seq<int>): (r: seq<Option<int>>)
    ensures |r| == |xs|
    ensures forall i :: 0 <= i < |xs| ==> r[i] == Some(xs[i])
  {
    if xs == [] then [] else [Some(xs[0])] + Lift(xs[1..])
  }

  /** The timestamp column of `rows` after `sort_values("timestamp")`:
      the present timestamps ascending, then one NaT per missing one. */
  function SortedColumn(rows: seq<Event>): (r: seq<Option<int>>)
    ensures |r| == |rows|
    ensures forall i, j :: 0 <= i < j < |r| && r[i].Some? && r[j].Some? ==> r[i].value <= r[j].value
    ensures forall i, j :: 0 <= i < j < |r| && r[i].None? ==> r[j].None?
  {
    var present := Sort(Stamps(rows));
    var a := Lift(present);
    var b: seq<Option<int>> := seq(MissingStamps(rows), _ => None);
    var r := a + b;
    assert forall i :: |a| <= i < |r| ==> r[i].None?;
    assert forall i :: 0 <= i < |a| ==> r[i] == Some(present[i]);
    r
  }

  /** One derived row; `None` stands for NaN. */
  datatype TaskStat = TaskStat(durationMs: Option<real>, reactionMs: Option<real>)

  /** The timestamps of `xs` inside the closed window `[lo, hi]`. */
  function InWindow(xs: seq<int>, lo: int, hi: int): (r: seq<int>)
    ensures forall x :: x in r <==> x in xs && lo <= x <= hi
  {
    if xs == [] then []
    else (if lo <= xs[0] <= hi then [xs[0]] else []) + InWindow(xs[1..], lo, hi)
  }

  /** Time from `t0` to the first action in `[t0, t1]`, NaN when there is none.
      The first action in timestamp order is the earliest one. */
  function Reaction(actions: seq<int>, t0: int, t1: int): (r: Option<real>)
    ensures r.None? <==> forall a :: a in actions ==> !(t0 <= a <= t1)
    ensures r.Some? ==> exists a :: a in actions && t0 <= a <= t1 && r.value == (a - t0) as real
                                    && forall b :: b in actions && t0 <= b <= t1 ==> a <= b
    ensures r.Some? ==> 0.0 <= r.value <= (t1 - t0) as real
  {
    var w := InWindow(actions, t0, t1);
    match MinOf(w)
    case None => None
    case Some(a) => Some((a - t0) as real)
  }

  /** A pair is discarded only when its start is strictly after its end;
      a NaT on either side compares false and keeps the pair. */
  predicate Dropped(s: Option<int>, e: Option<int>) {
    s.Some? && e.Some? && s.value > e.value
  }

  /** The derived row of one (start, end) pair, `None` when it is discarded. */
  function PairStat(s: Option<int>, e: Option<int>, actions: seq<int>): (r: Option<TaskStat>)
    ensures r.None? <==> Dropped(s, e)
    ensures r.Some? && (s.None? || e.None?) ==> r.value == TaskStat(None, None)
    ensures r.Some? && s.Some? && e.Some? ==>
              r.value.durationMs == Some((e.value - s.value) as real)
              && r.value.reactionMs == Reaction(actions, s.value, e.value)
  {
    if Dropped(s, e) then None
    else if s.None? || e.None? then Some(TaskStat(None, None))
    else Some(TaskStat(Some((e.value - s.value) as real), Reaction(actions, s.value, e.value)))
  }

  /** Reaction time never exceeds the task duration and neither is negative. */
  predicate Coherent(r: TaskStat) {
    && (r.durationMs.Some? ==> r.durationMs.value >= 0.0)
    && (r.reactionMs.Some? ==> r.durationMs.Some? && 0.0 <= r.reactionMs.value <= r.durationMs.value)
  }

  /** Number of discarded pairs among the first `min(|s|, |e|)` positions. */
  function DroppedCount(s: seq<Option<int>>, e: seq<Option<int>>): nat {
    if s == [] || e == [] then 0
    else (if Dropped(s[0], e[0]) then 1 else 0) + DroppedCount(s[1..], e[1..])
  }

  function Min(a: nat, b: nat): nat {
    if a <= b then a else b
  }

  /** Positional pairing, truncated to the shorter list. */
  function Pairs(s: seq<Option<int>>, e: seq<Option<int>>, actions: seq<int>): (r: seq<TaskStat>)
    ensures |r| + DroppedCount(s, e) == Min(|s|, |e|)
    ensures forall i :: 0 <= i < |r| ==> Coherent(r[i])
  {
    if s == [] || e == [] then []
    else
      var head := PairStat(s[0], e[0], actions);
      (if head.Some? then [head.value] else []) + Pairs(s[1..], e[1..], actions)
  }

  /** With no discarded pair, row `i` is exactly the i-th start paired with the i-th end. */
  lemma {:induction false} PairsAligned(s: seq<Option<int>>, e: seq<Option<int>>, actions: seq<int>)
    requires forall i :: 0 <= i < |s| && i < |e| ==> !Dropped(s[i], e[i])
    ensures |Pairs(s, e, actions)| == Min(|s|, |e|)
    ensures forall i :: 0 <= i < |s| && i < |e| ==> Some(Pairs(s, e, actions)[i]) == PairStat(s[i], e[i], actions)
  {
    if s != [] && e != [] {
      assert !Dropped(s[0], e[0]);
      PairsAligned(s[1..], e[1..], actions);
      var r := Pairs(s, e, actions);
      assert r == [PairStat(s[0], e[0], actions).value] + Pairs(s[1..], e[1..], actions);
      forall i | 0 <= i < |s| && i < |e|
        ensures Some(r[i]) == PairStat(s[i], e[i], actions)
      {
        if i > 0 {
          assert s[i] == s[1..][i - 1] && e[i] == e[1..][i - 1];
        }
      }
    }
  }

  /** The `task_start` timestamps in time order. */
  function StartColumn(t: Table): (r: seq<Option<int>>)
    ensures |r| == Count(t.rows, RoleIs(TaskStart))
  {
    SortedColumn(Filter(t.rows, RoleIs(TaskStart)))
  }

  /** The `task_end` timestamps in time order. */
  function EndColumn(t: Table): (r: seq<Option<int>>)
    ensures |r| == Count(t.rows, RoleIs(TaskEnd))
  {
    SortedColumn(Filter(t.rows, RoleIs(TaskEnd)))
  }

  /** The timestamps of the action events (success or fail). */
  function ActionStamps(t: Table): seq<int> {
    Stamps(Filter(t.rows, IsAction))
  }

  /** `_derive_task_stats(df)`. */
  function DeriveTaskStats(t: Table): (r: seq<TaskStat>)
    ensures t.rows == [] ==> r == []
    ensures |r| <= Min(Count(t.rows, RoleIs(TaskStart)), Count(t.rows, RoleIs(TaskEnd)))
    ensures t.rows != [] ==> |r| + DroppedCount(StartColumn(t), EndColumn(t))
                               == Min(Count(t.rows, RoleIs(TaskStart)), Count(t.rows, RoleIs(TaskEnd)))
    ensures forall i :: 0 <= i < |r| ==> Coherent(r[i])
  {
    if t.rows == [] then []
    else Pairs(StartColumn(t), EndColumn(t), ActionStamps(t))
  }

  /** When, in time order, no start comes after its end, one row is derived
      per pair: 3 starts and 2 ends give 2 rows. */
  lemma TruncatesToShorter(t: Table)
    requires t.rows != []
    requires forall i :: 0 <= i < |StartColumn(t)| && i < |EndColumn(t)| ==> !Dropped(StartColumn(t)[i], EndColumn(t)[i])
    ensures |DeriveTaskStats(t)| == Min(Count(t.rows, RoleIs(TaskStart)), Count(t.rows, RoleIs(TaskEnd)))
  {
    PairsAligned(StartColumn(t), EndColumn(t), ActionStamps(t));
  }
}
