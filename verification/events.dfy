/** The event table the metrics engine works on, after construction: one
    row per logged event with its identifiers filled in and its semantic
    role resolved, plus the experiment-specific columns a parser may add
    (`reaction_time_ms`, `duration_ms`, `audio_enabled`, `session`, ...). */
module Events {
  import opened Wrappers
  import opened Values

  const ActionSuccess := "action_success"
  const ActionFail := "action_fail"
  const TaskStart := "task_start"
  const TaskEnd := "task_end"
  const TaskRestart := "task_restart"
  const SessionStart := "session_start"
  const HelpEvent := "help_event"
  const CustomEvent := "custom_event"

  /** One row. `timestamp` is `None` for NaT (missing or unparseable);
      `cells` holds the extra columns, a column absent from it being NaN
      in this row. */
  datatype Event = Event(
    timestamp: Option<int>,
    userId: string,
    groupId: string,
    sessionId: string,
    eventName: string,
    eventValue: Value,
    eventRole: string,
    cells: map<string, Value>)

  /** A DataFrame: the extra columns it has, and its rows in order. A sub-table
      selected from it keeps every column even when a column is all NaN there. */
  datatype Table = Table(columns: set<string>, rows: seq<Event>)

  /** `df[mask]`: the rows satisfying `p`, in order. */
  function Filter(rows: seq<Event>, p: Event -> bool): (r: seq<Event>)
    ensures |r| <= |rows|
    ensures forall i :: 0 <= i < |r| ==> p(r[i]) && r[i] in rows
    ensures forall e :: e in rows && p(e) ==> e in r
  {
    if rows == [] then []
    else if p(rows[0]) then [rows[0]] + Filter(rows[1..], p)
    else Filter(rows[1..], p)
  }

  /** `len(df[mask])`. */
  function Count(rows: seq<Event>, p: Event -> bool): nat {
    |Filter(rows, p)|
  }

  /** The positions of the rows satisfying `p`: an independent reading of
      what `len(df[mask])` counts. */
  function Matching(rows: seq<Event>, p: Event -> bool): set<nat> {
    set i: nat | i < |rows| && p(rows[i])
  }

  /** Filtering a sequence extended by one row. */
  lemma {:induction false} FilterSnoc(rows: seq<Event>, e: Event, p: Event -> bool)
    ensures Filter(rows + [e], p) == Filter(rows, p) + (if p(e) then [e] else [])
    decreases |rows|
  {
    if rows != [] {
      assert (rows + [e])[1..] == rows[1..] + [e];
      FilterSnoc(rows[1..], e, p);
    }
  }

  /** The positions matching in a sequence extended by one row. */
  lemma MatchingSnoc(rows: seq<Event>, e: Event, p: Event -> bool)
    ensures Matching(rows + [e], p) == Matching(rows, p) + (if p(e) then {|rows|} else {})
  {
    var ext := rows + [e];
    assert forall i :: 0 <= i < |rows| ==> ext[i] == rows[i];
    assert ext[|rows|] == e;
  }

  /** `Count` is the number of positions whose row satisfies `p`. */
  lemma {:induction false} CountIsMatching(rows: seq<Event>, p: Event -> bool)
    ensures Count(rows, p) == |Matching(rows, p)|
    decreases |rows|
  {
    if rows != [] {
      var n := |rows| - 1;
      var init := rows[..n];
      assert rows == init + [rows[n]];
      FilterSnoc(init, rows[n], p);
      MatchingSnoc(init, rows[n], p);
      CountIsMatching(init, p);
      assert n !in Matching(init, p);
    }
  }

  /** A mask keeps every copy of a row it selects and no copy of one it rejects. */
  lemma {:induction false} FilterMultiset(rows: seq<Event>, p: Event -> bool)
    ensures forall e :: multiset(Filter(rows, p))[e] == if p(e) then multiset(rows)[e] else 0
    decreases |rows|
  {
    if rows != [] {
      assert rows == [rows[0]] + rows[1..];
      FilterMultiset(rows[1..], p);
    }
  }

  /** The positions `p` selects, in increasing order: an independent
      reading of the row order `df[mask]` keeps. */
  function Positions(rows: seq<Event>, p: Event -> bool): (r: seq<nat>)
    ensures forall j :: 0 <= j < |r| ==> r[j] < |rows| && p(rows[r[j]])
    ensures forall i, j :: 0 <= i < j < |r| ==> r[i] < r[j]
    ensures forall i :: 0 <= i < |rows| && p(rows[i]) ==> i in r
    decreases |rows|
  {
    if rows == [] then []
    else
      var m := |rows| - 1;
      var init := Positions(rows[..m], p);
      assert forall i :: 0 <= i < m ==> rows[..m][i] == rows[i];
      init + (if p(rows[m]) then [m] else [])
  }

  /** The `j`-th row `df[mask]` keeps is the row at the `j`-th selected position. */
  lemma {:induction false} FilterAtPositions(rows: seq<Event>, p: Event -> bool)
    ensures |Filter(rows, p)| == |Positions(rows, p)|
    ensures forall j :: 0 <= j < |Filter(rows, p)| ==> Filter(rows, p)[j] == rows[Positions(rows, p)[j]]
    decreases |rows|
  {
    if rows != [] {
      var m := |rows| - 1;
      var init := rows[..m];
      assert rows == init + [rows[m]];
      FilterSnoc(init, rows[m], p);
      FilterAtPositions(init, p);
      assert forall i :: 0 <= i < m ==> init[i] == rows[i];
    }
  }

  lemma {:induction false} CountZero(rows: seq<Event>, p: Event -> bool)
    ensures Count(rows, p) == 0 <==> forall i :: 0 <= i < |rows| ==> !p(rows[i])
  {
    if rows != [] {
      CountZero(rows[1..], p);
      assert forall i :: 1 <= i < |rows| ==> rows[i] == rows[1..][i - 1];
    }
  }

  function Where(t: Table, p: Event -> bool): (r: Table)
    ensures r.columns == t.columns
  {
    Table(t.columns, Filter(t.rows, p))
  }

  function RoleIs(role: string): Event -> bool {
    (e: Event) => e.eventRole == role
  }

  function NameIs(name: string): Event -> bool {
    (e: Event) => e.eventName == name
  }

  predicate IsAction(e: Event) {
    e.eventRole == ActionSuccess || e.eventRole == ActionFail
  }

  /** The non-NaT timestamps of `rows`, in row order (`series.dropna()`). */
  function Stamps(rows: seq<Event>): (r: seq<int>)
    ensures |r| <= |rows|
    ensures forall x :: x in r <==> exists i :: 0 <= i < |rows| && rows[i].timestamp == Some(x)
  {
    if rows == [] then []
    else
      var rest := Stamps(rows[1..]);
      assert forall i :: 1 <= i < |rows| ==> rows[i] == rows[1..][i - 1];
      assert forall x :: (exists i :: 1 <= i < |rows| && rows[i].timestamp == Some(x)) ==>
                          (exists i :: 0 <= i < |rows[1..]| && rows[1..][i].timestamp == Some(x)) by {
        forall x | exists i :: 1 <= i < |rows| && rows[i].timestamp == Some(x)
          ensures exists i :: 0 <= i < |rows[1..]| && rows[1..][i].timestamp == Some(x)
        {
          var i :| 1 <= i < |rows| && rows[i].timestamp == Some(x);
          assert rows[1..][i - 1].timestamp == Some(x);
        }
      }
      if rows[0].timestamp.Some? then [rows[0].timestamp.value] + rest else rest
  }

  /** Number of NaT timestamps among `rows`. */
  function MissingStamps(rows: seq<Event>): (n: nat)
    ensures |Stamps(rows)| + n == |rows|
  {
    if rows == [] then 0
    else (if rows[0].timestamp.None? then 1 else 0) + MissingStamps(rows[1..])
  }

  /** What `row.get(col)` / `df[col]` sees for one row. */
  datatype Cell = NoColumn | Missing | Present(v: Value)

  function CellOf(t: Table, e: Event, col: string): (c: Cell)
    ensures c.NoColumn? <==> col !in t.columns
  {
    if col !in t.columns then NoColumn
    else if col in e.cells then Present(e.cells[col])
    else Missing
  }

  /** Python truthiness of a cell: `None` when the column is absent is falsy,
      a NaN cell is truthy. */
  predicate CellTruthy(c: Cell) {
    match c
    case NoColumn => false
    case Missing => true
    case Present(v) => Truthy(v)
  }
}
