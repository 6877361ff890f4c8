/** The batch analysis script: the experiment configuration Unity logs as
    its first `config` event is rebuilt from the expanded `event_context.*`
    columns, and the metrics are computed by a calculator built without a
    configuration. */
module Analysis {
  import opened Wrappers
  import opened Values
  import Strings
  import Configurator
  import LogParser
  import Statistics
  import Calculator

  type Document = seq<(string, Value)>

  /** A frame as the script reads it: its columns in order and each row's
      cells; a cell the row lacks is NaN, read here as `Null`. */
  datatype Sheet = Sheet(columns: seq<string>, rows: seq<Document>)

  function Cell(row: Document, col: string): Value {
    LookupOr(row, col, Null)
  }

  predicate IsConfigRow(row: Document) {
    Cell(row, "event_type") == Str("config")
  }

  /** The order of `sort_values("timestamp")`: timestamps by time, NaT after
      every timestamp. */
  predicate Before(a: Value, b: Value) {
    a.Stamp? && (!b.Stamp? || a.ms < b.ms)
  }

  function Time(row: Document): Value {
    Cell(row, "timestamp")
  }

  /** The sort key of a row: whether it is a config row, and its timestamp. */
  type Key = (bool, Value)

  /** The earliest config row among the first `n` keys. Rows with the same
      sort key are taken in table order: the first of them is chosen. */
  function EarliestIn(keys: seq<Key>, n: nat): (r: Option<nat>)
    requires n <= |keys|
    ensures r.None? <==> forall i :: 0 <= i < n ==> !keys[i].0
    ensures r.Some? ==> r.value < n && keys[r.value].0
    ensures r.Some? ==> forall j :: 0 <= j < n && keys[j].0 ==> !Before(keys[j].1, keys[r.value].1)
    ensures r.Some? ==> forall j :: 0 <= j < r.value && keys[j].0 ==> Before(keys[r.value].1, keys[j].1)
  {
    if n == 0 then None
    else
      var best := EarliestIn(keys, n - 1);
      if !keys[n - 1].0 then best
      else if best.None? then Some(n - 1)
      else if Before(keys[n - 1].1, keys[best.value].1) then
        Overtakes(keys, n - 1, best.value);
        Some(n - 1)
      else best
  }

  lemma NotBeforeThrough(a: Value, b: Value, c: Value)
    requires !Before(a, b) && Before(c, b)
    ensures Before(c, a) && !Before(a, c)
  {
  }

  /** A key earlier than the best of the first `m` keys is earlier than each of them. */
  lemma Overtakes(keys: seq<Key>, m: nat, b: nat)
    requires b < m < |keys|
    requires forall j :: 0 <= j < m && keys[j].0 ==> !Before(keys[j].1, keys[b].1)
    requires Before(keys[m].1, keys[b].1)
    ensures forall j :: 0 <= j < m && keys[j].0 ==> Before(keys[m].1, keys[j].1) && !Before(keys[j].1, keys[m].1)
  {
    forall j | 0 <= j < m && keys[j].0
      ensures Before(keys[m].1, keys[j].1) && !Before(keys[j].1, keys[m].1)
    {
      NotBeforeThrough(keys[j].1, keys[b].1, keys[m].1);
    }
  }

  /** `config_df.sort_values("timestamp").iloc[0]`, as a row index: the
      first config row that no config row precedes in time. */
  function EarliestConfig(rows: seq<Document>): (r: Option<nat>)
    ensures r.None? <==> forall i :: 0 <= i < |rows| ==> !IsConfigRow(rows[i])
    ensures r.Some? ==> r.value < |rows| && IsConfigRow(rows[r.value])
    ensures r.Some? ==> forall j :: 0 <= j < |rows| && IsConfigRow(rows[j]) ==> !Before(Time(rows[j]), Time(rows[r.value]))
    ensures r.Some? ==> forall j :: 0 <= j < r.value && IsConfigRow(rows[j]) ==> Before(Time(rows[r.value]), Time(rows[j]))
  {
    var keys := seq(|rows|, i requires 0 <= i < |rows| => (IsConfigRow(rows[i]), Time(rows[i])));
    assert forall i :: 0 <= i < |rows| ==> keys[i].0 == IsConfigRow(rows[i]) && keys[i].1 == Time(rows[i]);
    EarliestIn(keys, |keys|)
  }

  // ---------------------------------------------------------------------
  // Dotted paths
  // ---------------------------------------------------------------------

  const ContextPrefix := "event_context."

  /** `key.split(".")[1:]`. */
  function PathOf(col: string): seq<string> {
    Strings.Split(col, '.')[1..]
  }

  /** For a context column the path is the split of what follows the prefix. */
  lemma ContextPath(col: string)
    requires Strings.StartsWith(col, ContextPrefix)
    ensures PathOf(col) == Strings.Split(col[|ContextPrefix|..], '.')
    ensures PathOf(col) != []
  {
    var head := "event_context";
    assert col == head + ['.'] + col[|ContextPrefix|..] by {
      assert col[..|ContextPrefix|] == ContextPrefix;
    }
    assert forall i :: 0 <= i < |head| ==> head[i] != '.';
    Strings.SplitAfterFirst(head, '.', col[|ContextPrefix|..]);
  }

  /** The context columns of a row, each as its dotted path and its cell, in
      column order. */
  function ContextCells(columns: seq<string>, row: Document): (r: seq<(seq<string>, Value)>)
    ensures |r| <= |columns|
    ensures forall i :: 0 <= i < |r| ==> r[i].0 != []
    ensures (forall c :: c in columns ==> !Strings.StartsWith(c, ContextPrefix)) ==> r == []
  {
    if columns == [] then []
    else
      var rest := ContextCells(columns[..|columns| - 1], row);
      var c := columns[|columns| - 1];
      if Strings.StartsWith(c, ContextPrefix) then ContextPath(c); rest + [(PathOf(c), Cell(row, c))]
      else rest
  }

  /** The walk along `path` meets only dicts where it continues: every node
      before the last step is absent or a dict. */
  predicate DictsAlong(d: Value, path: seq<string>)
    requires path != []
  {
    d.Dict? && (|path| == 1 || !HasKey(d.entries, path[0]) || DictsAlong(Lookup(d.entries, path[0]).value, path[1..]))
  }

  /** The assignment loop for one column: `setdefault(p, {})` down the
      path, then the value at the leaf. Assigning into a value that is not
      a dict raises. */
  function SetPath(d: Value, path: seq<string>, v: Value): (r: Result<Value>)
    requires path != []
    ensures r.Success? <==> DictsAlong(d, path)
    ensures r.Success? ==> r.value.Dict?
    ensures r.Success? ==> forall k :: HasKey(r.value.entries, k) <==> HasKey(d.entries, k) || k == path[0]
    decreases path
  {
    if !d.Dict? then Failure("item assignment on a value that is not a dict")
    else if |path| == 1 then Success(Dict(Put(d.entries, path[0], v)))
    else
      var child := LookupOr(d.entries, path[0], Dict([]));
      match SetPath(child, path[1..], v)
      case Failure(e) => Failure(e)
      case Success(c) => Success(Dict(Put(d.entries, path[0], c)))
  }

  /** A missing level is created on demand. */
  lemma FreshLevels(path: seq<string>)
    requires path != []
    ensures DictsAlong(Dict([]), path)
  {
  }

  /** After the assignment the value sits at the end of its path. */
  lemma {:induction false} SetThenGet(d: Value, path: seq<string>, v: Value, default: Value)
    requires path != [] && SetPath(d, path, v).Success?
    ensures Configurator.GetVal(SetPath(d, path, v).value, path, default) == v
    decreases path
  {
    if |path| > 1 {
      var child := LookupOr(d.entries, path[0], Dict([]));
      SetThenGet(child, path[1..], v, default);
    }
  }

  /** Two paths that differ at some position both paths have. */
  predicate Diverge(p: seq<string>, q: seq<string>) {
    exists i :: 0 <= i < |p| && i < |q| && p[i] != q[i]
  }

  /** An assignment leaves the value at a diverging path as it was. */
  lemma {:induction false} SetKeepsOthers(d: Value, p: seq<string>, v: Value, q: seq<string>, default: Value)
    requires p != [] && SetPath(d, p, v).Success? && Diverge(p, q)
    ensures Configurator.GetVal(SetPath(d, p, v).value, q, default) == Configurator.GetVal(d, q, default)
    decreases p
  {
    var i :| 0 <= i < |p| && i < |q| && p[i] != q[i];
    var c := if |p| == 1 then v else SetPath(LookupOr(d.entries, p[0], Dict([])), p[1..], v).value;
    assert SetPath(d, p, v).value == Dict(Put(d.entries, p[0], c));
    if p[0] != q[0] {
      GetOtherKey(d.entries, p[0], c, q, default);
    } else {
      assert 0 < i && |p| > 1 && |q| > 1;
      assert p[1..][i - 1] != q[1..][i - 1];
      var child := LookupOr(d.entries, p[0], Dict([]));
      SetKeepsOthers(child, p[1..], v, q[1..], default);
      GetSameKey(d.entries, c, q, default);
    }
  }

  /** Reading below another key ignores what was put. */
  lemma GetOtherKey(es: Document, k: string, c: Value, q: seq<string>, default: Value)
    requires q != [] && q[0] != k
    ensures Configurator.GetVal(Dict(Put(es, k, c)), q, default) == Configurator.GetVal(Dict(es), q, default)
  {
    assert Lookup(Put(es, k, c), q[0]) == Lookup(es, q[0]);
  }

  /** Reading below the key that was put continues in the new child, and
      reading below it before continued in the old child or a fresh dict. */
  lemma GetSameKey(es: Document, c: Value, q: seq<string>, default: Value)
    requires |q| > 1
    ensures Configurator.GetVal(Dict(Put(es, q[0], c)), q, default) == Configurator.GetVal(c, q[1..], default)
    ensures Configurator.GetVal(Dict(es), q, default) == Configurator.GetVal(LookupOr(es, q[0], Dict([])), q[1..], default)
  {
    assert Lookup(Put(es, q[0], c), q[0]) == Some(c);
    if !HasKey(es, q[0]) {
      assert Configurator.GetVal(Dict([]), q[1..], default) == default;
    }
  }

  /** An assignment along `q` keeps every node along a diverging path `p`
      absent or a dict. */
  lemma {:induction false} SetKeepsDictsAlong(d: Value, q: seq<string>, w: Value, p: seq<string>)
    requires p != [] && q != [] && DictsAlong(d, p) && DictsAlong(d, q) && Diverge(p, q)
    ensures DictsAlong(SetPath(d, q, w).value, p)
    decreases q
  {
    var i :| 0 <= i < |p| && i < |q| && p[i] != q[i];
    var d' := SetPath(d, q, w).value;
    if |p| > 1 {
      if p[0] != q[0] {
        assert Lookup(d'.entries, p[0]) == Lookup(d.entries, p[0]);
      } else {
        assert 0 < i && |q| > 1;
        assert p[1..][i - 1] != q[1..][i - 1];
        var child := LookupOr(d.entries, q[0], Dict([]));
        SetKeepsDictsAlong(child, q[1..], w, p[1..]);
        assert Lookup(d'.entries, p[0]) == Some(SetPath(child, q[1..], w).value);
      }
    }
  }

  /** The reconstruction loop over the context columns, in order, from `{}`. */
  function Reconstruct(cells: seq<(seq<string>, Value)>): (r: Result<Value>)
    requires forall i :: 0 <= i < |cells| ==> cells[i].0 != []
    ensures r.Success? ==> r.value.Dict?
    ensures cells == [] ==> r == Success(Dict([]))
  {
    if cells == [] then Success(Dict([]))
    else
      var last := cells[|cells| - 1];
      match Reconstruct(cells[..|cells| - 1])
      case Failure(e) => Failure(e)
      case Success(d) => SetPath(d, last.0, last.1)
  }

  /** No column path is a prefix of another. */
  predicate PairwiseDiverge(cells: seq<(seq<string>, Value)>) {
    forall i, j :: 0 <= i < |cells| && 0 <= j < |cells| && i != j ==> Diverge(cells[i].0, cells[j].0)
  }

  lemma {:induction false} ReconstructPrefix(cells: seq<(seq<string>, Value)>, n: nat)
    requires forall i :: 0 <= i < |cells| ==> cells[i].0 != []
    requires PairwiseDiverge(cells) && n <= |cells|
    ensures Reconstruct(cells[..n]).Success?
    ensures forall k :: n <= k < |cells| ==> DictsAlong(Reconstruct(cells[..n]).value, cells[k].0)
  {
    if n == 0 {
      forall k | 0 <= k < |cells| ensures DictsAlong(Dict([]), cells[k].0) {
        FreshLevels(cells[k].0);
      }
    } else {
      ReconstructPrefix(cells, n - 1);
      var prefix := cells[..n];
      assert prefix[..n - 1] == cells[..n - 1];
      var d := Reconstruct(cells[..n - 1]).value;
      var q := cells[n - 1].0;
      forall k | n <= k < |cells| ensures DictsAlong(SetPath(d, q, cells[n - 1].1).value, cells[k].0) {
        SetKeepsDictsAlong(d, q, cells[n - 1].1, cells[k].0);
      }
    }
  }

  /** When no column path is a prefix of another, the reconstruction
      succeeds and every column's cell can be read back at its path:
      common prefixes become one shared nested dict. */
  lemma {:induction false} ReconstructRetrieves(cells: seq<(seq<string>, Value)>, default: Value)
    requires forall i :: 0 <= i < |cells| ==> cells[i].0 != []
    requires PairwiseDiverge(cells)
    ensures Reconstruct(cells).Success?
    ensures forall j :: 0 <= j < |cells| ==> Configurator.GetVal(Reconstruct(cells).value, cells[j].0, default) == cells[j].1
  {
    ReconstructPrefix(cells, |cells|);
    assert cells[..|cells|] == cells;
    if cells != [] {
      var n := |cells| - 1;
      var init := cells[..n];
      assert PairwiseDiverge(init) by {
        forall i, j | 0 <= i < |init| && 0 <= j < |init| && i != j ensures Diverge(init[i].0, init[j].0) {
          assert init[i] == cells[i] && init[j] == cells[j];
        }
      }
      ReconstructRetrieves(init, default);
      var d := Reconstruct(init).value;
      forall j | 0 <= j < |cells| ensures Configurator.GetVal(Reconstruct(cells).value, cells[j].0, default) == cells[j].1 {
        if j == n {
          SetThenGet(d, cells[n].0, cells[n].1, default);
        } else {
          assert init[j] == cells[j];
          SetKeepsOthers(d, cells[n].0, cells[n].1, cells[j].0, default);
        }
      }
    }
  }

  /** A leaf column followed by a column nested below it raises: the leaf
      value is not a dict. */
  lemma LeafThenNestedFails(a: string, b: string, x: Value, y: Value)
    requires !x.Dict?
    ensures Reconstruct([([a], x), ([a, b], y)]).Failure?
  {
    var cells := [([a], x), ([a, b], y)];
    assert cells[..1] == [([a], x)];
    assert cells[..1][..0] == [];
    var d := Reconstruct(cells[..1]).value;
    assert Lookup(d.entries, a) == Some(x);
  }

  /** Row `i` is what `sort_values("timestamp").iloc[0]` picks among the
      config rows: no config row is earlier, and every config row before it
      in the log is strictly later. */
  predicate EarliestAt(rows: seq<Document>, i: int) {
    && 0 <= i < |rows|
    && IsConfigRow(rows[i])
    && (forall j :: 0 <= j < |rows| && IsConfigRow(rows[j]) ==> !Before(Time(rows[j]), Time(rows[i])))
    && (forall j :: 0 <= j < i && IsConfigRow(rows[j]) ==> Before(Time(rows[i]), Time(rows[j])))
  }

  /** `experiment_config`: `None` without a config row, else the tree rebuilt
      from the context columns of the earliest one. */
  function ExperimentConfig(s: Sheet): (r: Option<Result<Value>>)
    ensures r.None? <==> forall i :: 0 <= i < |s.rows| ==> !IsConfigRow(s.rows[i])
    ensures r.Some? ==> exists i :: 0 <= i < |s.rows| && IsConfigRow(s.rows[i]) && r.value == Reconstruct(ContextCells(s.columns, s.rows[i]))
    ensures r.Some? ==> exists i :: EarliestAt(s.rows, i) && r.value == Reconstruct(ContextCells(s.columns, s.rows[i]))
  {
    match EarliestConfig(s.rows)
    case None => None
    case Some(i) => Some(Reconstruct(ContextCells(s.columns, s.rows[i])))
  }

  // ---------------------------------------------------------------------
  // The script's own frame
  // ---------------------------------------------------------------------

  /** A parsed row as cells; the context cell is absent when the row has none. */
  function RowCells(r: LogParser.Row): Document {
    [("timestamp", r.timestamp), ("user_id", r.userId), ("group_id", r.groupId),
     ("session_id", r.sessionId), ("event_type", r.eventType), ("event_name", r.eventName),
     ("event_value", r.eventValue)]
    + (if r.context.Some? then [("context", r.context.value)] else [])
  }

  function SheetOf(f: LogParser.Frame): Sheet {
    Sheet(f.columns, seq(|f.rows|, i requires 0 <= i < |f.rows| => RowCells(f.rows[i])))
  }

  /** The frame `parse_logs` returns has no `event_context.*` column, so the
      script's configuration is `{}` when some log is a config event and
      `None` otherwise. */
  lemma ParsedConfigIsEmpty(logs: seq<LogParser.Document>, conv: LogParser.Conversions)
    requires LogParser.ParseLogs(logs, true, conv).Success?
    ensures var s := SheetOf(LogParser.ParseLogs(logs, true, conv).value);
      && ((exists i :: 0 <= i < |s.rows| && IsConfigRow(s.rows[i])) ==> ExperimentConfig(s) == Some(Success(Dict([]))))
      && ((forall i :: 0 <= i < |s.rows| ==> !IsConfigRow(s.rows[i])) ==> ExperimentConfig(s) == None)
  {
    var f := LogParser.ParseLogs(logs, true, conv).value;
    var s := SheetOf(f);
    LogParser.NoContextColumns(logs, true, conv);
    forall c | c in s.columns ensures !Strings.StartsWith(c, ContextPrefix) {
      assert !(|c| >= 14 && c[..14] == "event_context.");
    }
    NoCellsNoConfig(s);
  }

  /** Without context columns every row rebuilds to the empty dict. */
  lemma NoCellsNoConfig(s: Sheet)
    requires forall c :: c in s.columns ==> !Strings.StartsWith(c, ContextPrefix)
    ensures (exists i :: 0 <= i < |s.rows| && IsConfigRow(s.rows[i])) ==> ExperimentConfig(s) == Some(Success(Dict([])))
    ensures (forall i :: 0 <= i < |s.rows| ==> !IsConfigRow(s.rows[i])) ==> ExperimentConfig(s) == None
  {
    var r := ExperimentConfig(s);
    if r.Some? {
      var i :| 0 <= i < |s.rows| && IsConfigRow(s.rows[i]) && r.value == Reconstruct(ContextCells(s.columns, s.rows[i]));
      assert ContextCells(s.columns, s.rows[i]) == [];
    }
  }

  /** `MetricsCalculator(df).compute_all()` with no configuration: every
      category and the global score are 0.0. */
  function ScriptScores(raw: Calculator.RawTable, std: seq<real> -> Statistics.NonNegReal): (r: Calculator.Report)
    ensures r == Calculator.Report(Calculator.EmptyCategory, Calculator.EmptyCategory, Calculator.EmptyCategory,
                                   Calculator.EmptyCategory, 0.0)
  {
    var c := Calculator.New(raw, None, Calculator.DefaultUserProfile);
    Calculator.UnconfiguredScoresZero(raw, Calculator.DefaultUserProfile, std);
    Calculator.ComputeAll(c, std)
  }
}
