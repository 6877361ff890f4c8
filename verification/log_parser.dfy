/** `LogParser.parse_logs`: each logged document becomes one row with the
    fixed event fields filled in and its `event_context` either spread into
    the row or kept as a JSON string; the frame keeps only the fixed columns. */
module LogParser {
  import opened Wrappers
  import opened Values

  /** A logged document: its fields in insertion order. */
  type Document = seq<(string, Value)>

  /** The library conversions the parser calls, given as functions:
      `pd.to_datetime` on one value (`None` when it raises, `Null` for NaT),
      `float(v)` (`None` when it raises) and `json.dumps`. */
  datatype Conversions = Conversions(
    toTime: Value -> Option<Value>,
    toFloat: Value -> Option<real>,
    dumps: Document -> string)

  const UnknownUser := "UNKNOWN"
  const Undefined := "undefined"
  const ContextKey := "event_context"
  const SessionKey := "session_id"
  const GroupKey := "group_id"

  /** The columns the frame keeps, in the order it keeps them. */
  const ColumnOrder: seq<string> :=
    ["timestamp", "user_id", "group_id", "session_id", "event_type", "event_name", "event_value", "context"]

  /** `log.get(k) or log.get("event_context", {}).get(k)`: the root value when
      truthy, else the context's; `None` when the context is reached and is
      not a dict, where `.get` raises. */
  function IdOf(log: Document, k: string): (r: Option<Value>)
    ensures Truthy(LookupOr(log, k, Null)) ==> r == Some(LookupOr(log, k, Null))
    ensures !Truthy(LookupOr(log, k, Null)) ==>
              (r.Some? <==> LookupOr(log, ContextKey, Dict([])).Dict?)
    ensures !Truthy(LookupOr(log, k, Null)) && r.Some? ==>
              r.value == LookupOr(LookupOr(log, ContextKey, Dict([])).entries, k, Null)
  {
    var root := LookupOr(log, k, Null);
    if Truthy(root) then Some(root)
    else
      var ec := LookupOr(log, ContextKey, Dict([]));
      if ec.Dict? then Some(LookupOr(ec.entries, k, Null)) else None
  }

  /** The entries of `es` whose key is neither `session_id` nor `group_id`, in order. */
  function WithoutIds(es: Document): (r: Document)
    ensures !HasKey(r, SessionKey) && !HasKey(r, GroupKey)
    ensures forall k :: k != SessionKey && k != GroupKey ==> Lookup(r, k) == Lookup(es, k)
  {
    if es == [] then []
    else
      var rest := WithoutIds(es[1..]);
      if es[0].0 == SessionKey || es[0].0 == GroupKey then rest
      else
        var r := [es[0]] + rest;
        forall k ensures HasKey(r, k) <==> es[0].0 == k || HasKey(rest, k) {
          HasKeyCons(es[0], rest, k);
        }
        r
  }

  /** The context bag: the `event_context` dict without the identifiers,
      or empty when there is no dict there. */
  function ContextBag(log: Document): (r: Document)
    ensures !HasKey(r, SessionKey) && !HasKey(r, GroupKey)
    ensures !(HasKey(log, ContextKey) && LookupOr(log, ContextKey, Null).Dict?) ==> r == []
    ensures HasKey(log, ContextKey) && LookupOr(log, ContextKey, Null).Dict? ==>
              forall k :: k != SessionKey && k != GroupKey ==> Lookup(r, k) == Lookup(LookupOr(log, ContextKey, Null).entries, k)
  {
    var ec := LookupOr(log, ContextKey, Null);
    if HasKey(log, ContextKey) && ec.Dict? then WithoutIds(ec.entries) else []
  }

  /** One row of the frame, column by column; `context` is `None` when the
      row has no such key (NaN in a frame that has the column). */
  datatype Row = Row(
    timestamp: Value,
    userId: Value,
    groupId: Value,
    sessionId: Value,
    eventType: Value,
    eventName: Value,
    eventValue: Value,
    context: Option<Value>)

  /** The column `k` of `{**base, **bag}`: the bag's value when it has the key. */
  function Spread(base: Value, bag: Document, k: string, expand: bool): (r: Value)
    ensures !expand || !HasKey(bag, k) ==> r == base
    ensures expand && HasKey(bag, k) ==> Lookup(bag, k) == Some(r)
  {
    if expand then LookupOr(bag, k, base) else base
  }

  /** `float(v)` when it succeeds, else `v` unchanged. */
  function AsFloat(v: Value, conv: Conversions): (r: Value)
    ensures conv.toFloat(v).Some? ==> r == Num(conv.toFloat(v).value)
    ensures conv.toFloat(v).None? ==> r == v
  {
    if conv.toFloat(v).Some? then Num(conv.toFloat(v).value) else v
  }

  /** The row of one log, or `None` where the source raises: an unparseable
      timestamp, or a non-dict context consulted for an identifier. The
      frame keeps only the eight fixed columns of the row dict, so with
      `expand` a context key is visible only when it names one of them, and
      then it overrides the fixed field. */
  function ParseLog(log: Document, expand: bool, conv: Conversions): (r: Option<Row>)
    ensures r.Some? <==> conv.toTime(LookupOr(log, "timestamp", Null)).Some?
                         && IdOf(log, SessionKey).Some? && IdOf(log, GroupKey).Some?
    ensures r.Some? ==> r.value.sessionId == IdOf(log, SessionKey).value && r.value.groupId == IdOf(log, GroupKey).value
    ensures r.Some? && !expand ==> r.value.context == Some(Str(conv.dumps(ContextBag(log))))
    ensures r.Some? && expand ==> r.value.context == Lookup(ContextBag(log), "context")
  {
    var session := IdOf(log, SessionKey);
    var group := IdOf(log, GroupKey);
    var ts := conv.toTime(LookupOr(log, "timestamp", Null));
    if session.None? || group.None? || ts.None? then None
    else
      var bag := ContextBag(log);
      Some(Row(
        Spread(ts.value, bag, "timestamp", expand),
        Spread(LookupOr(log, "user_id", Str(UnknownUser)), bag, "user_id", expand),
        Spread(group.value, bag, GroupKey, expand),
        Spread(session.value, bag, SessionKey, expand),
        Spread(LookupOr(log, "event_type", Str(Undefined)), bag, "event_type", expand),
        Spread(LookupOr(log, "event_name", Str(Undefined)), bag, "event_name", expand),
        Spread(AsFloat(LookupOr(log, "event_value", Null), conv), bag, "event_value", expand),
        if expand then Lookup(bag, "context") else Some(Str(conv.dumps(bag)))))
  }

  /** The fields of a parsed row when the context does not override them:
      defaults for what the log lacks and the value as a float when it converts. */
  lemma ParsedFields(log: Document, expand: bool, conv: Conversions)
    requires ParseLog(log, expand, conv).Some?
    requires !expand || ContextBag(log) == []
    ensures var row := ParseLog(log, expand, conv).value;
      && row.userId == LookupOr(log, "user_id", Str(UnknownUser))
      && row.eventType == LookupOr(log, "event_type", Str(Undefined))
      && row.eventName == LookupOr(log, "event_name", Str(Undefined))
      && row.timestamp == conv.toTime(LookupOr(log, "timestamp", Null)).value
      && row.eventValue == AsFloat(LookupOr(log, "event_value", Null), conv)
  {
  }

  /** With the context spread into the row, a context key naming a fixed
      column overrides it. */
  lemma ContextOverrides(log: Document, conv: Conversions)
    requires ParseLog(log, true, conv).Some?
    ensures var row := ParseLog(log, true, conv).value;
      && (HasKey(ContextBag(log), "user_id") ==> Lookup(ContextBag(log), "user_id") == Some(row.userId))
      && (HasKey(ContextBag(log), "event_name") ==> Lookup(ContextBag(log), "event_name") == Some(row.eventName))
      && (HasKey(ContextBag(log), "timestamp") ==> Lookup(ContextBag(log), "timestamp") == Some(row.timestamp))
  {
  }

  /** The parsed frame: its columns in order and one row per log. */
  datatype Frame = Frame(columns: seq<string>, rows: seq<Row>)

  /** The rows of a batch when every log has one. */
  function Collect(rs: seq<Option<Row>>): (r: Option<seq<Row>>)
    ensures r.Some? <==> forall i :: 0 <= i < |rs| ==> rs[i].Some?
    ensures r.Some? ==> |r.value| == |rs|
    ensures r.Some? ==> forall i :: 0 <= i < |rs| ==> Some(r.value[i]) == rs[i]
  {
    if rs == [] then Some([])
    else
      var rest := Collect(rs[1..]);
      assert forall i :: 1 <= i < |rs| ==> rs[i] == rs[1..][i - 1];
      if rs[0].None? || rest.None? then None else Some([rs[0].value] + rest.value)
  }

  /** Every log parsed, in order, or `None` when one of them raises. */
  function ParseAll(logs: seq<Document>, expand: bool, conv: Conversions): (r: Option<seq<Row>>)
    ensures r.Some? <==> forall i :: 0 <= i < |logs| ==> ParseLog(logs[i], expand, conv).Some?
    ensures r.Some? ==> |r.value| == |logs|
    ensures r.Some? ==> forall i :: 0 <= i < |logs| ==> Some(r.value[i]) == ParseLog(logs[i], expand, conv)
  {
    var rs := seq(|logs|, i requires 0 <= i < |logs| => ParseLog(logs[i], expand, conv));
    assert forall i :: 0 <= i < |logs| ==> rs[i] == ParseLog(logs[i], expand, conv);
    Collect(rs)
  }

  predicate SomeContext(rows: seq<Row>) {
    exists i :: 0 <= i < |rows| && rows[i].context.Some?
  }

  /** `[c for c in column_order if c in df.columns]`: every row has the seven
      fixed keys; `context` is a column when some row has it. */
  function Columns(rows: seq<Row>): (r: seq<string>)
    ensures rows == [] ==> r == []
    ensures rows != [] ==> |r| >= 7 && r[..7] == ColumnOrder[..7]
    ensures rows != [] && SomeContext(rows) ==> r == ColumnOrder
    ensures rows != [] && !SomeContext(rows) ==> r == ColumnOrder[..7]
  {
    if rows == [] then [] else if SomeContext(rows) then ColumnOrder else ColumnOrder[..7]
  }

  /** `parse_logs(logs, expand_context)`: one row per log in input order, or
      a failure when some log raises. */
  function ParseLogs(logs: seq<Document>, expand: bool, conv: Conversions): (r: Result<Frame>)
    ensures r.Success? <==> forall i :: 0 <= i < |logs| ==> ParseLog(logs[i], expand, conv).Some?
    ensures r.Success? ==> |r.value.rows| == |logs|
    ensures r.Success? ==> forall i :: 0 <= i < |logs| ==> Some(r.value.rows[i]) == ParseLog(logs[i], expand, conv)
    ensures r.Success? ==> forall c :: c in r.value.columns ==> c in ColumnOrder
  {
    match ParseAll(logs, expand, conv)
    case None => Failure("a log cannot be parsed")
    case Some(rows) => Success(Frame(Columns(rows), rows))
  }

  /** Without expansion, a non-empty batch has all eight columns. */
  lemma AllColumnsWithoutExpansion(logs: seq<Document>, conv: Conversions)
    requires logs != [] && ParseLogs(logs, false, conv).Success?
    ensures ParseLogs(logs, false, conv).value.columns == ColumnOrder
  {
    var rows := ParseLogs(logs, false, conv).value.rows;
    assert rows[0].context.Some?;
  }

  /** No parsed column is a dotted `event_context.` path. */
  lemma NoContextColumns(logs: seq<Document>, expand: bool, conv: Conversions)
    requires ParseLogs(logs, expand, conv).Success?
    ensures forall c :: c in ParseLogs(logs, expand, conv).value.columns ==> !(|c| >= 14 && c[..14] == "event_context.")
  {
    assert forall c :: c in ColumnOrder ==> |c| < 14;
  }
}
