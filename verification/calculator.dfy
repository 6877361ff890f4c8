/** `MetricsCalculator` as a whole: construction of the event table from
    the parsed frame and the experiment configuration, scoring of the four
    categories over the whole table (`compute_all`) and once per
    (user, group, session) partition (`compute_grouped_metrics`), with the
    resolution of each partition's independent-variable tag. */
module Calculator {
  import opened Wrappers
  import opened Values
  import Strings
  import opened Events
  import opened Statistics
  import opened Registry
  import opened Scoring

  // ---------------------------------------------------------------
  // Construction
  // ---------------------------------------------------------------

  /** A row of the frame handed to the constructor; an identifier is `None`
      when its column is absent or the cell is NaN. */
  datatype RawEvent = RawEvent(
    timestamp: Option<int>,
    userId: Option<string>,
    groupId: Option<string>,
    sessionId: Option<string>,
    eventName: string,
    eventValue: Value,
    cells: map<string, Value>)

  datatype RawTable = RawTable(columns: set<string>, rows: seq<RawEvent>)

  /** The `experiment_config` sections the engine reads; a section is `None`
      when the configuration does not declare it. */
  datatype ExperimentConfig = ExperimentConfig(
    eventRoles: Option<map<string, string>>,
    metrics: Option<map<string, CategoryConfig>>,
    profiles: Option<map<string, Profile>>)

  /** A constructed calculator: the prepared table and the configuration it scores with. */
  datatype Calculator = Calculator(
    table: Table,
    metricsCfg: map<string, CategoryConfig>,
    profilesCfg: map<string, Profile>,
    userProfile: string)

  const DefaultUserProfile := "novice"
  const UnknownUser := "UNKNOWN"
  const DefaultGroup := "GROUP"
  const DefaultSession := "SESSION"

  /** `experiment_config or {}` followed by `config.get(section, {})`. */
  function RolesOf(config: Option<ExperimentConfig>): map<string, string> {
    if config.Some? then config.value.eventRoles.GetOr(map[]) else map[]
  }

  function MetricsOf(config: Option<ExperimentConfig>): map<string, CategoryConfig> {
    if config.Some? then config.value.metrics.GetOr(map[]) else map[]
  }

  function ProfilesOf(config: Option<ExperimentConfig>): map<string, Profile> {
    if config.Some? then config.value.profiles.GetOr(map[]) else map[]
  }

  /** `roles_cfg.get(ev, "custom_event")`. */
  function RoleOf(roles: map<string, string>, name: string): string {
    if name in roles then roles[name] else CustomEvent
  }

  /** One row with its identifiers filled in and its role resolved. */
  function FillRow(e: RawEvent, roles: map<string, string>): (r: Event)
    ensures r.userId == e.userId.GetOr(UnknownUser)
    ensures r.groupId == e.groupId.GetOr(DefaultGroup)
    ensures r.sessionId == e.sessionId.GetOr(DefaultSession)
    ensures r.eventRole == RoleOf(roles, e.eventName)
  {
    Event(e.timestamp, e.userId.GetOr(UnknownUser), e.groupId.GetOr(DefaultGroup),
          e.sessionId.GetOr(DefaultSession), e.eventName, e.eventValue, RoleOf(roles, e.eventName), e.cells)
  }

  /** `df["event_role"] = df["event_name"].apply(resolve_role)`. */
  function AssignRoles(rows: seq<Event>, roles: map<string, string>): (r: seq<Event>)
    ensures |r| == |rows|
    ensures forall i :: 0 <= i < |rows| ==> r[i] == rows[i].(eventRole := RoleOf(roles, rows[i].eventName))
  {
    seq(|rows|, i requires 0 <= i < |rows| => rows[i].(eventRole := RoleOf(roles, rows[i].eventName)))
  }

  /** The role depends on the event name alone, so resolving twice, as the
      constructor does, is resolving once. */
  lemma AssignRolesIdempotent(rows: seq<Event>, roles: map<string, string>)
    ensures AssignRoles(AssignRoles(rows, roles), roles) == AssignRoles(rows, roles)
  {
  }

  /** `MetricsCalculator(df, experiment_config, user_profile)`. */
  function New(raw: RawTable, config: Option<ExperimentConfig>, userProfile: string): (c: Calculator)
    ensures c.table.columns == raw.columns
    ensures |c.table.rows| == |raw.rows|
    ensures c.metricsCfg == MetricsOf(config) && c.profilesCfg == ProfilesOf(config)
    ensures c.userProfile == userProfile
  {
    var roles := RolesOf(config);
    var first := seq(|raw.rows|, i requires 0 <= i < |raw.rows| => FillRow(raw.rows[i], roles));
    Calculator(Table(raw.columns, AssignRoles(AssignRoles(first, roles), roles)),
               MetricsOf(config), ProfilesOf(config), userProfile)
  }

  /** After construction each row keeps its own event and carries the
      configured role of its name, or `custom_event`, and the default for any
      missing identifier. */
  lemma ConstructedRows(raw: RawTable, config: Option<ExperimentConfig>, userProfile: string, i: int)
    requires 0 <= i < |raw.rows|
    ensures var e := New(raw, config, userProfile).table.rows[i];
      && e.timestamp == raw.rows[i].timestamp
      && e.eventName == raw.rows[i].eventName
      && e.eventValue == raw.rows[i].eventValue
      && e.cells == raw.rows[i].cells
      && e.userId == raw.rows[i].userId.GetOr(UnknownUser)
      && e.groupId == raw.rows[i].groupId.GetOr(DefaultGroup)
      && e.sessionId == raw.rows[i].sessionId.GetOr(DefaultSession)
      && (raw.rows[i].eventName in RolesOf(config) ==> e.eventRole == RolesOf(config)[raw.rows[i].eventName])
      && (raw.rows[i].eventName !in RolesOf(config) ==> e.eventRole == CustomEvent)
  {
    var roles := RolesOf(config);
    var first := seq(|raw.rows|, i requires 0 <= i < |raw.rows| => FillRow(raw.rows[i], roles));
    AssignRolesIdempotent(first, roles);
  }

  /** Without a configuration every event is a `custom_event`. */
  lemma UnconfiguredRoles(raw: RawTable, userProfile: string)
    ensures forall e :: e in New(raw, None, userProfile).table.rows ==> e.eventRole == CustomEvent
  {
    var c := New(raw, None, userProfile);
    forall e | e in c.table.rows ensures e.eventRole == CustomEvent {
      var i :| 0 <= i < |c.table.rows| && c.table.rows[i] == e;
      ConstructedRows(raw, None, userProfile, i);
    }
  }

  // ---------------------------------------------------------------
  // Scoring a table
  // ---------------------------------------------------------------

  /** `metric_funcs.get(name)` applied to `t`. */
  function EvaluatorOf(t: Table, std: seq<real> -> NonNegReal): Evaluator {
    (name: string) => if MetricOfName(name).Some? then Some(Evaluate(MetricOfName(name).value, t, std)) else None
  }

  /** The evaluator knows exactly the registered names and runs their statistic. */
  lemma EvaluatorDispatches(t: Table, std: seq<real> -> NonNegReal, m: Metric, name: string)
    ensures EvaluatorOf(t, std)(NameOf(m)) == Some(Evaluate(m, t, std))
    ensures EvaluatorOf(t, std)(name).None? <==> forall m': Metric :: NameOf(m') != name
  {
    var r := MetricOfName(NameOf(m));
    MetricOfNameRoundTrip(m);
    assert r == Some(m);
    assert EvaluatorOf(t, std)(NameOf(m)) == Some(Evaluate(r.value, t, std));
    assert EvaluatorOf(t, std)(name).None? <==> MetricOfName(name).None?;
  }

  /** `self.metrics_cfg.get(category_name, {})`. */
  function CategoryConfigOf(c: Calculator, category: string): CategoryConfig {
    if category in c.metricsCfg then c.metricsCfg[category] else []
  }

  /** `self.profiles_cfg.get(self.user_profile, {})`. */
  function ProfileOf(c: Calculator): Profile {
    if c.userProfile in c.profilesCfg then c.profilesCfg[c.userProfile] else map[]
  }

  /** What scoring `t` divides by is sound: every category's bounds and the
      profile's weight total. */
  predicate Ready(c: Calculator, t: Table, std: seq<real> -> NonNegReal) {
    && CategoryReady(c, "efectividad", t, std)
    && CategoryReady(c, "eficiencia", t, std)
    && CategoryReady(c, "satisfaccion", t, std)
    && CategoryReady(c, "presencia", t, std)
    && WeightTotal(WeightsOf(ProfileOf(c))) != 0.0
  }

  predicate CategoryReady(c: Calculator, category: string, t: Table, std: seq<real> -> NonNegReal) {
    Scoring.Scorable(CategoryConfigOf(c, category), EvaluatorOf(t, std))
  }

  /** `compute_category(category, t)`. */
  function CategoryOn(c: Calculator, category: string, t: Table, std: seq<real> -> NonNegReal): (r: CategoryResult)
    requires CategoryReady(c, category, t, std)
    ensures r.metrics == Entries(CategoryConfigOf(c, category), EvaluatorOf(t, std))
    ensures r.score == WeightedMean(r.metrics)
  {
    ComputeCategory(CategoryConfigOf(c, category), EvaluatorOf(t, std))
  }

  /** The four category results and the global score of one table. */
  datatype Report = Report(
    efectividad: CategoryResult,
    eficiencia: CategoryResult,
    satisfaccion: CategoryResult,
    presencia: CategoryResult,
    globalScore: real)

  function ScoresOf(r: Report): Scores {
    Scores(r.efectividad.score, r.eficiencia.score, r.satisfaccion.score, r.presencia.score)
  }

  /** The four categories and the global score of `t`. */
  function ReportOn(c: Calculator, t: Table, std: seq<real> -> NonNegReal): (r: Report)
    requires Ready(c, t, std)
    ensures r.efectividad.metrics == Entries(CategoryConfigOf(c, "efectividad"), EvaluatorOf(t, std))
    ensures r.eficiencia.metrics == Entries(CategoryConfigOf(c, "eficiencia"), EvaluatorOf(t, std))
    ensures r.satisfaccion.metrics == Entries(CategoryConfigOf(c, "satisfaccion"), EvaluatorOf(t, std))
    ensures r.presencia.metrics == Entries(CategoryConfigOf(c, "presencia"), EvaluatorOf(t, std))
    ensures r.efectividad.score == WeightedMean(r.efectividad.metrics)
    ensures r.eficiencia.score == WeightedMean(r.eficiencia.metrics)
    ensures r.satisfaccion.score == WeightedMean(r.satisfaccion.metrics)
    ensures r.presencia.score == WeightedMean(r.presencia.metrics)
    ensures r.globalScore == ComputeGlobalScore(ScoresOf(r), ProfileOf(c))
  {
    var s := Report(CategoryOn(c, "efectividad", t, std), CategoryOn(c, "eficiencia", t, std),
                    CategoryOn(c, "satisfaccion", t, std), CategoryOn(c, "presencia", t, std), 0.0);
    s.(globalScore := ComputeGlobalScore(ScoresOf(s), ProfileOf(c)))
  }

  /** `compute_all()`: the report of the whole table. */
  function ComputeAll(c: Calculator, std: seq<real> -> NonNegReal): (r: Report)
    requires Ready(c, c.table, std)
    ensures r.efectividad.metrics == Entries(CategoryConfigOf(c, "efectividad"), EvaluatorOf(c.table, std))
    ensures r.eficiencia.metrics == Entries(CategoryConfigOf(c, "eficiencia"), EvaluatorOf(c.table, std))
    ensures r.satisfaccion.metrics == Entries(CategoryConfigOf(c, "satisfaccion"), EvaluatorOf(c.table, std))
    ensures r.presencia.metrics == Entries(CategoryConfigOf(c, "presencia"), EvaluatorOf(c.table, std))
    ensures r.efectividad.score == WeightedMean(r.efectividad.metrics)
    ensures r.eficiencia.score == WeightedMean(r.eficiencia.metrics)
    ensures r.satisfaccion.score == WeightedMean(r.satisfaccion.metrics)
    ensures r.presencia.score == WeightedMean(r.presencia.metrics)
    ensures r.globalScore == ComputeGlobalScore(ScoresOf(r), ProfileOf(c))
  {
    ReportOn(c, c.table, std)
  }

  const EmptyCategory := CategoryResult([], 0.0)

  /** A calculator built without a configuration scores every category and
      the session 0.0, as the batch analysis script produces it. */
  lemma UnconfiguredScoresZero(raw: RawTable, userProfile: string, std: seq<real> -> NonNegReal)
    ensures Ready(New(raw, None, userProfile), New(raw, None, userProfile).table, std)
    ensures ComputeAll(New(raw, None, userProfile), std) == Report(EmptyCategory, EmptyCategory, EmptyCategory, EmptyCategory, 0.0)
  {
    var c := New(raw, None, userProfile);
    assert MetricsOf(None) == map[] && ProfilesOf(None) == map[];
    EmptyConfigScoresZero(c, c.table, std);
  }

  /** Without metric blocks and profiles every table scores 0.0 throughout. */
  lemma EmptyConfigScoresZero(c: Calculator, t: Table, std: seq<real> -> NonNegReal)
    requires c.metricsCfg == map[] && c.profilesCfg == map[]
    ensures Ready(c, t, std)
    ensures ReportOn(c, t, std) == Report(EmptyCategory, EmptyCategory, EmptyCategory, EmptyCategory, 0.0)
  {
    assert ProfileOf(c) == map[];
    EmptyCategoryOn(c, "efectividad", t, std);
    EmptyCategoryOn(c, "eficiencia", t, std);
    EmptyCategoryOn(c, "satisfaccion", t, std);
    EmptyCategoryOn(c, "presencia", t, std);
    UniformGlobalScore(0.0, map[]);
  }

  lemma EmptyCategoryOn(c: Calculator, category: string, t: Table, std: seq<real> -> NonNegReal)
    requires category !in c.metricsCfg
    ensures CategoryReady(c, category, t, std)
    ensures CategoryOn(c, category, t, std) == EmptyCategory
  {
    assert CategoryConfigOf(c, category) == [];
    assert Entries([], EvaluatorOf(t, std)) == [];
  }

  /** With weights that are non-negative and total more than 0, and every
      category score in [0, 1], the global score is in [0, 1]. */
  lemma GlobalScoreBounded(c: Calculator, t: Table, std: seq<real> -> NonNegReal)
    requires Ready(c, t, std)
    requires WeightsOf(ProfileOf(c)).efectividad >= 0.0 && WeightsOf(ProfileOf(c)).eficiencia >= 0.0
    requires WeightsOf(ProfileOf(c)).satisfaccion >= 0.0 && WeightsOf(ProfileOf(c)).presencia >= 0.0
    requires WeightTotal(WeightsOf(ProfileOf(c))) > 0.0
    requires UnitEntries(Entries(CategoryConfigOf(c, "efectividad"), EvaluatorOf(t, std)))
    requires UnitEntries(Entries(CategoryConfigOf(c, "eficiencia"), EvaluatorOf(t, std)))
    requires UnitEntries(Entries(CategoryConfigOf(c, "satisfaccion"), EvaluatorOf(t, std)))
    requires UnitEntries(Entries(CategoryConfigOf(c, "presencia"), EvaluatorOf(t, std)))
    ensures 0.0 <= ReportOn(c, t, std).globalScore <= 1.0
  {
    var r := ReportOn(c, t, std);
    var eval := EvaluatorOf(t, std);
    ScoreInUnit(CategoryConfigOf(c, "efectividad"), eval);
    ScoreInUnit(CategoryConfigOf(c, "eficiencia"), eval);
    ScoreInUnit(CategoryConfigOf(c, "satisfaccion"), eval);
    ScoreInUnit(CategoryConfigOf(c, "presencia"), eval);
    GlobalScoreInUnit(ScoresOf(r), ProfileOf(c));
  }

  // ---------------------------------------------------------------
  // Partitions
  // ---------------------------------------------------------------

  /** A `groupby(["user_id", "group_id", "session_id"])` key. */
  datatype Key = Key(user: string, group: string, session: string)

  function KeyOf(e: Event): Key {
    Key(e.userId, e.groupId, e.sessionId)
  }

  /** Tuple order on keys, the order `groupby` emits its partitions in. */
  predicate KeyLess(a: Key, b: Key) {
    || Strings.Less(a.user, b.user)
    || (a.user == b.user && Strings.Less(a.group, b.group))
    || (a.user == b.user && a.group == b.group && Strings.Less(a.session, b.session))
  }

  lemma KeyLessIrreflexive(a: Key)
    ensures !KeyLess(a, a)
  {
    Strings.LessIrreflexive(a.user);
    Strings.LessIrreflexive(a.group);
    Strings.LessIrreflexive(a.session);
  }

  lemma KeyLessTransitive(a: Key, b: Key, c: Key)
    requires KeyLess(a, b) && KeyLess(b, c)
    ensures KeyLess(a, c)
  {
    Strings.LessIrreflexive(a.user);
    Strings.LessIrreflexive(a.group);
    Strings.LessIrreflexive(b.user);
    Strings.LessIrreflexive(b.group);
    if a.user != b.user && b.user != c.user {
      Strings.LessTransitive(a.user, b.user, c.user);
    } else if a.user == b.user && b.user == c.user && a.group != b.group && b.group != c.group {
      Strings.LessTransitive(a.group, b.group, c.group);
    } else if a.user == b.user && b.user == c.user && a.group == b.group && b.group == c.group {
      Strings.LessTransitive(a.session, b.session, c.session);
    }
  }

  lemma KeyLessTotal(a: Key, b: Key)
    ensures a == b || KeyLess(a, b) || KeyLess(b, a)
  {
    Strings.LessTotal(a.user, b.user);
    Strings.LessTotal(a.group, b.group);
    Strings.LessTotal(a.session, b.session);
  }

  predicate StrictlySorted(ks: seq<Key>) {
    forall i, j :: 0 <= i < j < |ks| ==> KeyLess(ks[i], ks[j])
  }

  /** Adds `k` to an ordered list of distinct keys. */
  function InsertKey(k: Key, ks: seq<Key>): (r: seq<Key>)
    requires StrictlySorted(ks)
    ensures StrictlySorted(r)
    ensures forall x :: x in r <==> x in ks || x == k
  {
    if ks == [] then [k]
    else if k == ks[0] then ks
    else if KeyLess(k, ks[0]) then
      assert forall j :: 0 <= j < |ks| ==> KeyLess(k, ks[j]) by {
        forall j | 0 <= j < |ks| ensures KeyLess(k, ks[j]) {
          if j > 0 { KeyLessTransitive(k, ks[0], ks[j]); }
        }
      }
      [k] + ks
    else
      KeyLessTotal(k, ks[0]);
      var rest := InsertKey(k, ks[1..]);
      assert forall x :: x in rest ==> KeyLess(ks[0], x);
      [ks[0]] + rest
  }

  function KeySet(rows: seq<Event>): set<Key> {
    set e | e in rows :: KeyOf(e)
  }

  /** The partition keys of `rows`: each distinct triple once, in tuple order. */
  function Keys(rows: seq<Event>): (r: seq<Key>)
    ensures StrictlySorted(r)
    ensures forall k :: k in r <==> k in KeySet(rows)
  {
    if rows == [] then []
    else
      assert KeySet(rows) == {KeyOf(rows[0])} + KeySet(rows[1..]) by {
        assert forall e :: e in rows <==> e == rows[0] || e in rows[1..];
      }
      InsertKey(KeyOf(rows[0]), Keys(rows[1..]))
  }

  /** Strictly ordered keys are distinct. */
  lemma KeysDistinct(rows: seq<Event>)
    ensures forall i, j :: 0 <= i < j < |Keys(rows)| ==> Keys(rows)[i] != Keys(rows)[j]
  {
    var ks := Keys(rows);
    forall i, j | 0 <= i < j < |ks| ensures ks[i] != ks[j] {
      KeyLessIrreflexive(ks[i]);
    }
  }

  function InPartition(k: Key): Event -> bool {
    (e: Event) => KeyOf(e) == k
  }

  /** The partition of `t` with key `k`: its rows, in table order. */
  function Partition(t: Table, k: Key): (r: Table)
    ensures r.columns == t.columns
    ensures forall e :: e in r.rows <==> e in t.rows && KeyOf(e) == k
    ensures forall e :: multiset(r.rows)[e] == if KeyOf(e) == k then multiset(t.rows)[e] else 0
    ensures |r.rows| == |Matching(t.rows, InPartition(k))|
    ensures |r.rows| == |Positions(t.rows, InPartition(k))|
    ensures forall j :: 0 <= j < |r.rows| ==> r.rows[j] == t.rows[Positions(t.rows, InPartition(k))[j]]
  {
    FilterMultiset(t.rows, InPartition(k));
    CountIsMatching(t.rows, InPartition(k));
    FilterAtPositions(t.rows, InPartition(k));
    Where(t, InPartition(k))
  }

  // ---------------------------------------------------------------
  // Independent variable of a partition
  // ---------------------------------------------------------------

  const IvColumn := "independent_variable"
  const SessionColumn := "session"
  const NotAvailable := "N/A"

  /** `subdf[col].dropna()`: the non-null cells of `col`, in row order. */
  function PresentValues(rows: seq<Event>, col: string): (r: seq<Value>)
    ensures forall v :: v in r ==> !v.Null?
    ensures r == [] <==> forall i :: 0 <= i < |rows| ==> col !in rows[i].cells || rows[i].cells[col].Null?
  {
    if rows == [] then []
    else
      var rest := PresentValues(rows[1..], col);
      assert forall i :: 1 <= i < |rows| ==> rows[i] == rows[1..][i - 1];
      if col in rows[0].cells && !rows[0].cells[col].Null? then [rows[0].cells[col]] + rest else rest
  }

  /** Step 1: the first non-null value of the `independent_variable` column;
      `Null` stands for "not found yet". */
  function FromColumn(t: Table): Value {
    if IvColumn in t.columns && PresentValues(t.rows, IvColumn) != [] then PresentValues(t.rows, IvColumn)[0]
    else Null
  }

  /** Step 2: the first non-null `session` cell that is a dict holding the
      key, or a string that `loads` decodes to one. The flag says whether the
      `json` module name is bound: a string cell binds it before it is decoded. */
  function FromSession(vals: seq<Value>, loads: string -> Option<Value>, bound: bool, iv: Value): (r: (Value, bool))
    ensures bound ==> r.1
    ensures r.0 == iv || exists v :: v in vals && (Field(v, IvColumn) == Some(r.0)
                                       || (v.Str? && loads(v.s).Some? && Field(loads(v.s).value, IvColumn) == Some(r.0)))
  {
    if vals == [] then (iv, bound)
    else if Field(vals[0], IvColumn).Some? then (Field(vals[0], IvColumn).value, bound)
    else if vals[0].Str? && loads(vals[0].s).Some? && Field(loads(vals[0].s).value, IvColumn).Some? then
      (Field(loads(vals[0].s).value, IvColumn).value, true)
    else
      var r := FromSession(vals[1..], loads, bound || vals[0].Str?, iv);
      assert forall v :: v in vals[1..] ==> v in vals;
      r
  }

  /** `r.get("context") or r.get("event_context")`. */
  function ContextOf(t: Table, e: Event): Cell {
    var c := CellOf(t, e, "context");
    if CellTruthy(c) then c else CellOf(t, e, "event_context")
  }

  /** What one `session_start` context yields: the key at its root, else
      inside its `session` dict. A string context is decoded only when
      `decode` holds; otherwise, or when decoding fails, it is `{}`. */
  function FromContext(ctx: Cell, loads: string -> Option<Value>, decode: bool): (r: Option<Value>)
    ensures !CellTruthy(ctx) || !ctx.Present? ==> r.None?
    ensures ctx.Present? && ctx.v.Str? && !decode ==> r.None?
  {
    if !CellTruthy(ctx) || !ctx.Present? then None
    else
      var d := if ctx.v.Str? then (if decode then loads(ctx.v.s).GetOr(Dict([])) else Dict([])) else ctx.v;
      if Field(d, IvColumn).Some? then Field(d, IvColumn)
      else
        match Field(d, SessionColumn)
        case Some(inner) => if inner.Dict? then Field(inner, IvColumn) else None
        case None => None
  }

  /** Step 3: the `session_start` rows in order; a found value replaces the
      current one, and the scan stops once the current one is truthy. */
  function FromStarts(t: Table, starts: seq<Event>, loads: string -> Option<Value>, decode: bool, iv: Value): (r: Value)
    ensures r == iv || exists e :: e in starts && FromContext(ContextOf(t, e), loads, decode) == Some(r)
  {
    if starts == [] then iv
    else
      var found := FromContext(ContextOf(t, starts[0]), loads, decode);
      var next := if found.Some? then found.value else iv;
      if Truthy(next) then next
      else
        var r := FromStarts(t, starts[1..], loads, decode, next);
        assert forall e :: e in starts[1..] ==> e in starts;
        r
  }

  /** Some non-null `session` cell of `t` holds `v` under the key, directly or
      once decoded by `loads`. */
  ghost predicate SessionYields(t: Table, loads: string -> Option<Value>, v: Value) {
    exists s :: s in PresentValues(t.rows, SessionColumn) &&
      (Field(s, IvColumn) == Some(v) || (s.Str? && loads(s.s).Some? && Field(loads(s.s).value, IvColumn) == Some(v)))
  }

  /** The context of some `session_start` row of `t` yields `v`. */
  ghost predicate StartYields(t: Table, loads: string -> Option<Value>, decode: bool, v: Value) {
    exists e :: e in Filter(t.rows, NameIs(SessionStart)) && FromContext(ContextOf(t, e), loads, decode) == Some(v)
  }

  /** The three steps as written: `bound` says whether an earlier partition
      already bound `json`; the second component says whether it is bound
      after this one. Step 3 decodes a string context only when it is. The
      tag is the column value when that is truthy; otherwise it comes from a
      `session` cell or a `session_start` context, and is "N/A" when nothing
      truthy is found. */
  function ResolveIvAsWritten(t: Table, loads: string -> Option<Value>, bound: bool): (r: (Value, bool))
    ensures Truthy(r.0)
    ensures bound ==> r.1
    ensures Truthy(FromColumn(t)) ==> r == (FromColumn(t), bound)
    ensures !Truthy(FromColumn(t)) && SessionColumn !in t.columns ==> r.1 == bound
    ensures r.0 == Str(NotAvailable) || r.0 == FromColumn(t) || SessionYields(t, loads, r.0) || StartYields(t, loads, r.1, r.0)
  {
    var iv1 := FromColumn(t);
    var step2 := if !Truthy(iv1) && SessionColumn in t.columns
                 then FromSession(PresentValues(t.rows, SessionColumn), loads, bound, iv1)
                 else (iv1, bound);
    var iv3 := if !Truthy(step2.0) then FromStarts(t, Filter(t.rows, NameIs(SessionStart)), loads, step2.1, step2.0)
               else step2.0;
    (if Truthy(iv3) then iv3 else Str(NotAvailable), step2.1)
  }

  /** The three steps with a string context always decoded. */
  function ResolveIv(t: Table, loads: string -> Option<Value>): (r: Value)
    ensures Truthy(r)
    ensures Truthy(FromColumn(t)) ==> r == FromColumn(t)
    ensures r == Str(NotAvailable) || r == FromColumn(t) || SessionYields(t, loads, r) || StartYields(t, loads, true, r)
  {
    ResolveIvAsWritten(t, loads, true).0
  }

  /** "N/A" is the fallback: when neither the column, nor a `session` cell,
      nor a `session_start` context read as written yields a truthy value,
      the tag is "N/A". */
  lemma NothingTruthyIsNotAvailable(t: Table, loads: string -> Option<Value>, bound: bool)
    requires !Truthy(FromColumn(t))
    requires forall v :: SessionYields(t, loads, v) ==> !Truthy(v)
    requires forall v :: StartYields(t, loads, ResolveIvAsWritten(t, loads, bound).1, v) ==> !Truthy(v)
    ensures ResolveIvAsWritten(t, loads, bound).0 == Str(NotAvailable)
  {
    var iv1 := FromColumn(t);
    var step2 := if SessionColumn in t.columns
                 then FromSession(PresentValues(t.rows, SessionColumn), loads, bound, iv1)
                 else (iv1, bound);
    assert !Truthy(step2.0) by {
      if step2.0 != iv1 {
        assert SessionYields(t, loads, step2.0);
      }
    }
    var iv3 := FromStarts(t, Filter(t.rows, NameIs(SessionStart)), loads, step2.1, step2.0);
    assert !Truthy(iv3) by {
      if iv3 != step2.0 {
        assert StartYields(t, loads, step2.1, iv3);
      }
    }
  }

  /** Whether resolving `t` binds `json` itself, that is, whether step 2
      reaches a `session` string. */
  predicate BindsJson(t: Table, loads: string -> Option<Value>) {
    ResolveIvAsWritten(t, loads, false).1
  }

  /** Step 2's value does not depend on whether `json` was bound before, and
      it leaves `json` bound exactly when it was, or when it binds it itself. */
  lemma {:induction false} FromSessionBound(vals: seq<Value>, loads: string -> Option<Value>, bound: bool, iv: Value)
    ensures FromSession(vals, loads, bound, iv)
            == (FromSession(vals, loads, false, iv).0, bound || FromSession(vals, loads, false, iv).1)
  {
    if vals != [] && Field(vals[0], IvColumn).None?
       && !(vals[0].Str? && loads(vals[0].s).Some? && Field(loads(vals[0].s).value, IvColumn).Some?) {
      FromSessionBound(vals[1..], loads, bound || vals[0].Str?, iv);
      FromSessionBound(vals[1..], loads, vals[0].Str?, iv);
    }
  }

  /** After resolving `t`, `json` is bound when it was before or `t` binds it. */
  lemma ResolveIvBound(t: Table, loads: string -> Option<Value>, bound: bool)
    ensures ResolveIvAsWritten(t, loads, bound).1 == (bound || BindsJson(t, loads))
  {
    FromSessionBound(PresentValues(t.rows, SessionColumn), loads, bound, FromColumn(t));
  }

  /** Once `json` is bound at step 3, the resolution as written agrees with
      the corrected one. */
  lemma AsWrittenOnceBound(t: Table, loads: string -> Option<Value>, bound: bool)
    requires ResolveIvAsWritten(t, loads, bound).1
    ensures ResolveIvAsWritten(t, loads, bound).0 == ResolveIv(t, loads)
  {
    FromSessionBound(PresentValues(t.rows, SessionColumn), loads, bound, FromColumn(t));
    FromSessionBound(PresentValues(t.rows, SessionColumn), loads, true, FromColumn(t));
  }

  /** A truthy value found in a `session` cell is the tag when the column gives none. */
  lemma SessionSecond(t: Table, loads: string -> Option<Value>, bound: bool)
    requires !Truthy(FromColumn(t)) && SessionColumn in t.columns
    requires Truthy(FromSession(PresentValues(t.rows, SessionColumn), loads, bound, FromColumn(t)).0)
    ensures ResolveIvAsWritten(t, loads, bound).0 == FromSession(PresentValues(t.rows, SessionColumn), loads, bound, FromColumn(t)).0
  {
  }

  /** A truthy value in the `independent_variable` column wins over every other source. */
  lemma ColumnFirst(t: Table, loads: string -> Option<Value>)
    requires Truthy(FromColumn(t))
    ensures ResolveIv(t, loads) == FromColumn(t)
  {
  }

  /** With no column, no `session` column and no `session_start` row the tag is "N/A". */
  lemma NoSourceIsNotAvailable(t: Table, loads: string -> Option<Value>)
    requires IvColumn !in t.columns && SessionColumn !in t.columns
    requires forall i :: 0 <= i < |t.rows| ==> t.rows[i].eventName != SessionStart
    ensures ResolveIv(t, loads) == Str(NotAvailable)
  {
    CountZero(t.rows, NameIs(SessionStart));
  }

  /** A partition with one `session_start` whose `context` column holds a JSON string. */
  function StringContextTable(json: string): Table {
    Table({"context"}, [Event(Some(0), "u", "g", "s", SessionStart, Null, SessionStart, map["context" := Str(json)])])
  }

  /** As written, the string context of the first partition is never decoded
      because no `session` string bound `json` before; corrected, the tag is found. */
  lemma StringContextIgnored(json: string, loads: string -> Option<Value>)
    requires json != [] && loads(json) == Some(Dict([(IvColumn, Str("A"))]))
    ensures ResolveIvAsWritten(StringContextTable(json), loads, false).0 == Str(NotAvailable)
    ensures ResolveIv(StringContextTable(json), loads) == Str("A")
  {
    var t := StringContextTable(json);
    var e := t.rows[0];
    assert Filter(t.rows, NameIs(SessionStart)) == [e];
    assert ContextOf(t, e) == Present(Str(json));
    assert Field(Dict([(IvColumn, Str("A"))]), IvColumn) == Some(Str("A"));
  }

  // ---------------------------------------------------------------
  // Grouped metrics
  // ---------------------------------------------------------------

  /** One output row of `compute_grouped_metrics`: the key, the raw value of
      every counted metric, the four category scores, the global score and
      the independent-variable tag. */
  datatype GroupRow = GroupRow(
    key: Key,
    raws: seq<(string, Value)>,
    scores: Scores,
    globalScore: real,
    independentVariable: Value)

  /** Some entry of `es` is named `n`. */
  predicate Names(es: seq<(string, MetricEntry)>, n: string) {
    exists k :: 0 <= k < |es| && es[k].0 == n
  }

  /** The raw value of the last entry of `es` named `n`, if any. */
  function LastRaw(es: seq<(string, MetricEntry)>, n: string): (r: Option<real>)
    ensures r.Some? <==> Names(es, n)
    ensures r.Some? ==> exists k :: 0 <= k < |es| && es[k].0 == n && es[k].1.raw == r.value &&
                                   forall j :: k < j < |es| ==> es[j].0 != n
    decreases |es|
  {
    if es == [] then None
    else
      var m := |es| - 1;
      if es[m].0 == n then Some(es[m].1.raw)
      else
        var init := es[..m];
        var r := LastRaw(init, n);
        assert forall j :: 0 <= j < m ==> init[j] == es[j];
        assert Names(es, n) ==> Names(init, n) by {
          if Names(es, n) {
            var k :| 0 <= k < |es| && es[k].0 == n;
            assert init[k].0 == n;
          }
        }
        r
  }

  /** Prepending an entry matters only when no later entry has its name. */
  lemma {:induction false} LastRawCons(e: (string, MetricEntry), rest: seq<(string, MetricEntry)>, n: string)
    ensures LastRaw([e] + rest, n) ==
            if LastRaw(rest, n).Some? then LastRaw(rest, n)
            else if e.0 == n then Some(e.1.raw) else None
    decreases |rest|
  {
    var c := [e] + rest;
    if rest == [] {
      assert c[..0] == [];
    } else {
      var m := |rest| - 1;
      assert c[|c| - 1] == rest[m];
      assert c[..|c| - 1] == [e] + rest[..m];
      LastRawCons(e, rest[..m], n);
    }
  }

  /** `entry[metric_key] = val_dict["raw"]` for each counted metric in turn:
      a later entry overwrites an earlier one of the same name. */
  function PutRaws(acc: seq<(string, Value)>, es: seq<(string, MetricEntry)>): (r: seq<(string, Value)>)
    ensures forall n :: HasKey(r, n) <==> HasKey(acc, n) || Names(es, n)
    ensures forall n :: Lookup(r, n) == if LastRaw(es, n).Some? then Some(Num(LastRaw(es, n).value)) else Lookup(acc, n)
    decreases es
  {
    if es == [] then acc
    else
      var r := PutRaws(Put(acc, es[0].0, Num(es[0].1.raw)), es[1..]);
      assert es == [es[0]] + es[1..];
      forall n ensures LastRaw(es, n) ==
                       if LastRaw(es[1..], n).Some? then LastRaw(es[1..], n)
                       else if es[0].0 == n then Some(es[0].1.raw) else None {
        LastRawCons(es[0], es[1..], n);
      }
      r
  }

  function AllEntries(r: Report): seq<(string, MetricEntry)> {
    r.efectividad.metrics + r.eficiencia.metrics + r.satisfaccion.metrics + r.presencia.metrics
  }

  /** The raw columns of a partition's row: one per metric counted in any category. */
  function RawColumns(r: Report): (raws: seq<(string, Value)>)
    ensures forall n :: HasKey(raws, n) <==> Names(AllEntries(r), n)
    ensures forall n :: Names(AllEntries(r), n) ==> Lookup(raws, n) == Some(Num(LastRaw(AllEntries(r), n).value))
  {
    PutRaws([], AllEntries(r))
  }

  /** Row `g` is the row of partition `k` scored as `rep`: its raw metric
      values, its four category scores and its global score. */
  predicate RowOf(g: GroupRow, k: Key, rep: Report) {
    g.key == k && g.raws == RawColumns(rep) && g.scores == ScoresOf(rep) && g.globalScore == rep.globalScore
  }

  /** Row `g` holds the scores of partition `k` of the table. */
  predicate ScoredAs(g: GroupRow, c: Calculator, k: Key, std: seq<real> -> NonNegReal)
    requires Ready(c, Partition(c.table, k), std)
  {
    RowOf(g, k, ReportOn(c, Partition(c.table, k), std))
  }

  /** How one partition is tagged: given whether `json` is bound, its tag
      and whether `json` is bound afterwards. */
  type Resolver = (Table, bool) -> (Value, bool)

  /** The resolution of `compute_grouped_metrics` as written. */
  function AsWritten(loads: string -> Option<Value>): Resolver {
    (t: Table, bound: bool) => ResolveIvAsWritten(t, loads, bound)
  }

  /** `resolve` leaves `json` bound when it was, and otherwise exactly when
      resolving the partition binds it. */
  ghost predicate Threads(resolve: Resolver) {
    forall t: Table, b: bool :: resolve(t, b).1 == (b || resolve(t, false).1)
  }

  lemma AsWrittenThreads(loads: string -> Option<Value>)
    ensures Threads(AsWritten(loads))
    ensures forall t: Table, b: bool :: Truthy(AsWritten(loads)(t, b).0)
  {
    forall t: Table, b: bool ensures AsWritten(loads)(t, b).1 == (b || AsWritten(loads)(t, false).1) {
      ResolveIvBound(t, loads, b);
    }
  }

  /** The tags the loop of `compute_grouped_metrics` gives the partitions
      `parts` in turn, with `bound` saying whether `json` is bound when it
      starts. */
  function Tags(parts: seq<Table>, resolve: Resolver, bound: bool): (r: seq<Value>)
    ensures |r| == |parts|
    ensures (forall t: Table, b: bool :: Truthy(resolve(t, b).0)) ==> forall i :: 0 <= i < |r| ==> Truthy(r[i])
    ensures |r| > 0 ==> r[0] == resolve(parts[0], bound).0
    decreases |parts|
  {
    if parts == [] then []
    else
      var iv := resolve(parts[0], bound);
      [iv.0] + Tags(parts[1..], resolve, iv.1)
  }

  /** The rows of partitions keyed `ks`, scored `reps` and tagged `tags`. */
  function Rows(ks: seq<Key>, reps: seq<Report>, tags: seq<Value>): (r: seq<GroupRow>)
    requires |ks| == |reps| == |tags|
    ensures |r| == |ks|
    ensures forall i :: 0 <= i < |r| ==> RowOf(r[i], ks[i], reps[i]) && r[i].independentVariable == tags[i]
  {
    seq(|ks|, i requires 0 <= i < |ks| => GroupRow(ks[i], RawColumns(reps[i]), ScoresOf(reps[i]), reps[i].globalScore, tags[i]))
  }

  /** The partitions of the table, one per key. */
  function PartsOf(c: Calculator, ks: seq<Key>): (r: seq<Table>)
    ensures |r| == |ks| && forall i :: 0 <= i < |ks| ==> r[i] == Partition(c.table, ks[i])
  {
    seq(|ks|, i requires 0 <= i < |ks| => Partition(c.table, ks[i]))
  }

  /** The report of every partition of the table. */
  function ReportsOf(c: Calculator, ks: seq<Key>, std: seq<real> -> NonNegReal): (r: seq<Report>)
    requires forall k :: k in ks ==> Ready(c, Partition(c.table, k), std)
    ensures |r| == |ks| && forall i :: 0 <= i < |ks| ==> r[i] == ReportOn(c, Partition(c.table, ks[i]), std)
  {
    assert forall i :: 0 <= i < |ks| ==> ks[i] in ks;
    seq(|ks|, i requires 0 <= i < |ks| => ReportOn(c, Partition(c.table, ks[i]), std))
  }

  /** `compute_grouped_metrics()`: one row per distinct (user, group, session)
      triple of the table, in key order, holding that partition's scores,
      tagged by the loop as written (see `GroupedAgainstCorrected`). */
  function GroupedMetrics(c: Calculator, std: seq<real> -> NonNegReal, loads: string -> Option<Value>): (r: seq<GroupRow>)
    requires forall k :: k in KeySet(c.table.rows) ==> Ready(c, Partition(c.table, k), std)
    ensures |r| == |Keys(c.table.rows)|
    ensures forall i :: 0 <= i < |r| ==> r[i].key == Keys(c.table.rows)[i]
    ensures forall i :: 0 <= i < |r| ==> Truthy(r[i].independentVariable)
  {
    var ks := Keys(c.table.rows);
    AsWrittenThreads(loads);
    Rows(ks, ReportsOf(c, ks, std), Tags(PartsOf(c, ks), AsWritten(loads), false))
  }

  /** `compute_grouped_metrics()` with every partition's tag resolved with
      `json` available. */
  function GroupedMetricsCorrected(c: Calculator, std: seq<real> -> NonNegReal, loads: string -> Option<Value>): (r: seq<GroupRow>)
    requires forall k :: k in KeySet(c.table.rows) ==> Ready(c, Partition(c.table, k), std)
    ensures |r| == |Keys(c.table.rows)|
    ensures forall i :: 0 <= i < |r| ==> r[i].key == Keys(c.table.rows)[i]
    ensures forall i :: 0 <= i < |r| ==>
              r[i].independentVariable == ResolveIv(Partition(c.table, Keys(c.table.rows)[i]), loads)
  {
    var ks := Keys(c.table.rows);
    var parts := PartsOf(c, ks);
    Rows(ks, ReportsOf(c, ks, std), seq(|ks|, i requires 0 <= i < |ks| => ResolveIv(parts[i], loads)))
  }

  /** The rows built from the partitions' reports hold those reports' scores. */
  lemma RowsScored(c: Calculator, ks: seq<Key>, std: seq<real> -> NonNegReal, tags: seq<Value>)
    requires forall k :: k in ks ==> Ready(c, Partition(c.table, k), std)
    requires |tags| == |ks|
    ensures forall i :: 0 <= i < |ks| ==> ScoredAs(Rows(ks, ReportsOf(c, ks, std), tags)[i], c, ks[i], std)
  {
    var r := Rows(ks, ReportsOf(c, ks, std), tags);
    forall i | 0 <= i < |ks| ensures ScoredAs(r[i], c, ks[i], std) {
      assert ks[i] in ks;
      assert RowOf(r[i], ks[i], ReportsOf(c, ks, std)[i]);
    }
  }

  /** Rows of the same reports differ in their tags at most. */
  lemma RowsSameScores(ks: seq<Key>, reps: seq<Report>, tags: seq<Value>, tags': seq<Value>)
    requires |ks| == |reps| == |tags| == |tags'|
    ensures forall i :: 0 <= i < |ks| ==>
              Rows(ks, reps, tags)[i].(independentVariable := Null) == Rows(ks, reps, tags')[i].(independentVariable := Null)
  {
  }

  /** The grouped rows as written, built from the partitions in key order. */
  lemma GroupedIsRows(c: Calculator, std: seq<real> -> NonNegReal, loads: string -> Option<Value>)
    requires forall k :: k in KeySet(c.table.rows) ==> Ready(c, Partition(c.table, k), std)
    ensures var ks := Keys(c.table.rows);
      GroupedMetrics(c, std, loads) == Rows(ks, ReportsOf(c, ks, std), Tags(PartsOf(c, ks), AsWritten(loads), false))
  {
  }

  /** The corrected grouped rows, built from the same partitions. */
  lemma CorrectedIsRows(c: Calculator, std: seq<real> -> NonNegReal, loads: string -> Option<Value>)
    requires forall k :: k in KeySet(c.table.rows) ==> Ready(c, Partition(c.table, k), std)
    ensures var ks := Keys(c.table.rows); var parts := PartsOf(c, ks);
      GroupedMetricsCorrected(c, std, loads)
      == Rows(ks, ReportsOf(c, ks, std), seq(|ks|, i requires 0 <= i < |ks| => ResolveIv(parts[i], loads)))
  {
  }

  /** Row `i` of the grouped metrics holds the raw metric values, the four
      category scores and the global score of the `i`-th partition. */
  lemma GroupedScores(c: Calculator, std: seq<real> -> NonNegReal, loads: string -> Option<Value>)
    requires forall k :: k in KeySet(c.table.rows) ==> Ready(c, Partition(c.table, k), std)
    ensures forall i :: 0 <= i < |GroupedMetrics(c, std, loads)| ==>
              ScoredAs(GroupedMetrics(c, std, loads)[i], c, Keys(c.table.rows)[i], std)
  {
    var ks := Keys(c.table.rows);
    var tags := Tags(PartsOf(c, ks), AsWritten(loads), false);
    GroupedIsRows(c, std, loads);
    RowsScored(c, ks, std, tags);
  }

  /** The same holds for the corrected rows. */
  lemma GroupedCorrectedScores(c: Calculator, std: seq<real> -> NonNegReal, loads: string -> Option<Value>)
    requires forall k :: k in KeySet(c.table.rows) ==> Ready(c, Partition(c.table, k), std)
    ensures forall i :: 0 <= i < |GroupedMetricsCorrected(c, std, loads)| ==>
              ScoredAs(GroupedMetricsCorrected(c, std, loads)[i], c, Keys(c.table.rows)[i], std)
  {
    var ks := Keys(c.table.rows);
    var parts := PartsOf(c, ks);
    var tags := seq(|ks|, i requires 0 <= i < |ks| => ResolveIv(parts[i], loads));
    CorrectedIsRows(c, std, loads);
    RowsScored(c, ks, std, tags);
  }

  /** As written and corrected, the rows differ in their tags at most. */
  lemma GroupedSameScores(c: Calculator, std: seq<real> -> NonNegReal, loads: string -> Option<Value>)
    requires forall k :: k in KeySet(c.table.rows) ==> Ready(c, Partition(c.table, k), std)
    ensures |GroupedMetrics(c, std, loads)| == |GroupedMetricsCorrected(c, std, loads)|
    ensures forall i :: 0 <= i < |GroupedMetrics(c, std, loads)| ==>
              GroupedMetrics(c, std, loads)[i].(independentVariable := Null)
              == GroupedMetricsCorrected(c, std, loads)[i].(independentVariable := Null)
  {
    var ks := Keys(c.table.rows);
    var parts := PartsOf(c, ks);
    var reps := ReportsOf(c, ks, std);
    var tags := Tags(parts, AsWritten(loads), false);
    var tags' := seq(|ks|, i requires 0 <= i < |ks| => ResolveIv(parts[i], loads));
    assert |ks| == |reps| == |tags| == |tags'|;
    RowsSameScores(ks, reps, tags, tags');
    GroupedIsRows(c, std, loads);
    CorrectedIsRows(c, std, loads);
  }

  /** Some partition before position `i` binds `json`. */
  ghost predicate BoundBefore(parts: seq<Table>, i: int, resolve: Resolver) {
    exists j :: 0 <= j < i && j < |parts| && resolve(parts[j], false).1
  }

  lemma BoundBeforeStep(parts: seq<Table>, i: int, resolve: Resolver)
    requires 0 < i <= |parts|
    ensures BoundBefore(parts, i, resolve) <==> resolve(parts[0], false).1 || BoundBefore(parts[1..], i - 1, resolve)
  {
    if BoundBefore(parts, i, resolve) {
      var j :| 0 <= j < i && j < |parts| && resolve(parts[j], false).1;
      if j > 0 {
        assert parts[1..][j - 1] == parts[j];
      }
    }
    if BoundBefore(parts[1..], i - 1, resolve) {
      var j :| 0 <= j < i - 1 && j < |parts[1..]| && resolve(parts[1..][j], false).1;
      assert parts[1..][j] == parts[j + 1];
    }
  }

  /** Partition `i` is resolved with `json` bound exactly when it was bound
      at the start or an earlier partition bound it. */
  lemma {:induction false} TagsBound(parts: seq<Table>, resolve: Resolver, bound: bool)
    requires Threads(resolve)
    ensures forall i :: 0 <= i < |parts| ==>
              Tags(parts, resolve, bound)[i] == resolve(parts[i], bound || BoundBefore(parts, i, resolve)).0
    decreases |parts|
  {
    if parts != [] {
      var r := Tags(parts, resolve, bound);
      var b1 := resolve(parts[0], bound).1;
      var rest := Tags(parts[1..], resolve, b1);
      assert forall i :: 1 <= i < |r| ==> r[i] == rest[i - 1];
      TagsBound(parts[1..], resolve, b1);
      forall i | 0 <= i < |parts|
        ensures r[i] == resolve(parts[i], bound || BoundBefore(parts, i, resolve)).0
      {
        if i > 0 {
          assert parts[1..][i - 1] == parts[i];
          BoundBeforeStep(parts, i, resolve);
        } else {
          assert !BoundBefore(parts, 0, resolve);
        }
      }
    }
  }

  /** As written, partition `i` is tagged as if `json` were bound only when
      an earlier partition bound it; from then on the tag is the corrected
      one. */
  lemma GroupedAgainstCorrected(c: Calculator, std: seq<real> -> NonNegReal, loads: string -> Option<Value>)
    requires forall k :: k in KeySet(c.table.rows) ==> Ready(c, Partition(c.table, k), std)
    ensures forall i :: 0 <= i < |GroupedMetrics(c, std, loads)| ==>
              GroupedMetrics(c, std, loads)[i].independentVariable
              == ResolveIvAsWritten(Partition(c.table, Keys(c.table.rows)[i]), loads,
                                    BoundBefore(PartsOf(c, Keys(c.table.rows)), i, AsWritten(loads))).0
    ensures forall i :: 0 <= i < |GroupedMetrics(c, std, loads)| && BoundBefore(PartsOf(c, Keys(c.table.rows)), i, AsWritten(loads)) ==>
              GroupedMetrics(c, std, loads)[i].independentVariable == GroupedMetricsCorrected(c, std, loads)[i].independentVariable
  {
    var ks := Keys(c.table.rows);
    var parts := PartsOf(c, ks);
    var g := GroupedMetrics(c, std, loads);
    var h := GroupedMetricsCorrected(c, std, loads);
    GroupedIsRows(c, std, loads);
    AsWrittenThreads(loads);
    TagsBound(parts, AsWritten(loads), false);
    forall i | 0 <= i < |g| && BoundBefore(parts, i, AsWritten(loads))
      ensures g[i].independentVariable == h[i].independentVariable
    {
      ResolveIvBound(parts[i], loads, true);
      AsWrittenOnceBound(parts[i], loads, true);
    }
  }

  /** The calculator of a single-partition session whose one
      `session_start` carries its tag in a JSON-string context, with no
      metric blocks or profiles configured. */
  function StringContextCalculator(json: string): Calculator {
    Calculator(StringContextTable(json), map[], map[], DefaultUserProfile)
  }

  /** As written, `compute_grouped_metrics` tags the first partition "N/A"
      although its context names "A"; corrected, the row is tagged "A". */
  lemma GroupedStringContextIgnored(json: string, loads: string -> Option<Value>, std: seq<real> -> NonNegReal)
    requires json != [] && loads(json) == Some(Dict([(IvColumn, Str("A"))]))
    ensures var c := StringContextCalculator(json);
      && (forall k :: k in KeySet(c.table.rows) ==> Ready(c, Partition(c.table, k), std))
      && |GroupedMetrics(c, std, loads)| == 1
      && GroupedMetrics(c, std, loads)[0].independentVariable == Str(NotAvailable)
      && GroupedMetricsCorrected(c, std, loads)[0].independentVariable == Str("A")
  {
    var c := StringContextCalculator(json);
    var t := c.table;
    var e := t.rows[0];
    assert Keys(t.rows) == [KeyOf(e)] by {
      assert t.rows[1..] == [];
    }
    assert Partition(t, KeyOf(e)) == t by {
      assert Filter(t.rows, InPartition(KeyOf(e))) == t.rows;
    }
    forall k | k in KeySet(t.rows) ensures Ready(c, Partition(t, k), std) {
      EmptyConfigScoresZero(c, Partition(t, k), std);
    }
    GroupedAgainstCorrected(c, std, loads);
    assert !BoundBefore(PartsOf(c, Keys(t.rows)), 0, AsWritten(loads));
    StringContextIgnored(json, loads);
  }

  /** Every triple of the table has exactly one row, and every row's
      partition is non-empty. */
  lemma OneRowPerTriple(c: Calculator, std: seq<real> -> NonNegReal, loads: string -> Option<Value>)
    requires forall k :: k in KeySet(c.table.rows) ==> Ready(c, Partition(c.table, k), std)
    ensures forall e :: e in c.table.rows ==> exists i :: 0 <= i < |GroupedMetrics(c, std, loads)|
                                                 && GroupedMetrics(c, std, loads)[i].key == KeyOf(e)
    ensures forall i, j :: 0 <= i < j < |GroupedMetrics(c, std, loads)| ==>
              GroupedMetrics(c, std, loads)[i].key != GroupedMetrics(c, std, loads)[j].key
    ensures forall i :: 0 <= i < |GroupedMetrics(c, std, loads)| ==>
              Partition(c.table, GroupedMetrics(c, std, loads)[i].key).rows != []
  {
    RowsPerTriple(c.table, GroupedMetrics(c, std, loads));
  }

  /** Rows keyed by the partition keys in order cover every triple once. */
  lemma RowsPerTriple(t: Table, r: seq<GroupRow>)
    requires |r| == |Keys(t.rows)| && forall i :: 0 <= i < |r| ==> r[i].key == Keys(t.rows)[i]
    ensures forall e :: e in t.rows ==> exists i :: 0 <= i < |r| && r[i].key == KeyOf(e)
    ensures forall i, j :: 0 <= i < j < |r| ==> r[i].key != r[j].key
    ensures forall i :: 0 <= i < |r| ==> Partition(t, r[i].key).rows != []
  {
    var ks := Keys(t.rows);
    KeysDistinct(t.rows);
    KeysCover(t);
    forall e | e in t.rows
      ensures exists i :: 0 <= i < |r| && r[i].key == KeyOf(e)
    {
      var i :| 0 <= i < |ks| && ks[i] == KeyOf(e);
      assert r[i].key == KeyOf(e);
    }
  }

  /** Every row's triple is a key, and every key's partition is non-empty. */
  lemma KeysCover(t: Table)
    ensures forall e :: e in t.rows ==> KeyOf(e) in Keys(t.rows)
    ensures forall i :: 0 <= i < |Keys(t.rows)| ==> Partition(t, Keys(t.rows)[i]).rows != []
  {
    var ks := Keys(t.rows);
    forall i | 0 <= i < |ks| ensures Partition(t, ks[i]).rows != [] {
      assert ks[i] in KeySet(t.rows);
      var e :| e in t.rows && KeyOf(e) == ks[i];
      assert e in Partition(t, ks[i]).rows;
    }
  }
}
