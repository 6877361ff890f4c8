/** `ConfigSystem`: the sections of a loaded configuration document and the
    lookups with defaults over them. */
module ConfigSystem {
  import opened Wrappers
  import opened Values

  /** A loaded configuration: the whole document and its three sections. */
  datatype ConfigSystem = ConfigSystem(
    data: seq<(string, Value)>,
    eventRoles: Value,
    metrics: Value,
    customEvents: Value)

  const EventRolesKey := "event_roles"
  const MetricsKey := "metrics"
  const CustomEventsKey := "custom_events"
  const OtherRole := "other"
  const CustomEventType := "custom_event"

  /** The constructor after `json.load`: a missing section is `{}`. */
  function New(data: seq<(string, Value)>): (c: ConfigSystem)
    ensures c.data == data
    ensures HasKey(data, EventRolesKey) ==> Some(c.eventRoles) == Lookup(data, EventRolesKey)
    ensures !HasKey(data, EventRolesKey) ==> c.eventRoles == Dict([])
    ensures HasKey(data, MetricsKey) ==> Some(c.metrics) == Lookup(data, MetricsKey)
    ensures !HasKey(data, MetricsKey) ==> c.metrics == Dict([])
    ensures HasKey(data, CustomEventsKey) ==> Some(c.customEvents) == Lookup(data, CustomEventsKey)
    ensures !HasKey(data, CustomEventsKey) ==> c.customEvents == Dict([])
  {
    ConfigSystem(data, LookupOr(data, EventRolesKey, Dict([])), LookupOr(data, MetricsKey, Dict([])),
                 LookupOr(data, CustomEventsKey, Dict([])))
  }

  /** `section.get(key, default)`; `.get` on a section that is not a dict raises. */
  function GetOr(section: Value, key: string, default: Value): (r: Result<Value>)
    ensures r.Success? <==> section.Dict?
    ensures section.Dict? && HasKey(section.entries, key) ==> Some(r.value) == Lookup(section.entries, key)
    ensures section.Dict? && !HasKey(section.entries, key) ==> r.value == default
  {
    if section.Dict? then Success(LookupOr(section.entries, key, default)) else Failure("section is not a dict")
  }

  /** `get_event_role(name)`: the configured role, or `"other"`. */
  function GetEventRole(c: ConfigSystem, name: string): (r: Result<Value>)
    ensures r.Success? <==> c.eventRoles.Dict?
    ensures c.eventRoles.Dict? && HasKey(c.eventRoles.entries, name) ==> Some(r.value) == Lookup(c.eventRoles.entries, name)
    ensures c.eventRoles.Dict? && !HasKey(c.eventRoles.entries, name) ==> r.value == Str(OtherRole)
  {
    GetOr(c.eventRoles, name, Str(OtherRole))
  }

  /** `get_metric_config(category)`: the category block, or `{}`. */
  function GetMetricConfig(c: ConfigSystem, category: string): (r: Result<Value>)
    ensures r.Success? <==> c.metrics.Dict?
    ensures c.metrics.Dict? && HasKey(c.metrics.entries, category) ==> Some(r.value) == Lookup(c.metrics.entries, category)
    ensures c.metrics.Dict? && !HasKey(c.metrics.entries, category) ==> r.value == Dict([])
  {
    GetOr(c.metrics, category, Dict([]))
  }

  /** `get_all_metric_configs()`: the whole `metrics` section, from which every
      category block is read. */
  function GetAllMetricConfigs(c: ConfigSystem): (r: Value)
    ensures forall category :: GetMetricConfig(c, category) == GetOr(r, category, Dict([]))
  {
    c.metrics
  }

  /** `get_custom_event_type(name)`: the configured type, or `"custom_event"`. */
  function GetCustomEventType(c: ConfigSystem, name: string): (r: Result<Value>)
    ensures r.Success? <==> c.customEvents.Dict?
    ensures c.customEvents.Dict? && HasKey(c.customEvents.entries, name) ==> Some(r.value) == Lookup(c.customEvents.entries, name)
    ensures c.customEvents.Dict? && !HasKey(c.customEvents.entries, name) ==> r.value == Str(CustomEventType)
  {
    GetOr(c.customEvents, name, Str(CustomEventType))
  }

  /** `get_version_info()`: the three metadata fields, each with its default. */
  function GetVersionInfo(c: ConfigSystem): (r: seq<(string, Value)>)
    ensures |r| == 3 && r[0].0 == "version" && r[1].0 == "description" && r[2].0 == "last_updated"
    ensures !HasKey(c.data, "version") ==> r[0].1 == Str("unknown")
    ensures !HasKey(c.data, "description") ==> r[1].1 == Str("")
    ensures !HasKey(c.data, "last_updated") ==> r[2].1 == Str("")
    ensures HasKey(c.data, "version") ==> Some(r[0].1) == Lookup(c.data, "version")
    ensures HasKey(c.data, "description") ==> Some(r[1].1) == Lookup(c.data, "description")
    ensures HasKey(c.data, "last_updated") ==> Some(r[2].1) == Lookup(c.data, "last_updated")
  {
    [("version", LookupOr(c.data, "version", Str("unknown"))),
     ("description", LookupOr(c.data, "description", Str(""))),
     ("last_updated", LookupOr(c.data, "last_updated", Str("")))]
  }

  /** A role declared in the `event_roles` section is what the lookup returns. */
  lemma DeclaredRole(roles: seq<(string, Value)>, rest: seq<(string, Value)>, name: string, role: Value)
    requires Lookup(roles, name) == Some(role)
    ensures GetEventRole(New([(EventRolesKey, Dict(roles))] + rest), name) == Success(role)
  {
    var data := [(EventRolesKey, Dict(roles))] + rest;
    assert data[0].0 == EventRolesKey;
  }

  /** A document without sections answers every lookup with its default. */
  lemma MissingSectionsDefault(data: seq<(string, Value)>, name: string)
    requires !HasKey(data, EventRolesKey) && !HasKey(data, MetricsKey) && !HasKey(data, CustomEventsKey)
    ensures GetEventRole(New(data), name) == Success(Str(OtherRole))
    ensures GetMetricConfig(New(data), name) == Success(Dict([]))
    ensures GetCustomEventType(New(data), name) == Success(Str(CustomEventType))
    ensures GetAllMetricConfigs(New(data)) == Dict([])
  {
  }

  /** Read back from the document: a lookup fails exactly when its section is
      present but not a dict; a present dict section answers with the
      configured value or the default; an absent section answers with the
      default. */
  lemma {:induction false} DocumentLookups(data: seq<(string, Value)>, name: string)
    ensures var v := Lookup(data, EventRolesKey);
      && (GetEventRole(New(data), name).Failure? <==> v.Some? && !v.value.Dict?)
      && (v.None? ==> GetEventRole(New(data), name) == Success(Str(OtherRole)))
      && (v.Some? && v.value.Dict? && HasKey(v.value.entries, name) ==>
            Some(GetEventRole(New(data), name).value) == Lookup(v.value.entries, name))
    ensures var v := Lookup(data, MetricsKey);
      && (GetMetricConfig(New(data), name).Failure? <==> v.Some? && !v.value.Dict?)
      && (v.None? ==> GetMetricConfig(New(data), name) == Success(Dict([])))
      && (v.Some? && v.value.Dict? && HasKey(v.value.entries, name) ==>
            Some(GetMetricConfig(New(data), name).value) == Lookup(v.value.entries, name))
    ensures var v := Lookup(data, CustomEventsKey);
      && (GetCustomEventType(New(data), name).Failure? <==> v.Some? && !v.value.Dict?)
      && (v.None? ==> GetCustomEventType(New(data), name) == Success(Str(CustomEventType)))
      && (v.Some? && v.value.Dict? && HasKey(v.value.entries, name) ==>
            Some(GetCustomEventType(New(data), name).value) == Lookup(v.value.entries, name))
  {
  }
}
