/** `ParticipantFlowController`: participants take turns in the configured
    order; a turn ends when its time is up or when it is forced to end.
    The controller's fields are one state value, `Time.time` is passed in
    as `now`, and the calls into the session manager, the tracking manager
    and the config logger are recorded in a trace. */
module ParticipantFlow {

  /** The engine calls the controller makes. */
  datatype Call =
    | SendConfigAsLog
    | StartSessionForUser(user: string, group: string)
    | BeginTrackingForUser
    | EndTracking
    | EndSession

  datatype Flow = Flow(
    order: seq<string>,
    groupId: string,
    currentIndex: int,
    turnDurationSeconds: real,
    turnStartTime: real,
    turnActive: bool,
    trace: seq<Call>)

  const DefaultTurnDuration: real := 60.0

  /** The field initialisers, before `Start` runs. */
  const Initial := Flow([], [], 0, DefaultTurnDuration, 0.0, false, [])

  /** The users whose session was started, in trace order. */
  function Started(trace: seq<Call>): seq<string> {
    if trace == [] then []
    else
      var rest := Started(trace[..|trace| - 1]);
      var c := trace[|trace| - 1];
      if c.StartSessionForUser? then rest + [c.user] else rest
  }

  lemma StartedAppend(trace: seq<Call>, more: seq<Call>)
    requires forall i :: 0 <= i < |more| ==> !more[i].StartSessionForUser?
    ensures Started(trace + more) == Started(trace)
    decreases |more|
  {
    if more != [] {
      var all := trace + more;
      assert all[..|all| - 1] == trace + more[..|more| - 1];
      assert all[|all| - 1] == more[|more| - 1];
      StartedAppend(trace, more[..|more| - 1]);
    } else {
      assert trace + more == trace;
    }
  }

  /** `BeginParticipant()`: past the end of the order it only clears
      `turnActive`; otherwise it starts the current participant's session
      and tracking and the turn timer. */
  function Begin(f: Flow, now: real): (r: Flow)
    requires f.currentIndex >= 0
    ensures f.currentIndex >= |f.order| ==> r == f.(turnActive := false)
    ensures f.currentIndex < |f.order| ==>
              r.turnActive && r.turnStartTime == now && r.currentIndex == f.currentIndex
              && r.trace == f.trace + [StartSessionForUser(f.order[f.currentIndex], f.groupId), BeginTrackingForUser]
    ensures r.order == f.order && r.groupId == f.groupId && r.turnDurationSeconds == f.turnDurationSeconds
  {
    if f.currentIndex >= |f.order| then f.(turnActive := false)
    else
      f.(trace := f.trace + [StartSessionForUser(f.order[f.currentIndex], f.groupId), BeginTrackingForUser],
         turnStartTime := now, turnActive := true)
  }

  /** `NextParticipant()`: without an active turn nothing happens; otherwise
      the turn ends, the index moves on by one and the next participant
      begins if there is one. */
  function Next(f: Flow, now: real): (r: Flow)
    requires f.currentIndex >= 0
    ensures !f.turnActive ==> r == f
    ensures f.turnActive ==> r.currentIndex == f.currentIndex + 1
    ensures f.turnActive ==> (r.turnActive <==> f.currentIndex + 1 < |f.order|)
    ensures f.turnActive ==> |r.trace| >= |f.trace| + 2 && r.trace[..|f.trace| + 2] == f.trace + [EndTracking, EndSession]
    ensures r.order == f.order && r.groupId == f.groupId && r.turnDurationSeconds == f.turnDurationSeconds
  {
    if !f.turnActive then f
    else
      var ended := f.(trace := f.trace + [EndTracking, EndSession], turnActive := false, currentIndex := f.currentIndex + 1);
      if ended.currentIndex < |f.order| then
        var r := Begin(ended, now);
        assert r.trace[..|f.trace| + 2] == ended.trace;
        r
      else ended
  }

  /** `Update()`: the turn changes once its time is up. */
  function Update(f: Flow, now: real): (r: Flow)
    requires f.currentIndex >= 0
    ensures r != f ==> f.turnActive && now >= f.turnStartTime + f.turnDurationSeconds
    ensures f.turnActive && now >= f.turnStartTime + f.turnDurationSeconds ==> r == Next(f, now)
  {
    if f.turnActive && now >= f.turnStartTime + f.turnDurationSeconds then Next(f, now) else f
  }

  /** `ForceNextParticipant()`, the game master's override. */
  function ForceNext(f: Flow, now: real): (r: Flow)
    requires f.currentIndex >= 0
  {
    Next(f, now)
  }

  /** `Start()`: read the order, the group and the turn duration (kept at
      its default unless the configured one is positive), log the
      configuration twice, then begin the first participant. */
  function Start(order: seq<string>, group: string, configuredDuration: real, now: real): (r: Flow)
    ensures r.order == order && r.groupId == group
    ensures configuredDuration > 0.0 ==> r.turnDurationSeconds == configuredDuration
    ensures configuredDuration <= 0.0 ==> r.turnDurationSeconds == DefaultTurnDuration
    ensures r.turnActive <==> order != []
    ensures r.currentIndex == 0
    ensures |r.trace| >= 2 && r.trace[..2] == [SendConfigAsLog, SendConfigAsLog]
  {
    var duration := if configuredDuration > 0.0 then configuredDuration else Initial.turnDurationSeconds;
    var f := Initial.(order := order, groupId := group, turnDurationSeconds := duration,
                      trace := [SendConfigAsLog, SendConfigAsLog]);
    var r := Begin(f, now);
    assert r.trace[..2] == f.trace;
    r
  }

  /** The controller's invariant: the index stays within the order, an
      active turn belongs to an existing participant, and the sessions
      started so far are exactly the participants up to the current one,
      in order. */
  predicate Valid(f: Flow) {
    && 0 <= f.currentIndex <= |f.order|
    && (f.turnActive ==> f.currentIndex < |f.order|)
    && Started(f.trace) == f.order[..f.currentIndex + (if f.turnActive then 1 else 0)]
  }

  lemma BeginValid(f: Flow, now: real)
    requires 0 <= f.currentIndex <= |f.order| && !f.turnActive
    requires Started(f.trace) == f.order[..f.currentIndex]
    ensures Valid(Begin(f, now))
  {
    if f.currentIndex < |f.order| {
      var t := f.trace + [StartSessionForUser(f.order[f.currentIndex], f.groupId)];
      assert t[..|t| - 1] == f.trace;
      assert Started(t) == f.order[..f.currentIndex + 1];
      assert t + [BeginTrackingForUser] == Begin(f, now).trace;
      StartedAppend(t, [BeginTrackingForUser]);
    }
  }

  lemma StartValid(order: seq<string>, group: string, configuredDuration: real, now: real)
    ensures Valid(Start(order, group, configuredDuration, now))
  {
    var t: seq<Call> := [SendConfigAsLog, SendConfigAsLog];
    StartedAppend([], t);
    assert [] + t == t;
    var duration := if configuredDuration > 0.0 then configuredDuration else Initial.turnDurationSeconds;
    BeginValid(Initial.(order := order, groupId := group, turnDurationSeconds := duration, trace := t), now);
  }

  /** A turn change keeps the invariant and never moves the index back. */
  lemma NextValid(f: Flow, now: real)
    requires Valid(f)
    ensures Valid(Next(f, now))
    ensures f.currentIndex <= Next(f, now).currentIndex <= f.currentIndex + 1
  {
    if f.turnActive {
      var ended := f.(trace := f.trace + [EndTracking, EndSession], turnActive := false, currentIndex := f.currentIndex + 1);
      StartedAppend(f.trace, [EndTracking, EndSession]);
      BeginValid(ended, now);
    }
  }

  /** What happens to the controller between two observations. */
  datatype Step = Frame(now: real) | Force(now: real)

  function Apply(f: Flow, s: Step): Flow
    requires f.currentIndex >= 0
  {
    match s
    case Frame(now) => Update(f, now)
    case Force(now) => ForceNext(f, now)
  }

  /** Any sequence of frames and overrides. */
  function Run(f: Flow, steps: seq<Step>): (r: Flow)
    requires f.currentIndex >= 0
    ensures r.currentIndex >= f.currentIndex
    decreases |steps|
  {
    if steps == [] then f
    else
      var g := Apply(f, steps[0]);
      Run(g, steps[1..])
  }

  /** Every run from a valid state keeps the invariant, keeps the index
      from decreasing and only extends the list of started participants. */
  lemma {:induction false} RunValid(f: Flow, steps: seq<Step>)
    requires Valid(f)
    ensures Valid(Run(f, steps))
    ensures f.currentIndex <= Run(f, steps).currentIndex
    ensures Run(f, steps).order == f.order
    decreases |steps|
  {
    if steps != [] {
      var now := steps[0].now;
      NextValid(f, now);
      RunValid(Apply(f, steps[0]), steps[1..]);
    }
  }

  /** Forcing `k` turn changes from a valid state moves `k` participants on
      while turns remain. */
  function ForceTimes(f: Flow, k: nat, now: real): Flow
    requires f.currentIndex >= 0
    decreases k
  {
    if k == 0 then f else ForceTimes(ForceNext(f, now), k - 1, now)
  }

  lemma {:induction false} ForceTimesProgress(f: Flow, k: nat, now: real)
    requires Valid(f) && f.turnActive && f.currentIndex + k <= |f.order|
    ensures Valid(ForceTimes(f, k, now))
    ensures ForceTimes(f, k, now).currentIndex == f.currentIndex + k
    ensures ForceTimes(f, k, now).turnActive <==> f.currentIndex + k < |f.order|
    decreases k
  {
    if k > 0 {
      NextValid(f, now);
      var g := ForceNext(f, now);
      if k > 1 {
        ForceTimesProgress(g, k - 1, now);
      }
    }
  }

  lemma {:induction false} ForceTimesOrder(f: Flow, k: nat, now: real)
    requires f.currentIndex >= 0
    ensures ForceTimes(f, k, now).order == f.order
    decreases k
  {
    if k > 0 {
      ForceTimesOrder(ForceNext(f, now), k - 1, now);
    }
  }

  /** Forcing the turn along once per participant visits everyone, in the
      configured order, each exactly once, and then the experiment is over. */
  lemma EveryoneTakesATurn(order: seq<string>, group: string, configuredDuration: real, now: real)
    requires order != []
    ensures var f := ForceTimes(Start(order, group, configuredDuration, now), |order|, now);
      && !f.turnActive && f.currentIndex == |order| && Started(f.trace) == order
  {
    var s := Start(order, group, configuredDuration, now);
    StartValid(order, group, configuredDuration, now);
    ForceTimesProgress(s, |order|, now);
    var f := ForceTimes(s, |order|, now);
    assert f.order == order by { ForceTimesOrder(s, |order|, now); }
    assert order[..|order|] == order;
  }
}
