/** The default event-name to semantic-role table (`EVENT_ROLE_MAP`). */
module EventRoles {
  import opened Events

  const SessionEnd := "session_end"
  const NavigationError := "navigation_error"
  const InterfaceError := "interface_error"

  const EventRoleMap: map<string, string> := map[
    "target_hit" := ActionSuccess,
    "target_miss" := ActionFail,
    "goal_reached" := ActionSuccess,
    "fall_detected" := ActionFail,
    "object_placed_correctly" := ActionSuccess,
    "object_dropped" := ActionFail,
    "task_start" := TaskStart,
    "task_end" := TaskEnd,
    "task_restart" := TaskRestart,
    "session_start" := SessionStart,
    "session_end" := SessionEnd,
    "collision" := NavigationError,
    "navigation_error" := NavigationError,
    "controller_error" := InterfaceError,
    "wrong_button" := InterfaceError,
    "help_requested" := HelpEvent,
    "guide_used" := HelpEvent,
    "hint_used" := HelpEvent]

  /** The names of the event table that carry `role`. */
  function NamesWithRole(role: string): (r: set<string>)
    ensures forall n :: n in r <==> n in EventRoleMap && EventRoleMap[n] == role
  {
    set n | n in EventRoleMap && EventRoleMap[n] == role
  }

  /** Hits, reached goals and correct placements are successes. */
  lemma SuccessNames()
    ensures NamesWithRole(ActionSuccess) == {"target_hit", "goal_reached", "object_placed_correctly"}
  {
  }

  /** Misses, falls and drops are fails. */
  lemma FailNames()
    ensures NamesWithRole(ActionFail) == {"target_miss", "fall_detected", "object_dropped"}
  {
  }

  /** The task and session control events are their own role. */
  lemma ControlEventsAreThemselves()
    ensures forall n :: n in [TaskStart, TaskEnd, TaskRestart, SessionStart, SessionEnd] ==> n in EventRoleMap && EventRoleMap[n] == n
  {
  }

  lemma ErrorNames()
    ensures NamesWithRole(NavigationError) == {"collision", "navigation_error"}
    ensures NamesWithRole(InterfaceError) == {"controller_error", "wrong_button"}
  {
  }

  lemma HelpNames()
    ensures NamesWithRole(HelpEvent) == {"help_requested", "guide_used", "hint_used"}
  {
  }
}
