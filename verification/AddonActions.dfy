/** Load and unload commands and their confirmation: addon/vanahub/versions/0.1.0/main.lua
    lines 225 to 259. */
module AddonActions {
  import opened Wrappers

  const TIMEOUT := 5000

  /** The command in flight, `state.addon_action`. */
  datatype Action = Action(packageId: string, enabled: bool, since: int, startup: bool)

  /** What Ashita answers when asked whether an addon is loaded; it may have no answer. */
  type Answers = map<string, bool>

  datatype Progress = InFlight | Confirmed | TimedOut

  predicate IsLoaded(answers: Answers, id: string) { id in answers && answers[id] }

  predicate Seen(action: Action, answers: Answers) {
    action.packageId in answers && answers[action.packageId] == action.enabled
  }

  predicate Over(action: Action, answers: Answers, now: int) {
    Seen(action, answers) || now - action.since >= TIMEOUT
  }

  /** `tick_addon_action`: a command is over when its effect is seen or after five seconds. */
  method TickAction(action: Option<Action>, answers: Answers, now: int)
    returns (next: Option<Action>, progress: Progress)
    ensures next == if action.Some? && Over(action.value, answers, now) then None else action
    ensures progress.Confirmed? <==> action.Some? && Seen(action.value, answers)
    ensures progress.InFlight? <==> next == action
    ensures action.None? ==> next.None?
    ensures action.Some? ==>
              var id := action.value.packageId;
              && (next.None? <==> || (id in answers && answers[id] == action.value.enabled)
                                  || now - action.value.since >= 5000)
              && (next.Some? ==> next == action)
  {
    if action.None? { return None, InFlight; }
    var a := action.value;
    if a.packageId in answers && answers[a.packageId] == a.enabled { return None, Confirmed; }
    if now - a.since >= TIMEOUT { return None, TimedOut; }
    return action, InFlight;
  }
}
