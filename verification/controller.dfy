/**
 * The workout session controller: the page-level variables `selectedExercise`,
 * `workoutRunning` and `statusCheckInterval`, the enabled state of the start
 * and stop buttons, the `selected` mark on the exercise options, and the
 * three display labels, with one pure transition per event handler.
 */
module Controller {
  import opened Optional
  import opened Text
  import opened Display

  /** The decoded body of a start or stop reply: only `success` is read. */
  datatype ActionReply = ActionReply(success: bool)

  /** The decoded body of a status reply. */
  datatype StatusReply = StatusReply(
    exerciseRunning: bool,
    currentSet: Field,
    totalSets: Field,
    currentReps: Field,
    repGoal: Field)

  /**
   * What a request to the backend came to, with the HTTP details abstracted
   * away: the fetch rejected, the status was not OK, the content type was not
   * JSON, the JSON body did not parse, or a decoded payload.
   */
  datatype Response<+P> =
    | NetworkFailure
    | HttpError(status: nat)
    | NotJson
    | MalformedJson
    | Json(payload: P)

  /** The body of a start request. */
  datatype StartRequest = StartRequest(exerciseType: string, sets: nat, reps: nat)

  /** Why the start button refused to send a request. */
  datatype Rejection = NoExercise | InvalidNumbers

  datatype Controller = Controller(
    options: seq<Option<string>>,   // the `data-exercise` attribute of each option
    marked: set<nat>,               // indices of options carrying the `selected` class
    selected: Option<string>,       // selectedExercise
    running: bool,                  // workoutRunning
    pollActive: bool,               // statusCheckInterval != null
    leakedTimers: nat,              // intervals still firing whose handle was overwritten
    startEnabled: bool,
    stopEnabled: bool,
    exerciseLabel: string,
    setLabel: string,
    repsLabel: string)

  /** A reply that reports `success`; every other outcome is a failure. */
  predicate Accepted(o: Response<ActionReply>) {
    o.Json? && o.payload.success
  }

  /** JavaScript truthiness of `selectedExercise`: neither null nor empty. */
  predicate IsTruthy(s: Option<string>) {
    s.Some? && s.value != ""
  }

  /** A parsed count (None for NaN) that is a number no smaller than 1. */
  predicate ValidCount(n: Option<int>) {
    n.Some? && n.value >= 1
  }

  /** The controls and labels of the standby display. */
  predicate IsStandby(c: Controller) {
    && !c.running && !c.pollActive
    && c.startEnabled && !c.stopEnabled
    && c.exerciseLabel == StandbyLabel
    && c.setLabel == ZeroCounter && c.repsLabel == ZeroCounter
  }

  /** Running, poll handle, start-disabled and stop-enabled move together. */
  predicate ControlsAgree(c: Controller) {
    && c.pollActive == c.running
    && c.startEnabled == !c.running
    && c.stopEnabled == c.running
  }

  /** At most one option is marked, and the marked one is the selection. */
  predicate SelectionConsistent(c: Controller) {
    || (c.marked == {} && c.selected == None)
    || (exists i: nat | i < |c.options| :: c.marked == {i} && c.selected == c.options[i])
  }

  /** The controller invariant: no timer fires without a handle to clear it. */
  predicate Inv(c: Controller) {
    ControlsAgree(c) && c.leakedTimers == 0 && SelectionConsistent(c)
  }

  /** Two states agree on everything the selection handler touches. */
  predicate SameSelection(c: Controller, d: Controller) {
    d.options == c.options && d.marked == c.marked && d.selected == c.selected
  }

  /** Two states agree on the session flags, the timers, the controls and the exercise label. */
  predicate SameSession(c: Controller, d: Controller) {
    && d.running == c.running && d.pollActive == c.pollActive
    && d.leakedTimers == c.leakedTimers
    && d.startEnabled == c.startEnabled && d.stopEnabled == c.stopEnabled
    && d.exerciseLabel == c.exerciseLabel
  }

  /** Two states agree on everything except the set and repetition counters. */
  predicate SameExceptCounters(c: Controller, d: Controller) {
    SameSelection(c, d) && SameSession(c, d)
  }

  /** The page as loaded: nothing selected, standby display, no timer. */
  function Init(options: seq<Option<string>>): (c: Controller)
    ensures IsStandby(c) && Inv(c)
    ensures c.options == options && c.selected == None && c.marked == {}
  {
    Controller(options, {}, None, false, false, 0, true, false,
               StandbyLabel, ZeroCounter, ZeroCounter)
  }

  /** Click on option `i`: it alone is marked and becomes the selection. */
  function Select(c: Controller, i: nat): (r: Controller)
    requires i < |c.options|
    ensures r.marked == {i}
    ensures r.selected == c.options[i]
    ensures r.options == c.options && SameSession(c, r)
    ensures r.setLabel == c.setLabel && r.repsLabel == c.repsLabel
    ensures Inv(c) ==> Inv(r)
  {
    c.(marked := {i}, selected := c.options[i])
  }

  /** The client-side guard the start button applies before any request. */
  function ValidateStart(selected: Option<string>, sets: Option<int>, reps: Option<int>)
    : (r: Result<StartRequest, Rejection>)
    ensures r == Failure(NoExercise) <==> !IsTruthy(selected)
    ensures r == Failure(InvalidNumbers) <==>
              IsTruthy(selected) && !(ValidCount(sets) && ValidCount(reps))
    ensures r.Success? <==> IsTruthy(selected) && ValidCount(sets) && ValidCount(reps)
    ensures r.Success? ==>
              && r.value.exerciseType == selected.value
              && r.value.sets == sets.value && r.value.reps == reps.value
  {
    if !IsTruthy(selected) then Failure(NoExercise)
    else if sets.None? || sets.value < 1 || reps.None? || reps.value < 1 then Failure(InvalidNumbers)
    else Success(StartRequest(selected.value, sets.value, reps.value))
  }

  /** Back to standby; the selection is kept. */
  function Reset(c: Controller): (r: Controller)
    ensures IsStandby(r)
    ensures SameSelection(c, r)
    ensures r.leakedTimers == c.leakedTimers
    ensures SelectionConsistent(c) && c.leakedTimers == 0 ==> Inv(r)
  {
    c.(running := false, startEnabled := true, stopEnabled := false,
       pollActive := false,
       exerciseLabel := StandbyLabel, setLabel := ZeroCounter, repsLabel := ZeroCounter)
  }

  /** The result of a click on the start button. */
  datatype StartStep = StartStep(next: Controller, request: Option<StartRequest>)

  /** The running display for an accepted start request. */
  predicate RunningFor(c: Controller, req: StartRequest) {
    && c.running && c.pollActive
    && !c.startEnabled && c.stopEnabled
    && c.exerciseLabel == FormatExercise(req.exerciseType)
    && c.setLabel == OpeningCounter(1, req.sets)
    && c.repsLabel == OpeningCounter(0, req.reps)
  }

  /**
   * Click on the start button with the parsed `sets` and `reps` (None for
   * NaN); `outcome` is what the start request comes to if one is sent.
   */
  function Start(c: Controller, sets: Option<int>, reps: Option<int>,
                 outcome: Response<ActionReply>): (r: StartStep)
    ensures r.request.None? <==> !ValidateStart(c.selected, sets, reps).Success?
    ensures r.request.Some? ==> r.request == Some(ValidateStart(c.selected, sets, reps).value)
    ensures r.request.None? || !Accepted(outcome) ==> r.next == c
    ensures r.request.Some? && Accepted(outcome) ==>
              && RunningFor(r.next, r.request.value)
              && SameSelection(c, r.next)
    ensures c.startEnabled && Inv(c) ==> Inv(r.next)
  {
    match ValidateStart(c.selected, sets, reps)
    case Failure(_) => StartStep(c, None)
    case Success(req) =>
      if Accepted(outcome) then
        var next := c.(
          running := true, startEnabled := false, stopEnabled := true,
          exerciseLabel := FormatExercise(req.exerciseType),
          setLabel := OpeningCounter(1, req.sets),
          repsLabel := OpeningCounter(0, req.reps),
          leakedTimers := if c.pollActive then c.leakedTimers + 1 else c.leakedTimers,
          pollActive := true);
        StartStep(next, Some(req))
      else StartStep(c, Some(req))
  }

  /** Click on the stop button; `outcome` is what the stop request comes to. */
  function Stop(c: Controller, outcome: Response<ActionReply>): (r: Controller)
    ensures Accepted(outcome) ==> IsStandby(r) && SameSelection(c, r)
    ensures Accepted(outcome) ==> r.leakedTimers == c.leakedTimers
    ensures !Accepted(outcome) ==> r == c
    ensures Inv(c) ==> Inv(r)
  {
    if Accepted(outcome) then Reset(c) else c
  }

  /** The counters shown for a status payload. */
  function SetCounterOf(d: StatusReply): string {
    Counter(RenderField(d.currentSet), RenderField(d.totalSets))
  }

  function RepsCounterOf(d: StatusReply): string {
    Counter(RenderField(d.currentReps), RenderField(d.repGoal))
  }

  /**
   * One status check; `outcome` is what the status request comes to. A
   * reply may arrive after the controller went back to standby.
   */
  function Poll(c: Controller, outcome: Response<StatusReply>): (r: Controller)
    ensures !outcome.Json? ==> r == c
    ensures outcome.Json? && !outcome.payload.exerciseRunning && c.running ==>
              IsStandby(r) && SameSelection(c, r) && r.leakedTimers == c.leakedTimers
    ensures outcome.Json? && (outcome.payload.exerciseRunning || !c.running) ==>
              && SameExceptCounters(c, r)
              && r.setLabel == SetCounterOf(outcome.payload)
              && r.repsLabel == RepsCounterOf(outcome.payload)
    ensures Inv(c) ==> Inv(r)
  {
    match outcome
    case Json(d) =>
      if !d.exerciseRunning && c.running then Reset(c)
      else c.(setLabel := SetCounterOf(d), repsLabel := RepsCounterOf(d))
    case _ => c
  }
}
