/**
 * Sequences of user and timer events applied to the controller, with the
 * disabled buttons and the timer deciding which events take effect, and the
 * properties relating several transitions.
 */
module Session {
  import opened Optional
  import opened Text
  import opened Display
  import opened Controller

  /** One event, together with what its request (if any) comes to. */
  datatype Event =
    | ClickOption(index: nat)
    | ClickStart(sets: Option<int>, reps: Option<int>, startOutcome: Response<ActionReply>)
    | ClickStop(stopOutcome: Response<ActionReply>)
    | Tick(statusOutcome: Response<StatusReply>)

  /**
   * A click on a disabled button, a click outside the option list and a
   * tick with no interval alive do nothing.
   */
  function Step(c: Controller, e: Event): (r: Controller)
    ensures Inv(c) ==> Inv(r)
  {
    match e
    case ClickOption(i) => if i < |c.options| then Select(c, i) else c
    case ClickStart(sets, reps, o) => if c.startEnabled then Start(c, sets, reps, o).next else c
    case ClickStop(o) => if c.stopEnabled then Stop(c, o) else c
    case Tick(o) => if c.pollActive || c.leakedTimers > 0 then Poll(c, o) else c
  }

  function Run(c: Controller, events: seq<Event>): Controller
    decreases |events|
  {
    if |events| == 0 then c else Run(Step(c, events[0]), events[1..])
  }

  /** Every state reachable from a state satisfying the invariant satisfies it. */
  lemma {:induction false} RunPreservesInv(c: Controller, events: seq<Event>)
    requires Inv(c)
    ensures Inv(Run(c, events))
    decreases |events|
  {
    if |events| > 0 {
      RunPreservesInv(Step(c, events[0]), events[1..]);
    }
  }

  /** Every state the page can reach satisfies the invariant. */
  lemma ReachableInv(options: seq<Option<string>>, events: seq<Event>)
    ensures Inv(Run(Init(options), events))
  {
    RunPreservesInv(Init(options), events);
  }

  /** Applying reset twice gives the same state as applying it once. */
  lemma ResetIdempotent(c: Controller)
    ensures Reset(Reset(c)) == Reset(c)
  {
  }

  /** Reset ends in one fixed state, whatever it starts from, up to the selection. */
  lemma ResetIsFixed(c: Controller, d: Controller)
    requires SameSelection(c, d) && Inv(c) && Inv(d)
    ensures Reset(c) == Reset(d)
  {
  }

  /**
   * The invariant rests on the disabled start button: a start accepted while
   * a session is running would overwrite the live interval's handle, which
   * no later reset clears.
   */
  lemma StartGuardNeeded()
    ensures var c := Start(Select(Init([Some("squats")]), 0), Some(3), Some(10), Json(ActionReply(true))).next;
            && Inv(c)
            && !Inv(Start(c, Some(3), Some(10), Json(ActionReply(true))).next)
  {
  }

  /** Starting "squats" with 3 sets of 10 shows "SQUATS", "1 / 3" and "0 / 10". */
  lemma SquatsStart()
    ensures var c := Start(Select(Init([Some("squats")]), 0), Some(3), Some(10), Json(ActionReply(true))).next;
            && c.running && c.pollActive && !c.startEnabled && c.stopEnabled
            && c.exerciseLabel == "SQUATS" && c.setLabel == "1 / 3" && c.repsLabel == "0 / 10"
  {
    var c0 := Select(Init([Some("squats")]), 0);
    var req := StartRequest("squats", 3, 10);
    assert ValidateStart(c0.selected, Some(3), Some(10)) == Success(req);
    var c := Start(c0, Some(3), Some(10), Json(ActionReply(true))).next;
    assert RunningFor(c, req);
    FormatSquats();
    SquatsCounters();
  }

  /** The opening counters for 3 sets of 10. */
  lemma SquatsCounters()
    ensures OpeningCounter(1, 3) == "1 / 3" && OpeningCounter(0, 10) == "0 / 10"
  {
  }

  /** While running, a reply for set 2 of 3, rep 5 of 10 shows "2 / 3" and "5 / 10". */
  lemma SquatsProgress(c: Controller)
    requires c.running
    ensures var p := Poll(c, Json(StatusReply(true, Num(2), Num(3), Num(5), Num(10))));
            && p.running && p.setLabel == "2 / 3" && p.repsLabel == "5 / 10"
  {
  }
}
