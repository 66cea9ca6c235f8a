# Workout session controller — a Dafny model

The page script of the workout tracker lets a user pick an exercise, enter a
number of sets and repetitions, start and stop a session through the backend,
and poll the backend once a second for progress. Underneath the DOM and
`fetch` plumbing it is a two-state machine (standby ↔ running) over the page
variables `selectedExercise`, `workoutRunning` and `statusCheckInterval`, the
enabled state of the start and stop buttons, the `selected` mark on the
exercise options and three text labels (exercise, set counter, repetition
counter).

The model is an immutable `Controller.Controller` record with one pure
transition per handler:

- `Select` — click on an exercise option;
- `Start` — click on the start button with the parsed sets and reps; it
  returns the request sent (if any) and the next state;
- `Stop` — click on the stop button;
- `Poll` — one status check;
- `Reset` — `resetWorkoutUI`.

Every backend reply is an abstract `Response<P>`: the fetch rejected, a
non-OK status, a non-JSON content type, a body that did not parse, or a
decoded payload.

Two pure helpers carry the string logic:

- `ValidateStart` is the guard the start button applies before any request.
- `Display.FormatExercise` builds the exercise label. It replaces the first
  `_` by a space, upper-cases (ASCII only) and drops the first `.EXE`.
  It is built from `Text.ReplaceFirst`, whose contract is the
  first-occurrence semantics of a string-pattern `replace` for a
  replacement without `$` patterns, and
  `Text.ToUpperAscii`.

Counters are rendered by `Text.NatToString` / `Text.IntToString`. Their
partner `Text.DigitsValue` reads the digits back: all of a natural's
rendering, and everything after the minus sign of a negative integer's.

The timer is a flag `pollActive` (`statusCheckInterval` is non-null) plus a
count `leakedTimers` of intervals that would keep firing after their handle
was overwritten. The invariant `Controller.Inv` states four things:

- running, poll handle, start-disabled and stop-enabled agree;
- no interval is leaked;
- at most one option is marked;
- the marked option is the selection.

`Session.Step` applies one event with the browser's own guards: a disabled
button ignores clicks, and a tick needs a live interval. `Session.ReachableInv`
proves that every state reachable from page load satisfies `Inv`.
`Session.StartGuardNeeded` shows that this depends on the disabled start
button, because the handler itself does not check `workoutRunning`.

Files: `optional.dfy` (Option/Result), `text.dfy` (string primitives),
`display.dfy` (labels), `controller.dfy` (state and transitions),
`session.dfy` (event runs and multi-step properties).

## Model

| member | source | states |
|---|---|---|
| Text.IndexOf | static/js/script.js:85 | the index returned is an occurrence of the pattern with no earlier occurrence; none is returned only when the pattern occurs nowhere |
| Text.ReplaceFirst | static/js/script.js:85 | for a replacement without `$` patterns: with no occurrence the string is unchanged; otherwise exactly the first occurrence is replaced; the length is either unchanged or changed by the length difference of pattern and replacement |
| Text.ToUpperAscii | static/js/script.js:85 | same length, no lower-case ASCII letter left, lower-case letters moved to their upper-case code, every other character kept |
| Text.NatToString | static/js/script.js:86-87 | the `${n}` rendering of a natural is a non-empty digit string with no leading zero, and 0 renders as exactly `0` |
| Text.DigitsValueOfNatToString | static/js/script.js:86-87 | reading back the rendered digits gives the original number |
| Text.NatToStringInjective | static/js/script.js:86-87 | different set or rep counts never render to the same text |
| Text.IntToString | static/js/script.js:152-153 | an integer payload field renders with a leading minus exactly when it is negative, followed by decimal digits with no leading zero whose value is the magnitude; 0 renders as exactly `0` |
| Text.IntToStringInjective | static/js/script.js:152-153 | distinct integer payload fields never render to the same counter text |
| Display.FormatExercise | static/js/script.js:85 | the exercise label is no longer than the identifier, at most 4 characters shorter (one `.EXE` dropped), and holds no lower-case ASCII letter |
| Display.PlainIdentifierIsUpperCased | static/js/script.js:85 | an identifier with no `_` and no `.EXE` after upper-casing is shown just upper-cased |
| Display.FormatSquats | static/js/script.js:85 | `squats` is shown as `SQUATS` |
| Display.FormatJumpRope | static/js/script.js:85 | `jump_rope.exe` is shown as `JUMP ROPE`: first `_` to a space, `.exe` suffix removed after upper-casing |
| Display.OpeningCounter | static/js/script.js:86-87 | a counter shown at start is the canonical decimal of the completed count, " / ", then the canonical decimal of the total (no leading zeros, exact length), so both numbers can be read back (`1 / sets`, `0 / reps`) |
| Controller.Init | static/js/script.js:13-15 | the page starts with nothing selected, no timer, and the standby display, and satisfies the invariant |
| Controller.Select | static/js/script.js:18-26 | clicking option i marks exactly option i, makes its attribute the selection, leaves session, controls and labels unchanged, and keeps the invariant |
| Controller.ValidateStart | static/js/script.js:31-42 | rejects a null or empty selection first, then a NaN or < 1 sets or reps; accepts exactly when all three are valid and relays them unchanged |
| Controller.Start | static/js/script.js:30-101 | no request is sent exactly when validation fails; any rejected, failed or unsuccessful start leaves the state as it was; a successful one gives running, poll active, start disabled, stop enabled, formatted exercise label, `1 / sets` and `0 / reps` counters, the selection untouched; from an enabled start button it keeps the invariant |
| Controller.Stop | static/js/script.js:104-129 | a successful stop gives the standby display with the selection kept; every failed outcome leaves the state unchanged; the invariant is kept |
| Controller.Poll | static/js/script.js:132-159 | a failed check changes nothing; a reply that the exercise ended while running gives standby; any other reply, also a stale one in standby, only rewrites the two counters from the payload fields; the invariant is kept |
| Controller.Reset | static/js/script.js:162-175 | ends in the standby display (`STANDBY`, `0 / 0`, `0 / 0`, start enabled, stop disabled, no poll, not running) whatever the input, keeping the selection |
| Session.Step | static/js/script.js:80-90 | an event applied with the disabled-button and live-timer guards keeps the invariant |
| Session.RunPreservesInv | static/js/script.js:14-15 | any sequence of events from a state satisfying the invariant ends in one satisfying it |
| Session.ReachableInv | static/js/script.js:13-15 | every state reachable from page load keeps running, poll handle, start-disabled and stop-enabled together, with no leaked timer |
| Session.ResetIdempotent | static/js/script.js:162-175 | resetting twice gives the same state as resetting once |
| Session.ResetIsFixed | static/js/script.js:162-175 | two states with the same selection that satisfy the invariant reset to the same state |
| Session.StartGuardNeeded | static/js/script.js:79-90 | a start accepted while running would overwrite the live interval's handle and break the invariant, so the disabled start button is what keeps it |
| Session.SquatsStart | static/js/script.js:79-90 | starting `squats` with 3 sets of 10 shows `SQUATS`, `1 / 3`, `0 / 10`, with start disabled, stop enabled and polling active |
| Session.SquatsProgress | static/js/script.js:145-153 | while running, a status reply for set 2 of 3 and rep 5 of 10 shows `2 / 3` and `5 / 10` and keeps the session running |

## Left out

- DOM access, `addEventListener`, `alert` and `console` calls: user-visible messages and logs are I/O. The model keeps only the state changes, plus whether a start request is sent.
- `fetch`, headers, content-type sniffing and JSON parsing: reduced to the `Response` outcome. The error message the start handler builds from an error body is an alert text and is not modelled.
- `setInterval`/`clearInterval` timing and the 1000 ms period: the timer is the `pollActive` flag. A tick is an event that may occur whenever an interval is alive.
- Async interleaving, such as overlapping or out-of-order poll replies, or replies arriving after a later click: each handler and its reply is one atomic transition. A reply arriving after a reset is still covered, because `Poll` is defined in every state.
- `parseInt` (prefix parsing, whitespace, radix): sets and reps enter already parsed, as `Option<int>`, with `None` for NaN.
- Text.IntToString: payload counters of magnitude 10^21 or more would render in exponent notation (`1e+21`) in JavaScript. The model renders them in plain decimal.
- Controller.Start: values of 10^21 or more would render in exponent notation (`1e+21`) in JavaScript. The model renders them in plain decimal.
- Display.FormatExercise: `toUpperCase` is modelled for ASCII only. Other characters are kept unchanged.
- Controller.Poll: payload counters are integers or absent (rendered `undefined`). Strings, floats and `null` in those fields are not modelled. `exercise_running` and `success` enter as their truthiness.
- A JSON body that parses to `null` (so reading `data.success` throws) is not distinguished. It behaves like `MalformedJson`: the state is unchanged.
- The page markup is not part of this model. `Controller.Init` assumes it shows the standby labels with start enabled, stop disabled and no option marked.
- The backend server is not part of this repository.
