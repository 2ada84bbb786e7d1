/** The typewriter effect of the portfolio's hero section (`initTypewriter` in script.js).

    The script keeps four mutable variables (`currentRole`, `currentChar`, `isDeleting`,
    `isWaiting`) and a callback that re-schedules itself with `setTimeout`. Here one call of
    that callback is the pure function `Step`: it maps the variables to their new values,
    the text written into the page (if any) and the delay before the next call. */
module Typewriter {

  import opened Wrappers
  import opened JsString

  /** The four variables the callback closes over. `count` is an `int` because nothing in
      the script stops `currentChar` from leaving `[0, length]`; `Inv` says when it stays. */
  datatype State = State(role: nat, count: int, deleting: bool, waiting: bool)

  /** What one call produces: the new variables, the text assigned to `textContent`
      (`None` when the call only waits) and the delay passed to `setTimeout`. */
  datatype StepResult = StepResult(next: State, rendered: Option<string>, delay: nat)

  /** Delays in milliseconds. */
  const TypingDelay: nat := 60
  const DeletingDelay: nat := 30
  const FullPause: nat := 1200
  const EmptyPause: nat := 200
  const WaitPause: nat := 300

  /** The phrases the page cycles through. */
  const Roles: seq<string> := ["Software Engineer.", "Full-Stack Developer.", "Computer Science Student."]

  /** About to type the first character of phrase `r`. */
  function TypingAt(r: nat): State {
    State(r, 0, false, false)
  }

  /** The variables as first declared: about to type the first phrase. */
  const Start: State := TypingAt(0)

  /** Phrase `r` fully typed, the next call starts deleting it. */
  function FullAt(roles: seq<string>, r: nat): State
    requires r < |roles|
  {
    State(r, |roles[r]|, true, false)
  }

  /** What the script needs for its rotation to make progress: at least one phrase (with
      none, `current` is `undefined` and the first call throws at `current.substring`) and
      no empty phrase (`currentChar === current.length` must be reachable). */
  predicate WellFormedRoles(roles: seq<string>) {
    |roles| > 0 && forall i :: 0 <= i < |roles| ==> |roles[i]| > 0
  }

  /** The states the callback can be in when started from `Start` on well-formed phrases. */
  predicate Inv(roles: seq<string>, s: State) {
    && s.role < |roles|
    && 0 <= s.count <= |roles[s.role]|
    && !(s.deleting && s.waiting)
    && (s.deleting ==> s.count > 0)
    && (!s.deleting ==> s.count < |roles[s.role]|)
    && (s.waiting ==> s.count == 0)
  }

  /** The `isWaiting` branch: clear the flag and come back after the pause, rendering nothing. */
  function WaitStep(s: State): (r: StepResult)
    requires s.waiting
    ensures r.rendered == None && r.delay == WaitPause
    ensures !r.next.waiting
    ensures r.next.role == s.role && r.next.count == s.count && r.next.deleting == s.deleting
  {
    StepResult(s.(waiting := false), None, WaitPause)
  }

  /** The `isDeleting` branch: drop the last character; once the phrase is empty, move to
      the next phrase (wrapping around) and wait. */
  function DeleteStep(roles: seq<string>, s: State): (r: StepResult)
    requires s.role < |roles| && s.deleting && !s.waiting
    ensures r.next.count == s.count - 1
    ensures 0 < s.count <= |roles[s.role]| ==> r.rendered == Some(roles[s.role][..s.count - 1])
    ensures r.next.count == 0 ==>
              && r.next.role == (s.role + 1) % |roles|
              && !r.next.deleting && r.next.waiting
              && r.delay == EmptyPause
    ensures r.next.count != 0 ==>
              && r.next.role == s.role
              && r.next.deleting && !r.next.waiting
              && r.delay == DeletingDelay
  {
    var current := roles[s.role];
    var text := Substring(current, 0, s.count - 1);
    var count := s.count - 1;
    if count == 0 then
      StepResult(State((s.role + 1) % |roles|, count, false, true), Some(text), EmptyPause)
    else
      Continue(s.(count := count), text)
  }

  /** The typing branch: show one more character; once the phrase is complete, switch to
      deleting after the long pause. */
  function TypeStep(roles: seq<string>, s: State): (r: StepResult)
    requires s.role < |roles| && !s.deleting && !s.waiting
    ensures r.next.count == s.count + 1
    ensures r.next.role == s.role && !r.next.waiting
    ensures 0 <= s.count < |roles[s.role]| ==> r.rendered == Some(roles[s.role][..s.count + 1])
    ensures r.next.count == |roles[s.role]| ==> r.next.deleting && r.delay == FullPause
    ensures r.next.count != |roles[s.role]| ==> !r.next.deleting && r.delay == TypingDelay
  {
    var current := roles[s.role];
    var text := Substring(current, 0, s.count + 1);
    var count := s.count + 1;
    if count == |current| then
      StepResult(s.(count := count, deleting := true), Some(text), FullPause)
    else
      Continue(s.(count := count), text)
  }

  /** The shared tail of both branches: the next delay depends on the direction. */
  function Continue(next: State, text: string): StepResult {
    StepResult(next, Some(text), if next.deleting then DeletingDelay else TypingDelay)
  }

  /** One call of the callback. The role must index the list: the deleting and typing
      branches call `substring` and read `length` on `roles[currentRole]`, which throws when
      that is `undefined`. */
  function Step(roles: seq<string>, s: State): (r: StepResult)
    requires s.role < |roles|
    ensures r.next.role < |roles|
    ensures r.rendered == None <==> s.waiting
    ensures WellFormedRoles(roles) && Inv(roles, s) ==> Inv(roles, r.next)
  {
    if s.waiting then WaitStep(s)
    else if s.deleting then DeleteStep(roles, s)
    else TypeStep(roles, s)
  }

  /** Whatever the state, the text written is a prefix of the current phrase; on the states
      of `Inv` it is exactly the prefix whose length is the new count. */
  lemma StepRendersPrefix(roles: seq<string>, s: State)
    requires s.role < |roles|
    ensures Step(roles, s).rendered.Some? ==> Step(roles, s).rendered.value <= roles[s.role]
    ensures Inv(roles, s) && Step(roles, s).rendered.Some? ==>
              && 0 <= Step(roles, s).next.count <= |roles[s.role]|
              && Step(roles, s).rendered.value == roles[s.role][..Step(roles, s).next.count]
  {
  }

  /** The state after `k` calls. */
  function Run(roles: seq<string>, s: State, k: nat): (r: State)
    requires s.role < |roles|
    ensures r.role < |roles|
    ensures WellFormedRoles(roles) && Inv(roles, s) ==> Inv(roles, r)
    decreases k
  {
    if k == 0 then s else Run(roles, Step(roles, s).next, k - 1)
  }

  /** The outputs of the first `k` calls, in order. */
  function Trace(roles: seq<string>, s: State, k: nat): (t: seq<StepResult>)
    requires s.role < |roles|
    ensures |t| == k
    decreases k
  {
    if k == 0 then [] else [Step(roles, s)] + Trace(roles, Step(roles, s).next, k - 1)
  }

  /** Steps in one full rotation through phrases `0..m-1`: each phrase takes one call per
      typed character, one per deleted character and one more for the wait. */
  function RotationLength(roles: seq<string>, m: nat): nat
    requires m <= |roles|
  {
    if m == 0 then 0 else RotationLength(roles, m - 1) + 2 * |roles[m - 1]| + 1
  }
}
