/**
 * The client's "start" retry handshake: a polling loop that sends "start" when sending is safe, interleaved
 * with the success and failure callbacks of the messages it has sent.
 */
module StartHandshake {
  /** The loop: at its test, at the safety test, before clearing the flag, before Send, asleep, finished. */
  datatype Loop = Test | CheckSafe | ClearSafe | Sending | Sleeping | Finished

  /**
   * `inFlight` counts messages whose callback has not begun, `recording` success callbacks between their two
   * flag writes. `sent` and `sentAfterSuccess` are history, the latter within the running Start call.
   */
  datatype State = State(
    loop: Loop, local: bool, safe: bool, success: bool,
    inFlight: nat, recording: nat, sent: nat, sentAfterSuccess: nat)

  const INIT := State(Test, false, true, false, 0, 0, 0, 0)

  datatype Step =
    | LoopMoves
    | SuccessRecorded   // a success callback sets send_success_
    | SuccessReleases   // and then send_invoke_is_safe_
    | FailureReleases   // a failure callback sets send_invoke_is_safe_
    | StartAgain        // Start is called once more; the flags are static

  function Next(s: State, step: Step): State {
    match step
    case LoopMoves =>
      (match s.loop
       case Test => s.(loop := if s.local then Finished else CheckSafe)
       case CheckSafe => s.(loop := if s.safe then ClearSafe else Sleeping)
       case ClearSafe => s.(loop := Sending, safe := false)
       case Sending =>
         s.(loop := Sleeping, inFlight := s.inFlight + 1, sent := s.sent + 1,
            sentAfterSuccess := s.sentAfterSuccess + if s.success then 1 else 0)
       case Sleeping => s.(loop := Test, local := s.success)
       case Finished => s)
    case SuccessRecorded =>
      if s.inFlight > 0 then s.(inFlight := s.inFlight - 1, recording := s.recording + 1, success := true) else s
    case SuccessReleases =>
      if s.recording > 0 then s.(recording := s.recording - 1, safe := true) else s
    case FailureReleases =>
      if s.inFlight > 0 then s.(inFlight := s.inFlight - 1, safe := true) else s
    case StartAgain =>
      if s.loop == Finished then s.(loop := Test, local := false, sentAfterSuccess := 0) else s
  }

  function Run(s: State, steps: seq<Step>): State
    decreases |steps|
  {
    if steps == [] then s else Run(Next(s, steps[0]), steps[1..])
  }

  /** One permission to send exists: in the flag, with the loop about to send, or with the message in flight. */
  function Permissions(s: State): nat {
    (if s.safe then 1 else 0) + (if s.loop == Sending then 1 else 0) + s.inFlight + s.recording
  }

  ghost predicate Inv(s: State) {
    && Permissions(s) == 1
    && (s.loop == ClearSafe ==> s.safe)
    && (s.local ==> s.success) && (s.loop == Finished ==> s.local)
    && (s.loop in {CheckSafe, ClearSafe, Sending} ==> !s.local)
    && (s.sentAfterSuccess > 0 ==>
          s.sentAfterSuccess == 1 && s.success && (s.loop in {Sleeping, Finished} || (s.loop == Test && s.local)))
  }

  lemma {:induction false} RunKeepsInv(s: State, steps: seq<Step>)
    requires Inv(s)
    ensures Inv(Run(s, steps))
    decreases |steps|
  {
    if steps != [] {
      RunKeepsInv(Next(s, steps[0]), steps[1..]);
    }
  }

  /** In every interleaving at most one "start" is in flight, and at most one more per Start call once success is recorded. */
  lemma AtMostOneInFlight(steps: seq<Step>)
    ensures var s := Run(INIT, steps);
            s.inFlight + s.recording <= 1 && s.sentAfterSuccess <= 1 && (s.loop == Finished ==> s.success)
  {
    RunKeepsInv(INIT, steps);
  }

  /** Messages sent in a run once success had been recorded. */
  function SentLate(s: State, steps: seq<Step>): nat
    decreases |steps|
  {
    if steps == [] then 0
    else (if steps[0] == LoopMoves && s.loop == Sending && s.success then 1 else 0) + SentLate(Next(s, steps[0]), steps[1..])
  }

  /** Further calls of Start in a run. */
  function Restarts(s: State, steps: seq<Step>): nat
    decreases |steps|
  {
    if steps == [] then 0
    else (if steps[0] == StartAgain && s.loop == Finished then 1 else 0) + Restarts(Next(s, steps[0]), steps[1..])
  }

  lemma {:induction false} LateSendsBounded(s: State, steps: seq<Step>)
    requires Inv(s)
    ensures SentLate(s, steps) + s.sentAfterSuccess <= 1 + Restarts(s, steps)
    decreases |steps|
  {
    if steps != [] {
      LateSendsBounded(Next(s, steps[0]), steps[1..]);
    }
  }

  /** Over a whole run each call of Start sends at most one message after success has been recorded. */
  lemma OneLateSendPerStart(steps: seq<Step>)
    ensures SentLate(INIT, steps) <= 1 + Restarts(INIT, steps)
  {
    LateSendsBounded(INIT, steps);
  }

  lemma {:induction false} RunAppend(s: State, steps: seq<Step>, step: Step)
    ensures Run(s, steps + [step]) == Next(Run(s, steps), step)
    decreases |steps|
  {
    if steps != [] {
      assert (steps + [step])[1..] == steps[1..] + [step];
      RunAppend(Next(s, steps[0]), steps[1..], step);
    } else {
      assert Run(s, [step]) == Run(Next(s, step), []);
    }
  }

  function Moves(n: nat): seq<Step> {
    if n == 0 then [] else Moves(n - 1) + [LoopMoves]
  }

  /** One message out, and the loop back at its safety test. */
  lemma SecondRound()
    ensures Run(INIT, Moves(6)) == State(CheckSafe, false, false, false, 1, 0, 1, 0)
  {
  }

  /** The extra message does happen: success is recorded while the loop is between its test and the safety test. */
  lemma OneMoreHappens()
    ensures Run(INIT, Moves(6) + [SuccessRecorded] + [SuccessReleases] + [LoopMoves] + [LoopMoves] + [LoopMoves]).sentAfterSuccess == 1
  {
    SecondRound();
    var a := Moves(6);
    RunAppend(INIT, a, SuccessRecorded);
    RunAppend(INIT, a + [SuccessRecorded], SuccessReleases);
    RunAppend(INIT, a + [SuccessRecorded] + [SuccessReleases], LoopMoves);
    RunAppend(INIT, a + [SuccessRecorded] + [SuccessReleases] + [LoopMoves], LoopMoves);
    RunAppend(INIT, a + [SuccessRecorded] + [SuccessReleases] + [LoopMoves] + [LoopMoves], LoopMoves);
  }

  /** Success is recorded only by a success callback, and Start returns only then. */
  lemma {:induction false} NoFalseSuccess(s: State, steps: seq<Step>)
    requires !s.success && !s.local && s.loop != Finished
    requires forall k :: 0 <= k < |steps| ==> steps[k] != SuccessRecorded
    ensures var t := Run(s, steps); !t.success && !t.local && t.loop != Finished
    decreases |steps|
  {
    if steps != [] {
      NoFalseSuccess(Next(s, steps[0]), steps[1..]);
    }
  }

  /** A failed message is sent again on the loop's next round. */
  lemma FailureIsRetried()
    ensures Run(INIT, Moves(6) + [FailureReleases] + [LoopMoves] + [LoopMoves] + [LoopMoves]).sent == 2
  {
    SecondRound();
    var a := Moves(6);
    RunAppend(INIT, a, FailureReleases);
    RunAppend(INIT, a + [FailureReleases], LoopMoves);
    RunAppend(INIT, a + [FailureReleases] + [LoopMoves], LoopMoves);
    RunAppend(INIT, a + [FailureReleases] + [LoopMoves] + [LoopMoves], LoopMoves);
  }

  /** After a success the loop ends without sending again, if it was not already on its way to send. */
  lemma SuccessEndsLoop(s: State)
    requires Inv(s) && s.success && s.loop == Sleeping
    ensures Next(Next(s, LoopMoves), LoopMoves).loop == Finished
  {
  }
}
