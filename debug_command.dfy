/**
 * `testCommand`, behind the debug buttons of the settings tab: run a
 * command, accumulate both output streams, and settle on the first of
 * 'close', 'error' or the 10000 ms timer. Unlike the request it does not
 * trim, accepts stderr as the answer when stdout is empty, and reports the
 * stdout text when stderr is empty.
 */
module DebugCommand {

  import opened Wrappers
  import opened Promises
  import opened ChildEvents

  const ErrorPrefix := "Command error: "
  const ExitPrefix := "Command failed with exit code "
  const TimeoutReason := "Command timeout"

  /** `a || b` for two strings. */
  function OrElse(a: string, b: string): string {
    if a != "" then a else b
  }

  /** What the listener for `e` passes to resolve or reject. */
  function DebugReaction(e: ChildEvent, stdout: string, stderr: string): (r: Settlement<string>)
    ensures r.Pending? <==> !Settles(DebugCommand, e)
    ensures r.Fulfilled? <==> e == Closed(Some(0))
    ensures r.Fulfilled? ==> r.value == (if stdout != "" then stdout else stderr)
    ensures r.Fulfilled? && r.value == "" ==> stdout == "" && stderr == ""
  {
    match e
    case Closed(code) =>
      if code == Some(0) then Fulfilled(OrElse(stdout, stderr))
      else Rejected(ExitMessage(ExitPrefix, code, OrElse(stderr, stdout)))
    case Errored(m) => Rejected(ErrorPrefix + m)
    case TimerFired => Rejected(TimeoutReason)
    case _ => Pending
  }

  /** The promise once `events` have been delivered. */
  function DebugState(events: seq<ChildEvent>): Settlement<string> {
    var k := FirstSettling(DebugCommand, events);
    if k == |events| then Pending
    else DebugReaction(events[k], Received(events[..k], Stdout), Received(events[..k], Stderr))
  }

  /** The outcome of the command. Its timer is never cleared, so a run that
      nothing else settled is rejected by the timer: it always settles. */
  function DebugOutcome(events: seq<ChildEvent>): (r: Settlement<string>)
    ensures r != Pending
    ensures (forall j :: 0 <= j < |events| ==> !Settles(DebugCommand, events[j])) ==> r == Rejected(TimeoutReason)
  {
    var st := DebugState(events);
    if st.Pending? then Rejected(TimeoutReason) else st
  }

  lemma DebugStateStep(events: seq<ChildEvent>, e: ChildEvent)
    ensures DebugState(events + [e])
         == if DebugState(events) != Pending then DebugState(events)
            else DebugReaction(e, Received(events, Stdout), Received(events, Stderr))
  {
    FirstSettlingStep(DebugCommand, events, e);
    var k := FirstSettling(DebugCommand, events);
    assert (events + [e])[..|events|] == events;
    if k < |events| {
      assert (events + [e])[k] == events[k];
      assert (events + [e])[..k] == events[..k];
    }
  }

  /** Extending the delivered prefix by one event, as the loop of
      `TestCommand` does. */
  lemma DebugPrefixStep(events: seq<ChildEvent>, i: nat)
    requires i < |events|
    ensures DebugState(events[..i + 1])
         == if DebugState(events[..i]) != Pending then DebugState(events[..i])
            else DebugReaction(events[i], Received(events[..i], Stdout), Received(events[..i], Stderr))
    ensures Received(events[..i + 1], Stdout) == Received(events[..i], Stdout) + ChunkOn(events[i], Stdout)
    ensures Received(events[..i + 1], Stderr) == Received(events[..i], Stderr) + ChunkOn(events[i], Stderr)
  {
    assert events[..i + 1] == events[..i] + [events[i]];
    DebugStateStep(events[..i], events[i]);
    ReceivedStep(events[..i], events[i]);
  }

  /** The command's listeners receiving one event: a data listener appends
      its chunk, a settling listener calls resolve or reject. */
  method Listen(p: Promise<string>, e: ChildEvent, stdoutText: string, stderrText: string)
    returns (newStdout: string, newStderr: string)
    modifies p
    ensures newStdout == stdoutText + ChunkOn(e, Stdout)
    ensures newStderr == stderrText + ChunkOn(e, Stderr)
    ensures p.state == if old(p.state) != Pending then old(p.state)
                       else DebugReaction(e, stdoutText, stderrText)
  {
    newStdout, newStderr := stdoutText, stderrText;
    match e
    case Data(Stdout, chunk) =>
      newStdout := stdoutText + chunk;
    case Data(Stderr, chunk) =>
      newStderr := stderrText + chunk;
    case Closed(code) =>
      if code == Some(0) {
        p.Resolve(if stdoutText != "" then stdoutText else stderrText);
      } else {
        p.Reject(ExitPrefix + CodeText(code) + ": " + (if stderrText != "" then stderrText else stdoutText));
      }
    case Errored(m) =>
      p.Reject(ErrorPrefix + m);
    case TimerFired =>
      // the callback kills the child, then rejects
      p.Reject(TimeoutReason);
    case Spawned =>
  }

  /** `testCommand(command, args)` for a child whose events are `events`:
      delivers them in order, then lets the timer fire if it has not. */
  method TestCommand(events: seq<ChildEvent>) returns (outcome: Settlement<string>)
    ensures outcome == DebugOutcome(events)
  {
    var p := new Promise<string>();
    var stdoutText, stderrText := "", "";
    for i := 0 to |events|
      invariant stdoutText == Received(events[..i], Stdout)
      invariant stderrText == Received(events[..i], Stderr)
      invariant p.state == DebugState(events[..i])
    {
      DebugPrefixStep(events, i);
      stdoutText, stderrText := Listen(p, events[i], stdoutText, stderrText);
    }
    assert events[..|events|] == events;
    assert p.state == DebugState(events);
    if p.state.Pending? {
      // nothing settled, so the timer has not fired yet; it will
      p.Reject(TimeoutReason);
    }
    outcome := p.state;
  }

  /** On a first-settling 'close' with code 0 the answer is stdout, or
      stderr when stdout is empty; with any other code the message carries
      the code and stderr, or stdout when stderr is empty. */
  lemma DebugCloseOutcome(events: seq<ChildEvent>, k: nat)
    requires k < |events| && events[k].Closed?
    requires forall j :: 0 <= j < k ==> !Settles(DebugCommand, events[j])
    ensures var out, err := Received(events[..k], Stdout), Received(events[..k], Stderr);
      DebugOutcome(events)
      == if events[k].code == Some(0) then Fulfilled(if out != "" then out else err)
         else Rejected(ExitMessage(ExitPrefix, events[k].code, if err != "" then err else out))
  {
    FirstSettlingAt(DebugCommand, events, k);
  }

  /** An 'error' or the timer arriving first rejects with its own reason. */
  lemma DebugErrorOrTimeout(events: seq<ChildEvent>, k: nat)
    requires k < |events| && (events[k].Errored? || events[k].TimerFired?)
    requires forall j :: 0 <= j < k ==> !Settles(DebugCommand, events[j])
    ensures DebugOutcome(events)
         == if events[k].Errored? then Rejected(ErrorPrefix + events[k].message) else Rejected(TimeoutReason)
  {
    FirstSettlingAt(DebugCommand, events, k);
  }

  /** Once settled, later events do not change the outcome. */
  lemma DebugSettledIsFinal(events: seq<ChildEvent>, later: seq<ChildEvent>)
    requires DebugState(events) != Pending
    ensures DebugOutcome(events + later) == DebugOutcome(events)
  {
    var k := FirstSettling(DebugCommand, events);
    FirstSettlingAppend(DebugCommand, events, later);
    assert (events + later)[k] == events[k];
    assert (events + later)[..k] == events[..k];
  }
}
