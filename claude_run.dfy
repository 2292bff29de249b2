/**
 * `executeClaudeCommand`: spawn the assistant CLI, write the prompt to its
 * standard input, accumulate its two output streams, and settle on the
 * first 'close' or 'error'. No timer is armed, so a child that never
 * closes leaves the request pending.
 */
module ClaudeRun {

  import opened Wrappers
  import opened JsText
  import opened Promises
  import opened ChildEvents
  import opened Request

  const ErrorPrefix := "Claude CLI execution error: "
  const ExitPrefix := "Claude CLI failed with exit code "
  const StdinMissing := "stdin not available"

  /** What the request's listener for `e` passes to resolve or reject,
      given the text accumulated so far on stdout and stderr. */
  function RequestReaction(e: ChildEvent, stdout: string, stderr: string): (r: Settlement<string>)
    ensures r.Pending? <==> !Settles(ClaudeRequest, e)
    ensures r.Fulfilled? <==> e == Closed(Some(0))
    ensures r.Fulfilled? ==> r.value == Trim(stdout)
    ensures r.Rejected? && e.Closed? ==> |ExitPrefix| <= |r.reason| && r.reason[..|ExitPrefix|] == ExitPrefix
  {
    match e
    case Closed(code) =>
      if code == Some(0) then Fulfilled(Trim(stdout)) else Rejected(ExitMessage(ExitPrefix, code, stderr))
    case Errored(m) => Rejected(ErrorPrefix + m)
    case _ => Pending
  }

  /** The request's promise once `events` have been delivered; a missing
      stdin rejects it before any event arrives. */
  function RequestState(stdinAvailable: bool, events: seq<ChildEvent>): Settlement<string> {
    if !stdinAvailable then Rejected(StdinMissing)
    else
      var k := FirstSettling(ClaudeRequest, events);
      if k == |events| then Pending
      else RequestReaction(events[k], Received(events[..k], Stdout), Received(events[..k], Stderr))
  }

  /** One more event changes a pending request into what its listener
      decides, and a settled one not at all. */
  lemma RequestStateStep(stdinAvailable: bool, events: seq<ChildEvent>, e: ChildEvent)
    ensures RequestState(stdinAvailable, events + [e])
         == if RequestState(stdinAvailable, events) != Pending then RequestState(stdinAvailable, events)
            else RequestReaction(e, Received(events, Stdout), Received(events, Stderr))
  {
    if stdinAvailable {
      FirstSettlingStep(ClaudeRequest, events, e);
      var k := FirstSettling(ClaudeRequest, events);
      assert (events + [e])[..|events|] == events;
      if k < |events| {
        assert (events + [e])[k] == events[k];
        assert (events + [e])[..k] == events[..k];
      }
    }
  }

  /** Extending the delivered prefix by one event, as the loop of
      `ExecuteClaudeCommand` does. */
  lemma RequestPrefixStep(stdinAvailable: bool, events: seq<ChildEvent>, i: nat)
    requires i < |events|
    ensures RequestState(stdinAvailable, events[..i + 1])
         == if RequestState(stdinAvailable, events[..i]) != Pending then RequestState(stdinAvailable, events[..i])
            else RequestReaction(events[i], Received(events[..i], Stdout), Received(events[..i], Stderr))
    ensures Received(events[..i + 1], Stdout) == Received(events[..i], Stdout) + ChunkOn(events[i], Stdout)
    ensures Received(events[..i + 1], Stderr) == Received(events[..i], Stderr) + ChunkOn(events[i], Stderr)
  {
    assert events[..i + 1] == events[..i] + [events[i]];
    RequestStateStep(stdinAvailable, events[..i], events[i]);
    ReceivedStep(events[..i], events[i]);
  }

  /** The request's listeners receiving one event: a data listener appends
      its chunk, the 'close' and 'error' listeners call resolve or reject. */
  method Listen(p: Promise<string>, e: ChildEvent, stdoutText: string, stderrText: string)
    returns (newStdout: string, newStderr: string)
    modifies p
    ensures newStdout == stdoutText + ChunkOn(e, Stdout)
    ensures newStderr == stderrText + ChunkOn(e, Stderr)
    ensures p.state == if old(p.state) != Pending then old(p.state)
                       else RequestReaction(e, stdoutText, stderrText)
  {
    newStdout, newStderr := stdoutText, stderrText;
    match e
    case Data(Stdout, chunk) =>
      newStdout := stdoutText + chunk;
    case Data(Stderr, chunk) =>
      newStderr := stderrText + chunk;
    case Closed(code) =>
      if code == Some(0) {
        p.Resolve(Trim(stdoutText));
      } else {
        p.Reject(ExitPrefix + CodeText(code) + ": " + stderrText);
      }
    case Errored(m) =>
      p.Reject(ErrorPrefix + m);
    case Spawned =>
      // the 'spawn' listener only logs
    case TimerFired =>
      // the request arms no timer of its own
  }

  /** `executeClaudeCommand(noteContent, question)`. The child's behaviour
      is the trace `events`; `parentEnv` is `process.env`, `homeDir` the
      working directory. Returns what was spawned, what was written to the
      child's stdin (nothing when it is missing) and the promise's state
      after the trace. */
  method ExecuteClaudeCommand(noteContent: string, question: string, parentEnv: map<string, string>,
                              homeDir: string, stdinAvailable: bool, events: seq<ChildEvent>)
    returns (spawned: SpawnRequest, stdin: Option<string>, outcome: Settlement<string>)
    ensures spawned == ClaudeSpawn(parentEnv, homeDir)
    ensures stdin == if stdinAvailable then Some(Prompt(noteContent, question)) else None
    ensures outcome == RequestState(stdinAvailable, events)
  {
    var prompt := Prompt(noteContent, question);
    spawned := ClaudeSpawn(parentEnv, homeDir);
    var p := new Promise<string>();
    var stdoutText, stderrText := "", "";
    // the listeners are attached first, then the prompt goes to stdin
    if stdinAvailable {
      stdin := Some(prompt);
    } else {
      stdin := None;
      p.Reject(StdinMissing);
    }
    for i := 0 to |events|
      invariant stdoutText == Received(events[..i], Stdout)
      invariant stderrText == Received(events[..i], Stderr)
      invariant p.state == RequestState(stdinAvailable, events[..i])
    {
      RequestPrefixStep(stdinAvailable, events, i);
      stdoutText, stderrText := Listen(p, events[i], stdoutText, stderrText);
    }
    assert events[..|events|] == events;
    outcome := p.state;
  }

  /** A request succeeds exactly when stdin was available and a 'close'
      with code 0 is the first settling event; its value is the trimmed
      stdout received before that 'close'. */
  lemma RequestFulfilledIff(stdinAvailable: bool, events: seq<ChildEvent>, v: string)
    ensures RequestState(stdinAvailable, events) == Fulfilled(v) <==>
      && stdinAvailable
      && (exists k :: 0 <= k < |events| && events[k] == Closed(Some(0))
           && (forall j :: 0 <= j < k ==> !Settles(ClaudeRequest, events[j]))
           && v == Trim(Received(events[..k], Stdout)))
  {
    if RequestState(stdinAvailable, events) == Fulfilled(v) {
      var k := RequestFulfilledAt(stdinAvailable, events, v);
      assert 0 <= k < |events| && events[k] == Closed(Some(0))
        && (forall j :: 0 <= j < k ==> !Settles(ClaudeRequest, events[j]))
        && v == Trim(Received(events[..k], Stdout));
    }
    if stdinAvailable
       && (exists k :: 0 <= k < |events| && events[k] == Closed(Some(0))
             && (forall j :: 0 <= j < k ==> !Settles(ClaudeRequest, events[j]))
             && v == Trim(Received(events[..k], Stdout))) {
      var k :| 0 <= k < |events| && events[k] == Closed(Some(0))
        && (forall j :: 0 <= j < k ==> !Settles(ClaudeRequest, events[j]))
        && v == Trim(Received(events[..k], Stdout));
      RequestClosesAt(events, k);
      var out, err := Received(events[..k], Stdout), Received(events[..k], Stderr);
      assert RequestReaction(events[k], out, err) == Fulfilled(v);
    }
  }

  /** A fulfilled request was fulfilled by the first settling event, a
      'close' with code 0. */
  lemma RequestFulfilledAt(stdinAvailable: bool, events: seq<ChildEvent>, v: string) returns (k: nat)
    requires RequestState(stdinAvailable, events) == Fulfilled(v)
    ensures stdinAvailable
    ensures k < |events| && events[k] == Closed(Some(0))
    ensures forall j :: 0 <= j < k ==> !Settles(ClaudeRequest, events[j])
    ensures v == Trim(Received(events[..k], Stdout))
  {
    k := FirstSettling(ClaudeRequest, events);
  }

  /** A first-settling 'close' decides the request from the text received
      before it. */
  lemma RequestClosesAt(events: seq<ChildEvent>, k: nat)
    requires k < |events| && events[k].Closed?
    requires forall j :: 0 <= j < k ==> !Settles(ClaudeRequest, events[j])
    ensures RequestState(true, events)
         == RequestReaction(events[k], Received(events[..k], Stdout), Received(events[..k], Stderr))
  {
    FirstSettlingAt(ClaudeRequest, events, k);
  }

  /** A non-zero or null exit code that comes first rejects the request
      with `Claude CLI failed with exit code ${code}: ${stderr}`, and that
      code and the complete stderr text can be read back from the message. */
  lemma RequestExitFailure(events: seq<ChildEvent>, k: nat)
    requires k < |events| && events[k].Closed? && events[k].code != Some(0)
    requires forall j :: 0 <= j < k ==> !Settles(ClaudeRequest, events[j])
    ensures RequestState(true, events)
         == Rejected(ExitMessage(ExitPrefix, events[k].code, Received(events[..k], Stderr)))
    ensures forall c, e :: ExitMessage(ExitPrefix, c, e)
                           == ExitMessage(ExitPrefix, events[k].code, Received(events[..k], Stderr)) ==>
      c == events[k].code && e == Received(events[..k], Stderr)
  {
    RequestClosesAt(events, k);
    var code, err := events[k].code, Received(events[..k], Stderr);
    forall c, e | ExitMessage(ExitPrefix, c, e) == ExitMessage(ExitPrefix, code, err)
      ensures c == code && e == err
    {
      ExitMessageInjective(ExitPrefix, c, e, code, err);
    }
  }

  /** Once the request has settled, later events (more output, a second
      'close' or 'error') change nothing. */
  lemma RequestSettledIsFinal(stdinAvailable: bool, events: seq<ChildEvent>, later: seq<ChildEvent>)
    requires RequestState(stdinAvailable, events) != Pending
    ensures RequestState(stdinAvailable, events + later) == RequestState(stdinAvailable, events)
  {
    if stdinAvailable {
      var k := FirstSettling(ClaudeRequest, events);
      FirstSettlingAppend(ClaudeRequest, events, later);
      assert (events + later)[k] == events[k];
      assert (events + later)[..k] == events[..k];
    }
  }

  /** The execution timeout is disabled: however many events arrive,
      including timer callbacks of other code, a child that produces
      neither 'close' nor 'error' leaves the request pending. */
  lemma RequestCanWaitForever(events: seq<ChildEvent>)
    requires forall j :: 0 <= j < |events| ==> !events[j].Closed? && !events[j].Errored?
    ensures RequestState(true, events) == Pending
  {
  }

  /** A child that writes its answer in any number of chunks and then
      exits with 0 yields the trimmed concatenation of the stdout chunks. */
  lemma {:induction false} RequestSucceedsAfterOutput(events: seq<ChildEvent>)
    requires forall j :: 0 <= j < |events| ==> !Settles(ClaudeRequest, events[j])
    ensures RequestState(true, events + [Closed(Some(0))]) == Fulfilled(Trim(Received(events, Stdout)))
  {
    var all := events + [Closed(Some(0))];
    FirstSettlingAt(ClaudeRequest, all, |events|);
    assert all[..|events|] == events;
  }

  /** A spawn 'error' arriving first rejects with the error's message. */
  lemma RequestErrorRejects(events: seq<ChildEvent>, k: nat)
    requires k < |events| && events[k].Errored?
    requires forall j :: 0 <= j < k ==> !Settles(ClaudeRequest, events[j])
    ensures RequestState(true, events) == Rejected(ErrorPrefix + events[k].message)
  {
    FirstSettlingAt(ClaudeRequest, events, k);
  }

  /** Without a stdin stream the request is rejected, whatever the child does. */
  lemma RequestWithoutStdin(events: seq<ChildEvent>)
    ensures RequestState(false, events) == Rejected(StdinMissing)
  {
  }

  /** A child that prints "Summary: ok" and a newline, then exits with 0,
      answers "Summary: ok". */
  lemma RequestSummaryExample()
    ensures RequestState(true, [Spawned, Data(Stdout, "Summary: ok\n"), Closed(Some(0))])
         == Fulfilled("Summary: ok")
  {
    var before := [Spawned, Data(Stdout, "Summary: ok\n")];
    assert before + [Closed(Some(0))] == [Spawned, Data(Stdout, "Summary: ok\n"), Closed(Some(0))];
    RequestSucceedsAfterOutput(before);
    SummaryReceived(before);
    SummaryTrimmed();
  }

  lemma SummaryReceived(before: seq<ChildEvent>)
    requires before == [Spawned, Data(Stdout, "Summary: ok\n")]
    ensures Received(before, Stdout) == "Summary: ok\n"
  {
    assert before == [Spawned] + [Data(Stdout, "Summary: ok\n")];
    ReceivedStep([Spawned], Data(Stdout, "Summary: ok\n"));
    assert [Spawned] == [] + [Spawned];
    ReceivedStep([], Spawned);
  }

  lemma SummaryTrimmed()
    ensures Trim("Summary: ok\n") == "Summary: ok"
  {
    var answer := "Summary: ok";
    assert "Summary: ok\n" == "" + answer + "\n";
    assert AllWhitespace("\n");
    assert answer[0] == 'S' && answer[|answer| - 1] == 'k';
    TrimUnique("Summary: ok\n", "", answer, "\n");
  }
}
