/**
 * The liveness probe run on every candidate executable: spawn it with
 * `--version`, and settle a promise on the first of 'close', 'error' or
 * the 5000 ms timer. Only an exit code 0 that comes first fulfils it.
 */
module Liveness {

  import opened Wrappers
  import opened Promises
  import opened ChildEvents

  const TimeoutReason := "Test timeout"
  const ExitPrefix := "Test failed with exit code "

  /** What the probe's listener for `e` passes to resolve or reject
      (`Pending` for an event it has no settling listener for). A spawn
      error is passed on as it is, so the reason is its own message. */
  function ProbeReaction(e: ChildEvent): (r: Settlement<()>)
    ensures r.Pending? <==> !Settles(VersionProbe, e)
    ensures r.Fulfilled? <==> e == Closed(Some(0))
    ensures e.Errored? ==> r == Rejected(e.message)
  {
    match e
    case Closed(code) => if code == Some(0) then Fulfilled(()) else Rejected(ExitPrefix + CodeText(code))
    case Errored(m) => Rejected(m)
    case TimerFired => Rejected(TimeoutReason)
    case _ => Pending
  }

  /** The probe's promise once `events` have been delivered. */
  function ProbeState(events: seq<ChildEvent>): Settlement<()> {
    var k := FirstSettling(VersionProbe, events);
    if k == |events| then Pending else ProbeReaction(events[k])
  }

  /** The outcome of probing a child whose events are `events`. The timer
      is armed unconditionally and never cleared, so a probe that nothing
      else settled is rejected by the timer: the probe always settles. */
  function ProbeOutcome(events: seq<ChildEvent>): (r: Settlement<()>)
    ensures r != Pending
    ensures (forall j :: 0 <= j < |events| ==> !Settles(VersionProbe, events[j])) ==> r == Rejected(TimeoutReason)
  {
    var st := ProbeState(events);
    if st.Pending? then Rejected(TimeoutReason) else st
  }

  /** The candidate is accepted as a working executable. */
  predicate Passes(events: seq<ChildEvent>) {
    ProbeOutcome(events).Fulfilled?
  }

  /** The probe passes exactly when a 'close' with code 0 is the first
      settling event: a non-zero or null code, an 'error' or the timer
      arriving first makes it fail. */
  lemma PassesIff(events: seq<ChildEvent>)
    ensures Passes(events) <==>
      exists k :: 0 <= k < |events| && events[k] == Closed(Some(0))
        && forall j :: 0 <= j < k ==> !Settles(VersionProbe, events[j])
  {
    var f := FirstSettling(VersionProbe, events);
    if Passes(events) {
      assert events[f] == Closed(Some(0));
    }
    if exists k :: 0 <= k < |events| && events[k] == Closed(Some(0))
        && forall j :: 0 <= j < k ==> !Settles(VersionProbe, events[j]) {
      var k :| 0 <= k < |events| && events[k] == Closed(Some(0))
        && forall j :: 0 <= j < k ==> !Settles(VersionProbe, events[j]);
      FirstSettlingAt(VersionProbe, events, k);
    }
  }

  /** Once the probe has settled, later events do not change its outcome. */
  lemma ProbeSettledIsFinal(events: seq<ChildEvent>, later: seq<ChildEvent>)
    requires ProbeState(events) != Pending
    ensures ProbeState(events + later) == ProbeState(events)
    ensures ProbeOutcome(events + later) == ProbeOutcome(events)
  {
    var k := FirstSettling(VersionProbe, events);
    FirstSettlingAppend(VersionProbe, events, later);
    assert (events + later)[k] == events[k];
  }

  /** One more event changes a pending probe into what its listener
      decides, and a settled one not at all. */
  lemma ProbeStateStep(events: seq<ChildEvent>, e: ChildEvent)
    ensures ProbeState(events + [e])
         == if ProbeState(events) != Pending then ProbeState(events) else ProbeReaction(e)
  {
    FirstSettlingStep(VersionProbe, events, e);
    var k := FirstSettling(VersionProbe, events);
    if k < |events| {
      assert (events + [e])[k] == events[k];
    }
  }

  /** The probe's listeners receiving one event: 'close', 'error' and the
      timer callback call resolve or reject; output is ignored. */
  method Listen(p: Promise<()>, e: ChildEvent)
    modifies p
    ensures p.state == if old(p.state) != Pending then old(p.state) else ProbeReaction(e)
  {
    match e
    case Closed(code) =>
      if code == Some(0) {
        p.Resolve(());
      } else {
        p.Reject(ExitPrefix + CodeText(code));
      }
    case Errored(m) =>
      p.Reject(m);
    case TimerFired =>
      // the callback kills the child, then rejects
      p.Reject(TimeoutReason);
    case Spawned =>
    case Data(_, _) =>
  }

  /** `testClaudePath`: delivers the child's events to the listeners in
      order, then lets the timer fire if it has not already. */
  method TestClaudePath(events: seq<ChildEvent>) returns (outcome: Settlement<()>)
    ensures outcome == ProbeOutcome(events)
  {
    var p := new Promise<()>();
    for i := 0 to |events|
      invariant p.state == ProbeState(events[..i])
    {
      assert events[..i + 1] == events[..i] + [events[i]];
      ProbeStateStep(events[..i], events[i]);
      Listen(p, events[i]);
    }
    assert events[..|events|] == events;
    if p.state.Pending? {
      // nothing settled, so the timer has not fired yet; it will
      p.Reject(TimeoutReason);
    }
    outcome := p.state;
  }
}
