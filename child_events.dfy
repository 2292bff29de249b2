/**
 * A spawned child process as the core observes it: an ordered trace of the
 * events its listeners receive. Output arrives in chunks on two streams;
 * the promise each caller builds around the child is settled by the first
 * event that has a settling listener, and that choice depends on which
 * timers the caller armed.
 */
module ChildEvents {

  import opened Wrappers
  import JsNumber

  datatype Stream = Stdout | Stderr

  datatype ChildEvent =
    | Spawned                             // the 'spawn' event
    | Data(stream: Stream, chunk: string) // a decoded 'data' chunk on stdout or stderr
    | Closed(code: Option<int>)           // 'close'; the code is null after a kill by signal
    | Errored(message: string)            // 'error', e.g. the executable could not be started
    | TimerFired                          // the caller's own setTimeout callback ran

  /** The text stream `s` has delivered: each data listener does
      `acc += chunk`, starting from the empty string. */
  function Received(events: seq<ChildEvent>, s: Stream): string {
    if events == [] then ""
    else Received(events[..|events| - 1], s) + ChunkOn(events[|events| - 1], s)
  }

  /** What one event appends to the accumulator of stream `s`. */
  function ChunkOn(e: ChildEvent, s: Stream): string {
    if e.Data? && e.stream == s then e.chunk else ""
  }

  /** Accumulation distributes over concatenation of traces: the text is
      the in-order concatenation of the stream's own chunks, wherever the
      chunk boundaries fall. */
  lemma {:induction false} ReceivedAppend(a: seq<ChildEvent>, b: seq<ChildEvent>, s: Stream)
    ensures Received(a + b, s) == Received(a, s) + Received(b, s)
  {
    if b == [] {
      assert a + b == a;
    } else {
      var b' := b[..|b| - 1];
      assert (a + b)[..|a + b| - 1] == a + b';
      assert (a + b)[|a + b| - 1] == b[|b| - 1];
      ReceivedAppend(a, b', s);

    }
  }

  /** Delivering one event appends its chunk to its own stream's text and
      leaves the other stream's text as it was. */
  lemma ReceivedStep(events: seq<ChildEvent>, e: ChildEvent)
    ensures Received(events + [e], Stdout) == Received(events, Stdout) + ChunkOn(e, Stdout)
    ensures Received(events + [e], Stderr) == Received(events, Stderr) + ChunkOn(e, Stderr)
  {
    assert (events + [e])[..|events|] == events;
  }

  /** A two-event trace delivers its two chunks in order. */
  lemma ReceivedPair(e1: ChildEvent, e2: ChildEvent, s: Stream)
    ensures Received([e1, e2], s) == ChunkOn(e1, s) + ChunkOn(e2, s)
  {
    assert [e1, e2][..1] == [e1];
    assert [e1][..0] == [];
    assert Received([e1], s) == "" + ChunkOn(e1, s) == ChunkOn(e1, s);
    assert [e1, e2][1] == e2;
  }

  /** The two accumulators are independent: swapping two adjacent chunks
      of different streams changes neither of them. */
  lemma ReceivedSwapStreams(a: seq<ChildEvent>, c1: string, c2: string, b: seq<ChildEvent>, s: Stream)
    ensures Received(a + [Data(Stdout, c1), Data(Stderr, c2)] + b, s)
         == Received(a + [Data(Stderr, c2), Data(Stdout, c1)] + b, s)
  {
    var e1, e2 := Data(Stdout, c1), Data(Stderr, c2);
    ReceivedAppend(a + [e1, e2], b, s);
    ReceivedAppend(a, [e1, e2], s);
    ReceivedPair(e1, e2, s);
    ReceivedAppend(a + [e2, e1], b, s);
    ReceivedAppend(a, [e2, e1], s);
    ReceivedPair(e2, e1, s);
    if s == Stdout {
      assert ChunkOn(e2, s) == "";
    } else {
      assert ChunkOn(e1, s) == "";
    }
  }

  /** Which caller built the promise around the child: the `--version`
      liveness probe (5000 ms timer), the request to the assistant CLI (no
      timer) or a debug command from the settings tab (10000 ms timer). */
  datatype RunKind = VersionProbe | ClaudeRequest | DebugCommand

  /** Whether the caller's listener for `e` calls resolve or reject. Every
      'close' and 'error' listener settles; a timer callback settles only
      where a timer was armed. */
  predicate Settles(kind: RunKind, e: ChildEvent) {
    e.Closed? || e.Errored? || (e.TimerFired? && kind != ClaudeRequest)
  }

  /** The index of the first settling event, or `|events|` if there is none. */
  function FirstSettling(kind: RunKind, events: seq<ChildEvent>): (k: nat)
    ensures k <= |events|
    ensures forall j :: 0 <= j < k ==> !Settles(kind, events[j])
    ensures k < |events| ==> Settles(kind, events[k])
  {
    if events == [] then 0
    else
      var k := FirstSettling(kind, events[..|events| - 1]);
      if k < |events| - 1 then k
      else if Settles(kind, events[|events| - 1]) then |events| - 1
      else |events|
  }

  /** Delivering one more event moves the first settling index only while
      nothing has settled yet. */
  lemma FirstSettlingStep(kind: RunKind, events: seq<ChildEvent>, e: ChildEvent)
    ensures FirstSettling(kind, events + [e])
         == if FirstSettling(kind, events) < |events| then FirstSettling(kind, events)
            else if Settles(kind, e) then |events| else |events| + 1
  {
    assert (events + [e])[..|events|] == events;
  }

  /** Events delivered after the first settling one do not move it. */
  lemma FirstSettlingAppend(kind: RunKind, a: seq<ChildEvent>, b: seq<ChildEvent>)
    requires FirstSettling(kind, a) < |a|
    ensures FirstSettling(kind, a + b) == FirstSettling(kind, a)
  {
    var k := FirstSettling(kind, a);
    assert (a + b)[k] == a[k];
    assert forall j :: 0 <= j < k ==> (a + b)[j] == a[j];
  }

  /** A settling event at `k` with none before it is the first settling event. */
  lemma FirstSettlingAt(kind: RunKind, events: seq<ChildEvent>, k: nat)
    requires k < |events| && Settles(kind, events[k])
    requires forall j :: 0 <= j < k ==> !Settles(kind, events[j])
    ensures FirstSettling(kind, events) == k
  {
  }

  /** `${code}` for an exit code that is a number or null: "null", or the
      decimal rendering, which never contains ':'. */
  function CodeText(code: Option<int>): (t: string)
    ensures |t| > 0 && ':' !in t
    ensures t == "null" <==> code.None?
  {
    match code
    case None => "null"
    case Some(n) =>
      var t := JsNumber.IntToString(n);
      assert forall i :: 0 <= i < |t| ==> t[i] == '-' || JsNumber.IsDigit(t[i]);
      assert t[0] != 'n';
      t
  }

  /** The message of an error raised for a non-zero exit:
      `${prefix}${code}: ${detail}`. */
  function ExitMessage(prefix: string, code: Option<int>, detail: string): string {
    prefix + CodeText(code) + ": " + detail
  }

  lemma CodeTextInjective(c1: Option<int>, c2: Option<int>)
    requires CodeText(c1) == CodeText(c2)
    ensures c1 == c2
  {
    if c1.Some? && c2.Some? {
      JsNumber.IntToStringInjective(c1.value, c2.value);
    }
  }

  /** The exit message carries its code and its detail text in full: both
      can be read back from it. */
  lemma {:induction false} ExitMessageInjective(prefix: string, c1: Option<int>, d1: string, c2: Option<int>, d2: string)
    requires ExitMessage(prefix, c1, d1) == ExitMessage(prefix, c2, d2)
    ensures c1 == c2 && d1 == d2
  {
    var t1, t2 := CodeText(c1), CodeText(c2);
    var m := ExitMessage(prefix, c1, d1);
    assert m == prefix + (t1 + ": " + d1) && m == prefix + (t2 + ": " + d2);
    var u := m[|prefix|..];
    assert u == t1 + ": " + d1 && u == t2 + ": " + d2;
    assert u[|t1|] == ':' && u[|t2|] == ':';
    assert forall i :: 0 <= i < |t1| ==> u[i] == t1[i];
    assert forall i :: 0 <= i < |t2| ==> u[i] == t2[i];
    assert |t1| == |t2|;
    assert t1 == u[..|t1|] == t2;
    CodeTextInjective(c1, c2);
    assert d1 == u[|t1| + 2..] == d2;
  }
}
