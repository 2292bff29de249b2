/**
 * `findClaudePath`: try an ordered list of candidate locations for the
 * assistant CLI and return the first one that exists and passes the
 * liveness probe, or nothing. The bare name `claude` is looked up with
 * `which`; every other candidate is checked with `fs.access`. A failing
 * probe of any kind moves on to the next candidate; nothing is thrown.
 */
module PathResolver {

  import opened Wrappers
  import opened JsText
  import opened Promises
  import opened ChildEvents
  import opened Liveness

  /** The bare command name, which is also the default setting. */
  const DefaultClaudePath := "claude"

  /** The outside world as the search sees it, each probe a total function:
      what `which claude` printed (None when it failed), whether
      `fs.access` succeeds on a path, and the events of `path --version`. */
  datatype Host = Host(
    whichClaude: Option<string>,
    accessible: string -> bool,
    versionRun: string -> seq<ChildEvent>)

  /** The candidates in priority order: the bare name first, then two
      system-wide locations, then four below the home directory. */
  function PossiblePaths(homeDir: string): (ps: seq<string>)
    ensures |ps| == 7
    ensures ps[0] == DefaultClaudePath
    ensures forall i :: 1 <= i < |ps| ==> ps[i] != DefaultClaudePath
    ensures ps[1] == "/usr/local/bin/claude" && ps[2] == "/opt/homebrew/bin/claude"
    ensures forall i :: 3 <= i < |ps| ==> |homeDir| < |ps[i]| && ps[i][..|homeDir|] == homeDir
    ensures ps[3][|homeDir|..] == "/.claude/local/claude"
    ensures ps[4][|homeDir|..] == "/.claude/local/node_modules/.bin/claude"
    ensures ps[5][|homeDir|..] == "/.config/claude/claude"
    ensures ps[6][|homeDir|..] == "/.local/bin/claude"
  {
    var ps := [ DefaultClaudePath,
      "/usr/local/bin/claude",
      "/opt/homebrew/bin/claude",
      homeDir + "/.claude/local/claude",
      homeDir + "/.claude/local/node_modules/.bin/claude",
      homeDir + "/.config/claude/claude",
      homeDir + "/.local/bin/claude" ];
    assert ps[1][0] == '/' && ps[2][0] == '/';
    assert forall i :: 3 <= i < |ps| ==> |ps[i]| > |homeDir| + 6 && ps[i][..|homeDir|] == homeDir;
    ps
  }

  /** The path a single candidate yields when all its probes succeed. For
      the bare name it is the trimmed `which` output, which must not be
      empty; for any other candidate it is the candidate itself, when it is
      accessible. Whatever is yielded passed the liveness probe. */
  function Accept(host: Host, candidate: string): (r: Option<string>)
    ensures r.Some? ==> Passes(host.versionRun(r.value))
    ensures candidate != DefaultClaudePath ==>
      (r.Some? <==> host.accessible(candidate) && Passes(host.versionRun(candidate)))
    ensures candidate != DefaultClaudePath && r.Some? ==> r.value == candidate
    ensures candidate == DefaultClaudePath ==>
      (r.Some? <==> host.whichClaude.Some? && Trim(host.whichClaude.value) != ""
                    && Passes(host.versionRun(Trim(host.whichClaude.value))))
    ensures candidate == DefaultClaudePath && r.Some? ==>
      r.value == Trim(host.whichClaude.value) && r.value != "" && Trimmed(r.value)
  {
    if candidate == DefaultClaudePath then
      match host.whichClaude
      case None => None
      case Some(out) =>
        var resolved := Trim(out);
        if resolved != "" && Passes(host.versionRun(resolved)) then Some(resolved) else None
    else if host.accessible(candidate) && Passes(host.versionRun(candidate)) then Some(candidate)
    else None
  }

  /** The bare name is never returned as it is: it yields a path exactly
      when `which` succeeded with output that is not blank and that output,
      trimmed, passes the probe, and then yields that trimmed output. A
      failing or blank `which` rejects the candidate, so the search
      continues. */
  lemma BareNameNeedsWhich(host: Host)
    ensures Accept(host, DefaultClaudePath).Some? <==>
      && host.whichClaude.Some?
      && Trim(host.whichClaude.value) != ""
      && Passes(host.versionRun(Trim(host.whichClaude.value)))
    ensures Accept(host, DefaultClaudePath).Some? ==>
      Accept(host, DefaultClaudePath) == Some(Trim(host.whichClaude.value))
  {
  }

  /** A working bare name wins the search: when `which` finds a path that
      passes the probe, that path is the result, whatever the other
      candidates give. */
  lemma WorkingBareNameWins(host: Host, homeDir: string, r: Option<string>)
    requires host.whichClaude.Some? && Trim(host.whichClaude.value) != ""
    requires Passes(host.versionRun(Trim(host.whichClaude.value)))
    requires IsFirstAccepted(host, PossiblePaths(homeDir), r)
    ensures r == Some(Trim(host.whichClaude.value))
  {
    EarliestAcceptedWins(host, PossiblePaths(homeDir), 0, r);
  }

  /** `result` is what the first accepted candidate yields, and nothing
      exactly when no candidate is accepted. */
  ghost predicate IsFirstAccepted(host: Host, candidates: seq<string>, result: Option<string>) {
    match result
    case None => forall k :: 0 <= k < |candidates| ==> Accept(host, candidates[k]).None?
    case Some(_) =>
      exists k :: 0 <= k < |candidates| && Accept(host, candidates[k]) == result
        && forall j :: 0 <= j < k ==> Accept(host, candidates[j]).None?
  }

  /** The search result is positional: the same host and candidates admit
      exactly one first-accepted result. */
  lemma FirstAcceptedUnique(host: Host, candidates: seq<string>, r1: Option<string>, r2: Option<string>)
    requires IsFirstAccepted(host, candidates, r1) && IsFirstAccepted(host, candidates, r2)
    ensures r1 == r2
  {
    if r1.Some? && r2.Some? {
      var k1 :| 0 <= k1 < |candidates| && Accept(host, candidates[k1]) == r1
        && forall j :: 0 <= j < k1 ==> Accept(host, candidates[j]).None?;
      var k2 :| 0 <= k2 < |candidates| && Accept(host, candidates[k2]) == r2
        && forall j :: 0 <= j < k2 ==> Accept(host, candidates[j]).None?;
      assert k1 == k2;
    }
  }

  /** A candidate that is accepted after only rejected ones is the result,
      whatever the candidates after it would give. */
  lemma EarliestAcceptedWins(host: Host, candidates: seq<string>, k: nat, r: Option<string>)
    requires k < |candidates| && Accept(host, candidates[k]).Some?
    requires forall j :: 0 <= j < k ==> Accept(host, candidates[j]).None?
    requires IsFirstAccepted(host, candidates, r)
    ensures r == Accept(host, candidates[k])
  {
    assert IsFirstAccepted(host, candidates, Accept(host, candidates[k]));
    FirstAcceptedUnique(host, candidates, r, Accept(host, candidates[k]));
  }

  /** `findClaudePath()`: the for loop over the candidates with an early
      return on the first that passes. */
  method FindClaudePath(host: Host, homeDir: string) returns (path: Option<string>)
    ensures IsFirstAccepted(host, PossiblePaths(homeDir), path)
  {
    var possiblePaths := PossiblePaths(homeDir);
    for i := 0 to |possiblePaths|
      invariant forall j :: 0 <= j < i ==> Accept(host, possiblePaths[j]).None?
    {
      var candidate := possiblePaths[i];
      if candidate == DefaultClaudePath {
        // a failing `which` is caught, and the loop goes on
        if host.whichClaude.Some? {
          var resolved := Trim(host.whichClaude.value);
          if resolved != "" {
            var probe := TestClaudePath(host.versionRun(resolved));
            if probe.Fulfilled? {
              return Some(resolved);
            }
          }
        }
      } else if host.accessible(candidate) {
        var probe := TestClaudePath(host.versionRun(candidate));
        if probe.Fulfilled? {
          return Some(candidate);
        }
      }
    }
    return None;
  }
}
