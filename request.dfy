/**
 * What `executeClaudeCommand` hands to the operating system: the prompt
 * written to the child's standard input, the child's environment with an
 * augmented search path, and the fixed command line.
 */
module Request {

  import opened Wrappers
  import opened Delimited

  /** Put between the note and the question. */
  const Separator := "\n\n---------\n\n"

  /** `${noteContent}\n\n---------\n\n${question}`: the note, the
      separator and the question, each unaltered and in that order. */
  function Prompt(noteContent: string, question: string): (p: string)
    ensures |p| == |noteContent| + |Separator| + |question|
    ensures p[..|noteContent|] == noteContent
    ensures p[|noteContent|..|noteContent| + |Separator|] == Separator
    ensures p[|noteContent| + |Separator|..] == question
    ensures p[|p| - |question|..] == question
  {
    var p := noteContent + Separator + question;
    assert p[..|noteContent|] == noteContent;
    assert p[|noteContent| + |Separator|..] == question;
    p
  }

  /** The connection test sends an empty note: the child then reads the
      13-character separator followed by the question. */
  lemma PromptOfEmptyNote(question: string)
    ensures Prompt("", question) == Separator + question
    ensures |Prompt("", question)| == 13 + |question|
  {
    assert "" + Separator == Separator;
  }

  // Installation directories put in front of the inherited search path.
  const HomebrewBin := "/opt/homebrew/bin"
  const UsrLocalBin := "/usr/local/bin"
  // written in three pieces so that the verifier can see it has no ':'
  const MiseNodeBin := "/Users/kazuph" + "/.local/share/mise" + "/installs/node/20.18.2/bin"
  const FixedPathDirs: seq<string> := [HomebrewBin, UsrLocalBin, MiseNodeBin]

  /** The fixed directories joined by ':'. */
  const FixedPath := HomebrewBin + ":" + UsrLocalBin + ":" + MiseNodeBin

  /** `[HomebrewBin, UsrLocalBin, MiseNodeBin, process.env.PATH].filter(Boolean).join(':')`,
      where the inherited PATH may be undefined. The fixed directories come
      first; a truthy inherited PATH follows whole, after one more ':', and
      otherwise nothing follows. */
  function AugmentedPath(inherited: Option<string>): (r: string)
    ensures |FixedPath| <= |r| && r[..|FixedPath|] == FixedPath
    ensures Truthy(inherited) ==> |r| == |FixedPath| + 1 + |inherited.value| && r[|FixedPath|] == ':'
    ensures Truthy(inherited) ==> r[|r| - |inherited.value|..] == inherited.value
    ensures !Truthy(inherited) ==> r == FixedPath
  {
    var r := Join(FilterTruthy([Some(HomebrewBin), Some(UsrLocalBin), Some(MiseNodeBin), inherited]), ":");
    FilteredDirsJoin(inherited);
    assert r[..|FixedPath|] == FixedPath;
    r
  }

  /** The join of the filtered directory list, worked out. */
  lemma FilteredDirsJoin(inherited: Option<string>)
    ensures Join(FilterTruthy([Some(HomebrewBin), Some(UsrLocalBin), Some(MiseNodeBin), inherited]), ":")
         == FixedPath + (if Truthy(inherited) then ":" + inherited.value else "")
    ensures Join(FixedPathDirs, ":") == FixedPath
  {
    var fixed := [Some(HomebrewBin), Some(UsrLocalBin), Some(MiseNodeBin)];
    assert [Some(HomebrewBin), Some(UsrLocalBin), Some(MiseNodeBin), inherited] == fixed + [inherited];
    FilterTruthyAppend(fixed, [inherited]);
    assert FilterTruthy(fixed[2..]) == [MiseNodeBin] by {
      assert fixed[2..][1..] == [];
    }
    assert FilterTruthy(fixed[1..]) == [UsrLocalBin, MiseNodeBin] by {
      assert fixed[1..][1..] == fixed[2..];
    }
    assert FilterTruthy(fixed) == FixedPathDirs;
    assert FixedPathDirs[..2] == [HomebrewBin, UsrLocalBin];
    assert FixedPathDirs[..2][..1] == [HomebrewBin];
    assert Join(FixedPathDirs[..2], ":") == HomebrewBin + ":" + UsrLocalBin;
    if Truthy(inherited) {
      var parts := FixedPathDirs + [inherited.value];
      assert parts[..3] == FixedPathDirs;
    } else {
      assert FilterTruthy([inherited]) == [];
      assert FixedPathDirs + [] == FixedPathDirs;
    }
  }

  /** The fixed directories come first, in order; the inherited PATH
      follows whole after one more ':', and is dropped only when undefined
      or empty. It is extended, never replaced. */
  lemma AugmentedPathShape(inherited: Option<string>)
    ensures AugmentedPath(inherited)
         == Join(FixedPathDirs, ":") + (if Truthy(inherited) then ":" + inherited.value else "")
    ensures Join(FixedPathDirs, ":") == HomebrewBin + ":" + UsrLocalBin + ":" + MiseNodeBin
  {
    FilteredDirsJoin(inherited);
  }

  /** None of the fixed directories contains the PATH separator. */
  lemma FixedDirsHaveNoColon()
    ensures forall i :: 0 <= i < |FixedPathDirs| ==> ':' !in FixedPathDirs[i]
  {
    assert ':' !in HomebrewBin && ':' !in UsrLocalBin;
    assert ':' !in MiseNodeBin;
  }

  /** Read back as a list of directories, the child's PATH is the three
      fixed directories followed by every entry of the inherited PATH, in
      their original order. */
  lemma AugmentedPathEntries(inherited: Option<string>)
    ensures Split(AugmentedPath(inherited), ':')
         == FixedPathDirs + (if Truthy(inherited) then Split(inherited.value, ':') else [])
  {
    AugmentedPathShape(inherited);
    FixedDirsHaveNoColon();
    if Truthy(inherited) {
      assert Join(FixedPathDirs, ":") + (":" + inherited.value) == Join(FixedPathDirs, [':']) + [':'] + inherited.value;
      SplitJoinThen(FixedPathDirs, inherited.value, ':');
    } else {
      assert Join(FixedPathDirs, ":") + "" == Join(FixedPathDirs, [':']);
      SplitJoin(FixedPathDirs, ':');
      assert FixedPathDirs + [] == FixedPathDirs;
    }
  }

  /** `{ ...process.env, PATH: AugmentedPath(process.env.PATH) }`. */
  function ChildEnv(parent: map<string, string>): (env: map<string, string>)
    ensures env.Keys == parent.Keys + {"PATH"}
    ensures forall k :: k in parent && k != "PATH" ==> env[k] == parent[k]
    ensures env["PATH"] == AugmentedPath(if "PATH" in parent then Some(parent["PATH"]) else None)
  {
    parent["PATH" := AugmentedPath(if "PATH" in parent then Some(parent["PATH"]) else None)]
  }

  /** The command line actually spawned: node runs the CLI script in
      non-interactive print mode. The prompt is not an argument; it goes
      through standard input. */
  const NodeCommand := "/opt/homebrew/bin/node"
  const ClaudeCliScript := "/Users/kazuph/.claude/local/node_modules/@anthropic-ai/claude-code/cli.js"
  const ClaudeArgs: seq<string> := [ClaudeCliScript, "--verbose", "--print"]

  /** The arguments of `spawn`: command, arguments, environment and working
      directory; all three standard streams are pipes. */
  datatype SpawnRequest = SpawnRequest(command: string, args: seq<string>, env: map<string, string>, cwd: string)

  /** The spawn request of `executeClaudeCommand`: node runs the CLI script
      in print mode, in the user's home directory, with the parent's
      environment except for the augmented PATH. Nothing in it depends on
      the path the search resolved. */
  function ClaudeSpawn(parentEnv: map<string, string>, homeDir: string): (r: SpawnRequest)
    ensures r.command == NodeCommand
    ensures |r.args| == 3 && r.args[0] == ClaudeCliScript && r.args[1..] == ["--verbose", "--print"]
    ensures r.cwd == homeDir
    ensures r.env.Keys == parentEnv.Keys + {"PATH"}
    ensures forall k :: k in parentEnv && k != "PATH" ==> r.env[k] == parentEnv[k]
    ensures r.env["PATH"] == AugmentedPath(if "PATH" in parentEnv then Some(parentEnv["PATH"]) else None)
  {
    SpawnRequest(NodeCommand, ClaudeArgs, ChildEnv(parentEnv), homeDir)
  }
}
