/**
 * The plugin object: the configured path from its settings and the path
 * it resolved when it was loaded.
 */
module Plugin {

  import opened Wrappers
  import opened JsText
  import opened PathResolver

  /** A configured path is used as it is when it is neither empty nor the
      default bare name; otherwise the plugin searches. */
  predicate UsesOverride(configured: string) {
    configured != "" && configured != DefaultClaudePath
  }

  class ClaudeAssistantPlugin {
    /** `settings.claudePath`. */
    var settingsClaudePath: string
    /** `this.claudePath`: `null` until resolved, and when nothing was found. */
    var claudePath: Option<string>

    /** The plugin before `onload`, with its settings loaded: the stored
        path, or the default when none was stored. */
    constructor (stored: Option<string>)
      ensures settingsClaudePath == (if stored.Some? then stored.value else DefaultClaudePath)
      ensures claudePath == None
    {
      settingsClaudePath := if stored.Some? then stored.value else DefaultClaudePath;
      claudePath := None;
    }

    /** The path selection of `onload`: an override is trusted without any
        probe; otherwise the result of the search, possibly nothing. */
    method OnLoad(host: Host, homeDir: string)
      modifies this`claudePath
      ensures UsesOverride(settingsClaudePath) ==> claudePath == Some(settingsClaudePath)
      ensures !UsesOverride(settingsClaudePath) ==> IsFirstAccepted(host, PossiblePaths(homeDir), claudePath)
    {
      if settingsClaudePath != "" && settingsClaudePath != DefaultClaudePath {
        claudePath := Some(settingsClaudePath);
      } else {
        claudePath := FindClaudePath(host, homeDir);
      }
    }

    /** The settings tab's text field: it stores the new value and nothing
        else; the resolved path stays as it was until the next load. */
    method SetClaudePathSetting(value: string)
      modifies this`settingsClaudePath
      ensures settingsClaudePath == value
      ensures claudePath == old(claudePath)
    {
      settingsClaudePath := value;
    }
  }

  /** The question modal submits only a question with some character that
      is not whitespace. */
  function CanSubmit(question: string): (ok: bool)
    ensures ok <==> exists i :: 0 <= i < |question| && !IsWhitespace(question[i])
  {
    Trim(question) != ""
  }
}
