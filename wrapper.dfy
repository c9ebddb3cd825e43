/**
 * The wrapper object: it owns the configuration, loads it or falls back to
 * the defaults, merges each request's options into it, and builds the
 * httrack command from it one option at a time.
 */
module Wrapper {
  import opened Wrappers
  import opened Strings
  import opened Config
  import opened Command
  import SiteAnalyzer

  /** The configuration in effect after loading: the persisted one if there is a file, else the defaults. */
  function LoadedConfig(persisted: Option<Configuration>): Configuration
  {
    if persisted.Some? then persisted.value else DefaultConfig()
  }

  /** What the download handler answers. */
  datatype DownloadResponse =
    | NeedsAuth(loginUrl: string)
    | Starting(command: string)
    | ServerError(error: CommandError)

  /**
   * The answer to one download request once the configuration holds the
   * merged options: a login prompt if the analyzer asks for one, else the
   * command, or the error rendering it raised.
   */
  function Respond(config: Configuration, url: string, output: string,
                   fetch: SiteAnalyzer.FetchResult, auth: Option<Cookies>): DownloadResponse
  {
    var verdict := SiteAnalyzer.CheckLoginRequired(url, fetch);
    if verdict.0 then NeedsAuth(verdict.1)
    else match CommandLine(config, url, output, auth)
      case Ok(command) => Starting(command)
      case Err(e) => ServerError(e)
  }

  class HTTrackWrapper {
    var config: Configuration

    /** Start from the persisted configuration, or from the defaults when there is none. */
    constructor (persisted: Option<Configuration>)
      ensures config == LoadedConfig(persisted)
    {
      config := LoadedConfig(persisted);
    }

    /** Reload the configuration: the persisted one if present, else the defaults. */
    method LoadConfig(persisted: Option<Configuration>)
      modifies this
      ensures config == LoadedConfig(persisted)
    {
      if persisted.Some? {
        config := persisted.value;
      } else {
        config := DefaultConfig();
      }
    }

    /** `self.config.update(options)`, returning what is then written back to the file. */
    method MergeOptions(options: Configuration) returns (saved: Configuration)
      modifies this
      ensures config == Merged(old(config), options)
      ensures saved == config
    {
      config := config + options;
      saved := config;
    }

    /**
     * Build the command option by option, looking each option up in the
     * order the source does; the configuration is only read.
     */
    method GenerateCommand(url: string, output: string, auth: Option<Cookies>)
      returns (r: Result<string, CommandError>)
      ensures r == CommandLine(config, url, output, auth)
    {
      if "user_agent" !in config {
        FirstMissingRequired(config);
        return Err(MissingKey("user_agent"));
      }
      if "max_depth" !in config {
        FirstMissingRequired(config);
        return Err(MissingKey("max_depth"));
      }
      if "max_external_depth" !in config {
        FirstMissingRequired(config);
        return Err(MissingKey("max_external_depth"));
      }
      if "max_size" !in config {
        FirstMissingRequired(config);
        return Err(MissingKey("max_size"));
      }
      var options := [
        "-O \"" + output + "\"",
        "--user-agent \"" + Render(config["user_agent"]) + "\"",
        "-r" + Render(config["max_depth"]),
        "-m" + Render(config["max_external_depth"]),
        "-M" + Render(config["max_size"])
      ];
      ghost var mandatory := options;
      if "robots" !in config {
        FirstMissingRequired(config);
        return Err(MissingKey("robots"));
      }
      if !Truthy(config["robots"]) {
        options := options + ["-s0"];
      }
      ghost var robots := FlagIf("-s0", !Truthy(config["robots"]));
      assert options == mandatory + robots;
      if "cookies" !in config {
        FirstMissingRequired(config);
        return Err(MissingKey("cookies"));
      }
      if Truthy(config["cookies"]) {
        options := options + ["-b0"];
      }
      ghost var cookies := FlagIf("-b0", Truthy(config["cookies"]));
      assert options == mandatory + robots + cookies;
      if "update" !in config {
        FirstMissingRequired(config);
        return Err(MissingKey("update"));
      }
      if Truthy(config["update"]) {
        options := options + ["-u"];
      }
      ghost var update := FlagIf("-u", Truthy(config["update"]));
      assert options == mandatory + robots + cookies + update;
      if "continue" !in config {
        FirstMissingRequired(config);
        return Err(MissingKey("continue"));
      }
      if Truthy(config["continue"]) {
        options := options + ["-c"];
      }
      ghost var cont := FlagIf("-c", Truthy(config["continue"]));
      assert options == mandatory + robots + cookies + update + cont;
      if auth.Some? && auth.value != [] {
        options := options + ["--cookies \"" + CookieString(auth.value) + "\""];
      }
      assert options == mandatory + robots + cookies + update + cont + CookieOption(auth);
      OptionsAssembled(config, output, auth, mandatory);
      CompleteCommand(config, url, output, auth);
      r := Ok("httrack " + url + " " + Join(options, " "));
    }

    /**
     * The download handler: merge the request's options and save them,
     * ask the analyzer about the URL, and answer with a login prompt or
     * with the command.
     */
    method StartDownload(url: string, output: string, options: Configuration,
                         fetch: SiteAnalyzer.FetchResult, auth: Option<Cookies>)
      returns (response: DownloadResponse, saved: Configuration)
      modifies this
      ensures config == Merged(old(config), options) && saved == config
      ensures response == Respond(config, url, output, fetch, auth)
    {
      saved := MergeOptions(options);
      var verdict := SiteAnalyzer.CheckLoginRequired(url, fetch);
      if verdict.0 {
        response := NeedsAuth(verdict.1);
        return;
      }
      var command := GenerateCommand(url, output, auth);
      match command {
        case Ok(c) => response := Starting(c);
        case Err(e) => response := ServerError(e);
      }
    }
  }

  lemma AppendAssoc(m: seq<string>, a: seq<string>, b: seq<string>, c: seq<string>, d: seq<string>, e: seq<string>)
    ensures m + a + b + c + d + e == m + (a + b + c + d) + e
  {
  }

  /** The options as the builder appends them, one piece at a time, are the options of the command. */
  lemma OptionsAssembled(config: Configuration, output: string, auth: Option<Cookies>, mandatory: seq<string>)
    requires HasRequiredKeys(config)
    requires mandatory == MandatoryOptions(config, output)
    ensures mandatory + FlagIf("-s0", !Truthy(config["robots"])) + FlagIf("-b0", Truthy(config["cookies"]))
              + FlagIf("-u", Truthy(config["update"])) + FlagIf("-c", Truthy(config["continue"])) + CookieOption(auth)
         == Options(config, output, auth)
  {
    AppendAssoc(mandatory, FlagIf("-s0", !Truthy(config["robots"])), FlagIf("-b0", Truthy(config["cookies"])),
                FlagIf("-u", Truthy(config["update"])), FlagIf("-c", Truthy(config["continue"])), CookieOption(auth));
  }

  /**
   * The options the form posts (all but the user agent) merged into any
   * configuration that has a user agent leave a complete configuration:
   * the command then always renders, from the posted values.
   */
  lemma FormOptionsComplete(config: Configuration, options: Configuration, url: string, output: string,
                            auth: Option<Cookies>)
    requires "user_agent" in config
    requires "max_depth" in options && "max_external_depth" in options && "max_size" in options
    requires "robots" in options && "cookies" in options && "update" in options && "continue" in options
    ensures CommandLine(Merged(config, options), url, output, auth).Ok?
    ensures Options(Merged(config, options), output, auth)[2] == "-r" + Render(options["max_depth"])
  {
    CommandFailsOnMissingKey(Merged(config, options), url, output, auth);
  }

  /** A freshly created wrapper with no configuration file renders the default command. */
  lemma FreshWrapperCommand(url: string, output: string)
    ensures CommandLine(LoadedConfig(None), url, output, None).Ok?
    ensures HasRequiredKeys(LoadedConfig(None))
  {
    DefaultCommand(url, output);
  }
}
