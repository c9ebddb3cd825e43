# HTTrack wrapper: command builder, configuration and login detection

The HTTrack wrapper is a small web front end for the `httrack` site
mirroring tool. This project models the part of it with real logic:

* **The configuration.** It comes from a file, or from built-in defaults
  (eight options) when there is no file. Each download request's options
  are merged into it, and the option keys are Python dictionary keys.
* **The command builder.** It reads the configuration, one option at a
  time. It emits five mandatory flags (`-O`, `--user-agent`, `-r`, `-m`,
  `-M`), then the switches `-s0`, `-b0`, `-u` and `-c` as their options
  ask, then at most one `--cookies "k=v; ..."` flag taken from saved
  authentication data. Finally it renders `httrack <url> <options joined
  by spaces>`. If an option key is missing, Python raises a `KeyError`
  naming the first missing key read. The model states this as an error
  result carrying that key.
* **The site analyzer.** It fetches a URL once and decides whether the
  site needs a login. It checks in this order, and the first match wins:
  a login-like path in the final, post-redirect URL, a login phrase in
  the page text, and a password field or login form in the markup.
  Any failure to fetch means "no login needed".
* **The download handler.** It merges the request's options, asks the
  analyzer, and answers with a login prompt or with the command.

Module layout:

* `wrappers.dfy` holds `Option` and `Result`.
* `strings.dfy` holds the Python string operations the code relies on:
  `str.join`, substring `in`, ASCII `str.lower` and `str(int)`.
* `config.dfy` holds the configuration values (`str`/`int`/`bool`/`None`
  as f-strings render them and as Python tests their truth), the
  defaults and the merge.
* `command.dfy` holds the command as a pure specification, `CommandLine`,
  with its properties.
* `site_analyzer.dfy` holds the login check. The HTTP fetch and the HTML
  parsing become an input, `FetchResult`: either a failure, or the final
  URL, the page text and the set of CSS selectors that matched.
* `wrapper.dfy` holds the wrapper object. It is a class whose
  configuration field the loader and the merge reassign.
  `GenerateCommand` is the imperative builder, which appends to a list as
  the source does. Its postcondition proves that it computes exactly
  `CommandLine`. Because its result is a function of the configuration
  and the arguments, every call on the same state gives the same answer.

## Model

| member | source | states |
|---|---|---|
| Config.DefaultConfig | httrack-wrapper/main/main.py:26-35 | definition: the literal default dictionary `load_config` installs when there is no configuration file |
| Config.Render | httrack-wrapper/main/main.py:221-225 | definition: `str(v)` as an f-string placeholder renders it: strings verbatim, integers in decimal, booleans as `True`/`False`, `None` |
| Config.RenderedIntReadsBack | httrack-wrapper/main/main.py:223-224 | an integer value renders as non-empty text that reads back as that integer |
| Config.Truthy | httrack-wrapper/main/main.py:228-238 | definition: Python truthiness as `if`/`if not` test it: empty string, zero, `False` and `None` are false, everything else true |
| Config.DefaultConfigKeys | httrack-wrapper/main/main.py:26-35 | the default configuration has exactly the eight keys user_agent, max_depth, max_external_depth, max_size, robots, cookies, update, continue and no others, with values: the Firefox-on-Android user agent, `Int(5)`, `Int(1)`, `Str("10M")`, robots `True`, cookies `True`, update `False`, continue `False` |
| Config.Merged | httrack-wrapper/main/main.py:195 | `dict.update`: the merged keys are the union of both key sets; every overriding key takes the override's value; every other key keeps its old value |
| Config.MergeLastWriteWins | httrack-wrapper/main/main.py:195 | two successive updates equal one update by their merge, and the later request's values win |
| Config.MergeOverridesEarlier | httrack-wrapper/main/main.py:195 | an update whose keys are all overwritten by a later one leaves no trace |
| Config.MergeIdempotent | httrack-wrapper/main/main.py:195 | applying the same request options twice is the same as applying them once |
| Strings.Join | httrack-wrapper/main/main.py:249 | definition: `sep.join(parts)`, the parts in order with one separator between neighbours |
| Strings.Contains | httrack-wrapper/main/main.py:303-308 | Python's `sub in s`: true exactly when `sub` occurs in `s` at some offset |
| Strings.Lower | httrack-wrapper/main/main.py:303-307 | `s.lower()` on ASCII text: same length, each character lowercased in place |
| Strings.ContainsLower | httrack-wrapper/main/main.py:303 | if the final URL contains an indicator in any letter case, its lowercased form contains the lowercase indicator |
| Strings.IntToStringRoundTrip | httrack-wrapper/main/main.py:223-224 | `str(i)` of every integer is non-empty and reads back as `i` |
| Strings.JoinSnoc | httrack-wrapper/main/main.py:246 | appending a part to a non-empty list adds exactly one separator and that part to the joined text |
| Command.CommandLine | httrack-wrapper/main/main.py:218-249 | the pure model of `generate_command`: the `KeyError` it raises, which always names a required key the configuration lacks, or the rendered command |
| Command.FirstMissing | httrack-wrapper/main/main.py:220-238 | no key is reported exactly when all keys are present; a reported key is the first absent key in reading order |
| Command.FirstMissingRequired | httrack-wrapper/main/main.py:220-238 | the builder looks the options up in the order user_agent, max_depth, max_external_depth, max_size, robots, cookies, update, continue, and the first absent one is the `KeyError` |
| Command.CommandFailsOnMissingKey | httrack-wrapper/main/main.py:218-249 | building the command fails if and only if some option is missing, and the failure names the first missing option read |
| Command.CommandLayout | httrack-wrapper/main/main.py:218-249 | the full command text with every option present: `httrack <url> -O "<output>" --user-agent "<ua>" -r<depth> -m<ext> -M<size>`, then ` -s0` iff robots is falsy, ` -b0` iff cookies is truthy, ` -u` iff update is truthy, ` -c` iff continue is truthy, then ` --cookies "<pairs>"` iff the auth data has cookies |
| Command.MandatoryFirst | httrack-wrapper/main/main.py:220-226 | the first five options are, in order, the output directory, the user agent, the depth, the external depth and the size, each quoted or prefixed as written |
| Command.DepthTokensReadBack | httrack-wrapper/main/main.py:223-224 | the third and fourth options start with `-r` and `-m`, and for integer limits the text after the flag reads back as the configured depth and external depth |
| Command.MandatoryAreNotTrailing | httrack-wrapper/main/main.py:220-226 | none of the five mandatory options is one of the switches `-s0`, `-b0`, `-u`, `-c` or the cookie flag |
| Command.SwitchesPresent | httrack-wrapper/main/main.py:228-238 | each of `-s0`, `-b0`, `-u`, `-c` is among the switches exactly when its condition holds |
| Command.SwitchPresence | httrack-wrapper/main/main.py:228-238 | in the whole option list, `-s0` is present iff robots is falsy, `-b0` iff cookies is truthy, `-u` iff update is truthy, `-c` iff continue is truthy |
| Command.SwitchesRanked | httrack-wrapper/main/main.py:228-238 | the switches that are present appear in the order `-s0`, `-b0`, `-u`, `-c` |
| Command.CookieString | httrack-wrapper/main/main.py:246 | definition: the pairs rendered `k=v` and joined by `; ` in the mapping's order |
| Command.CookieStringSnoc | httrack-wrapper/main/main.py:246 | a single pair renders as `k=v`; each further pair appends `; k=v` at the end, so the pairs appear in order, separated by exactly one `; ` |
| Command.CookieOption | httrack-wrapper/main/main.py:245-247 | definition: one `--cookies "<cookie string>"` option when the auth data holds a non-empty cookie mapping, none otherwise |
| Command.CookieTokens | httrack-wrapper/main/main.py:245-247 | at most one cookie flag is emitted, exactly when the auth data holds a non-empty cookie mapping, and it is not a switch |
| Command.TrailingOrder | httrack-wrapper/main/main.py:228-247 | after the five mandatory options the remaining ones strictly follow the order `-s0`, `-b0`, `-u`, `-c`, cookies; the last option is a cookie flag iff the auth data holds cookies, and it is then `--cookies "<k=v; ...>"` |
| Command.CookieExample | httrack-wrapper/main/main.py:246-247 | cookies a=1 and b=2 give the single option `--cookies "a=1; b=2"` |
| Command.DefaultValuesCommand | httrack-wrapper/main/main.py:218-249 | with the default option values and no auth data, the command is `httrack <url> -O "<output>" --user-agent "<default ua>" -r5 -m1 -M10M -b0` |
| Command.DefaultCommand | httrack-wrapper/main/main.py:26-35 | the default configuration renders that command |
| Command.FlagOrderExample | httrack-wrapper/main/main.py:218-249 | robots off, cookies on, update off and continue on give `httrack U -O "OUT" --user-agent "UA" -r5 -m1 -M10M -s0 -b0 -c` |
| SiteAnalyzer.CheckLoginRequired | httrack-wrapper/main/main.py:289-320 | a failed fetch answers `(False, url)`; the reported URL is always either the requested URL or the final URL of the fetch |
| SiteAnalyzer.UrlIndicated | httrack-wrapper/main/main.py:303 | definition: the lowercased final URL contains `/login`, `/signin` or `/auth` |
| SiteAnalyzer.TextIndicated | httrack-wrapper/main/main.py:307-308 | definition: the lowercased page text contains `login required`, `please sign in` or `create account` |
| SiteAnalyzer.FormIndicated | httrack-wrapper/main/main.py:312-314 | definition: the markup has a password input or a form whose action contains `login` |
| SiteAnalyzer.VerdictCharacterization | httrack-wrapper/main/main.py:303-316 | login is required iff the fetch succeeded and some URL, text or form indicator is present; the final URL is reported iff a URL indicator is present, else the requested URL |
| SiteAnalyzer.UrlIndicatorWins | httrack-wrapper/main/main.py:303-304 | any letter-case spelling of `/login`, `/signin` or `/auth` in the final URL gives `(True, final URL)`, whatever the page text and markup |
| SiteAnalyzer.TextIndicatorAtOriginalUrl | httrack-wrapper/main/main.py:307-309 | without a URL indicator, any spelling of a gating phrase in the page text gives `(True, requested URL)` |
| SiteAnalyzer.MoreEvidenceKeepsVerdict | httrack-wrapper/main/main.py:303-316 | a page that already needs a login still does when its text is extended and more selectors match |
| SiteAnalyzer.RedirectToLoginExample | httrack-wrapper/main/main.py:303-304 | a redirect to `https://example.com/Login?next=docs` answers `(True, that URL)` |
| SiteAnalyzer.PasswordFieldExample | httrack-wrapper/main/main.py:312-314 | no URL or text indicator, but a password input gives `(True, requested URL)` |
| SiteAnalyzer.NoIndicatorExample | httrack-wrapper/main/main.py:316 | no indicator of any kind gives `(False, requested URL)` |
| Wrapper.LoadedConfig | httrack-wrapper/main/main.py:22-35 | definition: the persisted configuration if there is a file, else the defaults |
| Wrapper.Respond | httrack-wrapper/main/main.py:199-216 | definition: a login prompt at the analyzer's URL when it asks for one, else the command built from the configuration, or the `KeyError` it raised |
| Wrapper.HTTrackWrapper.constructor | httrack-wrapper/main/main.py:18-35 | a new wrapper holds the persisted configuration, or the defaults when there is none |
| Wrapper.HTTrackWrapper.LoadConfig | httrack-wrapper/main/main.py:20-35 | loading sets the configuration to the persisted one if present, else to the defaults |
| Wrapper.HTTrackWrapper.MergeOptions | httrack-wrapper/main/main.py:195-196 | the configuration becomes its merge with the request's options, and that merged configuration is what gets saved |
| Wrapper.HTTrackWrapper.GenerateCommand | httrack-wrapper/main/main.py:218-249 | the imperative builder returns exactly `CommandLine` of the current configuration: the same error on a missing key, the same text otherwise |
| Wrapper.HTTrackWrapper.StartDownload | httrack-wrapper/main/main.py:189-216 | the request's options are merged and saved first; the answer is then a login prompt at the analyzer's URL if it asks for one, else the command built from the merged configuration |
| Wrapper.FormOptionsComplete | httrack-wrapper/main/main.py:195 | merging the seven options the form posts into any configuration that has a user agent always gives a command, and its `-r` value is the posted depth |
| Wrapper.FreshWrapperCommand | httrack-wrapper/main/main.py:18-35 | a wrapper started without a configuration file has every option and builds a command |

## Left out

- The Flask routes, the HTML page and the JSON responses are left out: they are transport, not logic. The download handler's answer is a datatype instead.
- The HTTP fetch with redirects and the BeautifulSoup parsing are inputs to the analyzer. They are abstracted as `FetchResult`: a failure (any exception), or the final URL, the extracted page text and the set of selectors that matched.
- Configuration and auth-file I/O is not modelled: the existence checks, `json.load` and `save_config`'s `json.dump`. The parsed configuration and auth cookies are parameters. A missing auth file and a falsy `cookies` entry both appear as "no cookies".
- `start_auth_handler` (the thread that serves the login helper) and `auth_handler.py` are not part of this model. A login verdict shows as the `NeedsAuth` answer.
- `main()`, argument parsing, `run` and the console output are left out. In particular, the printed error message in the analyzer's exception branch is not modelled.
- Strings.Lower: lowercases only ASCII letters, because Python's Unicode case mapping is not modelled. For non-ASCII URLs or page text, the analyzer's matches may differ from Python's.
- Config.Value: covers strings, integers, booleans and `None`. Floats, lists and nested objects from the JSON file or the request are not represented.
- Command.CookieOption: takes the auth cookies as an ordered list of pairs, in the dictionary's iteration order. The model does not exclude duplicate keys, and a `cookies` entry that is truthy but not a mapping (which would raise in the source) is not represented.
- Command.CommandLine: renders the URL, output directory and user agent verbatim, as the source does. No shell quoting is modelled because the source does none, so values containing quotes or spaces produce the same unescaped text.
- In the download handler the command is only reported in the answer (httrack-wrapper/main/main.py:212-216). `main()` runs it through a shell with `subprocess.run(command, shell=True)` (httrack-wrapper/main/main.py:344); that is left out with `main()`.
