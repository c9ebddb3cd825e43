/**
 * The wrapper's persisted configuration: a flat JSON object from option
 * names to scalar values, its built-in defaults, and the shallow merge of
 * per-request overrides into it.
 */
module Config {
  import Strings

  /** A JSON scalar as Python holds it after `json.load` (floats excluded). */
  datatype Value = Str(s: string) | Int(i: int) | Bool(b: bool) | Null

  type Configuration = map<string, Value>

  /** Python's `str(v)`, which an f-string placeholder `{v}` produces. */
  function Render(v: Value): string
  {
    match v
    case Str(s) => s
    case Int(i) => Strings.IntToString(i)
    case Bool(b) => if b then "True" else "False"
    case Null => "None"
  }

  /** An integer option renders as decimal text that reads back as the same integer. */
  lemma RenderedIntReadsBack(v: Value)
    ensures v.Int? ==> |Render(v)| > 0 && Strings.ParseInt(Render(v)) == v.i
  {
    if v.Int? {
      Strings.IntToStringRoundTrip(v.i);
    }
  }

  /** Python truthiness of a JSON scalar, as tested by `if v:` and `if not v:`. */
  predicate Truthy(v: Value)
  {
    match v
    case Str(s) => s != ""
    case Int(i) => i != 0
    case Bool(b) => b
    case Null => false
  }

  const DEFAULT_USER_AGENT: string := "Mozilla/5.0 (Android 10; Mobile; rv:121.0) Firefox/121.0"

  /** The configuration the wrapper starts from when no configuration file exists. */
  function DefaultConfig(): Configuration
  {
    map[
      "user_agent" := Str(DEFAULT_USER_AGENT),
      "max_depth" := Int(5),
      "max_external_depth" := Int(1),
      "max_size" := Str("10M"),
      "robots" := Bool(true),
      "cookies" := Bool(true),
      "update" := Bool(false),
      "continue" := Bool(false)
    ]
  }

  /**
   * The defaults hold exactly eight options: the Firefox-on-Android user
   * agent, depth 5, external depth 1, size "10M", robots and cookies on,
   * update and continue off.
   */
  lemma DefaultConfigKeys()
    ensures DefaultConfig().Keys
         == {"user_agent", "max_depth", "max_external_depth", "max_size",
             "robots", "cookies", "update", "continue"}
    ensures |DefaultConfig()| == 8
    ensures DefaultConfig()["user_agent"] == Str(DEFAULT_USER_AGENT)
    ensures DefaultConfig()["max_depth"] == Int(5) && DefaultConfig()["max_external_depth"] == Int(1)
    ensures DefaultConfig()["max_size"] == Str("10M")
    ensures DefaultConfig()["robots"] == Bool(true) && DefaultConfig()["cookies"] == Bool(true)
    ensures DefaultConfig()["update"] == Bool(false) && DefaultConfig()["continue"] == Bool(false)
  {
    var keys := DefaultConfig().Keys;
    assert keys == {"user_agent", "max_depth", "max_external_depth", "max_size",
                    "robots", "cookies", "update", "continue"};
    assert |{"user_agent", "max_depth", "max_external_depth", "max_size"}| == 4;
    assert |{"robots", "cookies", "update", "continue"}| == 4;
    assert {"user_agent", "max_depth", "max_external_depth", "max_size"}
        !! {"robots", "cookies", "update", "continue"};
  }

  /**
   * `config.update(overrides)`: every overridden key takes the override's
   * value, every other key keeps its value, and new keys are added.
   */
  function Merged(config: Configuration, overrides: Configuration): (r: Configuration)
    ensures r.Keys == config.Keys + overrides.Keys
    ensures forall k :: k in overrides ==> r[k] == overrides[k]
    ensures forall k :: k in config && k !in overrides ==> r[k] == config[k]
  {
    config + overrides
  }

  /**
   * Merging `a` and then `b` is merging once with `a` overridden by `b`:
   * on a key both set, the later merge wins.
   */
  lemma MergeLastWriteWins(config: Configuration, a: Configuration, b: Configuration)
    ensures Merged(Merged(config, a), b) == Merged(config, Merged(a, b))
    ensures forall k :: k in b ==> Merged(Merged(config, a), b)[k] == b[k]
  {
  }

  /** Merging overrides that cover every key of an earlier merge erases that earlier merge. */
  lemma MergeOverridesEarlier(config: Configuration, a: Configuration, b: Configuration)
    requires a.Keys <= b.Keys
    ensures Merged(Merged(config, a), b) == Merged(config, b)
  {
  }

  /** Merging the same overrides a second time changes nothing. */
  lemma MergeIdempotent(config: Configuration, overrides: Configuration)
    ensures Merged(Merged(config, overrides), overrides) == Merged(config, overrides)
  {
  }
}
