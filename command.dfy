/**
 * The httrack command line the wrapper renders from its configuration,
 * a URL, an output directory and the cookies captured by the auth handler.
 */
module Command {
  import opened Wrappers
  import opened Strings
  import opened Config

  /** Looking up an option the configuration lacks raises `KeyError(key)`. */
  datatype CommandError = MissingKey(key: string)

  /** Cookie pairs from the auth-data file, in the file's order. */
  type Cookies = seq<(string, string)>

  /** The configuration keys the command reads, in the order it reads them. */
  const REQUIRED_KEYS: seq<string> :=
    ["user_agent", "max_depth", "max_external_depth", "max_size",
     "robots", "cookies", "update", "continue"]

  predicate HasRequiredKeys(config: Configuration)
  {
    && "user_agent" in config && "max_depth" in config
    && "max_external_depth" in config && "max_size" in config
    && "robots" in config && "cookies" in config
    && "update" in config && "continue" in config
  }

  /** `keys[i]` is missing from `config` and every key before it is present. */
  predicate FirstMissingAt(config: Configuration, keys: seq<string>, i: int)
  {
    0 <= i < |keys| && keys[i] !in config && forall j :: 0 <= j < i ==> keys[j] in config
  }

  /** The first of `keys` that `config` lacks, if any. */
  function FirstMissing(config: Configuration, keys: seq<string>): (r: Option<string>)
    ensures r.None? <==> forall i :: 0 <= i < |keys| ==> keys[i] in config
    ensures r.Some? ==> exists i :: FirstMissingAt(config, keys, i) && keys[i] == r.value
    decreases |keys|
  {
    if |keys| == 0 then None
    else if keys[0] !in config then
      assert FirstMissingAt(config, keys, 0);
      Some(keys[0])
    else
      var r := FirstMissing(config, keys[1..]);
      FirstMissingShift(config, keys);
      r
  }

  lemma FirstMissingShift(config: Configuration, keys: seq<string>)
    requires |keys| > 0 && keys[0] in config
    ensures forall i :: FirstMissingAt(config, keys[1..], i) ==> FirstMissingAt(config, keys, i + 1)
  {
    forall i | FirstMissingAt(config, keys[1..], i)
      ensures FirstMissingAt(config, keys, i + 1)
    {
      forall j | 0 <= j < i + 1 ensures keys[j] in config {
        if j > 0 { assert keys[j] == keys[1..][j - 1]; }
      }
    }
  }

  /** The five flags every command carries, each rendered from the configuration. */
  function MandatoryOptions(config: Configuration, output: string): seq<string>
    requires HasRequiredKeys(config)
  {
    [ "-O \"" + output + "\"",
      "--user-agent \"" + Render(config["user_agent"]) + "\"",
      "-r" + Render(config["max_depth"]),
      "-m" + Render(config["max_external_depth"]),
      "-M" + Render(config["max_size"]) ]
  }

  function FlagIf(flag: string, on: bool): seq<string>
  {
    if on then [flag] else []
  }

  /** The four switches, each appended when its option calls for it. */
  function SwitchOptions(config: Configuration): seq<string>
    requires HasRequiredKeys(config)
  {
    FlagIf("-s0", !Truthy(config["robots"]))
      + FlagIf("-b0", Truthy(config["cookies"]))
      + FlagIf("-u", Truthy(config["update"]))
      + FlagIf("-c", Truthy(config["continue"]))
  }

  /** `'; '.join(f'{k}={v}' ...)`: the cookie pairs as `k=v`, joined by "; ". */
  function CookieString(cookies: Cookies): string
  {
    Join(seq(|cookies|, i requires 0 <= i < |cookies| => cookies[i].0 + "=" + cookies[i].1), "; ")
  }

  /**
   * The cookie string grows pair by pair: one pair is `k=v` alone, and
   * each further pair adds "; " and `k=v` at the end, in the mapping's order.
   */
  lemma CookieStringSnoc(cookies: Cookies, k: string, v: string)
    ensures CookieString(cookies + [(k, v)])
         == if cookies == [] then k + "=" + v else CookieString(cookies) + "; " + k + "=" + v
  {
    var longer := cookies + [(k, v)];
    var parts := seq(|cookies|, i requires 0 <= i < |cookies| => cookies[i].0 + "=" + cookies[i].1);
    var partsLonger := seq(|longer|, i requires 0 <= i < |longer| => longer[i].0 + "=" + longer[i].1);
    assert partsLonger == parts + [k + "=" + v];
    if cookies != [] {
      JoinSnoc(parts, k + "=" + v, "; ");
    }
  }

  /** The auth data yields a cookie flag only when it holds a non-empty cookie mapping. */
  predicate HasCookies(auth: Option<Cookies>)
  {
    auth.Some? && auth.value != []
  }

  function CookieOption(auth: Option<Cookies>): seq<string>
  {
    if HasCookies(auth) then ["--cookies \"" + CookieString(auth.value) + "\""] else []
  }

  /** All option tokens of the command, in the order they are appended. */
  function Options(config: Configuration, output: string, auth: Option<Cookies>): seq<string>
    requires HasRequiredKeys(config)
  {
    MandatoryOptions(config, output) + SwitchOptions(config) + CookieOption(auth)
  }

  /** The command `generate_command` returns, or the `KeyError` it raises. */
  function CommandLine(config: Configuration, url: string, output: string, auth: Option<Cookies>)
    : (r: Result<string, CommandError>)
    ensures r.Err? ==> r.error.key in REQUIRED_KEYS && r.error.key !in config
  {
    match FirstMissing(config, REQUIRED_KEYS)
    case Some(k) => Err(MissingKey(k))
    case None =>
      assert HasRequiredKeys(config) by {
        assert REQUIRED_KEYS[0] in config && REQUIRED_KEYS[1] in config;
        assert REQUIRED_KEYS[2] in config && REQUIRED_KEYS[3] in config;
        assert REQUIRED_KEYS[4] in config && REQUIRED_KEYS[5] in config;
        assert REQUIRED_KEYS[6] in config && REQUIRED_KEYS[7] in config;
      }
      Ok("httrack " + url + " " + Join(Options(config, output, auth), " "))
  }

  /** The first missing option, spelled out for the eight keys the command reads. */
  lemma FirstMissingRequired(config: Configuration)
    ensures FirstMissing(config, REQUIRED_KEYS)
         == if "user_agent" !in config then Some("user_agent")
            else if "max_depth" !in config then Some("max_depth")
            else if "max_external_depth" !in config then Some("max_external_depth")
            else if "max_size" !in config then Some("max_size")
            else if "robots" !in config then Some("robots")
            else if "cookies" !in config then Some("cookies")
            else if "update" !in config then Some("update")
            else if "continue" !in config then Some("continue")
            else None
  {
    var ks := REQUIRED_KEYS;
    assert ks[1..] == ["max_depth", "max_external_depth", "max_size", "robots", "cookies", "update", "continue"];
    assert ks[1..][1..] == ["max_external_depth", "max_size", "robots", "cookies", "update", "continue"];
    assert ks[1..][1..][1..] == ["max_size", "robots", "cookies", "update", "continue"];
    assert ks[1..][1..][1..][1..] == ["robots", "cookies", "update", "continue"];
    assert ks[1..][1..][1..][1..][1..] == ["cookies", "update", "continue"];
    assert ks[1..][1..][1..][1..][1..][1..] == ["update", "continue"];
    assert ks[1..][1..][1..][1..][1..][1..][1..] == ["continue"];
    assert ks[1..][1..][1..][1..][1..][1..][1..][1..] == [];
  }

  /** With every option present, the command renders: `httrack <url> ` and the joined options. */
  lemma CompleteCommand(config: Configuration, url: string, output: string, auth: Option<Cookies>)
    requires HasRequiredKeys(config)
    ensures CommandLine(config, url, output, auth) == Ok("httrack " + url + " " + Join(Options(config, output, auth), " "))
  {
    FirstMissingRequired(config);
  }

  // ---------------------------------------------------------------------
  // What the command looks like
  // ---------------------------------------------------------------------

  /** The command fails exactly when an option is missing, naming the first one read. */
  lemma CommandFailsOnMissingKey(config: Configuration, url: string, output: string, auth: Option<Cookies>)
    ensures CommandLine(config, url, output, auth).Err? <==> !HasRequiredKeys(config)
    ensures CommandLine(config, url, output, auth).Err? ==>
      exists i :: FirstMissingAt(config, REQUIRED_KEYS, i)
        && REQUIRED_KEYS[i] == CommandLine(config, url, output, auth).error.key
  {
    if FirstMissing(config, REQUIRED_KEYS).None? {
      assert REQUIRED_KEYS[0] in config && REQUIRED_KEYS[1] in config;
      assert REQUIRED_KEYS[2] in config && REQUIRED_KEYS[3] in config;
      assert REQUIRED_KEYS[4] in config && REQUIRED_KEYS[5] in config;
      assert REQUIRED_KEYS[6] in config && REQUIRED_KEYS[7] in config;
    } else {
      var k := FirstMissing(config, REQUIRED_KEYS).value;
      var i :| FirstMissingAt(config, REQUIRED_KEYS, i) && REQUIRED_KEYS[i] == k;
    }
  }

  function SwitchSuffix(flag: string, on: bool): string
  {
    if on then " " + flag else ""
  }

  function CookieSuffix(auth: Option<Cookies>): string
  {
    if HasCookies(auth) then " --cookies \"" + CookieString(auth.value) + "\"" else ""
  }

  lemma SepPrefixedFlagIf(flag: string, on: bool)
    ensures SepPrefixed(FlagIf(flag, on), " ") == SwitchSuffix(flag, on)
  {
    if on {
      assert [flag][1..] == [];
    }
  }

  /** Five leading tokens followed by any others, joined by single spaces. */
  lemma JoinFiveThen(a: string, b: string, c: string, d: string, e: string, rest: seq<string>)
    ensures Join([a, b, c, d, e] + rest, " ")
         == a + " " + b + " " + c + " " + d + " " + e + SepPrefixed(rest, " ")
  {
    var all := [a, b, c, d, e] + rest;
    JoinIsHeadThenPrefixed(all, " ");
    assert all[1..] == [b, c, d, e] + rest;
    assert ([b, c, d, e] + rest)[1..] == [c, d, e] + rest;
    assert ([c, d, e] + rest)[1..] == [d, e] + rest;
    assert ([d, e] + rest)[1..] == [e] + rest;
    assert ([e] + rest)[1..] == rest;
    assert SepPrefixed([e] + rest, " ") == " " + e + SepPrefixed(rest, " ");
    assert SepPrefixed([d, e] + rest, " ") == " " + d + SepPrefixed([e] + rest, " ");
    assert SepPrefixed([c, d, e] + rest, " ") == " " + c + SepPrefixed([d, e] + rest, " ");
    assert SepPrefixed([b, c, d, e] + rest, " ") == " " + b + SepPrefixed([c, d, e] + rest, " ");
  }

  lemma SepPrefixedFive(p: seq<string>, q: seq<string>, r: seq<string>, t: seq<string>, u: seq<string>)
    ensures SepPrefixed(p + q + r + t + u, " ")
         == SepPrefixed(p, " ") + SepPrefixed(q, " ") + SepPrefixed(r, " ") + SepPrefixed(t, " ") + SepPrefixed(u, " ")
  {
    SepPrefixedAppend(p + q + r + t, u, " ");
    SepPrefixedAppend(p + q + r, t, " ");
    SepPrefixedAppend(p + q, r, " ");
    SepPrefixedAppend(p, q, " ");
  }

  lemma SepPrefixedFlags(f1: string, b1: bool, f2: string, b2: bool, f3: string, b3: bool,
                         f4: string, b4: bool, f5: string, b5: bool)
    ensures SepPrefixed(FlagIf(f1, b1) + FlagIf(f2, b2) + FlagIf(f3, b3) + FlagIf(f4, b4) + FlagIf(f5, b5), " ")
         == SwitchSuffix(f1, b1) + SwitchSuffix(f2, b2) + SwitchSuffix(f3, b3) + SwitchSuffix(f4, b4) + SwitchSuffix(f5, b5)
  {
    SepPrefixedFive(FlagIf(f1, b1), FlagIf(f2, b2), FlagIf(f3, b3), FlagIf(f4, b4), FlagIf(f5, b5));
    SepPrefixedFlagIf(f1, b1);
    SepPrefixedFlagIf(f2, b2);
    SepPrefixedFlagIf(f3, b3);
    SepPrefixedFlagIf(f4, b4);
    SepPrefixedFlagIf(f5, b5);
  }

  /** The switches and the cookie flag, each after one space. */
  lemma TrailingLayout(config: Configuration, auth: Option<Cookies>)
    requires HasRequiredKeys(config)
    ensures SepPrefixed(SwitchOptions(config) + CookieOption(auth), " ")
         == SwitchSuffix("-s0", !Truthy(config["robots"]))
          + SwitchSuffix("-b0", Truthy(config["cookies"]))
          + SwitchSuffix("-u", Truthy(config["update"]))
          + SwitchSuffix("-c", Truthy(config["continue"]))
          + CookieSuffix(auth)
  {
    var cookieFlag := if HasCookies(auth) then "--cookies \"" + CookieString(auth.value) + "\"" else "";
    var hasCookies := HasCookies(auth);
    var robots, cookies, update, cont :=
      !Truthy(config["robots"]), Truthy(config["cookies"]), Truthy(config["update"]), Truthy(config["continue"]);
    assert CookieOption(auth) == FlagIf(cookieFlag, hasCookies);
    assert CookieSuffix(auth) == SwitchSuffix(cookieFlag, hasCookies);
    assert SwitchOptions(config) == FlagIf("-s0", robots) + FlagIf("-b0", cookies) + FlagIf("-u", update) + FlagIf("-c", cont);
    var all := FlagIf("-s0", robots) + FlagIf("-b0", cookies) + FlagIf("-u", update) + FlagIf("-c", cont)
      + FlagIf(cookieFlag, hasCookies);
    assert SwitchOptions(config) + CookieOption(auth) == all;
    var suffix := SwitchSuffix("-s0", robots) + SwitchSuffix("-b0", cookies) + SwitchSuffix("-u", update)
      + SwitchSuffix("-c", cont) + SwitchSuffix(cookieFlag, hasCookies);
    SepPrefixedFlags("-s0", robots, "-b0", cookies, "-u", update, "-c", cont, cookieFlag, hasCookies);
    assert SepPrefixed(all, " ") == suffix;
  }

  lemma Reassociate(x: string, a: string, b: string, c: string, d: string, e: string,
                    t1: string, t2: string, t3: string, t4: string, t5: string)
    ensures x + (a + " " + b + " " + c + " " + d + " " + e + (t1 + t2 + t3 + t4 + t5))
         == x + a + " " + b + " " + c + " " + d + " " + e + t1 + t2 + t3 + t4 + t5
  {
  }

  /**
   * The command spelled out as one string: `httrack <url>`, the five
   * mandatory flags in fixed order, then each switch that is on, in the order
   * -s0, -b0, -u, -c, then the cookie flag, every token after a single space.
   */
  lemma CommandLayout(config: Configuration, url: string, output: string, auth: Option<Cookies>)
    requires HasRequiredKeys(config)
    ensures CommandLine(config, url, output, auth) == Ok(
      "httrack " + url
        + " " + ("-O \"" + output + "\"")
        + " " + ("--user-agent \"" + Render(config["user_agent"]) + "\"")
        + " " + ("-r" + Render(config["max_depth"]))
        + " " + ("-m" + Render(config["max_external_depth"]))
        + " " + ("-M" + Render(config["max_size"]))
        + SwitchSuffix("-s0", !Truthy(config["robots"]))
        + SwitchSuffix("-b0", Truthy(config["cookies"]))
        + SwitchSuffix("-u", Truthy(config["update"]))
        + SwitchSuffix("-c", Truthy(config["continue"]))
        + CookieSuffix(auth))
  {
    CommandFailsOnMissingKey(config, url, output, auth);
    var m := MandatoryOptions(config, output);
    var rest := SwitchOptions(config) + CookieOption(auth);
    assert Options(config, output, auth) == [m[0], m[1], m[2], m[3], m[4]] + rest;
    JoinFiveThen(m[0], m[1], m[2], m[3], m[4], rest);
    TrailingLayout(config, auth);
    var trailing := SwitchSuffix("-s0", !Truthy(config["robots"]))
      + SwitchSuffix("-b0", Truthy(config["cookies"]))
      + SwitchSuffix("-u", Truthy(config["update"]))
      + SwitchSuffix("-c", Truthy(config["continue"]))
      + CookieSuffix(auth);
    var joined := m[0] + " " + m[1] + " " + m[2] + " " + m[3] + " " + m[4] + trailing;
    assert Join(Options(config, output, auth), " ") == joined;
    assert CommandLine(config, url, output, auth) == Ok("httrack " + url + " " + joined);
    Reassociate("httrack " + url + " ", m[0], m[1], m[2], m[3], m[4],
                SwitchSuffix("-s0", !Truthy(config["robots"])), SwitchSuffix("-b0", Truthy(config["cookies"])),
                SwitchSuffix("-u", Truthy(config["update"])), SwitchSuffix("-c", Truthy(config["continue"])),
                CookieSuffix(auth));
  }

  /** The position of a trailing token in the fixed order -s0, -b0, -u, -c, --cookies. */
  function TrailingRank(token: string): nat
  {
    if token == "-s0" then 0
    else if token == "-b0" then 1
    else if token == "-u" then 2
    else if token == "-c" then 3
    else 4
  }

  /** No mandatory token can be mistaken for a switch or the cookie flag: their leading characters differ. */
  lemma MandatoryAreNotTrailing(config: Configuration, output: string, auth: Option<Cookies>)
    requires HasRequiredKeys(config)
    ensures forall t :: t in MandatoryOptions(config, output) ==>
      t != "-s0" && t != "-b0" && t != "-u" && t != "-c"
    ensures forall t :: t in MandatoryOptions(config, output) ==> t !in CookieOption(auth)
  {
    var m := MandatoryOptions(config, output);
    assert m[0][1] == 'O' && m[1][1] == '-' && m[2][1] == 'r' && m[3][1] == 'm' && m[4][1] == 'M';
    assert m[1][2] == 'u';
    var ck := CookieOption(auth);
    if ck != [] {
      assert ck[0][1] == '-' && ck[0][2] == 'c';
    }
  }

  /** The tokens' ranks strictly increase along `tokens`, and all are below `bound`. */
  predicate RankedBelow(tokens: seq<string>, bound: nat)
  {
    && (forall i, j :: 0 <= i < j < |tokens| ==> TrailingRank(tokens[i]) < TrailingRank(tokens[j]))
    && (forall i :: 0 <= i < |tokens| ==> TrailingRank(tokens[i]) < bound)
  }

  /** Appending (perhaps) a token of the next rank keeps the ranks strictly increasing. */
  lemma AppendRanked(tokens: seq<string>, flag: string, on: bool, bound: nat)
    requires RankedBelow(tokens, bound) && TrailingRank(flag) == bound
    ensures RankedBelow(tokens + FlagIf(flag, on), bound + 1)
  {
    var all := tokens + FlagIf(flag, on);
    forall i, j | 0 <= i < j < |all|
      ensures TrailingRank(all[i]) < TrailingRank(all[j])
    {
      if j >= |tokens| {
        assert all[j] == flag && all[i] == tokens[i];
      }
    }
  }

  lemma SwitchRanks()
    ensures TrailingRank("-s0") == 0 && TrailingRank("-b0") == 1
    ensures TrailingRank("-u") == 2 && TrailingRank("-c") == 3
  {
  }

  /** Any choice of switches, in the fixed order, has strictly increasing ranks below 4. */
  lemma SwitchListRanked(s0: bool, b0: bool, u: bool, c: bool)
    ensures RankedBelow(FlagIf("-s0", s0) + FlagIf("-b0", b0) + FlagIf("-u", u) + FlagIf("-c", c), 4)
  {
    SwitchRanks();
    var l0: seq<string> := [];
    AppendRanked(l0, "-s0", s0, 0);
    assert l0 + FlagIf("-s0", s0) == FlagIf("-s0", s0);
    var l1 := FlagIf("-s0", s0);
    AppendRanked(l1, "-b0", b0, 1);
    var l2 := l1 + FlagIf("-b0", b0);
    AppendRanked(l2, "-u", u, 2);
    var l3 := l2 + FlagIf("-u", u);
    AppendRanked(l3, "-c", c, 3);
  }

  /** The switches, in order: at most one each, ranks 0 to 3. */
  lemma SwitchesRanked(config: Configuration)
    requires HasRequiredKeys(config)
    ensures RankedBelow(SwitchOptions(config), 4)
  {
    var s0, b0, u, c := !Truthy(config["robots"]), Truthy(config["cookies"]), Truthy(config["update"]), Truthy(config["continue"]);
    assert SwitchOptions(config) == FlagIf("-s0", s0) + FlagIf("-b0", b0) + FlagIf("-u", u) + FlagIf("-c", c);
    SwitchListRanked(s0, b0, u, c);
  }

  /** Any choice of switches holds each switch exactly when it was chosen. */
  lemma SwitchListPresent(s0: bool, b0: bool, u: bool, c: bool)
    ensures var sw := FlagIf("-s0", s0) + FlagIf("-b0", b0) + FlagIf("-u", u) + FlagIf("-c", c);
      && ("-s0" in sw <==> s0) && ("-b0" in sw <==> b0) && ("-u" in sw <==> u) && ("-c" in sw <==> c)
  {
    assert "-s0" != "-b0" && "-s0" != "-u" && "-s0" != "-c";
    assert "-b0" != "-u" && "-b0" != "-c" && "-u" != "-c";
  }

  /** Each switch is among the switch tokens exactly when its option calls for it. */
  lemma SwitchesPresent(config: Configuration)
    requires HasRequiredKeys(config)
    ensures var sw := SwitchOptions(config);
      && ("-s0" in sw <==> !Truthy(config["robots"]))
      && ("-b0" in sw <==> Truthy(config["cookies"]))
      && ("-u" in sw <==> Truthy(config["update"]))
      && ("-c" in sw <==> Truthy(config["continue"]))
  {
    var s0, b0, u, c := !Truthy(config["robots"]), Truthy(config["cookies"]), Truthy(config["update"]), Truthy(config["continue"]);
    assert SwitchOptions(config) == FlagIf("-s0", s0) + FlagIf("-b0", b0) + FlagIf("-u", u) + FlagIf("-c", c);
    SwitchListPresent(s0, b0, u, c);
  }

  /** The cookie flag is not a switch and ranks last. */
  lemma CookieTokens(auth: Option<Cookies>)
    ensures var ck := CookieOption(auth);
      && |ck| == (if HasCookies(auth) then 1 else 0)
      && forall t :: t in ck ==> TrailingRank(t) == 4 && t != "-s0" && t != "-b0" && t != "-u" && t != "-c"
  {
    var ck := CookieOption(auth);
    if ck != [] {
      assert ck[0][1] == '-';
    }
  }

  /** The five mandatory flags open the option list, in fixed order. */
  lemma MandatoryFirst(config: Configuration, output: string, auth: Option<Cookies>)
    requires HasRequiredKeys(config)
    ensures var opts := Options(config, output, auth);
      && |opts| >= 5
      && opts[0] == "-O \"" + output + "\""
      && opts[1] == "--user-agent \"" + Render(config["user_agent"]) + "\""
      && opts[2] == "-r" + Render(config["max_depth"])
      && opts[3] == "-m" + Render(config["max_external_depth"])
      && opts[4] == "-M" + Render(config["max_size"])
  {
  }

  /** An integer depth limit appears after `-r` (or `-m`) as decimal text that reads back as the configured number. */
  lemma DepthTokensReadBack(config: Configuration, output: string, auth: Option<Cookies>)
    requires HasRequiredKeys(config)
    ensures var opts := Options(config, output, auth);
      && |opts| >= 5 && opts[2][..2] == "-r" && opts[3][..2] == "-m"
      && (config["max_depth"].Int? ==> ParseInt(opts[2][2..]) == config["max_depth"].i)
      && (config["max_external_depth"].Int? ==> ParseInt(opts[3][2..]) == config["max_external_depth"].i)
  {
    var opts := Options(config, output, auth);
    MandatoryFirst(config, output, auth);
    assert opts[2][2..] == Render(config["max_depth"]);
    assert opts[3][2..] == Render(config["max_external_depth"]);
    RenderedIntReadsBack(config["max_depth"]);
    RenderedIntReadsBack(config["max_external_depth"]);
  }

  /** Each switch is among the options exactly when its option calls for it. */
  lemma SwitchPresence(config: Configuration, output: string, auth: Option<Cookies>)
    requires HasRequiredKeys(config)
    ensures var opts := Options(config, output, auth);
      && ("-s0" in opts <==> !Truthy(config["robots"]))
      && ("-b0" in opts <==> Truthy(config["cookies"]))
      && ("-u" in opts <==> Truthy(config["update"]))
      && ("-c" in opts <==> Truthy(config["continue"]))
  {
    var m := MandatoryOptions(config, output);
    var sw := SwitchOptions(config);
    var ck := CookieOption(auth);
    MandatoryAreNotTrailing(config, output, auth);
    SwitchesPresent(config);
    CookieTokens(auth);
    PresenceInParts(m, sw, ck, "-s0");
    PresenceInParts(m, sw, ck, "-b0");
    PresenceInParts(m, sw, ck, "-u");
    PresenceInParts(m, sw, ck, "-c");
  }

  /** Ranks that increase along a tail stay increasing once five tokens are put in front. */
  lemma RankedAfterFive(m: seq<string>, tail: seq<string>)
    requires |m| == 5 && RankedBelow(tail, 5)
    ensures forall i, j :: 5 <= i < j < |m + tail| ==> TrailingRank((m + tail)[i]) < TrailingRank((m + tail)[j])
  {
    var all := m + tail;
    forall i, j | 5 <= i < j < |all|
      ensures TrailingRank(all[i]) < TrailingRank(all[j])
    {
      assert all[i] == tail[i - 5] && all[j] == tail[j - 5];
    }
  }

  /** A token of rank 4 ends a ranked tail exactly when it was appended. */
  lemma LastOfRanked(m: seq<string>, sw: seq<string>, flag: string, on: bool)
    requires |m| == 5 && RankedBelow(sw, 4) && TrailingRank(flag) == 4
    ensures var all := m + (sw + FlagIf(flag, on));
      && (on <==> |all| > 5 && TrailingRank(all[|all| - 1]) == 4)
      && (on ==> all[|all| - 1] == flag)
  {
    var all := m + (sw + FlagIf(flag, on));
    if |all| > 5 && !on {
      assert all[|all| - 1] == sw[|sw| - 1];
    }
  }

  /**
   * After the mandatory flags, the switches and the cookie flag follow in
   * the fixed order -s0, -b0, -u, -c, --cookies, none twice; the cookie
   * flag is present exactly when the auth data holds cookies, and is then
   * the last token.
   */
  lemma TrailingOrder(config: Configuration, output: string, auth: Option<Cookies>)
    requires HasRequiredKeys(config)
    ensures var opts := Options(config, output, auth);
      && |opts| >= 5
      && (forall i, j :: 5 <= i < j < |opts| ==> TrailingRank(opts[i]) < TrailingRank(opts[j]))
      && (HasCookies(auth) <==> |opts| > 5 && TrailingRank(opts[|opts| - 1]) == 4)
      && (HasCookies(auth) ==> opts[|opts| - 1] == "--cookies \"" + CookieString(auth.value) + "\"")
  {
    var m := MandatoryOptions(config, output);
    var sw := SwitchOptions(config);
    var on := HasCookies(auth);
    var cookieFlag := if on then "--cookies \"" + CookieString(auth.value) + "\"" else "--cookies";
    assert TrailingRank(cookieFlag) == 4 by {
      assert cookieFlag[1] == '-';
    }
    assert CookieOption(auth) == FlagIf(cookieFlag, on);
    assert Options(config, output, auth) == m + (sw + FlagIf(cookieFlag, on));
    SwitchesRanked(config);
    AppendRanked(sw, cookieFlag, on, 4);
    RankedAfterFive(m, sw + FlagIf(cookieFlag, on));
    LastOfRanked(m, sw, cookieFlag, on);
  }

  /** A token that is neither mandatory nor a cookie flag is in the options exactly when it is a switch. */
  lemma PresenceInParts(m: seq<string>, sw: seq<string>, ck: seq<string>, t: string)
    requires t !in m && t !in ck
    ensures t in m + sw + ck <==> t in sw
  {
  }

  // ---------------------------------------------------------------------
  // Worked examples
  // ---------------------------------------------------------------------

  lemma GroupTail(x: string, p1: string, p2: string, p3: string, p4: string, p5: string, p6: string,
                  p7: string, p8: string, p9: string, p10: string, p11: string)
    ensures x + p1 + p2 + p3 + p4 + p5 + p6 + p7 + p8 + p9 + p10 + p11
         == x + (p1 + p2 + p3 + p4 + p5 + p6 + p7 + p8 + p9 + p10 + p11)
  {
  }

  lemma DefaultTailLiteral()
    ensures " " + ("-r" + "5") + " " + ("-m" + "1") + " " + ("-M" + "10M") + "" + " -b0" + "" + "" + ""
         == " -r5 -m1 -M10M -b0"
  {
  }

  /** A configuration holding the default values, with no auth data. */
  lemma DefaultValuesCommand(config: Configuration, url: string, output: string)
    requires HasRequiredKeys(config)
    requires config["user_agent"] == Str(DEFAULT_USER_AGENT) && config["max_depth"] == Int(5)
    requires config["max_external_depth"] == Int(1) && config["max_size"] == Str("10M")
    requires config["robots"] == Bool(true) && config["cookies"] == Bool(true)
    requires config["update"] == Bool(false) && config["continue"] == Bool(false)
    ensures CommandLine(config, url, output, None)
         == Ok("httrack " + url + " " + ("-O \"" + output + "\"")
               + " " + ("--user-agent \"" + DEFAULT_USER_AGENT + "\"")
               + " -r5 -m1 -M10M -b0")
  {
    CommandLayout(config, url, output, None);
    assert DigitChar(5) == '5' && DigitChar(1) == '1';
    assert Render(config["max_depth"]) == "5";
    assert Render(config["max_external_depth"]) == "1";
    assert Render(config["max_size"]) == "10M";
    assert Render(config["user_agent"]) == DEFAULT_USER_AGENT;
    assert SwitchSuffix("-s0", !Truthy(config["robots"])) == "";
    assert SwitchSuffix("-b0", Truthy(config["cookies"])) == " -b0";
    assert SwitchSuffix("-u", Truthy(config["update"])) == "";
    assert SwitchSuffix("-c", Truthy(config["continue"])) == "";
    assert CookieSuffix(None) == "";
    var head := "httrack " + url + " " + ("-O \"" + output + "\"")
      + " " + ("--user-agent \"" + DEFAULT_USER_AGENT + "\"");
    GroupTail(head, " ", "-r" + "5", " ", "-m" + "1", " ", "-M" + "10M", "", " -b0", "", "", "");
    DefaultTailLiteral();
  }

  /** With the defaults and no auth data: depth 5, external depth 1, 10M, robots respected, cookies on. */
  lemma DefaultCommand(url: string, output: string)
    ensures CommandLine(DefaultConfig(), url, output, None)
         == Ok("httrack " + url + " " + ("-O \"" + output + "\"")
               + " " + ("--user-agent \"" + DEFAULT_USER_AGENT + "\"")
               + " -r5 -m1 -M10M -b0")
  {
    var c := DefaultConfig();
    assert HasRequiredKeys(c);
    DefaultValuesCommand(c, url, output);
  }

  lemma FlagOrderLiteral()
    ensures "httrack " + "U" + " " + ("-O \"" + "OUT" + "\"") + " " + ("--user-agent \"" + "UA" + "\"")
            + " " + ("-r" + "5") + " " + ("-m" + "1") + " " + ("-M" + "10M")
            + " -s0" + " -b0" + "" + " -c" + ""
         == "httrack U -O \"OUT\" --user-agent \"UA\" -r5 -m1 -M10M -s0 -b0 -c"
  {
    var p := "httrack " + "U" + " " + ("-O \"" + "OUT" + "\"");
    assert p == "httrack U -O \"OUT\"";
    p := p + " " + ("--user-agent \"" + "UA" + "\"");
    assert p == "httrack U -O \"OUT\" --user-agent \"UA\"";
    p := p + " " + ("-r" + "5") + " " + ("-m" + "1");
    assert p == "httrack U -O \"OUT\" --user-agent \"UA\" -r5 -m1";
    p := p + " " + ("-M" + "10M") + " -s0";
    assert p == "httrack U -O \"OUT\" --user-agent \"UA\" -r5 -m1 -M10M -s0";
    p := p + " -b0" + "" + " -c" + "";
    assert p == "httrack U -O \"OUT\" --user-agent \"UA\" -r5 -m1 -M10M -s0 -b0 -c";
  }

  /** Robots ignored, cookies on, no update, continue on, no auth data. */
  lemma FlagOrderExample(config: Configuration)
    requires HasRequiredKeys(config)
    requires config["user_agent"] == Str("UA") && config["max_depth"] == Int(5)
    requires config["max_external_depth"] == Int(1) && config["max_size"] == Str("10M")
    requires config["robots"] == Bool(false) && config["cookies"] == Bool(true)
    requires config["update"] == Bool(false) && config["continue"] == Bool(true)
    ensures CommandLine(config, "U", "OUT", None)
         == Ok("httrack U -O \"OUT\" --user-agent \"UA\" -r5 -m1 -M10M -s0 -b0 -c")
  {
    CommandLayout(config, "U", "OUT", None);
    assert DigitChar(5) == '5' && DigitChar(1) == '1';
    assert Render(config["max_depth"]) == "5";
    assert Render(config["max_external_depth"]) == "1";
    assert Render(config["max_size"]) == "10M" && Render(config["user_agent"]) == "UA";
    assert SwitchSuffix("-s0", !Truthy(config["robots"])) == " -s0";
    assert SwitchSuffix("-b0", Truthy(config["cookies"])) == " -b0";
    assert SwitchSuffix("-u", Truthy(config["update"])) == "";
    assert SwitchSuffix("-c", Truthy(config["continue"])) == " -c";
    assert CookieSuffix(None) == "";
    FlagOrderLiteral();
  }

  /** Two captured cookies `a=1`, `b=2` become the single flag `--cookies "a=1; b=2"`. */
  lemma CookieExample()
    ensures CookieOption(Some([("a", "1"), ("b", "2")])) == ["--cookies \"a=1; b=2\""]
  {
    var cs := [("a", "1"), ("b", "2")];
    var pairs := seq(|cs|, i requires 0 <= i < |cs| => cs[i].0 + "=" + cs[i].1);
    assert pairs[0] == "a=1" && pairs[1] == "b=2";
    assert pairs == ["a=1", "b=2"];
    assert pairs[1..] == ["b=2"];
    assert Join(pairs, "; ") == "a=1" + "; " + "b=2";
    assert CookieString(cs) == "a=1; b=2";
    assert "--cookies \"" + "a=1; b=2" + "\"" == "--cookies \"a=1; b=2\"";
  }
}
