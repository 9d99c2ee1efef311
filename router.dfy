/**
 * The router executable: the handler Windows invokes with the clicked URL. It takes the first
 * configured rule whose `When` predicate holds, or else the default action, and starts that
 * action's program with the URL as the last argument.
 */
module Router {
  import opened Wrappers
  import opened Text
  import opened Platform

  /** `ActionCfg(type, target, args)`; `args` is nullable in the record. */
  datatype ActionCfg = ActionCfg(actionType: string, target: string, args: Option<seq<string>>)

  /** `When(host, pathContains, urlRegex)`; all three are nullable in the record. */
  datatype When = When(host: Option<seq<string>>, pathContains: Option<seq<string>>, urlRegex: Option<string>)

  /** `Rule(name, when, action)`: there is no enabled flag. */
  datatype Rule = Rule(name: string, when: When, action: ActionCfg)

  datatype Config = Config(version: int32, defaultAction: ActionCfg, rules: seq<Rule>)

  /** The verbatim literal of the built-in default target, doubled backslashes included. */
  const FirefoxPath: string := "C:\\\\Program Files\\\\Mozilla Firefox\\\\firefox.exe"

  /** The configuration used when the file is missing or does not deserialise. */
  function DefaultConfig(): Config {
    Config(1, ActionCfg("app", FirefoxPath, Some([])), [])
  }

  // ---------------------------------------------------------------------------------------
  // Argument quoting

  function CountQuotes(s: string): nat {
    if s == [] then 0 else (if s[0] == '"' then 1 else 0) + CountQuotes(s[1..])
  }

  /** `s.Replace("\"", "\\\"")`: every double quote gets a backslash in front of it. */
  function EscapeQuotes(s: string): (r: string)
    ensures |r| == |s| + CountQuotes(s)
    ensures r != [] ==> r[0] != '"'
    ensures ' ' in s <==> ' ' in r
  {
    if s == [] then []
    else (if s[0] == '"' then "\\\"" else [s[0]]) + EscapeQuotes(s[1..])
  }

  /** The inverse reading of `EscapeQuotes`: a backslash-quote pair stands for one quote. */
  function UnescapeQuotes(t: string): string {
    if |t| >= 2 && t[0] == '\\' && t[1] == '"' then "\"" + UnescapeQuotes(t[2..])
    else if t == [] then []
    else [t[0]] + UnescapeQuotes(t[1..])
  }

  /** How a process reads back one token written by `QuoteIfNeeded`. */
  function Unquote(t: string): string {
    if |t| >= 2 && t[0] == '"' && t[|t| - 1] == '"' then UnescapeQuotes(t[1..|t| - 1]) else t
  }

  /** `QuoteIfNeeded`: an empty token becomes `""`; a token with a space or a quote is wrapped
    * in quotes with its own quotes escaped; anything else is passed through. */
  function QuoteIfNeeded(s: string): (r: string)
    ensures r != ""
    ensures s == "" ==> r == "\"\""
    ensures s != "" && ' ' !in s && '"' !in s ==> r == s
    ensures ' ' in s || '"' in s ==>
      |r| == |s| + 2 + CountQuotes(s) && r[0] == '"' && r[|r| - 1] == '"'
  {
    if s == "" then "\"\""
    else if ' ' in s || '"' in s then "\"" + EscapeQuotes(s) + "\""
    else s
  }

  lemma {:induction false} UnescapeEscape(s: string)
    ensures UnescapeQuotes(EscapeQuotes(s)) == s
    decreases |s|
  {
    if s != [] {
      var rest := EscapeQuotes(s[1..]);
      UnescapeEscape(s[1..]);
      if s[0] == '"' {
        assert EscapeQuotes(s) == "\\\"" + rest;
        assert (("\\\"" + rest)[2..]) == rest;
      } else {
        assert EscapeQuotes(s) == [s[0]] + rest;
        assert ([s[0]] + rest)[1..] == rest;
      }
    }
  }

  /** Every token `QuoteIfNeeded` writes reads back as the string it was given. */
  lemma QuoteRoundTrip(s: string)
    ensures Unquote(QuoteIfNeeded(s)) == s
  {
    if ' ' in s || '"' in s {
      var e := EscapeQuotes(s);
      var r := "\"" + e + "\"";
      assert r[1..|r| - 1] == e;
      UnescapeEscape(s);
    }
  }

  function QuoteAll(xs: seq<string>): (r: seq<string>)
    ensures |r| == |xs|
    ensures forall i | 0 <= i < |xs| :: r[i] == QuoteIfNeeded(xs[i])
  {
    if xs == [] then [] else [QuoteIfNeeded(xs[0])] + QuoteAll(xs[1..])
  }

  /** The `Arguments` string for an action's arguments and the URL: each argument quoted,
    * joined with single spaces, then one space and the quoted URL. */
  function ArgumentLine(args: Option<seq<string>>, url: string): string {
    if args.Some? && |args.value| > 0 then Join(" ", QuoteAll(args.value)) + " " + QuoteIfNeeded(url)
    else QuoteIfNeeded(url)
  }

  /** A join of tokens that are all non-empty is itself non-empty. */
  lemma JoinNonEmpty(sep: string, xs: seq<string>)
    requires |xs| > 0 && xs[0] != ""
    ensures Join(sep, xs) != ""
  {
  }

  /** The URL is always the last token of the argument line, and reads back unchanged. */
  lemma ArgumentLineEndsWithUrl(args: Option<seq<string>>, url: string)
    ensures EndsWith(ArgumentLine(args, url), QuoteIfNeeded(url))
    ensures ArgumentLine(args, url) == QuoteIfNeeded(url) <==> args.None? || args.value == []
    ensures Unquote(ArgumentLine(args, url)[|ArgumentLine(args, url)| - |QuoteIfNeeded(url)|..]) == url
  {
    var line := ArgumentLine(args, url);
    var q := QuoteIfNeeded(url);
    assert line[|line| - |q|..] == q;
    QuoteRoundTrip(url);
  }

  // ---------------------------------------------------------------------------------------
  // Process start

  /** The `ProcessStartInfo` fields the router sets. */
  datatype StartInfo = StartInfo(fileName: string, arguments: string, useShellExecute: bool)

  /** `Process.Start(info)`: true when it returns, false when it throws. */
  type Spawner = StartInfo -> bool

  /** The start request for running `action` on `url`. */
  function StartFor(action: ActionCfg, url: string): StartInfo {
    StartInfo(action.target, ArgumentLine(action.args, url), false)
  }

  /** `Launch`: fills in the start info step by step and starts the process; 1 when
    * `Process.Start` throws, 0 otherwise. */
  method Launch(action: ActionCfg, url: string, spawn: Spawner) returns (code: int, info: StartInfo)
    ensures info == StartFor(action, url)
    ensures code == (if spawn(info) then 0 else 1)
  {
    info := StartInfo(action.target, "", false);
    var argsPrefix := "";
    if action.args.Some? && |action.args.value| > 0 {
      argsPrefix := Join(" ", QuoteAll(action.args.value));
      JoinNonEmpty(" ", QuoteAll(action.args.value));
      if |argsPrefix| > 0 {
        argsPrefix := argsPrefix + " ";
      }
    }
    info := info.(arguments := argsPrefix + QuoteIfNeeded(url));
    if spawn(info) {
      code := 0;
    } else {
      code := 1;
    }
  }

  // ---------------------------------------------------------------------------------------
  // Matching

  /** One host pattern against a host, both lower-cased: `*.d` asks for the suffix `.d`,
    * any other pattern for equality. */
  predicate PatternMatchesHost(pattern: string, host: string) {
    var pat := Lower(pattern);
    if StartsWith(pat, "*.") then EndsWith(Lower(host), pat[1..]) else Lower(host) == pat
  }

  /** The host check of `Matches`: an absent or empty list imposes nothing. */
  predicate HostAllowed(hosts: Option<seq<string>>, host: string) {
    hosts.None? || |hosts.value| == 0 ||
    exists i | 0 <= i < |hosts.value| :: PatternMatchesHost(hosts.value[i], host)
  }

  /** The path check of `Matches`: every needle occurs in the path, ignoring case. */
  predicate PathAllowed(needles: Option<seq<string>>, path: string) {
    needles.None? || forall i | 0 <= i < |needles.value| :: ContainsIgnoreCase(path, needles.value[i])
  }

  /** Whether a rule's predicate holds, fails, or throws out of the router (bad regex). */
  datatype Verdict = Holds | Fails | Throws

  /** The meaning of `Matches`: host and path checks, then the regex unless it is null or
    * white space. */
  function WhenVerdict(when: When, uri: Uri, rawUrl: string, regex: RegexEngine): Verdict {
    if !HostAllowed(when.host, uri.host) || !PathAllowed(when.pathContains, uri.absolutePath) then Fails
    else if when.urlRegex.None? || IsBlank(when.urlRegex.value) then Holds
    else match regex(when.urlRegex.value, rawUrl)
      case Match => Holds
      case NoMatch => Fails
      case BadPattern => Throws
  }

  /** `AnyHostMatch`: whether some pattern matches the host. */
  method AnyHostMatch(patterns: seq<string>, host: string) returns (found: bool)
    ensures found <==> exists i | 0 <= i < |patterns| :: PatternMatchesHost(patterns[i], host)
  {
    var h := Lower(host);
    var i := 0;
    while i < |patterns|
      invariant 0 <= i <= |patterns|
      invariant forall j | 0 <= j < i :: !PatternMatchesHost(patterns[j], host)
    {
      var pat := Lower(patterns[i]);
      if StartsWith(pat, "*.") {
        var suffix := pat[1..];
        if EndsWith(h, suffix) {
          return true;
        }
      } else if h == pat {
        return true;
      }
      i := i + 1;
    }
    return false;
  }

  /** `Matches`: the checks in source order, each failing one returning at once. */
  method Matches(when: When, uri: Uri, rawUrl: string, regex: RegexEngine) returns (v: Verdict)
    ensures v == WhenVerdict(when, uri, rawUrl, regex)
  {
    if when.host.Some? && |when.host.value| > 0 {
      var any := AnyHostMatch(when.host.value, uri.host);
      if !any {
        return Fails;
      }
    }
    if when.pathContains.Some? && |when.pathContains.value| > 0 {
      var needles := when.pathContains.value;
      var i := 0;
      while i < |needles|
        invariant 0 <= i <= |needles|
        invariant forall j | 0 <= j < i :: ContainsIgnoreCase(uri.absolutePath, needles[j])
      {
        if !ContainsIgnoreCase(uri.absolutePath, needles[i]) {
          return Fails;
        }
        i := i + 1;
      }
    }
    if when.urlRegex.Some? && !IsBlank(when.urlRegex.value) {
      var outcome := regex(when.urlRegex.value, rawUrl);
      if outcome == BadPattern {
        return Throws;
      }
      if outcome == NoMatch {
        return Fails;
      }
    }
    return Holds;
  }

  /** A `When` with no host, no path needle and no regex holds for every URL. */
  lemma UnconstrainedWhenHolds(when: When, uri: Uri, rawUrl: string, regex: RegexEngine)
    requires when.host.None? || when.host.value == []
    requires when.pathContains.None? || when.pathContains.value == []
    requires when.urlRegex.None? || IsBlank(when.urlRegex.value)
    ensures WhenVerdict(when, uri, rawUrl, regex) == Holds
  {
  }

  /** One needle missing from the path fails the rule, whatever the other checks say. */
  lemma MissingNeedleFails(when: When, uri: Uri, rawUrl: string, regex: RegexEngine, k: nat)
    requires when.pathContains.Some? && k < |when.pathContains.value|
    requires !ContainsIgnoreCase(uri.absolutePath, when.pathContains.value[k])
    ensures WhenVerdict(when, uri, rawUrl, regex) == Fails
  {
  }

  /** `*.d` matches exactly the hosts whose lower-cased form ends with `.d` lower-cased. */
  lemma WildcardPattern(d: string, host: string)
    ensures PatternMatchesHost("*." + d, host) <==> EndsWith(Lower(host), "." + Lower(d))
  {
    WildcardLowered(d);
  }

  /** Lower-casing a wildcard pattern keeps its `*.` prefix. */
  lemma WildcardLowered(d: string)
    ensures StartsWith(Lower("*." + d), "*.")
    ensures Lower("*." + d)[1..] == "." + Lower(d)
  {
    LowerAppend("*.", d);
    assert Lower("*.") == "*." by {
      assert Lower("*.")[0] == '*' && Lower("*.")[1] == '.';
    }
  }

  /** So the bare domain never matches its own wildcard pattern. */
  lemma BareDomainMissesWildcard(d: string)
    ensures !PatternMatchesHost("*." + d, d)
  {
    WildcardPattern(d, d);
  }

  /** A pattern without the `*.` prefix asks for case-insensitive equality. */
  lemma ExactPattern(pattern: string, host: string)
    requires !StartsWith(Lower(pattern), "*.")
    ensures PatternMatchesHost(pattern, host) <==> Lower(host) == Lower(pattern)
  {
  }

  // ---------------------------------------------------------------------------------------
  // Rule selection

  /** The outcome of the rule loop: the index of the rule launched, none (default action),
    * or the exception of a bad regex ending the process. */
  datatype Selection = Chosen(index: nat) | Unmatched | Aborted

  function FirstMatchFrom(rules: seq<Rule>, uri: Uri, rawUrl: string, regex: RegexEngine, from: nat): Selection
    requires from <= |rules|
    decreases |rules| - from
  {
    if from == |rules| then Unmatched
    else match WhenVerdict(rules[from].when, uri, rawUrl, regex)
      case Holds => Chosen(from)
      case Throws => Aborted
      case Fails => FirstMatchFrom(rules, uri, rawUrl, regex, from + 1)
  }

  /** The rule the `foreach` of `Main` stops at. */
  function SelectRule(rules: seq<Rule>, uri: Uri, rawUrl: string, regex: RegexEngine): Selection {
    FirstMatchFrom(rules, uri, rawUrl, regex, 0)
  }

  lemma {:induction false} FirstMatchFromChosen(rules: seq<Rule>, uri: Uri, rawUrl: string, regex: RegexEngine, from: nat, k: nat)
    requires from <= |rules|
    ensures FirstMatchFrom(rules, uri, rawUrl, regex, from) == Chosen(k) <==>
      from <= k < |rules| && WhenVerdict(rules[k].when, uri, rawUrl, regex) == Holds &&
      forall j | from <= j < k :: WhenVerdict(rules[j].when, uri, rawUrl, regex) == Fails
    decreases |rules| - from
  {
    if from < |rules| {
      FirstMatchFromChosen(rules, uri, rawUrl, regex, from + 1, k);
    }
  }

  lemma {:induction false} FirstMatchFromUnmatched(rules: seq<Rule>, uri: Uri, rawUrl: string, regex: RegexEngine, from: nat)
    requires from <= |rules|
    ensures FirstMatchFrom(rules, uri, rawUrl, regex, from) == Unmatched <==>
      forall j | from <= j < |rules| :: WhenVerdict(rules[j].when, uri, rawUrl, regex) == Fails
    decreases |rules| - from
  {
    if from < |rules| {
      FirstMatchFromUnmatched(rules, uri, rawUrl, regex, from + 1);
    }
  }

  /** The chosen rule is the first whose predicate holds; every earlier one failed. */
  lemma SelectRuleIsFirstMatch(rules: seq<Rule>, uri: Uri, rawUrl: string, regex: RegexEngine, k: nat)
    ensures SelectRule(rules, uri, rawUrl, regex) == Chosen(k) <==>
      k < |rules| && WhenVerdict(rules[k].when, uri, rawUrl, regex) == Holds &&
      forall j | 0 <= j < k :: WhenVerdict(rules[j].when, uri, rawUrl, regex) == Fails
  {
    FirstMatchFromChosen(rules, uri, rawUrl, regex, 0, k);
  }

  /** The default action is taken exactly when every rule's predicate fails. */
  lemma SelectRuleUnmatched(rules: seq<Rule>, uri: Uri, rawUrl: string, regex: RegexEngine)
    ensures SelectRule(rules, uri, rawUrl, regex) == Unmatched <==>
      forall j | 0 <= j < |rules| :: WhenVerdict(rules[j].when, uri, rawUrl, regex) == Fails
  {
    FirstMatchFromUnmatched(rules, uri, rawUrl, regex, 0);
  }

  /** Rules after the chosen one are never consulted: replacing them changes nothing. */
  lemma LaterRulesIgnored(rules: seq<Rule>, rest: seq<Rule>, uri: Uri, rawUrl: string, regex: RegexEngine, k: nat)
    requires SelectRule(rules, uri, rawUrl, regex) == Chosen(k)
    ensures k < |rules| && SelectRule(rules[..k + 1] + rest, uri, rawUrl, regex) == Chosen(k)
  {
    SelectRuleIsFirstMatch(rules, uri, rawUrl, regex, k);
    var rules' := rules[..k + 1] + rest;
    assert forall j | 0 <= j <= k :: rules'[j] == rules[j];
    SelectRuleIsFirstMatch(rules', uri, rawUrl, regex, k);
  }

  // ---------------------------------------------------------------------------------------
  // The entry point

  /** How the router process ends: an exit code, or an uncaught exception. */
  datatype Exit = Exit(code: int) | Crash

  /** `Main`, with the loaded configuration given: ignores a missing or non-absolute URL,
    * otherwise launches the first matching rule's action, or the default, on the raw URL. */
  method RouteUrl(args: seq<string>, parse: UriParser, config: Config, regex: RegexEngine, spawn: Spawner)
    returns (exit: Exit, launched: Option<StartInfo>)
    ensures |args| == 0 || parse(args[0]).None? ==> exit == Exit(0) && launched == None
    ensures |args| > 0 && parse(args[0]).Some? ==>
      match SelectRule(config.rules, parse(args[0]).value, args[0], regex)
      case Aborted => exit == Crash && launched == None
      case Unmatched =>
        launched == Some(StartFor(config.defaultAction, args[0])) &&
        exit == Exit(if spawn(launched.value) then 0 else 1)
      case Chosen(k) =>
        k < |config.rules| &&
        launched == Some(StartFor(config.rules[k].action, args[0])) &&
        exit == Exit(if spawn(launched.value) then 0 else 1)
  {
    if |args| == 0 {
      return Exit(0), None;
    }
    var rawUrl := args[0];
    var parsed := parse(rawUrl);
    if parsed.None? {
      return Exit(0), None;
    }
    var uri := parsed.value;
    var rules := config.rules;
    var i := 0;
    while i < |rules|
      invariant 0 <= i <= |rules|
      invariant SelectRule(rules, uri, rawUrl, regex) == FirstMatchFrom(rules, uri, rawUrl, regex, i)
    {
      var v := Matches(rules[i].when, uri, rawUrl, regex);
      if v == Throws {
        return Crash, None;
      }
      if v == Holds {
        var code, info := Launch(rules[i].action, rawUrl, spawn);
        return Exit(code), Some(info);
      }
      i := i + 1;
    }
    var code, info := Launch(config.defaultAction, rawUrl, spawn);
    return Exit(code), Some(info);
  }

  /** With the built-in configuration every URL goes to Firefox as its only argument. */
  lemma DefaultConfigLaunchesFirefox(uri: Uri, rawUrl: string, regex: RegexEngine)
    ensures SelectRule(DefaultConfig().rules, uri, rawUrl, regex) == Unmatched
    ensures StartFor(DefaultConfig().defaultAction, rawUrl) == StartInfo(FirefoxPath, QuoteIfNeeded(rawUrl), false)
  {
  }
}
