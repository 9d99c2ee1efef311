/**
 * The editor's main window: the "Test URL" preview, which re-implements the router's rule
 * matching, and the edits of the rule list (add, edit, delete, move up and down) and of the
 * default action.
 */
module MainWindow {
  import opened Wrappers
  import opened Text
  import opened Platform
  import opened Models
  import opened BrowserDetection
  import opened RuleEditor
  import Router

  // ---------------------------------------------------------------------------------------
  // Rule matching of the preview

  /** `MatchesHostPattern`: `*.d` asks for the suffix `.d`, any other pattern for equality,
    * both sides lower-cased; under ordinal comparison, the same test as the router's (the
    * editor's suffix test is culture-sensitive, the router's ordinal). */
  function MatchesHostPattern(pattern: string, host: string): (r: bool)
    ensures r == Router.PatternMatchesHost(pattern, host)
  {
    var h := Lower(host);
    var p := Lower(pattern);
    if StartsWith(p, "*.") then
      var suffix := p[1..];
      EndsWith(h, suffix)
    else h == p
  }

  /** What `MatchesRule` decides: some host pattern matches (when there are any), every path
    * fragment occurs in the path ignoring case, and a non-empty regex does not reject the raw
    * URL; a regex that does not parse rejects nothing. */
  predicate PreviewMatches(w: WhenCfg, uri: Uri, rawUrl: string, regex: RegexEngine) {
    HostsMatch(w.host, uri.host) && PathsMatch(w.pathContains, uri.absolutePath) && RegexAccepts(w.urlRegex, rawUrl, regex)
  }

  predicate HostsMatch(hosts: seq<string>, host: string) {
    |hosts| == 0 || exists i | 0 <= i < |hosts| :: MatchesHostPattern(hosts[i], host)
  }

  predicate PathsMatch(needles: seq<string>, path: string) {
    forall i | 0 <= i < |needles| :: ContainsIgnoreCase(path, needles[i])
  }

  predicate RegexAccepts(pattern: Option<string>, rawUrl: string, regex: RegexEngine) {
    pattern.None? || pattern.value == "" || regex(pattern.value, rawUrl) != NoMatch
  }

  /** `MatchesRule`: the host loop with its `hostMatches` flag, the path loop, then the regex. */
  method MatchesRule(rule: RuleCfg, uri: Uri, rawUrl: string, regex: RegexEngine) returns (m: bool)
    ensures m == PreviewMatches(rule.when, uri, rawUrl, regex)
  {
    var when := rule.when;
    if |when.host| > 0 {
      var hostMatches := false;
      var i := 0;
      while i < |when.host|
        invariant 0 <= i <= |when.host|
        invariant forall j | 0 <= j < i :: !MatchesHostPattern(when.host[j], uri.host)
      {
        if MatchesHostPattern(when.host[i], uri.host) {
          hostMatches := true;
          break;
        }
        i := i + 1;
      }
      if !hostMatches {
        return false;
      }
    }
    if |when.pathContains| > 0 {
      var i := 0;
      while i < |when.pathContains|
        invariant 0 <= i <= |when.pathContains|
        invariant forall j | 0 <= j < i :: ContainsIgnoreCase(uri.absolutePath, when.pathContains[j])
      {
        if !ContainsIgnoreCase(uri.absolutePath, when.pathContains[i]) {
          return false;
        }
        i := i + 1;
      }
    }
    if when.urlRegex.Some? && when.urlRegex.value != "" {
      var outcome := regex(when.urlRegex.value, rawUrl);
      if outcome == NoMatch {
        return false;
      }
    }
    return true;
  }

  /** The router's view of an editor `when` record. */
  function ToRouterWhen(w: WhenCfg): Router.When {
    Router.When(Some(w.host), Some(w.pathContains), w.urlRegex)
  }

  /** Where the regex is absent, empty, or valid and not white space, the preview decides as
    * the router does, and the router does not throw. */
  lemma PreviewAgreesWithRouter(w: WhenCfg, uri: Uri, rawUrl: string, regex: RegexEngine)
    requires w.urlRegex.None? || w.urlRegex.value == "" ||
             (!IsBlank(w.urlRegex.value) && regex(w.urlRegex.value, rawUrl) != BadPattern)
    ensures PreviewMatches(w, uri, rawUrl, regex) <==> Router.WhenVerdict(ToRouterWhen(w), uri, rawUrl, regex) == Router.Holds
    ensures Router.WhenVerdict(ToRouterWhen(w), uri, rawUrl, regex) != Router.Throws
  {
  }

  /** A regex that does not parse lets the preview match where the router throws. */
  lemma InvalidRegexDiverges(w: WhenCfg, uri: Uri, rawUrl: string, regex: RegexEngine)
    requires PreviewMatches(w.(urlRegex := None), uri, rawUrl, regex)
    requires w.urlRegex.Some? && !IsBlank(w.urlRegex.value) && regex(w.urlRegex.value, rawUrl) == BadPattern
    ensures PreviewMatches(w, uri, rawUrl, regex)
    ensures Router.WhenVerdict(ToRouterWhen(w), uri, rawUrl, regex) == Router.Throws
  {
  }

  /** A regex of white space is still run by the preview, while the router skips it. */
  lemma BlankRegexDiverges(w: WhenCfg, uri: Uri, rawUrl: string, regex: RegexEngine)
    requires w.urlRegex.Some? && w.urlRegex.value != "" && IsBlank(w.urlRegex.value)
    ensures PreviewMatches(w, uri, rawUrl, regex) <==>
      PreviewMatches(w.(urlRegex := None), uri, rawUrl, regex) && regex(w.urlRegex.value, rawUrl) != NoMatch
    ensures Router.WhenVerdict(ToRouterWhen(w), uri, rawUrl, regex) ==
      Router.WhenVerdict(ToRouterWhen(w.(urlRegex := None)), uri, rawUrl, regex)
  {
  }

  // ---------------------------------------------------------------------------------------
  // The "Test URL" preview

  /** The first rule at or after `from`, in list order, that the preview matches. */
  function FirstPreviewMatch(rules: seq<RuleCfg>, uri: Uri, rawUrl: string, regex: RegexEngine, from: nat): (r: Option<nat>)
    requires from <= |rules|
    ensures r.Some? ==> from <= r.value < |rules| && PreviewMatches(rules[r.value].when, uri, rawUrl, regex)
    ensures r.Some? ==> forall j | from <= j < r.value :: !PreviewMatches(rules[j].when, uri, rawUrl, regex)
    ensures r.None? <==> forall j | from <= j < |rules| :: !PreviewMatches(rules[j].when, uri, rawUrl, regex)
    decreases |rules| - from
  {
    if from == |rules| then None
    else if PreviewMatches(rules[from].when, uri, rawUrl, regex) then Some(from)
    else FirstPreviewMatch(rules, uri, rawUrl, regex, from + 1)
  }

  /** What the preview reports: no URL, an unusable one, the rule that matched, or the
    * default; with the command line it would run (target, arguments, quoted URL). */
  datatype TestResult =
    | MissingUrl
    | InvalidUrl
    | RuleMatched(index: nat, name: string, command: string)
    | DefaultUsed(command: string)

  /** The command line the preview shows: the target, the arguments joined with spaces, and
    * the URL in quotes. */
  function LaunchText(a: ActionCfg, url: string): string {
    a.target + " " + Join(" ", a.args) + " \"" + url + "\""
  }

  /** The meaning of `btnTestUrl_Click`: no URL, an unusable one, or the report for it. */
  function Preview(text: string, parse: UriParser, regex: RegexEngine, rules: seq<RuleCfg>, dflt: ActionCfg): TestResult {
    var url := Trim(text);
    if url == "" then MissingUrl
    else if parse(url).None? || !StartsWith(parse(url).value.scheme, "http") then InvalidUrl
    else Report(rules, parse(url).value, url, regex, dflt)
  }

  /** The report on an absolute http(s) URL: the first matching rule, or the default. */
  function Report(rules: seq<RuleCfg>, uri: Uri, url: string, regex: RegexEngine, dflt: ActionCfg): TestResult {
    match FirstPreviewMatch(rules, uri, url, regex, 0)
    case Some(k) => RuleMatched(k, rules[k].name, LaunchText(rules[k].action, url))
    case None => DefaultUsed(LaunchText(dflt, url))
  }

  /** The report names the first rule in list order whose conditions match, every earlier one
    * failing, with that rule's command line; it names the default only when none matches. */
  lemma ReportIsFirstMatch(rules: seq<RuleCfg>, uri: Uri, url: string, regex: RegexEngine, dflt: ActionCfg)
    ensures var res := Report(rules, uri, url, regex, dflt);
      && (res.RuleMatched? ==>
            (res.index < |rules| && PreviewMatches(rules[res.index].when, uri, url, regex)
             && res.name == rules[res.index].name && res.command == LaunchText(rules[res.index].action, url)
             && forall j | 0 <= j < res.index :: !PreviewMatches(rules[j].when, uri, url, regex)))
      && (res.DefaultUsed? <==> forall j | 0 <= j < |rules| :: !PreviewMatches(rules[j].when, uri, url, regex))
      && (res.DefaultUsed? ==> res.command == LaunchText(dflt, url))
      && (res.RuleMatched? || res.DefaultUsed?)
  {
  }

  /** A text that trims to nothing is reported missing; one that is not an absolute URL with
    * an http(s) scheme is reported invalid; only a usable URL gets a report. */
  lemma PreviewChecksUrl(text: string, parse: UriParser, regex: RegexEngine, rules: seq<RuleCfg>, dflt: ActionCfg)
    ensures Preview(text, parse, regex, rules, dflt) == MissingUrl <==> IsBlank(text)
    ensures Preview(text, parse, regex, rules, dflt) == InvalidUrl <==>
      !IsBlank(text) && (parse(Trim(text)).None? || !StartsWith(parse(Trim(text)).value.scheme, "http"))
  {
  }

  lemma {:induction false} FirstPreviewMatchIgnoresEnabled(rules: seq<RuleCfg>, rules': seq<RuleCfg>, uri: Uri,
                                                           rawUrl: string, regex: RegexEngine, from: nat)
    requires |rules| == |rules'| && from <= |rules|
    requires forall i | 0 <= i < |rules| :: rules'[i].when == rules[i].when
    ensures FirstPreviewMatch(rules, uri, rawUrl, regex, from) == FirstPreviewMatch(rules', uri, rawUrl, regex, from)
    decreases |rules| - from
  {
    if from < |rules| {
      FirstPreviewMatchIgnoresEnabled(rules, rules', uri, rawUrl, regex, from + 1);
    }
  }

  /** The preview looks at no rule's `Enabled`: rules that differ only there give the same
    * report. */
  lemma PreviewIgnoresEnabled(text: string, parse: UriParser, regex: RegexEngine, rules: seq<RuleCfg>,
                              rules': seq<RuleCfg>, dflt: ActionCfg)
    requires |rules| == |rules'|
    requires forall i | 0 <= i < |rules| ::
      rules'[i].name == rules[i].name && rules'[i].when == rules[i].when && rules'[i].action == rules[i].action
    ensures Preview(text, parse, regex, rules, dflt) == Preview(text, parse, regex, rules', dflt)
  {
    var url := Trim(text);
    if url != "" && parse(url).Some? && StartsWith(parse(url).value.scheme, "http") {
      var uri := parse(url).value;
      FirstPreviewMatchIgnoresEnabled(rules, rules', uri, url, regex, 0);
      ReportIgnoresEnabled(rules, rules', uri, url, regex, dflt);
    }
  }

  lemma ReportIgnoresEnabled(rules: seq<RuleCfg>, rules': seq<RuleCfg>, uri: Uri, url: string, regex: RegexEngine, dflt: ActionCfg)
    requires |rules| == |rules'|
    requires forall i | 0 <= i < |rules| ::
      rules'[i].name == rules[i].name && rules'[i].when == rules[i].when && rules'[i].action == rules[i].action
    requires FirstPreviewMatch(rules, uri, url, regex, 0) == FirstPreviewMatch(rules', uri, url, regex, 0)
    ensures Report(rules, uri, url, regex, dflt) == Report(rules', uri, url, regex, dflt)
  {
  }

  /** The router's rule for an editor rule: no `Enabled`, arguments always present. */
  function ToRouterRules(rules: seq<RuleCfg>): (r: seq<Router.Rule>)
    ensures |r| == |rules|
    ensures forall i | 0 <= i < |rules| :: r[i].when == ToRouterWhen(rules[i].when)
  {
    seq(|rules|, i requires 0 <= i < |rules| =>
      Router.Rule(rules[i].name, ToRouterWhen(rules[i].when),
                  Router.ActionCfg(rules[i].action.actionType, rules[i].action.target, Some(rules[i].action.args))))
  }

  /** Regex-compatible rules: none whose regex is white space or fails to parse on this URL. */
  predicate RegexesAgree(rules: seq<RuleCfg>, rawUrl: string, regex: RegexEngine) {
    forall i | 0 <= i < |rules| ::
      rules[i].when.urlRegex.None? || rules[i].when.urlRegex.value == "" ||
      (!IsBlank(rules[i].when.urlRegex.value) && regex(rules[i].when.urlRegex.value, rawUrl) != BadPattern)
  }

  /** On such rules, disabled ones included, the preview picks the rule the router launches,
    * and reports the default exactly when the router launches the default. */
  lemma PreviewSelectsAsRouter(rules: seq<RuleCfg>, uri: Uri, rawUrl: string, regex: RegexEngine)
    requires RegexesAgree(rules, rawUrl, regex)
    ensures var sel := Router.SelectRule(ToRouterRules(rules), uri, rawUrl, regex);
      match FirstPreviewMatch(rules, uri, rawUrl, regex, 0)
      case Some(k) => sel == Router.Chosen(k)
      case None => sel == Router.Unmatched
  {
    var rr := ToRouterRules(rules);
    forall i | 0 <= i < |rules|
      ensures PreviewMatches(rules[i].when, uri, rawUrl, regex) <==> Router.WhenVerdict(rr[i].when, uri, rawUrl, regex) == Router.Holds
      ensures Router.WhenVerdict(rr[i].when, uri, rawUrl, regex) != Router.Throws
    {
      PreviewAgreesWithRouter(rules[i].when, uri, rawUrl, regex);
    }
    match FirstPreviewMatch(rules, uri, rawUrl, regex, 0)
    case Some(k) =>
      Router.SelectRuleIsFirstMatch(rr, uri, rawUrl, regex, k);
    case None =>
      Router.SelectRuleUnmatched(rr, uri, rawUrl, regex);
  }

  // ---------------------------------------------------------------------------------------
  // List operations on `List<RuleCfg>`

  /** `List.IndexOf(x)`, searching from `from`: the first position holding `x`, or -1. */
  function IndexFrom<T(==)>(xs: seq<T>, x: T, from: nat): (i: int)
    requires from <= |xs|
    ensures i == -1 <==> forall j | from <= j < |xs| :: xs[j] != x
    ensures i != -1 ==> from <= i < |xs| && xs[i] == x && forall j | from <= j < i :: xs[j] != x
    decreases |xs| - from
  {
    if from == |xs| then -1
    else if xs[from] == x then from
    else IndexFrom(xs, x, from + 1)
  }

  /** `List.RemoveAt(i)`: the elements before `i`, then those after it. */
  function RemoveAt<T>(xs: seq<T>, i: nat): (r: seq<T>)
    requires i < |xs|
    ensures |r| == |xs| - 1
    ensures forall k | 0 <= k < |r| :: r[k] == if k < i then xs[k] else xs[k + 1]
    ensures multiset(r) == multiset(xs) - multiset{xs[i]}
  {
    assert xs == xs[..i] + [xs[i]] + xs[i + 1..];
    xs[..i] + xs[i + 1..]
  }

  /** `List.Insert(i, x)`: `x` at position `i`, later elements one place on. */
  function InsertAt<T>(xs: seq<T>, i: nat, x: T): (r: seq<T>)
    requires i <= |xs|
    ensures |r| == |xs| + 1 && r[i] == x
    ensures forall k | 0 <= k < |r| && k != i :: r[k] == if k < i then xs[k] else xs[k - 1]
    ensures multiset(r) == multiset(xs) + multiset{x}
  {
    assert xs == xs[..i] + xs[i..];
    xs[..i] + [x] + xs[i..]
  }

  /** `List.Remove(x)`: drops the first occurrence of `x`, if any, keeping the order of the
    * rest. */
  function RemoveFirst<T(==)>(xs: seq<T>, x: T): (r: seq<T>)
    ensures x !in xs ==> r == xs
    ensures x in xs ==> |r| == |xs| - 1 && multiset(r) == multiset(xs) - multiset{x}
    ensures x in xs ==> var i := IndexFrom(xs, x, 0);
      forall k | 0 <= k < |r| :: r[k] == if k < i then xs[k] else xs[k + 1]
  {
    var i := IndexFrom(xs, x, 0);
    if i == -1 then xs else RemoveAt(xs, i)
  }

  /** The list with the element at `i` taken out and inserted again at `j`; moving by one
    * place swaps two neighbours. */
  function Move<T>(xs: seq<T>, i: nat, j: nat): (r: seq<T>)
    requires i < |xs| && j < |xs|
    ensures multiset(r) == multiset(xs)
    ensures j == i + 1 ==> r == xs[i := xs[j]][j := xs[i]]
    ensures j + 1 == i ==> r == xs[j := xs[i]][i := xs[j]]
  {
    var r := InsertAt(RemoveAt(xs, i), j, xs[i]);
    assert j == i + 1 ==> r == xs[i := xs[j]][j := xs[i]] by {
      if j == i + 1 {
        MoveDownSwaps(xs, i);
      }
    }
    assert j + 1 == i ==> r == xs[j := xs[i]][i := xs[j]] by {
      if j + 1 == i {
        MoveUpSwaps(xs, i);
      }
    }
    assert xs[i] in multiset(xs);
    r
  }

  // ---------------------------------------------------------------------------------------
  // The window

  /** The records the rule objects hold, in list order. */
  function RuleValues(rs: seq<RuleObject>): (r: seq<RuleCfg>)
    reads rs
    ensures |r| == |rs|
    ensures forall i | 0 <= i < |rs| :: r[i] == rs[i].Value()
  {
    seq(|rs|, i requires 0 <= i < |rs| reads rs => rs[i].Value())
  }

  /** What the configuration service hands the window: the version, the default action and
    * the rule objects. */
  datatype LoadedConfig = LoadedConfig(version: int32, defaultAction: ActionCfg, rules: seq<RuleObject>)

  /** The default action after a save from the two text boxes. */
  function SavedDefault(a: ActionCfg, targetText: string, argsText: string): (r: ActionCfg)
    ensures r.actionType == a.actionType && r.browser == a.browser
    ensures IsTrimmed(r.target)
    ensures forall i | 0 <= i < |r.args| :: r.args[i] != "" && ' ' !in r.args[i]
  {
    ArgsClean(argsText);
    a.(target := Trim(targetText), args := SplitNonEmpty(argsText, ' '))
  }

  /** Saving the text boxes as they were first shown keeps a default action whose target has
    * no surrounding white space and whose arguments are non-empty words without spaces. */
  lemma SaveShownDefaults(a: ActionCfg)
    requires IsTrimmed(a.target)
    requires forall i | 0 <= i < |a.args| :: a.args[i] != "" && ' ' !in a.args[i]
    ensures SavedDefault(a, a.target, Join(" ", a.args)) == a
  {
    ArgsLoadSave(a.args);
  }

  /** Saving twice is saving once. */
  lemma SavedDefaultIdempotent(a: ActionCfg, targetText: string, argsText: string)
    ensures var b := SavedDefault(a, targetText, argsText);
      SavedDefault(b, b.target, Join(" ", b.args)) == b
  {
    var b := SavedDefault(a, targetText, argsText);
    SaveShownDefaults(b);
  }

  class MainForm {
    /** `_config`: its version, its default action, and its list of rule objects. */
    var version: int32
    var defaultAction: ActionCfg
    var rules: seq<RuleObject>
    /** `_browsers`, detected once when the window opens. */
    const browsers: seq<BrowserApp>
    /** The default-target and default-arguments text boxes. */
    var targetText: string
    var argsText: string

    /** The window's constructor: the loaded configuration, or the built-in defaults when
      * loading failed; the detected browsers, or none when detection failed; then the text
      * boxes show the default action. */
    constructor (loaded: Option<LoadedConfig>, detected: Option<seq<BrowserApp>>)
      ensures Config() == if loaded.Some? then UrlRouterConfig(loaded.value.version, loaded.value.defaultAction, RuleValues(loaded.value.rules))
                          else Defaults()
      ensures loaded.Some? ==> rules == loaded.value.rules
      ensures browsers == if detected.Some? then detected.value else []
      ensures targetText == defaultAction.target && argsText == Join(" ", defaultAction.args)
    {
      if loaded.Some? {
        version := loaded.value.version;
        defaultAction := loaded.value.defaultAction;
        rules := loaded.value.rules;
      } else {
        var d := Defaults();
        version := d.version;
        defaultAction := d.defaultAction;
        rules := [];
      }
      browsers := if detected.Some? then detected.value else [];
      new;
      ShowDefaults();
    }

    /** The configuration the window would save. */
    function Config(): UrlRouterConfig
      reads this, rules
    {
      UrlRouterConfig(version, defaultAction, RuleValues(rules))
    }

    /** `SetupDataBinding`, for the default action: the target as it is, the arguments joined
      * with spaces. */
    method ShowDefaults()
      modifies this
      ensures targetText == defaultAction.target && argsText == Join(" ", defaultAction.args)
      ensures version == old(version) && defaultAction == old(defaultAction) && rules == old(rules)
    {
      targetText := defaultAction.target;
      argsText := Join(" ", defaultAction.args);
    }

    /** `cmbDefaultBrowser_SelectedIndexChanged`: the chosen browser's path goes into the
      * target box; the configuration is untouched until it is saved. */
    method DefaultBrowserChanged(i: nat)
      requires i < |browsers|
      modifies this
      ensures targetText == browsers[i].exePath && argsText == old(argsText)
      ensures version == old(version) && defaultAction == old(defaultAction) && rules == old(rules)
    {
      targetText := browsers[i].exePath;
    }

    /** `btnSave_Click`: the default target is the trimmed text of its box, its arguments the
      * non-empty space-separated words of theirs; writing the file is not modelled. */
    method SaveDefaults()
      modifies this
      ensures defaultAction == SavedDefault(old(defaultAction), old(targetText), old(argsText))
      ensures rules == old(rules) && version == old(version)
      ensures targetText == old(targetText) && argsText == old(argsText)
    {
      defaultAction := defaultAction.(target := Trim(targetText));
      defaultAction := defaultAction.(args := SplitNonEmpty(argsText, ' '));
    }

    /** `btnAddRule_Click`: a dialog on a new rule; on OK the rule is appended. */
    method AddRule(s: Session) returns (res: DialogResult)
      requires SessionFits(browsers, s)
      modifies this
      ensures var o := Outcome(browsers, Loaded(browsers, NewRule(), NoResult), s);
        && res == o.result
        && (res == OK ==>
              (|rules| == |old(rules)| + 1 && rules[..|old(rules)|] == old(rules)
               && fresh(rules[|old(rules)|]) && rules[|old(rules)|].Value() == o.rule))
        && (res != OK ==> rules == old(rules))
      ensures version == old(version) && defaultAction == old(defaultAction)
    {
      var dialog := new RuleEditorDialog(browsers, null);
      res := dialog.ShowDialog(s);
      if res == OK {
        rules := rules + [dialog.rule];
      }
    }

    /** `btnEditRule_Click`: a dialog on the selected rule object itself. Whatever the
      * outcome, the list keeps the same objects in the same order (the OK branch stores the
      * object back where it already is); the selected object holds what the session left,
      * and every other object keeps its record. */
    method EditRule(selected: Option<nat>, s: Session) returns (res: DialogResult)
      requires selected.Some? ==> selected.value < |rules|
      requires SessionFits(browsers, s)
      modifies this, rules
      ensures rules == old(rules) && version == old(version) && defaultAction == old(defaultAction)
      ensures selected.None? ==> res == NoResult && forall x | x in rules :: x.Value() == old(x.Value())
      ensures selected.Some? ==>
        var x := rules[selected.value];
        && res == Outcome(browsers, Loaded(browsers, old(x.Value()), NoResult), s).result
        && x.Value() == Outcome(browsers, Loaded(browsers, old(x.Value()), NoResult), s).rule
        && forall y | y in rules && y != x :: y.Value() == old(y.Value())
    {
      if selected.None? {
        return NoResult;
      }
      var rule := rules[selected.value];
      var dialog := new RuleEditorDialog(browsers, rule);
      res := dialog.ShowDialog(s);
      if res == OK {
        var index := IndexFrom(rules, rule, 0);
        if index >= 0 {
          var updated := rules[index := dialog.rule];
          assert updated == rules by {
            assert rules[index] == dialog.rule;
            assert forall k | 0 <= k < |rules| :: updated[k] == rules[k];
          }
          rules := updated;
        }
      }
    }

    /** `btnDeleteRule_Click`: on a confirmed delete, the first occurrence of the selected
      * object leaves the list. */
    method DeleteRule(selected: Option<nat>, confirmed: bool)
      requires selected.Some? ==> selected.value < |rules|
      modifies this
      ensures selected.Some? && confirmed ==> rules == RemoveFirst(old(rules), old(rules)[selected.value])
      ensures selected.None? || !confirmed ==> rules == old(rules)
      ensures version == old(version) && defaultAction == old(defaultAction)
    {
      if selected.None? {
        return;
      }
      var rule := rules[selected.value];
      if confirmed {
        rules := RemoveFirst(rules, rule);
      }
    }

    /** `btnMoveUp_Click`: the selected rule and the one above it trade places; the first rule
      * stays. */
    method MoveUp(selected: Option<nat>)
      requires selected.Some? ==> selected.value < |rules|
      modifies this
      ensures selected.Some? && selected.value > 0 ==>
        var i := selected.value;
        rules == old(rules)[i - 1 := old(rules)[i]][i := old(rules)[i - 1]]
      ensures selected.None? || selected.value == 0 ==> rules == old(rules)
      ensures multiset(rules) == multiset(old(rules))
      ensures version == old(version) && defaultAction == old(defaultAction)
    {
      if selected.None? {
        return;
      }
      var i := selected.value;
      if i > 0 {
        rules := Move(rules, i, i - 1);
      }
    }

    /** `btnMoveDown_Click`: the selected rule and the one below it trade places; the last rule
      * stays. */
    method MoveDown(selected: Option<nat>)
      requires selected.Some? ==> selected.value < |rules|
      modifies this
      ensures selected.Some? && selected.value < |old(rules)| - 1 ==>
        var i := selected.value;
        rules == old(rules)[i := old(rules)[i + 1]][i + 1 := old(rules)[i]]
      ensures selected.None? || selected.value == |old(rules)| - 1 ==> rules == old(rules)
      ensures multiset(rules) == multiset(old(rules))
      ensures version == old(version) && defaultAction == old(defaultAction)
    {
      if selected.None? {
        return;
      }
      var i := selected.value;
      if i < |rules| - 1 {
        rules := Move(rules, i, i + 1);
      }
    }

    /** `btnTestUrl_Click`: the report for the text typed in the test box. */
    method TestUrl(text: string, parse: UriParser, regex: RegexEngine) returns (res: TestResult)
      ensures res == Preview(text, parse, regex, RuleValues(rules), defaultAction)
    {
      var url := Trim(text);
      if url == "" {
        return MissingUrl;
      }
      var uri := parse(url);
      if uri.None? || !StartsWith(uri.value.scheme, "http") {
        return InvalidUrl;
      }
      ghost var values := RuleValues(rules);
      var i := 0;
      while i < |rules|
        invariant 0 <= i <= |rules|
        invariant FirstPreviewMatch(values, uri.value, url, regex, 0) == FirstPreviewMatch(values, uri.value, url, regex, i)
      {
        var rule := rules[i].Value();
        var m := MatchesRule(rule, uri.value, url, regex);
        if m {
          return RuleMatched(i, rule.name, LaunchText(rule.action, url));
        }
        i := i + 1;
      }
      return DefaultUsed(LaunchText(defaultAction, url));
    }
  }

  /** Removing the element at `i` and inserting it one place earlier swaps it with its
    * predecessor. */
  lemma MoveUpSwaps<T>(xs: seq<T>, i: nat)
    requires 0 < i < |xs|
    ensures InsertAt(RemoveAt(xs, i), i - 1, xs[i]) == xs[i - 1 := xs[i]][i := xs[i - 1]]
    ensures multiset(InsertAt(RemoveAt(xs, i), i - 1, xs[i])) == multiset(xs)
  {
    var removed := RemoveAt(xs, i);
    var r := InsertAt(removed, i - 1, xs[i]);
    var swapped := xs[i - 1 := xs[i]][i := xs[i - 1]];
    forall k | 0 <= k < |r|
      ensures r[k] == swapped[k]
    {
      if k != i - 1 {
        assert r[k] == if k < i - 1 then removed[k] else removed[k - 1];
      }
    }
    assert xs[i] in multiset(xs);
  }

  /** Removing the element at `i` and inserting it one place later swaps it with its
    * successor. */
  lemma MoveDownSwaps<T>(xs: seq<T>, i: nat)
    requires i + 1 < |xs|
    ensures InsertAt(RemoveAt(xs, i), i + 1, xs[i]) == xs[i := xs[i + 1]][i + 1 := xs[i]]
    ensures multiset(InsertAt(RemoveAt(xs, i), i + 1, xs[i])) == multiset(xs)
  {
    var removed := RemoveAt(xs, i);
    var r := InsertAt(removed, i + 1, xs[i]);
    var swapped := xs[i := xs[i + 1]][i + 1 := xs[i]];
    forall k | 0 <= k < |r|
      ensures r[k] == swapped[k]
    {
      if k != i + 1 {
        assert r[k] == if k < i + 1 then removed[k] else removed[k - 1];
      }
    }
    assert xs[i] in multiset(xs);
  }
}
