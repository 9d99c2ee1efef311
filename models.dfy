/**
 * The editor's configuration records and their JSON form. `FromJson` reads a parsed
 * `JsonElement` with defaults for absent fields and drops null and empty strings from string
 * lists; `ToJson` writes every field except an empty browser or regex.
 */
module Models {
  import opened Wrappers
  import opened Text
  import opened Platform

  /** A parsed JSON value (`JsonElement`); an object is a map from property name to value. */
  datatype Json =
    | JNull
    | JBool(b: bool)
    | JNumber(n: int)
    | JString(s: string)
    | JArray(items: seq<Json>)
    | JObject(fields: map<string, Json>)

  /** The `InvalidOperationException` of an accessor used on the wrong kind of element
    * (`TryGetProperty` on a non-object is `NotAnObject`), and the `FormatException` of
    * `GetInt32` on a number outside `int`. */
  datatype JsonError = NotAnObject | WrongKind | OutOfRange

  // ---------------------------------------------------------------------------------------
  // JsonElement accessors

  /** `TryGetProperty(name, out v)` on an object: the property when present. (On any other
    * kind of element it throws; the readers below check that once, before the first read.) */
  function Property(fields: map<string, Json>, name: string): (r: Option<Json>)
    ensures r.Some? <==> name in fields
  {
    if name in fields then Some(fields[name]) else None
  }

  /** `GetString()`: the text, `None` for a JSON null, an error for any other kind. */
  function GetString(e: Json): Result<Option<string>, JsonError> {
    match e
    case JString(s) => Ok(Some(s))
    case JNull => Ok(None)
    case _ => Err(WrongKind)
  }

  /** `GetBoolean()`. */
  function GetBoolean(e: Json): Result<bool, JsonError> {
    if e.JBool? then Ok(e.b) else Err(WrongKind)
  }

  /** `GetInt32()`. */
  function GetInt32(e: Json): Result<int32, JsonError> {
    if !e.JNumber? then Err(WrongKind)
    else if -0x8000_0000 <= e.n < 0x8000_0000 then Ok(e.n as int32)
    else Err(OutOfRange)
  }

  /** `TryGetProperty(name, out v) ? v.GetString() ?? dflt : dflt`. */
  function StringOr(p: Option<Json>, dflt: string): Result<string, JsonError> {
    if p.None? then Ok(dflt)
    else
      var s :- GetString(p.value);
      Ok(if s.Some? then s.value else dflt)
  }

  /** `TryGetProperty(name, out v) ? v.GetString() : null`. */
  function OptionalString(p: Option<Json>): Result<Option<string>, JsonError> {
    if p.None? then Ok(None) else GetString(p.value)
  }

  /** `.Select(x => x.GetString() ?? "").Where(x => !string.IsNullOrEmpty(x))` over array items. */
  function StringItems(items: seq<Json>): (r: Result<seq<string>, JsonError>)
    ensures r.Ok? ==> forall i | 0 <= i < |r.value| :: r.value[i] != ""
  {
    if items == [] then Ok([])
    else
      var head :- GetString(items[0]);
      var tail :- StringItems(items[1..]);
      var s := if head.Some? then head.value else "";
      Ok(if s == "" then tail else [s] + tail)
  }

  /** A string-list property: the filtered items of an array, empty for anything else. */
  function StringList(p: Option<Json>): Result<seq<string>, JsonError> {
    if p.Some? && p.value.JArray? then StringItems(p.value.items) else Ok([])
  }

  function Strings(xs: seq<string>): (r: seq<Json>)
    ensures |r| == |xs|
    ensures forall i | 0 <= i < |xs| :: r[i] == JString(xs[i])
  {
    seq(|xs|, i requires 0 <= i < |xs| => JString(xs[i]))
  }

  // ---------------------------------------------------------------------------------------
  // Records

  datatype ActionCfg = ActionCfg(actionType: string, target: string, browser: Option<string>, args: seq<string>)
  datatype WhenCfg = WhenCfg(host: seq<string>, pathContains: seq<string>, urlRegex: Option<string>)
  datatype RuleCfg = RuleCfg(name: string, when: WhenCfg, action: ActionCfg, enabled: bool)
  datatype UrlRouterConfig = UrlRouterConfig(version: int32, defaultAction: ActionCfg, rules: seq<RuleCfg>)

  /** `new ActionCfg()`: the property initialisers. */
  function NewAction(): ActionCfg {
    ActionCfg("app", "", None, [])
  }

  /** `new WhenCfg()`. */
  function NewWhen(): WhenCfg {
    WhenCfg([], [], None)
  }

  /** `new RuleCfg()`. */
  function NewRule(): RuleCfg {
    RuleCfg("", NewWhen(), NewAction(), true)
  }

  const FirefoxPath: string := "C:\\Program Files\\Mozilla Firefox\\firefox.exe"

  /** `UrlRouterConfig.Defaults()`. */
  function Defaults(): UrlRouterConfig {
    UrlRouterConfig(1, ActionCfg("app", FirefoxPath, None, []), [])
  }

  /** A `RuleCfg` object as the editor holds it: the rule list keeps references to these, and
    * the rule dialog sets their properties in place. */
  class RuleObject {
    var name: string
    var when: WhenCfg
    var action: ActionCfg
    var enabled: bool

    /** The record the object currently holds. */
    function Value(): RuleCfg
      reads this
    {
      RuleCfg(name, when, action, enabled)
    }

    /** `new RuleCfg()`. */
    constructor ()
      ensures Value() == NewRule()
    {
      name := "";
      when := NewWhen();
      action := NewAction();
      enabled := true;
    }
  }

  // ---------------------------------------------------------------------------------------
  // FromJson

  function ActionFromJson(e: Json): (r: Result<ActionCfg, JsonError>)
    ensures r.Ok? ==> NoEmpty(r.value.args)
  {
    if !e.JObject? then Err(NotAnObject)
    else
      var actionType :- StringOr(Property(e.fields, "type"), "app");
      var target :- StringOr(Property(e.fields, "target"), "");
      var browser :- OptionalString(Property(e.fields, "browser"));
      var args :- StringList(Property(e.fields, "args"));
      Ok(ActionCfg(actionType, target, browser, args))
  }

  function WhenFromJson(e: Json): (r: Result<WhenCfg, JsonError>)
    ensures r.Ok? ==> NoEmpty(r.value.host) && NoEmpty(r.value.pathContains)
  {
    if !e.JObject? then Err(NotAnObject)
    else
      var host :- StringList(Property(e.fields, "host"));
      var path :- StringList(Property(e.fields, "pathContains"));
      var regex :- OptionalString(Property(e.fields, "urlRegex"));
      Ok(WhenCfg(host, path, regex))
  }

  function RuleFromJson(e: Json): (r: Result<RuleCfg, JsonError>)
    ensures r.Ok? ==> NoEmpty(r.value.action.args) && NoEmpty(r.value.when.host) && NoEmpty(r.value.when.pathContains)
  {
    if !e.JObject? then Err(NotAnObject)
    else
      var name :- StringOr(Property(e.fields, "name"), "");
      var w := Property(e.fields, "when");
      var when :- if w.Some? then WhenFromJson(w.value) else Ok(NewWhen());
      var a := Property(e.fields, "action");
      var action :- if a.Some? then ActionFromJson(a.value) else Ok(NewAction());
      var en := Property(e.fields, "enabled");
      var enabled :- if en.Some? then GetBoolean(en.value) else Ok(true);
      Ok(RuleCfg(name, when, action, enabled))
  }

  /** `.Select(RuleCfg.FromJson).ToList()`: every item, in order; the first failure throws. */
  function RulesFromJson(items: seq<Json>): (r: Result<seq<RuleCfg>, JsonError>)
    ensures r.Ok? ==> |r.value| == |items|
    ensures r.Ok? ==> forall i | 0 <= i < |items| :: RuleFromJson(items[i]) == Ok(r.value[i])
    ensures r.Err? <==> exists i | 0 <= i < |items| :: RuleFromJson(items[i]).Err?
  {
    if items == [] then Ok([])
    else
      var head :- RuleFromJson(items[0]);
      var tail :- RulesFromJson(items[1..]);
      Ok([head] + tail)
  }

  function ConfigFromJson(e: Json): (r: Result<UrlRouterConfig, JsonError>)
    ensures r.Ok? ==> CleanLists(r.value)
  {
    if !e.JObject? then Err(NotAnObject)
    else
      var v := Property(e.fields, "version");
      var version :- if v.Some? then GetInt32(v.value) else Ok(1);
      var d := Property(e.fields, "default");
      var dflt :- if d.Some? then ActionFromJson(d.value) else Ok(NewAction());
      var r := Property(e.fields, "rules");
      var rules :- if r.Some? && r.value.JArray? then RulesFromJson(r.value.items) else Ok([]);
      Ok(UrlRouterConfig(version, dflt, rules))
  }

  // ---------------------------------------------------------------------------------------
  // ToJson

  /** The optional `browser`/`urlRegex` property: written only when non-null and non-empty. */
  function OptionalField(name: string, o: Option<string>): map<string, Json> {
    if o.Some? && o.value != "" then map[name := JString(o.value)] else map[]
  }

  function ActionToJson(a: ActionCfg): Json {
    JObject(map["type" := JString(a.actionType), "target" := JString(a.target), "args" := JArray(Strings(a.args))]
      + OptionalField("browser", a.browser))
  }

  function WhenToJson(w: WhenCfg): Json {
    JObject(map["host" := JArray(Strings(w.host)), "pathContains" := JArray(Strings(w.pathContains))]
      + OptionalField("urlRegex", w.urlRegex))
  }

  function RuleToJson(r: RuleCfg): Json {
    JObject(map["name" := JString(r.name), "when" := WhenToJson(r.when), "action" := ActionToJson(r.action),
      "enabled" := JBool(r.enabled)])
  }

  function RulesToJson(rs: seq<RuleCfg>): (r: seq<Json>)
    ensures |r| == |rs|
    ensures forall i | 0 <= i < |rs| :: r[i] == RuleToJson(rs[i])
  {
    seq(|rs|, i requires 0 <= i < |rs| => RuleToJson(rs[i]))
  }

  function ConfigToJson(c: UrlRouterConfig): Json {
    JObject(map["version" := JNumber(c.version as int), "default" := ActionToJson(c.defaultAction),
      "rules" := JArray(RulesToJson(c.rules))])
  }

  // ---------------------------------------------------------------------------------------
  // Canonical form: what survives a write and a read

  /** An empty optional string reads back as absent. */
  function CanonText(o: Option<string>): Option<string> {
    if o == Some("") then None else o
  }

  function CanonAction(a: ActionCfg): ActionCfg {
    a.(browser := CanonText(a.browser), args := DropEmpty(a.args))
  }

  function CanonWhen(w: WhenCfg): WhenCfg {
    w.(host := DropEmpty(w.host), pathContains := DropEmpty(w.pathContains), urlRegex := CanonText(w.urlRegex))
  }

  function CanonRule(r: RuleCfg): RuleCfg {
    r.(when := CanonWhen(r.when), action := CanonAction(r.action))
  }

  function CanonRules(rs: seq<RuleCfg>): (r: seq<RuleCfg>)
    ensures |r| == |rs|
    ensures forall i | 0 <= i < |rs| :: r[i] == CanonRule(rs[i])
  {
    seq(|rs|, i requires 0 <= i < |rs| => CanonRule(rs[i]))
  }

  function CanonConfig(c: UrlRouterConfig): UrlRouterConfig {
    c.(defaultAction := CanonAction(c.defaultAction), rules := CanonRules(c.rules))
  }

  predicate NoEmpty(xs: seq<string>) {
    forall i | 0 <= i < |xs| :: xs[i] != ""
  }

  predicate NonEmptyIfPresent(o: Option<string>) {
    o.None? || o.value != ""
  }

  /** A configuration that a write and a read leave as it is: no empty list entries, no
    * empty browser or regex. */
  predicate WellFormed(c: UrlRouterConfig) {
    && NoEmpty(c.defaultAction.args) && NonEmptyIfPresent(c.defaultAction.browser)
    && forall i | 0 <= i < |c.rules| ::
         && NoEmpty(c.rules[i].action.args) && NonEmptyIfPresent(c.rules[i].action.browser)
         && NoEmpty(c.rules[i].when.host) && NoEmpty(c.rules[i].when.pathContains)
         && NonEmptyIfPresent(c.rules[i].when.urlRegex)
  }

  // ---------------------------------------------------------------------------------------
  // Round trip

  lemma {:induction false} StringItemsOfStrings(xs: seq<string>)
    ensures StringItems(Strings(xs)) == Ok(DropEmpty(xs))
    decreases |xs|
  {
    if xs != [] {
      assert Strings(xs)[1..] == Strings(xs[1..]);
      StringItemsOfStrings(xs[1..]);
    }
  }

  /** The properties `ActionToJson` writes, read back one by one. */
  lemma ActionProperties(a: ActionCfg)
    ensures var m := ActionToJson(a).fields;
      && Property(m, "type") == Some(JString(a.actionType))
      && Property(m, "target") == Some(JString(a.target))
      && Property(m, "args") == Some(JArray(Strings(a.args)))
      && Property(m, "browser") == if a.browser.Some? && a.browser.value != "" then Some(JString(a.browser.value)) else None
  {
  }

  lemma ActionRoundTrip(a: ActionCfg)
    ensures ActionFromJson(ActionToJson(a)) == Ok(CanonAction(a))
  {
    ActionProperties(a);
    StringItemsOfStrings(a.args);
  }

  /** The properties `WhenToJson` writes, read back one by one. */
  lemma WhenProperties(w: WhenCfg)
    ensures var m := WhenToJson(w).fields;
      && Property(m, "host") == Some(JArray(Strings(w.host)))
      && Property(m, "pathContains") == Some(JArray(Strings(w.pathContains)))
      && Property(m, "urlRegex") == if w.urlRegex.Some? && w.urlRegex.value != "" then Some(JString(w.urlRegex.value)) else None
  {
  }

  lemma WhenRoundTrip(w: WhenCfg)
    ensures WhenFromJson(WhenToJson(w)) == Ok(CanonWhen(w))
  {
    WhenProperties(w);
    StringItemsOfStrings(w.host);
    StringItemsOfStrings(w.pathContains);
  }

  /** The properties `RuleToJson` writes, read back one by one. */
  lemma RuleProperties(r: RuleCfg)
    ensures var m := RuleToJson(r).fields;
      && Property(m, "name") == Some(JString(r.name))
      && Property(m, "when") == Some(WhenToJson(r.when))
      && Property(m, "action") == Some(ActionToJson(r.action))
      && Property(m, "enabled") == Some(JBool(r.enabled))
  {
  }

  lemma RuleRoundTrip(r: RuleCfg)
    ensures RuleFromJson(RuleToJson(r)) == Ok(CanonRule(r))
  {
    RuleProperties(r);
    WhenRoundTrip(r.when);
    ActionRoundTrip(r.action);
    assert RuleFromJson(RuleToJson(r)) == Ok(RuleCfg(r.name, CanonWhen(r.when), CanonAction(r.action), r.enabled));
  }

  lemma RulesRoundTrip(rs: seq<RuleCfg>)
    ensures RulesFromJson(RulesToJson(rs)) == Ok(CanonRules(rs))
  {
    var js := RulesToJson(rs);
    forall i | 0 <= i < |rs|
      ensures RuleFromJson(js[i]) == Ok(CanonRule(rs[i]))
    {
      RuleRoundTrip(rs[i]);
    }
    var r := RulesFromJson(js);
    assert r.Ok?;
    assert r.value == CanonRules(rs);
  }

  /** The properties `ConfigToJson` writes, read back one by one. */
  lemma ConfigProperties(c: UrlRouterConfig)
    ensures var m := ConfigToJson(c).fields;
      && Property(m, "version") == Some(JNumber(c.version as int))
      && Property(m, "default") == Some(ActionToJson(c.defaultAction))
      && Property(m, "rules") == Some(JArray(RulesToJson(c.rules)))
  {
  }

  /** Reading back what was written gives the canonical form of the configuration. */
  lemma ConfigRoundTrip(c: UrlRouterConfig)
    ensures ConfigFromJson(ConfigToJson(c)) == Ok(CanonConfig(c))
  {
    ConfigProperties(c);
    ActionRoundTrip(c.defaultAction);
    RulesRoundTrip(c.rules);
    assert ConfigFromJson(ConfigToJson(c)) == Ok(UrlRouterConfig(c.version, CanonAction(c.defaultAction), CanonRules(c.rules)));
  }

  /** A well-formed configuration survives a write and a read unchanged. */
  lemma WellFormedRoundTrip(c: UrlRouterConfig)
    requires WellFormed(c)
    ensures ConfigFromJson(ConfigToJson(c)) == Ok(c)
  {
    ConfigRoundTrip(c);
    assert CanonConfig(c).rules == c.rules;
  }

  // ---------------------------------------------------------------------------------------
  // Normalisation

  /** Every list read from JSON is free of empty entries. */
  predicate CleanLists(c: UrlRouterConfig) {
    && NoEmpty(c.defaultAction.args)
    && forall i | 0 <= i < |c.rules| ::
         NoEmpty(c.rules[i].action.args) && NoEmpty(c.rules[i].when.host) && NoEmpty(c.rules[i].when.pathContains)
  }

  /** A read of a document followed by a write. */
  function Normalize(e: Json): Result<Json, JsonError> {
    var c :- ConfigFromJson(e);
    Ok(ConfigToJson(c))
  }

  lemma CanonInvisibleInJson(c: UrlRouterConfig)
    requires CleanLists(c)
    ensures ConfigToJson(CanonConfig(c)) == ConfigToJson(c)
  {
    assert RulesToJson(CanonRules(c.rules)) == RulesToJson(c.rules);
  }

  /** Normalising a second time changes nothing. */
  lemma NormalizeIdempotent(e: Json)
    requires Normalize(e).Ok?
    ensures Normalize(Normalize(e).value) == Normalize(e)
  {
    var c := ConfigFromJson(e).value;
    ConfigRoundTrip(c);
    CanonInvisibleInJson(c);
  }

  // ---------------------------------------------------------------------------------------
  // Defaults and error cases

  /** Absent properties take the initialiser defaults: type "app", target "", no browser,
    * no arguments; a non-array `args` also gives no arguments. */
  lemma ActionDefaults(m: map<string, Json>)
    requires "target" !in m && "browser" !in m
    requires "type" !in m || m["type"] == JNull
    requires "args" !in m || !m["args"].JArray?
    ensures ActionFromJson(JObject(m)) == Ok(NewAction())
  {
  }

  /** Each action property takes its default on its own, whatever the others hold: a missing
    * or null `type` reads as "app", a missing or null `target` as "", a missing or null
    * `browser` as no browser, and a missing or non-array `args` as no arguments. */
  lemma ActionFieldDefaults(m: map<string, Json>)
    requires ActionFromJson(JObject(m)).Ok?
    ensures "type" !in m || m["type"] == JNull ==> ActionFromJson(JObject(m)).value.actionType == "app"
    ensures "target" !in m || m["target"] == JNull ==> ActionFromJson(JObject(m)).value.target == ""
    ensures "browser" !in m || m["browser"] == JNull ==> ActionFromJson(JObject(m)).value.browser == None
    ensures "args" !in m || !m["args"].JArray? ==> ActionFromJson(JObject(m)).value.args == []
  {
  }

  /** `x.GetString() ?? ""` over items that are strings or nulls. */
  function ItemTexts(items: seq<Json>): (r: seq<string>)
    requires forall i | 0 <= i < |items| :: items[i].JString? || items[i].JNull?
    ensures |r| == |items|
    ensures forall i | 0 <= i < |items| :: r[i] == if items[i].JString? then items[i].s else ""
  {
    seq(|items|, i requires 0 <= i < |items| => if items[i].JString? then items[i].s else "")
  }

  /** Null and empty strings leave a string array; the other strings are kept, in order and
    * with their repetitions. */
  lemma {:induction false} StringItemsFilter(items: seq<Json>)
    requires forall i | 0 <= i < |items| :: items[i].JString? || items[i].JNull?
    ensures StringItems(items) == Ok(DropEmpty(ItemTexts(items)))
    decreases |items|
  {
    if items != [] {
      var ts := ItemTexts(items);
      assert ts[1..] == ItemTexts(items[1..]);
      StringItemsFilter(items[1..]);
      assert DropEmpty(ts) == if ts[0] == "" then DropEmpty(ts[1..]) else [ts[0]] + DropEmpty(ts[1..]);
    }
  }

  /** An `enabled` that is present but not a boolean makes the read fail. */
  lemma EnabledMustBeBoolean(m: map<string, Json>)
    requires "enabled" in m && !m["enabled"].JBool?
    ensures RuleFromJson(JObject(m)).Err?
  {
  }

  /** An object with no rule fields reads as an enabled rule with empty name, no constraints
    * and the default action. */
  lemma RuleDefaults()
    ensures RuleFromJson(JObject(map[])) == Ok(NewRule())
  {
  }

  /** Each rule property takes its default on its own: a missing or null `name` reads as "",
    * a missing `when` as no constraints, a missing `action` as `new ActionCfg()`, and a
    * missing `enabled` as enabled. */
  lemma RuleFieldDefaults(m: map<string, Json>)
    requires RuleFromJson(JObject(m)).Ok?
    ensures "name" !in m || m["name"] == JNull ==> RuleFromJson(JObject(m)).value.name == ""
    ensures "when" !in m ==> RuleFromJson(JObject(m)).value.when == NewWhen()
    ensures "action" !in m ==> RuleFromJson(JObject(m)).value.action == NewAction()
    ensures "enabled" !in m ==> RuleFromJson(JObject(m)).value.enabled
  {
  }

  /** An empty document reads with version 1 and no rules, but its default action is
    * `new ActionCfg()` (empty target), not the Firefox action of `Defaults()`. */
  lemma EmptyDocumentIsNotDefaults()
    ensures ConfigFromJson(JObject(map[])) == Ok(UrlRouterConfig(1, NewAction(), []))
    ensures ConfigFromJson(JObject(map[])).value != Defaults()
  {
  }

  /** The rules are read in document order, one per array item; a `rules` that is not an
    * array reads as no rules. */
  lemma ConfigRulesInOrder(m: map<string, Json>)
    requires ConfigFromJson(JObject(m)).Ok?
    ensures var c := ConfigFromJson(JObject(m)).value;
      if "rules" in m && m["rules"].JArray? then
        |c.rules| == |m["rules"].items| &&
        forall i | 0 <= i < |c.rules| :: RuleFromJson(m["rules"].items[i]) == Ok(c.rules[i])
      else c.rules == []
    ensures "version" !in m ==> ConfigFromJson(JObject(m)).value.version == 1
  {
  }

  /** `Defaults()` is version 1, type "app", the Firefox target, no arguments, no rules, and
    * it is well formed, so it survives a write and a read. */
  lemma DefaultsShape()
    ensures Defaults().version == 1 && Defaults().rules == []
    ensures Defaults().defaultAction.actionType == "app" && Defaults().defaultAction.target == FirefoxPath
    ensures Defaults().defaultAction.args == []
    ensures ConfigFromJson(ConfigToJson(Defaults())) == Ok(Defaults())
  {
    WellFormedRoundTrip(Defaults());
  }
}
