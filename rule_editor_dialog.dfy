/**
 * The rule editor dialog: it shows a rule's fields as text, writes the edited text back into
 * the same rule object on OK, and pre-selects a detected browser for the rule's target.
 */
module RuleEditor {
  import opened Wrappers
  import opened Text
  import opened Models
  import opened BrowserDetection

  /** The dialog's input controls: six text boxes and the "enabled" check box. */
  datatype Fields = Fields(name: string, hosts: string, paths: string, regex: string,
                           target: string, args: string, enabled: bool)

  /** `DialogResult`: not yet closed, closed with OK, or cancelled. */
  datatype DialogResult = NoResult | OK | Cancel

  /** What the dialog holds at a point in time: the rule's record, the controls, the browser
    * drop-down's selected index, and the dialog result. */
  datatype DialogState = DialogState(rule: RuleCfg, fields: Fields, selected: Option<nat>, result: DialogResult)

  // ---------------------------------------------------------------------------------------
  // Text conversions

  /** The controls as `LoadRule` first fills them: hosts and paths joined with ", ", a null
    * regex shown as "", arguments joined with single spaces. */
  function LoadFields(r: RuleCfg): Fields {
    Fields(r.name, Join(", ", r.when.host), Join(", ", r.when.pathContains),
           if r.when.urlRegex.Some? then r.when.urlRegex.value else "",
           r.action.target, Join(" ", r.action.args), r.enabled)
  }

  /** The record `SaveRule` writes from the controls; the browser is kept. */
  function Saved(r: RuleCfg, f: Fields): RuleCfg {
    RuleCfg(Trim(f.name),
            WhenCfg(SplitTrimmed(f.hosts, ','), SplitTrimmed(f.paths, ','),
                    if IsBlank(f.regex) then None else Some(Trim(f.regex))),
            r.action.(target := Trim(f.target), args := SplitNonEmpty(f.args, ' ')),
            f.enabled)
  }

  /** A comma-separated list written by `LoadRule` reads back as the same list, provided every
    * item is non-empty, has no surrounding white space and no comma; `w` is white space in
    * front of the first item. */
  lemma {:induction false} CommaListRoundTrip(w: string, xs: seq<string>)
    requires IsBlank(w) && ',' !in w && xs != []
    requires forall i | 0 <= i < |xs| :: xs[i] != "" && IsTrimmed(xs[i]) && ',' !in xs[i]
    ensures SplitTrimmed(w + Join(", ", xs), ',') == xs
    decreases |xs|
  {
    var head := w + xs[0];
    HeadFacts(w, xs[0]);
    if |xs| == 1 {
      assert w + Join(", ", xs) == head;
      SplitNoSeparator(head, ',');
    } else {
      var tail := " " + Join(", ", xs[1..]);
      CommaStep(w, xs[0], Join(", ", xs[1..]));
      CommaListRoundTrip(" ", xs[1..]);
      CommaListCons(head, xs[0], tail, xs[1..]);
      assert [xs[0]] + xs[1..] == xs;
    }
  }

  /** White space in front of a trimmed item without commas. */
  lemma HeadFacts(w: string, x: string)
    requires IsBlank(w) && ',' !in w && x != "" && IsTrimmed(x) && ',' !in x
    ensures ',' !in w + x && w + x != "" && Trim(w + x) == x
  {
    var head := w + x;
    assert forall k | 0 <= k < |head| :: head[k] == if k < |w| then w[k] else x[k - |w|];
    TrimBlankPrefix(w, x);
  }

  /** One more item in front of a comma-separated list. */
  lemma CommaListCons(head: string, x: string, tail: string, rest: seq<string>)
    requires ',' !in head && head != "" && Trim(head) == x
    requires SplitTrimmed(tail, ',') == rest
    ensures SplitTrimmed(head + [','] + tail, ',') == [x] + rest
  {
    SplitAtSeparator(head, tail, ',');
    DropEmptyAppend([head], Split(tail, ','));
    TrimAllAppend([head], DropEmpty(Split(tail, ',')));
  }

  /** `w + (x + ", " + rest)` is `w + x`, a comma, and `rest` after one space. */
  lemma CommaStep(w: string, x: string, rest: string)
    ensures w + (x + ", " + rest) == (w + x) + [','] + (" " + rest)
  {
    assert ", " == [','] + " ";
  }

  /** Hosts and path fragments survive a load and a save when every item is non-empty, has no
    * surrounding white space and no comma. */
  lemma CommaListLoadSave(xs: seq<string>)
    requires forall i | 0 <= i < |xs| :: xs[i] != "" && IsTrimmed(xs[i]) && ',' !in xs[i]
    ensures SplitTrimmed(Join(", ", xs), ',') == xs
  {
    if xs != [] {
      CommaListRoundTrip("", xs);
      assert "" + Join(", ", xs) == Join(", ", xs);
    }
  }

  /** Empty segments are dropped before trimming, not after: a segment of white space between
    * two commas is kept as an empty entry. */
  lemma BlankSegmentSurvives(a: string, w: string, b: string)
    requires ',' !in a && ',' !in w && w != [] && IsBlank(w)
    ensures "" in SplitTrimmed(a + [','] + w + [','] + b, ',')
  {
    SplitAtSeparator(a, w + [','] + b, ',');
    SplitAtSeparator(w, b, ',');
    assert a + [','] + w + [','] + b == a + [','] + (w + [','] + b);
    var parts := [a] + ([w] + Split(b, ','));
    assert Split(a + [','] + w + [','] + b, ',') == parts;
    DropEmptyAppend([a], [w] + Split(b, ','));
    DropEmptyAppend([w], Split(b, ','));
    var kept := DropEmpty([a]) + ([w] + DropEmpty(Split(b, ',')));
    assert DropEmpty(parts) == kept;
    assert kept[|DropEmpty([a])|] == w;
    assert TrimAll(kept)[|DropEmpty([a])|] == Trim(w) == "";
  }

  /** `Split(' ', RemoveEmptyEntries)` leaves no empty argument and none containing a space. */
  lemma ArgsClean(s: string)
    ensures forall i | 0 <= i < |SplitNonEmpty(s, ' ')| :: SplitNonEmpty(s, ' ')[i] != "" && ' ' !in SplitNonEmpty(s, ' ')[i]
  {
    SplitSegmentsFree(s, ' ');
    forall i | 0 <= i < |SplitNonEmpty(s, ' ')| ensures ' ' !in SplitNonEmpty(s, ' ')[i] {
      assert SplitNonEmpty(s, ' ')[i] in Split(s, ' ');
    }
  }

  /** Arguments survive a load and a save when each is non-empty and has no space. */
  lemma ArgsLoadSave(args: seq<string>)
    requires forall i | 0 <= i < |args| :: args[i] != "" && ' ' !in args[i]
    ensures SplitNonEmpty(Join(" ", args), ' ') == args
  {
    if args != [] {
      SplitJoin(args, ' ');
    }
  }

  /** A rule whose text form reads back as itself. */
  predicate Stable(r: RuleCfg) {
    && IsTrimmed(r.name) && IsTrimmed(r.action.target)
    && (forall i | 0 <= i < |r.when.host| :: r.when.host[i] != "" && IsTrimmed(r.when.host[i]) && ',' !in r.when.host[i])
    && (forall i | 0 <= i < |r.when.pathContains| ::
          r.when.pathContains[i] != "" && IsTrimmed(r.when.pathContains[i]) && ',' !in r.when.pathContains[i])
    && (r.when.urlRegex.Some? ==> r.when.urlRegex.value != "" && IsTrimmed(r.when.urlRegex.value))
    && (forall i | 0 <= i < |r.action.args| :: r.action.args[i] != "" && ' ' !in r.action.args[i])
  }

  /** Saving the text that `LoadRule` shows gives the rule back. */
  lemma SaveAfterLoad(r: RuleCfg)
    requires Stable(r)
    ensures Saved(r, LoadFields(r)) == r
  {
    var f := LoadFields(r);
    CommaListLoadSave(r.when.host);
    CommaListLoadSave(r.when.pathContains);
    ArgsLoadSave(r.action.args);
    assert r.when.urlRegex.Some? ==> !IsWhiteSpace(f.regex[0]);
    assert Saved(r, f).when == r.when;
    assert Saved(r, f).action == r.action;
  }

  /** Saving trims the name and the target, keeps no empty or spaced argument, stores a blank
    * regex as null and any other regex trimmed; an empty regex is shown as "". */
  lemma SavedShape(r: RuleCfg, f: Fields)
    ensures IsTrimmed(Saved(r, f).name) && IsTrimmed(Saved(r, f).action.target)
    ensures IsBlank(f.regex) <==> Saved(r, f).when.urlRegex.None?
    ensures Saved(r, f).when.urlRegex.Some? ==> IsTrimmed(Saved(r, f).when.urlRegex.value) && Saved(r, f).when.urlRegex.value != ""
    ensures forall i | 0 <= i < |Saved(r, f).action.args| :: Saved(r, f).action.args[i] != "" && ' ' !in Saved(r, f).action.args[i]
    ensures r.when.urlRegex.None? ==> LoadFields(r).regex == ""
  {
    ArgsClean(f.args);
  }

  // ---------------------------------------------------------------------------------------
  // Browser selection

  /** `FirstOrDefault(b => b.Name == name)`, searching from `from`. */
  function NamedIndex(bs: seq<BrowserApp>, name: string, from: nat): (r: Option<nat>)
    requires from <= |bs|
    ensures r.Some? ==> from <= r.value < |bs| && bs[r.value].name == name
    ensures r.Some? ==> forall j | from <= j < r.value :: bs[j].name != name
    ensures r.None? <==> forall j | from <= j < |bs| :: bs[j].name != name
    decreases |bs| - from
  {
    if from == |bs| then None
    else if bs[from].name == name then Some(from)
    else NamedIndex(bs, name, from + 1)
  }

  /** `FirstOrDefault(b => b.ExePath.ToLowerInvariant() == lowered)`, searching from `from`. */
  function PathIndex(bs: seq<BrowserApp>, lowered: string, from: nat): (r: Option<nat>)
    requires from <= |bs|
    ensures r.Some? ==> from <= r.value < |bs| && Lower(bs[r.value].exePath) == lowered
    ensures r.Some? ==> forall j | from <= j < r.value :: Lower(bs[j].exePath) != lowered
    ensures r.None? <==> forall j | from <= j < |bs| :: Lower(bs[j].exePath) != lowered
    decreases |bs| - from
  {
    if from == |bs| then None
    else if Lower(bs[from].exePath) == lowered then Some(from)
    else PathIndex(bs, lowered, from + 1)
  }

  /** The browser `LoadRule` selects: by name when the rule names one, otherwise by the
    * target path, ignoring case. */
  function AutoSelection(bs: seq<BrowserApp>, r: RuleCfg): (i: Option<nat>)
    ensures i.Some? ==> i.value < |bs|
  {
    if r.action.browser.Some? && r.action.browser.value != "" then NamedIndex(bs, r.action.browser.value, 0)
    else if r.action.target != "" then PathIndex(bs, Lower(r.action.target), 0)
    else None
  }

  /** Selecting browser `i` in the drop-down. When the selection changes,
    * `cmbBrowsers_SelectedIndexChanged` puts its path in the target box and its name in the
    * rule's `Browser`. */
  function Pick(bs: seq<BrowserApp>, st: DialogState, i: nat): DialogState
    requires i < |bs|
  {
    if st.selected == Some(i) then st
    else st.(selected := Some(i), fields := st.fields.(target := bs[i].exePath),
             rule := st.rule.(action := st.rule.action.(browser := Some(bs[i].name))))
  }

  /** The dialog after `LoadRule` on a rule: the controls filled, then the automatic selection. */
  function Loaded(bs: seq<BrowserApp>, r: RuleCfg, result: DialogResult): DialogState {
    var st := DialogState(r, LoadFields(r), None, result);
    match AutoSelection(bs, r)
    case Some(i) => Pick(bs, st, i)
    case None => st
  }

  /** The rule and the target text after loading: only a selection changes them. */
  lemma LoadedParts(bs: seq<BrowserApp>, r: RuleCfg, result: DialogResult)
    ensures var i := AutoSelection(bs, r);
      Loaded(bs, r, result).rule ==
        if i.Some? then r.(action := r.action.(browser := Some(bs[i.value].name))) else r
    ensures var i := AutoSelection(bs, r);
      Loaded(bs, r, result).fields.target == if i.Some? then bs[i.value].exePath else r.action.target
  {
  }

  /** Loading changes nothing of the rule but its `Browser`. A rule that names a browser keeps
    * its record; one that names none but has a target takes the name of the first detected
    * browser at that path, ignoring case, and keeps its record when there is none. */
  lemma LoadSetsOnlyBrowser(bs: seq<BrowserApp>, r: RuleCfg, result: DialogResult)
    ensures var r' := Loaded(bs, r, result).rule;
      r' == r.(action := r.action.(browser := r'.action.browser))
    ensures r.action.browser.Some? && r.action.browser.value != "" ==> Loaded(bs, r, result).rule == r
    ensures (r.action.browser.None? || r.action.browser.value == "") && r.action.target != "" ==>
      Loaded(bs, r, result).rule.action.browser ==
        if exists j | 0 <= j < |bs| :: Lower(bs[j].exePath) == Lower(r.action.target)
        then Some(bs[PathIndex(bs, Lower(r.action.target), 0).value].name)
        else r.action.browser
    ensures r.action.target == "" && (r.action.browser.None? || r.action.browser.value == "") ==>
      Loaded(bs, r, result).rule == r
  {
    LoadedParts(bs, r, result);
    var i := AutoSelection(bs, r);
    if r.action.browser.Some? && r.action.browser.value != "" && i.Some? {
      assert bs[i.value].name == r.action.browser.value;
      assert r.action.(browser := Some(bs[i.value].name)) == r.action;
    }
  }

  /** A rule that names a detected browser is shown with that browser's path as its target,
    * whatever its own target is; confirming the dialog then saves that path. */
  lemma NamedBrowserReplacesTarget(bs: seq<BrowserApp>, r: RuleCfg, k: nat)
    requires r.action.browser.Some? && r.action.browser.value != ""
    requires k < |bs| && bs[k].name == r.action.browser.value
    ensures var i := NamedIndex(bs, r.action.browser.value, 0).value;
      && i <= k
      && Loaded(bs, r, NoResult).fields.target == bs[i].exePath
      && Saved(r, Loaded(bs, r, NoResult).fields).action.target == Trim(bs[i].exePath)
  {
    LoadedParts(bs, r, NoResult);
  }

  /** With nothing to select, the dialog shows exactly the text form of the rule. */
  lemma LoadWithoutSelection(bs: seq<BrowserApp>, r: RuleCfg, result: DialogResult)
    requires AutoSelection(bs, r).None?
    ensures Loaded(bs, r, result) == DialogState(r, LoadFields(r), None, result)
  {
  }

  // ---------------------------------------------------------------------------------------
  // A dialog session

  /** `btnOK_Click`'s check: the name and the target must not be white space. */
  predicate Acceptable(f: Fields) {
    !IsBlank(f.name) && !IsBlank(f.target)
  }

  /** `btnOK_Click`: on acceptable text, `SaveRule` and result OK; otherwise nothing changes. */
  function Confirm(st: DialogState): DialogState {
    if Acceptable(st.fields) then st.(rule := Saved(st.rule, st.fields), result := OK) else st
  }

  /** Confirming acceptable text saves it and sets the result to OK. */
  lemma ConfirmAccepts(st: DialogState)
    requires Acceptable(st.fields)
    ensures Confirm(st) == st.(rule := Saved(st.rule, st.fields), result := OK)
  {
  }

  /** What the user does while the dialog is open: the text left in the controls, an optional
    * browser picked afterwards, and whether OK is pressed; a session that does not end with
    * an accepted OK ends with Cancel. */
  datatype Session = Session(entries: Fields, pick: Option<nat>, confirm: bool)

  predicate SessionFits(bs: seq<BrowserApp>, s: Session) {
    s.pick.Some? ==> s.pick.value < |bs|
  }

  /** The dialog state a session leaves. */
  function Outcome(bs: seq<BrowserApp>, st: DialogState, s: Session): DialogState
    requires SessionFits(bs, s)
  {
    var typed := st.(fields := s.entries);
    var picked := if s.pick.Some? then Pick(bs, typed, s.pick.value) else typed;
    var confirmed := if s.confirm then Confirm(picked) else picked;
    if confirmed.result == OK then confirmed else confirmed.(result := Cancel)
  }

  /** A session ends with OK exactly when OK is pressed on acceptable text; then the rule is
    * the saved text; otherwise the rule keeps its record, except for the `Browser` a pick
    * sets. */
  lemma OutcomeShape(bs: seq<BrowserApp>, st: DialogState, s: Session)
    requires SessionFits(bs, s) && st.result == NoResult
    ensures var o := Outcome(bs, st, s);
      var f := if s.pick.Some? then s.entries.(target := bs[s.pick.value].exePath) else s.entries;
      && o.result in {OK, Cancel}
      && (o.result == OK <==> s.confirm && Acceptable(if s.pick.Some? && st.selected != s.pick then f else s.entries))
      && (o.result == Cancel ==> o.rule == st.rule.(action := st.rule.action.(browser := o.rule.action.browser)))
      && (o.result == Cancel && s.pick.None? ==> o.rule == st.rule)
  {
  }

  /** Confirming an unedited dialog on a rule with nothing to auto-select leaves the rule as
    * it was, provided its text form reads back as itself. */
  lemma UneditedOkKeepsRule(bs: seq<BrowserApp>, r: RuleCfg)
    requires Stable(r) && AutoSelection(bs, r).None? && Acceptable(LoadFields(r))
    ensures Outcome(bs, Loaded(bs, r, NoResult), Session(LoadFields(r), None, true)).rule == r
    ensures Outcome(bs, Loaded(bs, r, NoResult), Session(LoadFields(r), None, true)).result == OK
  {
    SaveAfterLoad(r);
  }

  /** Cancelling still leaves the `Browser` that loading selected: a rule naming no browser,
    * whose target is a detected browser's path, comes back from a cancelled dialog with that
    * browser's name. */
  lemma CancelKeepsAutoSelection(bs: seq<BrowserApp>, r: RuleCfg, entries: Fields, k: nat)
    requires r.action.browser == None && r.action.target != ""
    requires k < |bs| && Lower(bs[k].exePath) == Lower(r.action.target)
    ensures var o := Outcome(bs, Loaded(bs, r, NoResult), Session(entries, None, false));
      o.result == Cancel && o.rule.action.browser.Some? && o.rule != r
  {
  }

  // ---------------------------------------------------------------------------------------
  // The dialog

  class RuleEditorDialog {
    /** `Rule`: the rule being edited, the caller's own object when one is given. */
    const rule: RuleObject
    const browsers: seq<BrowserApp>
    var fields: Fields
    var selected: Option<nat>
    var result: DialogResult

    function State(): DialogState
      reads this, rule
    {
      DialogState(rule.Value(), fields, selected, result)
    }

    /** `new RuleEditorDialog(browsers, existingRule)`: edits `existing`, or a new rule when
      * there is none, and loads it. */
    constructor (browsers: seq<BrowserApp>, existing: RuleObject?)
      modifies existing
      ensures this.browsers == browsers
      ensures existing != null ==> rule == existing
      ensures existing == null ==> fresh(rule)
      ensures State() == Loaded(browsers, if existing == null then NewRule() else old(existing.Value()), NoResult)
    {
      this.browsers := browsers;
      if existing == null {
        rule := new RuleObject();
      } else {
        rule := existing;
      }
      fields := Fields("", "", "", "", "", "", false);
      selected := None;
      result := NoResult;
      new;
      LoadRule();
    }

    /** `LoadRule`: fills the controls from the rule and selects its browser. */
    method LoadRule()
      modifies this, rule
      ensures State() == Loaded(browsers, old(rule.Value()), old(result))
    {
      var r := rule.Value();
      fields := LoadFields(r);
      selected := None;
      if r.action.browser.Some? && r.action.browser.value != "" {
        var i := NamedIndex(browsers, r.action.browser.value, 0);
        if i.Some? {
          SelectBrowser(i.value);
        }
      } else if r.action.target != "" {
        var i := PathIndex(browsers, Lower(r.action.target), 0);
        if i.Some? {
          SelectBrowser(i.value);
          rule.action := rule.action.(browser := Some(browsers[i.value].name));
        }
      }
    }

    /** Setting the drop-down's selected item, which raises `SelectedIndexChanged` when the
      * selection changes. */
    method SelectBrowser(i: nat)
      requires i < |browsers|
      modifies this, rule
      ensures State() == Pick(browsers, old(State()), i)
    {
      if selected != Some(i) {
        selected := Some(i);
        BrowserChanged();
      }
    }

    /** `cmbBrowsers_SelectedIndexChanged`: the selected browser's path goes into the target
      * box and its name into the rule's `Browser`. */
    method BrowserChanged()
      requires selected.Some? && selected.value < |browsers|
      modifies this, rule
      ensures selected == old(selected) && result == old(result)
      ensures fields == old(fields).(target := browsers[selected.value].exePath)
      ensures rule.Value() == old(rule.Value()).(action := old(rule.action).(browser := Some(browsers[selected.value].name)))
    {
      var browser := browsers[selected.value];
      fields := fields.(target := browser.exePath);
      rule.action := rule.action.(browser := Some(browser.name));
    }

    /** `SaveRule`: writes the controls into the rule. */
    method SaveRule()
      modifies rule
      ensures rule.Value() == Saved(old(rule.Value()), fields)
    {
      var f := fields;
      var hosts := SplitTrimmed(f.hosts, ',');
      var paths := SplitTrimmed(f.paths, ',');
      var regex := if IsBlank(f.regex) then None else Some(Trim(f.regex));
      var target := Trim(f.target);
      var args := SplitNonEmpty(f.args, ' ');
      ghost var before := rule.Value();
      rule.name := Trim(f.name);
      rule.when := WhenCfg(hosts, paths, regex);
      rule.action := rule.action.(target := target);
      rule.action := rule.action.(args := args);
      rule.enabled := f.enabled;
      assert rule.action == before.action.(target := target, args := args);
    }

    /** `btnOK_Click`: a white-space name or target leaves the rule and the result alone;
      * otherwise the rule is saved and the result is OK. */
    method OkClick()
      modifies this, rule
      ensures State() == Confirm(old(State()))
    {
      if IsBlank(fields.name) || IsBlank(fields.target) {
        return;
      }
      ghost var before := State();
      SaveRule();
      result := OK;
      ConfirmAccepts(before);
    }

    /** `btnCancel_Click`. */
    method CancelClick()
      modifies this
      ensures State() == old(State()).(result := Cancel)
    {
      result := Cancel;
    }

    /** `ShowDialog()`: the user's session, from the text typed to the button pressed. */
    method ShowDialog(s: Session) returns (res: DialogResult)
      requires SessionFits(browsers, s)
      modifies this, rule
      ensures State() == Outcome(browsers, old(State()), s)
      ensures res == result
    {
      fields := s.entries;
      if s.pick.Some? {
        SelectBrowser(s.pick.value);
      }
      if s.confirm {
        OkClick();
      }
      if result != OK {
        CancelClick();
      }
      res := result;
    }
  }
}
