# URL Router: a Dafny model

This is a model of a Windows URL dispatcher. It has two programs.

- **The router** is registered as the system's web browser. Windows starts it with the clicked URL. It reads a JSON configuration of ordered rules. It launches the action of the first rule whose `When` predicate matches the URL: host patterns, path fragments and a regular expression. When no rule matches, it launches the default action.
- **The editor** is a Windows Forms application that edits that configuration. It covers:
  - the JSON form of the configuration (`Models.cs`);
  - the detection of installed browsers (`BrowserDetection.cs`);
  - the rule editing dialog (`RuleEditorDialog.cs`);
  - the main window, with its rule list and its "Test URL" preview (`MainForm.cs`).

Modules, one per source file, plus three shared ones:

| module | file | models |
|---|---|---|
| `Wrappers` | `wrappers.dfy` | `Option` and `Result` |
| `Text` | `text.dfy` | the .NET string operations the sources use: ordinal `Trim`, `Split`, `Join`, `ToLowerInvariant`, `Contains`, `StartsWith`, `EndsWith`, `IndexOf` |
| `Platform` | `platform.dfy` | `Uri`, `Regex` and C#'s `int`. `Uri.TryCreate` and `Regex.IsMatch` are function parameters. |
| `Router` | `router.dfy` | `router/Program.cs` |
| `Models` | `models.dfy` | `ui-csharp/Models.cs`. A JSON element is a datatype; `FromJson` and `ToJson` are functions on it. `RuleCfg` is also a class (`RuleObject`), because the editor mutates rules in place. |
| `BrowserDetection` | `browser_detection.dfy` | `ui-csharp/BrowserDetection.cs` |
| `RuleEditor` | `rule_editor_dialog.dfy` | `ui-csharp/RuleEditorDialog.cs`, as a class over the rule object it edits |
| `MainWindow` | `main_form.dfy` | `ui-csharp/MainForm.cs`, as a class holding the configuration and the rule objects |

Foreign behaviour is supplied by the caller as a value:

- `Uri.TryCreate` is a `string -> Option<Uri>`.
- `Regex.IsMatch` is a `(pattern, input) -> Match | NoMatch | BadPattern`. Both programs use `RegexOptions.IgnoreCase`, so they get the same engine.
- `Process.Start` is a `StartInfo -> bool`; false means it threw.
- `File.Exists` is a `string -> bool`.
- The special folders are a record of four strings.
- The registry is a list of hives, local machine then current user. Each hive is a list of `StartMenuInternet` sub-keys, each with its name, its friendly name and its `shell\open\command` value.
- The user's interaction with a dialog is a `Session` value: the text left in the controls, an optional browser pick, and OK or not.

Two facts about the router shape the model:

- The router's rules have no `enabled` flag, so it never skips a rule the editor marks disabled (`router/Program.cs:24-30`).
- A regex that does not parse throws out of the router's `Main` (`router/Program.cs:81-84`). The model's `Exit.Crash` is that outcome. The editor's preview ignores such a regex instead.

## Model

| member | source | states |
|---|---|---|
| Router.QuoteIfNeeded | router/Program.cs:137-141 | An empty token becomes `""`. A token with a space or a quote is wrapped in quotes with its quotes escaped. Any other token passes unchanged. |
| Router.QuoteRoundTrip | router/Program.cs:137-141 | Reading back a quoted token (strip the outer quotes, unescape `\"`) gives the original string, for every string. |
| Router.ArgumentLineEndsWithUrl | router/Program.cs:117-124 | The quoted URL is always the last token of the argument line and reads back as the URL. The line is just the quoted URL exactly when the args are null or empty. |
| Router.Launch | router/Program.cs:109-135 | The start info is the target, with the quoted args and the quoted URL, without shell execution. The exit code is 0 when `Process.Start` returns and 1 when it throws. |
| Router.AnyHostMatch | router/Program.cs:89-107 | True exactly when some pattern matches the host. |
| Router.Matches | router/Program.cs:66-87 | The loop agrees with the predicate `WhenVerdict`: host and path checks, then the regex unless it is null or white space. A bad pattern throws. |
| Router.UnconstrainedWhenHolds | router/Program.cs:66-87 | A `When` with no host, no path fragment and no usable regex holds for every URL. |
| Router.MissingNeedleFails | router/Program.cs:70-79 | One path fragment missing from the path, ignoring case, fails the rule whatever the regex says. |
| Router.WildcardPattern | router/Program.cs:95-99 | `*.d` matches exactly the hosts whose lower-cased form ends with `.d`. |
| Router.BareDomainMissesWildcard | router/Program.cs:95-99 | `*.d` never matches the bare domain `d`. |
| Router.ExactPattern | router/Program.cs:100-103 | A pattern without `*.` matches by case-insensitive equality. |
| Router.SelectRuleIsFirstMatch | router/Program.cs:24-30 | Rule k is launched if and only if its predicate holds and every earlier rule's predicate fails (not throws). |
| Router.SelectRuleUnmatched | router/Program.cs:24-32 | The default action is used if and only if every rule fails. |
| Router.LaterRulesIgnored | router/Program.cs:24-30 | Rules after the chosen one can be replaced without changing the choice. |
| Router.RouteUrl | router/Program.cs:14-33 | No argument, or a URL that is not absolute, gives exit 0 with nothing launched. Otherwise it launches the first matching rule's action or the default on the raw URL, or crashes on a bad regex. |
| Router.DefaultConfigLaunchesFirefox | router/Program.cs:57-64 | With the built-in configuration every URL goes to the Firefox path as the only argument. |
| Models.StringItems | ui-csharp/Models.cs:22 | Every item kept from a JSON string array is non-empty. |
| Models.RuleObject.constructor | ui-csharp/Models.cs:74-79 | A new rule object holds the defaults: empty name, empty `When`, action `app` with empty target, enabled. |
| Models.ActionFromJson | ui-csharp/Models.cs:14-25 | A parsed action has no empty argument. |
| Models.WhenFromJson | ui-csharp/Models.cs:47-59 | A parsed `When` has no empty host or path fragment. |
| Models.RuleFromJson | ui-csharp/Models.cs:81-90 | A parsed rule's lists hold no empty string. |
| Models.RulesFromJson | ui-csharp/Models.cs:116-117 | The rules are parsed one per array item, in order. The list fails if and only if some item fails. |
| Models.ConfigFromJson | ui-csharp/Models.cs:110-120 | A parsed configuration has no empty string in any list. |
| Models.StringItemsOfStrings | ui-csharp/Models.cs:21-23 | Reading back a written string array drops exactly the empty strings. |
| Models.ActionRoundTrip | ui-csharp/Models.cs:14-38 | Reading back a written action gives it back with empty args dropped and an empty browser read as null. |
| Models.WhenRoundTrip | ui-csharp/Models.cs:47-71 | Reading back a written `When` gives it back with empty items dropped and an empty regex read as null. |
| Models.RuleRoundTrip | ui-csharp/Models.cs:81-101 | Reading back a written rule gives its canonical form. |
| Models.RulesRoundTrip | ui-csharp/Models.cs:116-128 | Reading back a written rule list gives the canonical form of each rule, in order. |
| Models.ConfigRoundTrip | ui-csharp/Models.cs:110-130 | Reading back a written configuration gives its canonical form. |
| Models.WellFormedRoundTrip | ui-csharp/Models.cs:110-130 | A configuration with no empty list item, browser or regex reads back exactly. |
| Models.CanonInvisibleInJson | ui-csharp/Models.cs:27-38 | Canonicalising a configuration whose lists are clean does not change its JSON, because an empty browser or regex is never written. |
| Models.NormalizeIdempotent | ui-csharp/Models.cs:110-130 | Loading and saving a document twice gives the same document as doing it once. |
| Models.ActionDefaults | ui-csharp/Models.cs:14-25 | An object with no target, no browser, a null or absent type and no args array reads as the default action. |
| Models.ActionFieldDefaults | ui-csharp/Models.cs:14-25 | In any action that reads, each property defaults on its own. A missing or null `type` is "app". A missing or null `target` is "". A missing or null `browser` is none. A missing or non-array `args` is no arguments. |
| Models.StringItemsFilter | ui-csharp/Models.cs:22 | On an array of strings and nulls, reading succeeds and gives the non-empty strings, in array order and with their repetitions. |
| Models.EnabledMustBeBoolean | ui-csharp/Models.cs:88 | An `enabled` property that is not a boolean makes the whole rule fail to load. |
| Models.RuleDefaults | ui-csharp/Models.cs:81-90 | The empty object reads as a new rule. |
| Models.RuleFieldDefaults | ui-csharp/Models.cs:81-90 | In any rule that reads, each property defaults on its own. A missing or null `name` is "". A missing `when` is no constraints. A missing `action` is `new ActionCfg()`. A missing `enabled` is true. |
| Models.EmptyDocumentIsNotDefaults | ui-csharp/Models.cs:110-145 | The empty document reads as version 1 with an empty default target and no rules, which is not `Defaults()`. |
| Models.ConfigRulesInOrder | ui-csharp/Models.cs:114-118 | A loaded configuration's rules are the array items parsed in order. A missing version reads as 1. |
| Models.DefaultsShape | ui-csharp/Models.cs:132-145 | `Defaults()` is version 1 with the Firefox target, no args and no rules, and it round-trips through JSON. |
| BrowserDetection.StripQuotes | ui-csharp/BrowserDetection.cs:157-165 | The text changes exactly when it starts with a quote, its second character is not a quote, and it has a closing quote. The result is then the non-empty, quote-free text between the first two quotes. |
| BrowserDetection.ExtractExeFromCommand | ui-csharp/BrowserDetection.cs:152-174 | A blank command gives null. Otherwise a result exists if and only if the unquoted command contains `.exe`, ignoring case. It is then a prefix of the unquoted command ending at the first `.exe`. |
| BrowserDetection.CutAfterExe | ui-csharp/BrowserDetection.cs:167-173 | A result exists if and only if the candidate contains `.exe`, ignoring case. It is then the prefix of the candidate up to and including the first `.exe`, so it ends with `.exe` and contains no earlier one. |
| BrowserDetection.Combine | ui-csharp/BrowserDetection.cs:40-72 | `Path.Combine(a, b)` is non-empty when `b` is. |
| BrowserDetection.CombineShape | ui-csharp/BrowserDetection.cs:40-72 | `Path.Combine(a, b)` ends with a non-empty `b`, and starts with `a` when `b` is not rooted. |
| BrowserDetection.CandidatePathsNonEmpty | ui-csharp/BrowserDetection.cs:36-74 | No candidate path is empty, so the empty-path check never skips one. |
| BrowserDetection.FirstExisting | ui-csharp/BrowserDetection.cs:78-86 | The path found is a non-empty candidate path that exists. None is found exactly when every path is empty or missing. |
| BrowserDetection.FirstExistingIsFirst | ui-csharp/BrowserDetection.cs:78-86 | Every path before the one found is empty or missing. |
| BrowserDetection.PathHits | ui-csharp/BrowserDetection.cs:76-87 | There are never more path hits than candidates. |
| BrowserDetection.PathHitsSources | ui-csharp/BrowserDetection.cs:76-87 | Hit `a` belongs to candidate `src[a]` and holds that candidate's name and first existing path. The candidates of the hits strictly increase, so each candidate gives at most one hit, in candidate order. Every candidate with an existing path gives one. |
| BrowserDetection.PathHitsDistinctNames | ui-csharp/BrowserDetection.cs:36-87 | With distinct candidate names, as the keys of the candidate dictionary are, no two path hits share a name. |
| BrowserDetection.PathHitsFirstPerBrowser | ui-csharp/BrowserDetection.cs:76-87 | A hit is named after a candidate and holds its first existing path. Every candidate with an existing path has a hit. |
| BrowserDetection.Dedup | ui-csharp/BrowserDetection.cs:90-94 | The dictionary's keys are distinct, and each entry sits under its own lower-cased path. |
| BrowserDetection.DedupHasEveryKey | ui-csharp/BrowserDetection.cs:90-94 | Every found browser's lower-cased path is a key. |
| BrowserDetection.DedupValuesFound | ui-csharp/BrowserDetection.cs:90-94 | Every value is a found browser. |
| BrowserDetection.DedupLastWins | ui-csharp/BrowserDetection.cs:90-94 | For each path, the dictionary holds the last browser found with it. |
| BrowserDetection.DedupDistinctPaths | ui-csharp/BrowserDetection.cs:90-96 | No two values share a path, ignoring case. |
| BrowserDetection.PathHitsOverride | ui-csharp/BrowserDetection.cs:17-94 | A path hit replaces any registry entry with the same path. |
| BrowserDetection.InsertByName | ui-csharp/BrowserDetection.cs:96 | Inserting into a name-sorted list keeps it sorted and adds exactly the one element. |
| BrowserDetection.SortByName | ui-csharp/BrowserDetection.cs:96 | The result is sorted by name and is a permutation of the input. |
| BrowserDetection.AddPathHits | ui-csharp/BrowserDetection.cs:76-87 | The outer loop appends exactly `PathHits`, the first existing path of each candidate in candidate order, to the found list. |
| BrowserDetection.ProbePaths | ui-csharp/BrowserDetection.cs:78-86 | The inner loop skips empty paths and yields an entry for the first existing path, or none. |
| BrowserDetection.IndexByPath | ui-csharp/BrowserDetection.cs:90-94 | The loop builds exactly `Dedup(found)`. |
| BrowserDetection.ClientEntryShape | ui-csharp/BrowserDetection.cs:116-135 | A sub-key gives an entry if and only if it has a command that is not blank and whose unquoted text contains `.exe`, ignoring case. The entry's path is a prefix of that text ending in `.exe`. Its name is the friendly name when that is present and non-empty, otherwise the sub-key's name. |
| BrowserDetection.HiveEntriesAreExes | ui-csharp/BrowserDetection.cs:112-141 | Every entry of a hive comes from one of its sub-keys and names a `.exe`. |
| BrowserDetection.RegistryHitsAreExes | ui-csharp/BrowserDetection.cs:99-150 | Every entry the registry scan returns names a `.exe`, ignoring case. |
| BrowserDetection.ScanHive | ui-csharp/BrowserDetection.cs:112-141 | The loop over a hive's sub-keys returns exactly their entries, in enumeration order. |
| BrowserDetection.DetectViaRegistry | ui-csharp/BrowserDetection.cs:99-150 | The loop over the hives returns the local-machine entries, then the current user's: `RegistryHits`. |
| BrowserDetection.DetectInstalledBrowsers | ui-csharp/BrowserDetection.cs:15-97 | The result is `Detected(RegistryHits(hives), folders, exists)`: the registry scan's entries, then the path hits, deduplicated by lower-cased path, ordered by name. |
| BrowserDetection.DetectedSortedDistinct | ui-csharp/BrowserDetection.cs:89-96 | The detected list is sorted by name, with no two entries sharing a path, ignoring case. |
| BrowserDetection.DetectedFromFound | ui-csharp/BrowserDetection.cs:89-96 | Every detected browser was found by the registry or by the path scan. |
| BrowserDetection.DetectedPrefersHits | ui-csharp/BrowserDetection.cs:89-96 | For every path hit, the browser detected at its path is a path hit. |
| BrowserDetection.DetectedPrefersPathHits | ui-csharp/BrowserDetection.cs:15-96 | The same two facts stated on the whole detection with its candidate table. |
| RuleEditor.CommaListRoundTrip | ui-csharp/RuleEditorDialog.cs:20-21 | A list joined with ", " and split back on commas with trimming gives the list, with any blank prefix, provided every item is non-empty, trimmed and comma-free. |
| RuleEditor.CommaListLoadSave | ui-csharp/RuleEditorDialog.cs:57-60 | Saving the host or path text that loading shows gives the same list, under the same provisos. |
| RuleEditor.BlankSegmentSurvives | ui-csharp/RuleEditorDialog.cs:57-58 | A white-space-only segment between commas is saved as an empty pattern, because trimming happens after empty entries are removed. |
| RuleEditor.ArgsClean | ui-csharp/RuleEditorDialog.cs:63 | Saved arguments are non-empty and contain no space. |
| RuleEditor.ArgsLoadSave | ui-csharp/RuleEditorDialog.cs:24 | Saving the argument text that loading shows gives the same arguments, when none is empty or contains a space. |
| RuleEditor.SaveAfterLoad | ui-csharp/RuleEditorDialog.cs:17-65 | For a rule whose text form reads back (trimmed, non-empty items, no separators inside), saving the loaded text gives the rule back. |
| RuleEditor.SavedShape | ui-csharp/RuleEditorDialog.cs:54-65 | Saving trims the name and the target, and keeps no empty or spaced argument. A blank regex is stored as null, any other one trimmed and non-empty. A null regex is shown as "". |
| RuleEditor.NamedIndex | ui-csharp/RuleEditorDialog.cs:34 | Finds the first browser with the given name. |
| RuleEditor.PathIndex | ui-csharp/RuleEditorDialog.cs:43-45 | Finds the first browser whose path, lower-cased, is the given one. |
| RuleEditor.AutoSelection | ui-csharp/RuleEditorDialog.cs:31-51 | The auto-selection is a valid index into the browser list. |
| RuleEditor.LoadedParts | ui-csharp/RuleEditorDialog.cs:31-51 | After loading, the rule gains the selected browser's name and the target box shows its path. Without a selection both are as loaded. |
| RuleEditor.LoadSetsOnlyBrowser | ui-csharp/RuleEditorDialog.cs:31-51 | Loading changes nothing of the rule but `Browser`. A rule naming a browser keeps its record. A rule naming none takes the name of the first detected browser at its target path, if there is one. |
| RuleEditor.NamedBrowserReplacesTarget | ui-csharp/RuleEditorDialog.cs:32-39 | A rule naming a detected browser is shown with that browser's path as target, whatever its own target. Confirming saves that path. |
| RuleEditor.LoadWithoutSelection | ui-csharp/RuleEditorDialog.cs:17-52 | With nothing to select, the dialog shows exactly the text form of the rule. |
| RuleEditor.OutcomeShape | ui-csharp/RuleEditorDialog.cs:67-92 | A session ends with OK exactly when OK is pressed on a non-blank name and target. After Cancel the rule keeps its record except for a picked `Browser`. |
| RuleEditor.UneditedOkKeepsRule | ui-csharp/RuleEditorDialog.cs:17-86 | Pressing OK on an unedited dialog keeps a stable rule with nothing to auto-select. |
| RuleEditor.CancelKeepsAutoSelection | ui-csharp/RuleEditorDialog.cs:40-51 | A rule naming no browser, whose target is a detected browser's path, comes back from a cancelled dialog with that browser's name set. |
| RuleEditor.RuleEditorDialog.constructor | ui-csharp/RuleEditorDialog.cs:9-15 | The dialog edits the caller's own rule object, or a fresh default rule, and is left in the loaded state. |
| RuleEditor.RuleEditorDialog.LoadRule | ui-csharp/RuleEditorDialog.cs:17-52 | The controls and the rule become `Loaded(...)`. |
| RuleEditor.RuleEditorDialog.SelectBrowser | ui-csharp/RuleEditorDialog.cs:94-101 | Selecting a browser that is not already selected runs the change handler. Re-selecting it changes nothing. |
| RuleEditor.RuleEditorDialog.BrowserChanged | ui-csharp/RuleEditorDialog.cs:94-101 | The target box gets the browser's path and the rule's `Browser` its name. Nothing else changes. |
| RuleEditor.RuleEditorDialog.SaveRule | ui-csharp/RuleEditorDialog.cs:54-65 | The rule object becomes `Saved(old rule, controls)`. |
| RuleEditor.RuleEditorDialog.OkClick | ui-csharp/RuleEditorDialog.cs:67-86 | On a blank name or target, the rule and the result are unchanged. Otherwise the rule is saved and the result is OK. |
| RuleEditor.RuleEditorDialog.CancelClick | ui-csharp/RuleEditorDialog.cs:88-92 | Only the result changes, to Cancel. |
| RuleEditor.RuleEditorDialog.ShowDialog | ui-csharp/RuleEditorDialog.cs:67-101 | The dialog ends in `Outcome(browsers, state, session)` and returns its result. |
| MainWindow.MatchesHostPattern | ui-csharp/MainForm.cs:271-283 | Under ordinal comparison, the editor's host test is the router's pattern test. |
| MainWindow.MatchesRule | ui-csharp/MainForm.cs:226-269 | The loops agree with `PreviewMatches`: some host pattern matches when there are any, every path fragment occurs, and a non-empty regex does not reject. |
| MainWindow.PreviewAgreesWithRouter | ui-csharp/MainForm.cs:226-269 | With no regex, an empty one, or a valid non-blank one, the preview matches if and only if the router's predicate holds, and the router does not throw. |
| MainWindow.InvalidRegexDiverges | ui-csharp/MainForm.cs:253-266 | A regex that does not parse lets the preview match where the router throws. (A third divergence, the editor's culture-sensitive host suffix test, is not modelled.) |
| MainWindow.BlankRegexDiverges | ui-csharp/MainForm.cs:253-266 | A white-space regex is still run by the preview but skipped by the router. (A third divergence, the editor's culture-sensitive host suffix test, is not modelled.) |
| MainWindow.FirstPreviewMatch | ui-csharp/MainForm.cs:208-218 | Finds the first rule in list order that the preview matches. None is found exactly when no rule matches. |
| MainWindow.PreviewChecksUrl | ui-csharp/MainForm.cs:191-206 | The preview reports a missing URL exactly when the trimmed text is empty. It reports an invalid URL exactly when the text is not blank and either does not parse as an absolute URI or has a scheme not starting with `http`. |
| MainWindow.ReportIsFirstMatch | ui-csharp/MainForm.cs:208-223 | The report names rule k, with its target, its joined args and the quoted URL, if and only if rule k matches and every earlier rule does not. It names the default command exactly when no rule matches. |
| MainWindow.PreviewIgnoresEnabled | ui-csharp/MainForm.cs:208-218 | Rules that differ only in `Enabled` give the same report. |
| MainWindow.PreviewSelectsAsRouter | ui-csharp/MainForm.cs:208-218 | Under ordinal comparison, and when no regex is blank-but-non-empty or invalid, the preview picks the rule the router launches (disabled rules included). It uses the default exactly when the router does. |
| MainWindow.IndexFrom | ui-csharp/MainForm.cs:123 | `List.IndexOf`: -1 exactly when the object is absent; otherwise its first position. |
| MainWindow.RemoveAt | ui-csharp/MainForm.cs:155 | Removing at i shifts the later elements down and removes exactly that element from the multiset. |
| MainWindow.InsertAt | ui-csharp/MainForm.cs:156 | Inserting at i puts x there, shifts the later elements up and adds exactly x. |
| MainWindow.RemoveFirst | ui-csharp/MainForm.cs:142 | `List.Remove`: an absent object changes nothing. Otherwise exactly its first occurrence goes, the rest keeping their order. |
| MainWindow.Move | ui-csharp/MainForm.cs:153-172 | Removing and reinserting an element is a permutation. Moving it by one place swaps it with its neighbour. |
| MainWindow.SavedDefault | ui-csharp/MainForm.cs:96-103 | The saved default keeps its type and browser, has a trimmed target, and has no empty or spaced argument. |
| MainWindow.SaveShownDefaults | ui-csharp/MainForm.cs:45-49 | Saving the text boxes as first shown keeps a default whose target is trimmed and whose arguments are clean. |
| MainWindow.SavedDefaultIdempotent | ui-csharp/MainForm.cs:96-103 | Showing and saving a saved default again changes nothing. |
| MainWindow.MainForm.constructor | ui-csharp/MainForm.cs:11-57 | The loaded configuration, or the defaults when loading failed; the detected browsers, or none; the text boxes show the default action. |
| MainWindow.MainForm.ShowDefaults | ui-csharp/MainForm.cs:45-49 | The target box shows the target, the arguments box the arguments joined with spaces. |
| MainWindow.MainForm.DefaultBrowserChanged | ui-csharp/MainForm.cs:285-291 | Only the target box changes, to the browser's path. The configuration is untouched. |
| MainWindow.MainForm.SaveDefaults | ui-csharp/MainForm.cs:96-103 | The default action becomes `SavedDefault` of the text boxes. Rules and version are unchanged. |
| MainWindow.MainForm.AddRule | ui-csharp/MainForm.cs:105-113 | On OK a fresh rule object holding the session's outcome on a new rule is appended. Otherwise the list is unchanged. |
| MainWindow.MainForm.EditRule | ui-csharp/MainForm.cs:115-130 | The list keeps the same objects in the same order. The selected object holds the session's outcome on its old record, which survives a cancel with any auto-selected `Browser`. Every other object keeps its record. |
| MainWindow.MainForm.DeleteRule | ui-csharp/MainForm.cs:132-145 | A confirmed delete removes the first occurrence of the selected object. Otherwise nothing changes. |
| MainWindow.MainForm.MoveUp | ui-csharp/MainForm.cs:147-160 | The selected rule swaps with the one above. The first rule stays. The list stays a permutation. |
| MainWindow.MainForm.MoveDown | ui-csharp/MainForm.cs:162-175 | The selected rule swaps with the one below. The last rule stays. The list stays a permutation. |
| MainWindow.MainForm.TestUrl | ui-csharp/MainForm.cs:191-224 | The loop reports exactly `Preview(...)`: missing or invalid URL, the first matching rule with its command line, or the default. |
| MainWindow.MoveUpSwaps | ui-csharp/MainForm.cs:153-157 | Remove at i, then insert at i-1, is the swap of i-1 and i. |
| MainWindow.MoveDownSwaps | ui-csharp/MainForm.cs:168-172 | Remove at i, then insert at i+1, is the swap of i and i+1. |

## Left out

- Configuration I/O: reading and writing `config.json` in the router (`LoadConfig`) and in `ConfigService` is not modelled. The router gets its configuration as a parameter. The editor's constructor gets the service's result, or none when it threw.
- `ConfigService.cs`, `DefaultBrowserHelper.cs`, `Program.cs` of the editor and the Designer files are not part of this model.
- `DetectViaRegistry` walks the registry. The registry itself is a parameter: each hive is its list of sub-keys, each holding its name, its friendly name and its command, or nothing for a missing key or value. A hive that cannot be opened has no sub-keys. An exception inside one sub-key's reads skips it, like a missing command. What is done with each sub-key is modelled: `ClientEntry`, `ScanHive`, `DetectViaRegistry`.
- Message boxes, list-view refreshes and item re-selection after a move are UI effects only and are not modelled.
- Text is compared ordinally, and case is folded for ASCII letters only. Not modelled:
  - `ToLowerInvariant` on non-ASCII letters;
  - Unicode white space in `Trim` and in `IsNullOrWhiteSpace` (`router/Program.cs:81`, `ui-csharp/RuleEditorDialog.cs:61,69,76`);
  - the culture-sensitive `string` overloads `EndsWith(".exe")`, `StartsWith("\"")`, `IndexOf("\"", 1)` and `IndexOf(".exe")` (`ui-csharp/BrowserDetection.cs:158-173`);
  - the culture-sensitive `StartsWith("*.")` and `host.EndsWith(suffix)` of the editor (`ui-csharp/MainForm.cs:276-279`);
  - the culture-sensitive `pat.StartsWith("*.")` of the router (`router/Program.cs:95`);
  - `OrderBy(b => b.Name)`.
- MainWindow.MatchesHostPattern: the editor's `host.EndsWith(suffix)` is culture-sensitive, while the router's is `StringComparison.Ordinal` (`router/Program.cs:98`). This is a third way the preview and the router can disagree, besides `InvalidRegexDiverges` and `BlankRegexDiverges`. The model compares both ordinally, so it does not capture it.
- BrowserDetection.SortByName: proved sorted and a permutation, but the stability of `OrderBy` among equal names is not stated.
- BrowserDetection.Dedup: `Dictionary` enumeration is assumed to follow first insertion order, which holds in practice for a dictionary that is only added to, but is not promised by .NET.
- JSON: fractional or out-of-range numbers beyond a failed `GetInt32`, and null non-nullable router fields are not modelled.
- The router's deserialisation with `System.Text.Json` into records is not modelled.
- Router.QuoteIfNeeded: read back by the model's `Unquote`, not by the Windows command-line parser, which treats backslashes before a quote specially. A trailing backslash inside a quoted token is therefore not shown to survive.
- RuleEditor.Session: a session is one round of typing, an optional pick, and OK or not. Retyping after a failed validation is the same as a later session's text, and is not modelled as a separate step.
- RuleEditor.Outcome: the pick is always applied after the typed text. So picking a browser and then typing a custom target cannot be reached. In the source that order saves the picked `Browser` with the typed `Target` (`ui-csharp/RuleEditorDialog.cs:60,94-101`).
- The nested `WhenCfg` and `ActionCfg` objects of a rule are values inside the rule object, so aliasing of those sub-objects between rules is not modelled. The editor never shares them.
- The router's built-in Firefox path is a verbatim literal with doubled backslashes. The editor's has single ones. Both are kept as written (`Router.FirefoxPath` and `Models.FirefoxPath`).
- `lstRules_DoubleClick` only dispatches to `EditRule` or `AddRule` and has no member of its own.
