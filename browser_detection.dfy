/**
 * Browser discovery for the editor's browser drop-down: the executable named by a registry
 * `shell\open\command` value, the first existing install path per known browser, and the
 * merge of both lists into one entry per executable, ordered by name.
 */
module BrowserDetection {
  import opened Wrappers
  import opened Text

  /** A detected browser: its display name and its executable. */
  datatype BrowserApp = BrowserApp(name: string, exePath: string)

  // ---------------------------------------------------------------------------------------
  // ExtractExeFromCommand

  /** `t` opens with a quote and its next quote comes at index 2 or later. */
  predicate QuotedHead(t: string) {
    |t| >= 2 && t[0] == '"' && t[1] != '"' && '"' in t[2..]
  }

  lemma QuoteAt(t: string, i: int)
    requires 0 <= i < |t|
    ensures OccursAt(t, "\"", i) <==> t[i] == '"'
  {
    if t[i] == '"' {
      assert t[i..i + 1] == [t[i]];
    }
  }

  /** The quote handling of `ExtractExeFromCommand`: a leading quoted part is taken without its
    * quotes; any other text is kept as it is. */
  function StripQuotes(t: string): (r: string)
    ensures r != t <==> QuotedHead(t)
    ensures r != t ==> r != [] && '"' !in r && StartsWith(t, "\"" + r + "\"")
  {
    if StartsWith(t, "\"") then
      var end := IndexOf(t, "\"", 1);
      assert |t| >= 2 ==> (OccursAt(t, "\"", 1) <==> t[1] == '"') by {
        if |t| >= 2 { QuoteAt(t, 1); }
      }
      if end > 1 then
        QuoteAt(t, end);
        assert t[end] == '"';
        forall k | 1 <= k < end ensures t[k] != '"' {
          QuoteAt(t, k);
        }
        assert t[..end + 1] == "\"" + t[1..end] + "\"";
        t[1..end]
      else
        assert !QuotedHead(t) by {
          if QuotedHead(t) {
            var k :| 2 <= k < |t| && t[k] == '"';
            QuoteAt(t, k);
          }
        }
        t
    else t
  }

  lemma LowerPrefix(s: string, k: int)
    requires 0 <= k <= |s|
    ensures Lower(s[..k]) == Lower(s)[..k]
  {
  }

  /** `ExtractExeFromCommand`: the executable path at the head of a command line, cut after its
    * first ".exe" (compared case-insensitively), or `None`. */
  function ExtractExeFromCommand(command: string): (r: Option<string>)
    ensures IsBlank(command) ==> r.None?
    ensures r.Some? ==> EndsWith(Lower(r.value), ".exe")
    ensures r.Some? ==> IndexOf(Lower(r.value), ".exe", 0) == |r.value| - 4
    ensures r.Some? ==> StartsWith(StripQuotes(Trim(command)), r.value)
    ensures !IsBlank(command) ==> (r.Some? <==> Contains(Lower(StripQuotes(Trim(command))), ".exe"))
  {
    var trimmed := Trim(command);
    if trimmed == [] then None
    else CutAfterExe(StripQuotes(trimmed))
  }

  /** The rest of `ExtractExeFromCommand`, on the unquoted text: cut after the first ".exe",
    * then keep the result only if it ends with ".exe". */
  function CutAfterExe(candidate: string): (r: Option<string>)
    ensures r.Some? ==> EndsWith(Lower(r.value), ".exe")
    ensures r.Some? ==> IndexOf(Lower(r.value), ".exe", 0) == |r.value| - 4
    ensures r.Some? ==> StartsWith(candidate, r.value)
    ensures r.Some? <==> Contains(Lower(candidate), ".exe")
  {
    var exeIndex := IndexOf(Lower(candidate), ".exe", 0);
    var cut := if exeIndex != -1 then candidate[..exeIndex + 4] else candidate;
    assert exeIndex != -1 ==> EndsWith(Lower(cut), ".exe") && IndexOf(Lower(cut), ".exe", 0) == exeIndex by {
      if exeIndex != -1 { ExeCutAt(candidate, exeIndex); }
    }
    assert EndsWith(Lower(cut), ".exe") ==> OccursAt(Lower(cut), ".exe", |cut| - 4);
    if EndsWith(Lower(cut), ".exe") then Some(cut) else None
  }

  /** Cutting after the first ".exe" leaves a text that ends with it and has it nowhere else. */
  lemma ExeCutAt(candidate: string, i: int)
    requires OccursAt(Lower(candidate), ".exe", i)
    requires forall j | 0 <= j < i :: !OccursAt(Lower(candidate), ".exe", j)
    ensures EndsWith(Lower(candidate[..i + 4]), ".exe")
    ensures IndexOf(Lower(candidate[..i + 4]), ".exe", 0) == i
  {
    var low := Lower(candidate);
    LowerPrefix(candidate, i + 4);
    assert low[..i + 4][i..] == low[i..i + 4];
    assert OccursAt(low[..i + 4], ".exe", i);
    var r := IndexOf(low[..i + 4], ".exe", 0);
    OccursInPrefix(low, i + 4, ".exe", r);
  }

  lemma OccursInPrefix(s: string, n: int, p: string, j: int)
    requires 0 <= n <= |s| && OccursAt(s[..n], p, j)
    ensures OccursAt(s, p, j)
  {
    assert s[..n][j..j + |p|] == s[j..j + |p|];
  }

  // ---------------------------------------------------------------------------------------
  // Path-based discovery

  /** The four special folders the search starts from; a folder the system does not define
    * is the empty string. */
  datatype Folders = Folders(programFiles: string, programFilesX86: string, localAppData: string, userProfile: string)

  predicate IsSeparator(c: char) {
    c == '\\' || c == '/'
  }

  /** A path that `Path.Combine` does not append to anything: rooted, or with a drive. */
  predicate IsRooted(p: string) {
    (|p| >= 1 && IsSeparator(p[0])) || (|p| >= 2 && p[1] == ':')
  }

  /** `Path.Combine(a, b)` on Windows. */
  function Combine(a: string, b: string): (r: string)
    ensures b != [] ==> r != []
  {
    if b == [] then a
    else if a == [] || IsRooted(b) then b
    else if IsSeparator(a[|a| - 1]) then a + b
    else a + "\\" + b
  }

  /** The combined path ends with the relative part, and starts with the folder unless the
    * relative part is rooted. */
  lemma CombineShape(a: string, b: string)
    requires b != []
    ensures EndsWith(Combine(a, b), b)
    ensures !IsRooted(b) ==> StartsWith(Combine(a, b), a)
  {
  }

  /** A known browser and the install paths tried for it, in order. */
  datatype Candidate = Candidate(name: string, paths: seq<string>)

  /** The candidate table, in the order it is enumerated. */
  function Candidates(f: Folders): seq<Candidate> {
    [ Candidate("Google Chrome", [Combine(f.programFiles, "Google\\Chrome\\Application\\chrome.exe"),
                                  Combine(f.programFilesX86, "Google\\Chrome\\Application\\chrome.exe")]),
      Candidate("Microsoft Edge", [Combine(f.programFiles, "Microsoft\\Edge\\Application\\msedge.exe"),
                                   Combine(f.programFilesX86, "Microsoft\\Edge\\Application\\msedge.exe")]),
      Candidate("Mozilla Firefox", [Combine(f.programFiles, "Mozilla Firefox\\firefox.exe"),
                                    Combine(f.programFilesX86, "Mozilla Firefox\\firefox.exe")]),
      Candidate("Brave", [Combine(f.programFiles, "BraveSoftware\\Brave-Browser\\Application\\brave.exe"),
                          Combine(f.programFilesX86, "BraveSoftware\\Brave-Browser\\Application\\brave.exe")]),
      Candidate("Vivaldi", [Combine(f.programFiles, "Vivaldi\\Application\\vivaldi.exe"),
                            Combine(f.programFilesX86, "Vivaldi\\Application\\vivaldi.exe"),
                            Combine(f.localAppData, "Vivaldi\\Application\\vivaldi.exe")]),
      Candidate("Opera", [Combine(f.localAppData, "Programs\\Opera\\opera.exe"),
                          Combine(f.userProfile, "AppData\\Local\\Programs\\Opera\\opera.exe")]),
      Candidate("Chromium", [Combine(f.programFiles, "Chromium\\Application\\chromium.exe"),
                             Combine(f.programFilesX86, "Chromium\\Application\\chromium.exe")]) ]
  }

  /** No candidate path is empty, whatever the folders: the empty-path skip never fires. */
  lemma CandidatePathsNonEmpty(f: Folders)
    ensures forall i, k | 0 <= i < |Candidates(f)| && 0 <= k < |Candidates(f)[i].paths| :: Candidates(f)[i].paths[k] != ""
  {
    var cs := Candidates(f);
    assert |cs| == 7;
  }

  /** The first path of `paths` that is non-empty and exists (`File.Exists`). */
  function FirstExisting(paths: seq<string>, fileExists: string -> bool): (r: Option<string>)
    ensures r.Some? ==> r.value in paths && r.value != "" && fileExists(r.value)
    ensures r.None? <==> forall i | 0 <= i < |paths| :: paths[i] == "" || !fileExists(paths[i])
  {
    if paths == [] then None
    else if paths[0] != "" && fileExists(paths[0]) then Some(paths[0])
    else FirstExisting(paths[1..], fileExists)
  }

  /** The path found is the first hit: every path listed before it is empty or missing. */
  lemma {:induction false} FirstExistingIsFirst(paths: seq<string>, fileExists: string -> bool) returns (k: int)
    requires FirstExisting(paths, fileExists).Some?
    ensures 0 <= k < |paths| && paths[k] == FirstExisting(paths, fileExists).value
    ensures forall i | 0 <= i < k :: paths[i] == "" || !fileExists(paths[i])
    decreases |paths|
  {
    if paths[0] != "" && fileExists(paths[0]) {
      k := 0;
    } else {
      var k' := FirstExistingIsFirst(paths[1..], fileExists);
      k := k' + 1;
    }
  }

  /** The entry one candidate contributes: its first existing path, if any. */
  function HitOf(c: Candidate, fileExists: string -> bool): seq<BrowserApp> {
    match FirstExisting(c.paths, fileExists)
    case Some(p) => [BrowserApp(c.name, p)]
    case None => []
  }

  /** The path-based entries of the candidates, in candidate order. */
  function PathHits(cs: seq<Candidate>, fileExists: string -> bool): (r: seq<BrowserApp>)
    ensures |r| <= |cs|
  {
    if cs == [] then [] else PathHits(cs[..|cs| - 1], fileExists) + HitOf(cs[|cs| - 1], fileExists)
  }

  /** At most one path-based entry per browser: an entry is named after a candidate and holds
    * that candidate's first existing path. */
  lemma PathHitsFirstPerBrowser(cs: seq<Candidate>, fileExists: string -> bool)
    ensures forall b | b in PathHits(cs, fileExists) ::
      exists i | 0 <= i < |cs| :: b.name == cs[i].name && FirstExisting(cs[i].paths, fileExists) == Some(b.exePath)
    ensures forall i | 0 <= i < |cs| && FirstExisting(cs[i].paths, fileExists).Some? ::
      BrowserApp(cs[i].name, FirstExisting(cs[i].paths, fileExists).value) in PathHits(cs, fileExists)
  {
    var src := PathHitsSources(cs, fileExists);
    var hits := PathHits(cs, fileExists);
    forall b | b in hits
      ensures exists i | 0 <= i < |cs| :: b.name == cs[i].name && FirstExisting(cs[i].paths, fileExists) == Some(b.exePath)
    {
      var a :| 0 <= a < |hits| && hits[a] == b;
      var i := src[a];
      assert b.name == cs[i].name && FirstExisting(cs[i].paths, fileExists) == Some(b.exePath);
    }
    forall i | 0 <= i < |cs| && FirstExisting(cs[i].paths, fileExists).Some?
      ensures BrowserApp(cs[i].name, FirstExisting(cs[i].paths, fileExists).value) in hits
    {
      var a :| 0 <= a < |src| && src[a] == i;
      assert hits[a] == BrowserApp(cs[i].name, FirstExisting(cs[i].paths, fileExists).value);
    }
  }

  /** The indices of the candidates that have an existing path, in order. */
  function Sources(cs: seq<Candidate>, fileExists: string -> bool): seq<nat> {
    if cs == [] then []
    else Sources(cs[..|cs| - 1], fileExists) + (if FirstExisting(cs[|cs| - 1].paths, fileExists).Some? then [|cs| - 1] else [])
  }

  lemma {:induction false} SourcesIncrease(cs: seq<Candidate>, fileExists: string -> bool)
    ensures forall a | 0 <= a < |Sources(cs, fileExists)| :: Sources(cs, fileExists)[a] < |cs|
    ensures forall a, b | 0 <= a < b < |Sources(cs, fileExists)| :: Sources(cs, fileExists)[a] < Sources(cs, fileExists)[b]
    decreases |cs|
  {
    if cs != [] {
      SourcesIncrease(cs[..|cs| - 1], fileExists);
    }
  }

  lemma {:induction false} SourcesMatch(cs: seq<Candidate>, fileExists: string -> bool)
    ensures |Sources(cs, fileExists)| == |PathHits(cs, fileExists)|
    ensures forall a | 0 <= a < |Sources(cs, fileExists)| ::
      Sources(cs, fileExists)[a] < |cs| && FirstExisting(cs[Sources(cs, fileExists)[a]].paths, fileExists).Some? &&
      PathHits(cs, fileExists)[a] == BrowserApp(cs[Sources(cs, fileExists)[a]].name, FirstExisting(cs[Sources(cs, fileExists)[a]].paths, fileExists).value)
    decreases |cs|
  {
    if cs != [] {
      var last := |cs| - 1;
      var init := cs[..last];
      SourcesMatch(init, fileExists);
      SourcesIncrease(init, fileExists);
      var s0 := Sources(init, fileExists);
      var h0 := PathHits(init, fileExists);
      var src := Sources(cs, fileExists);
      var hits := PathHits(cs, fileExists);
      assert hits == h0 + HitOf(cs[last], fileExists);
      assert src == s0 + (if FirstExisting(cs[last].paths, fileExists).Some? then [last] else []);
      forall a | 0 <= a < |src|
        ensures src[a] < |cs| && FirstExisting(cs[src[a]].paths, fileExists).Some?
        ensures hits[a] == BrowserApp(cs[src[a]].name, FirstExisting(cs[src[a]].paths, fileExists).value)
      {
        if a < |s0| {
          assert src[a] == s0[a] && hits[a] == h0[a] && cs[s0[a]] == init[s0[a]];
        }
      }
    }
  }

  lemma {:induction false} SourcesComplete(cs: seq<Candidate>, fileExists: string -> bool)
    ensures forall i | 0 <= i < |cs| && FirstExisting(cs[i].paths, fileExists).Some? :: i in Sources(cs, fileExists)
    decreases |cs|
  {
    if cs != [] {
      var init := cs[..|cs| - 1];
      SourcesComplete(init, fileExists);
      forall i | 0 <= i < |init| ensures init[i] == cs[i] { }
    }
  }

  /** The path hits come one per candidate that has an existing path, in candidate order:
    * hit `a` belongs to candidate `src[a]`, and the candidates of later hits come later. */
  lemma PathHitsSources(cs: seq<Candidate>, fileExists: string -> bool) returns (src: seq<nat>)
    ensures |src| == |PathHits(cs, fileExists)|
    ensures forall a, b | 0 <= a < b < |src| :: src[a] < src[b]
    ensures forall a | 0 <= a < |src| ::
      src[a] < |cs| && FirstExisting(cs[src[a]].paths, fileExists).Some? &&
      PathHits(cs, fileExists)[a] == BrowserApp(cs[src[a]].name, FirstExisting(cs[src[a]].paths, fileExists).value)
    ensures forall i | 0 <= i < |cs| && FirstExisting(cs[i].paths, fileExists).Some? :: i in src
  {
    src := Sources(cs, fileExists);
    SourcesIncrease(cs, fileExists);
    SourcesMatch(cs, fileExists);
    SourcesComplete(cs, fileExists);
  }

  /** Distinct candidate names, as the keys of the candidate dictionary are, give distinct hit
    * names: no browser is found twice by path. */
  lemma PathHitsDistinctNames(cs: seq<Candidate>, fileExists: string -> bool)
    requires forall i, j | 0 <= i < j < |cs| :: cs[i].name != cs[j].name
    ensures forall a, b | 0 <= a < b < |PathHits(cs, fileExists)| ::
      PathHits(cs, fileExists)[a].name != PathHits(cs, fileExists)[b].name
  {
    var src := PathHitsSources(cs, fileExists);
  }

  // ---------------------------------------------------------------------------------------
  // De-duplication

  /** The key of an entry in the de-duplicating dictionary. */
  function Key(b: BrowserApp): string {
    Lower(b.exePath)
  }

  /** A dictionary with insertion-ordered keys: `keys` in first-insertion order, `entries` the
    * current values. */
  datatype Table = Table(keys: seq<string>, entries: map<string, BrowserApp>)

  predicate Distinct(ks: seq<string>) {
    forall i, j | 0 <= i < j < |ks| :: ks[i] != ks[j]
  }

  /** The dictionary after `byPath[Key(b)] = b` for each `b` of `found` in turn: an existing
    * key keeps its place and takes the new value, a new key goes last. */
  function Dedup(found: seq<BrowserApp>): (t: Table)
    ensures Distinct(t.keys)
    ensures forall k :: k in t.entries <==> k in t.keys
    ensures forall k | k in t.entries :: Key(t.entries[k]) == k
  {
    if found == [] then Table([], map[])
    else
      var t := Dedup(found[..|found| - 1]);
      var b := found[|found| - 1];
      Table(if Key(b) in t.entries then t.keys else t.keys + [Key(b)], t.entries[Key(b) := b])
  }

  /** `byPath.Values`, in key order. */
  function Values(t: Table): (r: seq<BrowserApp>)
    requires forall k | k in t.keys :: k in t.entries
    ensures |r| == |t.keys|
    ensures forall i | 0 <= i < |r| :: r[i] == t.entries[t.keys[i]]
  {
    seq(|t.keys|, i requires 0 <= i < |t.keys| => t.entries[t.keys[i]])
  }

  /** No entry of `found` after index `i` has the same key. */
  predicate IsLastOfKey(found: seq<BrowserApp>, i: int)
    requires 0 <= i < |found|
  {
    forall j | i < j < |found| :: Key(found[j]) != Key(found[i])
  }

  /** Every key of `found` is in the dictionary. */
  lemma {:induction false} DedupHasEveryKey(found: seq<BrowserApp>)
    ensures forall i | 0 <= i < |found| :: Key(found[i]) in Dedup(found).entries
    decreases |found|
  {
    if found != [] {
      var init := found[..|found| - 1];
      DedupHasEveryKey(init);
      forall i | 0 <= i < |found| ensures Key(found[i]) in Dedup(found).entries {
        if i < |init| {
          assert init[i] == found[i];
        }
      }
    }
  }

  /** Every value in the dictionary is an entry of `found`. */
  lemma {:induction false} DedupValuesFound(found: seq<BrowserApp>)
    ensures forall k | k in Dedup(found).entries :: Dedup(found).entries[k] in found
    decreases |found|
  {
    if found != [] {
      var init := found[..|found| - 1];
      DedupValuesFound(init);
      var b := found[|found| - 1];
      forall k | k in Dedup(found).entries ensures Dedup(found).entries[k] in found {
        if k != Key(b) {
          var x := Dedup(init).entries[k];
          var m :| 0 <= m < |init| && init[m] == x;
          assert found[m] == x;
        }
      }
    }
  }

  /** The dictionary holds, for each key, the last entry of `found` with that key. */
  lemma {:induction false} DedupLastWins(found: seq<BrowserApp>)
    ensures forall i | 0 <= i < |found| && IsLastOfKey(found, i) ::
      Key(found[i]) in Dedup(found).entries && Dedup(found).entries[Key(found[i])] == found[i]
    decreases |found|
  {
    if found != [] {
      var init := found[..|found| - 1];
      DedupLastWins(init);
      DedupHasEveryKey(init);
      var b := found[|found| - 1];
      forall i | 0 <= i < |found| && IsLastOfKey(found, i)
        ensures Key(found[i]) in Dedup(found).entries && Dedup(found).entries[Key(found[i])] == found[i]
      {
        if i < |init| {
          assert Key(b) != Key(found[i]);
          forall j | i < j < |init| ensures Key(init[j]) != Key(init[i]) {
            assert init[j] == found[j];
          }
          assert IsLastOfKey(init, i) && init[i] == found[i];
        }
      }
    }
  }

  /** No two de-duplicated entries share a lower-cased path. */
  lemma DedupDistinctPaths(found: seq<BrowserApp>)
    ensures DistinctKeys(Values(Dedup(found)))
  {
  }

  /** The index of the last entry of `found`, at or after `i`, with the key of `found[i]`. */
  lemma {:induction false} LastOfKeyExists(found: seq<BrowserApp>, i: int) returns (last: int)
    requires 0 <= i < |found|
    ensures i <= last < |found| && Key(found[last]) == Key(found[i]) && IsLastOfKey(found, last)
    decreases |found| - i
  {
    if IsLastOfKey(found, i) {
      last := i;
    } else {
      var j :| i < j < |found| && Key(found[j]) == Key(found[i]);
      last := LastOfKeyExists(found, j);
    }
  }

  /** A path-based hit overrides a registry hit for the same executable: the surviving entry
    * for the key of any path hit is a path hit. */
  lemma PathHitsOverride(registry: seq<BrowserApp>, hits: seq<BrowserApp>)
    ensures forall h | h in hits :: Key(h) in Dedup(registry + hits).entries
    ensures forall h | h in hits :: Dedup(registry + hits).entries[Key(h)] in hits
  {
    forall h | h in hits
      ensures Key(h) in Dedup(registry + hits).entries && Dedup(registry + hits).entries[Key(h)] in hits
    {
      var m :| 0 <= m < |hits| && hits[m] == h;
      HitSurvives(registry, hits, m);
    }
  }

  lemma HitSurvives(registry: seq<BrowserApp>, hits: seq<BrowserApp>, m: int)
    requires 0 <= m < |hits|
    ensures Key(hits[m]) in Dedup(registry + hits).entries
    ensures Dedup(registry + hits).entries[Key(hits[m])] in hits
  {
    var found := registry + hits;
    assert found[|registry| + m] == hits[m];
    var last := LastOfKeyExists(found, |registry| + m);
    assert found[last] == hits[last - |registry|];
    var k := Key(hits[m]);
    assert Key(found[last]) == k;
    assert found[last] in hits;
    DedupLastWins(found);
    assert Dedup(found).entries[k] == found[last];
  }

  // ---------------------------------------------------------------------------------------
  // Ordering by name

  /** Ordinal lexicographic order on names. */
  predicate NameLe(a: string, b: string) {
    a == [] || (b != [] && (a[0] < b[0] || (a[0] == b[0] && NameLe(a[1..], b[1..]))))
  }

  lemma NameLeTotal(a: string, b: string)
    ensures NameLe(a, b) || NameLe(b, a)
  {
  }

  lemma NameLeTrans(a: string, b: string, c: string)
    requires NameLe(a, b) && NameLe(b, c)
    ensures NameLe(a, c)
  {
  }

  predicate SortedByName(xs: seq<BrowserApp>) {
    forall i, j | 0 <= i < j < |xs| :: NameLe(xs[i].name, xs[j].name)
  }

  lemma SortedCons(y: BrowserApp, rest: seq<BrowserApp>)
    requires SortedByName(rest)
    requires forall z | z in rest :: NameLe(y.name, z.name)
    ensures SortedByName([y] + rest)
  {
    forall i, j | 0 <= i < j < |[y] + rest|
      ensures NameLe(([y] + rest)[i].name, ([y] + rest)[j].name)
    {
      if i > 0 {
        assert ([y] + rest)[i] == rest[i - 1];
      }
      assert ([y] + rest)[j] == rest[j - 1];
    }
  }

  /** Inserts `x` before the first entry whose name it does not exceed. */
  function InsertByName(x: BrowserApp, ys: seq<BrowserApp>): (r: seq<BrowserApp>)
    requires SortedByName(ys)
    ensures forall z :: z in r <==> z == x || z in ys
    ensures multiset(r) == multiset(ys) + multiset{x}
    ensures SortedByName(r)
  {
    if ys == [] || NameLe(x.name, ys[0].name) then
      forall z | z in ys ensures NameLe(x.name, z.name) {
        if z != ys[0] { NameLeTrans(x.name, ys[0].name, z.name); }
      }
      SortedCons(x, ys);
      [x] + ys
    else
      NameLeTotal(x.name, ys[0].name);
      var rest := InsertByName(x, ys[1..]);
      assert ys == [ys[0]] + ys[1..];
      SortedCons(ys[0], rest);
      [ys[0]] + rest
  }

  /** `OrderBy(b => b.Name)`: sorted by name, holding the same entries. */
  function SortByName(xs: seq<BrowserApp>): (r: seq<BrowserApp>)
    ensures multiset(r) == multiset(xs)
    ensures SortedByName(r)
  {
    if xs == [] then []
    else
      assert xs == [xs[0]] + xs[1..];
      InsertByName(xs[0], SortByName(xs[1..]))
  }

  // ---------------------------------------------------------------------------------------
  // DetectInstalledBrowsers

  /** What `DetectInstalledBrowsers` returns, given the registry entries, the special folders
    * and `File.Exists`. */
  function Detected(registry: seq<BrowserApp>, f: Folders, fileExists: string -> bool): seq<BrowserApp> {
    SortByName(Values(Dedup(registry + PathHits(Candidates(f), fileExists))))
  }

  lemma PathHitsSnoc(cs: seq<Candidate>, e: int, fileExists: string -> bool)
    requires 0 <= e < |cs|
    ensures PathHits(cs[..e + 1], fileExists) == PathHits(cs[..e], fileExists) + HitOf(cs[e], fileExists)
  {
    assert cs[..e + 1][..e] == cs[..e];
  }

  /** The path-based discovery loop: for each candidate in turn, the first existing path is
    * appended to `found`. */
  method AddPathHits(found0: seq<BrowserApp>, candidates: seq<Candidate>, fileExists: string -> bool)
    returns (found: seq<BrowserApp>)
    ensures found == found0 + PathHits(candidates, fileExists)
  {
    found := found0;
    var e := 0;
    while e < |candidates|
      invariant 0 <= e <= |candidates|
      invariant found == found0 + PathHits(candidates[..e], fileExists)
    {
      PathHitsSnoc(candidates, e, fileExists);
      var hit := ProbePaths(candidates[e], fileExists);
      found := found + hit;
      e := e + 1;
    }
    assert candidates[..e] == candidates;
  }

  /** The inner loop over one candidate's paths: skips empty paths and stops at the first
    * that exists. */
  method ProbePaths(entry: Candidate, fileExists: string -> bool) returns (hit: seq<BrowserApp>)
    ensures hit == HitOf(entry, fileExists)
  {
    hit := [];
    var k := 0;
    while k < |entry.paths|
      invariant 0 <= k <= |entry.paths|
      invariant FirstExisting(entry.paths, fileExists) == FirstExisting(entry.paths[k..], fileExists)
    {
      var path := entry.paths[k];
      assert entry.paths[k..][1..] == entry.paths[k + 1..];
      if path == "" {
        k := k + 1;
        continue;
      }
      if fileExists(path) {
        hit := [BrowserApp(entry.name, path)];
        return;
      }
      k := k + 1;
    }
  }

  /** The de-duplication loop: `byPath[Key(b)] = b` for each entry in turn. */
  method IndexByPath(found: seq<BrowserApp>) returns (byPath: Table)
    ensures byPath == Dedup(found)
  {
    byPath := Table([], map[]);
    var i := 0;
    while i < |found|
      invariant 0 <= i <= |found|
      invariant byPath == Dedup(found[..i])
    {
      var browser := found[i];
      assert found[..i + 1][..i] == found[..i];
      var key := Lower(browser.exePath);
      if key !in byPath.entries {
        byPath := byPath.(keys := byPath.keys + [key]);
      }
      byPath := byPath.(entries := byPath.entries[key := browser]);
      i := i + 1;
    }
    assert found[..i] == found;
  }

  // ---------------------------------------------------------------------------------------
  // DetectViaRegistry

  /** One sub-key of `SOFTWARE\Clients\StartMenuInternet` as `DetectViaRegistry` reads it: its
    * name, its default value (the friendly name), and the default value of its
    * `shell\open\command` key; `None` where the key or the value is missing. */
  datatype ClientKey = ClientKey(subKeyName: string, friendlyName: Option<string>, command: Option<string>)

  /** The entry one sub-key contributes: none without a command or without an executable in
    * it; named by the friendly name when that is non-empty, else by the sub-key's name. */
  function ClientEntry(k: ClientKey): Option<BrowserApp> {
    if k.command.None? || k.command.value == "" then None
    else match ExtractExeFromCommand(k.command.value)
      case None => None
      case Some(exe) =>
        if exe == "" then None
        else
          var name := if k.friendlyName.Some? && k.friendlyName.value != "" then k.friendlyName.value else k.subKeyName;
          Some(BrowserApp(name, exe))
  }

  /** A sub-key gives an entry exactly when its command, unquoted, names a `.exe` (ignoring
    * case); the entry's path is the command up to that `.exe`, and its name is the friendly
    * name unless that is missing or empty. */
  lemma ClientEntryShape(k: ClientKey)
    ensures ClientEntry(k).Some? <==>
      k.command.Some? && !IsBlank(k.command.value) && Contains(Lower(StripQuotes(Trim(k.command.value))), ".exe")
    ensures ClientEntry(k).Some? ==>
      && EndsWith(Lower(ClientEntry(k).value.exePath), ".exe")
      && StartsWith(StripQuotes(Trim(k.command.value)), ClientEntry(k).value.exePath)
      && (k.friendlyName.Some? && k.friendlyName.value != "" ==> ClientEntry(k).value.name == k.friendlyName.value)
      && (k.friendlyName.None? || k.friendlyName.value == "" ==> ClientEntry(k).value.name == k.subKeyName)
  {
    if k.command.Some? && k.command.value != "" {
      var r := ExtractExeFromCommand(k.command.value);
      assert r.Some? ==> |r.value| >= 4;
    }
  }

  /** The present values, in order. */
  function Present<T>(xs: seq<Option<T>>): seq<T> {
    if xs == [] then []
    else
      var init := Present(xs[..|xs| - 1]);
      match xs[|xs| - 1]
      case Some(b) => init + [b]
      case None => init
  }

  /** `Present` keeps exactly the present values. */
  lemma {:induction false} PresentExact<T>(xs: seq<Option<T>>)
    ensures forall b | b in Present(xs) :: exists i | 0 <= i < |xs| :: xs[i] == Some(b)
    ensures forall i | 0 <= i < |xs| && xs[i].Some? :: xs[i].value in Present(xs)
    decreases |xs|
  {
    if xs != [] {
      var last := |xs| - 1;
      var init := xs[..last];
      PresentExact(init);
      forall b | b in Present(xs) ensures exists i | 0 <= i < |xs| :: xs[i] == Some(b) {
        if b in Present(init) {
          var i :| 0 <= i < |init| && init[i] == Some(b);
          assert xs[i] == init[i];
        }
      }
      forall i | 0 <= i < |xs| && xs[i].Some? ensures xs[i].value in Present(xs) {
        if i < last {
          assert xs[i] == init[i];
        }
      }
    }
  }

  /** What each sub-key of a hive contributes, in enumeration order. */
  function HiveEntries(keys: seq<ClientKey>): (r: seq<Option<BrowserApp>>)
    ensures |r| == |keys|
    ensures forall i | 0 <= i < |keys| :: r[i] == ClientEntry(keys[i])
  {
    seq(|keys|, i requires 0 <= i < |keys| => ClientEntry(keys[i]))
  }

  /** `DetectViaRegistry`'s result: the local-machine hive's entries, then the current user's.
    * A hive that cannot be opened, or has no `StartMenuInternet` key, has no sub-keys. */
  function RegistryHits(hives: seq<seq<ClientKey>>): seq<BrowserApp> {
    if hives == [] then [] else RegistryHits(hives[..|hives| - 1]) + Present(HiveEntries(hives[|hives| - 1]))
  }

  /** Every entry of a hive comes from one of its sub-keys and names a `.exe`, ignoring case. */
  lemma HiveEntriesAreExes(keys: seq<ClientKey>)
    ensures forall b: BrowserApp | b in Present(HiveEntries(keys)) ::
      EndsWith(Lower(b.exePath), ".exe") && exists i | 0 <= i < |keys| :: ClientEntry(keys[i]) == Some(b)
  {
    var es := HiveEntries(keys);
    PresentExact(es);
    forall b: BrowserApp | b in Present(es)
      ensures EndsWith(Lower(b.exePath), ".exe") && exists i | 0 <= i < |keys| :: ClientEntry(keys[i]) == Some(b)
    {
      var i :| 0 <= i < |es| && es[i] == Some(b);
      ClientEntryShape(keys[i]);
    }
  }

  /** Every registry entry names a `.exe`, ignoring case. */
  lemma {:induction false} RegistryHitsAreExes(hives: seq<seq<ClientKey>>)
    ensures forall b | b in RegistryHits(hives) :: EndsWith(Lower(b.exePath), ".exe")
    decreases |hives|
  {
    if hives != [] {
      RegistryHitsAreExes(hives[..|hives| - 1]);
      HiveEntriesAreExes(hives[|hives| - 1]);
    }
  }

  /** The loop over one hive's sub-keys. */
  method ScanHive(keys: seq<ClientKey>) returns (results: seq<BrowserApp>)
    ensures results == Present(HiveEntries(keys))
  {
    ghost var es := HiveEntries(keys);
    results := [];
    var i := 0;
    while i < |keys|
      invariant 0 <= i <= |keys|
      invariant results == Present(es[..i])
    {
      assert es[..i + 1][..i] == es[..i];
      var entry := ClientEntry(keys[i]);
      if entry.Some? {
        results := results + [entry.value];
      }
      i := i + 1;
    }
    assert es[..i] == es;
  }

  /** `DetectViaRegistry`: the sub-keys of each hive in turn. */
  method DetectViaRegistry(hives: seq<seq<ClientKey>>) returns (results: seq<BrowserApp>)
    ensures results == RegistryHits(hives)
  {
    results := [];
    var h := 0;
    while h < |hives|
      invariant 0 <= h <= |hives|
      invariant results == RegistryHits(hives[..h])
    {
      assert hives[..h + 1][..h] == hives[..h];
      var entries := ScanHive(hives[h]);
      results := results + entries;
      h := h + 1;
    }
    assert hives[..h] == hives;
  }

  /** `DetectInstalledBrowsers`: the registry entries, then the first existing path of each
    * candidate, merged by lower-cased path, ordered by name. */
  method DetectInstalledBrowsers(hives: seq<seq<ClientKey>>, f: Folders, fileExists: string -> bool)
    returns (browsers: seq<BrowserApp>)
    ensures browsers == Detected(RegistryHits(hives), f, fileExists)
  {
    var registry := DetectViaRegistry(hives);
    var candidates := Candidates(f);
    var found := AddPathHits(registry, candidates, fileExists);
    var byPath := IndexByPath(found);
    browsers := SortByName(Values(byPath));
  }

  predicate DistinctKeys(xs: seq<BrowserApp>) {
    forall i, j | 0 <= i < j < |xs| :: Key(xs[i]) != Key(xs[j])
  }

  lemma PermutationKeepsDistinctKeys(v: seq<BrowserApp>, d: seq<BrowserApp>)
    requires DistinctKeys(v) && multiset(d) == multiset(v)
    ensures DistinctKeys(d)
  {
    forall i, j | 0 <= i < j < |d| ensures Key(d[i]) != Key(d[j]) {
      DistinctKeysPermutation(v, d, i, j);
    }
  }

  /** The detected list is ordered by name and holds one entry per lower-cased path. */
  lemma DetectedSortedDistinct(registry: seq<BrowserApp>, f: Folders, fileExists: string -> bool)
    ensures SortedByName(Detected(registry, f, fileExists))
    ensures DistinctKeys(Detected(registry, f, fileExists))
  {
    var found := registry + PathHits(Candidates(f), fileExists);
    DedupDistinctPaths(found);
    PermutationKeepsDistinctKeys(Values(Dedup(found)), Detected(registry, f, fileExists));
  }

  /** Every detected entry is a registry entry or a path hit. */
  lemma DetectedFromFound(registry: seq<BrowserApp>, hits: seq<BrowserApp>)
    ensures forall b | b in SortByName(Values(Dedup(registry + hits))) :: b in registry + hits
  {
    var found := registry + hits;
    var v := Values(Dedup(found));
    DedupValuesFound(found);
    forall b | b in SortByName(v) ensures b in found {
      assert b in multiset(SortByName(v));
      var a := IndexOfEntry(v, b);
    }
  }

  /** The entry detected for the path of any path hit is itself a path hit. */
  lemma DetectedPrefersHits(registry: seq<BrowserApp>, hits: seq<BrowserApp>)
    ensures var d := SortByName(Values(Dedup(registry + hits)));
      forall h | h in hits :: exists b | b in d :: Key(b) == Key(h) && b in hits
  {
    var t := Dedup(registry + hits);
    var v := Values(t);
    var d := SortByName(v);
    PathHitsOverride(registry, hits);
    forall h | h in hits ensures exists b | b in d :: Key(b) == Key(h) && b in hits {
      var k := IndexIn(t.keys, Key(h));
      assert v[k] in multiset(d);
    }
  }

  /** Every detected entry is a registry entry or a path hit, and the entry detected for the
    * path of any path hit is itself a path hit. */
  lemma DetectedPrefersPathHits(registry: seq<BrowserApp>, f: Folders, fileExists: string -> bool)
    ensures forall b | b in Detected(registry, f, fileExists) :: b in registry + PathHits(Candidates(f), fileExists)
    ensures var hits := PathHits(Candidates(f), fileExists);
      forall h | h in hits :: exists b | b in Detected(registry, f, fileExists) :: Key(b) == Key(h) && b in hits
  {
    DetectedFromFound(registry, PathHits(Candidates(f), fileExists));
    DetectedPrefersHits(registry, PathHits(Candidates(f), fileExists));
  }

  lemma IndexIn(ks: seq<string>, k: string) returns (i: int)
    requires k in ks
    ensures 0 <= i < |ks| && ks[i] == k
  {
    i :| 0 <= i < |ks| && ks[i] == k;
  }

  /** A permutation of a list whose keys are distinct has distinct keys. */
  lemma DistinctKeysPermutation(v: seq<BrowserApp>, d: seq<BrowserApp>, i: int, j: int)
    requires DistinctKeys(v)
    requires multiset(d) == multiset(v)
    requires 0 <= i < j < |d|
    ensures Key(d[i]) != Key(d[j])
  {
    if Key(d[i]) == Key(d[j]) {
      var x, y := d[i], d[j];
      if x == y {
        TwiceInSeq(d, i, j);
        var a := IndexOfEntry(v, x);
        var c := OtherIndex(v, a);
        assert false;
      } else {
        var a := IndexOfEntry(v, x);
        var b := IndexOfEntry(v, y);
        assert false;
      }
    }
  }

  lemma IndexOfEntry(v: seq<BrowserApp>, x: BrowserApp) returns (a: int)
    requires x in multiset(v)
    ensures 0 <= a < |v| && v[a] == x
  {
    assert x in v;
    a :| 0 <= a < |v| && v[a] == x;
  }

  lemma {:induction false} TwiceInSeq(d: seq<BrowserApp>, i: int, j: int)
    requires 0 <= i < j < |d| && d[i] == d[j]
    ensures multiset(d)[d[i]] >= 2
  {
    assert d == d[..i] + [d[i]] + d[i + 1..j] + [d[j]] + d[j + 1..];
  }

  lemma OtherIndex(v: seq<BrowserApp>, a: int) returns (c: int)
    requires 0 <= a < |v| && multiset(v)[v[a]] >= 2
    ensures 0 <= c < |v| && c != a && v[c] == v[a]
  {
    assert v == v[..a] + [v[a]] + v[a + 1..];
    var rest := v[..a] + v[a + 1..];
    assert multiset(rest)[v[a]] >= 1;
    assert v[a] in rest;
    var r :| 0 <= r < |rest| && rest[r] == v[a];
    c := if r < a then r else r + 1;
  }
}
