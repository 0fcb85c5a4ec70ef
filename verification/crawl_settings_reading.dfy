/** What the normal form holds, entry by entry, in terms of the entries it was made from. */
module CrawlSettingsReading {
  import opened Text
  import opened PythonValues
  import opened CrawlSettings

  // ---------------------------------------------------------------- entries and how they are read

  function EntriesOf(slot: Option<Value>): Fields {
    match slot
    case Some(Dict(fields)) => fields
    case _ => map[]
  }

  /** The entry `k` of a profile, if there is a profile and it has one. */
  function Nested(profile: Option<Value>, k: Key): Option<Value> {
    if k in EntriesOf(profile) then Some(EntriesOf(profile)[k]) else None
  }

  predicate IsFirstAt(options: seq<Option<Value>>, i: int, v: Value) {
    0 <= i < |options| && options[i] == Some(v) && forall j :: 0 <= j < i ==> options[j].None?
  }

  /** `v` is the first entry present, or the default when none is. */
  ghost predicate IsFirst(options: seq<Option<Value>>, default: Value, v: Value) {
    (exists i :: IsFirstAt(options, i, v)) || (v == default && forall i :: 0 <= i < |options| ==> options[i].None?)
  }

  /** `r` is `n` moved into its bounds; the upper bound has the last word. */
  predicate IsBounded(n: int, minimum: int, maximum: Option<int>, r: int) {
    if maximum.Some? && (n >= maximum.value || minimum >= maximum.value) then r == maximum.value
    else if n <= minimum then r == minimum
    else r == n
  }

  predicate ReadsAs(env: Env, v: Value, default: int, minimum: int, maximum: Option<int>, r: Option<Value>) {
    r.Some? && r.value.Int?
    && match ReadInt(TextOf(env.repr, v))
       case None => r.value.n == default
       case Some(n) => IsBounded(n, minimum, maximum, r.value.n)
  }

  /** No number when the entry is null or its text is none. */
  predicate OptionallyReadsAs(env: Env, v: Value, minimum: int, maximum: Option<int>, r: Option<Value>) {
    if v == Null || ReadInt(TextOf(env.repr, v)).None? then r == Some(Null)
    else r.Some? && r.value.Int? && IsBounded(ReadInt(TextOf(env.repr, v)).value, minimum, maximum, r.value.n)
  }

  /** The text of a truthy entry, stripped; nothing for any other. */
  function Given(env: Env, entry: Option<Value>): string {
    match entry
    case Some(v) => if Truthy(v) then Strip(TextOf(env.repr, v)) else ""
    case None => ""
  }

  /** The given text in lower case, or the default. */
  predicate Says(env: Env, entry: Option<Value>, default: string, r: Option<Value>) {
    r == Some(Str(if Given(env, entry) != "" then Lower(Given(env, entry)) else default))
  }

  predicate SaysOrNull(env: Env, entry: Option<Value>, r: Option<Value>) {
    r == Some(if Given(env, entry) != "" then Str(Given(env, entry)) else Null)
  }

  predicate FlagIs(entry: Option<Value>, default: bool, r: Option<Value>) {
    r == Some(Bool(if entry.Some? then Truthy(entry.value) else default))
  }

  // ---------------------------------------------------------------- the coercions read what they are given

  lemma FirstOfTwo(nested: Option<Value>, flat: Option<Value>, default: Value, v: Value)
    requires IsFirst([nested, flat], default, v)
    ensures v == if nested.Some? then nested.value else if flat.Some? then flat.value else default
  {
    var options := [nested, flat];
    assert options[0] == nested && options[1] == flat;
  }

  lemma FirstOfThree(nested: Option<Value>, flat: Option<Value>, older: Option<Value>, default: Value, v: Value)
    requires IsFirst([nested, flat, older], default, v)
    ensures v == if nested.Some? then nested.value
                 else if flat.Some? then flat.value
                 else if older.Some? then older.value
                 else default
  {
    var options := [nested, flat, older];
    assert options[0] == nested && options[1] == flat && options[2] == older;
  }

  lemma GetIsNested(profile: Option<Value>, k: Key, default: Value)
    ensures Get(SlotDict(profile), k, default)
         == if Nested(profile, k).Some? then Nested(profile, k).value else default
    ensures SlotDict(profile) == EntriesOf(profile)
  {
  }

  lemma CoerceReads(env: Env, v: Value, default: int, minimum: int, maximum: Option<int>)
    ensures ReadsAs(env, v, default, minimum, maximum, Some(Int(CoerceInt(env, v, default, minimum, maximum))))
  {
  }

  lemma StripTwiceReads(text: string)
    ensures ReadInt(Strip(text)) == ReadInt(text)
    ensures Strip(text) == "" ==> ReadInt(text) == None
  {
    StripStrips(text);
  }

  lemma OptionalReads(env: Env, v: Value, minimum: int, maximum: Option<int>)
    ensures OptionallyReadsAs(env, v, minimum, maximum, Some(CoerceOptionalInt(env, v, minimum, maximum, false)))
  {
    StripTwiceReads(TextOf(env.repr, v));
  }

  lemma CleanOrSays(env: Env, stored: Option<Value>, k: Key, default: string)
    requires default != "" && Stripped(default) && Lower(default) == default
    ensures Says(env, Nested(stored, k), default, Some(Str(CleanOr(env, Get(SlotDict(stored), k, Null), default))))
  {
    GetIsNested(stored, k, Null);
    StripStrips(default);
    var v := Get(SlotDict(stored), k, Null);
    assert Truthy(v) ==> |Strip(TextOf(env.repr, v))| == |StripLower(TextOf(env.repr, v))|;
  }

  lemma CleanTextSays(env: Env, stored: Option<Value>, k: Key)
    ensures SaysOrNull(env, Nested(stored, k), Some(CleanText(env, Get(SlotDict(stored), k, Null))))
  {
    GetIsNested(stored, k, Null);
    assert Strip("") == "";
  }

  lemma FlagReads(stored: Option<Value>, k: Key, default: bool)
    ensures FlagIs(Nested(stored, k), default, Some(Bool(Flag(SlotDict(stored), k, default))))
  {
    GetIsNested(stored, k, Bool(default));
  }

  // ---------------------------------------------------------------- numbers

  lemma StoredFetch(env: Env, d: Data, n: Data) returns (r: FetchRecord)
    requires Normalize(env, d) == Some(n)
    ensures r == FetchProfileView(env, d) && n.fetchProfile == Some(Dict(FetchDict(r)))
    ensures n.maxPages == Some(Int(r.maxPages)) && r.maxPages == MaxPagesView(env, d)
    ensures n.maxScrolls == Some(Int(r.maxScrolls)) && r.maxScrolls == MaxScrollsView(env, d)
    ensures n.requestDelayMs == n.sleepMs == Some(Int(r.requestDelayMs)) && r.requestDelayMs == SleepMsView(env, d)
    ensures n.traversalMode == Some(TraversalValue(r.traversal)) && r.traversal == TraversalView(env, d)
    ensures n.hostMemoryTtlSeconds == if r.ttl == Null then None else Some(r.ttl)
  {
    r := FetchProfileView(env, d);
  }

  /** What a profile is stored as. */
  lemma FetchEntries(p: FetchRecord)
    ensures var f := Some(Dict(FetchDict(p)));
            && EntriesOf(f).Keys == {FetchMode, ExtractionSource, JsMode, IncludeIframes, TraversalMode,
                                     RequestDelayMs, MaxPages, MaxScrolls, HostMemoryTtlSeconds}
            && Nested(f, FetchMode) == Some(Str(p.fetchMode))
            && Nested(f, ExtractionSource) == Some(Str(p.extractionSource))
            && Nested(f, JsMode) == Some(Str(p.jsMode)) && Nested(f, IncludeIframes) == Some(Bool(p.includeIframes))
            && Nested(f, TraversalMode) == Some(TraversalValue(p.traversal))
            && Nested(f, RequestDelayMs) == Some(Int(p.requestDelayMs))
            && Nested(f, MaxPages) == Some(Int(p.maxPages)) && Nested(f, MaxScrolls) == Some(Int(p.maxScrolls))
            && Nested(f, HostMemoryTtlSeconds) == Some(p.ttl)
  {
  }

  lemma PagesRead(env: Env, d: Data, pages: Value)
    requires IsFirst([Nested(d.fetchProfile, MaxPages), d.maxPages], Int(env.defaultMaxPages), pages)
    ensures ReadsAs(env, pages, env.defaultMaxPages, env.minMaxPages, Some(env.maxMaxPages),
                    Some(Int(MaxPagesView(env, d))))
  {
    FirstOfTwo(Nested(d.fetchProfile, MaxPages), d.maxPages, Int(env.defaultMaxPages), pages);
    GetIsNested(d.fetchProfile, MaxPages, Slot(d.maxPages, Int(env.defaultMaxPages)));
    CoerceReads(env, pages, env.defaultMaxPages, env.minMaxPages, Some(env.maxMaxPages));
  }

  /** The page limit that is stored, flat and in the profile: the nested entry wins when present,
      else the flat one, else the default; it is read as a number and moved into its bounds. */
  lemma StoredPages(env: Env, d: Data, n: Data, pages: Value)
    requires Normalize(env, d) == Some(n)
    requires IsFirst([Nested(d.fetchProfile, MaxPages), d.maxPages], Int(env.defaultMaxPages), pages)
    ensures n.maxPages == Nested(n.fetchProfile, MaxPages)
    ensures ReadsAs(env, pages, env.defaultMaxPages, env.minMaxPages, Some(env.maxMaxPages), n.maxPages)
  {
    PagesRead(env, d, pages);
    var r := StoredFetch(env, d, n);
    FetchEntries(r);
  }

  lemma ScrollsRead(env: Env, d: Data, scrolls: Value)
    requires IsFirst([Nested(d.fetchProfile, MaxScrolls), d.maxScrolls], Int(env.defaultMaxScrolls), scrolls)
    ensures ReadsAs(env, scrolls, env.defaultMaxScrolls, 1, None, Some(Int(MaxScrollsView(env, d))))
  {
    FirstOfTwo(Nested(d.fetchProfile, MaxScrolls), d.maxScrolls, Int(env.defaultMaxScrolls), scrolls);
    GetIsNested(d.fetchProfile, MaxScrolls, Slot(d.maxScrolls, Int(env.defaultMaxScrolls)));
    CoerceReads(env, scrolls, env.defaultMaxScrolls, 1, None);
  }

  lemma StoredScrolls(env: Env, d: Data, n: Data, scrolls: Value)
    requires Normalize(env, d) == Some(n)
    requires IsFirst([Nested(d.fetchProfile, MaxScrolls), d.maxScrolls], Int(env.defaultMaxScrolls), scrolls)
    ensures n.maxScrolls == Nested(n.fetchProfile, MaxScrolls)
    ensures ReadsAs(env, scrolls, env.defaultMaxScrolls, 1, None, n.maxScrolls)
  {
    ScrollsRead(env, d, scrolls);
    var r := StoredFetch(env, d, n);
    FetchEntries(r);
  }

  lemma DelayRead(env: Env, d: Data, delay: Value)
    requires IsFirst([Nested(d.fetchProfile, RequestDelayMs), d.requestDelayMs, d.sleepMs],
                     Int(env.minRequestDelayMs), delay)
    ensures ReadsAs(env, delay, env.minRequestDelayMs, env.minRequestDelayMs, None, Some(Int(SleepMsView(env, d))))
  {
    var default := Int(env.minRequestDelayMs);
    FirstOfThree(Nested(d.fetchProfile, RequestDelayMs), d.requestDelayMs, d.sleepMs, default, delay);
    GetIsNested(d.fetchProfile, RequestDelayMs, Slot(d.requestDelayMs, Slot(d.sleepMs, default)));
    CoerceReads(env, delay, env.minRequestDelayMs, env.minRequestDelayMs, None);
  }

  /** Of the two flat names of the delay the newer one wins. */
  lemma StoredDelay(env: Env, d: Data, n: Data, delay: Value)
    requires Normalize(env, d) == Some(n)
    requires IsFirst([Nested(d.fetchProfile, RequestDelayMs), d.requestDelayMs, d.sleepMs],
                     Int(env.minRequestDelayMs), delay)
    ensures n.requestDelayMs == n.sleepMs == Nested(n.fetchProfile, RequestDelayMs)
    ensures ReadsAs(env, delay, env.minRequestDelayMs, env.minRequestDelayMs, None, n.requestDelayMs)
  {
    DelayRead(env, d, delay);
    var r := StoredFetch(env, d, n);
    FetchEntries(r);
  }

  lemma StoredRecords(env: Env, d: Data, n: Data)
    requires Normalize(env, d) == Some(n)
    ensures ReadsAs(env, if d.maxRecords.Some? then d.maxRecords.value else Int(env.defaultMaxRecords),
                    env.defaultMaxRecords, 1, None, n.maxRecords)
    ensures FlagIs(d.respectRobotsTxt, false, n.respectRobotsTxt)
  {
    CoerceReads(env, Slot(d.maxRecords, Int(env.defaultMaxRecords)), env.defaultMaxRecords, 1, None);
  }

  // ---------------------------------------------------------------- the fetch profile

  ghost predicate FetchSays(env: Env, p: Option<Value>, r: Option<Value>) {
    && Says(env, Nested(p, FetchMode), "auto", Nested(r, FetchMode))
    && Says(env, Nested(p, ExtractionSource), "raw_html", Nested(r, ExtractionSource))
    && Says(env, Nested(p, JsMode), "auto", Nested(r, JsMode))
    && FlagIs(Nested(p, IncludeIframes), false, Nested(r, IncludeIframes))
  }

  lemma FetchTextsRead(env: Env, d: Data)
    ensures var p, r := d.fetchProfile, FetchProfileView(env, d);
            && Says(env, Nested(p, FetchMode), "auto", Some(Str(r.fetchMode)))
            && Says(env, Nested(p, ExtractionSource), "raw_html", Some(Str(r.extractionSource)))
            && Says(env, Nested(p, JsMode), "auto", Some(Str(r.jsMode)))
            && FlagIs(Nested(p, IncludeIframes), false, Some(Bool(r.includeIframes)))
  {
    assert Lower("auto") == "auto" && Lower("raw_html") == "raw_html";
    CleanOrSays(env, d.fetchProfile, FetchMode, "auto");
    CleanOrSays(env, d.fetchProfile, ExtractionSource, "raw_html");
    CleanOrSays(env, d.fetchProfile, JsMode, "auto");
    FlagReads(d.fetchProfile, IncludeIframes, false);
  }

  /** The texts of the fetch profile are those stored, stripped and in lower case, or the defaults;
      without a stored profile they are the defaults. */
  lemma StoredFetchTexts(env: Env, d: Data, n: Data)
    requires Normalize(env, d) == Some(n)
    ensures FetchSays(env, d.fetchProfile, n.fetchProfile)
    ensures EntriesOf(n.fetchProfile).Keys
         == {FetchMode, ExtractionSource, JsMode, IncludeIframes, TraversalMode, RequestDelayMs, MaxPages,
             MaxScrolls, HostMemoryTtlSeconds}
    ensures Nested(n.fetchProfile, TraversalMode) == n.traversalMode
  {
    FetchTextsRead(env, d);
    var r := StoredFetch(env, d, n);
    FetchEntries(r);
  }

  lemma TtlReads(env: Env, d: Data, ttl: Value)
    requires IsFirst([Nested(d.fetchProfile, HostMemoryTtlSeconds), d.hostMemoryTtlSeconds], Null, ttl)
    ensures OptionallyReadsAs(env, ttl, env.ttlMin, Some(env.ttlMax), Some(FetchProfileView(env, d).ttl))
  {
    FirstOfTwo(Nested(d.fetchProfile, HostMemoryTtlSeconds), d.hostMemoryTtlSeconds, Null, ttl);
    GetIsNested(d.fetchProfile, HostMemoryTtlSeconds, Slot(d.hostMemoryTtlSeconds, Null));
    OptionalReads(env, ttl, env.ttlMin, Some(env.ttlMax));
  }

  /** The time-to-live is nested in the profile or flat, read as a number within its bounds; nothing
      is stored flat when it is none. */
  lemma StoredTtl(env: Env, d: Data, n: Data, ttl: Value)
    requires Normalize(env, d) == Some(n)
    requires IsFirst([Nested(d.fetchProfile, HostMemoryTtlSeconds), d.hostMemoryTtlSeconds], Null, ttl)
    ensures OptionallyReadsAs(env, ttl, env.ttlMin, Some(env.ttlMax), Nested(n.fetchProfile, HostMemoryTtlSeconds))
    ensures n.hostMemoryTtlSeconds
         == if Nested(n.fetchProfile, HostMemoryTtlSeconds) == Some(Null) then None
            else Nested(n.fetchProfile, HostMemoryTtlSeconds)
  {
    TtlReads(env, d, ttl);
    var r := StoredFetch(env, d, n);
    FetchEntries(r);
  }

  // ---------------------------------------------------------------- the traversal mode

  /** The entry that gives the mode: that of a non-empty profile; without one, none if the advanced
      flag is there and off, else the first truthy of the two flat names. */
  function ModeEntry(d: Data): Option<Value> {
    if EntriesOf(d.fetchProfile) != map[] then Nested(d.fetchProfile, TraversalMode)
    else if d.advancedEnabled.Some? && d.advancedEnabled != Some(Null) && !Truthy(d.advancedEnabled.value) then None
    else if d.traversalMode.Some? && Truthy(d.traversalMode.value) then d.traversalMode
    else d.advancedMode
  }

  const LEGAL := {"paginate", "scroll", "load_more", "single", "sitemap", "crawl"}

  /** Normalisation fails exactly on a word that is neither a mode, nor an older name of one, nor a
      way to say none; else the mode is stored, under its present name. */
  lemma StoredTraversal(env: Env, d: Data)
    ensures var word := Lower(Given(env, ModeEntry(d)));
            && (Normalize(env, d) == None
                <==> word !in LEGAL + {"pagination", "infinite_scroll", "view_all", "", "none"})
            && (Normalize(env, d).Some? ==>
                  && Normalize(env, d).value.traversalMode
                  == Some(if word == "" || word == "none" then Null
                          else if word == "pagination" then Str("paginate")
                          else if word == "infinite_scroll" then Str("scroll")
                          else if word == "view_all" then Str("load_more")
                          else Str(word)))
  {
    ModeRead(env, d);
    NormalizeTraversal(env, d);
  }

  lemma ModeRead(env: Env, d: Data)
    ensures var word, t := Lower(Given(env, ModeEntry(d))), TraversalView(env, d);
            && (t.Unsupported? <==> word !in LEGAL + {"pagination", "infinite_scroll", "view_all", "", "none"})
            && (!t.Unsupported? ==>
                  TraversalValue(t) == if word == "" || word == "none" then Null
                                       else if word == "pagination" then Str("paginate")
                                       else if word == "infinite_scroll" then Str("scroll")
                                       else if word == "view_all" then Str("load_more")
                                       else Str(word))
  {
    GetIsNested(d.fetchProfile, TraversalMode, Null);
    assert StripLower("") == "" == Lower("");
    assert TraversalView(env, d) == ReadMode(env, Slot(ModeEntry(d), Null));
  }

  lemma NormalizeTraversal(env: Env, d: Data)
    ensures Normalize(env, d) == None <==> TraversalView(env, d).Unsupported?
    ensures Normalize(env, d).Some? ==>
              Normalize(env, d).value.traversalMode == Some(TraversalValue(TraversalView(env, d)))
  {
  }

  // ---------------------------------------------------------------- locality and diagnostics

  lemma ProfilesAre(env: Env, d: Data, n: Data)
    returns (locality: LocalityRecord, diagnostics: DiagnosticsRecord, contract: ContractRecord)
    requires Normalize(env, d) == Some(n)
    ensures n.localityProfile == Some(Dict(LocalityDict(locality))) && locality == LocalityView(env, d)
    ensures n.diagnosticsProfile == Some(Dict(DiagnosticsDict(diagnostics))) && diagnostics == DiagnosticsView(env, d)
    ensures n.acquisitionContract == Some(Dict(ContractDict(contract))) && contract == ContractView(env, d)
  {
    locality, diagnostics, contract := LocalityView(env, d), DiagnosticsView(env, d), ContractView(env, d);
  }

  ghost predicate LocalitySays(env: Env, p: Option<Value>, r: Option<Value>) {
    && (var country := Given(env, Nested(p, GeoCountry));
        Nested(r, GeoCountry) == Some(Str(if country != "" then country else "auto")))
    && SaysOrNull(env, Nested(p, LanguageHint), Nested(r, LanguageHint))
    && SaysOrNull(env, Nested(p, CurrencyHint), Nested(r, CurrencyHint))
  }

  lemma LocalityEntries(p: LocalityRecord)
    ensures var f := Some(Dict(LocalityDict(p)));
            && EntriesOf(f).Keys == {GeoCountry, LanguageHint, CurrencyHint}
            && Nested(f, GeoCountry) == Some(Str(p.geoCountry))
            && Nested(f, LanguageHint) == Some(p.languageHint) && Nested(f, CurrencyHint) == Some(p.currencyHint)
  {
  }

  lemma LocalityReads(env: Env, d: Data)
    ensures var p, r := d.localityProfile, LocalityView(env, d);
            var country := Given(env, Nested(p, GeoCountry));
            && r.geoCountry == (if country != "" then country else "auto")
            && SaysOrNull(env, Nested(p, LanguageHint), Some(r.languageHint))
            && SaysOrNull(env, Nested(p, CurrencyHint), Some(r.currencyHint))
  {
    GetIsNested(d.localityProfile, GeoCountry, Null);
    StripStrips("auto");
    CleanTextSays(env, d.localityProfile, LanguageHint);
    CleanTextSays(env, d.localityProfile, CurrencyHint);
  }

  lemma StoredLocality(env: Env, d: Data, n: Data)
    requires Normalize(env, d) == Some(n)
    ensures LocalitySays(env, d.localityProfile, n.localityProfile)
    ensures EntriesOf(n.localityProfile).Keys == {GeoCountry, LanguageHint, CurrencyHint}
  {
    LocalityReads(env, d);
    var r, _, _ := ProfilesAre(env, d, n);
    LocalityEntries(r);
  }

  ghost predicate DiagnosticsSay(env: Env, p: Option<Value>, r: Option<Value>) {
    && FlagIs(Nested(p, CaptureHtml), true, Nested(r, CaptureHtml))
    && FlagIs(Nested(p, CaptureScreenshot), false, Nested(r, CaptureScreenshot))
    && Says(env, Nested(p, CaptureNetwork), "off", Nested(r, CaptureNetwork))
    && FlagIs(Nested(p, CaptureResponseHeaders), true, Nested(r, CaptureResponseHeaders))
    && FlagIs(Nested(p, CaptureBrowserDiagnostics), true, Nested(r, CaptureBrowserDiagnostics))
  }

  lemma DiagnosticsEntries(p: DiagnosticsRecord)
    ensures var f := Some(Dict(DiagnosticsDict(p)));
            && EntriesOf(f).Keys == {CaptureHtml, CaptureScreenshot, CaptureNetwork, CaptureResponseHeaders,
                                     CaptureBrowserDiagnostics}
            && Nested(f, CaptureHtml) == Some(Bool(p.html)) && Nested(f, CaptureScreenshot) == Some(Bool(p.screenshot))
            && Nested(f, CaptureNetwork) == Some(Str(p.network))
            && Nested(f, CaptureResponseHeaders) == Some(Bool(p.responseHeaders))
            && Nested(f, CaptureBrowserDiagnostics) == Some(Bool(p.browserDiagnostics))
  {
  }

  lemma DiagnosticsRead(env: Env, d: Data)
    ensures var p, r := d.diagnosticsProfile, DiagnosticsView(env, d);
            && FlagIs(Nested(p, CaptureHtml), true, Some(Bool(r.html)))
            && FlagIs(Nested(p, CaptureScreenshot), false, Some(Bool(r.screenshot)))
            && Says(env, Nested(p, CaptureNetwork), "off", Some(Str(r.network)))
            && FlagIs(Nested(p, CaptureResponseHeaders), true, Some(Bool(r.responseHeaders)))
            && FlagIs(Nested(p, CaptureBrowserDiagnostics), true, Some(Bool(r.browserDiagnostics)))
  {
    assert Lower("off") == "off";
    CleanOrSays(env, d.diagnosticsProfile, CaptureNetwork, "off");
    FlagReads(d.diagnosticsProfile, CaptureHtml, true);
    FlagReads(d.diagnosticsProfile, CaptureScreenshot, false);
    FlagReads(d.diagnosticsProfile, CaptureResponseHeaders, true);
    FlagReads(d.diagnosticsProfile, CaptureBrowserDiagnostics, true);
  }

  lemma StoredDiagnostics(env: Env, d: Data, n: Data)
    requires Normalize(env, d) == Some(n)
    ensures DiagnosticsSay(env, d.diagnosticsProfile, n.diagnosticsProfile)
    ensures EntriesOf(n.diagnosticsProfile).Keys
         == {CaptureHtml, CaptureScreenshot, CaptureNetwork, CaptureResponseHeaders, CaptureBrowserDiagnostics}
  {
    DiagnosticsRead(env, d);
    var _, r, _ := ProfilesAre(env, d, n);
    DiagnosticsEntries(r);
  }

  // ---------------------------------------------------------------- the acquisition contract

  /** The fetch mode the contract looks at: nested if present, else the flat one if truthy. */
  predicate ModeIsBrowserOnly(env: Env, d: Data) {
    match Nested(d.fetchProfile, FetchMode)
    case Some(v) => StripLower(TextOf(env.repr, v)) == "browser_only"
    case None => Lower(Given(env, d.fetchMode)) == "browser_only"
  }

  lemma BrowserOnlyExactly(env: Env, d: Data)
    ensures BrowserOnly(env, d) <==> ModeIsBrowserOnly(env, d)
  {
    var flat := Slot(d.fetchMode, Null);
    GetIsNested(d.fetchProfile, FetchMode, if Truthy(flat) then flat else Str(""));
    assert StripLower("") == "" == Lower("");
  }

  /** The flags of a contract. The older `prefer_curl_handoff` counts exactly when there is no
      `handoff_eligible`, and neither does for browser-only settings, which prefer the browser. */
  ghost predicate ContractFlags(p: Option<Value>, only: bool, r: Option<Value>) {
    && FlagIs(if only then Some(Bool(true)) else Nested(p, PreferBrowser), false, Nested(r, PreferBrowser))
    && FlagIs(if only then None
              else if Nested(p, HandoffEligible).Some? then Nested(p, HandoffEligible)
              else Nested(p, PreferCurlHandoff),
              false, Nested(r, HandoffEligible))
    && FlagIs(Nested(p, RequiredRendering), false, Nested(r, RequiredRendering))
    && FlagIs(Nested(p, RequiredTraversal), false, Nested(r, RequiredTraversal))
    && FlagIs(Nested(p, RequiredNetworkPayloads), false, Nested(r, RequiredNetworkPayloads))
  }

  lemma ContractEntries(p: ContractRecord)
    ensures var f := Some(Dict(ContractDict(p)));
            && EntriesOf(f).Keys == {PreferredBrowserEngine, PreferBrowser, HandoffEligible, HandoffCookieEngine,
                                     RequiredRendering, RequiredTraversal, RequiredNetworkPayloads,
                                     LastQualitySuccess, StaleAfterFailures}
            && Nested(f, PreferredBrowserEngine) == Some(Str(p.preferredBrowserEngine))
            && Nested(f, PreferBrowser) == Some(Bool(p.preferBrowser))
            && Nested(f, HandoffEligible) == Some(Bool(p.handoffEligible))
            && Nested(f, HandoffCookieEngine) == Some(Str(p.handoffCookieEngine))
            && Nested(f, RequiredRendering) == Some(Bool(p.requiredRendering))
            && Nested(f, RequiredTraversal) == Some(Bool(p.requiredTraversal))
            && Nested(f, RequiredNetworkPayloads) == Some(Bool(p.requiredNetworkPayloads))
            && Nested(f, LastQualitySuccess) == Some(p.lastQualitySuccess)
            && Nested(f, StaleAfterFailures) == Some(Dict(StaleDict(p)))
  {
  }

  lemma StaleEntries(p: ContractRecord)
    ensures var f := Some(Dict(StaleDict(p)));
            && EntriesOf(f).Keys == {FailureCount, Stale}
            && Nested(f, FailureCount) == Some(Int(p.failureCount)) && Nested(f, Stale) == Some(Bool(p.stale))
  {
  }

  lemma ContractFlagsRead(env: Env, p: Option<Value>, only: bool)
    ensures var r := ContractOf(env, SlotDict(p), only);
            && FlagIs(if only then Some(Bool(true)) else Nested(p, PreferBrowser), false, Some(Bool(r.preferBrowser)))
            && FlagIs(if only then None
                      else if Nested(p, HandoffEligible).Some? then Nested(p, HandoffEligible)
                      else Nested(p, PreferCurlHandoff),
                      false, Some(Bool(r.handoffEligible)))
            && FlagIs(Nested(p, RequiredRendering), false, Some(Bool(r.requiredRendering)))
            && FlagIs(Nested(p, RequiredTraversal), false, Some(Bool(r.requiredTraversal)))
            && FlagIs(Nested(p, RequiredNetworkPayloads), false, Some(Bool(r.requiredNetworkPayloads)))
  {
    FlagReads(p, PreferBrowser, false);
    GetIsNested(p, PreferCurlHandoff, Bool(false));
    GetIsNested(p, HandoffEligible, Get(SlotDict(p), PreferCurlHandoff, Bool(false)));
    FlagReads(p, RequiredRendering, false);
    FlagReads(p, RequiredTraversal, false);
    FlagReads(p, RequiredNetworkPayloads, false);
  }

  lemma StoredContract(env: Env, d: Data, n: Data) returns (r: ContractRecord, only: bool)
    requires Normalize(env, d) == Some(n)
    ensures only == ModeIsBrowserOnly(env, d) && r == ContractOf(env, SlotDict(d.acquisitionContract), only)
    ensures n.acquisitionContract == Some(Dict(ContractDict(r)))
  {
    var _, _, c := ProfilesAre(env, d, n);
    BrowserOnlyExactly(env, d);
    r, only := c, ModeIsBrowserOnly(env, d);
  }

  lemma StoredContractFlags(env: Env, d: Data, n: Data)
    requires Normalize(env, d) == Some(n)
    ensures ContractFlags(d.acquisitionContract, ModeIsBrowserOnly(env, d), n.acquisitionContract)
    ensures EntriesOf(n.acquisitionContract).Keys
         == {PreferredBrowserEngine, PreferBrowser, HandoffEligible, HandoffCookieEngine, RequiredRendering,
             RequiredTraversal, RequiredNetworkPayloads, LastQualitySuccess, StaleAfterFailures}
  {
    var r, only := StoredContract(env, d, n);
    ContractFlagsRead(env, d.acquisitionContract, only);
    ContractEntries(r);
  }

  /** The engines and the failure record of a contract. */
  ghost predicate ContractSays(env: Env, p: Option<Value>, only: bool, r: Option<Value>) {
    var before, after := Nested(p, StaleAfterFailures), Nested(r, StaleAfterFailures);
    && Says(env, Nested(p, PreferredBrowserEngine), "auto", Nested(r, PreferredBrowserEngine))
    && Says(env, if only then None else Nested(p, HandoffCookieEngine), "auto", Nested(r, HandoffCookieEngine))
    && FlagIs(Nested(before, Stale), false, Nested(after, Stale))
    && ReadsAs(env, if Nested(before, FailureCount).Some? then Nested(before, FailureCount).value else Null,
               0, 0, None, Nested(after, FailureCount))
  }

  lemma ContractTextsRead(env: Env, p: Option<Value>, only: bool)
    ensures var r, before := ContractOf(env, SlotDict(p), only), Nested(p, StaleAfterFailures);
            && Says(env, Nested(p, PreferredBrowserEngine), "auto", Some(Str(r.preferredBrowserEngine)))
            && Says(env, if only then None else Nested(p, HandoffCookieEngine), "auto",
                    Some(Str(r.handoffCookieEngine)))
            && FlagIs(Nested(before, Stale), false, Some(Bool(r.stale)))
            && ReadsAs(env, if Nested(before, FailureCount).Some? then Nested(before, FailureCount).value else Null,
                       0, 0, None, Some(Int(r.failureCount)))
  {
    var before := Nested(p, StaleAfterFailures);
    assert Lower("auto") == "auto";
    CleanOrSays(env, p, PreferredBrowserEngine, "auto");
    CleanOrSays(env, p, HandoffCookieEngine, "auto");
    GetIsNested(p, StaleAfterFailures, Null);
    FlagReads(before, Stale, false);
    GetIsNested(before, FailureCount, Null);
    CoerceReads(env, Get(SlotDict(before), FailureCount, Null), 0, 0, None);
  }

  lemma StoredContractTexts(env: Env, d: Data, n: Data)
    requires Normalize(env, d) == Some(n)
    ensures ContractSays(env, d.acquisitionContract, ModeIsBrowserOnly(env, d), n.acquisitionContract)
    ensures EntriesOf(Nested(n.acquisitionContract, StaleAfterFailures)).Keys == {FailureCount, Stale}
  {
    var r, only := StoredContract(env, d, n);
    ContractTextsRead(env, d.acquisitionContract, only);
    ContractEntries(r);
    StaleEntries(r);
  }

  const ENGINES := {"auto", "patchright", "real_chrome"}

  const QUALITY_KEYS := {Method, BrowserEngine, RecordCount, FieldCoverage, SourceRunId, Timestamp}

  /** What is stored of a quality success: the six known entries cleaned, all others as they were. */
  ghost predicate KeepsQuality(env: Env, success: Option<Value>, r: Option<Value>) {
    && EntriesOf(r).Keys == EntriesOf(success).Keys + QUALITY_KEYS
    && (forall k :: k in EntriesOf(success) && k !in QUALITY_KEYS ==> Nested(r, k) == Nested(success, k))
    && SaysOrNull(env, Nested(success, Method), Nested(r, Method))
    && SaysOrNull(env, Nested(success, Timestamp), Nested(r, Timestamp))
    && EngineOrNull(Lower(Given(env, Nested(success, BrowserEngine))), Nested(r, BrowserEngine))
    && ReadsAs(env, if Nested(success, RecordCount).Some? then Nested(success, RecordCount).value else Null,
               0, 0, None, Nested(r, RecordCount))
    && Nested(r, FieldCoverage) == Some(Dict(EntriesOf(Nested(success, FieldCoverage))))
    && PositiveOrNull(env, Nested(success, SourceRunId), Nested(r, SourceRunId))
  }

  predicate EngineOrNull(engine: string, r: Option<Value>) {
    r == Some(if engine in ENGINES then Str(engine) else Null)
  }

  predicate PositiveOrNull(env: Env, entry: Option<Value>, r: Option<Value>) {
    var v := if entry.Some? then entry.value else Null;
    var number := ReadInt(TextOf(env.repr, v));
    r == Some(if v == Null || number.None? || number.value <= 0 then Null else Int(number.value))
  }

  lemma PositiveReads(env: Env, stored: Option<Value>, k: Key)
    ensures PositiveOrNull(env, Nested(stored, k),
                           Some(CoerceOptionalInt(env, Get(SlotDict(stored), k, Null), 1, None, true)))
  {
    GetIsNested(stored, k, Null);
    StripTwiceReads(TextOf(env.repr, Get(SlotDict(stored), k, Null)));
  }

  lemma EngineReads(env: Env, stored: Option<Value>)
    ensures EngineOrNull(Lower(Given(env, Nested(stored, BrowserEngine))),
                         Some(BrowserEngineChoice(env, Get(SlotDict(stored), BrowserEngine, Null))))
  {
    GetIsNested(stored, BrowserEngine, Null);
    assert StripLower("") == "" == Lower("");
  }

  lemma QualityEntries(last: Fields, how: Value, engine: Value, count: Value, coverage: Value, runId: Value,
                       timestamp: Value)
    ensures var over := map[Method := how, BrowserEngine := engine, RecordCount := count,
                            FieldCoverage := coverage, SourceRunId := runId, Timestamp := timestamp];
            var r := Some(Dict(last + over));
            && EntriesOf(r).Keys == last.Keys + QUALITY_KEYS
            && (forall k :: k in last && k !in QUALITY_KEYS ==> Nested(r, k) == Some(last[k]))
            && Nested(r, Method) == Some(how) && Nested(r, BrowserEngine) == Some(engine)
            && Nested(r, RecordCount) == Some(count) && Nested(r, FieldCoverage) == Some(coverage)
            && Nested(r, SourceRunId) == Some(runId) && Nested(r, Timestamp) == Some(timestamp)
  {
    var over := map[Method := how, BrowserEngine := engine, RecordCount := count,
                    FieldCoverage := coverage, SourceRunId := runId, Timestamp := timestamp];
    QualityOver(over, how, engine, count, coverage, runId, timestamp);
    MergedEntries(last, over);
  }

  lemma QualityOver(over: Fields, how: Value, engine: Value, count: Value, coverage: Value, runId: Value,
                    timestamp: Value)
    requires over == map[Method := how, BrowserEngine := engine, RecordCount := count,
                         FieldCoverage := coverage, SourceRunId := runId, Timestamp := timestamp]
    ensures over.Keys == QUALITY_KEYS && over[Method] == how && over[BrowserEngine] == engine
    ensures over[RecordCount] == count && over[FieldCoverage] == coverage && over[SourceRunId] == runId
    ensures over[Timestamp] == timestamp
  {
  }

  lemma MergedEntries(last: Fields, over: Fields)
    ensures var r := Some(Dict(last + over));
            && EntriesOf(r).Keys == last.Keys + over.Keys
            && (forall k :: k in over ==> Nested(r, k) == Some(over[k]))
            && forall k :: k in last && k !in over ==> Nested(r, k) == Some(last[k])
  {
  }

  lemma QualityKept(env: Env, success: Option<Value>)
    requires EntriesOf(success) != map[]
    ensures KeepsQuality(env, success, Some(QualitySuccess(env, EntriesOf(success))))
  {
    var last := EntriesOf(success);
    CleanTextSays(env, success, Method);
    CleanTextSays(env, success, Timestamp);
    EngineReads(env, success);
    GetIsNested(success, RecordCount, Null);
    CoerceReads(env, Get(last, RecordCount, Null), 0, 0, None);
    GetIsNested(success, FieldCoverage, Null);
    PositiveReads(env, success, SourceRunId);
    QualityEntries(last, CleanText(env, Get(last, Method, Null)),
                   BrowserEngineChoice(env, Get(last, BrowserEngine, Null)),
                   Int(CoerceInt(env, Get(last, RecordCount, Null), 0, 0, None)),
                   Dict(AsDict(Get(last, FieldCoverage, Null))),
                   CoerceOptionalInt(env, Get(last, SourceRunId, Null), 1, None, true),
                   CleanText(env, Get(last, Timestamp, Null)));
  }

  lemma QualityRead(env: Env, p: Option<Value>, only: bool)
    ensures var success := Nested(p, LastQualitySuccess);
            ContractOf(env, SlotDict(p), only).lastQualitySuccess == QualitySuccess(env, EntriesOf(success))
  {
    GetIsNested(p, LastQualitySuccess, Null);
  }

  /** The last quality success is stored only when there is one. */
  lemma StoredQuality(env: Env, d: Data, n: Data)
    requires Normalize(env, d) == Some(n)
    ensures var success, r := Nested(d.acquisitionContract, LastQualitySuccess),
                              Nested(n.acquisitionContract, LastQualitySuccess);
            if EntriesOf(success) == map[] then r == Some(Null) else KeepsQuality(env, success, r)
  {
    var success := Nested(d.acquisitionContract, LastQualitySuccess);
    var r, only := StoredContract(env, d, n);
    QualityRead(env, d.acquisitionContract, only);
    ContractEntries(r);
    if EntriesOf(success) != map[] {
      QualityKept(env, success);
    }
  }

  // ---------------------------------------------------------------- proxies, targets and the rest

  /** The items of a value given as a list, alone, or not at all. */
  function Items(entry: Option<Value>): seq<Value> {
    match entry
    case None => []
    case Some(Null) => []
    case Some(List(items)) => items
    case Some(v) => [v]
  }

  /** `r` lists the non-blank texts of the items, in order. */
  ghost predicate ListsTexts(env: Env, items: seq<Value>, r: seq<Value>) {
    if items == [] then r == []
    else
      var n, text := |items| - 1, Given(env, Some(items[|items| - 1]));
      if text == "" then ListsTexts(env, items[..n], r)
      else r != [] && r[|r| - 1] == Str(text) && ListsTexts(env, items[..n], r[..|r| - 1])
  }

  lemma ListsAppend(env: Env, items: seq<Value>, last: Value, r: seq<Value>)
    requires ListsTexts(env, items, r)
    ensures var text := Given(env, Some(last));
            ListsTexts(env, items + [last], if text == "" then r else r + [Str(text)])
  {
    var text := Given(env, Some(last));
    assert (items + [last])[..|items|] == items;
    if text != "" {
      assert (r + [Str(text)])[..|r|] == r;
    }
  }

  lemma {:induction false} CleanTextsList(env: Env, items: seq<Value>)
    ensures ListsTexts(env, items, CleanTexts(env, items))
  {
    if items != [] {
      var before, last := items[..|items| - 1], items[|items| - 1];
      CleanTextsList(env, before);
      CleanListNext(env, items, before, last);
    }
  }

  lemma CleanListNext(env: Env, items: seq<Value>, before: seq<Value>, last: Value)
    requires items == before + [last] && ListsTexts(env, before, CleanTexts(env, before))
    ensures ListsTexts(env, items, CleanTexts(env, items))
  {
    CleanTextsNext(env, before, last);
    ListsAppend(env, before, last, CleanTexts(env, before));
  }

  lemma CleanTextsNext(env: Env, items: seq<Value>, last: Value)
    ensures var text := Given(env, Some(last));
            CleanTexts(env, items + [last])
            == if text == "" then CleanTexts(env, items) else CleanTexts(env, items) + [Str(text)]
  {
    CleanTextsAppend(env, items, last);
    assert Strip("") == "";
    assert CleanTexts(env, items) + [] == CleanTexts(env, items);
  }

  lemma ProxiesRead(env: Env, d: Data, list: Value)
    requires IsFirst([Nested(d.proxyProfile, ProxyList), d.proxyList], Null, list)
    ensures ListsTexts(env, Items(Some(list)), ProxyListView(env, d))
    ensures FlagIs(if Nested(d.proxyProfile, Enabled).Some? then Nested(d.proxyProfile, Enabled) else d.proxyEnabled,
                   false, Some(Bool(ProxyEnabledView(d))))
  {
    FirstOfTwo(Nested(d.proxyProfile, ProxyList), d.proxyList, Null, list);
    GetIsNested(d.proxyProfile, ProxyList, Slot(d.proxyList, Null));
    GetIsNested(d.proxyProfile, Enabled, Slot(d.proxyEnabled, Bool(false)));
    CleanTextsList(env, Items(Some(list)));
    assert CoerceSequence(list) == Items(Some(list));
  }

  /** Proxies: the nested entries win over the flat ones; the list holds the non-blank texts; every
      other entry of the stored profile stays. */
  lemma StoredProxies(env: Env, d: Data, n: Data, list: Value)
    requires Normalize(env, d) == Some(n)
    requires IsFirst([Nested(d.proxyProfile, ProxyList), d.proxyList], Null, list)
    ensures n.proxyList.Some? && n.proxyList.value.List?
    ensures ListsTexts(env, Items(Some(list)), n.proxyList.value.items)
    ensures FlagIs(if Nested(d.proxyProfile, Enabled).Some? then Nested(d.proxyProfile, Enabled) else d.proxyEnabled,
                   false, n.proxyEnabled)
    ensures n.proxyEnabled.Some?
    ensures n.proxyProfile
         == Some(Dict(EntriesOf(d.proxyProfile)[Enabled := n.proxyEnabled.value][ProxyList := n.proxyList.value]))
  {
    ProxiesRead(env, d, list);
    GetIsNested(d.proxyProfile, ProxyList, Null);
  }

  lemma RestIs(env: Env, d: Data, n: Data)
    requires Normalize(env, d) == Some(n)
    ensures n.urls == Some(List(UrlsView(env, d)))
    ensures n.internalApiEndpoints
         == if EndpointsView(env, d).Some? then Some(List(EndpointsView(env, d).value)) else d.internalApiEndpoints
  {
  }

  lemma TargetsRead(env: Env, d: Data)
    ensures |UrlsView(env, d)| == |Items(d.urls)|
    ensures forall i :: 0 <= i < |Items(d.urls)| ==> UrlsView(env, d)[i] == Str(env.targetUrl(Items(d.urls)[i]))
  {
  }

  /** Targets are cleaned one by one, endpoints as a whole when there are any. */
  lemma StoredTargets(env: Env, d: Data, n: Data)
    requires Normalize(env, d) == Some(n)
    ensures n.urls.Some? && n.urls.value.List? && |n.urls.value.items| == |Items(d.urls)|
    ensures forall i :: 0 <= i < |Items(d.urls)| ==> n.urls.value.items[i] == Str(env.targetUrl(Items(d.urls)[i]))
    ensures n.internalApiEndpoints
         == match d.internalApiEndpoints
            case None => None
            case Some(v) => if v == Null then Some(Null) else Some(List(env.endpoints(v)))
  {
    RestIs(env, d, n);
    TargetsRead(env, d);
  }

  /** An advanced mode stays only under its flag; entries without a view stay as they are. */
  lemma StoredRest(env: Env, d: Data, n: Data)
    requires Normalize(env, d) == Some(n)
    ensures n.advancedMode
         == if d.advancedEnabled.Some? && Truthy(d.advancedEnabled.value)
            then Some(if d.advancedMode.Some? then d.advancedMode.value else Null)
            else if d.advancedMode.Some? then Some(Null)
            else None
    ensures n.advancedEnabled == d.advancedEnabled && n.fetchMode == d.fetchMode && n.rest == d.rest
  {
  }

  /** The rotation of the proxy profile when it is to be inferred: the stored word; without one
      "sticky" exactly when a marker occurs in the user name of some proxy; else none is added. */
  lemma RotationReads(env: Env, d: Data)
    ensures var p := ProxyProfileView(env, d, true);
            var word := Lower(Given(env, Nested(d.proxyProfile, Rotation)));
            Nested(Some(Dict(p)), Rotation)
            == if word != "" then Some(Str(word))
               else if exists i, j :: MarkerInUser(env, ProxyListView(env, d), i, j) then Some(Str("sticky"))
               else Nested(d.proxyProfile, Rotation)
  {
    GetIsNested(d.proxyProfile, Rotation, Null);
    assert StripLower("") == "" == Lower("");
    StickyExactly(env, ProxyListView(env, d));
  }

  predicate Occurs(part: string, text: string, at: int) {
    0 <= at <= at + |part| <= |text| && text[at..at + |part|] == part
  }

  ghost predicate MarkerInUser(env: Env, proxies: seq<Value>, i: int, j: int) {
    && 0 <= i < |proxies| && 0 <= j < |env.stickyMarkers|
    && var user := Lower(env.proxyUsername(TextOr(env.repr, proxies[i], "")));
       user != "" && exists at :: Occurs(env.stickyMarkers[j], user, at)
  }

  lemma {:induction false} ContainsExactly(s: string, part: string)
    ensures Contains(s, part) <==> exists at :: Occurs(part, s, at)
  {
    if part <= s {
      assert s[0..0 + |part|] == part;
      assert Occurs(part, s, 0);
    } else if s != [] {
      ContainsExactly(s[1..], part);
      if at :| Occurs(part, s[1..], at) {
        OccursLater(part, s, at);
      }
      if at :| Occurs(part, s, at) {
        NotAtStart(part, s, at);
        OccursLater(part, s, at - 1);
      }
    }
  }

  lemma OccursLater(part: string, s: string, at: int)
    requires s != [] && at >= 0
    ensures Occurs(part, s[1..], at) <==> Occurs(part, s, at + 1)
  {
    if at + |part| <= |s| - 1 {
      assert s[1..][at..at + |part|] == s[at + 1..at + 1 + |part|];
    }
  }

  lemma NotAtStart(part: string, s: string, at: int)
    requires !(part <= s) && Occurs(part, s, at)
    ensures at > 0
  {
  }

  lemma StickyExactly(env: Env, proxies: seq<Value>)
    ensures IsSticky(env, proxies) <==> exists i, j :: MarkerInUser(env, proxies, i, j)
  {
    forall i, j | 0 <= i < |proxies| && 0 <= j < |env.stickyMarkers|
      ensures var user := Lower(env.proxyUsername(TextOr(env.repr, proxies[i], "")));
              MarkerInUser(env, proxies, i, j) <==> user != "" && Contains(user, env.stickyMarkers[j])
    {
      ContainsExactly(Lower(env.proxyUsername(TextOr(env.repr, proxies[i], ""))), env.stickyMarkers[j]);
    }
    if IsSticky(env, proxies) {
      var i :| 0 <= i < |proxies| && StickyProxy(env, proxies[i]);
      var j :| 0 <= j < |env.stickyMarkers|
               && Contains(Lower(env.proxyUsername(TextOr(env.repr, proxies[i], ""))), env.stickyMarkers[j]);
      assert MarkerInUser(env, proxies, i, j);
    }
    if i, j :| MarkerInUser(env, proxies, i, j) {
      assert HasMarker(env, Lower(env.proxyUsername(TextOr(env.repr, proxies[i], ""))), |env.stickyMarkers|);
      assert StickyProxy(env, proxies[i]);
    }
  }
}
