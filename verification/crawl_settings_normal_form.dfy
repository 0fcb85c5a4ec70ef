/** Storing the normal form changes no view, and storing it again changes nothing. */
module CrawlSettingsNormalForm {
  import opened Text
  import opened PythonValues
  import opened CrawlSettings

  // ---------------------------------------------------------------- each coercion settles

  /** Coercing an already coerced integer changes nothing exactly when the original could be read
      or the default respects its own bounds. */
  lemma CoerceSettles(env: Env, v: Value, default: int, minimum: int, maximum: Option<int>)
    ensures CoerceInt(env, Int(CoerceInt(env, v, default, minimum, maximum)), default, minimum, maximum)
         == CoerceInt(env, v, default, minimum, maximum)
       <==> ReadInt(TextOf(env.repr, v)).Some? || Clamp(default, minimum, maximum) == default
  {
    IntTextReads(env.repr, CoerceInt(env, v, default, minimum, maximum));
  }

  /** The value reads as a positive integer. */
  predicate ReadsPositive(env: Env, v: Value) {
    !v.Null? && var n := ReadInt(Strip(TextOf(env.repr, v)));
                n.Some? && n.value > 0
  }

  /** Coercing an optional integer twice is coercing it once, unless non-positive results are
      rejected and the maximum itself makes a positive value non-positive. */
  lemma OptionalSettles(env: Env, v: Value, minimum: int, maximum: Option<int>, reject: bool)
    ensures var r := CoerceOptionalInt(env, v, minimum, maximum, reject);
            (CoerceOptionalInt(env, r, minimum, maximum, reject) == r
             <==> !(reject && maximum.Some? && maximum.value <= 0 && ReadsPositive(env, v)))
  {
    var r := CoerceOptionalInt(env, v, minimum, maximum, reject);
    if r.Int? {
      ClampedTwice(r.n, minimum, maximum);
      ShownIntReads(env, r.n);
    }
  }

  lemma ClampedTwice(n: int, minimum: int, maximum: Option<int>)
    ensures Clamp(Clamp(n, minimum, maximum), minimum, maximum) == Clamp(n, minimum, maximum)
  {
  }

  lemma ShownIntReads(env: Env, n: int)
    ensures var text := Strip(TextOf(env.repr, Int(n)));
            text != "" && ReadInt(text) == Some(n)
  {
    ReadShownInt(n);
    ShownIntStripped(n);
  }

  lemma ShownIntStripped(n: int)
    ensures ShowInt(n) != "" && Strip(ShowInt(n)) == ShowInt(n)
  {
    assert Stripped(ShowInt(n));
    StripStrips(ShowInt(n));
  }

  lemma CleanOrSettles(env: Env, v: Value, default: string)
    requires default != "" && Stripped(default) && Lower(default) == default
    ensures var t := CleanOr(env, v, default);
            CleanOr(env, Str(t), default) == t
  {
    StripLowerSettles(TextOr(env.repr, v, default));
    StripStrips(default);
  }

  lemma CleanTextSettles(env: Env, v: Value)
    ensures CleanText(env, CleanText(env, v)) == CleanText(env, v)
  {
    StripStrips(TextOr(env.repr, v, ""));
    StripStrips("");
  }

  lemma EngineSettles(env: Env, v: Value)
    ensures BrowserEngineChoice(env, BrowserEngineChoice(env, v)) == BrowserEngineChoice(env, v)
  {
    StripLowerSettles(TextOr(env.repr, v, ""));
    assert StripLower("") == "";
  }

  // ---------------------------------------------------------------- the fetch profile

  /** The three integer views whose default configuration does not bound. */
  predicate PagesSettle(env: Env, d: Data) {
    ReadInt(TextOf(env.repr, RawMaxPages(env, d))).Some?
    || Clamp(env.defaultMaxPages, env.minMaxPages, Some(env.maxMaxPages)) == env.defaultMaxPages
  }

  predicate ScrollsSettle(env: Env, d: Data) {
    ReadInt(TextOf(env.repr, RawMaxScrolls(env, d))).Some? || env.defaultMaxScrolls >= 1
  }

  predicate RecordsSettle(env: Env, d: Data) {
    ReadInt(TextOf(env.repr, RawMaxRecords(env, d))).Some? || env.defaultMaxRecords >= 1
  }

  /** What reading a stored fetch profile finds. */
  lemma FetchDictHolds(p: FetchRecord, default: Value)
    ensures var f := FetchDict(p);
            && Get(f, FetchMode, default) == Str(p.fetchMode)
            && Get(f, ExtractionSource, default) == Str(p.extractionSource)
            && Get(f, JsMode, default) == Str(p.jsMode)
            && Get(f, IncludeIframes, default) == Bool(p.includeIframes)
            && Get(f, TraversalMode, default) == TraversalValue(p.traversal)
            && Get(f, RequestDelayMs, default) == Int(p.requestDelayMs)
            && Get(f, MaxPages, default) == Int(p.maxPages)
            && Get(f, MaxScrolls, default) == Int(p.maxScrolls)
            && Get(f, HostMemoryTtlSeconds, default) == p.ttl
            && f != map[]
  {
    assert FetchMode in FetchDict(p);
  }

  /** Any settings `n` once the fetch profile of `d` is stored in them. */
  function WithFetch(env: Env, d: Data, n: Data): Data {
    n.(fetchProfile := Some(Dict(FetchDict(FetchProfileView(env, d)))))
  }

  lemma IntViewsStable(env: Env, d: Data, n: Data)
    ensures var m := WithFetch(env, d, n);
            && SleepMsView(env, m) == SleepMsView(env, d)
            && (MaxPagesView(env, m) == MaxPagesView(env, d) <==> PagesSettle(env, d))
            && (MaxScrollsView(env, m) == MaxScrollsView(env, d) <==> ScrollsSettle(env, d))
  {
    FetchDictHolds(FetchProfileView(env, d), Slot(n.requestDelayMs, Slot(n.sleepMs, Int(env.minRequestDelayMs))));
    FetchDictHolds(FetchProfileView(env, d), Slot(n.maxPages, Int(env.defaultMaxPages)));
    FetchDictHolds(FetchProfileView(env, d), Slot(n.maxScrolls, Int(env.defaultMaxScrolls)));
    IntTextReads(env.repr, SleepMsView(env, d));
    CoerceSettles(env, RawMaxPages(env, d), env.defaultMaxPages, env.minMaxPages, Some(env.maxMaxPages));
    CoerceSettles(env, RawMaxScrolls(env, d), env.defaultMaxScrolls, 1, None);
  }

  const EMPTY := Data(None, None, None, None, None, None, None, None, None, None, None, None, None, None,
                      None, None, None, None, None, None, map[])

  /** Settings that say nothing but `max_pages`. */
  function OnlyPages(text: string): Data {
    EMPTY.(maxPages := Some(Str(text)))
  }

  lemma OnlyPagesUnset(env: Env, text: string)
    ensures TraversalView(env, OnlyPages(text)).Unset?
  {
    assert StripLower("") == "";
  }

  /** A word of small letters is no number. */
  lemma WordIsNoNumber(text: string)
    requires text != "" && forall i :: 0 <= i < |text| ==> IsLower(text[i])
    ensures ReadInt(text) == None
  {
    StripStrips(text);
  }

  lemma OnlyPagesDefault(env: Env, word: string)
    requires word != "" && forall i :: 0 <= i < |word| ==> IsLower(word[i])
    ensures MaxPagesView(env, OnlyPages(word)) == env.defaultMaxPages
  {
    WordIsNoNumber(word);
  }

  /** What reading the stored normal form finds under `max_pages`. */
  lemma StoredPages(env: Env, d: Data)
    ensures MaxPagesView(env, Overwrite(d, ViewsOf(env, d)))
         == Clamp(MaxPagesView(env, d), env.minMaxPages, Some(env.maxMaxPages))
  {
    NormalFormEntries(env, d);
    StoredPagesRead(env, d, Overwrite(d, ViewsOf(env, d)));
  }

  lemma UnsetNormalizes(env: Env, d: Data)
    requires TraversalView(env, d).Unset?
    ensures Normalize(env, d) == Some(Overwrite(d, ViewsOf(env, d)))
  {
  }

  lemma ClampLow(x: int, minimum: int, maximum: int)
    requires x < minimum <= maximum
    ensures Clamp(x, minimum, Some(maximum)) == minimum
  {
  }

  /** Storing moves a `max_pages` view that lies below the minimum up to it. */
  lemma LowPagesMove(env: Env, d: Data)
    requires TraversalView(env, d).Unset? && MaxPagesView(env, d) < env.minMaxPages <= env.maxMaxPages
    ensures match Normalize(env, d)
            case None => false
            case Some(n) => MaxPagesView(env, n) == env.minMaxPages
  {
    UnsetNormalizes(env, d);
    StoredPages(env, d);
    ClampLow(MaxPagesView(env, d), env.minMaxPages, env.maxMaxPages);
  }

  /** A default below its own bounds: `max_pages` given as a word is the default before storage and
      the minimum after. */
  lemma UnboundedDefaultMoves(env: Env, word: string)
    requires env.defaultMaxPages < env.minMaxPages <= env.maxMaxPages
    requires word != "" && forall i :: 0 <= i < |word| ==> IsLower(word[i])
    ensures match Normalize(env, OnlyPages(word))
            case None => false
            case Some(n) =>
              MaxPagesView(env, OnlyPages(word)) == env.defaultMaxPages && MaxPagesView(env, n) == env.minMaxPages
  {
    OnlyPagesUnset(env, word);
    OnlyPagesDefault(env, word);
    LowPagesMove(env, OnlyPages(word));
  }

  lemma StoredPagesRead(env: Env, d: Data, n: Data)
    ensures MaxPagesView(env, WithFetch(env, d, n))
         == Clamp(MaxPagesView(env, d), env.minMaxPages, Some(env.maxMaxPages))
  {
    FetchDictHolds(FetchProfileView(env, d), Slot(n.maxPages, Int(env.defaultMaxPages)));
    IntTextReads(env.repr, MaxPagesView(env, d));
  }

  lemma ModeReads(env: Env, mode: string)
    requires mode in TRAVERSAL_MODES
    ensures ReadMode(env, Str(mode)) == Mode(mode)
  {
    assert StripLower(mode) == mode by {
      assert Stripped(mode) && Lower(mode) == mode;
      StripStrips(mode);
    }
  }

  lemma TraversalStable(env: Env, d: Data, n: Data)
    ensures !TraversalView(env, d).Unsupported? ==> TraversalView(env, WithFetch(env, d, n)) == TraversalView(env, d)
  {
    var t := TraversalView(env, d);
    FetchDictHolds(FetchProfileView(env, d), Null);
    if t.Mode? {
      ModeReads(env, t.name);
    } else {
      assert StripLower("") == "";
    }
  }

  /** The record read back from a stored profile. */
  lemma FetchRecordReads(env: Env, p: FetchRecord, n: Data)
    requires n.fetchProfile == Some(Dict(FetchDict(p)))
    ensures FetchProfileView(env, n)
         == FetchRecord(CleanOr(env, Str(p.fetchMode), "auto"), CleanOr(env, Str(p.extractionSource), "raw_html"),
                        CleanOr(env, Str(p.jsMode), "auto"), p.includeIframes,
                        TraversalView(env, n), SleepMsView(env, n), MaxPagesView(env, n), MaxScrollsView(env, n),
                        CoerceOptionalInt(env, p.ttl, env.ttlMin, Some(env.ttlMax), false))
  {
    FetchDictHolds(p, Null);
    FetchDictHolds(p, Bool(false));
    FetchDictHolds(p, Slot(n.hostMemoryTtlSeconds, Null));
  }

  lemma FetchTextsSettle(env: Env, d: Data)
    ensures var p := FetchProfileView(env, d);
            && CleanOr(env, Str(p.fetchMode), "auto") == p.fetchMode
            && CleanOr(env, Str(p.extractionSource), "raw_html") == p.extractionSource
            && CleanOr(env, Str(p.jsMode), "auto") == p.jsMode
            && CoerceOptionalInt(env, p.ttl, env.ttlMin, Some(env.ttlMax), false) == p.ttl
  {
    var stored := SlotDict(d.fetchProfile);
    assert Lower("auto") == "auto" && Lower("raw_html") == "raw_html";
    StripStrips("auto");
    StripStrips("raw_html");
    CleanOrSettles(env, Get(stored, FetchMode, Null), "auto");
    CleanOrSettles(env, Get(stored, ExtractionSource, Null), "raw_html");
    CleanOrSettles(env, Get(stored, JsMode, Null), "auto");
    OptionalSettles(env, Get(stored, HostMemoryTtlSeconds, Slot(d.hostMemoryTtlSeconds, Null)),
                    env.ttlMin, Some(env.ttlMax), false);
  }

  /** The fetch profile survives storage exactly when its two unbounded defaults do. */
  lemma FetchProfileStable(env: Env, d: Data, n: Data)
    ensures !TraversalView(env, d).Unsupported? ==>
              (FetchProfileView(env, WithFetch(env, d, n)) == FetchProfileView(env, d)
               <==> PagesSettle(env, d) && ScrollsSettle(env, d))
  {
    FetchRecordReads(env, FetchProfileView(env, d), WithFetch(env, d, n));
    FetchTextsSettle(env, d);
    TraversalStable(env, d, n);
    IntViewsStable(env, d, n);
  }

  // ---------------------------------------------------------------- locality and diagnostics

  lemma LocalityStable(env: Env, d: Data, n: Data)
    requires n.localityProfile == Some(Dict(LocalityDict(LocalityView(env, d))))
    ensures LocalityView(env, n) == LocalityView(env, d)
  {
    var stored, p := SlotDict(d.localityProfile), LocalityView(env, d);
    StripStrips(TextOr(env.repr, Get(stored, GeoCountry, Null), "auto"));
    StripStrips("auto");
    CleanTextSettles(env, Get(stored, LanguageHint, Null));
    CleanTextSettles(env, Get(stored, CurrencyHint, Null));
  }

  lemma DiagnosticsStable(env: Env, d: Data, n: Data)
    requires n.diagnosticsProfile == Some(Dict(DiagnosticsDict(DiagnosticsView(env, d))))
    ensures DiagnosticsView(env, n) == DiagnosticsView(env, d)
  {
    var p := DiagnosticsView(env, d);
    assert Lower("off") == "off";
    CleanOrSettles(env, Get(SlotDict(d.diagnosticsProfile), CaptureNetwork, Null), "off");
    DiagnosticsDictHolds(p, Null);
    DiagnosticsDictHolds(p, Bool(true));
    DiagnosticsDictHolds(p, Bool(false));
  }

  lemma DiagnosticsDictHolds(p: DiagnosticsRecord, default: Value)
    ensures var f := DiagnosticsDict(p);
            && Get(f, CaptureHtml, default) == Bool(p.html)
            && Get(f, CaptureScreenshot, default) == Bool(p.screenshot)
            && Get(f, CaptureNetwork, default) == Str(p.network)
            && Get(f, CaptureResponseHeaders, default) == Bool(p.responseHeaders)
            && Get(f, CaptureBrowserDiagnostics, default) == Bool(p.browserDiagnostics)
  {
  }

  // ---------------------------------------------------------------- the acquisition contract

  lemma ContractDictHolds(p: ContractRecord, default: Value)
    ensures var f := ContractDict(p);
            && Get(f, PreferredBrowserEngine, default) == Str(p.preferredBrowserEngine)
            && Get(f, PreferBrowser, default) == Bool(p.preferBrowser)
            && Get(f, HandoffEligible, default) == Bool(p.handoffEligible)
            && Get(f, HandoffCookieEngine, default) == Str(p.handoffCookieEngine)
            && Get(f, RequiredRendering, default) == Bool(p.requiredRendering)
            && Get(f, RequiredTraversal, default) == Bool(p.requiredTraversal)
            && Get(f, RequiredNetworkPayloads, default) == Bool(p.requiredNetworkPayloads)
            && Get(f, LastQualitySuccess, default) == p.lastQualitySuccess
            && Get(f, StaleAfterFailures, default) == Dict(StaleDict(p))
  {
  }

  lemma StaleDictHolds(p: ContractRecord, default: Value)
    ensures Get(StaleDict(p), FailureCount, default) == Int(p.failureCount)
    ensures Get(StaleDict(p), Stale, default) == Bool(p.stale)
  {
  }

  lemma QualityFieldsHold(env: Env, last: Fields)
    ensures var q := QualityFields(env, last);
            && q != map[]
            && Get(q, Method, Null) == CleanText(env, Get(last, Method, Null))
            && Get(q, BrowserEngine, Null) == BrowserEngineChoice(env, Get(last, BrowserEngine, Null))
            && Get(q, RecordCount, Null) == Int(CoerceInt(env, Get(last, RecordCount, Null), 0, 0, None))
            && Get(q, FieldCoverage, Null) == Dict(AsDict(Get(last, FieldCoverage, Null)))
            && Get(q, SourceRunId, Null) == CoerceOptionalInt(env, Get(last, SourceRunId, Null), 1, None, true)
            && Get(q, Timestamp, Null) == CleanText(env, Get(last, Timestamp, Null))
  {
    QualityFieldsOf(last, CleanText(env, Get(last, Method, Null)),
                    BrowserEngineChoice(env, Get(last, BrowserEngine, Null)),
                    Int(CoerceInt(env, Get(last, RecordCount, Null), 0, 0, None)),
                    Dict(AsDict(Get(last, FieldCoverage, Null))),
                    CoerceOptionalInt(env, Get(last, SourceRunId, Null), 1, None, true),
                    CleanText(env, Get(last, Timestamp, Null)));
  }

  lemma QualityFieldsOf(last: Fields, how: Value, engine: Value, count: Value, coverage: Value, runId: Value,
                        timestamp: Value)
    ensures var over := map[Method := how, BrowserEngine := engine, RecordCount := count,
                            FieldCoverage := coverage, SourceRunId := runId, Timestamp := timestamp];
            var q := last + over;
            && q != map[]
            && Get(q, Method, Null) == how && Get(q, BrowserEngine, Null) == engine
            && Get(q, RecordCount, Null) == count && Get(q, FieldCoverage, Null) == coverage
            && Get(q, SourceRunId, Null) == runId && Get(q, Timestamp, Null) == timestamp
  {
    var over := map[Method := how, BrowserEngine := engine, RecordCount := count,
                    FieldCoverage := coverage, SourceRunId := runId, Timestamp := timestamp];
    assert Method in last + over;
  }

  /** The last quality success, extra keys included, settles after one normalisation. */
  lemma QualitySettles(env: Env, last: Fields)
    ensures QualitySuccess(env, AsDict(QualitySuccess(env, last))) == QualitySuccess(env, last)
  {
    if last != map[] {
      var q := QualityFields(env, last);
      QualityFieldsHold(env, last);
      QualityFieldsHold(env, q);
      CleanTextSettles(env, Get(last, Method, Null));
      EngineSettles(env, Get(last, BrowserEngine, Null));
      CoerceSettles(env, Get(last, RecordCount, Null), 0, 0, None);
      OptionalSettles(env, Get(last, SourceRunId, Null), 1, None, true);
      CleanTextSettles(env, Get(last, Timestamp, Null));
      assert QualityFields(env, q) == q;
    }
  }

  /** The record read back from a stored contract. */
  lemma ContractReads(env: Env, p: ContractRecord, browserOnly: bool)
    ensures ContractOf(env, ContractDict(p), browserOnly)
         == ContractRecord(CleanOr(env, Str(p.preferredBrowserEngine), "auto"), p.preferBrowser || browserOnly,
                           !browserOnly && p.handoffEligible,
                           if browserOnly then "auto" else CleanOr(env, Str(p.handoffCookieEngine), "auto"),
                           p.requiredRendering, p.requiredTraversal, p.requiredNetworkPayloads,
                           QualitySuccess(env, AsDict(p.lastQualitySuccess)),
                           CoerceInt(env, Int(p.failureCount), 0, 0, None), p.stale)
  {
    ContractDictHolds(p, Null);
    ContractDictHolds(p, Bool(false));
    ContractDictHolds(p, Get(ContractDict(p), PreferCurlHandoff, Bool(false)));
    StaleDictHolds(p, Null);
    StaleDictHolds(p, Bool(false));
  }

  /** A contract read back from its dictionary is unchanged, provided it already honours the
      browser-only flag it is read with. */
  lemma ContractSettles(env: Env, stored: Fields, before: bool, after: bool)
    requires after ==> before
    ensures var p := ContractOf(env, stored, before);
            ContractOf(env, ContractDict(p), after) == p
  {
    var p := ContractOf(env, stored, before);
    ContractReads(env, p, after);
    AutoSettles(env, Get(stored, PreferredBrowserEngine, Null));
    AutoSettles(env, Get(stored, HandoffCookieEngine, Null));
    AutoSettles(env, Null);
    QualitySettles(env, AsDict(Get(stored, LastQualitySuccess, Null)));
    CoerceSettles(env, Get(AsDict(Get(stored, StaleAfterFailures, Null)), FailureCount, Null), 0, 0, None);
  }

  lemma AutoSettles(env: Env, v: Value)
    ensures CleanOr(env, Str(CleanOr(env, v, "auto")), "auto") == CleanOr(env, v, "auto")
    ensures CleanOr(env, Null, "auto") == "auto" == StripLower("auto")
  {
    assert Lower("auto") == "auto";
    StripStrips("auto");
    CleanOrSettles(env, v, "auto");
  }

  /** The contract survives even when the fetch profile drops a flat "browser_only": by then the
      stored contract has absorbed it. Normalisation never makes settings browser-only. */
  lemma ContractStable(env: Env, d: Data, n: Data)
    ensures var m := WithFetch(env, d, n).(acquisitionContract := Some(Dict(ContractDict(ContractView(env, d)))));
            (BrowserOnly(env, m) ==> BrowserOnly(env, d)) && ContractView(env, m) == ContractView(env, d)
  {
    var m := n.(acquisitionContract := Some(Dict(ContractDict(ContractView(env, d)))));
    BrowserOnlyFades(env, d, m);
    ContractSettles(env, SlotDict(d.acquisitionContract), BrowserOnly(env, d), BrowserOnly(env, WithFetch(env, d, m)));
  }

  lemma BrowserOnlyReads(env: Env, p: FetchRecord, n: Data)
    requires n.fetchProfile == Some(Dict(FetchDict(p)))
    ensures BrowserOnly(env, n) <==> StripLower(p.fetchMode) == "browser_only"
  {
    var flat := Slot(n.fetchMode, Null);
    FetchDictHolds(p, if Truthy(flat) then flat else Str(""));
  }

  /** Settings stay browser-only through storage exactly when the stored fetch profile has a fetch
      mode of its own; a flat mode that stood in for it is lost. */
  lemma BrowserOnlyFades(env: Env, d: Data, n: Data)
    ensures BrowserOnly(env, WithFetch(env, d, n)) <==> BrowserOnly(env, d) && FetchMode in SlotDict(d.fetchProfile)
  {
    var stored := SlotDict(d.fetchProfile);
    BrowserOnlyReads(env, FetchProfileView(env, d), WithFetch(env, d, n));
    BrowserOnlyText();
    AutoIsNotBrowserOnly(env);
    if stored != map[] {
      var mode := Get(stored, FetchMode, Null);
      assert FetchProfileView(env, d).fetchMode == CleanOr(env, mode, "auto");
      CleanModeReads(env, mode);
    }
  }

  lemma AutoIsNotBrowserOnly(env: Env)
    ensures StripLower("auto") == "auto" == CleanOr(env, Null, "auto") && "auto" != "browser_only"
  {
    AutoSettles(env, Null);
    assert |"auto"| != |"browser_only"|;
  }

  /** A fetch mode, present or not, is cleaned to "browser_only" exactly when its own text is that. */
  lemma CleanModeReads(env: Env, mode: Value)
    ensures StripLower(CleanOr(env, mode, "auto")) == "browser_only"
       <==> StripLower(TextOf(env.repr, mode)) == "browser_only"
  {
    AutoIsNotBrowserOnly(env);
    BrowserOnlyText();
    if Truthy(mode) {
      StripLowerSettles(TextOf(env.repr, mode));
    } else {
      FalsyIsNotBrowserOnly(env, mode);
    }
  }

  /** The text of a falsy value is too short. */
  lemma FalsyIsNotBrowserOnly(env: Env, v: Value)
    requires !Truthy(v)
    ensures StripLower(TextOf(env.repr, v)) != "browser_only"
  {
    StripShortens(TextOf(env.repr, v));
    if v.Int? {
      assert ShowInt(0) == "0";
    }
  }

  lemma StripShortens(s: string)
    ensures |StripLower(s)| <= |s|
  {
    StripLeftShortens(s);
    StripRightShortens(StripLeft(s));
  }

  lemma {:induction false} StripLeftShortens(s: string)
    ensures |StripLeft(s)| <= |s|
  {
    if s != [] && IsSpace(s[0]) {
      StripLeftShortens(s[1..]);
    }
  }

  lemma {:induction false} StripRightShortens(s: string)
    ensures |StripRight(s)| <= |s|
  {
    if s != [] && IsSpace(s[|s| - 1]) {
      StripRightShortens(s[..|s| - 1]);
    }
  }

  lemma BrowserOnlyText()
    ensures StripLower("browser_only") == "browser_only"
  {
    StripStrips("browser_only");
    assert Lower("browser_only") == "browser_only";
  }

  lemma FlatModeIsRead(env: Env, d: Data, mode: string)
    requires SlotDict(d.fetchProfile) == map[] && d.fetchMode == Some(Str(mode)) && mode != ""
    ensures BrowserOnly(env, d) <==> StripLower(mode) == "browser_only"
  {
  }

  /** The dropped flat mode, concretely: browser-only before storage, not after. */
  lemma FlatBrowserOnlyIsDropped(env: Env, d: Data, n: Data)
    requires SlotDict(d.fetchProfile) == map[] && d.fetchMode == Some(Str("browser_only"))
    ensures BrowserOnly(env, d) && !BrowserOnly(env, WithFetch(env, d, n))
  {
    BrowserOnlyText();
    FlatModeIsRead(env, d, "browser_only");
    BrowserOnlyFades(env, d, n);
  }

  // ---------------------------------------------------------------- proxies

  lemma {:induction false} CleanTextsSettle(env: Env, items: seq<Value>)
    ensures CleanTexts(env, CleanTexts(env, items)) == CleanTexts(env, items)
  {
    if items != [] {
      CleanTextsSettle(env, items[1..]);
      StripStrips(TextOr(env.repr, items[0], ""));
      var rest := CleanTexts(env, items[1..]);
      var text := Strip(TextOr(env.repr, items[0], ""));
      if text != "" {
        assert ([Str(text)] + rest)[1..] == rest;
      } else {
        assert [] + rest == rest;
      }
    }
  }

  lemma ProxiesStable(env: Env, d: Data, n: Data, inferRotation: bool)
    requires n.proxyProfile == Some(Dict(ProxyProfileView(env, d, false)))
    ensures ProxyListView(env, n) == ProxyListView(env, d)
    ensures ProxyEnabledView(n) == ProxyEnabledView(d)
    ensures ProxyProfileView(env, n, inferRotation) == ProxyProfileView(env, d, inferRotation)
  {
    var stored, enabled, proxies := SlotDict(d.proxyProfile), ProxyEnabledView(d), ProxyListView(env, d);
    CleanTextsSettle(env, CoerceSequence(RawProxyList(d)));
    assert SlotDict(n.proxyProfile) == stored[Enabled := Bool(enabled)][ProxyList := List(proxies)];
    ProxyProfileSettles(env, stored, enabled, proxies, inferRotation);
  }

  lemma ProxyProfileSettles(env: Env, stored: Fields, enabled: bool, proxies: seq<Value>, inferRotation: bool)
    ensures ProxyProfileOf(env, ProxyProfileOf(env, stored, enabled, proxies, false), enabled, proxies, inferRotation)
         == ProxyProfileOf(env, stored, enabled, proxies, inferRotation)
  {
    var once := stored[Enabled := Bool(enabled)][ProxyList := List(proxies)];
    assert once[Enabled := Bool(enabled)][ProxyList := List(proxies)] == once;
    assert Get(once, Rotation, Null) == Get(stored, Rotation, Null);
  }

  // ---------------------------------------------------------------- the whole normal form

  /** What storing `n` in place of `d` keeps: the views without an open default always, the three
      with one exactly when the stored value can be read or the default respects its bounds. */
  ghost predicate KeepsViews(env: Env, d: Data, n: Data, inferRotation: bool) {
    && TraversalView(env, n) == TraversalView(env, d)
    && SleepMsView(env, n) == SleepMsView(env, d)
    && LocalityView(env, n) == LocalityView(env, d)
    && DiagnosticsView(env, n) == DiagnosticsView(env, d)
    && ContractView(env, n) == ContractView(env, d)
    && ProxyListView(env, n) == ProxyListView(env, d)
    && ProxyProfileView(env, n, inferRotation) == ProxyProfileView(env, d, inferRotation)
    && (MaxRecordsView(env, n) == MaxRecordsView(env, d) <==> RecordsSettle(env, d))
    && (MaxPagesView(env, n) == MaxPagesView(env, d) <==> PagesSettle(env, d))
    && (MaxScrollsView(env, n) == MaxScrollsView(env, d) <==> ScrollsSettle(env, d))
    && (FetchProfileView(env, n) == FetchProfileView(env, d) <==> PagesSettle(env, d) && ScrollsSettle(env, d))
  }

  /** Normalisation fails on an unsupported traversal mode only; otherwise it keeps every view. */
  lemma NormalFormKeepsViews(env: Env, d: Data, inferRotation: bool)
    ensures match Normalize(env, d)
            case None => TraversalView(env, d).Unsupported?
            case Some(n) => KeepsViews(env, d, n, inferRotation)
  {
    if Normalize(env, d).Some? {
      var n := Overwrite(d, ViewsOf(env, d));
      NormalFormEntries(env, d);
      TraversalStable(env, d, n);
      IntViewsStable(env, d, n);
      FetchProfileStable(env, d, n);
      LocalityStable(env, d, n);
      DiagnosticsStable(env, d, n);
      ContractStable(env, d, n);
      ProxiesStable(env, d, n, inferRotation);
      RecordsStable(env, d, n);
    }
  }

  lemma NormalFormEntries(env: Env, d: Data)
    ensures var n := Overwrite(d, ViewsOf(env, d));
            && n.localityProfile == Some(Dict(LocalityDict(LocalityView(env, d))))
            && n.diagnosticsProfile == Some(Dict(DiagnosticsDict(DiagnosticsView(env, d))))
            && n.proxyProfile == Some(Dict(ProxyProfileView(env, d, false)))
            && n.maxRecords == Some(Int(MaxRecordsView(env, d)))
            && n.urls == Some(List(UrlsView(env, d)))
            && n.(acquisitionContract := Some(Dict(ContractDict(ContractView(env, d))))) == n
            && n.fetchProfile == Some(Dict(FetchDict(FetchProfileView(env, d)))) && WithFetch(env, d, n) == n
  {
  }

  lemma RecordsStable(env: Env, d: Data, n: Data)
    requires n.maxRecords == Some(Int(MaxRecordsView(env, d)))
    ensures MaxRecordsView(env, n) == MaxRecordsView(env, d) <==> RecordsSettle(env, d)
  {
    CoerceSettles(env, RawMaxRecords(env, d), env.defaultMaxRecords, 1, None);
  }

  predicate UrlsSettle(env: Env, d: Data) {
    forall i :: 0 <= i < |UrlsView(env, d)| ==> env.targetUrl(UrlsView(env, d)[i]) == UrlsView(env, d)[i].text
  }

  lemma UrlsStable(env: Env, d: Data, n: Data)
    requires n.urls == Some(List(UrlsView(env, d)))
    ensures UrlsView(env, n) == UrlsView(env, d) <==> UrlsSettle(env, d)
  {
  }

  predicate EndpointsSettle(env: Env, d: Data) {
    var e := EndpointsView(env, d);
    e.Some? ==> env.endpoints(List(e.value)) == e.value
  }

  ghost predicate AllSettle(env: Env, d: Data) {
    PagesSettle(env, d) && ScrollsSettle(env, d) && RecordsSettle(env, d)
    && UrlsSettle(env, d) && EndpointsSettle(env, d)
  }

  /** Normalising twice is normalising once, exactly when the three open defaults, the target-url
      cleaner and the endpoint cleaner settle on these settings. */
  lemma NormalFormIsFixed(env: Env, d: Data)
    ensures match Normalize(env, d)
            case None => TraversalView(env, d).Unsupported?
            case Some(n) => Normalize(env, n) == Some(n) <==> AllSettle(env, d)
  {
    if Normalize(env, d).Some? {
      var v := ViewsOf(env, d);
      var w := ViewsOf(env, Overwrite(d, v));
      ViewsAgain(env, d);
      FetchDictInjective(v.fetch, w.fetch);
      OverwriteTwice(d, v, w);
    }
  }

  /** The views of the normal form against those of the settings it came from. */
  lemma ViewsAgain(env: Env, d: Data)
    ensures var v := ViewsOf(env, d);
            var w := ViewsOf(env, Overwrite(d, v));
            !v.traversal.Unsupported? ==>
              && w.locality == v.locality && w.diagnostics == v.diagnostics && w.contract == v.contract
              && w.traversal == v.traversal == w.fetch.traversal == v.fetch.traversal
              && w.fetch.ttl == v.fetch.ttl && w.endpoints.Some? == v.endpoints.Some?
              && (w == v <==> AllSettle(env, d))
  {
    var v := ViewsOf(env, d);
    var n := Overwrite(d, v);
    NormalFormKeepsViews(env, d, false);
    NormalFormEntries(env, d);
    ProxiesStable(env, d, n, false);
    UrlsStable(env, d, n);
    SameViews(env, d);
    FetchRecordReads(env, v.fetch, n);
    FetchTextsSettle(env, d);
  }

  lemma FetchDictInjective(p: FetchRecord, q: FetchRecord)
    requires p.traversal == q.traversal
    ensures FetchDict(p) == FetchDict(q) ==> p == q
  {
    FetchDictHolds(p, Null);
    FetchDictHolds(q, Null);
  }

  /** Overwriting twice agrees with overwriting once exactly when the second views agree. */
  lemma OverwriteTwice(d: Data, v: Views, w: Views)
    requires w.fetch.ttl == v.fetch.ttl && w.endpoints.Some? == v.endpoints.Some?
    requires FetchDict(w.fetch) == FetchDict(v.fetch) ==> w.fetch == v.fetch
    requires w.locality == v.locality && w.diagnostics == v.diagnostics && w.contract == v.contract
    requires w.traversal == v.traversal
    ensures Overwrite(Overwrite(d, v), w) == Overwrite(d, v) <==> w == v
  {
  }

  lemma SameViews(env: Env, d: Data)
    ensures var v := ViewsOf(env, d);
            var w := ViewsOf(env, Overwrite(d, v));
            && w.respectRobots == v.respectRobots && w.endpoints.Some? == v.endpoints.Some?
            && (w.endpoints == v.endpoints <==> EndpointsSettle(env, d))
  {
  }
}
