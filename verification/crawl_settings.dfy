/** The views of a run's settings and the normal form they are stored in. */
module CrawlSettings {
  import opened Text
  import opened PythonValues

  type Fields = map<Key, Value>

  /** The settings dictionary: one slot for each key the code knows, and every other entry. */
  datatype Data = Data(
    urls: Option<Value>,
    maxRecords: Option<Value>,
    respectRobotsTxt: Option<Value>,
    fetchProfile: Option<Value>,
    hostMemoryTtlSeconds: Option<Value>,
    localityProfile: Option<Value>,
    diagnosticsProfile: Option<Value>,
    acquisitionContract: Option<Value>,
    internalApiEndpoints: Option<Value>,
    maxPages: Option<Value>,
    maxScrolls: Option<Value>,
    sleepMs: Option<Value>,
    requestDelayMs: Option<Value>,
    traversalMode: Option<Value>,
    proxyEnabled: Option<Value>,
    proxyList: Option<Value>,
    proxyProfile: Option<Value>,
    advancedEnabled: Option<Value>,
    advancedMode: Option<Value>,
    fetchMode: Option<Value>,
    rest: map<string, Value>)

  /** `data.get(key, default)` */
  function Slot(entry: Option<Value>, default: Value): Value {
    if entry.Some? then entry.value else default
  }

  function SlotDict(entry: Option<Value>): Fields {
    AsDict(Slot(entry, Null))
  }

  /** Runtime configuration and the functions of other modules the settings lean on. */
  datatype Env = Env(
    ttlMin: int,
    ttlMax: int,
    defaultMaxPages: int,
    minMaxPages: int,
    maxMaxPages: int,
    defaultMaxRecords: int,
    defaultMaxScrolls: int,
    minRequestDelayMs: int,
    stickyMarkers: seq<string>,
    repr: Value -> string,
    targetUrl: Value -> string,
    proxyUsername: string -> string,
    endpoints: Value -> seq<Value>)

  // ---------------------------------------------------------------- coercions

  function Clamp(n: int, minimum: int, maximum: Option<int>): int {
    var r := if n > minimum then n else minimum;
    if maximum.Some? && r > maximum.value then maximum.value else r
  }

  function CoerceInt(env: Env, v: Value, default: int, minimum: int, maximum: Option<int>): int {
    match ReadInt(TextOf(env.repr, v))
    case None => default
    case Some(n) => Clamp(n, minimum, maximum)
  }

  function CoerceOptionalInt(env: Env, v: Value, minimum: int, maximum: Option<int>, rejectNonPositive: bool): Value {
    if v.Null? then Null
    else
      var text := Strip(TextOf(env.repr, v));
      if text == "" then Null
      else
        match ReadInt(text)
        case None => Null
        case Some(n) => if rejectNonPositive && n <= 0 then Null else Int(Clamp(n, minimum, maximum))
  }

  function CoerceSequence(v: Value): seq<Value> {
    match v
    case Null => []
    case List(items) => items
    case _ => [v]
  }

  /** `str(v or default).strip().lower() or default` */
  function CleanOr(env: Env, v: Value, default: string): string {
    var t := StripLower(TextOr(env.repr, v, default));
    if t == "" then default else t
  }

  function CleanText(env: Env, v: Value): Value {
    OrNull(Strip(TextOr(env.repr, v, "")))
  }

  predicate Flag(m: Fields, k: Key, default: bool) {
    Truthy(Get(m, k, Bool(default)))
  }

  // ---------------------------------------------------------------- integer views

  function RawMaxPages(env: Env, d: Data): Value {
    Get(SlotDict(d.fetchProfile), MaxPages, Slot(d.maxPages, Int(env.defaultMaxPages)))
  }

  function MaxPagesView(env: Env, d: Data): int {
    CoerceInt(env, RawMaxPages(env, d), env.defaultMaxPages, env.minMaxPages, Some(env.maxMaxPages))
  }

  function RawMaxRecords(env: Env, d: Data): Value {
    Slot(d.maxRecords, Int(env.defaultMaxRecords))
  }

  function MaxRecordsView(env: Env, d: Data): int {
    CoerceInt(env, RawMaxRecords(env, d), env.defaultMaxRecords, 1, None)
  }

  function RawMaxScrolls(env: Env, d: Data): Value {
    Get(SlotDict(d.fetchProfile), MaxScrolls, Slot(d.maxScrolls, Int(env.defaultMaxScrolls)))
  }

  function MaxScrollsView(env: Env, d: Data): int {
    CoerceInt(env, RawMaxScrolls(env, d), env.defaultMaxScrolls, 1, None)
  }

  function SleepMsView(env: Env, d: Data): int {
    CoerceInt(env,
              Get(SlotDict(d.fetchProfile), RequestDelayMs,
                  Slot(d.requestDelayMs, Slot(d.sleepMs, Int(env.minRequestDelayMs)))),
              env.minRequestDelayMs, env.minRequestDelayMs, None)
  }

  // ---------------------------------------------------------------- traversal mode

  datatype Traversal = Unset | Mode(name: string) | Unsupported

  const TRAVERSAL_MODES := {"paginate", "scroll", "load_more", "single", "sitemap", "crawl"}

  function ReadMode(env: Env, v: Value): Traversal {
    var t := StripLower(TextOr(env.repr, v, ""));
    if t == "" || t == "none" then Unset
    else
      var mode := if t == "pagination" then "paginate"
                  else if t == "infinite_scroll" then "scroll"
                  else if t == "view_all" then "load_more"
                  else t;
      if mode in TRAVERSAL_MODES then Mode(mode) else Unsupported
  }

  /** `Unsupported` is the `CrawlerConfigurationError`. */
  function TraversalView(env: Env, d: Data): Traversal {
    var profile := SlotDict(d.fetchProfile);
    if profile != map[] then ReadMode(env, Get(profile, TraversalMode, Null))
    else if Slot(d.advancedEnabled, Null) != Null && !Truthy(d.advancedEnabled.value) then Unset
    else
      var flat := Slot(d.traversalMode, Null);
      ReadMode(env, if Truthy(flat) then flat else Slot(d.advancedMode, Null))
  }

  function TraversalValue(t: Traversal): Value {
    if t.Mode? then Str(t.name) else Null
  }

  // ---------------------------------------------------------------- dictionary views

  /** The dictionary views as records; each has the dictionary it is stored as. */
  datatype FetchRecord = FetchRecord(
    fetchMode: string,
    extractionSource: string,
    jsMode: string,
    includeIframes: bool,
    traversal: Traversal,
    requestDelayMs: int,
    maxPages: int,
    maxScrolls: int,
    ttl: Value)

  function FetchDict(p: FetchRecord): Fields {
    map[FetchMode := Str(p.fetchMode),
        ExtractionSource := Str(p.extractionSource),
        JsMode := Str(p.jsMode),
        IncludeIframes := Bool(p.includeIframes),
        TraversalMode := TraversalValue(p.traversal),
        RequestDelayMs := Int(p.requestDelayMs),
        MaxPages := Int(p.maxPages),
        MaxScrolls := Int(p.maxScrolls),
        HostMemoryTtlSeconds := p.ttl]
  }

  function FetchProfileView(env: Env, d: Data): FetchRecord {
    var stored := SlotDict(d.fetchProfile);
    var traversal := TraversalView(env, d);
    var ttl := CoerceOptionalInt(env, Get(stored, HostMemoryTtlSeconds, Slot(d.hostMemoryTtlSeconds, Null)),
                                 env.ttlMin, Some(env.ttlMax), false);
    if stored != map[] then
      FetchRecord(CleanOr(env, Get(stored, FetchMode, Null), "auto"),
                  CleanOr(env, Get(stored, ExtractionSource, Null), "raw_html"),
                  CleanOr(env, Get(stored, JsMode, Null), "auto"),
                  Flag(stored, IncludeIframes, false),
                  traversal, SleepMsView(env, d), MaxPagesView(env, d), MaxScrollsView(env, d), ttl)
    else
      FetchRecord("auto", "raw_html", "auto", false,
                  traversal, SleepMsView(env, d), MaxPagesView(env, d), MaxScrollsView(env, d), ttl)
  }

  datatype LocalityRecord = LocalityRecord(geoCountry: string, languageHint: Value, currencyHint: Value)

  function LocalityDict(p: LocalityRecord): Fields {
    map[GeoCountry := Str(p.geoCountry), LanguageHint := p.languageHint, CurrencyHint := p.currencyHint]
  }

  function LocalityView(env: Env, d: Data): LocalityRecord {
    var stored := SlotDict(d.localityProfile);
    var country := Strip(TextOr(env.repr, Get(stored, GeoCountry, Null), "auto"));
    LocalityRecord(if country == "" then "auto" else country,
                   CleanText(env, Get(stored, LanguageHint, Null)),
                   CleanText(env, Get(stored, CurrencyHint, Null)))
  }

  datatype DiagnosticsRecord = DiagnosticsRecord(
    html: bool, screenshot: bool, network: string, responseHeaders: bool, browserDiagnostics: bool)

  function DiagnosticsDict(p: DiagnosticsRecord): Fields {
    map[CaptureHtml := Bool(p.html),
        CaptureScreenshot := Bool(p.screenshot),
        CaptureNetwork := Str(p.network),
        CaptureResponseHeaders := Bool(p.responseHeaders),
        CaptureBrowserDiagnostics := Bool(p.browserDiagnostics)]
  }

  function DiagnosticsView(env: Env, d: Data): DiagnosticsRecord {
    var stored := SlotDict(d.diagnosticsProfile);
    DiagnosticsRecord(Flag(stored, CaptureHtml, true),
                      Flag(stored, CaptureScreenshot, false),
                      CleanOr(env, Get(stored, CaptureNetwork, Null), "off"),
                      Flag(stored, CaptureResponseHeaders, true),
                      Flag(stored, CaptureBrowserDiagnostics, true))
  }

  /** The contract's own reading of the fetch mode: the nested key if present, else the flat one. */
  predicate BrowserOnly(env: Env, d: Data) {
    var flat := Slot(d.fetchMode, Null);
    var raw := Get(SlotDict(d.fetchProfile), FetchMode, if Truthy(flat) then flat else Str(""));
    StripLower(TextOf(env.repr, raw)) == "browser_only"
  }

  function BrowserEngineChoice(env: Env, v: Value): Value {
    var t := StripLower(TextOr(env.repr, v, ""));
    if t in {"auto", "patchright", "real_chrome"} then Str(t) else Null
  }

  function QualityFields(env: Env, last: Fields): Fields {
    last + map[Method := CleanText(env, Get(last, Method, Null)),
               BrowserEngine := BrowserEngineChoice(env, Get(last, BrowserEngine, Null)),
               RecordCount := Int(CoerceInt(env, Get(last, RecordCount, Null), 0, 0, None)),
               FieldCoverage := Dict(AsDict(Get(last, FieldCoverage, Null))),
               SourceRunId := CoerceOptionalInt(env, Get(last, SourceRunId, Null), 1, None, true),
               Timestamp := CleanText(env, Get(last, Timestamp, Null))]
  }

  function QualitySuccess(env: Env, last: Fields): Value {
    if last == map[] then Null else Dict(QualityFields(env, last))
  }

  datatype ContractRecord = ContractRecord(
    preferredBrowserEngine: string,
    preferBrowser: bool,
    handoffEligible: bool,
    handoffCookieEngine: string,
    requiredRendering: bool,
    requiredTraversal: bool,
    requiredNetworkPayloads: bool,
    lastQualitySuccess: Value,
    failureCount: int,
    stale: bool)

  function StaleDict(p: ContractRecord): Fields {
    map[FailureCount := Int(p.failureCount), Stale := Bool(p.stale)]
  }

  function ContractDict(p: ContractRecord): Fields {
    map[PreferredBrowserEngine := Str(p.preferredBrowserEngine),
        PreferBrowser := Bool(p.preferBrowser),
        HandoffEligible := Bool(p.handoffEligible),
        HandoffCookieEngine := Str(p.handoffCookieEngine),
        RequiredRendering := Bool(p.requiredRendering),
        RequiredTraversal := Bool(p.requiredTraversal),
        RequiredNetworkPayloads := Bool(p.requiredNetworkPayloads),
        LastQualitySuccess := p.lastQualitySuccess,
        StaleAfterFailures := Dict(StaleDict(p))]
  }

  function ContractOf(env: Env, stored: Fields, browserOnly: bool): ContractRecord {
    var stale := AsDict(Get(stored, StaleAfterFailures, Null));
    ContractRecord(
      CleanOr(env, Get(stored, PreferredBrowserEngine, Null), "auto"),
      Flag(stored, PreferBrowser, false) || browserOnly,
      !browserOnly && Truthy(Get(stored, HandoffEligible, Get(stored, PreferCurlHandoff, Bool(false)))),
      if browserOnly then "auto" else CleanOr(env, Get(stored, HandoffCookieEngine, Null), "auto"),
      Flag(stored, RequiredRendering, false),
      Flag(stored, RequiredTraversal, false),
      Flag(stored, RequiredNetworkPayloads, false),
      QualitySuccess(env, AsDict(Get(stored, LastQualitySuccess, Null))),
      CoerceInt(env, Get(stale, FailureCount, Null), 0, 0, None),
      Flag(stale, Stale, false))
  }

  function ContractView(env: Env, d: Data): ContractRecord {
    ContractOf(env, SlotDict(d.acquisitionContract), BrowserOnly(env, d))
  }

  /** `acquisition_contract` as it runs. Browser-only settings always prefer the browser and never
      hand off, whatever is stored; engine choices are never blank and failures never negative. */
  method AcquisitionContract(env: Env, d: Data) returns (contract: ContractRecord)
    ensures contract == ContractView(env, d)
    ensures BrowserOnly(env, d) ==>
              contract.preferBrowser && !contract.handoffEligible && contract.handoffCookieEngine == "auto"
    ensures !BrowserOnly(env, d) ==>
              (contract.preferBrowser <==> Flag(SlotDict(d.acquisitionContract), PreferBrowser, false))
    ensures contract.failureCount >= 0
    ensures contract.preferredBrowserEngine != "" && contract.handoffCookieEngine != ""
  {
    var stored := SlotDict(d.acquisitionContract);
    var browserOnly := BrowserOnly(env, d);
    var handoffEligible := Truthy(Get(stored, HandoffEligible, Get(stored, PreferCurlHandoff, Bool(false))));
    if browserOnly {
      handoffEligible := false;
    }
    var stale := AsDict(Get(stored, StaleAfterFailures, Null));
    var last := AsDict(Get(stored, LastQualitySuccess, Null));
    var success := Null;
    if last != map[] {
      success := Dict(QualityFields(env, last));
    }
    contract := ContractRecord(
      CleanOr(env, Get(stored, PreferredBrowserEngine, Null), "auto"),
      Flag(stored, PreferBrowser, false) || browserOnly,
      handoffEligible,
      if browserOnly then "auto" else CleanOr(env, Get(stored, HandoffCookieEngine, Null), "auto"),
      Flag(stored, RequiredRendering, false),
      Flag(stored, RequiredTraversal, false),
      Flag(stored, RequiredNetworkPayloads, false),
      success,
      CoerceInt(env, Get(stale, FailureCount, Null), 0, 0, None),
      Flag(stale, Stale, false));
  }

  // ---------------------------------------------------------------- proxies and targets

  function CleanTexts(env: Env, items: seq<Value>): seq<Value> {
    if items == [] then []
    else
      var text := Strip(TextOr(env.repr, items[0], ""));
      (if text == "" then [] else [Str(text)]) + CleanTexts(env, items[1..])
  }

  function RawProxyList(d: Data): Value {
    Get(SlotDict(d.proxyProfile), ProxyList, Slot(d.proxyList, Null))
  }

  function ProxyListView(env: Env, d: Data): seq<Value> {
    CleanTexts(env, CoerceSequence(RawProxyList(d)))
  }

  predicate Contains(s: string, part: string) {
    part <= s || (s != [] && Contains(s[1..], part))
  }

  /** Some proxy's user name contains a sticky marker. */
  predicate IsSticky(env: Env, proxies: seq<Value>) {
    exists i :: 0 <= i < |proxies| && StickyProxy(env, proxies[i])
  }

  function InferRotation(env: Env, proxies: seq<Value>, stored: Value): Option<string> {
    var given := StripLower(TextOr(env.repr, stored, ""));
    if given != "" then Some(given)
    else if IsSticky(env, proxies) then Some("sticky")
    else None
  }

  predicate ProxyEnabledView(d: Data) {
    Truthy(Get(SlotDict(d.proxyProfile), Enabled, Slot(d.proxyEnabled, Bool(false))))
  }

  function ProxyProfileOf(env: Env, stored: Fields, enabled: bool, proxies: seq<Value>, inferRotation: bool): Fields {
    var profile := stored[Enabled := Bool(enabled)][ProxyList := List(proxies)];
    var rotation := InferRotation(env, proxies, Get(stored, Rotation, Null));
    if inferRotation && rotation.Some? then profile[Rotation := Str(rotation.value)] else profile
  }

  function ProxyProfileView(env: Env, d: Data, inferRotation: bool): Fields {
    ProxyProfileOf(env, SlotDict(d.proxyProfile), ProxyEnabledView(d), ProxyListView(env, d), inferRotation)
  }

  function UrlsView(env: Env, d: Data): seq<Value> {
    var items := CoerceSequence(Slot(d.urls, Null));
    seq(|items|, i requires 0 <= i < |items| => Str(env.targetUrl(items[i])))
  }

  lemma {:induction false} CleanTextsAppend(env: Env, items: seq<Value>, last: Value)
    ensures CleanTexts(env, items + [last])
         == CleanTexts(env, items) + var t := Strip(TextOr(env.repr, last, "")); if t == "" then [] else [Str(t)]
  {
    if items == [] {
      assert (items + [last])[1..] == [];
    } else {
      CleanTextsAppend(env, items[1..], last);
      assert (items + [last])[1..] == items[1..] + [last];
      var text, end := Strip(TextOr(env.repr, items[0], "")), Strip(TextOr(env.repr, last, ""));
      var head, tail := if text == "" then [] else [Str(text)], if end == "" then [] else [Str(end)];
      assert head + (CleanTexts(env, items[1..]) + tail) == head + CleanTexts(env, items[1..]) + tail;
    }
  }

  /** `proxy_list` as it runs: a loop appending the non-empty stripped texts. */
  method ProxyListLoop(env: Env, d: Data) returns (values: seq<Value>)
    ensures values == ProxyListView(env, d)
  {
    values := [];
    var items := CoerceSequence(RawProxyList(d));
    for i := 0 to |items|
      invariant values == CleanTexts(env, items[..i])
    {
      var text := Strip(TextOr(env.repr, items[i], ""));
      if text != "" {
        values := values + [Str(text)];
      }
      CleanTextsAppend(env, items[..i], items[i]);
      assert items[..i + 1] == items[..i] + [items[i]];
    }
    assert items[..|items|] == items;
  }

  predicate HasMarker(env: Env, user: string, n: nat)
    requires n <= |env.stickyMarkers|
  {
    exists j :: 0 <= j < n && Contains(user, env.stickyMarkers[j])
  }

  predicate StickyProxy(env: Env, proxy: Value) {
    var user := Lower(env.proxyUsername(TextOr(env.repr, proxy, "")));
    user != "" && HasMarker(env, user, |env.stickyMarkers|)
  }

  method AnyMarkerIn(env: Env, user: string) returns (found: bool)
    ensures found == HasMarker(env, user, |env.stickyMarkers|)
  {
    for j := 0 to |env.stickyMarkers|
      invariant !HasMarker(env, user, j)
    {
      if Contains(user, env.stickyMarkers[j]) {
        return true;
      }
    }
    return false;
  }

  /** `_infer_proxy_rotation` as it runs: the stored word, else the first proxy with a sticky user name. */
  method InferRotationLoop(env: Env, proxies: seq<Value>, stored: Value) returns (rotation: Option<string>)
    ensures rotation == InferRotation(env, proxies, stored)
  {
    var given := StripLower(TextOr(env.repr, stored, ""));
    if given != "" {
      return Some(given);
    }
    if env.stickyMarkers == [] {
      return None;
    }
    for i := 0 to |proxies|
      invariant forall k :: 0 <= k < i ==> !StickyProxy(env, proxies[k])
    {
      var user := Lower(env.proxyUsername(TextOr(env.repr, proxies[i], "")));
      if user != "" {
        var found := AnyMarkerIn(env, user);
        if found {
          return Some("sticky");
        }
      }
    }
    return None;
  }

  /** `proxy_profile` as it runs: a copy of the stored profile, overwritten key by key. */
  method ProxyProfile(env: Env, d: Data, inferRotation: bool) returns (profile: Fields)
    ensures profile == ProxyProfileView(env, d, inferRotation)
  {
    var stored := SlotDict(d.proxyProfile);
    profile := stored;
    var proxies := ProxyListLoop(env, d);
    profile := profile[Enabled := Bool(Truthy(Get(stored, Enabled, Slot(d.proxyEnabled, Bool(false)))))];
    profile := profile[ProxyList := List(proxies)];
    if inferRotation {
      var rotation := InferRotationLoop(env, proxies, Get(stored, Rotation, Null));
      if rotation.Some? {
        profile := profile[Rotation := Str(rotation.value)];
      }
    }
  }

  // ---------------------------------------------------------------- the stored normal form

  /** Everything normalisation reads off the settings before it writes. */
  datatype Views = Views(
    urls: seq<Value>,
    maxRecords: int,
    respectRobots: bool,
    fetch: FetchRecord,
    locality: LocalityRecord,
    diagnostics: DiagnosticsRecord,
    contract: ContractRecord,
    endpoints: Option<seq<Value>>,
    maxPages: int,
    maxScrolls: int,
    sleepMs: int,
    traversal: Traversal,
    proxyEnabled: bool,
    proxies: seq<Value>,
    proxyProfile: Fields)

  function ViewsOf(env: Env, d: Data): Views {
    Views(UrlsView(env, d), MaxRecordsView(env, d), Truthy(Slot(d.respectRobotsTxt, Bool(false))),
          FetchProfileView(env, d), LocalityView(env, d), DiagnosticsView(env, d), ContractView(env, d),
          EndpointsView(env, d), MaxPagesView(env, d), MaxScrollsView(env, d), SleepMsView(env, d),
          TraversalView(env, d), ProxyEnabledView(d), ProxyListView(env, d), ProxyProfileView(env, d, false))
  }

  function EndpointsView(env: Env, d: Data): Option<seq<Value>> {
    var raw := Slot(d.internalApiEndpoints, Null);
    if raw == Null then None else Some(env.endpoints(raw))
  }

  /** The settings with every view written over its key. The flat time-to-live survives only as
      the value of the fetch profile, and an advanced mode only while the advanced flag is set. */
  function Overwrite(d: Data, v: Views): Data {
    d.(urls := Some(List(v.urls)),
       maxRecords := Some(Int(v.maxRecords)),
       respectRobotsTxt := Some(Bool(v.respectRobots)),
       fetchProfile := Some(Dict(FetchDict(v.fetch))),
       hostMemoryTtlSeconds := if v.fetch.ttl == Null then None else Some(v.fetch.ttl),
       localityProfile := Some(Dict(LocalityDict(v.locality))),
       diagnosticsProfile := Some(Dict(DiagnosticsDict(v.diagnostics))),
       acquisitionContract := Some(Dict(ContractDict(v.contract))),
       internalApiEndpoints := if v.endpoints.Some? then Some(List(v.endpoints.value)) else d.internalApiEndpoints,
       maxPages := Some(Int(v.maxPages)),
       maxScrolls := Some(Int(v.maxScrolls)),
       sleepMs := Some(Int(v.sleepMs)),
       requestDelayMs := Some(Int(v.sleepMs)),
       traversalMode := Some(TraversalValue(v.traversal)),
       proxyEnabled := Some(Bool(v.proxyEnabled)),
       proxyList := Some(List(v.proxies)),
       proxyProfile := Some(Dict(v.proxyProfile)),
       advancedMode :=
         if Truthy(Slot(d.advancedEnabled, Null)) then Some(Slot(d.advancedMode, Null))
         else if d.advancedMode.Some? then Some(Null)
         else None)
  }

  /** `None` is the configuration error of an unsupported traversal mode. */
  function Normalize(env: Env, d: Data): Option<Data> {
    if TraversalView(env, d).Unsupported? then None else Some(Overwrite(d, ViewsOf(env, d)))
  }

  method NormalizedForStorage(env: Env, d: Data) returns (normalized: Option<Data>)
    ensures normalized == Normalize(env, d)
  {
    if TraversalView(env, d).Unsupported? {
      return None;
    }
    var proxies := ProxyListLoop(env, d);
    var profile := ProxyProfile(env, d, false);
    var contract := AcquisitionContract(env, d);
    var n := OverwriteInOrder(d, ViewsOf(env, d).(proxies := proxies, proxyProfile := profile, contract := contract));
    return Some(n);
  }

  /** `normalized_for_storage` as it runs: a copy of the settings, overwritten key by key. Entries
      no view owns stay as they are, an advanced mode too while its flag is set. */
  method OverwriteInOrder(d: Data, v: Views) returns (n: Data)
    ensures n == Overwrite(d, v)
    ensures n.rest == d.rest && n.fetchMode == d.fetchMode && n.advancedEnabled == d.advancedEnabled
    ensures v.endpoints.None? ==> n.internalApiEndpoints == d.internalApiEndpoints
    ensures d.advancedMode.Some? && Truthy(Slot(d.advancedEnabled, Null)) ==> n.advancedMode == d.advancedMode
    ensures !Truthy(Slot(d.advancedEnabled, Null)) ==> Slot(n.advancedMode, Null) == Null
    ensures n.hostMemoryTtlSeconds.Some? ==> n.hostMemoryTtlSeconds.value == v.fetch.ttl != Null
  {
    n := d;
    n := n.(urls := Some(List(v.urls)));
    n := n.(maxRecords := Some(Int(v.maxRecords)));
    n := n.(respectRobotsTxt := Some(Bool(v.respectRobots)));
    n := n.(fetchProfile := Some(Dict(FetchDict(v.fetch))));
    n := n.(hostMemoryTtlSeconds := None);
    if v.fetch.ttl != Null {
      n := n.(hostMemoryTtlSeconds := Some(v.fetch.ttl));
    }
    n := n.(localityProfile := Some(Dict(LocalityDict(v.locality))));
    n := n.(diagnosticsProfile := Some(Dict(DiagnosticsDict(v.diagnostics))));
    n := n.(acquisitionContract := Some(Dict(ContractDict(v.contract))));
    if v.endpoints.Some? {
      n := n.(internalApiEndpoints := Some(List(v.endpoints.value)));
    }
    n := n.(maxPages := Some(Int(v.maxPages)));
    n := n.(maxScrolls := Some(Int(v.maxScrolls)));
    n := n.(sleepMs := Some(Int(v.sleepMs)));
    n := n.(requestDelayMs := Some(Int(v.sleepMs)));
    n := n.(traversalMode := Some(TraversalValue(v.traversal)));
    n := n.(proxyEnabled := Some(Bool(v.proxyEnabled)));
    n := n.(proxyList := Some(List(v.proxies)));
    n := n.(proxyProfile := Some(Dict(v.proxyProfile)));
    if Truthy(Slot(d.advancedEnabled, Null)) {
      n := n.(advancedMode := Some(Slot(d.advancedMode, Null)));
    } else if n.advancedMode.Some? {
      n := n.(advancedMode := Some(Null));
    }
  }
}
