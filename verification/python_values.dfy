/** The JSON-like values that settings and stored rules are made of, with Python's `str()`, truth
    and `int(str())` on them. */
module PythonValues {
  import opened Text

  /** Dictionary keys: the names the modelled code looks up, and every other name. */
  datatype Key =
    | Urls | MaxRecords | RespectRobotsTxt | FetchProfile | HostMemoryTtlSeconds | LocalityProfile
    | DiagnosticsProfile | AcquisitionContract | InternalApiEndpoints | MaxPages | MaxScrolls | SleepMs
    | RequestDelayMs | TraversalMode | ProxyEnabled | ProxyList | ProxyProfile | AdvancedEnabled | AdvancedMode
    | FetchMode | ExtractionSource | JsMode | IncludeIframes
    | GeoCountry | LanguageHint | CurrencyHint
    | CaptureHtml | CaptureScreenshot | CaptureNetwork | CaptureResponseHeaders | CaptureBrowserDiagnostics
    | PreferredBrowserEngine | PreferBrowser | HandoffEligible | PreferCurlHandoff | HandoffCookieEngine
    | RequiredRendering | RequiredTraversal | RequiredNetworkPayloads | LastQualitySuccess | StaleAfterFailures
    | FailureCount | Stale | Method | BrowserEngine | RecordCount | FieldCoverage | SourceRunId | Timestamp
    | Enabled | Rotation
    | Id | FieldName | CssSelector | Css | Xpath | Regex | SampleValue | Source | Status | IsActive
    | Other(name: string)

  /** A float is kept as the text `str()` gives for it. */
  datatype Value =
    | Null
    | Bool(b: bool)
    | Int(n: int)
    | Float(digits: string)
    | Str(text: string)
    | List(items: seq<Value>)
    | Dict(fields: map<Key, Value>)

  function Get(m: map<Key, Value>, k: Key, default: Value): Value {
    if k in m then m[k] else default
  }

  function AsDict(v: Value): map<Key, Value> {
    if v.Dict? then v.fields else map[]
  }

  predicate Truthy(v: Value) {
    match v
    case Null => false
    case Bool(b) => b
    case Int(n) => n != 0
    case Float(digits) => digits != "0.0" && digits != "-0.0"
    case Str(text) => text != ""
    case List(items) => items != []
    case Dict(fields) => fields != map[]
  }

  /** `str(v)`; `repr` prints the non-empty containers. */
  function TextOf(repr: Value -> string, v: Value): string {
    match v
    case Null => "None"
    case Bool(b) => if b then "True" else "False"
    case Int(n) => ShowInt(n)
    case Float(digits) => digits
    case Str(text) => text
    case List(items) => if items == [] then "[]" else repr(v)
    case Dict(fields) => if fields == map[] then "{}" else repr(v)
  }

  /** `str(v or default)` */
  function TextOr(repr: Value -> string, v: Value, default: string): string {
    if Truthy(v) then TextOf(repr, v) else default
  }

  /** `text or None` */
  function OrNull(text: string): Value {
    if text == "" then Null else Str(text)
  }

  lemma IntTextReads(repr: Value -> string, n: int)
    ensures ReadInt(TextOf(repr, Int(n))) == Some(n)
  {
    ReadShownInt(n);
  }
}
