/** What the limiter promises over whole runs of calls. */
module RateLimitRuns {
  import opened RateLimit

  /** A run so far: every call ever made, the latest one outermost. */
  datatype History = Start | Then(before: History, call: Call)

  ghost predicate Sorted(h: History) {
    h.Then? ==> Sorted(h.before) && (h.before.Then? ==> h.before.call.now <= h.call.now)
  }

  ghost predicate NotAfter(h: History, now: real) {
    Sorted(h) && (h.Then? ==> h.call.now <= now)
  }

  function Run(cfg: Config, h: History): Table {
    match h
    case Start => EMPTY
    case Then(b, c) => Step(cfg, Run(cfg, b), c).0
  }

  function Decision(cfg: Config, h: History, c: Call): Outcome {
    Step(cfg, Run(cfg, h), c).1
  }

  predicate Present(cfg: Config, h: History, id: Client) {
    id in Run(cfg, h).buckets
  }

  // ---------------------------------------------------------------- the simple specification

  /** Requests of `id` accepted strictly after `lo`, over the whole run. */
  function Accepted(cfg: Config, h: History, id: Client, lo: real): nat {
    match h
    case Start => 0
    case Then(b, c) =>
      Accepted(cfg, b, id, lo) + if c.id == id && c.now > lo && Decision(cfg, b, c).Allowed? then 1 else 0
  }

  /** The call `c` after `b` throws out the bucket of `id`. */
  predicate EvictedBy(cfg: Config, b: History, c: Call, id: Client) {
    (Present(cfg, b, id) || c.id == id) && !Present(cfg, Then(b, c), id)
  }

  predicate NotEvictedAfter(cfg: Config, h: History, id: Client, lo: real) {
    match h
    case Start => true
    case Then(b, c) => NotEvictedAfter(cfg, b, id, lo) && (c.now > lo ==> !EvictedBy(cfg, b, c, id))
  }

  /** Clients other than `id` that called strictly after `lo`. */
  function Others(h: History, id: Client, lo: real): set<Client> {
    match h
    case Start => {}
    case Then(b, c) => Others(b, id, lo) + if c.id != id && c.now > lo then {c.id} else {}
  }

  /** Clients that called since the last call of `id` (all of them if it never called). */
  function Since(h: History, id: Client): set<Client> {
    match h
    case Start => {}
    case Then(b, c) => if c.id == id then {} else Since(b, id) + {c.id}
  }

  predicate Called(h: History, id: Client) {
    h.Then? && (h.call.id == id || Called(h.before, id))
  }

  // ---------------------------------------------------------------- buckets

  ghost predicate Ascending(b: seq<real>) {
    forall i, j :: 0 <= i < j < |b| ==> b[i] <= b[j]
  }

  function Above(b: seq<real>, lo: real): nat {
    if b == [] then 0 else (if b[0] > lo then 1 else 0) + Above(b[1..], lo)
  }

  lemma {:induction false} AbovePrune(b: seq<real>, cutoff: real, lo: real)
    requires cutoff <= lo
    ensures Above(Prune(b, cutoff), lo) == Above(b, lo)
  {
    if b != [] && b[0] <= cutoff {
      AbovePrune(b[1..], cutoff, lo);
    }
  }

  lemma {:induction false} AboveAppend(b: seq<real>, x: real, lo: real)
    ensures Above(b + [x], lo) == Above(b, lo) + (if x > lo then 1 else 0)
  {
    if b != [] {
      AboveAppend(b[1..], x, lo);
      assert (b + [x])[1..] == b[1..] + [x];
    } else {
      assert b + [x] == [x];
    }
  }

  lemma {:induction false} AboveAll(b: seq<real>, lo: real)
    requires Ascending(b) && (b != [] ==> lo < b[0])
    ensures Above(b, lo) == |b|
  {
    if |b| > 1 {
      assert b[0] <= b[1];
      AboveAll(b[1..], lo);
    }
  }

  lemma {:induction false} PruneTwice(b: seq<real>, first: real, second: real)
    requires first <= second
    ensures Prune(Prune(b, first), second) == Prune(b, second)
  {
    if b != [] && b[0] <= first {
      PruneTwice(b[1..], first, second);
    }
  }

  ghost predicate Bounded(b: seq<real>, maxRequests: int, last: real) {
    Ascending(b) && (b == [] || |b| <= maxRequests) && forall i :: 0 <= i < |b| ==> b[i] <= last
  }

  lemma {:induction false} PruneBounded(b: seq<real>, cutoff: real, maxRequests: int, last: real)
    requires Bounded(b, maxRequests, last)
    ensures Bounded(Prune(b, cutoff), maxRequests, last)
  {
    if b != [] && b[0] <= cutoff {
      PruneBounded(b[1..], cutoff, maxRequests, last);
    }
  }

  /** The bucket a step leaves to a client that stays in the table. */
  function NextBucket(cfg: Config, t: Table, c: Call, id: Client): seq<real> {
    if c.id != id then BucketOf(t, id)
    else
      var bucket := Prune(BucketOf(t, id), c.now - cfg.window);
      if Step(cfg, t, c).1.Allowed? then bucket + [c.now] else bucket
  }

  lemma StepBucket(cfg: Config, t: Table, c: Call, id: Client)
    requires id in Step(cfg, t, c).0.buckets
    ensures (c.id == id || id in t.buckets) && Step(cfg, t, c).0.buckets[id] == NextBucket(cfg, t, c, id)
  {
    var bucket := Prune(BucketOf(t, c.id), c.now - cfg.window);
    if |bucket| < cfg.maxRequests && cfg.maxClients >= 0 {
      EvictOnlyRemoves(Touched(t, c.id, bucket + [c.now]), cfg.maxClients, id);
    }
  }

  lemma {:induction false} RunWellFormed(cfg: Config, h: History)
    ensures WellFormed(Run(cfg, h))
  {
    if h.Then? {
      RunWellFormed(cfg, h.before);
      StepKeepsWellFormed(cfg, Run(cfg, h.before), h.call);
    }
  }

  /** In every reachable table each bucket is sorted, past and no longer than the limit. */
  lemma {:induction false} BucketsBounded(cfg: Config, h: History, id: Client)
    requires Sorted(h) && h.Then?
    ensures Bounded(BucketOf(Run(cfg, h), id), cfg.maxRequests, h.call.now)
  {
    var t := Run(cfg, h.before);
    if h.before.Then? {
      BucketsBounded(cfg, h.before, id);
    }
    if Present(cfg, h, id) {
      StepBucket(cfg, t, h.call, id);
      PruneBounded(BucketOf(t, id), h.call.now - cfg.window, cfg.maxRequests, h.call.now);
    }
  }

  /** The accepted requests of the current tenure of `id` in the table. */
  ghost function Live(cfg: Config, h: History, id: Client, lo: real): nat {
    match h
    case Start => 0
    case Then(b, c) =>
      if !Present(cfg, h, id) then 0
      else Live(cfg, b, id, lo) + if c.id == id && c.now > lo && Decision(cfg, b, c).Allowed? then 1 else 0
  }

  lemma NextBucketAbove(cfg: Config, t: Table, c: Call, id: Client, lo: real)
    requires c.now - cfg.window <= lo
    ensures Above(NextBucket(cfg, t, c, id), lo)
         == Above(BucketOf(t, id), lo) + if c.id == id && c.now > lo && Step(cfg, t, c).1.Allowed? then 1 else 0
  {
    AbovePrune(BucketOf(t, id), c.now - cfg.window, lo);
    AboveAppend(Prune(BucketOf(t, id), c.now - cfg.window), c.now, lo);
  }

  lemma {:induction false} BucketIsLive(cfg: Config, h: History, id: Client, lo: real)
    requires Sorted(h) && (h.Then? ==> h.call.now - cfg.window <= lo)
    ensures Above(BucketOf(Run(cfg, h), id), lo) == Live(cfg, h, id, lo)
  {
    if h.Then? && Present(cfg, h, id) {
      var t := Run(cfg, h.before);
      StepBucket(cfg, t, h.call, id);
      BucketIsLive(cfg, h.before, id, lo);
      NextBucketAbove(cfg, t, h.call, id, lo);
    }
  }

  lemma {:induction false} NothingAfter(cfg: Config, h: History, id: Client, lo: real)
    requires NotAfter(h, lo)
    ensures Accepted(cfg, h, id, lo) == 0
  {
    if h.Then? {
      NothingAfter(cfg, h.before, id, lo);
    }
  }

  /** The decision only depends on how many live requests lie inside the window. */
  lemma DecisionIsLive(cfg: Config, h: History, c: Call)
    requires cfg.maxClients >= 0 && NotAfter(h, c.now)
    ensures Decision(cfg, h, c).Allowed? <==> Live(cfg, h, c.id, c.now - cfg.window) < cfg.maxRequests
  {
    var bucket, lo := BucketOf(Run(cfg, h), c.id), c.now - cfg.window;
    if h.Then? {
      BucketsBounded(cfg, h, c.id);
      PruneBounded(bucket, lo, cfg.maxRequests, h.call.now);
    }
    AboveAll(Prune(bucket, lo), lo);
    AbovePrune(bucket, lo, lo);
    BucketIsLive(cfg, h, c.id, lo);
  }

  lemma {:induction false} LiveIsAccepted(cfg: Config, h: History, id: Client, lo: real)
    requires Sorted(h) && NotEvictedAfter(cfg, h, id, lo)
    ensures Live(cfg, h, id, lo) == Accepted(cfg, h, id, lo)
  {
    if h.Then? {
      LiveIsAccepted(cfg, h.before, id, lo);
      if !Present(cfg, h, id) {
        if h.call.now <= lo {
          NothingAfter(cfg, h, id, lo);
        }
      }
    }
  }

  /** Over every run: a client whose bucket was not thrown out inside the window is allowed
      exactly when fewer than `maxRequests` of its requests were accepted inside it. */
  lemma DecisionMatchesLog(cfg: Config, h: History, c: Call)
    requires cfg.maxClients >= 0 && NotAfter(h, c.now)
    requires NotEvictedAfter(cfg, h, c.id, c.now - cfg.window)
    ensures Decision(cfg, h, c).Allowed? <==> Accepted(cfg, h, c.id, c.now - cfg.window) < cfg.maxRequests
  {
    DecisionIsLive(cfg, h, c);
    LiveIsAccepted(cfg, h, c.id, c.now - cfg.window);
  }

  // ---------------------------------------------------------------- least recently seen

  ghost function Elements(s: seq<Client>): set<Client> {
    set x | x in s
  }

  /** Every client that ever called, by last call. */
  ghost function ByLastCall(h: History): seq<Client> {
    match h
    case Start => []
    case Then(b, c) => Without(ByLastCall(b), c.id) + [c.id]
  }

  ghost function Last(s: seq<Client>, n: nat): seq<Client> {
    if |s| <= n then s else Last(s[1..], n)
  }

  ghost function After(s: seq<Client>, x: Client): seq<Client> {
    if s == [] then [] else if s[0] == x then s[1..] else After(s[1..], x)
  }

  lemma {:induction false} WithoutSize(s: seq<Client>, id: Client)
    requires Distinct(s)
    ensures |Without(s, id)| == |s| - if id in s then 1 else 0
  {
    if s != [] {
      WithoutSize(s[1..], id);
    }
  }

  lemma {:induction false} ElementsSize(s: seq<Client>)
    requires Distinct(s)
    ensures |Elements(s)| == |s|
  {
    if s != [] {
      ElementsSize(s[1..]);
      assert Elements(s) == {s[0]} + Elements(s[1..]);
    }
  }

  lemma {:induction false} LastTouch(s: seq<Client>, n: nat, id: Client)
    requires Distinct(s) && n >= 1
    ensures Last(Without(Last(s, n), id) + [id], n) == Last(Without(s, id) + [id], n)
  {
    if |s| > n {
      LastTouch(s[1..], n, id);
      if s[0] != id {
        WithoutSize(s[1..], id);
        assert (Without(s, id) + [id])[1..] == Without(s[1..], id) + [id];
      }
    }
  }

  lemma {:induction false} LastSize(s: seq<Client>, n: nat, x: Client)
    requires Distinct(s)
    ensures Distinct(Last(s, n)) && |Last(s, n)| == (if |s| <= n then |s| else n)
    ensures x in Last(s, n) <==> x in s && |After(s, x)| < n
  {
    if |s| <= n {
      AfterSize(s, x);
    } else {
      LastSize(s[1..], n, x);
      AfterSize(s, x);
    }
  }

  lemma {:induction false} AfterSize(s: seq<Client>, x: Client)
    requires Distinct(s)
    ensures x in s ==> |After(s, x)| < |s|
    ensures Distinct(After(s, x))
  {
    if s != [] && s[0] != x {
      AfterSize(s[1..], x);
    }
  }

  lemma {:induction false} EvictIsLast(t: Table, n: nat)
    ensures Evict(t, n).order == Last(t.order, n)
    decreases |t.order|
  {
    if |t.order| > n {
      EvictIsLast(Table(t.order[1..], t.buckets - {t.order[0]}), n);
    }
  }

  lemma {:induction false} ByLastCallDistinct(h: History, x: Client)
    ensures Distinct(ByLastCall(h))
    ensures x in ByLastCall(h) <==> Called(h, x)
  {
    if h.Then? {
      ByLastCallDistinct(h.before, x);
      WithoutIsFilter(ByLastCall(h.before), h.call.id);
      DistinctAppend(Without(ByLastCall(h.before), h.call.id), h.call.id);
    }
  }

  /** The keys of the table are the last `maxClients` clients by last call, in that order. */
  lemma {:induction false} OrderIsRecency(cfg: Config, h: History)
    requires cfg.maxRequests >= 1 && cfg.maxClients >= 1
    ensures Run(cfg, h).order == Last(ByLastCall(h), cfg.maxClients)
  {
    if h.Then? {
      var t, c, all := Run(cfg, h.before), h.call, ByLastCall(h.before);
      OrderIsRecency(cfg, h.before);
      ByLastCallDistinct(h.before, c.id);
      LastTouch(all, cfg.maxClients, c.id);
      LastSize(all, cfg.maxClients, c.id);
      var bucket := Prune(BucketOf(t, c.id), c.now - cfg.window);
      if |bucket| >= cfg.maxRequests {
        RunWellFormed(cfg, h.before);
        WithoutSize(t.order, c.id);
      } else {
        EvictIsLast(Touched(t, c.id, bucket + [c.now]), cfg.maxClients);
      }
    }
  }

  lemma {:induction false} AfterTouch(s: seq<Client>, id: Client, x: Client)
    requires x in s && x != id
    ensures After(Without(s, id) + [id], x) == Without(After(s, x), id) + [id]
  {
    if s[0] == x {
      assert (Without(s, id) + [id])[1..] == Without(s[1..], id) + [id];
    } else {
      AfterTouch(s[1..], id, x);
      if s[0] != id {
        assert (Without(s, id) + [id])[1..] == Without(s[1..], id) + [id];
      }
    }
  }

  lemma {:induction false} AfterLast(s: seq<Client>, x: Client)
    requires x !in s
    ensures After(s + [x], x) == []
  {
    if s != [] {
      AfterLast(s[1..], x);
      assert (s + [x])[1..] == s[1..] + [x];
    } else {
      assert s + [x] == [x];
    }
  }

  lemma {:induction false} SinceIsAfter(h: History, x: Client)
    requires Called(h, x)
    ensures Elements(After(ByLastCall(h), x)) == Since(h, x)
  {
    var c, all := h.call, ByLastCall(h.before);
    ByLastCallDistinct(h.before, x);
    WithoutIsFilter(all, c.id);
    if c.id == x {
      AfterLast(Without(all, x), x);
    } else {
      SinceIsAfter(h.before, x);
      AfterTouch(all, c.id, x);
      AfterSize(all, x);
      WithoutIsFilter(After(all, x), c.id);
    }
  }

  /** A client has a bucket exactly when it has called and fewer than `maxClients` distinct
      other clients, allowed or denied, have called since its own last call. */
  lemma PresentExactly(cfg: Config, h: History, id: Client)
    requires cfg.maxRequests >= 1 && cfg.maxClients >= 1
    ensures Present(cfg, h, id) <==> Called(h, id) && |Since(h, id)| < cfg.maxClients
    ensures |Run(cfg, h).buckets| <= cfg.maxClients
  {
    var all := ByLastCall(h);
    RunWellFormed(cfg, h);
    OrderIsRecency(cfg, h);
    ByLastCallDistinct(h, id);
    LastSize(all, cfg.maxClients, id);
    if Called(h, id) {
      SinceIsAfter(h, id);
      AfterSize(all, id);
      ElementsSize(After(all, id));
    }
    ElementsSize(Run(cfg, h).order);
    assert Run(cfg, h).buckets.Keys == Elements(Run(cfg, h).order);
  }

  // ---------------------------------------------------------------- no over-full window

  /** Requests of `id` accepted in the interval `(lo, hi]`. */
  function AcceptedIn(cfg: Config, h: History, id: Client, lo: real, hi: real): nat {
    match h
    case Start => 0
    case Then(b, c) =>
      AcceptedIn(cfg, b, id, lo, hi)
      + if c.id == id && lo < c.now <= hi && Decision(cfg, b, c).Allowed? then 1 else 0
  }

  lemma {:induction false} AcceptedInBelow(cfg: Config, h: History, id: Client, lo: real, hi: real, from: real)
    requires from <= lo
    ensures AcceptedIn(cfg, h, id, lo, hi) <= Accepted(cfg, h, id, from)
  {
    if h.Then? {
      AcceptedInBelow(cfg, h.before, id, lo, hi, from);
    }
  }

  /** The caller-checkable form: with fewer than `maxClients` other callers inside the window,
      the client's live requests are all its accepted ones, whatever was thrown out before. */
  lemma {:induction false} FewOthersLive(cfg: Config, h: History, id: Client, lo: real)
    requires cfg.maxRequests >= 1 && cfg.maxClients >= 1 && Sorted(h)
    requires |Others(h, id, lo)| < cfg.maxClients
    ensures Live(cfg, h, id, lo) == Accepted(cfg, h, id, lo)
  {
    if h.Then? {
      OthersGrow(h, id, lo);
      FewOthersLive(cfg, h.before, id, lo);
      PresentExactly(cfg, h, id);
      if !Present(cfg, h, id) {
        RecentSince(cfg, h, id, lo);
      }
    }
  }

  lemma OthersGrow(h: History, id: Client, lo: real)
    requires h.Then?
    ensures |Others(h.before, id, lo)| <= |Others(h, id, lo)|
  {
    SubsetSize(Others(h.before, id, lo), Others(h, id, lo));
  }

  lemma {:induction false} SubsetSize(a: set<Client>, b: set<Client>)
    requires a <= b
    ensures |a| <= |b|
  {
    assert b == a + (b - a);
  }

  lemma {:induction false} RecentSince(cfg: Config, h: History, id: Client, lo: real)
    requires Sorted(h) && |Others(h, id, lo)| < cfg.maxClients
    requires Called(h, id) ==> |Since(h, id)| >= cfg.maxClients
    ensures Accepted(cfg, h, id, lo) == 0
  {
    if Accepted(cfg, h, id, lo) > 0 {
      AcceptedCalled(cfg, h, id, lo);
      SubsetSize(Since(h, id), Others(h, id, lo));
    }
  }

  lemma {:induction false} AcceptedCalled(cfg: Config, h: History, id: Client, lo: real)
    requires Sorted(h) && Accepted(cfg, h, id, lo) > 0
    ensures Called(h, id) && h.call.now > lo && Since(h, id) <= Others(h, id, lo)
  {
    if Accepted(cfg, h.before, id, lo) > 0 {
      AcceptedCalled(cfg, h.before, id, lo);
    }
  }

  /** Over every run: a client with fewer than `maxClients` other callers inside its window is
      allowed exactly when fewer than `maxRequests` of its requests were accepted inside it. */
  lemma DecisionWithFewOthers(cfg: Config, h: History, c: Call)
    requires cfg.maxRequests >= 1 && cfg.maxClients >= 1 && NotAfter(h, c.now)
    requires |Others(h, c.id, c.now - cfg.window)| < cfg.maxClients
    ensures Decision(cfg, h, c).Allowed? <==> Accepted(cfg, h, c.id, c.now - cfg.window) < cfg.maxRequests
  {
    var lo := c.now - cfg.window;
    assert Live(cfg, h, c.id, lo) == Accepted(cfg, h, c.id, lo) by {
      FewOthersLive(cfg, h, c.id, lo);
    }
    DecisionIsLive(cfg, h, c);
  }

  /** The call `c` after `b` is the one at which `id` has been followed by `n` distinct others. */
  predicate PushesOut(b: History, c: Call, id: Client, n: int) {
    Called(b, id) && |Since(b, id)| < n <= |Since(Then(b, c), id)|
  }

  predicate NotPushedOutAfter(h: History, id: Client, n: int, lo: real) {
    match h
    case Start => true
    case Then(b, c) => NotPushedOutAfter(b, id, n, lo) && (c.now > lo ==> !PushesOut(b, c, id, n))
  }

  /** A bucket is thrown out by the very call that brings the distinct others up to `maxClients`. */
  lemma EvictedExactly(cfg: Config, b: History, c: Call, id: Client)
    requires cfg.maxRequests >= 1 && cfg.maxClients >= 1
    ensures EvictedBy(cfg, b, c, id) <==> PushesOut(b, c, id, cfg.maxClients)
  {
    PresentExactly(cfg, b, id);
    PresentExactly(cfg, Then(b, c), id);
  }

  lemma {:induction false} NotEvictedExactly(cfg: Config, h: History, id: Client, lo: real)
    requires cfg.maxRequests >= 1 && cfg.maxClients >= 1
    ensures NotEvictedAfter(cfg, h, id, lo) <==> NotPushedOutAfter(h, id, cfg.maxClients, lo)
  {
    if h.Then? {
      NotEvictedExactly(cfg, h.before, id, lo);
      EvictedExactly(cfg, h.before, h.call, id);
    }
  }

  /** The law in terms of the callers alone: unless some call inside the window was the one at which
      the client had been followed by `maxClients` distinct others, it is allowed exactly when fewer
      than `maxRequests` of its requests were accepted inside the window. */
  lemma DecisionUnlessPushedOut(cfg: Config, h: History, c: Call)
    requires cfg.maxRequests >= 1 && cfg.maxClients >= 1 && NotAfter(h, c.now)
    requires NotPushedOutAfter(h, c.id, cfg.maxClients, c.now - cfg.window)
    ensures Decision(cfg, h, c).Allowed? <==> Accepted(cfg, h, c.id, c.now - cfg.window) < cfg.maxRequests
  {
    NotEvictedExactly(cfg, h, c.id, c.now - cfg.window);
    DecisionMatchesLog(cfg, h, c);
  }

  /** No call inside `(lo, hi]` threw out the bucket of `id`. */
  predicate NotEvictedWithin(cfg: Config, h: History, id: Client, lo: real, hi: real) {
    match h
    case Start => true
    case Then(b, c) =>
      NotEvictedWithin(cfg, b, id, lo, hi) && (lo < c.now <= hi ==> !EvictedBy(cfg, b, c, id))
  }

  lemma {:induction false} WithinIsAfter(cfg: Config, h: History, id: Client, lo: real, hi: real)
    requires NotEvictedWithin(cfg, h, id, lo, hi) && NotAfter(h, hi)
    ensures NotEvictedAfter(cfg, h, id, lo)
  {
    if h.Then? {
      WithinIsAfter(cfg, h.before, id, lo, hi);
    }
  }

  /** No interval of one window's length holds more than `maxRequests` accepted requests of a
      client that was not thrown out inside the interval. */
  lemma {:induction false} WindowNeverOverfull(cfg: Config, h: History, id: Client, lo: real)
    requires cfg.maxRequests >= 1 && cfg.maxClients >= 0 && Sorted(h)
    requires NotEvictedWithin(cfg, h, id, lo, lo + cfg.window)
    ensures AcceptedIn(cfg, h, id, lo, lo + cfg.window) <= cfg.maxRequests
  {
    if h.Then? {
      WindowNeverOverfull(cfg, h.before, id, lo);
      var c := h.call;
      if c.id == id && lo < c.now <= lo + cfg.window && Decision(cfg, h.before, c).Allowed? {
        DecisionIsLive(cfg, h.before, c);
        LiveShrinks(cfg, h.before, id, c.now - cfg.window, lo);
        WithinIsAfter(cfg, h.before, id, lo, lo + cfg.window);
        LiveIsAccepted(cfg, h.before, id, lo);
        AcceptedInBelow(cfg, h.before, id, lo, lo + cfg.window, lo);
      }
    }
  }

  lemma {:induction false} LiveShrinks(cfg: Config, h: History, id: Client, lo: real, later: real)
    requires lo <= later
    ensures Live(cfg, h, id, later) <= Live(cfg, h, id, lo)
  {
    if h.Then? {
      LiveShrinks(cfg, h.before, id, lo, later);
    }
  }

  /** `n` calls of one client, then one call of each of `others`, all at clock zero. */
  function Repeated(id: Client, n: nat): History {
    if n == 0 then Start else Then(Repeated(id, n - 1), Call(id, 0.0))
  }

  function Followed(h: History, others: seq<Client>): History {
    if others == [] then h else Then(Followed(h, others[..|others| - 1]), Call(others[|others| - 1], 0.0))
  }

  /** The first requests of a client alone in the table are all accepted. */
  lemma {:induction false} RepeatedAccepted(cfg: Config, id: Client, n: nat)
    requires cfg.window > 0.0 && cfg.maxRequests >= 1 && cfg.maxClients >= 1 && n <= cfg.maxRequests
    ensures NotAfter(Repeated(id, n), 0.0) && Others(Repeated(id, n), id, -cfg.window) == {}
    ensures Accepted(cfg, Repeated(id, n), id, -cfg.window) == n
    ensures AcceptedIn(cfg, Repeated(id, n), id, -cfg.window, 0.0) == n
  {
    if n > 0 {
      RepeatedAccepted(cfg, id, n - 1);
      DecisionWithFewOthers(cfg, Repeated(id, n - 1), Call(id, 0.0));
    }
  }

  lemma OneMoreElement(before: seq<Client>, last: Client, all: seq<Client>)
    requires all == before + [last]
    ensures Elements(all) == Elements(before) + {last}
  {
  }

  lemma OneMoreOther(h: History, id: Client, other: Client, lo: real)
    requires lo < 0.0 && NotAfter(h, 0.0) && Called(h, id) && other != id
    ensures var f := Then(h, Call(other, 0.0));
            && NotAfter(f, 0.0) && Called(f, id)
            && Others(f, id, lo) == Others(h, id, lo) + {other} && Since(f, id) == Since(h, id) + {other}
  {
  }

  /** Calls of others count for nothing but the others themselves. */
  lemma {:induction false} FollowedCallers(h: History, id: Client, others: seq<Client>, lo: real)
    requires lo < 0.0 && NotAfter(h, 0.0) && Called(h, id) && id !in others
    requires Others(h, id, lo) == Since(h, id) == {}
    ensures var f := Followed(h, others);
            NotAfter(f, 0.0) && Called(f, id) && Others(f, id, lo) == Since(f, id) == Elements(others)
  {
    if others != [] {
      var before, last := others[..|others| - 1], others[|others| - 1];
      FollowedCallers(h, id, before, lo);
      OneMoreElement(before, last, others);
      OneMoreOther(Followed(h, before), id, last, lo);
    }
  }

  lemma {:induction false} FollowedAccepted(cfg: Config, h: History, id: Client, others: seq<Client>, lo: real)
    requires id !in others
    ensures Accepted(cfg, Followed(h, others), id, lo) == Accepted(cfg, h, id, lo)
    ensures AcceptedIn(cfg, Followed(h, others), id, lo, 0.0) == AcceptedIn(cfg, h, id, lo, 0.0)
  {
    if others != [] {
      FollowedAccepted(cfg, h, id, others[..|others| - 1], lo);
    }
  }

  /** A client that called, but not among the last `maxClients` callers, is allowed once more. */
  lemma ForgottenIsAllowed(cfg: Config, h: History, c: Call)
    requires cfg.maxRequests >= 1 && cfg.maxClients >= 1 && |Since(h, c.id)| >= cfg.maxClients
    ensures Decision(cfg, h, c).Allowed?
  {
    PresentExactly(cfg, h, c.id);
    DecisionByLength(cfg, h, c);
  }

  lemma OneMoreAccepted(cfg: Config, h: History, id: Client, lo: real)
    requires lo < 0.0 && Decision(cfg, h, Call(id, 0.0)).Allowed?
    ensures AcceptedIn(cfg, Then(h, Call(id, 0.0)), id, lo, 0.0) == AcceptedIn(cfg, h, id, lo, 0.0) + 1
  {
  }

  lemma FullThenForgotten(cfg: Config, own: History, id: Client, others: seq<Client>, h: History, lo: real)
    requires lo == -cfg.window < 0.0 && cfg.maxRequests >= 1 && cfg.maxClients >= 1
    requires |others| == cfg.maxClients && Distinct(others) && id !in others && h == Followed(own, others)
    requires NotAfter(own, 0.0) && Called(own, id) && Others(own, id, lo) == Since(own, id) == {}
    requires Accepted(cfg, own, id, lo) == AcceptedIn(cfg, own, id, lo, 0.0) == cfg.maxRequests
    ensures NotAfter(h, 0.0) && |Others(h, id, lo)| == cfg.maxClients && Accepted(cfg, h, id, lo) == cfg.maxRequests
    ensures Decision(cfg, h, Call(id, 0.0)).Allowed?
    ensures AcceptedIn(cfg, Then(h, Call(id, 0.0)), id, lo, 0.0) == cfg.maxRequests + 1
  {
    FollowedCallers(own, id, others, lo);
    FollowedAccepted(cfg, own, id, others, lo);
    ElementsSize(others);
    ForgottenIsAllowed(cfg, h, Call(id, 0.0));
    OneMoreAccepted(cfg, h, id, lo);
  }

  /** The bound on other callers is tight in every configuration: with `maxClients` of them a client
      at its limit is allowed once more, and its window holds one accepted request too many. */
  lemma FewOthersIsTight(cfg: Config, id: Client, others: seq<Client>)
    requires cfg.window > 0.0 && cfg.maxRequests >= 1 && cfg.maxClients >= 1
    requires |others| == cfg.maxClients && Distinct(others) && id !in others
    ensures var h, lo := Followed(Repeated(id, cfg.maxRequests), others), -cfg.window;
            && NotAfter(h, 0.0) && |Others(h, id, lo)| == cfg.maxClients && Accepted(cfg, h, id, lo) == cfg.maxRequests
            && Decision(cfg, h, Call(id, 0.0)).Allowed?
            && AcceptedIn(cfg, Then(h, Call(id, 0.0)), id, lo, 0.0) == cfg.maxRequests + 1
  {
    var own := Repeated(id, cfg.maxRequests);
    RepeatedAccepted(cfg, id, cfg.maxRequests);
    FullThenForgotten(cfg, own, id, others, Followed(own, others), -cfg.window);
  }

  /** The smallest case: two clients taking turns in a one-bucket table that allows one request. */
  lemma EvictionForgets(a: Client, b: Client)
    requires a != b
    ensures var cfg := Config(60.0, 1, 1);
            var h := Then(Then(Then(Start, Call(a, 0.0)), Call(b, 0.0)), Call(a, 0.0));
            Sorted(h) && AcceptedIn(cfg, h, a, -60.0, 0.0) == 2
  {
    var cfg, others := Config(60.0, 1, 1), [b];
    OneEach(a, b);
    assert Distinct(others) && a !in others;
    FewOthersIsTight(cfg, a, others);
  }

  lemma OneEach(a: Client, b: Client)
    ensures Followed(Repeated(a, 1), [b]) == Then(Then(Start, Call(a, 0.0)), Call(b, 0.0))
  {
    var h := Repeated(a, 1);
    assert h == Then(Repeated(a, 0), Call(a, 0.0));
    assert [b][..0] == [] && Followed(h, []) == h;
  }

  // ---------------------------------------------------------------- how long to wait

  /** Every call after `base` leaves the live requests of `id` alone: none of them is accepted. */
  ghost predicate Quiet(cfg: Config, h: History, base: History, id: Client) {
    h == base
    || (h.Then? && Quiet(cfg, h.before, base, id)
        && (h.call.id == id ==> !Decision(cfg, h.before, h.call).Allowed?))
  }

  /** The bucket a denied call leaves behind. */
  function Full(cfg: Config, h: History, c: Call): seq<real> {
    Prune(BucketOf(Run(cfg, h), c.id), c.now - cfg.window)
  }

  /** The true wait: when the oldest live request leaves the window. */
  function Wait(cfg: Config, h: History, c: Call): real
    requires Full(cfg, h, c) != []
  {
    Full(cfg, h, c)[0] + cfg.window - c.now
  }

  /** The delay sent to a denied client is at least one second and within one of the true wait. */
  lemma DenialDelay(cfg: Config, h: History, c: Call)
    requires Decision(cfg, h, c).Denied? && NotAfter(h, c.now)
    ensures var r := Decision(cfg, h, c).retryAfter as real;
            && Full(cfg, h, c) != [] && |Full(cfg, h, c)| == cfg.maxRequests
            && var w := Wait(cfg, h, c);
               && w > 0.0 && r >= 1.0 && w < r + 1.0
               && r <= (if w < 1.0 then 1.0 else w)
               && (r >= w <==> w <= 1.0 || w.Floor as real == w)
  {
    if h.Then? {
      BucketsBounded(cfg, h, c.id);
      PruneBounded(BucketOf(Run(cfg, h), c.id), c.now - cfg.window, cfg.maxRequests, c.now);
    }
  }

  lemma {:induction false} QuietBucket(cfg: Config, h: History, base: History, id: Client, lo: real)
    requires base.Then? && Sorted(h) && Quiet(cfg, h, base, id) && Present(cfg, h, id)
    requires cfg.maxRequests >= 1 && base.call.id == id && Decision(cfg, base.before, base.call).Denied?
    requires h.call.now - cfg.window <= lo
    ensures Prune(BucketOf(Run(cfg, h), id), lo) == Prune(Full(cfg, base.before, base.call), lo)
    decreases h
  {
    var t := Run(cfg, h.before);
    StepBucket(cfg, t, h.call, id);
    if h != base {
      if Present(cfg, h.before, id) {
        QuietBucket(cfg, h.before, base, id, lo);
      }
      PruneTwice(BucketOf(t, id), h.call.now - cfg.window, lo);
    }
  }

  /** Retrying after a denial with no accepted request in between succeeds exactly when the true
      wait has passed or the bucket was thrown out meanwhile. */
  lemma RetryExactly(cfg: Config, h: History, c: Call, g: History, retry: Call)
    requires cfg.maxRequests >= 1 && cfg.maxClients >= 0
    requires NotAfter(h, c.now) && Decision(cfg, h, c).Denied?
    requires Quiet(cfg, g, Then(h, c), c.id) && NotAfter(g, retry.now) && retry.id == c.id
    ensures Full(cfg, h, c) != []
    ensures Decision(cfg, g, retry).Allowed?
       <==> retry.now >= c.now + Wait(cfg, h, c) || !Present(cfg, g, c.id)
  {
    DenialDelay(cfg, h, c);
    var full, lo := Full(cfg, h, c), retry.now - cfg.window;
    DecisionByLength(cfg, g, retry);
    if Present(cfg, g, c.id) {
      QuietBucket(cfg, g, Then(h, c), c.id, lo);
      PruneShorter(full, lo);
    }
  }

  lemma DecisionByLength(cfg: Config, h: History, c: Call)
    requires cfg.maxClients >= 0
    ensures Decision(cfg, h, c).Allowed? <==> |Full(cfg, h, c)| < cfg.maxRequests
    ensures !Present(cfg, h, c.id) ==> Full(cfg, h, c) == []
  {
  }

  lemma {:induction false} PruneShorter(b: seq<real>, cutoff: real)
    ensures |Prune(b, cutoff)| <= |b|
    ensures b != [] ==> (|Prune(b, cutoff)| < |b| <==> b[0] <= cutoff)
  {
    if b != [] && b[0] <= cutoff {
      PruneShorter(b[1..], cutoff);
    }
  }

  /** One second beyond the announced delay is always enough. */
  lemma RetryAfterPlusOne(cfg: Config, h: History, c: Call, g: History, retry: Call)
    requires cfg.maxRequests >= 1 && cfg.maxClients >= 0
    requires NotAfter(h, c.now) && Decision(cfg, h, c).Denied?
    requires Quiet(cfg, g, Then(h, c), c.id) && NotAfter(g, retry.now) && retry.id == c.id
    requires retry.now >= c.now + (Decision(cfg, h, c).retryAfter + 1) as real
    ensures Decision(cfg, g, retry).Allowed?
  {
    DenialDelay(cfg, h, c);
    RetryExactly(cfg, h, c, g, retry);
  }

  /** The announced delay itself is enough exactly when truncation lost nothing: the true wait
      was at most one second or a whole number of them (or the bucket is gone). */
  lemma RetryAtAnnouncedDelay(cfg: Config, h: History, c: Call, g: History, retry: Call)
    requires cfg.maxRequests >= 1 && cfg.maxClients >= 0
    requires NotAfter(h, c.now) && Decision(cfg, h, c).Denied?
    requires Quiet(cfg, g, Then(h, c), c.id) && NotAfter(g, retry.now) && retry.id == c.id
    requires retry.now == c.now + Decision(cfg, h, c).retryAfter as real
    ensures Full(cfg, h, c) != []
    ensures var w := Wait(cfg, h, c);
            Decision(cfg, g, retry).Allowed? <==> w <= 1.0 || w.Floor as real == w || !Present(cfg, g, c.id)
  {
    DenialDelay(cfg, h, c);
    RetryExactly(cfg, h, c, g, retry);
  }

  /** Truncation at work: denied half a second after an accepted request, a client is told to wait
      59 seconds, and is refused again when it has. */
  lemma AnnouncedDelayTooShort(id: Client)
    ensures var cfg, h, c := Config(60.0, 1, 1), Then(Start, Call(id, 0.0)), Call(id, 0.5);
            && Decision(cfg, h, c) == Denied(59)
            && Decision(cfg, Then(h, c), Call(id, 59.5)).Denied?
  {
    var cfg, h, c := Config(60.0, 1, 1), Then(Start, Call(id, 0.0)), Call(id, 0.5);
    RepeatedAccepted(cfg, id, 1);
    assert Repeated(id, 0) == Start && Repeated(id, 1) == h;
    StepBucket(cfg, EMPTY, h.call, id);
    assert BucketOf(Run(cfg, h), id) == [0.0];
    DecisionByLength(cfg, h, c);
    RaisesExactly(cfg, h, c);
    RetryAtAnnouncedDelay(cfg, h, c, Then(h, c), Call(id, 59.5));
  }

  // ---------------------------------------------------------------- bad configurations

  lemma {:induction false} EmptyBuckets(cfg: Config, h: History, id: Client)
    requires cfg.maxRequests <= 0 || cfg.maxClients < 0
    ensures BucketOf(Run(cfg, h), id) == []
  {
    if h.Then? {
      EmptyBuckets(cfg, h.before, id);
      if Present(cfg, h, id) {
        StepBucket(cfg, Run(cfg, h.before), h.call, id);
      }
    }
  }

  /** A call of any run raises exactly when the limit is not positive or the table size negative. */
  lemma RaisesExactly(cfg: Config, h: History, c: Call)
    ensures var d := Decision(cfg, h, c);
            && (d.IndexError? <==> cfg.maxRequests <= 0)
            && (d.KeyError? <==> cfg.maxRequests >= 1 && cfg.maxClients < 0)
  {
    if cfg.maxRequests <= 0 || cfg.maxClients < 0 {
      EmptyBuckets(cfg, h, c.id);
    }
  }

  // ---------------------------------------------------------------- the clock and the lock

  /** A request reads the clock and joins the first-in first-out lock queue without giving up
      control; later it is served and takes the limiter's step. */
  datatype Event = Arrive(call: Call) | Serve

  datatype Queue = Queue(waiting: seq<Call>, served: History)

  ghost function Play(events: seq<Event>): Queue {
    if events == [] then Queue([], Start)
    else
      var q, e := Play(events[..|events| - 1]), events[|events| - 1];
      match e
      case Arrive(c) => q.(waiting := q.waiting + [c])
      case Serve => if q.waiting == [] then q else Queue(q.waiting[1..], Then(q.served, q.waiting[0]))
  }

  ghost predicate ClockMonotone(events: seq<Event>) {
    forall i, j :: 0 <= i < j < |events| && events[i].Arrive? && events[j].Arrive? ==>
                     events[i].call.now <= events[j].call.now
  }

  ghost predicate NoneLater(events: seq<Event>, now: real) {
    forall i :: 0 <= i < |events| && events[i].Arrive? ==> events[i].call.now <= now
  }

  ghost predicate QueueSorted(q: Queue) {
    && Sorted(q.served)
    && (forall i, j :: 0 <= i < j < |q.waiting| ==> q.waiting[i].now <= q.waiting[j].now)
    && (forall i :: 0 <= i < |q.waiting| ==> NotAfter(q.served, q.waiting[i].now))
  }

  lemma {:induction false} PlayedCallsArrived(events: seq<Event>, now: real)
    requires NoneLater(events, now) && Sorted(Play(events).served)
    ensures var q := Play(events);
            (forall i :: 0 <= i < |q.waiting| ==> q.waiting[i].now <= now) && NotAfter(q.served, now)
  {
    if events != [] {
      var rest := events[..|events| - 1];
      assert Sorted(Play(rest).served);
      PlayedCallsArrived(rest, now);
    }
  }

  /** With a clock that never goes back, however arrivals and lock grants interleave, calls are
      served in clock order; so every theorem above applies to the served history. */
  lemma {:induction false} FifoServesInClockOrder(events: seq<Event>)
    requires ClockMonotone(events)
    ensures QueueSorted(Play(events))
  {
    if events != [] {
      var rest, e := events[..|events| - 1], events[|events| - 1];
      FifoServesInClockOrder(rest);
      if e.Arrive? {
        PlayedCallsArrived(rest, e.call.now);
      }
    }
  }
}
