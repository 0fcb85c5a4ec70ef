/** The shared sliding-window rate limiter: one deque of accepted times per client, pruned
    lazily, with the least recently seen clients thrown out of a bounded ordered dictionary. */
module RateLimit {

  datatype Config = Config(window: real, maxRequests: int, maxClients: int)

  /** The client key: a host name or address, opaque to the limiter. */
  datatype Client = Client(key: string)

  datatype Call = Call(id: Client, now: real)

  /** `IndexError` is `bucket[0]` on an empty deque; `KeyError` is `popitem` on an empty dictionary. */
  datatype Outcome = Allowed | Denied(retryAfter: int) | IndexError | KeyError

  /** An ordered dictionary of deques: `order` holds the keys, oldest first. */
  datatype Table = Table(order: seq<Client>, buckets: map<Client, seq<real>>)

  const EMPTY := Table([], map[])

  // ---------------------------------------------------------------- one call, as a function

  function Without(order: seq<Client>, id: Client): seq<Client> {
    if order == [] then []
    else if order[0] == id then Without(order[1..], id)
    else [order[0]] + Without(order[1..], id)
  }

  function Prune(bucket: seq<real>, cutoff: real): (r: seq<real>)
    ensures r != [] ==> cutoff < r[0]
  {
    if bucket == [] || cutoff < bucket[0] then bucket else Prune(bucket[1..], cutoff)
  }

  function BucketOf(t: Table, id: Client): seq<real> {
    if id in t.buckets then t.buckets[id] else []
  }

  /** Python's `int()` on a float. */
  function Truncate(x: real): int {
    if x >= 0.0 then x.Floor else -((-x).Floor)
  }

  function RetryAfter(cfg: Config, oldest: real, now: real): int {
    var whole := Truncate(oldest + cfg.window - now);
    if whole > 1 then whole else 1
  }

  function Evict(t: Table, maxClients: nat): Table
    decreases |t.order|
  {
    if |t.order| <= maxClients then t
    else Evict(Table(t.order[1..], t.buckets - {t.order[0]}), maxClients)
  }

  /** The table once `id` is the most recent client and has this bucket. */
  function Touched(t: Table, id: Client, bucket: seq<real>): Table {
    Table(Without(t.order, id) + [id], t.buckets[id := bucket])
  }

  function Step(cfg: Config, t: Table, c: Call): (Table, Outcome) {
    var bucket := Prune(BucketOf(t, c.id), c.now - cfg.window);
    if |bucket| >= cfg.maxRequests then
      (Touched(t, c.id, bucket),
       if bucket == [] then IndexError else Denied(RetryAfter(cfg, bucket[0], c.now)))
    else if cfg.maxClients < 0 then
      (EMPTY, KeyError)
    else
      (Evict(Touched(t, c.id, bucket + [c.now]), cfg.maxClients), Allowed)
  }

  // ---------------------------------------------------------------- one call, in place

  ghost predicate Distinct(s: seq<Client>) {
    s != [] ==> s[0] !in s[1..] && Distinct(s[1..])
  }

  ghost predicate WellFormed(t: Table) {
    && Distinct(t.order)
    && (forall id :: id in t.order <==> id in t.buckets)
  }

  class Limiter {
    var order: seq<Client>
    var buckets: map<Client, seq<real>>

    ghost predicate Valid()
      reads this
    {
      WellFormed(State())
    }

    ghost function State(): Table
      reads this
    {
      Table(order, buckets)
    }

    constructor ()
      ensures Valid() && State() == EMPTY
    {
      order, buckets := [], map[];
    }

    /** The limiter keeps its dictionary well formed and takes exactly the step of the specification. */
    method Consume(cfg: Config, c: Call) returns (outcome: Outcome)
      requires Valid()
      modifies this
      ensures Valid()
      ensures State() == Step(cfg, old(State()), c).0 && outcome == Step(cfg, old(State()), c).1
    {
      ghost var before := State();
      Touch(c.id);
      var bucket := DropExpired(before, c.id, c.now - cfg.window);
      if |bucket| >= cfg.maxRequests {
        return if bucket == [] then IndexError else Denied(RetryAfter(cfg, bucket[0], c.now));
      }
      Append(before, c.id, c.now);
      var ok := EvictOldest(cfg.maxClients);
      return if ok then Allowed else KeyError;
    }

    /** `buckets.get`, then either a new deque at the end or `move_to_end`. */
    method Touch(id: Client)
      requires Valid()
      modifies this
      ensures Valid() && State() == Touched(old(State()), id, BucketOf(old(State()), id))
    {
      TouchKeepsWellFormed(State(), id, BucketOf(State(), id));
      if id in buckets {
        order := Without(order, id) + [id];
      } else {
        WithoutAbsent(order, id);
        buckets := buckets[id := []];
        order := order + [id];
      }
      assert buckets == old(buckets)[id := BucketOf(old(State()), id)];
    }

    /** The `popleft` loop on the caller's deque. */
    method DropExpired(ghost before: Table, id: Client, cutoff: real) returns (bucket: seq<real>)
      requires Valid() && id in buckets
      requires State() == Touched(before, id, BucketOf(before, id))
      modifies this`buckets
      ensures Valid() && id in buckets
      ensures bucket == buckets[id] == Prune(BucketOf(before, id), cutoff)
      ensures State() == Touched(before, id, bucket)
    {
      while buckets[id] != [] && buckets[id][0] <= cutoff
        invariant Valid() && id in buckets
        invariant State() == Touched(before, id, buckets[id])
        invariant Prune(buckets[id], cutoff) == Prune(BucketOf(before, id), cutoff)
        decreases |buckets[id]|
      {
        buckets := buckets[id := buckets[id][1..]];
        assert buckets == before.buckets[id := buckets[id]];
      }
      bucket := buckets[id];
    }

    method Append(ghost before: Table, id: Client, now: real)
      requires Valid() && id in buckets && State() == Touched(before, id, buckets[id])
      modifies this`buckets
      ensures Valid() && State() == Touched(before, id, old(buckets[id]) + [now])
    {
      buckets := buckets[id := buckets[id] + [now]];
      assert buckets == before.buckets[id := buckets[id]];
    }

    /** The `popitem` loop: it empties the dictionary and fails when the bound is negative. */
    method EvictOldest(maxClients: int) returns (ok: bool)
      requires Valid()
      modifies this
      ensures Valid() && ok == (maxClients >= 0)
      ensures State() == if maxClients < 0 then EMPTY else Evict(old(State()), maxClients)
    {
      while |order| > maxClients
        invariant Valid()
        invariant maxClients >= 0 ==> Evict(State(), maxClients) == Evict(old(State()), maxClients)
        decreases |order|
      {
        if order == [] {
          assert buckets == map[] by { assert forall id :: id !in buckets; }
          return false;
        }
        buckets := buckets - {order[0]};
        order := order[1..];
      }
      return true;
    }
  }

  lemma {:induction false} WithoutIsFilter(order: seq<Client>, id: Client)
    requires Distinct(order)
    ensures forall x :: x in Without(order, id) <==> x in order && x != id
    ensures Distinct(Without(order, id))
  {
    if order != [] {
      WithoutIsFilter(order[1..], id);
    }
  }

  lemma {:induction false} DistinctAppend(s: seq<Client>, x: Client)
    requires Distinct(s) && x !in s
    ensures Distinct(s + [x])
  {
    if s != [] {
      DistinctAppend(s[1..], x);
      assert (s + [x])[1..] == s[1..] + [x];
    }
  }

  lemma {:induction false} WithoutAbsent(order: seq<Client>, id: Client)
    requires id !in order
    ensures Without(order, id) == order
  {
    if order != [] {
      WithoutAbsent(order[1..], id);
    }
  }

  lemma {:induction false} EvictKeepsWellFormed(t: Table, maxClients: nat)
    requires WellFormed(t)
    ensures WellFormed(Evict(t, maxClients))
    decreases |t.order|
  {
    if |t.order| > maxClients {
      EvictKeepsWellFormed(Table(t.order[1..], t.buckets - {t.order[0]}), maxClients);
    }
  }

  lemma {:induction false} EvictOnlyRemoves(t: Table, maxClients: nat, id: Client)
    requires id in Evict(t, maxClients).buckets
    ensures id in t.buckets && Evict(t, maxClients).buckets[id] == t.buckets[id]
    decreases |t.order|
  {
    if |t.order| > maxClients {
      EvictOnlyRemoves(Table(t.order[1..], t.buckets - {t.order[0]}), maxClients, id);
    }
  }

  lemma TouchKeepsWellFormed(t: Table, id: Client, b: seq<real>)
    requires WellFormed(t)
    ensures WellFormed(Touched(t, id, b))
  {
    WithoutIsFilter(t.order, id);
    DistinctAppend(Without(t.order, id), id);
  }

  lemma StepKeepsWellFormed(cfg: Config, t: Table, c: Call)
    requires WellFormed(t)
    ensures WellFormed(Step(cfg, t, c).0)
  {
    var bucket := Prune(BucketOf(t, c.id), c.now - cfg.window);
    if |bucket| >= cfg.maxRequests {
      TouchKeepsWellFormed(t, c.id, bucket);
    } else if cfg.maxClients >= 0 {
      var full := Touched(t, c.id, bucket + [c.now]);
      assert WellFormed(full) by { TouchKeepsWellFormed(t, c.id, bucket + [c.now]); }
      assert WellFormed(Evict(full, cfg.maxClients)) by { EvictKeepsWellFormed(full, cfg.maxClients); }
    }
  }
}
