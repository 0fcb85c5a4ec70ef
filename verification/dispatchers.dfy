/** The shared dispatcher registry: a double-checked lookup racing with a shutdown that copies and
    clears the registry under the lock and cleans up outside it. Every access to the dictionary,
    the lock or a dispatcher is one step; any number of calls interleave. */
module Dispatchers {

  /** A dispatcher object: its mode, how many clears preceded it, and its place among all ever built. */
  datatype Dispatcher = Dispatcher(celery: bool, epoch: nat, serial: nat)

  /** Where a call stands. From `Checking` to `Leaving`, and from `Copying` to `Unlocking`, it holds the lock. */
  datatype Pc =
    | Reading(celery: bool)
    | Waiting(celery: bool)
    | Checking(celery: bool)
    | Building(celery: bool)
    | Storing(celery: bool, built: Dispatcher)
    | Leaving(celery: bool, found: Dispatcher)
    | Raising
    | Returned(celery: bool, found: Dispatcher)
    | Raised
    | Closing
    | Copying
    | Clearing(copy: set<Dispatcher>)
    | Unlocking(shutdown: nat, todo: set<Dispatcher>)
    | Cleaning(shutdown: nat, todo: set<Dispatcher>)
    | Closed(shutdown: nat)
  {
    predicate HoldsLock() {
      Checking? || Building? || Storing? || Leaving? || Raising? || Copying? || Clearing? || Unlocking?
    }

    predicate Finished() {
      Returned? || Raised? || Closed?
    }
  }

  datatype Thread = Thread(begun: nat, pc: Pc)

  datatype Owner = Free | HeldBy(thread: nat)

  /** What one shutdown removed from the registry. */
  datatype Take = Take(thread: nat, removed: set<Dispatcher>)

  /** `inFlight` holds a dispatcher between its construction and its entry in the registry. */
  datatype State = State(
    clock: nat,
    registry: map<bool, Dispatcher>,
    owner: Owner,
    threads: map<nat, Thread>,
    created: seq<Dispatcher>,
    inFlight: set<Dispatcher>,
    taken: seq<Take>,
    cleaned: multiset<Dispatcher>)

  /** The values of a registry: at most one dispatcher per mode. */
  function Entries(registry: map<bool, Dispatcher>): set<Dispatcher> {
    (if true in registry then {registry[true]} else {}) + (if false in registry then {registry[false]} else {})
  }

  const INITIAL := State(0, map[], Free, map[], [], {}, [], multiset{})

  /** `Fail` is a constructor that raises; `Clean` cleans up one of the copied dispatchers. */
  datatype Action =
    | BeginLookup(t: nat, celery: bool)
    | BeginShutdown(t: nat)
    | Advance(t: nat)
    | Fail(t: nat)
    | Clean(t: nat, d: Dispatcher)

  predicate Enabled(s: State, a: Action) {
    match a
    case BeginLookup(t, _) => t !in s.threads
    case BeginShutdown(t) => t !in s.threads
    case Advance(t) =>
      t in s.threads
      && var pc := s.threads[t].pc;
         !pc.Finished() && (pc.Waiting? || pc.Closing? ==> s.owner.Free?) && (pc.Cleaning? ==> pc.todo == {})
    case Fail(t) => t in s.threads && s.threads[t].pc.Building?
    case Clean(t, d) => t in s.threads && s.threads[t].pc.Cleaning? && d in s.threads[t].pc.todo
  }

  predicate Stepping(s: State, a: Action) {
    a.Advance? && a.t in s.threads
  }

  /** Where the acting call goes next. */
  function NextPc(s: State, a: Action): Pc
    requires Enabled(s, a)
  {
    match a
    case BeginLookup(_, m) => Reading(m)
    case BeginShutdown(_) => Closing
    case Fail(_) => Raising
    case Clean(t, d) => s.threads[t].pc.(todo := s.threads[t].pc.todo - {d})
    case Advance(t) =>
      match s.threads[t].pc
      case Reading(m) => if m in s.registry then Returned(m, s.registry[m]) else Waiting(m)
      case Waiting(m) => Checking(m)
      case Checking(m) => if m in s.registry then Leaving(m, s.registry[m]) else Building(m)
      case Building(m) => Storing(m, Dispatcher(m, |s.taken|, |s.created|))
      case Storing(m, d) => Leaving(m, d)
      case Leaving(m, d) => Returned(m, d)
      case Raising => Raised
      case Closing => Copying
      case Copying => Clearing(Entries(s.registry))
      case Clearing(copy) => Unlocking(|s.taken|, copy)
      case Unlocking(n, todo) => Cleaning(n, todo)
      case Cleaning(n, _) => Closed(n)
  }

  function NextRegistry(s: State, a: Action): map<bool, Dispatcher> {
    if Stepping(s, a) && s.threads[a.t].pc.Storing? then
      s.registry[s.threads[a.t].pc.celery := s.threads[a.t].pc.built]
    else if Stepping(s, a) && s.threads[a.t].pc.Clearing? then map[]
    else s.registry
  }

  function NextOwner(s: State, a: Action): Owner {
    if Stepping(s, a) && (s.threads[a.t].pc.Waiting? || s.threads[a.t].pc.Closing?) then HeldBy(a.t)
    else if Stepping(s, a) && (s.threads[a.t].pc.Leaving? || s.threads[a.t].pc.Raising? || s.threads[a.t].pc.Unlocking?)
    then Free
    else s.owner
  }

  function NextCreated(s: State, a: Action): seq<Dispatcher> {
    if Stepping(s, a) && s.threads[a.t].pc.Building?
    then s.created + [Dispatcher(s.threads[a.t].pc.celery, |s.taken|, |s.created|)]
    else s.created
  }

  function NextInFlight(s: State, a: Action): set<Dispatcher> {
    if Stepping(s, a) && s.threads[a.t].pc.Building?
    then {Dispatcher(s.threads[a.t].pc.celery, |s.taken|, |s.created|)}
    else if Stepping(s, a) && s.threads[a.t].pc.Storing? then {}
    else s.inFlight
  }

  function NextTaken(s: State, a: Action): seq<Take> {
    if Stepping(s, a) && s.threads[a.t].pc.Clearing? then s.taken + [Take(a.t, s.threads[a.t].pc.copy)] else s.taken
  }

  function NextCleaned(s: State, a: Action): multiset<Dispatcher> {
    if a.Clean? then s.cleaned + multiset{a.d} else s.cleaned
  }

  function Apply(s: State, a: Action): State
    requires Enabled(s, a)
  {
    var begun := if a.t in s.threads then s.threads[a.t].begun else s.clock;
    State(s.clock + 1, NextRegistry(s, a), NextOwner(s, a), s.threads[a.t := Thread(begun, NextPc(s, a))],
          NextCreated(s, a), NextInFlight(s, a), NextTaken(s, a), NextCleaned(s, a))
  }

  /** Everything that has happened, the latest action outermost. */
  datatype Trace = Begin | Do(before: Trace, action: Action)

  ghost predicate Possible(tr: Trace)
    decreases tr, 0
  {
    tr.Do? ==> Possible(tr.before) && Enabled(After(tr.before), tr.action)
  }

  ghost function After(tr: Trace): State
    requires Possible(tr)
    decreases tr, 1
  {
    match tr
    case Begin => INITIAL
    case Do(b, a) => Apply(After(b), a)
  }

  // ---------------------------------------------------------------- the inductive invariant

  ghost predicate LockDiscipline(s: State) {
    && (s.owner.HeldBy? ==> s.owner.thread in s.threads)
    && (forall t :: t in s.threads ==> (s.threads[t].pc.HoldsLock() <==> s.owner == HeldBy(t)))
    && (s.inFlight != {} ==> s.owner.HeldBy? && s.threads[s.owner.thread].pc.Storing?)
  }

  /** Every dispatcher has one place: taken by the shutdown of its epoch, in the registry, or in flight. */
  ghost predicate Placed(registry: map<bool, Dispatcher>, inFlight: set<Dispatcher>, taken: seq<Take>, d: Dispatcher) {
    if d.epoch < |taken| then d in taken[d.epoch].removed
    else d.epoch == |taken| && (d in Entries(registry) || d in inFlight)
  }

  ghost predicate Books(registry: map<bool, Dispatcher>, created: seq<Dispatcher>, inFlight: set<Dispatcher>,
                        taken: seq<Take>)
  {
    && (forall i :: 0 <= i < |created| ==> created[i].serial == i)
    && (forall d :: d in created ==> Placed(registry, inFlight, taken, d))
    && (forall m :: m in registry ==> registry[m].celery == m && registry[m].epoch == |taken| && registry[m] in created)
    && (forall d :: d in inFlight ==> d.epoch == |taken| && d in created && d.celery !in registry && inFlight == {d})
    && (forall n, d :: 0 <= n < |taken| && d in taken[n].removed ==> d.epoch == n && d in created)
    && (forall d, e :: d in created && e in created && d.celery == e.celery && d.epoch == e.epoch ==> d == e)
  }

  /** Where a call stands in the lookup, and what it knows there. */
  ghost predicate LookupStanding(registry: map<bool, Dispatcher>, created: seq<Dispatcher>,
                                 inFlight: set<Dispatcher>, pc: Pc)
  {
    && (pc.Building? ==> pc.celery !in registry && inFlight == {})
    && (pc.Storing? ==> pc.celery == pc.built.celery && inFlight == {pc.built})
    && (pc.Leaving? || pc.Returned? ==> pc.celery == pc.found.celery && pc.found in created)
    && (pc.Clearing? ==> pc.copy == Entries(registry) && inFlight == {})
  }

  ghost predicate OwnsTake(taken: seq<Take>, t: nat, n: nat) {
    n < |taken| && taken[n].thread == t
  }

  ghost predicate ShutdownStanding(taken: seq<Take>, cleaned: multiset<Dispatcher>, t: nat, pc: Pc) {
    && (pc.Unlocking? || pc.Cleaning? || pc.Closed? ==> OwnsTake(taken, t, pc.shutdown))
    && (pc.Unlocking? || pc.Cleaning? ==>
          pc.todo <= taken[pc.shutdown].removed
          && forall d :: d in taken[pc.shutdown].removed ==> cleaned[d] == if d in pc.todo then 0 else 1)
    && (pc.Closed? ==> forall d :: d in taken[pc.shutdown].removed ==> cleaned[d] == 1)
  }

  ghost predicate TakesOwned(threads: map<nat, Thread>, taken: seq<Take>) {
    forall n :: 0 <= n < |taken| ==>
      taken[n].thread in threads
      && var pc := threads[taken[n].thread].pc;
         (pc.Unlocking? || pc.Cleaning? || pc.Closed?) && pc.shutdown == n
  }

  ghost predicate OnlyTakenCleaned(taken: seq<Take>, cleaned: multiset<Dispatcher>) {
    forall d :: d in cleaned ==> d.epoch < |taken| && d in taken[d.epoch].removed
  }

  ghost predicate Inv(s: State) {
    && LockDiscipline(s)
    && Books(s.registry, s.created, s.inFlight, s.taken)
    && TakesOwned(s.threads, s.taken)
    && OnlyTakenCleaned(s.taken, s.cleaned)
    && (forall t :: t in s.threads ==> LookupStanding(s.registry, s.created, s.inFlight, s.threads[t].pc))
    && (forall t :: t in s.threads ==> ShutdownStanding(s.taken, s.cleaned, t, s.threads[t].pc))
  }

  lemma StepKeepsLock(s: State, a: Action)
    requires LockDiscipline(s) && Enabled(s, a)
    ensures LockDiscipline(Apply(s, a))
  {
  }

  lemma BuildKeepsBooks(registry: map<bool, Dispatcher>, created: seq<Dispatcher>, taken: seq<Take>, m: bool)
    requires Books(registry, created, {}, taken) && m !in registry
    ensures var d := Dispatcher(m, |taken|, |created|);
            Books(registry, created + [d], {d}, taken)
  {
    var d := Dispatcher(m, |taken|, |created|);
    assert forall e :: e in created + [d] <==> e in created || e == d;
    assert forall e :: e in created && e.epoch == |taken| ==> e in Entries(registry);
  }

  lemma StoreKeepsBooks(registry: map<bool, Dispatcher>, created: seq<Dispatcher>, taken: seq<Take>, d: Dispatcher)
    requires Books(registry, created, {d}, taken)
    ensures Books(registry[d.celery := d], created, {}, taken)
  {
    var registry' := registry[d.celery := d];
    assert d in {d} && registry'[d.celery] == d;
    forall m | m in registry
      ensures registry[m] in Entries(registry')
    {
      assert registry'[m] == registry[m];
    }
  }

  lemma ClearKeepsBooks(registry: map<bool, Dispatcher>, created: seq<Dispatcher>, taken: seq<Take>, t: nat)
    requires Books(registry, created, {}, taken)
    ensures Books(map[], created, {}, taken + [Take(t, Entries(registry))])
  {
  }

  lemma StepKeepsBooks(s: State, a: Action)
    requires Inv(s) && Enabled(s, a)
    ensures var s' := Apply(s, a);
            Books(s'.registry, s'.created, s'.inFlight, s'.taken)
  {
    if a.Advance? {
      var pc := s.threads[a.t].pc;
      if pc.Building? {
        BuildKeepsBooks(s.registry, s.created, s.taken, pc.celery);
      } else if pc.Storing? {
        StoreKeepsBooks(s.registry, s.created, s.taken, pc.built);
      } else if pc.Clearing? {
        ClearKeepsBooks(s.registry, s.created, s.taken, a.t);
      }
    }
  }

  lemma StepKeepsTakes(s: State, a: Action)
    requires Enabled(s, a) && TakesOwned(s.threads, s.taken)
    requires a.t in s.threads ==> ShutdownStanding(s.taken, s.cleaned, a.t, s.threads[a.t].pc)
    ensures TakesOwned(Apply(s, a).threads, NextTaken(s, a))
  {
  }

  lemma StepKeepsCleaned(s: State, a: Action)
    requires Inv(s) && Enabled(s, a)
    ensures OnlyTakenCleaned(NextTaken(s, a), NextCleaned(s, a))
  {
    if a.Clean? {
      assert ShutdownStanding(s.taken, s.cleaned, a.t, s.threads[a.t].pc);
    }
  }

  lemma ActorKeepsLookup(s: State, a: Action)
    requires Enabled(s, a) && LockDiscipline(s) && Books(s.registry, s.created, s.inFlight, s.taken)
    requires a.t in s.threads ==> LookupStanding(s.registry, s.created, s.inFlight, s.threads[a.t].pc)
    ensures LookupStanding(NextRegistry(s, a), NextCreated(s, a), NextInFlight(s, a), NextPc(s, a))
  {
  }

  lemma BystanderKeepsLookup(s: State, a: Action, t: nat)
    requires Inv(s) && Enabled(s, a) && t in s.threads && t != a.t
    ensures LookupStanding(NextRegistry(s, a), NextCreated(s, a), NextInFlight(s, a), s.threads[t].pc)
  {
    assert LookupStanding(s.registry, s.created, s.inFlight, s.threads[t].pc);
    if Stepping(s, a) && s.threads[a.t].pc.HoldsLock() {
      assert !s.threads[t].pc.HoldsLock();
    }
  }

  lemma ClearedAreNotCleaned(registry: map<bool, Dispatcher>, created: seq<Dispatcher>, taken: seq<Take>,
                             cleaned: multiset<Dispatcher>, t: nat)
    requires Books(registry, created, {}, taken) && OnlyTakenCleaned(taken, cleaned)
    ensures ShutdownStanding(taken + [Take(t, Entries(registry))], cleaned, t, Unlocking(|taken|, Entries(registry)))
  {
  }

  lemma ActorKeepsShutdown(s: State, a: Action)
    requires Enabled(s, a) && (Stepping(s, a) ==> !s.threads[a.t].pc.Clearing?)
    requires a.t in s.threads ==> ShutdownStanding(s.taken, s.cleaned, a.t, s.threads[a.t].pc)
    ensures ShutdownStanding(NextTaken(s, a), NextCleaned(s, a), a.t, NextPc(s, a))
  {
  }

  lemma BystanderKeepsShutdown(s: State, a: Action, t: nat)
    requires Inv(s) && Enabled(s, a) && t in s.threads && t != a.t
    ensures ShutdownStanding(NextTaken(s, a), NextCleaned(s, a), t, s.threads[t].pc)
  {
    assert ShutdownStanding(s.taken, s.cleaned, t, s.threads[t].pc);
    if a.Clean? {
      assert ShutdownStanding(s.taken, s.cleaned, a.t, s.threads[a.t].pc);
    }
  }

  lemma StepKeepsInv(s: State, a: Action)
    requires Inv(s) && Enabled(s, a)
    ensures Inv(Apply(s, a))
  {
    StepKeepsLock(s, a);
    StepKeepsBooks(s, a);
    StepKeepsTakes(s, a);
    StepKeepsCleaned(s, a);
    var s' := Apply(s, a);
    forall t | t in s'.threads
      ensures LookupStanding(s'.registry, s'.created, s'.inFlight, s'.threads[t].pc)
      ensures ShutdownStanding(s'.taken, s'.cleaned, t, s'.threads[t].pc)
    {
      if t == a.t {
        ActorKeepsLookup(s, a);
        if Stepping(s, a) && s.threads[t].pc.Clearing? {
          assert LookupStanding(s.registry, s.created, s.inFlight, s.threads[t].pc);
          ClearedAreNotCleaned(s.registry, s.created, s.taken, s.cleaned, t);
        } else {
          ActorKeepsShutdown(s, a);
        }
      } else {
        BystanderKeepsLookup(s, a, t);
        BystanderKeepsShutdown(s, a, t);
      }
    }
  }

  // ---------------------------------------------------------------- what every interleaving keeps

  lemma {:induction false} Reachable(tr: Trace)
    requires Possible(tr)
    ensures Inv(After(tr))
    ensures forall t :: t in After(tr).threads ==> After(tr).threads[t].begun < After(tr).clock
  {
    if tr.Do? {
      Reachable(tr.before);
      StepKeepsInv(After(tr.before), tr.action);
    }
  }

  ghost function AllTaken(taken: seq<Take>): set<Dispatcher> {
    if taken == [] then {} else AllTaken(taken[..|taken| - 1]) + taken[|taken| - 1].removed
  }

  lemma {:induction false} AllTakenIsUnion(taken: seq<Take>, d: Dispatcher)
    ensures d in AllTaken(taken) <==> exists n :: 0 <= n < |taken| && d in taken[n].removed
  {
    if taken != [] {
      var rest := taken[..|taken| - 1];
      AllTakenIsUnion(rest, d);
      assert forall n :: 0 <= n < |rest| ==> taken[n] == rest[n];
    }
  }

  lemma BooksPartition(registry: map<bool, Dispatcher>, created: seq<Dispatcher>, inFlight: set<Dispatcher>,
                       taken: seq<Take>)
    requires Books(registry, created, inFlight, taken)
    ensures (set d | d in created) == Entries(registry) + inFlight + AllTaken(taken)
    ensures Entries(registry) !! inFlight !! AllTaken(taken)
  {
    forall d
      ensures d in created <==> d in Entries(registry) + inFlight + AllTaken(taken)
      ensures d in AllTaken(taken) ==> d.epoch < |taken|
    {
      AllTakenIsUnion(taken, d);
    }
  }

  lemma TakesApart(registry: map<bool, Dispatcher>, created: seq<Dispatcher>, inFlight: set<Dispatcher>,
                   taken: seq<Take>)
    requires Books(registry, created, inFlight, taken)
    ensures forall i, j :: 0 <= i < j < |taken| ==> taken[i].removed !! taken[j].removed
    ensures forall d, e :: d in inFlight && e in inFlight ==> d == e
  {
    forall i, j | 0 <= i < j < |taken|
      ensures taken[i].removed !! taken[j].removed
    {
      assert forall d :: d in taken[i].removed ==> d.epoch == i;
      assert forall d :: d in taken[j].removed ==> d.epoch == j;
    }
  }

  /** Conservation: the dispatchers ever created are those in the registry, the one in flight, and
      those removed by shutdowns, and no dispatcher is in two of these places or removed twice. */
  ghost predicate Accounted(s: State) {
    && (set d | d in s.created) == Entries(s.registry) + s.inFlight + AllTaken(s.taken)
    && Entries(s.registry) !! s.inFlight !! AllTaken(s.taken)
    && (forall d, e :: d in s.inFlight && e in s.inFlight ==> d == e)
    && (forall i, j :: 0 <= i < j < |s.taken| ==> s.taken[i].removed !! s.taken[j].removed)
  }

  lemma InvIsAccounted(s: State)
    requires Inv(s)
    ensures Accounted(s)
  {
    BooksPartition(s.registry, s.created, s.inFlight, s.taken);
    TakesApart(s.registry, s.created, s.inFlight, s.taken);
  }

  /** Every reachable state is accounted for. */
  lemma CreatedIsAccountedFor(tr: Trace)
    requires Possible(tr)
    ensures Accounted(After(tr))
  {
    Reachable(tr);
    InvIsAccounted(After(tr));
  }

  /** Between two consecutive clears at most one dispatcher per mode is ever built: two built
      after the same number of clears for the same mode are the same object. */
  lemma OnePerModeAndEpoch(tr: Trace, i: nat, j: nat)
    requires Possible(tr) && i < j < |After(tr).created|
    requires After(tr).created[i].celery == After(tr).created[j].celery
    ensures After(tr).created[i].epoch != After(tr).created[j].epoch
  {
    Reachable(tr);
    var s := After(tr);
    assert s.created[i] in s.created && s.created[j] in s.created;
    assert s.created[i].serial == i && s.created[j].serial == j;
  }

  /** A lookup that finds its mode registered returns at once, whoever holds the lock. */
  lemma RegisteredReturnsAtOnce(s: State, t: nat, m: bool)
    requires t in s.threads && s.threads[t].pc == Reading(m) && m in s.registry
    ensures Enabled(s, Advance(t)) && Apply(s, Advance(t)).threads[t].pc == Returned(m, s.registry[m])
    ensures Apply(s, Advance(t)).owner == s.owner
  {
  }

  ghost predicate IsPrefix(p: Trace, tr: Trace) {
    p == tr || (tr.Do? && IsPrefix(p, tr.before))
  }

  predicate Found(pc: Pc) {
    pc.Leaving? || pc.Returned?
  }

  predicate Shared(s: State, pc: Pc)
    requires Found(pc)
  {
    pc.celery in s.registry && s.registry[pc.celery] == pc.found
  }

  lemma FoundInStep(s: State, a: Action, t: nat)
    requires Enabled(s, a) && t in Apply(s, a).threads && Found(Apply(s, a).threads[t].pc)
    ensures t in s.threads && s.threads[t].begun == Apply(s, a).threads[t].begun
    ensures var pc := Apply(s, a).threads[t].pc;
            Shared(Apply(s, a), pc) || Shared(s, pc)
            || (Found(s.threads[t].pc) && s.threads[t].pc.celery == pc.celery && s.threads[t].pc.found == pc.found)
  {
  }

  /** A returned dispatcher serves the requested mode and was in the registry at some instant
      of the very call that returns it. */
  lemma {:induction false} ReturnedWasShared(tr: Trace, t: nat) returns (p: Trace)
    requires Possible(tr) && t in After(tr).threads && Found(After(tr).threads[t].pc)
    ensures IsPrefix(p, tr) && Possible(p)
    ensures After(tr).threads[t].begun < After(p).clock <= After(tr).clock
    ensures Shared(After(p), After(tr).threads[t].pc)
  {
    Reachable(tr);
    Reachable(tr.before);
    FoundInStep(After(tr.before), tr.action, t);
    var pc := After(tr).threads[t].pc;
    if Shared(After(tr), pc) {
      p := tr;
    } else if Shared(After(tr.before), pc) {
      p := tr.before;
    } else {
      p := ReturnedWasShared(tr.before, t);
    }
  }

  /** When no call holds the lock, a dispatcher is registered or was removed by its epoch's shutdown. */
  lemma PlacedAtRest(s: State, d: Dispatcher)
    requires Books(s.registry, s.created, {}, s.taken) && d in s.created
    ensures if d.epoch < |s.taken| then d in s.taken[d.epoch].removed && d !in Entries(s.registry)
            else d in Entries(s.registry)
  {
  }

  lemma RegisteredNotCleaned(s: State, d: Dispatcher)
    requires OnlyTakenCleaned(s.taken, s.cleaned) && d.epoch >= |s.taken|
    ensures s.cleaned[d] == 0
  {
    assert d !in s.cleaned;
  }

  /** When every call has finished, each dispatcher ever built is either still in the registry,
      never cleaned up, or was cleaned up exactly once; the latter exactly when some clear came
      after it was built. */
  lemma NothingEscapesCleanup(tr: Trace, d: Dispatcher)
    requires Possible(tr) && d in After(tr).created
    requires forall t :: t in After(tr).threads ==> After(tr).threads[t].pc.Finished()
    ensures var s := After(tr);
            && (if d in Entries(s.registry) then s.cleaned[d] == 0 else s.cleaned[d] == 1)
            && (s.cleaned[d] == 1 <==> d.epoch < |s.taken|)
  {
    Reachable(tr);
    AtRest(After(tr), d);
  }

  lemma AtRest(s: State, d: Dispatcher)
    requires Inv(s) && d in s.created && forall t :: t in s.threads ==> s.threads[t].pc.Finished()
    ensures if d in Entries(s.registry) then s.cleaned[d] == 0 else s.cleaned[d] == 1
    ensures s.cleaned[d] == 1 <==> d.epoch < |s.taken|
  {
    NobodyHoldsLock(s);
    PlacedAtRest(s, d);
    if d.epoch >= |s.taken| {
      RegisteredNotCleaned(s, d);
    }
  }

  lemma NobodyHoldsLock(s: State)
    requires LockDiscipline(s) && forall t :: t in s.threads ==> s.threads[t].pc.Finished()
    ensures s.owner.Free? && s.inFlight == {}
  {
  }

  // ---------------------------------------------------------------- clean-up and progress

  /** At every instant a dispatcher has been cleaned up at most once, and only after removal. */
  lemma CleanedAtMostOnce(tr: Trace, d: Dispatcher)
    requires Possible(tr) && d in After(tr).cleaned
    ensures After(tr).cleaned[d] == 1 && d in AllTaken(After(tr).taken)
  {
    Reachable(tr);
    var s := After(tr);
    AllTakenIsUnion(s.taken, d);
    var t := s.taken[d.epoch].thread;
    assert ShutdownStanding(s.taken, s.cleaned, t, s.threads[t].pc);
  }

  /** No deadlock: while some call is unfinished, some started call can take a step. */
  lemma NeverStuck(tr: Trace, t: nat) returns (a: Action)
    requires Possible(tr) && t in After(tr).threads && !After(tr).threads[t].pc.Finished()
    ensures a.t in After(tr).threads && Enabled(After(tr), a)
  {
    Reachable(tr);
    var s := After(tr);
    var pc := s.threads[t].pc;
    if pc.Cleaning? && pc.todo != {} {
      var d :| d in pc.todo;
      a := Clean(t, d);
    } else if (pc.Waiting? || pc.Closing?) && s.owner.HeldBy? {
      a := Advance(s.owner.thread);
    } else {
      a := Advance(t);
    }
  }

  /** An upper bound on the steps a call still has to take. */
  ghost function StepsLeft(pc: Pc): nat {
    match pc
    case Reading(_) => 6
    case Waiting(_) => 5
    case Checking(_) => 4
    case Building(_) => 3
    case Storing(_, _) => 2
    case Leaving(_, _) => 1
    case Raising => 1
    case Closing => 7
    case Copying => 6
    case Clearing(_) => 5
    case Unlocking(_, todo) => 2 + |todo|
    case Cleaning(_, todo) => 1 + |todo|
    case _ => 0
  }

  lemma StepShortens(s: State, a: Action)
    requires Enabled(s, a) && a.t in s.threads
    requires s.threads[a.t].pc.Clearing? ==> |s.threads[a.t].pc.copy| <= 2
    ensures StepsLeft(NextPc(s, a)) < StepsLeft(s.threads[a.t].pc)
  {
    match a
    case Advance(t) => AdvanceShortens(s, t, s.threads[t].pc);
    case Clean(t, d) => TodoShrinks(s.threads[t].pc.todo, d);
    case Fail(t) =>
  }

  lemma AdvanceShortens(s: State, t: nat, pc: Pc)
    requires Enabled(s, Advance(t)) && pc == s.threads[t].pc && (pc.Clearing? ==> |pc.copy| <= 2)
    ensures StepsLeft(NextPc(s, Advance(t))) < StepsLeft(pc)
  {
  }

  lemma TodoShrinks(todo: set<Dispatcher>, d: Dispatcher)
    requires d in todo
    ensures |todo - {d}| < |todo|
  {
    assert todo == (todo - {d}) + {d};
  }

  /** Every step of a started call brings it closer to its end, so with `NeverStuck` every
      interleaving that keeps going finishes every call. */
  lemma StepsRunOut(tr: Trace, a: Action)
    requires Possible(tr) && Enabled(After(tr), a) && a.t in After(tr).threads
    ensures StepsLeft(Apply(After(tr), a).threads[a.t].pc) < StepsLeft(After(tr).threads[a.t].pc)
  {
    Reachable(tr);
    var s := After(tr);
    assert LookupStanding(s.registry, s.created, s.inFlight, s.threads[a.t].pc);
    EntriesSize(s.registry);
    StepShortens(s, a);
  }

  lemma EntriesSize(registry: map<bool, Dispatcher>)
    ensures |Entries(registry)| <= 2
  {
    var one := if true in registry then {registry[true]} else {};
    var two := if false in registry then {registry[false]} else {};
    assert |one| <= 1 && |two| <= 1 && |one + two| <= |one| + |two|;
  }
}
