/** An interleaving of the dispatcher registry that leaves a dispatcher behind. */
module DispatchersLeftBehind {
  import opened Dispatchers

  /** `s'` is `s` one action later, with call `t` at `pc`; the named parts are as given. */
  ghost predicate Became(s: State, s': State, t: nat, begun: nat, pc: Pc, owner: Owner, registry: map<bool, Dispatcher>)
  {
    && s'.threads == s.threads[t := Thread(begun, pc)] && s'.clock == s.clock + 1
    && s'.owner == owner && s'.registry == registry && s'.cleaned == s.cleaned
  }

  /** The steps that change nothing but where a call stands and who holds the lock. */
  predicate Moves(registry: map<bool, Dispatcher>, before: Owner, t: nat, from: Pc, to: Pc, after: Owner) {
    match from
    case Reading(m) => m !in registry && to == Waiting(m) && after == before
    case Waiting(m) => before.Free? && to == Checking(m) && after == HeldBy(t)
    case Checking(m) => m !in registry && to == Building(m) && after == before
    case Leaving(m, d) => to == Returned(m, d) && after == Free
    case Closing => before.Free? && to == Copying && after == HeldBy(t)
    case Copying => to == Clearing(Entries(registry)) && after == before
    case Unlocking(n, todo) => to == Cleaning(n, todo) && after == Free
    case Cleaning(n, todo) => todo == {} && to == Closed(n) && after == before
    case _ => false
  }

  lemma Advances(tr: Trace, t: nat, begun: nat, from: Pc, to: Pc, after: Owner) returns (next: Trace)
    requires Possible(tr) && t in After(tr).threads && After(tr).threads[t] == Thread(begun, from)
    requires Moves(After(tr).registry, After(tr).owner, t, from, to, after)
    ensures Possible(next)
    ensures var s, s' := After(tr), After(next);
            && Became(s, s', t, begun, to, after, s.registry) && s'.created == s.created && s'.taken == s.taken
  {
    next := Do(tr, Advance(t));
  }

  lemma MovedTwice(threads: map<nat, Thread>, t: nat, mid: Thread, to: Thread)
    ensures threads[t := mid][t := to] == threads[t := to]
  {
  }

  lemma AdvancesTwice(tr: Trace, t: nat, begun: nat, from: Pc, mid: Pc, to: Pc, between: Owner, after: Owner)
    returns (next: Trace)
    requires Possible(tr) && t in After(tr).threads && After(tr).threads[t] == Thread(begun, from)
    requires Moves(After(tr).registry, After(tr).owner, t, from, mid, between)
    requires Moves(After(tr).registry, between, t, mid, to, after)
    ensures Possible(next)
    ensures var s, s' := After(tr), After(next);
            && s'.threads == s.threads[t := Thread(begun, to)] && s'.owner == after && s'.registry == s.registry
            && s'.cleaned == s.cleaned && s'.created == s.created && s'.taken == s.taken
  {
    MovedTwice(After(tr).threads, t, Thread(begun, mid), Thread(begun, to));
    var once := Advances(tr, t, begun, from, mid, between);
    next := Advances(once, t, begun, mid, to, after);
  }

  lemma Builds(tr: Trace, t: nat, m: bool) returns (next: Trace)
    requires Possible(tr) && t in After(tr).threads && After(tr).threads[t].pc == Building(m)
    ensures Possible(next)
    ensures var s, s' := After(tr), After(next);
            var d := Dispatcher(m, |s.taken|, |s.created|);
            && Became(s, s', t, s.threads[t].begun, Storing(m, d), s.owner, s.registry)
            && s'.created == s.created + [d] && s'.taken == s.taken
  {
    next := Do(tr, Advance(t));
  }

  lemma Stores(tr: Trace, t: nat, m: bool, d: Dispatcher) returns (next: Trace)
    requires Possible(tr) && t in After(tr).threads && After(tr).threads[t].pc == Storing(m, d)
    ensures Possible(next)
    ensures var s, s' := After(tr), After(next);
            && Became(s, s', t, s.threads[t].begun, Leaving(m, d), s.owner, s.registry[m := d])
            && s'.created == s.created && s'.taken == s.taken
  {
    next := Do(tr, Advance(t));
  }

  lemma Clears(tr: Trace, t: nat, copy: set<Dispatcher>) returns (next: Trace)
    requires Possible(tr) && t in After(tr).threads && After(tr).threads[t].pc == Clearing(copy)
    ensures Possible(next)
    ensures var s, s' := After(tr), After(next);
            && Became(s, s', t, s.threads[t].begun, Unlocking(|s.taken|, copy), s.owner, map[])
            && s'.created == s.created && s'.taken == s.taken + [Take(t, copy)]
  {
    next := Do(tr, Advance(t));
  }

  lemma Begins(tr: Trace, a: Action) returns (next: Trace)
    requires Possible(tr) && Enabled(After(tr), a) && (a.BeginLookup? || a.BeginShutdown?)
    ensures Possible(next)
    ensures var s, s' := After(tr), After(next);
            && Became(s, s', a.t, s.clock, NextPc(s, a), s.owner, s.registry)
            && s'.created == s.created && s'.taken == s.taken
  {
    next := Do(tr, a);
  }

  /** From an empty registry, a call that may build builds and stores. */
  lemma BuildsAndStores(tr: Trace, t: nat, begun: nat, m: bool) returns (next: Trace, d: Dispatcher)
    requires Possible(tr) && t in After(tr).threads && After(tr).threads[t] == Thread(begun, Building(m))
    requires After(tr).registry == map[]
    ensures Possible(next)
    ensures var s, s' := After(tr), After(next);
            && d in s'.created && s'.registry == map[m := d] && s'.cleaned == s.cleaned && s'.taken == s.taken
            && s'.threads == s.threads[t := Thread(begun, Leaving(m, d))]
  {
    d := Dispatcher(m, |After(tr).taken|, |After(tr).created|);
    MovedTwice(After(tr).threads, t, Thread(begun, Storing(m, d)), Thread(begun, Leaving(m, d)));
    var built := Builds(tr, t, m);
    assert d in After(built).created;
    next := Stores(built, t, m, d);
  }

  lemma BuildsAndReturns(tr: Trace, t: nat, begun: nat, m: bool) returns (next: Trace, d: Dispatcher)
    requires Possible(tr) && t in After(tr).threads && After(tr).threads[t] == Thread(begun, Building(m))
    requires After(tr).registry == map[]
    ensures Possible(next)
    ensures var s, s' := After(tr), After(next);
            && d in s'.created && s'.registry == map[m := d] && s'.cleaned == s.cleaned && s'.taken == s.taken
            && s'.threads == s.threads[t := Thread(begun, Returned(m, d))]
  {
    var stored;
    stored, d := BuildsAndStores(tr, t, begun, m);
    MovedTwice(After(tr).threads, t, Thread(begun, Leaving(m, d)), Thread(begun, Returned(m, d)));
    next := Advances(stored, t, begun, Leaving(m, d), Returned(m, d), Free);
  }

  /** A lookup that waits for a free lock while the registry is empty builds and stores a dispatcher. */
  lemma LookupBuilds(tr: Trace, t: nat, begun: nat, m: bool) returns (next: Trace, d: Dispatcher)
    requires Possible(tr) && t in After(tr).threads && After(tr).threads[t] == Thread(begun, Waiting(m))
    requires After(tr).owner.Free? && After(tr).registry == map[]
    ensures Possible(next)
    ensures var s, s' := After(tr), After(next);
            && d in s'.created && s'.registry == map[m := d] && s'.cleaned == s.cleaned && s'.taken == s.taken
            && s'.threads == s.threads[t := Thread(begun, Returned(m, d))]
  {
    var missed := AdvancesTwice(tr, t, begun, Waiting(m), Checking(m), Building(m), HeldBy(t), HeldBy(t));
    next, d := BuildsAndReturns(missed, t, begun, m);
    MovedTwice(After(tr).threads, t, Thread(begun, Building(m)), Thread(begun, Returned(m, d)));
  }

  /** A shutdown that has copied an empty registry clears it and ends. */
  lemma ClearsAndEnds(tr: Trace, t: nat, begun: nat) returns (next: Trace)
    requires Possible(tr) && t in After(tr).threads && After(tr).threads[t] == Thread(begun, Clearing({}))
    ensures Possible(next)
    ensures var s, s' := After(tr), After(next);
            && s'.owner.Free? && s'.registry == map[] && s'.cleaned == s.cleaned
            && s'.taken == s.taken + [Take(t, {})]
            && s'.threads == s.threads[t := Thread(begun, Closed(|s.taken|))]
  {
    ghost var n := |After(tr).taken|;
    MovedTwice(After(tr).threads, t, Thread(begun, Unlocking(n, {})), Thread(begun, Closed(n)));
    var cleared := Clears(tr, t, {});
    next := AdvancesTwice(cleared, t, begun, Unlocking(n, {}), Cleaning(n, {}), Closed(n), Free, Free);
  }

  lemma NoEntries()
    ensures Entries(map[]) == {}
  {
  }

  lemma LocksAndCopies(tr: Trace, t: nat) returns (next: Trace)
    requires Possible(tr) && t !in After(tr).threads && After(tr).owner.Free? && After(tr).registry == map[]
    ensures Possible(next)
    ensures var s, s' := After(tr), After(next);
            && s'.registry == map[] && s'.cleaned == s.cleaned && s'.taken == s.taken
            && s'.threads == s.threads[t := Thread(s.clock, Clearing({}))]
  {
    ghost var begun := After(tr).clock;
    var begins := Begins(tr, BeginShutdown(t));
    NoEntries();
    MovedTwice(After(tr).threads, t, Thread(begun, Closing), Thread(begun, Clearing({})));
    next := AdvancesTwice(begins, t, begun, Closing, Copying, Clearing({}), HeldBy(t), HeldBy(t));
  }

  /** A shutdown of an empty registry runs from start to end. */
  lemma ShutdownOfNothing(tr: Trace, t: nat) returns (next: Trace)
    requires Possible(tr) && t !in After(tr).threads && After(tr).owner.Free? && After(tr).registry == map[]
    ensures Possible(next)
    ensures var s, s' := After(tr), After(next);
            && s'.owner.Free? && s'.registry == map[] && s'.cleaned == s.cleaned
            && s'.taken == s.taken + [Take(t, {})]
            && s'.threads == s.threads[t := Thread(s.clock, Closed(|s.taken|))]
  {
    ghost var s := After(tr);
    var copied := LocksAndCopies(tr, t);
    MovedTwice(s.threads, t, Thread(s.clock, Clearing({})), Thread(s.clock, Closed(|s.taken|)));
    next := ClearsAndEnds(copied, t, s.clock);
  }

  lemma LookupMisses(m: bool) returns (next: Trace)
    ensures Possible(next)
    ensures var s := After(next);
            && s.threads == map[0 := Thread(0, Waiting(m))] && s.owner.Free? && s.registry == map[]
            && s.taken == [] && s.cleaned == multiset{}
  {
    var looked := Begins(Begin, BeginLookup(0, m));
    next := Advances(looked, 0, 0, Reading(m), Waiting(m), Free);
  }

  /** A lookup reads the empty registry, a whole shutdown goes by, then the lookup builds. All calls
      have ended, the shutdown removed nothing, and what was built is never cleaned up. */
  lemma LeftBehind(m: bool) returns (tr: Trace, d: Dispatcher)
    ensures Possible(tr) && After(tr).taken == [Take(1, {})]
    ensures d in After(tr).created && d in Entries(After(tr).registry) && After(tr).cleaned[d] == 0
    ensures forall t :: t in After(tr).threads ==> After(tr).threads[t].pc.Finished()
  {
    var missed := LookupMisses(m);
    var shut := ShutdownOfNothing(missed, 1);
    tr, d := LookupBuilds(shut, 0, 0, m);
  }
}
