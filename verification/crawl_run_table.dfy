/** The lifecycle table and the words of a status, written out, and when a run is completed. */
module CrawlLifecycleTable {
  import opened Text
  import opened CrawlLifecycle

  /** The status a word stands for, the older words included; any case and surrounding spaces do. */
  lemma WordsExactly(text: string, s: CrawlStatus)
    ensures NormalizeStatus(Free(text)) == Some(s)
       <==> var word := StripLower(text);
            (word == "pending" && s == Pending) || (word == "running" && s == Running)
            || (word == "paused" && s == Paused) || (word == "completed" && s == Completed)
            || ((word == "killed" || word == "cancelled") && s == Killed)
            || ((word == "failed" || word == "degraded") && s == Failed)
            || (word == "proxy_exhausted" && s == ProxyExhausted)
  {
    var word := StripLower(text);
    assert "pending"[0] == 'p' && "running"[0] == 'r' && "cancelled"[0] == 'c' && "killed"[0] == 'k';
    assert "failed"[0] == 'f' && "degraded"[0] == 'd' && "completed"[1] == 'o' && "cancelled"[1] == 'a';
    assert "pending"[1] == 'e' && "paused"[1] == 'a' && "proxy_exhausted"[1] == 'r';
  }

  /** The nine arrows of the table. */
  predicate IsMove(c: CrawlStatus, t: CrawlStatus) {
    || (c == Pending && (t == Running || t == Killed))
    || (c == Running && (t == Paused || t == Completed || t == Killed || t == Failed || t == ProxyExhausted))
    || (c == Paused && (t == Running || t == Killed))
  }

  /** A run moves exactly along these arrows, or stays where it is. */
  lemma MovesExactly(current: RawStatus, target: RawStatus)
    ensures var c, t := NormalizeStatus(current), NormalizeStatus(target);
            Transition(current, target)
            == if c.Some? && t.Some? && (c == t || IsMove(c.value, t.value)) then t else None
  {
    var c, t := NormalizeStatus(current), NormalizeStatus(target);
    if c.Some? && t.Some? {
      assert Allowed(c.value, t.value) <==> IsMove(c.value, t.value);
    }
  }

  /** Terminal are exactly the statuses without a way out. */
  lemma TerminalExactly(s: CrawlStatus)
    ensures Terminal(s) <==> forall t :: !IsMove(s, t)
  {
    if !Terminal(s) {
      assert IsMove(s, Killed);
    }
  }

  lemma Prefixes(all: seq<Change>, n: nat)
    requires n < |all|
    ensures all[..n + 1] == all[..n] + [all[n]]
  {
  }

  lemma CompletedNext(changes: seq<Change>, c: Change)
    requires !Terminal(StatusAfter(changes)) && Terminal(StatusAfter(changes + [c]))
    ensures Play(changes + [c]).completedAt == Some(c.now)
  {
    CompletedExactlyWhenTerminal(changes);
    CompletedExactlyWhenTerminal(changes + [c]);
    StatusTextReads(StatusAfter(changes));
    assert (changes + [c])[..|changes|] == changes;
  }

  /** The first change after which a run is terminal. */
  lemma {:induction false} FirstTerminal(all: seq<Change>, n: nat) returns (k: nat)
    requires n <= |all| && Terminal(StatusAfter(all[..n]))
    ensures k < n && !Terminal(StatusAfter(all[..k])) && Terminal(StatusAfter(all[..k + 1]))
  {
    assert StatusAfter(all[..0]) == Pending;
    if Terminal(StatusAfter(all[..n - 1])) {
      k := FirstTerminal(all, n - 1);
    } else {
      k := n - 1;
    }
  }

  /** The completion time is that of the one change that made the run terminal. */
  lemma CompletedWhenTerminal(changes: seq<Change>) returns (k: nat)
    requires Terminal(StatusAfter(changes))
    ensures k < |changes| && !Terminal(StatusAfter(changes[..k])) && Terminal(StatusAfter(changes[..k + 1]))
    ensures Play(changes).completedAt == Some(changes[k].now)
  {
    var n := |changes|;
    assert changes[..n] == changes;
    k := FirstTerminal(changes, n);
    Prefixes(changes, k);
    CompletedNext(changes[..k], changes[k]);
    assert changes == changes[..k + 1] + changes[k + 1..];
    TerminalIsFrozen(changes[..k + 1], changes[k + 1..]);
  }
}
