/** The run lifecycle: the table of allowed status changes and the completion time that follows it. */
module CrawlLifecycle {
  import opened Text

  datatype CrawlStatus = Pending | Running | Paused | Completed | Killed | Failed | ProxyExhausted

  /** A status as callers and the database give it: an enum member or free text. */
  datatype RawStatus = Member(status: CrawlStatus) | Free(text: string)

  function StatusText(s: CrawlStatus): string {
    match s
    case Pending => "pending"
    case Running => "running"
    case Paused => "paused"
    case Completed => "completed"
    case Killed => "killed"
    case Failed => "failed"
    case ProxyExhausted => "proxy_exhausted"
  }

  predicate Terminal(s: CrawlStatus) {
    s in {Completed, Killed, Failed, ProxyExhausted}
  }

  predicate Allowed(current: CrawlStatus, target: CrawlStatus) {
    match current
    case Pending => target in {Running, Killed}
    case Running => target in {Paused, Completed, Killed, Failed, ProxyExhausted}
    case Paused => target in {Running, Killed}
    case _ => false
  }

  /** `None` is the `ValueError` of an unknown status. */
  function NormalizeStatus(raw: RawStatus): Option<CrawlStatus> {
    match raw
    case Member(s) => Some(s)
    case Free(text) =>
      var t := StripLower(text);
      if t == "cancelled" then Some(Killed)
      else if t == "degraded" then Some(Failed)
      else if t == "pending" then Some(Pending)
      else if t == "running" then Some(Running)
      else if t == "paused" then Some(Paused)
      else if t == "completed" then Some(Completed)
      else if t == "killed" then Some(Killed)
      else if t == "failed" then Some(Failed)
      else if t == "proxy_exhausted" then Some(ProxyExhausted)
      else None
  }

  function Transition(current: RawStatus, target: RawStatus): Option<CrawlStatus> {
    match (NormalizeStatus(current), NormalizeStatus(target))
    case (Some(c), Some(t)) => if c == t || Allowed(c, t) then Some(t) else None
    case _ => None
  }

  /** The two columns a status change writes. */
  datatype Columns = Columns(status: string, completedAt: Option<real>)

  const NEW := Columns("pending", None)

  /** `None` when the change is rejected. */
  function SetStatus(r: Columns, target: RawStatus, now: real): Option<Columns> {
    match Transition(Free(r.status), target)
    case None => None
    case Some(t) =>
      Some(Columns(StatusText(t),
                   if !Terminal(t) then None else if r.completedAt.Some? then r.completedAt else Some(now)))
  }

  class CrawlRun {
    var status: string
    var completedAt: Option<real>

    constructor ()
      ensures Columns(status, completedAt) == NEW
    {
      status, completedAt := "pending", None;
    }

    /** Writes exactly the specified columns; a rejected change writes nothing. */
    method Set(target: RawStatus, now: real) returns (next: Option<CrawlStatus>)
      modifies this
      ensures next == Transition(Free(old(status)), target)
      ensures var after := SetStatus(old(Columns(status, completedAt)), target, now);
              if after.None? then unchanged(this) else Columns(status, completedAt) == after.value
    {
      next := Transition(Free(status), target);
      if next.None? {
        return;
      }
      status := StatusText(next.value);
      if Terminal(next.value) {
        if completedAt.None? {
          completedAt := Some(now);
        }
      } else {
        if completedAt.Some? {
          completedAt := None;
        }
      }
    }
  }

  // ---------------------------------------------------------------- every sequence of changes

  datatype Change = Change(target: RawStatus, now: real)

  function Play(changes: seq<Change>): Columns {
    if changes == [] then NEW
    else
      var r, c := Play(changes[..|changes| - 1]), changes[|changes| - 1];
      match SetStatus(r, c.target, c.now)
      case None => r
      case Some(after) => after
  }

  /** The life of a run in terms of statuses alone. */
  function StatusAfter(changes: seq<Change>): CrawlStatus {
    if changes == [] then Pending
    else
      var p := StatusAfter(changes[..|changes| - 1]);
      match NormalizeStatus(changes[|changes| - 1].target)
      case None => p
      case Some(t) => if Allowed(p, t) then t else p
  }

  lemma StatusTextReads(s: CrawlStatus)
    ensures NormalizeStatus(Free(StatusText(s))) == Some(s)
  {
    var t := StatusText(s);
    assert Stripped(t) && Lower(t) == t;
    StripStrips(t);
  }

  /** Over every sequence of changes, rejected ones included, the stored text is the status reached,
      and the completion time is set exactly when that status is terminal. */
  lemma {:induction false} CompletedExactlyWhenTerminal(changes: seq<Change>)
    ensures Play(changes).status == StatusText(StatusAfter(changes))
    ensures Play(changes).completedAt.Some? <==> Terminal(StatusAfter(changes))
  {
    if changes != [] {
      var before := changes[..|changes| - 1];
      CompletedExactlyWhenTerminal(before);
      StatusTextReads(StatusAfter(before));
    }
  }

  /** Once a run is terminal no later change touches its status or completion time. */
  lemma {:induction false} TerminalIsFrozen(changes: seq<Change>, more: seq<Change>)
    requires Terminal(StatusAfter(changes))
    ensures Play(changes + more) == Play(changes) && StatusAfter(changes + more) == StatusAfter(changes)
  {
    if more == [] {
      assert changes + more == changes;
    } else {
      var most := more[..|more| - 1];
      TerminalIsFrozen(changes, most);
      assert (changes + more)[..|changes + more| - 1] == changes + most;
      CompletedExactlyWhenTerminal(changes);
      StatusTextReads(StatusAfter(changes));
    }
  }

  /** A run that is paused, completed, failed or out of proxies was running after some earlier change. */
  lemma {:induction false} RunningCameFirst(changes: seq<Change>) returns (k: nat)
    requires StatusAfter(changes) in {Paused, Completed, Failed, ProxyExhausted}
    ensures k < |changes| && StatusAfter(changes[..k]) == Running
  {
    var before := changes[..|changes| - 1];
    if StatusAfter(before) == Running {
      k := |before|;
    } else {
      k := RunningCameFirst(before);
      assert changes[..k] == before[..k];
    }
  }
}
