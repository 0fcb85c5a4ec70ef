/** The fail-open breaker in front of the shared Redis state: a failure switches Redis off for a
    cooldown, while operations already in flight may still fail later. */
module RedisBreaker {

  const COOLDOWN := 30.0

  datatype Breaker = Breaker(disabledUntil: real, lastLogAt: real, total: nat)

  const FRESH := Breaker(0.0, 0.0, 0)

  predicate IsEnabled(b: Breaker, switchedOn: bool, now: real) {
    switchedOn && now >= b.disabledUntil
  }

  predicate Warns(b: Breaker, now: real) {
    now - b.lastLogAt >= COOLDOWN
  }

  function Disable(b: Breaker, now: real): Breaker {
    Breaker(now + COOLDOWN, if Warns(b, now) then now else b.lastLogAt, b.total + 1)
  }

  class FailureState {
    var disabledUntil: real
    var lastLogAt: real
    var total: nat

    ghost function State(): Breaker
      reads this
    {
      Breaker(disabledUntil, lastLogAt, total)
    }

    constructor ()
      ensures State() == FRESH
    {
      disabledUntil, lastLogAt, total := 0.0, 0.0, 0;
    }

    method TemporarilyDisable(now: real) returns (warned: bool)
      modifies this
      ensures State() == Disable(old(State()), now) && warned == Warns(old(State()), now)
    {
      disabledUntil := now + COOLDOWN;
      total := total + 1;
      if now - lastLogAt >= COOLDOWN {
        lastLogAt := now;
        return true;
      }
      return false;
    }
  }

  // ---------------------------------------------------------------- any number of operations

  /** `Attempt` asks whether it may start; a started operation later fails or succeeds. */
  datatype Event = Attempt(now: real, switchedOn: bool) | Fail(now: real) | Succeed(now: real)

  datatype System = System(breaker: Breaker, inFlight: nat)

  function Play(events: seq<Event>): System {
    if events == [] then System(FRESH, 0)
    else
      var s, e := Play(events[..|events| - 1]), events[|events| - 1];
      match e
      case Attempt(now, on) => if IsEnabled(s.breaker, on, now) then s.(inFlight := s.inFlight + 1) else s
      case Fail(now) => if s.inFlight == 0 then s else System(Disable(s.breaker, now), s.inFlight - 1)
      case Succeed(_) => if s.inFlight == 0 then s else s.(inFlight := s.inFlight - 1)
  }

  /** A clock that starts at or after zero and never goes back. */
  ghost predicate Clocked(events: seq<Event>) {
    && (forall i :: 0 <= i < |events| ==> 0.0 <= events[i].now)
    && (forall i, j :: 0 <= i < j < |events| ==> events[i].now <= events[j].now)
  }

  predicate FailsAt(events: seq<Event>, i: nat)
    requires i < |events|
  {
    events[i].Fail? && Play(events[..i]).inFlight > 0
  }

  predicate StartsAt(events: seq<Event>, i: nat)
    requires i < |events|
  {
    events[i].Attempt? && IsEnabled(Play(events[..i]).breaker, events[i].switchedOn, events[i].now)
  }

  predicate WarnsAt(events: seq<Event>, i: nat)
    requires i < |events|
  {
    FailsAt(events, i) && Warns(Play(events[..i]).breaker, events[i].now)
  }

  /** Play one event further. */
  lemma PlayNext(events: seq<Event>, i: nat)
    requires i < |events|
    ensures var s, s', e := Play(events[..i]), Play(events[..i + 1]), events[i];
            s'.breaker == if FailsAt(events, i) then Disable(s.breaker, e.now) else s.breaker
  {
    assert events[..i + 1][..i] == events[..i];
  }

  /** `disabledUntil` never decreases over a run. */
  lemma {:induction false} DisabledUntilOnlyGrows(events: seq<Event>, i: nat, j: nat)
    requires Clocked(events) && i <= j <= |events|
    ensures Play(events[..i]).breaker.disabledUntil <= Play(events[..j]).breaker.disabledUntil
    ensures j > 0 ==> Play(events[..j]).breaker.disabledUntil <= events[j - 1].now + 30.0
  {
    if i < j {
      DisabledUntilOnlyGrows(events, i, j - 1);
      PlayNext(events, j - 1);
      if j > 1 {
        assert events[j - 2].now <= events[j - 1].now;
      }
    } else if j > 0 {
      DisabledUntilOnlyGrows(events, i - 1, j - 1);
      PlayNext(events, j - 1);
      if j > 1 {
        assert events[j - 2].now <= events[j - 1].now;
      }
    }
  }

  /** Some recorded failure, unless there was none, explains the current deadline. */
  lemma {:induction false} DeadlineHasCause(events: seq<Event>, j: nat) returns (i: nat)
    requires j <= |events| && Play(events[..j]).breaker.disabledUntil > 0.0
    ensures i < j && FailsAt(events, i) && Play(events[..j]).breaker.disabledUntil == events[i].now + COOLDOWN
  {
    PlayNext(events, j - 1);
    if FailsAt(events, j - 1) {
      i := j - 1;
    } else {
      i := DeadlineHasCause(events, j - 1);
    }
  }

  /** An attempt starts exactly when Redis is configured and no failure was recorded in the last
      cooldown, however many operations were in flight. */
  lemma StartsExactlyWhenCool(events: seq<Event>, j: nat)
    requires Clocked(events) && j < |events| && events[j].Attempt?
    ensures StartsAt(events, j)
       <==> events[j].switchedOn
            && forall i | 0 <= i < j && FailsAt(events, i) :: events[j].now >= events[i].now + 30.0
  {
    forall i | 0 <= i < j && FailsAt(events, i)
      ensures events[i].now + COOLDOWN <= Play(events[..j]).breaker.disabledUntil
    {
      PlayNext(events, i);
      DisabledUntilOnlyGrows(events, i + 1, j);
    }
    if events[j].switchedOn && !StartsAt(events, j) {
      var i := DeadlineHasCause(events, j);
    }
  }

  lemma {:induction false} LastLogIsLatestWarning(events: seq<Event>, i: nat, j: nat)
    requires Clocked(events) && i < j <= |events| && WarnsAt(events, i)
    ensures Play(events[..j]).breaker.lastLogAt >= events[i].now
  {
    PlayNext(events, j - 1);
    if i < j - 1 {
      LastLogIsLatestWarning(events, i, j - 1);
      assert events[i].now <= events[j - 1].now;
    }
  }

  /** Two disable warnings are at least one cooldown apart. */
  lemma WarningsAreSpaced(events: seq<Event>, i: nat, j: nat)
    requires Clocked(events) && i < j < |events| && WarnsAt(events, i) && WarnsAt(events, j)
    ensures events[j].now - events[i].now >= 30.0
  {
    LastLogIsLatestWarning(events, i, j);
  }

  lemma {:induction false} LastLogHasCause(events: seq<Event>, j: nat) returns (i: nat)
    requires j <= |events| && Play(events[..j]).breaker.lastLogAt != 0.0
    ensures i < j && WarnsAt(events, i) && Play(events[..j]).breaker.lastLogAt == events[i].now
  {
    PlayNext(events, j - 1);
    if WarnsAt(events, j - 1) {
      i := j - 1;
    } else {
      i := LastLogHasCause(events, j - 1);
    }
  }

  /** A failure goes unannounced exactly within a cooldown of an earlier warning or of clock zero. */
  lemma SilentExactlyAfterWarning(events: seq<Event>, j: nat)
    requires Clocked(events) && j < |events| && FailsAt(events, j)
    ensures !WarnsAt(events, j)
       <==> events[j].now < 30.0
            || exists i :: 0 <= i < j && WarnsAt(events, i) && events[j].now < events[i].now + 30.0
  {
    forall i | 0 <= i < j && WarnsAt(events, i)
      ensures Play(events[..j]).breaker.lastLogAt >= events[i].now
    {
      LastLogIsLatestWarning(events, i, j);
    }
    if Play(events[..j]).breaker.lastLogAt != 0.0 {
      var i := LastLogHasCause(events, j);
    }
  }

  /** The positions of the failures recorded before position `j`. */
  ghost function FailureIndices(events: seq<Event>, j: nat): (r: set<nat>)
    requires j <= |events|
    ensures forall i: nat :: i in r <==> i < j && FailsAt(events, i)
  {
    if j == 0 then {}
    else FailureIndices(events, j - 1) + if FailsAt(events, j - 1) then {j - 1} else {}
  }

  /** The failure counter counts exactly the recorded failures. */
  lemma {:induction false} TotalCountsFailures(events: seq<Event>, j: nat)
    requires j <= |events|
    ensures Play(events[..j]).breaker.total == |FailureIndices(events, j)|
  {
    if j > 0 {
      TotalCountsFailures(events, j - 1);
      PlayNext(events, j - 1);
    }
  }
}
