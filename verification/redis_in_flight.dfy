/** Which Redis operations are in flight. */
module RedisInFlight {
  import opened RedisBreaker

  predicate EndsAt(events: seq<Event>, i: nat)
    requires i < |events|
  {
    !events[i].Attempt? && Play(events[..i]).inFlight > 0
  }

  /** Operations started less operations ended before position `j`. */
  function Balance(events: seq<Event>, j: nat): int
    requires j <= |events|
  {
    if j == 0 then 0
    else
      Balance(events, j - 1)
      + (if StartsAt(events, j - 1) then 1 else 0) - (if EndsAt(events, j - 1) then 1 else 0)
  }

  /** In flight are exactly the operations that started and have not ended; a refused attempt is
      none of them, and without one nothing fails or succeeds. */
  lemma {:induction false} InFlightIsBalance(events: seq<Event>, j: nat)
    requires j <= |events|
    ensures Play(events[..j]).inFlight == Balance(events, j)
    ensures j > 0 && Balance(events, j - 1) == 0 ==> Balance(events, j) >= 0 && !FailsAt(events, j - 1)
  {
    if j > 0 {
      InFlightIsBalance(events, j - 1);
      assert events[..j][..j - 1] == events[..j - 1];
    }
  }
}
