/** The requested-field side of the score as it runs, and what the match keys and matches mean. */
module ConfidenceRequests {
  import opened Text
  import opened RequestedFields
  import opened Confidence
  import ConfidenceProperties
  import opened RepairTargets

  // ---------------------------------------------------------------- the match keys

  /** One more `setdefault`. */
  lemma SetDefaultsNext(started: map<Name, Name>, keys: seq<Name>, j: nat, canonical: Name)
    requires j < |keys|
    ensures SetDefaults(started, keys[..j + 1], canonical)
         == var m := SetDefaults(started, keys[..j], canonical);
            if keys[j] == NO_NAME || keys[j] in m then m else m[keys[j] := canonical]
  {
    assert keys[..j + 1][..j] == keys[..j];
  }

  /** The inner loop of one alias list: the canonical key first, then the aliases. */
  method SetDefaultsLoop(started: map<Name, Name>, canonical: Name, aliases: seq<Name>) returns (m: map<Name, Name>)
    ensures m == SetDefaults(started, [canonical] + KeysOfNames(aliases), canonical)
  {
    ghost var keys := [canonical] + KeysOfNames(aliases);
    m := started;
    if canonical != NO_NAME && canonical !in m {
      m := m[canonical := canonical];
    }
    SetDefaultsNext(started, keys, 0, canonical);
    for j := 0 to |aliases|
      invariant m == SetDefaults(started, keys[..j + 1], canonical)
    {
      SetDefaultsNext(started, keys, j + 1, canonical);
      m := SetDefault(m, KeyOfName(aliases[j]), canonical);
    }
    assert keys[..|aliases| + 1] == keys;
  }

  method SetDefault(started: map<Name, Name>, k: Name, canonical: Name) returns (m: map<Name, Name>)
    ensures m == if k == NO_NAME || k in started then started else started[k := canonical]
  {
    m := started;
    if k != NO_NAME && k !in m {
      m := m[k := canonical];
    }
  }

  method AliasToCanonicalLoop(aliasMap: seq<AliasList>) returns (m: map<Name, Name>)
    ensures m == AliasToCanonical(aliasMap)
  {
    m := map[];
    for i := 0 to |aliasMap|
      invariant m == AliasToCanonical(aliasMap[..i])
    {
      assert aliasMap[..i + 1][..i] == aliasMap[..i];
      m := SetDefaultsLoop(m, KeyOfName(aliasMap[i].canonical), aliasMap[i].aliases);
    }
    assert aliasMap[..|aliasMap|] == aliasMap;
  }

  function Elements(ordered: seq<Name>): set<Name> {
    set k | k in ordered
  }

  /** The inner loop over the aliases of one requested name. */
  method AddAliasKeys(started: seq<Name>, startedSet: set<Name>, aliases: seq<Name>)
    returns (ordered: seq<Name>, seen: set<Name>)
    requires startedSet == Elements(started)
    ensures ordered == AddAllNew(started, KeysOfNames(aliases)) && seen == Elements(ordered)
  {
    ordered, seen := started, startedSet;
    ghost var keys := KeysOfNames(aliases);
    for j := 0 to |aliases|
      invariant AddAllNew(ordered, keys[j..]) == AddAllNew(started, keys) && seen == Elements(ordered)
    {
      assert keys[j..][1..] == keys[j + 1..];
      var alias := KeyOfName(aliases[j]);
      if alias != NO_NAME && alias !in seen {
        seen := seen + {alias};
        ordered := ordered + [alias];
      }
    }
  }

  /** One requested name: its own key, its canonical key, its aliases. */
  method AddRequestKeys(started: seq<Name>, startedSet: set<Name>, k: Name, toCanonical: map<Name, Name>,
                        aliasMap: seq<AliasList>)
    returns (ordered: seq<Name>, seen: set<Name>)
    requires startedSet == Elements(started)
    ensures ordered == AddRequest(started, k, toCanonical, aliasMap) && seen == Elements(ordered)
  {
    ordered, seen := started, startedSet;
    if k == NO_NAME || k in seen {
      return;
    }
    ordered := ordered + [k];
    seen := seen + {k};
    ghost var own := ordered;
    if k in toCanonical && toCanonical[k] != NO_NAME && toCanonical[k] !in seen {
      ordered := ordered + [toCanonical[k]];
      seen := seen + {toCanonical[k]};
    }
    CanonicalFirst(own, if k in toCanonical then [toCanonical[k]] else [], KeysOfNames(AliasesOf(aliasMap, k)),
                   ordered);
    ordered, seen := AddAliasKeys(ordered, seen, AliasesOf(aliasMap, k));
  }

  /** `_requested_match_keys` as it runs: an ordered list beside a set of the keys seen. */
  method RequestedMatchKeys(requested: seq<Name>, raw: seq<Name>, aliasMap: seq<AliasList>) returns (ordered: seq<Name>)
    ensures ordered == MatchKeys(requested, raw, aliasMap)
  {
    var toCanonical := AliasToCanonicalLoop(aliasMap);
    var names := requested + raw;
    ghost var keys := KeysOfNames(names);
    ordered := [];
    var seen: set<Name> := {};
    for i := 0 to |names|
      invariant ordered == MatchKeysFrom(keys[..i], toCanonical, aliasMap) && seen == Elements(ordered)
    {
      assert keys[..i + 1][..i] == keys[..i];
      ordered, seen := AddRequestKeys(ordered, seen, KeyOfName(names[i]), toCanonical, aliasMap);
    }
    assert keys[..|names|] == keys;
  }

  /** Adding the canonical key and then the aliases is adding them together. */
  lemma CanonicalFirst(ordered: seq<Name>, canonical: seq<Name>, aliases: seq<Name>, own: seq<Name>)
    requires |canonical| <= 1 && own == if canonical == [] then ordered else AddNew(ordered, canonical[0])
    ensures AddAllNew(ordered, canonical + aliases) == AddAllNew(own, aliases)
  {
    if canonical == [] {
      assert canonical + aliases == aliases;
    } else {
      assert (canonical + aliases)[1..] == aliases;
    }
  }

  ghost predicate DistinctKeysOnly(ordered: seq<Name>) {
    && (forall i, j :: 0 <= i < j < |ordered| ==> ordered[i] != ordered[j])
    && NO_NAME !in ordered
  }

  lemma {:induction false} AddAllNewHolds(ordered: seq<Name>, keys: seq<Name>, k: Name)
    requires DistinctKeysOnly(ordered)
    ensures DistinctKeysOnly(AddAllNew(ordered, keys))
    ensures k in AddAllNew(ordered, keys) <==> k in ordered || (k != NO_NAME && k in keys)
    decreases |keys|
  {
    if keys != [] {
      AddAllNewHolds(AddNew(ordered, keys[0]), keys[1..], k);
    }
  }

  /** The further keys a request brings along: its canonical key and its aliases. */
  function Companions(toCanonical: map<Name, Name>, aliasMap: seq<AliasList>, request: Name): seq<Name> {
    (if request in toCanonical then [toCanonical[request]] else []) + KeysOfNames(AliasesOf(aliasMap, request))
  }

  /** A request brings its companions along unless its own key had already been collected. */
  ghost predicate Brings(requests: seq<Name>, toCanonical: map<Name, Name>, aliasMap: seq<AliasList>, i: int, k: Name) {
    && 0 <= i < |requests| && requests[i] != NO_NAME
    && requests[i] !in MatchKeysFrom(requests[..i], toCanonical, aliasMap)
    && k in Companions(toCanonical, aliasMap, requests[i])
  }

  /** A key is reached as a request's own key or as a companion. */
  ghost predicate Reached(requests: seq<Name>, toCanonical: map<Name, Name>, aliasMap: seq<AliasList>, k: Name) {
    k != NO_NAME && (k in requests || exists i :: Brings(requests, toCanonical, aliasMap, i, k))
  }

  lemma ReachedNext(requests: seq<Name>, toCanonical: map<Name, Name>, aliasMap: seq<AliasList>, k: Name)
    requires requests != [] && k != NO_NAME
    ensures var n := |requests| - 1;
            Reached(requests, toCanonical, aliasMap, k)
            <==> Reached(requests[..n], toCanonical, aliasMap, k) || k == requests[n]
                 || Brings(requests, toCanonical, aliasMap, n, k)
  {
    var n := |requests| - 1;
    forall i | 0 <= i < n
      ensures Brings(requests, toCanonical, aliasMap, i, k) <==> Brings(requests[..n], toCanonical, aliasMap, i, k)
    {
      assert requests[..n][..i] == requests[..i];
    }
    assert requests == requests[..n] + [requests[n]];
  }

  lemma AddRequestHolds(ordered: seq<Name>, request: Name, toCanonical: map<Name, Name>,
                        aliasMap: seq<AliasList>, k: Name)
    requires DistinctKeysOnly(ordered)
    ensures DistinctKeysOnly(AddRequest(ordered, request, toCanonical, aliasMap))
    ensures k in AddRequest(ordered, request, toCanonical, aliasMap)
       <==> k in ordered
            || (k != NO_NAME && k == request)
            || (k != NO_NAME && request != NO_NAME && request !in ordered
                && k in Companions(toCanonical, aliasMap, request))
  {
    if request != NO_NAME && request !in ordered {
      AddAllNewHolds(ordered + [request], Companions(toCanonical, aliasMap, request), k);
    }
  }

  /** The match keys are distinct and never empty; they are exactly the requests' own keys and the
      companions of each request that was not itself already a companion. */
  lemma {:induction false} MatchKeysExactly(requests: seq<Name>, toCanonical: map<Name, Name>,
                                            aliasMap: seq<AliasList>, k: Name)
    ensures DistinctKeysOnly(MatchKeysFrom(requests, toCanonical, aliasMap))
    ensures k in MatchKeysFrom(requests, toCanonical, aliasMap) <==> Reached(requests, toCanonical, aliasMap, k)
  {
    if requests != [] {
      var n := |requests| - 1;
      MatchKeysExactly(requests[..n], toCanonical, aliasMap, k);
      AddRequestHolds(MatchKeysFrom(requests[..n], toCanonical, aliasMap), requests[n], toCanonical, aliasMap, k);
      if k != NO_NAME {
        ReachedNext(requests, toCanonical, aliasMap, k);
      }
    }
  }

  // ---------------------------------------------------------------- the match of one key

  /** The record has a value under the key itself, or under the listed field with that key. */
  predicate Answers(r: Record, k: Name) {
    k != NO_NAME
    && (IsPresent(r, k)
        || var listed := SourceFieldByKey(r.sources, k);
           listed.Some? && listed.value != NO_NAME && IsPresent(r, listed.value))
  }

  function AnswerOf(r: Record, k: Name): Option<Name> {
    if IsPresent(r, k) then Some(k) else SourceFieldByKey(r.sources, k)
  }

  ghost predicate IsFirstAnswer(r: Record, candidates: seq<Name>, i: int) {
    0 <= i < |candidates| && Answers(r, candidates[i]) && forall j :: 0 <= j < i ==> !Answers(r, candidates[j])
  }

  /** A key is matched by the field of the record that answers its first answering candidate, and
      by none only when no candidate answers. */
  lemma {:induction false} MatchIsFirstAnswer(r: Record, candidates: seq<Name>)
    ensures match FirstMatch(r, candidates)
            case None => forall i :: 0 <= i < |candidates| ==> !Answers(r, candidates[i])
            case Some(field) =>
              && IsPresent(r, field)
              && exists i :: IsFirstAnswer(r, candidates, i) && AnswerOf(r, candidates[i]) == Some(field)
  {
    if candidates != [] {
      var rest := candidates[1..];
      if Answers(r, candidates[0]) {
        assert IsFirstAnswer(r, candidates, 0);
      } else {
        MatchIsFirstAnswer(r, rest);
        if i :| IsFirstAnswer(r, rest, i) && AnswerOf(r, rest[i]) == FirstMatch(r, rest) {
          assert IsFirstAnswer(r, candidates, i + 1);
        }
      }
    }
  }

  /** `_resolve_requested_field_match` as it runs, skipping candidates already looked at. */
  method ResolveRequestedFieldMatch(r: Record, field: Name, aliasMap: seq<AliasList>) returns (actual: Option<Name>)
    ensures actual == ResolveMatch(r, field, aliasMap)
  {
    var candidates := [KeyOfName(field)] + KeysOfNames(AliasesOf(aliasMap, KeyOfName(field)));
    var seen: set<Name> := {};
    for i := 0 to |candidates|
      invariant forall k :: k in seen ==> !Answers(r, k)
      invariant FirstMatch(r, candidates[i..]) == FirstMatch(r, candidates)
    {
      assert candidates[i..][1..] == candidates[i + 1..];
      var k := candidates[i];
      if k != NO_NAME && k !in seen {
        seen := seen + {k};
        if IsPresent(r, k) {
          return Some(k);
        }
        var listed := SourceFieldByKey(r.sources, k);
        if listed.Some? && listed.value != NO_NAME && IsPresent(r, listed.value) {
          return listed;
        }
      }
    }
    return None;
  }

  // ---------------------------------------------------------------- the requested part of the score

  method MatchesLoop(r: Record, keys: seq<Name>, aliasMap: seq<AliasList>) returns (matches: seq<Match>)
    ensures matches == Matches(r, keys, aliasMap)
  {
    matches := [];
    for i := 0 to |keys|
      invariant matches == Matches(r, keys[..i], aliasMap)
    {
      assert keys[..i + 1][..i] == keys[..i];
      var actual := ResolveRequestedFieldMatch(r, keys[i], aliasMap);
      if actual.Some? {
        matches := matches + [Match(keys[i], actual.value)];
      }
    }
    assert keys[..|keys|] == keys;
  }

  method ExtendMissingLoop(started: seq<Name>, requested: seq<Name>, matched: set<Name>) returns (missing: seq<Name>)
    ensures missing == ExtendMissing(started, requested, matched)
  {
    missing := started;
    for i := 0 to |requested|
      invariant ExtendMissing(missing, requested[i..], matched) == ExtendMissing(started, requested, matched)
    {
      assert requested[i..][1..] == requested[i + 1..];
      if requested[i] !in matched && requested[i] !in missing {
        missing := missing + [requested[i]];
      }
    }
  }

  ghost predicate IsShare(share: real, sum: real, n: real)
    requires n > 0.0
  {
    share == sum / n
  }

  /** One more share of the bonus. */
  method AddShare(share: real, ghost sum: real, quality: real, n: real) returns (more: real)
    requires n > 0.0 && IsShare(share, sum, n)
    ensures IsShare(more, sum + quality, n)
  {
    more := share + quality / n;
  }

  lemma QualitySumNext(env: Env, r: Record, matches: seq<Match>, i: nat)
    requires i < |matches|
    ensures QualitySum(env, r, matches[..i + 1])
         == QualitySum(env, r, matches[..i]) + FieldQuality(env, r, matches[i].actual)
  {
    assert matches[..i + 1][..i] == matches[..i];
  }

  /** The bonus as it is summed, one share of the requested count at a time. */
  method BonusLoop(env: Env, r: Record, matches: seq<Match>, n: real) returns (bonus: real)
    requires n > 0.0
    ensures IsShare(bonus, QualitySum(env, r, matches), n)
  {
    bonus := 0.0;
    ghost var sum := 0.0;
    for i := 0 to |matches|
      invariant sum == QualitySum(env, r, matches[..i]) && IsShare(bonus, sum, n)
    {
      var quality := FieldQuality(env, r, matches[i].actual);
      QualitySumNext(env, r, matches, i);
      bonus := AddShare(bonus, sum, quality, n);
      sum := sum + quality;
    }
    assert matches[..|matches|] == matches;
  }

  lemma ScoreIs(env: Env, surface: string, r: Record, weights: seq<Weight>, q: Request,
                numerator: real, denominator: real)
    requires Denominator(weights, q) > 0.0
    requires numerator == Numerator(env, surface, r, weights, q) && denominator == Denominator(weights, q)
    ensures numerator / denominator == RawScore(env, surface, r, weights, q)
  {
  }

  // ---------------------------------------------------------------- the whole score

  /** What the names asked for make of a request. */
  function RequestOf(p: Policy, names: seq<string>, aliasMap: seq<AliasList>): Request {
    Request(Targets(p, CleanNames(names)), CleanNames(names), aliasMap)
  }

  /** Present and missing fields of a request as it is asked: every target is its own key. */
  lemma AskedPresentAndMissing(r: Record, weights: seq<Weight>, p: Policy, names: seq<string>,
                               aliasMap: seq<AliasList>, f: Name)
    requires KeyedPolicy(p)
    ensures var q := RequestOf(p, names, aliasMap);
            && (f in PresentFields(r, weights) <==> ConfidenceProperties.IsWeighted(weights, f) && IsPresent(r, f))
            && (f in MissingFor(r, weights, q)
                <==> (ConfidenceProperties.IsWeighted(weights, f) && !IsPresent(r, f))
                     || (f in q.requested && f !in Matched(MatchesFor(r, q))))
            && !(f in PresentFields(r, weights) && f in MissingFor(r, weights, q))
            && (f in q.requested && IsPresent(r, f) ==> f in Matched(MatchesFor(r, q)))
  {
    var q := RequestOf(p, names, aliasMap);
    forall g | g in q.requested
      ensures KeyOfName(g) == g && g != NO_NAME
    {
      TargetsAreKeys(p, q.raw, g);
    }
    ConfidenceProperties.PresentAndMissing(r, weights, q, f);
    if f in q.requested && IsPresent(r, f) {
      ConfidenceProperties.PresentIsMatched(r, q, f);
    }
  }

  /** The requested side: how many match keys found a value, the bonus, and the missing fields. */
  method RequestedConfidence(env: Env, r: Record, q: Request, listed: seq<Name>)
    returns (found: nat, bonus: real, missing: seq<Name>)
    ensures found == |MatchesFor(r, q)| && bonus == BonusFor(env, r, q)
    ensures missing == ExtendMissing(listed, q.requested, Matched(MatchesFor(r, q)))
  {
    var keys := RequestedMatchKeys(q.requested, q.raw, q.aliasMap);
    var matches := MatchesLoop(r, keys, q.aliasMap);
    missing := ExtendMissingLoop(listed, q.requested, Matched(matches));
    bonus := BonusLoop(env, r, matches, AtLeastOne(|q.requested|));
    found := |matches|;
  }

  /** `score_record_confidence` up to rounding, from the surface and the names as they come. */
  method ScoreRecord(env: Env, tables: map<string, seq<Weight>>, surface: string, r: Record,
                     p: Policy, names: seq<string>, aliasMap: seq<AliasList>)
    returns (score: real, present: seq<Name>, missing: seq<Name>, asked: nat, found: nat,
             penalties: seq<Charged>, tiers: seq<TierWeight>)
    requires Denominator(WeightsFor(tables, StripLower(surface)), RequestOf(p, names, aliasMap)) > 0.0
    ensures var weights, q := WeightsFor(tables, StripLower(surface)), RequestOf(p, names, aliasMap);
            && score == Clamped(RawScore(env, StripLower(surface), r, weights, q))
            && present == PresentFields(r, weights) && missing == MissingFor(r, weights, q)
            && asked == (if q.raw != [] then |q.raw| else |q.requested|) && found == |MatchesFor(r, q)|
            && penalties == AllPenalties(env, StripLower(surface), r, weights)
            && tiers == TierWeights(env, r, weights)
  {
    var normalized := StripLower(surface);
    var weights := WeightsFor(tables, normalized);
    var weighted, m;
    weighted, present, m, penalties, tiers := WeightedFieldConfidence(env, normalized, r, weights);
    var raw := CleanNamesLoop(names);
    var requested := RepairTargetFields(p, raw);
    var q := Request(requested, raw, aliasMap);
    var bonus;
    found, bonus, missing := RequestedConfidence(env, r, q, m);
    var total := if WeightSum(weights) == 0.0 then 1.0 else WeightSum(weights);
    if requested != [] {
      weighted := weighted + REQUESTED_SHARE * bonus;
      total := total + REQUESTED_SHARE;
    }
    ScoreIs(env, normalized, r, weights, q, weighted, total);
    score := Clamped(weighted / total);
    asked := if raw != [] then |raw| else |requested|;
  }
}
