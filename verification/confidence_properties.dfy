/** Bounds of the score, the partition of the fields, and what one more source does. */
module ConfidenceProperties {
  import opened Text
  import opened PythonValues
  import opened FieldKeys
  import opened RequestedFields
  import opened Confidence

  // ---------------------------------------------------------------- bounds

  lemma DivideBoth(a: real, b: real, t: real)
    requires a <= b && t > 0.0
    ensures a / t <= b / t
  {
  }

  lemma DivideStrictly(a: real, b: real, t: real)
    requires a < b && t > 0.0
    ensures a / t < b / t
  {
  }

  lemma AtMostOne(a: real, t: real)
    requires t > 0.0 && a <= t
    ensures a / t <= 1.0
  {
  }

  lemma FractionBounded(numerator: real, denominator: real, floor: real, bonus: real, counted: bool)
    requires denominator > 0.0 && 0.0 <= floor <= numerator
    requires !(counted && bonus > 1.0) ==> numerator <= denominator
    ensures numerator / denominator >= floor / denominator >= 0.0
    ensures numerator / denominator > 1.0 ==> counted && bonus > 1.0
  {
    DivideBoth(floor, numerator, denominator);
    DivideBoth(0.0, floor, denominator);
    if !(counted && bonus > 1.0) {
      AtMostOne(numerator, denominator);
    }
  }

  lemma NumeratorBounded(env: Env, surface: string, r: Record, weights: seq<Weight>, q: Request)
    requires GoodTiers(env) && Positive(weights)
    ensures Denominator(weights, q) > 0.0
    ensures 0.0 <= 0.087 * PresentWeight(r, weights) <= Numerator(env, surface, r, weights, q)
    ensures !(q.requested != [] && BonusFor(env, r, q) > 1.0) ==>
              Numerator(env, surface, r, weights, q) <= Denominator(weights, q)
  {
    WeightedBounded(env, surface, r, weights);
    BonusBounded(env, r, q);
  }

  /** The score before clamping is at least 0.087 of the present share of the total weight; it can
      pass 1 only when alias matches outnumber the requested fields and push the bonus above 1. */
  lemma ScoreBounded(env: Env, surface: string, r: Record, weights: seq<Weight>, q: Request)
    requires GoodTiers(env) && Positive(weights)
    ensures Denominator(weights, q) > 0.0
    ensures RawScore(env, surface, r, weights, q) >= 0.087 * PresentWeight(r, weights) / Denominator(weights, q) >= 0.0
    ensures RawScore(env, surface, r, weights, q) > 1.0 ==>
              q.requested != [] && BonusFor(env, r, q) > 1.0 && |MatchesFor(r, q)| > |q.requested|
    ensures 0.0 <= Clamped(RawScore(env, surface, r, weights, q)) <= 1.0
    ensures RawScore(env, surface, r, weights, q) <= 1.0 ==>
              Clamped(RawScore(env, surface, r, weights, q)) == RawScore(env, surface, r, weights, q)
  {
    NumeratorBounded(env, surface, r, weights, q);
    BonusBounded(env, r, q);
    FractionBounded(Numerator(env, surface, r, weights, q), Denominator(weights, q),
                    0.087 * PresentWeight(r, weights), BonusFor(env, r, q), q.requested != []);
  }

  lemma BonusBounded(env: Env, r: Record, q: Request)
    requires GoodTiers(env)
    ensures BonusFor(env, r, q) >= 0.0
    ensures q.requested != [] && BonusFor(env, r, q) > 1.0 ==> |MatchesFor(r, q)| > |q.requested|
  {
    QualitySumBounded(env, r, MatchesFor(r, q));
    SharesBounded(QualitySum(env, r, MatchesFor(r, q)), |MatchesFor(r, q)|, |q.requested|);
  }

  lemma SharesBounded(sum: real, found: nat, requested: nat)
    requires 0.0 <= sum <= found as real
    ensures sum / AtLeastOne(requested) >= 0.0
    ensures requested > 0 && sum / AtLeastOne(requested) > 1.0 ==> found > requested
  {
    var n := AtLeastOne(requested);
    DivideBoth(0.0, sum, n);
    if 0 < requested && found <= requested {
      AtMostOne(sum, n);
    }
  }

  // ---------------------------------------------------------------- present and missing

  predicate IsWeighted(weights: seq<Weight>, f: Name) {
    exists i :: 0 <= i < |weights| && weights[i].field == f
  }

  lemma {:induction false} WeightedSplit(r: Record, weights: seq<Weight>, f: Name)
    ensures f in PresentFields(r, weights) <==> IsWeighted(weights, f) && IsPresent(r, f)
    ensures f in MissingFields(r, weights) <==> IsWeighted(weights, f) && !IsPresent(r, f)
  {
    if weights != [] {
      var rest := weights[..|weights| - 1];
      WeightedSplit(r, rest, f);
      assert IsWeighted(weights, f) <==> IsWeighted(rest, f) || weights[|weights| - 1].field == f by {
        if IsWeighted(rest, f) {
          var i :| 0 <= i < |rest| && rest[i].field == f;
          assert weights[i].field == f;
        }
      }
    }
  }

  lemma {:induction false} ExtendMissingHolds(missing: seq<Name>, requested: seq<Name>, matched: set<Name>, f: Name)
    ensures f in ExtendMissing(missing, requested, matched) <==> f in missing || (f in requested && f !in matched)
    decreases |requested|
  {
    if requested != [] {
      var g := requested[0];
      ExtendMissingHolds(if g !in matched && g !in missing then missing + [g] else missing, requested[1..], matched, f);
    }
  }

  lemma {:induction false} AddAllNewKeeps(ordered: seq<Name>, keys: seq<Name>, k: Name)
    requires k in ordered
    ensures k in AddAllNew(ordered, keys)
    decreases |keys|
  {
    if keys != [] {
      AddAllNewKeeps(AddNew(ordered, keys[0]), keys[1..], k);
    }
  }

  lemma {:induction false} RequestsAreKeys(requests: seq<Name>, toCanonical: map<Name, Name>,
                                           aliasMap: seq<AliasList>, k: Name)
    requires k in requests && k != NO_NAME
    ensures k in MatchKeysFrom(requests, toCanonical, aliasMap)
  {
    var before, last := requests[..|requests| - 1], requests[|requests| - 1];
    var ordered := MatchKeysFrom(before, toCanonical, aliasMap);
    if k in before {
      RequestsAreKeys(before, toCanonical, aliasMap, k);
    }
    if last != NO_NAME && last !in ordered {
      var canonical := if last in toCanonical then [toCanonical[last]] else [];
      AddAllNewKeeps(ordered + [last], canonical + KeysOfNames(AliasesOf(aliasMap, last)), k);
    }
  }

  lemma {:induction false} ResolvedIsMatched(r: Record, keys: seq<Name>, aliasMap: seq<AliasList>, k: Name)
    requires k in keys && ResolveMatch(r, k, aliasMap).Some?
    ensures k in Matched(Matches(r, keys, aliasMap))
  {
    var before, last := keys[..|keys| - 1], keys[|keys| - 1];
    var rest, m := Matches(r, before, aliasMap), ResolveMatch(r, last, aliasMap);
    if k in before {
      ResolvedIsMatched(r, before, aliasMap, k);
      var x :| x in rest && x.requested == k;
      assert x in Matches(r, keys, aliasMap);
    } else {
      assert Match(k, m.value) in Matches(r, keys, aliasMap);
    }
  }

  /** A present field asked for by its own key is always matched. */
  lemma PresentIsMatched(r: Record, q: Request, f: Name)
    requires f in q.requested + q.raw && KeyOfName(f) == f && f != NO_NAME && IsPresent(r, f)
    ensures f in Matched(MatchesFor(r, q))
  {
    var all := q.requested + q.raw;
    var i :| 0 <= i < |all| && all[i] == f;
    assert KeysOfNames(all)[i] == f;
    RequestsAreKeys(KeysOfNames(all), AliasToCanonical(q.aliasMap), q.aliasMap, f);
    ResolvedIsMatched(r, MatchKeys(q.requested, q.raw, q.aliasMap), q.aliasMap, f);
  }

  /** Present and missing fields are disjoint; present are the weighted ones with a value, missing
      the weighted ones without one and the requested ones without a match. */
  lemma PresentAndMissing(r: Record, weights: seq<Weight>, q: Request, f: Name)
    requires forall g :: g in q.requested ==> KeyOfName(g) == g && g != NO_NAME
    ensures f in PresentFields(r, weights) <==> IsWeighted(weights, f) && IsPresent(r, f)
    ensures f in MissingFor(r, weights, q)
       <==> (IsWeighted(weights, f) && !IsPresent(r, f)) || (f in q.requested && f !in Matched(MatchesFor(r, q)))
    ensures !(f in PresentFields(r, weights) && f in MissingFor(r, weights, q))
  {
    WeightedSplit(r, weights, f);
    ExtendMissingHolds(MissingFields(r, weights), q.requested, Matched(MatchesFor(r, q)), f);
    if f in q.requested && IsPresent(r, f) {
      PresentIsMatched(r, q, f);
    }
  }

  // ---------------------------------------------------------------- one more source

  /** The record with `s` appended to the sources already listed for `field`. */
  function Appended(sources: seq<Sourced>, field: Name, s: Name): seq<Sourced> {
    if sources == [] then []
    else if sources[0].field == field then [Sourced(field, sources[0].sources + [s])] + sources[1..]
    else [sources[0]] + Appended(sources[1..], field, s)
  }

  lemma {:induction false} AppendedSources(sources: seq<Sourced>, field: Name, s: Name, g: Name)
    requires SourcesOf(sources, field).Some?
    ensures SourcesOf(Appended(sources, field, s), g)
         == if g == field then Some(SourcesOf(sources, field).value + [s]) else SourcesOf(sources, g)
    ensures |Appended(sources, field, s)| == |sources|
    ensures forall i :: 0 <= i < |sources| ==> Appended(sources, field, s)[i].field == sources[i].field
  {
    if sources[0].field != field {
      AppendedSources(sources[1..], field, s, g);
    }
  }

  lemma {:induction false} SameFieldsSameKeys(a: seq<Sourced>, b: seq<Sourced>, k: Name)
    requires |a| == |b| && forall i :: 0 <= i < |a| ==> a[i].field == b[i].field
    ensures SourceFieldByKey(a, k) == SourceFieldByKey(b, k)
  {
    if a != [] {
      SameFieldsSameKeys(a[..|a| - 1], b[..|b| - 1], k);
    }
  }

  lemma {:induction false} SameFirstMatch(r: Record, r2: Record, candidates: seq<Name>)
    requires r.values == r2.values
    requires forall k :: SourceFieldByKey(r.sources, k) == SourceFieldByKey(r2.sources, k)
    ensures FirstMatch(r, candidates) == FirstMatch(r2, candidates)
  {
    if candidates != [] {
      SameFirstMatch(r, r2, candidates[1..]);
    }
  }

  lemma {:induction false} SameMatches(r: Record, r2: Record, keys: seq<Name>, aliasMap: seq<AliasList>)
    requires r.values == r2.values
    requires forall k :: SourceFieldByKey(r.sources, k) == SourceFieldByKey(r2.sources, k)
    ensures Matches(r, keys, aliasMap) == Matches(r2, keys, aliasMap)
  {
    if keys != [] {
      var last := keys[|keys| - 1];
      SameMatches(r, r2, keys[..|keys| - 1], aliasMap);
      SameFirstMatch(r, r2, [KeyOfName(last)] + KeysOfNames(AliasesOf(aliasMap, KeyOfName(last))));
    }
  }

  lemma {:induction false} QualityUpper(env: Env, sources: seq<Name>, s: Name)
    requires s in sources
    ensures QualityOf(env, s) <= BestQuality(env, sources)
  {
    var before := sources[..|sources| - 1];
    if s in before {
      QualityUpper(env, before, s);
    }
  }

  /** More sources never make the best quality worse. */
  lemma {:induction false} QualityGrows(env: Env, a: seq<Name>, b: seq<Name>)
    requires forall s :: s in a ==> s in b
    ensures BestQuality(env, a) <= BestQuality(env, b)
  {
    if a != [] {
      var before, last := a[..|a| - 1], a[|a| - 1];
      assert last in a;
      QualityGrows(env, before, b);
      QualityUpper(env, b, last);
    }
  }

  /** What a record keeps, and may gain, when one more source is listed. */
  ghost predicate BetterSourced(env: Env, r: Record, r2: Record) {
    && r.values == r2.values
    && (forall k :: SourceFieldByKey(r.sources, k) == SourceFieldByKey(r2.sources, k))
    && (forall g :: FieldQuality(env, r, g) <= FieldQuality(env, r2, g))
  }

  lemma AppendingImproves(env: Env, r: Record, field: Name, s: Name)
    requires SourcesOf(r.sources, field).Some?
    ensures BetterSourced(env, r, r.(sources := Appended(r.sources, field, s)))
  {
    var more := Appended(r.sources, field, s);
    forall k
      ensures SourceFieldByKey(r.sources, k) == SourceFieldByKey(more, k)
    {
      AppendedSources(r.sources, field, s, field);
      SameFieldsSameKeys(r.sources, more, k);
    }
    forall g
      ensures FieldQuality(env, r, g) <= FieldQuality(env, r.(sources := more), g)
    {
      AppendedSources(r.sources, field, s, g);
      QualityGrows(env, CandidatesOf(r, g), CandidatesOf(r.(sources := more), g));
    }
  }

  lemma {:induction false} BonusGrows(env: Env, r: Record, r2: Record, matches: seq<Match>)
    requires BetterSourced(env, r, r2)
    ensures QualitySum(env, r, matches) <= QualitySum(env, r2, matches)
  {
    if matches != [] {
      BonusGrows(env, r, r2, matches[..|matches| - 1]);
    }
  }

  lemma Times(a: real, b: real, c: real)
    requires a <= b && c >= 0.0
    ensures a * c <= b * c && c * a <= c * b
  {
  }

  lemma ShareGrows(w: real, q: real, q2: real, f: real)
    requires w >= 0.0 && q <= q2 && f >= 0.0
    ensures Share(w, q, f) <= Share(w, q2, f)
  {
    Times(q, q2, f);
    Times(q * f, q2 * f, w);
  }

  ghost predicate SamePenalties(env: Env, surface: string, r: Record, r2: Record) {
    r.values == r2.values
    && forall g :: g in r.values ==> Factor(env, surface, r, g) == Factor(env, surface, r2, g)
  }

  lemma PresentContributionGrows(env: Env, surface: string, r: Record, r2: Record, w: Weight,
                                 q: real, q2: real, f: real)
    requires w.weight > 0.0 && q <= q2 && f >= 0.0
    requires IsPresent(r, w.field) && r2.values == r.values
    requires q == FieldQuality(env, r, w.field) && q2 == FieldQuality(env, r2, w.field)
    requires f == Factor(env, surface, r, w.field) == Factor(env, surface, r2, w.field)
    ensures Contribution(env, surface, r, w) <= Contribution(env, surface, r2, w)
  {
    ShareGrows(w.weight, q, q2, f);
  }

  lemma ContributionGrows(env: Env, surface: string, r: Record, r2: Record, w: Weight)
    requires BetterSourced(env, r, r2) && SamePenalties(env, surface, r, r2) && w.weight > 0.0
    ensures Contribution(env, surface, r, w) <= Contribution(env, surface, r2, w)
  {
    if IsPresent(r, w.field) {
      FactorOfField(env, surface, r, w.field);
      PresentContributionGrows(env, surface, r, r2, w, FieldQuality(env, r, w.field), FieldQuality(env, r2, w.field),
                               Factor(env, surface, r, w.field));
    }
  }

  lemma {:induction false} WeightedGrows(env: Env, surface: string, r: Record, r2: Record, weights: seq<Weight>)
    requires BetterSourced(env, r, r2) && SamePenalties(env, surface, r, r2)
    requires forall i :: 0 <= i < |weights| ==> weights[i].weight > 0.0
    ensures WeightedScore(env, surface, r, weights) <= WeightedScore(env, surface, r2, weights)
  {
    if weights != [] {
      WeightedGrows(env, surface, r, r2, weights[..|weights| - 1]);
      ContributionGrows(env, surface, r, r2, weights[|weights| - 1]);
    }
  }

  lemma AppendingKeepsPenalties(env: Env, surface: string, r: Record, field: Name, s: Name)
    requires SourcesOf(r.sources, field).Some? && !(field == TITLE && s == URL_SLUG)
    ensures SamePenalties(env, surface, r, r.(sources := Appended(r.sources, field, s)))
  {
    var r2 := r.(sources := Appended(r.sources, field, s));
    AppendedSources(r.sources, field, s, TITLE);
    assert URL_SLUG in SourceList(r2.sources, TITLE) <==> URL_SLUG in SourceList(r.sources, TITLE);
    forall g | g in r.values
      ensures Factor(env, surface, r, g) == Factor(env, surface, r2, g)
    {
      SlugDecides(env, surface, r, r2, g);
    }
  }

  lemma SlugDecides(env: Env, surface: string, r: Record, r2: Record, g: Name)
    requires r.values == r2.values && g in r.values
    requires g != TITLE || (URL_SLUG in SourceList(r2.sources, TITLE) <==> URL_SLUG in SourceList(r.sources, TITLE))
    ensures Factor(env, surface, r, g) == Factor(env, surface, r2, g)
  {
  }

  /** Appending a source to a field already listed never lowers the score, through the weighted
      part and through the requested bonus, except the URL slug on the title. */
  lemma MoreSourcesNeverHurt(env: Env, surface: string, r: Record, weights: seq<Weight>, q: Request,
                             field: Name, s: Name)
    requires GoodTiers(env) && Positive(weights) && Denominator(weights, q) > 0.0
    requires SourcesOf(r.sources, field).Some? && !(field == TITLE && s == URL_SLUG)
    ensures var r2 := r.(sources := Appended(r.sources, field, s));
            && RawScore(env, surface, r, weights, q) <= RawScore(env, surface, r2, weights, q)
            && Clamped(RawScore(env, surface, r, weights, q)) <= Clamped(RawScore(env, surface, r2, weights, q))
  {
    var r2 := r.(sources := Appended(r.sources, field, s));
    AppendingImproves(env, r, field, s);
    AppendingKeepsPenalties(env, surface, r, field, s);
    WeightedGrows(env, surface, r, r2, weights);
    SameMatches(r, r2, MatchKeys(q.requested, q.raw, q.aliasMap), q.aliasMap);
    BonusGrows(env, r, r2, MatchesFor(r, q));
    DivideBoth(QualitySum(env, r, MatchesFor(r, q)), QualitySum(env, r2, MatchesFor(r, q)), AtLeastOne(|q.requested|));
    DivideBoth(Numerator(env, surface, r, weights, q), Numerator(env, surface, r2, weights, q),
               Denominator(weights, q));
  }

  // ---------------------------------------------------------------- the URL slug on the title

  lemma {:induction false} UnlistedAddsNothing(env: Env, a: seq<Name>, b: seq<Name>, s: Name)
    requires QualityOf(env, s) <= BASE_QUALITY
    requires forall x :: x in b ==> x in a || x == s
    ensures BestQuality(env, b) <= BestQuality(env, a)
  {
    if b != [] {
      var before, last := b[..|b| - 1], b[|b| - 1];
      assert last in b;
      assert forall x :: x in before ==> x in b;
      UnlistedAddsNothing(env, a, before, s);
      if last in a {
        QualityUpper(env, a, last);
      }
    }
  }

  /** The title is in none of the groups of fields with a shape of their own. */
  ghost predicate TitleIsPlain(rules: Rules) {
    TITLE !in rules.thinFields && TITLE !in rules.pricedFields && TITLE !in rules.linkedFields
  }

  lemma SourceRulesPlain()
    ensures TitleIsPlain(SOURCE_RULES)
  {
  }

  /** What the title's own text makes of a slug source. */
  function TitleFactor(generic: bool, slug: bool, length: nat): real {
    1.0 - if generic then 0.55 else if slug then 0.25 else if length < 4 then 0.35 else 0.0
  }

  lemma TitleFactorIs(rules: Rules, surface: string, text: string, slug: bool)
    requires TitleIsPlain(rules)
    ensures PenaltyFactor(PenaltiesOf(rules, surface, TITLE, text, slug))
         == TitleFactor(IsGenericTitle(rules, text), slug, |text|)
  {
    var t := TitlePenalty(rules, text, slug);
    assert ShapePenalties(rules, TITLE, text) == [] && SurfacePenalties(rules, surface, TITLE, text) == [];
    assert PenaltiesOf(rules, surface, TITLE, text, slug) == t;
    if t != [] {
      assert t[1..] == [];
      assert Total(t) == t[0].weight;
    }
  }

  /** A slug no tier lists above the base changes no field's quality, whatever it is appended to. */
  lemma SlugKeepsQuality(env: Env, r: Record, g: Name)
    requires SourcesOf(r.sources, TITLE).Some? && QualityOf(env, URL_SLUG) <= BASE_QUALITY
    ensures FieldQuality(env, Slugged(r), g) == FieldQuality(env, r, g)
  {
    AppendedSources(r.sources, TITLE, URL_SLUG, g);
    QualityGrows(env, CandidatesOf(r, g), CandidatesOf(Slugged(r), g));
    UnlistedAddsNothing(env, CandidatesOf(r, g), CandidatesOf(Slugged(r), g), URL_SLUG);
  }

  /** The record with a URL slug appended to the sources listed for its title. */
  function Slugged(r: Record): Record {
    r.(sources := Appended(r.sources, TITLE, URL_SLUG))
  }

  /** A title the slug makes a difference to: present, not generic, without a slug source so far. */
  predicate IsOpen(env: Env, r: Record) {
    IsPresent(r, TITLE) && !IsGenericTitle(env.rules, TextValue(env, r.values[TITLE]))
    && URL_SLUG !in SourceList(r.sources, TITLE)
  }

  predicate SlugLowers(env: Env, r: Record) {
    IsOpen(env, r) && |TextValue(env, r.values[TITLE])| >= 4
  }

  predicate SlugRaises(env: Env, r: Record) {
    IsOpen(env, r) && |TextValue(env, r.values[TITLE])| < 4
  }

  ghost predicate PlainSlug(env: Env, r: Record) {
    SourcesOf(r.sources, TITLE).Some? && QualityOf(env, URL_SLUG) <= BASE_QUALITY && TitleIsPlain(env.rules)
  }

  lemma SlugOnTitle(env: Env, surface: string, r: Record, w: Weight)
    requires w.field == TITLE && w.weight > 0.0 && PlainSlug(env, r)
    ensures Contribution(env, surface, Slugged(r), w) < Contribution(env, surface, r, w) <==> SlugLowers(env, r)
    ensures Contribution(env, surface, Slugged(r), w) > Contribution(env, surface, r, w) <==> SlugRaises(env, r)
  {
    if IsPresent(r, TITLE) {
      SlugKeepsQuality(env, r, TITLE);
      SlugOnFactor(env, surface, r);
      SameOrder(w.weight, FieldQuality(env, r, TITLE), Factor(env, surface, r, TITLE),
                Factor(env, surface, Slugged(r), TITLE));
    }
  }

  lemma SlugOnFactor(env: Env, surface: string, r: Record)
    requires PlainSlug(env, r) && IsPresent(r, TITLE)
    ensures Factor(env, surface, Slugged(r), TITLE) < Factor(env, surface, r, TITLE) <==> SlugLowers(env, r)
    ensures Factor(env, surface, Slugged(r), TITLE) > Factor(env, surface, r, TITLE) <==> SlugRaises(env, r)
  {
    AppendedSources(r.sources, TITLE, URL_SLUG, TITLE);
    var text := TextValue(env, r.values[TITLE]);
    TitleFactorIs(env.rules, surface, text, URL_SLUG in SourceList(r.sources, TITLE));
    TitleFactorIs(env.rules, surface, text, true);
  }

  lemma SlugElsewhere(env: Env, surface: string, r: Record, w: Weight)
    requires w.field != TITLE && PlainSlug(env, r)
    ensures Contribution(env, surface, Slugged(r), w) == Contribution(env, surface, r, w)
  {
    SlugKeepsQuality(env, r, w.field);
    if IsPresent(r, w.field) {
      SlugDecides(env, surface, r, Slugged(r), w.field);
    }
  }

  lemma {:induction false} SlugOnWeights(env: Env, surface: string, r: Record, weights: seq<Weight>)
    requires PlainSlug(env, r) && forall i :: 0 <= i < |weights| ==> weights[i].weight > 0.0
    ensures WeightedScore(env, surface, Slugged(r), weights) < WeightedScore(env, surface, r, weights)
       <==> IsWeighted(weights, TITLE) && SlugLowers(env, r)
    ensures WeightedScore(env, surface, Slugged(r), weights) > WeightedScore(env, surface, r, weights)
       <==> IsWeighted(weights, TITLE) && SlugRaises(env, r)
  {
    if weights != [] {
      var rest, w := weights[..|weights| - 1], weights[|weights| - 1];
      SlugOnWeights(env, surface, r, rest);
      if w.field == TITLE {
        SlugOnTitle(env, surface, r, w);
      } else {
        SlugElsewhere(env, surface, r, w);
      }
    }
  }

  lemma SlugKeepsBonus(env: Env, r: Record, q: Request)
    requires PlainSlug(env, r)
    ensures BonusFor(env, Slugged(r), q) == BonusFor(env, r, q)
  {
    forall k
      ensures SourceFieldByKey(r.sources, k) == SourceFieldByKey(Slugged(r).sources, k)
    {
      AppendedSources(r.sources, TITLE, URL_SLUG, TITLE);
      SameFieldsSameKeys(r.sources, Slugged(r).sources, k);
    }
    SameMatches(r, Slugged(r), MatchKeys(q.requested, q.raw, q.aliasMap), q.aliasMap);
    SameQualitySum(env, r, MatchesFor(r, q));
  }

  lemma {:induction false} SameQualitySum(env: Env, r: Record, matches: seq<Match>)
    requires PlainSlug(env, r)
    ensures QualitySum(env, Slugged(r), matches) == QualitySum(env, r, matches)
  {
    if matches != [] {
      SameQualitySum(env, r, matches[..|matches| - 1]);
      SlugKeepsQuality(env, r, matches[|matches| - 1].actual);
    }
  }

  /** For a URL slug that no tier lists above the base: appending it to the listed sources of the
      title lowers the record's score exactly when the title is weighted, present, not generic, at
      least four characters long and had no slug source yet. It raises the score exactly when such a
      title is shorter than that. */
  lemma SlugOnTitleExactly(env: Env, surface: string, r: Record, weights: seq<Weight>, q: Request)
    requires PlainSlug(env, r) && Positive(weights) && Denominator(weights, q) > 0.0
    ensures RawScore(env, surface, Slugged(r), weights, q) < RawScore(env, surface, r, weights, q)
       <==> IsWeighted(weights, TITLE) && SlugLowers(env, r)
    ensures RawScore(env, surface, Slugged(r), weights, q) > RawScore(env, surface, r, weights, q)
       <==> IsWeighted(weights, TITLE) && SlugRaises(env, r)
  {
    SlugOnWeights(env, surface, r, weights);
    SlugKeepsBonus(env, r, q);
    QuotientOrder(Numerator(env, surface, Slugged(r), weights, q), Numerator(env, surface, r, weights, q),
                  Denominator(weights, q));
  }

  lemma QuotientOrder(a: real, b: real, t: real)
    requires t > 0.0
    ensures a / t < b / t <==> a < b
    ensures a / t > b / t <==> a > b
  {
    if a < b {
      DivideStrictly(a, b, t);
    } else if b < a {
      DivideStrictly(b, a, t);
    }
  }

  /** A record whose score falls: a sound title, listed without a slug, gets one. */
  lemma SlugLowersScore(env: Env, surface: string)
    requires env.rules == SOURCE_RULES && env.tiers == map[]
    ensures var r := Record(map[TITLE := Str("Widget")], [Sourced(TITLE, [])], NO_NAME);
            var weights, q := [Weight(TITLE, 1.0)], Request([], [], []);
            && Denominator(weights, q) > 0.0
            && RawScore(env, surface, Slugged(r), weights, q) < RawScore(env, surface, r, weights, q)
  {
    var r := Record(map[TITLE := Str("Widget")], [Sourced(TITLE, [])], NO_NAME);
    var weights, q := [Weight(TITLE, 1.0)], Request([], [], []);
    SourceRulesPlain();
    assert weights[0].field == TITLE && weights[..0] == [];
    assert WeightSum(weights) == 1.0;
    WidgetIsSound(env);
    SlugOnTitleExactly(env, surface, r, weights, q);
  }

  lemma WidgetIsSound(env: Env)
    requires env.rules == SOURCE_RULES
    ensures TextValue(env, Str("Widget")) == "Widget" && !IsGenericTitle(env.rules, "Widget")
  {
    StripStrips("Widget");
    var lowered := Lower("Widget");
    assert lowered[0] == 'w';
    assert forall t :: t in env.rules.genericTitles ==> t[0] != 'w';
  }

  lemma SameOrder(w: real, q: real, f: real, f2: real)
    requires w > 0.0 && q > 0.0
    ensures Share(w, q, f2) < Share(w, q, f) <==> f2 < f
    ensures Share(w, q, f2) > Share(w, q, f) <==> f2 > f
  {
  }

  // ---------------------------------------------------------------- a score above one

  /** The score before clamping passes 1 exactly when a request's bonus does, by more than the record
      falls short of the full weight. */
  lemma AboveOneExactly(env: Env, surface: string, r: Record, weights: seq<Weight>, q: Request)
    requires GoodTiers(env) && Positive(weights)
    ensures Denominator(weights, q) > 0.0
    ensures RawScore(env, surface, r, weights, q) > 1.0
       <==> q.requested != []
            && 0.15 * (BonusFor(env, r, q) - 1.0)
               > WeightSum(weights) - WeightedScore(env, surface, r, weights)
  {
    WeightedBounded(env, surface, r, weights);
    QuotientAboveOne(Numerator(env, surface, r, weights, q), Denominator(weights, q));
    SharesOut(WeightedScore(env, surface, r, weights), WeightSum(weights), BonusFor(env, r, q));
  }

  lemma QuotientAboveOne(a: real, t: real)
    requires t > 0.0
    ensures a / t > 1.0 <==> a > t
  {
    if a > t {
      DivideStrictly(t, a, t);
    } else {
      AtMostOne(a, t);
    }
  }

  lemma SharesOut(score: real, weight: real, bonus: real)
    ensures score + REQUESTED_SHARE * bonus > weight + REQUESTED_SHARE
       <==> REQUESTED_SHARE * (bonus - 1.0) > weight - score
  {
  }

  lemma {:induction false} FullQualitySum(env: Env, r: Record, matches: seq<Match>)
    requires forall m :: m in matches ==> FieldQuality(env, r, m.actual) >= 1.0
    ensures QualitySum(env, r, matches) >= |matches| as real
  {
    if matches != [] {
      FullQualitySum(env, r, matches[..|matches| - 1]);
      assert matches[|matches| - 1] in matches;
    }
  }

  ghost predicate BestSourced(env: Env, r: Record) {
    r.source != NO_NAME && r.source in env.tiers && env.tiers[r.source].quality == 1.0
  }

  lemma FullQuality(env: Env, r: Record, field: Name)
    requires GoodTiers(env) && BestSourced(env, r)
    ensures FieldQuality(env, r, field) == 1.0
  {
    assert r.source in CandidatesOf(r, field);
    QualityUpper(env, CandidatesOf(r, field), r.source);
    QualityBounded(env, CandidatesOf(r, field));
  }

  lemma FullMatches(env: Env, r: Record, matches: seq<Match>)
    requires GoodTiers(env) && BestSourced(env, r)
    ensures QualitySum(env, r, matches) >= |matches| as real
  {
    forall m | m in matches
      ensures FieldQuality(env, r, m.actual) >= 1.0
    {
      FullQuality(env, r, m.actual);
    }
    FullQualitySum(env, r, matches);
  }

  /** Two matches by the best source for one requested field. */
  lemma TwoMatchesBonus(env: Env, r: Record, q: Request)
    requires GoodTiers(env) && BestSourced(env, r) && |q.requested| == 1 && |MatchesFor(r, q)| >= 2
    ensures BonusFor(env, r, q) >= 2.0
  {
    FullMatches(env, r, MatchesFor(r, q));
  }

  lemma TwoDistinct(matches: seq<Match>, a: Name, b: Name)
    requires a in Matched(matches) && b in Matched(matches) && a != b
    ensures |matches| >= 2
  {
    var i :| 0 <= i < |matches| && matches[i].requested == a;
    var j :| 0 <= j < |matches| && matches[j].requested == b;
  }

  /** A field with a value that draws no penalty. */
  ghost predicate Flawless(env: Env, surface: string, r: Record, field: Name) {
    IsPresent(r, field) && FieldPenalties(env, surface, r, field) == []
  }

  lemma FlawlessContribution(env: Env, surface: string, r: Record, w: Weight)
    requires GoodTiers(env) && BestSourced(env, r) && Flawless(env, surface, r, w.field)
    ensures Contribution(env, surface, r, w) == w.weight
  {
    FullQuality(env, r, w.field);
    assert Factor(env, surface, r, w.field) == 1.0;
  }

  lemma {:induction false} FlawlessRecord(env: Env, surface: string, r: Record, weights: seq<Weight>)
    requires GoodTiers(env) && BestSourced(env, r)
    requires forall i :: 0 <= i < |weights| ==> Flawless(env, surface, r, weights[i].field)
    ensures WeightedScore(env, surface, r, weights) == WeightSum(weights)
  {
    if weights != [] {
      FlawlessRecord(env, surface, r, weights[..|weights| - 1]);
      FlawlessContribution(env, surface, r, weights[|weights| - 1]);
    }
  }

  /** A flawless record by the best source, with one requested field that it answers under two names:
      the score before clamping is above one, whatever the weights. */
  lemma TwoNamesPassOne(env: Env, surface: string, r: Record, weights: seq<Weight>, a: Name, b: Name,
                        aliasMap: seq<AliasList>)
    requires GoodTiers(env) && BestSourced(env, r) && Positive(weights)
    requires forall i :: 0 <= i < |weights| ==> Flawless(env, surface, r, weights[i].field)
    requires a != b && a != NO_NAME && b != NO_NAME && KeyOfName(a) == a && KeyOfName(b) == b
    requires IsPresent(r, a) && IsPresent(r, b)
    ensures var q := Request([a], [b], aliasMap);
            Denominator(weights, q) > 0.0 && RawScore(env, surface, r, weights, q) > 1.0
  {
    var q := Request([a], [b], aliasMap);
    PresentIsMatched(r, q, a);
    PresentIsMatched(r, q, b);
    TwoDistinct(MatchesFor(r, q), a, b);
    TwoMatchesBonus(env, r, q);
    FlawlessRecord(env, surface, r, weights);
    AboveOneExactly(env, surface, r, weights, q);
  }

  /** A text no penalty on content applies to, on a field without a penalty of its surface. */
  predicate SoundText(text: string) {
    Stripped(text) && |text| >= 40 && HasDigit(text) && LooksLikeUrl(text)
  }

  lemma SoundTextIsFlawless(env: Env, surface: string, r: Record, field: Name, text: string)
    requires env.rules == SOURCE_RULES && SoundText(text) && r.sources == []
    requires field in r.values && r.values[field] == Str(text) && field != AVAILABILITY && field != POSTED_DATE
    ensures Flawless(env, surface, r, field)
  {
    StripStrips(text);
    LongIsNotGeneric(text);
    assert TextValue(env, Str(text)) == text;
    SoundNoPenalty(surface, field, text);
  }

  lemma LongIsNotGeneric(text: string)
    requires |text| >= 40
    ensures !IsGenericTitle(SOURCE_RULES, text)
  {
    assert forall g :: g in SOURCE_RULES.genericTitles ==> |g| < 40;
  }

  lemma SoundNoPenalty(surface: string, field: Name, text: string)
    requires SoundText(text) && !IsGenericTitle(SOURCE_RULES, text) && field != AVAILABILITY && field != POSTED_DATE
    ensures PenaltiesOf(SOURCE_RULES, surface, field, text, false) == []
  {
    assert ShapePenalties(SOURCE_RULES, field, text) == [];
    assert SurfacePenalties(SOURCE_RULES, surface, field, text) == [];
  }

  const ALIAS := Name("name")

  /** A record that shows `text` under every default field and under an alias of the title. */
  function Showing(text: string, source: Name): Record {
    Record((map w | w in DEFAULT_WEIGHTS :: w.field := Str(text))[ALIAS := Str(text)], [], source)
  }

  lemma DefaultFieldsPlain(i: nat)
    requires i < |DEFAULT_WEIGHTS|
    ensures DEFAULT_WEIGHTS[i].field != AVAILABILITY && DEFAULT_WEIGHTS[i].field != POSTED_DATE
    ensures DEFAULT_WEIGHTS[i].weight == 1.0 && DEFAULT_WEIGHTS[0].field == TITLE
  {
    var f := DEFAULT_WEIGHTS[i].field.text;
    assert |f| != |AVAILABILITY.text|;
    assert f[0] != POSTED_DATE.text[0] || |f| == 5;
  }

  lemma ShowingIsFlawless(env: Env, surface: string, text: string, source: Name, i: nat)
    requires env.rules == SOURCE_RULES && SoundText(text) && i < |DEFAULT_WEIGHTS|
    ensures Flawless(env, surface, Showing(text, source), DEFAULT_WEIGHTS[i].field)
  {
    var w := DEFAULT_WEIGHTS[i];
    DefaultFieldsPlain(i);
    assert w in DEFAULT_WEIGHTS;
    SoundTextIsFlawless(env, surface, Showing(text, source), w.field, text);
  }

  lemma TitleAndAlias()
    ensures TITLE != ALIAS && KeyOfName(TITLE) == TITLE && KeyOfName(ALIAS) == ALIAS
    ensures TITLE != NO_NAME && ALIAS != NO_NAME
  {
    assert |TITLE.text| == 5 && |ALIAS.text| == 4;
    assert Canonical("title") && Canonical("name");
    CanonicalStays("title");
    CanonicalStays("name");
  }

  lemma ShowsBoth(text: string, source: Name)
    requires text != ""
    ensures IsPresent(Showing(text, source), TITLE) && IsPresent(Showing(text, source), ALIAS)
  {
    DefaultFieldsPlain(0);
    var first := DEFAULT_WEIGHTS[0];
    assert first in DEFAULT_WEIGHTS && first.field == TITLE;
  }

  const LINK := "https://a.b/0123456789012345678901234567"

  lemma LinkIsSound()
    ensures SoundText(LINK)
  {
    var scheme := "https://";
    assert IsDigit(LINK[12]);
    assert forall i :: 0 <= i < |scheme| ==> Lower(LINK)[i] == scheme[i];
    assert Lower(LINK)[..|scheme|] == scheme;
  }

  /** Under the default weights: a record of the best source, sound in every field and asked for its
      title under an alias it shows as well. */
  lemma SoundRecordPassesOne(env: Env, surface: string, best: Name, text: string, aliasMap: seq<AliasList>)
    requires GoodTiers(env) && env.rules == SOURCE_RULES && SoundText(text)
    requires best != NO_NAME && best in env.tiers && env.tiers[best].quality == 1.0
    ensures var r, q := Showing(text, best), Request([TITLE], [ALIAS], aliasMap);
            Denominator(DEFAULT_WEIGHTS, q) > 0.0 && RawScore(env, surface, r, DEFAULT_WEIGHTS, q) > 1.0
  {
    forall i | 0 <= i < |DEFAULT_WEIGHTS|
      ensures Flawless(env, surface, Showing(text, best), DEFAULT_WEIGHTS[i].field)
      ensures DEFAULT_WEIGHTS[i].weight > 0.0
    {
      DefaultFieldsPlain(i);
      ShowingIsFlawless(env, surface, text, best, i);
    }
    TitleAndAlias();
    ShowsBoth(text, best);
    TwoNamesPassOne(env, surface, Showing(text, best), DEFAULT_WEIGHTS, TITLE, ALIAS, aliasMap);
  }

  /** The upper clamp does act: such a record shows one long link everywhere. */
  lemma UpperClampActs(env: Env, surface: string, best: Name, aliasMap: seq<AliasList>)
    requires GoodTiers(env) && env.rules == SOURCE_RULES
    requires best != NO_NAME && best in env.tiers && env.tiers[best].quality == 1.0
    ensures var r, q := Showing(LINK, best), Request([TITLE], [ALIAS], aliasMap);
            && Denominator(DEFAULT_WEIGHTS, q) > 0.0
            && RawScore(env, surface, r, DEFAULT_WEIGHTS, q)
               > 1.0 == Clamped(RawScore(env, surface, r, DEFAULT_WEIGHTS, q))
  {
    LinkIsSound();
    SoundRecordPassesOne(env, surface, best, LINK, aliasMap);
  }
}
