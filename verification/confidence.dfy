/** Scoring a record: weighted field quality with penalties, and a bonus for requested fields.
    Arithmetic is over the reals; the final rounding to four places is left out. */
module Confidence {
  import opened Text
  import opened RequestedFields
  import opened PythonValues

  datatype Tier = Tier(name: string, quality: real)

  /** The field names and texts the penalties look for. */
  datatype Rules = Rules(
    thinFields: set<Name>,
    pricedFields: set<Name>,
    linkedFields: set<Name>,
    genericTitles: set<string>,
    vagueAvailability: set<string>)

  /** The values written out in the source. */
  const SOURCE_RULES := Rules(
    {Name("description"), Name("responsibilities"), Name("qualifications")},
    {Name("price"), Name("salary")},
    {Name("image_url"), Name("apply_url"), Name("url")},
    {"product", "item", "detail", "details", "job", "career opportunity", "untitled", "listing"},
    {"maybe", "unknown", "n/a"})

  /** Tables of other modules, and the two text forms that need a printer. */
  datatype Env = Env(
    tiers: map<Name, Tier>,
    rules: Rules,
    repr: Value -> string,
    dictText: Value -> string)

  /** A record's field values, its sources per field in order, and its overall source. */
  datatype Record = Record(values: map<Name, Value>, sources: seq<Sourced>, source: Name)

  datatype Sourced = Sourced(field: Name, sources: seq<Name>)

  datatype Weight = Weight(field: Name, weight: real)

  /** What a surface without weights of its own is scored on. */
  const DEFAULT_WEIGHTS := [
    Weight(TITLE, 1.0), Weight(Name("description"), 1.0), Weight(Name("image_url"), 1.0),
    Weight(Name("price"), 1.0), Weight(Name("company"), 1.0), Weight(Name("location"), 1.0)]

  function WeightsFor(tables: map<string, seq<Weight>>, surface: string): seq<Weight> {
    if surface in tables && tables[surface] != [] then tables[surface] else DEFAULT_WEIGHTS
  }

  const BASE_QUALITY := 0.58
  const MAX_PENALTY := 0.85
  const REQUESTED_SHARE := 0.15

  predicate IsEmpty(v: Value) {
    v == Null || v == Str("") || v == List([]) || v == Dict(map[])
  }

  predicate IsPresent(r: Record, field: Name) {
    field in r.values && !IsEmpty(r.values[field])
  }

  /** The sources listed for a field, if it is listed. */
  function SourcesOf(sources: seq<Sourced>, field: Name): Option<seq<Name>> {
    if sources == [] then None
    else if sources[0].field == field then Some(sources[0].sources)
    else SourcesOf(sources[1..], field)
  }

  function SourceList(sources: seq<Sourced>, field: Name): seq<Name> {
    var s := SourcesOf(sources, field);
    if s.Some? then s.value else []
  }

  // ---------------------------------------------------------------- source quality

  function QualityOf(env: Env, source: Name): real {
    if source in env.tiers then env.tiers[source].quality else BASE_QUALITY
  }

  /** The best quality among the sources, never below the base. */
  function BestQuality(env: Env, sources: seq<Name>): (q: real)
    ensures q >= BASE_QUALITY
  {
    if sources == [] then BASE_QUALITY
    else
      var best, last := BestQuality(env, sources[..|sources| - 1]), QualityOf(env, sources[|sources| - 1]);
      if last > best then last else best
  }

  function FieldQuality(env: Env, r: Record, field: Name): real {
    BestQuality(env, CandidatesOf(r, field))
  }

  /** The tier of the first source with the best quality, "text" when none beats the base. */
  function BestTier(env: Env, sources: seq<Name>): string {
    if sources == [] then "text"
    else
      var before, last := sources[..|sources| - 1], sources[|sources| - 1];
      if last in env.tiers && env.tiers[last].quality > BestQuality(env, before) then env.tiers[last].name
      else BestTier(env, before)
  }

  /** Where a field's quality is read off: its listed sources, then the record's own. */
  function CandidatesOf(r: Record, field: Name): seq<Name> {
    SourceList(r.sources, field) + if r.source != NO_NAME then [r.source] else []
  }

  method FieldSourceQuality(env: Env, candidates: seq<Name>) returns (quality: real, tier: string)
    ensures quality == BestQuality(env, candidates) && tier == BestTier(env, candidates)
    ensures (tier == "text" && quality == BASE_QUALITY)
         || exists s :: s in candidates && s in env.tiers && env.tiers[s] == Tier(tier, quality)
  {
    quality, tier := BASE_QUALITY, "text";
    for i := 0 to |candidates|
      invariant quality == BestQuality(env, candidates[..i]) && tier == BestTier(env, candidates[..i])
      invariant (tier == "text" && quality == BASE_QUALITY)
             || exists s :: s in candidates && s in env.tiers && env.tiers[s] == Tier(tier, quality)
    {
      assert candidates[..i + 1][..i] == candidates[..i];
      var s := candidates[i];
      assert s in candidates;
      if s in env.tiers && env.tiers[s].quality > quality {
        quality, tier := env.tiers[s].quality, env.tiers[s].name;
      }
    }
    assert candidates[..|candidates|] == candidates;
  }

  // ---------------------------------------------------------------- penalties

  datatype Penalty = Penalty(kind: string, weight: real)

  function JoinTexts(env: Env, items: seq<Value>): string {
    if items == [] then []
    else
      var text, rest := Strip(TextOr(env.repr, items[0], "")), JoinTexts(env, items[1..]);
      if text == "" then rest else if rest == "" then text else text + " " + rest
  }

  function TextValue(env: Env, v: Value): string {
    match v
    case List(items) => Strip(JoinTexts(env, items))
    case Dict(_) => env.dictText(v)
    case _ => Strip(TextOr(env.repr, v, ""))
  }

  const TITLE := Name("title")
  const URL_SLUG := Name("url_slug")

  const AVAILABILITY := Name("availability")
  const POSTED_DATE := Name("posted_date")

  predicate IsGenericTitle(rules: Rules, text: string) {
    Lower(text) in rules.genericTitles
  }

  function TitlePenalty(rules: Rules, text: string, fromSlug: bool): seq<Penalty> {
    if IsGenericTitle(rules, text) then [Penalty("generic_title", 0.55)]
    else if fromSlug then [Penalty("generic_title", 0.25)]
    else if |text| < 4 then [Penalty("too_short", 0.35)]
    else []
  }

  predicate HasDigit(text: string) {
    exists i :: 0 <= i < |text| && IsDigit(text[i])
  }

  predicate LooksLikeUrl(text: string) {
    "http://" <= Lower(text) || "https://" <= Lower(text)
  }

  function PenaltyIf(applies: bool, kind: string, weight: real): seq<Penalty> {
    if applies then [Penalty(kind, weight)] else []
  }

  function ShapePenalties(rules: Rules, field: Name, text: string): seq<Penalty> {
    PenaltyIf(field in rules.thinFields && |text| < 40, "thin_content", 0.4)
    + PenaltyIf(field in rules.pricedFields && text != "" && !HasDigit(text), "non_numeric_value", 0.45)
    + PenaltyIf(field in rules.linkedFields && text != "" && !LooksLikeUrl(text), "non_url_value", 0.45)
  }

  function SurfacePenalties(rules: Rules, surface: string, field: Name, text: string): seq<Penalty> {
    PenaltyIf(surface == "ecommerce_detail" && field == AVAILABILITY && Lower(text) in rules.vagueAvailability,
              "ambiguous_availability", 0.35)
    + PenaltyIf(surface == "job_detail" && field == POSTED_DATE && text != "" && |text| < 8, "partial_date", 0.25)
  }

  function FieldPenalties(env: Env, surface: string, r: Record, field: Name): seq<Penalty>
    requires field in r.values
  {
    PenaltiesOf(env.rules, surface, field, TextValue(env, r.values[field]), URL_SLUG in SourceList(r.sources, field))
  }

  function PenaltiesOf(rules: Rules, surface: string, field: Name, text: string, fromSlug: bool): seq<Penalty> {
    (if field == TITLE then TitlePenalty(rules, text, fromSlug) else [])
    + ShapePenalties(rules, field, text) + SurfacePenalties(rules, surface, field, text)
  }

  function Total(penalties: seq<Penalty>): real {
    if penalties == [] then 0.0 else penalties[0].weight + Total(penalties[1..])
  }

  function PenaltyFactor(penalties: seq<Penalty>): real {
    1.0 - if Total(penalties) < MAX_PENALTY then Total(penalties) else MAX_PENALTY
  }

  function Factor(env: Env, surface: string, r: Record, field: Name): real
    requires field in r.values
  {
    PenaltyFactor(FieldPenalties(env, surface, r, field))
  }

  // ---------------------------------------------------------------- the weighted part

  function Contribution(env: Env, surface: string, r: Record, w: Weight): real {
    if !IsPresent(r, w.field) then 0.0
    else Share(w.weight, FieldQuality(env, r, w.field), Factor(env, surface, r, w.field))
  }

  function Share(weight: real, quality: real, factor: real): real {
    weight * (quality * factor)
  }

  function WeightedScore(env: Env, surface: string, r: Record, weights: seq<Weight>): real {
    if weights == [] then 0.0
    else
      WeightedScore(env, surface, r, weights[..|weights| - 1])
      + Contribution(env, surface, r, weights[|weights| - 1])
  }

  function PresentFields(r: Record, weights: seq<Weight>): seq<Name> {
    if weights == [] then []
    else
      var rest, w := PresentFields(r, weights[..|weights| - 1]), weights[|weights| - 1];
      if IsPresent(r, w.field) then rest + [w.field] else rest
  }

  function MissingFields(r: Record, weights: seq<Weight>): seq<Name> {
    if weights == [] then []
    else
      var rest, w := MissingFields(r, weights[..|weights| - 1]), weights[|weights| - 1];
      if IsPresent(r, w.field) then rest else rest + [w.field]
  }

  /** A penalty with the field it is charged to. */
  datatype Charged = Charged(field: Name, penalty: Penalty)

  function Charge(field: Name, penalties: seq<Penalty>): seq<Charged> {
    seq(|penalties|, i requires 0 <= i < |penalties| => Charged(field, penalties[i]))
  }

  /** The penalties of all present fields, in the order of the weights. */
  function AllPenalties(env: Env, surface: string, r: Record, weights: seq<Weight>): seq<Charged> {
    if weights == [] then []
    else
      var rest, w := AllPenalties(env, surface, r, weights[..|weights| - 1]), weights[|weights| - 1];
      if IsPresent(r, w.field) then rest + Charge(w.field, FieldPenalties(env, surface, r, w.field)) else rest
  }

  datatype TierWeight = TierWeight(tier: string, weight: real)

  /** `weights[tier] += weight`, a new tier behind the others. */
  function AddTier(tiers: seq<TierWeight>, tier: string, weight: real): seq<TierWeight> {
    if tiers == [] then [TierWeight(tier, weight)]
    else if tiers[0].tier == tier then [TierWeight(tier, tiers[0].weight + weight)] + tiers[1..]
    else [tiers[0]] + AddTier(tiers[1..], tier, weight)
  }

  function TierWeights(env: Env, r: Record, weights: seq<Weight>): seq<TierWeight> {
    if weights == [] then []
    else
      var rest, w := TierWeights(env, r, weights[..|weights| - 1]), weights[|weights| - 1];
      if IsPresent(r, w.field) then AddTier(rest, BestTier(env, CandidatesOf(r, w.field)), w.weight) else rest
  }

  function TierSum(tiers: seq<TierWeight>): real {
    if tiers == [] then 0.0 else tiers[0].weight + TierSum(tiers[1..])
  }

  lemma {:induction false} AddTierSum(tiers: seq<TierWeight>, tier: string, weight: real)
    ensures TierSum(AddTier(tiers, tier, weight)) == TierSum(tiers) + weight
  {
    if tiers != [] && tiers[0].tier != tier {
      AddTierSum(tiers[1..], tier, weight);
      assert AddTier(tiers, tier, weight)[1..] == AddTier(tiers[1..], tier, weight);
    }
  }

  /** Conservation: the weights of the tiers add up to the weight of the present fields. */
  lemma {:induction false} TierWeightsAddUp(env: Env, r: Record, weights: seq<Weight>)
    ensures TierSum(TierWeights(env, r, weights)) == PresentWeight(r, weights)
  {
    if weights != [] {
      var w := weights[|weights| - 1];
      TierWeightsAddUp(env, r, weights[..|weights| - 1]);
      AddTierSum(TierWeights(env, r, weights[..|weights| - 1]), BestTier(env, CandidatesOf(r, w.field)), w.weight);
    }
  }

  /** One turn of the loop for a present field. */
  method ScoreField(env: Env, surface: string, r: Record, w: Weight)
    returns (share: real, tier: string, items: seq<Penalty>)
    requires IsPresent(r, w.field)
    ensures share == Contribution(env, surface, r, w)
    ensures tier == BestTier(env, CandidatesOf(r, w.field)) && items == FieldPenalties(env, surface, r, w.field)
  {
    var quality;
    quality, tier := FieldSourceQuality(env, CandidatesOf(r, w.field));
    items := FieldPenalties(env, surface, r, w.field);
    share := Share(w.weight, quality, PenaltyFactor(items));
  }

  /** The loop of `_weighted_field_confidence`. */
  method WeightedFieldConfidence(env: Env, surface: string, r: Record, weights: seq<Weight>)
    returns (score: real, present: seq<Name>, missing: seq<Name>, penalties: seq<Charged>, tiers: seq<TierWeight>)
    ensures score == WeightedScore(env, surface, r, weights)
    ensures present == PresentFields(r, weights) && missing == MissingFields(r, weights)
    ensures penalties == AllPenalties(env, surface, r, weights) && tiers == TierWeights(env, r, weights)
    ensures TierSum(tiers) == PresentWeight(r, weights)
  {
    score, present, missing, penalties, tiers := 0.0, [], [], [], [];
    for i := 0 to |weights|
      invariant score == WeightedScore(env, surface, r, weights[..i])
      invariant present == PresentFields(r, weights[..i]) && missing == MissingFields(r, weights[..i])
      invariant penalties == AllPenalties(env, surface, r, weights[..i]) && tiers == TierWeights(env, r, weights[..i])
    {
      assert weights[..i + 1][..i] == weights[..i];
      var w := weights[i];
      if !IsPresent(r, w.field) {
        missing := missing + [w.field];
      } else {
        present := present + [w.field];
        var share, tier, items := ScoreField(env, surface, r, w);
        score := score + share;
        tiers := AddTier(tiers, tier, w.weight);
        penalties := penalties + Charge(w.field, items);
      }
    }
    assert weights[..|weights|] == weights;
    TierWeightsAddUp(env, r, weights);
  }

  function WeightSum(weights: seq<Weight>): real {
    if weights == [] then 0.0 else WeightSum(weights[..|weights| - 1]) + weights[|weights| - 1].weight
  }

  function PresentWeight(r: Record, weights: seq<Weight>): real {
    if weights == [] then 0.0
    else
      var rest, w := PresentWeight(r, weights[..|weights| - 1]), weights[|weights| - 1];
      if IsPresent(r, w.field) then rest + w.weight else rest
  }

  // ---------------------------------------------------------------- bounds

  ghost predicate GoodTiers(env: Env) {
    forall s :: s in env.tiers ==> 0.0 <= env.tiers[s].quality <= 1.0
  }

  ghost predicate Positive(weights: seq<Weight>) {
    weights != [] && forall i :: 0 <= i < |weights| ==> weights[i].weight > 0.0
  }

  lemma {:induction false} QualityBounded(env: Env, sources: seq<Name>)
    requires GoodTiers(env)
    ensures BASE_QUALITY <= BestQuality(env, sources) <= 1.0
  {
    if sources != [] {
      QualityBounded(env, sources[..|sources| - 1]);
    }
  }

  predicate NonNegative(penalties: seq<Penalty>) {
    forall i :: 0 <= i < |penalties| ==> penalties[i].weight >= 0.0
  }

  lemma {:induction false} FactorBounded(penalties: seq<Penalty>)
    requires NonNegative(penalties)
    ensures Total(penalties) >= 0.0 && 0.15 <= PenaltyFactor(penalties) <= 1.0
  {
    if penalties != [] {
      FactorBounded(penalties[1..]);
    }
  }

  lemma ConcatNonNegative(a: seq<Penalty>, b: seq<Penalty>)
    requires NonNegative(a) && NonNegative(b)
    ensures NonNegative(a + b)
  {
  }

  lemma ShapeNonNegative(rules: Rules, field: Name, text: string)
    ensures NonNegative(ShapePenalties(rules, field, text))
  {
    var thin := PenaltyIf(field in rules.thinFields && |text| < 40, "thin_content", 0.4);
    var priced := PenaltyIf(field in rules.pricedFields && text != "" && !HasDigit(text), "non_numeric_value", 0.45);
    ConcatNonNegative(thin, priced);
    var linked := PenaltyIf(field in rules.linkedFields && text != "" && !LooksLikeUrl(text), "non_url_value", 0.45);
    ConcatNonNegative(thin + priced, linked);
  }

  lemma PenaltiesNonNegative(rules: Rules, surface: string, field: Name, text: string, fromSlug: bool)
    ensures NonNegative(PenaltiesOf(rules, surface, field, text, fromSlug))
  {
    var title := if field == TITLE then TitlePenalty(rules, text, fromSlug) else [];
    var shape, onSurface := ShapePenalties(rules, field, text), SurfacePenalties(rules, surface, field, text);
    ShapeNonNegative(rules, field, text);
    ThreeNonNegative(title, shape, onSurface);
  }

  lemma ThreeNonNegative(a: seq<Penalty>, b: seq<Penalty>, c: seq<Penalty>)
    requires NonNegative(a) && NonNegative(b) && NonNegative(c)
    ensures NonNegative(a + b + c)
  {
  }

  lemma Shrinks(q: real, f: real)
    requires q <= 1.0 && f >= 0.0
    ensures q * f <= f && f * q <= f
  {
  }

  lemma QualityShare(q: real, f: real)
    requires 0.58 <= q && 0.15 <= f
    ensures q * f >= 0.087
  {
    assert (q - 0.58) * f >= 0.0;
    assert (q - 0.58) * f == q * f - 0.58 * f;
  }

  lemma WeightShare(w: real, x: real)
    requires w > 0.0 && 0.087 <= x
    ensures 0.087 * w <= w * x
  {
    assert w * (x - 0.087) >= 0.0;
    assert w * (x - 0.087) == w * x - w * 0.087;
  }

  lemma ShareBounded(w: real, q: real, f: real)
    requires w > 0.0 && 0.58 <= q <= 1.0 && 0.15 <= f <= 1.0
    ensures 0.087 * w <= Share(w, q, f) <= w
  {
    QualityShare(q, f);
    Shrinks(q, f);
    WeightShare(w, q * f);
    Shrinks(q * f, w);
  }

  lemma FactorOfField(env: Env, surface: string, r: Record, field: Name)
    requires field in r.values
    ensures 0.15 <= Factor(env, surface, r, field) <= 1.0
  {
    PenaltiesNonNegative(env.rules, surface, field, TextValue(env, r.values[field]),
                         URL_SLUG in SourceList(r.sources, field));
    FactorBounded(FieldPenalties(env, surface, r, field));
  }

  lemma ContributionBounded(env: Env, surface: string, r: Record, w: Weight)
    requires GoodTiers(env) && w.weight > 0.0 && IsPresent(r, w.field)
    ensures 0.087 * w.weight <= Contribution(env, surface, r, w) <= w.weight
  {
    QualityBounded(env, CandidatesOf(r, w.field));
    FactorOfField(env, surface, r, w.field);
    ShareBounded(w.weight, FieldQuality(env, r, w.field), Factor(env, surface, r, w.field));
  }

  lemma {:induction false} WeightedBounded(env: Env, surface: string, r: Record, weights: seq<Weight>)
    requires GoodTiers(env) && forall i :: 0 <= i < |weights| ==> weights[i].weight > 0.0
    ensures 0.087 * PresentWeight(r, weights) <= WeightedScore(env, surface, r, weights) <= PresentWeight(r, weights)
    ensures 0.0 <= PresentWeight(r, weights) <= WeightSum(weights)
    ensures weights != [] ==> WeightSum(weights) > 0.0
  {
    if weights != [] {
      var w := weights[|weights| - 1];
      WeightedBounded(env, surface, r, weights[..|weights| - 1]);
      if IsPresent(r, w.field) {
        ContributionBounded(env, surface, r, w);
      }
    }
  }

  // ---------------------------------------------------------------- requested fields

  /** The alias lists of a surface, in order. */
  datatype AliasList = AliasList(canonical: Name, aliases: seq<Name>)

  function KeyOfName(n: Name): Name {
    KeyOf(n.text)
  }

  function KeysOfNames(names: seq<Name>): seq<Name> {
    seq(|names|, i requires 0 <= i < |names| => KeyOfName(names[i]))
  }

  function AliasesOf(aliasMap: seq<AliasList>, field: Name): seq<Name> {
    if aliasMap == [] then []
    else if aliasMap[0].canonical == field then aliasMap[0].aliases
    else AliasesOf(aliasMap[1..], field)
  }

  /** `setdefault` of every alias key of one list, behind its canonical key. */
  function SetDefaults(m: map<Name, Name>, keys: seq<Name>, canonical: Name): map<Name, Name> {
    if keys == [] then m
    else
      var rest, k := SetDefaults(m, keys[..|keys| - 1], canonical), keys[|keys| - 1];
      if k == NO_NAME || k in rest then rest else rest[k := canonical]
  }

  function AliasToCanonical(aliasMap: seq<AliasList>): map<Name, Name> {
    if aliasMap == [] then map[]
    else
      var last := aliasMap[|aliasMap| - 1];
      var key := KeyOfName(last.canonical);
      SetDefaults(AliasToCanonical(aliasMap[..|aliasMap| - 1]), [key] + KeysOfNames(last.aliases), key)
  }

  function AddNew(ordered: seq<Name>, k: Name): seq<Name> {
    if k == NO_NAME || k in ordered then ordered else ordered + [k]
  }

  function AddAllNew(ordered: seq<Name>, keys: seq<Name>): seq<Name>
    decreases |keys|
  {
    if keys == [] then ordered else AddAllNew(AddNew(ordered, keys[0]), keys[1..])
  }

  /** The keys one requested name stands for, after those already collected. */
  function AddRequest(ordered: seq<Name>, k: Name, toCanonical: map<Name, Name>, aliasMap: seq<AliasList>): seq<Name> {
    if k == NO_NAME || k in ordered then ordered
    else
      AddAllNew(ordered + [k],
                (if k in toCanonical then [toCanonical[k]] else []) + KeysOfNames(AliasesOf(aliasMap, k)))
  }

  function MatchKeysFrom(requests: seq<Name>, toCanonical: map<Name, Name>, aliasMap: seq<AliasList>): seq<Name> {
    if requests == [] then []
    else
      AddRequest(MatchKeysFrom(requests[..|requests| - 1], toCanonical, aliasMap), requests[|requests| - 1],
                 toCanonical, aliasMap)
  }

  function MatchKeys(requested: seq<Name>, raw: seq<Name>, aliasMap: seq<AliasList>): seq<Name> {
    MatchKeysFrom(KeysOfNames(requested + raw), AliasToCanonical(aliasMap), aliasMap)
  }

  /** The listed field whose key is `k`; of several the last. */
  function SourceFieldByKey(sources: seq<Sourced>, k: Name): Option<Name> {
    if sources == [] then None
    else if KeyOfName(sources[|sources| - 1].field) == k then Some(sources[|sources| - 1].field)
    else SourceFieldByKey(sources[..|sources| - 1], k)
  }

  function FirstMatch(r: Record, candidates: seq<Name>): Option<Name> {
    if candidates == [] then None
    else
      var k := candidates[0];
      var listed := SourceFieldByKey(r.sources, k);
      if k != NO_NAME && IsPresent(r, k) then Some(k)
      else if k != NO_NAME && listed.Some? && listed.value != NO_NAME && IsPresent(r, listed.value) then listed
      else FirstMatch(r, candidates[1..])
  }

  /** The record's own field that answers a match key, if any. */
  function ResolveMatch(r: Record, field: Name, aliasMap: seq<AliasList>): Option<Name> {
    FirstMatch(r, [KeyOfName(field)] + KeysOfNames(AliasesOf(aliasMap, KeyOfName(field))))
  }

  datatype Match = Match(requested: Name, actual: Name)

  function Matches(r: Record, keys: seq<Name>, aliasMap: seq<AliasList>): seq<Match> {
    if keys == [] then []
    else
      var rest, m := Matches(r, keys[..|keys| - 1], aliasMap), ResolveMatch(r, keys[|keys| - 1], aliasMap);
      if m.Some? then rest + [Match(keys[|keys| - 1], m.value)] else rest
  }

  /** Requested fields without a match, appended once each to those already missing. */
  function ExtendMissing(missing: seq<Name>, requested: seq<Name>, matched: set<Name>): seq<Name>
    decreases |requested|
  {
    if requested == [] then missing
    else
      var f := requested[0];
      ExtendMissing(if f !in matched && f !in missing then missing + [f] else missing, requested[1..], matched)
  }

  function QualitySum(env: Env, r: Record, matches: seq<Match>): real {
    if matches == [] then 0.0
    else QualitySum(env, r, matches[..|matches| - 1]) + FieldQuality(env, r, matches[|matches| - 1].actual)
  }

  function AtLeastOne(n: nat): real {
    if n > 1 then n as real else 1.0
  }

  function Bonus(env: Env, r: Record, matches: seq<Match>, requested: nat): real {
    QualitySum(env, r, matches) / AtLeastOne(requested)
  }

  function Matched(matches: seq<Match>): set<Name> {
    set m | m in matches :: m.requested
  }

  // ---------------------------------------------------------------- the score

  datatype Request = Request(requested: seq<Name>, raw: seq<Name>, aliasMap: seq<AliasList>)

  function MatchesFor(r: Record, q: Request): seq<Match> {
    Matches(r, MatchKeys(q.requested, q.raw, q.aliasMap), q.aliasMap)
  }

  function BonusFor(env: Env, r: Record, q: Request): real {
    Bonus(env, r, MatchesFor(r, q), |q.requested|)
  }

  function Numerator(env: Env, surface: string, r: Record, weights: seq<Weight>, q: Request): real {
    WeightedScore(env, surface, r, weights) + if q.requested != [] then REQUESTED_SHARE * BonusFor(env, r, q) else 0.0
  }

  function Denominator(weights: seq<Weight>, q: Request): real {
    (if WeightSum(weights) == 0.0 then 1.0 else WeightSum(weights)) + if q.requested != [] then REQUESTED_SHARE else 0.0
  }

  /** The score before clamping and rounding. */
  function RawScore(env: Env, surface: string, r: Record, weights: seq<Weight>, q: Request): real
    requires Denominator(weights, q) > 0.0
  {
    Numerator(env, surface, r, weights, q) / Denominator(weights, q)
  }

  function Clamped(x: real): real {
    if x > 1.0 then 1.0 else if x < 0.0 then 0.0 else x
  }

  function MissingFor(r: Record, weights: seq<Weight>, q: Request): seq<Name> {
    ExtendMissing(MissingFields(r, weights), q.requested, Matched(MatchesFor(r, q)))
  }

  lemma {:induction false} QualitySumBounded(env: Env, r: Record, matches: seq<Match>)
    requires GoodTiers(env)
    ensures 0.0 <= QualitySum(env, r, matches) <= |matches| as real
  {
    if matches != [] {
      QualitySumBounded(env, r, matches[..|matches| - 1]);
      var m := matches[|matches| - 1];
      QualityBounded(env, CandidatesOf(r, m.actual));
    }
  }
}
