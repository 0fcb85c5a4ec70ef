/** What a field is charged, and what its text is, with the numbers and names of the source written out. */
module ConfidencePenalties {
  import opened Text
  import opened PythonValues
  import opened RequestedFields
  import opened Confidence

  /** Titles that say nothing. */
  predicate SaysNothing(title: string) {
    Lower(title) in {"product", "item", "detail", "details", "job", "career opportunity", "untitled", "listing"}
  }

  ghost predicate HasNoDigit(text: string) {
    forall i :: 0 <= i < |text| ==> !('0' <= text[i] <= '9')
  }

  predicate IsLink(text: string) {
    (|text| >= 7 && Lower(text[..7]) == "http://") || (|text| >= 8 && Lower(text[..8]) == "https://")
  }

  /** The penalties for a title; `slug` says whether the URL slug is among its sources. */
  predicate TitleCharged(field: string, text: string, slug: bool, kind: string, weight: real) {
    field == "title"
    && if SaysNothing(text) then kind == "generic_title" && weight == 0.55
       else if slug then kind == "generic_title" && weight == 0.25
       else |text| < 4 && kind == "too_short" && weight == 0.35
  }

  /** The penalties for the shape of a text. */
  ghost predicate ShapeCharged(field: string, text: string, kind: string, weight: real) {
    || (field in {"description", "responsibilities", "qualifications"} && |text| < 40
        && kind == "thin_content" && weight == 0.4)
    || (field in {"price", "salary"} && text != "" && HasNoDigit(text)
        && kind == "non_numeric_value" && weight == 0.45)
    || (field in {"image_url", "apply_url", "url"} && text != "" && !IsLink(text)
        && kind == "non_url_value" && weight == 0.45)
  }

  /** The penalties that depend on the surface. */
  predicate SurfaceCharged(surface: string, field: string, text: string, kind: string, weight: real) {
    || (surface == "ecommerce_detail" && field == "availability" && Lower(text) in {"maybe", "unknown", "n/a"}
        && kind == "ambiguous_availability" && weight == 0.35)
    || (surface == "job_detail" && field == "posted_date" && 0 < |text| < 8
        && kind == "partial_date" && weight == 0.25)
  }

  ghost predicate IsCharged(surface: string, field: string, text: string, slug: bool, p: Penalty) {
    || TitleCharged(field, text, slug, p.kind, p.weight)
    || ShapeCharged(field, text, p.kind, p.weight)
    || SurfaceCharged(surface, field, text, p.kind, p.weight)
  }

  lemma LinkExactly(text: string)
    ensures LooksLikeUrl(text) <==> IsLink(text)
  {
    var lowered := Lower(text);
    assert |text| >= 7 ==> lowered[..7] == Lower(text[..7]);
    assert |text| >= 8 ==> lowered[..8] == Lower(text[..8]);
  }

  lemma TitleExactly(field: Name, text: string, slug: bool, p: Penalty)
    ensures (field == TITLE && p in TitlePenalty(SOURCE_RULES, text, slug))
       <==> TitleCharged(field.text, text, slug, p.kind, p.weight)
    ensures |TitlePenalty(SOURCE_RULES, text, slug)| <= 1
  {
  }

  lemma NameIn(field: Name)
    ensures field in SOURCE_RULES.thinFields
       <==> field.text in {"description", "responsibilities", "qualifications"}
    ensures field in SOURCE_RULES.pricedFields <==> field.text in {"price", "salary"}
    ensures field in SOURCE_RULES.linkedFields <==> field.text in {"image_url", "apply_url", "url"}
  {
  }

  lemma ShapeExactly(field: Name, text: string, p: Penalty)
    ensures p in ShapePenalties(SOURCE_RULES, field, text) <==> ShapeCharged(field.text, text, p.kind, p.weight)
  {
    NameIn(field);
    LinkExactly(text);
    assert HasDigit(text) <==> !HasNoDigit(text);
  }

  lemma SurfaceExactly(surface: string, field: Name, text: string, p: Penalty)
    ensures p in SurfacePenalties(SOURCE_RULES, surface, field, text)
       <==> SurfaceCharged(surface, field.text, text, p.kind, p.weight)
  {
  }

  /** A present field is charged exactly the penalties whose condition holds. */
  lemma ChargedExactly(env: Env, surface: string, r: Record, field: Name, p: Penalty)
    requires env.rules == SOURCE_RULES && field in r.values
    ensures p in FieldPenalties(env, surface, r, field)
       <==> IsCharged(surface, field.text, TextValue(env, r.values[field]),
                      Name("url_slug") in SourceList(r.sources, field), p)
  {
    var text, slug := TextValue(env, r.values[field]), Name("url_slug") in SourceList(r.sources, field);
    TitleExactly(field, text, slug, p);
    ShapeExactly(field, text, p);
    SurfaceExactly(surface, field, text, p);
  }

  // ---------------------------------------------------------------- what the charges add up to

  function Charge(applies: bool, weight: real): real {
    if applies then weight else 0.0
  }

  ghost function TitleTotal(field: string, text: string, slug: bool): real {
    Charge(field == "title" && SaysNothing(text), 0.55)
    + Charge(field == "title" && !SaysNothing(text) && slug, 0.25)
    + Charge(field == "title" && !SaysNothing(text) && !slug && |text| < 4, 0.35)
  }

  ghost function ShapeTotal(field: string, text: string): real {
    Charge(field in {"description", "responsibilities", "qualifications"} && |text| < 40, 0.4)
    + Charge(field in {"price", "salary"} && text != "" && HasNoDigit(text), 0.45)
    + Charge(field in {"image_url", "apply_url", "url"} && text != "" && !IsLink(text), 0.45)
  }

  ghost function SurfaceTotal(surface: string, field: string, text: string): real {
    Charge(surface == "ecommerce_detail" && field == "availability" && Lower(text) in {"maybe", "unknown", "n/a"}, 0.35)
    + Charge(surface == "job_detail" && field == "posted_date" && 0 < |text| < 8, 0.25)
  }

  lemma {:induction false} TotalConcat(a: seq<Penalty>, b: seq<Penalty>)
    ensures Total(a + b) == Total(a) + Total(b)
  {
    if a == [] {
      assert a + b == b;
    } else {
      TotalConcat(a[1..], b);
      assert (a + b)[1..] == a[1..] + b;
    }
  }

  lemma TotalOfIf(applies: bool, kind: string, weight: real)
    ensures Total(PenaltyIf(applies, kind, weight)) == Charge(applies, weight)
  {
    assert [Penalty(kind, weight)][1..] == [];
  }

  lemma TitleTotalIs(field: Name, text: string, slug: bool)
    ensures Total(if field == TITLE then TitlePenalty(SOURCE_RULES, text, slug) else [])
         == TitleTotal(field.text, text, slug)
  {
    var t := TitlePenalty(SOURCE_RULES, text, slug);
    if t != [] {
      assert t[1..] == [];
    }
  }

  lemma ShapeTotalIs(field: Name, text: string)
    ensures Total(ShapePenalties(SOURCE_RULES, field, text)) == ShapeTotal(field.text, text)
  {
    var thin := PenaltyIf(field in SOURCE_RULES.thinFields && |text| < 40, "thin_content", 0.4);
    var priced := PenaltyIf(field in SOURCE_RULES.pricedFields && text != "" && !HasDigit(text),
                            "non_numeric_value", 0.45);
    var linked := PenaltyIf(field in SOURCE_RULES.linkedFields && text != "" && !LooksLikeUrl(text),
                            "non_url_value", 0.45);
    NameIn(field);
    LinkExactly(text);
    assert HasDigit(text) <==> !HasNoDigit(text);
    TotalConcat(thin + priced, linked);
    TotalConcat(thin, priced);
    TotalOfIf(field in SOURCE_RULES.thinFields && |text| < 40, "thin_content", 0.4);
    TotalOfIf(field in SOURCE_RULES.pricedFields && text != "" && !HasDigit(text), "non_numeric_value", 0.45);
    TotalOfIf(field in SOURCE_RULES.linkedFields && text != "" && !LooksLikeUrl(text), "non_url_value", 0.45);
  }

  lemma SurfaceTotalIs(surface: string, field: Name, text: string)
    ensures Total(SurfacePenalties(SOURCE_RULES, surface, field, text)) == SurfaceTotal(surface, field.text, text)
  {
    var vague := surface == "ecommerce_detail" && field == AVAILABILITY
                 && Lower(text) in SOURCE_RULES.vagueAvailability;
    var partial := surface == "job_detail" && field == POSTED_DATE && text != "" && |text| < 8;
    TotalConcat(PenaltyIf(vague, "ambiguous_availability", 0.35), PenaltyIf(partial, "partial_date", 0.25));
    TotalOfIf(vague, "ambiguous_availability", 0.35);
    TotalOfIf(partial, "partial_date", 0.25);
  }

  /** What a present field's quality is multiplied by: one less the sum of its charges, of which at
      most 0.85 count. */
  lemma FactorExactly(env: Env, surface: string, r: Record, field: Name)
    requires env.rules == SOURCE_RULES && field in r.values
    ensures var text, slug := TextValue(env, r.values[field]), Name("url_slug") in SourceList(r.sources, field);
            var total := TitleTotal(field.text, text, slug) + ShapeTotal(field.text, text)
                         + SurfaceTotal(surface, field.text, text);
            Factor(env, surface, r, field) == 1.0 - if total < 0.85 then total else 0.85
  {
    var text, slug := TextValue(env, r.values[field]), Name("url_slug") in SourceList(r.sources, field);
    var title := if field == TITLE then TitlePenalty(SOURCE_RULES, text, slug) else [];
    var shape, onSurface := ShapePenalties(SOURCE_RULES, field, text),
                            SurfacePenalties(SOURCE_RULES, surface, field, text);
    TotalConcat(title + shape, onSurface);
    TotalConcat(title, shape);
    TitleTotalIs(field, text, slug);
    ShapeTotalIs(field, text);
    SurfaceTotalIs(surface, field, text);
  }

  // ---------------------------------------------------------------- texts, presence and quality

  /** The text of one item, nothing for a falsy one. */
  function ItemText(env: Env, v: Value): string {
    if Truthy(v) then Strip(TextOf(env.repr, v)) else ""
  }

  /** The non-blank texts of the items, one space between them. */
  function Joined(env: Env, items: seq<Value>): string {
    if items == [] then ""
    else
      var before, text := Joined(env, items[..|items| - 1]), ItemText(env, items[|items| - 1]);
      if text == "" then before else if before == "" then text else before + " " + text
  }

  lemma {:induction false} JoinAppend(env: Env, items: seq<Value>, v: Value)
    ensures var before, text := JoinTexts(env, items), ItemText(env, v);
            JoinTexts(env, items + [v])
            == if text == "" then before else if before == "" then text else before + " " + text
  {
    var text := ItemText(env, v);
    assert Strip("") == "";
    if items == [] {
      assert (items + [v])[1..] == [];
      assert items + [v] == [v];
    } else {
      JoinAppend(env, items[1..], v);
      assert (items + [v])[1..] == items[1..] + [v];
      var first, rest := ItemText(env, items[0]), JoinTexts(env, items[1..]);
      assert first + " " + (rest + " " + text) == first + " " + rest + " " + text;
    }
  }

  lemma {:induction false} TextsJoin(env: Env, items: seq<Value>)
    ensures JoinTexts(env, items) == Joined(env, items)
  {
    if items != [] {
      var n := |items| - 1;
      TextsJoin(env, items[..n]);
      JoinAppend(env, items[..n], items[n]);
      assert items == items[..n] + [items[n]];
    }
  }

  /** The text of a value: its own, stripped, nothing when it is falsy; of a list the texts of its
      items joined. */
  lemma TextExactly(env: Env, v: Value)
    ensures !v.List? && !v.Dict? ==> TextValue(env, v) == ItemText(env, v)
    ensures v.List? ==> TextValue(env, v) == Strip(Joined(env, v.items))
  {
    assert Strip("") == "";
    if v.List? {
      TextsJoin(env, v.items);
    }
  }

  /** Present are the fields with any value but these four; zero and false count. */
  lemma PresentExactly(r: Record, field: Name)
    ensures IsPresent(r, field)
       <==> field in r.values
            && match r.values[field]
               case Null => false
               case Str(text) => |text| > 0
               case List(items) => |items| > 0
               case Dict(fields) => |fields| > 0
               case _ => true
  {
    if field in r.values && r.values[field].Dict? {
      assert r.values[field].fields != map[] <==> |r.values[field].fields| > 0;
    }
  }

  /** A field's quality is the best among the tiers of its listed sources and the record's own, at
      least 0.58, and no better than one of them allows. */
  lemma {:induction false} QualityExactly(env: Env, sources: seq<Name>)
    ensures BestQuality(env, sources) >= 0.58
    ensures forall s :: s in sources && s in env.tiers ==> BestQuality(env, sources) >= env.tiers[s].quality
    ensures BestQuality(env, sources) == 0.58
         || exists s :: s in sources && s in env.tiers && env.tiers[s].quality == BestQuality(env, sources)
  {
    if sources != [] {
      QualityExactly(env, sources[..|sources| - 1]);
      assert sources == sources[..|sources| - 1] + [sources[|sources| - 1]];
    }
  }

  /** The weights of a surface: its own if it has any, else one for each of six fields. */
  lemma WeightsExactly(tables: map<string, seq<Weight>>, surface: string)
    ensures surface in tables && |tables[surface]| > 0 ==> WeightsFor(tables, surface) == tables[surface]
    ensures surface !in tables || |tables[surface]| == 0 ==>
              var weights := WeightsFor(tables, surface);
              && |weights| == 6 && (forall i :: 0 <= i < 6 ==> weights[i].weight == 1.0)
              && weights[0].field.text == "title" && weights[1].field.text == "description"
              && weights[2].field.text == "image_url" && weights[3].field.text == "price"
              && weights[4].field.text == "company" && weights[5].field.text == "location"
  {
  }
}
