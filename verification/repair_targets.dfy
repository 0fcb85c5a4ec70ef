/** The fields a record is scored on by request: the names asked for, resolved, and the surface's own
    repair targets behind them. */
module RepairTargets {
  import opened Text
  import opened FieldKeys
  import opened RequestedFields
  import opened RequestedResolution

  /** The alias table with its prefixes, and the surface's allowed fields and repair targets. */
  datatype Policy = Policy(table: Table, prefixes: seq<string>, allowed: set<Name>, defaults: seq<Name>)

  function CleanName(text: string): Name {
    Name(Strip(JoinWords(text)))
  }

  /** The names asked for, cleaned, without the blank ones. */
  function CleanNames(texts: seq<string>): seq<Name> {
    if texts == [] then []
    else
      var before, last := CleanNames(texts[..|texts| - 1]), CleanName(texts[|texts| - 1]);
      if last == NO_NAME then before else before + [last]
  }

  method CleanNamesLoop(texts: seq<string>) returns (names: seq<Name>)
    ensures names == CleanNames(texts)
  {
    names := [];
    for i := 0 to |texts|
      invariant names == CleanNames(texts[..i])
    {
      assert texts[..i + 1][..i] == texts[..i];
      if CleanName(texts[i]) != NO_NAME {
        names := names + [CleanName(texts[i])];
      }
    }
    assert texts[..|texts|] == texts;
  }

  function ResolvedNames(p: Policy, asked: seq<Name>): seq<Name> {
    seq(|asked|, i requires 0 <= i < |asked| => Name(NormalizeRequestedField(p.table, p.prefixes, asked[i].text)))
  }

  /** `expand_requested_fields` as it runs. */
  method ExpandRequestedFields(p: Policy, asked: seq<Name>) returns (expanded: seq<Name>)
    ensures expanded == DistinctNames(ResolvedNames(p, asked))
  {
    expanded := [];
    ghost var resolved := ResolvedNames(p, asked);
    for i := 0 to |asked|
      invariant expanded == DistinctNames(resolved[..i])
    {
      assert resolved[..i + 1][..i] == resolved[..i];
      var field := NormalizeRequestedFieldLoop(p.table, p.prefixes, asked[i].text);
      if field != "" && Name(field) !in expanded {
        expanded := expanded + [Name(field)];
      }
    }
    assert resolved[..|asked|] == resolved;
  }

  function Filtered(names: seq<Name>, keep: Name -> bool): seq<Name> {
    if names == [] then []
    else
      var before, last := Filtered(names[..|names| - 1], keep), names[|names| - 1];
      if keep(last) then before + [last] else before
  }

  lemma {:induction false} FilteredHolds(names: seq<Name>, keep: Name -> bool, f: Name)
    ensures f in Filtered(names, keep) <==> f in names && keep(f)
  {
    if names != [] {
      FilteredHolds(names[..|names| - 1], keep, f);
      assert names == names[..|names| - 1] + [names[|names| - 1]];
    }
  }

  ghost predicate NoRepeats(names: seq<Name>) {
    forall i, j :: 0 <= i < j < |names| ==> names[i] != names[j]
  }

  lemma {:induction false} FilteredNoRepeats(names: seq<Name>, keep: Name -> bool)
    requires NoRepeats(names)
    ensures NoRepeats(Filtered(names, keep))
  {
    if names != [] {
      var before, last := names[..|names| - 1], names[|names| - 1];
      FilteredNoRepeats(before, keep);
      FilteredHolds(before, keep, last);
    }
  }

  /** A configured name is looked up by its key, a resolved one as it is. */
  predicate AllowedName(p: Policy, f: Name) {
    f != NO_NAME && f in p.allowed
  }

  predicate AllowedDefault(p: Policy, f: Name) {
    AllowedName(p, KeyOf(f.text))
  }

  function Requested(p: Policy, asked: seq<Name>): seq<Name> {
    Filtered(DistinctNames(ResolvedNames(p, asked)), f => AllowedName(p, f))
  }

  function Targets(p: Policy, asked: seq<Name>): seq<Name> {
    Requested(p, asked) + Filtered(Filtered(p.defaults, f => AllowedDefault(p, f)), f => f !in Requested(p, asked))
  }

  /** `repair_target_fields_for_surface` as it runs. */
  method RepairTargetFields(p: Policy, asked: seq<Name>) returns (targets: seq<Name>)
    ensures targets == Targets(p, asked)
  {
    var expanded := ExpandRequestedFields(p, asked);
    var requested := Filtered(expanded, f => AllowedName(p, f));
    var defaults := Filtered(p.defaults, f => AllowedDefault(p, f));
    targets := requested + Filtered(defaults, f => f !in requested);
  }

  ghost predicate Asked(p: Policy, asked: seq<Name>, f: Name) {
    exists i :: 0 <= i < |asked| && Name(NormalizeRequestedField(p.table, p.prefixes, asked[i].text)) == f
  }

  lemma AskedIsResolved(p: Policy, asked: seq<Name>, f: Name)
    ensures Asked(p, asked, f) <==> f in ResolvedNames(p, asked)
  {
    if i :| 0 <= i < |asked| && Name(NormalizeRequestedField(p.table, p.prefixes, asked[i].text)) == f {
      assert ResolvedNames(p, asked)[i] == f;
    }
  }

  /** The targets are exactly the allowed fields some asked name resolves to, and the surface's own
      targets with an allowed key. */
  lemma TargetsExactly(p: Policy, asked: seq<Name>, f: Name)
    ensures f in Targets(p, asked)
       <==> (AllowedName(p, f) && Asked(p, asked, f)) || (f in p.defaults && AllowedDefault(p, f))
  {
    var keep := (g: Name) => AllowedName(p, g);
    var keepDefault := (g: Name) => AllowedDefault(p, g);
    var keepNew := (g: Name) => g !in Requested(p, asked);
    var resolved := ResolvedNames(p, asked);
    AskedIsResolved(p, asked, f);
    DistinctNamesHold(resolved, f);
    FilteredHolds(DistinctNames(resolved), keep, f);
    FilteredHolds(p.defaults, keepDefault, f);
    FilteredHolds(Filtered(p.defaults, keepDefault), keepNew, f);
  }

  lemma ApartNoRepeats(a: seq<Name>, b: seq<Name>)
    requires NoRepeats(a) && NoRepeats(b) && forall f :: f in b ==> f !in a
    ensures NoRepeats(a + b)
  {
    forall i, j | 0 <= i < j < |a + b|
      ensures (a + b)[i] != (a + b)[j]
    {
      if i < |a| <= j {
        assert b[j - |a|] in b && a[i] in a;
      }
    }
  }

  lemma RequestedNoRepeats(p: Policy, asked: seq<Name>)
    ensures NoRepeats(Requested(p, asked))
  {
    DistinctNamesHold(ResolvedNames(p, asked), NO_NAME);
    FilteredNoRepeats(DistinctNames(ResolvedNames(p, asked)), f => AllowedName(p, f));
  }

  lemma NewNoRepeats(names: seq<Name>, listed: seq<Name>)
    requires NoRepeats(names) && NoRepeats(listed)
    ensures NoRepeats(listed + Filtered(names, f => f !in listed))
  {
    var keep := (f: Name) => f !in listed;
    FilteredNoRepeats(names, keep);
    forall f | f in Filtered(names, keep)
      ensures f !in listed
    {
      FilteredHolds(names, keep, f);
    }
    ApartNoRepeats(listed, Filtered(names, keep));
  }

  /** No target is listed twice unless the configuration lists it twice. */
  lemma TargetsNoRepeats(p: Policy, asked: seq<Name>)
    requires NoRepeats(p.defaults)
    ensures NoRepeats(Targets(p, asked))
  {
    RequestedNoRepeats(p, asked);
    FilteredNoRepeats(p.defaults, f => AllowedDefault(p, f));
    NewNoRepeats(Filtered(p.defaults, f => AllowedDefault(p, f)), Requested(p, asked));
  }

  /** A configuration that writes its fields as keys. */
  ghost predicate KeyedPolicy(p: Policy) {
    (forall f :: f in p.allowed ==> KeyOf(f.text) == f) && (forall f :: f in p.defaults ==> KeyOf(f.text) == f)
  }

  /** Under such a configuration every target is its own key, whatever was asked for. */
  lemma TargetsAreKeys(p: Policy, asked: seq<Name>, f: Name)
    requires KeyedPolicy(p) && f in Targets(p, asked)
    ensures KeyOf(f.text) == f && f != NO_NAME && f in p.allowed
  {
    TargetsExactly(p, asked, f);
  }
}
