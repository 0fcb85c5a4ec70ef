/** What the alias lists of a surface and the listed sources of a record lead to. */
module ConfidenceAliases {
  import opened Text
  import opened RequestedFields
  import opened Confidence

  lemma {:induction false} SetDefaultsHold(m: map<Name, Name>, keys: seq<Name>, canonical: Name, k: Name)
    ensures k in SetDefaults(m, keys, canonical) <==> k in m || (k in keys && k.text != "")
    ensures k in SetDefaults(m, keys, canonical) ==>
              SetDefaults(m, keys, canonical)[k] == if k in m then m[k] else canonical
  {
    if keys != [] {
      var before, last := keys[..|keys| - 1], keys[|keys| - 1];
      SetDefaultsHold(m, before, canonical, k);
      SetDefaultsHold(m, before, canonical, last);
      assert keys == before + [last];
    }
  }

  /** A list of aliases mentions a key by its own name or by one of its aliases. */
  ghost predicate Mentions(list: AliasList, k: Name) {
    k == KeyOfName(list.canonical) || exists alias :: alias in list.aliases && KeyOfName(alias) == k
  }

  /** The first list that mentions a key. */
  ghost function FirstMention(aliasMap: seq<AliasList>, k: Name): Option<AliasList> {
    if aliasMap == [] then None
    else if Mentions(aliasMap[0], k) then Some(aliasMap[0])
    else FirstMention(aliasMap[1..], k)
  }

  lemma {:induction false} FirstMentionAppend(aliasMap: seq<AliasList>, last: AliasList, k: Name)
    ensures FirstMention(aliasMap + [last], k)
         == if FirstMention(aliasMap, k).Some? then FirstMention(aliasMap, k)
            else if Mentions(last, k) then Some(last)
            else None
  {
    if aliasMap == [] {
      assert aliasMap + [last] == [last];
      assert [last][1..] == [];
    } else {
      FirstMentionAppend(aliasMap[1..], last, k);
      assert (aliasMap + [last])[1..] == aliasMap[1..] + [last];
    }
  }

  lemma MentionsIsKey(list: AliasList, k: Name)
    ensures k in [KeyOfName(list.canonical)] + KeysOfNames(list.aliases) <==> Mentions(list, k)
  {
    var keys := KeysOfNames(list.aliases);
    if k in keys {
      var i :| 0 <= i < |keys| && keys[i] == k;
      assert list.aliases[i] in list.aliases;
    }
    if alias :| alias in list.aliases && KeyOfName(alias) == k {
      var i :| 0 <= i < |list.aliases| && list.aliases[i] == alias;
      assert keys[i] == k;
    }
  }

  lemma DefaultsOfList(m: map<Name, Name>, list: AliasList, k: Name)
    ensures var r := SetDefaults(m, [KeyOfName(list.canonical)] + KeysOfNames(list.aliases), KeyOfName(list.canonical));
            && (k in r <==> k in m || (k.text != "" && Mentions(list, k)))
            && (k in r ==> r[k] == if k in m then m[k] else KeyOfName(list.canonical))
  {
    MentionsIsKey(list, k);
    SetDefaultsHold(m, [KeyOfName(list.canonical)] + KeysOfNames(list.aliases), KeyOfName(list.canonical), k);
  }

  /** The name a key leads to, if any. */
  function LeadsTo(m: map<Name, Name>, k: Name): Option<Name> {
    if k in m then Some(m[k]) else None
  }

  ghost function FirstName(aliasMap: seq<AliasList>, k: Name): Option<Name> {
    match FirstMention(aliasMap, k)
    case Some(list) => Some(KeyOfName(list.canonical))
    case None => None
  }

  lemma LeadsAppend(before: seq<AliasList>, last: AliasList, k: Name)
    ensures LeadsTo(AliasToCanonical(before + [last]), k)
         == if LeadsTo(AliasToCanonical(before), k).Some? then LeadsTo(AliasToCanonical(before), k)
            else if k.text != "" && Mentions(last, k) then Some(KeyOfName(last.canonical))
            else None
  {
    assert (before + [last])[..|before|] == before;
    DefaultsOfList(AliasToCanonical(before), last, k);
  }

  lemma FirstNameAppend(before: seq<AliasList>, last: AliasList, k: Name)
    ensures FirstName(before + [last], k)
         == if FirstName(before, k).Some? then FirstName(before, k)
            else if Mentions(last, k) then Some(KeyOfName(last.canonical))
            else None
  {
    FirstMentionAppend(before, last, k);
  }

  lemma NoneLead(k: Name)
    ensures LeadsTo(AliasToCanonical([]), k) == None == FirstName([], k)
  {
  }

  lemma LeadsNext(aliasMap: seq<AliasList>, before: seq<AliasList>, last: AliasList, k: Name)
    requires aliasMap == before + [last]
    requires LeadsTo(AliasToCanonical(before), k) == if k.text == "" then None else FirstName(before, k)
    ensures LeadsTo(AliasToCanonical(aliasMap), k) == if k.text == "" then None else FirstName(aliasMap, k)
  {
    LeadsAppend(before, last, k);
    FirstNameAppend(before, last, k);
  }

  lemma Prefixes(all: seq<AliasList>, n: nat)
    requires n < |all|
    ensures all[..n + 1] == all[..n] + [all[n]]
  {
  }

  lemma {:induction false} LeadsUpTo(aliasMap: seq<AliasList>, n: nat, k: Name)
    requires n <= |aliasMap|
    ensures LeadsTo(AliasToCanonical(aliasMap[..n]), k) == if k.text == "" then None else FirstName(aliasMap[..n], k)
  {
    if n == 0 {
      NoneLead(k);
    } else {
      LeadsUpTo(aliasMap, n - 1, k);
      Prefixes(aliasMap, n - 1);
      LeadsNext(aliasMap[..n], aliasMap[..n - 1], aliasMap[n - 1], k);
    }
  }

  /** A key leads to the name of the first list that mentions it; the empty key nowhere. */
  lemma AliasesLeadToFirst(aliasMap: seq<AliasList>, k: Name)
    ensures LeadsTo(AliasToCanonical(aliasMap), k) == if k.text == "" then None else FirstName(aliasMap, k)
  {
    LeadsUpTo(aliasMap, |aliasMap|, k);
    assert aliasMap[..|aliasMap|] == aliasMap;
  }

  /** The aliases of a field are those of the first list of that name. */
  lemma {:induction false} AliasesOfFirst(aliasMap: seq<AliasList>, field: Name, i: nat)
    requires i < |aliasMap| && aliasMap[i].canonical == field
    requires forall j :: 0 <= j < i ==> aliasMap[j].canonical != field
    ensures AliasesOf(aliasMap, field) == aliasMap[i].aliases
  {
    if i > 0 {
      AliasesOfFirst(aliasMap[1..], field, i - 1);
    }
  }

  /** The last of the listed fields with a key, read from the front. */
  function LastListed(sources: seq<Sourced>, k: Name): Option<Name> {
    if sources == [] then None
    else if LastListed(sources[1..], k).Some? then LastListed(sources[1..], k)
    else if KeyOfName(sources[0].field) == k then Some(sources[0].field)
    else None
  }

  lemma {:induction false} LastListedAppend(sources: seq<Sourced>, last: Sourced, k: Name)
    ensures LastListed(sources + [last], k)
         == if KeyOfName(last.field) == k then Some(last.field) else LastListed(sources, k)
  {
    if sources == [] {
      assert sources + [last] == [last];
      assert [last][1..] == [];
    } else {
      LastListedAppend(sources[1..], last, k);
      assert (sources + [last])[1..] == sources[1..] + [last];
    }
  }

  /** Of the listed fields with one key the last stands for it. */
  lemma {:induction false} SourceFieldIsLast(sources: seq<Sourced>, k: Name)
    ensures SourceFieldByKey(sources, k) == LastListed(sources, k)
  {
    if sources != [] {
      var n := |sources| - 1;
      SourceFieldIsLast(sources[..n], k);
      assert sources == sources[..n] + [sources[n]];
      assert SourceFieldByKey(sources[..n] + [sources[n]], k) == LastListed(sources[..n] + [sources[n]], k) by {
        LastListedAppend(sources[..n], sources[n], k);
        ByKeyAppend(sources[..n], sources[n], k);
      }
    }
  }

  lemma ByKeyAppend(sources: seq<Sourced>, last: Sourced, k: Name)
    ensures SourceFieldByKey(sources + [last], k)
         == if KeyOfName(last.field) == k then Some(last.field) else SourceFieldByKey(sources, k)
  {
    assert (sources + [last])[..|sources|] == sources;
  }
}
