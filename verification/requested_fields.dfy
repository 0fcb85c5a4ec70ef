/** The alias table of requested fields and the resolution of a requested name through it. */
module RequestedFields {
  import opened Text
  import opened FieldKeys

  /** A key of the alias table. */
  datatype Name = Name(text: string)

  /** One canonical field as configured, with its aliases in order. */
  datatype Row = Row(canonical: string, aliases: seq<string>)

  datatype Entry = Entry(key: Name, canonical: Name)

  /** A dictionary in insertion order. */
  type Table = seq<Entry>

  function KeyOf(text: string): Name {
    Name(NormalizeFieldKey(text))
  }

  const NO_NAME := Name("")

  function Lookup(t: Table, k: Name): Option<Name> {
    if t == [] then None else if t[0].key == k then Some(t[0].canonical) else Lookup(t[1..], k)
  }

  /** `t[k] = v`: an existing key keeps its place. */
  function Put(t: Table, k: Name, v: Name): Table {
    if t == [] then [Entry(k, v)]
    else if t[0].key == k then [Entry(k, v)] + t[1..]
    else [t[0]] + Put(t[1..], k, v)
  }

  lemma {:induction false} LookupPut(t: Table, k: Name, v: Name, x: Name)
    ensures Lookup(Put(t, k, v), x) == if x == k then Some(v) else Lookup(t, x)
  {
    if t != [] && t[0].key != k {
      LookupPut(t[1..], k, v, x);
    }
  }

  // ---------------------------------------------------------------- building the table

  /** A row with its names normalised; `raw` is the canonical field as written. */
  datatype KeyedRow = KeyedRow(key: Name, raw: Name, aliases: seq<Name>)

  function Keys(aliases: seq<string>): seq<Name> {
    seq(|aliases|, i requires 0 <= i < |aliases| => KeyOf(aliases[i]))
  }

  function Keyed(rows: seq<Row>): seq<KeyedRow> {
    seq(|rows|, i requires 0 <= i < |rows| =>
          KeyedRow(KeyOf(rows[i].canonical), Name(rows[i].canonical), Keys(rows[i].aliases)))
  }

  function Target(row: KeyedRow): Name {
    if row.key != NO_NAME then row.key else row.raw
  }

  function AddAliases(t: Table, aliases: seq<Name>, target: Name): Table {
    if aliases == [] then t
    else
      var before, alias := AddAliases(t, aliases[..|aliases| - 1], target), aliases[|aliases| - 1];
      if alias != NO_NAME && Lookup(before, alias).None? then Put(before, alias, target) else before
  }

  function AddRow(t: Table, row: KeyedRow): Table {
    AddAliases(if row.key != NO_NAME then Put(t, row.key, row.key) else t, row.aliases, Target(row))
  }

  function Build(rows: seq<KeyedRow>): Table {
    if rows == [] then [] else AddRow(Build(rows[..|rows| - 1]), rows[|rows| - 1])
  }

  /** The names without the empty one and without repeats, by first appearance. */
  function DistinctNames(names: seq<Name>): seq<Name> {
    if names == [] then []
    else
      var before, last := DistinctNames(names[..|names| - 1]), names[|names| - 1];
      if last == NO_NAME || last in before then before else before + [last]
  }

  /** The alias list of a row: its own key, then its distinct alias keys. */
  function ListOf(row: KeyedRow): seq<Name> {
    DistinctNames([row.key] + DistinctNames(row.aliases))
  }

  /** The second table of the build: the alias list of each canonical key. */
  function AliasLists(rows: seq<KeyedRow>): map<Name, seq<Name>> {
    if rows == [] then map[]
    else
      var before, row := AliasLists(rows[..|rows| - 1]), rows[|rows| - 1];
      if row.key != NO_NAME then before[row.key := ListOf(row)] else before
  }

  /** The inner loop of the build: the aliases of one row go into the table and into a list. */
  method AddAliasesLoop(started: Table, aliases: seq<string>, target: Name) returns (t: Table, listed: seq<Name>)
    ensures t == AddAliases(started, Keys(aliases), target) && listed == DistinctNames(Keys(aliases))
  {
    t, listed := started, [];
    ghost var keys := Keys(aliases);
    for j := 0 to |aliases|
      invariant t == AddAliases(started, keys[..j], target) && listed == DistinctNames(keys[..j])
    {
      assert keys[..j + 1][..j] == keys[..j];
      var alias := KeyOf(aliases[j]);
      assert alias == keys[j];
      if alias != NO_NAME && Lookup(t, alias).None? {
        t := Put(t, alias, target);
      }
      if alias != NO_NAME && alias !in listed {
        listed := listed + [alias];
      }
    }
    assert keys[..|aliases|] == keys;
  }

  /** The loop of `_dedupe_aliases`, on names that are keys already. */
  method DedupeLoop(names: seq<Name>) returns (deduped: seq<Name>)
    ensures deduped == DistinctNames(names)
  {
    deduped := [];
    for i := 0 to |names|
      invariant deduped == DistinctNames(names[..i])
    {
      assert names[..i + 1][..i] == names[..i];
      if names[i] != NO_NAME && names[i] !in deduped {
        deduped := deduped + [names[i]];
      }
    }
    assert names[..|names|] == names;
  }

  /** The build as it runs: rows outside, aliases inside, filling two dictionaries. */
  method BuildLoop(rows: seq<Row>) returns (t: Table, lists: map<Name, seq<Name>>)
    ensures t == Build(Keyed(rows)) && lists == AliasLists(Keyed(rows))
  {
    t, lists := [], map[];
    ghost var keyed := Keyed(rows);
    for i := 0 to |rows|
      invariant t == Build(keyed[..i]) && lists == AliasLists(keyed[..i])
    {
      assert keyed[..i + 1][..i] == keyed[..i];
      var key := KeyOf(rows[i].canonical);
      if key != NO_NAME {
        t := Put(t, key, key);
      }
      var listed;
      t, listed := AddAliasesLoop(t, rows[i].aliases, if key != NO_NAME then key else Name(rows[i].canonical));
      if key != NO_NAME {
        var own := DedupeLoop([key] + listed);
        lists := lists[key := own];
      }
    }
    assert keyed[..|rows|] == keyed;
  }

  lemma {:induction false} DistinctNamesHold(names: seq<Name>, k: Name)
    ensures k in DistinctNames(names) <==> k in names && k != NO_NAME
    ensures forall i, j :: 0 <= i < j < |DistinctNames(names)| ==> DistinctNames(names)[i] != DistinctNames(names)[j]
    ensures names != [] && names[0] != NO_NAME ==> DistinctNames(names) != [] && DistinctNames(names)[0] == names[0]
  {
    if names != [] {
      var before, last := names[..|names| - 1], names[|names| - 1];
      DistinctNamesHold(before, k);
      DistinctNamesHold(before, last);
      assert names == before + [last];
    }
  }

  /** The last row with the key `k`. */
  function LastRow(rows: seq<KeyedRow>, k: Name): (r: Option<KeyedRow>)
    ensures r.Some? <==> IsCanonicalKey(rows, k)
    ensures r.Some? ==> r.value in rows && r.value.key == k
  {
    if rows == [] then None
    else if rows[|rows| - 1].key == k then Some(rows[|rows| - 1])
    else LastRow(rows[..|rows| - 1], k)
  }

  lemma {:induction false} ListsComeFromLastRow(rows: seq<KeyedRow>, k: Name)
    ensures k in AliasLists(rows) <==> k != NO_NAME && LastRow(rows, k).Some?
    ensures k in AliasLists(rows) ==> AliasLists(rows)[k] == ListOf(LastRow(rows, k).value)
  {
    if rows != [] {
      ListsComeFromLastRow(rows[..|rows| - 1], k);
    }
  }

  /** Exactly the canonical keys have an alias list. It starts with the key itself, repeats nothing
      and holds besides it exactly the alias keys of the last row of that name. */
  lemma AliasListsExactly(rows: seq<KeyedRow>, k: Name, x: Name)
    ensures k in AliasLists(rows) <==> k != NO_NAME && IsCanonicalKey(rows, k)
    ensures k in AliasLists(rows) ==>
              var list := AliasLists(rows)[k];
              && list != [] && list[0] == k
              && (forall i, j :: 0 <= i < j < |list| ==> list[i] != list[j])
              && (x in list <==> x == k || (x != NO_NAME && x in LastRow(rows, k).value.aliases))
  {
    ListsComeFromLastRow(rows, k);
    if k in AliasLists(rows) {
      var row := LastRow(rows, k).value;
      DistinctNamesHold(row.aliases, x);
      DistinctNamesHold([row.key] + DistinctNames(row.aliases), x);
    }
  }

  // ---------------------------------------------------------------- what the table means

  predicate IsCanonicalKey(rows: seq<KeyedRow>, k: Name) {
    exists row :: row in rows && row.key == k
  }

  /** The first row with `k` among its aliases. */
  function FirstClaim(rows: seq<KeyedRow>, k: Name): (r: Option<KeyedRow>)
    ensures r.Some? ==> r.value in rows && k in r.value.aliases
  {
    if rows == [] then None
    else
      var earlier := FirstClaim(rows[..|rows| - 1], k);
      if earlier.Some? then earlier
      else if k in rows[|rows| - 1].aliases then Some(rows[|rows| - 1])
      else None
  }

  /** What a key stands for: itself if some row is named by it, else the first row that lists it. */
  function Meaning(rows: seq<KeyedRow>, k: Name): Option<Name> {
    if k == NO_NAME then None
    else if IsCanonicalKey(rows, k) then Some(k)
    else
      match FirstClaim(rows, k)
      case None => None
      case Some(row) => Some(Target(row))
  }

  lemma {:induction false} AddAliasesLookup(t: Table, aliases: seq<Name>, target: Name, k: Name)
    ensures Lookup(AddAliases(t, aliases, target), k)
         == if Lookup(t, k).Some? then Lookup(t, k)
            else if k != NO_NAME && k in aliases then Some(target)
            else None
  {
    if aliases != [] {
      var before, last := aliases[..|aliases| - 1], aliases[|aliases| - 1];
      AddAliasesLookup(t, before, target, k);
      AddAliasesLookup(t, before, target, last);
      LookupPut(AddAliases(t, before, target), last, target, k);
      assert k in aliases <==> k in before || k == last;
    }
  }

  /** Whatever the overlaps and the order of the rows, the table gives every key its meaning. */
  lemma {:induction false} TableGivesMeaning(rows: seq<KeyedRow>, k: Name)
    ensures Lookup(Build(rows), k) == Meaning(rows, k)
  {
    if rows != [] {
      var before, row := rows[..|rows| - 1], rows[|rows| - 1];
      TableGivesMeaning(before, k);
      var t := Build(before);
      var started := if row.key != NO_NAME then Put(t, row.key, row.key) else t;
      LookupPut(t, row.key, row.key, k);
      AddAliasesLookup(started, row.aliases, Target(row), k);
      assert rows == before + [row];
      assert IsCanonicalKey(rows, k) <==> IsCanonicalKey(before, k) || row.key == k;
    }
  }

  /** No key reaches the table only through a row without a usable name. */
  ghost predicate NoNamelessClaims(rows: seq<KeyedRow>) {
    forall k :: k != NO_NAME && !IsCanonicalKey(rows, k) && FirstClaim(rows, k).Some? ==>
                  FirstClaim(rows, k).value.key != NO_NAME
  }

  /** Rows as the build makes them: a raw name without a key is nobody's key. */
  ghost predicate RawNamesApart(rows: seq<KeyedRow>) {
    forall row :: row in rows && row.key == NO_NAME && row.raw != NO_NAME ==> !IsCanonicalKey(rows, row.raw)
  }

  /** The table maps every key to a canonical key, and every canonical key to itself. */
  ghost predicate Idempotent(rows: seq<KeyedRow>) {
    forall k :: Lookup(Build(rows), k).Some? ==> Settled(rows, Lookup(Build(rows), k).value)
  }

  ghost predicate Settled(rows: seq<KeyedRow>, c: Name) {
    IsCanonicalKey(rows, c) && Lookup(Build(rows), c) == Some(c)
  }

  lemma ApartIdempotentExactly(rows: seq<KeyedRow>)
    requires RawNamesApart(rows)
    ensures NoNamelessClaims(rows) <==> Idempotent(rows)
  {
    if NoNamelessClaims(rows) {
      forall k | Lookup(Build(rows), k).Some?
        ensures Settled(rows, Lookup(Build(rows), k).value)
      {
        TableGivesMeaning(rows, k);
        TableGivesMeaning(rows, Lookup(Build(rows), k).value);
      }
    } else {
      var k :| k != NO_NAME && !IsCanonicalKey(rows, k) && FirstClaim(rows, k).Some?
               && FirstClaim(rows, k).value.key == NO_NAME;
      var raw := FirstClaim(rows, k).value.raw;
      TableGivesMeaning(rows, k);
      TableGivesMeaning(rows, raw);
      assert !Settled(rows, raw);
    }
  }

  /** The table built from any configuration is idempotent exactly when no key is claimed only by
      a row without a usable name. */
  lemma TableIdempotentExactly(rows: seq<Row>)
    ensures NoNamelessClaims(Keyed(rows)) <==> Idempotent(Keyed(rows))
  {
    KeyedRowsApart(rows);
    ApartIdempotentExactly(Keyed(rows));
  }

  lemma OneKeyedRow(raw: string, alias: string)
    ensures Keyed([Row(raw, [alias])]) == [KeyedRow(KeyOf(raw), Name(raw), [KeyOf(alias)])]
  {
    assert Keys([alias]) == [KeyOf(alias)];
  }

  lemma OneNamelessClaim(row: KeyedRow, k: Name)
    requires row.key == NO_NAME && row.aliases == [k] && k != NO_NAME
    ensures !NoNamelessClaims([row])
  {
    assert [row][..0] == [];
    assert FirstClaim([row], k) == Some(row);
    assert !IsCanonicalKey([row], k);
  }

  /** A row without a usable name makes the table lead nowhere: any alias of its own is enough. */
  lemma NamelessRowBreaks(raw: string, alias: string)
    requires NormalizeFieldKey(raw) == "" && NormalizeFieldKey(alias) != ""
    ensures !Idempotent(Keyed([Row(raw, [alias])]))
  {
    OneKeyedRow(raw, alias);
    OneNamelessClaim(KeyedRow(KeyOf(raw), Name(raw), [KeyOf(alias)]), KeyOf(alias));
    TableIdempotentExactly([Row(raw, [alias])]);
  }

  /** Such rows exist: a lone underscore or dot has no key, a small letter has one. */
  lemma MarkBreaks(raw: string, alias: string)
    requires |raw| == 1 && IsMark(raw[0]) && |alias| == 1 && IsLower(alias[0])
    ensures !Idempotent(Keyed([Row(raw, [alias])]))
  {
    MarkHasNoKey(raw);
    CanonicalStays(alias);
    NamelessRowBreaks(raw, alias);
  }

  lemma MarkHasNoKey(raw: string)
    requires |raw| == 1 && IsMark(raw[0])
    ensures NormalizeFieldKey(raw) == ""
  {
    KeyLikeNormalizes(raw);
    assert raw[1..] == "";
    assert StripMarksLeft(raw) == "";
  }

  lemma KeyedRowsApart(rows: seq<Row>)
    ensures RawNamesApart(Keyed(rows))
  {
    var keyed := Keyed(rows);
    forall row | row in keyed && row.key == NO_NAME && IsCanonicalKey(keyed, row.raw)
      ensures row.raw == NO_NAME
    {
      var other :| other in keyed && other.key == row.raw;
      KeyIsFixed(rows, other);
    }
  }

  lemma KeyIsFixed(rows: seq<Row>, row: KeyedRow)
    requires row in Keyed(rows)
    ensures KeyOf(row.key.text) == row.key
  {
    FixedExactlyWhenCanonical(row.raw.text);
  }

  // ---------------------------------------------------------------- the entries of the table

  ghost predicate DistinctKeys(t: Table) {
    t != [] ==> (forall e :: e in t[1..] ==> e.key != t[0].key) && DistinctKeys(t[1..])
  }

  lemma {:induction false} PutKeepsDistinct(t: Table, k: Name, v: Name)
    requires DistinctKeys(t)
    ensures DistinctKeys(Put(t, k, v))
    ensures forall e :: e in Put(t, k, v) ==> e.key == k || e in t
  {
    if t != [] && t[0].key != k {
      PutKeepsDistinct(t[1..], k, v);
    }
  }

  lemma {:induction false} AddAliasesKeepsDistinct(t: Table, aliases: seq<Name>, target: Name)
    requires DistinctKeys(t)
    ensures DistinctKeys(AddAliases(t, aliases, target))
  {
    if aliases != [] {
      var before := aliases[..|aliases| - 1];
      AddAliasesKeepsDistinct(t, before, target);
      PutKeepsDistinct(AddAliases(t, before, target), aliases[|aliases| - 1], target);
    }
  }

  lemma {:induction false} BuildDistinct(rows: seq<KeyedRow>)
    ensures DistinctKeys(Build(rows))
  {
    if rows != [] {
      var before, row := Build(rows[..|rows| - 1]), rows[|rows| - 1];
      BuildDistinct(rows[..|rows| - 1]);
      PutKeepsDistinct(before, row.key, row.key);
      AddAliasesKeepsDistinct(if row.key != NO_NAME then Put(before, row.key, row.key) else before,
                              row.aliases, Target(row));
    }
  }

  lemma {:induction false} EntryIsFound(t: Table, e: Entry)
    requires DistinctKeys(t) && e in t
    ensures Lookup(t, e.key) == Some(e.canonical)
  {
    if t[0] != e {
      EntryIsFound(t[1..], e);
    }
  }

  lemma {:induction false} FoundIsEntry(t: Table, k: Name)
    requires Lookup(t, k).Some?
    ensures Entry(k, Lookup(t, k).value) in t
  {
    if t[0].key != k {
      FoundIsEntry(t[1..], k);
    }
  }
}
