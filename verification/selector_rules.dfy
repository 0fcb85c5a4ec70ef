/** Lists of selector rules: dedupe, run-contract override, storage and the two-surface loader. */
module SelectorRules {
  import opened Text
  import opened PythonValues
  import opened DomainMemory

  function Sigs(rules: seq<Rule>): set<Signature> {
    set r | r in rules :: Sig(r)
  }

  // ---------------------------------------------------------------- dedupe

  function Dedupe(rules: seq<Rule>): seq<Rule> {
    if rules == [] then []
    else
      var kept, last := Dedupe(rules[..|rules| - 1]), rules[|rules| - 1];
      if Sig(last) in Sigs(kept) then kept else kept + [last]
  }

  /** `_dedupe_selector_rules` as it runs, from rules already combined under the signatures seen. */
  method DedupeOnto(earlier: seq<Rule>, rules: seq<Rule>) returns (combined: seq<Rule>)
    requires Dedupe(earlier) == earlier
    ensures combined == Dedupe(earlier + rules)
  {
    combined := earlier;
    var seen := Sigs(earlier);
    assert earlier + rules[..0] == earlier;
    for i := 0 to |rules|
      invariant combined == Dedupe(earlier + rules[..i])
      invariant seen == Sigs(combined)
    {
      assert (earlier + rules[..i + 1])[..|earlier| + i] == earlier + rules[..i];
      if Sig(rules[i]) !in seen {
        seen := seen + {Sig(rules[i])};
        SigsAppend(combined, rules[i]);
        combined := combined + [rules[i]];
      }
    }
    assert rules[..|rules|] == rules;
  }

  lemma SigsAppend(rules: seq<Rule>, r: Rule)
    ensures Sigs(rules + [r]) == Sigs(rules) + {Sig(r)}
  {
    assert forall x :: x in rules + [r] <==> x in rules || x == r;
    assert r in rules + [r];
    assert forall x :: x in rules ==> x in rules + [r];
  }

  lemma {:induction false} DedupeKeepsSigs(rules: seq<Rule>)
    ensures Sigs(Dedupe(rules)) == Sigs(rules)
  {
    if rules != [] {
      var before, last := rules[..|rules| - 1], rules[|rules| - 1];
      DedupeKeepsSigs(before);
      SigsAppend(before, last);
      SigsAppend(Dedupe(before), last);
      assert rules == before + [last];
    }
  }

  /** No earlier rule of the original list has the same signature. */
  predicate IsFirst(rules: seq<Rule>, i: nat)
    requires i < |rules|
  {
    forall j :: 0 <= j < i ==> Sig(rules[j]) != Sig(rules[i])
  }

  /** The first occurrences among the first `n` rules, in order. */
  function Firsts(rules: seq<Rule>, n: nat): seq<Rule>
    requires n <= |rules|
  {
    if n == 0 then []
    else if IsFirst(rules, n - 1) then Firsts(rules, n - 1) + [rules[n - 1]]
    else Firsts(rules, n - 1)
  }

  /** Deduping keeps exactly the first occurrence of each signature, in order. */
  lemma {:induction false} DedupeIsFirsts(rules: seq<Rule>, n: nat)
    requires n <= |rules|
    ensures Dedupe(rules[..n]) == Firsts(rules, n)
  {
    if n > 0 {
      DedupeIsFirsts(rules, n - 1);
      assert rules[..n][..n - 1] == rules[..n - 1];
      DedupeKeepsSigs(rules[..n - 1]);
      assert Sig(rules[n - 1]) in Sigs(rules[..n - 1]) <==> !IsFirst(rules, n - 1) by {
        if !IsFirst(rules, n - 1) {
          var j :| 0 <= j < n - 1 && Sig(rules[j]) == Sig(rules[n - 1]);
          assert rules[..n - 1][j] in rules[..n - 1];
        }
      }
    }
  }

  predicate DistinctSigs(rules: seq<Rule>) {
    forall i, j :: 0 <= i < j < |rules| ==> Sig(rules[i]) != Sig(rules[j])
  }

  lemma {:induction false} DedupeDistinct(rules: seq<Rule>)
    ensures DistinctSigs(Dedupe(rules))
  {
    if rules != [] {
      var kept, last := Dedupe(rules[..|rules| - 1]), rules[|rules| - 1];
      DedupeDistinct(rules[..|rules| - 1]);
      assert forall i :: 0 <= i < |kept| ==> Sig(kept[i]) in Sigs(kept) by {
        forall i | 0 <= i < |kept|
          ensures Sig(kept[i]) in Sigs(kept)
        {
          assert kept[i] in kept;
        }
      }
    }
  }

  lemma LastSigIsNew(rules: seq<Rule>, n: nat)
    requires n < |rules| && DistinctSigs(rules)
    ensures Sig(rules[n]) !in Sigs(rules[..n])
  {
  }

  lemma {:induction false} DistinctUpTo(rules: seq<Rule>, n: nat)
    requires n <= |rules| && DistinctSigs(rules)
    ensures Dedupe(rules[..n]) == rules[..n]
  {
    if n > 0 {
      DistinctUpTo(rules, n - 1);
      LastSigIsNew(rules, n - 1);
      assert rules[..n][..n - 1] == rules[..n - 1];
      assert rules[..n] == rules[..n - 1] + [rules[n - 1]];
    }
  }

  lemma DistinctStays(rules: seq<Rule>)
    requires DistinctSigs(rules)
    ensures Dedupe(rules) == rules
  {
    DistinctUpTo(rules, |rules|);
    assert rules[..|rules|] == rules;
  }

  /** Signatures come out pairwise distinct, and deduping again changes nothing. */
  lemma DedupeSettles(rules: seq<Rule>)
    ensures DistinctSigs(Dedupe(rules)) && Dedupe(Dedupe(rules)) == Dedupe(rules)
  {
    DedupeDistinct(rules);
    DistinctStays(Dedupe(rules));
  }

  /** What came first stays first. */
  lemma {:induction false} DedupeExtends(a: seq<Rule>, b: seq<Rule>)
    ensures Dedupe(a) <= Dedupe(a + b)
    ensures Sigs(b) <= Sigs(a) ==> Dedupe(a + b) == Dedupe(a)
  {
    if b == [] {
      assert a + b == a;
    } else {
      var before, last := b[..|b| - 1], b[|b| - 1];
      assert (a + b)[..|a + b| - 1] == a + before;
      DedupeExtends(a, before);
      SigsAppend(before, last);
      assert b == before + [last];
      DedupeKeepsSigs(a + before);
      assert forall r :: r in a ==> r in a + before;
    }
  }

  // ---------------------------------------------------------------- composing a run's rules

  function DictRows(rows: seq<Value>): seq<Row> {
    if rows == [] then []
    else (if rows[0].Dict? then [rows[0].fields] else []) + DictRows(rows[1..])
  }

  function NormalizedAll(repr: Value -> string, rows: seq<Row>): (r: seq<Rule>)
    ensures |r| == |rows| && forall i :: 0 <= i < |rows| ==> r[i] == Normalized(repr, rows[i])
  {
    seq(|rows|, i requires 0 <= i < |rows| => Normalized(repr, rows[i]))
  }

  /** A contract row always counts as run configuration. */
  function ContractRow(repr: Value -> string, row: Row): Row {
    row[Source := Str("run_config")]
       [Status := Str(Strip(TextOr(repr, Get(row, Status, Null), "validated")))]
       [IsActive := Bool(Truthy(Get(row, IsActive, Bool(true))))]
  }

  function ContractRules(repr: Value -> string, rows: seq<Row>): (r: seq<Rule>)
    ensures |r| == |rows| && forall i :: 0 <= i < |rows| ==> r[i] == Normalized(repr, ContractRow(repr, rows[i]))
  {
    seq(|rows|, i requires 0 <= i < |rows| => Normalized(repr, ContractRow(repr, rows[i])))
  }

  /** The non-empty fields a list of rules mentions. */
  function Fields(rules: seq<Rule>): set<Field> {
    set r | r in rules && r.field != NO_FIELD :: r.field
  }

  const NO_FIELD := Field("")

  function Outside(rules: seq<Rule>, fields: set<Field>): seq<Rule> {
    if rules == [] then []
    else
      var kept, last := Outside(rules[..|rules| - 1], fields), rules[|rules| - 1];
      if last.field in fields then kept else kept + [last]
  }

  function Compose(saved: seq<Rule>, contract: seq<Rule>): seq<Rule> {
    Dedupe(Outside(saved, Fields(contract)) + contract)
  }

  /** `compose_runtime_selector_rules` on whatever lists it is given. */
  method ComposeRuntimeRules(repr: Value -> string, saved: seq<Value>, contract: seq<Value>) returns (rules: seq<Rule>)
    ensures rules == Compose(NormalizedAll(repr, DictRows(saved)), ContractRules(repr, DictRows(contract)))
  {
    var savedRows := DictRowsLoop(saved);
    var contractRows := DictRowsLoop(contract);
    rules := ComposeLoop(NormalizedAll(repr, savedRows), ContractRules(repr, contractRows));
  }

  method ComposeLoop(saved: seq<Rule>, contract: seq<Rule>) returns (rules: seq<Rule>)
    ensures rules == Compose(saved, contract)
  {
    var all := Outside(saved, Fields(contract)) + contract;
    rules := DedupeOnto([], all);
    assert [] + all == all;
  }

  /** `marked` differs from `row` only in source, status and activity. */
  ghost predicate Marks(row: Row, marked: Row) {
    forall k :: k in {Id, FieldName, CssSelector, Xpath, Regex, SampleValue, SourceRunId} ==>
                  Get(marked, k, Null) == Get(row, k, Null)
  }

  lemma MarkedFields(repr: Value -> string, row: Row, marked: Row)
    requires Marks(row, marked)
    ensures var r, plain := Normalized(repr, marked), Normalized(repr, row);
            r == plain.(source := r.source, status := r.status, active := r.active)
  {
    var keys := {Id, FieldName, CssSelector, Xpath, Regex, SampleValue, SourceRunId};
    assert Id in keys && FieldName in keys && CssSelector in keys && Xpath in keys && Regex in keys
           && SampleValue in keys && SourceRunId in keys;
  }

  lemma ContractRowMarks(repr: Value -> string, row: Row)
    ensures Marks(row, ContractRow(repr, row))
    ensures Get(ContractRow(repr, row), Source, Null) == Str("run_config")
    ensures Get(ContractRow(repr, row), Status, Null)
         == Str(Strip(TextOr(repr, Get(row, Status, Null), "validated")))
    ensures Get(ContractRow(repr, row), IsActive, Bool(true)) == Bool(Truthy(Get(row, IsActive, Bool(true))))
  {
  }

  /** Every rule of the contract carries the run's own source and never a blank status, and is
      otherwise the rule it would have been. */
  lemma ContractRuleMarked(repr: Value -> string, row: Row)
    ensures var r, plain := Normalized(repr, ContractRow(repr, row)), Normalized(repr, row);
            r == plain.(source := "run_config", status := if plain.status == "" then "validated" else plain.status)
  {
    var marked := ContractRow(repr, row);
    ContractRowMarks(repr, row);
    MarkedFields(repr, row, marked);
    StripStrips(TextOr(repr, Get(row, Status, Null), "validated"));
    StripDefault(repr, Strip(TextOr(repr, Get(row, Status, Null), "validated")), "validated");
    StripDefault(repr, "run_config", "domain_memory");
  }

  function ForField(rules: seq<Rule>, f: Field): seq<Rule> {
    if rules == [] then []
    else
      var kept, last := ForField(rules[..|rules| - 1], f), rules[|rules| - 1];
      if last.field == f then kept + [last] else kept
  }

  lemma {:induction false} ForFieldConcat(a: seq<Rule>, b: seq<Rule>, f: Field)
    ensures ForField(a + b, f) == ForField(a, f) + ForField(b, f)
  {
    if b == [] {
      assert a + b == a;
    } else {
      ForFieldConcat(a, b[..|b| - 1], f);
      assert (a + b)[..|a + b| - 1] == a + b[..|b| - 1];
    }
  }

  lemma {:induction false} ForFieldSigs(rules: seq<Rule>, f: Field, r: Rule)
    requires r.field == f
    ensures Sig(r) in Sigs(ForField(rules, f)) <==> Sig(r) in Sigs(rules)
  {
    if rules != [] {
      var before, last := rules[..|rules| - 1], rules[|rules| - 1];
      ForFieldSigs(before, f, r);
      SigsAppend(before, last);
      SigsAppend(ForField(before, f), last);
      assert rules == before + [last];
    }
  }

  /** Deduping and looking at one field commute, because the signature holds the field. */
  lemma {:induction false} DedupeByField(rules: seq<Rule>, f: Field)
    ensures ForField(Dedupe(rules), f) == Dedupe(ForField(rules, f))
  {
    if rules != [] {
      var before, last := rules[..|rules| - 1], rules[|rules| - 1];
      DedupeByField(before, f);
      var kept := Dedupe(before);
      assert (kept + [last])[..|kept|] == kept;
      if last.field == f {
        ForFieldSigs(kept, f, last);
        var only := ForField(before, f);
        assert (only + [last])[..|only|] == only;
      }
    }
  }

  lemma {:induction false} OutsideByField(rules: seq<Rule>, fields: set<Field>, f: Field)
    ensures ForField(Outside(rules, fields), f) == if f in fields then [] else ForField(rules, f)
  {
    if rules != [] {
      var before, last := rules[..|rules| - 1], rules[|rules| - 1];
      OutsideByField(before, fields, f);
      var kept := Outside(before, fields);
      assert (kept + [last])[..|kept|] == kept;
    }
  }

  lemma {:induction false} Unmentioned(rules: seq<Rule>, f: Field)
    requires forall r :: r in rules ==> r.field != f
    ensures ForField(rules, f) == []
  {
    if rules != [] {
      Unmentioned(rules[..|rules| - 1], f);
    }
  }

  /** Field by field: a field the contract mentions takes its rules from the contract alone, any
      other from the saved rules alone; rules without a field are all kept. */
  lemma ComposeByField(saved: seq<Rule>, contract: seq<Rule>, f: Field)
    ensures ForField(Compose(saved, contract), f)
         == Dedupe(if f == NO_FIELD then ForField(saved, f) + ForField(contract, f)
                   else if exists r :: r in contract && r.field == f then ForField(contract, f)
                   else ForField(saved, f))
    ensures DistinctSigs(Compose(saved, contract)) && Dedupe(Compose(saved, contract)) == Compose(saved, contract)
  {
    var kept := Outside(saved, Fields(contract));
    DedupeByField(kept + contract, f);
    ForFieldConcat(kept, contract, f);
    OutsideByField(saved, Fields(contract), f);
    DedupeSettles(kept + contract);
    if exists r :: r in contract && r.field == f {
      assert [] + ForField(contract, f) == ForField(contract, f);
    } else {
      Unmentioned(contract, f);
      assert ForField(saved, f) + [] == ForField(saved, f);
    }
  }

  // ---------------------------------------------------------------- storing and reading back

  /** One entry of the stored dictionary. */
  datatype Item = Item(name: string, payload: Value)

  /** The `selectors` column of a domain-memory row: absent, no dictionary, or its entries in order. */
  datatype Memory = Missing | NotADict | Selectors(items: seq<Item>)

  function Payload(items: seq<Item>, name: string): Value {
    if items == [] then Null else if items[0].name == name then items[0].payload else Payload(items[1..], name)
  }

  predicate IsFallbackItem(item: Item) {
    !("_" <= item.name) && item.payload.Dict?
  }

  function FallbackRow(repr: Value -> string, item: Item, id: int): Row
    requires item.payload.Dict?
  {
    var p := item.payload.fields;
    var css := Get(p, CssSelector, Null);
    map[Id := Int(id),
        FieldName := Str(StripLower(item.name)),
        CssSelector := if Truthy(css) then css else Get(p, Css, Null),
        Xpath := Get(p, Xpath, Null),
        Regex := Get(p, Regex, Null),
        SampleValue := Get(p, SampleValue, Null),
        Source := if Truthy(Get(p, Source, Null)) then p[Source] else Str("domain_memory"),
        Status := if Truthy(Get(p, Status, Null)) then p[Status] else Str("validated"),
        IsActive := Bool(Truthy(Get(p, IsActive, Bool(true))))]
  }

  /** Rules kept in the older one-entry-per-field form, numbered in order. */
  function FallbackRules(repr: Value -> string, items: seq<Item>): seq<Rule> {
    if items == [] then []
    else
      var before, item := FallbackRules(repr, items[..|items| - 1]), items[|items| - 1];
      if IsFallbackItem(item) then before + [FallbackRule(repr, item, |before| + 1)] else before
  }

  function FallbackRule(repr: Value -> string, item: Item, id: int): Rule
    requires item.payload.Dict?
  {
    Normalized(repr, FallbackRow(repr, item, id))
  }

  function RulesFromMemory(repr: Value -> string, memory: Memory): seq<Rule> {
    if !memory.Selectors? then []
    else
      var rules := Payload(memory.items, "rules");
      if rules.List? then NormalizedAll(repr, DictRows(rules.items)) else FallbackRules(repr, memory.items)
  }

  /** `selector_rules_from_memory` as it runs: one loop over the rule list or over the fields. */
  method RulesFromMemoryLoop(repr: Value -> string, memory: Memory) returns (rules: seq<Rule>)
    ensures rules == RulesFromMemory(repr, memory)
  {
    if !memory.Selectors? {
      return [];
    }
    var stored := Payload(memory.items, "rules");
    if stored.List? {
      var dicts := DictRowsLoop(stored.items);
      rules := NormalizedAll(repr, dicts);
    } else {
      rules := FallbackLoop(repr, memory.items);
    }
  }

  method DictRowsLoop(rows: seq<Value>) returns (dicts: seq<Row>)
    ensures dicts == DictRows(rows)
  {
    dicts := [];
    for i := 0 to |rows|
      invariant dicts + DictRows(rows[i..]) == DictRows(rows)
    {
      assert rows[i..][1..] == rows[i + 1..];
      if rows[i].Dict? {
        dicts := dicts + [rows[i].fields];
      }
    }
  }

  method FallbackLoop(repr: Value -> string, items: seq<Item>) returns (rules: seq<Rule>)
    ensures rules == FallbackRules(repr, items)
  {
    rules := [];
    var nextId := 1;
    for i := 0 to |items|
      invariant rules == FallbackRules(repr, items[..i]) && nextId == |rules| + 1
    {
      assert items[..i + 1][..i] == items[..i];
      if IsFallbackItem(items[i]) {
        rules := rules + [FallbackRule(repr, items[i], nextId)];
        nextId := nextId + 1;
      }
    }
    assert items[..|items|] == items;
  }

  /** Rules in the older form are numbered 1, 2, 3, ... in the order of their fields. */
  lemma {:induction false} FallbackIdsCount(repr: Value -> string, items: seq<Item>)
    ensures Numbered(FallbackRules(repr, items))
  {
    if items != [] {
      var before, item := FallbackRules(repr, items[..|items| - 1]), items[|items| - 1];
      FallbackIdsCount(repr, items[..|items| - 1]);
      if IsFallbackItem(item) {
        FallbackIdKept(repr, item, |before| + 1);
        NumberedAppend(before, FallbackRule(repr, item, |before| + 1));
      }
    }
  }

  ghost predicate Numbered(rules: seq<Rule>) {
    forall i :: 0 <= i < |rules| ==> rules[i].id == i + 1
  }

  lemma NumberedAppend(rules: seq<Rule>, r: Rule)
    requires Numbered(rules) && r.id == |rules| + 1
    ensures Numbered(rules + [r])
  {
  }

  lemma FallbackIdKept(repr: Value -> string, item: Item, id: int)
    requires item.payload.Dict?
    ensures FallbackRule(repr, item, id).id == id
  {
    SafeIntOf(repr, id);
    assert Get(FallbackRow(repr, item, id), Id, Null) == Int(id);
  }

  function MaxId(rules: seq<Rule>): int {
    if rules == [] then 0
    else
      var m, id := MaxId(rules[..|rules| - 1]), rules[|rules| - 1].id;
      if id > m then id else m
  }

  datatype Stored = Stored(nextId: int, rules: seq<Row>)

  function Rows(rules: seq<Rule>): (r: seq<Row>)
    ensures |r| == |rules| && forall i :: 0 <= i < |rules| ==> r[i] == ToRow(rules[i])
  {
    seq(|rules|, i requires 0 <= i < |rules| => ToRow(rules[i]))
  }

  /** `selector_payload_from_rules` as it runs: the largest id and the normalised rows in one pass.
      The next id is above every stored id and above zero. */
  method PayloadFromRules(repr: Value -> string, rows: seq<Value>) returns (stored: Stored)
    ensures var rules := NormalizedAll(repr, DictRows(rows));
            && stored.rules == Rows(rules)
            && stored.nextId == MaxId(rules) + 1
            && stored.nextId >= 1
            && forall r :: r in rules ==> r.id < stored.nextId
  {
    var dicts := DictRowsLoop(rows);
    var rules := NormalizedAll(repr, dicts);
    var maxId, normalized := LargestIdAndRows(rules);
    MaxIdBounds(rules);
    stored := Stored(maxId + 1, normalized);
  }

  method LargestIdAndRows(rules: seq<Rule>) returns (maxId: int, normalized: seq<Row>)
    ensures maxId == MaxId(rules) && normalized == Rows(rules)
  {
    maxId, normalized := 0, [];
    for i := 0 to |rules|
      invariant normalized == Rows(rules[..i]) && maxId == MaxId(rules[..i])
    {
      assert rules[..i + 1][..i] == rules[..i];
      if rules[i].id > maxId {
        maxId := rules[i].id;
      }
      normalized := normalized + [ToRow(rules[i])];
    }
    assert rules[..|rules|] == rules;
  }

  lemma {:induction false} MaxIdBounds(rules: seq<Rule>)
    ensures MaxId(rules) >= 0 && forall r :: r in rules ==> r.id <= MaxId(rules)
    ensures MaxId(rules) == 0 || exists r :: r in rules && r.id == MaxId(rules)
  {
    if rules != [] {
      var before, last := rules[..|rules| - 1], rules[|rules| - 1];
      MaxIdBounds(before);
      assert rules == before + [last];
      assert last in rules;
      assert forall r :: r in before ==> r in rules;
    }
  }

  /** The dictionary written to the column. */
  function ToMemory(stored: Stored): Memory {
    Selectors([Item("_meta", Dict(map[Other("next_id") := Int(stored.nextId)])),
               Item("rules", List(seq(|stored.rules|, i requires 0 <= i < |stored.rules| => Dict(stored.rules[i]))))])
  }

  lemma {:induction false} DictRowsOfDicts(items: seq<Value>, rows: seq<Row>)
    requires |items| == |rows| && forall i :: 0 <= i < |rows| ==> items[i] == Dict(rows[i])
    ensures DictRows(items) == rows
  {
    if items != [] {
      DictRowsOfDicts(items[1..], rows[1..]);
    }
  }

  lemma ReadStoredRows(repr: Value -> string, stored: Stored)
    ensures RulesFromMemory(repr, ToMemory(stored)) == NormalizedAll(repr, stored.rules)
  {
    var m := ToMemory(stored);
    assert m.items[1..][0].name == "rules" && m.items[0].name != "rules";
    assert Payload(m.items, "rules") == Payload(m.items[1..], "rules") == m.items[1].payload;
    DictRowsOfDicts(m.items[1].payload.items, stored.rules);
  }

  /** Reading the stored rules back gives the normalised rules in order exactly when none of them
      has a blank source or status. */
  lemma StoredRulesReadBack(repr: Value -> string, rows: seq<Row>, nextId: int)
    ensures var rules := NormalizedAll(repr, rows);
            (RulesFromMemory(repr, ToMemory(Stored(nextId, Rows(rules)))) == rules
             <==> forall r :: r in rules ==> r.source != "" && r.status != "")
  {
    var rules := NormalizedAll(repr, rows);
    var stored := Stored(nextId, Rows(rules));
    ReadStoredRows(repr, stored);
    var back := NormalizedAll(repr, stored.rules);
    forall i | 0 <= i < |rows|
      ensures back[i] == rules[i] <==> rules[i].source != "" && rules[i].status != ""
    {
      ReadBackExactly(repr, rows[i]);
    }
    if back == rules {
      forall r | r in rules
        ensures r.source != "" && r.status != ""
      {
        var i :| 0 <= i < |rules| && rules[i] == r;
        assert back[i] == rules[i];
      }
    } else {
      var i :| 0 <= i < |rules| && back[i] != rules[i];
      assert rules[i] in rules;
    }
  }

  // ---------------------------------------------------------------- loading a domain's rules

  const DEFAULT_SURFACE := "generic"

  function SurfaceRules(repr: Value -> string, db: string -> Memory, surface: string): seq<Rule> {
    if surface == "" then [] else RulesFromMemory(repr, db(surface))
  }

  /** The loader goes through the surface and the default surface, or the default alone, with one
      set of seen signatures; in every case the outcome is the deduped concatenation. */
  method LoadRules(repr: Value -> string, db: string -> Memory, surface: string) returns (rules: seq<Rule>)
    ensures rules == Dedupe(SurfaceRules(repr, db, StripLower(surface)) + SurfaceRules(repr, db, DEFAULT_SURFACE))
  {
    var normalized := StripLower(surface);
    var candidates := if normalized == DEFAULT_SURFACE then [DEFAULT_SURFACE] else [normalized, DEFAULT_SURFACE];
    ghost var all := [];
    rules := [];
    for i := 0 to |candidates|
      invariant all == if i == 0 then [] else if i == 1 then SurfaceRules(repr, db, candidates[0])
                       else SurfaceRules(repr, db, candidates[0]) + SurfaceRules(repr, db, candidates[1])
      invariant rules == Dedupe(all) && Dedupe(rules) == rules
    {
      ghost var more := SurfaceRules(repr, db, candidates[i]);
      DedupeOnto2(all, more);
      if candidates[i] != "" {
        var loaded := RulesFromMemoryLoop(repr, db(candidates[i]));
        rules := DedupeOnto(rules, loaded);
      } else {
        assert all + more == all;
      }
      assert [] + more == more;
      all := all + more;
      DedupeSettles(all);
    }
    if normalized == DEFAULT_SURFACE {
      DedupeExtends(all, all);
    }
  }

  /** Deduping in two rounds is deduping once. */
  lemma {:induction false} DedupeOnto2(a: seq<Rule>, b: seq<Rule>)
    ensures Dedupe(Dedupe(a) + b) == Dedupe(a + b)
  {
    if b == [] {
      assert Dedupe(a) + b == Dedupe(a) && a + b == a;
      DedupeSettles(a);
    } else {
      var before := b[..|b| - 1];
      DedupeOnto2(a, before);
      assert (a + b)[..|a + b| - 1] == a + before;
      assert (Dedupe(a) + b)[..|Dedupe(a) + b| - 1] == Dedupe(a) + before;
    }
  }

  lemma SameSigSamePlace(kept: seq<Rule>, all: seq<Rule>, r: Rule)
    requires kept <= all && DistinctSigs(all) && r in all && Sig(r) in Sigs(kept)
    ensures r in kept
  {
    var i :| 0 <= i < |all| && all[i] == r;
    var o :| o in kept && Sig(o) == Sig(r);
    var j :| 0 <= j < |kept| && kept[j] == o;
    assert all[j] == o;
  }

  /** So the rules of the surface itself come first and win over the default surface. */
  lemma SurfaceRulesWin(own: seq<Rule>, fallback: seq<Rule>, r: Rule)
    requires r in Dedupe(own + fallback) && Sig(r) in Sigs(own)
    ensures Dedupe(own) <= Dedupe(own + fallback) && r in Dedupe(own)
  {
    DedupeExtends(own, fallback);
    DedupeKeepsSigs(own);
    DedupeDistinct(own + fallback);
    SameSigSamePlace(Dedupe(own), Dedupe(own + fallback), r);
  }
}
