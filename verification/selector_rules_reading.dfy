/** What each selector rule holds, entry by entry, in terms of the row or entry it was read from. */
module SelectorRulesReading {
  import opened Text
  import opened PythonValues
  import opened DomainMemory
  import opened SelectorRules

  function Entry(row: Row, k: Key): Option<Value> {
    if k in row then Some(row[k]) else None
  }

  predicate IsTruthy(entry: Option<Value>) {
    entry.Some? && Truthy(entry.value)
  }

  /** The text of a truthy entry, stripped. */
  function Given(repr: Value -> string, entry: Option<Value>): string {
    if IsTruthy(entry) then Strip(TextOf(repr, entry.value)) else ""
  }

  predicate SaysOrNone(repr: Value -> string, entry: Option<Value>, r: Option<string>) {
    r == if Given(repr, entry) == "" then None else Some(Given(repr, entry))
  }

  /** A default stands in for an entry that is missing or falsy, not for a blank one. */
  predicate SaysOr(repr: Value -> string, entry: Option<Value>, default: string, r: string) {
    r == if IsTruthy(entry) then Given(repr, entry) else default
  }

  function Number(repr: Value -> string, entry: Option<Value>): Option<int> {
    if entry.None? || entry.value == Null || entry.value == Str("") then None else ReadInt(TextOf(repr, entry.value))
  }

  /** The rule a row stands for. */
  ghost predicate RuleOf(repr: Value -> string, row: Row, r: Rule) {
    && RuleNumbers(repr, row, r)
    && r.field == Field(Lower(Given(repr, Entry(row, FieldName))))
    && SaysOrNone(repr, Entry(row, CssSelector), r.css)
    && SaysOrNone(repr, Entry(row, Xpath), r.xpath)
    && SaysOrNone(repr, Entry(row, Regex), r.regex)
    && SaysOrNone(repr, Entry(row, SampleValue), r.sample)
    && SaysOr(repr, Entry(row, Source), "domain_memory", r.source)
    && SaysOr(repr, Entry(row, Status), "validated", r.status)
    && (r.active <==> Entry(row, IsActive).None? || Truthy(Entry(row, IsActive).value))
  }

  /** Without a readable id a rule has the id 0. */
  predicate RuleNumbers(repr: Value -> string, row: Row, r: Rule) {
    var id := Number(repr, Entry(row, Id));
    r.id == (if id.Some? then id.value else 0) && r.runId == Number(repr, Entry(row, SourceRunId))
  }

  lemma TextReads(repr: Value -> string, row: Row, k: Key)
    ensures SaysOrNone(repr, Entry(row, k), TextField(repr, row, k))
  {
    assert Strip("") == "";
  }

  lemma DefaultReads(repr: Value -> string, row: Row, k: Key, default: string)
    requires Stripped(default)
    ensures SaysOr(repr, Entry(row, k), default, Strip(TextOr(repr, Get(row, k, Null), default)))
  {
    StripStrips(default);
  }

  lemma NumbersRead(repr: Value -> string, row: Row)
    ensures RuleNumbers(repr, row, Normalized(repr, row))
  {
  }

  lemma FieldReads(repr: Value -> string, row: Row)
    ensures Normalized(repr, row).field == Field(Lower(Given(repr, Entry(row, FieldName))))
  {
    assert Strip("") == "";
  }

  /** Normalising a row reads each entry of the rule from the entry of that name. */
  lemma NormalizedReads(repr: Value -> string, row: Row)
    ensures RuleOf(repr, row, Normalized(repr, row))
  {
    TextReads(repr, row, CssSelector);
    TextReads(repr, row, Xpath);
    TextReads(repr, row, Regex);
    TextReads(repr, row, SampleValue);
    DefaultReads(repr, row, Source, "domain_memory");
    DefaultReads(repr, row, Status, "validated");
    NumbersRead(repr, row);
    FieldReads(repr, row);
  }

  /** The rules of a list of rows: each dictionary gives its rule, in order, anything else none. */
  ghost predicate RulesOf(repr: Value -> string, rows: seq<Value>, rules: seq<Rule>) {
    if rows == [] then rules == []
    else
      var n := |rows| - 1;
      if !rows[n].Dict? then RulesOf(repr, rows[..n], rules)
      else
        && rules != [] && RuleOf(repr, rows[n].fields, rules[|rules| - 1])
        && RulesOf(repr, rows[..n], rules[..|rules| - 1])
  }

  lemma {:induction false} DictRowsAppend(rows: seq<Value>, last: Value)
    ensures DictRows(rows + [last]) == DictRows(rows) + if last.Dict? then [last.fields] else []
  {
    if rows == [] {
      assert (rows + [last])[1..] == [];
    } else {
      DictRowsAppend(rows[1..], last);
      assert (rows + [last])[1..] == rows[1..] + [last];
    }
  }

  lemma RulesOfAppend(repr: Value -> string, rows: seq<Value>, last: Value, rules: seq<Rule>)
    requires RulesOf(repr, rows, rules)
    ensures RulesOf(repr, rows + [last], if last.Dict? then rules + [Normalized(repr, last.fields)] else rules)
  {
    assert (rows + [last])[..|rows|] == rows;
    if last.Dict? {
      NormalizedReads(repr, last.fields);
      assert (rules + [Normalized(repr, last.fields)])[..|rules|] == rules;
    }
  }

  lemma NormalizedAppend(repr: Value -> string, rows: seq<Row>, last: Row)
    ensures NormalizedAll(repr, rows + [last]) == NormalizedAll(repr, rows) + [Normalized(repr, last)]
  {
  }

  lemma {:induction false} RulesOfList(repr: Value -> string, rows: seq<Value>)
    ensures RulesOf(repr, rows, NormalizedAll(repr, DictRows(rows)))
  {
    if rows != [] {
      var before, last := rows[..|rows| - 1], rows[|rows| - 1];
      RulesOfList(repr, before);
      DictRowsAppend(before, last);
      RulesOfAppend(repr, before, last, NormalizedAll(repr, DictRows(before)));
      assert rows == before + [last];
      if last.Dict? {
        NormalizedAppend(repr, DictRows(before), last.fields);
      } else {
        assert DictRows(before) + [] == DictRows(before);
      }
    }
  }

  // ---------------------------------------------------------------- the older form

  /** An entry of the older form that stands for a rule. */
  predicate StandsForRule(item: Item) {
    item.payload.Dict? && (item.name == "" || item.name[0] != '_')
  }

  /** The rule an entry of the older form stands for, `id` rules counting it. */
  ghost predicate FallbackOf(repr: Value -> string, item: Item, id: int, r: Rule)
    requires item.payload.Dict?
  {
    var p := item.payload.fields;
    && r.id == id && r.field == Field(Lower(Strip(item.name)))
    && SaysOrNone(repr, if IsTruthy(Entry(p, CssSelector)) then Entry(p, CssSelector) else Entry(p, Css), r.css)
    && SaysOrNone(repr, Entry(p, Xpath), r.xpath)
    && SaysOrNone(repr, Entry(p, Regex), r.regex)
    && SaysOrNone(repr, Entry(p, SampleValue), r.sample)
    && SaysOr(repr, Entry(p, Source), "domain_memory", r.source)
    && SaysOr(repr, Entry(p, Status), "validated", r.status)
    && (r.active <==> Entry(p, IsActive).None? || Truthy(Entry(p, IsActive).value))
    && r.runId == None
  }

  /** Exactly the entries that stand for a rule give one each, in order, numbered from one. */
  ghost predicate FallbacksOf(repr: Value -> string, items: seq<Item>, rules: seq<Rule>) {
    if items == [] then rules == []
    else
      var n := |items| - 1;
      if !StandsForRule(items[n]) then FallbacksOf(repr, items[..n], rules)
      else
        && rules != [] && FallbackOf(repr, items[n], |rules|, rules[|rules| - 1])
        && FallbacksOf(repr, items[..n], rules[..|rules| - 1])
  }

  lemma FallbackRowHolds(repr: Value -> string, item: Item, id: int)
    requires item.payload.Dict?
    ensures var p, row := item.payload.fields, FallbackRow(repr, item, id);
            && Entry(row, Id) == Some(Int(id)) && Entry(row, FieldName) == Some(Str(StripLower(item.name)))
            && Given(repr, Entry(row, CssSelector))
            == Given(repr, if IsTruthy(Entry(p, CssSelector)) then Entry(p, CssSelector) else Entry(p, Css))
  {
  }

  lemma FallbackRowTexts(repr: Value -> string, item: Item, id: int)
    requires item.payload.Dict?
    ensures var p, row := item.payload.fields, FallbackRow(repr, item, id);
            && Given(repr, Entry(row, Xpath)) == Given(repr, Entry(p, Xpath))
            && Given(repr, Entry(row, Regex)) == Given(repr, Entry(p, Regex))
            && Given(repr, Entry(row, SampleValue)) == Given(repr, Entry(p, SampleValue))
  {
  }

  lemma FallbackRowRest(repr: Value -> string, item: Item, id: int)
    requires item.payload.Dict?
    ensures var p, row := item.payload.fields, FallbackRow(repr, item, id);
            && Entry(row, Source)
            == Some(if IsTruthy(Entry(p, Source)) then p[Source] else Str("domain_memory"))
            && Entry(row, Status) == Some(if IsTruthy(Entry(p, Status)) then p[Status] else Str("validated"))
            && Entry(row, IsActive) == Some(Bool(Entry(p, IsActive).None? || Truthy(Entry(p, IsActive).value)))
            && Entry(row, SourceRunId) == None
  {
  }

  lemma FallbackReads(repr: Value -> string, item: Item, id: int)
    requires item.payload.Dict?
    ensures FallbackOf(repr, item, id, FallbackRule(repr, item, id))
  {
    var row := FallbackRow(repr, item, id);
    NormalizedReads(repr, row);
    FallbackRowHolds(repr, item, id);
    FallbackRowTexts(repr, item, id);
    FallbackRowRest(repr, item, id);
    FallbackFromRow(repr, item, id, row, FallbackRule(repr, item, id));
  }

  lemma FallbackFromRow(repr: Value -> string, item: Item, id: int, row: Row, r: Rule)
    requires item.payload.Dict? && RuleOf(repr, row, r)
    requires Entry(row, Id) == Some(Int(id)) && Entry(row, FieldName) == Some(Str(StripLower(item.name)))
    requires var p := item.payload.fields;
             && Given(repr, Entry(row, CssSelector))
             == Given(repr, if IsTruthy(Entry(p, CssSelector)) then Entry(p, CssSelector) else Entry(p, Css))
             && Given(repr, Entry(row, Xpath)) == Given(repr, Entry(p, Xpath))
             && Given(repr, Entry(row, Regex)) == Given(repr, Entry(p, Regex))
             && Given(repr, Entry(row, SampleValue)) == Given(repr, Entry(p, SampleValue))
             && Entry(row, Source) == Some(if IsTruthy(Entry(p, Source)) then p[Source] else Str("domain_memory"))
             && Entry(row, Status) == Some(if IsTruthy(Entry(p, Status)) then p[Status] else Str("validated"))
             && Entry(row, IsActive) == Some(Bool(Entry(p, IsActive).None? || Truthy(Entry(p, IsActive).value)))
             && Entry(row, SourceRunId) == None
    ensures FallbackOf(repr, item, id, r)
  {
    var p := item.payload.fields;
    NumberAgain(repr, id);
    NameAgain(repr, item.name);
    DefaultAgain(repr, Entry(p, Source), "domain_memory", Entry(row, Source), r.source);
    DefaultAgain(repr, Entry(p, Status), "validated", Entry(row, Status), r.status);
  }

  lemma NumberAgain(repr: Value -> string, id: int)
    ensures Number(repr, Some(Int(id))) == Some(id)
  {
    IntTextReads(repr, id);
  }

  lemma NameAgain(repr: Value -> string, name: string)
    ensures Lower(Given(repr, Some(Str(StripLower(name))))) == Lower(Strip(name))
  {
    StripLowerSettles(name);
  }

  lemma DefaultAgain(repr: Value -> string, entry: Option<Value>, default: string, again: Option<Value>, r: string)
    requires default != "" && Stripped(default)
    requires again == Some(if IsTruthy(entry) then entry.value else Str(default)) && SaysOr(repr, again, default, r)
    ensures SaysOr(repr, entry, default, r)
  {
    StripStrips(default);
  }

  lemma {:induction false} FallbacksRead(repr: Value -> string, items: seq<Item>)
    ensures FallbacksOf(repr, items, FallbackRules(repr, items))
  {
    if items != [] {
      var n := |items| - 1;
      var before := FallbackRules(repr, items[..n]);
      FallbacksRead(repr, items[..n]);
      if StandsForRule(items[n]) {
        FallbackReads(repr, items[n], |before| + 1);
        assert (before + [FallbackRule(repr, items[n], |before| + 1)])[..|before|] == before;
      }
    }
  }

  /** The entry of a dictionary under a name: the first of that name, as names do not repeat. */
  predicate IsEntry(items: seq<Item>, i: int, name: string) {
    0 <= i < |items| && items[i].name == name && forall j :: 0 <= j < i ==> items[j].name != name
  }

  lemma {:induction false} PayloadIsEntry(items: seq<Item>, name: string)
    ensures forall i :: IsEntry(items, i, name) ==> Payload(items, name) == items[i].payload
    ensures (forall i :: 0 <= i < |items| ==> items[i].name != name) ==> Payload(items, name) == Null
  {
    if items != [] && items[0].name != name {
      PayloadIsEntry(items[1..], name);
      forall i | IsEntry(items, i, name)
        ensures Payload(items, name) == items[i].payload
      {
        assert IsEntry(items[1..], i - 1, name);
      }
    }
  }

  /** What a stored dictionary is read as: the list under "rules" when there is one, and else the
      older form. */
  lemma MemoryReads(repr: Value -> string, items: seq<Item>)
    ensures var rules := RulesFromMemory(repr, Selectors(items));
            if exists i :: IsEntry(items, i, "rules") && items[i].payload.List?
            then forall i :: IsEntry(items, i, "rules") && items[i].payload.List? ==>
                               RulesOf(repr, items[i].payload.items, rules)
            else FallbacksOf(repr, items, rules)
    ensures RulesFromMemory(repr, Missing) == RulesFromMemory(repr, NotADict) == []
  {
    PayloadIsEntry(items, "rules");
    FallbacksRead(repr, items);
    forall i | IsEntry(items, i, "rules") && items[i].payload.List?
      ensures RulesOf(repr, items[i].payload.items, RulesFromMemory(repr, Selectors(items)))
    {
      RulesOfList(repr, items[i].payload.items);
    }
    if Payload(items, "rules").List? {
      HasRules(items);
    }
  }

  lemma {:induction false} HasRules(items: seq<Item>)
    requires Payload(items, "rules").List?
    ensures exists i :: IsEntry(items, i, "rules") && items[i].payload.List?
  {
    if items[0].name == "rules" {
      assert IsEntry(items, 0, "rules");
    } else {
      HasRules(items[1..]);
      var i :| IsEntry(items[1..], i, "rules") && items[1..][i].payload.List?;
      assert IsEntry(items, i + 1, "rules");
    }
  }
}
