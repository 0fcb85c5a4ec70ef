/** Selector rules: their normal form, how they are stored and read back, and how saved rules and
    the rules of a run are combined. */
module DomainMemory {
  import opened Text
  import opened PythonValues

  type Row = map<Key, Value>

  datatype Field = Field(name: string)

  /** A normalised rule. */
  datatype Rule = Rule(
    id: int,
    field: Field,
    css: Option<string>,
    xpath: Option<string>,
    regex: Option<string>,
    sample: Option<string>,
    source: string,
    status: string,
    active: bool,
    runId: Option<int>)

  function SafeInt(repr: Value -> string, v: Value): Option<int> {
    if v == Null || v == Str("") then None else ReadInt(TextOf(repr, v))
  }

  function TextField(repr: Value -> string, row: Row, k: Key): Option<string> {
    var t := Strip(TextOr(repr, Get(row, k, Null), ""));
    if t == "" then None else Some(t)
  }

  function Normalized(repr: Value -> string, row: Row): Rule {
    var id := SafeInt(repr, Get(row, Id, Null));
    Rule(if id.Some? then id.value else 0,
         Field(StripLower(TextOr(repr, Get(row, FieldName, Null), ""))),
         TextField(repr, row, CssSelector),
         TextField(repr, row, Xpath),
         TextField(repr, row, Regex),
         TextField(repr, row, SampleValue),
         Strip(TextOr(repr, Get(row, Source, Null), "domain_memory")),
         Strip(TextOr(repr, Get(row, Status, Null), "validated")),
         Truthy(Get(row, IsActive, Bool(true))),
         SafeInt(repr, Get(row, SourceRunId, Null)))
  }

  function TextValue(t: Option<string>): Value {
    if t.Some? then Str(t.value) else Null
  }

  /** The dictionary a rule is stored as. */
  function ToRow(r: Rule): Row {
    map[Id := Int(r.id),
        FieldName := Str(r.field.name),
        CssSelector := TextValue(r.css),
        Xpath := TextValue(r.xpath),
        Regex := TextValue(r.regex),
        SampleValue := TextValue(r.sample),
        Source := Str(r.source),
        Status := Str(r.status),
        IsActive := Bool(r.active),
        SourceRunId := if r.runId.Some? then Int(r.runId.value) else Null]
  }

  datatype Signature = Signature(field: Field, css: string, xpath: string, regex: string)

  function OrEmpty(t: Option<string>): string {
    if t.Some? then t.value else ""
  }

  /** `_selector_rule_signature` of any row. */
  function SignatureOf(repr: Value -> string, row: Row): Signature {
    var r := Normalized(repr, row);
    Signature(Field(StripLower(r.field.name)), Strip(OrEmpty(r.css)), Strip(OrEmpty(r.xpath)), Strip(OrEmpty(r.regex)))
  }

  /** The signature of an already normalised rule. */
  function Sig(r: Rule): Signature {
    Signature(r.field, OrEmpty(r.css), OrEmpty(r.xpath), OrEmpty(r.regex))
  }

  // ---------------------------------------------------------------- normalising twice

  lemma ToRowHolds(r: Rule, default: Value)
    ensures var row := ToRow(r);
            && Get(row, Id, default) == Int(r.id)
            && Get(row, FieldName, default) == Str(r.field.name)
            && Get(row, CssSelector, default) == TextValue(r.css)
            && Get(row, Xpath, default) == TextValue(r.xpath)
            && Get(row, Regex, default) == TextValue(r.regex)
            && Get(row, SampleValue, default) == TextValue(r.sample)
            && Get(row, Source, default) == Str(r.source)
            && Get(row, Status, default) == Str(r.status)
            && Get(row, IsActive, default) == Bool(r.active)
            && Get(row, SourceRunId, default) == (if r.runId.Some? then Int(r.runId.value) else Null)
  {
  }

  predicate CleanText(t: Option<string>) {
    t.Some? ==> t.value != "" && Stripped(t.value)
  }

  /** What normalisation guarantees of every rule. */
  predicate Clean(r: Rule) {
    && Stripped(r.field.name) && Lower(r.field.name) == r.field.name
    && CleanText(r.css) && CleanText(r.xpath) && CleanText(r.regex) && CleanText(r.sample)
    && Stripped(r.source) && Stripped(r.status)
  }

  lemma TextFieldClean(repr: Value -> string, row: Row, k: Key)
    ensures CleanText(TextField(repr, row, k))
  {
    StripStrips(TextOr(repr, Get(row, k, Null), ""));
  }

  lemma NormalizedIsClean(repr: Value -> string, row: Row)
    ensures Clean(Normalized(repr, row))
  {
    TextFieldClean(repr, row, CssSelector);
    TextFieldClean(repr, row, Xpath);
    TextFieldClean(repr, row, Regex);
    TextFieldClean(repr, row, SampleValue);
    var field := TextOr(repr, Get(row, FieldName, Null), "");
    StripStrips(field);
    StripStrips(TextOr(repr, Get(row, Source, Null), "domain_memory"));
    StripStrips(TextOr(repr, Get(row, Status, Null), "validated"));
  }

  function WithDefaults(r: Rule): Rule {
    r.(source := if r.source == "" then "domain_memory" else r.source,
       status := if r.status == "" then "validated" else r.status)
  }

  lemma TextFieldOf(repr: Value -> string, t: Option<string>)
    requires CleanText(t)
    ensures Strip(TextOr(repr, TextValue(t), "")) == OrEmpty(t)
  {
    StripStrips(OrEmpty(t));
  }

  lemma SafeIntOf(repr: Value -> string, n: int)
    ensures SafeInt(repr, Int(n)) == Some(n)
  {
    IntTextReads(repr, n);
  }

  lemma StripDefault(repr: Value -> string, s: string, default: string)
    requires Stripped(s) && Stripped(default)
    ensures Strip(TextOr(repr, Str(s), default)) == if s == "" then default else s
  {
    StripStrips(s);
    StripStrips(default);
  }

  lemma TextsReadBack(repr: Value -> string, r: Rule)
    requires Clean(r)
    ensures var row := ToRow(r);
            && TextField(repr, row, CssSelector) == r.css && TextField(repr, row, Xpath) == r.xpath
            && TextField(repr, row, Regex) == r.regex && TextField(repr, row, SampleValue) == r.sample
  {
    ToRowHolds(r, Null);
    TextFieldOf(repr, r.css);
    TextFieldOf(repr, r.xpath);
    TextFieldOf(repr, r.regex);
    TextFieldOf(repr, r.sample);
  }

  lemma NumbersReadBack(repr: Value -> string, r: Rule)
    ensures var row := ToRow(r);
            && SafeInt(repr, Get(row, Id, Null)) == Some(r.id)
            && SafeInt(repr, Get(row, SourceRunId, Null)) == r.runId
            && Truthy(Get(row, IsActive, Bool(true))) == r.active
  {
    ToRowHolds(r, Null);
    ToRowHolds(r, Bool(true));
    SafeIntOf(repr, r.id);
    if r.runId.Some? {
      SafeIntOf(repr, r.runId.value);
    }
  }

  lemma NamesReadBack(repr: Value -> string, r: Rule)
    requires Clean(r)
    ensures var row := ToRow(r);
            && StripLower(TextOr(repr, Get(row, FieldName, Null), "")) == r.field.name
            && Strip(TextOr(repr, Get(row, Source, Null), "domain_memory")) == WithDefaults(r).source
            && Strip(TextOr(repr, Get(row, Status, Null), "validated")) == WithDefaults(r).status
  {
    ToRowHolds(r, Null);
    StripDefault(repr, r.field.name, "");
    StripDefault(repr, r.source, "domain_memory");
    StripDefault(repr, r.status, "validated");
  }

  /** Reading a stored rule back changes only a blank source or status, which fall to their defaults. */
  lemma ReadBack(repr: Value -> string, r: Rule)
    requires Clean(r)
    ensures Normalized(repr, ToRow(r)) == WithDefaults(r)
  {
    TextsReadBack(repr, r);
    NumbersReadBack(repr, r);
    NamesReadBack(repr, r);
  }

  /** A normalised rule reads back as itself exactly when neither its source nor its status was
      blank; and after one more normalisation it always does. */
  lemma ReadBackExactly(repr: Value -> string, row: Row)
    ensures var r := Normalized(repr, row);
            && (Normalized(repr, ToRow(r)) == r <==> r.source != "" && r.status != "")
            && var again := Normalized(repr, ToRow(r));
               Normalized(repr, ToRow(again)) == again
  {
    var r := Normalized(repr, row);
    NormalizedIsClean(repr, row);
    ReadBack(repr, r);
    NormalizedIsClean(repr, ToRow(r));
    ReadBack(repr, Normalized(repr, ToRow(r)));
  }

  lemma {:induction false} StripBlank(blank: string)
    requires forall i :: 0 <= i < |blank| ==> IsSpace(blank[i])
    ensures Strip(blank) == ""
  {
    if blank != "" {
      StripBlank(blank[1..]);
    }
  }

  lemma BlankSource(repr: Value -> string, row: Row, blank: string)
    requires Source in row && row[Source] == Str(blank) && blank != "" && Strip(blank) == ""
    ensures Normalized(repr, row).source == ""
  {
  }

  /** A source of nothing but spaces stays blank at first and becomes the default when read back. */
  lemma BlankSourceMoves(repr: Value -> string, blank: string)
    requires blank != "" && forall i :: 0 <= i < |blank| ==> IsSpace(blank[i])
    ensures var r := Normalized(repr, map[Source := Str(blank)]);
            r.source == "" && Normalized(repr, ToRow(r)).source == "domain_memory"
  {
    var row := map[Source := Str(blank)];
    StripBlank(blank);
    BlankSource(repr, row, blank);
    NormalizedIsClean(repr, row);
    ReadBack(repr, Normalized(repr, row));
  }

  /** Normalised rules have one signature exactly when they agree in field and all three selectors. */
  lemma SignaturesAgree(a: Rule, b: Rule)
    requires Clean(a) && Clean(b)
    ensures Sig(a) == Sig(b) <==> a.field == b.field && a.css == b.css && a.xpath == b.xpath && a.regex == b.regex
  {
  }

  /** The signature of a normalised row is read off the rule. */
  lemma SignatureOfNormalized(repr: Value -> string, row: Row)
    ensures SignatureOf(repr, ToRow(Normalized(repr, row))) == Sig(Normalized(repr, row)) == SignatureOf(repr, row)
  {
    var r := Normalized(repr, row);
    NormalizedIsClean(repr, row);
    ReadBack(repr, r);
    StripStrips(r.field.name);
    StripStrips(OrEmpty(r.css));
    StripStrips(OrEmpty(r.xpath));
    StripStrips(OrEmpty(r.regex));
  }
}
