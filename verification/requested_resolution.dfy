/** Resolving a requested field name: exact alias, else the longest token match, else the name itself. */
module RequestedResolution {
  import opened Text
  import opened FieldKeys
  import opened RequestedFields

  const SECTION := "sections."

  predicate InSection(text: string) {
    SECTION <= text
  }

  function SectionStripped(text: string): string {
    if InSection(text) then text[|SECTION|..] else text
  }

  function Candidates(text: string, prefixes: seq<string>): (r: seq<string>)
    ensures r != [] && r[0] == text
  {
    if prefixes == [] then [text]
    else
      var before, prefix := Candidates(text, prefixes[..|prefixes| - 1]), prefixes[|prefixes| - 1];
      if prefix <= text && text != prefix && text[|prefix|..] !in before then before + [text[|prefix|..]] else before
  }

  /** The candidates are exactly the text and the non-empty rests after a prefix of it; none twice. */
  lemma {:induction false} CandidatesExactly(text: string, prefixes: seq<string>, r: string)
    ensures r in Candidates(text, prefixes)
       <==> r == text || (r != "" && exists prefix :: prefix in prefixes && text == prefix + r)
    ensures forall i, j :: 0 <= i < j < |Candidates(text, prefixes)| ==>
                             Candidates(text, prefixes)[i] != Candidates(text, prefixes)[j]
  {
    if prefixes != [] {
      var before, prefix := prefixes[..|prefixes| - 1], prefixes[|prefixes| - 1];
      CandidatesExactly(text, before, r);
      assert prefixes == before + [prefix];
      PrefixThenRest(text, prefix, r);
    }
  }

  lemma PrefixThenRest(text: string, prefix: string, r: string)
    ensures text == prefix + r <==> prefix <= text && text[|prefix|..] == r
  {
    if prefix <= text {
      assert text == prefix + text[|prefix|..];
    }
  }

  /** The first candidate that is a key of the table decides. */
  function Exact(t: Table, candidates: seq<string>): Name {
    if candidates == [] then NO_NAME
    else
      match Lookup(t, Name(candidates[0]))
      case Some(c) => if c != NO_NAME then c else Exact(t, candidates[1..])
      case None => Exact(t, candidates[1..])
  }

  /** `_requested_field_candidates` as it runs. */
  method CandidatesLoop(text: string, prefixes: seq<string>) returns (candidates: seq<string>)
    ensures candidates == Candidates(text, prefixes)
  {
    candidates := [text];
    for i := 0 to |prefixes|
      invariant candidates == Candidates(text, prefixes[..i])
    {
      assert prefixes[..i + 1][..i] == prefixes[..i];
      if prefixes[i] <= text {
        var stripped := text[|prefixes[i]|..];
        if stripped != "" && stripped !in candidates {
          candidates := candidates + [stripped];
        }
      }
    }
    assert prefixes[..|prefixes|] == prefixes;
  }

  /** The loop of `_requested_field_exact_match`. */
  method ExactLoop(t: Table, candidates: seq<string>) returns (canonical: Name)
    ensures canonical == Exact(t, candidates)
  {
    for i := 0 to |candidates|
      invariant Exact(t, candidates[i..]) == Exact(t, candidates)
    {
      assert candidates[i..][1..] == candidates[i + 1..];
      var found := Lookup(t, Name(candidates[i]));
      if found.Some? && found.value != NO_NAME {
        return found.value;
      }
    }
    return NO_NAME;
  }

  /** `set(s.split("_"))` */
  function Tokens(s: string): (r: set<Name>)
    ensures r != {}
  {
    Finished(s) + {Name(LastToken(s))}
  }

  function LastToken(s: string): string {
    if s == [] || s[|s| - 1] == '_' then [] else LastToken(s[..|s| - 1]) + [s[|s| - 1]]
  }

  function Finished(s: string): set<Name> {
    if s == [] then {}
    else if s[|s| - 1] == '_' then Finished(s[..|s| - 1]) + {Name(LastToken(s[..|s| - 1]))}
    else Finished(s[..|s| - 1])
  }

  /** `k` is the text between two neighbouring underscores, or an end of `s`. */
  ghost predicate Segment(s: string, i: int, j: int, k: string) {
    && 0 <= i <= j <= |s| && s[i..j] == k && '_' !in k
    && (i == 0 || s[i - 1] == '_') && (j == |s| || s[j] == '_')
  }

  lemma {:induction false} LastTokenIsSegment(s: string)
    ensures |LastToken(s)| <= |s| && Segment(s, |s| - |LastToken(s)|, |s|, LastToken(s))
  {
    if s != [] && s[|s| - 1] != '_' {
      var before := s[..|s| - 1];
      LastTokenIsSegment(before);
      var i := |before| - |LastToken(before)|;
      assert s[i..|s|] == before[i..|before|] + [s[|s| - 1]] == LastToken(s);
    }
  }

  /** A text ends in one segment only: no underscore lies inside either of two. */
  lemma OneLastSegment(s: string, i: int, j: int, k: string, l: string)
    requires Segment(s, i, |s|, k) && Segment(s, j, |s|, l) && i <= j
    ensures k == l
  {
    if i < j {
      assert false;
    }
  }

  lemma LastSegmentIsLastToken(s: string, i: int, k: string)
    requires Segment(s, i, |s|, k)
    ensures k == LastToken(s)
  {
    LastTokenIsSegment(s);
    var j := |s| - |LastToken(s)|;
    if i <= j {
      OneLastSegment(s, i, j, k, LastToken(s));
    } else {
      OneLastSegment(s, j, i, LastToken(s), k);
    }
  }

  ghost predicate EndsAt(s: string, n: int, k: string) {
    exists i :: Segment(s, i, n, k)
  }

  /** The one segment that ends at a final underscore. */
  lemma SegmentAtMark(s: string, k: string)
    requires s != [] && s[|s| - 1] == '_'
    ensures k == LastToken(s[..|s| - 1]) <==> EndsAt(s, |s| - 1, k)
  {
    var n := |s| - 1;
    var before := s[..n];
    LastTokenIsSegment(before);
    var start := n - |LastToken(before)|;
    assert s[start..n] == before[start..n];
    assert Segment(s, start, n, LastToken(before));
    if i :| Segment(s, i, n, k) {
      assert s[i..n] == before[i..n];
      LastSegmentIsLastToken(before, i, k);
    }
  }

  ghost predicate EndsBefore(s: string, n: int, k: string) {
    exists i, j :: j < n && Segment(s, i, j, k)
  }

  lemma EndsBeforeNext(s: string, k: string)
    requires s != []
    ensures EndsBefore(s, |s|, k)
       <==> EndsBefore(s[..|s| - 1], |s| - 1, k) || EndsAt(s, |s| - 1, k)
  {
    var before, n := s[..|s| - 1], |s| - 1;
    assert forall i, j :: j < n ==> (Segment(s, i, j, k) <==> Segment(before, i, j, k));
    if i, j :| j < |s| && Segment(s, i, j, k) {
      assert j < n || Segment(s, i, n, k);
    }
    if i, j :| j < n && Segment(before, i, j, k) {
      assert Segment(s, i, j, k);
    }
  }

  lemma {:induction false} FinishedAreSegments(s: string, k: string)
    ensures Name(k) in Finished(s) <==> EndsBefore(s, |s|, k)
  {
    if s != [] {
      FinishedAreSegments(s[..|s| - 1], k);
      EndsBeforeNext(s, k);
      if s[|s| - 1] == '_' {
        SegmentAtMark(s, k);
      }
    }
  }

  /** The tokens of a text are exactly its pieces between underscores. */
  lemma TokensAreSegments(s: string, k: string)
    ensures Name(k) in Tokens(s) <==> exists i, j :: Segment(s, i, j, k)
  {
    FinishedAreSegments(s, k);
    LastTokenIsSegment(s);
    if i :| Segment(s, i, |s|, k) {
      LastSegmentIsLastToken(s, i, k);
    }
  }

  // ---------------------------------------------------------------- the longest token match

  /** One (candidate, alias) pair of the scan: does the alias fit, and its score if it does. */
  datatype Scored = Scored(fits: bool, tokens: nat, length: nat, canonical: Name)

  function Score(candidate: string, e: Entry): (r: Scored)
    ensures r.tokens > 0 && r.canonical == e.canonical
  {
    var tokens := Tokens(e.key.text);
    Scored(tokens <= Tokens(candidate), |tokens|, |e.key.text|, e.canonical)
  }

  ghost predicate IsToken(s: string, k: string) {
    exists i, j :: Segment(s, i, j, k)
  }

  lemma TokenIsSegment(s: string, x: Name)
    ensures x in Tokens(s) <==> IsToken(s, x.text)
  {
    TokensAreSegments(s, x.text);
    assert x == Name(x.text);
  }

  /** An alias fits exactly when each of its pieces between underscores is one of the candidate's. */
  lemma FitsExactly(candidate: string, e: Entry)
    ensures Score(candidate, e).fits <==> forall k :: IsToken(e.key.text, k) ==> IsToken(candidate, k)
  {
    forall x
      ensures (x in Tokens(e.key.text) <==> IsToken(e.key.text, x.text))
           && (x in Tokens(candidate) <==> IsToken(candidate, x.text))
    {
      TokenIsSegment(e.key.text, x);
      TokenIsSegment(candidate, x);
    }
    if !Score(candidate, e).fits {
      var x :| x in Tokens(e.key.text) && x !in Tokens(candidate);
      assert IsToken(e.key.text, x.text) && !IsToken(candidate, x.text);
    } else {
      forall k | IsToken(e.key.text, k)
        ensures IsToken(candidate, k)
      {
        assert Name(k) in Tokens(e.key.text);
      }
    }
  }

  predicate Higher(a: Scored, b: Scored) {
    a.tokens > b.tokens || (a.tokens == b.tokens && a.length > b.length)
  }

  function ScanOne(candidate: string, t: Table): (r: seq<Scored>)
    ensures |r| == |t| && forall j :: 0 <= j < |t| ==> r[j] == Score(candidate, t[j])
  {
    seq(|t|, j requires 0 <= j < |t| => Score(candidate, t[j]))
  }

  /** All pairs in scan order: candidates outside, table entries inside. */
  function Scan(candidates: seq<string>, t: Table): seq<Scored> {
    if candidates == [] then []
    else Scan(candidates[..|candidates| - 1], t) + ScanOne(candidates[|candidates| - 1], t)
  }

  /** The pair the scan ends up with. */
  function Best(pairs: seq<Scored>): (r: Option<nat>)
    ensures r.Some? ==> r.value < |pairs|
  {
    if pairs == [] then None
    else
      var n := |pairs| - 1;
      var r := Best(pairs[..n]);
      if pairs[n].fits && (r.None? || Higher(pairs[n], pairs[r.value])) then Some(n) else r
  }

  function BestCanonical(pairs: seq<Scored>): Name {
    match Best(pairs)
    case None => NO_NAME
    case Some(p) => pairs[p].canonical
  }

  /** The scan keeps the first of the fitting pairs with the greatest (token count, length), and
      finds nothing only when no pair fits. */
  lemma {:induction false} BestIsFirstHighest(pairs: seq<Scored>)
    ensures match Best(pairs)
            case None => forall q :: 0 <= q < |pairs| ==> !pairs[q].fits
            case Some(p) =>
              && pairs[p].fits
              && (forall q :: 0 <= q < |pairs| && pairs[q].fits ==> !Higher(pairs[q], pairs[p]))
              && (forall q :: 0 <= q < p && pairs[q].fits ==> Higher(pairs[p], pairs[q]))
  {
    if pairs != [] {
      BestIsFirstHighest(pairs[..|pairs| - 1]);
    }
  }

  /** The loop's variables describe the best pair so far. */
  ghost predicate Kept(pairs: seq<Scored>, best: Name, tokens: nat, length: nat) {
    match Best(pairs)
    case None => best == NO_NAME && tokens == 0 && length == 0
    case Some(p) => best == pairs[p].canonical && tokens == pairs[p].tokens && length == pairs[p].length
  }

  predicate Improves(s: Scored, tokens: nat, length: nat) {
    s.fits && (s.tokens > tokens || (s.tokens == tokens && s.length > length))
  }

  /** One pair: a fitting alias with a higher score replaces the best so far. */
  method TryPair(ghost seen: seq<Scored>, s: Scored, found: Name, tokens: nat, length: nat)
    returns (bestMatch: Name, bestTokens: nat, bestLength: nat)
    requires Kept(seen, found, tokens, length) && s.tokens > 0
    ensures Kept(seen + [s], bestMatch, bestTokens, bestLength)
  {
    bestMatch, bestTokens, bestLength := found, tokens, length;
    if Improves(s, tokens, length) {
      bestTokens, bestLength, bestMatch := s.tokens, s.length, s.canonical;
    }
  }

  /** The inner loop: one candidate against every entry of the table. */
  method ScanCandidate(ghost before: seq<Scored>, candidate: string, t: Table, found: Name, tokens: nat, length: nat)
    returns (bestMatch: Name, bestTokens: nat, bestLength: nat)
    requires Kept(before, found, tokens, length)
    ensures Kept(before + ScanOne(candidate, t), bestMatch, bestTokens, bestLength)
  {
    bestMatch, bestTokens, bestLength := found, tokens, length;
    ghost var row, seen := ScanOne(candidate, t), before;
    for j := 0 to |t|
      invariant seen == before + row[..j]
      invariant Kept(seen, bestMatch, bestTokens, bestLength)
    {
      RowNext(before, row, j);
      bestMatch, bestTokens, bestLength := TryPair(seen, Score(candidate, t[j]), bestMatch, bestTokens, bestLength);
      seen := seen + [row[j]];
    }
    assert row[..|t|] == row;
  }

  lemma RowNext(before: seq<Scored>, row: seq<Scored>, j: nat)
    requires j < |row|
    ensures before + row[..j] + [row[j]] == before + row[..j + 1]
  {
  }

  /** The scan as it runs: candidates outside, table entries inside, keeping the best match and its score. */
  method FuzzyLoop(candidates: seq<string>, t: Table) returns (bestMatch: Name)
    ensures bestMatch == BestCanonical(Scan(candidates, t))
  {
    bestMatch := NO_NAME;
    var bestTokens, bestLength := 0, 0;
    for i := 0 to |candidates|
      invariant Kept(Scan(candidates[..i], t), bestMatch, bestTokens, bestLength)
    {
      bestMatch, bestTokens, bestLength :=
        ScanCandidate(Scan(candidates[..i], t), candidates[i], t, bestMatch, bestTokens, bestLength);
      assert candidates[..i + 1][..i] == candidates[..i];
    }
    assert candidates[..|candidates|] == candidates;
  }

  // ---------------------------------------------------------------- the whole resolution

  /** The canonical field a key resolves to, or no name. */
  function Resolve(t: Table, prefixes: seq<string>, text: string): Name {
    var candidates := Candidates(text, prefixes);
    var exact := Exact(t, candidates);
    if exact != NO_NAME then exact else BestCanonical(Scan(candidates, t))
  }

  function NormalizeRequestedField(t: Table, prefixes: seq<string>, value: string): string {
    var key := NormalizeFieldKey(value);
    if key == "" then ""
    else
      var text := SectionStripped(key);
      var found := Resolve(t, prefixes, text);
      if found != NO_NAME then found.text else text
  }

  /** `normalize_requested_field` as it runs. */
  method NormalizeRequestedFieldLoop(t: Table, prefixes: seq<string>, value: string) returns (field: string)
    ensures field == NormalizeRequestedField(t, prefixes, value)
  {
    var key := NormalizeFieldKeyLoop(value);
    if key == "" {
      return "";
    }
    var text := SectionStripped(key);
    var candidates := CandidatesLoop(text, prefixes);
    var found := ExactLoop(t, candidates);
    if found == NO_NAME {
      found := FuzzyLoop(candidates, t);
    }
    return if found != NO_NAME then found.text else text;
  }

  /** Every entry leads to a canonical field that stands for itself and is no section. */
  ghost predicate Sound(t: Table) {
    forall e :: e in t ==> SoundName(t, e.canonical)
  }

  ghost predicate SoundName(t: Table, c: Name) {
    c != NO_NAME && Canonical(c.text) && !InSection(c.text) && Lookup(t, c) == Some(c)
  }

  lemma {:induction false} ExactIsSound(t: Table, candidates: seq<string>)
    requires Sound(t) && Exact(t, candidates) != NO_NAME
    ensures SoundName(t, Exact(t, candidates))
  {
    var k := Name(candidates[0]);
    if Lookup(t, k).Some? {
      FoundIsEntry(t, k);
    } else {
      ExactIsSound(t, candidates[1..]);
    }
  }

  lemma {:induction false} ScanIsSound(t: Table, candidates: seq<string>, p: nat)
    requires Sound(t) && p < |Scan(candidates, t)|
    ensures SoundName(t, Scan(candidates, t)[p].canonical)
  {
    var n := |candidates| - 1;
    var before := Scan(candidates[..n], t);
    if p < |before| {
      ScanIsSound(t, candidates[..n], p);
    } else {
      assert t[p - |before|] in t;
    }
  }

  lemma ResolveIsSound(t: Table, prefixes: seq<string>, text: string)
    requires Sound(t) && Resolve(t, prefixes, text) != NO_NAME
    ensures SoundName(t, Resolve(t, prefixes, text))
  {
    var candidates := Candidates(text, prefixes);
    if Exact(t, candidates) != NO_NAME {
      ExactIsSound(t, candidates);
    } else {
      ScanIsSound(t, candidates, Best(Scan(candidates, t)).value);
    }
  }

  ghost predicate IsFirstKey(t: Table, candidates: seq<string>, i: int) {
    && 0 <= i < |candidates| && Lookup(t, Name(candidates[i])).Some?
    && forall j :: 0 <= j < i ==> Lookup(t, Name(candidates[j])).None?
  }

  lemma {:induction false} ExactIsFirstKey(t: Table, candidates: seq<string>)
    requires Sound(t)
    ensures if Exact(t, candidates) == NO_NAME
            then forall i :: 0 <= i < |candidates| ==> Lookup(t, Name(candidates[i])).None?
            else exists i :: IsFirstKey(t, candidates, i)
                             && Lookup(t, Name(candidates[i])) == Some(Exact(t, candidates))
  {
    if candidates != [] {
      if Lookup(t, Name(candidates[0])).Some? {
        FoundIsEntry(t, Name(candidates[0]));
        assert IsFirstKey(t, candidates, 0);
      } else {
        var rest := candidates[1..];
        ExactIsFirstKey(t, rest);
        if i :| IsFirstKey(t, rest, i) && Lookup(t, Name(rest[i])) == Some(Exact(t, rest)) {
          assert IsFirstKey(t, candidates, i + 1);
        }
      }
    }
  }

  /** The first candidate that is an alias decides; only when none is one does the token match, and
      the name stays unresolved exactly when no alias fits either. */
  lemma ResolvesExactly(t: Table, prefixes: seq<string>, text: string)
    requires Sound(t)
    ensures var candidates := Candidates(text, prefixes);
            if exists i :: IsFirstKey(t, candidates, i)
            then exists i :: IsFirstKey(t, candidates, i)
                             && Lookup(t, Name(candidates[i])) == Some(Resolve(t, prefixes, text))
            else Resolve(t, prefixes, text) == BestCanonical(Scan(candidates, t))
                 && (Resolve(t, prefixes, text) == NO_NAME
                     <==> forall q :: 0 <= q < |Scan(candidates, t)| ==> !Scan(candidates, t)[q].fits)
  {
    var candidates := Candidates(text, prefixes);
    ExactIsFirstKey(t, candidates);
    BestIsFirstHighest(Scan(candidates, t));
    if Best(Scan(candidates, t)).Some? {
      ScanIsSound(t, candidates, Best(Scan(candidates, t)).value);
    }
  }

  /** A canonical field resolves to itself. */
  lemma CanonicalResolvesToItself(t: Table, prefixes: seq<string>, c: Name)
    requires SoundName(t, c)
    ensures NormalizeRequestedField(t, prefixes, c.text) == c.text
  {
    CanonicalStays(c.text);
    assert Name(c.text) == c;
  }

  /** What is left of a key once a section prefix is gone is still key-like, and not empty. */
  lemma SectionRestKeyLike(value: string)
    requires NormalizeFieldKey(value) != ""
    ensures var text := SectionStripped(NormalizeFieldKey(value));
            KeyLike(text) && text != "" && (!InSection(NormalizeFieldKey(value)) ==> Canonical(text))
  {
    KeyIsCanonical(value);
  }

  /** Resolving twice is resolving once exactly when the name was found, or what is left after a
      section prefix is itself a key outside every section. */
  lemma IdempotentExactly(t: Table, prefixes: seq<string>, value: string)
    requires Sound(t) && NormalizeFieldKey(value) != ""
    ensures var text, once := SectionStripped(NormalizeFieldKey(value)), NormalizeRequestedField(t, prefixes, value);
            (NormalizeRequestedField(t, prefixes, once) == once
             <==> Resolve(t, prefixes, text) != NO_NAME || (Canonical(text) && !InSection(text)))
  {
    var text := SectionStripped(NormalizeFieldKey(value));
    var found := Resolve(t, prefixes, text);
    SectionRestKeyLike(value);
    if found != NO_NAME {
      ResolveIsSound(t, prefixes, text);
      CanonicalResolvesToItself(t, prefixes, found);
    } else if Canonical(text) && !InSection(text) {
      CanonicalStays(text);
    } else {
      UnsettledMoves(t, prefixes, text);
    }
  }

  lemma UnsettledMoves(t: Table, prefixes: seq<string>, text: string)
    requires Sound(t) && KeyLike(text) && text != "" && (!Canonical(text) || InSection(text))
    ensures NormalizeRequestedField(t, prefixes, text) != text
  {
    var key := NormalizeFieldKey(text);
    KeyLikeNormalizes(text);
    KeyIsCanonical(text);
    if key != "" {
      var rest := SectionStripped(key);
      if Resolve(t, prefixes, rest) != NO_NAME {
        ResolveIsSound(t, prefixes, rest);
      }
    }
  }

  lemma SectionKeyLike(rest: string)
    requires Canonical(rest) && rest != ""
    ensures Canonical(SECTION + rest) && SectionStripped(SECTION + rest) == rest && InSection(SECTION + rest)
  {
    var text := SECTION + rest;
    assert text[|SECTION|..] == rest && text[..|SECTION|] == SECTION;
    assert Canonical("sections");
    forall i | 0 <= i < |text|
      ensures KeyChar(text[i]) && (i > 0 && text[i] == '_' ==> text[i - 1] != '_')
    {
      assert i < |SECTION| ==> text[i] == SECTION[i];
      assert i >= |SECTION| ==> text[i] == rest[i - |SECTION|];
      assert i > |SECTION| ==> text[i - 1] == rest[i - 1 - |SECTION|];
    }
    assert text[0] == 's' && text[|text| - 1] == rest[|rest| - 1];
  }

  /** With no alias at all, a name inside two sections loses one of them at each resolution. */
  lemma NestedSectionMoves(c: char, prefixes: seq<string>)
    requires IsLower(c)
    ensures var twice := SECTION + (SECTION + [c]);
            && NormalizeRequestedField([], prefixes, twice) == SECTION + [c]
            && NormalizeRequestedField([], prefixes, SECTION + [c]) == [c]
  {
    SectionKeyLike([c]);
    SectionKeyLike(SECTION + [c]);
    CanonicalStays(SECTION + [c]);
    CanonicalStays(SECTION + (SECTION + [c]));
    NothingResolves(prefixes, [c]);
    NothingResolves(prefixes, SECTION + [c]);
  }

  lemma {:induction false} NothingInScan(candidates: seq<string>)
    ensures Exact([], candidates) == NO_NAME && Scan(candidates, []) == []
    decreases |candidates|
  {
    if candidates != [] {
      NothingInScan(candidates[1..]);
      NothingInScan(candidates[..|candidates| - 1]);
    }
  }

  lemma NothingResolves(prefixes: seq<string>, text: string)
    ensures Resolve([], prefixes, text) == NO_NAME
  {
    NothingInScan(Candidates(text, prefixes));
  }

  /** For every name outside the sections, resolving is idempotent. */
  lemma IdempotentOutsideSections(t: Table, prefixes: seq<string>, value: string)
    requires Sound(t) && !InSection(NormalizeFieldKey(value))
    ensures var once := NormalizeRequestedField(t, prefixes, value);
            NormalizeRequestedField(t, prefixes, once) == once
  {
    if NormalizeFieldKey(value) == "" {
      CanonicalStays("");
    } else {
      IdempotentExactly(t, prefixes, value);
      SectionRestKeyLike(value);
    }
  }

  /** A configuration whose canonical fields have usable names outside the sections builds a sound table. */
  lemma BuiltTableIsSound(rows: seq<Row>)
    requires forall row :: row in rows ==>
                             NormalizeFieldKey(row.canonical) != "" && !InSection(NormalizeFieldKey(row.canonical))
    ensures Sound(Build(Keyed(rows)))
  {
    var keyed := Keyed(rows);
    var t := Build(keyed);
    BuildDistinct(keyed);
    forall e | e in t
      ensures SoundName(t, e.canonical)
    {
      EntryIsFound(t, e);
      TableGivesMeaning(keyed, e.key);
      TableGivesMeaning(keyed, e.canonical);
      var i: nat := CanonicalComesFromRow(rows, e.canonical);
      KeyIsCanonical(rows[i].canonical);
    }
  }

  lemma CanonicalComesFromRow(rows: seq<Row>, c: Name) returns (i: nat)
    requires forall row :: row in rows ==> NormalizeFieldKey(row.canonical) != ""
    requires exists row :: row in Keyed(rows) && (row.key == c || Target(row) == c)
    ensures i < |rows| && KeyOf(rows[i].canonical) == c
  {
    var keyed := Keyed(rows);
    var row :| row in keyed && (row.key == c || Target(row) == c);
    i :| 0 <= i < |keyed| && keyed[i] == row;
  }
}
