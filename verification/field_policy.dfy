/** Field-name keys: how free text becomes a key, and which keys are left alone. ASCII text. */
module FieldKeys {
  import opened Text

  predicate IsAlnum(c: char) {
    IsDigit(c) || IsUpper(c) || IsLower(c)
  }

  function FirstWord(s: string): (w: string)
    ensures |w| <= |s| && w == s[..|w|]
  {
    if s == [] || IsSpace(s[0]) then [] else [s[0]] + FirstWord(s[1..])
  }

  function DropSpaces(s: string): (r: string)
    ensures |r| <= |s| && (r != [] ==> !IsSpace(r[0]))
  {
    if s != [] && IsSpace(s[0]) then DropSpaces(s[1..]) else s
  }

  /** `" ".join(s.split())` */
  function JoinWords(s: string): string
    decreases |s|
  {
    var t := DropSpaces(s);
    if t == [] then []
    else
      var w := FirstWord(t);
      var rest := JoinWords(t[|w|..]);
      if rest == [] then w else w + " " + rest
  }

  function AmpersandsOut(s: string): string {
    seq(|s|, i requires 0 <= i < |s| => if s[i] == '&' then ' ' else s[i])
  }

  /** A capital starting a word: after a small letter or digit, or the last capital before a small letter. */
  predicate Boundary(s: string, i: nat)
    requires i < |s|
  {
    i > 0 && IsUpper(s[i])
    && (IsLower(s[i - 1]) || IsDigit(s[i - 1]) || (IsUpper(s[i - 1]) && i + 1 < |s| && IsLower(s[i + 1])))
  }

  /** The first `n` characters with camel case separated. */
  function Separated(s: string, n: nat): string
    requires n <= |s|
  {
    if n == 0 then [] else Separated(s, n - 1) + Piece(s, n - 1)
  }

  function Piece(s: string, i: nat): string
    requires i < |s|
  {
    (if Boundary(s, i) then ['_'] else []) + [LowerChar(s[i])]
  }

  predicate KeepsAsIs(c: char) {
    IsAlnum(c) || c == '.'
  }

  /** Each run of other characters becomes one underscore. */
  function Squeezed(s: string): string {
    if s == [] then []
    else
      var rest, c := Squeezed(s[..|s| - 1]), s[|s| - 1];
      if KeepsAsIs(c) then rest + [c]
      else if |s| > 1 && !KeepsAsIs(s[|s| - 2]) then rest
      else rest + ['_']
  }

  predicate IsMark(c: char) {
    c == '_' || c == '.'
  }

  function StripMarksLeft(s: string): string {
    if s != [] && IsMark(s[0]) then StripMarksLeft(s[1..]) else s
  }

  function StripMarksRight(s: string): string {
    if s != [] && IsMark(s[|s| - 1]) then StripMarksRight(s[..|s| - 1]) else s
  }

  function NormalizeFieldKey(value: string): string {
    var text := AmpersandsOut(Strip(JoinWords(value)));
    StripMarksRight(StripMarksLeft(Squeezed(Separated(text, |text|))))
  }

  method SeparateCamelCase(text: string) returns (separated: string)
    ensures separated == Separated(text, |text|)
  {
    separated := [];
    for i := 0 to |text|
      invariant separated == Separated(text, i)
    {
      if Boundary(text, i) {
        separated := separated + ['_'];
      }
      separated := separated + [LowerChar(text[i])];
    }
  }

  /** `normalize_field_key` as it runs. */
  method NormalizeFieldKeyLoop(value: string) returns (key: string)
    ensures key == NormalizeFieldKey(value)
  {
    var text := AmpersandsOut(Strip(JoinWords(value)));
    var separated := SeparateCamelCase(text);
    var normalized := [];
    var lastWasSeparator := false;
    for i := 0 to |separated|
      invariant normalized == Squeezed(separated[..i])
      invariant lastWasSeparator == (i > 0 && !KeepsAsIs(separated[i - 1]))
    {
      assert separated[..i + 1][..i] == separated[..i];
      var c := separated[i];
      if KeepsAsIs(c) {
        normalized := normalized + [c];
        lastWasSeparator := false;
      } else {
        if !lastWasSeparator {
          normalized := normalized + ['_'];
        }
        lastWasSeparator := true;
      }
    }
    assert separated[..|separated|] == separated;
    return StripMarksRight(StripMarksLeft(normalized));
  }

  // ---------------------------------------------------------------- the keys that stay put

  predicate KeyChar(c: char) {
    IsLower(c) || IsDigit(c) || IsMark(c)
  }

  /** Lower-case letters, digits, dots and single underscores. */
  predicate KeyLike(s: string) {
    && (forall i :: 0 <= i < |s| ==> KeyChar(s[i]))
    && (forall i :: 0 < i < |s| && s[i] == '_' ==> s[i - 1] != '_')
  }

  /** A key-like text that neither starts nor ends with a mark. */
  predicate Canonical(s: string) {
    KeyLike(s) && (s != [] ==> !IsMark(s[0]) && !IsMark(s[|s| - 1]))
  }

  lemma {:induction false} SeparatedChars(s: string, n: nat)
    requires n <= |s|
    ensures forall i :: 0 <= i < |Separated(s, n)| ==> !IsUpper(Separated(s, n)[i])
  {
    if n > 0 {
      SeparatedChars(s, n - 1);
    }
  }

  lemma {:induction false} SqueezedIsKeyLike(s: string)
    requires forall i :: 0 <= i < |s| ==> !IsUpper(s[i])
    ensures KeyLike(Squeezed(s))
    ensures Squeezed(s) != [] && s != [] ==>
              (Squeezed(s)[|Squeezed(s)| - 1] == '_' <==> !KeepsAsIs(s[|s| - 1]))
    ensures s != [] ==> Squeezed(s) != []
    ensures |Squeezed(s)| <= |s|
  {
    if s != [] {
      SqueezedIsKeyLike(s[..|s| - 1]);
    }
  }

  lemma {:induction false} StripMarksLeftKeyLike(s: string)
    requires KeyLike(s)
    ensures var r := StripMarksLeft(s);
            KeyLike(r) && |r| <= |s| && (r != [] ==> !IsMark(r[0]))
  {
    if s != [] && IsMark(s[0]) {
      StripMarksLeftKeyLike(s[1..]);
    }
  }

  lemma {:induction false} StripMarksRightKeyLike(s: string)
    requires KeyLike(s) && (s != [] ==> !IsMark(s[0]))
    ensures Canonical(StripMarksRight(s)) && |StripMarksRight(s)| <= |s|
  {
    if s != [] && IsMark(s[|s| - 1]) {
      StripMarksRightKeyLike(s[..|s| - 1]);
    }
  }

  lemma KeyIsCanonical(value: string)
    ensures Canonical(NormalizeFieldKey(value))
  {
    var text := AmpersandsOut(Strip(JoinWords(value)));
    SeparatedChars(text, |text|);
    SqueezedIsKeyLike(Separated(text, |text|));
    StripMarksLeftKeyLike(Squeezed(Separated(text, |text|)));
    StripMarksRightKeyLike(StripMarksLeft(Squeezed(Separated(text, |text|))));
  }

  lemma {:induction false} FirstWordAll(s: string)
    requires forall i :: 0 <= i < |s| ==> !IsSpace(s[i])
    ensures FirstWord(s) == s
  {
    if s != [] {
      FirstWordAll(s[1..]);
    }
  }

  lemma {:induction false} SeparatedLower(s: string, n: nat)
    requires n <= |s| && forall i :: 0 <= i < |s| ==> !IsUpper(s[i])
    ensures Separated(s, n) == s[..n]
  {
    if n > 0 {
      SeparatedLower(s, n - 1);
    }
  }

  lemma {:induction false} SqueezedKeyLike(s: string)
    requires KeyLike(s)
    ensures Squeezed(s) == s
  {
    if s != [] {
      SqueezedKeyLike(s[..|s| - 1]);
    }
  }

  lemma JoinWordsAll(s: string)
    requires forall i :: 0 <= i < |s| ==> !IsSpace(s[i])
    ensures JoinWords(s) == s
  {
    FirstWordAll(s);
    if s != [] {
      assert DropSpaces(s) == s;
      assert s[|s|..] == [];
    }
  }

  lemma KeyLikePrepared(s: string)
    requires KeyLike(s)
    ensures AmpersandsOut(Strip(JoinWords(s))) == s
  {
    JoinWordsAll(s);
    assert Stripped(s);
    StripStrips(s);
  }

  /** On key-like text only the marks at the ends go. */
  lemma KeyLikeNormalizes(s: string)
    requires KeyLike(s)
    ensures NormalizeFieldKey(s) == StripMarksRight(StripMarksLeft(s))
    ensures |NormalizeFieldKey(s)| <= |s|
  {
    KeyLikePrepared(s);
    SeparatedLower(s, |s|);
    assert s[..|s|] == s;
    SqueezedKeyLike(s);
    StripMarksLeftKeyLike(s);
    StripMarksRightKeyLike(StripMarksLeft(s));
  }

  lemma CanonicalStays(s: string)
    requires Canonical(s)
    ensures NormalizeFieldKey(s) == s
  {
    KeyLikeNormalizes(s);
  }

  /** Normalisation fixes exactly the canonical keys, and only ever produces them; so it is idempotent. */
  lemma FixedExactlyWhenCanonical(s: string)
    ensures NormalizeFieldKey(s) == s <==> Canonical(s)
    ensures NormalizeFieldKey(NormalizeFieldKey(s)) == NormalizeFieldKey(s)
  {
    var key := NormalizeFieldKey(s);
    KeyIsCanonical(s);
    CanonicalStays(key);
    if Canonical(s) {
      CanonicalStays(s);
    }
  }

  // ---------------------------------------------------------------- no letter or digit is lost

  /** The letters and digits of a text, lower-cased, in order. */
  function Letters(s: string): string {
    if s == [] then [] else Letters(s[..|s| - 1]) + if IsAlnum(s[|s| - 1]) then [LowerChar(s[|s| - 1])] else []
  }

  lemma {:induction false} LettersConcat(a: string, b: string)
    ensures Letters(a + b) == Letters(a) + Letters(b)
  {
    if b == [] {
      assert a + b == a;
    } else {
      LettersConcat(a, b[..|b| - 1]);
      assert (a + b)[..|a + b| - 1] == a + b[..|b| - 1];
    }
  }

  lemma {:induction false} LettersDropSpaces(s: string)
    ensures Letters(DropSpaces(s)) == Letters(s)
  {
    if s != [] && IsSpace(s[0]) {
      LettersDropSpaces(s[1..]);
      LettersConcat([s[0]], s[1..]);
      assert s == [s[0]] + s[1..];
    }
  }

  lemma {:induction false} LettersJoinWords(s: string)
    ensures Letters(JoinWords(s)) == Letters(s)
    decreases |s|
  {
    LettersDropSpaces(s);
    var t := DropSpaces(s);
    if t != [] {
      var w := FirstWord(t);
      var rest := JoinWords(t[|w|..]);
      LettersJoinWords(t[|w|..]);
      LettersConcat(w, t[|w|..]);
      assert t == w + t[|w|..];
      LettersConcat(w + " ", rest);
      LettersConcat(w, " ");
    }
  }

  lemma {:induction false} LettersStripRight(s: string)
    ensures Letters(StripRight(s)) == Letters(s)
  {
    if s != [] && IsSpace(s[|s| - 1]) {
      LettersStripRight(s[..|s| - 1]);
    }
  }

  lemma {:induction false} LettersStripLeft(s: string)
    ensures Letters(StripLeft(s)) == Letters(s)
  {
    if s != [] && IsSpace(s[0]) {
      LettersStripLeft(s[1..]);
      LettersConcat([s[0]], s[1..]);
      assert s == [s[0]] + s[1..];
    }
  }

  lemma {:induction false} LettersAmpersands(s: string)
    ensures Letters(AmpersandsOut(s)) == Letters(s)
  {
    if s != [] {
      LettersAmpersands(s[..|s| - 1]);
      assert AmpersandsOut(s)[..|s| - 1] == AmpersandsOut(s[..|s| - 1]);
    }
  }

  lemma LettersPiece(s: string, i: nat)
    requires i < |s|
    ensures Letters(Piece(s, i)) == Letters([s[i]])
  {
    var c := LowerChar(s[i]);
    LettersConcat(['_'], [c]);
    assert Letters(['_']) + Letters([c]) == Letters([c]);
  }

  /** Texts that spell alike still do once pieces that spell alike follow. */
  lemma SameLetters(a: string, b: string, c: string, d: string)
    requires Letters(a) == Letters(b) && Letters(c) == Letters(d)
    ensures Letters(a + c) == Letters(b + d)
  {
    LettersConcat(a, c);
    LettersConcat(b, d);
  }

  lemma OneMore(s: string, n: nat)
    requires 0 < n <= |s|
    ensures s[..n] == s[..n - 1] + [s[n - 1]] && Separated(s, n) == Separated(s, n - 1) + Piece(s, n - 1)
  {
  }

  lemma {:induction false} LettersSeparated(s: string, n: nat)
    requires n <= |s|
    ensures Letters(Separated(s, n)) == Letters(s[..n])
  {
    if n > 0 {
      OneMore(s, n);
      LettersSeparated(s, n - 1);
      LettersPiece(s, n - 1);
      SameLetters(Separated(s, n - 1), s[..n - 1], Piece(s, n - 1), [s[n - 1]]);
    }
  }

  lemma {:induction false} LettersSqueezed(s: string)
    ensures Letters(Squeezed(s)) == Letters(s)
  {
    if s != [] {
      LettersSqueezed(s[..|s| - 1]);
      var rest := Squeezed(s[..|s| - 1]);
      LettersConcat(rest, "_");
      LettersConcat(rest, [s[|s| - 1]]);
      assert [s[|s| - 1]][..0] == [];
    }
  }

  lemma {:induction false} LettersStripMarksLeft(s: string)
    ensures Letters(StripMarksLeft(s)) == Letters(s)
  {
    if s != [] && IsMark(s[0]) {
      LettersStripMarksLeft(s[1..]);
      LettersConcat([s[0]], s[1..]);
      assert s == [s[0]] + s[1..];
    }
  }

  lemma {:induction false} LettersStripMarksRight(s: string)
    ensures Letters(StripMarksRight(s)) == Letters(s)
  {
    if s != [] && IsMark(s[|s| - 1]) {
      LettersStripMarksRight(s[..|s| - 1]);
    }
  }

  /** A key spells the letters and digits of its text, lower-cased and in order. */
  lemma KeySpellsText(value: string)
    ensures Letters(NormalizeFieldKey(value)) == Letters(value)
  {
    var joined := JoinWords(value);
    var text := AmpersandsOut(Strip(joined));
    LettersJoinWords(value);
    LettersStripLeft(joined);
    LettersStripRight(StripLeft(joined));
    LettersAmpersands(Strip(joined));
    LettersSeparated(text, |text|);
    assert text[..|text|] == text;
    LettersSqueezed(Separated(text, |text|));
    LettersStripMarksLeft(Squeezed(Separated(text, |text|)));
    LettersStripMarksRight(StripMarksLeft(Squeezed(Separated(text, |text|))));
  }
}
