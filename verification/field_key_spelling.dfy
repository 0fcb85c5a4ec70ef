/** Where a field key breaks: the pipeline of `normalize_field_key` against one pass over the text. */
module FieldKeySpelling {
  import opened Text
  import opened FieldKeys

  // ---------------------------------------------------------------- the one-pass spelling

  /** A capital that starts a word of its own: after a small letter or digit, or after a capital and
      before a small letter. */
  predicate StartsHump(s: string, i: int) {
    0 < i < |s| && IsUpper(s[i])
    && (IsLower(s[i - 1]) || IsDigit(s[i - 1]) || (IsUpper(s[i - 1]) && i + 1 < |s| && IsLower(s[i + 1])))
  }

  /** A letter, digit or dot before which the key breaks: something else stands before it, or it
      starts a hump. */
  predicate BreaksAt(s: string, i: int) {
    0 < i < |s| && (!KeepsAsIs(s[i - 1]) || StartsHump(s, i))
  }

  /** The letters, digits and dots among the first `n` characters, lower-cased, an underscore before
      each at which the key breaks. */
  function Spelled(s: string, n: nat): string
    requires n <= |s|
  {
    if n == 0 then []
    else if !KeepsAsIs(s[n - 1]) then Spelled(s, n - 1)
    else Spelled(s, n - 1) + (if BreaksAt(s, n - 1) then ['_'] else []) + [LowerChar(s[n - 1])]
  }

  /** The spelling of a text that stands behind a separator. */
  function SpelledBehind(s: string, n: nat): string
    requires n <= |s|
  {
    if n > 0 && KeepsAsIs(s[0]) then ['_'] + Spelled(s, n) else Spelled(s, n)
  }

  function Whole(s: string): string {
    Spelled(s, |s|)
  }

  function Behind(s: string): string {
    SpelledBehind(s, |s|)
  }

  function StripMarks(s: string): string {
    StripMarksRight(StripMarksLeft(s))
  }

  // ---------------------------------------------------------------- camel case and squeezing

  lemma LowerKeepsKind(c: char)
    ensures KeepsAsIs(LowerChar(c)) <==> KeepsAsIs(c)
  {
  }

  lemma SqueezedKept(s: string, c: char)
    requires KeepsAsIs(c)
    ensures Squeezed(s + [c]) == Squeezed(s) + [c]
  {
    assert (s + [c])[..|s|] == s;
  }

  lemma SqueezedOther(s: string, c: char)
    requires !KeepsAsIs(c)
    ensures s == [] || KeepsAsIs(s[|s| - 1]) ==> Squeezed(s + [c]) == Squeezed(s) + ['_']
    ensures s != [] && !KeepsAsIs(s[|s| - 1]) ==> Squeezed(s + [c]) == Squeezed(s)
  {
    var t := s + [c];
    assert t[..|s|] == s;
    if s != [] {
      assert t[|t| - 2] == s[|s| - 1];
      SqueezedLast(t, s, c);
    } else {
      SqueezedLast(t, s, c);
    }
  }

  lemma SqueezedLast(t: string, s: string, c: char)
    requires |t| == |s| + 1 && t[..|s|] == s && t[|s|] == c && !KeepsAsIs(c)
    ensures Squeezed(t) == if |t| > 1 && !KeepsAsIs(t[|t| - 2]) then Squeezed(s) else Squeezed(s) + ['_']
  {
  }

  lemma SpelledNext(s: string, n: nat)
    requires 0 < n <= |s|
    ensures !KeepsAsIs(s[n - 1]) ==> Spelled(s, n) == Spelled(s, n - 1)
    ensures KeepsAsIs(s[n - 1]) && BreaksAt(s, n - 1) ==>
              Spelled(s, n) == Spelled(s, n - 1) + ['_'] + [LowerChar(s[n - 1])]
    ensures KeepsAsIs(s[n - 1]) && !BreaksAt(s, n - 1) ==>
              Spelled(s, n) == Spelled(s, n - 1) + [LowerChar(s[n - 1])]
  {
    assert Spelled(s, n - 1) + [] == Spelled(s, n - 1);
  }

  /** The pending underscore of a text that ends in a separator. */
  function Pending(s: string, n: nat): string
    requires n <= |s|
  {
    if n > 0 && !KeepsAsIs(s[n - 1]) then ['_'] else []
  }

  lemma SeparatedEnds(s: string, n: nat)
    requires 0 < n <= |s|
    ensures Separated(s, n) != [] && Separated(s, n)[|Separated(s, n)| - 1] == LowerChar(s[n - 1])
  {
  }

  lemma BoundaryIsHump(s: string, i: nat)
    requires i < |s|
    ensures Boundary(s, i) <==> StartsHump(s, i)
  {
  }

  lemma {:induction false} SqueezedIsSpelled(s: string, n: nat)
    requires n <= |s|
    ensures Squeezed(Separated(s, n)) == Spelled(s, n) + Pending(s, n)
  {
    if n > 0 {
      SqueezedIsSpelled(s, n - 1);
      SpelledNext(s, n);
      if KeepsAsIs(s[n - 1]) {
        KeptNext(s, n);
      } else {
        OtherNext(s, n);
      }
    }
  }

  lemma PieceIs(s: string, n: nat)
    requires 0 < n <= |s|
    ensures StartsHump(s, n - 1) ==> Separated(s, n) == Separated(s, n - 1) + ['_'] + [LowerChar(s[n - 1])]
    ensures !StartsHump(s, n - 1) ==> Separated(s, n) == Separated(s, n - 1) + [LowerChar(s[n - 1])]
  {
    BoundaryIsHump(s, n - 1);
    var before, c := Separated(s, n - 1), LowerChar(s[n - 1]);
    if StartsHump(s, n - 1) {
      assert before + (['_'] + [c]) == before + ['_'] + [c];
    } else {
      assert [] + [c] == [c];
    }
  }

  lemma HumpNext(s: string, n: nat)
    requires 0 < n <= |s| && StartsHump(s, n - 1)
    requires Squeezed(Separated(s, n - 1)) == Spelled(s, n - 1)
    ensures Squeezed(Separated(s, n)) == Spelled(s, n)
  {
    var before, c := Separated(s, n - 1), LowerChar(s[n - 1]);
    PieceIs(s, n);
    SpelledNext(s, n);
    SeparatedEnds(s, n - 1);
    LowerKeepsKind(s[n - 1]);
    LowerKeepsKind(s[n - 2]);
    SqueezedOther(before, '_');
    SqueezedKept(before + ['_'], c);
  }

  lemma PlainNext(s: string, n: nat)
    requires 0 < n <= |s| && KeepsAsIs(s[n - 1]) && !StartsHump(s, n - 1)
    requires Squeezed(Separated(s, n - 1)) == Spelled(s, n - 1) + Pending(s, n - 1)
    ensures Squeezed(Separated(s, n)) == Spelled(s, n)
  {
    PieceIs(s, n);
    SpelledNext(s, n);
    LowerKeepsKind(s[n - 1]);
    SqueezedKept(Separated(s, n - 1), LowerChar(s[n - 1]));
    assert Spelled(s, n - 1) + [] == Spelled(s, n - 1);
  }

  lemma KeptNext(s: string, n: nat)
    requires 0 < n <= |s| && KeepsAsIs(s[n - 1])
    requires Squeezed(Separated(s, n - 1)) == Spelled(s, n - 1) + Pending(s, n - 1)
    ensures Squeezed(Separated(s, n)) == Spelled(s, n) + Pending(s, n)
  {
    assert Spelled(s, n) + [] == Spelled(s, n) && Spelled(s, n - 1) + [] == Spelled(s, n - 1);
    if StartsHump(s, n - 1) {
      HumpNext(s, n);
    } else {
      PlainNext(s, n);
    }
  }

  lemma OtherNext(s: string, n: nat)
    requires 0 < n <= |s| && !KeepsAsIs(s[n - 1])
    requires Squeezed(Separated(s, n - 1)) == Spelled(s, n - 1) + Pending(s, n - 1)
    ensures Squeezed(Separated(s, n)) == Spelled(s, n) + Pending(s, n)
  {
    LowerKeepsKind(s[n - 1]);
    PieceIs(s, n);
    SpelledNext(s, n);
    SqueezedOther(Separated(s, n - 1), LowerChar(s[n - 1]));
    assert Spelled(s, n - 1) + [] == Spelled(s, n - 1);
    if n > 1 {
      SeparatedEnds(s, n - 1);
      LowerKeepsKind(s[n - 2]);
    }
  }

  // ---------------------------------------------------------------- spaces

  lemma {:induction false} SpelledFront(s: string, a: string, n: nat)
    requires n <= |a| < |s| && s[..|a|] == a && !KeepsAsIs(s[|a|])
    ensures Spelled(s, n) == Spelled(a, n)
  {
    if n > 0 {
      SpelledFront(s, a, n - 1);
      assert forall i :: 0 <= i < |a| ==> s[i] == a[i];
      assert BreaksAt(s, n - 1) <==> BreaksAt(a, n - 1);
    }
  }

  /** `s` is `a`, a separator and `b`. */
  predicate Apart(s: string, a: string, b: string) {
    |s| == |a| + 1 + |b| && s[..|a|] == a && s[|a| + 1..] == b && !KeepsAsIs(s[|a|])
  }

  lemma ApartAt(s: string, a: string, b: string, k: nat)
    requires Apart(s, a, b) && k < |b|
    ensures s[|a| + 1 + k] == b[k]
    ensures k > 0 ==> (BreaksAt(s, |a| + 1 + k) <==> BreaksAt(b, k))
    ensures k == 0 ==> BreaksAt(s, |a| + 1)
  {
    assert forall i :: 0 <= i < |b| ==> s[|a| + 1 + i] == b[i];
  }

  lemma {:induction false} SpelledBack(s: string, a: string, b: string, n: nat)
    requires n <= |b| && Apart(s, a, b)
    ensures Spelled(s, |a| + 1 + n) == Whole(a) + SpelledBehind(b, n)
  {
    if n == 0 {
      SpelledFront(s, a, |a|);
      assert Whole(a) + [] == Whole(a);
    } else {
      var m := |a| + n;
      SpelledBack(s, a, b, n - 1);
      assert |a| + 1 + (n - 1) == m;
      SpelledBackNext(s, a, b, n, m, Whole(a));
    }
  }

  /** A spelling grown by one character. */
  function Grown(x: string, kept: bool, breaks: bool, c: char): string {
    if !kept then x else if breaks then x + ['_'] + [c] else x + [c]
  }

  lemma SpelledGrows(s: string, n: nat)
    requires n < |s|
    ensures Spelled(s, n + 1) == Grown(Spelled(s, n), KeepsAsIs(s[n]), BreaksAt(s, n), LowerChar(s[n]))
  {
    SpelledNext(s, n + 1);
  }

  lemma BehindGrows(b: string, n: nat)
    requires n < |b|
    ensures SpelledBehind(b, n + 1)
         == Grown(SpelledBehind(b, n), KeepsAsIs(b[n]), n == 0 || BreaksAt(b, n), LowerChar(b[n]))
  {
    BehindNext(b, n + 1);
  }

  lemma GrownBehind(front: string, x: string, kept: bool, breaks: bool, c: char)
    ensures Grown(front + x, kept, breaks, c) == front + Grown(x, kept, breaks, c)
  {
    BackNext(front, x, c);
  }

  lemma SpelledBackNext(s: string, a: string, b: string, n: nat, m: nat, front: string)
    requires 0 < n <= |b| && m == |a| + n && Apart(s, a, b)
    requires Spelled(s, m) == front + SpelledBehind(b, n - 1)
    ensures Spelled(s, m + 1) == front + SpelledBehind(b, n)
  {
    SameCharacter(s, a, b, n - 1, m);
    BackStep(front, SpelledBehind(b, n - 1), s, m, b, n - 1);
  }

  lemma SameCharacter(s: string, a: string, b: string, k: nat, m: nat)
    requires k < |b| && m == |a| + 1 + k && Apart(s, a, b)
    ensures s[m] == b[k] && (BreaksAt(s, m) <==> k == 0 || BreaksAt(b, k))
  {
    ApartAt(s, a, b, k);
  }

  lemma BackStep(front: string, x: string, s: string, m: nat, b: string, k: nat)
    requires m < |s| && k < |b| && s[m] == b[k] && (BreaksAt(s, m) <==> k == 0 || BreaksAt(b, k))
    requires x == SpelledBehind(b, k) && Spelled(s, m) == front + x
    ensures Spelled(s, m + 1) == front + SpelledBehind(b, k + 1)
  {
    SpelledGrows(s, m);
    BehindGrows(b, k);
    GrownBehind(front, x, KeepsAsIs(s[m]), BreaksAt(s, m), LowerChar(s[m]));
  }

  lemma BackNext(a: string, b: string, c: char)
    ensures a + b + [c] == a + (b + [c])
    ensures a + b + ['_'] + [c] == a + (b + ['_'] + [c])
  {
  }

  lemma BehindNext(b: string, n: nat)
    requires 0 < n <= |b|
    ensures !KeepsAsIs(b[n - 1]) ==> SpelledBehind(b, n) == SpelledBehind(b, n - 1)
    ensures KeepsAsIs(b[n - 1]) && (n == 1 || BreaksAt(b, n - 1)) ==>
              SpelledBehind(b, n) == SpelledBehind(b, n - 1) + ['_'] + [LowerChar(b[n - 1])]
    ensures KeepsAsIs(b[n - 1]) && n > 1 && !BreaksAt(b, n - 1) ==>
              SpelledBehind(b, n) == SpelledBehind(b, n - 1) + [LowerChar(b[n - 1])]
  {
    SpelledNext(b, n);
    BackNext(['_'], Spelled(b, n - 1), LowerChar(b[n - 1]));
    if n == 1 {
      assert Spelled(b, 0) == [];
    }
  }

  /** What stands before and behind a separator is spelled on its own. */
  lemma SpelledApart(a: string, c: char, b: string)
    requires !KeepsAsIs(c)
    ensures Whole(a + [c] + b) == Whole(a) + Behind(b)
  {
    var s := a + [c] + b;
    assert s[..|a|] == a && s[|a| + 1..] == b;
    SpelledBack(s, a, b, |b|);
  }

  lemma {:induction false} DropSpacesBehind(s: string)
    ensures Behind(DropSpaces(s)) == Behind(s)
  {
    if s != [] && IsSpace(s[0]) {
      DropSpacesBehind(s[1..]);
      BehindSpace(s);
    }
  }

  lemma {:induction false} FirstWordEnds(s: string)
    ensures s != [] && !IsSpace(s[0]) ==> FirstWord(s) != [] && FirstWord(s)[0] == s[0]
    ensures |FirstWord(s)| < |s| ==> IsSpace(s[|FirstWord(s)|])
  {
    if s != [] && !IsSpace(s[0]) {
      FirstWordEnds(s[1..]);
    }
  }

  /** Texts with the same first character are spelled alike behind a separator if they are at all. */
  lemma SameBehind(s: string, t: string)
    requires Whole(s) == Whole(t) && s != [] && t != [] && s[0] == t[0]
    ensures Behind(s) == Behind(t)
  {
  }

  lemma BehindSpace(u: string)
    requires u != [] && IsSpace(u[0])
    ensures Behind(u) == Whole(u) == Behind(u[1..])
  {
    SpelledApart([], u[0], u[1..]);
    assert [] + [u[0]] + u[1..] == u;
    assert Whole([]) + Behind(u[1..]) == Behind(u[1..]);
  }

  lemma WordThenSpace(t: string, w: string, u: string)
    requires w != [] && t == w + u && (u == [] || IsSpace(u[0]))
    ensures Whole(t) == Whole(w) + Behind(u)
  {
    if u == [] {
      assert t == w && Whole(w) + [] == Whole(w);
    } else {
      BehindSpace(u);
      SpelledApart(w, u[0], u[1..]);
      assert w + [u[0]] + u[1..] == t;
    }
  }

  lemma Joined(w: string, rest: string)
    requires w != []
    ensures Whole(if rest == [] then w else w + " " + rest) == Whole(w) + Behind(rest)
  {
    if rest == [] {
      assert Whole(w) + [] == Whole(w);
    } else {
      SpelledApart(w, ' ', rest);
      assert w + [' '] + rest == w + " " + rest;
    }
  }

  lemma WordThenRest(t: string, w: string, u: string, rest: string)
    requires w != [] && t == w + u && (u == [] || IsSpace(u[0])) && Behind(rest) == Behind(u)
    ensures Behind(t) == Behind(if rest == [] then w else w + " " + rest)
  {
    WordThenSpace(t, w, u);
    Joined(w, rest);
    SameBehind(t, if rest == [] then w else w + " " + rest);
  }

  lemma {:induction false} JoinWordsBehind(s: string)
    ensures Behind(JoinWords(s)) == Behind(s)
    decreases |s|
  {
    DropSpacesBehind(s);
    var t := DropSpaces(s);
    if t != [] {
      var w := FirstWord(t);
      FirstWordEnds(t);
      JoinWordsBehind(t[|w|..]);
      assert t == w + t[|w|..];
      WordThenRest(t, w, t[|w|..], JoinWords(t[|w|..]));
    }
  }

  lemma {:induction false} StripLeftBehind(s: string)
    ensures Behind(StripLeft(s)) == Behind(s)
  {
    if s != [] && IsSpace(s[0]) {
      StripLeftBehind(s[1..]);
      BehindSpace(s);
    }
  }

  lemma {:induction false} StripRightBehind(s: string)
    ensures Behind(StripRight(s)) == Behind(s)
  {
    if s != [] && IsSpace(s[|s| - 1]) {
      var before := s[..|s| - 1];
      StripRightBehind(before);
      SpelledApart(before, s[|s| - 1], []);
      assert before + [s[|s| - 1]] + [] == s;
      assert Whole(before) + Behind([]) == Whole(before);
      if before != [] {
        SameBehind(s, before);
      }
    }
  }

  lemma {:induction false} AmpersandsSpelled(s: string, n: nat)
    requires n <= |s|
    ensures Spelled(AmpersandsOut(s), n) == Spelled(s, n)
  {
    if n > 0 {
      AmpersandsSpelled(s, n - 1);
      assert BreaksAt(AmpersandsOut(s), n - 1) <==> BreaksAt(s, n - 1);
    }
  }

  // ---------------------------------------------------------------- marks at the ends

  lemma {:induction false} LeftThenMark(s: string)
    ensures StripMarksLeft(s + ['_']) == if StripMarksLeft(s) == [] then [] else StripMarksLeft(s) + ['_']
  {
    if s == [] {
      assert s + ['_'] == ['_'];
      assert ['_'][1..] == [];
    } else if IsMark(s[0]) {
      LeftThenMark(s[1..]);
      assert (s + ['_'])[1..] == s[1..] + ['_'];
    }
  }

  lemma StripMarksPending(s: string)
    ensures StripMarks(s + ['_']) == StripMarks(s)
  {
    LeftThenMark(s);
    var left := StripMarksLeft(s);
    assert (left + ['_'])[..|left|] == left;
  }

  lemma StripMarksBehind(s: string)
    ensures StripMarks(Behind(s)) == StripMarks(Whole(s))
  {
    assert (['_'] + Whole(s))[1..] == Whole(s);
  }

  /** The key of any text is its one-pass spelling without the underscores and dots at its ends. */
  lemma KeySpelledExactly(value: string)
    ensures NormalizeFieldKey(value) == StripMarks(Whole(value))
  {
    var joined := JoinWords(value);
    var text := AmpersandsOut(Strip(joined));
    JoinWordsBehind(value);
    StripLeftBehind(joined);
    StripRightBehind(StripLeft(joined));
    StripMarksBehind(value);
    StripMarksBehind(Strip(joined));
    AmpersandsSpelled(Strip(joined), |text|);
    SqueezedIsSpelled(text, |text|);
    StripMarksPending(Whole(text));
    assert Whole(text) + [] == Whole(text);
  }

  // ---------------------------------------------------------------- what that means for words

  predicate IsSmall(c: char) {
    IsLower(c) || IsDigit(c)
  }

  /** Small letters and digits only. */
  predicate SmallWord(s: string) {
    s != [] && forall i :: 0 <= i < |s| ==> IsSmall(s[i])
  }

  predicate AllSeparators(s: string) {
    forall i :: 0 <= i < |s| ==> !KeepsAsIs(s[i])
  }

  lemma {:induction false} SpelledRun(s: string, lo: nat, hi: nat)
    requires lo <= hi <= |s|
    requires forall i :: lo <= i < hi ==> KeepsAsIs(s[i]) && !BreaksAt(s, i)
    ensures Spelled(s, hi) == Spelled(s, lo) + Lower(s[lo..hi])
  {
    if lo == hi {
      assert Lower(s[lo..hi]) == [];
    } else {
      SpelledRun(s, lo, hi - 1);
      assert s[lo..hi] == s[lo..hi - 1] + [s[hi - 1]];
      assert Lower(s[lo..hi]) == Lower(s[lo..hi - 1]) + [LowerChar(s[hi - 1])];
    }
  }

  lemma {:induction false} SpelledGap(s: string, lo: nat, hi: nat)
    requires lo <= hi <= |s| && forall i :: lo <= i < hi ==> !KeepsAsIs(s[i])
    ensures Spelled(s, hi) == Spelled(s, lo)
  {
    if lo < hi {
      SpelledGap(s, lo, hi - 1);
    }
  }

  lemma SmallLower(s: string)
    requires forall i :: 0 <= i < |s| ==> IsSmall(s[i])
    ensures Lower(s) == s
  {
  }

  /** Letters and digits from `lo` up to `hi` without a break. */
  predicate Unbroken(s: string, lo: int, hi: int) {
    forall i :: lo <= i < hi && 0 <= i < |s| ==> KeepsAsIs(s[i]) && !BreaksAt(s, i)
  }

  predicate Gap(s: string, lo: int, hi: int) {
    forall i :: lo <= i < hi && 0 <= i < |s| ==> !KeepsAsIs(s[i])
  }

  /** A text of two runs, the second of which starts with a break, and no break elsewhere. */
  lemma TwoRuns(s: string, first: string, a: nat, b: nat, c: char, rest: string)
    requires 0 < a <= b < |s| && s[..a] == first && s[b] == c && s[b + 1..] == rest
    requires Unbroken(s, 0, a) && Gap(s, a, b) && BreaksAt(s, b) && KeepsAsIs(c) && Unbroken(s, b + 1, |s|)
    ensures Whole(s) == Lower(first) + ['_'] + [LowerChar(c)] + Lower(rest)
  {
    FirstRun(s, first, a, b);
    SpelledNext(s, b + 1);
    LastRun(s, b + 1, rest);
  }

  lemma FirstRun(s: string, first: string, a: nat, b: nat)
    requires a <= b <= |s| && s[..a] == first && Unbroken(s, 0, a) && Gap(s, a, b)
    ensures Spelled(s, b) == Lower(first)
  {
    SpelledRun(s, 0, a);
    assert s[0..a] == first;
    assert Spelled(s, 0) + Lower(first) == Lower(first);
    SpelledGap(s, a, b);
  }

  lemma LastRun(s: string, b: nat, rest: string)
    requires b <= |s| && s[b..] == rest && Unbroken(s, b, |s|)
    ensures Whole(s) == Spelled(s, b) + Lower(rest)
  {
    SpelledRun(s, b, |s|);
    assert s[b..|s|] == rest;
  }

  /** What the key of such a text is. */
  lemma TwoRunsKey(s: string, first: string, a: nat, b: nat, c: char, rest: string)
    requires 0 < a <= b < |s| && s[..a] == first && s[b] == c && s[b + 1..] == rest
    requires Unbroken(s, 0, a) && Gap(s, a, b) && BreaksAt(s, b) && KeepsAsIs(c) && Unbroken(s, b + 1, |s|)
    requires IsAlnum(first[0]) && (if rest == [] then IsAlnum(c) else IsAlnum(rest[|rest| - 1]))
    ensures NormalizeFieldKey(s) == Lower(first) + ['_'] + [LowerChar(c)] + Lower(rest)
  {
    KeySpelledExactly(s);
    TwoRuns(s, first, a, b, c, rest);
    var key := Lower(first) + ['_'] + [LowerChar(c)] + Lower(rest);
    assert key[0] == LowerChar(first[0]);
    assert key[|key| - 1] == if rest == [] then LowerChar(c) else LowerChar(rest[|rest| - 1]);
    EndsUnmarked(key);
  }

  lemma EndsUnmarked(s: string)
    requires s != [] && !IsMark(s[0]) && !IsMark(s[|s| - 1])
    ensures StripMarks(s) == s
  {
  }

  lemma Thirds(a: string, sep: string, b: string)
    ensures var s := a + sep + b;
            && s[..|a|] == a && s[|a| + |sep|..] == b
            && (forall i :: 0 <= i < |a| ==> s[i] == a[i])
            && (forall i :: |a| <= i < |a| + |sep| ==> s[i] == sep[i - |a|])
            && (forall i :: |a| + |sep| <= i < |s| ==> s[i] == b[i - |a| - |sep|])
  {
  }

  lemma SeparatedShape(s: string, a: string, sep: string, b: string)
    requires s == a + sep + b && SmallWord(a) && SmallWord(b) && sep != [] && AllSeparators(sep)
    ensures Unbroken(s, 0, |a|) && Gap(s, |a|, |a| + |sep|)
    ensures BreaksAt(s, |a| + |sep|) && Unbroken(s, |a| + |sep| + 1, |s|)
  {
    Thirds(a, sep, b);
    assert s[|a| + |sep| - 1] == sep[|sep| - 1];
    SmallUnbroken(s);
  }

  /** Words of small letters and digits apart by any other characters but dots are joined by one
      underscore. */
  lemma SeparatedWords(a: string, sep: string, b: string)
    requires SmallWord(a) && SmallWord(b) && sep != [] && AllSeparators(sep)
    ensures NormalizeFieldKey(a + sep + b) == a + "_" + b
  {
    var s, n := a + sep + b, |a| + |sep|;
    assert s[..|a|] == a && s[n..] == b;
    HeadAndTail(s, n, b);
    SeparatedShape(s, a, sep, b);
    assert NormalizeFieldKey(s) == Lower(a) + ['_'] + [LowerChar(b[0])] + Lower(b[1..]) by {
      TwoRunsKey(s, a, |a|, n, b[0], b[1..]);
    }
    SmallWordsJoin(a, b);
  }

  lemma SmallWordsJoin(a: string, b: string)
    requires SmallWord(a) && SmallWord(b)
    ensures Lower(a) + ['_'] + [LowerChar(b[0])] + Lower(b[1..]) == a + "_" + b
  {
    SmallLower(a);
    SmallLower(b[1..]);
    Regroup(a, ['_'], [b[0]], b[1..]);
    assert b == [b[0]] + b[1..];
  }

  lemma Regroup(a: string, m: string, x: string, y: string)
    ensures a + m + x + y == a + m + (x + y)
  {
  }

  lemma HeadAndTail(s: string, n: nat, b: string)
    requires n <= |s| && s[n..] == b && b != []
    ensures s[n] == b[0] && s[n + 1..] == b[1..]
  {
  }

  /** A small letter or digit only breaks behind a separator. */
  lemma SmallUnbroken(s: string)
    ensures forall i :: 0 < i < |s| && IsSmall(s[i]) && KeepsAsIs(s[i - 1]) ==> !BreaksAt(s, i)
  {
  }

  /** A capital after a small letter or digit starts a new word. */
  lemma HumpBreaks(a: string, c: char, b: string)
    requires SmallWord(a) && IsUpper(c) && forall i :: 0 <= i < |b| ==> IsSmall(b[i])
    ensures NormalizeFieldKey(a + [c] + b) == a + "_" + [LowerChar(c)] + b
  {
    var s := a + [c] + b;
    Thirds(a, [c], b);
    assert s[|a|] == c && s[|a| - 1] == a[|a| - 1];
    assert StartsHump(s, |a|);
    TwoRunsKey(s, a, |a|, |a|, c, b);
    SmallLower(a);
    SmallLower(b);
  }

  /** The last capital of an acronym starts a new word when a small letter follows it. */
  lemma AcronymBreaks(acronym: string, c: char, b: string)
    requires acronym != [] && (forall i :: 0 <= i < |acronym| ==> IsUpper(acronym[i]))
    requires IsUpper(c) && SmallWord(b) && IsLower(b[0])
    ensures NormalizeFieldKey(acronym + [c] + b) == Lower(acronym) + "_" + [LowerChar(c)] + b
  {
    var s, n := acronym + [c] + b, |acronym|;
    Thirds(acronym, [c], b);
    assert s[n] == c && s[n - 1] == acronym[n - 1] && s[n + 1] == b[0];
    assert StartsHump(s, n);
    TwoRunsKey(s, acronym, n, n, c, b);
    SmallLower(b);
  }
}
