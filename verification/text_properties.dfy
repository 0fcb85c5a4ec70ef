/** What the string operations and the reading of integers come to. */
module TextProperties {
  import opened Text
  import opened PythonValues

  ghost predicate Blank(s: string) {
    forall i :: 0 <= i < |s| ==>
                  s[i] in {' ', '\t', '\n', '\U{0B}', '\U{0C}', '\r', '\U{1C}', '\U{1D}', '\U{1E}', '\U{1F}'}
  }

  lemma SpacesAre(c: char)
    ensures IsSpace(c)
       <==> c in {' ', '\t', '\n', '\U{0B}', '\U{0C}', '\r', '\U{1C}', '\U{1D}', '\U{1E}', '\U{1F}'}
  {
    assert '\t' as int == 9 && '\n' as int == 10 && '\r' as int == 13;
    assert c == (c as int) as char;
  }

  /** `s` is `r` with blanks around it. */
  ghost predicate Surrounds(s: string, before: string, r: string, after: string) {
    s == before + r + after && Blank(before) && Blank(after)
  }

  lemma {:induction false} StripLeftCuts(s: string) returns (before: string)
    ensures s == before + StripLeft(s) && Blank(before)
  {
    if s != [] && IsSpace(s[0]) {
      SpacesAre(s[0]);
      before := StripLeftCuts(s[1..]);
      assert s == [s[0]] + s[1..];
      assert s == ([s[0]] + before) + StripLeft(s);
      before := [s[0]] + before;
    } else {
      before := [];
      assert s == [] + s;
    }
  }

  lemma {:induction false} StripRightCuts(s: string) returns (after: string)
    ensures s == StripRight(s) + after && Blank(after)
  {
    if s != [] && IsSpace(s[|s| - 1]) {
      SpacesAre(s[|s| - 1]);
      after := StripRightCuts(s[..|s| - 1]);
      assert s == s[..|s| - 1] + [s[|s| - 1]];
      assert s == StripRight(s) + (after + [s[|s| - 1]]);
      after := after + [s[|s| - 1]];
    } else {
      after := [];
      assert s == s + [];
    }
  }

  /** Stripping takes blanks away at both ends, and all of them. */
  lemma StripExactly(s: string) returns (before: string, after: string)
    ensures Surrounds(s, before, Strip(s), after)
    ensures Strip(s) != "" ==> !Blank([Strip(s)[0]]) && !Blank([Strip(s)[|Strip(s)| - 1]])
  {
    before := StripLeftCuts(s);
    after := StripRightCuts(StripLeft(s));
    StripStrips(s);
    assert s == before + Strip(s) + after;
    if Strip(s) != "" {
      SpacesAre(Strip(s)[0]);
      SpacesAre(Strip(s)[|Strip(s)| - 1]);
      assert [Strip(s)[0]][0] == Strip(s)[0] && [Strip(s)[|Strip(s)| - 1]][0] == Strip(s)[|Strip(s)| - 1];
    }
  }

  const CAPITALS := "ABCDEFGHIJKLMNOPQRSTUVWXYZ"
  const SMALL := "abcdefghijklmnopqrstuvwxyz"

  lemma CapitalsLower(i: nat)
    requires i < 26
    ensures LowerChar(CAPITALS[i]) == SMALL[i]
  {
  }

  /** Lower-casing replaces each capital by its small letter and nothing else. */
  lemma LowerExactly(s: string, i: nat)
    requires i < |s|
    ensures |Lower(s)| == |s|
    ensures forall k :: 0 <= k < 26 && s[i] == CAPITALS[k] ==> Lower(s)[i] == SMALL[k]
    ensures s[i] !in CAPITALS ==> Lower(s)[i] == s[i]
  {
    forall k | 0 <= k < 26 && s[i] == CAPITALS[k]
      ensures Lower(s)[i] == SMALL[k]
    {
      CapitalsLower(k);
    }
    if IsUpper(s[i]) {
      assert s[i] == CAPITALS[s[i] as int - 65] by { CapitalIs(s[i]); }
    }
  }

  lemma CapitalIs(c: char)
    requires 'A' <= c <= 'Z'
    ensures 0 <= c as int - 65 < 26 && CAPITALS[c as int - 65] == c
  {
  }

  // ---------------------------------------------------------------- numerals

  /** Digits, with single underscores between them. */
  predicate Numeral(s: string) {
    && s != [] && IsDigit(s[0]) && IsDigit(s[|s| - 1])
    && (forall i :: 0 <= i < |s| ==> IsDigit(s[i]) || s[i] == '_')
    && (forall i :: 0 < i < |s| && s[i] == '_' ==> s[i - 1] != '_')
  }

  /** The number its digits spell, the underscores skipped. */
  function Spells(s: string): nat {
    if s == [] then 0
    else if IsDigit(s[|s| - 1]) then 10 * Spells(s[..|s| - 1]) + DigitValue(s[|s| - 1])
    else Spells(s[..|s| - 1])
  }

  lemma NumeralShorter(s: string, rest: string)
    requires |s| > 1 && IsDigit(s[|s| - 1])
    requires rest == if s[|s| - 2] == '_' then s[..|s| - 2] else s[..|s| - 1]
    ensures Numeral(s) <==> Numeral(rest)
  {
    if Numeral(rest) {
      assert forall i :: 0 <= i < |rest| ==> s[i] == rest[i];
    }
    if Numeral(s) {
      assert s[0] == rest[0];
    }
  }

  lemma {:induction false} ReadNatExactly(s: string)
    ensures ReadNat(s) == if Numeral(s) then Some(Spells(s)) else None
    decreases |s|
  {
    if s != [] && IsDigit(s[|s| - 1]) {
      if |s| == 1 {
        assert Spells(s[..0]) == 0;
      } else {
        var rest := if s[|s| - 2] == '_' then s[..|s| - 2] else s[..|s| - 1];
        ReadNatExactly(rest);
        NumeralShorter(s, rest);
        assert s[..|s| - 1][..|s| - 2] == s[..|s| - 2];
        assert Spells(rest) == Spells(s[..|s| - 1]);
      }
    }
  }

  /** `int()` reads exactly the numerals, with one sign or none before them and blanks around them. */
  lemma ReadIntExactly(s: string)
    ensures var t := Strip(s);
            ReadInt(s) == if Numeral(t) then Some(Spells(t))
                          else if t != "" && t[0] == '-' && Numeral(t[1..]) then Some(-(Spells(t[1..]) as int))
                          else if t != "" && t[0] == '+' && Numeral(t[1..]) then Some(Spells(t[1..]))
                          else None
  {
    var t := Strip(s);
    ReadNatExactly(t);
    if t != "" {
      ReadNatExactly(t[1..]);
    }
  }

  // ---------------------------------------------------------------- texts and truth of values

  /** `str()` of the values it prints itself. */
  lemma TextsAre(repr: Value -> string)
    ensures TextOf(repr, Null) == "None" && TextOf(repr, Bool(true)) == "True" && TextOf(repr, Bool(false)) == "False"
    ensures TextOf(repr, List([])) == "[]" && TextOf(repr, Dict(map[])) == "{}"
    ensures forall text :: TextOf(repr, Str(text)) == text
    ensures forall n :: ReadInt(TextOf(repr, Int(n))) == Some(n)
  {
    forall n
      ensures ReadInt(TextOf(repr, Int(n))) == Some(n)
    {
      IntTextReads(repr, n);
    }
  }

  /** False are nothing, false, zero, and whatever is empty. */
  lemma FalsyExactly(v: Value)
    ensures !Truthy(v)
       <==> v == Null || v == Bool(false) || v == Int(0) || v == Float("0.0") || v == Float("-0.0")
            || v == Str("") || v == List([]) || v == Dict(map[])
  {
  }
}
