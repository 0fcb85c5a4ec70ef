/** The string operations the modelled code leans on: stripping, lower-casing and decimal integers,
    all over ASCII text. */
module Text {

  datatype Option<+T> = None | Some(value: T)

  predicate IsSpace(c: char) {
    c == ' ' || '\t' <= c <= '\r' || '\U{1C}' <= c <= '\U{1F}'
  }

  predicate IsDigit(c: char) {
    '0' <= c <= '9'
  }

  predicate IsUpper(c: char) {
    'A' <= c <= 'Z'
  }

  predicate IsLower(c: char) {
    'a' <= c <= 'z'
  }

  function LowerChar(c: char): char {
    if IsUpper(c) then (c as int + 32) as char else c
  }

  function Lower(s: string): string {
    seq(|s|, i requires 0 <= i < |s| => LowerChar(s[i]))
  }

  function StripLeft(s: string): string {
    if s != [] && IsSpace(s[0]) then StripLeft(s[1..]) else s
  }

  function StripRight(s: string): string {
    if s != [] && IsSpace(s[|s| - 1]) then StripRight(s[..|s| - 1]) else s
  }

  function Strip(s: string): string {
    StripRight(StripLeft(s))
  }

  function StripLower(s: string): string {
    Lower(Strip(s))
  }

  predicate Stripped(s: string) {
    s != [] ==> !IsSpace(s[0]) && !IsSpace(s[|s| - 1])
  }

  lemma {:induction false} StripRightKeepsHead(s: string)
    requires s != [] ==> !IsSpace(s[0])
    ensures Stripped(StripRight(s))
  {
    if s != [] && IsSpace(s[|s| - 1]) {
      StripRightKeepsHead(s[..|s| - 1]);
    }
  }

  lemma {:induction false} StripLeftHead(s: string)
    ensures StripLeft(s) != [] ==> !IsSpace(StripLeft(s)[0])
  {
    if s != [] && IsSpace(s[0]) {
      StripLeftHead(s[1..]);
    }
  }

  /** Stripping leaves no space at either end, and leaves alone whatever has none. */
  lemma StripStrips(s: string)
    ensures Stripped(Strip(s)) && Strip(Strip(s)) == Strip(s)
    ensures Stripped(s) ==> Strip(s) == s
  {
    StripLeftHead(s);
    StripRightKeepsHead(StripLeft(s));
  }

  lemma StripLowerSettles(s: string)
    ensures StripLower(StripLower(s)) == StripLower(s) == Strip(StripLower(s)) == Lower(StripLower(s))
  {
    StripStrips(s);
    StripStrips(StripLower(s));
  }

  // ---------------------------------------------------------------- decimal integers

  function DigitValue(c: char): nat
    requires IsDigit(c)
  {
    c as int - '0' as int
  }

  function DigitChar(d: nat): char
    requires d < 10
  {
    (d + '0' as int) as char
  }

  /** Digits with single underscores between them, as Python's `int()` reads them. */
  function ReadNat(s: string): Option<nat>
    decreases |s|
  {
    if s == [] || !IsDigit(s[|s| - 1]) then None
    else if |s| == 1 then Some(DigitValue(s[0]))
    else
      var rest := if s[|s| - 2] == '_' then s[..|s| - 2] else s[..|s| - 1];
      match ReadNat(rest)
      case None => None
      case Some(n) => Some(10 * n + DigitValue(s[|s| - 1]))
  }

  function ReadInt(s: string): Option<int> {
    var t := Strip(s);
    if t != [] && (t[0] == '-' || t[0] == '+') then
      match ReadNat(t[1..])
      case None => None
      case Some(n) => if t[0] == '-' then Some(-(n as int)) else Some(n)
    else
      match ReadNat(t)
      case None => None
      case Some(n) => Some(n)
  }

  function ShowNat(n: nat): (s: string)
    ensures s != [] && forall i :: 0 <= i < |s| ==> IsDigit(s[i])
  {
    (if n < 10 then [] else ShowNat(n / 10)) + [DigitChar(n % 10)]
  }

  function ShowInt(n: int): string {
    if n < 0 then "-" + ShowNat(-n) else ShowNat(n)
  }

  lemma {:induction false} ReadShownNat(n: nat)
    ensures ReadNat(ShowNat(n)) == Some(n)
  {
    var s := ShowNat(n);
    if n >= 10 {
      ReadShownNat(n / 10);
      assert s[..|s| - 1] == ShowNat(n / 10);
      assert IsDigit(s[|s| - 2]);
    }
  }

  /** Printing an integer and reading it back gives it back. */
  lemma ReadShownInt(n: int)
    ensures ReadInt(ShowInt(n)) == Some(n)
  {
    var s := ShowInt(n);
    if n < 0 {
      ReadShownNat(-n);
      assert s[1..] == ShowNat(-n);
      assert s[|s| - 1] == ShowNat(-n)[|ShowNat(-n)| - 1];
    } else {
      ReadShownNat(n);
    }
    assert Stripped(s);
    StripStrips(s);
  }
}
