/** Reading prices out of record text. Amounts are exact: `float()` is modelled without rounding. */
module RecordSignals {
  import opened Text

  // ---------------------------------------------------------------- string pieces

  function Keep(s: string): string {
    if s == [] then []
    else (if IsDigit(s[0]) || s[0] == '.' || s[0] == ',' then [s[0]] else []) + Keep(s[1..])
  }

  function Remove(s: string, c: char): string {
    if s == [] then [] else (if s[0] == c then [] else [s[0]]) + Remove(s[1..], c)
  }

  function Replace(s: string, c: char, d: char): string {
    if s == [] then [] else [if s[0] == c then d else s[0]] + Replace(s[1..], c, d)
  }

  /** Python's `rfind` for one character. */
  function LastIndex(s: string, c: char): (i: int)
    ensures -1 <= i < |s| && (i == -1 <==> c !in s)
    ensures i >= 0 ==> s[i] == c
  {
    if s == [] then -1
    else if s[|s| - 1] == c then |s| - 1
    else LastIndex(s[..|s| - 1], c)
  }

  predicate AllDigits(s: string) {
    forall i :: 0 <= i < |s| ==> IsDigit(s[i])
  }

  function NatOf(s: string): nat
    requires AllDigits(s)
  {
    if s == [] then 0 else 10 * NatOf(s[..|s| - 1]) + DigitValue(s[|s| - 1])
  }

  function Pow10(n: nat): nat {
    if n == 0 then 1 else 10 * Pow10(n - 1)
  }

  lemma {:induction false} Pow10Positive(n: nat)
    ensures Pow10(n) > 0
  {
    if n > 0 {
      Pow10Positive(n - 1);
    }
  }

  function Fixed(whole: string, frac: string): real
    requires AllDigits(whole) && AllDigits(frac)
  {
    Pow10Positive(|frac|);
    NatOf(whole) as real + NatOf(frac) as real / Pow10(|frac|) as real
  }

  /** `float()` on text made of digits and dots only. */
  function ReadDecimal(s: string): Option<real> {
    var i := LastIndex(s, '.');
    if i == -1 then if s != [] && AllDigits(s) then Some(NatOf(s) as real) else None
    else if |s| > 1 && AllDigits(s[..i]) && AllDigits(s[i + 1..]) then Some(Fixed(s[..i], s[i + 1..]))
    else None
  }

  /** `\d+,\d{1,most}` (no upper bound when `most` is 0). */
  predicate CommaDecimal(s: string, most: nat) {
    var i := LastIndex(s, ',');
    i >= 1 && i + 1 < |s| && AllDigits(s[..i]) && AllDigits(s[i + 1..]) && (most == 0 || |s| - i - 1 <= most)
  }

  /** `\d{1,3}(?:\.\d{3})+` */
  predicate DotGroups(s: string) {
    |s| >= 5 && s[|s| - 4] == '.' && AllDigits(s[|s| - 3..])
    && var rest := s[..|s| - 4];
       (|rest| <= 3 && AllDigits(rest)) || DotGroups(rest)
  }

  /** `\d+(?:\.\d+)?` */
  predicate PlainDecimal(s: string) {
    var i := LastIndex(s, '.');
    if i == -1 then s != [] && AllDigits(s)
    else 1 <= i && i + 1 < |s| && AllDigits(s[..i]) && AllDigits(s[i + 1..])
  }

  // ---------------------------------------------------------------- the two readers

  function NormalizedPrice(s: string): string {
    if '.' in s && ',' in s then
      var decimal := if LastIndex(s, '.') > LastIndex(s, ',') then '.' else ',';
      var thousands := if decimal == '.' then ',' else '.';
      Replace(Remove(s, thousands), decimal, '.')
    else if ',' in s && CommaDecimal(s, 2) then Replace(s, ',', '.')
    else Remove(s, ',')
  }

  function PriceNumber(value: string): Option<real> {
    var text := Strip(value);
    if text == [] then None else ReadDecimal(NormalizedPrice(Keep(text)))
  }

  function NormalizedNumeric(text: string): string {
    if '.' in text && ',' in text then
      if LastIndex(text, ',') > LastIndex(text, '.') then Replace(Remove(text, '.'), ',', '.')
      else Remove(text, ',')
    else if ',' in text && CommaDecimal(text, 0) then Replace(text, ',', '.')
    else if '.' in text && DotGroups(text) then Remove(text, '.')
    else text
  }

  predicate LooksNumericPrice(value: string) {
    var text := Strip(value);
    text != [] && PlainDecimal(NormalizedNumeric(text))
  }

  // ---------------------------------------------------------------- how amounts are printed

  function Two(n: nat): string
    requires n < 100
  {
    [DigitChar(n / 10), DigitChar(n % 10)]
  }

  function Three(n: nat): string
    requires n < 1000
  {
    Two(n / 10) + [DigitChar(n % 10)]
  }

  /** A whole number with its thousands separated by `sep`. */
  function Grouped(n: nat, sep: char): string {
    if n < 1000 then ShowNat(n) else Marked(Grouped(n / 1000, sep), sep, Three(n % 1000))
  }

  /** The whole part of an amount, grouped or not. */
  function Whole(n: nat, grouped: bool, sep: char): string {
    if grouped then Grouped(n, sep) else ShowNat(n)
  }

  function Marked(whole: string, mark: char, rest: string): string {
    whole + [mark] + rest
  }

  /** "1,234,567.89", or "1234567.89" */
  function UsAmount(cents: nat, grouped: bool): string {
    Marked(Whole(cents / 100, grouped, ','), '.', Two(cents % 100))
  }

  /** "1.234.567,89", or "1234567,89" */
  function EuAmount(cents: nat, grouped: bool): string {
    Marked(Whole(cents / 100, grouped, '.'), ',', Two(cents % 100))
  }

  // ---------------------------------------------------------------- lemmas about the pieces

  lemma {:induction false} KeepConcat(a: string, b: string)
    ensures Keep(a + b) == Keep(a) + Keep(b)
  {
    if a == [] {
      assert a + b == b;
    } else {
      KeepConcat(a[1..], b);
      assert (a + b)[1..] == a[1..] + b;
      var head := if IsDigit(a[0]) || a[0] == '.' || a[0] == ',' then [a[0]] else [];
      assert head + (Keep(a[1..]) + Keep(b)) == head + Keep(a[1..]) + Keep(b);
    }
  }

  predicate PriceChars(s: string) {
    forall i :: 0 <= i < |s| ==> IsDigit(s[i]) || s[i] == '.' || s[i] == ','
  }

  predicate NoPriceChars(s: string) {
    forall i :: 0 <= i < |s| ==> !IsDigit(s[i]) && s[i] != '.' && s[i] != ','
  }

  lemma {:induction false} KeepAll(s: string)
    ensures PriceChars(s) ==> Keep(s) == s
    ensures NoPriceChars(s) ==> Keep(s) == []
  {
    if s != [] {
      KeepAll(s[1..]);
    }
  }

  lemma {:induction false} KeepStripLeft(s: string)
    ensures Keep(StripLeft(s)) == Keep(s)
  {
    if s != [] && IsSpace(s[0]) {
      KeepStripLeft(s[1..]);
    }
  }

  lemma {:induction false} KeepStripRight(s: string)
    ensures Keep(StripRight(s)) == Keep(s)
  {
    if s != [] && IsSpace(s[|s| - 1]) {
      KeepStripRight(s[..|s| - 1]);
      KeepConcat(s[..|s| - 1], [s[|s| - 1]]);
      assert s == s[..|s| - 1] + [s[|s| - 1]];
    }
  }

  lemma StripKeepsPrice(value: string)
    requires Keep(value) != []
    ensures PriceNumber(value) == ReadDecimal(NormalizedPrice(Keep(value)))
  {
    KeepStripLeft(value);
    KeepStripRight(StripLeft(value));
  }

  /** Text around an amount that holds no digits, dots or commas makes no difference. */
  lemma SurroundingTextIgnored(before: string, amount: string, after: string)
    requires NoPriceChars(before) && NoPriceChars(after) && amount != [] && PriceChars(amount)
    ensures PriceNumber(before + amount + after) == ReadDecimal(NormalizedPrice(amount))
  {
    KeepConcat(before + amount, after);
    KeepConcat(before, amount);
    KeepAll(before);
    KeepAll(amount);
    KeepAll(after);
    assert Keep(before + amount + after) == amount;
    StripKeepsPrice(before + amount + after);
  }

  lemma {:induction false} RemoveConcat(a: string, b: string, c: char)
    ensures Remove(a + b, c) == Remove(a, c) + Remove(b, c)
  {
    if a == [] {
      assert a + b == b;
    } else {
      RemoveConcat(a[1..], b, c);
      assert (a + b)[1..] == a[1..] + b;
      var head := if a[0] == c then [] else [a[0]];
      assert head + (Remove(a[1..], c) + Remove(b, c)) == head + Remove(a[1..], c) + Remove(b, c);
    }
  }

  lemma {:induction false} RemoveAbsent(s: string, c: char)
    requires c !in s
    ensures Remove(s, c) == s
  {
    if s != [] {
      RemoveAbsent(s[1..], c);
    }
  }

  lemma {:induction false} ReplaceConcat(a: string, b: string, c: char, d: char)
    ensures Replace(a + b, c, d) == Replace(a, c, d) + Replace(b, c, d)
  {
    if a == [] {
      assert a + b == b;
    } else {
      ReplaceConcat(a[1..], b, c, d);
      assert (a + b)[1..] == a[1..] + b;
      var head := [if a[0] == c then d else a[0]];
      assert head + (Replace(a[1..], c, d) + Replace(b, c, d)) == head + Replace(a[1..], c, d) + Replace(b, c, d);
    }
  }

  lemma {:induction false} ReplaceAbsent(s: string, c: char, d: char)
    requires c !in s || c == d
    ensures Replace(s, c, d) == s
  {
    if s != [] {
      ReplaceAbsent(s[1..], c, d);
    }
  }

  lemma {:induction false} LastIndexAfter(a: string, c: char, b: string)
    requires c !in b
    ensures LastIndex(Marked(a, c, b), c) == |a|
  {
    var s := Marked(a, c, b);
    if b != [] {
      LastIndexAfter(a, c, b[..|b| - 1]);
      assert s[..|s| - 1] == Marked(a, c, b[..|b| - 1]);
      assert s[|s| - 1] == b[|b| - 1];
    }
  }

  /** Cutting marked text at its last mark. */
  lemma MarkedParts(a: string, c: char, b: string)
    requires c !in b
    ensures var s := Marked(a, c, b);
            LastIndex(s, c) == |a| && s[..|a|] == a && s[|a| + 1..] == b && |s| == |a| + 1 + |b| && c in s
  {
    LastIndexAfter(a, c, b);
  }

  lemma {:induction false} NatOfShown(n: nat)
    ensures AllDigits(ShowNat(n)) && NatOf(ShowNat(n)) == n
  {
    if n >= 10 {
      NatOfShown(n / 10);
      var s := ShowNat(n);
      assert s[..|s| - 1] == ShowNat(n / 10);
    }
  }

  lemma ShownByHundreds(n: nat)
    requires n >= 100
    ensures ShowNat(n) == ShowNat(n / 100) + Two(n % 100)
  {
    var t := n / 10;
    assert ShowNat(t) == ShowNat(t / 10) + [DigitChar(t % 10)];
    assert t / 10 == n / 100 && t % 10 == n % 100 / 10 && n % 10 == n % 100 % 10;
  }

  lemma ShownByThousands(n: nat)
    requires n >= 1000
    ensures ShowNat(n) == ShowNat(n / 1000) + Three(n % 1000)
  {
    var t := n / 10;
    ShownByHundreds(t);
    assert t / 100 == n / 1000 && t % 100 == n % 1000 / 10 && n % 10 == n % 1000 % 10;
    assert ShowNat(n / 1000) + Two(t % 100) + [DigitChar(n % 10)] == ShowNat(n / 1000) + Three(n % 1000);
  }

  lemma {:induction false} GroupedChars(n: nat, sep: char)
    ensures forall i :: 0 <= i < |Grouped(n, sep)| ==> IsDigit(Grouped(n, sep)[i]) || Grouped(n, sep)[i] == sep
  {
    if n >= 1000 {
      GroupedChars(n / 1000, sep);
    }
  }

  lemma {:induction false} RemoveMark(a: string, mark: char, b: string)
    requires mark !in b
    ensures Remove(Marked(a, mark, b), mark) == Remove(a, mark) + b && mark in Marked(a, mark, b)
  {
    assert Marked(a, mark, b)[|a|] == mark;
    if a == [] {
      assert Marked(a, mark, b)[1..] == b;
      RemoveAbsent(b, mark);
    } else {
      RemoveMark(a[1..], mark, b);
      assert Marked(a, mark, b)[1..] == Marked(a[1..], mark, b);
    }
  }

  /** Grouping only adds separators. */
  lemma {:induction false} GroupedWithout(n: nat, sep: char)
    requires !IsDigit(sep)
    ensures Remove(Grouped(n, sep), sep) == ShowNat(n)
    ensures sep in Grouped(n, sep) <==> n >= 1000
  {
    if n < 1000 {
      RemoveAbsent(ShowNat(n), sep);
    } else {
      GroupedWithout(n / 1000, sep);
      ShownByThousands(n);
      RemoveMark(Grouped(n / 1000, sep), sep, Three(n % 1000));
    }
  }

  lemma WholeWithout(n: nat, grouped: bool, sep: char)
    requires !IsDigit(sep)
    ensures var w := Whole(n, grouped, sep);
            && Remove(w, sep) == ShowNat(n) && w != []
            && (forall i :: 0 <= i < |w| ==> IsDigit(w[i]) || w[i] == sep)
            && (sep !in w ==> w == ShowNat(n))
  {
    GroupedChars(n, sep);
    GroupedWithout(n, sep);
    RemoveAbsent(ShowNat(n), sep);
    if sep !in Whole(n, grouped, sep) {
      RemoveAbsent(Whole(n, grouped, sep), sep);
    }
  }

  lemma TwoDigits(c: nat)
    requires c < 100
    ensures AllDigits(Two(c)) && NatOf(Two(c)) == c && Pow10(2) == 100
  {
    var two := Two(c);
    assert two[..1] == [two[0]];
    assert NatOf([two[0]]) == 10 * NatOf([]) + DigitValue(two[0]);
    assert Pow10(1) == 10;
  }

  lemma ReadSplit(whole: string, frac: string)
    requires whole != [] && AllDigits(whole) && AllDigits(frac)
    ensures ReadDecimal(Marked(whole, '.', frac)) == Some(Fixed(whole, frac))
    ensures frac != [] ==> PlainDecimal(Marked(whole, '.', frac))
  {
    MarkedParts(whole, '.', frac);
  }

  // ---------------------------------------------------------------- amounts with decimals

  lemma RemoveThousands(n: nat, grouped: bool, thousands: char, decimal: char, two: string)
    requires !IsDigit(thousands) && !IsDigit(decimal) && thousands != decimal && AllDigits(two)
    ensures Remove(Marked(Whole(n, grouped, thousands), decimal, two), thousands) == Marked(ShowNat(n), decimal, two)
  {
    var w := Whole(n, grouped, thousands);
    WholeWithout(n, grouped, thousands);
    RemoveConcat(w + [decimal], two, thousands);
    RemoveConcat(w, [decimal], thousands);
    RemoveAbsent([decimal], thousands);
    RemoveAbsent(two, thousands);
  }

  lemma ReplaceMark(whole: string, decimal: char, two: string)
    requires AllDigits(whole) && AllDigits(two) && !IsDigit(decimal)
    ensures Replace(Marked(whole, decimal, two), decimal, '.') == Marked(whole, '.', two)
  {
    ReplaceConcat(whole + [decimal], two, decimal, '.');
    ReplaceConcat(whole, [decimal], decimal, '.');
    ReplaceAbsent(whole, decimal, '.');
    ReplaceAbsent(two, decimal, '.');
    assert Replace([decimal], decimal, '.') == ['.'];
  }

  lemma MarkBefore(w: string, decimal: char, two: string, mark: char)
    requires decimal != mark && mark !in two
    ensures var s := Marked(w, decimal, two);
            LastIndex(s, mark) < |w| && (mark in s <==> mark in w)
  {
    var s := Marked(w, decimal, two);
    if mark in s {
      var i := LastIndex(s, mark);
      assert i < |w|;
      assert w[i] == mark;
    }
    if mark in w {
      var i :| 0 <= i < |w| && w[i] == mark;
      assert s[i] == mark;
    }
  }

  lemma BareCommaAmount(whole: string, frac: string)
    requires whole != [] && AllDigits(whole) && AllDigits(frac) && frac != []
    ensures var s := Marked(whole, ',', frac);
            && NormalizedNumeric(s) == Marked(whole, '.', frac)
            && NormalizedPrice(s) == if |frac| <= 2 then Marked(whole, '.', frac) else whole + frac
  {
    var s := Marked(whole, ',', frac);
    MarkedParts(whole, ',', frac);
    ReplaceMark(whole, ',', frac);
    RemoveMark(whole, ',', frac);
    RemoveAbsent(whole, ',');
    assert '.' !in s;
  }

  lemma BareDotAmount(whole: string, frac: string)
    requires whole != [] && AllDigits(whole) && AllDigits(frac)
    ensures NormalizedPrice(Marked(whole, '.', frac)) == Marked(whole, '.', frac)
  {
    var s := Marked(whole, '.', frac);
    assert ',' !in s;
    RemoveAbsent(s, ',');
  }

  lemma GroupedAmountNormalizes(n: nat, frac: string, thousands: char, decimal: char)
    requires (thousands == ',' && decimal == '.') || (thousands == '.' && decimal == ',')
    requires n >= 1000 && AllDigits(frac)
    ensures var s := Marked(Grouped(n, thousands), decimal, frac);
            NormalizedPrice(s) == NormalizedNumeric(s) == Marked(ShowNat(n), '.', frac)
  {
    var w := Grouped(n, thousands);
    GroupedWithout(n, thousands);
    MarkBefore(w, decimal, frac, thousands);
    MarkedParts(w, decimal, frac);
    RemoveThousands(n, true, thousands, decimal, frac);
    ReplaceMark(ShowNat(n), decimal, frac);
    ReplaceAbsent(Marked(ShowNat(n), '.', frac), '.', '.');
  }

  lemma AmountChars(n: nat, grouped: bool, two: string, thousands: char, decimal: char)
    requires (thousands == ',' && decimal == '.') || (thousands == '.' && decimal == ',')
    requires AllDigits(two)
    ensures PriceChars(Marked(Whole(n, grouped, thousands), decimal, two))
  {
    WholeWithout(n, grouped, thousands);
  }

  /** The amount with whole part `n` and these decimals. */
  function Decimal(n: nat, frac: string): real
    requires AllDigits(frac)
  {
    Pow10Positive(|frac|);
    n as real + NatOf(frac) as real / Pow10(|frac|) as real
  }

  lemma ReadDecimals(n: nat, frac: string)
    requires AllDigits(frac)
    ensures ReadDecimal(Marked(ShowNat(n), '.', frac)) == Some(Decimal(n, frac))
    ensures frac != [] ==> PlainDecimal(Marked(ShowNat(n), '.', frac))
  {
    NatOfShown(n);
    ReadSplit(ShowNat(n), frac);
  }

  lemma {:induction false} NatOfConcat(a: string, b: string)
    requires AllDigits(a) && AllDigits(b)
    ensures AllDigits(a + b) && NatOf(a + b) == NatOf(a) * Pow10(|b|) + NatOf(b)
  {
    if b == [] {
      assert a + b == a;
    } else {
      var before, last := b[..|b| - 1], DigitValue(b[|b| - 1]);
      NatOfConcat(a, before);
      assert (a + b)[..|a + b| - 1] == a + before;
      ShiftDigit(NatOf(a), Pow10(|before|), NatOf(before), last);
    }
  }

  lemma ShiftDigit(a: nat, p: nat, b: nat, digit: nat)
    ensures 10 * (a * p + b) + digit == a * (10 * p) + (10 * b + digit)
  {
  }

  lemma ReadRunTogether(n: nat, frac: string)
    requires AllDigits(frac)
    ensures ReadDecimal(ShowNat(n) + frac) == Some((n * Pow10(|frac|) + NatOf(frac)) as real)
  {
    NatOfShown(n);
    NatOfConcat(ShowNat(n), frac);
    ReadWhole(ShowNat(n) + frac);
  }

  lemma ReadWhole(s: string)
    requires s != [] && AllDigits(s)
    ensures ReadDecimal(s) == Some(NatOf(s) as real)
  {
    assert '.' !in s;
  }

  /** An amount with any number of decimals after a dot, its thousands grouped by commas or not, in
      any price-free text, is read back exactly. */
  lemma DotDecimalsRoundTrip(n: nat, grouped: bool, frac: string, before: string, after: string)
    requires NoPriceChars(before) && NoPriceChars(after) && AllDigits(frac)
    ensures PriceNumber(before + Marked(Whole(n, grouped, ','), '.', frac) + after) == Some(Decimal(n, frac))
  {
    AmountChars(n, grouped, frac, ',', '.');
    SurroundingTextIgnored(before, Marked(Whole(n, grouped, ','), '.', frac), after);
    ReadDecimals(n, frac);
    if grouped && n >= 1000 {
      GroupedAmountNormalizes(n, frac, ',', '.');
    } else {
      NatOfShown(n);
      BareDotAmount(ShowNat(n), frac);
    }
  }

  /** After a comma, in any price-free text: behind thousands grouped by dots any number of decimals
      is read back exactly; without a dot one or two are, while any other number is run together with
      the whole part. */
  lemma CommaDecimalsReadExactly(n: nat, grouped: bool, frac: string, before: string, after: string)
    requires NoPriceChars(before) && NoPriceChars(after) && AllDigits(frac)
    ensures PriceNumber(before + Marked(Whole(n, grouped, '.'), ',', frac) + after)
         == if (grouped && n >= 1000) || 1 <= |frac| <= 2 then Some(Decimal(n, frac))
            else Some((n * Pow10(|frac|) + NatOf(frac)) as real)
  {
    AmountChars(n, grouped, frac, '.', ',');
    SurroundingTextIgnored(before, Marked(Whole(n, grouped, '.'), ',', frac), after);
    ReadDecimals(n, frac);
    ReadRunTogether(n, frac);
    if grouped && n >= 1000 {
      GroupedAmountNormalizes(n, frac, '.', ',');
    } else {
      NatOfShown(n);
      CommaWithoutDot(ShowNat(n), frac);
    }
  }

  lemma CommaWithoutDot(whole: string, frac: string)
    requires whole != [] && AllDigits(whole) && AllDigits(frac)
    ensures NormalizedPrice(Marked(whole, ',', frac))
         == if 1 <= |frac| <= 2 then Marked(whole, '.', frac) else whole + frac
  {
    if frac != [] {
      BareCommaAmount(whole, frac);
    } else {
      var s := Marked(whole, ',', frac);
      MarkedParts(whole, ',', frac);
      RemoveMark(whole, ',', frac);
      RemoveAbsent(whole, ',');
      assert '.' !in s;
    }
  }

  lemma OneDigit(d: nat)
    requires d < 10
    ensures AllDigits([DigitChar(d)]) && NatOf([DigitChar(d)]) == d && Pow10(1) == 10
  {
    assert [DigitChar(d)][..0] == [];
  }

  /** The commonest case missing from two decimals: one of them after a bare comma. */
  lemma OneDecimalRoundTrip(n: nat, d: nat, before: string, after: string)
    requires NoPriceChars(before) && NoPriceChars(after) && d < 10
    ensures PriceNumber(before + Marked(ShowNat(n), ',', [DigitChar(d)]) + after) == Some((10 * n + d) as real / 10.0)
  {
    OneDigit(d);
    CommaDecimalsReadExactly(n, false, [DigitChar(d)], before, after);
  }

  lemma TwoDecimalsAre(cents: nat)
    ensures AllDigits(Two(cents % 100)) && Decimal(cents / 100, Two(cents % 100)) == cents as real / 100.0
  {
    TwoDigits(cents % 100);
    assert Pow10(|Two(cents % 100)|) as real == 100.0;
  }

  lemma UsRoundTrip(cents: nat, grouped: bool, before: string, after: string)
    requires NoPriceChars(before) && NoPriceChars(after)
    ensures PriceNumber(before + UsAmount(cents, grouped) + after) == Some(cents as real / 100.0)
  {
    TwoDecimalsAre(cents);
    DotDecimalsRoundTrip(cents / 100, grouped, Two(cents % 100), before, after);
  }

  lemma EuRoundTrip(cents: nat, grouped: bool, before: string, after: string)
    requires NoPriceChars(before) && NoPriceChars(after)
    ensures PriceNumber(before + EuAmount(cents, grouped) + after) == Some(cents as real / 100.0)
  {
    TwoDecimalsAre(cents);
    CommaDecimalsReadExactly(cents / 100, grouped, Two(cents % 100), before, after);
  }

  /** Every non-negative amount printed with two decimals, grouped or not, the US or the European
      way, and with any surrounding text free of digits, dots and commas, is read back exactly. */
  lemma TwoDecimalsRoundTrip(cents: nat, grouped: bool, before: string, after: string)
    requires NoPriceChars(before) && NoPriceChars(after)
    ensures PriceNumber(before + UsAmount(cents, grouped) + after) == Some(cents as real / 100.0)
    ensures PriceNumber(before + EuAmount(cents, grouped) + after) == Some(cents as real / 100.0)
  {
    UsRoundTrip(cents, grouped, before, after);
    EuRoundTrip(cents, grouped, before, after);
  }

  /** Text without a digit, dot or comma holds no price. */
  lemma NoPriceNoNumber(text: string)
    requires NoPriceChars(text)
    ensures PriceNumber(text) == None
  {
    KeepAll(text);
    KeepStripLeft(text);
    KeepStripRight(StripLeft(text));
  }

  lemma LoneMarkNormalizes(mark: char)
    requires mark == '.' || mark == ','
    ensures NormalizedPrice([mark]) == if mark == '.' then "." else ""
  {
    if mark == '.' {
      RemoveAbsent([mark], ',');
    } else {
      assert [mark][1..] == "";
      assert Remove([mark], ',') == [] + Remove("", ',');
      assert LastIndex([mark], ',') < 1;
    }
  }

  lemma NotDecimal()
    ensures ReadDecimal("") == None && ReadDecimal(".") == None
  {
    assert LastIndex("", '.') == -1;
    assert LastIndex(".", '.') == 0;
  }

  /** A lone mark is no number. */
  lemma LoneMarkNoNumber(mark: char, before: string, after: string)
    requires NoPriceChars(before) && NoPriceChars(after) && (mark == '.' || mark == ',')
    ensures PriceNumber(before + [mark] + after) == None
  {
    SurroundingTextIgnored(before, [mark], after);
    LoneMarkNormalizes(mark);
    NotDecimal();
  }

  lemma {:induction false} RemovedChars(s: string, c: char)
    requires c == '.' || c == ','
    ensures PriceChars(Remove(s, c)) ==> PriceChars(s)
  {
    if s != [] {
      RemovedChars(s[1..], c);
      assert s == [s[0]] + s[1..];
      if PriceChars(Remove(s, c)) {
        if s[0] == c {
          assert Remove(s, c) == Remove(s[1..], c);
        } else {
          assert Remove(s, c)[0] == s[0] && Remove(s, c)[1..] == Remove(s[1..], c);
        }
      }
    }
  }

  lemma {:induction false} ReplacedChars(s: string, c: char, d: char)
    requires c == '.' || c == ','
    ensures PriceChars(Replace(s, c, d)) ==> PriceChars(s)
  {
    if s != [] {
      ReplacedChars(s[1..], c, d);
      assert s == [s[0]] + s[1..];
      if PriceChars(Replace(s, c, d)) {
        assert Replace(s, c, d)[1..] == Replace(s[1..], c, d);
      }
    }
  }

  lemma PlainChars(s: string)
    requires PlainDecimal(s)
    ensures PriceChars(s)
  {
    var i := LastIndex(s, '.');
    if i >= 0 {
      assert s == s[..i] + [s[i]] + s[i + 1..];
    }
  }

  /** Whatever looks numeric is made of digits, dots and commas alone. */
  lemma NumericHasPriceChars(value: string)
    requires LooksNumericPrice(value)
    ensures PriceChars(Strip(value)) && Strip(value) != ""
  {
    var text := Strip(value);
    PlainChars(NormalizedNumeric(text));
    ReplacedChars(Remove(text, '.'), ',', '.');
    RemovedChars(text, '.');
    RemovedChars(text, ',');
    ReplacedChars(text, ',', '.');
  }

  lemma {:induction false} DotGroupsPlain(s: string)
    requires DotGroups(s)
    ensures Remove(s, '.') != [] && AllDigits(Remove(s, '.'))
  {
    var rest, tail := s[..|s| - 4], s[|s| - 3..];
    assert s == Marked(rest, '.', tail);
    RemoveMark(rest, '.', tail);
    if |rest| <= 3 && AllDigits(rest) {
      RemoveAbsent(rest, '.');
    } else {
      DotGroupsPlain(rest);
    }
  }

  lemma PlainDigits(s: string)
    requires s != [] && AllDigits(s)
    ensures PlainDecimal(s)
  {
    assert '.' !in s;
  }

  /** A bare amount looks numeric exactly when there is a digit after its mark, dot or comma, and
      with its thousands grouped the other way or not at all. */
  lemma DecimalsLookNumericExactly(n: nat, grouped: bool, frac: string)
    requires AllDigits(frac)
    ensures LooksNumericPrice(Marked(Whole(n, grouped, ','), '.', frac)) <==> frac != []
    ensures LooksNumericPrice(Marked(Whole(n, grouped, '.'), ',', frac)) <==> frac != []
  {
    AmountChars(n, grouped, frac, ',', '.');
    AmountChars(n, grouped, frac, '.', ',');
    PriceTextStripped(Marked(Whole(n, grouped, ','), '.', frac));
    PriceTextStripped(Marked(Whole(n, grouped, '.'), ',', frac));
    DotLooksNumeric(n, grouped, frac);
    CommaLooksNumeric(n, grouped, frac);
  }

  lemma DotLooksNumeric(n: nat, grouped: bool, frac: string)
    requires AllDigits(frac)
    ensures PlainDecimal(NormalizedNumeric(Marked(Whole(n, grouped, ','), '.', frac))) <==> frac != []
  {
    NatOfShown(n);
    MarkedParts(ShowNat(n), '.', frac);
    ReadDecimals(n, frac);
    if grouped && n >= 1000 {
      GroupedAmountNormalizes(n, frac, ',', '.');
    } else {
      BareDotLooksNumeric(ShowNat(n), frac);
    }
  }

  lemma BareDotLooksNumeric(whole: string, frac: string)
    requires AllDigits(whole) && AllDigits(frac)
    requires frac != [] ==> PlainDecimal(Marked(whole, '.', frac))
    ensures PlainDecimal(NormalizedNumeric(Marked(whole, '.', frac))) <==> frac != []
  {
    var s := Marked(whole, '.', frac);
    MarkedParts(whole, '.', frac);
    assert ',' !in s;
    if DotGroups(s) {
      DotGroupsPlain(s);
      PlainDigits(Remove(s, '.'));
      DotGroupsEndInDigit(s);
    }
  }

  lemma DotGroupsEndInDigit(s: string)
    requires DotGroups(s)
    ensures IsDigit(s[|s| - 1])
  {
    assert s[|s| - 3..][2] == s[|s| - 1];
  }

  lemma CommaLooksNumeric(n: nat, grouped: bool, frac: string)
    requires AllDigits(frac)
    ensures PlainDecimal(NormalizedNumeric(Marked(Whole(n, grouped, '.'), ',', frac))) <==> frac != []
  {
    NatOfShown(n);
    MarkedParts(ShowNat(n), '.', frac);
    MarkedParts(ShowNat(n), ',', frac);
    ReadDecimals(n, frac);
    if grouped && n >= 1000 {
      GroupedAmountNormalizes(n, frac, '.', ',');
    } else if frac != [] {
      BareCommaAmount(ShowNat(n), frac);
    } else {
      var s := Marked(ShowNat(n), ',', frac);
      assert s[|s| - 1] == ',' && '.' !in s;
    }
  }

  /** Every bare amount with two decimals looks like a numeric price. */
  lemma TwoDecimalsLookNumeric(cents: nat, grouped: bool)
    ensures LooksNumericPrice(UsAmount(cents, grouped)) && LooksNumericPrice(EuAmount(cents, grouped))
  {
    TwoDigits(cents % 100);
    DecimalsLookNumericExactly(cents / 100, grouped, Two(cents % 100));
  }

  lemma PriceTextStripped(s: string)
    requires PriceChars(s)
    ensures Strip(s) == s
  {
    StripStrips(s);
  }

  // ---------------------------------------------------------------- whole amounts

  lemma GroupedShape(n: nat, sep: char)
    requires n >= 1000 && !IsDigit(sep)
    ensures var s := Grouped(n, sep);
            && |Grouped(n / 1000, sep)| == |s| - 4 && |s| >= 5
            && LastIndex(s, sep) == |s| - 4 && s[..|s| - 4] == Grouped(n / 1000, sep) && s[|s| - 3..] == Three(n % 1000)
  {
    var high := Grouped(n / 1000, sep);
    WholeWithout(n / 1000, true, sep);
    MarkedParts(high, sep, Three(n % 1000));
  }

  /** Whole US amounts, grouped or not, are read back exactly inside any price-free text. */
  lemma UsWholeRoundTrip(n: nat, grouped: bool, before: string, after: string)
    requires NoPriceChars(before) && NoPriceChars(after)
    ensures PriceNumber(before + Whole(n, grouped, ',') + after) == Some(n as real)
  {
    var w := Whole(n, grouped, ',');
    WholeWithout(n, grouped, ',');
    NatOfShown(n);
    SurroundingTextIgnored(before, w, after);
    assert '.' !in w;
    if ',' in w {
      GroupedWithout(n, ',');
      GroupedShape(n, ',');
    }
  }

  lemma EuWholeNormalizes(n: nat, before: string, after: string)
    requires NoPriceChars(before) && NoPriceChars(after)
    ensures PriceNumber(before + Grouped(n, '.') + after) == ReadDecimal(Grouped(n, '.'))
  {
    var g := Grouped(n, '.');
    WholeWithout(n, true, '.');
    assert ',' !in g;
    RemoveAbsent(g, ',');
    SurroundingTextIgnored(before, g, after);
  }

  /** A whole amount grouped the European way, in any price-free text, is read back exactly below
      one thousand; up to a million its one separator is taken for the decimal point, and beyond
      that nothing is read. */
  lemma EuWholeReadExactly(n: nat, before: string, after: string)
    requires NoPriceChars(before) && NoPriceChars(after)
    ensures PriceNumber(before + Grouped(n, '.') + after)
         == if n < 1000 then Some(n as real) else if n < 1000000 then Some(n as real / 1000.0) else None
    ensures PriceNumber(before + Grouped(n, '.') + after) == Some(n as real) <==> n < 1000
  {
    EuWholeNormalizes(n, before, after);
    ReadEuWhole(n);
  }

  lemma ReadEuWhole(n: nat)
    ensures ReadDecimal(Grouped(n, '.'))
         == if n < 1000 then Some(n as real) else if n < 1000000 then Some(n as real / 1000.0) else None
  {
    if n < 1000 {
      NatOfShown(n);
    } else if n < 1000000 {
      ReadEuThousands(n);
    } else {
      ReadEuMillions(n);
    }
  }

  lemma GroupedOnce(n: nat, sep: char)
    requires 1000 <= n < 1000000
    ensures Grouped(n, sep) == Marked(ShowNat(n / 1000), sep, Three(n % 1000))
  {
  }

  lemma ReadEuThousands(n: nat)
    requires 1000 <= n < 1000000
    ensures ReadDecimal(Grouped(n, '.')) == Some(n as real / 1000.0)
  {
    GroupedOnce(n, '.');
    NatOfShown(n / 1000);
    ThreeDigits(n % 1000);
    ReadSplit(ShowNat(n / 1000), Three(n % 1000));
    FixedThree(n / 1000, n % 1000);
  }

  lemma ReadEuMillions(n: nat)
    requires n >= 1000000
    ensures ReadDecimal(Grouped(n, '.')) == None
  {
    GroupedShape(n, '.');
    GroupedWithout(n / 1000, '.');
  }

  lemma ThreeDigits(c: nat)
    requires c < 1000
    ensures AllDigits(Three(c)) && NatOf(Three(c)) == c && Pow10(3) == 1000
  {
    TwoDigits(c / 10);
  }

  lemma FixedThree(n: nat, c: nat)
    requires c < 1000
    ensures AllDigits(ShowNat(n)) && AllDigits(Three(c))
    ensures Fixed(ShowNat(n), Three(c)) == (n * 1000 + c) as real / 1000.0
  {
    NatOfShown(n);
    ThreeDigits(c);
    assert Pow10(|Three(c)|) as real == 1000.0;
  }

  lemma {:induction false} DotGroupsGrouped(n: nat)
    requires n >= 1000
    ensures DotGroups(Grouped(n, '.'))
  {
    GroupedShape(n, '.');
    if n / 1000 < 1000 {
      assert |ShowNat(n / 1000)| <= 3 by { ShowNatShort(n / 1000); }
    } else {
      DotGroupsGrouped(n / 1000);
    }
  }

  lemma ShowNatShort(n: nat)
    requires n < 1000
    ensures |ShowNat(n)| <= 3
  {
    assert n / 10 / 10 < 10;
    assert |ShowNat(n / 10 / 10)| == 1;
    assert n >= 10 ==> |ShowNat(n)| == |ShowNat(n / 10)| + 1;
    assert n / 10 >= 10 ==> |ShowNat(n / 10)| == |ShowNat(n / 10 / 10)| + 1;
  }

  /** The numeric check takes every whole amount grouped the European way, but of those grouped
      the US way exactly the ones below a million. */
  lemma WholeLooksNumeric(n: nat)
    ensures LooksNumericPrice(Grouped(n, '.'))
    ensures LooksNumericPrice(Grouped(n, ',')) <==> n < 1000000
  {
    NatOfShown(n);
    EuWholeLooksNumeric(n);
    UsWholeLooksNumeric(n);
  }

  lemma EuWholeLooksNumeric(n: nat)
    ensures LooksNumericPrice(Grouped(n, '.'))
  {
    var g := Grouped(n, '.');
    WholeWithout(n, true, '.');
    GroupedWithout(n, '.');
    NatOfShown(n);
    PriceTextStripped(g);
    assert ',' !in g;
    if n >= 1000 {
      DotGroupsGrouped(n);
    }
  }

  lemma UsWholeLooksNumeric(n: nat)
    ensures LooksNumericPrice(Grouped(n, ',')) <==> n < 1000000
  {
    var g := Grouped(n, ',');
    WholeWithout(n, true, ',');
    PriceTextStripped(g);
    assert '.' !in g;
    if n < 1000 {
      NatOfShown(n);
    } else if n < 1000000 {
      UsThousandsAccepted(n);
    } else {
      UsMillionsRejected(n);
    }
  }

  lemma UsThousandsAccepted(n: nat)
    requires 1000 <= n < 1000000
    ensures ',' in Grouped(n, ',') && CommaDecimal(Grouped(n, ','), 0)
    ensures PlainDecimal(Replace(Grouped(n, ','), ',', '.'))
  {
    var high, low := ShowNat(n / 1000), Three(n % 1000);
    GroupedOnce(n, ',');
    NatOfShown(n / 1000);
    ThreeDigits(n % 1000);
    MarkedParts(high, ',', low);
    ReplaceMark(high, ',', low);
    ReadSplit(high, low);
  }

  lemma UsMillionsRejected(n: nat)
    requires n >= 1000000
    ensures !CommaDecimal(Grouped(n, ','), 0)
    ensures '.' !in Grouped(n, ',') ==> !PlainDecimal(Grouped(n, ','))
  {
    GroupedShape(n, ',');
    GroupedWithout(n, ',');
    GroupedWithout(n / 1000, ',');
  }
}
