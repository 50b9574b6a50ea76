/**
 * The usage parser and severity classifier of the context guardian.
 *
 * The status probe prints lines such as "84k/200k (42%)"; the parser finds
 * the first occurrence of the pattern
 *     ([\d.]+)([km])/([\d.]+)([km])\s+\((\d+)%\)      (case-insensitive)
 * and turns it into a ContextUsage. A ContextUsage's percentage maps to one
 * of four ordered severity levels.
 */
module Parser {
  import opened Wrappers

  // -------------------------------------------------------------------------
  // Severity levels

  /** The four severity levels, in increasing order of urgency. */
  datatype ContextLevel = Healthy | Elevated | Warning | Critical

  /** The ordinal each level carries, 0 for Healthy up to 3 for Critical. */
  function Rank(l: ContextLevel): (r: nat)
    ensures r <= 3
  {
    match l
    case Healthy => 0
    case Elevated => 1
    case Warning => 2
    case Critical => 3
  }

  /** Distinct levels carry distinct ranks, so the rank orders the levels. */
  lemma RankDistinct(l: ContextLevel, m: ContextLevel)
    ensures Rank(l) == Rank(m) <==> l == m
  {
  }

  /** One reading of the probe: token counts and the probe's own percentage. */
  datatype ContextUsage = ContextUsage(usedTokens: int, limitTokens: int, percentage: int) {
    /** The severity of this reading; defined for every integer percentage. */
    function Level(): (l: ContextLevel)
      ensures l == Healthy <==> percentage < 60
      ensures l == Elevated <==> 60 <= percentage < 80
      ensures l == Warning <==> 80 <= percentage < 90
      ensures l == Critical <==> 90 <= percentage
    {
      if percentage < 60 then Healthy
      else if percentage < 80 then Elevated
      else if percentage < 90 then Warning
      else Critical
    }
  }

  /** The lowest percentage of Elevated, Warning and Critical. */
  const Breakpoints: seq<int> := [60, 80, 90]

  /** How many of the breakpoints `bs` the percentage has reached. */
  function Reached(bs: seq<int>, percentage: int): nat {
    if bs == [] then 0
    else (if bs[0] <= percentage then 1 else 0) + Reached(bs[1..], percentage)
  }

  /** The rank of a reading's level is the number of breakpoints it has reached. */
  lemma LevelRankCountsBreakpoints(u: ContextUsage)
    ensures Rank(u.Level()) == Reached(Breakpoints, u.percentage)
  {
    var p := u.percentage;
    assert Reached(Breakpoints, p)
        == (if 60 <= p then 1 else 0) + Reached([80, 90], p);
    assert Reached([80, 90], p) == (if 80 <= p then 1 else 0) + Reached([90], p);
    assert Reached([90], p) == (if 90 <= p then 1 else 0) + Reached([], p);
  }

  /** A higher percentage never yields a lower level. */
  lemma LevelMonotone(u: ContextUsage, v: ContextUsage)
    requires u.percentage <= v.percentage
    ensures Rank(u.Level()) <= Rank(v.Level())
  {
  }

  /** The exact breakpoints: 59/60, 79/80 and 89/90. */
  lemma LevelBreakpoints(used: int, limit: int)
    ensures ContextUsage(used, limit, 59).Level() == Healthy
    ensures ContextUsage(used, limit, 60).Level() == Elevated
    ensures ContextUsage(used, limit, 79).Level() == Elevated
    ensures ContextUsage(used, limit, 80).Level() == Warning
    ensures ContextUsage(used, limit, 89).Level() == Warning
    ensures ContextUsage(used, limit, 90).Level() == Critical
    ensures ContextUsage(used, limit, 100).Level() == Critical
  {
  }

  // -------------------------------------------------------------------------
  // Character classes of the pattern (Python `re`, str pattern, IGNORECASE)

  /** `\d`, restricted to ASCII digits. */
  predicate IsDigit(c: char) {
    '0' <= c <= '9'
  }

  /** `[\d.]` */
  predicate IsNumeralChar(c: char) {
    IsDigit(c) || c == '.'
  }

  /** U+212A KELVIN SIGN: matched by `k` under IGNORECASE, and its lower() is "k". */
  const KelvinSign: char := '\U{212A}'

  /** The characters whose lower-case form is "k". */
  predicate IsKilo(c: char) {
    c == 'k' || c == 'K' || c == KelvinSign
  }

  /** The characters whose lower-case form is "m". */
  predicate IsMega(c: char) {
    c == 'm' || c == 'M'
  }

  /** `[km]` under IGNORECASE. */
  predicate IsUnitLetter(c: char) {
    IsKilo(c) || IsMega(c)
  }

  /** `\s`: the characters Python's str.isspace() accepts. */
  predicate IsSpace(c: char) {
    || '\t' <= c <= '\r'
    || '\U{1C}' <= c <= ' '
    || c == '\U{85}' || c == '\U{A0}' || c == '\U{1680}'
    || '\U{2000}' <= c <= '\U{200A}'
    || c == '\U{2028}' || c == '\U{2029}' || c == '\U{202F}' || c == '\U{205F}'
    || c == '\U{3000}'
  }

  predicate AllDigits(s: string) {
    forall k :: 0 <= k < |s| ==> IsDigit(s[k])
  }

  predicate AllNumeral(s: string) {
    forall k :: 0 <= k < |s| ==> IsNumeralChar(s[k])
  }

  predicate AllSpace(s: string) {
    forall k :: 0 <= k < |s| ==> IsSpace(s[k])
  }

  /** The repeated classes of the pattern, and "anything but a dot" for reading numbers. */
  datatype CharClass = NumeralChars | SpaceChars | DigitChars | NotDot

  predicate InClass(c: char, cls: CharClass) {
    match cls
    case NumeralChars => IsNumeralChar(c)
    case SpaceChars => IsSpace(c)
    case DigitChars => IsDigit(c)
    case NotDot => c != '.'
  }

  /** Every character of s[lo..hi] is in the class. */
  predicate Run(s: string, lo: nat, hi: nat, cls: CharClass)
    requires lo <= hi <= |s|
  {
    forall k {:trigger InClass(s[k], cls)} :: lo <= k < hi ==> InClass(s[k], cls)
  }

  /** The slice a run covers is all in the class. */
  lemma RunIsAll(s: string, lo: nat, hi: nat, cls: CharClass)
    requires lo <= hi <= |s| && Run(s, lo, hi, cls)
    ensures cls == NumeralChars ==> AllNumeral(s[lo..hi])
    ensures cls == SpaceChars ==> AllSpace(s[lo..hi])
    ensures cls == DigitChars ==> AllDigits(s[lo..hi])
  {
    forall j | 0 <= j < hi - lo ensures InClass(s[lo..hi][j], cls) {
      assert InClass(s[lo + j], cls);
    }
  }

  /**
   * The end of the longest run of characters satisfying `p` that starts at
   * `i`: the leftmost position at or after `i` that does not satisfy `p`.
   */
  function Span(s: string, i: nat, cls: CharClass): (j: nat)
    requires i <= |s|
    ensures i <= j <= |s|
    ensures Run(s, i, j, cls)
    ensures j == |s| || !InClass(s[j], cls)
    decreases |s| - i
  {
    if i == |s| || !InClass(s[i], cls) then i else Span(s, i + 1, cls)
  }

  /** A run is determined by its start: whatever ends it is where Span stops. */
  lemma SpanStopsAt(s: string, i: nat, j: nat, cls: CharClass)
    requires i <= j <= |s|
    requires Run(s, i, j, cls)
    requires j == |s| || !InClass(s[j], cls)
    ensures Span(s, i, cls) == j
  {
  }

  // -------------------------------------------------------------------------
  // Token counts

  /** The value of a string of decimal digits (`int(...)` on such a string). */
  function DigitsValue(s: string): nat
    requires AllDigits(s)
  {
    if s == [] then 0 else 10 * DigitsValue(s[..|s| - 1]) + (s[|s| - 1] as int - '0' as int)
  }

  function Pow10(n: nat): (p: nat)
    ensures p >= 1
  {
    if n == 0 then 1 else 10 * Pow10(n - 1)
  }

  function CountDots(s: string): nat {
    if s == [] then 0 else (if s[0] == '.' then 1 else 0) + CountDots(s[1..])
  }

  /**
   * float() accepts a string made of digits and dots exactly when it has
   * at most one dot and at least one digit ("1.", ".5" and "5" are numbers;
   * "", "." and "1.2.3" raise ValueError).
   */
  ghost predicate FloatAccepts(s: string) {
    CountDots(s) <= 1 && exists k :: 0 <= k < |s| && IsDigit(s[k])
  }

  /** An exact decimal number, mantissa / 10^places. */
  datatype Decimal = Decimal(mantissa: nat, places: nat)

  /** The number float() reads from a digits-and-dots string, kept exact. */
  function ReadDecimal(s: string): (d: Option<Decimal>)
    requires AllNumeral(s)
    ensures d.Some? ==> d.value.places < |s|
  {
    var i := Span(s, 0, NotDot);
    var whole := s[..i];
    var fraction := if i < |s| then s[i + 1..] else [];
    if AllDigits(fraction) && whole + fraction != [] then
      assert AllDigits(whole + fraction) by {
        assert forall k :: 0 <= k < |whole| ==> InClass(s[k], NotDot) && IsNumeralChar(s[k]);
      }
      Some(Decimal(DigitsValue(whole + fraction), |fraction|))
    else
      None
  }

  lemma CountDotsAppend(a: string, b: string)
    ensures CountDots(a + b) == CountDots(a) + CountDots(b)
  {
    if a == [] {
      assert a + b == b;
    } else {
      assert (a + b)[1..] == a[1..] + b;
      CountDotsAppend(a[1..], b);
    }
  }

  lemma NoDotsCounted(s: string)
    requires forall k :: 0 <= k < |s| ==> s[k] != '.'
    ensures CountDots(s) == 0
  {
    if s != [] {
      NoDotsCounted(s[1..]);
    }
  }

  lemma DotCounted(s: string, k: nat)
    requires k < |s| && s[k] == '.'
    ensures CountDots(s) >= 1
  {
    if k > 0 {
      DotCounted(s[1..], k - 1);
    }
  }

  /** A digits-and-dots string with no dot: float() accepts it exactly when it is not empty. */
  lemma FloatAcceptanceNoDot(s: string)
    requires AllNumeral(s) && Span(s, 0, NotDot) == |s|
    ensures ReadDecimal(s).Some? <==> FloatAccepts(s)
  {
    assert s[..|s|] + [] == s;
    assert forall k :: 0 <= k < |s| ==> InClass(s[k], NotDot);
    NoDotsCounted(s);
    if s != [] {
      assert IsDigit(s[0]);
    }
  }

  /** The first dot of a string counts once, before the dots of what follows it. */
  lemma FirstDotCounted(s: string, i: nat)
    requires i < |s| && s[i] == '.' && forall k :: 0 <= k < i ==> s[k] != '.'
    ensures CountDots(s) == 1 + CountDots(s[i + 1..])
  {
    assert s == s[..i] + [s[i]] + s[i + 1..];
    CountDotsAppend(s[..i] + [s[i]], s[i + 1..]);
    CountDotsAppend(s[..i], [s[i]]);
    NoDotsCounted(s[..i]);
    assert CountDots([s[i]]) == 1 + CountDots([]);
  }

  /** Around the first dot, a digit of `s` is a digit of the part before or the part after. */
  lemma DigitAroundDot(s: string, i: nat)
    requires i < |s| && s[i] == '.'
    ensures (exists k :: 0 <= k < |s| && IsDigit(s[k])) ==> s[..i] + s[i + 1..] != []
  {
    if exists k :: 0 <= k < |s| && IsDigit(s[k]) {
      var k :| 0 <= k < |s| && IsDigit(s[k]);
      assert k != i;
      assert |s[..i] + s[i + 1..]| == |s| - 1;
    }
  }

  /** A digits-and-dots string with a dot: float() accepts it when nothing after the dot is a dot. */
  lemma FloatAcceptanceDot(s: string, i: nat)
    requires AllNumeral(s) && i == Span(s, 0, NotDot) && i < |s|
    ensures ReadDecimal(s).Some? <==> FloatAccepts(s)
  {
    var whole, fraction := s[..i], s[i + 1..];
    FirstDotCounted(s, i);
    if !AllDigits(fraction) {
      var k :| 0 <= k < |fraction| && !IsDigit(fraction[k]);
      assert fraction[k] == s[i + 1 + k];
      DotCounted(fraction, k);
    } else {
      NoDotsCounted(fraction);
      DigitAroundDot(s, i);
      if whole != [] {
        assert IsDigit(s[0]);
      } else if fraction != [] {
        assert IsDigit(s[i + 1]);
      }
    }
  }

  /** ReadDecimal succeeds exactly on the strings float() accepts. */
  lemma FloatAcceptance(s: string)
    requires AllNumeral(s)
    ensures ReadDecimal(s).Some? <==> FloatAccepts(s)
  {
    var i := Span(s, 0, NotDot);
    if i < |s| {
      FloatAcceptanceDot(s, i);
    } else {
      FloatAcceptanceNoDot(s);
    }
  }

  /** The multiplier of a unit: 1000 for "k", 1,000,000 for "m" (either case), 1 otherwise. */
  function Multiplier(unit: string): (m: nat)
    ensures m == 1 || m == 1000 || m == 1_000_000
  {
    if |unit| == 1 && IsKilo(unit[0]) then 1000
    else if |unit| == 1 && IsMega(unit[0]) then 1_000_000
    else 1
  }

  /**
   * `parse_token_count`: the value scaled by the unit's multiplier and
   * truncated toward zero, or None where float() would raise.
   */
  function ParseTokenCount(value: string, unit: string): (r: Option<nat>)
    requires AllNumeral(value)
    ensures r.Some? <==> FloatAccepts(value)
  {
    FloatAcceptance(value);
    var d := ReadDecimal(value);
    if d.None? then None
    else
      var m, p := d.value.mantissa, Pow10(d.value.places);
      NaturalArithmetic(m, Multiplier(unit), p);
      Some(m * Multiplier(unit) / p)
  }

  /** Products and quotients of naturals are natural. */
  lemma NaturalArithmetic(a: nat, b: nat, d: nat)
    requires d >= 1
    ensures a * b >= 0 && a * b / d >= 0
  {
  }

  /**
   * A token count exists exactly when float() accepts the value, and it is
   * the exact value times the multiplier, truncated: the largest whole
   * number not above it.
   */
  lemma TokenCountTruncates(value: string, unit: string)
    requires AllNumeral(value)
    ensures ParseTokenCount(value, unit).Some? <==> FloatAccepts(value)
    ensures ParseTokenCount(value, unit).Some? ==>
      var n, d := ParseTokenCount(value, unit).value, ReadDecimal(value).value;
      n * Pow10(d.places) <= d.mantissa * Multiplier(unit) < (n + 1) * Pow10(d.places)
  {
    FloatAcceptance(value);
    if ReadDecimal(value).Some? {
      var d := ReadDecimal(value).value;
      Truncation(d.mantissa * Multiplier(unit), Pow10(d.places));
    }
  }

  /** Integer division of naturals truncates: q is the largest q with q * d <= n. */
  lemma Truncation(n: nat, d: nat)
    requires d >= 1
    ensures (n / d) * d <= n < (n / d + 1) * d
  {
    var q, r := n / d, n % d;
    assert n == q * d + r && 0 <= r < d;
    assert (q + 1) * d == q * d + d;
  }

  /** A whole number is scaled exactly, with no truncation. */
  lemma {:induction false} WholeNumberScalesExactly(value: string, unit: string)
    requires value != [] && AllDigits(value)
    ensures AllNumeral(value)
    ensures ParseTokenCount(value, unit) == Some(DigitsValue(value) * Multiplier(unit))
  {
    assert IsDigit(value[0]);
    SpanStopsAt(value, 0, |value|, NotDot);
    assert value[..|value|] + [] == value;
  }

  /** The unit table: k, K -> 1000; m, M -> 1,000,000; anything else, "" included -> 1. */
  lemma MultiplierTable()
    ensures Multiplier("k") == Multiplier("K") == 1000
    ensures Multiplier("m") == Multiplier("M") == 1_000_000
    ensures Multiplier("") == 1 && Multiplier("x") == 1 && Multiplier("km") == 1
  {
  }

  /** "whole.fraction" reads as the decimal whose digits are those of whole and fraction. */
  lemma {:induction false} ReadPointNumeral(whole: string, fraction: string)
    requires AllDigits(whole) && AllDigits(fraction) && whole + fraction != []
    ensures AllNumeral(whole + "." + fraction)
    ensures ReadDecimal(whole + "." + fraction) == Some(Decimal(DigitsValue(whole + fraction), |fraction|))
  {
    var s := whole + "." + fraction;
    assert forall k :: 0 <= k < |whole| ==> s[k] == whole[k];
    assert forall k :: |whole| < k < |s| ==> s[k] == fraction[k - |whole| - 1];
    SpanStopsAt(s, 0, |whole|, NotDot);
    assert s[..|whole|] == whole && s[|whole| + 1..] == fraction;
  }

  /** Appending a digit shifts the value one place and adds the digit. */
  lemma DigitsValueSnoc(s: string, c: char)
    requires AllDigits(s) && IsDigit(c)
    ensures AllDigits(s + [c])
    ensures DigitsValue(s + [c]) == 10 * DigitsValue(s) + (c as int - '0' as int)
  {
    assert (s + [c])[..|s|] == s;
  }

  /** Whole numbers with a unit letter, in either case. */
  lemma TokenCountWholeExamples()
    ensures ParseTokenCount("84", "k") == Some(84000)
    ensures ParseTokenCount("84", "K") == Some(84000)
    ensures ParseTokenCount("1", "M") == Some(1_000_000)
  {
    DigitsValueSnoc("8", '4');
    assert "8" + ['4'] == "84";
    assert DigitsValue("84") == 84 && DigitsValue("1") == 1;
    MultiplierTable();
    WholeNumberScalesExactly("84", "k");
    WholeNumberScalesExactly("84", "K");
    WholeNumberScalesExactly("1", "M");
  }

  /** A whole number without a unit letter is taken as it is. */
  lemma TokenCountNoUnitExample()
    ensures ParseTokenCount("1000", "") == Some(1000)
  {
    ThousandDigits();
    WholeNumberScalesExactly("1000", "");
  }

  lemma ThousandDigits()
    ensures AllDigits("1000") && DigitsValue("1000") == 1000
  {
    DigitsValueSnoc("1", '0');
    assert "1" + ['0'] == "10";
    DigitsValueSnoc("10", '0');
    assert "10" + ['0'] == "100";
    DigitsValueSnoc("100", '0');
    assert "100" + ['0'] == "1000";
  }

  /** One decimal place, scaled by k: "84.5" k is 84500, "0.5" k is 500. */
  lemma {:induction false} TenthsOfThousands(whole: string, tenth: char)
    requires AllDigits(whole) && IsDigit(tenth)
    ensures AllNumeral(whole + "." + [tenth])
    ensures ParseTokenCount(whole + "." + [tenth], "k")
         == Some(1000 * DigitsValue(whole) + 100 * (tenth as int - '0' as int))
  {
    ReadPointNumeral(whole, [tenth]);
    DigitsValueSnoc(whole, tenth);
    assert Multiplier("k") == 10 * 100;
    DivideTenths(DigitsValue(whole), tenth as int - '0' as int, 100);
  }

  /** One decimal place, scaled by m: "1.5" m is 1,500,000. */
  lemma {:induction false} TenthsOfMillions(whole: string, tenth: char)
    requires AllDigits(whole) && IsDigit(tenth)
    ensures AllNumeral(whole + "." + [tenth])
    ensures ParseTokenCount(whole + "." + [tenth], "m")
         == Some(1_000_000 * DigitsValue(whole) + 100_000 * (tenth as int - '0' as int))
  {
    ReadPointNumeral(whole, [tenth]);
    DigitsValueSnoc(whole, tenth);
    assert Multiplier("m") == 10 * 100_000;
    DivideTenths(DigitsValue(whole), tenth as int - '0' as int, 100_000);
  }

  /** A number with one decimal place, times a multiple of ten, divided by ten. */
  lemma DivideTenths(w: nat, t: nat, k: nat)
    ensures (10 * w + t) * (10 * k) / 10 == w * (10 * k) + t * k
  {
    var q := w * (10 * k) + t * k;
    assert (10 * w + t) * (10 * k) == 10 * q;
  }

  /** A second dot makes float() raise, so there is no count. */
  lemma TokenCountTwoDots()
    ensures ParseTokenCount("1.2.3", "k") == None
  {
    var bad := "1.2.3";
    SpanStopsAt(bad, 0, 1, NotDot);
    assert bad[2..] == "2.3" && !IsDigit("2.3"[1]);
  }

  // -------------------------------------------------------------------------
  // The status pattern

  /** The five capture groups of one match, plus the `\s+` text between them. */
  datatype Groups = Groups(used: string, usedUnit: char, limit: string, limitUnit: char,
                           gap: string, percent: string)

  /** The groups fit the pattern's classes and repetitions. */
  predicate Shaped(g: Groups) {
    && |g.used| > 0 && AllNumeral(g.used) && IsUnitLetter(g.usedUnit)
    && |g.limit| > 0 && AllNumeral(g.limit) && IsUnitLetter(g.limitUnit)
    && |g.gap| > 0 && AllSpace(g.gap)
    && |g.percent| > 0 && AllDigits(g.percent)
  }

  /** The text a match with these groups covers (joined from the right, piece by piece). */
  function Text(g: Groups): string {
    g.used + ([g.usedUnit, '/'] + (g.limit + ([g.limitUnit] + Tail(g))))
  }

  /** The text from the whitespace on. */
  function Tail(g: Groups): string {
    g.gap + ("(" + (g.percent + "%)"))
  }

  /** `x` occurs in `s` at position `lo`. */
  predicate Piece(s: string, lo: nat, x: string) {
    lo + |x| <= |s| && forall j :: 0 <= j < |x| ==> s[lo + j] == x[j]
  }

  /** Where the runs of a match with groups `g` starting at `i` end. */
  datatype Cuts = Cuts(a: nat, b: nat, c: nat, d: nat)

  function CutsOf(g: Groups, i: nat): Cuts {
    var a := i + |g.used|;
    var b := a + 2 + |g.limit|;
    var c := b + 1 + |g.gap|;
    Cuts(a, b, c, c + 1 + |g.percent|)
  }

  /** Text(g) occurs in `s` at position `i`, spelled out piece by piece. */
  predicate OccursAt(g: Groups, s: string, i: nat) {
    var k := CutsOf(g, i);
    && Piece(s, i, g.used) && Piece(s, k.a, [g.usedUnit, '/'])
    && Piece(s, k.a + 2, g.limit) && Piece(s, k.b, [g.limitUnit])
    && Piece(s, k.b + 1, g.gap) && Piece(s, k.c, "(")
    && Piece(s, k.c + 1, g.percent) && Piece(s, k.d, "%)")
  }

  /** The cuts delimit non-empty runs of the right classes, joined by the pattern's separators. */
  predicate Fits(s: string, i: nat, k: Cuts) {
    && i < k.a && k.a + 2 < k.b && k.b + 1 < k.c && k.c + 1 < k.d && k.d + 2 <= |s|
    && Run(s, i, k.a, NumeralChars)
    && IsUnitLetter(s[k.a]) && s[k.a + 1] == '/'
    && Run(s, k.a + 2, k.b, NumeralChars)
    && IsUnitLetter(s[k.b])
    && Run(s, k.b + 1, k.c, SpaceChars)
    && s[k.c] == '('
    && Run(s, k.c + 1, k.d, DigitChars)
    && s[k.d] == '%' && s[k.d + 1] == ')'
  }

  /**
   * The cuts of the match starting exactly at position `i`. Each `+` run is
   * followed by a character outside its class, so backtracking can never
   * shorten a run: the only candidate is the one built from maximal runs.
   */
  function CutsAt(s: string, i: nat): (r: Option<Cuts>)
    requires i <= |s|
    ensures r.Some? ==> Fits(s, i, r.value)
  {
    var a := Span(s, i, NumeralChars);
    if a == i || a + 1 >= |s| || !IsUnitLetter(s[a]) || s[a + 1] != '/' then None
    else
      var b := Span(s, a + 2, NumeralChars);
      if b == a + 2 || b + 1 >= |s| || !IsUnitLetter(s[b]) then None
      else
        var c := Span(s, b + 1, SpaceChars);
        if c == b + 1 || c + 1 >= |s| || s[c] != '(' then None
        else
          var d := Span(s, c + 1, DigitChars);
          if d == c + 1 || d + 1 >= |s| || s[d] != '%' || s[d + 1] != ')' then None
          else Some(Cuts(a, b, c, d))
  }

  /** The groups the cuts delimit. */
  function GroupsAt(s: string, i: nat, k: Cuts): (g: Groups)
    requires Fits(s, i, k)
    ensures Shaped(g)
  {
    RunIsAll(s, i, k.a, NumeralChars);
    RunIsAll(s, k.a + 2, k.b, NumeralChars);
    RunIsAll(s, k.b + 1, k.c, SpaceChars);
    RunIsAll(s, k.c + 1, k.d, DigitChars);
    Groups(s[i..k.a], s[k.a], s[k.a + 2..k.b], s[k.b], s[k.b + 1..k.c], s[k.c + 1..k.d])
  }

  /** A slice of `s` is a piece of `s` where it starts. */
  lemma SlicePiece(s: string, lo: nat, hi: nat)
    requires lo <= hi <= |s|
    ensures Piece(s, lo, s[lo..hi])
  {
  }

  /** The groups the cuts delimit occur where the cuts put them. */
  lemma GroupsAtOccur(s: string, i: nat, k: Cuts)
    requires Fits(s, i, k)
    ensures CutsOf(GroupsAt(s, i, k), i) == k
    ensures OccursAt(GroupsAt(s, i, k), s, i)
  {
    SlicePiece(s, i, k.a);
    SlicePiece(s, k.a + 2, k.b);
    SlicePiece(s, k.b + 1, k.c);
    SlicePiece(s, k.c + 1, k.d);
    assert Piece(s, k.a, [s[k.a], '/']) && Piece(s, k.b, [s[k.b]]);
    assert Piece(s, k.c, "(") && Piece(s, k.d, "%)");
  }

  /** The match of the pattern starting exactly at position `i`, with its groups. */
  function MatchAt(s: string, i: nat): (r: Option<Groups>)
    requires i <= |s|
    ensures r.Some? ==> Shaped(r.value)
  {
    match CutsAt(s, i)
    case None => None
    case Some(k) => Some(GroupsAt(s, i, k))
  }

  /** What MatchAt finds is there: its groups' text occurs in `s` at `i`. */
  lemma MatchAtSound(s: string, i: nat)
    requires i <= |s|
    ensures MatchAt(s, i).Some? ==> OccursAt(MatchAt(s, i).value, s, i)
  {
    if CutsAt(s, i).Some? {
      GroupsAtOccur(s, i, CutsAt(s, i).value);
    }
  }

  /** Runs that fit are maximal, because each is followed by a separator outside its class. */
  lemma CutsAtExact(s: string, i: nat, k: Cuts)
    requires Fits(s, i, k)
    ensures CutsAt(s, i) == Some(k)
  {
    SpanStopsAt(s, i, k.a, NumeralChars);
    SpanStopsAt(s, k.a + 2, k.b, NumeralChars);
    SpanStopsAt(s, k.b + 1, k.c, SpaceChars);
    SpanStopsAt(s, k.c + 1, k.d, DigitChars);
  }

  /** A piece that is all digits and dots is a run of NumeralChars. */
  lemma NumeralRun(s: string, lo: nat, x: string)
    requires Piece(s, lo, x) && AllNumeral(x)
    ensures Run(s, lo, lo + |x|, NumeralChars)
  {
    forall j | lo <= j < lo + |x| ensures InClass(s[j], NumeralChars) {
      assert s[lo + (j - lo)] == x[j - lo];
    }
  }

  lemma SpaceRun(s: string, lo: nat, x: string)
    requires Piece(s, lo, x) && AllSpace(x)
    ensures Run(s, lo, lo + |x|, SpaceChars)
  {
    forall j | lo <= j < lo + |x| ensures InClass(s[j], SpaceChars) {
      assert s[lo + (j - lo)] == x[j - lo];
    }
  }

  lemma DigitRun(s: string, lo: nat, x: string)
    requires Piece(s, lo, x) && AllDigits(x)
    ensures Run(s, lo, lo + |x|, DigitChars)
  {
    forall j | lo <= j < lo + |x| ensures InClass(s[j], DigitChars) {
      assert s[lo + (j - lo)] == x[j - lo];
    }
  }

  /** A piece is the slice of `s` it covers. */
  lemma PieceSlice(s: string, lo: nat, x: string)
    requires Piece(s, lo, x)
    ensures s[lo..lo + |x|] == x
  {
  }

  /** Text of the pattern's shape, occurring at `i`, delimits runs that fit. */
  lemma OccurrenceFits(s: string, i: nat, g: Groups)
    requires Shaped(g) && OccursAt(g, s, i)
    ensures Fits(s, i, CutsOf(g, i))
  {
    var k := CutsOf(g, i);
    NumeralRun(s, i, g.used);
    NumeralRun(s, k.a + 2, g.limit);
    SpaceRun(s, k.b + 1, g.gap);
    DigitRun(s, k.c + 1, g.percent);
    assert s[k.a + 0] == [g.usedUnit, '/'][0] && s[k.a + 1] == [g.usedUnit, '/'][1];
    assert s[k.b + 0] == [g.limitUnit][0] && s[k.c + 0] == "("[0];
    assert s[k.d + 0] == "%)"[0] && s[k.d + 1] == "%)"[1];
  }

  /** ... and those runs are its groups. */
  lemma OccurrenceSlices(s: string, i: nat, g: Groups)
    requires OccursAt(g, s, i)
    ensures var k := CutsOf(g, i);
      && k.d + 2 <= |s|
      && s[i..k.a] == g.used && s[k.a] == g.usedUnit && s[k.a + 2..k.b] == g.limit
      && s[k.b] == g.limitUnit && s[k.b + 1..k.c] == g.gap && s[k.c + 1..k.d] == g.percent
  {
    var k := CutsOf(g, i);
    PieceSlice(s, i, g.used);
    PieceSlice(s, k.a + 2, g.limit);
    PieceSlice(s, k.b + 1, g.gap);
    PieceSlice(s, k.c + 1, g.percent);
    assert s[k.a + 0] == [g.usedUnit, '/'][0] && s[k.b + 0] == [g.limitUnit][0];
  }

  lemma GroupsFromSlices(s: string, i: nat, k: Cuts, g: Groups)
    requires Fits(s, i, k)
    requires s[i..k.a] == g.used && s[k.a] == g.usedUnit && s[k.a + 2..k.b] == g.limit
    requires s[k.b] == g.limitUnit && s[k.b + 1..k.c] == g.gap && s[k.c + 1..k.d] == g.percent
    ensures GroupsAt(s, i, k) == g
  {
  }

  /** Wherever text of the pattern's shape occurs, MatchAt finds exactly those groups. */
  lemma {:induction false} MatchAtComplete(s: string, i: nat, g: Groups)
    requires Shaped(g) && OccursAt(g, s, i)
    ensures MatchAt(s, i) == Some(g)
  {
    OccurrenceFits(s, i, g);
    OccurrenceSlices(s, i, g);
    GroupsFromSlices(s, i, CutsOf(g, i), g);
    CutsAtExact(s, i, CutsOf(g, i));
  }

  /** A piece `x + y` is the piece `x` followed by the piece `y`. */
  lemma PieceConcat(s: string, lo: nat, x: string, y: string)
    ensures Piece(s, lo, x + y) <==> Piece(s, lo, x) && Piece(s, lo + |x|, y)
  {
    if Piece(s, lo, x) && Piece(s, lo + |x|, y) {
      forall j | 0 <= j < |x + y| ensures s[lo + j] == (x + y)[j] {
        if j >= |x| {
          assert s[lo + |x| + (j - |x|)] == y[j - |x|];
        }
      }
    }
    if Piece(s, lo, x + y) {
      forall j | 0 <= j < |x| ensures s[lo + j] == x[j] {
        assert (x + y)[j] == x[j];
      }
      forall j | 0 <= j < |y| ensures s[lo + |x| + j] == y[j] {
        assert s[lo + (|x| + j)] == (x + y)[|x| + j];
      }
    }
  }

  /** Tail(g) at `lo` is its four pieces in a row. */
  lemma {:induction false} TailPieces(g: Groups, s: string, lo: nat)
    ensures Piece(s, lo, Tail(g)) <==>
      && Piece(s, lo, g.gap) && Piece(s, lo + |g.gap|, "(")
      && Piece(s, lo + |g.gap| + 1, g.percent) && Piece(s, lo + |g.gap| + 1 + |g.percent|, "%)")
  {
    PieceConcat(s, lo + |g.gap| + 1, g.percent, "%)");
    PieceConcat(s, lo + |g.gap|, "(", g.percent + "%)");
    PieceConcat(s, lo, g.gap, "(" + (g.percent + "%)"));
  }

  /** Text(g) at `i` has each of its pieces where OccursAt looks for them. */
  lemma {:induction false} TextGivesOccursAt(g: Groups, s: string, i: nat)
    requires Piece(s, i, Text(g))
    ensures OccursAt(g, s, i)
  {
    var k := CutsOf(g, i);
    PieceConcat(s, i, g.used, [g.usedUnit, '/'] + (g.limit + ([g.limitUnit] + Tail(g))));
    PieceConcat(s, k.a, [g.usedUnit, '/'], g.limit + ([g.limitUnit] + Tail(g)));
    PieceConcat(s, k.a + 2, g.limit, [g.limitUnit] + Tail(g));
    PieceConcat(s, k.b, [g.limitUnit], Tail(g));
    TailPieces(g, s, k.b + 1);
  }

  /** The pieces OccursAt names join up to Text(g). */
  lemma {:induction false} OccursAtGivesText(g: Groups, s: string, i: nat)
    requires OccursAt(g, s, i)
    ensures Piece(s, i, Text(g))
  {
    var k := CutsOf(g, i);
    TailPieces(g, s, k.b + 1);
    PieceConcat(s, k.b, [g.limitUnit], Tail(g));
    PieceConcat(s, k.a + 2, g.limit, [g.limitUnit] + Tail(g));
    PieceConcat(s, k.a, [g.usedUnit, '/'], g.limit + ([g.limitUnit] + Tail(g)));
    PieceConcat(s, i, g.used, [g.usedUnit, '/'] + (g.limit + ([g.limitUnit] + Tail(g))));
  }

  /** OccursAt says no more and no less than that Text(g) is a slice of `s` at `i`. */
  lemma OccursAtIsText(g: Groups, s: string, i: nat)
    ensures OccursAt(g, s, i) <==> Piece(s, i, Text(g))
  {
    if OccursAt(g, s, i) {
      OccursAtGivesText(g, s, i);
    }
    if Piece(s, i, Text(g)) {
      TextGivesOccursAt(g, s, i);
    }
  }

  /** The match, if any, at each start position 0 through |s|. */
  function Starts(s: string): (t: seq<Option<Groups>>)
    ensures |t| == |s| + 1
    ensures forall q :: 0 <= q <= |s| ==> t[q] == MatchAt(s, q)
  {
    seq(|s| + 1, q requires 0 <= q <= |s| => MatchAt(s, q))
  }

  /** The first present entry at or after `i`, with its index. */
  function FirstSome<T>(t: seq<Option<T>>, i: nat): (r: Option<(nat, T)>)
    requires i <= |t|
    ensures r.Some? ==> i <= r.value.0 < |t|
    decreases |t| - i
  {
    if i == |t| then None
    else match t[i]
      case Some(x) => Some((i, x))
      case None => FirstSome(t, i + 1)
  }

  /** FirstSome finds the leftmost present entry, and finds none only when there is none. */
  lemma {:induction false} FirstSomeLeftmost<T>(t: seq<Option<T>>, i: nat)
    requires i <= |t|
    ensures FirstSome(t, i).None? ==> forall q :: i <= q < |t| ==> t[q].None?
    ensures FirstSome(t, i).Some? ==>
      var (p, x) := FirstSome(t, i).value;
      && i <= p < |t| && t[p] == Some(x)
      && forall q :: i <= q < p ==> t[q].None?
    decreases |t| - i
  {
    if i < |t| && t[i].None? {
      FirstSomeLeftmost(t, i + 1);
    }
  }

  /** `re.search`: the leftmost position where the pattern matches, with its groups. */
  function Search(s: string): (r: Option<(nat, Groups)>)
    ensures r.Some? ==> r.value.0 <= |s|
  {
    FirstSome(Starts(s), 0)
  }

  /** Search finds the leftmost match, and finds none only when there is none. */
  lemma SearchLeftmost(s: string)
    ensures Search(s).None? ==> forall q :: 0 <= q <= |s| ==> MatchAt(s, q).None?
    ensures Search(s).Some? ==>
      var (p, g) := Search(s).value;
      && p <= |s| && MatchAt(s, p) == Some(g)
      && forall q :: 0 <= q < p ==> MatchAt(s, q).None?
  {
    FirstSomeLeftmost(Starts(s), 0);
  }

  /** The outcome of parsing the probe's output. */
  datatype StatusParse =
    | NoMatch              // the pattern occurs nowhere: `None`
    | Malformed            // the leftmost match holds a number float() rejects: ValueError
    | Found(usage: ContextUsage)

  /** The usage read from one match's groups; the percentage is taken verbatim. */
  function UsageOf(g: Groups): (r: StatusParse)
    requires Shaped(g)
    ensures r.Found? <==> FloatAccepts(g.used) && FloatAccepts(g.limit)
    ensures r.Found? ==> r.usage.percentage == DigitsValue(g.percent)
  {
    match (ParseTokenCount(g.used, [g.usedUnit]), ParseTokenCount(g.limit, [g.limitUnit]))
    case (Some(used), Some(limit)) => Found(ContextUsage(used, limit, DigitsValue(g.percent)))
    case _ => Malformed
  }

  /** `parse_openclaw_status`: read the usage from the leftmost match only. */
  function ParseOpenclawStatus(output: string): (r: StatusParse)
    ensures r.NoMatch? <==> forall i :: 0 <= i <= |output| ==> MatchAt(output, i).None?
    ensures r.Found? ==> r.usage.usedTokens >= 0 && r.usage.limitTokens >= 0 && r.usage.percentage >= 0
  {
    SearchLeftmost(output);
    match Search(output)
    case None => NoMatch
    case Some((_, g)) => UsageOf(g)
  }

  /** Parsing reads the groups of the leftmost match, and nothing later. */
  lemma ParseUsesLeftmost(output: string, p: nat, g: Groups)
    requires p <= |output| && MatchAt(output, p) == Some(g)
    requires forall q :: 0 <= q < p ==> MatchAt(output, q).None?
    ensures ParseOpenclawStatus(output) == UsageOf(g)
  {
    SearchFinds(output, p, g);
  }

  /** The leftmost match is what Search returns. */
  lemma SearchFinds(s: string, p: nat, g: Groups)
    requires p <= |s| && MatchAt(s, p) == Some(g)
    requires forall q :: 0 <= q < p ==> MatchAt(s, q).None?
    ensures Search(s) == Some((p, g))
  {
    SearchLeftmost(s);
    assert Search(s).Some?;
    var p' := Search(s).value.0;
    assert !(p' < p);
    assert !(p < p');
  }

  /** A match that a digit or dot precedes extends one position to the left. */
  lemma MatchExtendsLeft(s: string, p: nat)
    requires p <= |s|
    ensures p > 0 && IsNumeralChar(s[p - 1]) && MatchAt(s, p).Some? ==> MatchAt(s, p - 1).Some?
  {
    if p > 0 && IsNumeralChar(s[p - 1]) && MatchAt(s, p).Some? {
      CutsAtExact(s, p - 1, CutsAt(s, p).value);
    }
  }

  /**
   * The leftmost match always starts a whole maximal run of digits and dots:
   * the character before it (if any) is not a digit or dot.
   */
  lemma LeftmostMatchStartsRun(s: string)
    ensures Search(s).Some? ==>
      var p := Search(s).value.0;
      p == 0 || !IsNumeralChar(s[p - 1])
  {
    SearchLeftmost(s);
    if Search(s).Some? {
      MatchExtendsLeft(s, Search(s).value.0);
    }
  }

  /** A match starts with a digit or dot. */
  lemma MatchStartsWithNumeral(s: string, i: nat)
    requires i <= |s|
    ensures MatchAt(s, i).Some? ==> IsNumeralChar(s[i])
  {
    if MatchAt(s, i).Some? {
      GroupsAtOccur(s, i, CutsAt(s, i).value);
    }
  }

  /** A match has a unit letter right after its first number. */
  lemma MatchHasUnit(s: string, i: nat)
    requires i <= |s|
    ensures MatchAt(s, i).Some? ==> IsUnitLetter(s[i + |MatchAt(s, i).value.used|])
  {
    if MatchAt(s, i).Some? {
      GroupsAtOccur(s, i, CutsAt(s, i).value);
    }
  }

  /** A match has whitespace right after its second unit letter. */
  lemma MatchHasSpace(s: string, i: nat)
    requires i <= |s|
    ensures MatchAt(s, i).Some? ==>
      var g := MatchAt(s, i).value;
      IsSpace(s[i + |g.used| + 3 + |g.limit|])
  {
    if MatchAt(s, i).Some? {
      GroupsAtOccur(s, i, CutsAt(s, i).value);
    }
  }

  /** A text without any digit or dot never matches. */
  lemma NoNumeralNoMatch(s: string)
    requires forall k :: 0 <= k < |s| ==> !IsNumeralChar(s[k])
    ensures ParseOpenclawStatus(s) == NoMatch
  {
    forall i | 0 <= i <= |s| ensures MatchAt(s, i).None? {
      MatchStartsWithNumeral(s, i);
    }
  }

  /** A text without a unit letter never matches: the unit is mandatory. */
  lemma NoUnitNoMatch(s: string)
    requires forall k :: 0 <= k < |s| ==> !IsUnitLetter(s[k])
    ensures ParseOpenclawStatus(s) == NoMatch
  {
    forall i | 0 <= i <= |s| ensures MatchAt(s, i).None? {
      MatchHasUnit(s, i);
    }
  }

  /** A text without whitespace never matches: `\s+` needs at least one. */
  lemma NoSpaceNoMatch(s: string)
    requires forall k :: 0 <= k < |s| ==> !IsSpace(s[k])
    ensures ParseOpenclawStatus(s) == NoMatch
  {
    forall i | 0 <= i <= |s| ensures MatchAt(s, i).None? {
      MatchHasSpace(s, i);
    }
  }

  /** Bare numbers without unit letters, "100/200 (50%)" among them, are not read. */
  lemma BareNumbersNeverMatch(used: string, limit: string, percent: string)
    requires AllDigits(used) && AllDigits(limit) && AllDigits(percent)
    ensures ParseOpenclawStatus(used + "/" + limit + " (" + percent + "%)") == NoMatch
  {
    var s := used + "/" + limit + " (" + percent + "%)";
    forall k | 0 <= k < |s| ensures !IsUnitLetter(s[k]) {
      if k < |used| {
        assert s[k] == used[k];
      } else if |used| < k < |used| + 1 + |limit| {
        assert s[k] == limit[k - |used| - 1];
      } else if |used| + 3 + |limit| <= k < |s| - 2 {
        assert s[k] == percent[k - |used| - 3 - |limit|];
      }
    }
    NoUnitNoMatch(s);
  }

  /** Without whitespace before "(", as in "84k/200k(42%)", nothing is read. */
  lemma GluedParenthesisNeverMatches(used: string, u1: char, limit: string, u2: char, percent: string)
    requires AllNumeral(used) && AllNumeral(limit) && AllDigits(percent)
    requires IsUnitLetter(u1) && IsUnitLetter(u2)
    ensures ParseOpenclawStatus(used + [u1] + "/" + limit + [u2] + "(" + percent + "%)") == NoMatch
  {
    var s := used + [u1] + "/" + limit + [u2] + "(" + percent + "%)";
    forall k | 0 <= k < |s| ensures !IsSpace(s[k]) {
      if k < |used| {
        assert s[k] == used[k];
      } else if |used| + 2 <= k < |used| + 2 + |limit| {
        assert s[k] == limit[k - |used| - 2];
      } else if |used| + 4 + |limit| <= k < |s| - 2 {
        assert s[k] == percent[k - |used| - 4 - |limit|];
      }
    }
    NoSpaceNoMatch(s);
  }

  /** The usage of a match whose numbers are whole: exact token counts. */
  lemma {:induction false} WholeNumbersRead(g: Groups)
    requires Shaped(g) && AllDigits(g.used) && AllDigits(g.limit)
    ensures UsageOf(g) == Found(ContextUsage(DigitsValue(g.used) * Multiplier([g.usedUnit]),
                                             DigitsValue(g.limit) * Multiplier([g.limitUnit]),
                                             DigitsValue(g.percent)))
  {
    WholeNumberScalesExactly(g.used, [g.usedUnit]);
    WholeNumberScalesExactly(g.limit, [g.limitUnit]);
  }

  /**
   * A line such as a status table row "│ agent:main:main │ 84k/200k (42%) │":
   * whatever precedes the usage, as long as it holds no digit or dot, the
   * usage is read from it, and the percentage is copied as printed (it is
   * neither recomputed from the counts nor capped at 100).
   */
  lemma {:induction false} RowParses(before: string, g: Groups, after: string)
    requires Shaped(g)
    requires forall k :: 0 <= k < |before| ==> !IsNumeralChar(before[k])
    ensures ParseOpenclawStatus(before + Text(g) + after) == UsageOf(g)
  {
    var s := before + Text(g) + after;
    var n := |before|;
    assert Piece(s, n, Text(g)) by {
      assert forall j :: 0 <= j < |Text(g)| ==> s[n + j] == Text(g)[j];
    }
    OccursAtIsText(g, s, n);
    MatchAtComplete(s, n, g);
    forall q | 0 <= q < n ensures MatchAt(s, q).None? {
      MatchStartsWithNumeral(s, q);
      assert s[q] == before[q];
    }
    ParseUsesLeftmost(s, n, g);
  }
}
