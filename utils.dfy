/**
 * Number cleaning for scraped money and vote counts such as "$313,837,577":
 * every character but ASCII digits and dots is deleted, and what is left is
 * read as a decimal `long`.
 */
module Utils {
  import opened JavaLang

  /** The range of Java's `long`. */
  const LongMin: int := -0x8000_0000_0000_0000
  const LongMax: int := 0x7fff_ffff_ffff_ffff

  /** `\d` of java.util.regex without the Unicode flag: an ASCII digit. */
  predicate IsDigit(c: char) { '0' <= c <= '9' }

  /** The characters the class `[^\d.]` does not match. */
  predicate Kept(c: char) { IsDigit(c) || c == '.' }

  predicate AllDigits(s: string) {
    forall i :: 0 <= i < |s| ==> IsDigit(s[i])
  }

  /**
   * `replaceAll("[^\\d.]+", "")`: each maximal run of other characters is
   * deleted, which deletes each such character on its own.
   */
  function KeepDigitsAndDots(s: string): (r: string)
    ensures |r| <= |s|
    decreases |s|
  {
    if s == [] then []
    else (if Kept(s[0]) then [s[0]] else []) + KeepDigitsAndDots(s[1..])
  }

  /** The characters left are exactly the digits and dots of the text. */
  lemma {:induction false} KeepMembers(s: string)
    ensures forall i :: 0 <= i < |KeepDigitsAndDots(s)| ==> Kept(KeepDigitsAndDots(s)[i])
    ensures forall c :: c in KeepDigitsAndDots(s) <==> c in s && Kept(c)
    decreases |s|
  {
    if s != [] {
      KeepMembers(s[1..]);
      assert forall c :: c in s <==> c == s[0] || c in s[1..] by { assert s == [s[0]] + s[1..]; }
    }
  }

  /** Text made only of digits and dots passes through unchanged ... */
  lemma {:induction false} KeepAllKept(s: string)
    requires forall i :: 0 <= i < |s| ==> Kept(s[i])
    ensures KeepDigitsAndDots(s) == s
    decreases |s|
  {
    if s != [] {
      KeepAllKept(s[1..]);
      assert [s[0]] + s[1..] == s;
    }
  }

  /** ... so cleaning twice is cleaning once. */
  lemma KeepIdempotent(s: string)
    ensures KeepDigitsAndDots(KeepDigitsAndDots(s)) == KeepDigitsAndDots(s)
  {
    KeepMembers(s);
    KeepAllKept(KeepDigitsAndDots(s));
  }

  /** Cleaning works piece by piece. */
  lemma {:induction false} KeepAppend(a: string, b: string)
    ensures KeepDigitsAndDots(a + b) == KeepDigitsAndDots(a) + KeepDigitsAndDots(b)
    decreases |a|
  {
    if a != [] {
      assert (a + b)[0] == a[0] && (a + b)[1..] == a[1..] + b;
      KeepAppend(a[1..], b);
    } else {
      assert a + b == b;
    }
  }

  /** The value of a string of decimal digits, most significant first. */
  function DecimalValue(ds: string): (v: nat)
    requires AllDigits(ds)
    decreases |ds|
  {
    if ds == [] then 0
    else DecimalValue(ds[..|ds| - 1]) * 10 + (ds[|ds| - 1] as int - '0' as int)
  }

  /** A number of `n` digits is below 10^n. */
  lemma {:induction false} DecimalValueBound(ds: string)
    requires AllDigits(ds)
    ensures DecimalValue(ds) < Pow10(|ds|)
    decreases |ds|
  {
    if ds != [] {
      DecimalValueBound(ds[..|ds| - 1]);
    }
  }

  function Pow10(n: nat): (p: nat)
    ensures p >= 1
  {
    if n == 0 then 1 else 10 * Pow10(n - 1)
  }

  /**
   * `Long.valueOf(String)`: an optional sign and at least one decimal digit,
   * whose value fits in a `long`; anything else throws NumberFormatException.
   * Only ASCII digits are read.
   */
  function ParseLong(s: string): (r: Result<int>)
    ensures r.Ok? ==> LongMin <= r.value <= LongMax
    ensures r.Thrown? ==> r.failure == NumberFormat
    ensures s == [] ==> r.Thrown?
  {
    if s == [] then Thrown(NumberFormat)
    else
      var digits := if s[0] == '-' || s[0] == '+' then s[1..] else s;
      if digits == [] || !AllDigits(digits) then Thrown(NumberFormat)
      else
        var v: int := if s[0] == '-' then -(DecimalValue(digits) as int) else DecimalValue(digits);
        if LongMin <= v <= LongMax then Ok(v) else Thrown(NumberFormat)
  }

  /** `parseNumber`: delete everything but digits and dots, then read a `long`. */
  function ParseNumber(number: string): (r: Result<int>)
    ensures r.Ok? ==> LongMin <= r.value <= LongMax
    ensures r.Thrown? ==> r.failure == NumberFormat
  {
    ParseLong(KeepDigitsAndDots(number))
  }

  /**
   * What survives the cleaning decides the outcome: it parses iff something
   * is left, no dot is left, and its value fits in a `long`; the value is
   * then that of the digits, so never negative.
   */
  lemma ParseNumberOutcome(number: string)
    ensures var f := KeepDigitsAndDots(number);
      '.' !in f <==> AllDigits(f)
    ensures var f := KeepDigitsAndDots(number);
      ParseNumber(number).Ok? <==> f != [] && AllDigits(f) && DecimalValue(f) <= LongMax
    ensures var f := KeepDigitsAndDots(number);
      ParseNumber(number).Ok? ==> AllDigits(f) && ParseNumber(number).value == DecimalValue(f)
    ensures ParseNumber(number).Ok? ==> ParseNumber(number).value >= 0
    ensures ParseNumber(number).Thrown? ==> ParseNumber(number).failure == NumberFormat
  {
    var f := KeepDigitsAndDots(number);
    KeepMembers(number);
    if f != [] {
      assert Kept(f[0]);
      if '.' !in f {
        assert AllDigits(f);
      } else {
        var i :| 0 <= i < |f| && f[i] == '.';
        assert !AllDigits(f) by { assert !IsDigit(f[i]); }
        if f[0] != '-' && f[0] != '+' {
        }
      }
    }
  }

  /** Any text with at most eighteen digits and no dot parses. */
  lemma ShortNumbersParse(number: string)
    requires var f := KeepDigitsAndDots(number); 0 < |f| <= 18 && '.' !in f
    ensures ParseNumber(number).Ok?
  {
    var f := KeepDigitsAndDots(number);
    ParseNumberOutcome(number);
    KeepMembers(number);
    assert AllDigits(f) by {
      forall i | 0 <= i < |f| ensures IsDigit(f[i]) { assert Kept(f[i]) && f[i] in f; }
    }
    DecimalValueBound(f);
    Pow10Monotone(|f|, 18);
    Pow10Eighteen();
  }

  lemma Pow10Eighteen()
    ensures Pow10(18) == 1_000_000_000_000_000_000
  {
    assert Pow10(3) == 1000;
    assert Pow10(6) == 1000 * Pow10(3) by { assert Pow10(6) == 1000 * Pow10(3); }
    assert Pow10(9) == 1000 * Pow10(6);
    assert Pow10(12) == 1000 * Pow10(9);
    assert Pow10(15) == 1000 * Pow10(12);
    assert Pow10(18) == 1000 * Pow10(15);
  }

  lemma {:induction false} Pow10Monotone(m: nat, n: nat)
    requires m <= n
    ensures Pow10(m) <= Pow10(n)
    decreases n
  {
    if m < n { Pow10Monotone(m, n - 1); }
  }

  /** The budget format the scraped movies use: a dollar sign and thousands separators. */
  lemma BudgetExample(budget: string)
    requires budget == "$313,837,577"
    ensures ParseNumber(budget) == Ok(313837577)
  {
    BudgetCleaned(budget);
    BudgetValue();
    ParseNumberOutcome(budget);
  }

  lemma BudgetCleaned(budget: string)
    requires budget == "$313,837,577"
    ensures KeepDigitsAndDots(budget) == "313837577"
  {
    var g1, g2, g3 := budget[..4], budget[4..8], budget[8..];
    KeepGroup(g1);
    KeepGroup(g2);
    KeepGroup(g3);
    assert budget == g1 + g2 + g3;
    KeepAppend(g1, g2);
    KeepAppend(g1 + g2, g3);
  }

  /** A separator followed by three digits leaves the three digits. */
  lemma KeepGroup(g: string)
    requires |g| == 4 && !Kept(g[0]) && IsDigit(g[1]) && IsDigit(g[2]) && IsDigit(g[3])
    ensures KeepDigitsAndDots(g) == g[1..]
  {
    KeepAllKept(g[1..]);
  }

  /** One more character: kept at the end, or dropped. */
  lemma KeepSnoc(a: string, c: char)
    ensures KeepDigitsAndDots(a + [c]) == KeepDigitsAndDots(a) + (if Kept(c) then [c] else [])
  {
    KeepAppend(a, [c]);
    assert [c][1..] == [];
  }

  /** One more digit: the value shifts one place and the digit is added. */
  lemma DecimalAppend(a: string, c: char)
    requires AllDigits(a) && IsDigit(c)
    ensures AllDigits(a + [c]) && DecimalValue(a + [c]) == DecimalValue(a) * 10 + (c as int - '0' as int)
  {
    assert (a + [c])[..|a|] == a;
  }

  lemma BudgetValue()
    ensures AllDigits("313837577") && DecimalValue("313837577") == 313837577
  {
    var f := "";
    DecimalAppend(f, '3'); f := f + ['3'];
    DecimalAppend(f, '1'); f := f + ['1'];
    DecimalAppend(f, '3'); f := f + ['3'];
    DecimalAppend(f, '8'); f := f + ['8'];
    DecimalAppend(f, '3'); f := f + ['3'];
    DecimalAppend(f, '7'); f := f + ['7'];
    DecimalAppend(f, '5'); f := f + ['5'];
    DecimalAppend(f, '7'); f := f + ['7'];
    DecimalAppend(f, '7'); f := f + ['7'];
    assert f == "313837577";
  }

  /** A decimal point is not accepted, and neither is text without digits. */
  lemma RejectedExamples()
    ensures ParseNumber("8.5") == Thrown(NumberFormat)
    ensures ParseNumber("n/a") == Thrown(NumberFormat)
  {
    var s := "";
    KeepSnoc(s, '8'); s := s + ['8'];
    KeepSnoc(s, '.'); s := s + ['.'];
    KeepSnoc(s, '5'); s := s + ['5'];
    assert s == "8.5" && KeepDigitsAndDots(s)[1] == '.';
    s := "";
    KeepSnoc(s, 'n'); s := s + ['n'];
    KeepSnoc(s, '/'); s := s + ['/'];
    KeepSnoc(s, 'a'); s := s + ['a'];
    assert s == "n/a" && KeepDigitsAndDots(s) == "";
  }
}
