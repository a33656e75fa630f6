/** Go's 64-bit `int`, decimal rendering of identifiers, and `strconv.Atoi`. */
module Numbers {
  import opened Errors

  const MinInt64: int := -0x8000_0000_0000_0000
  const MaxInt64: int := 0x7fff_ffff_ffff_ffff
  const TwoTo64: int := 0x1_0000_0000_0000_0000

  predicate IsInt64(x: int) { MinInt64 <= x <= MaxInt64 }

  /** Two's-complement wrap-around of Go's `int` arithmetic on a 64-bit
      target: the unique int64 congruent to `x` modulo 2^64. */
  function WrapInt64(x: int): (r: int)
    ensures IsInt64(r)
    ensures (x - r) % TwoTo64 == 0
    ensures IsInt64(x) ==> r == x
  {
    (x - MinInt64) % TwoTo64 + MinInt64
  }

  predicate IsDigit(c: char) { '0' <= c <= '9' }

  predicate AllDigits(s: string) { forall i :: 0 <= i < |s| ==> IsDigit(s[i]) }

  function DigitValue(c: char): (d: nat)
    requires IsDigit(c)
    ensures d < 10
  {
    (c as int) - ('0' as int)
  }

  function DigitChar(d: nat): (c: char)
    requires d < 10
    ensures IsDigit(c) && DigitValue(c) == d
  {
    (('0' as int) + d) as char
  }

  /** The value of a string of decimal digits, most significant first. */
  function Value(s: string): nat
    requires AllDigits(s)
  {
    if s == [] then 0 else Value(s[..|s| - 1]) * 10 + DigitValue(s[|s| - 1])
  }

  /** The shortest decimal rendering of `n`. */
  function Render(n: nat): (r: string)
    ensures |r| >= 1 && AllDigits(r)
  {
    if n < 10 then [DigitChar(n)] else Render(n / 10) + [DigitChar(n % 10)]
  }

  lemma {:induction false} ValueOfRender(n: nat)
    ensures Value(Render(n)) == n
  {
    var r := Render(n);
    if n >= 10 {
      ValueOfRender(n / 10);
      assert r[..|r| - 1] == Render(n / 10);
    }
  }

  /** Distinct numbers render to distinct strings. */
  lemma RenderInjective(a: nat, b: nat)
    requires Render(a) == Render(b)
    ensures a == b
  {
    ValueOfRender(a);
    ValueOfRender(b);
  }

  /** The decimal text of an integer, with a '-' for negatives. */
  function Decimal(n: int): string
  {
    if n >= 0 then Render(n) else "-" + Render(-n)
  }

  /** `strconv.Atoi` in base 10: an optional '+' or '-', then one or more
      ASCII digits, and the value must fit in 64 bits; anything else is an
      error (`None`). Spaces, underscores and base prefixes are rejected. */
  function Atoi(s: string): Option<int>
  {
    if |s| == 0 then None
    else
      var digits := if s[0] == '+' || s[0] == '-' then s[1..] else s;
      if |digits| == 0 || !AllDigits(digits) then None
      else
        var v: int := if s[0] == '-' then 0 - (Value(digits) as int) else Value(digits);
        if IsInt64(v) then Some(v) else None
  }

  /** Every int64 survives rendering and parsing back. */
  lemma AtoiOfRender(n: int)
    requires IsInt64(n)
    ensures n >= 0 ==> Atoi(Render(n)) == Some(n)
    ensures n < 0 ==> Atoi("-" + Render(-n)) == Some(n)
  {
    if n >= 0 {
      ValueOfRender(n);
    } else {
      ValueOfRender(-n);
      assert ("-" + Render(-n))[1..] == Render(-n);
    }
  }

  /** A character other than a digit anywhere after the first position, or
      a first character that is neither a digit nor a sign, makes Atoi fail. */
  lemma AtoiRejectsNonDigits(s: string, i: nat)
    requires i < |s| && !IsDigit(s[i])
    requires i > 0 || (s[0] != '+' && s[0] != '-')
    ensures Atoi(s) == None
  {
    if s[0] == '+' || s[0] == '-' {
      assert s[1..][i - 1] == s[i];
    }
  }

  /** Decimal strings beyond the int64 range are rejected, not clamped. */
  lemma AtoiRejectsOverflow(s: string)
    requires |s| > 0 && AllDigits(s) && Value(s) > MaxInt64
    ensures Atoi(s) == None
  {
  }
}
