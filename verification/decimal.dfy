/** Decimal digits: rendering a number zero-padded to a minimum width (`%0wd`, and the
    digit fields of a date-time pattern) and reading a run of digits back as a number. */
module Decimal {

  predicate IsDigit(c: char) {
    '0' <= c <= '9'
  }

  predicate AllDigits(s: string) {
    forall i :: 0 <= i < |s| ==> IsDigit(s[i])
  }

  function DigitChar(d: nat): (c: char)
    requires d < 10
    ensures IsDigit(c)
  {
    ('0' as int + d) as char
  }

  function DigitValue(c: char): (d: nat)
    requires IsDigit(c)
    ensures d < 10
  {
    c as int - '0' as int
  }

  function Pow10(k: nat): (p: nat)
    ensures p >= 1
  {
    if k == 0 then 1 else 10 * Pow10(k - 1)
  }

  /** The number a digit string denotes; leading zeros add nothing. */
  function ValueOf(s: string): nat
    requires AllDigits(s)
  {
    if |s| == 0 then 0 else 10 * ValueOf(s[..|s| - 1]) + DigitValue(s[|s| - 1])
  }

  /** A string of k digits denotes a number below 10^k. */
  lemma {:induction false} ValueOfBound(s: string)
    requires AllDigits(s)
    ensures ValueOf(s) < Pow10(|s|)
  {
    if |s| > 0 {
      ValueOfBound(s[..|s| - 1]);
    }
  }

  /** `n` in decimal, left-padded with zeros to at least `width` characters, the way
      `%0<width>d` and a `width`-letter pattern field print it. */
  function Render(n: nat, width: nat): (r: string)
    ensures AllDigits(r)
    ensures |r| >= width && |r| >= 1
    decreases n, width
  {
    var w := if width == 0 then 0 else width - 1;
    if n < 10 && width <= 1 then [DigitChar(n)]
    else Render(n / 10, w) + [DigitChar(n % 10)]
  }

  /** Reading a rendered number gives the number back. */
  lemma {:induction false} ValueOfRender(n: nat, width: nat)
    ensures ValueOf(Render(n, width)) == n
    decreases n, width
  {
    var w := if width == 0 then 0 else width - 1;
    if !(n < 10 && width <= 1) {
      var r := Render(n, width);
      ValueOfRender(n / 10, w);
      assert r[..|r| - 1] == Render(n / 10, w);
    }
  }

  lemma DigitCharOfValue(c: char)
    requires IsDigit(c)
    ensures DigitChar(DigitValue(c)) == c
  {
  }

  /** A run of digits is the rendering of its value at its own length, leading zeros
      included: the inverse direction of `ValueOfRender`. */
  lemma {:induction false} RenderValueOf(s: string)
    requires AllDigits(s) && |s| >= 1
    ensures Render(ValueOf(s), |s|) == s
    decreases |s|
  {
    var init := s[..|s| - 1];
    var c := s[|s| - 1];
    var n := ValueOf(s);
    DigitCharOfValue(c);
    assert s == init + [c];
    if |s| == 1 {
      assert init == [];
    } else {
      RenderValueOf(init);
      assert n / 10 == ValueOf(init) && n % 10 == DigitValue(c);
    }
  }

  /** A number below 10^k rendered at width at most k takes at most k characters. */
  lemma {:induction false} RenderLength(n: nat, width: nat, k: nat)
    requires 1 <= k && n < Pow10(k) && width <= k
    ensures |Render(n, width)| <= k
    decreases n, width
  {
    var w := if width == 0 then 0 else width - 1;
    if !(n < 10 && width <= 1) {
      RenderLength(n / 10, w, k - 1);
    }
  }

  /** The cases the mappers need: `%02d` of an hour is exactly two digits, and so on. */
  lemma RenderWidths(n: nat, width: nat)
    ensures n < 10 && width <= 1 ==> |Render(n, width)| == 1
    ensures n < 100 && 1 <= width <= 2 ==> 1 <= |Render(n, width)| <= 2
    ensures n < 100 && width == 2 ==> |Render(n, width)| == 2
    ensures n < 10000 && width == 4 ==> |Render(n, width)| == 4
  {
    if n < 10 && width <= 1 {
      RenderLength(n, width, 1);
    }
    if n < 100 && width <= 2 {
      RenderLength(n, width, 2);
    }
    if n < 10000 && width == 4 {
      RenderLength(n, width, 4);
    }
  }
}
