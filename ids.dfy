/** The template literals `d${id}`, `r${routeId}` and `a${idCounter}` that name entities. */
module Ids {

  function DigitChar(d: nat): char
    requires d < 10
  {
    "0123456789"[d]
  }

  /** The decimal numeral of `n`, as JavaScript prints a non-negative integer. */
  function NatToString(n: nat): (s: string)
    ensures |s| > 0
    ensures forall i :: 0 <= i < |s| ==> '0' <= s[i] <= '9'
    ensures n < 10 <==> |s| == 1
    decreases n
  {
    if n < 10 then [DigitChar(n)] else NatToString(n / 10) + [DigitChar(n % 10)]
  }

  /** Distinct numbers print as distinct numerals. */
  lemma {:induction false} NatToStringInjective(m: nat, n: nat)
    requires NatToString(m) == NatToString(n)
    ensures m == n
    decreases m
  {
    var s, t := NatToString(m), NatToString(n);
    assert (m < 10) == (n < 10);
    if m < 10 {
      assert s[0] == DigitChar(m) && t[0] == DigitChar(n);
      DigitCharInjective(m, n);
    } else {
      var sm, tn := NatToString(m / 10), NatToString(n / 10);
      assert s == sm + [DigitChar(m % 10)] && t == tn + [DigitChar(n % 10)];
      assert s[|s| - 1] == DigitChar(m % 10) && t[|t| - 1] == DigitChar(n % 10);
      DigitCharInjective(m % 10, n % 10);
      assert sm == s[..|s| - 1] && tn == t[..|t| - 1];
      NatToStringInjective(m / 10, n / 10);
      DivMod(m);
      DivMod(n);
    }
  }

  lemma DigitCharInjective(a: nat, b: nat)
    requires a < 10 && b < 10 && DigitChar(a) == DigitChar(b)
    ensures a == b
  {
  }

  lemma DivMod(m: nat)
    ensures m == (m / 10) * 10 + m % 10
  {
  }

  /** An entity identifier: a one-letter prefix followed by a counter value. */
  function Tagged(prefix: char, n: nat): (s: string)
    ensures |s| >= 2 && s[0] == prefix
  {
    [prefix] + NatToString(n)
  }

  /** Identifiers with the same prefix and different counters differ. */
  lemma TaggedInjective(prefix: char, m: nat, n: nat)
    requires Tagged(prefix, m) == Tagged(prefix, n)
    ensures m == n
  {
    assert Tagged(prefix, m)[1..] == NatToString(m);
    assert Tagged(prefix, n)[1..] == NatToString(n);
    NatToStringInjective(m, n);
  }
}
