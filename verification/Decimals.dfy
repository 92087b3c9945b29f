/** Decimal numerals, as template strings print them. */
module Decimals {

  function Digit(d: nat): char
    requires d < 10
  {
    (d + 48) as char
  }

  predicate IsDigit(c: char) {
    '0' <= c <= '9'
  }

  function Decimal(n: nat): (s: string)
    ensures s != [] && forall i | 0 <= i < |s| :: IsDigit(s[i])
  {
    if n < 10 then [Digit(n)] else Decimal(n / 10) + [Digit(n % 10)]
  }

  lemma {:induction false} DecimalInjective(a: nat, b: nat)
    requires Decimal(a) == Decimal(b)
    ensures a == b
  {
    var x, y := Decimal(a), Decimal(b);
    assert x[|x| - 1] == y[|y| - 1];
    if a >= 10 && b >= 10 {
      assert x[..|x| - 1] == Decimal(a / 10) && y[..|y| - 1] == Decimal(b / 10);
      DecimalInjective(a / 10, b / 10);
    }
  }

  /** `t` is what is left of `u` after dropping some of its trailing digits, possibly none, but not all. */
  predicate DropsTo(u: nat, t: nat) {
    u == t || (u >= 10 && DropsTo(u / 10, t))
  }

  lemma {:induction false} DecimalPrefixIff(t: nat, u: nat)
    ensures Decimal(t) <= Decimal(u) <==> DropsTo(u, t)
  {
    var x, y := Decimal(t), Decimal(u);
    if x == y {
      DecimalInjective(t, u);
    } else if u >= 10 {
      DecimalPrefixIff(t, u / 10);
      assert y == Decimal(u / 10) + [Digit(u % 10)];
      if x <= y {
        assert x == y[..|x|];
        assert |x| < |y|;
        assert Decimal(u / 10)[..|x|] == y[..|x|];
      }
    }
  }

  lemma {:induction false} DroppingShrinks(u: nat, t: nat)
    requires DropsTo(u, t) && u != t
    ensures 0 < t && 10 * t <= u
  {
    if u / 10 != t {
      DroppingShrinks(u / 10, t);
    }
  }
}
