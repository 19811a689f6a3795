/** Powers of two, exclusive or on natural numbers, and multiples. */
module Bits {

  function Pow2(n: nat): (p: nat)
    ensures p > 0
  {
    if n == 0 then 1 else 2 * Pow2(n - 1)
  }

  /** Bitwise exclusive or, bit by bit from the lowest. */
  function Xor(a: nat, b: nat): nat
    decreases a
  {
    if a == 0 then b
    else if b == 0 then a
    else 2 * Xor(a / 2, b / 2) + if a % 2 == b % 2 then 0 else 1
  }

  /** `a` is a multiple of `s`; see MultipleMeansDivisible. */
  predicate Multiple(s: nat, a: nat)
    requires s > 0
    decreases a
  {
    a == 0 || (s <= a && Multiple(s, a - s))
  }

  lemma {:induction false} MultipleMeansDivisible(s: nat, a: nat)
    requires s > 0
    ensures Multiple(s, a) <==> a % s == 0
  {
    if s <= a {
      MultipleMeansDivisible(s, a - s);
      RemainderStep(s, a);
    }
  }

  lemma RemainderStep(s: nat, a: nat)
    requires 0 < s <= a
    ensures a % s == (a - s) % s
  {
    var p, r := (a - s) / s, (a - s) % s;
    assert s * (p + 1) == s * p + s;
    UniqueRemainder(s, a / s, a % s, p + 1, r);
  }

  lemma UniqueRemainder(s: nat, p: nat, q: nat, p': nat, q': nat)
    requires q < s && q' < s && s * p + q == s * p' + q'
    ensures q == q'
  {
    if p < p' {
      MultipleGap(s, p, p');
    } else if p' < p {
      MultipleGap(s, p', p);
    }
  }

  lemma MultipleGap(s: nat, p: nat, q: nat)
    requires p < q
    ensures s * p + s <= s * q
  {
    assert s * q == s * p + s * (q - p);
    assert s * (q - p) == s + s * (q - p - 1);
  }

  lemma {:induction false} MultipleSum(s: nat, a: nat, b: nat)
    requires s > 0 && Multiple(s, a) && Multiple(s, b)
    ensures Multiple(s, a + b)
    decreases a
  {
    if a != 0 {
      MultipleSum(s, a - s, b);
    }
  }

  lemma {:induction false} MultipleDifference(s: nat, a: nat, b: nat)
    requires s > 0 && Multiple(s, a) && Multiple(s, b) && a <= b
    ensures Multiple(s, b - a)
    decreases a
  {
    if a != 0 {
      MultipleDifference(s, a - s, b - s);
    }
  }

  /** Distinct multiples of s lie at least s apart. */
  lemma MultiplesApart(s: nat, a: nat, b: nat)
    requires s > 0 && Multiple(s, a) && Multiple(s, b) && a < b
    ensures a + s <= b
  {
    MultipleDifference(s, a, b);
  }

  lemma {:induction false} MultipleOfMultiple(s: nat, t: nat, x: nat)
    requires s > 0 && t > 0 && Multiple(s, t) && Multiple(t, x)
    ensures Multiple(s, x)
    decreases x
  {
    if x != 0 {
      MultipleOfMultiple(s, t, x - t);
      MultipleSum(s, t, x - t);
    }
  }

  lemma {:induction false} MultipleHalves(s: nat, a: nat)
    requires s > 0
    ensures Multiple(2 * s, a) <==> a % 2 == 0 && Multiple(s, a / 2)
    decreases a
  {
    if 2 * s <= a {
      MultipleHalves(s, a - 2 * s);
      assert (a - 2 * s) / 2 == a / 2 - s;
    }
  }

  /** Of two neighbouring multiples of s exactly one is a multiple of 2s. */
  lemma {:induction false} MultipleAlternates(s: nat, a: nat)
    requires s > 0 && Multiple(s, a)
    ensures Multiple(2 * s, a) <==> !Multiple(2 * s, a + s)
    ensures !Multiple(2 * s, a) ==> s <= a && Multiple(2 * s, a - s)
    decreases a
  {
    if a != 0 {
      MultipleAlternates(s, a - s);
    }
  }

  lemma {:induction false} AnyMultipleOfOne(a: nat)
    ensures Multiple(1, a)
  {
    if a != 0 {
      AnyMultipleOfOne(a - 1);
    }
  }

  lemma {:induction false} Pow2Divides(m: nat, n: nat)
    requires m <= n
    ensures Pow2(m) <= Pow2(n) && Multiple(Pow2(m), Pow2(n))
  {
    if m < n {
      Pow2Divides(m, n - 1);
      MultipleSum(Pow2(m), Pow2(n - 1), Pow2(n - 1));
    } else {
      assert Multiple(Pow2(m), 0);
    }
  }

  /** Flipping the bit of weight 2^n of a multiple of 2^n adds or subtracts 2^n. */
  lemma {:induction false} XorFlipsBit(a: nat, n: nat)
    requires Multiple(Pow2(n), a)
    ensures Xor(a, Pow2(n)) == if Multiple(2 * Pow2(n), a) then a + Pow2(n) else a - Pow2(n)
    decreases n
  {
    if n == 0 {
      AnyMultipleOfOne(a / 2);
      MultipleHalves(1, a);
    } else {
      var p := Pow2(n - 1);
      MultipleHalves(p, a);
      MultipleHalves(2 * p, a);
      XorFlipsBit(a / 2, n - 1);
      XorEven(a / 2, p);
    }
  }

  lemma XorEven(a: nat, b: nat)
    ensures Xor(2 * a, 2 * b) == 2 * Xor(a, b)
  {
  }

  lemma {:induction false} XorSelfInverse(a: nat, b: nat)
    ensures Xor(Xor(a, b), a) == b
    ensures Xor(a, Xor(a, b)) == b
    ensures Xor(a, b) == 0 <==> a == b
    decreases a
  {
    if a != 0 && b != 0 {
      XorSelfInverse(a / 2, b / 2);
    } else if b == 0 {
      XorOfSelf(a);
    }
  }

  lemma {:induction false} XorOfSelf(a: nat)
    ensures Xor(a, a) == 0
  {
    if a != 0 {
      XorOfSelf(a / 2);
    }
  }

  lemma {:induction false} XorBound(a: nat, b: nat, n: nat)
    requires a < Pow2(n) && b < Pow2(n)
    ensures Xor(a, b) < Pow2(n)
    decreases n
  {
    if n != 0 && a != 0 && b != 0 {
      XorBound(a / 2, b / 2, n - 1);
    }
  }

  /** Binary digit number l of v. */
  function Bit(v: nat, l: nat): nat {
    if l == 0 then v % 2 else Bit(v / 2, l - 1)
  }

  lemma {:induction false} ZeroBits(l: nat)
    ensures Bit(0, l) == 0
  {
    if l != 0 {
      ZeroBits(l - 1);
    }
  }

  /** A digit of the exclusive or is one where the digits differ. */
  lemma {:induction false} XorBits(a: nat, b: nat, l: nat)
    ensures Bit(Xor(a, b), l) == (Bit(a, l) + Bit(b, l)) % 2
    decreases l
  {
    ZeroBits(l);
    BitBound(a, l);
    BitBound(b, l);
    if a != 0 && b != 0 {
      var x := Xor(a / 2, b / 2);
      var d := if a % 2 == b % 2 then 0 else 1;
      assert (2 * x + d) / 2 == x && (2 * x + d) % 2 == d;
      if l > 0 {
        XorBits(a / 2, b / 2, l - 1);
      }
    }
  }

  lemma {:induction false} BitBound(v: nat, l: nat)
    ensures Bit(v, l) < 2
  {
    if l != 0 {
      BitBound(v / 2, l - 1);
    }
  }
}
