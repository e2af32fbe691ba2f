/** Single-bit operations on unsigned words, written on the integers they denote. */
module Bits {

  /** Whether bit k of w is one; bit 0 is the least significant. */
  predicate Bit(w: nat, k: nat)
    decreases k
  {
    if k == 0 then w % 2 == 1 else Bit(w / 2, k - 1)
  }

  /** w | (1 << k) */
  function SetBit(w: nat, k: nat): nat
    decreases k
  {
    if k == 0 then (if w % 2 == 1 then w else w + 1)
    else 2 * SetBit(w / 2, k - 1) + w % 2
  }

  /** w & ~(1 << k) */
  function ClearBit(w: nat, k: nat): nat
    decreases k
  {
    if k == 0 then (if w % 2 == 1 then w - 1 else w)
    else 2 * ClearBit(w / 2, k - 1) + w % 2
  }

  function Pow2(n: nat): (p: nat)
    ensures 1 <= p
  {
    if n == 0 then 1 else 2 * Pow2(n - 1)
  }

  /** The bits above bit k, bit k, and those below it. */
  lemma {:induction false} AroundBit(w: nat, k: nat) returns (high: nat, low: nat)
    ensures low < Pow2(k) && w == Pow2(k) * (2 * high + if Bit(w, k) then 1 else 0) + low
    decreases k
  {
    if k == 0 {
      high, low := w / 2, 0;
    } else {
      high, low := AroundBit(w / 2, k - 1);
      Regroup(Pow2(k - 1), 2 * high + if Bit(w, k) then 1 else 0);
      low := 2 * low + w % 2;
    }
  }

  lemma Regroup(p: int, x: int)
    ensures 2 * p * x == 2 * (p * x)
  {
  }

  /** Bit k is the coefficient of 2 to the power of k. */
  lemma BitIs(w: nat, k: nat)
    ensures Bit(w, k) <==> w / Pow2(k) % 2 == 1
  {
    hide Bit, Pow2;
    var high, low := AroundBit(w, k);
    DivideSum(Pow2(k), 2 * high + if Bit(w, k) then 1 else 0, low);
  }

  /** Quotient and remainder are unique. */
  lemma Quotient(p: int, q: int, rest: int, d: int, other: int)
    requires 0 <= rest < p && 0 <= other < p && p * q + rest == p * d + other
    ensures q == d
  {
    Factor(p, q, d);
    Small(p, q - d);
  }

  lemma Factor(p: int, q: int, d: int)
    ensures p * (q - d) == p * q - p * d
  {
  }

  lemma Small(p: int, x: int)
    requires -p < p * x < p
    ensures x == 0
  {
    assert x >= 1 ==> p * x >= p;
    assert x <= -1 ==> p * x <= -p;
  }

  lemma DivideSum(p: nat, q: nat, rest: nat)
    requires rest < p
    ensures (p * q + rest) / p == q
  {
    var d := (p * q + rest) / p;
    Quotient(p, q, rest, d, (p * q + rest) % p);
  }

  lemma {:induction false} SetBitSets(w: nat, k: nat, j: nat)
    ensures Bit(SetBit(w, k), j) <==> j == k || Bit(w, j)
    decreases k
  {
    if k > 0 && j > 0 {
      SetBitSets(w / 2, k - 1, j - 1);
      assert SetBit(w, k) / 2 == SetBit(w / 2, k - 1);
    }
  }

  lemma {:induction false} ClearBitClears(w: nat, k: nat, j: nat)
    ensures Bit(ClearBit(w, k), j) <==> j != k && Bit(w, j)
    decreases k
  {
    if k > 0 && j > 0 {
      ClearBitClears(w / 2, k - 1, j - 1);
      assert ClearBit(w, k) / 2 == ClearBit(w / 2, k - 1);
    }
  }

  /** Setting or clearing a bit of an n-bit word leaves an n-bit word. */
  lemma {:induction false} StaysInWord(w: nat, k: nat, n: nat)
    requires w < Pow2(n) && k < n
    ensures SetBit(w, k) < Pow2(n) && ClearBit(w, k) < Pow2(n)
    decreases k
  {
    if k > 0 {
      StaysInWord(w / 2, k - 1, n - 1);
    }
  }

  /** A word other than 2^n - 1 has a clear bit below n; 2^n - 1 has none. */
  lemma {:induction false} AllOnes(w: nat, n: nat, k: nat)
    requires w == Pow2(n) - 1 && k < n
    ensures Bit(w, k)
    decreases n
  {
    var half := Pow2(n - 1) - 1;
    assert w == 2 * half + 1 && w / 2 == half && w % 2 == 1;
    if k > 0 {
      AllOnes(w / 2, n - 1, k - 1);
    }
  }

  lemma {:induction false} NotAllOnes(w: nat, n: nat) returns (k: nat)
    requires w < Pow2(n) - 1
    ensures k < n && !Bit(w, k)
    decreases n
  {
    if w % 2 == 0 {
      k := 0;
    } else {
      k := NotAllOnes(w / 2, n - 1);
      k := k + 1;
    }
  }

  lemma {:induction false} SetBitAgain(w: nat, k: nat)
    requires Bit(w, k)
    ensures SetBit(w, k) == w
    decreases k
  {
    if k > 0 { SetBitAgain(w / 2, k - 1); }
  }

  lemma {:induction false} ZeroHasNoBits(k: nat)
    ensures !Bit(0, k)
    decreases k
  {
    if k > 0 { ZeroHasNoBits(k - 1); }
  }
}
