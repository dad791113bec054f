/** Go's `^` on `uint64` values, stated on naturals: bitwise exclusive or
    of the binary expansions. Hash keys and hashes are naturals below
    2^64; the group laws proved here are all the hashing proofs use. */
module Bitwise {
  /** A value a `uint64` can hold: below 2^64. */
  predicate IsWord(x: nat) {
    x < Pow2(64)
  }

  /** Bitwise exclusive or: the lowest bits are compared, the rest recurse. */
  function Xor(a: nat, b: nat): nat
    decreases a + b
  {
    if a == 0 then b
    else if b == 0 then a
    else 2 * Xor(a / 2, b / 2) + (if a % 2 == b % 2 then 0 else 1)
  }

  /** The lowest bit of the result and the remaining bits. */
  lemma XorBits(a: nat, b: nat)
    ensures Xor(a, b) % 2 == (if a % 2 == b % 2 then 0 else 1)
    ensures Xor(a, b) / 2 == Xor(a / 2, b / 2)
  {
    if a == 0 {
      assert Xor(a, b) == b && Xor(a / 2, b / 2) == b / 2;
    } else if b == 0 {
      assert Xor(a, b) == a && Xor(a / 2, b / 2) == a / 2;
    } else {
      var bit := if a % 2 == b % 2 then 0 else 1;
      assert Xor(a, b) == 2 * Xor(a / 2, b / 2) + bit;
      Halves(Xor(a / 2, b / 2), bit);
    }
  }

  /** Twice a number plus a bit splits back into the bit and the number. */
  lemma Halves(r: nat, bit: nat)
    requires bit < 2
    ensures (2 * r + bit) % 2 == bit && (2 * r + bit) / 2 == r
  {
  }

  /** A natural is determined by its lowest bit and the remaining bits. */
  lemma BitsDetermine(x: nat, y: nat)
    requires x % 2 == y % 2 && x / 2 == y / 2
    ensures x == y
  {
  }

  lemma XorZero(a: nat)
    ensures Xor(a, 0) == a && Xor(0, a) == a
  {
  }

  lemma {:induction false} XorSelf(a: nat)
    ensures Xor(a, a) == 0
    decreases a
  {
    if a != 0 {
      XorSelf(a / 2);
      XorBits(a, a);
      BitsDetermine(Xor(a, a), 0);
    }
  }

  lemma {:induction false} XorComm(a: nat, b: nat)
    ensures Xor(a, b) == Xor(b, a)
    decreases a + b
  {
    if a != 0 && b != 0 {
      XorComm(a / 2, b / 2);
      XorBits(a, b);
      XorBits(b, a);
      BitsDetermine(Xor(a, b), Xor(b, a));
    }
  }

  lemma {:induction false} XorAssoc(a: nat, b: nat, c: nat)
    ensures Xor(Xor(a, b), c) == Xor(a, Xor(b, c))
    decreases a + b + c
  {
    if a + b + c != 0 {
      XorAssoc(a / 2, b / 2, c / 2);
      XorBits(a, b);
      XorBits(Xor(a, b), c);
      XorBits(b, c);
      XorBits(a, Xor(b, c));
      BitsDetermine(Xor(Xor(a, b), c), Xor(a, Xor(b, c)));
    }
  }

  function Pow2(k: nat): nat {
    if k == 0 then 1 else 2 * Pow2(k - 1)
  }

  lemma {:induction false} XorBelow(a: nat, b: nat, k: nat)
    requires a < Pow2(k) && b < Pow2(k)
    ensures Xor(a, b) < Pow2(k)
  {
    if k > 0 {
      XorBelow(a / 2, b / 2, k - 1);
      XorBits(a, b);
    }
  }

  /** The exclusive or of two 64-bit words is a 64-bit word. */
  lemma XorWord(a: nat, b: nat)
    requires IsWord(a) && IsWord(b)
    ensures IsWord(Xor(a, b))
  {
    XorBelow(a, b, 64);
  }

  /** Toggling the same value twice is the identity. */
  lemma XorCancel(a: nat, b: nat)
    ensures Xor(Xor(a, b), b) == a
  {
    XorAssoc(a, b, b);
    XorSelf(b);
    XorZero(a);
  }

  /** Two toggles commute. */
  lemma XorSwap(a: nat, b: nat, c: nat)
    ensures Xor(Xor(a, b), c) == Xor(Xor(a, c), b)
  {
    XorAssoc(a, b, c);
    XorComm(b, c);
    XorAssoc(a, c, b);
  }

  /** A value equals itself toggled by `t` exactly when `t` is zero. */
  lemma XorUnchanged(a: nat, t: nat)
    ensures Xor(a, t) == a <==> t == 0
  {
    XorZero(a);
    if Xor(a, t) == a {
      XorAssoc(a, a, t);
      XorSelf(a);
      XorZero(t);
    }
  }

  /** Replacing a toggled `x` by `v`. */
  lemma XorReplace(g: nat, x: nat, v: nat)
    ensures Xor(Xor(g, x), Xor(x, v)) == Xor(g, v)
  {
    XorAssoc(Xor(g, x), x, v);
    XorCancel(g, x);
  }

  /** Four successive toggles amount to one toggle by their combination. */
  lemma XorChain(h: nat, a: nat, b: nat, c: nat, d: nat)
    ensures Xor(Xor(Xor(Xor(h, a), b), c), d) == Xor(h, Xor(Xor(Xor(a, b), c), d))
  {
    XorAssoc(h, a, b);
    XorAssoc(h, Xor(a, b), c);
    XorAssoc(h, Xor(Xor(a, b), c), d);
  }
}
