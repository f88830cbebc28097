// Exclusive-or on non-negative machine integers, and the facts the
// double-array trie relies on: every "base ^ label" is undone by xor-ing again,
// and xor with a byte never leaves the 256-slot block of its first operand.
module Bits {

  type byte = b: int | 0 <= b < 256

  function Xor(a: nat, b: nat): nat
  {
    if a == 0 && b == 0 then 0
    else 2 * Xor(a / 2, b / 2) + (if a % 2 == b % 2 then 0 else 1)
  }

  lemma {:induction false} XorComm(a: nat, b: nat)
    ensures Xor(a, b) == Xor(b, a)
  {
    if a == 0 && b == 0 {
    } else {
      XorComm(a / 2, b / 2);
    }
  }

  lemma {:induction false} XorZero(a: nat)
    ensures Xor(a, 0) == a && Xor(0, a) == a
  {
    if a == 0 {
    } else {
      XorZero(a / 2);
    }
  }

  lemma {:induction false} XorCancel(a: nat, b: nat)
    ensures Xor(a, Xor(a, b)) == b
  {
    if a == 0 && b == 0 {
    } else {
      XorCancel(a / 2, b / 2);
      assert Xor(a, b) / 2 == Xor(a / 2, b / 2);
    }
  }

  // Both operands of a xor are determined by the result and the other operand.
  lemma XorUndo(a: nat, b: nat)
    ensures Xor(a, Xor(a, b)) == b && Xor(Xor(a, b), b) == a && Xor(b, Xor(a, b)) == a
  {
    XorCancel(a, b);
    XorCancel(b, a);
    XorComm(a, b);
    XorComm(Xor(a, b), b);
  }

  function Shr(a: nat, k: nat): nat
  {
    if k == 0 then a else Shr(a / 2, k - 1)
  }

  lemma Shr8(a: nat)
    ensures Shr(a, 8) == a / 256
  {
    Shr2(a, 6);
    Shr2(a / 4, 4);
    Shr2(a / 4 / 4, 2);
    Shr2(a / 4 / 4 / 4, 0);
  }

  lemma Shr2(a: nat, k: nat)
    ensures Shr(a, k + 2) == Shr(a / 4, k)
  {
    assert Shr(a, k + 2) == Shr(a / 2, k + 1) == Shr(a / 2 / 2, k);
  }

  lemma {:induction false} ShrXor(a: nat, b: nat, k: nat)
    ensures Shr(Xor(a, b), k) == Xor(Shr(a, k), Shr(b, k))
  {
    if k > 0 {
      ShrXor(a / 2, b / 2, k - 1);
      assert Xor(a, b) / 2 == Xor(a / 2, b / 2);
    }
  }

  // Xor with a byte stays inside the 256-slot block.
  lemma XorSameBlock(a: nat, l: byte)
    ensures Xor(a, l) / 256 == a / 256
  {
    ShrXor(a, l, 8);
    Shr8(a);
    Shr8(l);
    Shr8(Xor(a, l));
    XorZero(a / 256);
  }

  lemma {:induction false} XorSelf(a: nat)
    ensures Xor(a, a) == 0
  {
    if a == 0 {
    } else {
      XorSelf(a / 2);
    }
  }

  // All that the trie needs to know about a slot "base ^ label".
  lemma SlotXor(a: nat, l: byte)
    ensures Xor(a, l) / 256 == a / 256
    ensures Xor(Xor(a, l), l) == a && Xor(a, Xor(a, l)) == l
  {
    XorSameBlock(a, l);
    XorUndo(a, l);
  }
}
