/** Exclusive or of unsigned numbers, bit by bit. */
module BitXor {

  const WIDTH: nat := 32

  function Pow2(k: nat): nat { if k == 0 then 1 else 2 * Pow2(k - 1) }

  predicate UInt32(x: int) { 0 <= x < 0x1_0000_0000 }

  function Xor(a: nat, b: nat, k: nat): nat
    decreases k
  {
    if k == 0 then 0 else 2 * Xor(a / 2, b / 2, k - 1) + (a % 2 + b % 2) % 2
  }

  lemma {:induction false} XorBelow(a: nat, b: nat, k: nat)
    ensures Xor(a, b, k) < Pow2(k)
    decreases k
  {
    if k > 0 { XorBelow(a / 2, b / 2, k - 1); }
  }

  lemma {:induction false} XorCommutes(a: nat, b: nat, k: nat)
    ensures Xor(a, b, k) == Xor(b, a, k)
    decreases k
  {
    if k > 0 { XorCommutes(a / 2, b / 2, k - 1); }
  }

  lemma Halves(y: nat, low: nat)
    requires low < 2
    ensures (2 * y + low) / 2 == y && (2 * y + low) % 2 == low
  {
  }

  lemma LowBits(x: nat, y: nat)
    requires x < 2 && y < 2
    ensures ((x + y) % 2 + y) % 2 == x
  {
  }

  lemma {:induction false} XorUndone(a: nat, b: nat, k: nat)
    requires a < Pow2(k)
    ensures Xor(Xor(a, b, k), b, k) == a
    decreases k
  {
    if k > 0 {
      XorUndone(a / 2, b / 2, k - 1);
      LowBits(a % 2, b % 2);
      Halves(Xor(a / 2, b / 2, k - 1), (a % 2 + b % 2) % 2);
    }
  }

  lemma Pow2Width()
    ensures Pow2(WIDTH) == 0x1_0000_0000
  {
    assert Pow2(8) == 0x100;
    assert Pow2(16) == 0x1_0000;
    assert Pow2(24) == 0x100_0000;
  }

  function Xor32(a: int, b: int): (r: int)
    requires UInt32(a) && UInt32(b)
    ensures UInt32(r)
  {
    Pow2Width();
    XorBelow(a, b, WIDTH);
    Xor(a, b, WIDTH)
  }

  lemma XorSolves(a: int, b: int, c: int)
    requires UInt32(a) && UInt32(b) && UInt32(c)
    ensures Xor32(a, b) == c <==> a == Xor32(b, c)
  {
    Pow2Width();
    XorUndone(a, b, WIDTH);
    XorUndone(c, b, WIDTH);
    XorCommutes(b, c, WIDTH);
  }
}
