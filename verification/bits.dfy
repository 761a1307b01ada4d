/** Bitwise operations on words, and what each bit of a result is. */
module Bits {
  import opened Rv32Types
  import opened DivUnit

  datatype BitOp = OpAnd | OpOr | OpXor | OpAndNot

  predicate Combine(op: BitOp, x: bool, y: bool) {
    match op
    case OpAnd => x && y
    case OpOr => x || y
    case OpXor => x != y
    case OpAndNot => x && !y
  }

  /** The low `n` bits of two numbers combined, least significant first. */
  function Bitwise(op: BitOp, n: nat, a: nat, b: nat): (r: nat)
    ensures r < Pow2(n)
  {
    if n == 0 then 0
    else 2 * Bitwise(op, n - 1, a / 2, b / 2) + (if Combine(op, a % 2 == 1, b % 2 == 1) then 1 else 0)
  }

  function Word32(op: BitOp, a: Word, b: Word): Word {
    Pow2Values();
    Bitwise(op, 32, a, b)
  }

  function And32(a: Word, b: Word): Word { Word32(OpAnd, a, b) }
  function Or32(a: Word, b: Word): Word { Word32(OpOr, a, b) }
  function Xor32(a: Word, b: Word): Word { Word32(OpXor, a, b) }
  function AndNot32(a: Word, b: Word): Word { Word32(OpAndNot, a, b) }

  /** The `k`-th binary digit. */
  predicate BitAt(a: nat, k: nat) { a / Pow2(k) % 2 == 1 }

  lemma HalveFirst(a: nat, p: nat)
    requires p > 0
    ensures a / 2 / p == a / (2 * p)
  {
    var q, r := a / 2 / p, a / 2 % p;
    assert a / 2 == q * p + r;
    assert a == q * (2 * p) + (2 * r + a % 2);
    DivModUnique(a, 2 * p, q, 2 * r + a % 2);
  }

  /** Bit 0 is parity; the other bits are those of the half. */
  lemma BitShift(a: nat, k: nat)
    ensures BitAt(a, k) <==> if k == 0 then a % 2 == 1 else BitAt(a / 2, k - 1)
  {
    if k == 0 {
      assert a / 1 == a;
    } else {
      HalveFirst(a, Pow2(k - 1));
    }
  }

  /** A result's parity and half. */
  lemma BitwiseParts(op: BitOp, n: nat, a: nat, b: nat)
    requires n > 0
    ensures Bitwise(op, n, a, b) % 2 == 1 <==> Combine(op, a % 2 == 1, b % 2 == 1)
    ensures Bitwise(op, n, a, b) / 2 == Bitwise(op, n - 1, a / 2, b / 2)
  {
    var half, low := Bitwise(op, n - 1, a / 2, b / 2), if Combine(op, a % 2 == 1, b % 2 == 1) then 1 else 0;
    assert Bitwise(op, n, a, b) == 2 * half + low;
    hide Bitwise, Combine, Pow2;
  }

  /** Each result bit is the combination of the operand bits. */
  lemma {:induction false} BitOfBitwise(op: BitOp, n: nat, a: nat, b: nat, k: nat)
    requires k < n
    ensures BitAt(Bitwise(op, n, a, b), k) <==> Combine(op, BitAt(a, k), BitAt(b, k))
  {
    hide BitAt, Pow2, Bitwise, Combine;
    BitwiseParts(op, n, a, b);
    BitShift(Bitwise(op, n, a, b), k);
    BitShift(a, k);
    BitShift(b, k);
    if k != 0 { BitOfBitwise(op, n - 1, a / 2, b / 2, k - 1); }
  }

  lemma WordBits(a: Word, b: Word, k: nat)
    requires k < 32
    ensures BitAt(And32(a, b), k) <==> BitAt(a, k) && BitAt(b, k)
    ensures BitAt(Or32(a, b), k) <==> BitAt(a, k) || BitAt(b, k)
    ensures BitAt(Xor32(a, b), k) <==> BitAt(a, k) != BitAt(b, k)
    ensures BitAt(AndNot32(a, b), k) <==> BitAt(a, k) && !BitAt(b, k)
  {
    hide BitAt, Bitwise;
    BitOfBitwise(OpAnd, 32, a, b, k);
    BitOfBitwise(OpOr, 32, a, b, k);
    BitOfBitwise(OpXor, 32, a, b, k);
    BitOfBitwise(OpAndNot, 32, a, b, k);
  }

  /** Two numbers have the same bits from `k` up to `n`. */
  predicate Agree(k: nat, n: nat, a: nat, b: nat) {
    forall j :: k <= j < n ==> BitAt(a, j) == BitAt(b, j)
  }

  lemma AgreeHalf(k: nat, n: nat, a: nat, b: nat)
    requires 0 < k <= n
    ensures Agree(k, n, a, b) <==> Agree(k - 1, n - 1, a / 2, b / 2)
  {
    hide BitAt;
    if Agree(k, n, a, b) {
      forall j | k - 1 <= j < n - 1
        ensures BitAt(a / 2, j) == BitAt(b / 2, j)
      {
        BitShift(a, j + 1);
        BitShift(b, j + 1);
        assert BitAt(a, j + 1) == BitAt(b, j + 1);
      }
    }
    if Agree(k - 1, n - 1, a / 2, b / 2) {
      forall j | k <= j < n
        ensures BitAt(a, j) == BitAt(b, j)
      {
        BitShift(a, j);
        BitShift(b, j);
        assert BitAt(a / 2, j - 1) == BitAt(b / 2, j - 1);
      }
    }
  }

  /** A number is its bits. */
  lemma {:induction false} SameBits(n: nat, a: nat, b: nat)
    requires a < Pow2(n) && b < Pow2(n) && Agree(0, n, a, b)
    ensures a == b
  {
    if n != 0 {
      BitShift(a, 0);
      BitShift(b, 0);
      assert BitAt(a, 0) == BitAt(b, 0);
      hide BitAt;
      forall j | 0 <= j < n - 1
        ensures BitAt(a / 2, j) == BitAt(b / 2, j)
      {
        BitShift(a, j + 1);
        BitShift(b, j + 1);
        assert BitAt(a, j + 1) == BitAt(b, j + 1);
      }
      SameBits(n - 1, a / 2, b / 2);
    }
  }

  lemma ZeroBits(a: Word)
    ensures a == 0 <==> forall k :: 0 <= k < 32 ==> !BitAt(a, k)
  {
    if forall k :: 0 <= k < 32 ==> !BitAt(a, k) {
      Pow2Values();
      assert Agree(0, 32, a, 0);
      SameBits(32, a, 0);
    }
  }

  /** Numbers agree from bit `k` up exactly when they share the quotient by 2^k. */
  lemma {:induction false} HighBits(n: nat, k: nat, a: nat, b: nat)
    requires k <= n && a < Pow2(n) && b < Pow2(n)
    ensures Agree(k, n, a, b) <==> a / Pow2(k) == b / Pow2(k)
  {
    if k == 0 {
      if Agree(0, n, a, b) { SameBits(n, a, b); }
      assert a / 1 == a && b / 1 == b;
    } else {
      assert Pow2(n) == 2 * Pow2(n - 1) && Pow2(k) == 2 * Pow2(k - 1);
      HighBits(n - 1, k - 1, a / 2, b / 2);
      HalveFirst(a, Pow2(k - 1));
      HalveFirst(b, Pow2(k - 1));
      AgreeHalf(k, n, a, b);
      hide Agree, Pow2, BitAt;
    }
  }

  /** The mask 2^n - 2^k has exactly the bits from `k` up. */
  lemma {:induction false} MaskBits(n: nat, k: nat, j: nat)
    requires k <= n
    ensures Pow2(k) <= Pow2(n) && (BitAt(Pow2(n) - Pow2(k), j) <==> k <= j < n)
  {
    if n == k {
      assert 0 / Pow2(j) == 0;
    } else {
      var low := if k > 0 then k - 1 else 0;
      MaskBits(n - 1, low, if j > 0 then j - 1 else 0);
      BitShift(Pow2(n) - Pow2(k), j);
      assert (Pow2(n) - Pow2(k)) / 2 == Pow2(n - 1) - Pow2(low);
      hide BitAt;
    }
  }
}
