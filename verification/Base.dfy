/** Shared vocabulary: results, bytes, powers of two and the bitwise operators on naturals.
    Machine integers are naturals with their width written out, so that wrapping and
    masking stay visible. */
module Base {

  datatype Option<+T> = None | Some(value: T)

  /** Every reason for which the codec raises. */
  datatype Failure =
    | UnexpectedEnd
    | UnsafeInteger
    | MalformedInteger
    | BadStringReference
    | NotUtf8
    | BadSign
    | UnknownTag
    | BadBase
    | BadDelta
    | UndefinedItem
    | BadMagic
    | BadVersion
    | BadCount
    | TrailingInput
    | BadHistory
    | OutOfRange
    | TooDeep

  datatype Result<+T> = Ok(value: T) | Err(failure: Failure) {
    predicate IsFailure() {
      Err?
    }

    function PropagateFailure<U>(): Result<U>
      requires Err?
    {
      Err(failure)
    }

    function Extract(): T
      requires Ok?
    {
      value
    }
  }

  type byte = x: nat | x < 256
  type U32 = x: nat | x < 0x1_0000_0000
  type F64 = x: nat | x < 0x1_0000_0000_0000_0000

  const SAFE_INTEGER_MAX: nat := 0x1F_FFFF_FFFF_FFFF

  function Max(a: int, b: int): int {
    if a >= b then a else b
  }

  function Abs(n: int): nat {
    if n < 0 then -n else n
  }

  // ----- powers of two, shifts and masks -----

  function Pow2(n: nat): (r: nat)
    ensures r > 0
  {
    if n == 0 then 1 else 2 * Pow2(n - 1)
  }

  /** n << k */
  function Shift(n: nat, k: nat): nat {
    if k == 0 then n else 2 * Shift(n, k - 1)
  }

  /** n >> k */
  function Unshift(n: nat, k: nat): nat {
    if k == 0 then n else Unshift(n / 2, k - 1)
  }

  /** The k lowest bits of n. */
  function Low(n: nat, k: nat): nat {
    if k == 0 then 0 else n % 2 + 2 * Low(n / 2, k - 1)
  }

  lemma {:induction false} ShiftIsProduct(n: nat, k: nat)
    ensures Shift(n, k) == n * Pow2(k)
  {
    if k > 0 {
      ShiftIsProduct(n, k - 1);
      assert n * (2 * Pow2(k - 1)) == 2 * (n * Pow2(k - 1));
    }
  }

  lemma {:induction false} ShiftShift(n: nat, a: nat, b: nat)
    ensures Shift(Shift(n, a), b) == Shift(n, a + b)
  {
    if b > 0 {
      ShiftShift(n, a, b - 1);
    }
  }

  lemma {:induction false} UnshiftUnshift(n: nat, a: nat, b: nat)
    ensures Unshift(n, a + b) == Unshift(Unshift(n, a), b)
    decreases a
  {
    if a > 0 {
      UnshiftUnshift(n / 2, a - 1, b);
    }
  }

  lemma {:induction false} ShiftAdd(m: nat, n: nat, k: nat)
    ensures Shift(m + n, k) == Shift(m, k) + Shift(n, k)
  {
    if k > 0 {
      ShiftAdd(m, n, k - 1);
    }
  }

  lemma {:induction false} ShiftMonotone(m: nat, n: nat, k: nat)
    ensures m <= n <==> Shift(m, k) <= Shift(n, k)
  {
    if k > 0 {
      ShiftMonotone(m, n, k - 1);
    }
  }

  lemma {:induction false} ShiftPow2(a: nat, b: nat)
    ensures Shift(Pow2(a), b) == Pow2(a + b)
  {
    if b > 0 {
      ShiftPow2(a, b - 1);
    }
  }

  lemma {:induction false} Pow2Monotone(a: nat, b: nat)
    requires a <= b
    ensures Pow2(a) <= Pow2(b)
  {
    if a < b {
      Pow2Monotone(a, b - 1);
    }
  }

  /** Splitting n into its high part and its k lowest bits, in exactly one way. */
  lemma {:induction false} SplitBits(n: nat, k: nat)
    ensures n == Shift(Unshift(n, k), k) + Low(n, k)
    ensures Low(n, k) < Pow2(k)
  {
    if k > 0 {
      SplitBits(n / 2, k - 1);
    }
  }

  lemma {:induction false} JoinBits(high: nat, low: nat, k: nat)
    requires low < Pow2(k)
    ensures Unshift(Shift(high, k) + low, k) == high
    ensures Low(Shift(high, k) + low, k) == low
    decreases k
  {
    if k > 0 {
      var n := Shift(high, k) + low;
      assert n / 2 == Shift(high, k - 1) + low / 2;
      assert n % 2 == low % 2;
      JoinBits(high, low / 2, k - 1);
    }
  }

  lemma ShiftExact(n: nat, k: nat)
    ensures Unshift(Shift(n, k), k) == n && Low(Shift(n, k), k) == 0
  {
    JoinBits(n, 0, k);
  }

  /** Shifting n left first leaves its high part alone and shifts its low part. */
  lemma {:induction false} SplitShifted(n: nat, j: nat, k: nat)
    ensures Unshift(Shift(n, j), j + k) == Unshift(n, k)
    ensures Low(Shift(n, j), j + k) == Shift(Low(n, k), j)
  {
    if j > 0 {
      SplitShifted(n, j - 1, k);
      assert Shift(n, j) / 2 == Shift(n, j - 1) && Shift(n, j) % 2 == 0;
    }
  }

  lemma Pow2Values()
    ensures Pow2(7) == 128 && Pow2(8) == 256 && Pow2(16) == 0x1_0000
    ensures Pow2(23) == 0x80_0000 && Pow2(24) == 0x100_0000
    ensures Pow2(32) == 0x1_0000_0000
    ensures Pow2(52) == 0x10_0000_0000_0000 && Pow2(53) == 0x20_0000_0000_0000
    ensures Pow2(64) == 0x1_0000_0000_0000_0000
  {
    assert Pow2(8) == 256;
    assert Pow2(16) == 0x1_0000;
    assert Pow2(24) == 0x100_0000;
    assert Pow2(32) == 0x1_0000_0000;
    assert Pow2(40) == 0x100_0000_0000;
    assert Pow2(48) == 0x1_0000_0000_0000;
    assert Pow2(56) == 0x100_0000_0000_0000;
  }

  // ----- bit length -----

  function BitLen(n: nat): nat {
    if n == 0 then 0 else 1 + BitLen(n / 2)
  }

  lemma {:induction false} BitLenBound(n: nat, k: nat)
    ensures n < Pow2(k) <==> BitLen(n) <= k
    decreases k
  {
    if n > 0 && k > 0 {
      BitLenBound(n / 2, k - 1);
    }
  }

  lemma BitLenRange(n: nat)
    requires n > 0
    ensures BitLen(n) > 0 && Pow2(BitLen(n) - 1) <= n < Pow2(BitLen(n))
  {
    BitLenBound(n, BitLen(n));
    BitLenBound(n, BitLen(n) - 1);
  }

  lemma {:induction false} BitLenShift(n: nat, k: nat)
    requires n > 0
    ensures Shift(n, k) > 0 && BitLen(Shift(n, k)) == BitLen(n) + k
  {
    if k > 0 {
      BitLenShift(n, k - 1);
      assert Shift(n, k) / 2 == Shift(n, k - 1);
    }
  }

  // ----- exclusive or, inclusive or -----

  function Xor(a: nat, b: nat): nat {
    if a == 0 && b == 0 then 0
    else 2 * Xor(a / 2, b / 2) + (if a % 2 == b % 2 then 0 else 1)
  }

  function Or(a: nat, b: nat): nat {
    if a == 0 && b == 0 then 0
    else 2 * Or(a / 2, b / 2) + (if a % 2 == 0 && b % 2 == 0 then 0 else 1)
  }

  lemma XorParts(a: nat, b: nat)
    ensures Xor(a, b) / 2 == Xor(a / 2, b / 2)
    ensures Xor(a, b) % 2 == (if a % 2 == b % 2 then 0 else 1)
  {
  }

  lemma {:induction false} XorCancels(a: nat, b: nat)
    ensures Xor(a, Xor(a, b)) == b
  {
    if a > 0 || b > 0 {
      XorCancels(a / 2, b / 2);
      XorParts(a, b);
      XorParts(a, Xor(a, b));
    }
  }

  lemma {:induction false} XorBound(a: nat, b: nat, k: nat)
    requires a < Pow2(k) && b < Pow2(k)
    ensures Xor(a, b) < Pow2(k)
    decreases k
  {
    if k > 0 {
      XorBound(a / 2, b / 2, k - 1);
      XorParts(a, b);
    }
  }

  lemma {:induction false} XorZero(a: nat, b: nat)
    ensures Xor(a, b) == 0 <==> a == b
  {
    if a > 0 || b > 0 {
      XorZero(a / 2, b / 2);
      XorParts(a, b);
    }
  }

  lemma OrParts(a: nat, b: nat)
    ensures Or(a, b) / 2 == Or(a / 2, b / 2)
    ensures Or(a, b) % 2 == (if a % 2 == 0 && b % 2 == 0 then 0 else 1)
  {
  }

  lemma {:induction false} OrZero(a: nat, b: nat)
    ensures Or(a, b) == 0 <==> a == 0 && b == 0
  {
    if a > 0 || b > 0 {
      OrZero(a / 2, b / 2);
      OrParts(a, b);
    }
  }

  lemma {:induction false} OrBitLen(a: nat, b: nat)
    ensures BitLen(Or(a, b)) == Max(BitLen(a), BitLen(b))
  {
    if a > 0 || b > 0 {
      OrBitLen(a / 2, b / 2);
      OrParts(a, b);
      OrZero(a, b);
    }
  }
}
