/** hack/onboard-web3signer-keystore.py: which scrypt work factors of an encrypted keystore are
    accepted, and what that guarantees about the key derivation (RFC 7914). */
module Scrypt {
  import opened Text

  // ---- n & (n - 1) -------------------------------------------------------------------------

  /** Bitwise conjunction of unbounded non-negative integers. */
  function BitAnd(a: nat, b: nat): nat {
    if a == 0 || b == 0 then 0
    else (if a % 2 == 1 && b % 2 == 1 then 1 else 0) + 2 * BitAnd(a / 2, b / 2)
  }

  function Pow2(k: nat): nat {
    if k == 0 then 1 else 2 * Pow2(k - 1)
  }

  lemma {:induction false} AndItself(a: nat)
    ensures BitAnd(a, a) == a
  {
    if a == 0 {
    } else {
      AndItself(a / 2);
    }
  }

  lemma OddSharesBits(n: nat)
    requires n >= 1
    ensures n % 2 == 1 ==> BitAnd(n, n - 1) == n - 1
  {
    AndItself(n / 2);
    assert n % 2 == 1 ==> (n - 1) / 2 == n / 2;
  }

  /** The exponent of a number that the test passes. */
  lemma {:induction false} NoSharedBit(n: nat) returns (k: nat)
    requires n >= 1 && BitAnd(n, n - 1) == 0
    ensures n == Pow2(k)
  {
    if n == 1 {
      k := 0;
    } else {
      OddSharesBits(n);
      assert (n - 1) / 2 == n / 2 - 1;
      var half := NoSharedBit(n / 2);
      k := half + 1;
    }
  }

  lemma {:induction false} PowerSharesNoBit(k: nat)
    ensures Pow2(k) >= 1 && BitAnd(Pow2(k), Pow2(k) - 1) == 0
  {
    if k == 0 {
    } else {
      PowerSharesNoBit(k - 1);
      var half := Pow2(k - 1);
      assert (2 * half - 1) / 2 == half - 1;
    }
  }

  /** The usual bit trick is exactly the test for a power of two. */
  lemma PowerOfTwoTest(n: nat)
    requires n >= 2
    ensures BitAnd(n, n - 1) == 0 <==> exists k :: k >= 1 && n == Pow2(k)
  {
    if BitAnd(n, n - 1) == 0 {
      var k := NoSharedBit(n);
      assert k >= 1;
    }
    if k :| k >= 1 && n == Pow2(k) {
      PowerSharesNoBit(k);
    }
  }

  lemma {:induction false} Pow2Grows(j: nat, k: nat)
    requires j <= k
    ensures Pow2(j) <= Pow2(k) && (j < k ==> Pow2(j) < Pow2(k))
    decreases k - j
  {
    if j < k {
      Pow2Grows(j, k - 1);
      PowerSharesNoBit(k - 1);
    }
  }

  // ---- the work factors --------------------------------------------------------------------

  const MAX_SCRYPT_N := 0x10_0000
  const MAX_SCRYPT_R := 32
  const MAX_SCRYPT_P := 16
  const MAX_SCRYPT_MEMORY := 1024 * 1024 * 1024
  const SCRYPT_MEMORY_HEADROOM := 32 * 1024 * 1024

  datatype ScryptError = UnsupportedN | UnsupportedWorkFactors | UnsupportedMemory

  /** The memory that the derivation itself needs, in octets. */
  function RequiredMemory(n: int, r: int, p: int): int {
    128 * n * r + 128 * r * p
  }

  /** The memory limit passed to the derivation, unless the parameters are refused. */
  function MemoryLimit(n: int, r: int, p: int): Result<int, ScryptError> {
    if n < 2 || BitAnd(n, n - 1) != 0 || n > MAX_SCRYPT_N then Err(UnsupportedN)
    else if !(1 <= r <= MAX_SCRYPT_R) || !(1 <= p <= MAX_SCRYPT_P) then Err(UnsupportedWorkFactors)
    else
      var limit := RequiredMemory(n, r, p) + SCRYPT_MEMORY_HEADROOM;
      if limit > MAX_SCRYPT_MEMORY then Err(UnsupportedMemory) else Ok(limit)
  }

  lemma SixteenBits()
    ensures Pow2(16) == 0x1_0000
  {
    assert Pow2(4) == 16;
    assert Pow2(8) == 256;
    assert Pow2(12) == 4096;
  }

  lemma MaxNIsPower()
    ensures MAX_SCRYPT_N == Pow2(20)
  {
    SixteenBits();
  }

  /** Exactly the powers of two from 2^1 to 2^20 with small r and p, as far as memory allows. */
  lemma AcceptedIff(n: int, r: int, p: int)
    ensures MemoryLimit(n, r, p).Ok?
            <==> && (exists k :: 1 <= k <= 20 && n == Pow2(k))
                 && 1 <= r <= 32 && 1 <= p <= 16 && 128 * n * r + 128 * r * p + 33_554_432 <= 1_073_741_824
    ensures MemoryLimit(n, r, p).Ok? ==> MemoryLimit(n, r, p).value == 128 * n * r + 128 * r * p + 33_554_432
    ensures MemoryLimit(n, r, p) == Err(UnsupportedN) <==> forall k | 1 <= k <= 20 :: n != Pow2(k)
    ensures MemoryLimit(n, r, p) == Err(UnsupportedWorkFactors)
            <==> (exists k :: 1 <= k <= 20 && n == Pow2(k)) && !(1 <= r <= 32 && 1 <= p <= 16)
  {
    MaxNIsPower();
    if n >= 2 {
      PowerOfTwoTest(n);
      if k :| k >= 1 && n == Pow2(k) && k > 20 {
        Pow2Grows(20, k);
      }
    }
    if k :| 1 <= k <= 20 && n == Pow2(k) {
      Pow2Grows(1, k);
      Pow2Grows(k, 20);
    }
  }

  // ---- section 6 of RFC 7914 ---------------------------------------------------------------

  /** N is a power of 2 larger than 1 and less than 2^(128 * r / 8); p is a positive integer no
      greater than ((2^32 - 1) * 32) / (128 * r). */
  ghost predicate MeetsRfc7914(n: int, r: int, p: int) {
    && r >= 1
    && (exists k :: k >= 1 && n == Pow2(k)) && n < Pow2(128 * r / 8)
    && 1 <= p <= (0xffff_ffff * 32) / (128 * r)
  }

  lemma WorkFactorsOfRfc7914(r: int, p: int)
    requires 1 <= r <= MAX_SCRYPT_R && 1 <= p <= MAX_SCRYPT_P
    ensures p <= (0xffff_ffff * 32) / (128 * r)
  {
    assert 128 * r <= 128 * 32;
    QuotientAtLeast(0xffff_ffff * 32, 128 * r, 16);
  }

  lemma FewerTimes(q: int, s: int, d: int)
    requires d > 0 && q * d < s * d
    ensures q < s
  {
  }

  lemma QuotientAtLeast(a: int, d: int, q: int)
    requires d > 0 && q * d <= a
    ensures q <= a / d
  {
    assert a == (a / d) * d + a % d;
    FewerTimes(q, a / d + 1, d);
  }

  /** The accepted parameters stay inside the standard's bounds, with one exception: block size 1
      and N of 2^16 or more. */
  lemma AcceptedMeetsRfc7914(n: int, r: int, p: int)
    requires MemoryLimit(n, r, p).Ok?
    ensures MeetsRfc7914(n, r, p) <==> r >= 2 || n < 0x1_0000
  {
    AcceptedIff(n, r, p);
    WorkFactorsOfRfc7914(r, p);
    hide MemoryLimit, BitAnd;
    var k :| 1 <= k <= 20 && n == Pow2(k);
    SixteenBits();
    hide Pow2;
    BlockBits(r);
    if r >= 2 {
      Pow2Grows(k, 16 * r);
    }
  }

  lemma BlockBits(r: int)
    ensures 128 * r / 8 == 16 * r
  {
  }

  /** The derivation gets all the memory it needs and never more than 1 GiB. */
  lemma AcceptedMemory(n: int, r: int, p: int)
    requires MemoryLimit(n, r, p).Ok?
    ensures 0 < RequiredMemory(n, r, p) < MemoryLimit(n, r, p).value <= MAX_SCRYPT_MEMORY
  {
    assert n * r > 0 && r * p > 0;
  }

  /** The exception is reachable: such a keystore is accepted although the standard excludes it. */
  lemma BlockSizeOneIsNotChecked()
    ensures MemoryLimit(0x1_0000, 1, 1).Ok? && !MeetsRfc7914(0x1_0000, 1, 1)
  {
    MaxNIsPower();
    SixteenBits();
    AcceptedIff(0x1_0000, 1, 1);
    AcceptedMeetsRfc7914(0x1_0000, 1, 1);
  }
}
