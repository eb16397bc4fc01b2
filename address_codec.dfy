/**
 * Address decoding of the set-associative cache: an unsigned 32-bit address
 * loses its byte-offset bits, the next `setOffset` bits select the set, and
 * the remaining high bits are the tag.
 */
module AddressCodec {

  /** 2^32: the range of the source's `unsigned int`. */
  const WORD: nat := 0x1_0000_0000

  type Uint32 = x: nat | x < WORD

  function Pow2(n: nat): (r: nat)
    ensures r >= 1
  {
    if n == 0 then 1 else 2 * Pow2(n - 1)
  }

  predicate IsPow2(x: nat)
    decreases x
  {
    x == 1 || (x > 1 && x % 2 == 0 && IsPow2(x / 2))
  }

  /**
   * Integer base-2 logarithm, rounded down: the value the source gets by
   * truncating the floating-point `log2` to an unsigned integer.
   */
  function Log2(x: nat): (k: nat)
    requires x >= 1
    ensures Pow2(k) <= x < 2 * Pow2(k)
  {
    if x == 1 then 0 else 1 + Log2(x / 2)
  }

  /** On a power of two the logarithm is exact. */
  lemma {:induction false} Log2OfPow2(x: nat)
    requires IsPow2(x)
    ensures Pow2(Log2(x)) == x
  {
    if x > 1 {
      Log2OfPow2(x / 2);
    }
  }

  lemma {:induction false} Pow2IsPow2(n: nat)
    ensures IsPow2(Pow2(n))
  {
    if n > 0 {
      Pow2IsPow2(n - 1);
    }
  }

  lemma {:induction false} Pow2Monotone(m: nat, n: nat)
    requires m <= n
    ensures Pow2(m) <= Pow2(n)
  {
    if m < n {
      Pow2Monotone(m, n - 1);
    }
  }

  /** Every divisor of a power of two leaves a power of two. */
  lemma {:induction false} PowerOfTwoQuotient(x: nat, d: nat)
    requires IsPow2(x) && d > 0 && x % d == 0
    ensures IsPow2(x / d)
    decreases x
  {
    var m := x / d;
    DivMod(x, d);
    if x == 1 {
      UnitFactor(m, d);
    } else if d % 2 == 0 {
      var e := d / 2;
      HalveFactor(m, e);
      DivModUnique(x / 2, e, m, 0);
      PowerOfTwoQuotient(x / 2, e);
    } else {
      OddFactor(m, d);
      DivModUnique(x / 2, d, m / 2, 0);
      PowerOfTwoQuotient(x / 2, d);
    }
  }

  lemma UnitFactor(m: nat, d: nat)
    requires m * d == 1
    ensures d == 1 && m == 1
  {
    if d > 1 {
      MulMonotone(1, m, d);
    }
  }

  lemma HalveFactor(m: nat, e: nat)
    ensures (m * (2 * e)) / 2 == m * e
  {
    DivModUnique(m * (2 * e), 2, m * e, 0);
  }

  /** An even product with an odd factor has an even other factor, and halving it halves that factor. */
  lemma OddFactor(m: nat, d: nat)
    requires d % 2 == 1 && (m * d) % 2 == 0
    ensures m % 2 == 0 && (m * d) / 2 == (m / 2) * d
  {
    var a, b, s := d / 2, m / 2, m % 2;
    assert m == 2 * b + s && d == 2 * a + 1;
    OddProduct(b, s, a);
    DivModUnique(m * d, 2, b * d + s * a, s);
  }

  /** `(2b + s)(2a + 1)` leaves remainder `s` when halved. */
  lemma OddProduct(b: nat, s: nat, a: nat)
    ensures (2 * b + s) * (2 * a + 1) == 2 * (b * (2 * a + 1) + s * a) + s
  {
  }

  lemma {:induction false} Pow2Add(m: nat, n: nat)
    ensures Pow2(m + n) == Pow2(m) * Pow2(n)
  {
    if m > 0 {
      Pow2Add(m - 1, n);
    }
  }

  /** Quotient and remainder are the unique pair with `x == q * p + r`, `0 <= r < p`. */
  lemma DivModUnique(x: nat, p: nat, q: nat, r: nat)
    requires p > 0 && r < p && x == q * p + r
    ensures x / p == q && x % p == r
  {
    var q', r' := x / p, x % p;
    assert x == q' * p + r';
    if q' < q {
      assert q' * p + p <= q * p by { MulMonotone(q' + 1, q, p); }
    } else if q < q' {
      assert q * p + p <= q' * p by { MulMonotone(q + 1, q', p); }
    }
  }

  lemma DivMod(x: nat, p: nat)
    requires p > 0
    ensures x == (x / p) * p + x % p && x % p < p
  {
  }

  lemma MulMonotone(a: nat, b: nat, p: nat)
    requires a <= b
    ensures a * p <= b * p
  {
  }

  lemma DivDiv(x: nat, a: nat, b: nat)
    requires a > 0 && b > 0
    ensures x / a / b == x / (a * b)
  {
    var q1, r1 := x / a, x % a;
    var q2, r2 := q1 / b, q1 % b;
    DivMod(x, a);
    DivMod(q1, b);
    assert r2 * a <= (b - 1) * a by { MulMonotone(r2, b - 1, a); }
    assert (b - 1) * a == a * b - a;
    assert x == q2 * (a * b) + (r2 * a + r1) by {
      assert x == (q2 * b + r2) * a + r1;
      assert (q2 * b + r2) * a == q2 * (a * b) + r2 * a;
    }
    DivModUnique(x, a * b, q2, r2 * a + r1);
  }

  /** Shifting right by `m` then by `n` is shifting right by `m + n`. */
  lemma ShiftTwice(x: nat, m: nat, n: nat)
    ensures x / Pow2(m) / Pow2(n) == x / Pow2(m + n)
  {
    Pow2Add(m, n);
    DivDiv(x, Pow2(m), Pow2(n));
  }

  /** The two fields the cache takes from an address. */
  datatype Fields = Fields(tag: nat, setIndex: nat)

  /**
   * `address >> byteOffset` is the block address; its low `setOffset` bits
   * are the set index and the bits above them the tag. The contract says the
   * two fields split the block address exactly; DecodeUnique shows that
   * this determines them.
   */
  function Decode(address: nat, byteOffset: nat, setOffset: nat): (f: Fields)
    ensures f.setIndex < Pow2(setOffset)
    ensures f.tag * Pow2(setOffset) + f.setIndex == address / Pow2(byteOffset)
  {
    DivIsNat(address, Pow2(byteOffset));
    Split(address / Pow2(byteOffset), Pow2(setOffset))
  }

  lemma DivIsNat(x: nat, p: nat)
    requires p > 0
    ensures x / p >= 0
  {
  }

  /** The quotient and remainder of `block` by `p`, as tag and set index. */
  function Split(block: nat, p: nat): (f: Fields)
    requires p > 0
    ensures f.setIndex < p && f.tag * p + f.setIndex == block
  {
    DivMod(block, p);
    Fields(block / p, block % p)
  }

  /** Any split of the block address into a tag and an in-range set index is the decoded one. */
  lemma DecodeUnique(address: nat, byteOffset: nat, setOffset: nat, tag: nat, setIndex: nat)
    requires setIndex < Pow2(setOffset)
    requires tag * Pow2(setOffset) + setIndex == address / Pow2(byteOffset)
    ensures Decode(address, byteOffset, setOffset) == Fields(tag, setIndex)
  {
    DivModUnique(address / Pow2(byteOffset), Pow2(setOffset), tag, setIndex);
  }

  /** The tag is the address shifted right past both the offset and the set bits. */
  lemma TagIsHighBits(address: nat, byteOffset: nat, setOffset: nat)
    ensures Decode(address, byteOffset, setOffset).tag == address / Pow2(byteOffset + setOffset)
  {
    ShiftTwice(address, byteOffset, setOffset);
  }

  /** Tag, set and the discarded offset bits put the address back together. */
  lemma DecodeReconstructs(address: nat, byteOffset: nat, setOffset: nat)
    ensures var f := Decode(address, byteOffset, setOffset);
      address == (f.tag * Pow2(setOffset) + f.setIndex) * Pow2(byteOffset) + address % Pow2(byteOffset)
  {
    DivMod(address, Pow2(byteOffset));
  }

  /**
   * Two addresses get the same tag and set exactly when they lie in the same
   * line, i.e. agree on every bit above the byte offset.
   */
  lemma SameFieldsIffSameBlock(a: nat, a': nat, byteOffset: nat, setOffset: nat)
    ensures Decode(a, byteOffset, setOffset) == Decode(a', byteOffset, setOffset)
        <==> a / Pow2(byteOffset) == a' / Pow2(byteOffset)
  {
  }

  /** Changing only the offset bits of an address changes neither tag nor set. */
  lemma OffsetIgnored(block: nat, offset: nat, offset': nat, byteOffset: nat, setOffset: nat)
    requires offset < Pow2(byteOffset) && offset' < Pow2(byteOffset)
    ensures var p := Pow2(byteOffset);
      Decode(block * p + offset, byteOffset, setOffset) == Decode(block * p + offset', byteOffset, setOffset)
  {
    var p := Pow2(byteOffset);
    DivModUnique(block * p + offset, p, block, offset);
    DivModUnique(block * p + offset', p, block, offset');
    SameFieldsIffSameBlock(block * p + offset, block * p + offset', byteOffset, setOffset);
  }
}
