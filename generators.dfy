/**
 * The address streams that drive the simulator. Each generator of the
 * source keeps its position in a function-local static variable; here each
 * is an object that owns that variable. memGen1, memGen4, memGen5 and memGen6
 * are counters; memGen2 and memGen3 draw from one multiply-with-carry
 * generator whose two state words are shared.
 */
module Generators {
  import opened AddressCodec

  /** Size of the simulated main memory in bytes (64 MiB). */
  const DRAM_SIZE: nat := 64 * 1024 * 1024

  /** Unsigned 32-bit addition. */
  function Add32(x: nat, y: nat): Uint32
  {
    (x + y) % WORD
  }

  /** Reducing modulo a multiple of `r` first does not change the remainder modulo `r`. */
  lemma ModOfMod(x: nat, m: nat, r: nat)
    requires r > 0 && m > 0 && m % r == 0
    ensures (x % m) % r == x % r
  {
    var q, y := x / m, x % m;
    var t := m / r;
    var q2, rr := y / r, y % r;
    DivMod(x, m);
    DivMod(m, r);
    DivMod(y, r);
    Regroup(q, t, r, q2, rr);
    DivModUnique(x, r, q * t + q2, rr);
  }

  /** Regrouping a product of three factors plus a remainder. */
  lemma Regroup(q: nat, t: nat, r: nat, q2: nat, rr: nat)
    ensures q * (t * r) + (q2 * r + rr) == (q * t + q2) * r + rr
  {
  }

  /**
   * The address returned by call number `k` (from 0) of a counter generator:
   * the counter after `k` steps (post-increment) or `k + 1` steps
   * (pre-increment) of `stride`, kept in 32 bits, then reduced modulo `range`.
   */
  function CounterOutput(stride: nat, range: nat, preIncrement: bool, k: nat): (a: nat)
    requires range > 0
    ensures a < range
  {
    var steps := if preIncrement then k + 1 else k;
    ((stride * steps) % WORD) % range
  }

  /** When `range` divides 2^32, the counter's 32-bit wrap-around never shows in the output. */
  lemma CounterIgnoresWrap(stride: nat, range: nat, preIncrement: bool, k: nat)
    requires range > 0 && WORD % range == 0
    ensures CounterOutput(stride, range, preIncrement, k) == (stride * (if preIncrement then k + 1 else k)) % range
  {
    ModOfMod(stride * (if preIncrement then k + 1 else k), WORD, range);
  }

  lemma ModLeq(x: nat, r: nat)
    requires r > 0
    ensures x % r <= x
  {
    DivMod(x, r);
    if x / r > 0 {
      MulMonotone(1, x / r, r);
    }
  }

  /** After one more step the counter is one more stride ahead, modulo 2^32. */
  lemma StepAhead(stride: nat, k: nat)
    ensures Add32((stride * k) % WORD, stride) == (stride * (k + 1)) % WORD
  {
    var x := stride * k;
    DivMod(x, WORD);
    assert stride * (k + 1) == x + stride;
    DivMod(x % WORD + stride, WORD);
    var q1, q2 := x / WORD, (x % WORD + stride) / WORD;
    assert x + stride == (q1 + q2) * WORD + (x % WORD + stride) % WORD;
    DivModUnique(x + stride, WORD, q1 + q2, (x % WORD + stride) % WORD);
  }

  class CounterGenerator {
    const stride: nat
    const range: nat
    /** The source advances the counter before reading it (memGen6) or after (the others). */
    const preIncrement: bool
    /** The static counter of the source. */
    var addr: Uint32
    /** How many addresses have been drawn. */
    ghost var calls: nat

    ghost predicate Valid()
      reads this
    {
      range > 0 && addr == (stride * calls) % WORD
    }

    /** memGen1: 0, 1, 2, ... modulo the DRAM size. */
    constructor MemGen1()
      ensures Valid() && calls == 0
      ensures stride == 1 && range == DRAM_SIZE && !preIncrement
    {
      stride, range, preIncrement := 1, DRAM_SIZE, false;
      addr, calls := 0, 0;
    }

    /** memGen4: 0, 1, 2, ... modulo 4 KiB. */
    constructor MemGen4()
      ensures Valid() && calls == 0
      ensures stride == 1 && range == 4 * 1024 && !preIncrement
    {
      stride, range, preIncrement := 1, 4 * 1024, false;
      addr, calls := 0, 0;
    }

    /** memGen5: 0, 1, 2, ... modulo 64 KiB. */
    constructor MemGen5()
      ensures Valid() && calls == 0
      ensures stride == 1 && range == 1024 * 64 && !preIncrement
    {
      stride, range, preIncrement := 1, 1024 * 64, false;
      addr, calls := 0, 0;
    }

    /** memGen6: 32, 64, 96, ... modulo 256 KiB. */
    constructor MemGen6()
      ensures Valid() && calls == 0
      ensures stride == 32 && range == 64 * 4 * 1024 && preIncrement
    {
      stride, range, preIncrement := 32, 64 * 4 * 1024, true;
      addr, calls := 0, 0;
    }

    /** Draws the next address. */
    method Next() returns (a: Uint32)
      requires Valid()
      modifies this
      ensures Valid() && calls == old(calls) + 1
      ensures a == CounterOutput(stride, range, preIncrement, old(calls))
    {
      StepAhead(stride, calls);
      ModLeq(addr, range);
      if preIncrement {
        addr := Add32(addr, stride);
        ModLeq(addr, range);
        a := addr % range;
      } else {
        a := addr % range;
        addr := Add32(addr, stride);
      }
      calls := calls + 1;
    }
  }

  /** memGen1 returns k modulo the DRAM size on its call number k. */
  lemma MemGen1Outputs(k: nat)
    ensures CounterOutput(1, DRAM_SIZE, false, k) == k % DRAM_SIZE
  {
    CounterIgnoresWrap(1, DRAM_SIZE, false, k);
  }

  /** memGen4 returns k modulo 4096 on its call number k. */
  lemma MemGen4Outputs(k: nat)
    ensures CounterOutput(1, 4 * 1024, false, k) == k % 4096
  {
    CounterIgnoresWrap(1, 4 * 1024, false, k);
  }

  /** memGen5 returns k modulo 65536 on its call number k. */
  lemma MemGen5Outputs(k: nat)
    ensures CounterOutput(1, 1024 * 64, false, k) == k % 65536
  {
    CounterIgnoresWrap(1, 1024 * 64, false, k);
  }

  /**
   * memGen6 walks the 256 KiB range in steps of 32 bytes: call number k
   * returns 32 * ((k + 1) mod 8192), so the stream repeats every 8192 calls.
   */
  lemma MemGen6Outputs(k: nat)
    ensures CounterOutput(32, 64 * 4 * 1024, true, k) == 32 * ((k + 1) % 8192)
    ensures CounterOutput(32, 64 * 4 * 1024, true, k + 8192) == CounterOutput(32, 64 * 4 * 1024, true, k)
  {
    var n := k + 1;
    CounterIgnoresWrap(32, 64 * 4 * 1024, true, k);
    CounterIgnoresWrap(32, 64 * 4 * 1024, true, k + 8192);
    DivMod(n, 8192);
    assert 32 * n == (n / 8192) * (64 * 4 * 1024) + 32 * (n % 8192);
    DivModUnique(32 * n, 64 * 4 * 1024, n / 8192, 32 * (n % 8192));
    var n' := n + 8192;
    DivMod(n', 8192);
    DivModUnique(n', 8192, n / 8192 + 1, n % 8192);
    assert 32 * n' == (n' / 8192) * (64 * 4 * 1024) + 32 * (n' % 8192);
    DivModUnique(32 * n', 64 * 4 * 1024, n' / 8192, 32 * (n' % 8192));
  }

  // -----------------------------------------------------------------------
  // Multiply-with-carry generator
  // -----------------------------------------------------------------------

  /** One half of the multiply-with-carry step, `mult * (x & 65535) + (x >> 16)`, in 32 bits. */
  function MwcStep(mult: nat, x: Uint32): Uint32
  {
    (mult * (x % 65536) + x / 65536) % WORD
  }

  /** The generator's output `(m_z << 16) + m_w`, in 32 bits. */
  function MwcOutput(z: Uint32, w: Uint32): Uint32
  {
    Add32((z * 65536) % WORD, w)
  }

  /** With the source's multipliers the 32-bit step never wraps around. */
  lemma MwcStepNoWrap(mult: nat, x: Uint32)
    requires mult <= 36969
    ensures MwcStep(mult, x) == mult * (x % 65536) + x / 65536
  {
    HalvesBound(x);
    ProductBound(mult, x % 65536, x / 65536);
    ModSmall(mult * (x % 65536) + x / 65536);
  }

  /** The largest step value, 36969 * 65535 + 65535, still fits in 32 bits. */
  lemma ProductBound(mult: nat, lo: nat, hi: nat)
    requires mult <= 36969 && lo < 65536 && hi < 65536
    ensures mult * lo + hi < WORD
  {
    MulMonotone(lo, 65535, mult);
    MulMonotone(mult, 36969, 65535);
  }

  /** Both 16-bit halves of a 32-bit word are below 2^16. */
  lemma HalvesBound(x: Uint32)
    ensures x % 65536 < 65536 && x / 65536 < 65536
  {
  }

  /** A value below 2^32 is its own 32-bit residue. */
  lemma ModSmall(k: nat)
    requires k < WORD
    ensures k % WORD == k
  {
  }

  /**
   * The seeds the source forbids are fixed points of the two steps, from
   * which the generator would never move: 0 for both, 0x9068ffff for m_z
   * and 0x464fffff for m_w.
   */
  lemma ForbiddenSeedsAreFixedPoints()
    ensures MwcStep(36969, 0) == 0 && MwcStep(18000, 0) == 0
    ensures MwcStep(36969, 0x9068ffff) == 0x9068ffff
    ensures MwcStep(18000, 0x464fffff) == 0x464fffff
  {
  }

  /** The shared state `m_w`, `m_z` of rand_, used by memGen2 and memGen3. */
  class RandomSource {
    var mW: Uint32
    var mZ: Uint32

    constructor ()
      ensures mW == 0xABABAB55 && mZ == 0x05080902
    {
      mW := 0xABABAB55;
      mZ := 0x05080902;
    }

    /** rand_: advances both halves and combines them. */
    method Rand() returns (r: Uint32)
      modifies this
      ensures mZ == MwcStep(36969, old(mZ)) && mW == MwcStep(18000, old(mW))
      ensures r == MwcOutput(mZ, mW)
    {
      mZ := MwcStep(36969, mZ);
      mW := MwcStep(18000, mW);
      r := MwcOutput(mZ, mW);
    }

    /** memGen2: a random address below 24 KiB. */
    method MemGen2() returns (a: Uint32)
      modifies this
      ensures mZ == MwcStep(36969, old(mZ)) && mW == MwcStep(18000, old(mW))
      ensures a == MwcOutput(mZ, mW) % (24 * 1024) && a < 24 * 1024
    {
      var r := Rand();
      a := r % (24 * 1024);
    }

    /** memGen3: a random address within the DRAM. */
    method MemGen3() returns (a: Uint32)
      modifies this
      ensures mZ == MwcStep(36969, old(mZ)) && mW == MwcStep(18000, old(mW))
      ensures a == MwcOutput(mZ, mW) % DRAM_SIZE && a < DRAM_SIZE
    {
      var r := Rand();
      a := r % DRAM_SIZE;
    }
  }
}
