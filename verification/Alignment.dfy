/**
  `align_up` of src/allocator.rs: a mask on 64-bit words that rounds an address up to a power of two.
*/
module Alignment {
  import opened Bytes
  import opened Words

  const WORD := 0x1_0000_0000_0000_0000

  predicate IsPow2(n: nat) {
    n == 1 || (n > 1 && n % 2 == 0 && IsPow2(n / 2))
  }

  /** The exponent of a power of two. */
  function Log2(n: nat): (k: nat)
    requires IsPow2(n)
    ensures n == Pow2(k)
  {
    if n == 1 then 0 else 1 + Log2(n / 2)
  }

  lemma DoubleFactor(x: nat, y: nat, z: nat)
    requires z == x * y
    ensures 2 * z == x * (2 * y)
  {
  }

  lemma Pow2Double(k: nat)
    ensures Pow2(0) == 1 && Pow2(k + 1) == 2 * Pow2(k)
  {
  }

  lemma {:induction false} Pow2Divides(j: nat, k: nat)
    requires j <= k
    ensures Pow2(k) == Pow2(j) * Pow2(k - j)
    decreases k
  {
    hide Pow2;
    Pow2Double(k);
    if j < k {
      Pow2Divides(j, k - 1);
      Pow2Double(k - 1);
      Pow2Double(k - 1 - j);
      DoubleFactor(Pow2(j), Pow2(k - 1 - j), Pow2(k - 1));
    }
  }

  lemma Pow2Strict(j: nat, k: nat)
    requires Pow2(j) < Pow2(k)
    ensures j < k
  {
    if j >= k { Pow2Monotone(k, j); }
  }

  lemma EightBitsMore(k: nat)
    ensures Pow2(k + 8) == 256 * Pow2(k)
  {
    assert Pow2(k + 4) == 2 * Pow2(k + 3) && Pow2(k + 3) == 2 * Pow2(k + 2) && Pow2(k + 2) == 2 * Pow2(k + 1);
    assert Pow2(k + 8) == 2 * Pow2(k + 7) && Pow2(k + 7) == 2 * Pow2(k + 6) && Pow2(k + 6) == 2 * Pow2(k + 5);
    assert Pow2(k + 5) == 2 * Pow2(k + 4) && Pow2(k + 1) == 2 * Pow2(k);
  }

  lemma WordIsPow2()
    ensures Pow2(64) == WORD
  {
    hide Pow2;
    assert Pow2(0) == 1 by { PowZero(); }
    EightBitsMore(0);
    EightBitsMore(8);
    EightBitsMore(16);
    EightBitsMore(24);
    EightBitsMore(32);
    EightBitsMore(40);
    EightBitsMore(48);
    EightBitsMore(56);
  }

  lemma PowZero()
    ensures Pow2(0) == 1
  {
  }

  /** Halving an address and an alignment halves the remainder. */
  lemma ModHalf(x: nat, p: nat)
    requires p > 0
    ensures x % (2 * p) == 2 * ((x / 2) % p) + x % 2
  {
    var q, r := x / 2 / p, (x / 2) % p;
    DivMod(x / 2, p);
    var i, j := q, 2 * r + x % 2;
    assert x == 2 * (p * q + r) + x % 2;
    assert 2 * (p * q) == (2 * p) * q;
    FieldByte(2 * p, i, j);
  }

  lemma HalfMask(w: nat, k: nat)
    requires 0 < w && k <= w
    ensures Pow2(k) <= Pow2(w)
    ensures var y := Pow2(w) - Pow2(k);
            && (k == 0 ==> y % 2 == 1 && y / 2 == Pow2(w - 1) - Pow2(0))
            && (k > 0 ==> Pow2(k - 1) <= Pow2(w - 1) && y % 2 == 0 && y / 2 == Pow2(w - 1) - Pow2(k - 1))
  {
    Pow2Monotone(k, w);
    if k > 0 { Pow2Monotone(k - 1, w - 1); }
    var a, b := Pow2(w - 1), if k > 0 then Pow2(k - 1) else 1;
    assert Pow2(w) == 2 * a && Pow2(k) == if k > 0 then 2 * b else 1;
    Halves(a, b);
  }

  lemma Halves(a: nat, b: nat)
    requires 1 <= b <= a
    ensures (2 * a - 2 * b) % 2 == 0 && (2 * a - 2 * b) / 2 == a - b
    ensures (2 * a - 1) % 2 == 1 && (2 * a - 1) / 2 == a - 1
  {
  }

  lemma {:induction false} AllOnes(w: nat, x: nat)
    requires x < Pow2(w)
    ensures And(w, x, Pow2(w) - 1) == x
    decreases w
  {
    if w > 0 {
      HalfMask(w, 0);
      AllOnes(w - 1, x / 2);
      assert And(w, x, Pow2(w) - 1) == (x % 2) * 1 + 2 * And(w - 1, x / 2, Pow2(w - 1) - 1);
    }
  }

  /** The number formed by the low `k` bits. */
  function Low(k: nat, x: nat): nat {
    if k == 0 then 0 else x % 2 + 2 * Low(k - 1, x / 2)
  }

  lemma {:induction false} LowIsRemainder(k: nat, x: nat)
    ensures Low(k, x) == x % Pow2(k)
    decreases k
  {
    if k > 0 {
      LowIsRemainder(k - 1, x / 2);
      ModHalf(x, Pow2(k - 1));
    }
  }

  /** `and` with the complement of `2^k - 1` clears the low `k` bits and nothing else. */
  lemma {:induction false} MaskClearsLowBits(w: nat, k: nat, x: nat)
    requires k <= w && x < Pow2(w)
    ensures Pow2(k) <= Pow2(w) && And(w, x, Pow2(w) - Pow2(k)) == x - Low(k, x)
    decreases w
  {
    if k == 0 {
      AllOnes(w, x);
    } else {
      HalfMask(w, k);
      MaskClearsLowBits(w - 1, k - 1, x / 2);
    }
  }

  /** `(addr + align - 1) & !(align - 1)` on 64-bit words; the caller rules out overflow. */
  function AlignUp(addr: nat, align: nat): nat
    requires 0 < align < WORD && addr + align - 1 < WORD
  {
    And(64, addr + align - 1, WORD - 1 - (align - 1))
  }

  /** For every power of two the mask finds the least multiple that is not below the address. */
  lemma AlignUpIsLeast(addr: nat, align: nat)
    requires IsPow2(align) && align < WORD && addr + align - 1 < WORD
    ensures var r := AlignUp(addr, align);
            && addr <= r < addr + align && r % align == 0
            && forall m: nat | addr <= m && m % align == 0 :: r <= m
  {
    hide And, Pow2, Log2, IsPow2, Low;
    var k := Log2(align);
    WordIsPow2();
    Pow2Strict(k, 64);
    var x := addr + align - 1;
    MaskClearsLowBits(64, k, x);
    LowIsRemainder(k, x);
    var r := AlignUp(addr, align);
    assert r == x - x % align;
    RoundDown(x, align);
    forall m: nat | addr <= m && m % align == 0 ensures r <= m { NoMultipleBetween(r, m, align); }
  }

  lemma RoundDown(x: nat, p: nat)
    requires p > 0
    ensures 0 <= x - x % p <= x < x - x % p + p && (x - x % p) % p == 0
  {
    DivMod(x, p);
    FieldByte(p, x / p, 0);
  }

  lemma NoMultipleBetween(r: nat, m: nat, align: nat)
    requires align > 0 && r % align == 0 && m % align == 0 && r < m + align
    ensures r <= m
  {
    DivMod(r, align);
    DivMod(m, align);
    if r > m {
      if r / align <= m / align { TimesMonotone(align, r / align, m / align); }
      TimesMonotone(align, m / align + 1, r / align);
    }
  }

  /** A multiple of a power of two is a multiple of every smaller one. */
  lemma MultipleOfSmaller(a: nat, align: nat, smaller: nat)
    requires IsPow2(align) && IsPow2(smaller) && smaller <= align && a % align == 0
    ensures a % smaller == 0
  {
    hide Pow2, IsPow2, Log2;
    var j, k := Log2(smaller), Log2(align);
    if k < j { Pow2Monotone(k, j); }
    if j <= k { Pow2Divides(j, k); }
    var c := if j <= k then Pow2(k - j) else 1;
    assert align == smaller * c;
    DivMod(a, align);
    TimesAssociates(smaller, c, a / align);
    FieldByte(smaller, c * (a / align), 0);
  }

  lemma TimesAssociates(x: int, y: int, z: int)
    ensures (x * y) * z == x * (y * z)
  {
  }
}
