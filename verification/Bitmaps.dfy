/**
  The allocation bitmaps of src/fs/layout.rs: one bit per resource, least significant bit first.
*/
module Bitmaps {
  import opened Bytes
  import opened Words
  import opened Options

  lemma ByteMask(k: nat)
    requires k < 8
    ensures Pow2(k) < 256 == Pow2(8)
  {
    hide Pow2;
    EightBits();
    Pow2Monotone(k, 7);
  }

  lemma EightBits()
    ensures Pow2(7) == 128 && Pow2(8) == 256
  {
    assert Pow2(4) == 16;
  }

  /** `byte & (1 << k) != 0` */
  predicate HasBit(x: byte, k: nat)
    requires k < 8
  {
    And(8, x, Pow2(k)) != 0
  }

  /** `byte | (1 << k)` */
  function WithBit(x: byte, k: nat): byte
    requires k < 8
  {
    ByteMask(k);
    OrBits(8, x, Pow2(k), 0);
    Or(8, x, Pow2(k))
  }

  /** `byte & !(1 << k)` */
  function WithoutBit(x: byte, k: nat): byte
    requires k < 8
  {
    ByteMask(k);
    AndBits(8, x, Not(8, Pow2(k)), 0);
    And(8, x, Not(8, Pow2(k)))
  }

  lemma WithBitEffect(x: byte, k: nat, j: nat)
    requires k < 8 && j < 8
    ensures HasBit(WithBit(x, k), j) <==> k == j || HasBit(x, j)
    ensures HasBit(WithoutBit(x, k), j) <==> k != j && HasBit(x, j)
  {
    hide And, Or, Not, Pow2, Bit;
    ByteMask(k);
    AndMask(8, WithBit(x, k), j);
    AndMask(8, WithoutBit(x, k), j);
    AndMask(8, x, j);
    OrBits(8, x, Pow2(k), j);
    AndBits(8, x, Not(8, Pow2(k)), j);
    NotBits(8, Pow2(k), j);
    Pow2Bits(k, j);
  }

  lemma SameByte(x: byte, y: byte)
    requires forall k: nat | k < 8 :: HasBit(x, k) <==> HasBit(y, k)
    ensures x == y
  {
    hide And, Pow2, Bit;
    EightBits();
    forall k: nat | k < 8 ensures Bit(x, k) <==> Bit(y, k) {
      assert HasBit(x, k) <==> HasBit(y, k);
      AndMask(8, x, k);
      AndMask(8, y, k);
    }
    SameBits(8, x, y);
  }

  lemma FullByte(x: byte)
    ensures x == 0xFF <==> forall k: nat | k < 8 :: HasBit(x, k)
  {
    hide And, Pow2, Bit;
    EightBits();
    forall k: nat | k < 8 ensures HasBit(0xFF, k) {
      assert 0xFF == Not(8, 0);
      NotBits(8, 0, k);
      ZeroBits(k);
      AndMask(8, 0xFF, k);
    }
    if forall k: nat | k < 8 :: HasBit(x, k) { SameByte(x, 0xFF); }
  }

  lemma ZeroByte(k: nat)
    requires k < 8
    ensures !HasBit(0, k)
  {
    AndMask(8, 0, k);
    ZeroBits(k);
  }

  predicate IsSet(m: seq<byte>, i: nat)
    requires i < 8 * |m|
  {
    HasBit(m[i / 8], i % 8)
  }

  /** Bit `i` is the bit of weight `2^(i % 8)` of byte `i / 8`. */
  lemma IsSetIsBit(m: seq<byte>, i: nat)
    requires i < 8 * |m|
    ensures IsSet(m, i) <==> m[i / 8] / Pow2(i % 8) % 2 == 1
  {
    hide And, Pow2;
    AndMask(8, m[i / 8], i % 8);
    BitValue(m[i / 8], i % 8);
  }

  lemma {:induction false} BitValue(x: nat, k: nat)
    ensures Bit(x, k) <==> x / Pow2(k) % 2 == 1
    decreases k
  {
    if k > 0 {
      BitValue(x / 2, k - 1);
      DivTwice(x, 2, Pow2(k - 1));
    }
  }

  function SetBit(m: seq<byte>, i: nat): seq<byte>
    requires i < 8 * |m|
  {
    m[i / 8 := WithBit(m[i / 8], i % 8)]
  }

  function ClearBit(m: seq<byte>, i: nat): seq<byte>
    requires i < 8 * |m|
  {
    m[i / 8 := WithoutBit(m[i / 8], i % 8)]
  }

  lemma SetBitEffect(m: seq<byte>, i: nat, j: nat)
    requires i < 8 * |m| && j < 8 * |m|
    ensures IsSet(SetBit(m, i), j) <==> j == i || IsSet(m, j)
  {
    hide HasBit, WithBit;
    WithBitEffect(m[i / 8], i % 8, j % 8);
  }

  lemma ClearBitEffect(m: seq<byte>, i: nat, j: nat)
    requires i < 8 * |m| && j < 8 * |m|
    ensures IsSet(ClearBit(m, i), j) <==> j != i && IsSet(m, j)
  {
    hide HasBit, WithoutBit;
    WithBitEffect(m[i / 8], i % 8, j % 8);
  }

  lemma ClearUndoesSet(m: seq<byte>, i: nat)
    requires i < 8 * |m| && !IsSet(m, i)
    ensures ClearBit(SetBit(m, i), i) == m
  {
    hide HasBit, WithBit, WithoutBit;
    var x, k := m[i / 8], i % 8;
    forall j: nat | j < 8 ensures HasBit(WithoutBit(WithBit(x, k), k), j) <==> HasBit(x, j) {
      WithBitEffect(x, k, j);
      WithBitEffect(WithBit(x, k), k, j);
    }
    SameByte(WithoutBit(WithBit(x, k), k), x);
  }

  lemma SetBitAgain(m: seq<byte>, i: nat)
    requires i < 8 * |m| && IsSet(m, i)
    ensures SetBit(m, i) == m
  {
    hide HasBit, WithBit;
    var x, k := m[i / 8], i % 8;
    forall j: nat | j < 8 ensures HasBit(WithBit(x, k), j) <==> HasBit(x, j) { WithBitEffect(x, k, j); }
    SameByte(WithBit(x, k), x);
  }

  /** The least clear bit at or after `i`: the plain search that the byte-skipping one must agree with. */
  function FirstClear(m: seq<byte>, i: nat := 0): (r: Option<nat>)
    requires i <= 8 * |m|
    ensures r.Some? ==> i <= r.value < 8 * |m| && !IsSet(m, r.value)
    ensures forall j: nat | i <= j < (if r.Some? then r.value else 8 * |m|) :: IsSet(m, j)
    decreases 8 * |m| - i
  {
    if i == 8 * |m| then None else if !IsSet(m, i) then Some(i) else FirstClear(m, i + 1)
  }

  lemma FirstClearUnique(m: seq<byte>, i: nat)
    requires i < 8 * |m| && !IsSet(m, i)
    requires forall j: nat | j < i :: IsSet(m, j)
    ensures FirstClear(m) == Some(i)
  {
    assert FirstClear(m).Some?;
  }

  /** The number of set bits among the first `n`. */
  function CountSet(m: seq<byte>, n: nat): nat
    requires n <= 8 * |m|
  {
    if n == 0 then 0 else CountSet(m, n - 1) + if IsSet(m, n - 1) then 1 else 0
  }

  lemma {:induction false} SetBitCount(m: seq<byte>, i: nat, n: nat)
    requires i < 8 * |m| && !IsSet(m, i) && n <= 8 * |m|
    ensures CountSet(SetBit(m, i), n) == CountSet(m, n) + if i < n then 1 else 0
  {
    if n > 0 {
      SetBitCount(m, i, n - 1);
      SetBitEffect(m, i, n - 1);
    }
  }

  /** The bits handed out by `n` successive searches (fewer if the map fills up). */
  function Allocations(m: seq<byte>, n: nat): seq<nat>
    decreases n
  {
    if n == 0 then [] else
      match FirstClear(m)
      case None => []
      case Some(i) => [i] + Allocations(SetBit(m, i), n - 1)
  }

  /** Without clears no bit is handed out twice: successive searches return ever larger indices. */
  lemma {:induction false} AllocationsIncrease(m: seq<byte>, n: nat, lo: nat)
    requires lo <= 8 * |m| && forall j: nat | j < lo :: IsSet(m, j)
    ensures forall a :: 0 <= a < |Allocations(m, n)| ==> lo <= Allocations(m, n)[a] < 8 * |m|
    ensures forall a, b :: 0 <= a < b < |Allocations(m, n)| ==> Allocations(m, n)[a] < Allocations(m, n)[b]
    decreases n
  {
    if n > 0 && FirstClear(m).Some? {
      var i := FirstClear(m).value;
      forall j: nat | j < i + 1 ensures IsSet(SetBit(m, i), j) { SetBitEffect(m, i, j); }
      AllocationsIncrease(SetBit(m, i), n - 1, i + 1);
      assert lo <= i;
    }
  }

  datatype BitmapError = AlreadyAllocated | AlreadyCleared

  /** A bitmap is a view over a mutable byte slice. */
  class Bitmap {
    const bits: array<byte>

    constructor (bits: array<byte>)
      ensures this.bits == bits
    {
      this.bits := bits;
    }

    method Set(idx: nat) returns (error: Option<BitmapError>)
      requires idx < 8 * bits.Length
      modifies bits
      ensures error == if old(IsSet(bits[..], idx)) then Some(AlreadyAllocated) else None
      ensures bits[..] == if error.None? then SetBit(old(bits[..]), idx) else old(bits[..])
    {
      if HasBit(bits[idx / 8], idx % 8) {
        return Some(AlreadyAllocated);
      }
      bits[idx / 8] := WithBit(bits[idx / 8], idx % 8);
      return None;
    }

    method Clear(idx: nat) returns (error: Option<BitmapError>)
      requires idx < 8 * bits.Length
      modifies bits
      ensures error == if old(IsSet(bits[..], idx)) then None else Some(AlreadyCleared)
      ensures bits[..] == if error.None? then ClearBit(old(bits[..]), idx) else old(bits[..])
    {
      if !HasBit(bits[idx / 8], idx % 8) {
        return Some(AlreadyCleared);
      }
      bits[idx / 8] := WithoutBit(bits[idx / 8], idx % 8);
      return None;
    }

    /** The scan that skips full bytes finds what the bit-by-bit search finds, and sets it. */
    method FindAndSetFirstFree() returns (r: Option<nat>)
      modifies bits
      ensures r == FirstClear(old(bits[..]))
      ensures bits[..] == if r.Some? then SetBit(old(bits[..]), r.value) else old(bits[..])
    {
      hide HasBit, WithBit;
      ghost var m := bits[..];
      for byteIdx := 0 to bits.Length
        invariant bits[..] == m
        invariant forall j: nat | j < 8 * byteIdx :: IsSet(m, j)
      {
        var current := bits[byteIdx];
        FullByte(current);
        if current != 0xFF {
          for bit := 0 to 8
            invariant bits[..] == m
            invariant forall j: nat | j < 8 * byteIdx + bit :: IsSet(m, j)
          {
            var idx := byteIdx * 8 + bit;
            if !HasBit(current, bit) {
              FirstClearUnique(m, idx);
              var taken := Set(idx);
              return Some(idx);
            }
          }
        } else {
          forall j: nat | 8 * byteIdx <= j < 8 * byteIdx + 8 ensures IsSet(m, j) {
            assert HasBit(current, j % 8);
          }
        }
      }
      assert FirstClear(m).None?;
      return None;
    }
  }
}
