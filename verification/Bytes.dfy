/**
  Little-endian integers and byte ranges, as the on-disk structures use them.

  Integers are mathematical; the subset types carry the widths of the source.
*/
module Bytes {
  type byte = x: int | 0 <= x < 256
  type u16 = x: int | 0 <= x < 0x1_0000
  type u32 = x: int | 0 <= x < 0x1_0000_0000
  type u64 = x: int | 0 <= x < 0x1_0000_0000_0000_0000

  /** 256 to the power `w`: one more than the largest integer of `w` bytes. */
  function Span(w: nat): (n: nat)
    ensures n > 0
  {
    if w == 0 then 1 else 256 * Span(w - 1)
  }

  lemma SpanValues()
    ensures Span(2) == 0x1_0000
    ensures Span(4) == 0x1_0000_0000
    ensures Span(8) == 0x1_0000_0000_0000_0000
  {
    assert Span(1) == 256 && Span(3) == 256 * Span(2);
    assert Span(5) == 256 * Span(4) && Span(7) == 256 * Span(6);
  }

  /** The little-endian form of `x` in `w` bytes. */
  function ToLE(w: nat, x: nat): (s: seq<byte>)
    ensures |s| == w
  {
    if w == 0 then [] else [x % 256] + ToLE(w - 1, x / 256)
  }

  /** The integer that a little-endian byte string denotes. */
  function FromLE(s: seq<byte>): nat {
    if s == [] then 0 else s[0] + 256 * FromLE(s[1..])
  }

  lemma {:induction false} LERoundTrip(w: nat, x: nat)
    requires x < Span(w)
    ensures FromLE(ToLE(w, x)) == x
  {
    if w > 0 {
      LERoundTrip(w - 1, x / 256);
      assert ToLE(w, x)[1..] == ToLE(w - 1, x / 256);
    }
  }

  /** Byte `k` has weight 256 to the power `k`. */
  lemma {:induction false} ToLEByte(w: nat, x: nat, k: nat)
    requires k < w
    ensures ToLE(w, x)[k] == x / Span(k) % 256
    decreases k
  {
    if k > 0 {
      ToLEByte(w - 1, x / 256, k - 1);
      DivTwice(x, 256, Span(k - 1));
    }
  }

  lemma DivTwice(x: nat, b: nat, p: nat)
    requires b > 0 && p > 0
    ensures x / b / p == x / (b * p)
  {
    var y, q, r := x / b, x / b / p, x / b % p;
    DivMod(x, b);
    DivMod(y, p);
    var j := b * r + x % b;
    TimesMonotone(b, r + 1, p);
    Distribute(b, p * q, r);
    Distribute(b, r, 1);
    Regroup(b, p, q);
    FieldByte(b * p, q, j);
  }

  lemma Distribute(b: int, x: int, y: int)
    ensures b * (x + y) == b * x + b * y
  {
  }

  lemma Regroup(b: int, p: int, q: int)
    ensures b * (p * q) == (b * p) * q
  {
  }

  lemma {:induction false} FromLEBound(s: seq<byte>)
    ensures FromLE(s) < Span(|s|)
  {
    if s != [] { FromLEBound(s[1..]); }
  }

  /** A `repr(C)` run of fields, all `w` bytes wide. */
  function Fields(w: nat, xs: seq<nat>): (s: seq<byte>)
    requires w > 0
    ensures |s| == w * |xs|
  {
    seq(w * |xs|, k requires 0 <= k < w * |xs| => FieldIndex(w, |xs|, k); ToLE(w, xs[k / w])[k % w])
  }

  lemma FieldIndex(w: nat, n: nat, k: nat)
    requires 0 < w && k < w * n
    ensures k / w < n
  {
    if k / w >= n { TimesMonotone(w, n, k / w); }
  }

  lemma TimesMonotone(w: nat, x: int, y: int)
    requires x <= y
    ensures w * x <= w * y
  {
  }

  lemma FieldByte(w: nat, i: nat, j: nat)
    requires j < w
    ensures (w * i + j) / w == i && (w * i + j) % w == j
  {
    var a := w * i + j;
    DivMod(a, w);
    if a / w < i { TimesMonotone(w, a / w + 1, i); }
    if a / w > i { TimesMonotone(w, i + 1, a / w); }
  }

  lemma DivMod(a: int, w: nat)
    requires w > 0
    ensures a == w * (a / w) + a % w && 0 <= a % w < w
  {
  }

  /** Reads `s` as `n` fields of `w` bytes each. */
  function Parse(w: nat, n: nat, s: seq<byte>): (xs: seq<nat>)
    requires |s| == w * n
    ensures |xs| == n
    ensures forall i :: 0 <= i < n ==> xs[i] < Span(w)
  {
    FieldsInRange(w, n);
    forall i | 0 <= i < n ensures FromLE(s[w * i..w * i + w]) < Span(w) { FromLEBound(s[w * i..w * i + w]); }
    seq(n, i requires 0 <= i < n => FromLE(s[w * i..w * i + w]))
  }

  lemma FieldsInRange(w: nat, n: nat)
    ensures forall i :: 0 <= i < n ==> 0 <= w * i && w * i + w <= w * n
  {
    forall i | 0 <= i < n ensures 0 <= w * i && w * i + w <= w * n { FieldInRange(w, n, i); }
  }

  lemma FieldInRange(w: nat, n: nat, i: nat)
    requires i < n
    ensures 0 <= w * i && w * i + w <= w * n
  {
    TimesMonotone(w, 0, i);
    TimesMonotone(w, i + 1, n);
    assert w * (i + 1) == w * i + w;
  }

  lemma FieldsAt(w: nat, xs: seq<nat>, i: nat)
    requires w > 0 && i < |xs|
    ensures 0 <= w * i && w * i + w <= w * |xs| && Fields(w, xs)[w * i..w * i + w] == ToLE(w, xs[i])
  {
    FieldInRange(w, |xs|, i);
    var lo := w * i;
    var s := Fields(w, xs)[lo..lo + w];
    forall j | 0 <= j < w ensures s[j] == ToLE(w, xs[i])[j] {
      FieldByte(w, i, j);
      assert s[j] == Fields(w, xs)[lo + j];
    }
  }

  lemma FieldsRoundTrip(w: nat, xs: seq<nat>)
    requires w > 0 && forall i :: 0 <= i < |xs| ==> xs[i] < Span(w)
    ensures Parse(w, |xs|, Fields(w, xs)) == xs
  {
    forall i | 0 <= i < |xs| ensures Parse(w, |xs|, Fields(w, xs))[i] == xs[i] {
      FieldsAt(w, xs, i);
      LERoundTrip(w, xs[i]);
    }
  }

  /** `s` with the bytes from `at` on replaced by `t`. */
  function Splice(s: seq<byte>, at: nat, t: seq<byte>): (r: seq<byte>)
    requires at + |t| <= |s|
    ensures |r| == |s|
    ensures r[at..at + |t|] == t
    ensures forall i :: 0 <= i < |s| && !(at <= i < at + |t|) ==> r[i] == s[i]
  {
    s[..at] + t + s[at + |t|..]
  }

  /** A byte range that a splice does not touch keeps its contents. */
  lemma SpliceElsewhere(s: seq<byte>, at: nat, t: seq<byte>, lo: nat, hi: nat)
    requires at + |t| <= |s| && lo <= hi <= |s|
    requires hi <= at || at + |t| <= lo
    ensures Splice(s, at, t)[lo..hi] == s[lo..hi]
  {
  }
}
