/**
 Byte buffers as the file formats use them: big-endian unsigned numbers, bounded reads that
 fail outside the buffer, string slices that are cut off at its end, and in-place writes.
 */
module Buffers {
  import opened Wrappers
  import opened Keys

  // ----- Big-endian numbers -----

  ghost function Pow256(k: nat): (p: nat)
    ensures p > 0
  {
    if k == 0 then 1 else 256 * Pow256(k - 1)
  }

  lemma PowersOf256()
    ensures Pow256(1) == 0x100 && Pow256(2) == 0x1_0000 && Pow256(4) == 0x1_0000_0000
    ensures Pow256(8) == 0x1_0000_0000_0000_0000
  {
    assert Pow256(1) == 256 * Pow256(0);
    assert Pow256(2) == 256 * Pow256(1);
    assert Pow256(3) == 256 * Pow256(2);
    assert Pow256(4) == 256 * Pow256(3);
    assert Pow256(5) == 256 * Pow256(4);
    assert Pow256(6) == 256 * Pow256(5);
    assert Pow256(7) == 256 * Pow256(6);
  }

  /** The `k` low-order bytes of `n`, most significant first. */
  function Encode(n: nat, k: nat): (s: Bytes)
    ensures |s| == k
  {
    if k == 0 then [] else Encode(n / 256, k - 1) + [(n % 256) as Byte]
  }

  function Decode(s: Bytes): nat {
    if s == [] then 0 else 256 * Decode(s[..|s| - 1]) + s[|s| - 1] as nat
  }

  lemma {:induction false} NumberRoundTrip(n: nat, k: nat)
    requires n < Pow256(k)
    ensures Decode(Encode(n, k)) == n
  {
    if k > 0 {
      NumberRoundTrip(n / 256, k - 1);
      assert Encode(n, k)[..k - 1] == Encode(n / 256, k - 1);
    }
  }

  /** A number lies between what its leading byte alone and the next leading byte stand for. */
  lemma {:induction false} LeadingByte(s: Bytes)
    requires s != []
    ensures s[0] as nat * Pow256(|s| - 1) <= Decode(s) < (s[0] as nat + 1) * Pow256(|s| - 1)
  {
    var t, last := s[..|s| - 1], s[|s| - 1] as nat;
    if t != [] {
      LeadingByte(t);
      ScaleUp(s[0] as nat, Pow256(|t| - 1), Decode(t), last);
    }
  }

  lemma ScaleUp(lo: nat, p: nat, d: nat, b: nat)
    requires lo * p <= d < (lo + 1) * p && b < 256
    ensures lo * (256 * p) <= 256 * d + b < (lo + 1) * (256 * p)
  {
    assert lo * (256 * p) == 256 * (lo * p);
    assert (lo + 1) * (256 * p) == 256 * ((lo + 1) * p);
  }

  // ----- Reading -----

  /** `x` stands in `b` at `off`. */
  ghost predicate At(b: Bytes, off: nat, x: Bytes) {
    off + |x| <= |b| && b[off..off + |x|] == x
  }

  lemma AtConcat(b: Bytes, off: nat, x: Bytes, y: Bytes)
    ensures At(b, off, x + y) <==> At(b, off, x) && At(b, off + |x|, y)
  {
    if off + |x| + |y| <= |b| {
      var u, v := b[off..off + |x|], b[off + |x|..off + |x| + |y|];
      assert b[off..off + |x + y|] == u + v;
      assert (u + v)[..|x|] == u && (u + v)[|x|..] == v && (x + y)[..|x|] == x && (x + y)[|x|..] == y;
    }
  }

  lemma AtFour(b: Bytes, off: nat, w: Bytes, x: Bytes, y: Bytes, z: Bytes)
    requires At(b, off, w + x + y + z)
    ensures At(b, off, w) && At(b, off + |w|, x) && At(b, off + |w| + |x|, y) && At(b, off + |w| + |x| + |y|, z)
  {
    AtConcat(b, off, w + x + y, z);
    AtConcat(b, off, w + x, y);
    AtConcat(b, off, w, x);
  }

  lemma AtMiddle(a: Bytes, x: Bytes, c: Bytes)
    ensures At(a + x + c, |a|, x)
  {
  }

  /** An unsigned big-endian read of `k` bytes; it throws when it would leave the buffer. */
  function ReadUInt(b: Bytes, off: nat, k: nat): Result<nat> {
    if off + k <= |b| then Ok(Decode(b[off..off + k])) else Err("ERR_OUT_OF_RANGE")
  }

  lemma ReadBack(b: Bytes, off: nat, n: nat, k: nat)
    requires At(b, off, Encode(n, k)) && n < Pow256(k)
    ensures ReadUInt(b, off, k) == Ok(n)
  {
    NumberRoundTrip(n, k);
  }

  /** A slice as string conversion takes it: cut off at the end of the buffer. */
  function Slice(b: Bytes, from: nat, to: nat): Bytes
    requires from <= to
  {
    if from >= |b| then [] else b[from..if to < |b| then to else |b|]
  }

  // ----- Writing in place -----

  method WriteUInt(buffer: array<Byte>, n: nat, off: nat, k: nat)
    requires off + k <= buffer.Length
    modifies buffer
    ensures buffer[..off + k] == old(buffer[..off]) + Encode(n, k)
    ensures buffer[off + k..] == old(buffer[off + k..])
  {
    var v: nat, i: nat := n, k;
    while i > 0
      invariant i <= k && buffer[..off] == old(buffer[..off]) && buffer[off + k..] == old(buffer[off + k..])
      invariant Encode(n, k) == Encode(v, i) + buffer[off + i..off + k]
    {
      i := i - 1;
      buffer[off + i] := (v % 256) as Byte;
      v := v / 256;
    }
    assert buffer[..off + k] == buffer[..off] + buffer[off..off + k];
  }

  method CopyInto(buffer: array<Byte>, source: Bytes, off: nat)
    requires off + |source| <= buffer.Length
    modifies buffer
    ensures buffer[..off + |source|] == old(buffer[..off]) + source
    ensures buffer[off + |source|..] == old(buffer[off + |source|..])
  {
    var i := 0;
    while i < |source|
      invariant i <= |source| && buffer[..off + i] == old(buffer[..off]) + source[..i]
      invariant buffer[off + |source|..] == old(buffer[off + |source|..])
    {
      buffer[off + i] := source[i];
      i := i + 1;
    }
    assert source[..|source|] == source;
  }
}
