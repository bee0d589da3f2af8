/** Byte strings and the big-endian integer codecs (src/utils/utils.h, src/utils/utils.cpp,
    src/utils/strings.h).  Every wire format of the node is built from these. */
module Bytes {

  type byte = x: int | 0 <= x < 256
  type bytes = seq<byte>

  /** Fixed-size strings (`FixedStr<N>`). */
  type Hash = h: bytes | |h| == 32 witness Zeros(32)
  type Address = a: bytes | |a| == 20 witness Zeros(20)

  const U32: nat := 0x1_0000_0000
  const U64: nat := 0x1_0000_0000_0000_0000
  const U256: nat := 0x1_0000_0000_0000_0000_0000_0000_0000_0000_0000_0000_0000_0000_0000_0000_0000_0000

  type u32 = n: int | 0 <= n < U32
  type u64 = n: int | 0 <= n < U64
  type u256 = n: int | 0 <= n < U256

  /** A std::string: its largest size is 2^62 - 1. */
  type str = b: bytes | |b| < 0x4000_0000_0000_0000

  /** Results of operations that throw in the original. */
  datatype Result<+T> = Ok(value: T) | Err {
    predicate IsFailure() { Err? }
    function PropagateFailure<U>(): Result<U>
      requires Err?
    { Err }
    function Extract(): T
      requires Ok?
    { value }
  }

  function Zeros(n: nat): (r: bytes)
    ensures |r| == n
    ensures forall i :: 0 <= i < n ==> r[i] == 0
  {
    if n == 0 then [] else Zeros(n - 1) + [0]
  }

  function Pow256(k: nat): (p: nat)
    ensures p >= 1
  {
    if k == 0 then 1 else 256 * Pow256(k - 1)
  }

  /** The number a byte string denotes, most significant byte first. */
  function FromBigEndian(b: bytes): (n: nat)
  {
    if |b| == 0 then 0 else 256 * FromBigEndian(b[..|b| - 1]) + b[|b| - 1]
  }

  /** How many bytes an integer needs. */
  function BytesRequired(n: nat): nat {
    if n == 0 then 0 else 1 + BytesRequired(n / 256)
  }

  /** The shortest big-endian form; zero is the empty string. */
  function UintToBytes(n: nat): (r: bytes)
    ensures |r| == BytesRequired(n)
  {
    if n == 0 then [] else UintToBytes(n / 256) + [n % 256]
  }

  /** Big-endian form of exactly `w` bytes; the value is reduced modulo `Pow256(w)`. */
  function Fixed(n: nat, w: nat): (r: bytes)
    ensures |r| == w
  {
    if w == 0 then [] else Fixed(n / 256, w - 1) + [n % 256]
  }

  /** The value a 64-bit integer keeps of `n`. */
  function Truncate64(n: nat): (r: u64) { if n < U64 then n else n % U64 }

  function PadLeft(b: bytes, w: nat): (r: bytes)
    ensures |r| == if |b| < w then w else |b|
  {
    if |b| < w then Zeros(w - |b|) + b else b
  }

  function PadRight(b: bytes, w: nat): (r: bytes)
    ensures |r| == if |b| < w then w else |b|
    ensures r[..|b|] == b
  {
    if |b| < w then b + Zeros(w - |b|) else b
  }

  // ----- Facts about the codecs

  lemma {:induction false} Pow256Monotone(j: nat, k: nat)
    requires j <= k
    ensures Pow256(j) <= Pow256(k)
    decreases k
  {
    if j < k { Pow256Monotone(j, k - 1); }
  }

  lemma Pow256Values()
    ensures Pow256(4) == U32 && Pow256(8) == U64 && Pow256(32) == U256
  {
    assert Pow256(4) == 0x1_0000_0000;
    assert Pow256(8) == 0x1_0000_0000 * Pow256(4);
    assert Pow256(16) == U64 * Pow256(8);
    assert Pow256(24) == U64 * Pow256(16);
    assert Pow256(32) == U64 * Pow256(24);
  }

  /** The byte count is exact: k bytes hold the value and k - 1 do not. */
  lemma {:induction false} BytesRequiredIsExact(n: nat)
    ensures n < Pow256(BytesRequired(n))
    ensures n > 0 ==> Pow256(BytesRequired(n) - 1) <= n
  {
    if n > 0 { BytesRequiredIsExact(n / 256); }
  }

  /** A value below `Pow256(k)` needs at most `k` bytes. */
  lemma {:induction false} BytesRequiredBound(n: nat, k: nat)
    requires n < Pow256(k)
    ensures BytesRequired(n) <= k
  {
    if n > 0 { BytesRequiredBound(n / 256, k - 1); }
  }

  /** Reading the shortest form gives the value back, and that form has no leading zero. */
  lemma {:induction false} UintRoundTrip(n: nat)
    ensures FromBigEndian(UintToBytes(n)) == n
    ensures n > 0 ==> UintToBytes(n)[0] != 0
  {
    if n > 0 {
      UintRoundTrip(n / 256);
      var r := UintToBytes(n);
      assert r[..|r| - 1] == UintToBytes(n / 256);
    }
  }

  lemma {:induction false} FromBigEndianBound(b: bytes)
    ensures FromBigEndian(b) < Pow256(|b|)
  {
    if |b| > 0 { FromBigEndianBound(b[..|b| - 1]); }
  }

  /** Reading back a fixed-width integer gives the value it was written from. */
  lemma {:induction false} FixedRoundTrip(n: nat, w: nat)
    requires n < Pow256(w)
    ensures FromBigEndian(Fixed(n, w)) == n
  {
    if w > 0 {
      FixedRoundTrip(n / 256, w - 1);
      var r := Fixed(n, w);
      assert r[..|r| - 1] == Fixed(n / 256, w - 1);
    }
  }

  /** Writing a number read from `|b|` bytes restores the bytes. */
  lemma {:induction false} FixedInverse(b: bytes)
    ensures Fixed(FromBigEndian(b), |b|) == b
  {
    if |b| > 0 {
      FixedInverse(b[..|b| - 1]);
      assert b == b[..|b| - 1] + [b[|b| - 1]];
    }
  }

  lemma {:induction false} FromBigEndianPadded(z: nat, b: bytes)
    ensures FromBigEndian(Zeros(z) + b) == FromBigEndian(b)
  {
    var p := Zeros(z) + b;
    if |b| == 0 {
      if z > 0 {
        FromBigEndianPadded(z - 1, b);
        assert p[..|p| - 1] == Zeros(z - 1) + b;
      }
    } else {
      FromBigEndianPadded(z, b[..|b| - 1]);
      assert p[..|p| - 1] == Zeros(z) + b[..|b| - 1];
    }
  }

  /** Most significant bytes first: what stands in front counts `Pow256` of the rest's length times. */
  lemma {:induction false} FromBigEndianOfBoth(a: bytes, b: bytes)
    ensures FromBigEndian(a + b) == FromBigEndian(a) * Pow256(|b|) + FromBigEndian(b)
    decreases |b|
  {
    if |b| == 0 {
      assert a + b == a;
    } else {
      var m := |b| - 1;
      FromBigEndianOfBoth(a, b[..m]);
      assert (a + b)[..|a| + m] == a + b[..m];
      ShiftByte(FromBigEndian(a), Pow256(m), FromBigEndian(b[..m]), b[m]);
    }
  }

  lemma FromBigEndianOfOne(c: byte)
    ensures FromBigEndian([c]) == c
  {
    assert [c][..0] == [];
  }

  lemma ShiftByte(x: nat, p: nat, y: nat, c: nat)
    ensures 256 * (x * p + y) + c == x * (256 * p) + (256 * y + c)
  {
  }

  /** A byte string is determined by its length and its value. */
  lemma SameValueSameBytes(a: bytes, b: bytes)
    requires |a| == |b| && FromBigEndian(a) == FromBigEndian(b)
    ensures a == b
  {
    FixedInverse(a);
    FixedInverse(b);
  }

  /** Left-padding the shortest form to `w` bytes is the fixed-width form. */
  lemma PaddedUintIsFixed(n: nat, w: nat)
    requires n < Pow256(w)
    ensures PadLeft(UintToBytes(n), w) == Fixed(n, w)
  {
    BytesRequiredBound(n, w);
    UintRoundTrip(n);
    FromBigEndianPadded(w - BytesRequired(n), UintToBytes(n));
    FixedRoundTrip(n, w);
    SameValueSameBytes(PadLeft(UintToBytes(n), w), Fixed(n, w));
  }

  /** The shortest form is the only one without a leading zero byte. */
  lemma ShortestFormIsUnique(b: bytes)
    requires |b| > 0 ==> b[0] != 0
    ensures UintToBytes(FromBigEndian(b)) == b
  {
    var n := FromBigEndian(b);
    if |b| > 0 {
      LeadingByteBound(b);
      FromBigEndianBound(b);
      BytesRequiredBound(n, |b|);
      BytesRequiredIsExact(n);
      UintRoundTrip(n);
      if BytesRequired(n) < |b| { Pow256Monotone(BytesRequired(n), |b| - 1); }
      SameValueSameBytes(UintToBytes(n), b);
    }
  }

  lemma {:induction false} LeadingByteBound(b: bytes)
    requires |b| > 0 && b[0] != 0
    ensures Pow256(|b| - 1) <= FromBigEndian(b)
  {
    if |b| > 1 { LeadingByteBound(b[..|b| - 1]); }
  }

  // ----- The loops of src/utils/utils.h

  /** `fromBigEndian<uint64_t>`: every step truncates to 64 bits. */
  method ReadBigEndian64(b: bytes) returns (ret: nat)
    ensures ret == Truncate64(FromBigEndian(b))
  {
    ret := 0;
    for i := 0 to |b|
      invariant ret == FromBigEndian(b[..i]) % U64
    {
      assert b[..i + 1][..i] == b[..i];
      TruncatedStep(FromBigEndian(b[..i]), b[i]);
      ret := (256 * ret + b[i]) % U64;
    }
    assert b[..|b|] == b;
  }

  lemma TruncatedStep(x: nat, c: nat)
    ensures (256 * (x % U64) + c) % U64 == (256 * x + c) % U64
  {
    var q, r := x / U64, x % U64;
    assert 256 * x + c == 256 * r + c + (256 * q) * U64;
    AddMultiple(256 * r + c, 256 * q);
  }

  lemma {:induction false} AddMultiple(a: nat, k: nat)
    ensures (a + k * U64) % U64 == a % U64
    decreases k
  {
    if k > 0 { AddMultiple(a + U64, k - 1); }
  }

  /** `fromBigEndian<uint256_t>`: the checked integer throws when a shift loses bits. */
  method ReadBigEndian256(b: bytes) returns (r: Result<nat>)
    ensures r == if FromBigEndian(b) < U256 then Ok(FromBigEndian(b)) else Err
  {
    var ret := 0;
    for i := 0 to |b|
      invariant ret == FromBigEndian(b[..i]) < U256
    {
      assert b[..i + 1][..i] == b[..i];
      ret := 256 * ret + b[i];
      if ret >= U256 {
        PrefixIsSmaller(b, i + 1);
        return Err;
      }
    }
    assert b[..|b|] == b;
    return Ok(ret);
  }

  lemma {:induction false} PrefixIsSmaller(b: bytes, i: nat)
    requires i <= |b|
    ensures FromBigEndian(b[..i]) <= FromBigEndian(b)
  {
    if i < |b| {
      PrefixIsSmaller(b[..|b| - 1], i);
      assert b[..|b| - 1][..i] == b[..i];
    } else {
      assert b[..i] == b;
    }
  }

  method CountBytesRequired(n: nat) returns (ic: nat)
    ensures ic == BytesRequired(n)
  {
    ic := 0;
    var i := n;
    while i != 0
      invariant ic + BytesRequired(i) == BytesRequired(n)
    {
      ic, i := ic + 1, i / 256;
    }
  }

  lemma LowestByteLast(i: nat, rest: bytes)
    requires i != 0
    ensures UintToBytes(i) + rest == UintToBytes(i / 256) + ([i % 256] + rest)
    ensures BytesRequired(i) == BytesRequired(i / 256) + 1
  {
    var hi := UintToBytes(i / 256);
    assert UintToBytes(i) == hi + [i % 256];
    assert hi + [i % 256] + rest == hi + ([i % 256] + rest);
  }

  /** `uintToBytes`: allocates the exact size and fills the buffer from its last byte. */
  method WriteUint(n: nat) returns (r: bytes)
    ensures r == UintToBytes(n)
  {
    var size := CountBytesRequired(n);
    var buffer := new byte[size];
    var i, b := n, size;
    while i != 0
      invariant 0 <= b <= size
      invariant BytesRequired(i) == b
      invariant UintToBytes(i) + buffer[b..] == UintToBytes(n)
    {
      LowestByteLast(i, buffer[b..]);
      b := b - 1;
      buffer[b] := i % 256;
      assert buffer[b..] == [i % 256] + buffer[b + 1..];
      i := i / 256;
    }
    r := buffer[..];
  }
}
