/** The RLP items the transaction serializers write and the readers the parsers use
    (src/utils/tx.cpp; Appendix B of the Ethereum Yellow Paper). */
module Rlp {
  import opened Bytes

  // ----- Writers

  /** An integer: zero is the empty string, a small value stands for itself. */
  function RlpUint(n: u256): (r: bytes) {
    if n == 0 then [0x80]
    else if n < 0x80 then [n]
    else Uint256Width(n); [0x80 + BytesRequired(n)] + UintToBytes(n)
  }

  /** The variant used for `v` and `chainId` of validator transactions: zero is the byte 0x00. */
  function RlpByteUint(n: u256): (r: bytes) {
    if n < 0x80 then [n] else RlpUint(n)
  }

  /** The variant used for `r` and `s`: a length prefix is written even for small values. */
  function RlpPrefixedUint(n: u256): (r: bytes) {
    Uint256Width(n);
    [0x80 + BytesRequired(n)] + UintToBytes(n)
  }

  function RlpString(d: str): (r: bytes) {
    if |d| <= 55 then [0x80 + |d|] + d
    else Uint64Width(|d|); [0xb7 + BytesRequired(|d|)] + (UintToBytes(|d|) + d)
  }

  function RlpListHeader(size: u64): (r: bytes) {
    if size <= 55 then [0xc0 + size]
    else Uint64Width(size); [0xf7 + BytesRequired(size)] + UintToBytes(size)
  }

  lemma Uint256Width(n: u256)
    ensures BytesRequired(n) <= 32
  {
    Pow256Values();
    BytesRequiredBound(n, 32);
  }

  lemma Uint64Width(n: u64)
    ensures BytesRequired(n) <= 8
    ensures n > 0 ==> BytesRequired(n) > 0
  {
    Pow256Values();
    BytesRequiredBound(n, 8);
  }

  function UintSize(n: u256): (k: nat)
    ensures k == |RlpUint(n)|
    ensures 1 <= k <= 33
  {
    Uint256Width(n);
    if n < 0x80 then 1 else 1 + BytesRequired(n)
  }

  function StringSize(d: str): (k: nat)
    ensures k == |RlpString(d)| <= 9 + |d|
  {
    Uint64Width(|d|);
    if |d| == 0 then 1 else if |d| <= 55 then 1 + |d| else 1 + BytesRequired(|d|) + |d|
  }

  // ----- Readers: each consumes a prefix of `rest`; Err stands for a throw or a read past the end

  function ReadUint(rest: bytes, limit: nat): (r: Result<(nat, bytes)>)
    ensures r.Ok? ==> |r.value.1| < |rest|
  {
    if |rest| == 0 then Err
    else if rest[0] <= 0x80 then Ok((if rest[0] == 0x80 then 0 else rest[0], rest[1..]))
    else
      var len := rest[0] - 0x80;
      if len > limit || 1 + len > |rest| then Err
      else Ok((FromBigEndian(rest[1..1 + len]), rest[1 + len..]))
  }

  function ReadUint64(rest: bytes, limit: nat): (r: Result<(u64, bytes)>)
    ensures r.Ok? ==> |r.value.1| < |rest|
  {
    var (n, after) :- ReadUint(rest, limit);
    Ok((Truncate64(n), after))
  }

  function ReadUint256(rest: bytes): (r: Result<(u256, bytes)>)
    ensures r.Ok? ==> |r.value.1| < |rest|
  {
    var (n, after) :- ReadUint(rest, 0x37);
    if n < U256 then Ok((n, after)) else Err
  }

  /** `r` and `s`: the prefix is an unsigned 8-bit subtraction, so a byte below 0x80 is too long. */
  function ReadPrefixedUint(rest: bytes, limit: nat): (r: Result<(u256, bytes)>) {
    if |rest| == 0 then Err else
      var prefix: int := rest[0];
      var len := (prefix - 0x80) % 256;
      if len > limit || 1 + len > |rest| then Err
      else
        var n := FromBigEndian(rest[1..1 + len]);
        if n < U256 then Ok((n, rest[1 + len..])) else Err
  }

  /** A string whose prefix is below `longFrom` is short; the parsers pass 0xb7, so a string of
      exactly 55 bytes, written with the prefix 0xb7, is taken for a long one. */
  function ReadString(rest: bytes, longFrom: nat, capped: bool): (r: Result<(bytes, bytes)>)
    requires 0xb7 <= longFrom <= 0xb8
    ensures r.Ok? ==> |r.value.0| <= |rest|
  {
    if |rest| == 0 then Err
    else if rest[0] < 0x80 then Ok(([rest[0]], rest[1..]))
    else if rest[0] < longFrom then
      var len := rest[0] - 0x80;
      if 1 + len > |rest| then Err else Ok((rest[1..1 + len], rest[1 + len..]))
    else if capped && rest[0] >= 0xc0 then Err
    else ReadCounted(rest[0] - 0xb7, rest[1..])
  }

  /** A length field of `size` bytes and that many bytes. */
  function ReadCounted(size: nat, rest: bytes): (r: Result<(bytes, bytes)>)
    ensures r.Ok? ==> |r.value.0| <= |rest|
  {
    if size > |rest| then Err else
      var len := Truncate64(FromBigEndian(rest[..size]));
      if size + len > |rest| then Err else Ok((rest[size..size + len], rest[size + len..]))
  }

  /** List header: its length field must equal what follows it. */
  function StripListHeader(d: str): (r: Result<str>) {
    if |d| == 0 || d[0] < 0xf7 then Err else
      var size := d[0] - 0xf7;
      if 1 + size > |d| || Truncate64(FromBigEndian(d[1..1 + size])) != |d| - size - 1 then Err
      else Ok(d[1 + size..])
  }

  // ----- Readers undo writers

  lemma ReadUintWritten(n: u256, rest: bytes, limit: nat)
    requires limit >= 32
    ensures ReadUint(RlpUint(n) + rest, limit) == Ok((n, rest))
  {
    var all := RlpUint(n) + rest;
    if n >= 0x80 {
      Uint256Width(n);
      UintRoundTrip(n);
      var k := BytesRequired(n);
      assert all[1..1 + k] == UintToBytes(n);
      assert all[1 + k..] == rest;
    } else {
      assert all[1..] == rest;
    }
  }

  lemma ReadByteUintWritten(n: u256, rest: bytes, limit: nat)
    requires limit >= 32
    ensures ReadUint(RlpByteUint(n) + rest, limit) == Ok((n, rest))
  {
    if n == 0 { assert (RlpByteUint(n) + rest)[1..] == rest; } else { ReadUintWritten(n, rest, limit); }
  }

  lemma ReadPrefixedUintWritten(n: u256, rest: bytes, limit: nat)
    requires limit >= 32
    ensures ReadPrefixedUint(RlpPrefixedUint(n) + rest, limit) == Ok((n, rest))
  {
    Uint256Width(n);
    UintRoundTrip(n);
    var k := BytesRequired(n);
    var all := RlpPrefixedUint(n) + rest;
    assert all[1..1 + k] == UintToBytes(n);
    assert all[1 + k..] == rest;
  }

  /** A string is read back whenever its prefix falls on the side it was written for. */
  lemma ReadStringWritten(d: str, rest: bytes, longFrom: nat, capped: bool)
    requires 0xb7 <= longFrom <= 0xb8
    requires |d| != 55 || longFrom == 0xb8
    ensures ReadString(RlpString(d) + rest, longFrom, capped) == Ok((d, rest))
  {
    if |d| <= 55 {
      var all := RlpString(d) + rest;
      assert all[1..1 + |d|] == d;
      assert all[1 + |d|..] == rest;
    } else {
      ReadLongStringWritten(d, rest, longFrom, capped);
    }
  }

  lemma ReadLongStringWritten(d: str, rest: bytes, longFrom: nat, capped: bool)
    requires 0xb7 <= longFrom <= 0xb8 && |d| > 55
    ensures ReadString(RlpString(d) + rest, longFrom, capped) == Ok((d, rest))
  {
    Uint64Width(|d|);
    UintRoundTrip(|d|);
    ReadAfterLength(UintToBytes(|d|), d, rest, longFrom, capped);
  }

  lemma ReadAfterLength(len: bytes, d: str, rest: bytes, longFrom: nat, capped: bool)
    requires 0xb7 <= longFrom <= 0xb8
    requires 0 < |len| <= 8 && FromBigEndian(len) == |d|
    ensures ReadString([0xb7 + |len|] + (len + d) + rest, longFrom, capped) == Ok((d, rest))
  {
    ReadCountedWritten(len, d, rest);
    assert ([0xb7 + |len|] + (len + d) + rest)[1..] == len + d + rest;
  }

  lemma ReadCountedWritten(len: bytes, d: str, rest: bytes)
    requires FromBigEndian(len) == |d|
    ensures ReadCounted(|len|, len + d + rest) == Ok((d, rest))
  {
    ThreeParts(len, d, rest);
  }

  lemma ThreeParts(a: bytes, b: bytes, c: bytes)
    ensures (a + b + c)[..|a|] == a
    ensures (a + b + c)[|a|..|a| + |b|] == b
    ensures (a + b + c)[|a| + |b|..] == c
  {
  }

  /** A string of 55 bytes is read as the empty string, its content left unread. */
  lemma ReadString55(d: str, rest: bytes, capped: bool)
    requires |d| == 55
    ensures ReadString(RlpString(d) + rest, 0xb7, capped) == Ok(([], d + rest))
  {
    var all := RlpString(d) + rest;
    assert all[0] == 0xb7;
    assert all[1..1] == [];
    assert all[1..] == d + rest;
  }

  lemma StripListHeaderWritten(p: str)
    requires |RlpListHeader(|p|) + p| < 0x4000_0000_0000_0000
    ensures StripListHeader(RlpListHeader(|p|) + p) == if |p| > 55 then Ok(p) else Err
  {
    if |p| > 55 {
      Uint64Width(|p|);
      UintRoundTrip(|p|);
      StripLength(UintToBytes(|p|), p);
    } else {
      assert RlpListHeader(|p|) + p == [0xc0 + |p|] + p;
    }
  }

  lemma StripLength(len: bytes, p: str)
    requires |len| <= 8 && FromBigEndian(len) == |p|
    requires |[0xf7 + |len|] + len + p| < 0x4000_0000_0000_0000
    ensures StripListHeader([0xf7 + |len|] + len + p) == Ok(p)
  {
    ThreeParts([0xf7 + |len|], len, p);
  }

  // ----- Forms the readers accept and the writers do not write

  /** 55 bytes behind a length field of one byte: the only form of them the parsers read. */
  function ReadableString(d: str): (r: bytes) { if |d| == 55 then [0xb8] + ([55] + d) else RlpString(d) }

  /** A short list behind a length field of one byte, which the parsers ask for. */
  function ReadableList(p: bytes): (r: bytes)
    requires |p| < U64
    ensures |p| < |r| <= |p| + 9
  {
    if |p| > 55 then Uint64Width(|p|); RlpListHeader(|p|) + p else [0xf8] + [|p|] + p
  }

  lemma OneByte(n: byte)
    ensures FromBigEndian([n]) == n
  {
  }

  lemma ReadableStringIsRead(d: str, rest: bytes, capped: bool)
    ensures ReadString(ReadableString(d) + rest, 0xb7, capped) == Ok((d, rest))
  {
    hide ReadString;
    if |d| == 55 {
      OneByte(55);
      ReadAfterLength([55], d, rest, 0xb7, capped);
    } else {
      ReadStringWritten(d, rest, 0xb7, capped);
    }
  }

  lemma ReadableListIsRead(p: str)
    requires |ReadableList(p)| < 0x4000_0000_0000_0000
    ensures StripListHeader(ReadableList(p)) == Ok(p)
  {
    hide StripListHeader, RlpListHeader;
    if |p| > 55 {
      StripListHeaderWritten(p);
    } else {
      OneByte(|p|);
      StripLength([|p|], p);
    }
  }

  // ----- No written item is a prefix of another, so concatenations can be taken apart

  lemma UintIsPrefixFree(m: u256, x: bytes, n: u256, y: bytes)
    requires RlpUint(m) + x == RlpUint(n) + y
    ensures m == n && x == y
  {
    ReadUintWritten(m, x, 32);
    ReadUintWritten(n, y, 32);
  }

  lemma ByteUintIsPrefixFree(m: u256, x: bytes, n: u256, y: bytes)
    requires RlpByteUint(m) + x == RlpByteUint(n) + y
    ensures m == n && x == y
  {
    ReadByteUintWritten(m, x, 32);
    ReadByteUintWritten(n, y, 32);
  }

  lemma StringIsPrefixFree(c: str, x: bytes, d: str, y: bytes)
    requires RlpString(c) + x == RlpString(d) + y
    ensures c == d && x == y
  {
    ReadStringWritten(c, x, 0xb8, true);
    ReadStringWritten(d, y, 0xb8, true);
  }

  lemma ListHeaderIsPrefixFree(m: u64, x: bytes, n: u64, y: bytes)
    requires RlpListHeader(m) + x == RlpListHeader(n) + y
    ensures m == n && x == y
  {
    var a, b := RlpListHeader(m) + x, RlpListHeader(n) + y;
    Uint64Width(m);
    Uint64Width(n);
    if m <= 55 || n <= 55 {
      assert a[0] == b[0];
      assert a[1..] == b[1..] == x;
    } else {
      var k := BytesRequired(m);
      assert a[0] == 0xf7 + k && b[0] == 0xf7 + BytesRequired(n);
      assert a[1..1 + k] == UintToBytes(m) && b[1..1 + k] == UintToBytes(n);
      assert a[1 + k..] == x && b[1 + k..] == y;
      UintRoundTrip(m);
      UintRoundTrip(n);
    }
  }

  // ----- Cursor forms: the parsers keep an index into the whole input

  /** The suffix form `spec` and the cursor form `(n, next)` agree on input `d`. */
  ghost predicate Agrees<T>(d: bytes, spec: Result<(T, bytes)>, r: Result<(T, nat)>) {
    match (spec, r)
    case (Ok((x, rest)), Ok((y, next))) => x == y && next <= |d| && rest == d[next..]
    case (Err, Err) => true
    case _ => false
  }

  method TakeUint64(d: bytes, index: nat, limit: nat) returns (r: Result<(u64, nat)>)
    requires index <= |d|
    ensures Agrees(d, ReadUint64(d[index..], limit), r)
  {
    if index == |d| { return Err; }
    var length := if d[index] >= 0x80 then d[index] - 0x80 else 0;
    if length != 0 {
      if length > limit || index + 1 + length > |d| { return Err; }
      assert d[index..][1..1 + length] == d[index + 1..index + 1 + length];
      var n := ReadBigEndian64(d[index + 1..index + 1 + length]);
      return Ok((n, index + 1 + length));
    }
    return Ok((if d[index] == 0x80 then 0 else d[index], index + 1));
  }

  method TakeUint256(d: bytes, index: nat) returns (r: Result<(u256, nat)>)
    requires index <= |d|
    ensures Agrees(d, ReadUint256(d[index..]), r)
  {
    if index == |d| { return Err; }
    var length := if d[index] >= 0x80 then d[index] - 0x80 else 0;
    if length != 0 {
      if length > 0x37 || index + 1 + length > |d| { return Err; }
      assert d[index..][1..1 + length] == d[index + 1..index + 1 + length];
      var n := ReadBigEndian256(d[index + 1..index + 1 + length]);
      if n.Err? { return Err; }
      return Ok((n.value, index + 1 + length));
    }
    return Ok((if d[index] == 0x80 then 0 else d[index], index + 1));
  }

  method TakePrefixedUint(d: bytes, index: nat, limit: nat) returns (r: Result<(u256, nat)>)
    requires index <= |d|
    ensures Agrees(d, ReadPrefixedUint(d[index..], limit), r)
  {
    if index == |d| { return Err; }
    var prefix: int := d[index];
    var length := (prefix - 0x80) % 256;
    if length > limit || index + 1 + length > |d| { return Err; }
    assert d[index..][1..1 + length] == d[index + 1..index + 1 + length];
    var n := ReadBigEndian256(d[index + 1..index + 1 + length]);
    if n.Err? { return Err; }
    return Ok((n.value, index + 1 + length));
  }

  method TakeString(d: bytes, index: nat, capped: bool) returns (r: Result<(bytes, nat)>)
    requires index <= |d|
    ensures Agrees(d, ReadString(d[index..], 0xb7, capped), r)
  {
    if index == |d| { return Err; }
    ghost var rest := d[index..];
    if d[index] < 0x80 {
      return Ok(([d[index]], index + 1));
    } else if d[index] < 0xb7 {
      var length := d[index] - 0x80;
      if index + 1 + length > |d| { return Err; }
      assert rest[1..1 + length] == d[index + 1..index + 1 + length];
      return Ok((d[index + 1..index + 1 + length], index + 1 + length));
    } else if capped && d[index] >= 0xc0 {
      return Err;
    }
    var size := d[index] - 0xb7;
    ghost var after := d[index + 1..];
    assert rest[1..] == after;
    if index + 1 + size > |d| { return Err; }
    assert after[..size] == d[index + 1..index + 1 + size];
    var length := ReadBigEndian64(d[index + 1..index + 1 + size]);
    var from := index + 1 + size;
    if from + length > |d| { return Err; }
    assert after[size..size + length] == d[from..from + length];
    return Ok((d[from..from + length], from + length));
  }

  method TakeListHeader(d: str) returns (r: Result<str>)
    ensures r == StripListHeader(d)
  {
    if |d| == 0 || d[0] < 0xf7 { return Err; }
    var size := d[0] - 0xf7;
    if 1 + size > |d| { return Err; }
    var length := ReadBigEndian64(d[1..1 + size]);
    if length != |d| - size - 1 { return Err; }
    return Ok(d[1 + size..]);
  }

  // ----- Appending and measuring items

  // Each append names the `rest` still to be written, so that what has been written and what
  // remains always add up to the whole.

  method Append(ret: bytes, b: bytes, ghost rest: bytes) returns (r: bytes)
    ensures r + rest == ret + (b + rest)
  {
    r := ret + b;
    assert r + rest == ret + (b + rest);
  }

  method AppendUint(ret: bytes, n: u256, ghost rest: bytes) returns (r: bytes)
    ensures r + rest == ret + (RlpUint(n) + rest)
  {
    if n == 0 {
      r := Append(ret, [0x80], rest);
    } else if n < 0x80 {
      r := Append(ret, [n], rest);
    } else {
      r := AppendPrefixedUint(ret, n, rest);
    }
  }

  method AppendPrefixedUint(ret: bytes, n: u256, ghost rest: bytes) returns (r: bytes)
    ensures r + rest == ret + (RlpPrefixedUint(n) + rest)
  {
    Uint256Width(n);
    var size := CountBytesRequired(n);
    var digits := WriteUint(n);
    r := ret + [size + 0x80];
    r := r + digits;
    assert r + rest == ret + ([size + 0x80] + digits + rest);
  }

  method AppendString(ret: bytes, d: str, ghost rest: bytes) returns (r: bytes)
    ensures r + rest == ret + (RlpString(d) + rest)
  {
    if |d| == 0 {
      r := ret + [0x80];
      assert r + rest == ret + ([0x80] + d + rest);
    } else if |d| <= 55 {
      r := ret + [|d| + 0x80];
      r := r + d;
      assert r + rest == ret + ([|d| + 0x80] + d + rest);
    } else {
      Uint64Width(|d|);
      var size := CountBytesRequired(|d|);
      var digits := WriteUint(|d|);
      r := ret + [size + 0xb7];
      r := r + digits;
      r := r + d;
      assert r + rest == ret + ([size + 0xb7] + (digits + d) + rest);
    }
  }

  method AppendListHeader(ret: bytes, total: u64, ghost rest: bytes) returns (r: bytes)
    ensures r + rest == ret + (RlpListHeader(total) + rest)
  {
    if total <= 55 {
      r := ret + [total + 0xc0];
      assert r + rest == ret + ([total + 0xc0] + rest);
    } else {
      Uint64Width(total);
      var size := CountBytesRequired(total);
      var digits := WriteUint(total);
      r := ret + [size + 0xf7];
      r := r + digits;
      assert r + rest == ret + ([size + 0xf7] + digits + rest);
    }
  }

  method MeasureUint(n: u256) returns (size: nat)
    ensures size == |RlpUint(n)|
  {
    var required := CountBytesRequired(n);
    size := if n < 0x80 then 1 else 1 + required;
  }

  method MeasureString(d: str) returns (size: nat)
    ensures size == |RlpString(d)|
  {
    var required := CountBytesRequired(|d|);
    size := if |d| == 0 then 1 else if |d| <= 55 then 1 + |d| else 1 + required + |d|;
  }
}
