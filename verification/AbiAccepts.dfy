/** What the ABI decoder makes of any string: which words it looks at, what they have to be, and what the
    arguments then are (src/contract/abi.cpp). */
module AbiAccepts {
  import opened Bytes
  import opened Abi

  // ----- Words anywhere in the data

  function WordAt(data: bytes, start: nat): (w: bytes) { if start + 32 <= |data| then data[start..start + 32] else [] }

  function NumberAt(data: bytes, start: nat): (n: nat) { FromBigEndian(WordAt(data, start)) }

  /** An offset or a length is a whole word of the data, below 2^64. */
  predicate HasNumber(data: bytes, start: nat) { start + 32 <= |data| && NumberAt(data, start) < U64 }

  /** n bytes at an offset. */
  predicate Stands(data: bytes, from: nat, s: bytes) { from + |s| <= |data| && data[from..from + |s|] == s }

  // ----- Arguments

  /** The word of a static argument. */
  predicate IsWord(x: Arg, w: bytes) {
    |w| == 32 &&
    match x
    case Uint256(n) => n == FromBigEndian(w)
    case Addr(a) => a == w[12..]
    case Boolean(b) => b <==> w[31] == 1
    case _ => false
  }

  /** An offset, a length there, and behind it as many bytes, which also must not be more than are left
      behind the two words that start here. */
  predicate IsString(data: bytes, start: nat, s: bytes) {
    && HasNumber(data, start)
    && var from := NumberAt(data, start);
      && HasNumber(data, from) && NumberAt(data, from) == |s|
      && Stands(data, from + 32, s) && start + 64 + |s| <= |data|
  }

  /** An offset, a length there, and behind it as many words of this type. */
  ghost predicate IsArray(data: bytes, start: nat, xs: seq<Arg>) {
    && HasNumber(data, start)
    && var from := NumberAt(data, start);
      && HasNumber(data, from) && NumberAt(data, from) == |xs| && from + 32 + 32 * |xs| <= |data|
      && forall k :: 0 <= k < |xs| ==> IsWord(xs[k], WordAt(data, from + 32 + 32 * k))
  }

  /** An element of an array of strings: an offset from behind the array's length, and a string there. */
  predicate IsElement(data: bytes, base: nat, k: nat, s: bytes) {
    && HasNumber(data, base + 32 * k)
    && var from := NumberAt(data, base + 32 * k) + base;
      HasNumber(data, from) && NumberAt(data, from) == |s| && Stands(data, from + 32, s)
  }

  ghost predicate IsStringArray(data: bytes, start: nat, ss: seq<bytes>) {
    && HasNumber(data, start)
    && var from := NumberAt(data, start);
      && HasNumber(data, from) && NumberAt(data, from) == |ss|
      && forall k :: 0 <= k < |ss| ==> IsElement(data, from + 32, k, ss[k])
  }

  function Numbers(ns: seq<u256>): (xs: seq<Arg>)
    ensures |xs| == |ns| && forall k :: 0 <= k < |xs| ==> xs[k] == Uint256(ns[k])
  {
    seq(|ns|, k requires 0 <= k < |ns| => Uint256(ns[k]))
  }

  function Addresses(addrs: seq<Address>): (xs: seq<Arg>)
    ensures |xs| == |addrs| && forall k :: 0 <= k < |xs| ==> xs[k] == Addr(addrs[k])
  {
    seq(|addrs|, k requires 0 <= k < |addrs| => Addr(addrs[k]))
  }

  function Truths(bs: seq<bool>): (xs: seq<Arg>)
    ensures |xs| == |bs| && forall k :: 0 <= k < |xs| ==> xs[k] == Boolean(bs[k])
  {
    seq(|bs|, k requires 0 <= k < |bs| => Boolean(bs[k]))
  }

  /** The argument whose head is at `start`. */
  ghost predicate IsAt(x: Arg, data: bytes, start: nat) {
    match x
    case Bytes(s) => IsString(data, start, s)
    case Uint256Arr(ns) => IsArray(data, start, Numbers(ns))
    case AddressArr(addrs) => IsArray(data, start, Addresses(addrs))
    case BooleanArr(bs) => IsArray(data, start, Truths(bs))
    case BytesArr(ss) => IsStringArray(data, start, ss)
    case _ => IsWord(x, WordAt(data, start))
  }

  // ----- The decoder, reader by reader

  lemma SizeIsRead(data: bytes, start: nat)
    ensures SizesIn(data)(start) == if HasNumber(data, start) then Ok(NumberAt(data, start)) else Err
  {
  }

  lemma StringIsRead(data: bytes, start: nat, s: bytes)
    ensures DecodeBytes(SizesIn(data), data, start) == Ok(s) <==> IsString(data, start, s)
  {
    hide SizesIn, HasNumber, NumberAt;
    SizeIsRead(data, start);
    SizeIsRead(data, NumberAt(data, start));
  }

  ghost predicate AllRead<T(!new)>(read: WordReader<T>, start: nat, xs: seq<T>) {
    forall k :: 0 <= k < |xs| ==> read(start + 32 * k) == Ok(xs[k])
  }

  lemma FirstAndRest<T(!new)>(read: WordReader<T>, start: nat, xs: seq<T>)
    requires |xs| > 0
    ensures AllRead(read, start, xs) <==> read(start) == Ok(xs[0]) && AllRead(read, start + 32, xs[1..])
  {
    if read(start) == Ok(xs[0]) && AllRead(read, start + 32, xs[1..]) {
      forall k | 0 <= k < |xs| ensures read(start + 32 * k) == Ok(xs[k]) {
        if k > 0 { assert read(start + 32 + 32 * (k - 1)) == Ok(xs[1..][k - 1]); }
      }
    }
    if AllRead(read, start, xs) {
      assert read(start + 32 * 0) == Ok(xs[0]);
      forall k | 0 <= k < |xs| - 1 ensures read(start + 32 + 32 * k) == Ok(xs[1..][k]) {
        assert read(start + 32 * (k + 1)) == Ok(xs[k + 1]);
      }
    }
  }

  lemma {:induction false} ItemsAreRead<T(!new)>(read: WordReader<T>, start: nat, n: nat, xs: seq<T>)
    ensures DecodeItems(read, start, n) == Ok(xs) <==> |xs| == n && AllRead(read, start, xs)
    decreases n
  {
    hide AllRead;
    if n > 0 && |xs| > 0 {
      ItemsAreRead(read, start + 32, n - 1, xs[1..]);
      FirstAndRest(read, start, xs);
      assert xs == [xs[0]] + xs[1..];
    }
    if n == 0 && |xs| == 0 { NothingRead(read, start, xs); }
  }

  lemma NothingRead<T(!new)>(read: WordReader<T>, start: nat, xs: seq<T>)
    requires |xs| == 0
    ensures AllRead(read, start, xs)
  {
  }

  /** Reading the words of an array one by one. */
  ghost predicate ReadsWords<T(!new)>(read: WordReader<T>, data: bytes, base: nat, xs: seq<T>, args: seq<Arg>)
    requires |xs| == |args|
  {
    forall k :: 0 <= k < |xs| ==>
      (read(base + 32 * k) == Ok(xs[k]) <==> IsWord(args[k], WordAt(data, base + 32 * k)))
  }

  lemma ArrayIsRead<T(!new)>(read: WordReader<T>, data: bytes, start: nat, xs: seq<T>, args: seq<Arg>)
    requires |xs| == |args| && ReadsWords(read, data, NumberAt(data, start) + 32, xs, args)
    ensures DecodeArray(SizesIn(data), read, data, start) == Ok(xs) <==> IsArray(data, start, args)
  {
    hide SizesIn, HasNumber, NumberAt, IsWord, WordAt;
    var from := NumberAt(data, start);
    SizeIsRead(data, start);
    SizeIsRead(data, from);
    ItemsAreRead(read, from + 32, |xs|, xs);
    if HasNumber(data, from) { ItemsAreRead(read, from + 32, NumberAt(data, from), xs); }
  }

  lemma ElementIsRead(data: bytes, base: nat, k: nat, s: bytes)
    ensures DecodeElement(SizesIn(data), data, base, k) == Ok(s) <==> IsElement(data, base, k, s)
  {
    hide SizesIn, HasNumber, NumberAt;
    SizeIsRead(data, base + 32 * k);
    SizeIsRead(data, NumberAt(data, base + 32 * k) + base);
  }

  ghost predicate AllElements(data: bytes, base: nat, i: nat, ss: seq<bytes>) {
    forall k :: 0 <= k < |ss| ==> IsElement(data, base, i + k, ss[k])
  }

  lemma FirstElementAndRest(data: bytes, base: nat, i: nat, ss: seq<bytes>)
    requires |ss| > 0
    ensures AllElements(data, base, i, ss) <==>
      IsElement(data, base, i, ss[0]) && AllElements(data, base, i + 1, ss[1..])
  {
    hide IsElement;
    if IsElement(data, base, i, ss[0]) && AllElements(data, base, i + 1, ss[1..]) {
      forall k | 0 <= k < |ss| ensures IsElement(data, base, i + k, ss[k]) {
        if k > 0 { assert IsElement(data, base, i + 1 + (k - 1), ss[1..][k - 1]); }
      }
    }
    if AllElements(data, base, i, ss) {
      assert IsElement(data, base, i + 0, ss[0]);
      forall k | 0 <= k < |ss| - 1 ensures IsElement(data, base, i + 1 + k, ss[1..][k]) {
        assert IsElement(data, base, i + (k + 1), ss[k + 1]);
      }
    }
  }

  lemma {:induction false} ElementsAreRead(data: bytes, base: nat, i: nat, n: nat, ss: seq<bytes>)
    requires i <= n
    ensures DecodeElements(SizesIn(data), data, base, i, n) == Ok(ss) <==>
      |ss| == n - i && AllElements(data, base, i, ss)
    decreases n - i
  {
    hide SizesIn, DecodeElement, IsElement;
    if i < n && |ss| > 0 {
      ElementsAreRead(data, base, i + 1, n, ss[1..]);
      ElementIsRead(data, base, i, ss[0]);
      FirstElementAndRest(data, base, i, ss);
      assert ss == [ss[0]] + ss[1..];
    }
  }

  lemma StringArrayIsRead(data: bytes, start: nat, ss: seq<bytes>)
    ensures DecodeBytesArr(SizesIn(data), data, start) == Ok(ss) <==> IsStringArray(data, start, ss)
  {
    hide SizesIn, HasNumber, NumberAt, IsElement;
    var from := NumberAt(data, start);
    SizeIsRead(data, start);
    SizeIsRead(data, from);
    if HasNumber(data, from) { ElementsAreRead(data, from + 32, 0, NumberAt(data, from), ss); }
  }

  lemma UintIsRead(data: bytes, start: nat, n: u256)
    ensures UintsIn(data)(start) == Ok(n) <==> IsWord(Uint256(n), WordAt(data, start))
  {
  }

  lemma AddressIsRead(data: bytes, start: nat, a: Address)
    ensures AddressesIn(data)(start) == Ok(a) <==> IsWord(Addr(a), WordAt(data, start))
  {
    if start + 32 <= |data| { assert WordAt(data, start)[12..] == data[start + 12..start + 32]; }
  }

  lemma TruthIsRead(data: bytes, start: nat, b: bool)
    ensures BoolsIn(data)(start) == Ok(b) <==> IsWord(Boolean(b), WordAt(data, start))
  {
  }

  /** An argument is decoded to this value if and only if that is what stands there. */
  lemma ArgIsRead(t: Type, data: bytes, start: nat, x: Arg)
    ensures DecodeArg(t, data, start) == Ok(x) <==> HasType(x, t) && IsAt(x, data, start)
  {
    hide SizesIn, UintsIn, AddressesIn, BoolsIn, DecodeArray, DecodeBytes, DecodeBytesArr, IsString, IsArray, IsWord,
      IsStringArray, WordAt, NumberAt;
    var base := NumberAt(data, start) + 32;
    match x {
      case Uint256(n) => UintIsRead(data, start, n);
      case Addr(a) => AddressIsRead(data, start, a);
      case Boolean(b) => TruthIsRead(data, start, b);
      case Bytes(s) => StringIsRead(data, start, s);
      case Uint256Arr(ns) =>
        forall k: nat | k < |ns| { UintIsRead(data, base + 32 * k, ns[k]); }
        ArrayIsRead(UintsIn(data), data, start, ns, Numbers(ns));
      case AddressArr(addrs) =>
        forall k: nat | k < |addrs| { AddressIsRead(data, base + 32 * k, addrs[k]); }
        ArrayIsRead(AddressesIn(data), data, start, addrs, Addresses(addrs));
      case BooleanArr(bs) =>
        forall k: nat | k < |bs| { TruthIsRead(data, base + 32 * k, bs[k]); }
        ArrayIsRead(BoolsIn(data), data, start, bs, Truths(bs));
      case BytesArr(ss) => StringArrayIsRead(data, start, ss);
    }
  }

  ghost predicate AllAt(ts: seq<Type>, data: bytes, start: nat, xs: seq<Arg>)
    requires |xs| == |ts|
  {
    forall i :: 0 <= i < |xs| ==> HasType(xs[i], ts[i]) && IsAt(xs[i], data, start + 32 * i)
  }

  lemma FirstArgAndRest(ts: seq<Type>, data: bytes, start: nat, xs: seq<Arg>)
    requires |xs| == |ts| > 0
    ensures AllAt(ts, data, start, xs) <==>
      HasType(xs[0], ts[0]) && IsAt(xs[0], data, start) && AllAt(ts[1..], data, start + 32, xs[1..])
  {
    hide HasType, IsAt;
    if HasType(xs[0], ts[0]) && IsAt(xs[0], data, start) && AllAt(ts[1..], data, start + 32, xs[1..]) {
      forall i | 0 <= i < |xs| ensures HasType(xs[i], ts[i]) && IsAt(xs[i], data, start + 32 * i) {
        if i > 0 { assert HasType(xs[1..][i - 1], ts[1..][i - 1]) && start + 32 + 32 * (i - 1) == start + 32 * i; }
      }
    }
    if AllAt(ts, data, start, xs) {
      var us, ys := ts[1..], xs[1..];
      assert HasType(xs[0], ts[0]) && start + 32 * 0 == start;
      forall i | 0 <= i < |ys| ensures HasType(ys[i], us[i]) && IsAt(ys[i], data, start + 32 + 32 * i) {
        assert HasType(xs[i + 1], ts[i + 1]) && start + 32 * (i + 1) == start + 32 + 32 * i;
      }
    }
  }

  lemma {:induction false} ArgsAreRead(ts: seq<Type>, data: bytes, start: nat, xs: seq<Arg>)
    ensures DecodeFrom(ts, data, start) == Ok(xs) <==> |xs| == |ts| && AllAt(ts, data, start, xs)
    decreases |ts|
  {
    hide DecodeArg, HasType, IsAt;
    if |ts| > 0 && |xs| > 0 {
      ArgsAreRead(ts[1..], data, start + 32, xs[1..]);
      ArgIsRead(ts[0], data, start, xs[0]);
      if |xs| == |ts| { FirstArgAndRest(ts, data, start, xs); }
      assert xs == [xs[0]] + xs[1..];
    }
  }

  /** Any string decodes to these arguments if and only if they are as many as the types, have them, and
      each is what stands at its own word of the data. */
  lemma DecodesExactly(ts: seq<Type>, data: bytes, xs: seq<Arg>)
    ensures Decode(ts, data) == Ok(xs) <==>
      |xs| == |ts| && forall i :: 0 <= i < |xs| ==> HasType(xs[i], ts[i]) && IsAt(xs[i], data, 32 * i)
  {
    hide HasType, IsAt;
    ArgsAreRead(ts, data, 0, xs);
  }
}
