/** The Solidity ABI encoder and decoder (src/contract/abi.cpp; section "Formal Specification of the
    Encoding" of the Solidity Contract ABI Specification). */
module Abi {
  import opened Bytes

  datatype Arg =
    | Uint256(n: u256)
    | Addr(a: Address)
    | Boolean(b: bool)
    | Bytes(s: bytes)
    | Uint256Arr(ns: seq<u256>)
    | AddressArr(addrs: seq<Address>)
    | BooleanArr(bs: seq<bool>)
    | BytesArr(ss: seq<bytes>)

  datatype Type =
    | TUint256 | TUint256Arr | TAddress | TAddressArr | TBoolean | TBooleanArr
    | TBytes | TBytesArr | TString | TStringArr

  predicate HasType(x: Arg, t: Type) {
    match x
    case Uint256(_) => t.TUint256?
    case Addr(_) => t.TAddress?
    case Boolean(_) => t.TBoolean?
    case Bytes(_) => t.TBytes? || t.TString?
    case Uint256Arr(_) => t.TUint256Arr?
    case AddressArr(_) => t.TAddressArr?
    case BooleanArr(_) => t.TBooleanArr?
    case BytesArr(_) => t.TBytesArr? || t.TStringArr?
  }

  // ----- Words

  /** `padLeftBytes(uintToBytes(n), 32)`. */
  function Word(n: nat): (w: bytes) { PadLeft(UintToBytes(n), 32) }

  lemma WordIsFixed(n: nat)
    requires n < U256
    ensures Word(n) == Fixed(n, 32) && |Word(n)| == 32 && FromBigEndian(Word(n)) == n
  {
    Pow256Values();
    PaddedUintIsFixed(n, 32);
    FixedRoundTrip(n, 32);
  }

  function AddressWord(a: Address): (w: bytes)
    ensures |w| == 32
  {
    PadLeft(a, 32)
  }

  function BoolWord(b: bool): (w: bytes)
    ensures |w| == 32
  {
    PadLeft(if b then [1] else [], 32)
  }

  /** The size `do { pad += 32 } while (pad < length)` stops at. */
  function PaddedSize(length: nat): (p: nat)
    ensures p >= length && p >= 32 && p % 32 == 0
  {
    if length <= 32 then 32 else 32 + PaddedSize(length - 32)
  }

  function Concat(ws: seq<bytes>): (r: bytes) {
    if |ws| == 0 then [] else ws[0] + Concat(ws[1..])
  }

  /** A length word and the bytes, padded on the right to whole words; empty bytes take one. */
  function EncodeBytes(s: bytes): (r: bytes) {
    Word(|s|) + PadRight(s, PaddedSize(|s|))
  }

  // ----- Heads and tails

  /** An argument is a word in place or an offset to a tail. */
  datatype Piece = Static(word: bytes) | Dynamic(tail: bytes)

  function TailOf(p: Piece): (t: bytes) { if p.Static? then [] else p.tail }

  function HeadOf(word: nat -> bytes, p: Piece, offset: nat): (h: bytes) { if p.Static? then p.word else word(offset) }

  function Tails(ps: seq<Piece>): (r: bytes) {
    if |ps| == 0 then [] else TailOf(ps[0]) + Tails(ps[1..])
  }

  /** Heads of `ps` when their tails start at `offset`. */
  function Heads(word: nat -> bytes, ps: seq<Piece>, offset: nat): (r: bytes) {
    if |ps| == 0 then [] else
      HeadOf(word, ps[0], offset) + Heads(word, ps[1..], offset + |TailOf(ps[0])|)
  }

  function HeadsAndTails(word: nat -> bytes, ps: seq<Piece>): (r: bytes) {
    Heads(word, ps, 32 * |ps|) + Tails(ps)
  }

  /** Offsets are written as words; the layout does not depend on how. */
  function Words(): (f: nat -> bytes) { (n: nat) => Word(n) }

  function BytesPieces(ss: seq<bytes>): (ps: seq<Piece>)
    ensures |ps| == |ss|
    ensures forall i :: 0 <= i < |ps| ==> ps[i] == Dynamic(EncodeBytes(ss[i]))
  {
    seq(|ss|, i requires 0 <= i < |ss| => Dynamic(EncodeBytes(ss[i])))
  }

  function UintWords(ns: seq<u256>): (ws: seq<bytes>)
    ensures |ws| == |ns| && forall i :: 0 <= i < |ws| ==> ws[i] == Fixed(ns[i], 32)
  {
    seq(|ns|, i requires 0 <= i < |ns| => Fixed(ns[i], 32))
  }

  function AddressWords(xs: seq<Address>): (ws: seq<bytes>)
    ensures |ws| == |xs| && forall i :: 0 <= i < |ws| ==> ws[i] == AddressWord(xs[i])
  {
    seq(|xs|, i requires 0 <= i < |xs| => AddressWord(xs[i]))
  }

  function BoolWords(bs: seq<bool>): (ws: seq<bytes>)
    ensures |ws| == |bs| && forall i :: 0 <= i < |ws| ==> ws[i] == BoolWord(bs[i])
  {
    seq(|bs|, i requires 0 <= i < |bs| => BoolWord(bs[i]))
  }

  /** An array of one-word items: its length, then the words. */
  function EncodeWords(ws: seq<bytes>): (r: bytes) { Word(|ws|) + Concat(ws) }

  /** An array of byte strings has offsets of its own, counted from behind its length word. */
  function EncodeBytesArr(ss: seq<bytes>): (r: bytes) { Word(|ss|) + HeadsAndTails(Words(), BytesPieces(ss)) }

  function PieceOf(x: Arg): (p: Piece) {
    match x
    case Uint256(n) => Static(Fixed(n, 32))
    case Addr(a) => Static(AddressWord(a))
    case Boolean(b) => Static(BoolWord(b))
    case Bytes(s) => Dynamic(EncodeBytes(s))
    case Uint256Arr(ns) => Dynamic(EncodeWords(UintWords(ns)))
    case AddressArr(addrs) => Dynamic(EncodeWords(AddressWords(addrs)))
    case BooleanArr(bs) => Dynamic(EncodeWords(BoolWords(bs)))
    case BytesArr(ss) => Dynamic(EncodeBytesArr(ss))
  }

  function PiecesOf(xs: seq<Arg>): (ps: seq<Piece>)
    ensures |ps| == |xs|
    ensures forall i :: 0 <= i < |ps| ==> ps[i] == PieceOf(xs[i])
  {
    seq(|xs|, i requires 0 <= i < |xs| => PieceOf(xs[i]))
  }

  function Encode(xs: seq<Arg>): (r: bytes) { HeadsAndTails(Words(), PiecesOf(xs)) }

  // ----- Decoding; Err stands for a throw or a read past the end

  type SizeReader = nat -> Result<nat>
  type WordReader<!T> = nat -> Result<T>

  /** An offset or a length: the 256-bit word is cast to 64 bits, which throws if it does not fit. */
  function SizesIn(data: bytes): (f: SizeReader) {
    (start: nat) =>
      if start + 32 > |data| then Err
      else if FromBigEndian(data[start..start + 32]) < U64 then Ok(FromBigEndian(data[start..start + 32]))
      else Err
  }

  function Uint256At(data: bytes, start: nat): (r: Result<u256>) {
    if start + 32 > |data| then Err else
      FromBigEndianBound(data[start..start + 32]);
      Pow256Values();
      Ok(FromBigEndian(data[start..start + 32]))
  }

  function UintsIn(data: bytes): (f: WordReader<u256>) { (start: nat) => Uint256At(data, start) }

  function AddressesIn(data: bytes): (f: WordReader<Address>) {
    (start: nat) => if start + 32 > |data| then Err else Ok(data[start + 12..start + 32])
  }

  function BoolsIn(data: bytes): (f: WordReader<bool>) {
    (start: nat) => if start + 32 > |data| then Err else Ok(data[start + 31] == 1)
  }

  /** The length check adds to where the offset was read, not to where the data is. */
  function DecodeBytes(size: SizeReader, data: bytes, start: nat): (r: Result<bytes>) {
    var from :- size(start);
    var length :- size(from);
    if start + 32 + 32 + length > |data| || from + 32 + length > |data| then Err
    else Ok(data[from + 32..from + 32 + length])
  }

  function DecodeItems<T>(read: WordReader<T>, start: nat, n: nat): (r: Result<seq<T>>)
    decreases n
  {
    if n == 0 then Ok([]) else
      var x :- read(start);
      var rest :- DecodeItems(read, start + 32, n - 1);
      Ok([x] + rest)
  }

  function DecodeArray<T>(size: SizeReader, read: WordReader<T>, data: bytes, start: nat): (r: Result<seq<T>>) {
    var from :- size(start);
    var length :- size(from);
    if from + 32 + length * 32 > |data| then Err
    else DecodeItems(read, from + 32, length)
  }

  /** One element of a `bytes[]` whose offsets count from `base`. */
  function DecodeElement(size: SizeReader, data: bytes, base: nat, i: nat): (r: Result<bytes>) {
    var offset :- size(base + 32 * i);
    var length :- size(offset + base);
    if offset + base + 32 + length > |data| then Err
    else Ok(data[offset + base + 32..offset + base + 32 + length])
  }

  function DecodeElements(size: SizeReader, data: bytes, base: nat, i: nat, n: nat): (r: Result<seq<bytes>>)
    requires i <= n
    decreases n - i
  {
    if i == n then Ok([]) else
      var s :- DecodeElement(size, data, base, i);
      var rest :- DecodeElements(size, data, base, i + 1, n);
      Ok([s] + rest)
  }

  function DecodeBytesArr(size: SizeReader, data: bytes, start: nat): (r: Result<seq<bytes>>) {
    var from :- size(start);
    var length :- size(from);
    DecodeElements(size, data, from + 32, 0, length)
  }

  function DecodeArg(t: Type, data: bytes, start: nat): (r: Result<Arg>) {
    var size := SizesIn(data);
    match t
    case TUint256 => var n :- UintsIn(data)(start); Ok(Uint256(n))
    case TAddress => var a :- AddressesIn(data)(start); Ok(Addr(a))
    case TBoolean => var b :- BoolsIn(data)(start); Ok(Boolean(b))
    case TUint256Arr => var ns :- DecodeArray(size, UintsIn(data), data, start); Ok(Uint256Arr(ns))
    case TAddressArr => var xs :- DecodeArray(size, AddressesIn(data), data, start); Ok(AddressArr(xs))
    case TBooleanArr => var bs :- DecodeArray(size, BoolsIn(data), data, start); Ok(BooleanArr(bs))
    case TBytes => var s :- DecodeBytes(size, data, start); Ok(Bytes(s))
    case TString => var s :- DecodeBytes(size, data, start); Ok(Bytes(s))
    case TBytesArr => var ss :- DecodeBytesArr(size, data, start); Ok(BytesArr(ss))
    case TStringArr => var ss :- DecodeBytesArr(size, data, start); Ok(BytesArr(ss))
  }

  function DecodeFrom(ts: seq<Type>, data: bytes, start: nat): (r: Result<seq<Arg>>) {
    if |ts| == 0 then Ok([]) else
      var x :- DecodeArg(ts[0], data, start);
      var rest :- DecodeFrom(ts[1..], data, start + 32);
      Ok([x] + rest)
  }

  function Decode(ts: seq<Type>, data: bytes): (r: Result<seq<Arg>>) { DecodeFrom(ts, data, 0) }

  // ----- Finding a part of a string

  /** `data` holds `t` at offset `from`. */
  ghost predicate Holds(data: bytes, from: nat, t: bytes) {
    from + |t| <= |data| && data[from..from + |t|] == t
  }

  lemma HoldsTransitively(data: bytes, at: nat, t: bytes, i: nat, x: bytes)
    requires Holds(data, at, t) && Holds(t, i, x)
    ensures Holds(data, at + i, x)
  {
    forall k | 0 <= k < |x| ensures data[at + i..at + i + |x|][k] == x[k] {
      assert data[at..at + |t|][i + k] == t[i + k] && t[i..i + |x|][k] == x[k];
    }
  }

  lemma HoldsInFront(a: bytes, b: bytes, i: nat, x: bytes)
    requires Holds(a, i, x)
    ensures Holds(a + b, i, x)
  {
    assert (a + b)[i..i + |x|] == a[i..i + |x|];
  }

  lemma HoldsBehind(a: bytes, b: bytes, n: nat, j: nat, x: bytes)
    requires |a| == n && Holds(b, j, x)
    ensures Holds(a + b, n + j, x)
  {
    assert (a + b)[n + j..n + j + |x|] == b[j..j + |x|];
  }

  lemma HoldsHead(a: bytes, b: bytes)
    ensures Holds(a + b, 0, a)
  {
  }

  lemma HoldsSplit(data: bytes, from: nat, a: bytes, b: bytes, n: nat)
    requires Holds(data, from, a + b) && |a| == n
    ensures Holds(data, from, a) && Holds(data, from + n, b)
  {
    HoldsHead(a, b);
    HoldsTransitively(data, from, a + b, 0, a);
    assert Holds(b, 0, b);
    HoldsBehind(a, b, n, 0, b);
    HoldsTransitively(data, from, a + b, n, b);
  }

  // ----- Where heads and tails end up

  ghost predicate OneWordHeads(ps: seq<Piece>) {
    forall i :: 0 <= i < |ps| && ps[i].Static? ==> |ps[i].word| == 32
  }

  /** Offsets below `limit` take one word. */
  ghost predicate OneWord(word: nat -> bytes, limit: nat) {
    forall n: nat :: n < limit ==> |word(n)| == 32
  }

  /** Where the tail of piece i starts when the first one starts at `offset`. */
  function OffsetOf(ps: seq<Piece>, offset: nat, i: nat): (o: nat)
    requires i <= |ps|
    ensures o >= offset
  {
    if i == 0 then offset else OffsetOf(ps[1..], offset + |TailOf(ps[0])|, i - 1)
  }

  lemma {:induction false} OffsetIsInside(ps: seq<Piece>, offset: nat, i: nat)
    requires i < |ps|
    ensures OffsetOf(ps, offset, i) + |TailOf(ps[i])| <= offset + |Tails(ps)|
    decreases |ps|
  {
    hide TailOf;
    if i > 0 {
      OffsetIsInside(ps[1..], offset + |TailOf(ps[0])|, i - 1);
      assert ps[1..][i - 1] == ps[i];
    }
  }

  lemma {:induction false} HeadsLength(word: nat -> bytes, ps: seq<Piece>, offset: nat, limit: nat)
    requires OneWordHeads(ps) && OneWord(word, limit) && offset + |Tails(ps)| < limit
    ensures |Heads(word, ps, offset)| == 32 * |ps|
    decreases |ps|
  {
    if |ps| > 0 { HeadsLength(word, ps[1..], offset + |TailOf(ps[0])|, limit); }
  }

  lemma FirstHead(word: nat -> bytes, ps: seq<Piece>, offset: nat, limit: nat)
    requires |ps| > 0 && OneWordHeads(ps) && OneWord(word, limit) && offset < limit
    ensures |HeadOf(word, ps[0], offset)| == 32 && OneWordHeads(ps[1..])
  {
  }

  /** The i-th head is at 32 * i. */
  lemma {:induction false} HeadAt(word: nat -> bytes, ps: seq<Piece>, offset: nat, limit: nat, i: nat)
    requires i < |ps| && OneWordHeads(ps) && OneWord(word, limit) && offset + |Tails(ps)| < limit
    ensures Holds(Heads(word, ps, offset), 32 * i, HeadOf(word, ps[i], OffsetOf(ps, offset, i)))
    decreases |ps|
  {
    hide Holds, HeadOf, OneWord, OneWordHeads;
    FirstHead(word, ps, offset, limit);
    var h, after := HeadOf(word, ps[0], offset), offset + |TailOf(ps[0])|;
    var rest := Heads(word, ps[1..], after);
    if i > 0 {
      HeadAt(word, ps[1..], after, limit, i - 1);
      HoldsBehind(h, rest, 32, 32 * (i - 1), HeadOf(word, ps[i], OffsetOf(ps, offset, i)));
    } else {
      HoldsHead(h, rest);
    }
  }

  /** The i-th tail is where its offset says. */
  lemma {:induction false} TailAt(ps: seq<Piece>, offset: nat, i: nat)
    requires i < |ps|
    ensures Holds(Tails(ps), OffsetOf(ps, offset, i) - offset, TailOf(ps[i]))
    decreases |ps|
  {
    hide Holds;
    var t, rest := TailOf(ps[0]), Tails(ps[1..]);
    if i > 0 {
      TailAt(ps[1..], offset + |t|, i - 1);
      HoldsBehind(t, rest, |t|, OffsetOf(ps, offset, i) - (offset + |t|), TailOf(ps[i]));
    } else {
      HoldsHead(t, rest);
    }
  }

  /** The i-th head of an encoding is at 32 * i and, if the piece is dynamic, leads to its tail. */
  lemma PieceIsFound(word: nat -> bytes, limit: nat, ps: seq<Piece>, enc: bytes, i: nat, offset: nat)
    requires i < |ps| && OneWordHeads(ps) && OneWord(word, limit) && 32 * |ps| + |Tails(ps)| < limit
    requires enc == HeadsAndTails(word, ps) && offset == OffsetOf(ps, 32 * |ps|, i)
    ensures Holds(enc, 32 * i, HeadOf(word, ps[i], offset))
    ensures Holds(enc, offset, TailOf(ps[i]))
  {
    hide HeadOf, TailOf, Heads, Tails, OffsetOf, Holds, OneWord, OneWordHeads;
    var base := 32 * |ps|;
    HeadAt(word, ps, base, limit, i);
    TailAt(ps, base, i);
    HeadsLength(word, ps, base, limit);
    HoldsInFront(Heads(word, ps, base), Tails(ps), 32 * i, HeadOf(word, ps[i], offset));
    HoldsBehind(Heads(word, ps, base), Tails(ps), base, offset - base, TailOf(ps[i]));
  }

  lemma WordsAreOneWord()
    ensures OneWord(Words(), U256)
  {
    forall n: nat | n < U256 ensures |Words()(n)| == 32 { WordIsFixed(n); }
  }

  // ----- Decoding what is held

  lemma SizeHeld(data: bytes, at: nat, n: nat)
    requires Holds(data, at, Word(n)) && n < U64
    ensures SizesIn(data)(at) == Ok(n)
  {
    WordIsFixed(n);
  }

  lemma PaddedHolds(s: bytes, n: nat)
    requires |s| <= n
    ensures Holds(PadRight(s, n), 0, s) && |PadRight(s, n)| == n
  {
  }

  lemma HoldsFits(data: bytes, from: nat, t: bytes)
    requires Holds(data, from, t)
    ensures from + |t| <= |data|
  {
  }

  lemma BytesHeld(data: bytes, from: nat, s: bytes)
    requires Holds(data, from, EncodeBytes(s)) && |s| < U64
    ensures SizesIn(data)(from) == Ok(|s|)
    ensures Holds(data, from + 32, s) && from + 64 <= |data|
  {
    hide SizesIn, Word, PaddedSize, PadRight, Holds;
    WordIsFixed(|s|);
    var padded := PadRight(s, PaddedSize(|s|));
    HoldsSplit(data, from, Word(|s|), padded, 32);
    SizeHeld(data, from, |s|);
    PaddedHolds(s, PaddedSize(|s|));
    HoldsTransitively(data, from + 32, padded, 0, s);
    HoldsFits(data, from + 32, padded);
  }

  lemma ElementDecodes(size: SizeReader, data: bytes, base: nat, i: nat, offset: nat, s: bytes)
    requires size(base + 32 * i) == Ok(offset) && size(base + offset) == Ok(|s|)
    requires Holds(data, base + offset + 32, s)
    ensures DecodeElement(size, data, base, i) == Ok(s)
  {
  }

  lemma EncodedIsLonger(s: bytes)
    ensures |s| <= |EncodeBytes(s)|
  {
  }

  /** An array element is found through its offset, whatever the strings encode to. */
  lemma ElementIsFound(data: bytes, base: nat, ps: seq<Piece>, enc: bytes, i: nat, offset: nat, s: bytes)
    requires i < |ps| && OneWordHeads(ps) && 32 * |ps| + |Tails(ps)| < U64
    requires ps[i] == Dynamic(EncodeBytes(s))
    requires enc == HeadsAndTails(Words(), ps) && offset == OffsetOf(ps, 32 * |ps|, i)
    requires Holds(data, base, enc)
    ensures DecodeElement(SizesIn(data), data, base, i) == Ok(s)
  {
    hide SizesIn, HeadsAndTails, Heads, Tails, OffsetOf, Word, Holds, DecodeElement;
    WordsAreOneWord();
    PieceIsFound(Words(), U256, ps, enc, i, offset);
    OffsetIsInside(ps, 32 * |ps|, i);
    EncodedIsLonger(s);
    HoldsTransitively(data, base, enc, 32 * i, Word(offset));
    HoldsTransitively(data, base, enc, offset, EncodeBytes(s));
    SizeHeld(data, base + 32 * i, offset);
    BytesHeld(data, base + offset, s);
    ElementDecodes(SizesIn(data), data, base, i, offset, s);
  }

  lemma {:induction false} ElementsDecode(size: SizeReader, data: bytes, base: nat, ss: seq<bytes>, i: nat)
    requires i <= |ss| && forall k :: i <= k < |ss| ==> DecodeElement(size, data, base, k) == Ok(ss[k])
    ensures DecodeElements(size, data, base, i, |ss|) == Ok(ss[i..])
    decreases |ss| - i
  {
    hide DecodeElement;
    if i < |ss| {
      ElementsDecode(size, data, base, ss, i + 1);
      assert ss[i..] == [ss[i]] + ss[i + 1..];
    }
  }

  lemma {:induction false} ConcatAt(ws: seq<bytes>, i: nat)
    requires i < |ws| && forall k :: 0 <= k < |ws| ==> |ws[k]| == 32
    ensures Holds(Concat(ws), 32 * i, ws[i])
  {
    if i > 0 {
      ConcatAt(ws[1..], i - 1);
      HoldsBehind(ws[0], Concat(ws[1..]), 32, 32 * (i - 1), ws[i]);
    } else {
      HoldsHead(ws[0], Concat(ws[1..]));
    }
  }

  lemma {:induction false} ConcatLength(ws: seq<bytes>)
    requires forall k :: 0 <= k < |ws| ==> |ws[k]| == 32
    ensures |Concat(ws)| == 32 * |ws|
  {
    if |ws| > 0 { ConcatLength(ws[1..]); }
  }

  lemma {:induction false} ItemsDecode<T>(read: WordReader<T>, from: nat, xs: seq<T>)
    requires forall k :: 0 <= k < |xs| ==> read(from + 32 * k) == Ok(xs[k])
    ensures DecodeItems(read, from, |xs|) == Ok(xs)
    decreases |xs|
  {
    if |xs| > 0 {
      forall k | 0 <= k < |xs[1..]| ensures read(from + 32 + 32 * k) == Ok(xs[1..][k]) {
        assert read(from + 32 * (k + 1)) == Ok(xs[k + 1]);
      }
      assert read(from + 32 * 0) == Ok(xs[0]);
      ItemsDecode(read, from + 32, xs[1..]);
      assert xs == [xs[0]] + xs[1..];
    }
  }

  /** `read` recovers item k of `xs` from wherever its word is held. */
  ghost predicate Recovers<T(!new)>(read: WordReader<T>, data: bytes, ws: seq<bytes>, xs: seq<T>)
    requires |ws| == |xs|
  {
    forall k, at: nat :: 0 <= k < |ws| && Holds(data, at, ws[k]) ==> read(at) == Ok(xs[k])
  }

  lemma ArrayIsDecoded<T(!new)>(read: WordReader<T>, data: bytes, start: nat, from: nat, ws: seq<bytes>, xs: seq<T>)
    requires |ws| == |xs| < U64 && from < U64 && (forall k :: 0 <= k < |ws| ==> |ws[k]| == 32)
    requires Holds(data, start, Word(from)) && Holds(data, from, EncodeWords(ws))
    requires Recovers(read, data, ws, xs)
    ensures DecodeArray(SizesIn(data), read, data, start) == Ok(xs)
  {
    hide SizesIn, Word, Concat, DecodeItems;
    SizeHeld(data, start, from);
    WordIsFixed(|ws|);
    HoldsSplit(data, from, Word(|ws|), Concat(ws), 32);
    SizeHeld(data, from, |ws|);
    ConcatLength(ws);
    forall k | 0 <= k < |xs| ensures read(from + 32 + 32 * k) == Ok(xs[k]) {
      ConcatAt(ws, k);
      HoldsTransitively(data, from + 32, Concat(ws), 32 * k, ws[k]);
    }
    ItemsDecode(read, from + 32, xs);
  }

  lemma BytesAreDecoded(data: bytes, start: nat, from: nat, s: bytes)
    requires Holds(data, start, Word(from)) && from < U64 && |s| < U64
    requires Holds(data, from, EncodeBytes(s)) && start + 32 <= from
    ensures DecodeBytes(SizesIn(data), data, start) == Ok(s)
  {
    hide SizesIn, Word, EncodeBytes;
    SizeHeld(data, start, from);
    BytesHeld(data, from, s);
  }

  lemma BytesArrIsDecoded(data: bytes, start: nat, from: nat, ss: seq<bytes>, ps: seq<Piece>, enc: bytes)
    requires Holds(data, start, Word(from)) && from < U64
    requires ps == BytesPieces(ss) && enc == HeadsAndTails(Words(), ps) && 32 * |ss| + |Tails(ps)| < U64
    requires Holds(data, from, Word(|ss|) + enc)
    ensures DecodeBytesArr(SizesIn(data), data, start) == Ok(ss)
  {
    hide SizesIn, HeadsAndTails, Heads, Tails, OffsetOf, Word, Holds, DecodeElement, DecodeElements;
    SizeHeld(data, start, from);
    WordIsFixed(|ss|);
    HoldsSplit(data, from, Word(|ss|), enc, 32);
    SizeHeld(data, from, |ss|);
    forall i | 0 <= i < |ss| ensures DecodeElement(SizesIn(data), data, from + 32, i) == Ok(ss[i]) {
      ElementIsFound(data, from + 32, ps, enc, i, OffsetOf(ps, 32 * |ps|, i), ss[i]);
    }
    ElementsDecode(SizesIn(data), data, from + 32, ss, 0);
  }

  // ----- The round trip

  lemma UintsAreRecovered(data: bytes, ns: seq<u256>)
    ensures Recovers(UintsIn(data), data, UintWords(ns), ns)
  {
    forall k, at: nat | 0 <= k < |ns| && Holds(data, at, Fixed(ns[k], 32)) ensures UintsIn(data)(at) == Ok(ns[k]) {
      UintHeld(data, at, ns[k]);
    }
  }

  lemma UintHeld(data: bytes, at: nat, n: u256)
    requires Holds(data, at, Fixed(n, 32))
    ensures UintsIn(data)(at) == Ok(n)
  {
    Pow256Values();
    FixedRoundTrip(n, 32);
  }

  lemma AddressHeld(data: bytes, at: nat, a: Address)
    requires Holds(data, at, AddressWord(a))
    ensures AddressesIn(data)(at) == Ok(a)
  {
    assert AddressWord(a)[12..] == a;
    assert data[at..at + 32][12..] == data[at + 12..at + 32];
  }

  lemma AddressesAreRecovered(data: bytes, xs: seq<Address>)
    ensures Recovers(AddressesIn(data), data, AddressWords(xs), xs)
  {
    forall k, at: nat | 0 <= k < |xs| && Holds(data, at, AddressWord(xs[k]))
      ensures AddressesIn(data)(at) == Ok(xs[k])
    {
      AddressHeld(data, at, xs[k]);
    }
  }

  lemma BoolHeld(data: bytes, at: nat, b: bool)
    requires Holds(data, at, BoolWord(b))
    ensures BoolsIn(data)(at) == Ok(b)
  {
    assert data[at + 31] == data[at..at + 32][31] == BoolWord(b)[31];
  }

  lemma BoolsAreRecovered(data: bytes, bs: seq<bool>)
    ensures Recovers(BoolsIn(data), data, BoolWords(bs), bs)
  {
    forall k, at: nat | 0 <= k < |bs| && Holds(data, at, BoolWord(bs[k])) ensures BoolsIn(data)(at) == Ok(bs[k]) {
      BoolHeld(data, at, bs[k]);
    }
  }

  lemma {:induction false} HeadsAreLong(word: nat -> bytes, ps: seq<Piece>, offset: nat)
    requires OneWordHeads(ps) && forall n: nat :: |word(n)| >= 32
    ensures |Heads(word, ps, offset)| >= 32 * |ps|
    decreases |ps|
  {
    if |ps| > 0 { HeadsAreLong(word, ps[1..], offset + |TailOf(ps[0])|); }
  }

  /** An encoding is at least one word per piece and its tails. */
  lemma EncodingIsLong(ps: seq<Piece>)
    requires OneWordHeads(ps)
    ensures |HeadsAndTails(Words(), ps)| >= 32 * |ps| + |Tails(ps)|
  {
    HeadsAreLong(Words(), ps, 32 * |ps|);
  }

  lemma ArrayArgIsDecoded<T(!new)>(read: WordReader<T>, data: bytes, start: nat, from: nat, ws: seq<bytes>, xs: seq<T>)
    requires |ws| == |xs| && (forall k :: 0 <= k < |ws| ==> |ws[k]| == 32)
    requires Holds(data, start, Word(from)) && Holds(data, from, EncodeWords(ws)) && |data| < U64
    requires Recovers(read, data, ws, xs)
    ensures DecodeArray(SizesIn(data), read, data, start) == Ok(xs)
  {
    hide Word, DecodeArray;
    ConcatLength(ws);
    ArrayIsDecoded(read, data, start, from, ws, xs);
  }

  lemma BytesArrArgIsDecoded(data: bytes, start: nat, from: nat, ss: seq<bytes>)
    requires Holds(data, start, Word(from)) && Holds(data, from, EncodeBytesArr(ss)) && |data| < U64
    ensures DecodeBytesArr(SizesIn(data), data, start) == Ok(ss)
  {
    hide Word, HeadsAndTails, DecodeBytesArr;
    var ps := BytesPieces(ss);
    EncodingIsLong(ps);
    BytesArrIsDecoded(data, start, from, ss, ps, HeadsAndTails(Words(), ps));
  }

  /** Any argument is decoded where its head and its tail are held. */
  lemma ArgIsDecoded(x: Arg, t: Type, data: bytes, start: nat, from: nat)
    requires HasType(x, t) && |data| < U64 && start + 32 <= from
    requires Holds(data, start, HeadOf(Words(), PieceOf(x), from)) && Holds(data, from, TailOf(PieceOf(x)))
    ensures DecodeArg(t, data, start) == Ok(x)
  {
    hide Word, Holds, EncodeBytes, EncodeWords, EncodeBytesArr, DecodeBytes, DecodeArray, DecodeBytesArr;
    hide SizesIn, UintsIn, AddressesIn, BoolsIn, Fixed, AddressWord, BoolWord;
    match x
    case Uint256(n) => UintHeld(data, start, n);
    case Addr(a) => AddressHeld(data, start, a);
    case Boolean(b) => BoolHeld(data, start, b);
    case Bytes(s) => BytesArgIsDecoded(data, start, from, s);
    case Uint256Arr(ns) =>
      UintsAreRecovered(data, ns);
      ArrayArgIsDecoded(UintsIn(data), data, start, from, UintWords(ns), ns);
    case AddressArr(xs) =>
      AddressesAreRecovered(data, xs);
      ArrayArgIsDecoded(AddressesIn(data), data, start, from, AddressWords(xs), xs);
    case BooleanArr(bs) =>
      BoolsAreRecovered(data, bs);
      ArrayArgIsDecoded(BoolsIn(data), data, start, from, BoolWords(bs), bs);
    case BytesArr(ss) => BytesArrArgIsDecoded(data, start, from, ss);
  }

  lemma BytesArgIsDecoded(data: bytes, start: nat, from: nat, s: bytes)
    requires Holds(data, start, Word(from)) && Holds(data, from, EncodeBytes(s)) && |data| < U64 && start + 32 <= from
    ensures DecodeBytes(SizesIn(data), data, start) == Ok(s)
  {
    hide Word, DecodeBytes;
    EncodedIsLonger(s);
    BytesAreDecoded(data, start, from, s);
  }

  lemma PiecesAreOneWord(xs: seq<Arg>)
    ensures OneWordHeads(PiecesOf(xs))
  {
    forall i | 0 <= i < |xs| && PieceOf(xs[i]).Static? ensures |PieceOf(xs[i]).word| == 32 {
    }
  }

  lemma ArgIsFound(xs: seq<Arg>, t: Type, data: bytes, i: nat)
    requires i < |xs| && HasType(xs[i], t) && data == Encode(xs) && |data| < U64
    ensures DecodeArg(t, data, 32 * i) == Ok(xs[i])
  {
    hide Words, PieceOf, HeadsAndTails, Holds, HeadOf, TailOf, OneWord, OneWordHeads, DecodeArg, Tails;
    var ps := PiecesOf(xs);
    var offset := OffsetOf(ps, 32 * |ps|, i);
    PiecesAreOneWord(xs);
    EncodingIsLong(ps);
    WordsAreOneWord();
    PieceIsFound(Words(), U256, ps, data, i, offset);
    ArgIsDecoded(xs[i], t, data, 32 * i, offset);
  }

  lemma {:induction false} ArgsAreDecoded(xs: seq<Arg>, ts: seq<Type>, data: bytes, i: nat)
    requires |xs| == |ts| && i <= |xs|
    requires forall k :: i <= k < |xs| ==> DecodeArg(ts[k], data, 32 * k) == Ok(xs[k])
    ensures DecodeFrom(ts[i..], data, 32 * i) == Ok(xs[i..])
    decreases |xs| - i
  {
    hide DecodeArg;
    if i < |xs| {
      ArgsAreDecoded(xs, ts, data, i + 1);
      assert ts[i..][1..] == ts[i + 1..] && xs[i..] == [xs[i]] + xs[i + 1..];
    }
  }

  /** Decoding what was encoded gives back the arguments, behind any four-byte selector. */
  lemma RoundTrip(xs: seq<Arg>, ts: seq<Type>, selector: bytes)
    requires |xs| == |ts| && (forall i :: 0 <= i < |xs| ==> HasType(xs[i], ts[i]))
    requires |selector| == 4 && |Encode(xs)| < U64
    ensures Decode(ts, Encode(xs)) == Ok(xs)
    ensures Decode(ts, (selector + Encode(xs))[4..]) == Ok(xs)
  {
    hide HasType, Encode, DecodeArg;
    forall k | 0 <= k < |xs| ensures DecodeArg(ts[k], Encode(xs), 32 * k) == Ok(xs[k]) {
      ArgIsFound(xs, ts[k], Encode(xs), k);
    }
    ArgsAreDecoded(xs, ts, Encode(xs), 0);
    assert ts[0..] == ts && xs[0..] == xs;
    assert (selector + Encode(xs))[4..] == Encode(xs);
  }

  // ----- The decoder's loops

  /** What a loop that has collected `done` returns if the rest of it returns `rest`. */
  function After<T>(done: seq<T>, rest: Result<seq<T>>): (r: Result<seq<T>>) {
    match rest
    case Ok(xs) => Ok(done + xs)
    case Err => Err
  }

  /** One loop for the three kinds of one-word items; `read` is the only difference. */
  method ReadItems<T>(read: WordReader<T>, start: nat, n: nat) returns (r: Result<seq<T>>)
    ensures r == DecodeItems(read, start, n)
  {
    var xs: seq<T> := [];
    AfterNothing(DecodeItems(read, start, n));
    for i := 0 to n
      invariant DecodeItems(read, start, n) == After(xs, DecodeItems(read, start + 32 * i, n - i))
    {
      var x := read(start + i * 32);
      if x.Err? { return Err; }
      AfterMore(xs, x.value, DecodeItems(read, start + 32 * (i + 1), n - (i + 1)));
      xs := xs + [x.value];
    }
    AfterAll(xs);
    r := Ok(xs);
  }

  lemma AfterNothing<T>(rest: Result<seq<T>>)
    ensures After([], rest) == rest
  {
    if rest.Ok? { assert [] + rest.value == rest.value; }
  }

  lemma AfterAll<T>(done: seq<T>)
    ensures After(done, Ok([])) == Ok(done)
  {
    assert done + [] == done;
  }

  lemma AfterMore<T>(done: seq<T>, x: T, rest: Result<seq<T>>)
    ensures After(done, After([x], rest)) == After(done + [x], rest)
  {
    if rest.Ok? { assert done + ([x] + rest.value) == done + [x] + rest.value; }
  }

  method ReadArray<T>(size: SizeReader, read: WordReader<T>, data: bytes, start: nat) returns (r: Result<seq<T>>)
    ensures r == DecodeArray(size, read, data, start)
  {
    var from :- size(start);
    var length :- size(from);
    if from + 32 + length * 32 > |data| { return Err; }
    r := ReadItems(read, from + 32, length);
  }

  method ReadBytesArr(size: SizeReader, data: bytes, start: nat) returns (r: Result<seq<bytes>>)
    ensures r == DecodeBytesArr(size, data, start)
  {
    hide DecodeElement;
    var from :- size(start);
    var length :- size(from);
    var ss: seq<bytes> := [];
    AfterNothing(DecodeElements(size, data, from + 32, 0, length));
    for i := 0 to length
      invariant DecodeElements(size, data, from + 32, 0, length)
        == After(ss, DecodeElements(size, data, from + 32, i, length))
    {
      var s := DecodeElement(size, data, from + 32, i);
      if s.Err? { return Err; }
      AfterMore(ss, s.value, DecodeElements(size, data, from + 32, i + 1, length));
      ss := ss + [s.value];
    }
    AfterAll(ss);
    r := Ok(ss);
  }

  // ----- The encoder's loops

  method PadSize(length: nat) returns (pad: nat)
    ensures pad == PaddedSize(length)
  {
    pad := 32;
    while pad < length
      invariant pad >= 32
      invariant PaddedSize(length) == if pad < length + 32 then pad - 32 + PaddedSize(length - (pad - 32)) else pad
    {
      pad := pad + 32;
    }
  }

  method WriteBytes(s: bytes) returns (r: bytes)
    ensures r == EncodeBytes(s)
  {
    var pad := PadSize(|s|);
    r := Word(|s|) + PadRight(s, pad);
  }

  method WriteUint256Arr(ns: seq<u256>) returns (r: bytes)
    ensures r == EncodeWords(UintWords(ns))
  {
    hide Word, Fixed;
    ghost var ws := UintWords(ns);
    var data: bytes := [];
    for i := 0 to |ns|
      invariant data + Concat(ws[i..]) == Concat(ws)
    {
      AppendWord(data, ws, i);
      data := data + Fixed(ns[i], 32);
    }
    AllAppended(data, ws);
    r := Word(|ns|) + data;
  }

  method WriteAddressArr(xs: seq<Address>) returns (r: bytes)
    ensures r == EncodeWords(AddressWords(xs))
  {
    hide Word, AddressWord;
    ghost var ws := AddressWords(xs);
    var data: bytes := [];
    for i := 0 to |xs|
      invariant data + Concat(ws[i..]) == Concat(ws)
    {
      AppendWord(data, ws, i);
      data := data + AddressWord(xs[i]);
    }
    AllAppended(data, ws);
    r := Word(|xs|) + data;
  }

  method WriteBoolArr(bs: seq<bool>) returns (r: bytes)
    ensures r == EncodeWords(BoolWords(bs))
  {
    hide Word, BoolWord;
    ghost var ws := BoolWords(bs);
    var data: bytes := [];
    for i := 0 to |bs|
      invariant data + Concat(ws[i..]) == Concat(ws)
    {
      AppendWord(data, ws, i);
      data := data + BoolWord(bs[i]);
    }
    AllAppended(data, ws);
    r := Word(|bs|) + data;
  }

  lemma AppendWord(data: bytes, ws: seq<bytes>, i: nat)
    requires i < |ws|
    ensures data + ws[i] + Concat(ws[i + 1..]) == data + Concat(ws[i..])
  {
    assert ws[i..][1..] == ws[i + 1..];
    assert data + ws[i] + Concat(ws[i + 1..]) == data + (ws[i] + Concat(ws[i + 1..]));
  }

  lemma AllAppended(data: bytes, ws: seq<bytes>)
    ensures data + Concat(ws[|ws|..]) == data
  {
  }

  lemma EncodedSize(s: bytes)
    requires |s| < U256
    ensures |EncodeBytes(s)| == 32 + PaddedSize(|s|)
  {
    WordIsFixed(|s|);
  }

  lemma NextHead(word: nat -> bytes, done: bytes, ps: seq<Piece>, i: nat, offset: nat)
    requires i < |ps|
    ensures done + HeadOf(word, ps[i], offset) + Heads(word, ps[i + 1..], offset + |TailOf(ps[i])|)
         == done + Heads(word, ps[i..], offset)
  {
    var h, rest := HeadOf(word, ps[i], offset), Heads(word, ps[i + 1..], offset + |TailOf(ps[i])|);
    assert ps[i..][1..] == ps[i + 1..];
    assert done + h + rest == done + (h + rest);
  }

  lemma NextTail(done: bytes, ps: seq<Piece>, i: nat)
    requires i < |ps|
    ensures done + TailOf(ps[i]) + Tails(ps[i + 1..]) == done + Tails(ps[i..])
  {
    assert ps[i..][1..] == ps[i + 1..];
    assert done + TailOf(ps[i]) + Tails(ps[i + 1..]) == done + (TailOf(ps[i]) + Tails(ps[i + 1..]));
  }

  lemma NoneLeft(word: nat -> bytes, heads: bytes, tails: bytes, ps: seq<Piece>, offset: nat)
    ensures heads + Heads(word, ps[|ps|..], offset) == heads && tails + Tails(ps[|ps|..]) == tails
    ensures [] + Heads(word, ps[0..], 32 * |ps|) == Heads(word, ps, 32 * |ps|) && [] + Tails(ps[0..]) == Tails(ps)
  {
    assert ps[0..] == ps;
  }

  /** Offsets are computed from the count of padding words, never by measuring what was written.
      (A string's length fits a machine word.) */
  method WriteBytesArr(ss: seq<bytes>) returns (r: bytes)
    requires forall i :: 0 <= i < |ss| ==> |ss[i]| < U256
    ensures r == EncodeBytesArr(ss)
  {
    hide Word, Words, EncodeBytes, PaddedSize, Heads, Tails, HeadOf, TailOf;
    ghost var ps := BytesPieces(ss);
    var offsets, items: bytes := [], [];
    var pads: nat := 0;
    NoneLeft(Words(), [], [], ps, 0);
    for i := 0 to |ss|
      invariant offsets + Heads(Words(), ps[i..], 32 * |ss| + 32 * i + 32 * pads) == Heads(Words(), ps, 32 * |ss|)
      invariant items + Tails(ps[i..]) == Tails(ps)
    {
      var offset := 32 * |ss| + 32 * i + 32 * pads;
      NextHead(Words(), offsets, ps, i, offset);
      NextTail(items, ps, i);
      BytesPiece(ss, i, offset);
      var p := PadSize(|ss[i]|);
      PaddedSizeIsWords(|ss[i]|, offset);
      offsets := offsets + OffsetWord(offset);
      items := items + EncodedItem(ss[i], p);
      pads := pads + p / 32;
      assert 32 * |ss| + 32 * (i + 1) + 32 * pads == offset + (32 + 32 * (p / 32));
    }
    NoneLeft(Words(), offsets, items, ps, 32 * |ss| + 32 * |ss| + 32 * pads);
    r := Word(|ss|) + (offsets + items);
  }

  lemma BytesPiece(ss: seq<bytes>, i: nat, offset: nat)
    requires i < |ss| && |ss[i]| < U256
    ensures HeadOf(Words(), BytesPieces(ss)[i], offset) == OffsetWord(offset)
    ensures TailOf(BytesPieces(ss)[i]) == EncodeBytes(ss[i]) && |EncodeBytes(ss[i])| == 32 + PaddedSize(|ss[i]|)
  {
    hide Word, EncodeBytes, PaddedSize;
    EncodedSize(ss[i]);
  }

  function OffsetWord(offset: nat): (w: bytes)
    ensures w == Words()(offset)
  {
    Word(offset)
  }

  function EncodedItem(s: bytes, p: nat): (w: bytes)
    requires p == PaddedSize(|s|)
    ensures w == EncodeBytes(s)
  {
    Word(|s|) + PadRight(s, p)
  }

  lemma PaddedSizeIsWords(length: nat, offset: nat)
    ensures offset + (32 + 32 * (PaddedSize(length) / 32)) == offset + (32 + PaddedSize(length))
  {
  }

  /** Strings fit in memory. */
  ghost predicate Storable(x: Arg) {
    match x
    case Bytes(s) => |s| < U256
    case BytesArr(ss) => forall i :: 0 <= i < |ss| ==> |ss[i]| < U256
    case _ => true
  }

  method WriteTail(x: Arg) returns (tail: bytes)
    requires Storable(x) && PieceOf(x).Dynamic?
    ensures tail == TailOf(PieceOf(x))
  {
    hide EncodeBytes, EncodeWords, EncodeBytesArr;
    match x
    case Bytes(s) => tail := WriteBytes(s);
    case Uint256Arr(ns) => tail := WriteUint256Arr(ns);
    case AddressArr(addrs) => tail := WriteAddressArr(addrs);
    case BooleanArr(bs) => tail := WriteBoolArr(bs);
    case BytesArr(ss) => tail := WriteBytesArr(ss);
  }

  /** What the constructor adds to `nextOffset` for a tail: whole words of what was packed, or
      32 + 32 * size for the arrays of one-word items. */
  function OffsetStep(x: Arg, tail: bytes): (n: nat) {
    match x
    case Uint256Arr(ns) => 32 + 32 * |ns|
    case AddressArr(addrs) => 32 + 32 * |addrs|
    case BooleanArr(bs) => 32 + 32 * |bs|
    case _ => 32 * (|tail| / 32)
  }

  ghost predicate WholeWords(n: nat) { n % 32 == 0 }

  lemma WholeWordsAdd(a: nat, b: nat)
    requires WholeWords(a) && WholeWords(b)
    ensures WholeWords(a + b)
  {
  }

  lemma {:induction false} TailsAreWords(ps: seq<Piece>)
    requires forall i :: 0 <= i < |ps| ==> WholeWords(|TailOf(ps[i])|)
    ensures WholeWords(|Tails(ps)|)
  {
    hide TailOf;
    if |ps| > 0 {
      TailsAreWords(ps[1..]);
      WholeWordsAdd(|TailOf(ps[0])|, |Tails(ps[1..])|);
    }
  }

  lemma ArrayTailSize(ws: seq<bytes>)
    requires |ws| < U256 && forall k :: 0 <= k < |ws| ==> |ws[k]| == 32
    ensures |EncodeWords(ws)| == 32 + 32 * |ws|
  {
    hide Word;
    WordIsFixed(|ws|);
    ConcatLength(ws);
  }

  lemma BytesTailSize(s: bytes)
    requires |s| < U256
    ensures WholeWords(|EncodeBytes(s)|)
  {
    hide EncodeBytes;
    EncodedSize(s);
    WholeWordsAdd(32, PaddedSize(|s|));
  }

  lemma BytesArrTailSize(ss: seq<bytes>)
    requires |EncodeBytesArr(ss)| < U256 && forall i :: 0 <= i < |ss| ==> |ss[i]| < U256
    ensures WholeWords(|EncodeBytesArr(ss)|)
  {
    hide Words, HeadsAndTails, EncodeBytes, WholeWords, Tails, Word;
    var ps := BytesPieces(ss);
    EncodingIsLong(ps);
    WordIsFixed(|ss|);
    forall i | 0 <= i < |ps| ensures WholeWords(|TailOf(ps[i])|) { BytesTailSize(ss[i]); }
    TailsAreWords(ps);
    WordsAreOneWord();
    LayoutSize(Words(), ps, U256);
    MultipleIsWholeWords(|ss| + 1);
    WholeWordsAdd(32 * (|ss| + 1), |Tails(ps)|);
  }

  lemma MultipleIsWholeWords(n: nat)
    ensures WholeWords(32 * n)
  {
  }

  lemma LayoutSize(word: nat -> bytes, ps: seq<Piece>, limit: nat)
    requires OneWordHeads(ps) && OneWord(word, limit) && 32 * |ps| + |Tails(ps)| < limit
    ensures |HeadsAndTails(word, ps)| == 32 * |ps| + |Tails(ps)|
  {
    HeadsLength(word, ps, 32 * |ps|, limit);
  }

  /** The step is the size of the tail, however it is computed. */
  lemma OffsetStepIsTailSize(x: Arg, tail: bytes)
    requires Storable(x) && PieceOf(x).Dynamic? && tail == TailOf(PieceOf(x)) && |tail| < U256
    ensures OffsetStep(x, tail) == |tail|
  {
    hide EncodeBytes, EncodeWords, EncodeBytesArr;
    match x
    case Bytes(s) => BytesTailSize(s);
    case Uint256Arr(ns) => ArrayFits(UintWords(ns)); ArrayTailSize(UintWords(ns));
    case AddressArr(addrs) => ArrayFits(AddressWords(addrs)); ArrayTailSize(AddressWords(addrs));
    case BooleanArr(bs) => ArrayFits(BoolWords(bs)); ArrayTailSize(BoolWords(bs));
    case BytesArr(ss) => BytesArrTailSize(ss);
  }

  lemma ArrayFits(ws: seq<bytes>)
    requires |EncodeWords(ws)| < U256 && forall k :: 0 <= k < |ws| ==> |ws[k]| == 32
    ensures |ws| < U256
  {
    hide Word;
    ConcatLength(ws);
  }

  predicate IsDynamic(x: Arg)
    ensures IsDynamic(x) == PieceOf(x).Dynamic?
  {
    !x.Uint256? && !x.Addr? && !x.Boolean?
  }

  function HeadBytes(x: Arg, offset: nat): (h: bytes)
    ensures h == HeadOf(Words(), PieceOf(x), offset)
  {
    match x
    case Uint256(n) => Fixed(n, 32)
    case Addr(a) => AddressWord(a)
    case Boolean(b) => BoolWord(b)
    case _ => Word(offset)
  }

  lemma StaticHasNoTail(x: Arg, tails: bytes)
    requires !IsDynamic(x)
    ensures tails + TailOf(PieceOf(x)) == tails
  {
  }

  /** The encoder's main loop; `nextOffset` is always the head size plus the tails so far. */
  method EncodeArgs(xs: seq<Arg>, selector: bytes) returns (data: bytes)
    requires (forall i :: 0 <= i < |xs| ==> Storable(xs[i])) && |Encode(xs)| < U256
    ensures data == selector + Encode(xs)
  {
    hide Word, Words, Heads, Tails, PieceOf, Storable, HeadOf, TailOf;
    ghost var ps := PiecesOf(xs);
    ghost var heads: bytes := [];
    PiecesAreOneWord(xs);
    EncodingIsLong(ps);
    NoneLeft(Words(), [], [], ps, 0);
    data := selector;
    var nextOffset, dynamicStr: bytes := 32 * |xs|, [];
    for i := 0 to |xs|
      invariant nextOffset == 32 * |xs| + |dynamicStr|
      invariant data == selector + heads
      invariant heads + Heads(Words(), ps[i..], nextOffset) == Heads(Words(), ps, 32 * |xs|)
      invariant dynamicStr + Tails(ps[i..]) == Tails(ps)
    {
      NextHead(Words(), heads, ps, i, nextOffset);
      NextTail(dynamicStr, ps, i);
      var head := HeadBytes(xs[i], nextOffset);
      data, heads := data + head, heads + head;
      if IsDynamic(xs[i]) {
        var tail := WriteTail(xs[i]);
        OffsetStepIsTailSize(xs[i], tail);
        nextOffset := nextOffset + OffsetStep(xs[i], tail);
        dynamicStr := dynamicStr + tail;
      } else {
        StaticHasNoTail(xs[i], dynamicStr);
      }
    }
    NoneLeft(Words(), heads, dynamicStr, ps, nextOffset);
    data := data + dynamicStr;
  }

  method DecodeOne(t: Type, data: bytes, start: nat) returns (r: Result<Arg>)
    ensures r == DecodeArg(t, data, start)
  {
    hide SizesIn, UintsIn, AddressesIn, BoolsIn, DecodeArray, DecodeBytes, DecodeBytesArr;
    var size := SizesIn(data);
    match t
    case TUint256Arr => var ns :- ReadArray(size, UintsIn(data), data, start); r := Ok(Uint256Arr(ns));
    case TAddressArr => var xs :- ReadArray(size, AddressesIn(data), data, start); r := Ok(AddressArr(xs));
    case TBooleanArr => var bs :- ReadArray(size, BoolsIn(data), data, start); r := Ok(BooleanArr(bs));
    case TBytesArr => var ss :- ReadBytesArr(size, data, start); r := Ok(BytesArr(ss));
    case TStringArr => var ss :- ReadBytesArr(size, data, start); r := Ok(BytesArr(ss));
    case _ => r := DecodeArg(t, data, start);
  }

  method DecodeArgs(ts: seq<Type>, data: bytes) returns (r: Result<seq<Arg>>)
    ensures r == Decode(ts, data)
  {
    hide DecodeArg;
    var xs: seq<Arg> := [];
    var argIdx, dataIdx := 0, 0;
    assert ts[0..] == ts;
    AfterNothing(Decode(ts, data));
    while argIdx < |ts|
      invariant argIdx <= |ts| && dataIdx == 32 * argIdx
      invariant Decode(ts, data) == After(xs, DecodeFrom(ts[argIdx..], data, dataIdx))
    {
      assert ts[argIdx..][1..] == ts[argIdx + 1..];
      var x := DecodeOne(ts[argIdx], data, dataIdx);
      if x.Err? { return Err; }
      AfterMore(xs, x.value, DecodeFrom(ts[argIdx + 1..], data, dataIdx + 32));
      xs := xs + [x.value];
      dataIdx := dataIdx + 32;
      argIdx := argIdx + 1;
    }
    AfterAll(xs);
    r := Ok(xs);
  }
}
