/** Where every byte of an encoding is, in the terms of the Solidity Contract ABI Specification (section
    "Formal Specification of the Encoding"): heads of 32 bytes, offsets counted from the start of the
    arguments, lengths in front of dynamic contents (src/contract/abi.cpp). */
module AbiLayout {
  import opened Bytes
  import opened Abi

  /** The 32 bytes of a static argument: numbers big-endian, addresses and truth values on the right. */
  function StaticBytes(x: Arg): (w: bytes)
    requires !IsDynamic(x)
  {
    match x
    case Uint256(n) => Fixed(n, 32)
    case Addr(a) => Zeros(12) + a
    case Boolean(b) => Zeros(31) + [if b then 1 else 0]
  }

  /** Zeros behind n bytes: up to the next multiple of 32, and one whole word behind none. */
  function Padding(n: nat): (k: nat) { if n == 0 then 32 else (32 - n % 32) % 32 }

  function BytesWithLength(s: bytes): (t: bytes) { Fixed(|s|, 32) + (s + Zeros(Padding(|s|))) }

  function BytesSize(s: bytes): (n: nat) { 32 + |s| + Padding(|s|) }

  /** The sum of the first i sizes. */
  function Before(sizes: seq<nat>, i: nat): (n: nat)
    requires i <= |sizes|
  {
    if i == 0 then 0 else Before(sizes, i - 1) + sizes[i - 1]
  }

  function Sizes(ss: seq<bytes>): (r: seq<nat>)
    ensures |r| == |ss| && forall i :: 0 <= i < |r| ==> r[i] == BytesSize(ss[i])
  {
    seq(|ss|, i requires 0 <= i < |ss| => BytesSize(ss[i]))
  }

  /** The size of what a dynamic argument has behind the heads. */
  function TailSize(x: Arg): (n: nat) {
    match x
    case Bytes(s) => BytesSize(s)
    case Uint256Arr(ns) => 32 + 32 * |ns|
    case AddressArr(xs) => 32 + 32 * |xs|
    case BooleanArr(bs) => 32 + 32 * |bs|
    case BytesArr(ss) => 32 + 32 * |ss| + Before(Sizes(ss), |ss|)
    case _ => 0
  }

  function TailSizes(xs: seq<Arg>): (r: seq<nat>)
    ensures |r| == |xs| && forall i :: 0 <= i < |r| ==> r[i] == TailSize(xs[i])
  {
    seq(|xs|, i requires 0 <= i < |xs| => TailSize(xs[i]))
  }

  /** What it has there: its length, and then its words, or offsets of its own and the strings. */
  ghost predicate IsTail(x: Arg, t: bytes) {
    |t| == TailSize(x) &&
    match x
    case Bytes(s) => t == BytesWithLength(s)
    case Uint256Arr(ns) =>
      t[..32] == Fixed(|ns|, 32) && forall i :: 0 <= i < |ns| ==> t[32 + 32 * i..64 + 32 * i] == Fixed(ns[i], 32)
    case AddressArr(xs) =>
      t[..32] == Fixed(|xs|, 32) && forall i :: 0 <= i < |xs| ==> t[32 + 32 * i..64 + 32 * i] == Zeros(12) + xs[i]
    case BooleanArr(bs) =>
      t[..32] == Fixed(|bs|, 32)
      && forall i :: 0 <= i < |bs| ==> t[32 + 32 * i..64 + 32 * i] == Zeros(31) + [if bs[i] then 1 else 0]
    case BytesArr(ss) => t[..32] == Fixed(|ss|, 32) && forall i :: 0 <= i < |ss| ==> HasElement(ss, t, i)
    case _ => true
  }

  /** Element i of an array of strings: an offset, counted from behind the array's length, to the string. */
  ghost predicate HasElement(ss: seq<bytes>, t: bytes, i: nat)
    requires i < |ss|
  {
    var offset := 32 * |ss| + Before(Sizes(ss), i);
    && 64 + 32 * i <= |t| && t[32 + 32 * i..64 + 32 * i] == Fixed(offset, 32)
    && Holds(t, 32 + offset, BytesWithLength(ss[i]))
  }

  // ----- Words and strings

  lemma {:induction false} PaddedTo(n: nat)
    ensures PaddedSize(n) == n + Padding(n)
  {
    if n > 32 { PaddedTo(n - 32); }
  }

  lemma BytesTail(s: bytes)
    requires |s| < U256
    ensures EncodeBytes(s) == BytesWithLength(s) && |EncodeBytes(s)| == BytesSize(s)
  {
    hide Word, PaddedSize;
    WordIsFixed(|s|);
    PaddedTo(|s|);
    assert s + [] == s;
    assert Zeros(0) == [];
  }

  lemma AddressOnTheRight(a: Address)
    ensures AddressWord(a) == Zeros(12) + a
  {
  }

  lemma TruthOnTheRight(b: bool)
    ensures BoolWord(b) == Zeros(31) + [if b then 1 else 0]
  {
    assert Zeros(32) == Zeros(31) + [0];
  }

  lemma ArrayTail(ws: seq<bytes>)
    requires |ws| < U256 && forall k :: 0 <= k < |ws| ==> |ws[k]| == 32
    ensures |EncodeWords(ws)| == 32 + 32 * |ws| && EncodeWords(ws)[..32] == Fixed(|ws|, 32)
    ensures forall i :: 0 <= i < |ws| ==> EncodeWords(ws)[32 + 32 * i..64 + 32 * i] == ws[i]
  {
    hide Word, Concat, EncodeWords;
    ArrayTailSize(ws);
    LengthFirst(ws);
    forall i | 0 <= i < |ws| ensures EncodeWords(ws)[32 + 32 * i..64 + 32 * i] == ws[i] { WordAt(ws, i); }
  }

  lemma LengthFirst(ws: seq<bytes>)
    requires |ws| < U256 && |EncodeWords(ws)| >= 32
    ensures EncodeWords(ws)[..32] == Fixed(|ws|, 32)
  {
    hide Word, Concat;
    WordIsFixed(|ws|);
  }

  lemma WordAt(ws: seq<bytes>, i: nat)
    requires i < |ws| < U256 && forall k :: 0 <= k < |ws| ==> |ws[k]| == 32
    ensures 64 + 32 * i <= |EncodeWords(ws)| && EncodeWords(ws)[32 + 32 * i..64 + 32 * i] == ws[i]
  {
    hide Word, Concat;
    WordIsFixed(|ws|);
    ConcatAt(ws, i);
    HoldsBehind(Word(|ws|), Concat(ws), 32, 32 * i, ws[i]);
  }

  // ----- Offsets

  /** A tail starts behind the ones before it. */
  lemma {:induction false} OffsetIsSum(ps: seq<Piece>, sizes: seq<nat>, base: nat, i: nat)
    requires |ps| == |sizes| && i <= |ps| && forall k :: 0 <= k < |ps| ==> |TailOf(ps[k])| == sizes[k]
    ensures OffsetOf(ps, base, i) == base + Before(sizes, i)
    decreases |ps|
  {
    hide TailOf;
    if i > 0 {
      OffsetIsSum(ps[1..], sizes[1..], base + |TailOf(ps[0])|, i - 1);
      BeforeShifts(sizes, i);
    }
  }

  lemma {:induction false} BeforeShifts(sizes: seq<nat>, i: nat)
    requires 0 < i <= |sizes|
    ensures Before(sizes, i) == sizes[0] + Before(sizes[1..], i - 1)
  {
    if i > 1 { BeforeShifts(sizes, i - 1); }
  }

  lemma {:induction false} AllTails(ps: seq<Piece>, sizes: seq<nat>)
    requires |ps| == |sizes| && forall k :: 0 <= k < |ps| ==> |TailOf(ps[k])| == sizes[k]
    ensures |Tails(ps)| == Before(sizes, |sizes|)
  {
    hide TailOf;
    if |ps| > 0 {
      AllTails(ps[1..], sizes[1..]);
      BeforeShifts(sizes, |sizes|);
    }
  }

  /** An encoding of pieces with known tail sizes. */
  lemma PiecesLayout(ps: seq<Piece>, sizes: seq<nat>, i: nat)
    requires |ps| == |sizes| && i < |ps| && OneWordHeads(ps) && |HeadsAndTails(Words(), ps)| < U256
    requires forall k :: 0 <= k < |ps| ==> |TailOf(ps[k])| == sizes[k]
    ensures var e, o := HeadsAndTails(Words(), ps), 32 * |ps| + Before(sizes, i);
      && |e| == 32 * |ps| + Before(sizes, |sizes|) && 32 * i + 32 <= |e|
      && e[32 * i..32 * i + 32] == (if ps[i].Static? then ps[i].word else Fixed(o, 32))
      && Holds(e, o, TailOf(ps[i]))
  {
    hide HeadsAndTails, TailOf, OneWord, Tails, OffsetOf, Before, Word;
    var e, o := HeadsAndTails(Words(), ps), 32 * |ps| + Before(sizes, i);
    EncodingIsLong(ps);
    WordsAreOneWord();
    OffsetIsSum(ps, sizes, 32 * |ps|, i);
    AllTails(ps, sizes);
    PieceIsFound(Words(), U256, ps, e, i, o);
    LayoutSize(Words(), ps, U256);
    OffsetIsInside(ps, 32 * |ps|, i);
    WordIsFixed(o);
  }

  // ----- Tails

  lemma ElementSizes(ss: seq<bytes>)
    requires forall i :: 0 <= i < |ss| ==> |ss[i]| < U256
    ensures forall k :: 0 <= k < |ss| ==> |TailOf(BytesPieces(ss)[k])| == Sizes(ss)[k]
  {
    hide EncodeBytes, BytesWithLength, BytesSize;
    forall k | 0 <= k < |ss| ensures |TailOf(BytesPieces(ss)[k])| == Sizes(ss)[k] { BytesTail(ss[k]); }
  }

  lemma ElementsAreOneWord(ss: seq<bytes>)
    ensures OneWordHeads(BytesPieces(ss))
  {
  }

  lemma ElementIsHeld(ss: seq<bytes>, e: bytes, i: nat)
    requires i < |ss| < U256 && e == HeadsAndTails(Words(), BytesPieces(ss)) && |e| < U256
    requires forall k :: 0 <= k < |ss| ==> |ss[k]| < U256
    ensures HasElement(ss, Word(|ss|) + e, i)
  {
    hide HeadsAndTails, EncodeBytes, BytesWithLength, Word, BytesSize, Before, Holds, Fixed, OneWordHeads;
    var ps, sizes := BytesPieces(ss), Sizes(ss);
    ElementsAreOneWord(ss);
    ElementSizes(ss);
    WordIsFixed(|ss|);
    PiecesLayout(ps, sizes, i);
    BytesTail(ss[i]);
    Shifted(Word(|ss|), e, 32 * i, 32 * i + 32);
    HoldsBehind(Word(|ss|), e, 32, 32 * |ss| + Before(sizes, i), BytesWithLength(ss[i]));
  }

  lemma BytesArrTail(ss: seq<bytes>)
    requires |EncodeBytesArr(ss)| < U256 && forall i :: 0 <= i < |ss| ==> |ss[i]| < U256
    ensures IsTail(BytesArr(ss), EncodeBytesArr(ss))
  {
    hide HeadsAndTails, BytesPieces, Sizes, Word, HasElement, Before;
    var ps, sizes := BytesPieces(ss), Sizes(ss);
    CountFits(ss, ps);
    WordIsFixed(|ss|);
    ElementSizes(ss);
    if |ss| == 0 { NoPieces(ps, sizes); } else { PiecesLayout(ps, sizes, 0); }
    forall i: nat | i < |ss| ensures HasElement(ss, EncodeBytesArr(ss), i) {
      ElementIsHeld(ss, HeadsAndTails(Words(), ps), i);
    }
  }

  lemma CountFits(ss: seq<bytes>, ps: seq<Piece>)
    requires ps == BytesPieces(ss) && |EncodeBytesArr(ss)| < U256
    ensures |ss| < U256 && |HeadsAndTails(Words(), ps)| < U256
  {
    hide HeadsAndTails, EncodeBytes, Word;
    EncodingIsLong(ps);
  }

  lemma NoPieces(ps: seq<Piece>, sizes: seq<nat>)
    requires |ps| == |sizes| == 0
    ensures HeadsAndTails(Words(), ps) == [] && Before(sizes, 0) == 0
  {
  }

  lemma Shifted(a: bytes, b: bytes, from: nat, to: nat)
    requires from <= to <= |b| && |a| == 32
    ensures (a + b)[32 + from..32 + to] == b[from..to]
  {
  }

  /** The contents of a dynamic argument are laid out as specified. */
  lemma TailIsStandard(x: Arg)
    requires IsDynamic(x) && Storable(x) && |TailOf(PieceOf(x))| < U256
    ensures IsTail(x, TailOf(PieceOf(x)))
  {
    hide EncodeBytes, EncodeWords, EncodeBytesArr, BytesWithLength, BytesSize, HasElement;
    match x
    case Bytes(s) => BytesTail(s);
    case Uint256Arr(ns) =>
      ArrayFits(UintWords(ns));
      ArrayTail(UintWords(ns));
    case AddressArr(xs) =>
      ArrayFits(AddressWords(xs));
      ArrayTail(AddressWords(xs));
      forall i | 0 <= i < |xs| ensures AddressWord(xs[i]) == Zeros(12) + xs[i] { AddressOnTheRight(xs[i]); }
    case BooleanArr(bs) =>
      ArrayFits(BoolWords(bs));
      ArrayTail(BoolWords(bs));
      forall i | 0 <= i < |bs| ensures BoolWord(bs[i]) == Zeros(31) + [if bs[i] then 1 else 0] {
        TruthOnTheRight(bs[i]);
      }
    case BytesArr(ss) => BytesArrTail(ss);
  }

  // ----- The whole encoding

  /** The contents of a dynamic argument are at this offset. */
  ghost predicate HasTail(e: bytes, offset: nat, x: Arg) { exists t :: IsTail(x, t) && Holds(e, offset, t) }

  /** Argument i of an encoding: a head in its place, and what the head leads to. */
  ghost predicate IsLaidOut(e: bytes, i: nat, offset: nat, x: Arg) {
    && 32 * i + 32 <= |e|
    && (!IsDynamic(x) ==> e[32 * i..32 * i + 32] == StaticBytes(x))
    && (IsDynamic(x) ==> e[32 * i..32 * i + 32] == Fixed(offset, 32) && HasTail(e, offset, x))
  }

  lemma PieceIsLaidOut(e: bytes, i: nat, offset: nat, x: Arg)
    requires 32 * i + 32 <= |e| && Storable(x) && |TailOf(PieceOf(x))| < U256
    requires e[32 * i..32 * i + 32] == if PieceOf(x).Static? then PieceOf(x).word else Fixed(offset, 32)
    requires Holds(e, offset, TailOf(PieceOf(x)))
    ensures IsLaidOut(e, i, offset, x)
  {
    hide PieceOf, Holds, IsTail, TailOf, StaticBytes, Storable, Fixed;
    StaticIsStandard(x);
    if IsDynamic(x) { TailIsStandard(x); }
  }

  /** Every argument of an encoding is where the specification puts it, and there is nothing else. */
  lemma EncodingIsStandard(xs: seq<Arg>, i: nat)
    requires i < |xs| && |Encode(xs)| < U256 && forall k :: 0 <= k < |xs| ==> Storable(xs[k])
    ensures |Encode(xs)| == 32 * |xs| + Before(TailSizes(xs), |xs|)
    ensures IsLaidOut(Encode(xs), i, 32 * |xs| + Before(TailSizes(xs), i), xs[i])
  {
    hide PieceOf, Words, HeadsAndTails, Holds, Before, TailSize, TailOf, OneWordHeads, Storable, IsLaidOut, Fixed;
    PiecesAreOneWord(xs);
    AllSizes(xs);
    PiecesLayout(PiecesOf(xs), TailSizes(xs), i);
    OneTailFits(xs, i);
    PieceIsLaidOut(Encode(xs), i, 32 * |xs| + Before(TailSizes(xs), i), xs[i]);
  }

  lemma OneTailFits(xs: seq<Arg>, k: nat)
    requires k < |xs| && |Encode(xs)| < U256
    ensures |TailOf(PieceOf(xs[k]))| < U256
  {
    hide PieceOf, Words, HeadsAndTails, TailOf, Tails, OneWordHeads;
    PiecesAreOneWord(xs);
    EncodingIsLong(PiecesOf(xs));
    TailFits(PiecesOf(xs), k);
  }

  lemma AllSizes(xs: seq<Arg>)
    requires |Encode(xs)| < U256 && forall k :: 0 <= k < |xs| ==> Storable(xs[k])
    ensures forall k :: 0 <= k < |xs| ==> |TailOf(PiecesOf(xs)[k])| == TailSizes(xs)[k]
  {
    hide PieceOf, TailSize, TailOf, Encode, Storable;
    forall k | 0 <= k < |xs| ensures |TailOf(PiecesOf(xs)[k])| == TailSizes(xs)[k] {
      OneTailFits(xs, k);
      SizeIsStandard(xs[k]);
    }
  }

  lemma {:induction false} TailFits(ps: seq<Piece>, k: nat)
    requires k < |ps|
    ensures |TailOf(ps[k])| <= |Tails(ps)|
  {
    hide TailOf;
    if k > 0 { TailFits(ps[1..], k - 1); }
  }

  lemma SizeIsStandard(x: Arg)
    requires Storable(x) && |TailOf(PieceOf(x))| < U256
    ensures |TailOf(PieceOf(x))| == TailSize(x)
  {
    hide EncodeBytes, EncodeWords, EncodeBytesArr, TailSize;
    if IsDynamic(x) { TailIsStandard(x); } else { NoTail(x); }
  }

  lemma NoTail(x: Arg)
    requires !IsDynamic(x)
    ensures TailSize(x) == 0 && TailOf(PieceOf(x)) == []
  {
  }

  lemma StaticIsStandard(x: Arg)
    ensures !IsDynamic(x) ==> PieceOf(x) == Static(StaticBytes(x))
  {
    hide EncodeBytes, EncodeWords, EncodeBytesArr, AddressWord, BoolWord;
    match x
    case Addr(a) => AddressOnTheRight(a);
    case Boolean(b) => TruthOnTheRight(b);
    case _ =>
  }
}
