/** Blocks: the length-prefixed wire form, its sequential and parallel parser, and the draft that is
    filled and finalized (src/utils/block.cpp, src/utils/block.h). */
module Blocks {
  import opened Bytes
  import opened Crypto
  import opened MerkleTree
  import opened Randomness
  import Tx
  import ValidatorTx

  type TxBlock = Tx.TxBlock
  type TxValidator = ValidatorTx.TxValidator

  datatype Block = Block(
    validatorSig: Signature,
    prevBlockHash: Hash,
    blockRandomness: Hash,
    validatorMerkleRoot: Hash,
    txMerkleRoot: Hash,
    timestamp: u64,
    nHeight: u64,
    txValidators: seq<TxValidator>,
    txs: seq<TxBlock>,
    validatorPubKey: UPubKey,
    finalized: bool)

  // ----- Header and hash

  function Header(b: Block): (r: bytes)
    ensures |r| == 144
  {
    b.prevBlockHash + (b.blockRandomness + (b.validatorMerkleRoot + (b.txMerkleRoot
      + (Fixed(b.timestamp, 8) + Fixed(b.nHeight, 8)))))
  }

  function BlockHash(c: Crypto, b: Block): (h: Hash) { c.sha3(Header(b)) }

  lemma SplitAt(x: bytes, y: bytes, x': bytes, y': bytes)
    requires |x| == |x'| && x + y == x' + y'
    ensures x == x' && y == y'
  {
    assert (x + y)[..|x|] == x && (x' + y')[..|x|] == x';
    assert (x + y)[|x|..] == y && (x' + y')[|x|..] == y';
  }

  lemma Fixed8IsInjective(m: u64, n: u64)
    requires Fixed(m, 8) == Fixed(n, 8)
    ensures m == n
  {
    Pow256Values();
    FixedRoundTrip(m, 8);
    FixedRoundTrip(n, 8);
  }

  /** Equal headers agree in all six fields. */
  lemma HeaderIsInjective(a: Block, b: Block)
    requires Header(a) == Header(b)
    ensures a.prevBlockHash == b.prevBlockHash && a.blockRandomness == b.blockRandomness
    ensures a.validatorMerkleRoot == b.validatorMerkleRoot && a.txMerkleRoot == b.txMerkleRoot
    ensures a.timestamp == b.timestamp && a.nHeight == b.nHeight
  {
    var a5, b5 := Fixed(a.timestamp, 8) + Fixed(a.nHeight, 8), Fixed(b.timestamp, 8) + Fixed(b.nHeight, 8);
    var a4, b4 := a.txMerkleRoot + a5, b.txMerkleRoot + b5;
    var a3, b3 := a.validatorMerkleRoot + a4, b.validatorMerkleRoot + b4;
    var a2, b2 := a.blockRandomness + a3, b.blockRandomness + b3;
    SplitAt(a.prevBlockHash, a2, b.prevBlockHash, b2);
    SplitAt(a.blockRandomness, a3, b.blockRandomness, b3);
    SplitAt(a.validatorMerkleRoot, a4, b.validatorMerkleRoot, b4);
    SplitAt(a.txMerkleRoot, a5, b.txMerkleRoot, b5);
    SplitAt(Fixed(a.timestamp, 8), Fixed(a.nHeight, 8), Fixed(b.timestamp, 8), Fixed(b.nHeight, 8));
    Fixed8IsInjective(a.timestamp, b.timestamp);
    Fixed8IsInjective(a.nHeight, b.nHeight);
  }

  // ----- Sections: items of 4 length bytes and the item itself

  function Item(p: bytes): (r: bytes)
    ensures |r| == 4 + |p|
  {
    Fixed(|p|, 4) + p
  }

  function Section(parts: seq<bytes>): (r: bytes) {
    if |parts| == 0 then [] else Item(parts[0]) + Section(parts[1..])
  }

  /** `bytesToUint32(bytes.substr(index, 4))`. */
  function ReadLength(b: bytes, index: nat): (n: Result<nat>) {
    if index + 4 > |b| then Err else Ok(FromBigEndian(b[index..index + 4]))
  }

  lemma LengthIsInside(b: bytes, index: nat)
    requires ReadLength(b, index).Ok?
    ensures index + 4 <= |b|
  {
  }

  /** `bytes.substr(index, n)`: cut off at the end of the input. */
  function Substr(b: str, index: nat, n: nat): (r: str)
    requires index <= |b|
  {
    if index + n <= |b| then b[index..index + n] else b[index..]
  }

  /** How the index moves past one item, and what the item at an index parses to. */
  type Next = nat -> Result<nat>
  type Reader<!T> = nat -> Result<T>
  type Parser<!T> = str -> Result<T>

  function NextIn(b: bytes): (f: Next) {
    (index: nat) => match ReadLength(b, index) case Ok(size) => Ok(index + size + 4) case Err => Err
  }

  function ReaderIn<T>(p: Parser<T>, b: str): (f: Reader<T>) {
    (index: nat) => match ReadLength(b, index) case Ok(size) => p(Substr(b, index + 4, size)) case Err => Err
  }

  /** The counting loop: items from `index` until `end` is reached or passed. */
  function CountItems(b: bytes, index: nat, end: nat): (n: Result<nat>)
    decreases end - index
  {
    if index >= end then Ok(0) else
      var size :- ReadLength(b, index);
      var n :- CountItems(b, index + size + 4, end);
      Ok(n + 1)
  }

  /** Where the item after the next `n` ones starts. */
  function SkipItems(next: Next, index: nat, n: nat): (r: Result<nat>)
    decreases n
  {
    if n == 0 then Ok(index) else
      var after :- next(index);
      SkipItems(next, after, n - 1)
  }

  /** Parsing the next `n` items one after the other. */
  function ParseRun<T>(next: Next, read: Reader<T>, index: nat, n: nat): (r: Result<seq<T>>)
    decreases n
  {
    if n == 0 then Ok([]) else
      var after :- next(index);
      var x :- read(index);
      var rest :- ParseRun(next, read, after, n - 1);
      Ok([x] + rest)
  }

  /** The whole-list parser the round trips are stated with. */
  function ParseAll<T>(p: Parser<T>, parts: seq<str>): (r: Result<seq<T>>) {
    if |parts| == 0 then Ok([]) else
      var x :- p(parts[0]);
      var rest :- ParseAll(p, parts[1..]);
      Ok([x] + rest)
  }

  // ----- Reading what was written

  lemma ReadLengthWritten(pre: bytes, p: bytes, post: bytes)
    requires |p| < U32
    ensures ReadLength(pre + (Item(p) + post), |pre|) == Ok(|p|)
  {
    var b := pre + (Item(p) + post);
    assert b[|pre|..|pre| + 4] == Fixed(|p|, 4);
    Pow256Values();
    FixedRoundTrip(|p|, 4);
  }

  lemma SectionStep(pre: bytes, parts: seq<bytes>, post: bytes)
    requires |parts| > 0 && |parts[0]| < U32
    ensures pre + (Section(parts) + post) == (pre + Item(parts[0])) + (Section(parts[1..]) + post)
    ensures ReadLength(pre + (Section(parts) + post), |pre|) == Ok(|parts[0]|)
  {
    var rest := Section(parts[1..]) + post;
    ReadLengthWritten(pre, parts[0], rest);
    assert pre + (Section(parts) + post) == pre + (Item(parts[0]) + rest);
    assert pre + (Item(parts[0]) + rest) == (pre + Item(parts[0])) + rest;
  }

  lemma {:induction false} CountItemsWritten(pre: bytes, parts: seq<bytes>, post: bytes)
    requires forall i :: 0 <= i < |parts| ==> |parts[i]| < U32
    ensures CountItems(pre + (Section(parts) + post), |pre|, |pre| + |Section(parts)|) == Ok(|parts|)
    decreases |parts|
  {
    if |parts| > 0 {
      SectionStep(pre, parts, post);
      CountItemsWritten(pre + Item(parts[0]), parts[1..], post);
    }
  }

  lemma SubstrWritten(pre: bytes, p: str, post: bytes)
    requires |(pre + Item(p)) + post| < 0x4000_0000_0000_0000
    ensures Substr((pre + Item(p)) + post, |pre| + 4, |p|) == p
  {
    assert ((pre + Item(p)) + post)[|pre| + 4..|pre| + 4 + |p|] == p;
  }

  lemma {:induction false} ParseRunWritten<T>(p: Parser<T>, pre: bytes, parts: seq<str>, post: bytes)
    requires forall i :: 0 <= i < |parts| ==> |parts[i]| < U32
    requires |pre + (Section(parts) + post)| < 0x4000_0000_0000_0000
    ensures var b := pre + (Section(parts) + post);
            ParseRun(NextIn(b), ReaderIn(p, b), |pre|, |parts|) == ParseAll(p, parts)
    decreases |parts|
  {
    if |parts| > 0 {
      SectionStep(pre, parts, post);
      SubstrWritten(pre, parts[0], Section(parts[1..]) + post);
      ParseRunWritten(p, pre + Item(parts[0]), parts[1..], post);
    }
  }

  // ----- Parallel parsing

  /** Collecting two futures in order: the first failure is the result. */
  function Join<T>(a: Result<seq<T>>, b: Result<seq<T>>): (r: Result<seq<T>>) {
    if a.Err? || b.Err? then Err else Ok(a.value + b.value)
  }

  lemma JoinIsAssociative<T>(a: Result<seq<T>>, b: Result<seq<T>>, d: Result<seq<T>>)
    ensures Join(Join(a, b), d) == Join(a, Join(b, d))
  {
    if a.Ok? && b.Ok? && d.Ok? { assert a.value + b.value + d.value == a.value + (b.value + d.value); }
  }

  lemma JoinNothing<T>(b: Result<seq<T>>)
    ensures Join(Ok([]), b) == b && Join(b, Ok([])) == b
  {
    if b.Ok? { assert [] + b.value == b.value && b.value + [] == b.value; }
  }

  /** A run is its first item joined with the rest. */
  lemma ParseRunStep<T>(next: Next, read: Reader<T>, index: nat, n: nat)
    requires n > 0
    ensures next(index).Err? || read(index).Err? ==> ParseRun(next, read, index, n) == Err
    ensures next(index).Ok? && read(index).Ok? ==>
      ParseRun(next, read, index, n) == Join(Ok([read(index).value]), ParseRun(next, read, next(index).value, n - 1))
  {
  }

  /** Two consecutive runs are one run. */
  lemma {:induction false} ParseRunSplits<T>(next: Next, read: Reader<T>, index: nat, m: nat, n: nat)
    requires SkipItems(next, index, m).Ok?
    ensures ParseRun(next, read, index, m + n) ==
      Join(ParseRun(next, read, index, m), ParseRun(next, read, SkipItems(next, index, m).value, n))
    decreases m
  {
    if m > 0 {
      var after := next(index).value;
      ParseRunSplits(next, read, after, m - 1, n);
      ParseRunStep(next, read, index, m);
      ParseRunStep(next, read, index, m + n);
      if read(index).Ok? {
        JoinIsAssociative(Ok([read(index).value]), ParseRun(next, read, after, m - 1),
                          ParseRun(next, read, SkipItems(next, index, m).value, n));
      }
    } else {
      JoinNothing(ParseRun(next, read, index, n));
    }
  }

  /** How the transactions are split over `threads` workers: the remainder goes to the last one. */
  function ChunkSizes(threads: nat, count: nat): (s: seq<nat>)
    requires threads > 0
    ensures |s| == threads
  {
    seq(threads, i => if i == threads - 1 then count / threads + count % threads else count / threads)
  }

  function Sum(s: seq<nat>): nat {
    if |s| == 0 then 0 else Sum(s[..|s| - 1]) + s[|s| - 1]
  }

  lemma {:induction false} SumOfEqual(s: seq<nat>, q: nat)
    requires forall i :: 0 <= i < |s| ==> s[i] == q
    ensures Sum(s) == |s| * q
  {
    if |s| > 0 {
      SumOfEqual(s[..|s| - 1], q);
      assert (|s| - 1) * q + q == |s| * q;
    }
  }

  lemma ChunksCoverAll(threads: nat, count: nat)
    requires threads > 0
    ensures Sum(ChunkSizes(threads, count)) == count
  {
    var s := ChunkSizes(threads, count);
    SumOfEqual(s[..threads - 1], count / threads);
    assert (threads - 1) * (count / threads) + count / threads == threads * (count / threads);
  }

  lemma {:induction false} SkipItemsAddUp(next: Next, index: nat, m: nat, n: nat)
    requires SkipItems(next, index, m + n).Ok?
    ensures SkipItems(next, index, m).Ok?
    ensures SkipItems(next, SkipItems(next, index, m).value, n) == SkipItems(next, index, m + n)
    decreases m
  {
    if m > 0 { SkipItemsAddUp(next, next(index).value, m - 1, n); }
  }

  /** The counting loop has read every length the workers read. */
  lemma {:induction false} CountedItemsCanBeSkipped(b: bytes, index: nat, end: nat)
    requires CountItems(b, index, end).Ok?
    ensures SkipItems(NextIn(b), index, CountItems(b, index, end).value).Ok?
    decreases end - index
  {
    if index < end { CountedItemsCanBeSkipped(b, index + ReadLength(b, index).value + 4, end); }
  }

  method RunWorker<T>(next: Next, read: Reader<T>, startIdx: nat, nTxs: nat) returns (r: Result<seq<T>>)
    ensures r == ParseRun(next, read, startIdx, nTxs)
  {
    var txVec: seq<T> := [];
    var idx: nat := startIdx;
    JoinNothing(ParseRun(next, read, startIdx, nTxs));
    for i := 0 to nTxs
      invariant ParseRun(next, read, startIdx, nTxs) == Join(Ok(txVec), ParseRun(next, read, idx, nTxs - i))
    {
      ParseRunStep(next, read, idx, nTxs - i);
      var after := next(idx);
      if after.Err? { return Err; }
      var tx := read(idx);
      if tx.Err? { return Err; }
      JoinIsAssociative(Ok(txVec), Ok([tx.value]), ParseRun(next, read, after.value, nTxs - i - 1));
      txVec := txVec + [tx.value];
      idx := after.value;
    }
    JoinNothing(Ok(txVec));
    return Ok(txVec);
  }

  method AdvanceOffset(next: Next, start: nat, n: nat) returns (thrOff: nat)
    requires SkipItems(next, start, n).Ok?
    ensures Ok(thrOff) == SkipItems(next, start, n)
  {
    thrOff := start;
    for i := 0 to n
      invariant SkipItems(next, thrOff, n - i) == SkipItems(next, start, n)
    {
      thrOff := next(thrOff).value;
    }
  }

  /** The parallel branch.  Whatever the number of threads, it parses what one pass would. */
  method ParseParallel<T>(next: Next, read: Reader<T>, index: nat, count: nat, threads: nat)
    returns (r: Result<seq<T>>)
    requires threads > 0 && SkipItems(next, index, count).Ok?
    ensures r == ParseRun(next, read, index, count)
  {
    ChunksCoverAll(threads, count);
    var f := LaunchWorkers(next, read, index, ChunkSizes(threads, count));
    r := Collect(f);
  }

  method LaunchWorkers<T>(next: Next, read: Reader<T>, index: nat, sizes: seq<nat>)
    returns (f: seq<Result<seq<T>>>)
    requires SkipItems(next, index, Sum(sizes)).Ok?
    ensures JoinAll(f) == ParseRun(next, read, index, Sum(sizes))
  {
    f := [];
    var thrOff := index;
    for i := 0 to |sizes|
      invariant |f| == i && Sum(sizes[..i]) <= Sum(sizes)
      invariant i < |sizes| ==> SkipItems(next, index, Sum(sizes[..i])) == Ok(thrOff)
      invariant JoinAll(f) == ParseRun(next, read, index, Sum(sizes[..i]))
    {
      SumExtends(sizes, i);
      NextChunk(next, read, index, Sum(sizes[..i]), sizes[i], Sum(sizes));
      var txF := RunWorker(next, read, thrOff, sizes[i]);
      JoinAllExtends(f, txF);
      f := f + [txF];
      if i < |sizes| - 1 {
        thrOff := AdvanceOffset(next, thrOff, sizes[i]);
      }
    }
    assert sizes[..|sizes|] == sizes;
  }

  /** A worker that starts where the previous ones stop continues their run. */
  lemma NextChunk<T>(next: Next, read: Reader<T>, index: nat, done: nat, size: nat, count: nat)
    requires done + size <= count && SkipItems(next, index, count).Ok?
    ensures SkipItems(next, index, done).Ok? && SkipItems(next, index, done + size).Ok?
    ensures var off := SkipItems(next, index, done).value;
            && SkipItems(next, off, size) == SkipItems(next, index, done + size)
            && ParseRun(next, read, index, done + size)
               == Join(ParseRun(next, read, index, done), ParseRun(next, read, off, size))
  {
    SkipItemsAddUp(next, index, done + size, count - done - size);
    SkipItemsAddUp(next, index, done, size);
    ParseRunSplits(next, read, index, done, size);
  }

  lemma {:induction false} SumExtends(s: seq<nat>, i: nat)
    requires i < |s|
    ensures Sum(s[..i + 1]) == Sum(s[..i]) + s[i] <= Sum(s)
    decreases |s|
  {
    assert s[..i + 1][..i] == s[..i];
    if i + 1 < |s| {
      SumExtends(s[..|s| - 1], i);
      assert s[..|s| - 1][..i + 1] == s[..i + 1];
      assert s[..|s| - 1][..i] == s[..i];
    } else {
      assert s[..i + 1] == s;
    }
  }

  function JoinAll<T>(f: seq<Result<seq<T>>>): (r: Result<seq<T>>) {
    if |f| == 0 then Ok([]) else Join(JoinAll(f[..|f| - 1]), f[|f| - 1])
  }

  lemma JoinAllExtends<T>(f: seq<Result<seq<T>>>, x: Result<seq<T>>)
    ensures JoinAll(f + [x]) == Join(JoinAll(f), x)
  {
    assert (f + [x])[..|f|] == f;
  }

  /** Waiting for the workers in order and filling the block's transaction vector. */
  method Collect<T>(f: seq<Result<seq<T>>>) returns (r: Result<seq<T>>)
    ensures r == JoinAll(f)
  {
    var txs: seq<T> := [];
    for i := 0 to |f|
      invariant JoinAll(f[..i]) == Ok(txs)
    {
      assert f[..i + 1] == f[..i] + [f[i]];
      JoinAllExtends(f[..i], f[i]);
      if f[i].Err? {
        JoinAllFails(f, i + 1);
        return Err;
      }
      txs := txs + f[i].value;
    }
    assert f[..|f|] == f;
    return Ok(txs);
  }

  lemma {:induction false} JoinAllFails<T>(f: seq<Result<seq<T>>>, i: nat)
    requires i <= |f| && JoinAll(f[..i]).Err?
    ensures JoinAll(f).Err?
    decreases |f|
  {
    if i < |f| {
      assert f[..|f| - 1][..i] == f[..i];
      JoinAllFails(f[..|f| - 1], i);
    } else {
      assert f[..i] == f;
    }
  }

  // ----- Whole blocks

  /** Transactions are written and parsed by their own codecs, which are parameters up to the point
      where the block's serializer and parser are put together. */
  type Writer<!T> = T -> bytes

  function Wire<T>(w: Writer<T>, xs: seq<T>): (r: seq<bytes>)
    ensures |r| == |xs|
    ensures forall i :: 0 <= i < |r| ==> r[i] == w(xs[i])
  {
    if |xs| == 0 then [] else [w(xs[0])] + Wire(w, xs[1..])
  }

  function TxWriter(): (w: Writer<TxBlock>) { (tx: TxBlock) => Tx.Serialize(tx, true) }

  function ValidatorTxWriter(): (w: Writer<TxValidator>) { (tx: TxValidator) => ValidatorTx.Serialize(tx, true) }

  function TxParser(c: Crypto): (p: Parser<TxBlock>) { (x: str) => Tx.Parse(c, x) }

  function ValidatorTxParser(c: Crypto): (p: Parser<TxValidator>) { (x: str) => ValidatorTx.Parse(c, x) }

  /** A validator transaction of another height is refused. */
  function AtHeight(q: Parser<TxValidator>, nHeight: u64): (p: Parser<TxValidator>) {
    (x: str) => match q(x)
                case Ok(tx) => if tx.nHeight == nHeight then Ok(tx) else Err
                case Err => Err
  }

  /** Signature, header and the offset at which the validator transactions start: 217 bytes. */
  function Preamble(b: Block, start: nat): (r: bytes)
    ensures |r| == 217
  {
    b.validatorSig + (Header(b) + Fixed(start, 8))
  }

  function Assemble(b: Block, xs: seq<bytes>, ys: seq<bytes>): (r: bytes) {
    Preamble(b, 217 + |Section(xs)|) + (Section(xs) + Section(ys))
  }

  function SerializeWith(w: Writer<TxBlock>, x: Writer<TxValidator>, b: Block): (r: bytes) {
    Assemble(b, Wire(w, b.txs), Wire(x, b.txValidators))
  }

  function SerializeBlock(b: Block): (r: bytes) {
    SerializeWith(TxWriter(), ValidatorTxWriter(), b)
  }

  function TxHashes(c: Crypto, txs: seq<TxBlock>): (r: seq<Hash>)
    ensures |r| == |txs| && forall i :: 0 <= i < |r| ==> r[i] == c.sha3(Tx.Serialize(txs[i], true))
  {
    seq(|txs|, i requires 0 <= i < |txs| => Tx.Digest(c, txs[i], true))
  }

  function ValidatorTxHashes(c: Crypto, txs: seq<TxValidator>): (r: seq<Hash>)
    ensures |r| == |txs| && forall i :: 0 <= i < |r| ==> r[i] == c.sha3(ValidatorTx.Serialize(txs[i], true))
  {
    seq(|txs|, i requires 0 <= i < |txs| => ValidatorTx.Digest(c, txs[i], true))
  }

  /** The derived fields belong to the contents. */
  predicate RootsMatch(c: Crypto, b: Block) {
    && b.txMerkleRoot == Root(c.sha3, TxHashes(c, b.txs))
    && b.validatorMerkleRoot == Root(c.sha3, ValidatorTxHashes(c, b.txValidators))
    && b.blockRandomness == BlockRandomness(c, b.txValidators)
  }

  /** What finalizing establishes. */
  predicate Finalized(c: Crypto, b: Block) {
    b.finalized && RootsMatch(c, b) && b.validatorPubKey == c.recover(b.validatorSig, BlockHash(c, b))
  }

  predicate SignatureInRange(sig: Signature) {
    VerifySig(SigR(sig), SigS(sig), sig[64])
  }

  /** The fixed part: everything but the transactions. */
  function ReadPreamble(b: str): (r: (Block, nat))
    requires |b| >= 217
  {
    FromBigEndian64(b[193..201]);
    FromBigEndian64(b[201..209]);
    (Block(b[..65], b[65..97], b[97..129], b[129..161], b[161..193], FromBigEndian(b[193..201]),
           FromBigEndian(b[201..209]), [], [], Zeros(65), false),
     FromBigEndian(b[209..217]))
  }

  lemma FromBigEndian64(b: bytes)
    requires |b| == 8
    ensures FromBigEndian(b) < U64
  {
    FromBigEndianBound(b);
    Pow256Values();
  }

  /** Count the items between two offsets, then parse that many. */
  function ReadSection<T>(p: Parser<T>, b: str, index: nat, end: nat): (r: Result<seq<T>>) {
    var n :- CountItems(b, index, end);
    ParseRun(NextIn(b), ReaderIn(p, b), index, n)
  }

  function Seal(c: Crypto, b: Block): (r: Result<Block>) {
    if !RootsMatch(c, b) || !SignatureInRange(b.validatorSig) then Err
    else Ok(b.(validatorPubKey := c.recover(b.validatorSig, BlockHash(c, b)), finalized := true))
  }

  function ParseWith(c: Crypto, p: Parser<TxBlock>, q: Parser<TxValidator>, b: str): (r: Result<Block>) {
    if |b| < 217 then Err else
      var (h, start) := ReadPreamble(b);
      ReadContents(c, p, q, b, h, start)
  }

  function ReadContents(c: Crypto, p: Parser<TxBlock>, q: Parser<TxValidator>, b: str, h: Block, start: nat)
    : (r: Result<Block>)
  {
    var txs :- ReadSection(p, b, 217, start);
    var validatorTxs :- ReadSection(AtHeight(q, h.nHeight), b, start, |b|);
    Seal(c, h.(txs := txs, txValidators := validatorTxs))
  }

  /** `Block(bytes, requiredChainId)`: the same for every number of hardware threads. */
  function Parse(c: Crypto, b: str): (r: Result<Block>) {
    ParseWith(c, TxParser(c), ValidatorTxParser(c), b)
  }

  // ----- Round trip

  lemma PreambleParts(sig: Signature, x1: Hash, x2: Hash, x3: Hash, x4: Hash, t: bytes, h: bytes, s: bytes, post: bytes)
    requires |t| == 8 && |h| == 8 && |s| == 8
    ensures var b := (sig + ((x1 + (x2 + (x3 + (x4 + (t + h))))) + s)) + post;
            && |b| >= 217
            && b[..65] == sig && b[65..97] == x1 && b[97..129] == x2 && b[129..161] == x3
            && b[161..193] == x4 && b[193..201] == t && b[201..209] == h && b[209..217] == s
  {
  }

  lemma ReadPreambleWritten(b: Block, start: u64, post: bytes)
    requires |Preamble(b, start) + post| < 0x4000_0000_0000_0000
    ensures ReadPreamble(Preamble(b, start) + post) == (Blank(b), start)
  {
    PreambleParts(b.validatorSig, b.prevBlockHash, b.blockRandomness, b.validatorMerkleRoot, b.txMerkleRoot,
                  Fixed(b.timestamp, 8), Fixed(b.nHeight, 8), Fixed(start, 8), post);
    Pow256Values();
    FixedRoundTrip(b.timestamp, 8);
    FixedRoundTrip(b.nHeight, 8);
    FixedRoundTrip(start, 8);
  }

  /** Every item survives its own wire form and its length fits the 4-byte field. */
  ghost predicate ItemsRoundTrip<T>(w: Writer<T>, p: Parser<T>, xs: seq<T>) {
    forall i :: 0 <= i < |xs| ==> |w(xs[i])| < U32 && p(w(xs[i])) == Ok(xs[i])
  }

  lemma {:induction false} ParseAllSucceeds<T>(p: Parser<T>, parts: seq<str>, xs: seq<T>)
    requires |parts| == |xs| && forall i :: 0 <= i < |xs| ==> p(parts[i]) == Ok(xs[i])
    ensures ParseAll(p, parts) == Ok(xs)
    decreases |parts|
  {
    if |xs| > 0 {
      ParseAllSucceeds(p, parts[1..], xs[1..]);
      assert xs == [xs[0]] + xs[1..];
    }
  }

  lemma {:induction false} ParseAllFails<T>(p: Parser<T>, parts: seq<str>, i: nat)
    requires i < |parts| && p(parts[i]).Err?
    ensures ParseAll(p, parts) == Err
    decreases |parts|
  {
    if i > 0 { ParseAllFails(p, parts[1..], i - 1); }
  }

  lemma ReadSectionWritten<T>(p: Parser<T>, pre: bytes, parts: seq<str>, post: bytes)
    requires forall i :: 0 <= i < |parts| ==> |parts[i]| < U32
    requires |pre + (Section(parts) + post)| < 0x4000_0000_0000_0000
    ensures ReadSection(p, pre + (Section(parts) + post), |pre|, |pre| + |Section(parts)|) == ParseAll(p, parts)
  {
    CountItemsWritten(pre, parts, post);
    ParseRunWritten(p, pre, parts, post);
  }

  lemma ReadSectionAt<T>(p: Parser<T>, b: str, pre: bytes, xs: seq<str>, post: bytes)
    requires forall i :: 0 <= i < |xs| ==> |xs[i]| < U32
    requires b == pre + (Section(xs) + post)
    ensures ReadSection(p, b, |pre|, |pre| + |Section(xs)|) == ParseAll(p, xs)
  {
    ReadSectionWritten(p, pre, xs, post);
  }

  lemma ReadLastSection<T>(q: Parser<T>, b: str, front: bytes, ys: seq<str>)
    requires forall i :: 0 <= i < |ys| ==> |ys[i]| < U32
    requires b == front + Section(ys)
    ensures ReadSection(q, b, |front|, |b|) == ParseAll(q, ys)
  {
    assert Section(ys) + [] == Section(ys);
    ReadSectionAt(q, b, front, ys, []);
  }

  lemma Regroup(a: bytes, x: bytes, y: bytes, z: bytes)
    ensures a + (x + (y + z)) == (a + x) + (y + z) == a + ((x + y) + z)
    ensures z == [] ==> y + z == y
  {
  }

  predicate AllAtHeight(txs: seq<TxValidator>, nHeight: u64) {
    forall i :: 0 <= i < |txs| ==> txs[i].nHeight == nHeight
  }

  lemma ParseWire<T>(w: Writer<T>, p: Parser<T>, xs: seq<T>)
    requires ItemsRoundTrip(w, p, xs)
    ensures forall i :: 0 <= i < |xs| ==> |Wire(w, xs)[i]| < U32
    ensures ParseAll(p, Wire(w, xs)) == Ok(xs)
  {
    ParseAllSucceeds(p, Wire(w, xs), xs);
  }

  lemma ParseWireAtHeight(w: Writer<TxValidator>, q: Parser<TxValidator>, txs: seq<TxValidator>, nHeight: u64)
    requires ItemsRoundTrip(w, q, txs)
    ensures forall i :: 0 <= i < |txs| ==> |Wire(w, txs)[i]| < U32
    ensures ParseAll(AtHeight(q, nHeight), Wire(w, txs)) == if AllAtHeight(txs, nHeight) then Ok(txs) else Err
  {
    var parts: seq<str> := Wire(w, txs);
    var p := AtHeight(q, nHeight);
    assert forall i :: 0 <= i < |txs| ==> p(parts[i]) == if txs[i].nHeight == nHeight then Ok(txs[i]) else Err;
    if AllAtHeight(txs, nHeight) {
      ParseAllSucceeds(p, parts, txs);
    } else {
      var i :| 0 <= i < |txs| && txs[i].nHeight != nHeight;
      ParseAllFails(p, parts, i);
    }
  }

  /** What the parser makes of a preamble and two sections, given what the items parse to. */
  lemma ParseAssembled(c: Crypto, p: Parser<TxBlock>, q: Parser<TxValidator>, b: Block, xs: seq<str>, ys: seq<str>)
    requires forall i :: 0 <= i < |xs| ==> |xs[i]| < U32
    requires forall i :: 0 <= i < |ys| ==> |ys[i]| < U32
    requires |Assemble(b, xs, ys)| < 0x4000_0000_0000_0000
    requires ParseAll(p, xs) == Ok(b.txs)
    ensures ParseWith(c, p, q, Assemble(b, xs, ys)) == SealWith(c, b, ParseAll(AtHeight(q, b.nHeight), ys))
  {
    var start := 217 + |Section(xs)|;
    var h := Blank(b);
    ReadPreambleWritten(b, start, Section(xs) + Section(ys));
    ParseAfterPreamble(c, p, q, Assemble(b, xs, ys), h, start);
    ReadContentsWritten(c, p, q, h, Preamble(b, start), xs, ys, Assemble(b, xs, ys));
    SealIgnoresBlanks(c, b, ParseAll(AtHeight(q, b.nHeight), ys));
  }

  function Blank(b: Block): (h: Block) {
    b.(txs := [], txValidators := [], validatorPubKey := Zeros(65), finalized := false)
  }

  lemma ParseAfterPreamble(c: Crypto, p: Parser<TxBlock>, q: Parser<TxValidator>, b: str, h: Block, start: nat)
    requires |b| >= 217 && ReadPreamble(b) == (h, start)
    ensures ParseWith(c, p, q, b) == ReadContents(c, p, q, b, h, start)
  {
  }

  lemma SealIgnoresBlanks(c: Crypto, b: Block, v: Result<seq<TxValidator>>)
    ensures SealWith(c, Blank(b).(txs := b.txs), v) == SealWith(c, b, v)
  {
  }

  function SealWith(c: Crypto, b: Block, v: Result<seq<TxValidator>>): (r: Result<Block>) {
    match v
    case Ok(v) => Seal(c, b.(txValidators := v, validatorPubKey := Zeros(65), finalized := false))
    case Err => Err
  }

  lemma ReadContentsWritten(c: Crypto, p: Parser<TxBlock>, q: Parser<TxValidator>, h: Block, pre: bytes,
                            xs: seq<str>, ys: seq<str>, b: str)
    requires forall i :: 0 <= i < |xs| ==> |xs[i]| < U32
    requires forall i :: 0 <= i < |ys| ==> |ys[i]| < U32
    requires |pre| == 217 && b == pre + (Section(xs) + Section(ys))
    requires ParseAll(p, xs).Ok? && h.validatorPubKey == Zeros(65) && !h.finalized
    ensures ReadContents(c, p, q, b, h, 217 + |Section(xs)|)
         == SealWith(c, h.(txs := ParseAll(p, xs).value), ParseAll(AtHeight(q, h.nHeight), ys))
  {
    ReadSectionAt(p, b, pre, xs, Section(ys));
    Regroup(pre, Section(xs), Section(ys), []);
    ReadLastSection(AtHeight(q, h.nHeight), b, pre + Section(xs), ys);
  }

  lemma RoundTripWith(c: Crypto, w: Writer<TxBlock>, x: Writer<TxValidator>, p: Parser<TxBlock>,
                      q: Parser<TxValidator>, b: Block)
    requires Finalized(c, b)
    requires ItemsRoundTrip(w, p, b.txs) && ItemsRoundTrip(x, q, b.txValidators)
    requires |SerializeWith(w, x, b)| < 0x4000_0000_0000_0000
    ensures ParseWith(c, p, q, SerializeWith(w, x, b)) == Ok(b)
       <==> AllAtHeight(b.txValidators, b.nHeight) && SignatureInRange(b.validatorSig)
  {
    ParseWire(w, p, b.txs);
    ParseWireAtHeight(x, q, b.txValidators, b.nHeight);
    ParseAssembled(c, p, q, b, Wire(w, b.txs), Wire(x, b.txValidators));
    SealRestores(c, b);
  }

  /** Parsing a finalized block restores all its fields and both transaction lists in order, exactly
      when its validator transactions carry its height and its signature is in range. */
  lemma RoundTrip(c: Crypto, b: Block)
    requires Finalized(c, b)
    requires ItemsRoundTrip(TxWriter(), TxParser(c), b.txs)
    requires ItemsRoundTrip(ValidatorTxWriter(), ValidatorTxParser(c), b.txValidators)
    requires |SerializeBlock(b)| < 0x4000_0000_0000_0000
    ensures Parse(c, SerializeBlock(b)) == Ok(b)
       <==> AllAtHeight(b.txValidators, b.nHeight) && SignatureInRange(b.validatorSig)
  {
    RoundTripWith(c, TxWriter(), ValidatorTxWriter(), TxParser(c), ValidatorTxParser(c), b);
  }

  lemma SealRestores(c: Crypto, b: Block)
    requires Finalized(c, b)
    ensures Seal(c, b.(validatorPubKey := Zeros(65), finalized := false)) == Ok(b) <==> SignatureInRange(b.validatorSig)
  {
    var d := b.(validatorPubKey := Zeros(65), finalized := false);
    assert Header(d) == Header(b);
  }

  /** The condition on the items is met by signed transactions that survive their own wire form. */
  lemma SurvivingTxsRoundTrip(c: Crypto, txs: seq<TxBlock>)
    requires forall i :: 0 <= i < |txs| ==>
      Tx.WellSigned(c, txs[i]) && Tx.SurvivesWire(txs[i]) && |Tx.Serialize(txs[i], true)| < U32
    ensures ItemsRoundTrip(TxWriter(), TxParser(c), txs)
  {
    forall i | 0 <= i < |txs|
      ensures |TxWriter()(txs[i])| < U32 && TxParser(c)(TxWriter()(txs[i])) == Ok(txs[i])
    {
      Tx.RoundTrip(c, txs[i]);
    }
  }

  lemma SurvivingValidatorTxsRoundTrip(c: Crypto, txs: seq<TxValidator>)
    requires forall i :: 0 <= i < |txs| ==>
      && ValidatorTx.WellSigned(c, txs[i]) && ValidatorTx.SurvivesWire(txs[i])
      && |ValidatorTx.Serialize(txs[i], true)| < U32
    ensures ItemsRoundTrip(ValidatorTxWriter(), ValidatorTxParser(c), txs)
  {
    forall i | 0 <= i < |txs|
      ensures |ValidatorTxWriter()(txs[i])| < U32 && ValidatorTxParser(c)(ValidatorTxWriter()(txs[i])) == Ok(txs[i])
    {
      ValidatorTx.RoundTrip(c, txs[i]);
    }
  }

  // ----- Random access into a serialized block (src/core/storage.cpp)

  /** `getTxFromBlockWithIndex`; the step over an item is added in 32 bits. */
  function SkipItems32(b: bytes, index: nat, n: nat): (r: Result<nat>)
    decreases n
  {
    if n == 0 then Ok(index) else
      var size :- ReadLength(b, index);
      SkipItems32(b, index + Truncate32(size + 4), n - 1)
  }

  function Truncate32(n: nat): (r: u32) { if n < U32 then n else n % U32 }

  function TxAt(p: Parser<TxBlock>, b: str, i: nat): (r: Result<TxBlock>) {
    var index :- SkipItems32(b, 217, i);
    var size :- ReadLength(b, index);
    p(Substr(b, index + 4, size))
  }

  lemma {:induction false} SkipItems32Written(pre: bytes, parts: seq<bytes>, k: nat, post: bytes)
    requires k <= |parts|
    requires forall i :: 0 <= i < k ==> |parts[i]| < U32 - 4
    ensures SkipItems32(pre + (Section(parts) + post), |pre|, k) == Ok(|pre| + |Section(parts[..k])|)
    decreases |parts|
  {
    hide Item, ReadLength;
    if k > 0 {
      SectionStep(pre, parts, post);
      SkipItems32Written(pre + Item(parts[0]), parts[1..], k - 1, post);
      assert parts[..k][1..] == parts[1..][..k - 1];
    }
  }

  lemma {:induction false} SectionSplits(parts: seq<bytes>, k: nat)
    requires k <= |parts|
    ensures Section(parts) == Section(parts[..k]) + Section(parts[k..])
  {
    if k == 0 {
      assert parts[k..] == parts;
    } else {
      SectionSplits(parts[1..], k - 1);
      assert parts[..k][1..] == parts[1..][..k - 1];
      assert parts[1..][k - 1..] == parts[k..];
    }
  }

  /** The i-th item of a section can be cut out after skipping i items. */
  lemma ItemIsReached(pre: bytes, parts: seq<str>, i: nat, post: bytes)
    requires i < |parts| && |parts[i]| < U32 && forall k :: 0 <= k < i ==> |parts[k]| < U32 - 4
    requires |pre + (Section(parts) + post)| < 0x4000_0000_0000_0000
    ensures var b := pre + (Section(parts) + post);
            var index := |pre| + |Section(parts[..i])|;
            && SkipItems32(b, |pre|, i) == Ok(index)
            && ReadLength(b, index) == Ok(|parts[i]|)
            && Substr(b, index + 4, |parts[i]|) == parts[i]
  {
    hide Section, Item, ReadLength, Substr, SkipItems32;
    SkipItems32Written(pre, parts, i, post);
    SectionSplits(parts, i);
    var front, rest := pre + Section(parts[..i]), parts[i..];
    Regroup(pre, Section(parts[..i]), Section(rest), post);
    SectionStep(front, rest, post);
    SubstrWritten(front, rest[0], Section(rest[1..]) + post);
  }

  lemma ItemAtIndex(p: Parser<TxBlock>, b: Block, xs: seq<str>, ys: seq<bytes>, i: nat)
    requires i < |xs| && |xs[i]| < U32 && forall k :: 0 <= k < i ==> |xs[k]| < U32 - 4
    requires |Assemble(b, xs, ys)| < 0x4000_0000_0000_0000
    ensures TxAt(p, Assemble(b, xs, ys), i) == p(xs[i])
  {
    ItemIsReached(Preamble(b, 217 + |Section(xs)|), xs, i, Section(ys));
  }

  /** The i-th transaction read directly out of the bytes is the i-th transaction of the block.  The
      32-bit step only matters for the transactions before it. */
  lemma RandomAccess(c: Crypto, b: Block, i: nat)
    requires i < |b.txs| && ItemsRoundTrip(TxWriter(), TxParser(c), b.txs)
    requires forall k :: 0 <= k < i ==> |TxWriter()(b.txs[k])| < U32 - 4
    requires |SerializeBlock(b)| < 0x4000_0000_0000_0000
    ensures TxAt(TxParser(c), SerializeBlock(b), i) == Ok(b.txs[i])
  {
    RandomAccessWith(TxWriter(), ValidatorTxWriter(), TxParser(c), b, i);
  }

  lemma RandomAccessWith(w: Writer<TxBlock>, x: Writer<TxValidator>, p: Parser<TxBlock>, b: Block, i: nat)
    requires i < |b.txs| && ItemsRoundTrip(w, p, b.txs)
    requires forall k :: 0 <= k < i ==> |w(b.txs[k])| < U32 - 4
    requires |SerializeWith(w, x, b)| < 0x4000_0000_0000_0000
    ensures TxAt(p, SerializeWith(w, x, b), i) == Ok(b.txs[i])
  {
    assert Wire(w, b.txs)[i] == w(b.txs[i]);
    ItemAtIndex(p, b, Wire(w, b.txs), Wire(x, b.txValidators), i);
  }

  // ----- The node's methods

  method CountLoop(b: bytes, start: nat, end: nat) returns (r: Result<nat>)
    ensures r == CountItems(b, start, end)
  {
    var count, index := 0, start;
    while index < end
      invariant CountItems(b, start, end)
        == match CountItems(b, index, end) { case Ok(n) => Ok(count + n) case Err => Err }
      decreases end - index
    {
      var size := ReadLength(b, index);
      if size.Err? { return Err; }
      index := index + size.value + 4;
      count := count + 1;
    }
    return Ok(count);
  }

  /** The parsing constructor on a machine with `threads` hardware threads. */
  method ParseBytes(c: Crypto, b: str, threads: nat) returns (r: Result<Block>)
    ensures r == Parse(c, b)
  {
    if |b| < 217 { return Err; }
    var (h, start) := ReadPreamble(b);
    var txCount :- CountLoop(b, 217, start);
    var validatorCount :- CountLoop(b, start, |b|);
    CountedItemsCanBeSkipped(b, 217, start);
    var next, read := NextIn(b), ReaderIn(TxParser(c), b);
    var txs;
    if threads <= 1 || txCount <= 2000 {
      txs := RunWorker(next, read, 217, txCount);
    } else {
      txs := ParseParallel(next, read, 217, txCount, threads);
    }
    if txs.Err? { return Err; }
    var validatorTxs :- RunWorker(next, ReaderIn(AtHeight(ValidatorTxParser(c), h.nHeight), b), start, validatorCount);
    r := Seal(c, h.(txs := txs.value, txValidators := validatorTxs));
  }

  method AppendItems(ret: bytes, parts: seq<bytes>) returns (r: bytes)
    ensures r == ret + Section(parts)
  {
    r := ret;
    for i := 0 to |parts|
      invariant r + Section(parts[i..]) == ret + Section(parts)
    {
      assert parts[i..][1..] == parts[i + 1..];
      var after := r + Fixed(|parts[i]|, 4);
      after := after + parts[i];
      assert r + (Item(parts[i]) + Section(parts[i + 1..])) == after + Section(parts[i + 1..]);
      r := after;
    }
    assert parts[|parts|..] == [];
  }

  /** `serializeBlock`: the offset is written as zero first and patched once the transactions are in. */
  method WriteBlock(b: Block) returns (ret: bytes)
    ensures ret == SerializeBlock(b)
  {
    ret := b.validatorSig + Header(b);
    var loc := |ret|;
    ret := ret + Fixed(0, 8);
    ret := AppendItems(ret, Wire(TxWriter(), b.txs));
    var start := Fixed(|ret|, 8);
    PatchMiddle(b.validatorSig + Header(b), Fixed(0, 8), start, Section(Wire(TxWriter(), b.txs)));
    ret := ret[..loc] + start + ret[loc + 8..];
    ret := AppendItems(ret, Wire(ValidatorTxWriter(), b.txValidators));
    PreambleNests(b.validatorSig, Header(b), start, Section(Wire(TxWriter(), b.txs)),
                  Section(Wire(ValidatorTxWriter(), b.txValidators)));
  }

  lemma PatchMiddle(a: bytes, x: bytes, y: bytes, d: bytes)
    requires |x| == |y|
    ensures (a + x + d)[..|a|] + y + (a + x + d)[|a| + |x|..] == a + y + d
  {
    assert (a + x + d)[..|a|] == a && (a + x + d)[|a| + |x|..] == d;
  }

  lemma PreambleNests(a: bytes, h: bytes, s: bytes, x: bytes, y: bytes)
    ensures a + h + s + x + y == (a + (h + s)) + (x + y)
  {
  }

  /** A block under construction: open until it is finalized, closed for good afterwards. */
  class Draft {
    var block: Block

    constructor (prev: Hash, timestamp: u64, nHeight: u64)
      ensures block
        == Block(Zeros(65), prev, Zeros(32), Zeros(32), Zeros(32), timestamp, nHeight, [], [], Zeros(65), false)
    {
      block := Block(Zeros(65), prev, Zeros(32), Zeros(32), Zeros(32), timestamp, nHeight, [], [], Zeros(65), false);
    }

    method AppendTx(tx: TxBlock) returns (ok: bool)
      modifies this
      ensures ok == !old(block).finalized
      ensures block == if ok then old(block).(txs := old(block).txs + [tx]) else old(block)
    {
      if block.finalized { return false; }
      block := block.(txs := block.txs + [tx]);
      return true;
    }

    method AppendTxValidator(tx: TxValidator) returns (ok: bool)
      modifies this
      ensures ok == !old(block).finalized
      ensures block == if ok then old(block).(txValidators := old(block).txValidators + [tx]) else old(block)
    {
      if block.finalized { return false; }
      block := block.(txValidators := block.txValidators + [tx]);
      return true;
    }

    /** Closes the block: derived fields, timestamp and signature are set, contents untouched. */
    method Finalize(c: Crypto, key: PrivKey, newTimestamp: u64) returns (ok: bool)
      modifies this
      ensures ok == (!old(block).finalized && old(block).timestamp <= newTimestamp)
      ensures !ok ==> block == old(block)
      ensures ok ==> Finalized(c, block) && block.timestamp == newTimestamp
      ensures ok ==> block.validatorSig == c.sign(BlockHash(c, block), key)
      ensures block.txs == old(block).txs && block.txValidators == old(block).txValidators
      ensures block.nHeight == old(block).nHeight && block.prevBlockHash == old(block).prevBlockHash
    {
      if block.finalized { return false; }
      if block.timestamp > newTimestamp { return false; }
      var txTree := new Merkle(c, TxHashes(c, block.txs));
      var txRoot := txTree.GetRoot(c, LeafLayer(c.sha3, TxHashes(c, block.txs)));
      var validatorTree := new Merkle(c, ValidatorTxHashes(c, block.txValidators));
      var validatorRoot := validatorTree.GetRoot(c, LeafLayer(c.sha3, ValidatorTxHashes(c, block.txValidators)));
      var randomness := ParseTxSeedList(c, block.txValidators);
      block := block.(timestamp := newTimestamp,
                      txMerkleRoot := txRoot,
                      validatorMerkleRoot := validatorRoot,
                      blockRandomness := randomness);
      ghost var unsigned := block;
      block := block.(validatorSig := c.sign(BlockHash(c, block), key));
      block := block.(validatorPubKey := c.recover(block.validatorSig, BlockHash(c, block)), finalized := true);
      assert Header(block) == Header(unsigned);
      return true;
    }
  }
}
