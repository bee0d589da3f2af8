/** What storage stands for: the whole sequence of blocks, searched from the start, and what the
    database holds of it (src/core/storage.cpp). */
module History {
  import opened Bytes
  import opened Crypto
  import opened Blocks
  import opened Overlay
  import Tx

  /** Where a transaction is. */
  datatype Place = Place(blockHash: Hash, index: u32, height: u64)

  datatype Found = Found(tx: TxBlock, place: Place)

  type History = seq<Block>

  // ----- Histories

  /** Blocks at consecutive heights from 0, each naming its parent. */
  ghost predicate Chained(c: Crypto, hist: History) {
    && |hist| < U64
    && (forall i :: 0 <= i < |hist| ==> hist[i].nHeight == i && |hist[i].txs| < U32)
    && (forall i :: 0 < i < |hist| ==> hist[i].prevBlockHash == BlockHash(c, hist[i - 1]))
  }

  ghost predicate Fits(b: Block) { |SerializeBlock(b)| < 0x4000_0000_0000_0000 }

  /** The serialized block is read back. */
  ghost predicate Reloads(c: Crypto, b: Block) { Fits(b) && Parse(c, SerializeBlock(b)) == Ok(b) }

  /** It is read, as another block. */
  ghost predicate Misreads(c: Crypto, b: Block) {
    Fits(b) && Parse(c, SerializeBlock(b)).Ok? && Parse(c, SerializeBlock(b)) != Ok(b)
  }

  /** Besides the block each of its transactions is read back by its index. */
  ghost predicate Storable(c: Crypto, b: Block) {
    && Reloads(c, b)
    && forall i :: 0 <= i < |b.txs| ==> TxAt(TxParser(c), SerializeBlock(b), i) == Ok(b.txs[i])
  }

  ghost predicate AllReload(c: Crypto, blocks: seq<Block>) {
    forall i :: 0 <= i < |blocks| ==> Reloads(c, blocks[i])
  }

  ghost predicate SomeMisread(c: Crypto, blocks: seq<Block>) { exists i :: 0 <= i < |blocks| && Misreads(c, blocks[i]) }

  /** Block i has this hash. */
  predicate HasBlock(c: Crypto, hist: History, i: int, h: Hash) { 0 <= i < |hist| && BlockHash(c, hist[i]) == h }

  /** Transaction j of the block has this hash. */
  predicate IsTxOf(c: Crypto, b: Block, j: int, h: Hash) { 0 <= j < |b.txs| && Tx.HashOf(c, b.txs[j]) == h }

  /** Transaction j of block i has this hash. */
  predicate HasTx(c: Crypto, hist: History, i: int, j: int, h: Hash) { 0 <= i < |hist| && IsTxOf(c, hist[i], j, h) }

  ghost predicate HashesDiffer(c: Crypto, hist: History) {
    forall i, j, h :: HasBlock(c, hist, i, h) && HasBlock(c, hist, j, h) ==> i == j
  }

  /** No transaction hash occurs in two blocks.  One block may repeat a hash: the node accepts that. */
  ghost predicate BlocksShareNoTx(c: Crypto, hist: History) {
    forall i, j, k, l, h :: HasTx(c, hist, i, j, h) && HasTx(c, hist, k, l, h) ==> i == k
  }

  /** No block repeats a transaction hash. */
  ghost predicate NoRepeats(c: Crypto, hist: History) {
    forall i, j, l, h :: HasTx(c, hist, i, j, h) && HasTx(c, hist, i, l, h) ==> j == l
  }

  ghost predicate Good(c: Crypto, hist: History) {
    && Chained(c, hist) && HashesDiffer(c, hist) && BlocksShareNoTx(c, hist)
    && forall i :: 0 <= i < |hist| ==> Fits(hist[i])
  }

  function HeadersOf(hist: History): (S: set<bytes>) { set b | b in hist :: Header(b) }

  /** Blocks at different heights only share a hash in a collision of headers. */
  lemma HeightsSeparateHashes(c: Crypto, hist: History)
    requires Chained(c, hist)
    ensures HashesDiffer(c, hist) || Collides(c.sha3, HeadersOf(hist))
  {
    hide Header;
    if !HashesDiffer(c, hist) {
      var i, j, h :| HasBlock(c, hist, i, h) && HasBlock(c, hist, j, h) && i != j;
      if Header(hist[i]) == Header(hist[j]) { HeaderIsInjective(hist[i], hist[j]); }
      assert hist[i] in hist && hist[j] in hist;
      assert Header(hist[i]) in HeadersOf(hist) && Header(hist[j]) in HeadersOf(hist);
    }
  }

  // ----- Searching

  function SearchBlock(c: Crypto, hist: History, h: Hash): (r: Option<Block>) {
    if |hist| == 0 then None
    else if BlockHash(c, hist[0]) == h then Some(hist[0])
    else SearchBlock(c, hist[1..], h)
  }

  function SearchHeight(hist: History, height: nat): (r: Option<Block>) {
    if height < |hist| then Some(hist[height]) else None
  }

  /** Of the transactions of a block with one hash: the first or the last. */
  datatype Side = First | Last

  ghost predicate Chosen(c: Crypto, b: Block, side: Side, j: int, h: Hash) {
    IsTxOf(c, b, j, h) && forall k :: IsTxOf(c, b, k, h) ==> if side.First? then j <= k else k <= j
  }

  function FoundAt(c: Crypto, b: Block, j: nat): (f: Found)
    requires j < |b.txs| < U32
  {
    Found(b.txs[j], Place(BlockHash(c, b), j, b.nHeight))
  }

  function SearchUp(c: Crypto, b: Block, j: nat, h: Hash): (r: Option<Found>)
    requires j <= |b.txs| < U32
    decreases |b.txs| - j
  {
    if j == |b.txs| then None
    else if Tx.HashOf(c, b.txs[j]) == h then Some(FoundAt(c, b, j))
    else SearchUp(c, b, j + 1, h)
  }

  function SearchDown(c: Crypto, b: Block, j: nat, h: Hash): (r: Option<Found>)
    requires j <= |b.txs| < U32
  {
    if j == 0 then None
    else if Tx.HashOf(c, b.txs[j - 1]) == h then Some(FoundAt(c, b, j - 1))
    else SearchDown(c, b, j - 1, h)
  }

  function SearchIn(c: Crypto, b: Block, side: Side, h: Hash): (r: Option<Found>)
    requires |b.txs| < U32
  {
    if side.First? then SearchUp(c, b, 0, h) else SearchDown(c, b, |b.txs|, h)
  }

  function SearchTx(c: Crypto, hist: History, side: Side, h: Hash): (r: Option<Found>)
    requires forall i :: 0 <= i < |hist| ==> |hist[i].txs| < U32
  {
    if |hist| == 0 then None
    else
      var here := SearchIn(c, hist[0], side, h);
      if here.Some? then here else SearchTx(c, hist[1..], side, h)
  }

  lemma {:induction false} SearchBlockFinds(c: Crypto, hist: History, i: nat)
    requires i < |hist| && forall j :: 0 <= j < i ==> !HasBlock(c, hist, j, BlockHash(c, hist[i]))
    ensures SearchBlock(c, hist, BlockHash(c, hist[i])) == Some(hist[i])
  {
    hide BlockHash;
    if i > 0 {
      var h := BlockHash(c, hist[i]);
      assert !HasBlock(c, hist, 0, h) && hist[1..][i - 1] == hist[i];
      forall j | 0 <= j < i - 1 ensures !HasBlock(c, hist[1..], j, h) { assert !HasBlock(c, hist, j + 1, h); }
      SearchBlockFinds(c, hist[1..], i - 1);
    }
  }

  lemma {:induction false} SearchBlockMisses(c: Crypto, hist: History, h: Hash)
    requires forall i :: !HasBlock(c, hist, i, h)
    ensures SearchBlock(c, hist, h) == None
  {
    hide BlockHash;
    if |hist| > 0 {
      assert !HasBlock(c, hist, 0, h);
      forall i ensures !HasBlock(c, hist[1..], i, h) { assert !HasBlock(c, hist, i + 1, h); }
      SearchBlockMisses(c, hist[1..], h);
    }
  }

  lemma {:induction false} SearchUpFinds(c: Crypto, b: Block, j: nat, k: nat, h: Hash)
    requires j <= k < |b.txs| < U32 && Chosen(c, b, First, k, h)
    ensures SearchUp(c, b, j, h) == Some(FoundAt(c, b, k))
    decreases k - j
  {
    hide BlockHash, Tx.HashOf;
    if j < k {
      assert !IsTxOf(c, b, j, h);
      SearchUpFinds(c, b, j + 1, k, h);
    }
  }

  lemma {:induction false} SearchDownFinds(c: Crypto, b: Block, j: nat, k: nat, h: Hash)
    requires k < j <= |b.txs| < U32 && Chosen(c, b, Last, k, h)
    ensures SearchDown(c, b, j, h) == Some(FoundAt(c, b, k))
  {
    hide BlockHash, Tx.HashOf;
    if k < j - 1 {
      assert !IsTxOf(c, b, j - 1, h);
      SearchDownFinds(c, b, j - 1, k, h);
    }
  }

  lemma SearchInFinds(c: Crypto, b: Block, side: Side, k: nat, h: Hash)
    requires k < |b.txs| < U32 && Chosen(c, b, side, k, h)
    ensures SearchIn(c, b, side, h) == Some(FoundAt(c, b, k))
  {
    hide Chosen, SearchUp, SearchDown, FoundAt;
    match side
    case First => SearchUpFinds(c, b, 0, k, h);
    case Last => SearchDownFinds(c, b, |b.txs|, k, h);
  }

  lemma {:induction false} SearchUpMisses(c: Crypto, b: Block, j: nat, h: Hash)
    requires j <= |b.txs| < U32 && forall k :: !IsTxOf(c, b, k, h)
    ensures SearchUp(c, b, j, h) == None
    decreases |b.txs| - j
  {
    hide BlockHash, Tx.HashOf;
    if j < |b.txs| {
      assert !IsTxOf(c, b, j, h);
      SearchUpMisses(c, b, j + 1, h);
    }
  }

  lemma {:induction false} SearchDownMisses(c: Crypto, b: Block, j: nat, h: Hash)
    requires j <= |b.txs| < U32 && forall k :: !IsTxOf(c, b, k, h)
    ensures SearchDown(c, b, j, h) == None
  {
    hide BlockHash, Tx.HashOf;
    if j > 0 {
      assert !IsTxOf(c, b, j - 1, h);
      SearchDownMisses(c, b, j - 1, h);
    }
  }

  lemma SearchInMisses(c: Crypto, b: Block, side: Side, h: Hash)
    requires |b.txs| < U32 && forall k :: !IsTxOf(c, b, k, h)
    ensures SearchIn(c, b, side, h) == None
  {
    hide SearchUp, SearchDown, IsTxOf;
    SearchUpMisses(c, b, 0, h);
    SearchDownMisses(c, b, |b.txs|, h);
  }

  /** A block that has the hash has a first and a last transaction with it. */
  lemma {:induction false} SomeIsChosen(c: Crypto, b: Block, side: Side, j: nat, h: Hash) returns (k: nat)
    requires IsTxOf(c, b, j, h)
    ensures Chosen(c, b, side, k, h) && (if side.First? then k <= j else j <= k)
    decreases if side.First? then j else |b.txs| - j
  {
    hide IsTxOf;
    InBounds(c, b, j, h);
    if i :| IsTxOf(c, b, i, h) && (if side.First? then i < j else j < i) {
      InBounds(c, b, i, h);
      k := SomeIsChosen(c, b, side, i, h);
    } else {
      k := j;
    }
  }

  lemma InBounds(c: Crypto, b: Block, j: int, h: Hash)
    requires IsTxOf(c, b, j, h)
    ensures 0 <= j < |b.txs|
  {
  }

  ghost predicate CountsFit(hist: History) { forall i :: 0 <= i < |hist| ==> |hist[i].txs| < U32 }

  /** A search finds the chosen transaction of the one block that has the hash. */
  lemma {:induction false} SearchTxFinds(c: Crypto, hist: History, side: Side, i: nat, j: nat, h: Hash)
    requires i < |hist| && j < |hist[i].txs| && CountsFit(hist) && BlocksShareNoTx(c, hist)
    requires Chosen(c, hist[i], side, j, h)
    ensures SearchTx(c, hist, side, h) == Some(FoundAt(c, hist[i], j))
  {
    hide BlockHash, IsTxOf, SearchIn, FoundAt, BlocksShareNoTx;
    if i == 0 {
      SearchInFinds(c, hist[0], side, j, h);
    } else {
      forall k ensures !IsTxOf(c, hist[0], k, h) { OnlyThere(c, hist, i, j, 0, k, h); }
      SearchInMisses(c, hist[0], side, h);
      assert hist[1..][i - 1] == hist[i];
      RestSharesNoTx(c, hist);
      SearchTxFinds(c, hist[1..], side, i - 1, j, h);
    }
  }

  lemma OnlyThere(c: Crypto, hist: History, i: nat, j: nat, k: nat, l: int, h: Hash)
    requires BlocksShareNoTx(c, hist) && i < |hist| && k < |hist| && IsTxOf(c, hist[i], j, h) && i != k
    ensures !IsTxOf(c, hist[k], l, h)
  {
    hide IsTxOf;
    assert HasTx(c, hist, i, j, h);
    if HasTx(c, hist, k, l, h) { assert false; }
  }

  lemma RestSharesNoTx(c: Crypto, hist: History)
    requires |hist| > 0 && BlocksShareNoTx(c, hist)
    ensures BlocksShareNoTx(c, hist[1..])
  {
    hide IsTxOf;
    var rest := hist[1..];
    forall i, j, k, l, h | HasTx(c, rest, i, j, h) && HasTx(c, rest, k, l, h) ensures i == k {
      assert HasTx(c, hist, i + 1, j, h) && HasTx(c, hist, k + 1, l, h);
    }
  }

  lemma {:induction false} SearchTxMisses(c: Crypto, hist: History, side: Side, h: Hash)
    requires CountsFit(hist) && forall i, j :: !HasTx(c, hist, i, j, h)
    ensures SearchTx(c, hist, side, h) == None
  {
    hide IsTxOf, SearchIn;
    if |hist| > 0 {
      forall k ensures !IsTxOf(c, hist[0], k, h) { assert !HasTx(c, hist, 0, k, h); }
      forall i, j ensures !HasTx(c, hist[1..], i, j, h) { assert !HasTx(c, hist, i + 1, j, h); }
      SearchInMisses(c, hist[0], side, h);
      SearchTxMisses(c, hist[1..], side, h);
    }
  }

  /** The answer to a search for a block: one with this hash if there is one, and otherwise none. */
  lemma BlockAnswer(c: Crypto, hist: History, h: Hash)
    ensures var r := SearchBlock(c, hist, h);
      && (r.Some? ==> r.value in hist && c.sha3(Header(r.value)) == h)
      && (r.None? ==> forall b :: b in hist ==> c.sha3(Header(b)) != h)
  {
    hide Header;
    if i :| HasBlock(c, hist, i, h) {
      BlockIsAnswered(c, hist, i, h);
    } else {
      SearchBlockMisses(c, hist, h);
      forall b | b in hist ensures c.sha3(Header(b)) != h {
        var k :| 0 <= k < |hist| && hist[k] == b;
        assert !HasBlock(c, hist, k, h);
      }
    }
  }

  lemma {:induction false} BlockIsAnswered(c: Crypto, hist: History, i: nat, h: Hash)
    requires HasBlock(c, hist, i, h)
    ensures var r := SearchBlock(c, hist, h); r.Some? && r.value in hist && BlockHash(c, r.value) == h
  {
    hide BlockHash;
    if i > 0 { BlockIsAnswered(c, hist[1..], i - 1, h); }
  }

  /** The answer to a search for a transaction is a transaction with this hash, at this index of the block
      at this height and with this hash, and the first or last there; without one there is no answer. */
  ghost predicate IsAnswer(c: Crypto, hist: History, side: Side, h: Hash, f: Found) {
    && f.place.height < |hist|
    && var b := hist[f.place.height];
      && f.place.index < |b.txs| && f.tx == b.txs[f.place.index]
      && c.sha3(Tx.Serialize(f.tx, true)) == h && f.place.blockHash == c.sha3(Header(b))
      && forall j :: 0 <= j < |b.txs| && c.sha3(Tx.Serialize(b.txs[j], true)) == h ==>
        if side.First? then f.place.index <= j else j <= f.place.index
  }

  lemma TxAnswer(c: Crypto, hist: History, side: Side, h: Hash)
    requires Chained(c, hist) && BlocksShareNoTx(c, hist)
    ensures CountsFit(hist)
    ensures var r := SearchTx(c, hist, side, h);
      && (r.Some? ==> IsAnswer(c, hist, side, h, r.value))
      && (r.None? ==> forall i, j :: 0 <= i < |hist| && 0 <= j < |hist[i].txs| ==>
        c.sha3(Tx.Serialize(hist[i].txs[j], true)) != h)
  {
    hide Header, Tx.Serialize, SearchTx, BlocksShareNoTx;
    if i, j :| HasTx(c, hist, i, j, h) {
      var k := SomeIsChosen(c, hist[i], side, j, h);
      InBounds(c, hist[i], k, h);
      SearchTxFinds(c, hist, side, i, k, h);
      ChosenIsAnswer(c, hist, side, i, k, h);
    } else {
      SearchTxMisses(c, hist, side, h);
      forall i, j | 0 <= i < |hist| && 0 <= j < |hist[i].txs| ensures c.sha3(Tx.Serialize(hist[i].txs[j], true)) != h {
        assert !HasTx(c, hist, i, j, h);
      }
    }
  }

  lemma ChosenIsAnswer(c: Crypto, hist: History, side: Side, i: nat, k: nat, h: Hash)
    requires Chained(c, hist) && i < |hist| && k < |hist[i].txs| < U32 && Chosen(c, hist[i], side, k, h)
    ensures IsAnswer(c, hist, side, h, FoundAt(c, hist[i], k))
  {
    hide Header, Tx.Serialize;
    var b := hist[i];
    forall j | 0 <= j < |b.txs| && c.sha3(Tx.Serialize(b.txs[j], true)) == h
      ensures if side.First? then k <= j else j <= k
    {
      assert IsTxOf(c, b, j, h);
    }
  }

  // ----- Answers from the database, which stores blocks as bytes

  /** What a block is read as; Err is an exception. */
  ghost function BlockRead(c: Crypto, b: Block): (r: Result<Block>) {
    if Fits(b) then Parse(c, SerializeBlock(b)) else Err
  }

  /** What its transaction j is read as. */
  ghost function TxRead(c: Crypto, b: Block, j: nat): (r: Result<TxBlock>) {
    if Fits(b) then TxAt(TxParser(c), SerializeBlock(b), j) else Err
  }

  function IfRead<T>(r: Result<T>): (a: Result<Option<T>>) { match r case Ok(x) => Ok(Some(x)) case Err => Err }

  /** What is answered for a block by its hash, and for a transaction. */
  ghost function OldBlock(c: Crypto, hist: History, h: Hash): (r: Result<Option<Block>>) {
    match SearchBlock(c, hist, h)
    case None => Ok(None)
    case Some(b) => IfRead(BlockRead(c, b))
  }

  ghost function OldTx(c: Crypto, hist: History, h: Hash): (r: Result<Option<Found>>)
    requires CountsFit(hist)
  {
    match SearchTx(c, hist, Last, h)
    case None => Ok(None)
    case Some(f) =>
      if f.place.height >= |hist| then Err else
        match TxRead(c, hist[f.place.height], f.place.index) case Ok(x) => Ok(Some(Found(x, f.place))) case Err => Err
  }

  /** A block from the database is the block searched for if and only if that one can be read back. */
  lemma OldBlockIsRight(c: Crypto, hist: History, h: Hash)
    requires forall i :: 0 <= i < |hist| ==> Fits(hist[i])
    ensures var found := SearchBlock(c, hist, h);
      OldBlock(c, hist, h) == Ok(found) <==> (found.Some? ==> Reloads(c, found.value))
  {
    hide Parse, SerializeBlock, BlockHash, Fits;
    SearchedIsThere(c, hist, h);
  }

  lemma {:induction false} SearchedIsThere(c: Crypto, hist: History, h: Hash)
    ensures SearchBlock(c, hist, h).Some? ==> SearchBlock(c, hist, h).value in hist
  {
    if |hist| > 0 { SearchedIsThere(c, hist[1..], h); }
  }

  /** A transaction from the database is the one searched for if and only if that one is read back. */
  lemma OldTxIsRight(c: Crypto, hist: History, i: nat, j: nat, h: Hash)
    requires CountsFit(hist) && Chained(c, hist) && BlocksShareNoTx(c, hist)
    requires i < |hist| && j < |hist[i].txs| && Chosen(c, hist[i], Last, j, h)
    ensures OldTx(c, hist, h) == Ok(SearchTx(c, hist, Last, h)) <==> TxRead(c, hist[i], j) == Ok(hist[i].txs[j])
  {
    hide BlockHash, TxRead, SearchTx, BlocksShareNoTx, Chosen;
    SearchTxFinds(c, hist, Last, i, j, h);
  }

  /** In a history whose blocks can all be stored the database gives the answers of the searches. */
  lemma StorableAnswers(c: Crypto, hist: History, h: Hash)
    requires CountsFit(hist) && Chained(c, hist) && BlocksShareNoTx(c, hist)
    requires forall i :: 0 <= i < |hist| ==> Storable(c, hist[i])
    ensures OldBlock(c, hist, h) == Ok(SearchBlock(c, hist, h)) && OldTx(c, hist, h) == Ok(SearchTx(c, hist, Last, h))
  {
    hide Parse, SerializeBlock, BlockHash, TxAt, SearchBlock, SearchTx, BlocksShareNoTx, Tx.HashOf;
    forall i | 0 <= i < |hist| ensures Fits(hist[i]) { assert Storable(c, hist[i]); }
    OldBlockIsRight(c, hist, h);
    SearchedIsThere(c, hist, h);
    if i, j :| HasTx(c, hist, i, j, h) {
      var k := SomeIsChosen(c, hist[i], Last, j, h);
      InBounds(c, hist[i], k, h);
      SearchTxFinds(c, hist, Last, i, k, h);
      assert Storable(c, hist[i]);
    } else {
      SearchTxMisses(c, hist, Last, h);
    }
  }

  // ----- Repeated transactions

  /** Two answers for one hash: the same block, and in it perhaps another index. */
  ghost predicate SameBlock(c: Crypto, h: Hash, first: Found, last: Found) {
    && first.place.blockHash == last.place.blockHash && first.place.height == last.place.height
    && first.place.index <= last.place.index && Tx.HashOf(c, first.tx) == h && Tx.HashOf(c, last.tx) == h
  }

  /** Where the hash is found, if anywhere: first and last transaction of one block. */
  lemma BothSides(c: Crypto, hist: History, i: nat, j: nat, h: Hash) returns (k: nat, l: nat)
    requires CountsFit(hist) && BlocksShareNoTx(c, hist) && HasTx(c, hist, i, j, h)
    ensures k <= j <= l < |hist[i].txs| && IsTxOf(c, hist[i], k, h) && IsTxOf(c, hist[i], l, h)
    ensures SearchTx(c, hist, First, h) == Some(FoundAt(c, hist[i], k))
    ensures SearchTx(c, hist, Last, h) == Some(FoundAt(c, hist[i], l))
  {
    hide IsTxOf, FoundAt, BlocksShareNoTx, SearchTx;
    k := SomeIsChosen(c, hist[i], First, j, h);
    l := SomeIsChosen(c, hist[i], Last, j, h);
    InBounds(c, hist[i], l, h);
    SearchTxFinds(c, hist, First, i, k, h);
    SearchTxFinds(c, hist, Last, i, l, h);
  }

  /** Searching from either side of the blocks finds the same hashes, in the same block, and the same
      transaction unless two signed forms collide. */
  lemma SearchesAgree(c: Crypto, hist: History, h: Hash)
    requires CountsFit(hist) && BlocksShareNoTx(c, hist)
    ensures var first, last := SearchTx(c, hist, First, h), SearchTx(c, hist, Last, h);
      && (first.Some? <==> last.Some?)
      && (first.Some? ==> SameBlock(c, h, first.value, last.value))
      && (first.Some? && Tx.WellSigned(c, first.value.tx) && Tx.WellSigned(c, last.value.tx) ==>
        first.value.tx == last.value.tx
        || Collides(c.sha3, {Tx.SignedForm(first.value.tx), Tx.SignedForm(last.value.tx)}))
  {
    hide BlocksShareNoTx, SearchTx, Tx.HashOf, Tx.WellSigned, Tx.SignedForm, BlockHash;
    if i, j :| HasTx(c, hist, i, j, h) {
      var k, l := BothSides(c, hist, i, j, h);
      var x, y := hist[i].txs[k], hist[i].txs[l];
      if Tx.WellSigned(c, x) && Tx.WellSigned(c, y) { Tx.SameHash(c, x, y); }
    } else {
      SearchTxMisses(c, hist, First, h);
      SearchTxMisses(c, hist, Last, h);
    }
  }

  /** They give one answer for every hash if and only if no block repeats a transaction. */
  lemma OneAnswerIffNoRepeats(c: Crypto, hist: History)
    requires CountsFit(hist) && BlocksShareNoTx(c, hist)
    ensures (forall h :: SearchTx(c, hist, First, h) == SearchTx(c, hist, Last, h)) <==> NoRepeats(c, hist)
  {
    hide BlocksShareNoTx, SearchTx, IsTxOf, BlockHash;
    if NoRepeats(c, hist) {
      forall h ensures SearchTx(c, hist, First, h) == SearchTx(c, hist, Last, h) {
        if i, j :| HasTx(c, hist, i, j, h) {
          InBounds(c, hist[i], j, h);
          var k, l := BothSides(c, hist, i, j, h);
          assert HasTx(c, hist, i, k, h) && HasTx(c, hist, i, l, h);
        } else {
          SearchTxMisses(c, hist, First, h);
          SearchTxMisses(c, hist, Last, h);
        }
      }
    } else {
      var i, j, l, h :| HasTx(c, hist, i, j, h) && HasTx(c, hist, i, l, h) && j != l;
      InBounds(c, hist[i], j, h);
      InBounds(c, hist[i], l, h);
      Apart(c, hist, i, j, l, h);
    }
  }

  lemma Apart(c: Crypto, hist: History, i: nat, j: nat, l: nat, h: Hash)
    requires CountsFit(hist) && BlocksShareNoTx(c, hist) && HasTx(c, hist, i, j, h) && HasTx(c, hist, i, l, h) && j != l
    ensures SearchTx(c, hist, First, h) != SearchTx(c, hist, Last, h)
  {
    hide BlocksShareNoTx, SearchTx, IsTxOf, BlockHash;
    var a, b := BothSides(c, hist, i, j, h);
    var d, e := BothSides(c, hist, i, l, h);
  }

  /** A block with one transaction twice: found at 0 from one side and at 1 from the other. */
  lemma RepeatedTransaction(c: Crypto, hist: History, i: nat, tx: TxBlock)
    requires CountsFit(hist) && BlocksShareNoTx(c, hist) && i < |hist| && hist[i].txs == [tx, tx]
    ensures SearchTx(c, hist, First, Tx.HashOf(c, tx)) == Some(FoundAt(c, hist[i], 0))
    ensures SearchTx(c, hist, Last, Tx.HashOf(c, tx)) == Some(FoundAt(c, hist[i], 1))
  {
    hide BlocksShareNoTx, SearchTx, Tx.HashOf, BlockHash;
    var h := Tx.HashOf(c, tx);
    assert HasTx(c, hist, i, 0, h) && HasTx(c, hist, i, 1, h);
    var a, b := BothSides(c, hist, i, 0, h);
    var d, e := BothSides(c, hist, i, 1, h);
  }

  // ----- The database

  /** A transaction's entry: block hash, index in 4 bytes, height in 8 bytes. */
  function PlaceBytes(p: Place): (b: bytes)
    ensures |b| == 44
  {
    p.blockHash + (Fixed(p.index, 4) + Fixed(p.height, 8))
  }

  function ReadPlace(b: bytes): (r: Place)
    requires |b| == 44
  {
    FromBigEndianBound(b[32..36]);
    FromBigEndianBound(b[36..44]);
    Pow256Values();
    Place(b[..32], FromBigEndian(b[32..36]), FromBigEndian(b[36..44]))
  }

  lemma PlaceRoundTrip(p: Place)
    ensures ReadPlace(PlaceBytes(p)) == p
  {
    Pow256Values();
    FixedRoundTrip(p.index, 4);
    FixedRoundTrip(p.height, 8);
    var i, h := Fixed(p.index, 4), Fixed(p.height, 8);
    var b := p.blockHash + (i + h);
    assert b[..32] == p.blockHash && b[32..36] == i && b[36..44] == h;
  }

  /** Hash, index and height, most significant byte first. */
  lemma PlaceLayout(p: Place)
    ensures var b := PlaceBytes(p);
      b[..32] == p.blockHash && FromBigEndian(b[32..36]) == p.index && FromBigEndian(b[36..44]) == p.height
  {
    PlaceRoundTrip(p);
  }

  /** Keys of fixed width stand for the integers and hashes they encode. */
  datatype Db = Db(blocks: map<Hash, str>, latest: str, heights: map<u64, Hash>, txs: map<Hash, bytes>)

  /** Every entry belongs to the history. */
  ghost predicate DbSound(c: Crypto, db: Db, hist: History) {
    BlocksSound(c, db.blocks, hist) && HeightsSound(c, db.heights, hist) && TxsSound(c, db.txs, hist)
  }

  ghost predicate BlocksSound(c: Crypto, m: map<Hash, str>, hist: History) {
    forall h :: h in m ==> exists i :: BlockEntryOk(c, hist, i, h, m[h])
  }

  ghost predicate HeightsSound(c: Crypto, m: map<u64, Hash>, hist: History) {
    forall n :: n in m ==> n < |hist| && m[n] == BlockHash(c, hist[n])
  }

  ghost predicate TxsSound(c: Crypto, m: map<Hash, bytes>, hist: History) {
    forall h :: h in m ==> exists i, j :: TxEntryOk(c, hist, i, j, h, m[h])
  }

  ghost predicate BlockEntryOk(c: Crypto, hist: History, i: int, h: Hash, entry: bytes) {
    HasBlock(c, hist, i, h) && entry == SerializeBlock(hist[i])
  }

  /** Of repeated transactions of a block the last one's entry stays. */
  ghost predicate TxEntryOk(c: Crypto, hist: History, i: int, j: int, h: Hash, entry: bytes) {
    && HasTx(c, hist, i, j, h) && Chosen(c, hist[i], Last, j, h)
    && j < U32 && entry == PlaceBytes(Place(BlockHash(c, hist[i]), j, hist[i].nHeight))
  }

  /** The first n blocks are in the database with all their entries. */
  ghost predicate DbHas(c: Crypto, db: Db, hist: History, n: nat)
    requires n <= |hist|
  {
    forall i :: 0 <= i < n ==> BlockIsIn(c, db, hist[i])
  }

  ghost predicate BlockIsIn(c: Crypto, db: Db, b: Block) {
    && BlockHash(c, b) in db.blocks && b.nHeight in db.heights
    && forall j :: 0 <= j < |b.txs| ==> Tx.HashOf(c, b.txs[j]) in db.txs
  }

  /** A complete database. */
  ghost predicate DbHolds(c: Crypto, db: Db, hist: History) {
    |hist| > 0 && DbSound(c, db, hist) && DbHas(c, db, hist, |hist|) && db.latest == SerializeBlock(hist[|hist| - 1])
  }
}
