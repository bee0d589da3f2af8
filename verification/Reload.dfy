/** Which blocks are accepted from the wire, and which of them can be read back from what the node
    itself writes (Block::Block and Block::serializeBlock of src/utils/block.cpp, the constructors and
    rlpSerialize of src/utils/tx.cpp, Storage::Storage and Storage::~Storage of src/core/storage.cpp). */
module Reload {
  import opened Bytes
  import opened Crypto
  import opened MerkleTree
  import opened Blocks
  import opened History
  import Tx
  import ValidatorTx

  // ----- What the parser accepts

  predicate AcceptableTx(c: Crypto, tx: TxBlock) { Tx.WellSigned(c, tx) && tx.nonce < U64 && tx.gasLimit < U64 }

  predicate AcceptableValidatorTx(c: Crypto, tx: TxValidator, nHeight: u64) {
    ValidatorTx.WellSigned(c, tx) && tx.chainId >= 1 && tx.nHeight == nHeight
  }

  /** Finalized, signed throughout, one height, and all numbers within the parser's ranges. */
  ghost predicate Acceptable(c: Crypto, b: Block) {
    && Finalized(c, b) && SignatureInRange(b.validatorSig)
    && (forall i :: 0 <= i < |b.txs| ==> AcceptableTx(c, b.txs[i]))
    && (forall i :: 0 <= i < |b.txValidators| ==> AcceptableValidatorTx(c, b.txValidators[i], b.nHeight))
  }

  /** The serializer's form of a transaction is one that is read as written. */
  predicate ReadsBack(tx: TxBlock) { |tx.data| != 55 && |Tx.Payload(tx, true)| > 55 }

  predicate ValidatorTxReadsBack(tx: TxValidator) { |tx.data| != 55 && |ValidatorTx.Payload(tx, true)| > 55 }

  ghost predicate AllReadBack(b: Block) {
    && (forall i :: 0 <= i < |b.txs| ==> ReadsBack(b.txs[i]))
    && (forall i :: 0 <= i < |b.txValidators| ==> ValidatorTxReadsBack(b.txValidators[i]))
  }

  /** Every written item fits its 4-byte length. */
  ghost predicate LengthsFit<T(!new)>(w: Writer<T>, xs: seq<T>) { forall i :: 0 <= i < |xs| ==> |w(xs[i])| < U32 }

  ghost predicate SizesFit(b: Block) {
    && Fits(b)
    && LengthsFit(TxWriter(), b.txs) && LengthsFit(ValidatorTxWriter(), b.txValidators)
  }

  // ----- Taking a parsed list apart

  /** Some string parses to x. */
  ghost predicate Parsed<T(!new)>(p: Parser<T>, x: T) { exists s: str :: p(s) == Ok(x) }

  lemma {:induction false} RunItemsAreParsed<T(!new)>(p: Parser<T>, b: str, index: nat, n: nat)
    requires ParseRun(NextIn(b), ReaderIn(p, b), index, n).Ok?
    ensures forall j :: 0 <= j < |ParseRun(NextIn(b), ReaderIn(p, b), index, n).value| ==>
      Parsed(p, ParseRun(NextIn(b), ReaderIn(p, b), index, n).value[j])
    decreases n
  {
    hide ReadLength, Substr;
    if n > 0 {
      var after := NextIn(b)(index).value;
      var x := ReaderIn(p, b)(index).value;
      var size := ReadLength(b, index).value;
      LengthIsInside(b, index);
      assert p(Substr(b, index + 4, size)) == Ok(x);
      assert Parsed(p, x);
      RunItemsAreParsed(p, b, after, n - 1);
    }
  }

  lemma SectionItemsAreParsed<T(!new)>(p: Parser<T>, b: str, index: nat, end: nat)
    requires ReadSection(p, b, index, end).Ok?
    ensures forall j :: 0 <= j < |ReadSection(p, b, index, end).value| ==>
      Parsed(p, ReadSection(p, b, index, end).value[j])
  {
    hide ParseRun;
    RunItemsAreParsed(p, b, index, CountItems(b, index, end).value);
  }

  lemma {:induction false} ParseAllInverts<T>(p: Parser<T>, parts: seq<str>)
    requires ParseAll(p, parts).Ok?
    ensures |ParseAll(p, parts).value| == |parts|
    ensures forall i :: 0 <= i < |parts| ==> p(parts[i]) == Ok(ParseAll(p, parts).value[i])
    decreases |parts|
  {
    if |parts| > 0 { ParseAllInverts(p, parts[1..]); }
  }

  // ----- Accepted blocks

  lemma ParsedParts(c: Crypto, p: Parser<TxBlock>, q: Parser<TxValidator>, wire: str)
    requires ParseWith(c, p, q, wire).Ok?
    ensures var b := ParseWith(c, p, q, wire).value;
      && Finalized(c, b) && SignatureInRange(b.validatorSig)
      && (forall i :: 0 <= i < |b.txs| ==> Parsed(p, b.txs[i]))
      && (forall i :: 0 <= i < |b.txValidators| ==> Parsed(AtHeight(q, b.nHeight), b.txValidators[i]))
  {
    hide ReadSection, ReadPreamble, RootsMatch, SignatureInRange, AtHeight, Parsed;
    var (h, start) := ReadPreamble(wire);
    var txs := ReadSection(p, wire, 217, start);
    var validatorTxs := ReadSection(AtHeight(q, h.nHeight), wire, start, |wire|);
    SectionItemsAreParsed(p, wire, 217, start);
    SectionItemsAreParsed(AtHeight(q, h.nHeight), wire, start, |wire|);
    SealedIsFinalized(c, h.(txs := txs.value, txValidators := validatorTxs.value));
  }

  lemma SealedIsFinalized(c: Crypto, b: Block)
    requires Seal(c, b).Ok?
    ensures Finalized(c, Seal(c, b).value) && SignatureInRange(b.validatorSig)
    ensures RootsMatch(c, b)
  {
    assert Header(Seal(c, b).value) == Header(b);
  }

  /** Everything that is parsed is acceptable. */
  lemma ParsedIsAcceptable(c: Crypto, wire: str)
    requires Parse(c, wire).Ok?
    ensures Acceptable(c, Parse(c, wire).value)
  {
    hide ParseWith, Finalized, SignatureInRange, AcceptableTx, AcceptableValidatorTx;
    var b := Parse(c, wire).value;
    ParsedParts(c, TxParser(c), ValidatorTxParser(c), wire);
    forall i | 0 <= i < |b.txs| ensures AcceptableTx(c, b.txs[i]) { ParsedTx(c, b.txs[i]); }
    forall i | 0 <= i < |b.txValidators| ensures AcceptableValidatorTx(c, b.txValidators[i], b.nHeight) {
      ParsedValidatorTx(c, b.txValidators[i], b.nHeight);
    }
  }

  lemma ParsedTx(c: Crypto, tx: TxBlock)
    requires Parsed(TxParser(c), tx)
    ensures AcceptableTx(c, tx)
  {
    hide Tx.Parse, Tx.WellSigned;
    var s: str :| TxParser(c)(s) == Ok(tx);
    Tx.ParsedIsSigned(c, s);
  }

  lemma ParsedValidatorTx(c: Crypto, tx: TxValidator, nHeight: u64)
    requires Parsed(AtHeight(ValidatorTxParser(c), nHeight), tx)
    ensures AcceptableValidatorTx(c, tx, nHeight)
  {
    hide ValidatorTx.Parse, ValidatorTx.WellSigned;
    var s: str :| AtHeight(ValidatorTxParser(c), nHeight)(s) == Ok(tx);
    ValidatorTx.ParsedIsSigned(c, s);
  }

  /** A wire form with every item in a form that is accepted. */
  function ReadableTxWriter(): (w: Writer<TxBlock>) { (tx: TxBlock) => Tx.ReadableForm(tx) }

  function ReadableValidatorTxWriter(): (w: Writer<TxValidator>) { (tx: TxValidator) => ValidatorTx.ReadableForm(tx) }

  function ReadableBlock(b: Block): (r: bytes) { SerializeWith(ReadableTxWriter(), ReadableValidatorTxWriter(), b) }

  ghost predicate ReadableSizesFit(b: Block) {
    && |ReadableBlock(b)| < 0x4000_0000_0000_0000
    && LengthsFit(ReadableTxWriter(), b.txs) && LengthsFit(ReadableValidatorTxWriter(), b.txValidators)
  }

  /** Some bytes parse to exactly this block. */
  ghost predicate Accepted(c: Crypto, b: Block) { exists wire: str :: Parse(c, wire) == Ok(b) }

  /** A block is what some bytes parse to if and only if it is acceptable. */
  lemma AcceptedExactly(c: Crypto, b: Block)
    requires ReadableSizesFit(b)
    ensures Accepted(c, b) <==> Acceptable(c, b)
    ensures Acceptable(c, b) ==> Parse(c, ReadableBlock(b)) == Ok(b)
  {
    hide Parse, ReadableBlock, Acceptable, ReadableSizesFit;
    if Acceptable(c, b) { ReadableBlockIsAccepted(c, b); }
    if wire: str :| Parse(c, wire) == Ok(b) { ParsedIsAcceptable(c, wire); }
    assert Acceptable(c, b) ==> |ReadableBlock(b)| < 0x4000_0000_0000_0000 by { SizeOfReadable(b); }
  }

  lemma SizeOfReadable(b: Block)
    requires ReadableSizesFit(b)
    ensures |ReadableBlock(b)| < 0x4000_0000_0000_0000
  {
  }

  lemma ReadableBlockIsAccepted(c: Crypto, b: Block)
    requires Acceptable(c, b) && ReadableSizesFit(b)
    ensures Parse(c, ReadableBlock(b)) == Ok(b)
  {
    hide ParseWith, SerializeWith, Finalized, SignatureInRange;
    ReadableTxs(c, b.txs);
    ReadableValidatorTxs(c, b.txValidators, b.nHeight);
    assert AllAtHeight(b.txValidators, b.nHeight) by {
      forall i | 0 <= i < |b.txValidators| ensures b.txValidators[i].nHeight == b.nHeight {
        assert AcceptableValidatorTx(c, b.txValidators[i], b.nHeight);
      }
    }
    RoundTripWith(c, ReadableTxWriter(), ReadableValidatorTxWriter(), TxParser(c), ValidatorTxParser(c), b);
  }

  lemma ReadableTxs(c: Crypto, txs: seq<TxBlock>)
    requires LengthsFit(ReadableTxWriter(), txs) && forall i :: 0 <= i < |txs| ==> AcceptableTx(c, txs[i])
    ensures ItemsRoundTrip(ReadableTxWriter(), TxParser(c), txs)
  {
    hide Tx.Parse, Tx.ReadableForm, Tx.WellSigned;
    forall i | 0 <= i < |txs|
      ensures |ReadableTxWriter()(txs[i])| < U32 && TxParser(c)(ReadableTxWriter()(txs[i])) == Ok(txs[i])
    {
      assert |ReadableTxWriter()(txs[i])| < U32 && AcceptableTx(c, txs[i]);
      Tx.ReadableFormIsAccepted(c, txs[i]);
    }
  }

  lemma ReadableValidatorTxs(c: Crypto, txs: seq<TxValidator>, nHeight: u64)
    requires LengthsFit(ReadableValidatorTxWriter(), txs)
    requires forall i :: 0 <= i < |txs| ==> AcceptableValidatorTx(c, txs[i], nHeight)
    ensures ItemsRoundTrip(ReadableValidatorTxWriter(), ValidatorTxParser(c), txs)
  {
    hide ValidatorTx.Parse, ValidatorTx.ReadableForm, ValidatorTx.WellSigned;
    forall i | 0 <= i < |txs|
      ensures |ReadableValidatorTxWriter()(txs[i])| < U32
      ensures ValidatorTxParser(c)(ReadableValidatorTxWriter()(txs[i])) == Ok(txs[i])
    {
      assert |ReadableValidatorTxWriter()(txs[i])| < U32 && AcceptableValidatorTx(c, txs[i], nHeight);
      ValidatorTx.ReadableFormIsAccepted(c, txs[i]);
    }
  }

  // ----- Reading back what the serializer wrote

  /** What parses of a preamble and two sections is what the items parse to, under the same header. */
  lemma AssembledParts(c: Crypto, p: Parser<TxBlock>, q: Parser<TxValidator>, b: Block, xs: seq<str>, ys: seq<str>)
    requires forall i :: 0 <= i < |xs| ==> |xs[i]| < U32
    requires forall i :: 0 <= i < |ys| ==> |ys[i]| < U32
    requires |Assemble(b, xs, ys)| < 0x4000_0000_0000_0000
    requires ParseWith(c, p, q, Assemble(b, xs, ys)).Ok?
    ensures var r := ParseWith(c, p, q, Assemble(b, xs, ys)).value;
      && ParseAll(p, xs) == Ok(r.txs) && ParseAll(AtHeight(q, b.nHeight), ys) == Ok(r.txValidators)
      && r.txMerkleRoot == b.txMerkleRoot && r.validatorMerkleRoot == b.validatorMerkleRoot && RootsMatch(c, r)
  {
    hide ParseAll, AtHeight, ReadSection, Section, RootsMatch, Preamble, Header, ReadPreamble;
    var start := 217 + |Section(xs)|;
    var h, pre, wire := Blank(b), Preamble(b, start), Assemble(b, xs, ys);
    ReadPreambleWritten(b, start, Section(xs) + Section(ys));
    ParseAfterPreamble(c, p, q, wire, h, start);
    ReadSectionAt(p, wire, pre, xs, Section(ys));
    Regroup(pre, Section(xs), Section(ys), []);
    ReadLastSection(AtHeight(q, h.nHeight), wire, pre + Section(xs), ys);
    var sealed := h.(txs := ParseAll(p, xs).value, txValidators := ParseAll(AtHeight(q, h.nHeight), ys).value);
    SealedIsFinalized(c, sealed);
  }

  lemma SurvivingTxs(c: Crypto, txs: seq<TxBlock>)
    requires LengthsFit(TxWriter(), txs)
    requires forall i :: 0 <= i < |txs| ==> AcceptableTx(c, txs[i]) && ReadsBack(txs[i])
    ensures ItemsRoundTrip(TxWriter(), TxParser(c), txs)
  {
    hide Tx.Payload, Tx.Serialize, Tx.WellSigned, ItemsRoundTrip;
    forall i | 0 <= i < |txs| ensures |Tx.Serialize(txs[i], true)| < U32 { assert |TxWriter()(txs[i])| < U32; }
    SurvivingTxsRoundTrip(c, txs);
  }

  lemma SurvivingValidatorTxs(c: Crypto, txs: seq<TxValidator>, nHeight: u64)
    requires LengthsFit(ValidatorTxWriter(), txs)
    requires forall i :: 0 <= i < |txs| ==> AcceptableValidatorTx(c, txs[i], nHeight) && ValidatorTxReadsBack(txs[i])
    ensures ItemsRoundTrip(ValidatorTxWriter(), ValidatorTxParser(c), txs) && AllAtHeight(txs, nHeight)
  {
    hide ValidatorTx.Payload, ValidatorTx.Serialize, ValidatorTx.WellSigned, ItemsRoundTrip;
    forall i | 0 <= i < |txs| ensures |ValidatorTx.Serialize(txs[i], true)| < U32 {
      assert |ValidatorTxWriter()(txs[i])| < U32;
    }
    SurvivingValidatorTxsRoundTrip(c, txs);
  }

  /** The written form of x is read as y. */
  ghost predicate IsReadAs<T>(w: Writer<T>, p: Parser<T>, x: T, y: T) { |w(x)| < U32 && p(w(x)) == Ok(y) }

  /** Item by item, and with the same roots, r is what is read of b. */
  ghost predicate IsReread(c: Crypto, b: Block, r: Block) {
    && |r.txs| == |b.txs| && |r.txValidators| == |b.txValidators|
    && (forall i :: 0 <= i < |b.txs| ==> IsReadAs(TxWriter(), TxParser(c), b.txs[i], r.txs[i]))
    && (forall i :: 0 <= i < |b.txValidators| ==>
      IsReadAs(ValidatorTxWriter(), AtHeight(ValidatorTxParser(c), b.nHeight), b.txValidators[i], r.txValidators[i]))
    && r.txMerkleRoot == b.txMerkleRoot && r.validatorMerkleRoot == b.validatorMerkleRoot && RootsMatch(c, r)
  }

  lemma RereadItems(c: Crypto, b: Block, r: Block)
    requires SizesFit(b) && Parse(c, SerializeBlock(b)) == Ok(r)
    ensures IsReread(c, b, r)
  {
    hide ParseWith, Assemble, RootsMatch, TxParser, ValidatorTxParser, AtHeight, TxWriter, ValidatorTxWriter;
    var xs, ys := Wire(TxWriter(), b.txs), Wire(ValidatorTxWriter(), b.txValidators);
    AssembledParts(c, TxParser(c), ValidatorTxParser(c), b, xs, ys);
    ParseAllInverts(TxParser(c), xs);
    ParseAllInverts(AtHeight(ValidatorTxParser(c), b.nHeight), ys);
  }

  lemma ReadBackTx(c: Crypto, tx: TxBlock)
    requires |Tx.Serialize(tx, true)| < U32 && AcceptableTx(c, tx)
    ensures Tx.Parse(c, Tx.Serialize(tx, true)) == Ok(tx) <==> ReadsBack(tx)
  {
    hide Tx.Payload, Tx.Serialize, Tx.WellSigned, Tx.Parse;
    Tx.RoundTrip(c, tx);
  }

  lemma ReadBackValidatorTx(c: Crypto, tx: TxValidator, nHeight: u64)
    requires |ValidatorTx.Serialize(tx, true)| < U32 && AcceptableValidatorTx(c, tx, nHeight)
    ensures ValidatorTx.Parse(c, ValidatorTx.Serialize(tx, true)) == Ok(tx) <==> ValidatorTxReadsBack(tx)
  {
    hide ValidatorTx.Payload, ValidatorTx.Serialize, ValidatorTx.WellSigned, ValidatorTx.Parse;
    ValidatorTx.RoundTrip(c, tx);
  }

  /** A block is read back from the serializer's form if and only if it is acceptable, none of its data
      is 55 bytes long and every payload is longer than that. */
  lemma ReloadsExactly(c: Crypto, b: Block)
    requires SizesFit(b)
    ensures Reloads(c, b) <==> Acceptable(c, b) && AllReadBack(b)
  {
    hide Parse, SerializeBlock, Acceptable, AllReadBack, SizesFit;
    SizeOf(b);
    if Acceptable(c, b) && AllReadBack(b) { ReadBackReloads(c, b); }
    if Reloads(c, b) {
      ParsedIsAcceptable(c, SerializeBlock(b));
      ReloadedReadsBack(c, b);
    }
  }

  lemma SizeOf(b: Block)
    requires SizesFit(b)
    ensures Fits(b)
  {
  }

  lemma ReadBackReloads(c: Crypto, b: Block)
    requires SizesFit(b) && Acceptable(c, b) && AllReadBack(b)
    ensures Reloads(c, b)
    ensures ItemsRoundTrip(TxWriter(), TxParser(c), b.txs)
  {
    hide Parse, SerializeBlock, Finalized, SignatureInRange, AcceptableTx, AcceptableValidatorTx, ReadsBack,
      ValidatorTxReadsBack, LengthsFit, ItemsRoundTrip, AllAtHeight;
    SurvivingTxs(c, b.txs);
    SurvivingValidatorTxs(c, b.txValidators, b.nHeight);
    RoundTrip(c, b);
  }

  lemma ReloadedReadsBack(c: Crypto, b: Block)
    requires SizesFit(b) && Acceptable(c, b) && Reloads(c, b)
    ensures AllReadBack(b)
  {
    hide Parse, SerializeBlock, Finalized, SignatureInRange, AcceptableTx, AcceptableValidatorTx, ReadsBack,
      ValidatorTxReadsBack, Tx.Parse, Tx.Serialize, ValidatorTx.Parse, ValidatorTx.Serialize;
    RereadItems(c, b, b);
    forall i | 0 <= i < |b.txs| ensures ReadsBack(b.txs[i]) {
      assert IsReadAs(TxWriter(), TxParser(c), b.txs[i], b.txs[i]);
      ReadBackTx(c, b.txs[i]);
    }
    forall i | 0 <= i < |b.txValidators| ensures ValidatorTxReadsBack(b.txValidators[i]) {
      var x := b.txValidators[i];
      assert IsReadAs(ValidatorTxWriter(), AtHeight(ValidatorTxParser(c), b.nHeight), x, x);
      ReadBackValidatorTx(c, x, b.nHeight);
    }
  }

  /** The steps over the transactions before the last do not wrap around. */
  ghost predicate StepsFit(b: Block) { forall k :: 0 <= k < |b.txs| - 1 ==> |TxWriter()(b.txs[k])| < U32 - 4 }

  /** Both ways of reading, the whole block and a transaction by its index, under the same condition. */
  lemma StorableExactly(c: Crypto, b: Block)
    requires SizesFit(b) && StepsFit(b)
    ensures Storable(c, b) <==> Acceptable(c, b) && AllReadBack(b)
  {
    hide Parse, SerializeBlock, Acceptable, AllReadBack, SizesFit, TxAt, StepsFit;
    ReloadsExactly(c, b);
    if Acceptable(c, b) && AllReadBack(b) {
      ReadBackReloads(c, b);
      forall i | 0 <= i < |b.txs| ensures TxAt(TxParser(c), SerializeBlock(b), i) == Ok(b.txs[i]) {
        StepsBefore(b, i);
        RandomAccess(c, b, i);
      }
    }
  }

  lemma StepsBefore(b: Block, i: nat)
    requires StepsFit(b) && i < |b.txs|
    ensures forall k :: 0 <= k < i ==> |TxWriter()(b.txs[k])| < U32 - 4
  {
  }

  /** Transaction j alone is read back by its index if and only if its own written form reads back. */
  lemma TxReadsExactly(c: Crypto, b: Block, j: nat)
    requires SizesFit(b) && StepsFit(b) && j < |b.txs| && AcceptableTx(c, b.txs[j])
    ensures TxRead(c, b, j) == Ok(b.txs[j]) <==> ReadsBack(b.txs[j])
  {
    hide Assemble, TxAt, AcceptableTx, ReadsBack, Tx.Serialize, Tx.Parse, StepsFit;
    StepsBefore(b, j);
    assert |TxWriter()(b.txs[j])| < U32;
    ItemAtIndex(TxParser(c), b, Wire(TxWriter(), b.txs), Wire(ValidatorTxWriter(), b.txValidators), j);
    ReadBackTx(c, b.txs[j]);
  }

  /** A received block can be stored if and only if none of its data is 55 bytes long and every payload
      is longer than that. */
  lemma ReceivedIsStorable(c: Crypto, wire: str, b: Block)
    requires Parse(c, wire) == Ok(b) && SizesFit(b) && StepsFit(b)
    ensures Storable(c, b) <==> AllReadBack(b)
  {
    hide Parse, Storable, Acceptable, AllReadBack, SizesFit, StepsFit;
    ParsedIsAcceptable(c, wire);
    StorableExactly(c, b);
  }

  /** A block that is accepted and cannot be read back from what the node writes. */
  lemma AcceptedAndLost(c: Crypto, b: Block)
    requires Acceptable(c, b) && ReadableSizesFit(b) && SizesFit(b) && !AllReadBack(b)
    ensures Accepted(c, b) && !Reloads(c, b) && !Storable(c, b)
  {
    hide Parse, Acceptable, AllReadBack, SizesFit, SerializeBlock, ReadableSizesFit, TxAt;
    AcceptedExactly(c, b);
    ReloadsExactly(c, b);
  }

  /** The plainest one: a single transaction with 55 bytes of data. */
  lemma LongFormBlockIsLost(c: Crypto, b: Block, tx: TxBlock)
    requires Acceptable(c, b) && ReadableSizesFit(b) && SizesFit(b) && b.txs == [tx] && |tx.data| == 55
    ensures Accepted(c, b) && !Reloads(c, b)
  {
    hide Acceptable, SizesFit, ReadableSizesFit, Storable, Reloads, Accepted;
    assert !ReadsBack(b.txs[0]);
    AcceptedAndLost(c, b);
  }

  // ----- Such a block is refused, not misread

  /** What a tree over the hashes of these transactions hashes, and their signed forms. */
  ghost function TreeStrings(c: Crypto, txs: seq<TxBlock>): (S: set<bytes>) {
    HashedStrings(c.sha3, TxHashes(c, txs)) + set tx | tx in txs :: Tx.Serialize(tx, true)
  }

  ghost function ValidatorTreeStrings(c: Crypto, txs: seq<TxValidator>): (S: set<bytes>) {
    HashedStrings(c.sha3, ValidatorTxHashes(c, txs)) + set tx | tx in txs :: ValidatorTx.Serialize(tx, true)
  }

  ghost function BlockStrings(c: Crypto, b: Block): (S: set<bytes>) {
    TreeStrings(c, b.txs) + ValidatorTreeStrings(c, b.txValidators)
  }

  /** Two hash lists with one root hold the same hashes. */
  lemma SameRootSameHashes(sha3: bytes -> Hash, a: seq<Hash>, b: seq<Hash>, i: nat)
    requires |a| == |b| && i < |a| && Root(sha3, a) == Root(sha3, b)
    ensures a[i] in b || Collides(sha3, HashedStrings(sha3, a) + HashedStrings(sha3, b))
  {
    hide Root, HashedStrings, Collides;
    RootBindsTransactions(sha3, a, b);
    if multiset(a) == multiset(b) { assert a[i] in multiset(b); }
  }

  /** Two signed lists under one root: every transaction of one is in the other. */
  lemma SameRootSameTx(c: Crypto, xs: seq<TxBlock>, ys: seq<TxBlock>, i: nat)
    requires |xs| == |ys| && i < |xs| && Root(c.sha3, TxHashes(c, xs)) == Root(c.sha3, TxHashes(c, ys))
    requires forall j :: 0 <= j < |xs| ==> Tx.WellSigned(c, xs[j]) && Tx.WellSigned(c, ys[j])
    ensures xs[i] in ys || Collides(c.sha3, TreeStrings(c, xs) + TreeStrings(c, ys))
  {
    hide Root, HashedStrings, Collides, Tx.Serialize, Tx.WellSigned;
    var S := TreeStrings(c, xs) + TreeStrings(c, ys);
    var a, b := TxHashes(c, xs), TxHashes(c, ys);
    SameRootSameHashes(c.sha3, a, b, i);
    if a[i] in b {
      var j :| 0 <= j < |b| && b[j] == a[i];
      Tx.SameHash(c, xs[i], ys[j]);
      var few := {Tx.SignedForm(xs[i]), Tx.SignedForm(ys[j])};
      assert xs[i] in xs && ys[j] in ys;
      if xs[i] != ys[j] { CollidesIsMonotone(c.sha3, few, S); }
    } else {
      CollidesIsMonotone(c.sha3, HashedStrings(c.sha3, a) + HashedStrings(c.sha3, b), S);
    }
  }

  lemma SameRootSameValidatorTx(c: Crypto, xs: seq<TxValidator>, ys: seq<TxValidator>, i: nat)
    requires |xs| == |ys| && i < |xs|
    requires Root(c.sha3, ValidatorTxHashes(c, xs)) == Root(c.sha3, ValidatorTxHashes(c, ys))
    requires forall j :: 0 <= j < |xs| ==> ValidatorTx.WellSigned(c, xs[j]) && ValidatorTx.WellSigned(c, ys[j])
    ensures xs[i] in ys || Collides(c.sha3, ValidatorTreeStrings(c, xs) + ValidatorTreeStrings(c, ys))
  {
    hide Root, HashedStrings, Collides, ValidatorTx.Serialize, ValidatorTx.WellSigned;
    var S := ValidatorTreeStrings(c, xs) + ValidatorTreeStrings(c, ys);
    var a, b := ValidatorTxHashes(c, xs), ValidatorTxHashes(c, ys);
    SameRootSameHashes(c.sha3, a, b, i);
    if a[i] in b {
      var j :| 0 <= j < |b| && b[j] == a[i];
      ValidatorTx.SameHash(c, xs[i], ys[j]);
      var few := {ValidatorTx.Serialize(xs[i], true), ValidatorTx.Serialize(ys[j], true)};
      assert xs[i] in xs && ys[j] in ys;
      if xs[i] != ys[j] { CollidesIsMonotone(c.sha3, few, S); }
    } else {
      CollidesIsMonotone(c.sha3, HashedStrings(c.sha3, a) + HashedStrings(c.sha3, b), S);
    }
  }

  /** A reread transaction never has 55 bytes of data, and only one with a long payload is reread. */
  lemma RereadTx(c: Crypto, x: TxBlock, y: TxBlock)
    requires AcceptableTx(c, x) && IsReadAs(TxWriter(), TxParser(c), x, y)
    ensures |y.data| != 55 && AcceptableTx(c, y) && |Tx.Payload(x, true)| > 55
  {
    hide Tx.Payload, Tx.Serialize, Tx.WellSigned, Tx.Parse;
    Tx.ParsedIsSigned(c, Tx.Serialize(x, true));
    if |Tx.Payload(x, true)| <= 55 { Tx.ShortListIsRefused(c, x); }
    if |x.data| == 55 { Tx.DataOf55BytesReadsEmpty(c, x); } else { ReadBackTx(c, x); }
  }

  lemma RereadValidatorTx(c: Crypto, x: TxValidator, y: TxValidator, nHeight: u64)
    requires AcceptableValidatorTx(c, x, nHeight)
    requires IsReadAs(ValidatorTxWriter(), AtHeight(ValidatorTxParser(c), nHeight), x, y)
    ensures |y.data| != 55 && ValidatorTx.WellSigned(c, y) && |ValidatorTx.Payload(x, true)| > 55
  {
    hide ValidatorTx.Payload, ValidatorTx.Serialize, ValidatorTx.WellSigned, ValidatorTx.Parse;
    ValidatorTx.ParsedIsSigned(c, ValidatorTx.Serialize(x, true));
    if |ValidatorTx.Payload(x, true)| <= 55 { ValidatorTx.ShortListIsRefused(c, x); }
    if |x.data| == 55 { ValidatorTx.DataOf55BytesReadsEmpty(c, x); } else { ReadBackValidatorTx(c, x, nHeight); }
  }

  lemma RereadTxsReadBack(c: Crypto, b: Block, r: Block, i: nat)
    requires Acceptable(c, b) && IsReread(c, b, r) && i < |b.txs|
    ensures ReadsBack(b.txs[i]) || Collides(c.sha3, TreeStrings(c, b.txs) + TreeStrings(c, r.txs))
  {
    hide AcceptableValidatorTx, Root, Collides, TreeStrings, Tx.Payload, Tx.WellSigned, SignatureInRange, BlockHash,
      IsReadAs, ValidatorTxHashes;
    forall j | 0 <= j < |b.txs|
      ensures |r.txs[j].data| != 55 && AcceptableTx(c, r.txs[j]) && AcceptableTx(c, b.txs[j])
    {
      RereadTx(c, b.txs[j], r.txs[j]);
    }
    RereadTx(c, b.txs[i], r.txs[i]);
    SameRootSameTx(c, b.txs, r.txs, i);
    if b.txs[i] in r.txs {
      var j :| 0 <= j < |r.txs| && r.txs[j] == b.txs[i];
    }
  }

  lemma RereadValidatorTxsReadBack(c: Crypto, b: Block, r: Block, i: nat)
    requires Acceptable(c, b) && IsReread(c, b, r) && i < |b.txValidators|
    ensures ValidatorTxReadsBack(b.txValidators[i])
      || Collides(c.sha3, ValidatorTreeStrings(c, b.txValidators) + ValidatorTreeStrings(c, r.txValidators))
  {
    hide AcceptableTx, Root, Collides, ValidatorTreeStrings, ValidatorTx.Payload, ValidatorTx.WellSigned,
      SignatureInRange, BlockHash, IsReadAs, TxHashes;
    var xs, ys := b.txValidators, r.txValidators;
    forall j | 0 <= j < |xs|
      ensures |ys[j].data| != 55 && ValidatorTx.WellSigned(c, ys[j]) && ValidatorTx.WellSigned(c, xs[j])
    {
      RereadValidatorTx(c, xs[j], ys[j], b.nHeight);
    }
    RereadValidatorTx(c, xs[i], ys[i], b.nHeight);
    SameRootSameValidatorTx(c, xs, ys, i);
    if xs[i] in ys {
      var j :| 0 <= j < |ys| && ys[j] == xs[i];
    }
  }

  /** An acceptable block that does not read back is refused when it is read from what the node wrote:
      if it is read as r, strings hashed for the two blocks collide. */
  lemma LostBlockIsRefused(c: Crypto, b: Block, r: Block)
    requires SizesFit(b) && Parse(c, SerializeBlock(b)) == Ok(r)
    requires Acceptable(c, b) && !AllReadBack(b)
    ensures Collides(c.sha3, BlockStrings(c, b) + BlockStrings(c, r))
  {
    hide Parse, SerializeBlock, Acceptable, SizesFit, Collides, TreeStrings, ValidatorTreeStrings, ReadsBack,
      ValidatorTxReadsBack, IsReread;
    var S := BlockStrings(c, b) + BlockStrings(c, r);
    RereadItems(c, b, r);
    if i :| 0 <= i < |b.txs| && !ReadsBack(b.txs[i]) {
      RereadTxsReadBack(c, b, r, i);
      CollidesIsMonotone(c.sha3, TreeStrings(c, b.txs) + TreeStrings(c, r.txs), S);
    } else {
      var i :| 0 <= i < |b.txValidators| && !ValidatorTxReadsBack(b.txValidators[i]);
      RereadValidatorTxsReadBack(c, b, r, i);
      CollidesIsMonotone(c.sha3, ValidatorTreeStrings(c, b.txValidators) + ValidatorTreeStrings(c, r.txValidators), S);
    }
  }

  /** So what is read of an acceptable block is that block, unless strings collide. */
  lemma MisreadingCollides(c: Crypto, b: Block, r: Block)
    requires SizesFit(b) && Parse(c, SerializeBlock(b)) == Ok(r)
    requires Acceptable(c, b)
    ensures r == b || Collides(c.sha3, BlockStrings(c, b) + BlockStrings(c, r))
  {
    hide Parse, SerializeBlock, Acceptable, SizesFit, AllReadBack, Collides, BlockStrings;
    SizeOf(b);
    ReloadsExactly(c, b);
    if !AllReadBack(b) { LostBlockIsRefused(c, b, r); }
  }

  /** What block b is read as hashes strings that collide with its own. */
  ghost predicate MisreadCollides(c: Crypto, b: Block) {
    Misreads(c, b) && Collides(c.sha3, BlockStrings(c, b) + BlockStrings(c, Parse(c, SerializeBlock(b)).value))
  }

  /** Acceptable blocks that are saved are all loaded again if and only if none has data of 55 bytes or a
      payload that short, and none is loaded as another one unless strings collide. */
  lemma SavedBlocksReload(c: Crypto, blocks: seq<Block>)
    requires forall i :: 0 <= i < |blocks| ==> Acceptable(c, blocks[i]) && SizesFit(blocks[i])
    ensures AllReload(c, blocks) <==> forall i :: 0 <= i < |blocks| ==> AllReadBack(blocks[i])
    ensures SomeMisread(c, blocks) ==> exists i :: 0 <= i < |blocks| && MisreadCollides(c, blocks[i])
  {
    hide Parse, SerializeBlock, Acceptable, SizesFit, AllReadBack, Reloads, Collides, BlockStrings;
    forall i | 0 <= i < |blocks| ensures Reloads(c, blocks[i]) <==> AllReadBack(blocks[i]) {
      ReloadsExactly(c, blocks[i]);
    }
    if i :| 0 <= i < |blocks| && Misreads(c, blocks[i]) {
      MisreadingCollides(c, blocks[i], Parse(c, SerializeBlock(blocks[i])).value);
      assert MisreadCollides(c, blocks[i]);
    }
  }
}
