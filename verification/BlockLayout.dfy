/** Where everything is in a serialized block, and what an accepted one says (src/utils/block.cpp). */
module BlockLayout {
  import opened Bytes
  import opened Crypto
  import opened Blocks
  import MerkleTree
  import Randomness
  import Tx
  import ValidatorTx

  /** The bytes in front of item k: four for each length, and the items before it. */
  function Before<T>(w: Writer<T>, xs: seq<T>, k: nat): (n: nat)
    requires k <= |xs|
  {
    if k == 0 then 0 else Before(w, xs, k - 1) + 4 + |w(xs[k - 1])|
  }

  /** An item, its length first, in 4 bytes. */
  predicate HasItem(s: bytes, at: nat, item: bytes) {
    at + 4 + |item| <= |s| && FromBigEndian(s[at..at + 4]) == |item| && s[at + 4..at + 4 + |item|] == item
  }

  lemma {:induction false} SectionSize<T>(w: Writer<T>, xs: seq<T>, k: nat)
    requires k <= |xs|
    ensures |Section(Wire(w, xs)[..k])| == Before(w, xs, k)
  {
    hide Item, Section;
    if k > 0 {
      SectionSize(w, xs, k - 1);
      SectionOfNext(Wire(w, xs), k - 1);
    } else {
      assert Wire(w, xs)[..0] == [];
      EmptySection();
    }
  }

  lemma EmptySection()
    ensures Section([]) == []
  {
  }

  lemma SectionOfNext(parts: seq<bytes>, k: nat)
    requires k < |parts|
    ensures Section(parts[..k + 1]) == Section(parts[..k]) + Item(parts[k])
  {
    hide Item, Section;
    var front := parts[..k + 1];
    SectionSplits(front, k);
    assert front[..k] == parts[..k] && front[k..] == [parts[k]];
    SectionOfOne(parts[k]);
  }

  lemma SectionAround(parts: seq<bytes>, k: nat)
    requires k < |parts|
    ensures Section(parts) == Section(parts[..k]) + (Item(parts[k]) + Section(parts[k + 1..]))
  {
    hide Item, Section;
    SectionSplits(parts, k);
    SectionHead(parts[k..]);
    assert parts[k..][1..] == parts[k + 1..];
  }

  lemma SectionHead(parts: seq<bytes>)
    requires |parts| > 0
    ensures Section(parts) == Item(parts[0]) + Section(parts[1..])
  {
    hide Item;
  }

  lemma SectionOfOne(p: bytes)
    ensures Section([p]) == Item(p)
  {
    assert [p][1..] == [];
    assert Item(p) + [] == Item(p);
  }

  lemma ItemIsThere(pre: bytes, p: bytes, post: bytes)
    requires |p| < U32
    ensures HasItem(pre + (Item(p) + post), |pre|, p)
  {
    var s := pre + (Item(p) + post);
    assert s[|pre|..|pre| + 4] == Fixed(|p|, 4) && s[|pre| + 4..|pre| + 4 + |p|] == p;
    Pow256Values();
    FixedRoundTrip(|p|, 4);
  }

  lemma Nested(a: bytes, b: bytes, c: bytes, d: bytes, e: bytes)
    ensures a + ((b + (c + d)) + e) == (a + b) + (c + (d + e))
  {
  }

  lemma ItemOfParts(pre: bytes, front: bytes, p: bytes, rest: bytes, post: bytes, s: bytes)
    requires |p| < U32 && s == front + (Item(p) + rest)
    ensures HasItem(pre + (s + post), |pre| + |front|, p)
  {
    hide Item, HasItem;
    Nested(pre, front, Item(p), rest, post);
    ItemIsThere(pre + front, p, rest + post);
  }

  lemma ItemOfSection<T>(w: Writer<T>, xs: seq<T>, k: nat, pre: bytes, post: bytes)
    requires k < |xs| && |w(xs[k])| < U32
    ensures HasItem(pre + (Section(Wire(w, xs)) + post), |pre| + Before(w, xs, k), w(xs[k]))
  {
    hide Item, Section, HasItem, Before, Wire;
    var parts := Wire(w, xs);
    SectionAround(parts, k);
    SectionSize(w, xs, k);
    ItemOfParts(pre, Section(parts[..k]), parts[k], Section(parts[k + 1..]), post, Section(parts));
  }

  // ----- The block

  /** The fixed part, field by field. */
  lemma FieldsAreThere(b: Block, start: u64, post: bytes)
    ensures var s := Preamble(b, start) + post;
      && s[..65] == b.validatorSig && s[65..97] == b.prevBlockHash && s[97..129] == b.blockRandomness
      && s[129..161] == b.validatorMerkleRoot && s[161..193] == b.txMerkleRoot
      && FromBigEndian(s[193..201]) == b.timestamp && FromBigEndian(s[201..209]) == b.nHeight
      && FromBigEndian(s[209..217]) == start
  {
    PreambleParts(b.validatorSig, b.prevBlockHash, b.blockRandomness, b.validatorMerkleRoot, b.txMerkleRoot,
                  Fixed(b.timestamp, 8), Fixed(b.nHeight, 8), Fixed(start, 8), post);
    Pow256Values();
    FixedRoundTrip(b.timestamp, 8);
    FixedRoundTrip(b.nHeight, 8);
    FixedRoundTrip(start, 8);
  }

  /** The bytes of the transactions, and of the validator transactions. */
  function TxBytes(b: Block): (n: nat) { Before(TxWriter(), b.txs, |b.txs|) }

  function ValidatorTxBytes(b: Block): (n: nat) { Before(ValidatorTxWriter(), b.txValidators, |b.txValidators|) }

  lemma WholeSection<T>(w: Writer<T>, xs: seq<T>)
    ensures |Section(Wire(w, xs))| == Before(w, xs, |xs|)
  {
    hide Section;
    SectionSize(w, xs, |xs|);
    assert Wire(w, xs)[..|xs|] == Wire(w, xs);
  }

  lemma Parts(b: Block)
    ensures SerializeBlock(b) == Preamble(b, 217 + TxBytes(b))
      + (Section(Wire(TxWriter(), b.txs)) + Section(Wire(ValidatorTxWriter(), b.txValidators)))
    ensures |SerializeBlock(b)| == 217 + TxBytes(b) + ValidatorTxBytes(b)
  {
    hide Preamble, Section, Wire, Before;
    WholeSection(TxWriter(), b.txs);
    WholeSection(ValidatorTxWriter(), b.txValidators);
  }

  /** A serialized block: signature, the six header fields, in 8 bytes where the validator transactions
      start, and nothing behind the two lists. */
  lemma HeaderIsThere(b: Block)
    requires 217 + TxBytes(b) < U64
    ensures var s := SerializeBlock(b);
      && |s| == 217 + TxBytes(b) + ValidatorTxBytes(b)
      && s[..65] == b.validatorSig && s[65..97] == b.prevBlockHash && s[97..129] == b.blockRandomness
      && s[129..161] == b.validatorMerkleRoot && s[161..193] == b.txMerkleRoot
      && FromBigEndian(s[193..201]) == b.timestamp && FromBigEndian(s[201..209]) == b.nHeight
      && FromBigEndian(s[209..217]) == 217 + TxBytes(b)
  {
    hide Preamble, Section, SerializeBlock, TxBytes, ValidatorTxBytes;
    Parts(b);
    FieldsAreThere(b, 217 + TxBytes(b),
                   Section(Wire(TxWriter(), b.txs)) + Section(Wire(ValidatorTxWriter(), b.txValidators)));
  }

  /** Its i-th transaction, in signed form behind its length, after the transactions before it. */
  lemma TxIsThere(b: Block, i: nat)
    requires i < |b.txs| && |Tx.Serialize(b.txs[i], true)| < U32
    ensures HasItem(SerializeBlock(b), 217 + Before(TxWriter(), b.txs, i), Tx.Serialize(b.txs[i], true))
  {
    hide Preamble, Section, SerializeBlock, TxBytes, Wire, HasItem, Before;
    Parts(b);
    ItemOfSection(TxWriter(), b.txs, i, Preamble(b, 217 + TxBytes(b)),
                  Section(Wire(ValidatorTxWriter(), b.txValidators)));
  }

  /** And its i-th validator transaction, after all transactions. */
  lemma ValidatorTxIsThere(b: Block, i: nat)
    requires i < |b.txValidators| && |ValidatorTx.Serialize(b.txValidators[i], true)| < U32
    ensures HasItem(SerializeBlock(b), 217 + TxBytes(b) + Before(ValidatorTxWriter(), b.txValidators, i),
                    ValidatorTx.Serialize(b.txValidators[i], true))
  {
    hide Preamble, Section, SerializeBlock, Wire, HasItem, Before;
    var pre, txs := Preamble(b, 217 + TxBytes(b)), Section(Wire(TxWriter(), b.txs));
    Parts(b);
    WholeSection(TxWriter(), b.txs);
    ItemOfSection(ValidatorTxWriter(), b.txValidators, i, pre + txs, []);
    LastSection(pre, txs, Section(Wire(ValidatorTxWriter(), b.txValidators)));
  }

  lemma LastSection(pre: bytes, txs: bytes, last: bytes)
    ensures pre + (txs + last) == (pre + txs) + (last + [])
  {
  }

  // ----- What is accepted

  lemma ReadHeader(s: str)
    requires |s| >= 217
    ensures Header(ReadPreamble(s).0) == s[65..209]
  {
    FixedInverse(s[193..201]);
    FixedInverse(s[201..209]);
    assert s[65..209] == s[65..97] + (s[97..129] + (s[129..161] + (s[161..193] + (s[193..201] + s[201..209]))));
  }

  /** An accepted block has the fields of its bytes.  Both roots and the randomness belong to the
      transactions read, and the signer is who the first 65 bytes recover to from the next 144. */
  lemma AcceptedFields(c: Crypto, s: str)
    requires Parse(c, s).Ok?
    ensures |s| >= 217
    ensures var b := Parse(c, s).value;
      && b.finalized && b.validatorSig == s[..65] && b.prevBlockHash == s[65..97]
      && b.blockRandomness == s[97..129] == Randomness.BlockRandomness(c, b.txValidators)
      && b.validatorMerkleRoot == s[129..161] == MerkleTree.Root(c.sha3, ValidatorTxHashes(c, b.txValidators))
      && b.txMerkleRoot == s[161..193] == MerkleTree.Root(c.sha3, TxHashes(c, b.txs))
      && b.timestamp == FromBigEndian(s[193..201]) && b.nHeight == FromBigEndian(s[201..209])
      && b.validatorPubKey == c.recover(s[..65], c.sha3(s[65..209])) && SignatureInRange(s[..65])
  {
    hide ReadSection, MerkleTree.Root, Randomness.BlockRandomness, SignatureInRange;
    var b := Parse(c, s).value;
    ReadHeader(s);
    assert Header(b) == Header(ReadPreamble(s).0);
  }
}
