/** The two kinds of validator transaction and the randomness a list of them yields
    (src/core/rdpos.cpp, the static members of rdPoS). */
module Randomness {
  import opened Bytes
  import opened Crypto
  import opened ValidatorTx

  datatype TxFunction = Invalid | RandomHash | RandomSeed

  const RANDOM_HASH: bytes := [0xcf, 0xff, 0xe7, 0x46]
  const RANDOM_SEED: bytes := [0x6f, 0xc5, 0xa2, 0xd6]

  /** `data.substr(0, 4)`. */
  function Functor(tx: TxValidator): (f: bytes) {
    if |tx.data| < 4 then tx.data else tx.data[..4]
  }

  function FunctionOf(tx: TxValidator): (f: TxFunction)
    ensures f != Invalid ==> |tx.data| == 36
  {
    if |tx.data| != 36 then Invalid
    else if Functor(tx) == RANDOM_HASH then RandomHash
    else if Functor(tx) == RANDOM_SEED then RandomSeed
    else Invalid
  }

  /** The 32 bytes after the functor: a commitment or a seed. */
  function Argument(tx: TxValidator): (h: Hash)
    requires |tx.data| == 36
  {
    tx.data[4..]
  }

  /** All revealed seeds, in block order. */
  function Seeds(txs: seq<TxValidator>): (b: bytes) {
    if |txs| == 0 then [] else
      var last := |txs| - 1;
      Seeds(txs[..last]) + if FunctionOf(txs[last]) == RandomSeed then Argument(txs[last]) else []
  }

  function BlockRandomness(c: Crypto, txs: seq<TxValidator>): (h: Hash) {
    if |txs| == 0 then Zeros(32) else c.sha3(Seeds(txs))
  }

  /** How many of them reveal a seed. */
  function CountReveals(txs: seq<TxValidator>): (n: nat) {
    if |txs| == 0 then 0 else (if FunctionOf(txs[0]) == RandomSeed then 1 else 0) + CountReveals(txs[1..])
  }

  lemma {:induction false} SeedsOfBoth(a: seq<TxValidator>, b: seq<TxValidator>)
    ensures Seeds(a + b) == Seeds(a) + Seeds(b)
    decreases |b|
  {
    hide FunctionOf;
    if |b| == 0 {
      assert a + b == a;
    } else {
      assert (a + b)[..|a + b| - 1] == a + b[..|b| - 1];
      SeedsOfBoth(a, b[..|b| - 1]);
    }
  }

  lemma SeedOfOne(tx: TxValidator)
    ensures Seeds([tx]) == if FunctionOf(tx) == RandomSeed then Argument(tx) else []
  {
    hide FunctionOf;
    assert [tx][..0] == [];
  }

  /** Every reveal counts, with its 32 bytes. */
  lemma {:induction false} SeedsSize(txs: seq<TxValidator>)
    ensures |Seeds(txs)| == 32 * CountReveals(txs)
  {
    hide FunctionOf;
    if |txs| > 0 {
      assert txs == [txs[0]] + txs[1..];
      SeedsOfBoth([txs[0]], txs[1..]);
      SeedOfOne(txs[0]);
      SeedsSize(txs[1..]);
    }
  }

  /** The bytes a reveal carries behind its functor. */
  function SeedOf(tx: TxValidator): (b: bytes) { if |tx.data| == 36 then tx.data[4..36] else [] }

  /** Of four transactions, one after the other. */
  function FourSeeds(txs: seq<TxValidator>): (b: bytes)
    requires |txs| == 4
  {
    SeedOf(txs[0]) + (SeedOf(txs[1]) + (SeedOf(txs[2]) + SeedOf(txs[3])))
  }

  lemma SeedsOfFour(txs: seq<TxValidator>)
    requires |txs| == 4
    ensures Seeds(txs) == Seeds([txs[0]]) + (Seeds([txs[1]]) + (Seeds([txs[2]]) + Seeds([txs[3]])))
  {
    hide Seeds;
    assert txs == [txs[0]] + ([txs[1]] + ([txs[2]] + [txs[3]]));
    SeedsOfBoth([txs[0]], [txs[1]] + ([txs[2]] + [txs[3]]));
    SeedsOfBoth([txs[1]], [txs[2]] + [txs[3]]);
    SeedsOfBoth([txs[2]], [txs[3]]);
  }

  lemma SeedOfAny(tx: TxValidator)
    ensures FunctionOf(tx) == RandomSeed ==> Seeds([tx]) == SeedOf(tx) && |SeedOf(tx)| == 32
    ensures FunctionOf(tx) == RandomHash ==> Seeds([tx]) == []
  {
    SeedOfOne(tx);
  }

  lemma FourCommitments(txs: seq<TxValidator>)
    requires |txs| == 4 && forall i :: 0 <= i < 4 ==> FunctionOf(txs[i]) == RandomHash
    ensures Seeds(txs) == []
  {
    hide Seeds, FunctionOf;
    SeedsOfFour(txs);
    forall i | 0 <= i < 4 ensures Seeds([txs[i]]) == [] { SeedOfAny(txs[i]); }
  }

  lemma FourReveals(txs: seq<TxValidator>)
    requires |txs| == 4 && forall i :: 0 <= i < 4 ==> FunctionOf(txs[i]) == RandomSeed
    ensures Seeds(txs) == FourSeeds(txs) && |FourSeeds(txs)| == 128
  {
    hide Seeds, FunctionOf, SeedOf;
    SeedsOfFour(txs);
    forall i | 0 <= i < 4 ensures Seeds([txs[i]]) == SeedOf(txs[i]) && |SeedOf(txs[i])| == 32 { SeedOfAny(txs[i]); }
  }

  /** Four commitments and four reveals: the hash of the four seeds in order. */
  lemma RandomnessOfEight(c: Crypto, txs: seq<TxValidator>)
    requires |txs| == 8 && forall i :: 0 <= i < 8 ==> FunctionOf(txs[i]) == if i < 4 then RandomHash else RandomSeed
    ensures BlockRandomness(c, txs) == c.sha3(FourSeeds(txs[4..])) && |FourSeeds(txs[4..])| == 128
  {
    hide Seeds, FunctionOf, FourSeeds;
    var front, back := txs[..4], txs[4..];
    assert txs == front + back;
    SeedsOfBoth(front, back);
    FourCommitments(front);
    FourReveals(back);
    assert [] + FourSeeds(back) == FourSeeds(back);
  }

  method ParseTxSeedList(c: Crypto, txs: seq<TxValidator>) returns (h: Hash)
    ensures h == BlockRandomness(c, txs)
  {
    var seed: bytes := [];
    if |txs| == 0 { return Zeros(32); }
    for i := 0 to |txs|
      invariant seed == Seeds(txs[..i])
    {
      assert txs[..i + 1][..i] == txs[..i];
      if FunctionOf(txs[i]) == RandomSeed {
        seed := seed + txs[i].data[4..36];
      }
    }
    assert txs[..|txs|] == txs;
    return c.sha3(seed);
  }
}
