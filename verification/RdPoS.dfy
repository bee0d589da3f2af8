/** The consensus round: leader schedule, validator mempool, commit-reveal block check and block
    assembly (src/core/rdpos.cpp, src/core/blockchain.cpp). */
module RdPoS {
  import opened Bytes
  import opened Crypto
  import opened Randomness
  import opened RandomGen
  import opened Blocks
  import MerkleTree
  import ValidatorTx

  /** Commitments (and reveals) a block carries. */
  const MIN_VALIDATORS: nat := 4

  function TxHash(c: Crypto, tx: TxValidator): (h: Hash) { ValidatorTx.Digest(c, tx, true) }

  // ----- Leader schedule

  /** The order of the validators for the round after a block with this randomness. */
  function Schedule(c: Crypto, validators: seq<Address>, randomness: Hash): (list: seq<Address>) {
    Shuffle(c.sha3, randomness, validators, 0)
  }

  /** Who leads: the validator at the digest of the randomness modulo their number. */
  lemma LeaderIsDrawn(c: Crypto, validators: seq<Address>, randomness: Hash)
    requires |validators| > 0
    ensures |Schedule(c, validators, randomness)| == |validators|
    ensures Schedule(c, validators, randomness)[0]
      == validators[FromBigEndian(c.sha3(randomness)) % |validators|]
  {
    hide Shuffle;
    ShufflePlaces(c.sha3, randomness, validators, 0);
  }

  lemma ScheduleIsArrangement(c: Crypto, validators: seq<Address>, randomness: Hash)
    requires Ascending(validators)
    ensures multiset(Schedule(c, validators, randomness)) == multiset(validators)
    ensures Distinct(Schedule(c, validators, randomness))
  {
    hide Shuffle, Distinct;
    AscendingIsDistinct(validators);
    ShufflePermutes(c.sha3, randomness, validators, 0);
    ShuffleKeepsDistinct(c.sha3, randomness, validators, 0);
  }

  /** Nodes that agree on who validates and on the latest block agree on the list. */
  lemma ScheduleAgreement(c: Crypto, va: seq<Address>, vb: seq<Address>, la: Block, lb: Block)
    requires Ascending(va) && Ascending(vb) && (forall x :: x in va <==> x in vb)
    requires BlockHash(c, la) == BlockHash(c, lb)
    ensures Schedule(c, va, la.blockRandomness) == Schedule(c, vb, lb.blockRandomness)
         || Collides(c.sha3, {Header(la), Header(lb)})
  {
    hide Shuffle, Ascending, Schedule;
    AscendingIsCanonical(va, vb);
    SameHashSameRandomness(c, la, lb);
  }

  lemma SameHashSameRandomness(c: Crypto, la: Block, lb: Block)
    requires BlockHash(c, la) == BlockHash(c, lb)
    ensures la.blockRandomness == lb.blockRandomness || Collides(c.sha3, {Header(la), Header(lb)})
  {
    hide Header;
    if Header(la) == Header(lb) {
      HeaderIsInjective(la, lb);
    } else {
      assert Header(la) in {Header(la), Header(lb)} && Header(lb) in {Header(la), Header(lb)};
    }
  }

  // ----- The block check

  /** A commitment and its reveal by one validator. */
  predicate Reveals(c: Crypto, hashTx: TxValidator, seedTx: TxValidator) {
    && FunctionOf(hashTx) == RandomHash
    && FunctionOf(seedTx) == RandomSeed
    && hashTx.from == seedTx.from
    && c.sha3(Argument(seedTx)) == Argument(hashTx)
  }

  predicate SentBy(list: seq<Address>, txs: seq<TxValidator>, i: nat)
    requires |list| > MIN_VALIDATORS && |txs| == 2 * MIN_VALIDATORS && i < MIN_VALIDATORS
  {
    txs[i].from == list[i + 1] && txs[i + MIN_VALIDATORS].from == list[i + 1]
  }

  /** What an accepted block is: signed by the leader, with a matching commitment and reveal of each
      of the next four validators, in list order. */
  predicate Accepts(c: Crypto, list: seq<Address>, b: Block)
    requires |list| > MIN_VALIDATORS
  {
    && b.finalized
    && ToAddress(c, b.validatorPubKey) == list[0]
    && |b.txValidators| == 2 * MIN_VALIDATORS
    && AllAtHeight(b.txValidators, b.nHeight)
    && (forall i :: 0 <= i < MIN_VALIDATORS ==> SentBy(list, b.txValidators, i))
    && (forall i :: 0 <= i < MIN_VALIDATORS ==> Reveals(c, b.txValidators[i], b.txValidators[i + MIN_VALIDATORS]))
  }

  /** The data of a commitment to this seed, and of the reveal. */
  function Commitment(c: Crypto, seed: Hash): (b: bytes) { [0xcf, 0xff, 0xe7, 0x46] + c.sha3(seed) }

  function Reveal(seed: Hash): (b: bytes) { [0x6f, 0xc5, 0xa2, 0xd6] + seed }

  lemma RevealsMeans(c: Crypto, hashTx: TxValidator, seedTx: TxValidator)
    ensures Reveals(c, hashTx, seedTx) <==>
      && hashTx.from == seedTx.from && |seedTx.data| == 36
      && seedTx.data == Reveal(seedTx.data[4..]) && hashTx.data == Commitment(c, seedTx.data[4..])
  {
    var x, y := hashTx.data, seedTx.data;
    if |x| == 36 { assert x == x[..4] + x[4..]; }
    if |y| == 36 {
      assert y == y[..4] + y[4..];
      var z := Commitment(c, y[4..]);
      assert z[..4] == [0xcf, 0xff, 0xe7, 0x46] && z[4..] == c.sha3(y[4..]);
    }
  }

  /** Validator i + 1 of the list has sent transactions i and i + 4, at this height: a seed's hash and the
      seed itself. */
  predicate Contributes(c: Crypto, list: seq<Address>, b: Block, i: nat)
    requires |list| > 4 && |b.txValidators| == 8 && i < 4
  {
    var x, y := b.txValidators[i], b.txValidators[i + 4];
    && x.from == list[i + 1] && y.from == list[i + 1] && x.nHeight == b.nHeight && y.nHeight == b.nHeight
    && |y.data| == 36 && y.data == Reveal(y.data[4..]) && x.data == Commitment(c, y.data[4..])
  }

  /** A block is accepted exactly when it is finalized, signed by the first of the list, and the next four
      have contributed, byte for byte. */
  lemma AcceptsMeans(c: Crypto, list: seq<Address>, b: Block)
    requires |list| > 4
    ensures Accepts(c, list, b) <==>
      && b.finalized && c.sha3(b.validatorPubKey[1..])[12..] == list[0] && |b.txValidators| == 8
      && forall i :: 0 <= i < 4 ==> Contributes(c, list, b, i)
  {
    hide Reveals, SentBy, Contributes;
    var txs := b.txValidators;
    if |txs| == 8 {
      forall i | 0 <= i < 4 ensures Contributes(c, list, b, i) <==> IsRound(c, list, b, i) {
        RoundMeans(c, list, b, i);
      }
      if forall i :: 0 <= i < 4 ==> Contributes(c, list, b, i) {
        forall i | 0 <= i < 8 ensures txs[i].nHeight == b.nHeight {
          assert IsRound(c, list, b, if i < 4 then i else i - 4);
        }
        forall i | 0 <= i < 4 ensures SentBy(list, txs, i) && Reveals(c, txs[i], txs[i + 4]) {
          assert IsRound(c, list, b, i);
        }
      }
    }
  }

  predicate IsRound(c: Crypto, list: seq<Address>, b: Block, i: nat)
    requires |list| > 4 && |b.txValidators| == 8 && i < 4
  {
    && SentBy(list, b.txValidators, i) && Reveals(c, b.txValidators[i], b.txValidators[i + 4])
    && b.txValidators[i].nHeight == b.nHeight && b.txValidators[i + 4].nHeight == b.nHeight
  }

  lemma RoundMeans(c: Crypto, list: seq<Address>, b: Block, i: nat)
    requires |list| > 4 && |b.txValidators| == 8 && i < 4
    ensures Contributes(c, list, b, i) <==> IsRound(c, list, b, i)
  {
    hide Reveals, Reveal, Commitment;
    RevealsMeans(c, b.txValidators[i], b.txValidators[i + 4]);
  }

  /** The map of the first n entries, where a key that is taken is not overwritten. */
  function EmplaceAll<K, V>(ks: seq<K>, vs: seq<V>, n: nat): (m: map<K, V>)
    requires n <= |ks| == |vs|
  {
    if n == 0 then map[] else
      var m := EmplaceAll(ks, vs, n - 1);
      if ks[n - 1] in m then m else m[ks[n - 1] := vs[n - 1]]
  }

  lemma {:induction false} EmplacedEntries<K, V>(ks: seq<K>, vs: seq<V>, n: nat)
    requires n <= |ks| == |vs|
    ensures forall i :: 0 <= i < n ==> ks[i] in EmplaceAll(ks, vs, n)
    ensures forall k :: k in EmplaceAll(ks, vs, n) ==>
      exists i :: 0 <= i < n && ks[i] == k && vs[i] == EmplaceAll(ks, vs, n)[k]
    ensures |EmplaceAll(ks, vs, n)| <= n
  {
    if n > 0 { EmplacedEntries(ks, vs, n - 1); }
  }

  /** The map is full exactly when no key repeats. */
  lemma {:induction false} EmplacedAllIffDistinct<K, V>(ks: seq<K>, vs: seq<V>, n: nat)
    requires n <= |ks| == |vs|
    ensures |EmplaceAll(ks, vs, n)| == n <==> Distinct(ks[..n])
    ensures Distinct(ks[..n]) ==>
      forall i :: 0 <= i < n ==> ks[i] in EmplaceAll(ks, vs, n) && EmplaceAll(ks, vs, n)[ks[i]] == vs[i]
  {
    if n > 0 {
      EmplacedAllIffDistinct(ks, vs, n - 1);
      EmplacedEntries(ks, vs, n - 1);
      assert ks[..n] == ks[..n - 1] + [ks[n - 1]];
      DistinctExtends(ks[..n - 1], ks[n - 1]);
      assert ks[n - 1] in EmplaceAll(ks, vs, n - 1) <==> ks[n - 1] in ks[..n - 1];
    }
  }

  lemma DistinctExtends<T>(v: seq<T>, x: T)
    ensures Distinct(v + [x]) <==> Distinct(v) && x !in v
  {
    var w := v + [x];
    assert forall i :: 0 <= i < |v| ==> w[i] == v[i];
    assert w[|v|] == x;
  }

  function CommitHashes(c: Crypto, txs: seq<TxValidator>): (hs: seq<Hash>)
    requires |txs| == 2 * MIN_VALIDATORS
    ensures |hs| == MIN_VALIDATORS && forall i :: 0 <= i < |hs| ==> hs[i] == TxHash(c, txs[i])
  {
    seq(MIN_VALIDATORS, i requires 0 <= i < MIN_VALIDATORS => TxHash(c, txs[i]))
  }

  function Pairs(txs: seq<TxValidator>): (ps: seq<(TxValidator, TxValidator)>)
    requires |txs| == 2 * MIN_VALIDATORS
    ensures |ps| == MIN_VALIDATORS && forall i :: 0 <= i < |ps| ==> ps[i] == (txs[i], txs[i + MIN_VALIDATORS])
  {
    seq(MIN_VALIDATORS, i requires 0 <= i < MIN_VALIDATORS => (txs[i], txs[i + MIN_VALIDATORS]))
  }

  function SignedForms(txs: seq<TxValidator>): (S: set<bytes>) {
    set tx | tx in txs :: ValidatorTx.Serialize(tx, true)
  }

  method CheckOrder(c: Crypto, list: seq<Address>, txs: seq<TxValidator>)
    returns (ok: bool, m: map<Hash, (TxValidator, TxValidator)>)
    requires |list| > MIN_VALIDATORS && |txs| == 2 * MIN_VALIDATORS
    ensures ok == forall i :: 0 <= i < MIN_VALIDATORS ==> SentBy(list, txs, i)
    ensures ok ==> m == EmplaceAll(CommitHashes(c, txs), Pairs(txs), MIN_VALIDATORS)
  {
    hide TxHash;
    m := map[];
    for i := 0 to MIN_VALIDATORS
      invariant forall k :: 0 <= k < i ==> SentBy(list, txs, k)
      invariant m == EmplaceAll(CommitHashes(c, txs), Pairs(txs), i)
    {
      if txs[i].from != list[i + 1] || txs[i + MIN_VALIDATORS].from != list[i + 1] {
        assert !SentBy(list, txs, i);
        return false, m;
      }
      var h := TxHash(c, txs[i]);
      if h !in m { m := m[h := (txs[i], txs[i + MIN_VALIDATORS])]; }
    }
    ok := true;
  }

  /** Visits the map in any order. */
  method CheckReveals(c: Crypto, m: map<Hash, (TxValidator, TxValidator)>) returns (ok: bool)
    ensures ok == forall k :: k in m ==> Reveals(c, m[k].0, m[k].1)
  {
    var keys := m.Keys;
    while keys != {}
      invariant keys <= m.Keys
      invariant forall k :: k in m && k !in keys ==> Reveals(c, m[k].0, m[k].1)
    {
      var k :| k in keys;
      var (hashTx, seedTx) := m[k];
      var hashKind, seedKind := FunctionOf(hashTx), FunctionOf(seedTx);
      if hashKind == Invalid || seedKind == Invalid { return false; }
      if hashTx.from != seedTx.from { return false; }
      if hashKind != RandomHash || seedKind != RandomSeed { return false; }
      if c.sha3(seedTx.data[4..]) != hashTx.data[4..] { return false; }
      keys := keys - {k};
    }
    ok := true;
  }

  /** The check through the map accepts what `Accepts` describes, unless two of the four commitments
      have the same transaction hash. */
  method ValidateBlock(c: Crypto, list: seq<Address>, b: Block) returns (ok: bool)
    requires |list| > MIN_VALIDATORS
    ensures ok ==> |b.txValidators| == 2 * MIN_VALIDATORS
    ensures ok <==> Accepts(c, list, b) && Distinct(CommitHashes(c, b.txValidators))
  {
    hide TxHash, Reveals, SentBy, ToAddress;
    if !b.finalized { return false; }
    if ToAddress(c, b.validatorPubKey) != list[0] { return false; }
    var txs := b.txValidators;
    if |txs| != 2 * MIN_VALIDATORS { return false; }
    for i := 0 to |txs|
      invariant forall k :: 0 <= k < i ==> txs[k].nHeight == b.nHeight
    {
      if txs[i].nHeight != b.nHeight { return false; }
    }
    var ordered, m := CheckOrder(c, list, txs);
    if !ordered { return false; }
    ghost var hs, ps := CommitHashes(c, txs), Pairs(txs);
    EmplacedAllIffDistinct(hs, ps, MIN_VALIDATORS);
    assert hs[..MIN_VALIDATORS] == hs;
    if |m| != MIN_VALIDATORS { return false; }
    ok := CheckReveals(c, m);
    AllPairsChecked(c, hs, ps, m);
  }

  lemma AllPairsChecked(c: Crypto, hs: seq<Hash>, ps: seq<(TxValidator, TxValidator)>,
    m: map<Hash, (TxValidator, TxValidator)>)
    requires |hs| == |ps| && m == EmplaceAll(hs, ps, |hs|)
    requires forall i :: 0 <= i < |hs| ==> hs[i] in m && m[hs[i]] == ps[i]
    ensures (forall k :: k in m ==> Reveals(c, m[k].0, m[k].1)) <==>
      (forall i :: 0 <= i < |ps| ==> Reveals(c, ps[i].0, ps[i].1))
  {
    hide Reveals, EmplaceAll;
    EmplacedEntries(hs, ps, |hs|);
  }

  /** Well-signed commitments of different validators only share a hash in a collision. */
  lemma CommitHashesDiffer(c: Crypto, list: seq<Address>, txs: seq<TxValidator>)
    requires |list| > MIN_VALIDATORS && Distinct(list) && |txs| == 2 * MIN_VALIDATORS
    requires forall i :: 0 <= i < MIN_VALIDATORS ==> SentBy(list, txs, i) && ValidatorTx.WellSigned(c, txs[i])
    ensures Distinct(CommitHashes(c, txs)) || Collides(c.sha3, SignedForms(txs[..MIN_VALIDATORS]))
  {
    var hs := CommitHashes(c, txs);
    if !Distinct(hs) {
      var i, j :| 0 <= i < j < |hs| && hs[i] == hs[j];
      assert SentBy(list, txs, i) && SentBy(list, txs, j);
      assert txs[i].from != txs[j].from;
      SameHashCollides(c, txs[..MIN_VALIDATORS], txs[i], txs[j]);
    }
  }

  lemma SameHashCollides(c: Crypto, txs: seq<TxValidator>, x: TxValidator, y: TxValidator)
    requires x in txs && y in txs && x != y && TxHash(c, x) == TxHash(c, y)
    requires ValidatorTx.WellSigned(c, x) && ValidatorTx.WellSigned(c, y)
    ensures Collides(c.sha3, SignedForms(txs))
  {
    var a, b := ValidatorTx.Serialize(x, true), ValidatorTx.Serialize(y, true);
    if a == b { ValidatorTx.SignedFormDeterminesTx(c, x, y); }
    assert a in SignedForms(txs) && b in SignedForms(txs);
  }

  /** The check is exact on well-signed transactions: accepted, or refused although it should be
      accepted because two different signed transactions have one hash. */
  lemma MapCheckIsExact(c: Crypto, list: seq<Address>, b: Block)
    requires |list| > MIN_VALIDATORS && Distinct(list) && Accepts(c, list, b)
    requires forall i :: 0 <= i < MIN_VALIDATORS ==> ValidatorTx.WellSigned(c, b.txValidators[i])
    ensures Distinct(CommitHashes(c, b.txValidators)) || Collides(c.sha3, SignedForms(b.txValidators[..MIN_VALIDATORS]))
  {
    hide Reveals, SentBy, TxHash, Distinct;
    CommitHashesDiffer(c, list, b.txValidators);
  }

  /** Two accepted blocks on the same parent have the same signer. */
  lemma LeaderAgreement(c: Crypto, va: seq<Address>, vb: seq<Address>, la: Block, lb: Block, a: Block, b: Block)
    requires Ascending(va) && Ascending(vb) && (forall x :: x in va <==> x in vb)
    requires |Schedule(c, va, la.blockRandomness)| > MIN_VALIDATORS
    requires |Schedule(c, vb, lb.blockRandomness)| > MIN_VALIDATORS
    requires Accepts(c, Schedule(c, va, la.blockRandomness), a) && Accepts(c, Schedule(c, vb, lb.blockRandomness), b)
    requires a.prevBlockHash == BlockHash(c, la) && b.prevBlockHash == BlockHash(c, lb)
    requires a.prevBlockHash == b.prevBlockHash
    ensures ToAddress(c, a.validatorPubKey) == ToAddress(c, b.validatorPubKey)
         || Collides(c.sha3, {Header(la), Header(lb)})
  {
    hide Schedule, BlockHash, Header, ToAddress, Ascending;
    ScheduleAgreement(c, va, vb, la, lb);
  }

  // ----- The randomness of a block

  lemma AcceptedCarriesReveals(c: Crypto, list: seq<Address>, b: Block)
    requires |list| > MIN_VALIDATORS && Accepts(c, list, b)
    ensures |b.txValidators| == 8
    ensures forall i :: 0 <= i < 8 ==> FunctionOf(b.txValidators[i]) == if i < 4 then RandomHash else RandomSeed
  {
    hide FunctionOf, SentBy, ToAddress;
    forall i | 0 <= i < 8 ensures FunctionOf(b.txValidators[i]) == if i < 4 then RandomHash else RandomSeed {
      var k := if i < 4 then i else i - 4;
      assert Reveals(c, b.txValidators[k], b.txValidators[k + MIN_VALIDATORS]);
    }
  }

  /** The randomness of an accepted block is the hash of its four seeds, in the order of the list. */
  lemma AcceptedRandomness(c: Crypto, list: seq<Address>, b: Block)
    requires |list| > MIN_VALIDATORS && Accepts(c, list, b) && Finalized(c, b)
    ensures |b.txValidators| == 8 && |FourSeeds(b.txValidators[4..])| == 128
    ensures b.blockRandomness == c.sha3(FourSeeds(b.txValidators[4..]))
  {
    hide FunctionOf, BlockRandomness, Accepts, MerkleTree.Root, FourSeeds;
    AcceptedCarriesReveals(c, list, b);
    RandomnessOfEight(c, b.txValidators);
  }

  /** It binds every one of them: equal randomness means equal seeds place by place, or the two strings
      of seeds collide. */
  lemma RandomnessBindsSeeds(c: Crypto, la: seq<Address>, lb: seq<Address>, a: Block, b: Block, i: nat)
    requires |la| > MIN_VALIDATORS && Accepts(c, la, a) && Finalized(c, a)
    requires |lb| > MIN_VALIDATORS && Accepts(c, lb, b) && Finalized(c, b)
    requires a.blockRandomness == b.blockRandomness && i < 4
    ensures |a.txValidators| == |b.txValidators| == 8
    ensures SeedOf(a.txValidators[4 + i]) == SeedOf(b.txValidators[4 + i])
      || Collides(c.sha3, {FourSeeds(a.txValidators[4..]), FourSeeds(b.txValidators[4..])})
  {
    hide Accepts, Finalized, FunctionOf, FourSeeds, SeedOf;
    AcceptedRandomness(c, la, a);
    AcceptedRandomness(c, lb, b);
    var x, y := FourSeeds(a.txValidators[4..]), FourSeeds(b.txValidators[4..]);
    if x == y {
      AcceptedCarriesReveals(c, la, a);
      AcceptedCarriesReveals(c, lb, b);
      SeedAt(a.txValidators[4..], i);
      SeedAt(b.txValidators[4..], i);
    } else {
      assert x in {x, y} && y in {x, y};
    }
  }

  lemma SeedAt(txs: seq<TxValidator>, i: nat)
    requires |txs| == 4 && i < 4 && forall k :: 0 <= k < 4 ==> FunctionOf(txs[k]) == RandomSeed
    ensures |FourSeeds(txs)| == 128 && FourSeeds(txs)[32 * i..32 * i + 32] == SeedOf(txs[i])
  {
    hide SeedOf, FunctionOf;
    forall k | 0 <= k < 4 ensures |SeedOf(txs[k])| == 32 { SeedOfAny(txs[k]); }
  }

  // ----- Commit and reveal

  predicate SameArgument(x: TxValidator, y: TxValidator) {
    |x.data| == 36 && |y.data| == 36 && Argument(x) == Argument(y)
  }

  lemma {:induction false} SameReveals(a: seq<TxValidator>, b: seq<TxValidator>)
    requires |a| == |b| && forall i :: 0 <= i < |a| ==> FunctionOf(a[i]) == FunctionOf(b[i]) != Invalid
    requires forall i :: 0 <= i < |a| ==> FunctionOf(a[i]) == RandomSeed ==> SameArgument(a[i], b[i])
    ensures Seeds(a) == Seeds(b)
  {
    if |a| > 0 { SameReveals(a[..|a| - 1], b[..|b| - 1]); }
  }

  function RevealedSeeds(txs: seq<TxValidator>): (S: set<bytes>) {
    set tx | tx in txs && FunctionOf(tx) == RandomSeed :: Argument(tx)
  }

  lemma SameCommitmentSameSeed(c: Crypto, a: seq<TxValidator>, b: seq<TxValidator>, i: nat)
    requires |a| == |b| == 2 * MIN_VALIDATORS && i < MIN_VALIDATORS
    requires Reveals(c, a[i], a[i + MIN_VALIDATORS]) && Reveals(c, b[i], b[i + MIN_VALIDATORS])
    requires SameArgument(a[i], b[i])
    ensures SameArgument(a[i + MIN_VALIDATORS], b[i + MIN_VALIDATORS])
         || Collides(c.sha3, RevealedSeeds(a) + RevealedSeeds(b))
  {
    hide FunctionOf;
    var x, y := Argument(a[i + MIN_VALIDATORS]), Argument(b[i + MIN_VALIDATORS]);
    assert x in RevealedSeeds(a) && y in RevealedSeeds(b);
  }

  /** Once the four commitments are fixed there is one possible outcome of the round. */
  lemma CommitmentsFixRandomness(c: Crypto, la: seq<Address>, lb: seq<Address>, a: Block, b: Block)
    requires |la| > MIN_VALIDATORS && |lb| > MIN_VALIDATORS && Accepts(c, la, a) && Accepts(c, lb, b)
    requires a.blockRandomness == BlockRandomness(c, a.txValidators)
    requires b.blockRandomness == BlockRandomness(c, b.txValidators)
    requires forall i :: 0 <= i < MIN_VALIDATORS ==> SameArgument(a.txValidators[i], b.txValidators[i])
    ensures a.blockRandomness == b.blockRandomness
         || Collides(c.sha3, RevealedSeeds(a.txValidators) + RevealedSeeds(b.txValidators))
  {
    hide Seeds, RevealedSeeds, Collides, Argument, FunctionOf;
    var ta, tb := a.txValidators, b.txValidators;
    if !Collides(c.sha3, RevealedSeeds(ta) + RevealedSeeds(tb)) {
      KindsOfAccepted(c, ta);
      KindsOfAccepted(c, tb);
      forall i | 0 <= i < |ta| && FunctionOf(ta[i]) == RandomSeed ensures SameArgument(ta[i], tb[i]) {
        SameCommitmentSameSeed(c, ta, tb, i - MIN_VALIDATORS);
      }
      SameReveals(ta, tb);
    }
  }

  lemma KindsOfAccepted(c: Crypto, txs: seq<TxValidator>)
    requires |txs| == 2 * MIN_VALIDATORS
    requires forall i :: 0 <= i < MIN_VALIDATORS ==> Reveals(c, txs[i], txs[i + MIN_VALIDATORS])
    ensures forall i :: 0 <= i < |txs| ==> FunctionOf(txs[i]) == if i < MIN_VALIDATORS then RandomHash else RandomSeed
  {
    hide FunctionOf, Argument;
    forall i | 0 <= i < |txs| ensures FunctionOf(txs[i]) == if i < MIN_VALIDATORS then RandomHash else RandomSeed {
      var k := if i < MIN_VALIDATORS then i else i - MIN_VALIDATORS;
      assert Reveals(c, txs[k], txs[k + MIN_VALIDATORS]);
    }
  }
}
