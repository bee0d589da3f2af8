/** One consensus round at a node: the validator mempool, the leader's selection of transactions and
    the rdPoS object itself (src/core/rdpos.cpp, src/core/blockchain.cpp). */
module Round {
  import opened Bytes
  import opened Crypto
  import opened Randomness
  import opened RandomGen
  import opened Blocks
  import opened RdPoS
  import opened Sets
  import ValidatorTx

  type Mempool = map<Hash, TxValidator>

  /** The validators that may commit and reveal in this round. */
  function Participants(list: seq<Address>): (p: seq<Address>) {
    if |list| > MIN_VALIDATORS then list[1..MIN_VALIDATORS + 1] else []
  }

  function KeysOf(m: Mempool, a: Address): (S: set<Hash>) {
    set k | k in m && m[k].from == a
  }

  // ----- What the mempool holds

  /** Only transactions of participants for the next height, filed under their hash, at most two of
      one sender, never two of one sender for the same function. */
  ghost predicate MempoolOk(c: Crypto, m: Mempool, next: u64, list: seq<Address>) {
    Filed(c, m, next, list) && NoneTwice(m) && AtMostTwo(m)
  }

  ghost predicate Filed(c: Crypto, m: Mempool, next: u64, list: seq<Address>) {
    forall k :: k in m ==> k == TxHash(c, m[k]) && m[k].nHeight == next && m[k].from in Participants(list)
  }

  ghost predicate NoneTwice(m: Mempool) {
    forall j, k :: j in m && k in m && j != k && m[j].from == m[k].from ==> Functor(m[j]) != Functor(m[k])
  }

  ghost predicate AtMostTwo(m: Mempool) {
    forall a :: |KeysOf(m, a)| <= 2
  }

  /** The verdict and the mempool after a transaction arrives. */
  function Add(c: Crypto, m: Mempool, next: u64, list: seq<Address>, tx: TxValidator): (r: (bool, Mempool)) {
    var h := TxHash(c, tx);
    var mine := KeysOf(m, tx.from);
    if h in m then (true, m)
    else if tx.nHeight != next || tx.from !in Participants(list) then (false, m)
    else if |mine| == 0 then (true, m[h := tx])
    else if |mine| == 1 && forall k :: k in mine ==> Functor(m[k]) != Functor(tx) then (true, m[h := tx])
    else (false, m)
  }

  ghost predicate HasRoomFor(m: Mempool, tx: TxValidator) {
    |KeysOf(m, tx.from)| <= 1 && forall k :: k in m && m[k].from == tx.from ==> Functor(m[k]) != Functor(tx)
  }

  /** A transaction is confirmed exactly when the mempool then has it.  A new one is taken in exactly when
      it is for the next height, from one of the four behind the leader, and the only one or the second
      of its sender, with another functor than the first. */
  lemma AddedExactly(c: Crypto, m: Mempool, next: u64, list: seq<Address>, tx: TxValidator)
    requires |list| > 4
    ensures var (ok, r) := Add(c, m, next, list, tx);
      && (ok <==> TxHash(c, tx) in r) && (r == m || (TxHash(c, tx) !in m && r == m[TxHash(c, tx) := tx]))
      && (r != m <==> TxHash(c, tx) !in m && tx.nHeight == next && tx.from in list[1..5] && HasRoomFor(m, tx))
  {
    hide TxHash, Functor;
    KeysOfSender(m, tx.from);
    if Add(c, m, next, list, tx).0 && TxHash(c, tx) !in m { assert TxHash(c, tx) in m[TxHash(c, tx) := tx]; }
  }

  lemma AddKeepsMempool(c: Crypto, m: Mempool, next: u64, list: seq<Address>, tx: TxValidator)
    requires MempoolOk(c, m, next, list)
    ensures MempoolOk(c, Add(c, m, next, list, tx).1, next, list)
  {
    hide TxHash, Participants, Functor, AtMostTwo, KeysOf;
    KeysOfSender(m, tx.from);
    if Add(c, m, next, list, tx).1 != m { AddedKeys(m, TxHash(c, tx), tx); }
  }

  lemma KeysOfSender(m: Mempool, a: Address)
    ensures forall k :: k in KeysOf(m, a) <==> k in m && m[k].from == a
    ensures |KeysOf(m, a)| == 0 ==> KeysOf(m, a) == {}
  {
  }

  lemma AddedKeys(m: Mempool, h: Hash, tx: TxValidator)
    requires h !in m && |KeysOf(m, tx.from)| <= 1 && AtMostTwo(m)
    ensures AtMostTwo(m[h := tx])
  {
    hide KeysOf;
    var r := m[h := tx];
    forall a ensures |KeysOf(r, a)| <= 2 {
      KeysAfterAdding(m, h, tx, a);
      TwoKeys(m, a);
    }
  }

  lemma KeysAfterAdding(m: Mempool, h: Hash, tx: TxValidator, a: Address)
    requires h !in m
    ensures KeysOf(m[h := tx], a) == if a == tx.from then KeysOf(m, a) + {h} else KeysOf(m, a)
  {
  }

  /** The mempool after a sequence of arrivals. */
  function AddAll(c: Crypto, m: Mempool, next: u64, list: seq<Address>, txs: seq<TxValidator>): (r: Mempool)
    decreases |txs|
  {
    if |txs| == 0 then m else AddAll(c, Add(c, m, next, list, txs[0]).1, next, list, txs[1..])
  }

  /** A participant's recognised transaction for this round. */
  predicate Eligible(next: u64, list: seq<Address>, tx: TxValidator) {
    tx.nHeight == next && tx.from in Participants(list) && (Functor(tx) == RANDOM_HASH || Functor(tx) == RANDOM_SEED)
  }

  /** Same sender and same kind, or same hash. */
  predicate Clash(c: Crypto, x: TxValidator, y: TxValidator) {
    (x.from == y.from && Functor(x) == Functor(y)) || TxHash(c, x) == TxHash(c, y)
  }

  /** Entries of the mempool are eligible and do not clash with each other or with `tx`. */
  ghost predicate Apart(c: Crypto, m: Mempool, next: u64, list: seq<Address>, tx: TxValidator) {
    && (forall k :: k in m ==> k == TxHash(c, m[k]) && Eligible(next, list, m[k]) && !Clash(c, m[k], tx))
    && (forall j, k :: j in m && k in m && j != k ==> !Clash(c, m[j], m[k]))
  }

  /** In whatever order they arrive, eligible transactions that do not clash are all kept. */
  lemma {:induction false} AllAreKept(c: Crypto, m: Mempool, next: u64, list: seq<Address>, txs: seq<TxValidator>,
    r: Mempool)
    requires forall i :: 0 <= i < |txs| ==> Eligible(next, list, txs[i]) && Apart(c, m, next, list, txs[i])
    requires forall i, j :: 0 <= i < j < |txs| ==> !Clash(c, txs[i], txs[j])
    requires r == AddAll(c, m, next, list, txs)
    ensures forall i :: 0 <= i < |txs| ==> TxHash(c, txs[i]) in r && r[TxHash(c, txs[i])] == txs[i]
    ensures forall k :: k in m ==> k in r && r[k] == m[k]
    decreases |txs|
  {
    hide TxHash, Eligible, Apart, Add, Clash;
    if |txs| > 0 {
      var tx, rest := txs[0], txs[1..];
      var h, m1 := TxHash(c, tx), m[TxHash(c, tx) := tx];
      EligibleIsAdded(c, m, next, list, tx);
      forall i | 0 <= i < |rest| ensures Apart(c, m1, next, list, rest[i]) {
        assert rest[i] == txs[i + 1];
        StillApart(c, m, next, list, tx, rest[i]);
      }
      AllAreKept(c, m1, next, list, rest, r);
      assert h in m1 && m1[h] == tx;
      NotThere(c, m, next, list, tx);
      forall i | 0 <= i < |txs| ensures TxHash(c, txs[i]) in r && r[TxHash(c, txs[i])] == txs[i] {
        if i > 0 { assert rest[i - 1] == txs[i]; }
      }
    }
  }

  lemma NotThere(c: Crypto, m: Mempool, next: u64, list: seq<Address>, tx: TxValidator)
    requires Apart(c, m, next, list, tx)
    ensures TxHash(c, tx) !in m
  {
    hide TxHash, Functor, Eligible;
  }

  lemma StillApart(c: Crypto, m: Mempool, next: u64, list: seq<Address>, tx: TxValidator, other: TxValidator)
    requires Apart(c, m, next, list, tx) && Apart(c, m, next, list, other) && Eligible(next, list, tx)
    requires !Clash(c, tx, other)
    ensures Apart(c, m[TxHash(c, tx) := tx], next, list, other)
  {
    hide TxHash, Functor, Eligible;
  }

  lemma EligibleIsAdded(c: Crypto, m: Mempool, next: u64, list: seq<Address>, tx: TxValidator)
    requires Eligible(next, list, tx) && Apart(c, m, next, list, tx)
    ensures Add(c, m, next, list, tx) == (true, m[TxHash(c, tx) := tx])
  {
    hide TxHash, Functor, Participants;
    KeysOfSender(m, tx.from);
    AtMostOneOther(c, m, next, list, tx);
    NotThere(c, m, next, list, tx);
  }

  lemma AtMostOneOther(c: Crypto, m: Mempool, next: u64, list: seq<Address>, tx: TxValidator)
    requires Eligible(next, list, tx) && Apart(c, m, next, list, tx)
    ensures |KeysOf(m, tx.from)| <= 1
  {
    hide TxHash, Functor, Participants, Apart;
    var S := KeysOf(m, tx.from);
    if |S| > 1 {
      var j :| j in S;
      assert |S - {j}| > 0;
      var k :| k in S - {j};
      NoThirdKind(c, m, next, list, tx, j, k);
      assert false;
    }
  }

  lemma NoThirdKind(c: Crypto, m: Mempool, next: u64, list: seq<Address>, tx: TxValidator, j: Hash, k: Hash)
    requires Eligible(next, list, tx) && Apart(c, m, next, list, tx) && j in m && k in m && j != k
    ensures m[j].from != tx.from || m[k].from != tx.from
  {
    hide TxHash, Functor, Participants;
  }

  /** Never more than two per participant: eight in all. */
  lemma MempoolIsBounded(c: Crypto, m: Mempool, next: u64, list: seq<Address>)
    requires MempoolOk(c, m, next, list)
    ensures |m| <= 2 * MIN_VALIDATORS
    ensures |m| == 2 * MIN_VALIDATORS ==>
      |list| > MIN_VALIDATORS && forall i :: 1 <= i <= MIN_VALIDATORS ==> |KeysOf(m, list[i])| == 2
  {
    hide Filed, KeysOf, NoneTwice, AtMostTwo, KeyIsCovered;
    if |list| > MIN_VALIDATORS {
      AllCovered(c, m, next, list);
      forall a ensures |KeysOf(m, a)| <= 2 { TwoKeys(m, a); }
      CoveredBound(m, list);
    } else {
      NobodyParticipates(c, m, next, list);
    }
  }

  lemma NobodyParticipates(c: Crypto, m: Mempool, next: u64, list: seq<Address>)
    requires Filed(c, m, next, list) && |list| <= MIN_VALIDATORS
    ensures |m| == 0
  {
    hide TxHash;
    assert m.Keys == {};
  }

  lemma TwoKeys(m: Mempool, a: Address)
    requires AtMostTwo(m)
    ensures |KeysOf(m, a)| <= 2
  {
    hide KeysOf;
  }

  lemma AllCovered(c: Crypto, m: Mempool, next: u64, list: seq<Address>)
    requires Filed(c, m, next, list) && |list| > MIN_VALIDATORS
    ensures forall k :: k in m.Keys ==> KeyIsCovered(m, list, k)
  {
    hide TxHash;
    forall k | k in m.Keys ensures KeyIsCovered(m, list, k) {
      assert m[k].from in list[1..5];
    }
  }

  lemma CoveredBound(m: Mempool, list: seq<Address>)
    requires |list| > MIN_VALIDATORS && forall k :: k in m.Keys ==> KeyIsCovered(m, list, k)
    requires forall i :: 1 <= i <= MIN_VALIDATORS ==> |KeysOf(m, list[i])| <= 2
    ensures |m| <= 2 * MIN_VALIDATORS
    ensures |m| == 2 * MIN_VALIDATORS ==> forall i :: 1 <= i <= MIN_VALIDATORS ==> |KeysOf(m, list[i])| == 2
  {
    hide KeysOf;
    CoverBound(m.Keys, KeysOf(m, list[1]), KeysOf(m, list[2]), KeysOf(m, list[3]), KeysOf(m, list[4]));
  }

  ghost predicate KeyIsCovered(m: Mempool, list: seq<Address>, k: Hash)
    requires |list| > MIN_VALIDATORS
  {
    k in KeysOf(m, list[1]) || k in KeysOf(m, list[2]) || k in KeysOf(m, list[3]) || k in KeysOf(m, list[4])
  }

  lemma CoverBound<T>(S: set<T>, a: set<T>, b: set<T>, d: set<T>, e: set<T>)
    requires forall k :: k in S ==> k in a || k in b || k in d || k in e
    requires |a| <= 2 && |b| <= 2 && |d| <= 2 && |e| <= 2
    ensures |S| <= 8
    ensures |S| == 8 ==> |a| == |b| == |d| == |e| == 2
  {
    var u := a + b;
    var v := d + e;
    UnionSize(a, b);
    UnionSize(d, e);
    UnionSize(u, v);
    SubsetSize(S, u + v);
  }

  predicate Matches(tx: TxValidator, who: Address, functor: bytes) {
    tx.from == who && Functor(tx) == functor
  }

  ghost predicate HasOne(m: Mempool, who: Address, functor: bytes) {
    exists k :: k in m && Matches(m[k], who, functor)
  }

  lemma OneMatchOnly(c: Crypto, m: Mempool, next: u64, list: seq<Address>, j: Hash, k: Hash, who: Address,
    functor: bytes)
    requires MempoolOk(c, m, next, list)
    requires j in m && k in m && Matches(m[j], who, functor) && Matches(m[k], who, functor)
    ensures j == k
  {
  }

  /** A full mempool of recognised transactions holds, for every participant, exactly one
      commitment and one reveal. */
  lemma FullMempoolHasAll(c: Crypto, m: Mempool, next: u64, list: seq<Address>)
    requires MempoolOk(c, m, next, list) && |m| >= 2 * MIN_VALIDATORS
    requires forall k :: k in m ==> FunctionOf(m[k]) != Invalid
    ensures |list| > MIN_VALIDATORS
    ensures forall i :: 1 <= i <= MIN_VALIDATORS ==> HasOne(m, list[i], RANDOM_HASH) && HasOne(m, list[i], RANDOM_SEED)
  {
    hide TxHash, HasOne, KeysOf;
    MempoolIsBounded(c, m, next, list);
    forall i | 1 <= i <= MIN_VALIDATORS ensures HasOne(m, list[i], RANDOM_HASH) && HasOne(m, list[i], RANDOM_SEED) {
      BothKinds(m, list[i]);
    }
  }

  lemma BothKinds(m: Mempool, who: Address)
    requires |KeysOf(m, who)| == 2
    requires forall k :: k in m ==> FunctionOf(m[k]) != Invalid
    requires NoneTwice(m)
    ensures HasOne(m, who, RANDOM_HASH) && HasOne(m, who, RANDOM_SEED)
  {
    hide Functor;
    var S := KeysOf(m, who);
    var j :| j in S;
    assert |S - {j}| == 1;
    var k :| k in S - {j};
    assert Matches(m[j], who, Functor(m[j])) && Matches(m[k], who, Functor(m[k]));
  }

  // ----- The leader's selection

  /** One pass over the mempool, in any order: the first match, if there is one. */
  method FindTx(m: Mempool, who: Address, functor: bytes) returns (r: Result<TxValidator>)
    ensures r.Ok? ==> r.value in m.Values && Matches(r.value, who, functor)
    ensures r.Err? ==> !HasOne(m, who, functor)
  {
    hide Functor;
    var keys := m.Keys;
    while keys != {}
      invariant keys <= m.Keys
      invariant forall k :: k in m && k !in keys ==> !Matches(m[k], who, functor)
    {
      var k :| k in keys;
      if m[k].from == who && Functor(m[k]) == functor { return Ok(m[k]); }
      keys := keys - {k};
    }
    r := Err;
  }

  /** The selection loop; it ends because every pass finds the next participant's transaction. */
  method Select(m: Mempool, list: seq<Address>, functor: bytes) returns (txs: seq<TxValidator>)
    requires |list| > MIN_VALIDATORS
    requires forall i :: 1 <= i <= MIN_VALIDATORS ==> HasOne(m, list[i], functor)
    ensures |txs| == MIN_VALIDATORS
    ensures forall i :: 0 <= i < MIN_VALIDATORS ==> txs[i] in m.Values && Matches(txs[i], list[i + 1], functor)
  {
    hide Functor, HasOne, Matches;
    txs := [];
    var i := 1;
    while |txs| != MIN_VALIDATORS
      invariant i == |txs| + 1 <= MIN_VALIDATORS + 1
      invariant forall k :: 0 <= k < |txs| ==> txs[k] in m.Values && Matches(txs[k], list[k + 1], functor)
      decreases MIN_VALIDATORS - |txs|
    {
      var found := FindTx(m, list[i], functor);
      if found.Ok? {
        txs := txs + [found.value];
        i := i + 1;
      } else {
        assert false;
      }
    }
  }

  /** What one pass may do to the selection. */
  ghost predicate Pass(m: Mempool, list: seq<Address>, functor: bytes, before: seq<TxValidator>,
    after: seq<TxValidator>)
    requires |list| > MIN_VALIDATORS && |before| < MIN_VALIDATORS
  {
    if HasOne(m, list[|before| + 1], functor)
    then exists k :: k in m && Matches(m[k], list[|before| + 1], functor) && after == before + [m[k]]
    else after == before
  }

  /** Without that transaction of one participant the loop never ends, however long it runs. */
  lemma {:induction false} SelectionStalls(m: Mempool, list: seq<Address>, functor: bytes, i: nat,
    run: seq<seq<TxValidator>>, n: nat)
    requires |list| > MIN_VALIDATORS && 1 <= i <= MIN_VALIDATORS && !HasOne(m, list[i], functor)
    requires n < |run| && run[0] == []
    requires forall k :: 0 <= k < |run| - 1 ==> |run[k]| < MIN_VALIDATORS && Pass(m, list, functor, run[k], run[k + 1])
    ensures |run[n]| < i
  {
    hide HasOne, Matches;
    if n > 0 {
      SelectionStalls(m, list, functor, i, run, n - 1);
      assert Pass(m, list, functor, run[n - 1], run[n - 1 + 1]);
    }
  }

  /** The assembled list passes every order, height and kind check; what is left is whether the
      seeds are the ones committed to. */
  lemma AssembledBlockIsAccepted(c: Crypto, m: Mempool, list: seq<Address>, hashTxs: seq<TxValidator>,
    seedTxs: seq<TxValidator>, b: Block)
    requires MempoolOk(c, m, b.nHeight, list) && |list| > MIN_VALIDATORS
    requires forall k :: k in m ==> FunctionOf(m[k]) != Invalid
    requires |hashTxs| == |seedTxs| == MIN_VALIDATORS
    requires forall i :: 0 <= i < MIN_VALIDATORS ==>
      hashTxs[i] in m.Values && Matches(hashTxs[i], list[i + 1], RANDOM_HASH)
    requires forall i :: 0 <= i < MIN_VALIDATORS ==>
      seedTxs[i] in m.Values && Matches(seedTxs[i], list[i + 1], RANDOM_SEED)
    requires b.finalized && ToAddress(c, b.validatorPubKey) == list[0] && b.txValidators == hashTxs + seedTxs
    ensures Accepts(c, list, b) <==> forall i :: 0 <= i < MIN_VALIDATORS ==> IsSeedOf(c, seedTxs[i], hashTxs[i])
  {
    hide TxHash, Functor, KeysOf, ToAddress, Reveals, IsSeedOf, Filed, NoneTwice, AtMostTwo, FunctionOf;
    var txs := b.txValidators;
    forall i | 0 <= i < MIN_VALIDATORS ensures SentBy(list, txs, i) {
    }
    assert forall i :: 0 <= i < |txs| ==> txs[i] in m.Values;
    HeightsAgree(c, m, b.nHeight, list, txs);
    forall i | 0 <= i < MIN_VALIDATORS
      ensures Reveals(c, txs[i], txs[i + MIN_VALIDATORS]) <==> IsSeedOf(c, seedTxs[i], hashTxs[i])
    {
      SelectedKinds(c, m, list, hashTxs[i], seedTxs[i], i);
    }
    if Accepts(c, list, b) {
      forall i | 0 <= i < MIN_VALIDATORS ensures IsSeedOf(c, seedTxs[i], hashTxs[i]) {
        assert Reveals(c, txs[i], txs[i + MIN_VALIDATORS]);
      }
    }
  }

  lemma HeightsAgree(c: Crypto, m: Mempool, next: u64, list: seq<Address>, txs: seq<TxValidator>)
    requires Filed(c, m, next, list) && forall i :: 0 <= i < |txs| ==> txs[i] in m.Values
    ensures AllAtHeight(txs, next)
  {
    hide TxHash, Participants;
  }

  predicate IsSeedOf(c: Crypto, seedTx: TxValidator, hashTx: TxValidator) {
    |seedTx.data| == 36 && |hashTx.data| == 36 && c.sha3(Argument(seedTx)) == Argument(hashTx)
  }

  lemma SelectedKinds(c: Crypto, m: Mempool, list: seq<Address>, hashTx: TxValidator, seedTx: TxValidator, i: nat)
    requires |list| > MIN_VALIDATORS && i < MIN_VALIDATORS
    requires forall k :: k in m ==> FunctionOf(m[k]) != Invalid
    requires hashTx in m.Values && Matches(hashTx, list[i + 1], RANDOM_HASH)
    requires seedTx in m.Values && Matches(seedTx, list[i + 1], RANDOM_SEED)
    ensures Reveals(c, hashTx, seedTx) <==> IsSeedOf(c, seedTx, hashTx)
  {
  }

  /** The leader's block: both selections, then the pending transactions, signed. */
  method AssembleBlock(c: Crypto, m: Mempool, list: seq<Address>, latest: Block, pending: seq<TxBlock>, key: PrivKey,
    now: u64)
    returns (b: Block, ghost hashTxs: seq<TxValidator>, ghost seedTxs: seq<TxValidator>)
    requires |list| > MIN_VALIDATORS
    requires forall i :: 1 <= i <= MIN_VALIDATORS ==> HasOne(m, list[i], RANDOM_HASH) && HasOne(m, list[i], RANDOM_SEED)
    ensures |hashTxs| == |seedTxs| == MIN_VALIDATORS && b.txValidators == hashTxs + seedTxs
    ensures forall i :: 0 <= i < MIN_VALIDATORS ==>
      hashTxs[i] in m.Values && Matches(hashTxs[i], list[i + 1], RANDOM_HASH)
    ensures forall i :: 0 <= i < MIN_VALIDATORS ==>
      seedTxs[i] in m.Values && Matches(seedTxs[i], list[i + 1], RANDOM_SEED)
    ensures b.txs == pending && b.prevBlockHash == BlockHash(c, latest) && b.nHeight == Truncate64(latest.nHeight + 1)
    ensures b.finalized <==> latest.timestamp <= now
    ensures b.finalized ==> Finalized(c, b) && b.timestamp == now && b.validatorSig == c.sign(BlockHash(c, b), key)
  {
    hide HasOne, Matches, BlockHash, Finalized;
    var hs := Select(m, list, RANDOM_HASH);
    var ss := Select(m, list, RANDOM_SEED);
    hashTxs, seedTxs := hs, ss;
    var draft := new Draft(BlockHash(c, latest), latest.timestamp, Truncate64(latest.nHeight + 1));
    ghost var empty := draft.block;
    for i := 0 to |hs|
      invariant draft.block == empty.(txValidators := hs[..i])
    {
      var _ := draft.AppendTxValidator(hs[i]);
      assert hs[..i] + [hs[i]] == hs[..i + 1];
    }
    for i := 0 to |ss|
      invariant draft.block == empty.(txValidators := hs + ss[..i])
    {
      var _ := draft.AppendTxValidator(ss[i]);
      assert hs + ss[..i] + [ss[i]] == hs + ss[..i + 1];
    }
    for i := 0 to |pending|
      invariant draft.block == empty.(txValidators := hs + ss, txs := pending[..i])
    {
      var _ := draft.AppendTx(pending[i]);
      assert pending[..i] + [pending[i]] == pending[..i + 1];
    }
    var _ := draft.Finalize(c, key, now);
    b := draft.block;
  }

  // ----- The rdPoS object

  class RdPoSNode {
    const c: Crypto
    var validators: seq<Address>
    var randomList: seq<Address>
    var mempool: Mempool
    var bestRandomSeed: Hash
    /** What storage reports as the latest block. */
    var latest: Block
    const gen: Generator

    /** The list is a function of the validator set and the latest block alone. */
    ghost predicate Valid()
      reads this, gen
    {
      && gen.sha3 == c.sha3
      && Ascending(validators)
      && bestRandomSeed == latest.blockRandomness
      && randomList == Schedule(c, validators, latest.blockRandomness)
      && MempoolOk(c, mempool, Truncate64(latest.nHeight + 1), randomList)
    }

    /** Start or restart from the stored validators, in whatever order the database returns them. */
    constructor (c: Crypto, stored: seq<Address>, latest: Block)
      ensures Valid() && fresh(gen) && this.c == c && this.latest == latest && mempool == map[]
      ensures forall x :: x in validators <==> x in stored
    {
      hide Ascending, Shuffle;
      this.c := c;
      this.latest := latest;
      bestRandomSeed := latest.blockRandomness;
      mempool := map[];
      var sorted: seq<Address> := [];
      assert Ascending(sorted) by { EmptyIsAscending(); }
      for i := 0 to |stored|
        invariant Ascending(sorted)
        invariant forall x :: x in sorted <==> x in stored[..i]
      {
        sorted := Insert(sorted, stored[i]);
        assert stored[..i + 1] == stored[..i] + [stored[i]];
      }
      assert stored[..|stored|] == stored;
      var g := new Generator(c.sha3, latest.blockRandomness);
      var list := new Address[|sorted|](i requires 0 <= i < |sorted| => sorted[i]);
      assert list[..] == sorted;
      g.ShuffleInPlace(list);
      validators := sorted;
      randomList := list[..];
      gen := g;
    }

    method AddValidatorTx(tx: TxValidator) returns (ok: bool)
      requires Valid() && |randomList| > MIN_VALIDATORS
      modifies this`mempool
      ensures Valid()
      ensures (ok, mempool) == Add(c, old(mempool), Truncate64(latest.nHeight + 1), randomList, tx)
    {
      hide TxHash, MempoolOk, Ascending, Schedule;
      AddKeepsMempool(c, mempool, Truncate64(latest.nHeight + 1), randomList, tx);
      var h := TxHash(c, tx);
      if h in mempool { return true; }
      if tx.nHeight != Truncate64(latest.nHeight + 1) { return false; }
      var participates := false;
      for i := 1 to MIN_VALIDATORS + 1
        invariant participates <==> tx.from in randomList[1..i]
      {
        if tx.from == randomList[i] { participates := true; }
        assert randomList[1..i + 1] == randomList[1..i] + [randomList[i]];
      }
      if !participates { return false; }
      var txs := TxsFrom(tx.from);
      if |txs| == 0 {
        mempool := mempool[h := tx];
        return true;
      } else if |txs| == 1 {
        if Functor(txs[0]) == Functor(tx) { return false; }
        mempool := mempool[h := tx];
      } else {
        return false;
      }
      ok := true;
    }

    method TxsFrom(from: Address) returns (txs: seq<TxValidator>)
      ensures |txs| == |KeysOf(mempool, from)|
      ensures |txs| == 1 ==> forall k :: k in KeysOf(mempool, from) ==> mempool[k] == txs[0]
    {
      txs := [];
      var keys := mempool.Keys;
      ghost var seen: set<Hash> := {};
      while keys != {}
        invariant keys <= mempool.Keys
        invariant seen == set k | k in mempool && k !in keys && mempool[k].from == from
        invariant |txs| == |seen|
        invariant |txs| == 1 ==> forall k :: k in seen ==> mempool[k] == txs[0]
      {
        var k :| k in keys;
        keys := keys - {k};
        if mempool[k].from == from {
          txs := txs + [mempool[k]];
          seen := seen + {k};
        }
      }
      assert seen == KeysOf(mempool, from);
    }

    method Validate(b: Block) returns (ok: bool)
      requires Valid() && |randomList| > MIN_VALIDATORS
      ensures ok ==> |b.txValidators| == 2 * MIN_VALIDATORS
      ensures ok <==> Accepts(c, randomList, b) && Distinct(CommitHashes(c, b.txValidators))
      ensures Accepts(c, randomList, b) && !ok && AllWellSigned(c, b.txValidators) ==>
        Collides(c.sha3, SignedForms(b.txValidators[..MIN_VALIDATORS]))
    {
      hide Ascending, Schedule, SignedForms, Collides, CommitHashes;
      ok := ValidateBlock(c, randomList, b);
      ScheduleIsArrangement(c, validators, latest.blockRandomness);
      if Accepts(c, randomList, b) && AllWellSigned(c, b.txValidators) { MapCheckIsExact(c, randomList, b); }
    }

    /** The accepted block becomes the latest one; nothing of the old round remains. */
    method ProcessBlock(b: Block) returns (r: Result<Hash>)
      requires Valid()
      modifies this`mempool, this`randomList, this`bestRandomSeed, this`latest, gen
      ensures Valid()
      ensures !b.finalized ==> r == Err && unchanged(this)
      ensures b.finalized ==> r == Ok(b.blockRandomness) && latest == b && mempool == map[]
    {
      hide Ascending, Shuffle, Reseed;
      if !b.finalized { return Err; }
      mempool := map[];
      var list := new Address[|validators|](i requires 0 <= i < |validators| reads this => validators[i]);
      assert list[..] == validators;
      bestRandomSeed := b.blockRandomness;
      gen.SetSeed(bestRandomSeed);
      gen.ShuffleInPlace(list);
      randomList := list[..];
      latest := b;
      r := Ok(bestRandomSeed);
    }
  }

  predicate AllWellSigned(c: Crypto, txs: seq<TxValidator>) {
    forall i :: 0 <= i < |txs| ==> ValidatorTx.WellSigned(c, txs[i])
  }

  lemma EmptyIsAscending()
    ensures Ascending([])
  {
  }
}
