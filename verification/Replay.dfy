/** No transaction is accepted in two blocks: what validation (src/core/state.cpp) gives to storage,
    whose lookups by transaction hash rely on it (src/core/storage.cpp). */
module Replay {
  import opened Bytes
  import opened Crypto
  import opened World
  import opened State
  import opened History
  import Payments
  import Tx

  type TxBlock = Tx.TxBlock

  type Event = State.Event

  /** The blocks the node accepts in a run, in order. */
  function Accepted(cfg: Config, s: Node, events: seq<Event>): (r: seq<seq<TxBlock>>)
    requires Run(cfg, s, events).Ok?
    decreases |events|
  {
    if |events| == 0 then [] else
      var rest := Accepted(cfg, Step(cfg, s, events[0]).value, events[1..]);
      if events[0].NextBlock? && AcceptsAll(cfg.c, s.w.accounts, s.mempool, events[0].txs) then [events[0].txs] + rest
      else rest
  }

  /** Transactions of the run are signed by whoever they say, and their signed forms are in S. */
  ghost predicate Signed(c: Crypto, S: set<bytes>, tx: TxBlock) { Tx.WellSigned(c, tx) && Tx.SignedForm(tx) in S }

  ghost predicate EventSigned(c: Crypto, reserved: set<Address>, S: set<bytes>, e: Event) {
    && EventOk(c, reserved, e)
    && (e.AddTx? ==> Signed(c, S, e.tx))
    && (e.NextBlock? ==> forall i :: 0 <= i < |e.txs| ==> Signed(c, S, e.txs[i]))
  }

  ghost predicate EventsSigned(c: Crypto, reserved: set<Address>, S: set<bytes>, events: seq<Event>) {
    forall i :: 0 <= i < |events| ==> EventSigned(c, reserved, S, events[i])
  }

  ghost predicate MempoolSigned(c: Crypto, S: set<bytes>, m: Mempool) { forall h :: h in m ==> Signed(c, S, m[h]) }

  /** What a run starts from and keeps. */
  ghost predicate Started(cfg: Config, reserved: set<Address>, S: set<bytes>, s: Node, events: seq<Event>) {
    && NodeOk(cfg, reserved, s) && Reserves(cfg, reserved) && MempoolSigned(cfg.c, S, s.mempool)
    && EventsSigned(cfg.c, reserved, S, events) && Run(cfg, s, events).Ok?
  }

  lemma StepKeepsStarted(cfg: Config, reserved: set<Address>, S: set<bytes>, s: Node, events: seq<Event>)
    requires |events| > 0 && Started(cfg, reserved, S, s, events)
    ensures Step(cfg, s, events[0]).Ok? && EventSigned(cfg.c, reserved, S, events[0])
    ensures Started(cfg, reserved, S, Step(cfg, s, events[0]).value, events[1..])
  {
    hide NodeOk, Reserves, Step, Signed, EventOk;
    assert EventSigned(cfg.c, reserved, S, events[0]);
    StepKeepsNode(cfg, reserved, s, events[0]);
    StepKeepsMempoolSigned(cfg, S, s, events[0]);
  }

  lemma StepKeepsMempoolSigned(cfg: Config, S: set<bytes>, s: Node, e: Event)
    requires Step(cfg, s, e).Ok? && MempoolSigned(cfg.c, S, s.mempool) && (e.AddTx? ==> Signed(cfg.c, S, e.tx))
    ensures MempoolSigned(cfg.c, S, Step(cfg, s, e).value.mempool)
  {
    hide Signed, Validate, AcceptsAll, ProcessAll, Hashes, Passes, Tx.HashOf, AddBalance;
  }

  /** One hash, one transaction, or a collision among the run's signed forms. */
  lemma SameHashInRun(c: Crypto, S: set<bytes>, x: TxBlock, y: TxBlock)
    requires Signed(c, S, x) && Signed(c, S, y) && Tx.HashOf(c, x) == Tx.HashOf(c, y)
    ensures x == y || Collides(c.sha3, S)
  {
    hide Tx.HashOf, Tx.WellSigned, Tx.SignedForm, Collides;
    Tx.SameHash(c, x, y);
    if x != y { CollidesIsMonotone(c.sha3, {Tx.SignedForm(x), Tx.SignedForm(y)}, S); }
  }

  /** In an accepted block every transaction carries its sender's present nonce. */
  lemma AcceptedNonce(cfg: Config, reserved: set<Address>, S: set<bytes>, s: Node, txs: seq<TxBlock>, i: nat)
    requires NodeOk(cfg, reserved, s) && MempoolSigned(cfg.c, S, s.mempool)
    requires AcceptsAll(cfg.c, s.w.accounts, s.mempool, txs) && i < |txs| && Signed(cfg.c, S, txs[i])
    ensures txs[i].nonce == NonceOf(s.w.accounts, txs[i].from) || Collides(cfg.c.sha3, S)
  {
    hide NodeOk, AcceptsAll, CanPay, NonceOf, Collides, Tx.HashOf, Tx.WellSigned, Tx.SignedForm;
    var tx := txs[i];
    Payments.AcceptedTransactionsPass(cfg, reserved, s, txs, i);
    if HashClash(cfg.c, tx, s.mempool) {
      assert Signed(cfg.c, S, s.mempool[Tx.HashOf(cfg.c, tx)]);
      CollidesIsMonotone(cfg.c.sha3, {Tx.SignedForm(tx), Tx.SignedForm(s.mempool[Tx.HashOf(cfg.c, tx)])}, S);
    }
  }

  ghost predicate HasHash(c: Crypto, txs: seq<TxBlock>, h: Hash) {
    exists j :: 0 <= j < |txs| && Tx.HashOf(c, txs[j]) == h
  }

  ghost predicate NoneHas(c: Crypto, blocks: seq<seq<TxBlock>>, h: Hash) {
    forall k :: 0 <= k < |blocks| ==> !HasHash(c, blocks[k], h)
  }

  lemma NoneHere(c: Crypto, h: Hash)
    ensures NoneHas(c, [], h)
  {
  }

  lemma NoneHasCons(c: Crypto, first: seq<TxBlock>, rest: seq<seq<TxBlock>>, h: Hash)
    requires !HasHash(c, first, h) && NoneHas(c, rest, h)
    ensures NoneHas(c, [first] + rest, h)
  {
    hide HasHash;
  }

  /** Once the sender's nonce is past a transaction's, no accepted block has that transaction's hash. */
  lemma {:induction false} SpentIsNeverAccepted(cfg: Config, reserved: set<Address>, S: set<bytes>, s: Node,
    events: seq<Event>, tx: TxBlock)
    requires Started(cfg, reserved, S, s, events) && Signed(cfg.c, S, tx) && tx.from !in reserved
    requires tx.nonce < NonceOf(s.w.accounts, tx.from) && NonceOf(s.w.accounts, tx.from) + Executed(events) < U64
    ensures NoneHas(cfg.c, Accepted(cfg, s, events), Tx.HashOf(cfg.c, tx)) || Collides(cfg.c.sha3, S)
    decreases |events|
  {
    hide NodeOk, Reserves, MempoolSigned, Step, NonceOf, AcceptsAll, Collides, Tx.HashOf, Signed, EventOk, NoneHas;
    if |events| == 0 { NoneHere(cfg.c, Tx.HashOf(cfg.c, tx)); }
    if |events| > 0 && !Collides(cfg.c.sha3, S) {
      var e := events[0];
      StepKeepsStarted(cfg, reserved, S, s, events);
      StepKeepsNonce(cfg, reserved, s, e, tx.from);
      SpentIsNeverAccepted(cfg, reserved, S, Step(cfg, s, e).value, events[1..], tx);
      if e.NextBlock? && AcceptsAll(cfg.c, s.w.accounts, s.mempool, e.txs) {
        forall j | 0 <= j < |e.txs| ensures Tx.HashOf(cfg.c, e.txs[j]) != Tx.HashOf(cfg.c, tx) {
          AcceptedNonce(cfg, reserved, S, s, e.txs, j);
          if Tx.HashOf(cfg.c, e.txs[j]) == Tx.HashOf(cfg.c, tx) { SameHashInRun(cfg.c, S, e.txs[j], tx); }
        }
        NoneHasCons(cfg.c, e.txs, Accepted(cfg, Step(cfg, s, e).value, events[1..]), Tx.HashOf(cfg.c, tx));
      }
    }
  }

  ghost predicate NoSharedHash(c: Crypto, blocks: seq<seq<TxBlock>>) {
    forall i, k, h :: 0 <= i < k < |blocks| && HasHash(c, blocks[i], h) ==> !HasHash(c, blocks[k], h)
  }

  lemma NoSharedHashCons(c: Crypto, first: seq<TxBlock>, rest: seq<seq<TxBlock>>)
    requires NoSharedHash(c, rest)
    requires forall h :: HasHash(c, first, h) ==> NoneHas(c, rest, h)
    ensures NoSharedHash(c, [first] + rest)
  {
    hide HasHash;
  }

  /** No nonce wraps around in n more transactions. */
  ghost predicate NoncesFit(reserved: set<Address>, s: Node, n: nat) {
    forall a :: a !in reserved ==> NonceOf(s.w.accounts, a) + n < U64
  }

  lemma StepKeepsFit(cfg: Config, reserved: set<Address>, S: set<bytes>, s: Node, events: seq<Event>)
    requires |events| > 0 && Started(cfg, reserved, S, s, events) && NoncesFit(reserved, s, Executed(events))
    ensures Step(cfg, s, events[0]).Ok?
    ensures NoncesFit(reserved, Step(cfg, s, events[0]).value, Executed(events[1..]))
  {
    hide NodeOk, Reserves, MempoolSigned, Step, NonceOf, EventOk;
    StepKeepsStarted(cfg, reserved, S, s, events);
    var next := Step(cfg, s, events[0]).value;
    forall a | a !in reserved ensures NonceOf(next.w.accounts, a) + Executed(events[1..]) < U64 {
      assert NonceOf(s.w.accounts, a) + Executed(events) < U64;
      StepKeepsNonce(cfg, reserved, s, events[0], a);
    }
  }

  /** No later block has a hash of a block accepted now. */
  lemma NeverAgain(cfg: Config, reserved: set<Address>, S: set<bytes>, s: Node, events: seq<Event>, h: Hash)
    requires |events| > 0 && Started(cfg, reserved, S, s, events) && NoncesFit(reserved, s, Executed(events))
    requires events[0].NextBlock? && AcceptsAll(cfg.c, s.w.accounts, s.mempool, events[0].txs)
    requires HasHash(cfg.c, events[0].txs, h) && !Collides(cfg.c.sha3, S)
    ensures NoneHas(cfg.c, Accepted(cfg, Step(cfg, s, events[0]).value, events[1..]), h)
  {
    hide Reserves, MempoolSigned, Step, NonceOf, AcceptsAll, Collides, Signed, Healthy, MempoolOk, Tx.HashOf, NodeOk,
      NoneHas;
    var txs := events[0].txs;
    var j :| 0 <= j < |txs| && Tx.HashOf(cfg.c, txs[j]) == h;
    var tx := txs[j];
    StepKeepsStarted(cfg, reserved, S, s, events);
    StepKeepsFit(cfg, reserved, S, s, events);
    AcceptedNonce(cfg, reserved, S, s, txs, j);
    assert tx.from !in reserved;
    assert NonceOf(s.w.accounts, tx.from) + Executed(events) < U64;
    ExecutedNonce(cfg, reserved, s, txs, tx, j);
    SpentIsNeverAccepted(cfg, reserved, S, Step(cfg, s, events[0]).value, events[1..], tx);
  }

  /** Blocks accepted in one run share no transaction hash, or two signed forms of the run collide
      (before 2^64 transactions). */
  lemma {:induction false} AcceptedBlocksShareNothing(cfg: Config, reserved: set<Address>, S: set<bytes>, s: Node,
    events: seq<Event>)
    requires Started(cfg, reserved, S, s, events)
    requires NoncesFit(reserved, s, Executed(events))
    ensures NoSharedHash(cfg.c, Accepted(cfg, s, events)) || Collides(cfg.c.sha3, S)
    decreases |events|
  {
    hide NodeOk, Reserves, MempoolSigned, Step, NonceOf, AcceptsAll, Collides, HasHash, NoneHas, NoSharedHash, Signed,
      EventOk;
    if |events| == 0 {
      NothingShared(cfg.c);
    } else if !Collides(cfg.c.sha3, S) {
      var e, rest := events[0], events[1..];
      var next := Step(cfg, s, e).value;
      StepKeepsStarted(cfg, reserved, S, s, events);
      StepKeepsFit(cfg, reserved, S, s, events);
      AcceptedBlocksShareNothing(cfg, reserved, S, next, rest);
      if e.NextBlock? && AcceptsAll(cfg.c, s.w.accounts, s.mempool, e.txs) {
        var later := Accepted(cfg, next, rest);
        forall h | HasHash(cfg.c, e.txs, h) ensures NoneHas(cfg.c, later, h) {
          NeverAgain(cfg, reserved, S, s, events, h);
        }
        NoSharedHashCons(cfg.c, e.txs, later);
      }
    }
  }

  lemma NothingShared(c: Crypto)
    ensures NoSharedHash(c, [])
  {
  }

  // ----- What storage is given

  /** The history of a node: the genesis block, then the accepted blocks. */
  ghost predicate Records(hist: History, blocks: seq<seq<TxBlock>>) {
    |hist| == |blocks| + 1 && hist[0].txs == [] && forall i :: 0 <= i < |blocks| ==> hist[i + 1].txs == blocks[i]
  }

  lemma RecordedHash(c: Crypto, hist: History, blocks: seq<seq<TxBlock>>, i: int, j: int, h: Hash)
    requires Records(hist, blocks) && HasTx(c, hist, i, j, h)
    ensures 0 < i <= |blocks| && HasHash(c, blocks[i - 1], h)
  {
    hide Tx.HashOf;
    if i > 0 { assert hist[i - 1 + 1].txs == blocks[i - 1]; }
  }

  /** The history of the blocks accepted in a run has no transaction hash in two blocks, or two signed
      forms of the run collide: what lookups by transaction hash need. */
  lemma AcceptedHistorySharesNoTx(cfg: Config, reserved: set<Address>, S: set<bytes>, s: Node, events: seq<Event>,
    hist: History)
    requires Started(cfg, reserved, S, s, events) && NoncesFit(reserved, s, Executed(events))
    requires Records(hist, Accepted(cfg, s, events))
    ensures BlocksShareNoTx(cfg.c, hist) || Collides(cfg.c.sha3, S)
  {
    hide NodeOk, Reserves, MempoolSigned, EventsSigned, Run, NoncesFit, Accepted, Records, HasTx, HasHash, Collides;
    var blocks := Accepted(cfg, s, events);
    AcceptedBlocksShareNothing(cfg, reserved, S, s, events);
    if NoSharedHash(cfg.c, blocks) {
      forall i, j, k, l, h | HasTx(cfg.c, hist, i, j, h) && HasTx(cfg.c, hist, k, l, h) ensures i == k {
        RecordedHash(cfg.c, hist, blocks, i, j, h);
        RecordedHash(cfg.c, hist, blocks, k, l, h);
      }
    }
  }
}
