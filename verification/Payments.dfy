/** Which blocks can be paid for: validation looks at the accounts before the block, execution at the
    accounts along the way (State::validateTransactionInternal, State::validateNextBlock and
    State::processTransaction of src/core/state.cpp). */
module Payments {
  import opened Bytes
  import opened Crypto
  import opened World
  import opened State
  import Conservation
  import Tx

  /** What a's transactions cost together. */
  function Cost(txs: seq<TxBlock>, a: Address): (n: nat) {
    if |txs| == 0 then 0 else
      (if txs[0].from == a then txs[0].value + Fee(txs[0]) else 0) + Cost(txs[1..], a)
  }

  /** What transfers bring to a. */
  function Received(txs: seq<TxBlock>, a: Address): (n: nat) {
    if |txs| == 0 then 0 else (if txs[0].to == a then txs[0].value else 0) + Received(txs[1..], a)
  }

  /** Before the block every sender has what all their transactions in it cost. */
  ghost predicate Affordable(acc: Accounts, txs: seq<TxBlock>) {
    forall i :: 0 <= i < |txs| ==> Cost(txs, txs[i].from) <= BalanceOf(acc, txs[i].from)
  }

  /** Addresses the node itself answers for. */
  ghost predicate Closed(cfg: Config, reserved: set<Address>) {
    Reserves(cfg, reserved) && cfg.manager in reserved && cfg.protocol <= reserved
  }

  // ----- Enough before the block

  lemma AffordableFirst(acc: Accounts, txs: seq<TxBlock>)
    requires |txs| > 0 && Affordable(acc, txs)
    ensures CanPay(acc, txs[0])
  {
    hide BalanceOf, Fee;
    assert Cost(txs, txs[0].from) <= BalanceOf(acc, txs[0].from);
  }

  /** What is left after the first transaction still pays for the rest. */
  lemma AffordableRest(cfg: Config, reserved: set<Address>, w: World, txs: seq<TxBlock>)
    requires Healthy(reserved, w) && Outsiders(reserved, txs) && |txs| > 0 && Affordable(w.accounts, txs)
    requires ProcessTransaction(cfg, w, txs[0]).Ok?
    ensures Affordable(ProcessTransaction(cfg, w, txs[0]).value.accounts, txs[1..])
  {
    hide Healthy, ProcessTransaction, BalanceOf, NonceOf, Fee;
    var tx, rest := txs[0], txs[1..];
    var after := ProcessTransaction(cfg, w, tx).value.accounts;
    AffordableFirst(w.accounts, txs);
    NotAContract(reserved, w, tx.from);
    SenderPaysAtMost(cfg, w, tx);
    forall i | 0 <= i < |rest| ensures Cost(rest, rest[i].from) <= BalanceOf(after, rest[i].from) {
      var a := rest[i].from;
      assert rest[i] == txs[i + 1];
      assert Cost(txs, a) <= BalanceOf(w.accounts, a);
      NotAContract(reserved, w, a);
      TransactionEffects(cfg, w, tx, a);
    }
  }

  /** If the state before the block pays for it, then in this order, and so in any other, every debit
      is covered, no exception stops the node, and the total falls by the fees but for what is minted. */
  lemma {:induction false} AffordableBlockExecutes(cfg: Config, reserved: set<Address>, w: World, txs: seq<TxBlock>)
    requires Healthy(reserved, w) && Closed(cfg, reserved) && Outsiders(reserved, txs) && Affordable(w.accounts, txs)
    ensures ProcessAll(cfg, w, txs).Ok? && DebitsSucceed(cfg, w, txs)
    ensures Total(ProcessAll(cfg, w, txs).value.accounts) == Total(w.accounts) - Fees(txs) + Minted(cfg, w, txs)
    ensures Healthy(reserved, ProcessAll(cfg, w, txs).value)
    decreases |txs|
  {
    hide Healthy, Reserves, ProcessTransaction, Total, Mints, CanPay, Fee, Affordable;
    if |txs| > 0 {
      var tx := txs[0];
      AffordableFirst(w.accounts, txs);
      NotAContract(reserved, w, tx.from);
      PaidTransactionSucceeds(cfg, w, tx);
      TotalWithFee(cfg, w, tx);
      TransactionKeepsHealthy(cfg, reserved, w, tx);
      AffordableRest(cfg, reserved, w, txs);
      AffordableBlockExecutes(cfg, reserved, ProcessTransaction(cfg, w, tx).value, txs[1..]);
    }
  }

  /** The order does not matter: whether a block is affordable depends on its transactions alone. */
  lemma AffordableInAnyOrder(acc: Accounts, txs: seq<TxBlock>, other: seq<TxBlock>)
    requires multiset(txs) == multiset(other) && Affordable(acc, txs)
    ensures Affordable(acc, other)
  {
    hide BalanceOf, Fee;
    forall i | 0 <= i < |other| ensures Cost(other, other[i].from) <= BalanceOf(acc, other[i].from) {
      assert other[i] in multiset(other);
      var j :| 0 <= j < |txs| && txs[j] == other[i];
      CostOfPermutation(txs, other, other[i].from);
      assert Cost(txs, txs[j].from) <= BalanceOf(acc, txs[j].from);
    }
  }

  lemma {:induction false} CostOfPermutation(xs: seq<TxBlock>, ys: seq<TxBlock>, a: Address)
    requires multiset(xs) == multiset(ys)
    ensures Cost(xs, a) == Cost(ys, a)
    decreases |xs|
  {
    hide Cost;
    if |xs| == 0 {
      assert |multiset(ys)| == 0 && ys == xs;
    } else {
      assert xs[0] in multiset(ys);
      var i :| 0 <= i < |ys| && ys[i] == xs[0];
      Without(xs, 0, a);
      Without(ys, i, a);
      CostOfPermutation(xs[..0] + xs[1..], ys[..i] + ys[i + 1..], a);
    }
  }

  /** Taking one transaction out. */
  lemma Without(ys: seq<TxBlock>, i: nat, a: Address)
    requires i < |ys|
    ensures multiset(ys[..i] + ys[i + 1..]) == multiset(ys) - multiset{ys[i]}
    ensures Cost(ys, a) == Cost([ys[i]], a) + Cost(ys[..i] + ys[i + 1..], a)
  {
    hide Cost;
    var front, back := ys[..i], ys[i + 1..];
    assert ys == front + ([ys[i]] + back);
    CostOfConcat(front, [ys[i]] + back, a);
    CostOfConcat([ys[i]], back, a);
    CostOfConcat(front, back, a);
  }

  lemma {:induction false} CostOfConcat(xs: seq<TxBlock>, ys: seq<TxBlock>, a: Address)
    ensures Cost(xs + ys, a) == Cost(xs, a) + Cost(ys, a)
  {
    hide Fee;
    if |xs| == 0 {
      assert xs + ys == ys;
    } else {
      assert (xs + ys)[1..] == xs[1..] + ys;
      CostOfConcat(xs[1..], ys, a);
    }
  }

  lemma {:induction false} CostOfOthers(txs: seq<TxBlock>, a: Address)
    requires forall i :: 0 <= i < |txs| ==> txs[i].from != a
    ensures Cost(txs, a) == 0
  {
    if |txs| > 0 { CostOfOthers(txs[1..], a); }
  }

  lemma {:induction false} CostOfOnly(txs: seq<TxBlock>, i: nat)
    requires DistinctSenders(txs) && i < |txs|
    ensures Cost(txs, txs[i].from) == txs[i].value + Fee(txs[i])
  {
    hide Fee;
    if i == 0 {
      CostOfOthers(txs[1..], txs[0].from);
    } else {
      assert txs[1..][i - 1] == txs[i];
      CostOfOnly(txs[1..], i - 1);
    }
  }

  /** With one transaction per sender, what each can pay before the block is enough. */
  lemma PreStateValidationSuffices(cfg: Config, reserved: set<Address>, w: World, txs: seq<TxBlock>)
    requires Healthy(reserved, w) && Closed(cfg, reserved) && Outsiders(reserved, txs) && DistinctSenders(txs)
    requires forall i :: 0 <= i < |txs| ==> CanPay(w.accounts, txs[i])
    ensures ProcessAll(cfg, w, txs).Ok? && DebitsSucceed(cfg, w, txs)
    ensures Total(ProcessAll(cfg, w, txs).value.accounts) == Total(w.accounts) - Fees(txs) + Minted(cfg, w, txs)
  {
    hide Healthy, ProcessAll, DebitsSucceed, Minted, Total, Fee, BalanceOf, Outsiders, DistinctSenders;
    DistinctIsAffordable(w.accounts, txs);
    AffordableBlockExecutes(cfg, reserved, w, txs);
  }

  lemma DistinctIsAffordable(acc: Accounts, txs: seq<TxBlock>)
    requires DistinctSenders(txs) && forall i :: 0 <= i < |txs| ==> CanPay(acc, txs[i])
    ensures Affordable(acc, txs)
  {
    hide Fee, BalanceOf, DistinctSenders;
    forall i | 0 <= i < |txs| ensures Cost(txs, txs[i].from) <= BalanceOf(acc, txs[i].from) {
      CostOfOnly(txs, i);
      assert CanPay(acc, txs[i]);
    }
  }

  // ----- Exactly enough

  /** Transaction k finds its cost: what its sender had, and received before it, covers the sender's
      transactions up to it. */
  ghost predicate PaidAt(acc: Accounts, txs: seq<TxBlock>, k: nat)
    requires k < |txs|
  {
    Cost(txs[..k + 1], txs[k].from) <= BalanceOf(acc, txs[k].from) + Received(txs[..k], txs[k].from)
  }

  ghost predicate PaidInOrder(acc: Accounts, txs: seq<TxBlock>) {
    forall k :: 0 <= k < |txs| ==> PaidAt(acc, txs, k)
  }

  predicate Transfers(cfg: Config, w: World, txs: seq<TxBlock>) {
    forall i :: 0 <= i < |txs| ==> !IsContractCall(cfg, w.contracts, txs[i].to)
  }

  lemma PaidAtNext(cfg: Config, w: World, txs: seq<TxBlock>, k: nat)
    requires k + 1 < |txs| && CanPay(w.accounts, txs[0]) && !IsContractCall(cfg, w.contracts, txs[0].to)
    requires Total(w.accounts) < U256
    ensures PaidAt(w.accounts, txs, k + 1)
      <==> PaidAt(ProcessTransaction(cfg, w, txs[0]).value.accounts, txs[1..], k)
  {
    hide Total, BalanceOf, ProcessTransaction, Fee, CanPay, IsContractCall;
    var a := txs[k + 1].from;
    TransferEffects(cfg, w, txs[0], a);
    FeeIsGasTimesPrice(txs[0]);
    assert txs[..k + 2][1..] == txs[1..][..k + 1];
    assert txs[..k + 1][1..] == txs[1..][..k];
  }

  /** A block of transfers: every debit is covered if and only if every sender, when their turn comes,
      has what they had before the block plus what it brought them so far. */
  lemma {:induction false} TransfersArePaidExactly(cfg: Config, w: World, txs: seq<TxBlock>)
    requires Transfers(cfg, w, txs) && Total(w.accounts) < U256
    ensures DebitsSucceed(cfg, w, txs) <==> PaidInOrder(w.accounts, txs)
    decreases |txs|
  {
    hide Total, BalanceOf, ProcessTransaction, Fee, IsContractCall, PaidAt;
    if |txs| > 0 {
      var tx, rest := txs[0], txs[1..];
      PaidFirst(w.accounts, txs);
      if CanPay(w.accounts, tx) {
        TransferEffects(cfg, w, tx, tx.from);
        var next := ProcessTransaction(cfg, w, tx).value;
        TransfersArePaidExactly(cfg, next, rest);
        forall k: nat | k < |rest| ensures PaidAt(w.accounts, txs, k + 1) <==> PaidAt(next.accounts, rest, k) {
          PaidAtNext(cfg, w, txs, k);
        }
        ShiftPaid(w.accounts, next.accounts, txs);
      }
    }
  }

  lemma PaidFirst(acc: Accounts, txs: seq<TxBlock>)
    requires |txs| > 0
    ensures PaidAt(acc, txs, 0) <==> CanPay(acc, txs[0])
  {
    hide BalanceOf, Fee;
    assert txs[..1] == [txs[0]] && txs[..1][1..] == [] && txs[..0] == [];
    assert Cost(txs[..1], txs[0].from) == txs[0].value + Fee(txs[0]);
  }

  lemma ShiftPaid(before: Accounts, after: Accounts, txs: seq<TxBlock>)
    requires |txs| > 0 && PaidAt(before, txs, 0)
    requires forall k: nat :: k < |txs[1..]| ==> (PaidAt(before, txs, k + 1) <==> PaidAt(after, txs[1..], k))
    ensures PaidInOrder(before, txs) <==> PaidInOrder(after, txs[1..])
  {
    hide PaidAt;
    if PaidInOrder(after, txs[1..]) {
      forall k | 0 <= k < |txs| ensures PaidAt(before, txs, k) {
        if k > 0 { assert PaidAt(after, txs[1..], k - 1) <==> PaidAt(before, txs, k - 1 + 1); }
      }
    }
  }

  /** When nobody both sends and receives, the check against the state before the block is exact. */
  lemma AffordableIsExact(cfg: Config, w: World, txs: seq<TxBlock>)
    requires Transfers(cfg, w, txs) && Total(w.accounts) < U256
    requires forall i, j :: 0 <= i < |txs| && 0 <= j < |txs| ==> txs[i].from != txs[j].to
    ensures DebitsSucceed(cfg, w, txs) <==> Affordable(w.accounts, txs)
  {
    hide DebitsSucceed, BalanceOf, Total, Transfers, Cost, Received;
    TransfersArePaidExactly(cfg, w, txs);
    forall k: nat | k < |txs| ensures Received(txs[..k], txs[k].from) == 0 { NothingReceived(txs[..k], txs[k].from); }
    if PaidInOrder(w.accounts, txs) {
      AllArePaid(w.accounts, txs);
    } else {
      var k: nat :| k < |txs| && !PaidAt(w.accounts, txs, k);
      CostOfConcat(txs[..k + 1], txs[k + 1..], txs[k].from);
      assert txs == txs[..k + 1] + txs[k + 1..];
    }
  }

  lemma AllArePaid(acc: Accounts, txs: seq<TxBlock>)
    requires PaidInOrder(acc, txs)
    requires forall k: nat :: k < |txs| ==> Received(txs[..k], txs[k].from) == 0
    ensures Affordable(acc, txs)
  {
    hide PaidInOrder, BalanceOf, Cost, Received;
    forall i | 0 <= i < |txs| ensures Cost(txs, txs[i].from) <= BalanceOf(acc, txs[i].from) {
      assert txs[..|txs|] == txs;
      LastPaysForAll(acc, txs, |txs|, txs[i].from);
    }
  }

  lemma {:induction false} NothingReceived(txs: seq<TxBlock>, a: Address)
    requires forall i :: 0 <= i < |txs| ==> txs[i].to != a
    ensures Received(txs, a) == 0
  {
    if |txs| > 0 { NothingReceived(txs[1..], a); }
  }

  lemma {:induction false} LastPaysForAll(acc: Accounts, txs: seq<TxBlock>, n: nat, a: Address)
    requires n <= |txs| && PaidInOrder(acc, txs)
    requires forall k: nat :: k < |txs| ==> Received(txs[..k], txs[k].from) == 0
    ensures Cost(txs[..n], a) <= BalanceOf(acc, a)
    decreases n
  {
    hide BalanceOf, Fee;
    if n > 0 {
      assert PaidAt(acc, txs, n - 1);
      LastPaysForAll(acc, txs, n - 1, a);
      assert txs[..n] == txs[..n - 1] + [txs[n - 1]];
      CostOfConcat(txs[..n - 1], [txs[n - 1]], a);
    }
  }

  // ----- Blocks the node accepts

  /** Some transaction of the block shares its hash with a different one in the mempool. */
  ghost predicate SomeClash(c: Crypto, m: Mempool, txs: seq<TxBlock>) {
    exists i :: 0 <= i < |txs| && HashClash(c, txs[i], m)
  }

  /** What holds of a block that has been executed: no exception, every debit covered, every nonce up by
      the number of its owner's transactions, the total down by the fees but for what is minted, which is
      nothing exactly when no contract that will throw is sent value, and the node as good as before. */
  ghost predicate Executes(cfg: Config, reserved: set<Address>, s: Node, txs: seq<TxBlock>) {
    && Step(cfg, s, NextBlock(txs)).Ok? && DebitsSucceed(cfg, s.w, txs)
    && var after := Step(cfg, s, NextBlock(txs)).value;
      && NodeOk(cfg, reserved, after)
      && Total(after.w.accounts) == Total(s.w.accounts) - Fees(txs) + Minted(cfg, s.w, txs)
      && (Minted(cfg, s.w, txs) == 0 <==> Conservation.AllConserve(cfg, s.w, txs))
      && forall a :: a !in reserved && NonceOf(s.w.accounts, a) + |txs| < U64 ==>
        NonceOf(after.w.accounts, a) == NonceOf(s.w.accounts, a) + CountFrom(txs, a)
  }

  /** An accepted block that its senders can afford is executed as it should be. */
  lemma AffordableAcceptedBlock(cfg: Config, reserved: set<Address>, s: Node, txs: seq<TxBlock>)
    requires NodeOk(cfg, reserved, s) && Closed(cfg, reserved) && Outsiders(reserved, txs)
    requires AcceptsAll(cfg.c, s.w.accounts, s.mempool, txs) && Affordable(s.w.accounts, txs)
    ensures Executes(cfg, reserved, s, txs)
  {
    hide Healthy, Reserves, ProcessAll, DebitsSucceed, MempoolOk, Minted, Total, NonceOf, Affordable, Outsiders,
      AcceptsAll, Refreshed, Conservation.AllConserve;
    AffordableBlockExecutes(cfg, reserved, s.w, txs);
    Conservation.BlockConservesExactly(cfg, reserved, s.w, txs);
    StepKeepsNode(cfg, reserved, s, NextBlock(txs));
    forall a | a !in reserved && NonceOf(s.w.accounts, a) + |txs| < U64
      ensures NonceOf(ProcessAll(cfg, s.w, txs).value.accounts, a) == NonceOf(s.w.accounts, a) + CountFrom(txs, a)
    {
      NonceCounts(cfg, reserved, s.w, txs, a);
    }
  }

  /** In an accepted block every transaction carries its sender's nonce and is affordable by itself. */
  lemma AcceptedTransactionsPass(cfg: Config, reserved: set<Address>, s: Node, txs: seq<TxBlock>, i: nat)
    requires NodeOk(cfg, reserved, s) && AcceptsAll(cfg.c, s.w.accounts, s.mempool, txs)
    requires i < |txs| && Tx.WellSigned(cfg.c, txs[i])
    ensures (CanPay(s.w.accounts, txs[i]) && txs[i].nonce == NonceOf(s.w.accounts, txs[i].from))
      || HashClash(cfg.c, txs[i], s.mempool)
  {
    hide Healthy, Validate, FullCheck, Passes, CanPay, NonceOf, Tx.HashOf;
    MempoolOfNode(cfg, reserved, s);
    assert Validate(cfg.c, s.w.accounts, s.mempool, txs[i]) == Ok(NotInvalid);
    ShortcutIsSound(cfg.c, s.w.accounts, s.mempool, txs[i]);
    if !HashClash(cfg.c, txs[i], s.mempool) {
      PassesIsFullCheck(s.w.accounts, txs[i]);
      PassesMeansCanPay(s.w.accounts, txs[i]);
    }
  }

  /** With one transaction per sender, being accepted is all it takes. */
  lemma AcceptedBlockExecutes(cfg: Config, reserved: set<Address>, s: Node, txs: seq<TxBlock>)
    requires NodeOk(cfg, reserved, s) && Closed(cfg, reserved) && Outsiders(reserved, txs) && DistinctSenders(txs)
    requires forall i :: 0 <= i < |txs| ==> Tx.WellSigned(cfg.c, txs[i])
    requires AcceptsAll(cfg.c, s.w.accounts, s.mempool, txs)
    ensures Executes(cfg, reserved, s, txs) || SomeClash(cfg.c, s.mempool, txs)
  {
    hide NodeOk, Executes, HashClash, AcceptsAll, CanPay, NonceOf, Outsiders, DistinctSenders, Closed;
    if !SomeClash(cfg.c, s.mempool, txs) {
      forall i | 0 <= i < |txs| ensures CanPay(s.w.accounts, txs[i]) {
        AcceptedTransactionsPass(cfg, reserved, s, txs, i);
      }
      DistinctIsAffordable(s.w.accounts, txs);
      AffordableAcceptedBlock(cfg, reserved, s, txs);
    }
  }
}
