/** The state of a node between blocks: accounts, contracts and the mempool; validation against the
    state before a block, sequential execution of the block (src/core/state.cpp). */
module State {
  import opened Bytes
  import opened Crypto
  import opened Calls
  import opened Contracts
  import opened World
  import Tx

  type Mempool = map<Hash, TxBlock>

  // ----- Validation

  datatype Verdict = NotInvalid | InvalidBalance | InvalidNonce

  /** The check against the accounts; Err is an overflow exception. */
  function FullCheck(acc: Accounts, tx: TxBlock): (r: Result<Verdict>) {
    if tx.from !in acc then Ok(InvalidBalance)
    else if tx.value + Fee(tx) >= U256 then Err
    else if tx.value + Fee(tx) > acc[tx.from].balance then Ok(InvalidBalance)
    else if acc[tx.from].nonce != tx.nonce then Ok(InvalidNonce)
    else Ok(NotInvalid)
  }

  /** What the verdicts mean: the account holds value and fee and the nonce is its own; it holds them
      and the nonce is another; or, with an exception, they add up to more than any balance. */
  lemma VerdictMeans(acc: Accounts, tx: TxBlock)
    ensures var r, cost := FullCheck(acc, tx), tx.value + tx.gasLimit * tx.maxFeePerGas;
      && (r == Ok(NotInvalid) <==> tx.from in acc && cost <= acc[tx.from].balance && tx.nonce == acc[tx.from].nonce)
      && (r == Ok(InvalidNonce) <==> tx.from in acc && cost <= acc[tx.from].balance && tx.nonce != acc[tx.from].nonce)
      && (r == Err <==> tx.from in acc && cost >= U256)
  {
    FeeIsGasTimesPrice(tx);
  }

  predicate Passes(acc: Accounts, tx: TxBlock) { FullCheck(acc, tx) == Ok(NotInvalid) }

  /** What is in the mempool is accepted without a look at the accounts. */
  function Validate(c: Crypto, acc: Accounts, m: Mempool, tx: TxBlock): (r: Result<Verdict>) {
    if Tx.HashOf(c, tx) in m then Ok(NotInvalid) else FullCheck(acc, tx)
  }

  /** Everything in the mempool would pass the full check now. */
  ghost predicate MempoolOk(c: Crypto, acc: Accounts, m: Mempool) {
    forall h :: h in m ==> h == Tx.HashOf(c, m[h]) && Tx.WellSigned(c, m[h]) && Passes(acc, m[h])
  }

  /** The shortcut agrees with the slow check, or two signed transactions share a hash. */
  lemma ShortcutIsSound(c: Crypto, acc: Accounts, m: Mempool, tx: TxBlock)
    requires MempoolOk(c, acc, m) && Tx.WellSigned(c, tx)
    ensures Validate(c, acc, m, tx) == FullCheck(acc, tx)
         || (Tx.HashOf(c, tx) in m && Collides(c.sha3, {Tx.SignedForm(tx), Tx.SignedForm(m[Tx.HashOf(c, tx)])}))
  {
    var h := Tx.HashOf(c, tx);
    if h in m { Tx.SameHash(c, tx, m[h]); }
  }

  lemma PassesMeansCanPay(acc: Accounts, tx: TxBlock)
    requires Passes(acc, tx)
    ensures CanPay(acc, tx) && tx.nonce == NonceOf(acc, tx.from)
  {
  }

  // ----- Executing a block

  function ProcessAll(cfg: Config, w: World, txs: seq<TxBlock>): (r: Result<World>)
    decreases |txs|
  {
    if |txs| == 0 then Ok(w) else
      var next :- ProcessTransaction(cfg, w, txs[0]);
      ProcessAll(cfg, next, txs[1..])
  }

  /** Every debit along the way is covered. */
  ghost predicate DebitsSucceed(cfg: Config, w: World, txs: seq<TxBlock>)
    decreases |txs|
  {
    |txs| == 0 ||
      (CanPay(w.accounts, txs[0]) && (ProcessTransaction(cfg, w, txs[0]).Ok? ==>
        DebitsSucceed(cfg, ProcessTransaction(cfg, w, txs[0]).value, txs[1..])))
  }

  function Fees(txs: seq<TxBlock>): (n: nat) {
    if |txs| == 0 then 0 else Fee(txs[0]) + Fees(txs[1..])
  }

  /** Value minted along the way. */
  ghost function Minted(cfg: Config, w: World, txs: seq<TxBlock>): (n: nat)
    decreases |txs|
  {
    if |txs| == 0 || ProcessTransaction(cfg, w, txs[0]).Err? then 0 else
      (if Mints(cfg, w, txs[0]) then txs[0].value else 0)
      + Minted(cfg, ProcessTransaction(cfg, w, txs[0]).value, txs[1..])
  }

  predicate DistinctSenders(txs: seq<TxBlock>) {
    forall i, j :: 0 <= i < j < |txs| ==> txs[i].from != txs[j].from
  }

  ghost predicate Outsiders(reserved: set<Address>, txs: seq<TxBlock>) {
    forall i :: 0 <= i < |txs| ==> txs[i].from !in reserved
  }

  lemma NotAContract(reserved: set<Address>, w: World, a: Address)
    requires Healthy(reserved, w) && a !in reserved
    ensures a !in w.contracts
  {
    if a in w.contracts { IsReserved(reserved, w.contracts, a); }
  }

  /** A covered debit makes the whole transaction go through: the refund cannot overflow. */
  lemma PaidTransactionSucceeds(cfg: Config, w: World, tx: TxBlock)
    requires CanPay(w.accounts, tx) && tx.from !in w.contracts && tx.from != cfg.manager && tx.from !in cfg.protocol
    ensures ProcessTransaction(cfg, w, tx).Ok?
  {
    hide CallContract, SetBalance, BalanceOf, BumpNonce, Fee, IsPayable;
    var d := Debited(w.accounts, tx);
    BalanceAfterSet(w.accounts, tx.from, BalanceOf(w.accounts, tx.from) - (tx.value + Fee(tx)), tx.from);
    if BalanceOf(d, tx.to) + tx.value < U256 {
      var acc := SetBalance(d, tx.to, BalanceOf(d, tx.to) + tx.value);
      BalanceAfterSet(d, tx.to, BalanceOf(d, tx.to) + tx.value, tx.from);
      ThrowKeepsAccounts(cfg, Prepared(w, acc, tx), tx);
    }
  }

  lemma ThrowKeepsAccounts(cfg: Config, w: World, tx: TxBlock)
    ensures !CallContract(cfg, w, tx).Returned? ==> CallContract(cfg, w, tx).w.accounts == w.accounts
  {
    hide PayableCall, WrapperOpOf, TokenOpOf, WrapperStep, CallToken, NewContract, DeriveAddress;
  }

  function CountFrom(txs: seq<TxBlock>, a: Address): (n: nat) {
    if |txs| == 0 then 0 else (if txs[0].from == a then 1 else 0) + CountFrom(txs[1..], a)
  }

  /** A nonce counts the sender's transactions (until it wraps around at 2^64). */
  lemma {:induction false} NonceCounts(cfg: Config, reserved: set<Address>, w: World, txs: seq<TxBlock>, a: Address)
    requires Healthy(reserved, w) && Reserves(cfg, reserved) && Outsiders(reserved, txs) && a !in reserved
    requires ProcessAll(cfg, w, txs).Ok? && NonceOf(w.accounts, a) + |txs| < U64
    ensures NonceOf(ProcessAll(cfg, w, txs).value.accounts, a) == NonceOf(w.accounts, a) + CountFrom(txs, a)
    ensures Healthy(reserved, ProcessAll(cfg, w, txs).value) && CountFrom(txs, a) <= |txs|
    decreases |txs|
  {
    hide Healthy, Reserves, ProcessTransaction, NonceOf;
    if |txs| > 0 {
      var tx := txs[0];
      NotAContract(reserved, w, tx.from);
      NotAContract(reserved, w, a);
      TransactionEffects(cfg, w, tx, a);
      TransactionKeepsHealthy(cfg, reserved, w, tx);
      NonceCounts(cfg, reserved, ProcessTransaction(cfg, w, tx).value, txs[1..], a);
    }
  }

  lemma {:induction false} DistinctSendersCountOnce(txs: seq<TxBlock>, i: nat)
    requires DistinctSenders(txs) && i < |txs|
    ensures CountFrom(txs, txs[i].from) == 1
  {
    if i == 0 {
      NobodyElse(txs[1..], txs[0].from);
    } else {
      assert txs[1..][i - 1] == txs[i];
      DistinctSendersCountOnce(txs[1..], i - 1);
    }
  }

  lemma {:induction false} NobodyElse(txs: seq<TxBlock>, a: Address)
    requires forall i :: 0 <= i < |txs| ==> txs[i].from != a
    ensures CountFrom(txs, a) == 0
  {
    if |txs| > 0 { NobodyElse(txs[1..], a); }
  }

  lemma TotalWithFee(cfg: Config, w: World, tx: TxBlock)
    requires ProcessTransaction(cfg, w, tx).Ok? && tx.from !in w.contracts
    ensures Total(ProcessTransaction(cfg, w, tx).value.accounts) ==
      Total(w.accounts) - (if CanPay(w.accounts, tx) then Fee(tx) else 0) + if Mints(cfg, w, tx) then tx.value else 0
  {
    hide Total, ProcessTransaction, CanPay, Mints;
    TransactionTotal(cfg, w, tx);
  }

  /** With two transactions of one sender the check before the block is not enough: the second
      debit can fail, and then the value is created. */
  lemma TwoFromOneSenderMint(cfg: Config, w: World, m: Mempool, tx: TxBlock)
    requires Passes(w.accounts, tx) && 2 * (tx.value + Fee(tx)) > BalanceOf(w.accounts, tx.from) && tx.value > 0
    requires tx.to != tx.from && !IsContractCall(cfg, w.contracts, tx.to) && tx.from !in w.contracts
    requires BalanceOf(w.accounts, tx.to) + tx.value < U256
    ensures AcceptsAll(cfg.c, w.accounts, m, [tx, tx]) && !DebitsSucceed(cfg, w, [tx, tx])
    ensures ProcessAll(cfg, w, [tx, tx]).Ok?
    ensures Total(ProcessAll(cfg, w, [tx, tx]).value.accounts) == Total(w.accounts) - Fee(tx) + tx.value
  {
    hide BalanceOf, SetBalance, BumpNonce, Fee, Total, CallContract, IsPayable;
    PassesMeansCanPay(w.accounts, tx);
    var one := ProcessTransaction(cfg, w, tx);
    var d := Debited(w.accounts, tx);
    var b: u256 := BalanceOf(w.accounts, tx.from) - (tx.value + Fee(tx));
    BalanceAfterSet(w.accounts, tx.from, b, tx.to);
    BalanceAfterSet(w.accounts, tx.from, b, tx.from);
    BalanceAfterSet(d, tx.to, BalanceOf(d, tx.to) + tx.value, tx.from);
    BalanceAfterBump(SetBalance(d, tx.to, BalanceOf(d, tx.to) + tx.value), tx.from, tx.from);
    assert !CanPay(one.value.accounts, tx);
    TotalWithFee(cfg, w, tx);
    TotalWithFee(cfg, one.value, tx);
    assert [tx, tx][1..] == [tx] && [tx][1..] == [];
    assert ProcessAll(cfg, one.value, [tx]) == ProcessAll(cfg, ProcessTransaction(cfg, one.value, tx).value, []);
  }

  // ----- Runs

  datatype Node = Node(w: World, mempool: Mempool)

  datatype Event = AddTx(tx: TxBlock) | NextBlock(txs: seq<TxBlock>) | Fund(a: Address)

  predicate AcceptsAll(c: Crypto, acc: Accounts, m: Mempool, txs: seq<TxBlock>) {
    forall i :: 0 <= i < |txs| ==> Validate(c, acc, m, txs[i]) == Ok(NotInvalid)
  }

  function Hashes(c: Crypto, txs: seq<TxBlock>): (S: set<Hash>) { set tx | tx in txs :: Tx.HashOf(c, tx) }

  /** `refreshMempool`: what is not in the block and still passes. */
  function Refreshed(c: Crypto, acc: Accounts, m: Mempool, txs: seq<TxBlock>): (r: Mempool) {
    map h | h in m && h !in Hashes(c, txs) && Passes(acc, m[h]) :: m[h]
  }

  /** A refused transaction or block changes nothing.  A block of which one refund overflows stops
      the node. */
  function Step(cfg: Config, s: Node, e: Event): (r: Result<Node>) {
    match e
    case AddTx(tx) =>
      if Validate(cfg.c, s.w.accounts, s.mempool, tx) != Ok(NotInvalid) || Tx.HashOf(cfg.c, tx) in s.mempool then Ok(s)
      else Ok(s.(mempool := s.mempool[Tx.HashOf(cfg.c, tx) := tx]))
    case NextBlock(txs) =>
      if !AcceptsAll(cfg.c, s.w.accounts, s.mempool, txs) then Ok(s) else
        var w :- ProcessAll(cfg, s.w, txs);
        Ok(Node(w, Refreshed(cfg.c, w.accounts, s.mempool, txs)))
    case Fund(a) => Ok(s.(w := AddBalance(s.w, a)))
  }

  /** Exactly what the account can pay in turn is taken into the mempool; nothing else is touched. */
  lemma AddedExactly(cfg: Config, s: Node, tx: TxBlock, h: Hash)
    ensures Step(cfg, s, AddTx(tx)).Ok? && Step(cfg, s, AddTx(tx)).value.w == s.w
    ensures var m, id, acc := Step(cfg, s, AddTx(tx)).value.mempool, cfg.c.sha3(Tx.Serialize(tx, true)), s.w.accounts;
      && (h != id || h in s.mempool ==> (h in m <==> h in s.mempool) && (h in m ==> m[h] == s.mempool[h]))
      && (h == id && h !in s.mempool ==> (h in m <==> CanPayNext(acc, tx)) && (h in m ==> m[h] == tx))
  {
    hide FullCheck, CanPay, Tx.Serialize;
    VerdictMeans(s.w.accounts, tx);
  }

  predicate CanPayNext(acc: Accounts, tx: TxBlock) {
    && tx.from in acc && tx.nonce == acc[tx.from].nonce
    && tx.value + tx.gasLimit * tx.maxFeePerGas <= acc[tx.from].balance
  }

  predicate NoneIs(c: Crypto, txs: seq<TxBlock>, h: Hash) {
    forall i :: 0 <= i < |txs| ==> c.sha3(Tx.Serialize(txs[i], true)) != h
  }

  lemma HashesMean(c: Crypto, txs: seq<TxBlock>, h: Hash)
    ensures h in Hashes(c, txs) <==> !NoneIs(c, txs, h)
  {
    hide Tx.Serialize;
    if !NoneIs(c, txs, h) {
      var i :| 0 <= i < |txs| && c.sha3(Tx.Serialize(txs[i], true)) == h;
      assert Tx.HashOf(c, txs[i]) == h;
    }
  }

  /** After a block the mempool holds exactly what it held, was not in the block and can be paid in turn
      from the new accounts. */
  lemma RefreshedExactly(cfg: Config, s: Node, txs: seq<TxBlock>, h: Hash)
    requires AcceptsAll(cfg.c, s.w.accounts, s.mempool, txs) && ProcessAll(cfg, s.w, txs).Ok?
    ensures Step(cfg, s, NextBlock(txs)).Ok?
    ensures var r := Step(cfg, s, NextBlock(txs)).value;
      && r.w == ProcessAll(cfg, s.w, txs).value
      && (h in r.mempool <==> h in s.mempool && CanPayNext(r.w.accounts, s.mempool[h]) && NoneIs(cfg.c, txs, h))
      && (h in r.mempool ==> r.mempool[h] == s.mempool[h])
  {
    hide FullCheck, CanPay, Tx.Serialize, ProcessAll, Validate;
    if h in s.mempool { VerdictMeans(ProcessAll(cfg, s.w, txs).value.accounts, s.mempool[h]); }
    HashesMean(cfg.c, txs, h);
  }

  ghost predicate NodeOk(cfg: Config, reserved: set<Address>, s: Node) {
    Healthy(reserved, s.w) && MempoolOk(cfg.c, s.w.accounts, s.mempool)
  }

  /** Transactions are signed by whoever they say, and never by a contract. */
  ghost predicate EventOk(c: Crypto, reserved: set<Address>, e: Event) {
    match e
    case AddTx(tx) => Tx.WellSigned(c, tx)
    case NextBlock(txs) => Outsiders(reserved, txs)
    case Fund(_) => true
  }

  lemma FundKeepsMempool(c: Crypto, w: World, m: Mempool, a: Address)
    requires MempoolOk(c, w.accounts, m)
    ensures MempoolOk(c, AddBalance(w, a).accounts, m)
  {
    hide Tx.HashOf, Fee;
    forall h | h in m ensures Passes(AddBalance(w, a).accounts, m[h]) {
      assert Passes(w.accounts, m[h]);
    }
  }

  lemma {:induction false} BlockKeepsHealthy(cfg: Config, reserved: set<Address>, w: World, txs: seq<TxBlock>)
    requires Healthy(reserved, w) && Reserves(cfg, reserved) && Outsiders(reserved, txs) && ProcessAll(cfg, w, txs).Ok?
    ensures Healthy(reserved, ProcessAll(cfg, w, txs).value)
    decreases |txs|
  {
    hide Healthy, Reserves, ProcessTransaction;
    if |txs| > 0 {
      TransactionKeepsHealthy(cfg, reserved, w, txs[0]);
      BlockKeepsHealthy(cfg, reserved, ProcessTransaction(cfg, w, txs[0]).value, txs[1..]);
    }
  }

  /** In every reachable state each mempool transaction would pass full validation. */
  lemma StepKeepsNode(cfg: Config, reserved: set<Address>, s: Node, e: Event)
    requires NodeOk(cfg, reserved, s) && Reserves(cfg, reserved) && EventOk(cfg.c, reserved, e) && Step(cfg, s, e).Ok?
    ensures NodeOk(cfg, reserved, Step(cfg, s, e).value)
  {
    hide Healthy, Reserves, ProcessAll, Tx.HashOf, Passes, FullCheck, AddBalance, Outsiders, Hashes;
    match e
    case AddTx(tx) => PassesIsFullCheck(s.w.accounts, tx);
    case NextBlock(txs) =>
      if AcceptsAll(cfg.c, s.w.accounts, s.mempool, txs) { BlockKeepsHealthy(cfg, reserved, s.w, txs); }
    case Fund(a) => AddBalanceKeepsHealthy(reserved, s.w, a); FundKeepsMempool(cfg.c, s.w, s.mempool, a);
  }

  lemma PassesIsFullCheck(acc: Accounts, tx: TxBlock)
    ensures FullCheck(acc, tx) == Ok(NotInvalid) <==> Passes(acc, tx)
  {
  }

  function Run(cfg: Config, s: Node, events: seq<Event>): (r: Result<Node>)
    decreases |events|
  {
    if |events| == 0 then Ok(s) else
      var next :- Step(cfg, s, events[0]);
      Run(cfg, next, events[1..])
  }

  /** Transactions executed in a run. */
  function Executed(events: seq<Event>): (n: nat) {
    if |events| == 0 then 0 else (if events[0].NextBlock? then |events[0].txs| else 0) + Executed(events[1..])
  }

  /** Nonces never go down (before 2^64 transactions). */
  lemma StepKeepsNonce(cfg: Config, reserved: set<Address>, s: Node, e: Event, a: Address)
    requires NodeOk(cfg, reserved, s) && Reserves(cfg, reserved) && EventOk(cfg.c, reserved, e)
    requires Step(cfg, s, e).Ok? && a !in reserved
    requires NonceOf(s.w.accounts, a) + (if e.NextBlock? then |e.txs| else 0) < U64
    ensures var n := NonceOf(Step(cfg, s, e).value.w.accounts, a);
      NonceOf(s.w.accounts, a) <= n <= NonceOf(s.w.accounts, a) + (if e.NextBlock? then |e.txs| else 0)
  {
    hide Healthy, Reserves, ProcessAll, Tx.HashOf, MempoolOk, NonceOf, Outsiders, Refreshed, Validate;
    match e
    case AddTx(tx) =>
    case NextBlock(txs) =>
      if AcceptsAll(cfg.c, s.w.accounts, s.mempool, txs) { NonceCounts(cfg, reserved, s.w, txs, a); }
    case Fund(b) => FundKeepsNonces(s.w, b, a);
  }

  lemma FundKeepsNonces(w: World, b: Address, a: Address)
    ensures NonceOf(AddBalance(w, b).accounts, a) == NonceOf(w.accounts, a)
  {
  }

  lemma {:induction false} RunKeepsNonce(cfg: Config, reserved: set<Address>, s: Node, events: seq<Event>, a: Address)
    requires NodeOk(cfg, reserved, s) && Reserves(cfg, reserved) && Run(cfg, s, events).Ok? && a !in reserved
    requires forall i :: 0 <= i < |events| ==> EventOk(cfg.c, reserved, events[i])
    requires NonceOf(s.w.accounts, a) + Executed(events) < U64
    ensures NodeOk(cfg, reserved, Run(cfg, s, events).value)
    ensures NonceOf(s.w.accounts, a) <= NonceOf(Run(cfg, s, events).value.w.accounts, a)
    decreases |events|
  {
    hide NodeOk, Reserves, EventOk, Step, NonceOf;
    if |events| > 0 {
      StepKeepsNode(cfg, reserved, s, events[0]);
      StepKeepsNonce(cfg, reserved, s, events[0], a);
      RunKeepsNonce(cfg, reserved, Step(cfg, s, events[0]).value, events[1..], a);
    }
  }

  /** The mempool holds a different transaction under this one's hash. */
  ghost predicate HashClash(c: Crypto, tx: TxBlock, m: Mempool) {
    Tx.HashOf(c, tx) in m && Collides(c.sha3, {Tx.SignedForm(tx), Tx.SignedForm(m[Tx.HashOf(c, tx)])})
  }

  ghost predicate Refused(c: Crypto, s: Node, tx: TxBlock) {
    !Passes(s.w.accounts, tx) && Validate(c, s.w.accounts, s.mempool, tx) != Ok(NotInvalid)
  }

  /** A transaction accepted in one block is refused ever after. */
  lemma NoReplay(cfg: Config, reserved: set<Address>, s: Node, txs: seq<TxBlock>, events: seq<Event>, tx: TxBlock)
    requires NodeOk(cfg, reserved, s) && Reserves(cfg, reserved) && Outsiders(reserved, txs)
    requires tx in txs && Tx.WellSigned(cfg.c, tx) && AcceptsAll(cfg.c, s.w.accounts, s.mempool, txs)
    requires Run(cfg, s, [NextBlock(txs)] + events).Ok?
    requires forall i :: 0 <= i < |events| ==> EventOk(cfg.c, reserved, events[i])
    requires NonceOf(s.w.accounts, tx.from) + |txs| + Executed(events) < U64
    ensures var after := Run(cfg, s, [NextBlock(txs)] + events).value;
      Refused(cfg.c, after, tx) || HashClash(cfg.c, tx, s.mempool) || HashClash(cfg.c, tx, after.mempool)
  {
    hide NodeOk, Reserves, NonceOf, Validate, Step, ProcessAll, Passes, FullCheck;
    var all := [NextBlock(txs)] + events;
    assert all[0] == NextBlock(txs) && all[1..] == events;
    var next := Step(cfg, s, NextBlock(txs)).value;
    var i :| 0 <= i < |txs| && txs[i] == tx;
    MempoolOfNode(cfg, reserved, s);
    ShortcutIsSound(cfg.c, s.w.accounts, s.mempool, tx);
    if !HashClash(cfg.c, tx, s.mempool) {
      PassesIsFullCheck(s.w.accounts, tx);
      ExecutedNonce(cfg, reserved, s, txs, tx, i);
      StepKeepsNode(cfg, reserved, s, NextBlock(txs));
      RunKeepsNonce(cfg, reserved, next, events, tx.from);
      var after := Run(cfg, next, events).value;
      LaterNonceFails(s.w.accounts, after.w.accounts, tx);
      PassesIsFullCheck(after.w.accounts, tx);
      MempoolOfNode(cfg, reserved, after);
      ShortcutIsSound(cfg.c, after.w.accounts, after.mempool, tx);
    }
  }

  lemma MempoolOfNode(cfg: Config, reserved: set<Address>, s: Node)
    requires NodeOk(cfg, reserved, s)
    ensures MempoolOk(cfg.c, s.w.accounts, s.mempool)
  {
  }

  lemma ExecutedNonce(cfg: Config, reserved: set<Address>, s: Node, txs: seq<TxBlock>, tx: TxBlock, i: nat)
    requires NodeOk(cfg, reserved, s) && Reserves(cfg, reserved) && Outsiders(reserved, txs)
    requires i < |txs| && txs[i] == tx && AcceptsAll(cfg.c, s.w.accounts, s.mempool, txs)
    requires Step(cfg, s, NextBlock(txs)).Ok? && NonceOf(s.w.accounts, tx.from) + |txs| < U64
    ensures var n := NonceOf(Step(cfg, s, NextBlock(txs)).value.w.accounts, tx.from);
      NonceOf(s.w.accounts, tx.from) + 1 <= n <= NonceOf(s.w.accounts, tx.from) + |txs|
  {
    hide Healthy, Reserves, ProcessAll, MempoolOk, NonceOf, Refreshed, Validate;
    NonceCounts(cfg, reserved, s.w, txs, tx.from);
    CountsSender(txs, i);
  }

  lemma {:induction false} CountsSender(txs: seq<TxBlock>, i: nat)
    requires i < |txs|
    ensures CountFrom(txs, txs[i].from) >= 1
  {
    if i > 0 {
      assert txs[1..][i - 1] == txs[i];
      CountsSender(txs[1..], i - 1);
    }
  }

  lemma LaterNonceFails(before: Accounts, after: Accounts, tx: TxBlock)
    requires Passes(before, tx) && NonceOf(after, tx.from) > NonceOf(before, tx.from)
    ensures !Passes(after, tx)
  {
  }
}
