/** When native value is created: a contract call that throws keeps the credit its sender gets back
    (the exception handler of State::processTransaction, src/core/state.cpp).  Which calls throw can be
    read off the world before the transaction. */
module Conservation {
  import opened Bytes
  import opened Ledger
  import opened Contracts
  import opened Calls
  import opened World
  import opened Transactions
  import opened State
  import Abi

  // ----- Which calls return

  /** The token lets the caller do it. */
  predicate TokenAllows(t: Token, caller: Address, op: TokenOp) {
    match op
    case Transfer(_, v) => v <= Get(t.balances, caller)
    case Approve(_, _) => true
    case TransferFrom(from, _, v) => v <= Allowance(t, from, caller) && v <= Get(t.balances, from)
  }

  /** The wrapper lets the caller do it. */
  predicate WrapperAllows(cs: Contracts, self: Address, caller: Address, op: WrapperOp)
    requires IsWrapper(cs, self)
  {
    match op
    case Withdraw(token, v) => v < Entry(cs, self, token, caller)
    case TransferTo(token, _, v) => v < Entry(cs, self, token, caller)
    case Deposit(token, v) => IsToken(cs, token) && TokenAllows(cs[token].token, self, TransferFrom(caller, self, v))
  }

  /** What the sender has left once value and fee are paid. */
  function Left(acc: Accounts, tx: TxBlock): (n: u256)
    requires CanPay(acc, tx)
  {
    BalanceOf(acc, tx.from) - (tx.value + Fee(tx))
  }

  /** A native wrapper pays out what the sender has in tokens, but no more than the sender's account
      holds after paying for the transaction. */
  predicate PaysOut(w: World, t: Token, tx: TxBlock, v: u256)
    requires CanPay(w.accounts, tx)
  {
    v <= Get(t.balances, tx.from) && v <= Left(w.accounts, tx) && Left(w.accounts, tx) + v < U256
  }

  /** The call will return: its data names a function of the contract it is sent to, and the guards of
      that function hold before the transaction. */
  predicate Callable(cfg: Config, w: World, tx: TxBlock)
    requires CanPay(w.accounts, tx)
  {
    if tx.to == cfg.manager then
      var a := DeriveAddress(cfg.c, tx.from, |w.contracts|);
      tx.from == cfg.creator && a !in w.contracts && a !in cfg.protocol && NewContract(tx.data, tx.from).Ok?
    else if tx.to in cfg.protocol || tx.to !in w.contracts then false
    else if w.contracts[tx.to].Wrapper? then
      WrapperOpOf(tx.data).Ok? && WrapperAllows(w.contracts, tx.to, tx.from, WrapperOpOf(tx.data).value)
    else if w.contracts[tx.to].Native? && Functor(tx.data) == NATIVE_DEPOSIT then true
    else if w.contracts[tx.to].Native? && Functor(tx.data) == NATIVE_WITHDRAW then
      WithdrawalOf(tx.data).Ok? && PaysOut(w, w.contracts[tx.to].token, tx, WithdrawalOf(tx.data).value)
    else
      TokenOpOf(tx.data).Ok? && TokenAllows(w.contracts[tx.to].token, tx.from, TokenOpOf(tx.data).value)
  }

  /** The receiver's balance has room for the value. */
  predicate Room(acc: Accounts, tx: TxBlock)
    requires CanPay(acc, tx)
  {
    BalanceOf(Debited(acc, tx), tx.to) + tx.value < U256
  }

  /** The world the call starts from. */
  function Credited(w: World, tx: TxBlock): (p: World)
    requires CanPay(w.accounts, tx) && Room(w.accounts, tx)
  {
    var d := Debited(w.accounts, tx);
    Prepared(w, SetBalance(d, tx.to, BalanceOf(d, tx.to) + tx.value), tx)
  }

  lemma TokenReturns(t: Token, caller: Address, op: TokenOp)
    requires Sum(t.balances) < U256
    ensures TokenStep(t, caller, op).Ok? <==> TokenAllows(t, caller, op)
  {
    hide Sum, Move, Allowance, SetAllowance;
    match op
    case Transfer(to, v) => MoveSucceeds(t.balances, caller, to, v);
    case Approve(_, _) =>
    case TransferFrom(from, to, v) => MoveSucceeds(t.balances, from, to, v);
  }

  /** Tokens of an ERC20 sum to its supply, those of a native wrapper to no more than its balance. */
  lemma TokensFit(reserved: set<Address>, w: World, t: Address)
    requires Healthy(reserved, w) && IsToken(w.contracts, t)
    ensures Sum(w.contracts[t].token.balances) < U256
  {
    hide Sum, NoApprovals, Solvent, Known;
    assert w.contracts[t].Erc20? || w.contracts[t].Native?;
  }

  lemma CallReturns(reserved: set<Address>, w: World, at: Address, caller: Address, op: TokenOp)
    requires Healthy(reserved, w) && IsToken(w.contracts, at)
    ensures CallToken(w.contracts, at, caller, op).1 <==> TokenAllows(w.contracts[at].token, caller, op)
  {
    hide Healthy, TokenStep, TokenAllows, Sum;
    TokensFit(reserved, w, at);
    TokenReturns(w.contracts[at].token, caller, op);
  }

  lemma WrapperReturns(reserved: set<Address>, w: World, self: Address, caller: Address, op: WrapperOp)
    requires Healthy(reserved, w) && IsWrapper(w.contracts, self) && caller !in reserved
    ensures WrapperStep(w.contracts, self, caller, op).1 <==> WrapperAllows(w.contracts, self, caller, op)
  {
    hide Healthy, Sound, PayOut, TakeIn, Entry, TokenAllows, CallToken, Sum;
    var cs := w.contracts;
    HealthyIsSound(reserved, w);
    forall t | IsToken(cs, t) ensures Sum(cs[t].token.balances) < U256 { TokensFit(reserved, w, t); }
    match op
    case Withdraw(token, v) => PayOutSucceeds(reserved, cs, self, caller, token, caller, v);
    case TransferTo(token, to, v) => PayOutSucceeds(reserved, cs, self, caller, token, to, v);
    case Deposit(token, v) => TakeInReturns(reserved, w, self, caller, token, v);
  }

  lemma HealthyIsSound(reserved: set<Address>, w: World)
    requires Healthy(reserved, w)
    ensures Sound(reserved, w.contracts) && Backed(w.accounts, w.contracts)
  {
  }

  lemma TakeInReturns(reserved: set<Address>, w: World, self: Address, user: Address, token: Address, v: u256)
    requires Healthy(reserved, w) && IsWrapper(w.contracts, self) && user !in reserved
    ensures TakeIn(w.contracts, self, user, token, v).1
      <==> IsToken(w.contracts, token) && TokenAllows(w.contracts[token].token, self, TransferFrom(user, self, v))
  {
    hide Healthy, Sound, Entry, TokenAllows, SetEntry, TokenStep;
    HealthyIsSound(reserved, w);
    IsReserved(reserved, w.contracts, self);
    TakeInKeepsSound(reserved, w.contracts, self, user, token, v);
    if IsToken(w.contracts, token) { CallReturns(reserved, w, token, self, TransferFrom(user, self, v)); }
  }

  // ----- Calls of a native wrapper

  lemma LeftAfterCredit(w: World, tx: TxBlock)
    requires CanPay(w.accounts, tx) && Room(w.accounts, tx) && tx.from != tx.to
    ensures BalanceOf(Credited(w, tx).accounts, tx.from) == Left(w.accounts, tx)
    ensures BalanceOf(Credited(w, tx).accounts, tx.to) == BalanceOf(w.accounts, tx.to) + tx.value
  {
    hide BalanceOf, SetBalance, Fee, IsPayable;
    var d := Debited(w.accounts, tx);
    BalanceAfterSet(w.accounts, tx.from, Left(w.accounts, tx), tx.from);
    BalanceAfterSet(w.accounts, tx.from, Left(w.accounts, tx), tx.to);
    BalanceAfterSet(d, tx.to, BalanceOf(d, tx.to) + tx.value, tx.from);
    BalanceAfterSet(d, tx.to, BalanceOf(d, tx.to) + tx.value, tx.to);
  }

  lemma TokensAreBacked(reserved: set<Address>, w: World, n: Address, holder: Address)
    requires Healthy(reserved, w) && n in w.contracts && w.contracts[n].Native?
    ensures Get(w.contracts[n].token.balances, holder) <= BalanceOf(w.accounts, n)
  {
    hide Sound, Sum, BalanceOf;
    SumBoundsEach(w.contracts[n].token.balances, holder);
  }

  /** A deposit always returns; a withdrawal when the wrapper pays out. */
  lemma NativeReturns(reserved: set<Address>, w: World, tx: TxBlock)
    requires Healthy(reserved, w) && tx.from !in reserved && CanPay(w.accounts, tx) && Room(w.accounts, tx)
    requires tx.to in w.contracts && IsPayable(w.contracts, tx.to, tx.data)
    ensures CallPayable(Credited(w, tx), tx).Returned? <==>
      Functor(tx.data) == NATIVE_DEPOSIT
      || (WithdrawalOf(tx.data).Ok? && PaysOut(w, w.contracts[tx.to].token, tx, WithdrawalOf(tx.data).value))
  {
    hide Healthy, BalanceOf, SetBalance, Debited, Left, CanPay, Room, Functor, WithdrawalOf, SendTokens, Install, Fee;
    HealthyIsSound(reserved, w);
    IsReserved(reserved, w.contracts, tx.to);
    TokensAreBacked(reserved, w, tx.to, tx.from);
    LeftAfterCredit(w, tx);
    BalanceFits(Credited(w, tx).accounts, tx.to);
    if WithdrawalOf(tx.data).Ok? {
      SendSucceeds(Credited(w, tx).accounts, tx.to, tx.from, WithdrawalOf(tx.data).value);
    }
  }

  lemma BalanceFits(acc: Accounts, a: Address)
    ensures BalanceOf(acc, a) < U256
  {
  }

  // ----- All calls

  /** A call returns if and only if it is callable, whatever contract and whatever data. */
  lemma ReturnsIffCallable(cfg: Config, reserved: set<Address>, w: World, tx: TxBlock)
    requires Healthy(reserved, w) && tx.from !in reserved && CanPay(w.accounts, tx) && Room(w.accounts, tx)
    ensures CallContract(cfg, Credited(w, tx), tx).Returned? <==> Callable(cfg, w, tx)
  {
    hide Healthy, BalanceOf, SetBalance, Debited, CanPay, Room, CallPayable, WrapperOpOf, TokenOpOf, WithdrawalOf,
      WrapperStep, CallToken, WrapperAllows, TokenAllows, PaysOut, NewContract, DeriveAddress, Functor;
    if tx.to != cfg.manager && tx.to !in cfg.protocol && tx.to in w.contracts {
      if IsPayable(w.contracts, tx.to, tx.data) {
        NativeReturns(reserved, w, tx);
      } else if w.contracts[tx.to].Wrapper? {
        if WrapperOpOf(tx.data).Ok? { WrapperReturns(reserved, w, tx.to, tx.from, WrapperOpOf(tx.data).value); }
      } else if TokenOpOf(tx.data).Ok? {
        CallReturns(reserved, w, tx.to, tx.from, TokenOpOf(tx.data).value);
      }
    }
  }

  // ----- Conservation

  /** The sender can pay, and a contract that is sent value, and has room for it, takes the call. */
  predicate Conserves(cfg: Config, w: World, tx: TxBlock) {
    CanPay(w.accounts, tx)
    && (IsContractCall(cfg, w.contracts, tx.to) && tx.value > 0 && Room(w.accounts, tx) ==> Callable(cfg, w, tx))
  }

  /** The total falls by the fee if and only if the transaction conserves; otherwise it falls by less. */
  lemma FeeIffConserves(cfg: Config, reserved: set<Address>, w: World, tx: TxBlock)
    requires Healthy(reserved, w) && tx.from !in reserved && ProcessTransaction(cfg, w, tx).Ok?
    ensures var after := Total(ProcessTransaction(cfg, w, tx).value.accounts);
      after >= Total(w.accounts) - Fee(tx) && (after == Total(w.accounts) - Fee(tx) <==> Conserves(cfg, w, tx))
  {
    hide Healthy, Total, ProcessTransaction, BalanceOf, SetBalance, Debited, CallContract, Callable, IsPayable;
    NotAContract(reserved, w, tx.from);
    TransactionTotal(cfg, w, tx);
    if CanPay(w.accounts, tx) {
      if Room(w.accounts, tx) { ReturnsIffCallable(cfg, reserved, w, tx); }
    } else {
      UnpaidCosts(w.accounts, tx);
    }
  }

  lemma UnpaidCosts(acc: Accounts, tx: TxBlock)
    requires !CanPay(acc, tx)
    ensures tx.value + Fee(tx) > 0
  {
  }

  /** The world in which transaction k of a block is executed. */
  function Before(cfg: Config, w: World, txs: seq<TxBlock>, k: nat): (r: Result<World>)
    requires k <= |txs|
  {
    ProcessAll(cfg, w, txs[..k])
  }

  ghost predicate AllConserve(cfg: Config, w: World, txs: seq<TxBlock>) {
    forall k :: 0 <= k < |txs| && Before(cfg, w, txs, k).Ok? ==> Conserves(cfg, Before(cfg, w, txs, k).value, txs[k])
  }

  lemma BeforeNext(cfg: Config, w: World, txs: seq<TxBlock>, k: nat)
    requires k < |txs| && ProcessTransaction(cfg, w, txs[0]).Ok?
    ensures Before(cfg, w, txs, k + 1) == Before(cfg, ProcessTransaction(cfg, w, txs[0]).value, txs[1..], k)
  {
    hide ProcessTransaction;
    assert txs[..k + 1][1..] == txs[1..][..k];
  }

  lemma AllConserveStep(cfg: Config, w: World, txs: seq<TxBlock>)
    requires |txs| > 0 && ProcessTransaction(cfg, w, txs[0]).Ok?
    ensures AllConserve(cfg, w, txs) <==>
      (Conserves(cfg, w, txs[0]) && AllConserve(cfg, ProcessTransaction(cfg, w, txs[0]).value, txs[1..]))
  {
    hide ProcessTransaction, Before, Conserves;
    var next, rest := ProcessTransaction(cfg, w, txs[0]).value, txs[1..];
    BeforeFirst(cfg, w, txs);
    forall k: nat | k < |rest|
      ensures Before(cfg, w, txs, k + 1) == Before(cfg, next, rest, k) && rest[k] == txs[k + 1]
    {
      BeforeNext(cfg, w, txs, k);
    }
    if AllConserve(cfg, w, txs) {
      assert Conserves(cfg, Before(cfg, w, txs, 0).value, txs[0]);
      forall k | 0 <= k < |rest| && Before(cfg, next, rest, k).Ok?
        ensures Conserves(cfg, Before(cfg, next, rest, k).value, rest[k])
      {
        assert Before(cfg, w, txs, k + 1) == Before(cfg, next, rest, k);
      }
    } else if Conserves(cfg, w, txs[0]) {
      var k :| 0 <= k < |txs| && Before(cfg, w, txs, k).Ok? && !Conserves(cfg, Before(cfg, w, txs, k).value, txs[k]);
      assert k > 0 && Before(cfg, w, txs, k - 1 + 1) == Before(cfg, next, rest, k - 1) && rest[k - 1] == txs[k];
    }
  }

  lemma BeforeFirst(cfg: Config, w: World, txs: seq<TxBlock>)
    ensures Before(cfg, w, txs, 0) == Ok(w)
  {
  }

  /** Over a block the total falls by the fees if and only if every transaction, in the world it meets,
      can be paid and sends value to no contract that will throw.  Otherwise value is created. */
  lemma {:induction false} BlockConservesExactly(cfg: Config, reserved: set<Address>, w: World, txs: seq<TxBlock>)
    requires Healthy(reserved, w) && Reserves(cfg, reserved) && Outsiders(reserved, txs)
    requires ProcessAll(cfg, w, txs).Ok?
    ensures var after := Total(ProcessAll(cfg, w, txs).value.accounts);
      after >= Total(w.accounts) - Fees(txs) && (after == Total(w.accounts) - Fees(txs) <==> AllConserve(cfg, w, txs))
    decreases |txs|
  {
    hide Healthy, Reserves, ProcessTransaction, Total, Conserves, AllConserve, Fee;
    if |txs| == 0 {
      NothingToConserve(cfg, w, txs);
    } else {
      FeeIffConserves(cfg, reserved, w, txs[0]);
      TransactionKeepsHealthy(cfg, reserved, w, txs[0]);
      BlockConservesExactly(cfg, reserved, ProcessTransaction(cfg, w, txs[0]).value, txs[1..]);
      AllConserveStep(cfg, w, txs);
    }
  }

  lemma NothingToConserve(cfg: Config, w: World, txs: seq<TxBlock>)
    requires |txs| == 0
    ensures AllConserve(cfg, w, txs)
  {
  }

  /** Value sent along with a token operation to a wrapper, which has no such function, is created: the
      wrapper keeps it and the sender gets it back. */
  lemma MisdirectedValueIsMinted(cfg: Config, w: World, tx: TxBlock, op: TokenOp)
    requires Reaches(cfg, w, tx) && w.contracts[tx.to].Wrapper? && tx.from !in w.contracts
    requires tx.from != cfg.manager && tx.from !in cfg.protocol
    requires tx.data == SelectorOf(op) + Abi.Encode(ArgumentsOf(op))
    requires CanPay(w.accounts, tx) && Room(w.accounts, tx) && tx.value > 0
    ensures ProcessTransaction(cfg, w, tx).Ok? && !Callable(cfg, w, tx)
    ensures Total(ProcessTransaction(cfg, w, tx).value.accounts) == Total(w.accounts) - Fee(tx) + tx.value
  {
    hide Total, ProcessTransaction, BalanceOf, SetBalance, Debited, CallContract, Abi.Encode, Arguments, Fee, IsPayable;
    PaidTransactionSucceeds(cfg, w, tx);
    TotalWithFee(cfg, w, tx);
    MisdirectedTransactions(cfg, Credited(w, tx), tx, op, Withdraw(tx.to, 0));
    FunctorFirst(SelectorOf(op), Abi.Encode(ArgumentsOf(op)));
  }
}
