/** What a transaction with given call data does, end to end: from the encoded call to the changed
    contracts and balances (src/contract/contractmanager.cpp, src/contract/nativewrapper.cpp). */
module Transactions {
  import opened Bytes
  import opened Ledger
  import opened Contracts
  import opened Calls
  import opened World
  import Abi

  /** The transaction calls a deployed contract. */
  predicate Reaches(cfg: Config, w: World, tx: TxBlock) {
    tx.to != cfg.manager && tx.to !in cfg.protocol && tx.to in w.contracts
  }

  /** An encoded token operation sent to a token is that operation by the sender. */
  lemma TokenTransaction(cfg: Config, w: World, tx: TxBlock, op: TokenOp)
    requires Reaches(cfg, w, tx) && !w.contracts[tx.to].Wrapper?
    requires tx.data == SelectorOf(op) + Abi.Encode(ArgumentsOf(op))
    ensures CallContract(cfg, w, tx) == FromPair(w, CallToken(w.contracts, tx.to, tx.from, op))
  {
    hide Abi.Encode, TokenOpOf, CallToken, WrapperStep, WrapperOpOf, CreateContract, CallPayable;
    TokenCallIsUnderstood(op);
    FunctorFirst(SelectorOf(op), Abi.Encode(ArgumentsOf(op)));
  }

  /** An encoded wrapper operation sent to a wrapper is that operation by the sender. */
  lemma WrapperTransaction(cfg: Config, w: World, tx: TxBlock, op: WrapperOp)
    requires Reaches(cfg, w, tx) && w.contracts[tx.to].Wrapper?
    requires tx.data == WrapperSelectorOf(op) + Abi.Encode(WrapperArgumentsOf(op))
    ensures CallContract(cfg, w, tx) == FromPair(w, WrapperStep(w.contracts, tx.to, tx.from, op))
  {
    hide Abi.Encode, TokenOpOf, CallToken, WrapperStep, WrapperOpOf, CreateContract, CallPayable;
    WrapperCallIsUnderstood(op);
  }

  /** Token operations sent to a wrapper, and the other way round, throw and change nothing. */
  lemma MisdirectedTransactions(cfg: Config, w: World, tx: TxBlock, op: TokenOp, other: WrapperOp)
    requires Reaches(cfg, w, tx)
    ensures w.contracts[tx.to].Wrapper? && tx.data == SelectorOf(op) + Abi.Encode(ArgumentsOf(op)) ==>
      CallContract(cfg, w, tx) == Threw(w)
    ensures var call := WrapperSelectorOf(other) + Abi.Encode(WrapperArgumentsOf(other));
      !w.contracts[tx.to].Wrapper? && tx.data == call ==> CallContract(cfg, w, tx) == Threw(w)
  {
    hide Abi.Encode, Arguments, CallToken, WrapperStep, CreateContract, CallPayable;
    FunctorFirst(SelectorOf(op), Abi.Encode(ArgumentsOf(op)));
    FunctorFirst(WrapperSelectorOf(other), Abi.Encode(WrapperArgumentsOf(other)));
  }

  function WithBalance(cs: Contracts, n: Address, holder: Address, v: u256): (r: Contracts)
    requires n in cs && cs[n].Native?
  {
    SetToken(cs, n, cs[n].token.(balances := cs[n].token.balances[holder := v]))
  }

  /** A deposit gives the sender as many tokens as native units came with the call, or throws when
      that would not fit. */
  lemma DepositTransaction(cfg: Config, w: World, tx: TxBlock)
    requires Reaches(cfg, w, tx) && w.contracts[tx.to].Native? && w.processingPayable
    requires Functor(tx.data) == NATIVE_DEPOSIT
    ensures var had := Get(w.contracts[tx.to].token.balances, tx.from);
      CallContract(cfg, w, tx) == if had + tx.value < U256
        then Returned(w.(contracts := WithBalance(w.contracts, tx.to, tx.from, had + tx.value))) else Threw(w)
  {
    hide Abi.Encode, SendTokens, CreateContract, WrapperStep, CallToken, Install;
    InstallNothing(w.accounts);
  }

  /** When a withdrawal of v can go through: the holder has the tokens, the wrapper the native units,
      and the holder's account already holds v and has room for v more. */
  predicate CanWithdraw(w: World, n: Address, holder: Address, v: u256)
    requires n in w.contracts && w.contracts[n].Native?
  {
    v <= Get(w.contracts[n].token.balances, holder) && v <= BalanceOf(w.accounts, n)
    && v <= BalanceOf(w.accounts, holder) && BalanceOf(w.accounts, holder) + v < U256
  }

  /** A withdrawal exchanges tokens for native units one to one, exactly when it can. */
  lemma WithdrawTransaction(cfg: Config, w: World, tx: TxBlock, v: u256)
    requires Reaches(cfg, w, tx) && w.contracts[tx.to].Native? && w.processingPayable && tx.from != tx.to
    requires tx.data == NATIVE_WITHDRAW + Abi.Encode([Abi.Uint256(v)])
    ensures CanWithdraw(w, tx.to, tx.from, v) ==> CallContract(cfg, w, tx) == Returned(Withdrawn(w, tx.to, tx.from, v))
    ensures !CanWithdraw(w, tx.to, tx.from, v) ==> CallContract(cfg, w, tx) == Threw(w)
  {
    hide Abi.Encode, Functor, WithdrawalOf, CreateContract, WrapperStep, CallToken, Install, SetBalance, BalanceOf,
      SendTokens;
    FunctorFirst(NATIVE_WITHDRAW, Abi.Encode([Abi.Uint256(v)]));
    WithdrawalIsUnderstood(v);
    SendSucceeds(w.accounts, tx.to, tx.from, v);
    if SendTokens(map[], w.accounts, tx.to, tx.from, v).Ok? { SendTokensFacts(w.accounts, tx.to, tx.from, v); }
  }

  function Withdrawn(w: World, n: Address, holder: Address, v: u256): (r: World)
    requires n in w.contracts && w.contracts[n].Native? && CanWithdraw(w, n, holder, v)
  {
    var acc := SetBalance(w.accounts, n, BalanceOf(w.accounts, n) - v);
    w.(contracts := WithBalance(w.contracts, n, holder, Get(w.contracts[n].token.balances, holder) - v),
       accounts := SetBalance(acc, holder, BalanceOf(w.accounts, holder) + v))
  }

  lemma SendSucceeds(acc: Accounts, from: Address, to: Address, v: u256)
    requires from != to
    ensures SendTokens(map[], acc, from, to, v).Ok? <==>
      v <= BalanceOf(acc, to) && v <= BalanceOf(acc, from) && BalanceOf(acc, to) + v < U256
  {
    hide BalanceOf;
  }
}
