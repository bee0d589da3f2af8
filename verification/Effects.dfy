/** What a transaction leaves, from its bytes to every account, balance, allowance and ledger entry
    (State::processTransaction of src/core/state.cpp, ContractManager::callContract of
    src/contract/contractmanager.cpp and the contracts it calls). */
module Effects {
  import opened Bytes
  import opened Ledger
  import opened Contracts
  import opened Calls
  import opened World
  import opened Transactions
  import opened State
  import opened Conservation
  import Abi

  /** A paid call of a contract that has room for the value. */
  predicate Arrives(cfg: Config, w: World, tx: TxBlock) {
    CanPay(w.accounts, tx) && Room(w.accounts, tx) && IsContractCall(cfg, w.contracts, tx.to)
  }

  /** A sender who is nobody's contract, in a healthy world. */
  ghost predicate Outside(cfg: Config, reserved: set<Address>, w: World, tx: TxBlock) {
    && Healthy(reserved, w) && Reserves(cfg, reserved) && tx.from !in reserved
    && cfg.manager in reserved && cfg.protocol <= reserved
  }

  // ----- The call and the transaction

  lemma DeliveredCall(cfg: Config, w: World, tx: TxBlock)
    requires Arrives(cfg, w, tx)
    ensures var out := CallContract(cfg, Credited(w, tx), tx);
      && (out.Returned? ==>
        var n := out.w.(accounts := BumpNonce(out.w.accounts, tx.from), processingPayable := false);
        ProcessTransaction(cfg, w, tx) == Ok(n))
      && (!out.Returned? ==> ProcessTransaction(cfg, w, tx) == Refund(out.w, tx))
  {
    hide CallContract, BalanceOf, SetBalance, BumpNonce, Refund, Fee, IsPayable;
  }

  lemma CreditedIsBacked(reserved: set<Address>, w: World, tx: TxBlock)
    requires Healthy(reserved, w) && tx.from !in reserved && CanPay(w.accounts, tx) && Room(w.accounts, tx)
    ensures var d := Debited(w.accounts, tx);
      && Backed(d, w.contracts) && Sound(reserved, Credited(w, tx).contracts)
      && BalanceOf(d, tx.to) + tx.value < U256
      && Credited(w, tx).accounts == SetBalance(d, tx.to, BalanceOf(d, tx.to) + tx.value)
      && (IsPayable(w.contracts, tx.to, tx.data) ==> Credited(w, tx).processingPayable)
  {
    hide Sound, Backed, BalanceOf, SetBalance, Fee, IsPayable;
    DebitKeepsBacked(reserved, w, tx);
  }

  /** The contracts after a transaction are those its call left, if the call returned, and otherwise the
      ones before it. */
  lemma CallTakesEffect(cfg: Config, reserved: set<Address>, w: World, tx: TxBlock)
    requires Outside(cfg, reserved, w, tx) && Arrives(cfg, w, tx)
    ensures ProcessTransaction(cfg, w, tx).Ok?
    ensures var out := CallContract(cfg, Credited(w, tx), tx);
      && ProcessTransaction(cfg, w, tx).value.contracts == (if out.Returned? then out.w.contracts else w.contracts)
      && (!out.Returned? ==> out.w == Credited(w, tx))
  {
    hide CallContract, BalanceOf, SetBalance, BumpNonce, CanPay, Room, Debited, IsContractCall, Healthy, Reserves,
      IsPayable, ProcessTransaction;
    NotAContract(reserved, w, tx.from);
    PaidTransactionSucceeds(cfg, w, tx);
    DeliveredCall(cfg, w, tx);
    CreditedIsBacked(reserved, w, tx);
    CallKeepsHealthy(cfg, reserved, Debited(w.accounts, tx), Credited(w, tx), tx);
    SameContracts(w, tx);
  }

  lemma SameContracts(w: World, tx: TxBlock)
    requires CanPay(w.accounts, tx) && Room(w.accounts, tx)
    ensures Credited(w, tx).contracts == w.contracts
  {
  }

  // ----- Accounts

  /** Value and fee are taken from the sender and the value given to the receiver. */
  lemma CreditedBalance(w: World, tx: TxBlock, a: Address)
    requires CanPay(w.accounts, tx) && Room(w.accounts, tx)
    ensures BalanceOf(Credited(w, tx).accounts, a) == BalanceOf(w.accounts, a)
      - (if a == tx.from then tx.value + tx.gasLimit * tx.maxFeePerGas else 0) + (if a == tx.to then tx.value else 0)
    ensures NonceOf(Credited(w, tx).accounts, a) == NonceOf(w.accounts, a)
  {
    hide BalanceOf, NonceOf, SetBalance, Fee, IsPayable;
    FeeIsGasTimesPrice(tx);
    var d := Debited(w.accounts, tx);
    var paid: u256 := BalanceOf(w.accounts, tx.from) - (tx.value + Fee(tx));
    BalanceAfterSet(w.accounts, tx.from, paid, a);
    BalanceAfterSet(w.accounts, tx.from, paid, tx.to);
    BalanceAfterSet(d, tx.to, BalanceOf(d, tx.to) + tx.value, a);
  }

  /** A call that is not payable touches no account. */
  lemma PlainCallKeepsAccounts(cfg: Config, w: World, tx: TxBlock)
    requires !IsPayable(w.contracts, tx.to, tx.data)
    ensures CallContract(cfg, w, tx).w.accounts == w.accounts
  {
    hide CreateContract, WrapperOpOf, TokenOpOf, WrapperStep, CallToken, IsPayable;
    CreateKeepsAccounts(cfg, w, tx);
  }

  /** Every account after a call that is not payable: the sender has paid value and fee, the contract has
      the value, the sender's nonce is one higher, and nobody else is touched.  If the call threw, the
      sender has the value back as well. */
  lemma PlainCallAccounts(cfg: Config, reserved: set<Address>, w: World, tx: TxBlock, a: Address)
    requires Outside(cfg, reserved, w, tx) && Arrives(cfg, w, tx) && !IsPayable(w.contracts, tx.to, tx.data)
    ensures ProcessTransaction(cfg, w, tx).Ok?
    ensures var after := ProcessTransaction(cfg, w, tx).value.accounts;
      && BalanceOf(after, a) == BalanceOf(w.accounts, a)
        - (if a == tx.from then tx.value + tx.gasLimit * tx.maxFeePerGas else 0) + (if a == tx.to then tx.value else 0)
        + (if a == tx.from && !Callable(cfg, w, tx) then tx.value else 0)
      && NonceOf(after, a) == if a == tx.from then Truncate64(NonceOf(w.accounts, a) + 1) else NonceOf(w.accounts, a)
  {
    hide CallContract, BalanceOf, NonceOf, SetBalance, BumpNonce, CanPay, Room, Debited, Healthy, Reserves,
      IsContractCall, IsPayable, ProcessTransaction, Callable, Credited;
    var p := Credited(w, tx);
    CallTakesEffect(cfg, reserved, w, tx);
    SameContracts(w, tx);
    DeliveredCall(cfg, w, tx);
    ReturnsIffCallable(cfg, reserved, w, tx);
    PlainCallKeepsAccounts(cfg, p, tx);
    CreditedBalance(w, tx, a);
    BalanceAfterBump(p.accounts, tx.from, a);
    if !Callable(cfg, w, tx) {
      var b: u256 := BalanceOf(p.accounts, tx.from) + tx.value;
      BalanceAfterSet(p.accounts, tx.from, b, a);
      BalanceAfterBump(SetBalance(p.accounts, tx.from, b), tx.from, a);
    }
  }

  // ----- Token calls, from their bytes

  /** The contract at `at` is replaced, and nothing else. */
  ghost predicate OnlyAt(before: Contracts, after: Contracts, at: Address) {
    after.Keys == before.Keys + {at} && forall x :: x in before && x != at ==> after[x] == before[x]
  }

  /** A token operation sent to a token: the step is taken if the token allows it, and otherwise
      nothing changes in any contract. */
  lemma TokenCallTakesEffect(cfg: Config, reserved: set<Address>, w: World, tx: TxBlock, op: TokenOp)
    requires Outside(cfg, reserved, w, tx) && CanPay(w.accounts, tx) && Room(w.accounts, tx)
    requires Reaches(cfg, w, tx) && !w.contracts[tx.to].Wrapper?
    requires tx.data == SelectorOf(op) + Abi.Encode(ArgumentsOf(op))
    ensures ProcessTransaction(cfg, w, tx).Ok?
    ensures var t, after := w.contracts[tx.to].token, ProcessTransaction(cfg, w, tx).value.contracts;
      && (!TokenAllows(t, tx.from, op) ==> after == w.contracts)
      && OnlyAt(w.contracts, after, tx.to) && IsToken(after, tx.to)
      && (TokenAllows(t, tx.from, op) ==> TokenStep(t, tx.from, op) == Ok(after[tx.to].token))
  {
    hide CallContract, BalanceOf, SetBalance, CanPay, Room, Debited, Healthy, Reserves, ProcessTransaction,
      IsPayable, TokenAllows, TokenStep, CallToken, Abi.Encode, Credited;
    SameContracts(w, tx);
    CallTakesEffect(cfg, reserved, w, tx);
    TokenTransaction(cfg, Credited(w, tx), tx, op);
    TokenAfterCall(w.contracts, tx.to, tx.from, op);
    CallReturns(reserved, w, tx.to, tx.from, op);
  }

  /** Bytes of a transfer, as a wallet sends them. */
  function TransferData(to: Address, v: u256): (d: bytes) {
    [0xa9, 0x05, 0x9c, 0xbb] + Abi.Encode([Abi.Addr(to), Abi.Uint256(v)])
  }

  function ApproveData(spender: Address, v: u256): (d: bytes) {
    [0x09, 0x5e, 0xa7, 0xb3] + Abi.Encode([Abi.Addr(spender), Abi.Uint256(v)])
  }

  function TransferFromData(from: Address, to: Address, v: u256): (d: bytes) {
    [0x23, 0xb8, 0x72, 0xdd] + Abi.Encode([Abi.Addr(from), Abi.Addr(to), Abi.Uint256(v)])
  }

  /** A transfer of v tokens: v from the sender to the receiver if the sender has them, no other balance,
      no allowance and no other contract changed, and nothing at all if not. */
  lemma TransferIsMade(cfg: Config, reserved: set<Address>, w: World, tx: TxBlock, to: Address, v: u256, a: Address,
    o: Address, s: Address)
    requires Outside(cfg, reserved, w, tx) && CanPay(w.accounts, tx) && Room(w.accounts, tx)
    requires Reaches(cfg, w, tx) && !w.contracts[tx.to].Wrapper? && tx.data == TransferData(to, v)
    ensures ProcessTransaction(cfg, w, tx).Ok?
    ensures var t, after := w.contracts[tx.to].token, ProcessTransaction(cfg, w, tx).value.contracts;
      && OnlyAt(w.contracts, after, tx.to) && IsToken(after, tx.to)
      && Get(after[tx.to].token.balances, a)
        == Get(t.balances, a) + (if v <= Get(t.balances, tx.from) then Moved(tx.from, to, v, a) else 0)
      && Allowance(after[tx.to].token, o, s) == Allowance(t, o, s)
  {
    hide CanPay, Room, Healthy, Reserves, ProcessTransaction, TokenStep, Abi.Encode, Allowance, Moved, Outside;
    var op := Transfer(to, v);
    TokenCallTakesEffect(cfg, reserved, w, tx, op);
    if TokenAllows(w.contracts[tx.to].token, tx.from, op) {
      TokenStepEffects(w.contracts[tx.to].token, tx.from, op, a, o, s);
    }
  }

  /** An approval sets that one allowance, whatever it was, and no balance. */
  lemma ApprovalIsMade(cfg: Config, reserved: set<Address>, w: World, tx: TxBlock, spender: Address, v: u256,
    a: Address, o: Address, s: Address)
    requires Outside(cfg, reserved, w, tx) && CanPay(w.accounts, tx) && Room(w.accounts, tx)
    requires Reaches(cfg, w, tx) && !w.contracts[tx.to].Wrapper? && tx.data == ApproveData(spender, v)
    ensures ProcessTransaction(cfg, w, tx).Ok?
    ensures var t, after := w.contracts[tx.to].token, ProcessTransaction(cfg, w, tx).value.contracts;
      && OnlyAt(w.contracts, after, tx.to) && IsToken(after, tx.to)
      && Get(after[tx.to].token.balances, a) == Get(t.balances, a)
      && Allowance(after[tx.to].token, o, s) == if o == tx.from && s == spender then v else Allowance(t, o, s)
  {
    hide CanPay, Room, Healthy, Reserves, ProcessTransaction, TokenStep, Abi.Encode, Allowance, Outside;
    var op := Approve(spender, v);
    TokenCallTakesEffect(cfg, reserved, w, tx, op);
    TokenStepEffects(w.contracts[tx.to].token, tx.from, op, a, o, s);
  }

  /** A transfer on behalf of an owner moves v of the owner's tokens and takes v off the sender's
      allowance, if both suffice. */
  lemma TransferFromIsMade(cfg: Config, reserved: set<Address>, w: World, tx: TxBlock, from: Address, to: Address,
    v: u256, a: Address, o: Address, s: Address)
    requires Outside(cfg, reserved, w, tx) && CanPay(w.accounts, tx) && Room(w.accounts, tx)
    requires Reaches(cfg, w, tx) && !w.contracts[tx.to].Wrapper? && tx.data == TransferFromData(from, to, v)
    ensures ProcessTransaction(cfg, w, tx).Ok?
    ensures var t, after := w.contracts[tx.to].token, ProcessTransaction(cfg, w, tx).value.contracts;
      var can := v <= Allowance(t, from, tx.from) && v <= Get(t.balances, from);
      && OnlyAt(w.contracts, after, tx.to) && IsToken(after, tx.to)
      && Get(after[tx.to].token.balances, a) == Get(t.balances, a) + (if can then Moved(from, to, v, a) else 0)
      && Allowance(after[tx.to].token, o, s)
        == Allowance(t, o, s) - (if can && o == from && s == tx.from then v else 0)
  {
    hide CanPay, Room, Healthy, Reserves, ProcessTransaction, TokenStep, Abi.Encode, Allowance, Moved, Outside;
    var op := TransferFrom(from, to, v);
    TokenCallTakesEffect(cfg, reserved, w, tx, op);
    if TokenAllows(w.contracts[tx.to].token, tx.from, op) {
      TokenStepEffects(w.contracts[tx.to].token, tx.from, op, a, o, s);
    }
  }

  // ----- Calls of an ERC20 wrapper, from their bytes

  function WrapperData(op: WrapperOp): (d: bytes) {
    match op
    case Withdraw(token, v) => [0xf3, 0xfe, 0xf3, 0xa3] + Abi.Encode([Abi.Addr(token), Abi.Uint256(v)])
    case TransferTo(token, to, v) =>
      [0xa5, 0xf2, 0xa1, 0x52] + Abi.Encode([Abi.Addr(token), Abi.Addr(to), Abi.Uint256(v)])
    case Deposit(token, v) => [0x47, 0xe7, 0xef, 0x24] + Abi.Encode([Abi.Addr(token), Abi.Uint256(v)])
  }

  lemma WrapperCallTakesEffect(cfg: Config, reserved: set<Address>, w: World, tx: TxBlock, op: WrapperOp)
    requires Outside(cfg, reserved, w, tx) && CanPay(w.accounts, tx) && Room(w.accounts, tx)
    requires Reaches(cfg, w, tx) && w.contracts[tx.to].Wrapper? && tx.data == WrapperData(op)
    ensures ProcessTransaction(cfg, w, tx).Ok?
    ensures var after := ProcessTransaction(cfg, w, tx).value.contracts;
      if !WrapperAllows(w.contracts, tx.to, tx.from, op) then after == w.contracts
      else WrapperStep(w.contracts, tx.to, tx.from, op) == (after, true)
  {
    hide CallContract, BalanceOf, SetBalance, CanPay, Room, Debited, Healthy, Reserves, ProcessTransaction, IsPayable,
      WrapperAllows, WrapperStep, Abi.Encode, Credited;
    SameContracts(w, tx);
    CallTakesEffect(cfg, reserved, w, tx);
    WrapperTransaction(cfg, Credited(w, tx), tx, op);
    WrapperReturns(reserved, w, tx.to, tx.from, op);
  }

  /** A call of a wrapper changes the sender's entry for the token by exactly the amount, if the wrapper
      allows it, and no other entry of any wrapper. */
  lemma WrapperEntriesAreMade(cfg: Config, reserved: set<Address>, w: World, tx: TxBlock, op: WrapperOp, x: Address,
    k: Address, u: Address)
    requires Outside(cfg, reserved, w, tx) && CanPay(w.accounts, tx) && Room(w.accounts, tx)
    requires Reaches(cfg, w, tx) && w.contracts[tx.to].Wrapper? && tx.data == WrapperData(op)
    requires IsWrapper(w.contracts, x)
    ensures ProcessTransaction(cfg, w, tx).Ok?
    ensures var after := ProcessTransaction(cfg, w, tx).value.contracts;
      var made := WrapperAllows(w.contracts, tx.to, tx.from, op) && x == tx.to && k == op.token && u == tx.from;
      && IsWrapper(after, x)
      && Entry(after, x, k, u) == Entry(w.contracts, x, k, u) + if made then EntryChange(op) else 0
  {
    hide CanPay, Room, ProcessTransaction, WrapperAllows, WrapperStep, Abi.Encode, Outside, Entry;
    WrapperCallTakesEffect(cfg, reserved, w, tx, op);
    if WrapperAllows(w.contracts, tx.to, tx.from, op) { WrapperStepEntries(w.contracts, tx.to, tx.from, op, x, k, u); }
  }

  /** And moves exactly that amount in the token, between the wrapper and the receiver or the depositor. */
  lemma WrapperTokensAreMoved(cfg: Config, reserved: set<Address>, w: World, tx: TxBlock, op: WrapperOp, x: Address,
    a: Address)
    requires Outside(cfg, reserved, w, tx) && CanPay(w.accounts, tx) && Room(w.accounts, tx)
    requires Reaches(cfg, w, tx) && w.contracts[tx.to].Wrapper? && tx.data == WrapperData(op) && IsToken(w.contracts, x)
    ensures ProcessTransaction(cfg, w, tx).Ok?
    ensures var after := ProcessTransaction(cfg, w, tx).value.contracts;
      var made := WrapperAllows(w.contracts, tx.to, tx.from, op) && x == op.token;
      && IsToken(after, x)
      && Get(after[x].token.balances, a) == Get(w.contracts[x].token.balances, a)
        + if made then Moved(Giver(tx.to, tx.from, op), Receiver(tx.to, tx.from, op), op.v, a) else 0
  {
    hide CanPay, Room, ProcessTransaction, WrapperAllows, WrapperStep, Abi.Encode, Outside, Allowance, Moved;
    WrapperCallTakesEffect(cfg, reserved, w, tx, op);
    if WrapperAllows(w.contracts, tx.to, tx.from, op) {
      WrapperStepTokens(w.contracts, tx.to, tx.from, op, x, a, a, a);
    }
  }

  // ----- Calls of a native wrapper, from their bytes

  /** Accounts and tokens of holder a after value was paid in and v paid out. */
  ghost predicate Exchanged(w: World, after: World, tx: TxBlock, paidIn: u256, paidOut: u256, a: Address) {
    && OnlyAt(w.contracts, after.contracts, tx.to) && tx.to in w.contracts && w.contracts[tx.to].Native?
    && after.contracts[tx.to].Native?
    && Get(after.contracts[tx.to].token.balances, a)
      == Get(w.contracts[tx.to].token.balances, a) + (if a == tx.from then paidIn as int - paidOut as int else 0)
    && BalanceOf(after.accounts, a) == BalanceOf(w.accounts, a)
      - (if a == tx.from then tx.value + tx.gasLimit * tx.maxFeePerGas else 0) + (if a == tx.to then tx.value else 0)
      + Moved(tx.to, tx.from, paidOut, a)
  }

  /** A deposit gives the sender as many tokens as native units came with it; the wrapper keeps those. */
  lemma DepositIsMade(cfg: Config, reserved: set<Address>, w: World, tx: TxBlock, a: Address)
    requires Outside(cfg, reserved, w, tx) && CanPay(w.accounts, tx) && Room(w.accounts, tx)
    requires Reaches(cfg, w, tx) && w.contracts[tx.to].Native? && Functor(tx.data) == [0xd0, 0xe3, 0x0d, 0xb0]
    ensures ProcessTransaction(cfg, w, tx).Ok?
    ensures Exchanged(w, ProcessTransaction(cfg, w, tx).value, tx, tx.value, 0, a)
  {
    hide CallContract, BalanceOf, NonceOf, SetBalance, BumpNonce, CanPay, Room, Debited, Healthy, Reserves, Credited,
      ProcessTransaction, Functor;
    var p := Credited(w, tx);
    NativeIsReserved(reserved, w, tx.to);
    SameContracts(w, tx);
    CreditedIsBacked(reserved, w, tx);
    CallTakesEffect(cfg, reserved, w, tx);
    DeliveredCall(cfg, w, tx);
    DepositTransaction(cfg, p, tx);
    DepositFits(reserved, w, tx);
    CreditedBalance(w, tx, a);
    BalanceAfterBump(p.accounts, tx.from, a);
  }

  lemma NativeIsReserved(reserved: set<Address>, w: World, n: Address)
    requires Healthy(reserved, w) && n in w.contracts
    ensures n in reserved
  {
    IsReserved(reserved, w.contracts, n);
  }

  lemma DepositFits(reserved: set<Address>, w: World, tx: TxBlock)
    requires Healthy(reserved, w) && tx.from !in reserved && CanPay(w.accounts, tx) && Room(w.accounts, tx)
    requires tx.to in w.contracts && w.contracts[tx.to].Native?
    ensures Get(w.contracts[tx.to].token.balances, tx.from) + tx.value < U256
  {
    hide BalanceOf, SetBalance, Fee, Healthy;
    NativeIsReserved(reserved, w, tx.to);
    TokensAreBacked(reserved, w, tx.to, tx.from);
    BalanceAfterSet(w.accounts, tx.from, BalanceOf(w.accounts, tx.from) - (tx.value + Fee(tx)), tx.to);
  }

  /** A withdrawal of v exchanges v of the sender's tokens for v native units of the wrapper's, if the
      wrapper pays out, and otherwise leaves every contract as it was. */
  lemma WithdrawalIsMade(cfg: Config, reserved: set<Address>, w: World, tx: TxBlock, v: u256, a: Address)
    requires Outside(cfg, reserved, w, tx) && CanPay(w.accounts, tx) && Room(w.accounts, tx)
    requires Reaches(cfg, w, tx) && w.contracts[tx.to].Native?
    requires tx.data == [0x2e, 0x1a, 0x7d, 0x4d] + Abi.Encode([Abi.Uint256(v)])
    ensures ProcessTransaction(cfg, w, tx).Ok?
    ensures var after := ProcessTransaction(cfg, w, tx).value;
      if PaysOut(w, w.contracts[tx.to].token, tx, v) then Exchanged(w, after, tx, 0, v, a)
      else after.contracts == w.contracts
  {
    hide CallContract, BalanceOf, NonceOf, SetBalance, BumpNonce, CanPay, Room, Debited, Healthy, Reserves, Credited,
      ProcessTransaction, Functor, Abi.Encode, Left, IsPayable;
    var p := Credited(w, tx);
    NativeIsReserved(reserved, w, tx.to);
    SameContracts(w, tx);
    CreditedIsBacked(reserved, w, tx);
    FunctorFirst(NATIVE_WITHDRAW, Abi.Encode([Abi.Uint256(v)]));
    WithdrawalIsPayable(w.contracts, tx);
    CallTakesEffect(cfg, reserved, w, tx);
    DeliveredCall(cfg, w, tx);
    WithdrawTransaction(cfg, p, tx, v);
    TokensAreBacked(reserved, w, tx.to, tx.from);
    LeftAfterCredit(w, tx);
    if PaysOut(w, w.contracts[tx.to].token, tx, v) {
      CreditedBalance(w, tx, a);
      var mid := SetBalance(p.accounts, tx.to, BalanceOf(p.accounts, tx.to) - v);
      BalanceAfterSet(p.accounts, tx.to, BalanceOf(p.accounts, tx.to) - v, a);
      BalanceAfterSet(mid, tx.from, BalanceOf(p.accounts, tx.from) + v, a);
      BalanceAfterBump(SetBalance(mid, tx.from, BalanceOf(p.accounts, tx.from) + v), tx.from, a);
    }
  }

  lemma WithdrawalIsPayable(cs: Contracts, tx: TxBlock)
    requires tx.to in cs && cs[tx.to].Native? && Functor(tx.data) == NATIVE_WITHDRAW
    ensures IsPayable(cs, tx.to, tx.data)
  {
  }

  // ----- Creating a contract, from its bytes

  /** Where the contract after n others comes to be: from 128 on the count itself is left out, so the
      next address of a caller is always the same. */
  lemma DerivedFrom(cfg: Config, caller: Address, n: nat)
    requires n < 256
    ensures DeriveAddress(cfg.c, caller, n)
      == cfg.c.sha3(if n < 128 then [0xd5] + (caller + [n]) else [0xd6] + (caller + [0x81]))[12..]
  {
    if n >= 128 { assert BytesRequired(n) == 1 + BytesRequired(n / 256) == 1; }
  }

  /** A creation by the chain's owner adds one ERC20, at the derived address, whose whole supply the owner
      holds; no other contract is touched. */
  lemma CreationIsMade(cfg: Config, reserved: set<Address>, w: World, tx: TxBlock, name: bytes, symbol: bytes,
    decimals: u256, supply: u256)
    requires Outside(cfg, reserved, w, tx) && CanPay(w.accounts, tx) && Room(w.accounts, tx)
    requires tx.to == cfg.manager && tx.from == cfg.creator && |w.contracts| < 256
    requires |Abi.Encode([Abi.Bytes(name), Abi.Bytes(symbol), Abi.Uint256(decimals), Abi.Uint256(supply)])| < U64
    requires |Abi.Encode([Abi.Bytes(name), Abi.Bytes(symbol), Abi.Uint256(decimals)])| < U64
    requires tx.data == [0xb7, 0x4e, 0x5e, 0xd5]
      + Abi.Encode([Abi.Bytes(name), Abi.Bytes(symbol), Abi.Uint256(decimals), Abi.Uint256(supply)])
    ensures ProcessTransaction(cfg, w, tx).Ok?
    ensures var n := |w.contracts|;
      var at := cfg.c.sha3(if n < 128 then [0xd5] + (tx.from + [n]) else [0xd6] + (tx.from + [0x81]))[12..];
      var after := ProcessTransaction(cfg, w, tx).value.contracts;
      if at in w.contracts || at in cfg.protocol || decimals > 255 then after == w.contracts
      else OnlyAt(w.contracts, after, at) && after[at].Erc20? && AllWith(after[at].token, tx.from, supply)
  {
    hide BalanceOf, SetBalance, CanPay, Room, Debited, Healthy, Reserves, ProcessTransaction, IsPayable, Abi.Encode,
      NewContract, DeriveAddress, AllWith;
    DerivedFrom(cfg, tx.from, |w.contracts|);
    CallTakesEffect(cfg, reserved, w, tx);
    CreationIsUnderstood(name, symbol, decimals, supply, [], tx.from);
  }
}
