/** The objects that execute transactions: the contract manager's fields, the accounts, and the
    methods that change them step by step (src/contract/contractmanager.cpp,
    src/contract/erc20wrapper.cpp, src/core/state.cpp). */
module Execution {
  import opened Bytes
  import opened Ledger
  import opened Contracts
  import opened Calls
  import opened World

  class Executor {
    const cfg: Config
    var accounts: Accounts
    var contracts: Contracts
    var processingPayable: bool
    /** The payable overlay, empty between calls. */
    var balances: Balances

    function View(): (w: World)
      reads this
    {
      World(accounts, contracts, processingPayable)
    }

    constructor (cfg: Config, accounts: Accounts)
      ensures this.cfg == cfg && View() == World(accounts, map[], false) && balances == map[]
    {
      this.cfg := cfg;
      this.accounts := accounts;
      contracts := map[];
      processingPayable := false;
      balances := map[];
    }

    method PopulateBalance(a: Address)
      modifies this`balances
      ensures balances == Populate(old(balances), accounts, a)
    {
      if a !in balances {
        balances := balances[a := if a in accounts then accounts[a].balance else 0];
      }
    }

    method Send(from: Address, to: Address, amount: u256) returns (ok: bool)
      modifies this`balances
      ensures ok <==> SendTokens(old(balances), accounts, from, to, amount).Ok?
      ensures ok ==> Ok(balances) == SendTokens(old(balances), accounts, from, to, amount)
    {
      PopulateBalance(from);
      PopulateBalance(to);
      if balances[to] < amount { return false; }
      if balances[from] < amount { return false; }
      balances := balances[from := balances[from] - amount];
      if balances[to] + amount >= U256 { return false; }
      balances := balances[to := balances[to] + amount];
      ok := true;
    }

    /** False is the haywire exception. */
    method ProcessContractPayable() returns (ok: bool)
      modifies this`accounts
      ensures ok == processingPayable
      ensures accounts == if ok then Install(old(accounts), balances) else old(accounts)
    {
      if !processingPayable { return false; }
      var keys := balances.Keys;
      ghost var done: set<Address> := {};
      while keys != {}
        invariant keys <= balances.Keys && done == balances.Keys - keys
        invariant accounts.Keys == old(accounts).Keys + done
        invariant forall a :: a in done ==> accounts[a] == Account(balances[a], NonceOf(old(accounts), a))
        invariant forall a :: a in accounts && a !in done ==> accounts[a] == old(accounts)[a]
      {
        var a :| a in keys;
        accounts := accounts[a := Account(balances[a], if a in accounts then accounts[a].nonce else 0)];
        keys := keys - {a};
        done := done + {a};
      }
      ok := true;
    }

    /** A call into another contract: it commits as soon as it returns. */
    method NestedCall(to: Address, caller: Address, op: TokenOp) returns (ok: bool)
      modifies this`contracts
      ensures (contracts, ok) == CallToken(old(contracts), to, caller, op)
    {
      if to !in contracts { return false; }
      match contracts[to]
      case Wrapper(_) => return false;
      case _ =>
        var t := TokenStep(contracts[to].token, caller, op);
        if t.Err? { return false; }
        contracts := contracts[to := contracts[to].(token := t.value)];
        ok := true;
    }

    /** `withdraw` and `transferTo`. */
    method PayOutOf(self: Address, caller: Address, token: Address, to: Address, value: u256) returns (ok: bool)
      requires IsWrapper(contracts, self)
      modifies this`contracts
      ensures (contracts, ok) == PayOut(old(contracts), self, caller, token, to, value)
    {
      hide CallToken;
      TokenAfterCall(contracts, token, self, Transfer(to, value));
      var ledger := contracts[self].ledger;
      if token !in ledger { return false; }
      if caller !in ledger[token] { return false; }
      if ledger[token][caller] <= value { return false; }
      var pending := ledger[token := ledger[token][caller := ledger[token][caller] - value]];
      ok := NestedCall(token, self, Transfer(to, value));
      if ok { contracts := contracts[self := Wrapper(pending)]; }
    }

    method DepositInto(self: Address, caller: Address, token: Address, value: u256) returns (ok: bool)
      requires IsWrapper(contracts, self)
      modifies this`contracts
      ensures (contracts, ok) == TakeIn(old(contracts), self, caller, token, value)
    {
      hide CallToken;
      TokenAfterCall(contracts, token, self, TransferFrom(caller, self, value));
      ok := NestedCall(token, self, TransferFrom(caller, self, value));
      if !ok { return; }
      var row := Row(contracts[self].ledger, token);
      if Get(row, caller) + value >= U256 { return false; }
      contracts := contracts[self := Wrapper(contracts[self].ledger[token := row[caller := Get(row, caller) + value]])];
    }

    method CallWrapper(self: Address, caller: Address, op: WrapperOp) returns (ok: bool)
      requires IsWrapper(contracts, self)
      modifies this`contracts
      ensures (contracts, ok) == WrapperStep(old(contracts), self, caller, op)
    {
      match op
      case Withdraw(token, v) => ok := PayOutOf(self, caller, token, caller, v);
      case TransferTo(token, to, v) => ok := PayOutOf(self, caller, token, to, v);
      case Deposit(token, v) => ok := DepositInto(self, caller, token, v);
    }

    /** `deposit` and `withdraw` of a native wrapper; the overlay is handed over at the end. */
    method CallNative(tx: TxBlock) returns (r: Outcome)
      requires tx.to in contracts && contracts[tx.to].Native? && balances == map[]
      modifies this`contracts, this`accounts, this`balances
      ensures r == CallPayable(old(View()), tx) && r.w == View() && balances == map[]
    {
      hide Install, Arguments, SendTokens;
      var t := contracts[tx.to].token;
      var after := t.balances;
      if Functor(tx.data) == NATIVE_DEPOSIT {
        if Get(after, tx.from) + tx.value >= U256 { return Threw(View()); }
        after := after[tx.from := Get(after, tx.from) + tx.value];
      } else {
        var amount := WithdrawalOf(tx.data);
        if amount.Err? || Get(after, tx.from) < amount.value { return Threw(View()); }
        after := after[tx.from := Get(after, tx.from) - amount.value];
        var sent := Send(tx.to, tx.from, amount.value);
        if !sent {
          balances := map[];
          return Threw(View());
        }
      }
      contracts := contracts[tx.to := contracts[tx.to].(token := t.(balances := after))];
      var ok := ProcessContractPayable();
      balances := map[];
      r := if ok then Returned(View()) else Haywire(View());
    }

    method Call(tx: TxBlock) returns (r: Outcome)
      requires balances == map[]
      modifies this`contracts, this`accounts, this`balances
      ensures r == CallContract(cfg, old(View()), tx) && r.w == View() && balances == map[]
    {
      hide DeriveAddress, NewContract, WrapperOpOf, TokenOpOf, WrapperStep, CallToken, CallPayable;
      if tx.to == cfg.manager {
        var a := DeriveAddress(cfg.c, tx.from, |contracts|);
        if tx.from != cfg.creator || a in contracts || a in cfg.protocol { return Threw(View()); }
        var made := NewContract(tx.data, tx.from);
        if made.Err? { return Threw(View()); }
        contracts := contracts[a := made.value];
        return Returned(View());
      }
      if tx.to in cfg.protocol || tx.to !in contracts { return Threw(View()); }
      var ok := false;
      if IsPayable(contracts, tx.to, tx.data) {
        r := CallNative(tx);
        return;
      } else if contracts[tx.to].Wrapper? {
        var op := WrapperOpOf(tx.data);
        if op.Ok? { ok := CallWrapper(tx.to, tx.from, op.value); }
      } else {
        var op := TokenOpOf(tx.data);
        if op.Ok? { ok := NestedCall(tx.to, tx.from, op.value); }
      }
      r := if ok then Returned(View()) else Threw(View());
    }

    /** False is an exception that leaves the method: the refund overflowed. */
    method Process(tx: TxBlock) returns (ok: bool)
      requires balances == map[]
      modifies this`contracts, this`accounts, this`balances, this`processingPayable
      ensures ok <==> ProcessTransaction(cfg, old(View()), tx).Ok?
      ensures ok ==> Ok(View()) == ProcessTransaction(cfg, old(View()), tx) && balances == map[]
    {
      hide CallContract, BalanceOf, SetBalance, BumpNonce, IsPayable;
      var threw := true;
      var total := tx.value + Fee(tx);
      if total <= BalanceOf(accounts, tx.from) {
        accounts := SetBalance(accounts, tx.from, BalanceOf(accounts, tx.from) - total);
        if BalanceOf(accounts, tx.to) + tx.value < U256 {
          accounts := SetBalance(accounts, tx.to, BalanceOf(accounts, tx.to) + tx.value);
          threw := false;
          if IsContractCall(cfg, contracts, tx.to) {
            if IsPayable(contracts, tx.to, tx.data) { processingPayable := true; }
            var r := Call(tx);
            if r.Returned? { processingPayable := false; } else { threw := true; }
          }
        }
      }
      if threw {
        if BalanceOf(accounts, tx.from) + tx.value >= U256 { return false; }
        accounts := SetBalance(accounts, tx.from, BalanceOf(accounts, tx.from) + tx.value);
      }
      accounts := BumpNonce(accounts, tx.from);
      ok := true;
    }
  }
}
