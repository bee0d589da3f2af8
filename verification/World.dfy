/** Native accounts and contracts together: what one transaction does to both
    (State::processTransaction, State::processContractPayable of src/core/state.cpp;
    ContractManager::callContract, sendTokens of src/contract/contractmanager.cpp). */
module World {
  import opened Bytes
  import opened Crypto
  import opened Ledger
  import opened Contracts
  import opened Calls
  import Tx

  type TxBlock = Tx.TxBlock

  // ----- Accounts

  datatype Account = Account(balance: u256, nonce: u64)

  type Accounts = map<Address, Account>

  function BalanceOf(acc: Accounts, a: Address): (n: u256) { if a in acc then acc[a].balance else 0 }

  function NonceOf(acc: Accounts, a: Address): (n: u64) { if a in acc then acc[a].nonce else 0 }

  /** `accounts[a].balance = v`, which makes the account if it is missing. */
  function SetBalance(acc: Accounts, a: Address, v: u256): (r: Accounts) { acc[a := Account(v, NonceOf(acc, a))] }

  /** `++nonce` in 64 bits. */
  function BumpNonce(acc: Accounts, a: Address): (r: Accounts) {
    acc[a := Account(BalanceOf(acc, a), Truncate64(NonceOf(acc, a) + 1))]
  }

  function BalancesOf(acc: Accounts): (m: Balances) { map a | a in acc :: acc[a].balance }

  ghost function Total(acc: Accounts): (n: nat) { Sum(BalancesOf(acc)) }

  lemma TotalAfterSet(acc: Accounts, a: Address, v: u256)
    ensures Total(SetBalance(acc, a, v)) == Total(acc) - BalanceOf(acc, a) + v
  {
    hide Sum;
    assert BalancesOf(SetBalance(acc, a, v)) == BalancesOf(acc)[a := v];
    SumOfUpdate(BalancesOf(acc), a, v);
  }

  lemma TotalAfterBump(acc: Accounts, a: Address)
    ensures Total(BumpNonce(acc, a)) == Total(acc)
  {
    hide Sum;
    assert BalancesOf(BumpNonce(acc, a)) == BalancesOf(acc)[a := BalanceOf(acc, a)];
    SumOfUpdate(BalancesOf(acc), a, BalanceOf(acc, a));
  }

  lemma BalanceAfterSet(acc: Accounts, a: Address, v: u256, b: Address)
    ensures BalanceOf(SetBalance(acc, a, v), b) == if b == a then v else BalanceOf(acc, b)
    ensures NonceOf(SetBalance(acc, a, v), b) == NonceOf(acc, b)
  {
  }

  lemma BalanceAfterBump(acc: Accounts, a: Address, b: Address)
    ensures BalanceOf(BumpNonce(acc, a), b) == BalanceOf(acc, b)
    ensures NonceOf(BumpNonce(acc, a), b) == if b == a then Truncate64(NonceOf(acc, a) + 1) else NonceOf(acc, b)
  {
  }

  // ----- The payable overlay

  /** `populateBalance`: the account's balance is read once. */
  function Populate(o: Balances, acc: Accounts, a: Address): (r: Balances) {
    if a in o then o else o[a := BalanceOf(acc, a)]
  }

  /** `sendTokens`, which compares the amount with what the receiver has. */
  function SendTokens(o: Balances, acc: Accounts, from: Address, to: Address, v: u256): (r: Result<Balances>) {
    var p := Populate(Populate(o, acc, from), acc, to);
    if p[to] < v then Err else Move(p, from, to, v)
  }

  /** `processContractPayable`: overlay balances become account balances. */
  function Install(acc: Accounts, o: Balances): (r: Accounts) {
    acc + map a | a in o :: Account(o[a], NonceOf(acc, a))
  }

  lemma SendTokensFacts(acc: Accounts, from: Address, to: Address, v: u256)
    requires SendTokens(map[], acc, from, to, v).Ok? && from != to
    ensures v <= BalanceOf(acc, from) && v <= BalanceOf(acc, to) && BalanceOf(acc, to) + v < U256
    ensures var o := SendTokens(map[], acc, from, to, v).value;
      Install(acc, o) == SetBalance(SetBalance(acc, from, BalanceOf(acc, from) - v), to, BalanceOf(acc, to) + v)
  {
    hide Install, SetBalance, BalanceOf;
    PopulatedMove(BalanceOf(acc, from), BalanceOf(acc, to), from, to, v);
    InstallTwo(acc, from, to, BalanceOf(acc, from) - v, BalanceOf(acc, to) + v);
  }

  lemma PopulatedMove(f: u256, t: u256, from: Address, to: Address, v: u256)
    requires from != to
    ensures var p: Balances := map[][from := f][to := t];
      Move(p, from, to, v).Ok? ==>
        v <= f && t + v < U256 && Move(p, from, to, v).value == map[][from := f - v][to := t + v]
  {
    var p: Balances := map[][from := f][to := t];
    if Move(p, from, to, v).Ok? {
      assert p[from := f - v][to := t + v] == map[][from := f - v][to := t + v];
    }
  }

  lemma InstallTwo(acc: Accounts, a: Address, b: Address, x: u256, y: u256)
    requires a != b
    ensures Install(acc, map[][a := x][b := y]) == SetBalance(SetBalance(acc, a, x), b, y)
  {
    hide Install, NonceOf;
    var o: Balances := map[][a := x][b := y];
    var r := SetBalance(SetBalance(acc, a, x), b, y);
    forall k: Address ensures k in Install(acc, o) <==> k in r
    {
      InstallAt(acc, o, k);
    }
    forall k | k in r ensures Install(acc, o)[k] == r[k] {
      InstallAt(acc, o, k);
      BalanceAfterSet(acc, a, x, b);
    }
    assert Install(acc, o).Keys == r.Keys;
  }

  lemma InstallAt(acc: Accounts, o: Balances, k: Address)
    ensures k in Install(acc, o) <==> k in acc || k in o
    ensures k in o ==> Install(acc, o)[k] == Account(o[k], NonceOf(acc, k))
    ensures k in acc && k !in o ==> Install(acc, o)[k] == acc[k]
  {
  }

  // ----- Contract calls

  datatype Config = Config(c: Crypto, manager: Address, protocol: set<Address>, creator: Address)

  datatype World = World(accounts: Accounts, contracts: Contracts, processingPayable: bool)

  /** How a call ended; `Haywire` is the exception for touching balances outside a payable call. */
  datatype Outcome = Returned(w: World) | Threw(w: World) | Haywire(w: World)

  /** `deriveContractAddress`: from the caller and the number of contracts, of which a single byte
      is used. */
  function DeriveAddress(c: Crypto, caller: Address, n: nat): (a: Address) { c.sha3(DeriveString(caller, n))[12..] }

  function DeriveString(caller: Address, n: nat): (s: bytes) {
    var count: nat := if n < 0x80 then n else 0x80 + BytesRequired(n);
    var size: nat := 0xc0 + 20 + if n < 0x80 then 1 else 1 + BytesRequired(n);
    [size % 256] + (caller + [count % 256])
  }

  /** Below 128 contracts the hashed string tells caller and count apart. */
  lemma DeriveStringIsInjective(a: Address, m: nat, b: Address, n: nat)
    requires m < 128 && n < 128 && DeriveString(a, m) == DeriveString(b, n)
    ensures a == b && m == n
  {
    var s, t := DeriveString(a, m), DeriveString(b, n);
    assert s[1..21] == a && t[1..21] == b;
    assert s[21] == m && t[21] == n;
  }

  predicate IsContractCall(cfg: Config, cs: Contracts, to: Address) {
    to == cfg.manager || to in cfg.protocol || to in cs
  }

  predicate IsPayable(cs: Contracts, to: Address, data: bytes) {
    to in cs && cs[to].Native? && (Functor(data) == NATIVE_DEPOSIT || Functor(data) == NATIVE_WITHDRAW)
  }

  function CreateContract(cfg: Config, w: World, tx: TxBlock): (r: Outcome) {
    var a := DeriveAddress(cfg.c, tx.from, |w.contracts|);
    if tx.from != cfg.creator || a in w.contracts || a in cfg.protocol then Threw(w)
    else match NewContract(tx.data, tx.from)
      case Ok(contract) => Returned(w.(contracts := w.contracts[a := contract]))
      case Err => Threw(w)
  }

  /** A payable function of a native wrapper: its new state and the overlay it leaves. */
  function PayableCall(t: Token, acc: Accounts, self: Address, tx: TxBlock): (r: Result<(Token, Balances)>) {
    if Functor(tx.data) == NATIVE_DEPOSIT then
      var b :- Credit(t.balances, tx.from, tx.value);
      Ok((t.(balances := b), map[]))
    else
      var v :- WithdrawalOf(tx.data);
      var b :- Debit(t.balances, tx.from, v);
      var o :- SendTokens(map[], acc, self, tx.from, v);
      Ok((t.(balances := b), o))
  }

  function FromPair(w: World, r: (Contracts, bool)): (o: Outcome) {
    if r.1 then Returned(w.(contracts := r.0)) else Threw(w.(contracts := r.0))
  }

  /** The contract commits before the balances are handed to the state. */
  function CallPayable(w: World, tx: TxBlock): (r: Outcome)
    requires tx.to in w.contracts && w.contracts[tx.to].Native?
  {
    match PayableCall(w.contracts[tx.to].token, w.accounts, tx.to, tx)
    case Err => Threw(w)
    case Ok((t, o)) =>
      var after := w.(contracts := SetToken(w.contracts, tx.to, t));
      if !w.processingPayable then Haywire(after) else Returned(after.(accounts := Install(w.accounts, o)))
  }

  function CallContract(cfg: Config, w: World, tx: TxBlock): (r: Outcome) {
    if tx.to == cfg.manager then CreateContract(cfg, w, tx)
    else if tx.to in cfg.protocol || tx.to !in w.contracts then Threw(w)
    else if IsPayable(w.contracts, tx.to, tx.data) then CallPayable(w, tx)
    else if w.contracts[tx.to].Wrapper? then
      match WrapperOpOf(tx.data)
      case Ok(op) => FromPair(w, WrapperStep(w.contracts, tx.to, tx.from, op))
      case Err => Threw(w)
    else
      match TokenOpOf(tx.data)
      case Ok(op) => FromPair(w, CallToken(w.contracts, tx.to, tx.from, op))
      case Err => Threw(w)
  }

  // ----- One transaction

  function Fee(tx: TxBlock): (n: nat) { tx.gasLimit * tx.maxFeePerGas }

  lemma FeeIsGasTimesPrice(tx: TxBlock)
    ensures Fee(tx) == tx.gasLimit * tx.maxFeePerGas
  {
  }

  /** The sender can pay value and fee, all within 256 bits. */
  predicate CanPay(acc: Accounts, tx: TxBlock) { tx.value + Fee(tx) <= BalanceOf(acc, tx.from) }

  /** What the exception handler does, whatever was thrown: value back, nonce up.  The addition
      itself may overflow, and then nothing catches it. */
  function Refund(w: World, tx: TxBlock): (r: Result<World>) {
    var b: nat := BalanceOf(w.accounts, tx.from) + tx.value;
    if b >= U256 then Err
    else Ok(w.(accounts := BumpNonce(SetBalance(w.accounts, tx.from, b), tx.from)))
  }

  function Debited(acc: Accounts, tx: TxBlock): (r: Accounts)
    requires CanPay(acc, tx)
  {
    SetBalance(acc, tx.from, BalanceOf(acc, tx.from) - (tx.value + Fee(tx)))
  }

  /** The world a contract call starts from: value moved, flag raised for payable functions. */
  function Prepared(w: World, acc: Accounts, tx: TxBlock): (r: World) {
    World(acc, w.contracts, IsPayable(w.contracts, tx.to, tx.data) || w.processingPayable)
  }

  function Deliver(cfg: Config, w: World, acc: Accounts, tx: TxBlock): (r: Result<World>) {
    if !IsContractCall(cfg, w.contracts, tx.to) then Ok(w.(accounts := BumpNonce(acc, tx.from))) else
      match CallContract(cfg, Prepared(w, acc, tx), tx)
      case Returned(n) => Ok(n.(accounts := BumpNonce(n.accounts, tx.from), processingPayable := false))
      case Threw(n) => Refund(n, tx)
      case Haywire(n) => Refund(n, tx)
  }

  function ProcessTransaction(cfg: Config, w: World, tx: TxBlock): (r: Result<World>) {
    if !CanPay(w.accounts, tx) then Refund(w, tx) else
      var d := Debited(w.accounts, tx);
      if BalanceOf(d, tx.to) + tx.value >= U256 then Refund(w.(accounts := d), tx)
      else Deliver(cfg, w, SetBalance(d, tx.to, BalanceOf(d, tx.to) + tx.value), tx)
  }

  // ----- What holds in every world

  /** A native wrapper's tokens are backed by its native balance. */
  ghost predicate Backed(acc: Accounts, cs: Contracts) {
    forall n :: n in cs && cs[n].Native? ==> Sum(cs[n].token.balances) <= BalanceOf(acc, n)
  }

  ghost predicate Healthy(reserved: set<Address>, w: World) {
    Sound(reserved, w.contracts) && Backed(w.accounts, w.contracts)
  }

  /** Contract addresses, now and later, are reserved. */
  ghost predicate Reserves(cfg: Config, reserved: set<Address>) {
    forall n: nat :: DeriveAddress(cfg.c, cfg.creator, n) in reserved
  }

  /** Balances of reserved addresses only grow, whoever pays. */
  ghost predicate Grown(reserved: set<Address>, before: Accounts, after: Accounts) {
    forall a :: a in reserved ==> BalanceOf(before, a) <= BalanceOf(after, a)
  }

  lemma BackedGrows(reserved: set<Address>, before: Accounts, after: Accounts, cs: Contracts)
    requires Known(reserved, cs) && Backed(before, cs) && Grown(reserved, before, after)
    ensures Backed(after, cs)
  {
    hide Sum, BalanceOf;
  }

  lemma RefundKeeps(reserved: set<Address>, w: World, tx: TxBlock)
    requires Healthy(reserved, w) && Refund(w, tx).Ok?
    ensures Healthy(reserved, Refund(w, tx).value) && Refund(w, tx).value.contracts == w.contracts
  {
    hide Sound, Backed, SetBalance, BumpNonce, BalanceOf;
    var b: u256 := BalanceOf(w.accounts, tx.from) + tx.value;
    var acc := SetBalance(w.accounts, tx.from, b);
    assert Grown(reserved, w.accounts, BumpNonce(acc, tx.from)) by {
      forall a ensures BalanceOf(w.accounts, a) <= BalanceOf(BumpNonce(acc, tx.from), a) {
        BalanceAfterSet(w.accounts, tx.from, b, a);
        BalanceAfterBump(acc, tx.from, a);
      }
    }
    SoundIsKnown(reserved, w.contracts);
    BackedGrows(reserved, w.accounts, BumpNonce(acc, tx.from), w.contracts);
  }

  lemma SoundIsKnown(reserved: set<Address>, cs: Contracts)
    requires Sound(reserved, cs)
    ensures Known(reserved, cs)
  {
  }

  /** A new contract owes nothing and is owed nothing. */
  lemma CreationKeepsSound(reserved: set<Address>, cs: Contracts, a: Address, contract: Contract)
    requires Sound(reserved, cs) && a !in cs && a in reserved && Fresh(contract)
    ensures Sound(reserved, cs[a := contract])
  {
    hide Sum;
    var after := cs[a := contract];
    forall w, t | IsWrapper(after, w) ensures Covered(after, w, t) {
      if w != a { assert IsWrapper(cs, w) && Covered(cs, w, t); }
    }
    forall x, r | IsToken(after, x) && r in reserved ensures NeverApproved(after[x].token, r) {
      if x != a { assert IsToken(cs, x); }
    }
  }

  ghost predicate Fresh(contract: Contract) {
    match contract
    case Erc20(t) => Sum(t.balances) == t.totalSupply && t.allowed == map[]
    case Native(t) => t.balances == map[] && t.allowed == map[]
    case Wrapper(l) => l == map[]
  }

  lemma NewContractIsFresh(data: bytes, caller: Address)
    requires NewContract(data, caller).Ok?
    ensures Fresh(NewContract(data, caller).value)
  {
    hide Sum, Arguments;
  }

  lemma CreateKeeps(cfg: Config, reserved: set<Address>, w: World, tx: TxBlock)
    requires Healthy(reserved, w) && Reserves(cfg, reserved)
    ensures Healthy(reserved, CreateContract(cfg, w, tx).w)
    ensures CreateContract(cfg, w, tx).Threw? ==> CreateContract(cfg, w, tx).w == w
  {
    hide Sound, DeriveAddress, NewContract, Sum, BalanceOf;
    var a := DeriveAddress(cfg.c, tx.from, |w.contracts|);
    if CreateContract(cfg, w, tx).Returned? {
      NewContractIsFresh(tx.data, tx.from);
      CreationKeepsSound(reserved, w.contracts, a, NewContract(tx.data, tx.from).value);
      EmptySum();
    }
  }

  lemma CallTokenKeepsBacked(acc: Accounts, cs: Contracts, at: Address, caller: Address, op: TokenOp)
    requires Backed(acc, cs)
    ensures Backed(acc, CallToken(cs, at, caller, op).0)
  {
    hide CallToken, Sum, TokenStep, BalanceOf;
    TokenAfterCall(cs, at, caller, op);
    if CallToken(cs, at, caller, op).1 { TokenStepKeepsSum(cs[at].token, caller, op); }
  }

  lemma SetEntryKeepsBacked(acc: Accounts, cs: Contracts, self: Address, token: Address, user: Address, v: u256)
    requires Backed(acc, cs) && IsWrapper(cs, self)
    ensures Backed(acc, SetEntry(cs, self, token, user, v))
  {
    hide Sum, BalanceOf;
  }

  lemma WrapperKeepsBacked(acc: Accounts, cs: Contracts, self: Address, caller: Address, op: WrapperOp)
    requires Backed(acc, cs) && IsWrapper(cs, self)
    ensures Backed(acc, WrapperStep(cs, self, caller, op).0)
  {
    hide CallToken, SetEntry, Backed, Entry;
    match op
    case Withdraw(token, v) => PayOutKeepsBacked(acc, cs, self, caller, token, caller, v);
    case TransferTo(token, to, v) => PayOutKeepsBacked(acc, cs, self, caller, token, to, v);
    case Deposit(token, v) =>
      CallTokenKeepsBacked(acc, cs, token, self, TransferFrom(caller, self, v));
      var after := CallToken(cs, token, self, TransferFrom(caller, self, v)).0;
      if IsWrapper(after, self) && Entry(cs, self, token, caller) + v < U256 {
        SetEntryKeepsBacked(acc, after, self, token, caller, Entry(cs, self, token, caller) + v);
      }
  }

  lemma PayOutKeepsBacked(acc: Accounts, cs: Contracts, self: Address, user: Address, token: Address, to: Address,
    v: u256)
    requires Backed(acc, cs) && IsWrapper(cs, self)
    ensures Backed(acc, PayOut(cs, self, user, token, to, v).0)
  {
    hide CallToken, SetEntry, Backed, Entry;
    CallTokenKeepsBacked(acc, cs, token, self, Transfer(to, v));
    var after := CallToken(cs, token, self, Transfer(to, v)).0;
    if IsWrapper(after, self) && Entry(cs, self, token, user) > v {
      SetEntryKeepsBacked(acc, after, self, token, user, Entry(cs, self, token, user) - v);
    }
  }

  /** Changing one unreserved holder of a native wrapper's tokens touches no wrapper's cover. */
  lemma HolderChangeKeepsSound(reserved: set<Address>, cs: Contracts, n: Address, holder: Address, v: u256)
    requires Sound(reserved, cs) && n in cs && cs[n].Native? && holder !in reserved
    ensures Sound(reserved, SetToken(cs, n, cs[n].token.(balances := cs[n].token.balances[holder := v])))
  {
    hide Sum, NeverApproved;
    var t := cs[n].token;
    var u := t.(balances := t.balances[holder := v]);
    var after := SetToken(cs, n, u);
    forall w, k | IsWrapper(after, w) ensures Covered(after, w, k) {
      assert IsWrapper(cs, w) && Covered(cs, w, k);
    }
    forall x, r | IsToken(after, x) && r in reserved ensures NeverApproved(after[x].token, r) {
      assert IsToken(cs, x) && NeverApproved(cs[x].token, r);
      if x == n { SameAllowances(t, u, r); }
    }
  }

  lemma SameAllowances(t: Token, u: Token, r: Address)
    requires NeverApproved(t, r) && t.allowed == u.allowed
    ensures NeverApproved(u, r)
  {
    forall s ensures Allowance(u, r, s) == 0 { AllowanceReads(t, u, r, s); }
  }

  lemma PayableFacts(t: Token, acc: Accounts, self: Address, tx: TxBlock)
    requires PayableCall(t, acc, self, tx).Ok? && self != tx.from
    ensures var (u, o) := PayableCall(t, acc, self, tx).value;
      PaidIn(t, u, acc, Install(acc, o), tx.from, tx.value)
      || exists v: u256 :: PaidOut(t, u, acc, Install(acc, o), self, tx.from, v)
  {
    hide SendTokens, Install, Arguments, SetBalance, BalanceOf;
    if Functor(tx.data) == NATIVE_DEPOSIT {
      InstallNothing(acc);
      assert PaidIn(t, PayableCall(t, acc, self, tx).value.0, acc, Install(acc, map[]), tx.from, tx.value);
    } else {
      var v := WithdrawalOf(tx.data).value;
      var (u, o) := PayableCall(t, acc, self, tx).value;
      SendTokensFacts(acc, self, tx.from, v);
      assert PaidOut(t, u, acc, Install(acc, o), self, tx.from, v);
    }
  }

  lemma InstallNothing(acc: Accounts)
    ensures Install(acc, map[]) == acc
  {
  }

  /** The holder's tokens and the wrapper's native balance fall by the same amount, which the holder receives. */
  ghost predicate PaidOut(t: Token, u: Token, before: Accounts, after: Accounts, self: Address, holder: Address,
    v: u256)
  {
    && v <= Get(t.balances, holder) && u == t.(balances := t.balances[holder := Get(t.balances, holder) - v])
    && v <= BalanceOf(before, self) && BalanceOf(before, holder) + v < U256
    && after == SetBalance(SetBalance(before, self, BalanceOf(before, self) - v), holder, BalanceOf(before, holder) + v)
  }

  ghost predicate PaidIn(t: Token, u: Token, before: Accounts, after: Accounts, holder: Address, value: u256) {
    && Get(t.balances, holder) + value < U256
    && u == t.(balances := t.balances[holder := Get(t.balances, holder) + value])
    && after == before
  }

  lemma PayableKeeps(reserved: set<Address>, d: Accounts, w: World, tx: TxBlock)
    requires Sound(reserved, w.contracts) && Backed(d, w.contracts) && tx.from !in reserved
    requires tx.to in w.contracts && w.contracts[tx.to].Native?
    requires BalanceOf(d, tx.to) + tx.value < U256 && w.accounts == SetBalance(d, tx.to, BalanceOf(d, tx.to) + tx.value)
    ensures CallPayable(w, tx).Returned? ==> Healthy(reserved, CallPayable(w, tx).w)
  {
    hide Sound, PayableCall, Install, SetBalance, BalanceOf, Sum, Backed, PaidIn, PaidOut;
    IsReserved(reserved, w.contracts, tx.to);
    var t := w.contracts[tx.to].token;
    if CallPayable(w, tx).Returned? {
      PayableFacts(t, w.accounts, tx.to, tx);
      var (u, o) := PayableCall(t, w.accounts, tx.to, tx).value;
      if PaidIn(t, u, w.accounts, Install(w.accounts, o), tx.from, tx.value) {
        PaidInKeeps(reserved, d, w, Install(w.accounts, o), u, tx);
      } else {
        var v: u256 :| PaidOut(t, u, w.accounts, Install(w.accounts, o), tx.to, tx.from, v);
        PaidOutKeeps(reserved, d, w, Install(w.accounts, o), u, tx, v);
      }
    }
  }

  lemma PaidInKeeps(reserved: set<Address>, d: Accounts, w: World, after: Accounts, u: Token, tx: TxBlock)
    requires Sound(reserved, w.contracts) && Backed(d, w.contracts) && tx.from !in reserved
    requires tx.to in w.contracts && w.contracts[tx.to].Native?
    requires BalanceOf(d, tx.to) + tx.value < U256 && w.accounts == SetBalance(d, tx.to, BalanceOf(d, tx.to) + tx.value)
    requires PaidIn(w.contracts[tx.to].token, u, w.accounts, after, tx.from, tx.value)
    ensures Sound(reserved, SetToken(w.contracts, tx.to, u)) && Backed(after, SetToken(w.contracts, tx.to, u))
  {
    hide Sound, SetBalance, BalanceOf, Sum;
    var cs := w.contracts;
    var t := cs[tx.to].token;
    HolderChangeKeepsSound(reserved, cs, tx.to, tx.from, Get(t.balances, tx.from) + tx.value);
    SumOfUpdate(t.balances, tx.from, Get(t.balances, tx.from) + tx.value);
    var cs' := SetToken(cs, tx.to, u);
    forall n | n in cs' && cs'[n].Native? ensures Sum(cs'[n].token.balances) <= BalanceOf(after, n) {
      BalanceAfterSet(d, tx.to, BalanceOf(d, tx.to) + tx.value, n);
    }
  }

  lemma PaidOutKeeps(reserved: set<Address>, d: Accounts, w: World, after: Accounts, u: Token, tx: TxBlock, v: u256)
    requires Sound(reserved, w.contracts) && Backed(d, w.contracts) && tx.from !in reserved
    requires tx.to in w.contracts && w.contracts[tx.to].Native?
    requires BalanceOf(d, tx.to) + tx.value < U256 && w.accounts == SetBalance(d, tx.to, BalanceOf(d, tx.to) + tx.value)
    requires PaidOut(w.contracts[tx.to].token, u, w.accounts, after, tx.to, tx.from, v)
    ensures Sound(reserved, SetToken(w.contracts, tx.to, u)) && Backed(after, SetToken(w.contracts, tx.to, u))
  {
    hide Sound, SetBalance, BalanceOf, Sum;
    var cs := w.contracts;
    var t := cs[tx.to].token;
    HolderChangeKeepsSound(reserved, cs, tx.to, tx.from, Get(t.balances, tx.from) - v);
    SumOfUpdate(t.balances, tx.from, Get(t.balances, tx.from) - v);
    var cs' := SetToken(cs, tx.to, u);
    var mid := SetBalance(w.accounts, tx.to, BalanceOf(w.accounts, tx.to) - v);
    forall n | n in cs' && cs'[n].Native? ensures Sum(cs'[n].token.balances) <= BalanceOf(after, n) {
      IsReserved(reserved, cs, n);
      BalanceAfterSet(d, tx.to, BalanceOf(d, tx.to) + tx.value, n);
      BalanceAfterSet(w.accounts, tx.to, BalanceOf(w.accounts, tx.to) - v, n);
      BalanceAfterSet(mid, tx.from, BalanceOf(w.accounts, tx.from) + v, n);
    }
  }

  /** A contract call keeps the world healthy; one that throws leaves every contract as it was. */
  lemma CallKeepsHealthy(cfg: Config, reserved: set<Address>, d: Accounts, w: World, tx: TxBlock)
    requires Sound(reserved, w.contracts) && Backed(d, w.contracts) && Reserves(cfg, reserved) && tx.from !in reserved
    requires BalanceOf(d, tx.to) + tx.value < U256 && w.accounts == SetBalance(d, tx.to, BalanceOf(d, tx.to) + tx.value)
    requires IsPayable(w.contracts, tx.to, tx.data) ==> w.processingPayable
    ensures !CallContract(cfg, w, tx).Haywire? && Healthy(reserved, CallContract(cfg, w, tx).w)
    ensures CallContract(cfg, w, tx).Threw? ==> CallContract(cfg, w, tx).w == w
  {
    hide Sound, Backed, CreateContract, CallPayable, WrapperOpOf, TokenOpOf, WrapperStep, CallToken, Reserves,
      SetBalance, BalanceOf;
    CreditKeepsBacked(reserved, d, w, tx);
    if tx.to == cfg.manager {
      CreateKeeps(cfg, reserved, w, tx);
      CreateReturnsOrThrows(cfg, w, tx);
    } else if tx.to in cfg.protocol || tx.to !in w.contracts {
    } else if IsPayable(w.contracts, tx.to, tx.data) {
      PayableKeeps(reserved, d, w, tx);
      PayableReturnsOrThrows(w, tx);
    } else if w.contracts[tx.to].Wrapper? {
      if WrapperOpOf(tx.data).Ok? {
        WrapperStepIsSafe(reserved, w.contracts, tx.to, tx.from, WrapperOpOf(tx.data).value);
        WrapperKeepsBacked(w.accounts, w.contracts, tx.to, tx.from, WrapperOpOf(tx.data).value);
      }
    } else if TokenOpOf(tx.data).Ok? {
      CallKeepsSound(reserved, w.contracts, tx.to, tx.from, TokenOpOf(tx.data).value);
      CallTokenKeepsBacked(w.accounts, w.contracts, tx.to, tx.from, TokenOpOf(tx.data).value);
      TokenAfterCall(w.contracts, tx.to, tx.from, TokenOpOf(tx.data).value);
    }
  }

  lemma CreditKeepsBacked(reserved: set<Address>, d: Accounts, w: World, tx: TxBlock)
    requires Sound(reserved, w.contracts) && Backed(d, w.contracts)
    requires BalanceOf(d, tx.to) + tx.value < U256 && w.accounts == SetBalance(d, tx.to, BalanceOf(d, tx.to) + tx.value)
    ensures Backed(w.accounts, w.contracts)
  {
    hide Sound, Backed, SetBalance, BalanceOf;
    SoundIsKnown(reserved, w.contracts);
    forall a | a in reserved ensures BalanceOf(d, a) <= BalanceOf(w.accounts, a) {
      BalanceAfterSet(d, tx.to, BalanceOf(d, tx.to) + tx.value, a);
    }
    BackedGrows(reserved, d, w.accounts, w.contracts);
  }

  lemma CreateReturnsOrThrows(cfg: Config, w: World, tx: TxBlock)
    ensures !CreateContract(cfg, w, tx).Haywire?
  {
  }

  lemma PayableReturnsOrThrows(w: World, tx: TxBlock)
    requires tx.to in w.contracts && w.contracts[tx.to].Native? && w.processingPayable
    ensures !CallPayable(w, tx).Haywire? && (CallPayable(w, tx).Threw? ==> CallPayable(w, tx).w == w)
  {
    hide PayableCall, Install;
  }

  /** Whatever the flag was left at, a transaction never meets the haywire exception. */
  lemma HaywireIsUnreachable(cfg: Config, w: World, acc: Accounts, tx: TxBlock)
    ensures !CallContract(cfg, Prepared(w, acc, tx), tx).Haywire?
  {
    hide CreateContract, CallPayable, WrapperOpOf, TokenOpOf, WrapperStep, CallToken;
    CreateReturnsOrThrows(cfg, Prepared(w, acc, tx), tx);
    if IsPayable(w.contracts, tx.to, tx.data) { PayableReturnsOrThrows(Prepared(w, acc, tx), tx); }
  }

  lemma DebitKeepsBacked(reserved: set<Address>, w: World, tx: TxBlock)
    requires Healthy(reserved, w) && tx.from !in reserved && CanPay(w.accounts, tx)
    ensures Backed(Debited(w.accounts, tx), w.contracts)
  {
    hide Sound, Backed, SetBalance, BalanceOf;
    SoundIsKnown(reserved, w.contracts);
    forall a | a in reserved ensures BalanceOf(w.accounts, a) <= BalanceOf(Debited(w.accounts, tx), a) {
      BalanceAfterSet(w.accounts, tx.from, BalanceOf(w.accounts, tx.from) - (tx.value + Fee(tx)), a);
    }
    BackedGrows(reserved, w.accounts, Debited(w.accounts, tx), w.contracts);
  }

  lemma BumpKeepsBacked(acc: Accounts, a: Address, cs: Contracts)
    requires Backed(acc, cs)
    ensures Backed(BumpNonce(acc, a), cs)
  {
    hide Sum, BumpNonce, BalanceOf;
    forall n | n in cs && cs[n].Native? ensures Sum(cs[n].token.balances) <= BalanceOf(BumpNonce(acc, a), n) {
      BalanceAfterBump(acc, a, n);
    }
  }

  /** Every transaction of a sender who is no contract keeps the world healthy. */
  lemma TransactionKeepsHealthy(cfg: Config, reserved: set<Address>, w: World, tx: TxBlock)
    requires Healthy(reserved, w) && Reserves(cfg, reserved) && tx.from !in reserved
    requires ProcessTransaction(cfg, w, tx).Ok?
    ensures Healthy(reserved, ProcessTransaction(cfg, w, tx).value)
  {
    hide Sound, Backed, CallContract, SetBalance, BalanceOf, Refund, CanPay, Debited, BumpNonce, Reserves, IsPayable;
    if !CanPay(w.accounts, tx) {
      RefundKeeps(reserved, w, tx);
    } else {
      var d := Debited(w.accounts, tx);
      DebitKeepsBacked(reserved, w, tx);
      if BalanceOf(d, tx.to) + tx.value >= U256 {
        RefundKeeps(reserved, w.(accounts := d), tx);
      } else {
        var acc := SetBalance(d, tx.to, BalanceOf(d, tx.to) + tx.value);
        var p := Prepared(w, acc, tx);
        CallKeepsHealthy(cfg, reserved, d, p, tx);
        CreditKeepsBacked(reserved, d, p, tx);
        var out := CallContract(cfg, p, tx);
        BumpKeepsBacked(acc, tx.from, w.contracts);
        BumpKeepsBacked(out.w.accounts, tx.from, out.w.contracts);
        if !out.Returned? && Refund(out.w, tx).Ok? { RefundKeeps(reserved, out.w, tx); }
      }
    }
  }

  // ----- Conservation

  /** Value that appears from nowhere: a debit that failed is refunded all the same, and a throwing
      contract keeps the credit the sender gets back. */
  predicate Mints(cfg: Config, w: World, tx: TxBlock) {
    if !CanPay(w.accounts, tx) then true else
      var d := Debited(w.accounts, tx);
      BalanceOf(d, tx.to) + tx.value < U256 && IsContractCall(cfg, w.contracts, tx.to)
      && !CallContract(cfg, Prepared(w, SetBalance(d, tx.to, BalanceOf(d, tx.to) + tx.value), tx), tx).Returned?
  }

  lemma CallKeepsTotal(cfg: Config, w: World, tx: TxBlock)
    requires tx.from !in w.contracts
    ensures Total(CallContract(cfg, w, tx).w.accounts) == Total(w.accounts)
  {
    hide Total, CreateContract, CallPayable, WrapperOpOf, TokenOpOf, WrapperStep, CallToken;
    CreateKeepsAccounts(cfg, w, tx);
    if IsPayable(w.contracts, tx.to, tx.data) { PayableKeepsTotal(w, tx); }
  }

  lemma CreateKeepsAccounts(cfg: Config, w: World, tx: TxBlock)
    ensures CreateContract(cfg, w, tx).w.accounts == w.accounts
  {
  }

  lemma PayableKeepsTotal(w: World, tx: TxBlock)
    requires tx.from !in w.contracts && tx.to in w.contracts && w.contracts[tx.to].Native?
    ensures Total(CallPayable(w, tx).w.accounts) == Total(w.accounts)
  {
    hide Total, PayableCall, Install, SetBalance, BalanceOf;
    var t := w.contracts[tx.to].token;
    if PayableCall(t, w.accounts, tx.to, tx).Ok? {
      PayableFacts(t, w.accounts, tx.to, tx);
      var (u, o) := PayableCall(t, w.accounts, tx.to, tx).value;
      var after := Install(w.accounts, o);
      if !PaidIn(t, u, w.accounts, after, tx.from, tx.value) {
        var v: u256 :| PaidOut(t, u, w.accounts, after, tx.to, tx.from, v);
        TransferKeepsTotal(w.accounts, tx.to, tx.from, v);
      }
    }
  }

  lemma TransferKeepsTotal(acc: Accounts, from: Address, to: Address, v: u256)
    requires from != to && v <= BalanceOf(acc, from) && BalanceOf(acc, to) + v < U256
    ensures Total(SetBalance(SetBalance(acc, from, BalanceOf(acc, from) - v), to, BalanceOf(acc, to) + v)) == Total(acc)
  {
    hide Total, SetBalance, BalanceOf;
    var mid := SetBalance(acc, from, BalanceOf(acc, from) - v);
    TotalAfterSet(acc, from, BalanceOf(acc, from) - v);
    BalanceAfterSet(acc, from, BalanceOf(acc, from) - v, to);
    TotalAfterSet(mid, to, BalanceOf(acc, to) + v);
  }

  lemma RefundTotal(w: World, tx: TxBlock)
    requires Refund(w, tx).Ok?
    ensures Total(Refund(w, tx).value.accounts) == Total(w.accounts) + tx.value
  {
    hide Total, SetBalance, BalanceOf, BumpNonce;
    var b: u256 := BalanceOf(w.accounts, tx.from) + tx.value;
    TotalAfterSet(w.accounts, tx.from, b);
    TotalAfterBump(SetBalance(w.accounts, tx.from, b), tx.from);
  }

  /** The native total falls by the fee and rises by what is minted, exactly. */
  lemma TransactionTotal(cfg: Config, w: World, tx: TxBlock)
    requires tx.from !in w.contracts && ProcessTransaction(cfg, w, tx).Ok?
    ensures Total(ProcessTransaction(cfg, w, tx).value.accounts) ==
      Total(w.accounts) - (if CanPay(w.accounts, tx) then tx.gasLimit * tx.maxFeePerGas else 0)
        + if Mints(cfg, w, tx) then tx.value else 0
  {
    hide Total, CallContract, SetBalance, BalanceOf, Refund, BumpNonce, Fee;
    FeeIsGasTimesPrice(tx);
    if !CanPay(w.accounts, tx) {
      RefundTotal(w, tx);
    } else {
      var d := Debited(w.accounts, tx);
      TotalAfterSet(w.accounts, tx.from, BalanceOf(w.accounts, tx.from) - (tx.value + Fee(tx)));
      if BalanceOf(d, tx.to) + tx.value >= U256 {
        RefundTotal(w.(accounts := d), tx);
      } else {
        var acc := SetBalance(d, tx.to, BalanceOf(d, tx.to) + tx.value);
        TotalAfterSet(d, tx.to, BalanceOf(d, tx.to) + tx.value);
        TotalAfterBump(acc, tx.from);
        var p := Prepared(w, acc, tx);
        CallKeepsTotal(cfg, p, tx);
        var out := CallContract(cfg, p, tx);
        TotalAfterBump(out.w.accounts, tx.from);
        if Refund(out.w, tx).Ok? { RefundTotal(out.w, tx); }
      }
    }
  }

  // ----- Who is affected

  /** What a contract call may do to the account of someone who neither sends nor is a contract. */
  ghost predicate Bystander(before: Accounts, after: Accounts, a: Address) {
    BalanceOf(before, a) <= BalanceOf(after, a) && NonceOf(before, a) == NonceOf(after, a)
  }

  lemma CallLeavesOthers(cfg: Config, w: World, tx: TxBlock, a: Address)
    requires tx.from !in w.contracts && a !in w.contracts
    ensures Bystander(w.accounts, CallContract(cfg, w, tx).w.accounts, a)
    ensures NonceOf(CallContract(cfg, w, tx).w.accounts, a) == NonceOf(w.accounts, a)
  {
    hide CreateContract, CallPayable, WrapperOpOf, TokenOpOf, WrapperStep, CallToken, BalanceOf, NonceOf;
    CreateKeepsAccounts(cfg, w, tx);
    if IsPayable(w.contracts, tx.to, tx.data) { PayableLeavesOthers(w, tx, a); }
  }

  lemma PayableLeavesOthers(w: World, tx: TxBlock, a: Address)
    requires tx.from !in w.contracts && tx.to in w.contracts && w.contracts[tx.to].Native? && a !in w.contracts
    ensures Bystander(w.accounts, CallPayable(w, tx).w.accounts, a)
  {
    hide PayableCall, Install, SetBalance, BalanceOf, NonceOf;
    var t := w.contracts[tx.to].token;
    if PayableCall(t, w.accounts, tx.to, tx).Ok? {
      PayableFacts(t, w.accounts, tx.to, tx);
      var (u, o) := PayableCall(t, w.accounts, tx.to, tx).value;
      var after := Install(w.accounts, o);
      if !PaidIn(t, u, w.accounts, after, tx.from, tx.value) {
        var v: u256 :| PaidOut(t, u, w.accounts, after, tx.to, tx.from, v);
        var mid := SetBalance(w.accounts, tx.to, BalanceOf(w.accounts, tx.to) - v);
        BalanceAfterSet(w.accounts, tx.to, BalanceOf(w.accounts, tx.to) - v, a);
        BalanceAfterSet(mid, tx.from, BalanceOf(w.accounts, tx.from) + v, a);
      }
    }
  }

  lemma RefundLeavesOthers(w: World, tx: TxBlock, a: Address)
    requires Refund(w, tx).Ok?
    ensures BalanceOf(w.accounts, a) <= BalanceOf(Refund(w, tx).value.accounts, a)
    ensures NonceOf(Refund(w, tx).value.accounts, a)
      == if a == tx.from then Truncate64(NonceOf(w.accounts, a) + 1) else NonceOf(w.accounts, a)
  {
    hide SetBalance, BalanceOf, BumpNonce, NonceOf;
    var b: u256 := BalanceOf(w.accounts, tx.from) + tx.value;
    BalanceAfterSet(w.accounts, tx.from, b, a);
    BalanceAfterBump(SetBalance(w.accounts, tx.from, b), tx.from, a);
  }

  /** The sender's nonce grows by one, whatever happens; nobody else's changes, and nobody else but a
      contract can lose balance. */
  lemma TransactionEffects(cfg: Config, w: World, tx: TxBlock, a: Address)
    requires tx.from !in w.contracts && a !in w.contracts && ProcessTransaction(cfg, w, tx).Ok?
    ensures var after := ProcessTransaction(cfg, w, tx).value.accounts;
      && NonceOf(after, a) == (if a == tx.from then Truncate64(NonceOf(w.accounts, a) + 1) else NonceOf(w.accounts, a))
      && (a != tx.from ==> BalanceOf(w.accounts, a) <= BalanceOf(after, a))
  {
    hide CallContract, SetBalance, BalanceOf, NonceOf, Refund, BumpNonce, Fee, IsPayable;
    if !CanPay(w.accounts, tx) {
      RefundLeavesOthers(w, tx, a);
    } else {
      var d := Debited(w.accounts, tx);
      BalanceAfterSet(w.accounts, tx.from, BalanceOf(w.accounts, tx.from) - (tx.value + Fee(tx)), a);
      if BalanceOf(d, tx.to) + tx.value >= U256 {
        RefundLeavesOthers(w.(accounts := d), tx, a);
      } else {
        var acc := SetBalance(d, tx.to, BalanceOf(d, tx.to) + tx.value);
        BalanceAfterSet(d, tx.to, BalanceOf(d, tx.to) + tx.value, a);
        BalanceAfterBump(acc, tx.from, a);
        var p := Prepared(w, acc, tx);
        CallLeavesOthers(cfg, p, tx, a);
        var out := CallContract(cfg, p, tx);
        BalanceAfterBump(out.w.accounts, tx.from, a);
        if Refund(out.w, tx).Ok? { RefundLeavesOthers(out.w, tx, a); }
      }
    }
  }

  /** A sender who can pay loses at most value and fee, whatever the call does. */
  lemma SenderPaysAtMost(cfg: Config, w: World, tx: TxBlock)
    requires CanPay(w.accounts, tx) && tx.from !in w.contracts && ProcessTransaction(cfg, w, tx).Ok?
    ensures BalanceOf(ProcessTransaction(cfg, w, tx).value.accounts, tx.from)
      >= BalanceOf(w.accounts, tx.from) - (tx.value + Fee(tx))
  {
    hide CallContract, SetBalance, BalanceOf, NonceOf, Refund, BumpNonce, Fee, IsPayable;
    var a := tx.from;
    var d := Debited(w.accounts, tx);
    BalanceAfterSet(w.accounts, a, BalanceOf(w.accounts, a) - (tx.value + Fee(tx)), a);
    if BalanceOf(d, tx.to) + tx.value >= U256 {
      RefundLeavesOthers(w.(accounts := d), tx, a);
    } else {
      var acc := SetBalance(d, tx.to, BalanceOf(d, tx.to) + tx.value);
      BalanceAfterSet(d, tx.to, BalanceOf(d, tx.to) + tx.value, a);
      BalanceAfterBump(acc, a, a);
      CallLeavesOthers(cfg, Prepared(w, acc, tx), tx, a);
      var out := CallContract(cfg, Prepared(w, acc, tx), tx);
      BalanceAfterBump(out.w.accounts, a, a);
      if Refund(out.w, tx).Ok? { RefundLeavesOthers(out.w, tx, a); }
    }
  }

  /** A transfer between accounts moves the value and takes the fee, and nothing else. */
  lemma TransferEffects(cfg: Config, w: World, tx: TxBlock, a: Address)
    requires CanPay(w.accounts, tx) && !IsContractCall(cfg, w.contracts, tx.to) && Total(w.accounts) < U256
    ensures ProcessTransaction(cfg, w, tx).Ok? && ProcessTransaction(cfg, w, tx).value.contracts == w.contracts
    ensures BalanceOf(ProcessTransaction(cfg, w, tx).value.accounts, a) == BalanceOf(w.accounts, a)
      - (if a == tx.from then tx.value + tx.gasLimit * tx.maxFeePerGas else 0) + (if a == tx.to then tx.value else 0)
    ensures Total(ProcessTransaction(cfg, w, tx).value.accounts) == Total(w.accounts) - tx.gasLimit * tx.maxFeePerGas
  {
    hide Total, SetBalance, BalanceOf, NonceOf, Refund, BumpNonce, Fee, CallContract;
    FeeIsGasTimesPrice(tx);
    var paid: u256 := BalanceOf(w.accounts, tx.from) - (tx.value + Fee(tx));
    var d := Debited(w.accounts, tx);
    BalanceAfterSet(w.accounts, tx.from, paid, a);
    TotalAfterSet(w.accounts, tx.from, paid);
    BalanceIsPart(d, tx.to);
    var acc := SetBalance(d, tx.to, BalanceOf(d, tx.to) + tx.value);
    BalanceAfterSet(d, tx.to, BalanceOf(d, tx.to) + tx.value, a);
    TotalAfterSet(d, tx.to, BalanceOf(d, tx.to) + tx.value);
    BalanceAfterBump(acc, tx.from, a);
    TotalAfterBump(acc, tx.from);
  }

  lemma BalanceIsPart(acc: Accounts, a: Address)
    ensures BalanceOf(acc, a) <= Total(acc)
  {
    hide Sum;
    SumBoundsEach(BalancesOf(acc), a);
  }

  // ----- Whole runs

  /** `addBalance`: the faucet, which throws when the balance would not fit. */
  const FAUCET: u256 := 1_000_000_000_000_000_000_000

  function AddBalance(w: World, a: Address): (r: World) {
    if BalanceOf(w.accounts, a) + FAUCET >= U256 then w
    else w.(accounts := SetBalance(w.accounts, a, BalanceOf(w.accounts, a) + FAUCET))
  }

  datatype Event = Processed(tx: TxBlock) | Funded(a: Address)

  /** A transaction whose refund overflows ends the run. */
  function RunWorld(cfg: Config, w: World, events: seq<Event>): (r: Result<World>)
    decreases |events|
  {
    if |events| == 0 then Ok(w) else
      var next :- match events[0]
        case Processed(tx) => ProcessTransaction(cfg, w, tx)
        case Funded(a) => Ok(AddBalance(w, a));
      RunWorld(cfg, next, events[1..])
  }

  lemma AddBalanceKeepsHealthy(reserved: set<Address>, w: World, a: Address)
    requires Healthy(reserved, w)
    ensures Healthy(reserved, AddBalance(w, a))
  {
    hide Sound, Backed, SetBalance, BalanceOf;
    if AddBalance(w, a) != w {
      forall b | b in reserved ensures BalanceOf(w.accounts, b) <= BalanceOf(AddBalance(w, a).accounts, b) {
        BalanceAfterSet(w.accounts, a, BalanceOf(w.accounts, a) + FAUCET, b);
      }
      SoundIsKnown(reserved, w.contracts);
      BackedGrows(reserved, w.accounts, AddBalance(w, a).accounts, w.contracts);
    }
  }

  /** Solvency and backing hold after every run of senders who are not contracts, from any accounts
      and no contracts. */
  lemma {:induction false} RunIsHealthy(cfg: Config, reserved: set<Address>, w: World, events: seq<Event>)
    requires Healthy(reserved, w) && Reserves(cfg, reserved)
    requires forall i :: 0 <= i < |events| && events[i].Processed? ==> events[i].tx.from !in reserved
    requires RunWorld(cfg, w, events).Ok?
    ensures Healthy(reserved, RunWorld(cfg, w, events).value)
    decreases |events|
  {
    hide Healthy, Reserves, ProcessTransaction, AddBalance;
    if |events| > 0 {
      match events[0]
      case Processed(tx) =>
        TransactionKeepsHealthy(cfg, reserved, w, tx);
        RunIsHealthy(cfg, reserved, ProcessTransaction(cfg, w, tx).value, events[1..]);
      case Funded(a) =>
        AddBalanceKeepsHealthy(reserved, w, a);
        RunIsHealthy(cfg, reserved, AddBalance(w, a), events[1..]);
    }
  }

  lemma GenesisIsHealthy(reserved: set<Address>, acc: Accounts, flag: bool)
    ensures Healthy(reserved, World(acc, map[], flag))
  {
  }

  // ----- How many contracts there can be

  /** From 128 contracts on the derived address no longer depends on how many there are (below 256). */
  lemma DerivedAddressRepeats(c: Crypto, caller: Address, n: nat)
    requires 128 <= n < 256
    ensures DeriveAddress(c, caller, n) == DeriveAddress(c, caller, 128)
  {
    assert BytesRequired(n) == 1 && BytesRequired(128) == 1;
  }

  ghost predicate FewContracts(cfg: Config, cs: Contracts) {
    |cs| <= 129 && (|cs| == 129 ==> DeriveAddress(cfg.c, cfg.creator, 128) in cs)
  }

  lemma CallKeepsFew(cfg: Config, w: World, tx: TxBlock)
    requires FewContracts(cfg, w.contracts)
    ensures FewContracts(cfg, CallContract(cfg, w, tx).w.contracts)
  {
    hide DeriveAddress, WrapperOpOf, TokenOpOf, WrapperStep, CallToken, PayableCall, Install, NewContract;
    if tx.to == cfg.manager {
      if |w.contracts| == 129 { DerivedAddressRepeats(cfg.c, cfg.creator, 129); }
    } else if tx.to in w.contracts && tx.to !in cfg.protocol {
      CallKeepsKeys(cfg, w, tx);
    }
  }

  lemma CallKeepsKeys(cfg: Config, w: World, tx: TxBlock)
    requires tx.to != cfg.manager && tx.to in w.contracts && tx.to !in cfg.protocol
    ensures CallContract(cfg, w, tx).w.contracts.Keys == w.contracts.Keys
    ensures |CallContract(cfg, w, tx).w.contracts| == |w.contracts|
  {
    hide WrapperOpOf, TokenOpOf, CallToken, PayableCall, Install, SetEntry, Entry;
    var cs, after := w.contracts, CallContract(cfg, w, tx).w.contracts;
    if cs[tx.to].Wrapper? && WrapperOpOf(tx.data).Ok? {
      WrapperKeepsKeys(cs, tx.to, tx.from, WrapperOpOf(tx.data).value);
    } else if !cs[tx.to].Wrapper? && TokenOpOf(tx.data).Ok? {
      TokenAfterCall(cs, tx.to, tx.from, TokenOpOf(tx.data).value);
    }
    assert after.Keys == cs.Keys;
    assert |after| == |after.Keys| && |cs| == |cs.Keys|;
  }

  lemma WrapperKeepsKeys(cs: Contracts, self: Address, caller: Address, op: WrapperOp)
    requires IsWrapper(cs, self)
    ensures WrapperStep(cs, self, caller, op).0.Keys == cs.Keys
  {
    hide CallToken, Entry;
    match op
    case Withdraw(token, v) => TokenAfterCall(cs, token, self, Transfer(caller, v));
    case TransferTo(token, to, v) => TokenAfterCall(cs, token, self, Transfer(to, v));
    case Deposit(token, v) => TokenAfterCall(cs, token, self, TransferFrom(caller, self, v));
  }

  /** No run ever has more than 129 contracts: the 130th would get the address of the 129th. */
  lemma {:induction false} ContractsAreFew(cfg: Config, w: World, events: seq<Event>)
    requires FewContracts(cfg, w.contracts) && RunWorld(cfg, w, events).Ok?
    ensures FewContracts(cfg, RunWorld(cfg, w, events).value.contracts)
    decreases |events|
  {
    hide FewContracts, CallContract, Refund, CanPay, Debited, SetBalance, BumpNonce, BalanceOf, IsPayable;
    if |events| > 0 {
      match events[0]
      case Processed(tx) =>
        TransactionKeepsFew(cfg, w, tx);
        ContractsAreFew(cfg, ProcessTransaction(cfg, w, tx).value, events[1..]);
      case Funded(a) =>
        ContractsAreFew(cfg, AddBalance(w, a), events[1..]);
    }
  }

  lemma TransactionKeepsFew(cfg: Config, w: World, tx: TxBlock)
    requires FewContracts(cfg, w.contracts) && ProcessTransaction(cfg, w, tx).Ok?
    ensures FewContracts(cfg, ProcessTransaction(cfg, w, tx).value.contracts)
  {
    hide FewContracts, CallContract, CanPay, Debited, SetBalance, BumpNonce, BalanceOf, IsPayable;
    if CanPay(w.accounts, tx) {
      var d := Debited(w.accounts, tx);
      if BalanceOf(d, tx.to) + tx.value < U256 {
        CallKeepsFew(cfg, Prepared(w, SetBalance(d, tx.to, BalanceOf(d, tx.to) + tx.value), tx), tx);
      }
    }
  }
}
