/** Contracts that call each other: tokens, native wrappers and ERC20 wrappers, and what holds of all
    of them together (src/contract/erc20wrapper.cpp, src/contract/contractmanager.cpp). */
module Contracts {
  import opened Bytes
  import opened Ledger

  datatype Contract =
    | Erc20(token: Token)
    | Native(token: Token)
    | Wrapper(ledger: map<Address, Balances>)

  type Contracts = map<Address, Contract>

  predicate IsToken(cs: Contracts, a: Address) { a in cs && !cs[a].Wrapper? }

  predicate IsWrapper(cs: Contracts, a: Address) { a in cs && cs[a].Wrapper? }

  function SetToken(cs: Contracts, a: Address, t: Token): (r: Contracts)
    requires IsToken(cs, a)
  {
    cs[a := cs[a].(token := t)]
  }

  function Entry(cs: Contracts, self: Address, token: Address, user: Address): (n: u256)
    requires IsWrapper(cs, self)
  {
    Get(Row(cs[self].ledger, token), user)
  }

  function SetEntry(cs: Contracts, self: Address, token: Address, user: Address, v: u256): (r: Contracts)
    requires IsWrapper(cs, self)
  {
    cs[self := Wrapper(cs[self].ledger[token := Row(cs[self].ledger, token)[user := v]])]
  }

  // ----- Calls

  /** A call into a token, by a sender or by another contract.  It commits at once when it returns
      and changes nothing when it throws. */
  function CallToken(cs: Contracts, at: Address, caller: Address, op: TokenOp): (r: (Contracts, bool)) {
    if !IsToken(cs, at) then (cs, false) else
      match TokenStep(cs[at].token, caller, op)
      case Ok(t) => (SetToken(cs, at, t), true)
      case Err => (cs, false)
  }

  datatype WrapperOp =
    | Withdraw(token: Address, v: u256)
    | TransferTo(token: Address, to: Address, v: u256)
    | Deposit(token: Address, v: u256)

  /** The entry must exceed the amount.  The ledger is written first, but only committed after the
      token call has returned. */
  function PayOut(cs: Contracts, self: Address, user: Address, token: Address, to: Address, v: u256)
    : (r: (Contracts, bool))
    requires IsWrapper(cs, self)
  {
    if Entry(cs, self, token, user) <= v then (cs, false) else
      var (after, ok) := CallToken(cs, token, self, Transfer(to, v));
      if !ok || !IsWrapper(after, self) then (cs, false)
      else (SetEntry(after, self, token, user, Entry(cs, self, token, user) - v), true)
  }

  /** The token call comes first and stays committed if the addition then overflows. */
  function TakeIn(cs: Contracts, self: Address, user: Address, token: Address, v: u256): (r: (Contracts, bool))
    requires IsWrapper(cs, self)
  {
    var (after, ok) := CallToken(cs, token, self, TransferFrom(user, self, v));
    if !ok || !IsWrapper(after, self) then (cs, false)
    else if Entry(cs, self, token, user) + v >= U256 then (after, false)
    else (SetEntry(after, self, token, user, Entry(cs, self, token, user) + v), true)
  }

  function WrapperStep(cs: Contracts, self: Address, caller: Address, op: WrapperOp): (r: (Contracts, bool))
    requires IsWrapper(cs, self)
  {
    match op
    case Withdraw(token, v) => PayOut(cs, self, caller, token, caller, v)
    case TransferTo(token, to, v) => PayOut(cs, self, caller, token, to, v)
    case Deposit(token, v) => TakeIn(cs, self, caller, token, v)
  }

  // ----- What holds of all contracts

  /** Contracts live at reserved addresses, which nobody signs for. */
  ghost predicate Known(reserved: set<Address>, cs: Contracts) { cs.Keys <= reserved }

  /** Balances of an ERC20 sum to its supply. */
  ghost predicate Balanced(cs: Contracts) {
    forall a :: a in cs && cs[a].Erc20? ==> Sum(cs[a].token.balances) == cs[a].token.totalSupply
  }

  /** Contracts have approved nobody. */
  ghost predicate NoApprovals(reserved: set<Address>, cs: Contracts) {
    forall a, r :: IsToken(cs, a) && r in reserved ==> NeverApproved(cs[a].token, r)
  }

  /** Every sum a wrapper owes in a token is covered by its balance in that token. */
  ghost predicate Covered(cs: Contracts, w: Address, t: Address)
    requires IsWrapper(cs, w)
  {
    t in cs[w].ledger ==> IsToken(cs, t) && Sum(cs[w].ledger[t]) <= Get(cs[t].token.balances, w)
  }

  ghost predicate Solvent(cs: Contracts) {
    forall w, t :: IsWrapper(cs, w) ==> Covered(cs, w, t)
  }

  ghost predicate Sound(reserved: set<Address>, cs: Contracts) {
    Known(reserved, cs) && Balanced(cs) && NoApprovals(reserved, cs) && Solvent(cs)
  }

  // ----- Token calls

  lemma TokenAfterCall(cs: Contracts, at: Address, caller: Address, op: TokenOp)
    ensures var (after, ok) := CallToken(cs, at, caller, op);
      && after.Keys == cs.Keys
      && (forall a :: a in cs ==> (after[a].Wrapper? <==> cs[a].Wrapper?) && (after[a].Erc20? <==> cs[a].Erc20?))
      && (forall a :: a in cs && a != at ==> after[a] == cs[a])
      && (!ok ==> after == cs)
      && (ok ==> IsToken(cs, at) && TokenStep(cs[at].token, caller, op) == Ok(after[at].token))
  {
    hide TokenStep;
  }

  lemma CallKeepsBalanced(cs: Contracts, at: Address, caller: Address, op: TokenOp)
    requires Balanced(cs)
    ensures Balanced(CallToken(cs, at, caller, op).0)
  {
    hide CallToken, TokenStep, Sum;
    TokenAfterCall(cs, at, caller, op);
    if CallToken(cs, at, caller, op).1 { TokenStepKeepsSum(cs[at].token, caller, op); }
  }

  lemma CallKeepsNoApprovals(reserved: set<Address>, cs: Contracts, at: Address, caller: Address, op: TokenOp)
    requires NoApprovals(reserved, cs) && (op.Approve? ==> caller !in reserved)
    ensures NoApprovals(reserved, CallToken(cs, at, caller, op).0)
  {
    hide CallToken, TokenStep, NeverApproved;
    var (after, ok) := CallToken(cs, at, caller, op);
    TokenAfterCall(cs, at, caller, op);
    forall a, r | IsToken(after, a) && r in reserved ensures NeverApproved(after[a].token, r) {
      assert IsToken(cs, a) && NeverApproved(cs[a].token, r);
      if a == at && ok { NeverApprovedIsKept(cs[at].token, caller, op, r); }
    }
  }

  /** A token call leaves every wrapper covered except, perhaps, the one that made it. */
  lemma CallKeepsCovered(reserved: set<Address>, cs: Contracts, at: Address, caller: Address, op: TokenOp, w: Address,
    t: Address)
    requires NoApprovals(reserved, cs) && IsWrapper(cs, w) && w in reserved && Covered(cs, w, t) && w != caller
    ensures IsWrapper(CallToken(cs, at, caller, op).0, w) && Covered(CallToken(cs, at, caller, op).0, w, t)
  {
    hide CallToken, TokenStep, NeverApproved, Sum;
    var (after, ok) := CallToken(cs, at, caller, op);
    TokenAfterCall(cs, at, caller, op);
    if t == at && ok {
      assert IsToken(cs, at) && NeverApproved(cs[at].token, w);
      OthersCannotSpend(cs[at].token, caller, op, w);
    }
  }

  lemma CallKeepsSound(reserved: set<Address>, cs: Contracts, at: Address, caller: Address, op: TokenOp)
    requires Sound(reserved, cs) && caller !in reserved
    ensures Sound(reserved, CallToken(cs, at, caller, op).0)
  {
    hide CallToken, Balanced, NoApprovals, Covered;
    var after := CallToken(cs, at, caller, op).0;
    TokenAfterCall(cs, at, caller, op);
    CallKeepsBalanced(cs, at, caller, op);
    CallKeepsNoApprovals(reserved, cs, at, caller, op);
    forall w, t | IsWrapper(after, w) ensures Covered(after, w, t) {
      assert IsWrapper(cs, w) && Covered(cs, w, t);
      CallKeepsCovered(reserved, cs, at, caller, op, w, t);
    }
  }

  // ----- Wrapper calls

  lemma EntryAfterSet(cs: Contracts, self: Address, token: Address, user: Address, v: u256)
    requires IsWrapper(cs, self)
    ensures var after := SetEntry(cs, self, token, user, v);
      && after.Keys == cs.Keys && IsWrapper(after, self)
      && (forall a :: a in cs && a != self ==> after[a] == cs[a])
      && (forall t :: t != token ==> (t in after[self].ledger <==> t in cs[self].ledger))
      && (forall t :: t != token && t in cs[self].ledger ==> after[self].ledger[t] == cs[self].ledger[t])
      && token in after[self].ledger
      && Sum(after[self].ledger[token]) == Sum(Row(cs[self].ledger, token)) - Entry(cs, self, token, user) + v
  {
    hide Sum;
    SumOfUpdate(Row(cs[self].ledger, token), user, v);
  }

  /** Writing one entry is harmless if the new sum is covered. */
  lemma SetEntryKeepsSound(reserved: set<Address>, cs: Contracts, self: Address, token: Address, user: Address, v: u256)
    requires Known(reserved, cs) && Balanced(cs) && NoApprovals(reserved, cs) && IsWrapper(cs, self)
    requires forall w, t :: IsWrapper(cs, w) && (w != self || t != token) ==> Covered(cs, w, t)
    requires IsToken(cs, token)
    requires Sum(Row(cs[self].ledger, token)) - Entry(cs, self, token, user) + v <= Get(cs[token].token.balances, self)
    ensures Sound(reserved, SetEntry(cs, self, token, user, v))
  {
    hide SetEntry, Sum, NeverApproved, Entry;
    var after := SetEntry(cs, self, token, user, v);
    EntryAfterSet(cs, self, token, user, v);
    forall w, t | IsWrapper(after, w) ensures Covered(after, w, t) {
      assert IsWrapper(cs, w);
      if w != self || t != token { assert Covered(cs, w, t); }
    }
  }

  /** The sum owed, counting a missing row as nothing. */
  ghost function Owed(cs: Contracts, w: Address, t: Address): (n: nat)
    requires IsWrapper(cs, w)
  {
    Sum(Row(cs[w].ledger, t))
  }

  lemma EntryIsOwed(cs: Contracts, self: Address, token: Address, user: Address)
    requires IsWrapper(cs, self) && Covered(cs, self, token) && IsToken(cs, token)
    ensures Entry(cs, self, token, user) <= Owed(cs, self, token) <= Get(cs[token].token.balances, self)
  {
    hide Sum;
    SumBoundsEach(Row(cs[self].ledger, token), user);
    if token !in cs[self].ledger { EmptySum(); }
  }

  lemma EmptySum()
    ensures Sum(map[]) == 0
  {
  }

  /** What the token call of a wrapper does to that wrapper's own balance. */
  lemma OwnBalanceAfterCall(cs: Contracts, self: Address, at: Address, op: TokenOp)
    requires CallToken(cs, at, self, op).1
    ensures IsToken(cs, at) && IsToken(CallToken(cs, at, self, op).0, at)
    ensures op.Transfer? ==>
      Get(CallToken(cs, at, self, op).0[at].token.balances, self) >= Get(cs[at].token.balances, self) - op.v
    ensures op.TransferFrom? && op.from != self && op.to == self ==>
      Get(CallToken(cs, at, self, op).0[at].token.balances, self) == Get(cs[at].token.balances, self) + op.v
  {
    hide CallToken, Move, Sum;
    TokenAfterCall(cs, at, self, op);
    match op
    case Transfer(to, v) => MoveFacts(cs[at].token.balances, self, to, v);
    case Approve(_, _) =>
    case TransferFrom(from, to, v) => MoveFacts(cs[at].token.balances, from, to, v);
  }

  /** After its own token call a wrapper's other debts and everyone else's are still covered. */
  lemma NestedCallKeepsRest(reserved: set<Address>, cs: Contracts, self: Address, at: Address, op: TokenOp)
    requires Sound(reserved, cs) && IsWrapper(cs, self) && !op.Approve?
    ensures var after := CallToken(cs, at, self, op).0;
      && Known(reserved, after) && Balanced(after) && NoApprovals(reserved, after)
      && IsWrapper(after, self) && after[self] == cs[self]
      && forall w, t :: IsWrapper(after, w) && (w != self || t != at) ==> Covered(after, w, t)
  {
    hide CallToken, Balanced, NoApprovals, Sum;
    var after := CallToken(cs, at, self, op).0;
    TokenAfterCall(cs, at, self, op);
    CallKeepsBalanced(cs, at, self, op);
    CallKeepsNoApprovals(reserved, cs, at, self, op);
    forall w, t | IsWrapper(after, w) && (w != self || t != at) ensures Covered(after, w, t) {
      assert IsWrapper(cs, w) && Covered(cs, w, t);
      if w != self { CallKeepsCovered(reserved, cs, at, self, op, w, t); }
    }
  }

  lemma PayOutKeepsSound(reserved: set<Address>, cs: Contracts, self: Address, user: Address, token: Address,
    to: Address, v: u256)
    requires Sound(reserved, cs) && IsWrapper(cs, self)
    ensures Sound(reserved, PayOut(cs, self, user, token, to, v).0)
  {
    hide CallToken, SetEntry, Known, Balanced, NoApprovals, Sum, Entry, Sound;
    var op := Transfer(to, v);
    var (after, ok) := CallToken(cs, token, self, op);
    if PayOut(cs, self, user, token, to, v).1 {
      NestedCallKeepsRest(reserved, cs, self, token, op);
      OwnBalanceAfterCall(cs, self, token, op);
      CoveredIn(reserved, cs, self, token);
      EntryIsOwed(cs, self, token, user);
      SameLedgerSameEntry(cs, after, self, token, user);
      SetEntryKeepsSound(reserved, after, self, token, user, Entry(cs, self, token, user) - v);
    }
  }

  lemma CoveredIn(reserved: set<Address>, cs: Contracts, w: Address, t: Address)
    requires Sound(reserved, cs) && IsWrapper(cs, w)
    ensures Covered(cs, w, t)
  {
    hide Known, Balanced, NoApprovals, Covered;
  }

  lemma SameLedgerSameEntry(cs: Contracts, after: Contracts, self: Address, token: Address, user: Address)
    requires IsWrapper(cs, self) && IsWrapper(after, self) && after[self] == cs[self]
    ensures Entry(after, self, token, user) == Entry(cs, self, token, user)
    ensures Owed(after, self, token) == Owed(cs, self, token)
  {
  }

  lemma TakeInKeepsSound(reserved: set<Address>, cs: Contracts, self: Address, user: Address, token: Address, v: u256)
    requires Sound(reserved, cs) && IsWrapper(cs, self) && user !in reserved && self in reserved
    ensures Sound(reserved, TakeIn(cs, self, user, token, v).0)
    ensures CallToken(cs, token, self, TransferFrom(user, self, v)).1 ==> TakeIn(cs, self, user, token, v).1
  {
    hide CallToken, SetEntry, Known, Balanced, NoApprovals, Sum, Entry, Sound;
    var op := TransferFrom(user, self, v);
    var (after, ok) := CallToken(cs, token, self, op);
    if ok {
      NestedCallKeepsRest(reserved, cs, self, token, op);
      OwnBalanceAfterCall(cs, self, token, op);
      CoveredIn(reserved, cs, self, token);
      EntryIsOwed(cs, self, token, user);
      SameLedgerSameEntry(cs, after, self, token, user);
      SetEntryKeepsSound(reserved, after, self, token, user, Entry(cs, self, token, user) + v);
    }
  }

  /** Wrapper calls keep every ledger covered, and they are atomic: when the call fails nothing has
      changed in either contract, so the addition behind a deposit never overflows. */
  lemma WrapperStepIsSafe(reserved: set<Address>, cs: Contracts, self: Address, caller: Address, op: WrapperOp)
    requires Sound(reserved, cs) && IsWrapper(cs, self) && caller !in reserved
    ensures Sound(reserved, WrapperStep(cs, self, caller, op).0)
    ensures !WrapperStep(cs, self, caller, op).1 ==> WrapperStep(cs, self, caller, op).0 == cs
  {
    hide PayOut, TakeIn, Sound, CallToken;
    IsReserved(reserved, cs, self);
    match op
    case Withdraw(token, v) =>
      PayOutKeepsSound(reserved, cs, self, caller, token, caller, v);
      FailedPayOut(cs, self, caller, token, caller, v);
    case TransferTo(token, to, v) =>
      PayOutKeepsSound(reserved, cs, self, caller, token, to, v);
      FailedPayOut(cs, self, caller, token, to, v);
    case Deposit(token, v) =>
      TakeInKeepsSound(reserved, cs, self, caller, token, v);
      FailedTakeIn(cs, self, caller, token, v);
  }

  lemma IsReserved(reserved: set<Address>, cs: Contracts, a: Address)
    requires Sound(reserved, cs) && a in cs
    ensures a in reserved
  {
  }

  lemma FailedPayOut(cs: Contracts, self: Address, user: Address, token: Address, to: Address, v: u256)
    requires IsWrapper(cs, self)
    ensures !PayOut(cs, self, user, token, to, v).1 ==> PayOut(cs, self, user, token, to, v).0 == cs
  {
  }

  lemma FailedTakeIn(cs: Contracts, self: Address, user: Address, token: Address, v: u256)
    requires IsWrapper(cs, self)
    requires CallToken(cs, token, self, TransferFrom(user, self, v)).1 ==> TakeIn(cs, self, user, token, v).1
    ensures !TakeIn(cs, self, user, token, v).1 ==> TakeIn(cs, self, user, token, v).0 == cs
  {
    hide CallToken;
  }

  /** Whatever the ledger says above the amount can be taken out: the token never refuses. */
  lemma PayOutSucceeds(reserved: set<Address>, cs: Contracts, self: Address, user: Address, token: Address,
    to: Address, v: u256)
    requires Sound(reserved, cs) && IsWrapper(cs, self)
    requires forall t :: IsToken(cs, t) ==> Sum(cs[t].token.balances) < U256
    ensures PayOut(cs, self, user, token, to, v).1 <==> Entry(cs, self, token, user) > v
  {
    hide Sound, Sum, Move;
    CoveredIn(reserved, cs, self, token);
    if Entry(cs, self, token, user) > v {
      EntryIsOwed(cs, self, token, user);
      MoveSucceeds(cs[token].token.balances, self, to, v);
    }
  }

  // ----- What a wrapper call leaves

  /** The change of an entry: a deposit adds the amount to the caller's, everything else takes it off. */
  function EntryChange(op: WrapperOp): (d: int) { if op.Deposit? then op.v else 0 - op.v as int }

  lemma EntryOfOthers(cs: Contracts, self: Address, token: Address, user: Address, v: u256, w: Address, k: Address,
    u: Address)
    requires IsWrapper(cs, self) && IsWrapper(cs, w)
    ensures IsWrapper(SetEntry(cs, self, token, user, v), w)
    ensures Entry(SetEntry(cs, self, token, user, v), w, k, u)
      == if w == self && k == token && u == user then v else Entry(cs, w, k, u)
  {
  }

  lemma SameWrapperSameEntry(cs: Contracts, after: Contracts, w: Address, k: Address, u: Address)
    requires IsWrapper(cs, w) && IsWrapper(after, w) && after[w] == cs[w]
    ensures Entry(after, w, k, u) == Entry(cs, w, k, u)
  {
  }

  /** When a wrapper call returns, the caller's entry has changed by exactly the amount, and no other
      entry of any wrapper, for any token and user. */
  lemma WrapperStepEntries(cs: Contracts, self: Address, caller: Address, op: WrapperOp, w: Address, k: Address,
    u: Address)
    requires IsWrapper(cs, self) && WrapperStep(cs, self, caller, op).1 && IsWrapper(cs, w)
    ensures var after := WrapperStep(cs, self, caller, op).0;
      && IsWrapper(after, w)
      && Entry(after, w, k, u)
        == Entry(cs, w, k, u) + if w == self && k == op.token && u == caller then EntryChange(op) else 0
  {
    hide CallToken, SetEntry, Entry;
    var call := match op
      case Withdraw(_, v) => Transfer(caller, v)
      case TransferTo(_, to, v) => Transfer(to, v)
      case Deposit(_, v) => TransferFrom(caller, self, v);
    var mid := CallToken(cs, op.token, self, call).0;
    TokenAfterCall(cs, op.token, self, call);
    SameWrapperSameEntry(cs, mid, w, k, u);
    EntryOfOthers(mid, self, op.token, caller, Entry(cs, self, op.token, caller) + EntryChange(op), w, k, u);
  }

  /** Who gives and who receives in the token. */
  function Giver(self: Address, caller: Address, op: WrapperOp): (a: Address) { if op.Deposit? then caller else self }

  function Receiver(self: Address, caller: Address, op: WrapperOp): (a: Address) {
    match op
    case Withdraw(_, _) => caller
    case TransferTo(_, to, _) => to
    case Deposit(_, _) => self
  }

  /** And exactly that amount has moved in the token, from the wrapper to the receiver or from the
      depositor to the wrapper, whose allowance it came from; every other token is as it was. */
  lemma WrapperStepTokens(cs: Contracts, self: Address, caller: Address, op: WrapperOp, x: Address, a: Address,
    o: Address, s: Address)
    requires IsWrapper(cs, self) && WrapperStep(cs, self, caller, op).1 && IsToken(cs, x)
    ensures var after := WrapperStep(cs, self, caller, op).0;
      && IsToken(cs, op.token) && IsToken(after, x) && (x != op.token ==> after[x] == cs[x])
      && Get(after[x].token.balances, a) == Get(cs[x].token.balances, a)
        + (if x == op.token then Moved(Giver(self, caller, op), Receiver(self, caller, op), op.v, a) else 0)
      && Allowance(after[x].token, o, s) == Allowance(cs[x].token, o, s)
        - (if x == op.token && op.Deposit? && o == caller && s == self then op.v else 0)
  {
    hide CallToken, TokenStep, Entry, Allowance, Moved;
    var call := match op
      case Withdraw(_, v) => Transfer(caller, v)
      case TransferTo(_, to, v) => Transfer(to, v)
      case Deposit(_, v) => TransferFrom(caller, self, v);
    TokenAfterCall(cs, op.token, self, call);
    if x == op.token { TokenStepEffects(cs[x].token, self, call, a, o, s); }
  }
}
