/** Balances with checked 256-bit arithmetic, and the two token contracts built on them
    (src/contract/erc20.cpp, src/contract/nativewrapper.cpp). */
module Ledger {
  import opened Bytes

  type Balances = map<Address, u256>

  function Get(m: Balances, a: Address): (n: u256) { if a in m then m[a] else 0 }

  /** `m[a]` of a map of maps, where a missing row reads as empty. */
  function Row(m: map<Address, Balances>, a: Address): (r: Balances) { if a in m then m[a] else map[] }

  // ----- Sums

  ghost function Sum(m: Balances): (n: nat) {
    if m == map[] then 0 else
      var k :| k in m;
      m[k] + Sum(m - {k})
  }

  lemma {:induction false} SumWithout(m: Balances, k: Address)
    requires k in m
    ensures Sum(m) == m[k] + Sum(m - {k})
    decreases |m|
  {
    var j :| j in m && Sum(m) == m[j] + Sum(m - {j});
    if j != k {
      SumWithout(m - {j}, k);
      SumWithout(m - {k}, j);
      assert m - {j} - {k} == m - {k} - {j};
    }
  }

  lemma SumOfUpdate(m: Balances, k: Address, v: u256)
    ensures Sum(m[k := v]) == Sum(m) - Get(m, k) + v
  {
    hide Sum;
    SumWithout(m[k := v], k);
    if k in m {
      SumWithout(m, k);
      assert m[k := v] - {k} == m - {k};
    } else {
      assert m[k := v] - {k} == m;
    }
  }

  lemma SumBoundsEach(m: Balances, k: Address)
    ensures Get(m, k) <= Sum(m)
  {
    if k in m { SumWithout(m, k); }
  }

  lemma SumBoundsTwo(m: Balances, j: Address, k: Address)
    requires j != k
    ensures Get(m, j) + Get(m, k) <= Sum(m)
  {
    if j in m {
      SumWithout(m, j);
      SumBoundsEach(m - {j}, k);
    } else {
      SumBoundsEach(m, k);
    }
  }

  // ----- Checked arithmetic: an overflow or underflow throws

  function Debit(m: Balances, a: Address, v: u256): (r: Result<Balances>) {
    if Get(m, a) < v then Err else Ok(m[a := Get(m, a) - v])
  }

  function Credit(m: Balances, a: Address, v: u256): (r: Result<Balances>) {
    if Get(m, a) + v >= U256 then Err else Ok(m[a := Get(m, a) + v])
  }

  /** `balances[from] -= v; balances[to] += v`. */
  function Move(m: Balances, from: Address, to: Address, v: u256): (r: Result<Balances>) {
    var m1 :- Debit(m, from, v);
    Credit(m1, to, v)
  }

  lemma MoveFacts(m: Balances, from: Address, to: Address, v: u256)
    requires Move(m, from, to, v).Ok?
    ensures var r := Move(m, from, to, v).value;
      Sum(r) == Sum(m) && v <= Get(m, from)
      && (from != to ==> Get(r, from) == Get(m, from) - v && Get(r, to) == Get(m, to) + v)
      && (from == to ==> Get(r, to) == Get(m, to))
      && forall a :: a != from && a != to ==> Get(r, a) == Get(m, a)
  {
    hide Sum;
    var m1 := Debit(m, from, v).value;
    SumOfUpdate(m, from, Get(m, from) - v);
    SumOfUpdate(m1, to, Get(m1, to) + v);
  }

  /** A move within a ledger whose sum fits 256 bits fails only for want of funds. */
  lemma MoveSucceeds(m: Balances, from: Address, to: Address, v: u256)
    requires Sum(m) < U256
    ensures Move(m, from, to, v).Ok? <==> v <= Get(m, from)
  {
    hide Sum;
    SumBoundsEach(m, from);
    if from != to { SumBoundsTwo(m, from, to); }
  }

  // ----- Token contracts

  datatype Token = Token(totalSupply: u256, balances: Balances, allowed: map<Address, Balances>)

  function Allowance(t: Token, owner: Address, spender: Address): (n: u256) {
    Get(Row(t.allowed, owner), spender)
  }

  function SetAllowance(t: Token, owner: Address, spender: Address, v: u256): (r: Token) {
    t.(allowed := t.allowed[owner := Row(t.allowed, owner)[spender := v]])
  }

  datatype TokenOp =
    | Transfer(to: Address, v: u256)
    | Approve(spender: Address, v: u256)
    | TransferFrom(from: Address, to: Address, v: u256)

  /** What a call leaves; Err is a throw, after which the call's changes are reverted. */
  function TokenStep(t: Token, caller: Address, op: TokenOp): (r: Result<Token>) {
    match op
    case Transfer(to, v) =>
      var b :- Move(t.balances, caller, to, v);
      Ok(t.(balances := b))
    case Approve(spender, v) =>
      Ok(SetAllowance(t, caller, spender, v))
    case TransferFrom(from, to, v) =>
      if Allowance(t, from, caller) < v then Err else
        var b :- Move(t.balances, from, to, v);
        Ok(SetAllowance(t, from, caller, Allowance(t, from, caller) - v).(balances := b))
  }

  /** The constructor: everything to the creator. */
  function Minted(creator: Address, v: u256): (t: Token)
    ensures Sum(t.balances) == t.totalSupply == v
    ensures forall a :: Get(t.balances, a) == if a == creator then v else 0
    ensures forall o, s :: Allowance(t, o, s) == 0
  {
    SumOfUpdate(map[], creator, v);
    Token(v, map[creator := v], map[])
  }

  /** No operation creates or destroys tokens. */
  lemma TokenStepKeepsSum(t: Token, caller: Address, op: TokenOp)
    requires TokenStep(t, caller, op).Ok?
    ensures Sum(TokenStep(t, caller, op).value.balances) == Sum(t.balances)
    ensures TokenStep(t, caller, op).value.totalSupply == t.totalSupply
  {
    hide Move, Sum;
    match op
    case Transfer(to, v) => MoveFacts(t.balances, caller, to, v);
    case Approve(_, _) =>
    case TransferFrom(from, to, v) => MoveFacts(t.balances, from, to, v);
  }

  lemma AllowanceAfterSet(t: Token, owner: Address, spender: Address, v: u256, o: Address, s: Address)
    ensures Allowance(SetAllowance(t, owner, spender, v), o, s)
      == if o == owner && s == spender then v else Allowance(t, o, s)
  {
  }

  /** What a move of v from one address to another adds to the balance of a. */
  function Moved(from: Address, to: Address, v: u256, a: Address): (d: int) {
    (if a == to then v as int else 0) - (if a == from then v as int else 0)
  }

  /** What each function leaves of every balance and every allowance: transfer moves the caller's
      tokens, approve sets one allowance, transferFrom moves the owner's and takes them off the
      caller's allowance. */
  lemma TokenStepEffects(t: Token, caller: Address, op: TokenOp, a: Address, o: Address, s: Address)
    requires TokenStep(t, caller, op).Ok?
    ensures var r := TokenStep(t, caller, op).value;
      match op
      case Transfer(to, v) =>
        && Get(r.balances, a) == Get(t.balances, a) + Moved(caller, to, v, a)
        && Allowance(r, o, s) == Allowance(t, o, s)
      case Approve(spender, v) =>
        && Get(r.balances, a) == Get(t.balances, a)
        && Allowance(r, o, s) == if o == caller && s == spender then v else Allowance(t, o, s)
      case TransferFrom(from, to, v) =>
        && Get(r.balances, a) == Get(t.balances, a) + Moved(from, to, v, a)
        && Allowance(r, o, s) == Allowance(t, o, s) - if o == from && s == caller then v else 0
  {
    hide Move, Sum, SetAllowance, Allowance;
    var r := TokenStep(t, caller, op).value;
    match op
    case Transfer(to, v) =>
      MoveFacts(t.balances, caller, to, v);
      AllowanceReads(t, r, o, s);
    case Approve(spender, v) =>
      SetKeepsBalances(t, caller, spender, v);
      AllowanceAfterSet(t, caller, spender, v, o, s);
    case TransferFrom(from, to, v) =>
      MoveFacts(t.balances, from, to, v);
      var paid := SetAllowance(t, from, caller, Allowance(t, from, caller) - v);
      AllowanceAfterSet(t, from, caller, Allowance(t, from, caller) - v, o, s);
      AllowanceReads(paid, r, o, s);
  }

  /** Owner `a` never approved anyone. */
  ghost predicate NeverApproved(t: Token, a: Address) {
    forall s :: Allowance(t, a, s) == 0
  }

  /** Whoever acts, an address that never approves keeps zero allowances. */
  lemma NeverApprovedIsKept(t: Token, caller: Address, op: TokenOp, a: Address)
    requires TokenStep(t, caller, op).Ok? && NeverApproved(t, a) && (op.Approve? ==> caller != a)
    ensures NeverApproved(TokenStep(t, caller, op).value, a)
  {
    hide Move, SetAllowance, Allowance;
    var r := TokenStep(t, caller, op).value;
    forall s ensures Allowance(r, a, s) == 0 {
      match op
      case Transfer(_, _) => AllowanceReads(t, r, a, s);
      case Approve(spender, v) => AllowanceAfterSet(t, caller, spender, v, a, s);
      case TransferFrom(from, _, v) =>
        var u := SetAllowance(t, from, caller, Allowance(t, from, caller) - v);
        AllowanceAfterSet(t, from, caller, Allowance(t, from, caller) - v, a, s);
        AllowanceReads(u, r, a, s);
    }
  }

  lemma AllowanceReads(t: Token, u: Token, a: Address, s: Address)
    requires t.allowed == u.allowed
    ensures Allowance(t, a, s) == Allowance(u, a, s)
  {
  }

  /** Such an address only loses tokens by its own transfers. */
  lemma OthersCannotSpend(t: Token, caller: Address, op: TokenOp, a: Address)
    requires TokenStep(t, caller, op).Ok? && NeverApproved(t, a) && caller != a
    ensures Get(TokenStep(t, caller, op).value.balances, a) >= Get(t.balances, a)
  {
    hide Move, SetAllowance, Sum;
    match op
    case Transfer(to, v) => MoveFacts(t.balances, caller, to, v);
    case Approve(_, _) => SetKeepsBalances(t, caller, op.spender, op.v);
    case TransferFrom(from, to, v) => MoveFacts(t.balances, from, to, v);
  }

  lemma SetKeepsBalances(t: Token, owner: Address, spender: Address, v: u256)
    ensures SetAllowance(t, owner, spender, v).balances == t.balances
  {
  }

  /** The object whose methods these are. */
  class TokenContract {
    var totalSupply: u256
    var balances: Balances
    var allowed: map<Address, Balances>

    function View(): (t: Token)
      reads this
    {
      Token(totalSupply, balances, allowed)
    }

    constructor (creator: Address, mintValue: u256)
      ensures View() == Minted(creator, mintValue)
      ensures totalSupply == mintValue && forall a :: Get(balances, a) == if a == creator then mintValue else 0
    {
      balances := map[creator := mintValue];
      totalSupply := mintValue;
      allowed := map[];
    }

    method TransferTokens(caller: Address, to: Address, value: u256) returns (ok: bool)
      modifies this`balances
      ensures ok <==> TokenStep(old(View()), caller, Transfer(to, value)).Ok?
      ensures View() == if ok then TokenStep(old(View()), caller, Transfer(to, value)).value else old(View())
    {
      var saved := balances;
      if Get(balances, caller) < value { return false; }
      balances := balances[caller := Get(balances, caller) - value];
      if Get(balances, to) + value >= U256 {
        balances := saved;
        return false;
      }
      balances := balances[to := Get(balances, to) + value];
      ok := true;
    }

    method ApproveSpender(caller: Address, spender: Address, value: u256)
      modifies this`allowed
      ensures Ok(View()) == TokenStep(old(View()), caller, Approve(spender, value))
    {
      allowed := allowed[caller := Row(allowed, caller)[spender := value]];
    }

    method TransferTokensFrom(caller: Address, from: Address, to: Address, value: u256) returns (ok: bool)
      modifies this`balances, this`allowed
      ensures ok <==> TokenStep(old(View()), caller, TransferFrom(from, to, value)).Ok?
      ensures View() == if ok then TokenStep(old(View()), caller, TransferFrom(from, to, value)).value else old(View())
    {
      var savedBalances, savedAllowed := balances, allowed;
      var theirs := Row(allowed, from);
      if Get(theirs, caller) < value { return false; }
      allowed := allowed[from := theirs[caller := Get(theirs, caller) - value]];
      if Get(balances, from) < value {
        allowed := savedAllowed;
        return false;
      }
      balances := balances[from := Get(balances, from) - value];
      if Get(balances, to) + value >= U256 {
        balances, allowed := savedBalances, savedAllowed;
        return false;
      }
      balances := balances[to := Get(balances, to) + value];
      ok := true;
    }
  }
}
