/** Token functions as operations on the two transactional maps of a token: what a committing call
    installs is the specified step (src/contract/erc20.cpp, src/contract/dynamiccontract.h). */
module TokenScripts {
  import opened Bytes
  import opened Ledger
  import opened Overlay
  import opened DynamicContract

  /** A value of either variable: an amount, or a row of allowances. */
  datatype Cell = Cell(amount: u256, row: Balances)

  const ZERO: Cell := Cell(0, map[])

  type TokenScript = Script<Address, Cell>

  /** Positions of `_allowed` and `_balances` among the variables. */
  const ALLOWED := 0
  const BALANCES := 1

  function RowCells(m: map<Address, Balances>): (r: map<Address, Cell>) { map a | a in m :: Cell(0, m[a]) }

  function AmountCells(b: Balances): (r: map<Address, Cell>) { map a | a in b :: Cell(b[a], map[]) }

  /** The committed variables of a token. */
  function CellsOf(t: Token): (ms: seq<map<Address, Cell>>) { [RowCells(t.allowed), AmountCells(t.balances)] }

  // ----- What the functions do to the variables

  /** `variable[k] = v`: the entry is looked up, created if missing, and assigned. */
  function Change<K, V>(i: nat, k: K, v: V): (s: Script<K, V>) { [(i, Index(k)), (i, Assign(k, v))] }

  /** `_balances[a] = v`. */
  function SetAmount(a: Address, v: u256): (s: TokenScript) { Change(BALANCES, a, Cell(v, map[])) }

  /** `_allowed[owner][spender] = v`. */
  function SetCell(t: Token, owner: Address, spender: Address, v: u256): (s: TokenScript) {
    Change(ALLOWED, owner, Cell(0, Row(t.allowed, owner)[spender := v]))
  }

  /** `_balances[from] -= v; _balances[to] += v`. */
  function MoveScript(b: Balances, from: Address, to: Address, v: u256): (s: TokenScript)
    requires Move(b, from, to, v).Ok?
  {
    SetAmount(from, Get(b, from) - v) + SetAmount(to, Get(Debit(b, from, v).value, to) + v)
  }

  /** The same up to the checked operation that throws. */
  function ThrownMove(b: Balances, from: Address, to: Address, v: u256): (s: TokenScript)
    requires Move(b, from, to, v).Err?
  {
    if Get(b, from) < v then [(BALANCES, Index(from))]
    else SetAmount(from, Get(b, from) - v) + [(BALANCES, Index(to))]
  }

  /** The operations of a function, all of them or those before the one that throws. */
  function ScriptOf(t: Token, caller: Address, op: TokenOp): (s: TokenScript) {
    match op
    case Transfer(to, v) => MoveOrThrow(t.balances, caller, to, v)
    case Approve(spender, v) => SetCell(t, caller, spender, v)
    case TransferFrom(from, to, v) =>
      if Allowance(t, from, caller) < v then SetCell(t, from, caller, Allowance(t, from, caller))
      else SetCell(t, from, caller, Allowance(t, from, caller) - v) + MoveOrThrow(t.balances, from, to, v)
  }

  function MoveOrThrow(b: Balances, from: Address, to: Address, v: u256): (s: TokenScript) {
    if Move(b, from, to, v).Ok? then MoveScript(b, from, to, v) else ThrownMove(b, from, to, v)
  }

  // ----- What they install

  lemma ChangeThen<K, V>(ms: seq<map<K, V>>, i: nat, k: K, v: V, rest: Script<K, V>, zero: V)
    requires i < |ms| && forall j :: 0 <= j < |rest| ==> rest[j].0 < |ms|
    ensures PlainCall(ms, Change(i, k, v) + rest, zero) == PlainCall(ms[i := ms[i][k := v]], rest, zero)
  {
    var s := Change(i, k, v) + rest;
    var m := ms[i];
    var created := PlainStep(Plain(m, m), Index(k), zero).0.current;
    assert s[0] == (i, Index(k)) && s[1..][0] == (i, Assign(k, v)) && s[1..][1..] == rest;
    assert created[k := v] == m[k := v];
    assert PlainCall(ms, s, zero) == PlainCall(ms[i := created], s[1..], zero);
    assert ms[i := created][i := m[k := v]] == ms[i := m[k := v]];
  }

  lemma SetAmountThen(t: Token, a: Address, v: u256, rest: TokenScript)
    requires forall j :: 0 <= j < |rest| ==> rest[j].0 < 2
    ensures PlainCall(CellsOf(t), SetAmount(a, v) + rest, ZERO)
      == PlainCall(CellsOf(t.(balances := t.balances[a := v])), rest, ZERO)
  {
    hide PlainCall, Change;
    ChangeThen(CellsOf(t), BALANCES, a, Cell(v, map[]), rest, ZERO);
    assert AmountCells(t.balances)[a := Cell(v, map[])] == AmountCells(t.balances[a := v]);
    assert CellsOf(t)[1 := AmountCells(t.balances[a := v])] == CellsOf(t.(balances := t.balances[a := v]));
  }

  lemma SetCellThen(t: Token, owner: Address, spender: Address, v: u256, rest: TokenScript)
    requires forall j :: 0 <= j < |rest| ==> rest[j].0 < 2
    ensures PlainCall(CellsOf(t), SetCell(t, owner, spender, v) + rest, ZERO)
      == PlainCall(CellsOf(SetAllowance(t, owner, spender, v)), rest, ZERO)
  {
    hide PlainCall, Change;
    var row := Row(t.allowed, owner)[spender := v];
    ChangeThen(CellsOf(t), ALLOWED, owner, Cell(0, row), rest, ZERO);
    assert RowCells(t.allowed)[owner := Cell(0, row)] == RowCells(t.allowed[owner := row]);
    assert CellsOf(t)[0 := RowCells(t.allowed[owner := row])] == CellsOf(SetAllowance(t, owner, spender, v));
  }

  lemma Nothing(ms: seq<map<Address, Cell>>)
    ensures PlainCall(ms, [], ZERO) == Some(ms)
  {
  }

  lemma MoveScriptMoves(t: Token, from: Address, to: Address, v: u256)
    requires Move(t.balances, from, to, v).Ok?
    ensures forall j :: 0 <= j < |MoveScript(t.balances, from, to, v)| ==> MoveScript(t.balances, from, to, v)[j].0 < 2
    ensures PlainCall(CellsOf(t), MoveScript(t.balances, from, to, v), ZERO)
      == Some(CellsOf(t.(balances := Move(t.balances, from, to, v).value)))
  {
    hide PlainCall, CellsOf;
    var m := t.(balances := Debit(t.balances, from, v).value);
    var second := SetAmount(to, Get(m.balances, to) + v);
    SetAmountThen(t, from, Get(t.balances, from) - v, second);
    assert second + [] == second;
    SetAmountThen(m, to, Get(m.balances, to) + v, []);
    Nothing(CellsOf(m.(balances := m.balances[to := Get(m.balances, to) + v])));
  }

  /** On plain maps, the operations of a function that returns are its specified step. */
  lemma ScriptInstalls(t: Token, caller: Address, op: TokenOp)
    requires TokenStep(t, caller, op).Ok? && ScriptOk(ScriptOf(t, caller, op), 2)
    ensures PlainCall(CellsOf(t), ScriptOf(t, caller, op), ZERO) == Some(CellsOf(TokenStep(t, caller, op).value))
  {
    hide PlainCall, CellsOf, Move, SetAllowance, SetCell, MoveScript, Allowance, ScriptOk;
    match op
    case Transfer(to, v) => MoveScriptMoves(t, caller, to, v);
    case Approve(spender, v) =>
      assert SetCell(t, caller, spender, v) + [] == SetCell(t, caller, spender, v);
      SetCellThen(t, caller, spender, v, []);
      Nothing(CellsOf(SetAllowance(t, caller, spender, v)));
    case TransferFrom(from, to, v) =>
      var left: u256 := Allowance(t, from, caller) - v;
      var paid := SetAllowance(t, from, caller, left);
      SetKeepsBalances(t, from, caller, left);
      MoveScriptMoves(paid, from, to, v);
      SetCellThen(t, from, caller, left, MoveScript(t.balances, from, to, v));
  }

  /** No function erases, so none writes an erased key. */
  lemma {:induction false} NothingErased(s: TokenScript)
    requires forall j :: 0 <= j < |s| ==> s[j].0 < 2 && !s[j].1.Erase? && BodyOp(s[j].1)
    ensures NoScriptRewrites([{}, {}], s)
    decreases |s|
  {
    if |s| > 0 {
      var E: seq<set<Address>> := [{}, {}];
      assert ErasedAfter(E[s[0].0], s[0].1) == {};
      assert E[s[0].0 := {}] == E;
      NothingErased(s[1..]);
    }
  }

  lemma ScriptIsOk(t: Token, caller: Address, op: TokenOp)
    ensures ScriptOk(ScriptOf(t, caller, op), 2) && NoScriptRewrites([{}, {}], ScriptOf(t, caller, op))
  {
    hide MoveOrThrow, NoScriptRewrites, Allowance;
    match op {
      case Transfer(to, v) => PlainOps(t.balances, caller, to, v);
      case Approve(_, _) =>
      case TransferFrom(from, to, v) => PlainOps(t.balances, from, to, v);
    }
    NothingErased(ScriptOf(t, caller, op));
  }

  lemma PlainOps(b: Balances, from: Address, to: Address, v: u256)
    ensures var s := MoveOrThrow(b, from, to, v);
      forall j :: 0 <= j < |s| ==> s[j].0 < 2 && !s[j].1.Erase? && BodyOp(s[j].1)
  {
    hide Move;
  }

  /** A token function through the overlay: the step of both maps is committed, or nothing is. */
  method CallOperation(k: Contract<Address, Cell>, t: Token, caller: Address, op: TokenOp, commit: bool)
    returns (ok: bool)
    requires k.Quiet() && k.zero == ZERO && k.Bases() == CellsOf(t) && k.ErasedSets() == [{}, {}]
    modifies k, k.vars
    ensures k.Quiet() && (ok <==> TokenStep(t, caller, op).Ok?)
    ensures k.Bases() == CellsOf(if ok && commit then TokenStep(t, caller, op).value else t)
  {
    hide TokenStep, ScriptOf, CellsOf, PlainCall, NoScriptRewrites, ScriptOk;
    assert |k.ErasedSets()| == |k.vars| == 2;
    ScriptIsOk(t, caller, op);
    if TokenStep(t, caller, op).Ok? { ScriptInstalls(t, caller, op); }
    ok := k.EthCall(ScriptOf(t, caller, op), TokenStep(t, caller, op).Err?, commit);
  }
}
