/** Call data: functors and ABI-encoded arguments of the contract functions
    (registerContractFunctions of src/contract/erc20.cpp, src/contract/erc20wrapper.cpp and
    src/contract/nativewrapper.cpp; ContractManager::ethCall). */
module Calls {
  import opened Bytes
  import opened Ledger
  import opened Contracts
  import opened Abi
  import AbiAccepts

  const TRANSFER: bytes := [0xa9, 0x05, 0x9c, 0xbb]
  const APPROVE: bytes := [0x09, 0x5e, 0xa7, 0xb3]
  const TRANSFER_FROM: bytes := [0x23, 0xb8, 0x72, 0xdd]
  const WRAPPER_WITHDRAW: bytes := [0xf3, 0xfe, 0xf3, 0xa3]
  const WRAPPER_TRANSFER_TO: bytes := [0xa5, 0xf2, 0xa1, 0x52]
  const WRAPPER_DEPOSIT: bytes := [0x47, 0xe7, 0xef, 0x24]
  const NATIVE_DEPOSIT: bytes := [0xd0, 0xe3, 0x0d, 0xb0]
  const NATIVE_WITHDRAW: bytes := [0x2e, 0x1a, 0x7d, 0x4d]
  const CREATE_ERC20: bytes := [0xb7, 0x4e, 0x5e, 0xd5]
  const CREATE_WRAPPER: bytes := [0x97, 0xaa, 0x51, 0xa3]
  const CREATE_NATIVE: bytes := [0x9f, 0x90, 0xf4, 0xc7]

  /** `data.substr(0, 4)`. */
  function Functor(data: bytes): (f: bytes) { if |data| < 4 then data else data[..4] }

  function Arguments(ts: seq<Type>, data: bytes): (r: Result<seq<Arg>>) {
    if |data| < 4 then Err else
      var xs :- Decode(ts, data[4..]);
      if |xs| == |ts| && forall i :: 0 <= i < |xs| ==> HasType(xs[i], ts[i]) then Ok(xs) else Err
  }

  /** The functions an ERC20 (and a native wrapper) registers. */
  function TokenOpOf(data: bytes): (r: Result<TokenOp>) {
    if Functor(data) == TRANSFER then
      var xs :- Arguments([TAddress, TUint256], data);
      if |xs| == 2 && xs[0].Addr? && xs[1].Uint256? then Ok(Transfer(xs[0].a, xs[1].n)) else Err
    else if Functor(data) == APPROVE then
      var xs :- Arguments([TAddress, TUint256], data);
      if |xs| == 2 && xs[0].Addr? && xs[1].Uint256? then Ok(Approve(xs[0].a, xs[1].n)) else Err
    else if Functor(data) == TRANSFER_FROM then
      var xs :- Arguments([TAddress, TAddress, TUint256], data);
      if |xs| == 3 && xs[0].Addr? && xs[1].Addr? && xs[2].Uint256? then Ok(TransferFrom(xs[0].a, xs[1].a, xs[2].n))
      else Err
    else Err
  }

  function WrapperOpOf(data: bytes): (r: Result<WrapperOp>) {
    if Functor(data) == WRAPPER_WITHDRAW then
      var xs :- Arguments([TAddress, TUint256], data);
      if |xs| == 2 && xs[0].Addr? && xs[1].Uint256? then Ok(Withdraw(xs[0].a, xs[1].n)) else Err
    else if Functor(data) == WRAPPER_TRANSFER_TO then
      var xs :- Arguments([TAddress, TAddress, TUint256], data);
      if |xs| == 3 && xs[0].Addr? && xs[1].Addr? && xs[2].Uint256? then Ok(TransferTo(xs[0].a, xs[1].a, xs[2].n))
      else Err
    else if Functor(data) == WRAPPER_DEPOSIT then
      var xs :- Arguments([TAddress, TUint256], data);
      if |xs| == 2 && xs[0].Addr? && xs[1].Uint256? then Ok(Deposit(xs[0].a, xs[1].n)) else Err
    else Err
  }

  /** Amount of a native withdrawal. */
  function WithdrawalOf(data: bytes): (r: Result<u256>) {
    var xs :- Arguments([TUint256], data);
    if |xs| == 1 && xs[0].Uint256? then Ok(xs[0].n) else Err
  }

  /** The contract a creation call builds for `caller`; decimals must fit a byte. */
  function NewContract(data: bytes, caller: Address): (r: Result<Contract>) {
    if Functor(data) == CREATE_ERC20 then
      var xs :- Arguments([TString, TString, TUint256, TUint256], data);
      if |xs| == 4 && xs[2].Uint256? && xs[3].Uint256? && xs[2].n <= 255 then Ok(Erc20(Minted(caller, xs[3].n)))
      else Err
    else if Functor(data) == CREATE_WRAPPER then
      Ok(Wrapper(map[]))
    else if Functor(data) == CREATE_NATIVE then
      var xs :- Arguments([TString, TString, TUint256], data);
      if |xs| == 3 && xs[2].Uint256? && xs[2].n <= 255 then Ok(Native(Token(0, map[], map[]))) else Err
    else Err
  }

  // ----- What callers send

  /** The four bytes a function registers under. */
  function SelectorOf(op: TokenOp): (f: bytes)
    ensures |f| == 4
  {
    match op
    case Transfer(_, _) => TRANSFER
    case Approve(_, _) => APPROVE
    case TransferFrom(_, _, _) => TRANSFER_FROM
  }

  function ArgumentsOf(op: TokenOp): (xs: seq<Arg>) {
    match op
    case Transfer(to, v) => [Addr(to), Uint256(v)]
    case Approve(spender, v) => [Addr(spender), Uint256(v)]
    case TransferFrom(from, to, v) => [Addr(from), Addr(to), Uint256(v)]
  }

  function WrapperSelectorOf(op: WrapperOp): (f: bytes)
    ensures |f| == 4
  {
    match op
    case Withdraw(_, _) => WRAPPER_WITHDRAW
    case TransferTo(_, _, _) => WRAPPER_TRANSFER_TO
    case Deposit(_, _) => WRAPPER_DEPOSIT
  }

  function WrapperArgumentsOf(op: WrapperOp): (xs: seq<Arg>) {
    match op
    case Withdraw(token, v) => [Addr(token), Uint256(v)]
    case TransferTo(token, to, v) => [Addr(token), Addr(to), Uint256(v)]
    case Deposit(token, v) => [Addr(token), Uint256(v)]
  }

  lemma {:induction false} NoTails(ps: seq<Piece>)
    requires forall i :: 0 <= i < |ps| ==> ps[i].Static?
    ensures Tails(ps) == []
  {
    if |ps| > 0 { NoTails(ps[1..]); }
  }

  /** Static arguments take one word each. */
  lemma StaticSize(xs: seq<Arg>)
    requires |xs| < U64 && forall i :: 0 <= i < |xs| ==> !IsDynamic(xs[i])
    ensures |Encode(xs)| == 32 * |xs|
  {
    hide HeadsAndTails, Words, PieceOf, Tails;
    NoTails(PiecesOf(xs));
    PiecesAreOneWord(xs);
    WordsAreOneWord();
    LayoutSize(Words(), PiecesOf(xs), U256);
  }

  lemma ArgumentsWritten(selector: bytes, xs: seq<Arg>, ts: seq<Type>)
    requires |selector| == 4 && |xs| == |ts| && (forall i :: 0 <= i < |xs| ==> HasType(xs[i], ts[i]))
    requires |Encode(xs)| < U64
    ensures Functor(selector + Encode(xs)) == selector && Arguments(ts, selector + Encode(xs)) == Ok(xs)
  {
    hide Encode, Decode, HasType;
    Abi.RoundTrip(xs, ts, selector);
    assert (selector + Encode(xs))[..4] == selector;
  }

  /** The token decodes exactly the operation that was encoded, by a sender or by a wrapper (a
      wrapper's selector being the one the token registers, which is up to the hash of the header). */
  lemma TokenCallIsUnderstood(op: TokenOp)
    ensures TokenOpOf(SelectorOf(op) + Encode(ArgumentsOf(op))) == Ok(op)
  {
    hide Encode, Arguments, Functor;
    StaticSize(ArgumentsOf(op));
    var ts := if op.TransferFrom? then [TAddress, TAddress, TUint256] else [TAddress, TUint256];
    ArgumentsWritten(SelectorOf(op), ArgumentsOf(op), ts);
  }

  lemma WrapperCallIsUnderstood(op: WrapperOp)
    ensures WrapperOpOf(WrapperSelectorOf(op) + Encode(WrapperArgumentsOf(op))) == Ok(op)
  {
    hide Encode, Arguments, Functor;
    StaticSize(WrapperArgumentsOf(op));
    var ts := if op.TransferTo? then [TAddress, TAddress, TUint256] else [TAddress, TUint256];
    ArgumentsWritten(WrapperSelectorOf(op), WrapperArgumentsOf(op), ts);
  }

  lemma WithdrawalIsUnderstood(v: u256)
    ensures WithdrawalOf(NATIVE_WITHDRAW + Encode([Uint256(v)])) == Ok(v)
  {
    hide Encode, Arguments, Functor;
    StaticSize([Uint256(v)]);
    ArgumentsWritten(NATIVE_WITHDRAW, [Uint256(v)], [TUint256]);
  }

  /** A new token: the whole supply with one holder, and no allowances. */
  ghost predicate AllWith(t: Token, holder: Address, supply: u256) {
    && t.totalSupply == supply
    && (forall a :: Get(t.balances, a) == if a == holder then supply else 0)
    && (forall o, s :: Allowance(t, o, s) == 0)
  }

  /** A creation call builds the contract it describes, if its arguments fit and the decimals a byte: an
      ERC20 whose supply the caller holds, a native wrapper nobody holds, a wrapper that owes nothing. */
  lemma CreationIsUnderstood(name: bytes, symbol: bytes, decimals: u256, supply: u256, rest: bytes, caller: Address)
    requires |Encode([Bytes(name), Bytes(symbol), Uint256(decimals), Uint256(supply)])| < U64
    requires |Encode([Bytes(name), Bytes(symbol), Uint256(decimals)])| < U64
    ensures var r := NewContract(CREATE_ERC20
        + Encode([Bytes(name), Bytes(symbol), Uint256(decimals), Uint256(supply)]), caller);
      (r.Ok? <==> decimals <= 255) && (r.Ok? ==> r.value.Erc20? && AllWith(r.value.token, caller, supply))
    ensures var r := NewContract(CREATE_NATIVE + Encode([Bytes(name), Bytes(symbol), Uint256(decimals)]), caller);
      (r.Ok? <==> decimals <= 255) && (r.Ok? ==> r.value.Native? && AllWith(r.value.token, caller, 0))
    ensures NewContract(CREATE_WRAPPER + rest, caller) == Ok(Wrapper(map[]))
  {
    hide Encode, Arguments, Functor, Minted;
    ArgumentsWritten(CREATE_ERC20, [Bytes(name), Bytes(symbol), Uint256(decimals), Uint256(supply)],
                     [TString, TString, TUint256, TUint256]);
    ArgumentsWritten(CREATE_NATIVE, [Bytes(name), Bytes(symbol), Uint256(decimals)], [TString, TString, TUint256]);
    FunctorFirst(CREATE_WRAPPER, rest);
  }

  lemma FunctorFirst(selector: bytes, rest: bytes)
    requires |selector| == 4
    ensures Functor(selector + rest) == selector
  {
    assert (selector + rest)[..4] == selector;
  }

  // ----- What callers may send

  /** Four bytes that name the function and arguments of these types behind them. */
  ghost predicate Calls(data: bytes, selector: bytes, ts: seq<Type>, xs: seq<Arg>) {
    |data| >= 4 && data[..4] == selector && Decode(ts, data[4..]) == Ok(xs)
  }

  lemma ArgumentsAreDecoded(ts: seq<Type>, data: bytes)
    ensures Arguments(ts, data) == if |data| < 4 then Err else Decode(ts, data[4..])
  {
    hide Decode;
    if |data| >= 4 && Decode(ts, data[4..]).Ok? {
      AbiAccepts.DecodesExactly(ts, data[4..], Decode(ts, data[4..]).value);
    }
  }

  /** A token understands exactly the calls of its three functions. */
  lemma TokenCallsExactly(data: bytes, op: TokenOp)
    ensures TokenOpOf(data) == Ok(op) <==>
      match op
      case Transfer(to, v) => Calls(data, [0xa9, 0x05, 0x9c, 0xbb], [TAddress, TUint256], [Addr(to), Uint256(v)])
      case Approve(spender, v) =>
        Calls(data, [0x09, 0x5e, 0xa7, 0xb3], [TAddress, TUint256], [Addr(spender), Uint256(v)])
      case TransferFrom(from, to, v) =>
        Calls(data, [0x23, 0xb8, 0x72, 0xdd], [TAddress, TAddress, TUint256], [Addr(from), Addr(to), Uint256(v)])
  {
    hide Decode, Arguments;
    ArgumentsAreDecoded([TAddress, TUint256], data);
    ArgumentsAreDecoded([TAddress, TAddress, TUint256], data);
    TwoArguments(data);
    ThreeArguments(data);
  }

  lemma TwoArguments(data: bytes)
    ensures |data| >= 4 && Decode([TAddress, TUint256], data[4..]).Ok? ==>
      var xs := Decode([TAddress, TUint256], data[4..]).value;
      |xs| == 2 && xs[0].Addr? && xs[1].Uint256? && xs == [Addr(xs[0].a), Uint256(xs[1].n)]
  {
    hide Decode;
    if |data| >= 4 && Decode([TAddress, TUint256], data[4..]).Ok? {
      var xs := Decode([TAddress, TUint256], data[4..]).value;
      AbiAccepts.DecodesExactly([TAddress, TUint256], data[4..], xs);
      assert HasType(xs[0], TAddress) && HasType(xs[1], TUint256);
    }
  }

  lemma ThreeArguments(data: bytes)
    ensures |data| >= 4 && Decode([TAddress, TAddress, TUint256], data[4..]).Ok? ==>
      var xs := Decode([TAddress, TAddress, TUint256], data[4..]).value;
      && |xs| == 3 && xs[0].Addr? && xs[1].Addr? && xs[2].Uint256?
      && xs == [Addr(xs[0].a), Addr(xs[1].a), Uint256(xs[2].n)]
  {
    hide Decode;
    if |data| >= 4 && Decode([TAddress, TAddress, TUint256], data[4..]).Ok? {
      var xs := Decode([TAddress, TAddress, TUint256], data[4..]).value;
      AbiAccepts.DecodesExactly([TAddress, TAddress, TUint256], data[4..], xs);
      assert HasType(xs[0], TAddress) && HasType(xs[1], TAddress) && HasType(xs[2], TUint256);
    }
  }

  /** And a wrapper those of its three. */
  lemma WrapperCallsExactly(data: bytes, op: WrapperOp)
    ensures WrapperOpOf(data) == Ok(op) <==>
      match op
      case Withdraw(token, v) =>
        Calls(data, [0xf3, 0xfe, 0xf3, 0xa3], [TAddress, TUint256], [Addr(token), Uint256(v)])
      case TransferTo(token, to, v) =>
        Calls(data, [0xa5, 0xf2, 0xa1, 0x52], [TAddress, TAddress, TUint256], [Addr(token), Addr(to), Uint256(v)])
      case Deposit(token, v) =>
        Calls(data, [0x47, 0xe7, 0xef, 0x24], [TAddress, TUint256], [Addr(token), Uint256(v)])
  {
    hide Decode, Arguments;
    ArgumentsAreDecoded([TAddress, TUint256], data);
    ArgumentsAreDecoded([TAddress, TAddress, TUint256], data);
    TwoArguments(data);
    ThreeArguments(data);
  }
}
