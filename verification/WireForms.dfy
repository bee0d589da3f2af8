/** Which bytes the transaction parsers accept: every item has more than one form, and lengths need not
    be the shortest (src/utils/tx.cpp). */
module WireForms {
  import opened Bytes
  import opened Crypto
  import opened Rlp
  import Tx
  import ValidatorTx

  // ----- Items

  /** A byte up to 0x80, which stands for 0, or a length and that many bytes. */
  predicate UintForm(x: bytes, limit: nat) {
    |x| > 0 && if |x| == 1 then x[0] <= 0x80 else |x| - 1 <= limit && x[0] == 0x80 + (|x| - 1)
  }

  function UintIn(x: bytes): (n: nat)
    requires |x| > 0
  {
    if |x| > 1 then FromBigEndian(x[1..]) else if x[0] == 0x80 then 0 else x[0]
  }

  lemma UintIsRead(x: bytes, limit: nat, rest: bytes)
    requires UintForm(x, limit)
    ensures ReadUint(x + rest, limit) == Ok((UintIn(x), rest))
  {
    var b := x + rest;
    assert b[1..|x|] == x[1..] && b[|x|..] == rest;
  }

  lemma UintWasRead(b: bytes, limit: nat) returns (x: bytes)
    requires ReadUint(b, limit).Ok?
    ensures UintForm(x, limit) && b == x + ReadUint(b, limit).value.1 && UintIn(x) == ReadUint(b, limit).value.0
  {
    var rest := ReadUint(b, limit).value.1;
    var k := |b| - |rest|;
    x := b[..k];
    assert b == x + b[k..];
    if k > 1 { assert x[1..] == b[1..k]; }
  }

  /** Always a length, which may be 0. */
  predicate CountedForm(x: bytes, limit: nat) {
    0 < |x| <= limit + 1 && x[0] == 0x80 + (|x| - 1) && FromBigEndian(x[1..]) < U256
  }

  lemma CountedIsRead(x: bytes, limit: nat, rest: bytes)
    requires CountedForm(x, limit) && limit < 128
    ensures ReadPrefixedUint(x + rest, limit) == Ok((FromBigEndian(x[1..]), rest))
  {
    var b := x + rest;
    assert b[1..|x|] == x[1..] && b[|x|..] == rest;
  }

  lemma CountedWasRead(b: bytes, limit: nat) returns (x: bytes)
    requires ReadPrefixedUint(b, limit).Ok? && limit < 128
    ensures CountedForm(x, limit) && b == x + ReadPrefixedUint(b, limit).value.1
    ensures FromBigEndian(x[1..]) == ReadPrefixedUint(b, limit).value.0
  {
    var rest := ReadPrefixedUint(b, limit).value.1;
    var k := |b| - |rest|;
    x := b[..k];
    assert b == x + b[k..] && x[1..] == b[1..k];
  }

  /** A byte below 0x80 for itself, up to 54 bytes behind a length, or any number behind the length of a
      length, which is taken in 64 bits.  55 bytes have no short form. */
  predicate StringForm(x: bytes, d: bytes, capped: bool) {
    && |x| > 0
    && if x[0] < 0x80 then x == d && |x| == 1
       else if x[0] < 0xb7 then x[0] == 0x80 + |d| && x[1..] == d
       else LongForm(x, d) && (capped ==> x[0] < 0xc0)
  }

  predicate LongForm(x: bytes, d: bytes)
    requires |x| > 0 && x[0] >= 0xb7
  {
    var k := x[0] - 0xb7;
    |x| >= 1 + k && Truncate64(FromBigEndian(x[1..1 + k])) == |d| && x[1 + k..] == d
  }

  lemma StringIsRead(x: bytes, d: bytes, capped: bool, rest: bytes)
    requires StringForm(x, d, capped)
    ensures ReadString(x + rest, 0xb7, capped) == Ok((d, rest))
  {
    hide ReadCounted;
    var b := x + rest;
    if x[0] < 0xb7 {
      assert b[1..|x|] == x[1..] && b[|x|..] == rest;
      if x[0] < 0x80 { assert x == [x[0]]; }
    } else {
      LongIsRead(x, d, rest);
    }
  }

  lemma LongIsRead(x: bytes, d: bytes, rest: bytes)
    requires |x| > 0 && x[0] >= 0xb7 && LongForm(x, d)
    ensures ReadCounted(x[0] - 0xb7, (x + rest)[1..]) == Ok((d, rest))
  {
    var k := x[0] - 0xb7;
    var len := x[1..1 + k];
    assert (x + rest)[1..] == len + d + rest;
    ThreeParts(len, d, rest);
  }

  lemma StringWasRead(b: bytes, capped: bool) returns (x: bytes)
    requires ReadString(b, 0xb7, capped).Ok?
    ensures var (d, rest) := ReadString(b, 0xb7, capped).value;
      b == x + rest && StringForm(x, d, capped)
  {
    hide ReadCounted;
    var (d, rest) := ReadString(b, 0xb7, capped).value;
    if b[0] < 0xb7 {
      var k := if b[0] < 0x80 then 1 else 1 + (b[0] - 0x80);
      x := b[..k];
      assert b == x + b[k..];
      if b[0] >= 0x80 { assert x[1..] == b[1..k]; }
    } else {
      x := LongWasRead(b);
    }
  }

  lemma LongWasRead(b: bytes) returns (x: bytes)
    requires |b| > 0 && b[0] >= 0xb7 && ReadCounted(b[0] - 0xb7, b[1..]).Ok?
    ensures var (d, rest) := ReadCounted(b[0] - 0xb7, b[1..]).value;
      b == x + rest && |x| > 0 && x[0] == b[0] && LongForm(x, d)
  {
    var k := b[0] - 0xb7;
    var (d, rest) := ReadCounted(k, b[1..]).value;
    var n := 1 + k + |d|;
    assert rest == b[1..][k + |d|..] == b[n..];
    x := b[..n];
    assert b == x + b[n..];
    assert x[1..1 + k] == b[1..][..k];
    assert x[1 + k..] == b[1..][k..k + |d|];
  }

  // ----- Lists

  /** A list whose length follows the length of that length, in 64 bits; the short form is refused. */
  predicate ListForm(size: bytes, p: bytes) { |size| <= 8 && Truncate64(FromBigEndian(size)) == |p| }

  function ListOf(size: bytes, p: bytes): (b: bytes)
    requires |size| <= 8
  {
    [0xf7 + |size|] + size + p
  }

  lemma ListIsRead(size: bytes, p: str)
    requires ListForm(size, p) && |ListOf(size, p)| < 0x4000_0000_0000_0000
    ensures StripListHeader(ListOf(size, p)) == Ok(p)
  {
    ThreeParts([0xf7 + |size|], size, p);
  }

  lemma ListWasRead(b: str) returns (size: bytes)
    requires StripListHeader(b).Ok?
    ensures ListForm(size, StripListHeader(b).value) && b == ListOf(size, StripListHeader(b).value)
  {
    var k := b[0] - 0xf7;
    size := b[1..1 + k];
    assert b == [b[0]] + size + b[1 + k..];
  }

  // ----- Block transactions

  datatype Form = Form(size: bytes, chainId: bytes, nonce: bytes, tip: bytes, fee: bytes, gas: bytes, value: bytes,
                       data: bytes, v: byte, r: bytes, s: bytes, junk: bytes)

  function FeesThen(f: Form, tail: bytes): (b: bytes) { f.tip + (f.fee + (f.gas + tail)) }

  function HeadThen(f: Form, to: Address, tail: bytes): (b: bytes) {
    f.chainId + (f.nonce + FeesThen(f, [0x94] + (to + (f.value + tail))))
  }

  function SignatureThen(f: Form): (b: bytes) { [0xc0, f.v] + (f.r + (f.s + f.junk)) }

  /** The items in order; what stands behind them does not matter. */
  function FormBytes(f: Form, to: Address): (b: bytes) { HeadThen(f, to, f.data + SignatureThen(f)) }

  /** Chain id, nonce and gas limit are cut to 64 bits, the other numbers must fit 256. */
  predicate FeesForm(f: Form, tip: nat, fee: nat, gas: nat) {
    && UintForm(f.tip, 0x37) && UintForm(f.fee, 0x37) && UintForm(f.gas, 0x37)
    && UintIn(f.tip) == tip < U256 && UintIn(f.fee) == fee < U256 && Truncate64(UintIn(f.gas)) == gas
  }

  predicate HeadForm(f: Form, tx: Tx.TxBlock) {
    && UintForm(f.chainId, 0x37) && Truncate64(UintIn(f.chainId)) == tx.chainId
    && UintForm(f.nonce, 0x37) && Truncate64(UintIn(f.nonce)) == tx.nonce
    && FeesForm(f, tx.maxPriorityFeePerGas, tx.maxFeePerGas, tx.gasLimit)
    && UintForm(f.value, 0x37) && UintIn(f.value) == tx.value
  }

  predicate SignatureForm(f: Form, v: byte, r: nat, s: nat) {
    && v <= 1 && (f.v == v || (f.v == 0x80 && v == 0))
    && CountedForm(f.r, 0x20) && FromBigEndian(f.r[1..]) == r && CountedForm(f.s, 0x20) && FromBigEndian(f.s[1..]) == s
  }

  predicate IsFormOf(f: Form, tx: Tx.TxBlock) {
    && HeadForm(f, tx) && StringForm(f.data, tx.data, true) && SignatureForm(f, tx.v, tx.r, tx.s)
    && ListForm(f.size, FormBytes(f, tx.to))
  }

  lemma FeesAreRead(f: Form, tip: u256, fee: u256, gas: u64, tail: bytes)
    requires FeesForm(f, tip, fee, gas)
    ensures Tx.ReadFees(FeesThen(f, tail)) == Ok(((tip, fee, gas), tail))
  {
    hide UintForm, ReadUint, UintIn;
    UintIsRead(f.tip, 0x37, f.fee + (f.gas + tail));
    UintIsRead(f.fee, 0x37, f.gas + tail);
    UintIsRead(f.gas, 0x37, tail);
  }

  lemma CallIsRead(to: Address, value: bytes, tail: bytes)
    requires UintForm(value, 0x37) && UintIn(value) < U256
    ensures Tx.ReadCall([0x94] + (to + (value + tail))) == Ok(((to, UintIn(value)), tail))
  {
    hide UintForm, ReadUint, UintIn;
    var b := [0x94] + (to + (value + tail));
    assert b[1..21] == to && b[21..] == value + tail;
    UintIsRead(value, 0x37, tail);
  }

  lemma HeadIsRead(f: Form, tx: Tx.TxBlock, tail: bytes)
    requires HeadForm(f, tx)
    ensures Tx.ReadHead(HeadThen(f, tx.to, tail)) == Ok((Tx.Head(tx.chainId, tx.nonce, tx.maxPriorityFeePerGas,
      tx.maxFeePerGas, tx.gasLimit, tx.to, tx.value), tail))
  {
    hide UintForm, ReadUint, UintIn, Tx.ReadFees, Tx.ReadCall, FeesThen, FeesForm;
    var call := [0x94] + (tx.to + (f.value + tail));
    UintIsRead(f.chainId, 0x37, f.nonce + FeesThen(f, call));
    UintIsRead(f.nonce, 0x37, FeesThen(f, call));
    GasIs64(f, tx);
    FeesAreRead(f, tx.maxPriorityFeePerGas, tx.maxFeePerGas, tx.gasLimit, call);
    CallIsRead(tx.to, f.value, tail);
  }

  lemma GasIs64(f: Form, tx: Tx.TxBlock)
    requires HeadForm(f, tx)
    ensures tx.gasLimit < U64
  {
  }

  lemma SignatureIsRead(f: Form, v: byte, r: u256, s: u256)
    requires SignatureForm(f, v, r, s)
    ensures Tx.ReadSignature(SignatureThen(f)) == Ok((v, r, s))
  {
    hide CountedForm, ReadPrefixedUint;
    var scalars := f.r + (f.s + f.junk);
    assert SignatureThen(f)[2..] == scalars;
    CountedIsRead(f.r, 0x20, f.s + f.junk);
    CountedIsRead(f.s, 0x20, f.junk);
  }

  lemma FieldsAreRead(f: Form, tx: Tx.TxBlock)
    requires IsFormOf(f, tx) && |FormBytes(f, tx.to)| < 0x4000_0000_0000_0000
    ensures Tx.ReadFields(FormBytes(f, tx.to)) == Ok(tx.(from := Zeros(20)))
  {
    hide HeadForm, Tx.ReadHead, HeadThen, StringForm, ReadString, SignatureForm, SignatureThen, Tx.ReadSignature;
    HeadIsRead(f, tx, f.data + SignatureThen(f));
    StringIsRead(f.data, tx.data, true, SignatureThen(f));
    SignatureIsRead(f, tx.v, tx.r, tx.s);
  }

  // What was read has a form, reader by reader.

  lemma FeesWereRead(b: bytes, f: Form) returns (g: Form)
    requires Tx.ReadFees(b).Ok?
    ensures var ((tip, fee, gas), tail) := Tx.ReadFees(b).value; b == FeesThen(g, tail) && FeesForm(g, tip, fee, gas)
    ensures g == f.(tip := g.tip, fee := g.fee, gas := g.gas)
  {
    hide UintForm, ReadUint, UintIn;
    var tip := UintWasRead(b, 0x37);
    var r1 := ReadUint(b, 0x37).value.1;
    var fee := UintWasRead(r1, 0x37);
    var r2 := ReadUint(r1, 0x37).value.1;
    var gas := UintWasRead(r2, 0x37);
    g := f.(tip := tip, fee := fee, gas := gas);
  }

  lemma CallWasRead(b: bytes) returns (value: bytes)
    requires Tx.ReadCall(b).Ok?
    ensures var ((to, n), tail) := Tx.ReadCall(b).value;
      b == [0x94] + (to + (value + tail)) && UintForm(value, 0x37) && UintIn(value) == n
  {
    hide UintForm, ReadUint, UintIn;
    value := UintWasRead(b[21..], 0x37);
    assert b == [b[0]] + (b[1..21] + b[21..]);
  }

  predicate IsHead(h: Tx.Head, tx: Tx.TxBlock) {
    && h.chainId == tx.chainId && h.nonce == tx.nonce && h.maxPriorityFeePerGas == tx.maxPriorityFeePerGas
    && h.maxFeePerGas == tx.maxFeePerGas && h.gasLimit == tx.gasLimit && h.to == tx.to && h.value == tx.value
  }

  lemma HeadWasRead(b: bytes, tx: Tx.TxBlock, f: Form) returns (g: Form)
    requires Tx.ReadHead(b).Ok? && IsHead(Tx.ReadHead(b).value.0, tx)
    ensures b == HeadThen(g, tx.to, Tx.ReadHead(b).value.1) && HeadForm(g, tx)
    ensures g == f.(chainId := g.chainId, nonce := g.nonce, tip := g.tip, fee := g.fee, gas := g.gas, value := g.value)
  {
    hide UintForm, ReadUint, UintIn, Tx.ReadFees, Tx.ReadCall, FeesForm;
    var chainId := UintWasRead(b, 0x37);
    var r1 := ReadUint(b, 0x37).value.1;
    var nonce := UintWasRead(r1, 0x37);
    var r2 := ReadUint(r1, 0x37).value.1;
    var e := FeesWereRead(r2, f);
    var r3 := Tx.ReadFees(r2).value.1;
    var value := CallWasRead(r3);
    g := e.(chainId := chainId, nonce := nonce, value := value);
    SameFees(e, g, tx.maxPriorityFeePerGas, tx.maxFeePerGas, tx.gasLimit);
  }

  lemma SameFees(f: Form, g: Form, tip: nat, fee: nat, gas: nat)
    requires FeesForm(f, tip, fee, gas) && f.tip == g.tip && f.fee == g.fee && f.gas == g.gas
    ensures FeesForm(g, tip, fee, gas)
  {
  }

  lemma SignatureWasRead(b: bytes, f: Form) returns (g: Form)
    requires Tx.ReadSignature(b).Ok?
    ensures var (v, r, s) := Tx.ReadSignature(b).value; b == SignatureThen(g) && SignatureForm(g, v, r, s)
    ensures g == f.(v := g.v, r := g.r, s := g.s, junk := g.junk)
  {
    hide CountedForm, ReadPrefixedUint;
    var r := CountedWasRead(b[2..], 0x20);
    var r1 := ReadPrefixedUint(b[2..], 0x20).value.1;
    var s := CountedWasRead(r1, 0x20);
    g := f.(v := b[1], r := r, s := s, junk := ReadPrefixedUint(r1, 0x20).value.1);
    assert b == [b[0], b[1]] + b[2..];
  }

  lemma FieldsWereRead(b: str, tx: Tx.TxBlock, f: Form) returns (g: Form)
    requires Tx.ReadFields(b) == Ok(tx)
    ensures b == FormBytes(g, tx.to) && g.size == f.size
    ensures HeadForm(g, tx) && StringForm(g.data, tx.data, true) && SignatureForm(g, tx.v, tx.r, tx.s)
  {
    hide HeadForm, Tx.ReadHead, HeadThen, StringForm, ReadString, SignatureForm, SignatureThen, Tx.ReadSignature;
    var x := HeadWasRead(b, tx, f);
    var r1 := Tx.ReadHead(b).value.1;
    var data := StringWasRead(r1, true);
    var r2 := ReadString(r1, 0xb7, true).value.1;
    var y := SignatureWasRead(r2, x.(data := data));
    g := y;
    SameHead(x, g, tx, g.data + SignatureThen(g));
  }

  lemma SameHead(f: Form, g: Form, tx: Tx.TxBlock, tail: bytes)
    requires g == f.(data := g.data, v := g.v, r := g.r, s := g.s, junk := g.junk)
    ensures HeadForm(f, tx) ==> HeadForm(g, tx)
    ensures HeadThen(f, tx.to, tail) == HeadThen(g, tx.to, tail)
  {
  }

  ghost predicate IsWireForm(b: bytes, tx: Tx.TxBlock, f: Form) {
    IsFormOf(f, tx) && b == [0x02] + ListOf(f.size, FormBytes(f, tx.to))
  }

  /** A string is parsed as this transaction exactly when it is one of its forms behind the type byte, and
      the sender is who signed it. */
  lemma TxParsesExactly(c: Crypto, b: str, tx: Tx.TxBlock)
    ensures Tx.Parse(c, b) == Ok(tx) <==> Tx.WellSigned(c, tx) && exists f :: IsWireForm(b, tx, f)
  {
    hide IsFormOf, FormBytes, ListOf, Tx.ReadFields, StripListHeader, Tx.Sender, ListForm;
    if Tx.Parse(c, b) == Ok(tx) {
      var f := WireWasParsed(c, b, tx);
      Tx.SenderIgnoresFrom(c, tx, Zeros(20));
    }
    if f :| IsWireForm(b, tx, f) && Tx.WellSigned(c, tx) { WireIsParsed(c, b, tx, f); }
  }

  lemma WireIsParsed(c: Crypto, b: str, tx: Tx.TxBlock, f: Form)
    requires IsWireForm(b, tx, f) && Tx.WellSigned(c, tx)
    ensures Tx.Parse(c, b) == Ok(tx)
  {
    hide FormBytes, Tx.ReadFields, StripListHeader, Tx.Sender, HeadForm, StringForm, SignatureForm;
    var p := FormBytes(f, tx.to);
    assert b[1..] == ListOf(f.size, p);
    ListIsRead(f.size, p);
    FieldsAreRead(f, tx);
    Tx.SenderIgnoresFrom(c, tx, Zeros(20));
  }

  lemma WireWasParsed(c: Crypto, b: str, tx: Tx.TxBlock) returns (f: Form)
    requires Tx.Parse(c, b) == Ok(tx)
    ensures IsWireForm(b, tx, f) && Tx.WellSigned(c, tx)
  {
    hide FormBytes, Tx.ReadFields, StripListHeader, Tx.Sender, HeadForm, StringForm, SignatureForm, ListOf, ListForm;
    var size := ListWasRead(b[1..]);
    var p := StripListHeader(b[1..]).value;
    var fields := Tx.ReadFields(p).value;
    f := FieldsWereRead(p, fields, Form(size, [], [], [], [], [], [], [], 0, [], [], []));
    SenderDoesNotMatter(f, fields, tx.from);
    Tx.SenderIgnoresFrom(c, fields, tx.from);
    assert b == [0x02] + b[1..];
  }

  lemma SenderDoesNotMatter(f: Form, tx: Tx.TxBlock, from: Address)
    ensures HeadForm(f, tx) ==> HeadForm(f, tx.(from := from))
  {
  }

  // ----- Validator transactions

  datatype ValidatorForm = ValidatorForm(size: bytes, data: bytes, nHeight: bytes, v: bytes, r: bytes, s: bytes,
                                         junk: bytes)

  function SealThen(f: ValidatorForm): (b: bytes) { f.v + (f.r + (f.s + f.junk)) }

  function ValidatorFormBytes(f: ValidatorForm): (b: bytes) { f.data + (f.nHeight + SealThen(f)) }

  predicate SealForm(f: ValidatorForm, v: nat, r: nat, s: nat) {
    && UintForm(f.v, 0x37) && UintIn(f.v) == v < U256
    && CountedForm(f.r, 0x37) && FromBigEndian(f.r[1..]) == r && CountedForm(f.s, 0x37) && FromBigEndian(f.s[1..]) == s
  }

  /** The chain id is what v leaves of it: (v - 35) / 2, in 64 bits, for a v above 36. */
  predicate IsFormOfValidator(f: ValidatorForm, tx: ValidatorTx.TxValidator) {
    && StringForm(f.data, tx.data, false) && UintForm(f.nHeight, 0x7f) && Truncate64(UintIn(f.nHeight)) == tx.nHeight
    && SealForm(f, tx.v, tx.r, tx.s) && tx.v > 36 && tx.chainId == Truncate64((tx.v - 35) / 2)
    && ListForm(f.size, ValidatorFormBytes(f))
  }

  lemma SealIsRead(f: ValidatorForm, v: u256, r: u256, s: u256)
    requires SealForm(f, v, r, s)
    ensures ValidatorTx.ReadSeal(SealThen(f)) == Ok((v, r, s))
  {
    hide UintForm, UintIn, ReadUint, CountedForm, ReadPrefixedUint;
    UintIsRead(f.v, 0x37, f.r + (f.s + f.junk));
    CountedIsRead(f.r, 0x37, f.s + f.junk);
    CountedIsRead(f.s, 0x37, f.junk);
  }

  lemma SealWasRead(b: bytes, f: ValidatorForm) returns (g: ValidatorForm)
    requires ValidatorTx.ReadSeal(b).Ok?
    ensures var (v, r, s) := ValidatorTx.ReadSeal(b).value; b == SealThen(g) && SealForm(g, v, r, s)
    ensures g == f.(v := g.v, r := g.r, s := g.s, junk := g.junk)
  {
    hide UintForm, UintIn, ReadUint, CountedForm, ReadPrefixedUint;
    var v := UintWasRead(b, 0x37);
    var r1 := ReadUint(b, 0x37).value.1;
    var r := CountedWasRead(r1, 0x37);
    var r2 := ReadPrefixedUint(r1, 0x37).value.1;
    var s := CountedWasRead(r2, 0x37);
    g := f.(v := v, r := r, s := s, junk := ReadPrefixedUint(r2, 0x37).value.1);
  }

  lemma ValidatorFieldsAreRead(f: ValidatorForm, tx: ValidatorTx.TxValidator)
    requires IsFormOfValidator(f, tx) && |ValidatorFormBytes(f)| < 0x4000_0000_0000_0000
    ensures ValidatorTx.ReadFields(ValidatorFormBytes(f)) == Ok(tx.(from := Zeros(20), chainId := 0))
  {
    hide UintForm, UintIn, ReadUint, StringForm, ReadString, SealForm, SealThen, ValidatorTx.ReadSeal;
    StringIsRead(f.data, tx.data, false, f.nHeight + SealThen(f));
    UintIsRead(f.nHeight, 0x7f, SealThen(f));
    SealIsRead(f, tx.v, tx.r, tx.s);
  }

  lemma ValidatorFieldsWereRead(b: str, f: ValidatorForm) returns (g: ValidatorForm)
    requires ValidatorTx.ReadFields(b).Ok?
    ensures var tx := ValidatorTx.ReadFields(b).value;
      && b == ValidatorFormBytes(g) && g.size == f.size && StringForm(g.data, tx.data, false)
      && UintForm(g.nHeight, 0x7f) && Truncate64(UintIn(g.nHeight)) == tx.nHeight && SealForm(g, tx.v, tx.r, tx.s)
  {
    hide UintForm, UintIn, ReadUint, StringForm, ReadString, SealForm, SealThen, ValidatorTx.ReadSeal;
    var data := StringWasRead(b, false);
    var r1 := ReadString(b, 0xb7, false).value.1;
    var nHeight := UintWasRead(r1, 0x7f);
    var r2 := ReadUint(r1, 0x7f).value.1;
    g := SealWasRead(r2, f.(data := data, nHeight := nHeight));
  }

  ghost predicate IsValidatorWireForm(b: bytes, tx: ValidatorTx.TxValidator, f: ValidatorForm) {
    IsFormOfValidator(f, tx) && b == ListOf(f.size, ValidatorFormBytes(f))
  }

  /** The same for validator transactions, which have no type byte. */
  lemma ValidatorTxParsesExactly(c: Crypto, b: str, tx: ValidatorTx.TxValidator)
    ensures ValidatorTx.Parse(c, b) == Ok(tx)
      <==> ValidatorTx.WellSigned(c, tx) && exists f :: IsValidatorWireForm(b, tx, f)
  {
    hide IsFormOfValidator, ValidatorFormBytes, ListOf, ValidatorTx.Parse, ListForm, ValidatorTx.WellSigned;
    if ValidatorTx.Parse(c, b) == Ok(tx) { var f := ValidatorWireWasParsed(c, b, tx); }
    if f :| IsValidatorWireForm(b, tx, f) && ValidatorTx.WellSigned(c, tx) { ValidatorWireIsParsed(c, b, tx, f); }
  }

  lemma ValidatorWireIsParsed(c: Crypto, b: str, tx: ValidatorTx.TxValidator, f: ValidatorForm)
    requires IsValidatorWireForm(b, tx, f) && ValidatorTx.WellSigned(c, tx)
    ensures ValidatorTx.Parse(c, b) == Ok(tx)
  {
    hide ValidatorFormBytes, ValidatorTx.ReadFields, StripListHeader, ValidatorTx.Sender, StringForm, SealForm;
    ListIsRead(f.size, ValidatorFormBytes(f));
    ValidatorFieldsAreRead(f, tx);
    ValidatorTx.SenderIgnoresFrom(c, tx, Zeros(20));
  }

  lemma ValidatorWireWasParsed(c: Crypto, b: str, tx: ValidatorTx.TxValidator) returns (f: ValidatorForm)
    requires ValidatorTx.Parse(c, b) == Ok(tx)
    ensures IsValidatorWireForm(b, tx, f) && ValidatorTx.WellSigned(c, tx)
  {
    hide ValidatorFormBytes, ValidatorTx.ReadFields, StripListHeader, ValidatorTx.Sender, StringForm, SealForm, ListOf,
      ListForm, UintForm, UintIn;
    var size := ListWasRead(b);
    var p := StripListHeader(b).value;
    f := ValidatorFieldsWereRead(p, ValidatorForm(size, [], [], [], [], [], []));
    ValidatorTx.SenderIgnoresFrom(c, ValidatorTx.ReadFields(p).value.(chainId := tx.chainId), tx.from);
  }
}
