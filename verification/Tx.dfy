/** Block and validator transactions: RLP serialization and parsing (src/utils/tx.cpp, src/utils/tx.h;
    EIP-1559 envelope for block transactions). */
module Tx {
  import opened Bytes
  import opened Crypto
  import opened Rlp

  datatype TxBlock = TxBlock(
    to: Address,
    from: Address,
    data: str,
    chainId: u64,
    nonce: u256,
    value: u256,
    maxPriorityFeePerGas: u256,
    maxFeePerGas: u256,
    gasLimit: u256,
    v: byte,
    r: u256,
    s: u256)

  // ===== Block transactions =====

  // ----- Writing

  /** The fields before `data`, followed by `tail`. */
  function HeadThen(tx: TxBlock, tail: bytes): (b: bytes) {
    RlpUint(tx.chainId) + (RlpUint(tx.nonce) + (RlpUint(tx.maxPriorityFeePerGas)
      + (RlpUint(tx.maxFeePerGas) + (RlpUint(tx.gasLimit) + CallThen(tx, tail)))))
  }

  function CallThen(tx: TxBlock, tail: bytes): (b: bytes) {
    [0x94] + (tx.to + (RlpUint(tx.value) + tail))
  }

  function SignaturePart(v: byte, r: u256, s: u256): (b: bytes) {
    [if v == 0 then 0x80 else v] + (RlpPrefixedUint(r) + RlpPrefixedUint(s))
  }

  /** `data`, the empty access list and, for the signed form, the signature. */
  function TailOf(tx: TxBlock, includeSig: bool): (b: bytes) {
    RlpString(tx.data) + ([0xc0] + if includeSig then SignaturePart(tx.v, tx.r, tx.s) else [])
  }

  function Payload(tx: TxBlock, includeSig: bool): (b: bytes) {
    HeadThen(tx, TailOf(tx, includeSig))
  }

  lemma PayloadSize(tx: TxBlock, includeSig: bool)
    ensures |Payload(tx, includeSig)| ==
      UintSize(tx.chainId) + UintSize(tx.nonce) + UintSize(tx.maxPriorityFeePerGas)
      + UintSize(tx.maxFeePerGas) + UintSize(tx.gasLimit) + 21 + UintSize(tx.value)
      + StringSize(tx.data) + 1
      + if includeSig then 3 + BytesRequired(tx.r) + BytesRequired(tx.s) else 0
    ensures |Payload(tx, includeSig)| < U64
  {
    Uint256Width(tx.r);
    Uint256Width(tx.s);
  }

  /** The wire form: the type byte, a list header and the payload it measures. */
  function Serialize(tx: TxBlock, includeSig: bool): (b: bytes) {
    PayloadSize(tx, includeSig);
    [0x02] + (RlpListHeader(|Payload(tx, includeSig)|) + Payload(tx, includeSig))
  }

  function Digest(c: Crypto, tx: TxBlock, includeSig: bool): (h: Hash) {
    c.sha3(Serialize(tx, includeSig))
  }

  // ----- Reading

  datatype Head = Head(chainId: u64, nonce: u64, maxPriorityFeePerGas: u256, maxFeePerGas: u256,
                       gasLimit: u64, to: Address, value: u256)

  function ReadCall(rest: bytes): (r: Result<((Address, u256), bytes)>)
    ensures r.Ok? ==> |r.value.1| <= |rest|
  {
    if |rest| < 21 || rest[0] != 0x94 then Err else
      var to: Address := rest[1..21];
      var (value, after) :- ReadUint256(rest[21..]);
      Ok(((to, value), after))
  }

  function ReadFees(rest: bytes): (r: Result<((u256, u256, u64), bytes)>)
    ensures r.Ok? ==> |r.value.1| <= |rest|
  {
    var (tip, r1) :- ReadUint256(rest);
    var (fee, r2) :- ReadUint256(r1);
    var (gas, r3) :- ReadUint64(r2, 0x37);
    Ok(((tip, fee, gas), r3))
  }

  function ReadHead(rest: bytes): (r: Result<(Head, bytes)>)
    ensures r.Ok? ==> |r.value.1| <= |rest|
  {
    var (chainId, r1) :- ReadUint64(rest, 0x37);
    var (nonce, r2) :- ReadUint64(r1, 0x37);
    var ((tip, fee, gas), r3) :- ReadFees(r2);
    var ((to, value), r4) :- ReadCall(r3);
    Ok((Head(chainId, nonce, tip, fee, gas, to, value), r4))
  }

  function ReadSignature(rest: bytes): (r: Result<(byte, u256, u256)>) {
    if |rest| < 2 || rest[0] != 0xc0 then Err else
      var v := if rest[1] == 0x80 then 0 else rest[1];
      if v > 1 then Err else
        var (r, s) :- ReadScalars(rest[2..]);
        Ok((v, r, s))
  }

  function ReadScalars(rest: bytes): (r: Result<(u256, u256)>) {
    var (r, r1) :- ReadPrefixedUint(rest, 0x20);
    var (s, _) :- ReadPrefixedUint(r1, 0x20);
    Ok((r, s))
  }

  function ReadFields(rest: str): (r: Result<TxBlock>) {
    var (h, r1) :- ReadHead(rest);
    var (data, r2) :- ReadString(r1, 0xb7, true);
    var (v, r, s) :- ReadSignature(r2);
    Ok(TxBlock(h.to, Zeros(20), data, h.chainId, h.nonce, h.value, h.maxPriorityFeePerGas,
               h.maxFeePerGas, h.gasLimit, v, r, s))
  }

  /** The sender the signature recovers to. */
  function Sender(c: Crypto, tx: TxBlock): (a: Result<Address>) {
    if !VerifySig(tx.r, tx.s, tx.v) then Err else
      var key := c.recover(MakeSig(tx.r, tx.s, tx.v), Digest(c, tx, false));
      if !IsSet(key) then Err else Ok(ToAddress(c, key))
  }

  /** What a transaction looks like once constructed or parsed: its sender is the signer. */
  predicate WellSigned(c: Crypto, tx: TxBlock) {
    Sender(c, tx) == Ok(tx.from)
  }

  /** The sender is the last 20 bytes of the hash of the 64-byte key that r, s and the parity recover from
      the hash of the unsigned form; both scalars are below the order of the group and none is zero. */
  lemma SignedMeans(c: Crypto, tx: TxBlock)
    ensures WellSigned(c, tx) <==>
      var key := c.recover(Fixed(tx.r, 32) + Fixed(tx.s, 32) + [tx.v], c.sha3(Serialize(tx, false)));
      && tx.v <= 1 && 0 < tx.r < EC_ORDER && 0 < tx.s < EC_ORDER
      && key != Zeros(65) && tx.from == c.sha3(key[1..])[12..]
  {
    hide IsSet, Serialize;
    SetIsNotZero(c.recover(Fixed(tx.r, 32) + Fixed(tx.s, 32) + [tx.v], c.sha3(Serialize(tx, false))));
  }

  /** `TxBlock(bytes, requiredChainId)`; the required chain id is not looked at. */
  function Parse(c: Crypto, b: str): (r: Result<TxBlock>) {
    if |b| < 2 || b[0] != 0x02 then Err else
      var payload :- StripListHeader(b[1..]);
      FromPayload(c, payload)
  }

  function FromPayload(c: Crypto, payload: str): (r: Result<TxBlock>) {
    var tx :- ReadFields(payload);
    var from :- Sender(c, tx);
    Ok(tx.(from := from))
  }

  /** The signing constructor. */
  function Make(c: Crypto, fields: TxBlock, key: PrivKey): (r: Result<TxBlock>) {
    var pub := c.toUPub(key);
    var hash := Digest(c, fields, false);
    var sig := c.sign(hash, key);
    if ToAddress(c, pub) != fields.from || c.recover(sig, hash) != pub || !VerifySig(SigR(sig), SigS(sig), sig[64])
    then Err
    else Ok(fields.(v := sig[64], r := SigR(sig), s := SigS(sig)))
  }

  /** A constructed transaction is well signed exactly when its key is usable. */
  lemma MakeSigns(c: Crypto, fields: TxBlock, key: PrivKey)
    requires Make(c, fields, key).Ok?
    ensures WellSigned(c, Make(c, fields, key).value) <==> IsSet(c.toUPub(key))
  {
    var tx := Make(c, fields, key).value;
    assert Serialize(tx, false) == Serialize(fields, false);
    SigParts(c.sign(Digest(c, fields, false), key));
  }

  // ----- Round trip

  lemma ReadCallWritten(tx: TxBlock, tail: bytes)
    ensures ReadCall(CallThen(tx, tail)) == Ok(((tx.to, tx.value), tail))
  {
    var all := CallThen(tx, tail);
    ThreeParts([0x94], tx.to, RlpUint(tx.value) + tail);
    assert all == [0x94] + tx.to + (RlpUint(tx.value) + tail);
    ReadUintWritten(tx.value, tail, 0x37);
  }

  /** The head is read back, except that nonce and gas limit keep only their low 64 bits. */
  lemma ReadHeadWritten(tx: TxBlock, tail: bytes)
    ensures ReadHead(HeadThen(tx, tail)) == Ok((
      Head(tx.chainId, Truncate64(tx.nonce), tx.maxPriorityFeePerGas, tx.maxFeePerGas,
           Truncate64(tx.gasLimit), tx.to, tx.value), tail))
  {
    var r5 := CallThen(tx, tail);
    var r4 := RlpUint(tx.gasLimit) + r5;
    var r3 := RlpUint(tx.maxFeePerGas) + r4;
    var r2 := RlpUint(tx.maxPriorityFeePerGas) + r3;
    var r1 := RlpUint(tx.nonce) + r2;
    ReadUintWritten(tx.chainId, r1, 0x37);
    ReadUintWritten(tx.nonce, r2, 0x37);
    ReadUintWritten(tx.maxPriorityFeePerGas, r3, 0x37);
    ReadUintWritten(tx.maxFeePerGas, r4, 0x37);
    ReadUintWritten(tx.gasLimit, r5, 0x37);
    ReadCallWritten(tx, tail);
  }

  lemma ReadScalarsWritten(r: u256, s: u256)
    ensures ReadScalars(RlpPrefixedUint(r) + RlpPrefixedUint(s)) == Ok((r, s))
  {
    ReadPrefixedUintWritten(r, RlpPrefixedUint(s), 0x20);
    ReadPrefixedUintWritten(s, [], 0x20);
    assert RlpPrefixedUint(s) + [] == RlpPrefixedUint(s);
  }

  lemma ReadSignatureWritten(v: byte, r: u256, s: u256)
    requires v <= 1
    ensures ReadSignature([0xc0] + SignaturePart(v, r, s)) == Ok((v, r, s))
  {
    ReadScalarsWritten(r, s);
    ReadAfterV(v, RlpPrefixedUint(r) + RlpPrefixedUint(s), r, s);
  }

  lemma ReadAfterV(v: byte, scalars: bytes, r: u256, s: u256)
    requires v <= 1 && ReadScalars(scalars) == Ok((r, s))
    ensures ReadSignature([0xc0] + ([if v == 0 then 0x80 else v] + scalars)) == Ok((v, r, s))
  {
    assert ([0xc0] + ([if v == 0 then 0x80 else v] + scalars))[2..] == scalars;
  }

  function Truncated(tx: TxBlock): TxBlock {
    tx.(from := Zeros(20), nonce := Truncate64(tx.nonce), gasLimit := Truncate64(tx.gasLimit))
  }

  /** Reading the payload: exact when `data` is not 55 bytes long; otherwise whatever is read,
      if anything, has empty data. */
  lemma ReadFieldsWritten(tx: TxBlock)
    requires tx.v <= 1 && |Payload(tx, true)| < 0x4000_0000_0000_0000
    ensures |tx.data| != 55 ==> ReadFields(Payload(tx, true)) == Ok(Truncated(tx))
    ensures |tx.data| == 55 ==> var f := ReadFields(Payload(tx, true)); f.Ok? ==> f.value.data == []
  {
    var tail := TailOf(tx, true);
    var sig := [0xc0] + SignaturePart(tx.v, tx.r, tx.s);
    ReadHeadWritten(tx, tail);
    ReadSignatureWritten(tx.v, tx.r, tx.s);
    if |tx.data| == 55 {
      ReadString55(tx.data, sig, true);
    } else {
      ReadStringWritten(tx.data, sig, 0xb7, true);
    }
  }

  /** What a signed transaction must satisfy to survive the wire: nonce and gas limit are parsed into
      64 bits, lists of at most 55 bytes are refused, and 55 bytes of data are misread. */
  predicate SurvivesWire(tx: TxBlock) {
    tx.nonce < U64 && tx.gasLimit < U64 && |tx.data| != 55 && |Payload(tx, true)| > 55
  }

  /** Parsing a signed transaction gives it back, sender included, exactly under SurvivesWire. */
  lemma RoundTrip(c: Crypto, tx: TxBlock)
    requires WellSigned(c, tx)
    requires |Serialize(tx, true)| < 0x4000_0000_0000_0000
    ensures Parse(c, Serialize(tx, true)) == Ok(tx) <==> SurvivesWire(tx)
  {
    PayloadSize(tx, true);
    var p := Payload(tx, true);
    StripListHeaderWritten(p);
    assert Serialize(tx, true)[1..] == RlpListHeader(|p|) + p;
    if |p| > 55 { PayloadRoundTrip(c, tx); }
  }

  lemma PayloadRoundTrip(c: Crypto, tx: TxBlock)
    requires WellSigned(c, tx)
    requires 55 < |Payload(tx, true)| < 0x4000_0000_0000_0000
    ensures FromPayload(c, Payload(tx, true)) == Ok(tx) <==> SurvivesWire(tx)
  {
    ReadFieldsWritten(tx);
    SenderIgnoresFrom(c, tx, Zeros(20));
  }

  lemma SenderIgnoresFrom(c: Crypto, tx: TxBlock, a: Address)
    ensures Sender(c, tx.(from := a)) == Sender(c, tx)
  {
    assert Serialize(tx.(from := a), false) == Serialize(tx, false);
  }

  /** A 55-byte payload of data is the one length that does not survive. */
  lemma DataOf55BytesIsLost(c: Crypto, tx: TxBlock)
    requires WellSigned(c, tx) && |tx.data| == 55
    requires |Serialize(tx, true)| < 0x4000_0000_0000_0000
    ensures Parse(c, Serialize(tx, true)) != Ok(tx)
  {
    RoundTrip(c, tx);
  }

  // ----- What the parser accepts

  /** Whatever is accepted is signed, with nonce and gas limit in 64 bits. */
  lemma ParsedIsSigned(c: Crypto, b: str)
    requires Parse(c, b).Ok?
    ensures var tx := Parse(c, b).value; WellSigned(c, tx) && tx.nonce < U64 && tx.gasLimit < U64
  {
    hide ReadHead, ReadString, ReadSignature, StripListHeader, Sender;
    var tx := ReadFields(StripListHeader(b[1..]).value).value;
    SenderIgnoresFrom(c, tx, Parse(c, b).value.from);
  }

  function ReadablePayload(tx: TxBlock): (b: bytes)
    ensures |b| <= |Payload(tx, true)| + 1
  {
    HeadThen(tx, ReadableString(tx.data) + ([0xc0] + SignaturePart(tx.v, tx.r, tx.s)))
  }

  /** A wire form that is accepted, written out longer than need be where the serializer's is not. */
  function ReadableForm(tx: TxBlock): (b: bytes)
    ensures |b| <= |Payload(tx, true)| + 11
  {
    PayloadFits(tx);
    [0x02] + ReadableList(ReadablePayload(tx))
  }

  lemma PayloadFits(tx: TxBlock)
    ensures |Payload(tx, true)| + 1 < U64
  {
    hide Payload, BytesRequired;
    PayloadSize(tx, true);
    Uint256Width(tx.r);
    Uint256Width(tx.s);
  }

  lemma ReadableFieldsAreRead(tx: TxBlock)
    requires tx.v <= 1 && |ReadablePayload(tx)| < 0x4000_0000_0000_0000
    ensures ReadFields(ReadablePayload(tx)) == Ok(Truncated(tx))
  {
    hide HeadThen, ReadHead, ReadString, ReadSignature, SignaturePart;
    var sig := [0xc0] + SignaturePart(tx.v, tx.r, tx.s);
    ReadHeadWritten(tx, ReadableString(tx.data) + sig);
    ReadableStringIsRead(tx.data, sig, true);
    ReadSignatureWritten(tx.v, tx.r, tx.s);
  }

  /** Every signed transaction with nonce and gas limit in 64 bits has a form that is accepted. */
  lemma ReadableFormIsAccepted(c: Crypto, tx: TxBlock)
    requires WellSigned(c, tx) && tx.nonce < U64 && tx.gasLimit < U64
    requires |ReadableForm(tx)| < 0x4000_0000_0000_0000
    ensures Parse(c, ReadableForm(tx)) == Ok(tx)
  {
    hide ReadablePayload, ReadFields, StripListHeader, ReadableList;
    var p := ReadablePayload(tx);
    PayloadFits(tx);
    ReadableListIsRead(p);
    assert ReadableForm(tx)[1..] == ReadableList(p);
    ReadableFieldsAreRead(tx);
    SenderIgnoresFrom(c, tx, Zeros(20));
  }

  /** What is read of a written form with 55 bytes of data has none. */
  lemma DataOf55BytesReadsEmpty(c: Crypto, tx: TxBlock)
    requires WellSigned(c, tx) && |tx.data| == 55 && |Serialize(tx, true)| < 0x4000_0000_0000_0000
    requires Parse(c, Serialize(tx, true)).Ok?
    ensures Parse(c, Serialize(tx, true)).value.data == []
  {
    hide ReadFields, StripListHeader, Payload, Sender;
    PayloadSize(tx, true);
    var p := Payload(tx, true);
    StripListHeaderWritten(p);
    assert Serialize(tx, true)[1..] == RlpListHeader(|p|) + p;
    SmallV(c, tx);
    ReadFieldsWritten(tx);
  }

  lemma SmallV(c: Crypto, tx: TxBlock)
    requires WellSigned(c, tx)
    ensures tx.v <= 1
  {
  }

  /** A written form with a payload of at most 55 bytes is refused. */
  lemma ShortListIsRefused(c: Crypto, tx: TxBlock)
    requires |Payload(tx, true)| <= 55 && |Serialize(tx, true)| < 0x4000_0000_0000_0000
    ensures Parse(c, Serialize(tx, true)) == Err
  {
    hide Payload, FromPayload;
    PayloadSize(tx, true);
    var p := Payload(tx, true);
    StripListHeaderWritten(p);
    assert Serialize(tx, true)[1..] == RlpListHeader(|p|) + p;
  }

  // ----- Injectivity

  predicate SameContent(a: TxBlock, b: TxBlock) {
    && a.chainId == b.chainId && a.nonce == b.nonce && a.to == b.to && a.value == b.value
    && a.maxPriorityFeePerGas == b.maxPriorityFeePerGas && a.maxFeePerGas == b.maxFeePerGas
    && a.gasLimit == b.gasLimit && a.data == b.data
  }

  lemma HeadIsInjective(a: TxBlock, x: bytes, b: TxBlock, y: bytes)
    requires HeadThen(a, x) == HeadThen(b, y)
    ensures SameContent(a, b.(data := a.data)) && x == y
  {
    var a5, b5 := CallThen(a, x), CallThen(b, y);
    var a4, b4 := RlpUint(a.gasLimit) + a5, RlpUint(b.gasLimit) + b5;
    var a3, b3 := RlpUint(a.maxFeePerGas) + a4, RlpUint(b.maxFeePerGas) + b4;
    var a2, b2 := RlpUint(a.maxPriorityFeePerGas) + a3, RlpUint(b.maxPriorityFeePerGas) + b3;
    var a1, b1 := RlpUint(a.nonce) + a2, RlpUint(b.nonce) + b2;
    UintIsPrefixFree(a.chainId, a1, b.chainId, b1);
    UintIsPrefixFree(a.nonce, a2, b.nonce, b2);
    UintIsPrefixFree(a.maxPriorityFeePerGas, a3, b.maxPriorityFeePerGas, b3);
    UintIsPrefixFree(a.maxFeePerGas, a4, b.maxFeePerGas, b4);
    UintIsPrefixFree(a.gasLimit, a5, b.gasLimit, b5);
    ReadCallWritten(a, x);
    ReadCallWritten(b, y);
  }

  /** Two transactions with the same serialization, signed or not, have the same content: no field
      value and no data length is an exception. */
  lemma SerializeIsInjective(a: TxBlock, b: TxBlock, includeSig: bool)
    requires Serialize(a, includeSig) == Serialize(b, includeSig)
    ensures SameContent(a, b)
    ensures includeSig && a.v <= 1 && b.v <= 1 ==> a.v == b.v && a.r == b.r && a.s == b.s
  {
    PayloadSize(a, includeSig);
    PayloadSize(b, includeSig);
    var p, q := Payload(a, includeSig), Payload(b, includeSig);
    assert Serialize(a, includeSig)[1..] == RlpListHeader(|p|) + p;
    assert Serialize(b, includeSig)[1..] == RlpListHeader(|q|) + q;
    ListHeaderIsPrefixFree(|p|, p, |q|, q);
    HeadIsInjective(a, TailOf(a, includeSig), b, TailOf(b, includeSig));
    var x := [0xc0] + if includeSig then SignaturePart(a.v, a.r, a.s) else [];
    var y := [0xc0] + if includeSig then SignaturePart(b.v, b.r, b.s) else [];
    StringIsPrefixFree(a.data, x, b.data, y);
    if includeSig && a.v <= 1 && b.v <= 1 {
      ReadSignatureWritten(a.v, a.r, a.s);
      ReadSignatureWritten(b.v, b.r, b.s);
    }
  }

  /** The signed bytes determine a well-signed transaction completely, sender included. */
  lemma SignedFormDeterminesTx(c: Crypto, a: TxBlock, b: TxBlock)
    requires WellSigned(c, a) && WellSigned(c, b)
    requires Serialize(a, true) == Serialize(b, true)
    ensures a == b
  {
    SerializeIsInjective(a, b, true);
    assert a.(from := b.from) == b;
    SenderIgnoresFrom(c, a, b.from);
  }

  /** `hash()`: of the signed form. */
  function HashOf(c: Crypto, tx: TxBlock): (h: Hash) { Digest(c, tx, true) }

  function SignedForm(tx: TxBlock): (b: bytes) { Serialize(tx, true) }

  /** Well-signed transactions with one hash are one transaction, or their signed forms collide. */
  lemma SameHash(c: Crypto, x: TxBlock, y: TxBlock)
    requires WellSigned(c, x) && WellSigned(c, y) && HashOf(c, x) == HashOf(c, y)
    ensures x == y || Collides(c.sha3, {SignedForm(x), SignedForm(y)})
  {
    if SignedForm(x) == SignedForm(y) {
      SignedFormDeterminesTx(c, x, y);
    } else {
      assert SignedForm(x) in {SignedForm(x), SignedForm(y)} && SignedForm(y) in {SignedForm(x), SignedForm(y)};
    }
  }

  // ----- The serializer and the parser as the node runs them

  /** The size the header announces is summed up before anything is written. */
  method MeasurePayload(tx: TxBlock, includeSig: bool) returns (total: nat)
    ensures total == |Payload(tx, includeSig)|
  {
    var size := MeasureUint(tx.chainId);
    total := size;
    size := MeasureUint(tx.nonce);
    total := total + size;
    size := MeasureUint(tx.maxPriorityFeePerGas);
    total := total + size;
    size := MeasureUint(tx.maxFeePerGas);
    total := total + size;
    size := MeasureUint(tx.gasLimit);
    total := total + size + 1 + 20;
    size := MeasureUint(tx.value);
    total := total + size + 1;
    size := MeasureString(tx.data);
    total := total + size;
    if includeSig {
      total := total + 1;
      size := CountBytesRequired(tx.r);
      total := total + 1 + size;
      size := CountBytesRequired(tx.s);
      total := total + 1 + size;
    }
    PayloadSize(tx, includeSig);
  }

  /** `rlpSerialize`: the announced size is the size of what is then appended field by field. */
  method RlpSerialize(tx: TxBlock, includeSig: bool) returns (ret: bytes)
    ensures ret == Serialize(tx, includeSig)
  {
    var total := MeasurePayload(tx, includeSig);
    PayloadSize(tx, includeSig);
    ret := [0x02];
    ret := AppendListHeader(ret, total, Payload(tx, includeSig));
    ret := AppendHead(ret, tx, TailOf(tx, includeSig));
    ret := AppendTail(ret, tx, includeSig);
  }

  method AppendHead(start: bytes, tx: TxBlock, ghost tail: bytes) returns (ret: bytes)
    ensures ret + tail == start + HeadThen(tx, tail)
  {
    ghost var r5 := CallThen(tx, tail);
    ghost var r4 := RlpUint(tx.gasLimit) + r5;
    ghost var r3 := RlpUint(tx.maxFeePerGas) + r4;
    ghost var r2 := RlpUint(tx.maxPriorityFeePerGas) + r3;
    ghost var r1 := RlpUint(tx.nonce) + r2;
    ret := AppendUint(start, tx.chainId, r1);
    ret := AppendUint(ret, tx.nonce, r2);
    ret := AppendUint(ret, tx.maxPriorityFeePerGas, r3);
    ret := AppendUint(ret, tx.maxFeePerGas, r4);
    ret := AppendUint(ret, tx.gasLimit, r5);
    ret := AppendCall(ret, tx, tail);
  }

  method AppendCall(start: bytes, tx: TxBlock, ghost tail: bytes) returns (ret: bytes)
    ensures ret + tail == start + CallThen(tx, tail)
  {
    ret := Append(start, [0x94], tx.to + (RlpUint(tx.value) + tail));
    ret := Append(ret, tx.to, RlpUint(tx.value) + tail);
    ret := AppendUint(ret, tx.value, tail);
  }

  method AppendTail(start: bytes, tx: TxBlock, includeSig: bool) returns (ret: bytes)
    ensures ret == start + TailOf(tx, includeSig)
  {
    ghost var sig := if includeSig then SignaturePart(tx.v, tx.r, tx.s) else [];
    ret := AppendString(start, tx.data, [0xc0] + sig);
    ret := Append(ret, [0xc0], sig);
    if includeSig {
      ret := Append(ret, [if tx.v == 0 then 0x80 else tx.v], RlpPrefixedUint(tx.r) + RlpPrefixedUint(tx.s));
      ret := AppendPrefixedUint(ret, tx.r, RlpPrefixedUint(tx.s));
      assert RlpPrefixedUint(tx.s) + [] == RlpPrefixedUint(tx.s);
      ret := AppendPrefixedUint(ret, tx.s, []);
    }
    assert ret + [] == ret;
  }

  method TakeFees(d: bytes, index: nat) returns (r: Result<((u256, u256, u64), nat)>)
    requires index <= |d|
    ensures Agrees(d, ReadFees(d[index..]), r)
  {
    var tip :- TakeUint256(d, index);
    var fee :- TakeUint256(d, tip.1);
    var gas :- TakeUint64(d, fee.1, 0x37);
    return Ok(((tip.0, fee.0, gas.0), gas.1));
  }

  method TakeCall(d: bytes, index: nat) returns (r: Result<((Address, u256), nat)>)
    requires index <= |d|
    ensures Agrees(d, ReadCall(d[index..]), r)
  {
    if index + 21 > |d| || d[index] != 0x94 { return Err; }
    var to: Address := d[index + 1..index + 21];
    assert d[index..][1..21] == to && d[index..][21..] == d[index + 21..];
    var value :- TakeUint256(d, index + 21);
    return Ok(((to, value.0), value.1));
  }

  method TakeHead(d: bytes) returns (r: Result<(Head, nat)>)
    ensures Agrees(d, ReadHead(d), r)
  {
    assert d[0..] == d;
    var chainId :- TakeUint64(d, 0, 0x37);
    var nonce :- TakeUint64(d, chainId.1, 0x37);
    var fees :- TakeFees(d, nonce.1);
    var call :- TakeCall(d, fees.1);
    return Ok((Head(chainId.0, nonce.0, fees.0.0, fees.0.1, fees.0.2, call.0.0, call.0.1), call.1));
  }

  method TakeSignature(d: bytes, index: nat) returns (r: Result<(byte, u256, u256)>)
    requires index <= |d|
    ensures r == ReadSignature(d[index..])
  {
    if index + 2 > |d| || d[index] != 0xc0 { return Err; }
    var v := if d[index + 1] == 0x80 then 0 else d[index + 1];
    if v > 1 { return Err; }
    assert d[index..][2..] == d[index + 2..];
    var f :- TakePrefixedUint(d, index + 2, 0x20);
    var g :- TakePrefixedUint(d, f.1, 0x20);
    return Ok((v, f.0, g.0));
  }

  /** The parsing constructor: one index walks over the payload. */
  method ParseBytes(c: Crypto, b: str) returns (r: Result<TxBlock>)
    ensures r == Parse(c, b)
  {
    if |b| < 2 || b[0] != 0x02 { return Err; }
    var d: str := b[1..];
    var payload :- TakeListHeader(d);
    var head :- TakeHead(payload);
    var data :- TakeString(payload, head.1, true);
    var sig :- TakeSignature(payload, data.1);
    var h, f := head.0, data.0;
    var tx := TxBlock(h.to, Zeros(20), f, h.chainId, h.nonce, h.value, h.maxPriorityFeePerGas,
                      h.maxFeePerGas, h.gasLimit, sig.0, sig.1, sig.2);
    if !VerifySig(tx.r, tx.s, tx.v) { return Err; }
    var message := RlpSerialize(tx, false);
    var key := c.recover(MakeSig(tx.r, tx.s, tx.v), c.sha3(message));
    if !IsSet(key) { return Err; }
    return Ok(tx.(from := ToAddress(c, key)));
  }
}
