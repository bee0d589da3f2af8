/** Validator transactions (src/utils/tx.cpp, class TxValidator): the commit and reveal messages of
    the consensus round, in the legacy RLP form with the chain id folded into `v` (EIP-155). */
module ValidatorTx {
  import opened Bytes
  import opened Crypto
  import opened Rlp

  datatype TxValidator = TxValidator(
    from: Address,
    data: str,
    chainId: u64,
    nHeight: u64,
    v: u256,
    r: u256,
    s: u256)

  // ----- Writing

  /** The last three items: v, r, s, or chain id and two empty strings in the form that is signed. */
  function SealOf(tx: TxValidator, includeSig: bool): (b: bytes) {
    if includeSig then RlpByteUint(tx.v) + (RlpPrefixedUint(tx.r) + RlpPrefixedUint(tx.s))
    else RlpByteUint(tx.chainId) + [0x80, 0x80]
  }

  function Payload(tx: TxValidator, includeSig: bool): (b: bytes) {
    RlpString(tx.data) + (RlpUint(tx.nHeight) + SealOf(tx, includeSig))
  }

  lemma PayloadSize(tx: TxValidator, includeSig: bool)
    ensures |Payload(tx, includeSig)| == StringSize(tx.data) + UintSize(tx.nHeight)
      + if includeSig then UintSize(tx.v) + 2 + BytesRequired(tx.r) + BytesRequired(tx.s)
        else UintSize(tx.chainId) + 2
    ensures |Payload(tx, includeSig)| < U64
  {
    Uint256Width(tx.r);
    Uint256Width(tx.s);
  }

  function Serialize(tx: TxValidator, includeSig: bool): (b: bytes) {
    PayloadSize(tx, includeSig);
    RlpListHeader(|Payload(tx, includeSig)|) + Payload(tx, includeSig)
  }

  function Digest(c: Crypto, tx: TxValidator, includeSig: bool): (h: Hash) {
    c.sha3(Serialize(tx, includeSig))
  }

  // ----- Reading

  function ReadSeal(rest: bytes): (r: Result<(u256, u256, u256)>) {
    var (v, r1) :- ReadUint256(rest);
    var (r, r2) :- ReadPrefixedUint(r1, 0x37);
    var (s, _) :- ReadPrefixedUint(r2, 0x37);
    Ok((v, r, s))
  }

  function ReadFields(rest: str): (r: Result<TxValidator>) {
    var (data, r1) :- ReadString(rest, 0xb7, false);
    var (nHeight, r2) :- ReadUint64(r1, 0x7f);
    var (v, r, s) :- ReadSeal(r2);
    Ok(TxValidator(Zeros(20), data, 0, nHeight, v, r, s))
  }

  /** The chain id `v` stands for.  27 and 28 pass the range test but leave the chain id unset, and
      the subtraction that follows underflows, so they are refused as well. */
  function ChainIdOf(v: u256): (id: Result<u64>) {
    if v > 36 then Ok(Truncate64((v - 35) / 2)) else Err
  }

  /** `v - (chainId * 2 + 35)`, narrowed to 8 bits; the checked subtraction must not underflow. */
  function RecoveryId(tx: TxValidator): (id: Result<byte>) {
    if tx.v < tx.chainId * 2 + 35 || tx.v - (tx.chainId * 2 + 35) > 255 then Err
    else Ok(tx.v - (tx.chainId * 2 + 35))
  }

  function Sender(c: Crypto, tx: TxValidator): (a: Result<Address>) {
    var id :- RecoveryId(tx);
    if !VerifySig(tx.r, tx.s, id) then Err else
      var key := c.recover(MakeSig(tx.r, tx.s, id), Digest(c, tx, false));
      if key == Zeros(65) then Err else Ok(ToAddress(c, key))
  }

  function FromPayload(c: Crypto, payload: str): (r: Result<TxValidator>) {
    var f :- ReadFields(payload);
    var chainId :- ChainIdOf(f.v);
    var tx := f.(chainId := chainId);
    var from :- Sender(c, tx);
    Ok(tx.(from := from))
  }

  /** `TxValidator(bytes, requiredChainId)`; the required chain id is not looked at. */
  function Parse(c: Crypto, b: str): (r: Result<TxValidator>) {
    var payload :- StripListHeader(b);
    FromPayload(c, payload)
  }

  /** A signed transaction: the sender is who the signature recovers to. */
  predicate WellSigned(c: Crypto, tx: TxValidator) {
    Sender(c, tx) == Ok(tx.from)
  }

  /** As for block transactions, with the parity taken out of v as EIP-155 puts it in. */
  lemma SignedMeans(c: Crypto, tx: TxValidator)
    ensures WellSigned(c, tx) <==>
      var id: int := tx.v - (2 * tx.chainId + 35);
      && 0 <= id <= 1 && 0 < tx.r < EC_ORDER && 0 < tx.s < EC_ORDER
      && var key := c.recover(Fixed(tx.r, 32) + Fixed(tx.s, 32) + [id], c.sha3(Serialize(tx, false)));
        key != Zeros(65) && tx.from == c.sha3(key[1..])[12..]
  {
    hide Serialize;
  }

  /** The signing constructor.  `v` is computed in 64 bits and may wrap around. */
  function Make(c: Crypto, from: Address, data: str, chainId: u64, nHeight: u64, key: PrivKey)
    : (r: Result<TxValidator>)
  {
    var pub := c.toUPub(key);
    var unsigned := TxValidator(from, data, chainId, nHeight, 0, 0, 0);
    var hash := Digest(c, unsigned, false);
    var sig := c.sign(hash, key);
    var id := sig[64];
    if ToAddress(c, pub) != from || !VerifySig(SigR(sig), SigS(sig), id) || c.recover(sig, hash) != pub then Err
    else Ok(unsigned.(v := SealV(chainId, id), r := SigR(sig), s := SigS(sig)))
  }

  function SealV(chainId: u64, id: byte): (v: u64) {
    Truncate64(id + Truncate64(chainId * 2 + 35))
  }

  lemma SealVWraps(chainId: u64, id: byte)
    requires id <= 1
    ensures chainId * 2 + 35 + id < U64 ==> SealV(chainId, id) == chainId * 2 + 35 + id
    ensures chainId * 2 + 35 + id >= U64 ==> SealV(chainId, id) < chainId * 2 + 35
  {
    if chainId * 2 + 35 < U64 <= chainId * 2 + 35 + id { assert U64 % U64 == 0; }
  }

  /** A constructed transaction is well signed exactly when the key is usable and `v` did not wrap. */
  lemma MakeSigns(c: Crypto, from: Address, data: str, chainId: u64, nHeight: u64, key: PrivKey)
    requires Make(c, from, data, chainId, nHeight, key).Ok?
    ensures WellSigned(c, Make(c, from, data, chainId, nHeight, key).value) <==>
      var sig := c.sign(Digest(c, TxValidator(from, data, chainId, nHeight, 0, 0, 0), false), key);
      c.toUPub(key) != Zeros(65) && chainId * 2 + 35 + sig[64] < U64
  {
    var tx := Make(c, from, data, chainId, nHeight, key).value;
    var unsigned := TxValidator(from, data, chainId, nHeight, 0, 0, 0);
    assert Serialize(tx, false) == Serialize(unsigned, false);
    var sig := c.sign(Digest(c, unsigned, false), key);
    SigParts(sig);
    SealVWraps(chainId, sig[64]);
  }

  // ----- Round trip

  lemma ReadSealWritten(tx: TxValidator)
    ensures ReadSeal(SealOf(tx, true)) == Ok((tx.v, tx.r, tx.s))
  {
    ReadByteUintWritten(tx.v, RlpPrefixedUint(tx.r) + RlpPrefixedUint(tx.s), 0x37);
    ReadPrefixedUintWritten(tx.r, RlpPrefixedUint(tx.s), 0x37);
    ReadPrefixedUintWritten(tx.s, [], 0x37);
    assert RlpPrefixedUint(tx.s) + [] == RlpPrefixedUint(tx.s);
  }

  lemma ReadFieldsWritten(tx: TxValidator)
    requires |Payload(tx, true)| < 0x4000_0000_0000_0000
    ensures |tx.data| != 55 ==> ReadFields(Payload(tx, true)) == Ok(tx.(from := Zeros(20), chainId := 0))
    ensures |tx.data| == 55 ==> var f := ReadFields(Payload(tx, true)); f.Ok? ==> f.value.data == []
  {
    var seal := SealOf(tx, true);
    var rest := RlpUint(tx.nHeight) + seal;
    if |tx.data| == 55 {
      ReadString55(tx.data, rest, false);
    } else {
      ReadStringWritten(tx.data, rest, 0xb7, false);
      ReadUintWritten(tx.nHeight, seal, 0x7f);
      ReadSealWritten(tx);
    }
  }

  predicate SurvivesWire(tx: TxValidator) {
    |tx.data| != 55 && |Payload(tx, true)| > 55 && tx.chainId >= 1
  }

  /** Within a well-signed transaction `v` is 2 * chainId + 35 or 36, so the chain id is found again
      unless it is zero. */
  lemma ChainIdIsRecovered(c: Crypto, tx: TxValidator)
    requires WellSigned(c, tx)
    ensures ChainIdOf(tx.v) == Ok(tx.chainId) <==> tx.chainId >= 1
  {
    var id := RecoveryId(tx).value;
    assert tx.v == tx.chainId * 2 + 35 + id && id <= 1;
  }

  /** Parsing a signed validator transaction gives it back, sender and chain id included, exactly
      under SurvivesWire. */
  lemma RoundTrip(c: Crypto, tx: TxValidator)
    requires WellSigned(c, tx)
    requires |Serialize(tx, true)| < 0x4000_0000_0000_0000
    ensures Parse(c, Serialize(tx, true)) == Ok(tx) <==> SurvivesWire(tx)
  {
    PayloadSize(tx, true);
    StripListHeaderWritten(Payload(tx, true));
    if |Payload(tx, true)| > 55 { PayloadRoundTrip(c, tx); }
  }

  lemma PayloadRoundTrip(c: Crypto, tx: TxValidator)
    requires WellSigned(c, tx)
    requires 55 < |Payload(tx, true)| < 0x4000_0000_0000_0000
    ensures FromPayload(c, Payload(tx, true)) == Ok(tx) <==> SurvivesWire(tx)
  {
    ReadFieldsWritten(tx);
    ChainIdIsRecovered(c, tx);
    SenderIgnoresFrom(c, tx, Zeros(20));
  }

  lemma SenderIgnoresFrom(c: Crypto, tx: TxValidator, a: Address)
    ensures Sender(c, tx.(from := a)) == Sender(c, tx)
  {
    assert Serialize(tx.(from := a), false) == Serialize(tx, false);
  }

  // ----- What the parser accepts

  /** Whatever is accepted is signed, for a chain other than 0. */
  lemma ParsedIsSigned(c: Crypto, b: str)
    requires Parse(c, b).Ok?
    ensures var tx := Parse(c, b).value; WellSigned(c, tx) && tx.chainId >= 1
  {
    hide ReadFields, StripListHeader, Digest;
    var f := ReadFields(StripListHeader(b).value).value;
    SenderIgnoresFrom(c, f.(chainId := ChainIdOf(f.v).value), Parse(c, b).value.from);
  }

  function ReadablePayload(tx: TxValidator): (b: bytes)
    ensures |b| <= |Payload(tx, true)| + 1
  {
    ReadableString(tx.data) + (RlpUint(tx.nHeight) + SealOf(tx, true))
  }

  /** A wire form that is accepted, written out longer than need be where the serializer's is not. */
  function ReadableForm(tx: TxValidator): (b: bytes)
    ensures |b| <= |Payload(tx, true)| + 10
  {
    PayloadFits(tx);
    ReadableList(ReadablePayload(tx))
  }

  lemma PayloadFits(tx: TxValidator)
    ensures |Payload(tx, true)| + 1 < U64
  {
    hide Payload, BytesRequired;
    PayloadSize(tx, true);
    Uint256Width(tx.r);
    Uint256Width(tx.s);
  }

  lemma ReadableFieldsAreRead(tx: TxValidator)
    requires |ReadablePayload(tx)| < 0x4000_0000_0000_0000
    ensures ReadFields(ReadablePayload(tx)) == Ok(tx.(from := Zeros(20), chainId := 0))
  {
    hide ReadString, ReadSeal, SealOf, ReadUint, RlpUint;
    var seal := SealOf(tx, true);
    ReadableStringIsRead(tx.data, RlpUint(tx.nHeight) + seal, false);
    ReadUintWritten(tx.nHeight, seal, 0x7f);
    ReadSealWritten(tx);
  }

  /** Every signed validator transaction for a chain other than 0 has a form that is accepted. */
  lemma ReadableFormIsAccepted(c: Crypto, tx: TxValidator)
    requires WellSigned(c, tx) && tx.chainId >= 1 && |ReadableForm(tx)| < 0x4000_0000_0000_0000
    ensures Parse(c, ReadableForm(tx)) == Ok(tx)
  {
    hide ReadablePayload, ReadFields, StripListHeader, ReadableList, Digest;
    var p := ReadablePayload(tx);
    PayloadFits(tx);
    ReadableListIsRead(p);
    ReadableFieldsAreRead(tx);
    ChainIdIsRecovered(c, tx);
    SenderIgnoresFrom(c, tx, Zeros(20));
  }

  /** What is read of a written form with 55 bytes of data has none. */
  lemma DataOf55BytesReadsEmpty(c: Crypto, tx: TxValidator)
    requires |tx.data| == 55 && |Serialize(tx, true)| < 0x4000_0000_0000_0000
    requires Parse(c, Serialize(tx, true)).Ok?
    ensures Parse(c, Serialize(tx, true)).value.data == []
  {
    hide ReadFields, StripListHeader, Payload, Sender;
    PayloadSize(tx, true);
    StripListHeaderWritten(Payload(tx, true));
    ReadFieldsWritten(tx);
  }

  /** A written form with a payload of at most 55 bytes is refused. */
  lemma ShortListIsRefused(c: Crypto, tx: TxValidator)
    requires |Payload(tx, true)| <= 55 && |Serialize(tx, true)| < 0x4000_0000_0000_0000
    ensures Parse(c, Serialize(tx, true)) == Err
  {
    hide Payload, FromPayload;
    PayloadSize(tx, true);
    StripListHeaderWritten(Payload(tx, true));
  }

  // ----- Injectivity

  lemma ContentIsInjective(a: TxValidator, b: TxValidator, includeSig: bool)
    requires Serialize(a, includeSig) == Serialize(b, includeSig)
    ensures a.data == b.data && a.nHeight == b.nHeight && SealOf(a, includeSig) == SealOf(b, includeSig)
  {
    PayloadSize(a, includeSig);
    PayloadSize(b, includeSig);
    var x, y := SealOf(a, includeSig), SealOf(b, includeSig);
    ListHeaderIsPrefixFree(|Payload(a, includeSig)|, Payload(a, includeSig),
                           |Payload(b, includeSig)|, Payload(b, includeSig));
    StringIsPrefixFree(a.data, RlpUint(a.nHeight) + x, b.data, RlpUint(b.nHeight) + y);
    UintIsPrefixFree(a.nHeight, x, b.nHeight, y);
  }

  /** What is signed determines data, height and chain id, for all their values. */
  lemma UnsignedFormIsInjective(a: TxValidator, b: TxValidator)
    requires Serialize(a, false) == Serialize(b, false)
    ensures a.data == b.data && a.nHeight == b.nHeight && a.chainId == b.chainId
  {
    ContentIsInjective(a, b, false);
    ByteUintIsPrefixFree(a.chainId, [0x80, 0x80], b.chainId, [0x80, 0x80]);
  }

  /** The signed bytes determine a well-signed transaction completely, sender included. */
  lemma SignedFormDeterminesTx(c: Crypto, a: TxValidator, b: TxValidator)
    requires WellSigned(c, a) && WellSigned(c, b)
    requires Serialize(a, true) == Serialize(b, true)
    ensures a == b
  {
    ContentIsInjective(a, b, true);
    ReadSealWritten(a);
    ReadSealWritten(b);
    assert a.chainId == b.chainId by {
      var i, j := RecoveryId(a).value, RecoveryId(b).value;
      assert a.chainId * 2 + 35 + i == b.chainId * 2 + 35 + j && i <= 1 && j <= 1;
    }
    assert a.(from := b.from) == b;
    SenderIgnoresFrom(c, a, b.from);
  }

  /** Well-signed validator transactions with one hash are one, or their signed forms collide. */
  lemma SameHash(c: Crypto, x: TxValidator, y: TxValidator)
    requires WellSigned(c, x) && WellSigned(c, y) && Digest(c, x, true) == Digest(c, y, true)
    ensures x == y || Collides(c.sha3, {Serialize(x, true), Serialize(y, true)})
  {
    hide Serialize, WellSigned;
    var S := {Serialize(x, true), Serialize(y, true)};
    if Serialize(x, true) == Serialize(y, true) {
      SignedFormDeterminesTx(c, x, y);
    } else {
      assert Serialize(x, true) in S && Serialize(y, true) in S;
    }
  }

  // ----- The serializer and the parser as the node runs them

  method MeasurePayload(tx: TxValidator, includeSig: bool) returns (total: nat)
    ensures total == |Payload(tx, includeSig)|
  {
    total := MeasureString(tx.data);
    var size := MeasureUint(tx.nHeight);
    total := total + size;
    if includeSig {
      size := MeasureUint(tx.v);
      total := total + size;
      size := CountBytesRequired(tx.r);
      total := total + 1 + size;
      size := CountBytesRequired(tx.s);
      total := total + 1 + size;
    } else {
      size := MeasureUint(tx.chainId);
      total := total + size + 1 + 1;
    }
    PayloadSize(tx, includeSig);
  }

  method AppendByteUint(ret: bytes, n: u256, ghost rest: bytes) returns (r: bytes)
    ensures r + rest == ret + (RlpByteUint(n) + rest)
  {
    if n < 0x80 { r := Append(ret, [n], rest); } else { r := AppendUint(ret, n, rest); }
  }

  method AppendSeal(start: bytes, tx: TxValidator, includeSig: bool) returns (ret: bytes)
    ensures ret == start + SealOf(tx, includeSig)
  {
    if includeSig {
      ret := AppendByteUint(start, tx.v, RlpPrefixedUint(tx.r) + RlpPrefixedUint(tx.s));
      ret := AppendPrefixedUint(ret, tx.r, RlpPrefixedUint(tx.s));
      assert RlpPrefixedUint(tx.s) + [] == RlpPrefixedUint(tx.s);
      ret := AppendPrefixedUint(ret, tx.s, []);
      assert ret + [] == ret;
    } else {
      ret := AppendByteUint(start, tx.chainId, [0x80, 0x80]);
      ret := ret + [0x80];
      ret := ret + [0x80];
    }
  }

  method RlpSerialize(tx: TxValidator, includeSig: bool) returns (ret: bytes)
    ensures ret == Serialize(tx, includeSig)
  {
    var total := MeasurePayload(tx, includeSig);
    PayloadSize(tx, includeSig);
    ghost var seal := SealOf(tx, includeSig);
    assert [] + Serialize(tx, includeSig) == Serialize(tx, includeSig);
    ret := AppendListHeader([], total, Payload(tx, includeSig));
    ret := AppendString(ret, tx.data, RlpUint(tx.nHeight) + seal);
    ret := AppendUint(ret, tx.nHeight, seal);
    ret := AppendSeal(ret, tx, includeSig);
  }

  method TakeSeal(d: bytes, index: nat) returns (r: Result<(u256, u256, u256)>)
    requires index <= |d|
    ensures r == ReadSeal(d[index..])
  {
    var v :- TakeUint256(d, index);
    var r1 :- TakePrefixedUint(d, v.1, 0x37);
    var s1 :- TakePrefixedUint(d, r1.1, 0x37);
    return Ok((v.0, r1.0, s1.0));
  }

  method TakeFields(d: str) returns (r: Result<TxValidator>)
    ensures r == ReadFields(d)
  {
    assert d[0..] == d;
    var data :- TakeString(d, 0, false);
    var nHeight :- TakeUint64(d, data.1, 0x7f);
    var seal :- TakeSeal(d, nHeight.1);
    return Ok(TxValidator(Zeros(20), data.0, 0, nHeight.0, seal.0, seal.1, seal.2));
  }

  method ParseBytes(c: Crypto, b: str) returns (r: Result<TxValidator>)
    ensures r == Parse(c, b)
  {
    var d :- TakeListHeader(b);
    var tx :- TakeFields(d);
    var chainId :- ChainIdOf(tx.v);
    tx := tx.(chainId := chainId);
    var from :- RecoverSender(c, tx);
    return Ok(tx.(from := from));
  }

  method RecoverSender(c: Crypto, tx: TxValidator) returns (r: Result<Address>)
    ensures r == Sender(c, tx)
  {
    var id :- RecoveryId(tx);
    if !VerifySig(tx.r, tx.s, id) { return Err; }
    var message := RlpSerialize(tx, false);
    var key := c.recover(MakeSig(tx.r, tx.s, id), c.sha3(message));
    if key == Zeros(65) { return Err; }
    return Ok(ToAddress(c, key));
  }
}
