/** RLP as Appendix B of the Ethereum Yellow Paper defines it, and which transactions are written in it
    (src/utils/tx.cpp; EIP-2718 and EIP-1559 for the order of the fields). */
module RlpStandard {
  import opened Bytes
  import opened Rlp
  import Tx
  import ValidatorTx

  // ----- The standard

  /** A string: a byte below 128 stands for itself, up to 55 bytes follow a one-byte length. */
  function StringItem(x: bytes): (r: bytes)
    requires |x| < U64
  {
    if |x| == 1 && x[0] < 128 then x
    else if |x| < 56 then [128 + |x|] + x
    else Uint64Width(|x|); [183 + BytesRequired(|x|)] + (UintToBytes(|x|) + x)
  }

  /** An integer is the string of its bytes without leading zeros. */
  function IntegerItem(n: u256): (r: bytes) {
    Uint256Width(n);
    StringItem(UintToBytes(n))
  }

  /** A list of items that are written already. */
  function ListItem(items: bytes): (r: bytes)
    requires |items| < U64
  {
    if |items| < 56 then [192 + |items|] + items
    else Uint64Width(|items|); [247 + BytesRequired(|items|)] + (UintToBytes(|items|) + items)
  }

  function Items(xs: seq<bytes>): (r: bytes) { if |xs| == 0 then [] else xs[0] + Items(xs[1..]) }

  /** Chain id, nonce, tip, fee cap, gas limit, receiver, value, data and an empty access list; behind
      them, in the signed form, parity, r and s. */
  function TxItems(tx: Tx.TxBlock, signed: bool): (xs: seq<bytes>) {
    [IntegerItem(tx.chainId), IntegerItem(tx.nonce), IntegerItem(tx.maxPriorityFeePerGas), IntegerItem(tx.maxFeePerGas),
     IntegerItem(tx.gasLimit), StringItem(tx.to), IntegerItem(tx.value), StringItem(tx.data), ListItem([])]
    + if signed then [IntegerItem(tx.v), IntegerItem(tx.r), IntegerItem(tx.s)] else []
  }

  /** Data and height; behind them chain id and two empty strings, or v, r and s. */
  function ValidatorTxItems(tx: ValidatorTx.TxValidator, signed: bool): (xs: seq<bytes>) {
    [StringItem(tx.data), IntegerItem(tx.nHeight)]
    + if signed then [IntegerItem(tx.v), IntegerItem(tx.r), IntegerItem(tx.s)]
      else [IntegerItem(tx.chainId), StringItem([]), StringItem([])]
  }

  // ----- Which items are standard

  predicate SmallByte(d: bytes) { |d| == 1 && d[0] < 128 }

  lemma SmallIntegers(n: u256)
    ensures n == 0 ==> UintToBytes(n) == []
    ensures 0 < n < 128 ==> UintToBytes(n) == [n]
    ensures n >= 128 ==> !SmallByte(UintToBytes(n)) && UintToBytes(n) != []
  {
    assert 0 < n < 256 ==> UintToBytes(n / 256) == [];
    UintRoundTrip(n);
    if n >= 128 && |UintToBytes(n)| == 1 { assert UintToBytes(n)[..0] == []; }
  }

  /** Integers of the head are always written as the standard says. */
  lemma UintIsStandard(n: u256)
    ensures RlpUint(n) == IntegerItem(n)
  {
    Uint256Width(n);
    SmallIntegers(n);
  }

  lemma ByteUintIsStandard(n: u256)
    ensures RlpByteUint(n) == IntegerItem(n) <==> n != 0
    ensures |RlpByteUint(n)| == |IntegerItem(n)|
  {
    hide IntegerItem, RlpUint;
    UintIsStandard(n);
    ZeroItem();
    if 0 < n < 128 { SmallUint(n); }
  }

  lemma ZeroItem()
    ensures IntegerItem(0) == [0x80]
  {
  }

  lemma SmallUint(n: u256)
    requires 0 < n < 128
    ensures RlpUint(n) == [n]
  {
  }

  /** r and s get a length byte even when they are small. */
  lemma PrefixedIsStandard(n: u256)
    ensures RlpPrefixedUint(n) == IntegerItem(n) <==> n == 0 || n >= 128
    ensures |RlpPrefixedUint(n)| == |IntegerItem(n)| + if 0 < n < 128 then 1 else 0
  {
    Uint256Width(n);
    SmallIntegers(n);
  }

  /** So does data of one small byte. */
  lemma StringIsStandard(d: str)
    ensures RlpString(d) == StringItem(d) <==> !SmallByte(d)
    ensures |RlpString(d)| == |StringItem(d)| + if SmallByte(d) then 1 else 0
  {
  }

  lemma ListIsStandard(p: bytes)
    requires |p| < U64
    ensures RlpListHeader(|p|) + p == ListItem(p)
  {
    Uint64Width(|p|);
    if |p| >= 56 {
      assert [247 + BytesRequired(|p|)] + UintToBytes(|p|) + p == [247 + BytesRequired(|p|)] + (UintToBytes(|p|) + p);
    }
  }

  lemma AddressItem(a: Address)
    ensures StringItem(a) == [0x94] + a
  {
  }

  // ----- Block transactions

  lemma ItemsOfNine(x1: bytes, x2: bytes, x3: bytes, x4: bytes, x5: bytes, x6: bytes, x7: bytes, x8: bytes, x9: bytes,
    tail: seq<bytes>)
    ensures Items([x1, x2, x3, x4, x5, x6, x7, x8, x9] + tail)
      == x1 + (x2 + (x3 + (x4 + (x5 + (x6 + (x7 + (x8 + (x9 + Items(tail)))))))))
  {
    hide Items;
    var t8 := [x9] + tail;
    var t7 := [x8] + t8;
    var t6 := [x7] + t7;
    var t5 := [x6] + t6;
    var t4 := [x5] + t5;
    var t3 := [x4] + t4;
    var t2 := [x3] + t3;
    var t1 := [x2] + t2;
    ItemsOfOne(x1, t1);
    ItemsOfOne(x2, t2);
    ItemsOfOne(x3, t3);
    ItemsOfOne(x4, t4);
    ItemsOfOne(x5, t5);
    ItemsOfOne(x6, t6);
    ItemsOfOne(x7, t7);
    ItemsOfOne(x8, t8);
    ItemsOfOne(x9, tail);
    assert [x1, x2, x3, x4, x5, x6, x7, x8, x9] + tail == [x1] + t1;
  }

  lemma ItemsOfOne(x: bytes, tail: seq<bytes>)
    ensures Items([x] + tail) == x + Items(tail)
  {
    assert ([x] + tail)[1..] == tail;
  }

  lemma ItemsOfThree(x: bytes, y: bytes, z: bytes)
    ensures Items([x, y, z]) == x + (y + z)
  {
    ItemsOfOne(x, [y, z]);
    ItemsOfOne(y, [z]);
    ItemsOfOne(z, []);
    assert [x, y, z] == [x] + [y, z] && [y, z] == [y] + [z] && [z] == [z] + [] && z + [] == z;
  }

  /** The signature part, as the standard has it. */
  function SignatureItems(v: u256, r: u256, s: u256): (b: bytes) { IntegerItem(v) + (IntegerItem(r) + IntegerItem(s)) }

  function SmallCount(r: u256, s: u256): (n: nat) { (if 0 < r < 128 then 1 else 0) + if 0 < s < 128 then 1 else 0 }

  lemma SignatureIsStandard(v: byte, r: u256, s: u256)
    requires v <= 1
    ensures SmallCount(r, s) == 0 ==> Tx.SignaturePart(v, r, s) == SignatureItems(v, r, s)
    ensures |Tx.SignaturePart(v, r, s)| == |SignatureItems(v, r, s)| + SmallCount(r, s)
  {
    hide IntegerItem, RlpPrefixedUint;
    PrefixedIsStandard(r);
    PrefixedIsStandard(s);
    UintIsStandard(v);
  }

  /** How many bytes longer than the standard a payload is. */
  function Excess(tx: Tx.TxBlock, signed: bool): (n: nat) {
    (if SmallByte(tx.data) then 1 else 0) + if signed then SmallCount(tx.r, tx.s) else 0
  }

  /** The standard payload behind the head fields. */
  function StandardTail(tx: Tx.TxBlock, signed: bool): (b: bytes) {
    StringItem(tx.data) + ([0xc0] + if signed then SignatureItems(tx.v, tx.r, tx.s) else [])
  }

  lemma TailIsStandard(tx: Tx.TxBlock, signed: bool)
    requires tx.v <= 1
    ensures Excess(tx, signed) == 0 ==> Tx.TailOf(tx, signed) == StandardTail(tx, signed)
    ensures |Tx.TailOf(tx, signed)| == |StandardTail(tx, signed)| + Excess(tx, signed)
  {
    hide RlpString, StringItem, Tx.SignaturePart, SignatureItems, SmallCount, SmallByte;
    StringIsStandard(tx.data);
    SignatureIsStandard(tx.v, tx.r, tx.s);
  }

  lemma ItemsAreHeadAndTail(tx: Tx.TxBlock, signed: bool)
    ensures Items(TxItems(tx, signed)) == Tx.HeadThen(tx, StandardTail(tx, signed))
  {
    hide IntegerItem, StringItem, RlpUint, Items;
    var tail := if signed then [IntegerItem(tx.v), IntegerItem(tx.r), IntegerItem(tx.s)] else [];
    ItemsOfNine(IntegerItem(tx.chainId), IntegerItem(tx.nonce), IntegerItem(tx.maxPriorityFeePerGas),
                IntegerItem(tx.maxFeePerGas), IntegerItem(tx.gasLimit), StringItem(tx.to), IntegerItem(tx.value),
                StringItem(tx.data), ListItem([]), tail);
    ItemsOfThree(IntegerItem(tx.v), IntegerItem(tx.r), IntegerItem(tx.s));
    NoItems();
    AddressItem(tx.to);
    UintIsStandard(tx.chainId);
    UintIsStandard(tx.nonce);
    UintIsStandard(tx.maxPriorityFeePerGas);
    UintIsStandard(tx.maxFeePerGas);
    UintIsStandard(tx.gasLimit);
    UintIsStandard(tx.value);
    Regrouped(tx.to, RlpUint(tx.value) + StandardTail(tx, signed));
  }

  lemma NoItems()
    ensures Items([]) == [] && ListItem([]) == [0xc0]
  {
  }

  lemma Regrouped(to: bytes, rest: bytes)
    ensures ([0x94] + to) + rest == [0x94] + (to + rest)
  {
  }

  lemma HeadSize(tx: Tx.TxBlock, x: bytes, y: bytes)
    ensures |Tx.HeadThen(tx, x)| - |x| == |Tx.HeadThen(tx, y)| - |y|
  {
    hide RlpUint;
  }

  lemma SerializedIs(tx: Tx.TxBlock, signed: bool)
    ensures |Tx.Payload(tx, signed)| < U64
    ensures Tx.Serialize(tx, signed) == [0x02] + ListItem(Tx.Payload(tx, signed))
  {
    hide Tx.Payload, RlpListHeader;
    Tx.PayloadSize(tx, signed);
    ListIsStandard(Tx.Payload(tx, signed));
  }

  lemma StandardFits(tx: Tx.TxBlock, signed: bool)
    requires tx.v <= 1
    ensures |Items(TxItems(tx, signed))| < U64
  {
    hide Tx.HeadThen, Tx.TailOf, StandardTail, Items, TxItems, Excess;
    Tx.PayloadSize(tx, signed);
    ItemsAreHeadAndTail(tx, signed);
    TailIsStandard(tx, signed);
    HeadSize(tx, Tx.TailOf(tx, signed), StandardTail(tx, signed));
  }

  /** A transaction is written as the standard says, field for field, if and only if its data is not a
      single byte below 128 and, when signed, neither r nor s is between 1 and 127. */
  lemma TxIsStandard(tx: Tx.TxBlock, signed: bool)
    requires tx.v <= 1
    ensures |Items(TxItems(tx, signed))| < U64
    ensures Tx.Serialize(tx, signed) == [0x02] + ListItem(Items(TxItems(tx, signed))) <==>
      !(|tx.data| == 1 && tx.data[0] < 128) && (signed ==> !(0 < tx.r < 128) && !(0 < tx.s < 128))
  {
    hide Tx.HeadThen, Tx.TailOf, StandardTail, Items, TxItems, Tx.Serialize, ListItem;
    StandardFits(tx, signed);
    SerializedIs(tx, signed);
    ItemsAreHeadAndTail(tx, signed);
    TailIsStandard(tx, signed);
    HeadSize(tx, Tx.TailOf(tx, signed), StandardTail(tx, signed));
    if Excess(tx, signed) != 0 { ListsDiffer(Tx.Payload(tx, signed), Items(TxItems(tx, signed))); }
  }

  lemma ListsDiffer(p: bytes, q: bytes)
    requires |p| < U64 && |q| < U64 && p != q
    ensures [0x02] + ListItem(p) != [0x02] + ListItem(q)
  {
    hide ListItem;
    ListIsStandard(p);
    ListIsStandard(q);
    if [0x02] + ListItem(p) == [0x02] + ListItem(q) {
      assert ([0x02] + ListItem(p))[1..] == ListItem(p) && ([0x02] + ListItem(q))[1..] == ListItem(q);
      ListHeaderIsPrefixFree(|p|, p, |q|, q);
    }
  }

  // ----- Validator transactions

  function ValidatorExcess(tx: ValidatorTx.TxValidator, signed: bool): (n: nat) {
    (if SmallByte(tx.data) then 1 else 0) + if signed then SmallCount(tx.r, tx.s) else 0
  }

  function StandardSeal(tx: ValidatorTx.TxValidator, signed: bool): (b: bytes) {
    if signed then SignatureItems(tx.v, tx.r, tx.s) else IntegerItem(tx.chainId) + [0x80, 0x80]
  }

  lemma SealIsStandard(tx: ValidatorTx.TxValidator, signed: bool)
    ensures (signed ==> SmallCount(tx.r, tx.s) == 0) ==>
      (ValidatorTx.SealOf(tx, signed) == StandardSeal(tx, signed) <==> (if signed then tx.v else tx.chainId) != 0)
    ensures |ValidatorTx.SealOf(tx, signed)|
      == |StandardSeal(tx, signed)| + if signed then SmallCount(tx.r, tx.s) else 0
  {
    hide IntegerItem, RlpByteUint, RlpPrefixedUint;
    var n: u256 := if signed then tx.v else tx.chainId;
    ByteUintIsStandard(n);
    PrefixedIsStandard(tx.r);
    PrefixedIsStandard(tx.s);
    var x := RlpByteUint(n);
    assert ValidatorTx.SealOf(tx, signed)[..|x|] == x && StandardSeal(tx, signed)[..|x|] == IntegerItem(n);
  }

  lemma ValidatorItems(tx: ValidatorTx.TxValidator, signed: bool)
    ensures Items(ValidatorTxItems(tx, signed))
      == StringItem(tx.data) + (IntegerItem(tx.nHeight) + StandardSeal(tx, signed))
  {
    hide IntegerItem, Items, StringItem;
    var tail := if signed then [IntegerItem(tx.v), IntegerItem(tx.r), IntegerItem(tx.s)]
                else [IntegerItem(tx.chainId), StringItem([]), StringItem([])];
    ItemsOfThree(tail[0], tail[1], tail[2]);
    ItemsOfOne(IntegerItem(tx.nHeight), tail);
    ItemsOfOne(StringItem(tx.data), [IntegerItem(tx.nHeight)] + tail);
    EmptyItem();
    assert ValidatorTxItems(tx, signed) == [StringItem(tx.data)] + ([IntegerItem(tx.nHeight)] + tail);
  }

  lemma EmptyItem()
    ensures StringItem([]) == [0x80]
  {
  }

  lemma DifferentSeals(x: bytes, y: bytes, seal: bytes, other: bytes)
    requires |seal| == |other| && seal != other
    ensures x + (y + seal) != x + (y + other)
  {
    assert (x + (y + seal))[|x| + |y|..] == seal && (x + (y + other))[|x| + |y|..] == other;
  }

  /** A validator transaction is the standard list of its fields under the same condition, if also v, or
      in the form that is signed the chain id, is not 0. */
  lemma ValidatorTxIsStandard(tx: ValidatorTx.TxValidator, signed: bool)
    ensures |Items(ValidatorTxItems(tx, signed))| < U64
    ensures ValidatorTx.Serialize(tx, signed) == ListItem(Items(ValidatorTxItems(tx, signed))) <==>
      && !(|tx.data| == 1 && tx.data[0] < 128)
      && if signed then tx.v != 0 && !(0 < tx.r < 128) && !(0 < tx.s < 128) else tx.chainId != 0
  {
    hide ValidatorTx.SealOf, StandardSeal, Items, ValidatorTxItems, ListItem, StringItem, IntegerItem, RlpString,
      RlpUint, RlpListHeader;
    var p, q := ValidatorTx.Payload(tx, signed), Items(ValidatorTxItems(tx, signed));
    ValidatorTx.PayloadSize(tx, signed);
    ValidatorItems(tx, signed);
    SealIsStandard(tx, signed);
    StringIsStandard(tx.data);
    UintIsStandard(tx.nHeight);
    ListIsStandard(p);
    var seal, other := ValidatorTx.SealOf(tx, signed), StandardSeal(tx, signed);
    if ValidatorExcess(tx, signed) == 0 && seal != other {
      DifferentSeals(StringItem(tx.data), IntegerItem(tx.nHeight), seal, other);
    }
    if p != q { ListsDiffer(p, q); }
  }
}
