/** The cryptography the node calls but does not implement (src/utils/ecdsa.h, Utils::sha3).
    Hashing, signing and key recovery are parameters: nothing is assumed about them except the
    sizes their types carry.  Results that rest on collision resistance name the finite set of
    strings that would have to contain the collision. */
module Crypto {
  import opened Bytes

  type Signature = s: bytes | |s| == 65 witness Zeros(65)
  type UPubKey = k: bytes | |k| == 65 witness Zeros(65)
  type PrivKey = k: bytes | |k| == 32 witness Zeros(32)

  datatype Crypto = Crypto(
    sha3: bytes -> Hash,
    recover: (Signature, Hash) -> UPubKey,
    sign: (Hash, PrivKey) -> Signature,
    toUPub: PrivKey -> UPubKey)

  /** Order of the secp256k1 group (`Secp256k1::ecConst`). */
  const EC_ORDER: nat := 0xFFFFFFFF_FFFFFFFF_FFFFFFFF_FFFFFFFE_BAAEDCE6_AF48A03B_BFD25E8C_D0364141

  predicate VerifySig(r: nat, s: nat, v: nat) {
    v <= 1 && 0 < r < EC_ORDER && 0 < s < EC_ORDER
  }

  function MakeSig(r: nat, s: nat, v: byte): (sig: Signature)
  {
    Fixed(r, 32) + Fixed(s, 32) + [v]
  }

  function SigR(sig: Signature): (r: u256) { SigPartBound(sig[..32]); FromBigEndian(sig[..32]) }
  function SigS(sig: Signature): (s: u256) { SigPartBound(sig[32..64]); FromBigEndian(sig[32..64]) }

  lemma SigPartBound(b: bytes)
    requires |b| == 32
    ensures FromBigEndian(b) < U256
  {
    FromBigEndianBound(b);
    Pow256Values();
  }

  /** A signature is its two scalars and its recovery id put together. */
  lemma SigParts(sig: Signature)
    ensures MakeSig(SigR(sig), SigS(sig), sig[64]) == sig
  {
    FixedInverse(sig[..32]);
    FixedInverse(sig[32..64]);
    assert sig == sig[..32] + sig[32..64] + [sig[64]];
  }

  function ToAddress(c: Crypto, key: UPubKey): (a: Address)
  {
    c.sha3(key[1..])[12..]
  }

  /** `FixedStr::operator bool`: some byte is not zero. */
  predicate IsSet(b: bytes) {
    exists i :: 0 <= i < |b| && b[i] != 0
  }

  lemma SetIsNotZero(b: bytes)
    ensures IsSet(b) <==> b != Zeros(|b|)
  {
    if !IsSet(b) { assert b == Zeros(|b|); }
  }

  /** Two different strings of `S` have the same digest. */
  ghost predicate Collides(sha3: bytes -> Hash, S: set<bytes>) {
    exists x, y :: x in S && y in S && x != y && sha3(x) == sha3(y)
  }

  lemma CollidesIsMonotone(sha3: bytes -> Hash, S: set<bytes>, T: set<bytes>)
    requires S <= T
    ensures Collides(sha3, S) ==> Collides(sha3, T)
  {
    if Collides(sha3, S) {
      var x, y :| x in S && y in S && x != y && sha3(x) == sha3(y);
      assert x in T && y in T;
    }
  }
}
