/** The layered hash tree (src/utils/merkle.cpp, src/utils/merkle.h). */
module MerkleTree {
  import opened Bytes
  import opened Crypto

  // ----- Pairing

  /** Lexicographic order of byte strings, as std::string compares them. */
  predicate Less(a: bytes, b: bytes)
    decreases |a|
  {
    |b| > 0 && (|a| == 0 || a[0] < b[0] || (a[0] == b[0] && Less(a[1..], b[1..])))
  }

  function Min(a: Hash, b: Hash): (m: Hash) { if Less(b, a) then b else a }
  function Max(a: Hash, b: Hash): (m: Hash) { if Less(a, b) then b else a }

  /** The 64 bytes hashed for two siblings: smaller one first. */
  function Pair(a: Hash, b: Hash): (p: bytes)
    ensures |p| == 64
  {
    Min(a, b) + Max(a, b)
  }

  lemma {:induction false} LessIsTotal(a: bytes, b: bytes)
    ensures !(Less(a, b) && Less(b, a))
    ensures Less(a, b) || a == b || Less(b, a)
    decreases |a|
  {
    if |a| > 0 && |b| > 0 && a[0] == b[0] {
      LessIsTotal(a[1..], b[1..]);
      assert a == [a[0]] + a[1..] && b == [b[0]] + b[1..];
    }
  }

  lemma {:induction false} LessIsIrreflexive(a: bytes)
    ensures !Less(a, a)
    decreases |a|
  {
    if |a| > 0 { LessIsIrreflexive(a[1..]); }
  }

  /** Strings of one length compare as the numbers they are. */
  lemma {:induction false} LessIsNumeric(a: bytes, b: bytes)
    requires |a| == |b|
    ensures Less(a, b) <==> FromBigEndian(a) < FromBigEndian(b)
    decreases |a|
  {
    if |a| > 0 {
      LessIsNumeric(a[1..], b[1..]);
      LeadingByte(a);
      LeadingByte(b);
      FirstByteDecides(a[0], b[0], Pow256(|a| - 1), FromBigEndian(a[1..]), FromBigEndian(b[1..]));
    }
  }

  lemma LeadingByte(a: bytes)
    requires |a| > 0
    ensures FromBigEndian(a) == a[0] * Pow256(|a| - 1) + FromBigEndian(a[1..])
    ensures FromBigEndian(a[1..]) < Pow256(|a| - 1)
  {
    hide FromBigEndian, Pow256;
    assert a == [a[0]] + a[1..];
    FromBigEndianOfOne(a[0]);
    FromBigEndianOfBoth([a[0]], a[1..]);
    FromBigEndianBound(a[1..]);
  }

  lemma FirstByteDecides(x: nat, y: nat, p: nat, a: nat, b: nat)
    requires a < p && b < p
    ensures x * p + a < y * p + b <==> x < y || (x == y && a < b)
  {
    if x < y { MoreMultiples(x, y, p); }
    if y < x { MoreMultiples(y, x, p); }
  }

  lemma {:induction false} MoreMultiples(x: nat, y: nat, p: nat)
    requires x < y
    ensures x * p + p <= y * p
  {
    if x + 1 < y { MoreMultiples(x, y - 1, p); }
    assert (y - 1) * p + p == y * p;
  }

  lemma PairIsUnordered(a: Hash, b: Hash)
    ensures Pair(a, b) == Pair(b, a)
    ensures Pair(a, b) == a + b || Pair(a, b) == b + a
  {
    LessIsTotal(a, b);
    LessIsIrreflexive(a);
  }

  /** A pair string determines the two hashes, but not which was left. */
  lemma PairDeterminesChildren(a: Hash, b: Hash, c: Hash, d: Hash)
    requires Pair(a, b) == Pair(c, d)
    ensures (a == c && b == d) || (a == d && b == c)
  {
    PairIsUnordered(a, b);
    PairIsUnordered(c, d);
    var p, q := Pair(a, b), Pair(c, d);
    assert p[..32] == q[..32] && p[32..] == q[32..];
    assert (a + b)[..32] == a && (a + b)[32..] == b && (b + a)[..32] == b && (b + a)[32..] == a;
    assert (c + d)[..32] == c && (c + d)[32..] == d && (d + c)[..32] == d && (d + c)[32..] == c;
  }

  // ----- Layers

  function Parent(sha3: bytes -> Hash, a: Hash, b: Hash): (h: Hash) { sha3(Pair(a, b)) }

  /** The next layer: siblings are hashed, an unpaired last element is carried up unchanged. */
  function NewLayer(sha3: bytes -> Hash, l: seq<Hash>): (r: seq<Hash>)
    ensures |l| <= 2 * |r| <= |l| + 1
  {
    if |l| <= 1 then l else [Parent(sha3, l[0], l[1])] + NewLayer(sha3, l[2..])
  }

  function Layers(sha3: bytes -> Hash, l: seq<Hash>): (r: seq<seq<Hash>>)
    ensures |r| > 0 && r[0] == l
    ensures |r[|r| - 1]| <= 1
    decreases |l|
  {
    if |l| <= 1 then [l] else [l] + Layers(sha3, NewLayer(sha3, l))
  }

  function RootOfLayer(sha3: bytes -> Hash, l: seq<Hash>): (h: Hash)
    decreases |l|
  {
    if |l| == 0 then Zeros(32) else if |l| == 1 then l[0] else RootOfLayer(sha3, NewLayer(sha3, l))
  }

  function LeafLayer(sha3: bytes -> Hash, hashes: seq<Hash>): (r: seq<Hash>)
    ensures |r| == |hashes|
    ensures forall i :: 0 <= i < |r| ==> r[i] == sha3(hashes[i])
  {
    if |hashes| == 0 then [] else
      var last := |hashes| - 1;
      LeafLayer(sha3, hashes[..last]) + [sha3(hashes[last])]
  }

  /** `Merkle(txs).getRoot()` for transactions with these hashes. */
  function Root(sha3: bytes -> Hash, hashes: seq<Hash>): (h: Hash) {
    RootOfLayer(sha3, LeafLayer(sha3, hashes))
  }

  /** Every string the constructor hashes. */
  function PairStrings(l: seq<Hash>): set<bytes> {
    if |l| <= 1 then {} else {Pair(l[0], l[1])} + PairStrings(l[2..])
  }

  function LayerStrings(sha3: bytes -> Hash, l: seq<Hash>): set<bytes>
    decreases |l|
  {
    if |l| <= 1 then {} else PairStrings(l) + LayerStrings(sha3, NewLayer(sha3, l))
  }

  function HashedStrings(sha3: bytes -> Hash, hashes: seq<Hash>): set<bytes> {
    (set h | h in hashes) + LayerStrings(sha3, LeafLayer(sha3, hashes))
  }

  /** Strictly shrinking layers: construction stops after at most |l| rounds. */
  lemma {:induction false} LayersShrink(sha3: bytes -> Hash, l: seq<Hash>, i: nat)
    requires i + 1 < |Layers(sha3, l)|
    ensures |Layers(sha3, l)[i + 1]| < |Layers(sha3, l)[i]|
    ensures Layers(sha3, l)[i + 1] == NewLayer(sha3, Layers(sha3, l)[i])
    decreases |l|
  {
    if i > 0 { LayersShrink(sha3, NewLayer(sha3, l), i - 1); }
  }

  lemma {:induction false} LastLayerIsRoot(sha3: bytes -> Hash, l: seq<Hash>)
    requires |l| > 0
    ensures var t := Layers(sha3, l); t[|t| - 1] == [RootOfLayer(sha3, l)]
    decreases |l|
  {
    if |l| > 1 { LastLayerIsRoot(sha3, NewLayer(sha3, l)); }
  }

  // ----- The tree, split from the top

  function Pow2(k: nat): (p: nat)
    ensures p >= 1
  {
    if k == 0 then 1 else 2 * Pow2(k - 1)
  }

  function Smaller(a: Hash, b: Hash): (h: Hash) { if FromBigEndian(b) < FromBigEndian(a) then b else a }

  function Larger(a: Hash, b: Hash): (h: Hash) { if FromBigEndian(b) < FromBigEndian(a) then a else b }

  /** The smaller number comes first. */
  lemma PairIsSorted(a: Hash, b: Hash)
    ensures Pair(a, b) == Smaller(a, b) + Larger(a, b)
  {
    LessIsNumeric(a, b);
    LessIsNumeric(b, a);
    if FromBigEndian(a) == FromBigEndian(b) { SameValueSameBytes(a, b); }
  }

  lemma {:induction false} NewLayerOfBoth(sha3: bytes -> Hash, a: seq<Hash>, b: seq<Hash>)
    requires |a| % 2 == 0
    ensures NewLayer(sha3, a + b) == NewLayer(sha3, a) + NewLayer(sha3, b)
    decreases |a|
  {
    hide Parent;
    if |a| == 0 {
      assert a + b == b;
    } else {
      NewLayerOfBoth(sha3, a[2..], b);
      assert (a + b)[2..] == a[2..] + b;
    }
  }

  lemma {:induction false} NewLayerSize(sha3: bytes -> Hash, l: seq<Hash>)
    ensures |NewLayer(sha3, l)| == (|l| + 1) / 2
  {
    if |l| > 1 { NewLayerSize(sha3, l[2..]); }
  }

  lemma {:induction false} RootOfBoth(sha3: bytes -> Hash, a: seq<Hash>, b: seq<Hash>, k: nat)
    requires |a| == Pow2(k) && 0 < |b| <= |a|
    ensures RootOfLayer(sha3, a + b) == Parent(sha3, RootOfLayer(sha3, a), RootOfLayer(sha3, b))
    decreases k
  {
    hide Parent, NewLayer;
    if k == 0 {
      assert NewLayer(sha3, a + b) == [Parent(sha3, a[0], b[0])] by { TwoLeaves(sha3, a + b); }
    } else {
      NewLayerOfBoth(sha3, a, b);
      NewLayerSize(sha3, a);
      NewLayerSize(sha3, b);
      RootOfBoth(sha3, NewLayer(sha3, a), NewLayer(sha3, b), k - 1);
      OneStaysOne(sha3, b);
    }
  }

  lemma TwoLeaves(sha3: bytes -> Hash, l: seq<Hash>)
    requires |l| == 2
    ensures NewLayer(sha3, l) == [Parent(sha3, l[0], l[1])]
  {
    hide Parent;
  }

  lemma OneStaysOne(sha3: bytes -> Hash, l: seq<Hash>)
    requires |l| > 0
    ensures RootOfLayer(sha3, NewLayer(sha3, l)) == RootOfLayer(sha3, l)
  {
    hide Parent;
  }

  lemma {:induction false} LeavesOfBoth(sha3: bytes -> Hash, a: seq<Hash>, b: seq<Hash>)
    ensures LeafLayer(sha3, a + b) == LeafLayer(sha3, a) + LeafLayer(sha3, b)
  {
    var l, r := LeafLayer(sha3, a + b), LeafLayer(sha3, a) + LeafLayer(sha3, b);
    assert |l| == |r| && forall i :: 0 <= i < |l| ==> l[i] == r[i];
  }

  /** The root without layers, as in section 2.1 of RFC 6962: a list longer than one is split after the
      largest power of two below its length, and the roots of the two parts are hashed, the smaller
      number first.  One transaction's root is the hash of its hash, and nothing has the root zero. */
  lemma RootSplits(sha3: bytes -> Hash, a: seq<Hash>, b: seq<Hash>, k: nat)
    requires |a| == Pow2(k) && 0 < |b| <= |a|
    ensures var x, y := Root(sha3, a), Root(sha3, b);
      Root(sha3, a + b) == sha3(Smaller(x, y) + Larger(x, y))
    ensures forall h :: Root(sha3, [h]) == sha3(h)
    ensures Root(sha3, []) == Zeros(32)
  {
    hide NewLayer, Pair, Smaller, Larger, LeafLayer;
    LeavesOfBoth(sha3, a, b);
    RootOfBoth(sha3, LeafLayer(sha3, a), LeafLayer(sha3, b), k);
    PairIsSorted(Root(sha3, a), Root(sha3, b));
  }

  // ----- The tree behind the layers

  datatype Tree = Leaf(h: Hash) | Node(left: Tree, right: Tree)

  function Value(sha3: bytes -> Hash, t: Tree): (h: Hash) {
    match t
    case Leaf(h) => sha3(h)
    case Node(l, r) => Parent(sha3, Value(sha3, l), Value(sha3, r))
  }

  function Preimage(sha3: bytes -> Hash, t: Tree): (p: bytes)
    ensures Value(sha3, t) == sha3(p)
    ensures |p| == if t.Leaf? then 32 else 64
  {
    match t
    case Leaf(h) => h
    case Node(l, r) => Pair(Value(sha3, l), Value(sha3, r))
  }

  function Preimages(sha3: bytes -> Hash, t: Tree): (s: set<bytes>)
    ensures Preimage(sha3, t) in s
  {
    match t
    case Leaf(h) => {h}
    case Node(l, r) => {Preimage(sha3, t)} + Preimages(sha3, l) + Preimages(sha3, r)
  }

  function LeafHashes(t: Tree): (m: multiset<Hash>) {
    match t
    case Leaf(h) => multiset{h}
    case Node(l, r) => LeafHashes(l) + LeafHashes(r)
  }

  function ForestValues(sha3: bytes -> Hash, ts: seq<Tree>): (r: seq<Hash>)
    ensures |r| == |ts|
  {
    if |ts| == 0 then [] else [Value(sha3, ts[0])] + ForestValues(sha3, ts[1..])
  }

  function ForestHashes(ts: seq<Tree>): (m: multiset<Hash>) {
    if |ts| == 0 then multiset{} else LeafHashes(ts[0]) + ForestHashes(ts[1..])
  }

  function ForestPreimages(sha3: bytes -> Hash, ts: seq<Tree>): set<bytes> {
    if |ts| == 0 then {} else Preimages(sha3, ts[0]) + ForestPreimages(sha3, ts[1..])
  }

  function PairUp(ts: seq<Tree>): (r: seq<Tree>)
    ensures |ts| <= 2 * |r| <= |ts| + 1
  {
    if |ts| <= 1 then ts else [Node(ts[0], ts[1])] + PairUp(ts[2..])
  }

  function Grow(ts: seq<Tree>): (t: Tree)
    requires |ts| > 0
    decreases |ts|
  {
    if |ts| == 1 then ts[0] else Grow(PairUp(ts))
  }

  function LeafForest(hashes: seq<Hash>): (ts: seq<Tree>)
    ensures |ts| == |hashes|
  {
    if |hashes| == 0 then [] else [Leaf(hashes[0])] + LeafForest(hashes[1..])
  }

  lemma ForestValuesRest(sha3: bytes -> Hash, ts: seq<Tree>)
    requires |ts| > 1
    ensures ForestValues(sha3, ts) == [Value(sha3, ts[0]), Value(sha3, ts[1])] + ForestValues(sha3, ts[2..])
    ensures ForestValues(sha3, ts)[2..] == ForestValues(sha3, ts[2..])
  {
    assert ts[1..][1..] == ts[2..];
  }

  lemma {:induction false} PairUpFollowsNewLayer(sha3: bytes -> Hash, ts: seq<Tree>)
    ensures ForestValues(sha3, PairUp(ts)) == NewLayer(sha3, ForestValues(sha3, ts))
  {
    if |ts| > 1 {
      PairUpFollowsNewLayer(sha3, ts[2..]);
      ForestValuesRest(sha3, ts);
      assert PairUp(ts)[1..] == PairUp(ts[2..]);
    }
  }

  lemma {:induction false} PairUpKeepsHashes(ts: seq<Tree>)
    ensures ForestHashes(PairUp(ts)) == ForestHashes(ts)
  {
    if |ts| > 1 {
      PairUpKeepsHashes(ts[2..]);
      assert ts[1..][1..] == ts[2..];
      assert PairUp(ts)[1..] == PairUp(ts[2..]);
    }
  }

  lemma {:induction false} PairUpPreimages(sha3: bytes -> Hash, ts: seq<Tree>)
    ensures ForestPreimages(sha3, PairUp(ts))
         <= ForestPreimages(sha3, ts) + PairStrings(ForestValues(sha3, ts))
  {
    if |ts| > 1 {
      PairUpPreimages(sha3, ts[2..]);
      ForestValuesRest(sha3, ts);
      assert ts[1..][1..] == ts[2..];
      assert PairUp(ts)[1..] == PairUp(ts[2..]);
    }
  }

  lemma {:induction false} GrowFollowsRoot(sha3: bytes -> Hash, ts: seq<Tree>)
    requires |ts| > 0
    ensures Value(sha3, Grow(ts)) == RootOfLayer(sha3, ForestValues(sha3, ts))
    ensures LeafHashes(Grow(ts)) == ForestHashes(ts)
    ensures Preimages(sha3, Grow(ts))
         <= ForestPreimages(sha3, ts) + LayerStrings(sha3, ForestValues(sha3, ts))
    decreases |ts|
  {
    if |ts| > 1 {
      PairUpFollowsNewLayer(sha3, ts);
      PairUpKeepsHashes(ts);
      PairUpPreimages(sha3, ts);
      GrowFollowsRoot(sha3, PairUp(ts));
    }
  }

  lemma {:induction false} LeafForestValues(sha3: bytes -> Hash, hashes: seq<Hash>)
    ensures ForestValues(sha3, LeafForest(hashes)) == LeafLayer(sha3, hashes)
  {
    if |hashes| > 0 {
      LeafForestValues(sha3, hashes[1..]);
      assert LeafForest(hashes)[1..] == LeafForest(hashes[1..]);
      var r, l := ForestValues(sha3, LeafForest(hashes)), LeafLayer(sha3, hashes);
      assert r[0] == l[0];
      assert r[1..] == LeafLayer(sha3, hashes[1..]) == l[1..];
    }
  }

  lemma {:induction false} LeafForestHashes(hashes: seq<Hash>)
    ensures ForestHashes(LeafForest(hashes)) == multiset(hashes)
  {
    if |hashes| > 0 {
      LeafForestHashes(hashes[1..]);
      assert hashes == [hashes[0]] + hashes[1..];
      assert LeafForest(hashes)[1..] == LeafForest(hashes[1..]);
    }
  }

  lemma {:induction false} LeafForestPreimages(sha3: bytes -> Hash, hashes: seq<Hash>)
    ensures ForestPreimages(sha3, LeafForest(hashes)) <= set h | h in hashes
  {
    if |hashes| > 0 {
      LeafForestPreimages(sha3, hashes[1..]);
      assert LeafForest(hashes)[1..] == LeafForest(hashes[1..]);
    }
  }

  /** The tree the constructor builds over a non-empty list. */
  lemma TreeOf(sha3: bytes -> Hash, hashes: seq<Hash>) returns (t: Tree)
    requires |hashes| > 0
    ensures Value(sha3, t) == Root(sha3, hashes)
    ensures LeafHashes(t) == multiset(hashes)
    ensures Preimages(sha3, t) <= HashedStrings(sha3, hashes)
  {
    LeafForestValues(sha3, hashes);
    LeafForestHashes(hashes);
    LeafForestPreimages(sha3, hashes);
    GrowFollowsRoot(sha3, LeafForest(hashes));
    t := Grow(LeafForest(hashes));
  }

  // ----- Root binding

  /** Trees of any two shapes with one value hold the same leaves, unless a collision occurs
      among the strings they hash.  Leaves hash 32 bytes and inner nodes 64, so a leaf can only
      be mistaken for a node through a collision. */
  lemma {:induction false} EqualValuesEqualLeaves(sha3: bytes -> Hash, t: Tree, u: Tree)
    requires Value(sha3, t) == Value(sha3, u)
    requires !Collides(sha3, Preimages(sha3, t) + Preimages(sha3, u))
    ensures LeafHashes(t) == LeafHashes(u)
    decreases t
  {
    var S := Preimages(sha3, t) + Preimages(sha3, u);
    assert Preimage(sha3, t) in S && Preimage(sha3, u) in S;
    assert Preimage(sha3, t) == Preimage(sha3, u);
    if t.Node? {
      PairDeterminesChildren(Value(sha3, t.left), Value(sha3, t.right),
                             Value(sha3, u.left), Value(sha3, u.right));
      if Value(sha3, t.left) == Value(sha3, u.left) && Value(sha3, t.right) == Value(sha3, u.right) {
        CollidesIsMonotone(sha3, Preimages(sha3, t.left) + Preimages(sha3, u.left), S);
        CollidesIsMonotone(sha3, Preimages(sha3, t.right) + Preimages(sha3, u.right), S);
        EqualValuesEqualLeaves(sha3, t.left, u.left);
        EqualValuesEqualLeaves(sha3, t.right, u.right);
      } else {
        CollidesIsMonotone(sha3, Preimages(sha3, t.left) + Preimages(sha3, u.right), S);
        CollidesIsMonotone(sha3, Preimages(sha3, t.right) + Preimages(sha3, u.left), S);
        EqualValuesEqualLeaves(sha3, t.left, u.right);
        EqualValuesEqualLeaves(sha3, t.right, u.left);
      }
    }
  }

  /** Equal roots mean equal multisets of transaction hashes, whatever the two lengths, or two of
      the strings hashed while building the two trees collide. */
  lemma RootBindsTransactions(sha3: bytes -> Hash, a: seq<Hash>, b: seq<Hash>)
    requires |a| > 0 && |b| > 0
    requires Root(sha3, a) == Root(sha3, b)
    ensures multiset(a) == multiset(b)
         || Collides(sha3, HashedStrings(sha3, a) + HashedStrings(sha3, b))
  {
    var t := TreeOf(sha3, a);
    var u := TreeOf(sha3, b);
    CollidesIsMonotone(sha3, Preimages(sha3, t) + Preimages(sha3, u),
                       HashedStrings(sha3, a) + HashedStrings(sha3, b));
    if !Collides(sha3, HashedStrings(sha3, a) + HashedStrings(sha3, b)) {
      EqualValuesEqualLeaves(sha3, t, u);
    }
  }

  /** The multiset is all a root binds: exchanging two siblings never changes it. */
  lemma {:induction false} SiblingOrderIsNotBound(sha3: bytes -> Hash, l: seq<Hash>, i: nat)
    requires 2 * i + 1 < |l|
    ensures RootOfLayer(sha3, l[2 * i := l[2 * i + 1]][2 * i + 1 := l[2 * i]]) == RootOfLayer(sha3, l)
  {
    NewLayerIgnoresSiblingOrder(sha3, l, i);
  }

  lemma {:induction false} NewLayerIgnoresSiblingOrder(sha3: bytes -> Hash, l: seq<Hash>, i: nat)
    requires 2 * i + 1 < |l|
    ensures NewLayer(sha3, l[2 * i := l[2 * i + 1]][2 * i + 1 := l[2 * i]]) == NewLayer(sha3, l)
  {
    var m := l[2 * i := l[2 * i + 1]][2 * i + 1 := l[2 * i]];
    if i == 0 {
      PairIsUnordered(l[0], l[1]);
      assert m[2..] == l[2..];
    } else {
      NewLayerIgnoresSiblingOrder(sha3, l[2..], i - 1);
      assert m[2..] == l[2..][2 * (i - 1) := l[2..][2 * (i - 1) + 1]][2 * (i - 1) + 1 := l[2..][2 * (i - 1)]];
    }
  }

  // ----- Proofs

  function Sibling(pos: nat): nat { if pos % 2 == 0 then pos + 1 else pos - 1 }

  /** The sibling hashes on the way up from `pos`; Err where the original indexes past the end of
      a layer, which happens at an unpaired node. */
  function ProofFrom(sha3: bytes -> Hash, l: seq<Hash>, pos: nat): (r: Result<seq<Hash>>)
    decreases |l|
  {
    if |l| == 1 then Ok([])
    else if Sibling(pos) >= |l| then Err
    else
      var rest :- ProofFrom(sha3, NewLayer(sha3, l), Sibling(pos) / 2);
      Ok([l[Sibling(pos)]] + rest)
  }

  function Prepend<T>(head: seq<T>, tail: Result<seq<T>>): (r: Result<seq<T>>) {
    match tail
    case Ok(t) => Ok(head + t)
    case Err => Err
  }

  lemma AppendOne<T>(head: seq<T>, x: T, tail: seq<T>)
    ensures head + ([x] + tail) == (head + [x]) + tail
  {
  }

  lemma PrependNothing<T>(tail: Result<seq<T>>)
    ensures Prepend([], tail) == tail
  {
    if tail.Ok? { assert [] + tail.value == tail.value; }
  }

  lemma PrependTwice<T>(head: seq<T>, x: T, tail: Result<seq<T>>)
    ensures Prepend(head, Prepend([x], tail)) == Prepend(head + [x], tail)
  {
    if tail.Ok? { assert head + ([x] + tail.value) == head + [x] + tail.value; }
  }

  function FoldProof(sha3: bytes -> Hash, proof: seq<Hash>, h: Hash): (r: Hash) {
    if |proof| == 0 then h else FoldProof(sha3, proof[1..], Parent(sha3, h, proof[0]))
  }

  /** No node on the path from `pos` to the root of an `n`-leaf tree is unpaired. */
  predicate PathIsPaired(pos: nat, n: nat)
    decreases n
  {
    n == 1 || (Sibling(pos) < n && PathIsPaired(pos / 2, (n + 1) / 2))
  }

  lemma ParentIsSymmetric(sha3: bytes -> Hash, a: Hash, b: Hash)
    ensures Parent(sha3, a, b) == Parent(sha3, b, a)
  {
    PairIsUnordered(a, b);
  }

  lemma {:induction false} NewLayerAt(sha3: bytes -> Hash, l: seq<Hash>, k: nat)
    requires 2 * k + 1 < |l|
    ensures NewLayer(sha3, l)[k] == Parent(sha3, l[2 * k], l[2 * k + 1])
  {
    hide Parent;
    if k > 0 {
      NewLayerAt(sha3, l[2..], k - 1);
      assert l[2..][2 * (k - 1)] == l[2 * k] && l[2..][2 * (k - 1) + 1] == l[2 * k + 1];
      assert NewLayer(sha3, l)[k] == NewLayer(sha3, l[2..])[k - 1];
    }
  }

  /** A proof exists exactly when the path meets no unpaired node. */
  lemma {:induction false} ProofExistsIffPaired(sha3: bytes -> Hash, l: seq<Hash>, pos: nat)
    requires pos < |l|
    ensures ProofFrom(sha3, l, pos).Ok? <==> PathIsPaired(pos, |l|)
    decreases |l|
  {
    if |l| > 1 && Sibling(pos) < |l| {
      assert Sibling(pos) / 2 == pos / 2;
      ProofExistsIffPaired(sha3, NewLayer(sha3, l), pos / 2);
    }
  }

  lemma ProofStep(sha3: bytes -> Hash, l: seq<Hash>, pos: nat)
    requires pos < |l| && |l| > 1
    requires ProofFrom(sha3, l, pos).Ok?
    ensures Sibling(pos) < |l|
    ensures ProofFrom(sha3, NewLayer(sha3, l), pos / 2).Ok?
    ensures ProofFrom(sha3, l, pos).value
         == [l[Sibling(pos)]] + ProofFrom(sha3, NewLayer(sha3, l), pos / 2).value
  {
    assert Sibling(pos) / 2 == pos / 2;
  }

  lemma FoldStep(sha3: bytes -> Hash, first: Hash, rest: seq<Hash>, h: Hash)
    ensures FoldProof(sha3, [first] + rest, h) == FoldProof(sha3, rest, Parent(sha3, h, first))
  {
    assert ([first] + rest)[1..] == rest;
  }

  lemma ParentByParity(sha3: bytes -> Hash, l: seq<Hash>, pos: nat, k: nat)
    requires pos == 2 * k || pos == 2 * k + 1
    requires 2 * k + 1 < |l|
    ensures Parent(sha3, l[2 * k], l[2 * k + 1]) == Parent(sha3, l[pos], l[Sibling(pos)])
  {
    if pos == 2 * k + 1 { ParentIsSymmetric(sha3, l[2 * k], l[2 * k + 1]); }
  }

  /** Such a proof verifies against the root. */
  lemma {:induction false} ProofIsComplete(sha3: bytes -> Hash, l: seq<Hash>, pos: nat)
    requires pos < |l|
    requires ProofFrom(sha3, l, pos).Ok?
    ensures FoldProof(sha3, ProofFrom(sha3, l, pos).value, l[pos]) == RootOfLayer(sha3, l)
    decreases |l|
  {
    if |l| > 1 {
      ProofStep(sha3, l, pos);
      var up := NewLayer(sha3, l);
      var rest := ProofFrom(sha3, up, pos / 2).value;
      FoldStep(sha3, l[Sibling(pos)], rest, l[pos]);
      NewLayerAt(sha3, l, pos / 2);
      ParentByParity(sha3, l, pos, pos / 2);
      ProofIsComplete(sha3, up, pos / 2);
    }
  }

  lemma {:induction false} PowerOfTwoTreesArePaired(k: nat, pos: nat)
    requires pos < Pow2(k)
    ensures PathIsPaired(pos, Pow2(k))
  {
    if k > 0 { PowerOfTwoTreesArePaired(k - 1, pos / 2); }
  }

  /** Three leaves: the last one is unpaired, so `getProof(2)` reads past its layer. */
  lemma UnpairedLeafHasNoProof(sha3: bytes -> Hash, a: Hash, b: Hash, c: Hash)
    ensures ProofFrom(sha3, [a, b, c], 2).Err?
  {
    assert Sibling(2) == 3;
  }

  /** Every string `verify` hashes. */
  function VerifyStrings(sha3: bytes -> Hash, proof: seq<Hash>, h: Hash): set<bytes> {
    if |proof| == 0 then {} else
      {Pair(h, proof[0])} + VerifyStrings(sha3, proof[1..], Parent(sha3, h, proof[0]))
  }

  lemma {:induction false} FoldLast(sha3: bytes -> Hash, proof: seq<Hash>, h: Hash)
    requires |proof| > 0
    ensures var n := |proof| - 1;
            var below := FoldProof(sha3, proof[..n], h);
            && FoldProof(sha3, proof, h) == sha3(Pair(below, proof[n]))
            && Pair(below, proof[n]) in VerifyStrings(sha3, proof, h)
            && VerifyStrings(sha3, proof[..n], h) <= VerifyStrings(sha3, proof, h)
  {
    var n := |proof| - 1;
    if n > 0 {
      FoldLast(sha3, proof[1..], Parent(sha3, h, proof[0]));
      assert proof[1..][..n - 1] == proof[..n][1..];
    }
  }

  lemma {:induction false} ProofIsSoundForTree(sha3: bytes -> Hash, t: Tree, x: Hash, proof: seq<Hash>, S: set<bytes>)
    requires FoldProof(sha3, proof, sha3(x)) == Value(sha3, t)
    requires Preimages(sha3, t) <= S && VerifyStrings(sha3, proof, sha3(x)) <= S && x in S
    requires !Collides(sha3, S)
    ensures x in LeafHashes(t)
    decreases t
  {
    assert Preimage(sha3, t) in S;
    if |proof| == 0 {
      assert Preimage(sha3, t) == x;
    } else {
      var n := |proof| - 1;
      FoldLast(sha3, proof, sha3(x));
      var below := FoldProof(sha3, proof[..n], sha3(x));
      assert Preimage(sha3, t) == Pair(below, proof[n]);
      PairDeterminesChildren(below, proof[n], Value(sha3, t.left), Value(sha3, t.right));
      if below == Value(sha3, t.left) {
        ProofIsSoundForTree(sha3, t.left, x, proof[..n], S);
      } else {
        ProofIsSoundForTree(sha3, t.right, x, proof[..n], S);
      }
    }
  }

  /** `verify` accepting any proof, of any length, for the hash of 32 bytes `x` against the root of
      a list means that `x` is in the list, or two of the strings hashed on either side collide. */
  lemma ProofIsSound(sha3: bytes -> Hash, hashes: seq<Hash>, x: Hash, proof: seq<Hash>)
    requires |hashes| > 0
    requires FoldProof(sha3, proof, sha3(x)) == Root(sha3, hashes)
    ensures x in hashes
         || Collides(sha3, HashedStrings(sha3, hashes) + VerifyStrings(sha3, proof, sha3(x)) + {x})
  {
    var S := HashedStrings(sha3, hashes) + VerifyStrings(sha3, proof, sha3(x)) + {x};
    var t := TreeOf(sha3, hashes);
    if !Collides(sha3, S) {
      ProofIsSoundForTree(sha3, t, x, proof, S);
      assert x in multiset(hashes);
    }
  }

  // ----- The class

  class Merkle {
    var tree: seq<seq<Hash>>

    /** Both constructors: mount the leaves, then add layers up to the root. */
    constructor (c: Crypto, hashes: seq<Hash>)
      ensures tree == Layers(c.sha3, LeafLayer(c.sha3, hashes))
    {
      var leaves := MountLeaves(c, hashes);
      var layers := StackLayers(c, leaves);
      tree := layers;
    }

    static method MountLeaves(c: Crypto, hashes: seq<Hash>) returns (tmp: seq<Hash>)
      ensures tmp == LeafLayer(c.sha3, hashes)
    {
      tmp := [];
      for i := 0 to |hashes|
        invariant tmp == LeafLayer(c.sha3, hashes[..i])
      {
        assert hashes[..i + 1][..i] == hashes[..i];
        tmp := tmp + [c.sha3(hashes[i])];
      }
      assert hashes[..|hashes|] == hashes;
    }

    static method StackLayers(c: Crypto, leaves: seq<Hash>) returns (t: seq<seq<Hash>>)
      ensures t == Layers(c.sha3, leaves)
    {
      var top := leaves;
      var below: seq<seq<Hash>> := [];
      while |top| > 1
        invariant below + Layers(c.sha3, top) == Layers(c.sha3, leaves)
        decreases |top|
      {
        var next := LayerAbove(c, top);
        AppendOne(below, top, Layers(c.sha3, next));
        below, top := below + [top], next;
      }
      t := below + [top];
    }

    static method LayerAbove(c: Crypto, layer: seq<Hash>) returns (ret: seq<Hash>)
      ensures ret == NewLayer(c.sha3, layer)
    {
      hide Less, Min, Max;
      ret := [];
      var i := 0;
      while i < |layer|
        invariant 0 <= i <= |layer| + 1 && i % 2 == 0
        invariant i <= |layer| ==> ret + NewLayer(c.sha3, layer[i..]) == NewLayer(c.sha3, layer)
        invariant i > |layer| ==> ret == NewLayer(c.sha3, layer)
      {
        if i + 1 < |layer| {
          assert layer[i..][2..] == layer[i + 2..];
          ret := ret + [c.sha3(Min(layer[i], layer[i + 1]) + Max(layer[i], layer[i + 1]))];
        } else {
          assert layer[i..] == [layer[i]];
          ret := ret + [layer[i]];
        }
        i := i + 2;
      }
    }

    method GetRoot(c: Crypto, ghost leaves: seq<Hash>) returns (h: Hash)
      requires tree == Layers(c.sha3, leaves)
      ensures h == RootOfLayer(c.sha3, leaves)
    {
      if |leaves| > 0 { LastLayerIsRoot(c.sha3, leaves); }
      if |tree[|tree| - 1]| == 0 { return Zeros(32); }
      return tree[|tree| - 1][0];
    }

    method GetProof(c: Crypto, leaves: seq<Hash>, leafIndex: nat) returns (r: Result<seq<Hash>>)
      requires tree == Layers(c.sha3, leaves)
      ensures r == if |leaves| > 0 && leafIndex >= |leaves| then Ok([]) else ProofFrom(c.sha3, leaves, leafIndex)
    {
      // size() - 1 wraps around on an empty tree, so only a non-empty one takes this exit
      if |tree[0]| > 0 && leafIndex > |tree[0]| - 1 { return Ok([]); }
      var ret: seq<Hash> := [];
      var pos: nat := leafIndex;
      ghost var rest := tree;
      PrependNothing(ProofFrom(c.sha3, leaves, leafIndex));
      for i := 0 to |tree|
        invariant rest == tree[i..]
        invariant i < |tree| ==> rest == Layers(c.sha3, tree[i])
        invariant i < |tree| ==> ProofFrom(c.sha3, leaves, leafIndex) == Prepend(ret, ProofFrom(c.sha3, tree[i], pos))
        invariant i == |tree| ==> |leaves| == 0
      {
        var layer := tree[i];
        if |layer| == 1 {
          assert ret + [] == ret;
          return Ok(ret);
        }
        pos := if pos % 2 == 0 then pos + 1 else pos - 1;
        if pos >= |layer| { return Err; }
        PrependTwice(ret, layer[pos], ProofFrom(c.sha3, NewLayer(c.sha3, layer), pos / 2));
        ret := ret + [layer[pos]];
        pos := pos / 2;
        assert rest[1..] == Layers(c.sha3, NewLayer(c.sha3, layer));
        assert tree[i + 1..] == rest[1..];
        rest := rest[1..];
      }
      return Err;
    }

    static method Verify(c: Crypto, proof: seq<Hash>, leaf: Hash, root: Hash) returns (ok: bool)
      ensures ok <==> FoldProof(c.sha3, proof, leaf) == root
    {
      var computed := leaf;
      for i := 0 to |proof|
        invariant FoldProof(c.sha3, proof[i..], computed) == FoldProof(c.sha3, proof, leaf)
      {
        assert proof[i..][1..] == proof[i + 1..];
        computed := c.sha3(Min(computed, proof[i]) + Max(computed, proof[i]));
      }
      ok := computed == root;
    }
  }
}
