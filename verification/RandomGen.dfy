/** The seeded shuffle behind the leader schedule (src/utils/randomgen.h). */
module RandomGen {
  import opened Bytes
  import opened MerkleTree

  // ----- Shuffling

  /** Where element i is swapped to: somewhere at or after i. */
  function Position(seed: Hash, i: nat, size: nat): (n: nat)
    requires i < size
    ensures i <= n < size
  {
    i + FromBigEndian(seed) % (size - i)
  }

  function Swap<T>(v: seq<T>, i: nat, j: nat): (r: seq<T>)
    requires i < |v| && j < |v|
    ensures |r| == |v|
  {
    v[i := v[j]][j := v[i]]
  }

  /** The rest of a shuffle that has placed the first i elements. */
  function Shuffle<T>(sha3: bytes -> Hash, seed: Hash, v: seq<T>, i: nat): (r: seq<T>)
    requires i <= |v|
    decreases |v| - i
  {
    if i == |v| then v else
      var s := sha3(seed);
      Shuffle(sha3, s, Swap(v, Position(s, i, |v|), i), i + 1)
  }

  /** The seed is hashed once for every element. */
  function Reseed(sha3: bytes -> Hash, seed: Hash, n: nat): (s: Hash)
    decreases n
  {
    if n == 0 then seed else Reseed(sha3, sha3(seed), n - 1)
  }

  predicate Distinct<T(==)>(v: seq<T>) {
    forall i, j :: 0 <= i < j < |v| ==> v[i] != v[j]
  }

  lemma SwapPermutes<T>(v: seq<T>, i: nat, j: nat)
    requires i < |v| && j < |v|
    ensures multiset(Swap(v, i, j)) == multiset(v)
  {
    var w := v[i := v[j]];
    assert multiset(w) == multiset(v) - multiset{v[i]} + multiset{v[j]};
    assert multiset(w[j := v[i]]) == multiset(w) - multiset{w[j]} + multiset{v[i]};
  }

  /** For every seed the shuffle only rearranges. */
  lemma {:induction false} ShufflePermutes<T>(sha3: bytes -> Hash, seed: Hash, v: seq<T>, i: nat)
    requires i <= |v|
    ensures multiset(Shuffle(sha3, seed, v, i)) == multiset(v)
    ensures |Shuffle(sha3, seed, v, i)| == |v|
    decreases |v| - i
  {
    hide Swap, Position;
    if i < |v| {
      var s := sha3(seed);
      var n := Position(s, i, |v|);
      SwapPermutes(v, n, i);
      ShufflePermutes(sha3, s, Swap(v, n, i), i + 1);
    }
  }

  lemma SwapKeepsDistinct<T>(v: seq<T>, i: nat, j: nat)
    requires i < |v| && j < |v| && Distinct(v)
    ensures Distinct(Swap(v, i, j))
  {
  }

  lemma {:induction false} ShuffleKeepsDistinct<T>(sha3: bytes -> Hash, seed: Hash, v: seq<T>, i: nat)
    requires i <= |v| && Distinct(v)
    ensures Distinct(Shuffle(sha3, seed, v, i))
    decreases |v| - i
  {
    hide Swap, Position, Distinct;
    if i < |v| {
      var s := sha3(seed);
      SwapKeepsDistinct(v, Position(s, i, |v|), i);
      ShuffleKeepsDistinct(sha3, s, Swap(v, Position(s, i, |v|), i), i + 1);
    }
  }

  // ----- What the seed decides

  /** Taking out element k: the first element moves into its place. */
  function Without<T>(v: seq<T>, k: nat): (r: seq<T>)
    requires k < |v|
    ensures |r| == |v| - 1
  {
    v[k := v[0]][1..]
  }

  /** Drawing one element after the other, the place of each being the next digest modulo the number of
      elements that are left. */
  function Draw<T>(sha3: bytes -> Hash, seed: Hash, v: seq<T>): (r: seq<T>)
    decreases |v|
  {
    if |v| == 0 then [] else
      var k := FromBigEndian(sha3(seed)) % |v|;
      [v[k]] + Draw(sha3, sha3(seed), Without(v, k))
  }

  /** What is left after n draws. */
  function Left<T>(sha3: bytes -> Hash, seed: Hash, v: seq<T>, n: nat): (r: seq<T>)
    requires n <= |v|
    ensures |r| == |v| - n
    decreases n
  {
    if n == 0 then v else Left(sha3, sha3(seed), Without(v, FromBigEndian(sha3(seed)) % |v|), n - 1)
  }

  lemma SwapTakesOut<T>(v: seq<T>, i: nat, k: nat)
    requires i + k < |v|
    ensures Swap(v, i + k, i)[..i + 1] == v[..i] + [v[i + k]]
    ensures Swap(v, i + k, i)[i + 1..] == Without(v[i..], k)
  {
    var r := Swap(v, i + k, i);
    assert r[i + 1..] == Without(v[i..], k) by {
      forall j | 0 <= j < |v| - i - 1 ensures r[i + 1..][j] == Without(v[i..], k)[j] {
        assert v[i..][0] == v[i];
      }
    }
  }

  /** The shuffle in place is drawing without replacement. */
  lemma {:induction false} ShuffleDraws<T>(sha3: bytes -> Hash, seed: Hash, v: seq<T>, i: nat)
    requires i <= |v|
    ensures Shuffle(sha3, seed, v, i) == v[..i] + Draw(sha3, seed, v[i..])
    decreases |v| - i
  {
    hide Swap, Without;
    if i == |v| {
      assert v[..i] == v && v[i..] == [];
    } else {
      var s := sha3(seed);
      var k := FromBigEndian(s) % (|v| - i);
      var w := Swap(v, i + k, i);
      SwapTakesOut(v, i, k);
      ShuffleDraws(sha3, s, w, i + 1);
      assert v[i..][k] == v[i + k];
      assert (v[..i] + [v[i + k]]) + Draw(sha3, s, w[i + 1..]) == v[..i] + ([v[i + k]] + Draw(sha3, s, w[i + 1..]));
    }
  }

  lemma {:induction false} DrawnAt<T>(sha3: bytes -> Hash, seed: Hash, v: seq<T>, i: nat)
    requires i < |v|
    ensures |Draw(sha3, seed, v)| == |v|
    ensures Draw(sha3, seed, v)[i]
      == Left(sha3, seed, v, i)[FromBigEndian(Reseed(sha3, seed, i + 1)) % (|v| - i)]
    decreases |v|
  {
    hide Without;
    var k := FromBigEndian(sha3(seed)) % |v|;
    if |v| > 1 { DrawnAt(sha3, sha3(seed), Without(v, k), if i > 0 then i - 1 else 0); }
    if i == 0 {
      assert Reseed(sha3, seed, 1) == Reseed(sha3, sha3(seed), 0) == sha3(seed);
    }
  }

  /** Place i of a shuffled list holds what stands digest-modulo places into what is left for it; the
      first place what stands at the first digest modulo the size. */
  lemma ShufflePlaces<T>(sha3: bytes -> Hash, seed: Hash, v: seq<T>, i: nat)
    requires i < |v|
    ensures |Shuffle(sha3, seed, v, 0)| == |v|
    ensures Shuffle(sha3, seed, v, 0)[i]
      == Left(sha3, seed, v, i)[FromBigEndian(Reseed(sha3, seed, i + 1)) % (|v| - i)]
    ensures Shuffle(sha3, seed, v, 0)[0] == v[FromBigEndian(sha3(seed)) % |v|]
  {
    hide Shuffle, Draw, Left, Reseed;
    ShuffleDraws(sha3, seed, v, 0);
    assert v[..0] == [] && v[0..] == v;
    DrawnAt(sha3, seed, v, i);
    FirstDrawn(sha3, seed, v);
  }

  lemma FirstDrawn<T>(sha3: bytes -> Hash, seed: Hash, v: seq<T>)
    requires |v| > 0
    ensures Draw(sha3, seed, v)[0] == v[FromBigEndian(sha3(seed)) % |v|]
  {
  }

  class Generator {
    const sha3: bytes -> Hash
    var seed: Hash

    constructor (sha3: bytes -> Hash, seed: Hash)
      ensures this.sha3 == sha3 && this.seed == seed
    {
      this.sha3 := sha3;
      this.seed := seed;
    }

    method SetSeed(s: Hash)
      modifies this
      ensures seed == s
    {
      seed := s;
    }

    method ShuffleInPlace<T>(v: array<T>)
      modifies this, v
      ensures v[..] == Shuffle(sha3, old(seed), old(v[..]), 0)
      ensures seed == Reseed(sha3, old(seed), v.Length)
    {
      hide Position;
      for i := 0 to v.Length
        invariant Shuffle(sha3, seed, v[..], i) == Shuffle(sha3, old(seed), old(v[..]), 0)
        invariant Reseed(sha3, seed, v.Length - i) == Reseed(sha3, old(seed), v.Length)
      {
        seed := sha3(seed);
        var n := Position(seed, i, v.Length);
        ghost var before := v[..];
        v[n], v[i] := v[i], v[n];
        assert v[..] == Swap(before, n, i);
      }
    }
  }

  // ----- Ordered sets of addresses

  /** Strictly ascending, as std::set iterates. */
  predicate Ascending(v: seq<Address>) {
    forall i, j :: 0 <= i < j < |v| ==> Less(v[i], v[j])
  }

  lemma {:induction false} LessIsTransitive(a: bytes, b: bytes, d: bytes)
    requires Less(a, b) && Less(b, d)
    ensures Less(a, d)
    decreases |a|
  {
    if |a| > 0 && a[0] == b[0] && b[0] == d[0] { LessIsTransitive(a[1..], b[1..], d[1..]); }
  }

  lemma AscendingIsDistinct(v: seq<Address>)
    requires Ascending(v)
    ensures Distinct(v)
  {
    forall i, j | 0 <= i < j < |v| ensures v[i] != v[j] {
      LessIsIrreflexive(v[i]);
    }
  }

  /** A set has one ascending arrangement. */
  lemma {:induction false} AscendingIsCanonical(a: seq<Address>, b: seq<Address>)
    requires Ascending(a) && Ascending(b)
    requires forall x :: x in a <==> x in b
    ensures a == b
  {
    if |a| == 0 {
      HasFirst(b);
    } else if |b| == 0 {
      HasFirst(a);
    } else {
      SmallestIsFirst(a, b);
      forall x ensures x in a[1..] <==> x in b[1..] {
        RestOfAscending(a, x);
        RestOfAscending(b, x);
      }
      AscendingIsCanonical(a[1..], b[1..]);
      assert a == [a[0]] + a[1..] && b == [b[0]] + b[1..];
    }
  }

  lemma HasFirst(v: seq<Address>)
    ensures |v| > 0 ==> exists x :: x in v
  {
    if |v| > 0 { assert v[0] in v; }
  }

  lemma SmallestIsFirst(a: seq<Address>, b: seq<Address>)
    requires Ascending(a) && Ascending(b) && |a| > 0 && |b| > 0
    requires forall x :: x in a <==> x in b
    ensures a[0] == b[0]
  {
    hide Less;
    assert a[0] in b && b[0] in a;
    var i :| 0 <= i < |b| && b[i] == a[0];
    var j :| 0 <= j < |a| && a[j] == b[0];
    LessIsTotal(a[0], b[0]);
  }

  lemma RestOfAscending(v: seq<Address>, x: Address)
    requires Ascending(v) && |v| > 0
    ensures x in v[1..] <==> x in v && x != v[0]
  {
    AscendingIsDistinct(v);
  }

  /** `std::set::insert`. */
  method Insert(v: seq<Address>, x: Address) returns (r: seq<Address>)
    requires Ascending(v)
    ensures Ascending(r)
    ensures forall y :: y in r <==> y in v || y == x
  {
    hide Less;
    var i := 0;
    while i < |v| && Less(v[i], x)
      invariant i <= |v|
      invariant forall k :: 0 <= k < i ==> Less(v[k], x)
    {
      i := i + 1;
    }
    if i < |v| && v[i] == x { return v; }
    r := v[..i] + [x] + v[i..];
    InsertedIsAscending(v, x, i);
  }

  lemma InsertedIsAscending(v: seq<Address>, x: Address, i: nat)
    requires Ascending(v) && i <= |v| && (forall k :: 0 <= k < i ==> Less(v[k], x))
    requires i < |v| ==> v[i] != x && !Less(v[i], x)
    ensures Ascending(v[..i] + [x] + v[i..])
    ensures forall y :: y in v[..i] + [x] + v[i..] <==> y in v || y == x
  {
    hide Less;
    var r := v[..i] + [x] + v[i..];
    forall k | i <= k < |v| ensures Less(x, v[k]) {
      LessIsTotal(v[i], x);
      if i < k { LessIsTransitive(x, v[i], v[k]); }
    }
    assert forall k :: 0 <= k < |r| ==> r[k] == if k < i then v[k] else if k == i then x else v[k - 1];
    assert v == v[..i] + v[i..];
  }
}
