/** The transactional map variable of contracts: a base map, pending changes and erased keys, with
    commit and revert (src/contract/variables/safeunorderedmap.h, src/contract/variables/safebase.h). */
module Overlay {

  datatype Option<T> = None | Some(value: T)

  /** The fields of a SafeUnorderedMap; the two optional parts are absent until `check()`. */
  datatype Overlay<K, V> = Overlay(
    map_: map<K, V>,
    mapPtr: Option<map<K, V>>,
    erasedKeys: Option<set<K>>,
    registered: bool)
  {
    function Pending(): (m: map<K, V>) { if mapPtr.Some? then mapPtr.value else map[] }

    function Erased(): (S: set<K>) { if erasedKeys.Some? then erasedKeys.value else {} }

    /** What a reader sees: pending changes over the base without the erased keys. */
    function Visible(): (m: map<K, V>) { (map_ - Erased()) + Pending() }

    /** What a commit would make of the base: the erasures come last. */
    function Committed(): (m: map<K, V>) { (map_ + Pending()) - Erased() }
  }

  // ----- Operations

  datatype Op<K, V> =
    | Index(k: K)                  // m[k], read or bound to a reference
    | Assign(k: K, v: V)           // m[k] = v
    | At(k: K)                     // m.at(k)
    | AssignAt(k: K, v: V)         // m.at(k) = v
    | ConstAt(k: K)
    | Find(k: K)
    | ConstFind(k: K)
    | Count(k: K)
    | Contains(k: K)
    | InsertOrAssign(k: K, v: V)
    | Erase(k: K)
    | Commit
    | Revert

  datatype Reply<V> = Done | Value(v: V) | Flag(b: bool) | Throw

  /** Both optional parts made. */
  function Check<K, V>(o: Overlay<K, V>): (r: Overlay<K, V>) {
    o.(mapPtr := Some(o.Pending()), erasedKeys := Some(o.Erased()))
  }

  function Mark<K, V>(o: Overlay<K, V>): (r: Overlay<K, V>) { o.(registered := true) }

  function Put<K, V>(o: Overlay<K, V>, k: K, v: V): (r: Overlay<K, V>) {
    Check(o).(mapPtr := Some(o.Pending()[k := v]))
  }

  /** Reads copy the entry into the pending map; that happens under `const` too. */
  function Copy<K, V>(o: Overlay<K, V>, k: K): (r: Overlay<K, V>) {
    if k !in o.Pending() && k in o.map_ && k !in o.Erased() then Put(o, k, o.map_[k]) else Check(o)
  }

  function Create<K, V>(o: Overlay<K, V>, k: K, zero: V): (r: Overlay<K, V>) {
    if k in o.Pending() then Check(o)
    else if k in o.map_ && k !in o.Erased() then Put(o, k, o.map_[k])
    else Put(o, k, zero)
  }

  function Drop<K, V>(o: Overlay<K, V>, k: K): (r: Overlay<K, V>) {
    Check(o).(mapPtr := Some(o.Pending() - {k}), erasedKeys := Some(o.Erased() + {k}))
  }

  /** `commit()` drops the pending map but keeps the erased keys. */
  function CommitOf<K, V>(o: Overlay<K, V>): (r: Overlay<K, V>) {
    Overlay(o.Committed(), None, Some(o.Erased()), false)
  }

  function RevertOf<K, V>(o: Overlay<K, V>): (r: Overlay<K, V>) {
    Overlay(o.map_, None, None, false)
  }

  function Answer<K, V>(o: Overlay<K, V>, k: K): (r: Reply<V>) {
    if k in o.Pending() then Value(o.Pending()[k]) else Throw
  }

  /** The overlay after an operation and what the caller gets.  `erase` reports whether the key was
      pending, not whether it was visible. */
  function Step<K, V>(o: Overlay<K, V>, op: Op<K, V>, zero: V): (r: (Overlay<K, V>, Reply<V>)) {
    match op
    case Index(k) => var n := Mark(Create(o, k, zero)); (n, Answer(n, k))
    case Assign(k, v) => (Mark(Put(Create(o, k, zero), k, v)), Done)
    case At(k) => var n := Copy(o, k); if k in n.Pending() then (Mark(n), Answer(n, k)) else (n, Throw)
    case AssignAt(k, v) => var n := Copy(o, k); if k in n.Pending() then (Mark(Put(n, k, v)), Done) else (n, Throw)
    case ConstAt(k) => var n := Copy(o, k); (n, Answer(n, k))
    case Find(k) => var n := Mark(Copy(o, k)); (n, if k in n.Pending() then Value(n.Pending()[k]) else Done)
    case ConstFind(k) => var n := Copy(o, k); (n, if k in n.Pending() then Value(n.Pending()[k]) else Done)
    case Count(k) => var n := Copy(o, k); (n, Flag(k in n.Pending()))
    case Contains(k) => var n := Copy(o, k); (n, Flag(k in n.Pending()))
    case InsertOrAssign(k, v) => (Mark(Put(o, k, v)), Done)
    case Erase(k) => (Mark(Drop(o, k)), Flag(k in o.Pending()))
    case Commit => (CommitOf(o), Done)
    case Revert => (RevertOf(o), Done)
  }

  // ----- The plain map with a snapshot

  datatype Plain<K, V> = Plain(saved: map<K, V>, current: map<K, V>)

  function PlainGet<K, V>(m: map<K, V>, k: K): (r: Reply<V>) { if k in m then Value(m[k]) else Throw }

  function PlainStep<K, V>(s: Plain<K, V>, op: Op<K, V>, zero: V): (r: (Plain<K, V>, Reply<V>)) {
    var m := s.current;
    match op
    case Index(k) => if k in m then (s, Value(m[k])) else (s.(current := m[k := zero]), Value(zero))
    case Assign(k, v) => (s.(current := m[k := v]), Done)
    case At(k) => (s, PlainGet(m, k))
    case AssignAt(k, v) => if k in m then (s.(current := m[k := v]), Done) else (s, Throw)
    case ConstAt(k) => (s, PlainGet(m, k))
    case Find(k) => (s, if k in m then Value(m[k]) else Done)
    case ConstFind(k) => (s, if k in m then Value(m[k]) else Done)
    case Count(k) => (s, Flag(k in m))
    case Contains(k) => (s, Flag(k in m))
    case InsertOrAssign(k, v) => (s.(current := m[k := v]), Done)
    case Erase(k) => (s.(current := m - {k}), Flag(k in m))
    case Commit => (Plain(m, m), Done)
    case Revert => (Plain(s.saved, s.saved), Done)
  }

  // ----- One operation

  /** No pending key is marked erased. */
  predicate Clean<K, V>(o: Overlay<K, V>) { o.Pending().Keys !! o.Erased() }

  predicate Refines<K, V(==)>(o: Overlay<K, V>, s: Plain<K, V>) {
    o.map_ == s.saved && o.Visible() == s.current && Clean(o)
  }

  /** Keys that would be written. */
  function Written<K, V>(op: Op<K, V>): (S: set<K>) {
    match op
    case Index(k) => {k}
    case Assign(k, _) => {k}
    case InsertOrAssign(k, _) => {k}
    case _ => {}
  }

  /** The erased keys an operation leaves: a commit keeps them. */
  function ErasedAfter<K, V>(E: set<K>, op: Op<K, V>): (r: set<K>) {
    match op
    case Erase(k) => E + {k}
    case Revert => {}
    case _ => E
  }

  lemma ErasedKeysAfter<K, V>(o: Overlay<K, V>, op: Op<K, V>, zero: V)
    ensures Step(o, op, zero).0.Erased() == ErasedAfter(o.Erased(), op)
  {
  }

  lemma VisibleEntry<K, V>(o: Overlay<K, V>, k: K)
    ensures k in o.Visible() <==> k in o.Pending() || (k in o.map_ && k !in o.Erased())
    ensures k in o.Pending() ==> o.Visible()[k] == o.Pending()[k]
    ensures k !in o.Pending() && k in o.Visible() ==> o.Visible()[k] == o.map_[k]
  {
  }

  /** Reading changes neither what is seen nor what a commit would install. */
  lemma CopyIsInvisible<K, V>(o: Overlay<K, V>, k: K)
    ensures Copy(o, k).Visible() == o.Visible() && Copy(o, k).Committed() == o.Committed()
    ensures Copy(o, k).map_ == o.map_ && (Clean(o) ==> Clean(Copy(o, k)))
    ensures k in Copy(o, k).Pending() <==> k in o.Visible()
    ensures k in o.Visible() ==> Copy(o, k).Pending()[k] == o.Visible()[k]
  {
    var n := Copy(o, k);
    assert n.Visible() == o.Visible();
    assert n.Committed() == o.Committed();
  }

  lemma PutIsVisible<K, V>(o: Overlay<K, V>, k: K, v: V)
    ensures Put(o, k, v).Visible() == o.Visible()[k := v]
    ensures Put(o, k, v).map_ == o.map_ && (Clean(o) && k !in o.Erased() ==> Clean(Put(o, k, v)))
  {
    assert Put(o, k, v).Visible() == o.Visible()[k := v];
  }

  lemma CreateIsVisible<K, V>(o: Overlay<K, V>, k: K, zero: V)
    ensures Create(o, k, zero).Visible() == if k in o.Visible() then o.Visible() else o.Visible()[k := zero]
    ensures k in Create(o, k, zero).Pending() && Create(o, k, zero).Pending()[k] == Create(o, k, zero).Visible()[k]
    ensures Create(o, k, zero).map_ == o.map_ && (Clean(o) && k !in o.Erased() ==> Clean(Create(o, k, zero)))
  {
    VisibleEntry(o, k);
    if k in o.Pending() {
      assert Check(o).Visible() == o.Visible();
    } else if k in o.Visible() {
      PutIsVisible(o, k, o.map_[k]);
      assert o.Visible()[k := o.map_[k]] == o.Visible();
    } else {
      PutIsVisible(o, k, zero);
    }
  }

  lemma DropIsVisible<K, V>(o: Overlay<K, V>, k: K)
    ensures Drop(o, k).Visible() == o.Visible() - {k}
    ensures Drop(o, k).map_ == o.map_ && (Clean(o) ==> Clean(Drop(o, k)))
  {
    assert Drop(o, k).Visible() == o.Visible() - {k};
  }

  /** A commit installs exactly what was visible if and only if no pending key was erased. */
  lemma CommitInstallsVisible<K, V>(o: Overlay<K, V>)
    ensures CommitOf(o).map_ == o.Visible() <==> Clean(o)
    ensures CommitOf(o).Visible() == CommitOf(o).map_ && Clean(CommitOf(o))
  {
    if Clean(o) {
      assert o.Committed() == o.Visible();
    } else {
      var k :| k in o.Pending().Keys && k in o.Erased();
      assert k in o.Visible() && k !in o.Committed();
    }
    assert CommitOf(o).Visible() == CommitOf(o).map_;
  }

  lemma RevertRestoresBase<K, V>(o: Overlay<K, V>)
    ensures RevertOf(o).map_ == o.map_ && RevertOf(o).Visible() == o.map_ && Clean(RevertOf(o))
  {
    assert RevertOf(o).Visible() == o.map_;
  }

  /** One operation on the overlay is that operation on the plain map. */
  lemma StepRefines<K, V>(o: Overlay<K, V>, s: Plain<K, V>, op: Op<K, V>, zero: V)
    requires Refines(o, s) && Written(op) !! o.Erased()
    ensures Refines(Step(o, op, zero).0, PlainStep(s, op, zero).0)
    ensures !op.Erase? ==> Step(o, op, zero).1 == PlainStep(s, op, zero).1
  {
    hide Copy, Create, Put, Drop, CommitOf, RevertOf;
    match op
    case Index(k) => MarkIsInvisible(Create(o, k, zero)); CreateIsVisible(o, k, zero);
    case Assign(k, v) => AssignIsVisible(o, k, v, zero);
    case At(k) => CopyIsInvisible(o, k); MarkIsInvisible(Copy(o, k));
    case AssignAt(k, v) => AssignAtIsVisible(o, k, v);
    case ConstAt(k) => CopyIsInvisible(o, k);
    case Find(k) => CopyIsInvisible(o, k); MarkIsInvisible(Copy(o, k));
    case ConstFind(k) => CopyIsInvisible(o, k);
    case Count(k) => CopyIsInvisible(o, k);
    case Contains(k) => CopyIsInvisible(o, k);
    case InsertOrAssign(k, v) => PutIsVisible(o, k, v); MarkIsInvisible(Put(o, k, v));
    case Erase(k) => DropIsVisible(o, k); MarkIsInvisible(Drop(o, k));
    case Commit => CommitInstallsVisible(o);
    case Revert => RevertRestoresBase(o);
  }

  lemma MarkIsInvisible<K, V>(o: Overlay<K, V>)
    ensures Mark(o).Visible() == o.Visible() && Mark(o).map_ == o.map_ && Mark(o).Pending() == o.Pending()
    ensures Mark(o).Committed() == o.Committed() && Mark(o).Erased() == o.Erased() && (Clean(Mark(o)) <==> Clean(o))
  {
  }

  lemma AssignIsVisible<K, V>(o: Overlay<K, V>, k: K, v: V, zero: V)
    requires Clean(o) && k !in o.Erased()
    ensures var n := Mark(Put(Create(o, k, zero), k, v));
      n.Visible() == o.Visible()[k := v] && n.map_ == o.map_ && Clean(n)
  {
    hide Create, Put;
    var n := Create(o, k, zero);
    CreateIsVisible(o, k, zero);
    CreateKeepsErased(o, k, zero);
    PutIsVisible(n, k, v);
    MarkIsInvisible(Put(n, k, v));
    assert n.Visible()[k := v] == o.Visible()[k := v];
  }

  lemma CreateKeepsErased<K, V>(o: Overlay<K, V>, k: K, zero: V)
    ensures Create(o, k, zero).Erased() == o.Erased()
  {
  }

  lemma AssignAtIsVisible<K, V>(o: Overlay<K, V>, k: K, v: V)
    requires Clean(o)
    ensures var n := Copy(o, k); n.Visible() == o.Visible() && n.map_ == o.map_ && Clean(n)
    ensures k in Copy(o, k).Pending() <==> k in o.Visible()
    ensures k in o.Visible() ==>
      var n := Mark(Put(Copy(o, k), k, v)); n.Visible() == o.Visible()[k := v] && n.map_ == o.map_ && Clean(n)
  {
    hide Copy, Put;
    var n := Copy(o, k);
    CopyIsInvisible(o, k);
    PutIsVisible(n, k, v);
    MarkIsInvisible(Put(n, k, v));
  }

  /** The number `erase` returns is the plain map's exactly when the key was pending or absent. */
  lemma EraseCount<K, V>(o: Overlay<K, V>, s: Plain<K, V>, k: K, zero: V)
    requires Refines(o, s)
    ensures Step(o, Erase(k), zero).1 == PlainStep(s, Erase(k), zero).1 <==> (k in o.Pending() || k !in s.current)
  {
    VisibleEntry(o, k);
  }

  // ----- Whole runs

  function Run<K, V>(o: Overlay<K, V>, ops: seq<Op<K, V>>, zero: V): (r: Overlay<K, V>)
    decreases |ops|
  {
    if |ops| == 0 then o else Run(Step(o, ops[0], zero).0, ops[1..], zero)
  }

  function Replies<K, V>(o: Overlay<K, V>, ops: seq<Op<K, V>>, zero: V): (r: seq<Reply<V>>)
    decreases |ops|
  {
    if |ops| == 0 then [] else
      var next := Step(o, ops[0], zero);
      [if ops[0].Erase? then Done else next.1] + Replies(next.0, ops[1..], zero)
  }

  function PlainRun<K, V>(s: Plain<K, V>, ops: seq<Op<K, V>>, zero: V): (r: Plain<K, V>)
    decreases |ops|
  {
    if |ops| == 0 then s else PlainRun(PlainStep(s, ops[0], zero).0, ops[1..], zero)
  }

  function PlainReplies<K, V>(s: Plain<K, V>, ops: seq<Op<K, V>>, zero: V): (r: seq<Reply<V>>)
    decreases |ops|
  {
    if |ops| == 0 then [] else
      var next := PlainStep(s, ops[0], zero);
      [if ops[0].Erase? then Done else next.1] + PlainReplies(next.0, ops[1..], zero)
  }

  /** No key is written while it is erased; a commit does not lift that, a revert does. */
  predicate NoRewrites<K, V>(E: set<K>, ops: seq<Op<K, V>>)
    decreases |ops|
  {
    |ops| == 0 || (Written(ops[0]) !! E && NoRewrites(ErasedAfter(E, ops[0]), ops[1..]))
  }

  /** Every run without rewrites answers and ends like the plain map with snapshots. */
  lemma {:induction false} RunRefines<K, V>(o: Overlay<K, V>, s: Plain<K, V>, ops: seq<Op<K, V>>, zero: V)
    requires Refines(o, s) && NoRewrites(o.Erased(), ops)
    ensures Refines(Run(o, ops, zero), PlainRun(s, ops, zero))
    ensures Replies(o, ops, zero) == PlainReplies(s, ops, zero)
    decreases |ops|
  {
    hide Step, PlainStep, Refines, Written, ErasedAfter;
    if |ops| > 0 {
      StepRefines(o, s, ops[0], zero);
      ErasedKeysAfter(o, ops[0], zero);
      RunRefines(Step(o, ops[0], zero).0, PlainStep(s, ops[0], zero).0, ops[1..], zero);
    }
  }

  /** The condition is exact: an operation leaves the overlay in a state whose commit installs what
      is visible if and only if it writes no erased key. */
  lemma RewritesAreLost<K, V>(o: Overlay<K, V>, op: Op<K, V>, zero: V)
    requires Clean(o)
    ensures var n := Step(o, op, zero).0; CommitOf(n).map_ == n.Visible() <==> Written(op) !! o.Erased()
  {
    hide CommitOf;
    var n := Step(o, op, zero).0;
    CommitInstallsVisible(n);
    if Written(op) !! o.Erased() {
      StepRefines(o, Plain(o.map_, o.Visible()), op, zero);
    } else {
      RewrittenKeyIsPending(o, op, zero);
    }
  }

  lemma RewrittenKeyIsPending<K, V>(o: Overlay<K, V>, op: Op<K, V>, zero: V)
    requires !(Written(op) !! o.Erased())
    ensures !Clean(Step(o, op, zero).0)
  {
    var k :| k in Written(op) && k in o.Erased();
    var n := Step(o, op, zero).0;
    assert k in n.Pending().Keys && k in n.Erased();
  }

  lemma RunOfTwo<K, V>(o: Overlay<K, V>, x: Op<K, V>, y: Op<K, V>, zero: V)
    ensures Run(o, [x, y], zero) == Step(Step(o, x, zero).0, y, zero).0
  {
    hide Step;
    assert [x, y][1..] == [y] && [y][1..] == [];
    var n := Step(o, x, zero).0;
    assert Run(n, [y], zero) == Run(Step(n, y, zero).0, [], zero);
  }

  /** A key erased in one call and written in the next is lost by that next commit. */
  lemma RewriteAfterCommitIsLost<K, V>(o: Overlay<K, V>, k: K, v: V, zero: V)
    ensures var n := Step(Run(o, [Erase(k), Commit], zero), InsertOrAssign(k, v), zero).0;
      k in n.Visible() && n.Visible()[k] == v && k !in CommitOf(n).map_
  {
    RunOfTwo(o, Erase(k), Commit, zero);
  }
}
