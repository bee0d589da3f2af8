/** Contract variables as objects, and the call that commits or reverts all of them
    (src/contract/variables/safeunorderedmap.h, src/contract/dynamiccontract.h). */
module DynamicContract {
  import opened Overlay

  /** `map.merge(pending)`, which takes the new keys, and a loop over the ones it left. */
  method Merge<K, V>(base: map<K, V>, pending: map<K, V>) returns (m: map<K, V>)
    ensures m == base + pending
  {
    m := base + map k | k in pending && k !in base :: pending[k];
    var left := map k | k in pending && k in base :: pending[k];
    var keys := left.Keys;
    while keys != {}
      invariant keys <= left.Keys
      invariant m.Keys == base.Keys + pending.Keys
      invariant forall k :: k in m ==> m[k] == if k in pending && k !in keys then pending[k] else base[k]
    {
      var k :| k in keys;
      m := m[k := left[k]];
      keys := keys - {k};
    }
  }

  method EraseAll<K, V>(base: map<K, V>, erasedKeys: set<K>) returns (m: map<K, V>)
    ensures m == base - erasedKeys
  {
    m := base;
    var erased := erasedKeys;
    while erased != {}
      invariant erased <= erasedKeys
      invariant m == base - (erasedKeys - erased)
    {
      var k :| k in erased;
      m := m - {k};
      erased := erased - {k};
    }
  }

  class SafeMap<K(==), V(==)> {
    var map_: map<K, V>
    var mapPtr: Option<map<K, V>>
    var erasedKeys: Option<set<K>>
    var registered: bool
    /** `T()`. */
    const zero: V

    function View(): (o: Overlay<K, V>)
      reads this
    {
      Overlay(map_, mapPtr, erasedKeys, registered)
    }

    constructor (base: map<K, V>, zero: V)
      ensures View() == Overlay(base, None, None, false) && this.zero == zero
    {
      map_ := base;
      mapPtr := None;
      erasedKeys := None;
      registered := false;
      this.zero := zero;
    }

    method CheckInitialized()
      modifies this
      ensures View() == Check(old(View()))
    {
      if mapPtr.None? { mapPtr := Some(map[]); }
      if erasedKeys.None? { erasedKeys := Some({}); }
    }

    method CheckKeyAndCopy(k: K)
      modifies this
      ensures View() == Copy(old(View()), k) && mapPtr.Some? && erasedKeys.Some?
    {
      CheckInitialized();
      if k !in mapPtr.value {
        if k in map_ {
          if k !in erasedKeys.value {
            mapPtr := Some(mapPtr.value[k := map_[k]]);
          }
        }
      }
    }

    method CheckKeyAndCreate(k: K)
      modifies this
      ensures View() == Create(old(View()), k, zero) && mapPtr.Some? && k in mapPtr.value
    {
      CheckInitialized();
      if k !in mapPtr.value {
        if k !in map_ {
          mapPtr := Some(mapPtr.value[k := zero]);
        } else if k !in erasedKeys.value {
          mapPtr := Some(mapPtr.value[k := map_[k]]);
        } else {
          mapPtr := Some(mapPtr.value[k := zero]);
        }
      }
    }

    /** False stands for the throw. */
    method CheckKeyAndThrow(k: K) returns (ok: bool)
      modifies this
      ensures View() == Copy(old(View()), k) && mapPtr.Some?
      ensures ok <==> k in mapPtr.value
    {
      CheckInitialized();
      if k !in mapPtr.value {
        if k !in map_ { return false; }
        if k in erasedKeys.value { return false; }
        mapPtr := Some(mapPtr.value[k := map_[k]]);
      }
      ok := true;
    }

    method EraseKey(k: K) returns (count: bool)
      modifies this
      ensures (View(), Flag(count)) == Step(old(View()), Erase(k), zero)
    {
      CheckInitialized();
      registered := true;
      erasedKeys := Some(erasedKeys.value + {k});
      count := k in mapPtr.value;
      mapPtr := Some(mapPtr.value - {k});
    }

    /** Merges new keys, overwrites old ones, then erases. */
    method CommitChanges()
      modifies this
      ensures View() == CommitOf(old(View()))
    {
      CheckInitialized();
      map_ := Merge(map_, mapPtr.value);
      map_ := EraseAll(map_, erasedKeys.value);
      mapPtr := None;
      registered := false;
    }

    method RevertChanges()
      modifies this
      ensures View() == RevertOf(old(View()))
    {
      mapPtr := None;
      erasedKeys := None;
      registered := false;
    }

    method CommitOrRevert(commitToState: bool)
      requires registered
      modifies this
      ensures View() == Updated(old(View()), commitToState)
    {
      if commitToState { CommitChanges(); } else { RevertChanges(); }
    }

    /** Any operation, as a contract function performs it. */
    method Perform(op: Op<K, V>) returns (r: Reply<V>)
      modifies this
      ensures (View(), r) == Step(old(View()), op, zero)
    {
      match op
      case Index(k) =>
        CheckKeyAndCreate(k);
        registered := true;
        r := Value(mapPtr.value[k]);
      case Assign(k, v) =>
        CheckKeyAndCreate(k);
        registered := true;
        mapPtr := Some(mapPtr.value[k := v]);
        r := Done;
      case At(k) =>
        var ok := CheckKeyAndThrow(k);
        if !ok { return Throw; }
        registered := true;
        r := Value(mapPtr.value[k]);
      case AssignAt(k, v) =>
        var ok := CheckKeyAndThrow(k);
        if !ok { return Throw; }
        registered := true;
        mapPtr := Some(mapPtr.value[k := v]);
        r := Done;
      case ConstAt(k) =>
        var ok := CheckKeyAndThrow(k);
        r := if ok then Value(mapPtr.value[k]) else Throw;
      case Find(k) =>
        CheckKeyAndCopy(k);
        registered := true;
        r := if k in mapPtr.value then Value(mapPtr.value[k]) else Done;
      case ConstFind(k) =>
        CheckKeyAndCopy(k);
        r := if k in mapPtr.value then Value(mapPtr.value[k]) else Done;
      case Count(k) =>
        CheckKeyAndCopy(k);
        r := Flag(k in mapPtr.value);
      case Contains(k) =>
        CheckKeyAndCopy(k);
        r := Flag(k in mapPtr.value);
      case InsertOrAssign(k, v) =>
        CheckInitialized();
        registered := true;
        mapPtr := Some(mapPtr.value[k := v]);
        r := Done;
      case Erase(k) =>
        var count := EraseKey(k);
        r := Flag(count);
      case Commit =>
        CommitChanges();
        r := Done;
      case Revert =>
        RevertChanges();
        r := Done;
    }
  }

  // ----- What a call does to plain maps

  /** A contract function is any sequence of operations on its variables. */
  type Script<K, V> = seq<(nat, Op<K, V>)>

  predicate BodyOp<K, V>(op: Op<K, V>) { !op.Commit? && !op.Revert? }

  ghost predicate ScriptOk<K, V>(script: Script<K, V>, n: nat) {
    forall j :: 0 <= j < |script| ==> script[j].0 < n && BodyOp(script[j].1)
  }

  /** The variables after the function, unless it threw. */
  function PlainCall<K, V>(ms: seq<map<K, V>>, script: Script<K, V>, zero: V): (r: Option<seq<map<K, V>>>)
    requires forall j :: 0 <= j < |script| ==> script[j].0 < |ms|
    ensures r.Some? ==> |r.value| == |ms|
    decreases |script|
  {
    if |script| == 0 then Some(ms) else
      var (i, op) := script[0];
      var next := PlainStep(Plain(ms[i], ms[i]), op, zero);
      if next.1.Throw? then None else PlainCall(ms[i := next.0.current], script[1..], zero)
  }

  /** No variable's erased key is written again. */
  predicate NoScriptRewrites<K, V>(E: seq<set<K>>, script: Script<K, V>)
    requires forall j :: 0 <= j < |script| ==> script[j].0 < |E|
    decreases |script|
  {
    |script| == 0 ||
      var (i, op) := script[0];
      Written(op) !! E[i] && NoScriptRewrites(E[i := ErasedAfter(E[i], op)], script[1..])
  }

  /** An untouched variable: nothing pending that differs from the base. */
  predicate Settled<K, V(==)>(o: Overlay<K, V>) { !o.registered && o.Visible() == o.map_ && Clean(o) }

  lemma BodyKeepsBase<K, V>(o: Overlay<K, V>, op: Op<K, V>, zero: V)
    requires BodyOp(op)
    ensures Step(o, op, zero).0.map_ == o.map_
    ensures o.registered ==> Step(o, op, zero).0.registered
  {
  }

  /** Only reads leave a variable unregistered, and they leave it settled. */
  lemma ReadsKeepSettled<K, V>(o: Overlay<K, V>, op: Op<K, V>, zero: V)
    requires Settled(o) && BodyOp(op) && !Step(o, op, zero).0.registered
    ensures Settled(Step(o, op, zero).0)
  {
    hide Clean, Copy;
    CopyIsInvisible(o, op.k);
    CopyKeepsRegistered(o, op.k);
  }

  lemma CopyKeepsRegistered<K, V>(o: Overlay<K, V>, k: K)
    ensures Copy(o, k).registered == o.registered
  {
  }

  lemma UpdatedIsSettled<K, V>(o: Overlay<K, V>, commit: bool)
    requires !o.registered ==> Settled(o)
    ensures Settled(Updated(o, commit)) && !Updated(o, commit).registered
    ensures !o.registered ==> Updated(o, commit) == o
  {
    hide Clean;
    CommitInstallsVisible(o);
    RevertRestoresBase(o);
  }

  lemma StepTracksPlain<K, V>(o: Overlay<K, V>, saved: map<K, V>, m: map<K, V>, op: Op<K, V>, zero: V)
    requires Refines(o, Plain(saved, m)) && BodyOp(op) && Written(op) !! o.Erased()
    ensures var next := PlainStep(Plain(m, m), op, zero);
      Refines(Step(o, op, zero).0, Plain(saved, next.0.current)) && (Step(o, op, zero).1.Throw? <==> next.1.Throw?)
  {
    hide Step, Refines;
    StepRefines(o, Plain(saved, m), op, zero);
    PlainBody(saved, m, op, zero);
    EraseDoesNotThrow(o, op, zero);
  }

  lemma PlainBody<K, V>(saved: map<K, V>, m: map<K, V>, op: Op<K, V>, zero: V)
    requires BodyOp(op)
    ensures var a, b := PlainStep(Plain(saved, m), op, zero), PlainStep(Plain(m, m), op, zero);
      a.0 == Plain(saved, b.0.current) && a.1 == b.1
  {
  }

  lemma EraseDoesNotThrow<K, V>(o: Overlay<K, V>, op: Op<K, V>, zero: V)
    ensures op.Erase? ==> !Step(o, op, zero).1.Throw?
  {
  }

  // ----- The contract

  class Contract<K(==), V(==)> {
    const vars: seq<SafeMap<K, V>>
    const zero: V
    /** Positions in `vars` of the variables registered by the running call. */
    var usedVariables: seq<nat>

    constructor (vars: seq<SafeMap<K, V>>, zero: V)
      requires forall i, j :: 0 <= i < j < |vars| ==> vars[i] != vars[j]
      requires forall i :: 0 <= i < |vars| ==> vars[i].zero == zero && Settled(vars[i].View())
      ensures this.vars == vars && this.zero == zero && Quiet()
    {
      this.vars := vars;
      this.zero := zero;
      usedVariables := [];
    }

    ghost predicate Valid()
      reads this, vars
    {
      && (forall i, j :: 0 <= i < j < |vars| ==> vars[i] != vars[j])
      && (forall i :: 0 <= i < |vars| ==> vars[i].zero == zero)
      && (forall i :: 0 <= i < |usedVariables| ==> usedVariables[i] < |vars|)
      && (forall i, j :: 0 <= i < j < |usedVariables| ==> usedVariables[i] != usedVariables[j])
      && (forall i :: 0 <= i < |vars| ==> (vars[i].registered <==> i in usedVariables))
      && (forall i :: 0 <= i < |vars| && !vars[i].registered ==> Settled(vars[i].View()))
    }

    /** Between calls. */
    ghost predicate Quiet()
      reads this, vars
    {
      Valid() && usedVariables == []
    }

    ghost function Views(): (s: seq<Overlay<K, V>>)
      reads this, vars
      ensures |s| == |vars| && forall i :: 0 <= i < |s| ==> s[i] == vars[i].View()
    {
      seq(|vars|, i requires 0 <= i < |vars| reads this, vars => vars[i].View())
    }

    ghost function Bases(): (s: seq<map<K, V>>)
      reads this, vars
      ensures |s| == |vars| && forall i :: 0 <= i < |s| ==> s[i] == vars[i].map_
    {
      seq(|vars|, i requires 0 <= i < |vars| reads this, vars => vars[i].map_)
    }

    ghost function ErasedSets(): (s: seq<set<K>>)
      reads this, vars
      ensures |s| == |vars| && forall i :: 0 <= i < |s| ==> s[i] == vars[i].View().Erased()
    {
      seq(|vars|, i requires 0 <= i < |vars| reads this, vars => vars[i].View().Erased())
    }

    /** One operation; a variable registers itself the first time it may change. */
    method Execute(i: nat, op: Op<K, V>) returns (r: Reply<V>)
      requires Valid() && i < |vars| && BodyOp(op)
      modifies this, vars[i]
      ensures Valid()
      ensures (vars[i].View(), r) == Step(old(vars[i].View()), op, zero)
    {
      hide Step, Settled;
      var was := vars[i].registered;
      BodyKeepsBase(vars[i].View(), op, zero);
      if !was && !Step(vars[i].View(), op, zero).0.registered { ReadsKeepSettled(vars[i].View(), op, zero); }
      r := vars[i].Perform(op);
      if !was && vars[i].registered { usedVariables := usedVariables + [i]; }
    }

    /** Commits or reverts every registered variable. */
    method UpdateState(commitToState: bool)
      requires Valid()
      modifies this, vars
      ensures Quiet()
      ensures forall i :: 0 <= i < |vars| ==> vars[i].View() == Updated(old(vars[i].View()), commitToState)
    {
      hide Settled, Updated;
      ghost var done: set<nat> := {};
      for j := 0 to |usedVariables|
        invariant usedVariables == old(usedVariables)
        invariant forall k :: j <= k < |usedVariables| ==> usedVariables[k] !in done
        invariant forall k :: 0 <= k < j ==> usedVariables[k] in done
        invariant forall i :: 0 <= i < |vars| && i !in done ==> vars[i].View() == old(vars[i].View())
        invariant forall i :: 0 <= i < |vars| && i in done ==>
          old(vars[i].registered) && vars[i].View() == Updated(old(vars[i].View()), commitToState)
      {
        var i := usedVariables[j];
        vars[i].CommitOrRevert(commitToState);
        done := done + {i};
      }
      forall i | 0 <= i < |vars|
        ensures Settled(vars[i].View()) && !vars[i].registered
        ensures vars[i].View() == Updated(old(vars[i].View()), commitToState)
      {
        UpdatedIsSettled(old(vars[i].View()), commitToState);
      }
      usedVariables := [];
    }

    /** The contract function: true if one of its operations threw. */
    method RunBody(script: Script<K, V>) returns (threw: bool)
      requires Quiet() && ScriptOk(script, |vars|)
      modifies this, vars
      ensures Valid() && Bases() == old(Bases())
      ensures old(NoScriptRewrites(ErasedSets(), script)) ==>
        var after := old(PlainCall(Bases(), script, zero));
        (threw <==> after.None?) && (!threw ==> Tracks(old(Bases()), after.value))
    {
      hide Step, PlainStep, Settled, Refines, Written, ErasedAfter;
      ghost var allowed, saved, ms := NoScriptRewrites(ErasedSets(), script), Bases(), Bases();
      ghost var outcome := PlainCall(ms, script, zero);
      assert script[0..] == script;
      forall i | 0 <= i < |vars| ensures Refines(vars[i].View(), Plain(saved[i], ms[i])) {
        SettledRefines(vars[i].View());
      }
      for j := 0 to |script|
        invariant Valid() && Bases() == saved
        invariant allowed ==> NoScriptRewrites(ErasedSets(), script[j..])
        invariant |ms| == |vars| && (allowed ==> outcome == PlainCall(ms, script[j..], zero))
        invariant allowed ==> Tracks(saved, ms)
      {
        var (i, op) := script[j];
        assert script[j..][0] == script[j] && script[j..][1..] == script[j + 1..];
        ghost var o, erased := vars[i].View(), ErasedSets();
        if allowed { StepTracksPlain(o, saved[i], ms[i], op, zero); }
        ErasedKeysAfter(o, op, zero);
        BodyKeepsBase(o, op, zero);
        var r := Execute(i, op);
        assert Bases() == saved;
        assert ErasedSets() == erased[i := ErasedAfter(erased[i], op)];
        if r.Throw? { return true; }
        ms := ms[i := PlainStep(Plain(ms[i], ms[i]), op, zero).0.current];
      }
      threw := false;
    }

    /** Every variable shows `ms` over the base `saved`. */
    ghost predicate Tracks(saved: seq<map<K, V>>, ms: seq<map<K, V>>)
      requires |saved| == |ms| == |vars|
      reads this, vars
    {
      forall i :: 0 <= i < |vars| ==> Refines(vars[i].View(), Plain(saved[i], ms[i]))
    }

    /** A call: all of it or nothing of it.  `throws` is an exception raised by the function itself. */
    method EthCall(script: Script<K, V>, throws: bool, commit: bool) returns (ok: bool)
      requires Quiet() && ScriptOk(script, |vars|)
      modifies this, vars
      ensures Quiet()
      ensures !ok || !commit ==> Bases() == old(Bases())
      ensures old(NoScriptRewrites(ErasedSets(), script)) ==>
        var after := old(PlainCall(Bases(), script, zero));
        (ok <==> after.Some? && !throws) && (ok && commit ==> Bases() == after.value)
    {
      hide Settled, Refines, Updated, PlainCall, NoScriptRewrites;
      ghost var allowed, saved := NoScriptRewrites(ErasedSets(), script), Bases();
      ghost var after := PlainCall(saved, script, zero);
      var threw := RunBody(script);
      ghost var views := Views();
      forall i | 0 <= i < |views| ensures Updated(views[i], false).map_ == views[i].map_ {
        RevertedBase(views[i]);
      }
      if threw || throws {
        UpdateState(false);
        assert Bases() == old(Bases());
        return false;
      }
      if allowed {
        forall i | 0 <= i < |views| ensures Updated(views[i], true).map_ == after.value[i] {
          CommittedBase(views[i], saved[i], after.value[i]);
        }
      }
      UpdateState(commit);
      assert commit && allowed ==> Bases() == after.value;
      return true;
    }
  }

  lemma RevertedBase<K, V>(o: Overlay<K, V>)
    ensures Updated(o, false).map_ == o.map_
  {
  }

  lemma CommittedBase<K, V>(o: Overlay<K, V>, saved: map<K, V>, m: map<K, V>)
    requires Refines(o, Plain(saved, m)) && (!o.registered ==> Settled(o))
    ensures Updated(o, true).map_ == m
  {
    CommitInstallsVisible(o);
  }

  function Updated<K, V>(o: Overlay<K, V>, commit: bool): (r: Overlay<K, V>) {
    if !o.registered then o else if commit then CommitOf(o) else RevertOf(o)
  }

  lemma SettledRefines<K, V>(o: Overlay<K, V>)
    requires Settled(o)
    ensures Refines(o, Plain(o.map_, o.map_))
  {
  }
}
