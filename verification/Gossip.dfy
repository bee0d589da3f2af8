/** Flooding of one broadcast id through a network of nodes, step by step in any interleaving
    (src/net/p2p/p2pmanagernormal.cpp). */
module Gossip {
  import opened Bytes

  // ----- The network

  /** A message written by one node to its session with another. */
  type Edge = (nat, nat)

  /** Every node's sessions with normal nodes. */
  datatype Topology = Topology(nodes: set<nat>, sessions: nat -> set<Edge>)

  ghost predicate WellFormed(t: Topology) {
    forall i, e :: e in t.sessions(i) ==> e.0 == i
  }

  /** Nodes that have the id in their table, calls of broadcastMessage that have not entered the
      critical section, writes still to be made by calls that have left it, messages under way, and
      everything written so far. */
  datatype Net = Net(
    marked: set<nat>,
    calls: multiset<nat>,
    outbox: multiset<Edge>,
    inflight: multiset<Edge>,
    sent: multiset<Edge>)

  datatype Step =
    | Originate(i: nat)
    | Enter(i: nat)                  // the critical section of broadcastMessage
    | Write(e: Edge)                 // one iteration of its loop over the sessions
    | Deliver(e: Edge, calls: nat)   // handleBroadcast; the handler calls broadcastMessage 0 to 2 times
    | Lose(e: Edge)

  predicate Enabled(t: Topology, s: Net, step: Step) {
    match step
    case Originate(i) => i in t.nodes
    case Enter(i) => i in s.calls && i in t.nodes
    case Write(e) => e in s.outbox
    case Deliver(e, k) => e in s.inflight && k <= 2 && (k > 0 ==> e.1 in t.nodes)
    case Lose(e) => e in s.inflight
  }

  function Apply(t: Topology, s: Net, step: Step): (r: Net)
    requires Enabled(t, s, step)
  {
    match step
    case Originate(i) => s.(calls := s.calls + multiset{i})
    case Enter(i) =>
      var left := s.(calls := s.calls - multiset{i});
      if i in s.marked then left
      else left.(marked := s.marked + {i}, outbox := s.outbox + multiset(t.sessions(i)))
    case Write(e) =>
      s.(outbox := s.outbox - multiset{e}, inflight := s.inflight + multiset{e}, sent := s.sent + multiset{e})
    case Deliver(e, k) =>
      var left := s.(inflight := s.inflight - multiset{e});
      if e.1 in s.marked then left else left.(calls := s.calls + Copies(e.1, k))
    case Lose(e) => s.(inflight := s.inflight - multiset{e})
  }

  function Copies(i: nat, k: nat): (m: multiset<nat>) { multiset{}[i := k] }

  /** Nobody has seen the id; any number of nodes are about to broadcast it. */
  ghost predicate Initial(t: Topology, s: Net) {
    && s.marked == {} && s.outbox == multiset{} && s.inflight == multiset{} && s.sent == multiset{}
    && forall i :: i in s.calls ==> i in t.nodes
  }

  // ----- Each session is written to at most once

  /** For each session of a marked node one write was made or is still to be made, and no other. */
  ghost predicate Once(t: Topology, s: Net) {
    s.marked <= t.nodes && forall e :: WrittenOnce(t, s, e)
  }

  /** What is under way was written. */
  predicate WrittenOnce(t: Topology, s: Net, e: Edge) {
    s.outbox[e] + s.sent[e] == Allowed(t, s, e) && s.inflight[e] <= s.sent[e]
  }

  function Allowed(t: Topology, s: Net, e: Edge): (n: nat) {
    if e.0 in s.marked && e in t.sessions(e.0) then 1 else 0
  }

  lemma InitialIsOnce(t: Topology, s: Net)
    requires Initial(t, s)
    ensures Once(t, s)
  {
  }

  lemma StepKeepsOnce(t: Topology, s: Net, step: Step)
    requires WellFormed(t) && Once(t, s) && Enabled(t, s, step)
    ensures Once(t, Apply(t, s, step))
  {
    hide Apply, WrittenOnce, Enabled;
    var r := Apply(t, s, step);
    MarksStayInside(t, s, step);
    forall e ensures WrittenOnce(t, r, e) {
      StepKeepsEdge(t, s, step, e);
    }
  }

  lemma MarksStayInside(t: Topology, s: Net, step: Step)
    requires s.marked <= t.nodes && Enabled(t, s, step)
    ensures Apply(t, s, step).marked <= t.nodes
  {
    hide Copies;
  }

  lemma StepKeepsEdge(t: Topology, s: Net, step: Step, e: Edge)
    requires WellFormed(t) && Enabled(t, s, step) && WrittenOnce(t, s, e)
    ensures WrittenOnce(t, Apply(t, s, step), e)
  {
    hide Copies;
    match step
    case Originate(_) =>
    case Enter(i) => if i !in s.marked { assert multiset(t.sessions(i))[e] == if e in t.sessions(i) then 1 else 0; }
    case Write(_) =>
    case Deliver(_, _) =>
    case Lose(_) =>
  }

  // ----- Degrees

  ghost function Degrees(t: Topology, S: set<nat>): (n: nat) {
    if S == {} then 0 else
      var i :| i in S;
      |t.sessions(i)| + Degrees(t, S - {i})
  }

  lemma {:induction false} DegreesWithout(t: Topology, S: set<nat>, i: nat)
    requires i in S
    ensures Degrees(t, S) == |t.sessions(i)| + Degrees(t, S - {i})
    decreases |S|
  {
    var j :| j in S && Degrees(t, S) == |t.sessions(j)| + Degrees(t, S - {j});
    if j != i {
      DegreesWithout(t, S - {j}, i);
      DegreesWithout(t, S - {i}, j);
      assert S - {j} - {i} == S - {i} - {j};
    }
  }

  /** All sessions of the marked nodes. */
  ghost function SessionsOf(t: Topology, S: set<nat>): (E: set<Edge>) {
    set i, e | i in S && e in t.sessions(i) :: e
  }

  lemma {:induction false} SessionCount(t: Topology, S: set<nat>)
    requires WellFormed(t)
    ensures |SessionsOf(t, S)| == Degrees(t, S)
    decreases |S|
  {
    if S != {} {
      var i :| i in S;
      DegreesWithout(t, S, i);
      SessionCount(t, S - {i});
      SessionsSplit(t, S, i);
    } else {
      assert SessionsOf(t, S) == {};
    }
  }

  lemma SessionsSplit(t: Topology, S: set<nat>, i: nat)
    requires WellFormed(t) && i in S
    ensures SessionsOf(t, S) == t.sessions(i) + SessionsOf(t, S - {i})
    ensures t.sessions(i) !! SessionsOf(t, S - {i})
  {
    forall e | e in SessionsOf(t, S - {i}) ensures e !in t.sessions(i) {
      var j :| j in S - {i} && e in t.sessions(j);
      assert e.0 == j;
    }
  }

  lemma {:induction false} MoreNodesMoreDegrees(t: Topology, S: set<nat>, U: set<nat>)
    requires S <= U
    ensures Degrees(t, S) <= Degrees(t, U)
    decreases |U|
  {
    if !(U <= S) {
      var i :| i in U && i !in S;
      DegreesWithout(t, U, i);
      MoreNodesMoreDegrees(t, S, U - {i});
    } else {
      assert S == U;
    }
  }

  /** All sends of one id, made or to be made: one for each session of a marked node, so no more than
      the sum of degrees. */
  lemma TotalSends(t: Topology, s: Net)
    requires WellFormed(t) && Once(t, s)
    ensures |s.outbox| + |s.sent| == Degrees(t, s.marked) <= Degrees(t, t.nodes)
    ensures forall e :: s.sent[e] <= 1
  {
    hide Degrees;
    var E := SessionsOf(t, s.marked);
    forall e ensures (s.outbox + s.sent)[e] == multiset(E)[e] && s.sent[e] <= 1 {
      assert WrittenOnce(t, s, e);
    }
    assert s.outbox + s.sent == multiset(E) && |multiset(E)| == |E|;
    SessionCount(t, s.marked);
    MoreNodesMoreDegrees(t, s.marked, t.nodes);
  }

  /** A message to a marked node is dropped and has no other effect. */
  lemma MarkedNodeIgnores(t: Topology, s: Net, e: Edge, k: nat)
    requires Enabled(t, s, Deliver(e, k)) && e.1 in s.marked
    ensures Apply(t, s, Deliver(e, k)) == s.(inflight := s.inflight - multiset{e})
  {
  }

  // ----- Flooding ends

  /** What is left to do: a node that has not seen the id may still write to all its sessions, a
      write leads to a message, a message to at most two calls. */
  ghost function Potential(t: Topology, s: Net): (n: nat) {
    4 * Degrees(t, t.nodes - s.marked) + 4 * |s.outbox| + 3 * |s.inflight| + |s.calls|
  }

  lemma CopiesCount(i: nat, k: nat)
    ensures |Copies(i, k)| == k
  {
  }

  lemma StepLowersPotential(t: Topology, s: Net, step: Step)
    requires Enabled(t, s, step)
    ensures step.Originate? ==> Potential(t, Apply(t, s, step)) == Potential(t, s) + 1
    ensures !step.Originate? ==> Potential(t, Apply(t, s, step)) < Potential(t, s)
  {
    hide Copies, Degrees;
    match step
    case Originate(i) =>
    case Enter(i) => EnteringLowers(t, s, i);
    case Write(e) => TakeOne(s.outbox, e);
    case Deliver(e, k) => DeliveryLowers(t, s, e, k);
    case Lose(e) => TakeOne(s.inflight, e);
  }

  lemma TakeOne<T>(m: multiset<T>, x: T)
    requires x in m
    ensures |m - multiset{x}| == |m| - 1
  {
  }

  lemma EnteringLowers(t: Topology, s: Net, i: nat)
    requires Enabled(t, s, Enter(i))
    ensures Potential(t, Apply(t, s, Enter(i))) < Potential(t, s)
  {
    hide Copies, Degrees;
    TakeOne(s.calls, i);
    if i !in s.marked { MarkingMovesDegree(t, s, i); }
  }

  lemma DeliveryLowers(t: Topology, s: Net, e: Edge, k: nat)
    requires Enabled(t, s, Deliver(e, k))
    ensures Potential(t, Apply(t, s, Deliver(e, k))) < Potential(t, s)
  {
    hide Copies, Degrees;
    TakeOne(s.inflight, e);
    CopiesCount(e.1, k);
  }

  lemma MarkingMovesDegree(t: Topology, s: Net, i: nat)
    requires i in t.nodes && i !in s.marked
    ensures Degrees(t, t.nodes - s.marked) == Degrees(t, t.nodes - (s.marked + {i})) + |t.sessions(i)|
    ensures |s.outbox + multiset(t.sessions(i))| == |s.outbox| + |t.sessions(i)|
  {
    hide Degrees;
    DegreesWithout(t, t.nodes - s.marked, i);
    assert t.nodes - (s.marked + {i}) == t.nodes - s.marked - {i};
  }

  // ----- Runs

  ghost predicate Runs(t: Topology, s: Net, steps: seq<Step>)
    decreases |steps|
  {
    |steps| == 0 || (Enabled(t, s, steps[0]) && Runs(t, Apply(t, s, steps[0]), steps[1..]))
  }

  ghost function After(t: Topology, s: Net, steps: seq<Step>): (r: Net)
    requires Runs(t, s, steps)
    decreases |steps|
  {
    if |steps| == 0 then s else After(t, Apply(t, s, steps[0]), steps[1..])
  }

  function Originations(steps: seq<Step>): (n: nat) {
    if |steps| == 0 then 0 else (if steps[0].Originate? then 1 else 0) + Originations(steps[1..])
  }

  /** Over every interleaving each node writes to each of its sessions at most once. */
  lemma {:induction false} FloodsOnce(t: Topology, s: Net, steps: seq<Step>)
    requires WellFormed(t) && Once(t, s) && Runs(t, s, steps)
    ensures Once(t, After(t, s, steps))
    decreases |steps|
  {
    hide Once, Apply, Enabled;
    if |steps| > 0 {
      StepKeepsOnce(t, s, steps[0]);
      FloodsOnce(t, Apply(t, s, steps[0]), steps[1..]);
    }
  }

  /** No run is longer than the initial potential and two steps per later origination. */
  lemma {:induction false} FloodingStops(t: Topology, s: Net, steps: seq<Step>)
    requires Runs(t, s, steps)
    ensures |steps| <= Potential(t, s) + 2 * Originations(steps)
    decreases |steps|
  {
    hide Potential, Apply, Enabled;
    if |steps| > 0 {
      StepLowersPotential(t, s, steps[0]);
      FloodingStops(t, Apply(t, s, steps[0]), steps[1..]);
    }
  }

  // ----- Flooding reaches everyone

  /** The id is on its way to, or known to, the other end of every session of a marked node. */
  ghost predicate Spreading(t: Topology, s: Net) {
    forall i, e :: i in s.marked && e in t.sessions(i) ==> OnItsWay(s, e)
  }

  predicate OnItsWay(s: Net, e: Edge) { e in s.outbox || e in s.inflight || e.1 in s.marked || e.1 in s.calls }

  /** Nothing lost, and nobody drops the message without passing it on. */
  predicate Faithful(step: Step) {
    match step
    case Deliver(_, k) => k > 0
    case Lose(_) => false
    case _ => true
  }

  lemma StepKeepsSpreading(t: Topology, s: Net, step: Step)
    requires WellFormed(t) && Spreading(t, s) && Enabled(t, s, step) && Faithful(step)
    ensures Spreading(t, Apply(t, s, step))
  {
    hide OnItsWay, Apply, Copies;
    var r := Apply(t, s, step);
    forall i, e | i in r.marked && e in t.sessions(i) ensures OnItsWay(r, e) {
      if i in s.marked {
        StaysOnItsWay(t, s, step, e);
      } else {
        MarkedAfter(t, s, step, i);
        StartsOnItsWay(t, s, step, i, e);
      }
    }
  }

  lemma MarkedAfter(t: Topology, s: Net, step: Step, i: nat)
    requires Enabled(t, s, step) && i in Apply(t, s, step).marked && i !in s.marked
    ensures step == Enter(i)
  {
  }

  lemma StaysOnItsWay(t: Topology, s: Net, step: Step, e: Edge)
    requires OnItsWay(s, e) && Enabled(t, s, step) && Faithful(step)
    ensures OnItsWay(Apply(t, s, step), e)
  {
    hide Copies;
    var r := Apply(t, s, step);
    match step
    case Originate(_) =>
    case Enter(i) =>
      if e.1 !in r.marked { TakeOther(s.calls, i, e.1); }
    case Write(f) =>
      if e != f { TakeOther(s.outbox, f, e); } else { assert e in r.inflight; }
    case Deliver(f, k) =>
      if e != f { TakeOther(s.inflight, f, e); } else if e.1 !in s.marked { CopiesHold(e.1, k); assert e.1 in r.calls; }
  }

  lemma TakeOther<T>(m: multiset<T>, x: T, y: T)
    ensures x != y && y in m ==> y in m - multiset{x}
  {
  }

  lemma CopiesHold(i: nat, k: nat)
    ensures k > 0 ==> i in Copies(i, k)
  {
  }

  lemma StartsOnItsWay(t: Topology, s: Net, step: Step, i: nat, e: Edge)
    requires Enabled(t, s, step) && step == Enter(i) && i !in s.marked && e in t.sessions(i)
    ensures OnItsWay(Apply(t, s, step), e)
  {
    assert e in multiset(t.sessions(i));
  }

  lemma {:induction false} RunKeepsSpreading(t: Topology, s: Net, steps: seq<Step>)
    requires WellFormed(t) && Spreading(t, s) && Runs(t, s, steps)
    requires forall k :: 0 <= k < |steps| ==> Faithful(steps[k])
    ensures Spreading(t, After(t, s, steps))
    decreases |steps|
  {
    hide Spreading, Apply, Enabled;
    if |steps| > 0 {
      StepKeepsSpreading(t, s, steps[0]);
      RunKeepsSpreading(t, Apply(t, s, steps[0]), steps[1..]);
    }
  }

  /** Nothing left to do. */
  predicate Stopped(s: Net) { s.calls == multiset{} && s.outbox == multiset{} && s.inflight == multiset{} }

  /** When a faithful flood has stopped, whoever has a session with an informed node is informed. */
  lemma StoppedFloodIsClosed(t: Topology, s: Net, steps: seq<Step>, i: nat, e: Edge)
    requires WellFormed(t) && Initial(t, s) && Runs(t, s, steps) && forall k :: 0 <= k < |steps| ==> Faithful(steps[k])
    requires Stopped(After(t, s, steps)) && i in After(t, s, steps).marked && e in t.sessions(i)
    ensures e.1 in After(t, s, steps).marked
  {
    hide Runs, After;
    RunKeepsSpreading(t, s, steps);
    assert OnItsWay(After(t, s, steps), e);
  }

  // ----- Flooding reaches exactly who can be reached

  /** Each node has a session with the next. */
  ghost predicate Path(t: Topology, p: seq<nat>) {
    |p| > 0 && forall k :: 0 <= k < |p| - 1 ==> (p[k], p[k + 1]) in t.sessions(p[k])
  }

  ghost predicate Leads(t: Topology, p: seq<nat>, O: set<nat>, i: nat) {
    Path(t, p) && p[0] in O && p[|p| - 1] == i
  }

  ghost predicate Reachable(t: Topology, O: set<nat>, i: nat) { exists p :: Leads(t, p, O, i) }

  /** Nodes that broadcast of their own accord, before or during the run. */
  function Origins(s: Net, steps: seq<Step>): (O: set<nat>) {
    (set i | i in s.calls) + set k | 0 <= k < |steps| && steps[k].Originate? :: steps[k].i
  }

  /** A node about to broadcast is marked later, or still about to. */
  lemma {:induction false} CallerGetsMarked(t: Topology, s: Net, steps: seq<Step>, i: nat)
    requires Runs(t, s, steps) && (i in s.calls || i in s.marked || Originate(i) in steps)
    ensures i in After(t, s, steps).calls || i in After(t, s, steps).marked
    decreases |steps|
  {
    hide Apply, Enabled;
    if |steps| > 0 {
      var r := Apply(t, s, steps[0]);
      if i in s.calls || i in s.marked || steps[0] == Originate(i) { StepKeepsCaller(t, s, steps[0], i); }
      else { assert Originate(i) in steps[1..]; }
      CallerGetsMarked(t, r, steps[1..], i);
    }
  }

  lemma StepKeepsCaller(t: Topology, s: Net, step: Step, i: nat)
    requires Enabled(t, s, step) && (i in s.calls || i in s.marked || step == Originate(i))
    ensures i in Apply(t, s, step).calls || i in Apply(t, s, step).marked
  {
    hide Copies;
    if step.Enter? { TakeOther(s.calls, step.i, i); }
  }

  lemma {:induction false} PathIsMarked(t: Topology, s: Net, steps: seq<Step>, p: seq<nat>, k: nat)
    requires WellFormed(t) && Initial(t, s) && Runs(t, s, steps) && forall k :: 0 <= k < |steps| ==> Faithful(steps[k])
    requires Stopped(After(t, s, steps)) && Path(t, p) && p[0] in Origins(s, steps) && k < |p|
    ensures p[k] in After(t, s, steps).marked
  {
    hide Runs, After, Initial;
    if k == 0 {
      CallerGetsMarked(t, s, steps, p[0]);
    } else {
      PathIsMarked(t, s, steps, p, k - 1);
      assert (p[k - 1], p[k - 1 + 1]) in t.sessions(p[k - 1]);
      StoppedFloodIsClosed(t, s, steps, p[k - 1], (p[k - 1], p[k]));
    }
  }

  /** Whatever happens is traced back to an origin over sessions. */
  ghost predicate Traced(t: Topology, O: set<nat>, s: Net) {
    && (forall i :: i in s.marked || i in s.calls ==> Reachable(t, O, i))
    && (forall e :: e in s.outbox || e in s.inflight ==> Reachable(t, O, e.0) && e in t.sessions(e.0))
  }

  lemma OneFurther(t: Topology, O: set<nat>, e: Edge)
    requires Reachable(t, O, e.0) && e in t.sessions(e.0)
    ensures Reachable(t, O, e.1)
  {
    var p :| Leads(t, p, O, e.0);
    assert Leads(t, p + [e.1], O, e.1);
  }

  lemma OriginIsReachable(t: Topology, O: set<nat>, i: nat)
    requires i in O
    ensures Reachable(t, O, i)
  {
    assert Leads(t, [i], O, i);
  }

  lemma StepKeepsTraced(t: Topology, O: set<nat>, s: Net, step: Step)
    requires WellFormed(t) && Traced(t, O, s) && Enabled(t, s, step) && (step.Originate? ==> step.i in O)
    ensures Traced(t, O, Apply(t, s, step))
  {
    hide Reachable, Apply;
    var r := Apply(t, s, step);
    forall i | i in r.marked || i in r.calls ensures Reachable(t, O, i) {
      WhoIsNew(t, s, step, i);
      if step.Originate? { OriginIsReachable(t, O, step.i); }
      if step.Deliver? { OneFurther(t, O, step.e); }
    }
    forall e | e in r.outbox || e in r.inflight ensures Reachable(t, O, e.0) && e in t.sessions(e.0) {
      WhatIsNew(t, s, step, e);
    }
  }

  lemma WhoIsNew(t: Topology, s: Net, step: Step, i: nat)
    requires Enabled(t, s, step) && (i in Apply(t, s, step).marked || i in Apply(t, s, step).calls)
    ensures i in s.marked || i in s.calls || step == Originate(i) || (step.Deliver? && step.e.1 == i)
  {
    hide Copies;
    if step.Deliver? { CopiesOnly(step.e.1, step.calls); }
  }

  lemma CopiesOnly(i: nat, k: nat)
    ensures forall j :: j in Copies(i, k) ==> j == i
  {
  }

  lemma WhatIsNew(t: Topology, s: Net, step: Step, e: Edge)
    requires WellFormed(t) && Enabled(t, s, step) && (e in Apply(t, s, step).outbox || e in Apply(t, s, step).inflight)
    ensures e in s.outbox || e in s.inflight || (step == Enter(e.0) && e.0 in s.calls && e in t.sessions(e.0))
  {
    hide Copies;
  }

  lemma {:induction false} RunKeepsTraced(t: Topology, O: set<nat>, s: Net, steps: seq<Step>)
    requires WellFormed(t) && Traced(t, O, s) && Runs(t, s, steps)
    requires forall k :: 0 <= k < |steps| && steps[k].Originate? ==> steps[k].i in O
    ensures Traced(t, O, After(t, s, steps))
    decreases |steps|
  {
    hide Traced, Apply, Enabled;
    if |steps| > 0 {
      StepKeepsTraced(t, O, s, steps[0]);
      RunKeepsTraced(t, O, Apply(t, s, steps[0]), steps[1..]);
    }
  }

  lemma InitialIsTraced(t: Topology, s: Net, steps: seq<Step>)
    requires Initial(t, s)
    ensures Traced(t, Origins(s, steps), s)
  {
    hide Reachable;
    forall i | i in s.calls ensures Reachable(t, Origins(s, steps), i) { OriginIsReachable(t, Origins(s, steps), i); }
  }

  /** When a faithful flood has stopped, it has reached exactly the nodes that sessions lead to from a
      node that broadcast of its own accord. */
  lemma FloodReachesExactly(t: Topology, s: Net, steps: seq<Step>, i: nat)
    requires WellFormed(t) && Initial(t, s) && Runs(t, s, steps) && forall k :: 0 <= k < |steps| ==> Faithful(steps[k])
    requires Stopped(After(t, s, steps))
    ensures i in After(t, s, steps).marked <==> Reachable(t, Origins(s, steps), i)
  {
    hide Runs, After, Initial, WellFormed, Path, Faithful, Stopped, Origins;
    if p :| Leads(t, p, Origins(s, steps), i) {
      PathStarts(t, p);
      PathIsMarked(t, s, steps, p, |p| - 1);
    }
    InitialIsTraced(t, s, steps);
    OriginsAreIn(s, steps);
    RunKeepsTraced(t, Origins(s, steps), s, steps);
  }

  lemma PathStarts(t: Topology, p: seq<nat>)
    requires Path(t, p)
    ensures |p| > 0
  {
  }

  lemma OriginsAreIn(s: Net, steps: seq<Step>)
    ensures forall k :: 0 <= k < |steps| && steps[k].Originate? ==> steps[k].i in Origins(s, steps)
  {
  }

  /** From the start: no session is written to twice, and none of an informed node is left out once all
      writes are made; all sends are bounded by the degrees, and the run by the degrees and the
      broadcasts asked for. */
  lemma FloodFromTheStart(t: Topology, s: Net, steps: seq<Step>)
    requires WellFormed(t) && Initial(t, s) && Runs(t, s, steps)
    ensures forall e :: After(t, s, steps).sent[e] <= 1
    ensures |After(t, s, steps).sent| <= Degrees(t, t.nodes)
    ensures var r := After(t, s, steps);
      r.outbox == multiset{} ==> |r.sent| == Degrees(t, r.marked) && r.sent == multiset(SessionsOf(t, r.marked))
    ensures |steps| <= 4 * Degrees(t, t.nodes) + |s.calls| + 2 * Originations(steps)
  {
    hide Runs, After, Degrees, Originations, WellFormed, Once, SessionsOf;
    InitialIsOnce(t, s);
    FloodsOnce(t, s, steps);
    TotalSends(t, After(t, s, steps));
    AllSessionsWritten(t, After(t, s, steps));
    FloodingStops(t, s, steps);
    assert t.nodes - s.marked == t.nodes;
  }

  lemma AllSessionsWritten(t: Topology, s: Net)
    requires WellFormed(t) && Once(t, s)
    ensures s.outbox == multiset{} ==> s.sent == multiset(SessionsOf(t, s.marked))
  {
    if s.outbox == multiset{} {
      forall e ensures s.sent[e] == multiset(SessionsOf(t, s.marked))[e] { assert WrittenOnce(t, s, e); }
    }
  }

  // ----- One node

  datatype Session = Session(peer: nat, normal: bool)

  /** How the handler of a received broadcast ends: refused, passed on once, or passed on twice (an
      accepted block is broadcast in the handler and again at its end). */
  datatype Verdict = Refused | Accepted | AcceptedBlock

  class Manager {
    const sessions: seq<Session>
    var closed: bool
    var broadcasted: map<u64, nat>
    /** Writes made so far: message id and peer. */
    var written: seq<(u64, nat)>

    constructor (sessions: seq<Session>)
      ensures this.sessions == sessions && !closed && broadcasted == map[] && written == []
    {
      this.sessions := sessions;
      closed := false;
      broadcasted := map[];
      written := [];
    }

    predicate Seen(id: u64)
      reads this
    {
      id in broadcasted && broadcasted[id] > 0
    }

    /** What one pass over the sessions writes. */
    static function Writes(id: u64, sessions: seq<Session>): (w: seq<(u64, nat)>) {
      if |sessions| == 0 then [] else
        var last := |sessions| - 1;
        Writes(id, sessions[..last]) + if sessions[last].normal then [(id, sessions[last].peer)] else []
    }

    method BroadcastMessage(id: u64)
      modifies this`broadcasted, this`written
      ensures closed || old(Seen(id)) ==> unchanged(this)
      ensures !closed && !old(Seen(id)) ==> Seen(id) && written == old(written) + Writes(id, sessions)
      ensures forall k :: k != id ==> Seen(k) == old(Seen(k))
      ensures old(Seen(id)) ==> Seen(id)
    {
      if closed { return; }
      if id !in broadcasted { broadcasted := broadcasted[id := 0]; }
      if broadcasted[id] > 0 { return; }
      broadcasted := broadcasted[id := broadcasted[id] + 1];
      for i := 0 to |sessions|
        modifies this`written
        invariant written == old(written) + Writes(id, sessions[..i])
      {
        assert sessions[..i + 1][..i] == sessions[..i];
        if sessions[i].normal { written := written + [(id, sessions[i].peer)]; }
      }
      assert sessions[..|sessions|] == sessions;
    }

    /** A received broadcast: however it is judged, its id is passed on at most once. */
    method HandleBroadcast(id: u64, verdict: Verdict)
      modifies this`broadcasted, this`written
      ensures written == old(written)
        + if closed || old(Seen(id)) || verdict.Refused? then [] else Writes(id, sessions)
      ensures old(Seen(id)) ==> Seen(id)
      ensures if closed || verdict.Refused? then broadcasted == old(broadcasted) else Seen(id)
    {
      if closed { return; }
      if id in broadcasted && broadcasted[id] > 0 { return; }
      match verdict
      case Refused =>
      case Accepted => BroadcastMessage(id);
      case AcceptedBlock => BroadcastMessage(id); BroadcastMessage(id);
    }
  }

  // ----- A call of broadcastMessage is a run of the network's steps

  /** The messages node i writes when it passes over its sessions. */
  function Edges(i: nat, sessions: seq<Session>): (es: seq<Edge>) {
    if |sessions| == 0 then [] else
      var last := |sessions| - 1;
      Edges(i, sessions[..last]) + if sessions[last].normal then [(i, sessions[last].peer)] else []
  }

  /** Sessions are with different nodes. */
  predicate PeersDiffer(sessions: seq<Session>) {
    forall j, k :: 0 <= j < k < |sessions| ==> sessions[j].peer != sessions[k].peer
  }

  lemma {:induction false} WritesAreEdges(i: nat, id: u64, sessions: seq<Session>)
    ensures |Manager.Writes(id, sessions)| == |Edges(i, sessions)|
    ensures forall k :: 0 <= k < |Edges(i, sessions)| ==>
      Edges(i, sessions)[k].0 == i && Manager.Writes(id, sessions)[k] == (id, Edges(i, sessions)[k].1)
  {
    if |sessions| > 0 { WritesAreEdges(i, id, sessions[..|sessions| - 1]); }
  }

  /** Messages go to the peers of the sessions with normal nodes, to all of them and to nobody else. */
  lemma {:induction false} EdgesAreNormalSessions(i: nat, sessions: seq<Session>, e: Edge)
    ensures e in Edges(i, sessions) <==> e.0 == i && Session(e.1, true) in sessions
  {
    if |sessions| > 0 {
      var last := |sessions| - 1;
      EdgesAreNormalSessions(i, sessions[..last], e);
      assert sessions == sessions[..last] + [sessions[last]];
    }
  }

  lemma {:induction false} EdgesDiffer(i: nat, sessions: seq<Session>)
    requires PeersDiffer(sessions)
    ensures forall e :: multiset(Edges(i, sessions))[e] <= 1
  {
    if |sessions| > 0 {
      var last := |sessions| - 1;
      var front, e := Edges(i, sessions[..last]), (i, sessions[last].peer);
      EdgesDiffer(i, sessions[..last]);
      EdgesAreNormalSessions(i, sessions[..last], e);
      assert e !in multiset(front);
    }
  }

  function WriteAll(es: seq<Edge>): (steps: seq<Step>) { seq(|es|, k requires 0 <= k < |es| => Write(es[k])) }

  /** These writes are made. */
  function Written(s: Net, m: multiset<Edge>): (r: Net) {
    s.(outbox := s.outbox - m, inflight := s.inflight + m, sent := s.sent + m)
  }

  lemma WrittenInTurn(s: Net, m: multiset<Edge>, n: multiset<Edge>)
    ensures Written(Written(s, m), n) == Written(s, m + n)
  {
    assert s.outbox - m - n == s.outbox - (m + n);
    assert s.inflight + m + n == s.inflight + (m + n) && s.sent + m + n == s.sent + (m + n);
  }

  lemma {:induction false} WritesRun(t: Topology, s: Net, es: seq<Edge>)
    requires multiset(es) <= s.outbox
    ensures Runs(t, s, WriteAll(es)) && After(t, s, WriteAll(es)) == Written(s, multiset(es))
    decreases |es|
  {
    hide Written;
    if |es| == 0 {
      NothingWritten(s, es);
    } else {
      var e, rest := es[0], es[1..];
      assert es == [e] + rest && WriteAll(es)[1..] == WriteAll(rest);
      OneWritten(t, s, e, multiset(rest));
      WritesRun(t, Written(s, multiset{e}), rest);
      WrittenInTurn(s, multiset{e}, multiset(rest));
    }
  }

  lemma NothingWritten(s: Net, es: seq<Edge>)
    requires |es| == 0
    ensures Written(s, multiset(es)) == s
  {
    assert multiset(es) == multiset{};
  }

  lemma OneWritten(t: Topology, s: Net, e: Edge, m: multiset<Edge>)
    requires multiset{e} + m <= s.outbox
    ensures Enabled(t, s, Write(e)) && Apply(t, s, Write(e)) == Written(s, multiset{e})
    ensures m <= Written(s, multiset{e}).outbox
  {
    assert e in multiset{e} + m;
  }

  /** A call that enters the critical section first marks the node and then makes exactly the writes of
      the object's loop. */
  lemma FirstCallIsRun(t: Topology, s: Net, i: nat, sessions: seq<Session>)
    requires i in s.calls && i in t.nodes && i !in s.marked && PeersDiffer(sessions)
    requires t.sessions(i) == set e | e in Edges(i, sessions)
    ensures var steps, m := [Enter(i)] + WriteAll(Edges(i, sessions)), multiset(Edges(i, sessions));
      && Runs(t, s, steps)
      && After(t, s, steps) == Net(s.marked + {i}, s.calls - multiset{i}, s.outbox, s.inflight + m, s.sent + m)
  {
    hide Edges, WriteAll;
    var es := Edges(i, sessions);
    var r := Apply(t, s, Enter(i));
    EdgesDiffer(i, sessions);
    AsMultiset(t.sessions(i), es);
    WritesRun(t, r, es);
    assert ([Enter(i)] + WriteAll(es))[1..] == WriteAll(es);
    assert s.outbox + multiset(es) - multiset(es) == s.outbox;
  }

  lemma AsMultiset(E: set<Edge>, es: seq<Edge>)
    requires E == (set e | e in es) && forall e :: multiset(es)[e] <= 1
    ensures multiset(E) == multiset(es)
  {
    forall e ensures multiset(E)[e] == multiset(es)[e] {
      assert e in E <==> e in multiset(es);
    }
  }

  /** Every later call changes nothing but that it is over. */
  lemma LaterCallIsRun(t: Topology, s: Net, i: nat)
    requires i in s.calls && i in t.nodes && i in s.marked
    ensures Runs(t, s, [Enter(i)]) && After(t, s, [Enter(i)]) == s.(calls := s.calls - multiset{i})
  {
    assert [Enter(i)][1..] == [];
  }
}
