/** Backward liveness over any graph of nodes: the equations, the meaning by paths,
    and what one update of one node does. */
module Dataflow {
  import opened Sequences

  /** Registers are numbered below 32. */
  const REGS: nat := 32

  ghost predicate IsRegs(s: set<nat>) {
    forall r :: r in s ==> r < REGS
  }

  type LiveMap<!T> = map<T, set<nat>>

  /** exit: the registers that may be asked for when the function ends at the node. */
  datatype RawSystem<!T(==)> = System(succ: map<T, seq<T>>, gen: map<T, set<nat>>, kill: map<T, set<nat>>,
      exit: map<T, set<nat>>) {
    ghost predicate Valid() {
      && gen.Keys == kill.Keys == exit.Keys == succ.Keys
      && (forall b, k :: b in succ && 0 <= k < |succ[b]| ==> succ[b][k] in succ)
      && (forall b :: b in gen ==> IsRegs(gen[b]) && IsRegs(exit[b]))
    }
  }

  type System<!T(==)> = y: RawSystem<T> | y.Valid() ghost witness System(map[], map[], map[], map[])

  // ----- liveness by paths

  /** Along `path`, which numbers the successors to take from a, register r is used, or
      left to an exit that asks for it, before it is written. */
  ghost predicate LiveAlong<T>(y: System<T>, a: T, path: seq<nat>, r: nat)
    decreases |path|
  {
    && a in y.succ
    && if path == [] then r in y.gen[a] || (r in y.exit[a] && r !in y.kill[a])
       else r !in y.kill[a] && path[0] < |y.succ[a]| && LiveAlong(y, y.succ[a][path[0]], path[1..], r)
  }

  ghost predicate Live<T>(y: System<T>, a: T, r: nat) {
    exists path :: LiveAlong(y, a, path, r)
  }

  /** r is live at the end of node a. */
  ghost predicate LiveAfter<T>(y: System<T>, a: T, r: nat)
    requires a in y.succ
  {
    r in y.exit[a] || exists k :: 0 <= k < |y.succ[a]| && Live(y, y.succ[a][k], r)
  }

  // ----- the equations

  /** The union of the sets at the first n nodes of a list. */
  function UnionOf<T>(ns: seq<T>, live: LiveMap<T>, n: nat): set<nat>
    requires n <= |ns| && forall k :: 0 <= k < n ==> ns[k] in live
  {
    if n == 0 then {} else UnionOf(ns, live, n - 1) + live[ns[n - 1]]
  }

  lemma {:induction false} UnionHas<T>(ns: seq<T>, live: LiveMap<T>, n: nat, r: nat)
    requires n <= |ns| && forall k :: 0 <= k < n ==> ns[k] in live
    ensures r in UnionOf(ns, live, n) <==> exists k :: 0 <= k < n && r in live[ns[k]]
  {
    if n > 0 { UnionHas(ns, live, n - 1, r); }
  }

  function OutOf<T>(y: System<T>, live: LiveMap<T>, a: T): set<nat>
    requires a in y.succ && forall k :: 0 <= k < |y.succ[a]| ==> y.succ[a][k] in live
  {
    UnionOf(y.succ[a], live, |y.succ[a]|) + y.exit[a]
  }

  function InOf<T>(y: System<T>, out: set<nat>, a: T): set<nat>
    requires a in y.succ
  {
    (out - y.kill[a]) + y.gen[a]
  }

  ghost predicate Total<T>(y: System<T>, live: LiveMap<T>) {
    live.Keys == y.succ.Keys
  }

  ghost predicate FixedAt<T>(y: System<T>, ins: LiveMap<T>, outs: LiveMap<T>, a: T)
    requires Total(y, ins) && Total(y, outs) && a in y.succ
  {
    outs[a] == OutOf(y, ins, a) && ins[a] == InOf(y, outs[a], a)
  }

  /** Every solution of the equations has all that is live by paths. */
  lemma {:induction false} SolutionHasLive<T>(y: System<T>, ins: LiveMap<T>, outs: LiveMap<T>, a: T, path: seq<nat>,
      r: nat)
    requires Total(y, ins) && Total(y, outs) && forall b :: b in y.succ ==> FixedAt(y, ins, outs, b)
    requires LiveAlong(y, a, path, r)
    ensures r in ins[a]
    decreases |path|
  {
    assert FixedAt(y, ins, outs, a);
    if path != [] {
      SolutionHasLive(y, ins, outs, y.succ[a][path[0]], path[1..], r);
      UnionHas(y.succ[a], ins, |y.succ[a]|, r);
    }
  }

  // ----- the invariant of the iteration

  /** Nothing but what is live by paths. */
  ghost predicate Sound<T>(y: System<T>, ins: LiveMap<T>) {
    forall a {:trigger SoundAt(y, ins[a], a)} :: a in ins ==> SoundAt(y, ins[a], a)
  }

  ghost predicate SoundAt<T>(y: System<T>, s: set<nat>, a: T) {
    forall r :: r in s ==> Live(y, a, r)
  }

  /** The sets lie below what the equations give for them, so that updates make them grow. */
  ghost predicate Ascending<T>(y: System<T>, ins: LiveMap<T>, outs: LiveMap<T>)
    requires Total(y, ins) && Total(y, outs)
  {
    forall a {:trigger BelowAt(y, ins, outs, a)} :: a in y.succ ==> BelowAt(y, ins, outs, a)
  }

  ghost predicate BelowAt<T>(y: System<T>, ins: LiveMap<T>, outs: LiveMap<T>, a: T)
    requires Total(y, ins) && Total(y, outs) && a in y.succ
  {
    outs[a] <= OutOf(y, ins, a) && ins[a] <= InOf(y, outs[a], a) && IsRegs(outs[a]) && IsRegs(ins[a])
  }

  ghost predicate Running<T>(y: System<T>, ins: LiveMap<T>, outs: LiveMap<T>) {
    Total(y, ins) && Total(y, outs) && Ascending(y, ins, outs) && Sound(y, ins)
  }

  lemma StartRunning<T>(y: System<T>, ins: LiveMap<T>, outs: LiveMap<T>)
    requires Total(y, ins) && Total(y, outs) && forall a :: a in y.succ ==> ins[a] == {} && outs[a] == {}
    ensures Running(y, ins, outs)
  {
    forall a | a in y.succ ensures BelowAt(y, ins, outs, a) && SoundAt(y, ins[a], a) {}
  }

  lemma {:induction false} UnionBound<T>(ns: seq<T>, live: LiveMap<T>, n: nat)
    requires n <= |ns| && forall k :: 0 <= k < n ==> ns[k] in live && IsRegs(live[ns[k]])
    ensures IsRegs(UnionOf(ns, live, n))
  {
    if n > 0 { UnionBound(ns, live, n - 1); }
  }

  lemma {:induction false} UnionGrows<T>(ns: seq<T>, live: LiveMap<T>, live': LiveMap<T>, n: nat)
    requires n <= |ns| && forall k :: 0 <= k < n ==> ns[k] in live && ns[k] in live' && live[ns[k]] <= live'[ns[k]]
    ensures UnionOf(ns, live, n) <= UnionOf(ns, live', n)
  {
    if n > 0 { UnionGrows(ns, live, live', n - 1); }
  }

  lemma OutLive<T>(y: System<T>, ins: LiveMap<T>, a: T, r: nat)
    requires Total(y, ins) && a in y.succ && Sound(y, ins)
    requires r in OutOf(y, ins, a)
    ensures LiveAfter(y, a, r)
  {
    UnionHas(y.succ[a], ins, |y.succ[a]|, r);
    if r in UnionOf(y.succ[a], ins, |y.succ[a]|) {
      var k :| 0 <= k < |y.succ[a]| && r in ins[y.succ[a][k]];
      assert SoundAt(y, ins[y.succ[a][k]], y.succ[a][k]);
      assert Live(y, y.succ[a][k], r);
    }
  }

  lemma InLive<T>(y: System<T>, a: T, r: nat)
    requires a in y.succ
    ensures Live(y, a, r) <==> r in y.gen[a] || (LiveAfter(y, a, r) && r !in y.kill[a])
  {
    if r in y.gen[a] || (r in y.exit[a] && r !in y.kill[a]) { assert LiveAlong(y, a, [], r); }
    if LiveAfter(y, a, r) && r !in y.kill[a] && r !in y.exit[a] {
      var k :| 0 <= k < |y.succ[a]| && Live(y, y.succ[a][k], r);
      var path :| LiveAlong(y, y.succ[a][k], path, r);
      assert ([k] + path)[1..] == path;
      assert LiveAlong(y, a, [k] + path, r);
    }
    if Live(y, a, r) {
      var path :| LiveAlong(y, a, path, r);
      if path != [] {
        assert LiveAlong(y, y.succ[a][path[0]], path[1..], r);
        assert Live(y, y.succ[a][path[0]], r);
      }
    }
  }

  /** Updating one node keeps the invariant, and the node's sets grow. */
  lemma UpdateNode<T>(y: System<T>, ins: LiveMap<T>, outs: LiveMap<T>, a: T)
    requires Running(y, ins, outs) && a in y.succ
    ensures var o := OutOf(y, ins, a); var i := InOf(y, o, a);
      && outs[a] <= o && ins[a] <= i && IsRegs(o) && IsRegs(i)
      && Running(y, ins[a := i], outs[a := o])
  {
    NodeGrows(y, ins, outs, a);
    AscendsStill(y, ins, outs, a);
    SoundStill(y, ins, outs, a);
  }

  lemma NodeGrows<T>(y: System<T>, ins: LiveMap<T>, outs: LiveMap<T>, a: T)
    requires Running(y, ins, outs) && a in y.succ
    ensures var o := OutOf(y, ins, a); var i := InOf(y, o, a);
      outs[a] <= o && ins[a] <= i && IsRegs(o) && IsRegs(i)
  {
    UnionBoundAt(y, ins, outs, a);
    assert BelowAt(y, ins, outs, a);
  }

  lemma AscendsStill<T>(y: System<T>, ins: LiveMap<T>, outs: LiveMap<T>, a: T)
    requires Running(y, ins, outs) && a in y.succ
    ensures var o := OutOf(y, ins, a); var i := InOf(y, o, a);
      forall c :: c in y.succ ==> BelowAt(y, ins[a := i], outs[a := o], c)
  {
    NodeGrows(y, ins, outs, a);
    var o := OutOf(y, ins, a);
    var i := InOf(y, o, a);
    forall c | c in y.succ ensures BelowAt(y, ins[a := i], outs[a := o], c) {
      StaysBelow(y, ins, outs, a, o, i, c);
    }
  }

  lemma SoundStill<T>(y: System<T>, ins: LiveMap<T>, outs: LiveMap<T>, a: T)
    requires Running(y, ins, outs) && a in y.succ
    ensures Sound(y, ins[a := InOf(y, OutOf(y, ins, a), a)])
  {
    var o := OutOf(y, ins, a);
    assert SoundAt(y, InOf(y, o, a), a) by {
      forall r | r in InOf(y, o, a) ensures Live(y, a, r) {
        if r in o { OutLive(y, ins, a, r); }
        InLive(y, a, r);
      }
    }
  }

  lemma StaysBelow<T>(y: System<T>, ins: LiveMap<T>, outs: LiveMap<T>, a: T, o: set<nat>, i: set<nat>, c: T)
    requires Running(y, ins, outs) && a in y.succ && c in y.succ
    requires o == OutOf(y, ins, a) && i == InOf(y, o, a) && IsRegs(o) && IsRegs(i) && ins[a] <= i
    ensures BelowAt(y, ins[a := i], outs[a := o], c)
  {
    assert BelowAt(y, ins, outs, c);
    UnionGrows(y.succ[c], ins, ins[a := i], |y.succ[c]|);
  }

  lemma UnionBoundAt<T>(y: System<T>, ins: LiveMap<T>, outs: LiveMap<T>, a: T)
    requires Running(y, ins, outs) && a in y.succ
    ensures IsRegs(OutOf(y, ins, a)) && IsRegs(InOf(y, OutOf(y, ins, a), a))
  {
    forall k | 0 <= k < |y.succ[a]| ensures IsRegs(ins[y.succ[a][k]]) { assert BelowAt(y, ins, outs, y.succ[a][k]); }
    UnionBound(y.succ[a], ins, |y.succ[a]|);
  }

  /** A solution that the iteration has reached is exactly what is live by paths. */
  lemma SolutionIsLive<T>(y: System<T>, ins: LiveMap<T>, outs: LiveMap<T>)
    requires Running(y, ins, outs) && forall a :: a in y.succ ==> FixedAt(y, ins, outs, a)
    ensures forall a, r :: a in y.succ ==> (r in ins[a] <==> Live(y, a, r))
    ensures forall a, r :: a in y.succ ==> (r in outs[a] <==> LiveAfter(y, a, r))
  {
    forall a, r | a in y.succ ensures r in ins[a] <==> Live(y, a, r) {
      assert SoundAt(y, ins[a], a);
      if Live(y, a, r) {
        var path :| LiveAlong(y, a, path, r);
        SolutionHasLive(y, ins, outs, a, path, r);
      }
    }
    forall a, r | a in y.succ ensures r in outs[a] <==> LiveAfter(y, a, r) {
      assert FixedAt(y, ins, outs, a);
      UnionHas(y.succ[a], ins, |y.succ[a]|, r);
    }
  }

  // ----- counting, for termination

  ghost function Weight<T>(ns: seq<T>, ins: LiveMap<T>, outs: LiveMap<T>, n: nat): nat
    requires n <= |ns| && forall k :: 0 <= k < |ns| ==> ns[k] in ins && ns[k] in outs
  {
    if n == 0 then 0 else Weight(ns, ins, outs, n - 1) + |ins[ns[n - 1]]| + |outs[ns[n - 1]]|
  }

  function Upto(n: nat): (s: set<nat>)
    ensures forall r: nat :: r in s <==> r < n
    ensures |s| == n
  {
    if n == 0 then {} else Upto(n - 1) + {n - 1}
  }

  lemma RegsCount(s: set<nat>, n: nat)
    requires IsRegs(s) && n == REGS
    ensures |s| <= n
  {
    SubsetCount(s, Upto(n));
  }

  lemma {:induction false} WeightBound<T>(ns: seq<T>, ins: LiveMap<T>, outs: LiveMap<T>, n: nat)
    requires n <= |ns| &&
        forall k :: 0 <= k < |ns| ==> ns[k] in ins && ns[k] in outs && IsRegs(ins[ns[k]]) && IsRegs(outs[ns[k]])
    ensures Weight(ns, ins, outs, n) <= 2 * REGS * n
  {
    if n > 0 {
      WeightBound(ns, ins, outs, n - 1);
      RegsCount(ins[ns[n - 1]], REGS);
      RegsCount(outs[ns[n - 1]], REGS);
    }
  }

  ghost function Nodes<T>(ns: seq<T>): set<T> {
    set a | a in ns
  }

  lemma {:induction false} WeightUpdate<T>(ns: seq<T>, ins: LiveMap<T>, outs: LiveMap<T>, n: nat, k: nat, i: set<nat>,
      o: set<nat>)
    requires n <= |ns| && k < |ns| && NoRepeats(ns, |ns|) && forall k :: 0 <= k < |ns| ==> ns[k] in ins && ns[k] in outs
    ensures Weight(ns, ins[ns[k] := i], outs[ns[k] := o], n) ==
      Weight(ns, ins, outs, n) + if k < n then |i| + |o| - |ins[ns[k]]| - |outs[ns[k]]| else 0
  {
    if n > 0 {
      WeightUpdate(ns, ins, outs, n - 1, k, i, o);
      NoRepeatsPairs(ns, |ns|);
    }
  }

  // ----- one pass over all nodes

  /** ns lists the nodes. */
  ghost predicate Lists<T>(ns: seq<T>, y: System<T>) {
    NoRepeats(ns, |ns|) && Nodes(ns) == y.succ.Keys
  }

  lemma WeightStep<T>(y: System<T>, ns: seq<T>, ins: LiveMap<T>, outs: LiveMap<T>, a: T, o: set<nat>, i: set<nat>)
    requires Lists(ns, y) && Total(y, ins) && Total(y, outs) && a in y.succ && outs[a] <= o && ins[a] <= i
    ensures Weight(ns, ins[a := i], outs[a := o], |ns|) >= Weight(ns, ins, outs, |ns|)
    ensures outs[a] != o || ins[a] != i ==> Weight(ns, ins[a := i], outs[a := o], |ns|) > Weight(ns, ins, outs, |ns|)
  {
    SubsetCount(outs[a], o);
    SubsetCount(ins[a], i);
    assert a in ns;
    var k :| 0 <= k < |ns| && ns[k] == a;
    WeightUpdate(ns, ins, outs, |ns|, k, i, o);
  }

  datatype Sets<!T(==)> = Sets(ins: LiveMap<T>, outs: LiveMap<T>)

  ghost predicate Fits<T>(y: System<T>, st: Sets<T>) {
    Total(y, st.ins) && Total(y, st.outs)
  }

  /** Both sets of node a, from the equations. */
  ghost function Updated<T>(y: System<T>, st: Sets<T>, a: T): (r: Sets<T>)
    requires Fits(y, st) && a in y.succ
    ensures Fits(y, r)
  {
    var o := OutOf(y, st.ins, a);
    Sets(st.ins[a := InOf(y, o, a)], st.outs[a := o])
  }

  ghost predicate AllIn<T>(y: System<T>, ns: seq<T>) {
    Nodes(ns) <= y.succ.Keys
  }

  /** A pass over the last n nodes of the list, from the last one down. */
  ghost function PassOver<T>(y: System<T>, ns: seq<T>, st: Sets<T>, n: nat): (r: Sets<T>)
    requires Fits(y, st) && n <= |ns| && AllIn(y, ns)
    ensures Fits(y, r)
  {
    if n == 0 then st else Updated(y, PassOver(y, ns, st, n - 1), ns[|ns| - n])
  }

  /** Has that pass changed anything? */
  ghost predicate PassChanges<T>(y: System<T>, ns: seq<T>, st: Sets<T>, n: nat)
    requires Fits(y, st) && n <= |ns| && AllIn(y, ns)
  {
    n > 0 && (PassChanges(y, ns, st, n - 1) || ChangesAt(y, PassOver(y, ns, st, n - 1), ns[|ns| - n]))
  }

  ghost predicate ChangesAt<T>(y: System<T>, st: Sets<T>, a: T)
    requires Fits(y, st) && a in y.succ
  {
    Updated(y, st, a).outs[a] != st.outs[a] || Updated(y, st, a).ins[a] != st.ins[a]
  }

  lemma PassNext<T>(y: System<T>, ns: seq<T>, st: Sets<T>, n: nat, a: T)
    requires Fits(y, st) && n < |ns| && AllIn(y, ns) && a == ns[|ns| - n - 1]
    ensures a in y.succ && PassOver(y, ns, st, n + 1) == Updated(y, PassOver(y, ns, st, n), a)
    ensures PassChanges(y, ns, st, n + 1) == (PassChanges(y, ns, st, n) || ChangesAt(y, PassOver(y, ns, st, n), a))
  {
  }

  /** The same, counting from the front as well: k nodes come before a. */
  lemma PassNextAt<T>(y: System<T>, ns: seq<T>, st: Sets<T>, n: nat, n1: nat, k: nat, a: T)
    requires Fits(y, st) && n1 == n + 1 && n1 + k == |ns| && AllIn(y, ns) && a == ns[k]
    ensures a in y.succ && PassOver(y, ns, st, n1) == Updated(y, PassOver(y, ns, st, n), a)
    ensures PassChanges(y, ns, st, n1) == (PassChanges(y, ns, st, n) || ChangesAt(y, PassOver(y, ns, st, n), a))
  {
    PassNext(y, ns, st, n, a);
  }

  ghost predicate Growing<T>(y: System<T>, st: Sets<T>)
    requires Fits(y, st)
  {
    Ascending(y, st.ins, st.outs) && Sound(y, st.ins)
  }

  lemma UpdatedRuns<T>(y: System<T>, st: Sets<T>, a: T)
    requires Fits(y, st) && a in y.succ && Growing(y, st)
    ensures var r := Updated(y, st, a); Growing(y, r) && st.outs[a] <= r.outs[a] && st.ins[a] <= r.ins[a]
  {
    UpdateNode(y, st.ins, st.outs, a);
  }

  lemma UpdatedGains<T>(y: System<T>, ns: seq<T>, st: Sets<T>, a: T)
    requires Lists(ns, y) && Fits(y, st) && a in y.succ
    requires var r := Updated(y, st, a); st.outs[a] <= r.outs[a] && st.ins[a] <= r.ins[a]
    ensures var r := Updated(y, st, a);
      && WeightOf(ns, y, r) >= WeightOf(ns, y, st)
      && (r.outs[a] != st.outs[a] || r.ins[a] != st.ins[a] ==> WeightOf(ns, y, r) > WeightOf(ns, y, st))
  {
    var o := OutOf(y, st.ins, a);
    WeightStep(y, ns, st.ins, st.outs, a, o, InOf(y, o, a));
  }

  ghost function WeightOf<T>(ns: seq<T>, y: System<T>, st: Sets<T>): nat
    requires Lists(ns, y) && Fits(y, st)
  {
    Weight(ns, st.ins, st.outs, |ns|)
  }

  /** The invariant, node by node in the list. */
  ghost predicate GrowingTo<T>(y: System<T>, ns: seq<T>, st: Sets<T>, n: nat)
    requires Fits(y, st) && n <= |ns| && AllIn(y, ns)
  {
    n == 0 || (GrowingTo(y, ns, st, n - 1) && BelowAt(y, st.ins, st.outs, ns[n - 1]) &&
        SoundAt(y, st.ins[ns[n - 1]], ns[n - 1]))
  }

  lemma {:induction false} GrowingPrefix<T>(y: System<T>, ns: seq<T>, st: Sets<T>, n: nat)
    requires Fits(y, st) && n <= |ns| && AllIn(y, ns)
    ensures GrowingTo(y, ns, st, n) <==>
      forall k :: 0 <= k < n ==> BelowAt(y, st.ins, st.outs, ns[k]) && SoundAt(y, st.ins[ns[k]], ns[k])
  {
    if n > 0 { GrowingPrefix(y, ns, st, n - 1); }
  }

  lemma GrowingAll<T>(y: System<T>, ns: seq<T>, st: Sets<T>)
    requires Fits(y, st) && Lists(ns, y)
    ensures GrowingTo(y, ns, st, |ns|) <==> Growing(y, st)
  {
    GrowingPrefix(y, ns, st, |ns|);
    if GrowingTo(y, ns, st, |ns|) {
      forall a | a in y.succ ensures BelowAt(y, st.ins, st.outs, a) && SoundAt(y, st.ins[a], a) {
        assert a in ns;
        var k :| 0 <= k < |ns| && ns[k] == a;
      }
    }
  }

  /** A pass keeps the invariant, and what it changes grows. */
  lemma {:induction false} PassKeeps<T>(y: System<T>, ns: seq<T>, st: Sets<T>, n: nat)
    requires Lists(ns, y) && Fits(y, st) && n <= |ns| && GrowingTo(y, ns, st, |ns|)
    ensures GrowingTo(y, ns, PassOver(y, ns, st, n), |ns|)
  {
    if n > 0 {
      PassKeeps(y, ns, st, n - 1);
      KeepsNext(y, ns, st, n, ns[|ns| - n]);
    }
  }

  lemma KeepsNext<T>(y: System<T>, ns: seq<T>, st: Sets<T>, n: nat, a: T)
    requires Lists(ns, y) && Fits(y, st) && 0 < n <= |ns| && a == ns[|ns| - n] && a in y.succ
    requires GrowingTo(y, ns, PassOver(y, ns, st, n - 1), |ns|)
    ensures GrowingTo(y, ns, PassOver(y, ns, st, n), |ns|)
  {
    GainsOnce(y, ns, PassOver(y, ns, st, n - 1), a);
  }

  lemma {:induction false} PassGains<T>(y: System<T>, ns: seq<T>, st: Sets<T>, n: nat)
    requires Lists(ns, y) && Fits(y, st) && n <= |ns| && GrowingTo(y, ns, st, |ns|)
    ensures GrowingTo(y, ns, PassOver(y, ns, st, n), |ns|)
    ensures WeightOf(ns, y, PassOver(y, ns, st, n)) >= WeightOf(ns, y, st) + if PassChanges(y, ns, st, n) then 1 else 0
  {
    PassKeeps(y, ns, st, n);
    if n > 0 {
      PassGains(y, ns, st, n - 1);
      var a := ns[|ns| - n];
      PassNext(y, ns, st, n - 1, a);
      GainsOnce(y, ns, PassOver(y, ns, st, n - 1), a);
    }
  }

  lemma GainsOnce<T>(y: System<T>, ns: seq<T>, st: Sets<T>, a: T)
    requires Lists(ns, y) && Fits(y, st) && a in y.succ && GrowingTo(y, ns, st, |ns|)
    ensures GrowingTo(y, ns, Updated(y, st, a), |ns|)
    ensures WeightOf(ns, y, Updated(y, st, a)) >= WeightOf(ns, y, st) + if ChangesAt(y, st, a) then 1 else 0
  {
    GrowingAll(y, ns, st);
    UpdatedRuns(y, st, a);
    UpdatedGains(y, ns, st, a);
    GrowingAll(y, ns, Updated(y, st, a));
  }

  lemma {:induction false} QuietBefore<T>(y: System<T>, ns: seq<T>, st: Sets<T>, m: nat, n: nat)
    requires AllIn(y, ns) && Fits(y, st) && m <= n <= |ns| && !PassChanges(y, ns, st, n)
    ensures !PassChanges(y, ns, st, m)
    decreases n
  {
    if m < n { QuietBefore(y, ns, st, m, n - 1); }
  }

  lemma {:induction false} QuietStays<T>(y: System<T>, ns: seq<T>, st: Sets<T>, n: nat)
    requires AllIn(y, ns) && Fits(y, st) && n <= |ns| && !PassChanges(y, ns, st, n)
    ensures PassOver(y, ns, st, n) == st
  {
    if n > 0 {
      QuietStays(y, ns, st, n - 1);
      QuietTurn(y, st, ns[|ns| - n], PassOver(y, ns, st, n - 1), PassOver(y, ns, st, n));
    }
  }

  lemma QuietTurn<T>(y: System<T>, st: Sets<T>, a: T, q: Sets<T>, r: Sets<T>)
    requires Fits(y, st) && a in y.succ && q == st && r == Updated(y, q, a) && !ChangesAt(y, q, a)
    ensures r == st
  {
    UpdatedSame(y, st, a);
  }

  /** A pass that changes nothing has found a solution. */
  lemma QuietAt<T>(y: System<T>, ns: seq<T>, st: Sets<T>, n: nat)
    requires AllIn(y, ns) && Fits(y, st) && 0 < n <= |ns| && !PassChanges(y, ns, st, |ns|)
    ensures FixedAt(y, st.ins, st.outs, ns[|ns| - n])
  {
    QuietBefore(y, ns, st, n, |ns|);
    QuietBefore(y, ns, st, n - 1, |ns|);
    QuietStays(y, ns, st, n - 1);
    UpdatedSame(y, st, ns[|ns| - n]);
  }

  lemma UpdatedSame<T>(y: System<T>, st: Sets<T>, a: T)
    requires Fits(y, st) && a in y.succ && !ChangesAt(y, st, a)
    ensures Updated(y, st, a) == st && FixedAt(y, st.ins, st.outs, a)
  {
    var r := Updated(y, st, a);
    assert r.ins == st.ins && r.outs == st.outs;
  }

  lemma WeightMost<T>(y: System<T>, ns: seq<T>, st: Sets<T>)
    requires Lists(ns, y) && Fits(y, st) && GrowingTo(y, ns, st, |ns|)
    ensures WeightOf(ns, y, st) <= 2 * REGS * |ns|
  {
    GrowingAll(y, ns, st);
    forall k | 0 <= k < |ns| ensures IsRegs(st.ins[ns[k]]) && IsRegs(st.outs[ns[k]]) {
      assert BelowAt(y, st.ins, st.outs, ns[k]);
    }
    WeightBound(ns, st.ins, st.outs, |ns|);
  }

  lemma StartGrowing<T>(y: System<T>, ns: seq<T>, st: Sets<T>)
    requires Lists(ns, y) && Fits(y, st) && forall a :: a in y.succ ==> st.ins[a] == {} && st.outs[a] == {}
    ensures GrowingTo(y, ns, st, |ns|)
  {
    StartRunning(y, st.ins, st.outs);
    GrowingAll(y, ns, st);
  }

  /** What a pass does for the iteration: it gains, or it has found what is live by paths. */
  lemma AfterPass<T>(y: System<T>, ns: seq<T>, st: Sets<T>, r: Sets<T>)
    requires Lists(ns, y) && Fits(y, st) && GrowingTo(y, ns, st, |ns|) && r == PassOver(y, ns, st, |ns|)
    ensures GrowingTo(y, ns, r, |ns|)
    ensures WeightOf(ns, y, st) + (if PassChanges(y, ns, st, |ns|) then 1 else 0) <= WeightOf(ns, y, r)
    ensures WeightOf(ns, y, r) <= 2 * REGS * |ns|
    ensures !PassChanges(y, ns, st, |ns|) ==> IsLive(y, r)
  {
    PassGains(y, ns, st, |ns|);
    WeightMost(y, ns, r);
    if !PassChanges(y, ns, st, |ns|) { QuietPass(y, ns, st); }
  }

  lemma QuietPass<T>(y: System<T>, ns: seq<T>, st: Sets<T>)
    requires Lists(ns, y) && Fits(y, st) && GrowingTo(y, ns, st, |ns|) && !PassChanges(y, ns, st, |ns|)
    ensures IsLive(y, st) && PassOver(y, ns, st, |ns|) == st
  {
    QuietStays(y, ns, st, |ns|);
    forall a | a in y.succ ensures FixedAt(y, st.ins, st.outs, a) {
      assert a in ns;
      var k :| 0 <= k < |ns| && ns[k] == a;
      ghost var n := |ns| - k;
      assert a == ns[|ns| - n];
      QuietAt(y, ns, st, n);
    }
    GrowingAll(y, ns, st);
    SolutionIsLive(y, st.ins, st.outs);
  }

  /** The sets are exactly what is live by paths. */
  ghost predicate IsLive<T>(y: System<T>, st: Sets<T>)
    requires Fits(y, st)
  {
    forall a, r :: a in y.succ ==> (r in st.ins[a] <==> Live(y, a, r)) && (r in st.outs[a] <==> LiveAfter(y, a, r))
  }
}
