/** Immediate dominators by the two-finger walk over a reverse postorder. */
module Dominators {
  import opened Graphs
  import opened Block

  /** D[v] is the index of v's immed_dom field, -1 where the field is null. */
  type DomMap = seq<int>

  ghost predicate DomMapOk(D: DomMap) {
    && |D| > 0
    && D[0] == 0
    && forall v :: 0 < v < |D| ==> -1 <= D[v] < v && (D[v] >= 0 ==> D[D[v]] >= 0)
  }

  ghost predicate AllSet(D: DomMap) {
    forall v :: 0 <= v < |D| ==> D[v] >= 0
  }

  /** a lies on the chain of immed_dom links that starts at v. */
  ghost predicate OnChain(D: DomMap, a: nat, v: nat)
    decreases v
  {
    a == v || (v < |D| && 0 <= D[v] < v && OnChain(D, a, D[v]))
  }

  /** z is the nearest common element of the chains of x and y. */
  ghost predicate NearestCommon(D: DomMap, z: nat, x: nat, y: nat) {
    && OnChain(D, z, x) && OnChain(D, z, y)
    && forall w: nat :: OnChain(D, w, x) && OnChain(D, w, y) ==> OnChain(D, w, z)
  }

  // ----- chains

  lemma {:induction false} ChainBelow(D: DomMap, a: nat, v: nat)
    requires OnChain(D, a, v)
    ensures a <= v
    decreases v
  {
    if a != v { ChainBelow(D, a, D[v]); }
  }

  lemma {:induction false} ChainTrans(D: DomMap, a: nat, w: nat, v: nat)
    requires OnChain(D, a, w) && OnChain(D, w, v)
    ensures OnChain(D, a, v)
    decreases v
  {
    if w != v { ChainTrans(D, a, w, D[v]); }
  }

  /** Two elements of one chain are ordered along it. */
  lemma {:induction false} ChainOrder(D: DomMap, a: nat, b: nat, v: nat)
    requires OnChain(D, a, v) && OnChain(D, b, v) && a <= b
    ensures OnChain(D, a, b)
    decreases v
  {
    if b != v {
      if a == v { ChainBelow(D, b, v); }
      ChainOrder(D, a, b, D[v]);
    }
  }

  lemma {:induction false} ChainSet(D: DomMap, a: nat, v: nat)
    requires DomMapOk(D) && v < |D| && D[v] >= 0 && OnChain(D, a, v)
    ensures a < |D| && D[a] >= 0
    decreases v
  {
    if a != v { ChainSet(D, a, D[v]); }
  }

  // ----- dominance facts

  /** A dominator never has a larger index than what it dominates. */
  lemma {:induction false} DownPath(G: Graph, v: nat) returns (p: seq<nat>)
    requires ReversePostorder(G) && v < |G|
    ensures PathBetween(G, 0, p, v)
    ensures forall i :: 0 <= i < |p| ==> p[i] <= v
    decreases v
  {
    if v == 0 {
      p := [0];
    } else {
      assert EarlierPredecessor(G, v);
      var u :| 0 <= u < v && Edge(G, u, v);
      var q := DownPath(G, u);
      PathExtend(G, 0, q, u, v);
      p := q + [v];
    }
  }

  lemma DominatorBelow(G: Graph, d: nat, v: nat)
    requires ReversePostorder(G) && v < |G| && Dominates(G, d, v)
    ensures d <= v
  {
    var p := DownPath(G, v);
    assert d in p;
  }

  lemma StrictDominatorOfSuccessor(G: Graph, d: nat, u: nat, v: nat)
    requires StrictlyDominates(G, d, v) && Edge(G, u, v)
    ensures Dominates(G, d, u)
  {
    forall p | PathBetween(G, 0, p, u) ensures d in p {
      PathExtend(G, 0, p, u, v);
      assert d in p + [v];
    }
  }

  lemma ImmediateDominatorUnique(G: Graph, d: nat, e: nat, v: nat)
    requires ReversePostorder(G) && d < |G| && e < |G|
    requires ImmediateDominator(G, d, v) && ImmediateDominator(G, e, v)
    ensures d == e
  {
    DominatorBelow(G, d, e);
    DominatorBelow(G, e, d);
  }

  lemma WithinTrans(G: Graph, k: nat, a: nat, w: nat, v: nat)
    requires DominatesWithin(G, k, a, w) && DominatesWithin(G, k, w, v)
    ensures DominatesWithin(G, k, a, v)
  {
    forall p | PathBetween(G, 0, p, v) && |p| <= k + 1 ensures a in p {
      assert w in p;
      var i :| 0 <= i < |p| && p[i] == w;
      PathPrefix(G, 0, p, v, i);
      assert a in p[..i + 1];
    }
  }

  // ----- the invariants of the iteration

  /** Every strict dominator of v dominates v's current immed_dom. */
  ghost predicate KeepsDominators(G: Graph, D: DomMap) {
    forall v, d: nat :: 0 < v < |D| && D[v] >= 0 && StrictlyDominates(G, d, v) ==> Dominates(G, d, D[v])
  }

  /** After k whole passes, immed_dom is on every entry path of at most k edges;
      blocks below i are already one pass further. */
  ghost predicate Within(G: Graph, D: DomMap, k: nat, i: nat) {
    forall v :: 0 < v < |D| && D[v] >= 0 ==> DominatesWithin(G, if v < i then k + 1 else k, D[v], v)
  }

  /** The walk over v's predecessors would give v's immed_dom again. */
  ghost predicate Stable(G: Graph, D: DomMap, v: nat) {
    v < |D| && (D[v] == 0 || (D[v] > 0 && forall u: nat ::
        u < |D| && Edge(G, u, v) && D[u] >= 0 ==> OnChain(D, D[v], u)))
  }

  /** y is what the walk over v's predecessors computes. */
  ghost predicate NewIdom(G: Graph, D: DomMap, v: nat, y: nat) {
    && (forall u: nat :: u < |D| && Edge(G, u, v) && D[u] >= 0 ==> OnChain(D, y, u))
    && (forall w: nat :: (forall u: nat :: u < |D| && Edge(G, u, v) && D[u] >= 0 ==> OnChain(D, w, u)) ==>
        OnChain(D, w, y))
  }

  lemma {:induction false} DominatorOnChain(G: Graph, D: DomMap, d: nat, v: nat)
    requires DomMapOk(D) && |D| == |G| && KeepsDominators(G, D)
    requires v < |D| && D[v] >= 0 && Dominates(G, d, v)
    ensures OnChain(D, d, v)
    decreases v
  {
    if v == 0 {
      assert PathBetween(G, 0, [0], 0);
    } else if d != v {
      DominatorOnChain(G, D, d, D[v]);
    }
  }

  lemma {:induction false} DominatesAlongChain(G: Graph, D: DomMap, d: nat, z: nat, v: nat)
    requires DomMapOk(D) && |D| == |G| && KeepsDominators(G, D)
    requires v < |D| && D[v] >= 0 && Dominates(G, d, v)
    requires OnChain(D, z, v) && d <= z
    ensures Dominates(G, d, z)
    decreases v
  {
    if z != v {
      ChainBelow(D, z, D[v]);
      DominatesAlongChain(G, D, d, z, D[v]);
    }
  }

  lemma KeepsDominatorsStep(G: Graph, D: DomMap, v: nat, y: nat)
    requires DomMapOk(D) && |D| == |G| && KeepsDominators(G, D) && ReversePostorder(G)
    requires 0 < v < |D| && NewIdom(G, D, v, y)
    requires exists u: nat :: u < |D| && Edge(G, u, v) && D[u] >= 0
    ensures y < |D| && KeepsDominators(G, D[v := y])
  {
    var u: nat :| u < |D| && Edge(G, u, v) && D[u] >= 0;
    ChainSet(D, y, u);
    forall d: nat | StrictlyDominates(G, d, v) ensures Dominates(G, d, y) {
      forall w: nat | w < |D| && Edge(G, w, v) && D[w] >= 0 ensures OnChain(D, d, w) {
        StrictDominatorOfSuccessor(G, d, w, v);
        DominatorOnChain(G, D, d, w);
      }
      ChainBelow(D, d, y);
      StrictDominatorOfSuccessor(G, d, u, v);
      DominatesAlongChain(G, D, d, y, u);
    }
  }

  lemma {:induction false} ChainWithin(G: Graph, D: DomMap, k: nat, i: nat, a: nat, v: nat)
    requires DomMapOk(D) && Within(G, D, k, i)
    requires v < |D| && D[v] >= 0 && OnChain(D, a, v)
    ensures DominatesWithin(G, k, a, v)
    decreases v
  {
    if a != v {
      ChainWithin(G, D, k, i, a, D[v]);
      WithinTrans(G, k, a, D[v], v);
    }
  }

  lemma WithinStep(G: Graph, D: DomMap, k: nat, i: nat, v: nat, y: nat)
    requires DomMapOk(D) && |D| == |G| && Within(G, D, k, i)
    requires WellFormed(G) && 0 < v < |D|
    requires forall u: nat :: u < |D| && Edge(G, u, v) && D[u] >= 0 ==> OnChain(D, y, u)
    requires k > 0 ==> AllSet(D)
    ensures DominatesWithin(G, k + 1, y, v)
  {
    forall p | PathBetween(G, 0, p, v) && |p| <= k + 2 ensures y in p {
      var u := p[|p| - 2];
      assert Edge(G, u, p[|p| - 2 + 1]);
      PathPrefix(G, 0, p, v, |p| - 2);
      assert D[u] >= 0;
      ChainWithin(G, D, k, i, y, u);
      assert y in p[..|p| - 1];
    }
  }

  lemma {:induction false} StableWithin(G: Graph, D: DomMap, k: nat)
    requires DomMapOk(D) && |D| == |G| && WellFormed(G) && AllSet(D)
    requires forall v :: 0 < v < |D| ==> Stable(G, D, v)
    ensures Within(G, D, k, 0)
    decreases k
  {
    forall v | 0 < v < |D| ensures DominatesWithin(G, k, D[v], v) {
      if D[v] != 0 && k > 0 {
        StableWithin(G, D, k - 1);
        assert Stable(G, D, v);
        WithinStep(G, D, k - 1, 0, v, D[v]);
      }
    }
  }

  lemma ImmediateFromWithin(G: Graph, D: DomMap, k: nat, v: nat)
    requires DomMapOk(D) && |D| == |G| && WellFormed(G) && |G| <= k + 1
    requires KeepsDominators(G, D)
    requires 0 < v < |D| && D[v] >= 0 && DominatesWithin(G, k, D[v], v)
    ensures ImmediateDominator(G, D[v], v)
  {
    DominatesWithinEnough(G, k, D[v], v);
  }

  /** A pass that changes nothing has found every immediate dominator. */
  lemma StableIsImmediate(G: Graph, D: DomMap)
    requires DomMapOk(D) && |D| == |G| && WellFormed(G) && AllSet(D) && KeepsDominators(G, D)
    requires forall v :: 0 < v < |D| ==> Stable(G, D, v)
    ensures forall v :: 0 < v < |D| ==> ImmediateDominator(G, D[v], v)
  {
    StableWithin(G, D, |G|);
    forall v | 0 < v < |D| ensures ImmediateDominator(G, D[v], v) {
      ImmediateFromWithin(G, D, |G|, v);
    }
  }

  /** After as many passes as there are blocks, a pass changes nothing. */
  lemma LatePassStable(G: Graph, D: DomMap, k: nat, i: nat, v: nat, y: nat)
    requires DomMapOk(D) && |D| == |G| && ReversePostorder(G) && AllSet(D) && KeepsDominators(G, D)
    requires Within(G, D, k, i) && |G| <= k
    requires 0 < v < |D| && y < v && NewIdom(G, D, v, y)
    ensures y == D[v]
  {
    ImmediateFromWithin(G, D, if v < i then k + 1 else k, v);
    WithinStep(G, D, k, i, v, y);
    assert EarlierPredecessor(G, v);
    var u: nat :| u < v && Edge(G, u, v);
    KeepsDominatorsStep(G, D, v, y);
    var D' := D[v := y];
    ImmediateFromWithin(G, D', k + 1, v);
    ImmediateDominatorUnique(G, y, D[v], v);
  }

  // ----- the algorithm

  /** The immed_dom fields of the blocks spell D, and the index fields are positions. */
  ghost predicate SpellsDomMap(bl: seq<FlowBlock>, D: DomMap)
    reads bl`index, bl`immedDom
  {
    && |D| == |bl|
    && DomMapOk(D)
    && (forall v :: 0 <= v < |bl| ==> bl[v].index == v)
    && (forall v :: 0 <= v < |bl| ==>
          if D[v] < 0 then bl[v].immedDom == null
          else D[v] < |bl| && bl[v].immedDom == bl[D[v]])
  }

  ghost predicate IsPostorder(postorder: seq<FlowBlock>, bl: seq<FlowBlock>) {
    |postorder| == |bl| && forall k :: 0 <= k < |bl| ==> postorder[k] == bl[|bl| - 1 - k]
  }

  function Postorder(bl: seq<FlowBlock>): (r: seq<FlowBlock>)
    ensures IsPostorder(r, bl)
  {
    seq(|bl|, k requires 0 <= k < |bl| => bl[|bl| - 1 - k])
  }

  /** a is on x's chain, b on y's, and no common element of the two chains has been passed. */
  ghost predicate Fingers(D: DomMap, a: int, b: int, x: nat, y: nat) {
    && 0 <= a < |D| && D[a] >= 0 && OnChain(D, a, x)
    && 0 <= b < |D| && D[b] >= 0 && OnChain(D, b, y)
    && forall w: nat :: OnChain(D, w, x) && OnChain(D, w, y) ==> OnChain(D, w, a) && OnChain(D, w, b)
  }

  /** Moving the larger finger up loses no common chain element. */
  lemma FingerUp(D: DomMap, a: nat, b: nat, x: nat, y: nat)
    requires DomMapOk(D) && Fingers(D, a, b, x, y)
    ensures b < a ==> D[a] < a && Fingers(D, D[a], b, x, y)
    ensures a < b ==> D[b] < b && Fingers(D, a, D[b], x, y)
  {
    forall w: nat | OnChain(D, w, x) && OnChain(D, w, y) ensures w <= a && w <= b {
      ChainBelow(D, w, a);
      ChainBelow(D, w, b);
    }
    if b < a {
      assert OnChain(D, D[a], a);
      ChainTrans(D, D[a], a, x);
    } else if a < b {
      assert OnChain(D, D[b], b);
      ChainTrans(D, D[b], b, y);
    }
  }

  lemma ImmedDomIndex(bl: seq<FlowBlock>, postorder: seq<FlowBlock>, D: DomMap, finger: nat)
    requires SpellsDomMap(bl, D) && IsPostorder(postorder, bl)
    requires finger < |bl| && D[|bl| - 1 - finger] >= 0
    ensures postorder[finger].immedDom != null
    ensures postorder[finger].immedDom.index == D[|bl| - 1 - finger]
  {
  }

  /** Move the finger with the larger reverse postorder index up its chain until the two meet. */
  method WalkFingers(bl: seq<FlowBlock>, postorder: seq<FlowBlock>, ghost D: DomMap, x: FlowBlock, y: FlowBlock)
      returns (z: FlowBlock)
    requires SpellsDomMap(bl, D) && IsPostorder(postorder, bl)
    requires x in bl && y in bl && x.immedDom != null && y.immedDom != null
    ensures z in bl && x.index >= 0 && y.index >= 0 && z.index >= 0
    ensures z.immedDom != null && NearestCommon(D, z.index, x.index, y.index)
  {
    var numnodes := |postorder| - 1;
    var finger1, finger2 := numnodes - x.index, numnodes - y.index;
    ghost var xi, yi := x.index, y.index;
    assert Fingers(D, xi, yi, xi, yi);
    while finger1 != finger2
      invariant Fingers(D, numnodes - finger1, numnodes - finger2, xi, yi)
      decreases numnodes - finger1 + numnodes - finger2
    {
      while finger1 < finger2
        invariant Fingers(D, numnodes - finger1, numnodes - finger2, xi, yi)
        decreases numnodes - finger1
      {
        FingerUp(D, numnodes - finger1, numnodes - finger2, xi, yi);
        ImmedDomIndex(bl, postorder, D, finger1);
        finger1 := numnodes - postorder[finger1].immedDom.index;
      }
      while finger2 < finger1
        invariant Fingers(D, numnodes - finger1, numnodes - finger2, xi, yi)
        decreases numnodes - finger2
      {
        FingerUp(D, numnodes - finger1, numnodes - finger2, xi, yi);
        ImmedDomIndex(bl, postorder, D, finger2);
        finger2 := numnodes - postorder[finger2].immedDom.index;
      }
    }
    z := postorder[finger1];
  }

  /** y is what the walk over the first j of the predecessors ps computes. */
  ghost predicate PartialIdom(D: DomMap, ps: seq<nat>, j: nat, y: nat)
    requires j <= |ps| && forall k :: 0 <= k < |ps| ==> ps[k] < |D|
  {
    && (forall k :: 0 <= k < j && D[ps[k]] >= 0 ==> OnChain(D, y, ps[k]))
    && (forall w: nat :: OnAll(D, ps, j, w) ==> OnChain(D, w, y))
  }

  ghost predicate OnAll(D: DomMap, ps: seq<nat>, j: nat, w: nat)
    requires j <= |ps| && forall k :: 0 <= k < |ps| ==> ps[k] < |D|
  {
    forall k :: 0 <= k < j && D[ps[k]] >= 0 ==> OnChain(D, w, ps[k])
  }

  lemma PartialStep(D: DomMap, ps: seq<nat>, j: nat, y: nat, z: nat)
    requires j < |ps| && forall k :: 0 <= k < |ps| ==> ps[k] < |D|
    requires PartialIdom(D, ps, j, y) && D[ps[j]] >= 0 && NearestCommon(D, z, ps[j], y)
    ensures PartialIdom(D, ps, j + 1, z)
  {
    forall k | 0 <= k < j + 1 && D[ps[k]] >= 0 ensures OnChain(D, z, ps[k]) {
      if k < j { ChainTrans(D, z, y, ps[k]); }
    }
    forall w: nat | OnAll(D, ps, j + 1, w) ensures OnChain(D, w, z) {
      assert OnAll(D, ps, j, w);
      assert OnChain(D, w, ps[j]);
    }
  }

  lemma PartialDone(G: Graph, D: DomMap, ps: seq<nat>, v: nat, y: nat)
    requires forall k :: 0 <= k < |ps| ==> ps[k] < |D|
    requires forall u: nat :: u in ps <==> Edge(G, u, v)
    requires PartialIdom(D, ps, |ps|, y)
    ensures NewIdom(G, D, v, y)
  {
    forall w: nat | forall u: nat :: u < |D| && Edge(G, u, v) && D[u] >= 0 ==> OnChain(D, w, u)
      ensures OnChain(D, w, y)
    {
      forall k | 0 <= k < |ps| && D[ps[k]] >= 0 ensures OnChain(D, w, ps[k]) {
        assert ps[k] in ps;
      }
      assert OnAll(D, ps, |ps|, w);
    }
  }

  /** What the in-edges of b say about the predecessors ps and their immed_dom. */
  ghost predicate PredecessorsOf(bl: seq<FlowBlock>, D: DomMap, b: FlowBlock, ps: seq<nat>)
    reads bl, b
  {
    && |b.inn| == |ps|
    && forall k :: 0 <= k < |ps| ==>
         && ps[k] < |D| && b.inn[k].point in bl && b.inn[k].point.index == ps[k]
         && (b.inn[k].point.immedDom == null <==> D[ps[k]] < 0)
  }

  /** The first predecessor that has an immed_dom. */
  method FirstPredecessor(bl: seq<FlowBlock>, b: FlowBlock, ghost D: DomMap, ghost ps: seq<nat>) returns (j: nat)
    requires PredecessorsOf(bl, D, b, ps)
    requires exists k :: 0 <= k < |ps| && D[ps[k]] >= 0
    ensures j < |ps| && D[ps[j]] >= 0
    ensures forall k :: 0 <= k < j ==> D[ps[k]] < 0
  {
    ghost var s :| 0 <= s < |ps| && D[ps[s]] >= 0;
    j := 0;
    while b.inn[j].point.immedDom == null
      invariant 0 <= j <= s
      invariant forall k :: 0 <= k < j ==> D[ps[k]] < 0
      decreases s - j
    {
      assert D[ps[j]] < 0;
      j := j + 1;
    }
  }

  /** The scan over the in-edges of b: start from the first predecessor that has
      an immed_dom and walk it together with every later one. */
  method ScanPredecessors(bl: seq<FlowBlock>, postorder: seq<FlowBlock>, b: FlowBlock, ghost D: DomMap,
      ghost ps: seq<nat>)
      returns (newIdom: FlowBlock)
    requires SpellsDomMap(bl, D) && IsPostorder(postorder, bl)
    requires PredecessorsOf(bl, D, b, ps)
    requires exists k :: 0 <= k < |ps| && D[ps[k]] >= 0
    ensures newIdom in bl && newIdom.index >= 0
    ensures PartialIdom(D, ps, |ps|, newIdom.index)
  {
    var j := FirstPredecessor(bl, b, D, ps);
    newIdom := b.inn[j].point;
    FirstPartial(D, ps, j);
    j := j + 1;
    while j < |b.inn|
      invariant 1 <= j <= |ps|
      invariant newIdom in bl && newIdom.index >= 0 && newIdom.immedDom != null
      invariant PartialIdom(D, ps, j, newIdom.index)
    {
      var rho := b.inn[j].point;
      if rho.immedDom != null {
        ghost var y := newIdom.index;
        newIdom := WalkFingers(bl, postorder, D, rho, newIdom);
        PartialStep(D, ps, j, y, newIdom.index);
      } else {
        PartialSkip(D, ps, j, newIdom.index);
      }
      j := j + 1;
    }
  }

  lemma FirstPartial(D: DomMap, ps: seq<nat>, j: nat)
    requires j < |ps| && forall k :: 0 <= k < |ps| ==> ps[k] < |D|
    requires D[ps[j]] >= 0 && forall k :: 0 <= k < j ==> D[ps[k]] < 0
    ensures PartialIdom(D, ps, j + 1, ps[j])
  {
    forall w: nat | OnAll(D, ps, j + 1, w) ensures OnChain(D, w, ps[j]) {
    }
  }

  lemma PartialSkip(D: DomMap, ps: seq<nat>, j: nat, y: nat)
    requires j < |ps| && forall k :: 0 <= k < |ps| ==> ps[k] < |D|
    requires PartialIdom(D, ps, j, y) && D[ps[j]] < 0
    ensures PartialIdom(D, ps, j + 1, y)
  {
    forall w: nat | OnAll(D, ps, j + 1, w) ensures OnChain(D, w, y) {
      assert OnAll(D, ps, j, w);
    }
  }

  /** The state of pass number k + 1 when the blocks below v have been visited. */
  ghost predicate PassState(G: Graph, D: DomMap, k: nat, v: nat, changed: bool) {
    && ReversePostorder(G)
    && |D| == |G| && v <= |G|
    && DomMapOk(D)
    && KeepsDominators(G, D)
    && Within(G, D, k, v)
    && (forall u :: 0 <= u < v ==> D[u] >= 0)
    && (k > 0 ==> AllSet(D))
    && (!changed ==> forall u :: 0 < u < v ==> Stable(G, D, u))
    && (k >= |G| ==> !changed)
  }

  lemma PassSkip(G: Graph, D: DomMap, k: nat, v: nat, changed: bool)
    requires PassState(G, D, k, v, changed) && 0 < v < |G| && D[v] == 0
    ensures PassState(G, D, k, v + 1, changed)
  {
    assert DominatesWithin(G, k + 1, 0, v);
  }

  lemma EarlierIsSet(G: Graph, D: DomMap, k: nat, v: nat, changed: bool) returns (u: nat)
    requires PassState(G, D, k, v, changed) && 0 < v < |G|
    ensures u < v && Edge(G, u, v) && D[u] >= 0
  {
    assert EarlierPredecessor(G, v);
    u :| u < v && Edge(G, u, v);
  }

  lemma PassStep(G: Graph, D: DomMap, k: nat, v: nat, changed: bool, y: nat)
    requires PassState(G, D, k, v, changed) && 0 < v < |G| && D[v] != 0
    requires NewIdom(G, D, v, y)
    ensures y < v && PassState(G, D[v := y], k, v + 1, changed || D[v] != y)
  {
    StepKeeps(G, D, k, v, changed, y);
    StepWithin(G, D, k, v, changed, y);
    if k >= |G| { LatePassStable(G, D, k, v, v, y); }
    if D[v] == y { assert D[v := y] == D; }
  }

  lemma StepKeeps(G: Graph, D: DomMap, k: nat, v: nat, changed: bool, y: nat)
    requires PassState(G, D, k, v, changed) && 0 < v < |G| && NewIdom(G, D, v, y)
    ensures y < v && DomMapOk(D[v := y]) && KeepsDominators(G, D[v := y])
  {
    var u := EarlierIsSet(G, D, k, v, changed);
    ChainBelow(D, y, u);
    ChainSet(D, y, u);
    KeepsDominatorsStep(G, D, v, y);
  }

  lemma StepWithin(G: Graph, D: DomMap, k: nat, v: nat, changed: bool, y: nat)
    requires PassState(G, D, k, v, changed) && 0 < v < |G| && NewIdom(G, D, v, y) && y < v
    ensures Within(G, D[v := y], k, v + 1)
  {
    WithinStep(G, D, k, v, v, y);
  }

  /** The map before the first pass: the entry and its successors point to the entry. */
  ghost function InitialMap(G: Graph): (D: DomMap)
    requires |G| > 0
    ensures |D| == |G|
  {
    seq(|G|, v requires 0 <= v < |G| => if v == 0 || v in G[0] then 0 else -1)
  }

  lemma InitialState(G: Graph)
    requires ReversePostorder(G)
    ensures PassState(G, InitialMap(G), 0, 1, false)
  {
    var D := InitialMap(G);
    forall v, d: nat | 0 < v < |D| && D[v] >= 0 && StrictlyDominates(G, d, v) ensures Dominates(G, d, D[v]) {
      assert PathBetween(G, 0, [0, v], v);
    }
  }

  /** After a pass that changed something, the state of the next pass. */
  lemma NextPass(G: Graph, D: DomMap, k: nat)
    requires PassState(G, D, k, |G|, true)
    ensures PassState(G, D, k + 1, 1, false)
  {
  }

  ghost predicate ImmedDomIsRight(bl: seq<FlowBlock>, G: Graph, v: nat)
    requires v < |bl|
    reads bl`immedDom
  {
    && bl[v].immedDom != null
    && exists d: nat :: d < v && bl[d] == bl[v].immedDom && ImmediateDominator(G, d, v)
  }

  /** Everything but the immed_dom fields that the algorithm reads. */
  ghost predicate Ordered(bl: seq<FlowBlock>, G: Graph, P: Graph)
    reads bl`out, bl`inn, bl`index
  {
    && Represents(bl, G) && RepresentsIn(bl, P) && Transposed(G, P)
    && forall v :: 0 <= v < |bl| ==> bl[v].index == v
  }

  /** Fill in the immed_dom fields of the blocks bl, which stand in reverse postorder. */
  method CalcForwardDominator(bl: seq<FlowBlock>, rootCount: nat, ghost G: Graph, ghost P: Graph)
      returns (status: Status)
    requires Ordered(bl, G, P)
    requires |bl| > 0 ==> ReversePostorder(G)
    modifies bl`immedDom
    ensures status.Error? <==> |bl| > 0 && (rootCount > 1 || |P[0]| > 0)
    ensures rootCount > 1 ==> forall b :: b in bl ==> b.immedDom == old(b.immedDom)
    ensures status.Done? && |bl| > 0 ==> bl[0].immedDom == null
    ensures status.Done? ==> forall v :: 0 < v < |bl| ==> ImmedDomIsRight(bl, G, v)
  {
    if |bl| == 0 { return Done; }
    if rootCount > 1 { return Error("we are not support rootlist.size() exceed 1"); }

    var numnodes := |bl| - 1;
    var postorder := Postorder(bl);
    ClearImmedDom(bl);
    var b := postorder[numnodes];
    if |b.inn| > 0 { return Error("entry node in edge error"); }

    ghost var D := MarkEntry(bl, G, P);
    InitialState(G);
    D := Iterate(bl, postorder, G, P, D);
    FinishEntry(bl, G, D);
    status := Done;
  }

  /** The entry ends without an immediate dominator. */
  method FinishEntry(bl: seq<FlowBlock>, ghost G: Graph, ghost D: DomMap)
    requires |bl| > 0 && Distinct(bl) && SpellsDomMap(bl, D) && AllSet(D)
    requires forall v :: 0 < v < |bl| ==> ImmediateDominator(G, D[v], v)
    modifies {bl[0]}`immedDom
    ensures bl[0].immedDom == null
    ensures forall v :: 0 < v < |bl| ==> ImmedDomIsRight(bl, G, v)
  {
    DistinctPositions(bl);
    bl[0].immedDom := null;
    forall v | 0 < v < |bl| ensures ImmedDomIsRight(bl, G, v) {
      assert bl[v] != bl[0];
      assert D[v] < v && bl[D[v]] == bl[v].immedDom;
    }
  }

  method ClearImmedDom(bl: seq<FlowBlock>)
    modifies bl`immedDom
    ensures forall v :: 0 <= v < |bl| ==> bl[v].immedDom == null
  {
    var i := 0;
    while i < |bl|
      invariant 0 <= i <= |bl|
      invariant forall v :: 0 <= v < i ==> bl[v].immedDom == null
    {
      bl[i].immedDom := null;
      i := i + 1;
    }
  }

  /** The entry and its successors get the entry as immed_dom. */
  method MarkEntry(bl: seq<FlowBlock>, ghost G: Graph, ghost P: Graph) returns (ghost D: DomMap)
    requires Ordered(bl, G, P) && ReversePostorder(G) && |P[0]| == 0
    requires forall v :: 0 <= v < |bl| ==> bl[v].immedDom == null
    modifies bl`immedDom
    ensures D == InitialMap(G) && SpellsDomMap(bl, D)
  {
    var b := bl[0];
    DistinctPositions(bl);
    b.immedDom := b;
    D := InitialMap(G);
    var i := 0;
    while i < |b.out|
      invariant 0 <= i <= |b.out|
      invariant forall v :: 0 <= v < |bl| ==> bl[v].immedDom == if v == 0 || v in G[0][..i] then b else null
    {
      b.out[i].point.immedDom := b;
      assert G[0][..i + 1] == G[0][..i] + [G[0][i]];
      i := i + 1;
    }
    assert G[0][..i] == G[0];
  }

  /** Passes until one changes nothing; there are at most |bl| + 1 of them. */
  method Iterate(bl: seq<FlowBlock>, postorder: seq<FlowBlock>, ghost G: Graph, ghost P: Graph, ghost D0: DomMap)
      returns (ghost D: DomMap)
    requires Ordered(bl, G, P) && IsPostorder(postorder, bl)
    requires SpellsDomMap(bl, D0) && PassState(G, D0, 0, 1, false)
    modifies bl`immedDom
    ensures SpellsDomMap(bl, D) && AllSet(D)
    ensures forall v :: 0 < v < |bl| ==> ImmediateDominator(G, D[v], v)
  {
    D := D0;
    var changed := true;
    ghost var k := 0;
    while changed
      invariant SpellsDomMap(bl, D)
      invariant changed ==> k <= |bl| && PassState(G, D, k, 1, false)
      invariant !changed ==> AllSet(D) && forall v :: 0 < v < |bl| ==> ImmediateDominator(G, D[v], v)
      decreases if changed then |bl| + 1 - k else 0
    {
      D, changed := OnePass(bl, postorder, G, P, D, k);
      if changed { NextPass(G, D, k); } else { StableIsImmediate(G, D); }
      k := k + 1;
    }
  }

  /** One pass over all blocks but the entry, in reverse postorder. */
  method OnePass(bl: seq<FlowBlock>, postorder: seq<FlowBlock>, ghost G: Graph, ghost P: Graph, ghost D0: DomMap,
      ghost k: nat)
      returns (ghost D: DomMap, changed: bool)
    requires Ordered(bl, G, P) && IsPostorder(postorder, bl)
    requires SpellsDomMap(bl, D0) && PassState(G, D0, k, 1, false)
    modifies bl`immedDom
    ensures SpellsDomMap(bl, D) && PassState(G, D, k, |bl|, changed)
  {
    D, changed := D0, false;
    var i := |postorder| - 2;
    ghost var v := 1;
    while i >= 0
      invariant -1 <= i <= |bl| - 2 && v == |bl| - 1 - i
      invariant SpellsDomMap(bl, D)
      invariant PassState(G, D, k, v, changed)
    {
      D, changed := Visit(bl, postorder, i, changed, G, P, D, k, v);
      i, v := i - 1, v + 1;
    }
  }

  /** The visit of one block within a pass. */
  method Visit(bl: seq<FlowBlock>, postorder: seq<FlowBlock>, i: nat, changed0: bool,
               ghost G: Graph, ghost P: Graph, ghost D0: DomMap, ghost k: nat, ghost v: nat)
      returns (ghost D: DomMap, changed: bool)
    requires Ordered(bl, G, P) && IsPostorder(postorder, bl) && i < |bl| - 1 && v == |bl| - 1 - i
    requires SpellsDomMap(bl, D0) && PassState(G, D0, k, v, changed0)
    modifies bl`immedDom
    ensures SpellsDomMap(bl, D) && PassState(G, D, k, v + 1, changed)
  {
    var b := postorder[i];
    if b.immedDom == postorder[|postorder| - 1] {
      D, changed := D0, changed0;
      SkipEntryChild(bl, G, D, k, v, changed);
    } else {
      D, changed := VisitBlock(bl, postorder, b, changed0, G, P, D0, k, v);
    }
  }

  lemma SkipEntryChild(bl: seq<FlowBlock>, G: Graph, D: DomMap, k: nat, v: nat, changed: bool)
    requires Distinct(bl) && SpellsDomMap(bl, D) && PassState(G, D, k, v, changed) && 0 < v < |bl| &&
        bl[v].immedDom == bl[0]
    ensures PassState(G, D, k, v + 1, changed)
  {
    DistinctPositions(bl);
    PassSkip(G, D, k, v, changed);
  }

  /** The visit of a block whose immed_dom is not the entry. */
  method VisitBlock(bl: seq<FlowBlock>, postorder: seq<FlowBlock>, b: FlowBlock, changed0: bool,
                    ghost G: Graph, ghost P: Graph, ghost D0: DomMap, ghost k: nat, ghost v: nat)
      returns (ghost D: DomMap, changed: bool)
    requires Ordered(bl, G, P) && IsPostorder(postorder, bl) && 0 < v < |bl| && b == bl[v] && b.immedDom != bl[0]
    requires SpellsDomMap(bl, D0) && PassState(G, D0, k, v, changed0)
    modifies bl`immedDom
    ensures SpellsDomMap(bl, D) && PassState(G, D, k, v + 1, changed)
  {
    HasSetPredecessor(bl, G, P, D0, k, v, changed0);
    var newIdom := ScanPredecessors(bl, postorder, b, D0, P[v]);
    PartialDone(G, D0, P[v], v, newIdom.index);
    PassStep(G, D0, k, v, changed0, newIdom.index);
    D, changed := D0[v := newIdom.index], changed0;
    DistinctPositions(bl);
    if b.immedDom != newIdom {
      b.immedDom := newIdom;
      changed := true;
    }
  }

  lemma HasSetPredecessor(bl: seq<FlowBlock>, G: Graph, P: Graph, D: DomMap, k: nat, v: nat, changed: bool)
    requires Ordered(bl, G, P) && SpellsDomMap(bl, D) && PassState(G, D, k, v, changed) && 0 < v < |bl|
    ensures PredecessorsOf(bl, D, bl[v], P[v])
    ensures exists j :: 0 <= j < |P[v]| && D[P[v][j]] >= 0
  {
    var u := EarlierIsSet(G, D, k, v, changed);
    assert u in P[v];
  }
}
