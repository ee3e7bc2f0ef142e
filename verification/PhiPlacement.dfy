/** Placement of phi nodes: a bucket queue that gives out the deepest blocks first, and walks
    down the dominator tree.  Blocks stand for their positions; the graph and the immediate
    dominators are only read. */
module PhiPlacement {
  import opened Graphs
  import opened Sequences
  import opened Dominators
  import opened DominatorTree

  // ----- the bucket queue

  function Total(q: seq<seq<nat>>): nat {
    if q == [] then 0 else |q[0]| + Total(q[1..])
  }

  lemma {:induction false} TotalUpdate(q: seq<seq<nat>>, d: nat, row: seq<nat>)
    requires d < |q|
    ensures Total(q[d := row]) == Total(q) - |q[d]| + |row|
  {
    if d == 0 {
      assert q[0 := row][1..] == q[1..];
    } else {
      TotalUpdate(q[1..], d - 1, row);
      assert q[d := row][1..] == q[1..][d - 1 := row];
    }
  }

  lemma {:induction false} TotalEmpty(q: seq<seq<nat>>)
    requires forall d :: 0 <= d < |q| ==> q[d] == []
    ensures Total(q) == 0
  {
    if q != [] { TotalEmpty(q[1..]); }
  }

  /** curdepth is the deepest bucket that is not empty, or negative. */
  predicate QueueOk(queue: seq<seq<nat>>, curdepth: int) {
    && -2 <= curdepth < |queue|
    && (curdepth >= 0 ==> queue[curdepth] != [])
    && forall d :: 0 <= d < |queue| && d > curdepth ==> queue[d] == []
  }

  class PriorityQueue {
    var queue: seq<seq<nat>>
    var curdepth: int

    constructor ()
      ensures QueueOk(queue, curdepth) && queue == [] && curdepth == -2
    {
      queue, curdepth := [], -2;
    }

    method Reset(maxdepth: nat)
      requires QueueOk(queue, curdepth)
      modifies this
      ensures QueueOk(queue, curdepth) && curdepth == -1 && |queue| == maxdepth + 1
    {
      if curdepth == -1 && maxdepth == |queue| - 1 { return; }
      queue := seq(maxdepth + 1, _ => []);
      curdepth := -1;
    }

    method Insert(b: nat, depth: nat)
      requires QueueOk(queue, curdepth) && depth < |queue|
      modifies this
      ensures QueueOk(queue, curdepth)
      ensures queue == old(queue)[depth := old(queue)[depth] + [b]] &&
          curdepth == if depth > old(curdepth) then depth else old(curdepth)
    {
      queue := queue[depth := queue[depth] + [b]];
      if depth > curdepth { curdepth := depth; }
    }

    method Empty() returns (r: bool)
      requires QueueOk(queue, curdepth)
      ensures r == (curdepth == -1)
    {
      r := curdepth == -1;
    }

    /** The last block put into the deepest bucket that is not empty. */
    method Extract() returns (res: nat)
      requires QueueOk(queue, curdepth) && curdepth >= 0
      modifies this
      ensures QueueOk(queue, curdepth) && -1 <= curdepth <= old(curdepth) && |queue| == |old(queue)|
      ensures old(queue)[old(curdepth)] == queue[old(curdepth)] + [res]
      ensures queue == old(queue)[old(curdepth) := queue[old(curdepth)]]
    {
      var row := queue[curdepth];
      res := row[|row| - 1];
      queue := queue[curdepth := row[..|row| - 1]];
      ghost var rest := queue;
      while queue[curdepth] == []
        invariant 0 <= curdepth <= old(curdepth) && queue == rest
        invariant forall d :: 0 <= d < |queue| && d > curdepth ==> queue[d] == []
        decreases curdepth
      {
        curdepth := curdepth - 1;
        if curdepth < 0 { break; }
      }
    }
  }

  // ----- what a placement is about

  /** The graph, its immediate dominators, and the blocks that write. */
  datatype RawTask = Task(G: Graph, D: DomMap, W: set<nat>) {
    ghost predicate Valid() {
      WellFormed(G) && |D| == |G| && Upward(D) && forall w :: w in W ==> w < |G|
    }
  }

  type Task = y: RawTask | y.Valid() ghost witness Task([], [], {})

  function DepthOf(y: Task, v: nat): nat
    requires v < |y.G|
  {
    Depth(y.D, v)
  }

  /** Along c, every block is found from the one before. */
  ghost predicate FoundChain(y: Task, c: seq<nat>) {
    forall i {:trigger c[i]} :: 0 < i < |c| ==> Found(y.G, y.D, c[i - 1], c[i])
  }

  /** b is found from a block that writes, or from one that was found before. */
  ghost predicate Joined(y: Task, b: nat) {
    exists c :: |c| > 1 && c[0] in y.W && c[|c| - 1] == b && FoundChain(y, c)
  }

  lemma JoinedNext(y: Task, x: nat, b: nat)
    requires (x in y.W || Joined(y, x)) && Found(y.G, y.D, x, b)
    ensures Joined(y, b)
  {
    var c := [x];
    if x !in y.W { c :| |c| > 1 && c[0] in y.W && c[|c| - 1] == x && FoundChain(y, c); }
    var c1 := c + [b];
    forall i | 0 < i < |c1| ensures Found(y.G, y.D, c1[i - 1], c1[i]) {
      if i < |c| { assert c1[i] == c[i]; }
    }
    assert FoundChain(y, c1);
  }

  /** A set that holds what is found from W and from its own members holds all that is joined. */
  lemma {:induction false} JoinedWithin(y: Task, M: set<nat>, c: seq<nat>)
    requires forall x, b :: (x in y.W || x in M) && Found(y.G, y.D, x, b) ==> b in M
    requires |c| > 1 && c[0] in y.W && FoundChain(y, c)
    ensures c[|c| - 1] in M
    decreases |c|
  {
    var k := |c| - 1;
    if k > 1 {
      forall i | 0 < i < k ensures Found(y.G, y.D, c[..k][i - 1], c[..k][i]) { assert c[i] == c[..k][i]; }
      JoinedWithin(y, M, c[..k]);
    }
    assert Found(y.G, y.D, c[k - 1], c[k]);
  }

  // ----- the state

  datatype PhiFlag = BoundaryNode | MarkNode | MergedNode | VisitNode

  datatype State = State(flags: seq<set<PhiFlag>>, merge: seq<nat>, queue: seq<seq<nat>>, curdepth: int)

  ghost predicate Flagged(y: Task, st: State) {
    |st.flags| == |y.G| && forall v {:trigger st.flags[v]} :: 0 <= v < |y.G| ==>
      (MergedNode in st.flags[v] <==> v in st.merge) && (MarkNode in st.flags[v] <==> v in st.merge)
  }

  /** Every block stands in the bucket of its depth. */
  ghost predicate Bucketed(y: Task, st: State) {
    && QueueOk(st.queue, st.curdepth)
    && forall d, k :: 0 <= d < |st.queue| && 0 <= k < |st.queue[d]| ==> Placed(y, st.merge, d, st.queue[d][k])
  }

  ghost predicate Placed(y: Task, merge: seq<nat>, d: nat, b: nat) {
    b < |y.G| && DepthOf(y, b) == d && (b in y.W || b in merge)
  }

  ghost predicate Deep(y: Task, st: State) {
    forall v {:trigger DepthOf(y, v)} :: 0 <= v < |y.G| ==> DepthOf(y, v) < |st.queue|
  }

  ghost predicate Kept(y: Task, st: State) {
    && Flagged(y, st) && Bucketed(y, st) && Deep(y, st) && NoDuplicates(st.merge)
    && forall b {:trigger Joined(y, b)} :: b in st.merge ==> b < |y.G| && Joined(y, b)
  }

  ghost predicate Queued(y: Task, st: State, b: nat)
    requires b < |y.G|
  {
    DepthOf(y, b) < |st.queue| && b in st.queue[DepthOf(y, b)]
  }

  /** Every block that writes or was merged is in `done` or waits in the queue. */
  ghost predicate Tracked(y: Task, st: State, done: set<nat>) {
    forall b {:trigger Queued(y, st, b)} ::
        0 <= b < |y.G| && (b in y.W || b in st.merge) ==> b in done || Queued(y, st, b)
  }

  /** All that is found from the blocks in `done` was merged. */
  ghost predicate Covered(y: Task, merge: seq<nat>, done: set<nat>) {
    forall x, b {:trigger Found(y.G, y.D, x, b)} :: x in done && Found(y.G, y.D, x, b) ==> b in merge
  }

  ghost function Visited(st: State): set<nat> {
    set v | 0 <= v < |st.flags| && VisitNode in st.flags[v]
  }

  /** The join edges of v that do not lead below depth d were followed. */
  ghost predicate SweptAt(y: Task, merge: seq<nat>, d: nat, v: nat, n: nat)
    requires v < |y.G| && n <= |y.G[v]|
  {
    forall i :: 0 <= i < n ==> y.D[y.G[v][i]] == v || DepthOf(y, y.G[v][i]) > d || y.G[v][i] in merge
  }

  ghost predicate Swept(y: Task, merge: seq<nat>, d: nat, vis: set<nat>) {
    forall v {:trigger v in vis} :: v in vis ==> v < |y.G| && SweptAt(y, merge, d, v, |y.G[v]|)
  }

  /** The first n successors of v that it dominates immediately were visited. */
  ghost predicate ClosedAt(y: Task, vis: set<nat>, v: nat, n: nat)
    requires v < |y.G| && n <= |y.G[v]|
  {
    forall i :: 0 <= i < n && y.D[y.G[v][i]] == v ==> y.G[v][i] in vis
  }

  /** What was visited is closed under walks, except at the blocks still being visited. */
  ghost predicate Closed(y: Task, vis: set<nat>, gray: set<nat>) {
    forall v {:trigger v in vis} :: v in vis ==> v < |y.G| && (v in gray || ClosedAt(y, vis, v, |y.G[v]|))
  }

  lemma {:induction false} WalkVisited(y: Task, vis: set<nat>, x: nat, v: nat)
    requires Closed(y, vis, {}) && x in vis && Walk(y.G, y.D, x, v)
    ensures v in vis
    decreases v
  {
    if x != v {
      var u := y.D[v];
      WalkVisited(y, vis, x, u);
      var i :| 0 <= i < |y.G[u]| && y.G[u][i] == v;
      assert ClosedAt(y, vis, u, |y.G[u]|);
    }
  }

  /** A finished visit from cur has found all that is found from cur. */
  lemma NowCovered(y: Task, merge: seq<nat>, vis: set<nat>, cur: nat, done: set<nat>)
    requires cur < |y.G| && cur in vis && Closed(y, vis, {}) && Swept(y, merge, DepthOf(y, cur), vis) &&
        Covered(y, merge, done)
    ensures Covered(y, merge, done + {cur})
  {
    forall b: nat | Found(y.G, y.D, cur, b) ensures b in merge {
      var v: nat :| Walk(y.G, y.D, cur, v) && Edge(y.G, v, b) && y.D[b] != v;
      WalkVisited(y, vis, cur, v);
      var i :| 0 <= i < |y.G[v]| && y.G[v][i] == b;
      assert SweptAt(y, merge, DepthOf(y, cur), v, |y.G[v]|);
    }
  }

  /** When nothing waits, exactly what is joined was merged. */
  lemma AllMerged(y: Task, st: State, done: set<nat>)
    requires Kept(y, st) && Tracked(y, st, done) && Covered(y, st.merge, done) && st.curdepth == -1
    ensures forall b: nat :: b in st.merge <==> Joined(y, b)
  {
    var M := set b | b in st.merge;
    forall x, b | (x in y.W || x in M) && Found(y.G, y.D, x, b) ensures b in M {
      assert !Queued(y, st, x);
    }
    forall b: nat | Joined(y, b) ensures b in M {
      var c :| |c| > 1 && c[0] in y.W && c[|c| - 1] == b && FoundChain(y, c);
      JoinedWithin(y, M, c);
    }
  }

  // ----- steps of the state

  function Deeper(curdepth: int, d: nat): int {
    if d > curdepth then d else curdepth
  }

  /** Block b is merged and waits. */
  function WithJoin(st: State, b: nat, d: nat): State
    requires b < |st.flags| && d < |st.queue|
  {
    State(st.flags[b := st.flags[b] + {MergedNode, MarkNode}], st.merge + [b], st.queue[d := st.queue[d] + [b]],
        Deeper(st.curdepth, d))
  }

  function WithVisit(st: State, b: nat): State
    requires b < |st.flags|
  {
    st.(flags := st.flags[b := st.flags[b] + {VisitNode}])
  }

  ghost function Left(y: Task, st: State): int {
    Total(st.queue) + |y.G| - |st.merge|
  }

  lemma LeftNat(y: Task, st: State)
    requires Kept(y, st)
    ensures Left(y, st) >= 0
  {
    forall i | 0 <= i < |st.merge| ensures st.merge[i] < |y.G| { assert Joined(y, st.merge[i]); }
    Pigeonhole(st.merge, |y.G|);
  }

  /** The state while the blocks below cur are visited; p bounds what is left to do. */
  ghost predicate Going(y: Task, st: State, cur: nat, done: set<nat>, p: int) {
    && cur < |y.G| && Kept(y, st) && Tracked(y, st, done + {cur}) && Covered(y, st.merge, done)
    && (cur in y.W || cur in st.merge) && -1 <= st.curdepth <= DepthOf(y, cur) && Left(y, st) <= p
  }

  lemma JoinKeeps(y: Task, st: State, b: nat, d: nat)
    requires Kept(y, st) && b < |y.G| && d == DepthOf(y, b) && b !in st.merge && Joined(y, b)
    ensures d < |st.queue| && Kept(y, WithJoin(st, b, d))
  {
    var st' := WithJoin(st, b, d);
    assert st'.queue[d] == st.queue[d] + [b];
    assert Placed(y, st'.merge, d, b);
    forall e, k | 0 <= e < |st'.queue| && 0 <= k < |st'.queue[e]| ensures Placed(y, st'.merge, e, st'.queue[e][k]) {
      assert k < |st.queue[e]| ==> Placed(y, st.merge, e, st.queue[e][k]);
    }
    assert Bucketed(y, st');
    forall c | c in st'.merge ensures c < |y.G| && Joined(y, c) {
      if c != b { assert Joined(y, c); }
    }
    forall v | 0 <= v < |y.G| ensures (MergedNode in st'.flags[v] <==> v in st'.merge) &&
        (MarkNode in st'.flags[v] <==> v in st'.merge) {
      assert MergedNode in st.flags[v] <==> v in st.merge;
    }
  }

  lemma JoinGoes(y: Task, st: State, cur: nat, v: nat, i: nat, d: nat, done: set<nat>, p: int)
    requires Going(y, st, cur, done, p) && Walk(y.G, y.D, cur, v) && v < |y.G| && i < |y.G[v]|
    requires var b := y.G[v][i]; y.D[b] != v && d == DepthOf(y, b) <= DepthOf(y, cur) && b !in st.merge
    ensures d < |st.queue| && Going(y, WithJoin(st, y.G[v][i], d), cur, done, p)
  {
    var b := y.G[v][i];
    assert Edge(y.G, v, b);
    if cur !in y.W { assert Joined(y, cur); }
    JoinedNext(y, cur, b);
    JoinKeeps(y, st, b, d);
    var st' := WithJoin(st, b, d);
    TotalUpdate(st.queue, d, st.queue[d] + [b]);
    forall c | 0 <= c < |y.G| && (c in y.W || c in st'.merge) ensures c in done + {cur} || Queued(y, st', c) {
      if c != b { assert c in done + {cur} || Queued(y, st, c); }
    }
  }

  lemma VisitGoes(y: Task, st: State, b: nat, cur: nat, done: set<nat>, p: int)
    requires Going(y, st, cur, done, p) && b < |y.G|
    ensures Going(y, WithVisit(st, b), cur, done, p) && Visited(WithVisit(st, b)) == Visited(st) + {b}
  {
    var st' := WithVisit(st, b);
    forall c | 0 <= c < |y.G| && (c in y.W || c in st'.merge) ensures c in done + {cur} || Queued(y, st', c) {
      assert c in done + {cur} || Queued(y, st, c);
    }
    forall c | c in st'.merge ensures c < |y.G| && Joined(y, c) { assert Joined(y, c); }
  }

  // ----- the walk

  class Placement {
    var phiflags: seq<set<PhiFlag>>
    var domdepth: seq<nat>
    var merge: seq<nat>
    var maxdepth: nat
    const pq: PriorityQueue

    constructor ()
      ensures fresh(pq) && QueueOk(pq.queue, pq.curdepth)
    {
      phiflags, domdepth, merge, maxdepth := [], [], [], 0;
      pq := new PriorityQueue();
    }

    ghost function View(): State
      reads this`phiflags, this`merge, pq
    {
      State(phiflags, merge, pq.queue, pq.curdepth)
    }

    /** The depth vector is that of the dominator tree. */
    ghost predicate Depths(y: Task)
      reads this`domdepth, this`maxdepth
    {
      |domdepth| == |y.G| + 1 &&
          forall v {:trigger DepthOf(y, v)} :: 0 <= v < |y.G| ==> domdepth[v] == DepthOf(y, v) <= maxdepth
    }

    method Join(b: nat, ghost y: Task)
      requires Depths(y) && Kept(y, View()) && b < |y.G|
      modifies this`phiflags, this`merge, pq
      ensures View() == if b in old(merge) then old(View()) else WithJoin(old(View()), b, DepthOf(y, b))
    {
      var d := domdepth[b];
      ghost var f := View().flags[b];
      assert d == DepthOf(y, b) && (MergedNode in f <==> b in merge) && (MarkNode in f <==> b in merge);
      if MergedNode !in phiflags[b] {
        merge := merge + [b];
        phiflags := phiflags[b := phiflags[b] + {MergedNode}];
      }
      if MarkNode !in phiflags[b] {
        phiflags := phiflags[b := phiflags[b] + {MarkNode}];
        pq.Insert(b, d);
        assert f + {MergedNode} + {MarkNode} == f + {MergedNode, MarkNode};
        assert phiflags == old(phiflags)[b := f + {MergedNode, MarkNode}];
      }
    }

    /** The first loop of visit_dj: the join edges of v. */
    method FollowJoins(y: Task, cur: nat, v: nat, ghost done: set<nat>, ghost p: int, ghost vis: set<nat>)
      requires Depths(y) && Going(y, View(), cur, done, p) && v < |y.G| && Walk(y.G, y.D, cur, v)
      requires vis == Visited(View()) && Swept(y, merge, DepthOf(y, cur), vis - {v})
      modifies this`phiflags, this`merge, pq
      ensures Going(y, View(), cur, done, p) && vis == Visited(View()) && Swept(y, merge, DepthOf(y, cur), vis)
    {
      var i := 0;
      while i < |y.G[v]|
        invariant 0 <= i <= |y.G[v]| && Going(y, View(), cur, done, p) && vis == Visited(View())
        invariant Swept(y, merge, DepthOf(y, cur), vis - {v}) && SweptAt(y, merge, DepthOf(y, cur), v, i)
      {
        var out := y.G[v][i];
        i := i + 1;
        if y.D[out] == v { continue; }
        assert domdepth[out] == DepthOf(y, out) && domdepth[cur] == DepthOf(y, cur);
        if domdepth[out] <= domdepth[cur] {
          ghost var st := View();
          if out !in merge { JoinGoes(y, st, cur, v, i - 1, DepthOf(y, out), done, p); }
          Join(out, y);
        }
      }
      assert forall u {:trigger u in vis} :: u in vis ==> u == v || u in vis - {v};
    }

    method MarkVisited(b: nat, ghost y: Task, ghost cur: nat, ghost done: set<nat>, ghost p: int)
      requires Going(y, View(), cur, done, p) && b < |y.G|
      modifies this`phiflags
      ensures Going(y, View(), cur, done, p) && Visited(View()) == old(Visited(View())) + {b}
    {
      VisitGoes(y, View(), b, cur, done, p);
      phiflags := phiflags[b := phiflags[b] + {VisitNode}];
    }

    /** visit_dj.  gray are the blocks whose visit is not finished. */
    method VisitDj(y: Task, cur: nat, v: nat, ghost done: set<nat>, ghost p: int, ghost gray: set<nat>)
      requires Depths(y) && Going(y, View(), cur, done, p) && v < |y.G| && Walk(y.G, y.D, cur, v)
      requires v in Visited(View()) && Swept(y, merge, DepthOf(y, cur), Visited(View()) - {v}) &&
          Closed(y, Visited(View()), gray + {v})
      modifies this`phiflags, this`merge, pq
      ensures Going(y, View(), cur, done, p) && old(Visited(View())) <= Visited(View())
      ensures Swept(y, merge, DepthOf(y, cur), Visited(View())) && Closed(y, Visited(View()), gray)
      decreases |y.G| - v
    {
      ghost var vis0 := Visited(View());
      FollowJoins(y, cur, v, done, p, vis0);
      var i := 0;
      while i < |y.G[v]|
        invariant 0 <= i <= |y.G[v]| && Going(y, View(), cur, done, p) && vis0 <= Visited(View())
        invariant Swept(y, merge, DepthOf(y, cur), Visited(View())) && Closed(y, Visited(View()), gray + {v})
        invariant ClosedAt(y, Visited(View()), v, i)
      {
        var out := y.G[v][i];
        i := i + 1;
        if y.D[out] != v { continue; }
        if VisitNode !in phiflags[out] {
          ghost var vis := Visited(View());
          MarkVisited(out, y, cur, done, p);
          assert Visited(View()) - {out} == vis;
          assert Edge(y.G, v, out);
          VisitDj(y, cur, out, done, p, gray + {v});
        }
      }
    }

    /** The queue is made ready, and the blocks that write are put in. */
    method Begin(write: seq<nat>, ghost y: Task)
      requires Depths(y) && (forall k :: 0 <= k < |write| ==> write[k] < |y.G|) && y.W == (set b | b in write)
      requires QueueOk(pq.queue, pq.curdepth) && |phiflags| == |y.G|
      requires forall v :: 0 <= v < |phiflags| ==> phiflags[v] <= {BoundaryNode}
      modifies this`merge, pq
      ensures Kept(y, View()) && Tracked(y, View(), {}) && merge == [] && -1 <= pq.curdepth <= maxdepth &&
          Visited(View()) == {}
    {
      pq.Reset(maxdepth);
      merge := [];
      var i := 0;
      while i < |write|
        invariant 0 <= i <= |write| && merge == [] && pq.curdepth >= -1
        invariant Bucketed(y, View()) && |pq.queue| == maxdepth + 1
        invariant forall k :: 0 <= k < i ==> Queued(y, View(), write[k])
      {
        var b := write[i];
        assert domdepth[b] == DepthOf(y, b);
        QueueWrite(y, View(), b, domdepth[b]);
        pq.Insert(b, domdepth[b]);
        i := i + 1;
      }
    }

    /** The next block of the queue, and the walk from it. */
    method Round(y: Task, ghost done: set<nat>, ghost top: nat)
      requires Depths(y) && Kept(y, View()) && Tracked(y, View(), done) && Covered(y, merge, done)
      requires 0 <= pq.curdepth <= top && Swept(y, merge, top, Visited(View())) && Closed(y, Visited(View()), {})
      modifies this`phiflags, this`merge, pq
      ensures Kept(y, View()) && Left(y, View()) < old(Left(y, View())) && -1 <= pq.curdepth <= old(pq.curdepth)
      ensures Tracked(y, View(), done + {old(Next(pq.queue, pq.curdepth))}) &&
          Covered(y, merge, done + {old(Next(pq.queue, pq.curdepth))})
      ensures Swept(y, merge, old(pq.curdepth), Visited(View())) && Closed(y, Visited(View()), {})
    {
      ghost var st, p := View(), Left(y, View()) - 1;
      var bl := pq.Extract();
      ExtractGoes(y, st, View(), bl, done);
      ghost var vis := Visited(View());
      MarkVisited(bl, y, bl, done, p);
      SweptLess(y, merge, top, DepthOf(y, bl), vis);
      VisitDj(y, bl, bl, done, p, {});
      NowCovered(y, merge, Visited(View()), bl, done);
    }

    /** calc_phi_placement3: exactly what is found from the blocks that write, each block once. */
    method CalcPhiPlacement3(y: Task, write: seq<nat>)
      requires Depths(y) && (forall k :: 0 <= k < |write| ==> write[k] < |y.G|) && y.W == (set b | b in write)
      requires QueueOk(pq.queue, pq.curdepth) && |phiflags| == |y.G|
      requires forall v :: 0 <= v < |phiflags| ==> phiflags[v] <= {BoundaryNode}
      modifies this`phiflags, this`merge, pq
      ensures NoDuplicates(merge) && forall b: nat :: b in merge <==> Joined(y, b)
      ensures |phiflags| == |y.G| && (forall v :: 0 <= v < |phiflags| ==> phiflags[v] == {})
      ensures QueueOk(pq.queue, pq.curdepth) && pq.curdepth == -1
    {
      Begin(write, y);
      ghost var done: set<nat>, top: nat := {}, maxdepth;
      var empty := pq.Empty();
      while !empty
        invariant empty == (pq.curdepth == -1)
        invariant Kept(y, View()) && Tracked(y, View(), done) && Covered(y, merge, done)
        invariant -1 <= pq.curdepth <= top && Swept(y, merge, top, Visited(View())) && Closed(y, Visited(View()), {})
        decreases Left(y, View())
      {
        LeftNat(y, View());
        ghost var d := pq.curdepth;
        done := done + {Next(pq.queue, pq.curdepth)};
        Round(y, done - {Next(pq.queue, pq.curdepth)}, top);
        top := d;
        empty := pq.Empty();
      }
      AllMerged(y, View(), done);
      ClearFlags();
    }

    method ClearFlags()
      modifies this`phiflags
      ensures |phiflags| == old(|phiflags|) && forall v :: 0 <= v < |phiflags| ==> phiflags[v] == {}
    {
      var i := 0;
      while i < |phiflags|
        invariant 0 <= i <= |phiflags| == old(|phiflags|)
        invariant forall v :: 0 <= v < i ==> phiflags[v] == {}
      {
        phiflags := phiflags[i := {}];
        i := i + 1;
      }
    }
  }

  // ----- the rounds

  ghost function Next(queue: seq<seq<nat>>, curdepth: int): nat
    requires QueueOk(queue, curdepth) && curdepth >= 0
  {
    queue[curdepth][|queue[curdepth]| - 1]
  }

  lemma QueueWrite(y: Task, st: State, b: nat, d: nat)
    requires Bucketed(y, st) && b < |y.G| && d == DepthOf(y, b) < |st.queue| && b in y.W
    ensures var st' := st.(queue := st.queue[d := st.queue[d] + [b]], curdepth := Deeper(st.curdepth, d));
      Bucketed(y, st') && Queued(y, st', b) &&
          forall c {:trigger Queued(y, st, c)} :: 0 <= c < |y.G| && Queued(y, st, c) ==> Queued(y, st', c)
  {
    var st' := st.(queue := st.queue[d := st.queue[d] + [b]], curdepth := Deeper(st.curdepth, d));
    assert st'.queue[d] == st.queue[d] + [b];
    assert Placed(y, st'.merge, d, b);
    forall e, k | 0 <= e < |st'.queue| && 0 <= k < |st'.queue[e]| ensures Placed(y, st'.merge, e, st'.queue[e][k]) {
      assert k < |st.queue[e]| ==> Placed(y, st.merge, e, st.queue[e][k]);
    }
  }

  /** Taking the next block out of the queue starts its visit. */
  lemma ExtractGoes(y: Task, st: State, st': State, b: nat, done: set<nat>)
    requires Kept(y, st) && Tracked(y, st, done) && Covered(y, st.merge, done) && st.curdepth >= 0
    requires QueueOk(st'.queue, st'.curdepth) && -1 <= st'.curdepth <= st.curdepth && |st'.queue| == |st.queue|
    requires st.queue[st.curdepth] == st'.queue[st.curdepth] + [b] &&
        st'.queue == st.queue[st.curdepth := st'.queue[st.curdepth]]
    requires st'.flags == st.flags && st'.merge == st.merge
    ensures b < |y.G| && DepthOf(y, b) == st.curdepth && b == Next(st.queue, st.curdepth)
    ensures Going(y, st', b, done, Left(y, st) - 1) && Visited(st') == Visited(st)
  {
    var d := st.curdepth;
    var n := |st'.queue[d]|;
    assert st.queue[d][n] == b;
    assert Placed(y, st.merge, d, st.queue[d][n]);
    TotalUpdate(st.queue, d, st'.queue[d]);
    forall e, k | 0 <= e < |st'.queue| && 0 <= k < |st'.queue[e]| ensures Placed(y, st'.merge, e, st'.queue[e][k]) {
      assert st.queue[e][k] == st'.queue[e][k];
      assert Placed(y, st.merge, e, st.queue[e][k]);
    }
    forall c | c in st'.merge ensures c < |y.G| && Joined(y, c) { assert Joined(y, c); }
    forall c | 0 <= c < |y.G| && (c in y.W || c in st'.merge) ensures c in done + {b} || Queued(y, st', c) {
      assert c in done || Queued(y, st, c);
    }
  }

  lemma SweptLess(y: Task, merge: seq<nat>, top: nat, d: nat, vis: set<nat>)
    requires Swept(y, merge, top, vis) && d <= top
    ensures Swept(y, merge, d, vis)
  {
    forall v | v in vis ensures v < |y.G| && SweptAt(y, merge, d, v, |y.G[v]|) {
      assert SweptAt(y, merge, top, v, |y.G[v]|);
    }
  }
}
