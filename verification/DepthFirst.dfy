/** find_spanning_tree on the block graph itself: the explicit-stack walk that
    writes preorder numbers, subtree counts, edge labels and reverse postorder. */
module DepthFirst {
  import opened Graphs
  import opened Block
  import opened SpanningTree

  type Labels = seq<seq<set<EdgeFlag>>>

  function KindFlags(k: Kind): set<EdgeFlag> {
    match k
    case Tree => {TreeEdge}
    case Back => {BackEdge, LoopEdge}
    case Forward => {ForwardEdge}
    case Cross => {CrossEdge}
  }

  // ----- the fields of the blocks as sequences

  ghost function Dfnums(bl: seq<FlowBlock>, n: nat): (r: seq<int>)
    requires n <= |bl|
    reads bl`dfnum
    ensures |r| == n && forall v :: 0 <= v < n ==> r[v] == bl[v].dfnum
  {
    if n == 0 then [] else Dfnums(bl, n - 1) + [bl[n - 1].dfnum]
  }

  ghost function Indices(bl: seq<FlowBlock>, n: nat): (r: seq<int>)
    requires n <= |bl|
    reads bl`index
    ensures |r| == n && forall v :: 0 <= v < n ==> r[v] == bl[v].index
  {
    if n == 0 then [] else Indices(bl, n - 1) + [bl[n - 1].index]
  }

  ghost function Numdescs(bl: seq<FlowBlock>, n: nat): (r: seq<int>)
    requires n <= |bl|
    reads bl`numdesc
    ensures |r| == n && forall v :: 0 <= v < n ==> r[v] == bl[v].numdesc
  {
    if n == 0 then [] else Numdescs(bl, n - 1) + [bl[n - 1].numdesc]
  }

  function EdgeLabels(es: seq<BlockEdge>): seq<set<EdgeFlag>> {
    seq(|es|, j requires 0 <= j < |es| => es[j].lab)
  }

  ghost function OutLabels(bl: seq<FlowBlock>, n: nat): (r: Labels)
    requires n <= |bl|
    reads bl`out
    ensures |r| == n && forall u :: 0 <= u < n ==> r[u] == EdgeLabels(bl[u].out)
  {
    if n == 0 then [] else OutLabels(bl, n - 1) + [EdgeLabels(bl[n - 1].out)]
  }

  // ----- the same sequences, and the local variables, as the state of the walk has them

  /** Blocks that have not been entered keep the count nd0; the entry counts on from it. */
  ghost function NumdescsOf(s: Dfs, nd0: seq<int>): seq<int> {
    seq(|nd0|, v requires 0 <= v < |nd0| =>
      if v < |s.dfnum| && v < |s.desc| &&
          s.dfnum[v] >= 0 then s.desc[v] + (if v == 0 then nd0[0] - 1 else 0) else nd0[v])
  }

  /** Every followed edge has gained the flags of its kind. */
  ghost function LabelsOf(s: Dfs, labs0: Labels): Labels {
    seq(|labs0|, u requires 0 <= u < |labs0| =>
      seq(|labs0[u]|, j requires 0 <= j < |labs0[u]| =>
        if u < |s.cnt| && u < |s.kind| && j < s.cnt[u] && j < |s.kind[u]| then labs0[u][j] + KindFlags(s.kind[u][j])
        else labs0[u][j]))
  }

  /** The visit counters, by preorder number. */
  ghost function Visits(s: Dfs, n: nat): seq<nat> {
    seq(n, k requires 0 <= k < n => if k < |s.pre| && s.pre[k] < |s.cnt| then s.cnt[s.pre[k]] else 0)
  }

  ghost function At(bl: seq<FlowBlock>, ids: seq<nat>): (r: seq<FlowBlock>)
    requires |bl| > 0
    ensures |r| == |ids| && forall k :: 0 <= k < |ids| && ids[k] < |bl| ==> r[k] == bl[ids[k]]
  {
    seq(|ids|, k requires 0 <= k < |ids| => if ids[k] < |bl| then bl[ids[k]] else bl[0])
  }

  ghost function RpostorderOf(bl: seq<FlowBlock>, s: Dfs): (r: seq<FlowBlock?>)
    requires |bl| > 0 && |s.rpo| <= |bl|
  {
    seq(|bl| - |s.rpo|, _ => null) + At(bl, s.rpo)
  }

  /** The local variables of the walk. */
  datatype Locals = Locals(visitcount: seq<nat>, rpostcount: int, state: seq<FlowBlock>,
                           preorder: seq<FlowBlock>, rpostorder: seq<FlowBlock?>)

  // ----- how the views change with a move

  /** What is known of the node on top of the stack. */
  lemma TopFacts(G: Graph, k: nat, s: Dfs)
    requires WellFormed(G) && ReachedIn(G, k, s) && |s.stack| > 0
    ensures Shape(G, s) && s.Top() < |G| && 0 <= s.dfnum[s.Top()] < |s.pre| <= |G|
    ensures s.pre[s.dfnum[s.Top()]] == s.Top() && s.cnt[s.Top()] <= |G[s.Top()]| && s.index[s.Top()] == -1
    ensures |s.stack| > 1 ==> var p := s.stack[|s.stack| - 2];
        p < |G| && p != s.Top() && s.Top() != 0 && s.dfnum[p] >= 0
    ensures |s.rpo| < |G| && s.dfnum[0] == 0
  {
    ReachedInv(G, k, s);
    assert Numbered(s.dfnum, s.pre, s.Top());
    if |s.stack| > 1 {
      assert 0 <= s.dfnum[s.stack[|s.stack| - 2]] < s.dfnum[s.stack[|s.stack| - 1]];
    }
  }

  lemma NumdescsPop(s: Dfs, nd0: seq<int>)
    requires |s.dfnum| == |s.desc| == |s.index| == |nd0| && |s.stack| > 0 && s.Top() < |nd0| && s.dfnum[s.Top()] >= 0
    requires |s.stack| > 1 ==> var p := s.stack[|s.stack| - 2]; p < |nd0| && s.dfnum[p] >= 0 && s.Top() != 0
    ensures NumdescsOf(Pop(s), nd0) ==
              if |s.stack| == 1 then NumdescsOf(s, nd0)
              else var p := s.stack[|s.stack| - 2]; var nd := NumdescsOf(s, nd0); nd[p := nd[p] + nd[s.Top()]]
  {
  }

  lemma RpostorderPop(bl: seq<FlowBlock>, s: Dfs)
    requires |s.dfnum| == |s.desc| == |s.index| == |bl| && |s.stack| > 0 && s.Top() < |bl| && |s.rpo| < |bl|
    requires |s.stack| > 1 ==> s.stack[|s.stack| - 2] < |bl|
    ensures RpostorderOf(bl, Pop(s)) == RpostorderOf(bl, s)[|bl| - |s.rpo| - 1 := bl[s.Top()]]
    ensures At(bl, Pop(s).stack) == At(bl, s.stack)[..|s.stack| - 1]
  {
    assert At(bl, [s.Top()] + s.rpo) == [bl[s.Top()]] + At(bl, s.rpo);
  }

  lemma ViewsPop(bl: seq<FlowBlock>, G: Graph, k: nat, s: Dfs, nd0: seq<int>, labs0: Labels)
    requires WellFormed(G) && ReachedIn(G, k, s) && |s.stack| > 0 && |bl| == |G| == |nd0|
    requires Shape(G, s) && s.Top() < |G| && s.cnt[s.Top()] == |G[s.Top()]| && |s.rpo| < |G|
    requires |s.stack| > 1 ==> s.stack[|s.stack| - 2] < |G|
    ensures Visits(Pop(s), |bl|) == Visits(s, |bl|)
    ensures At(bl, Pop(s).stack) == At(bl, s.stack)[..|s.stack| - 1]
    ensures RpostorderOf(bl, Pop(s)) == RpostorderOf(bl, s)[|bl| - |s.rpo| - 1 := bl[s.Top()]]
    ensures LabelsOf(Pop(s), labs0) == LabelsOf(s, labs0)
    ensures NumdescsOf(Pop(s), nd0) ==
              if |s.stack| == 1 then NumdescsOf(s, nd0)
              else var p := s.stack[|s.stack| - 2]; var nd := NumdescsOf(s, nd0); nd[p := nd[p] + nd[s.Top()]]
  {
    TopFacts(G, k, s);
    NumdescsPop(s, nd0);
    RpostorderPop(bl, s);
  }

  lemma ViewsPush(bl: seq<FlowBlock>, G: Graph, k: nat, s: Dfs, nd0: seq<int>, labs0: Labels)
    requires WellFormed(G) && ReachedIn(G, k, s) && |s.stack| > 0 && |bl| == |G| == |nd0| == |labs0|
    requires Shape(G, s) && s.Top() < |G| && s.cnt[s.Top()] < |G[s.Top()]| == |labs0[s.Top()]|
    requires s.dfnum[G[s.Top()][s.cnt[s.Top()]]] == -1
    ensures var b := s.Top(); var c := G[b][s.cnt[b]]; var t := Push(s, c);
      && 0 <= s.dfnum[b] < |s.pre| < |bl| && |s.rpo| <= |bl| && c != 0
      && Visits(t, |bl|) == Visits(s, |bl|)[s.dfnum[b] := s.cnt[b] + 1][|s.pre| := 0]
      && At(bl, t.stack) == At(bl, s.stack) + [bl[c]]
      && At(bl, t.pre) == At(bl, s.pre) + [bl[c]]
      && NumdescsOf(t, nd0) == NumdescsOf(s, nd0)[c := 1]
      && LabelsOf(t, labs0) == AddFlags(LabelsOf(s, labs0), b, s.cnt[b], {TreeEdge})
  {
    var b := s.Top();
    var c := G[b][s.cnt[b]];
    TopFacts(G, k, s);
    RoomToPush(G, k, s, c);
    NumdescsPush(s, nd0, c);
    AtAppend(bl, s.stack, c);
    AtAppend(bl, s.pre, c);
    LabelsFollow(s, Push(s, c), labs0, Tree);
  }

  lemma AtAppend(bl: seq<FlowBlock>, ids: seq<nat>, c: nat)
    requires c < |bl|
    ensures At(bl, ids + [c]) == At(bl, ids) + [bl[c]]
  {
  }

  lemma NumdescsPush(s: Dfs, nd0: seq<int>, c: nat)
    requires |s.dfnum| == |s.desc| == |s.parent| == |s.slot| == |nd0| && 0 < c < |nd0|
    requires |s.stack| > 0 && s.Top() < |s.cnt| && s.Top() < |s.kind| && s.cnt[s.Top()] < |s.kind[s.Top()]|
    ensures NumdescsOf(Push(s, c), nd0) == NumdescsOf(s, nd0)[c := 1]
  {
  }

  lemma RoomToPush(G: Graph, k: nat, s: Dfs, c: nat)
    requires WellFormed(G) && ReachedIn(G, k, s) && Shape(G, s)
    requires |s.stack| > 0 && s.Top() < |G| && s.cnt[s.Top()] < |G[s.Top()]|
    requires c == G[s.Top()][s.cnt[s.Top()]] && s.dfnum[c] == -1
    ensures |s.pre| < |G| && 0 <= s.dfnum[s.Top()] < |G|
    ensures Visits(Push(s, c), |G|) == Visits(s, |G|)[s.dfnum[s.Top()] := s.cnt[s.Top()] + 1][|s.pre| := 0]
  {
    ReachedInv(G, k, s);
    PushNumbering(G, s, c);
    VisitsPush(G, s, c);
  }

  lemma ViewsClassify(bl: seq<FlowBlock>, G: Graph, k: nat, s: Dfs, nd0: seq<int>, labs0: Labels)
    requires WellFormed(G) && ReachedIn(G, k, s) && |s.stack| > 0 && |bl| == |G| == |nd0| == |labs0|
    requires Shape(G, s) && s.Top() < |G| && s.cnt[s.Top()] < |G[s.Top()]| == |labs0[s.Top()]|
    ensures var b := s.Top(); var c := G[b][s.cnt[b]]; var kind := KindOf(s, b, c); var t := Classify(s, kind);
      && 0 <= s.dfnum[b] < |bl|
      && Visits(t, |bl|) == Visits(s, |bl|)[s.dfnum[b] := s.cnt[b] + 1]
      && NumdescsOf(t, nd0) == NumdescsOf(s, nd0)
      && LabelsOf(t, labs0) == AddFlags(LabelsOf(s, labs0), b, s.cnt[b], KindFlags(kind))
  {
    var b := s.Top();
    TopFacts(G, k, s);
    ReachedInv(G, k, s);
    VisitsClassify(G, s);
    LabelsFollow(s, Classify(s, KindOf(s, b, G[b][s.cnt[b]])), labs0, KindOf(s, b, G[b][s.cnt[b]]));
  }

  function AddFlags(labs: Labels, u: nat, j: nat, flags: set<EdgeFlag>): Labels
    requires u < |labs| && j < |labs[u]|
  {
    labs[u := labs[u][j := labs[u][j] + flags]]
  }

  lemma VisitsPush(G: Graph, s: Dfs, c: nat)
    requires CanPush(G, s, c) && |s.pre| < |G|
    ensures 0 <= s.dfnum[s.Top()] < |G|
    ensures Visits(Push(s, c), |G|) == Visits(s, |G|)[s.dfnum[s.Top()] := s.cnt[s.Top()] + 1][|s.pre| := 0]
  {
    assert Numbered(s.dfnum, s.pre, s.Top());
    assert s.cnt[c] == 0 && s.dfnum[c] == -1;
    forall k | 0 <= k < |s.pre| && k != s.dfnum[s.Top()] ensures s.pre[k] != s.Top() && s.pre[k] != c {
    }
  }

  lemma VisitsClassify(G: Graph, s: Dfs)
    requires Inv(G, s) && |s.stack| > 0 && s.cnt[s.Top()] < |G[s.Top()]|
    ensures 0 <= s.dfnum[s.Top()] < |G|
    ensures forall kind :: Visits(Classify(s, kind), |G|) == Visits(s, |G|)[s.dfnum[s.Top()] := s.cnt[s.Top()] + 1]
  {
    assert Numbered(s.dfnum, s.pre, s.Top());
    forall k | 0 <= k < |s.pre| && k != s.dfnum[s.Top()] ensures s.pre[k] != s.Top() {
    }
  }

  /** One more edge of the top node has been followed. */
  lemma LabelsFollow(s: Dfs, t: Dfs, labs0: Labels, kind: Kind)
    requires |s.stack| > 0 && s.Top() < |s.cnt| == |s.kind| == |labs0|
    requires s.cnt[s.Top()] < |s.kind[s.Top()]| == |labs0[s.Top()]|
    requires t.cnt == s.cnt[s.Top() := s.cnt[s.Top()] + 1]
    requires t.kind == s.kind[s.Top() := s.kind[s.Top()][s.cnt[s.Top()] := kind]]
    ensures |LabelsOf(s, labs0)| == |labs0| && |LabelsOf(s, labs0)[s.Top()]| == |labs0[s.Top()]|
    ensures LabelsOf(t, labs0) == AddFlags(LabelsOf(s, labs0), s.Top(), s.cnt[s.Top()], KindFlags(kind))
  {
    var b, j := s.Top(), s.cnt[s.Top()];
    var l, l' := LabelsOf(s, labs0), LabelsOf(t, labs0);
    assert l'[b] == l[b][j := l[b][j] + KindFlags(kind)];
    forall u | 0 <= u < |labs0| && u != b ensures l'[u] == l[u] {
    }
  }

  // ----- the writes to the blocks

  /** The top block is done: number it from the back and hand its count to the block below. */
  method Leave(bl: seq<FlowBlock>, b: FlowBlock, below: FlowBlock?, rpostcount: nat,
               ghost index: seq<int>, ghost nd: seq<int>, ghost top: nat, ghost p: nat)
    requires Distinct(bl) && top < |bl| && b == bl[top]
    requires below != null ==> p < |bl| && p != top && below == bl[p]
    requires index == Indices(bl, |bl|) && nd == Numdescs(bl, |bl|)
    modifies bl`index, bl`numdesc
    ensures Indices(bl, |bl|) == index[top := rpostcount]
    ensures Numdescs(bl, |bl|) == if below == null then nd else nd[p := nd[p] + nd[top]]
  {
    DistinctPositions(bl);
    b.index := rpostcount;
    if below != null {
      below.numdesc := below.numdesc + b.numdesc;
    }
  }

  /** An unseen block gets the next preorder number and starts to count itself. */
  method Enter(bl: seq<FlowBlock>, child: FlowBlock, number: nat, ghost c: nat)
    requires Distinct(bl) && c < |bl| && child == bl[c]
    modifies bl`dfnum, bl`numdesc
    ensures Dfnums(bl, |bl|) == old(Dfnums(bl, |bl|))[c := number]
    ensures Numdescs(bl, |bl|) == old(Numdescs(bl, |bl|))[c := 1]
  {
    DistinctPositions(bl);
    child.dfnum := number;
    child.numdesc := 1;
  }

  /** The label of the edge just followed gains the flags of its kind. */
  method Mark(bl: seq<FlowBlock>, b: FlowBlock, j: nat, flags: set<EdgeFlag>, ghost top: nat, ghost G: Graph,
      ghost P: Graph)
    requires Wired(bl, G, P, |bl|)
    requires top < |bl| && b == bl[top] && j < |b.out|
    modifies bl`out, bl`inn
    ensures Wired(bl, G, P, |bl|)
    ensures |old(OutLabels(bl, |bl|))[top]| == old(|b.out|)
    ensures OutLabels(bl, |bl|) == AddFlags(old(OutLabels(bl, |bl|)), top, j, flags)
  {
    WiredRepresents(bl, G, P);
    DistinctPositions(bl);
    ghost var labs := OutLabels(bl, |bl|);
    MarkWired(bl, b, j, flags, G, P);
    assert EdgeLabels(b.out) == labs[top][j := labs[top][j] + flags];
    OneRowChanged(bl, labs, OutLabels(bl, |bl|), top, j, flags);
  }

  lemma OneRowChanged(bl: seq<FlowBlock>, labs: Labels, now: Labels, top: nat, j: nat, flags: set<EdgeFlag>)
    requires |labs| == |now| == |bl| && top < |bl| && j < |labs[top]|
    requires now[top] == labs[top][j := labs[top][j] + flags]
    requires forall u :: 0 <= u < |bl| && u != top ==> now[u] == labs[u]
    ensures now == AddFlags(labs, top, j, flags)
  {
  }

  lemma RelabelledEnds(es: seq<BlockEdge>, j: nat, flags: set<EdgeFlag>)
    requires j < |es|
    ensures SameEnds(es, es[j := es[j].(lab := es[j].lab + flags)])
  {
  }

  method MarkEdge(bl: seq<FlowBlock>, b: FlowBlock, j: nat, flags: set<EdgeFlag>, ghost G: Graph, ghost P: Graph)
    requires Represents(bl, G) && RepresentsIn(bl, P) && Paired(Blocks(bl)) && b in bl && j < |b.out|
    modifies b`out, bl`inn
    ensures Represents(bl, G) && RepresentsIn(bl, P) && Paired(Blocks(bl))
    ensures b.out == old(b.out)[j := old(b.out)[j].(lab := old(b.out)[j].lab + flags)]
  {
    assert OutLinked(Blocks(bl), b, j);
    ghost var was := b.out;
    b.SetOutEdgeFlag(j, flags, Blocks(bl));
    RelabelledEnds(was, j, flags);
    assert SameEnds(was, b.out);
    assert forall u :: 0 <= u < |bl| ==> |bl[u].out| == |G[u]|;
    forall u, k | 0 <= u < |bl| && 0 <= k < |G[u]| ensures G[u][k] < |bl| && bl[u].out[k].point == bl[G[u][k]] {
      if bl[u] == b { assert was[k].point == b.out[k].point; }
    }
  }

  method MarkWired(bl: seq<FlowBlock>, b: FlowBlock, j: nat, flags: set<EdgeFlag>, ghost G: Graph, ghost P: Graph)
    requires Represents(bl, G) && RepresentsIn(bl, P) && Paired(Blocks(bl)) && b in bl && j < |b.out|
    modifies b`out, bl`inn
    ensures Wired(bl, G, P, |bl|)
    ensures b.out == old(b.out)[j := old(b.out)[j].(lab := old(b.out)[j].lab + flags)]
  {
    MarkEdge(bl, b, j, flags, G, P);
    RepresentsWired(bl, G, P, |bl|);
  }

  // ----- one turn of the loop, on the views alone

  /** The fields of the blocks that the walk reads and writes. */
  datatype Fields = Fields(dfnum: seq<int>, index: seq<int>, numdesc: seq<int>, labs: Labels)

  ghost function FieldsOf(bl: seq<FlowBlock>): Fields
    reads bl`dfnum, bl`index, bl`numdesc, bl`out
  {
    Fields(Dfnums(bl, |bl|), Indices(bl, |bl|), Numdescs(bl, |bl|), OutLabels(bl, |bl|))
  }

  /** All that the walk reads and writes: the fields of the blocks and the local variables. */
  datatype Views = Views(dfnum: seq<int>, index: seq<int>, numdesc: seq<int>, labs: Labels, l: Locals)

  ghost predicate Seen(bl: seq<FlowBlock>, l: Locals, v: Views)
    reads bl`dfnum, bl`index, bl`numdesc, bl`out
  {
    FieldsOf(bl) == Fields(v.dfnum, v.index, v.numdesc, v.labs) && v.l == l
  }

  /** top is the position of the last block of state, below that of the one before. */
  ghost predicate CanTurn(bl: seq<FlowBlock>, G: Graph, v: Views, top: nat, below: nat) {
    && WellFormed(G) && |bl| == |G| == |v.dfnum| == |v.index| == |v.numdesc| == |v.labs| == |v.l.visitcount|
    && |v.l.state| > 0 && top < |bl| && v.l.state[|v.l.state| - 1] == bl[top]
    && 0 <= v.dfnum[top] < |v.l.visitcount| && v.l.visitcount[v.dfnum[top]] <= |G[top]| == |v.labs[top]|
    && 0 < v.l.rpostcount <= |v.l.rpostorder|
    && (|v.l.state| > 1 ==> below < |bl| && below != top && v.l.state[|v.l.state| - 2] == bl[below])
    && (v.l.visitcount[v.dfnum[top]] < |G[top]| && v.dfnum[G[top][v.l.visitcount[v.dfnum[top]]]] == -1 ==>
          |v.l.preorder| < |v.l.visitcount|)
  }

  /** The views after the top block is finished. */
  ghost function LeaveViews(bl: seq<FlowBlock>, G: Graph, v: Views, top: nat, below: nat): Views
    requires CanTurn(bl, G, v, top, below)
  {
    var r := v.l.rpostcount - 1;
    Views(v.dfnum, v.index[top := r],
          if |v.l.state| == 1 then v.numdesc else v.numdesc[below := v.numdesc[below] + v.numdesc[top]],
          v.labs,
          Locals(v.l.visitcount, r, v.l.state[..|v.l.state| - 1], v.l.preorder, v.l.rpostorder[r := bl[top]]))
  }

  /** The views after edge number j of the top block has been followed. */
  ghost function FollowViews(bl: seq<FlowBlock>, G: Graph, v: Views, top: nat, below: nat, j: nat): Views
    requires CanTurn(bl, G, v, top, below) && j == v.l.visitcount[v.dfnum[top]] < |G[top]|
  {
    var c := G[top][j];
    var vc := v.l.visitcount[v.dfnum[top] := j + 1];
    if v.dfnum[c] == -1 then
      var m := |v.l.preorder|;
      Views(v.dfnum[c := m], v.index, v.numdesc[c := 1], AddFlags(v.labs, top, j, {TreeEdge}),
            Locals(vc[m := 0], v.l.rpostcount, v.l.state + [bl[c]], v.l.preorder + [bl[c]], v.l.rpostorder))
    else
      var flags := if v.index[c] == -1 then {BackEdge, LoopEdge}
                   else if v.dfnum[top] < v.dfnum[c] then {ForwardEdge} else {CrossEdge};
      Views(v.dfnum, v.index, v.numdesc, AddFlags(v.labs, top, j, flags),
            Locals(vc, v.l.rpostcount, v.l.state, v.l.preorder, v.l.rpostorder))
  }

  ghost function TurnViews(bl: seq<FlowBlock>, G: Graph, v: Views, top: nat, below: nat): Views
    requires CanTurn(bl, G, v, top, below)
  {
    var j := v.l.visitcount[v.dfnum[top]];
    if j == |G[top]| then LeaveViews(bl, G, v, top, below) else FollowViews(bl, G, v, top, below, j)
  }

  /** One turn of the loop: finish the top block or follow one of its out-edges. */
  method Turn(bl: seq<FlowBlock>, l0: Locals, ghost G: Graph, ghost P: Graph, ghost v: Views, ghost top: nat,
      ghost below: nat)
      returns (l: Locals)
    requires Wired(bl, G, P, |bl|)
    requires Seen(bl, l0, v) && CanTurn(bl, G, v, top, below)
    modifies bl`index, bl`numdesc, bl`dfnum, bl`out, bl`inn
    ensures Wired(bl, G, P, |bl|)
    ensures Seen(bl, l, TurnViews(bl, G, v, top, below))
  {
    WiredAt(bl, G, P, top);
    var b := l0.state[|l0.state| - 1];
    var index := l0.visitcount[b.dfnum];
    if index == |b.out| {
      l := Finish(bl, b, l0, G, v, top, below);
    } else {
      l := Follow(bl, b, index, l0, G, P, v, top, below);
    }
  }

  /** The top block b has no edge left. */
  method Finish(bl: seq<FlowBlock>, b: FlowBlock, l0: Locals, ghost G: Graph, ghost v: Views, ghost top: nat,
      ghost below: nat)
      returns (l: Locals)
    requires Distinct(bl) && Seen(bl, l0, v) && CanTurn(bl, G, v, top, below) && b == bl[top]
    modifies bl`index, bl`numdesc
    ensures Seen(bl, l, LeaveViews(bl, G, v, top, below))
  {
    var state := l0.state[..|l0.state| - 1];
    var rpostcount := l0.rpostcount - 1;
    var parent: FlowBlock? := if |state| > 0 then state[|state| - 1] else null;
    LeaveFields(bl, b, parent, rpostcount, top, below);
    l := Locals(l0.visitcount, rpostcount, state, l0.preorder, l0.rpostorder[rpostcount := b]);
    LeaveIs(bl, G, v, top, below, FieldsOf(bl), l, parent == null);
  }

  lemma LeaveIs(bl: seq<FlowBlock>, G: Graph, v: Views, top: nat, below: nat, f: Fields, l: Locals, last: bool)
    requires CanTurn(bl, G, v, top, below) && (last <==> |v.l.state| == 1)
    requires f.dfnum == v.dfnum && f.index == v.index[top := v.l.rpostcount - 1] && f.labs == v.labs
    requires f.numdesc == if last then v.numdesc else v.numdesc[below := v.numdesc[below] + v.numdesc[top]]
    requires l == Locals(v.l.visitcount, v.l.rpostcount - 1, v.l.state[..|v.l.state| - 1], v.l.preorder,
      v.l.rpostorder[v.l.rpostcount - 1 := bl[top]])
    ensures var r := LeaveViews(bl, G, v, top, below); f == Fields(r.dfnum, r.index, r.numdesc, r.labs) && r.l == l
  {
  }

  method LeaveFields(bl: seq<FlowBlock>, b: FlowBlock, below: FlowBlock?, rpostcount: nat, ghost top: nat, ghost p: nat)
    requires Distinct(bl) && top < |bl| && b == bl[top]
    requires below != null ==> p < |bl| && p != top && below == bl[p]
    modifies bl`index, bl`numdesc
    ensures var f := old(FieldsOf(bl));
      && |f.index| == |f.numdesc| == |bl|
      && FieldsOf(bl) == Fields(f.dfnum, f.index[top := rpostcount],
                                if below == null then f.numdesc
                                    else f.numdesc[p := f.numdesc[p] + f.numdesc[top]], f.labs)
  {
    Leave(bl, b, below, rpostcount, Indices(bl, |bl|), Numdescs(bl, |bl|), top, p);
  }

  /** Follow out-edge number index of the top block b. */
  method Follow(bl: seq<FlowBlock>, b: FlowBlock, index: nat, l0: Locals, ghost G: Graph, ghost P: Graph,
      ghost v: Views, ghost top: nat, ghost below: nat)
      returns (l: Locals)
    requires Wired(bl, G, P, |bl|)
    requires Seen(bl, l0, v) && CanTurn(bl, G, v, top, below)
    requires b == bl[top] && index == l0.visitcount[b.dfnum] < |G[top]|
    modifies bl`numdesc, bl`dfnum, bl`out, bl`inn
    ensures Wired(bl, G, P, |bl|)
    ensures Seen(bl, l, FollowViews(bl, G, v, top, below, index))
  {
    WiredAt(bl, G, P, top);
    var child := b.out[index].point;
    if child.dfnum == -1 {
      l := FollowNew(bl, b, index, child, l0, G, P, v, top, below);
    } else {
      l := FollowKnown(bl, b, index, child, l0, G, P, v, top, below);
    }
  }

  method FollowNew(bl: seq<FlowBlock>, b: FlowBlock, index: nat, child: FlowBlock, l0: Locals, ghost G: Graph,
      ghost P: Graph,
                   ghost v: Views, ghost top: nat, ghost below: nat)
      returns (l: Locals)
    requires Wired(bl, G, P, |bl|) && Seen(bl, l0, v) && CanTurn(bl, G, v, top, below)
    requires b == bl[top] && index == v.l.visitcount[v.dfnum[top]] < |G[top]| && G[top][index] < |bl| &&
        child == bl[G[top][index]]
    requires v.dfnum[G[top][index]] == -1
    modifies bl`numdesc, bl`dfnum, bl`out, bl`inn
    ensures Wired(bl, G, P, |bl|)
    ensures Seen(bl, l, FollowViews(bl, G, v, top, below, index))
  {
    var visitcount := l0.visitcount[b.dfnum := index + 1];
    l := Locals(visitcount[|l0.preorder| := 0], l0.rpostcount, l0.state + [child], l0.preorder + [child],
        l0.rpostorder);
    FollowTree(bl, b, index, child, |l0.preorder|, G, P, top);
  }

  method FollowKnown(bl: seq<FlowBlock>, b: FlowBlock, index: nat, child: FlowBlock, l0: Locals, ghost G: Graph,
      ghost P: Graph,
                     ghost v: Views, ghost top: nat, ghost below: nat)
      returns (l: Locals)
    requires Wired(bl, G, P, |bl|) && Seen(bl, l0, v) && CanTurn(bl, G, v, top, below) && index < |b.out|
    requires b == bl[top] && index == v.l.visitcount[v.dfnum[top]] < |G[top]| && G[top][index] < |bl| &&
        child == bl[G[top][index]]
    requires v.dfnum[G[top][index]] != -1
    modifies bl`out, bl`inn
    ensures Wired(bl, G, P, |bl|)
    ensures Seen(bl, l, FollowViews(bl, G, v, top, below, index))
  {
    var visitcount := l0.visitcount[b.dfnum := index + 1];
    var flags := if child.index == -1 then {BackEdge, LoopEdge}
                 else if b.dfnum < child.dfnum then {ForwardEdge} else {CrossEdge};
    l := Locals(visitcount, l0.rpostcount, l0.state, l0.preorder, l0.rpostorder);
    MarkFields(bl, b, index, flags, top, G, P);
  }

  method MarkFields(bl: seq<FlowBlock>, b: FlowBlock, j: nat, flags: set<EdgeFlag>, ghost top: nat, ghost G: Graph,
      ghost P: Graph)
    requires Wired(bl, G, P, |bl|)
    requires top < |bl| && b == bl[top] && j < |b.out|
    modifies bl`out, bl`inn
    ensures Wired(bl, G, P, |bl|)
    ensures |old(OutLabels(bl, |bl|))[top]| == old(|b.out|)
    ensures FieldsOf(bl) == old(FieldsOf(bl)).(labs := AddFlags(old(FieldsOf(bl)).labs, top, j, flags))
  {
    Mark(bl, b, j, flags, top, G, P);
  }

  /** Follow an edge to an unseen block. */
  method FollowTree(bl: seq<FlowBlock>, b: FlowBlock, index: nat, child: FlowBlock, number: nat, ghost G: Graph,
      ghost P: Graph, ghost top: nat)
    requires Wired(bl, G, P, |bl|) && |G| == |bl|
    requires top < |bl| && b == bl[top] && index < |G[top]| && G[top][index] < |bl| && child == bl[G[top][index]]
    modifies bl`numdesc, bl`dfnum, bl`out, bl`inn
    ensures Wired(bl, G, P, |bl|)
    ensures |old(OutLabels(bl, |bl|))[top]| == |G[top]|
    ensures var f, c := old(FieldsOf(bl)), G[top][index];
      && |f.dfnum| == |f.numdesc| == |bl|
      && FieldsOf(bl) == Fields(f.dfnum[c := number], f.index, f.numdesc[c := 1],
          AddFlags(f.labs, top, index, {TreeEdge}))
  {
    WiredAt(bl, G, P, top);
    MarkFields(bl, b, index, {TreeEdge}, top, G, P);
    EnterFields(bl, child, number, G[top][index], G, P);
  }

  method EnterFields(bl: seq<FlowBlock>, child: FlowBlock, number: nat, ghost c: nat, ghost G: Graph, ghost P: Graph)
    requires Wired(bl, G, P, |bl|) && Distinct(bl) && c < |bl| && child == bl[c]
    modifies bl`dfnum, bl`numdesc
    ensures Wired(bl, G, P, |bl|)
    ensures var f := old(FieldsOf(bl));
      |f.dfnum| == |f.numdesc| == |bl| &&
          FieldsOf(bl) == Fields(f.dfnum[c := number], f.index, f.numdesc[c := 1], f.labs)
  {
    Enter(bl, child, number, c);
  }

  // ----- the views follow the moves of the walk

  ghost function ViewsOf(bl: seq<FlowBlock>, s: Dfs, nd0: seq<int>, labs0: Labels): Views
    requires |bl| > 0 && |s.rpo| <= |bl|
  {
    Views(s.dfnum, s.index, NumdescsOf(s, nd0), LabelsOf(s, labs0),
          Locals(Visits(s, |bl|), |bl| - |s.rpo|, At(bl, s.stack), At(bl, s.pre), RpostorderOf(bl, s)))
  }

  ghost function Below(s: Dfs): nat {
    if |s.stack| > 1 then s.stack[|s.stack| - 2] else 0
  }

  /** The blocks, the graph, the state and the initial field values fit together. */
  ghost predicate Fits(bl: seq<FlowBlock>, G: Graph, k: nat, s: Dfs, nd0: seq<int>, labs0: Labels) {
    && WellFormed(G) && ReachedIn(G, k, s)
    && |bl| == |G| == |nd0| == |labs0| && |s.rpo| <= |bl|
    && forall u :: 0 <= u < |G| ==> |labs0[u]| == |G[u]|
  }

  /** How much is left for the walk to do. */
  function Remaining(G: Graph, s: Dfs): int {
    if |s.stack| > 0 && s.Top() < |G| && s.Top() < |s.cnt| then |G[s.Top()]| - s.cnt[s.Top()] else 0
  }

  ghost function Move(G: Graph, s: Dfs): (t: Dfs)
    requires Shape(G, s) && |s.stack| > 0 && s.Top() < |G| && (|s.stack| > 1 ==> Below(s) < |G|)
    ensures Next(G, s, t)
  {
    var b := s.Top();
    if s.cnt[b] == |G[b]| then Pop(s)
    else
      var c := G[b][s.cnt[b]];
      if s.dfnum[c] == -1 then Push(s, c) else Classify(s, KindOf(s, b, c))
  }

  lemma ViewsCanTurn(bl: seq<FlowBlock>, G: Graph, k: nat, s: Dfs, nd0: seq<int>, labs0: Labels)
    requires Fits(bl, G, k, s, nd0, labs0) && |s.stack| > 0
    ensures Shape(G, s) && s.Top() < |G| && CanTurn(bl, G, ViewsOf(bl, s, nd0, labs0), s.Top(), Below(s))
    ensures s.cnt[s.Top()] <= |G[s.Top()]| && 0 <= s.dfnum[s.Top()] < |bl|
    ensures ViewsOf(bl, s, nd0, labs0).l.visitcount[s.dfnum[s.Top()]] == s.cnt[s.Top()]
  {
    TopFacts(G, k, s);
    var b := s.Top();
    if s.cnt[b] < |G[b]| && s.dfnum[G[b][s.cnt[b]]] == -1 {
      RoomToPush(G, k, s, G[b][s.cnt[b]]);
    }
  }

  lemma LeaveMove(bl: seq<FlowBlock>, G: Graph, k: nat, s: Dfs, nd0: seq<int>, labs0: Labels)
    requires Fits(bl, G, k, s, nd0, labs0) && Shape(G, s) && |s.stack| > 0 && s.Top() < |G| &&
        s.cnt[s.Top()] == |G[s.Top()]|
    requires |s.rpo| < |G| && (|s.stack| > 1 ==> Below(s) < |G|)
    requires CanTurn(bl, G, ViewsOf(bl, s, nd0, labs0), s.Top(), Below(s))
    ensures ViewsOf(bl, Pop(s), nd0, labs0) == LeaveViews(bl, G, ViewsOf(bl, s, nd0, labs0), s.Top(), Below(s))
  {
    ViewsPop(bl, G, k, s, nd0, labs0);
    LeaveViewsPop(bl, G, s, nd0, labs0);
  }

  /** What ViewsPop says, put together. */
  lemma LeaveViewsPop(bl: seq<FlowBlock>, G: Graph, s: Dfs, nd0: seq<int>, labs0: Labels)
    requires |s.stack| > 0 && s.Top() < |G| && |s.dfnum| == |s.index| == |s.desc| == |G| && |s.rpo| < |G|
    requires |s.stack| > 1 ==> s.stack[|s.stack| - 2] < |G|
    requires |bl| == |G| == |nd0|
    requires CanTurn(bl, G, ViewsOf(bl, s, nd0, labs0), s.Top(), Below(s))
    requires Visits(Pop(s), |bl|) == Visits(s, |bl|)
    requires At(bl, Pop(s).stack) == At(bl, s.stack)[..|s.stack| - 1]
    requires RpostorderOf(bl, Pop(s)) == RpostorderOf(bl, s)[|bl| - |s.rpo| - 1 := bl[s.Top()]]
    requires LabelsOf(Pop(s), labs0) == LabelsOf(s, labs0)
    requires NumdescsOf(Pop(s), nd0) ==
              if |s.stack| == 1 then NumdescsOf(s, nd0)
              else var p := s.stack[|s.stack| - 2]; var nd := NumdescsOf(s, nd0); nd[p := nd[p] + nd[s.Top()]]
    ensures ViewsOf(bl, Pop(s), nd0, labs0) == LeaveViews(bl, G, ViewsOf(bl, s, nd0, labs0), s.Top(), Below(s))
  {
    var t, v := Pop(s), ViewsOf(bl, s, nd0, labs0);
    var r := ViewsOf(bl, t, nd0, labs0);
    assert |v.l.state| == |s.stack| && |t.rpo| == |s.rpo| + 1 && v.l.rpostcount == |bl| - |s.rpo|;
    LeaveIs(bl, G, v, s.Top(), Below(s), Fields(r.dfnum, r.index, r.numdesc, r.labs), r.l, |s.stack| == 1);
  }

  lemma TreeMove(bl: seq<FlowBlock>, G: Graph, k: nat, s: Dfs, nd0: seq<int>, labs0: Labels)
    requires Fits(bl, G, k, s, nd0, labs0) && Shape(G, s) && |s.stack| > 0 && s.Top() < |G| &&
        s.cnt[s.Top()] < |G[s.Top()]|
    requires s.dfnum[G[s.Top()][s.cnt[s.Top()]]] == -1
    requires 0 <= s.dfnum[s.Top()] < |bl|
    requires CanTurn(bl, G, ViewsOf(bl, s, nd0, labs0), s.Top(), Below(s))
    ensures var j := s.cnt[s.Top()]; var v := ViewsOf(bl, s, nd0, labs0);
      && j == v.l.visitcount[s.dfnum[s.Top()]]
      && ViewsOf(bl, Push(s, G[s.Top()][j]), nd0, labs0) == FollowViews(bl, G, v, s.Top(), Below(s), j)
  {
    ViewsCanTurn(bl, G, k, s, nd0, labs0);
    ViewsPush(bl, G, k, s, nd0, labs0);
  }

  lemma OtherMove(bl: seq<FlowBlock>, G: Graph, k: nat, s: Dfs, nd0: seq<int>, labs0: Labels)
    requires Fits(bl, G, k, s, nd0, labs0) && Shape(G, s) && |s.stack| > 0 && s.Top() < |G| &&
        s.cnt[s.Top()] < |G[s.Top()]|
    requires s.dfnum[G[s.Top()][s.cnt[s.Top()]]] != -1
    requires 0 <= s.dfnum[s.Top()] < |bl|
    requires CanTurn(bl, G, ViewsOf(bl, s, nd0, labs0), s.Top(), Below(s))
    ensures var j := s.cnt[s.Top()]; var v := ViewsOf(bl, s, nd0, labs0);
      && j == v.l.visitcount[s.dfnum[s.Top()]]
      && ViewsOf(bl, Classify(s, KindOf(s, s.Top(), G[s.Top()][j])), nd0, labs0)
          == FollowViews(bl, G, v, s.Top(), Below(s), j)
  {
    TopCount(bl, G, k, s, nd0, labs0);
    ViewsClassify(bl, G, k, s, nd0, labs0);
    var b := s.Top();
    var kind := KindOf(s, b, G[b][s.cnt[b]]);
    FollowOther(bl, G, s, Classify(s, kind), nd0, labs0, b, s.cnt[b], kind);
  }

  lemma FollowOther(bl: seq<FlowBlock>, G: Graph, s: Dfs, t: Dfs, nd0: seq<int>, labs0: Labels, b: nat, j: nat,
      kind: Kind)
    requires |bl| == |G| > b && |s.rpo| <= |bl| && |s.dfnum| == |s.index| == |G| && s.stack != [] && b < |s.cnt|
    requires b < |s.kind| && s.cnt[b] < |s.kind[b]| && s.Top() == b && t == Classify(s, kind)
    requires CanTurn(bl, G, ViewsOf(bl, s, nd0, labs0), b, Below(s))
    requires j == ViewsOf(bl, s, nd0, labs0).l.visitcount[s.dfnum[b]] < |G[b]| && s.dfnum[G[b][j]] != -1
    requires kind == KindOf(s, b, G[b][j])
    requires |Visits(s, |bl|)| == |bl| && Visits(t, |bl|) == Visits(s, |bl|)[s.dfnum[b] := j + 1]
    requires NumdescsOf(t, nd0) == NumdescsOf(s, nd0)
    requires LabelsOf(t, labs0) == AddFlags(LabelsOf(s, labs0), b, j, KindFlags(kind))
    ensures ViewsOf(bl, t, nd0, labs0) == FollowViews(bl, G, ViewsOf(bl, s, nd0, labs0), b, Below(s), j)
  {
    FollowIs(bl, G, ViewsOf(bl, s, nd0, labs0), b, Below(s), j, ViewsOf(bl, t, nd0, labs0), kind);
  }

  lemma FollowIs(bl: seq<FlowBlock>, G: Graph, v: Views, top: nat, below: nat, j: nat, r: Views, kind: Kind)
    requires CanTurn(bl, G, v, top, below) && j == v.l.visitcount[v.dfnum[top]] < |G[top]|
    requires v.dfnum[G[top][j]] != -1
    requires KindFlags(kind) == if v.index[G[top][j]] == -1 then {BackEdge, LoopEdge}
                                else if v.dfnum[top] < v.dfnum[G[top][j]] then {ForwardEdge} else {CrossEdge}
    requires r.dfnum == v.dfnum && r.index == v.index && r.numdesc == v.numdesc
    requires r.labs == AddFlags(v.labs, top, j, KindFlags(kind))
    requires r.l == v.l.(visitcount := v.l.visitcount[v.dfnum[top] := j + 1])
    ensures r == FollowViews(bl, G, v, top, below, j)
  {
  }

  lemma TopCount(bl: seq<FlowBlock>, G: Graph, k: nat, s: Dfs, nd0: seq<int>, labs0: Labels)
    requires Fits(bl, G, k, s, nd0, labs0) && |s.stack| > 0 && s.Top() < |G|
    requires CanTurn(bl, G, ViewsOf(bl, s, nd0, labs0), s.Top(), Below(s))
    ensures s.Top() < |s.cnt| && s.Top() < |s.dfnum| && 0 <= s.dfnum[s.Top()] < |bl|
    ensures var c := ViewsOf(bl, s, nd0, labs0).l.visitcount;
      s.dfnum[s.Top()] < |c| && c[s.dfnum[s.Top()]] == s.cnt[s.Top()]
  {
    ViewsCanTurn(bl, G, k, s, nd0, labs0);
  }

  lemma ViewsMove(bl: seq<FlowBlock>, G: Graph, k: nat, s: Dfs, nd0: seq<int>, labs0: Labels) returns (t: Dfs)
    requires Fits(bl, G, k, s, nd0, labs0) && |s.stack| > 0
    ensures s.Top() < |G| && CanTurn(bl, G, ViewsOf(bl, s, nd0, labs0), s.Top(), Below(s))
    ensures Next(G, s, t) && Fits(bl, G, k + 1, t, nd0, labs0)
    ensures ViewsOf(bl, t, nd0, labs0) == TurnViews(bl, G, ViewsOf(bl, s, nd0, labs0), s.Top(), Below(s))
  {
    TopFacts(G, k, s);
    ViewsCanTurn(bl, G, k, s, nd0, labs0);
    t := Move(G, s);
    NextFits(bl, G, k, s, t, nd0, labs0);
    var b := s.Top();
    if s.cnt[b] == |G[b]| {
      LeaveMove(bl, G, k, s, nd0, labs0);
    } else if s.dfnum[G[b][s.cnt[b]]] == -1 {
      TreeMove(bl, G, k, s, nd0, labs0);
    } else {
      OtherMove(bl, G, k, s, nd0, labs0);
    }
  }

  lemma NextFits(bl: seq<FlowBlock>, G: Graph, k: nat, s: Dfs, t: Dfs, nd0: seq<int>, labs0: Labels)
    requires Fits(bl, G, k, s, nd0, labs0) && Next(G, s, t)
    ensures Fits(bl, G, k + 1, t, nd0, labs0)
  {
    ReachedInv(G, k + 1, t);
  }

  /** Each move uses up an unseen node, a stack entry or an edge. */
  lemma MoveDecreases(G: Graph, k: nat, s: Dfs, t: Dfs)
    requires WellFormed(G) && ReachedIn(G, k, s) && Next(G, s, t)
    ensures |s.pre| <= |t.pre| <= |G|
    ensures |t.pre| == |s.pre| ==> |t.stack| <= |s.stack|
    ensures |t.pre| == |s.pre| && |t.stack| == |s.stack| ==> 0 <= Remaining(G, t) < Remaining(G, s)
  {
    MoveBounds(G, k, s);
    MovedBounds(G, k, s, t);
    MoveUses(G, s, t);
  }

  lemma MovedBounds(G: Graph, k: nat, s: Dfs, t: Dfs)
    requires WellFormed(G) && ReachedIn(G, k, s) && Next(G, s, t)
    ensures |t.pre| <= |G| && 0 <= Remaining(G, t)
  {
    var n := k + 1;
    assert ReachedIn(G, n, t);
    MoveBounds(G, n, t);
  }

  lemma MoveUses(G: Graph, s: Dfs, t: Dfs)
    requires Next(G, s, t)
    ensures |s.pre| <= |t.pre|
    ensures |t.pre| == |s.pre| ==> |t.stack| <= |s.stack|
    ensures |t.pre| == |s.pre| && |t.stack| == |s.stack| ==> Remaining(G, t) < Remaining(G, s)
  {
  }

  lemma MoveBounds(G: Graph, k: nat, s: Dfs)
    requires WellFormed(G) && ReachedIn(G, k, s)
    ensures |s.pre| <= |G| && 0 <= Remaining(G, s)
  {
    ReachedInv(G, k, s);
  }

  // ----- the whole pass

  /** Those of the first n blocks that have no in-edges. */
  ghost function Roots(bl: seq<FlowBlock>, n: nat): seq<FlowBlock>
    requires n <= |bl|
    reads bl`inn
  {
    if n == 0 then [] else Roots(bl, n - 1) + if |bl[n - 1].inn| == 0 then [bl[n - 1]] else []
  }

  /** Those of the first n blocks that have no out-edges. */
  ghost function Exits(bl: seq<FlowBlock>, n: nat): seq<FlowBlock>
    requires n <= |bl|
    reads bl`out
  {
    if n == 0 then [] else Exits(bl, n - 1) + if |bl[n - 1].out| == 0 then [bl[n - 1]] else []
  }

  /** With every block reachable from the first, only the first can be without in-edges. */
  lemma {:induction false} OnlyEntryIsRoot(bl: seq<FlowBlock>, G: Graph, P: Graph, n: nat)
    requires WellFormed(G) && Transposed(G, P) && n <= |G| == |bl|
    requires forall v :: 0 <= v < |bl| ==> |bl[v].inn| == |P[v]|
    requires forall v :: 0 <= v < |G| ==> Reaches(G, 0, v)
    ensures Roots(bl, n) == if n > 0 && |P[0]| == 0 then [bl[0]] else []
  {
    if n > 0 {
      OnlyEntryIsRoot(bl, G, P, n - 1);
      var v := n - 1;
      if v > 0 {
        assert Reaches(G, 0, v);
        var p :| PathBetween(G, 0, p, v);
        assert Edge(G, p[|p| - 2], p[|p| - 2 + 1]);
        assert p[|p| - 2] in P[v];
      }
    }
  }

  /** Reset the numbers and collect the roots and the exits. */
  method ResetNumbers(bl: seq<FlowBlock>) returns (rootlist: seq<FlowBlock>, exitlist: seq<FlowBlock>)
    modifies bl`index, bl`dfnum
    ensures forall v :: 0 <= v < |bl| ==> bl[v].index == -1 && bl[v].dfnum == -1
    ensures rootlist == Roots(bl, |bl|) && exitlist == Exits(bl, |bl|)
  {
    rootlist, exitlist := [], [];
    var i := 0;
    while i < |bl|
      invariant 0 <= i <= |bl|
      invariant forall k :: 0 <= k < i ==> bl[k].index == -1 && bl[k].dfnum == -1
      invariant rootlist == Roots(bl, i) && exitlist == Exits(bl, i)
    {
      var tmpbl := bl[i];
      tmpbl.index := -1;
      tmpbl.dfnum := -1;
      if |tmpbl.inn| == 0 { rootlist := rootlist + [tmpbl]; }
      if |tmpbl.out| == 0 { exitlist := exitlist + [tmpbl]; }
      i := i + 1;
    }
  }

  /** What the pass leaves behind: s is a spanning tree, and the fields of the first n
      blocks spell it.  The entry's numdesc is not reset, so it counts on from entryDesc;
      a label only gains flags. */
  ghost predicate PassResult(bl: seq<FlowBlock>, G: Graph, s: Dfs, entryDesc: int, labs0: Labels, n: nat)
    requires n <= |bl|
    reads bl`dfnum, bl`index, bl`numdesc, bl`out
  {
    if n == 0 then IsSpanningTree(G, s) && |bl| == |labs0| == |G|
    else PassResult(bl, G, s, entryDesc, labs0, n - 1) && FieldsAre(bl, s, entryDesc, labs0, n - 1)
  }

  ghost predicate FieldsAre(bl: seq<FlowBlock>, s: Dfs, entryDesc: int, labs0: Labels, v: nat)
    requires v < |bl|
    reads bl`dfnum, bl`index, bl`numdesc, bl`out
  {
    && |bl| == |s.dfnum| == |s.index| == |s.desc| == |s.kind| == |labs0|
    && NumbersAre(bl[v], s.dfnum[v], s.index[v], s.desc[v] + if v == 0 then entryDesc - 1 else 0)
    && LabelsAre(EdgeLabels(bl[v].out), labs0[v], s.kind[v])
  }

  lemma {:induction false} PassResultAt(bl: seq<FlowBlock>, G: Graph, s: Dfs, entryDesc: int, labs0: Labels, n: nat)
    requires n <= |bl| && PassResult(bl, G, s, entryDesc, labs0, n)
    ensures IsSpanningTree(G, s) && |bl| == |labs0| == |G|
    ensures forall v :: 0 <= v < n ==> FieldsAre(bl, s, entryDesc, labs0, v)
  {
    if n > 0 { PassResultAt(bl, G, s, entryDesc, labs0, n - 1); }
  }

  lemma {:induction false} PassResultFrom(bl: seq<FlowBlock>, G: Graph, s: Dfs, entryDesc: int, labs0: Labels, n: nat)
    requires n <= |bl| == |labs0| == |G| && IsSpanningTree(G, s)
    requires forall v :: 0 <= v < |bl| ==> FieldsAre(bl, s, entryDesc, labs0, v)
    ensures PassResult(bl, G, s, entryDesc, labs0, n)
  {
    if n > 0 { PassResultFrom(bl, G, s, entryDesc, labs0, n - 1); }
  }

  ghost predicate NumbersAre(b: FlowBlock, dfnum: int, index: int, numdesc: int)
    reads b`dfnum, b`index, b`numdesc
  {
    b.dfnum == dfnum && b.index == index && b.numdesc == numdesc
  }

  /** Every label is its old value and the flags of its kind. */
  ghost predicate LabelsAre(labs: seq<set<EdgeFlag>>, labs0: seq<set<EdgeFlag>>, kinds: seq<Kind>) {
    && |labs| == |labs0| == |kinds|
    && forall j :: 0 <= j < |labs| ==> labs[j] == labs0[j] + KindFlags(kinds[j])
  }

  lemma NumbersDone(bl: seq<FlowBlock>, s: Dfs, nd0: seq<int>, v: nat)
    requires v < |bl| == |s.dfnum| == |s.desc| == |s.index| == |nd0| && s.dfnum[v] >= 0
    requires Dfnums(bl, |bl|) == s.dfnum && Indices(bl, |bl|) == s.index && Numdescs(bl, |bl|) == NumdescsOf(s, nd0)
    ensures NumbersAre(bl[v], s.dfnum[v], s.index[v], s.desc[v] + if v == 0 then nd0[0] - 1 else 0)
  {
    assert Numdescs(bl, |bl|)[v] == NumdescsOf(s, nd0)[v];
    assert Dfnums(bl, |bl|)[v] == s.dfnum[v] && Indices(bl, |bl|)[v] == s.index[v];
  }

  lemma LabelsDone(bl: seq<FlowBlock>, s: Dfs, labs0: Labels, u: nat)
    requires u < |bl| == |labs0| == |s.cnt| == |s.kind| && |s.kind[u]| == |labs0[u]| == s.cnt[u]
    requires OutLabels(bl, |bl|) == LabelsOf(s, labs0)
    ensures LabelsAre(EdgeLabels(bl[u].out), labs0[u], s.kind[u])
  {
    assert OutLabels(bl, |bl|)[u] == LabelsOf(s, labs0)[u];
  }

  lemma StackEmptyResult(bl: seq<FlowBlock>, G: Graph, k: nat, s: Dfs, l: Locals, nd0: seq<int>, labs0: Labels)
    requires Fits(bl, G, k, s, nd0, labs0) && Seen(bl, l, ViewsOf(bl, s, nd0, labs0)) && |l.state| == 0
    requires forall v :: 0 <= v < |G| ==> Reaches(G, 0, v)
    ensures |nd0| > 0 && PassResult(bl, G, s, nd0[0], labs0, |bl|)
    ensures l.rpostorder == At(bl, s.rpo) && l.preorder == At(bl, s.pre)
  {
    ShapeAtEnd(G, k, s);
    RpostorderAtEnd(bl, s);
    FieldsDone(bl, G, s, nd0, labs0);
  }

  lemma FieldsDone(bl: seq<FlowBlock>, G: Graph, s: Dfs, nd0: seq<int>, labs0: Labels)
    requires IsSpanningTree(G, s) && |bl| == |G| == |nd0| == |labs0|
    requires forall v :: 0 <= v < |G| ==> s.dfnum[v] >= 0 && s.cnt[v] == |s.kind[v]| == |labs0[v]|
    requires Dfnums(bl, |bl|) == s.dfnum && Indices(bl, |bl|) == s.index && Numdescs(bl, |bl|) == NumdescsOf(s, nd0)
    requires OutLabels(bl, |bl|) == LabelsOf(s, labs0)
    ensures PassResult(bl, G, s, nd0[0], labs0, |bl|)
  {
    forall v | 0 <= v < |bl| ensures FieldsAre(bl, s, nd0[0], labs0, v) {
      LabelsDone(bl, s, labs0, v);
      NumbersDone(bl, s, nd0, v);
    }
    PassResultFrom(bl, G, s, nd0[0], labs0, |bl|);
  }

  lemma RpostorderAtEnd(bl: seq<FlowBlock>, s: Dfs)
    requires |s.rpo| == |bl| > 0
    ensures RpostorderOf(bl, s) == At(bl, s.rpo)
  {
  }

  lemma ShapeAtEnd(G: Graph, k: nat, s: Dfs)
    requires WellFormed(G) && ReachedIn(G, k, s) && s.stack == []
    requires forall v :: 0 <= v < |G| ==> Reaches(G, 0, v)
    ensures IsSpanningTree(G, s)
    ensures forall v :: 0 <= v < |G| ==> s.dfnum[v] >= 0 && s.cnt[v] == |s.kind[v]| == |G[v]|
  {
    ReachedInv(G, k, s);
    AllDone(G, s);
    WalkIsSpanningTree(G, s);
  }

  /** Number the blocks of g depth first, classify their edges and put them into reverse postorder. */
  method FindSpanningTree(g: BlockGraph, ghost G: Graph, ghost P: Graph)
      returns (status: Status, preorder: seq<FlowBlock>, rootlist: seq<FlowBlock>, ghost s: Dfs)
    requires Wired(g.blist, G, P, |g.blist|) && WellFormed(G) && Transposed(G, P)
    requires forall v :: 0 <= v < |G| ==> Reaches(G, 0, v)
    modifies g`exitlist, g`blist, g.blist`index, g.blist`dfnum, g.blist`numdesc, g.blist`out, g.blist`inn
    ensures Wired(old(g.blist), G, P, |old(g.blist)|) && |G| == |P| == |old(g.blist)|
    ensures status.Error? <==> |G| > 0 && |P[0]| > 0
    ensures status.Error? || |G| == 0 ==> g.blist == old(g.blist)
    ensures status.Done? && |G| > 0 ==>
      && PassResult(old(g.blist), G, s, old(g.blist[0].numdesc), old(OutLabels(g.blist, |g.blist|)), |G|)
      && g.blist == At(old(g.blist), s.rpo) && preorder == At(old(g.blist), s.pre)
    ensures status.Done? && |G| > 0 ==> |rootlist| == 1
    ensures |G| > 0 ==> rootlist == old(Roots(g.blist, |g.blist|)) && g.exitlist == old(Exits(g.blist, |g.blist|))
  {
    var exitlist, rpostorder;
    status, preorder, rootlist, exitlist, rpostorder, s := NumberBlocks(g.blist, G, P);
    if |g.blist| == 0 { return; }
    g.exitlist := exitlist;
    if status.Done? { g.blist := rpostorder; }
  }

  /** The pass over the blocks bl, which leaves the lists of the graph to its caller. */
  method NumberBlocks(bl: seq<FlowBlock>, ghost G: Graph, ghost P: Graph)
      returns (status: Status, preorder: seq<FlowBlock>, rootlist: seq<FlowBlock>, exitlist: seq<FlowBlock>,
               rpostorder: seq<FlowBlock>, ghost s: Dfs)
    requires Wired(bl, G, P, |bl|) && WellFormed(G) && Transposed(G, P)
    requires forall v :: 0 <= v < |G| ==> Reaches(G, 0, v)
    modifies bl`index, bl`dfnum, bl`numdesc, bl`out, bl`inn
    ensures Wired(bl, G, P, |bl|) && |G| == |P| == |bl|
    ensures status.Error? <==> |G| > 0 && |P[0]| > 0
    ensures status.Done? && |G| > 0 ==>
      && PassResult(bl, G, s, old(bl[0].numdesc), old(OutLabels(bl, |bl|)), |bl|)
      && rpostorder == At(bl, s.rpo) && preorder == At(bl, s.pre)
    ensures status.Done? && |G| > 0 ==> |rootlist| == 1
    ensures |G| > 0 ==> rootlist == old(Roots(bl, |bl|)) && exitlist == old(Exits(bl, |bl|))
  {
    status, preorder, rootlist, exitlist, rpostorder := Done, [], [], [], [];
    s := Dfs([], [], [], [], [], [], [], [], [], []);
    WiredSizes(bl, G, P);
    if |bl| == 0 { return; }
    OnlyEntryIsRoot(bl, G, P, |P|);
    ghost var desc, labs := bl[0].numdesc, OutLabels(bl, |bl|);
    rootlist, exitlist := ResetNumbers(bl);
    assert bl[0].numdesc == desc && OutLabels(bl, |bl|) == labs;
    if |rootlist| == 1 {
      preorder, rpostorder, s := Walk(bl, G, P);
    } else {
      status := Error("more root head");
    }
  }

  /** The walk from the entry until the stack is empty. */
  method Walk(bl: seq<FlowBlock>, ghost G: Graph, ghost P: Graph)
      returns (preorder: seq<FlowBlock>, rpostorder: seq<FlowBlock>, ghost s: Dfs)
    requires Wired(bl, G, P, |bl|) && |bl| == |G| > 0 && WellFormed(G)
    requires forall v :: 0 <= v < |G| ==> Reaches(G, 0, v)
    requires forall v :: 0 <= v < |bl| ==> bl[v].index == -1 && bl[v].dfnum == -1
    modifies bl`index, bl`dfnum, bl`numdesc, bl`out, bl`inn
    ensures Wired(bl, G, P, |bl|)
    ensures PassResult(bl, G, s, old(bl[0].numdesc), old(OutLabels(bl, |bl|)), |bl|)
    ensures rpostorder == At(bl, s.rpo) && preorder == At(bl, s.pre)
  {
    ghost var nd0, labs0 := Numdescs(bl, |bl|), OutLabels(bl, |bl|);
    var l;
    l, s := Begin(bl, G, P, nd0, labs0);
    ghost var k;
    l, s, k := Loop(bl, l, G, P, nd0, labs0);
    StackEmptyResult(bl, G, k, s, l, nd0, labs0);
    preorder, rpostorder := l.preorder, l.rpostorder;
  }

  /** Turns until the stack is empty. */
  method Loop(bl: seq<FlowBlock>, l0: Locals, ghost G: Graph, ghost P: Graph, ghost nd0: seq<int>, ghost labs0: Labels)
      returns (l: Locals, ghost s: Dfs, ghost k: nat)
    requires Wired(bl, G, P, |bl|) && |G| > 0
    requires Fits(bl, G, 0, Start(G), nd0, labs0) && Seen(bl, l0, ViewsOf(bl, Start(G), nd0, labs0))
    modifies bl`index, bl`dfnum, bl`numdesc, bl`out, bl`inn
    ensures Wired(bl, G, P, |bl|)
    ensures Fits(bl, G, k, s, nd0, labs0) && Seen(bl, l, ViewsOf(bl, s, nd0, labs0)) && |l.state| == 0
  {
    l, s, k := l0, Start(G), 0;
    while |l.state| > 0
      invariant Wired(bl, G, P, |bl|)
      invariant Fits(bl, G, k, s, nd0, labs0) && Seen(bl, l, ViewsOf(bl, s, nd0, labs0))
      decreases |G| - |s.pre|, |s.stack|, Remaining(G, s)
    {
      l, s := OneTurn(bl, l, G, P, k, s, nd0, labs0);
      k := k + 1;
    }
  }

  /** The entry goes on the stack as number 0. */
  method Begin(bl: seq<FlowBlock>, ghost G: Graph, ghost P: Graph, ghost nd0: seq<int>, ghost labs0: Labels)
      returns (l: Locals, ghost s: Dfs)
    requires Wired(bl, G, P, |bl|) && |bl| == |G| > 0 && WellFormed(G)
    requires forall v :: 0 <= v < |bl| ==> bl[v].index == -1 && bl[v].dfnum == -1
    requires nd0 == Numdescs(bl, |bl|) && labs0 == OutLabels(bl, |bl|)
    modifies {bl[0]}`dfnum
    ensures s == Start(G) && Fits(bl, G, 0, s, nd0, labs0) && Seen(bl, l, ViewsOf(bl, s, nd0, labs0))
  {
    WiredSizes(bl, G, P);
    s := Start(G);
    StartViews(bl, G, nd0, labs0);
    EnterFirst(bl, G, nd0, labs0);
    l := Locals(seq(|bl|, _ => 0), |bl|, [bl[0]], [bl[0]], seq(|bl|, _ => null));
  }

  method EnterFirst(bl: seq<FlowBlock>, ghost G: Graph, ghost nd0: seq<int>, ghost labs0: Labels)
    requires |bl| == |G| > 0 && forall i, j :: 0 <= i < j < |bl| ==> bl[i] != bl[j]
    requires forall v :: 0 <= v < |bl| ==> bl[v].index == -1 && bl[v].dfnum == -1
    requires nd0 == Numdescs(bl, |bl|) && labs0 == OutLabels(bl, |bl|)
    modifies {bl[0]}`dfnum
    ensures FieldsOf(bl) == Fields(Start(G).dfnum, Start(G).index, nd0, labs0)
  {
    bl[0].dfnum := 0;
    assert Dfnums(bl, |bl|) == Start(G).dfnum;
    assert Indices(bl, |bl|) == Start(G).index;
  }

  lemma StartViews(bl: seq<FlowBlock>, G: Graph, nd0: seq<int>, labs0: Labels)
    requires |bl| == |G| == |nd0| == |labs0| > 0
    ensures var s := Start(G);
      && NumdescsOf(s, nd0) == nd0 && LabelsOf(s, labs0) == labs0
      && Visits(s, |bl|) == seq(|bl|, _ => 0)
      && At(bl, s.stack) == [bl[0]] && At(bl, s.pre) == [bl[0]]
      && RpostorderOf(bl, s) == seq(|bl|, _ => null)
  {
    var s := Start(G);
    assert s.desc[0] == 1 && s.cnt[0] == 0;
    forall u | 0 <= u < |labs0| ensures LabelsOf(s, labs0)[u] == labs0[u] {
    }
  }

  /** The body of the loop. */
  method OneTurn(bl: seq<FlowBlock>, l0: Locals, ghost G: Graph, ghost P: Graph, ghost k: nat, ghost s0: Dfs,
                 ghost nd0: seq<int>, ghost labs0: Labels)
      returns (l: Locals, ghost s: Dfs)
    requires Wired(bl, G, P, |bl|)
    requires Fits(bl, G, k, s0, nd0, labs0) && Seen(bl, l0, ViewsOf(bl, s0, nd0, labs0)) && |l0.state| > 0
    modifies bl`index, bl`dfnum, bl`numdesc, bl`out, bl`inn
    ensures Wired(bl, G, P, |bl|)
    ensures Fits(bl, G, k + 1, s, nd0, labs0) && Seen(bl, l, ViewsOf(bl, s, nd0, labs0))
    ensures |s0.pre| <= |s.pre| <= |G|
    ensures |s.pre| == |s0.pre| ==> |s.stack| <= |s0.stack|
    ensures |s.pre| == |s0.pre| && |s.stack| == |s0.stack| ==> 0 <= Remaining(G, s) < Remaining(G, s0)
  {
    ghost var v := ViewsOf(bl, s0, nd0, labs0);
    s := ViewsMove(bl, G, k, s0, nd0, labs0);
    MoveDecreases(G, k, s0, s);
    l := Turn(bl, l0, G, P, v, s0.Top(), Below(s0));
  }
}
