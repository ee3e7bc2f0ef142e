/** The depth-first spanning tree: preorder numbers, reverse postorder, edge classes. */
module SpanningTree {
  import opened Graphs

  datatype Kind = Tree | Back | Forward | Cross

  /** The state of the walk over a graph whose nodes are positions.
      dfnum, index: -1 until assigned.  parent, slot: the tree edge that found the node.
      cnt: how many out-edges have been followed.  pre: the preorder so far.
      stack: the nodes being visited.  rpo: the filled tail of the reverse postorder. */
  datatype Dfs = Dfs(dfnum: seq<int>, index: seq<int>, desc: seq<int>, parent: seq<int>, slot: seq<int>,
                     cnt: seq<nat>, kind: seq<seq<Kind>>, pre: seq<nat>, stack: seq<nat>, rpo: seq<nat>)
  {
    function Top(): nat requires |stack| > 0 { stack[|stack| - 1] }
  }

  ghost predicate Shape(G: Graph, s: Dfs) {
    && WellFormed(G) && |G| > 0
    && |s.dfnum| == |s.index| == |s.desc| == |s.parent| == |s.slot| == |s.cnt| == |s.kind| == |G|
    && forall v :: 0 <= v < |G| ==> |s.kind[v]| == |G[v]| && s.cnt[v] <= |G[v]|
  }

  /** dfnum and pre are inverse to each other. */
  ghost predicate Numbering(dfnum: seq<int>, pre: seq<nat>) {
    && (forall k :: 0 <= k < |pre| ==> pre[k] < |dfnum| && dfnum[pre[k]] == k)
    && (forall v :: 0 <= v < |dfnum| ==> Numbered(dfnum, pre, v))
  }

  ghost predicate Numbered(dfnum: seq<int>, pre: seq<nat>, v: nat)
    requires v < |dfnum|
  {
    dfnum[v] == -1 || (0 <= dfnum[v] < |pre| && pre[dfnum[v]] == v)
  }

  /** The stack holds the nodes that are seen and not done, in the order they were seen. */
  ghost predicate StackOk(dfnum: seq<int>, index: seq<int>, stack: seq<nat>)
    requires |index| == |dfnum|
  {
    && (forall i :: 0 <= i < |stack| ==> stack[i] < |dfnum| && dfnum[stack[i]] >= 0 && index[stack[i]] == -1)
    && (forall i, j :: 0 <= i < j < |stack| ==> dfnum[stack[i]] < dfnum[stack[j]])
    && (forall v :: 0 <= v < |dfnum| && dfnum[v] >= 0 && index[v] == -1 ==> v in stack)
  }

  /** Each node on the stack was found from the one below it and has counted its finished children. */
  ghost predicate Links(dfnum: seq<int>, desc: seq<int>, parent: seq<int>, stack: seq<nat>, m: nat)
    requires |dfnum| == |desc| == |parent|
    requires forall i :: 0 <= i < |stack| ==> stack[i] < |dfnum|
  {
    && (forall i {:trigger Link(dfnum, desc, parent, stack, i)} ::
        0 < i < |stack| ==> Link(dfnum, desc, parent, stack, i))
    && (|stack| > 0 ==> var b := stack[|stack| - 1]; desc[b] == m - dfnum[b])
  }

  ghost predicate Link(dfnum: seq<int>, desc: seq<int>, parent: seq<int>, stack: seq<nat>, i: nat)
    requires 0 < i < |stack| && |dfnum| == |desc| == |parent|
    requires forall i :: 0 <= i < |stack| ==> stack[i] < |dfnum|
  {
    var p, c := stack[i - 1], stack[i];
    parent[c] == p && desc[p] == dfnum[c] - dfnum[p]
  }

  ghost predicate Counters(G: Graph, dfnum: seq<int>, index: seq<int>, cnt: seq<nat>)
    requires |dfnum| == |index| == |cnt| == |G|
  {
    && (forall v :: 0 <= v < |G| && dfnum[v] == -1 ==> index[v] == -1 && cnt[v] == 0)
    && (forall v :: 0 <= v < |G| && index[v] >= 0 ==> cnt[v] == |G[v]|)
  }

  /** index and rpo are inverse to each other; rpo holds the done nodes. */
  ghost predicate Finishing(index: seq<int>, rpo: seq<nat>) {
    && |rpo| <= |index|
    && (forall k :: 0 <= k < |rpo| ==> rpo[k] < |index| && index[rpo[k]] == |index| - |rpo| + k)
    && (forall v :: 0 <= v < |index| ==> Finished(index, rpo, v))
  }

  ghost predicate Finished(index: seq<int>, rpo: seq<nat>, v: nat)
    requires v < |index|
  {
    index[v] == -1 ||
    (|index| - |rpo| <= index[v] < |index| && rpo[index[v] - (|index| - |rpo|)] == v)
  }

  /** One past the preorder numbers that v's subtree has taken so far, of m in all. */
  function Limit(dfnum: seq<int>, index: seq<int>, desc: seq<int>, m: nat, v: nat): int
    requires v < |dfnum| == |index| == |desc|
  {
    if index[v] >= 0 then dfnum[v] + desc[v] else m
  }

  /** The subtree of a done node is a closed interval of preorder numbers of done nodes. */
  ghost predicate Descendants(dfnum: seq<int>, index: seq<int>, desc: seq<int>, m: nat)
    requires |dfnum| == |index| == |desc|
  {
    && (forall v :: 0 <= v < |dfnum| && index[v] >= 0 ==> 0 < desc[v] && dfnum[v] + desc[v] <= m)
    && (forall v, w ::
        0 <= v < |dfnum| && 0 <= w < |dfnum| && index[v] >= 0 && dfnum[v] <= dfnum[w] < dfnum[v] + desc[v] ==>
          index[w] >= 0)
  }

  /** u is v or an ancestor of v along parent links. */
  ghost predicate Ancestor(dfnum: seq<int>, parent: seq<int>, u: nat, v: nat)
    decreases if v < |dfnum| then dfnum[v] + 1 else 0
  {
    u == v ||
    (v < |dfnum| && v < |parent| && 0 <= parent[v] < |dfnum| && 0 <= dfnum[parent[v]] < dfnum[v]
     && Ancestor(dfnum, parent, u, parent[v]))
  }

  ghost predicate ParentOk(dfnum: seq<int>, parent: seq<int>, v: nat)
    requires v < |dfnum| == |parent|
  {
    if dfnum[v] > 0 then 0 <= parent[v] < |dfnum| && 0 <= dfnum[parent[v]] < dfnum[v] else parent[v] == -1
  }

  ghost predicate AncestorOk(dfnum: seq<int>, index: seq<int>, desc: seq<int>, parent: seq<int>, m: nat, u: nat, v: nat)
    requires u < |dfnum| && v < |dfnum| == |index| == |desc|
  {
    dfnum[u] >= 0 && dfnum[v] >= 0 ==>
      (Ancestor(dfnum, parent, u, v) <==> dfnum[u] <= dfnum[v] < Limit(dfnum, index, desc, m, u))
  }

  ghost predicate Ancestry(dfnum: seq<int>, index: seq<int>, desc: seq<int>, parent: seq<int>, m: nat)
    requires |dfnum| == |index| == |desc| == |parent|
  {
    && (forall v :: 0 <= v < |dfnum| ==> ParentOk(dfnum, parent, v))
    && (forall u, v :: 0 <= u < |dfnum| && 0 <= v < |dfnum| ==> AncestorOk(dfnum, index, desc, parent, m, u, v))
  }

  /** What the class k of the edge number j from u to v says; lu, lv are the limits of u and v. */
  ghost predicate ClassOk(k: Kind, du: int, dv: int, iu: int, iv: int, lu: int, lv: int, isTree: bool) {
    && du >= 0 && dv >= 0
    && (k == Tree <==> isTree)
    && (k == Tree ==> du < dv < lu)
    && (k == Back <==> dv <= du < lv)
    && (k == Forward ==> du < dv < lu)
    && (k == Cross ==> dv < du && lv <= du)
    && (k == Forward || k == Cross ==> iv >= 0)
    && (k != Back && iu >= 0 ==> iu < iv)
  }

  ghost predicate EdgeOk(G: Graph, s: Dfs, u: nat, j: nat)
    requires Shape(G, s) && u < |G| && j < |G[u]|
  {
    var v := G[u][j];
    ClassOk(s.kind[u][j], s.dfnum[u], s.dfnum[v], s.index[u], s.index[v],
            Limit(s.dfnum, s.index, s.desc, |s.pre|, u), Limit(s.dfnum, s.index, s.desc, |s.pre|, v),
            s.parent[v] == u && s.slot[v] == j)
  }

  /** The tree edge that found v has been followed and leads to v. */
  ghost predicate SlotOk(G: Graph, s: Dfs, v: nat)
    requires Shape(G, s) && v < |G|
  {
    s.dfnum[v] > 0 ==>
      0 <= s.parent[v] < |G| && 0 <= s.slot[v] < s.cnt[s.parent[v]] && G[s.parent[v]][s.slot[v]] == v
  }

  ghost predicate Edges(G: Graph, s: Dfs)
    requires Shape(G, s)
  {
    && (forall u, j :: 0 <= u < |G| && 0 <= j < s.cnt[u] ==> EdgeOk(G, s, u, j))
    && (forall v :: 0 <= v < |G| ==> SlotOk(G, s, v))
  }

  ghost predicate Inv(G: Graph, s: Dfs) {
    && Shape(G, s)
    && Numbering(s.dfnum, s.pre)
    && StackOk(s.dfnum, s.index, s.stack)
    && Links(s.dfnum, s.desc, s.parent, s.stack, |s.pre|)
    && Counters(G, s.dfnum, s.index, s.cnt)
    && Finishing(s.index, s.rpo) && |s.rpo| + |s.stack| == |s.pre| <= |G|
    && Descendants(s.dfnum, s.index, s.desc, |s.pre|)
    && Ancestry(s.dfnum, s.index, s.desc, s.parent, |s.pre|)
    && Edges(G, s)
    && s.dfnum[0] == 0
  }

  // ----- the moves of the walk

  function Start(G: Graph): (s: Dfs)
    requires |G| > 0
  {
    var minus := seq(|G|, _ => -1);
    Dfs(minus[0 := 0], minus, seq(|G|, _ => 1), minus, minus, seq(|G|, _ => 0),
        seq(|G|, u requires 0 <= u < |G| => seq(|G[u]|, _ => Tree)), [0], [0], [])
  }

  /** The top node is done: it takes the next free place from the end and adds its count to its parent's. */
  function Pop(s: Dfs): Dfs
    requires |s.stack| > 0 && s.Top() < |s.index| && s.Top() < |s.desc|
    requires |s.stack| > 1 ==> s.stack[|s.stack| - 2] < |s.desc|
  {
    var b := s.Top();
    var rest := s.stack[..|s.stack| - 1];
    s.(stack := rest, index := s.index[b := |s.index| - |s.rpo| - 1], rpo := [b] + s.rpo,
       desc := if rest == [] then s.desc
               else var p := rest[|rest| - 1]; s.desc[p := s.desc[p] + s.desc[b]])
  }

  /** Follow the next edge of the top node to the unseen node c. */
  function Push(s: Dfs, c: nat): Dfs
    requires |s.stack| > 0 && s.Top() < |s.cnt| && s.Top() < |s.kind| && s.cnt[s.Top()] < |s.kind[s.Top()]|
    requires c < |s.dfnum| && c < |s.parent| && c < |s.slot| && c < |s.desc|
  {
    var b := s.Top();
    s.(kind := s.kind[b := s.kind[b][s.cnt[b] := Tree]], cnt := s.cnt[b := s.cnt[b] + 1],
       dfnum := s.dfnum[c := |s.pre|], pre := s.pre + [c], stack := s.stack + [c], desc := s.desc[c := 1],
       parent := s.parent[c := b], slot := s.slot[c := s.cnt[b]])
  }

  /** Follow the next edge of the top node to a node seen before. */
  function Classify(s: Dfs, k: Kind): Dfs
    requires |s.stack| > 0 && s.Top() < |s.cnt| && s.Top() < |s.kind| && s.cnt[s.Top()] < |s.kind[s.Top()]|
  {
    var b := s.Top();
    s.(kind := s.kind[b := s.kind[b][s.cnt[b] := k]], cnt := s.cnt[b := s.cnt[b] + 1])
  }

  /** The kind of an edge from the node b on top of the stack to a node c seen before. */
  function KindOf(s: Dfs, b: nat, c: nat): Kind
    requires b < |s.dfnum| && c < |s.dfnum| && c < |s.index|
  {
    if s.index[c] == -1 then Back else if s.dfnum[b] < s.dfnum[c] then Forward else Cross
  }

  lemma StartInv(G: Graph)
    requires WellFormed(G) && |G| > 0
    ensures Inv(G, Start(G))
  {
    var s := Start(G);
    assert s.pre == [0] && s.stack == [0] && s.dfnum[0] == 0;
  }

  /** How a seen node c lies relative to the top of the stack. */
  lemma StackTop(G: Graph, s: Dfs, c: nat)
    requires Inv(G, s) && |s.stack| > 0 && c < |G| && s.dfnum[c] >= 0
    ensures s.index[c] == -1 ==> s.dfnum[c] <= s.dfnum[s.Top()]
    ensures s.index[c] >= 0 ==> c != s.Top() && s.dfnum[c] != s.dfnum[s.Top()]
    ensures s.index[c] >= 0 ==> !(s.dfnum[c] <= s.dfnum[s.Top()] < Limit(s.dfnum, s.index, s.desc, |s.pre|, c))
    ensures s.dfnum[s.Top()] < |s.pre| && s.dfnum[c] < |s.pre|
    ensures s.index[c] == -1 || s.index[c] >= 0
  {
    assert Numbered(s.dfnum, s.pre, c) && Numbered(s.dfnum, s.pre, s.Top()) && Finished(s.index, s.rpo, c);
    if s.index[c] == -1 {
      var i :| 0 <= i < |s.stack| && s.stack[i] == c;
    }
  }

  lemma ClassifyInv(G: Graph, s: Dfs, c: nat)
    requires Inv(G, s) && |s.stack| > 0 && s.cnt[s.Top()] < |G[s.Top()]|
    requires c == G[s.Top()][s.cnt[s.Top()]] && s.dfnum[c] >= 0
    ensures Inv(G, Classify(s, KindOf(s, s.Top(), c)))
  {
    var b := s.Top();
    var t := Classify(s, KindOf(s, b, c));
    forall u, j | 0 <= u < |G| && 0 <= j < t.cnt[u] ensures EdgeOk(G, t, u, j) {
      if u == b && j == s.cnt[b] {
        StackTop(G, s, c);
        assert SlotOk(G, s, c) && ParentOk(s.dfnum, s.parent, c);
      } else {
        assert EdgeOk(G, s, u, j);
      }
    }
    forall v | 0 <= v < |G| ensures SlotOk(G, t, v) {
      assert SlotOk(G, s, v);
    }
  }

  // ----- Push keeps the invariant

  ghost predicate CanPush(G: Graph, s: Dfs, c: nat) {
    && Inv(G, s) && |s.stack| > 0 && s.cnt[s.Top()] < |G[s.Top()]|
    && c == G[s.Top()][s.cnt[s.Top()]] && s.dfnum[c] == -1
  }

  lemma {:induction false} AncestorSame(dfnum: seq<int>, parent: seq<int>, c: nat, m: nat, p: int, u: nat, v: nat)
    requires c < |dfnum| == |parent| && v < |dfnum| && dfnum[c] == -1 && dfnum[v] >= 0
    requires forall w :: 0 <= w < |dfnum| ==> ParentOk(dfnum, parent, w)
    ensures Ancestor(dfnum[c := m], parent[c := p], u, v) <==> Ancestor(dfnum, parent, u, v)
    decreases dfnum[v]
  {
    assert ParentOk(dfnum, parent, v);
    if u != v && dfnum[v] > 0 { AncestorSame(dfnum, parent, c, m, p, u, parent[v]); }
  }

  lemma PushNumbering(G: Graph, s: Dfs, c: nat)
    requires CanPush(G, s, c)
    ensures var t := Push(s, c); Numbering(t.dfnum, t.pre) && |t.pre| <= |G|
  {
    var t := Push(s, c);
    forall v | 0 <= v < |G| ensures Numbered(t.dfnum, t.pre, v) {
      assert Numbered(s.dfnum, s.pre, v);
    }
    assert forall i, j :: 0 <= i < j < |t.pre| ==> t.pre[i] != t.pre[j] by {
      assert forall k :: 0 <= k < |t.pre| ==> t.dfnum[t.pre[k]] == k;
    }
    Pigeonhole(t.pre, |G|);
  }

  lemma PushStack(G: Graph, s: Dfs, c: nat)
    requires CanPush(G, s, c)
    ensures var t := Push(s, c); StackOk(t.dfnum, t.index, t.stack)
  {
    forall i | 0 <= i < |s.stack| ensures s.dfnum[s.stack[i]] < |s.pre| {
      assert Numbered(s.dfnum, s.pre, s.stack[i]);
    }
    StackPushed(s.dfnum, s.index, s.stack, c, |s.pre|);
  }

  lemma StackPushed(dfnum: seq<int>, index: seq<int>, stack: seq<nat>, c: nat, m: nat)
    requires |index| == |dfnum| && StackOk(dfnum, index, stack) && c < |dfnum| && dfnum[c] == -1 && index[c] == -1
    requires forall i :: 0 <= i < |stack| ==> dfnum[stack[i]] < m
    ensures StackOk(dfnum[c := m], index, stack + [c])
  {
    var dfnum', stack' := dfnum[c := m], stack + [c];
    forall i | 0 <= i < |stack| ensures stack'[i] == stack[i] && dfnum'[stack'[i]] == dfnum[stack[i]] {}
    assert stack'[|stack|] == c;
    forall v | 0 <= v < |dfnum| && dfnum'[v] >= 0 && index[v] == -1 ensures v in stack' {
      if v != c { assert v in stack; }
    }
  }

  lemma StackPopped(dfnum: seq<int>, index: seq<int>, stack: seq<nat>, b: nat, x: int)
    requires |index| == |dfnum| && StackOk(dfnum, index, stack) && |stack| > 0 && b == stack[|stack| - 1] && x >= 0
    ensures b < |index| && StackOk(dfnum, index[b := x], stack[..|stack| - 1])
  {
    var index', stack' := index[b := x], stack[..|stack| - 1];
    forall v | 0 <= v < |dfnum| && dfnum[v] >= 0 && index'[v] == -1 ensures v in stack' {
      assert v in stack;
      var i :| 0 <= i < |stack| && stack[i] == v;
      assert stack'[i] == v;
    }
  }

  lemma PushLinks(dfnum: seq<int>, desc: seq<int>, parent: seq<int>, stack: seq<nat>, m: nat, c: nat)
    requires |dfnum| == |desc| == |parent| && |stack| > 0 && c < |dfnum| && dfnum[c] == -1
    requires forall i :: 0 <= i < |stack| ==> stack[i] < |dfnum| && dfnum[stack[i]] >= 0
    requires Links(dfnum, desc, parent, stack, m)
    ensures Links(dfnum[c := m], desc[c := 1], parent[c := stack[|stack| - 1]], stack + [c], m + 1)
  {
    var k := |stack|;
    var stack' := stack + [c];
    forall i | 0 <= i <= k ensures stack'[i] < |dfnum| && (i < k ==> stack'[i] == stack[i] != c) {
    }
    var dfnum', desc', parent' := dfnum[c := m], desc[c := 1], parent[c := stack[k - 1]];
    forall i | 0 < i < |stack'| ensures Link(dfnum', desc', parent', stack', i) {
      if i < k { assert Link(dfnum, desc, parent, stack, i); }
    }
  }

  lemma PushDescendants(G: Graph, s: Dfs, c: nat)
    requires CanPush(G, s, c)
    ensures var t := Push(s, c);
            && Counters(G, t.dfnum, t.index, t.cnt)
            && Descendants(t.dfnum, t.index, t.desc, |t.pre|)
  {
    assert s.index[c] == -1;
    StackTop(G, s, s.Top());
  }

  lemma PushAncestry(G: Graph, s: Dfs, c: nat)
    requires CanPush(G, s, c)
    ensures var t := Push(s, c); Ancestry(t.dfnum, t.index, t.desc, t.parent, |t.pre|)
  {
    var t := Push(s, c);
    var b := s.Top();
    StackTop(G, s, b);
    assert s.index[c] == -1 && b != c;
    forall v | 0 <= v < |G| ensures ParentOk(t.dfnum, t.parent, v) {
      assert ParentOk(s.dfnum, s.parent, v);
      assert Numbered(s.dfnum, s.pre, v);
    }
    forall u, v | 0 <= u < |G| && 0 <= v < |G| ensures AncestorOk(t.dfnum, t.index, t.desc, t.parent, |t.pre|, u, v) {
      PushAncestorOk(G, s, c, u, v);
    }
  }

  lemma PushAncestorOk(G: Graph, s: Dfs, c: nat, u: nat, v: nat)
    requires CanPush(G, s, c) && u < |G| && v < |G|
    ensures var t := Push(s, c); AncestorOk(t.dfnum, t.index, t.desc, t.parent, |t.pre|, u, v)
  {
    var t := Push(s, c);
    var b := s.Top();
    StackTop(G, s, b);
    assert Numbered(s.dfnum, s.pre, u) && Numbered(s.dfnum, s.pre, v);
    if t.dfnum[u] >= 0 && t.dfnum[v] >= 0 {
      if v == c {
        AncestorSame(s.dfnum, s.parent, c, |s.pre|, b, u, b);
        if u != c {
          assert AncestorOk(s.dfnum, s.index, s.desc, s.parent, |s.pre|, u, b);
          StackTop(G, s, u);
        }
      } else {
        AncestorSame(s.dfnum, s.parent, c, |s.pre|, b, u, v);
        if u == c {
          AncestorSeen(s.dfnum, s.parent, c, v);
        } else {
          assert AncestorOk(s.dfnum, s.index, s.desc, s.parent, |s.pre|, u, v);
        }
      }
    }
  }

  lemma {:induction false} AncestorSeen(dfnum: seq<int>, parent: seq<int>, u: nat, v: nat)
    requires u < |dfnum| == |parent| && v < |dfnum| && dfnum[u] == -1 && dfnum[v] >= 0
    requires forall w :: 0 <= w < |dfnum| ==> ParentOk(dfnum, parent, w)
    ensures !Ancestor(dfnum, parent, u, v)
    decreases dfnum[v]
  {
    assert ParentOk(dfnum, parent, v);
    if dfnum[v] > 0 { AncestorSeen(dfnum, parent, u, parent[v]); }
  }

  lemma PushEdges(G: Graph, s: Dfs, c: nat)
    requires CanPush(G, s, c)
    ensures var t := Push(s, c); Shape(G, t) && Edges(G, t)
  {
    var t := Push(s, c);
    var b := s.Top();
    StackTop(G, s, b);
    assert s.index[c] == -1;
    forall u, j | 0 <= u < |G| && 0 <= j < t.cnt[u] ensures EdgeOk(G, t, u, j) {
      if u != b || j != s.cnt[b] { PushEdgeOk(G, s, c, u, j); }
    }
    forall v | 0 <= v < |G| ensures SlotOk(G, t, v) {
      assert SlotOk(G, s, v);
    }
  }

  lemma PushEdgeOk(G: Graph, s: Dfs, c: nat, u: nat, j: nat)
    requires CanPush(G, s, c) && u < |G| && j < s.cnt[u]
    ensures Shape(G, Push(s, c)) && EdgeOk(G, Push(s, c), u, j)
  {
    assert EdgeOk(G, s, u, j);
    assert Numbered(s.dfnum, s.pre, u) && Numbered(s.dfnum, s.pre, G[u][j]);
    assert Finished(s.index, s.rpo, G[u][j]);
  }

  lemma PushInv(G: Graph, s: Dfs, c: nat)
    requires CanPush(G, s, c)
    ensures Inv(G, Push(s, c))
  {
    PushNumbering(G, s, c);
    PushStack(G, s, c);
    PushLinks(s.dfnum, s.desc, s.parent, s.stack, |s.pre|, c);
    PushDescendants(G, s, c);
    PushAncestry(G, s, c);
    PushEdges(G, s, c);
  }

  // ----- Pop keeps the invariant

  ghost predicate CanPop(G: Graph, s: Dfs) {
    Inv(G, s) && |s.stack| > 0 && s.cnt[s.Top()] == |G[s.Top()]|
  }

  lemma PopFinishing(G: Graph, s: Dfs)
    requires CanPop(G, s)
    ensures var t := Pop(s); Finishing(t.index, t.rpo) && |t.rpo| + |t.stack| == |t.pre|
  {
    var t := Pop(s);
    forall v | 0 <= v < |G| ensures Finished(t.index, t.rpo, v) {
      assert Finished(s.index, s.rpo, v);
    }
    assert forall k :: 0 < k < |t.rpo| ==> t.rpo[k] == s.rpo[k - 1];
  }

  lemma PopStack(G: Graph, s: Dfs)
    requires CanPop(G, s)
    ensures var t := Pop(s); StackOk(t.dfnum, t.index, t.stack)
  {
    StackPopped(s.dfnum, s.index, s.stack, s.Top(), |s.index| - |s.rpo| - 1);
  }

  lemma PopCounters(G: Graph, s: Dfs)
    requires CanPop(G, s)
    ensures var t := Pop(s); Counters(G, t.dfnum, t.index, t.cnt)
  {
  }

  lemma PopLinks(G: Graph, s: Dfs)
    requires CanPop(G, s)
    ensures var t := Pop(s); Links(t.dfnum, t.desc, t.parent, t.stack, |t.pre|)
  {
    var t := Pop(s);
    var k := |t.stack|;
    if k > 0 { assert Link(s.dfnum, s.desc, s.parent, s.stack, k); }
    forall i | 0 < i < k ensures Link(t.dfnum, t.desc, t.parent, t.stack, i) {
      assert Link(s.dfnum, s.desc, s.parent, s.stack, i);
      assert t.stack[i] == s.stack[i] && t.stack[i - 1] == s.stack[i - 1];
      assert s.dfnum[s.stack[i - 1]] < s.dfnum[s.stack[k - 1]];
    }
  }

  lemma PopLimit(G: Graph, s: Dfs, v: nat)
    requires CanPop(G, s) && v < |G|
    ensures var t := Pop(s); Limit(t.dfnum, t.index, t.desc, |t.pre|, v) == Limit(s.dfnum, s.index, s.desc, |s.pre|, v)
  {
    if |s.stack| > 1 { assert s.index[s.stack[|s.stack| - 2]] == -1; }
  }

  lemma PopDescendants(G: Graph, s: Dfs)
    requires CanPop(G, s)
    ensures var t := Pop(s); Descendants(t.dfnum, t.index, t.desc, |t.pre|)
  {
    var t := Pop(s);
    var b := s.Top();
    forall v | 0 <= v < |G| && t.index[v] >= 0 ensures t.desc[v] > 0 && t.dfnum[v] + t.desc[v] <= |t.pre| {
      PopLimit(G, s, v);
      StackTop(G, s, b);
    }
    forall v, w | 0 <= v < |G| && 0 <= w < |G| && t.index[v] >= 0 && t.dfnum[v] <= t.dfnum[w] < t.dfnum[v] + t.desc[v]
      ensures t.index[w] >= 0
    {
      PopLimit(G, s, v);
      assert Finished(s.index, s.rpo, w) && Finished(s.index, s.rpo, v);
      if v == b { PopDoneAbove(G, s, w); }
    }
  }

  lemma PopDoneAbove(G: Graph, s: Dfs, w: nat)
    requires CanPop(G, s) && w < |G| && s.dfnum[w] >= s.dfnum[s.Top()]
    ensures w == s.Top() || s.index[w] >= 0
  {
    assert Finished(s.index, s.rpo, w);
    if s.index[w] == -1 {
      var i :| 0 <= i < |s.stack| && s.stack[i] == w;
    }
  }

  lemma PopAncestry(G: Graph, s: Dfs)
    requires CanPop(G, s)
    ensures var t := Pop(s); Ancestry(t.dfnum, t.index, t.desc, t.parent, |t.pre|)
  {
    var t := Pop(s);
    forall u, v | 0 <= u < |G| && 0 <= v < |G| ensures AncestorOk(t.dfnum, t.index, t.desc, t.parent, |t.pre|, u, v) {
      PopLimit(G, s, u);
      assert AncestorOk(s.dfnum, s.index, s.desc, s.parent, |s.pre|, u, v);
    }
  }

  lemma PopEdges(G: Graph, s: Dfs)
    requires CanPop(G, s)
    ensures Shape(G, Pop(s)) && Edges(G, Pop(s))
  {
    var t := Pop(s);
    forall u, j | 0 <= u < |G| && 0 <= j < t.cnt[u] ensures EdgeOk(G, t, u, j) {
      PopEdgeOk(G, s, u, j);
    }
    forall v | 0 <= v < |G| ensures SlotOk(G, t, v) {
      assert SlotOk(G, s, v);
    }
  }

  lemma PopEdgeOk(G: Graph, s: Dfs, u: nat, j: nat)
    requires CanPop(G, s) && u < |G| && j < s.cnt[u]
    ensures Shape(G, Pop(s)) && EdgeOk(G, Pop(s), u, j)
  {
    var b, v := s.Top(), G[u][j];
    assert EdgeOk(G, s, u, j);
    PopLimit(G, s, u);
    PopLimit(G, s, v);
    assert Finished(s.index, s.rpo, v) && Finished(s.index, s.rpo, u);
    if u == b && s.dfnum[v] >= s.dfnum[b] { PopDoneAbove(G, s, v); }
  }

  lemma PopInv(G: Graph, s: Dfs)
    requires CanPop(G, s)
    ensures Inv(G, Pop(s))
  {
    PopFinishing(G, s);
    PopStack(G, s);
    PopCounters(G, s);
    PopLinks(G, s);
    PopDescendants(G, s);
    PopAncestry(G, s);
    PopEdges(G, s);
  }

  // ----- the states of the walk

  /** t follows s by one move of the walk. */
  ghost predicate Next(G: Graph, s: Dfs, t: Dfs) {
    && Shape(G, s) && |s.stack| > 0 && s.Top() < |G|
    && (|s.stack| > 1 ==> s.stack[|s.stack| - 2] < |G|)
    && var b := s.Top();
       if s.cnt[b] == |G[b]| then t == Pop(s)
       else var c := G[b][s.cnt[b]];
         t == if s.dfnum[c] == -1 then Push(s, c) else Classify(s, KindOf(s, b, c))
  }

  /** s is reached from the start by k moves. */
  ghost predicate ReachedIn(G: Graph, k: nat, s: Dfs) {
    if k == 0 then |G| > 0 && s == Start(G)
    else exists r :: ReachedIn(G, k - 1, r) && Next(G, r, s)
  }

  lemma NextInv(G: Graph, s: Dfs, t: Dfs)
    requires Inv(G, s) && Next(G, s, t)
    ensures Inv(G, t)
  {
    var b := s.Top();
    if s.cnt[b] == |G[b]| {
      PopInv(G, s);
    } else {
      var c := G[b][s.cnt[b]];
      assert Numbered(s.dfnum, s.pre, c);
      if s.dfnum[c] == -1 { PushInv(G, s, c); } else { ClassifyInv(G, s, c); }
    }
  }

  /** Every state of the walk satisfies the invariant. */
  lemma {:induction false} ReachedInv(G: Graph, k: nat, s: Dfs)
    requires WellFormed(G) && ReachedIn(G, k, s)
    ensures Inv(G, s)
    decreases k
  {
    if k == 0 {
      StartInv(G);
    } else {
      var n := k - 1;
      var r := Previous(G, k, n, s);
      ReachedInv(G, n, r);
      NextInv(G, r, s);
    }
  }

  lemma Previous(G: Graph, k: nat, n: nat, s: Dfs) returns (r: Dfs)
    requires k == n + 1 && ReachedIn(G, k, s)
    ensures ReachedIn(G, n, r) && Next(G, r, s)
  {
    r :| ReachedIn(G, k - 1, r) && Next(G, r, s);
  }

  // ----- the finished walk

  /** dfnum and index are bijections onto 0..n, with pre and rpo as their inverses. */
  ghost predicate Bijections(G: Graph, s: Dfs)
    requires Shape(G, s)
  {
    && |s.pre| == |G| && |s.rpo| == |G|
    && (forall v :: 0 <= v < |G| ==> 0 <= s.dfnum[v] < |G| && s.pre[s.dfnum[v]] == v)
    && (forall v :: 0 <= v < |G| ==> 0 <= s.index[v] < |G| && s.rpo[s.index[v]] == v)
    && (forall k :: 0 <= k < |G| ==>
        s.pre[k] < |G| && s.dfnum[s.pre[k]] == k && s.rpo[k] < |G| && s.index[s.rpo[k]] == k)
    && s.dfnum[0] == 0 && s.index[0] == 0
  }

  /** The class of edge number j of u, in terms of tree ancestry and the reverse postorder. */
  ghost predicate EdgeClass(G: Graph, s: Dfs, u: nat, j: nat)
    requires Shape(G, s) && u < |G| && j < |G[u]|
  {
    var v, k := G[u][j], s.kind[u][j];
    && (k == Tree <==> s.parent[v] == u && s.slot[v] == j)
    && (k == Back <==> Ancestor(s.dfnum, s.parent, v, u))
    && (k == Forward ==> u != v && Ancestor(s.dfnum, s.parent, u, v))
    && (k == Cross ==> !Ancestor(s.dfnum, s.parent, u, v) && s.dfnum[v] < s.dfnum[u])
    && (k != Back <==> s.index[u] < s.index[v])
  }

  /** u is an ancestor of v iff v's preorder number lies in u's interval. */
  ghost predicate Interval(s: Dfs, u: nat, v: nat)
    requires u < |s.dfnum| == |s.desc| && v < |s.dfnum|
  {
    Ancestor(s.dfnum, s.parent, u, v) <==> s.dfnum[u] <= s.dfnum[v] < s.dfnum[u] + s.desc[u]
  }

  ghost predicate IsSpanningTree(G: Graph, s: Dfs) {
    && Shape(G, s)
    && Bijections(G, s)
    && (forall u, j :: 0 <= u < |G| && 0 <= j < |G[u]| ==> EdgeClass(G, s, u, j))
    && (forall u, v :: 0 <= u < |G| && 0 <= v < |G| ==> Interval(s, u, v))
    && (forall v :: 0 < v < |G| ==> FoundByTreeEdge(G, s, v))
  }

  /** v was found along the tree edge number slot[v] of its parent. */
  ghost predicate FoundByTreeEdge(G: Graph, s: Dfs, v: nat)
    requires Shape(G, s) && v < |G|
  {
    && 0 <= s.parent[v] < |G| && 0 <= s.slot[v] < |G[s.parent[v]]|
    && G[s.parent[v]][s.slot[v]] == v && s.kind[s.parent[v]][s.slot[v]] == Tree
  }

  lemma AllDone(G: Graph, s: Dfs)
    requires Inv(G, s) && s.stack == []
    requires forall v :: 0 <= v < |G| ==> Reaches(G, 0, v)
    ensures forall v :: 0 <= v < |G| ==> s.dfnum[v] >= 0 && s.index[v] >= 0 && s.cnt[v] == |G[v]|
    ensures |s.pre| == |G| && |s.rpo| == |G|
  {
    AllSeen(G, s);
    FinishedNumbers(G, s);
  }

  /** With an empty stack, what was seen is finished and leads only to what was seen. */
  lemma AllSeen(G: Graph, s: Dfs)
    requires Inv(G, s) && s.stack == []
    requires forall v :: 0 <= v < |G| ==> Reaches(G, 0, v)
    ensures forall v :: 0 <= v < |G| ==> s.dfnum[v] >= 0 && s.index[v] >= 0 && s.cnt[v] == |G[v]|
  {
    var seen := set v: nat | v < |G| && s.dfnum[v] >= 0;
    forall v: nat | v in seen ensures s.index[v] >= 0 && s.cnt[v] == |G[v]| {
      assert Finished(s.index, s.rpo, v);
    }
    forall a, b | a in seen && Edge(G, a, b) ensures b in seen {
      var j :| 0 <= j < |G[a]| && G[a][j] == b;
      assert EdgeOk(G, s, a, j);
    }
    forall v | 0 <= v < |G| ensures v in seen {
      assert Reaches(G, 0, v);
      var p :| PathBetween(G, 0, p, v);
      ClosedContainsPath(G, seen, 0, p, v);
    }
  }

  lemma FinishedNumbers(G: Graph, s: Dfs)
    requires Inv(G, s) && s.stack == [] && forall v :: 0 <= v < |G| ==> s.index[v] >= 0
    ensures |s.pre| == |G| && |s.rpo| == |G|
  {
    var inverse := seq(|G|, v requires 0 <= v < |G| => s.index[v] - (|G| - |s.rpo|));
    forall v | 0 <= v < |G| ensures 0 <= inverse[v] < |s.rpo| && s.rpo[inverse[v]] == v {
      assert Finished(s.index, s.rpo, v);
    }
    Pigeonhole(inverse, |s.rpo|);
    assert |s.rpo| == |s.pre|;
  }

  /** Everything is done and every number is in range. */
  ghost predicate Complete(G: Graph, s: Dfs) {
    && Inv(G, s)
    && (forall v :: 0 <= v < |G| ==> s.dfnum[v] >= 0 && s.index[v] >= 0 && s.cnt[v] == |G[v]|)
    && |s.pre| == |G| && |s.rpo| == |G|
  }

  lemma {:induction false} AncestorEarlier(G: Graph, s: Dfs, u: nat, v: nat)
    requires Complete(G, s) && u < |G| && v < |G|
    requires Ancestor(s.dfnum, s.parent, u, v)
    ensures s.index[u] <= s.index[v]
    decreases s.dfnum[v]
  {
    assert ParentOk(s.dfnum, s.parent, v) && SlotOk(G, s, v);
    if u != v {
      assert EdgeOk(G, s, s.parent[v], s.slot[v]);
      AncestorEarlier(G, s, u, s.parent[v]);
    }
  }

  lemma {:induction false} RootIsAncestor(G: Graph, s: Dfs, v: nat)
    requires Complete(G, s) && v < |G|
    ensures Ancestor(s.dfnum, s.parent, 0, v)
    decreases s.dfnum[v]
  {
    assert ParentOk(s.dfnum, s.parent, v) && Numbered(s.dfnum, s.pre, v) && Numbered(s.dfnum, s.pre, 0);
    if v != 0 { RootIsAncestor(G, s, s.parent[v]); }
  }

  lemma FinalEdgeClass(G: Graph, s: Dfs, u: nat, j: nat)
    requires Complete(G, s) && u < |G| && j < |G[u]|
    ensures EdgeClass(G, s, u, j)
  {
    var v := G[u][j];
    assert EdgeOk(G, s, u, j);
    assert AncestorOk(s.dfnum, s.index, s.desc, s.parent, |s.pre|, u, v);
    assert AncestorOk(s.dfnum, s.index, s.desc, s.parent, |s.pre|, v, u);
    if s.kind[u][j] == Back { AncestorEarlier(G, s, v, u); }
  }

  lemma FinalNumbers(G: Graph, s: Dfs)
    requires Complete(G, s)
    ensures Bijections(G, s)
  {
    forall v | 0 <= v < |G|
      ensures 0 <= s.dfnum[v] < |G| && s.pre[s.dfnum[v]] == v && s.index[v] < |G| && s.rpo[s.index[v]] == v
    {
      assert Numbered(s.dfnum, s.pre, v) && Finished(s.index, s.rpo, v);
    }
    RootIsAncestor(G, s, s.rpo[0]);
    AncestorEarlier(G, s, 0, s.rpo[0]);
  }

  /** A walk that has run out of nodes has built a spanning tree. */
  lemma WalkIsSpanningTree(G: Graph, s: Dfs)
    requires Inv(G, s) && s.stack == []
    requires forall v :: 0 <= v < |G| ==> Reaches(G, 0, v)
    ensures IsSpanningTree(G, s)
  {
    AllDone(G, s);
    FinalNumbers(G, s);
    forall u, v | 0 <= u < |G| && 0 <= v < |G| ensures Interval(s, u, v) {
      assert AncestorOk(s.dfnum, s.index, s.desc, s.parent, |s.pre|, u, v);
    }
    forall u, j | 0 <= u < |G| && 0 <= j < |G[u]| ensures EdgeClass(G, s, u, j) {
      FinalEdgeClass(G, s, u, j);
    }
    forall v | 0 < v < |G| ensures FoundByTreeEdge(G, s, v) {
      assert SlotOk(G, s, v) && s.pre[0] == 0;
      assert EdgeOk(G, s, s.parent[v], s.slot[v]);
    }
  }

  // ----- the graph renamed by reverse postorder

  function Renamed(G: Graph, s: Dfs): (H: Graph)
    ensures |H| == |G|
  {
    seq(|G|, i requires 0 <= i < |G| =>
      if i < |s.rpo| && s.rpo[i] < |G| then
        seq(|G[s.rpo[i]]|, j requires 0 <= j < |G[s.rpo[i]]| =>
          var v := G[s.rpo[i]][j];
          if v < |s.index| && s.index[v] >= 0 then s.index[v] else 0)
      else [])
  }

  lemma RenamedEdges(G: Graph, s: Dfs)
    requires WellFormed(G) && |s.rpo| == |s.index| == |G|
    requires forall i :: 0 <= i < |G| ==> s.rpo[i] < |G| && 0 <= s.index[i]
    ensures var H := Renamed(G, s);
      && (forall i :: 0 <= i < |G| ==> |H[i]| == |G[s.rpo[i]]|)
      && (forall i, j :: 0 <= i < |G| && 0 <= j < |H[i]| ==> G[s.rpo[i]][j] < |G| && H[i][j] == s.index[G[s.rpo[i]][j]])
  {
  }

  /** Listed in reverse postorder, every block but the entry has an earlier predecessor. */
  lemma RenamedIsOrdered(G: Graph, s: Dfs)
    requires IsSpanningTree(G, s)
    ensures ReversePostorder(Renamed(G, s))
  {
    var H := Renamed(G, s);
    RenamedEdges(G, s);
    forall i | 0 < i < |H| ensures EarlierPredecessor(H, i) {
      var v := s.rpo[i];
      assert FoundByTreeEdge(G, s, v);
      var u, k: nat := s.parent[v], s.slot[v];
      assert EdgeClass(G, s, u, k);
      assert H[s.index[u]][k] == i;
      assert Edge(H, s.index[u], i);
    }
  }
}
