/** Folding a phi whose web of phis and copy chains has only one constant among its leaves. */
module PhiFolding {
  import opened Graphs
  import opened Sequences
  import opened Pcode
  import opened ValueFlow

  // ----- comparing value types

  function Rank(h: Height): int {
    match h
    case Top => 0
    case Constant => 1
    case SpConstant => 2
    case PcConstant => 3
    case TopEven => 4
    case TopOdd => 5
    case Bottom => 6
  }

  /** Conversion to a signed 32-bit integer. */
  function ToInt32(x: int): int {
    (x + 0x8000_0000) % 0x1_0000_0000 - 0x8000_0000
  }

  function Cmp(a: ValueType, b: ValueType): int {
    if a.height == b.height then if a.height == Top then 1 else ToInt32(a.v - b.v) else Rank(a.height) - Rank(b.height)
  }

  predicate Same(a: ValueType, b: ValueType) {
    Cmp(a, b) == 0
  }

  predicate Fits32(t: ValueType) {
    -0x8000_0000 <= t.v < 0x8000_0000
  }

  /** The comparison looks at 32 bits of the difference only: it holds between constants whose
      values differ by any multiple of 2^32, and is exact between values of 32 bits. */
  lemma SameConstants(a: ValueType, b: ValueType)
    requires a.IsGenConstant()
    ensures Same(a, b) <==> a.height == b.height && (a.v - b.v) % 0x1_0000_0000 == 0
    ensures Fits32(a) && Fits32(b) ==> (Same(a, b) <==> a == b)
  {
  }

  lemma SameIsShared(a: ValueType, b: ValueType, t: ValueType)
    requires Same(a, t) && Same(b, t) && t.IsGenConstant()
    ensures Same(a, b)
  {
    assert a.v - b.v == (a.v - t.v) - (b.v - t.v);
  }

  // ----- copy chains

  function ChainSource(p: PcodeOp): Varnode? {
    match p.opcode
    case Store | Load => p.VirtualNode()
    case Subpiece | Copy => if p.inrefs == [] then null else p.inrefs[0]
    case _ => null
  }

  /** The operation where the chain that starts at p ends: a phi, or one that is no copy of
      another operation's output. */
  ghost function ChainEnd(y: Ssa, p: PcodeOp): (e: PcodeOp)
    requires p in y.ops
    ensures e in y.ops
    decreases if p.opcode == MultiEqual then 0 else y.rank[p] + 1
  {
    assert p in y.rank && y.OpValid(p);
    if p.opcode == MultiEqual then p
    else
      var vn := ChainSource(p);
      if vn == null || vn !in y.def then p else ChainEnd(y, y.def[vn])
  }

  /** search_copy_chain, up to a phi. */
  method SearchCopyChain(vn0: Varnode, ghost y: Ssa) returns (r: PcodeOp?)
    requires Spelled(y) && vn0 in y.kind
    ensures r == if vn0 in y.def then ChainEnd(y, y.def[vn0]) else null
  {
    assert SpelledAt(y, vn0);
    var p := vn0.def;
    while p != null && p.opcode != MultiEqual
      invariant p == null <==> vn0 !in y.def
      invariant p != null ==> p in y.ops && ChainEnd(y, p) == ChainEnd(y, y.def[vn0])
      decreases if p == null || p.opcode == MultiEqual then 0 else y.rank[p] + 1
    {
      assert y.OpValid(p) by { assert p in y.rank; }
      var vn := ChainSource(p);
      assert vn != null ==> SpelledAt(y, vn);
      if vn == null || vn.def == null { return p; }
      p := vn.def;
    }
    return p;
  }

  // ----- webs

  datatype Leaf = ConstLeaf(t: ValueType) | PhiLeaf(p: PcodeOp) | OtherLeaf

  /** What an input of a phi is: a constant, or a copy of a phi, or anything else. */
  ghost function LeafOf(y: Ssa, vn: Varnode): (l: Leaf)
    requires vn in y.kind
    ensures l.PhiLeaf? ==> l.p in y.ops && l.p.opcode == MultiEqual
  {
    if y.kind[vn].IsGenConstant() then ConstLeaf(y.kind[vn])
    else if vn !in y.def then OtherLeaf
    else var e := ChainEnd(y, y.def[vn]); if e.opcode == MultiEqual then PhiLeaf(e) else OtherLeaf
  }

  ghost predicate IsPhi(y: Ssa, p: PcodeOp) {
    p in y.ops && p.opcode == MultiEqual
  }

  lemma PhiKnown(y: Ssa, p: PcodeOp)
    requires IsPhi(y, p)
    ensures forall k {:trigger p.inrefs[k]} :: 0 <= k < |p.inrefs| ==> p.inrefs[k] in y.kind
    ensures p.output != null && p.output in y.def && y.def[p.output] == p
  {
    assert p in y.rank && y.OpValid(p);
  }

  ghost function LeafAt(y: Ssa, p: PcodeOp, k: nat): (l: Leaf)
    requires IsPhi(y, p) && k < |p.inrefs|
    ensures l.PhiLeaf? ==> IsPhi(y, l.p)
  {
    PhiKnown(y, p);
    LeafOf(y, p.inrefs[k])
  }

  /** From root, by the numbered inputs and the copy chains behind them, to the phi p. */
  ghost predicate PhiVia(y: Ssa, root: PcodeOp, slots: seq<nat>, p: PcodeOp)
    decreases |slots|
  {
    if slots == [] then root == p
    else
      && IsPhi(y, root) && slots[0] < |root.inrefs| && LeafAt(y, root, slots[0]).PhiLeaf?
      && PhiVia(y, LeafAt(y, root, slots[0]).p, slots[1..], p)
  }

  ghost predicate PhiLinked(y: Ssa, root: PcodeOp, p: PcodeOp) {
    exists slots :: PhiVia(y, root, slots, p)
  }

  lemma {:induction false} ViaNext(y: Ssa, root: PcodeOp, slots: seq<nat>, p: PcodeOp, k: nat)
    requires PhiVia(y, root, slots, p) && IsPhi(y, p) && k < |p.inrefs| && LeafAt(y, p, k).PhiLeaf?
    ensures PhiVia(y, root, slots + [k], LeafAt(y, p, k).p)
    decreases |slots|
  {
    if slots == [] {
      assert [k][1..] == [] && slots + [k] == [k];
    } else {
      ViaNext(y, LeafAt(y, root, slots[0]).p, slots[1..], p, k);
      assert (slots + [k])[1..] == slots[1..] + [k];
    }
  }

  lemma PhiLinkedNext(y: Ssa, root: PcodeOp, p: PcodeOp, k: nat)
    requires PhiLinked(y, root, p) && IsPhi(y, p) && k < |p.inrefs| && LeafAt(y, p, k).PhiLeaf?
    ensures PhiLinked(y, root, LeafAt(y, p, k).p)
  {
    var slots :| PhiVia(y, root, slots, p);
    ViaNext(y, root, slots, p, k);
  }

  /** The phis of web lead only to constants and to phis of web. */
  ghost predicate ClosedWeb(y: Ssa, web: set<PcodeOp>) {
    && (forall p :: p in web ==> IsPhi(y, p))
    && forall p, k {:trigger LeafAt(y, p, k)} :: p in web && 0 <= k < |p.inrefs| ==> InWeb(LeafAt(y, p, k), web)
  }

  predicate InWeb(l: Leaf, web: set<PcodeOp>) {
    l.ConstLeaf? || (l.PhiLeaf? && l.p in web)
  }

  /** All phis that root reaches, when they lead to nothing but constants and phis. */
  ghost predicate IsWeb(y: Ssa, root: PcodeOp, web: set<PcodeOp>) {
    root in web && ClosedWeb(y, web) && forall p :: p in web ==> PhiLinked(y, root, p)
  }

  lemma {:induction false} ViaStays(y: Ssa, web: set<PcodeOp>, root: PcodeOp, slots: seq<nat>, p: PcodeOp)
    requires ClosedWeb(y, web) && root in web && PhiVia(y, root, slots, p)
    ensures p in web
    decreases |slots|
  {
    if slots != [] {
      assert InWeb(LeafAt(y, root, slots[0]), web);
      ViaStays(y, web, LeafAt(y, root, slots[0]).p, slots[1..], p);
    }
  }

  lemma LinkedInWeb(y: Ssa, web: set<PcodeOp>, root: PcodeOp, p: PcodeOp)
    requires ClosedWeb(y, web) && root in web && PhiLinked(y, root, p)
    ensures p in web
  {
    var slots :| PhiVia(y, root, slots, p);
    ViaStays(y, web, root, slots, p);
  }

  /** Every constant among the leaves is t. */
  ghost predicate AllLeaves(y: Ssa, web: set<PcodeOp>, t: ValueType) {
    forall p, k {:trigger LeafAt(y, p, k)} ::
        p in web && IsPhi(y, p) && 0 <= k < |p.inrefs| && LeafAt(y, p, k).ConstLeaf? ==> LeafAt(y, p, k).t == t
  }

  ghost predicate LeafType(y: Ssa, web: set<PcodeOp>, t: ValueType) {
    exists p, k {:trigger LeafAt(y, p, k)} ::
        p in web && IsPhi(y, p) && 0 <= k < |p.inrefs| && LeafAt(y, p, k) == ConstLeaf(t)
  }

  /** t is the one constant at the leaves of the whole web. */
  ghost predicate Uniform(y: Ssa, root: PcodeOp, web: set<PcodeOp>, t: ValueType) {
    IsWeb(y, root, web) && AllLeaves(y, web, t) && LeafType(y, web, t)
  }

  // ----- when folding is right

  /** Only operations that pass on a value that is not yet known lie between p and a phi. */
  ghost predicate PlainChain(y: Ssa, p: PcodeOp)
    requires p in y.ops
    decreases if p.opcode == MultiEqual then 0 else y.rank[p] + 1
  {
    SourcesKnown(y, p);
    p.opcode == MultiEqual
    || (Carries(p) && Sources(p) != [] && Fed(y, Sources(p)[0]) && ShorterChain(y, p) &&
        PlainChain(y, y.def[Sources(p)[0]]))
  }

  ghost predicate ShorterChain(y: Ssa, p: PcodeOp)
    requires p in y.ops && Sources(p) != [] && Sources(p)[0] in y.def && y.def[Sources(p)[0]] in y.ops
  {
    var q := y.def[Sources(p)[0]];
    q.opcode == MultiEqual || y.rank[q] < y.rank[p]
  }

  lemma ChainFollows(y: Ssa, p: PcodeOp)
    requires p in y.ops && p.opcode != MultiEqual && Carries(p) && Sources(p) != [] && Fed(y, Sources(p)[0])
    ensures y.def[Sources(p)[0]] in y.ops && ShorterChain(y, p) && ChainEnd(y, p) == ChainEnd(y, y.def[Sources(p)[0]])
  {
    assert p in y.rank && y.OpValid(p);
    assert ChainSource(p) == Sources(p)[0];
  }

  ghost predicate PlainWeb(y: Ssa, web: set<PcodeOp>) {
    forall p, k {:trigger LeafAt(y, p, k)} ::
        p in web && IsPhi(y, p) && 0 <= k < |p.inrefs| && LeafAt(y, p, k).PhiLeaf? ==>
      p.inrefs[k] in y.def && y.def[p.inrefs[k]] in y.ops && PlainChain(y, y.def[p.inrefs[k]])
  }

  lemma {:induction false} PlainLinked(y: Ssa, p: PcodeOp)
    requires p in y.ops && PlainChain(y, p)
    ensures Linked(y, p, ChainEnd(y, p)) && ChainEnd(y, p).opcode == MultiEqual
    decreases if p.opcode == MultiEqual then 0 else y.rank[p] + 1
  {
    if p.opcode == MultiEqual {
      LinkedSelf(y, p);
    } else {
      ChainFollows(y, p);
      var q := y.def[Sources(p)[0]];
      PlainLinked(y, q);
      LinkedSource(y, p, 0);
      LinkedTransitive(y, p, q, ChainEnd(y, p));
    }
  }

  lemma {:induction false} WebLinked(y: Ssa, web: set<PcodeOp>, root: PcodeOp, slots: seq<nat>, p: PcodeOp)
    requires ClosedWeb(y, web) && PlainWeb(y, web) && root in web && PhiVia(y, root, slots, p)
    ensures Linked(y, root, p)
    decreases |slots|
  {
    if slots == [] {
      LinkedSelf(y, p);
    } else {
      var l := LeafAt(y, root, slots[0]);
      assert InWeb(l, web);
      var q := y.def[root.inrefs[slots[0]]];
      PlainLinked(y, q);
      LinkedSource(y, root, slots[0]);
      WebLinked(y, web, l.p, slots[1..], p);
      LinkedTransitive(y, root, q, l.p);
      LinkedTransitive(y, root, l.p, p);
    }
  }

  /** The phis of the web and the operations on the chains between them. */
  ghost function Cover(y: Ssa, web: set<PcodeOp>): set<PcodeOp> {
    set q | q in y.ops && PlainChain(y, q) && ChainEnd(y, q) in web
  }

  lemma CoverPasses(y: Ssa, web: set<PcodeOp>, t: ValueType, q: PcodeOp)
    requires ClosedWeb(y, web) && PlainWeb(y, web) && AllLeaves(y, web, t) && t.IsConstant() && q in Cover(y, web)
    ensures Passes(y, Cover(y, web), {t.v}, q)
  {
    var S := Cover(y, web);
    SourcesKnown(y, q);
    if q.opcode == MultiEqual {
      forall k | 0 <= k < |Sources(q)| ensures ComesFrom(y, S, {t.v}, Sources(q)[k]) {
        assert InWeb(LeafAt(y, q, k), web);
      }
    } else {
      ChainFollows(y, q);
    }
  }

  /** A constant leaf that is plain, or that no operation defines by passing on an input. */
  ghost predicate Given(y: Ssa, vn: Varnode)
    requires vn in y.kind
  {
    y.kind[vn].IsConstant() || vn !in y.def || !Carries(y.def[vn])
  }

  ghost predicate GivenLeaves(y: Ssa, web: set<PcodeOp>) {
    forall p, k {:trigger LeafAt(y, p, k)} ::
        p in web && IsPhi(y, p) && 0 <= k < |p.inrefs| && LeafAt(y, p, k).ConstLeaf? ==>
      p.inrefs[k] in y.kind && Given(y, p.inrefs[k])
  }

  /** Folding a web to the plain constant t is right on every path through the flow graph, for
      all its phis, exactly when every constant at its leaves is t: of the same kind, and with
      the same value.  Where a leaf differs, some path makes the root differ. */
  lemma FoldIsRight(y: FlowSsa, root: PcodeOp, web: set<PcodeOp>, t: ValueType)
    requires IsWeb(y, root, web) && PlainWeb(y, web) && GivenLeaves(y, web) && t.IsConstant()
    ensures AllLeaves(y, web, t) ==> forall p, w, T :: p in web && PathTo(y, T, p) ==> Value(y, w, T, p) == t.v
    ensures (forall w, T :: PathTo(y, T, root) ==> Value(y, w, T, root) == t.v) ==> AllLeaves(y, web, t)
  {
    if AllLeaves(y, web, t) {
      forall p, w, T | p in web && PathTo(y, T, p) ensures Value(y, w, T, p) == t.v {
        YieldsConstant(y, web, t, p, w, T);
      }
    }
    if p, k :| p in web && IsPhi(y, p) && 0 <= k < |p.inrefs| && LeafAt(y, p, k).ConstLeaf? && LeafAt(y, p, k).t != t {
      var w, R := WrongPath(y, root, web, t, p, k);
    }
  }

  /** One constant at the leaves: every phi of the web yields it whenever it is executed. */
  lemma YieldsConstant(y: FlowSsa, web: set<PcodeOp>, t: ValueType, p: PcodeOp, w: World, T: seq<Visit>)
    requires ClosedWeb(y, web) && PlainWeb(y, web) && AllLeaves(y, web, t) && t.IsConstant() && p in web &&
        PathTo(y, T, p)
    ensures Value(y, w, T, p) == t.v
  {
    var S := Cover(y, web);
    forall q | q in S ensures Passes(y, S, {t.v}, q) { CoverPasses(y, web, t, q); }
    FlowStays(y, w, S, {t.v}, T, p);
  }

  /** A world in which a leaf that is not t has another value. */
  ghost function OtherWorld(u: ValueType, t: ValueType): World {
    World((n: nat, p: PcodeOp) => t.v + 1, (vn: Varnode) => t.v + 1, t.v + 1 - u.v, t.v + 1 - u.v)
  }

  /** Another constant at some leaf: on some path, the root computes that one. */
  lemma WrongPath(y: FlowSsa, root: PcodeOp, web: set<PcodeOp>, t: ValueType, p: PcodeOp, k: nat)
      returns (w: World, R: seq<Visit>)
    requires IsWeb(y, root, web) && PlainWeb(y, web) && GivenLeaves(y, web) && t.IsConstant()
    requires p in web && IsPhi(y, p) && k < |p.inrefs| && LeafAt(y, p, k).ConstLeaf? && LeafAt(y, p, k).t != t
    ensures PathTo(y, R, root) && Value(y, w, R, root) != t.v
  {
    PhiKnown(y, p);
    w := OtherWorld(LeafAt(y, p, k).t, t);
    var slots :| PhiVia(y, root, slots, p);
    WebLinked(y, web, root, slots, p);
    var T := Start(y, ReadBlock(y, p, k));
    R := Attained(y, w, root, p, k, T);
    LeafReading(y, w, T, p, k, t);
  }

  lemma LeafReading(y: FlowSsa, w: World, T: seq<Visit>, p: PcodeOp, k: nat, t: ValueType)
    requires IsPhi(y, p) && k < |p.inrefs| && LeafAt(y, p, k).ConstLeaf? && LeafAt(y, p, k).t != t && t.IsConstant()
    requires p.inrefs[k] in y.kind && Given(y, p.inrefs[k]) && w == OtherWorld(LeafAt(y, p, k).t, t)
    requires IsTrace(y, T) && At(T) == ReadBlock(y, p, k)
    ensures Reading(y, w, T, p.inrefs[k], p) != t.v
  {
    var vn := p.inrefs[k];
    assert Sources(p)[k] == vn;
    if !y.kind[vn].IsConstant() && vn in y.def {
      ReadDominated(y, p, k);
      DominatorVisited(y, T, y.block[y.def[vn]]);
      var d, n := y.def[vn], UpTo(T, y.block[y.def[vn]]);
      TracePrefix(y, T, n);
      assert Value(y, w, T[..n], d) == w.result(n, d);
    }
  }

  // ----- on_MULTIEQUAL

  /** AskCondition: the decision is left to the conditions on the way in.
      NullConstant: there is no input but the phi itself, and the null constant is read. */
  datatype Outcome = Folded | MadeTop | AskCondition | NullConstant

  /** The phis that wait: outputs of phis that root reaches. */
  ghost predicate Listed(y: Ssa, root: PcodeOp, philist: seq<Varnode>) {
    forall j {:trigger philist[j]} :: 0 <= j < |philist| ==> ListedAt(y, root, philist[j])
  }

  ghost predicate ListedAt(y: Ssa, root: PcodeOp, vn: Varnode) {
    vn in y.def && IsPhi(y, y.def[vn]) && y.def[vn].output == vn && PhiLinked(y, root, y.def[vn])
  }

  /** The first n inputs of p were looked at: each is a constant, or a phi that was visited or waits. */
  ghost predicate Looked(y: Ssa, p: PcodeOp, n: nat, visit: set<PcodeOp>, philist: seq<Varnode>)
    requires IsPhi(y, p) && n <= |p.inrefs|
  {
    forall k {:trigger LeafAt(y, p, k)} :: 0 <= k < n ==> Known(LeafAt(y, p, k), visit, philist)
  }

  ghost predicate Known(l: Leaf, visit: set<PcodeOp>, philist: seq<Varnode>) {
    l.ConstLeaf? || (l.PhiLeaf? && (l.p in visit || (l.p.output != null && l.p.output in philist)))
  }

  /** The constants among the first n inputs of p compare equal to cn. */
  ghost predicate Agrees(y: Ssa, p: PcodeOp, n: nat, cn: Varnode?)
    requires IsPhi(y, p) && n <= |p.inrefs| && (cn != null ==> cn in y.kind)
  {
    forall k {:trigger LeafAt(y, p, k)} ::
        0 <= k < n && LeafAt(y, p, k).ConstLeaf? ==> cn != null && Same(LeafAt(y, p, k).t, y.kind[cn])
  }

  /** The values of the constants among root's first n inputs are those in c. */
  ghost predicate Values(y: Ssa, root: PcodeOp, n: nat, c: set<int>)
    requires IsPhi(y, root) && n <= |root.inrefs|
  {
    && (forall k {:trigger LeafAt(y, root, k)} ::
        0 <= k < n && LeafAt(y, root, k).ConstLeaf? ==> LeafAt(y, root, k).t.v in c)
    && forall x :: x in c ==> ValueAmong(y, root, n, x)
  }

  ghost predicate ValueAmong(y: Ssa, root: PcodeOp, n: nat, x: int)
    requires IsPhi(y, root) && n <= |root.inrefs|
  {
    exists k {:trigger LeafAt(y, root, k)} :: 0 <= k < n && LeafAt(y, root, k).ConstLeaf? && LeafAt(y, root, k).t.v == x
  }

  /** The last constant among the first n inputs of a phi. */
  ghost function LastConst(y: Ssa, p: PcodeOp, n: nat): Option<ValueType>
    requires IsPhi(y, p) && n <= |p.inrefs|
  {
    if n == 0 then None else if LeafAt(y, p, n - 1).ConstLeaf? then Some(LeafAt(y, p, n - 1).t)
        else LastConst(y, p, n - 1)
  }

  lemma {:induction false} LastConstIs(y: Ssa, p: PcodeOp, n: nat)
    requires IsPhi(y, p) && n <= |p.inrefs|
    ensures LastConst(y, p, n).Some? ==> LeafType(y, {p}, LastConst(y, p, n).value)
    ensures LastConst(y, p, n).None? ==> forall k {:trigger LeafAt(y, p, k)} ::
        0 <= k < n ==> !LeafAt(y, p, k).ConstLeaf?
  {
    if n > 0 {
      LastConstIs(y, p, n - 1);
      assert LeafAt(y, p, n - 1) == LeafAt(y, p, n - 1);
    }
  }

  ghost function RootConst(y: Ssa, root: PcodeOp): Option<ValueType>
    requires IsPhi(y, root)
  {
    LastConst(y, root, |root.inrefs|)
  }

  /** cn is a constant input of some phi that was visited; of root itself, when root has one. */
  ghost predicate Chosen(y: Ssa, root: PcodeOp, visit: set<PcodeOp>, cn: Varnode?) {
    && IsPhi(y, root)
    && (cn != null ==> cn in y.kind && y.kind[cn].IsGenConstant() && LeafType(y, visit, y.kind[cn]))
    && (RootConst(y, root).Some? ==> cn != null && cn in y.kind && RootConst(y, root) == Some(y.kind[cn]))
  }

  /** The guard of the fold: all leaves of the web are constants that compare equal to t, the
      last constant of root if there is one; root's own constants have its value. */
  ghost predicate Foldable(y: Ssa, root: PcodeOp, web: set<PcodeOp>, t: ValueType) {
    && IsWeb(y, root, web) && LeafType(y, web, t) && Compatible(y, root, web, t)
    && (RootConst(y, root).Some? ==> RootConst(y, root) == Some(t))
  }

  lemma ValuesNext(y: Ssa, root: PcodeOp, i: nat, c: set<int>)
    requires IsPhi(y, root) && i < |root.inrefs| && Values(y, root, i, c)
    ensures Values(y, root, i + 1, if LeafAt(y, root, i).ConstLeaf? then c + {LeafAt(y, root, i).t.v} else c)
  {
    forall x | x in c ensures ValueAmong(y, root, i + 1, x) { assert ValueAmong(y, root, i, x); }
  }

  /** What input i of phi p is. */
  method InputAt(p: PcodeOp, i: nat, ghost y: Ssa) returns (l: Leaf)
    requires Spelled(y) && IsPhi(y, p) && i < |p.inrefs|
    ensures l == LeafAt(y, p, i)
    ensures l.ConstLeaf? ==> p.inrefs[i] in y.kind && l.t == y.kind[p.inrefs[i]] && l.t.IsGenConstant()
  {
    PhiKnown(y, p);
    var vn := p.inrefs[i];
    assert SpelledAt(y, vn);
    if vn.kind.IsGenConstant() { return ConstLeaf(vn.kind); }
    if vn.def == null { return OtherLeaf; }
    var q: PcodeOp? := vn.def;
    if q.opcode != MultiEqual {
      q := SearchCopyChain(vn, y);
      if q == null || q.opcode != MultiEqual { return OtherLeaf; }
    }
    l := PhiLeaf(q);
  }

  /** What the loop over root's inputs knows after n of them. */
  ghost predicate Gathered(y: Ssa, root: PcodeOp, n: nat, c: set<int>, cn: Varnode?, philist: seq<Varnode>)
    requires IsPhi(y, root) && n <= |root.inrefs|
  {
    && Looked(y, root, n, {root}, philist) && Listed(y, root, philist) && Values(y, root, n, c)
    && (cn != null ==>
        cn in y.kind && y.kind[cn].IsGenConstant() && LeafType(y, {root}, y.kind[cn]) && y.kind[cn].v in c)
    && (cn == null <==> c == {}) && LastConst(y, root, n) == (if cn == null then None else Some(y.kind[cn]))
    && (philist != [] ==> MeetsPhi(y, root, n))
  }

  /** Another phi is behind one of the first n inputs. */
  ghost predicate MeetsPhi(y: Ssa, root: PcodeOp, n: nat)
    requires IsPhi(y, root) && n <= |root.inrefs|
  {
    exists k {:trigger LeafAt(y, root, k)} :: 0 <= k < n && LeafAt(y, root, k).PhiLeaf? && LeafAt(y, root, k).p != root
  }

  /** root's own inputs already rule out a fold: one of them is neither a constant nor a copy of a
      phi, or two of them are constants with different values. */
  ghost predicate RuledOut(y: Ssa, root: PcodeOp)
    requires IsPhi(y, root)
  {
    || (exists k {:trigger LeafAt(y, root, k)} :: 0 <= k < |root.inrefs| && LeafAt(y, root, k).OtherLeaf?)
    || exists j, k {:trigger LeafAt(y, root, j), LeafAt(y, root, k)} ::
         0 <= j < |root.inrefs| && 0 <= k < |root.inrefs| && LeafAt(y, root, j).ConstLeaf? &&
         LeafAt(y, root, k).ConstLeaf? && LeafAt(y, root, j).t.v != LeafAt(y, root, k).t.v
  }

  /** What the first loop has gathered, with at most one value, rules out nothing. */
  lemma NothingRuledOut(y: Ssa, root: PcodeOp, c: set<int>, cn: Varnode?, philist: seq<Varnode>)
    requires IsPhi(y, root) && |c| <= 1 && Gathered(y, root, |root.inrefs|, c, cn, philist)
    ensures !RuledOut(y, root) && (philist == [] ==> !MeetsPhi(y, root, |root.inrefs|))
  {
    forall k | 0 <= k < |root.inrefs| ensures !LeafAt(y, root, k).OtherLeaf?
    ensures LeafAt(y, root, k).PhiLeaf? && philist == [] ==> LeafAt(y, root, k).p == root
    {
      assert Known(LeafAt(y, root, k), {root}, philist);
    }
    forall j, k | 0 <= j < |root.inrefs| && 0 <= k < |root.inrefs| && LeafAt(y, root, j).ConstLeaf? &&
        LeafAt(y, root, k).ConstLeaf?
      ensures LeafAt(y, root, j).t.v == LeafAt(y, root, k).t.v
    {
      SubsetCount({LeafAt(y, root, j).t.v, LeafAt(y, root, k).t.v}, c);
    }
  }

  lemma GatherConst(y: Ssa, root: PcodeOp, n: nat, c: set<int>, cn: Varnode?, philist: seq<Varnode>, vn: Varnode)
    requires IsPhi(y, root) && n < |root.inrefs| && Gathered(y, root, n, c, cn, philist)
    requires vn in y.kind && y.kind[vn].IsGenConstant() && LeafAt(y, root, n) == ConstLeaf(y.kind[vn])
    ensures Gathered(y, root, n + 1, c + {y.kind[vn].v}, vn, philist)
  {
    ValuesNext(y, root, n, c);
    LookedMore(y, root, n, {root}, philist, []);
    assert philist + [] == philist;
    assert root in {root};
  }

  lemma GatherPhi(y: Ssa, root: PcodeOp, n: nat, c: set<int>, cn: Varnode?, philist: seq<Varnode>, more: seq<Varnode>)
    requires IsPhi(y, root) && n < |root.inrefs| && Gathered(y, root, n, c, cn, philist) && LeafAt(y, root, n).PhiLeaf?
    requires var p := LeafAt(y, root, n).p; p.output != null && more == if p == root then [] else [p.output]
    ensures Gathered(y, root, n + 1, c, cn, philist + more)
  {
    ValuesNext(y, root, n, c);
    LookedMore(y, root, n, {root}, philist, more);
    PhiKnown(y, LeafAt(y, root, n).p);
    LinkedRoot(y, root);
    PhiLinkedNext(y, root, root, n);
  }

  /** The loop over root's own inputs. */
  method FirstInputs(root: PcodeOp, ghost y: Ssa) returns (ok: bool, c: set<int>, cn: Varnode?, philist: seq<Varnode>)
    requires Spelled(y) && IsPhi(y, root)
    ensures !ok ==> exists k {:trigger LeafAt(y, root, k)} :: 0 <= k < |root.inrefs| && LeafAt(y, root, k).OtherLeaf?
    ensures ok ==> Gathered(y, root, |root.inrefs|, c, cn, philist)
  {
    c, cn, philist := {}, null, [];
    var i := 0;
    while i < |root.inrefs|
      invariant 0 <= i <= |root.inrefs| && Gathered(y, root, i, c, cn, philist)
    {
      var l := InputAt(root, i, y);
      match l {
        case OtherLeaf => return false, c, cn, philist;
        case ConstLeaf(t) =>
          GatherConst(y, root, i, c, cn, philist, root.inrefs[i]);
          c := c + {t.v};
          cn := root.inrefs[i];
        case PhiLeaf(p) =>
          PhiKnown(y, p);
          GatherPhi(y, root, i, c, cn, philist, if p == root then [] else [p.output]);
          if p != root { philist := philist + [p.output]; } else { assert philist + [] == philist; }
      }
      i := i + 1;
    }
    ok := true;
  }

  lemma LinkedRoot(y: Ssa, root: PcodeOp)
    ensures PhiLinked(y, root, root)
  {
    assert PhiVia(y, root, [], root);
  }

  /** All inputs of the visited phis were looked at. */
  ghost predicate AllLooked(y: Ssa, visit: set<PcodeOp>, philist: seq<Varnode>) {
    forall p {:trigger p in visit} :: p in visit ==> IsPhi(y, p) && Looked(y, p, |p.inrefs|, visit, philist)
  }

  /** The constants at all visited phis but root compare equal to cn. */
  ghost predicate AllAgree(y: Ssa, root: PcodeOp, visit: set<PcodeOp>, cn: Varnode?)
    requires cn != null ==> cn in y.kind
  {
    forall p {:trigger p in visit} :: p in visit && p != root ==> IsPhi(y, p) && Agrees(y, p, |p.inrefs|, cn)
  }

  ghost predicate AllLinked(y: Ssa, root: PcodeOp, visit: set<PcodeOp>) {
    forall p {:trigger p in visit} :: p in visit ==> IsPhi(y, p) && PhiLinked(y, root, p)
  }

  ghost predicate NotFoldable(y: Ssa, root: PcodeOp) {
    forall web: set<PcodeOp>, t :: web <= y.ops ==> !Foldable(y, root, web, t)
  }

  lemma OtherIsReason(y: Ssa, root: PcodeOp, p: PcodeOp, k: nat)
    requires IsPhi(y, p) && PhiLinked(y, root, p) && k < |p.inrefs| && LeafAt(y, p, k).OtherLeaf?
    ensures NotFoldable(y, root)
  {
    forall web: set<PcodeOp>, t | web <= y.ops ensures !Foldable(y, root, web, t) {
      if Foldable(y, root, web, t) {
        LinkedInWeb(y, web, root, p);
      }
    }
  }

  /** A constant that does not compare equal to the chosen one. */
  lemma DifferenceIsReason(y: Ssa, root: PcodeOp, p: PcodeOp, k: nat, visit: set<PcodeOp>, cn: Varnode)
    requires IsPhi(y, p) && p != root && PhiLinked(y, root, p) && k < |p.inrefs| && LeafAt(y, p, k).ConstLeaf?
    requires AllLinked(y, root, visit) && Chosen(y, root, visit, cn) && !Same(LeafAt(y, p, k).t, y.kind[cn])
    ensures NotFoldable(y, root)
  {
    var u := y.kind[cn];
    var q, j :| q in visit && IsPhi(y, q) && 0 <= j < |q.inrefs| && LeafAt(y, q, j) == ConstLeaf(u);
    LastConstIs(y, root, |root.inrefs|);
    forall web: set<PcodeOp>, t | web <= y.ops ensures !Foldable(y, root, web, t) {
      if Foldable(y, root, web, t) {
        LinkedInWeb(y, web, root, p);
        LinkedInWeb(y, web, root, q);
        assert Same(LeafAt(y, p, k).t, t);
        LeafGen(y, web, t);
        if RootConst(y, root).None? { SameIsShared(LeafAt(y, p, k).t, u, t); }
      }
    }
  }

  lemma LeafGen(y: Ssa, web: set<PcodeOp>, t: ValueType)
    requires LeafType(y, web, t)
    ensures t.IsGenConstant()
  {
    var p, k :| p in web && IsPhi(y, p) && 0 <= k < |p.inrefs| && LeafAt(y, p, k) == ConstLeaf(t);
    PhiKnown(y, p);
  }

  /** Pushing more phis keeps what was known. */
  lemma LookedMore(y: Ssa, p: PcodeOp, n: nat, visit: set<PcodeOp>, philist: seq<Varnode>, more: seq<Varnode>)
    requires IsPhi(y, p) && n <= |p.inrefs| && Looked(y, p, n, visit, philist)
    ensures Looked(y, p, n, visit, philist + more)
  {
    forall k | 0 <= k < n ensures Known(LeafAt(y, p, k), visit, philist + more) {
      assert Known(LeafAt(y, p, k), visit, philist);
    }
  }

  /** Taking the first phi of the list, to visit it, keeps what was known. */
  lemma LookedPop(y: Ssa, p: PcodeOp, visit: set<PcodeOp>, philist: seq<Varnode>)
    requires IsPhi(y, p) && philist != [] && philist[0] in y.def && Looked(y, p, |p.inrefs|, visit, philist)
    ensures Looked(y, p, |p.inrefs|, visit + {y.def[philist[0]]}, philist[1..])
  {
    forall k | 0 <= k < |p.inrefs| ensures Known(LeafAt(y, p, k), visit + {y.def[philist[0]]}, philist[1..]) {
      var l := LeafAt(y, p, k);
      assert Known(l, visit, philist);
      if l.PhiLeaf? && l.p !in visit {
        PhiKnown(y, l.p);
        if l.p.output != philist[0] { assert l.p.output in philist[1..]; }
      }
    }
  }

  /** The loop over the inputs of one waiting phi. */
  method LookAt(root: PcodeOp, p: PcodeOp, visit: set<PcodeOp>, cn0: Varnode?, philist0: seq<Varnode>, ghost y: Ssa)
    returns (ok: bool, cn: Varnode?, philist: seq<Varnode>, ghost more: seq<Varnode>)
    requires Spelled(y) && IsPhi(y, p) && p != root && p in visit && AllLinked(y, root, visit) &&
        Listed(y, root, philist0) && Chosen(y, root, visit, cn0)
    ensures philist == philist0 + more && Listed(y, root, philist) && Chosen(y, root, visit, cn) &&
        (cn0 != null ==> cn == cn0)
    ensures ok ==> Looked(y, p, |p.inrefs|, visit, philist) && Agrees(y, p, |p.inrefs|, cn)
    ensures !ok ==> NotFoldable(y, root)
  {
    PhiKnown(y, p);
    cn, philist, more := cn0, philist0, [];
    var i := 0;
    while i < |p.inrefs|
      invariant 0 <= i <= |p.inrefs| && philist == philist0 + more && Listed(y, root, philist)
      invariant Chosen(y, root, visit, cn) && (cn0 != null ==> cn == cn0)
      invariant Looked(y, p, i, visit, philist) && Agrees(y, p, i, cn)
    {
      var l := InputAt(p, i, y);
      i := i + 1;
      match l {
        case OtherLeaf =>
          OtherIsReason(y, root, p, i - 1);
          return false, cn, philist, more;
        case ConstLeaf(t) =>
          if cn == null {
            cn := p.inrefs[i - 1];
            assert LeafType(y, visit, y.kind[cn]);
          } else {
            assert SpelledAt(y, cn);
            if !Same(t, cn.kind) {
              DifferenceIsReason(y, root, p, i - 1, visit, cn);
              return false, cn, philist, more;
            }
          }
        case PhiLeaf(p1) =>
          if p1 !in visit {
            PhiKnown(y, p1);
            PhiLinkedNext(y, root, p, i - 1);
            LookedMore(y, p, i - 1, visit, philist, [p1.output]);
            philist, more := philist + [p1.output], more + [p1.output];
          }
      }
    }
    ok := true;
  }

  /** What holds between two phis of the list. */
  ghost predicate Walking(y: Ssa, root: PcodeOp, visit: set<PcodeOp>, philist: seq<Varnode>, cn: Varnode?) {
    && root in visit && visit <= y.ops && AllLinked(y, root, visit) && Listed(y, root, philist)
    && AllLooked(y, visit, philist) && Chosen(y, root, visit, cn) && AllAgree(y, root, visit, cn)
  }

  /** The first phi of the list is taken out, and is new. */
  ghost predicate Taken(y: Ssa, root: PcodeOp, visit: set<PcodeOp>, philist: seq<Varnode>, cn: Varnode?, p: PcodeOp) {
    && IsPhi(y, p) && p !in visit && AllLinked(y, root, visit + {p}) && Listed(y, root, philist) &&
        Chosen(y, root, visit + {p}, cn)
    && root in visit && visit <= y.ops && AllAgree(y, root, visit, cn)
    && forall q {:trigger q in visit} :: q in visit ==> IsPhi(y, q) && Looked(y, q, |q.inrefs|, visit + {p}, philist)
  }

  lemma Take(y: Ssa, root: PcodeOp, visit: set<PcodeOp>, philist: seq<Varnode>, cn: Varnode?)
    requires Walking(y, root, visit, philist, cn) && philist != []
    ensures philist[0] in y.def
    ensures var p := y.def[philist[0]];
        if p in visit then Walking(y, root, visit, philist[1..], cn) else Taken(y, root, visit, philist[1..], cn, p)
  {
    assert ListedAt(y, root, philist[0]);
    var p := y.def[philist[0]];
    forall q | q in visit ensures IsPhi(y, q) && Looked(y, q, |q.inrefs|, visit + {p}, philist[1..]) {
      LookedPop(y, q, visit, philist);
    }
    if p in visit { assert visit + {p} == visit; }
  }

  lemma Taking(y: Ssa, root: PcodeOp, visit: set<PcodeOp>, list0: seq<Varnode>, more: seq<Varnode>, cn0: Varnode?,
      cn: Varnode?, p: PcodeOp)
    requires Taken(y, root, visit, list0, cn0, p) && Listed(y, root, list0 + more) &&
        Chosen(y, root, visit + {p}, cn) && (cn0 != null ==> cn == cn0)
    requires Looked(y, p, |p.inrefs|, visit + {p}, list0 + more) && Agrees(y, p, |p.inrefs|, cn)
    ensures Walking(y, root, visit + {p}, list0 + more, cn)
  {
    forall q | q in visit + {p} ensures IsPhi(y, q) && Looked(y, q, |q.inrefs|, visit + {p}, list0 + more) {
      if q != p { assert q in visit; LookedMore(y, q, |q.inrefs|, visit + {p}, list0, more); }
    }
    forall q | q in visit + {p} && q != root ensures IsPhi(y, q) && Agrees(y, q, |q.inrefs|, cn) {
      if q != p { assert q in visit; }
    }
  }

  lemma Walked(y: Ssa, root: PcodeOp, visit: set<PcodeOp>, cn: Varnode?)
    requires Walking(y, root, visit, [], cn)
    ensures IsWeb(y, root, visit)
  {
    forall q | q in visit ensures IsPhi(y, q) && PhiLinked(y, root, q) {}
    forall q, k | q in visit && 0 <= k < |q.inrefs| ensures InWeb(LeafAt(y, q, k), visit) {
      assert Looked(y, q, |q.inrefs|, visit, []) && Known(LeafAt(y, q, k), visit, []);
    }
  }

  /** The first of the waiting phis. */
  method VisitNext(root: PcodeOp, visit0: set<PcodeOp>, cn0: Varnode?, philist0: seq<Varnode>, ghost y: Ssa)
    returns (ok: bool, visit: set<PcodeOp>, cn: Varnode?, philist: seq<Varnode>)
    requires Spelled(y) && Walking(y, root, visit0, philist0, cn0) && philist0 != []
    ensures ok ==> Walking(y, root, visit, philist, cn) && (cn0 != null ==> cn == cn0)
    ensures ok ==> (visit == visit0 && |philist| < |philist0|) || |y.ops - visit| < |y.ops - visit0|
    ensures !ok ==> NotFoldable(y, root)
  {
    var vn := philist0[0];
    Take(y, root, visit0, philist0, cn0);
    assert SpelledAt(y, vn);
    ok, visit, cn, philist := true, visit0, cn0, philist0[1..];
    var p := vn.def;
    if p in visit { return; }
    assert p in y.ops - visit0;
    assert y.ops - (visit0 + {p}) == (y.ops - visit0) - {p};
    visit := visit + {p};
    ghost var list1, more := philist, [];
    ok, cn, philist, more := LookAt(root, p, visit, cn, philist, y);
    if ok { Taking(y, root, visit0, list1, more, cn0, cn, p); }
  }

  /** The loop over the waiting phis. */
  method WalkPhis(root: PcodeOp, cn0: Varnode?, philist0: seq<Varnode>, ghost y: Ssa)
      returns (ok: bool, cn: Varnode?, ghost web: set<PcodeOp>)
    requires Spelled(y) && Walking(y, root, {root}, philist0, cn0)
    ensures ok ==> IsWeb(y, root, web) && web <= y.ops && Chosen(y, root, web, cn)
    ensures ok ==> AllAgree(y, root, web, cn) && (cn0 != null ==> cn == cn0)
    ensures !ok ==> NotFoldable(y, root)
  {
    var philist: seq<Varnode>, visit: set<PcodeOp> := philist0, {root};
    cn := cn0;
    while philist != []
      invariant Walking(y, root, visit, philist, cn) && (cn0 != null ==> cn == cn0)
      decreases |y.ops - visit|, |philist|
    {
      ok, visit, cn, philist := VisitNext(root, visit, cn, philist, y);
      if !ok { return false, cn, visit; }
    }
    Walked(y, root, visit, cn);
    web := visit;
    ok := true;
  }

  lemma StartWalking(y: Ssa, root: PcodeOp, philist: seq<Varnode>, cn: Varnode?)
    requires IsPhi(y, root) && Listed(y, root, philist) && Chosen(y, root, {root}, cn) &&
        Looked(y, root, |root.inrefs|, {root}, philist)
    ensures Walking(y, root, {root}, philist, cn)
  {
    LinkedRoot(y, root);
  }

  /** The constants of the whole web compare equal to t; at root, their values are t's. */
  ghost predicate Compatible(y: Ssa, root: PcodeOp, web: set<PcodeOp>, t: ValueType) {
    forall p, k {:trigger LeafAt(y, p, k)} ::
        p in web && IsPhi(y, p) && 0 <= k < |p.inrefs| && LeafAt(y, p, k).ConstLeaf? ==>
      if p == root then LeafAt(y, p, k).t.v == t.v else Same(LeafAt(y, p, k).t, t)
  }

  lemma RootValues(y: Ssa, root: PcodeOp, c: set<int>, u: ValueType)
    requires IsPhi(y, root) && Values(y, root, |root.inrefs|, c) && u.v in c
    ensures (forall k {:trigger LeafAt(y, root, k)} ::
        0 <= k < |root.inrefs| && LeafAt(y, root, k).ConstLeaf? ==> LeafAt(y, root, k).t.v == u.v) || |c| > 1
  {
    if k :| 0 <= k < |root.inrefs| && LeafAt(y, root, k).ConstLeaf? && LeafAt(y, root, k).t.v != u.v {
      assert {u.v, LeafAt(y, root, k).t.v} <= c;
      SubsetCount({u.v, LeafAt(y, root, k).t.v}, c);
    }
  }

  lemma ManyValues(y: Ssa, root: PcodeOp, c: set<int>)
    requires IsPhi(y, root) && Values(y, root, |root.inrefs|, c) && |c| > 1
    ensures NotFoldable(y, root) && RuledOut(y, root)
  {
    var x, z := TwoOf(c);
    assert ValueAmong(y, root, |root.inrefs|, x) && ValueAmong(y, root, |root.inrefs|, z);
    var j :| 0 <= j < |root.inrefs| && LeafAt(y, root, j).ConstLeaf? && LeafAt(y, root, j).t.v == x;
    var k :| 0 <= k < |root.inrefs| && LeafAt(y, root, k).ConstLeaf? && LeafAt(y, root, k).t.v == z;
    forall web: set<PcodeOp>, t | web <= y.ops ensures !Foldable(y, root, web, t) {
    }
  }

  /** Every web of root is the one that was walked. */
  lemma OneWeb(y: Ssa, root: PcodeOp, web: set<PcodeOp>, other: set<PcodeOp>)
    requires IsWeb(y, root, web) && IsWeb(y, root, other)
    ensures web == other
  {
    forall p | p in web ensures p in other { LinkedInWeb(y, other, root, p); }
    forall p | p in other ensures p in web { LinkedInWeb(y, web, root, p); }
  }

  lemma NoConstants(y: Ssa, root: PcodeOp, web: set<PcodeOp>)
    requires IsWeb(y, root, web) && AllAgree(y, root, web, null)
    requires forall k {:trigger LeafAt(y, root, k)} :: 0 <= k < |root.inrefs| ==> !LeafAt(y, root, k).ConstLeaf?
    ensures NotFoldable(y, root)
  {
    forall w: set<PcodeOp>, t | w <= y.ops ensures !Foldable(y, root, w, t) {
      if Foldable(y, root, w, t) {
        OneWeb(y, root, web, w);
      }
    }
  }

  lemma SelfOnly(y: Ssa, root: PcodeOp)
    requires IsPhi(y, root) &&
        forall k {:trigger LeafAt(y, root, k)} :: 0 <= k < |root.inrefs| ==> LeafAt(y, root, k) == PhiLeaf(root)
    ensures NotFoldable(y, root)
  {
    LinkedRoot(y, root);
    assert IsWeb(y, root, {root}) by {
      forall q, k | q in {root} && 0 <= k < |q.inrefs| ensures InWeb(LeafAt(y, q, k), {root}) {
        assert LeafAt(y, root, k) == PhiLeaf(root);
      }
    }
    NoConstants(y, root, {root});
  }

  /** What a copy chain ends in dominates its beginning. */
  lemma {:induction false} ChainDominates(y: FlowSsa, p: PcodeOp)
    requires p in y.ops
    ensures Dominates(y.G, y.block[ChainEnd(y, p)], y.block[p])
    decreases if p.opcode == MultiEqual then 0 else y.rank[p] + 1
  {
    assert p in y.rank && y.OpValid(p) && y.OpDominated(p);
    DominatesSelf(y.G, y.block[p]);
    var vn := ChainSource(p);
    if p.opcode != MultiEqual && vn != null && vn in y.def {
      var k :| 0 <= k < |p.inrefs| && p.inrefs[k] == vn;
      ChainDominates(y, y.def[p.inrefs[k]]);
      DominatesTransitive(y.G, y.block[ChainEnd(y, p)], y.block[y.def[vn]], y.block[p]);
    }
  }

  /** In SSA form proper, some input of a phi comes from outside of the phi's own loop, so the
      null constant is never read. */
  lemma InputFromOutside(y: FlowSsa, root: PcodeOp) returns (k: nat)
    requires IsPhi(y, root)
    ensures k < |root.inrefs| && LeafAt(y, root, k) != PhiLeaf(root)
  {
    PhiKnown(y, root);
    assert root in y.rank && y.OpValid(root) && y.OpDominated(root);
    var b := y.block[root];
    assert Reaches(y.G, 0, b);
    var p :| PathBetween(y.G, 0, p, b);
    var u := FirstEntry(y.G, p, b);
    assert u in y.P[b];
    k :| 0 <= k < |y.P[b]| && y.P[b][k] == u;
    if LeafAt(y, root, k) == PhiLeaf(root) {
      var d := y.def[root.inrefs[k]];
      ChainDominates(y, d);
      DominatesTransitive(y.G, b, y.block[d], u);
    }
  }

  lemma NothingWaits(y: Ssa, root: PcodeOp, cn: Varnode?)
    requires IsPhi(y, root) && Looked(y, root, |root.inrefs|, {root}, []) && Chosen(y, root, {root}, cn)
    ensures IsWeb(y, root, {root})
  {
    LinkedRoot(y, root);
    StartWalking(y, root, [], cn);
    Walked(y, root, {root}, cn);
  }

  lemma RootAgrees(y: Ssa, root: PcodeOp, web: set<PcodeOp>, cn: Varnode)
    requires cn in y.kind && IsWeb(y, root, web) && AllAgree(y, root, web, cn)
    requires forall k {:trigger LeafAt(y, root, k)} ::
        0 <= k < |root.inrefs| && LeafAt(y, root, k).ConstLeaf? ==> LeafAt(y, root, k).t.v == y.kind[cn].v
    ensures Compatible(y, root, web, y.kind[cn])
  {
    forall p, k | p in web && IsPhi(y, p) && 0 <= k < |p.inrefs| && LeafAt(y, p, k).ConstLeaf?
      ensures if p == root then LeafAt(y, p, k).t.v == y.kind[cn].v else Same(LeafAt(y, p, k).t, y.kind[cn])
    {
      assert p != root ==> Agrees(y, p, |p.inrefs|, cn);
    }
  }

  /** A web with one single constant at its leaves can be folded, and only to that constant. */
  lemma UniformFolds(y: Ssa, root: PcodeOp, web: set<PcodeOp>, t: ValueType, u: ValueType)
    requires Uniform(y, root, web, t)
    ensures Foldable(y, root, web, t) && (Foldable(y, root, web, u) ==> u == t)
  {
    LastConstIs(y, root, |root.inrefs|);
    if RootConst(y, root).Some? { OnlyLeaf(y, web, t, {root}, RootConst(y, root).value); }
    if LeafType(y, web, u) { OnlyLeaf(y, web, t, web, u); }
    UniformCompatible(y, root, web, t);
  }

  lemma UniformCompatible(y: Ssa, root: PcodeOp, web: set<PcodeOp>, t: ValueType)
    requires AllLeaves(y, web, t) && LeafType(y, web, t)
    ensures Compatible(y, root, web, t)
  {
    LeafGen(y, web, t);
  }

  lemma OnlyLeaf(y: Ssa, web: set<PcodeOp>, t: ValueType, S: set<PcodeOp>, u: ValueType)
    requires AllLeaves(y, web, t) && S <= web && LeafType(y, S, u)
    ensures u == t
  {
    var p, k :| p in S && IsPhi(y, p) && 0 <= k < |p.inrefs| && LeafAt(y, p, k) == ConstLeaf(u);
    assert p in web && LeafAt(y, p, k).t == t;
  }

  /** on_MULTIEQUAL folds exactly when its guard holds, to the type that the guard names.  It reads
      the null constant exactly when all inputs lead back to the phi, which takes code that the
      entry does not reach. */
  method OnMultiequal(root: PcodeOp, ghost y: Ssa) returns (r: Outcome, ghost web: set<PcodeOp>)
    requires Spelled(y) && IsPhi(y, root) && root.output != null
    modifies root.output`kind
    ensures r == Folded ==> Foldable(y, root, web, root.output.kind)
    ensures r != Folded ==> NotFoldable(y, root)
    ensures r == MadeTop <==> RuledOut(y, root)
    ensures r == AskCondition <==> !RuledOut(y, root) && MeetsPhi(y, root, |root.inrefs|) && NotFoldable(y, root)
    ensures r == MadeTop ==> root.output.kind == old(root.output.kind).(height := Top)
    ensures r == AskCondition || r == NullConstant ==> root.output.kind == old(root.output.kind)
    ensures r == NullConstant <==> forall k {:trigger LeafAt(y, root, k)} ::
        0 <= k < |root.inrefs| ==> LeafAt(y, root, k) == PhiLeaf(root)
    ensures y.Dominated() ==> r != NullConstant
  {
    web := {root};
    LinkedRoot(y, root);
    if y.Dominated() { var outside := InputFromOutside(y, root); }
    var ok, c, cn, philist := FirstInputs(root, y);
    if !ok {
      ghost var k :| 0 <= k < |root.inrefs| && LeafAt(y, root, k).OtherLeaf?;
      OtherIsReason(y, root, root, k);
      root.output.kind := root.output.kind.(height := Top);
      return MadeTop, web;
    }
    if |c| > 1 {
      ManyValues(y, root, c);
      root.output.kind := root.output.kind.(height := Top);
      return MadeTop, web;
    }
    NothingRuledOut(y, root, c, cn, philist);
    r, web := FoldGathered(root, c, cn, philist, y);
    if r == Folded { FoldedFits(y, root, web, root.output.kind); }
  }

  /** What can be folded was not left to the conditions. */
  lemma FoldedFits(y: Ssa, root: PcodeOp, web: set<PcodeOp>, t: ValueType)
    requires Foldable(y, root, web, t) && web <= y.ops
    ensures !NotFoldable(y, root)
  {
  }

  /** on_MULTIEQUAL, when root's own inputs are constants with one value, and phis. */
  method FoldGathered(root: PcodeOp, c: set<int>, cn0: Varnode?, philist: seq<Varnode>, ghost y: Ssa)
      returns (r: Outcome, ghost web: set<PcodeOp>)
    requires Spelled(y) && IsPhi(y, root) && root.output != null && |c| <= 1 &&
        Gathered(y, root, |root.inrefs|, c, cn0, philist)
    modifies root.output`kind
    ensures r == Folded ==> Foldable(y, root, web, root.output.kind)
    ensures r != Folded ==> NotFoldable(y, root) && r != MadeTop && root.output.kind == old(root.output.kind)
    ensures r == AskCondition ==> MeetsPhi(y, root, |root.inrefs|)
    ensures r == NullConstant <==> forall k {:trigger LeafAt(y, root, k)} ::
        0 <= k < |root.inrefs| ==> LeafAt(y, root, k) == PhiLeaf(root)
  {
    web := {root};
    var cn := cn0;
    if cn != null { RootValues(y, root, c, y.kind[cn]); }
    if philist == [] {
      if cn == null {
        SelfOnly(y, root);
        return NullConstant, web;
      }
      NothingWaits(y, root, cn);
      RootAgrees(y, root, web, cn);
      assert SpelledAt(y, cn);
      root.output.kind := cn.kind;
      return Folded, web;
    }
    StartWalking(y, root, philist, cn);
    var ok;
    ok, cn, web := WalkPhis(root, cn, philist, y);
    if ok && cn != null {
      RootAgrees(y, root, web, cn);
      assert SpelledAt(y, cn);
      root.output.kind := cn.kind;
      return Folded, web;
    }
    if ok { NoConstants(y, root, web); }
    r := AskCondition;
  }

  /** Whether a fold was right can be read off the leaves: plain constants of 32 bits are enough. */
  lemma SmallConstantsUniform(y: Ssa, root: PcodeOp, web: set<PcodeOp>, t: ValueType)
    requires Compatible(y, root, web, t) && LeafType(y, web, t)
    requires forall p, k {:trigger LeafAt(y, p, k)} ::
        p in web && IsPhi(y, p) && 0 <= k < |p.inrefs| && LeafAt(y, p, k).ConstLeaf? ==>
               LeafAt(y, p, k).t.IsConstant() && Fits32(LeafAt(y, p, k).t)
    ensures AllLeaves(y, web, t)
  {
    forall p, k | p in web && IsPhi(y, p) && 0 <= k < |p.inrefs| && LeafAt(y, p, k).ConstLeaf?
      ensures LeafAt(y, p, k).t == t {
      SameConstants(LeafAt(y, p, k).t, t);
    }
  }

  // ----- a fold that is wrong

  /** Two blocks that both follow the entry, and each other. */
  const RING: Graph := [[1, 2], [2], [1]]
  const RING_PREDS: Graph := [[], [0, 2], [0, 1]]

  lemma RingFacts()
    ensures WellFormed(RING) && Transposed(RING, RING_PREDS) &&
        forall b {:trigger Reaches(RING, 0, b)} :: 0 <= b < 3 ==> Reaches(RING, 0, b)
    ensures forall b {:trigger Dominates(RING, b, b)} :: 0 <= b < 3 ==> Dominates(RING, b, b)
  {
    assert RING[0] == [1, 2] && RING[1] == [2] && RING[2] == [1];
    assert RING_PREDS[0] == [] && RING_PREDS[1] == [0, 2] && RING_PREDS[2] == [0, 1];
    assert PathBetween(RING, 0, [0], 0) && PathBetween(RING, 0, [0, 1], 1) && PathBetween(RING, 0, [0, 2], 2);
    forall b, p | 0 <= b < 3 && PathBetween(RING, 0, p, b) ensures b in p { assert p[|p| - 1] == b; }
  }

  /** p merges the constant c0 with q's output v1, and q merges c1 with p's output v0. */
  ghost predicate IsRing(y: Ssa, p: PcodeOp, q: PcodeOp, c0: Varnode, v0: Varnode, c1: Varnode, v1: Varnode) {
    && y.ops == {p, q} && p != q && p.opcode == q.opcode == MultiEqual && p.inrefs == [c0, v1] && q.inrefs == [c1, v0]
    && {c0, v0, c1, v1} <= y.kind.Keys && c0 !in y.def && c1 !in y.def && v0 in y.def && v1 in y.def &&
        y.def[v0] == p && y.def[v1] == q
    && y.kind[c0] == ValueType(Constant, 0) && y.kind[c1] == ValueType(Constant, 0x1_0000_0000)
    && y.kind[v0] == y.kind[v1] == ValueType(Top, 0)
  }

  lemma RingLeaves(y: Ssa, p: PcodeOp, q: PcodeOp, c0: Varnode, v0: Varnode, c1: Varnode, v1: Varnode)
    requires IsRing(y, p, q, c0, v0, c1, v1)
    ensures IsPhi(y, p) && IsPhi(y, q) && |p.inrefs| == 2 && |q.inrefs| == 2
    ensures LeafAt(y, p, 0) == ConstLeaf(ValueType(Constant, 0)) && LeafAt(y, p, 1) == PhiLeaf(q)
    ensures LeafAt(y, q, 0) == ConstLeaf(ValueType(Constant, 0x1_0000_0000)) && LeafAt(y, q, 1) == PhiLeaf(p)
  {
    assert ChainEnd(y, p) == p && ChainEnd(y, q) == q;
  }

  lemma RingWeb(y: Ssa, p: PcodeOp, q: PcodeOp, c0: Varnode, v0: Varnode, c1: Varnode, v1: Varnode)
    requires IsRing(y, p, q, c0, v0, c1, v1)
    ensures IsWeb(y, p, {p, q})
  {
    RingLeaves(y, p, q, c0, v0, c1, v1);
    LinkedRoot(y, p);
    PhiLinkedNext(y, p, p, 1);
    forall r, k | r in {p, q} && 0 <= k < |r.inrefs| ensures InWeb(LeafAt(y, r, k), {p, q}) { assert k == 0 || k == 1; }
  }

  lemma RingFolds(y: Ssa, p: PcodeOp, q: PcodeOp, c0: Varnode, v0: Varnode, c1: Varnode, v1: Varnode)
    requires IsRing(y, p, q, c0, v0, c1, v1)
    ensures Foldable(y, p, {p, q}, ValueType(Constant, 0)) && RootConst(y, p) == Some(ValueType(Constant, 0))
  {
    RingWeb(y, p, q, c0, v0, c1, v1);
    RingLeaves(y, p, q, c0, v0, c1, v1);
    RingLast(y, p, ValueType(Constant, 0));
    RingCompatible(y, p, q);
    assert p in {p, q} && LeafType(y, {p, q}, ValueType(Constant, 0));
  }

  lemma RingLast(y: Ssa, p: PcodeOp, t: ValueType)
    requires IsPhi(y, p) && |p.inrefs| == 2 && LeafAt(y, p, 0) == ConstLeaf(t) && LeafAt(y, p, 1).PhiLeaf?
    ensures RootConst(y, p) == Some(t)
  {
    assert LastConst(y, p, 0) == None && LastConst(y, p, 1) == Some(t);
  }

  lemma RingCompatible(y: Ssa, p: PcodeOp, q: PcodeOp)
    requires IsPhi(y, p) && IsPhi(y, q) && p != q && |p.inrefs| == 2 && |q.inrefs| == 2
    requires LeafAt(y, p, 0) == ConstLeaf(ValueType(Constant, 0)) && LeafAt(y, p, 1).PhiLeaf?
    requires LeafAt(y, q, 0) == ConstLeaf(ValueType(Constant, 0x1_0000_0000)) && LeafAt(y, q, 1).PhiLeaf?
    ensures Compatible(y, p, {p, q}, ValueType(Constant, 0))
  {
    forall r, k | r in {p, q} && IsPhi(y, r) && 0 <= k < |r.inrefs| && LeafAt(y, r, k).ConstLeaf?
      ensures if r == p then LeafAt(y, r, k).t.v == 0 else Same(LeafAt(y, r, k).t, ValueType(Constant, 0))
    {
      assert k == 0 || k == 1;
    }
  }

  lemma RingIsPlain(y: Ssa, p: PcodeOp, q: PcodeOp, c0: Varnode, v0: Varnode, c1: Varnode, v1: Varnode)
    requires IsRing(y, p, q, c0, v0, c1, v1)
    ensures PlainWeb(y, {p, q}) && GivenLeaves(y, {p, q}) && !AllLeaves(y, {p, q}, ValueType(Constant, 0))
  {
    RingLeaves(y, p, q, c0, v0, c1, v1);
    assert q in {p, q} && LeafAt(y, q, 0).t != ValueType(Constant, 0);
    forall r, k | r in {p, q} && IsPhi(y, r) && 0 <= k < |r.inrefs| && LeafAt(y, r, k).PhiLeaf?
      ensures r.inrefs[k] in y.def && y.def[r.inrefs[k]] in y.ops && PlainChain(y, y.def[r.inrefs[k]])
    {
      assert k == 1;
    }
    forall r, k | r in {p, q} && IsPhi(y, r) && 0 <= k < |r.inrefs| && LeafAt(y, r, k).ConstLeaf?
      ensures r.inrefs[k] in y.kind && Given(y, r.inrefs[k])
    {
      assert k == 0;
    }
  }

  /** The ring, built from new operations. */
  method MakeRing() returns (p: PcodeOp, q: PcodeOp, c0: Varnode, v0: Varnode, c1: Varnode, v1: Varnode,
      ghost y: FlowSsa)
    ensures IsRing(y, p, q, c0, v0, c1, v1) && Spelled(y) && p.output == v0 && fresh(v0)
  {
    c0 := new Varnode(-1, ValueType(Constant, 0));
    c1 := new Varnode(-1, ValueType(Constant, 0x1_0000_0000));
    v0 := new Varnode(0, ValueType(Top, 0));
    v1 := new Varnode(1, ValueType(Top, 0));
    p := new PcodeOp(MultiEqual, [c0, v1], v0, Unknown);
    q := new PcodeOp(MultiEqual, [c1, v0], v1, Unknown);
    v0.def := p;
    v1.def := q;
    RingFacts();
    y := RingSsa(p, q, c0, v0, c1, v1);
    assert Spelled(y) by { forall vn | vn in y.kind ensures SpelledAt(y, vn) {} }
  }

  ghost function RingSsa(p: PcodeOp, q: PcodeOp, c0: Varnode, v0: Varnode, c1: Varnode, v1: Varnode): (y: FlowSsa)
    requires p != q && c0 != v0 && c0 != c1 && c0 != v1 && v0 != c1 && v0 != v1 && c1 != v1
    requires p.opcode == q.opcode == MultiEqual && p.inrefs == [c0, v1] && q.inrefs == [c1, v0] && p.output == v0 &&
        q.output == v1
    ensures IsRing(y, p, q, c0, v0, c1, v1) && y.def == map[v0 := p, v1 := q] && y.kind.Keys == {c0, v0, c1, v1}
  {
    RingFacts();
    var y := RawSsa.Ssa({p, q}, map[v0 := p, v1 := q],
                        map[c0 := ValueType(Constant, 0), c1 := ValueType(Constant, 0x1_0000_0000),
                            v0 := ValueType(Top, 0), v1 := ValueType(Top, 0)],
                        map[p := 0, q := 0], map[p := 1, q := 2], RING, RING_PREDS);
    assert y.PhiValid(p) && y.PhiValid(q);
    assert y.OpValid(p) && y.OpValid(q);
    assert y.OpDominated(p) && y.OpDominated(q);
    y
  }

  /** The fold of a phi to 0, although the other phi of its web merges in 2^32: the comparison
      does not see the difference, and on some path the folded phi does not compute 0. */
  method FoldsDifferentConstants() returns (p: PcodeOp, ghost y: FlowSsa)
    ensures p in y.ops && p.output != null && p.output.kind == ValueType(Constant, 0)
    ensures exists w, T :: PathTo(y, T, p) && Value(y, w, T, p) != 0
  {
    var q, c0, v0, c1, v1;
    p, q, c0, v0, c1, v1, y := MakeRing();
    RingFolds(y, p, q, c0, v0, c1, v1);
    RingWrong(y, p, q, c0, v0, c1, v1);
    var r;
    ghost var web;
    r, web := OnMultiequal(p, y);
    assert r == Folded;
  }

  lemma RingWrong(y: FlowSsa, p: PcodeOp, q: PcodeOp, c0: Varnode, v0: Varnode, c1: Varnode, v1: Varnode)
    requires IsRing(y, p, q, c0, v0, c1, v1)
    ensures exists w, T :: PathTo(y, T, p) && Value(y, w, T, p) != 0
  {
    RingWeb(y, p, q, c0, v0, c1, v1);
    RingIsPlain(y, p, q, c0, v0, c1, v1);
    FoldIsRight(y, p, {p, q}, ValueType(Constant, 0));
  }

  // ----- a phi that only merges itself

  /** A block that only follows itself, behind an entry that does not lead there. */
  const ISLAND: Graph := [[], [1]]
  const ISLAND_PREDS: Graph := [[], [1]]

  /** The phi of a loop that the entry does not reach merges its own output only: its null
      constant is read. */
  method ReadsNullConstant() returns (p: PcodeOp, r: Outcome, ghost y: Ssa)
    ensures IsPhi(y, p) && r == NullConstant && !y.Dominated()
  {
    var v := new Varnode(0, ValueType(Top, 0));
    p := new PcodeOp(MultiEqual, [v], v, Unknown);
    v.def := p;
    y := IslandSsa(p, v);
    assert ChainEnd(y, p) == p;
    assert LeafAt(y, p, 0) == PhiLeaf(p);
    assert Spelled(y) by { forall vn | vn in y.kind ensures SpelledAt(y, vn) {} }
    ghost var web;
    r, web := OnMultiequal(p, y);
  }

  ghost function IslandSsa(p: PcodeOp, v: Varnode): (y: Ssa)
    requires p.opcode == MultiEqual && p.inrefs == [v] && p.output == v
    ensures y.ops == {p} && y.def == map[v := p] && y.kind == map[v := ValueType(Top, 0)]
  {
    assert ISLAND[0] == [] && ISLAND[1] == [1] && ISLAND_PREDS[0] == [] && ISLAND_PREDS[1] == [1];
    var y := RawSsa.Ssa({p}, map[v := p], map[v := ValueType(Top, 0)], map[p := 0], map[p := 1], ISLAND, ISLAND_PREDS);
    assert y.PhiValid(p) && y.OpValid(p);
    y
  }
}
