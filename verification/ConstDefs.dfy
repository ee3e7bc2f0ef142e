/** Collecting the constants that a variable may hold: the search behind copies, phis, loads
    and stores, and what it says about the values in a run. */
module ConstDefs {
  import opened Graphs
  import opened Sequences
  import opened Pcode
  import opened ValueFlow

  /** The local variables of the search. */
  datatype Search = Search(q: seq<PcodeOp>, visit: set<PcodeOp>, defs: seq<Varnode>, tdefs: seq<Varnode?>, dfnum: nat)

  predicate Followed(p: PcodeOp) {
    p.opcode == Copy || p.opcode == MultiEqual || p.opcode == Load || p.opcode == Store
  }

  ghost predicate Defs(y: Ssa, defs: seq<Varnode>) {
    forall i {:trigger defs[i]} :: 0 <= i < |defs| ==> defs[i] in y.kind && y.kind[defs[i]].IsConstant()
  }

  /** The values of the constants that were collected. */
  ghost function Values(y: Ssa, defs: seq<Varnode>): set<int>
    requires Defs(y, defs)
  {
    set i | 0 <= i < |defs| :: y.kind[defs[i]].v
  }

  ghost predicate Distinct(y: Ssa, defs: seq<Varnode>)
    requires Defs(y, defs)
  {
    forall i, j :: 0 <= i < j < |defs| ==> y.kind[defs[i]].v != y.kind[defs[j]].v
  }

  /** vn was looked at: its constant is collected, or what defines it is visited or unknown. */
  ghost predicate Pushed(y: Ssa, vn: Varnode, st: Search)
    requires Defs(y, st.defs)
  {
    && vn in y.kind
    && (y.kind[vn].IsConstant() ==> y.kind[vn].v in Values(y, st.defs))
    && (!y.kind[vn].IsConstant() && vn in y.def ==>
        y.def[vn] in st.visit || (!Followed(y.def[vn]) && st.tdefs != []))
  }

  /** The store whose value a load reads. */
  ghost predicate LoadsFrom(y: Ssa, p: PcodeOp, s: PcodeOp) {
    p.opcode == Load && |p.inrefs| == 3 && p.inrefs[2] in y.def && y.def[p.inrefs[2]] == s && s.opcode == Store &&
        s in y.ops
  }

  ghost predicate HasStore(y: Ssa, p: PcodeOp) {
    |p.inrefs| == 3 && p.inrefs[2] in y.def && y.def[p.inrefs[2]].opcode == Store
  }

  ghost function StoreOf(y: Ssa, p: PcodeOp): (s: PcodeOp)
    requires HasStore(y, p)
    ensures s in y.ops && s.opcode == Store && |s.inrefs| == 3 && s.inrefs[2] in y.kind
  {
    var s := y.def[p.inrefs[2]];
    assert y.OpValid(s);
    s
  }

  /** Everything that p passes on was looked at. */
  ghost predicate Searched(y: Ssa, p: PcodeOp, st: Search)
    requires p in y.ops && Defs(y, st.defs)
  {
    if p.opcode == Load then (if HasStore(y, p) then Pushed(y, StoreOf(y, p).inrefs[2], st) else st.tdefs != [])
    else forall k {:trigger Sources(p)[k]} :: 0 <= k < |Sources(p)| ==> Pushed(y, Sources(p)[k], st)
  }

  /** Nothing that was known gets lost. */
  ghost predicate Grown(y: Ssa, st: Search, st': Search)
    requires Defs(y, st.defs) && Defs(y, st'.defs)
  {
    st.visit <= st'.visit && Values(y, st.defs) <= Values(y, st'.defs) && (st.tdefs != [] ==> st'.tdefs != [])
  }

  lemma SearchedGrown(y: Ssa, p: PcodeOp, st: Search, st': Search)
    requires p in y.ops && Defs(y, st.defs) && Defs(y, st'.defs) && Grown(y, st, st') && Searched(y, p, st)
    ensures Searched(y, p, st')
  {
    if p.opcode != Load {
      forall k | 0 <= k < |Sources(p)| ensures Pushed(y, Sources(p)[k], st') { assert Pushed(y, Sources(p)[k], st); }
    }
  }

  // ----- the operations that a search covers

  /** The visited operations, and the stores behind visited loads. */
  ghost function Covered(y: Ssa, visit: set<PcodeOp>): set<PcodeOp> {
    set s | s in y.ops && (s in visit || StoredFor(y, visit, s))
  }

  ghost predicate StoredFor(y: Ssa, visit: set<PcodeOp>, s: PcodeOp) {
    exists p :: p in visit && LoadsFrom(y, p, s)
  }

  /** p is covered, and what it computes travels to start. */
  ghost predicate Tied(y: Ssa, start: PcodeOp, S: set<PcodeOp>, p: PcodeOp) {
    p in S && p in y.ops && Linked(y, start, p)
  }

  /** A constant with the value x is a source of some operation tied to start. */
  ghost predicate FoundAt(y: Ssa, start: PcodeOp, S: set<PcodeOp>, x: int) {
    exists p, k {:trigger Sources(p)[k]} ::
        p in S && Tied(y, start, S, p) && Carries(p) && 0 <= k < |Sources(p)| && IsValue(y, Sources(p)[k], x)
  }

  ghost predicate IsValue(y: Ssa, vn: Varnode, x: int) {
    vn in y.kind && y.kind[vn].IsConstant() && y.kind[vn].v == x
  }

  lemma FoundMore(y: Ssa, start: PcodeOp, S: set<PcodeOp>, S': set<PcodeOp>, x: int)
    requires FoundAt(y, start, S, x) && S <= S'
    ensures FoundAt(y, start, S', x)
  {
    var p, k :| p in S && Tied(y, start, S, p) && Carries(p) && 0 <= k < |Sources(p)| && IsValue(y, Sources(p)[k], x);
    assert IsValue(y, Sources(p)[k], x);
  }

  /** What defines a source of a tied operation is tied as well. */
  lemma TiedNext(y: Ssa, start: PcodeOp, S: set<PcodeOp>, p: PcodeOp, k: nat)
    requires Tied(y, start, S, p) && Carries(p) && k < |Sources(p)| && Sources(p)[k] in y.def &&
        !y.kind[Sources(p)[k]].IsConstant()
    requires y.def[Sources(p)[k]] in S
    ensures Tied(y, start, S, y.def[Sources(p)[k]])
  {
    SourcesKnown(y, p);
    LinkedSource(y, p, k);
    LinkedTransitive(y, start, p, y.def[Sources(p)[k]]);
  }

  // ----- the web of a variable

  /** All operations whose results travel to start. */
  ghost function Web(y: Ssa, start: PcodeOp): set<PcodeOp> {
    set p | p in y.ops && Linked(y, start, p)
  }

  /** The search cannot go on behind p. */
  ghost predicate Unknown(y: Ssa, p: PcodeOp) {
    !Carries(p) || (p.opcode == Load && !HasStore(y, p))
  }

  ghost predicate HasUnknown(y: Ssa, start: PcodeOp) {
    exists p :: p in Web(y, start) && Unknown(y, p)
  }

  /** Every varnode that an operation of S passes on is a constant or has a definition. */
  ghost predicate NoneMissing(y: Ssa, S: set<PcodeOp>) {
    forall p, k {:trigger Sources(p)[k]} ::
        p in S && p in y.ops && 0 <= k < |Sources(p)| ==> Sources(p)[k] in y.kind && Defined(y, Sources(p)[k])
  }

  ghost predicate Defined(y: Ssa, vn: Varnode)
    requires vn in y.kind
  {
    y.kind[vn].IsConstant() || vn in y.def
  }

  // ----- what is looked at, and what is counted

  /** The varnodes that the search looks at from p: for a load, what the store behind it stores. */
  ghost function Looks(y: Ssa, p: PcodeOp): seq<Varnode>
    requires p in y.ops
  {
    if p.opcode == Load then (if HasStore(y, p) then [StoreOf(y, p).inrefs[2]] else []) else Sources(p)
  }

  /** The search goes on to what defines the j-th of them. */
  ghost predicate LooksOn(y: Ssa, p: PcodeOp, j: nat) {
    p in y.ops && j < |Looks(y, p)| && Followable(y, Looks(y, p)[j])
  }

  ghost predicate Followable(y: Ssa, vn: Varnode) {
    vn in y.kind && !y.kind[vn].IsConstant() && vn in y.def && Followed(y.def[vn])
  }

  ghost predicate SoughtVia(y: Ssa, root: PcodeOp, slots: seq<nat>, p: PcodeOp)
    decreases |slots|
  {
    if slots == [] then root == p
    else LooksOn(y, root, slots[0]) && SoughtVia(y, y.def[Looks(y, root)[slots[0]]], slots[1..], p)
  }

  /** Looking at one varnode after the other leads from start to p. */
  ghost predicate Sought(y: Ssa, start: PcodeOp, p: PcodeOp) {
    exists slots :: SoughtVia(y, start, slots, p)
  }

  lemma {:induction false} SoughtViaNext(y: Ssa, root: PcodeOp, slots: seq<nat>, p: PcodeOp, j: nat)
    requires SoughtVia(y, root, slots, p) && LooksOn(y, p, j)
    ensures SoughtVia(y, root, slots + [j], y.def[Looks(y, p)[j]])
    decreases |slots|
  {
    if slots == [] {
      assert [j][1..] == [] && slots + [j] == [j];
    } else {
      SoughtViaNext(y, y.def[Looks(y, root)[slots[0]]], slots[1..], p, j);
      assert (slots + [j])[1..] == slots[1..] + [j];
    }
  }

  lemma SoughtNext(y: Ssa, start: PcodeOp, p: PcodeOp, j: nat)
    requires Sought(y, start, p) && LooksOn(y, p, j)
    ensures Sought(y, start, y.def[Looks(y, p)[j]])
  {
    var slots :| SoughtVia(y, start, slots, p);
    SoughtViaNext(y, start, slots, p, j);
  }

  /** The constants among vs, in order and with repetitions. */
  ghost function ConstsIn(y: Ssa, vs: seq<Varnode>): (r: seq<Varnode>)
    ensures Defs(y, r) && |r| <= |vs|
  {
    if vs == [] then []
    else
      var vn := vs[|vs| - 1];
      ConstsIn(y, vs[..|vs| - 1]) + if vn in y.kind && y.kind[vn].IsConstant() then [vn] else []
  }

  /** The varnodes among vs whose definitions cannot be followed. */
  ghost function UnknownsIn(y: Ssa, vs: seq<Varnode>): seq<Varnode?> {
    if vs == [] then []
    else
      var vn := vs[|vs| - 1];
      UnknownsIn(y, vs[..|vs| - 1]) +
      if vn in y.kind && !y.kind[vn].IsConstant() && vn in y.def && !Followed(y.def[vn]) then [vn] else []
  }

  /** What p adds to the unknown ones. */
  ghost function Unknowns(y: Ssa, p: PcodeOp): seq<Varnode?>
    requires p in y.ops
  {
    if p.opcode == Load && !HasStore(y, p) then [p.output] else UnknownsIn(y, Looks(y, p))
  }

  /** The constants that are looked at from the operations of trail, one after the other. */
  ghost function ConstsOf(y: Ssa, trail: seq<PcodeOp>): (r: seq<Varnode>)
    requires Elements(trail) <= y.ops
    ensures Defs(y, r)
  {
    if trail == [] then []
    else
      LastElement(trail);
      ConstsOf(y, trail[..|trail| - 1]) + ConstsIn(y, Looks(y, trail[|trail| - 1]))
  }

  ghost function UnknownsOf(y: Ssa, trail: seq<PcodeOp>): seq<Varnode?>
    requires Elements(trail) <= y.ops
  {
    if trail == [] then []
    else
      LastElement(trail);
      UnknownsOf(y, trail[..|trail| - 1]) + Unknowns(y, trail[|trail| - 1])
  }

  lemma LastElement<T>(s: seq<T>)
    requires s != []
    ensures s[|s| - 1] in Elements(s) && Elements(s[..|s| - 1]) <= Elements(s)
  {
  }

  /** From st to st', the constants consts and the unknown varnodes were pushed. */
  ghost predicate Counted(y: Ssa, keepsame: bool, st: Search, st': Search, consts: seq<Varnode>,
      unknowns: seq<Varnode?>)
    requires Defs(y, st.defs) && Defs(y, st'.defs) && Defs(y, consts)
  {
    && st'.dfnum == st.dfnum + |consts| && st'.tdefs == st.tdefs + unknowns
    && (keepsame ==> st'.defs == st.defs + consts)
    && (!keepsame ==> Values(y, st'.defs) == Values(y, st.defs) + Values(y, consts))
    && (!keepsame && Distinct(y, st.defs) ==> Distinct(y, st'.defs))
  }

  lemma CountedNone(y: Ssa, keepsame: bool, st: Search)
    requires Defs(y, st.defs)
    ensures Counted(y, keepsame, st, st, [], [])
  {
    assert st.defs + [] == st.defs && st.tdefs + [] == st.tdefs;
  }

  lemma CountedMore(y: Ssa, keepsame: bool, st: Search, st1: Search, st2: Search, c1: seq<Varnode>, u1: seq<Varnode?>,
      c2: seq<Varnode>, u2: seq<Varnode?>)
    requires Defs(y, st.defs) && Defs(y, st1.defs) && Defs(y, st2.defs) && Defs(y, c1) && Defs(y, c2)
    requires Counted(y, keepsame, st, st1, c1, u1) && Counted(y, keepsame, st1, st2, c2, u2)
    ensures Defs(y, c1 + c2) && Counted(y, keepsame, st, st2, c1 + c2, u1 + u2)
  {
    ValuesSum(y, c1, c2);
    assert st.defs + c1 + c2 == st.defs + (c1 + c2);
    assert st.tdefs + u1 + u2 == st.tdefs + (u1 + u2);
  }

  lemma ValuesSum(y: Ssa, a: seq<Varnode>, b: seq<Varnode>)
    requires Defs(y, a) && Defs(y, b)
    ensures Defs(y, a + b) && Values(y, a + b) == Values(y, a) + Values(y, b)
  {
    var c := a + b;
    assert forall i :: 0 <= i < |c| ==> c[i] == if i < |a| then a[i] else b[i - |a|];
    forall x | x in Values(y, a) ensures x in Values(y, c) {
      var i :| 0 <= i < |a| && y.kind[a[i]].v == x;
      assert c[i] == a[i];
    }
    forall x | x in Values(y, b) ensures x in Values(y, c) {
      var i :| 0 <= i < |b| && y.kind[b[i]].v == x;
      assert c[|a| + i] == b[i];
    }
  }

  /** The operations more, all of them new, were put into the queue. */
  ghost predicate Queued(st: Search, st': Search, more: seq<PcodeOp>) {
    && st'.q == st.q + more && st'.visit == st.visit + Elements(more)
    && NoDuplicates(more) && forall r :: r in more ==> r !in st.visit
  }

  lemma QueuedNone(st: Search)
    ensures Queued(st, st, [])
  {
    assert st.q + [] == st.q && Elements<PcodeOp>([]) == {};
  }

  lemma QueuedMore(st: Search, st1: Search, st2: Search, a: seq<PcodeOp>, b: seq<PcodeOp>)
    requires Queued(st, st1, a) && Queued(st1, st2, b)
    ensures Queued(st, st2, a + b)
  {
    assert st.q + a + b == st.q + (a + b);
    assert Elements(a + b) == Elements(a) + Elements(b);
    assert forall i :: 0 <= i < |a + b| ==> (a + b)[i] == if i < |a| then a[i] else b[i - |a|];
    assert forall i :: 0 <= i < |a| ==> a[i] in Elements(a) && a[i] in st1.visit;
    assert forall j :: 0 <= j < |b| ==> b[j] in b && b[j] !in st1.visit;
  }

  // ----- the search

  /** What holds between two steps of the search. */
  ghost predicate Searching(y: Ssa, start: PcodeOp, st: Search) {
    && start in st.visit && st.visit <= y.ops && Defs(y, st.defs)
    && (forall p {:trigger Followed(p)} :: p in st.visit ==> Followed(p))
    && (forall i {:trigger st.q[i]} :: 0 <= i < |st.q| ==> st.q[i] in st.visit)
    && (forall p {:trigger Tied(y, start, Covered(y, st.visit), p)} ::
        p in st.visit ==> Tied(y, start, Covered(y, st.visit), p))
    && (forall p {:trigger Sought(y, start, p)} :: p in st.visit ==> Sought(y, start, p))
    && (st.tdefs != [] ==> HasUnknown(y, start))
    && forall i {:trigger st.defs[i]} ::
        0 <= i < |st.defs| ==> FoundAt(y, start, Covered(y, st.visit), y.kind[st.defs[i]].v)
  }

  ghost predicate AllSearched(y: Ssa, st: Search, but: set<PcodeOp>)
    requires Defs(y, st.defs)
  {
    forall p {:trigger p in st.visit} :: p in st.visit && p !in st.q && p !in but ==> p in y.ops && Searched(y, p, st)
  }

  lemma CoveredMore(y: Ssa, visit: set<PcodeOp>, more: set<PcodeOp>)
    requires visit <= more
    ensures Covered(y, visit) <= Covered(y, more)
  {
    forall s | s in Covered(y, visit) ensures s in Covered(y, more) {
      if s !in visit {
        var p :| p in visit && LoadsFrom(y, p, s);
        assert p in more;
      }
    }
  }

  /** Visiting one more operation, one that defines a source of a tied one. */
  lemma VisitMore(y: Ssa, start: PcodeOp, st: Search, p: PcodeOp, k: nat, l: PcodeOp, j: nat)
    requires l in st.visit && LooksOn(y, l, j) && k < |Sources(p)| && Looks(y, l)[j] == Sources(p)[k]
    requires Searching(y, start, st) && Tied(y, start, Covered(y, st.visit), p) && Carries(p) && k < |Sources(p)|
    requires Sources(p)[k] in y.def && !y.kind[Sources(p)[k]].IsConstant() && Followed(y.def[Sources(p)[k]])
    ensures var d := y.def[Sources(p)[k]];
      d in y.ops && Searching(y, start, st.(q := st.q + [d], visit := st.visit + {d}))
  {
    SourcesKnown(y, p);
    var d := y.def[Sources(p)[k]];
    var S, S' := Covered(y, st.visit), Covered(y, st.visit + {d});
    CoveredMore(y, st.visit, st.visit + {d});
    TiedNext(y, start, S', p, k);
    assert Sought(y, start, l);
    SoughtNext(y, start, l, j);
    forall r | r in st.visit + {d} ensures Followed(r) && Tied(y, start, S', r) && Sought(y, start, r) {
      if r != d { assert Tied(y, start, S, r) && Followed(r) && Sought(y, start, r); }
    }
    forall i | 0 <= i < |st.defs| ensures FoundAt(y, start, S',
        y.kind[st.defs[i]].v) { FoundMore(y, start, S, S', y.kind[st.defs[i]].v); }
  }

  /** Whether some constant has the value v. */
  method Listed(defs: seq<Varnode>, v: int, ghost y: Ssa) returns (r: bool)
    requires Spelled(y) && Defs(y, defs)
    ensures r <==> v in Values(y, defs)
  {
    var j := 0;
    while j < |defs|
      invariant 0 <= j <= |defs| && forall i :: 0 <= i < j ==> y.kind[defs[i]].v != v
    {
      assert SpelledAt(y, defs[j]);
      if defs[j].kind.v == v { return true; }
      j := j + 1;
    }
    r := false;
  }

  /** A constant that is already listed adds no value. */
  lemma ValuesMore(y: Ssa, defs: seq<Varnode>, vn: Varnode)
    requires Defs(y, defs) && vn in y.kind && y.kind[vn].IsConstant()
    ensures Defs(y, [vn]) && Values(y, [vn]) == {y.kind[vn].v}
    ensures Defs(y, defs + [vn]) && Values(y, defs + [vn]) == Values(y, defs) + {y.kind[vn].v}
  {
    assert [vn][0] == vn;
    ValuesSum(y, defs, [vn]);
  }

  lemma OneLook(y: Ssa, vn: Varnode)
    requires vn in y.kind
    ensures ConstsIn(y, [vn]) == if y.kind[vn].IsConstant() then [vn] else []
    ensures UnknownsIn(y, [vn]) ==
      if !y.kind[vn].IsConstant() && vn in y.def && !Followed(y.def[vn]) then [vn] else []
  {
    assert [vn][..0] == [];
  }

  /** cad_push_def, for the j-th varnode that is looked at from l.  It is source k of a covered
      operation p, or a constant. */
  method PushDef(vn: Varnode, keepsame: bool, st: Search, ghost start: PcodeOp, ghost p: PcodeOp, ghost k: nat,
      ghost l: PcodeOp, ghost j: nat, ghost y: Ssa)
    returns (st': Search, ghost more: seq<PcodeOp>)
    requires Spelled(y) && Searching(y, start, st) && vn in y.kind
    requires l in st.visit && j < |Looks(y, l)| && Looks(y, l)[j] == vn
    requires if y.kind[vn].IsConstant() then FoundAt(y, start, Covered(y, st.visit), y.kind[vn].v)
             else Tied(y, start, Covered(y, st.visit), p) && Carries(p) && k < |Sources(p)| && Sources(p)[k] == vn
    ensures Searching(y, start, st') && Grown(y, st, st') && Pushed(y, vn, st') && Queued(st, st', more)
    ensures Counted(y, keepsame, st, st', ConstsIn(y, [vn]), UnknownsIn(y, [vn]))
  {
    assert SpelledAt(y, vn);
    var def := vn.def;
    var notVisited := def != null && def !in st.visit;
    st', more := st, [];
    if vn.kind.IsConstant() {
      var found := false;
      if !keepsame { found := Listed(st.defs, vn.kind.v, y); }
      st' := st'.(dfnum := st.dfnum + 1);
      if !found { st' := st'.(defs := st.defs + [vn]); }
      ConstPushed(y, start, st, vn, keepsame, found);
    } else if notVisited && Followed(def) {
      st', more := st'.(q := st.q + [def], visit := st.visit + {def}), [def];
      DefPushed(y, start, st, vn, keepsame, p, k, l, j);
    } else if notVisited {
      st' := st'.(tdefs := st.tdefs + [vn]);
      UnknownPushed(y, start, st, vn, keepsame, p, k);
    } else {
      NothingPushed(y, start, st, vn, keepsame);
    }
  }

  lemma ConstPushed(y: Ssa, start: PcodeOp, st: Search, vn: Varnode, keepsame: bool, found: bool)
    requires Searching(y, start, st) && vn in y.kind && y.kind[vn].IsConstant()
    requires FoundAt(y, start, Covered(y, st.visit), y.kind[vn].v)
    requires found <==> !keepsame && y.kind[vn].v in Values(y, st.defs)
    ensures var st' := st.(dfnum := st.dfnum + 1, defs := if found then st.defs else st.defs + [vn]);
      && Searching(y, start, st') && Grown(y, st, st') && Pushed(y, vn, st') && Queued(st, st', [])
      && Counted(y, keepsame, st, st', ConstsIn(y, [vn]), UnknownsIn(y, [vn]))
  {
    OneLook(y, vn);
    QueuedNone(st);
    ConstListed(y, start, st, vn);
    ConstCounted(y, st, vn, keepsame, found);
  }

  lemma ConstListed(y: Ssa, start: PcodeOp, st: Search, vn: Varnode)
    requires Searching(y, start, st) && vn in y.kind && y.kind[vn].IsConstant()
    requires FoundAt(y, start, Covered(y, st.visit), y.kind[vn].v)
    ensures Searching(y, start, st.(dfnum := st.dfnum + 1))
    ensures Searching(y, start, st.(dfnum := st.dfnum + 1, defs := st.defs + [vn]))
  {
    var defs := st.defs + [vn];
    assert forall i :: 0 <= i < |defs| ==> defs[i] == if i < |st.defs| then st.defs[i] else vn;
  }

  lemma ConstCounted(y: Ssa, st: Search, vn: Varnode, keepsame: bool, found: bool)
    requires Defs(y, st.defs) && vn in y.kind && y.kind[vn].IsConstant()
    requires found <==> !keepsame && y.kind[vn].v in Values(y, st.defs)
    ensures var st' := st.(dfnum := st.dfnum + 1, defs := if found then st.defs else st.defs + [vn]);
      Defs(y, st'.defs) && Defs(y, [vn]) && Counted(y, keepsame, st, st', [vn], []) &&
      Values(y, st.defs) <= Values(y, st'.defs) && y.kind[vn].v in Values(y, st'.defs)
  {
    ValuesMore(y, st.defs, vn);
    assert st.tdefs + [] == st.tdefs;
    if !found && !keepsame && Distinct(y, st.defs) {
      var defs := st.defs + [vn];
      forall i, j | 0 <= i < j < |defs| ensures y.kind[defs[i]].v != y.kind[defs[j]].v {
        assert y.kind[st.defs[i]].v in Values(y, st.defs);
      }
    }
  }

  lemma DefPushed(y: Ssa, start: PcodeOp, st: Search, vn: Varnode, keepsame: bool, p: PcodeOp, k: nat, l: PcodeOp,
      j: nat)
    requires Searching(y, start, st) && vn in y.kind && !y.kind[vn].IsConstant() && vn in y.def
    requires Followed(y.def[vn]) && y.def[vn] !in st.visit
    requires l in st.visit && j < |Looks(y, l)| && Looks(y, l)[j] == vn
    requires Tied(y, start, Covered(y, st.visit), p) && Carries(p) && k < |Sources(p)| && Sources(p)[k] == vn
    ensures var st' := st.(q := st.q + [y.def[vn]], visit := st.visit + {y.def[vn]});
      && Searching(y, start, st') && Grown(y, st, st') && Pushed(y, vn, st') && Queued(st, st', [y.def[vn]])
      && Counted(y, keepsame, st, st', ConstsIn(y, [vn]), UnknownsIn(y, [vn]))
  {
    OneLook(y, vn);
    VisitMore(y, start, st, p, k, l, j);
    assert Elements([y.def[vn]]) == {y.def[vn]};
    CountedNone(y, keepsame, st);
  }

  lemma UnknownPushed(y: Ssa, start: PcodeOp, st: Search, vn: Varnode, keepsame: bool, p: PcodeOp, k: nat)
    requires Searching(y, start, st) && vn in y.kind && !y.kind[vn].IsConstant() && vn in y.def
    requires !Followed(y.def[vn])
    requires Tied(y, start, Covered(y, st.visit), p) && Carries(p) && k < |Sources(p)| && Sources(p)[k] == vn
    ensures var st' := st.(tdefs := st.tdefs + [vn]);
      && Searching(y, start, st') && Grown(y, st, st') && Pushed(y, vn, st') && Queued(st, st', [])
      && Counted(y, keepsame, st, st', ConstsIn(y, [vn]), UnknownsIn(y, [vn]))
  {
    OneLook(y, vn);
    QueuedNone(st);
    CountedNone(y, keepsame, st);
    SourceUnknown(y, start, Covered(y, st.visit), p, k);
  }

  lemma NothingPushed(y: Ssa, start: PcodeOp, st: Search, vn: Varnode, keepsame: bool)
    requires Searching(y, start, st) && vn in y.kind && !y.kind[vn].IsConstant()
    requires vn in y.def ==> y.def[vn] in st.visit
    ensures Grown(y, st, st) && Pushed(y, vn, st) && Queued(st, st, [])
    ensures Counted(y, keepsame, st, st, ConstsIn(y, [vn]), UnknownsIn(y, [vn]))
  {
    OneLook(y, vn);
    QueuedNone(st);
    CountedNone(y, keepsame, st);
  }

  lemma SourceUnknown(y: Ssa, start: PcodeOp, S: set<PcodeOp>, p: PcodeOp, k: nat)
    requires Tied(y, start, S, p) && Carries(p) && k < |Sources(p)| && Sources(p)[k] in y.def &&
        !y.kind[Sources(p)[k]].IsConstant() && !Followed(y.def[Sources(p)[k]])
    ensures HasUnknown(y, start)
  {
    SourcesKnown(y, p);
    LinkedSource(y, p, k);
    LinkedTransitive(y, start, p, y.def[Sources(p)[k]]);
    assert y.def[Sources(p)[k]] in Web(y, start);
  }

  /** A source of a visited operation may be pushed. */
  lemma SourceReason(y: Ssa, start: PcodeOp, st: Search, p: PcodeOp, k: nat)
    requires Searching(y, start, st) && p in st.visit && Carries(p) && k < |Sources(p)|
    ensures Sources(p)[k] in y.kind && Tied(y, start, Covered(y, st.visit), p)
    ensures y.kind[Sources(p)[k]].IsConstant() ==> FoundAt(y, start, Covered(y, st.visit), y.kind[Sources(p)[k]].v)
  {
    assert Tied(y, start, Covered(y, st.visit), p);
    SourcesKnown(y, p);
    if y.kind[Sources(p)[k]].IsConstant() { assert IsValue(y, Sources(p)[k], y.kind[Sources(p)[k]].v); }
  }

  /** The loop over the inputs of a phi; more are the operations put into the queue. */
  method SearchPhi(p: PcodeOp, keepsame: bool, st0: Search, ghost start: PcodeOp, ghost y: Ssa)
      returns (st: Search, ghost more: seq<PcodeOp>)
    requires Spelled(y) && Searching(y, start, st0) && p in st0.visit && p.opcode == MultiEqual
    ensures Searching(y, start, st) && Grown(y, st0, st) && Searched(y, p, st) && Queued(st0, st, more)
    ensures Counted(y, keepsame, st0, st, ConstsIn(y, p.inrefs), UnknownsIn(y, p.inrefs))
  {
    assert Followed(p);
    SourcesKnown(y, p);
    st, more := st0, [];
    CountedNone(y, keepsame, st0);
    QueuedNone(st0);
    var i := 0;
    while i < |p.inrefs|
      invariant 0 <= i <= |p.inrefs| && Searching(y, start, st) && Grown(y, st0, st) && Queued(st0, st, more)
      invariant forall k {:trigger Sources(p)[k]} :: 0 <= k < i ==> Pushed(y, Sources(p)[k], st)
      invariant Counted(y, keepsame, st0, st, ConstsIn(y, p.inrefs[..i]), UnknownsIn(y, p.inrefs[..i]))
    {
      ghost var next;
      st, next := SearchInput(p, i, keepsame, st0, st, more, start, y);
      more := more + next;
      i := i + 1;
    }
    assert p.inrefs[..i] == p.inrefs;
  }

  /** Input i of a phi, when the inputs before it were looked at. */
  method SearchInput(p: PcodeOp, i: nat, keepsame: bool, ghost st0: Search, st1: Search, ghost more: seq<PcodeOp>,
      ghost start: PcodeOp, ghost y: Ssa) returns (st: Search, ghost next: seq<PcodeOp>)
    requires Spelled(y) && Defs(y, st0.defs) && Searching(y, start, st1) && p in st1.visit && p.opcode == MultiEqual
    requires i < |p.inrefs| && Grown(y, st0, st1) && Queued(st0, st1, more)
    requires forall k {:trigger Sources(p)[k]} :: 0 <= k < i ==> Pushed(y, Sources(p)[k], st1)
    requires Counted(y, keepsame, st0, st1, ConstsIn(y, p.inrefs[..i]), UnknownsIn(y, p.inrefs[..i]))
    ensures Searching(y, start, st) && Grown(y, st0, st) && Queued(st0, st, more + next)
    ensures forall k {:trigger Sources(p)[k]} :: 0 <= k < i + 1 ==> Pushed(y, Sources(p)[k], st)
    ensures Counted(y, keepsame, st0, st, ConstsIn(y, p.inrefs[..i + 1]), UnknownsIn(y, p.inrefs[..i + 1]))
  {
    var vn := p.inrefs[i];
    assert Looks(y, p) == Sources(p) && Sources(p)[i] == vn;
    SourceReason(y, start, st1, p, i);
    st, next := PushDef(vn, keepsame, st1, start, p, i, p, i, y);
    PushedMore(y, p, i, st1, st);
    QueuedMore(st0, st1, st, more, next);
    InputCounted(y, keepsame, st0, st1, st, p.inrefs, i, vn);
  }

  lemma InputCounted(y: Ssa, keepsame: bool, st0: Search, st1: Search, st: Search, vs: seq<Varnode>, i: nat,
      vn: Varnode)
    requires Defs(y, st0.defs) && Defs(y, st1.defs) && Defs(y, st.defs) && i < |vs| && vs[i] == vn && vn in y.kind
    requires Counted(y, keepsame, st0, st1, ConstsIn(y, vs[..i]), UnknownsIn(y, vs[..i]))
    requires Counted(y, keepsame, st1, st, ConstsIn(y, [vn]), UnknownsIn(y, [vn]))
    ensures Counted(y, keepsame, st0, st, ConstsIn(y, vs[..i + 1]), UnknownsIn(y, vs[..i + 1]))
  {
    var b := vs[..i];
    CountedMore(y, keepsame, st0, st1, st, ConstsIn(y, b), UnknownsIn(y, b), ConstsIn(y, [vn]), UnknownsIn(y, [vn]));
    OneMore(y, b, vn);
    assert vs[..i + 1] == b + [vn];
  }

  lemma OneMore(y: Ssa, vs: seq<Varnode>, vn: Varnode)
    requires vn in y.kind
    ensures ConstsIn(y, vs + [vn]) == ConstsIn(y, vs) + ConstsIn(y, [vn])
    ensures UnknownsIn(y, vs + [vn]) == UnknownsIn(y, vs) + UnknownsIn(y, [vn])
  {
    OneLook(y, vn);
    assert (vs + [vn])[..|vs|] == vs;
  }

  lemma PushedMore(y: Ssa, p: PcodeOp, n: nat, st: Search, st': Search)
    requires Defs(y, st.defs) && Defs(y, st'.defs) && Grown(y, st, st') && n <= |Sources(p)|
    requires forall k {:trigger Sources(p)[k]} :: 0 <= k < n ==> Pushed(y, Sources(p)[k], st)
    ensures forall k {:trigger Sources(p)[k]} :: 0 <= k < n ==> Pushed(y, Sources(p)[k], st')
  {
  }

  /** A store whose output is known to be constant stores that constant. */
  ghost predicate StoresTyped(y: Ssa) {
    forall vn {:trigger y.def[vn]} ::
        vn in y.def && y.def[vn].opcode == Store && |y.def[vn].inrefs| == 3 && y.def[vn].inrefs[2] in y.kind &&
        y.kind[vn].IsConstant() ==>
      y.kind[vn] == y.kind[y.def[vn].inrefs[2]]
  }

  /** What the store behind a visited load stores may be pushed. */
  lemma StoreReason(y: Ssa, start: PcodeOp, st: Search, p: PcodeOp)
    requires Searching(y, start, st) && StoresTyped(y) && p in st.visit && p.opcode == Load && HasStore(y, p)
    ensures var s := StoreOf(y, p); Carries(s) && Sources(s) == [s.inrefs[2]]
    ensures var s := StoreOf(y, p);
      if y.kind[s.inrefs[2]].IsConstant() then FoundAt(y, start, Covered(y, st.visit), y.kind[s.inrefs[2]].v)
      else Tied(y, start, Covered(y, st.visit), s)
  {
    var s := StoreOf(y, p);
    assert Tied(y, start, Covered(y, st.visit), p) && LoadsFrom(y, p, s);
    assert Sources(p)[0] == p.inrefs[2];
    if y.kind[p.inrefs[2]].IsConstant() {
      assert IsValue(y, Sources(p)[0], y.kind[s.inrefs[2]].v);
    } else {
      TiedNext(y, start, Covered(y, st.visit), p, 0);
      if y.kind[s.inrefs[2]].IsConstant() { assert IsValue(y, Sources(s)[0], y.kind[s.inrefs[2]].v); }
    }
  }

  /** The body of the search loop, for one operation. */
  method SearchOp(p: PcodeOp, keepsame: bool, st0: Search, ghost start: PcodeOp, ghost y: Ssa)
      returns (st: Search, ghost more: seq<PcodeOp>)
    requires Spelled(y) && StoresTyped(y) && Searching(y, start, st0) && p in st0.visit
    ensures Searching(y, start, st) && Grown(y, st0, st) && Searched(y, p, st) && Queued(st0, st, more)
    ensures p in y.ops && Counted(y, keepsame, st0, st, ConstsIn(y, Looks(y, p)), Unknowns(y, p))
  {
    assert Followed(p);
    SourcesKnown(y, p);
    if p.opcode == Copy {
      assert y.OpValid(p);
      SourceReason(y, start, st0, p, 0);
      assert Looks(y, p) == [p.inrefs[0]];
      st, more := PushDef(p.inrefs[0], keepsame, st0, start, p, 0, p, 0, y);
    } else if p.opcode == MultiEqual {
      assert Looks(y, p) == p.inrefs;
      st, more := SearchPhi(p, keepsame, st0, start, y);
    } else if p.opcode == Load {
      st, more := SearchLoad(p, keepsame, st0, start, y);
    } else {
      assert y.OpValid(p);
      SourceReason(y, start, st0, p, 0);
      assert Looks(y, p) == [p.inrefs[2]];
      st, more := PushDef(p.inrefs[2], keepsame, st0, start, p, 0, p, 0, y);
    }
  }

  method SearchLoad(p: PcodeOp, keepsame: bool, st0: Search, ghost start: PcodeOp, ghost y: Ssa)
      returns (st: Search, ghost more: seq<PcodeOp>)
    requires Spelled(y) && StoresTyped(y) && Searching(y, start, st0) && p in st0.visit && p.opcode == Load
    ensures Searching(y, start, st) && Grown(y, st0, st) && Searched(y, p, st) && Queued(st0, st, more)
    ensures Counted(y, keepsame, st0, st, ConstsIn(y, Looks(y, p)), Unknowns(y, p))
  {
    SourcesKnown(y, p);
    var vn := p.VirtualNode();
    assert vn != null ==> Sources(p)[0] == vn && SpelledAt(y, vn);
    if vn != null && vn.def != null && vn.def.opcode == Store {
      StoreReason(y, start, st0, p);
      var s := vn.def;
      assert s == StoreOf(y, p);
      st, more := PushDef(s.inrefs[2], keepsame, st0, start, s, 0, p, 0, y);
    } else {
      assert p in Web(y, start) by { assert Tied(y, start, Covered(y, st0.visit), p); }
      CountedNone(y, keepsame, st0);
      QueuedNone(st0);
      st, more := st0.(tdefs := st0.tdefs + [p.output]), [];
    }
  }

  lemma SearchStarts(y: Ssa, start: PcodeOp, st: Search)
    requires start in y.ops && Followed(start) && st == Search([start], {start}, [], [], 0)
    ensures Searching(y, start, st) && AllSearched(y, st, {})
  {
    LinkedSelf(y, start);
    assert SoughtVia(y, start, [], start);
  }

  /** The operations of done are behind the search, in this order, those of the queue are before it. */
  ghost predicate Trailed(y: Ssa, keepsame: bool, st: Search, done: seq<PcodeOp>) {
    && NoDuplicates(done + st.q) && Elements(done + st.q) == st.visit && Elements(done) <= y.ops && Defs(y, st.defs)
    && st.dfnum == |ConstsOf(y, done)| && st.tdefs == UnknownsOf(y, done)
    && if keepsame then st.defs == ConstsOf(y, done)
       else Values(y, st.defs) == Values(y, ConstsOf(y, done)) && Distinct(y, st.defs)
  }

  /** collect_all_const_defs, from a copy, a phi, a load or a store.  trail lists the operations in
      the order in which the search comes to them: all those that looking at one varnode after the
      other leads to, each once.  dfnum counts the constants that are looked at from them, with
      repetitions; keepsame keeps these as they are, and otherwise one of each value is kept.  What
      cannot be followed is in tdefs, and there is nothing exactly when the web has nothing unknown. */
  method CollectAllConstDefs(start: PcodeOp, keepsame: bool, ghost y: Ssa)
    returns (defs: seq<Varnode>, tdefs: seq<Varnode?>, dfnum: nat, ghost trail: seq<PcodeOp>)
    requires Spelled(y) && StoresTyped(y) && start in y.ops && Followed(start)
    ensures Complete(y, start, Search([], Elements(trail), defs, tdefs, dfnum))
    ensures NoDuplicates(trail) && forall p :: p in trail <==> p in y.ops && Sought(y, start, p)
    ensures Elements(trail) <= y.ops && dfnum == |ConstsOf(y, trail)| && tdefs == UnknownsOf(y, trail)
    ensures keepsame ==> defs == ConstsOf(y, trail)
    ensures !keepsame ==> Distinct(y, defs) && Values(y, defs) == Values(y, ConstsOf(y, trail))
    ensures !keepsame ==> |defs| <= dfnum && (|defs| == dfnum <==> Distinct(y, ConstsOf(y, trail)))
    ensures tdefs == [] <==> !HasUnknown(y, start)
    ensures tdefs == [] ==> forall x :: x in Values(y, defs) <==> FoundAt(y, start, Web(y, start), x)
  {
    var st := Search([start], {start}, [], [], 0);
    SearchStarts(y, start, st);
    trail := [];
    assert [] + st.q == [start] && Elements([start]) == {start};
    while st.q != []
      invariant Searching(y, start, st) && AllSearched(y, st, {}) && Trailed(y, keepsame, st, trail)
      decreases |y.ops - st.visit|, |st.q|
    {
      ghost var p := st.q[0];
      st := SearchNext(st, keepsame, trail, start, y);
      trail := trail + [p];
    }
    defs, tdefs, dfnum := st.defs, st.tdefs, st.dfnum;
    assert trail + st.q == trail;
    VisitedIsSought(y, start, st, trail);
    if !keepsame { DistinctCount(y, defs, ConstsOf(y, trail)); }
    if tdefs == [] { WebCollected(y, start, st); }
  }

  method SearchNext(st0: Search, keepsame: bool, ghost done: seq<PcodeOp>, ghost start: PcodeOp, ghost y: Ssa)
      returns (st: Search)
    requires Spelled(y) && StoresTyped(y) && Searching(y, start, st0) && AllSearched(y, st0, {}) && st0.q != []
    requires Trailed(y, keepsame, st0, done)
    ensures Searching(y, start, st) && AllSearched(y, st, {})
    ensures |y.ops - st.visit| < |y.ops - st0.visit| || (st.visit == st0.visit && |st.q| < |st0.q|)
    ensures Trailed(y, keepsame, st, done + [st0.q[0]])
  {
    var p := st0.q[0];
    var st1 := st0.(q := st0.q[1..]);
    assert forall i :: 0 <= i < |st1.q| ==> st1.q[i] == st0.q[i + 1];
    ghost var more;
    st, more := SearchOp(p, keepsame, st1, start, y);
    OneSearched(y, st0, st1, st, p, more);
    TrailNext(y, keepsame, st0, st1, st, done, p, more);
    LessLeft(y.ops, st1, st, more);
  }

  lemma OneSearched(y: Ssa, st0: Search, st1: Search, st: Search, p: PcodeOp, more: seq<PcodeOp>)
    requires Defs(y, st0.defs) && Defs(y, st.defs) && AllSearched(y, st0, {}) && st0.q != [] && p == st0.q[0]
    requires st1 == st0.(q := st0.q[1..]) && Grown(y, st1, st) && Queued(st1, st, more)
    requires p in y.ops && Searched(y, p, st)
    ensures AllSearched(y, st, {})
  {
    forall r | r in st.visit && r !in st.q ensures r in y.ops && Searched(y, r, st) {
      if r != p {
        assert r in more ==> r in st.q;
        assert r in st0.visit && r !in st1.q;
        assert r !in st0.q by { assert forall i :: 0 < i < |st0.q| ==> st0.q[i] == st1.q[i - 1]; }
        SearchedGrown(y, r, st1, st);
      }
    }
  }

  /** More is visited, or less is waiting. */
  lemma LessLeft(ops: set<PcodeOp>, st: Search, st': Search, more: seq<PcodeOp>)
    requires Queued(st, st', more) && st'.visit <= ops
    ensures |ops - st'.visit| < |ops - st.visit| || (st'.visit == st.visit && st'.q == st.q)
  {
    if more == [] {
      assert Elements(more) == {};
    } else {
      assert more[0] in Elements(more) && more[0] in st'.visit && more[0] !in st.visit;
      SubsetCount(ops - st'.visit, ops - st.visit);
    }
  }

  lemma TrailNext(y: Ssa, keepsame: bool, st0: Search, st1: Search, st: Search, done: seq<PcodeOp>, p: PcodeOp,
      more: seq<PcodeOp>)
    requires Trailed(y, keepsame, st0, done) && st0.q != [] && p == st0.q[0] && st1 == st0.(q := st0.q[1..])
    requires Defs(y, st.defs) && p in y.ops && Queued(st1, st, more)
    requires Counted(y, keepsame, st1, st, ConstsIn(y, Looks(y, p)), Unknowns(y, p))
    ensures Trailed(y, keepsame, st, done + [p])
  {
    var now := done + [p];
    OneMoreOf(y, done, p);
    ValuesSum(y, ConstsOf(y, done), ConstsIn(y, Looks(y, p)));
    assert now + st.q == done + st0.q + more;
    TrailLonger(done + st0.q, now + st.q, more, st0.visit);
  }

  lemma OneMoreOf(y: Ssa, done: seq<PcodeOp>, p: PcodeOp)
    requires Elements(done) <= y.ops && p in y.ops
    ensures Elements(done + [p]) <= y.ops
    ensures ConstsOf(y, done + [p]) == ConstsOf(y, done) + ConstsIn(y, Looks(y, p))
    ensures UnknownsOf(y, done + [p]) == UnknownsOf(y, done) + Unknowns(y, p)
  {
    var now := done + [p];
    assert now[..|done|] == done && now[|done|] == p && Elements(now) == Elements(done) + {p};
  }

  lemma TrailLonger(a: seq<PcodeOp>, b: seq<PcodeOp>, more: seq<PcodeOp>, visit: set<PcodeOp>)
    requires NoDuplicates(a) && Elements(a) == visit && NoDuplicates(more) && (forall r :: r in more ==> r !in visit)
    requires b == a + more
    ensures NoDuplicates(b) && Elements(b) == visit + Elements(more)
  {
    assert forall i :: 0 <= i < |a| ==> a[i] in Elements(a);
    assert forall i :: 0 <= i < |b| ==> b[i] == if i < |a| then a[i] else more[i - |a|];
  }

  /** As many different values as constants: none repeats. */
  lemma DistinctCount(y: Ssa, defs: seq<Varnode>, consts: seq<Varnode>)
    requires Defs(y, defs) && Defs(y, consts) && Distinct(y, defs) && Values(y, defs) == Values(y, consts)
    ensures |defs| <= |consts| && (|defs| == |consts| <==> Distinct(y, consts))
  {
    var a, b := ValueList(y, defs), ValueList(y, consts);
    ElementsCount(a);
    ElementsCount(b);
    assert Elements(a) == Elements(b);
  }

  ghost function ValueList(y: Ssa, defs: seq<Varnode>): (r: seq<int>)
    requires Defs(y, defs)
    ensures Elements(r) == Values(y, defs) && |r| == |defs| && (NoDuplicates(r) <==> Distinct(y, defs))
  {
    var r := seq(|defs|, i requires 0 <= i < |defs| => y.kind[defs[i]].v);
    assert forall i :: 0 <= i < |r| ==> r[i] in Values(y, defs);
    assert NoDuplicates(r) ==> Distinct(y, defs) by {
      if NoDuplicates(r) {
        forall i, j | 0 <= i < j < |defs| ensures y.kind[defs[i]].v != y.kind[defs[j]].v { assert r[i] != r[j]; }
      }
    }
    assert Distinct(y, defs) ==> NoDuplicates(r) by {
      if Distinct(y, defs) {
        forall i, j | 0 <= i < j < |r| ensures r[i] != r[j] { assert y.kind[defs[i]].v != y.kind[defs[j]].v; }
      }
    }
    assert forall x :: x in Values(y, defs) ==> x in r by {
      forall x | x in Values(y, defs) ensures x in r {
        var i :| 0 <= i < |defs| && y.kind[defs[i]].v == x;
        assert r[i] == x;
      }
    }
    r
  }

  lemma {:induction false} SoughtVisited(y: Ssa, start: PcodeOp, st: Search, r: PcodeOp, slots: seq<nat>, p: PcodeOp)
    requires Complete(y, start, st) && r in st.visit && SoughtVia(y, r, slots, p)
    ensures p in st.visit
    decreases |slots|
  {
    if slots != [] {
      var j := slots[0];
      assert Searched(y, r, st);
      assert r.opcode != Load ==> Looks(y, r)[j] == Sources(r)[j];
      assert Pushed(y, Looks(y, r)[j], st);
      SoughtVisited(y, start, st, y.def[Looks(y, r)[j]], slots[1..], p);
    }
  }

  lemma VisitedIsSought(y: Ssa, start: PcodeOp, st: Search, trail: seq<PcodeOp>)
    requires Complete(y, start, st) && Elements(trail) == st.visit
    ensures forall p :: p in trail <==> p in y.ops && Sought(y, start, p)
  {
    forall p ensures p in trail <==> p in y.ops && Sought(y, start, p) {
      assert p in trail <==> p in Elements(trail);
      if Sought(y, start, p) {
        var slots :| SoughtVia(y, start, slots, p);
        SoughtVisited(y, start, st, start, slots, p);
      }
    }
  }

  /** The search has come to its end. */
  ghost predicate Complete(y: Ssa, start: PcodeOp, st: Search) {
    Searching(y, start, st) && AllSearched(y, st, {}) && st.q == []
  }

  // ----- the search covers the web

  /** What feeds a covered operation is covered. */
  lemma CoveredNext(y: Ssa, start: PcodeOp, st: Search, p: PcodeOp, k: nat)
    requires Complete(y, start, st) && st.tdefs == [] && p in Covered(y, st.visit) && IsFed(y, p, k)
    ensures Feeder(y, p, k) in Covered(y, st.visit)
  {
    SourcesKnown(y, p);
    if p in st.visit {
      assert Followed(p) && Searched(y, p, st);
      if p.opcode == Load {
        assert LoadsFrom(y, p, StoreOf(y, p));
      } else {
        assert Pushed(y, Sources(p)[k], st);
      }
    } else {
      StorePushed(y, start, st, p);
    }
  }

  /** What a covered store stores was looked at, when the store was not visited itself. */
  lemma StorePushed(y: Ssa, start: PcodeOp, st: Search, p: PcodeOp)
    requires Complete(y, start, st) && st.tdefs == [] && p in Covered(y, st.visit) && p !in st.visit
    ensures p.opcode == Store && |p.inrefs| == 3 && Sources(p) == [p.inrefs[2]] && Pushed(y, p.inrefs[2], st)
  {
    var l :| l in st.visit && LoadsFrom(y, l, p);
    assert Searched(y, l, st) && HasStore(y, l);
    assert StoreOf(y, l) == p;
  }

  lemma {:induction false} CoveredFrom(y: Ssa, start: PcodeOp, st: Search, r: PcodeOp, slots: seq<nat>, p: PcodeOp)
    requires Complete(y, start, st) && st.tdefs == [] && r in Covered(y, st.visit) && LinkedVia(y, r, slots, p)
    ensures p in Covered(y, st.visit)
    decreases |slots|
  {
    if slots != [] {
      CoveredNext(y, start, st, r, slots[0]);
      CoveredFrom(y, start, st, Feeder(y, r, slots[0]), slots[1..], p);
    }
  }

  lemma WebCovered(y: Ssa, start: PcodeOp, st: Search)
    requires Complete(y, start, st) && st.tdefs == []
    ensures Web(y, start) <= Covered(y, st.visit)
  {
    forall p | p in Web(y, start) ensures p in Covered(y, st.visit) {
      var slots :| LinkedVia(y, start, slots, p);
      CoveredFrom(y, start, st, start, slots, p);
    }
  }

  /** A covered operation that is not in the web stores a constant. */
  lemma CoveredInWeb(y: Ssa, start: PcodeOp, st: Search, p: PcodeOp)
    requires Complete(y, start, st) && StoresTyped(y) && st.tdefs == [] && p in Covered(y, st.visit)
    ensures Carries(p) && Followed(p) && (p.opcode == Load ==> HasStore(y, p))
    ensures p in Web(y, start) || (|Sources(p)| == 1 && Sources(p)[0] in y.kind && y.kind[Sources(p)[0]].IsConstant())
  {
    if p in st.visit {
      assert Tied(y, start, Covered(y, st.visit), p) && Followed(p) && Searched(y, p, st);
    } else {
      var l :| l in st.visit && LoadsFrom(y, l, p);
      StorePushed(y, start, st, p);
      assert HasStore(y, l);
      StoreReason(y, start, st, l);
    }
  }

  /** A constant that a covered operation passes on is collected. */
  lemma ConstantListed(y: Ssa, start: PcodeOp, st: Search, p: PcodeOp, k: nat)
    requires Complete(y, start, st) && StoresTyped(y) && st.tdefs == [] && p in Covered(y, st.visit) && k < |Sources(p)|
    requires Sources(p)[k] in y.kind && y.kind[Sources(p)[k]].IsConstant()
    ensures y.kind[Sources(p)[k]].v in Values(y, st.defs)
  {
    if p in st.visit {
      assert Searched(y, p, st);
      if p.opcode == Load {
        assert Pushed(y, StoreOf(y, p).inrefs[2], st);
      } else {
        assert Pushed(y, Sources(p)[k], st);
      }
    } else {
      StorePushed(y, start, st, p);
    }
  }

  /** When nothing is reported as unknown, the web has nothing unknown, and the collected
      constants are exactly its constants. */
  lemma WebCollected(y: Ssa, start: PcodeOp, st: Search)
    requires Complete(y, start, st) && StoresTyped(y) && st.tdefs == []
    ensures !HasUnknown(y, start)
    ensures forall x :: x in Values(y, st.defs) <==> FoundAt(y, start, Web(y, start), x)
  {
    var W, S := Web(y, start), Covered(y, st.visit);
    WebCovered(y, start, st);
    forall p | p in W ensures !Unknown(y, p) { CoveredInWeb(y, start, st, p); }
    forall x | x in Values(y, st.defs) ensures FoundAt(y, start, W, x) {
      var i :| 0 <= i < |st.defs| && y.kind[st.defs[i]].v == x;
      var p, k :| p in S && Tied(y, start, S, p) && Carries(p) && 0 <= k < |Sources(p)| && IsValue(y, Sources(p)[k], x);
      assert p in W && Tied(y, start, W, p) && IsValue(y, Sources(p)[k], x);
    }
    forall x | FoundAt(y, start, W, x) ensures x in Values(y, st.defs) {
      var p, k :| p in W && Tied(y, start, W, p) && Carries(p) && 0 <= k < |Sources(p)| && IsValue(y, Sources(p)[k], x);
      ConstantListed(y, start, st, p, k);
    }
  }

  // ----- what the constants say about runs

  lemma WebPasses(y: Ssa, start: PcodeOp, st: Search, p: PcodeOp)
    requires Complete(y, start, st) && StoresTyped(y) && st.tdefs == []
    requires NoneMissing(y, Web(y, start)) && p in Web(y, start)
    ensures Passes(y, Web(y, start), Values(y, st.defs), p)
  {
    var W, X := Web(y, start), Values(y, st.defs);
    SourcesKnown(y, p);
    WebCovered(y, start, st);
    CoveredInWeb(y, start, st, p);
    forall k | 0 <= k < |Sources(p)| ensures ComesFrom(y, W, X, Sources(p)[k]) {
      assert Defined(y, Sources(p)[k]);
      if y.kind[Sources(p)[k]].IsConstant() {
        ConstantListed(y, start, st, p, k);
      } else {
        LinkedSource(y, p, k);
        LinkedTransitive(y, start, p, y.def[Sources(p)[k]]);
      }
    }
  }

  /** With nothing unknown and nothing missing, the collected constants are all that the
      variable can ever hold, on any path. */
  lemma ConstantsCover(y: FlowSsa, start: PcodeOp, st: Search, w: World, T: seq<Visit>)
    requires Complete(y, start, st) && StoresTyped(y) && st.tdefs == [] && NoneMissing(y, Web(y, start))
    requires PathTo(y, T, start)
    ensures Value(y, w, T, start) in Values(y, st.defs)
  {
    var W := Web(y, start);
    LinkedSelf(y, start);
    forall p | p in W ensures Passes(y, W, Values(y, st.defs), p) { WebPasses(y, start, st, p); }
    FlowStays(y, w, W, Values(y, st.defs), T, start);
  }

  /** Every collected constant is what the variable holds on some path through the flow graph. */
  lemma ConstantsHappen(y: FlowSsa, start: PcodeOp, st: Search, w: World, x: int) returns (T: seq<Visit>)
    requires Complete(y, start, st) && x in Values(y, st.defs)
    ensures PathTo(y, T, start) && Value(y, w, T, start) == x
  {
    var i :| 0 <= i < |st.defs| && y.kind[st.defs[i]].v == x;
    var S := Covered(y, st.visit);
    assert FoundAt(y, start, S, x);
    var p, k :| p in S && Tied(y, start, S, p) && Carries(p) && 0 <= k < |Sources(p)| && IsValue(y, Sources(p)[k], x);
    T := Start(y, ReadBlock(y, p, k));
    T := Attained(y, w, start, p, k, T);
  }

  lemma Outside(X: set<int>) returns (x: int)
    ensures x !in X
  {
    x := 0;
    var left := X;
    while left != {}
      invariant left <= X && forall z :: z in X ==> z in left || z < x
    {
      var z: int := Pick(left);
      if z >= x { x := z + 1; }
      left := left - {z};
    }
  }

  /** A varnode of the web without a definition lets any value in, on some path. */
  lemma MissingLetsIn(y: FlowSsa, start: PcodeOp, st: Search) returns (w: World, T: seq<Visit>)
    requires Complete(y, start, st) && StoresTyped(y) && !NoneMissing(y, Web(y, start)) && st.tdefs == []
    ensures PathTo(y, T, start) && Value(y, w, T, start) !in Values(y, st.defs)
  {
    var W := Web(y, start);
    var p, k :| p in W && p in y.ops && 0 <= k < |Sources(p)| &&
        !(Sources(p)[k] in y.kind && Defined(y, Sources(p)[k]));
    SourcesKnown(y, p);
    var vn := Sources(p)[k];
    var x := Outside(Values(y, st.defs));
    w := AnyWorld(x, y.kind[vn].v);
    WebCovered(y, start, st);
    CoveredInWeb(y, start, st, p);
    var T0 := Start(y, ReadBlock(y, p, k));
    T := Attained(y, w, start, p, k, T0);
    MissingRead(y, T0, vn, p, x);
  }

  /** A world in which a missing varnode, also one that is relative by v, has the value x. */
  ghost function AnyWorld(x: int, v: int): World {
    World((n: nat, q: PcodeOp) => x, (vn: Varnode) => x, x - v, x - v)
  }

  lemma MissingRead(y: Ssa, T: seq<Visit>, vn: Varnode, p: PcodeOp, x: int)
    requires ReadAt(y, T, vn, p) && !y.kind[vn].IsConstant() && vn !in y.def
    ensures Reading(y, AnyWorld(x, y.kind[vn].v), T, vn, p) == x
  {
  }

  /** When no definition is reported as unknown, the collected constants cover the variable on
      every path exactly when no varnode of its web is without a definition. */
  lemma CoverExactly(y: FlowSsa, start: PcodeOp, st: Search)
    requires Complete(y, start, st) && StoresTyped(y) && st.tdefs == []
    ensures NoneMissing(y, Web(y, start)) <==> forall w, T ::
        PathTo(y, T, start) ==> Value(y, w, T, start) in Values(y, st.defs)
  {
    if NoneMissing(y, Web(y, start)) {
      forall w, T | PathTo(y, T, start) ensures Value(y, w, T, start) in Values(y, st.defs) {
        ConstantsCover(y, start, st, w, T);
      }
    } else {
      var w, T := MissingLetsIn(y, start, st);
    }
  }

  // ----- a varnode that is missed

  /** From a copy of a varnode that nothing defines, the search reports nothing at all, and the
      copy can hold anything. */
  method MissesUndefined() returns (start: PcodeOp, defs: seq<Varnode>, tdefs: seq<Varnode?>, ghost y: FlowSsa)
    ensures start in y.ops && Defs(y, defs) && defs == [] && tdefs == []
    ensures exists w, T :: PathTo(y, T, start) && Value(y, w, T, start) !in Values(y, defs)
  {
    var v := new Varnode(0, ValueType(Top, 0));
    var out := new Varnode(1, ValueType(Top, 0));
    start := new PcodeOp(Copy, [v], out, Callee.Unknown);
    out.def := start;
    y := LoneCopy(start, v, out);
    assert Spelled(y) by { forall vn | vn in y.kind ensures SpelledAt(y, vn) {} }
    var dfnum;
    ghost var trail;
    defs, tdefs, dfnum, trail := CollectAllConstDefs(start, false, y);
    LoneWeb(y, start, v);
    if defs != [] { FirstValue(y, defs); }
    CoverExactly(y, start, Search([], Elements(trail), defs, tdefs, dfnum));
  }

  lemma FirstValue(y: Ssa, defs: seq<Varnode>)
    requires Defs(y, defs) && defs != []
    ensures y.kind[defs[0]].v in Values(y, defs)
  {
  }

  ghost function LoneCopy(p: PcodeOp, v: Varnode, out: Varnode): (y: FlowSsa)
    requires p.opcode == Copy && p.inrefs == [v] && p.output == out && v != out
    ensures IsLoneCopy(y, p, v) && y.kind.Keys == {v, out} && y.def == map[out := p] && y.kind[out] == ValueType(Top, 0)
  {
    assert PathBetween([[]], 0, [0], 0);
    var y := RawSsa.Ssa({p}, map[out := p], map[v := ValueType(Top, 0), out := ValueType(Top, 0)], map[p := 0],
                        map[p := 0], [[]], [[]]);
    assert y.OpValid(p) && Reaches(y.G, 0, 0);
    assert y.OpDominated(p);
    y
  }

  ghost predicate IsLoneCopy(y: Ssa, p: PcodeOp, v: Varnode) {
    && y.ops == {p} && p.opcode == Copy && p.inrefs == [v] && v in y.kind && v !in y.def
    && y.kind[v] == ValueType(Top, 0) && forall vn :: vn in y.def ==> y.def[vn] == p
  }

  lemma LoneWeb(y: Ssa, p: PcodeOp, v: Varnode)
    requires IsLoneCopy(y, p, v)
    ensures Web(y, p) == {p} && StoresTyped(y) && !HasUnknown(y, p) && !NoneMissing(y, {p})
    ensures forall x :: !FoundAt(y, p, {p}, x)
  {
    LinkedSelf(y, p);
    assert Sources(p) == [v];
    assert !Defined(y, Sources(p)[0]);
  }
}
