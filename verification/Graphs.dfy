/** Directed graphs as values: node v's successors are G[v].  Node 0 is the entry. */
module Graphs {

  type Graph = seq<seq<nat>>

  ghost predicate WellFormed(G: Graph) {
    forall u, j :: 0 <= u < |G| && 0 <= j < |G[u]| ==> G[u][j] < |G|
  }

  ghost predicate Edge(G: Graph, u: nat, v: nat) {
    u < |G| && v in G[u]
  }

  ghost predicate IsPath(G: Graph, p: seq<nat>) {
    && |p| > 0
    && forall i :: 0 <= i < |p| - 1 ==> Edge(G, p[i], p[i + 1])
  }

  /** p runs from u to v along edges of G. */
  ghost predicate PathBetween(G: Graph, u: nat, p: seq<nat>, v: nat) {
    IsPath(G, p) && p[0] == u && p[|p| - 1] == v
  }

  ghost predicate Reaches(G: Graph, u: nat, v: nat) {
    exists p :: PathBetween(G, u, p, v)
  }

  /** Every path from the entry to v goes through d. */
  ghost predicate Dominates(G: Graph, d: nat, v: nat) {
    forall p :: PathBetween(G, 0, p, v) ==> d in p
  }

  ghost predicate StrictlyDominates(G: Graph, d: nat, v: nat) {
    d != v && Dominates(G, d, v)
  }

  /** Every path from the entry to v of at most k edges goes through d. */
  ghost predicate DominatesWithin(G: Graph, k: nat, d: nat, v: nat) {
    forall p :: PathBetween(G, 0, p, v) && |p| <= k + 1 ==> d in p
  }

  /** d is the immediate dominator of v: it strictly dominates v, and every
      other strict dominator of v dominates d. */
  ghost predicate ImmediateDominator(G: Graph, d: nat, v: nat) {
    && StrictlyDominates(G, d, v)
    && forall e :: StrictlyDominates(G, e, v) ==> Dominates(G, e, d)
  }

  lemma PathPrefix(G: Graph, u: nat, p: seq<nat>, v: nat, i: nat)
    requires PathBetween(G, u, p, v) && i < |p|
    ensures PathBetween(G, u, p[..i + 1], p[i])
  {
  }

  lemma PathExtend(G: Graph, u: nat, p: seq<nat>, v: nat, w: nat)
    requires PathBetween(G, u, p, v) && Edge(G, v, w)
    ensures PathBetween(G, u, p + [w], w)
  {
    var q := p + [w];
    forall i | 0 <= i < |q| - 1 ensures Edge(G, q[i], q[i + 1]) {
      if i < |p| - 1 { assert q[i] == p[i] && q[i + 1] == p[i + 1]; }
    }
  }

  /** A set closed under edges contains every node its members reach. */
  lemma {:induction false} ClosedContainsPath(G: Graph, S: set<nat>, u: nat, p: seq<nat>, v: nat)
    requires PathBetween(G, u, p, v) && u in S
    requires forall a, b :: a in S && Edge(G, a, b) ==> b in S
    ensures v in S
    decreases |p|
  {
    if |p| > 1 {
      PathPrefix(G, u, p, v, |p| - 2);
      ClosedContainsPath(G, S, u, p[..|p| - 1], p[|p| - 2]);
      assert Edge(G, p[|p| - 2], p[|p| - 1]);
    }
  }

  /** More than n entries below n repeat a value. */
  lemma {:induction false} Pigeonhole(p: seq<nat>, n: nat)
    requires forall i :: 0 <= i < |p| ==> p[i] < n
    requires forall i, j :: 0 <= i < j < |p| ==> p[i] != p[j]
    ensures |p| <= n
    decreases n
  {
    if |p| > 0 {
      assert p[0] < n;
      if n - 1 in p {
        var k :| 0 <= k < |p| && p[k] == n - 1;
        var q := p[..k] + p[k + 1..];
        forall i, j | 0 <= i < j < |q| ensures q[i] != q[j] {
          assert q[i] == p[if i < k then i else i + 1] && q[j] == p[if j < k then j else j + 1];
        }
        Pigeonhole(q, n - 1);
      } else {
        Pigeonhole(p, n - 1);
      }
    }
  }

  /** A path that avoids d can be cut down to one of at most |G| nodes that avoids d. */
  lemma {:induction false} ShortenPath(G: Graph, p: seq<nat>, v: nat, d: nat) returns (q: seq<nat>)
    requires WellFormed(G) && |G| > 0
    requires PathBetween(G, 0, p, v) && d !in p
    ensures PathBetween(G, 0, q, v) && d !in q && |q| <= |G|
    decreases |p|
  {
    if |p| <= |G| {
      q := p;
    } else {
      forall i | 0 <= i < |p| ensures p[i] < |G| {
        if i > 0 { assert Edge(G, p[i - 1], p[i - 1 + 1]); }
      }
      if forall i, j :: 0 <= i < j < |p| ==> p[i] != p[j] {
        Pigeonhole(p, |G|);
      }
      var i, j :| 0 <= i < j < |p| && p[i] == p[j];
      var r := p[..i] + p[j..];
      forall k | 0 <= k < |r| - 1 ensures Edge(G, r[k], r[k + 1]) {
        if k + 1 < i {
          assert Edge(G, p[k], p[k + 1]);
        } else if k + 1 == i {
          assert r[k] == p[i - 1] && r[k + 1] == p[j] == p[i];
          assert Edge(G, p[i - 1], p[i - 1 + 1]);
        } else {
          assert r[k] == p[k - i + j] && r[k + 1] == p[k - i + j + 1];
          assert Edge(G, p[k - i + j], p[k - i + j + 1]);
        }
      }
      q := ShortenPath(G, r, v, d);
    }
  }

  lemma DominatesWithinEnough(G: Graph, k: nat, d: nat, v: nat)
    requires WellFormed(G) && |G| > 0 && |G| <= k + 1
    requires DominatesWithin(G, k, d, v)
    ensures Dominates(G, d, v)
  {
    forall p | PathBetween(G, 0, p, v) ensures d in p {
      if d !in p {
        var q := ShortenPath(G, p, v, d);
      }
    }
  }

  /** P lists the predecessors of every node of G. */
  ghost predicate Transposed(G: Graph, P: Graph) {
    && |P| == |G|
    && forall u: nat, v :: 0 <= v < |G| ==> (u in P[v] <==> Edge(G, u, v))
  }

  /** Blocks other than the entry have a predecessor with a smaller index. */
  ghost predicate ReversePostorder(G: Graph) {
    && WellFormed(G)
    && |G| > 0
    && forall v :: 0 < v < |G| ==> EarlierPredecessor(G, v)
  }

  ghost predicate EarlierPredecessor(G: Graph, v: nat) {
    exists u :: 0 <= u < v && Edge(G, u, v)
  }

  lemma DominatesTransitive(G: Graph, a: nat, b: nat, c: nat)
    requires Dominates(G, a, b) && Dominates(G, b, c)
    ensures Dominates(G, a, c)
  {
    forall p | PathBetween(G, 0, p, c) ensures a in p {
      assert b in p;
      var i :| 0 <= i < |p| && p[i] == b;
      PathPrefix(G, 0, p, c, i);
      assert a in p[..i + 1];
    }
  }

  lemma DominatesSelf(G: Graph, v: nat)
    ensures Dominates(G, v, v)
  {
    forall p | PathBetween(G, 0, p, v) ensures v in p { assert p[|p| - 1] == v; }
  }

  /** A block other than the entry is first entered from a block that it does not dominate. */
  lemma {:induction false} FirstEntry(G: Graph, p: seq<nat>, b: nat) returns (u: nat)
    requires PathBetween(G, 0, p, b) && b != 0
    ensures Edge(G, u, b) && !Dominates(G, b, u)
    decreases |p|
  {
    var n := |p| - 1;
    if b in p[..n] {
      var i :| 0 <= i < n && p[i] == b;
      PathPrefix(G, 0, p, b, i);
      u := FirstEntry(G, p[..i + 1], b);
    } else {
      PathPrefix(G, 0, p, b, n - 1);
      u := p[n - 1];
      assert Edge(G, p[n - 1], p[n - 1 + 1]);
    }
  }
}
