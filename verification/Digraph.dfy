/** Directed graphs on 0..n as adjacency lists, paths and mutual reachability. */
module Digraph {
  type Graph = seq<seq<nat>>

  predicate Closed(g: Graph) {
    forall u, k | 0 <= u < |g| && 0 <= k < |g[u]| :: g[u][k] < |g|
  }

  predicate Edge(g: Graph, u: nat, v: nat) {
    u < |g| && v in g[u]
  }

  predicate IsPath(g: Graph, p: seq<nat>) {
    && p != []
    && (forall i | 0 <= i < |p| :: p[i] < |g|)
    && (forall i | 0 <= i < |p| - 1 :: Edge(g, p[i], p[i + 1]))
  }

  ghost predicate Reach(g: Graph, u: nat, v: nat) {
    exists p: seq<nat> :: IsPath(g, p) && p[0] == u && p[|p| - 1] == v
  }

  /** `u` and `v` lie in one strongly connected component. */
  ghost predicate Same(g: Graph, u: nat, v: nat) {
    Reach(g, u, v) && Reach(g, v, u)
  }

  lemma ReachSelf(g: Graph, u: nat)
    requires u < |g|
    ensures Reach(g, u, u) && Same(g, u, u)
  {
    assert IsPath(g, [u]);
  }

  lemma ReachEdge(g: Graph, u: nat, v: nat)
    requires Closed(g) && Edge(g, u, v)
    ensures Reach(g, u, v)
  {
    assert IsPath(g, [u, v]);
  }

  lemma ReachTrans(g: Graph, u: nat, v: nat, w: nat)
    requires Reach(g, u, v) && Reach(g, v, w)
    ensures Reach(g, u, w)
  {
    var p :| IsPath(g, p) && p[0] == u && p[|p| - 1] == v;
    var q :| IsPath(g, q) && q[0] == v && q[|q| - 1] == w;
    var r := p + q[1..];
    assert forall i | 0 <= i < |r| - 1 :: Edge(g, r[i], r[i + 1]) by {
      forall i | 0 <= i < |r| - 1 ensures Edge(g, r[i], r[i + 1]) {
        if i >= |p| - 1 {
          var j := i - (|p| - 1);
          assert r[i] == q[j] && r[i + 1] == q[j + 1];
        }
      }
    }
    assert IsPath(g, r);
  }

  lemma SameTrans(g: Graph, u: nat, v: nat, w: nat)
    requires Same(g, u, v) && Same(g, v, w)
    ensures Same(g, u, w)
  {
    ReachTrans(g, u, v, w);
    ReachTrans(g, w, v, u);
  }

  lemma ReachInRange(g: Graph, u: nat, v: nat)
    requires Reach(g, u, v)
    ensures u < |g| && v < |g|
  {
  }

  /** A path that leaves a set whose successors stay in `inside` or `border` meets the border. */
  lemma {:induction false} FirstExit(g: Graph, p: seq<nat>, inside: set<nat>, border: set<nat>) returns (s: nat)
    requires IsPath(g, p) && p[0] in inside && p[|p| - 1] !in inside
    requires forall u, v | u in inside && Edge(g, u, v) :: v in inside || v in border
    ensures s in border && s !in inside && Reach(g, p[0], s) && Reach(g, s, p[|p| - 1])
  {
    if p[1] in inside {
      var q := p[1..];
      assert IsPath(g, q);
      assert q[|q| - 1] == p[|p| - 1];
      s := FirstExit(g, q, inside, border);
      assert IsPath(g, [p[0], p[1]]);
      ReachTrans(g, p[0], p[1], s);
    } else {
      s := p[1];
      assert Edge(g, p[0], p[1]);
      assert IsPath(g, p[1..]) && p[1..][|p| - 2] == p[|p| - 1];
      assert IsPath(g, [p[0], p[1]]);
    }
  }

  lemma ReachExit(g: Graph, u: nat, v: nat, inside: set<nat>, border: set<nat>) returns (s: nat)
    requires Reach(g, u, v) && u in inside && v !in inside
    requires forall u, v | u in inside && Edge(g, u, v) :: v in inside || v in border
    ensures s in border && s !in inside && Reach(g, u, s) && Reach(g, s, v)
  {
    var p :| IsPath(g, p) && p[0] == u && p[|p| - 1] == v;
    s := FirstExit(g, p, inside, border);
  }
}
