/** Finite directed graphs given by successor sets, and the nodes that can never complete. */
module Graphs {
  import opened Sequences

  type Graph = seq<set<nat>>

  predicate IsPath(g: Graph, p: seq<nat>) {
    && p != []
    && forall i :: 0 <= i < |p| - 1 ==> p[i] < |g| && p[i + 1] in g[p[i]]
  }

  /** The path ends in a `bad` node or back on itself. */
  predicate Doomed(bad: set<nat>, p: seq<nat>) {
    p != [] && (p[|p| - 1] in bad || p[|p| - 1] in p[..|p| - 1])
  }

  /** A `bad` node or a cycle can be reached from `c`. */
  ghost predicate ReachesCycleOr(g: Graph, bad: set<nat>, c: nat) {
    exists p: seq<nat> :: IsPath(g, p) && p[0] == c && Doomed(bad, p)
  }

  ghost predicate ReachesCycle(g: Graph, c: nat) {
    ReachesCycleOr(g, {}, c)
  }

  /** Every member is bad or has a successor that is a member. */
  predicate Closed(g: Graph, bad: set<nat>, x: set<nat>) {
    forall c :: c in x ==> c < |g| && (c in bad || g[c] * x != {})
  }

  lemma {:induction false} WalkInside(g: Graph, bad: set<nat>, x: set<nat>, c: nat, n: nat)
    returns (p: seq<nat>)
    requires Closed(g, bad, x) && c in x
    ensures IsPath(g, p) && p[0] == c && Below(p, |g|)
    ensures p[|p| - 1] in bad || |p| == n + 1
    decreases n
  {
    if c in bad || n == 0 {
      p := [c];
    } else {
      var d :| d in g[c] * x;
      var q := WalkInside(g, bad, x, d, n - 1);
      p := [c] + q;
    }
  }

  /** From every member of a closed set a bad node or a cycle can be reached. */
  lemma TrappedInside(g: Graph, bad: set<nat>, x: set<nat>, c: nat)
    requires Closed(g, bad, x) && c in x
    ensures ReachesCycleOr(g, bad, c)
  {
    var p := WalkInside(g, bad, x, c, |g|);
    if p[|p| - 1] !in bad {
      var i, j := Repeats(p, |g|);
      var q := p[..j + 1];
      assert q[j] == q[..j][i];
      assert Doomed(bad, q) && IsPath(g, q) && q[0] == c;
    } else {
      assert Doomed(bad, p);
    }
  }

  /** `ord` lists nodes so that all successors of a node come before it. */
  predicate CompletionOrder(g: Graph, bad: set<nat>, ord: seq<nat>) {
    && NoDup(ord)
    && forall k :: 0 <= k < |ord| ==>
                     && ord[k] < |g| && ord[k] !in bad
                     && forall v :: v in g[ord[k]] ==> v in ord[..k]
  }

  lemma {:induction false} PathDescends(g: Graph, bad: set<nat>, ord: seq<nat>, p: seq<nat>, k: nat)
    requires CompletionOrder(g, bad, ord) && IsPath(g, p) && k < |ord| && p[0] == ord[k]
    ensures forall i :: 1 <= i < |p| ==> p[i] in ord[..k]
    decreases |p|
  {
    if |p| > 1 {
      var m :| 0 <= m < k && ord[m] == p[1];
      PathDescends(g, bad, ord, p[1..], m);
      forall i | 1 <= i < |p| ensures p[i] in ord[..k] {
        if i > 1 {
          assert p[i] == p[1..][i - 1];
          assert ord[..m] <= ord[..k];
        }
      }
    }
  }

  /** Nothing that a completion order lists can reach a bad node or a cycle. */
  lemma CompletedAreSafe(g: Graph, bad: set<nat>, ord: seq<nat>, c: nat)
    requires CompletionOrder(g, bad, ord) && c in ord
    ensures !ReachesCycleOr(g, bad, c)
  {
    forall p: seq<nat> | IsPath(g, p) && p[0] == c
      ensures !Doomed(bad, p)
    {
      var k :| 0 <= k < |ord| && ord[k] == c;
      PathDescends(g, bad, ord, p, k);
      var n := |p| - 1;
      assert p[n] in ord;
      if i :| 0 <= i < n && p[i] == p[n] {
        assert p[i] in ord;
        var m :| 0 <= m < |ord| && ord[m] == p[i];
        assert p[n] == p[i..][n - i];
        PathDescends(g, bad, ord, p[i..], m);
        assert false;
      }
    }
  }

  predicate RankedBy(g: Graph, rank: seq<nat>) {
    && |rank| == |g|
    && forall u: nat :: u < |g| ==> forall v :: v in g[u] ==> v < |g| && rank[v] < rank[u]
  }

  lemma {:induction false} RankDescends(g: Graph, rank: seq<nat>, p: seq<nat>, i: nat, j: nat)
    requires RankedBy(g, rank) && IsPath(g, p) && i < j < |p|
    ensures p[i] < |g| && p[j] < |g| && rank[p[j]] < rank[p[i]]
    decreases j
  {
    assert p[j - 1 + 1] in g[p[j - 1]];
    if i < j - 1 { RankDescends(g, rank, p, i, j - 1); }
  }

  lemma RankedIsAcyclic(g: Graph, rank: seq<nat>, c: nat)
    requires RankedBy(g, rank)
    ensures !ReachesCycle(g, c)
  {
    forall p: seq<nat> | IsPath(g, p) && p[0] == c ensures !Doomed({}, p) {
      var n := |p| - 1;
      forall i | 0 <= i < n ensures p[i] != p[n] { RankDescends(g, rank, p, i, n); }
    }
  }

  /** `big` extends `g`, and all its edges lead into `g`. */
  predicate LeadsInto(big: Graph, g: Graph) {
    |g| <= |big| && big[..|g|] == g && forall u: nat, v :: u < |big| && v in big[u] ==> v < |g|
  }

  lemma {:induction false} StaysInside(big: Graph, g: Graph, p: seq<nat>, i: nat)
    requires LeadsInto(big, g) && IsPath(big, p) && 1 <= i < |p|
    ensures p[i] < |g|
  {
    assert p[i - 1 + 1] in big[p[i - 1]];
  }

  /** The extension changes nothing for the nodes of `g`. */
  lemma SameCycles(big: Graph, g: Graph, c: nat)
    requires LeadsInto(big, g) && c < |g|
    ensures ReachesCycle(big, c) <==> ReachesCycle(g, c)
  {
    forall p: seq<nat> | IsPath(big, p) && p[0] == c ensures IsPath(g, p) {
      forall i | 0 <= i < |p| - 1 ensures p[i] < |g| && p[i + 1] in g[p[i]] {
        if i > 0 { StaysInside(big, g, p, i); }
        assert p[i + 1] in big[p[i]] && big[..|g|][p[i]] == big[p[i]];
      }
    }
    forall p: seq<nat> | IsPath(g, p) && p[0] == c ensures IsPath(big, p) {
      forall i | 0 <= i < |p| - 1 ensures p[i] < |big| && p[i + 1] in big[p[i]] {
        assert big[..|g|][p[i]] == big[p[i]];
      }
    }
  }

  /** A new node reaches a cycle only through a node of `g`. */
  lemma CycleIsInside(big: Graph, g: Graph, c: nat) returns (d: nat)
    requires LeadsInto(big, g) && |g| <= c && ReachesCycle(big, c)
    ensures d < |g| && ReachesCycle(g, d)
  {
    var p: seq<nat> :| IsPath(big, p) && p[0] == c && Doomed({}, p);
    var q, n := p[1..], |p| - 1;
    forall i | 1 <= i < |p| ensures p[i] < |g| { StaysInside(big, g, p, i); }
    var k :| 0 <= k < n && p[k] == p[n];
    assert q[k - 1] == q[n - 1] && q[k - 1] in q[..n - 1];
    forall i | 0 <= i < |q| - 1 ensures q[i] < |big| && q[i + 1] in big[q[i]] {
      assert p[i + 1 + 1] in big[p[i + 1]];
    }
    d := q[0];
    assert IsPath(big, q) && Doomed({}, q);
    SameCycles(big, g, d);
  }
}
