/** Printing everything a dep selects, in alsa/utils/mod-deps.c: a depth-first
    walk over `select` edges that marks edges on the way down and deps on the
    way up. Select graphs may be cyclic. */
module SelectClosure {

  /** `g[d]` lists the deps that dep `d` selects. */
  type Graph = seq<seq<nat>>

  predicate Resolved(g: Graph) {
    forall d, k | 0 <= d < |g| && 0 <= k < |g[d]| :: g[d][k] < |g|
  }

  /** The `k`-th entry of `d`'s select list. */
  datatype Edge = Edge(d: nat, k: nat)

  predicate IsEdge(g: Graph, e: Edge) {
    e.d < |g| && e.k < |g[e.d]|
  }

  function Target(g: Graph, e: Edge): nat
    requires IsEdge(g, e)
  {
    g[e.d][e.k]
  }

  ghost function Edges(g: Graph): (s: set<Edge>)
    ensures forall e :: e in s <==> IsEdge(g, e)
  {
    set d: nat, k: nat | d < |g| && k < |g[d]| :: Edge(d, k)
  }

  /** `t` is reached from `d` by following exactly `n` select edges. */
  ghost predicate Reach(g: Graph, d: nat, t: nat, n: nat)
    decreases n
  {
    if n == 0 then d == t
    else exists k: nat :: IsEdge(g, Edge(d, k)) && Reach(g, Target(g, Edge(d, k)), t, n - 1)
  }

  ghost predicate ReachMany(g: Graph, d: nat, t: nat, least: nat) {
    exists n: nat :: n >= least && Reach(g, d, t, n)
  }

  predicate NoRepeats(s: seq<nat>) {
    forall i, j | 0 <= i < j < |s| :: s[i] != s[j]
  }

  class SelectWalk {
    const g: Graph
    var depHit: set<nat>
    var selHit: set<Edge>
    var printed: seq<nat>

    constructor (g: Graph)
      ensures this.g == g
    {
      this.g := g;
      depHit, selHit, printed := {}, {}, [];
    }

    /** Between two steps of the walk: `onStack` are the edges that are marked but
        whose target the walk has not come back from. */
    ghost predicate Inv(onStack: set<Edge>)
      reads this
    {
      && Resolved(g)
      && selHit <= Edges(g)
      && (forall e <- selHit :: e in onStack || Target(g, e) in depHit)
      && (forall d <- depHit :: d < |g| && Expanded(d))
      && (set d <- printed) == depHit && NoRepeats(printed)
    }

    /** Every select edge of `d` is marked. */
    ghost predicate Expanded(d: nat)
      reads this
    {
      d < |g| && forall k: nat | k < |g[d]| :: Edge(d, k) in selHit
    }

    /** `sel_print_acinclude` on an entry whose dep is `d`. */
    method PrintSel(d: nat, ghost onStack: set<Edge>)
      requires Inv(onStack) && d < |g|
      modifies this
      ensures Inv(onStack) && Expanded(d)
      ensures old(depHit) <= depHit && old(selHit) <= selHit && old(printed) <= printed
      ensures forall t <- depHit :: t in old(depHit) || ReachMany(g, d, t, 1)
      decreases Edges(g) - selHit
    {
      if d in depHit {
        return;
      }
      var k := 0;
      while k < |g[d]|
        invariant 0 <= k <= |g[d]| && Inv(onStack)
        invariant old(depHit) <= depHit && old(selHit) <= selHit && old(printed) <= printed
        invariant forall j: nat | j < k :: Edge(d, j) in selHit
        invariant forall t <- depHit :: t in old(depHit) || ReachMany(g, d, t, 1)
      {
        if Edge(d, k) !in selHit {
          FollowEdge(d, k, onStack);
        }
        k := k + 1;
      }
    }

    /** The body of the loop for an unmarked entry. */
    method FollowEdge(d: nat, k: nat, ghost onStack: set<Edge>)
      requires Inv(onStack) && IsEdge(g, Edge(d, k)) && Edge(d, k) !in selHit
      modifies this
      ensures Inv(onStack) && Edge(d, k) in selHit
      ensures old(depHit) <= depHit && old(selHit) <= selHit && old(printed) <= printed
      ensures forall t <- depHit :: t in old(depHit) || ReachMany(g, d, t, 1)
      decreases Edges(g) - selHit, 0
    {
      var e := Edge(d, k);
      var t := g[d][k];
      selHit := selHit + {e};
      PrintSel(t, onStack + {e});
      assert Reach(g, t, t, 0) && Reach(g, d, t, 1);
      forall u | u in depHit && u !in old(depHit)
        ensures ReachMany(g, d, u, 1)
      {
        var n :| n >= 1 && Reach(g, t, u, n);
        assert Target(g, Edge(d, k)) == t;
        assert Reach(g, d, u, n + 1);
      }
      if t !in depHit {
        depHit := depHit + {t};
        printed := printed + [t];
      }
    }

    /** `sel_remove_hitflags`. */
    method RemoveHitflags()
      modifies this
      ensures depHit == {} && selHit == {} && printed == old(printed)
    {
      depHit, selHit := {}, {};
    }

    /** What `process_dep_acinclude` does for the select list of `root`: the deps
        marked and printed, each once, are exactly those two or more edges away. */
    method PrintSelects(root: nat)
      requires Resolved(g) && root < |g|
      modifies this
      ensures NoRepeats(printed)
      ensures forall t :: t in printed <==> ReachMany(g, root, t, 2)
      ensures forall t :: t in depHit <==> ReachMany(g, root, t, 2)
    {
      printed := [];
      RemoveHitflags();
      var k := 0;
      while k < |g[root]|
        invariant 0 <= k <= |g[root]| && Inv({})
        invariant forall j: nat | j < k :: Expanded(g[root][j])
        invariant forall t <- depHit :: ReachMany(g, root, t, 2)
      {
        var s := g[root][k];
        label Before:
        PrintSel(s, {});
        forall t | t in depHit && t !in old@Before(depHit)
          ensures ReachMany(g, root, t, 2)
        {
          var n :| n >= 1 && Reach(g, s, t, n);
          assert Target(g, Edge(root, k)) == s;
          assert Reach(g, root, t, n + 1);
        }
        k := k + 1;
      }
      forall t | ReachMany(g, root, t, 2)
        ensures t in depHit
      {
        var n :| n >= 2 && Reach(g, root, t, n);
        var j: nat :| IsEdge(g, Edge(root, j)) && Reach(g, Target(g, Edge(root, j)), t, n - 1);
        HitReached(g[root][j], t, n - 1);
      }
    }

    /** With no edge under way, whatever an expanded dep reaches is marked. */
    lemma {:induction false} HitReached(d: nat, t: nat, n: nat)
      requires Inv({}) && Expanded(d) && n >= 1 && Reach(g, d, t, n)
      ensures t in depHit
      decreases n
    {
      var k: nat :| IsEdge(g, Edge(d, k)) && Reach(g, Target(g, Edge(d, k)), t, n - 1);
      var u := Target(g, Edge(d, k));
      assert u in depHit;
      if n > 1 {
        HitReached(u, t, n - 1);
      }
    }
  }
}
