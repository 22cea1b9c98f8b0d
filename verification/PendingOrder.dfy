/** When alsa/utils/mod-deps.c prints a configuration block ahead of one it needs:
    the passes that put deps off, looked at more closely than in `Acinclude`. */
module PendingOrder {
  import opened Acinclude

  // ----- A parent comes first exactly when its child is pending -----

  /** Of the deps with a block that the condition of the `i`-th printed dep names, those
      printed before it are exactly those that are not pending. */
  predicate InOrderUnlessPending(g: Deps, s: State, i: nat)
    requires i < |s.blocks| && s.blocks[i] < |g|
  {
    forall k | 0 <= k < |g[s.blocks[i]].conds| && g[s.blocks[i]].conds[k].Found? ::
      var e := g[s.blocks[i]].conds[k].dep;
      e < |g| && (Emits(g[e]) ==> (e in s.blocks[..i] <==> e !in s.pending))
  }

  ghost predicate Exact(g: Deps, s: State, from: nat)
    requires Valid(g, s)
  {
    forall i | from <= i < |s.blocks| :: InOrderUnlessPending(g, s, i)
  }

  /** What a visit does not do: print a dep that was pending, other than the visited one,
      or put off a dep that is printed. */
  ghost predicate Careful(g: Deps, s: State, t: State, visited: set<nat>) {
    && (forall x <- t.pending :: x in s.pending || x !in t.blocks)
    && (forall i | |s.blocks| <= i < |t.blocks| :: t.blocks[i] !in s.pending || t.blocks[i] in visited)
  }

  /** Newly pending deps lie no deeper in the graph than `m`. */
  ghost predicate PendingBelow(g: Deps, rank: seq<nat>, s: State, t: State, m: int)
    requires |g| == |rank|
  {
    forall x <- t.pending :: x in s.pending || (x < |g| && Measure(g, rank, x) <= m)
  }

  lemma ExactTrans(g: Deps, s: State, t: State, u: State)
    requires Valid(g, s) && Valid(g, t) && Valid(g, u) && s.blocks <= t.blocks <= u.blocks && t.pending <= u.pending
    requires Exact(g, t, |s.blocks|) && Exact(g, u, |t.blocks|)
    requires forall x <- u.pending :: x in t.pending || x !in t.blocks
    ensures Exact(g, u, |s.blocks|)
  {
    forall i | |s.blocks| <= i < |t.blocks|
      ensures InOrderUnlessPending(g, u, i)
    {
      assert InOrderUnlessPending(g, t, i);
      assert t.blocks[..i] == u.blocks[..i];
    }
  }

  lemma {:induction false} VisitExact(g: Deps, rank: seq<nat>, s: State, d: nat, slave: bool)
    requires Acyclic(g, rank) && d < |g| && Valid(g, s)
    ensures var o := Visit(g, rank, s, d, slave, false);
            && Extends(g, s, o, false) && Exact(g, o.s, |s.blocks|)
            && Careful(g, s, o.s, {d}) && PendingBelow(g, rank, s, o.s, Measure(g, rank, d))
    decreases Measure(g, rank, d), |g[d].conds| + 1
  {
    VisitSettles(g, rank, s, d, slave, false);
    if (slave || Offered(g[d])) && g[d].toplevel && d !in s.blocks {
      var c := VisitConds(g, rank, s, d, 0, false);
      CondsSettle(g, rank, s, d, 0, false);
      CondsExact(g, rank, s, d, 0);
      if !c.stopped && HasBlock(g[d]) {
        PrintExact(g, s, c.s, d);
      }
    }
  }

  /** Printing `d` itself, once the deps it names are printed or pending. */
  lemma PrintExact(g: Deps, s: State, c: State, d: nat)
    requires Valid(g, s) && Valid(g, c) && s.blocks <= c.blocks && Exact(g, c, |s.blocks|)
    requires d < |g| && Emits(g[d]) && d !in c.blocks
    requires forall j | 0 <= j < |g[d].conds| && g[d].conds[j].Found? :: PrintedUnlessPending(g, c, g[d].conds[j].dep)
    ensures var t := c.(blocks := c.blocks + [d]); Valid(g, t) && Exact(g, t, |s.blocks|)
  {
    var t := c.(blocks := c.blocks + [d]);
    forall i | |s.blocks| <= i < |t.blocks|
      ensures InOrderUnlessPending(g, t, i)
    {
      if i < |c.blocks| {
        assert InOrderUnlessPending(g, c, i);
        assert t.blocks[..i] == c.blocks[..i];
      } else {
        assert t.blocks[..i] == c.blocks;
      }
    }
  }

  predicate PrintedUnlessPending(g: Deps, s: State, e: nat) {
    e < |g| && (Emits(g[e]) ==> (e in s.blocks <==> e !in s.pending))
  }

  lemma {:induction false} CondsExact(g: Deps, rank: seq<nat>, s: State, d: nat, k: nat)
    requires Acyclic(g, rank) && d < |g| && g[d].toplevel && k <= |g[d].conds| && Valid(g, s) && d !in s.blocks
    ensures var o := VisitConds(g, rank, s, d, k, false);
            && Extends(g, s, o, false) && Exact(g, o.s, |s.blocks|) && Careful(g, s, o.s, {})
            && PendingBelow(g, rank, s, o.s, Measure(g, rank, d) - if o.stopped then 0 else 1)
            && (!o.stopped ==>
                  forall j | k <= j < |g[d].conds| && g[d].conds[j].Found? ::
                    PrintedUnlessPending(g, o.s, g[d].conds[j].dep))
    decreases Measure(g, rank, d), |g[d].conds| - k
  {
    CondsSettle(g, rank, s, d, k, false);
    if k < |g[d].conds| {
      if g[d].conds[k].Unknown? {
        CondsExact(g, rank, s, d, k + 1);
      } else {
        var e := g[d].conds[k].dep;
        if !ToBePending(g, s, e) {
          var o := Visit(g, rank, s, e, true, false);
          VisitSettles(g, rank, s, e, true, false);
          VisitExact(g, rank, s, e, true);
          assert d !in o.s.blocks;
          CondsExact(g, rank, o.s, d, k + 1);
          var rest := VisitConds(g, rank, o.s, d, k + 1, false);
          ExactTrans(g, s, o.s, rest.s);
        }
      }
    }
  }

  /** Over a whole pass that puts deps off: a dep is printed ahead of a dep with a block
      that its condition names if and only if that dep is pending when the pass ends. */
  lemma {:induction false} EarlyIffPending(g: Deps, rank: seq<nat>, s: State, from: nat)
    requires Acyclic(g, rank) && from <= |g| && Valid(g, s)
    ensures var o := VisitAll(g, rank, s, from, false);
            && Valid(g, o.s) && s.blocks <= o.s.blocks && s.pending <= o.s.pending
            && Exact(g, o.s, |s.blocks|)
            && forall x <- o.s.pending :: x in s.pending || x !in s.blocks
    decreases |g| - from
  {
    VisitAllSettles(g, rank, s, from, false);
    if from < |g| {
      var o := Visit(g, rank, s, from, false, false);
      VisitExact(g, rank, s, from, false);
      EarlyIffPending(g, rank, o.s, from + 1);
      ExactTrans(g, s, o.s, VisitAll(g, rank, o.s, from + 1, false).s);
    }
  }

  // ----- Whether anything is put off, seen before the visit -----

  /** No unprinted dep that a visit of `d` gets to names a dep that would be put off,
      not counting those in `waived`. */
  predicate Quiet(g: Deps, rank: seq<nat>, s: State, d: nat, waived: set<nat>)
    requires Acyclic(g, rank) && d < |g|
    decreases Measure(g, rank, d)
  {
    g[d].toplevel && d !in s.blocks ==>
      forall k | 0 <= k < |g[d].conds| && g[d].conds[k].Found? ::
        var e := g[d].conds[k].dep;
        && (e in waived || (e !in s.pending &&
                            (e in s.blocks || g[e].selectable || g[e].kernel || g[e].menuDefaultYes ||
                             g[e].alwaysTrue || g[e].alwaysFalse)))
        && (g[e].toplevel ==> Quiet(g, rank, s, e, waived))
  }

  predicate Passed(g: Deps, rank: seq<nat>, s: State, e: nat)
    requires Acyclic(g, rank) && e < |g|
  {
    !ToBePending(g, s, e) && Quiet(g, rank, s, e, {})
  }

  /** What a quiet visit prints was quiet already, and not to be put off. */
  ghost predicate QuietStep(g: Deps, rank: seq<nat>, s: State, t: State, visited: set<nat>)
    requires Acyclic(g, rank)
  {
    && t.pending == s.pending && s.blocks <= t.blocks
    && forall i | |s.blocks| <= i < |t.blocks| ::
         && t.blocks[i] < |g| && Quiet(g, rank, s, t.blocks[i], {})
         && (t.blocks[i] in visited || !ToBePending(g, s, t.blocks[i]))
  }

  /** So it changes for no dep whether a visit of it is quiet... */
  lemma {:induction false} StepKeepsQuiet(g: Deps, rank: seq<nat>, s: State, t: State, x: nat)
    requires Acyclic(g, rank) && x < |g| && QuietStep(g, rank, s, t, {})
    ensures Quiet(g, rank, t, x, {}) == Quiet(g, rank, s, x, {})
    decreases Measure(g, rank, x)
  {
    if g[x].toplevel && x !in t.blocks {
      forall k | 0 <= k < |g[x].conds| && g[x].conds[k].Found? && g[g[x].conds[k].dep].toplevel
        ensures Quiet(g, rank, t, g[x].conds[k].dep, {}) == Quiet(g, rank, s, g[x].conds[k].dep, {})
      {
        StepKeepsQuiet(g, rank, s, t, g[x].conds[k].dep);
      }
      forall k | 0 <= k < |g[x].conds| && g[x].conds[k].Found?
        ensures ToBePending(g, t, g[x].conds[k].dep) == ToBePending(g, s, g[x].conds[k].dep)
      {
      }
    }
  }

  lemma StepTrans(g: Deps, rank: seq<nat>, s: State, t: State, u: Outcome)
    requires Acyclic(g, rank) && QuietStep(g, rank, s, t, {})
    requires !u.ret ==> QuietStep(g, rank, t, u.s, {})
    ensures !u.ret ==> QuietStep(g, rank, s, u.s, {})
  {
    if !u.ret {
      forall i | |s.blocks| <= i < |u.s.blocks|
        ensures u.s.blocks[i] < |g| && Quiet(g, rank, s, u.s.blocks[i], {}) && !ToBePending(g, s, u.s.blocks[i])
      {
        if i >= |t.blocks| {
          StepKeepsQuiet(g, rank, s, t, u.s.blocks[i]);
        }
      }
    }
  }

  /** A visit reports that something was put off exactly when it is not quiet. */
  lemma {:induction false} RetIffNotQuiet(g: Deps, rank: seq<nat>, s: State, d: nat, slave: bool)
    requires Acyclic(g, rank) && d < |g| && Valid(g, s) && (slave || Offered(g[d]))
    ensures var o := Visit(g, rank, s, d, slave, false);
            && (o.ret <==> !Quiet(g, rank, s, d, {}))
            && (!o.ret ==> QuietStep(g, rank, s, o.s, {d}))
    decreases Measure(g, rank, d), |g[d].conds| + 1
  {
    if g[d].toplevel && d !in s.blocks {
      CondsQuiet(g, rank, s, d, 0);
      CondsSettle(g, rank, s, d, 0, false);
    }
  }

  lemma {:induction false} CondsQuiet(g: Deps, rank: seq<nat>, s: State, d: nat, k: nat)
    requires Acyclic(g, rank) && d < |g| && g[d].toplevel && k <= |g[d].conds| && Valid(g, s) && d !in s.blocks
    ensures var o := VisitConds(g, rank, s, d, k, false);
            && (o.ret <==>
                  !forall j | k <= j < |g[d].conds| && g[d].conds[j].Found? :: Passed(g, rank, s, g[d].conds[j].dep))
            && (!o.ret ==> QuietStep(g, rank, s, o.s, {}))
    decreases Measure(g, rank, d), |g[d].conds| - k
  {
    if k < |g[d].conds| {
      if g[d].conds[k].Unknown? {
        CondsQuiet(g, rank, s, d, k + 1);
      } else {
        var e := g[d].conds[k].dep;
        if !ToBePending(g, s, e) {
          var o := Visit(g, rank, s, e, true, false);
          VisitSettles(g, rank, s, e, true, false);
          RetIffNotQuiet(g, rank, s, e, true);
          assert d !in o.s.blocks;
          CondsQuiet(g, rank, o.s, d, k + 1);
          if !o.ret {
            forall x: nat | x < |g|
              ensures Passed(g, rank, o.s, x) == Passed(g, rank, s, x)
            {
              StepKeepsQuiet(g, rank, s, o.s, x);
            }
            StepTrans(g, rank, s, o.s, VisitConds(g, rank, o.s, d, k + 1, false));
          }
        }
      }
    }
  }

  // ----- Whether a pass puts anything off, seen before the pass -----

  /** The deps that the pass prints for their own sake between `from` and the turn of `d`. */
  function PrintedBy(g: Deps, from: nat, d: nat): set<nat>
    requires d <= |g|
  {
    set f | from <= f < d && Offered(g[f]) && Emits(g[f])
  }

  /** No dep that the pass gets to names one that is to be put off and not printed earlier in the pass. */
  predicate QuietPass(g: Deps, rank: seq<nat>, s: State, from: nat)
    requires Acyclic(g, rank)
  {
    forall d | from <= d < |g| && Offered(g[d]) :: Quiet(g, rank, s, d, PrintedBy(g, from, d))
  }

  lemma {:induction false} QuietMore(g: Deps, rank: seq<nat>, s: State, x: nat, w: set<nat>)
    requires Acyclic(g, rank) && x < |g| && Quiet(g, rank, s, x, {})
    ensures Quiet(g, rank, s, x, w)
    decreases Measure(g, rank, x)
  {
    if g[x].toplevel && x !in s.blocks {
      forall k | 0 <= k < |g[x].conds| && g[x].conds[k].Found? && g[g[x].conds[k].dep].toplevel
        ensures Quiet(g, rank, s, g[x].conds[k].dep, w)
      {
        QuietMore(g, rank, s, g[x].conds[k].dep, w);
      }
    }
  }

  /** ...but for those that waited for the dep whose turn it was. */
  lemma {:induction false} TurnKeepsQuiet(
    g: Deps, rank: seq<nat>, s: State, t: State, from: nat, x: nat, w: set<nat>, w': set<nat>)
    requires Acyclic(g, rank) && from < |g| && x < |g| && s.pending == {} && QuietStep(g, rank, s, t, {from})
    requires w == if Offered(g[from]) && Emits(g[from]) then w' + {from} else w'
    requires if Offered(g[from]) && Emits(g[from]) then from in t.blocks else from !in t.blocks || from in s.blocks
    ensures Quiet(g, rank, s, x, w) == Quiet(g, rank, t, x, w')
    decreases Measure(g, rank, x)
  {
    if g[x].toplevel && x !in s.blocks {
      if x in t.blocks {
        QuietMore(g, rank, s, x, w);
      } else {
        forall k | 0 <= k < |g[x].conds| && g[x].conds[k].Found?
          ensures var e := g[x].conds[k].dep;
                  && (g[e].toplevel ==> Quiet(g, rank, s, e, w) == Quiet(g, rank, t, e, w'))
                  && ((ToBePending(g, s, e) ==> e in w) <==> (ToBePending(g, t, e) ==> e in w'))
        {
          var e := g[x].conds[k].dep;
          if g[e].toplevel {
            TurnKeepsQuiet(g, rank, s, t, from, e, w, w');
          }
        }
      }
    }
  }

  /** A pass that begins with no dep pending reports that it put one off exactly when it is not quiet. */
  lemma {:induction false} PassRetIffNotQuiet(g: Deps, rank: seq<nat>, s: State, from: nat)
    requires Acyclic(g, rank) && from <= |g| && Valid(g, s) && s.pending == {}
    ensures VisitAll(g, rank, s, from, false).ret <==> !QuietPass(g, rank, s, from)
    decreases |g| - from
  {
    if from < |g| {
      var o := Visit(g, rank, s, from, false, false);
      VisitSettles(g, rank, s, from, false, false);
      assert PrintedBy(g, from, from) == {};
      if Offered(g[from]) {
        RetIffNotQuiet(g, rank, s, from, false);
      }
      if !o.ret {
        PassRetIffNotQuiet(g, rank, o.s, from + 1);
        forall d | from < d < |g|
          ensures Quiet(g, rank, s, d, PrintedBy(g, from, d)) == Quiet(g, rank, o.s, d, PrintedBy(g, from + 1, d))
        {
          TurnKeepsQuiet(g, rank, s, o.s, from, d, PrintedBy(g, from, d), PrintedBy(g, from + 1, d));
        }
      }
    }
  }

  /** A quiet pass prints every offered dep that has a block, and all of them in order. */
  lemma QuietPassInOrder(g: Deps, rank: seq<nat>, s: State)
    requires Acyclic(g, rank) && Valid(g, s) && s.pending == {} && QuietPass(g, rank, s, 0)
    ensures var o := VisitAll(g, rank, s, 0, false);
            && Valid(g, o.s) && (forall d | 0 <= d < |g| && Offered(g[d]) && Emits(g[d]) :: d in o.s.blocks)
            && forall i | |s.blocks| <= i < |o.s.blocks| :: After(g, o.s.blocks, i, {})
  {
    VisitAllSettles(g, rank, s, 0, false);
    PassRetIffNotQuiet(g, rank, s, 0);
    assert Excused(VisitAll(g, rank, s, 0, false).s, false) == {};
  }
}
