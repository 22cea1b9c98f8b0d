/** The order in which alsa/utils/mod-deps.c prints its configuration blocks:
    `process_dep_acinclude` visits the deps named in a dep's condition first,
    and `output_acinclude` repeats passes over all deps until none is pending. */
module Acinclude {

  datatype Kind = Tristate | Bool | Int
  datatype Named = Unknown | Found(dep: nat)

  /** What the visit looks at in a `struct dep`: its flags, whether the source's
      tables list its name, and the deps its condition names. */
  datatype Dep = Dep(
    kind: Kind, selectable: bool, defVal: bool, hasSel: bool, hasCardName: bool,
    toplevel: bool, kernel: bool, menuDefaultYes: bool, alwaysTrue: bool, alwaysFalse: bool,
    conds: seq<Named>)

  type Deps = seq<Dep>

  /** `rank` falls along every condition between toplevel deps; other deps are never expanded. */
  predicate Acyclic(g: Deps, rank: seq<nat>) {
    && |rank| == |g|
    && forall d, k | 0 <= d < |g| && 0 <= k < |g[d].conds| && g[d].conds[k].Found? ::
         var e := g[d].conds[k].dep;
         e < |g| && (g[d].toplevel && g[e].toplevel ==> rank[e] < rank[d])
  }

  function Measure(g: Deps, rank: seq<nat>, d: nat): nat
    requires d < |g| == |rank|
  {
    if g[d].toplevel then rank[d] + 1 else 0
  }

  /** The blocks printed so far, which are also the deps marked `processed`, and the `pending` flags. */
  datatype State = State(blocks: seq<nat>, pending: set<nat>)

  predicate ToBePending(g: Deps, s: State, d: nat)
    requires d < |g|
  {
    d in s.pending ||
    (d !in s.blocks && !g[d].selectable && !g[d].kernel &&
     !g[d].menuDefaultYes && !g[d].alwaysTrue && !g[d].alwaysFalse)
  }

  /** Whether a dep is worth a visit that no other dep asked for. */
  predicate Offered(a: Dep) {
    a.selectable || a.kind == Int || (a.conds != [] && a.defVal)
  }

  /** Whether there is a block to print for a dep once its conditions are done. */
  predicate HasBlock(a: Dep) {
    if a.selectable && !a.alwaysTrue then a.hasCardName
    else a.kind == Int || a.hasSel || (a.conds != [] && a.defVal)
  }

  predicate Emits(a: Dep) {
    a.toplevel && HasBlock(a)
  }

  datatype Outcome = Outcome(s: State, ret: bool, stopped: bool)

  /** `process_dep_acinclude`; `final` is its `process_pending`. */
  function Visit(g: Deps, rank: seq<nat>, s: State, d: nat, slave: bool, final: bool): Outcome
    requires Acyclic(g, rank) && d < |g|
    decreases Measure(g, rank, d), |g[d].conds| + 1
  {
    if !slave && !Offered(g[d]) then Outcome(s, false, false)
    else if !g[d].toplevel || d in s.blocks then Outcome(s, false, false)
    else
      var o := VisitConds(g, rank, s, d, 0, final);
      if o.stopped || d in o.s.blocks || !HasBlock(g[d]) then o
      else o.(s := o.s.(blocks := o.s.blocks + [d]))
  }

  /** The loop over the condition of `d`, from its `k`-th atom on. */
  function VisitConds(g: Deps, rank: seq<nat>, s: State, d: nat, k: nat, final: bool): Outcome
    requires Acyclic(g, rank) && d < |g| && g[d].toplevel && k <= |g[d].conds|
    decreases Measure(g, rank, d), |g[d].conds| - k
  {
    if k == |g[d].conds| then Outcome(s, false, false)
    else if g[d].conds[k].Unknown? then VisitConds(g, rank, s, d, k + 1, final)
    else
      var e := g[d].conds[k].dep;
      if !final && ToBePending(g, s, e) then Outcome(s.(pending := s.pending + {d}), true, true)
      else
        var o := Visit(g, rank, s, e, true, final);
        var rest := VisitConds(g, rank, o.s, d, k + 1, final);
        rest.(ret := o.ret || rest.ret)
  }

  function VisitAll(g: Deps, rank: seq<nat>, s: State, from: nat, final: bool): Outcome
    requires Acyclic(g, rank) && from <= |g|
    decreases |g| - from
  {
    if from == |g| then Outcome(s, false, false)
    else
      var o := Visit(g, rank, s, from, false, final);
      var rest := VisitAll(g, rank, o.s, from + 1, final);
      rest.(ret := o.ret || rest.ret)
  }

  // ----- What a visit guarantees -----

  predicate NoRepeats(s: seq<nat>) {
    forall i, j | 0 <= i < j < |s| :: s[i] != s[j]
  }

  predicate Valid(g: Deps, s: State) {
    NoRepeats(s.blocks) && forall i | 0 <= i < |s.blocks| :: s.blocks[i] < |g| && Emits(g[s.blocks[i]])
  }

  /** Every dep with a block that the condition of the `i`-th printed dep names
      was printed before it, or is in `excused`. */
  predicate After(g: Deps, blocks: seq<nat>, i: nat, excused: set<nat>)
    requires i < |blocks| && blocks[i] < |g|
  {
    forall k | 0 <= k < |g[blocks[i]].conds| && g[blocks[i]].conds[k].Found? ::
      var e := g[blocks[i]].conds[k].dep;
      e < |g| && (Emits(g[e]) ==> e in blocks[..i] || e in excused)
  }

  ghost predicate AllAfter(g: Deps, s: State, from: nat, final: bool)
    requires Valid(g, s)
  {
    forall i | from <= i < |s.blocks| :: After(g, s.blocks, i, Excused(s, final))
  }

  /** The final pass excuses nothing. */
  function Excused(s: State, final: bool): set<nat> {
    if final then {} else s.pending
  }

  /** What every visit keeps and adds. */
  ghost predicate Extends(g: Deps, s: State, o: Outcome, final: bool)
    requires Valid(g, s)
  {
    && Valid(g, o.s)
    && s.blocks <= o.s.blocks && s.pending <= o.s.pending
    && AllAfter(g, o.s, |s.blocks|, final)
    && (!o.ret ==> o.s.pending == s.pending)
    && (final ==> !o.ret)
  }

  /** An emitting dep that was visited is printed, unless it was put off in a pass that allows it. */
  predicate Settled(g: Deps, d: nat, o: Outcome, final: bool)
    requires d < |g|
  {
    Emits(g[d]) ==> d in o.s.blocks || (!final && o.ret && d in o.s.pending)
  }

  lemma ExtendsTrans(g: Deps, s: State, o1: Outcome, o2: Outcome, final: bool)
    requires Valid(g, s) && Extends(g, s, o1, final) && Extends(g, o1.s, o2, final)
    ensures Extends(g, s, o2.(ret := o1.ret || o2.ret), final)
  {
    forall i | |s.blocks| <= i < |o2.s.blocks|
      ensures After(g, o2.s.blocks, i, Excused(o2.s, final))
    {
      if i < |o1.s.blocks| {
        assert After(g, o1.s.blocks, i, Excused(o1.s, final));
        assert o1.s.blocks[..i] == o2.s.blocks[..i];
      }
    }
  }

  lemma {:induction false} VisitSettles(g: Deps, rank: seq<nat>, s: State, d: nat, slave: bool, final: bool)
    requires Acyclic(g, rank) && d < |g| && Valid(g, s)
    ensures var o := Visit(g, rank, s, d, slave, final);
            && Extends(g, s, o, final)
            && (slave || Offered(g[d]) ==> Settled(g, d, o, final))
            && (forall i | |s.blocks| <= i < |o.s.blocks| :: Measure(g, rank, o.s.blocks[i]) <= Measure(g, rank, d))
    decreases Measure(g, rank, d), |g[d].conds| + 1
  {
    var o := Visit(g, rank, s, d, slave, final);
    if (slave || Offered(g[d])) && g[d].toplevel && d !in s.blocks {
      var c := VisitConds(g, rank, s, d, 0, final);
      CondsSettle(g, rank, s, d, 0, final);
      if !c.stopped && HasBlock(g[d]) {
        EmitExtends(g, s, c, d, final);
      }
    }
  }

  /** Printing the block of `d` once its conditions are settled. */
  lemma EmitExtends(g: Deps, s: State, c: Outcome, d: nat, final: bool)
    requires Valid(g, s) && Extends(g, s, c, final) && d < |g| && Emits(g[d]) && d !in c.s.blocks
    requires forall j | 0 <= j < |g[d].conds| && g[d].conds[j].Found? ::
               var e := g[d].conds[j].dep; e < |g| && (Emits(g[e]) ==> e in c.s.blocks || e in Excused(c.s, final))
    ensures Extends(g, s, c.(s := c.s.(blocks := c.s.blocks + [d])), final)
  {
    var n, b := |c.s.blocks|, c.s.blocks + [d];
    assert b[..n] == c.s.blocks;
    assert After(g, b, n, Excused(c.s, final));
    forall i | |s.blocks| <= i < n
      ensures After(g, b, i, Excused(c.s, final))
    {
      assert After(g, c.s.blocks, i, Excused(c.s, final));
      assert b[..i] == c.s.blocks[..i];
    }
  }

  lemma {:induction false} CondsSettle(g: Deps, rank: seq<nat>, s: State, d: nat, k: nat, final: bool)
    requires Acyclic(g, rank) && d < |g| && g[d].toplevel && k <= |g[d].conds| && Valid(g, s) && d !in s.blocks
    ensures var o := VisitConds(g, rank, s, d, k, final);
            && Extends(g, s, o, final) && d !in o.s.blocks
            && (o.stopped ==> !final && o.ret && d in o.s.pending)
            && (!o.stopped ==>
                  forall j | k <= j < |g[d].conds| && g[d].conds[j].Found? ::
                    var e := g[d].conds[j].dep;
                    Emits(g[e]) ==> e in o.s.blocks || e in Excused(o.s, final))
            && (forall i | |s.blocks| <= i < |o.s.blocks| :: Measure(g, rank, o.s.blocks[i]) < Measure(g, rank, d))
    decreases Measure(g, rank, d), |g[d].conds| - k
  {
    if k < |g[d].conds| {
      if g[d].conds[k].Unknown? {
        CondsSettle(g, rank, s, d, k + 1, final);
      } else {
        var e := g[d].conds[k].dep;
        if final || !ToBePending(g, s, e) {
          var o := Visit(g, rank, s, e, true, final);
          VisitSettles(g, rank, s, e, true, final);
          assert d !in o.s.blocks;
          var rest := VisitConds(g, rank, o.s, d, k + 1, final);
          CondsSettle(g, rank, o.s, d, k + 1, final);
          ExtendsTrans(g, s, o, rest, final);
        }
      }
    }
  }

  lemma {:induction false} VisitAllSettles(g: Deps, rank: seq<nat>, s: State, from: nat, final: bool)
    requires Acyclic(g, rank) && from <= |g| && Valid(g, s)
    ensures var o := VisitAll(g, rank, s, from, final);
            && Extends(g, s, o, final)
            && (!o.ret ==> forall d | from <= d < |g| && Offered(g[d]) && Emits(g[d]) :: d in o.s.blocks)
    decreases |g| - from
  {
    if from < |g| {
      var o := Visit(g, rank, s, from, false, final);
      VisitSettles(g, rank, s, from, false, final);
      VisitAllSettles(g, rank, o.s, from + 1, final);
      ExtendsTrans(g, s, o, VisitAll(g, rank, o.s, from + 1, final), final);
    }
  }

  // ----- The driver -----

  /** Up to `passes` passes that put deps off, then one that does not. `mark`
      is how many blocks were printed before the last pass. */
  datatype Run = Run(s: State, mark: nat)

  function Passes(g: Deps, rank: seq<nat>, s: State, passes: nat): Run
    requires Acyclic(g, rank)
    decreases passes
  {
    if passes == 0 then Run(VisitAll(g, rank, s, 0, true).s, |s.blocks|)
    else
      var o := VisitAll(g, rank, s.(pending := {}), 0, false);
      if o.ret then Passes(g, rank, o.s, passes - 1) else Run(o.s, |s.blocks|)
  }

  const PASSES: nat := 5

  /** However the passes end: no dep is printed twice, only deps with a block are
      printed, every offered one is, and in the last pass every dep named in a
      condition comes before the dep that names it. */
  lemma {:induction false} PassesComplete(g: Deps, rank: seq<nat>, s: State, passes: nat)
    requires Acyclic(g, rank) && Valid(g, s)
    ensures var r := Passes(g, rank, s, passes);
            && Valid(g, r.s) && s.blocks <= r.s.blocks && |s.blocks| <= r.mark <= |r.s.blocks|
            && (forall d | 0 <= d < |g| && Offered(g[d]) && Emits(g[d]) :: d in r.s.blocks)
            && (forall i | r.mark <= i < |r.s.blocks| :: After(g, r.s.blocks, i, {}))
    decreases passes
  {
    if passes == 0 {
      VisitAllSettles(g, rank, s, 0, true);
      assert Excused(VisitAll(g, rank, s, 0, true).s, true) == {};
    } else {
      var o := VisitAll(g, rank, s.(pending := {}), 0, false);
      VisitAllSettles(g, rank, s.(pending := {}), 0, false);
      if o.ret {
        PassesComplete(g, rank, o.s, passes - 1);
      } else {
        assert Excused(o.s, false) == {};
      }
    }
  }

  // ----- Which blocks there are -----

  /** A dep that is visited for its own sake: it has a prompt, is an int, or has a default and a condition. */
  predicate AskedFor(a: Dep) {
    a.selectable || a.kind.Int? || (a.defVal && |a.conds| > 0)
  }

  /** A dep that has something to print: with a prompt, unless it is always true, all it needs is
      a card name; else it is an int, selects something, or has a default and a condition. */
  predicate BlockWanted(a: Dep) {
    && a.toplevel
    && (a.selectable && !a.alwaysTrue ==> a.hasCardName)
    && (!a.selectable || a.alwaysTrue ==> a.kind.Int? || a.hasSel || (a.defVal && |a.conds| > 0))
  }

  predicate Names(g: Deps, p: nat, d: nat)
    requires p < |g|
  {
    exists k | 0 <= k < |g[p].conds| :: g[p].conds[k] == Found(d)
  }

  /** `d` is asked for, or a toplevel dep that is needed within `n` steps names it. */
  ghost predicate Needed(g: Deps, d: nat, n: nat)
    decreases n
  {
    if n == 0 then d < |g| && AskedFor(g[d])
    else exists p: nat | p < |g| && g[p].toplevel :: Names(g, p, d) && Needed(g, p, n - 1)
  }

  ghost predicate IsNeeded(g: Deps, d: nat) {
    exists n: nat :: Needed(g, d, n)
  }

  lemma NamedIsNeeded(g: Deps, p: nat, d: nat)
    requires p < |g| && g[p].toplevel && IsNeeded(g, p) && Names(g, p, d)
    ensures IsNeeded(g, d)
  {
    var n: nat :| Needed(g, p, n);
    assert Needed(g, d, n + 1);
  }

  ghost predicate AllNeeded(g: Deps, s: State) {
    forall d <- s.blocks :: IsNeeded(g, d)
  }

  lemma {:induction false} VisitNeeded(g: Deps, rank: seq<nat>, s: State, d: nat, slave: bool, final: bool)
    requires Acyclic(g, rank) && d < |g| && AllNeeded(g, s) && (slave ==> IsNeeded(g, d))
    ensures AllNeeded(g, Visit(g, rank, s, d, slave, final).s)
    decreases Measure(g, rank, d), |g[d].conds| + 1
  {
    if (slave || Offered(g[d])) && g[d].toplevel && d !in s.blocks {
      assert !slave ==> Needed(g, d, 0);
      CondsNeeded(g, rank, s, d, 0, final);
    }
  }

  lemma {:induction false} CondsNeeded(g: Deps, rank: seq<nat>, s: State, d: nat, k: nat, final: bool)
    requires Acyclic(g, rank) && d < |g| && g[d].toplevel && k <= |g[d].conds| && AllNeeded(g, s) && IsNeeded(g, d)
    ensures AllNeeded(g, VisitConds(g, rank, s, d, k, final).s)
    decreases Measure(g, rank, d), |g[d].conds| - k
  {
    if k < |g[d].conds| {
      if g[d].conds[k].Unknown? {
        CondsNeeded(g, rank, s, d, k + 1, final);
      } else {
        var e := g[d].conds[k].dep;
        if final || !ToBePending(g, s, e) {
          assert g[d].conds[k] == Found(e);
          NamedIsNeeded(g, d, e);
          VisitNeeded(g, rank, s, e, true, final);
          CondsNeeded(g, rank, Visit(g, rank, s, e, true, final).s, d, k + 1, final);
        }
      }
    }
  }

  lemma {:induction false} VisitAllNeeded(g: Deps, rank: seq<nat>, s: State, from: nat, final: bool)
    requires Acyclic(g, rank) && from <= |g| && AllNeeded(g, s)
    ensures AllNeeded(g, VisitAll(g, rank, s, from, final).s)
    decreases |g| - from
  {
    if from < |g| {
      VisitNeeded(g, rank, s, from, false, final);
      VisitAllNeeded(g, rank, Visit(g, rank, s, from, false, final).s, from + 1, final);
    }
  }

  lemma {:induction false} PassesNeeded(g: Deps, rank: seq<nat>, s: State, passes: nat)
    requires Acyclic(g, rank) && AllNeeded(g, s)
    ensures AllNeeded(g, Passes(g, rank, s, passes).s)
    decreases passes
  {
    if passes == 0 {
      VisitAllNeeded(g, rank, s, 0, true);
    } else {
      VisitAllNeeded(g, rank, s.(pending := {}), 0, false);
      var o := VisitAll(g, rank, s.(pending := {}), 0, false);
      if o.ret {
        PassesNeeded(g, rank, o.s, passes - 1);
      }
    }
  }

  /** The blocks that the passes leave, in the flags of the deps: of those asked for, exactly the
      ones with something to print; of the others only needed ones with something to print; and
      with a block of the last pass, those of all deps it names that have something to print. */
  ghost predicate BlocksAre(g: Deps, blocks: seq<nat>, mark: nat) {
    && NoRepeats(blocks)
    && (forall d | 0 <= d < |g| && AskedFor(g[d]) :: d in blocks <==> BlockWanted(g[d]))
    && (forall d <- blocks :: d < |g| && BlockWanted(g[d]) && IsNeeded(g, d))
    && (forall i: nat, e: nat | mark <= i < |blocks| && e < |g| ::
          blocks[i] < |g| && Names(g, blocks[i], e) && BlockWanted(g[e]) ==> e in blocks[..i])
  }

  lemma BlocksOfPasses(g: Deps, rank: seq<nat>, passes: nat)
    requires Acyclic(g, rank)
    ensures var r := Passes(g, rank, State([], {}), passes); BlocksAre(g, r.s.blocks, r.mark)
  {
    var r := Passes(g, rank, State([], {}), passes);
    PassesComplete(g, rank, State([], {}), passes);
    PassesNeeded(g, rank, State([], {}), passes);
    forall d <- r.s.blocks
      ensures d < |g| && BlockWanted(g[d])
    {
      var i :| 0 <= i < |r.s.blocks| && r.s.blocks[i] == d;
    }
    forall i: nat, e: nat | r.mark <= i < |r.s.blocks| && e < |g| && Names(g, r.s.blocks[i], e) && BlockWanted(g[e])
      ensures e in r.s.blocks[..i]
    {
      assert After(g, r.s.blocks, i, {});
    }
  }

  /** A needed dep that nobody asks for can stay without its block: dep 0 is printed while dep 1,
      which it names, is put off for dep 2, and no later pass comes back to it. */
  lemma LostBlock()
    ensures var option := Dep(Tristate, true, false, false, true, true, false, false, false, false, [Found(1)]);
            var kernel := option.(selectable := false, hasSel := true, kernel := true, conds := [Found(2)]);
            var hidden := kernel.(kernel := false, conds := []);
            var g, rank := [option, kernel, hidden], [2, 1, 0];
            && Acyclic(g, rank) && BlockWanted(g[1]) && IsNeeded(g, 1)
            && Passes(g, rank, State([], {}), PASSES).s.blocks == [0]
  {
    var option := Dep(Tristate, true, false, false, true, true, false, false, false, false, [Found(1)]);
    var kernel := option.(selectable := false, hasSel := true, kernel := true, conds := [Found(2)]);
    var hidden := kernel.(kernel := false, conds := []);
    var g, rank := [option, kernel, hidden], [2, 1, 0];
    var s := State([], {});
    assert g[0].conds[0] == Found(1) && Needed(g, 0, 0);
    NamedIsNeeded(g, 0, 1);
    assert ToBePending(g, s, 2) && !ToBePending(g, s, 1);
    assert VisitConds(g, rank, s, 1, 0, false) == Outcome(State([], {1}), true, true);
    assert Visit(g, rank, s, 1, true, false) == Outcome(State([], {1}), true, true);
    assert VisitConds(g, rank, State([], {1}), 0, 1, false) == Outcome(State([], {1}), false, false);
    assert VisitConds(g, rank, s, 0, 0, false) == Outcome(State([], {1}), true, false);
    var t := State([0], {1});
    assert Visit(g, rank, s, 0, false, false) == Outcome(t, true, false);
    assert VisitAll(g, rank, t, 3, false) == Outcome(t, false, false);
    assert VisitAll(g, rank, t, 2, false) == Outcome(t, false, false);
    assert VisitAll(g, rank, t, 1, false) == Outcome(t, false, false);
    assert VisitAll(g, rank, s, 0, false) == Outcome(t, true, false);
    LostSecond(g, rank);
    assert s.(pending := {}) == s;
  }

  /** With dep 0 printed and nothing else asked for, a further pass prints nothing and is the last. */
  lemma LostSecond(g: Deps, rank: seq<nat>)
    requires Acyclic(g, rank) && |g| == 3 && !Offered(g[1]) && !Offered(g[2])
    ensures forall p: set<nat>, n: nat | n > 0 :: Passes(g, rank, State([0], p), n).s == State([0], {})
  {
    var t := State([0], {});
    assert VisitAll(g, rank, t, 3, false) == Outcome(t, false, false);
    assert VisitAll(g, rank, t, 2, false) == Outcome(t, false, false);
    assert VisitAll(g, rank, t, 1, false) == Outcome(t, false, false);
    assert VisitAll(g, rank, t, 0, false) == Outcome(t, false, false);
    forall p: set<nat>, n: nat | n > 0
      ensures Passes(g, rank, State([0], p), n).s == State([0], {})
    {
      assert State([0], p).(pending := {}) == t;
    }
  }

  /** A pass that puts deps off can print a dep ahead of one it needs: dep 0 needs
      dep 1, which needs dep 2, which is only ever selected. The first pass puts
      dep 1 off and prints dep 0 ahead of it. */
  lemma ParentFirst()
    ensures var option := Dep(Tristate, true, false, false, true, true, false, false, false, false, []);
            var hidden := option.(selectable := false, hasSel := true);
            var g := [option.(conds := [Found(1)]), option.(conds := [Found(2)]), hidden];
            var rank := [2, 1, 0];
            && Acyclic(g, rank)
            && var o := Visit(g, rank, State([], {}), 0, false, false);
               o.s.blocks == [0] && 1 in o.s.pending && o.ret && Emits(g[1])
  {
    var option := Dep(Tristate, true, false, false, true, true, false, false, false, false, []);
    var hidden := option.(selectable := false, hasSel := true);
    var g := [option.(conds := [Found(1)]), option.(conds := [Found(2)]), hidden];
    var rank := [2, 1, 0];
    var s := State([], {});
    assert ToBePending(g, s, 2) && !ToBePending(g, s, 1);
    assert VisitConds(g, rank, s, 1, 0, false) == Outcome(State([], {1}), true, true);
    assert Visit(g, rank, s, 1, true, false) == Outcome(State([], {1}), true, true);
    assert VisitConds(g, rank, State([], {1}), 0, 1, false) == Outcome(State([], {1}), false, false);
    assert VisitConds(g, rank, s, 0, 0, false) == Outcome(State([], {1}), true, false);
  }

  // ----- The flags in place -----

  class Emitter {
    const g: Deps
    var processed: set<nat>
    var pending: set<nat>
    var blocks: seq<nat>

    constructor (g: Deps)
      ensures this.g == g && Marks() && Now() == State([], {})
    {
      this.g := g;
      processed, pending, blocks := {}, {}, [];
    }

    ghost predicate Marks()
      reads this
    {
      forall d :: d in processed <==> d in blocks
    }

    ghost function Now(): State
      reads this
    {
      State(blocks, pending)
    }

    method Process(d: nat, slave: bool, final: bool, ghost rank: seq<nat>) returns (ret: bool)
      requires Acyclic(g, rank) && d < |g| && Marks()
      modifies this
      ensures Marks()
      ensures var o := Visit(g, rank, old(Now()), d, slave, final); Now() == o.s && ret == o.ret
      decreases Measure(g, rank, d), 1
    {
      if !slave && !Offered(g[d]) {
        return false;
      }
      if !g[d].toplevel || d in processed {
        return false;
      }
      var stopped;
      ret, stopped := ProcessConds(d, final, rank);
      if stopped || d in processed || !HasBlock(g[d]) {
        return;
      }
      blocks := blocks + [d];
      processed := processed + {d};
    }

    method ProcessConds(d: nat, final: bool, ghost rank: seq<nat>) returns (ret: bool, stopped: bool)
      requires Acyclic(g, rank) && d < |g| && g[d].toplevel && Marks()
      modifies this
      ensures Marks()
      ensures VisitConds(g, rank, old(Now()), d, 0, final) == Outcome(Now(), ret, stopped)
      decreases Measure(g, rank, d), 0
    {
      ret, stopped := false, false;
      var k := 0;
      while k < |g[d].conds|
        invariant 0 <= k <= |g[d].conds| && Marks()
        invariant var rest := VisitConds(g, rank, Now(), d, k, final);
                  VisitConds(g, rank, old(Now()), d, 0, final) == rest.(ret := ret || rest.ret)
      {
        if g[d].conds[k].Found? {
          var e := g[d].conds[k].dep;
          if !final && (e in pending || (e !in processed && !g[e].selectable && !g[e].kernel &&
                                         !g[e].menuDefaultYes && !g[e].alwaysTrue && !g[e].alwaysFalse)) {
            pending := pending + {d};
            return true, true;
          }
          var r := Process(e, true, final, rank);
          ret := ret || r;
        }
        k := k + 1;
      }
    }

    method ProcessAll(final: bool, ghost rank: seq<nat>) returns (ret: bool)
      requires Acyclic(g, rank) && Marks()
      modifies this
      ensures Marks()
      ensures var o := VisitAll(g, rank, old(Now()), 0, final); Now() == o.s && ret == o.ret
    {
      ret := false;
      var d := 0;
      while d < |g|
        invariant 0 <= d <= |g| && Marks()
        invariant var rest := VisitAll(g, rank, Now(), d, final);
                  VisitAll(g, rank, old(Now()), 0, final) == rest.(ret := ret || rest.ret)
      {
        var r := Process(d, false, final, rank);
        ret := ret || r;
        d := d + 1;
      }
    }

    /** The pass loop of `output_acinclude`. */
    method OutputAcinclude(ghost rank: seq<nat>)
      requires Acyclic(g, rank) && Marks()
      modifies this
      ensures Marks() && Now() == Passes(g, rank, old(Now()), 5).s
      ensures old(Now()) == State([], {}) ==>
                BlocksAre(g, blocks, Passes(g, rank, State([], {}), 5).mark)
    {
      var ret := true;
      var i := 0;
      while i < PASSES
        invariant 0 <= i <= PASSES && Marks() && ret
        invariant Passes(g, rank, old(Now()), PASSES).s == Passes(g, rank, Now(), PASSES - i).s
      {
        pending := {};
        ret := ProcessAll(false, rank);
        i := i + 1;
        if !ret {
          break;
        }
      }
      if ret {
        var _ := ProcessAll(true, rank);
      }
      BlocksOfPasses(g, rank, 5);
    }
  }
}
