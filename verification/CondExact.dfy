/** Where the optimizer keeps the meaning, and where it does not. */
module CondExact {
  import opened CondChain
  import opened CondOptimize
  import opened CondBuild

  // ----- A condition on the input chain that makes every removal safe -----

  /** One connector throughout, no negated always-true name, and no name both plain and negated. */
  ghost predicate Tidy(c: seq<Cond>, k: Connector) {
    && (forall i | 0 <= i < |c| - 1 :: c[i].conn == k)
    && (forall i | 0 <= i < |c| :: TrulyTrue(c[i]))
    && (forall i, j | 0 <= i < |c| && 0 <= j < |c| && c[i].name == c[j].name :: c[i].negated == c[j].negated)
  }

  /** The same, with the polarity of every name given by `pol`. */
  predicate TidyFor(c: seq<Cond>, k: Connector, pol: string -> bool) {
    && (forall i | 0 <= i < |c| - 1 :: c[i].conn == k)
    && (forall i | 0 <= i < |c| :: TrulyTrue(c[i]) && c[i].negated == pol(c[i].name))
  }

  lemma TidyRemove(c: seq<Cond>, i: nat, k: Connector, pol: string -> bool)
    requires TidyFor(c, k, pol) && i < |c|
    ensures TidyFor(c[..i] + c[i + 1..], k, pol)
  {
    var r := c[..i] + c[i + 1..];
    forall j | 0 <= j < |r|
      ensures r[j] == c[if j < i then j else j + 1]
    {
    }
  }

  lemma TidyStep(c: seq<Cond>, i: nat, k: Connector, pol: string -> bool)
    requires TidyFor(c, k, pol) && i < |c|
    ensures TidyFor(Normalized(c, i), k, pol)
    ensures Fires(c, i) ==> Safe(c, i) && TidyFor(Remove(c, i, Which(c, i)), k, pol)
  {
    if Fires(c, i) {
      TidyRemove(Adjust(c, i, Which(c, i)), i, k, pol);
    }
  }

  lemma {:induction false} TidyIsSafe(c: seq<Cond>, i: nat, k: Connector, pol: string -> bool)
    requires TidyFor(c, k, pol) && i <= |c|
    ensures SafeRun(c, i)
    decreases |c|, |c| - i
  {
    if i < |c| {
      var c1 := Normalized(c, i);
      TidyStep(c, i, k, pol);
      TidyStep(c1, i, k, pol);
      if Which(c1, i).NoRule? {
        TidyIsSafe(c1, i + 1, k, pol);
      } else if !Which(c1, i).Fatal? {
        TidyIsSafe(Remove(c1, i, Which(c1, i)), 0, k, pol);
      }
    }
  }

  /** On tidy chains, conjunctions and disjunctions alike, optimizing is sound. */
  lemma TidyOptimizeMeans(c: seq<Cond>, k: Connector, env: Env)
    requires WellNested(c) && Tidy(c, k) && Sane(c, env)
    ensures Optimize(c, 0).Done? && Meaning(Optimize(c, 0).chain, env) == Meaning(c, env)
  {
    var negatedNames := set i | 0 <= i < |c| && c[i].negated :: c[i].name;
    TidyIsSafe(c, 0, k, n => n in negatedNames);
    OptimizeMeans(c, 0, env);
  }

  /** From the parts of a dep to its optimized condition: as long as every removal
      meets its guard, what is left holds exactly when every part does. */
  lemma OptimizedConjunction(parts: seq<seq<Cond>>, env: Env)
    requires forall c <- parts :: WellNested(c) && EndsInAnd(c)
    requires SafeRun(JoinAll(parts), 0) && Sane(JoinAll(parts), env)
    ensures Optimize(JoinAll(parts), 0).Done?
    ensures Meaning(Optimize(JoinAll(parts), 0).chain, env) <==> forall c <- parts :: Meaning(c, env)
  {
    JoinAllMeans(parts, env);
    OptimizeMeans(JoinAll(parts), 0, env);
  }

  // ----- Chains whose meaning the optimizer changes -----

  function Term(name: string, left: nat, right: nat, negated: bool, conn: Connector): Cond {
    Cond(name, MarkFor(name, true), left, right, negated, conn)
  }

  /** The optimizer's outcome on a chain whose first atom is not removed, from that on its rest. */
  lemma Passed(c: seq<Cond>, i: nat)
    requires i < |c| && Normalized(c, i) == c && Which(c, i) == NoRule
    ensures Optimize(c, i) == Optimize(c, i + 1)
  {
    OptimizeStep(c, i, c, i + 1);
  }

  /** Two atoms without brackets that no rule fits stay. */
  lemma PairStays(a: Cond, b: Cond)
    requires a.left == a.right == b.left == b.right == 0 && a.name != b.name && !TakenAsTrue(a) && !TakenAsTrue(b)
    ensures Optimize([a, b], 0) == Done([a, b])
  {
    Passed([a, b], 0);
    Passed([a, b], 1);
  }

  lemma BracketCancelled(a: Cond, b: Cond)
    requires a.left == a.right == 1 && a.name != b.name && !TakenAsTrue(a)
    ensures Optimize([a, b], 0) == Optimize([a.(left := 0, right := 0), b], 1)
  {
    var d := [a.(left := 0, right := 0), b];
    assert Normalized([a, b], 0) == d;
    OptimizeStep([a, b], 0, d, 1);
  }

  /** A true closing term is dropped, and the bracket left around one atom is cancelled. */
  lemma ClosingDropped(p: Cond, t: Cond, n: Cond)
    requires p.left == 1 && p.right == 0 && p.conn == And && t.left == 0 && t.right == 1 && n.left == n.right == 0
    requires p.name != t.name && p.name != n.name && t.name != n.name
    requires TakenAsTrue(t) && !TakenAsTrue(p) && !TakenAsTrue(n)
    ensures Which([p, t, n], 1) == TrueClose && Optimize([p, t, n], 0) == Done([p.(left := 0), n])
  {
    var c, q := [p, t, n], p.(right := 1);
    Passed(c, 0);
    assert Normalized(c, 1) == c;
    assert Remove(c, 1, TrueClose) == [q, n];
    OptimizeStep(c, 1, [q, n], 0);
    BracketCancelled(q, n);
    Passed([p.(left := 0), n], 1);
  }

  lemma SecondDropped(x: Cond, a: Cond, b: Cond)
    requires x.left == x.right == a.left == a.right == b.left == b.right == 0 && x.name != a.name && a.name == b.name
    requires !TakenAsTrue(x) && !TakenAsTrue(b)
    ensures Which([x, a, b], 1) == DupTerm && Optimize([x, a, b], 0) == Done([x, b])
  {
    var c := [x, a, b];
    Passed(c, 0);
    assert Normalized(c, 1) == c;
    assert Remove(c, 1, DupTerm) == [x, b];
    OptimizeStep(c, 1, [x, b], 0);
    PairStays(x, b);
  }

  /** `(P && SND) || N` becomes `P && N`: the connector behind the closing term is lost. */
  lemma LostConnector(env: Env)
    requires env("P") && !env("N") && env("SND")
    ensures var c := [Term("P", 1, 0, false, And), Term("SND", 0, 1, false, Or), Term("N", 0, 0, false, And)];
            var d := [Term("P", 0, 0, false, And), Term("N", 0, 0, false, And)];
            && Which(c, 1) == TrueClose && !Safe(c, 1) && Optimize(c, 0) == Done(d)
            && Meaning(c, env) && !Meaning(d, env)
  {
    var p, t, n := Term("P", 1, 0, false, And), Term("SND", 0, 1, false, Or), Term("N", 0, 0, false, And);
    ClosingDropped(p, t, n);
    Run2(p.(left := 0), n, START, env);
    LostRuns(p, t, n, env);
  }

  lemma LostRuns(p: Cond, t: Cond, n: Cond, env: Env)
    requires p == Term("P", 1, 0, false, And) && t == Term("SND", 0, 1, false, Or) && n == Term("N", 0, 0, false, And)
    requires env("P") && env("SND")
    ensures Meaning([p, t, n], env)
  {
    assert [p, t, n] == [p, t] + [n];
    RunAppend([p, t], [n], START, env);
    Run2(p, t, START, env);
    Run1(n, Run([p, t], START, env), env);
    Open1(START.frames);
    assert Step(p, START.frames, env) == State(Frame(Take, Base(Take)), true);
    Close1(State(Frame(Take, Base(Take)), true));
  }

  /** `X && A || A` becomes `X && A`: the connectors around the dropped duplicate differ. */
  lemma MixedDuplicate(env: Env)
    requires !env("X") && env("A")
    ensures var c := [Term("X", 0, 0, false, And), Term("A", 0, 0, false, Or), Term("A", 0, 0, false, And)];
            var d := [Term("X", 0, 0, false, And), Term("A", 0, 0, false, And)];
            && Which(c, 1) == DupTerm && !Safe(c, 1) && Optimize(c, 0) == Done(d)
            && Meaning(c, env) && !Meaning(d, env)
  {
    var x, a, b := Term("X", 0, 0, false, And), Term("A", 0, 0, false, Or), Term("A", 0, 0, false, And);
    SecondDropped(x, a, b);
    Run2(x, b, START, env);
    assert [x, a, b] == [x, a] + [b];
    RunAppend([x, a], [b], START, env);
    Run2(x, a, START, env);
    Run1(b, Run([x, a], START, env), env);
  }

  /** `A && !A` becomes `!A`: the polarity of a duplicate is not looked at. */
  lemma OppositeDuplicate(env: Env)
    requires !env("A")
    ensures var c := [Term("A", 0, 0, false, And), Term("A", 0, 0, true, And)];
            var d := [Term("A", 0, 0, true, And)];
            && Which(c, 0) == DupTerm && !Safe(c, 0) && Optimize(c, 0) == Done(d)
            && !Meaning(c, env) && Meaning(d, env)
  {
    var a, b := Term("A", 0, 0, false, And), Term("A", 0, 0, true, And);
    assert Remove([a, b], 0, DupTerm) == [b];
    OptimizeStep([a, b], 0, [b], 0);
    Passed([b], 0);
    Run2(a, b, START, env);
    Run1(b, START, env);
  }

  /** `!SND` becomes the empty condition: negation of an always-true name is not looked at. */
  lemma NegatedTruth(env: Env)
    requires env("SND")
    ensures var c := [Term("SND", 0, 0, true, And)];
            && Which(c, 0) == TrueTerm && !Safe(c, 0) && Optimize(c, 0) == Done([])
            && !Meaning(c, env) && Meaning([], env)
  {
    var c := [Term("SND", 0, 0, true, And)];
    OptimizeStep(c, 0, [], 0);
    Run1(c[0], START, env);
  }

  lemma ThirdDropped(a: Cond, b: Cond, c: Cond, d: Cond)
    requires a.left == a.right == b.left == b.right == c.left == c.right == d.left == d.right == 0
    requires a.name != b.name && b.name != c.name && c.name == d.name
    requires !TakenAsTrue(a) && !TakenAsTrue(b) && !TakenAsTrue(d)
    ensures Which([a, b, c, d], 2) == DupTerm && Optimize([a, b, c, d], 0) == Done([a, b, d])
  {
    var e := [a, b, c, d];
    Passed(e, 0);
    Passed(e, 1);
    assert Normalized(e, 2) == e;
    assert Remove(e, 2, DupTerm) == [a, b, d];
    OptimizeStep(e, 2, [a, b, d], 0);
    Passed([a, b, d], 0);
    Passed([a, b, d], 1);
    Passed([a, b, d], 2);
  }

  /** The atoms around a removal can hide what it does: `A || B && A || A` becomes
      `A || B && A` outside the guard, and both mean `A`. */
  lemma MaskedRemoval(env: Env)
    ensures var a, b := Term("A", 0, 0, false, Or), Term("B", 0, 0, false, And);
            var c, d := [a, b, a, a], [a, b, a];
            && Which(c, 2) == DupTerm && !Safe(c, 2) && Optimize(c, 0) == Done(d)
            && Meaning(c, env) == Meaning(d, env) == env("A")
  {
    var a, b := Term("A", 0, 0, false, Or), Term("B", 0, 0, false, And);
    ThirdDropped(a, b, a, a);
    Run2(a, b, START, env);
    var s := Run([a, b], START, env);
    assert [a, b, a, a] == [a, b] + [a, a] && [a, b, a] == [a, b] + [a];
    RunAppend([a, b], [a, a], START, env);
    RunAppend([a, b], [a], START, env);
    Run2(a, a, s, env);
    Run1(a, s, env);
  }
}
