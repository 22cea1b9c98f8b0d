/** How conditions are put together: `join_cond` and `duplicate_cond` of
    alsa/utils/mod-deps.c, as functions on chains. */
module CondBuild {
  import opened CondChain

  /** Appends the second chain, bracketed, to the first; an empty chain adds nothing. */
  function Join(c1: seq<Cond>, c2: seq<Cond>): seq<Cond> {
    if c1 == [] then c2
    else if c2 == [] then c1
    else c1 + Bracket(c2)
  }

  /** The connector after the last atom, which the parser leaves at `COND_AND`. */
  predicate EndsInAnd(c: seq<Cond>) {
    c == [] || c[|c| - 1].conn == And
  }

  function Combine(k: Connector, x: bool, y: bool): bool {
    Apply(Link(k, x), y)
  }

  /** Joining combines the two meanings with the connector the first chain ends in. */
  lemma JoinMeans(c1: seq<Cond>, c2: seq<Cond>, env: Env)
    requires WellNested(c1) && WellNested(c2)
    ensures WellNested(Join(c1, c2))
    ensures EndsInAnd(c1) ==> Meaning(Join(c1, c2), env) == (Meaning(c1, env) && Meaning(c2, env))
    ensures c1 != [] && c2 != [] ==>
              Meaning(Join(c1, c2), env) == Combine(c1[|c1| - 1].conn, Meaning(c1, env), Meaning(c2, env))
    ensures EndsInAnd(c1) && EndsInAnd(c2) ==> EndsInAnd(Join(c1, c2))
  {
    if c1 != [] && c2 != [] {
      BracketNests(c2);
      NestsAppend(c1, Bracket(c2), 0, 0, 0);
      RunAppend(c1, Bracket(c2), START, env);
      LastLink(c1, START, env);
      BracketRun(c2, Run(c1, START, env), env);
    }
  }

  /** A menu level that only marks nesting. */
  predicate IsEmptyLevel(c: seq<Cond>)
    requires c != []
  {
    c[0].name == "EMPTY"
  }

  predicate IsStack(levels: seq<seq<Cond>>) {
    forall i | 0 <= i < |levels| :: levels[i] != []
  }

  /** The copy of a template stack, innermost level first in `levels`: outer
      levels come first in the chain, and the connector that joins a level to
      the next is forced to `COND_AND`. */
  function Duplicate(levels: seq<seq<Cond>>): seq<Cond>
    requires IsStack(levels)
  {
    if levels == [] then [] else AddLevel(Duplicate(levels[1..]), levels[0])
  }

  function AddLevel(outer: seq<Cond>, level: seq<Cond>): seq<Cond>
    requires level != []
  {
    if IsEmptyLevel(level) then AndNext(outer) else AndNext(outer) + Bracket(level)
  }

  function AndNext(outer: seq<Cond>): seq<Cond> {
    if outer == [] then [] else WithConn(outer, And)
  }

  predicate AllHold(levels: seq<seq<Cond>>, env: Env)
    requires IsStack(levels)
  {
    forall i | 0 <= i < |levels| :: levels[i][0].name == "EMPTY" || Meaning(levels[i], env)
  }

  lemma AddLevelMeans(outer: seq<Cond>, level: seq<Cond>, env: Env)
    requires level != [] && WellNested(outer) && WellNested(level)
    ensures WellNested(AddLevel(outer, level))
    ensures Meaning(AddLevel(outer, level), env)
         == (Meaning(outer, env) && (IsEmptyLevel(level) || Meaning(level, env)))
    ensures EndsInAnd(outer) && EndsInAnd(level) ==> EndsInAnd(AddLevel(outer, level))
  {
    if outer != [] {
      WithConnNests(outer, And, 0, 0);
      RunWithConn(outer, And, START, env);
      JoinMeans(AndNext(outer), level, env);
    } else if !IsEmptyLevel(level) {
      BracketNests(level);
      BracketRun(level, START, env);
      assert [] + Bracket(level) == Bracket(level);
    }
  }

  /** The copy of a stack means that every level that is not EMPTY holds. */
  lemma {:induction false} DuplicateMeans(levels: seq<seq<Cond>>, env: Env)
    requires IsStack(levels)
    requires forall i | 0 <= i < |levels| :: WellNested(levels[i])
    ensures WellNested(Duplicate(levels))
    ensures Meaning(Duplicate(levels), env) <==> AllHold(levels, env)
    ensures (forall i | 0 <= i < |levels| :: EndsInAnd(levels[i])) ==> EndsInAnd(Duplicate(levels))
  {
    if levels != [] {
      DuplicateMeans(levels[1..], env);
      AddLevelMeans(Duplicate(levels[1..]), levels[0], env);
      assert AllHold(levels, env)
        <==> ((IsEmptyLevel(levels[0]) || Meaning(levels[0], env)) && AllHold(levels[1..], env))
      by { assert levels == [levels[0]] + levels[1..]; }
    }
  }

  /** All conditions attached to one dep, in the order they are added. */
  function JoinAll(parts: seq<seq<Cond>>): seq<Cond> {
    if parts == [] then [] else Join(JoinAll(parts[..|parts| - 1]), parts[|parts| - 1])
  }

  /** However many `depends`, `select` and menu templates a dep collects, its
      condition is the conjunction of all of them. */
  lemma {:induction false} JoinAllMeans(parts: seq<seq<Cond>>, env: Env)
    requires forall c <- parts :: WellNested(c) && EndsInAnd(c)
    ensures WellNested(JoinAll(parts)) && EndsInAnd(JoinAll(parts))
    ensures Meaning(JoinAll(parts), env) <==> forall c <- parts :: Meaning(c, env)
  {
    if parts != [] {
      var front, last := parts[..|parts| - 1], parts[|parts| - 1];
      assert parts == front + [last];
      JoinAllMeans(front, env);
      JoinMeans(JoinAll(front), last, env);
    }
  }
}
