/** The reference reading of a condition chain: syntax trees of the AND-OR list
    grammar of the POSIX Shell Command Language (section 2.9.3) with brackets.
    Every tree prints as a well-nested chain, every well-nested chain is the
    printing of some tree, and the chain machine computes the tree's value. */
module CondTree {
  import opened CondChain

  datatype Item = Atom(name: string, negated: bool) | Group(e: Expr)
  datatype Expr = One(i: Item) | Then(l: Expr, k: Connector, r: Item)

  function EvalItem(i: Item, env: Env): bool {
    match i
    case Atom(name, negated) => env(name) != negated
    case Group(e) => EvalExpr(e, env)
  }

  function EvalExpr(e: Expr, env: Env): bool {
    match e
    case One(i) => EvalItem(i, env)
    case Then(l, And, r) => EvalExpr(l, env) && EvalItem(r, env)
    case Then(l, Or, r) => EvalExpr(l, env) || EvalItem(r, env)
  }

  function FlatItem(i: Item): (c: seq<Cond>)
    ensures c != []
  {
    match i
    case Atom(name, negated) => [Cond(name, Unmarked, 0, 0, negated, And)]
    case Group(e) => Bracket(FlatExpr(e))
  }

  function FlatExpr(e: Expr): (c: seq<Cond>)
    ensures c != []
  {
    match e
    case One(i) => FlatItem(i)
    case Then(l, k, r) => WithConn(FlatExpr(l), k) + FlatItem(r)
  }

  lemma {:induction false} FlatItemRuns(i: Item, s: State, env: Env)
    ensures WellNested(FlatItem(i))
    ensures var w := Apply(s.frames.p, EvalItem(i, env)); Run(FlatItem(i), s, env).value == w
    ensures Run(FlatItem(i), s, env).frames.(p := Take) == s.frames.(p := Take)
  {
    match i
    case Atom(name, negated) =>
      var c := FlatItem(i);
      assert c[1..] == [];
    case Group(e) =>
      FlatExprRuns(e, env);
      BracketRun(FlatExpr(e), s, env);
      BracketNests(FlatExpr(e));
  }

  /** Printing a tree gives a well-nested chain with the tree's value. */
  lemma {:induction false} FlatExprRuns(e: Expr, env: Env)
    ensures WellNested(FlatExpr(e))
    ensures Meaning(FlatExpr(e), env) == EvalExpr(e, env)
  {
    match e
    case One(i) =>
      FlatItemRuns(i, START, env);
    case Then(l, k, r) =>
      FlatExprRuns(l, env);
      var c := FlatExpr(l);
      WithConnNests(c, k, 0, 0);
      FlatItemRuns(r, START, env);
      NestsAppend(WithConn(c, k), FlatItem(r), 0, 0, 0);
      RunAppend(WithConn(c, k), FlatItem(r), START, env);
      RunWithConn(c, k, START, env);
      LastLink(WithConn(c, k), START, env);
      var mid := Run(WithConn(c, k), START, env);
      assert mid.value == EvalExpr(l, env);
      FlatItemRuns(r, mid, env);
  }

  // ----- Every well-nested chain is the printing of a tree -----

  /** Equal but for the marks and the last connector, which no reading looks at. */
  function Plain(c: seq<Cond>): seq<Cond> {
    seq(|c|, i requires 0 <= i < |c| => c[i].(mark := Unmarked, conn := if i == |c| - 1 then And else c[i].conn))
  }

  function Brackets(c: seq<Cond>): nat {
    if c == [] then 0 else c[0].left + Brackets(c[1..])
  }

  lemma {:induction false} BracketsAppend(c1: seq<Cond>, c2: seq<Cond>)
    ensures Brackets(c1 + c2) == Brackets(c1) + Brackets(c2)
  {
    if c1 == [] {
      assert c1 + c2 == c2;
    } else {
      assert (c1 + c2)[1..] == c1[1..] + c2;
      BracketsAppend(c1[1..], c2);
    }
  }

  /** Starting inside one bracket, the chain closes it only at its last atom. */
  predicate StaysInside(c: seq<Cond>, d: nat) {
    c == [] || |c| == 1 || (c[0].right < d + c[0].left && StaysInside(c[1..], d + c[0].left - c[0].right))
  }

  /** Splits off the last item: a position at depth 0 from which the depth stays positive to the end. */
  lemma {:induction false} LastItem(c: seq<Cond>, d: nat) returns (j: nat, dj: nat)
    requires c != [] && Nests(c, d, 0)
    ensures j < |c| && Nests(c[..j], d, dj) && Nests(c[j..], dj, 0) && StaysInside(c[j..], dj)
    ensures j > 0 ==> dj == 0
    ensures j == 0 ==> dj == d
  {
    if |c| == 1 {
      j, dj := 0, d;
      assert c[..0] == [] && c[0..] == c;
    } else {
      var d1 := d + c[0].left - c[0].right;
      j, dj := LastItem(c[1..], d1);
      assert c[1..][j..] == c[j + 1..];
      if j > 0 || d1 == 0 {
        assert c[..j + 1][1..] == c[1..][..j];
        j := j + 1;
      } else {
        assert c[1..][0..] == c[1..];
        j, dj := 0, d;
        assert c[..0] == [] && c[0..] == c;
      }
    }
  }

  function Unbracket(c: seq<Cond>): seq<Cond>
    requires c != [] && c[0].left > 0 && c[|c| - 1].right > 0
  {
    var c1 := c[0 := c[0].(left := c[0].left - 1)];
    c1[|c| - 1 := c1[|c| - 1].(right := c1[|c| - 1].right - 1)]
  }

  /** The rest of a bracket, moved out of it by one level. */
  lemma {:induction false} StripNests(c: seq<Cond>, d: nat)
    requires c != [] && Nests(c, d + 1, 0) && StaysInside(c, d + 1)
    requires c[|c| - 1].right > 0
    ensures Nests(c[|c| - 1 := c[|c| - 1].(right := c[|c| - 1].right - 1)], d, 0)
  {
    var last := c[|c| - 1].(right := c[|c| - 1].right - 1);
    if |c| == 1 {
      assert c[0 := last] == [last];
    } else {
      assert c[|c| - 1 := last][1..] == c[1..][|c| - 2 := last];
      StripNests(c[1..], d + c[0].left - c[0].right);
    }
  }

  lemma {:induction false} LastCloses(c: seq<Cond>, d: nat)
    requires c != [] && Nests(c, d, 0) && StaysInside(c, d)
    ensures c[|c| - 1].right > 0 || (|c| == 1 && d == 0 && c[0].left == 0)
  {
    if |c| > 1 {
      LastCloses(c[1..], d + c[0].left - c[0].right);
    }
  }

  /** A tree for the last item, given trees for everything smaller. */
  lemma {:induction false} ParseGroup(c: seq<Cond>) returns (i: Item)
    requires c != [] && WellNested(c) && StaysInside(c, 0)
    ensures FlatItem(i) == Plain(c)
    decreases |c| + Brackets(c), 0
  {
    LastCloses(c, 0);
    if c[|c| - 1].right == 0 {
      i := Atom(c[0].name, c[0].negated);
    } else {
      var inner := Unbracket(c);
      assert c[0].left > 0;
      var c1 := c[0 := c[0].(left := c[0].left - 1)];
      assert c1[1..] == c[1..];
      if |c| == 1 {
        assert inner == [c[0].(left := c[0].left - 1, right := c[0].right - 1)];
      } else {
        StripNests(c[1..], c[0].left - c[0].right - 1);
        assert inner[1..] == c[1..][|c| - 2 := c[|c| - 1].(right := c[|c| - 1].right - 1)];
      }
      assert WellNested(inner);
      BracketsUnbracket(c);
      var e := Parse(inner);
      assert Bracket(Plain(inner)) == Plain(c);
      i := Group(e);
    }
  }

  lemma {:induction false} BracketsLast(c: seq<Cond>, last: Cond)
    requires c != [] && last.left == c[|c| - 1].left
    ensures Brackets(c[|c| - 1 := last]) == Brackets(c)
  {
    if |c| == 1 {
      assert c[0 := last] == [last];
    } else {
      assert c[|c| - 1 := last][1..] == c[1..][|c| - 2 := last];
      BracketsLast(c[1..], last);
    }
  }

  lemma BracketsUnbracket(c: seq<Cond>)
    requires c != [] && c[0].left > 0 && c[|c| - 1].right > 0
    ensures Brackets(Unbracket(c)) < Brackets(c)
  {
    var c1 := c[0 := c[0].(left := c[0].left - 1)];
    assert c1[1..] == c[1..];
    BracketsLast(c1, c1[|c| - 1].(right := c1[|c| - 1].right - 1));
  }

  /** Every well-nested chain is the printing of a tree. */
  lemma {:induction false} Parse(c: seq<Cond>) returns (e: Expr)
    requires c != [] && WellNested(c)
    ensures FlatExpr(e) == Plain(c)
    decreases |c| + Brackets(c), 1
  {
    var j, dj := LastItem(c, 0);
    assert c == c[..j] + c[j..];
    BracketsAppend(c[..j], c[j..]);
    if j == 0 {
      assert c[0..] == c;
      var i := ParseGroup(c);
      e := One(i);
    } else {
      var l := Parse(c[..j]);
      var i := ParseGroup(c[j..]);
      e := Then(l, c[j - 1].conn, i);
      PlainSplit(c, j);
    }
  }

  lemma PlainSplit(c: seq<Cond>, j: nat)
    requires 0 < j < |c|
    ensures WithConn(Plain(c[..j]), c[j - 1].conn) + Plain(c[j..]) == Plain(c)
  {
    var l, r := WithConn(Plain(c[..j]), c[j - 1].conn), Plain(c[j..]);
    forall k | 0 <= k < |c|
      ensures (l + r)[k] == Plain(c)[k]
    {
      if k >= j {
        assert c[j..][k - j] == c[k];
      }
    }
  }

  lemma {:induction false} PlainRuns(c: seq<Cond>, s: State, env: Env)
    ensures Run(Plain(c), s, env).value == Run(c, s, env).value
  {
    if |c| == 1 {
      assert Plain(c)[1..] == [] && c[1..] == [];
      assert Bare(Plain(c)[0], s.frames, env) == Bare(c[0], s.frames, env);
    } else if |c| > 1 {
      assert Plain(c)[1..] == Plain(c[1..]);
      assert Step(Plain(c)[0], s.frames, env) == Step(c[0], s.frames, env);
      PlainRuns(c[1..], Step(c[0], s.frames, env), env);
    }
  }

  /** The machine's meaning of any well-nested chain is the value of a tree that prints as it. */
  lemma ChainMeansTree(c: seq<Cond>, env: Env) returns (e: Expr)
    requires c != [] && WellNested(c)
    ensures FlatExpr(e) == Plain(c)
    ensures Meaning(c, env) == EvalExpr(e, env)
  {
    e := Parse(c);
    FlatExprRuns(e, env);
    PlainRuns(c, START, env);
  }
}
