/** The condition optimizer of alsa/utils/mod-deps.c (`optimize_dep`), as a
    function on chains: five removal rules, applied at the first atom they fit,
    restarting from the front after each removal. */
module CondOptimize {
  import opened CondChain

  /** The names flagged '%' and '!' in the source's tables. */
  const TRUE_NAMES: set<string> := {"SOUND", "SND", "BITREVERSE", "GCD", "HAS_IOMEM"}
  const FALSE_NAMES: set<string> := {"M68K"}

  /** The mark of an atom: without a dep of that name there is none. */
  function MarkFor(name: string, found: bool): Mark {
    if found && name in TRUE_NAMES then AlwaysTrue
    else if found && name in FALSE_NAMES then AlwaysFalse
    else Unmarked
  }

  /** The atom the optimizer takes to be satisfied. */
  predicate TakenAsTrue(a: Cond) {
    a.mark == AlwaysTrue || (a.mark == AlwaysFalse && a.negated)
  }

  /** An environment that agrees with the mark of an atom... */
  predicate SaneAt(a: Cond, env: Env) {
    (a.mark == AlwaysTrue ==> env(a.name)) && (a.mark == AlwaysFalse ==> !env(a.name))
  }

  /** ...and of every atom of a chain. */
  predicate Sane(c: seq<Cond>, env: Env) {
    forall i | 0 <= i < |c| :: SaneAt(c[i], env)
  }

  /** With marks from the tables, it is enough that the environment agrees with the tables. */
  lemma TablesAreSane(c: seq<Cond>, env: Env)
    requires forall i | 0 <= i < |c| :: c[i].mark == MarkFor(c[i].name, true) || c[i].mark == MarkFor(c[i].name, false)
    requires (forall n <- TRUE_NAMES :: env(n)) && (forall n <- FALSE_NAMES :: !env(n))
    ensures Sane(c, env)
  {
  }

  /** Cancels matching brackets around a single atom. */
  function Normalize(a: Cond): Cond {
    if a.left > a.right then a.(left := a.left - a.right, right := 0)
    else a.(left := 0, right := a.right - a.left)
  }

  datatype Rule = NoRule | DupTerm | DupGroup | TrueTerm | TrueClose | TrueOpen | Fatal

  /** The rule that fits the atom at `i`, whose brackets are already cancelled.
      `Fatal` is the source's "optimize error (2)" exit. */
  function Which(c: seq<Cond>, i: nat): Rule
    requires i < |c|
  {
    var a := c[i];
    if i + 1 < |c| && a.name == c[i + 1].name && a.left == a.right
       && c[i + 1].left == c[i + 1].right && a.left == c[i + 1].right then DupTerm
    else if i + 1 < |c| && a.name == c[i + 1].name && a.left == a.right + 1
            && c[i + 1].left + 1 == c[i + 1].right && a.left == c[i + 1].right then DupGroup
    else if !TakenAsTrue(a) then NoRule
    else if a.left == a.right && (i + 1 == |c| || a.conn == And) && (i == 0 || c[i - 1].conn == And) then TrueTerm
    else if a.left + 1 == a.right && i > 0 && c[i - 1].conn == And then TrueClose
    else if a.left == a.right + 1 && a.conn == And then (if i + 1 == |c| then Fatal else TrueOpen)
    else NoRule
  }

  /** The bracket a rule moves from the removed atom to its neighbour. */
  function Adjust(c: seq<Cond>, i: nat, r: Rule): (c': seq<Cond>)
    requires i < |c| && r == Which(c, i)
    ensures |c'| == |c|
  {
    match r
    case DupGroup => c[i + 1 := c[i + 1].(right := c[i + 1].right - 1)]
    case TrueClose => c[i - 1 := c[i - 1].(right := c[i - 1].right + 1)]
    case TrueOpen => c[i + 1 := c[i + 1].(left := c[i + 1].left + 1)]
    case _ => c
  }

  function Remove(c: seq<Cond>, i: nat, r: Rule): (c': seq<Cond>)
    requires i < |c| && r == Which(c, i)
    ensures |c'| == |c| - 1
  {
    var adjusted := Adjust(c, i, r);
    adjusted[..i] + adjusted[i + 1..]
  }

  datatype Result = Done(chain: seq<Cond>) | Exit

  /** The scan from position `i`, with all later restarts. */
  function Optimize(c: seq<Cond>, i: nat): Result
    requires i <= |c|
    decreases |c|, |c| - i
  {
    if i == |c| then Done(c)
    else
      var c1 := Normalized(c, i);
      match Which(c1, i)
      case NoRule => Optimize(c1, i + 1)
      case Fatal => Exit
      case r => Optimize(Remove(c1, i, r), 0)
  }

  function Normalized(c: seq<Cond>, i: nat): (c': seq<Cond>)
    requires i < |c|
    ensures |c'| == |c|
  {
    c[i := Normalize(c[i])]
  }

  /** One turn of the scan leaves the outcome as it was. */
  lemma OptimizeStep(c: seq<Cond>, i: nat, c': seq<Cond>, i': nat)
    requires i < |c|
    requires var r := Which(Normalized(c, i), i);
             if r == NoRule then c' == Normalized(c, i) && i' == i + 1
             else r != Fatal ==> c' == Remove(Normalized(c, i), i, r) && i' == 0
    ensures if Which(Normalized(c, i), i) == Fatal then Optimize(c, i) == Exit
            else i' <= |c'| && Optimize(c', i') == Optimize(c, i)
  {
  }

  // ----- Cancelling brackets around one atom -----

  lemma {:induction false} CancelPairs(l: nat, r: nat, k: nat, fs: Frames, v: bool)
    ensures Close(r + k, State(Open(l + k, fs), Apply(Open(l + k, fs).p, v)))
         == Close(r, State(Open(l, fs), Apply(Open(l, fs).p, v)))
  {
    if k > 0 {
      OpenInside(l + k - 1, fs);
      CancelPairs(l, r, k - 1, fs, v);
    }
  }

  lemma NormalizeStep(a: Cond, fs: Frames, env: Env)
    ensures Step(Normalize(a), fs, env) == Step(a, fs, env)
  {
    if a.left > a.right {
      CancelPairs(a.left - a.right, 0, a.right, fs, Literal(a, env));
    } else {
      CancelPairs(0, a.right - a.left, a.left, fs, Literal(a, env));
    }
  }

  lemma SaneStep(c: seq<Cond>, i: nat, env: Env)
    requires i < |c| && Sane(c, env)
    ensures Sane(Normalized(c, i), env)
    ensures Fires(c, i) ==> Sane(Remove(c, i, Which(c, i)), env)
  {
    if Fires(c, i) {
      var d := Adjust(c, i, Which(c, i));
      var r := Remove(c, i, Which(c, i));
      assert forall j | 0 <= j < |d| :: SaneAt(d[j], env);
      forall j | 0 <= j < |r|
        ensures SaneAt(r[j], env)
      {
        assert r[j] == d[if j < i then j else j + 1];
      }
    }
  }

  lemma NormalizeAt(c: seq<Cond>, i: nat, env: Env)
    requires i < |c|
    ensures Meaning(Normalized(c, i), env) == Meaning(c, env)
    ensures WellNested(c) ==> WellNested(Normalized(c, i))
  {
    var pre, post := c[..i], c[i + 1..];
    var a, n := c[i], Normalize(c[i]);
    assert c == pre + ([a] + post) && c[i := n] == pre + ([n] + post);
    RunAppend(pre, [a] + post, START, env);
    RunAppend(pre, [n] + post, START, env);
    var s := Run(pre, START, env);
    NormalizeStep(a, s.frames, env);
    assert ([a] + post)[1..] == post && ([n] + post)[1..] == post;
    if WellNested(c) {
      var m := NestsSplit(pre, [a] + post, 0, 0);
      assert Nests([n] + post, m, 0);
      NestsAppend(pre, [n] + post, 0, m, 0);
    }
  }

  // ----- Each rule rewrites a window of one or two atoms -----

  predicate Fires(c: seq<Cond>, i: nat)
    requires i < |c|
  {
    !Which(c, i).NoRule? && !Which(c, i).Fatal?
  }

  function WindowStart(c: seq<Cond>, i: nat): nat
    requires i < |c|
  {
    if Which(c, i) == TrueClose then i - 1 else i
  }

  function OldWindow(c: seq<Cond>, i: nat): seq<Cond>
    requires i < |c| && Fires(c, i)
  {
    match Which(c, i)
    case DupTerm => [c[i], c[i + 1]]
    case DupGroup => [c[i], c[i + 1]]
    case TrueTerm => [c[i]]
    case TrueClose => [c[i - 1], c[i]]
    case TrueOpen => [c[i], c[i + 1]]
  }

  function NewWindow(c: seq<Cond>, i: nat): seq<Cond>
    requires i < |c| && Fires(c, i)
  {
    match Which(c, i)
    case DupTerm => [c[i + 1]]
    case DupGroup => [c[i + 1].(right := c[i + 1].right - 1)]
    case TrueTerm => []
    case TrueClose => [c[i - 1].(right := c[i - 1].right + 1)]
    case TrueOpen => [c[i + 1].(left := c[i + 1].left + 1)]
  }

  /** The two descriptions of a removal agree. */
  lemma Rewrites(c: seq<Cond>, i: nat) returns (pre: seq<Cond>, post: seq<Cond>)
    requires i < |c| && Fires(c, i)
    ensures pre == c[..WindowStart(c, i)] && post == c[WindowStart(c, i) + |OldWindow(c, i)|..]
    ensures c == pre + (OldWindow(c, i) + post)
    ensures Remove(c, i, Which(c, i)) == pre + (NewWindow(c, i) + post)
  {
    pre, post := c[..WindowStart(c, i)], c[WindowStart(c, i) + |OldWindow(c, i)|..];
    if Which(c, i) == TrueTerm {
      RewritesTerm(c, i);
    } else if Which(c, i) == TrueClose {
      RewritesClose(c, i);
    } else {
      RewritesAhead(c, i);
    }
  }

  lemma RewritesTerm(c: seq<Cond>, i: nat)
    requires i < |c| && Which(c, i) == TrueTerm
    ensures WindowStart(c, i) == i && |OldWindow(c, i)| == 1
    ensures c == c[..i] + (OldWindow(c, i) + c[i + 1..])
    ensures Remove(c, i, TrueTerm) == c[..i] + (NewWindow(c, i) + c[i + 1..])
  {
    DropOne(c, i);
    assert OldWindow(c, i) == [c[i]] && NewWindow(c, i) == [];
  }

  lemma RewritesClose(c: seq<Cond>, i: nat)
    requires i < |c| && Which(c, i) == TrueClose
    ensures WindowStart(c, i) == i - 1 && |OldWindow(c, i)| == 2
    ensures c == c[..i - 1] + (OldWindow(c, i) + c[i + 1..])
    ensures Remove(c, i, TrueClose) == c[..i - 1] + (NewWindow(c, i) + c[i + 1..])
  {
    DropAfter(c, i, c[i - 1].(right := c[i - 1].right + 1));
  }

  lemma RewritesAhead(c: seq<Cond>, i: nat)
    requires i < |c| && Which(c, i) in {DupTerm, DupGroup, TrueOpen}
    ensures WindowStart(c, i) == i && |OldWindow(c, i)| == 2
    ensures c == c[..i] + (OldWindow(c, i) + c[i + 2..])
    ensures Remove(c, i, Which(c, i)) == c[..i] + (NewWindow(c, i) + c[i + 2..])
  {
    var b := NewWindow(c, i)[0];
    assert OldWindow(c, i) == [c[i], c[i + 1]] && NewWindow(c, i) == [b];
    DropAt(c, i, b);
  }

  lemma DropOne(c: seq<Cond>, i: nat)
    requires i < |c|
    ensures c == c[..i] + ([c[i]] + c[i + 1..])
    ensures c[..i] + ([] + c[i + 1..]) == c[..i] + c[i + 1..]
  {
    assert c[i..] == [c[i]] + c[i + 1..];
    assert [] + c[i + 1..] == c[i + 1..];
  }

  lemma DropAt(c: seq<Cond>, i: nat, b: Cond)
    requires i + 1 < |c|
    ensures var d := c[i + 1 := b]; d[..i] + d[i + 1..] == c[..i] + ([b] + c[i + 2..])
    ensures c == c[..i] + ([c[i], c[i + 1]] + c[i + 2..])
    ensures b == c[i + 1] ==> c[..i] + c[i + 1..] == c[..i] + ([b] + c[i + 2..])
  {
    var d := c[i + 1 := b];
    assert d[i + 1..] == [b] + c[i + 2..];
    assert d[..i] == c[..i];
    assert c[i..] == [c[i], c[i + 1]] + c[i + 2..];
  }

  lemma DropAfter(c: seq<Cond>, i: nat, p: Cond)
    requires 0 < i < |c|
    ensures var d := c[i - 1 := p]; d[..i] + d[i + 1..] == c[..i - 1] + ([p] + c[i + 1..])
    ensures c == c[..i - 1] + ([c[i - 1], c[i]] + c[i + 1..])
  {
    var d := c[i - 1 := p];
    assert d[i + 1..] == c[i + 1..];
    assert d[..i] == c[..i - 1] + [p];
    assert c[i - 1..] == [c[i - 1], c[i]] + c[i + 1..];
  }

  // ----- Nesting survives every rule -----

  lemma Nests1(a: Cond, d: nat, e: nat)
    ensures Nests([a], d, e) <==> a.right <= d + a.left && d + a.left - a.right == e
  {
    assert [a][1..] == [];
  }

  lemma Nests2(a: Cond, b: Cond, d: nat, e: nat)
    ensures Nests([a, b], d, e) <==>
            && a.right <= d + a.left && b.right <= d + a.left - a.right + b.left
            && d + a.left - a.right + b.left - b.right == e
  {
    assert [a, b][1..] == [b];
    if a.right <= d + a.left {
      Nests1(b, d + a.left - a.right, e);
    }
  }

  lemma WindowNests(c: seq<Cond>, i: nat, d: nat, e: nat)
    requires i < |c| && Fires(c, i) && c[i] == Normalize(c[i])
    requires Nests(OldWindow(c, i), d, e)
    ensures Nests(NewWindow(c, i), d, e)
  {
    var w, w' := OldWindow(c, i), NewWindow(c, i);
    if |w| == 1 { Nests1(w[0], d, e); } else { Nests2(w[0], w[1], d, e); }
    if w' != [] { Nests1(w'[0], d, e); }
  }

  lemma NoFatal(c: seq<Cond>, i: nat)
    requires WellNested(c) && i < |c|
    requires c[i] == Normalize(c[i])
    ensures !Which(c, i).Fatal?
  {
    if i + 1 == |c| {
      assert c == c[..i] + [c[i]];
      var m := NestsSplit(c[..i], [c[i]], 0, 0);
      Nests1(c[i], m, 0);
    }
  }

  lemma RemoveNests(c: seq<Cond>, i: nat)
    requires WellNested(c) && i < |c| && c[i] == Normalize(c[i]) && !Which(c, i).NoRule?
    ensures !Which(c, i).Fatal? && WellNested(Remove(c, i, Which(c, i)))
  {
    NoFatal(c, i);
    var pre, post := Rewrites(c, i);
    var m := NestsSplit(pre, OldWindow(c, i) + post, 0, 0);
    var m' := NestsSplit(OldWindow(c, i), post, m, 0);
    WindowNests(c, i, m, m');
    NestsAppend(NewWindow(c, i), post, m, m', 0);
    NestsAppend(pre, NewWindow(c, i) + post, 0, m, 0);
  }

  /** With no side condition: the optimizer ends, never takes its error exit on
      a well-nested chain, and leaves it well nested and no longer. */
  lemma {:induction false} OptimizeNests(c: seq<Cond>, i: nat)
    requires WellNested(c) && i <= |c|
    ensures Optimize(c, i).Done? && WellNested(Optimize(c, i).chain) && |Optimize(c, i).chain| <= |c|
    decreases |c|, |c| - i
  {
    if i < |c| {
      var c1 := Normalized(c, i);
      NormalizeAt(c, i, _ => true);
      if Which(c1, i) == NoRule {
        OptimizeNests(c1, i + 1);
      } else {
        RemoveNests(c1, i);
        OptimizeNests(Remove(c1, i, Which(c1, i)), 0);
      }
    }
  }

  // ----- Meaning: when a removal is harmless -----

  /** The marks leave open that the literal has the value `v`. */
  predicate MayBe(a: Cond, v: bool) {
    a.mark == Unmarked || ((a.mark == AlwaysTrue) != a.negated) == v
  }

  lemma MayBeLiteral(a: Cond, env: Env)
    requires SaneAt(a, env)
    ensures MayBe(a, Literal(a, env))
  {
  }

  /** The literal of an atom taken as true really is true unless an always-true name is negated. */
  predicate TrulyTrue(a: Cond) {
    !(a.mark == AlwaysTrue && a.negated)
  }

  /** Of two atoms with one name the second alone does: their values are equal, or the first has
      the one that leaves the decision to the second. */
  predicate SecondDoes(a: Cond, b: Cond) {
    a.negated == b.negated || !MayBe(a, a.conn == Or)
  }

  /** The guard of each rule: with it the meaning is kept. */
  predicate Safe(c: seq<Cond>, i: nat)
    requires i < |c|
  {
    match Which(c, i)
    case DupTerm =>
      && SecondDoes(c[i], c[i + 1])
      && (i == 0 || c[i - 1].conn == c[i].conn || !MayBe(c[i + 1], c[i - 1].conn == And))
    case DupGroup => SecondDoes(c[i], c[i + 1])
    case TrueTerm => TrulyTrue(c[i])
    case TrueOpen => TrulyTrue(c[i]) || (c[i + 1].left <= c[i + 1].right && !MayBe(c[i + 1], true))
    case TrueClose =>
      if TrulyTrue(c[i]) then i + 1 == |c| || c[i].conn == And
      else if i + 1 == |c| || c[i].conn == And then StaysFalse(c, i - 1)
      else StaysTrueInside(c, i - 1)
    case _ => true
  }

  /** The value behind the atom at `j` is false for certain: the atom's own is, and what may be
      pending in front of it cannot be true. */
  predicate StaysFalse(c: seq<Cond>, j: nat)
    requires j < |c|
  {
    && !MayBe(c[j], true)
    && (c[j].right < c[j].left || (c[j].right == c[j].left && (j == 0 || c[j - 1].conn == And)))
  }

  /** The value behind the atom at `j` is true for certain, inside a bracket of its own below
      which nothing can be pending. */
  predicate StaysTrueInside(c: seq<Cond>, j: nat)
    requires j < |c|
  {
    && !MayBe(c[j], false)
    && (c[j].right + 1 < c[j].left || (c[j].right + 1 == c[j].left && j == 0))
  }

  /** The states in which an atom can be reached: at the very front, or behind connector `k`. */
  ghost predicate Follows(prev: seq<Cond>, s: State) {
    if prev == [] then s.frames.p == Take && s.value
    else s.frames.p == Link(prev[|prev| - 1].conn, s.value)
  }

  lemma PrefixFollows(pre: seq<Cond>, env: Env)
    ensures Follows(pre, Run(pre, START, env))
  {
    if pre != [] {
      LastLink(pre, START, env);
    }
  }

  lemma Run1(a: Cond, s: State, env: Env)
    ensures Run([a], s, env) == Step(a, s.frames, env)
  {
    assert [a][1..] == [];
  }

  lemma Run2(a: Cond, b: Cond, s: State, env: Env)
    ensures Run([a, b], s, env) == Step(b, Step(a, s.frames, env).frames, env)
  {
    assert [a, b][1..] == [b];
    Run1(b, Step(a, s.frames, env), env);
  }

  lemma DupTermRun(pre: seq<Cond>, a: Cond, b: Cond, s: State, env: Env)
    requires Follows(pre, s) && a.left == a.right == 0 && b.left == b.right == 0
    requires Literal(a, env) == Literal(b, env) || Literal(a, env) == (a.conn == And)
    requires pre == [] || pre[|pre| - 1].conn == a.conn || Literal(b, env) == (pre[|pre| - 1].conn == Or)
    ensures Run([a, b], s, env) == Run([b], s, env)
  {
    Run2(a, b, s, env);
    Run1(b, s, env);
  }

  lemma DupGroupRun(a: Cond, b: Cond, s: State, env: Env)
    requires a.left == 1 && a.right == 0 && b.left == 0 && b.right == 1
    requires Literal(a, env) == Literal(b, env) || Literal(a, env) == (a.conn == And)
    ensures Run([a, b], s, env) == Run([b.(right := 0)], s, env)
  {
    Run2(a, b, s, env);
    Run1(b.(right := 0), s, env);
    Open1(s.frames);
    var x := Literal(a, env);
    assert Step(a, s.frames, env) == State(Frame(Link(a.conn, x), s.frames), x);
    Close1(State(Frame(Link(a.conn, x), s.frames), Apply(Link(a.conn, x), Literal(b, env))));
  }

  lemma Open1(fs: Frames)
    ensures Open(1, fs) == Frame(Take, fs)
  {
  }

  lemma Close1(s: State)
    requires s.frames.Frame?
    ensures Close(1, s) == State(s.frames.below, Apply(s.frames.below.p, s.value))
  {
    var t := State(s.frames.below, Apply(s.frames.below.p, s.value));
    assert Close(0, t) == t;
  }

  lemma TrueTermRun(pre: seq<Cond>, a: Cond, s: State, env: Env)
    requires Follows(pre, s) && a.left == a.right == 0 && Literal(a, env)
    requires pre == [] || pre[|pre| - 1].conn == And
    ensures Run([a], s, env).value == s.value
    ensures a.conn == And ==> Run([a], s, env) == s
  {
    Run1(a, s, env);
  }

  lemma TrueOpenRun(a: Cond, b: Cond, s: State, env: Env)
    requires a.left == 1 && a.right == 0 && a.conn == And && Literal(a, env)
    ensures Run([a, b], s, env) == Run([b.(left := b.left + 1)], s, env)
  {
    Run2(a, b, s, env);
    Run1(b.(left := b.left + 1), s, env);
    Open1(s.frames);
    assert Step(a, s.frames, env).frames == Frame(Take, s.frames);
  }

  /** A false term that opens a bracket decides it; a false second term that stays on that level
      or leaves it comes to the same. */
  lemma FalseOpenRun(a: Cond, b: Cond, s: State, env: Env)
    requires a.left == 1 && a.right == 0 && a.conn == And && !Literal(a, env)
    requires b.left <= b.right && !Literal(b, env)
    ensures Run([a, b], s, env) == Run([b.(left := b.left + 1)], s, env)
  {
    var low, high := Frame(Decided(false), s.frames), Frame(Take, s.frames);
    Run2(a, b, s, env);
    Run1(b.(left := b.left + 1), s, env);
    Open1(s.frames);
    assert Step(a, s.frames, env).frames == low;
    assert Bare(b.(left := b.left + 1), s.frames, env) == Bare(b, high, env);
    NormalizeStep(b, low, env);
    NormalizeStep(b, high, env);
    FalseOnBoth(Normalize(b), s.frames, env);
  }

  lemma FalseOnBoth(n: Cond, fs: Frames, env: Env)
    requires n.left == 0 && !Literal(n, env)
    ensures Step(n, Frame(Decided(false), fs), env) == Step(n, Frame(Take, fs), env)
  {
  }

  /** What a closing term does behind its predecessor, and what the predecessor does with its
      bracket, both from the step of the predecessor. */
  lemma CloseRun(p: Cond, a: Cond, s: State, env: Env)
    requires p.conn == And && a.left == 0 && a.right == 1
    requires Bare(p, s.frames, env).frames.Frame?
    ensures var u := Step(p, s.frames, env);
            && u.frames.Frame?
            && Run([p, a], s, env) == Behind(a.conn, u.frames.below, u.value && Literal(a, env))
            && Run([p.(right := p.right + 1)], s, env) == Behind(And, u.frames.below, u.value)
  {
    var p' := p.(right := p.right + 1);
    Run2(p, a, s, env);
    Run1(p', s, env);
    var inner := Open(p.left, s.frames);
    CloseOneMore(p.right, State(inner, Apply(inner.p, Literal(p, env))));
    assert Literal(p', env) == Literal(p, env);
    var q := Bare(p, s.frames, env);
    Close1(q);
    assert Bare(p', s.frames, env) == Close(1, q);
    assert Step(p, s.frames, env) == State(Frame(Link(And, q.value), q.frames.below), q.value);
    Close1(State(Frame(Link(And, q.value), q.frames.below), q.value && Literal(a, env)));
  }

  /** A value handed to the level `fs`, with the connector that follows. */
  function Behind(k: Connector, fs: Frames, v: bool): State {
    Connect(k, State(fs, Apply(fs.p, v)))
  }

  /** With a value that is false for certain in front, the closing term makes no difference. */
  lemma FalseInFront(c: seq<Cond>, j: nat, s: State, env: Env)
    requires j < |c| && Follows(c[..j], s) && SaneAt(c[j], env) && StaysFalse(c, j)
    ensures !Step(c[j], s.frames, env).value
  {
    MayBeLiteral(c[j], env);
    NormalizeStep(c[j], s.frames, env);
    if c[j].right < c[j].left {
      OpenInside(Normalize(c[j]).left - 1, s.frames);
    }
  }

  /** Nor does it with a true one and nothing pending below. */
  lemma TrueInside(c: seq<Cond>, j: nat, s: State, env: Env)
    requires j < |c| && Follows(c[..j], s) && SaneAt(c[j], env) && StaysTrueInside(c, j)
    ensures var u := Step(c[j], s.frames, env); u.value && u.frames.Frame? && u.frames.below.p == Take
  {
    MayBeLiteral(c[j], env);
    NormalizeStep(c[j], s.frames, env);
    var n := Normalize(c[j]);
    OpenInside(n.left - 1, s.frames);
    if n.left > 1 {
      OpenInside(n.left - 2, s.frames);
    }
  }

  /** Replacing a window that runs the same from where it stands. */
  lemma Window(pre: seq<Cond>, w: seq<Cond>, w': seq<Cond>, post: seq<Cond>, env: Env)
    requires var s := Run(pre, START, env);
             if post == [] then Run(w, s, env).value == Run(w', s, env).value
             else Run(w, s, env).frames == Run(w', s, env).frames
    ensures Meaning(pre + (w + post), env) == Meaning(pre + (w' + post), env)
  {
    var s := Run(pre, START, env);
    RunAppend(pre, w + post, START, env);
    RunAppend(pre, w' + post, START, env);
    RunAppend(w, post, s, env);
    RunAppend(w', post, s, env);
    if post != [] {
      SameFrames(post, Run(w, s, env), Run(w', s, env), env);
    }
  }

  /** What follows looks at the frames alone. */
  lemma SameFrames(c: seq<Cond>, s: State, t: State, env: Env)
    requires c != [] && s.frames == t.frames
    ensures Run(c, s, env) == Run(c, t, env)
  {
  }

  /** Every bracket `c` closes is open when it is entered at depth `d`. */
  predicate Stays(c: seq<Cond>, d: nat) {
    c == [] || (c[0].right <= d + c[0].left && Stays(c[1..], d + c[0].left - c[0].right))
  }

  /** Behind the connector in front of the window, with the brackets open that it closes. */
  ghost predicate Reaches(c: seq<Cond>, i: nat, s: State)
    requires i < |c| && Fires(c, i)
  {
    Follows(c[..WindowStart(c, i)], s) && Stays(OldWindow(c, i), Height(s.frames))
  }

  predicate EndsChain(c: seq<Cond>, i: nat)
    requires i < |c| && Fires(c, i)
  {
    WindowStart(c, i) + |OldWindow(c, i)| == |c|
  }

  /** Old and new window agree: on the value where the chain ends, and else on the frames. */
  ghost predicate Agrees(c: seq<Cond>, i: nat, s: State, env: Env)
    requires i < |c| && Fires(c, i)
  {
    var r, r' := Run(OldWindow(c, i), s, env), Run(NewWindow(c, i), s, env);
    if EndsChain(c, i) then r.value == r'.value else r.frames == r'.frames
  }

  /** The window of a removal that meets its guard runs the same from wherever it can stand. */
  lemma WindowRuns(c: seq<Cond>, i: nat, s: State, env: Env)
    requires i < |c| && c[i] == Normalize(c[i]) && Fires(c, i) && Safe(c, i) && Sane(OldWindow(c, i), env)
    requires Reaches(c, i, s)
    ensures Agrees(c, i, s, env)
  {
    var j := WindowStart(c, i);
    assert SaneAt(c[i], env) by { assert c[i] == OldWindow(c, i)[i - j]; }
    MayBeLiteral(c[i], env);
    if Which(c, i) == TrueTerm {
      TrueTermRun(c[..i], c[i], s, env);
    } else if Which(c, i) == TrueClose {
      CloseWindowRuns(c, i, s, env);
    } else {
      assert SaneAt(c[i + 1], env) by { assert c[i + 1] == OldWindow(c, i)[1]; }
      MayBeLiteral(c[i + 1], env);
      AheadWindowRuns(c, i, s, env);
    }
  }

  lemma AheadWindowRuns(c: seq<Cond>, i: nat, s: State, env: Env)
    requires i < |c| && c[i] == Normalize(c[i]) && Which(c, i) in {DupTerm, DupGroup, TrueOpen} && Safe(c, i)
    requires SaneAt(c[i], env) && MayBe(c[i], Literal(c[i], env)) && MayBe(c[i + 1], Literal(c[i + 1], env))
    requires Reaches(c, i, s)
    ensures Agrees(c, i, s, env)
  {
    if Which(c, i) == DupTerm {
      DupTermRun(c[..i], c[i], c[i + 1], s, env);
    } else if Which(c, i) == DupGroup {
      DupGroupRun(c[i], c[i + 1], s, env);
    } else if TrulyTrue(c[i]) {
      TrueOpenRun(c[i], c[i + 1], s, env);
    } else {
      FalseOpenRun(c[i], c[i + 1], s, env);
    }
  }

  lemma CloseWindowRuns(c: seq<Cond>, i: nat, s: State, env: Env)
    requires i < |c| && c[i] == Normalize(c[i]) && Which(c, i) == TrueClose && Safe(c, i) && Sane(OldWindow(c, i), env)
    requires Reaches(c, i, s)
    ensures Agrees(c, i, s, env)
  {
    var p, a := c[i - 1], c[i];
    assert OldWindow(c, i) == [p, a] && NewWindow(c, i) == [p.(right := p.right + 1)];
    assert SaneAt(p, env) && SaneAt(a, env) by { assert [p, a][0] == p && [p, a][1] == a; }
    assert [p, a][1..] == [a];
    BareHeight(p, s.frames, env);
    assert Stays([a], Height(Bare(p, s.frames, env).frames));
    CloseRun(p, a, s, env);
    if !TrulyTrue(a) {
      if EndsChain(c, i) || a.conn == And {
        FalseInFront(c, i - 1, s, env);
      } else {
        TrueInside(c, i - 1, s, env);
      }
    }
  }

  lemma BareHeight(a: Cond, fs: Frames, env: Env)
    requires a.right <= Height(fs) + a.left
    ensures Height(Bare(a, fs, env).frames) == Height(fs) + a.left - a.right
  {
    OpenEmbed(a.left, fs, fs);
    var inner := Open(a.left, fs);
    CloseEmbed(a.right, State(inner, Apply(inner.p, Literal(a, env))), fs);
  }

  lemma {:induction false} NestsStays(c: seq<Cond>, d: nat, e: nat)
    requires Nests(c, d, e)
    ensures Stays(c, d)
  {
    if c != [] {
      NestsStays(c[1..], d + c[0].left - c[0].right, e);
    }
  }

  /** In a well-nested chain the machine does enter the window in such a state. */
  lemma PrefixReaches(c: seq<Cond>, i: nat, env: Env)
    requires WellNested(c) && i < |c| && Fires(c, i)
    ensures Reaches(c, i, Run(c[..WindowStart(c, i)], START, env))
  {
    var pre, post := Rewrites(c, i);
    var m := NestsSplit(pre, OldWindow(c, i) + post, 0, 0);
    var m' := NestsSplit(OldWindow(c, i), post, m, 0);
    NestsStays(OldWindow(c, i), m, m');
    RunEmbed(pre, START, Base(Take), m, env);
    PrefixFollows(pre, env);
  }

  lemma WindowSane(c: seq<Cond>, i: nat, env: Env)
    requires i < |c| && Fires(c, i) && Sane(c, env)
    ensures Sane(OldWindow(c, i), env)
  {
    var w := OldWindow(c, i);
    forall k | 0 <= k < |w|
      ensures SaneAt(w[k], env)
    {
      assert w[k] == c[WindowStart(c, i) + k];
    }
  }

  /** A removal that meets its guard keeps the meaning of the whole chain. */
  lemma RemoveMeans(c: seq<Cond>, i: nat, env: Env)
    requires WellNested(c) && i < |c| && c[i] == Normalize(c[i])
    requires !Which(c, i).NoRule? && Safe(c, i) && Sane(c, env)
    ensures !Which(c, i).Fatal?
    ensures Meaning(Remove(c, i, Which(c, i)), env) == Meaning(c, env)
  {
    NoFatal(c, i);
    var pre, post := Rewrites(c, i);
    PrefixReaches(c, i, env);
    WindowSane(c, i, env);
    WindowRuns(c, i, Run(pre, START, env), env);
    Window(pre, OldWindow(c, i), NewWindow(c, i), post, env);
  }

  // ----- Meaning over a whole run -----

  /** Every removal of the run, restarts included, meets its guard. */
  predicate SafeRun(c: seq<Cond>, i: nat)
    requires i <= |c|
    decreases |c|, |c| - i
  {
    i == |c| ||
    var c1 := Normalized(c, i);
    match Which(c1, i)
    case NoRule => SafeRun(c1, i + 1)
    case Fatal => true
    case r => Safe(c1, i) && SafeRun(Remove(c1, i, r), 0)
  }

  lemma {:induction false} OptimizeMeans(c: seq<Cond>, i: nat, env: Env)
    requires WellNested(c) && i <= |c| && SafeRun(c, i) && Sane(c, env)
    ensures Optimize(c, i).Done? && Meaning(Optimize(c, i).chain, env) == Meaning(c, env)
    decreases |c|, |c| - i
  {
    OptimizeNests(c, i);
    if i < |c| {
      var c1 := Normalized(c, i);
      NormalizeAt(c, i, env);
      SaneStep(c, i, env);
      if Which(c1, i) == NoRule {
        OptimizeMeans(c1, i + 1, env);
      } else {
        RemoveMeans(c1, i, env);
        RemoveNests(c1, i);
        SaneStep(c1, i, env);
        OptimizeMeans(Remove(c1, i, Which(c1, i)), 0, env);
      }
    }
  }
}
