/** The guards of `CondOptimize` are exact: a removal outside its guard changes the
    meaning of some chain that looks the same where the optimizer looks. */
module CondGuard {
  import opened CondChain
  import opened CondOptimize

  // ----- Chains that look the same around a removal -----

  /** The connector in front of position `n`, if there is one. */
  function ConnectorBefore(c: seq<Cond>, n: nat): seq<Connector>
    requires n <= |c|
  {
    if n == 0 then [] else [c[n - 1].conn]
  }

  /** At `i'` of `c'` the same rule fits the same atoms as at `i` of `c`, behind the same
      connector or at the front, and at the end of the chain or not. */
  predicate Alike(c: seq<Cond>, i: nat, c': seq<Cond>, i': nat)
    requires i < |c| && Fires(c, i)
  {
    && i' < |c'| && Which(c', i') == Which(c, i) && OldWindow(c', i') == OldWindow(c, i)
    && ConnectorBefore(c', WindowStart(c', i')) == ConnectorBefore(c, WindowStart(c, i))
    && (EndsChain(c', i') <==> EndsChain(c, i))
  }

  /** Dropping the atom at `i` changes nothing in this environment. */
  ghost predicate Kept(c: seq<Cond>, i: nat, env: Env)
    requires i < |c| && Fires(c, i)
  {
    Meaning(Remove(c, i, Which(c, i)), env) == Meaning(c, env)
  }

  ghost predicate KeptWhereAlike(c: seq<Cond>, i: nat)
    requires i < |c| && Fires(c, i)
  {
    forall c', i', env: Env | Alike(c, i, c', i') && WellNested(c') && Sane(c', env) :: Kept(c', i', env)
  }

  /** Atoms with one name have one mark, as the name tables give it. */
  predicate OneMark(w: seq<Cond>) {
    forall i, j | 0 <= i < |w| && 0 <= j < |w| && w[i].name == w[j].name :: w[i].mark == w[j].mark
  }

  lemma AlikeSafe(c: seq<Cond>, i: nat, c': seq<Cond>, i': nat)
    requires i < |c| && Fires(c, i) && Alike(c, i, c', i')
    ensures Safe(c', i') == Safe(c, i)
    ensures c'[i'] == c[i]
  {
    var n, n' := WindowStart(c, i), WindowStart(c', i');
    assert c'[i'] == OldWindow(c', i')[i' - n'] && c[i] == OldWindow(c, i)[i - n];
    assert n > 0 ==> [c[n - 1].conn][0] == [c'[n' - 1].conn][0];
    if Which(c, i).DupTerm? || Which(c, i).DupGroup? || Which(c, i).TrueOpen? {
      assert c'[i' + 1] == OldWindow(c', i')[1] && c[i + 1] == OldWindow(c, i)[1];
    } else if Which(c, i).TrueClose? {
      assert c'[i' - 1] == OldWindow(c', i')[0] && c[i - 1] == OldWindow(c, i)[0];
    }
  }

  // ----- Putting the window between other atoms -----

  /** `pre` and `post` can stand around the window in a chain that looks the same. */
  predicate Surrounds(c: seq<Cond>, i: nat, pre: seq<Cond>, post: seq<Cond>)
    requires i < |c| && Fires(c, i)
  {
    var w := OldWindow(c, i);
    && ConnectorBefore(pre, |pre|) == ConnectorBefore(c, WindowStart(c, i))
    && (post == [] <==> EndsChain(c, i)) && (post != [] ==> post[0].name != w[|w| - 1].name)
  }

  function Place(c: seq<Cond>, i: nat, pre: seq<Cond>): nat
    requires i < |c| && Fires(c, i)
  {
    |pre| + i - WindowStart(c, i)
  }

  lemma SiteAlike(c: seq<Cond>, i: nat, pre: seq<Cond>, post: seq<Cond>)
    requires i < |c| && Fires(c, i) && Surrounds(c, i, pre, post)
    ensures Alike(c, i, pre + (OldWindow(c, i) + post), Place(c, i, pre))
  {
    var c', i' := pre + (OldWindow(c, i) + post), Place(c, i, pre);
    var n := WindowStart(c, i);
    assert c'[i'] == c[i];
    assert i' + 1 == |c'| <==> i + 1 == |c|;
    assert n > 0 ==> |pre| > 0 && pre[|pre| - 1].conn == c[n - 1].conn by {
      assert n > 0 ==> [c[n - 1].conn][0] == ConnectorBefore(pre, |pre|)[0];
    }
    if Which(c, i) == TrueTerm || Which(c, i) == TrueClose {
      assert i' + 1 < |c'| ==> c'[i' + 1] == post[0];
    } else {
      assert c'[i' + 1] == c[i + 1];
    }
  }

  /** Removing the atom puts the new window in the place of the old one. */
  lemma SiteRemoved(c: seq<Cond>, i: nat, pre: seq<Cond>, post: seq<Cond>)
    requires i < |c| && Fires(c, i) && Surrounds(c, i, pre, post)
    ensures var c', i' := pre + (OldWindow(c, i) + post), Place(c, i, pre);
            Alike(c, i, c', i') && Remove(c', i', Which(c', i')) == pre + (NewWindow(c, i) + post)
  {
    var c', i' := pre + (OldWindow(c, i) + post), Place(c, i, pre);
    SiteAlike(c, i, pre, post);
    AlikeNew(c, i, c', i');
    var pre', post' := Rewrites(c', i');
    assert WindowStart(c', i') == |pre|;
    Parts(pre, OldWindow(c, i), post);
  }

  lemma Parts(c1: seq<Cond>, c2: seq<Cond>, c3: seq<Cond>)
    ensures var c := c1 + (c2 + c3); c[..|c1|] == c1 && c[|c1| + |c2|..] == c3
  {
  }

  lemma AlikeNew(c: seq<Cond>, i: nat, c': seq<Cond>, i': nat)
    requires i < |c| && Fires(c, i) && Alike(c, i, c', i')
    ensures NewWindow(c', i') == NewWindow(c, i)
  {
    var w, w' := OldWindow(c, i), OldWindow(c', i');
    assert w[0] == w'[0] && w[|w| - 1] == w'[|w| - 1];
  }

  // ----- The atoms used around the window -----

  /** Names that no atom of the window has, one for each `k`. */
  function Fresh(w: seq<Cond>, k: nat): (n: string)
    requires w != []
    ensures |n| == |w[0].name| + |w[|w| - 1].name| + k
  {
    w[0].name + w[|w| - 1].name + seq(k, _ => '_')
  }

  function Atom(w: seq<Cond>, k: nat, left: nat, right: nat, conn: Connector): Cond
    requires w != []
  {
    Cond(Fresh(w, k), Unmarked, left, right, false, conn)
  }

  const FRONT := 1
  const BACK := 2
  const DEEP := 3
  const MIDDLE := 4

  /** In front of the window: an atom that opens its `m` brackets. */
  function FrontOne(c: seq<Cond>, i: nat, m: nat): seq<Cond>
    requires i < |c| && Fires(c, i)
  {
    var n := WindowStart(c, i);
    if n == 0 then [] else [Atom(OldWindow(c, i), FRONT, m, 0, c[n - 1].conn)]
  }

  /** Or two: the first one decides the level below the last bracket, to be `d`. */
  function FrontTwo(c: seq<Cond>, i: nat, m: nat, d: bool): seq<Cond>
    requires i < |c| && Fires(c, i) && WindowStart(c, i) > 0 && m > 0
  {
    var w := OldWindow(c, i);
    [Atom(w, DEEP, m - 1, 0, if d then Or else And), Atom(w, FRONT, 1, 0, c[WindowStart(c, i) - 1].conn)]
  }

  /** Behind it: an atom that closes the `e` brackets still open. */
  function BackOne(c: seq<Cond>, i: nat, e: nat): seq<Cond>
    requires i < |c| && Fires(c, i)
  {
    if EndsChain(c, i) then [] else [Atom(OldWindow(c, i), BACK, 0, e, And)]
  }

  /** Or one more before it, joined by `||`. */
  function BackTwo(c: seq<Cond>, i: nat, e: nat): seq<Cond>
    requires i < |c| && Fires(c, i)
  {
    var w := OldWindow(c, i);
    [Atom(w, MIDDLE, 0, 0, Or), Atom(w, BACK, 0, e, And)]
  }

  /** The bracket depths around the window of a well-nested chain. */
  ghost predicate Depths(c: seq<Cond>, i: nat, m: nat, e: nat)
    requires i < |c| && Fires(c, i)
  {
    Nests(OldWindow(c, i), m, e) && (WindowStart(c, i) == 0 ==> m == 0) && (EndsChain(c, i) ==> e == 0)
  }

  lemma FindDepths(c: seq<Cond>, i: nat) returns (m: nat, e: nat)
    requires WellNested(c) && i < |c| && Fires(c, i)
    ensures Depths(c, i, m, e)
  {
    var pre, post := Rewrites(c, i);
    m := NestsSplit(pre, OldWindow(c, i) + post, 0, 0);
    e := NestsSplit(OldWindow(c, i), post, m, 0);
  }

  lemma FrontNests(c: seq<Cond>, i: nat, m: nat)
    requires i < |c| && Fires(c, i)
    ensures (WindowStart(c, i) == 0 ==> m == 0) ==> Nests(FrontOne(c, i, m), 0, m)
    ensures WindowStart(c, i) > 0 && m > 0 ==> forall d :: Nests(FrontTwo(c, i, m, d), 0, m)
  {
    if WindowStart(c, i) > 0 {
      Nests1(FrontOne(c, i, m)[0], 0, m);
      if m > 0 {
        forall d
          ensures Nests(FrontTwo(c, i, m, d), 0, m)
        {
          Nests2(FrontTwo(c, i, m, d)[0], FrontTwo(c, i, m, d)[1], 0, m);
        }
      }
    }
  }

  lemma BackNests(c: seq<Cond>, i: nat, e: nat)
    requires i < |c| && Fires(c, i)
    ensures (EndsChain(c, i) ==> e == 0) ==> Nests(BackOne(c, i, e), e, 0)
    ensures Nests(BackTwo(c, i, e), e, 0)
  {
    if !EndsChain(c, i) {
      Nests1(BackOne(c, i, e)[0], e, 0);
    }
    Nests2(BackTwo(c, i, e)[0], BackTwo(c, i, e)[1], e, 0);
  }

  // ----- Environments -----

  /** The values of open names in the window, and of the atoms around it. */
  datatype Values = Values(open: bool, front: bool, back: bool, deep: bool)

  function Given(w: seq<Cond>, v: Values): (env: Env)
    requires w != []
    ensures env(Fresh(w, FRONT)) == v.front && env(Fresh(w, BACK)) == v.back && env(Fresh(w, DEEP)) == v.deep
    ensures forall n | |n| <= |w[0].name| + |w[|w| - 1].name| :: env(n) == Named(w, v.open, n)
  {
    n => if n == Fresh(w, FRONT) then v.front
         else if n == Fresh(w, BACK) then v.back
         else if n == Fresh(w, DEEP) then v.deep
         else Named(w, v.open, n)
  }

  /** The marks decide first. */
  function Named(w: seq<Cond>, open: bool, n: string): bool
    requires w != []
  {
    var a, b := w[0], w[|w| - 1];
    if n == a.name && a.mark != Unmarked then a.mark == AlwaysTrue
    else if n == b.name && b.mark != Unmarked then b.mark == AlwaysTrue
    else open
  }

  /** The atom has this value where its mark allows it and its name is open else. */
  lemma NamedValue(w: seq<Cond>, k: nat, v: Values, x: bool)
    requires k < |w| <= 2 && OneMark(w) && MayBe(w[k], x) && (w[k].mark == Unmarked ==> v.open == (x != w[k].negated))
    ensures Literal(w[k], Given(w, v)) == x
  {
    assert |w[k].name| <= |w[0].name| + |w[|w| - 1].name|;
  }

  predicate IsOneOf(a: Cond, w: seq<Cond>)
    requires w != []
  {
    a in w || (a.mark == Unmarked && exists k | 1 <= k <= 4 :: a.name == Fresh(w, k))
  }

  lemma GivenSane(w: seq<Cond>, c: seq<Cond>, v: Values)
    requires 1 <= |w| <= 2 && OneMark(w) && forall a <- c :: IsOneOf(a, w)
    ensures Sane(c, Given(w, v))
  {
    forall j | 0 <= j < |c|
      ensures SaneAt(c[j], Given(w, v))
    {
      assert IsOneOf(c[j], w);
      if c[j] in w {
        assert |c[j].name| <= |w[0].name| + |w[|w| - 1].name|;
      }
    }
  }

  // ----- Towers of open brackets -----

  /** `h` open brackets, nothing decided on any level. */
  function Tower(h: nat): (fs: Frames)
    ensures fs.p == Take
  {
    if h == 0 then Base(Take) else Frame(Take, Tower(h - 1))
  }

  /** The same with `p` pending on top. */
  function Topped(h: nat, p: Pending): (fs: Frames)
    ensures fs.p == p && fs.(p := Take) == Tower(h) && (h > 0 ==> fs == Frame(p, Tower(h - 1)))
  {
    Tower(h).(p := p)
  }

  lemma {:induction false} OpenTower(k: nat, h: nat)
    ensures Open(k, Tower(h)) == Tower(k + h)
  {
    if k > 0 {
      assert Frame(Take, Tower(h)) == Tower(h + 1);
      OpenTower(k - 1, h + 1);
    }
  }

  lemma CloseStep(k: nat, fs: Frames, v: bool)
    requires k > 0 && fs.Frame?
    ensures Close(k, State(fs, v)) == Close(k - 1, State(fs.below, Apply(fs.below.p, v)))
  {
  }

  lemma {:induction false} CloseTower(k: nat, h: nat, v: bool)
    requires k <= h
    ensures Close(k, State(Tower(h), v)) == State(Tower(h - k), v)
  {
    if k > 0 {
      CloseStep(k, Tower(h), v);
      assert Tower(h).below == Tower(h - 1);
      CloseTower(k - 1, h - 1, v);
    }
  }

  /** The value passes down whatever is pending on the top level. */
  lemma CloseTopped(k: nat, h: nat, p: Pending, v: bool)
    requires k <= h
    ensures Close(k, State(Topped(h, p), v)) == State(if k == 0 then Topped(h, p) else Tower(h - k), v)
  {
    if k > 0 {
      CloseStep(k, Topped(h, p), v);
      CloseTower(k - 1, h - 1, v);
    }
  }

  lemma BareTower(a: Cond, h: nat, env: Env)
    requires a.right <= h + a.left
    ensures Bare(a, Tower(h), env) == State(Tower(h + a.left - a.right), Literal(a, env))
  {
    OpenTower(a.left, h);
    CloseTower(a.right, h + a.left, Literal(a, env));
  }

  lemma ClosingBare(a: Cond, fs: Frames, env: Env)
    requires a.left == 0
    ensures Bare(a, fs, env) == Close(a.right, State(fs, Apply(fs.p, Literal(a, env))))
  {
  }

  /** What is pending on a level after a value and a connector. */
  function Left(k: Connector, h: nat, v: bool): State {
    State(Topped(h, Link(k, v)), v)
  }

  /** A plain atom takes part in its level and leaves the brackets alone. */
  lemma PlainStep(a: Cond, h: nat, p: Pending, env: Env)
    requires a.left == a.right == 0
    ensures Step(a, Topped(h, p), env) == Left(a.conn, h, Apply(p, Literal(a, env)))
  {
  }

  // ----- Running the atoms around the window -----

  /** What is pending behind the atom in front of the window. */
  function PendingAt(c: seq<Cond>, i: nat, front: bool): Pending
    requires i < |c| && Fires(c, i)
  {
    var n := WindowStart(c, i);
    if n == 0 then Take else Link(c[n - 1].conn, front)
  }

  /** The value in front that leaves the window's first atom undecided. */
  function Neutral(c: seq<Cond>, i: nat): (v: bool)
    requires i < |c| && Fires(c, i)
    ensures PendingAt(c, i, v) == Take
  {
    var n := WindowStart(c, i);
    n > 0 && c[n - 1].conn == And
  }

  lemma FrontOneRuns(c: seq<Cond>, i: nat, m: nat, env: Env)
    requires i < |c| && Fires(c, i) && (WindowStart(c, i) == 0 ==> m == 0)
    ensures Run(FrontOne(c, i, m), START, env).frames
         == Topped(m, PendingAt(c, i, env(Fresh(OldWindow(c, i), FRONT))))
  {
    if WindowStart(c, i) > 0 {
      var a := FrontOne(c, i, m)[0];
      Run1(a, START, env);
      assert START.frames == Tower(0);
      BareTower(a, 0, env);
    }
  }

  lemma FrontTwoRuns(c: seq<Cond>, i: nat, m: nat, d: bool, env: Env)
    requires i < |c| && Fires(c, i) && WindowStart(c, i) > 0 && m > 0 && env(Fresh(OldWindow(c, i), DEEP)) == d
    ensures Run(FrontTwo(c, i, m, d), START, env).frames
         == Frame(PendingAt(c, i, env(Fresh(OldWindow(c, i), FRONT))), Topped(m - 1, Decided(d)))
  {
    var a, b := FrontTwo(c, i, m, d)[0], FrontTwo(c, i, m, d)[1];
    Run2(a, b, START, env);
    assert START.frames == Tower(0);
    BareTower(a, 0, env);
    assert Step(a, START.frames, env).frames == Topped(m - 1, Decided(d));
    assert Open(1, Topped(m - 1, Decided(d))) == Frame(Take, Topped(m - 1, Decided(d))) by {
      Open1(Topped(m - 1, Decided(d)));
    }
  }

  /** The value at the end, when the window leaves `v` and the connector `k` behind, with `back` still to come. */
  function Outcome(ends: bool, k: Connector, v: bool, back: bool): bool {
    if ends then v else Apply(Link(k, v), back)
  }

  lemma SiteMeans(c: seq<Cond>, i: nat, pre: seq<Cond>, w: seq<Cond>, e: nat, k: Connector, v: bool, env: Env)
    requires i < |c| && Fires(c, i) && Run(w, Run(pre, START, env), env) == Left(k, e, v)
    ensures Meaning(pre + (w + BackOne(c, i, e)), env)
         == Outcome(EndsChain(c, i), k, v, env(Fresh(OldWindow(c, i), BACK)))
  {
    var post := BackOne(c, i, e);
    RunAppend(pre, w + post, START, env);
    var s := Run(pre, START, env);
    RunAppend(w, post, s, env);
    if post != [] {
      BackRuns(post[0], e, Link(k, v), v, env);
    }
  }

  lemma BackRuns(a: Cond, e: nat, p: Pending, v: bool, env: Env)
    requires a.left == 0 && a.right == e && !a.negated
    ensures Run([a], State(Topped(e, p), v), env).value == Apply(p, env(a.name))
  {
    Run1(a, State(Topped(e, p), v), env);
    ClosingBare(a, Topped(e, p), env);
    CloseTopped(e, e, p, Apply(p, env(a.name)));
  }

  // ----- Chains that a removal outside its guard changes -----

  /** Front atoms that open `m` brackets. */
  predicate IsFront(c: seq<Cond>, i: nat, m: nat, pre: seq<Cond>)
    requires i < |c| && Fires(c, i)
  {
    pre == FrontOne(c, i, m)
    || (WindowStart(c, i) > 0 && m > 0 && (pre == FrontTwo(c, i, m, true) || pre == FrontTwo(c, i, m, false)))
  }

  predicate IsBack(c: seq<Cond>, i: nat, e: nat, post: seq<Cond>)
    requires i < |c| && Fires(c, i)
  {
    post == BackOne(c, i, e) || (!EndsChain(c, i) && post == BackTwo(c, i, e))
  }

  lemma FrontSurrounds(c: seq<Cond>, i: nat, m: nat, pre: seq<Cond>)
    requires i < |c| && Fires(c, i) && IsFront(c, i, m, pre) && (WindowStart(c, i) == 0 ==> m == 0)
    ensures Nests(pre, 0, m) && ConnectorBefore(pre, |pre|) == ConnectorBefore(c, WindowStart(c, i))
    ensures forall a <- pre :: IsOneOf(a, OldWindow(c, i))
  {
    FrontNests(c, i, m);
  }

  lemma BackSurrounds(c: seq<Cond>, i: nat, e: nat, post: seq<Cond>)
    requires i < |c| && Fires(c, i) && IsBack(c, i, e, post) && (EndsChain(c, i) ==> e == 0)
    ensures Nests(post, e, 0) && (post == [] <==> EndsChain(c, i))
    ensures forall a <- post :: IsOneOf(a, OldWindow(c, i))
    ensures post != [] ==> post[0].name != OldWindow(c, i)[|OldWindow(c, i)| - 1].name
  {
    BackNests(c, i, e);
    assert post != [] ==> |post[0].name| > |OldWindow(c, i)[|OldWindow(c, i)| - 1].name|;
  }

  /** The chain around the window is well nested and its marks agree with the environment. */
  lemma SiteStands(c: seq<Cond>, i: nat, m: nat, e: nat, pre: seq<Cond>, post: seq<Cond>, v: Values)
    requires i < |c| && Fires(c, i) && Depths(c, i, m, e) && OneMark(OldWindow(c, i))
    requires IsFront(c, i, m, pre) && IsBack(c, i, e, post)
    ensures Surrounds(c, i, pre, post)
    ensures var c' := pre + (OldWindow(c, i) + post);
            WellNested(c') && Sane(c', Given(OldWindow(c, i), v))
  {
    var w := OldWindow(c, i);
    FrontSurrounds(c, i, m, pre);
    BackSurrounds(c, i, e, post);
    NestsAppend(w, post, m, e, 0);
    NestsAppend(pre, w + post, 0, m, 0);
    assert forall a <- w :: IsOneOf(a, w);
    AllOneOf(pre, w, post, w);
    GivenSane(w, pre + (w + post), v);
  }

  lemma AllOneOf(c1: seq<Cond>, c2: seq<Cond>, c3: seq<Cond>, w: seq<Cond>)
    requires w != [] && (forall a <- c1 :: IsOneOf(a, w)) && (forall a <- c2 :: IsOneOf(a, w))
    requires forall a <- c3 :: IsOneOf(a, w)
    ensures forall a <- c1 + (c2 + c3) :: IsOneOf(a, w)
  {
  }

  /** Two meanings that differ refute the removal. */
  lemma Refutes(c: seq<Cond>, i: nat, m: nat, e: nat, pre: seq<Cond>, post: seq<Cond>, v: Values)
    requires i < |c| && Fires(c, i) && Depths(c, i, m, e) && OneMark(OldWindow(c, i))
    requires IsFront(c, i, m, pre) && IsBack(c, i, e, post)
    requires var env := Given(OldWindow(c, i), v);
             Meaning(pre + (OldWindow(c, i) + post), env) != Meaning(pre + (NewWindow(c, i) + post), env)
    ensures !KeptWhereAlike(c, i)
  {
    var w := OldWindow(c, i);
    var c', i', env := pre + (w + post), Place(c, i, pre), Given(w, v);
    SiteStands(c, i, m, e, pre, post, v);
    SiteRemoved(c, i, pre, post);
    NotKept(c, i, c', i', env);
  }

  lemma NotKept(c: seq<Cond>, i: nat, c': seq<Cond>, i': nat, env: Env)
    requires i < |c| && Fires(c, i) && Alike(c, i, c', i') && WellNested(c') && Sane(c', env)
    requires Meaning(Remove(c', i', Which(c', i')), env) != Meaning(c', env)
    ensures !KeptWhereAlike(c, i)
  {
    assert !Kept(c', i', env);
  }

  /** The same from how the old and the new window end. */
  lemma RunsRefute(
    c: seq<Cond>, i: nat, m: nat, e: nat, pre: seq<Cond>, v: Values, k: Connector, x: bool, k': Connector, x': bool)
    requires i < |c| && Fires(c, i) && Depths(c, i, m, e) && OneMark(OldWindow(c, i)) && IsFront(c, i, m, pre)
    requires var env := Given(OldWindow(c, i), v);
             var s := Run(pre, START, env);
             Run(OldWindow(c, i), s, env) == Left(k, e, x) && Run(NewWindow(c, i), s, env) == Left(k', e, x')
    requires Outcome(EndsChain(c, i), k, x, v.back) != Outcome(EndsChain(c, i), k', x', v.back)
    ensures !KeptWhereAlike(c, i)
  {
    var env := Given(OldWindow(c, i), v);
    SiteMeans(c, i, pre, OldWindow(c, i), e, k, x, env);
    SiteMeans(c, i, pre, NewWindow(c, i), e, k', x', env);
    Refutes(c, i, m, e, pre, BackOne(c, i, e), v);
  }

  // ----- Duplicates -----

  lemma DupTermDiffers(c: seq<Cond>, i: nat, m: nat, e: nat)
    requires i < |c| && c[i] == Normalize(c[i]) && Which(c, i) == DupTerm && !Safe(c, i) && OneMark(OldWindow(c, i))
    requires Depths(c, i, m, e)
    ensures !KeptWhereAlike(c, i)
  {
    var a, b := c[i], c[i + 1];
    // Either the two atoms differ in value, or the first is decided by what is in front and the second is not.
    if !SecondDoes(a, b) {
      DupOpposite(c, i, m, e);
    } else {
      DupDecided(c, i, m, e);
    }
  }

  lemma DupOpposite(c: seq<Cond>, i: nat, m: nat, e: nat)
    requires i < |c| && c[i] == Normalize(c[i]) && Which(c, i) == DupTerm && OneMark(OldWindow(c, i))
    requires Depths(c, i, m, e) && !SecondDoes(c[i], c[i + 1])
    ensures !KeptWhereAlike(c, i)
  {
    var a, b, w := c[i], c[i + 1], OldWindow(c, i);
    var v := Values((a.conn == Or) != a.negated, Neutral(c, i), b.conn == And, true);
    NamedValue(w, 0, v, a.conn == Or);
    assert Literal(b, Given(w, v)) == (a.conn == And);
    DupRefutes(c, i, m, e, v);
  }

  lemma DupDecided(c: seq<Cond>, i: nat, m: nat, e: nat)
    requires 0 < i < |c| && c[i] == Normalize(c[i]) && Which(c, i) == DupTerm && OneMark(OldWindow(c, i))
    requires Depths(c, i, m, e) && c[i - 1].conn != c[i].conn && MayBe(c[i + 1], c[i - 1].conn == And)
    ensures !KeptWhereAlike(c, i)
  {
    var b, k, w := c[i + 1], c[i - 1].conn, OldWindow(c, i);
    var v := Values((k == And) != b.negated, k == Or, b.conn == And, true);
    NamedValue(w, 1, v, k == And);
    DupRefutes(c, i, m, e, v);
  }

  lemma DupRefutes(c: seq<Cond>, i: nat, m: nat, e: nat, v: Values)
    requires i < |c| && c[i] == Normalize(c[i]) && Which(c, i) == DupTerm && OneMark(OldWindow(c, i))
    requires Depths(c, i, m, e) && v.back == (c[i + 1].conn == And)
    requires var env, p := Given(OldWindow(c, i), v), PendingAt(c, i, v.front);
             var x, y := Literal(c[i], env), Literal(c[i + 1], env);
             Apply(Link(c[i].conn, Apply(p, x)), y) != Apply(p, y)
    ensures !KeptWhereAlike(c, i)
  {
    var a, b := c[i], c[i + 1];
    Nests2(a, b, m, e);
    var env, p := Given(OldWindow(c, i), v), PendingAt(c, i, v.front);
    FrontOneRuns(c, i, m, env);
    DupRuns(a, b, m, p, Run(FrontOne(c, i, m), START, env), env);
    var y := Apply(Link(a.conn, Apply(p, Literal(a, env))), Literal(b, env));
    RunsRefute(c, i, m, e, FrontOne(c, i, m), v, b.conn, y, b.conn, Apply(p, Literal(b, env)));
  }

  lemma DupRuns(a: Cond, b: Cond, m: nat, p: Pending, s: State, env: Env)
    requires a.left == a.right == b.left == b.right == 0 && s.frames == Topped(m, p)
    ensures Run([a, b], s, env) == Left(b.conn, m, Apply(Link(a.conn, Apply(p, Literal(a, env))), Literal(b, env)))
    ensures Run([b], s, env) == Left(b.conn, m, Apply(p, Literal(b, env)))
  {
    Run2(a, b, s, env);
    Run1(b, s, env);
    PlainStep(a, m, p, env);
    PlainStep(b, m, Link(a.conn, Apply(p, Literal(a, env))), env);
    PlainStep(b, m, p, env);
  }

  lemma DupGroupDiffers(c: seq<Cond>, i: nat, m: nat, e: nat)
    requires i < |c| && c[i] == Normalize(c[i]) && Which(c, i) == DupGroup && !Safe(c, i) && OneMark(OldWindow(c, i))
    requires Depths(c, i, m, e)
    ensures !KeptWhereAlike(c, i)
  {
    var a, b, w := c[i], c[i + 1], OldWindow(c, i);
    Nests2(a, b, m, e);
    var v := Values((a.conn == Or) != a.negated, Neutral(c, i), b.conn == And, true);
    NamedValue(w, 0, v, a.conn == Or);
    var env := Given(w, v);
    FrontOneRuns(c, i, m, env);
    var s := Run(FrontOne(c, i, m), START, env);
    assert w == [a, b] && NewWindow(c, i) == [b.(right := 0)];
    GroupRuns(a, b, m, s, env);
    RunsRefute(c, i, m, e, FrontOne(c, i, m), v, b.conn, Apply(Link(a.conn, Literal(a, env)), Literal(b, env)),
               b.conn, Literal(b, env));
  }

  lemma GroupRuns(a: Cond, b: Cond, m: nat, s: State, env: Env)
    requires a.left == 1 && a.right == 0 && b.left == 0 && b.right == 1 && s.frames == Tower(m)
    ensures Run([a, b], s, env) == Left(b.conn, m, Apply(Link(a.conn, Literal(a, env)), Literal(b, env)))
    ensures Run([b.(right := 0)], s, env) == Left(b.conn, m, Literal(b, env))
  {
    var p := Link(a.conn, Literal(a, env));
    Run2(a, b, s, env);
    Run1(b.(right := 0), s, env);
    BareTower(a, m, env);
    assert Step(a, s.frames, env).frames == Topped(m + 1, p);
    ClosingBare(b, Topped(m + 1, p), env);
    CloseTopped(1, m + 1, p, Apply(p, Literal(b, env)));
    PlainStep(b.(right := 0), m, Take, env);
  }

  // ----- Atoms taken as true -----

  lemma TrueTermDiffers(c: seq<Cond>, i: nat, m: nat, e: nat)
    requires i < |c| && c[i] == Normalize(c[i]) && Which(c, i) == TrueTerm && !Safe(c, i) && OneMark(OldWindow(c, i))
    requires Depths(c, i, m, e)
    ensures !KeptWhereAlike(c, i)
  {
    var a, w := c[i], OldWindow(c, i);
    Nests1(a, m, e);
    var v := Values(true, true, true, true);
    NamedValue(w, 0, v, false);
    var env := Given(w, v);
    FrontOneRuns(c, i, m, env);
    var s := Run(FrontOne(c, i, m), START, env);
    assert s.value && s == Left(And, m, true) by {
      if WindowStart(c, i) > 0 {
        Run1(FrontOne(c, i, m)[0], START, env);
        assert START.frames == Tower(0);
        BareTower(FrontOne(c, i, m)[0], 0, env);
      }
    }
    Run1(a, s, env);
    PlainStep(a, m, Take, env);
    RunsRefute(c, i, m, e, FrontOne(c, i, m), v, a.conn, false, And, true);
  }

  /** From the step of the predecessor: its value `x`, and what is pending on the level below. */
  lemma CloseRefutes(c: seq<Cond>, i: nat, m: nat, e: nat, pre: seq<Cond>, v: Values, x: bool, q: Pending)
    requires i < |c| && Which(c, i) == TrueClose && c[i] == Normalize(c[i]) && Depths(c, i, m, e)
    requires OneMark(OldWindow(c, i)) && IsFront(c, i, m, pre)
    requires var env := Given(OldWindow(c, i), v);
             var fs := Run(pre, START, env).frames;
             && Bare(c[i - 1], fs, env).frames.Frame? && Step(c[i - 1], fs, env).value == x
             && Step(c[i - 1], fs, env).frames.below == Topped(e, q)
    requires Outcome(EndsChain(c, i), c[i].conn, Apply(q, x && TrulyTrue(c[i])), v.back)
          != Outcome(EndsChain(c, i), And, Apply(q, x), v.back)
    ensures !KeptWhereAlike(c, i)
  {
    var p, a, w := c[i - 1], c[i], OldWindow(c, i);
    assert w[1] == a;
    NamedValue(w, 1, v, TrulyTrue(a));
    var env := Given(w, v);
    CloseRun(p, a, Run(pre, START, env), env);
    RunsRefute(c, i, m, e, pre, v, a.conn, Apply(q, x && TrulyTrue(a)), And, Apply(q, x));
  }

  /** With nothing decided around it, the predecessor has its own value. */
  lemma CloseOpen(c: seq<Cond>, i: nat, m: nat, e: nat, x: bool, back: bool)
    requires i < |c| && Which(c, i) == TrueClose && c[i] == Normalize(c[i]) && Depths(c, i, m, e)
    requires OneMark(OldWindow(c, i)) && MayBe(c[i - 1], x)
    requires Outcome(EndsChain(c, i), c[i].conn, x && TrulyTrue(c[i]), back) != Outcome(EndsChain(c, i), And, x, back)
    ensures !KeptWhereAlike(c, i)
  {
    var p, a, w := c[i - 1], c[i], OldWindow(c, i);
    Nests2(p, a, m, e);
    var v := Values(x != p.negated, Neutral(c, i), back, true);
    assert w[0] == p;
    NamedValue(w, 0, v, x);
    var env := Given(w, v);
    FrontOneRuns(c, i, m, env);
    BareTower(p, m, env);
    assert Step(p, Tower(m), env) == Left(And, e + 1, x);
    CloseRefutes(c, i, m, e, FrontOne(c, i, m), v, x, Take);
  }

  /** The predecessor decided by the atom in front of it. */
  lemma CloseDecided(c: seq<Cond>, i: nat, m: nat, e: nat)
    requires i < |c| && Which(c, i) == TrueClose && c[i] == Normalize(c[i]) && Depths(c, i, m, e)
    requires OneMark(OldWindow(c, i)) && !TrulyTrue(c[i]) && (EndsChain(c, i) || c[i].conn == And)
    requires c[i - 1].left == c[i - 1].right && i > 1 && c[i - 2].conn == Or
    ensures !KeptWhereAlike(c, i)
  {
    var p, a := c[i - 1], c[i];
    Nests2(p, a, m, e);
    var v := Values(true, true, true, true);
    var env := Given(OldWindow(c, i), v);
    FrontOneRuns(c, i, m, env);
    NormalizeStep(p, Topped(m, Decided(true)), env);
    PlainStep(Normalize(p), m, Decided(true), env);
    assert Step(p, Topped(m, Decided(true)), env) == Left(And, e + 1, true);
    FrameStays(p, Topped(m, Decided(true)), env);
    CloseRefutes(c, i, m, e, FrontOne(c, i, m), v, true, Take);
  }

  lemma FrameStays(p: Cond, fs: Frames, env: Env)
    requires Step(p, fs, env).frames.Frame?
    ensures Bare(p, fs, env).frames.Frame?
  {
  }

  /** The level below the predecessor's bracket decided by the atom in front. */
  lemma CloseInner(c: seq<Cond>, i: nat, m: nat, e: nat)
    requires i < |c| && Which(c, i) == TrueClose && c[i] == Normalize(c[i]) && Depths(c, i, m, e)
    requires OneMark(OldWindow(c, i)) && !TrulyTrue(c[i]) && !EndsChain(c, i) && c[i].conn == Or
    requires c[i - 1].right + 1 == c[i - 1].left && i > 1 && MayBe(c[i - 1], true)
    ensures !KeptWhereAlike(c, i)
  {
    var p, a, w := c[i - 1], c[i], OldWindow(c, i);
    var d := c[i - 2].conn == Or;
    Nests2(p, a, m, e);
    var v := Values(true != p.negated, d, !d, true);
    assert w[0] == p;
    NamedValue(w, 0, v, true);
    var env := Given(w, v);
    FrontOneRuns(c, i, m, env);
    var fs := Topped(m, Decided(d));
    NormalizeStep(p, fs, env);
    Open1(fs);
    assert Step(Normalize(p), fs, env) == State(Frame(Take, fs), true);
    FrameStays(p, fs, env);
    CloseRefutes(c, i, m, e, FrontOne(c, i, m), v, true, Decided(d));
  }

  /** The predecessor's step over a level that two atoms in front have decided. */
  lemma DeepStep(p: Cond, m: nat, d: bool, env: Env)
    requires p.left <= p.right < m + p.left && p.conn == And
    ensures var u := Step(p, Frame(Take, Topped(m - 1, Decided(d))), env);
            var r := p.right - p.left;
            && u.frames.Frame?
            && (r == 0 ==> u.value == Literal(p, env) && u.frames.below == Topped(m - 1, Decided(d)))
            && (r > 0 ==> u.value == d && u.frames.below == Tower(m - r - 1))
  {
    var fs, n := Frame(Take, Topped(m - 1, Decided(d))), Normalize(p);
    NormalizeStep(p, fs, env);
    ClosingBare(n, fs, env);
    if n.right > 0 {
      CloseStep(n.right, fs, Literal(n, env));
      CloseTopped(n.right - 1, m - 1, Decided(d), d);
      DeepBelow(n.right - 1, m - 1, Decided(d), d);
    }
  }

  lemma DeepBelow(k: nat, h: nat, p: Pending, v: bool)
    requires k < h
    ensures var fs := if k == 0 then Topped(h, p) else Tower(h - k);
            Connect(And, State(fs, v)).frames == Frame(Link(And, v), Tower(h - k - 1))
  {
    assert Tower(h - k) == Frame(Take, Tower(h - k - 1));
  }

  lemma CloseDeep(c: seq<Cond>, i: nat, m: nat, e: nat, d: bool)
    requires i < |c| && Which(c, i) == TrueClose && c[i] == Normalize(c[i]) && Depths(c, i, m, e)
    requires OneMark(OldWindow(c, i)) && !TrulyTrue(c[i]) && c[i - 1].left <= c[i - 1].right
    requires if d then (EndsChain(c, i) || c[i].conn == And) && c[i - 1].left < c[i - 1].right
             else !EndsChain(c, i) && c[i].conn == Or
    ensures !KeptWhereAlike(c, i)
  {
    var p, a := c[i - 1], c[i];
    Nests2(p, a, m, e);
    var v := Values(true, Neutral(c, i), true, d);
    var env := Given(OldWindow(c, i), v);
    var x, q := if p.left == p.right then Literal(p, env) else d, if p.left == p.right then Decided(d) else Take;
    DeepSetting(c, i, m, e, d, v);
    CloseRefutes(c, i, m, e, FrontTwo(c, i, m, d), v, x, q);
  }

  lemma DeepSetting(c: seq<Cond>, i: nat, m: nat, e: nat, d: bool, v: Values)
    requires 1 < i < |c| && Which(c, i) == TrueClose && v.front == Neutral(c, i) && v.deep == d
    requires c[i - 1].left <= c[i - 1].right < m + c[i - 1].left && e == m + c[i - 1].left - c[i - 1].right - 1
    ensures var p, env := c[i - 1], Given(OldWindow(c, i), v);
            var fs := Run(FrontTwo(c, i, m, d), START, env).frames;
            && Bare(p, fs, env).frames.Frame?
            && Step(p, fs, env).value == (if p.left == p.right then Literal(p, env) else d)
            && Step(p, fs, env).frames.below == Topped(e, if p.left == p.right then Decided(d) else Take)
  {
    var p, env := c[i - 1], Given(OldWindow(c, i), v);
    FrontTwoRuns(c, i, m, d, env);
    DeepStep(p, m, d, env);
    FrameStays(p, Frame(Take, Topped(m - 1, Decided(d))), env);
  }

  lemma TrueCloseDiffers(c: seq<Cond>, i: nat, m: nat, e: nat)
    requires i < |c| && c[i] == Normalize(c[i]) && Which(c, i) == TrueClose && !Safe(c, i) && OneMark(OldWindow(c, i))
    requires Depths(c, i, m, e)
    ensures !KeptWhereAlike(c, i)
  {
    var p, a := c[i - 1], c[i];
    Nests2(p, a, m, e);
    if TrulyTrue(a) {
      var x := MayBe(p, true);
      CloseOpen(c, i, m, e, x, !x);
    } else if EndsChain(c, i) || a.conn == And {
      if MayBe(p, true) {
        CloseOpen(c, i, m, e, true, true);
      } else if p.left == p.right {
        CloseDecided(c, i, m, e);
      } else {
        CloseDeep(c, i, m, e, true);
      }
    } else if MayBe(p, false) {
      CloseOpen(c, i, m, e, false, true);
    } else if p.left > p.right {
      CloseInner(c, i, m, e);
    } else {
      CloseDeep(c, i, m, e, false);
    }
  }

  // ----- An atom taken as true that opens a bracket -----

  /** A false opening term leaves its level decided; without it the level is open. */
  lemma OpenTwo(a: Cond, b: Cond, m: nat, s: State, env: Env)
    requires a.left == 1 && a.right == 0 && a.conn == And && !Literal(a, env) && s.frames == Tower(m)
    ensures Run([a, b], s, env) == Step(Normalize(b), Topped(m + 1, Decided(false)), env)
    ensures Run([b.(left := b.left + 1)], s, env) == Step(Normalize(b), Tower(m + 1), env)
  {
    Run2(a, b, s, env);
    Run1(b.(left := b.left + 1), s, env);
    BareTower(a, m, env);
    assert Step(a, s.frames, env).frames == Topped(m + 1, Decided(false));
    assert Open(1, Tower(m)) == Tower(m + 1);
    NormalizeStep(b, Topped(m + 1, Decided(false)), env);
    NormalizeStep(b, Tower(m + 1), env);
  }

  lemma OpenSetting(c: seq<Cond>, i: nat, m: nat, e: nat, v: Values)
    requires i < |c| && c[i] == Normalize(c[i]) && Which(c, i) == TrueOpen && !TrulyTrue(c[i])
    requires Depths(c, i, m, e) && OneMark(OldWindow(c, i)) && v.front == Neutral(c, i)
    ensures var env, n := Given(OldWindow(c, i), v), Normalize(c[i + 1]);
            var s := Run(FrontOne(c, i, m), START, env);
            && n.right <= m + 1 + n.left && e == m + 1 + n.left - n.right
            && Run(OldWindow(c, i), s, env) == Step(n, Topped(m + 1, Decided(false)), env)
            && Run(NewWindow(c, i), s, env) == Left(n.conn, e, Literal(n, env))
  {
    var a, b, w := c[i], c[i + 1], OldWindow(c, i);
    Nests2(a, b, m, e);
    OpenIsFalse(c, i, v);
    FrontOneRuns(c, i, m, Given(w, v));
    assert w == [a, b] && NewWindow(c, i) == [b.(left := b.left + 1)];
    OpenBoth(a, b, m, e, Run(FrontOne(c, i, m), START, Given(w, v)), Given(w, v));
  }

  lemma OpenIsFalse(c: seq<Cond>, i: nat, v: Values)
    requires i < |c| && Which(c, i) == TrueOpen && !TrulyTrue(c[i]) && OneMark(OldWindow(c, i))
    ensures !Literal(c[i], Given(OldWindow(c, i), v))
  {
    assert OldWindow(c, i)[0] == c[i];
    NamedValue(OldWindow(c, i), 0, v, false);
  }

  lemma OpenBoth(a: Cond, b: Cond, m: nat, e: nat, s: State, env: Env)
    requires a.left == 1 && a.right == 0 && a.conn == And && !Literal(a, env) && s.frames == Tower(m)
    requires b.right <= m + 1 + b.left && e == m + 1 + b.left - b.right
    ensures Run([a, b], s, env) == Step(Normalize(b), Topped(m + 1, Decided(false)), env)
    ensures Run([b.(left := b.left + 1)], s, env) == Left(b.conn, e, Literal(b, env))
  {
    OpenTwo(a, b, m, s, env);
    BareTower(Normalize(b), m + 1, env);
  }

  /** A second term that stays on the decided level or leaves it. */
  lemma OpenAndShut(c: seq<Cond>, i: nat, m: nat, e: nat)
    requires i < |c| && c[i] == Normalize(c[i]) && Which(c, i) == TrueOpen && !TrulyTrue(c[i])
    requires Depths(c, i, m, e) && OneMark(OldWindow(c, i))
    requires c[i + 1].left <= c[i + 1].right && MayBe(c[i + 1], true)
    ensures !KeptWhereAlike(c, i)
  {
    var b, w := c[i + 1], OldWindow(c, i);
    var n := Normalize(b);
    var v := Values(true != b.negated, Neutral(c, i), b.conn == And, true);
    OpenSetting(c, i, m, e, v);
    NamedValue(w, 1, v, true);
    var env := Given(w, v);
    ShutFalse(n, m, e, env);
    RunsRefute(c, i, m, e, FrontOne(c, i, m), v, b.conn, false, b.conn, true);
  }

  lemma ShutFalse(n: Cond, m: nat, e: nat, env: Env)
    requires n.left == 0 && n.right <= m + 1 && e == m + 1 - n.right
    ensures Step(n, Topped(m + 1, Decided(false)), env) == Left(n.conn, e, false)
  {
    ClosingBare(n, Topped(m + 1, Decided(false)), env);
    CloseTopped(n.right, m + 1, Decided(false), false);
  }

  /** Closing brackets over a level whose value is decided false. */
  lemma {:induction false} CloseOverFalse(l: nat, m: nat, k: nat, v: bool, p: Pending)
    requires l > 0 && k == l + 1 + m
    ensures Close(k, State(Open(l, Topped(m + 1, Decided(false))).(p := p), v)).value == false
    decreases l
  {
    var low := Topped(m + 1, Decided(false));
    OpenInside(l - 1, low);
    var fs := Open(l, low).(p := p);
    assert fs.below == Open(l - 1, low);
    CloseStep(k, fs, v);
    if l == 1 {
      CloseTopped(k - 1, m + 1, Decided(false), false);
    } else {
      OpenInside(l - 2, low);
      var below := Open(l - 1, low);
      assert below.p == Take && below.(p := Take) == below;
      CloseOverFalse(l - 1, m, k - 1, v, Take);
    }
  }

  /** The last of two atoms joined by `||` makes the level they stand on true. */
  lemma BackTwoRuns(c: seq<Cond>, i: nat, e: nat, fs: Frames, v: bool, env: Env) returns (p: Pending)
    requires i < |c| && Fires(c, i) && env(Fresh(OldWindow(c, i), BACK))
    ensures Run(BackTwo(c, i, e), State(fs, v), env).value == Close(e, State(fs.(p := p), true)).value
  {
    var a, b := BackTwo(c, i, e)[0], BackTwo(c, i, e)[1];
    Run2(a, b, State(fs, v), env);
    var u := Step(a, fs, env);
    p := u.frames.p;
    assert u.frames == fs.(p := p) && Apply(p, true);
    ClosingBare(b, u.frames, env);
  }

  /** A second term that opens more brackets: the value turns false when they close. */
  lemma OpenMore(c: seq<Cond>, i: nat, m: nat, e: nat)
    requires i < |c| && c[i] == Normalize(c[i]) && Which(c, i) == TrueOpen && !TrulyTrue(c[i])
    requires Depths(c, i, m, e) && OneMark(OldWindow(c, i)) && c[i + 1].left > c[i + 1].right
    ensures !KeptWhereAlike(c, i)
  {
    var w, w', n := OldWindow(c, i), NewWindow(c, i), Normalize(c[i + 1]);
    var v := Values(true, Neutral(c, i), true, true);
    OpenSetting(c, i, m, e, v);
    var env, pre, post := Given(w, v), FrontOne(c, i, m), BackTwo(c, i, e);
    var s, low := Run(pre, START, env), Topped(m + 1, Decided(false));
    RunAppend(pre, w + post, START, env);
    RunAppend(pre, w' + post, START, env);
    RunAppend(w, post, s, env);
    RunAppend(w', post, s, env);
    OpenInside(n.left - 1, low);
    var u, u' := Run(w, s, env), Run(w', s, env);
    var p := BackTwoRuns(c, i, e, u.frames, u.value, env);
    assert u.frames.(p := p) == Open(n.left, low).(p := p);
    CloseOverFalse(n.left, m, e, true, p);
    var p' := BackTwoRuns(c, i, e, u'.frames, u'.value, env);
    assert u'.frames.(p := p') == Topped(e, p');
    CloseTopped(e, e, p', true);
    Refutes(c, i, m, e, pre, post, v);
  }

  lemma TrueOpenDiffers(c: seq<Cond>, i: nat, m: nat, e: nat)
    requires i < |c| && c[i] == Normalize(c[i]) && Which(c, i) == TrueOpen && !Safe(c, i) && OneMark(OldWindow(c, i))
    requires Depths(c, i, m, e)
    ensures !KeptWhereAlike(c, i)
  {
    if c[i + 1].left <= c[i + 1].right {
      OpenAndShut(c, i, m, e);
    } else {
      OpenMore(c, i, m, e);
    }
  }

  // ----- Exactness -----

  /** Outside the guard some chain that looks the same changes its meaning. */
  lemma UnsafeDiffers(c: seq<Cond>, i: nat)
    requires WellNested(c) && i < |c| && Fires(c, i) && c[i] == Normalize(c[i]) && OneMark(OldWindow(c, i))
    requires !Safe(c, i)
    ensures !KeptWhereAlike(c, i)
  {
    var m, e := FindDepths(c, i);
    var r := Which(c, i);
    if r.DupTerm? {
      DupTermDiffers(c, i, m, e);
    } else if r.DupGroup? {
      DupGroupDiffers(c, i, m, e);
    } else if r.TrueTerm? {
      TrueTermDiffers(c, i, m, e);
    } else if r.TrueClose? {
      TrueCloseDiffers(c, i, m, e);
    } else {
      TrueOpenDiffers(c, i, m, e);
    }
  }

  /** The guard is exact: dropping the atom keeps the meaning of every well-nested chain that
      looks the same there, in every environment that agrees with its marks, if and only if
      the guard holds. */
  lemma SafeIsExact(c: seq<Cond>, i: nat)
    requires WellNested(c) && i < |c| && Fires(c, i) && c[i] == Normalize(c[i]) && OneMark(OldWindow(c, i))
    ensures Safe(c, i) <==> KeptWhereAlike(c, i)
  {
    if Safe(c, i) {
      forall c', i', env: Env | Alike(c, i, c', i') && WellNested(c') && Sane(c', env)
        ensures Kept(c', i', env)
      {
        AlikeSafe(c, i, c', i');
        RemoveMeans(c', i', env);
      }
    } else {
      UnsafeDiffers(c, i);
    }
  }
}
