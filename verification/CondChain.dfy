/** Kconfig conditions as alsa/utils/mod-deps.c stores them: a flat chain of
    atoms, each with its own bracket counts, negation and connector to the next.
    A chain is read as a POSIX AND-OR list: `&&` and `||` have equal precedence
    and associate to the left (POSIX Shell Command Language, section 2.9.3). */
module CondChain {

  datatype Connector = And | Or

  /** What `is_always_true` and `is_always_false` say about an atom's `dep`. */
  datatype Mark = Unmarked | AlwaysTrue | AlwaysFalse

  /** One `struct cond`. */
  datatype Cond = Cond(name: string, mark: Mark, left: nat, right: nat, negated: bool, conn: Connector)

  type Env = string -> bool

  function Literal(a: Cond, env: Env): bool {
    env(a.name) != a.negated
  }

  // ----- Meaning: a left-to-right machine with one frame per open bracket -----

  /** What is left to do with the next value on a bracket level: take it as it
      is, or ignore it because the level's value is already decided. */
  datatype Pending = Take | Decided(b: bool)

  function Apply(p: Pending, v: bool): bool {
    match p
    case Take => v
    case Decided(b) => b
  }

  function Link(k: Connector, v: bool): Pending {
    match k
    case And => if v then Take else Decided(false)
    case Or => if v then Decided(true) else Take
  }

  datatype Frames = Base(p: Pending) | Frame(p: Pending, below: Frames)

  datatype State = State(frames: Frames, value: bool)

  function Open(k: nat, fs: Frames): Frames {
    if k == 0 then fs else Open(k - 1, Frame(Take, fs))
  }

  function Close(k: nat, s: State): State {
    if k == 0 || s.frames.Base? then s
    else Close(k - 1, State(s.frames.below, Apply(s.frames.below.p, s.value)))
  }

  function Connect(k: Connector, s: State): State {
    s.(frames := s.frames.(p := Link(k, s.value)))
  }

  function Bare(a: Cond, fs: Frames, env: Env): State {
    var inner := Open(a.left, fs);
    Close(a.right, State(inner, Apply(inner.p, Literal(a, env))))
  }

  function Step(a: Cond, fs: Frames, env: Env): State {
    Connect(a.conn, Bare(a, fs, env))
  }

  function Run(c: seq<Cond>, s: State, env: Env): State {
    if c == [] then s else Run(c[1..], Step(c[0], s.frames, env), env)
  }

  /** The empty chain is no condition at all, hence true. */
  const START := State(Base(Take), true)

  function Meaning(c: seq<Cond>, env: Env): bool {
    Run(c, START, env).value
  }

  // ----- Nesting -----

  /** Reading `c` from bracket depth `d` ends at depth `e` and never goes below 0. */
  predicate Nests(c: seq<Cond>, d: nat, e: nat) {
    if c == [] then d == e
    else c[0].right <= d + c[0].left && Nests(c[1..], d + c[0].left - c[0].right, e)
  }

  predicate WellNested(c: seq<Cond>) {
    Nests(c, 0, 0)
  }

  function Depth(c: seq<Cond>): int {
    if c == [] then 0 else c[0].left - c[0].right + Depth(c[1..])
  }

  // ----- Running over concatenations -----

  lemma {:induction false} RunAppend(c1: seq<Cond>, c2: seq<Cond>, s: State, env: Env)
    ensures Run(c1 + c2, s, env) == Run(c2, Run(c1, s, env), env)
  {
    if c1 == [] {
      assert c1 + c2 == c2;
    } else {
      assert (c1 + c2)[1..] == c1[1..] + c2;
      RunAppend(c1[1..], c2, Step(c1[0], s.frames, env), env);
    }
  }

  lemma {:induction false} NestsAppend(c1: seq<Cond>, c2: seq<Cond>, d: nat, m: nat, e: nat)
    requires Nests(c1, d, m) && Nests(c2, m, e)
    ensures Nests(c1 + c2, d, e)
  {
    if c1 == [] {
      assert c1 + c2 == c2;
    } else {
      assert (c1 + c2)[1..] == c1[1..] + c2;
      NestsAppend(c1[1..], c2, d + c1[0].left - c1[0].right, m, e);
    }
  }

  lemma {:induction false} NestsSplit(c1: seq<Cond>, c2: seq<Cond>, d: nat, e: nat) returns (m: nat)
    requires Nests(c1 + c2, d, e)
    ensures Nests(c1, d, m) && Nests(c2, m, e)
  {
    if c1 == [] {
      assert c1 + c2 == c2;
      m := d;
    } else {
      assert (c1 + c2)[1..] == c1[1..] + c2;
      m := NestsSplit(c1[1..], c2, d + c1[0].left - c1[0].right, e);
    }
  }

  /** After an atom, the top frame is the link made from its connector and value. */
  lemma {:induction false} LastLink(c: seq<Cond>, s: State, env: Env)
    requires c != []
    ensures var r := Run(c, s, env); r.frames.p == Link(c[|c| - 1].conn, r.value)
  {
    var front, last := c[..|c| - 1], c[|c| - 1];
    assert c == front + [last];
    RunAppend(front, [last], s, env);
    var r := Run(front, s, env);
    assert Run([last], r, env) == Step(last, r.frames, env);
  }

  /** The chain with the connector after its last atom replaced. */
  function WithConn(c: seq<Cond>, k: Connector): seq<Cond>
    requires c != []
  {
    c[|c| - 1 := c[|c| - 1].(conn := k)]
  }

  lemma RunWithConn(c: seq<Cond>, k: Connector, s: State, env: Env)
    requires c != []
    ensures var r := Run(c, s, env); Run(WithConn(c, k), s, env) == Connect(k, r)
  {
    var front, last := c[..|c| - 1], c[|c| - 1];
    assert c == front + [last] && WithConn(c, k) == front + [last.(conn := k)];
    RunAppend(front, [last], s, env);
    RunAppend(front, [last.(conn := k)], s, env);
    var fs := Run(front, s, env).frames;
    assert Run([last], Run(front, s, env), env) == Step(last, fs, env);
    assert Run([last.(conn := k)], Run(front, s, env), env) == Step(last.(conn := k), fs, env);
    assert Bare(last.(conn := k), fs, env) == Bare(last, fs, env);
  }

  lemma {:induction false} WithConnNests(c: seq<Cond>, k: Connector, d: nat, e: nat)
    requires c != []
    ensures Nests(WithConn(c, k), d, e) <==> Nests(c, d, e)
  {
    if |c| > 1 && c[0].right <= d + c[0].left {
      assert WithConn(c, k)[1..] == WithConn(c[1..], k);
      WithConnNests(c[1..], k, d + c[0].left - c[0].right, e);
    } else if |c| == 1 {
      assert WithConn(c, k) == [c[0].(conn := k)];
    }
  }

  // ----- Brackets -----

  function OpenFirst(c: seq<Cond>): seq<Cond>
    requires c != []
  {
    c[0 := c[0].(left := c[0].left + 1)]
  }

  function CloseLast(c: seq<Cond>): seq<Cond>
    requires c != []
  {
    c[|c| - 1 := c[|c| - 1].(right := c[|c| - 1].right + 1)]
  }

  function Bracket(c: seq<Cond>): (r: seq<Cond>)
    requires c != []
  {
    CloseLast(OpenFirst(c))
  }

  lemma {:induction false} OpenInside(k: nat, fs: Frames)
    ensures Open(k, Frame(Take, fs)) == Frame(Take, Open(k, fs))
  {
    if k > 0 {
      OpenInside(k - 1, Frame(Take, fs));
    }
  }

  lemma {:induction false} CloseOneMore(k: nat, s: State)
    ensures Close(k + 1, s) == Close(1, Close(k, s))
  {
    if k > 0 && s.frames.Frame? {
      CloseOneMore(k - 1, State(s.frames.below, Apply(s.frames.below.p, s.value)));
    }
  }

  /** `fs` set on top of `g`: the lowest frame of `fs` becomes one bracket above `g`. */
  function Embed(fs: Frames, g: Frames): Frames {
    match fs
    case Base(p) => Frame(p, g)
    case Frame(p, b) => Frame(p, Embed(b, g))
  }

  function Height(fs: Frames): nat {
    match fs
    case Base(_) => 0
    case Frame(_, b) => 1 + Height(b)
  }

  function EmbedState(s: State, g: Frames): State {
    s.(frames := Embed(s.frames, g))
  }

  lemma {:induction false} OpenEmbed(k: nat, fs: Frames, g: Frames)
    ensures Open(k, Embed(fs, g)) == Embed(Open(k, fs), g)
    ensures Height(Open(k, fs)) == k + Height(fs)
  {
    if k > 0 {
      OpenEmbed(k - 1, Frame(Take, fs), g);
    }
  }

  lemma {:induction false} CloseEmbed(k: nat, s: State, g: Frames)
    requires k <= Height(s.frames)
    ensures Close(k, EmbedState(s, g)) == EmbedState(Close(k, s), g)
    ensures Height(Close(k, s).frames) == Height(s.frames) - k
  {
    if k > 0 {
      var below := s.frames.below;
      assert Embed(below, g).p == below.p;
      CloseEmbed(k - 1, State(below, Apply(below.p, s.value)), g);
    }
  }

  /** A chain that keeps to its own bracket depth cannot see the frames below it. */
  lemma {:induction false} RunEmbed(c: seq<Cond>, s: State, g: Frames, e: nat, env: Env)
    requires Nests(c, Height(s.frames), e)
    ensures Run(c, EmbedState(s, g), env) == EmbedState(Run(c, s, env), g)
    ensures Height(Run(c, s, env).frames) == e
  {
    if c != [] {
      var a := c[0];
      OpenEmbed(a.left, s.frames, g);
      var inner := Open(a.left, s.frames);
      assert Embed(inner, g).p == inner.p;
      CloseEmbed(a.right, State(inner, Apply(inner.p, Literal(a, env))), g);
      var next := Step(a, s.frames, env);
      assert Step(a, Embed(s.frames, g), env) == EmbedState(next, g);
      RunEmbed(c[1..], next, g, e, env);
    }
  }

  /** A bracketed chain contributes exactly the chain's meaning to the frame it
      stands in, whatever that frame already holds. */
  lemma BracketRun(c: seq<Cond>, s: State, env: Env)
    requires c != [] && WellNested(c)
    ensures var w := Apply(s.frames.p, Meaning(c, env));
            Run(Bracket(c), s, env) == State(s.frames.(p := Link(c[|c| - 1].conn, w)), w)
  {
    var g := s.frames;
    var c1 := OpenFirst(c);
    assert c1[1..] == c[1..];
    assert Run(c1, s, env) == Run(c, State(Frame(Take, g), true), env);
    assert EmbedState(START, g) == State(Frame(Take, g), true);
    RunEmbed(c, START, g, 0, env);
    LastLink(c, START, env);
    var front, last := c1[..|c| - 1], c1[|c| - 1];
    assert c1 == front + [last];
    assert Bracket(c) == front + [last.(right := last.right + 1)];
    RunAppend(front, [last], s, env);
    RunAppend(front, [last.(right := last.right + 1)], s, env);
    var fs := Run(front, s, env).frames;
    var inner := Open(last.left, fs);
    CloseOneMore(last.right, State(inner, Apply(inner.p, Literal(last, env))));
    assert Run([last], Run(front, s, env), env) == Step(last, fs, env);
  }

  lemma BracketNests(c: seq<Cond>)
    requires c != [] && WellNested(c)
    ensures WellNested(Bracket(c))
  {
    var front, last := c[..|c| - 1], c[|c| - 1];
    assert c == front + [last];
    var m := NestsSplit(front, [last], 0, 0);
    if front == [] {
      assert Bracket(c) == [last.(left := last.left + 1, right := last.right + 1)];
    } else {
      NestsShift(front, 0, m);
      assert Nests(OpenFirst(front), 0, m + 1) by { assert OpenFirst(front)[1..] == front[1..]; }
      assert Bracket(c) == OpenFirst(front) + [last.(right := last.right + 1)];
      assert Nests([last.(right := last.right + 1)], m + 1, 0);
      NestsAppend(OpenFirst(front), [last.(right := last.right + 1)], 0, m + 1, 0);
    }
  }

  lemma {:induction false} NestsShift(c: seq<Cond>, d: nat, e: nat)
    requires Nests(c, d, e)
    ensures Nests(c, d + 1, e + 1)
  {
    if c != [] {
      NestsShift(c[1..], d + c[0].left - c[0].right, e);
    }
  }
}
