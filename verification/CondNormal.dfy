/** What the optimizer of alsa/utils/mod-deps.c leaves: the form of its results, in terms of
    names, marks, brackets and connectors alone. */
module CondNormal {
  import opened CondChain
  import opened CondOptimize
  import opened CondBuild

  // ----- What no result contains -----

  /** The atom at `i` has brackets on one side at most; and if it is always true, or always
      false and negated, it neither stands plainly between ANDs or ends, nor closes one bracket
      behind an AND, nor opens one in front of an AND. */
  predicate Reduced(d: seq<Cond>, i: nat)
    requires i < |d|
  {
    var a := d[i];
    && (a.left == 0 || a.right == 0)
    && (a.mark == AlwaysTrue || (a.mark == AlwaysFalse && a.negated) ==>
          && !(a.left == 0 && a.right == 0 && (i + 1 == |d| || a.conn == And) && (i == 0 || d[i - 1].conn == And))
          && !(a.left == 0 && a.right == 1 && i > 0 && d[i - 1].conn == And)
          && !(a.left == 1 && a.right == 0 && a.conn == And))
  }

  /** Everything in front of `i` is reduced. */
  predicate ReducedTo(d: seq<Cond>, i: nat)
    requires i <= |d|
  {
    forall j | 0 <= j < i :: Reduced(d, j)
  }

  lemma StaysReduced(c: seq<Cond>, i: nat)
    requires i < |c| && ReducedTo(c, i) && Which(Normalized(c, i), i) == NoRule
    ensures ReducedTo(Normalized(c, i), i + 1)
  {
    var c1 := Normalized(c, i);
    assert Reduced(c1, i);
    forall j | 0 <= j < i
      ensures Reduced(c1, j)
    {
      assert Reduced(c, j) && c1[j] == c[j];
    }
  }

  /** In every result every atom is reduced. */
  lemma {:induction false} ResultReduced(c: seq<Cond>, i: nat)
    requires i <= |c| && ReducedTo(c, i) && Optimize(c, i).Done?
    ensures var d := Optimize(c, i).chain; ReducedTo(d, |d|)
    decreases |c|, |c| - i
  {
    if i < |c| {
      var c1 := Normalized(c, i);
      var r := Which(c1, i);
      if r == NoRule {
        OptimizeStep(c, i, c1, i + 1);
        StaysReduced(c, i);
        ResultReduced(c1, i + 1);
      } else {
        OptimizeStep(c, i, Remove(c1, i, r), 0);
        ResultReduced(Remove(c1, i, r), 0);
      }
    }
  }

  // ----- Duplicates that stay -----

  /** Two neighbours of one name, both plain or the two ends of one bracket. */
  predicate Twins(a: Cond, b: Cond) {
    && a.name == b.name
    && ((a.left == a.right == 0 && b.left == b.right == 0) || (a.left == b.right == 1 && a.right == b.left == 0))
  }

  /** The atom without the brackets it has on both sides. */
  function Cancelled(a: Cond): Cond {
    var k := if a.left < a.right then a.left else a.right;
    a.(left := a.left - k, right := a.right - k)
  }

  /** The chain as the scan that removes nothing any more finds it: the input, or what the last
      removal left. */
  function LastScan(c: seq<Cond>, i: nat, entered: seq<Cond>): seq<Cond>
    requires i <= |c|
    decreases |c|, |c| - i
  {
    if i == |c| then entered
    else
      var c1 := Normalized(c, i);
      match Which(c1, i)
      case NoRule => LastScan(c1, i + 1, entered)
      case Fatal => entered
      case r => LastScan(Remove(c1, i, r), 0, Remove(c1, i, r))
  }

  /** `c` is `entered` with the brackets of its first `i` atoms cancelled, and none of these was
      a twin of the next one as that was when it was looked at. */
  predicate Scanned(c: seq<Cond>, i: nat, entered: seq<Cond>) {
    && |c| == |entered| && i <= |c|
    && (forall j | 0 <= j < |c| :: c[j] == if j < i then Cancelled(entered[j]) else entered[j])
    && (forall j | 0 <= j < i && j + 1 < |c| :: !Twins(Cancelled(entered[j]), entered[j + 1]))
  }

  lemma ScanOn(c: seq<Cond>, i: nat, entered: seq<Cond>)
    requires i < |c| && Scanned(c, i, entered) && Which(Normalized(c, i), i) == NoRule
    ensures Scanned(Normalized(c, i), i + 1, entered)
  {
    assert Normalize(entered[i]) == Cancelled(entered[i]);
  }

  lemma {:induction false} ResultScanned(c: seq<Cond>, i: nat, entered: seq<Cond>)
    requires Scanned(c, i, entered) && Optimize(c, i).Done?
    ensures var d := Optimize(c, i).chain; Scanned(d, |d|, LastScan(c, i, entered))
    decreases |c|, |c| - i
  {
    if i < |c| {
      var c1 := Normalized(c, i);
      var r := Which(c1, i);
      if r == NoRule {
        OptimizeStep(c, i, c1, i + 1);
        ScanOn(c, i, entered);
        ResultScanned(c1, i + 1, entered);
      } else {
        var c2 := Remove(c1, i, r);
        OptimizeStep(c, i, c2, 0);
        ResultScanned(c2, 0, c2);
      }
    }
  }

  /** The form of the result. Its atoms are those the last scan found, without the brackets on
      both sides, and reduced. Twins stay exactly where the second one still had brackets on
      both sides when that scan came to the first. */
  lemma NormalForm(c: seq<Cond>)
    requires Optimize(c, 0).Done?
    ensures var d, f := Optimize(c, 0).chain, LastScan(c, 0, c);
            && |d| == |f| && (forall i | 0 <= i < |d| :: d[i] == Cancelled(f[i]) && Reduced(d, i))
            && forall i | 0 <= i < |d| - 1 ::
                 Twins(d[i], d[i + 1]) <==>
                 Twins(Cancelled(f[i]), Cancelled(f[i + 1])) && f[i + 1].left > 0 && f[i + 1].right > 0
  {
    ResultReduced(c, 0);
    ResultScanned(c, 0, c);
    var d, f := Optimize(c, 0).chain, LastScan(c, 0, c);
    forall i | 0 <= i < |d| - 1
      ensures Twins(d[i], d[i + 1]) ==> f[i + 1].left > 0 && f[i + 1].right > 0
    {
      if f[i + 1].left == 0 || f[i + 1].right == 0 {
        assert Cancelled(f[i + 1]) == f[i + 1];
      }
    }
  }

  /** A condition joined to itself: the second atom has a bracket of its own when the first is
      looked at, so that neither is dropped. */
  lemma TwinsStay(a: Cond)
    requires a.left == a.right == 0 && a.conn == And && !TakenAsTrue(a)
    ensures Join([a], [a]) == [a, a.(left := 1, right := 1)]
    ensures Optimize(Join([a], [a]), 0) == Done([a, a]) && Twins(a, a)
  {
    var b := a.(left := 1, right := 1);
    assert Bracket([a]) == [b];
    assert Join([a], [a]) == [a, b];
    assert Normalized([a, b], 0) == [a, b] && Normalized([a, b], 1) == [a, a];
    OptimizeStep([a, b], 0, [a, b], 1);
    OptimizeStep([a, b], 1, [a, a], 2);
  }
}
