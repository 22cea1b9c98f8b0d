/** Condition chains as linked nodes: alsa/utils/mod-deps.c joins, copies and
    prunes them in place. Each method is proved against the chain functions. */
module CondHeap {
  import opened CondChain
  import opened CondBuild
  import opened CondOptimize
  import opened CondNormal

  class CondNode {
    var name: string
    var mark: Mark
    var left: nat
    var right: nat
    var negated: bool
    var conn: Connector
    var next: CondNode?
    var stackPrev: CondNode?

    constructor (a: Cond)
      ensures Val() == a && next == null && stackPrev == null
    {
      name, mark, left, right, negated, conn := a.name, a.mark, a.left, a.right, a.negated, a.conn;
      next, stackPrev := null, null;
    }

    function Val(): Cond
      reads this
    {
      Cond(name, mark, left, right, negated, conn)
    }
  }

  ghost predicate Distinct(nodes: seq<CondNode>) {
    forall i, j {:trigger nodes[i], nodes[j]} | 0 <= i < j < |nodes| :: nodes[i] != nodes[j]
  }

  ghost predicate Apart(n1: seq<CondNode>, n2: seq<CondNode>) {
    forall i, j {:trigger n1[i], n2[j]} | 0 <= i < |n1| && 0 <= j < |n2| :: n1[i] != n2[j]
  }

  /** The first of `nodes`, or `end` when there are none. */
  function First(nodes: seq<CondNode>, end: CondNode?): CondNode? {
    if nodes == [] then end else nodes[0]
  }

  /** The last of `nodes`, or null. */
  function Last(nodes: seq<CondNode>): CondNode? {
    if nodes == [] then null else nodes[|nodes| - 1]
  }

  /** Each node's `next` is the following one, and the last one's is `end`. */
  ghost predicate Linked(nodes: seq<CondNode>, end: CondNode?)
    reads nodes
  {
    && Distinct(nodes)
    && forall i {:trigger nodes[i].next} | 0 <= i < |nodes| ::
         nodes[i].next == if i + 1 < |nodes| then nodes[i + 1] else end
  }

  /** `nodes` are the nodes met by following `next` from `first` to the end. */
  ghost predicate IsChain(first: CondNode?, nodes: seq<CondNode>)
    reads nodes
  {
    Linked(nodes, null) && first == First(nodes, null)
  }

  ghost function Vals(nodes: seq<CondNode>): (c: seq<Cond>)
    reads nodes
    ensures |c| == |nodes| && forall i | 0 <= i < |c| :: c[i] == nodes[i].Val()
  {
    seq(|nodes|, i requires 0 <= i < |nodes| reads nodes => nodes[i].Val())
  }

  lemma LinkedAppend(n1: seq<CondNode>, n2: seq<CondNode>, end: CondNode?)
    requires Linked(n1, First(n2, end)) && Linked(n2, end) && Apart(n1, n2)
    ensures Linked(n1 + n2, end) && First(n1 + n2, end) == First(n1, First(n2, end))
  {
    var n := n1 + n2;
    forall i | 0 <= i < |n|
      ensures n[i].next == if i + 1 < |n| then n[i + 1] else end
    {
      if i < |n1| {
        assert n[i] == n1[i];
      } else {
        assert n[i] == n2[i - |n1|];
      }
    }
  }

  lemma ValsAppend(n1: seq<CondNode>, n2: seq<CondNode>)
    ensures Vals(n1 + n2) == Vals(n1) + Vals(n2)
  {
  }

  /** With the link around it set, a chain stays linked without its `i`-th node. */
  lemma LinkedWithout(all: seq<CondNode>, i: nat, end: CondNode?)
    requires i < |all| && Distinct(all)
    requires forall k {:trigger all[k].next} | 0 <= k < |all| && k != i ::
               all[k].next == var j := if k + 1 == i then i + 1 else k + 1; if j < |all| then all[j] else end
    ensures Linked(all[..i] + all[i + 1..], end)
  {
    var n := all[..i] + all[i + 1..];
    assert forall k | 0 <= k < |n| :: n[k] == all[if k < i then k else k + 1];
  }

  lemma ValsWithout(all: seq<CondNode>, i: nat)
    requires i < |all|
    ensures Vals(all[..i] + all[i + 1..]) == Vals(all)[..i] + Vals(all)[i + 1..]
  {
  }

  // ----- Single writes to one node of a chain -----

  method SetNext(node: CondNode, next: CondNode?, ghost nodes: seq<CondNode>, ghost end: CondNode?)
    requires node == Last(nodes) && Linked(nodes, end)
    modifies node
    ensures Linked(nodes, next) && Vals(nodes) == old(Vals(nodes))
  {
    node.next := next;
  }

  method SetVal(node: CondNode, a: Cond, ghost nodes: seq<CondNode>, ghost k: nat, ghost end: CondNode?)
    requires k < |nodes| && node == nodes[k] && Linked(nodes, end)
    modifies node
    ensures Linked(nodes, end) && Vals(nodes) == old(Vals(nodes))[k := a]
  {
    node.name, node.mark, node.negated, node.conn := a.name, a.mark, a.negated, a.conn;
    node.left, node.right := a.left, a.right;
  }

  method LastNode(first: CondNode, ghost nodes: seq<CondNode>) returns (last: CondNode)
    requires IsChain(first, nodes)
    ensures last == Last(nodes)
  {
    last := first;
    ghost var i := 0;
    while last.next != null
      invariant 0 <= i < |nodes| && last == nodes[i]
      decreases |nodes| - i
    {
      last := last.next;
      i := i + 1;
    }
  }

  method BracketInPlace(first: CondNode, ghost nodes: seq<CondNode>)
    requires IsChain(first, nodes)
    modifies nodes
    ensures IsChain(first, nodes) && Vals(nodes) == Bracket(old(Vals(nodes)))
  {
    SetVal(first, first.Val().(left := first.left + 1), nodes, 0, null);
    var last := LastNode(first, nodes);
    SetVal(last, last.Val().(right := last.right + 1), nodes, |nodes| - 1, null);
  }

  method EndInAnd(first: CondNode, ghost nodes: seq<CondNode>)
    requires IsChain(first, nodes)
    modifies nodes
    ensures IsChain(first, nodes) && Vals(nodes) == WithConn(old(Vals(nodes)), And)
  {
    var last := LastNode(first, nodes);
    SetVal(last, last.Val().(conn := And), nodes, |nodes| - 1, null);
  }

  /** Hangs the chain `copied` behind the chain `head`. */
  method Attach(head: CondNode?, ghost copy: seq<CondNode>, copied: CondNode?, ghost added: seq<CondNode>)
    returns (result: CondNode?)
    requires IsChain(head, copy) && IsChain(copied, added) && Apart(copy, added)
    modifies copy
    ensures IsChain(result, copy + added)
    ensures Vals(copy + added) == old(Vals(copy)) + old(Vals(added))
  {
    if head == null {
      result := copied;
      assert copy + added == added;
    } else {
      result := head;
      var last := LastNode(head, copy);
      SetNext(last, copied, copy, null);
      LinkedAppend(copy, added, null);
      ValsAppend(copy, added);
    }
  }

  /** Appends a fresh copy of the atom `a` behind `last`. */
  method Extend(first: CondNode, last: CondNode, a: Cond, ghost nodes: seq<CondNode>) returns (tmp: CondNode)
    requires IsChain(first, nodes) && last == Last(nodes)
    modifies last
    ensures fresh(tmp) && IsChain(first, nodes + [tmp]) && Vals(nodes + [tmp]) == old(Vals(nodes)) + [a]
  {
    tmp := new CondNode(a);
    SetNext(last, tmp, nodes, null);
    LinkedAppend(nodes, [tmp], null);
    ValsAppend(nodes, [tmp]);
  }

  // ----- join_cond -----

  method JoinCond(cond1: CondNode?, cond2: CondNode?, ghost n1: seq<CondNode>, ghost n2: seq<CondNode>)
    returns (result: CondNode?)
    requires IsChain(cond1, n1) && IsChain(cond2, n2) && Apart(n1, n2)
    modifies n1, n2
    ensures IsChain(result, n1 + n2)
    ensures Vals(n1 + n2) == Join(old(Vals(n1)), old(Vals(n2)))
  {
    if cond1 == null {
      assert n1 + n2 == n2;
      return cond2;
    }
    if cond2 == null {
      assert n1 + n2 == n1;
      return cond1;
    }
    BracketInPlace(cond2, n2);
    result := Attach(cond1, n1, cond2, n2);
  }

  // ----- duplicate_cond -----

  /** The template stack: `levels[0]` is the chain of `top`, the outer levels
      follow through `stackPrev`; all nodes lie in `fp`. */
  ghost predicate IsTemplate(top: CondNode?, levels: seq<seq<CondNode>>, fp: set<CondNode>)
    reads fp
  {
    if levels == [] then top == null
    else
      && levels[0] != []
      && (forall i | 0 <= i < |levels[0]| :: levels[0][i] in fp)
      && IsChain(top, levels[0])
      && IsTemplate(levels[0][0].stackPrev, levels[1..], fp)
  }

  ghost function LevelVals(top: CondNode?, levels: seq<seq<CondNode>>, fp: set<CondNode>): (r: seq<seq<Cond>>)
    requires IsTemplate(top, levels, fp)
    reads fp
    ensures |r| == |levels| && IsStack(r)
  {
    if levels == [] then []
    else [Vals(levels[0])] + LevelVals(levels[0][0].stackPrev, levels[1..], fp)
  }

  /** Copies the stack into a fresh chain and writes to nothing that existed before. */
  method DuplicateCond(cond: CondNode?, ghost levels: seq<seq<CondNode>>, ghost fp: set<CondNode>)
    returns (result: CondNode?, ghost copy: seq<CondNode>)
    requires IsTemplate(cond, levels, fp)
    ensures fresh(copy) && IsChain(result, copy)
    ensures Vals(copy) == Duplicate(old(LevelVals(cond, levels, fp)))
    decreases |levels|, 0
  {
    result, copy := null, [];
    if cond == null {
      return;
    }
    ghost var below := LevelVals(cond.stackPrev, levels[1..], fp);
    assert LevelVals(cond, levels, fp)[1..] == below;
    assert Duplicate(LevelVals(cond, levels, fp)) == AddLevel(Duplicate(below), Vals(levels[0]));
    result, copy := DuplicateOuter(cond.stackPrev, levels[1..], fp);
    if cond.name == "EMPTY" {
      return;
    }
    result, copy := AppendLevel(result, copy, cond, levels[0]);
  }

  /** The copy of the outer levels, ending in the connector to the next one. */
  method DuplicateOuter(below: CondNode?, ghost levels: seq<seq<CondNode>>, ghost fp: set<CondNode>)
    returns (result: CondNode?, ghost copy: seq<CondNode>)
    requires IsTemplate(below, levels, fp)
    ensures fresh(copy) && IsChain(result, copy)
    ensures Vals(copy) == AndNext(Duplicate(old(LevelVals(below, levels, fp))))
    decreases |levels|, 1
  {
    result, copy := null, [];
    if below != null {
      result, copy := DuplicateCond(below, levels, fp);
      if result != null {
        EndInAnd(result, copy);
      }
    }
  }

  /** Half-way through copying `nodes`: `added` copies the first of them, and `node` is the next. */
  ghost predicate Copying(
    nodes: seq<CondNode>, first: CondNode, prev: CondNode, node: CondNode?, added: seq<CondNode>, v: seq<Cond>)
    reads added
  {
    && |v| == |nodes| && 1 <= |added| <= |nodes|
    && node == (if |added| < |nodes| then nodes[|added|] else null)
    && IsChain(first, added) && prev == Last(added) && Vals(added) == v[..|added|]
  }

  method CopyNext(
    node: CondNode, first: CondNode, prev: CondNode,
    ghost nodes: seq<CondNode>, ghost added: seq<CondNode>, ghost v: seq<Cond>)
    returns (tmp: CondNode, next: CondNode?)
    requires Copying(nodes, first, prev, node, added, v) && Linked(nodes, null) && Vals(nodes) == v
    requires forall k | 0 <= k < |nodes| :: nodes[k] != prev
    modifies prev
    ensures Linked(nodes, null) && Vals(nodes) == v
    ensures fresh(tmp) && next == old(node.next) && Copying(nodes, first, tmp, next, added + [tmp], v)
  {
    next := node.next;
    assert node == nodes[|added|] && node.Val() == v[|added|];
    tmp := Extend(first, prev, node.Val(), added);
  }

  /** A fresh copy of one level. */
  method CopyLevel(cond: CondNode, ghost nodes: seq<CondNode>) returns (first: CondNode, ghost added: seq<CondNode>)
    requires IsChain(cond, nodes)
    ensures fresh(added) && IsChain(first, added) && Vals(added) == old(Vals(nodes))
  {
    ghost var v := Vals(nodes);
    first := new CondNode(cond.Val());
    added := [first];
    var prev := first;
    var node := cond.next;
    while node != null
      invariant forall k | 0 <= k < |added| :: fresh(added[k])
      invariant Copying(nodes, first, prev, node, added, v) && Linked(nodes, null) && Vals(nodes) == v
      decreases |nodes| - |added|
    {
      prev, node := CopyNext(node, first, prev, nodes, added, v);
      added := added + [prev];
    }
  }

  method AppendLevel(head: CondNode?, ghost copy: seq<CondNode>, cond: CondNode, ghost nodes: seq<CondNode>)
    returns (result: CondNode?, ghost copy': seq<CondNode>)
    requires IsChain(head, copy) && IsChain(cond, nodes)
    modifies copy
    ensures IsChain(result, copy') && Vals(copy') == old(Vals(copy)) + Bracket(old(Vals(nodes)))
    ensures fresh(set n | n in copy' && n !in copy)
  {
    var copied;
    ghost var added;
    copied, added := CopyLevel(cond, nodes);
    BracketInPlace(copied, added);
    result := Attach(head, copy, copied, added);
    copy' := copy + added;
  }

  // ----- Deps -----

  /** The part of a `struct dep` that the condition code works on. */
  class Dep {
    var cond: CondNode?
    ghost var nodes: seq<CondNode>

    ghost predicate Valid()
      reads this, nodes
    {
      IsChain(cond, nodes)
    }

    ghost function Chain(): seq<Cond>
      reads this, nodes
    {
      Vals(nodes)
    }

    constructor ()
      ensures Valid() && nodes == [] && Chain() == []
    {
      cond, nodes := null, [];
    }

    /** `add_dep`: the parsed condition `line`, a chain of nodes of its own, is taken over. */
    method AddDep(line: CondNode?, ghost lineNodes: seq<CondNode>)
      requires Valid() && IsChain(line, lineNodes) && Apart(nodes, lineNodes)
      modifies this, nodes, lineNodes
      ensures Valid() && nodes == old(nodes) + lineNodes
      ensures Chain() == Join(old(Chain()), old(Vals(lineNodes)))
    {
      cond := JoinCond(cond, line, nodes, lineNodes);
      nodes := nodes + lineNodes;
    }

    /** `add_template`: a fresh copy of the menu stack is joined to the condition. */
    method AddTemplate(template: CondNode?, ghost levels: seq<seq<CondNode>>, ghost fp: set<CondNode>)
      requires Valid() && IsTemplate(template, levels, fp) && forall n <- nodes :: n !in fp
      modifies this, nodes
      ensures Valid() && fresh(set n | n in nodes && n !in old(nodes))
      ensures Chain() == Join(old(Chain()), Duplicate(old(LevelVals(template, levels, fp))))
      ensures IsTemplate(template, levels, fp)
      ensures LevelVals(template, levels, fp) == old(LevelVals(template, levels, fp))
    {
      var copied;
      ghost var copy;
      copied, copy := DuplicateCond(template, levels, fp);
      AddDep(copied, copy);
    }

    /** Cancels brackets on one node in place. */
    method NormalizeNode(node: CondNode, ghost i: nat)
      requires Valid() && i < |nodes| && node == nodes[i]
      modifies node
      ensures Valid() && Chain() == Normalized(old(Chain()), i)
    {
      var a := node.Val();
      assert a == Chain()[i];
      var left, right := 0, 0;
      if node.left > node.right {
        left := node.left - node.right;
      } else {
        right := node.right - node.left;
      }
      SetVal(node, a.(left := left, right := right), nodes, i, null);
    }

    /** Finds the rule that fits `node`, and moves the bracket the rule moves. */
    method Inspect(prev: CondNode?, node: CondNode, ghost i: nat) returns (r: Rule)
      requires Valid() && i < |nodes| && node == nodes[i] && prev == (if i == 0 then null else nodes[i - 1])
      modifies nodes
      ensures Valid() && r == Which(old(Chain()), i) && Chain() == Adjust(old(Chain()), i, r)
    {
      var next := node.next;
      assert next == if i + 1 < |nodes| then nodes[i + 1] else null;
      if next != null && node.name == next.name {
        if node.left == node.right && next.left == next.right && node.left == next.right {
          return DupTerm;
        }
        if node.left == node.right + 1 && next.left + 1 == next.right && node.left == next.right {
          SetVal(next, next.Val().(right := next.right - 1), nodes, i + 1, null);
          return DupGroup;
        }
      }
      if !TakenAsTrue(node.Val()) {
        return NoRule;
      }
      r := InspectTrue(prev, node, next, i);
    }

    /** The branches for an atom taken as true. */
    method InspectTrue(prev: CondNode?, node: CondNode, next: CondNode?, ghost i: nat) returns (r: Rule)
      requires Valid() && i < |nodes| && node == nodes[i] && prev == (if i == 0 then null else nodes[i - 1])
      requires next == (if i + 1 < |nodes| then nodes[i + 1] else null)
      requires TakenAsTrue(Chain()[i]) && !Which(Chain(), i).DupTerm? && !Which(Chain(), i).DupGroup?
      modifies nodes
      ensures Valid() && r == Which(old(Chain()), i) && Chain() == Adjust(old(Chain()), i, r)
    {
      ghost var c := Chain();
      assert node.Val() == c[i] && (next != null ==> next.Val() == c[i + 1]);
      assert prev != null ==> prev.Val() == c[i - 1];
      if node.left == node.right && (next == null || node.conn == And) && (prev == null || prev.conn == And) {
        assert Which(c, i) == TrueTerm;
        return TrueTerm;
      } else if node.left + 1 == node.right && prev != null && prev.conn == And {
        CloseAtPrev(prev, i);
        return TrueClose;
      } else if node.left == node.right + 1 && node.conn == And {
        if next == null {
          return Fatal;
        }
        OpenAtNext(next, i);
        return TrueOpen;
      }
      assert Which(c, i) == NoRule;
      return NoRule;
    }

    /** Hands the bracket of the atom at `i` to its predecessor... */
    method CloseAtPrev(prev: CondNode, ghost i: nat)
      requires Valid() && 0 < i < |nodes| && prev == nodes[i - 1] && Which(Chain(), i) == TrueClose
      modifies prev
      ensures Valid() && Chain() == Adjust(old(Chain()), i, TrueClose)
    {
      SetVal(prev, prev.Val().(right := prev.right + 1), nodes, i - 1, null);
    }

    /** ...or to its successor. */
    method OpenAtNext(next: CondNode, ghost i: nat)
      requires Valid() && i + 1 < |nodes| && next == nodes[i + 1] && Which(Chain(), i) == TrueOpen
      modifies next
      ensures Valid() && Chain() == Adjust(old(Chain()), i, TrueOpen)
    {
      SetVal(next, next.Val().(left := next.left + 1), nodes, i + 1, null);
    }

    /** Takes `node` out of the list. */
    method Unlink(prev: CondNode?, node: CondNode, ghost i: nat)
      requires Valid() && i < |nodes| && node == nodes[i] && prev == (if i == 0 then null else nodes[i - 1])
      modifies this, prev
      ensures Valid() && nodes == old(nodes)[..i] + old(nodes)[i + 1..]
      ensures Chain() == old(Chain())[..i] + old(Chain())[i + 1..]
    {
      if prev == null {
        cond := node.next;
      } else {
        prev.next := node.next;
      }
      ghost var all := nodes;
      nodes := all[..i] + all[i + 1..];
      LinkedWithout(all, i, null);
      ValsWithout(all, i);
    }

    /** Applies the rule that fits `node`, if any. */
    method Prune(prev: CondNode?, node: CondNode, ghost i: nat) returns (r: Rule)
      requires Valid() && i < |nodes| && node == nodes[i] && prev == (if i == 0 then null else nodes[i - 1])
      modifies this, nodes
      ensures r == Which(old(Chain()), i) && Valid()
      ensures forall k | 0 <= k < |nodes| :: nodes[k] in old(nodes)
      ensures r == NoRule || r == Fatal ==> nodes == old(nodes) && Chain() == old(Chain())
      ensures r != NoRule && r != Fatal ==> |nodes| < |old(nodes)| && Chain() == Remove(old(Chain()), i, r)
    {
      r := Inspect(prev, node, i);
      if r != NoRule && r != Fatal {
        assert Chain() == Adjust(old(Chain()), i, r);
        Unlink(prev, node, i);
      }
    }

    /** The scan cursor: `node` is the `i`-th node and `prev` the one before it. */
    ghost predicate Cursor(prev: CondNode?, node: CondNode?, i: nat)
      reads this
    {
      && i <= |nodes|
      && node == (if i < |nodes| then nodes[i] else null)
      && prev == (if i == 0 then null else nodes[i - 1])
    }

    /** One turn of the scan: on to the next node, or back to the front after a removal. */
    method ScanStep(prev: CondNode?, node: CondNode, ghost i: nat)
      returns (r: Rule, prev': CondNode?, node': CondNode?, ghost i': nat)
      requires Valid() && i < |nodes| && Cursor(prev, node, i)
      modifies this, nodes
      ensures r == Which(Normalized(old(Chain()), i), i)
      ensures r != Fatal ==> Valid() && Cursor(prev', node', i')
      ensures r == NoRule ==> i' == i + 1 && Chain() == Normalized(old(Chain()), i)
      ensures r != NoRule && r != Fatal ==> i' == 0 && Chain() == Remove(Normalized(old(Chain()), i), i, r)
      ensures forall k | 0 <= k < |nodes| :: nodes[k] in old(nodes)
    {
      prev', node', i' := prev, node, i;
      NormalizeNode(node, i);
      r := Prune(prev, node, i);
      if r == NoRule {
        prev', node', i' := node, node.next, i + 1;
      } else if r != Fatal {
        prev', node', i' := null, cond, 0;
      }
    }

    /** The same turn, seen as a step of the whole optimization. */
    method ScanTurn(prev: CondNode?, node: CondNode, ghost i: nat)
      returns (stop: bool, prev': CondNode?, node': CondNode?, ghost i': nat)
      requires Valid() && i < |nodes| && Cursor(prev, node, i)
      modifies this, nodes
      ensures stop ==> Optimize(old(Chain()), i) == Exit
      ensures !stop ==> Valid() && Cursor(prev', node', i') && Optimize(Chain(), i') == Optimize(old(Chain()), i)
      ensures !stop ==> |nodes| < |old(nodes)| || (|nodes| == |old(nodes)| && i' == i + 1)
      ensures forall k | 0 <= k < |nodes| :: nodes[k] in old(nodes)
    {
      ghost var c := Chain();
      var r;
      r, prev', node', i' := ScanStep(prev, node, i);
      OptimizeStep(c, i, Chain(), i');
      stop := r == Fatal;
    }

    /** `optimize_dep` on this dep: the list is scanned from the front again after
        every removal. False is the error exit. */
    method OptimizeDep() returns (ok: bool)
      requires Valid()
      modifies this, nodes
      ensures ok == Optimize(old(Chain()), 0).Done?
      ensures ok ==> Valid() && Chain() == Optimize(old(Chain()), 0).chain
      ensures ok ==> forall i | 0 <= i < |Chain()| :: Reduced(Chain(), i)
      ensures ok ==> forall k | 0 <= k < |nodes| :: nodes[k] in old(nodes)
    {
      var prev: CondNode? := null;
      var node := cond;
      ghost var i := 0;
      while node != null
        invariant Valid() && Cursor(prev, node, i)
        invariant forall k | 0 <= k < |nodes| :: nodes[k] in old(nodes)
        invariant Optimize(Chain(), i) == Optimize(old(Chain()), 0)
        decreases |nodes|, |nodes| - i
      {
        var stop;
        stop, prev, node, i := ScanTurn(prev, node, i);
        if stop {
          return false;
        }
      }
      ok := true;
      NormalForm(old(Chain()));
    }
  }
}
