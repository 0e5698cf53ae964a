/** A node's own time: its total less what its children took, never below zero. */
module SelfTimes {
  import opened Wrappers
  import opened Plans

  function ValueOr(t: Option<real>, d: real): real {
    if t.Some? then t.value else d
  }

  function Max(a: real, b: real): real {
    if a >= b then a else b
  }

  function Totals(f: seq<PlanNode>): real {
    if f == [] then 0.0 else ValueOr(f[0].info.total, 0.0) + Totals(f[1..])
  }

  /** The node with the self times of its whole subtree filled in. */
  function Filled(node: PlanNode): PlanNode
    decreases node, 0
  {
    PlanNode(node.info,
             if node.info.total.Some? then Some(Max(0.0, node.info.total.value - Totals(node.children))) else node.self,
             FilledAll(node.children))
  }

  function FilledAll(f: seq<PlanNode>): (g: seq<PlanNode>)
    ensures |g| == |f|
    decreases f, 1
  {
    if f == [] then [] else [Filled(f[0])] + FilledAll(f[1..])
  }

  lemma {:induction false} TotalsSnoc(f: seq<PlanNode>, node: PlanNode)
    ensures Totals(f + [node]) == Totals(f) + ValueOr(node.info.total, 0.0)
  {
    if f == [] {
      assert f + [node] == [node];
    } else {
      assert (f + [node])[1..] == f[1..] + [node];
      TotalsSnoc(f[1..], node);
    }
  }

  lemma {:induction false} FilledSnoc(f: seq<PlanNode>, node: PlanNode)
    ensures FilledAll(f + [node]) == FilledAll(f) + [Filled(node)]
  {
    if f == [] {
      assert f + [node] == [node];
    } else {
      assert (f + [node])[1..] == f[1..] + [node];
      FilledSnoc(f[1..], node);
    }
  }

  /** Children first: their totals are those reported, whatever was filled in. */
  method FillSelfTimes(node: PlanNode) returns (r: PlanNode)
    ensures r == Filled(node)
    decreases node
  {
    hide Filled;
    var childTotal := 0.0;
    var children: seq<PlanNode> := [];
    assert node.children[..0] == [];
    for i := 0 to |node.children|
      invariant children == FilledAll(node.children[..i])
      invariant childTotal == Totals(node.children[..i])
    {
      assert node.children[..i + 1] == node.children[..i] + [node.children[i]];
      FilledSnoc(node.children[..i], node.children[i]);
      TotalsSnoc(node.children[..i], node.children[i]);
      var child := FillSelfTimes(node.children[i]);
      FilledKeepsTotal(node.children[i]);
      children := children + [child];
      childTotal := childTotal + ValueOr(child.info.total, 0.0);
    }
    assert node.children[..|node.children|] == node.children;
    r := node.(children := children);
    if node.info.total.Some? {
      r := r.(self := Some(Max(0.0, node.info.total.value - childTotal)));
    }
    FilledMeans(node);
  }

  lemma FilledKeepsTotal(node: PlanNode)
    ensures Filled(node).info == node.info
  {
  }

  lemma FilledMeans(node: PlanNode)
    ensures Filled(node) == PlanNode(node.info,
              if node.info.total.Some? then Some(Max(0.0, node.info.total.value - Totals(node.children)))
                else node.self,
              FilledAll(node.children))
  {
  }

  /** `g` is `f` with own times: what a timed node's children left of its total, and 0 if they took more. */
  predicate OwnTimes(f: seq<PlanNode>, g: seq<PlanNode>) {
    |f| == |g| && forall i :: 0 <= i < |f| ==> OwnTime(f[i], g[i]) && OwnTimes(f[i].children, g[i].children)
  }

  predicate OwnTime(n: PlanNode, m: PlanNode) {
    && m.info == n.info
    && (n.info.total.None? ==> m.self == n.self)
    && (n.info.total.Some? ==>
          var kids := Totals(n.children);
          && m.self.Some?
          && (kids <= n.info.total.value ==> m.self.value + kids == n.info.total.value)
          && (kids > n.info.total.value ==> m.self.value == 0.0))
  }

  lemma {:induction false} FilledAt(f: seq<PlanNode>, i: nat)
    requires i < |f|
    ensures FilledAll(f)[i] == Filled(f[i])
    decreases f
  {
    if i > 0 {
      FilledAt(f[1..], i - 1);
    }
  }

  /** Own times are what is filled in, and nothing else is. */
  lemma {:induction false} FilledExactly(f: seq<PlanNode>, g: seq<PlanNode>)
    ensures OwnTimes(f, g) <==> g == FilledAll(f)
    decreases f
  {
    if |f| == |g| {
      forall i | 0 <= i < |f|
        ensures FilledAll(f)[i] == g[i] <==> OwnTime(f[i], g[i]) && OwnTimes(f[i].children, g[i].children)
      {
        FilledAt(f, i);
        FilledMeans(f[i]);
        FilledExactly(f[i].children, g[i].children);
        hide Filled, FilledAll, OwnTimes;
      }
    }
  }

  // ---------- conservation ----------

  /** The self times of a forest, summed. */
  function SelfSum(f: seq<PlanNode>): real {
    if f == [] then 0.0 else ValueOr(f[0].self, 0.0) + SelfSum(f[0].children) + SelfSum(f[1..])
  }

  predicate SelfNonNegative(f: seq<PlanNode>) {
    f == [] || (ValueOr(f[0].self, 0.0) >= 0.0 && SelfNonNegative(f[0].children) && SelfNonNegative(f[1..]))
  }

  /** No node's children took more than it did, an untimed one counting as zero. */
  predicate Consistent(f: seq<PlanNode>) {
    f == [] ||
    (Totals(f[0].children) <= ValueOr(f[0].info.total, 0.0) && Consistent(f[0].children) && Consistent(f[1..]))
  }

  predicate TotalsNonNegative(f: seq<PlanNode>) {
    f == [] || (ValueOr(f[0].info.total, 0.0) >= 0.0 && TotalsNonNegative(f[0].children) && TotalsNonNegative(f[1..]))
  }

  lemma {:induction false} FilledIsNonNegative(f: seq<PlanNode>)
    requires Unfilled(f)
    ensures SelfNonNegative(FilledAll(f)) && SelfSum(FilledAll(f)) >= 0.0
    decreases f
  {
    if f != [] {
      FilledIsNonNegative(f[0].children);
      FilledIsNonNegative(f[1..]);
      assert FilledAll(f)[1..] == FilledAll(f[1..]);
    }
  }

  /** Time is never lost: the self times of a forest add up to at least the totals of its top nodes. */
  lemma {:induction false} SelfTimesCover(f: seq<PlanNode>)
    requires Unfilled(f)
    ensures SelfSum(FilledAll(f)) >= Totals(f)
    decreases f
  {
    if f != [] {
      SelfTimesCover(f[0].children);
      SelfTimesCover(f[1..]);
      FilledIsNonNegative(f[0].children);
      assert FilledAll(f)[1..] == FilledAll(f[1..]);
    }
  }

  /** And they add up exactly when no node's children took more than it did. */
  lemma {:induction false} SelfTimesConserve(f: seq<PlanNode>)
    requires Unfilled(f) && TotalsNonNegative(f)
    ensures SelfSum(FilledAll(f)) == Totals(f) <==> Consistent(f)
    decreases f
  {
    if f != [] {
      SelfTimesCover(f[0].children);
      SelfTimesCover(f[1..]);
      SelfTimesConserve(f[0].children);
      SelfTimesConserve(f[1..]);
      FilledIsNonNegative(f[0].children);
      TotalsOfNonNegative(f[0].children);
      assert FilledAll(f)[1..] == FilledAll(f[1..]);
    }
  }

  lemma {:induction false} TotalsOfNonNegative(f: seq<PlanNode>)
    requires TotalsNonNegative(f)
    ensures Totals(f) >= 0.0
  {
    if f != [] {
      TotalsOfNonNegative(f[1..]);
    }
  }
}
