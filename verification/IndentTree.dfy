/** From an indented plan text to a tree: the stack of rightmost nodes. */
module IndentTree {
  import opened Wrappers
  import opened Plans

  /** One plan line: its indentation and its node. */
  datatype Line = Line(depth: nat, info: Info)

  // ---------- the tree the indentation means ----------

  /** How many leading lines are deeper than `d`. */
  function RunLength(xs: seq<Line>, d: int): (k: nat)
    ensures k <= |xs|
    ensures forall i :: 0 <= i < k ==> xs[i].depth > d
    ensures k < |xs| ==> xs[k].depth <= d
  {
    if xs == [] || xs[0].depth <= d then 0 else 1 + RunLength(xs[1..], d)
  }

  /** The lines deeper than the first, up to the first that is not, are what is under it. */
  function Forest(xs: seq<Line>): seq<PlanNode>
    decreases |xs|
  {
    if xs == [] then []
    else
      var k := RunLength(xs[1..], xs[0].depth);
      [PlanNode(xs[0].info, None, Forest(xs[1..1 + k]))] + Forest(xs[1 + k..])
  }

  function Infos(xs: seq<Line>): seq<Info> {
    seq(|xs|, i requires 0 <= i < |xs| => xs[i].info)
  }

  lemma InfosJoin(x: Line, a: seq<Line>, b: seq<Line>)
    ensures Infos([x] + a + b) == [x.info] + Infos(a) + Infos(b)
  {
  }

  /** Read from top to bottom, the tree is the text. */
  lemma {:induction false} PreorderIsInput(xs: seq<Line>)
    ensures Preorder(Forest(xs)) == Infos(xs)
    ensures Unfilled(Forest(xs))
    decreases |xs|
  {
    if xs != [] {
      var k := RunLength(xs[1..], xs[0].depth);
      var a, b := xs[1..1 + k], xs[1 + k..];
      PreorderIsInput(a);
      PreorderIsInput(b);
      assert xs == [xs[0]] + a + b;
      InfosJoin(xs[0], a, b);
      ForestCons(xs, k);
    }
  }

  lemma ForestCons(xs: seq<Line>, k: nat)
    requires xs != [] && k == RunLength(xs[1..], xs[0].depth)
    ensures var f := Forest(xs);
            f != [] && f[0] == PlanNode(xs[0].info, None, Forest(xs[1..1 + k])) && f[1..] == Forest(xs[1 + k..])
  {
    hide RunLength;
  }

  // ---------- parents ----------

  /** The nearest line before the `i`th that is less deep; -1 when there is none. */
  function NearestShallower(xs: seq<Line>, i: nat, j: int): (p: int)
    requires i < |xs| && -1 <= j < |xs|
    ensures -1 <= p <= j
    ensures p >= 0 ==> xs[p].depth < xs[i].depth
    ensures forall k :: p < k <= j ==> xs[k].depth >= xs[i].depth
    decreases j
  {
    if j < 0 || xs[j].depth < xs[i].depth then j else NearestShallower(xs, i, j - 1)
  }

  function ParentLine(xs: seq<Line>, i: nat): int
    requires i < |xs|
  {
    NearestShallower(xs, i, i - 1)
  }

  /** The parents of a forest's nodes in preorder, nodes numbered from `base`, the roots' parent being `p`. */
  function Parents(f: seq<PlanNode>, base: nat, p: int): seq<int> {
    if f == [] then []
    else [p] + Parents(f[0].children, base + 1, base) + Parents(f[1..], base + 1 + Size(f[0].children), p)
  }

  function ParentLines(xs: seq<Line>, lo: nat, hi: nat): seq<int>
    requires lo <= hi <= |xs|
  {
    seq(hi - lo, i requires 0 <= i < hi - lo => ParentLine(xs, lo + i))
  }

  lemma {:induction false} NearestFrom(xs: seq<Line>, i: nat, j: int, p: int)
    requires -1 <= p <= j < |xs| && i < |xs| && (p >= 0 ==> xs[p].depth < xs[i].depth)
    requires forall k :: p < k <= j ==> xs[k].depth >= xs[i].depth
    ensures NearestShallower(xs, i, j) == p
    decreases j - p
  {
    if p < j {
      NearestFrom(xs, i, j - 1, p);
    }
  }

  lemma NearestIs(xs: seq<Line>, i: nat, p: int)
    requires -1 <= p < i < |xs| && (p >= 0 ==> xs[p].depth < xs[i].depth)
    requires forall k :: p < k < i ==> xs[k].depth >= xs[i].depth
    ensures ParentLine(xs, i) == p
  {
    NearestFrom(xs, i, i - 1, p);
  }

  lemma ParentLinesJoin(xs: seq<Line>, lo: nat, mid: nat, hi: nat, p: int)
    requires lo < mid <= hi <= |xs| && ParentLine(xs, lo) == p
    ensures ParentLines(xs, lo, hi) == [p] + ParentLines(xs, lo + 1, mid) + ParentLines(xs, mid, hi)
  {
  }

  lemma SubSlice(xs: seq<Line>, lo: nat, hi: nat, a: nat, b: nat)
    requires lo <= hi <= |xs| && a <= b <= hi - lo
    ensures xs[lo..hi][a..b] == xs[lo + a..lo + b]
  {
    var l, r := xs[lo..hi][a..b], xs[lo + a..lo + b];
    forall i | 0 <= i < b - a ensures l[i] == r[i] {
      assert xs[lo..hi][a + i] == xs[lo + a + i];
    }
  }

  lemma RunInside(xs: seq<Line>, lo: nat, hi: nat) returns (k: nat)
    requires lo < hi <= |xs|
    ensures k == RunLength(xs[lo..hi][1..], xs[lo..hi][0].depth) && lo + 1 + k <= hi
    ensures forall j :: lo < j <= lo + k ==> xs[j].depth > xs[lo].depth
    ensures lo + 1 + k < hi ==> xs[lo + 1 + k].depth <= xs[lo].depth
  {
    var ys := xs[lo + 1..hi];
    SubSlice(xs, lo, hi, 1, hi - lo);
    assert xs[lo..hi][1..] == ys;
    k := RunLength(ys, xs[lo].depth);
    assert forall i :: 0 <= i < |ys| ==> ys[i] == xs[lo + 1 + i];
    forall j | lo < j <= lo + k ensures xs[j].depth > xs[lo].depth {
      assert ys[j - lo - 1] == xs[j];
    }
  }

  /** The first block of a stretch of lines: its head, the lines under it, and the rest. */
  lemma FirstBlock(xs: seq<Line>, lo: nat, hi: nat) returns (mid: nat)
    requires lo < hi <= |xs|
    ensures lo < mid <= hi
    ensures forall j :: lo < j < mid ==> xs[j].depth > xs[lo].depth
    ensures mid < hi ==> xs[mid].depth <= xs[lo].depth
    ensures Forest(xs[lo..hi]) == [PlanNode(xs[lo].info, None, Forest(xs[lo + 1..mid]))] + Forest(xs[mid..hi])
  {
    hide Forest, RunLength;
    var ys := xs[lo..hi];
    var k := RunInside(xs, lo, hi);
    mid := lo + 1 + k;
    ForestCons(ys, k);
    SubSlice(xs, lo, hi, 1, 1 + k);
    SubSlice(xs, lo, hi, 1 + k, hi - lo);
    assert ys[1 + k..] == ys[1 + k..hi - lo];
    assert Forest(ys) == [Forest(ys)[0]] + Forest(ys)[1..];
  }

  lemma ParentsCons(node: PlanNode, rest: seq<PlanNode>, base: nat, p: int)
    ensures Parents([node] + rest, base, p)
            == [p] + Parents(node.children, base + 1, base) + Parents(rest, base + 1 + Size(node.children), p)
  {
  }

  predicate AllDeeper(xs: seq<Line>, lo: nat, hi: nat, p: int)
    requires -1 <= p < lo <= hi <= |xs|
  {
    forall j :: lo <= j < hi && p >= 0 ==> xs[j].depth > xs[p].depth
  }

  predicate NoneShallower(xs: seq<Line>, p: int, lo: nat, hi: nat)
    requires -1 <= p < lo <= hi <= |xs|
  {
    lo < hi ==> forall j :: p < j < lo ==> xs[j].depth >= xs[lo].depth
  }

  lemma BlockSteps(xs: seq<Line>, lo: nat, mid: nat, hi: nat, p: int)
    requires -1 <= p < lo < mid <= hi <= |xs| && AllDeeper(xs, lo, hi, p) && NoneShallower(xs, p, lo, hi)
    requires forall j :: lo < j < mid ==> xs[j].depth > xs[lo].depth
    requires mid < hi ==> xs[mid].depth <= xs[lo].depth
    ensures AllDeeper(xs, lo + 1, mid, lo) && NoneShallower(xs, lo, lo + 1, mid)
    ensures AllDeeper(xs, mid, hi, p) && NoneShallower(xs, p, mid, hi)
    ensures ParentLine(xs, lo) == p
  {
    NearestIs(xs, lo, p);
    hide ParentLine;
    if mid < hi {
      forall j | p < j < mid ensures xs[j].depth >= xs[mid].depth {
      }
    }
  }

  /** In any stretch of lines under `p`, every node's parent is the nearest shallower line before it. */
  lemma {:induction false} ParentsAreNearest(xs: seq<Line>, lo: nat, hi: nat, p: int)
    requires -1 <= p < lo <= hi <= |xs| && AllDeeper(xs, lo, hi, p) && NoneShallower(xs, p, lo, hi)
    ensures Parents(Forest(xs[lo..hi]), lo, p) == ParentLines(xs, lo, hi)
    decreases hi - lo
  {
    hide Forest, Parents, ParentLines, ParentLine, AllDeeper, NoneShallower, Size;
    if lo == hi {
      NoParents(xs, lo, p);
    } else {
      var mid := FirstBlock(xs, lo, hi);
      BlockSteps(xs, lo, mid, hi, p);
      ParentsAreNearest(xs, lo + 1, mid, lo);
      ParentsAreNearest(xs, mid, hi, p);
      SizeOfForest(xs, lo + 1, mid);
      ParentsCons(PlanNode(xs[lo].info, None, Forest(xs[lo + 1..mid])), Forest(xs[mid..hi]), lo, p);
      ParentLinesJoin(xs, lo, mid, hi, p);
    }
  }

  lemma NoParents(xs: seq<Line>, lo: nat, p: int)
    requires lo <= |xs|
    ensures Parents(Forest(xs[lo..lo]), lo, p) == ParentLines(xs, lo, lo)
  {
    assert xs[lo..lo] == [];
  }

  lemma SizeOfForest(xs: seq<Line>, lo: nat, hi: nat)
    requires lo <= hi <= |xs|
    ensures Size(Forest(xs[lo..hi])) == hi - lo
  {
    PreorderIsInput(xs[lo..hi]);
  }

  /** The parent of every node is the nearest line before it that is less indented. */
  lemma ParentIsNearestShallower(xs: seq<Line>)
    ensures Parents(Forest(xs), 0, -1) == ParentLines(xs, 0, |xs|)
  {
    ParentsAreNearest(xs, 0, |xs|, -1);
    assert xs[0..|xs|] == xs;
  }

  // ---------- printing and reading back ----------

  /** A forest as indented lines, each level `w` further in. */
  function Print(f: seq<PlanNode>, d: nat, w: nat): seq<Line> {
    if f == [] then [] else [Line(d, f[0].info)] + Print(f[0].children, d + w, w) + Print(f[1..], d, w)
  }

  lemma {:induction false} PrintDepths(f: seq<PlanNode>, d: nat, w: nat)
    requires w > 0
    ensures forall i :: 0 <= i < |Print(f, d, w)| ==> Print(f, d, w)[i].depth >= d
    ensures f != [] ==> Print(f, d, w) != [] && Print(f, d, w)[0].depth == d
    decreases f
  {
    if f != [] {
      PrintDepths(f[0].children, d + w, w);
      PrintDepths(f[1..], d, w);
    }
  }

  lemma {:induction false} RunLengthIs(xs: seq<Line>, d: int, k: nat)
    requires k <= |xs| && (forall i :: 0 <= i < k ==> xs[i].depth > d) && (k < |xs| ==> xs[k].depth <= d)
    ensures RunLength(xs, d) == k
    decreases k
  {
    if k > 0 {
      RunLengthIs(xs[1..], d, k - 1);
    }
  }

  /** A line, the deeper lines `a`, and then lines `b` no deeper than it. */
  lemma ForestOfBlocks(x: Line, a: seq<Line>, b: seq<Line>)
    requires (forall i :: 0 <= i < |a| ==> a[i].depth > x.depth) && (b != [] ==> b[0].depth <= x.depth)
    ensures Forest([x] + a + b) == [PlanNode(x.info, None, Forest(a))] + Forest(b)
  {
    var xs := [x] + a + b;
    assert xs[1..] == a + b;
    RunLengthIs(xs[1..], x.depth, |a|);
    ForestCons(xs, |a|);
    hide Forest, RunLength;
    assert xs[1..1 + |a|] == a && xs[1 + |a|..] == b;
    assert Forest(xs) == [Forest(xs)[0]] + Forest(xs)[1..];
  }

  /** Building the tree of an indented printing gives the printed forest back. */
  lemma {:induction false} PrintThenBuild(f: seq<PlanNode>, d: nat, w: nat)
    requires w > 0 && Unfilled(f)
    ensures Forest(Print(f, d, w)) == f
    decreases f
  {
    hide Forest;
    if f == [] {
      ForestOfNothing();
    } else {
      var a, b := Print(f[0].children, d + w, w), Print(f[1..], d, w);
      PrintDepths(f[0].children, d + w, w);
      PrintDepths(f[1..], d, w);
      PrintThenBuild(f[0].children, d + w, w);
      PrintThenBuild(f[1..], d, w);
      ForestOfBlocks(Line(d, f[0].info), a, b);
      assert f == [f[0]] + f[1..];
    }
  }

  lemma ForestOfNothing()
    ensures Forest([]) == []
  {
  }
}
