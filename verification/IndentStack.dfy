/**
 The stack loop that builds the tree of an indented plan. A pointer into the tree is a path of
 child indices; growing a node's list of children moves the children, not the node.
 */
module IndentStack {
  import opened Wrappers
  import opened Plans
  import opened IndentTree

  type Path = seq<nat>

  predicate ValidPath(f: seq<PlanNode>, p: Path) {
    p == [] || (p[0] < |f| && ValidPath(f[p[0]].children, p[1..]))
  }

  /** The children of the node at `p`; of the root, when `p` is empty. */
  function ChildrenAt(f: seq<PlanNode>, p: Path): seq<PlanNode>
    requires ValidPath(f, p)
  {
    if p == [] then f else ChildrenAt(f[p[0]].children, p[1..])
  }

  function InfoAt(f: seq<PlanNode>, p: Path): Info
    requires ValidPath(f, p) && p != []
  {
    if |p| == 1 then f[p[0]].info else InfoAt(f[p[0]].children, p[1..])
  }

  /** The forest with `node` added under the node at `p`. */
  function AppendAt(f: seq<PlanNode>, p: Path, node: PlanNode): seq<PlanNode>
    requires ValidPath(f, p)
  {
    if p == [] then f + [node]
    else f[p[0] := f[p[0]].(children := AppendAt(f[p[0]].children, p[1..], node))]
  }

  /** The children of `at` moved, and `p` pointed to one of them. */
  predicate Invalidated(p: Path, at: Path) {
    |p| == |at| + 1 && p[..|at|] == at
  }

  // ---------- the rightmost nodes ----------

  function SpineLength(f: seq<PlanNode>): nat {
    if f == [] then 0 else 1 + SpineLength(f[|f| - 1].children)
  }

  /** From the root `m` times to the last child. */
  function SpinePath(f: seq<PlanNode>, m: nat): (p: Path)
    requires m <= SpineLength(f)
    ensures |p| == m && ValidPath(f, p)
  {
    if m == 0 then [] else [|f| - 1] + SpinePath(f[|f| - 1].children, m - 1)
  }

  /** The depths of the rightmost nodes of the tree of `xs`. */
  function SpineDepths(xs: seq<Line>): seq<int>
    decreases |xs|
  {
    if xs == [] then []
    else
      var k := RunLength(xs[1..], xs[0].depth);
      if 1 + k == |xs| then [xs[0].depth as int] + SpineDepths(xs[1..]) else SpineDepths(xs[1 + k..])
  }

  /** How many leading depths are below `d`. */
  function Below(ds: seq<int>, d: int): (m: nat)
    ensures m <= |ds|
  {
    if ds == [] || ds[0] >= d then 0 else 1 + Below(ds[1..], d)
  }

  predicate Increasing(ds: seq<int>) {
    forall i, j :: 0 <= i < j < |ds| ==> ds[i] < ds[j]
  }

  lemma {:induction false} BelowIs(ds: seq<int>, d: int, m: nat)
    requires Increasing(ds) && m <= |ds| && (m > 0 ==> ds[m - 1] < d) && (m < |ds| ==> ds[m] >= d)
    ensures Below(ds, d) == m
    decreases m
  {
    if m > 0 {
      BelowIs(ds[1..], d, m - 1);
    }
  }

  /** The first line of a list, the lines under it, and the rest. */
  lemma Blocks(xs: seq<Line>) returns (a: seq<Line>, b: seq<Line>)
    requires xs != []
    ensures xs == [xs[0]] + a + b
    ensures (forall i :: 0 <= i < |a| ==> a[i].depth > xs[0].depth) && (b != [] ==> b[0].depth <= xs[0].depth)
    ensures Forest(xs) == [PlanNode(xs[0].info, None, Forest(a))] + Forest(b)
    ensures SpineDepths(xs) == if b == [] then [xs[0].depth as int] + SpineDepths(a) else SpineDepths(b)
  {
    var k := RunLength(xs[1..], xs[0].depth);
    a, b := xs[1..1 + k], xs[1 + k..];
    assert xs[1..] == a + b;
    assert b == [] ==> xs[1..] == a;
    assert forall i :: 0 <= i < k ==> xs[1..][i] == a[i];
  }

  /** The depths on the spine of the tree of `[x] + a + b`, where `a` is deeper than `x` and `b` is not. */
  lemma SpineOfBlocks(x: Line, a: seq<Line>, b: seq<Line>)
    requires (forall i :: 0 <= i < |a| ==> a[i].depth > x.depth) && (b != [] ==> b[0].depth <= x.depth)
    ensures SpineDepths([x] + a + b) == if b == [] then [x.depth as int] + SpineDepths(a) else SpineDepths(b)
  {
    var xs := [x] + a + b;
    assert xs[1..] == a + b;
    RunLengthIs(xs[1..], x.depth, |a|);
    assert xs[1 + |a|..] == b;
    assert b == [] ==> xs[1..] == a;
  }

  predicate LinesAbove(xs: seq<Line>, d: int) {
    forall i :: 0 <= i < |xs| ==> xs[i].depth > d
  }

  predicate Above(ds: seq<int>, d: int) {
    forall k :: 0 <= k < |ds| ==> ds[k] > d
  }

  lemma AboveParts(xs: seq<Line>, a: seq<Line>, b: seq<Line>, d: int)
    requires xs != [] && xs == [xs[0]] + a + b && LinesAbove(xs, d)
    ensures xs[0].depth > d && LinesAbove(a, d) && LinesAbove(b, d)
  {
    assert forall i :: 0 <= i < |a| ==> xs[1 + i] == a[i];
    assert forall i :: 0 <= i < |b| ==> xs[1 + |a| + i] == b[i];
  }

  lemma IncreasingCons(d: int, ds: seq<int>)
    requires Increasing(ds) && Above(ds, d)
    ensures Increasing([d] + ds)
  {
  }

  /** The spine has one depth per node, each greater than the one before. */
  lemma {:induction false} SpineFacts(xs: seq<Line>, d: int)
    requires LinesAbove(xs, d)
    ensures |SpineDepths(xs)| == SpineLength(Forest(xs))
    ensures Increasing(SpineDepths(xs)) && Above(SpineDepths(xs), d)
    decreases |xs|
  {
    hide RunLength;
    if xs != [] {
      hide Forest, SpineDepths, Increasing, LinesAbove;
      var a, b := Blocks(xs);
      AboveParts(xs, a, b, d);
      assert LinesAbove(a, xs[0].depth) by {
        DeeperLines(a, xs[0].depth);
      }
      SpineFacts(a, xs[0].depth);
      SpineFacts(b, d);
      IncreasingCons(xs[0].depth, SpineDepths(a));
      SpineOfCons(PlanNode(xs[0].info, None, Forest(a)), Forest(b));
      ForestEmpty(b);
    }
  }

  lemma DeeperLines(a: seq<Line>, d: int)
    requires forall i :: 0 <= i < |a| ==> a[i].depth > d
    ensures LinesAbove(a, d)
  {
  }

  lemma ForestEmpty(b: seq<Line>)
    ensures Forest(b) == [] <==> b == []
  {
  }

  lemma SpineOfCons(node: PlanNode, rest: seq<PlanNode>)
    ensures SpineLength([node] + rest) == if rest == [] then 1 + SpineLength(node.children) else SpineLength(rest)
  {
    assert rest != [] ==> ([node] + rest)[|rest|] == rest[|rest| - 1];
  }

  // ---------- one more line ----------

  /** The tree with `x` put under the `m`th node of its spine. */
  function PutUnder(f: seq<PlanNode>, m: nat, x: Info): seq<PlanNode>
    requires m <= SpineLength(f)
  {
    AppendAt(f, SpinePath(f, m), Leaf(x))
  }

  lemma PutUnderCons(node: PlanNode, rest: seq<PlanNode>, m: nat, x: Info)
    requires m <= SpineLength([node] + rest)
    ensures rest != [] && m > 0 ==>
            m <= SpineLength(rest) && PutUnder([node] + rest, m, x) == [node] + PutUnder(rest, m, x)
    ensures rest == [] && m > 0 ==>
      m - 1 <= SpineLength(node.children) &&
      PutUnder([node] + rest, m, x) == [node.(children := PutUnder(node.children, m - 1, x))]
    ensures m == 0 ==> PutUnder([node] + rest, m, x) == [node] + (rest + [Leaf(x)])
  {
    SpineOfCons(node, rest);
    var f := [node] + rest;
    if rest == [] {
      assert f == [node];
    } else {
      assert f[|f| - 1] == rest[|rest| - 1];
    }
  }

  /** A line more, by where it falls among the blocks. */
  lemma GrowBlocks(x0: Line, a: seq<Line>, b: seq<Line>, x: Line)
    requires (forall i :: 0 <= i < |a| ==> a[i].depth > x0.depth) && (b != [] ==> b[0].depth <= x0.depth)
    ensures var xs := [x0] + a + b + [x];
            if b != [] then
              Forest(xs) == [PlanNode(x0.info, None, Forest(a))] + Forest(b + [x])
                && SpineDepths(xs) == SpineDepths(b + [x])
            else if x.depth > x0.depth then
              Forest(xs) == [PlanNode(x0.info, None, Forest(a + [x]))]
                && SpineDepths(xs) == [x0.depth as int] + SpineDepths(a + [x])
            else
              Forest(xs) == [PlanNode(x0.info, None, Forest(a))] + [Leaf(x.info)] && SpineDepths(xs) == [x.depth as int]
  {
    hide Forest, SpineDepths;
    OneLine(x);
    if b == [] && x.depth > x0.depth {
      assert [x0] + a + b + [x] == [x0] + (a + [x]) + [];
      ForestOfBlocks(x0, a + [x], []);
      SpineOfBlocks(x0, a + [x], []);
    } else {
      assert [x0] + a + b + [x] == [x0] + a + (b + [x]);
      assert b == [] ==> b + [x] == [x];
      ForestOfBlocks(x0, a, b + [x]);
      SpineOfBlocks(x0, a, b + [x]);
    }
  }

  lemma BelowOfBlocks(x0: Line, ds: seq<int>, d: int)
    requires Above(ds, x0.depth)
    ensures Below([x0.depth as int] + ds, d) == if x0.depth < d then 1 + Below(ds, d) else 0
  {
    assert ([x0.depth as int] + ds)[1..] == ds;
  }

  lemma PutUnderRoot(f: seq<PlanNode>, x: Info)
    ensures PutUnder(f, 0, x) == f + [Leaf(x)]
  {
  }

  /** `m` of the spine's nodes are less deep than the new line, and it goes under the last of them. */
  predicate Grown(xs: seq<Line>, x: Line) {
    var m := Below(SpineDepths(xs), x.depth);
    && m <= SpineLength(Forest(xs))
    && Forest(xs + [x]) == PutUnder(Forest(xs), m, x.info)
    && SpineDepths(xs + [x]) == SpineDepths(xs)[..m] + [x.depth as int]
  }

  /** `xs` is `x0`, the deeper lines `a`, and the rest `b`. */
  predicate InBlocks(xs: seq<Line>, x0: Line, a: seq<Line>, b: seq<Line>) {
    && xs == [x0] + a + b
    && (forall i :: 0 <= i < |a| ==> a[i].depth > x0.depth) && (b != [] ==> b[0].depth <= x0.depth)
    && Forest(xs) == [PlanNode(x0.info, None, Forest(a))] + Forest(b)
    && SpineDepths(xs) == if b == [] then [x0.depth as int] + SpineDepths(a) else SpineDepths(b)
  }

  lemma GrownRest(xs: seq<Line>, x0: Line, a: seq<Line>, b: seq<Line>, x: Line)
    requires InBlocks(xs, x0, a, b) && b != [] && Grown(b, x)
    ensures Grown(xs, x)
  {
    ForestEmpty(b);
    hide Forest, SpineDepths, PutUnder, Below;
    var m := Below(SpineDepths(b), x.depth);
    GrowBlocks(x0, a, b, x);
    SpineOfCons(PlanNode(x0.info, None, Forest(a)), Forest(b));
    PutUnderCons(PlanNode(x0.info, None, Forest(a)), Forest(b), m, x.info);
    PutUnderRoot(Forest(b), x.info);
  }

  lemma GrownUnder(xs: seq<Line>, x0: Line, a: seq<Line>, x: Line)
    requires InBlocks(xs, x0, a, []) && x.depth > x0.depth && Grown(a, x)
    ensures Grown(xs, x)
  {
    hide Forest, SpineDepths, SpineLength, PutUnder, Below, Increasing, Above, LinesAbove;
    DeeperLines(a, x0.depth);
    SpineFacts(a, x0.depth);
    ForestEmpty([]);
    var m := Below(SpineDepths(a), x.depth);
    GrowBlocks(x0, a, [], x);
    BelowOfBlocks(x0, SpineDepths(a), x.depth);
    SpineOfCons(PlanNode(x0.info, None, Forest(a)), []);
    PutUnderCons(PlanNode(x0.info, None, Forest(a)), [], m + 1, x.info);
    CutCons(x0.depth, SpineDepths(a), m, x.depth);
  }

  lemma CutCons(d: int, ds: seq<int>, m: nat, x: int)
    requires m <= |ds|
    ensures ([d] + ds)[..m + 1] + [x] == [d] + (ds[..m] + [x])
  {
  }

  lemma GrownBeside(xs: seq<Line>, x0: Line, a: seq<Line>, x: Line)
    requires InBlocks(xs, x0, a, []) && x.depth <= x0.depth
    ensures Grown(xs, x)
  {
    hide Forest, SpineDepths, SpineLength, PutUnder, Below, Increasing, Above, LinesAbove;
    DeeperLines(a, x0.depth);
    SpineFacts(a, x0.depth);
    ForestEmpty([]);
    GrowBlocks(x0, a, [], x);
    BelowOfBlocks(x0, SpineDepths(a), x.depth);
    PutUnderRoot(Forest(xs), x.info);
  }

  lemma {:induction false} OneMoreLine(xs: seq<Line>, x: Line)
    ensures Grown(xs, x)
    decreases |xs|
  {
    if xs == [] {
      OneLine(x);
    } else {
      hide Forest, SpineDepths, Grown;
      var a, b := Blocks(xs);
      if b != [] {
        OneMoreLine(b, x);
        GrownRest(xs, xs[0], a, b, x);
      } else if x.depth > xs[0].depth {
        OneMoreLine(a, x);
        GrownUnder(xs, xs[0], a, x);
      } else {
        GrownBeside(xs, xs[0], a, x);
      }
    }
  }

  lemma LineFacts(xs: seq<Line>)
    ensures |SpineDepths(xs)| == SpineLength(Forest(xs)) && Increasing(SpineDepths(xs)) && Above(SpineDepths(xs), -1)
  {
    SpineFacts(xs, -1);
  }

  lemma OneLine(x: Line)
    ensures Forest([x]) == [Leaf(x.info)] && SpineDepths([x]) == [x.depth as int]
    ensures Forest([]) == [] && SpineDepths([]) == []
    ensures ([] + [x])[..] == [x]
    ensures PutUnder([], 0, x.info) == [Leaf(x.info)]
  {
  }

  // ---------- the pointers on the stack ----------

  lemma PutUnderStep(f: seq<PlanNode>, m: nat, x: Info)
    requires 0 < m <= SpineLength(f)
    ensures var last := |f| - 1;
            && SpinePath(f, m) == [last] + SpinePath(f[last].children, m - 1)
            && PutUnder(f, m, x) == f[last := f[last].(children := PutUnder(f[last].children, m - 1, x))]
            && ChildrenAt(f, SpinePath(f, m)) == ChildrenAt(f[last].children, SpinePath(f[last].children, m - 1))
  {
  }

  /** After a node is put under the `m`th of the spine, the spine is that far what it was, and then the new node. */
  lemma {:induction false} SpineAfterPut(f: seq<PlanNode>, m: nat, x: Info, k: nat)
    requires k <= m <= SpineLength(f)
    ensures var g := PutUnder(f, m, x);
            && SpineLength(g) == m + 1
            && SpinePath(g, k) == SpinePath(f, k)
            && SpinePath(g, m + 1) == SpinePath(f, m) + [|ChildrenAt(f, SpinePath(f, m))|]
            && (k > 0 ==> ValidPath(g, SpinePath(f, k)) && InfoAt(g, SpinePath(f, k)) == InfoAt(f, SpinePath(f, k)))
            && !Invalidated(SpinePath(f, k), SpinePath(f, m))
    decreases m
  {
    if m > 0 {
      var last := |f| - 1;
      SpineAfterPut(f[last].children, m - 1, x, if k > 0 then k - 1 else 0);
      PutUnderStep(f, m, x);
    }
  }

  datatype Frame = Frame(depth: int, path: Path)

  /** The stack holds the sentinel and then the rightmost nodes of the tree of `xs`, with their depths. */
  predicate StackOf(stack: seq<Frame>, xs: seq<Line>) {
    && |stack| == |SpineDepths(xs)| + 1
    && |SpineDepths(xs)| == SpineLength(Forest(xs))
    && stack[0].depth == -1
    && (forall k :: 0 < k < |stack| ==> stack[k].depth == SpineDepths(xs)[k - 1])
    && (forall k :: 0 <= k < |stack| ==> stack[k].path == SpinePath(Forest(xs), k))
  }

  lemma StartStack()
    ensures StackOf([Frame(-1, [])], []) && Forest([]) == []
  {
  }

  /** Popping what is not less deep than the line leaves the spine's nodes that are. */
  lemma PoppedStack(stack: seq<Frame>, xs: seq<Line>, x: Line, n: nat)
    requires StackOf(stack, xs) && 0 < n <= |stack| && stack[n - 1].depth < x.depth
    requires n < |stack| ==> stack[n].depth >= x.depth
    ensures Below(SpineDepths(xs), x.depth) == n - 1 <= SpineLength(Forest(xs))
    ensures stack[n - 1].path == SpinePath(Forest(xs), n - 1)
  {
    LineFacts(xs);
    BelowIs(SpineDepths(xs), x.depth, n - 1);
  }

  /** The stack after the line, and the tree: no pointer kept was invalidated. */
  lemma NextStack(stack: seq<Frame>, xs: seq<Line>, x: Line, n: nat)
    requires StackOf(stack, xs) && 0 < n <= |stack| && n - 1 <= SpineLength(Forest(xs))
    requires Below(SpineDepths(xs), x.depth) == n - 1
    ensures var parent := SpinePath(Forest(xs), n - 1);
            && Forest(xs + [x]) == AppendAt(Forest(xs), parent, Leaf(x.info))
            && StackOf(stack[..n] + [Frame(x.depth, parent + [|ChildrenAt(Forest(xs), parent)|])], xs + [x])
            && forall k :: 0 <= k < n ==> !Invalidated(stack[k].path, parent)
  {
    OneMoreLine(xs, x);
    hide Forest, SpineDepths, SpineLength;
    var f := Forest(xs);
    forall k | 0 <= k < n
      ensures SpineLength(PutUnder(f, n - 1, x.info)) == n
      ensures SpinePath(PutUnder(f, n - 1, x.info), k) == SpinePath(f, k)
      ensures SpinePath(PutUnder(f, n - 1, x.info), n) == SpinePath(f, n - 1) + [|ChildrenAt(f, SpinePath(f, n - 1))|]
      ensures !Invalidated(SpinePath(f, k), SpinePath(f, n - 1))
    {
      SpineAfterPut(f, n - 1, x.info, k);
    }
  }

  /** The tree of the plan: the only top node, or a node holding them all. */
  function PlanOf(flat: seq<Line>): Option<PlanNode> {
    var f := Forest(flat);
    if flat == [] then None
    else if |f| == 1 then Some(f[0])
    else Some(PlanNode(ROOT, None, f))
  }

  /** Pop every frame that is not less deep than `depth`; the sentinel never is. */
  method PopTo(stack: seq<Frame>, depth: nat) returns (n: nat)
    requires stack != [] && stack[0].depth == -1
    ensures 0 < n <= |stack| && stack[n - 1].depth < depth && (n < |stack| ==> stack[n].depth >= depth)
  {
    n := |stack|;
    while stack[n - 1].depth >= depth
      invariant 0 < n <= |stack| && (n < |stack| ==> stack[n].depth >= depth)
      decreases n
    {
      n := n - 1;
    }
  }

  /** One line of the plan: the tree and the stack after it. */
  method AddLine(f: seq<PlanNode>, stack: seq<Frame>, x: Line, ghost xs: seq<Line>)
    returns (g: seq<PlanNode>, next: seq<Frame>)
    requires f == Forest(xs) && StackOf(stack, xs)
    ensures g == Forest(xs + [x]) && StackOf(next, xs + [x])
  {
    assert stack != [] && stack[0].depth == -1;
    hide Forest, SpineDepths, StackOf, SpineLength, Below, AppendAt, ChildrenAt, ValidPath;
    var n := PopTo(stack, x.depth);
    PoppedStack(stack, xs, x, n);
    NextStack(stack, xs, x, n);
    var parent := stack[n - 1].path;
    g := AppendAt(f, parent, Leaf(x.info));
    next := stack[..n] + [Frame(x.depth, parent + [|ChildrenAt(f, parent)|])];
  }

  /** Some later line is no deeper than every line before it. */
  predicate ManyTops(flat: seq<Line>) {
    exists i :: 0 < i < |flat| && forall j :: 0 <= j < i ==> flat[i].depth <= flat[j].depth
  }

  const ROOT := Info("Query", None)

  lemma {:induction false} TopsAre(flat: seq<Line>)
    ensures |Forest(flat)| > 0 <==> flat != []
    ensures |Forest(flat)| > 1 <==> ManyTops(flat)
  {
    if flat != [] {
      var k := RunLength(flat[1..], flat[0].depth);
      assert forall i :: 0 <= i < |flat| - 1 ==> flat[1..][i] == flat[i + 1];
      assert forall i :: 0 < i < 1 + k ==> flat[i].depth > flat[0].depth;
      assert 1 + k < |flat| ==> flat[1 + k].depth <= flat[0].depth;
      if 1 + k < |flat| {
        assert flat[1 + k..] != [];
        assert forall j :: 0 <= j < 1 + k ==> flat[1 + k].depth <= flat[j].depth;
      }
    }
  }

  lemma OnePreorder(node: PlanNode)
    ensures Preorder([node]) == [node.info] + Preorder(node.children)
  {
    var f := [node];
    assert f[1..] == [] && Preorder(f[1..]) == [];
    assert Preorder(f) == [f[0].info] + Preorder(f[0].children) + Preorder(f[1..]);
  }

  lemma RootPreorder(f: seq<PlanNode>)
    ensures Preorder([PlanNode(ROOT, None, f)]) == [ROOT] + Preorder(f)
    ensures |f| == 1 ==> Preorder([f[0]]) == Preorder(f)
  {
    hide Preorder;
    OnePreorder(PlanNode(ROOT, None, f));
    if |f| == 1 {
      assert [f[0]] == f;
    }
  }

  /**
   The tree is missing only when there are no lines; it lists them all, under a node of its own exactly when there are
   several tops; and built from an indented printing of a forest, it is that forest.
   */
  method BuildTree(flat: seq<Line>) returns (plan: Option<PlanNode>)
    ensures plan == PlanOf(flat)
    ensures plan.None? <==> flat == []
    ensures plan.Some? ==> Preorder([plan.value]) == (if ManyTops(flat) then [ROOT] else []) + Infos(flat)
    ensures forall f, w: nat :: w > 0 && f != [] && Unfilled(f) && flat == Print(f, 0, w) ==>
              plan == Some(if |f| == 1 then f[0] else PlanNode(ROOT, None, f))
  {
    if flat == [] {
      return None;
    }
    hide Forest, StackOf;
    StartStack();
    var top: seq<PlanNode> := [];
    var stack := [Frame(-1, [])];
    assert flat[..0] == [];
    for i := 0 to |flat|
      invariant top == Forest(flat[..i]) && StackOf(stack, flat[..i])
    {
      assert flat[..i + 1] == flat[..i] + [flat[i]];
      top, stack := AddLine(top, stack, flat[i], flat[..i]);
    }
    assert flat[..|flat|] == flat;
    plan := if |top| == 1 then Some(top[0]) else Some(PlanNode(ROOT, None, top));
    hide ManyTops, Preorder, Infos, Print, Unfilled;
    TopsAre(flat);
    RootPreorder(top);
    PreorderIsInput(flat);
    assert [] + Infos(flat) == Infos(flat);
    forall f, w: nat | w > 0 && f != [] && Unfilled(f) && flat == Print(f, 0, w) ensures top == f {
      PrintThenBuild(f, 0, w);
    }
  }
}
