/** From rows with parent ids to a tree, and its indented text. */
module RowTree {
  import opened Wrappers
  import opened Plans
  import opened IndentTree

  datatype Row = Row(id: int, parent: int, detail: string)

  /** The id a row's children name; the top rows name 0. */
  function IdOf(rows: seq<Row>, at: int): int
    requires -1 <= at < |rows|
  {
    if at < 0 then 0 else rows[at].id
  }

  /** The row, or the top, that row `i` hangs under: the first before it with its parent's id. */
  predicate HangsUnder(rows: seq<Row>, i: int, at: int)
    requires 0 <= i < |rows| && -1 <= at < |rows|
  {
    at < i && rows[i].parent == IdOf(rows, at)
  }

  predicate HasParent(rows: seq<Row>, i: int)
    requires 0 <= i < |rows|
  {
    exists at :: -1 <= at < i && HangsUnder(rows, i, at)
  }

  /** Parents come before their children; ids are distinct and not 0. */
  predicate WellFormed(rows: seq<Row>) {
    && (forall i :: 0 <= i < |rows| ==> rows[i].id != 0)
    && (forall i, j :: 0 <= i < j < |rows| ==> rows[i].id != rows[j].id)
    && (forall i :: 0 <= i < |rows| ==> HasParent(rows, i))
  }

  /** Is row `j` a child of the node whose id is `parent`? */
  predicate IsChild(rows: seq<Row>, j: int, parent: int)
    requires 0 <= j < |rows|
  {
    rows[j].parent == parent && rows[j].id != parent
  }

  lemma ChildIsLater(rows: seq<Row>, at: int, j: int)
    requires WellFormed(rows) && -1 <= at < |rows| && 0 <= j < |rows|
    ensures IsChild(rows, j, IdOf(rows, at)) <==> HangsUnder(rows, j, at)
    ensures IsChild(rows, j, IdOf(rows, at)) ==> at < j
  {
    assert HasParent(rows, j);
    var p :| -1 <= p < j && HangsUnder(rows, j, p);
    assert at >= 0 ==> rows[at].id != 0;
    assert p >= 0 ==> rows[p].id != 0;
    if rows[j].parent == IdOf(rows, at) {
      assert p == at;
    }
  }

  // ---------- the tree ----------

  /** The children of row `at` from row `j` on, in row order, each with its own. */
  function Kids(rows: seq<Row>, at: int, j: nat): seq<PlanNode>
    requires WellFormed(rows) && -1 <= at < |rows| && j <= |rows|
    decreases |rows| - at, |rows| - j
  {
    if j == |rows| then []
    else
      ChildIsLater(rows, at, j);
      if IsChild(rows, j, IdOf(rows, at)) then
        [PlanNode(Info(rows[j].detail, None), None, Kids(rows, j, 0))] + Kids(rows, at, j + 1)
      else Kids(rows, at, j + 1)
  }

  /** The rows of `Kids`, in the preorder of the tree. */
  function KidRows(rows: seq<Row>, at: int, j: nat): (r: seq<int>)
    requires WellFormed(rows) && -1 <= at < |rows| && j <= |rows|
    ensures forall k :: 0 <= k < |r| ==> at < r[k] < |rows|
    decreases |rows| - at, |rows| - j
  {
    if j == |rows| then []
    else
      ChildIsLater(rows, at, j);
      if IsChild(rows, j, IdOf(rows, at)) then [j as int] + KidRows(rows, j, 0) + KidRows(rows, at, j + 1)
      else KidRows(rows, at, j + 1)
  }

  function Details(rows: seq<Row>, ix: seq<int>): seq<Info>
    requires forall k :: 0 <= k < |ix| ==> 0 <= ix[k] < |rows|
  {
    seq(|ix|, k requires 0 <= k < |ix| => Info(rows[ix[k]].detail, None))
  }

  lemma {:induction false} TreeHoldsRows(rows: seq<Row>, at: int, j: nat)
    requires WellFormed(rows) && -1 <= at < |rows| && j <= |rows|
    ensures Preorder(Kids(rows, at, j)) == Details(rows, KidRows(rows, at, j))
    ensures Unfilled(Kids(rows, at, j))
    decreases |rows| - at, |rows| - j
  {
    assert Details(rows, []) == [];
    hide WellFormed, Details, IsChild, HangsUnder;
    if j < |rows| {
      ChildIsLater(rows, at, j);
      TreeHoldsRows(rows, at, j + 1);
      if IsChild(rows, j, IdOf(rows, at)) {
        TreeHoldsRows(rows, j, 0);
        var f, kids, rest := Kids(rows, at, j), Kids(rows, j, 0), Kids(rows, at, j + 1);
        assert f[0].children == kids && f[1..] == rest;
        DetailsJoin(rows, j, KidRows(rows, j, 0), KidRows(rows, at, j + 1));
      }
    }
  }

  lemma DetailsJoin(rows: seq<Row>, j: int, a: seq<int>, b: seq<int>)
    requires 0 <= j < |rows|
    requires (forall k :: 0 <= k < |a| ==> 0 <= a[k] < |rows|) && (forall k :: 0 <= k < |b| ==> 0 <= b[k] < |rows|)
    ensures Details(rows, [j] + a + b) == [Info(rows[j].detail, None)] + Details(rows, a) + Details(rows, b)
  {
  }

  // ---------- every row once ----------

  /** The row, or the top, row `i` hangs under. */
  function ParentRow(rows: seq<Row>, i: int): (p: int)
    requires WellFormed(rows) && 0 <= i < |rows|
    ensures -1 <= p < i && HangsUnder(rows, i, p)
  {
    ParentUnique(rows, i);
    assert HasParent(rows, i);
    var p :| -1 <= p < i && HangsUnder(rows, i, p);
    p
  }

  lemma ParentUnique(rows: seq<Row>, i: int)
    requires WellFormed(rows) && 0 <= i < |rows|
    ensures forall p, q :: -1 <= p < i && -1 <= q < i && HangsUnder(rows, i, p) && HangsUnder(rows, i, q) ==> p == q
  {
    forall p, q | -1 <= p < i && -1 <= q < i && HangsUnder(rows, i, p) && HangsUnder(rows, i, q) ensures p == q {
      assert p >= 0 ==> rows[p].id != 0;
      assert q >= 0 ==> rows[q].id != 0;
    }
  }

  /** The child of `at` on the way down to row `i`; -1 when `i` is not below `at`. */
  function Branch(rows: seq<Row>, at: int, i: int): (c: int)
    requires WellFormed(rows) && -1 <= at < |rows| && -1 <= i < |rows|
    ensures -1 <= c <= i
    decreases i
  {
    if i < 0 then -1
    else if ParentRow(rows, i) == at then i
    else Branch(rows, at, ParentRow(rows, i))
  }

  lemma {:induction false} BranchThrough(rows: seq<Row>, at: int, j: int, i: int)
    requires WellFormed(rows) && 0 <= j < |rows| && 0 <= i < |rows| && ParentRow(rows, j) == at
    ensures Branch(rows, at, i) == j <==> i == j || Branch(rows, j, i) >= 0
    decreases i
  {
    hide WellFormed;
    var p := ParentRow(rows, i);
    if i == j {
    } else if p == at {
      BranchSelf(rows, j, at);
    } else if p == j {
      assert Branch(rows, at, j) == j;
    } else if p >= 0 {
      BranchThrough(rows, at, j, p);
    }
  }

  lemma {:induction false} BranchFromTop(rows: seq<Row>, i: int)
    requires WellFormed(rows) && 0 <= i < |rows|
    ensures Branch(rows, -1, i) >= 0
    decreases i
  {
    if ParentRow(rows, i) >= 0 {
      BranchFromTop(rows, ParentRow(rows, i));
    }
  }

  /** Below `at`, from its child `j` on, row `i` is listed once if it is there at all. */
  lemma {:induction false} CountRow(rows: seq<Row>, at: int, j: nat, i: int)
    requires WellFormed(rows) && -1 <= at < |rows| && j <= |rows| && 0 <= i < |rows|
    ensures multiset(KidRows(rows, at, j))[i] == if Branch(rows, at, i) >= j then 1 else 0
    decreases |rows| - at, |rows| - j
  {
    hide WellFormed, Branch, IsChild, HangsUnder, ParentRow;
    if j < |rows| {
      ChildIsLater(rows, at, j);
      CountRow(rows, at, j + 1, i);
      if IsChild(rows, j, IdOf(rows, at)) {
        CountRow(rows, j, 0, i);
        CountParts(j, KidRows(rows, j, 0), KidRows(rows, at, j + 1), i);
        ParentIs(rows, j, at);
        BranchThrough(rows, at, j, i);
        BranchRange(rows, i);
      } else {
        BranchChild(rows, at, i);
      }
    }
  }

  lemma CountParts(j: int, a: seq<int>, b: seq<int>, i: int)
    ensures multiset([j] + a + b)[i] == (if i == j then 1 else 0) + multiset(a)[i] + multiset(b)[i]
  {
    assert multiset([j] + a + b) == multiset{j} + multiset(a) + multiset(b);
  }

  lemma ParentIs(rows: seq<Row>, j: int, at: int)
    requires WellFormed(rows) && 0 <= j < |rows| && -1 <= at < |rows| && HangsUnder(rows, j, at)
    ensures ParentRow(rows, j) == at
  {
    ParentUnique(rows, j);
  }

  lemma BranchRange(rows: seq<Row>, i: int)
    requires WellFormed(rows) && 0 <= i < |rows|
    ensures Branch(rows, i, i) == -1
  {
    BranchSelf(rows, i, i);
  }

  lemma {:induction false} BranchSelf(rows: seq<Row>, at: int, i: int)
    requires WellFormed(rows) && 0 <= at < |rows| && -1 <= i <= at
    ensures Branch(rows, at, i) == -1
    decreases i
  {
    if i >= 0 {
      BranchSelf(rows, at, ParentRow(rows, i));
    }
  }

  /** What `Branch` finds is a child of `at`. */
  lemma {:induction false} BranchChild(rows: seq<Row>, at: int, i: int)
    requires WellFormed(rows) && -1 <= at < |rows| && -1 <= i < |rows|
    ensures var c := Branch(rows, at, i); c >= 0 ==> HangsUnder(rows, c, at)
    decreases i
  {
    if i >= 0 && ParentRow(rows, i) != at {
      BranchChild(rows, at, ParentRow(rows, i));
    }
  }

  /** The tree built from the top holds every row exactly once. */
  lemma EveryRowOnce(rows: seq<Row>, i: int)
    requires WellFormed(rows) && 0 <= i < |rows|
    ensures multiset(KidRows(rows, -1, 0))[i] == 1
  {
    CountRow(rows, -1, 0, i);
    BranchFromTop(rows, i);
  }

  // ---------- the recursive builder and its text ----------

  function Spaces(n: nat): string {
    seq(n, _ => ' ')
  }

  /** Lines as text, each indented by its depth. */
  function LinesText(lines: seq<Line>): string {
    if lines == [] then ""
    else Spaces(lines[0].depth) + lines[0].info.operation + "\n" + LinesText(lines[1..])
  }

  lemma {:induction false} LinesTextJoin(a: seq<Line>, b: seq<Line>)
    ensures LinesText(a + b) == LinesText(a) + LinesText(b)
  {
    if a == [] {
      assert a + b == b;
    } else {
      assert (a + b)[1..] == a[1..] + b;
      LinesTextJoin(a[1..], b);
    }
  }

  /** The indented text of a forest, two spaces a level. */
  function ForestText(f: seq<PlanNode>, depth: nat): string {
    LinesText(Print(f, depth * 2, 2))
  }

  lemma ForestTextCons(node: PlanNode, rest: seq<PlanNode>, depth: nat)
    ensures ForestText([node] + rest, depth)
         == Spaces(depth * 2) + node.info.operation + "\n" + ForestText(node.children, depth + 1)
           + ForestText(rest, depth)
  {
    hide Spaces;
    var f := [node] + rest;
    var line := Line(depth * 2, node.info);
    var a, b := Print(node.children, depth * 2 + 2, 2), Print(rest, depth * 2, 2);
    assert f[1..] == rest;
    assert Print(f, depth * 2, 2) == [line] + (a + b);
    LinesTextJoin([line], a + b);
    LinesTextJoin(a, b);
    assert LinesText([line]) == Spaces(depth * 2) + node.info.operation + "\n" + LinesText([]) by {
      assert [line][1..] == [];
    }
  }

  // ---------- the recursion ----------

  /** The recursion from the node `id` goes at most `n` levels deeper. */
  predicate Ends(rows: seq<Row>, id: int, n: nat)
    decreases n
  {
    forall j :: 0 <= j < |rows| && IsChild(rows, j, id) ==> n > 0 && Ends(rows, rows[j].id, n - 1)
  }

  /** What the recursion builds of the rows from `j` on. */
  function KidsOf(rows: seq<Row>, id: int, j: nat, n: nat): seq<PlanNode>
    requires Ends(rows, id, n) && j <= |rows|
    decreases n, |rows| - j
  {
    if j == |rows| then []
    else if IsChild(rows, j, id) then
      [PlanNode(Info(rows[j].detail, None), None, KidsOf(rows, rows[j].id, 0, n - 1))] + KidsOf(rows, id, j + 1, n)
    else KidsOf(rows, id, j + 1, n)
  }

  /** The top nodes; none where the recursion never ends. */
  function TopOf(rows: seq<Row>): Option<seq<PlanNode>> {
    if Ends(rows, 0, |rows|) then Some(KidsOf(rows, 0, 0, |rows|)) else None
  }

  lemma {:induction false} EndsDeeper(rows: seq<Row>, id: int, n: nat, m: nat)
    requires Ends(rows, id, n) && n <= m
    ensures Ends(rows, id, m)
    decreases n
  {
    forall j | 0 <= j < |rows| && IsChild(rows, j, id) ensures m > 0 && Ends(rows, rows[j].id, m - 1) {
      EndsDeeper(rows, rows[j].id, n - 1, m - 1);
    }
  }

  /** On rows as the engine lists them the recursion ends, and builds their tree. */
  lemma {:induction false} WellFormedEnds(rows: seq<Row>, at: int)
    requires WellFormed(rows) && -1 <= at < |rows|
    ensures Ends(rows, IdOf(rows, at), |rows| - 1 - at)
    decreases |rows| - at
  {
    hide WellFormed;
    forall j | 0 <= j < |rows| && IsChild(rows, j, IdOf(rows, at))
      ensures |rows| - 1 - at > 0 && Ends(rows, rows[j].id, |rows| - 2 - at)
    {
      ChildIsLater(rows, at, j);
      WellFormedEnds(rows, j);
      EndsDeeper(rows, rows[j].id, |rows| - 1 - j, |rows| - 2 - at);
    }
  }

  lemma {:induction false} WellFormedKids(rows: seq<Row>, at: int, j: nat, n: nat)
    requires WellFormed(rows) && -1 <= at < |rows| && j <= |rows| && Ends(rows, IdOf(rows, at), n)
    ensures KidsOf(rows, IdOf(rows, at), j, n) == Kids(rows, at, j)
    decreases |rows| - at, |rows| - j
  {
    hide WellFormed;
    if j < |rows| {
      ChildIsLater(rows, at, j);
      WellFormedKids(rows, at, j + 1, n);
      if IsChild(rows, j, IdOf(rows, at)) {
        WellFormedKids(rows, j, 0, n - 1);
      }
    }
  }

  // ---------- when it ends ----------

  /** From `id` the recursion comes to a row with id `x` within `n` steps. */
  predicate Below(rows: seq<Row>, id: int, x: int, n: nat)
    decreases n
  {
    && n > 0
    && exists j :: 0 <= j < |rows| && IsChild(rows, j, id) && (rows[j].id == x || Below(rows, rows[j].id, x, n - 1))
  }

  lemma {:induction false} BelowEndsSooner(rows: seq<Row>, id: int, x: int, k: nat, n: nat)
    requires Ends(rows, id, n) && Below(rows, id, x, k)
    ensures n > 0 && Ends(rows, x, n - 1)
    decreases k
  {
    var j :| 0 <= j < |rows| && IsChild(rows, j, id) && (rows[j].id == x || Below(rows, rows[j].id, x, k - 1));
    if rows[j].id != x {
      BelowEndsSooner(rows, rows[j].id, x, k - 1, n - 1);
      EndsDeeper(rows, x, n - 2, n - 1);
    }
  }

  /** A recursion that ends never comes back to where it was. */
  lemma {:induction false} NoReturn(rows: seq<Row>, id: int, k: nat, n: nat)
    requires Ends(rows, id, n)
    ensures !Below(rows, id, id, k)
    decreases n
  {
    if Below(rows, id, id, k) {
      BelowEndsSooner(rows, id, id, k, n);
      NoReturn(rows, id, k, n - 1);
    }
  }

  /** No id the recursion comes to leads back to itself. */
  ghost predicate NoLoopBelow(rows: seq<Row>, id: int) {
    forall x, k: nat, m: nat :: Below(rows, id, x, k) ==> !Below(rows, x, x, m)
  }

  lemma {:induction false} NoLoopEnds(rows: seq<Row>, id: int, ids: set<int>)
    requires NoLoopBelow(rows, id) && forall x, k: nat :: Below(rows, id, x, k) ==> x in ids
    ensures Ends(rows, id, |ids|)
    decreases |ids|
  {
    forall j | 0 <= j < |rows| && IsChild(rows, j, id) ensures |ids| > 0 && Ends(rows, rows[j].id, |ids| - 1) {
      var c := rows[j].id;
      assert Below(rows, id, c, 1);
      var rest := ids - {c};
      assert |rest| == |ids| - 1;
      forall x, k: nat | Below(rows, c, x, k) ensures x in rest {
        assert Below(rows, id, x, k + 1);
      }
      NoLoopFromChild(rows, id, j);
      NoLoopEnds(rows, c, rest);
    }
  }

  lemma NoLoopFromChild(rows: seq<Row>, id: int, j: int)
    requires NoLoopBelow(rows, id) && 0 <= j < |rows| && IsChild(rows, j, id)
    ensures NoLoopBelow(rows, rows[j].id)
  {
    forall x, k: nat, m: nat | Below(rows, rows[j].id, x, k) ensures !Below(rows, x, x, m) {
      assert Below(rows, id, x, k + 1);
    }
  }

  function Ids(rows: seq<Row>): (ids: set<int>)
    ensures |ids| <= |rows|
    ensures forall j :: 0 <= j < |rows| ==> rows[j].id in ids
  {
    if rows == [] then {} else Ids(rows[..|rows| - 1]) + {rows[|rows| - 1].id}
  }

  lemma {:induction false} BelowIsRow(rows: seq<Row>, id: int, x: int, n: nat)
    requires Below(rows, id, x, n)
    ensures x in Ids(rows)
    decreases n
  {
    var j :| 0 <= j < |rows| && IsChild(rows, j, id) && (rows[j].id == x || Below(rows, rows[j].id, x, n - 1));
    if rows[j].id != x {
      BelowIsRow(rows, rows[j].id, x, n - 1);
    }
  }

  lemma EndsHasNoLoop(rows: seq<Row>, n: nat)
    requires Ends(rows, 0, n)
    ensures NoLoopBelow(rows, 0)
  {
    forall x, k: nat, m: nat | Below(rows, 0, x, k) ensures !Below(rows, x, x, m) {
      BelowEndsSooner(rows, 0, x, k, n);
      NoReturn(rows, x, m, n - 1);
    }
  }

  /** Whatever the ids, the recursion ends exactly when no id it comes to from the top leads back to itself. */
  lemma EndsExactly(rows: seq<Row>)
    ensures TopOf(rows).Some? <==> NoLoopBelow(rows, 0)
  {
    hide NoLoopBelow;
    if TopOf(rows).Some? {
      EndsHasNoLoop(rows, |rows|);
    } else if NoLoopBelow(rows, 0) {
      forall x, k: nat | Below(rows, 0, x, k) ensures x in Ids(rows) {
        BelowIsRow(rows, 0, x, k);
      }
      NoLoopEnds(rows, 0, Ids(rows));
      EndsDeeper(rows, 0, |Ids(rows)|, |rows|);
    }
  }

  /** It ends at some depth only if it goes no deeper than there are rows. */
  lemma EndsWithinRows(rows: seq<Row>, n: nat)
    requires Ends(rows, 0, n)
    ensures Ends(rows, 0, |rows|)
  {
    EndsHasNoLoop(rows, n);
    EndsExactly(rows);
  }

  /** A row whose id is the top's makes it recurse for ever. */
  lemma {:induction false} TopIdNeverEnds(n: nat)
    ensures var rows := [Row(1, 0, "a"), Row(0, 1, "b")]; !Ends(rows, 0, n) && !Ends(rows, 1, n)
    decreases n
  {
    var rows := [Row(1, 0, "a"), Row(0, 1, "b")];
    assert IsChild(rows, 0, 0) && IsChild(rows, 1, 1);
    if n > 0 {
      TopIdNeverEnds(n - 1);
    }
  }

  // ---------- the loop ----------

  /** The children of the node with id `parent`; their text goes behind `raw`. The recursion ends within `n` levels. */
  method Build(rows: seq<Row>, parent: int, depth: nat, raw: string, ghost n: nat)
    returns (out: seq<PlanNode>, text: string)
    requires Ends(rows, parent, n)
    ensures out == KidsOf(rows, parent, 0, n)
    ensures text == raw + ForestText(out, depth)
    decreases n
  {
    hide ForestText;
    out, text := [], raw;
    NoText(depth);
    for j := 0 to |rows|
      invariant KidsOf(rows, parent, 0, n) == out + KidsOf(rows, parent, j, n)
      invariant text == raw + ForestText(out, depth)
    {
      if rows[j].parent == parent && rows[j].id != parent {
        assert IsChild(rows, j, parent);
        text := text + (Spaces(depth * 2) + rows[j].detail + "\n");
        var children;
        children, text := Build(rows, rows[j].id, depth + 1, text, n - 1);
        var node := PlanNode(Info(rows[j].detail, None), None, children);
        TextSnoc(out, node, depth);
        out := out + [node];
      }
    }
  }

  lemma NoText(depth: nat)
    ensures ForestText([], depth) == ""
  {
  }

  lemma {:induction false} TextSnoc(f: seq<PlanNode>, node: PlanNode, depth: nat)
    ensures ForestText(f + [node], depth)
         == ForestText(f, depth)
           + (Spaces(depth * 2) + node.info.operation + "\n" + ForestText(node.children, depth + 1))
    decreases |f|
  {
    hide ForestText, Spaces;
    if f == [] {
      assert f + [node] == [node] + [];
      ForestTextCons(node, [], depth);
      NoText(depth);
    } else {
      assert f == [f[0]] + f[1..];
      assert f + [node] == [f[0]] + (f[1..] + [node]);
      ForestTextCons(f[0], f[1..], depth);
      ForestTextCons(f[0], f[1..] + [node], depth);
      TextSnoc(f[1..], node, depth);
    }
  }

  /** The plan of the top nodes: the only one, or a node holding them all; none when nothing is at the top. */
  function PlanOf(top: seq<PlanNode>): Option<PlanNode> {
    if top == [] then None
    else if |top| == 1 then Some(top[0])
    else Some(PlanNode(Info("QUERY PLAN", None), None, top))
  }

  /** Every row list on which the recursion ends. */
  method ParseRows(rows: seq<Row>) returns (plan: Option<PlanNode>, raw: string)
    requires TopOf(rows).Some?
    ensures plan == PlanOf(TopOf(rows).value) && raw == ForestText(TopOf(rows).value, 0)
    ensures plan.None? <==> TopOf(rows).value == []
    ensures |TopOf(rows).value| == 1 ==> plan == Some(TopOf(rows).value[0])
    ensures |TopOf(rows).value| > 1 ==> plan == Some(PlanNode(Info("QUERY PLAN", None), None, TopOf(rows).value))
  {
    hide KidsOf, Ends, ForestText;
    var top;
    top, raw := Build(rows, 0, 0, "", |rows|);
    if top == [] {
      plan := None;
    } else if |top| == 1 {
      plan := Some(top[0]);
    } else {
      plan := Some(PlanNode(Info("QUERY PLAN", None), None, top));
    }
  }

  /** On rows as the engine lists them, those are the top rows, each over the rows that hang under it. */
  lemma WellFormedTree(rows: seq<Row>)
    requires WellFormed(rows)
    ensures TopOf(rows) == Some(Kids(rows, -1, 0))
  {
    WellFormedEnds(rows, -1);
    WellFormedKids(rows, -1, 0, |rows|);
  }
}
