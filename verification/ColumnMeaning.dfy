/** What columns a reference has with no depth limit, and when the limit shows. */
module ColumnMeaning {
  import opened Wrappers
  import opened Relations
  import opened Scopes
  import opened Columns

  // ---------- columns without a limit ----------

  /** The columns of reference `i`; none when finding them enters more than `k` nested bodies on some path. */
  function RefMeans(q: Query, i: int, k: nat): Option<seq<ColInfo>>
    requires ValidQuery(q) && 0 <= i < |q.refs|
    decreases k, 4
  {
    var r := q.refs[i];
    var cte := if |r.path| == 1 then FindCte(q, r.path[0], 0) else None;
    var cols :=
      if r.derived >= 0 then BodyMeans(q, r.derived, k)
      else if r.tableFunction then Some([])
      else if cte.Some? then CteMeans(q, cte.value, k)
      else
        var t := Lookup(q.catalog, r.path);
        Some(if t.Some? then TableColumns(Candidates(q.catalog)[t.value]) else []);
    if cols.None? then None else Some(ApplyAliases(cols.value, r.columnAliases))
  }

  function CteMeans(q: Query, c: int, k: nat): Option<seq<ColInfo>>
    requires ValidQuery(q) && 0 <= c < |q.ctes|
    decreases k, 3
  {
    var cte := q.ctes[c];
    var cols := if cte.body >= 0 then BodyMeans(q, cte.body, k) else Some([]);
    if cols.None? then None else Some(ApplyAliases(cols.value, cte.columns))
  }

  function BodyMeans(q: Query, g: int, k: nat): Option<seq<ColInfo>>
    requires ValidQuery(q) && IsGroup(q, g)
    decreases k, 2
  {
    if k == 0 then None else ItemsMean(q, ItemsOf(q, g), g, k - 1)
  }

  function ItemsMean(q: Query, items: seq<seq<int>>, g: int, k: nat): Option<seq<ColInfo>>
    requires ValidQuery(q) && IsGroup(q, g)
    decreases k, 7, |items|
  {
    if items == [] then Some([])
    else Both(ItemMeans(q, items[0], g, k), ItemsMean(q, items[1..], g, k))
  }

  function Both(a: Option<seq<ColInfo>>, b: Option<seq<ColInfo>>): Option<seq<ColInfo>> {
    if a.Some? && b.Some? then Some(a.value + b.value) else None
  }

  function ItemMeans(q: Query, item: seq<int>, g: int, k: nat): Option<seq<ColInfo>>
    requires ValidQuery(q) && IsGroup(q, g)
    decreases k, 6
  {
    var shape := ShapeOf(q, item);
    var refs := Consulted(q, g, shape);
    match shape
    case Nothing => Some([])
    case AllColumns => RefsMean(q, refs, k)
    case ColumnsOf(_) => RefsMean(q, refs, k)
    case Named(name) => Some([ColInfo(name, "", None)])
    case Qualified(name, _) => One(Found(q, refs, name, k))
    case Bare(name) => One(Found(q, refs, name, k))
  }

  function One(c: Option<ColInfo>): Option<seq<ColInfo>> {
    if c.Some? then Some([c.value]) else None
  }

  function RefsMean(q: Query, refs: seq<int>, k: nat): Option<seq<ColInfo>>
    requires ValidQuery(q) && forall m :: 0 <= m < |refs| ==> 0 <= refs[m] < |q.refs|
    decreases k, 5, |refs|
  {
    if refs == [] then Some([]) else Both(RefMeans(q, refs[0], k), RefsMean(q, refs[1..], k))
  }

  /** Only the references up to the first that knows the name are looked into. */
  function Found(q: Query, refs: seq<int>, name: string, k: nat): Option<ColInfo>
    requires ValidQuery(q) && forall m :: 0 <= m < |refs| ==> 0 <= refs[m] < |q.refs|
    decreases k, 5, |refs|
  {
    if refs == [] then Some(ColInfo(name, "", None))
    else
      var cols := RefMeans(q, refs[0], k);
      if cols.None? then None
      else
        var c := FirstNamed(cols.value, name);
        if c.Some? && (c.value.ty != "" || c.value.column.Some?) then Some(ColInfo(name, c.value.ty, c.value.column))
        else Found(q, refs[1..], name, k)
  }

  // ---------- a limit with room does not show ----------

  lemma {:induction false} RefBoundHides(q: Query, i: int, k: nat, depth: nat, bound: nat)
    requires ValidQuery(q) && 0 <= i < |q.refs| && RefMeans(q, i, k).Some? && depth + 2 * k <= bound
    ensures RefCols(q, i, depth, bound) == RefMeans(q, i, k).value
    decreases k, 4
  {
    var r := q.refs[i];
    assert r.derived >= 0 ==> IsGroup(q, r.derived);
    hide ValidQuery, TreeAt, ScopesOf, BodyMeans, SelectCols, CteMeans, CteCols;
    var cte := if |r.path| == 1 then FindCte(q, r.path[0], 0) else None;
    if r.derived >= 0 {
      BodyBoundHides(q, r.derived, k, depth + 1, bound);
    } else if cte.Some? && !r.tableFunction {
      CteBoundHides(q, cte.value, k, depth, bound);
    }
  }

  lemma {:induction false} CteBoundHides(q: Query, c: int, k: nat, depth: nat, bound: nat)
    requires ValidQuery(q) && 0 <= c < |q.ctes| && CteMeans(q, c, k).Some? && depth + 2 * k <= bound
    ensures CteCols(q, c, depth, bound) == CteMeans(q, c, k).value
    decreases k, 3
  {
    assert q.ctes[c].body >= 0 ==> IsGroup(q, q.ctes[c].body);
    hide ValidQuery, TreeAt, ScopesOf, BodyMeans, SelectCols;
    if q.ctes[c].body >= 0 {
      BodyBoundHides(q, q.ctes[c].body, k, depth + 1, bound);
    }
  }

  /** A limit that leaves room for the bodies a body enters gives its columns. */
  lemma {:induction false} BodyBoundHides(q: Query, g: int, k: nat, depth: nat, bound: nat)
    requires ValidQuery(q) && IsGroup(q, g) && BodyMeans(q, g, k).Some? && depth + 2 * k <= bound + 1
    ensures SelectCols(q, g, depth, bound) == BodyMeans(q, g, k).value
    decreases k, 2
  {
    hide ValidQuery, TreeAt, ScopesOf, ItemsMean, ItemsCols;
    ItemsBoundHides(q, ItemsOf(q, g), g, k - 1, depth, bound);
  }

  lemma {:induction false} ItemsBoundHides(q: Query, items: seq<seq<int>>, g: int, k: nat, depth: nat, bound: nat)
    requires ValidQuery(q) && IsGroup(q, g) && ItemsMean(q, items, g, k).Some? && depth + 1 + 2 * k <= bound
    ensures ItemsCols(q, items, g, depth, bound) == ItemsMean(q, items, g, k).value
    decreases k, 7, |items|
  {
    hide ValidQuery, TreeAt, ScopesOf, ItemCols, ItemMeans;
    if items != [] {
      ItemBoundHides(q, items[0], g, k, depth, bound);
      ItemsBoundHides(q, items[1..], g, k, depth, bound);
    }
  }

  lemma {:induction false} ItemBoundHides(q: Query, item: seq<int>, g: int, k: nat, depth: nat, bound: nat)
    requires ValidQuery(q) && IsGroup(q, g) && ItemMeans(q, item, g, k).Some? && depth + 1 + 2 * k <= bound
    ensures ItemCols(q, item, g, depth, bound) == ItemMeans(q, item, g, k).value
    decreases k, 6
  {
    hide ValidQuery, TreeAt, ScopesOf, ShapeOf, Consulted, RefsMean, RefsCols, Found, Resolve;
    var shape := ShapeOf(q, item);
    var refs := Consulted(q, g, shape);
    if shape.AllColumns? || shape.ColumnsOf? {
      RefsBoundHide(q, refs, k, depth + 1, bound);
    } else if shape.Qualified? || shape.Bare? {
      ResolveBoundHides(q, refs, shape.name, k, depth + 1, bound);
    }
  }

  lemma {:induction false} RefsBoundHide(q: Query, refs: seq<int>, k: nat, depth: nat, bound: nat)
    requires ValidQuery(q) && (forall m :: 0 <= m < |refs| ==> 0 <= refs[m] < |q.refs|)
    requires RefsMean(q, refs, k).Some? && depth + 2 * k <= bound
    ensures RefsCols(q, refs, depth, bound) == RefsMean(q, refs, k).value
    decreases k, 5, |refs|
  {
    hide ValidQuery, TreeAt, ScopesOf, RefMeans, RefCols;
    if refs != [] {
      RefBoundHides(q, refs[0], k, depth, bound);
      RefsBoundHide(q, refs[1..], k, depth, bound);
    }
  }

  lemma {:induction false} ResolveBoundHides(q: Query, refs: seq<int>, name: string, k: nat, depth: nat, bound: nat)
    requires ValidQuery(q) && (forall m :: 0 <= m < |refs| ==> 0 <= refs[m] < |q.refs|)
    requires Found(q, refs, name, k).Some? && depth + 2 * k <= bound
    ensures Resolve(q, refs, name, depth, bound) == Found(q, refs, name, k).value
    decreases k, 5, |refs|
  {
    hide ValidQuery, TreeAt, ScopesOf, RefMeans, RefCols, FirstNamed;
    if refs != [] {
      RefBoundHides(q, refs[0], k, depth, bound);
      var c := FirstNamed(RefCols(q, refs[0], depth, bound), name);
      if !(c.Some? && (c.value.ty != "" || c.value.column.Some?)) {
        ResolveBoundHides(q, refs[1..], name, k, depth, bound);
      }
    }
  }

  // ---------- what the limit cuts off ----------

  /** Evaluating reference `i` comes to no reference and no body below the limit. */
  predicate RefWhole(q: Query, i: int, depth: nat, bound: nat)
    requires ValidQuery(q) && 0 <= i < |q.refs|
    decreases Fuel(depth, bound), 4
  {
    var r := q.refs[i];
    var cte := if |r.path| == 1 then FindCte(q, r.path[0], 0) else None;
    && depth <= bound
    && (r.derived >= 0 ==> BodyWhole(q, r.derived, depth + 1, bound))
    && (r.derived < 0 && !r.tableFunction && cte.Some? ==> CteWhole(q, cte.value, depth, bound))
  }

  predicate CteWhole(q: Query, c: int, depth: nat, bound: nat)
    requires ValidQuery(q) && 0 <= c < |q.ctes|
    decreases Fuel(depth, bound), 3
  {
    q.ctes[c].body >= 0 ==> BodyWhole(q, q.ctes[c].body, depth + 1, bound)
  }

  predicate BodyWhole(q: Query, g: int, depth: nat, bound: nat)
    requires ValidQuery(q) && IsGroup(q, g)
    decreases Fuel(depth, bound), 2
  {
    depth <= bound && ItemsWhole(q, ItemsOf(q, g), g, depth, bound)
  }

  predicate ItemsWhole(q: Query, items: seq<seq<int>>, g: int, depth: nat, bound: nat)
    requires ValidQuery(q) && IsGroup(q, g) && depth <= bound
    decreases Fuel(depth, bound), 1, |items|
  {
    items == [] || (ItemWhole(q, items[0], g, depth, bound) && ItemsWhole(q, items[1..], g, depth, bound))
  }

  predicate ItemWhole(q: Query, item: seq<int>, g: int, depth: nat, bound: nat)
    requires ValidQuery(q) && IsGroup(q, g) && depth <= bound
    decreases Fuel(depth, bound), 0
  {
    var shape := ShapeOf(q, item);
    var refs := Consulted(q, g, shape);
    match shape
    case AllColumns => RefsWhole(q, refs, depth + 1, bound)
    case ColumnsOf(_) => RefsWhole(q, refs, depth + 1, bound)
    case Qualified(name, _) => FoundWhole(q, refs, name, depth + 1, bound)
    case Bare(name) => FoundWhole(q, refs, name, depth + 1, bound)
    case _ => true
  }

  predicate RefsWhole(q: Query, refs: seq<int>, depth: nat, bound: nat)
    requires ValidQuery(q) && forall m :: 0 <= m < |refs| ==> 0 <= refs[m] < |q.refs|
    decreases Fuel(depth, bound), 5, |refs|
  {
    refs == [] || (RefWhole(q, refs[0], depth, bound) && RefsWhole(q, refs[1..], depth, bound))
  }

  predicate FoundWhole(q: Query, refs: seq<int>, name: string, depth: nat, bound: nat)
    requires ValidQuery(q) && forall m :: 0 <= m < |refs| ==> 0 <= refs[m] < |q.refs|
    decreases Fuel(depth, bound), 5, |refs|
  {
    refs == [] ||
    (RefWhole(q, refs[0], depth, bound)
     && var c := FirstNamed(RefCols(q, refs[0], depth, bound), name);
        (c.Some? && (c.value.ty != "" || c.value.column.Some?)) || FoundWhole(q, refs[1..], name, depth, bound))
  }

  // ---------- the limit cuts nothing off exactly when it leaves room ----------

  lemma {:induction false} RefWholeExactly(q: Query, i: int, k: nat, depth: nat, bound: nat)
    requires ValidQuery(q) && 0 <= i < |q.refs| && depth + 2 * k == bound
    ensures RefWhole(q, i, depth, bound) <==> RefMeans(q, i, k).Some?
    decreases k, 4
  {
    var r := q.refs[i];
    assert r.derived >= 0 ==> IsGroup(q, r.derived);
    hide ValidQuery, TreeAt, ScopesOf, BodyMeans, BodyWhole, CteMeans, CteWhole;
    var cte := if |r.path| == 1 then FindCte(q, r.path[0], 0) else None;
    if r.derived >= 0 {
      BodyWholeExactly(q, r.derived, k, depth + 1, bound);
    } else if cte.Some? && !r.tableFunction {
      CteWholeExactly(q, cte.value, k, depth, bound);
    }
  }

  lemma {:induction false} CteWholeExactly(q: Query, c: int, k: nat, depth: nat, bound: nat)
    requires ValidQuery(q) && 0 <= c < |q.ctes| && depth + 2 * k == bound
    ensures CteWhole(q, c, depth, bound) <==> CteMeans(q, c, k).Some?
    decreases k, 3
  {
    assert q.ctes[c].body >= 0 ==> IsGroup(q, q.ctes[c].body);
    hide ValidQuery, TreeAt, ScopesOf, BodyMeans, BodyWhole;
    if q.ctes[c].body >= 0 {
      BodyWholeExactly(q, q.ctes[c].body, k, depth + 1, bound);
    }
  }

  lemma {:induction false} BodyWholeExactly(q: Query, g: int, k: nat, depth: nat, bound: nat)
    requires ValidQuery(q) && IsGroup(q, g) && depth + 2 * k == bound + 1
    ensures BodyWhole(q, g, depth, bound) <==> BodyMeans(q, g, k).Some?
    decreases k, 2
  {
    hide ValidQuery, TreeAt, ScopesOf, ItemsMean, ItemsWhole;
    if k > 0 {
      ItemsWholeExactly(q, ItemsOf(q, g), g, k - 1, depth, bound);
    }
  }

  lemma {:induction false} ItemsWholeExactly(q: Query, items: seq<seq<int>>, g: int, k: nat, depth: nat, bound: nat)
    requires ValidQuery(q) && IsGroup(q, g) && depth + 1 + 2 * k == bound
    ensures ItemsWhole(q, items, g, depth, bound) <==> ItemsMean(q, items, g, k).Some?
    decreases k, 7, |items|
  {
    hide ValidQuery, TreeAt, ScopesOf, ItemWhole, ItemMeans;
    if items != [] {
      ItemWholeExactly(q, items[0], g, k, depth, bound);
      ItemsWholeExactly(q, items[1..], g, k, depth, bound);
    }
  }

  lemma {:induction false} ItemWholeExactly(q: Query, item: seq<int>, g: int, k: nat, depth: nat, bound: nat)
    requires ValidQuery(q) && IsGroup(q, g) && depth + 1 + 2 * k == bound
    ensures ItemWhole(q, item, g, depth, bound) <==> ItemMeans(q, item, g, k).Some?
    decreases k, 6
  {
    hide ValidQuery, TreeAt, ScopesOf, ShapeOf, Consulted, RefsMean, RefsWhole, Found, FoundWhole;
    var shape := ShapeOf(q, item);
    var refs := Consulted(q, g, shape);
    if shape.AllColumns? || shape.ColumnsOf? {
      RefsWholeExactly(q, refs, k, depth + 1, bound);
    } else if shape.Qualified? || shape.Bare? {
      FoundWholeExactly(q, refs, shape.name, k, depth + 1, bound);
    }
  }

  lemma {:induction false} RefsWholeExactly(q: Query, refs: seq<int>, k: nat, depth: nat, bound: nat)
    requires ValidQuery(q) && (forall m :: 0 <= m < |refs| ==> 0 <= refs[m] < |q.refs|) && depth + 2 * k == bound
    ensures RefsWhole(q, refs, depth, bound) <==> RefsMean(q, refs, k).Some?
    decreases k, 5, |refs|
  {
    hide ValidQuery, TreeAt, ScopesOf, RefMeans, RefWhole;
    if refs != [] {
      RefWholeExactly(q, refs[0], k, depth, bound);
      RefsWholeExactly(q, refs[1..], k, depth, bound);
    }
  }

  lemma {:induction false} FoundWholeExactly(q: Query, refs: seq<int>, name: string, k: nat, depth: nat, bound: nat)
    requires ValidQuery(q) && (forall m :: 0 <= m < |refs| ==> 0 <= refs[m] < |q.refs|) && depth + 2 * k == bound
    ensures FoundWhole(q, refs, name, depth, bound) <==> Found(q, refs, name, k).Some?
    decreases k, 5, |refs|
  {
    hide ValidQuery, TreeAt, ScopesOf, RefMeans, RefWhole, RefCols, FirstNamed;
    if refs != [] {
      RefWholeExactly(q, refs[0], k, depth, bound);
      if RefMeans(q, refs[0], k).Some? {
        RefBoundHides(q, refs[0], k, depth, bound);
        FoundWholeExactly(q, refs[1..], name, k, depth, bound);
      }
    }
  }

  /**
   The source's limit cuts nothing off exactly when finding the columns enters at most three nested bodies on any
   path; then it gives the columns there are, and so does any larger limit.
   */
  lemma MaxDepthIsExact(q: Query, i: int, bound: nat)
    requires ValidQuery(q) && 0 <= i < |q.refs| && bound >= MAX_DEPTH
    ensures RefWhole(q, i, 0, MAX_DEPTH) <==> RefMeans(q, i, 3).Some?
    ensures RefWhole(q, i, 0, MAX_DEPTH) ==>
            RefCols(q, i, 0, MAX_DEPTH) == RefMeans(q, i, 3).value == RefCols(q, i, 0, bound)
  {
    RefWholeExactly(q, i, 3, 0, MAX_DEPTH);
    hide ValidQuery, TreeAt, ScopesOf, RefMeans, RefCols, RefWhole;
    if RefMeans(q, i, 3).Some? {
      RefBoundHides(q, i, 3, 0, MAX_DEPTH);
      RefBoundHides(q, i, 3, 0, bound);
    }
  }

  /** And so for a CTE. */
  lemma MaxDepthIsExactForCtes(q: Query, c: int, bound: nat)
    requires ValidQuery(q) && 0 <= c < |q.ctes| && bound >= MAX_DEPTH
    ensures CteWhole(q, c, 0, MAX_DEPTH) <==> CteMeans(q, c, 3).Some?
    ensures CteWhole(q, c, 0, MAX_DEPTH) ==>
            CteCols(q, c, 0, MAX_DEPTH) == CteMeans(q, c, 3).value == CteCols(q, c, 0, bound)
  {
    CteWholeExactly(q, c, 3, 0, MAX_DEPTH);
    hide ValidQuery, TreeAt, ScopesOf, CteMeans, CteCols, CteWhole;
    if CteMeans(q, c, 3).Some? {
      CteBoundHides(q, c, 3, 0, MAX_DEPTH);
      CteBoundHides(q, c, 3, 0, bound);
    }
  }
}
