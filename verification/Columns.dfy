/**
 The columns of a table reference, a CTE or a derived table: mutual recursion through nested
 select lists, cut off at a depth bound so that self-referencing CTEs end too.
 */
module Columns {
  import opened Text
  import opened Wrappers
  import opened Lexer
  import opened Relations
  import opened Scopes
  import opened Shadowing
  import opened LexTheorems

  /** The source's depth limit. */
  const MAX_DEPTH := 6

  datatype ColInfo = ColInfo(name: string, ty: string, column: Option<Column>)

  datatype Cte = Cte(name: string, columns: seq<string>, body: int)

  /** A statement as the analyzer holds it: tokens without comments, their scopes, its CTEs and references. */
  datatype Query = Query(toks: seq<Token>, tree: Tree, ctes: seq<Cte>, refs: seq<RelationRef>, catalog: Catalog,
      notAlias: set<string>)

  predicate IsGroup(q: Query, g: int) {
    0 <= g < |q.tree.groups|
  }

  /** The tree is the tokens' own; every reference has a name; scopes, derived tables and CTE bodies are its groups. */
  ghost predicate ValidQuery(q: Query) {
    && q.tree == ScopesOf(q.toks)
    && RefsInside(q.tree, q.refs)
    && (forall i :: 0 <= i < |q.refs| ==> q.refs[i].name != "")
    && (forall i :: 0 <= i < |q.refs| && q.refs[i].derived >= 0 ==> IsGroup(q, q.refs[i].derived))
    && (forall i :: 0 <= i < |q.ctes| && q.ctes[i].body >= 0 ==> IsGroup(q, q.ctes[i].body))
  }

  // ---------- tokens of the select list ----------

  predicate IsWordAt(q: Query, i: int, word: string) {
    0 <= i < |q.toks| && q.toks[i].kind.Word? && Ieq(q.toks[i].text, word)
  }

  predicate IsOneOf(q: Query, i: int, words: seq<string>) {
    exists k :: 0 <= k < |words| && IsWordAt(q, i, words[k])
  }

  predicate IsPunctAt(q: Query, i: int, c: char) {
    0 <= i < |q.toks| && q.toks[i].kind.Punct? && q.toks[i].text == [c]
  }

  predicate IsIdentAt(q: Query, i: int) {
    0 <= i < |q.toks| && (q.toks[i].kind.Word? || q.toks[i].kind.QuotedIdent?)
  }

  /** The index of the `)` of the `(` at `i`; the number of tokens when it has none. */
  function CloseOf(q: Query, i: int): (c: int)
    requires ValidQuery(q) && IsPunctAt(q, i, '(')
    ensures i < c
  {
    ParenthesesMarked(q.toks, |q.toks|);
    ScopesWellFormed(q.toks);
    assert IsOpen(q.toks[i]);
    assert ValidGroup(q.tree, |q.toks|, q.tree.opens[i]);
    q.tree.groups[q.tree.opens[i]].close
  }

  const STOP_WORDS := ["FROM", "INTO", "WHERE", "GROUP", "ORDER", "HAVING", "LIMIT",
                      "UNION", "EXCEPT", "INTERSECT", "WINDOW", "FETCH", "OFFSET"]

  /** The first SELECT of group `g` itself from `k` on. */
  function FindSelect(q: Query, g: int, k: int, end: int): (r: int)
    requires 0 <= k && end <= |q.toks| && |q.tree.groupOf| == |q.toks|
    ensures k <= r
    decreases end - k
  {
    if k < end && !(q.tree.groupOf[k] == g && IsWordAt(q, k, "SELECT")) then FindSelect(q, g, k + 1, end) else k
  }

  /** Past one modifier of a select list, with its ON or TOP argument; `k` itself when there is none. */
  function PastModifier(q: Query, k: int): (n: int)
    requires ValidQuery(q) && 0 <= k
    ensures k <= n
  {
    if IsOneOf(q, k, ["DISTINCT", "ALL"]) then
      if IsWordAt(q, k + 1, "ON") && IsPunctAt(q, k + 2, '(') then CloseOf(q, k + 2) + 1 else k + 1
    else if IsWordAt(q, k, "TOP") then
      var j := if IsPunctAt(q, k + 1, '(') then CloseOf(q, k + 1) + 1 else k + 2;
      if IsWordAt(q, j, "PERCENT") then j + 1 else j
    else k
  }

  function SkipModifiers(q: Query, k: int, end: int): (r: int)
    requires ValidQuery(q) && 0 <= k
    ensures k <= r
    decreases end - k
  {
    if k >= end || PastModifier(q, k) == k then k else SkipModifiers(q, PastModifier(q, k), end)
  }

  /** The items of a select list, each the indices of its own tokens: a parenthesis counts for all it holds. */
  function ItemsFrom(q: Query, k: int, end: int, item: seq<int>): seq<seq<int>>
    requires ValidQuery(q) && 0 <= k && end <= |q.toks|
    decreases end - k
  {
    if k >= end || IsOneOf(q, k, STOP_WORDS) then [item]
    else if IsPunctAt(q, k, ',') then [item] + ItemsFrom(q, k + 1, end, [])
    else ItemsFrom(q, if IsPunctAt(q, k, '(') then CloseOf(q, k) + 1 else k + 1, end, item + [k])
  }

  /** The tokens of group `g`: from the one after its `(` to its `)`, or the end. */
  function StartOf(q: Query, g: int): (k: int)
    requires ValidQuery(q) && IsGroup(q, g)
    ensures 0 <= k
  {
    ScopesWellFormed(q.toks);
    assert g > 0 ==> ValidGroup(q.tree, |q.toks|, g);
    q.tree.groups[g].open + 1
  }

  function EndOf(q: Query, g: int): (e: int)
    requires IsGroup(q, g)
    ensures e <= |q.toks|
  {
    if q.tree.groups[g].close < |q.toks| then q.tree.groups[g].close else |q.toks|
  }

  lemma GroupOfAll(q: Query)
    requires ValidQuery(q)
    ensures |q.tree.groupOf| == |q.toks|
  {
    ScopesWellFormed(q.toks);
  }

  /** The select list of group `g`; empty when it holds no SELECT of its own. */
  function ItemsOf(q: Query, g: int): seq<seq<int>>
    requires ValidQuery(q) && IsGroup(q, g)
  {
    GroupOfAll(q);
    var k, end := FindSelect(q, g, StartOf(q, g), EndOf(q, g)), EndOf(q, g);
    if k >= end then [] else ItemsFrom(q, SkipModifiers(q, k + 1, end), end, [])
  }

  // ---------- what one item stands for ----------

  datatype Shape =
    | Nothing
    | AllColumns
    | ColumnsOf(ref: string)
    | Named(name: string)
    | Qualified(name: string, ref: string)
    | Bare(name: string)

  /** Identifiers at even places, dots at odd ones. */
  predicate Alternates(q: Query, item: seq<int>) {
    forall i :: 0 <= i < |item| ==> if i % 2 == 0 then IsIdentAt(q, item[i]) else IsPunctAt(q, item[i], '.')
  }

  predicate IsOpAt(q: Query, i: int) {
    0 <= i < |q.toks| && q.toks[i].kind.Op?
  }

  function ShapeOf(q: Query, item: seq<int>): Shape {
    if item == [] then Nothing
    else
      var n := |item|;
      var last := item[n - 1];
      if IsOpAt(q, last) && q.toks[last].text == "*" then
        if n == 1 then AllColumns
        else if n >= 3 && IsPunctAt(q, item[n - 2], '.')
          && IsIdentAt(q, item[n - 3]) then ColumnsOf(q.toks[item[n - 3]].text)
        else Nothing
      else if !IsIdentAt(q, last) then Nothing
      else
        var name := q.toks[last].text;
        if n >= 2 && IsWordAt(q, item[n - 2], "AS") then Named(name)
        else if Alternates(q, item) && n % 2 == 1 then
          if n >= 3 then Qualified(name, q.toks[item[n - 3]].text) else Bare(name)
        else if n >= 2 && q.toks[last].kind.Word? && Upper(name) in q.notAlias then Nothing
        else if n >= 2 && !IsPunctAt(q, item[n - 2], '.') && !IsOpAt(q, item[n - 2]) then Named(name)
        else Nothing
  }

  /** The references of group `g` itself, from the `i`th on. */
  function RefsIn(q: Query, g: int, i: nat): (r: seq<int>)
    requires i <= |q.refs|
    ensures forall k :: 0 <= k < |r| ==> 0 <= r[k] < |q.refs|
    decreases |q.refs| - i
  {
    if i == |q.refs| then [] else (if q.refs[i].group == g then [i as int] else []) + RefsIn(q, g, i + 1)
  }

  function FirstRefIn(q: Query, name: string, g: int, i: nat): (r: Option<int>)
    requires i <= |q.refs|
    ensures r.Some? ==> 0 <= r.value < |q.refs|
    decreases |q.refs| - i
  {
    if i == |q.refs| then None
    else if q.refs[i].group == g && Ieq(q.refs[i].name, name) then Some(i)
    else FirstRefIn(q, name, g, i + 1)
  }

  /** A reference of the group itself, else the nearest one around it. */
  function FindRefIn(q: Query, name: string, g: int): (r: Option<int>)
    requires ValidQuery(q) && IsGroup(q, g)
    ensures r.Some? ==> 0 <= r.value < |q.refs|
  {
    ScopesWellFormed(q.toks);
    var own := FirstRefIn(q, name, g, 0);
    if own.Some? then own else FindRefAmong(q.tree, |q.toks|, q.refs, name, g, |q.refs|)
  }

  /** The references whose columns an item of group `g` is made from. */
  function Consulted(q: Query, g: int, shape: Shape): (r: seq<int>)
    requires ValidQuery(q) && IsGroup(q, g)
    ensures forall k :: 0 <= k < |r| ==> 0 <= r[k] < |q.refs|
  {
    match shape
    case AllColumns => RefsIn(q, g, 0)
    case Bare(_) => RefsIn(q, g, 0)
    case ColumnsOf(ref) => var r := FindRefIn(q, ref, g); if r.Some? then [r.value] else []
    case Qualified(_, ref) => var r := FindRefIn(q, ref, g); if r.Some? then [r.value] else []
    case _ => []
  }

  function FindCte(q: Query, name: string, i: nat): (r: Option<int>)
    requires i <= |q.ctes|
    ensures r.Some? ==> 0 <= r.value < |q.ctes|
    decreases |q.ctes| - i
  {
    if i == |q.ctes| then None else if Ieq(q.ctes[i].name, name) then Some(i) else FindCte(q, name, i + 1)
  }

  function TableColumns(t: Table): seq<ColInfo> {
    seq(|t.columns|, i requires 0 <= i < |t.columns| => ColInfo(t.columns[i].name, t.columns[i].ty, Some(t.columns[i])))
  }

  /** Aliases rename the first columns; those past the end make columns of their own. */
  function ApplyAliases(cols: seq<ColInfo>, aliases: seq<string>): seq<ColInfo> {
    if aliases == [] then cols
    else if cols == [] then [ColInfo(aliases[0], "", None)] + ApplyAliases([], aliases[1..])
    else [cols[0].(name := aliases[0], column := None)] + ApplyAliases(cols[1..], aliases[1..])
  }

  // ---------- the evaluator ----------

  function Fuel(depth: nat, bound: nat): nat {
    if depth <= bound then bound - depth + 1 else 0
  }

  function RefCols(q: Query, i: int, depth: nat, bound: nat): seq<ColInfo>
    requires ValidQuery(q) && 0 <= i < |q.refs|
    decreases Fuel(depth, bound), 4
  {
    var r := q.refs[i];
    if depth > bound then []
    else
      var cte := if |r.path| == 1 then FindCte(q, r.path[0], 0) else None;
      var cols :=
        if r.derived >= 0 then SelectCols(q, r.derived, depth + 1, bound)
        else if r.tableFunction then []
        else if cte.Some? then CteCols(q, cte.value, depth, bound)
        else
          var k := Lookup(q.catalog, r.path);
          if k.Some? then TableColumns(Candidates(q.catalog)[k.value]) else [];
      ApplyAliases(cols, r.columnAliases)
  }

  function CteCols(q: Query, c: int, depth: nat, bound: nat): seq<ColInfo>
    requires ValidQuery(q) && 0 <= c < |q.ctes|
    decreases Fuel(depth, bound), 3
  {
    var cte := q.ctes[c];
    ApplyAliases(if cte.body >= 0 then SelectCols(q, cte.body, depth + 1, bound) else [], cte.columns)
  }

  function SelectCols(q: Query, g: int, depth: nat, bound: nat): seq<ColInfo>
    requires ValidQuery(q) && IsGroup(q, g)
    decreases Fuel(depth, bound), 2
  {
    if depth > bound then [] else ItemsCols(q, ItemsOf(q, g), g, depth, bound)
  }

  function ItemsCols(q: Query, items: seq<seq<int>>, g: int, depth: nat, bound: nat): seq<ColInfo>
    requires ValidQuery(q) && IsGroup(q, g) && depth <= bound
    decreases Fuel(depth, bound), 1, |items|
  {
    if items == [] then [] else ItemCols(q, items[0], g, depth, bound) + ItemsCols(q, items[1..], g, depth, bound)
  }

  function ItemCols(q: Query, item: seq<int>, g: int, depth: nat, bound: nat): seq<ColInfo>
    requires ValidQuery(q) && IsGroup(q, g) && depth <= bound
    decreases Fuel(depth, bound), 0
  {
    var shape := ShapeOf(q, item);
    var refs := Consulted(q, g, shape);
    match shape
    case Nothing => []
    case AllColumns => RefsCols(q, refs, depth + 1, bound)
    case ColumnsOf(_) => RefsCols(q, refs, depth + 1, bound)
    case Named(name) => [ColInfo(name, "", None)]
    case Qualified(name, _) => [Resolve(q, refs, name, depth + 1, bound)]
    case Bare(name) => [Resolve(q, refs, name, depth + 1, bound)]
  }

  /** The columns of several references, one after the other. */
  function RefsCols(q: Query, refs: seq<int>, depth: nat, bound: nat): seq<ColInfo>
    requires ValidQuery(q) && forall k :: 0 <= k < |refs| ==> 0 <= refs[k] < |q.refs|
    decreases Fuel(depth, bound), 5, |refs|
  {
    if refs == [] then [] else RefCols(q, refs[0], depth, bound) + RefsCols(q, refs[1..], depth, bound)
  }

  function FirstNamed(cols: seq<ColInfo>, name: string): Option<ColInfo> {
    if cols == [] then None else if Ieq(cols[0].name, name) then Some(cols[0]) else FirstNamed(cols[1..], name)
  }

  /** A column by name, with the type and origin of the first reference that knows one. */
  function Resolve(q: Query, refs: seq<int>, name: string, depth: nat, bound: nat): ColInfo
    requires ValidQuery(q) && forall k :: 0 <= k < |refs| ==> 0 <= refs[k] < |q.refs|
    decreases Fuel(depth, bound), 5, |refs|
  {
    if refs == [] then ColInfo(name, "", None)
    else
      var c := FirstNamed(RefCols(q, refs[0], depth, bound), name);
      if c.Some? && (c.value.ty != "" || c.value.column.Some?) then ColInfo(name, c.value.ty, c.value.column)
      else Resolve(q, refs[1..], name, depth, bound)
  }

  // ---------- the loops ----------

  method RefColumns(q: Query, i: int, depth: nat) returns (cols: seq<ColInfo>)
    requires ValidQuery(q) && 0 <= i < |q.refs|
    ensures cols == RefCols(q, i, depth, MAX_DEPTH)
    decreases Fuel(depth, MAX_DEPTH), 4
  {
    hide ItemsCols, ItemCols, SelectCols, CteCols;
    if depth > MAX_DEPTH {
      return [];
    }
    var r := q.refs[i];
    cols := [];
    if r.derived >= 0 {
      cols := SelectColumns(q, r.derived, depth + 1);
    } else if r.tableFunction {
      // nothing is known of what a function returns
    } else {
      var cte := if |r.path| == 1 then FindCte(q, r.path[0], 0) else None;
      if cte.Some? {
        cols := CteColumns(q, cte.value, depth);
      } else {
        var k := FindRelation(q.catalog, r.path);
        if k.Some? {
          cols := TableColumns(Candidates(q.catalog)[k.value]);
        }
      }
    }
    cols := ApplyAliases(cols, r.columnAliases);
  }

  method CteColumns(q: Query, c: int, depth: nat) returns (cols: seq<ColInfo>)
    requires ValidQuery(q) && 0 <= c < |q.ctes|
    ensures cols == CteCols(q, c, depth, MAX_DEPTH)
    decreases Fuel(depth, MAX_DEPTH), 3
  {
    hide SelectCols;
    cols := [];
    if q.ctes[c].body >= 0 {
      cols := SelectColumns(q, q.ctes[c].body, depth + 1);
    }
    cols := ApplyAliases(cols, q.ctes[c].columns);
  }

  method FindSelectFrom(q: Query, g: int, start: int, end: int) returns (k: int)
    requires 0 <= start && end <= |q.toks| && |q.tree.groupOf| == |q.toks|
    ensures k == FindSelect(q, g, start, end)
  {
    k := start;
    while k < end && !(q.tree.groupOf[k] == g && IsWordAt(q, k, "SELECT"))
      invariant start <= k
      invariant FindSelect(q, g, start, end) == FindSelect(q, g, k, end)
      decreases end - k
    {
      k := k + 1;
    }
  }

  /** The first SELECT of group `g` itself, and where the group's tokens end. */
  method SkipToSelect(q: Query, g: int) returns (found: bool, k: int, end: int)
    requires ValidQuery(q) && IsGroup(q, g)
    ensures 0 <= k && end <= |q.toks|
    ensures ItemsOf(q, g) == if found then ItemsFrom(q, SkipModifiers(q, k, end), end, []) else []
  {
    hide ValidQuery, FindSelect, SkipModifiers, ItemsFrom, StartOf, EndOf, TreeAt, ScopesOf, CloseOf, IsWordAt,
      IsPunctAt, RefsInside;
    GroupOfAll(q);
    end := EndOf(q, g);
    k := FindSelectFrom(q, g, StartOf(q, g), end);
    found := k < end;
    k := k + 1;
  }

  method SkipDistinctAndTop(q: Query, start: int, end: int) returns (k: int)
    requires ValidQuery(q) && 0 <= start
    ensures k == SkipModifiers(q, start, end)
  {
    hide ValidQuery, TreeAt, ScopesOf, CloseOf, IsOneOf, IsWordAt, IsPunctAt;
    k := start;
    while k < end
      invariant start <= k
      invariant SkipModifiers(q, start, end) == SkipModifiers(q, k, end)
      decreases end - k
    {
      if IsOneOf(q, k, ["DISTINCT", "ALL"]) {
        k := k + 1;
        if IsWordAt(q, k, "ON") && IsPunctAt(q, k + 1, '(') {
          k := CloseOf(q, k + 1) + 1;
        }
      } else if IsWordAt(q, k, "TOP") {
        k := k + 1;
        if IsPunctAt(q, k, '(') {
          k := CloseOf(q, k) + 1;
        } else {
          k := k + 1;
        }
        if IsWordAt(q, k, "PERCENT") {
          k := k + 1;
        }
      } else {
        break;
      }
    }
  }

  method SelectColumns(q: Query, g: int, depth: nat) returns (out: seq<ColInfo>)
    requires ValidQuery(q) && IsGroup(q, g)
    ensures out == SelectCols(q, g, depth, MAX_DEPTH)
    decreases Fuel(depth, MAX_DEPTH), 2
  {
    hide ValidQuery, TreeAt, ScopesOf, RefsInside, IsWordAt, IsPunctAt, IsOneOf, CloseOf, ItemCols, ItemsFrom,
      ItemsCols, SkipModifiers, ItemsOf;
    out := [];
    if depth > MAX_DEPTH {
      return;
    }
    var found, k, end := SkipToSelect(q, g);
    if !found {
      ItemsColsCons(q, [], [], g, depth, MAX_DEPTH);
      return;
    }
    k := SkipDistinctAndTop(q, k, end);
    ghost var whole := ItemsFrom(q, k, end, []);
    var item: seq<int> := [];
    while k < end && !IsOneOf(q, k, STOP_WORDS)
      invariant 0 <= k
      invariant ItemsCols(q, whole, g, depth, MAX_DEPTH)
                == out + ItemsCols(q, ItemsFrom(q, k, end, item), g, depth, MAX_DEPTH)
      decreases end - k
    {
      ItemsStep(q, k, end, item);
      if IsPunctAt(q, k, ',') {
        var cols := DeriveItem(q, item, g, depth);
        ItemsColsCons(q, item, ItemsFrom(q, k + 1, end, []), g, depth, MAX_DEPTH);
        Assoc(out, cols, ItemsCols(q, ItemsFrom(q, k + 1, end, []), g, depth, MAX_DEPTH));
        out := out + cols;
        item := [];
        k := k + 1;
      } else {
        item := item + [k];
        k := if IsPunctAt(q, k, '(') then CloseOf(q, k) + 1 else k + 1;
      }
    }
    ItemsStep(q, k, end, item);
    ItemsColsOne(q, item, g, depth, MAX_DEPTH);
    var cols := DeriveItem(q, item, g, depth);
    out := out + cols;
  }

  lemma ItemsStep(q: Query, k: int, end: int, item: seq<int>)
    requires ValidQuery(q) && 0 <= k && end <= |q.toks|
    ensures ItemsFrom(q, k, end, item) ==
            if k >= end || IsOneOf(q, k, STOP_WORDS) then [item]
            else if IsPunctAt(q, k, ',') then [item] + ItemsFrom(q, k + 1, end, [])
            else ItemsFrom(q, if IsPunctAt(q, k, '(') then CloseOf(q, k) + 1 else k + 1, end, item + [k])
  {
    hide ValidQuery, TreeAt, ScopesOf, IsOneOf;
  }

  lemma ItemsColsOne(q: Query, item: seq<int>, g: int, depth: nat, bound: nat)
    requires ValidQuery(q) && IsGroup(q, g) && depth <= bound
    ensures ItemsCols(q, [item], g, depth, bound) == ItemCols(q, item, g, depth, bound)
  {
    hide ValidQuery, TreeAt, ScopesOf, ItemCols;
    ItemsColsCons(q, item, [], g, depth, bound);
    assert [item] + [] == [item];
  }

  lemma ItemsColsCons(q: Query, item: seq<int>, rest: seq<seq<int>>, g: int, depth: nat, bound: nat)
    requires ValidQuery(q) && IsGroup(q, g) && depth <= bound
    ensures ItemsCols(q, [item] + rest, g, depth, bound)
            == ItemCols(q, item, g, depth, bound) + ItemsCols(q, rest, g, depth, bound)
    ensures ItemsCols(q, [], g, depth, bound) == []
  {
    hide ValidQuery, TreeAt, ScopesOf, ItemCols;
    assert ([item] + rest)[1..] == rest;
  }

  method DeriveItem(q: Query, item: seq<int>, g: int, depth: nat) returns (out: seq<ColInfo>)
    requires ValidQuery(q) && IsGroup(q, g) && depth <= MAX_DEPTH
    ensures out == ItemCols(q, item, g, depth, MAX_DEPTH)
    decreases Fuel(depth, MAX_DEPTH), 1
  {
    hide ValidQuery, TreeAt, ScopesOf, RefCols;
    var shape := ShapeOf(q, item);
    var refs := Consulted(q, g, shape);
    match shape {
      case Nothing => out := [];
      case Named(name) => out := [ColInfo(name, "", None)];
      case AllColumns => out := AllOf(q, refs, depth + 1);
      case ColumnsOf(_) => out := AllOf(q, refs, depth + 1);
      case Qualified(name, _) =>
        var c := ResolveIn(q, refs, name, depth + 1);
        out := [c];
      case Bare(name) =>
        var c := ResolveIn(q, refs, name, depth + 1);
        out := [c];
    }
  }

  method AllOf(q: Query, refs: seq<int>, depth: nat) returns (out: seq<ColInfo>)
    requires ValidQuery(q) && forall k :: 0 <= k < |refs| ==> 0 <= refs[k] < |q.refs|
    ensures out == RefsCols(q, refs, depth, MAX_DEPTH)
    decreases Fuel(depth, MAX_DEPTH), 5
  {
    hide ValidQuery, TreeAt, ScopesOf, RefCols;
    out := [];
    assert refs[0..] == refs;
    for k := 0 to |refs|
      invariant RefsCols(q, refs, depth, MAX_DEPTH) == out + RefsCols(q, refs[k..], depth, MAX_DEPTH)
    {
      var cols := RefColumns(q, refs[k], depth);
      assert refs[k..][1..] == refs[k + 1..];
      Assoc(out, cols, RefsCols(q, refs[k + 1..], depth, MAX_DEPTH));
      out := out + cols;
    }
  }

  method ResolveIn(q: Query, refs: seq<int>, name: string, depth: nat) returns (info: ColInfo)
    requires ValidQuery(q) && forall k :: 0 <= k < |refs| ==> 0 <= refs[k] < |q.refs|
    ensures info == Resolve(q, refs, name, depth, MAX_DEPTH)
    decreases Fuel(depth, MAX_DEPTH), 5
  {
    hide ValidQuery, TreeAt, ScopesOf, RefCols;
    info := ColInfo(name, "", None);
    assert refs[0..] == refs;
    for k := 0 to |refs|
      invariant info == ColInfo(name, "", None)
      invariant Resolve(q, refs, name, depth, MAX_DEPTH) == Resolve(q, refs[k..], name, depth, MAX_DEPTH)
    {
      var cols := RefColumns(q, refs[k], depth);
      assert refs[k..][1..] == refs[k + 1..];
      var c := FirstNamed(cols, name);
      if c.Some? {
        info := ColInfo(name, c.value.ty, c.value.column);
      }
      if info.ty != "" || info.column.Some? {
        break;
      }
    }
  }
}
