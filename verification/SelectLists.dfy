/** What a select list's scan amounts to in terms of scopes, and the names it gives. */
module SelectLists {
  import opened Text
  import opened Lexer
  import opened Scopes
  import opened Columns

  /** The `)` of some group. */
  predicate Ends(t: Tree, k: int) {
    exists h :: 0 <= h < |t.groups| && t.groups[h].close == k
  }

  /** Token `k` stands in group `g` itself, and is not the `)` of a group inside it. */
  predicate Own(t: Tree, g: int, k: int) {
    0 <= k < |t.groupOf| && t.groupOf[k] == g && !Ends(t, k)
  }

  ghost predicate Marked(t: Tree, toks: seq<Token>) {
    && |t.groupOf| == |toks| && ValidGroups(t, |toks|) && ValidNesting(t) && ValidGroupOf(t)
    && OpensMarked(t, toks) && OpensAtOpen(t, toks) && ClosesMarked(t, toks)
  }

  lemma QueryMarked(q: Query)
    requires ValidQuery(q)
    ensures Marked(q.tree, q.toks)
  {
    ScopesWellFormed(q.toks);
    ParenthesesMarked(q.toks, |q.toks|);
    hide ValidGroups, ValidNesting, ValidGroupOf, OpensMarked, OpensAtOpen, ClosesMarked, TreeAt;
  }

  /** Where a scan that takes a parenthesis for all it holds goes from token `k`. */
  function Next(t: Tree, toks: seq<Token>, k: int): int
    requires Marked(t, toks) && 0 <= k < |toks|
  {
    if IsOpen(toks[k]) then t.groups[t.opens[k]].close + 1 else k + 1
  }

  /** A group that opens up to `k` and goes on past what `k` stands for is `g` or around it. */
  lemma AroundNext(t: Tree, toks: seq<Token>, g: int, k: int, x: int)
    requires Marked(t, toks) && 0 <= k < |toks| && Own(t, g, k) && 0 <= g < |t.groups|
    requires 0 <= x < |t.groups| && t.groups[x].open < Next(t, toks, k) <= t.groups[x].close
    requires Next(t, toks, k) < t.groups[g].close
    ensures x <= g && t.groups[x].close >= t.groups[g].close
  {
    assert Innermost(t, g, k) && Encloses(t, g, k);
    assert x > 0 ==> ValidGroup(t, |toks|, x) && IsOpen(toks[t.groups[x].open]);
    if IsOpen(toks[k]) {
      var h := t.opens[k];
      assert ValidGroup(t, |toks|, h);
      assert x != h;
      assert t.groups[x].open != k;
    }
    assert Encloses(t, x, k);
  }

  /** The next token of the scan is one of the group's own, and all it passed are not. */
  lemma NextIsOwn(t: Tree, toks: seq<Token>, g: int, k: int)
    requires Marked(t, toks) && 0 <= g < |t.groups| && Own(t, g, k)
    ensures var n := Next(t, toks, k);
            && k < n
            && (n < t.groups[g].close ==> Own(t, g, n))
            && forall j :: k < j < n && j < |toks| ==> !Own(t, g, j)
  {
    var n := Next(t, toks, k);
    assert Innermost(t, g, k) && Encloses(t, g, k);
    if IsOpen(toks[k]) {
      var h := t.opens[k];
      assert ValidGroup(t, |toks|, h);
      assert g < h;
      forall j | k < j < n && j < |toks| ensures !Own(t, g, j) {
        if j == t.groups[h].close {
          assert Ends(t, j);
        } else {
          assert Innermost(t, t.groupOf[j], j) && Encloses(t, h, j);
        }
      }
    }
    if n < t.groups[g].close {
      assert g > 0 ==> ValidGroup(t, |toks|, g);
      assert Innermost(t, t.groupOf[n], n) && Encloses(t, g, n);
      AroundNext(t, toks, g, k, t.groupOf[n]);
      if x :| 0 <= x < |t.groups| && t.groups[x].close == n {
        assert x > 0 ==> ValidGroup(t, |toks|, x);
        AroundNext(t, toks, g, k, x);
      }
    }
  }

  // ---------- the list's own tokens ----------

  /** The select list read token by token: only the group's own tokens end it, cut it or are in it. */
  function ItemsByScope(q: Query, g: int, k: int, end: int, item: seq<int>): seq<seq<int>>
    requires 0 <= k && end <= |q.toks|
    decreases end - k
  {
    if k >= end then [item]
    else if !Own(q.tree, g, k) then ItemsByScope(q, g, k + 1, end, item)
    else if IsOneOf(q, k, STOP_WORDS) then [item]
    else if IsPunctAt(q, k, ',') then [item] + ItemsByScope(q, g, k + 1, end, [])
    else ItemsByScope(q, g, k + 1, end, item + [k])
  }

  lemma {:induction false} SkipForeign(q: Query, g: int, k: int, n: int, end: int, item: seq<int>)
    requires 0 <= k <= n && end <= |q.toks| && forall j :: k <= j < n && j < |q.toks| ==> !Own(q.tree, g, j)
    ensures ItemsByScope(q, g, k, end, item) == ItemsByScope(q, g, n, end, item)
    decreases n - k
  {
    hide Own, IsOneOf;
    if k < n && k < end {
      SkipForeign(q, g, k + 1, n, end, item);
    }
  }

  /** Jumping over parentheses reads the same list. */
  lemma {:induction false} JumpsReadOwn(q: Query, g: int, k: int, end: int, item: seq<int>)
    requires ValidQuery(q) && IsGroup(q, g) && 0 <= k && end == EndOf(q, g) && (k < end ==> Own(q.tree, g, k))
    ensures ItemsFrom(q, k, end, item) == ItemsByScope(q, g, k, end, item)
    decreases end - k
  {
    hide ValidQuery, Marked, Own, IsOneOf, ItemsFrom, ItemsByScope, CloseOf, TreeAt;
    ItemsStep(q, k, end, item);
    OwnStep(q, g, k, end, item);
    if k < end && !IsOneOf(q, k, STOP_WORDS) {
      QueryMarked(q);
      NextIsOwn(q.tree, q.toks, g, k);
      if IsPunctAt(q, k, ',') {
        JumpsReadOwn(q, g, k + 1, end, []);
      } else {
        var n := Next(q.tree, q.toks, k);
        NextIs(q, k);
        SkipForeign(q, g, k + 1, n, end, item + [k]);
        JumpsReadOwn(q, g, n, end, item + [k]);
      }
    }
  }

  lemma OwnStep(q: Query, g: int, k: int, end: int, item: seq<int>)
    requires 0 <= k && end <= |q.toks| && (k < end ==> Own(q.tree, g, k))
    ensures ItemsByScope(q, g, k, end, item) ==
            if k >= end || IsOneOf(q, k, STOP_WORDS) then [item]
            else if IsPunctAt(q, k, ',') then [item] + ItemsByScope(q, g, k + 1, end, [])
            else ItemsByScope(q, g, k + 1, end, item + [k])
  {
    hide Own, IsOneOf;
  }

  lemma NextIs(q: Query, k: int)
    requires ValidQuery(q) && Marked(q.tree, q.toks) && 0 <= k < |q.toks|
    ensures Next(q.tree, q.toks, k) == if IsPunctAt(q, k, '(') then CloseOf(q, k) + 1 else k + 1
  {
    hide ValidQuery, TreeAt, ValidGroups, ValidNesting, ValidGroupOf, ClosesMarked, OpensAtOpen;
  }

  /** The token at a group's end is its `)`. */
  lemma TokenAtEnd(q: Query, g: int, word: string)
    requires Marked(q.tree, q.toks) && IsGroup(q, g)
    ensures !IsWordAt(q, EndOf(q, g), word) && !IsPunctAt(q, EndOf(q, g), '(')
  {
    hide Ieq;
  }

  lemma OwnWord(q: Query, g: int, k: int, end: int, word: string)
    requires ValidQuery(q) && Marked(q.tree, q.toks) && IsGroup(q, g) && end == EndOf(q, g)
    requires 0 <= k < end && Own(q.tree, g, k) && IsWordAt(q, k, word)
    ensures k + 1 < end ==> Own(q.tree, g, k + 1)
  {
    OwnNext(q, g, k, end);
    hide ValidQuery, Marked, Own, CloseOf, EndOf, Ieq;
  }

  /** Past a modifier the scan is at one of the group's own tokens again. */
  lemma PastModifierIsOwn(q: Query, g: int, k: int, end: int)
    requires ValidQuery(q) && Marked(q.tree, q.toks) && IsGroup(q, g) && end == EndOf(q, g)
    requires 0 <= k < end && Own(q.tree, g, k)
    ensures var n := PastModifier(q, k); n < end ==> Own(q.tree, g, n)
  {
    hide ValidQuery, Marked, Own, CloseOf, EndOf, IsWordAt, IsPunctAt;
    if IsOneOf(q, k, ["DISTINCT", "ALL"]) {
      PastDistinctIsOwn(q, g, k, end);
    } else if IsWordAt(q, k, "TOP") {
      PastTopIsOwn(q, g, k, end);
    }
  }

  lemma PastDistinctIsOwn(q: Query, g: int, k: int, end: int)
    requires ValidQuery(q) && Marked(q.tree, q.toks) && IsGroup(q, g) && end == EndOf(q, g)
    requires 0 <= k < end && Own(q.tree, g, k) && IsOneOf(q, k, ["DISTINCT", "ALL"])
    ensures var n := PastModifier(q, k); n < end ==> Own(q.tree, g, n)
  {
    hide ValidQuery, Marked, Own, CloseOf, EndOf, IsWordAt, IsPunctAt;
    var i :| 0 <= i < 2 && IsWordAt(q, k, ["DISTINCT", "ALL"][i]);
    OwnWord(q, g, k, end, ["DISTINCT", "ALL"][i]);
    TokenAtEnd(q, g, "ON");
    if IsWordAt(q, k + 1, "ON") && k + 1 < end {
      OwnWord(q, g, k + 1, end, "ON");
      if k + 2 < end {
        OwnNext(q, g, k + 2, end);
      }
    }
  }

  lemma PastTopIsOwn(q: Query, g: int, k: int, end: int)
    requires ValidQuery(q) && Marked(q.tree, q.toks) && IsGroup(q, g) && end == EndOf(q, g)
    requires 0 <= k < end && Own(q.tree, g, k) && IsWordAt(q, k, "TOP") && !IsOneOf(q, k, ["DISTINCT", "ALL"])
    ensures var n := PastModifier(q, k); n < end ==> Own(q.tree, g, n)
  {
    hide ValidQuery, Marked, Own, CloseOf, EndOf, IsWordAt, IsPunctAt, IsOneOf;
    OwnWord(q, g, k, end, "TOP");
    TokenAtEnd(q, g, "PERCENT");
    if k + 1 < end {
      OwnNext(q, g, k + 1, end);
      var j := if IsPunctAt(q, k + 1, '(') then CloseOf(q, k + 1) + 1 else k + 2;
      if j < end && IsWordAt(q, j, "PERCENT") {
        OwnWord(q, g, j, end, "PERCENT");
      }
    }
  }

  lemma {:induction false} ModifiersEndOwn(q: Query, g: int, k: int, end: int)
    requires ValidQuery(q) && Marked(q.tree, q.toks) && IsGroup(q, g) && 0 <= k && end == EndOf(q, g)
             && (k < end ==> Own(q.tree, g, k))
    ensures var r := SkipModifiers(q, k, end); r < end ==> Own(q.tree, g, r)
    decreases end - k
  {
    hide ValidQuery, Marked, Own, CloseOf, PastModifier, EndOf;
    if k < end && PastModifier(q, k) != k {
      PastModifierIsOwn(q, g, k, end);
      ModifiersEndOwn(q, g, PastModifier(q, k), end);
    }
  }

  lemma OwnNext(q: Query, g: int, k: int, end: int)
    requires ValidQuery(q) && Marked(q.tree, q.toks) && IsGroup(q, g) && end == EndOf(q, g)
    requires 0 <= k < end && Own(q.tree, g, k)
    ensures var n := if IsPunctAt(q, k, '(') then CloseOf(q, k) + 1 else k + 1;
            n < end ==> Own(q.tree, g, n)
  {
    NextIs(q, k);
    NextIsOwn(q.tree, q.toks, g, k);
    hide ValidQuery, Marked, Own, TreeAt, CloseOf;
  }

  /**
   The select list of a group is its own tokens from its own SELECT on: no nested scope ends it, cuts it or is in it.
   */
  lemma SelectListIsOwn(q: Query, g: int)
    requires ValidQuery(q) && IsGroup(q, g)
    ensures |q.tree.groupOf| == |q.toks|
    ensures var k, end := FindSelect(q, g, StartOf(q, g), EndOf(q, g)), EndOf(q, g);
            ItemsOf(q, g) == if k >= end then [] else ItemsByScope(q, g, SkipModifiers(q, k + 1, end), end, [])
  {
    hide ValidQuery, Marked, Own, CloseOf, FindSelect, SkipModifiers, StartOf, EndOf, ItemsFrom, ItemsByScope;
    GroupOfAll(q);
    QueryMarked(q);
    var k, end := FindSelect(q, g, StartOf(q, g), EndOf(q, g)), EndOf(q, g);
    if k < end {
      SelectFound(q, g, StartOf(q, g), end);
      SelectIsOwn(q, g, k);
      OwnNext(q, g, k, end);
      ModifiersEndOwn(q, g, k + 1, end);
      JumpsReadOwn(q, g, SkipModifiers(q, k + 1, end), end, []);
    }
  }

  lemma {:induction false} SelectFound(q: Query, g: int, k: int, end: int)
    requires 0 <= k && end <= |q.toks| && |q.tree.groupOf| == |q.toks|
    ensures var r := FindSelect(q, g, k, end); r < end ==> q.tree.groupOf[r] == g && IsWordAt(q, r, "SELECT")
    decreases end - k
  {
    hide IsWordAt;
    if k < end && !(q.tree.groupOf[k] == g && IsWordAt(q, k, "SELECT")) {
      SelectFound(q, g, k + 1, end);
    }
  }

  lemma SelectIsOwn(q: Query, g: int, k: int)
    requires Marked(q.tree, q.toks) && 0 <= k < |q.toks| && q.tree.groupOf[k] == g && q.toks[k].kind.Word?
    ensures Own(q.tree, g, k)
  {
  }

  // ---------- names ----------

  function NamesOf(cols: seq<ColInfo>): seq<string> {
    if cols == [] then [] else [cols[0].name] + NamesOf(cols[1..])
  }

  predicate IsStar(shape: Shape) {
    shape.AllColumns? || shape.ColumnsOf?
  }

  predicate StarFree(q: Query, items: seq<seq<int>>) {
    forall i :: 0 <= i < |items| ==> !IsStar(ShapeOf(q, items[i]))
  }

  /** The names the items spell: an alias, or the last part of a column's path; other expressions have none. */
  function ItemNames(q: Query, items: seq<seq<int>>): seq<string> {
    if items == [] then []
    else
      var shape := ShapeOf(q, items[0]);
      (if shape.Named? || shape.Qualified? || shape.Bare? then [shape.name] else []) + ItemNames(q, items[1..])
  }

  lemma {:induction false} NamesJoin(a: seq<ColInfo>, b: seq<ColInfo>)
    ensures NamesOf(a + b) == NamesOf(a) + NamesOf(b)
  {
    if a == [] {
      assert a + b == b;
    } else {
      assert (a + b)[1..] == a[1..] + b;
      NamesJoin(a[1..], b);
    }
  }

  lemma {:induction false} ResolvedName(q: Query, refs: seq<int>, name: string, depth: nat, bound: nat)
    requires ValidQuery(q) && forall k :: 0 <= k < |refs| ==> 0 <= refs[k] < |q.refs|
    ensures Resolve(q, refs, name, depth, bound).name == name
    decreases |refs|
  {
    hide ValidQuery, TreeAt, RefCols, FirstNamed;
    if refs != [] {
      ResolvedName(q, refs[1..], name, depth, bound);
    }
  }

  lemma ItemName(q: Query, item: seq<int>, g: int, depth: nat, bound: nat)
    requires ValidQuery(q) && IsGroup(q, g) && depth <= bound && !IsStar(ShapeOf(q, item))
    ensures NamesOf(ItemCols(q, item, g, depth, bound)) == ItemNames(q, [item])
  {
    var shape := ShapeOf(q, item);
    if shape.Qualified? || shape.Bare? {
      ResolvedName(q, Consulted(q, g, shape), shape.name, depth + 1, bound);
    }
    hide ValidQuery, TreeAt, ShapeOf, Consulted, Resolve, RefsCols;
    assert [item][1..] == [] && ItemNames(q, []) == [];
  }

  /** Without stars, the names are those the items spell, whatever the references, the catalog and the depth. */
  lemma {:induction false} NamesOfItems(q: Query, items: seq<seq<int>>, g: int, depth: nat, bound: nat)
    requires ValidQuery(q) && IsGroup(q, g) && depth <= bound && StarFree(q, items)
    ensures NamesOf(ItemsCols(q, items, g, depth, bound)) == ItemNames(q, items)
    decreases |items|
  {
    hide ValidQuery, TreeAt, ShapeOf, ItemCols;
    if items != [] {
      assert items == [items[0]] + items[1..];
      ItemsColsCons(q, items[0], items[1..], g, depth, bound);
      NamesJoin(ItemCols(q, items[0], g, depth, bound), ItemsCols(q, items[1..], g, depth, bound));
      ItemName(q, items[0], g, depth, bound);
      assert [items[0]][1..] == [];
      NamesOfItems(q, items[1..], g, depth, bound);
    }
  }

  function Dropped(names: seq<string>, n: nat): seq<string> {
    if n >= |names| then [] else names[n..]
  }

  lemma {:induction false} AliasedNames(cols: seq<ColInfo>, aliases: seq<string>)
    ensures NamesOf(ApplyAliases(cols, aliases)) == aliases + Dropped(NamesOf(cols), |aliases|)
    decreases |aliases|
  {
    if aliases != [] {
      var rest := if cols == [] then [] else cols[1..];
      AliasedNames(rest, aliases[1..]);
      assert aliases == [aliases[0]] + aliases[1..];
      assert Dropped(NamesOf(cols), |aliases|) == Dropped(NamesOf(rest), |aliases| - 1);
    }
  }

  /** The columns of a CTE over a star-free body: its own aliases, then the names of the items they leave. */
  lemma CteNames(q: Query, c: int, depth: nat, bound: nat)
    requires ValidQuery(q) && 0 <= c < |q.ctes| && q.ctes[c].body >= 0 && depth < bound
    requires StarFree(q, ItemsOf(q, q.ctes[c].body))
    ensures NamesOf(CteCols(q, c, depth, bound))
         == q.ctes[c].columns + Dropped(ItemNames(q, ItemsOf(q, q.ctes[c].body)), |q.ctes[c].columns|)
  {
    hide TreeAt, ItemsOf, ItemsCols, ItemNames, NamesOf, ApplyAliases, StarFree;
    var g := q.ctes[c].body;
    NamesOfItems(q, ItemsOf(q, g), g, depth + 1, bound);
    AliasedNames(SelectCols(q, g, depth + 1, bound), q.ctes[c].columns);
  }
}
