/** What a select item's columns are, told by its tokens. */
module SelectItems {
  import opened Text
  import opened Wrappers
  import opened Relations
  import opened Scopes
  import opened Shadowing
  import opened Columns

  // ---------- the reference a name stands for ----------

  /** A name in group `g` stands for the nearest reference of that name: deepest scope first, then first in the text. */
  lemma NameIsNearest(q: Query, g: int, name: string)
    requires ValidQuery(q) && IsGroup(q, g)
    ensures ValidGroups(q.tree, |q.toks|) && RefsInside(q.tree, q.refs)
    ensures IsNearestNamed(q.tree, |q.toks|, q.refs, g, name, |q.refs|, FindRefIn(q, name, g))
  {
    ScopesWellFormed(q.toks);
    FindRefIsNearest(q.tree, |q.toks|, q.refs, name, g, |q.refs|);
    var own := FirstRefIn(q, name, g, 0);
    FirstRefIs(q, name, g, 0);
    if own.Some? {
      OwnIsNearest(q, g, name, own.value);
    }
  }

  lemma {:induction false} FirstRefIs(q: Query, name: string, g: int, i: nat)
    requires i <= |q.refs|
    ensures match FirstRefIn(q, name, g, i)
            case None => forall k :: i <= k < |q.refs| ==> !(q.refs[k].group == g && Ieq(q.refs[k].name, name))
            case Some(r) =>
              && i <= r < |q.refs| && q.refs[r].group == g && Ieq(q.refs[r].name, name)
              && forall k :: i <= k < r ==> !(q.refs[k].group == g && Ieq(q.refs[k].name, name))
    decreases |q.refs| - i
  {
    hide Ieq;
    if i < |q.refs| && !(q.refs[i].group == g && Ieq(q.refs[i].name, name)) {
      FirstRefIs(q, name, g, i + 1);
    }
  }

  /** The first of that name in the group itself is nearest: no scope around it is as deep. */
  lemma OwnIsNearest(q: Query, g: int, name: string, r: int)
    requires ValidQuery(q) && IsGroup(q, g) && 0 <= r < |q.refs| && q.refs[r].group == g && Ieq(q.refs[r].name, name)
    requires forall k :: 0 <= k < r ==> !(q.refs[k].group == g && Ieq(q.refs[k].name, name))
    requires ValidGroups(q.tree, |q.toks|) && RefsInside(q.tree, q.refs)
    ensures IsNearestNamed(q.tree, |q.toks|, q.refs, g, name, |q.refs|, Some(r))
  {
    var t, n := q.tree, |q.toks|;
    hide Ieq, ValidQuery, ValidGroups, DepthOf;
    forall i | 0 <= i < |q.refs| && VisibleFrom(t, n, q.refs, g, i) && Ieq(q.refs[i].name, name)
      ensures i == r || Nearer(t, n, q.refs, r, i)
    {
      AncestorIsShallower(t, n, q.refs[i].group, g);
    }
  }

  // ---------- the columns of an item ----------

  /** The last token of the item, and the one `k` before it. */
  function Back(item: seq<int>, k: nat): int {
    if k < |item| then item[|item| - 1 - k] else -1
  }

  predicate IsStarAt(q: Query, i: int) {
    0 <= i < |q.toks| && q.toks[i].kind.Op? && q.toks[i].text == "*"
  }

  /** The text of an identifier. */
  function TextAt(q: Query, i: int): string
    requires 0 <= i < |q.toks|
  {
    q.toks[i].text
  }

  /** `name` with the type and origin of the first column of that name, if that column has either. */
  predicate IsColumnOf(c: ColInfo, name: string, cols: seq<ColInfo>) {
    && c.name == name
    && ((forall i :: 0 <= i < |cols| ==> !Ieq(cols[i].name, name)) ==> c.ty == "" && c.column.None?)
    && (forall i :: 0 <= i < |cols| && Ieq(cols[i].name, name)
                    && (forall j :: 0 <= j < i ==> !Ieq(cols[j].name, name)) ==>
          c.ty == cols[i].ty && c.column == cols[i].column)
  }

  /** An item of one token, a star: the columns of the group's own references, one after the other. */
  function OwnColumns(q: Query, g: int, i: nat, depth: nat): seq<ColInfo>
    requires ValidQuery(q) && IsGroup(q, g) && i <= |q.refs|
    decreases |q.refs| - i
  {
    if i == |q.refs| then []
    else (if q.refs[i].group == g then RefCols(q, i, depth, MAX_DEPTH) else []) + OwnColumns(q, g, i + 1, depth)
  }

  lemma {:induction false} StarColumns(q: Query, g: int, i: nat, depth: nat)
    requires ValidQuery(q) && IsGroup(q, g) && i <= |q.refs|
    ensures RefsCols(q, RefsIn(q, g, i), depth, MAX_DEPTH) == OwnColumns(q, g, i, depth)
    decreases |q.refs| - i
  {
    hide ValidQuery, RefCols, TreeAt;
    if i < |q.refs| {
      StarColumns(q, g, i + 1, depth);
      if q.refs[i].group == g {
        assert ([i as int] + RefsIn(q, g, i + 1))[1..] == RefsIn(q, g, i + 1);
      } else {
        assert [] + RefsIn(q, g, i + 1) == RefsIn(q, g, i + 1);
      }
    }
  }

  /** `*` gives the columns of all the group's own references, in order. */
  lemma Star(q: Query, item: seq<int>, g: int, depth: nat)
    requires ValidQuery(q) && IsGroup(q, g) && depth <= MAX_DEPTH && |item| == 1 && IsStarAt(q, item[0])
    ensures ItemCols(q, item, g, depth, MAX_DEPTH) == OwnColumns(q, g, 0, depth + 1)
  {
    hide ValidQuery, TreeAt, ScopesOf, RefsCols, RefsIn, OwnColumns, FindRefIn, Resolve, Alternates, Upper;
    StarColumns(q, g, 0, depth + 1);
    assert ShapeOf(q, item) == AllColumns;
    hide ShapeOf;
  }

  /** `t.*` gives the columns of the reference that `t` stands for, and no others. */
  lemma QualifiedStar(q: Query, item: seq<int>, g: int, depth: nat)
    requires ValidQuery(q) && IsGroup(q, g) && depth <= MAX_DEPTH && |item| >= 3
    requires IsStarAt(q, Back(item, 0)) && IsPunctAt(q, Back(item, 1), '.') && IsIdentAt(q, Back(item, 2))
    ensures var r := FindRefIn(q, TextAt(q, Back(item, 2)), g);
            ItemCols(q, item, g, depth, MAX_DEPTH) == if r.Some? then RefCols(q, r.value, depth + 1, MAX_DEPTH) else []
  {
    hide ValidQuery, TreeAt, ScopesOf, RefsIn, RefCols, FindRefIn, Resolve, Alternates, Upper;
    var r := FindRefIn(q, TextAt(q, Back(item, 2)), g);
    assert ShapeOf(q, item) == ColumnsOf(TextAt(q, Back(item, 2)));
    hide ShapeOf;
    if r.Some? {
      JustOne(q, r.value, depth + 1);
    }
  }

  lemma JustOne(q: Query, r: int, depth: nat)
    requires ValidQuery(q) && 0 <= r < |q.refs|
    ensures RefsCols(q, [r], depth, MAX_DEPTH) == RefCols(q, r, depth, MAX_DEPTH)
    ensures RefsCols(q, [], depth, MAX_DEPTH) == []
  {
    hide ValidQuery, TreeAt, RefCols;
    assert [r][1..] == [];
    assert RefsCols(q, [r], depth, MAX_DEPTH) == RefCols(q, r, depth, MAX_DEPTH) + RefsCols(q, [], depth, MAX_DEPTH);
  }

  /** An item that ends in AS and an identifier gives one column, of that name. */
  lemma Aliased(q: Query, item: seq<int>, g: int, depth: nat)
    requires ValidQuery(q) && IsGroup(q, g) && depth <= MAX_DEPTH && |item| >= 2
    requires IsIdentAt(q, Back(item, 0)) && IsWordAt(q, Back(item, 1), "AS")
    ensures ItemCols(q, item, g, depth, MAX_DEPTH) == [ColInfo(TextAt(q, Back(item, 0)), "", None)]
  {
    hide ValidQuery, TreeAt, RefCols, Ieq;
  }

  lemma {:induction false} FirstNamedIs(cols: seq<ColInfo>, name: string)
    ensures match FirstNamed(cols, name)
            case None => forall i :: 0 <= i < |cols| ==> !Ieq(cols[i].name, name)
            case Some(c) => exists i :: 0 <= i < |cols| && c == cols[i] && Ieq(cols[i].name, name)
                                     && forall j :: 0 <= j < i ==> !Ieq(cols[j].name, name)
    decreases |cols|
  {
    hide Ieq;
    if cols != [] && !Ieq(cols[0].name, name) {
      FirstNamedIs(cols[1..], name);
      assert forall i :: 0 <= i < |cols| - 1 ==> cols[1..][i] == cols[i + 1];
      var c := FirstNamed(cols[1..], name);
      if c.Some? {
        var i :| 0 <= i < |cols[1..]| && c.value == cols[1..][i] && Ieq(cols[1..][i].name, name)
              && forall j :: 0 <= j < i ==> !Ieq(cols[1..][j].name, name);
        assert cols[i + 1] == c.value;
      }
    }
  }

  /** The `i`th column is the first of that name. */
  predicate IsFirstNamed(cols: seq<ColInfo>, name: string, i: int) {
    0 <= i < |cols| && Ieq(cols[i].name, name) && forall j :: 0 <= j < i ==> !Ieq(cols[j].name, name)
  }

  predicate Informs(c: ColInfo) {
    c.ty != "" || c.column.Some?
  }

  /** Looking into one reference. */
  function ResolvedFrom(cols: seq<ColInfo>, name: string): ColInfo {
    var c := FirstNamed(cols, name);
    if c.Some? && Informs(c.value) then ColInfo(name, c.value.ty, c.value.column) else ColInfo(name, "", None)
  }

  lemma ResolvedIs(cols: seq<ColInfo>, name: string)
    ensures IsColumnOf(ResolvedFrom(cols, name), name, cols)
  {
    FirstNamedIs(cols, name);
    hide Ieq, FirstNamed;
  }

  lemma ResolvedInOne(q: Query, r: int, name: string, depth: nat)
    requires ValidQuery(q) && 0 <= r < |q.refs|
    ensures Resolve(q, [r], name, depth, MAX_DEPTH) == ResolvedFrom(RefCols(q, r, depth, MAX_DEPTH), name)
  {
    hide ValidQuery, TreeAt, RefCols, Ieq, FirstNamed;
    assert [r][1..] == [];
    assert Resolve(q, [], name, depth, MAX_DEPTH) == ColInfo(name, "", None);
  }

  /** `a.b.c` gives one column, named by its last part, with what the reference that `b` stands for knows of it. */
  lemma QualifiedColumn(q: Query, item: seq<int>, g: int, depth: nat)
    requires ValidQuery(q) && IsGroup(q, g) && depth <= MAX_DEPTH
    requires |item| >= 3 && |item| % 2 == 1 && Alternates(q, item)
    ensures IsIdentAt(q, Back(item, 0)) && IsIdentAt(q, Back(item, 2))
    ensures var cols := ItemCols(q, item, g, depth, MAX_DEPTH);
            var name, r := TextAt(q, Back(item, 0)), FindRefIn(q, TextAt(q, Back(item, 2)), g);
            && |cols| == 1
            && IsColumnOf(cols[0], name, if r.Some? then RefCols(q, r.value, depth + 1, MAX_DEPTH) else [])
  {
    hide ValidQuery, TreeAt, ScopesOf, RefCols, RefsCols, RefsIn, FindRefIn, Ieq, IsColumnOf, Upper, ResolvedFrom;
    assert IsIdentAt(q, item[|item| - 1]) && IsPunctAt(q, item[|item| - 2], '.') && IsIdentAt(q, item[|item| - 3]);
    var name, r := TextAt(q, Back(item, 0)), FindRefIn(q, TextAt(q, Back(item, 2)), g);
    assert ShapeOf(q, item) == Qualified(name, TextAt(q, Back(item, 2)));
    hide ShapeOf, Alternates;
    if r.Some? {
      ResolvedInOne(q, r.value, name, depth + 1);
      ResolvedIs(RefCols(q, r.value, depth + 1, MAX_DEPTH), name);
    } else {
      assert Resolve(q, [], name, depth + 1, MAX_DEPTH) == ColInfo(name, "", None);
      NoColumns(name);
    }
  }

  lemma NoColumns(name: string)
    ensures IsColumnOf(ColInfo(name, "", None), name, [])
  {
  }

  // ---------- a column by its bare name ----------

  /** Nothing is known of the name but that there may be such a column. */
  predicate TellsNothing(cols: seq<ColInfo>, name: string) {
    forall i :: 0 <= i < |cols| && IsFirstNamed(cols, name, i) ==> !Informs(cols[i])
  }

  /** The first column of that name, which has a type or an origin. */
  predicate TellsOf(cols: seq<ColInfo>, name: string, c: ColInfo) {
    exists i :: 0 <= i < |cols| && IsFirstNamed(cols, name, i) && Informs(cols[i])
                && c == ColInfo(name, cols[i].ty, cols[i].column)
  }

  /** The first of the group's own references, from the `i`th on, that tells of the name says what the column is. */
  predicate IsBareColumn(q: Query, g: int, i: nat, name: string, depth: nat, c: ColInfo)
    requires ValidQuery(q) && i <= |q.refs|
    decreases |q.refs| - i
  {
    if i == |q.refs| then c == ColInfo(name, "", None)
    else if q.refs[i].group == g && !TellsNothing(RefCols(q, i, depth, MAX_DEPTH), name)
    then TellsOf(RefCols(q, i, depth, MAX_DEPTH), name, c)
    else IsBareColumn(q, g, i + 1, name, depth, c)
  }

  lemma FirstTells(cols: seq<ColInfo>, name: string)
    ensures var c := FirstNamed(cols, name);
            if c.Some? && Informs(c.value)
            then !TellsNothing(cols, name) && TellsOf(cols, name, ColInfo(name, c.value.ty, c.value.column))
            else TellsNothing(cols, name)
  {
    FirstNamedIs(cols, name);
    hide Ieq, FirstNamed;
    var c := FirstNamed(cols, name);
    if c.Some? {
      var i :| 0 <= i < |cols| && c.value == cols[i] && Ieq(cols[i].name, name)
            && forall j :: 0 <= j < i ==> !Ieq(cols[j].name, name);
      assert IsFirstNamed(cols, name, i);
    }
  }

  lemma {:induction false} BareResolved(q: Query, g: int, i: nat, name: string, depth: nat)
    requires ValidQuery(q) && i <= |q.refs|
    ensures IsBareColumn(q, g, i, name, depth, Resolve(q, RefsIn(q, g, i), name, depth, MAX_DEPTH))
    decreases |q.refs| - i
  {
    hide ValidQuery, TreeAt, RefCols, FirstNamed, TellsNothing, TellsOf;
    if i < |q.refs| {
      BareResolved(q, g, i + 1, name, depth);
      FirstTells(RefCols(q, i, depth, MAX_DEPTH), name);
      if q.refs[i].group == g {
        assert ([i as int] + RefsIn(q, g, i + 1))[1..] == RefsIn(q, g, i + 1);
      } else {
        assert [] + RefsIn(q, g, i + 1) == RefsIn(q, g, i + 1);
      }
    }
  }

  /** `a` gives one column of that name, with what the first of the group's own references to tell of it says. */
  lemma BareColumn(q: Query, item: seq<int>, g: int, depth: nat)
    requires ValidQuery(q) && IsGroup(q, g) && depth <= MAX_DEPTH && |item| == 1 && IsIdentAt(q, item[0])
    ensures var cols := ItemCols(q, item, g, depth, MAX_DEPTH);
            |cols| == 1 && IsBareColumn(q, g, 0, TextAt(q, item[0]), depth + 1, cols[0])
  {
    hide ValidQuery, TreeAt, ScopesOf, Resolve, RefsIn, IsBareColumn, RefCols, RefsCols, FindRefIn, Upper, Ieq;
    BareResolved(q, g, 0, TextAt(q, item[0]), depth + 1);
    BareShape(q, item);
    hide ShapeOf;
  }

  lemma BareShape(q: Query, item: seq<int>)
    requires |item| == 1 && IsIdentAt(q, item[0])
    ensures ShapeOf(q, item) == Bare(q.toks[item[0]].text)
  {
    hide Upper, Ieq;
    assert Alternates(q, item);
  }

  // ---------- other expressions ----------

  /** Any other item that ends in an identifier names a column by it, unless it cannot be an alias there. */
  lemma ImplicitAlias(q: Query, item: seq<int>, g: int, depth: nat)
    requires ValidQuery(q) && IsGroup(q, g) && depth <= MAX_DEPTH && |item| >= 2 && IsIdentAt(q, Back(item, 0))
    requires !IsWordAt(q, Back(item, 1), "AS") && !(Alternates(q, item) && |item| % 2 == 1)
    ensures var name := TextAt(q, Back(item, 0));
            var reserved := q.toks[Back(item, 0)].kind.Word? && Upper(name) in q.notAlias;
            ItemCols(q, item, g, depth, MAX_DEPTH)
            == if reserved || IsPunctAt(q, Back(item, 1), '.') || IsOpAt(q, Back(item, 1)) then []
               else [ColInfo(name, "", None)]
  {
    hide ValidQuery, TreeAt, RefCols, Ieq, Alternates, Upper;
  }

  /** An item that ends in neither an identifier nor a star of the two kinds above gives none. */
  lemma NoColumn(q: Query, item: seq<int>, g: int, depth: nat)
    requires ValidQuery(q) && IsGroup(q, g) && depth <= MAX_DEPTH
    requires item == [] || !IsIdentAt(q, Back(item, 0))
    requires !(IsStarAt(q, Back(item, 0)) && |item| == 1)
    requires IsStarAt(q, Back(item, 0)) && |item| >= 3 ==>
               !(IsPunctAt(q, Back(item, 1), '.') && IsIdentAt(q, Back(item, 2)))
    ensures ItemCols(q, item, g, depth, MAX_DEPTH) == []
  {
    hide ValidQuery, TreeAt, RefCols, Ieq, Alternates, Upper;
  }

  // ---------- where a reference's columns come from ----------

  /** A list of aliases renames the first columns and drops their origin, and makes columns of its own past the last. */
  lemma {:induction false} AliasedColumns(cols: seq<ColInfo>, aliases: seq<string>)
    ensures var r := ApplyAliases(cols, aliases);
            && |r| == (if |cols| > |aliases| then |cols| else |aliases|)
            && (forall i :: |aliases| <= i < |r| ==> r[i] == cols[i])
            && (forall i :: 0 <= i < |aliases| && i < |cols| ==> r[i] == ColInfo(aliases[i], cols[i].ty, None))
            && (forall i :: |cols| <= i < |aliases| ==> r[i] == ColInfo(aliases[i], "", None))
    decreases |aliases|
  {
    if aliases != [] {
      AliasedColumns(if cols == [] then [] else cols[1..], aliases[1..]);
    }
  }

  predicate FirstCte(q: Query, name: string, c: int) {
    0 <= c < |q.ctes| && Ieq(q.ctes[c].name, name) && forall k :: 0 <= k < c ==> !Ieq(q.ctes[k].name, name)
  }

  lemma {:induction false} FindCteIs(q: Query, name: string, i: nat)
    requires i <= |q.ctes| && forall k :: 0 <= k < i ==> !Ieq(q.ctes[k].name, name)
    ensures match FindCte(q, name, i)
            case None => forall k :: 0 <= k < |q.ctes| ==> !Ieq(q.ctes[k].name, name)
            case Some(c) => FirstCte(q, name, c)
    decreases |q.ctes| - i
  {
    hide Ieq;
    if i < |q.ctes| && !Ieq(q.ctes[i].name, name) {
      FindCteIs(q, name, i + 1);
    }
  }

  /** A derived table has the columns of its body. */
  lemma DerivedColumns(q: Query, i: int, depth: nat)
    requires ValidQuery(q) && 0 <= i < |q.refs| && depth <= MAX_DEPTH && q.refs[i].derived >= 0
    ensures IsGroup(q, q.refs[i].derived)
    ensures RefCols(q, i, depth, MAX_DEPTH)
         == ApplyAliases(SelectCols(q, q.refs[i].derived, depth + 1, MAX_DEPTH), q.refs[i].columnAliases)
  {
  }

  /** A name alone stands for the first CTE of that name, whatever the catalog holds. */
  lemma CteHidesTable(q: Query, i: int, depth: nat, c: int)
    requires ValidQuery(q) && 0 <= i < |q.refs| && depth <= MAX_DEPTH
    requires q.refs[i].derived < 0 && !q.refs[i].tableFunction && |q.refs[i].path| == 1
    requires FirstCte(q, q.refs[i].path[0], c)
    ensures RefCols(q, i, depth, MAX_DEPTH) == ApplyAliases(CteCols(q, c, depth, MAX_DEPTH), q.refs[i].columnAliases)
  {
    CteFound(q, q.refs[i].path[0], c);
    hide ValidQuery, TreeAt, ScopesOf, CteCols, SelectCols, ApplyAliases, Ieq, FindCte, FirstCte, Lookup, TableColumns;
  }

  lemma CteFound(q: Query, name: string, c: int)
    requires FirstCte(q, name, c)
    ensures FindCte(q, name, 0) == Some(c)
  {
    FindCteIs(q, name, 0);
    hide Ieq, FindCte;
  }

  /** Any other path stands for the relation the lookup finds, with the columns the catalog lists. */
  lemma TableReference(q: Query, i: int, depth: nat)
    requires ValidQuery(q) && 0 <= i < |q.refs| && depth <= MAX_DEPTH
    requires q.refs[i].derived < 0 && !q.refs[i].tableFunction
    requires |q.refs[i].path| == 1 ==> forall c :: 0 <= c < |q.ctes| ==> !Ieq(q.ctes[c].name, q.refs[i].path[0])
    ensures var k := Lookup(q.catalog, q.refs[i].path);
            var cols := if k.Some? then (q.catalog.tables + q.catalog.views)[k.value].columns else [];
            exists listed: seq<ColInfo> ::
              && |listed| == |cols|
              && (forall p :: 0 <= p < |cols| ==> listed[p] == ColInfo(cols[p].name, cols[p].ty, Some(cols[p])))
              && RefCols(q, i, depth, MAX_DEPTH) == ApplyAliases(listed, q.refs[i].columnAliases)
  {
    RefFromCatalog(q, i, depth);
    hide ValidQuery, TreeAt, ScopesOf, RefCols, ApplyAliases, Ieq, Lookup;
    var k := Lookup(q.catalog, q.refs[i].path);
    var listed := if k.Some? then TableColumns(Candidates(q.catalog)[k.value]) else [];
    assert RefCols(q, i, depth, MAX_DEPTH) == ApplyAliases(listed, q.refs[i].columnAliases);
  }

  lemma RefFromCatalog(q: Query, i: int, depth: nat)
    requires ValidQuery(q) && 0 <= i < |q.refs| && depth <= MAX_DEPTH
    requires q.refs[i].derived < 0 && !q.refs[i].tableFunction
    requires |q.refs[i].path| == 1 ==> forall c :: 0 <= c < |q.ctes| ==> !Ieq(q.ctes[c].name, q.refs[i].path[0])
    ensures var k := Lookup(q.catalog, q.refs[i].path);
            RefCols(q, i, depth, MAX_DEPTH)
            == ApplyAliases(if k.Some? then TableColumns(Candidates(q.catalog)[k.value]) else [],
                            q.refs[i].columnAliases)
  {
    if |q.refs[i].path| == 1 {
      FindCteIs(q, q.refs[i].path[0], 0);
    }
    hide ValidQuery, CteCols, SelectCols, ApplyAliases, Ieq, Lookup, TableColumns;
  }

  /** A function's result has only the columns its reference names itself. */
  lemma FunctionColumns(q: Query, i: int, depth: nat)
    requires ValidQuery(q) && 0 <= i < |q.refs| && depth <= MAX_DEPTH
    requires q.refs[i].derived < 0 && q.refs[i].tableFunction
    ensures RefCols(q, i, depth, MAX_DEPTH) == ApplyAliases([], q.refs[i].columnAliases)
  {
    hide ValidQuery, CteCols, SelectCols, ApplyAliases;
  }

  // ---------- where a select list starts and ends ----------

  /** DISTINCT, DISTINCT ON (...), ALL, TOP n, TOP (...), and these with PERCENT, are passed; nothing else is. */
  lemma ModifiersPassed(q: Query, k: int)
    requires ValidQuery(q) && 0 <= k
    ensures IsWordAt(q, k, "DISTINCT") || IsWordAt(q, k, "ALL") ==>
              if IsWordAt(q, k + 1, "ON") && IsPunctAt(q, k + 2, '(')
              then PastModifier(q, k) == CloseOf(q, k + 2) + 1 else PastModifier(q, k) == k + 1
    ensures IsWordAt(q, k, "TOP") && !IsPunctAt(q, k + 1, '(') ==>
              PastModifier(q, k) == if IsWordAt(q, k + 2, "PERCENT") then k + 3 else k + 2
    ensures IsWordAt(q, k, "TOP") && IsPunctAt(q, k + 1, '(') ==>
              var c := CloseOf(q, k + 1);
              PastModifier(q, k) == if IsWordAt(q, c + 1, "PERCENT") then c + 2 else c + 1
    ensures !IsWordAt(q, k, "DISTINCT") && !IsWordAt(q, k, "ALL") && !IsWordAt(q, k, "TOP") ==> PastModifier(q, k) == k
  {
    hide ValidQuery, CloseOf, IsPunctAt;
    var words := ["DISTINCT", "ALL"];
    assert IsOneOf(q, k, words) <==> IsWordAt(q, k, words[0]) || IsWordAt(q, k, words[1]);
    assert |"TOP"| != |"DISTINCT"|;
    assert IsWordAt(q, k, "TOP") && IsWordAt(q, k, "ALL") ==> LowerChar("TOP"[0]) == LowerChar("ALL"[0]);
    hide IsWordAt, IsOneOf;
  }

  predicate IsModifier(q: Query, k: int) {
    IsWordAt(q, k, "DISTINCT") || IsWordAt(q, k, "ALL") || IsWordAt(q, k, "TOP")
  }

  /** Modifiers are passed one after the other, and the first token that is none starts the list. */
  lemma ListStartsBehind(q: Query, k: int, end: int)
    requires ValidQuery(q) && 0 <= k
    ensures k >= end || !IsModifier(q, k) ==> SkipModifiers(q, k, end) == k
    ensures k < end && IsModifier(q, k) ==>
              PastModifier(q, k) > k && SkipModifiers(q, k, end) == SkipModifiers(q, PastModifier(q, k), end)
  {
    ModifiersPassed(q, k);
    PastIsLater(q, k);
    hide ValidQuery, PastModifier, IsWordAt;
  }

  lemma PastIsLater(q: Query, k: int)
    requires ValidQuery(q) && 0 <= k
    ensures IsModifier(q, k) ==> PastModifier(q, k) > k
  {
    ModifiersPassed(q, k);
    if IsPunctAt(q, k + 1, '(') {
      AfterParens(q, k + 1);
    }
    if IsPunctAt(q, k + 2, '(') {
      AfterParens(q, k + 2);
    }
    hide ValidQuery, PastModifier, IsWordAt, IsPunctAt, CloseOf;
  }

  lemma AfterParens(q: Query, k: int)
    requires ValidQuery(q) && IsPunctAt(q, k, '(')
    ensures CloseOf(q, k) >= k
  {
  }

  /** A group's list is read from its first SELECT that no nested scope holds. */
  lemma {:induction false} FirstSelect(q: Query, g: int, k: int, end: int)
    requires 0 <= k && end <= |q.toks| && |q.tree.groupOf| == |q.toks|
    ensures var r := FindSelect(q, g, k, end);
            && (forall j :: k <= j < r && j < end ==> !(q.tree.groupOf[j] == g && IsWordAt(q, j, "SELECT")))
            && (r < end ==> q.tree.groupOf[r] == g && IsWordAt(q, r, "SELECT"))
    decreases end - k
  {
    hide IsWordAt;
    if k < end && !(q.tree.groupOf[k] == g && IsWordAt(q, k, "SELECT")) {
      FirstSelect(q, g, k + 1, end);
    }
  }

  /** The columns of a list are those of its items, one item after the other. */
  lemma {:induction false} ItemsInOrder(q: Query, a: seq<seq<int>>, item: seq<int>, b: seq<seq<int>>, g: int,
      depth: nat)
    requires ValidQuery(q) && IsGroup(q, g) && depth <= MAX_DEPTH
    ensures ItemsCols(q, a + ([item] + b), g, depth, MAX_DEPTH)
         == ItemsCols(q, a, g, depth, MAX_DEPTH)
            + (ItemCols(q, item, g, depth, MAX_DEPTH) + ItemsCols(q, b, g, depth, MAX_DEPTH))
    ensures ItemsCols(q, [], g, depth, MAX_DEPTH) == []
    decreases |a|
  {
    hide ValidQuery, TreeAt, ItemCols;
    if a == [] {
      assert a + ([item] + b) == [item] + b;
      ItemsColsCons(q, item, b, g, depth, MAX_DEPTH);
    } else {
      ItemsInOrder(q, a[1..], item, b, g, depth);
      assert (a + ([item] + b))[1..] == a[1..] + ([item] + b);
    }
  }

  /** The words that end a select list. */
  lemma ListEnders(q: Query, k: int)
    ensures IsOneOf(q, k, STOP_WORDS) <==>
            || IsWordAt(q, k, "FROM") || IsWordAt(q, k, "INTO") || IsWordAt(q, k, "WHERE") || IsWordAt(q, k, "GROUP")
            || IsWordAt(q, k, "ORDER") || IsWordAt(q, k, "HAVING") || IsWordAt(q, k, "LIMIT") || IsWordAt(q, k, "UNION")
            || IsWordAt(q, k, "EXCEPT") || IsWordAt(q, k, "INTERSECT") || IsWordAt(q, k, "WINDOW")
            || IsWordAt(q, k, "FETCH") || IsWordAt(q, k, "OFFSET")
  {
    hide IsWordAt;
    var w := STOP_WORDS;
    if m :| 0 <= m < |w| && IsWordAt(q, k, w[m]) {
      assert m <= 12;
      if m <= 6 {
        assert m == 0 || m == 1 || m == 2 || m == 3 || m == 4 || m == 5 || m == 6;
      } else {
        assert m == 7 || m == 8 || m == 9 || m == 10 || m == 11 || m == 12;
      }
    }
    assert forall m :: 0 <= m < |w| && IsWordAt(q, k, w[m]) ==> IsOneOf(q, k, w);
    assert w[0] == "FROM" && w[1] == "INTO" && w[2] == "WHERE" && w[3] == "GROUP" && w[4] == "ORDER" && w[5] == "HAVING"
        && w[6] == "LIMIT" && w[7] == "UNION" && w[8] == "EXCEPT" && w[9] == "INTERSECT" && w[10] == "WINDOW"
        && w[11] == "FETCH" && w[12] == "OFFSET";
  }
}
