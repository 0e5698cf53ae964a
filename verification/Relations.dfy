/** Catalog relations: lookup by a dotted path, and the path offered for a relation. */
module Relations {
  import opened Text
  import opened Wrappers
  import opened Lexer
  import opened Quoting

  datatype Column = Column(name: string, ty: string)

  /** A table or a view; `schema` is the dotted qualifier a user types before the name. */
  datatype Table = Table(name: string, schema: string, columns: seq<Column>)

  datatype Catalog = Catalog(tables: seq<Table>, views: seq<Table>, defaultSchema: string)

  // ---------- schema paths ----------

  /** The dot-separated parts of a schema path. */
  function SplitPath(p: string): (parts: seq<string>)
    ensures p == "" <==> parts == []
    ensures forall i :: 0 <= i < |parts| ==> '.' !in parts[i]
  {
    if p == "" then [] else SplitParts(p)
  }

  function SplitParts(p: string): (parts: seq<string>)
    ensures parts != []
    ensures forall i :: 0 <= i < |parts| ==> '.' !in parts[i]
    decreases |p|
  {
    var dot := FindChar(p, '.', 0);
    if dot == |p| then [p] else [p[..dot]] + SplitParts(p[dot + 1..])
  }

  function JoinParts(parts: seq<string>): string
    requires parts != []
  {
    if |parts| == 1 then parts[0] else parts[0] + "." + JoinParts(parts[1..])
  }

  lemma FindCharIs(r: string, c: char, from: nat, q: nat)
    requires from <= q <= |r| && (q < |r| ==> r[q] == c) && forall i :: from <= i < q ==> r[i] != c
    ensures FindChar(r, c, from) == q
    decreases q - from
  {
  }

  lemma {:induction false} SplitJoin(parts: seq<string>)
    requires parts != [] && forall i :: 0 <= i < |parts| ==> '.' !in parts[i]
    ensures SplitParts(JoinParts(parts)) == parts
    decreases |parts|
  {
    var p := JoinParts(parts);
    if |parts| == 1 {
      FindCharIs(p, '.', 0, |p|);
    } else {
      var n := |parts[0]|;
      assert p[..n] == parts[0] && p[n] == '.' && p[n + 1..] == JoinParts(parts[1..]);
      FindCharIs(p, '.', 0, n);
      SplitJoin(parts[1..]);
    }
  }

  /** The parts without the empty ones they start with: what joining them into an empty string keeps. */
  function DropEmpty(parts: seq<string>): seq<string> {
    if parts != [] && parts[0] == "" then DropEmpty(parts[1..]) else parts
  }

  lemma {:induction false} DropEmptySuffix(parts: seq<string>)
    ensures var r := DropEmpty(parts);
            |r| <= |parts| && r == parts[|parts| - |r|..] && (r != [] ==> r[0] != "")
    decreases |parts|
  {
    if parts != [] && parts[0] == "" {
      DropEmptySuffix(parts[1..]);
      var r := DropEmpty(parts[1..]);
      assert parts[1..][|parts| - 1 - |r|..] == parts[|parts| - |r|..];
    }
  }

  function Joined(parts: seq<string>): string {
    if DropEmpty(parts) == [] then "" else JoinParts(DropEmpty(parts))
  }

  /** How many leading parts two schema paths share, leaving at least one of the first. */
  function Common(segs: seq<string>, defs: seq<string>, k: nat): (c: nat)
    requires k <= |segs|
    ensures k <= c <= |segs|
    decreases |segs| - k
  {
    if k < |segs| && k < |defs| && k + 1 < |segs| && Ieq(segs[k], defs[k]) then Common(segs, defs, k + 1) else k
  }

  function RelativeSchema(schema: string, def: string): string {
    var segs := SplitPath(schema);
    Joined(segs[Common(segs, SplitPath(def), 0)..])
  }

  lemma {:induction false} JoinSnoc(parts: seq<string>, part: string)
    requires parts != []
    ensures JoinParts(parts + [part]) == JoinParts(parts) + "." + part
  {
    if |parts| > 1 {
      assert (parts + [part])[1..] == parts[1..] + [part];
      JoinSnoc(parts[1..], part);
    }
  }

  lemma {:induction false} DropEmptySnoc(parts: seq<string>, part: string)
    ensures DropEmpty(parts + [part]) == if DropEmpty(parts) == [] then DropEmpty([part]) else DropEmpty(parts) + [part]
  {
    if parts == [] {
      assert parts + [part] == [part];
    } else if parts[0] == "" {
      assert (parts + [part])[1..] == parts[1..] + [part];
      DropEmptySnoc(parts[1..], part);
    }
  }

  lemma JoinedStarts(parts: seq<string>)
    requires parts != [] && parts[0] != ""
    ensures JoinParts(parts) != ""
  {
  }

  lemma DropEmptyOne(part: string)
    ensures DropEmpty([part]) == if part == "" then [] else [part]
  {
  }

  lemma JoinOne(part: string)
    ensures JoinParts([part]) == part
  {
  }

  /** The joined text so far, with the dot the next part needs. */
  function Dotted(out: string): string {
    if out == "" then "" else out + "."
  }

  /** One round of the joining loop: a dot only after something. */
  lemma JoinedSnoc(parts: seq<string>, part: string)
    ensures Joined(parts + [part]) == Dotted(Joined(parts)) + part
  {
    hide DropEmpty, JoinParts;
    DropEmptySnoc(parts, part);
    DropEmptySuffix(parts);
    var kept := DropEmpty(parts);
    if kept == [] {
      DropEmptyOne(part);
      JoinOne(part);
      assert "" + part == part;
    } else {
      JoinSnoc(kept, part);
      JoinedStarts(kept);
    }
  }

  lemma JoinedNothing()
    ensures Joined([]) == ""
  {
  }

  method ComputeRelativeSchema(schema: string, def: string) returns (out: string)
    ensures out == RelativeSchema(schema, def)
  {
    var segs := SplitPath(schema);
    var defSegs := SplitPath(def);
    var common := 0;
    while common < |segs| && common < |defSegs| && common + 1 < |segs| && Ieq(segs[common], defSegs[common])
      invariant common <= |segs| && Common(segs, defSegs, 0) == Common(segs, defSegs, common)
    {
      common := common + 1;
    }
    out := "";
    hide Joined;
    JoinedNothing();
    assert segs[common..common] == [];
    for i := common to |segs|
      invariant out == Joined(segs[common..i])
    {
      SliceSnoc(segs, common, i);
      JoinedSnoc(segs[common..i], segs[i]);
      if out != "" {
        out := out + ".";
      }
      out := out + segs[i];
    }
    assert segs[common..|segs|] == segs[common..];
  }

  predicate IsSuffix(short: seq<string>, long: seq<string>) {
    |short| <= |long| && short == long[|long| - |short|..]
  }

  /** The offered schema path is the end of the relation's own, or nothing. */
  lemma RelativeIsSuffix(schema: string, def: string)
    ensures IsSuffix(SplitPath(RelativeSchema(schema, def)), SplitPath(schema))
  {
    var segs := SplitPath(schema);
    var rest := segs[Common(segs, SplitPath(def), 0)..];
    var kept := DropEmpty(rest);
    DropEmptySuffix(rest);
    if kept != [] {
      forall i | 0 <= i < |kept| ensures '.' !in kept[i] {
        assert kept[i] == segs[|segs| - |kept| + i];
      }
      SplitJoin(kept);
      assert JoinParts(kept) != "";
      assert kept == segs[|segs| - |kept|..];
    }
  }

  // ---------- lookup ----------

  /** A typed qualifier names the end of a schema path, in any case. */
  predicate QualifierMatches(schema: string, qualifier: seq<string>) {
    var segs := SplitPath(schema);
    qualifier == [] ||
    (|qualifier| <= |segs| && forall i :: 0 <= i < |qualifier| ==> Ieq(segs[|segs| - |qualifier| + i], qualifier[i]))
  }

  predicate Matches(t: Table, path: seq<string>)
    requires path != []
  {
    Ieq(t.name, path[|path| - 1]) && QualifierMatches(t.schema, path[..|path| - 1])
  }

  function Rank(t: Table, name: string, def: string): nat {
    (if t.name == name then 1 else 0) + (if Ieq(t.schema, def) then 4 else if t.schema == "" then 2 else 0)
  }

  /** Tables first, then views, as the lookup considers them. */
  function Candidates(c: Catalog): seq<Table> {
    c.tables + c.views
  }

  /** `k` is the first of the matching relations that rank highest. */
  predicate IsBest(all: seq<Table>, path: seq<string>, def: string, k: nat)
    requires path != []
  {
    && k < |all| && Matches(all[k], path)
    && forall i :: 0 <= i < |all| && Matches(all[i], path) ==>
         Rank(all[i], path[|path| - 1], def) < Rank(all[k], path[|path| - 1], def)
         || (k <= i && Rank(all[i], path[|path| - 1], def) == Rank(all[k], path[|path| - 1], def))
  }

  /** The best of the first `n` candidates, if any matches. */
  predicate BestOf(all: seq<Table>, path: seq<string>, def: string, n: nat, best: Option<nat>)
    requires path != [] && n <= |all|
  {
    match best
    case None => forall i :: 0 <= i < n ==> !Matches(all[i], path)
    case Some(k) => k < n && IsBest(all[..n], path, def, k)
  }

  /** The lookup's fold: a later candidate wins only by a higher rank. */
  function FindBest(all: seq<Table>, path: seq<string>, def: string, n: nat): (best: Option<nat>)
    requires path != [] && n <= |all|
    ensures best.Some? ==> best.value < n
  {
    if n == 0 then None
    else
      var best := FindBest(all, path, def, n - 1);
      if Matches(all[n - 1], path)
         && (best.None? || Rank(all[n - 1], path[|path| - 1], def) > Rank(all[best.value], path[|path| - 1], def))
      then Some(n - 1) else best
  }

  /** One candidate more. */
  lemma BestStep(all: seq<Table>, path: seq<string>, def: string, n: nat, best: Option<nat>)
    requires path != [] && n < |all| && BestOf(all, path, def, n, best)
    ensures var name := path[|path| - 1];
            BestOf(all, path, def, n + 1,
              if Matches(all[n], path) && (best.None? || Rank(all[n], name, def) > Rank(all[best.value], name, def))
              then Some(n) else best)
  {
    hide Matches, Rank;
    assert all[..n + 1] == all[..n] + [all[n]];
  }

  /** The fold finds the first of the highest-ranked matches, and nothing only when nothing matches. */
  lemma {:induction false} FindBestIsBest(all: seq<Table>, path: seq<string>, def: string, n: nat)
    requires path != [] && n <= |all|
    ensures BestOf(all, path, def, n, FindBest(all, path, def, n))
  {
    assert n == 0 ==> BestOf(all, path, def, n, None);
    hide BestOf, Matches, Rank;
    if n > 0 {
      FindBestIsBest(all, path, def, n - 1);
      BestStep(all, path, def, n - 1, FindBest(all, path, def, n - 1));
    }
  }

  method Consider(list: seq<Table>, all: seq<Table>, from: nat, path: seq<string>, def: string, best: Option<nat>)
    returns (r: Option<nat>)
    requires path != [] && from + |list| <= |all| && list == all[from..from + |list|]
    requires best == FindBest(all, path, def, from)
    ensures r == FindBest(all, path, def, from + |list|)
  {
    hide Rank, QualifierMatches, Ieq;
    var name := path[|path| - 1];
    r := best;
    for i := 0 to |list|
      invariant r == FindBest(all, path, def, from + i)
    {
      var t := list[i];
      assert t == all[from + i];
      if Ieq(t.name, name) && QualifierMatches(t.schema, path[..|path| - 1]) {
        if r.None? || Rank(t, name, def) > Rank(all[r.value], name, def) {
          r := Some(from + i);
        }
      }
    }
  }

  /** The relation a dotted path stands for, as an index into the tables, then the views. */
  function Lookup(c: Catalog, path: seq<string>): (best: Option<nat>)
    ensures best.Some? ==> best.value < |Candidates(c)|
  {
    if path == [] then None else FindBest(Candidates(c), path, c.defaultSchema, |Candidates(c)|)
  }

  method FindRelation(c: Catalog, path: seq<string>) returns (best: Option<nat>)
    ensures best == Lookup(c, path)
  {
    if path == [] {
      return None;
    }
    var all := Candidates(c);
    best := Consider(c.tables, all, 0, path, c.defaultSchema, None);
    best := Consider(c.views, all, |c.tables|, path, c.defaultSchema, best);
  }

  lemma BestBeats(all: seq<Table>, path: seq<string>, def: string, best: Option<nat>, i: nat)
    requires path != [] && BestOf(all, path, def, |all|, best) && i < |all| && Matches(all[i], path)
    ensures best.Some? && IsBest(all, path, def, best.value) && Ieq(all[best.value].name, path[|path| - 1])
    ensures Rank(all[i], path[|path| - 1], def) <= Rank(all[best.value], path[|path| - 1], def)
  {
    hide Rank, QualifierMatches, Ieq;
    assert all[..|all|] == all;
  }

  // ---------- the path offered for a relation ----------

  predicate Local(t: Table, def: string) {
    t.schema == "" || Ieq(t.schema, def)
  }

  /** The path a relation is offered under: bare in the default schema, else with its relative schema. */
  function OfferedPath(t: Table, def: string): (path: seq<string>)
    ensures path != [] && path[|path| - 1] == t.name
  {
    (if Local(t, def) then [] else SplitPath(RelativeSchema(t.schema, def))) + [t.name]
  }

  lemma OfferedPathMatches(t: Table, def: string)
    ensures Matches(t, OfferedPath(t, def))
  {
    var path := OfferedPath(t, def);
    var qual := path[..|path| - 1];
    RelativeIsSuffix(t.schema, def);
    if Local(t, def) {
      assert qual == [];
    } else {
      assert qual == SplitPath(RelativeSchema(t.schema, def));
    }
  }

  /**
   What the completer inserts for a relation reads back as a dotted path, and looking that
   path up finds a relation of that name, ranked at least as high as the one offered.
   */
  lemma OfferedPathResolves(c: Catalog, i: nat, ty: DatabaseType, reserved: set<string>, always: bool)
    requires i < |Candidates(c)|
    ensures var t := Candidates(c)[i];
            var text := PathText(OfferedPath(t, c.defaultSchema), ty, reserved, always);
            var path := ReadPath(Tokens(text, DialectFor(ty)));
            && path == OfferedPath(t, c.defaultSchema)
            && Lookup(c, path).Some?
            && var found := Candidates(c)[Lookup(c, path).value];
               Ieq(found.name, t.name) && Rank(t, t.name, c.defaultSchema) <= Rank(found, t.name, c.defaultSchema)
  {
    hide Lex, PathText, OfferedPath, Matches, Rank, IsBest, BestOf, Ieq;
    var all := Candidates(c);
    var t := all[i];
    var path := OfferedPath(t, c.defaultSchema);
    PathReads(' ', path, ty, reserved, always, 0);
    OfferedPathMatches(t, c.defaultSchema);
    FindBestIsBest(all, path, c.defaultSchema, |all|);
    BestBeats(all, path, c.defaultSchema, FindBest(all, path, c.defaultSchema, |all|), i);
  }
}
