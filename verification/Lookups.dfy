/** Which relation a path finds, in the words of the catalog: names, schemas and their order. */
module Lookups {
  import opened Text
  import opened Lexer
  import opened Relations

  // ---------- the relation found ----------

  predicate InDefault(t: Table, def: string) {
    Ieq(t.schema, def)
  }

  predicate NoSchema(t: Table) {
    t.schema == ""
  }

  /** In the default schema, in none, or in another: relations alike in this compete by name and place. */
  predicate SameStanding(a: Table, b: Table, def: string) {
    InDefault(a, def) == InDefault(b, def) && (!InDefault(a, def) ==> NoSchema(a) == NoSchema(b))
  }

  predicate SomeMatch(all: seq<Table>, path: seq<string>, p: Table -> bool)
    requires path != []
  {
    exists i :: 0 <= i < |all| && Matches(all[i], path) && p(all[i])
  }

  /**
   `k` matches; it is in the default schema if any match is, else without a schema if any is; of those alike it has
   the exact name if any has; and it is the first such.
   */
  predicate IsChosen(all: seq<Table>, path: seq<string>, def: string, k: nat)
    requires path != []
  {
    var name := path[|path| - 1];
    && k < |all| && Matches(all[k], path)
    && (SomeMatch(all, path, t => InDefault(t, def)) ==> InDefault(all[k], def))
    && (!SomeMatch(all, path, t => InDefault(t, def)) && SomeMatch(all, path, t => NoSchema(t)) ==> NoSchema(all[k]))
    && (SomeMatch(all, path, t => SameStanding(t, all[k], def) && t.name == name) ==> all[k].name == name)
    && (forall i :: 0 <= i < k && Matches(all[i], path) && SameStanding(all[i], all[k], def) ==>
          (all[i].name == name) != (all[k].name == name))
  }

  /** The lookup, over tables and then views, finds exactly that relation, and none only when none matches. */
  lemma LookupChooses(c: Catalog, path: seq<string>)
    requires path != []
    ensures match Lookup(c, path)
            case None => forall i :: 0 <= i < |c.tables + c.views| ==> !Matches((c.tables + c.views)[i], path)
            case Some(k) => IsChosen(c.tables + c.views, path, c.defaultSchema, k)
  {
    var all := Candidates(c);
    FindBestIsBest(all, path, c.defaultSchema, |all|);
    assert all[..|all|] == all;
    if Lookup(c, path).Some? {
      BestIsChosen(all, path, c.defaultSchema, Lookup(c, path).value);
    }
  }

  lemma BestIsChosen(all: seq<Table>, path: seq<string>, def: string, k: nat)
    requires path != [] && IsBest(all, path, def, k)
    ensures IsChosen(all, path, def, k)
  {
    hide Ieq, Matches;
  }

  /** No other relation answers to that description. */
  lemma ChosenIsUnique(all: seq<Table>, path: seq<string>, def: string, j: nat, k: nat)
    requires path != [] && IsChosen(all, path, def, j) && IsChosen(all, path, def, k)
    ensures j == k
  {
    hide Ieq, Matches;
    assert SomeMatch(all, path, t => InDefault(t, def)) <== InDefault(all[j], def) || InDefault(all[k], def);
    assert SomeMatch(all, path, t => NoSchema(t)) <== NoSchema(all[j]) || NoSchema(all[k]);
    assert SameStanding(all[j], all[k], def) && SameStanding(all[k], all[j], def);
    var name := path[|path| - 1];
    if all[j].name == name {
      assert SomeMatch(all, path, t => SameStanding(t, all[k], def) && t.name == name);
    }
    if all[k].name == name {
      assert SomeMatch(all, path, t => SameStanding(t, all[j], def) && t.name == name);
    }
  }

  /** A path as offered finds a relation where the one offered is: in the default schema, or below its own. */
  lemma OfferedFindsHome(c: Catalog, i: nat)
    requires i < |Candidates(c)|
    ensures var t := Candidates(c)[i];
            var found := Lookup(c, OfferedPath(t, c.defaultSchema));
            && found.Some?
            && var f := Candidates(c)[found.value];
               && (InDefault(t, c.defaultSchema) ==> InDefault(f, c.defaultSchema))
               && (NoSchema(t) ==> NoSchema(f) || InDefault(f, c.defaultSchema))
               && (!NoSchema(t) && !InDefault(t, c.defaultSchema) ==>
                     QualifierMatches(f.schema, SplitPath(RelativeSchema(t.schema, c.defaultSchema))))
  {
    var t, def := Candidates(c)[i], c.defaultSchema;
    var path := OfferedPath(t, def);
    OfferedPathMatches(t, def);
    LookupChooses(c, path);
    hide Matches, Ieq, Lookup, RelativeSchema;
    assert path[..|path| - 1] == if Local(t, def) then [] else SplitPath(RelativeSchema(t.schema, def));
    var found := Lookup(c, path);
    assert InDefault(t, def) ==> SomeMatch(Candidates(c), path, t => InDefault(t, def));
    assert NoSchema(t) ==> SomeMatch(Candidates(c), path, t => NoSchema(t));
    MatchesQualifier(Candidates(c)[found.value], path);
  }

  lemma MatchesQualifier(t: Table, path: seq<string>)
    requires path != [] && Matches(t, path)
    ensures QualifierMatches(t.schema, path[..|path| - 1])
  {
  }

  // ---------- what a qualifier names ----------

  /** `text` is all of `schema`, or what follows one of its dots, in any case. */
  predicate EndsWithPath(schema: string, text: string) {
    || Ieq(schema, text)
    || (|schema| > |text| && schema[|schema| - |text| - 1] == '.' && Ieq(schema[|schema| - |text|..], text))
  }

  lemma {:induction false} JoinSplit(p: string)
    ensures JoinParts(SplitParts(p)) == p
    decreases |p|
  {
    var dot := FindChar(p, '.', 0);
    if dot < |p| {
      JoinSplit(p[dot + 1..]);
      assert ([p[..dot]] + SplitParts(p[dot + 1..]))[1..] == SplitParts(p[dot + 1..]);
      assert p == p[..dot] + "." + p[dot + 1..];
    }
  }

  /** Texts that are equal up to case split alike. */
  lemma {:induction false} IeqSplit(p: string, q: string)
    requires Ieq(p, q)
    ensures |SplitParts(p)| == |SplitParts(q)|
    ensures forall i :: 0 <= i < |SplitParts(p)| ==> Ieq(SplitParts(p)[i], SplitParts(q)[i])
    decreases |p|
  {
    hide Ieq, FindChar;
    var dot := FindChar(p, '.', 0);
    SameLength(p, q);
    SameDot(p, q);
    if dot < |p| {
      IeqSplit(p[dot + 1..], q[dot + 1..]);
    } else {
      assert p[..dot] == p && q[..dot] == q;
    }
  }

  lemma IeqParts(p: string, q: string, k: nat)
    requires Ieq(p, q) && k <= |p|
    ensures Ieq(p[..k], q[..k]) && Ieq(p[k..], q[k..])
  {
    forall i | 0 <= i < |p| - k ensures LowerChar(p[k..][i]) == LowerChar(q[k..][i]) {
      assert LowerChar(p[k + i]) == LowerChar(q[k + i]);
    }
  }

  lemma SameDots(p: string, q: string)
    requires Ieq(p, q)
    ensures forall i :: 0 <= i < |p| ==> (p[i] == '.' <==> q[i] == '.')
  {
    forall i | 0 <= i < |p| ensures p[i] == '.' <==> q[i] == '.' {
      assert LowerChar(p[i]) == LowerChar(q[i]);
    }
  }

  /** Such texts have their first dot at one place, and the parts around it are equal up to case. */
  lemma SameDot(p: string, q: string)
    requires Ieq(p, q)
    ensures var dot := FindChar(p, '.', 0);
            && FindChar(q, '.', 0) == dot && Ieq(p[..dot], q[..dot])
            && (dot < |p| ==> Ieq(p[dot + 1..], q[dot + 1..]))
  {
    hide Ieq, FindChar;
    var dot := FindChar(p, '.', 0);
    SameLength(p, q);
    SameDots(p, q);
    IeqParts(p, q, dot);
    if dot < |p| {
      IeqParts(p, q, dot + 1);
    }
    FirstDotIs(p, q, dot);
  }

  lemma SameLength(p: string, q: string)
    requires Ieq(p, q)
    ensures |p| == |q|
  {
  }

  lemma FirstDotIs(p: string, q: string, dot: nat)
    requires |p| == |q| && dot == FindChar(p, '.', 0)
    requires forall i :: 0 <= i < |p| ==> (p[i] == '.' <==> q[i] == '.')
    ensures FindChar(q, '.', 0) == dot
  {
    FindCharIs(q, '.', 0, dot);
  }

  lemma {:induction false} IeqJoin(a: seq<string>, b: seq<string>)
    requires a != [] && |a| == |b| && forall i :: 0 <= i < |a| ==> Ieq(a[i], b[i])
    ensures Ieq(JoinParts(a), JoinParts(b))
    decreases |a|
  {
    if |a| > 1 {
      IeqJoin(a[1..], b[1..]);
      IeqConcat(a[0] + ".", JoinParts(a[1..]), b[0] + ".", JoinParts(b[1..]));
    }
  }

  lemma IeqConcat(a: string, b: string, c: string, d: string)
    requires Ieq(a, c) && Ieq(b, d)
    ensures Ieq(a + b, c + d)
  {
  }

  lemma SuffixCons(tail: seq<string>, x: string, rest: seq<string>)
    requires IsSuffix(tail, rest)
    ensures IsSuffix(tail, [x] + rest) && |tail| < |[x] + rest|
  {
    assert ([x] + rest)[1 + |rest| - |tail|..] == rest[|rest| - |tail|..];
  }

  /** The parts behind a dot of a text are its last ones. */
  lemma {:induction false} SplitBehind(p: string, k: nat)
    requires k < |p| && p[k] == '.'
    ensures IsSuffix(SplitParts(p[k + 1..]), SplitParts(p))
    decreases |p|
  {
    hide IsSuffix;
    var dot := FindChar(p, '.', 0);
    var rest := p[dot + 1..];
    if dot < k {
      SplitBehind(rest, k - dot - 1);
      assert rest[k - dot..] == p[k + 1..];
      SuffixCons(SplitParts(p[k + 1..]), p[..dot], SplitParts(rest));
    } else {
      SuffixSelf(SplitParts(rest));
      SuffixCons(SplitParts(rest), p[..dot], SplitParts(rest));
    }
  }

  lemma SuffixSelf(x: seq<string>)
    ensures IsSuffix(x, x)
  {
  }

  /** The last parts of a path, joined, are the end of the joined path, behind a dot. */
  lemma {:induction false} JoinEnds(parts: seq<string>, k: nat)
    requires k < |parts|
    ensures EndsWithPath(JoinParts(parts), JoinParts(parts[k..]))
    ensures k == 0 ==> JoinParts(parts) == JoinParts(parts[k..])
    decreases k
  {
    if k == 0 {
      assert parts[0..] == parts;
    } else {
      JoinEnds(parts[1..], k - 1);
      assert parts[1..][k - 1..] == parts[k..];
      var rest, tail := JoinParts(parts[1..]), JoinParts(parts[k..]);
      var all := parts[0] + "." + rest;
      assert all[|parts[0]| + 1..] == rest && all[|parts[0]|] == '.';
      assert |tail| <= |rest|;
      assert all[|all| - |tail|..] == rest[|rest| - |tail|..];
    }
  }

  /** The qualifier is, up to case, the end of the parts. */
  predicate EndsIeq(segs: seq<string>, qualifier: seq<string>) {
    && |qualifier| <= |segs|
    && forall i :: 0 <= i < |qualifier| ==> Ieq(segs[|segs| - |qualifier| + i], qualifier[i])
  }

  lemma EndsToText(schema: string, qualifier: seq<string>)
    requires qualifier != [] && EndsIeq(SplitParts(schema), qualifier)
    ensures EndsWithPath(schema, JoinParts(qualifier))
  {
    hide SplitParts, JoinParts, Ieq, EndsWithPath;
    var segs := SplitParts(schema);
    JoinSplit(schema);
    var k := |segs| - |qualifier|;
    IeqJoin(segs[k..], qualifier);
    JoinEnds(segs, k);
    IeqEnds(schema, JoinParts(segs[k..]), JoinParts(qualifier));
  }

  lemma WholeToEnds(schema: string, qualifier: seq<string>)
    requires qualifier != [] && Ieq(schema, JoinParts(qualifier)) && SplitParts(JoinParts(qualifier)) == qualifier
    ensures EndsIeq(SplitParts(schema), qualifier)
  {
    IeqSplit(schema, JoinParts(qualifier));
    SuffixSelf(SplitParts(schema));
    hide *;
    SuffixIeq(SplitParts(schema), SplitParts(schema), qualifier);
  }

  lemma TailToEnds(schema: string, k: nat, qualifier: seq<string>)
    requires qualifier != [] && k < |schema| && schema[k] == '.'
    requires Ieq(schema[k + 1..], JoinParts(qualifier)) && SplitParts(JoinParts(qualifier)) == qualifier
    ensures EndsIeq(SplitParts(schema), qualifier)
  {
    SplitBehind(schema, k);
    IeqSplit(schema[k + 1..], JoinParts(qualifier));
    hide *;
    SuffixIeq(SplitParts(schema[k + 1..]), SplitParts(schema), qualifier);
  }

  lemma TextToEnds(schema: string, qualifier: seq<string>)
    requires qualifier != [] && (forall i :: 0 <= i < |qualifier| ==> '.' !in qualifier[i])
    requires EndsWithPath(schema, JoinParts(qualifier))
    ensures EndsIeq(SplitParts(schema), qualifier)
  {
    hide SplitParts, JoinParts, Ieq, EndsIeq;
    var text := JoinParts(qualifier);
    SplitJoin(qualifier);
    if Ieq(schema, text) {
      WholeToEnds(schema, qualifier);
    } else {
      TailToEnds(schema, |schema| - |text| - 1, qualifier);
    }
  }

  lemma SuffixIeq(tail: seq<string>, segs: seq<string>, qualifier: seq<string>)
    requires IsSuffix(tail, segs) && |tail| == |qualifier| && forall i :: 0 <= i < |tail| ==> Ieq(tail[i], qualifier[i])
    ensures EndsIeq(segs, qualifier)
  {
    hide Ieq;
  }

  /** A qualifier matches a schema exactly when, written out, it is the schema or what follows one of its dots. */
  lemma QualifierNamesTheEnd(schema: string, qualifier: seq<string>)
    requires schema != "" && qualifier != [] && forall i :: 0 <= i < |qualifier| ==> '.' !in qualifier[i]
    ensures QualifierMatches(schema, qualifier) <==> EndsWithPath(schema, JoinParts(qualifier))
  {
    QualifierIsEnds(schema, qualifier);
    hide *;
    if EndsIeq(SplitParts(schema), qualifier) {
      EndsToText(schema, qualifier);
    }
    if EndsWithPath(schema, JoinParts(qualifier)) {
      TextToEnds(schema, qualifier);
    }
  }

  lemma QualifierIsEnds(schema: string, qualifier: seq<string>)
    requires schema != "" && qualifier != []
    ensures QualifierMatches(schema, qualifier) <==> EndsIeq(SplitParts(schema), qualifier)
  {
    hide SplitParts, Ieq;
  }

  lemma IeqEnds(schema: string, a: string, b: string)
    requires EndsWithPath(schema, a) && Ieq(a, b)
    ensures EndsWithPath(schema, b)
  {
  }

  // ---------- what a relative schema leaves out ----------

  /** The first `n` parts of a schema path are those of the default's, and at least one part is left. */
  predicate Shares(segs: seq<string>, defs: seq<string>, n: nat) {
    n < |segs| && n <= |defs| && forall i :: 0 <= i < n ==> Ieq(segs[i], defs[i])
  }

  lemma {:induction false} CommonIsMost(segs: seq<string>, defs: seq<string>, k: nat, n: nat)
    requires Shares(segs, defs, k) && k <= n && Shares(segs, defs, n) && !Shares(segs, defs, n + 1)
    ensures Common(segs, defs, k) == n
    decreases n - k
  {
    if k < n {
      assert Shares(segs, defs, k + 1);
      CommonIsMost(segs, defs, k + 1, n);
    }
  }

  /** A schema is offered without the most leading parts it shares with the default. */
  lemma RelativeDropsMost(schema: string, def: string, n: nat)
    requires Shares(SplitPath(schema), SplitPath(def), n) && !Shares(SplitPath(schema), SplitPath(def), n + 1)
    requires SplitPath(schema)[n] != ""
    ensures RelativeSchema(schema, def) == JoinParts(SplitPath(schema)[n..])
  {
    CommonIsMost(SplitPath(schema), SplitPath(def), 0, n);
  }
}
