/** A whole completion, once it is settled which names and keywords are on offer. */
module Completing {
  import opened Text
  import opened Wrappers
  import opened Lexer
  import opened Quoting
  import opened Relations
  import opened Matching
  import opened Editing
  import opened Items

  /** What an offer inserts: a word in the case being typed, a name, or a relation below a schema. */
  datatype Words = OfKeyword(kw: string) | OfName(n: string) | OfPath(schema: string, n: string)

  datatype Offer = Offer(text: string, kind: ItemKind, detail: string, owner: string, words: Words, bonus: int,
      fuzzy: bool)

  function InsertOf(w: Words, prefix: string): Insert {
    match w
    case OfKeyword(kw) => KeywordInsert(kw, prefix)
    case OfName(n) => PathInsert([n])
    case OfPath(schema, n) => PathInsert(SplitPath(schema) + [n])
  }

  /** The keyword and function tables hold plain words. */
  predicate PlainOffer(o: Offer) {
    o.words.OfKeyword? ==> IsPlainWord(o.words.kw)
  }

  ghost function ItemOf(o: Offer, ty: DatabaseType, reserved: set<string>, quoted: bool, prefix: string): Item
    requires PlainOffer(o)
  {
    Item(o.text, o.kind, o.detail, o.owner, InsertText(InsertOf(o.words, prefix), ty, reserved, quoted),
         Tier(o.text, prefix, o.fuzzy) + o.bonus)
  }

  /** The emitter does not leave the offer out. */
  ghost predicate Shows(o: Offer, quoted: bool, prefix: string) {
    !LeftOut(o.text, o.kind, prefix, quoted, o.fuzzy)
  }

  predicate IsWordOffer(o: Offer) {
    o.kind.Keyword? || o.kind.Function?
  }

  /**
   Inside a quote no words are offered. What is typed whole already is offered only there. All else is, when what is
   typed, if anything, is the start of the label, or of a word in it, or is picked out of it by two or more bytes.
   */
  lemma WhatIsShown(o: Offer, quoted: bool, prefix: string)
    ensures quoted && IsWordOffer(o) ==> !Shows(o, quoted, prefix)
    ensures prefix == "" && !(quoted && IsWordOffer(o)) ==> Shows(o, quoted, prefix)
    ensures prefix != "" && Ieq(o.text, prefix) ==> (Shows(o, quoted, prefix) <==> quoted && !IsWordOffer(o))
    ensures prefix != "" && !Ieq(o.text, prefix) && !(quoted && IsWordOffer(o)) ==>
              (Shows(o, quoted, prefix) <==>
                 || Occurs(o.text, prefix, 0) || OccursAtWord(o.text, prefix)
                 || (o.fuzzy && |prefix| >= 2 && IsSubsequence(o.text, prefix)))
  {
    OccurrenceIsSubsequence(o.text, prefix);
    WholeOccurs(o.text, prefix);
    hide Occurs, OccursAtWord, OccursAnywhere, IsSubsequence, Ieq;
  }

  lemma WholeOccurs(text: string, p: string)
    ensures Ieq(text, p) ==> Occurs(text, p, 0)
  {
    assert text[0..|text|] == text;
  }

  /** Every item comes from an offer that the emitter did not leave out. */
  ghost predicate AllOffered(items: seq<Item>, offers: seq<Offer>, ty: DatabaseType, reserved: set<string>,
      quoted: bool, prefix: string)
    requires forall i :: 0 <= i < |offers| ==> PlainOffer(offers[i])
  {
    forall it :: it in items ==> IsOffered(it, offers, ty, reserved, quoted, prefix)
  }

  ghost predicate IsOffered(it: Item, offers: seq<Offer>, ty: DatabaseType, reserved: set<string>, quoted: bool,
      prefix: string)
    requires forall i :: 0 <= i < |offers| ==> PlainOffer(offers[i])
  {
    exists i :: 0 <= i < |offers| && it == ItemOf(offers[i], ty, reserved, quoted, prefix)
             && Shows(offers[i], quoted, prefix)
  }

  method AddOffer(em: Emitter, o: Offer)
    requires PlainOffer(o)
    modifies em`items
    ensures em.items ==
            if Shows(o, em.quoted, em.prefix)
            then old(em.items) + [ItemOf(o, em.ty, em.reserved, em.quoted, em.prefix)]
            else old(em.items)
  {
    hide PathText, Tier, KeywordText, LeftOut;
    var insert;
    match o.words {
      case OfKeyword(kw) => insert := em.KeywordCase(kw);
      case OfName(n) =>
        insert := em.Name(n);
        OneName(n, em.ty, em.reserved, em.quoted);
      case OfPath(schema, n) => insert := em.Path(schema, n);
    }
    em.Add(o.text, o.kind, o.detail, o.owner, insert, o.bonus, o.fuzzy);
  }

  lemma OneName(n: string, ty: DatabaseType, reserved: set<string>, quoted: bool)
    ensures PathText([n], ty, reserved, quoted) == NameText(n, ty, reserved, quoted)
  {
  }

  // ---------- a completion ----------

  /**
   Accepting `insert` over the target is a local edit of the token list, with whitespace, punctuation or an end on
   both sides.
   */
  ghost predicate EditsLocally(s: string, ty: DatabaseType, r: Target, insert: string)
    requires r.start <= r.end <= |s|
  {
    Apart(s, Tokens(s, DialectFor(ty)), r.start, r.end) ==>
    exists before, within :: IsLocalEdit(s, DialectFor(ty), r, insert, before, within)
  }

  lemma OfferedEditsLocally(s: string, ty: DatabaseType, cursor: nat, r: Target, it: Item, offers: seq<Offer>,
      reserved: set<string>)
    requires cursor <= |s| && NoneInert(Tokens(s, DialectFor(ty)), cursor) && r.start <= r.end <= |s|
    requires IsTarget(s, Tokens(s, DialectFor(ty)), cursor, r)
    requires forall i :: 0 <= i < |offers| ==> PlainOffer(offers[i])
    requires IsOffered(it, offers, ty, reserved, r.quoted, r.prefix)
    ensures EditsLocally(s, ty, r, it.insert)
  {
    hide IsTarget, NoneInert, InsertText, IsLocalEdit, Tokens, Shows, Tier, IsPlainWord;
    var i :| 0 <= i < |offers| && it == ItemOf(offers[i], ty, reserved, r.quoted, r.prefix);
    if Apart(s, Tokens(s, DialectFor(ty)), r.start, r.end) {
      var before, within := AcceptItemIsLocal(s, ty, cursor, r, InsertOf(offers[i].words, r.prefix), reserved);
    }
  }

  predicate PlainOffers(offers: seq<Offer>) {
    forall i :: 0 <= i < |offers| ==> PlainOffer(offers[i])
  }

  /** What the caller of a completion is given: ranked items without repeats, all on offer and all safe to accept. */
  ghost predicate Completes(items: seq<Item>, s: string, ty: DatabaseType, r: Target, offers: seq<Offer>,
      reserved: set<string>)
    requires PlainOffers(offers) && r.start <= r.end <= |s|
  {
    && Ranked(items) && DistinctKeys(items)
    && AllOffered(items, offers, ty, reserved, r.quoted, r.prefix)
    && (forall it :: it in items ==> EditsLocally(s, ty, r, it.insert))
    && (forall i :: 0 <= i < |offers| && Shows(offers[i], r.quoted, r.prefix) ==>
          Represented(items, ItemOf(offers[i], ty, reserved, r.quoted, r.prefix)))
  }

  method AddOffers(em: Emitter, offers: seq<Offer>)
    requires PlainOffers(offers) && em.items == []
    modifies em`items
    ensures AllOffered(em.items, offers, em.ty, em.reserved, em.quoted, em.prefix)
    ensures forall i :: 0 <= i < |offers| && Shows(offers[i], em.quoted, em.prefix) ==>
              ItemOf(offers[i], em.ty, em.reserved, em.quoted, em.prefix) in em.items
  {
    hide ItemOf, Shows, PlainOffer;
    for i := 0 to |offers|
      invariant AllOffered(em.items, offers, em.ty, em.reserved, em.quoted, em.prefix)
      invariant forall k :: 0 <= k < i && Shows(offers[k], em.quoted, em.prefix) ==>
                  ItemOf(offers[k], em.ty, em.reserved, em.quoted, em.prefix) in em.items
    {
      AddOffer(em, offers[i]);
    }
  }

  method Complete(s: string, cursor: nat, ty: DatabaseType, reserved: set<string>, offers: seq<Offer>)
    returns (items: seq<Item>, target: Option<Target>)
    requires PlainOffers(offers)
    ensures var at := if cursor < |s| then cursor else |s|;
            var ts := Tokens(s, DialectFor(ty));
            && (target.Some? <==> !ty.REDIS? && !ty.MONGODB? && NoneInert(ts, at))
            && (target.None? ==> items == [])
            && (target.Some? ==>
                  var r := target.value;
                  && IsTarget(s, ts, at, r) && r.start <= r.end <= |s|
                  && Completes(items, s, ty, r, offers, reserved))
  {
    hide Tokens, IsTarget, NoneInert, PlainOffer, ItemOf, Shows, EditsLocally, IsOffered, Represented, DialectFor;
    var at := if cursor < |s| then cursor else |s|;
    target := ReplaceRange(s, at, ty);
    if target.None? {
      return [], None;
    }
    var r := target.value;
    TargetBoundaries(s, DialectFor(ty), at, r);
    var em := new Emitter(r.prefix, r.quoted, ty, reserved);
    AddOffers(em, offers);
    items := em.Take();
    forall it | it in items ensures EditsLocally(s, ty, r, it.insert) {
      OfferedEditsLocally(s, ty, at, r, it, offers, reserved);
    }
  }

  // ---------- relations on offer ----------

  /** A relation is offered by name in the default schema, else below its relative schema and a little later. */
  function RelationOffer(t: Table, def: string, isView: bool, bonus: int): Offer {
    var local := Local(t, def);
    Offer(t.name, if isView then View else TableItem, if isView then "view" else "table", t.schema,
          OfPath(if local then "" else RelativeSchema(t.schema, def), t.name), if local then bonus else bonus - 40,
            true)
  }

  /**
   Accepting the item of a relation inserts a path that reads back and finds a relation of that name, ranked no
   lower.
   */
  lemma OfferedRelationResolves(c: Catalog, i: nat, isView: bool, bonus: int, ty: DatabaseType,
      reserved: set<string>, quoted: bool, prefix: string)
    requires i < |Candidates(c)|
    ensures var t := Candidates(c)[i];
            var it := ItemOf(RelationOffer(t, c.defaultSchema, isView, bonus), ty, reserved, quoted, prefix);
            var path := ReadPath(Tokens(it.insert, DialectFor(ty)));
            && Lookup(c, path).Some?
            && var found := Candidates(c)[Lookup(c, path).value];
               Ieq(found.name, t.name) && Rank(t, t.name, c.defaultSchema) <= Rank(found, t.name, c.defaultSchema)
  {
    hide Tokens, PathText, Lookup, Tier, RelativeSchema, ReadPath;
    var t := Candidates(c)[i];
    assert SplitPath("") == [];
    assert [] + [t.name] == [t.name];
    OfferedPathResolves(c, i, ty, reserved, quoted);
  }

  // ---------- offers that are told apart ----------

  /** It inserts the word it shows, and the names of its schema and its owner are free of the separator. */
  predicate OwnLabel(o: Offer) {
    && SEP !in o.owner
    && match o.words
       case OfKeyword(kw) => o.text == kw
       case OfName(n) => o.text == n
       case OfPath(schema, n) => o.text == n && SEP !in schema
  }

  lemma {:induction false} PartsWithout(p: string)
    requires SEP !in p
    ensures forall i :: 0 <= i < |SplitParts(p)| ==> SEP !in SplitParts(p)[i]
    decreases |p|
  {
    var i := FindChar(p, '.', 0);
    if i < |p| {
      PartsWithout(p[i + 1..]);
    }
  }

  lemma OfferBalanced(o: Offer, ty: DatabaseType, reserved: set<string>, quoted: bool, prefix: string)
    requires PlainOffer(o) && OwnLabel(o)
    ensures Balanced(ItemOf(o, ty, reserved, quoted, prefix))
  {
    hide NameText, PathText, Tier;
    match o.words {
      case OfKeyword(kw) => KeywordSeps(kw, prefix);
      case OfName(n) => PathSeps([n], ty, reserved, quoted);
      case OfPath(schema, n) =>
        if schema != "" {
          PartsWithout(schema);
        }
        PathSeps(SplitPath(schema) + [n], ty, reserved, quoted);
    }
  }

  lemma KeywordSeps(kw: string, prefix: string)
    requires IsPlainWord(kw)
    ensures Seps(KeywordText(kw, prefix)) == Seps(kw)
  {
    assert SEP !in kw && SEP !in Lower(kw);
  }

  /** Items of a completion with one key are one item, unless a schema or an owner holds the separator byte. */
  lemma OfferedKeysDiffer(a: Offer, b: Offer, ty: DatabaseType, reserved: set<string>, quoted: bool, prefix: string)
    requires PlainOffer(a) && PlainOffer(b) && OwnLabel(a) && OwnLabel(b)
    ensures var x, y := ItemOf(a, ty, reserved, quoted, prefix), ItemOf(b, ty, reserved, quoted, prefix);
            Key(x) == Key(y) ==> SameFields(x, y)
  {
    OfferBalanced(a, ty, reserved, quoted, prefix);
    OfferBalanced(b, ty, reserved, quoted, prefix);
    hide ItemOf, Key, Balanced;
    var x, y := ItemOf(a, ty, reserved, quoted, prefix), ItemOf(b, ty, reserved, quoted, prefix);
    if Key(x) == Key(y) {
      BalancedKeysDiffer(x, y);
    }
  }
}
