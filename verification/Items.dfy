/** The completion items: what they insert, how they are ranked, and how repeats are dropped. */
module Items {
  import opened Text
  import opened Lexer
  import opened LexTheorems
  import opened Quoting
  import opened Relations
  import opened Matching
  import opened Editing

  datatype ItemKind = Keyword | Function | TableItem | View | ColumnItem | Schema | Sequence | Alias

  datatype Item = Item(text: string, kind: ItemKind, detail: string, owner: string, insert: string, score: int)

  function KindRank(k: ItemKind): nat {
    match k
    case Keyword => 0
    case Function => 1
    case TableItem => 2
    case View => 3
    case ColumnItem => 4
    case Schema => 5
    case Sequence => 6
    case Alias => 7
  }

  // ---------- the ranking ----------

  /** Lexicographic order of lower-cased texts. */
  predicate ILess(a: string, b: string) {
    if b == "" then false
    else if a == "" then true
    else if LowerChar(a[0]) != LowerChar(b[0]) then LowerChar(a[0]) < LowerChar(b[0])
    else ILess(a[1..], b[1..])
  }

  /** `a` is listed before `b`. */
  predicate Outranks(a: Item, b: Item) {
    if a.score != b.score then a.score > b.score
    else if !Ieq(a.text, b.text) then ILess(a.text, b.text)
    else if a.kind != b.kind then KindRank(a.kind) < KindRank(b.kind)
    else ILess(a.owner, b.owner)
  }

  lemma IeqCons(a: string, b: string)
    requires a != "" && b != ""
    ensures Ieq(a, b) <==> LowerChar(a[0]) == LowerChar(b[0]) && Ieq(a[1..], b[1..])
  {
    if LowerChar(a[0]) == LowerChar(b[0]) && Ieq(a[1..], b[1..]) {
      forall i | 0 <= i < |a| ensures LowerChar(a[i]) == LowerChar(b[i]) {
        assert i > 0 ==> a[i] == a[1..][i - 1] && b[i] == b[1..][i - 1];
      }
    }
    if Ieq(a, b) {
      forall i | 0 <= i < |a[1..]| ensures LowerChar(a[1..][i]) == LowerChar(b[1..][i]) {
        assert LowerChar(a[i + 1]) == LowerChar(b[i + 1]);
      }
    }
  }

  /** Of two texts exactly one comes first, or they are equal up to case. */
  lemma {:induction false} ILessTrichotomy(a: string, b: string)
    ensures ILess(a, b) ==> !ILess(b, a) && !Ieq(a, b)
    ensures !ILess(a, b) && !ILess(b, a) ==> Ieq(a, b)
    ensures Ieq(a, b) ==> !ILess(a, b)
    decreases |a|
  {
    if a != "" && b != "" {
      IeqCons(a, b);
      ILessTrichotomy(a[1..], b[1..]);
    }
  }

  lemma {:induction false} ILessTransitive(a: string, b: string, c: string)
    ensures ILess(a, b) && ILess(b, c) ==> ILess(a, c)
    ensures ILess(a, b) && Ieq(b, c) ==> ILess(a, c)
    ensures Ieq(a, b) && ILess(b, c) ==> ILess(a, c)
    decreases |a|
  {
    if a != "" && b != "" && c != "" {
      IeqCons(a, b);
      IeqCons(b, c);
      ILessTransitive(a[1..], b[1..], c[1..]);
    }
  }

  /** `a` ends, or has the smaller letter, where it first differs from `b` in any case. */
  ghost predicate ComesFirst(a: string, b: string) {
    exists k :: 0 <= k <= |a| && k < |b| && FirstAt(a, b, k)
  }

  predicate FirstAt(a: string, b: string, k: nat)
    requires k <= |a| && k < |b|
  {
    Ieq(a[..k], b[..k]) && (k == |a| || LowerChar(a[k]) < LowerChar(b[k]))
  }

  lemma {:induction false} ILessMeans(a: string, b: string)
    ensures ILess(a, b) <==> ComesFirst(a, b)
    decreases |a|
  {
    if a == "" {
      assert b != "" ==> FirstAt(a, b, 0);
    } else if b != "" {
      ILessMeans(a[1..], b[1..]);
      ComesFirstStep(a, b);
      hide ComesFirst;
    }
  }

  lemma ComesFirstStep(a: string, b: string)
    requires a != "" && b != ""
    ensures ComesFirst(a, b) <==>
            LowerChar(a[0]) < LowerChar(b[0]) || (LowerChar(a[0]) == LowerChar(b[0]) && ComesFirst(a[1..], b[1..]))
  {
    hide FirstAt;
    assert FirstAt(a, b, 0) <==> LowerChar(a[0]) < LowerChar(b[0]) by {
      FirstStep(a, b, 0);
    }
    if ComesFirst(a, b) {
      var k: nat :| 0 <= k <= |a| && k < |b| && FirstAt(a, b, k);
      FirstStep(a, b, k);
    }
    if LowerChar(a[0]) == LowerChar(b[0]) && ComesFirst(a[1..], b[1..]) {
      var k: nat :| 0 <= k <= |a[1..]| && k < |b[1..]| && FirstAt(a[1..], b[1..], k);
      FirstStep(a, b, k + 1);
    }
  }

  lemma FirstStep(a: string, b: string, k: nat)
    requires a != "" && b != "" && k <= |a| && k < |b|
    ensures k == 0 ==> (FirstAt(a, b, 0) <==> LowerChar(a[0]) < LowerChar(b[0]))
    ensures k > 0 ==> (FirstAt(a, b, k) <==> LowerChar(a[0]) == LowerChar(b[0]) && FirstAt(a[1..], b[1..], k - 1))
  {
    if k > 0 {
      IeqCons(a[..k], b[..k]);
      assert a[..k][1..] == a[1..][..k - 1] && b[..k][1..] == b[1..][..k - 1];
    }
  }

  /** The kinds in the order they are listed for labels that tie. */
  const KINDS := [Keyword, Function, TableItem, View, ColumnItem, Schema, Sequence, Alias]

  predicate KindFirst(a: ItemKind, b: ItemKind) {
    exists i, j :: 0 <= i < j < |KINDS| && KINDS[i] == a && KINDS[j] == b
  }

  lemma KindRankMeans(a: ItemKind, b: ItemKind)
    ensures KindRank(a) < KindRank(b) <==> KindFirst(a, b)
  {
    assert KINDS[KindRank(a)] == a && KINDS[KindRank(b)] == b;
    assert forall i :: 0 <= i < |KINDS| ==> KindRank(KINDS[i]) == i;
  }

  /** The better score is first, then the first label, the first kind and the first owner. */
  lemma OutranksMeans(a: Item, b: Item)
    ensures a.score != b.score ==> (Outranks(a, b) <==> a.score > b.score)
    ensures a.score == b.score && !Ieq(a.text, b.text) ==> (Outranks(a, b) <==> ComesFirst(a.text, b.text))
    ensures a.score == b.score && Ieq(a.text, b.text) && a.kind != b.kind ==>
              (Outranks(a, b) <==> KindFirst(a.kind, b.kind))
    ensures a.score == b.score && Ieq(a.text, b.text) && a.kind == b.kind ==>
              (Outranks(a, b) <==> ComesFirst(a.owner, b.owner))
  {
    ILessMeans(a.text, b.text);
    ILessMeans(a.owner, b.owner);
    KindRankMeans(a.kind, b.kind);
    hide Ieq, ILess, ComesFirst, KindFirst;
  }

  /** Neither comes first. */
  predicate Tied(a: Item, b: Item) {
    !Outranks(a, b) && !Outranks(b, a)
  }

  lemma TiedMeans(a: Item, b: Item)
    ensures Tied(a, b) <==> a.score == b.score && Ieq(a.text, b.text) && a.kind == b.kind && Ieq(a.owner, b.owner)
  {
    hide ILess, Ieq;
    ILessTrichotomy(a.text, b.text);
    ILessTrichotomy(b.text, a.text);
    ILessTrichotomy(a.owner, b.owner);
    ILessTrichotomy(b.owner, a.owner);
    IeqSymmetric(a.text, b.text);
    IeqSymmetric(a.owner, b.owner);
  }

  lemma IeqSymmetric(a: string, b: string)
    ensures Ieq(a, b) <==> Ieq(b, a)
  {
  }

  lemma IeqTransitive(a: string, b: string, c: string)
    requires Ieq(a, b) && Ieq(b, c)
    ensures Ieq(a, c)
  {
  }

  /** The ranking is a strict weak order, as sorting by it needs. */
  lemma RankingIsStrictWeak(a: Item, b: Item, c: Item)
    ensures !Outranks(a, a)
    ensures Outranks(a, b) ==> !Outranks(b, a)
    ensures Outranks(a, b) && Outranks(b, c) ==> Outranks(a, c)
    ensures Tied(a, b) && Tied(b, c) ==> Tied(a, c)
  {
    TiedMeans(a, b);
    TiedMeans(b, c);
    TiedMeans(a, c);
    TextFacts(a.text, b.text, c.text);
    TextFacts(a.owner, b.owner, c.owner);
    hide ILess, Ieq;
  }

  lemma TextFacts(a: string, b: string, c: string)
    ensures Ieq(a, a) && !ILess(a, a)
    ensures Ieq(a, b) == Ieq(b, a) && !(ILess(a, b) && ILess(b, a))
    ensures Ieq(a, b) && Ieq(b, c) ==> Ieq(a, c)
    ensures ILess(a, b) && ILess(b, c) ==> ILess(a, c) && !Ieq(a, c)
    ensures ILess(a, b) && Ieq(b, c) ==> ILess(a, c) && !Ieq(a, c)
    ensures Ieq(a, b) && ILess(b, c) ==> ILess(a, c) && !Ieq(a, c)
  {
    ILessTransitive(a, b, c);
    ILessTrichotomy(a, a);
    ILessTrichotomy(a, b);
    ILessTrichotomy(a, c);
    IeqSymmetric(a, b);
    if Ieq(a, b) && Ieq(b, c) {
      IeqTransitive(a, b, c);
    }
  }

  // ---------- sorting ----------

  /** `x` put into a sorted list after every item it does not come before. */
  function Place(ys: seq<Item>, x: Item): seq<Item> {
    if ys == [] then [x]
    else
      var last := |ys| - 1;
      if Outranks(x, ys[last]) then Place(ys[..last], x) + [ys[last]] else ys + [x]
  }

  /** The stable sort of the items. */
  function StableSort(xs: seq<Item>): seq<Item> {
    if xs == [] then [] else Place(StableSort(xs[..|xs| - 1]), xs[|xs| - 1])
  }

  predicate Ranked(xs: seq<Item>) {
    forall i, j :: 0 <= i < j < |xs| ==> !Outranks(xs[j], xs[i])
  }

  lemma {:induction false} PlaceKeeps(ys: seq<Item>, x: Item)
    ensures multiset(Place(ys, x)) == multiset(ys) + multiset{x}
  {
    hide Outranks;
    if ys != [] {
      var front, last := ys[..|ys| - 1], ys[|ys| - 1];
      assert ys == front + [last];
      if Outranks(x, last) {
        PlaceKeeps(front, x);
      }
    }
  }

  lemma {:induction false} SortKeeps(xs: seq<Item>)
    ensures multiset(StableSort(xs)) == multiset(xs)
  {
    hide Place, Outranks;
    if xs != [] {
      var front, last := xs[..|xs| - 1], xs[|xs| - 1];
      assert xs == front + [last];
      SortKeeps(front);
      PlaceKeeps(StableSort(front), last);
    }
  }

  /** What is in a placed list was there before, or is the item placed. */
  lemma PlaceMember(ys: seq<Item>, x: Item, y: Item)
    ensures y in Place(ys, x) <==> y in ys || y == x
  {
    PlaceKeeps(ys, x);
    assert y in Place(ys, x) <==> y in multiset(Place(ys, x));
  }

  lemma {:induction false} PlaceRanked(ys: seq<Item>, x: Item)
    requires Ranked(ys)
    ensures Ranked(Place(ys, x))
    decreases |ys|
  {
    hide Outranks;
    if ys != [] {
      var front, last := ys[..|ys| - 1], ys[|ys| - 1];
      RankingFacts(x, last);
      if Outranks(x, last) {
        PlaceRanked(front, x);
        forall y | y in Place(front, x) ensures !Outranks(last, y) {
          PlaceMember(front, x, y);
        }
      } else {
        forall y | y in ys ensures !Outranks(x, y) {
          var i :| 0 <= i < |ys| && ys[i] == y;
          NotOutranked(x, last, y);
        }
      }
    }
  }

  lemma RankingFacts(x: Item, y: Item)
    ensures Outranks(x, y) ==> !Outranks(y, x)
    ensures !Outranks(x, x)
  {
    RankingIsStrictWeak(x, y, x);
  }

  /** Not coming before is transitive. */
  lemma NotOutranked(x: Item, y: Item, z: Item)
    requires !Outranks(x, y) && (y == z || !Outranks(y, z))
    ensures !Outranks(x, z)
  {
    hide Outranks;
    RankingIsStrictWeak(x, z, y);
    RankingIsStrictWeak(z, x, y);
    RankingIsStrictWeak(y, x, z);
    RankingIsStrictWeak(x, y, z);
    RankingIsStrictWeak(y, z, x);
    RankingIsStrictWeak(z, y, x);
  }

  lemma {:induction false} SortRanks(xs: seq<Item>)
    ensures Ranked(StableSort(xs))
  {
    if xs != [] {
      SortRanks(xs[..|xs| - 1]);
      PlaceRanked(StableSort(xs[..|xs| - 1]), xs[|xs| - 1]);
    }
  }

  // ---------- dropping repeats ----------

  const SEP: char := '\U{001f}'

  /** The part of a key behind its kind. */
  function Fields(text: string, insert: string, owner: string): string {
    text + ([SEP] + (insert + ([SEP] + owner)))
  }

  /** The text two items are compared by. */
  function Key(it: Item): string {
    [('0' as int + KindRank(it.kind)) as char] + [SEP] + Fields(it.text, it.insert, it.owner)
  }

  predicate SeparatorFree(it: Item) {
    SEP !in it.text && SEP !in it.insert && SEP !in it.owner
  }

  lemma SplitAtSeparator(x: string, y: string, x': string, y': string)
    requires SEP !in x && SEP !in x' && x + ([SEP] + y) == x' + ([SEP] + y')
    ensures x == x' && y == y'
  {
    var a, a' := x + ([SEP] + y), x' + ([SEP] + y');
    assert a[|x|] == SEP && a'[|x'|] == SEP;
    assert forall i :: 0 <= i < |x| ==> a[i] == x[i];
    assert forall i :: 0 <= i < |x'| ==> a'[i] == x'[i];
    assert |x| == |x'|;
    assert x == a[..|x|] && x' == a'[..|x'|];
    assert y == a[|x| + 1..] && y' == a'[|x'| + 1..];
  }

  predicate SameFields(a: Item, b: Item) {
    a.kind == b.kind && a.text == b.text && a.insert == b.insert && a.owner == b.owner
  }

  lemma FreeKeysDiffer(a: Item, b: Item)
    requires SeparatorFree(a) && SeparatorFree(b) && Key(a) == Key(b)
    ensures SameFields(a, b)
  {
    assert Key(a)[0] == Key(b)[0];
    var more := a.text + ([SEP] + (a.insert + ([SEP] + a.owner)));
    var more' := b.text + ([SEP] + (b.insert + ([SEP] + b.owner)));
    assert Key(a)[2..] == more && Key(b)[2..] == more';
    SplitAtSeparator(a.text, a.insert + ([SEP] + a.owner), b.text, b.insert + ([SEP] + b.owner));
    SplitAtSeparator(a.insert, a.owner, b.insert, b.owner);
  }

  /** A key holds three separators, and those of its fields. */
  lemma KeySeparators(it: Item)
    ensures multiset(Key(it))[SEP] == 3 + multiset(it.text)[SEP] + multiset(it.insert)[SEP] + multiset(it.owner)[SEP]
  {
    var kind := [('0' as int + KindRank(it.kind)) as char];
    assert multiset(it.insert + ([SEP] + it.owner)) == multiset(it.insert) + (multiset([SEP]) + multiset(it.owner));
  }

  lemma CutAtSeparator(s: string) returns (x: string, y: string)
    requires SEP in s
    ensures s == x + ([SEP] + y)
  {
    var i :| 0 <= i < |s| && s[i] == SEP;
    x, y := s[..i], s[i + 1..];
    assert s == s[..i] + s[i..] && s[i..] == [s[i]] + s[i + 1..];
  }

  lemma FieldsMove(x: string, y: string, z: string, w: string)
    ensures Fields(x + ([SEP] + y), z, w) == Fields(x, y + ([SEP] + z), w)
    ensures Fields(z, x + ([SEP] + y), w) == Fields(z + ([SEP] + x), y, w)
    ensures Fields(z, w, x + ([SEP] + y)) == Fields(z, w + ([SEP] + x), y)
  {
    Assoc(x, [SEP] + y, [SEP] + (z + ([SEP] + w)));
    Assoc([SEP], y, [SEP] + (z + ([SEP] + w)));
    Assoc(y, [SEP] + z, [SEP] + w);
    Assoc([SEP], z, [SEP] + w);
    Assoc(z, [SEP] + x, [SEP] + (y + ([SEP] + w)));
    Assoc([SEP], x, [SEP] + (y + ([SEP] + w)));
    Assoc(x, [SEP] + y, [SEP] + w);
    Assoc([SEP], y, [SEP] + w);
    Assoc(w, [SEP] + x, [SEP] + y);
    Assoc([SEP], x, [SEP] + y);
  }

  /** An item with a separator in a field shares its key with another: the one whose fields part there. */
  lemma Twin(a: Item) returns (b: Item)
    requires !SeparatorFree(a)
    ensures Key(b) == Key(a) && !SameFields(a, b)
  {
    hide Fields;
    if SEP in a.text {
      var x, y := CutAtSeparator(a.text);
      b := a.(text := x, insert := y + ([SEP] + a.insert));
      FieldsMove(x, y, a.insert, a.owner);
      assert |b.text| < |a.text|;
    } else if SEP in a.insert {
      var x, y := CutAtSeparator(a.insert);
      b := a.(text := a.text + ([SEP] + x), insert := y);
      FieldsMove(x, y, a.text, a.owner);
      assert |b.text| > |a.text|;
    } else {
      var x, y := CutAtSeparator(a.owner);
      b := a.(insert := a.insert + ([SEP] + x), owner := y);
      FieldsMove(x, y, a.text, a.insert);
      assert |b.insert| > |a.insert|;
    }
  }

  /**
   An item's key tells it from all others, but for detail and score, exactly when none of its fields holds the
   separator byte.
   */
  lemma KeyIsFields(a: Item)
    ensures SeparatorFree(a) <==> forall b :: Key(b) == Key(a) ==> SameFields(a, b)
  {
    hide Key;
    if SeparatorFree(a) {
      forall b | Key(b) == Key(a) ensures SameFields(a, b) {
        KeySeparators(a);
        KeySeparators(b);
        FreeKeysDiffer(a, b);
      }
    } else {
      var b := Twin(a);
    }
  }

  /** Two columns with one key: `a` of a table with a name to fit, and one whose own name holds the separator byte. */
  lemma KeysCollide(reserved: set<string>)
    requires "A" !in reserved
    ensures var n, owner := ['a', SEP, 'a'], ['"', 'a', SEP, 'a', '"', SEP, 't'];
            var a := Item("a", ColumnItem, "", owner, NameText("a", POSTGRESQL, reserved, false), 0);
            var b := Item(n, ColumnItem, "", "t", NameText(n, POSTGRESQL, reserved, false), 0);
            a.text != b.text && Key(a) == Key(b)
  {
    var n, owner := ['a', SEP, 'a'], ['"', 'a', SEP, 'a', '"', SEP, 't'];
    SmallNames(reserved);
    assert Fields("a", "a", owner) == ['a', SEP, 'a', SEP] + owner;
    assert Fields(n, ['"', 'a', SEP, 'a', '"'], "t") == n + [SEP, '"', 'a', SEP, 'a', '"', SEP, 't'];
  }

  lemma SmallNames(reserved: set<string>)
    requires "A" !in reserved
    ensures NameText("a", POSTGRESQL, reserved, false) == "a"
    ensures NameText(['a', SEP, 'a'], POSTGRESQL, reserved, false) == ['"', 'a', SEP, 'a', '"']
  {
    assert Upper("a") == "A";
    assert !PlainByte(['a', SEP, 'a'][1], POSTGRESQL);
    assert ['a', SEP, 'a'][1..] == [SEP, 'a'] && [SEP, 'a'][1..] == "a" && "a"[1..] == "";
    assert Escape("a", '"') == "a" && Escape([SEP, 'a'], '"') == [SEP, 'a'];
  }

  // ---------- keys of items that insert their own label ----------

  function Seps(s: string): nat {
    multiset(s)[SEP]
  }

  /** Texts parted at the separator that has equally many before it are the same on both sides. */
  lemma PartsByCount(x: string, y: string, x': string, y': string)
    requires x + ([SEP] + y) == x' + ([SEP] + y') && Seps(x) == Seps(x')
    ensures x == x' && y == y'
  {
    if |x| < |x'| {
      ShorterPart(x, y, x', y');
    } else if |x'| < |x| {
      ShorterPart(x', y', x, y);
    } else {
      assert x == (x + ([SEP] + y))[..|x|] && x' == (x' + ([SEP] + y'))[..|x|];
      assert y == (x + ([SEP] + y))[|x| + 1..] && y' == (x' + ([SEP] + y'))[|x| + 1..];
    }
  }

  lemma ShorterPart(x: string, y: string, x': string, y': string)
    requires x + ([SEP] + y) == x' + ([SEP] + y') && |x| < |x'|
    ensures Seps(x) < Seps(x')
  {
    var all := x + ([SEP] + y);
    var z := x'[|x| + 1..];
    assert x' == all[..|x'|] && all[..|x|] == x && all[|x|] == SEP;
    assert x' == x + ([SEP] + z);
  }

  /** What is inserted holds as many separators as the label, and the owner none. */
  predicate Balanced(it: Item) {
    Seps(it.insert) == Seps(it.text) && SEP !in it.owner
  }

  /** Such items have one key only if they are one, whatever their labels. */
  lemma BalancedKeysDiffer(a: Item, b: Item)
    requires Balanced(a) && Balanced(b) && Key(a) == Key(b)
    ensures SameFields(a, b)
  {
    KeyParts(a, b);
    hide Key, Fields;
    FieldsParted(a, b);
  }

  lemma KeyParts(a: Item, b: Item)
    requires Key(a) == Key(b)
    ensures a.kind == b.kind && Fields(a.text, a.insert, a.owner) == Fields(b.text, b.insert, b.owner)
    ensures Seps(a.text) + Seps(a.insert) + Seps(a.owner) == Seps(b.text) + Seps(b.insert) + Seps(b.owner)
  {
    KeySeparators(a);
    KeySeparators(b);
    hide Fields;
    assert Key(a)[0] == Key(b)[0];
    assert Key(a)[2..] == Fields(a.text, a.insert, a.owner) && Key(b)[2..] == Fields(b.text, b.insert, b.owner);
  }

  lemma FieldsParted(a: Item, b: Item)
    requires Fields(a.text, a.insert, a.owner) == Fields(b.text, b.insert, b.owner)
    requires Seps(a.text) == Seps(b.text) && Seps(a.insert) == Seps(b.insert)
    ensures a.text == b.text && a.insert == b.insert && a.owner == b.owner
  {
    hide Seps;
    PartsByCount(a.text, a.insert + ([SEP] + a.owner), b.text, b.insert + ([SEP] + b.owner));
    PartsByCount(a.insert, a.owner, b.insert, b.owner);
  }

  lemma {:induction false} EscapeSeps(n: string, close: char)
    requires close != SEP
    ensures Seps(Escape(n, close)) == Seps(n)
    decreases |n|
  {
    if n != "" {
      EscapeSeps(n[1..], close);
      assert n == [n[0]] + n[1..];
    }
  }

  lemma NameSeps(n: string, ty: DatabaseType, reserved: set<string>, always: bool)
    ensures Seps(NameText(n, ty, reserved, always)) == Seps(n)
  {
    hide Escape, NeedsQuoting;
    EscapeSeps(n, QuotesFor(ty).close);
  }

  /** A path inserts the separators of its names. */
  lemma {:induction false} PathSeps(path: seq<string>, ty: DatabaseType, reserved: set<string>, always: bool)
    requires path != [] && forall i :: 0 <= i < |path| - 1 ==> SEP !in path[i]
    ensures Seps(PathText(path, ty, reserved, always)) == Seps(path[|path| - 1])
    decreases |path|
  {
    hide NameText;
    NameSeps(path[0], ty, reserved, always);
    if |path| > 1 {
      PathSeps(path[1..], ty, reserved, always);
    }
  }

  /** `it` is stood for in `out` by an item with its key and no lower score. */
  predicate Represented(out: seq<Item>, it: Item) {
    exists k :: 0 <= k < |out| && Key(out[k]) == Key(it) && out[k].score >= it.score
  }

  predicate DistinctKeys(out: seq<Item>) {
    forall i, j :: 0 <= i < j < |out| ==> Key(out[i]) != Key(out[j])
  }

  lemma RankedScores(xs: seq<Item>, i: nat, j: nat)
    requires Ranked(xs) && i <= j < |xs|
    ensures xs[i].score >= xs[j].score
  {
    assert i < j ==> !Outranks(xs[j], xs[i]);
  }

  /** `out` is made of the items of `xs` at the places `from`. */
  predicate PickedFrom(xs: seq<Item>, out: seq<Item>, from: seq<nat>) {
    && |from| == |out|
    && (forall k :: 0 <= k < |out| ==> from[k] < |xs| && out[k] == xs[from[k]])
    && (forall j, k :: 0 <= j < k < |out| ==> from[j] < from[k])
  }

  function Keys(out: seq<Item>): set<string> {
    set it | it in out :: Key(it)
  }

  lemma KeysSnoc(out: seq<Item>, it: Item)
    ensures Keys(out + [it]) == Keys(out) + {Key(it)}
  {
    hide Key;
  }

  lemma KeptStandsFor(xs: seq<Item>, out: seq<Item>, from: seq<nat>, i: nat)
    requires Ranked(xs) && PickedFrom(xs, out, from) && i < |xs|
    requires Key(xs[i]) in Keys(out)
    requires forall k :: 0 <= k < |out| ==> from[k] <= i
    ensures Represented(out, xs[i])
  {
    hide Key;
    var k :| 0 <= k < |out| && Key(out[k]) == Key(xs[i]);
    RankedScores(xs, from[k], i);
  }

  lemma KeptRanked(xs: seq<Item>, out: seq<Item>, from: seq<nat>)
    requires Ranked(xs) && PickedFrom(xs, out, from)
    ensures Ranked(out)
  {
    hide Outranks;
    forall i, j | 0 <= i < j < |out| ensures !Outranks(out[j], out[i]) {
      assert from[i] < from[j];
    }
  }

  lemma StillRepresented(out: seq<Item>, more: seq<Item>, it: Item)
    requires Represented(out, it)
    ensures Represented(out + more, it)
  {
    hide Key;
    var k :| 0 <= k < |out| && Key(out[k]) == Key(it) && out[k].score >= it.score;
    assert (out + more)[k] == out[k];
  }

  /** One item more is kept, the first of its key. */
  lemma OneMoreKept(xs: seq<Item>, out: seq<Item>, from: seq<nat>, i: nat)
    requires PickedFrom(xs, out, from) && DistinctKeys(out) && i < |xs| && (forall k :: 0 <= k < |out| ==> from[k] < i)
    requires Key(xs[i]) !in Keys(out)
    ensures PickedFrom(xs, out + [xs[i]], from + [i]) && DistinctKeys(out + [xs[i]])
  {
    hide Key;
  }

  lemma SortCovers(items: seq<Item>, xs: seq<Item>, out: seq<Item>)
    requires multiset(xs) == multiset(items) && (forall m :: 0 <= m < |xs| ==> Represented(out, xs[m]))
    requires forall it :: it in out ==> it in xs
    ensures forall it :: it in items ==> Represented(out, it)
    ensures forall it :: it in out ==> it in items
  {
    hide Represented;
    forall it | it in items ensures Represented(out, it) {
      assert it in multiset(items);
    }
    forall it | it in out ensures it in items {
      assert it in multiset(xs);
    }
  }

  /** Sort, then keep the first item of each key. */
  method TakeFrom(items: seq<Item>) returns (out: seq<Item>)
    ensures Ranked(out) && DistinctKeys(out)
    ensures forall it :: it in items ==> Represented(out, it)
    ensures forall it :: it in out ==> it in items
  {
    var xs := StableSort(items);
    SortRanks(items);
    SortKeeps(items);
    hide Key, Keys, Outranks, StableSort, Ranked, DistinctKeys, Represented;
    out := [];
    var seen: set<string> := {};
    ghost var from: seq<nat> := [];
    NoKeys();
    for i := 0 to |xs|
      invariant PickedFrom(xs, out, from) && forall k :: 0 <= k < |out| ==> from[k] < i
      invariant seen == Keys(out)
      invariant DistinctKeys(out)
      invariant forall m :: 0 <= m < i ==> Represented(out, xs[m])
    {
      var it := xs[i];
      if Key(it) !in seen {
        OneMoreKept(xs, out, from, i);
        KeysSnoc(out, it);
        forall m | 0 <= m < i ensures Represented(out + [it], xs[m]) {
          StillRepresented(out, [it], xs[m]);
        }
        seen := seen + {Key(it)};
        out := out + [it];
        from := from + [i];
      }
      KeptStandsFor(xs, out, from, i);
    }
    KeptRanked(xs, out, from);
    SortCovers(items, xs, out);
  }

  lemma NoKeys()
    ensures DistinctKeys([]) && Keys([]) == {}
  {
  }

  // ---------- what an item inserts ----------

  /** A keyword in the case of what is typed: as it is after a capital, small after small letters only. */
  function KeywordText(kw: string, prefix: string): string {
    if exists i :: 0 <= i < |prefix| && IsUpper(prefix[i]) then kw
    else if exists i :: 0 <= i < |prefix| && IsAlpha(prefix[i]) then Lower(kw)
    else kw
  }

  /** A keyword keeps its letters; their case is the table's after a capital or no letter, and small otherwise. */
  lemma KeywordCases(kw: string, prefix: string)
    ensures Ieq(KeywordText(kw, prefix), kw)
    ensures (forall i :: 0 <= i < |prefix| ==> !IsAlpha(prefix[i])) ==> KeywordText(kw, prefix) == kw
    ensures (exists i :: 0 <= i < |prefix| && IsUpper(prefix[i])) ==> KeywordText(kw, prefix) == kw
    ensures (exists i :: 0 <= i < |prefix| && IsAlpha(prefix[i]))
              && (forall i :: 0 <= i < |prefix| ==> !IsUpper(prefix[i])) ==>
              forall i :: 0 <= i < |kw| ==> !IsUpper(KeywordText(kw, prefix)[i])
  {
  }

  /** Every item inserts a keyword or function of the dialect's tables, or a path of one or more names. */
  datatype Insert = KeywordInsert(kw: string, prefix: string) | PathInsert(path: seq<string>)

  predicate ValidInsert(ins: Insert) {
    match ins
    case KeywordInsert(kw, _) => IsPlainWord(kw)
    case PathInsert(path) => path != []
  }

  function InsertText(ins: Insert, ty: DatabaseType, reserved: set<string>, quoted: bool): string
    requires ValidInsert(ins)
  {
    match ins
    case KeywordInsert(kw, prefix) => KeywordText(kw, prefix)
    case PathInsert(path) => PathText(path, ty, reserved, quoted)
  }

  lemma LowerIsPlain(kw: string)
    requires IsPlainWord(kw)
    ensures IsPlainWord(Lower(kw))
  {
  }

  /** Whatever is inserted starts and ends as a name, with all tokens closed and none a comment or a number. */
  lemma InsertIsClosed(ins: Insert, ty: DatabaseType, reserved: set<string>, quoted: bool)
    requires ValidInsert(ins)
    ensures var text := InsertText(ins, ty, reserved, quoted);
            text != "" && AllClosed(Tokens(text, DialectFor(ty))) && NameLike(text, DialectFor(ty))
  {
    hide Munch, Lex, PathText, Lower, IsPlainWord;
    match ins {
      case KeywordInsert(kw, prefix) =>
        LowerIsPlain(kw);
        PlainWordLexes(KeywordText(kw, prefix), DialectFor(ty));
        PlainWordNonEmpty(KeywordText(kw, prefix));
      case PathInsert(path) =>
        PathReads(' ', path, ty, reserved, quoted, 0);
        PathStart(path, ty, reserved, quoted);
    }
  }

  lemma PlainWordNonEmpty(kw: string)
    requires IsPlainWord(kw)
    ensures kw != "" && StartsName(kw[0]) && EndsOperand(kw[|kw| - 1])
  {
  }

  /** Accepting any item of a completion is a local edit of the token list. */
  lemma AcceptItemIsLocal(s: string, ty: DatabaseType, cursor: nat, r: Target, ins: Insert, reserved: set<string>)
    returns (before: seq<Token>, within: seq<Token>)
    requires cursor <= |s| && NoneInert(Tokens(s, DialectFor(ty)), cursor)
    requires IsTarget(s, Tokens(s, DialectFor(ty)), cursor, r)
    requires Apart(s, Tokens(s, DialectFor(ty)), r.start, r.end)
    requires ValidInsert(ins)
    ensures IsLocalEdit(s, DialectFor(ty), r, InsertText(ins, ty, reserved, r.quoted), before, within)
  {
    hide Munch, Lex, InsertText, AllClosed, IsTarget, NoneInert, NameLike;
    InsertIsClosed(ins, ty, reserved, r.quoted);
    before, within := AcceptIsLocal(s, DialectFor(ty), cursor, r, InsertText(ins, ty, reserved, r.quoted));
  }

  // ---------- the emitter ----------

  /** Is an item left out: quoted words only for names, no match, or what is typed already? */
  ghost predicate LeftOut(text: string, kind: ItemKind, prefix: string, quoted: bool, fuzzy: bool) {
    || (quoted && (kind.Keyword? || kind.Function?))
    || Tier(text, prefix, fuzzy) < 0
    || (prefix != "" && Ieq(text, prefix) && !quoted)
  }

  class Emitter {
    const prefix: string
    const quoted: bool
    const ty: DatabaseType
    const reserved: set<string>
    var items: seq<Item>

    constructor (prefix: string, quoted: bool, ty: DatabaseType, reserved: set<string>)
      ensures this.prefix == prefix && this.quoted == quoted && this.ty == ty && this.reserved == reserved
      ensures items == []
    {
      this.prefix, this.quoted, this.ty, this.reserved := prefix, quoted, ty, reserved;
      items := [];
    }

    method KeywordCase(kw: string) returns (r: string)
      ensures r == KeywordText(kw, prefix)
    {
      var alpha := false;
      for i := 0 to |prefix|
        invariant forall j :: 0 <= j < i ==> !IsUpper(prefix[j])
        invariant alpha <==> exists j :: 0 <= j < i && IsAlpha(prefix[j])
      {
        if IsUpper(prefix[i]) {
          return kw;
        }
        alpha := alpha || IsAlpha(prefix[i]);
      }
      r := if alpha then Lower(kw) else kw;
    }

    method Name(n: string) returns (r: string)
      ensures r == NameText(n, ty, reserved, quoted)
    {
      if quoted || NeedsQuoting(n, ty, reserved) {
        r := QuoteIdentifier(n, ty);
      } else {
        r := n;
      }
    }

    method Path(schema: string, n: string) returns (out: string)
      ensures out == PathText(SplitPath(schema) + [n], ty, reserved, quoted)
    {
      var segs := SplitPath(schema);
      ghost var path := segs + [n];
      hide NameText;
      out := "";
      assert path[0..] == path;
      for i := 0 to |segs|
        invariant out + PathText(path[i..], ty, reserved, quoted) == PathText(path, ty, reserved, quoted)
      {
        var seg := Name(segs[i]);
        assert path[i..][1..] == path[i + 1..];
        Assoc(out, seg, "." + PathText(path[i + 1..], ty, reserved, quoted));
        Assoc(out + seg, ".", PathText(path[i + 1..], ty, reserved, quoted));
        out := out + seg;
        out := out + ".";
      }
      assert path[|segs|..] == [n];
      var last := Name(n);
      out := out + last;
    }

    method Add(text: string, kind: ItemKind, detail: string, owner: string, insert: string, bonus: int, fuzzy: bool)
      modifies this`items
      ensures items == if LeftOut(text, kind, prefix, quoted, fuzzy) then old(items)
                       else old(items) + [Item(text, kind, detail, owner, insert, Tier(text, prefix, fuzzy) + bonus)]
    {
      if quoted && (kind.Keyword? || kind.Function?) {
        return;
      }
      var tier := MatchTier(text, prefix, fuzzy);
      if tier < 0 {
        return;
      }
      if prefix != "" && Ieq(text, prefix) && !quoted {
        return;
      }
      items := items + [Item(text, kind, detail, owner, insert, tier + bonus)];
    }

    method Take() returns (out: seq<Item>)
      ensures Ranked(out) && DistinctKeys(out)
      ensures forall it :: it in items ==> Represented(out, it)
      ensures forall it :: it in out ==> it in items
    {
      out := TakeFrom(items);
    }
  }
}
