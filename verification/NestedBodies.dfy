/** Derived tables nested to any depth, and how many of them a depth limit lets the evaluator see. */
module NestedBodies {
  import opened Wrappers
  import opened Lexer
  import opened LexTheorems
  import opened Quoting
  import opened Relations
  import opened Editing
  import opened Scopes
  import opened Shadowing
  import opened Columns

  // ---------- the text ----------

  const HEAD := "SELECT * FROM ("

  function Opens(d: nat): string {
    if d == 0 then "" else HEAD + Opens(d - 1)
  }

  function Closes(d: nat): string {
    if d == 0 then "" else ") x" + Closes(d - 1)
  }

  /** `SELECT * FROM (SELECT * FROM (... (SELECT a) x) x) x`, with `d` derived tables. */
  function TextOf(d: nat): string {
    Opens(d) + ("SELECT a" + Closes(d))
  }

  function WordAt(base: nat, w: string): Token {
    Token(Word, base, base + |w|, true, false, w)
  }

  function SignAt(kind: Kind, base: nat, c: char): Token {
    Token(kind, base, base + 1, true, false, [c])
  }

  function HeadToks(base: nat): seq<Token> {
    [WordAt(base, "SELECT"), SignAt(Op, base + 7, '*'), WordAt(base + 9, "FROM"), SignAt(Punct, base + 14, '(')]
  }

  function OpenToks(d: nat, base: nat): seq<Token> {
    if d == 0 then [] else HeadToks(base) + OpenToks(d - 1, base + 15)
  }

  function CloseToks(d: nat, base: nat): seq<Token> {
    if d == 0 then [] else [SignAt(Punct, base, ')'), WordAt(base + 2, "x")] + CloseToks(d - 1, base + 3)
  }

  function Toks(d: nat): seq<Token> {
    OpenToks(d, 0) + ([WordAt(15 * d, "SELECT"), WordAt(15 * d + 7, "a")] + CloseToks(d, 15 * d + 8))
  }

  // ---------- its tokens ----------

  lemma WordStep(prev: char, w: string, tail: string, dl: Dialect, base: nat)
    requires IsPlainWord(w) && EndsName(tail)
    ensures Lex(prev, w + tail, dl, base) == [WordAt(base, w)] + Lex(w[|w| - 1], tail, dl, base + |w|)
  {
    hide Lex, Munch, IsPlainWord;
    var r := w + tail;
    WordReads(prev, w, dl, tail);
    LexStep(prev, r, dl, base);
    assert w != "" by { PlainNotEmpty(w); }
    assert r[|w|..] == tail && r[|w| - 1] == w[|w| - 1];
  }

  lemma PlainNotEmpty(w: string)
    requires IsPlainWord(w)
    ensures w != ""
  {
  }

  lemma SpaceStep(prev: char, tail: string, dl: Dialect, base: nat)
    ensures Lex(prev, " " + tail, dl, base) == Lex(' ', tail, dl, base + 1)
  {
    hide Lex, Munch;
    LexStep(prev, " " + tail, dl, base);
    assert (" " + tail)[1..] == tail;
  }

  lemma StarStep(prev: char, tail: string, dl: Dialect, base: nat)
    ensures Lex(prev, "*" + tail, dl, base) == [SignAt(Op, base, '*')] + Lex('*', tail, dl, base + 1)
  {
    hide Lex;
    LexStep(prev, "*" + tail, dl, base);
    assert Munch(prev, "*" + tail, dl) == Token(Op, 0, 1, true, false, "*");
    assert ("*" + tail)[1..] == tail;
  }

  lemma PlainWords()
    ensures IsPlainWord("SELECT") && IsPlainWord("FROM")
    ensures forall tail :: EndsName(" " + tail)
  {
  }

  lemma FromLexes(prev: char, rest: string, dl: Dialect, base: nat)
    ensures Lex(prev, "FROM" + (" " + ("(" + rest)), dl, base)
         == [WordAt(base, "FROM"), SignAt(Punct, base + 5, '(')] + Lex('(', rest, dl, base + 6)
  {
    PlainWords();
    hide *;
    WordStep(prev, "FROM", " " + ("(" + rest), dl, base);
    SpaceStep('M', "(" + rest, dl, base + 4);
    ParenStep(' ', rest, dl, base + 5);
    Assoc([WordAt(base, "FROM")], [SignAt(Punct, base + 5, '(')], Lex('(', rest, dl, base + 6));
  }

  lemma ParenStep(prev: char, rest: string, dl: Dialect, base: nat)
    ensures Lex(prev, "(" + rest, dl, base) == [SignAt(Punct, base, '(')] + Lex('(', rest, dl, base + 1)
  {
    hide Lex, Munch;
    PunctStep(prev, '(', rest, dl, base);
  }

  lemma SelectLexes(prev: char, rest: string, dl: Dialect, base: nat)
    ensures Lex(prev, "SELECT" + (" " + ("*" + (" " + rest))), dl, base)
         == [WordAt(base, "SELECT"), SignAt(Op, base + 7, '*')] + Lex(' ', rest, dl, base + 9)
  {
    PlainWords();
    hide *;
    WordStep(prev, "SELECT", " " + ("*" + (" " + rest)), dl, base);
    SpaceStep('T', "*" + (" " + rest), dl, base + 6);
    StarStep(' ', " " + rest, dl, base + 7);
    SpaceStep('*', rest, dl, base + 8);
    Assoc([WordAt(base, "SELECT")], [SignAt(Op, base + 7, '*')], Lex(' ', rest, dl, base + 9));
  }

  lemma HeadLexes(prev: char, rest: string, dl: Dialect, base: nat)
    ensures Lex(prev, HEAD + rest, dl, base) == HeadToks(base) + Lex('(', rest, dl, base + 15)
  {
    HeadParts(rest, base);
    hide *;
    var from := "FROM" + (" " + ("(" + rest));
    SelectLexes(prev, from, dl, base);
    FromLexes(' ', rest, dl, base + 9);
    Assoc([WordAt(base, "SELECT"), SignAt(Op, base + 7, '*')],
      [WordAt(base + 9, "FROM"), SignAt(Punct, base + 14, '(')], Lex('(', rest, dl, base + 15));
  }

  lemma HeadParts(rest: string, base: nat)
    ensures HEAD + rest == "SELECT" + (" " + ("*" + (" " + ("FROM" + (" " + ("(" + rest))))))
    ensures HeadToks(base)
         == [WordAt(base, "SELECT"), SignAt(Op, base + 7, '*')]
            + [WordAt(base + 9, "FROM"), SignAt(Punct, base + 14, '(')]
  {
    hide WordAt, SignAt;
  }

  lemma {:induction false} OpensLex(prev: char, d: nat, rest: string, dl: Dialect, base: nat)
    ensures Lex(prev, Opens(d) + rest, dl, base)
         == OpenToks(d, base) + Lex(if d == 0 then prev else '(', rest, dl, base + 15 * d)
    decreases d
  {
    hide Lex, HeadToks, HEAD;
    if d == 0 {
      assert Opens(0) + rest == rest;
    } else {
      var more := Opens(d - 1) + rest;
      assert Opens(d) + rest == HEAD + more;
      HeadLexes(prev, more, dl, base);
      OpensLex('(', d - 1, rest, dl, base + 15);
      Assoc(HeadToks(base), OpenToks(d - 1, base + 15), Lex('(', rest, dl, base + 15 * d));
    }
  }

  lemma {:induction false} ClosesLex(prev: char, d: nat, dl: Dialect, base: nat)
    ensures Lex(prev, Closes(d), dl, base) == CloseToks(d, base)
    decreases d
  {
    hide Lex;
    if d == 0 {
      LexStep(prev, Closes(0), dl, base);
    } else {
      var more := Closes(d - 1);
      assert Closes(d) == [')'] + (" " + ("x" + more));
      PunctStep(prev, ')', " " + ("x" + more), dl, base);
      SpaceStep(')', "x" + more, dl, base + 1);
      WordStep(' ', "x", more, dl, base + 2);
      ClosesLex('x', d - 1, dl, base + 3);
    }
  }

  /** The tokens of the text, in every dialect. */
  lemma TextLexes(d: nat, dl: Dialect)
    ensures Tokens(TextOf(d), dl) == Toks(d)
  {
    hide Lex, Opens, OpenToks, Closes, CloseToks;
    var last, rest := "a" + Closes(d), "SELECT a" + Closes(d);
    assert rest == "SELECT" + (" " + last);
    OpensLex(' ', d, rest, dl, 0);
    var prev := if d == 0 then ' ' else '(';
    WordStep(prev, "SELECT", " " + last, dl, 15 * d);
    SpaceStep('T', last, dl, 15 * d + 6);
    ClosesBreak(d);
    WordStep(' ', "a", Closes(d), dl, 15 * d + 7);
    ClosesLex('a', d, dl, 15 * d + 8);
  }

  lemma ClosesBreak(d: nat)
    ensures EndsName(Closes(d))
  {
  }

  // ---------- their scopes ----------

  /** What kind of token stands at place `i`, and its text. */
  function KindAt(d: nat, i: nat): (Kind, string) {
    if i < 4 * d + 2 then
      if i % 4 == 0 then (Word, "SELECT")
      else if i == 4 * d + 1 then (Word, "a")
      else if i % 4 == 1 then (Op, "*")
      else if i % 4 == 2 then (Word, "FROM")
      else (Punct, "(")
    else if i % 2 == 0 then (Punct, ")")
    else (Word, "x")
  }

  lemma {:induction false} OpenKinds(d: nat, base: nat, i: nat)
    requires i < 4 * d
    ensures |OpenToks(d, base)| == 4 * d
    ensures var t := OpenToks(d, base)[i]; (t.kind, t.text) == KindAt(d, i)
    decreases d
  {
    if i < 4 {
      if d > 1 {
        OpenKinds(d - 1, base + 15, 0);
      }
    } else {
      OpenKinds(d - 1, base + 15, i - 4);
      assert OpenToks(d, base)[i] == OpenToks(d - 1, base + 15)[i - 4];
    }
  }

  lemma {:induction false} CloseKinds(d: nat, base: nat, i: nat)
    requires i < 2 * d
    ensures |CloseToks(d, base)| == 2 * d
    ensures var t := CloseToks(d, base)[i]; (t.kind, t.text) == if i % 2 == 0 then (Punct, ")") else (Word, "x")
    decreases d
  {
    if i < 2 {
      if d > 1 {
        CloseKinds(d - 1, base + 3, 0);
      }
    } else {
      CloseKinds(d - 1, base + 3, i - 2);
      assert CloseToks(d, base)[i] == CloseToks(d - 1, base + 3)[i - 2];
    }
  }

  lemma ToksAt(d: nat, i: nat)
    requires d > 0 && i < 6 * d + 2
    ensures |Toks(d)| == 6 * d + 2 && (Toks(d)[i].kind, Toks(d)[i].text) == KindAt(d, i)
  {
    hide OpenToks, CloseToks;
    OpenKinds(d, 0, if i < 4 * d then i else 0);
    CloseKinds(d, 15 * d + 8, if i >= 4 * d + 2 then i - (4 * d + 2) else 0);
  }

  /** How many parentheses are open and how many closed after `i` tokens. */
  function Opened(d: nat, i: nat): nat {
    if i < 4 * d then i / 4 else d
  }

  function Closed(d: nat, i: nat): nat {
    if i <= 4 * d + 2 then 0 else (i - 4 * d - 1) / 2
  }

  /** The body token `j` stands in. */
  function Level(d: nat, j: nat): int {
    if j < 4 * d + 2 then j / 4 else d - 1 - (j - 4 * d - 2) / 2
  }

  /** The scopes after `i` tokens: body `g` opens at token 4g - 1, and the innermost closes first. */
  function Shape(d: nat, i: nat): Tree
    requires d > 0 && i <= 6 * d + 2
  {
    var begun, ended := Opened(d, i), Closed(d, i);
    Tree(
      seq(begun + 1, g => Group(g - 1, if g == 0 then -1 else 4 * g - 1,
                                 if g > 0 && g > d - ended then 4 * d + 2 + 2 * (d - g) else 6 * d + 2)),
      seq(i, j requires j >= 0 => Level(d, j)),
      seq(i, j => if j % 4 == 3 && j < 4 * d then j / 4 + 1 else -1),
      seq(if begun > ended then begun - ended + 1 else 1, g => g))
  }

  lemma TreeUnfolds(toks: seq<Token>, i: nat)
    requires i < |toks|
    ensures var t := TreeAt(toks, i);
            && t.stack != [] && (forall k :: 0 <= k < |t.stack| ==> 0 <= t.stack[k] < |t.groups|)
            && TreeAt(toks, i + 1) == Step(t, toks[i], |toks|)
    ensures TreeAt(toks, 0) == Start(|toks|)
  {
    hide Step, ValidGroups, ValidNesting, ValidGroupOf, UnclosedOnStack;
  }

  lemma ShapeStarts(d: nat)
    requires d > 0
    ensures Shape(d, 0) == Start(6 * d + 2)
  {
  }

  lemma {:induction false} TreeIsShape(d: nat, i: nat)
    requires d > 0 && i <= 6 * d + 2 && |Toks(d)| == 6 * d + 2
    ensures TreeAt(Toks(d), i) == Shape(d, i)
  {
    hide TreeAt, Shape, Step, Toks, Valid, Start;
    var toks := Toks(d);
    if i == 0 {
      TreeUnfolds(toks, 0);
      ShapeStarts(d);
    } else {
      TreeUnfolds(toks, i - 1);
      TreeIsShape(d, i - 1);
      StepShape(d, i - 1);
    }
  }

  lemma StepShape(d: nat, i: nat)
    requires d > 0 && i < 6 * d + 2 && |Toks(d)| == 6 * d + 2
    ensures var t := Shape(d, i);
            && t.stack != [] && (forall k :: 0 <= k < |t.stack| ==> 0 <= t.stack[k] < |t.groups|)
            && Step(t, Toks(d)[i], 6 * d + 2) == Shape(d, i + 1)
  {
    ToksAt(d, i);
    hide Toks;
    if i < 4 * d && i % 4 == 3 {
      StepOpens(d, i, Toks(d)[i]);
    } else if i >= 4 * d + 2 && i % 2 == 0 {
      StepCloses(d, i, Toks(d)[i]);
    } else {
      StepStays(d, i, Toks(d)[i]);
    }
  }

  lemma StepOpens(d: nat, i: nat, tok: Token)
    requires d > 0 && i < 4 * d && i % 4 == 3 && IsOpen(tok)
    ensures var t := Shape(d, i);
            && t.stack != [] && (forall k :: 0 <= k < |t.stack| ==> 0 <= t.stack[k] < |t.groups|)
            && Step(t, tok, 6 * d + 2) == Shape(d, i + 1)
  {
    var t, u, m := Shape(d, i), Shape(d, i + 1), i / 4;
    assert Opened(d, i) == m && Opened(d, i + 1) == m + 1 && i == 4 * m + 3;
    assert u.groups == t.groups + [Group(m, i, 6 * d + 2)];
    assert u.stack == t.stack + [m + 1];
    assert u.groupOf == t.groupOf + [m] && u.opens == t.opens + [m + 1];
  }

  lemma StepCloses(d: nat, i: nat, tok: Token)
    requires d > 0 && 4 * d + 2 <= i < 6 * d + 2 && i % 2 == 0 && IsClose(tok)
    ensures var t := Shape(d, i);
            && t.stack != [] && (forall k :: 0 <= k < |t.stack| ==> 0 <= t.stack[k] < |t.groups|)
            && Step(t, tok, 6 * d + 2) == Shape(d, i + 1)
  {
    CountsClose(d, i);
    CloseGroups(d, i);
    hide Opened, Closed, Level;
    var t, u, g := Shape(d, i), Shape(d, i + 1), d - Closed(d, i);
    assert Top(t) == g;
    assert u.stack == t.stack[..|t.stack| - 1];
    assert u.groupOf == t.groupOf + [g - 1] && u.opens == t.opens + [-1];
  }

  lemma CountsClose(d: nat, i: nat)
    requires d > 0 && 4 * d + 2 <= i < 6 * d + 2 && i % 2 == 0
    ensures Opened(d, i) == Opened(d, i + 1) == d && Closed(d, i + 1) == Closed(d, i) + 1 <= d
    ensures i == 4 * d + 2 + 2 * Closed(d, i) && Level(d, i) == d - Closed(d, i) - 1
  {
  }

  lemma CloseGroups(d: nat, i: nat)
    requires d > 0 && 4 * d + 2 <= i < 6 * d + 2 && i % 2 == 0
    ensures var t, g := Shape(d, i), d - Closed(d, i);
            0 < g < |t.groups| && Shape(d, i + 1).groups == t.groups[g := t.groups[g].(close := i)]
  {
    CountsClose(d, i);
    hide Opened, Closed, Level;
  }

  lemma StepStays(d: nat, i: nat, tok: Token)
    requires d > 0 && i < 6 * d + 2 && !IsOpen(tok) && !IsClose(tok)
    requires !(i < 4 * d && i % 4 == 3) && !(i >= 4 * d + 2 && i % 2 == 0)
    ensures var t := Shape(d, i);
            && t.stack != [] && (forall k :: 0 <= k < |t.stack| ==> 0 <= t.stack[k] < |t.groups|)
            && Step(t, tok, 6 * d + 2) == Shape(d, i + 1)
  {
    CountsStay(d, i);
    hide Opened, Closed, Level;
    var t, u := Shape(d, i), Shape(d, i + 1);
    assert Top(t) == Level(d, i);
    assert u.groups == t.groups && u.stack == t.stack;
    assert u.groupOf == t.groupOf + [Level(d, i)] && u.opens == t.opens + [-1];
  }

  lemma CountsStay(d: nat, i: nat)
    requires d > 0 && i < 6 * d + 2
    requires !(i < 4 * d && i % 4 == 3) && !(i >= 4 * d + 2 && i % 2 == 0)
    ensures Opened(d, i) == Opened(d, i + 1) && Closed(d, i) == Closed(d, i + 1)
    ensures Level(d, i) == Opened(d, i) - Closed(d, i) >= 0
  {
    if i < 4 * d {
      assert i == 4 * (i / 4) + i % 4 && (i + 1) / 4 == i / 4;
    } else if i >= 4 * d + 2 {
      var c := (i - 4 * d - 3) / 2;
      assert i == 4 * d + 3 + 2 * c;
    }
  }

  /** The query of that text: in body `g`, the reference `x` to body `g + 1`. */
  function Nested(d: nat): (q: Query)
    requires d > 0
    ensures |q.refs| == d
  {
    var refs := seq(d, g requires 0 <= g < d => RelationRef("x", [], g, g + 1, false, []));
    Query(Toks(d), Shape(d, 6 * d + 2), [], refs, Catalog([], [], ""), {})
  }

  lemma NestedIsValid(d: nat, dl: Dialect)
    requires d > 0
    ensures ValidQuery(Nested(d)) && |Nested(d).tree.groups| == d + 1 && |Nested(d).toks| == 6 * d + 2
    ensures Nested(d).toks == Tokens(TextOf(d), dl)
  {
    hide TreeAt, Toks, Tokens;
    ToksAt(d, 0);
    TreeIsShape(d, 6 * d + 2);
    TextLexes(d, dl);
  }

  lemma BodyTokens(d: nat, g: int)
    requires 0 < g <= d && ValidQuery(Nested(d)) && IsGroup(Nested(d), g) && |Nested(d).toks| == 6 * d + 2
    ensures var q, end := Nested(d), 4 * d + 2 + 2 * (d - g);
            && StartOf(q, g) == 4 * g && EndOf(q, g) == end && 4 * g + 2 <= end <= |q.toks|
            && |q.tree.groupOf| == |q.toks| && q.tree.groupOf[4 * g] == g && IsWordAt(q, 4 * g, "SELECT")
            && (q.toks[4 * g + 1].kind, q.toks[4 * g + 1].text) == (if g < d then (Op, "*") else (Word, "a"))
            && (if g < d then IsWordAt(q, 4 * g + 2, "FROM") else 4 * g + 2 == end)
  {
    hide TreeAt, ScopesOf, Toks;
    ToksAt(d, 4 * g);
    ToksAt(d, 4 * g + 1);
    if g < d {
      ToksAt(d, 4 * g + 2);
    }
  }

  /** The token between SELECT and FROM is no modifier, stop word, comma or parenthesis. */
  lemma ItemToken(q: Query, k: int)
    requires ValidQuery(q) && 0 <= k < |q.toks|
    requires q.toks[k].kind.Op? || (q.toks[k].kind.Word? && q.toks[k].text == "a")
    ensures PastModifier(q, k) == k && !IsOneOf(q, k, STOP_WORDS) && !IsPunctAt(q, k, ',') && !IsPunctAt(q, k, '(')
  {
    hide ValidQuery, TreeAt, ScopesOf, CloseOf;
    forall w | |w| >= 2 ensures !IsWordAt(q, k, w) {
    }
    assert forall m :: 0 <= m < |STOP_WORDS| ==> |STOP_WORDS[m]| >= 2;
  }

  lemma BodyItems(d: nat, g: int)
    requires 0 < g <= d && ValidQuery(Nested(d)) && IsGroup(Nested(d), g) && |Nested(d).toks| == 6 * d + 2
    ensures ItemsOf(Nested(d), g) == [[4 * g + 1]]
  {
    hide *;
    var q, k, end := Nested(d), 4 * g, 4 * d + 2 + 2 * (d - g);
    BodyTokens(d, g);
    ItemToken(q, k + 1);
    ListAt(q, g, k, end);
    OneItem(q, k + 1, end);
  }

  /** A list of one token, up to its FROM or the end of its body. */
  lemma OneItem(q: Query, k: int, end: int)
    requires ValidQuery(q) && 0 <= k < end <= |q.toks|
    requires !IsOneOf(q, k, STOP_WORDS) && !IsPunctAt(q, k, ',') && !IsPunctAt(q, k, '(')
    requires k + 1 == end || IsWordAt(q, k + 1, "FROM")
    ensures ItemsFrom(q, k, end, []) == [[k]]
  {
    FromStops(q, k + 1);
    hide *;
    ItemsStep(q, k, end, []);
    ItemsStep(q, k + 1, end, [k]);
    assert [] + [k] == [k];
  }

  lemma FromStops(q: Query, k: int)
    ensures IsWordAt(q, k, "FROM") ==> IsOneOf(q, k, STOP_WORDS)
  {
    assert STOP_WORDS[0] == "FROM";
  }

  /** A select list that starts at `k` and has no modifier. */
  lemma ListAt(q: Query, g: int, k: int, end: int)
    requires ValidQuery(q) && IsGroup(q, g) && |q.tree.groupOf| == |q.toks|
    requires k == StartOf(q, g) && end == EndOf(q, g) && k + 1 < end
    requires q.tree.groupOf[k] == g && IsWordAt(q, k, "SELECT") && PastModifier(q, k + 1) == k + 1
    ensures ItemsOf(q, g) == ItemsFrom(q, k + 1, end, [])
  {
    hide ValidQuery, StartOf, EndOf, PastModifier, IsWordAt, ItemsFrom;
  }

  lemma BodyShape(d: nat, g: int)
    requires 0 < g <= d && ValidQuery(Nested(d)) && IsGroup(Nested(d), g) && |Nested(d).toks| == 6 * d + 2
    ensures ShapeOf(Nested(d), [4 * g + 1]) == if g < d then AllColumns else Bare("a")
  {
    hide ValidQuery, Nested, TreeAt, ScopesOf;
    BodyTokens(d, g);
    var q, item := Nested(d), [4 * g + 1];
    assert forall i :: 0 <= i < 1 ==> item[i] == 4 * g + 1;
    if g == d {
      assert Alternates(q, item);
    }
  }

  lemma {:induction false} BodyRefs(d: nat, g: int, i: nat)
    requires 0 < g <= d && i <= d
    ensures RefsIn(Nested(d), g, i) == if i <= g < d then [g] else []
    decreases d - i
  {
    if i < d {
      BodyRefs(d, g, i + 1);
    }
  }

  // ---------- its columns ----------

  const A := ColInfo("a", "", None)

  /** Body `g` has its column exactly when the limit reaches the innermost body. */
  lemma {:induction false} BodyColumns(d: nat, g: int, depth: nat, bound: nat)
    requires 0 < g <= d && ValidQuery(Nested(d)) && IsGroup(Nested(d), g) && |Nested(d).toks| == 6 * d + 2
    ensures SelectCols(Nested(d), g, depth, bound) == if depth + 2 * (d - g) <= bound then [A] else []
    decreases d - g
  {
    var q := Nested(d);
    BodyItems(d, g);
    BodyShape(d, g);
    BodyRefs(d, g, 0);
    var item := [4 * g + 1];
    hide ValidQuery, Nested, ItemsOf, ShapeOf, RefsIn, RefCols, SelectCols, ItemsCols, ItemCols;
    BodyUnfolds(q, g, depth, bound);
    if depth <= bound {
      ItemsColsOne(q, item, g, depth, bound);
      ItemOfBody(d, g, depth, bound);
      if g < d {
        NestedIsValid(d, DialectFor(POSTGRESQL));
        NextBody(d, g, depth + 1, bound);
        if depth + 1 <= bound {
          BodyColumns(d, g + 1, depth + 2, bound);
        }
      }
    }
  }

  lemma ItemOfBody(d: nat, g: int, depth: nat, bound: nat)
    requires 0 < g <= d && ValidQuery(Nested(d)) && IsGroup(Nested(d), g) && depth <= bound
    requires ShapeOf(Nested(d), [4 * g + 1]) == if g < d then AllColumns else Bare("a")
    requires RefsIn(Nested(d), g, 0) == if g < d then [g] else []
    ensures ItemCols(Nested(d), [4 * g + 1], g, depth, bound)
            == if g < d then RefCols(Nested(d), g, depth + 1, bound) else [A]
  {
    hide ValidQuery, Nested, ShapeOf, RefsIn, RefCols;
    var q := Nested(d);
    if g < d {
      assert [g][1..] == [];
      assert RefsCols(q, [], depth + 1, bound) == [];
      assert RefsCols(q, [g], depth + 1, bound) == RefCols(q, g, depth + 1, bound);
    } else {
      assert Resolve(q, [], "a", depth + 1, bound) == A;
    }
  }

  lemma BodyUnfolds(q: Query, g: int, depth: nat, bound: nat)
    requires ValidQuery(q) && IsGroup(q, g)
    ensures SelectCols(q, g, depth, bound) == if depth > bound then [] else ItemsCols(q, ItemsOf(q, g), g, depth, bound)
  {
    hide ValidQuery, ItemsOf, ItemsCols;
  }

  /** Reference `g` is body `g + 1`. */
  lemma NextBody(d: nat, g: int, depth: nat, bound: nat)
    requires 0 <= g < d && ValidQuery(Nested(d)) && IsGroup(Nested(d), g + 1)
    ensures RefCols(Nested(d), g, depth, bound)
            == if depth > bound then [] else SelectCols(Nested(d), g + 1, depth + 1, bound)
  {
    hide ValidQuery, TreeAt, ScopesOf, SelectCols, Toks, Shape;
  }

  /** So three is the most: of four nested bodies the source's limit sees no column, and a larger one sees it. */
  lemma FourBodiesExceedTheLimit(dl: Dialect)
    ensures ValidQuery(Nested(4)) && |Nested(4).refs| == 4 && Nested(4).toks == Tokens(TextOf(4), dl)
    ensures RefCols(Nested(4), 0, 0, MAX_DEPTH) == []
    ensures RefCols(Nested(4), 0, 0, 8) == [A]
  {
    hide ValidQuery, Nested, RefCols, SelectCols, TreeAt, ScopesOf, RefsInside, Tokens, TextOf;
    NestedIsValid(4, dl);
    assert IsGroup(Nested(4), 1);
    NextBody(4, 0, 0, MAX_DEPTH);
    NextBody(4, 0, 0, 8);
    BodyColumns(4, 1, 1, MAX_DEPTH);
    BodyColumns(4, 1, 1, 8);
  }
}
