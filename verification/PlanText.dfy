/** Reading the indented text of a row tree back. */
module PlanText {
  import opened Lexer
  import opened Wrappers
  import opened Plans
  import opened IndentTree
  import opened RowTree

  /** How many of the first `n` bytes of a text are spaces, up to the first that is not. */
  function Blanks(s: string, n: nat): (k: nat)
    requires n <= |s|
    ensures k <= n
    ensures forall i :: 0 <= i < k ==> s[i] == ' '
    ensures k < n ==> s[k] != ' '
  {
    if n == 0 || s[0] != ' ' then 0 else 1 + Blanks(s[1..], n - 1)
  }

  /** One line of text: its leading spaces are its depth. */
  function LineOf(s: string, n: nat): Line
    requires n <= |s|
  {
    var k := Blanks(s, n);
    Line(k, Info(s[k..n], None))
  }

  /** The lines of a text. */
  function ReadLines(s: string): seq<Line>
    decreases |s|
  {
    if s == "" then []
    else
      var n := FindChar(s, '\n', 0);
      [LineOf(s, n)] + if n < |s| then ReadLines(s[n + 1..]) else []
  }

  /** A detail that stands on one line and does not deepen it. */
  predicate Plain(detail: string) {
    '\n' !in detail && (detail != "" ==> detail[0] != ' ')
  }

  predicate AllPlain(infos: seq<Info>) {
    forall i :: 0 <= i < |infos| ==> Plain(infos[i].operation)
  }

  predicate Untimed(infos: seq<Info>) {
    forall i :: 0 <= i < |infos| ==> infos[i].total.None?
  }

  lemma FirstLine(d: nat, op: string, rest: string)
    ensures var s := Spaces(d) + op + "\n" + rest;
            var n := FindChar(s, '\n', 0);
            && n < |s|
            && (Plain(op) ==> LineOf(s, n) == Line(d, Info(op, None)) && s[n + 1..] == rest)
            && (!Plain(op) ==> LineOf(s, n).info.operation != op)
  {
    var s := Spaces(d) + op + "\n" + rest;
    var n := FindChar(s, '\n', 0);
    assert forall i :: 0 <= i < d ==> s[i] == ' ';
    assert forall i :: 0 <= i < |op| ==> s[d + i] == op[i];
    assert s[d + |op|] == '\n';
    var k := Blanks(s, n);
    assert d <= n && k >= d;
    if '\n' in op {
      var m :| 0 <= m < |op| && op[m] == '\n';
      assert n <= d + m;
      assert |s[k..n]| < |op|;
    } else {
      assert n == d + |op|;
      if op != "" && op[0] == ' ' {
        assert k > d;
        assert |s[k..n]| < |op|;
      } else {
        assert k == d;
        assert s[d..n] == op;
      }
    }
  }

  lemma InfosCons(x: Line, rest: seq<Line>)
    ensures Infos([x] + rest) == [x.info] + Infos(rest)
  {
  }

  /** The first line of an indented text reads back as it was, or its label does not. */
  lemma ReadStep(x: Line, rest: seq<Line>)
    requires x.info.total.None?
    ensures var read := ReadLines(LinesText([x] + rest));
            && (Plain(x.info.operation) ==> read == [x] + ReadLines(LinesText(rest)))
            && (!Plain(x.info.operation) ==> read != [] && read[0].info != x.info)
  {
    hide Plain, LineOf, Spaces;
    assert ([x] + rest)[1..] == rest;
    FirstLine(x.depth, x.info.operation, LinesText(rest));
  }

  /**
   The lines of an indented text are those it was made of exactly when each label is plain; otherwise the labels
   differ.
   */
  lemma {:induction false} ReadsExactly(lines: seq<Line>)
    requires Untimed(Infos(lines))
    ensures AllPlain(Infos(lines)) ==> ReadLines(LinesText(lines)) == lines
    ensures Infos(ReadLines(LinesText(lines))) == Infos(lines) ==> AllPlain(Infos(lines))
    decreases |lines|
  {
    if lines != [] {
      hide Plain, LinesText, ReadLines, Infos, AllPlain, Untimed;
      var x, rest := lines[0], lines[1..];
      assert lines == [x] + rest;
      InfosCons(x, rest);
      UntimedCons(x.info, Infos(rest));
      PlainCons(x.info, Infos(rest));
      ReadStep(x, rest);
      ReadsExactly(rest);
      var read := ReadLines(LinesText(lines));
      if Plain(x.info.operation) {
        InfosCons(x, ReadLines(LinesText(rest)));
        SameTail(x.info, Infos(ReadLines(LinesText(rest))), Infos(rest));
      } else {
        InfosCons(read[0], read[1..]);
        assert read == [read[0]] + read[1..];
        assert Infos(read)[0] != Infos(lines)[0];
      }
    }
  }

  lemma SameTail(x: Info, a: seq<Info>, b: seq<Info>)
    ensures [x] + a == [x] + b ==> a == b
  {
    assert a == ([x] + a)[1..] && b == ([x] + b)[1..];
  }

  lemma UntimedCons(x: Info, rest: seq<Info>)
    requires Untimed([x] + rest)
    ensures x.total.None? && Untimed(rest)
  {
    var all := [x] + rest;
    assert all[0] == x && forall i :: 0 <= i < |rest| ==> rest[i] == all[i + 1];
  }

  lemma PlainCons(x: Info, rest: seq<Info>)
    ensures AllPlain([x] + rest) <==> Plain(x.operation) && AllPlain(rest)
  {
    hide Plain;
    var all := [x] + rest;
    assert forall i :: 0 <= i < |rest| ==> rest[i] == all[i + 1];
    if Plain(x.operation) && AllPlain(rest) {
      assert forall i :: 0 < i < |all| ==> all[i] == rest[i - 1];
    }
    if AllPlain(all) {
      assert Plain(all[0].operation);
    }
  }

  // ---------- the text of a row tree ----------

  predicate PlainRows(rows: seq<Row>) {
    forall i :: 0 <= i < |rows| ==> Plain(rows[i].detail)
  }

  /** The lines of the tree are the rows' details, each once. */
  lemma LinesAreRows(rows: seq<Row>)
    requires WellFormed(rows)
    ensures var lines := Print(Kids(rows, -1, 0), 0, 2);
            Untimed(Infos(lines)) && (AllPlain(Infos(lines)) <==> PlainRows(rows))
  {
    hide WellFormed, Kids, Plain;
    var f, ks := Kids(rows, -1, 0), KidRows(rows, -1, 0);
    TreeHoldsRows(rows, -1, 0);
    PrintThenBuild(f, 0, 2);
    PreorderIsInput(Print(f, 0, 2));
    var infos := Infos(Print(f, 0, 2));
    assert infos == Details(rows, ks);
    if AllPlain(infos) {
      forall i | 0 <= i < |rows| ensures Plain(rows[i].detail) {
        EveryRowOnce(rows, i);
        assert i in multiset(ks);
        var m :| 0 <= m < |ks| && ks[m] == i;
        assert infos[m].operation == rows[i].detail;
      }
    }
  }

  /**
   Its raw text, read by lines and indentation, is the tree again exactly when no detail holds a line break or starts
   with a space.
   */
  lemma TextReadsBack(rows: seq<Row>)
    requires WellFormed(rows)
    ensures var f := Kids(rows, -1, 0);
            && (Forest(ReadLines(ForestText(f, 0))) == f <==> PlainRows(rows))
            && (ReadLines(ForestText(f, 0)) == Print(f, 0, 2) <==> PlainRows(rows))
  {
    hide WellFormed, Kids, PlainRows, AllPlain, ReadLines, LinesText;
    var f := Kids(rows, -1, 0);
    TreeHoldsRows(rows, -1, 0);
    PrintThenBuild(f, 0, 2);
    LinesAreRows(rows);
    ReadsExactly(Print(f, 0, 2));
    PreorderIsInput(Print(f, 0, 2));
    PreorderIsInput(ReadLines(ForestText(f, 0)));
  }

  /** A row whose detail starts with a space. */
  lemma LeadingSpaceIsLost()
    ensures var rows := [Row(1, 0, " a")];
            WellFormed(rows) && Forest(ReadLines(ForestText(Kids(rows, -1, 0), 0))) != Kids(rows, -1, 0)
  {
    var rows := [Row(1, 0, " a")];
    assert HangsUnder(rows, 0, -1);
    assert !Plain(rows[0].detail);
    TextReadsBack(rows);
  }
}
