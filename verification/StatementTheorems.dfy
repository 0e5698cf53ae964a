/** A statement cut out of its text reads the same alone, and the two splitters agree. */
module StatementTheorems {
  import opened Text
  import opened Lexer
  import opened LexTheorems
  import opened Statements
  import opened Tokenizer

  // ---------- tokens of a slice ----------

  lemma BoundaryAtToken(s: string, d: Dialect, i: nat)
    requires i < |Tokens(s, d)|
    ensures Tokens(s, d)[i].end <= |s|
    ensures Boundary(' ', s, d, Tokens(s, d)[i].begin)
    ensures Boundary(' ', s, d, Tokens(s, d)[i].end)
  {
    hide Munch, Lex, Boundary;
    var ts := Tokens(s, d);
    LexOrdered(' ', s, d, 0);
    BoundaryIff(' ', s, d, 0, ts[i].begin);
    BoundaryIff(' ', s, d, 0, ts[i].end);
  }

  /** The part of an ordered list between two of its token ends is found by position. */
  lemma OrderedParts(ts: seq<Token>, size: nat, x: seq<Token>, y: seq<Token>, z: seq<Token>, first: nat, last: nat)
    requires Ordered(ts, 0, size) && ts == x + (y + z) && first < last <= |ts|
    requires Ordered(x, 0, ts[first].begin)
    requires Ordered(y, ts[first].begin, ts[last - 1].end)
    requires Ordered(z, ts[last - 1].end, size)
    ensures |x| == first && y == ts[first..last]
  {
    var b, e := ts[first].begin, ts[last - 1].end;
    var m, n := |x|, |x| + |y|;
    assert forall i :: 0 <= i < m ==> ts[i] == x[i];
    assert forall i :: m <= i < n ==> ts[i] == y[i - m];
    assert forall i :: n <= i < |ts| ==> ts[i] == z[i - n];
    assert forall i :: 0 <= i < m ==> ts[i].end <= b;
    assert m < |ts| ==> b <= ts[m].begin;
    assert forall i :: 0 <= i < n ==> ts[i].end <= e;
    assert forall i :: n <= i < |ts| ==> e <= ts[i].begin;
    assert last < |ts| ==> e <= ts[last].begin;
  }

  /** The tokens from the `first` to the `last - 1`st are those of the slice they span, wherever it stands. */
  lemma SliceTokens(s: string, d: Dialect, first: nat, last: nat)
    requires first < last <= |Tokens(s, d)|
    ensures var ts := Tokens(s, d);
            var b, e := ts[first].begin, ts[last - 1].end;
            b <= e <= |s| && Lex(Before(' ', s, b), s[b..e], d, b) == ts[first..last]
  {
    hide Munch, Lex, Boundary;
    var ts := Tokens(s, d);
    var b, e := ts[first].begin, ts[last - 1].end;
    LexOrdered(' ', s, d, 0);
    BoundaryAtToken(s, d, first);
    BoundaryAtToken(s, d, last - 1);
    assert b <= e;
    Split(' ', s, d, 0, e);
    CutBoundary(s, d, b, e);
    Split(' ', s[..e], d, 0, b);
    assert s[..e][..b] == s[..b] && s[..e][b..] == s[b..e];
    var x := Lex(' ', s[..b], d, 0);
    var y := Lex(Before(' ', s, b), s[b..e], d, b);
    var z := Lex(Before(' ', s, e), s[e..], d, e);
    LexOrdered(' ', s[..b], d, 0);
    LexOrdered(Before(' ', s, b), s[b..e], d, b);
    LexOrdered(Before(' ', s, e), s[e..], d, e);
    Assoc(x, y, z);
    OrderedParts(ts, |s|, x, y, z, first, last);
  }

  /** A boundary of a text is a boundary of every cut that holds it. */
  lemma CutBoundary(s: string, d: Dialect, b: nat, e: nat)
    requires b <= e && Boundary(' ', s, d, b) && Boundary(' ', s, d, e)
    ensures Boundary(' ', s[..e], d, b)
  {
    hide Munch, Lex, Boundary;
    BoundaryIff(' ', s, d, 0, b);
    Split(' ', s, d, 0, e);
    BoundaryIff(' ', s[..e], d, 0, b);
    var x, z := Lex(' ', s[..e], d, 0), Lex(Before(' ', s, e), s[e..], d, e);
    assert forall t :: t in x ==> t in x + z;
  }

  // ---------- what stands before a statement ----------

  /** A closed block comment ends in a slash. */
  lemma CommentEnds(prev: char, r: string, d: Dialect)
    requires r != [] && !IsSpace(r[0]) && Munch(prev, r, d).kind.Comment?
    ensures var t := Munch(prev, r, d);
            t.closed && !t.lineComment ==> r[t.end - 1] == '/'
  {
    var t := Munch(prev, r, d);
    if t.closed && !t.lineComment {
      var e := FindText(r, "*/", 2).value;
      assert At(r, "*/", e);
      assert r[e..e + 2][1] == '/';
    }
  }

  /** The byte before a token that a semicolon, a comment or whitespace precedes fools no look-behind. */
  lemma NeutralBefore(s: string, d: Dialect, k: nat)
    requires k < |Tokens(s, d)|
    requires k == 0 || IsSemi(Tokens(s, d)[k - 1]) || Tokens(s, d)[k - 1].kind.Comment?
    ensures Tokens(s, d)[k].begin < |s| && Neutral(Before(' ', s, Tokens(s, d)[k].begin))
  {
    hide Munch, Lex;
    var ts := Tokens(s, d);
    var b := ts[k].begin;
    LexOrdered(' ', s, d, 0);
    LexMunches(' ', s, d, 0, ts[k]);
    if 0 < b {
      LexCovers(' ', s, d, 0, b - 1);
      if !IsSpace(s[b - 1]) {
        var i :| 0 <= i < |ts| && ts[i].begin <= b - 1 < ts[i].end;
        assert i == k - 1 && ts[i].end == b;
        var p := ts[i].begin;
        LexMunches(' ', s, d, 0, ts[i]);
        var t := Munch(Before(' ', s, p), s[p..], d);
        assert s[p..][b - p - 1] == s[b - 1];
        if IsSemi(ts[i]) {
          assert s[b - 1] == ';';
        } else {
          CommentEnds(Before(' ', s, p), s[p..], d);
          assert s[p..][b - p] == s[b];
        }
      }
    }
  }

  // ---------- cut and re-split ----------

  lemma {:induction false} WholeFrom(ts: seq<Token>, k: nat, first: nat, last: nat)
    requires first < last <= k <= |ts| && NoSemi(ts, 0, |ts|) && Substantive(ts[|ts| - 1])
    requires k == |ts| ==> last == k
    ensures StatementsFrom(ts, k, 0, Seen(first, last)) == [Statement(0, first, |ts|, |ts|)]
    decreases |ts| - k
  {
    if k < |ts| {
      WholeFrom(ts, k + 1, first, if ts[k].kind.Comment? then last else k + 1);
    }
  }

  /** A list without semicolons, with substantive ends, is one statement. */
  lemma OneStatement(ts: seq<Token>)
    requires ts != [] && NoSemi(ts, 0, |ts|) && Substantive(ts[0]) && Substantive(ts[|ts| - 1])
    ensures AllStatements(ts) == [Statement(0, 0, |ts|, |ts|)]
  {
    WholeFrom(ts, 1, 0, 1);
    assert Extend(Empty, 0) == Seen(0, 1);
  }

  lemma ShiftKeepsKinds(ts: seq<Token>, us: seq<Token>, n: nat)
    requires ts == ShiftAll(us, n) && ts != []
    requires NoSemi(ts, 0, |ts|) && Substantive(ts[0]) && Substantive(ts[|ts| - 1])
    ensures |us| == |ts| && NoSemi(us, 0, |us|) && Substantive(us[0]) && Substantive(us[|us| - 1])
    ensures us[0].begin + n == ts[0].begin && us[|us| - 1].end + n == ts[|ts| - 1].end
  {
    forall i | 0 <= i < |us| ensures IsSemi(us[i]) == IsSemi(ts[i]) {
      assert ts[i] == Shift(us[i], n);
    }
    assert ts[0] == Shift(us[0], n) && ts[|ts| - 1] == Shift(us[|ts| - 1], n);
  }

  /**
   A statement of any text, cut out and tokenized alone, gives the tokens it has in the
   text, shifted; and splitting it again gives back exactly one statement, all of it.
   */
  lemma CutAndResplit(s: string, d: Dialect, n: nat)
    requires n < |Ranges(Tokens(s, d))|
    ensures var (b, e) := Ranges(Tokens(s, d))[n];
            var st := AllStatements(Tokens(s, d))[n];
            && b < e <= |s| && st.first < st.last <= |Tokens(s, d)|
            && Tokens(s, d)[st.first..st.last] == ShiftAll(Tokens(s[b..e], d), b)
            && Ranges(Tokens(s[b..e], d)) == [(0, e - b)]
  {
    hide Munch, Lex, AllStatements, Ranges, ShiftAll;
    var ts := Tokens(s, d);
    RangesAt(ts, n);
    var st := AllStatements(ts)[n];
    var (b, e) := RangeOf(ts, st);
    SliceTokens(s, d, st.first, st.last);
    LexOrdered(' ', s, d, 0);
    NeutralBefore(s, d, st.first);
    LexNeutral(Before(' ', s, b), ' ', s[b..e], d, b);
    LexShift(' ', s[b..e], d, 0, b);
    var us := Tokens(s[b..e], d);
    SliceIsStatement(ts, st);
    ShiftKeepsKinds(ts[st.first..st.last], us, b);
    OneStatement(us);
    OneRange(us, e - b);
  }

  lemma SliceIsStatement(ts: seq<Token>, st: Statement)
    requires IsStatement(ts, st)
    ensures var cut := ts[st.first..st.last];
            cut != [] && NoSemi(cut, 0, |cut|) && Substantive(cut[0]) && Substantive(cut[|cut| - 1])
  {
  }

  lemma OneRange(us: seq<Token>, n: nat)
    requires us != [] && us[0].begin == 0 && us[|us| - 1].end == n
    requires AllStatements(us) == [Statement(0, 0, |us|, |us|)]
    ensures Ranges(us) == [(0, n)]
  {
    hide AllStatements;
    RangesAt(us, 0);
  }

  // ---------- the two splitters ----------

  predicate InComment(ts: seq<Token>, p: nat) {
    exists i :: 0 <= i < |ts| && ts[i].kind.Comment? && ts[i].begin <= p < ts[i].end
  }

  /** A closed token that is not a comment ends in a byte that is not whitespace. */
  lemma ClosedEndsSolid(prev: char, r: string, d: Dialect)
    requires r != [] && !IsSpace(r[0])
    requires Munch(prev, r, d).closed && !Munch(prev, r, d).kind.Comment?
    ensures !IsSpace(r[Munch(prev, r, d).end - 1])
  {
    if StartsBare(r, d) {
      BareEndsSolid(prev, r, d);
    }
    hide FindText, FindChar, TagToken, NumberEnd, RunEnd;
  }

  lemma RunEndsSolid(r: string, run: Run)
    requires r != [] && !IsSpace(r[0])
    ensures !IsSpace(r[RunEnd(r, 1, run) - 1]) && !IsSpace(r[NumberEnd(r, 1) - 1])
  {
    assert NumberEnd(r, 1) > 1 ==> ContinuesNumber(r, NumberEnd(r, 1) - 1);
    assert RunEnd(r, 1, run) > 1 ==> InRun(run, r[RunEnd(r, 1, run) - 1]);
  }

  lemma BareEndsSolid(prev: char, r: string, d: Dialect)
    requires r != [] && !IsSpace(r[0]) && StartsBare(r, d) && Munch(prev, r, d).closed
    ensures !IsSpace(r[Munch(prev, r, d).end - 1])
  {
    if StartsTag(r, d) {
      TagEndsSolid(r);
    }
    RunEndsSolid(r, WordRun(d.hashIdent));
    RunEndsSolid(r, ParamRun);
    hide FindText, FindChar, TagToken, NumberEnd, RunEnd, IsSpace, IsIdentByte, IsDigit;
  }

  lemma TagEndsSolid(r: string)
    requires r != [] && r[0] == '$' && TagToken(r).closed
    ensures !IsSpace(r[TagToken(r).end - 1])
  {
    var k := RunEnd(r, 1, TagRun);
    if k < |r| && r[k] == '$' {
      var e := FindText(r, r[..k + 1], k + 1).value;
      assert At(r, r[..k + 1], e);
      assert r[e..e + (k + 1)][k] == r[..k + 1][k];
    }
  }

  lemma TokenEndsSolid(s: string, d: Dialect, i: nat)
    requires i < |Tokens(s, d)| && Tokens(s, d)[i].closed && !Tokens(s, d)[i].kind.Comment?
    ensures 0 < Tokens(s, d)[i].end <= |s| && !IsSpace(s[Tokens(s, d)[i].end - 1])
  {
    hide Munch, Lex;
    var t := Tokens(s, d)[i];
    LexOrdered(' ', s, d, 0);
    LexMunches(' ', s, d, 0, t);
    ClosedEndsSolid(Before(' ', s, t.begin), s[t.begin..], d);
  }

  /** The bytes between two neighbouring semicolons and outside the statement there are comments and whitespace. */
  lemma AroundStatement(s: string, d: Dialect, st: Statement, p: nat)
    requires IsStatement(Tokens(s, d), st) && p < |s|
    requires st.lo == 0 || Tokens(s, d)[st.lo - 1].end <= p
    requires st.hi == |Tokens(s, d)| || p < Tokens(s, d)[st.hi].begin
    requires p < Tokens(s, d)[st.first].begin || Tokens(s, d)[st.last - 1].end <= p
    ensures IsSpace(s[p]) || InComment(Tokens(s, d), p)
  {
    hide Munch, Lex;
    var ts := Tokens(s, d);
    LexOrdered(' ', s, d, 0);
    LexCovers(' ', s, d, 0, p);
    if InToken(ts, p) {
      var i :| 0 <= i < |ts| && ts[i].begin <= p < ts[i].end;
      assert st.lo <= i < st.hi;
      assert i < st.first || st.last <= i;
      assert ts[i].kind.Comment?;
    }
  }

  /** The span at any offset in a statement is the stretch between its semicolons. */
  lemma SpanOfStatement(ts: seq<Token>, st: Statement, offset: nat, length: nat, span: Span)
    requires Ordered(ts, 0, length) && IsStatement(ts, st) && IsSpanAt(ts, offset, length, span)
    requires ts[st.first].begin <= offset <= ts[st.last - 1].end
    ensures span.begin == if st.lo == 0 then 0 else ts[st.lo - 1].end
    ensures span.end == if st.hi == |ts| then length else ts[st.hi].begin
  {
    var begin := if st.lo == 0 then 0 else ts[st.lo - 1].end;
    var end := if st.hi == |ts| then length else ts[st.hi].begin;
    SpanAtUnique(ts, offset, length, span, Span(begin, end, st.lo, st.hi));
  }

  /** The statement `st` of `s` and what the splitter finds around an offset in it. */
  ghost predicate Agrees(s: string, d: Dialect, st: Statement, b: nat, e: nat, x: nat, y: nat) {
    var ts := Tokens(s, d);
    && x <= b < e <= |s| && x <= y <= |s| && 0 < st.last <= |ts|
    && (e <= y <==> !IsSpace(s[e - 1]))
    && (IsSpace(s[e - 1]) ==> !ts[st.last - 1].closed)
    && (forall p :: x <= p < b || e <= p < y ==> IsSpace(s[p]) || InComment(ts, p))
  }

  /**
   `StatementRangeAt`, asked anywhere in a statement of `StatementRanges`, answers with
   that statement and comments and whitespace around it. It falls short of the
   statement's end exactly where that end is whitespace inside a quote nobody closed.
   */
  lemma SplittersAgree(s: string, d: Dialect, n: nat, offset: nat, x: nat, y: nat)
    requires n < |Ranges(Tokens(s, d))| && IsRangeAt(s, d, offset, x, y)
    requires Ranges(Tokens(s, d))[n].0 <= offset <= Ranges(Tokens(s, d))[n].1
    ensures var (b, e) := Ranges(Tokens(s, d))[n];
            Agrees(s, d, AllStatements(Tokens(s, d))[n], b, e, x, y)
  {
    hide Munch, Lex, AllStatements, Ranges, Agrees;
    RangesAt(Tokens(s, d), n);
    StatementAgrees(s, d, AllStatements(Tokens(s, d))[n], offset, x, y);
  }

  lemma StatementAgrees(s: string, d: Dialect, st: Statement, offset: nat, x: nat, y: nat)
    requires IsStatement(Tokens(s, d), st) && IsRangeAt(s, d, offset, x, y)
    requires Tokens(s, d)[st.first].begin <= offset <= Tokens(s, d)[st.last - 1].end
    ensures Agrees(s, d, st, Tokens(s, d)[st.first].begin, Tokens(s, d)[st.last - 1].end, x, y)
  {
    hide Munch, Lex, Agrees, IsStatement, Trimmed, IsSpanAt, Ordered;
    var ts := Tokens(s, d);
    LexOrdered(' ', s, d, 0);
    StatementInside(ts, st, |s|);
    hide Tokens;
    var at := if offset < |s| then offset else |s|;
    var span :| IsSpanAt(ts, at, |s|, span) && Trimmed(s, span.begin, span.end, x, y);
    SpanOfStatement(ts, st, at, |s|, span);
    TrimmedAgrees(s, d, st, span.begin, span.end, x, y);
  }

  /** The stretch between the semicolons around a statement, trimmed. */
  lemma TrimmedAgrees(s: string, d: Dialect, st: Statement, begin: nat, end: nat, x: nat, y: nat)
    requires IsStatement(Tokens(s, d), st)
    requires begin == if st.lo == 0 then 0 else Tokens(s, d)[st.lo - 1].end
    requires end == if st.hi == |Tokens(s, d)| then |s| else Tokens(s, d)[st.hi].begin
    requires Trimmed(s, begin, end, x, y)
    ensures Agrees(s, d, st, Tokens(s, d)[st.first].begin, Tokens(s, d)[st.last - 1].end, x, y)
  {
    hide Munch, Lex;
    var ts := Tokens(s, d);
    var b, e := ts[st.first].begin, ts[st.last - 1].end;
    LexOrdered(' ', s, d, 0);
    StatementInside(ts, st, |s|);
    LexMunches(' ', s, d, 0, ts[st.first]);
    hide IsStatement, Ordered;
    StatementEnd(s, d, st);
    TrimmedKeeps(s, begin, end, x, y, b, e);
    assert y <= end;
    hide Trimmed;
    forall p | x <= p < b || e <= p < y ensures IsSpace(s[p]) || InComment(ts, p) {
      AroundStatement(s, d, st, p);
    }
  }

  /** A statement ends in a solid byte, or in an unclosed token that takes the rest of the text. */
  lemma StatementEnd(s: string, d: Dialect, st: Statement)
    requires IsStatement(Tokens(s, d), st)
    ensures 0 < Tokens(s, d)[st.last - 1].end <= |s|
    ensures var e := Tokens(s, d)[st.last - 1].end;
            IsSpace(s[e - 1]) ==> !Tokens(s, d)[st.last - 1].closed && e == |s| && st.hi == st.last == |Tokens(s, d)|
  {
    hide Munch, Lex;
    var ts := Tokens(s, d);
    var t := ts[st.last - 1];
    LexOrdered(' ', s, d, 0);
    LexMunches(' ', s, d, 0, t);
    if t.closed {
      TokenEndsSolid(s, d, st.last - 1);
    } else {
      LastAtEnd(ts, st.last - 1, |s|);
    }
  }

  lemma LastAtEnd(ts: seq<Token>, k: nat, length: nat)
    requires Ordered(ts, 0, length) && k < |ts| && ts[k].end == length
    ensures k + 1 == |ts|
  {
    var i := if k + 1 < |ts| then k + 1 else k;
    assert ts[i].begin < ts[i].end <= length;
  }

  lemma StatementInside(ts: seq<Token>, st: Statement, length: nat)
    requires Ordered(ts, 0, length) && IsStatement(ts, st)
    ensures ts[st.first].begin < ts[st.last - 1].end <= length
    ensures 0 < st.lo ==> ts[st.lo - 1].end <= ts[st.first].begin
    ensures st.hi < |ts| ==> ts[st.last - 1].end <= ts[st.hi].begin
  {
  }

  /** Trimming stops at the first solid byte, and goes no further than the last one. */
  lemma TrimmedKeeps(s: string, begin: nat, end: nat, x: nat, y: nat, b: nat, e: nat)
    requires Trimmed(s, begin, end, x, y) && begin <= b < e <= end && !IsSpace(s[b])
    ensures x <= b < y
    ensures !IsSpace(s[e - 1]) ==> e <= y
    ensures IsSpace(s[e - 1]) && e == end ==> y < e
  {
  }

  // ---------- where they differ ----------

  /** A quote nobody closed keeps its trailing space in one splitter and loses it in the other. */
  lemma UnclosedQuoteDisagrees(d: Dialect)
    ensures Ranges(Tokens("'a ", d)) == [(0, 3)]
    ensures IsRangeAt("'a ", d, 0, 0, 2)
  {
    var s := "'a ";
    var t := Token(String, 0, 3, false, false, "a ");
    UnclosedQuoteLexes(d);
    var ts := [t];
    assert AllStatements(ts) == [Statement(0, 0, 1, 1)] by {
      assert StatementsFrom(ts, 1, 0, Seen(0, 1)) == [Statement(0, 0, 1, 1)];
    }
    RangesAt(ts, 0);
    assert IsSpanAt(ts, 0, 3, Span(0, 3, 0, 1)) && Trimmed(s, 0, 3, 0, 2);
  }

  lemma UnclosedQuoteLexes(d: Dialect)
    ensures Tokens("'a ", d) == [Token(String, 0, 3, false, false, "a ")]
  {
    var s := "'a ";
    hide Lex, Munch;
    LexStep(' ', s, d, 0);
    assert Munch(' ', s, d) == Token(String, 0, 3, false, false, "a ") by {
      UnclosedQuoteMunches(d);
    }
    LexStep(s[2], s[3..], d, 3);
  }

  lemma UnclosedQuoteMunches(d: Dialect)
    ensures Munch(' ', "'a ", d) == Token(String, 0, 3, false, false, "a ")
  {
    hide BlockComment, TagToken, StartsTag, StartsNumber;
    var s := "'a ";
    assert ScanQuoted(s, 3, '\'', d.backslashEscape) == Scan(3, false, "");
    assert ScanQuoted(s, 2, '\'', d.backslashEscape) == Scan(3, false, " ");
    assert ScanQuoted(s, 1, '\'', d.backslashEscape) == Scan(3, false, "a ");
  }
}
