/** Which batches PostgreSQL may be told to stop early: exactly one plain read statement. */
module StoppableReads {
  import opened Text
  import opened Lexer
  import opened LexTheorems
  import opened Statements
  import opened StatementTheorems
  import opened Quoting

  const PG := DialectFor(POSTGRESQL)

  predicate IsReadWord(w: string) {
    w == "select" || w == "table" || w == "values"
  }

  /** The end of the letters that start at `b`. */
  function LettersEnd(s: string, b: nat, e: nat): (q: nat)
    requires b <= e <= |s|
    ensures b <= q <= e
    ensures forall i :: b <= i < q ==> IsAlpha(s[i])
    ensures q < e ==> !IsAlpha(s[q])
    decreases e - b
  {
    if b < e && IsAlpha(s[b]) then LettersEnd(s, b + 1, e) else b
  }

  predicate SemisAndSpace(s: string, from: nat) {
    forall i :: from <= i < |s| ==> s[i] == ';' || IsSpace(s[i])
  }

  /** What the early-stop test checks, on the range found at offset 0. */
  ghost predicate Stoppable(s: string) {
    exists b, e :: IsRangeAt(s, PG, 0, b, e) && Passes(s, b, e)
  }

  ghost predicate Passes(s: string, b: nat, e: nat) {
    b <= e <= |s| && SemisAndSpace(s, e) && IsReadWord(Lower(s[b..LettersEnd(s, b, e)]))
  }

  method StoppableRead(sql: string) returns (ok: bool)
    ensures ok <==> Stoppable(sql)
  {
    var begin, end := StatementRangeAt(sql, 0, POSTGRESQL);
    StoppableMeans(sql, begin, end);
    hide IsRangeAt, Stoppable, LettersEnd, Lower;
    for i := end to |sql|
      invariant forall j :: end <= j < i ==> sql[j] == ';' || IsSpace(sql[j])
    {
      if sql[i] != ';' && !IsSpace(sql[i]) {
        return false;
      }
    }
    var word := "";
    var i := begin;
    LowerSnoc(sql, begin, begin);
    while i < end && IsAlpha(sql[i])
      invariant begin <= i <= end
      invariant word == Lower(sql[begin..i])
      invariant forall j :: begin <= j < i ==> IsAlpha(sql[j])
    {
      LowerSnoc(sql, begin, i);
      word := word + [LowerChar(sql[i])];
      i := i + 1;
    }
    LettersEndUnique(sql, begin, end, i);
    ok := word == "select" || word == "table" || word == "values";
  }

  lemma LowerSnoc(s: string, b: nat, i: nat)
    requires b <= i <= |s|
    ensures b == i ==> Lower(s[b..i]) == ""
    ensures i < |s| ==> Lower(s[b..i + 1]) == Lower(s[b..i]) + [LowerChar(s[i])]
  {
  }

  lemma StoppableMeans(s: string, b: nat, e: nat)
    requires IsRangeAt(s, PG, 0, b, e)
    ensures b <= e <= |s| && (Stoppable(s) <==> Passes(s, b, e))
  {
    RangeInside(s, PG, 0, b, e);
    hide IsRangeAt, Passes;
    if Stoppable(s) {
      var b': nat, e': nat :| IsRangeAt(s, PG, 0, b', e') && Passes(s, b', e');
      RangeAtUnique(s, PG, 0, b, e, b', e');
    }
  }

  lemma RangeInside(s: string, d: Dialect, offset: nat, b: nat, e: nat)
    requires IsRangeAt(s, d, offset, b, e)
    ensures b <= e <= |s|
  {
  }

  // ---------- what the test means ----------

  lemma {:induction false} OnlySemisLeft(ts: seq<Token>, k: nat)
    requires k <= |ts| && (forall i :: k <= i < |ts| ==> IsSemi(ts[i]))
    ensures StatementsFrom(ts, k, k, Empty) == []
    decreases |ts| - k
  {
    if k < |ts| {
      OnlySemisLeft(ts, k + 1);
    }
  }

  lemma {:induction false} FirstStatementFrom(ts: seq<Token>, k: nat, last: nat, hi: nat) returns (end: nat)
    requires 0 < last <= k <= hi <= |ts| && NoSemi(ts, 0, hi)
    requires forall i :: hi <= i < |ts| ==> IsSemi(ts[i])
    ensures StatementsFrom(ts, k, 0, Seen(0, last)) == [Statement(0, 0, end, hi)]
    decreases hi - k
  {
    if k < hi {
      end := FirstStatementFrom(ts, k + 1, if ts[k].kind.Comment? then last else k + 1, hi);
    } else {
      end := last;
      if hi < |ts| {
        OnlySemisLeft(ts, hi + 1);
      }
    }
  }

  /** Tokens that start in a stretch of semicolons and whitespace are semicolons. */
  lemma SemisAreTokens(s: string, d: Dialect, from: nat, i: nat)
    requires SemisAndSpace(s, from) && i < |Tokens(s, d)| && from <= Tokens(s, d)[i].begin
    ensures IsSemi(Tokens(s, d)[i])
  {
    hide Lex;
    var t := Tokens(s, d)[i];
    LexMunches(' ', s, d, 0, t);
    assert s[t.begin..][0] == ';';
    SemiMunch(Before(' ', s, t.begin), s[t.begin..], d);
    assert Munch(Before(' ', s, t.begin), s[t.begin..], d).text == t.text;
  }

  lemma SemiMunch(prev: char, r: string, d: Dialect)
    requires r != [] && r[0] == ';'
    ensures !IsSpace(r[0]) && IsSemi(Munch(prev, r, d))
  {
  }

  /**
   One statement, nothing but whitespace before it, nothing but semicolons and whitespace from its first semicolon
   on.
   */
  ghost predicate OneRead(s: string) {
    exists st :: IsOneRead(s, st)
  }

  ghost predicate IsOneRead(s: string, st: Statement) {
    var ts := Tokens(s, PG);
    && AllStatements(ts) == [st] && IsStatement(ts, st)
    && ts[st.first].begin <= ts[st.last - 1].end <= |s|
    && (forall p :: 0 <= p < ts[st.first].begin ==> IsSpace(s[p]))
    && (st.hi < |ts| ==> SemisAndSpace(s, ts[st.hi].begin))
    && IsReadWord(Lower(s[ts[st.first].begin..LettersEnd(s, ts[st.first].begin, |s|)]))
  }

  /** Letters at `b` are never cut short by the range's end. */
  lemma LettersInside(s: string, b: nat, e: nat)
    requires b <= e <= |s| && (e < |s| ==> !IsAlpha(s[e]))
    ensures LettersEnd(s, b, e) == LettersEnd(s, b, |s|)
    decreases e - b
  {
    if b < e && IsAlpha(s[b]) {
      LettersInside(s, b + 1, e);
    }
  }

  lemma {:induction false} LettersEndUnique(s: string, b: nat, e: nat, q: nat)
    requires b <= q <= e <= |s| && (forall i :: b <= i < q ==> IsAlpha(s[i])) && (q < e ==> !IsAlpha(s[q]))
    ensures LettersEnd(s, b, e) == q
    decreases q - b
  {
    if b < q {
      LettersEndUnique(s, b + 1, e, q);
    }
  }

  /** A text whose first statement ends at token `hi`, with nothing but semicolons from there on. */
  lemma OnlyStatement(ts: seq<Token>, hi: nat) returns (st: Statement)
    requires 0 < hi <= |ts| && NoSemi(ts, 0, hi) && Substantive(ts[0])
    requires forall i :: hi <= i < |ts| ==> IsSemi(ts[i])
    ensures st.first == 0 && st.hi == hi && AllStatements(ts) == [st] && IsStatement(ts, st)
  {
    var last := FirstStatementFrom(ts, 1, 1, hi);
    st := Statement(0, 0, last, hi);
    assert Extend(Empty, 0) == Seen(0, 1);
    RangesAt(ts, 0);
  }

  lemma PassesStart(s: string, b: nat, e: nat)
    requires Passes(s, b, e)
    ensures b < e && IsAlpha(s[b])
  {
    assert s[b..b] == "";
    assert Lower("") == "";
  }

  /** The early-stop test passes only on a text of one statement, that starts with SELECT, TABLE or VALUES. */
  lemma StoppableIsOneRead(s: string)
    requires Stoppable(s)
    ensures OneRead(s)
  {
    hide Munch, Lex, Passes;
    var ts := Tokens(s, PG);
    var b, e :| IsRangeAt(s, PG, 0, b, e) && Passes(s, b, e);
    var span :| IsSpanAt(ts, 0, |s|, span) && Trimmed(s, span.begin, span.end, b, e);
    PassesStart(s, b, e);
    LexOrdered(' ', s, PG, 0);
    SpanAtZero(ts, |s|, span);
    FirstTokenAt(s, PG, b);
    OneReadFrom(s, span, b, e);
  }

  lemma SpanAtZero(ts: seq<Token>, length: nat, span: Span)
    requires Ordered(ts, 0, length) && IsSpanAt(ts, 0, length, span)
    ensures span.firstTok == 0 && span.begin == 0
    ensures forall i :: span.lastTok <= i < |ts| ==> span.end <= ts[i].begin
  {
  }

  lemma OneReadFrom(s: string, span: Span, b: nat, e: nat)
    requires IsSpanAt(Tokens(s, PG), 0, |s|, span) && Trimmed(s, 0, span.end, b, e) && span.firstTok == 0
    requires Passes(s, b, e) && Tokens(s, PG) != [] && Tokens(s, PG)[0].begin == b && Tokens(s, PG)[0].kind.Word?
             && b < e
    ensures OneRead(s)
  {
    hide Munch, Lex, OneRead;
    var ts := Tokens(s, PG);
    LexOrdered(' ', s, PG, 0);
    SpanAtZero(ts, |s|, span);
    var hi := span.lastTok;
    forall i | hi <= i < |ts| ensures IsSemi(ts[i]) {
      SemisAreTokens(s, PG, e, i);
    }
    var st := OnlyStatement(ts, hi);
    StatementInside(ts, st, |s|);
    LettersInside(s, b, e);
    assert IsOneRead(s, st);
    OneReadWitness(s, st);
  }

  lemma OneReadWitness(s: string, st: Statement)
    requires IsOneRead(s, st)
    ensures OneRead(s)
  {
  }

  /** And it passes on every such text. */
  lemma OneReadIsStoppable(s: string)
    requires OneRead(s)
    ensures Stoppable(s)
  {
    hide Munch, Lex;
    var ts := Tokens(s, PG);
    var st :| IsOneRead(s, st);
    LexOrdered(' ', s, PG, 0);
    var b := ts[st.first].begin;
    NothingBefore(s, st);
    var end := if st.hi == |ts| then |s| else ts[st.hi].begin;
    StatementInside(ts, st, |s|);
    var e := TrimEnd(s, b, end);
    assert IsSpanAt(ts, 0, |s|, Span(0, end, 0, st.hi));
    LexMunches(' ', s, PG, 0, ts[st.first]);
    assert Trimmed(s, 0, end, b, e);
    assert IsRangeAt(s, PG, 0, b, e);
    LettersInside(s, b, e);
    assert Passes(s, b, e);
  }

  lemma NothingBefore(s: string, st: Statement)
    requires IsOneRead(s, st)
    ensures st.lo == st.first == 0
  {
    hide Munch, Lex;
    var ts := Tokens(s, PG);
    LexOrdered(' ', s, PG, 0);
    LexMunches(' ', s, PG, 0, ts[0]);
  }

  lemma TrimEnd(s: string, b: nat, end: nat) returns (e: nat)
    requires b < end <= |s| && !IsSpace(s[b])
    ensures b < e <= end && !IsSpace(s[e - 1]) && forall p :: e <= p < end ==> IsSpace(s[p])
  {
    e := end;
    while IsSpace(s[e - 1])
      invariant b < e <= end
      invariant forall p :: e <= p < end ==> IsSpace(s[p])
      decreases e
    {
      e := e - 1;
    }
  }

  /** The first solid byte of a text starts its first token; a letter starts a word. */
  lemma FirstTokenAt(s: string, d: Dialect, b: nat)
    requires b < |s| && IsAlpha(s[b]) && forall p :: 0 <= p < b ==> IsSpace(s[p])
    ensures Tokens(s, d) != [] && Tokens(s, d)[0].begin == b && Tokens(s, d)[0].kind.Word?
  {
    hide Lex;
    var ts := Tokens(s, d);
    LexOrdered(' ', s, d, 0);
    LexCovers(' ', s, d, 0, b);
    var i :| 0 <= i < |ts| && ts[i].begin <= b < ts[i].end;
    LexMunches(' ', s, d, 0, ts[0]);
    assert ts[0].begin == b;
    LetterMunch(Before(' ', s, b), s[b..], d);
  }

  lemma LetterMunch(prev: char, r: string, d: Dialect)
    requires r != [] && IsAlpha(r[0])
    ensures !IsSpace(r[0]) && Munch(prev, r, d).kind.Word?
  {
  }

  // ---------- the first word ----------

  /** The first word of a text that starts with a letter: the letters, and what goes on without a break. */
  lemma FirstWord(s: string, b: nat)
    requires b < |s| && IsAlpha(s[b]) && forall p :: 0 <= p < b ==> IsSpace(s[p])
    ensures var ts := Tokens(s, PG);
            var q := LettersEnd(s, b, |s|);
            && ts != [] && ts[0].begin == b && ts[0].kind.Word? && q <= ts[0].end <= |s|
            && ts[0].text == s[b..ts[0].end]
            && (q == ts[0].end <==> q == |s| || !IsIdentByte(s[q]))
  {
    hide Lex, Munch, LettersEnd, RunEnd;
    FirstTokenAt(s, PG, b);
    LexOrdered(' ', s, PG, 0);
    LexMunches(' ', s, PG, 0, Tokens(s, PG)[0]);
    WordMunch(Before(' ', s, b), s[b..]);
    RunOfLetters(s, b);
  }

  lemma RunOfLetters(s: string, b: nat)
    requires b < |s| && IsAlpha(s[b])
    ensures var n, q := b + RunEnd(s[b..], 1, WordRun(false)), LettersEnd(s, b, |s|);
            && q <= n <= |s| && s[b..][..n - b] == s[b..n]
            && (q == n <==> q == |s| || !IsIdentByte(s[q]))
  {
    hide LettersEnd, RunEnd;
    var r := s[b..];
    var n, q := RunEnd(r, 1, WordRun(false)), LettersEnd(s, b, |s|);
    assert forall i :: 0 <= i < |r| ==> r[i] == s[b + i];
    assert n < |r| ==> r[n] == s[b + n];
    assert q < b + n ==> q == b || InRun(WordRun(false), r[q - b]);
  }

  lemma WordMunch(prev: char, r: string)
    requires r != [] && IsAlpha(r[0])
    ensures !IsSpace(r[0])
    ensures var n := RunEnd(r, 1, WordRun(false)); Munch(prev, r, PG).end == n && Munch(prev, r, PG).text == r[..n]
  {
  }

  /** One statement as above, and its first word is SELECT, TABLE or VALUES, whole. */
  ghost predicate OneReadCommand(s: string) {
    OneRead(s) && Tokens(s, PG) != [] && Tokens(s, PG)[0].kind.Word? && IsReadWord(Lower(Tokens(s, PG)[0].text))
  }

  /** The byte behind the first letters of a text does not continue a word. */
  predicate LettersEndAWord(s: string) {
    var b := SpacesEnd(s, 0);
    var q := LettersEnd(s, b, |s|);
    q == |s| || !IsIdentByte(s[q])
  }

  function SpacesEnd(s: string, i: nat): (b: nat)
    requires i <= |s|
    ensures i <= b <= |s|
    ensures forall p :: i <= p < b ==> IsSpace(s[p])
    ensures b < |s| ==> !IsSpace(s[b])
    decreases |s| - i
  {
    if i < |s| && IsSpace(s[i]) then SpacesEnd(s, i + 1) else i
  }

  /** The test is right about the first word exactly when no digit, `_`, `$` or byte above 0x7f follows its letters. */
  lemma StoppableIsCommand(s: string)
    ensures OneReadCommand(s) <==> Stoppable(s) && LettersEndAWord(s)
  {
    hide Lex, Tokens, LettersEnd, SpacesEnd, IsReadWord, Lower, AllStatements;
    if OneRead(s) {
      OneReadIsStoppable(s);
      var st :| IsOneRead(s, st);
      var b := FirstLetter(s, st);
      FirstWord(s, b);
      var t, q := Tokens(s, PG)[0], LettersEnd(s, b, |s|);
      if q < t.end {
        LongerWord(t.text, q - b);
      }
    } else if Stoppable(s) {
      StoppableIsOneRead(s);
    }
  }

  lemma FirstLetter(s: string, st: Statement) returns (b: nat)
    requires IsOneRead(s, st)
    ensures b == SpacesEnd(s, 0) < |s| && IsAlpha(s[b]) && forall p :: 0 <= p < b ==> IsSpace(s[p])
    ensures IsReadWord(Lower(s[b..LettersEnd(s, b, |s|)]))
  {
    NothingBefore(s, st);
    hide Lex, Munch, AllStatements;
    var ts := Tokens(s, PG);
    b := ts[0].begin;
    LexOrdered(' ', s, PG, 0);
    LexMunches(' ', s, PG, 0, ts[0]);
    assert |Lower(s[b..LettersEnd(s, b, |s|)])| > 0;
  }

  /** A word with a byte that is no letter is none of the three. */
  lemma LongerWord(text: string, n: nat)
    requires n < |text| && !IsAlpha(text[n])
    ensures !IsReadWord(Lower(text))
  {
    assert Lower(text)[n] == LowerChar(text[n]);
    if IsReadWord(Lower(text)) {
      ReadWordLetters(Lower(text));
    }
  }

  lemma ReadWordLetters(w: string)
    requires IsReadWord(w)
    ensures forall i :: 0 <= i < |w| ==> IsLower(w[i])
  {
  }

  /** A text that passes without being a read: its only word is not one of the three. */
  lemma TableUnderscorePasses()
    ensures Stoppable("table_x") && !OneReadCommand("table_x")
  {
    hide Munch, Lex, Tokens, Stoppable, OneReadCommand;
    var s := "table_x";
    assert LettersEnd(s, 0, 7) == 5;
    assert s[0..5] == "table" && Lower("table") == "table";
    OneWordStops(s);
    assert SpacesEnd(s, 0) == 0;
    StoppableIsCommand(s);
  }

  /** A text of one word passes on its letters alone. */
  lemma OneWordStops(s: string)
    requires IsPlainWord(s) && IsAlpha(s[0]) && IsReadWord(Lower(s[0..LettersEnd(s, 0, |s|)]))
    ensures Stoppable(s)
  {
    PlainWordLexes(s, PG);
    PlainWordEnds(s);
    hide *;
    OneTokenStops(s, Token(Word, 0, |s|, true, false, s));
  }

  lemma PlainWordEnds(s: string)
    requires IsPlainWord(s)
    ensures s != "" && !IsSpace(s[0]) && !IsSpace(s[|s| - 1])
  {
  }

  lemma OneTokenStops(s: string, t: Token)
    requires Tokens(s, PG) == [t] && t.kind.Word? && s != "" && !IsSpace(s[0]) && !IsSpace(s[|s| - 1])
    requires IsReadWord(Lower(s[0..LettersEnd(s, 0, |s|)]))
    ensures Stoppable(s)
  {
    hide Tokens, Munch, Lex, IsReadWord, Lower, LettersEnd;
    assert IsSpanAt([t], 0, |s|, Span(0, |s|, 0, 1)) && Trimmed(s, 0, |s|, 0, |s|);
    assert IsRangeAt(s, PG, 0, 0, |s|) && Passes(s, 0, |s|);
  }
}
