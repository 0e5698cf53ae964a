/** What the tokenizer makes of each form a token may be written in, dialect by dialect. */
module LexForms {
  import opened Text
  import opened Wrappers
  import opened Lexer
  import opened Quoting

  // ---------- the dialects, by the names of their systems ----------

  predicate IsMySqlLike(ty: DatabaseType) {
    ty.MYSQL? || ty.MARIADB? || ty.TIDB?
  }

  predicate HasDollarQuotes(ty: DatabaseType) {
    ty.POSTGRESQL? || ty.REDSHIFT? || ty.COCKROACHDB? || ty.DUCKDB? || ty.CASSANDRA?
  }

  lemma FlagsOf(ty: DatabaseType)
    ensures var d := DialectFor(ty);
            && (d.backslashEscape <==> IsMySqlLike(ty)) && (d.doubleQuoteIdent <==> !IsMySqlLike(ty))
            && (d.hashComment <==> IsMySqlLike(ty)) && (d.backtickIdent <==> IsMySqlLike(ty) || ty.SQLITE?)
            && (d.bracketIdent <==> ty.SQLITE? || ty.MSSQL?) && (d.hashIdent <==> ty.MSSQL?)
            && (d.dollarQuote <==> HasDollarQuotes(ty))
  {
  }

  // ---------- quotes ----------

  /**
   Between two quotes, `w` stands for the bytes `n`: a quote is written twice, where `backslash` says so a backslash
   makes any byte stand for itself, and all other bytes do anyway.
   */
  predicate Writes(w: string, n: string, quote: char, backslash: bool) {
    if w == "" then n == ""
    else if backslash && w[0] == '\\' then
      |w| > 1 && n != "" && n[0] == w[1] && Writes(w[2..], n[1..], quote, backslash)
    else if w[0] == quote then
      |w| > 1 && w[1] == quote && n != "" && n[0] == quote && Writes(w[2..], n[1..], quote, backslash)
    else n != "" && n[0] == w[0] && Writes(w[1..], n[1..], quote, backslash)
  }

  /** How many bytes the first byte of a text is written with. */
  function FirstLength(w: string, quote: char, backslash: bool): nat {
    if w != "" && ((backslash && w[0] == '\\') || w[0] == quote) then 2 else 1
  }

  lemma WritesStep(w: string, n: string, quote: char, backslash: bool)
    requires w != "" && Writes(w, n, quote, backslash)
    ensures var k := FirstLength(w, quote, backslash);
            k <= |w| && n != "" && Writes(w[k..], n[1..], quote, backslash) && n[0] == w[k - 1]
  {
  }

  lemma ScanStep(r: string, j: nat, w: string, quote: char, backslash: bool)
    requires j < |r| && w != "" && quote != '\\'
    requires var k := FirstLength(w, quote, backslash);
             k <= |w| && j + k <= |r| && r[j] == w[0] && (k == 2 ==> r[j + 1] == w[1])
    requires w[0] == quote ==> |w| > 1 && w[1] == quote
    ensures var k := FirstLength(w, quote, backslash);
            var q := ScanQuoted(r, j + k, quote, backslash);
            ScanQuoted(r, j, quote, backslash) == q.(text := [w[k - 1]] + q.text)
  {
  }

  /** The scanner reads what is written, up to the closing quote or, without one, to the end. */
  lemma {:induction false} ScanWritten(r: string, j: nat, w: string, n: string, quote: char, backslash: bool,
      tail: string)
    requires j <= |r| && r[j..] == w + tail && Writes(w, n, quote, backslash) && quote != '\\'
    requires tail == "" || (tail[0] == quote && (|tail| > 1 ==> tail[1] != quote))
    ensures ScanQuoted(r, j, quote, backslash)
         == if tail == "" then Scan(|r|, false, n) else Scan(|r| - |tail| + 1, true, n)
    decreases |w|
  {
    hide ScanQuoted;
    if w == "" {
      assert r[j..] == tail;
      ScanEnd(r, j, quote, backslash, tail);
    } else {
      WritesStep(w, n, quote, backslash);
      WrittenQuote(w, n, quote, backslash);
      hide Writes;
      Front(r, j, w, FirstLength(w, quote, backslash), tail);
      ScanStep(r, j, w, quote, backslash);
      hide FirstLength;
      var k := FirstLength(w, quote, backslash);
      ScanWritten(r, j + k, w[k..], n[1..], quote, backslash, tail);
      assert n == [n[0]] + n[1..];
    }
  }

  /** The first `k` of the bytes written at `j`, and what stands behind them. */
  lemma Front(r: string, j: nat, w: string, k: nat, tail: string)
    requires 0 < k <= |w| && j <= |r| && r[j..] == w + tail
    ensures j + k <= |r| && r[j..j + k] == w[..k] && r[j] == w[0] && (k > 1 ==> r[j + 1] == w[1])
    ensures r[j + k..] == w[k..] + tail
  {
    assert w + tail == w[..k] + (w[k..] + tail);
    StripFront(r, j, w[..k], w[k..] + tail);
    assert r[j] == r[j..][0];
    assert k > 1 ==> r[j + 1] == r[j..][1];
  }

  lemma WrittenQuote(w: string, n: string, quote: char, backslash: bool)
    requires w != "" && Writes(w, n, quote, backslash) && quote != '\\'
    ensures w[0] == quote ==> |w| > 1 && w[1] == quote
  {
  }

  lemma ScanEnd(r: string, j: nat, quote: char, backslash: bool, tail: string)
    requires j <= |r| && r[j..] == tail && quote != '\\'
    requires tail == "" || (tail[0] == quote && (|tail| > 1 ==> tail[1] != quote))
    ensures ScanQuoted(r, j, quote, backslash)
         == if tail == "" then Scan(|r|, false, "") else Scan(|r| - |tail| + 1, true, "")
  {
    if tail != "" {
      assert r[j] == tail[0];
      assert |tail| > 1 ==> r[j + 1] == tail[1];
    }
  }

  /** What may stand behind the bytes in quotes: nothing, or a closing quote that is not doubled. */
  predicate Closes(tail: string, quote: char) {
    tail == "" || (tail[0] == quote && (|tail| > 1 ==> tail[1] != quote))
  }

  function QuotedToken(kind: Kind, w: string, n: string, tail: string): Token {
    Token(kind, 0, |w| + (if tail == "" then 1 else 2), tail != "", false, n)
  }

  lemma QuotedIs(kind: Kind, open: char, quote: char, backslash: bool, w: string, n: string, tail: string)
    requires Writes(w, n, quote, backslash) && Closes(tail, quote) && quote != '\\'
    ensures Quoted(kind, [open] + (w + tail), quote, backslash) == QuotedToken(kind, w, n, tail)
  {
    var r := [open] + (w + tail);
    assert r[1..] == w + tail;
    ScanWritten(r, 1, w, n, quote, backslash, tail);
  }

  /** Text in single quotes is a string; a backslash escapes in it under MySQL and its kin only. */
  lemma StringReads(prev: char, w: string, n: string, ty: DatabaseType, tail: string)
    requires Writes(w, n, '\'', IsMySqlLike(ty)) && Closes(tail, '\'')
    ensures Munch(prev, "'" + (w + tail), DialectFor(ty)) == QuotedToken(String, w, n, tail)
  {
    FlagsOf(ty);
    QuotedIs(String, '\'', '\'', IsMySqlLike(ty), w, n, tail);
    hide Writes, Closes, DialectFor, Quoted, BlockComment, TagToken, NumberEnd, RunEnd, FindChar;
  }

  /** Text in double quotes is a string with backslashes under MySQL and its kin, an identifier without elsewhere. */
  lemma DoubleQuotesRead(prev: char, w: string, n: string, ty: DatabaseType, tail: string)
    requires Writes(w, n, '"', IsMySqlLike(ty)) && Closes(tail, '"')
    ensures Munch(prev, "\"" + (w + tail), DialectFor(ty))
         == QuotedToken(if IsMySqlLike(ty) then String else QuotedIdent, w, n, tail)
  {
    FlagsOf(ty);
    QuotedIs(if IsMySqlLike(ty) then String else QuotedIdent, '"', '"', IsMySqlLike(ty), w, n, tail);
    hide Writes, Closes, DialectFor, Quoted, BlockComment, TagToken, NumberEnd, RunEnd, FindChar;
  }

  /** Backticks quote an identifier under MySQL, its kin and SQLite, and stand for themselves elsewhere. */
  lemma BackticksRead(prev: char, w: string, n: string, ty: DatabaseType, tail: string)
    requires Writes(w, n, '`', false) && Closes(tail, '`')
    ensures Munch(prev, "`" + (w + tail), DialectFor(ty))
         == if IsMySqlLike(ty) || ty.SQLITE? then QuotedToken(QuotedIdent, w, n, tail) else Plain(Op, 1, "`")
  {
    FlagsOf(ty);
    QuotedIs(QuotedIdent, '`', '`', false, w, n, tail);
    hide Writes, Closes, DialectFor, Quoted, BlockComment, TagToken, NumberEnd, RunEnd, FindChar;
  }

  /** Brackets quote an identifier under SQLite and SQL Server, and stand for themselves elsewhere. */
  lemma BracketsRead(prev: char, w: string, n: string, ty: DatabaseType, tail: string)
    requires Writes(w, n, ']', false) && Closes(tail, ']')
    ensures Munch(prev, "[" + (w + tail), DialectFor(ty))
         == if ty.SQLITE? || ty.MSSQL? then QuotedToken(QuotedIdent, w, n, tail) else Plain(Op, 1, "[")
  {
    FlagsOf(ty);
    QuotedIs(QuotedIdent, '[', ']', false, w, n, tail);
    hide Writes, Closes, DialectFor, Quoted, BlockComment, TagToken, NumberEnd, RunEnd, FindChar;
  }

  /** A way to write any bytes: quotes twice, and backslashes where they escape. */
  function Doubled(n: string, quote: char, backslash: bool): string {
    if n == "" then ""
    else
      var twice := n[0] == quote || (backslash && n[0] == '\\');
      (if twice then [n[0], n[0]] else [n[0]]) + Doubled(n[1..], quote, backslash)
  }

  lemma {:induction false} DoubledWrites(n: string, quote: char, backslash: bool)
    requires quote != '\\'
    ensures Writes(Doubled(n, quote, backslash), n, quote, backslash)
    decreases |n|
  {
    if n != "" {
      DoubledWrites(n[1..], quote, backslash);
      var front := if n[0] == quote || (backslash && n[0] == '\\') then [n[0], n[0]] else [n[0]];
      var w := Doubled(n, quote, backslash);
      assert w[|front|..] == Doubled(n[1..], quote, backslash);
    }
  }

  /** Any bytes, written as a string literal of their dialect, read back as one closed string that holds them. */
  lemma LiteralReadsBack(prev: char, n: string, ty: DatabaseType, rest: string)
    requires rest != "" ==> rest[0] != '\''
    ensures var w := Doubled(n, '\'', IsMySqlLike(ty));
            Munch(prev, "'" + (w + ("'" + rest)), DialectFor(ty)) == Token(String, 0, |w| + 2, true, false, n)
  {
    DoubledWrites(n, '\'', IsMySqlLike(ty));
    StringReads(prev, Doubled(n, '\'', IsMySqlLike(ty)), n, ty, "'" + rest);
  }

  lemma {:induction false} WritesJoin(a: string, n: string, b: string, m: string, quote: char, backslash: bool)
    requires Writes(a, n, quote, backslash) && Writes(b, m, quote, backslash)
    ensures Writes(a + b, n + m, quote, backslash)
    decreases |a|
  {
    if a == "" {
      assert a + b == b && n + m == m;
    } else {
      WritesStep(a, n, quote, backslash);
      var k := FirstLength(a, quote, backslash);
      WritesJoin(a[k..], n[1..], b, m, quote, backslash);
      assert (a + b)[k..] == a[k..] + b && (n + m)[1..] == n[1..] + m;
    }
  }

  /** Where a backslash escapes, a quote behind one stays inside, whatever stands around it. */
  lemma EscapedQuoteStays(a: string, n: string, b: string, m: string, quote: char)
    requires Writes(a, n, quote, true) && Writes(b, m, quote, true)
    ensures Writes(a + (['\\', quote] + b), n + ([quote] + m), quote, true)
  {
    var w := ['\\', quote] + b;
    assert w[2..] == b && ([quote] + m)[1..] == m;
    WritesJoin(a, n, w, [quote] + m, quote, true);
  }

  // ---------- comments ----------

  /** `--` starts a comment anywhere, `#` one under MySQL and its kin; it ends before the line does. */
  lemma LineCommentReads(prev: char, body: string, ty: DatabaseType, rest: string)
    requires '\n' !in body && (rest == "" || rest[0] == '\n')
    ensures Munch(prev, "--" + (body + rest), DialectFor(ty)) == Token(Comment, 0, 2 + |body|, true, true, "")
    ensures IsMySqlLike(ty) ==>
              Munch(prev, "#" + (body + rest), DialectFor(ty)) == Token(Comment, 0, 1 + |body|, true, true, "")
  {
    FlagsOf(ty);
    LineEnd("--", body, rest);
    LineEnd("#", body, rest);
    hide DialectFor, FindChar, Quoted, BlockComment, TagToken, NumberEnd, RunEnd;
  }

  lemma LineEnd(mark: string, body: string, rest: string)
    requires '\n' !in mark && '\n' !in body && (rest == "" || rest[0] == '\n')
    ensures FindChar(mark + (body + rest), '\n', 0) == |mark| + |body|
  {
    var r := mark + (body + rest);
    var q := FindChar(r, '\n', 0);
    assert forall i :: 0 <= i < |mark| ==> r[i] == mark[i];
    assert forall i :: 0 <= i < |body| ==> r[|mark| + i] == body[i];
    assert rest != "" ==> r[|mark| + |body|] == '\n';
  }

  /** Elsewhere `#` starts a name, under SQL Server, or stands for itself. */
  lemma HashReads(prev: char, w: string, ty: DatabaseType, rest: string)
    requires !IsMySqlLike(ty)
    requires (forall i :: 0 <= i < |w| ==> IsIdentByte(w[i]) || w[i] == '#')
    requires rest != "" ==> !IsIdentByte(rest[0]) && rest[0] != '#'
    ensures Munch(prev, "#" + (w + rest), DialectFor(ty))
         == if ty.MSSQL? then Plain(Word, 1 + |w|, "#" + w) else Plain(Op, 1, "#")
  {
    FlagsOf(ty);
    var r := "#" + (w + rest);
    RunIs(r, w, rest, WordRun(true));
    assert r[..1 + |w|] == "#" + w;
    hide DialectFor, FindChar, Quoted, BlockComment, TagToken, NumberEnd, RunEnd;
  }

  /** The run behind the first byte of a text. */
  lemma RunIs(r: string, w: string, rest: string, run: Run)
    requires |r| == 1 + |w| + |rest| && r[1..] == w + rest
    requires forall i :: 0 <= i < |w| ==> InRun(run, w[i])
    requires rest != "" ==> !InRun(run, rest[0])
    ensures RunEnd(r, 1, run) == 1 + |w|
  {
    assert forall i :: 1 <= i < |r| ==> r[i] == (w + rest)[i - 1];
    assert forall i :: 0 <= i < |w| ==> r[1 + i] == w[i];
    assert rest != "" ==> r[1 + |w|] == rest[0];
  }

  /** A block comment ends at the first mark behind its body, and nowhere without one. */
  lemma BlockCommentReads(prev: char, body: string, ty: DatabaseType, tail: string)
    requires tail == "" || "*/" <= tail
    requires forall i :: 0 <= i < |body| ==> !At(body + tail, "*/", i)
    ensures Munch(prev, "/*" + (body + tail), DialectFor(ty))
         == Token(Comment, 0, |body| + (if tail == "" then 2 else 4), tail != "", false, "")
  {
    BlockIs(body, tail);
    hide DialectFor, FindChar, Quoted, BlockComment, TagToken, NumberEnd, RunEnd, At;
  }

  lemma BlockIs(body: string, tail: string)
    requires tail == "" || "*/" <= tail
    requires forall i :: 0 <= i < |body| ==> !At(body + tail, "*/", i)
    ensures BlockComment("/*" + (body + tail))
         == Token(Comment, 0, |body| + (if tail == "" then 2 else 4), tail != "", false, "")
  {
    FindIs("/*", body, tail, "*/");
  }

  /** The first place of `p` behind `head` and `body` is where `tail` starts, if `tail` starts with it. */
  lemma FindIs(head: string, body: string, tail: string, p: string)
    requires p != "" && (tail == "" || p <= tail)
    requires forall i :: 0 <= i < |body| ==> !At(body + tail, p, i)
    ensures FindText(head + (body + tail), p, |head|) == if tail == "" then None else Some(|head| + |body|)
  {
    var r, more := head + (body + tail), body + tail;
    forall i | |head| <= i ensures At(r, p, i) <==> At(more, p, i - |head|) {
      if i + |p| <= |r| {
        assert r[i..i + |p|] == more[i - |head|..i - |head| + |p|];
      }
    }
    if tail != "" {
      assert more[|body|..|body| + |p|] == tail[..|p|] == p;
      assert At(more, p, |body|);
      assert At(r, p, |head| + |body|);
    }
  }

  // ---------- dollar quotes ----------

  predicate IsTag(tag: string) {
    && (tag == "" || IsIdentStart(tag[0]))
    && forall i :: 0 <= i < |tag| ==> IsIdentByte(tag[i]) && tag[i] != '$'
  }

  /** Under PostgreSQL and its kin, `$tag$` opens a string that the first such mark behind it closes. */
  lemma DollarQuoteReads(prev: char, tag: string, body: string, ty: DatabaseType, tail: string)
    requires HasDollarQuotes(ty) && IsTag(tag)
    requires var mark := "$" + (tag + "$");
             && (tail == "" || mark <= tail)
             && forall i :: 0 <= i < |body| ==> !At(body + tail, mark, i)
    ensures var mark := "$" + (tag + "$");
            Munch(prev, mark + (body + tail), DialectFor(ty))
            == Token(String, 0, |mark| + |body| + (if tail == "" then 0 else |mark|), tail != "", false, "")
  {
    FlagsOf(ty);
    TagIs(tag, body, tail);
    hide DialectFor, FindChar, Quoted, BlockComment, TagToken, NumberEnd, RunEnd, At;
    var r := "$" + (tag + "$") + (body + tail);
    assert r[0] == '$' && r[1] == (if tag == "" then '$' else tag[0]);
  }

  lemma TagIs(tag: string, body: string, tail: string)
    requires IsTag(tag)
    requires var mark := "$" + (tag + "$");
             && (tail == "" || mark <= tail)
             && forall i :: 0 <= i < |body| ==> !At(body + tail, mark, i)
    ensures var mark := "$" + (tag + "$");
            TagToken(mark + (body + tail))
            == Token(String, 0, |mark| + |body| + (if tail == "" then 0 else |mark|), tail != "", false, "")
  {
    var mark := "$" + (tag + "$");
    var r := mark + (body + tail);
    assert r[1..] == tag + ("$" + (body + tail));
    RunIs(r, tag, "$" + (body + tail), TagRun);
    assert r[1 + |tag|] == '$' && r[..|tag| + 2] == mark;
    FindIs(mark, body, tail, mark);
    hide RunEnd, FindText, At;
  }

  /** Elsewhere a dollar before no digit stands for itself, and so it does there when no dollar ends the tag. */
  lemma DollarStands(prev: char, rest: string, ty: DatabaseType)
    requires !HasDollarQuotes(ty) && (rest == "" || !IsDigit(rest[0]))
    ensures Munch(prev, "$" + rest, DialectFor(ty)) == Plain(Op, 1, "$")
  {
    FlagsOf(ty);
    assert rest != "" ==> ("$" + rest)[1] == rest[0];
    hide DialectFor, FindChar, Quoted, BlockComment, TagToken, NumberEnd, RunEnd;
  }

  lemma OpenTagStands(prev: char, tag: string, rest: string, ty: DatabaseType)
    requires IsTag(tag) && (rest == "" || !IsIdentByte(rest[0]))
    ensures Munch(prev, "$" + (tag + rest), DialectFor(ty)) == Plain(Op, 1, "$")
  {
    FlagsOf(ty);
    OpenTagIs(tag, rest);
    hide DialectFor, FindChar, Quoted, BlockComment, TagToken, NumberEnd, RunEnd, IsTag;
    assert tag == "" && rest != "" ==> ("$" + (tag + rest))[1] == rest[0];
  }

  lemma OpenTagIs(tag: string, rest: string)
    requires IsTag(tag) && (rest == "" || !IsIdentByte(rest[0]))
    ensures TagToken("$" + (tag + rest)) == Plain(Op, 1, "$")
    ensures tag != "" ==> ("$" + (tag + rest))[1] == tag[0] && IsIdentStart(tag[0]) && !IsDigit(tag[0])
  {
    var r := "$" + (tag + rest);
    assert r[1..] == tag + rest;
    RunIs(r, tag, rest, TagRun);
    assert 1 + |tag| < |r| ==> r[1 + |tag|] == rest[0];
  }

  // ---------- numbers ----------

  predicate IsNumberByte(c: char) {
    IsAlnum(c) || c == '_' || c == '.'
  }

  /** Digits, letters, underscores and dots: the body of a number without signs. */
  predicate Unsigned(w: string) {
    forall i :: 0 <= i < |w| ==> IsNumberByte(w[i])
  }

  /** The last byte may have a signed exponent behind it. */
  predicate EndsInE(w: string) {
    w != "" && (w[|w| - 1] == 'e' || w[|w| - 1] == 'E')
  }

  predicate IsSign(c: char) {
    c == '+' || c == '-'
  }

  /** Nothing that goes on with a number stands behind `w`. */
  predicate EndsNumber(w: string, rest: string) {
    && (rest != "" ==> !IsNumberByte(rest[0]))
    && (|rest| > 1 && IsSign(rest[0]) && IsDigit(rest[1]) ==> !EndsInE(w))
  }

  lemma {:induction false} NumberIs(r: string, k: nat, q: nat)
    requires 0 < k <= q <= |r|
    requires (forall i :: k <= i < q ==> ContinuesNumber(r, i)) && (q < |r| ==> !ContinuesNumber(r, q))
    ensures NumberEnd(r, k) == q
    decreases q - k
  {
    hide ContinuesNumber;
    if k < q {
      NumberIs(r, k + 1, q);
    }
  }

  lemma UnsignedIs(w: string, rest: string)
    requires w != "" && Unsigned(w) && EndsNumber(w, rest)
    ensures NumberEnd(w + rest, 1) == |w|
  {
    var r := w + rest;
    assert forall i :: 0 <= i < |w| ==> r[i] == w[i];
    assert rest != "" ==> r[|w|] == rest[0];
    assert |rest| > 1 ==> r[|w| + 1] == rest[1];
    NumberIs(r, 1, |w|);
  }

  /** A digit starts a number, which goes on over digits, letters, underscores and dots. */
  lemma NumberReads(prev: char, w: string, ty: DatabaseType, rest: string)
    requires w != "" && IsDigit(w[0]) && Unsigned(w) && EndsNumber(w, rest)
    ensures Munch(prev, w + rest, DialectFor(ty)) == Plain(Number, |w|, "")
  {
    UnsignedIs(w, rest);
    assert (w + rest)[0] == w[0];
    hide DialectFor, FindChar, Quoted, BlockComment, TagToken, NumberEnd, RunEnd, Unsigned, EndsNumber;
  }

  /** A sign behind an E goes on with the number when a digit follows. */
  lemma ExponentReads(prev: char, w: string, sign: char, x: string, ty: DatabaseType, rest: string)
    requires w != "" && IsDigit(w[0]) && Unsigned(w) && EndsInE(w) && IsSign(sign)
    requires x != "" && IsDigit(x[0]) && Unsigned(x) && EndsNumber(x, rest)
    ensures Munch(prev, w + ([sign] + (x + rest)), DialectFor(ty)) == Plain(Number, |w| + 1 + |x|, "")
  {
    var r := w + ([sign] + (x + rest));
    ExponentIs(w, sign, x, rest);
    assert r[0] == w[0];
    hide DialectFor, FindChar, Quoted, BlockComment, TagToken, NumberEnd, RunEnd, Unsigned, EndsNumber, EndsInE;
  }

  lemma ExponentIs(w: string, sign: char, x: string, rest: string)
    requires w != "" && Unsigned(w) && EndsInE(w) && IsSign(sign)
    requires x != "" && IsDigit(x[0]) && Unsigned(x) && EndsNumber(x, rest)
    ensures NumberEnd(w + ([sign] + (x + rest)), 1) == |w| + 1 + |x|
  {
    var r, n := w + ([sign] + (x + rest)), |w| + 1;
    forall i | 1 <= i < n + |x| ensures ContinuesNumber(r, i) {
      ExponentGoesOn(w, sign, x, rest, i);
    }
    ExponentStops(w, sign, x, rest);
    hide ContinuesNumber, Unsigned, EndsNumber, EndsInE;
    NumberIs(r, 1, n + |x|);
  }

  lemma ExponentGoesOn(w: string, sign: char, x: string, rest: string, i: nat)
    requires w != "" && Unsigned(w) && EndsInE(w) && IsSign(sign)
    requires x != "" && IsDigit(x[0]) && Unsigned(x) && 0 < i <= |w| + |x|
    ensures ContinuesNumber(w + ([sign] + (x + rest)), i)
  {
    var r := w + ([sign] + (x + rest));
    if i < |w| {
      assert r[i] == w[i];
    } else if i == |w| {
      assert r[i] == sign && r[i - 1] == w[i - 1] && r[i + 1] == x[0];
    } else {
      assert r[i] == x[i - |w| - 1];
    }
  }

  lemma ExponentStops(w: string, sign: char, x: string, rest: string)
    requires x != "" && EndsNumber(x, rest)
    ensures var r, n := w + ([sign] + (x + rest)), |w| + 1 + |x|;
            n < |r| ==> !ContinuesNumber(r, n)
  {
    var r, n := w + ([sign] + (x + rest)), |w| + 1 + |x|;
    if rest != "" {
      assert r[n] == rest[0] && r[n - 1] == x[|x| - 1];
      assert |rest| > 1 ==> r[n + 1] == rest[1];
    }
  }

  /** A dot before a digit starts a number, but behind an operand it is a dot. */
  lemma LeadingDotReads(prev: char, w: string, ty: DatabaseType, rest: string)
    requires w != "" && IsDigit(w[0]) && Unsigned(w) && EndsNumber(w, rest)
    ensures Munch(prev, "." + (w + rest), DialectFor(ty))
         == if EndsOperand(prev) then Plain(Punct, 1, ".") else Plain(Number, 1 + |w|, "")
  {
    var r := "." + (w + rest);
    assert "." + w + rest == r;
    assert Unsigned("." + w) && EndsNumber("." + w, rest);
    UnsignedIs("." + w, rest);
    assert r[0] == '.' && r[1] == w[0];
    hide DialectFor, FindChar, Quoted, BlockComment, TagToken, NumberEnd, RunEnd, Unsigned, EndsNumber;
  }

  // ---------- words, parameters and the rest ----------

  /** A letter, an underscore or a byte above 0x7f starts a word, which goes on over these, digits and dollars. */
  lemma WordRuns(prev: char, w: string, ty: DatabaseType, rest: string)
    requires w != "" && IsIdentStart(w[0])
    requires forall i :: 0 <= i < |w| ==> IsIdentByte(w[i]) || (ty.MSSQL? && w[i] == '#')
    requires rest != "" ==> !IsIdentByte(rest[0]) && !(ty.MSSQL? && rest[0] == '#')
    ensures Munch(prev, w + rest, DialectFor(ty)) == Plain(Word, |w|, w)
  {
    FlagsOf(ty);
    var r := w + rest;
    assert r[1..] == w[1..] + rest && r[0] == w[0];
    RunIs(r, w[1..], rest, WordRun(ty.MSSQL?));
    assert r[..|w|] == w;
    hide DialectFor, FindChar, Quoted, BlockComment, TagToken, NumberEnd, RunEnd;
  }

  predicate IsParamText(w: string) {
    forall i :: 0 <= i < |w| ==> IsIdentByte(w[i]) || w[i] == '@'
  }

  /** `@` and `?` start a parameter; so do a dollar before a digit and a single colon before a name. */
  predicate StartsParamAt(prev: char, c: char, w: string) {
    || c == '@' || c == '?'
    || (c == ':' && w != "" && IsIdentStart(w[0]) && prev != ':')
    || (c == '$' && w != "" && IsDigit(w[0]))
  }

  lemma ParamReads(prev: char, c: char, w: string, ty: DatabaseType, rest: string)
    requires StartsParamAt(prev, c, w) && IsParamText(w)
    requires rest != "" ==> !IsIdentByte(rest[0]) && rest[0] != '@'
    ensures Munch(prev, [c] + (w + rest), DialectFor(ty)) == Plain(Param, 1 + |w|, "")
  {
    var r := [c] + (w + rest);
    assert r[1..] == w + rest && (w != "" ==> r[1] == w[0]);
    RunIs(r, w, rest, ParamRun);
    hide DialectFor, FindChar, Quoted, BlockComment, TagToken, NumberEnd, RunEnd, IsParamText;
  }

  /** Behind a colon, as in a cast, and before anything but a name, a colon stands for itself. */
  lemma ColonStands(prev: char, rest: string, ty: DatabaseType)
    requires prev == ':' || rest == "" || !IsIdentStart(rest[0])
    ensures Munch(prev, ":" + rest, DialectFor(ty)) == Plain(Op, 1, ":")
  {
    assert rest != "" ==> (":" + rest)[1] == rest[0];
    hide DialectFor, FindChar, Quoted, BlockComment, TagToken, NumberEnd, RunEnd;
  }

  /** The bytes that have no other use in any dialect. */
  predicate IsOperator(c: char) {
    c == '=' || c == '<' || c == '>' || c == '+' || c == '*' || c == '%' || c == '!' || c == '|' || c == '&' || c == '^'
    || c == '~' || c == ']' || c == '{' || c == '}' || c == '\\'
  }

  /** An operator is a token of one byte; so are a dash and a slash that start no comment. */
  lemma OperatorReads(prev: char, c: char, rest: string, ty: DatabaseType)
    requires IsOperator(c) || (c == '-' && !("-" <= rest)) || (c == '/' && !("*" <= rest))
    ensures Munch(prev, [c] + rest, DialectFor(ty)) == Plain(Op, 1, [c])
  {
    StartsNothing(prev, c, rest, DialectFor(ty));
    hide DialectFor, FindChar, Quoted, BlockComment, TagToken, NumberEnd, RunEnd, IsOperator, StartsLineComment,
      StartsTag, StartsNumber, StartsParam, IsIdentStart, IsPunctByte, Next;
  }

  lemma StartsNothing(prev: char, c: char, rest: string, d: Dialect)
    requires IsOperator(c) || (c == '-' && !("-" <= rest)) || (c == '/' && !("*" <= rest))
    ensures var r := [c] + rest;
            && !StartsLineComment(r, d) && !StartsTag(r, d) && !StartsNumber(prev, r) && !StartsParam(prev, r)
            && !IsIdentStart(c) && !IsPunctByte(c) && c != '#' && c != '\'' && c != '"' && c != '`' && c != '['
            && !(c == '/' && Next(r) == '*')
  {
    assert rest != "" ==> ([c] + rest)[1] == rest[0];
    hide EndsOperand;
  }

  /** Parentheses, commas and semicolons are tokens of one byte, and so is a dot before no digit. */
  lemma PunctuationReads(prev: char, c: char, rest: string, ty: DatabaseType)
    requires c == '(' || c == ')' || c == ',' || c == ';' || (c == '.' && (rest == "" || !IsDigit(rest[0])))
    ensures Munch(prev, [c] + rest, DialectFor(ty)) == Plain(Punct, 1, [c])
  {
    assert rest != "" ==> ([c] + rest)[1] == rest[0];
    hide DialectFor, FindChar, Quoted, BlockComment, TagToken, NumberEnd, RunEnd;
  }
}
