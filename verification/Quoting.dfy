/** Dialect quoting of names, and its reading back by the tokenizer. */
module Quoting {
  import opened Text
  import opened Lexer
  import opened LexTheorems

  // ---------- quoting ----------

  /** `n` with every closing quote doubled. */
  function Escape(n: string, close: char): string {
    if n == "" then ""
    else (if n[0] == close then [close, close] else [n[0]]) + Escape(n[1..], close)
  }

  datatype Quotes = Quotes(open: char, close: char)

  /** The quotes of the SQL builder that `createSQLBuilder` picks. */
  function QuotesFor(ty: DatabaseType): Quotes {
    match ty
    case MYSQL | MARIADB | TIDB => Quotes('`', '`')
    case MSSQL => Quotes('[', ']')
    case _ => Quotes('"', '"')
  }

  function QuotedName(n: string, q: Quotes): string {
    [q.open] + Escape(n, q.close) + [q.close]
  }

  lemma {:induction false} EscapeSnoc(n: string, c: char, close: char)
    ensures Escape(n + [c], close) == Escape(n, close) + (if c == close then [close, close] else [c])
  {
    if n == "" {
      assert n + [c] == [c];
    } else {
      assert (n + [c])[1..] == n[1..] + [c];
      EscapeSnoc(n[1..], c, close);
    }
  }

  method QuoteIdentifier(n: string, ty: DatabaseType) returns (result: string)
    ensures result == QuotedName(n, QuotesFor(ty))
  {
    var q := QuotesFor(ty);
    result := [q.open];
    for i := 0 to |n|
      invariant result == [q.open] + Escape(n[..i], q.close)
    {
      assert n[..i + 1] == n[..i] + [n[i]];
      EscapeSnoc(n[..i], n[i], q.close);
      if n[i] == q.close {
        result := result + [q.close, q.close];
      } else {
        result := result + [n[i]];
      }
    }
    assert n[..|n|] == n;
    result := result + [q.close];
  }

  predicate FoldsLower(ty: DatabaseType) {
    ty.POSTGRESQL? || ty.REDSHIFT? || ty.COCKROACHDB? || ty.CASSANDRA?
  }

  predicate FoldsUpper(ty: DatabaseType) {
    ty.ORACLE?
  }

  predicate PlainByte(c: char, ty: DatabaseType) {
    && (IsAlnum(c) || c == '_' || c >= '\U{0080}')
    && !(FoldsLower(ty) && IsUpper(c)) && !(FoldsUpper(ty) && IsLower(c))
  }

  /** Must `n` be quoted to be read back as written? `reserved` is the table of reserved words. */
  predicate NeedsQuoting(n: string, ty: DatabaseType, reserved: set<string>) {
    || n == "" || !IsIdentStart(n[0])
    || (exists i :: 0 <= i < |n| && !PlainByte(n[i], ty))
    || Upper(n) in reserved
  }

  /** A name as the completer inserts it: quoted when `always`, else only when needed. */
  function NameText(n: string, ty: DatabaseType, reserved: set<string>, always: bool): string {
    if always || NeedsQuoting(n, ty, reserved) then QuotedName(n, QuotesFor(ty)) else n
  }

  // ---------- reading a name back ----------

  lemma StripFront(r: string, j: nat, front: string, tail: string)
    requires j <= |r| && r[j..] == front + tail
    ensures j + |front| <= |r| && r[j + |front|..] == tail
    ensures front != "" ==> r[j] == front[0]
    ensures |front| > 1 ==> r[j + 1] == front[1]
  {
    assert r[j..][|front|..] == r[j + |front|..];
    assert front != "" ==> r[j..][0] == front[0];
    assert |front| > 1 ==> r[j..][1] == front[1];
  }

  lemma {:induction false} ScanEscaped(r: string, j: nat, n: string, close: char, rest: string)
    requires j <= |r| && r[j..] == Escape(n, close) + ([close] + rest)
    requires rest != "" ==> rest[0] != close
    ensures ScanQuoted(r, j, close, false) == Scan(|r| - |rest|, true, n)
    decreases |n|
  {
    hide Escape, ScanQuoted;
    EscapeStep(n, close);
    var tail := [close] + rest;
    if n == "" {
      assert r[j..] == tail;
      StripFront(r, j, [close], rest);
      assert rest != "" ==> r[j + 1..][0] == r[j + 1];
      ClosingStep(r, j, close);
    } else {
      var front := if n[0] == close then [close, close] else [n[0]];
      var more := Escape(n[1..], close);
      Assoc(front, more, tail);
      StripFront(r, j, front, more + tail);
      ScanEscaped(r, j + |front|, n[1..], close, rest);
      assert [n[0]] + n[1..] == n;
      EscapedStep(r, j, n[0], close);
    }
  }

  lemma EscapeStep(n: string, close: char)
    ensures n == "" ==> Escape(n, close) == ""
    ensures n != "" ==> Escape(n, close) == (if n[0] == close then [close, close] else [n[0]]) + Escape(n[1..], close)
  {
  }

  lemma ClosingStep(r: string, j: nat, close: char)
    requires j < |r| && r[j] == close && (j + 1 < |r| ==> r[j + 1] != close)
    ensures ScanQuoted(r, j, close, false) == Scan(j + 1, true, "")
  {
  }

  /** One step of the scanner over an escaped byte. */
  lemma EscapedStep(r: string, j: nat, c: char, close: char)
    requires j < |r| && r[j] == c && (c == close ==> j + 1 < |r| && r[j + 1] == close)
    ensures var q := ScanQuoted(r, if c == close then j + 2 else j + 1, close, false);
            ScanQuoted(r, j, close, false) == q.(text := [c] + q.text)
  {
  }

  /** What may follow a name for it to end there. */
  predicate EndsName(rest: string) {
    rest == "" || Breaks(rest[0])
  }

  function NameToken(n: string, ty: DatabaseType, reserved: set<string>, always: bool): Token {
    Token(if always || NeedsQuoting(n, ty, reserved) then QuotedIdent else Word,
          0, |NameText(n, ty, reserved, always)|, true, false, n)
  }

  /** A quoted name reads back before anything but another closing quote, which would go on with it. */
  lemma QuotedNameReads(prev: char, n: string, ty: DatabaseType, rest: string)
    requires rest != "" ==> rest[0] != QuotesFor(ty).close
    ensures var r := QuotedName(n, QuotesFor(ty)) + rest;
            !IsSpace(r[0])
              && Munch(prev, r, DialectFor(ty)) == Token(QuotedIdent, 0, |QuotedName(n, QuotesFor(ty))|, true, false, n)
  {
    var q := QuotesFor(ty);
    var r := QuotedName(n, q) + rest;
    assert r[1..] == Escape(n, q.close) + ([q.close] + rest);
    ScanEscaped(r, 1, n, q.close, rest);
    hide ScanQuoted, FindText, FindChar, TagToken, NumberEnd, RunEnd;
  }

  /** A word of letters, digits and underscores, as keywords are too. */
  predicate IsPlainWord(n: string) {
    n != "" && IsIdentStart(n[0]) && forall i :: 0 <= i < |n| ==> IsAlnum(n[i]) || n[i] == '_' || n[i] >= '\U{0080}'
  }

  lemma WordReads(prev: char, n: string, d: Dialect, rest: string)
    requires EndsName(rest) && IsPlainWord(n)
    ensures var r := n + rest;
            !IsSpace(r[0]) && Munch(prev, r, d) == Token(Word, 0, |n|, true, false, n)
  {
    var r := n + rest;
    var run := WordRun(d.hashIdent);
    forall i | 0 <= i < |n| ensures InRun(run, r[i]) {
      assert r[i] == n[i];
    }
    RunEndIs(r, 1, run, |n|);
    assert r[..|n|] == n;
    hide ScanQuoted, FindText, FindChar, TagToken, NumberEnd, RunEnd, IsPlainWord;
  }

  /** Such a word alone is one token. */
  lemma PlainWordLexes(kw: string, d: Dialect)
    requires IsPlainWord(kw)
    ensures Tokens(kw, d) == [Token(Word, 0, |kw|, true, false, kw)]
  {
    hide Munch, Lex;
    WordReads(' ', kw, d, "");
    assert kw + "" == kw;
    LexStep(' ', kw, d, 0);
    LexStep(kw[|kw| - 1], kw[|kw|..], d, |kw|);
  }

  lemma UnquotedIsPlain(n: string, ty: DatabaseType, reserved: set<string>)
    requires !NeedsQuoting(n, ty, reserved)
    ensures IsPlainWord(n)
  {
    forall i | 0 <= i < |n| ensures IsAlnum(n[i]) || n[i] == '_' || n[i] >= '\U{0080}' {
      assert PlainByte(n[i], ty);
    }
  }

  lemma {:induction false} RunEndIs(r: string, k: nat, run: Run, q: nat)
    requires k <= q <= |r| && (forall i :: k <= i < q ==> InRun(run, r[i])) && (q < |r| ==> !InRun(run, r[q]))
    ensures RunEnd(r, k, run) == q
    decreases q - k
  {
    if k < q {
      RunEndIs(r, k + 1, run, q);
    }
  }

  /** A name as inserted reads back, alone or before punctuation or whitespace, as one closed identifier spelling it. */
  lemma NameReads(prev: char, n: string, ty: DatabaseType, reserved: set<string>, always: bool, rest: string)
    requires EndsName(rest)
    ensures var r := NameText(n, ty, reserved, always) + rest;
            && !IsSpace(r[0])
            && Munch(prev, r, DialectFor(ty)) == NameToken(n, ty, reserved, always)
  {
    if always || NeedsQuoting(n, ty, reserved) {
      QuotedNameReads(prev, n, ty, rest);
    } else {
      UnquotedIsPlain(n, ty, reserved);
      WordReads(prev, n, DialectFor(ty), rest);
    }
  }

  /** `quoteIdentifierIfNeeded`, read back alone. */
  lemma QuoteAndReadBack(n: string, ty: DatabaseType, reserved: set<string>, always: bool)
    ensures Tokens(NameText(n, ty, reserved, always), DialectFor(ty)) == [NameToken(n, ty, reserved, always)]
  {
    var text := NameText(n, ty, reserved, always);
    NameReads(' ', n, ty, reserved, always, "");
    assert text + "" == text;
    hide Munch, Lex, NameText;
    LexStep(' ', text, DialectFor(ty), 0);
    LexStep(text[|text| - 1], text[|text|..], DialectFor(ty), |text|);
  }

  /** What the server takes an unquoted word for. */
  function Folded(n: string, ty: DatabaseType): string {
    match ty
    case POSTGRESQL | REDSHIFT | COCKROACHDB | CASSANDRA => Lower(n)
    case ORACLE => Upper(n)
    case _ => n
  }

  lemma {:induction false} EscapeLength(n: string, close: char)
    ensures |Escape(n, close)| >= |n|
    decreases |n|
  {
    if n != "" {
      EscapeLength(n[1..], close);
    }
  }

  /** A name stays bare exactly when, bare, it is a word that the server leaves as it is and does not reserve. */
  lemma BareSurvives(n: string, ty: DatabaseType, reserved: set<string>)
    ensures NameText(n, ty, reserved, false) == n <==>
            IsPlainWord(n) && Folded(n, ty) == n && Upper(n) !in reserved
  {
    EscapeLength(n, QuotesFor(ty).close);
    PlainBytesStay(n, ty);
    hide Escape, PlainByte, Folded, Upper;
  }

  lemma PlainBytesStay(n: string, ty: DatabaseType)
    ensures (forall i :: 0 <= i < |n| ==> PlainByte(n[i], ty)) <==>
            (forall i :: 0 <= i < |n| ==> IsAlnum(n[i]) || n[i] == '_' || n[i] >= '\U{0080}') && Folded(n, ty) == n
  {
    assert Folded(n, ty) == n <==> forall i :: 0 <= i < |n| ==> Folded(n, ty)[i] == n[i];
  }

  /** The quotes that stand around a name are those of its system. */
  lemma QuotesAreTheSystems(n: string, ty: DatabaseType, reserved: set<string>)
    ensures var text := NameText(n, ty, reserved, true);
            && |text| >= 2
            && text[0] == (if ty.MSSQL? then '[' else if ty.MYSQL? || ty.MARIADB? || ty.TIDB? then '`' else '"')
            && text[|text| - 1] == (if ty.MSSQL? then ']' else text[0])
  {
    hide Escape;
  }

  // ---------- dotted paths ----------

  /** Names joined by dots. */
  function PathText(path: seq<string>, ty: DatabaseType, reserved: set<string>, always: bool): string
    requires path != []
  {
    if |path| == 1 then NameText(path[0], ty, reserved, always)
    else NameText(path[0], ty, reserved, always) + ("." + PathText(path[1..], ty, reserved, always))
  }

  predicate IsIdent(t: Token) {
    t.kind.Word? || t.kind.QuotedIdent?
  }

  predicate IsDot(t: Token) {
    t.kind.Punct? && t.text == "."
  }

  /** The path at the front of a token list: an identifier, then dots and identifiers as long as they last. */
  function ReadPath(ts: seq<Token>): seq<string> {
    if ts == [] || !IsIdent(ts[0]) then []
    else if |ts| >= 3 && IsDot(ts[1]) && IsIdent(ts[2]) then [ts[0].text] + ReadPath(ts[2..])
    else [ts[0].text]
  }

  predicate AllClosed(ts: seq<Token>) {
    forall t :: t in ts ==> t.closed && !t.kind.Comment? && !t.lineComment
  }

  predicate NoNumbers(ts: seq<Token>) {
    forall t :: t in ts ==> !t.kind.Number?
  }

  lemma ClosedCons(t: Token, ts: seq<Token>)
    requires t.closed && !t.kind.Comment? && !t.lineComment && AllClosed(ts)
    requires !t.kind.Number? && NoNumbers(ts)
    ensures AllClosed([t] + ts) && NoNumbers([t] + ts)
  {
  }

  /** A byte a name may start with, and no other token but a name, an operator or a quote. */
  predicate StartsName(c: char) {
    !IsDigit(c) && !IsSpace(c) && c != '.' && c != ':'
  }

  /** A dot before a name that is written as the completer writes it is a qualifier dot. */
  lemma DotReads(prev: char, r: string, d: Dialect)
    requires |r| >= 2 && r[0] == '.' && !IsDigit(r[1])
    ensures !IsSpace(r[0]) && Munch(prev, r, d) == Token(Punct, 0, 1, true, false, ".")
  {
  }

  lemma NameStart(n: string, ty: DatabaseType, reserved: set<string>, always: bool)
    ensures var text := NameText(n, ty, reserved, always);
            text != "" && StartsName(text[0]) && EndsOperand(text[|text| - 1])
  {
    hide Escape;
    if !always && !NeedsQuoting(n, ty, reserved) {
      assert PlainByte(n[|n| - 1], ty);
    }
  }

  lemma {:induction false} PathStart(path: seq<string>, ty: DatabaseType, reserved: set<string>, always: bool)
    requires path != []
    ensures var p := PathText(path, ty, reserved, always);
            p != "" && StartsName(p[0]) && EndsOperand(p[|p| - 1])
    decreases |path|
  {
    NameStart(path[0], ty, reserved, always);
    hide NameText;
    if |path| > 1 {
      PathStart(path[1..], ty, reserved, always);
    }
  }

  /** The tokens `ts` spell the path `path` and nothing else, every token closed. */
  predicate Spells(ts: seq<Token>, path: seq<string>) {
    |ts| == 2 * |path| - 1 && |ts| > 0 && IsIdent(ts[0]) && ReadPath(ts) == path && AllClosed(ts)
    && NoNumbers(ts)
  }

  /** A path as inserted reads back as its names, in identifiers that are all closed. */
  lemma {:induction false} PathReads(prev: char, path: seq<string>, ty: DatabaseType, reserved: set<string>,
      always: bool, base: nat)
    requires path != []
    ensures Spells(Lex(prev, PathText(path, ty, reserved, always), DialectFor(ty), base), path)
    decreases |path|
  {
    hide Munch, Lex, NameText, Spells;
    if |path| == 1 {
      LastNameReads(prev, path[0], ty, reserved, always, base);
      assert [path[0]] == path;
    } else {
      var k := base + |NameText(path[0], ty, reserved, always)|;
      var more := PathText(path[1..], ty, reserved, always);
      PathStart(path[1..], ty, reserved, always);
      PathReads('.', path[1..], ty, reserved, always, k + 1);
      PathStep(prev, path[0], more, ty, reserved, always, base);
      PathTokens(Shift(NameToken(path[0], ty, reserved, always), base), Shift(Dot(), k),
                 Lex('.', more, DialectFor(ty), k + 1), path);
    }
  }

  lemma LastNameReads(prev: char, n: string, ty: DatabaseType, reserved: set<string>, always: bool, base: nat)
    ensures Spells(Lex(prev, NameText(n, ty, reserved, always), DialectFor(ty), base), [n])
  {
    hide Munch, Lex, NameText;
    var text := NameText(n, ty, reserved, always);
    NameReads(prev, n, ty, reserved, always, "");
    assert text + "" == text;
    LexStep(prev, text, DialectFor(ty), base);
    LexStep(text[|text| - 1], text[|text|..], DialectFor(ty), base + |text|);
  }

  function Dot(): Token {
    Token(Punct, 0, 1, true, false, ".")
  }

  /** A name and its dot, in front of a text that starts a name. */
  lemma PathStep(prev: char, n: string, more: string, ty: DatabaseType, reserved: set<string>, always: bool, base: nat)
    requires more != "" && !IsDigit(more[0])
    ensures var name := NameText(n, ty, reserved, always);
            Lex(prev, name + ("." + more), DialectFor(ty), base)
            == [Shift(NameToken(n, ty, reserved, always), base)]
               + ([Shift(Dot(), base + |name|)] + Lex('.', more, DialectFor(ty), base + |name| + 1))
  {
    hide Munch, Lex, NameText;
    var d := DialectFor(ty);
    var name := NameText(n, ty, reserved, always);
    var tail := "." + more;
    NameReads(prev, n, ty, reserved, always, tail);
    LexStep(prev, name + tail, d, base);
    assert (name + tail)[|name|..] == tail;
    DotReads((name + tail)[|name| - 1], tail, d);
    LexStep((name + tail)[|name| - 1], tail, d, base + |name|);
    assert tail[1..] == more;
  }

  lemma PathTokens(name: Token, dot: Token, rest: seq<Token>, path: seq<string>)
    requires path != [] && IsIdent(name) && IsDot(dot) && Spells(rest, path[1..])
    requires name.text == path[0] && name.closed && dot.closed && !name.lineComment && !dot.lineComment
    ensures Spells([name] + ([dot] + rest), path)
  {
    var ts := [name] + ([dot] + rest);
    assert ts[2..] == rest;
    ClosedCons(dot, rest);
    ClosedCons(name, [dot] + rest);
  }
}
