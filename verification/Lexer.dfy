/**
 The tokenizer of the SQL front end: `Munch` reads one token off the front of a
 text and `Lex` reads them all.
 */
module Lexer {
  import opened Wrappers
  import opened Text

  datatype DatabaseType =
    | SQLITE | POSTGRESQL | MYSQL | MARIADB | REDIS | MONGODB | MSSQL | ORACLE
    | REDSHIFT | CASSANDRA | DUCKDB | TIDB | COCKROACHDB | S3

  datatype Dialect = Dialect(
    backtickIdent: bool,
    bracketIdent: bool,
    doubleQuoteIdent: bool,
    dollarQuote: bool,
    hashComment: bool,
    backslashEscape: bool,
    hashIdent: bool)

  function DialectFor(ty: DatabaseType): Dialect {
    var plain := Dialect(false, false, true, false, false, false, false);
    match ty
    case MYSQL | MARIADB | TIDB =>
      plain.(backtickIdent := true, doubleQuoteIdent := false, hashComment := true, backslashEscape := true)
    case SQLITE => plain.(backtickIdent := true, bracketIdent := true)
    case MSSQL => plain.(bracketIdent := true, hashIdent := true)
    case POSTGRESQL | REDSHIFT | COCKROACHDB | DUCKDB | CASSANDRA => plain.(dollarQuote := true)
    case _ => plain
  }

  datatype Kind = Word | QuotedIdent | String | Number | Comment | Param | Punct | Op

  datatype Token = Token(kind: Kind, begin: nat, end: nat, closed: bool, lineComment: bool, text: string)

  /** The token moved `n` bytes to the right. */
  function Shift(t: Token, n: nat): Token {
    t.(begin := t.begin + n, end := t.end + n)
  }

  // ---------- scanners ----------

  /** The first `c` at or after `from`, or the end of the text. */
  function FindChar(r: string, c: char, from: nat): (q: nat)
    requires from <= |r|
    ensures from <= q <= |r|
    ensures q < |r| ==> r[q] == c
    ensures forall i :: from <= i < q ==> r[i] != c
    decreases |r| - from
  {
    if from == |r| || r[from] == c then from else FindChar(r, c, from + 1)
  }

  predicate At(r: string, p: string, i: nat) {
    i + |p| <= |r| && r[i..i + |p|] == p
  }

  /** The first occurrence of `p` at or after `from`. */
  function FindText(r: string, p: string, from: nat): (q: Option<nat>)
    ensures q.Some? ==> from <= q.value && At(r, p, q.value)
    ensures forall i :: from <= i && At(r, p, i) ==> q.Some? && q.value <= i
    decreases |r| - from
  {
    if from + |p| > |r| then None
    else if At(r, p, from) then Some(from)
    else FindText(r, p, from + 1)
  }

  datatype Scan = Scan(end: nat, closed: bool, text: string)

  /** From inside a quote at `j`: where the quote ends, whether it is closed, and the text it holds. */
  function ScanQuoted(r: string, j: nat, close: char, backslash: bool): (q: Scan)
    requires j <= |r|
    ensures j <= q.end <= |r|
    ensures q.closed ==> j < q.end && r[q.end - 1] == close
    ensures !q.closed ==> q.end == |r|
    decreases |r| - j
  {
    if j == |r| then Scan(j, false, "")
    else if backslash && r[j] == '\\' && j + 1 < |r| then
      var q := ScanQuoted(r, j + 2, close, backslash);
      q.(text := [r[j + 1]] + q.text)
    else if r[j] == close then
      if j + 1 < |r| && r[j + 1] == close then
        var q := ScanQuoted(r, j + 2, close, backslash);
        q.(text := [close] + q.text)
      else Scan(j + 1, true, "")
    else
      var q := ScanQuoted(r, j + 1, close, backslash);
      q.(text := [r[j]] + q.text)
  }

  datatype Run = TagRun | WordRun(hash: bool) | ParamRun

  predicate InRun(run: Run, c: char) {
    match run
    case TagRun => c != '$' && IsIdentByte(c)
    case WordRun(hash) => IsIdentByte(c) || (hash && c == '#')
    case ParamRun => c == '@' || IsIdentByte(c)
  }

  /** The end of the run of bytes of one class that starts at `k`. */
  function RunEnd(r: string, k: nat, run: Run): (q: nat)
    requires k <= |r|
    ensures k <= q <= |r|
    ensures q < |r| ==> !InRun(run, r[q])
    ensures forall i :: k <= i < q ==> InRun(run, r[i])
    decreases |r| - k
  {
    if k < |r| && InRun(run, r[k]) then RunEnd(r, k + 1, run) else k
  }

  /** Does the byte at `k` continue a number? A sign does, after an exponent and before a digit. */
  predicate ContinuesNumber(r: string, k: nat)
    requires 0 < k < |r|
  {
    || IsAlnum(r[k]) || r[k] == '_' || r[k] == '.'
    || ((r[k] == '+' || r[k] == '-') && (r[k - 1] == 'e' || r[k - 1] == 'E') && k + 1 < |r| && IsDigit(r[k + 1]))
  }

  function NumberEnd(r: string, k: nat): (q: nat)
    requires 0 < k <= |r|
    ensures k <= q <= |r|
    ensures forall i :: k <= i < q ==> ContinuesNumber(r, i)
    ensures q < |r| ==> !ContinuesNumber(r, q)
    decreases |r| - k
  {
    if k < |r| && ContinuesNumber(r, k) then NumberEnd(r, k + 1) else k
  }

  // ---------- one token ----------

  /** The byte after the first one, NUL at the end of the text. */
  function Next(r: string): char {
    if |r| > 1 then r[1] else '\0'
  }

  /** A byte that, right before a `.`, makes the dot a qualifier rather than the start of a number. */
  predicate EndsOperand(prev: char) {
    IsIdentByte(prev) || prev == '"' || prev == '`' || prev == ']' || prev == ')'
  }

  predicate StartsLineComment(r: string, d: Dialect)
    requires r != []
  {
    (r[0] == '-' && Next(r) == '-') || (r[0] == '#' && d.hashComment)
  }

  predicate StartsTag(r: string, d: Dialect)
    requires r != []
  {
    r[0] == '$' && d.dollarQuote && (Next(r) == '$' || IsIdentStart(Next(r)))
  }

  predicate StartsNumber(prev: char, r: string)
    requires r != []
  {
    IsDigit(r[0]) || (r[0] == '.' && IsDigit(Next(r)) && !EndsOperand(prev))
  }

  predicate StartsParam(prev: char, r: string)
    requires r != []
  {
    || r[0] == '@' || r[0] == '?'
    || (r[0] == ':' && IsIdentStart(Next(r)) && prev != ':')
    || (r[0] == '$' && IsDigit(Next(r)))
  }

  predicate IsPunctByte(c: char) {
    c == '(' || c == ')' || c == ',' || c == ';' || c == '.'
  }

  /** Whitespace or punctuation: no token but a number, at a `.`, goes on into it. */
  predicate Breaks(c: char) {
    IsSpace(c) || IsPunctByte(c)
  }

  function Plain(kind: Kind, end: nat, text: string): Token {
    Token(kind, 0, end, true, false, text)
  }

  function Quoted(kind: Kind, r: string, close: char, backslash: bool): Token
    requires r != []
  {
    var q := ScanQuoted(r, 1, close, backslash);
    Token(kind, 0, q.end, q.closed, false, q.text)
  }

  function BlockComment(r: string): Token {
    match FindText(r, "*/", 2)
    case Some(e) => Token(Comment, 0, e + 2, true, false, "")
    case None => Token(Comment, 0, |r|, false, false, "")
  }

  /** `$tag$ ... $tag$`, or a lone `$` when no second `$` ends the tag. */
  function TagToken(r: string): Token
    requires r != []
  {
    var k := RunEnd(r, 1, TagRun);
    if k < |r| && r[k] == '$' then
      match FindText(r, r[..k + 1], k + 1)
      case Some(e) => Token(String, 0, e + (k + 1), true, false, "")
      case None => Token(String, 0, |r|, false, false, "")
    else Plain(Op, 1, "$")
  }

  /** The token at the front of `r`, when the byte before it is `prev`. */
  function Munch(prev: char, r: string, d: Dialect): (t: Token)
    requires r != [] && !IsSpace(r[0])
    ensures t.begin == 0 && 0 < t.end <= |r|
    ensures !t.closed ==> t.end == |r|
    ensures t.lineComment ==> t.kind == Comment && t.closed && (t.end < |r| ==> r[t.end] == '\n')
    ensures t.kind.Op? ==> t.end == 1
    ensures t.kind.Punct? ==> t.end == 1 && t.text == [r[0]] && IsPunctByte(r[0])
  {
    var c := r[0];
    if StartsLineComment(r, d) then Token(Comment, 0, FindChar(r, '\n', 0), true, true, "")
    else if c == '/' && Next(r) == '*' then BlockComment(r)
    else if c == '\'' then Quoted(String, r, '\'', d.backslashEscape)
    else if c == '"' then
      Quoted(if d.doubleQuoteIdent then QuotedIdent else String, r, '"', !d.doubleQuoteIdent && d.backslashEscape)
    else if c == '`' && d.backtickIdent then Quoted(QuotedIdent, r, '`', false)
    else if c == '[' && d.bracketIdent then Quoted(QuotedIdent, r, ']', false)
    else if StartsTag(r, d) then TagToken(r)
    else if StartsNumber(prev, r) then Plain(Number, NumberEnd(r, 1), "")
    else if IsIdentStart(c) || (c == '#' && d.hashIdent) then
      var k := RunEnd(r, 1, WordRun(d.hashIdent));
      Plain(Word, k, r[..k])
    else if StartsParam(prev, r) then Plain(Param, RunEnd(r, 1, ParamRun), "")
    else if IsPunctByte(c) then Plain(Punct, 1, [c])
    else Plain(Op, 1, [c])
  }

  // ---------- the token list ----------

  /** The tokens of `r`, which starts at offset `base` right after the byte `prev`. */
  function Lex(prev: char, r: string, d: Dialect, base: nat): (ts: seq<Token>)
    decreases |r|
  {
    if r == [] then []
    else if IsSpace(r[0]) then Lex(r[0], r[1..], d, base + 1)
    else
      var t := Munch(prev, r, d);
      [Shift(t, base)] + Lex(r[t.end - 1], r[t.end..], d, base + t.end)
  }

  /** The tokens of a whole text. A space stands for the missing byte before it: no look-behind tells them apart. */
  function Tokens(s: string, d: Dialect): seq<Token> {
    Lex(' ', s, d, 0)
  }
}
