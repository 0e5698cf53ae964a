/** The tokenizer's index loops, proved to compute `Lexer.Tokens`. */
module Tokenizer {
  import opened Text
  import opened Lexer
  import opened LexTheorems

  function WithText(text: string, q: Scan): Scan {
    Scan(q.end, q.closed, text + q.text)
  }

  /** One step of `ScanQuoted`, carrying the text read so far. */
  lemma QuotedStep(r: string, j: nat, close: char, backslash: bool, text: string)
    requires j < |r|
    ensures WithText(text, ScanQuoted(r, j, close, backslash)) ==
            if backslash && r[j] == '\\' && j + 1 < |r| then
              WithText(text + [r[j + 1]], ScanQuoted(r, j + 2, close, backslash))
            else if r[j] == close then
              if j + 1 < |r| && r[j + 1] == close then WithText(text + [close], ScanQuoted(r, j + 2, close, backslash))
              else Scan(j + 1, true, text)
            else WithText(text + [r[j]], ScanQuoted(r, j + 1, close, backslash))
  {
    if j + 2 <= |r| {
      Assoc(text, [r[j + 1]], ScanQuoted(r, j + 2, close, backslash).text);
      Assoc(text, [close], ScanQuoted(r, j + 2, close, backslash).text);
    }
    Assoc(text, [r[j]], ScanQuoted(r, j + 1, close, backslash).text);
  }

  lemma QuotedFrom(r: string, j: nat, close: char, backslash: bool)
    requires j <= |r|
    ensures WithText("", ScanQuoted(r, j, close, backslash)) == ScanQuoted(r, j, close, backslash)
    ensures forall text :: j == |r| ==> WithText(text, ScanQuoted(r, j, close, backslash)) == Scan(j, false, text)
  {
  }

  /** The quoted-token loop: `j` runs from inside the quote that opens at `begin`. */
  method ReadQuoted(s: string, begin: nat, close: char, backslash: bool) returns (end: nat, closed: bool, text: string)
    requires begin < |s|
    ensures begin < end <= |s|
    ensures Scan(end - begin, closed, text) == ScanQuoted(s[begin..], 1, close, backslash)
  {
    hide ScanQuoted, WithText;
    var j := begin + 1;
    ghost var r := s[begin..];
    QuotedFrom(r, 1, close, backslash);
    closed, text := false, "";
    while j < |s|
      invariant begin < j <= |s| && !closed
      invariant ScanQuoted(r, 1, close, backslash) == WithText(text, ScanQuoted(r, j - begin, close, backslash))
      decreases |s| - j
    {
      var ch := s[j];
      assert ch == r[j - begin];
      QuotedStep(r, j - begin, close, backslash, text);
      if backslash && ch == '\\' && j + 1 < |s| {
        text := text + [s[j + 1]];
        j := j + 2;
      } else if ch == close {
        if j + 1 < |s| && s[j + 1] == close {
          text := text + [close];
          j := j + 2;
        } else {
          closed := true;
          j := j + 1;
          break;
        }
      } else {
        text := text + [ch];
        j := j + 1;
      }
    }
    end := j;
    if !closed {
      QuotedFrom(r, |r|, close, backslash);
    }
  }

  method ReadRun(s: string, begin: nat, run: Run) returns (k: nat)
    requires begin < |s|
    ensures begin < k <= |s| && k - begin == RunEnd(s[begin..], 1, run)
  {
    k := begin + 1;
    while k < |s| && InRun(run, s[k])
      invariant begin < k <= |s|
      invariant RunEnd(s[begin..], 1, run) == RunEnd(s[begin..], k - begin, run)
    {
      k := k + 1;
    }
  }

  method ReadNumber(s: string, begin: nat) returns (k: nat)
    requires begin < |s|
    ensures begin < k <= |s| && k - begin == NumberEnd(s[begin..], 1)
  {
    k := begin + 1;
    while k < |s|
      invariant begin < k <= |s|
      invariant NumberEnd(s[begin..], 1) == NumberEnd(s[begin..], k - begin)
    {
      var ch := s[k];
      if IsAlnum(ch) || ch == '_' || ch == '.' {
        k := k + 1;
      } else if (ch == '+' || ch == '-') && (s[k - 1] == 'e' || s[k - 1] == 'E') && k + 1 < |s| && IsDigit(s[k + 1]) {
        k := k + 1;
      } else {
        break;
      }
    }
  }

  predicate StartsBare(r: string, d: Dialect)
    requires r != []
  {
    && !StartsLineComment(r, d)
    && !(r[0] == '/' && Next(r) == '*')
    && r[0] != '\'' && r[0] != '"'
    && !(r[0] == '`' && d.backtickIdent) && !(r[0] == '[' && d.bracketIdent)
  }

  /** A `$` that may open a `$tag$` body. */
  method ReadTag(s: string, i: nat) returns (t: Token)
    requires i < |s|
    ensures t == Shift(TagToken(s[i..]), i)
  {
    hide RunEnd, FindText, IsIdentByte;
    ghost var r := s[i..];
    var k := ReadRun(s, i, TagRun);
    assert k < |s| ==> r[k - i] == s[k];
    if k < |s| && s[k] == '$' {
      var tag := s[i..k + 1];
      assert tag == r[..k - i + 1];
      var e := FindText(s[i..], tag, k + 1 - i);
      t := Token(String, i, if e.Some? then i + e.value + |tag| else |s|, e.Some?, false, "");
    } else {
      t := Token(Op, i, i + 1, true, false, "$");
    }
  }

  /** The second half of a round: a token that is neither a comment nor quoted. */
  method ReadBare(s: string, i: nat, d: Dialect) returns (t: Token)
    requires i < |s| && !IsSpace(s[i]) && StartsBare(s[i..], d)
    ensures t == Shift(Munch(Before(' ', s, i), s[i..], d), i)
  {
    assert !EndsOperand(' ');
    hide RunEnd, NumberEnd, ScanQuoted, FindText, FindChar, IsIdentByte, IsIdentStart, IsDigit, IsSpace, TagToken,
      Quoted, BlockComment;
    ghost var r := s[i..];
    var c := s[i];
    var next := if i + 1 < |s| then s[i + 1] else '\0';
    assert r[0] == c && Next(r) == next;
    if c == '$' && d.dollarQuote && (next == '$' || IsIdentStart(next)) {
      t := ReadTag(s, i);
    } else if IsDigit(c) || (c == '.' && IsDigit(next) &&
        (i == 0 || (!IsIdentByte(s[i - 1]) && s[i - 1] != '"' && s[i - 1] != '`' && s[i - 1] != ']'
          && s[i - 1] != ')'))) {
      var k := ReadNumber(s, i);
      t := Token(Number, i, k, true, false, "");
    } else if IsIdentStart(c) || (c == '#' && d.hashIdent) {
      var k := ReadRun(s, i, WordRun(d.hashIdent));
      t := Token(Word, i, k, true, false, s[i..k]);
      assert s[i..k] == r[..k - i];
    } else if c == '@' || c == '?' || (c == ':' && IsIdentStart(next) && (i == 0 || s[i - 1] != ':'))
        || (c == '$' && IsDigit(next)) {
      var k := ReadRun(s, i, ParamRun);
      t := Token(Param, i, k, true, false, "");
    } else if c == '(' || c == ')' || c == ',' || c == ';' || c == '.' {
      t := Token(Punct, i, i + 1, true, false, [c]);
    } else {
      t := Token(Op, i, i + 1, true, false, [c]);
    }
  }

  method ReadQuotedToken(s: string, i: nat, kind: Kind, close: char, backslash: bool) returns (t: Token)
    requires i < |s|
    ensures t == Shift(Quoted(kind, s[i..], close, backslash), i)
  {
    var end, closed, text := ReadQuoted(s, i, close, backslash);
    t := Token(kind, i, end, closed, false, text);
  }

  method ReadBlockComment(s: string, i: nat) returns (t: Token)
    requires i < |s|
    ensures t == Shift(BlockComment(s[i..]), i)
  {
    var e := FindText(s[i..], "*/", 2);
    t := Token(Comment, i, if e.Some? then i + e.value + 2 else |s|, e.Some?, false, "");
  }

  /** One round of the main loop, at a byte that is not whitespace. */
  method ReadToken(s: string, i: nat, d: Dialect) returns (t: Token)
    requires i < |s| && !IsSpace(s[i])
    ensures t == Shift(Munch(Before(' ', s, i), s[i..], d), i)
  {
    hide RunEnd, NumberEnd, ScanQuoted, FindText, FindChar, IsIdentByte, IsIdentStart, IsDigit, IsSpace, TagToken,
      Quoted, BlockComment;
    ghost var r := s[i..];
    var c := s[i];
    var next := if i + 1 < |s| then s[i + 1] else '\0';
    assert r[0] == c && Next(r) == next;
    if (c == '-' && next == '-') || (c == '#' && d.hashComment) {
      t := Token(Comment, i, i + FindChar(s[i..], '\n', 0), true, true, "");
    } else if c == '/' && next == '*' {
      t := ReadBlockComment(s, i);
    } else if c == '\'' {
      t := ReadQuotedToken(s, i, String, '\'', d.backslashEscape);
    } else if c == '"' {
      var kind := if d.doubleQuoteIdent then QuotedIdent else String;
      t := ReadQuotedToken(s, i, kind, '"', !d.doubleQuoteIdent && d.backslashEscape);
    } else if c == '`' && d.backtickIdent {
      t := ReadQuotedToken(s, i, QuotedIdent, '`', false);
    } else if c == '[' && d.bracketIdent {
      t := ReadQuotedToken(s, i, QuotedIdent, ']', false);
    } else {
      t := ReadBare(s, i, d);
    }
  }

  /** All tokens of `s`. */
  method Tokenize(s: string, d: Dialect) returns (out: seq<Token>)
    ensures out == Tokens(s, d)
  {
    hide Munch, Lex;
    out := [];
    var i := 0;
    assert s[0..] == s;
    while i < |s|
      invariant i <= |s|
      invariant Tokens(s, d) == out + Lex(Before(' ', s, i), s[i..], d, i)
      decreases |s| - i
    {
      LexStep(Before(' ', s, i), s[i..], d, i);
      if IsSpace(s[i]) {
        assert s[i..][1..] == s[i + 1..];
        i := i + 1;
      } else {
        var t := ReadToken(s, i, d);
        ghost var n := t.end - i;
        assert s[i..][n..] == s[t.end..];
        ghost var rest := Lex(s[t.end - 1], s[t.end..], d, t.end);
        Assoc(out, [t], rest);
        out := out + [t];
        i := t.end;
      }
    }
    LexStep(Before(' ', s, i), s[i..], d, i);
  }
}
