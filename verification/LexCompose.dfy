/**
 How the tokenizer composes: a token depends only on its own bytes and on one byte of
 whitespace or punctuation (or the end of the text) after them, so a text may be cut at a
 token boundary, and two texts may be joined where such a byte separates them.
 */
module LexCompose {
  import opened Text
  import opened Lexer

  /** `r1` and `r2` agree on their first `e` bytes, after which `r2` stops or breaks. */
  predicate Window(r1: string, r2: string, e: nat) {
    && e <= |r1| && e <= |r2|
    && r1[..e] == r2[..e]
    && (e < |r2| ==> Breaks(r2[e]))
  }

  lemma WindowAt(r1: string, r2: string, e: nat, i: nat)
    requires Window(r1, r2, e) && i < e
    ensures r1[i] == r2[i]
  {
    assert r1[..e][i] == r2[..e][i];
  }

  lemma {:induction false} RunWindow(r1: string, r2: string, e: nat, k: nat, run: Run)
    requires Window(r1, r2, e) && k <= e
    ensures RunEnd(r2, k, run) == if RunEnd(r1, k, run) <= e then RunEnd(r1, k, run) else e
    decreases e - k
  {
    if k < e {
      WindowAt(r1, r2, e, k);
      if InRun(run, r1[k]) {
        RunWindow(r1, r2, e, k + 1, run);
      }
    }
  }

  lemma {:induction false} NumberWindow(r1: string, r2: string, e: nat, k: nat)
    requires Window(r1, r2, e) && 0 < k <= e && NumberEnd(r1, k) <= e
    requires NumberEnd(r1, k) == e < |r2| ==> r2[e] != '.'
    ensures NumberEnd(r2, k) == NumberEnd(r1, k)
    decreases e - k
  {
    if k < e {
      WindowAt(r1, r2, e, k);
      WindowAt(r1, r2, e, k - 1);
      if ContinuesNumber(r1, k) {
        NumberWindow(r1, r2, e, k + 1);
        if k + 1 < e { WindowAt(r1, r2, e, k + 1); }
        assert k + 1 < e || IsAlnum(r1[k]) || r1[k] == '_' || r1[k] == '.';
      } else if k + 1 < e {
        WindowAt(r1, r2, e, k + 1);
      }
    }
  }

  lemma {:induction false} FindCharWindow(r1: string, r2: string, e: nat, c: char, from: nat)
    requires Window(r1, r2, e) && from <= |r1| && FindChar(r1, c, from) <= e
    requires FindChar(r1, c, from) == e < |r2| ==> r2[e] == c
    ensures from <= |r2| && FindChar(r2, c, from) == FindChar(r1, c, from)
    decreases e - from
  {
    if from < e {
      WindowAt(r1, r2, e, from);
      if r1[from] != c {
        FindCharWindow(r1, r2, e, c, from + 1);
      }
    }
  }

  lemma AtWindow(r1: string, r2: string, e: nat, p: string, i: nat)
    requires Window(r1, r2, e) && i + |p| <= e
    ensures At(r1, p, i) == At(r2, p, i)
  {
    assert r1[i..i + |p|] == r1[..e][i..i + |p|];
    assert r2[i..i + |p|] == r2[..e][i..i + |p|];
  }

  lemma {:induction false} FindTextWindow(r1: string, r2: string, e: nat, p: string, from: nat)
    requires Window(r1, r2, e)
    requires FindText(r1, p, from).Some? && FindText(r1, p, from).value + |p| <= e
    ensures FindText(r2, p, from) == FindText(r1, p, from)
    decreases |r1| - from
  {
    AtWindow(r1, r2, e, p, from);
    if !At(r1, p, from) {
      FindTextWindow(r1, r2, e, p, from + 1);
    }
  }

  lemma {:induction false} QuotedWindow(r1: string, r2: string, e: nat, j: nat, close: char, backslash: bool)
    requires Window(r1, r2, e) && j <= e && !Breaks(close) && close != '\\'
    requires ScanQuoted(r1, j, close, backslash).closed && ScanQuoted(r1, j, close, backslash).end <= e
    ensures ScanQuoted(r2, j, close, backslash) == ScanQuoted(r1, j, close, backslash)
    decreases e - j
  {
    if j < e {
      WindowAt(r1, r2, e, j);
      if j + 1 < e {
        WindowAt(r1, r2, e, j + 1);
      }
      if backslash && r1[j] == '\\' && j + 1 < |r1| {
        QuotedWindow(r1, r2, e, j + 2, close, backslash);
      } else if r1[j] == close {
        if j + 1 < |r1| && r1[j + 1] == close {
          if j + 1 < e { QuotedWindow(r1, r2, e, j + 2, close, backslash); }
        }
      } else {
        QuotedWindow(r1, r2, e, j + 1, close, backslash);
      }
    }
  }

  /** The token `t` at the front of one text ends for good within `e` bytes of a text `r2` that goes on as said. */
  predicate Settled(t: Token, r2: string, e: nat)
    requires e <= |r2|
  {
    && t.end <= e
    && (t.closed || e == |r2|)
    && (t.lineComment && t.end == e < |r2| ==> r2[e] == '\n')
    && (t.kind.Number? && t.end == e < |r2| ==> r2[e] != '.')
  }

  lemma TagWindow(r1: string, r2: string, e: nat)
    requires Window(r1, r2, e) && r1 != []
    requires TagToken(r1).closed && TagToken(r1).end <= e && 0 < e
    ensures TagToken(r2) == TagToken(r1)
  {
    RunWindow(r1, r2, e, 1, TagRun);
    var k := RunEnd(r1, 1, TagRun);
    if k < |r1| && r1[k] == '$' {
      assert k < e;
      WindowAt(r1, r2, e, k);
      assert r1[..k + 1] == r1[..e][..k + 1];
      assert r2[..k + 1] == r2[..e][..k + 1];
      FindTextWindow(r1, r2, e, r1[..k + 1], k + 1);
    } else if k < e {
      WindowAt(r1, r2, e, k);
    }
  }

  /**
   A token is determined by the bytes up to its end and a byte that breaks, or the end of the text, after them.
   */
  lemma MunchWindow(prev: char, r1: string, r2: string, e: nat, d: Dialect)
    requires Window(r1, r2, e) && 0 < e
    requires !IsSpace(r1[0]) && Settled(Munch(prev, r1, d), r2, e)
    ensures !IsSpace(r2[0]) && Munch(prev, r2, d) == Munch(prev, r1, d)
  {
    var t := Munch(prev, r1, d);
    WindowAt(r1, r2, e, 0);
    if !t.closed {
      assert r1 == r1[..e] == r2[..e] == r2;
    } else if e == 1 && StartsTag(r1, d) {
      // a lone `$` cut off from the letters that made it look like a tag
      assert t == Plain(Op, 1, "$");
      assert Next(r2) == '\0' || Breaks(Next(r2));
    } else {
      StartWindow(prev, r1, r2, e, d);
      MunchClosedWindow(prev, r1, r2, e, d);
    }
  }

  predicate SameStart(prev: char, r1: string, r2: string, d: Dialect)
    requires r1 != [] && r2 != []
  {
    && r1[0] == r2[0]
    && StartsLineComment(r1, d) == StartsLineComment(r2, d)
    && (r1[0] == '/' ==> (Next(r1) == '*') == (Next(r2) == '*'))
    && StartsTag(r1, d) == StartsTag(r2, d)
    && StartsNumber(prev, r1) == StartsNumber(prev, r2)
    && StartsParam(prev, r1) == StartsParam(prev, r2)
  }

  /** The tokenizer takes the same branch: a branch chosen by two bytes makes a token that holds them both. */
  lemma StartWindow(prev: char, r1: string, r2: string, e: nat, d: Dialect)
    requires Window(r1, r2, e) && 0 < e
    requires !IsSpace(r1[0]) && Munch(prev, r1, d).end <= e
    requires 1 < e || !StartsTag(r1, d)
    ensures SameStart(prev, r1, r2, d)
  {
    WindowAt(r1, r2, e, 0);
    if 1 < e {
      WindowAt(r1, r2, e, 1);
    } else {
      assert Next(r2) == '\0' || Breaks(Next(r2));
    }
  }

  /** The rest of the token follows its branch. */
  lemma MunchClosedWindow(prev: char, r1: string, r2: string, e: nat, d: Dialect)
    requires Window(r1, r2, e) && 0 < e && SameStart(prev, r1, r2, d)
    requires !IsSpace(r1[0]) && Settled(Munch(prev, r1, d), r2, e) && Munch(prev, r1, d).closed
    ensures Munch(prev, r2, d) == Munch(prev, r1, d)
  {
    hide ScanQuoted, FindText, FindChar, RunEnd, NumberEnd;
    var c := r1[0];
    if StartsLineComment(r1, d) {
      FindCharWindow(r1, r2, e, '\n', 0);
    } else if c == '/' && Next(r1) == '*' {
      FindTextWindow(r1, r2, e, "*/", 2);
    } else if c == '\'' {
      QuotedWindow(r1, r2, e, 1, '\'', d.backslashEscape);
    } else if c == '"' {
      QuotedWindow(r1, r2, e, 1, '"', !d.doubleQuoteIdent && d.backslashEscape);
    } else if c == '`' && d.backtickIdent {
      QuotedWindow(r1, r2, e, 1, '`', false);
    } else if c == '[' && d.bracketIdent {
      QuotedWindow(r1, r2, e, 1, ']', false);
    } else if StartsTag(r1, d) {
      TagWindow(r1, r2, e);
    } else if StartsNumber(prev, r1) {
      NumberWindow(r1, r2, e, 1);
    } else if IsIdentStart(c) || (c == '#' && d.hashIdent) {
      var run := WordRun(d.hashIdent);
      RunWindow(r1, r2, e, 1, run);
      var k := RunEnd(r1, 1, run);
      assert r1[..k] == r1[..e][..k] == r2[..e][..k] == r2[..k];
    } else if StartsParam(prev, r1) {
      RunWindow(r1, r2, e, 1, ParamRun);
    }
  }
}
