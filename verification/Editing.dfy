/** Accepting a completion: the range it replaces, and why the edit stays local. */
module Editing {
  import opened Text
  import opened Wrappers
  import opened Lexer
  import opened LexTheorems
  import opened Tokenizer
  import opened Statements
  import opened StatementTheorems
  import opened Quoting

  // ---------- the replaced range ----------

  /** The cursor stands in a comment, a string, a number or a parameter: nothing is offered. */
  predicate Inert(t: Token, cursor: nat) {
    t.begin < cursor &&
    match t.kind
    case Comment => if t.lineComment then cursor <= t.end else cursor < t.end || !t.closed
    case String => cursor < t.end || !t.closed
    case Number => cursor <= t.end
    case Param => cursor <= t.end
    case _ => false
  }

  /** The identifier being typed. */
  predicate Holder(t: Token, cursor: nat) {
    t.begin < cursor && ((t.kind.Word? && cursor <= t.end) || (t.kind.QuotedIdent? && (cursor < t.end || !t.closed)))
  }

  datatype Target = Target(start: nat, end: nat, quoted: bool, prefix: string)

  predicate IsTarget(s: string, ts: seq<Token>, cursor: nat, r: Target) {
    if exists i :: 0 <= i < |ts| && Holder(ts[i], cursor) then
      exists i :: 0 <= i < |ts| && Holder(ts[i], cursor)
        && r.start == ts[i].begin && r.end == ts[i].end && r.quoted == ts[i].kind.QuotedIdent?
        && r.start <= cursor <= |s|
        && r.prefix == if r.quoted then s[r.start + 1..cursor] else s[r.start..cursor]
    else
      r == Target(cursor, cursor, false, "")
  }

  predicate NoneInert(ts: seq<Token>, cursor: nat) {
    forall i :: 0 <= i < |ts| ==> !Inert(ts[i], cursor)
  }

  method SomeInert(ts: seq<Token>, cursor: nat, length: nat) returns (inert: bool)
    requires Ordered(ts, 0, length)
    ensures inert <==> !NoneInert(ts, cursor)
  {
    for i := 0 to |ts|
      invariant forall j :: 0 <= j < i ==> !Inert(ts[j], cursor)
    {
      var t := ts[i];
      if t.begin >= cursor {
        NothingLater(ts, i, cursor, length);
        break;
      }
      match t.kind {
        case Comment =>
          if (if t.lineComment then cursor <= t.end else cursor < t.end || !t.closed) {
            return true;
          }
        case String =>
          if cursor < t.end || !t.closed {
            return true;
          }
        case Number | Param =>
          if cursor <= t.end {
            return true;
          }
        case _ =>
      }
    }
    return false;
  }

  /** The identifier at the cursor, among the tokens of the cursor's statement. */
  method FindHolder(s: string, ts: seq<Token>, span: Span, cursor: nat) returns (r: Target)
    requires Ordered(ts, 0, |s|) && IsSpanAt(ts, cursor, |s|, span) && cursor <= |s|
    requires forall t :: t in ts && !t.closed ==> t.end == |s|
    ensures IsTarget(s, ts, cursor, r)
  {
    HolderInSpan(ts, cursor, |s|, span);
    for i := span.firstTok to span.lastTok
      invariant forall j :: span.firstTok <= j < i ==> !Holder(ts[j], cursor)
    {
      var t := ts[i];
      if t.kind.Comment? {
        continue;
      }
      if t.begin >= cursor {
        NothingLater(ts, i, cursor, |s|);
        break;
      }
      if t.kind.Word? && cursor <= t.end {
        return Target(t.begin, t.end, false, s[t.begin..cursor]);
      }
      if t.kind.QuotedIdent? && (cursor < t.end || !t.closed) {
        return Target(t.begin, t.end, true, s[t.begin + 1..cursor]);
      }
    }
    r := Target(cursor, cursor, false, "");
  }

  /** The replaced range and what is typed of it; none where nothing is offered. */
  method ReplaceRange(s: string, cursor: nat, ty: DatabaseType) returns (r: Option<Target>)
    requires cursor <= |s|
    ensures var ts := Tokens(s, DialectFor(ty));
            if ty.REDIS? || ty.MONGODB? then r.None?
            else (r.Some? <==> NoneInert(ts, cursor)) && (r.Some? ==> IsTarget(s, ts, cursor, r.value))
  {
    if ty.REDIS? || ty.MONGODB? {
      return None;
    }
    var ts := Tokenize(s, DialectFor(ty));
    hide Lex, Munch, DialectFor, IsTarget, Inert;
    LexOrdered(' ', s, DialectFor(ty), 0);
    UnclosedAtEnd(s, DialectFor(ty));
    var span := StatementAt(ts, cursor, |s|);
    var inert := SomeInert(ts, cursor, |s|);
    if inert {
      return None;
    }
    var target := FindHolder(s, ts, span, cursor);
    r := Some(target);
  }

  /** Nothing is offered in a comment, a string, a number or a parameter; behind a closed one, it is again. */
  lemma WhereNothingIsOffered(s: string, d: Dialect, cursor: nat, t: Token)
    requires t in Tokens(s, d) && t.begin < cursor <= t.end
    ensures cursor < t.end && t.kind in {Comment, String, Number, Param} ==> !NoneInert(Tokens(s, d), cursor)
    ensures cursor == t.end && t.kind in {Comment, String} && (!t.closed || t.lineComment) ==>
              !NoneInert(Tokens(s, d), cursor)
    ensures cursor == t.end && t.kind in {Number, Param} ==> !NoneInert(Tokens(s, d), cursor)
    ensures t.kind in {Word, QuotedIdent, Punct, Op} ==> NoneInert(Tokens(s, d), cursor)
    ensures cursor == t.end && t.kind in {Comment, String} && t.closed && !t.lineComment ==>
              NoneInert(Tokens(s, d), cursor)
  {
    hide Lex, Munch;
    LexOrdered(' ', s, d, 0);
    UnclosedAtEnd(s, d);
    LineComments(s, d);
    OnlyInertAt(Tokens(s, d), |s|, cursor, t);
  }

  lemma LineComments(s: string, d: Dialect)
    ensures forall t :: t in Tokens(s, d) && t.lineComment ==> t.kind.Comment?
  {
    hide Lex, Munch;
    forall t | t in Tokens(s, d) && t.lineComment ensures t.kind.Comment? {
      LexMunches(' ', s, d, 0, t);
    }
  }

  lemma OnlyInertAt(ts: seq<Token>, length: nat, cursor: nat, t: Token)
    requires Ordered(ts, 0, length) && t in ts && t.begin < cursor <= t.end
    requires forall u :: u in ts && !u.closed ==> u.end == length
    ensures NoneInert(ts, cursor) <==> !Inert(t, cursor)
  {
    var i :| 0 <= i < |ts| && ts[i] == t;
    assert forall k :: i < k < |ts| ==> cursor <= ts[k].begin;
    assert forall k :: 0 <= k < i ==> ts[k].end <= t.begin;
  }

  /** The name being typed is the one the cursor stands in or right behind, quoted ones only while they are open. */
  lemma WhatIsReplaced(s: string, d: Dialect, cursor: nat, t: Token, r: Target)
    requires t in Tokens(s, d) && t.begin < cursor <= t.end && IsTarget(s, Tokens(s, d), cursor, r)
    ensures t.kind.Word? ==> r == Target(t.begin, t.end, false, s[t.begin..cursor])
    ensures t.kind.QuotedIdent? && (cursor < t.end || !t.closed) ==>
              r == Target(t.begin, t.end, true, s[t.begin + 1..cursor])
    ensures (t.kind.QuotedIdent? && cursor == t.end && t.closed) || t.kind in {Punct, Op, String, Comment} ==>
              r == Target(cursor, cursor, false, "")
  {
    hide Lex, Munch;
    LexOrdered(' ', s, d, 0);
    UnclosedAtEnd(s, d);
  }

  lemma NothingLater(ts: seq<Token>, k: nat, cursor: nat, length: nat)
    requires Ordered(ts, 0, length) && k < |ts| && cursor <= ts[k].begin
    ensures forall i :: k <= i < |ts| ==> !Inert(ts[i], cursor) && !Holder(ts[i], cursor)
  {
  }

  /** The identifier at the cursor belongs to the statement at the cursor. */
  lemma HolderInSpan(ts: seq<Token>, cursor: nat, length: nat, span: Span)
    requires Ordered(ts, 0, length) && IsSpanAt(ts, cursor, length, span) && cursor <= length
    requires forall t :: t in ts && !t.closed ==> t.end == length
    ensures forall i :: 0 <= i < |ts| && Holder(ts[i], cursor) ==> span.firstTok <= i < span.lastTok
  {
    forall i | 0 <= i < |ts| && Holder(ts[i], cursor) ensures span.firstTok <= i < span.lastTok {
      assert cursor <= ts[i].end;
    }
  }

  lemma UnclosedAtEnd(s: string, d: Dialect)
    ensures forall t :: t in Tokens(s, d) && !t.closed ==> t.end == |s|
  {
    hide Munch, Lex;
    forall t | t in Tokens(s, d) && !t.closed ensures t.end == |s| {
      LexMunches(' ', s, d, 0, t);
    }
  }

  // ---------- the edit is local ----------

  /** Whitespace or an end of the text on both sides of the replaced range. */
  predicate Spaced(s: string, start: nat, end: nat) {
    && start <= end <= |s|
    && (start == 0 || IsSpace(s[start - 1]))
    && (end == |s| || IsSpace(s[end]))
  }

  /** A punctuation token ends at `p`. */
  predicate PunctBefore(ts: seq<Token>, p: nat) {
    exists i :: 0 <= i < |ts| && ts[i].kind.Punct? && ts[i].end == p
  }

  /** Whitespace, punctuation or an end on both sides; a dot behind is no decimal point. */
  predicate Apart(s: string, ts: seq<Token>, start: nat, end: nat) {
    && start <= end <= |s|
    && (start == 0 || IsSpace(s[start - 1]) || PunctBefore(ts, start))
    && (end == |s| || Breaks(s[end]))
    && (end + 1 < |s| && s[end] == '.' && IsDigit(s[end + 1]) ==> end > 0 && EndsOperand(s[end - 1]))
  }

  /** Finished text that starts and ends as a name does. */
  predicate NameLike(ins: string, d: Dialect) {
    && ins != "" && AllClosed(Tokens(ins, d)) && NoNumbers(Tokens(ins, d))
    && StartsName(ins[0]) && EndsOperand(ins[|ins| - 1])
  }

  /** What may take a range's place: finished text between whitespace, or name-like text between punctuation too. */
  predicate Fits(s: string, d: Dialect, r: Target, ins: string) {
    || (Spaced(s, r.start, r.end) && ins != "" && AllClosed(Tokens(ins, d)))
    || (Apart(s, Tokens(s, d), r.start, r.end) && NameLike(ins, d))
  }

  /** The replaced range never cuts a token. */
  lemma TargetBoundaries(s: string, d: Dialect, cursor: nat, r: Target)
    requires cursor <= |s| && NoneInert(Tokens(s, d), cursor) && IsTarget(s, Tokens(s, d), cursor, r)
    ensures r.start <= r.end <= |s|
    ensures Boundary(' ', s, d, r.start) && Boundary(' ', s, d, r.end)
  {
    hide Munch, Lex, Boundary;
    var ts := Tokens(s, d);
    LexOrdered(' ', s, d, 0);
    if i :| 0 <= i < |ts| && Holder(ts[i], cursor) {
      var j :| 0 <= j < |ts| && Holder(ts[j], cursor) && r.start == ts[j].begin && r.end == ts[j].end;
      BoundaryAtToken(s, d, j);
    } else {
      BoundaryIff(' ', s, d, 0, cursor);
      forall t | t in ts ensures !Straddles(t, cursor) {
        LexMunches(' ', s, d, 0, t);
        var k :| 0 <= k < |ts| && ts[k] == t;
        assert !Inert(ts[k], cursor) && !Holder(ts[k], cursor);
      }
    }
  }

  /** Whatever ends right after whitespace is an unfinished quote or comment. */
  lemma SpaceBefore(s: string, d: Dialect, i: nat)
    requires i < |Tokens(s, d)| && Tokens(s, d)[i].end <= |s|
    requires 0 < Tokens(s, d)[i].end && IsSpace(s[Tokens(s, d)[i].end - 1])
    ensures var t := Tokens(s, d)[i];
            !t.closed || (t.lineComment && (t.end < |s| ==> s[t.end] == '\n'))
  {
    hide Munch, Lex;
    var t := Tokens(s, d)[i];
    LexMunches(' ', s, d, 0, t);
    var r := s[t.begin..];
    assert r[t.end - t.begin - 1] == s[t.end - 1];
    if t.closed && !t.lineComment {
      if t.kind.Comment? {
        CommentEnds(Before(' ', s, t.begin), r, d);
      } else {
        ClosedEndsSolid(Before(' ', s, t.begin), r, d);
      }
    }
    if t.lineComment && t.end < |s| {
      assert r[t.end - t.begin] == s[t.end];
    }
  }

  lemma UnclosedKinds(prev: char, r: string, d: Dialect)
    requires r != [] && !IsSpace(r[0]) && !Munch(prev, r, d).closed
    ensures var k := Munch(prev, r, d).kind; k.String? || k.Comment? || k.QuotedIdent?
  {
    hide ScanQuoted, FindText, FindChar, NumberEnd, RunEnd;
  }

  /** Nothing ends at the replaced range when whitespace stands before it: that byte is a boundary too. */
  lemma SpaceIsBoundary(s: string, d: Dialect, cursor: nat, r: Target)
    requires cursor <= |s| && NoneInert(Tokens(s, d), cursor) && IsTarget(s, Tokens(s, d), cursor, r)
    requires 0 < r.start <= |s| && IsSpace(s[r.start - 1])
    ensures Boundary(' ', s, d, r.start - 1)
  {
    hide Munch, Lex, Boundary;
    var ts := Tokens(s, d);
    TargetBoundaries(s, d, cursor, r);
    BoundaryIff(' ', s, d, 0, r.start);
    BoundaryIff(' ', s, d, 0, r.start - 1);
    LexOrdered(' ', s, d, 0);
    forall t | t in ts ensures !Straddles(t, r.start - 1) {
      assert !Straddles(t, r.start);
      var i :| 0 <= i < |ts| && ts[i] == t;
      if Straddles(t, r.start - 1) {
        assert t.end == r.start;
        NothingEndsAtTarget(s, d, cursor, r, i);
      }
    }
  }

  lemma NothingEndsAtTarget(s: string, d: Dialect, cursor: nat, r: Target, i: nat)
    requires cursor <= |s| && NoneInert(Tokens(s, d), cursor) && IsTarget(s, Tokens(s, d), cursor, r)
    requires 0 < r.start <= |s| && IsSpace(s[r.start - 1])
    requires i < |Tokens(s, d)|
    ensures Tokens(s, d)[i].end != r.start
  {
    hide Munch, Lex;
    var ts := Tokens(s, d);
    var t := ts[i];
    LexOrdered(' ', s, d, 0);
    LexMunches(' ', s, d, 0, t);
    assert !Inert(t, cursor);
    if t.end == r.start {
      SpaceBefore(s, d, i);
      if j :| 0 <= j < |ts| && Holder(ts[j], cursor) {
        var h :| 0 <= h < |ts| && Holder(ts[h], cursor) && r.start == ts[h].begin && r.end == ts[h].end;
        LexMunches(' ', s, d, 0, ts[h]);
        assert false;
      } else {
        if !t.closed {
          UnclosedKinds(Before(' ', s, t.begin), s[t.begin..], d);
        }
        assert false;
      }
    }
  }

  /** A number goes on past a dot. */
  lemma NumberStops(prev: char, r: string, d: Dialect)
    requires r != [] && !IsSpace(r[0])
    ensures var t := Munch(prev, r, d); t.kind.Number? && t.end < |r| ==> r[t.end] != '.'
  {
    hide ScanQuoted, FindText, FindChar, RunEnd;
  }

  /** Past a boundary at a byte that breaks, the tokens before it stay what they are, whatever comes after that byte. */
  lemma PrefixStays(s: string, d: Dialect, p: nat, b: string)
    requires p < |s| && Breaks(s[p]) && Boundary(' ', s, d, p) && b != [] && b[0] == s[p]
    ensures Tokens(s[..p] + b, d) == Tokens(s[..p], d) + Lex(Before(' ', s, p), b, d, p)
    ensures Tokens(s, d) == Tokens(s[..p], d) + Lex(Before(' ', s, p), s[p..], d, p)
  {
    hide Munch, Lex, Boundary, Breaks;
    var x := Tokens(s[..p], d);
    Split(' ', s, d, 0, p);
    LexOrdered(' ', s[..p], d, 0);
    forall t | t in x
      ensures t.closed && (t.end == p ==> (t.lineComment ==> b[0] == '\n') && (t.kind.Number? ==> b[0] != '.'))
    {
      assert t in Tokens(s, d);
      LexMunches(' ', s, d, 0, t);
      var r := s[t.begin..];
      NumberStops(Before(' ', s, t.begin), r, d);
      if t.end == p {
        assert r[t.end - t.begin] == s[t.end];
      }
    }
    Join(' ', s[..p], b, d, 0);
  }

  /** What stands behind inserted text: whitespace or an end, or, behind name-like text, punctuation. */
  predicate Follows(ins: string, d: Dialect, prev: char, rest: string) {
    || rest == "" || IsSpace(rest[0])
    || (NameLike(ins, d) && Breaks(rest[0]) && (rest[0] == '.' && IsDigit(Next(rest)) ==> EndsOperand(prev)))
  }

  /**
   Finished text, put where it fits, lexes to its own tokens and then those that followed the byte `prev'`
   in the same rest before.
   */
  lemma InsertedTokens(prev: char, prev': char, ins: string, rest: string, d: Dialect, base: nat)
    requires ins != "" && AllClosed(Tokens(ins, d)) && Follows(ins, d, prev', rest)
    requires Neutral(prev) || NameLike(ins, d)
    ensures Lex(prev, ins + rest, d, base)
         == ShiftAll(Tokens(ins, d), base) + ShiftAll(Lex(prev', rest, d, 0), base + |ins|)
  {
    hide Munch, Lex, ShiftAll;
    LexNeutral(prev, ' ', ins, d, base);
    LexShift(' ', ins, d, 0, base);
    SealedShift(Tokens(ins, d), base, rest);
    Join(prev, ins, rest, d, base);
    var last := Before(prev, ins, |ins|);
    LexNeutral(last, prev', rest, d, base + |ins|);
    LexShift(prev', rest, d, 0, base + |ins|);
  }

  lemma SealedShift(ts: seq<Token>, base: nat, rest: string)
    requires AllClosed(ts) && (rest != "" && rest[0] == '.' ==> NoNumbers(ts))
    ensures forall n :: Sealed(ShiftAll(ts, base), n, rest)
  {
    forall t | t in ShiftAll(ts, base)
      ensures t.closed && !t.lineComment && (t.kind.Number? && rest != "" ==> rest[0] != '.')
    {
      var i :| 0 <= i < |ts| && ShiftAll(ts, base)[i] == t;
      assert ts[i] in ts;
    }
  }

  /** The tokens of a text, cut at two boundaries. */
  lemma OldTokens(s: string, d: Dialect, start: nat, end: nat) returns (before: seq<Token>, within: seq<Token>)
    requires start <= end <= |s|
    requires Boundary(' ', s, d, start) && Boundary(' ', s, d, end)
    ensures before == Tokens(s[..start], d)
    ensures Tokens(s, d) == before + (within + ShiftAll(Lex(Before(' ', s, end), s[end..], d, 0), end))
    ensures forall t :: t in before ==> t.end <= start
    ensures forall t :: t in within ==> start <= t.begin && t.end <= end
  {
    hide Munch, Lex, Boundary, ShiftAll;
    before := Tokens(s[..start], d);
    within := Lex(Before(' ', s, start), s[start..end], d, start);
    Split(' ', s, d, 0, end);
    CutBoundary(s, d, start, end);
    Split(' ', s[..end], d, 0, start);
    assert s[..end][..start] == s[..start] && s[..end][start..] == s[start..end];
    var after := Lex(Before(' ', s, end), s[end..], d, 0);
    LexShift(Before(' ', s, end), s[end..], d, 0, end);
    Assoc(before, within, ShiftAll(after, end));
    LexOrdered(' ', s[..start], d, 0);
    LexOrdered(Before(' ', s, start), s[start..end], d, start);
  }

  lemma SkipSpace(prev: char, b: string, d: Dialect, base: nat)
    requires b != "" && IsSpace(b[0])
    ensures Lex(prev, b, d, base) == Lex(b[0], b[1..], d, base + 1)
  {
    hide Munch;
  }

  lemma LexNothing(prev: char, b: string, d: Dialect, base: nat)
    requires b == ""
    ensures Lex(prev, b, d, base) == []
  {
  }

  lemma OneSpace(prev: char, b: string, d: Dialect, base: nat)
    requires |b| == 1 && IsSpace(b[0])
    ensures Lex(prev, b, d, base) == []
  {
    hide Munch;
  }

  /** Trailing whitespace past a boundary adds no token. */
  lemma PrefixTokens(s: string, d: Dialect, start: nat)
    requires 0 < start <= |s| && IsSpace(s[start - 1])
    requires Boundary(' ', s, d, start - 1) && Boundary(' ', s, d, start)
    ensures Tokens(s[..start], d) == Tokens(s[..start - 1], d)
  {
    hide Munch, Lex, Boundary;
    var p := start - 1;
    CutBoundary(s, d, p, start);
    Split(' ', s[..start], d, 0, p);
    assert s[..start][..p] == s[..p];
    OneSpace(Before(' ', s[..start], p), s[..start][p..], d, p);
  }

  /** A punctuation byte is a token by itself, whatever comes after it but a digit after a dot. */
  lemma PunctStep(prev: char, c: char, tail: string, d: Dialect, base: nat)
    requires IsPunctByte(c) && (c == '.' && tail != "" ==> !IsDigit(tail[0]))
    ensures Lex(prev, [c] + tail, d, base)
         == [Token(Punct, base, base + 1, true, false, [c])] + Lex(c, tail, d, base + 1)
  {
    hide Lex;
    var b := [c] + tail;
    LexStep(prev, b, d, base);
    assert Munch(prev, b, d) == Token(Punct, 0, 1, true, false, [c]);
    assert b[1..] == tail;
  }

  /** The byte of a punctuation token, and that it starts at a boundary. */
  lemma PunctAt(s: string, d: Dialect, p: nat)
    requires PunctBefore(Tokens(s, d), p)
    ensures 0 < p <= |s| && IsPunctByte(s[p - 1]) && Boundary(' ', s, d, p - 1)
  {
    hide Munch, Lex, Boundary;
    var ts := Tokens(s, d);
    var i :| 0 <= i < |ts| && ts[i].kind.Punct? && ts[i].end == p;
    LexOrdered(' ', s, d, 0);
    LexMunches(' ', s, d, 0, ts[i]);
    BoundaryAtToken(s, d, i);
  }

  /** The tokens up to a punctuation byte are those before it, and its own. */
  lemma PrefixPunct(s: string, d: Dialect, start: nat)
    requires 0 < start <= |s| && IsPunctByte(s[start - 1])
    requires Boundary(' ', s, d, start - 1) && Boundary(' ', s, d, start)
    ensures Tokens(s[..start], d)
         == Tokens(s[..start - 1], d) + [Token(Punct, start - 1, start, true, false, [s[start - 1]])]
  {
    hide Munch, Lex, Boundary, IsPunctByte;
    var p := start - 1;
    CutBoundary(s, d, p, start);
    Split(' ', s[..start], d, 0, p);
    assert s[..start][..p] == s[..p] && s[..start][p..] == [s[p]];
    PunctStep(Before(' ', s[..start], p), s[p], "", d, p);
    assert [s[p]] + "" == [s[p]];
    LexNothing(s[p], "", d, start);
  }

  /** The text after the completion is accepted. */
  function Edited(s: string, r: Target, ins: string): string
    requires r.start <= r.end <= |s|
  {
    s[..r.start] + ins + s[r.end..]
  }

  /** The token lists before and after the edit: `before` and `after` are the same in both. */
  predicate IsLocalEdit(s: string, d: Dialect, r: Target, ins: string, before: seq<Token>, within: seq<Token>)
    requires r.start <= r.end <= |s|
  {
    var after := Lex(Before(' ', s, r.end), s[r.end..], d, 0);
    && Tokens(s, d) == before + (within + ShiftAll(after, r.end))
    && (forall t :: t in before ==> t.end <= r.start)
    && (forall t :: t in within ==> r.start <= t.begin && t.end <= r.end)
    && Tokens(Edited(s, r, ins), d) == before + (ShiftAll(Tokens(ins, d), r.start) + ShiftAll(after, r.start + |ins|))
  }

  /**
   Accepting a completion is local: the edited text lexes to the old tokens before the range, those of the
   inserted text, and the old ones after it, shifted.
   */
  lemma AcceptIsLocal(s: string, d: Dialect, cursor: nat, r: Target, ins: string)
    returns (before: seq<Token>, within: seq<Token>)
    requires cursor <= |s| && NoneInert(Tokens(s, d), cursor) && IsTarget(s, Tokens(s, d), cursor, r)
    requires Fits(s, d, r, ins)
    ensures r.start <= r.end <= |s| && IsLocalEdit(s, d, r, ins, before, within)
  {
    hide Munch, Lex, Boundary, ShiftAll, NoneInert, IsTarget, AllClosed, NoNumbers, NameLike, PunctBefore;
    TargetBoundaries(s, d, cursor, r);
    before, within := OldTokens(s, d, r.start, r.end);
    FitsFollows(s, d, r, ins);
    var rest := s[r.end..];
    var last := Before(' ', s, r.end);
    if r.start == 0 {
      InsertedTokens(' ', last, ins, rest, d, 0);
      assert Edited(s, r, ins) == ins + rest;
      LexNothing(' ', s[..0], d, 0);
      Assoc(before, ShiftAll(Tokens(ins, d), 0), ShiftAll(Lex(last, rest, d, 0), |ins|));
    } else if IsSpace(s[r.start - 1]) {
      SpaceIsBoundary(s, d, cursor, r);
      AfterSpace(s, d, r, ins);
    } else {
      PunctAt(s, d, r.start);
      AfterPunct(s, d, r, ins);
    }
  }

  lemma FitsFollows(s: string, d: Dialect, r: Target, ins: string)
    requires Fits(s, d, r, ins) && r.start <= r.end <= |s|
    ensures ins != "" && AllClosed(Tokens(ins, d)) && Follows(ins, d, Before(' ', s, r.end), s[r.end..])
    ensures r.start == 0 || IsSpace(s[r.start - 1]) || (NameLike(ins, d) && PunctBefore(Tokens(s, d), r.start))
  {
    hide Tokens, AllClosed, NoNumbers, PunctBefore;
    assert r.end + 1 < |s| ==> s[r.end..][1] == s[r.end + 1];
  }

  /** The text behind the byte before the range, lexed from that byte on. */
  lemma AfterSpace(s: string, d: Dialect, r: Target, ins: string)
    requires 0 < r.start <= r.end <= |s| && IsSpace(s[r.start - 1])
    requires Boundary(' ', s, d, r.start - 1) && Boundary(' ', s, d, r.start)
    requires ins != "" && AllClosed(Tokens(ins, d)) && Follows(ins, d, Before(' ', s, r.end), s[r.end..])
    ensures Tokens(Edited(s, r, ins), d)
         == Tokens(s[..r.start], d)
            + (ShiftAll(Tokens(ins, d), r.start)
               + ShiftAll(Lex(Before(' ', s, r.end), s[r.end..], d, 0), r.start + |ins|))
  {
    hide Munch, Lex, Boundary, ShiftAll, AllClosed, Follows;
    var p := r.start - 1;
    var b := s[p..r.start] + (ins + s[r.end..]);
    PrefixStays(s, d, p, b);
    assert Edited(s, r, ins) == s[..p] + b;
    SkipSpace(Before(' ', s, p), b, d, p);
    assert b[1..] == ins + s[r.end..];
    InsertedTokens(s[p], Before(' ', s, r.end), ins, s[r.end..], d, r.start);
    PrefixTokens(s, d, r.start);
    assert b[0] == s[p];
  }

  lemma AfterPunct(s: string, d: Dialect, r: Target, ins: string)
    requires 0 < r.start <= r.end <= |s| && IsPunctByte(s[r.start - 1])
    requires Boundary(' ', s, d, r.start - 1) && Boundary(' ', s, d, r.start)
    requires NameLike(ins, d) && Follows(ins, d, Before(' ', s, r.end), s[r.end..])
    ensures Tokens(Edited(s, r, ins), d)
         == Tokens(s[..r.start], d)
            + (ShiftAll(Tokens(ins, d), r.start)
               + ShiftAll(Lex(Before(' ', s, r.end), s[r.end..], d, 0), r.start + |ins|))
  {
    NameLikeStarts(ins, d);
    assert Breaks(s[r.start - 1]);
    EditedFrom(s, r, ins);
    hide *;
    var p := r.start - 1;
    var rest := s[r.end..];
    var b := [s[p]] + (ins + rest);
    PrefixStays(s, d, p, b);
    PunctStep(Before(' ', s, p), s[p], ins + rest, d, p);
    InsertedTokens(s[p], Before(' ', s, r.end), ins, rest, d, r.start);
    PrefixPunct(s, d, r.start);
    Assoc(Tokens(s[..p], d), [Token(Punct, p, r.start, true, false, [s[p]])], Lex(s[p], ins + rest, d, r.start));
  }

  lemma EditedFrom(s: string, r: Target, ins: string)
    requires 0 < r.start <= r.end <= |s| && ins != ""
    ensures var b := [s[r.start - 1]] + (ins + s[r.end..]);
            Edited(s, r, ins) == s[..r.start - 1] + b && (ins + s[r.end..])[0] == ins[0]
  {
    assert s[..r.start] == s[..r.start - 1] + [s[r.start - 1]];
  }

  lemma NameLikeStarts(ins: string, d: Dialect)
    requires NameLike(ins, d)
    ensures ins != "" && !IsDigit(ins[0]) && AllClosed(Tokens(ins, d))
  {
  }
}
