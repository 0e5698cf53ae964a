/**
 The two statement splitters: `StatementRanges` lists every statement of a text,
 `StatementRangeAt` finds the one around an offset.
 */
module Statements {
  import opened Text
  import opened Lexer
  import opened LexTheorems
  import opened Tokenizer

  predicate IsSemi(t: Token) {
    t.kind.Punct? && t.text == ";"
  }

  /** A token a statement may begin or end with. */
  predicate Substantive(t: Token) {
    !IsSemi(t) && !t.kind.Comment?
  }

  predicate OnlyComments(ts: seq<Token>, lo: nat, hi: nat)
    requires lo <= hi <= |ts|
  {
    forall i :: lo <= i < hi ==> ts[i].kind.Comment?
  }

  predicate NoSemi(ts: seq<Token>, lo: nat, hi: nat)
    requires lo <= hi <= |ts|
  {
    forall i :: lo <= i < hi ==> !IsSemi(ts[i])
  }

  // ---------- every statement ----------

  /**
   Token indices of a statement: [first, last) are its tokens, and [lo, hi) adds the
   comments around it, up to the semicolons or the ends of the text.
   */
  datatype Statement = Statement(lo: nat, first: nat, last: nat, hi: nat)

  predicate IsStatement(ts: seq<Token>, st: Statement) {
    && st.lo <= st.first < st.last <= st.hi <= |ts|
    && (st.lo == 0 || IsSemi(ts[st.lo - 1]))
    && (st.hi == |ts| || IsSemi(ts[st.hi]))
    && Substantive(ts[st.first]) && Substantive(ts[st.last - 1])
    && OnlyComments(ts, st.lo, st.first) && OnlyComments(ts, st.last, st.hi)
    && NoSemi(ts, st.first, st.last)
  }

  /** The run of tokens or of bytes seen of the statement being read. */
  datatype Seen = Empty | Seen(first: nat, last: nat)

  function Flush(cur: Seen, lo: nat, k: nat): seq<Statement> {
    if cur.Seen? then [Statement(lo, cur.first, cur.last, k)] else []
  }

  function Extend(cur: Seen, k: nat): Seen {
    Seen(if cur.Seen? then cur.first else k, k + 1)
  }

  /** The statements from token `k` on, the current one having begun after `lo` and holding the tokens `cur`. */
  function StatementsFrom(ts: seq<Token>, k: nat, lo: nat, cur: Seen): seq<Statement>
    requires k <= |ts|
    decreases |ts| - k
  {
    if k == |ts| then Flush(cur, lo, k)
    else if IsSemi(ts[k]) then Flush(cur, lo, k) + StatementsFrom(ts, k + 1, k + 1, Empty)
    else if ts[k].kind.Comment? then StatementsFrom(ts, k + 1, lo, cur)
    else StatementsFrom(ts, k + 1, lo, Extend(cur, k))
  }

  function AllStatements(ts: seq<Token>): seq<Statement> {
    StatementsFrom(ts, 0, 0, Empty)
  }

  /** The tokens since `lo`, when the loop stands at token `k`. */
  predicate Pending(ts: seq<Token>, k: nat, lo: nat, cur: Seen) {
    && lo <= k <= |ts| && (lo == 0 || IsSemi(ts[lo - 1]))
    && match cur
       case Empty => OnlyComments(ts, lo, k)
       case Seen(first, last) =>
         && lo <= first < last <= k && Substantive(ts[first]) && Substantive(ts[last - 1])
         && OnlyComments(ts, lo, first) && OnlyComments(ts, last, k) && NoSemi(ts, first, last)
  }

  predicate NoneSubstantive(ts: seq<Token>, lo: nat, hi: nat) {
    forall i :: lo <= i < hi && i < |ts| ==> !Substantive(ts[i])
  }

  /** From `lo` on, the statements of `ts` are `sts`; of the tokens from `from` on, no other is substantive. */
  predicate Chain(ts: seq<Token>, sts: seq<Statement>, lo: nat, from: nat) {
    if sts == [] then NoneSubstantive(ts, from, |ts|)
    else
      && IsStatement(ts, sts[0]) && lo <= sts[0].lo && from <= sts[0].first
      && NoneSubstantive(ts, from, sts[0].first)
      && Chain(ts, sts[1..], sts[0].hi + 1, sts[0].last)
  }

  lemma ChainCons(ts: seq<Token>, st: Statement, rest: seq<Statement>)
    requires IsStatement(ts, st) && Chain(ts, rest, st.hi + 1, st.last)
    ensures Chain(ts, [st] + rest, st.lo, st.first)
  {
    hide IsStatement;
    assert st.lo <= st.first by { StatementBounds(ts, st); }
    assert ([st] + rest)[1..] == rest;
  }

  lemma StatementBounds(ts: seq<Token>, st: Statement)
    requires IsStatement(ts, st)
    ensures st.lo <= st.first < st.last <= st.hi <= |ts|
    ensures NoneSubstantive(ts, st.last, st.hi + 1)
  {
  }

  /** Tokens that are not substantive may be skipped. */
  lemma ChainSkip(ts: seq<Token>, sts: seq<Statement>, lo: nat, from: nat, lo': nat, from': nat)
    requires Chain(ts, sts, lo, from) && lo' <= lo && from' <= from
    requires NoneSubstantive(ts, from', from)
    ensures Chain(ts, sts, lo', from')
  {
    hide IsStatement, Substantive;
  }

  function FirstHeld(cur: Seen, k: nat): nat {
    if cur.Seen? then cur.first else k
  }

  lemma PendingStatement(ts: seq<Token>, k: nat, lo: nat, cur: Seen)
    requires Pending(ts, k, lo, cur) && (k == |ts| || IsSemi(ts[k]))
    ensures lo <= k <= |ts|
    ensures cur.Seen? ==> IsStatement(ts, Statement(lo, cur.first, cur.last, k)) && NoneSubstantive(ts, cur.last, k + 1)
  {
  }

  /** What the loop holds when it meets a semicolon or the end, in front of what comes after. */
  lemma ChainFlush(ts: seq<Token>, k: nat, lo: nat, cur: Seen, rest: seq<Statement>)
    requires Pending(ts, k, lo, cur) && (k == |ts| || IsSemi(ts[k])) && Chain(ts, rest, k + 1, k + 1)
    ensures Chain(ts, Flush(cur, lo, k) + rest, lo, FirstHeld(cur, k))
  {
    PendingStatement(ts, k, lo, cur);
    hide Pending, Chain, IsStatement;
    if cur.Seen? {
      StatementBounds(ts, Statement(lo, cur.first, cur.last, k));
      ChainSkip(ts, rest, k + 1, k + 1, k + 1, cur.last);
      ChainCons(ts, Statement(lo, cur.first, cur.last, k), rest);
    } else {
      ChainSkip(ts, rest, k + 1, k + 1, lo, k);
      assert Flush(cur, lo, k) + rest == rest;
    }
  }

  lemma PendingStep(ts: seq<Token>, k: nat, lo: nat, cur: Seen)
    requires k < |ts| && Pending(ts, k, lo, cur)
    ensures IsSemi(ts[k]) ==> Pending(ts, k + 1, k + 1, Empty)
    ensures ts[k].kind.Comment? ==> Pending(ts, k + 1, lo, cur)
    ensures Substantive(ts[k]) ==> Pending(ts, k + 1, lo, Extend(cur, k))
    ensures lo <= k && FirstHeld(cur, k) <= FirstHeld(cur, k + 1)
    ensures ts[k].kind.Comment? ==> NoneSubstantive(ts, FirstHeld(cur, k), FirstHeld(cur, k + 1))
  {
  }

  lemma {:induction false} StatementsChain(ts: seq<Token>, k: nat, lo: nat, cur: Seen)
    requires Pending(ts, k, lo, cur)
    ensures Chain(ts, StatementsFrom(ts, k, lo, cur), lo, FirstHeld(cur, k))
    decreases |ts| - k
  {
    assert k <= |ts|;
    assert Chain(ts, [], |ts| + 1, |ts| + 1);
    hide Pending, Chain, Flush;
    if k == |ts| {
      ChainFlush(ts, k, lo, cur, []);
      assert Flush(cur, lo, k) + [] == Flush(cur, lo, k);
    } else {
      PendingStep(ts, k, lo, cur);
      if IsSemi(ts[k]) {
        StatementsChain(ts, k + 1, k + 1, Empty);
        ChainFlush(ts, k, lo, cur, StatementsFrom(ts, k + 1, k + 1, Empty));
      } else if ts[k].kind.Comment? {
        StatementsChain(ts, k + 1, lo, cur);
        ChainSkip(ts, StatementsFrom(ts, k + 1, lo, cur), lo, FirstHeld(cur, k + 1), lo, FirstHeld(cur, k));
      } else {
        StatementsChain(ts, k + 1, lo, Extend(cur, k));
      }
    }
  }

  lemma {:induction false} ChainNth(ts: seq<Token>, sts: seq<Statement>, lo: nat, from: nat, n: nat)
    requires Chain(ts, sts, lo, from) && n < |sts|
    ensures IsStatement(ts, sts[n]) && lo <= sts[n].lo
    decreases n
  {
    if n > 0 {
      StatementBounds(ts, sts[0]);
      hide IsStatement;
      ChainNth(ts, sts[1..], sts[0].hi + 1, sts[0].last, n - 1);
    }
  }

  lemma {:induction false} ChainOrder(ts: seq<Token>, sts: seq<Statement>, lo: nat, from: nat, m: nat, n: nat)
    requires Chain(ts, sts, lo, from) && m < n < |sts|
    ensures sts[m].hi < sts[n].lo
    decreases m
  {
    hide IsStatement;
    if m > 0 {
      ChainOrder(ts, sts[1..], sts[0].hi + 1, sts[0].last, m - 1, n - 1);
    } else {
      ChainNth(ts, sts[1..], sts[0].hi + 1, sts[0].last, n - 1);
    }
  }

  predicate Holds(st: Statement, x: nat) {
    st.first <= x < st.last
  }

  predicate SomeHolds(sts: seq<Statement>, x: nat) {
    exists n :: 0 <= n < |sts| && Holds(sts[n], x)
  }

  lemma {:induction false} ChainCovers(ts: seq<Token>, sts: seq<Statement>, lo: nat, from: nat, x: nat)
    requires Chain(ts, sts, lo, from) && from <= x < |ts| && Substantive(ts[x])
    ensures SomeHolds(sts, x)
    decreases |sts|
  {
    hide IsStatement, Substantive;
    if sts[0].last <= x {
      ChainCovers(ts, sts[1..], sts[0].hi + 1, sts[0].last, x);
      var n :| 0 <= n < |sts[1..]| && Holds(sts[1..][n], x);
      assert Holds(sts[n + 1], x);
    } else {
      assert Holds(sts[0], x);
    }
  }

  /**
   Every statement listed is a maximal stretch between semicolons, first to last token; they
   come in order; and every token that is no comment and no `;` belongs to one of them.
   */
  lemma StatementsExact(ts: seq<Token>)
    ensures forall n :: 0 <= n < |AllStatements(ts)| ==> IsStatement(ts, AllStatements(ts)[n])
    ensures forall m, n :: 0 <= m < n < |AllStatements(ts)| ==> AllStatements(ts)[m].hi < AllStatements(ts)[n].lo
    ensures forall x :: 0 <= x < |ts| && Substantive(ts[x]) ==> SomeHolds(AllStatements(ts), x)
  {
    var sts := AllStatements(ts);
    StatementsChain(ts, 0, 0, Empty);
    hide Chain, IsStatement, SomeHolds;
    forall n | 0 <= n < |sts| ensures IsStatement(ts, sts[n]) {
      ChainNth(ts, sts, 0, 0, n);
    }
    forall m, n | 0 <= m < n < |sts| ensures sts[m].hi < sts[n].lo {
      ChainOrder(ts, sts, 0, 0, m, n);
    }
    forall x | 0 <= x < |ts| && Substantive(ts[x]) ensures SomeHolds(sts, x) {
      ChainCovers(ts, sts, 0, 0, x);
    }
  }

  // ---------- as byte ranges ----------

  function RangeOf(ts: seq<Token>, st: Statement): (nat, nat)
    requires IsStatement(ts, st)
  {
    (ts[st.first].begin, ts[st.last - 1].end)
  }

  function Ranges(ts: seq<Token>): (r: seq<(nat, nat)>)
    ensures |r| == |AllStatements(ts)|
  {
    StatementsExact(ts);
    seq(|AllStatements(ts)|, n requires 0 <= n < |AllStatements(ts)| => RangeOf(ts, AllStatements(ts)[n]))
  }

  /** The loop's `first` and `last` bytes, as token indices. */
  function CurRange(ts: seq<Token>, cur: Seen): Seen
    requires cur.Seen? ==> cur.first < cur.last <= |ts|
  {
    if cur.Seen? then Seen(ts[cur.first].begin, ts[cur.last - 1].end) else Empty
  }

  lemma RangesAt(ts: seq<Token>, n: nat)
    requires n < |AllStatements(ts)|
    ensures IsStatement(ts, AllStatements(ts)[n])
    ensures Ranges(ts)[n] == RangeOf(ts, AllStatements(ts)[n])
  {
    StatementsExact(ts);
  }

  method StatementRanges(s: string, ty: DatabaseType) returns (out: seq<(nat, nat)>)
    ensures out == Ranges(Tokens(s, DialectFor(ty)))
  {
    var ts := Tokenize(s, DialectFor(ty));
    hide Tokens, Lex, DialectFor, Pending, Ranges, IsStatement;
    ghost var all := AllStatements(ts);
    out := [];
    var open: Seen := Empty;
    ghost var cur, lo := Empty, 0;
    PendingAtStart(ts);
    for k := 0 to |ts|
      invariant Pending(ts, k, lo, cur) && (cur.Seen? ==> cur.first < cur.last <= |ts|)
      invariant open == CurRange(ts, cur)
      invariant |out| <= |all| && StatementsFrom(ts, k, lo, cur) == all[|out|..]
      invariant forall n :: 0 <= n < |out| ==> out[n] == Ranges(ts)[n]
    {
      PendingStep(ts, k, lo, cur);
      var t := ts[k];
      if IsSemi(t) {
        if open.Seen? {
          TakeOne(all, |out|, Flush(cur, lo, k)[0], StatementsFrom(ts, k + 1, k + 1, Empty));
          RangesAt(ts, |out|);
          out := out + [(open.first, open.last)];
        }
        open := Empty;
        cur, lo := Empty, k + 1;
      } else if !t.kind.Comment? {
        open := Seen(if open.Seen? then open.first else t.begin, t.end);
        cur := Extend(cur, k);
      }
    }
    if open.Seen? {
      TakeOne(all, |out|, Flush(cur, lo, |ts|)[0], []);
      RangesAt(ts, |out|);
      out := out + [(open.first, open.last)];
    }
  }

  lemma PendingAtStart(ts: seq<Token>)
    ensures Pending(ts, 0, 0, Empty)
  {
  }

  lemma TakeOne<T>(all: seq<T>, n: nat, x: T, rest: seq<T>)
    requires n <= |all| && all[n..] == [x] + rest
    ensures n < |all| && all[n] == x && all[n + 1..] == rest
  {
    assert all[n..][0] == all[n];
    assert all[n..][1..] == all[n + 1..];
  }

  // ---------- the statement around an offset ----------

  datatype Span = Span(begin: nat, end: nat, firstTok: nat, lastTok: nat)

  /** The span between the last semicolon that ends by `offset` and the next one. */
  predicate IsSpanAt(ts: seq<Token>, offset: nat, length: nat, span: Span) {
    && span.firstTok <= span.lastTok <= |ts|
    && NoSemi(ts, span.firstTok, span.lastTok)
    && (if span.firstTok == 0 then span.begin == 0
        else IsSemi(ts[span.firstTok - 1]) && span.begin == ts[span.firstTok - 1].end <= offset)
    && (if span.lastTok == |ts| then span.end == length
        else IsSemi(ts[span.lastTok]) && span.end == ts[span.lastTok].begin && offset < ts[span.lastTok].end)
  }

  method StatementAt(ts: seq<Token>, offset: nat, length: nat) returns (span: Span)
    ensures IsSpanAt(ts, offset, length, span)
  {
    span := Span(0, length, 0, |ts|);
    for i := 0 to |ts|
      invariant span.firstTok <= i && span.lastTok == |ts| && span.end == length
      invariant NoSemi(ts, span.firstTok, i)
      invariant if span.firstTok == 0 then span.begin == 0
                else IsSemi(ts[span.firstTok - 1]) && span.begin == ts[span.firstTok - 1].end <= offset
    {
      var t := ts[i];
      if t.kind.Punct? && t.text == ";" {
        if t.end <= offset {
          span := span.(begin := t.end, firstTok := i + 1);
        } else {
          span := span.(end := t.begin, lastTok := i);
          return;
        }
      }
    }
  }

  /** Only one span of an ordered token list fits an offset. */
  lemma SpanAtUnique(ts: seq<Token>, offset: nat, length: nat, x: Span, y: Span)
    requires Ordered(ts, 0, length)
    requires IsSpanAt(ts, offset, length, x) && IsSpanAt(ts, offset, length, y)
    ensures x == y
  {
    SpanAtLeft(ts, offset, length, x, y);
    SpanAtLeft(ts, offset, length, y, x);
  }

  lemma SpanAtLeft(ts: seq<Token>, offset: nat, length: nat, x: Span, y: Span)
    requires Ordered(ts, 0, length)
    requires IsSpanAt(ts, offset, length, x) && IsSpanAt(ts, offset, length, y)
    ensures x.firstTok <= y.firstTok && x.lastTok <= y.lastTok
  {
  }

  /** [b, e) is [begin, end) without the whitespace at its ends. */
  predicate Trimmed(s: string, begin: nat, end: nat, b: nat, e: nat) {
    && begin <= b <= e <= end <= |s|
    && (forall p :: begin <= p < b ==> IsSpace(s[p]))
    && (forall p :: e <= p < end ==> IsSpace(s[p]))
    && (b < e ==> !IsSpace(s[b]) && !IsSpace(s[e - 1]))
    && (b == e ==> b == end)
  }

  /** What `StatementRangeAt` finds: the span at the offset, trimmed. */
  ghost predicate IsRangeAt(s: string, d: Dialect, offset: nat, b: nat, e: nat) {
    exists span :: IsSpanAt(Tokens(s, d), if offset < |s| then offset else |s|, |s|, span)
      && Trimmed(s, span.begin, span.end, b, e)
  }

  method StatementRangeAt(s: string, offset: nat, ty: DatabaseType) returns (b: nat, e: nat)
    ensures IsRangeAt(s, DialectFor(ty), offset, b, e)
  {
    var at := if offset < |s| then offset else |s|;
    var ts := Tokenize(s, DialectFor(ty));
    LexOrdered(' ', s, DialectFor(ty), 0);
    var span := StatementAt(ts, at, |s|);
    SpanInside(ts, at, |s|, span);
    b := span.begin;
    while b < span.end && IsSpace(s[b])
      invariant span.begin <= b <= span.end
      invariant forall p :: span.begin <= p < b ==> IsSpace(s[p])
    {
      b := b + 1;
    }
    e := span.end;
    while e > b && IsSpace(s[e - 1])
      invariant b <= e <= span.end
      invariant forall p :: e <= p < span.end ==> IsSpace(s[p])
    {
      e := e - 1;
    }
    assert Trimmed(s, span.begin, span.end, b, e);
  }

  lemma SpanInside(ts: seq<Token>, offset: nat, length: nat, span: Span)
    requires Ordered(ts, 0, length) && IsSpanAt(ts, offset, length, span)
    ensures span.begin <= span.end <= length
  {
    if 0 < span.firstTok {
      assert ts[span.firstTok - 1].end <= length;
      if span.lastTok < |ts| {
        assert ts[span.firstTok - 1].end <= ts[span.lastTok].begin;
      }
    }
  }

  lemma RangeAtUnique(s: string, d: Dialect, offset: nat, b: nat, e: nat, b': nat, e': nat)
    requires IsRangeAt(s, d, offset, b, e) && IsRangeAt(s, d, offset, b', e')
    ensures b == b' && e == e'
  {
    var ts := Tokens(s, d);
    var at := if offset < |s| then offset else |s|;
    LexOrdered(' ', s, d, 0);
    assert Ordered(ts, 0, |s|);
    hide Tokens, Lex, Munch, Ordered, IsSpanAt, Trimmed;
    var x :| IsSpanAt(ts, at, |s|, x) && Trimmed(s, x.begin, x.end, b, e);
    var y :| IsSpanAt(ts, at, |s|, y) && Trimmed(s, y.begin, y.end, b', e');
    SpanAtUnique(ts, at, |s|, x, y);
    TrimmedUnique(s, x.begin, x.end, b, e, b', e');
  }

  lemma TrimmedUnique(s: string, begin: nat, end: nat, b: nat, e: nat, b': nat, e': nat)
    requires Trimmed(s, begin, end, b, e) && Trimmed(s, begin, end, b', e')
    ensures b == b' && e == e'
  {
  }
}
