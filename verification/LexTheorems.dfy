/**
 What the tokenizer promises about whole texts: its tokens tile the text, a text
 may be cut at any token boundary, and settled texts may be joined where one breaks.
 */
module LexTheorems {
  import opened Text
  import opened Lexer
  import opened LexCompose

  /** One step of `Lex`, for proofs that hide its body. */
  lemma LexStep(prev: char, r: string, d: Dialect, base: nat)
    ensures Lex(prev, r, d, base) ==
            if r == [] then []
            else if IsSpace(r[0]) then Lex(r[0], r[1..], d, base + 1)
            else
              var t := Munch(prev, r, d);
              [Shift(t, base)] + Lex(r[t.end - 1], r[t.end..], d, base + t.end)
  {
    hide Munch;
  }

  // ---------- the tokens tile the text ----------

  predicate InToken(ts: seq<Token>, p: nat) {
    exists i :: 0 <= i < |ts| && ts[i].begin <= p < ts[i].end
  }

  /** Tokens are non-empty, in order, disjoint and inside [lo, hi). */
  predicate Ordered(ts: seq<Token>, lo: nat, hi: nat) {
    && (forall i :: 0 <= i < |ts| ==> lo <= ts[i].begin < ts[i].end <= hi)
    && (forall i, j :: 0 <= i < j < |ts| ==> ts[i].end <= ts[j].begin)
  }

  lemma {:induction false} LexOrdered(prev: char, r: string, d: Dialect, base: nat)
    ensures Ordered(Lex(prev, r, d, base), base, base + |r|)
    decreases |r|
  {
    hide Munch, Lex;
    LexStep(prev, r, d, base);
    if r != [] {
      if IsSpace(r[0]) {
        LexOrdered(r[0], r[1..], d, base + 1);
      } else {
        var t := Munch(prev, r, d);
        LexOrdered(r[t.end - 1], r[t.end..], d, base + t.end);
        hide Ordered;
        OrderedCons(Shift(t, base), Lex(r[t.end - 1], r[t.end..], d, base + t.end), base, base + |r|);
      }
    }
  }

  lemma OrderedCons(t: Token, ts: seq<Token>, lo: nat, hi: nat)
    requires lo <= t.begin < t.end <= hi && Ordered(ts, t.end, hi)
    ensures Ordered([t] + ts, lo, hi)
  {
    forall i, j | 0 <= i < j < |[t] + ts| ensures ([t] + ts)[i].end <= ([t] + ts)[j].begin {
      assert ([t] + ts)[j] == ts[j - 1];
    }
  }

  /** Every byte outside the tokens is whitespace, and every token is what `Munch` reads at its own start. */
  lemma {:induction false} LexCovers(prev: char, r: string, d: Dialect, base: nat, p: nat)
    requires base <= p < base + |r|
    ensures IsSpace(r[p - base]) || InToken(Lex(prev, r, d, base), p)
    decreases |r|
  {
    hide Munch;
    var ts := Lex(prev, r, d, base);
    if IsSpace(r[0]) {
      if p > base {
        LexCovers(r[0], r[1..], d, base + 1, p);
      }
    } else {
      var t := Munch(prev, r, d);
      if p < base + t.end {
        assert ts[0].begin <= p < ts[0].end;
      } else {
        var rest := Lex(r[t.end - 1], r[t.end..], d, base + t.end);
        LexCovers(r[t.end - 1], r[t.end..], d, base + t.end, p);
        if InToken(rest, p) {
          var i :| 0 <= i < |rest| && rest[i].begin <= p < rest[i].end;
          assert ts[i + 1] == rest[i];
        }
      }
    }
  }

  /** The token `t` of `r` is the one `Munch` reads at its own start. */
  predicate MunchedAt(prev: char, r: string, d: Dialect, base: nat, t: Token) {
    && base <= t.begin < base + |r|
    && !IsSpace(r[t.begin - base])
    && t == Shift(Munch(Before(prev, r, t.begin - base), r[t.begin - base..], d), t.begin)
  }

  lemma MunchedLater(prev: char, r: string, d: Dialect, base: nat, k: nat, t: Token)
    requires 0 < k <= |r| && MunchedAt(r[k - 1], r[k..], d, base + k, t)
    ensures MunchedAt(prev, r, d, base, t)
  {
    hide Munch;
    assert r[k..][t.begin - (base + k)..] == r[t.begin - base..];
  }

  lemma {:induction false} LexMunches(prev: char, r: string, d: Dialect, base: nat, t: Token)
    requires t in Lex(prev, r, d, base)
    ensures MunchedAt(prev, r, d, base, t)
    decreases |r|
  {
    hide Munch, Lex;
    LexStep(prev, r, d, base);
    if IsSpace(r[0]) {
      LexMunches(r[0], r[1..], d, base + 1, t);
      MunchedLater(prev, r, d, base, 1, t);
    } else {
      var t0 := Munch(prev, r, d);
      if t == Shift(t0, base) {
        assert r[0..] == r;
      } else {
        LexMunches(r[t0.end - 1], r[t0.end..], d, base + t0.end, t);
        MunchedLater(prev, r, d, base, t0.end, t);
      }
    }
  }

  // ---------- offsets only shift ----------

  function ShiftAll(ts: seq<Token>, n: nat): (r: seq<Token>)
    ensures |r| == |ts|
    ensures forall i :: 0 <= i < |ts| ==> r[i] == Shift(ts[i], n)
  {
    seq(|ts|, i requires 0 <= i < |ts| => Shift(ts[i], n))
  }

  lemma ShiftCons(t: Token, ts: seq<Token>, n: nat)
    ensures ShiftAll([t] + ts, n) == [Shift(t, n)] + ShiftAll(ts, n)
  {
  }

  lemma {:induction false} LexShift(prev: char, r: string, d: Dialect, base: nat, n: nat)
    ensures Lex(prev, r, d, base + n) == ShiftAll(Lex(prev, r, d, base), n)
    decreases |r|
  {
    hide Munch, Lex;
    LexStep(prev, r, d, base);
    LexStep(prev, r, d, base + n);
    if r != [] {
      if IsSpace(r[0]) {
        LexShift(r[0], r[1..], d, base + 1, n);
      } else {
        var t := Munch(prev, r, d);
        LexShift(r[t.end - 1], r[t.end..], d, base + t.end, n);
        hide ShiftAll;
        ShiftCons(Shift(t, base), Lex(r[t.end - 1], r[t.end..], d, base + t.end), n);
      }
    }
  }

  // ---------- what comes before only matters right after an operand or a colon ----------

  predicate Neutral(prev: char) {
    !EndsOperand(prev) && prev != ':'
  }

  /** `r` starts with no colon, and with a dot only if both bytes make the same of it. */
  predicate SameBehind(prev: char, prev': char, r: string)
    requires r != []
  {
    r[0] != ':' && (r[0] == '.' && IsDigit(Next(r)) ==> EndsOperand(prev) == EndsOperand(prev'))
  }

  lemma LexNeutral(prev: char, prev': char, r: string, d: Dialect, base: nat)
    requires r == [] || IsSpace(r[0]) || (Neutral(prev) && Neutral(prev')) || SameBehind(prev, prev', r)
    ensures Lex(prev, r, d, base) == Lex(prev', r, d, base)
  {
    hide Munch, Lex, Neutral, SameBehind, IsSpace;
    LexStep(prev, r, d, base);
    LexStep(prev', r, d, base);
    if r != [] && !IsSpace(r[0]) {
      MunchNeutral(prev, prev', r, d);
    }
  }

  lemma MunchNeutral(prev: char, prev': char, r: string, d: Dialect)
    requires r != [] && !IsSpace(r[0]) && ((Neutral(prev) && Neutral(prev')) || SameBehind(prev, prev', r))
    ensures Munch(prev, r, d) == Munch(prev', r, d)
  {
    SameStarts(prev, prev', r);
    hide Neutral, SameBehind, StartsNumber, StartsParam, StartsTag, StartsLineComment, Quoted, BlockComment, TagToken,
      NumberEnd, RunEnd, FindChar;
  }

  lemma SameStarts(prev: char, prev': char, r: string)
    requires r != [] && ((Neutral(prev) && Neutral(prev')) || SameBehind(prev, prev', r))
    ensures StartsNumber(prev, r) == StartsNumber(prev', r) && StartsParam(prev, r) == StartsParam(prev', r)
  {
  }

  // ---------- cutting ----------

  /** No token of `r` straddles `e`. */
  predicate Boundary(prev: char, r: string, d: Dialect, e: nat)
    ensures Boundary(prev, r, d, e) ==> e <= |r|
    decreases |r|
  {
    e == 0 || (r != [] &&
      if IsSpace(r[0]) then Boundary(r[0], r[1..], d, e - 1)
      else
        var t := Munch(prev, r, d);
        t.end <= e && Boundary(r[t.end - 1], r[t.end..], d, e - t.end))
  }

  predicate Straddles(t: Token, p: nat) {
    t.begin < p < t.end
  }

  predicate NoneStraddles(ts: seq<Token>, p: nat) {
    forall t :: t in ts ==> !Straddles(t, p)
  }

  lemma NoneStraddlesCons(t: Token, ts: seq<Token>, p: nat)
    ensures NoneStraddles([t] + ts, p) <==> !Straddles(t, p) && NoneStraddles(ts, p)
  {
    assert forall x :: x in [t] + ts <==> x == t || x in ts;
  }

  lemma {:induction false} BoundaryIff(prev: char, r: string, d: Dialect, base: nat, e: nat)
    requires e <= |r|
    ensures Boundary(prev, r, d, e) <==> NoneStraddles(Lex(prev, r, d, base), base + e)
    decreases |r|
  {
    hide Munch, Lex, NoneStraddles;
    if e == 0 {
      NothingStraddlesTheStart(prev, r, d, base);
    } else {
      LexStep(prev, r, d, base);
      if IsSpace(r[0]) {
        BoundaryIff(r[0], r[1..], d, base + 1, e - 1);
      } else {
        var t := Munch(prev, r, d);
        NoneStraddlesCons(Shift(t, base), Lex(r[t.end - 1], r[t.end..], d, base + t.end), base + e);
        if t.end <= e {
          BoundaryIff(r[t.end - 1], r[t.end..], d, base + t.end, e - t.end);
        }
      }
    }
  }

  lemma NothingStraddlesTheStart(prev: char, r: string, d: Dialect, base: nat)
    ensures NoneStraddles(Lex(prev, r, d, base), base)
  {
    hide Munch, Lex;
    LexOrdered(prev, r, d, base);
  }

  lemma Assoc<T>(x: seq<T>, y: seq<T>, z: seq<T>)
    ensures x + (y + z) == (x + y) + z
  {
  }

  lemma DropJoin(a: string, b: string, k: nat)
    requires 0 < k <= |a|
    ensures (a + b)[k..] == a[k..] + b && (a + b)[k - 1] == a[k - 1]
  {
  }

  lemma CutWindow(r: string, e: nat)
    requires e <= |r|
    ensures Window(r, r[..e], e)
  {
  }

  lemma DropCut(r: string, k: nat, e: nat)
    requires 0 < k <= e <= |r|
    ensures r[k..][..e - k] == r[..e][k..] && r[k..][e - k..] == r[e..] && r[..e][k - 1] == r[k - 1]
  {
  }

  lemma SettledByCut(t: Token, r: string, e: nat)
    requires t.end <= e <= |r|
    ensures Settled(t, r[..e], e)
  {
  }

  /** One token of a cut: the rest of the text is cut as said, so the whole is. */
  lemma SplitToken(prev: char, r: string, d: Dialect, base: nat, e: nat, t: Token, rest: string)
    requires r != [] && !IsSpace(r[0]) && t == Munch(prev, r, d) && t.end <= e <= |r| && rest == r[t.end..]
    requires Lex(r[t.end - 1], rest, d, base + t.end)
          == Lex(r[t.end - 1], rest[..e - t.end], d, base + t.end)
             + Lex(Before(r[t.end - 1], rest, e - t.end), rest[e - t.end..], d, base + e)
    ensures Lex(prev, r, d, base) == Lex(prev, r[..e], d, base) + Lex(Before(prev, r, e), r[e..], d, base + e)
  {
    hide Munch, Lex, Window, Settled, IsSpace, Breaks;
    CutWindow(r, e);
    SettledByCut(t, r, e);
    MunchWindow(prev, r, r[..e], e, d);
    DropCut(r, t.end, e);
    LexStep(prev, r, d, base);
    LexStep(prev, r[..e], d, base);
    Assoc([Shift(t, base)], Lex(r[t.end - 1], rest[..e - t.end], d, base + t.end),
      Lex(Before(prev, r, e), r[e..], d, base + e));
  }

  /** Cutting a text at a token boundary cuts its token list there. */
  lemma {:induction false} Split(prev: char, r: string, d: Dialect, base: nat, e: nat)
    requires Boundary(prev, r, d, e)
    ensures Lex(prev, r, d, base) == Lex(prev, r[..e], d, base) + Lex(Before(prev, r, e), r[e..], d, base + e)
    decreases |r|
  {
    hide Munch, Lex;
    if e == 0 {
      LexStep(prev, r[..e], d, base);
      assert r[0..] == r;
    } else if IsSpace(r[0]) {
      LexStep(prev, r[..e], d, base);
      LexStep(prev, r, d, base);
      Split(r[0], r[1..], d, base + 1, e - 1);
      DropCut(r, 1, e);
    } else {
      var t := Munch(prev, r, d);
      Split(r[t.end - 1], r[t.end..], d, base + t.end, e - t.end);
      SplitToken(prev, r, d, base, e, t, r[t.end..]);
    }
  }

  // ---------- joining ----------

  /** The tokens `ts` of a text that ends at `n` are finished whatever follows, or finished by `b`. */
  predicate Sealed(ts: seq<Token>, n: nat, b: string) {
    forall t :: t in ts ==>
      && (t.closed || b == [])
      && (t.lineComment && t.end == n && b != [] ==> b[0] == '\n')
      && (t.kind.Number? && t.end == n && b != [] ==> b[0] != '.')
  }

  lemma JoinWindow(a: string, b: string)
    requires b != [] ==> Breaks(b[0])
    ensures Window(a, a + b, |a|)
  {
  }

  lemma JoinToken(prev: char, a: string, b: string, d: Dialect, base: nat, t: Token, rest: string)
    requires b != [] ==> Breaks(b[0])
    requires a != [] && !IsSpace(a[0]) && t == Munch(prev, a, d) && rest == a[t.end..] && Settled(t, a + b, |a|)
    requires Lex(a[t.end - 1], rest + b, d, base + t.end)
          == Lex(a[t.end - 1], rest, d, base + t.end) + Lex(Before(a[t.end - 1], rest, |rest|), b, d, base + |a|)
    ensures Lex(prev, a + b, d, base) == Lex(prev, a, d, base) + Lex(Before(prev, a, |a|), b, d, base + |a|)
  {
    hide Munch, Lex, Window, Settled, IsSpace, Breaks;
    JoinWindow(a, b);
    MunchWindow(prev, a, a + b, |a|, d);
    DropJoin(a, b, t.end);
    LexStep(prev, a, d, base);
    LexStep(prev, a + b, d, base);
    Assoc([Shift(t, base)], Lex(a[t.end - 1], rest, d, base + t.end), Lex(Before(prev, a, |a|), b, d, base + |a|));
  }

  /** Texts joined where the second breaks off the first lex to the two token lists, one after the other. */
  lemma {:induction false} Join(prev: char, a: string, b: string, d: Dialect, base: nat)
    requires b != [] ==> Breaks(b[0])
    requires Sealed(Lex(prev, a, d, base), base + |a|, b)
    ensures Lex(prev, a + b, d, base) == Lex(prev, a, d, base) + Lex(Before(prev, a, |a|), b, d, base + |a|)
    decreases |a|
  {
    hide Munch, Lex;
    LexStep(prev, a, d, base);
    if a == [] {
      assert a + b == b;
    } else if IsSpace(a[0]) {
      LexStep(prev, a + b, d, base);
      Join(a[0], a[1..], b, d, base + 1);
      DropJoin(a, b, 1);
    } else {
      var t := Munch(prev, a, d);
      assert Shift(t, base) in Lex(prev, a, d, base);
      Join(a[t.end - 1], a[t.end..], b, d, base + t.end);
      JoinToken(prev, a, b, d, base, t, a[t.end..]);
    }
  }
}
