/** The parenthesis tree of a statement's tokens, balanced or not. */
module Scopes {
  import opened Text
  import opened Lexer

  predicate IsOpen(t: Token) {
    t.kind.Punct? && t.text == "("
  }

  predicate IsClose(t: Token) {
    t.kind.Punct? && t.text == ")"
  }

  /** A scope: its parent, the index of its `(`, and of its `)`, or the number of tokens when unclosed. */
  datatype Group = Group(parent: int, open: int, close: int)

  /** The tree built so far: the groups, the group each token is in, the group each `(` opens, and the open groups. */
  datatype Tree = Tree(groups: seq<Group>, groupOf: seq<int>, opens: seq<int>, stack: seq<int>)

  function Start(n: nat): Tree {
    Tree([Group(-1, -1, n)], [], [], [0])
  }

  function Top(t: Tree): int
    requires t.stack != []
  {
    t.stack[|t.stack| - 1]
  }

  /** The tree after one more token, of `n` in all. */
  function Step(t: Tree, tok: Token, n: nat): Tree
    requires t.stack != [] && forall k :: 0 <= k < |t.stack| ==> 0 <= t.stack[k] < |t.groups|
  {
    var i := |t.groupOf|;
    if IsOpen(tok) then
      var g := |t.groups|;
      Tree(t.groups + [Group(Top(t), i, n)], t.groupOf + [Top(t)], t.opens + [g], t.stack + [g])
    else if IsClose(tok) && |t.stack| > 1 then
      var closed := t.groups[Top(t) := t.groups[Top(t)].(close := i)];
      var rest := t.stack[..|t.stack| - 1];
      Tree(closed, t.groupOf + [rest[|rest| - 1]], t.opens + [-1], rest)
    else
      t.(groupOf := t.groupOf + [Top(t)], opens := t.opens + [-1])
  }

  // ---------- what every prefix keeps ----------

  /** The open groups, outermost first, each the parent of the next. */
  predicate StackLinked(t: Tree, n: nat) {
    && t.stack != [] && t.stack[0] == 0
    && (forall k :: 0 <= k < |t.stack| ==> 0 <= t.stack[k] < |t.groups| && t.groups[t.stack[k]].close == n)
    && (forall k :: 0 < k < |t.stack| ==> t.groups[t.stack[k]].parent == t.stack[k - 1])
    && (forall j, k :: 0 <= j < k < |t.stack| ==> t.stack[j] < t.stack[k])
  }

  /** No other group is unclosed. */
  predicate UnclosedOnStack(t: Tree, n: nat) {
    forall g :: 0 <= g < |t.groups| && t.groups[g].close == n ==> g in t.stack
  }

  predicate ValidStack(t: Tree, n: nat) {
    StackLinked(t, n) && UnclosedOnStack(t, n)
  }

  /** Group `g` opens inside its parent, and closes, if at all, before it. */
  predicate ValidGroup(t: Tree, n: nat, g: int)
    requires 0 < g < |t.groups|
  {
    var grp := t.groups[g];
    && 0 <= grp.parent < g
    && 0 <= grp.open < |t.groupOf| && grp.open < grp.close
    && (grp.close < |t.groupOf| || grp.close == n)
    && t.groups[grp.parent].open < grp.open
    && grp.close <= t.groups[grp.parent].close
    && t.groupOf[grp.open] == grp.parent
  }

  /** Groups are numbered in the order they open, parents first. */
  predicate ValidGroups(t: Tree, n: nat) {
    && |t.groupOf| <= n && t.groups != [] && t.groups[0] == Group(-1, -1, n)
    && (forall g :: 0 < g < |t.groups| ==> ValidGroup(t, n, g))
    && (forall g, h :: 0 <= g < h < |t.groups| ==> t.groups[g].open < t.groups[h].open)
  }

  /** Spans are nested or disjoint. */
  predicate ValidNesting(t: Tree) {
    forall g, h :: 0 <= g < h < |t.groups| ==>
      t.groups[g].close < t.groups[h].open || t.groups[h].close <= t.groups[g].close
  }

  predicate Encloses(t: Tree, g: int, i: int)
    requires 0 <= g < |t.groups|
  {
    t.groups[g].open < i < t.groups[g].close
  }

  /** Of the groups around token `i`, `g` opens last. */
  predicate Innermost(t: Tree, g: int, i: int) {
    && 0 <= g < |t.groups| && Encloses(t, g, i)
    && forall h :: 0 <= h < |t.groups| && Encloses(t, h, i) ==> h <= g
  }

  predicate ValidGroupOf(t: Tree) {
    forall i :: 0 <= i < |t.groupOf| ==> Innermost(t, t.groupOf[i], i)
  }

  predicate Valid(t: Tree, n: nat) {
    ValidStack(t, n) && ValidGroups(t, n) && ValidNesting(t) && ValidGroupOf(t)
  }

  lemma StartValid(n: nat)
    ensures Valid(Start(n), n)
  {
  }

  lemma TopOpen(t: Tree, n: nat)
    requires ValidStack(t, n) && ValidGroups(t, n)
    ensures 0 <= Top(t) < |t.groups| && t.groups[Top(t)].close == n && t.groups[Top(t)].open < |t.groupOf|
  {
    assert Top(t) > 0 ==> ValidGroup(t, n, Top(t));
  }

  /** The open groups are exactly those around the next token. */
  lemma TopIsInnermost(t: Tree, n: nat)
    requires ValidStack(t, n) && ValidGroups(t, n) && |t.groupOf| < n
    ensures Innermost(t, Top(t), |t.groupOf|)
  {
    TopOpen(t, n);
    forall h | 0 <= h < |t.groups| && Encloses(t, h, |t.groupOf|) ensures h <= Top(t) {
      assert h > 0 ==> ValidGroup(t, n, h);
      assert h in t.stack;
    }
  }

  /** Every group is closed by now, or open to the end. */
  lemma ClosedOrOpen(t: Tree, n: nat)
    requires ValidGroups(t, n)
    ensures forall g :: 0 <= g < |t.groups| ==> t.groups[g].close < |t.groupOf| || t.groups[g].close == n
    ensures forall g :: 0 <= g < |t.groups| ==> t.groups[g].open < |t.groupOf|
  {
    forall g | 0 <= g < |t.groups|
      ensures t.groups[g].close < |t.groupOf| || t.groups[g].close == n
      ensures t.groups[g].open < |t.groupOf|
    {
      assert g > 0 ==> ValidGroup(t, n, g);
    }
  }

  lemma StepPlain(t: Tree, tok: Token, n: nat)
    requires Valid(t, n) && |t.groupOf| < n && !IsOpen(tok) && !(IsClose(tok) && |t.stack| > 1)
    ensures Valid(Step(t, tok, n), n)
  {
    TopIsInnermost(t, n);
    var t' := Step(t, tok, n);
    hide Innermost;
    forall g | 0 < g < |t'.groups| ensures ValidGroup(t', n, g) {
      assert ValidGroup(t, n, g);
    }
    forall i | 0 <= i < |t'.groupOf| ensures Innermost(t', t'.groupOf[i], i) {
      InnermostSame(t, t', t'.groupOf[i], i);
    }
  }

  lemma InnermostSame(t: Tree, t': Tree, g: int, i: int)
    requires t.groups == t'.groups && Innermost(t, g, i)
    ensures Innermost(t', g, i)
  {
    assert forall h :: 0 <= h < |t.groups| ==> Encloses(t, h, i) == Encloses(t', h, i);
  }

  lemma InnermostOpened(t: Tree, t': Tree, g: int, i: int, grp: Group)
    requires t'.groups == t.groups + [grp] && i <= grp.open && Innermost(t, g, i)
    ensures Innermost(t', g, i)
  {
    assert forall h :: 0 <= h < |t.groups| ==> Encloses(t, h, i) == Encloses(t', h, i);
  }

  lemma StepOpenStack(t: Tree, t': Tree, n: nat)
    requires ValidStack(t, n) && |t.groupOf| < n
    requires t'.groups == t.groups + [Group(Top(t), |t.groupOf|, n)] && t'.stack == t.stack + [|t.groups|]
    ensures UnclosedOnStack(t', n)
  {
    hide StackLinked;
    forall g | 0 <= g < |t'.groups| && t'.groups[g].close == n ensures g in t'.stack {
      if g == |t.groups| {
        assert t'.stack[|t.stack|] == g;
      } else {
        assert g in t.stack;
      }
    }
  }

  lemma StepOpenLinks(t: Tree, t': Tree, n: nat)
    requires StackLinked(t, n) && |t.groupOf| < n
    requires t'.groups == t.groups + [Group(Top(t), |t.groupOf|, n)] && t'.stack == t.stack + [|t.groups|]
    ensures StackLinked(t', n)
  {
  }

  lemma StepOpenGroups(t: Tree, t': Tree, n: nat)
    requires ValidStack(t, n) && ValidGroups(t, n) && |t.groupOf| < n
    requires t'.groups == t.groups + [Group(Top(t), |t.groupOf|, n)] && t'.groupOf == t.groupOf + [Top(t)]
    ensures ValidGroups(t', n)
  {
    ClosedOrOpen(t, n);
    TopOpen(t, n);
    hide ValidStack;
    forall g | 0 < g < |t'.groups| ensures ValidGroup(t', n, g) {
      if g < |t.groups| {
        assert ValidGroup(t, n, g);
      }
    }
  }

  lemma StepOpen(t: Tree, tok: Token, n: nat)
    requires Valid(t, n) && |t.groupOf| < n && IsOpen(tok)
    ensures Valid(Step(t, tok, n), n)
  {
    TopIsInnermost(t, n);
    var t' := Step(t, tok, n);
    StepOpenStack(t, t', n);
    StepOpenLinks(t, t', n);
    StepOpenGroups(t, t', n);
    ClosedOrOpen(t, n);
    hide Innermost, ValidStack, ValidGroups;
    forall i | 0 <= i < |t'.groupOf| ensures Innermost(t', t'.groupOf[i], i) {
      InnermostOpened(t, t', t'.groupOf[i], i, Group(Top(t), |t.groupOf|, n));
    }
  }

  /** Closing the innermost open group at token `i` changes nothing about the tokens before it. */
  lemma InnermostClosed(t: Tree, t': Tree, g: int, i: int, top: int, at: int)
    requires 0 <= top < |t.groups| && t'.groups == t.groups[top := t.groups[top].(close := at)]
    requires i < at < t.groups[top].close && Innermost(t, g, i)
    ensures Innermost(t', g, i)
  {
    assert forall h :: 0 <= h < |t.groups| ==> Encloses(t, h, i) == Encloses(t', h, i);
  }

  lemma StepCloseStack(t: Tree, t': Tree, n: nat)
    requires ValidStack(t, n) && |t.stack| > 1 && |t.groupOf| < n
    requires t'.groups == t.groups[Top(t) := t.groups[Top(t)].(close := |t.groupOf|)]
    requires t'.stack == t.stack[..|t.stack| - 1]
    ensures ValidStack(t', n)
  {
    forall g | 0 <= g < |t'.groups| && t'.groups[g].close == n ensures g in t'.stack {
      assert g != Top(t) && g in t.stack;
      var k :| 0 <= k < |t.stack| && t.stack[k] == g;
      assert t'.stack[k] == g;
    }
  }

  /** Groups opened after the innermost open one are closed. */
  lemma LaterClosed(t: Tree, n: nat)
    requires ValidStack(t, n) && ValidGroups(t, n)
    ensures 0 <= Top(t) < |t.groups|
    ensures forall h :: Top(t) < h < |t.groups| ==> t.groups[h].close < |t.groupOf|
  {
    forall h | Top(t) < h < |t.groups| ensures t.groups[h].close < |t.groupOf| {
      assert ValidGroup(t, n, h);
    }
  }

  /** The tree `t` with its innermost open group closed by the next token. */
  predicate Closes(t: Tree, t': Tree) {
    && |t.stack| > 1 && 0 <= Top(t) < |t.groups|
    && t'.groups == t.groups[Top(t) := t.groups[Top(t)].(close := |t.groupOf|)]
    && t'.stack == t.stack[..|t.stack| - 1]
    && t'.groupOf == t.groupOf + [Top(t')]
  }

  lemma StepCloseGroups(t: Tree, t': Tree, n: nat)
    requires ValidStack(t, n) && ValidGroups(t, n) && |t.groupOf| < n && Closes(t, t')
    ensures ValidGroups(t', n)
  {
    TopOpen(t, n);
    LaterClosed(t, n);
    forall g | 0 < g < |t'.groups| ensures ValidGroup(t', n, g) {
      assert ValidGroup(t, n, g);
    }
  }

  lemma StepCloseNesting(t: Tree, t': Tree, n: nat)
    requires ValidStack(t, n) && ValidGroups(t, n) && ValidNesting(t) && |t.groupOf| < n && Closes(t, t')
    ensures ValidNesting(t')
  {
    TopOpen(t, n);
    LaterClosed(t, n);
    ClosedOrOpen(t, n);
  }

  lemma StepCloseGroupOf(t: Tree, t': Tree, n: nat)
    requires ValidStack(t, n) && ValidGroups(t, n) && ValidGroupOf(t) && |t.groupOf| < n && Closes(t, t')
    requires ValidStack(t', n) && ValidGroups(t', n)
    ensures ValidGroupOf(t')
  {
    var top, i := Top(t), |t.groupOf|;
    TopOpen(t, n);
    forall k | 0 <= k < |t'.groupOf| ensures Innermost(t', t'.groupOf[k], k) {
      if k < i {
        InnermostClosed(t, t', t.groupOf[k], k, top, i);
      } else {
        ParentInnermost(t, t', n);
      }
    }
  }

  /** A matched `)` itself is in the parent of the group it closes. */
  lemma ParentInnermost(t: Tree, t': Tree, n: nat)
    requires ValidStack(t, n) && ValidGroups(t, n) && |t.groupOf| < n && Closes(t, t')
    requires ValidStack(t', n)
    ensures Innermost(t', Top(t'), |t.groupOf|)
  {
    var i := |t.groupOf|;
    ClosedOrOpen(t, n);
    assert 0 <= Top(t') < |t.groups| && t'.groups[Top(t')].close == n;
    forall h | 0 <= h < |t'.groups| && Encloses(t', h, i) ensures h <= Top(t') {
      assert t'.groups[h].close == n;
      assert h in t'.stack;
    }
  }

  lemma StepClose(t: Tree, tok: Token, n: nat)
    requires Valid(t, n) && |t.groupOf| < n && IsClose(tok) && |t.stack| > 1
    ensures Valid(Step(t, tok, n), n)
  {
    var t' := Step(t, tok, n);
    TopOpen(t, n);
    StepCloseStack(t, t', n);
    hide ValidStack, ValidGroups, ValidNesting, ValidGroupOf;
    StepCloseGroups(t, t', n);
    StepCloseNesting(t, t', n);
    StepCloseGroupOf(t, t', n);
  }

  // ---------- every statement ----------

  lemma StepValid(t: Tree, tok: Token, n: nat)
    requires Valid(t, n) && |t.groupOf| < n
    ensures Valid(Step(t, tok, n), n)
    ensures |Step(t, tok, n).groupOf| == |t.groupOf| + 1
  {
    hide ValidStack, ValidGroups, ValidNesting, ValidGroupOf;
    if IsOpen(tok) {
      StepOpen(t, tok, n);
    } else if IsClose(tok) && |t.stack| > 1 {
      StepClose(t, tok, n);
    } else {
      StepPlain(t, tok, n);
    }
  }

  /** The tree after the first `i` tokens. */
  function TreeAt(toks: seq<Token>, i: nat): (t: Tree)
    requires i <= |toks|
    ensures Valid(t, |toks|) && |t.groupOf| == |t.opens| == i
  {
    if i == 0 then
      StartValid(|toks|);
      Start(|toks|)
    else
      var t := TreeAt(toks, i - 1);
      StepValid(t, toks[i - 1], |toks|);
      Step(t, toks[i - 1], |toks|)
  }

  /** The scope tree of a statement. */
  function ScopesOf(toks: seq<Token>): Tree {
    TreeAt(toks, |toks|)
  }

  /**
   For any tokens, balanced or not: groups are numbered as they open, parents first; spans are nested or
   disjoint; and every token is in the last-opened group around it, its own parentheses not counting.
   */
  lemma ScopesWellFormed(toks: seq<Token>)
    ensures ValidGroups(ScopesOf(toks), |toks|) && ValidNesting(ScopesOf(toks)) && ValidGroupOf(ScopesOf(toks))
    ensures |ScopesOf(toks).groupOf| == |toks|
  {
    hide ValidGroups, ValidNesting, ValidGroupOf, ValidStack;
  }

  // ---------- ancestors ----------

  predicate IsAncestorOrSelf(t: Tree, n: nat, a: int, g: int)
    requires ValidGroups(t, n) && g < |t.groups|
    decreases g
  {
    if g < 0 then false
    else if g == a then true
    else
      assert g > 0 ==> ValidGroup(t, n, g);
      IsAncestorOrSelf(t, n, a, t.groups[g].parent)
  }

  /** The span of `a` holds the span of `g`. */
  predicate SpanHolds(t: Tree, a: int, g: int)
    requires 0 <= a < |t.groups| && 0 <= g < |t.groups|
  {
    t.groups[a].open <= t.groups[g].open && t.groups[g].close <= t.groups[a].close
  }

  /** A group that holds another holds its parent. */
  lemma HoldsParent(t: Tree, n: nat, a: int, g: int)
    requires ValidGroups(t, n) && ValidNesting(t) && ValidGroupOf(t)
    requires 0 <= a < |t.groups| && 0 < g < |t.groups| && a != g && SpanHolds(t, a, g)
    ensures 0 <= t.groups[g].parent < g && SpanHolds(t, a, t.groups[g].parent)
  {
    assert ValidGroup(t, n, g);
    var p, open := t.groups[g].parent, t.groups[g].open;
    assert a < g;
    assert Encloses(t, a, open);
    assert Innermost(t, t.groupOf[open], open);
    assert a <= p;
  }

  lemma {:induction false} AncestorIsEnclosure(t: Tree, n: nat, a: int, g: int)
    requires ValidGroups(t, n) && ValidNesting(t) && ValidGroupOf(t)
    requires 0 <= a < |t.groups| && 0 <= g < |t.groups|
    ensures IsAncestorOrSelf(t, n, a, g) <==> SpanHolds(t, a, g)
    decreases g
  {
    hide ValidNesting, ValidGroupOf;
    if a != g {
      if g == 0 {
        assert ValidGroup(t, n, a);
      } else {
        assert ValidGroup(t, n, g);
        AncestorIsEnclosure(t, n, a, t.groups[g].parent);
        if SpanHolds(t, a, g) {
          HoldsParent(t, n, a, g);
        }
      }
    }
  }

  // ---------- parentheses and the insertion point ----------

  /** `opens` marks exactly the `(` tokens, each with the group it opens. */
  predicate OpensMarked(t: Tree, toks: seq<Token>) {
    && |t.opens| == |t.groupOf| <= |toks|
    && forall i :: 0 <= i < |t.opens| ==>
         if IsOpen(toks[i]) then 0 < t.opens[i] < |t.groups| && t.groups[t.opens[i]].open == i else t.opens[i] == -1
  }

  /** No group but the first opens elsewhere. */
  predicate OpensAtOpen(t: Tree, toks: seq<Token>) {
    && |t.groupOf| <= |toks|
    && forall g :: 0 < g < |t.groups| ==> 0 <= t.groups[g].open < |t.groupOf| && IsOpen(toks[t.groups[g].open])
  }

  /** Groups that close do so at `)` tokens. */
  predicate ClosesMarked(t: Tree, toks: seq<Token>) {
    && |t.groupOf| <= |toks|
    && forall g :: 0 <= g < |t.groups| && t.groups[g].close < |t.groupOf| ==>
         0 <= t.groups[g].close && IsClose(toks[t.groups[g].close])
  }

  lemma {:induction false} ParenthesesMarked(toks: seq<Token>, i: nat)
    requires i <= |toks|
    ensures OpensMarked(TreeAt(toks, i), toks) && OpensAtOpen(TreeAt(toks, i), toks)
            && ClosesMarked(TreeAt(toks, i), toks)
  {
    hide Valid, OpensMarked, OpensAtOpen, ClosesMarked;
    if i == 0 {
      NothingMarked(toks);
    } else {
      ParenthesesMarked(toks, i - 1);
      OpensStep(TreeAt(toks, i - 1), toks);
      OpensAtOpenStep(TreeAt(toks, i - 1), toks);
      ClosesStep(TreeAt(toks, i - 1), toks);
    }
  }

  lemma NothingMarked(toks: seq<Token>)
    ensures OpensMarked(TreeAt(toks, 0), toks) && OpensAtOpen(TreeAt(toks, 0), toks)
            && ClosesMarked(TreeAt(toks, 0), toks)
  {
  }

  lemma OpensStep(t: Tree, toks: seq<Token>)
    requires Valid(t, |toks|) && OpensMarked(t, toks) && |t.groupOf| < |toks|
    ensures OpensMarked(Step(t, toks[|t.groupOf|], |toks|), toks)
  {
    TopOpen(t, |toks|);
    hide ValidGroupOf, ValidNesting, ValidGroups;
  }

  lemma OpensAtOpenStep(t: Tree, toks: seq<Token>)
    requires Valid(t, |toks|) && OpensAtOpen(t, toks) && |t.groupOf| < |toks|
    ensures OpensAtOpen(Step(t, toks[|t.groupOf|], |toks|), toks)
  {
    TopOpen(t, |toks|);
    hide ValidGroupOf, ValidNesting, ValidGroups;
  }

  lemma ClosesStep(t: Tree, toks: seq<Token>)
    requires Valid(t, |toks|) && ClosesMarked(t, toks) && |t.groupOf| < |toks|
    ensures ClosesMarked(Step(t, toks[|t.groupOf|], |toks|), toks)
  {
    TopOpen(t, |toks|);
    ClosedOrOpen(t, |toks|);
    hide ValidGroupOf, ValidNesting, ValidGroups;
  }

  /** What the pass has recorded of a token it never changes. */
  lemma {:induction false} EarlierStays(toks: seq<Token>, i: nat, j: nat)
    requires i <= j <= |toks|
    ensures TreeAt(toks, i).groupOf == TreeAt(toks, j).groupOf[..i]
    ensures TreeAt(toks, i).opens == TreeAt(toks, j).opens[..i]
    decreases j - i
  {
    hide Valid;
    if i < j {
      EarlierStays(toks, i, j - 1);
    }
  }

  /** The group an insertion before token `i` would be in. */
  function GroupAt(toks: seq<Token>, i: nat): (g: int)
    requires i <= |toks|
    ensures 0 <= g < |TreeAt(toks, i).groups|
  {
    TopOpen(TreeAt(toks, i), |toks|);
    Top(TreeAt(toks, i))
  }

  /** Does token `i` close a group? */
  predicate Matched(toks: seq<Token>, i: nat)
    requires i < |toks|
  {
    IsClose(toks[i]) && |TreeAt(toks, i).stack| > 1
  }

  /** Later groups come after; a group keeps its parent and opening, and its closing once it has one. */
  predicate Grows(t: Tree, t': Tree, n: nat) {
    && |t.groups| <= |t'.groups|
    && forall g :: 0 <= g < |t.groups| ==>
         && t.groups[g].parent == t'.groups[g].parent && t.groups[g].open == t'.groups[g].open
         && (t.groups[g].close < n ==> t.groups[g].close == t'.groups[g].close)
  }

  lemma GrowsTransitive(t: Tree, t': Tree, t'': Tree, n: nat)
    requires Grows(t, t', n) && Grows(t', t'', n)
    ensures Grows(t, t'', n)
  {
  }

  lemma {:induction false} GroupsGrow(toks: seq<Token>, i: nat, j: nat)
    requires i <= j <= |toks|
    ensures Grows(TreeAt(toks, i), TreeAt(toks, j), |toks|)
    decreases j - i
  {
    if i < j {
      hide Grows, Valid;
      GroupsGrow(toks, i, j - 1);
      GroupsStep(TreeAt(toks, j - 1), toks[j - 1], |toks|);
      GrowsTransitive(TreeAt(toks, i), TreeAt(toks, j - 1), TreeAt(toks, j), |toks|);
    }
  }

  lemma GroupsStep(t: Tree, tok: Token, n: nat)
    requires Valid(t, n)
    ensures Grows(t, Step(t, tok, n), n)
  {
    hide ValidGroupOf, ValidNesting, ValidGroups;
  }

  /**
   An insertion before token `i` goes to the group that token is in, except before a
   matched `)`: there it goes to the group being closed, a child of that one.
   */
  lemma GroupAtIsGroupOf(toks: seq<Token>, i: nat)
    requires i < |toks|
    ensures |ScopesOf(toks).groupOf| == |toks| && 0 <= GroupAt(toks, i) < |ScopesOf(toks).groups|
    ensures !Matched(toks, i) ==> GroupAt(toks, i) == ScopesOf(toks).groupOf[i]
    ensures Matched(toks, i) ==>
      && ScopesOf(toks).groups[GroupAt(toks, i)].close == i
      && ScopesOf(toks).groups[GroupAt(toks, i)].parent == ScopesOf(toks).groupOf[i]
  {
    var t, t', n := TreeAt(toks, i), TreeAt(toks, i + 1), |toks|;
    EarlierStays(toks, i + 1, n);
    GroupsGrow(toks, i + 1, n);
    GroupsGrow(toks, i, i + 1);
    assert ScopesOf(toks).groupOf[i] == t'.groupOf[i];
    TopOpen(t, n);
    hide ValidGroupOf, ValidNesting, ValidGroups;
  }

  // ---------- the loops ----------

  class ScopeTree {
    var groups: seq<Group>
    var groupOf: seq<int>
    var opens: seq<int>

    constructor (toks: seq<Token>)
      ensures groups == ScopesOf(toks).groups && groupOf == ScopesOf(toks).groupOf && opens == ScopesOf(toks).opens
    {
      groups, groupOf, opens := [], [], [];
      new;
      BuildGroups(toks);
    }

    method BuildGroups(toks: seq<Token>)
      requires groups == []
      modifies this
      ensures groups == ScopesOf(toks).groups && groupOf == ScopesOf(toks).groupOf && opens == ScopesOf(toks).opens
    {
      hide Valid, TreeAt, Step;
      TreeStart(toks);
      var n := |toks|;
      groupOf := seq(n, _ => 0);
      opens := seq(n, _ => -1);
      groups := groups + [Group(-1, -1, n)];
      var stack := [0];
      for i := 0 to n
        invariant |groupOf| == |opens| == n
        invariant groups == TreeAt(toks, i).groups && stack == TreeAt(toks, i).stack
        invariant groupOf[..i] == TreeAt(toks, i).groupOf && opens[..i] == TreeAt(toks, i).opens
        invariant forall k :: i <= k < n ==> opens[k] == -1
      {
        StackIndices(TreeAt(toks, i), n);
        TreeNext(toks, i);
        var top := stack[|stack| - 1];
        if IsOpen(toks[i]) {
          SetNext(groupOf, i, top);
          groupOf := groupOf[i := top];
          var g := |groups|;
          groups := groups + [Group(top, i, n)];
          SetNext(opens, i, g);
          opens := opens[i := g];
          stack := stack + [g];
        } else if IsClose(toks[i]) {
          if |stack| > 1 {
            groups := groups[top := groups[top].(close := i)];
            stack := stack[..|stack| - 1];
          }
          SliceSnoc(opens, 0, i);
          SetNext(groupOf, i, stack[|stack| - 1]);
          groupOf := groupOf[i := stack[|stack| - 1]];
        } else {
          SliceSnoc(opens, 0, i);
          SetNext(groupOf, i, top);
          groupOf := groupOf[i := top];
        }
      }
    }

    /** Walk up from `g`. */
    method AncestorOrSelf(ghost n: nat, ancestor: int, g: int) returns (r: bool)
      requires var t := Tree(groups, groupOf, opens, []); ValidGroups(t, n) && g < |groups|
      ensures r <==> IsAncestorOrSelf(Tree(groups, groupOf, opens, []), n, ancestor, g)
    {
      var h := g;
      ghost var t := Tree(groups, groupOf, opens, []);
      while h >= 0
        invariant h <= g
        invariant IsAncestorOrSelf(t, n, ancestor, g) <==> IsAncestorOrSelf(t, n, ancestor, h)
        decreases h + 1
      {
        if h == ancestor {
          return true;
        }
        assert h > 0 ==> ValidGroup(t, n, h);
        h := groups[h].parent;
      }
      return false;
    }

    method FindGroupAt(toks: seq<Token>, index: nat) returns (g: int)
      requires index <= |toks|
      requires groups == ScopesOf(toks).groups && groupOf == ScopesOf(toks).groupOf && opens == ScopesOf(toks).opens
      ensures g == GroupAt(toks, index)
    {
      hide Valid;
      var stack := [0];
      for i := 0 to index
        invariant stack == TreeAt(toks, i).stack && stack != []
      {
        EarlierStays(toks, i + 1, |toks|);
        StackIndices(TreeAt(toks, i), |toks|);
        assert opens[i] == TreeAt(toks, i + 1).opens[i];
        if IsOpen(toks[i]) {
          stack := stack + [opens[i]];
        } else if IsClose(toks[i]) && |stack| > 1 {
          stack := stack[..|stack| - 1];
        }
      }
      g := stack[|stack| - 1];
    }
  }

  lemma TreeStart(toks: seq<Token>)
    ensures TreeAt(toks, 0) == Start(|toks|)
  {
  }

  /** One round of the pass, case by case. */
  lemma TreeNext(toks: seq<Token>, i: nat)
    requires i < |toks| && TreeAt(toks, i).stack != []
    requires forall k :: 0 <= k < |TreeAt(toks, i).stack| ==> 0 <= TreeAt(toks, i).stack[k] < |TreeAt(toks, i).groups|
    ensures var t, t' := TreeAt(toks, i), TreeAt(toks, i + 1);
            var rest := t.stack[..|t.stack| - 1];
            if IsOpen(toks[i]) then
              t' == Tree(t.groups + [Group(Top(t), i, |toks|)], t.groupOf + [Top(t)], t.opens + [|t.groups|],
                         t.stack + [|t.groups|])
            else if IsClose(toks[i]) && |t.stack| > 1 then
              t' == Tree(t.groups[Top(t) := t.groups[Top(t)].(close := i)], t.groupOf + [rest[|rest| - 1]],
                         t.opens + [-1], rest)
            else t' == t.(groupOf := t.groupOf + [Top(t)], opens := t.opens + [-1])
  {
    hide Valid;
  }

  lemma SetNext(s: seq<int>, i: nat, v: int)
    requires i < |s|
    ensures s[i := v][..i + 1] == s[..i] + [v]
  {
  }

  lemma StackIndices(t: Tree, n: nat)
    requires Valid(t, n)
    ensures t.stack != [] && forall k :: 0 <= k < |t.stack| ==> 0 <= t.stack[k] < |t.groups|
  {
  }
}
