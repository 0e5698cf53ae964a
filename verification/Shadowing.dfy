/** Which relation references a scope sees, nearest first. */
module Shadowing {
  import opened Text
  import opened Wrappers
  import opened Scopes

  /** A relation in a FROM clause: its alias or last name, the path or derived table it stands for, and its scope. */
  datatype RelationRef = RelationRef(name: string, path: seq<string>, group: int, derived: int, tableFunction: bool,
      columnAliases: seq<string>)

  predicate RefsInside(t: Tree, refs: seq<RelationRef>) {
    forall i :: 0 <= i < |refs| ==> 0 <= refs[i].group < |t.groups|
  }

  /** How many groups enclose `g`. */
  function DepthOf(t: Tree, n: nat, g: int): (d: nat)
    requires ValidGroups(t, n) && g < |t.groups|
    decreases g
  {
    if g <= 0 then 0
    else
      assert ValidGroup(t, n, g);
      1 + DepthOf(t, n, t.groups[g].parent)
  }

  lemma {:induction false} AncestorIsShallower(t: Tree, n: nat, a: int, g: int)
    requires ValidGroups(t, n) && 0 <= a < |t.groups| && 0 <= g < |t.groups| && IsAncestorOrSelf(t, n, a, g)
    ensures DepthOf(t, n, a) <= DepthOf(t, n, g)
    ensures a != g ==> DepthOf(t, n, a) < DepthOf(t, n, g)
    decreases g
  {
    if a != g {
      assert g > 0 ==> ValidGroup(t, n, g);
      AncestorIsShallower(t, n, a, t.groups[g].parent);
    }
  }

  /** Of two scopes around a third, the deeper one is inside the other. */
  lemma {:induction false} DepthIsNesting(t: Tree, n: nat, a: int, b: int, g: int)
    requires ValidGroups(t, n) && 0 <= a < |t.groups| && 0 <= b < |t.groups| && 0 <= g < |t.groups|
    requires IsAncestorOrSelf(t, n, a, g) && IsAncestorOrSelf(t, n, b, g)
    ensures DepthOf(t, n, a) > DepthOf(t, n, b) <==> a != b && IsAncestorOrSelf(t, n, b, a)
    decreases g
  {
    if a == g {
      AncestorIsShallower(t, n, b, a);
    } else if b == g {
      AncestorIsShallower(t, n, a, b);
      if IsAncestorOrSelf(t, n, b, a) {
        AncestorIsShallower(t, n, b, a);
      }
    } else {
      assert g > 0 ==> ValidGroup(t, n, g);
      DepthIsNesting(t, n, a, b, t.groups[g].parent);
    }
  }

  // ---------- the list of visible references ----------

  predicate VisibleFrom(t: Tree, n: nat, refs: seq<RelationRef>, g: int, i: int)
    requires ValidGroups(t, n) && RefsInside(t, refs) && g < |t.groups|
  {
    0 <= i < |refs| && IsAncestorOrSelf(t, n, refs[i].group, g)
  }

  /** Reference `i` is listed before `j`: in a nearer scope, or in the same one and written first. */
  predicate Nearer(t: Tree, n: nat, refs: seq<RelationRef>, i: int, j: int)
    requires ValidGroups(t, n) && RefsInside(t, refs) && 0 <= i < |refs| && 0 <= j < |refs|
  {
    var di, dj := DepthOf(t, n, refs[i].group), DepthOf(t, n, refs[j].group);
    di > dj || (di == dj && i < j)
  }

  predicate InNearness(t: Tree, n: nat, refs: seq<RelationRef>, out: seq<int>)
    requires ValidGroups(t, n) && RefsInside(t, refs)
  {
    && (forall k :: 0 <= k < |out| ==> 0 <= out[k] < |refs|)
    && (forall j, k :: 0 <= j < k < |out| ==> Nearer(t, n, refs, out[j], out[k]))
  }

  /** The references of enclosing scopes, and no others, nearest scope first, in source order within one. */
  ghost predicate IsVisibleList(t: Tree, n: nat, refs: seq<RelationRef>, g: int, out: seq<int>)
    requires ValidGroups(t, n) && RefsInside(t, refs) && g < |t.groups|
  {
    InNearness(t, n, refs, out) && forall i :: VisibleFrom(t, n, refs, g, i) <==> i in out
  }

  /**
   `x`, written after all of `out`, put behind every reference that is not in a shallower scope: one step of the
   stable sort.
   */
  function Insert(t: Tree, n: nat, refs: seq<RelationRef>, out: seq<int>, x: int): seq<int>
    requires ValidGroups(t, n) && RefsInside(t, refs) && 0 <= x < |refs|
    requires forall k :: 0 <= k < |out| ==> 0 <= out[k] < |refs|
  {
    if out == [] then [x]
    else
      var last := out[|out| - 1];
      if DepthOf(t, n, refs[x].group) > DepthOf(t, n, refs[last].group)
      then Insert(t, n, refs, out[..|out| - 1], x) + [last]
      else out + [x]
  }

  lemma {:induction false} InsertKeepsOrder(t: Tree, n: nat, refs: seq<RelationRef>, out: seq<int>, x: int)
    requires ValidGroups(t, n) && RefsInside(t, refs) && 0 <= x < |refs|
    requires InNearness(t, n, refs, out) && forall k :: 0 <= k < |out| ==> out[k] < x
    ensures InNearness(t, n, refs, Insert(t, n, refs, out, x))
    ensures forall y :: y in Insert(t, n, refs, out, x) <==> y in out || y == x
    decreases |out|
  {
    hide ValidGroups, DepthOf;
    if out != [] {
      var front, last := out[..|out| - 1], out[|out| - 1];
      assert out == front + [last];
      if DepthOf(t, n, refs[x].group) > DepthOf(t, n, refs[last].group) {
        InsertKeepsOrder(t, n, refs, front, x);
        var placed := Insert(t, n, refs, front, x);
        forall k | 0 <= k < |placed| ensures Nearer(t, n, refs, placed[k], last) {
          assert placed[k] in placed;
          assert placed[k] in front || placed[k] == x;
        }
      }
    }
  }

  /** The references in scope at `g`, as indices into `refs`. */
  method VisibleRefs(t: Tree, n: nat, refs: seq<RelationRef>, g: int) returns (out: seq<int>)
    requires ValidGroups(t, n) && RefsInside(t, refs) && g < |t.groups|
    ensures IsVisibleList(t, n, refs, g, out)
  {
    hide ValidGroups, DepthOf, IsAncestorOrSelf, Nearer;
    out := [];
    for i := 0 to |refs|
      invariant InNearness(t, n, refs, out)
      invariant forall k :: k in out <==> k < i && VisibleFrom(t, n, refs, g, k)
    {
      if IsAncestorOrSelf(t, n, refs[i].group, g) {
        assert forall k :: 0 <= k < |out| ==> out[k] in out;
        InsertKeepsOrder(t, n, refs, out, i);
        out := Insert(t, n, refs, out, i);
      }
    }
  }

  // ---------- lookup by name ----------

  /** `best` is the visible reference of that name no other one shadows. */
  predicate IsNearestNamed(t: Tree, n: nat, refs: seq<RelationRef>, g: int, name: string, upTo: int, best: Option<int>)
    requires ValidGroups(t, n) && RefsInside(t, refs) && g < |t.groups|
  {
    match best
    case None => forall i :: 0 <= i < upTo && VisibleFrom(t, n, refs, g, i) ==> !Ieq(refs[i].name, name)
    case Some(k) =>
      && k < upTo && VisibleFrom(t, n, refs, g, k) && Ieq(refs[k].name, name)
      && forall i :: 0 <= i < upTo && VisibleFrom(t, n, refs, g, i) && Ieq(refs[i].name, name) ==>
           i == k || Nearer(t, n, refs, k, i)
  }

  /** The lookup's fold: a later reference wins only from a deeper scope. */
  function FindRefAmong(t: Tree, n: nat, refs: seq<RelationRef>, name: string, g: int, upTo: nat): (best: Option<int>)
    requires ValidGroups(t, n) && RefsInside(t, refs) && g < |t.groups| && upTo <= |refs|
    ensures best.Some? ==> 0 <= best.value < upTo
  {
    if upTo == 0 then None
    else
      var best := FindRefAmong(t, n, refs, name, g, upTo - 1);
      var r := refs[upTo - 1];
      if Ieq(r.name, name) && IsAncestorOrSelf(t, n, r.group, g)
         && (best.None? || DepthOf(t, n, r.group) > DepthOf(t, n, refs[best.value].group))
      then Some(upTo - 1) else best
  }

  lemma {:induction false} FindRefIsNearest(t: Tree, n: nat, refs: seq<RelationRef>, name: string, g: int, upTo: nat)
    requires ValidGroups(t, n) && RefsInside(t, refs) && g < |t.groups| && upTo <= |refs|
    ensures IsNearestNamed(t, n, refs, g, name, upTo, FindRefAmong(t, n, refs, name, g, upTo))
  {
    hide ValidGroups, DepthOf, IsAncestorOrSelf, Ieq;
    if upTo > 0 {
      FindRefIsNearest(t, n, refs, name, g, upTo - 1);
    }
  }

  method FindRef(t: Tree, n: nat, refs: seq<RelationRef>, name: string, g: int) returns (best: Option<int>)
    requires ValidGroups(t, n) && RefsInside(t, refs) && g < |t.groups|
    ensures best == FindRefAmong(t, n, refs, name, g, |refs|)
  {
    hide ValidGroups, DepthOf, IsAncestorOrSelf, Ieq;
    best := None;
    var bestDepth: int := -1;
    for i := 0 to |refs|
      invariant best == FindRefAmong(t, n, refs, name, g, i)
      invariant best.None? ==> bestDepth == -1
      invariant best.Some? ==> bestDepth == DepthOf(t, n, refs[best.value].group)
    {
      if !Ieq(refs[i].name, name) || !IsAncestorOrSelf(t, n, refs[i].group, g) {
        continue;
      }
      var d := DepthOf(t, n, refs[i].group);
      if d > bestDepth {
        bestDepth := d;
        best := Some(i);
      }
    }
  }

  /** The `p`th of the references `out` is the first of that name. */
  predicate IsFirstNamed(refs: seq<RelationRef>, out: seq<int>, name: string, p: int)
    requires forall k :: 0 <= k < |out| ==> 0 <= out[k] < |refs|
  {
    0 <= p < |out| && Ieq(refs[out[p]].name, name) && forall k :: 0 <= k < p ==> !Ieq(refs[out[k]].name, name)
  }

  /** Looking a name up finds the first visible reference of that name, and fails only when there is none. */
  lemma FindRefIsFirstVisible(t: Tree, n: nat, refs: seq<RelationRef>, g: int, name: string, out: seq<int>)
    requires ValidGroups(t, n) && RefsInside(t, refs) && g < |t.groups|
    requires IsVisibleList(t, n, refs, g, out)
    ensures match FindRefAmong(t, n, refs, name, g, |refs|)
            case None => forall k :: 0 <= k < |out| ==> !Ieq(refs[out[k]].name, name)
            case Some(best) => exists p :: IsFirstNamed(refs, out, name, p) && out[p] == best
  {
    FindRefIsNearest(t, n, refs, name, g, |refs|);
    hide ValidGroups, DepthOf, IsAncestorOrSelf, Ieq, FindRefAmong;
    assert forall k :: 0 <= k < |out| ==> out[k] in out;
    var best := FindRefAmong(t, n, refs, name, g, |refs|);
    if best.Some? {
      var p :| 0 <= p < |out| && out[p] == best.value;
      forall k | 0 <= k < p ensures !Ieq(refs[out[k]].name, name) {
        assert Nearer(t, n, refs, out[k], out[p]);
      }
      assert IsFirstNamed(refs, out, name, p);
    }
  }
}
