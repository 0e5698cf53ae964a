/** How well a label matches what the user typed. */
module Matching {
  import opened Text
  import opened Wrappers

  const TIER_PREFIX := 4000
  const EXACT_CASE_BONUS := 150
  const TIER_BOUNDARY := 3000
  const TIER_SUBSTRING := 2000
  const TIER_FUZZY := 1000
  const TIER_EMPTY := 4000
  const NO_MATCH := -1

  // ---------- what each tier means ----------

  /** `p` occurs in `text` at `pos`, in any case. */
  predicate Occurs(text: string, p: string, pos: nat) {
    pos + |p| <= |text| && Ieq(text[pos..pos + |p|], p)
  }

  predicate OccursAnywhere(text: string, p: string) {
    exists pos :: 0 <= pos <= |text| && Occurs(text, p, pos)
  }

  /** A word starts at `pos`: after `_`, `.` or a space, or at a capital after a small letter. */
  predicate WordStarts(text: string, pos: nat) {
    0 < pos < |text| &&
    (text[pos - 1] == '_' || text[pos - 1] == '.' || text[pos - 1] == ' '
     || (IsUpper(text[pos]) && IsLower(text[pos - 1])))
  }

  predicate OccursAtWord(text: string, p: string) {
    exists pos :: 0 <= pos <= |text| && Occurs(text, p, pos) && WordStarts(text, pos)
  }

  /** `places` picks the characters of `p` out of `s`, from left to right, in any case. */
  predicate Picks(s: string, p: string, places: seq<nat>) {
    && |places| == |p|
    && (forall i :: 0 <= i < |p| ==> places[i] < |s| && LowerChar(s[places[i]]) == LowerChar(p[i]))
    && (forall i, j :: 0 <= i < j < |p| ==> places[i] < places[j])
  }

  ghost predicate IsSubsequence(s: string, p: string) {
    exists places :: Picks(s, p, places)
  }

  /** The highest tier whose definition holds. */
  ghost function Tier(text: string, p: string, fuzzy: bool): int {
    if p == "" then TIER_EMPTY
    else if p <= text then TIER_PREFIX + EXACT_CASE_BONUS
    else if Occurs(text, p, 0) then TIER_PREFIX
    else if OccursAtWord(text, p) then TIER_BOUNDARY
    else if !fuzzy then NO_MATCH
    else if |p| >= 2 && OccursAnywhere(text, p) then TIER_SUBSTRING
    else if |p| >= 2 && IsSubsequence(text, p) then TIER_FUZZY
    else NO_MATCH
  }

  // ---------- the loops ----------

  method IFind(s: string, p: string, from: nat) returns (r: Option<nat>)
    ensures p == "" ==> r == Some(from)
    ensures p != "" && r.Some? ==> from <= r.value && Occurs(s, p, r.value)
    ensures forall i :: from <= i && Occurs(s, p, i) ==> r.Some? && r.value <= i
  {
    if p == "" {
      return Some(from);
    }
    var i := from;
    while i + |p| <= |s|
      invariant from <= i
      invariant forall k :: from <= k < i ==> !Occurs(s, p, k)
    {
      if Ieq(s[i..i + |p|], p) {
        return Some(i);
      }
      i := i + 1;
    }
    return None;
  }

  /** How much of `p` the greedy scan has picked after `i` characters of `s`. */
  function Picked(s: string, p: string, i: nat): (j: nat)
    requires i <= |s|
    ensures j <= |p|
  {
    if i == 0 then 0
    else
      var j := Picked(s, p, i - 1);
      if j < |p| && LowerChar(s[i - 1]) == LowerChar(p[j]) then j + 1 else j
  }

  /** The greedy scan picks what it says, within the characters it has seen. */
  lemma {:induction false} PickedPlaces(s: string, p: string, i: nat) returns (places: seq<nat>)
    requires i <= |s|
    ensures Picks(s[..i], p[..Picked(s, p, i)], places)
  {
    if i == 0 {
      places := [];
    } else {
      places := PickedPlaces(s, p, i - 1);
      var j := Picked(s, p, i - 1);
      if j < |p| && LowerChar(s[i - 1]) == LowerChar(p[j]) {
        places := places + [i - 1];
      }
    }
  }

  /** No choice of places gets further than the greedy scan. */
  lemma {:induction false} PickedMost(s: string, p: string, places: seq<nat>, k: nat, i: nat)
    requires Picks(s, p, places) && k < |p| && places[k] < i <= |s|
    ensures k < Picked(s, p, i)
    decreases i
  {
    if places[k] < i - 1 {
      PickedMost(s, p, places, k, i - 1);
    } else if k > 0 {
      PickedMost(s, p, places, k - 1, i - 1);
    }
  }

  lemma GreedyIsExact(s: string, p: string)
    ensures Picked(s, p, |s|) == |p| <==> IsSubsequence(s, p)
  {
    if Picked(s, p, |s|) == |p| {
      var places := PickedPlaces(s, p, |s|);
      assert s[..|s|] == s && p[..|p|] == p;
      assert Picks(s, p, places);
    }
    if IsSubsequence(s, p) && p != "" {
      var places :| Picks(s, p, places);
      PickedMost(s, p, places, |p| - 1, |s|);
    }
  }

  method CheckSubsequence(s: string, p: string) returns (r: bool)
    ensures r <==> IsSubsequence(s, p)
  {
    var j, i := 0, 0;
    while i < |s| && j < |p|
      invariant i <= |s| && j == Picked(s, p, i)
    {
      if LowerChar(s[i]) == LowerChar(p[j]) {
        j := j + 1;
      }
      i := i + 1;
    }
    if j == |p| {
      PickedStays(s, p, i, |s|);
    }
    GreedyIsExact(s, p);
    r := j == |p|;
  }

  lemma {:induction false} PickedStays(s: string, p: string, i: nat, k: nat)
    requires i <= k <= |s| && Picked(s, p, i) == |p|
    ensures Picked(s, p, k) == |p|
  {
    if i < k {
      PickedStays(s, p, i, k - 1);
    }
  }

  /** From one occurrence to the next, past the label's start, until one starts a word. */
  method CheckWordStarts(text: string, prefix: string) returns (r: bool)
    requires prefix != "" && !Occurs(text, prefix, 0)
    ensures r <==> OccursAtWord(text, prefix)
  {
    var pos := IFind(text, prefix, 0);
    while pos.Some?
      invariant pos.Some? ==> 0 < pos.value && Occurs(text, prefix, pos.value)
      invariant forall k :: 0 <= k && Occurs(text, prefix, k) && !(pos.Some? && pos.value <= k) ==> !WordStarts(text, k)
      decreases if pos.Some? then |text| - pos.value + 1 else 0
    {
      var before := text[pos.value - 1];
      if before == '_' || before == '.' || before == ' ' || (IsUpper(text[pos.value]) && IsLower(before)) {
        assert WordStarts(text, pos.value);
        return true;
      }
      pos := IFind(text, prefix, pos.value + 1);
    }
    return false;
  }

  method MatchTier(text: string, prefix: string, fuzzy: bool) returns (tier: int)
    ensures tier == Tier(text, prefix, fuzzy)
  {
    if prefix == "" {
      return TIER_EMPTY;
    }
    if prefix <= text {
      return TIER_PREFIX + EXACT_CASE_BONUS;
    }
    if |text| >= |prefix| && Ieq(text[..|prefix|], prefix) {
      return TIER_PREFIX;
    }
    assert !Occurs(text, prefix, 0);
    var atWord := CheckWordStarts(text, prefix);
    if atWord {
      return TIER_BOUNDARY;
    }
    if !fuzzy {
      return NO_MATCH;
    }
    if |prefix| >= 2 {
      var any := IFind(text, prefix, 0);
      if any.Some? {
        return TIER_SUBSTRING;
      }
    }
    if |prefix| >= 2 {
      var sub := CheckSubsequence(text, prefix);
      if sub {
        return TIER_FUZZY;
      }
    }
    return NO_MATCH;
  }

  // ---------- where a match stands ----------

  /** A word starts between the two: behind a mark, or where capitals follow small letters. */
  predicate Parts(a: string, w: string) {
    && a != "" && w != ""
    && var c := a[|a| - 1];
       c == '_' || c == '.' || c == ' ' || (IsLower(c) && IsUpper(w[0]))
  }

  lemma OccursBetween(a: string, w: string, b: string, p: string)
    requires Ieq(w, p)
    ensures Occurs(a + (w + b), p, |a|)
    ensures p != "" ==> (WordStarts(a + (w + b), |a|) <==> Parts(a, w))
  {
    var text := a + (w + b);
    assert text[|a|..|a| + |p|] == w;
    assert w != "" ==> text[|a|] == w[0];
    assert a != "" ==> text[|a| - 1] == a[|a| - 1];
  }

  /** A match has at least the tier of its place. */
  lemma PlaceGivesTier(a: string, w: string, b: string, p: string, fuzzy: bool)
    requires p != "" && Ieq(w, p)
    ensures a == "" && w == p ==> Tier(a + (w + b), p, fuzzy) == 4150
    ensures a == "" ==> Tier(a + (w + b), p, fuzzy) >= 4000
    ensures Parts(a, w) ==> Tier(a + (w + b), p, fuzzy) >= 3000
    ensures fuzzy && |p| >= 2 ==> Tier(a + (w + b), p, fuzzy) >= 2000
  {
    var text := a + (w + b);
    OccursBetween(a, w, b, p);
    assert a == "" ==> text == w + b;
    assert Parts(a, w) ==> OccursAtWord(text, p);
    assert OccursAnywhere(text, p);
    hide Occurs, WordStarts, Parts, OccursAtWord, OccursAnywhere, IsSubsequence;
  }

  lemma Around(text: string, p: string, pos: nat) returns (a: string, w: string, b: string)
    requires p != "" && Occurs(text, p, pos)
    ensures text == a + (w + b) && Ieq(w, p) && |a| == pos && (WordStarts(text, pos) <==> Parts(a, w))
  {
    a, w, b := text[..pos], text[pos..pos + |p|], text[pos + |p|..];
    assert text == a + (w + b);
    OccursBetween(a, w, b, p);
  }

  /** And a tier is given for a match in such a place, or else, in order but apart, for a fuzzy one. */
  lemma TierHasPlace(text: string, p: string, fuzzy: bool) returns (a: string, w: string, b: string)
    requires p != "" && Tier(text, p, fuzzy) >= 2000
    ensures text == a + (w + b) && Ieq(w, p)
    ensures Tier(text, p, fuzzy) > 4000 ==> a == "" && w == p
    ensures Tier(text, p, fuzzy) > 3000 ==> a == ""
    ensures Tier(text, p, fuzzy) > 2000 ==> a == "" || Parts(a, w)
    ensures Tier(text, p, fuzzy) == 2000 ==> fuzzy && |p| >= 2
    ensures Tier(text, p, fuzzy) in {2000, 3000, 4000, 4150}
  {
    OccurrenceIsSubsequence(text, p);
    hide Occurs, WordStarts, IsSubsequence, Parts;
    if Occurs(text, p, 0) {
      a, w, b := Around(text, p, 0);
      assert p <= text ==> text[..|p|] == p && w == text[..|p|];
    } else if OccursAtWord(text, p) {
      var pos :| 0 <= pos <= |text| && Occurs(text, p, pos) && WordStarts(text, pos);
      a, w, b := Around(text, p, pos);
    } else {
      var pos :| 0 <= pos <= |text| && Occurs(text, p, pos);
      a, w, b := Around(text, p, pos);
    }
  }

  /** Below that, two or more typed bytes are matched in order, or there is no match. */
  lemma LowTiers(text: string, p: string, fuzzy: bool)
    requires p != "" && Tier(text, p, fuzzy) < 2000
    ensures Tier(text, p, fuzzy) == if fuzzy && |p| >= 2 && IsSubsequence(text, p) then 1000 else -1
    ensures fuzzy && |p| >= 2 ==> !OccursAnywhere(text, p)
  {
    hide Occurs, OccursAtWord, OccursAnywhere, IsSubsequence;
  }

  // ---------- typing only narrows ----------

  lemma OccursShorter(text: string, p: string, p': string, pos: nat)
    requires p' <= p && Occurs(text, p, pos)
    ensures Occurs(text, p', pos)
  {
    assert text[pos..pos + |p'|] == text[pos..pos + |p|][..|p'|];
    assert p' == p[..|p'|];
  }

  lemma PicksShorter(s: string, p: string, p': string, places: seq<nat>)
    requires p' <= p && Picks(s, p, places)
    ensures IsSubsequence(s, p')
  {
    assert Picks(s, p', places[..|p'|]);
  }

  /** What a longer prefix matches, a shorter one matches the same way. */
  lemma ShorterMatches(text: string, p: string, p': string)
    requires p' <= p
    ensures p <= text ==> p' <= text
    ensures Occurs(text, p, 0) ==> Occurs(text, p', 0)
    ensures OccursAtWord(text, p) ==> OccursAtWord(text, p')
    ensures OccursAnywhere(text, p) ==> OccursAnywhere(text, p')
    ensures IsSubsequence(text, p) ==> IsSubsequence(text, p')
  {
    hide Occurs, WordStarts, Picks;
    if p <= text {
      assert p' == p[..|p'|] == text[..|p|][..|p'|];
    }
    if Occurs(text, p, 0) {
      OccursShorter(text, p, p', 0);
    }
    if OccursAtWord(text, p) {
      var pos: nat :| 0 <= pos <= |text| && Occurs(text, p, pos) && WordStarts(text, pos);
      OccursShorter(text, p, p', pos);
      assert Occurs(text, p', pos) && WordStarts(text, pos);
    }
    if OccursAnywhere(text, p) {
      var pos: nat :| 0 <= pos <= |text| && Occurs(text, p, pos);
      OccursShorter(text, p, p', pos);
      assert Occurs(text, p', pos);
    }
    if IsSubsequence(text, p) {
      var places :| Picks(text, p, places);
      PicksShorter(text, p, p', places);
    }
  }

  /**
   Typing on never raises a label's tier once two characters are typed. Before that it may,
   and exactly so: from nothing to an exact-case prefix, and from one character that matches no
   word start to two that occur inside, or out of order, in a label matched fuzzily.
   */
  lemma TypingOnlyNarrows(text: string, p: string, p': string, fuzzy: bool)
    requires p' <= p
    ensures |p'| >= 2 ==> Tier(text, p', fuzzy) >= Tier(text, p, fuzzy)
    ensures |p'| == 1 ==>
      (Tier(text, p', fuzzy) < Tier(text, p, fuzzy) <==>
         !Occurs(text, p', 0) && !OccursAtWord(text, p') && |p| >= 2 && fuzzy && IsSubsequence(text, p))
    ensures |p'| == 0 ==>
      (Tier(text, p', fuzzy) < Tier(text, p, fuzzy) <==> p != "" && p <= text)
  {
    ShorterMatches(text, p, p');
    OccurrenceIsSubsequence(text, p);
    hide Occurs, OccursAtWord, OccursAnywhere, IsSubsequence;
  }

  /** In one small-letter word, only a prefix of its own matches at a word start. */
  lemma InsideAWord(text: string, p: string)
    requires p != "" && text != "" && LowerChar(text[0]) != LowerChar(p[0])
    requires forall i :: 0 <= i < |text| ==> IsLower(text[i])
    ensures !(p <= text) && !Occurs(text, p, 0) && !OccursAtWord(text, p)
  {
  }

  /** Both ways it may: an empty prefix against the label's own start, and one character in the middle of a word. */
  lemma TypingCanWiden()
    ensures Tier("a", "", false) < Tier("a", "a", false)
    ensures Tier("xab", "a", true) < Tier("xab", "ab", true)
    ensures Tier("xayb", "a", true) < Tier("xayb", "ab", true)
  {
    assert "a" <= "a";
    InsideAWord("xab", "a");
    InsideAWord("xab", "ab");
    InsideAWord("xayb", "a");
    InsideAWord("xayb", "ab");
    assert Picks("xab", "ab", [1, 2]) && Picks("xayb", "ab", [1, 3]);
    hide Occurs, OccursAtWord, OccursAnywhere, Picks;
  }

  /** Each way of matching implies the weaker ones. */
  lemma OccurrenceIsSubsequence(text: string, p: string)
    ensures p <= text ==> Occurs(text, p, 0)
    ensures Occurs(text, p, 0) || OccursAtWord(text, p) ==> OccursAnywhere(text, p)
    ensures OccursAnywhere(text, p) ==> IsSubsequence(text, p)
  {
    if p <= text {
      assert text[0..0 + |p|] == p;
    }
    if OccursAnywhere(text, p) {
      var pos :| 0 <= pos <= |text| && Occurs(text, p, pos);
      var places := seq(|p|, i requires 0 <= i < |p| => pos + i);
      forall i | 0 <= i < |p| ensures LowerChar(text[places[i]]) == LowerChar(p[i]) {
        assert text[pos..pos + |p|][i] == text[pos + i];
      }
      assert Picks(text, p, places);
    }
  }
}
