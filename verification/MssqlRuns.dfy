/** Runs in which the protocol does what one would not expect of it. */
module MssqlRuns {
  import opened MssqlCancel
  import opened MssqlAim

  /** One call, alone on a live connection, that holds the mutex. */
  function Alone(t: Thread): Sys {
    Sys(map[0 := t], By(0), 1, false, Live, map[], {}, {0})
  }

  lemma AloneActs(t: Thread, a: Action)
    requires CanAct(t, a, false) && ConnAfter(Live, a) == Live
    ensures Enabled(Alone(t), Drive(0, a)) && Step(Alone(t), Drive(0, a)) == Alone(Act(t, a, false, Live))
  {
    hide Act, CanAct;
  }

  function Drives(acts: seq<Action>): seq<Event> {
    if acts == [] then [] else [Drive(0, acts[0])] + Drives(acts[1..])
  }

  /** Its actions, one after the other; none when one of them is not its next. */
  function Acted(t: Thread, acts: seq<Action>): Thread
    decreases |acts|
  {
    if acts == [] || !CanAct(t, acts[0], false) then t else Acted(Act(t, acts[0], false, Live), acts[1..])
  }

  predicate CanActAll(t: Thread, acts: seq<Action>)
    decreases |acts|
  {
    acts == [] || (CanAct(t, acts[0], false) && ConnAfter(Live, acts[0]) == Live
      && CanActAll(Act(t, acts[0], false, Live), acts[1..]))
  }

  lemma {:induction false} DrivesRun(t: Thread, acts: seq<Action>)
    requires CanActAll(t, acts)
    ensures Runs(Alone(t), Drives(acts)) && After(Alone(t), Drives(acts)) == Alone(Acted(t, acts))
    decreases |acts|
  {
    hide Act, CanAct, Step, Enabled, Alone, ConnAfter;
    if acts != [] {
      var u := Act(t, acts[0], false, Live);
      AloneActs(t, acts[0]);
      DrivesRun(u, acts[1..]);
      assert Drives(acts)[1..] == Drives(acts[1..]);
    }
  }

  /** A call that has just taken the mutex and connected. */
  function Started(q: Request): Thread {
    Call(q, Executing, [], Executed, [], true, true)
  }

  function Opening(q: Request): seq<Event> {
    [Begin(0, q), Lock(0), Drive(0, Connect(true))]
  }

  lemma OpeningRuns(q: Request)
    ensures Runs(INITIAL, Opening(q)) && After(INITIAL, Opening(q)) == Alone(Started(q))
  {
    var es := Opening(q);
    var s1 := Step(INITIAL, es[0]);
    var s2 := Step(s1, es[1]);
    var s3 := Step(s2, es[2]);
    assert s3 == Alone(Started(q));
    assert Runs(s3, es[3..]) && After(s3, es[3..]) == s3;
    hide Step, Enabled, Runs, After;
    Prepend(s2, es, 2);
    Prepend(s1, es, 1);
    Prepend(INITIAL, es, 0);
    assert es[0..] == es;
  }

  // ---------- a late cancel ----------

  const NOTHING := Request(1, [])
  const BEFORE_ITS_CLEAR := Alone(Call(NOTHING, Finished, [], Executed, [], true, true))

  /** A call that asks for nothing, up to its clear. */
  const ONE_CALL: seq<Event> := Opening(NOTHING) + Drives([Execute(NoFault), Results(NoFault)])

  lemma OneCallRuns()
    ensures Runs(INITIAL, ONE_CALL) && After(INITIAL, ONE_CALL) == BEFORE_ITS_CLEAR
  {
    var acts := [Execute(NoFault), Results(NoFault)];
    assert acts[1..] == [Results(NoFault)] && acts[1..][1..] == [];
    var t := Started(NOTHING);
    var u := Act(t, acts[0], false, Live);
    assert CanActAll(u, acts[1..]) && Acted(u, acts[1..]) == Act(u, acts[1], false, Live);
    assert CanActAll(t, acts) && Acted(t, acts) == Act(u, acts[1], false, Live);
    hide Runs, After, Alone, Opening, Drives;
    OpeningRuns(NOTHING);
    DrivesRun(t, acts);
    RunsOn(INITIAL, Opening(NOTHING), Drives(acts));
  }

  /**
   The first call at some point, beside the threads `w`; `inCall`, the cancels that have asked, and what is known of
   the flag.
   */
  function Point(at: At, w: map<nat, Thread>, n: int, flag: bool, marks: map<nat, set<nat>>, meant: set<nat>,
      used: set<nat>): Sys {
    Sys(w[0 := Call(NOTHING, at, [], Executed, [], true, true)], By(0), n, flag, Live, marks, meant, used)
  }

  /** The cancel reads the counter before the call's clear and writes after it. */
  const LATE_CANCEL: seq<Event> := [Ask(0), Clear(0), Mark(0), CountDown(0), Unlock(0)]

  /** The same cancel, while a call that began after it asked waits for the mutex. */
  function LateWithWaiter(q: Request): seq<Event> {
    [Ask(0), Begin(1, q), Clear(0), Mark(0), CountDown(0), Unlock(0)]
  }

  /** Nobody holds the mutex, and the flag is up for the first call, which has left. */
  function LeftUp(w: map<nat, Thread>, n: int, used: set<nat>): Sys {
    Sys(w, Nobody, n, true, Live, map[], {0}, used)
  }

  lemma MarkStep(w: map<nat, Thread>, n: int, used: set<nat>)
    ensures var s := Point(Cleared, w, n, false, map[0 := {0}], {}, used);
            Enabled(s, Mark(0)) && Step(s, Mark(0)) == Point(Cleared, w, n, true, map[], {0}, used)
  {
    hide Act, CanAct, ConnAfter, Counted;
  }

  lemma LeaveSteps(w: map<nat, Thread>, n: int, used: set<nat>)
    requires 0 !in w
    ensures var s := Point(Cleared, w, n, true, map[], {0}, used);
            Enabled(s, CountDown(0)) && Step(s, CountDown(0)) == Point(Leaving, w, n - 1, true, map[], {0}, used)
    ensures var s := Point(Leaving, w, n - 1, true, map[], {0}, used);
            Enabled(s, Unlock(0)) && Step(s, Unlock(0)) == LeftUp(w, n - 1, used)
  {
    hide Act, CanAct, ConnAfter, Counted;
  }

  lemma LateEnd(w: map<nat, Thread>, n: int, used: set<nat>)
    requires 0 !in w
    ensures var s := Point(Cleared, w, n, false, map[0 := {0}], {}, used);
            var es := [Mark(0), CountDown(0), Unlock(0)];
            Runs(s, es) && After(s, es) == LeftUp(w, n - 1, used)
  {
    MarkStep(w, n, used);
    LeaveSteps(w, n, used);
    hide Step, Enabled, Point;
    var es := [Mark(0), CountDown(0), Unlock(0)];
    assert Runs(LeftUp(w, n - 1, used), es[3..]);
    Prepend(Point(Leaving, w, n - 1, true, map[], {0}, used), es, 2);
    Prepend(Point(Cleared, w, n, true, map[], {0}, used), es, 1);
    Prepend(Point(Cleared, w, n, false, map[0 := {0}], {}, used), es, 0);
    assert es[0..] == es;
  }

  lemma AskSteps(q: Request)
    ensures var s := BEFORE_ITS_CLEAR;
            Enabled(s, Ask(0)) && Step(s, Ask(0)) == Point(Finished, map[], 1, false, map[0 := {0}], {}, {0})
    ensures var s := Point(Finished, map[], 1, false, map[0 := {0}], {}, {0});
            && Enabled(s, Begin(1, q))
            && Step(s, Begin(1, q)) == Point(Finished, map[1 := NewCall(q)], 2, false, map[0 := {0}], {}, {0, 1})
  {
    hide Act, CanAct, ConnAfter;
    assert Counted(BEFORE_ITS_CLEAR) == {0};
  }

  lemma ClearStep(w: map<nat, Thread>, n: int, used: set<nat>)
    ensures var s := Point(Finished, w, n, false, map[0 := {0}], {}, used);
            Enabled(s, Clear(0)) && Step(s, Clear(0)) == Point(Cleared, w, n, false, map[0 := {0}], {}, used)
  {
    hide Act, CanAct, ConnAfter, Counted;
  }

  lemma LateCancelRuns()
    ensures Runs(BEFORE_ITS_CLEAR, LATE_CANCEL) && After(BEFORE_ITS_CLEAR, LATE_CANCEL) == LeftUp(map[], 0, {0})
  {
    AskSteps(NOTHING);
    ClearStep(map[], 1, {0});
    LateEnd(map[], 1, {0});
    hide Step, Enabled, Point, BEFORE_ITS_CLEAR;
    var es := LATE_CANCEL;
    assert es[2..] == [Mark(0), CountDown(0), Unlock(0)];
    Prepend(Point(Finished, map[], 1, false, map[0 := {0}], {}, {0}), es, 1);
    Prepend(BEFORE_ITS_CLEAR, es, 0);
    assert es[0..] == es;
  }

  /** A run that leaves the flag up with nobody in flight. */
  lemma LateCancelLeavesTheFlag()
    ensures Runs(INITIAL, ONE_CALL + LATE_CANCEL)
    ensures After(INITIAL, ONE_CALL + LATE_CANCEL) == INITIAL.(flag := true, conn := Live, meant := {0}, used := {0})
  {
    LateCancelRuns();
    OneCallRuns();
    hide Runs, After, BEFORE_ITS_CLEAR, ONE_CALL, LATE_CANCEL;
    RunsOn(INITIAL, ONE_CALL, LATE_CANCEL);
  }

  /** And one that leaves it up for a waiting call, which began after the cancel asked. */
  lemma LateCancelReachesAWaiter(q: Request)
    ensures Runs(INITIAL, ONE_CALL + LateWithWaiter(q))
    ensures After(INITIAL, ONE_CALL + LateWithWaiter(q)) == LeftUp(map[1 := NewCall(q)], 1, {0, 1})
  {
    LateWithWaiterRuns(q);
    OneCallRuns();
    hide Runs, After, BEFORE_ITS_CLEAR, ONE_CALL, LateWithWaiter;
    RunsOn(INITIAL, ONE_CALL, LateWithWaiter(q));
  }

  lemma LateWithWaiterRuns(q: Request)
    ensures Runs(BEFORE_ITS_CLEAR, LateWithWaiter(q))
    ensures After(BEFORE_ITS_CLEAR, LateWithWaiter(q)) == LeftUp(map[1 := NewCall(q)], 1, {0, 1})
  {
    var w := map[1 := NewCall(q)];
    AskSteps(q);
    ClearStep(w, 2, {0, 1});
    LateEnd(w, 2, {0, 1});
    hide Step, Enabled, Point, BEFORE_ITS_CLEAR;
    var es := LateWithWaiter(q);
    assert es[3..] == [Mark(0), CountDown(0), Unlock(0)];
    Prepend(Point(Finished, w, 2, false, map[0 := {0}], {}, {0, 1}), es, 2);
    Prepend(Point(Finished, map[], 1, false, map[0 := {0}], {}, {0}), es, 1);
    Prepend(BEFORE_ITS_CLEAR, es, 0);
    assert es[0..] == es;
  }

  /** That call will be stopped by a cancel that asked before it began. */
  lemma LateCancelStopsAWaiter(q: Request)
    requires q.answer != []
    ensures var s, es := LeftUp(map[1 := NewCall(q)], 1, {0, 1}), [Lock(1), Drive(1, Connect(true))];
            Runs(s, es) && Doomed(After(s, es), 1) && 1 !in After(s, es).meant
  {
    LockedUnderOthersFlag(LeftUp(map[1 := NewCall(q)], 1, {0, 1}), 1);
  }

  // ---------- a swallowed cancel ----------

  /** A call waits, a cancel asks and writes for it too, and the call that runs, past its last read, clears the flag. */
  function Swallowed(q: Request): seq<Event> {
    [Begin(1, q), Ask(0), Mark(0), Clear(0)]
  }

  function Waited(q: Request): map<nat, Thread> {
    map[1 := NewCall(q)]
  }

  /** The cancel was meant for both calls and stops neither: one has ended, the other will find the flag down. */
  lemma CancelIsSwallowed(q: Request)
    ensures Runs(INITIAL, ONE_CALL + Swallowed(q))
    ensures Runs(BEFORE_ITS_CLEAR, Swallowed(q)[..3]) && After(BEFORE_ITS_CLEAR, Swallowed(q)[..3]).meant == {0, 1}
    ensures After(INITIAL, ONE_CALL + Swallowed(q)) == Point(Cleared, Waited(q), 2, false, map[], {}, {0, 1})
  {
    SwallowedRuns(q);
    OneCallRuns();
    hide Runs, After, BEFORE_ITS_CLEAR, ONE_CALL, Swallowed, Point;
    RunsOn(INITIAL, ONE_CALL, Swallowed(q));
  }

  lemma SwallowSteps(q: Request)
    ensures var s := BEFORE_ITS_CLEAR;
            Enabled(s, Begin(1, q)) && Step(s, Begin(1, q)) == Point(Finished, Waited(q), 2, false, map[], {}, {0, 1})
    ensures var s := Point(Finished, Waited(q), 2, false, map[], {}, {0, 1});
            Enabled(s, Ask(0)) && Step(s, Ask(0)) == Point(Finished, Waited(q), 2, false, map[0 := {0, 1}], {}, {0, 1})
  {
    hide Act, CanAct, ConnAfter;
    assert Counted(Point(Finished, Waited(q), 2, false, map[], {}, {0, 1})) == {0, 1};
  }

  lemma SwallowMarks(q: Request)
    ensures var s := Point(Finished, Waited(q), 2, false, map[0 := {0, 1}], {}, {0, 1});
            Enabled(s, Mark(0)) && Step(s, Mark(0)) == Point(Finished, Waited(q), 2, true, map[], {0, 1}, {0, 1})
    ensures var s := Point(Finished, Waited(q), 2, true, map[], {0, 1}, {0, 1});
            Enabled(s, Clear(0)) && Step(s, Clear(0)) == Point(Cleared, Waited(q), 2, false, map[], {}, {0, 1})
  {
    hide Act, CanAct, ConnAfter, Counted;
  }

  lemma SwallowedRuns(q: Request)
    ensures Runs(BEFORE_ITS_CLEAR, Swallowed(q)[..3]) && After(BEFORE_ITS_CLEAR, Swallowed(q)[..3]).meant == {0, 1}
    ensures Runs(BEFORE_ITS_CLEAR, Swallowed(q))
    ensures After(BEFORE_ITS_CLEAR, Swallowed(q)) == Point(Cleared, Waited(q), 2, false, map[], {}, {0, 1})
  {
    SwallowSteps(q);
    SwallowMarks(q);
    var es, s0 := Swallowed(q), BEFORE_ITS_CLEAR;
    var s1 := Point(Finished, Waited(q), 2, false, map[], {}, {0, 1});
    var s2 := Point(Finished, Waited(q), 2, false, map[0 := {0, 1}], {}, {0, 1});
    var s3 := Point(Finished, Waited(q), 2, true, map[], {0, 1}, {0, 1});
    var s4 := Point(Cleared, Waited(q), 2, false, map[], {}, {0, 1});
    assert s3.meant == {0, 1};
    hide Step, Enabled, Point, Waited, BEFORE_ITS_CLEAR;
    var three := es[..3];
    assert Runs(s3, three[3..]) && After(s3, three[3..]) == s3;
    Prepend(s2, three, 2);
    Prepend(s1, three, 1);
    Prepend(s0, three, 0);
    assert three[0..] == three;
    assert Runs(s4, es[4..]) && After(s4, es[4..]) == s4;
    Prepend(s3, es, 3);
    Prepend(s2, es, 2);
    Prepend(s1, es, 1);
    Prepend(s0, es, 0);
    assert es[0..] == es;
  }

  // ---------- a lost row ----------

  /** A table of one row, whose fetch fails. */
  const ONE_ROW := Request(1, [Table(["a"], [["1"]])])
  const LOSES_IT: seq<Action> := [Execute(NoFault), Results(NoFault), Poll, Fetch(Refused), Check, Results(NoFault)]
  const ROW_LOST: seq<Event> := Opening(ONE_ROW) + Drives(LOSES_IT)

  /** The call ends without a failure, and without the row. */
  lemma LostRowReadsAsSuccess()
    ensures Runs(INITIAL, ROW_LOST)
    ensures var s := After(INITIAL, ROW_LOST);
            && CallAt(s, 0, Finished)
            && s.threads[0].out == [Rows(["a"], [], false)]
            && !Honest(s.threads[0].out, ONE_ROW)
  {
    LosesIt();
    hide Runs, After, Opening, Drives, CanActAll, Acted, LOSES_IT;
    assert |Shown(ONE_ROW.answer[0], 1).rows| == 1;
    OpeningRuns(ONE_ROW);
    DrivesRun(Started(ONE_ROW), LOSES_IT);
    RunsOn(INITIAL, Opening(ONE_ROW), Drives(LOSES_IT));
  }

  lemma LosesIt()
    ensures CanActAll(Started(ONE_ROW), LOSES_IT)
    ensures Acted(Started(ONE_ROW), LOSES_IT)
            == Call(ONE_ROW, Finished, [Rows(["a"], [], false)], Rows(["a"], [], false), [["1"]], false, false)
  {
    var t0 := Started(ONE_ROW);
    var t1 := Act(t0, LOSES_IT[0], false, Live);
    var t2 := Act(t1, LOSES_IT[1], false, Live);
    var t3 := Act(t2, LOSES_IT[2], false, Live);
    var t4 := Act(t3, LOSES_IT[3], false, Live);
    var t5 := Act(t4, LOSES_IT[4], false, Live);
    var t6 := Act(t5, LOSES_IT[5], false, Live);
    assert CanActAll(t6, LOSES_IT[6..]) && Acted(t6, LOSES_IT[6..]) == t6;
    ActBefore(t5, LOSES_IT, 5);
    ActBefore(t4, LOSES_IT, 4);
    ActBefore(t3, LOSES_IT, 3);
    ActBefore(t2, LOSES_IT, 2);
    ActBefore(t1, LOSES_IT, 1);
    ActBefore(t0, LOSES_IT, 0);
    assert LOSES_IT[0..] == LOSES_IT;
  }

  lemma ActBefore(t: Thread, acts: seq<Action>, i: nat)
    requires i < |acts| && CanAct(t, acts[i], false) && ConnAfter(Live, acts[i]) == Live
    requires CanActAll(Act(t, acts[i], false, Live), acts[i + 1..])
    ensures CanActAll(t, acts[i..])
    ensures Acted(t, acts[i..]) == Acted(Act(t, acts[i], false, Live), acts[i + 1..])
  {
    hide CanAct, Act, ConnAfter;
    assert acts[i..][0] == acts[i] && acts[i..][1..] == acts[i + 1..];
  }
}
