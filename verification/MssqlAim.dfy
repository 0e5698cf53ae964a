/** Whom a cancel stops: the calls that were in flight when it asked, and when it stops another. */
module MssqlAim {
  import opened MssqlCancel

  // ---------- finding the flag ----------

  /** The call reads the flag and finds it up. */
  predicate Finds(s: Sys, e: Event) {
    && e.Drive? && s.flag
    && match e.a
       case Connect(_) => false
       case Execute(f) => f.Interrupted?
       case Results(f) => f.Interrupted?
       case Poll => true
       case Fetch(f) => f.Interrupted?
       case Check => true
       case Explain => true
  }

  /** From `s` to `t`, call `c` got its "Query cancelled". */
  predicate EndsStopped(s: Sys, t: Sys, c: nat) {
    && c in s.threads && c in t.threads && s.threads[c].Call? && t.threads[c].Call?
    && !Stopped(s.threads[c].out) && Stopped(t.threads[c].out)
  }

  /** What finds the flag ends cancelled, and nothing else does. */
  lemma FindingStops(s: Sys, e: Event, c: nat)
    requires Inv(s) && Enabled(s, e)
    ensures Finds(s, e) ==> Doomed(Step(s, e), e.c)
    ensures EndsStopped(s, Step(s, e), c) ==> Finds(s, e) && e.c == c
  {
    if e.Drive? {
      assert Good(s.threads[e.c], s.flag);
      ActStops(s.threads[e.c], e.a, s.flag, s.conn);
    }
    hide Act, CanAct, Good, Counted;
  }

  lemma ActStops(t: Thread, a: Action, flag: bool, conn: Conn)
    requires CanAct(t, a, flag) && Good(t, flag)
    ensures var u := Act(t, a, flag, conn);
            u.Call? && (!Stopped(t.out) && Stopped(u.out) ==> flag && (a.Check? || a.Explain?))
    ensures flag ==>
              match a
              case Connect(_) => true
              case Execute(f) => f.Interrupted? ==> Act(t, a, flag, conn).at == Failing
              case Results(f) => f.Interrupted? ==> Act(t, a, flag, conn).at == Failing
              case Poll => Act(t, a, flag, conn).at == Read
              case Fetch(f) => f.Interrupted? ==> Act(t, a, flag, conn).at == Read
              case Check => Act(t, a, flag, conn).at == Finished && Stopped(Act(t, a, flag, conn).out)
              case Explain => Act(t, a, flag, conn).at == Finished && Stopped(Act(t, a, flag, conn).out)
  {
    hide Reading, Honest, AllShown;
  }

  /** A call finds a flag that no cancel raised for it: it was in flight at none of their reads of the counter. */
  predicate Stray(s: Sys, e: Event) {
    Finds(s, e) && e.c !in s.meant
  }

  // ---------- aim ----------

  /** Whoever drives the connection under a raised flag is one it was raised for. */
  predicate Aimed(s: Sys) {
    forall c :: c in s.threads && Driving(s.threads[c]) && s.flag ==> c in s.meant
  }

  /**
   A cancel writes while the call that drives the connection, if any, is one of those in flight when it asked; and
   the next call to take the mutex under a raised flag is one of those too.
   */
  predicate OnTarget(s: Sys, e: Event)
    requires Enabled(s, e)
  {
    match e
    case Mark(k) => forall c :: c in s.threads && Driving(s.threads[c]) ==> c in s.marks[k] || c in s.meant
    case Lock(c) => s.flag ==> c in s.meant
    case _ => true
  }

  lemma AimStep(s: Sys, e: Event)
    requires Inv(s) && Enabled(s, e) && Aimed(s)
    ensures Aimed(Step(s, e)) <==> OnTarget(s, e)
  {
    hide Act, CanAct, Good, Counted, Counts, IdsKnown;
    var t := Step(s, e);
    if e.Drive? {
      ActHolds(s.threads[e.c], e.a, s.flag, s.conn);
      assert Driving(s.threads[e.c]) by { DrivesBefore(s.threads[e.c], e.a, s.flag); }
    }
    if e.Lock? {
      assert e.c in t.threads && Driving(t.threads[e.c]);
      assert forall c :: c in s.threads && Driving(s.threads[c]) ==> Holds(s.threads[c]);
    }
    if e.Mark? {
      assert t.threads == s.threads;
    }
  }

  lemma DrivesBefore(t: Thread, a: Action, flag: bool)
    requires CanAct(t, a, flag)
    ensures Driving(t)
  {
  }

  /** Steps of one call that end in its finding a flag that was not raised for it. */
  predicate StraysOver(s: Sys, es: seq<Event>)
    decreases |es|
  {
    && es != [] && Enabled(s, es[0])
    && if |es| == 1 then Stray(s, es[0]) else StraysOver(Step(s, es[0]), es[1..])
  }

  predicate OnlyDrives(es: seq<Event>, c: nat) {
    forall i :: 0 <= i < |es| ==> es[i].Drive? && es[i].c == c
  }

  /** Some call may go on, by itself, to such a find. */
  ghost predicate CanStray(s: Sys) {
    exists c, es :: OnlyDrives(es, c) && StraysOver(s, es)
  }

  lemma {:induction false} AimedNeverStrays(s: Sys, es: seq<Event>, c: nat)
    requires Inv(s) && Aimed(s) && OnlyDrives(es, c)
    ensures !StraysOver(s, es)
    decreases |es|
  {
    hide Inv, Step, Aimed;
    if es != [] && Enabled(s, es[0]) {
      assert es[0].Drive? && OnlyDrives(es[1..], c);
      assert !Stray(s, es[0]) by { AimedFinds(s, es[0]); }
      AimStep(s, es[0]);
      StepKeeps(s, es[0]);
      AimedNeverStrays(Step(s, es[0]), es[1..], c);
    }
  }

  lemma AimedFinds(s: Sys, e: Event)
    requires Aimed(s) && Enabled(s, e)
    ensures !Stray(s, e)
  {
    if e.Drive? {
      DrivesBefore(s.threads[e.c], e.a, s.flag);
    }
  }

  /** The next read of the flag by a call that drives the connection; the hook reads it in any wait. */
  function NextRead(c: nat, at: At): Event {
    match at
    case Executing => Drive(c, Execute(Interrupted))
    case Sets => Drive(c, Results(Interrupted))
    case Polling => Drive(c, Poll)
    case Fetching => Drive(c, Fetch(Interrupted))
    case Read => Drive(c, Check)
    case _ => Drive(c, Explain)
  }

  lemma ExposedStrays(s: Sys, c: nat)
    requires c in s.threads && Driving(s.threads[c]) && s.flag && c !in s.meant
    ensures CanStray(s)
  {
    if s.threads[c].at == Connecting {
      var es := [Drive(c, Connect(true)), NextRead(c, Executing)];
      assert es[1..] == [NextRead(c, Executing)];
      assert Stray(Step(s, es[0]), es[1]) && StraysOver(Step(s, es[0]), es[1..]);
      assert OnlyDrives(es, c) && StraysOver(s, es);
    } else {
      var es := [NextRead(c, s.threads[c].at)];
      assert Enabled(s, es[0]) && Stray(s, es[0]);
      assert OnlyDrives(es, c) && StraysOver(s, es);
    }
  }

  lemma AimedExactly(s: Sys)
    requires Inv(s)
    ensures Aimed(s) <==> !CanStray(s)
  {
    hide Inv, StraysOver, OnlyDrives;
    if Aimed(s) {
      if c, es :| OnlyDrives(es, c) && StraysOver(s, es) {
        AimedNeverStrays(s, es, c);
      }
    } else {
      var c :| c in s.threads && Driving(s.threads[c]) && s.flag && c !in s.meant;
      ExposedStrays(s, c);
    }
  }

  // ---------- over runs ----------

  predicate AlwaysOnTarget(s: Sys, es: seq<Event>)
    requires Runs(s, es)
    decreases |es|
  {
    es == [] || (OnTarget(s, es[0]) && AlwaysOnTarget(Step(s, es[0]), es[1..]))
  }

  /** At no point of the run can a call go on to a stray find, and no step of the run is one. */
  ghost predicate NeverStrays(s: Sys, es: seq<Event>)
    requires Runs(s, es)
    decreases |es|
  {
    !CanStray(s) && (es == [] || (!Stray(s, es[0]) && NeverStrays(Step(s, es[0]), es[1..])))
  }

  lemma {:induction false} NeverStraysExactly(s: Sys, es: seq<Event>)
    requires Inv(s) && Runs(s, es) && Aimed(s)
    ensures NeverStrays(s, es) <==> AlwaysOnTarget(s, es)
    decreases |es|
  {
    hide Inv, Step, Enabled, Aimed, OnTarget, CanStray, Stray;
    AimedExactly(s);
    if es != [] {
      StepKeeps(s, es[0]);
      AimStep(s, es[0]);
      AimedFinds(s, es[0]);
      AimedExactly(Step(s, es[0]));
      if OnTarget(s, es[0]) {
        NeverStraysExactly(Step(s, es[0]), es[1..]);
      }
    }
  }

  /**
   From the start: no cancel stops a call that was not in flight when it asked exactly when every write and every
   lock is on target.
   */
  lemma CancelsStopTheirOwn(es: seq<Event>)
    requires Runs(INITIAL, es)
    ensures NeverStrays(INITIAL, es) <==> AlwaysOnTarget(INITIAL, es)
  {
    assert Counted(INITIAL) == {};
    NeverStraysExactly(INITIAL, es);
  }

  // ---------- who will clear the flag ----------

  /** A call that has begun and will yet clear the flag. */
  predicate ToClear(t: Thread) {
    t.Call? && t.at !in {Cleared, Leaving}
  }

  /** When the flag is up, some call that has begun will clear it. */
  predicate HasClearer(s: Sys) {
    s.flag ==> exists c :: c in s.threads && ToClear(s.threads[c])
  }

  /** A cancel's write lands while some call that has begun is yet to clear the flag. */
  predicate LandsInTime(s: Sys, e: Event) {
    e.Mark? ==> exists c :: c in s.threads && ToClear(s.threads[c])
  }

  lemma ClearerStep(s: Sys, e: Event)
    requires Inv(s) && Enabled(s, e) && HasClearer(s)
    ensures HasClearer(Step(s, e)) <==> LandsInTime(s, e)
  {
    hide Act, CanAct, Good, Counted, Counts, MutexIsHeld;
    if e.Drive? {
      ActHolds(s.threads[e.c], e.a, s.flag, s.conn);
    }
    var t := Step(s, e);
    if c :| c in s.threads && ToClear(s.threads[c]) {
      assert t.flag ==> c in t.threads && ToClear(t.threads[c]);
    }
  }

  predicate AlwaysHasClearer(s: Sys, es: seq<Event>)
    requires Runs(s, es)
    decreases |es|
  {
    HasClearer(s) && (es == [] || AlwaysHasClearer(Step(s, es[0]), es[1..]))
  }

  predicate AlwaysInTime(s: Sys, es: seq<Event>)
    requires Runs(s, es)
    decreases |es|
  {
    es == [] || (LandsInTime(s, es[0]) && AlwaysInTime(Step(s, es[0]), es[1..]))
  }

  /** No flag stays up past the last call in flight exactly when every write lands before that call's clear. */
  lemma {:induction false} ClearerExactly(s: Sys, es: seq<Event>)
    requires Inv(s) && Runs(s, es) && HasClearer(s)
    ensures AlwaysHasClearer(s, es) <==> AlwaysInTime(s, es)
    decreases |es|
  {
    hide Inv, Step, Enabled, HasClearer, LandsInTime;
    if es != [] {
      StepKeeps(s, es[0]);
      ClearerStep(s, es[0]);
      if LandsInTime(s, es[0]) {
        ClearerExactly(Step(s, es[0]), es[1..]);
      }
    }
  }

  // ---------- when a write stops somebody ----------

  predicate SomeFinds(s: Sys, es: seq<Event>)
    requires Runs(s, es)
    decreases |es|
  {
    es != [] && (Finds(s, es[0]) || SomeFinds(Step(s, es[0]), es[1..]))
  }

  /** Nobody who has yet to clear the flag has ended cancelled. */
  predicate NoneStopped(s: Sys) {
    forall d :: d in s.threads && BeforeClear(s, d) ==> !Stopped(s.threads[d].out)
  }

  lemma NoneStoppedStep(s: Sys, e: Event)
    requires Inv(s) && Enabled(s, e) && NoneStopped(s) && !Finds(s, e)
    ensures NoneStopped(Step(s, e))
  {
    var t := Step(s, e);
    forall d | BeforeClear(t, d) ensures !Stopped(t.threads[d].out) {
      FindingStops(s, e, d);
      StoppedIsNew(s, e, d);
    }
  }

  lemma StoppedIsNew(s: Sys, e: Event, d: nat)
    requires Inv(s) && Enabled(s, e) && NoneStopped(s) && BeforeClear(Step(s, e), d)
    ensures Stopped(Step(s, e).threads[d].out) ==> EndsStopped(s, Step(s, e), d)
  {
    hide Act, CanAct, Counted, Counts, Reading, SoFar, Honest, Opened;
    if e.Drive? {
      ActHolds(s.threads[e.c], e.a, s.flag, s.conn);
      DrivesBefore(s.threads[e.c], e.a, s.flag);
    }
    if d in s.threads {
      assert Good(s.threads[d], s.flag);
    }
  }

  lemma {:induction false} FoundStays(s: Sys, es: seq<Event>, d: nat)
    requires Inv(s) && Runs(s, es) && NoClear(es, 0) && Doomed(s, d) && BeforeClear(s, d)
    ensures Doomed(After(s, es), d) && BeforeClear(After(s, es), d)
    decreases |es|
  {
    hide Inv, Step, Enabled, Doomed;
    if es != [] {
      assert es[0] != Unlock(d) by { HolderStays(s, es[0], d); }
      DoomedStep(s, es[0], d);
      VisibleStep(s, es[0], d);
      StepKeeps(s, es[0]);
      NoClearTail(es, 0);
      hide BeforeClear;
      FoundStays(Step(s, es[0]), es[1..], d);
    }
  }

  lemma HolderStays(s: Sys, e: Event, d: nat)
    requires BeforeClear(s, d) && Enabled(s, e)
    ensures e != Unlock(d)
  {
  }

  /** Whoever finds the flag is the one that clears it next. */
  lemma {:induction false} FindersClear(s: Sys, es: seq<Event>, c: nat)
    requires Inv(s) && Runs(s, es) && NoClear(es, 0) && CallAt(After(s, es), c, Finished) && SomeFinds(s, es)
    ensures Stopped(After(s, es).threads[c].out)
    decreases |es|
  {
    var t := Step(s, es[0]);
    StepKeeps(s, es[0]);
    NoClearTail(es, 0);
    hide Inv, Step, Enabled, Finds, Doomed, BeforeClear;
    if Finds(s, es[0]) {
      var d := es[0].c;
      FindingStops(s, es[0], d);
      FinderHolds(s, es[0]);
      FoundStays(t, es[1..], d);
      InvHolds(t, es[1..]);
      OneHolder(After(t, es[1..]), c, d);
    } else {
      FindersClear(t, es[1..], c);
    }
  }

  lemma FinderHolds(s: Sys, e: Event)
    requires Enabled(s, e) && Finds(s, e)
    ensures BeforeClear(Step(s, e), e.c)
  {
    ActHolds(s.threads[e.c], e.a, s.flag, s.conn);
    hide Act, CanAct;
  }

  lemma OneHolder(s: Sys, c: nat, d: nat)
    requires Inv(s) && CallAt(s, c, Finished) && BeforeClear(s, d) && Doomed(s, d)
    ensures c == d && Stopped(s.threads[c].out)
  {
    hide Good, Counted, IdsKnown;
    assert Holds(s.threads[c]) && Holds(s.threads[d]);
  }

  lemma {:induction false} NoneFindsNoneStops(s: Sys, es: seq<Event>)
    requires Inv(s) && Runs(s, es) && NoneStopped(s) && !SomeFinds(s, es)
    ensures NoneStopped(After(s, es))
    decreases |es|
  {
    hide Inv, Step, Enabled, NoneStopped, Finds;
    if es != [] {
      StepKeeps(s, es[0]);
      NoneStoppedStep(s, es[0]);
      NoneFindsNoneStops(Step(s, es[0]), es[1..]);
    }
  }

  /**
   From a write on, while nobody has found the flag before, up to the next clear: somebody finds it exactly when the
   call that clears it has ended cancelled. Otherwise the clear swallows the write.
   */
  lemma WriteStopsExactly(s: Sys, es: seq<Event>, c: nat)
    requires Inv(s) && NoneStopped(s) && Runs(s, es) && NoClear(es, 0) && Enabled(After(s, es), Clear(c))
    ensures SomeFinds(s, es) <==> Stopped(After(s, es).threads[c].out)
  {
    if SomeFinds(s, es) {
      FindersClear(s, es, c);
    } else {
      NoneFindsNoneStops(s, es);
      hide Inv, Runs, After, SomeFinds;
      assert BeforeClear(After(s, es), c);
    }
  }

  /** A call that waits finds the flag of a write when its turn comes exactly when no clear came between. */
  lemma WriteReachesAWaiter(s: Sys, es: seq<Event>, c: nat)
    requires s.flag && Runs(s, es) && NoMarks(es) && Enabled(After(s, es), Lock(c))
    ensures Step(After(s, es), Lock(c)).flag <==> NoClear(es, 0)
  {
    FlagAfter(s, es);
    hide After, Runs;
  }

  // ---------- a flag raised for others ----------

  /**
   A call that takes the mutex under a flag raised for others is stopped, if the connection comes up and it has
   answers to read.
   */
  lemma LockedUnderOthersFlag(s: Sys, c: nat)
    requires s.flag && s.mu.Nobody? && CallAt(s, c, Waiting) && c !in s.meant && Good(s.threads[c], true)
    ensures !OnTarget(s, Lock(c))
    ensures var es := [Lock(c), Drive(c, Connect(true))];
            && Runs(s, es)
            && c !in After(s, es).meant
            && (s.threads[c].q.answer != [] ==> Doomed(After(s, es), c))
  {
    var es := [Lock(c), Drive(c, Connect(true))];
    var s1 := Step(s, es[0]);
    var s2 := Step(s1, es[1]);
    assert es[1..] == [es[1]] && es[1..][1..] == [];
    assert Runs(s2, []) && Runs(s1, es[1..]) && After(s1, es[1..]) == s2;
  }

  /** So a flag left up stops the next call to begin, which nobody cancelled. */
  lemma LeftUpDoomsTheNext(s: Sys, c: nat, q: Request)
    requires Inv(s) && s.flag && s.mu.Nobody? && c !in s.used && q.answer != []
    ensures var es := [Begin(c, q), Lock(c), Drive(c, Connect(true))];
            Runs(s, es) && c !in After(s, es).meant && Doomed(After(s, es), c)
  {
    var es := [Begin(c, q), Lock(c), Drive(c, Connect(true))];
    var s1 := Step(s, es[0]);
    assert es[1..] == [Lock(c), Drive(c, Connect(true))];
    hide Doomed, Runs, After, Inv;
    LockedUnderOthersFlag(s1, c);
    assert es[0..] == es;
    Prepend(s, es, 0);
  }
}
