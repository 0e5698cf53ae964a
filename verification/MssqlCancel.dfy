/**
 Calls, cancels and other users of one MSSQL connection, interleaved one shared access at a time: the mutex, the
 in-flight counter and the cancel flag that a running call polls.
 */
module MssqlCancel {

  // ---------- what the server answers and the client returns ----------

  type Row = seq<string>

  /** A result set as db-lib delivers it: a table, or a statement without columns and the count it reports. */
  datatype ResultSet = Table(cols: seq<string>, rows: seq<Row>) | Plain(count: int)

  datatype Cause = Cancelled | ByServer | NoConnection

  datatype Stmt =
    | Rows(cols: seq<string>, rows: seq<Row>, limited: bool)
    | Affected(count: int)
    | Executed
    | Failed(cause: Cause)

  /** `limit` is the most rows of a table that are kept; `answer` is what the server would send. */
  datatype Request = Request(limit: nat, answer: seq<ResultSet>)

  function Min(a: nat, b: nat): nat {
    if a < b then a else b
  }

  /** What the client makes of the first `n` rows of a table. */
  function Shortened(x: ResultSet, n: nat, limit: nat): Stmt
    requires x.Table? && n <= |x.rows|
  {
    Rows(x.cols, x.rows[..Min(n, limit)], n > limit)
  }

  function Shown(x: ResultSet, limit: nat): (r: Stmt)
    ensures !r.Failed?
  {
    match x
    case Table(_, rows) => Shortened(x, |rows|, limit)
    case Plain(count) => if count >= 0 then Affected(count) else Executed
  }

  /** What a client should be told of a result set. */
  predicate Tells(x: ResultSet, limit: nat, r: Stmt) {
    if x.Table? then
      && r.Rows? && r.cols == x.cols && r.rows <= x.rows
      && (r.limited <==> limit < |x.rows|)
      && |r.rows| == (if r.limited then limit else |x.rows|)
    else if x.count < 0 then r.Executed?
    else r.Affected? && r.count == x.count
  }

  lemma ShownTells(x: ResultSet, limit: nat, r: Stmt)
    ensures Tells(x, limit, r) <==> r == Shown(x, limit)
  {
    if Tells(x, limit, r) && x.Table? {
      assert r.rows == x.rows[..|r.rows|];
    }
  }

  // ---------- one call ----------

  /** What a call does next; from `Connecting` to `Leaving` it holds the mutex. */
  datatype At =
    | Waiting
    | Connecting
    | Executing
    | Sets
    | Polling
    | Fetching
    | Read
    | Failing
    | Finished
    | Cleared
    | Leaving

  /**
   `out` is the statements so far, `part` the one being read and `left` its rows still to come; `partWhole` and
   `whole` say that no failed row fetch cost it, or one of them, anything.
   */
  datatype Thread =
    | Call(q: Request, at: At, out: seq<Stmt>, part: Stmt, left: seq<Row>, partWhole: bool, whole: bool)
    | Guest(opens: bool, inside: bool) // `open` and `alive`

  /** The driver's own failures; the interrupt hook fails a wait by dropping the connection. */
  datatype Fault = NoFault | Refused | Dropped | Interrupted

  datatype Conn = Closed | Live | Dead

  datatype Action =
    | Connect(up: bool)
    | Execute(fault: Fault)
    | Results(fault: Fault)
    | Poll
    | Fetch(fault: Fault)
    | Check
    | Explain

  function NewCall(q: Request): Thread {
    Call(q, Waiting, [], Executed, [], true, true)
  }

  /** The hook fires only when it finds the flag up. */
  predicate CanAct(t: Thread, a: Action, flag: bool) {
    && t.Call?
    && match a
       case Connect(_) => t.at == Connecting
       case Execute(f) => t.at == Executing && (f.Interrupted? ==> flag)
       case Results(f) => t.at == Sets && (f.Interrupted? ==> flag)
       case Poll => t.at == Polling
       case Fetch(f) => t.at == Fetching && (f.Interrupted? ==> flag)
       case Check => t.at == Read
       case Explain => t.at == Failing
  }

  function Act(t: Thread, a: Action, flag: bool, conn: Conn): Thread
    requires CanAct(t, a, flag)
  {
    match a
    case Connect(up) =>
      if conn.Live? || up then t.(at := Executing) else t.(at := Finished, out := [Failed(NoConnection)])
    case Execute(f) => t.(at := if f.NoFault? then Sets else Failing)
    case Results(f) =>
      if !f.NoFault? then t.(at := Failing)
      else if |t.out| >= |t.q.answer| then t.(at := Finished)
      else
        var x := t.q.answer[|t.out|];
        if x.Table? then t.(at := Polling, part := Rows(x.cols, [], false), left := x.rows, partWhole := true)
        else t.(at := Read, part := Shown(x, t.q.limit), partWhole := true)
    case Poll => t.(at := if flag then Read else Fetching)
    case Fetch(f) =>
      if !f.NoFault? then t.(at := Read, partWhole := t.left == [] || PastLimit(t.part))
      else if t.left == [] then t.(at := Read)
      else t.(at := Polling, part := Keep(t.part, t.left[0], t.q.limit), left := t.left[1..])
    case Check =>
      if flag then t.(at := Finished, out := t.out + [Failed(Cancelled)])
      else t.(at := Sets, out := t.out + [t.part], whole := t.whole && t.partWhole)
    case Explain => t.(at := Finished, out := t.out + [Failed(if flag then Cancelled else ByServer)])
  }

  /** Has a row been dropped? */
  predicate PastLimit(part: Stmt) {
    part.Rows? && part.limited
  }

  /** One row more: kept, or dropped once `limit` are kept. */
  function Keep(part: Stmt, row: Row, limit: nat): Stmt {
    match part
    case Rows(cols, rows, _) => if |rows| >= limit then Rows(cols, rows, true) else part.(rows := rows + [row])
    case _ => part
  }

  function ConnAfter(conn: Conn, a: Action): Conn {
    match a
    case Connect(up) => Ensured(conn, up)
    case Execute(f) => if f.Dropped? || f.Interrupted? then Dead else conn
    case Results(f) => if f.Dropped? || f.Interrupted? then Dead else conn
    case Fetch(f) => if f.Dropped? || f.Interrupted? then Dead else conn
    case _ => conn
  }

  /** A dead connection is closed and opened again. */
  function Ensured(conn: Conn, up: bool): Conn {
    if conn.Live? || up then Live else Closed
  }

  // ---------- the shared state ----------

  datatype Holder = Nobody | By(id: nat)

  /**
   `marks` are the cancels that have read a positive counter and not yet written the flag, each with the calls that
   were in flight then. `meant` are the calls of the cancels that have written since the last clear, and `used` the
   threads there have been; both are history that no step reads.
   */
  datatype Sys = Sys(
    threads: map<nat, Thread>,
    mu: Holder,
    inCall: int,
    flag: bool,
    conn: Conn,
    marks: map<nat, set<nat>>,
    meant: set<nat>,
    used: set<nat>)

  const INITIAL := Sys(map[], Nobody, 0, false, Closed, map[], {}, {})

  datatype Event =
    | Begin(c: nat, q: Request) // ++inCall_
    | Lock(c: nat)
    | Drive(c: nat, a: Action)
    | Clear(c: nat) // cancelled_ = false
    | CountDown(c: nat) // --inCall_
    | Unlock(c: nat)
    | Ask(k: nat) // a cancel reads inCall_
    | Mark(k: nat) // and writes cancelled_
    | Knock(c: nat, opens: bool)
    | Enter(c: nat)
    | Leave(c: nat, up: bool)

  predicate CallAt(s: Sys, c: nat, at: At) {
    c in s.threads && s.threads[c].Call? && s.threads[c].at == at
  }

  predicate Enabled(s: Sys, e: Event) {
    match e
    case Begin(c, _) => c !in s.used
    case Lock(c) => CallAt(s, c, Waiting) && s.mu.Nobody?
    case Drive(c, a) => c in s.threads && CanAct(s.threads[c], a, s.flag)
    case Clear(c) => CallAt(s, c, Finished)
    case CountDown(c) => CallAt(s, c, Cleared)
    case Unlock(c) => CallAt(s, c, Leaving)
    case Ask(k) => k !in s.marks
    case Mark(k) => k in s.marks
    case Knock(c, _) => c !in s.used
    case Enter(c) => c in s.threads && s.threads[c].Guest? && !s.threads[c].inside && s.mu.Nobody?
    case Leave(c, _) => c in s.threads && s.threads[c].Guest? && s.threads[c].inside
  }

  function Put(s: Sys, c: nat, t: Thread): Sys {
    s.(threads := s.threads[c := t])
  }

  /** A thread with an id of its own. */
  function Admit(s: Sys, c: nat, t: Thread): Sys {
    Put(s, c, t).(used := s.used + {c})
  }

  function Step(s: Sys, e: Event): Sys
    requires Enabled(s, e)
  {
    match e
    case Begin(c, q) => Admit(s, c, NewCall(q)).(inCall := s.inCall + 1)
    case Lock(c) => Put(s, c, s.threads[c].(at := Connecting)).(mu := By(c))
    case Drive(c, a) => Put(s, c, Act(s.threads[c], a, s.flag, s.conn)).(conn := ConnAfter(s.conn, a))
    case Clear(c) => Put(s, c, s.threads[c].(at := Cleared)).(flag := false, meant := {})
    case CountDown(c) => Put(s, c, s.threads[c].(at := Leaving)).(inCall := s.inCall - 1)
    case Unlock(c) => s.(threads := s.threads - {c}, mu := Nobody)
    case Ask(k) => if s.inCall > 0 then s.(marks := s.marks[k := Counted(s)]) else s
    case Mark(k) => s.(marks := s.marks - {k}, flag := true, meant := s.meant + s.marks[k])
    case Knock(c, opens) => Admit(s, c, Guest(opens, false))
    case Enter(c) => Put(s, c, s.threads[c].(inside := true)).(mu := By(c))
    case Leave(c, up) =>
      s.(threads := s.threads - {c}, mu := Nobody, conn := if s.threads[c].opens then Ensured(s.conn, up) else s.conn)
  }

  // ---------- the invariant ----------

  /** Between taking the mutex and giving it back. */
  predicate Holds(t: Thread) {
    if t.Call? then t.at != Waiting else t.inside
  }

  /** Between the increment and the decrement. */
  predicate Counts(t: Thread) {
    t.Call? && t.at != Leaving
  }

  predicate Driving(t: Thread) {
    t.Call? && t.at !in {Waiting, Finished, Cleared, Leaving}
  }

  function Counted(s: Sys): set<nat> {
    set c | c in s.threads && Counts(s.threads[c])
  }

  predicate MutexIsHeld(s: Sys) {
    && (forall c :: c in s.threads && Holds(s.threads[c]) ==> s.mu == By(c))
    && (s.mu.By? ==> s.mu.id in s.threads && Holds(s.threads[s.mu.id]))
  }

  predicate AllShown(out: seq<Stmt>, n: nat, q: Request)
    requires n <= |out|
  {
    n <= |q.answer| && forall i :: 0 <= i < n ==> out[i] == Shown(q.answer[i], q.limit)
  }

  predicate Stopped(out: seq<Stmt>) {
    out != [] && out[|out| - 1] == Failed(Cancelled)
  }

  /** A finished call returned every set, or the sets up to one failure. */
  predicate Honest(out: seq<Stmt>, q: Request) {
    || (|out| == |q.answer| && AllShown(out, |out|, q))
    || (out != [] && out[|out| - 1].Failed? && AllShown(out, |out| - 1, q))
  }

  predicate Good(t: Thread, flag: bool) {
    t.Call? ==>
      match t.at
      case Waiting => t.out == [] && t.whole
      case Connecting => t.out == [] && t.whole
      case Executing => t.out == [] && t.whole
      case Sets => SoFar(t)
      case Polling => Reading(t)
      case Fetching => Reading(t)
      case Read => Opened(t) && (flag || (t.partWhole <==> t.part == Shown(t.q.answer[|t.out|], t.q.limit)))
      case Failing => SoFar(t)
      case Finished => (t.whole <==> Honest(t.out, t.q)) && (Stopped(t.out) ==> flag)
      case Cleared => t.whole <==> Honest(t.out, t.q)
      case Leaving => t.whole <==> Honest(t.out, t.q)
  }

  predicate NoFailure(out: seq<Stmt>) {
    forall i :: 0 <= i < |out| ==> !out[i].Failed?
  }

  predicate SoFar(t: Thread)
    requires t.Call?
  {
    |t.out| <= |t.q.answer| && (t.whole <==> AllShown(t.out, |t.out|, t.q)) && NoFailure(t.out)
  }

  predicate Opened(t: Thread)
    requires t.Call?
  {
    SoFar(t) && |t.out| < |t.q.answer| && !t.part.Failed?
  }

  predicate Reading(t: Thread)
    requires t.Call?
  {
    && Opened(t) && t.partWhole
    && var x := t.q.answer[|t.out|];
       && x.Table? && |t.left| <= |x.rows|
       && var n := |x.rows| - |t.left|;
          t.left == x.rows[n..] && t.part == Shortened(x, n, t.q.limit)
  }

  /** Ids stay with their threads, and nobody is meant by a flag that is down. */
  predicate IdsKnown(s: Sys) {
    && (!s.flag ==> s.meant == {})
    && (forall c :: c in s.threads ==> c in s.used)
    && (forall k :: k in s.marks ==> s.marks[k] <= s.used)
    && s.meant <= s.used
  }

  predicate Inv(s: Sys) {
    && MutexIsHeld(s)
    && IdsKnown(s)
    && s.inCall == |Counted(s)|
    && forall c :: c in s.threads ==> Good(s.threads[c], s.flag)
  }

  // ---------- one step of a call ----------

  /** The driver's step keeps what is known of the call it drives. */
  lemma ActKeeps(t: Thread, a: Action, flag: bool, conn: Conn)
    requires CanAct(t, a, flag) && Good(t, flag)
    ensures Good(Act(t, a, flag, conn), flag)
  {
    match a {
      case Connect(_) =>
        hide Reading;
      case Execute(_) =>
        hide Reading;
      case Results(f) => ResultsKeeps(t, f, flag, conn);
      case Poll => PollKeeps(t, flag, conn);
      case Fetch(f) => FetchKeeps(t, f, flag, conn);
      case Check => CheckKeeps(t, flag, conn);
      case Explain => ExplainKeeps(t, flag, conn);
    }
  }

  lemma ActHolds(t: Thread, a: Action, flag: bool, conn: Conn)
    requires CanAct(t, a, flag)
    ensures var u := Act(t, a, flag, conn); u.Call? && Holds(u) && Counts(u) && Holds(t) && Counts(t)
    ensures Act(t, a, flag, conn).at !in {Waiting, Connecting, Cleared, Leaving}
  {
  }

  lemma ResultsKeeps(t: Thread, f: Fault, flag: bool, conn: Conn)
    requires CanAct(t, Results(f), flag) && Good(t, flag)
    ensures Good(Act(t, Results(f), flag, conn), flag)
  {
    if f.NoFault? && |t.out| < |t.q.answer| {
      hide Honest, AllShown, NoFailure;
      var x := t.q.answer[|t.out|];
      if x.Table? {
        assert x.rows[..Min(0, t.q.limit)] == [] && x.rows[0..] == x.rows;
      }
    } else {
      HonestEnd(t, ByServer);
      hide Honest, AllShown, Reading, Shown;
    }
  }

  lemma PollKeeps(t: Thread, flag: bool, conn: Conn)
    requires CanAct(t, Poll, flag) && Good(t, flag)
    ensures Good(Act(t, Poll, flag, conn), flag)
  {
  }

  lemma FetchKeeps(t: Thread, f: Fault, flag: bool, conn: Conn)
    requires CanAct(t, Fetch(f), flag) && Good(t, flag)
    ensures Good(Act(t, Fetch(f), flag, conn), flag)
  {
    hide AllShown, NoFailure, Shortened, Keep;
    var x := t.q.answer[|t.out|];
    var n := |x.rows| - |t.left|;
    LostExactly(x, n, t.q.limit);
    if f.NoFault? && t.left != [] {
      OneMoreRow(x, n, t.q.limit);
      assert x.rows[n..][1..] == x.rows[n + 1..];
    }
  }

  /** A table cut after `n` rows loses something exactly when rows remained and none had been dropped yet. */
  lemma LostExactly(x: ResultSet, n: nat, limit: nat)
    requires x.Table? && n <= |x.rows|
    ensures Shortened(x, n, limit) == Shown(x, limit) <==> n == |x.rows| || n > limit
    ensures PastLimit(Shortened(x, n, limit)) <==> n > limit
    ensures Shortened(x, n, limit).Rows?
  {
    if n > limit {
      assert Min(n, limit) == limit == Min(|x.rows|, limit);
    } else if n < limit && n < |x.rows| {
      assert |x.rows[..n]| < |x.rows[..Min(|x.rows|, limit)]|;
    }
  }

  lemma OneMoreRow(x: ResultSet, n: nat, limit: nat)
    requires x.Table? && n < |x.rows|
    ensures Keep(Shortened(x, n, limit), x.rows[n], limit) == Shortened(x, n + 1, limit)
    ensures Shortened(x, n + 1, limit).Rows?
  {
    assert n < limit ==> x.rows[..n + 1] == x.rows[..n] + [x.rows[n]];
  }

  /**
   A row fetch that fails unmarked ends its table early, as a success with the rows so far; something is lost exactly
   when rows remained and none had been dropped yet.
   */
  lemma FailedFetchReadsAsSuccess(t: Thread, f: Fault, conn: Conn)
    requires CanAct(t, Fetch(f), false) && Good(t, false) && !f.NoFault?
    ensures var x := t.q.answer[|t.out|];
            var n := |x.rows| - |t.left|;
            var u := Act(Act(t, Fetch(f), false, conn), Check, false, ConnAfter(conn, Fetch(f)));
            && u.at == Sets && u.out == t.out + [Shortened(x, n, t.q.limit)]
            && (Shortened(x, n, t.q.limit) == Shown(x, t.q.limit) <==> n == |x.rows| || n > t.q.limit)
            && (u.whole <==> t.whole && (n == |x.rows| || n > t.q.limit))
  {
    var x := t.q.answer[|t.out|];
    LostExactly(x, |x.rows| - |t.left|, t.q.limit);
    hide Shown, Shortened, AllShown, NoFailure;
  }

  /** A failure after the statements so far keeps them honest, or not. */
  lemma HonestEnd(t: Thread, cause: Cause)
    requires t.Call? && SoFar(t)
    ensures t.whole <==> Honest(t.out + [Failed(cause)], t.q)
    ensures |t.out| == |t.q.answer| ==> (t.whole <==> Honest(t.out, t.q))
  {
    hide Shown;
    var out := t.out + [Failed(cause)];
    assert AllShown(out, |t.out|, t.q) <==> AllShown(t.out, |t.out|, t.q) by {
      assert forall i :: 0 <= i < |t.out| ==> out[i] == t.out[i];
    }
    assert |out| == |t.q.answer| ==> out[|t.out|] != Shown(t.q.answer[|t.out|], t.q.limit);
  }

  lemma CheckKeeps(t: Thread, flag: bool, conn: Conn)
    requires CanAct(t, Check, flag) && Good(t, flag)
    ensures Good(Act(t, Check, flag, conn), flag)
  {
    HonestEnd(t, Cancelled);
    hide Reading, Shown, Honest;
    if !flag {
      var out := t.out + [t.part];
      assert forall i :: 0 <= i < |t.out| ==> out[i] == t.out[i];
      assert AllShown(out, |out|, t.q) <==>
        AllShown(t.out, |t.out|, t.q) && out[|t.out|] == Shown(t.q.answer[|t.out|], t.q.limit);
    }
  }

  lemma ExplainKeeps(t: Thread, flag: bool, conn: Conn)
    requires CanAct(t, Explain, flag) && Good(t, flag)
    ensures Good(Act(t, Explain, flag, conn), flag)
  {
    HonestEnd(t, if flag then Cancelled else ByServer);
    hide Reading, Shown, Honest;
  }

  // ---------- one step of the whole ----------

  /** Another thread's step leaves a call good: only the call that holds the mutex before its clear needs the flag. */
  lemma OtherGood(s: Sys, e: Event, c: nat)
    requires Inv(s) && Enabled(s, e) && c in s.threads && c in Step(s, e).threads
    requires Step(s, e).threads[c] == s.threads[c]
    ensures Good(s.threads[c], Step(s, e).flag)
  {
    hide Act, CanAct, Reading, SoFar, Honest, Opened, Shown;
    assert Good(s.threads[c], s.flag);
    if e.Clear? && s.flag {
      assert Holds(s.threads[e.c]) && s.mu == By(e.c);
      assert !Holds(s.threads[c]);
    }
  }

  lemma OwnGood(s: Sys, e: Event, c: nat)
    requires Inv(s) && Enabled(s, e) && c in Step(s, e).threads
    requires c in s.threads ==> Step(s, e).threads[c] != s.threads[c]
    ensures Good(Step(s, e).threads[c], Step(s, e).flag)
  {
    hide Act, CanAct, Reading, Honest, Opened, Shown;
    if c in s.threads {
      assert Good(s.threads[c], s.flag);
      if e.Drive? {
        ActKeeps(s.threads[c], e.a, s.flag, s.conn);
      }
    }
  }

  lemma CountedAfter(s: Sys, e: Event)
    requires Enabled(s, e) && IdsKnown(s)
    ensures Counted(Step(s, e)) ==
            if e.Begin? then Counted(s) + {e.c} else if e.CountDown? then Counted(s) - {e.c} else Counted(s)
    ensures e.Begin? ==> e.c !in Counted(s)
    ensures e.CountDown? ==> e.c in Counted(s)
  {
    hide Act, CanAct;
    if e.Drive? {
      ActHolds(s.threads[e.c], e.a, s.flag, s.conn);
    }
  }

  lemma MutexKept(s: Sys, e: Event)
    requires MutexIsHeld(s) && IdsKnown(s) && Enabled(s, e)
    ensures MutexIsHeld(Step(s, e))
  {
    hide Act, CanAct;
    if e.Drive? {
      ActHolds(s.threads[e.c], e.a, s.flag, s.conn);
    }
  }

  lemma IdsKept(s: Sys, e: Event)
    requires IdsKnown(s) && Enabled(s, e)
    ensures IdsKnown(Step(s, e))
  {
    hide Act, CanAct, Holds;
  }

  lemma StepKeeps(s: Sys, e: Event)
    requires Inv(s) && Enabled(s, e)
    ensures Inv(Step(s, e))
  {
    MutexKept(s, e);
    IdsKept(s, e);
    CountedAfter(s, e);
    var t := Step(s, e);
    forall c | c in t.threads ensures Good(t.threads[c], t.flag) {
      if c in s.threads && t.threads[c] == s.threads[c] {
        OtherGood(s, e, c);
      } else {
        OwnGood(s, e, c);
      }
    }
    hide Good, MutexIsHeld, IdsKnown, Act, CanAct, Counts;
  }

  // ---------- runs ----------

  predicate Runs(s: Sys, es: seq<Event>)
    decreases |es|
  {
    es == [] || (Enabled(s, es[0]) && Runs(Step(s, es[0]), es[1..]))
  }

  function After(s: Sys, es: seq<Event>): Sys
    requires Runs(s, es)
    decreases |es|
  {
    if es == [] then s else After(Step(s, es[0]), es[1..])
  }

  lemma {:induction false} InvHolds(s: Sys, es: seq<Event>)
    requires Inv(s) && Runs(s, es)
    ensures Inv(After(s, es))
    decreases |es|
  {
    hide Inv, Step, Enabled;
    if es != [] {
      StepKeeps(s, es[0]);
      InvHolds(Step(s, es[0]), es[1..]);
    }
  }

  /** The counter counts the calls in flight. */
  lemma CounterCounts(es: seq<Event>)
    requires Runs(INITIAL, es)
    ensures After(INITIAL, es).inCall == |Counted(After(INITIAL, es))|
  {
    assert Counted(INITIAL) == {};
    InvHolds(INITIAL, es);
  }

  /** At most one call drives the connection, and it holds the mutex; nobody else is inside. */
  lemma OnlyHolderDrives(es: seq<Event>, c: nat, d: nat)
    requires Runs(INITIAL, es)
    ensures var s := After(INITIAL, es);
            c in s.threads && d in s.threads && Driving(s.threads[c]) && Holds(s.threads[d]) ==> c == d && s.mu == By(c)
  {
    assert Counted(INITIAL) == {};
    InvHolds(INITIAL, es);
  }

  /**
   A call returns the server's result sets, or those up to one failure, exactly when no failed row fetch cost it any.
   */
  lemma FinishedIsHonest(es: seq<Event>, c: nat)
    requires Runs(INITIAL, es) && CallAt(After(INITIAL, es), c, Leaving)
    ensures var t := After(INITIAL, es).threads[c]; Honest(t.out, t.q) <==> t.whole
  {
    assert Counted(INITIAL) == {};
    InvHolds(INITIAL, es);
    hide Honest;
  }

  // ---------- the flag ----------

  /** Some cancel wrote the flag, and no call has cleared it since. */
  predicate MarkedLast(es: seq<Event>) {
    exists j :: 0 <= j < |es| && es[j].Mark? && NoClear(es, j + 1)
  }

  predicate NoClear(es: seq<Event>, from: nat) {
    forall k :: from <= k < |es| ==> !es[k].Clear?
  }

  lemma FlagStep(s: Sys, e: Event)
    requires Enabled(s, e)
    ensures Step(s, e).flag == if e.Mark? then true else if e.Clear? then false else s.flag
  {
    hide Act, CanAct;
  }

  lemma {:induction false} FlagAfter(s: Sys, es: seq<Event>)
    requires Runs(s, es)
    ensures After(s, es).flag <==> MarkedLast(es) || (s.flag && NoClear(es, 0))
    decreases |es|
  {
    hide Step, Enabled;
    if es != [] {
      FlagStep(s, es[0]);
      FlagAfter(Step(s, es[0]), es[1..]);
      MarkedLastTail(es);
      assert NoClear(es, 0) <==> !es[0].Clear? && NoClear(es[1..], 0) by { NoClearTail(es, 0); }
    }
  }

  lemma NoClearTail(es: seq<Event>, j: nat)
    requires es != []
    ensures NoClear(es, j + 1) <==> NoClear(es[1..], j)
  {
    if NoClear(es[1..], j) {
      forall k | j + 1 <= k < |es| ensures !es[k].Clear? {
        assert es[k] == es[1..][k - 1];
      }
    }
    if NoClear(es, j + 1) {
      forall k | j <= k < |es[1..]| ensures !es[1..][k].Clear? {
        assert es[1..][k] == es[k + 1];
      }
    }
  }

  lemma MarkedLastTail(es: seq<Event>)
    requires es != []
    ensures MarkedLast(es) <==> MarkedLast(es[1..]) || (es[0].Mark? && NoClear(es[1..], 0))
  {
    hide NoClear;
    var rest := es[1..];
    NoClearTail(es, 0);
    if MarkedLast(es) {
      var j :| 0 <= j < |es| && es[j].Mark? && NoClear(es, j + 1);
      if j > 0 {
        NoClearTail(es, j);
        assert rest[j - 1] == es[j] && NoClear(rest, (j - 1) + 1);
      }
    }
    if MarkedLast(rest) {
      var j :| 0 <= j < |rest| && rest[j].Mark? && NoClear(rest, j + 1);
      NoClearTail(es, j + 1);
      assert es[j + 1] == rest[j] && NoClear(es, (j + 1) + 1);
    }
  }

  /** The flag is up exactly when a cancel wrote it after the last clear. */
  lemma FlagExactly(es: seq<Event>)
    requires Runs(INITIAL, es)
    ensures After(INITIAL, es).flag <==> MarkedLast(es)
  {
    FlagAfter(INITIAL, es);
  }

  // ---------- a cancel that lands on a running call ----------

  /** Call `c` holds the mutex and has not cleared the flag. */
  predicate BeforeClear(s: Sys, c: nat) {
    c in s.threads && Holds(s.threads[c]) && s.threads[c].Call? && s.threads[c].at !in {Cleared, Leaving}
  }

  lemma VisibleStep(s: Sys, e: Event, c: nat)
    requires Inv(s) && Enabled(s, e) && BeforeClear(s, c) && e != Clear(c)
    ensures BeforeClear(Step(s, e), c) && (s.flag ==> Step(s, e).flag)
  {
    hide Act, CanAct, Good, Counted, Counts;
    if e.Drive? {
      ActHolds(s.threads[e.c], e.a, s.flag, s.conn);
    }
  }

  /** A flag that is up while a call runs stays up until that call's own clear. */
  lemma {:induction false} StaysVisible(s: Sys, es: seq<Event>, c: nat)
    requires Inv(s) && Runs(s, es) && BeforeClear(s, c) && Clear(c) !in es
    ensures BeforeClear(After(s, es), c) && (s.flag ==> After(s, es).flag)
    decreases |es|
  {
    hide Inv, Step, Enabled, BeforeClear;
    if es != [] {
      VisibleStep(s, es[0], c);
      StepKeeps(s, es[0]);
      StaysVisible(Step(s, es[0]), es[1..], c);
    }
  }

  /** The flag is up and the call still has an answer to read, or has ended cancelled. */
  predicate Doomed(s: Sys, c: nat) {
    && c in s.threads && s.threads[c].Call?
    && var t := s.threads[c];
       match t.at
       case Waiting => false
       case Connecting => false
       case Executing => s.flag && |t.out| < |t.q.answer|
       case Sets => s.flag && |t.out| < |t.q.answer|
       case Polling => s.flag
       case Fetching => s.flag
       case Read => s.flag
       case Failing => s.flag
       case Finished => Stopped(t.out)
       case Cleared => Stopped(t.out)
       case Leaving => Stopped(t.out)
  }

  lemma DoomedAct(t: Thread, a: Action, conn: Conn)
    requires CanAct(t, a, true) && !a.Connect? && (a.Execute? || a.Results? ==> |t.out| < |t.q.answer|)
    ensures var u := Act(t, a, true, conn);
            && u.Call?
            && if u.at == Finished then Stopped(u.out)
               else u.at in {Polling, Fetching, Read, Failing} || (u.at == Sets && |u.out| < |u.q.answer|)
  {
  }

  lemma DoomedStep(s: Sys, e: Event, c: nat)
    requires Inv(s) && Enabled(s, e) && Doomed(s, c) && e != Unlock(c)
    ensures Doomed(Step(s, e), c)
  {
    hide Act, Good, Counted, Counts, Stopped;
    if e.Drive? && e.c == c {
      assert s.threads[c].at !in {Finished, Cleared, Leaving};
      DoomedAct(s.threads[c], e.a, s.conn);
    } else if BeforeClear(s, c) && e != Clear(c) {
      VisibleStep(s, e, c);
    }
  }

  /** From then on the call can only end with "Query cancelled". */
  lemma {:induction false} DoomedEndsCancelled(s: Sys, es: seq<Event>, c: nat)
    requires Inv(s) && Runs(s, es) && Doomed(s, c) && Unlock(c) !in es
    ensures Doomed(After(s, es), c)
    ensures CallAt(After(s, es), c, Leaving) ==> Stopped(After(s, es).threads[c].out)
    decreases |es|
  {
    hide Inv, Step, Enabled, Stopped;
    if es != [] {
      DoomedStep(s, es[0], c);
      StepKeeps(s, es[0]);
      hide Doomed;
      DoomedEndsCancelled(Step(s, es[0]), es[1..], c);
    }
  }

  /** How many rows call `c` asks for in a run. */
  function Fetches(es: seq<Event>, c: nat): nat {
    if es == [] then 0 else (if es[0].Drive? && es[0].c == c && es[0].a.Fetch? then 1 else 0) + Fetches(es[1..], c)
  }

  /** And it asks for at most one more row, none when it is not already waiting for one. */
  lemma {:induction false} AtMostOneMoreRow(s: Sys, es: seq<Event>, c: nat)
    requires Inv(s) && Runs(s, es) && s.flag && BeforeClear(s, c) && Clear(c) !in es
    ensures Fetches(es, c) <= if CallAt(s, c, Fetching) then 1 else 0
    decreases |es|
  {
    hide Inv, Step, Enabled;
    if es != [] {
      VisibleStep(s, es[0], c);
      StepKeeps(s, es[0]);
      FetchingStep(s, es[0], c);
      hide BeforeClear, CallAt;
      AtMostOneMoreRow(Step(s, es[0]), es[1..], c);
    }
  }

  lemma FetchingStep(s: Sys, e: Event, c: nat)
    requires Enabled(s, e) && s.flag && BeforeClear(s, c)
    ensures e.Drive? && e.c == c && e.a.Fetch? ==> CallAt(s, c, Fetching)
    ensures CallAt(Step(s, e), c, Fetching) ==> CallAt(s, c, Fetching) && !(e.Drive? && e.c == c)
  {
    hide Keep, Shown;
  }

  // ---------- one write, one call ----------

  predicate NoMarks(es: seq<Event>) {
    forall i :: 0 <= i < |es| ==> !es[i].Mark?
  }

  /** Two calls that find the flag up have a write between them, so one write stops at most one call. */
  lemma OneWriteStopsOneCall(s: Sys, es: seq<Event>, c: nat, d: nat)
    requires Inv(s) && Runs(s, es) && BeforeClear(s, c)
    requires After(s, es).flag && BeforeClear(After(s, es), d) && (c != d || Clear(c) in es)
    ensures !NoMarks(es)
  {
    FlagAfter(s, es);
    InvHolds(s, es);
    if NoMarks(es) {
      if Clear(c) !in es {
        StaysVisible(s, es, c);
        hide Runs, After, Good, Counted;
        assert false;
      }
    }
  }

  // ---------- putting runs together ----------

  lemma Prepend(s: Sys, es: seq<Event>, i: nat)
    requires i < |es| && Enabled(s, es[i]) && Runs(Step(s, es[i]), es[i + 1..])
    ensures Runs(s, es[i..]) && After(s, es[i..]) == After(Step(s, es[i]), es[i + 1..])
  {
    hide Step, Enabled;
    assert es[i..][0] == es[i] && es[i..][1..] == es[i + 1..];
  }

  lemma {:induction false} RunsOn(s: Sys, es: seq<Event>, fs: seq<Event>)
    requires Runs(s, es) && Runs(After(s, es), fs)
    ensures Runs(s, es + fs) && After(s, es + fs) == After(After(s, es), fs)
    decreases |es|
  {
    hide Step, Enabled;
    if es == [] {
      assert es + fs == fs;
    } else {
      assert (es + fs)[0] == es[0] && (es + fs)[1..] == es[1..] + fs;
      RunsOn(Step(s, es[0]), es[1..], fs);
    }
  }
}
