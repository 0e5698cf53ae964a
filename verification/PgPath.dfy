/**
 The client's cache of the server's search path, with other threads' catalog queries
 between any two of its steps.
 */
module PgPath {
  import opened Text
  import opened Lexer
  import opened Matching

  // ---------- the server ----------

  /** `saved` is the path at the start of the open transaction. */
  datatype Mode = Idle | InTx(saved: string) | Aborted

  /** The session: its path ("" is the server default) and its transaction. */
  datatype Server = Server(path: string, mode: Mode)

  const FRESH_SESSION := Server("", Idle)

  /** What a command does to the session; `Query` is any command that leaves both alone. */
  datatype Effect = Query | SetPath(path: string) | ResetPath | SetSchema(path: string) | DiscardAll
                  | BeginTx | Commit | Rollback | Abort | Fails

  /** A session in the middle of a batch: `base` is the path its implicit transaction would go back to. */
  datatype Exec = Exec(server: Server, base: string, ok: bool)

  /** A failed command takes the path back to where its transaction began, and ends the batch. */
  function Failed(x: Exec): Exec {
    match x.server.mode
    case Idle => Exec(Server(x.base, Idle), x.base, false)
    case InTx(saved) => Exec(Server(saved, Aborted), saved, false)
    case Aborted => x.(ok := false)
  }

  function Moved(x: Exec, path: string): Exec {
    x.(server := x.server.(path := path))
  }

  function Command(x: Exec, c: Effect): Exec {
    match x.server.mode
    case Aborted =>
      if c.Commit? || c.Rollback? || c.Abort? then Exec(Server(x.server.path, Idle), x.server.path, true) else Failed(x)
    case Idle =>
      (match c
       case Query => x
       case SetPath(p) => Moved(x, p)
       case ResetPath => Moved(x, "")
       case SetSchema(p) => Moved(x, p)
       case DiscardAll => Moved(x, "")
       case BeginTx => x.(server := x.server.(mode := InTx(x.base)))
       case Commit => x.(base := x.server.path)
       case Rollback => Moved(x, x.base)
       case Abort => Moved(x, x.base)
       case Fails => Failed(x))
    case InTx(saved) =>
      (match c
       case Query => x
       case SetPath(p) => Moved(x, p)
       case ResetPath => Moved(x, "")
       case SetSchema(p) => Moved(x, p)
       case DiscardAll => Failed(x)
       case BeginTx => x
       case Commit => Exec(Server(x.server.path, Idle), x.server.path, true)
       case Rollback => Exec(Server(saved, Idle), saved, true)
       case Abort => Exec(Server(saved, Idle), saved, true)
       case Fails => Failed(x))
  }

  function Commands(x: Exec, cmds: seq<Effect>): Exec
    decreases |cmds|
  {
    if cmds == [] || !x.ok then x else Commands(Command(x, cmds[0]), cmds[1..])
  }

  /** The session after a batch, and whether the client sees success: an empty batch reports nothing, which is none. */
  function Execute(s: Server, cmds: seq<Effect>): (Server, bool) {
    var x := Commands(Exec(s, s.path, true), cmds);
    (x.server, x.ok && cmds != [])
  }

  // ---------- a batch and its text ----------

  datatype Batch = Batch(sql: string, cmds: seq<Effect>)

  predicate Mentions(sql: string, word: string) {
    FindText(Lower(sql), word, 0).Some?
  }

  /** The test the client makes after a batch. */
  predicate MayMovePath(sql: string) {
    Mentions(sql, "search_path") || Mentions(sql, "rollback") || Mentions(sql, "discard") || Mentions(sql, "reset")
  }

  lemma MentionedMeans(sql: string, word: string)
    requires forall i :: 0 <= i < |word| ==> !IsUpper(word[i])
    ensures Mentions(sql, word) <==> OccursAnywhere(sql, word)
  {
    forall i: nat ensures At(Lower(sql), word, i) <==> Occurs(sql, word, i) {
      if i + |word| <= |sql| {
        var a, b := Lower(sql)[i..i + |word|], sql[i..i + |word|];
        assert forall j :: 0 <= j < |word| ==> a[j] == LowerChar(b[j]) && LowerChar(word[j]) == word[j];
        assert Ieq(b, word) <==> a == word;
      }
    }
    hide Occurs, Lower;
    var q := FindText(Lower(sql), word, 0);
    if OccursAnywhere(sql, word) {
      var i :| 0 <= i <= |sql| && Occurs(sql, word, i);
      assert At(Lower(sql), word, i);
    }
  }

  /** The words the client looks for in a batch, in any case. */
  lemma WordsLookedFor(sql: string)
    ensures MayMovePath(sql) <==>
            OccursAnywhere(sql, "search_path") || OccursAnywhere(sql, "rollback")
            || OccursAnywhere(sql, "discard") || OccursAnywhere(sql, "reset")
  {
    MentionedMeans(sql, "search_path");
    MentionedMeans(sql, "rollback");
    MentionedMeans(sql, "discard");
    MentionedMeans(sql, "reset");
    hide Mentions, OccursAnywhere;
  }

  /** SQL spells these commands with these words. */
  predicate Spelled(sql: string, c: Effect) {
    match c
    case SetPath(_) => Mentions(sql, "search_path")
    case ResetPath => Mentions(sql, "reset")
    case DiscardAll => Mentions(sql, "discard")
    case Rollback => Mentions(sql, "rollback")
    case _ => true
  }

  /** A batch spelled as SQL spells it, without the two commands that move the path under other names. */
  predicate Ordinary(b: Batch) {
    forall i :: 0 <= i < |b.cmds| ==> Spelled(b.sql, b.cmds[i]) && !b.cmds[i].SetSchema? && !b.cmds[i].Abort?
  }

  /** A command that leaves the path alone when it succeeds. */
  predicate Quiet(c: Effect) {
    c.Query? || c.BeginTx? || c.Commit? || c.Fails?
  }

  lemma {:induction false} QuietCommands(x: Exec, cmds: seq<Effect>)
    requires forall i :: 0 <= i < |cmds| ==> Quiet(cmds[i])
    requires x.ok && (x.server.mode.Idle? ==> x.base == x.server.path)
    ensures Commands(x, cmds).ok ==> Commands(x, cmds).server.path == x.server.path
    decreases |cmds|
  {
    if cmds != [] {
      assert Quiet(cmds[0]);
      var y := Command(x, cmds[0]);
      if y.ok {
        QuietCommands(y, cmds[1..]);
      }
    }
  }

  /** A batch that succeeded and mentions none of the four words left the path where it was. */
  lemma UnmentionedStays(s: Server, b: Batch)
    requires Ordinary(b) && !MayMovePath(b.sql) && Execute(s, b.cmds).1
    ensures Execute(s, b.cmds).0.path == s.path
  {
    hide Mentions;
    forall i | 0 <= i < |b.cmds| ensures Quiet(b.cmds[i]) {
      assert Spelled(b.sql, b.cmds[i]);
    }
    QuietCommands(Exec(s, s.path, true), b.cmds);
  }

  /** `ABORT` moves the path back and mentions none of the words, and so does `SET SCHEMA`. */
  lemma OtherNamesMoveThePath()
    ensures Execute(Server("s", InTx("")), [Abort]) == (Server("", Idle), true)
    ensures Execute(Server("s", Idle), [SetSchema("t")]) == (Server("t", Idle), true)
  {
    assert [Abort][1..] == [];
    assert [SetSchema("t")][1..] == [];
  }

  // ---------- the client ----------

  /** What the cache holds while nobody knows the path; no caller asks for it. */
  const UNKNOWN := "\0"

  /** Where the thread that holds the path lock stands. */
  datatype Pc =
    | Free
    | MustSet(schema: string, batch: Batch)
    | WasSet(schema: string, batch: Batch)
    | Ready(schema: string, batch: Batch)
    | Sent(batch: Batch, ok: bool)

  datatype Sys = Sys(connected: bool, server: Server, cache: string, pc: Pc)

  const INITIAL := Sys(false, FRESH_SESSION, "", Free)

  /**
   One step; `connects` says whether a connection, if one is needed, comes up, and `fails` whether the server
   refuses.
   */
  datatype Event =
    | Start(schema: string, batch: Batch)
    | RunSet(connects: bool, fails: bool)
    | StoreCache
    | Send(connects: bool)
    | Finish
    | Catalog(connects: bool, fails: bool)

  predicate Enabled(s: Sys, e: Event) {
    match e
    case Start(schema, batch) => s.pc.Free? && schema != UNKNOWN
    case RunSet(_, _) => s.pc.MustSet?
    case StoreCache => s.pc.WasSet?
    case Send(_) => s.pc.Ready?
    case Finish => s.pc.Sent?
    case Catalog(_, _) => true
  }

  /** Connecting, if need be: server and cache both begin with the default path. */
  function EnsureConn(s: Sys, connects: bool): Sys {
    if !s.connected && connects then s.(connected := true, server := FRESH_SESSION, cache := "") else s
  }

  /** The client's own statement that sets the path. */
  function SetCommand(schema: string): Effect {
    if schema == "" then ResetPath else SetPath(schema)
  }

  function Step(s: Sys, e: Event): Sys
    requires Enabled(s, e)
  {
    match e
    case Start(schema, batch) => s.(pc := if schema != s.cache then MustSet(schema, batch) else Ready(schema, batch))
    case RunSet(connects, fails) =>
      var t := EnsureConn(s, connects);
      if !t.connected then t.(pc := Free)
      else
        var (server, ok) := Execute(t.server, [if fails then Fails else SetCommand(s.pc.schema)]);
        t.(server := server, pc := if ok then WasSet(s.pc.schema, s.pc.batch) else Free)
    case StoreCache => s.(cache := s.pc.schema, pc := Ready(s.pc.schema, s.pc.batch))
    case Send(connects) =>
      var t := EnsureConn(s, connects);
      if !t.connected then t.(pc := Sent(s.pc.batch, false))
      else
        var (server, ok) := Execute(t.server, s.pc.batch.cmds);
        t.(server := server, pc := Sent(s.pc.batch, ok))
    case Finish => s.(cache := if !s.pc.ok || MayMovePath(s.pc.batch.sql) then UNKNOWN else s.cache, pc := Free)
    case Catalog(connects, fails) =>
      var t := EnsureConn(s, connects);
      if !t.connected then t else t.(server := Execute(t.server, [if fails then Fails else Query]).0)
  }

  // ---------- agreement ----------

  /** The cache is the unknown marker or the server's path; with no session yet, its default. */
  predicate Agrees(s: Sys) {
    s.cache == UNKNOWN || s.cache == if s.connected then s.server.path else ""
  }

  predicate PathIs(s: Sys, schema: string) {
    schema == if s.connected then s.server.path else ""
  }

  /** What holds at each point of the thread that holds the path lock. */
  predicate Inv(s: Sys) {
    && (!s.connected ==> Agrees(s))
    && match s.pc
       case Free => Agrees(s)
       case MustSet(schema, batch) => Agrees(s) && schema != UNKNOWN
       case WasSet(schema, batch) => s.connected && PathIs(s, schema) && schema != UNKNOWN
       case Ready(schema, batch) => s.cache == schema && PathIs(s, schema) && schema != UNKNOWN
       case Sent(batch, ok) => ok && !MayMovePath(batch.sql) ==> s.connected && Agrees(s)
  }

  /** Is the path about to be taken back: a statement fails in a transaction that has moved the path since it began? */
  predicate TakesBack(s: Sys, fails: bool) {
    s.connected && fails && s.server.mode.InTx? && s.server.mode.saved != s.server.path
  }

  /** The path the client takes the server to be on. */
  function Trusted(s: Sys): string {
    match s.pc
    case WasSet(schema, _) => schema
    case Ready(schema, _) => schema
    case _ => s.cache
  }

  /** Does anyone still count on that? */
  predicate Relied(s: Sys) {
    match s.pc
    case Free => s.cache != UNKNOWN
    case MustSet(_, _) => s.cache != UNKNOWN
    case WasSet(_, _) => true
    case Ready(_, _) => true
    case Sent(batch, ok) => ok && !MayMovePath(batch.sql) && s.cache != UNKNOWN
  }

  /** A path is taken back, and not to the one relied on. */
  predicate LosesPath(s: Sys, fails: bool) {
    TakesBack(s, fails) && Relied(s) && s.server.mode.saved != Trusted(s)
  }

  /** The batch succeeds without a mention of the path, and leaves it elsewhere than it was asked to run. */
  predicate Strays(s: Sys, connects: bool)
    requires s.pc.Ready?
  {
    var t := EnsureConn(s, connects);
    var (after, ok) := Execute(t.server, s.pc.batch.cmds);
    t.connected && ok && !MayMovePath(s.pc.batch.sql) && after.path != s.pc.schema
  }

  /** No step takes a relied-on path back, and no batch moves it unmentioned. */
  predicate Safe(s: Sys, e: Event)
    requires Enabled(s, e)
  {
    match e
    case RunSet(_, fails) => !LosesPath(s, fails)
    case Catalog(_, fails) => !LosesPath(s, fails)
    case Send(connects) => !Strays(s, connects)
    case _ => true
  }

  lemma OneCommand(s: Server, c: Effect)
    ensures var x := Command(Exec(s, s.path, true), c); Execute(s, [c]) == (x.server, x.ok)
  {
    var x := Command(Exec(s, s.path, true), c);
    assert [c][1..] == [];
    assert Commands(x, []) == x;
  }

  /** A step from an agreeing state ends in one exactly when it is safe. */
  lemma StepKeepsExactly(s: Sys, e: Event)
    requires Inv(s) && Enabled(s, e)
    ensures Inv(Step(s, e)) <==> Safe(s, e)
  {
    match e {
      case Start(_, _) =>
        hide MayMovePath, Execute;
      case RunSet(connects, fails) => SetKeepsExactly(s, connects, fails);
      case StoreCache =>
        hide MayMovePath, Execute;
      case Send(connects) => SendKeepsExactly(s, connects);
      case Finish =>
        hide MayMovePath, Execute;
      case Catalog(connects, fails) => CatalogKeepsExactly(s, connects, fails);
    }
  }

  lemma SetKeepsExactly(s: Sys, connects: bool, fails: bool)
    requires Inv(s) && s.pc.MustSet?
    ensures Inv(Step(s, RunSet(connects, fails))) <==> Safe(s, RunSet(connects, fails))
  {
    var t := EnsureConn(s, connects);
    OneCommand(t.server, if fails then Fails else SetCommand(s.pc.schema));
    hide MayMovePath, Execute, Commands, Enabled;
  }

  lemma CatalogKeepsExactly(s: Sys, connects: bool, fails: bool)
    requires Inv(s)
    ensures Inv(Step(s, Catalog(connects, fails))) <==> Safe(s, Catalog(connects, fails))
  {
    var t := EnsureConn(s, connects);
    OneCommand(t.server, if fails then Fails else Query);
    hide MayMovePath, Execute, Commands, Enabled;
  }

  lemma SendKeepsExactly(s: Sys, connects: bool)
    requires Inv(s) && s.pc.Ready?
    ensures Inv(Step(s, Send(connects))) <==> Safe(s, Send(connects))
  {
    hide MayMovePath, Execute;
  }

  /** A batch spelled as SQL spells it, without `ABORT` or `SET SCHEMA`, is safe to send. */
  lemma OrdinaryIsSafe(s: Sys, connects: bool)
    requires Inv(s) && s.pc.Ready? && Ordinary(s.pc.batch)
    ensures Safe(s, Send(connects))
  {
    hide Ordinary, MayMovePath, Commands;
    var t := EnsureConn(s, connects);
    if t.connected && Execute(t.server, s.pc.batch.cmds).1 && !MayMovePath(s.pc.batch.sql) {
      UnmentionedStays(t.server, s.pc.batch);
    }
  }

  // ---------- runs ----------

  /** The states of a run, one more than its steps. */
  predicate IsRun(ss: seq<Sys>, es: seq<Event>) {
    && |ss| == |es| + 1
    && forall i :: 0 <= i < |es| ==> Enabled(ss[i], es[i]) && ss[i + 1] == Step(ss[i], es[i])
  }

  predicate AllInv(ss: seq<Sys>) {
    forall i :: 0 <= i < |ss| ==> Inv(ss[i])
  }

  predicate AllSafe(ss: seq<Sys>, es: seq<Event>)
    requires IsRun(ss, es)
  {
    forall i :: 0 <= i < |es| ==> Safe(ss[i], es[i])
  }

  lemma {:induction false} InvWhileSafe(ss: seq<Sys>, es: seq<Event>, k: nat)
    requires IsRun(ss, es) && k <= |es| && Inv(ss[0]) && forall i :: 0 <= i < k ==> Safe(ss[i], es[i])
    ensures Inv(ss[k])
    decreases k
  {
    hide Inv, Safe, Step;
    if k > 0 {
      InvWhileSafe(ss, es, k - 1);
      StepKeepsExactly(ss[k - 1], es[k - 1]);
    }
  }

  /** Over any run, the cache agrees in every state exactly when every step is safe. */
  lemma RunAgreesExactly(ss: seq<Sys>, es: seq<Event>)
    requires IsRun(ss, es) && Inv(ss[0])
    ensures AllInv(ss) <==> AllSafe(ss, es)
  {
    hide Inv, Safe, Step;
    if AllSafe(ss, es) {
      forall k | 0 <= k < |ss| ensures Inv(ss[k]) {
        InvWhileSafe(ss, es, k);
      }
    }
    if AllInv(ss) {
      forall i | 0 <= i < |es| ensures Safe(ss[i], es[i]) {
        assert Inv(ss[i]) && Inv(ss[i + 1]);
        StepKeepsExactly(ss[i], es[i]);
      }
    }
  }

  lemma StartsAgreeing()
    ensures Inv(INITIAL)
  {
  }

  // ---------- where the condition fails ----------

  /** Each of the four words starts with one of these bytes. */
  predicate StartsAWord(c: char) {
    c == 's' || c == 'r' || c == 'd'
  }

  lemma NoWordMentioned(sql: string)
    requires forall i :: 0 <= i < |sql| ==> !StartsAWord(LowerChar(sql[i]))
    ensures !MayMovePath(sql)
  {
    NotMentioned(sql, "search_path");
    NotMentioned(sql, "rollback");
    NotMentioned(sql, "discard");
    NotMentioned(sql, "reset");
  }

  lemma NotMentioned(sql: string, word: string)
    requires word != [] && StartsAWord(word[0])
    requires forall i :: 0 <= i < |sql| ==> !StartsAWord(LowerChar(sql[i]))
    ensures !Mentions(sql, word)
  {
    if Mentions(sql, word) {
      FirstOfFound(Lower(sql), word, FindText(Lower(sql), word, 0).value);
    }
  }

  lemma FirstOfFound(r: string, p: string, i: nat)
    requires p != [] && At(r, p, i)
    ensures r[i] == p[0]
  {
    assert r[i..i + |p|][0] == p[0];
  }

  const BEGIN := Batch("begin", [BeginTx])
  const COMMIT := Batch("commit", [Commit])
  const READ := Batch("table t", [Query])
  const ABORT := Batch("abort", [Abort])

  /** The steps of one call that sets the path first, and of one that need not. */
  function SetCall(schema: string, b: Batch): seq<Event> {
    [Start(schema, b), RunSet(true, false), StoreCache, Send(true), Finish]
  }

  function PlainCall(schema: string, b: Batch): seq<Event> {
    [Start(schema, b), Send(true), Finish]
  }

  function After(s: Sys, es: seq<Event>): Sys
    decreases |es|
  {
    if es == [] || !Enabled(s, es[0]) then s else After(Step(s, es[0]), es[1..])
  }

  lemma PlainCallRuns(s: Sys, b: Batch)
    requires s.connected && s.pc.Free? && s.cache != UNKNOWN && |b.cmds| == 1 && !MayMovePath(b.sql)
    requires Command(Exec(s.server, s.server.path, true), b.cmds[0]).ok
    ensures After(s, PlainCall(s.cache, b))
            == s.(server := Command(Exec(s.server, s.server.path, true), b.cmds[0]).server)
  {
    OneCommand(s.server, b.cmds[0]);
    hide MayMovePath, Command, Execute, After, PlainCall, Commands;
    assert b.cmds == [b.cmds[0]];
    PlainSteps(s, s.cache, b);
  }

  lemma SetCallRuns(s: Sys, schema: string, b: Batch, y: Exec)
    requires s.connected && s.pc.Free? && s.cache != schema && schema != UNKNOWN && |b.cmds| == 1
             && !MayMovePath(b.sql)
    requires y == Command(Exec(s.server, s.server.path, true), SetCommand(schema)) && y.ok
    requires Command(Exec(y.server, y.server.path, true), b.cmds[0]).ok
    ensures After(s, SetCall(schema, b))
         == s.(server := Command(Exec(y.server, y.server.path, true), b.cmds[0]).server, cache := schema)
  {
    OneCommand(s.server, SetCommand(schema));
    OneCommand(y.server, b.cmds[0]);
    hide MayMovePath, Command, Execute, After, SetCall, Commands;
    assert b.cmds == [b.cmds[0]];
    SetSteps(s, schema, b);
  }

  lemma PlainSteps(s: Sys, schema: string, b: Batch)
    requires s.pc.Free? && schema != UNKNOWN && s.cache == schema
    ensures After(s, PlainCall(schema, b)) == Step(Step(Step(s, Start(schema, b)), Send(true)), Finish)
  {
    hide Execute, MayMovePath;
    var es := PlainCall(schema, b);
    var s1 := Step(s, es[0]);
    var s2 := Step(s1, es[1]);
    assert es[1..] == [Send(true), Finish] && es[1..][1..] == [Finish] && [Finish][1..] == [];
    assert After(s2, [Finish]) == After(Step(s2, Finish), []);
  }

  lemma SetSteps(s: Sys, schema: string, b: Batch)
    requires s.pc.Free? && schema != UNKNOWN && s.cache != schema
    requires Step(Step(s, Start(schema, b)), RunSet(true, false)).pc.WasSet?
    ensures After(s, SetCall(schema, b))
         == Step(Step(Step(Step(Step(s, Start(schema, b)), RunSet(true, false)), StoreCache), Send(true)), Finish)
  {
    hide Execute, MayMovePath;
    var es := SetCall(schema, b);
    var s1 := Step(s, es[0]);
    var s2 := Step(s1, es[1]);
    var s3 := Step(s2, es[2]);
    var s4 := Step(s3, es[3]);
    assert es[1..] == [RunSet(true, false), StoreCache, Send(true), Finish];
    assert es[1..][1..] == [StoreCache, Send(true), Finish];
    assert es[1..][1..][1..] == [Send(true), Finish] && es[1..][1..][1..][1..] == [Finish] && [Finish][1..] == [];
    assert After(s4, [Finish]) == After(Step(s4, Finish), []);
    assert After(s3, [Send(true), Finish]) == After(s4, [Finish]);
    assert After(s2, [StoreCache, Send(true), Finish]) == After(s3, [Send(true), Finish]);
  }

  const OPEN_TX := Sys(true, Server("", InTx("")), "", Free)
  const MOVED_IN_TX := Sys(true, Server("s", InTx("")), "s", Free)
  const TAKEN_BACK := Sys(true, Server("", Aborted), "s", Free)
  const STALE := Sys(true, FRESH_SESSION, "s", Free)

  lemma OpenTheTx()
    ensures After(Sys(true, FRESH_SESSION, "", Free), PlainCall("", BEGIN)) == OPEN_TX
  {
    BeginIsUnmentioned();
    hide MayMovePath, After, PlainCall, Mentions, Commands, Execute, MOVED_IN_TX, TAKEN_BACK, STALE;
    PlainCallRuns(Sys(true, FRESH_SESSION, "", Free), BEGIN);
  }

  lemma ReadIsUnmentioned()
    ensures !MayMovePath("table t")
  {
    assert "table t" == ['t', 'a', 'b', 'l', 'e', ' ', 't'];
    hide MayMovePath;
    NoWordMentioned("table t");
  }

  lemma BeginIsUnmentioned()
    ensures !MayMovePath("begin")
  {
    assert "begin" == ['b', 'e', 'g', 'i', 'n'];
    hide MayMovePath;
    NoWordMentioned("begin");
  }

  lemma CommitIsUnmentioned()
    ensures !MayMovePath("commit")
  {
    assert "commit" == ['c', 'o', 'm', 'm', 'i', 't'];
    hide MayMovePath;
    NoWordMentioned("commit");
  }

  lemma MoveInTheTx()
    ensures After(OPEN_TX, SetCall("s", READ)) == MOVED_IN_TX
  {
    ReadIsUnmentioned();
    hide MayMovePath, After, SetCall, Mentions, Commands, Execute, TAKEN_BACK, STALE;
    assert "s"[0] != UNKNOWN[0] && |""| != |"s"|;
    var y := Exec(Server("s", InTx("")), "", true);
    assert "s" != "" && SetCommand("s") == SetPath("s");
    assert y == Command(Exec(OPEN_TX.server, "", true), SetPath("s"));
    assert Command(Exec(y.server, "s", true), Query).ok;
    SetCallRuns(OPEN_TX, "s", READ, y);
  }

  lemma EndTheTx()
    ensures After(TAKEN_BACK, PlainCall("s", COMMIT)) == STALE
  {
    CommitIsUnmentioned();
    hide MayMovePath, After, PlainCall, Mentions, Commands, Execute, OPEN_TX, MOVED_IN_TX;
    assert "s"[0] != UNKNOWN[0];
    PlainCallRuns(TAKEN_BACK, COMMIT);
  }

  /**
   The cache goes stale: a batch opens a transaction, the next one moves to schema "s" in it, another
   thread's catalog query fails, the transaction is ended, and then a batch for "s" is sent unset, on the default path.
   */
  lemma CatalogFailureInTxGoesStale()
    ensures After(Sys(true, FRESH_SESSION, "", Free), PlainCall("", BEGIN)) == OPEN_TX
    ensures After(OPEN_TX, SetCall("s", READ)) == MOVED_IN_TX && Inv(MOVED_IN_TX)
    ensures Step(MOVED_IN_TX, Catalog(true, true)) == TAKEN_BACK && !Inv(TAKEN_BACK)
    ensures After(TAKEN_BACK, PlainCall("s", COMMIT)) == STALE
    ensures Enabled(STALE, Start("s", READ)) && Step(STALE, Start("s", READ)) == STALE.(pc := Ready("s", READ))
  {
    OpenTheTx();
    MoveInTheTx();
    EndTheTx();
    hide MayMovePath, After, PlainCall, SetCall, Mentions, Commands;
    assert "s" != UNKNOWN && "" != "s";
    OneCommand(MOVED_IN_TX.server, Fails);
  }

  /** So it does when the client's own SET, for another schema, is what fails in that transaction. */
  lemma OwnSetFailureGoesStale()
    ensures Enabled(MOVED_IN_TX, Start("t", READ))
    ensures var s := Step(MOVED_IN_TX, Start("t", READ));
            Enabled(s, RunSet(true, true)) && Step(s, RunSet(true, true)) == TAKEN_BACK
    ensures After(TAKEN_BACK, PlainCall("s", COMMIT)) == STALE && !Inv(STALE)
  {
    EndTheTx();
    hide MayMovePath, After, PlainCall, SetCall, Mentions, Commands;
    assert "t"[0] != UNKNOWN[0] && "t"[0] != "s"[0] && "s"[0] != UNKNOWN[0];
    OneCommand(MOVED_IN_TX.server, Fails);
  }

  lemma AbortIsUnmentioned()
    ensures !MayMovePath("abort")
  {
    assert Lower("abort") == ['a', 'b', 'o', 'r', 't'];
    if Mentions("abort", "reset") {
      FirstOfFound(Lower("abort"), "reset", FindText(Lower("abort"), "reset", 0).value);
    }
  }

  /** And so it does when a batch ends that transaction by `ABORT`, which the client does not look for. */
  lemma AbortGoesStale()
    ensures After(MOVED_IN_TX, PlainCall("s", ABORT)) == STALE && !Inv(STALE)
  {
    AbortIsUnmentioned();
    hide MayMovePath, After, PlainCall, Mentions, Commands, Execute, OPEN_TX, TAKEN_BACK;
    assert "s"[0] != UNKNOWN[0] && |"s"| != |""|;
    PlainCallRuns(MOVED_IN_TX, ABORT);
  }

  // ---------- one call, nothing in between ----------

  /** A whole call when no other thread runs between its steps, and whether it succeeds. */
  function Call(s: Sys, schema: string, batch: Batch, connects: bool, setFails: bool): (Sys, bool)
    requires s.pc.Free? && schema != UNKNOWN
  {
    var a := Step(s, Start(schema, batch));
    var b := if a.pc.MustSet? then Step(a, RunSet(connects, setFails)) else a;
    var c := if b.pc.WasSet? then Step(b, StoreCache) else b;
    if c.pc.Free? then (c, false)
    else
      var d := Step(c, Send(connects));
      (Step(d, Finish), d.pc.ok)
  }

  /** Each of its steps is safe. */
  predicate SafeCall(s: Sys, schema: string, batch: Batch, connects: bool, setFails: bool)
    requires s.pc.Free? && schema != UNKNOWN
  {
    var a := Step(s, Start(schema, batch));
    var b := if a.pc.MustSet? then Step(a, RunSet(connects, setFails)) else a;
    var c := if b.pc.WasSet? then Step(b, StoreCache) else b;
    && (a.pc.MustSet? ==> Safe(a, RunSet(connects, setFails)))
    && (c.pc.Ready? ==> Safe(c, Send(connects)))
  }

  class PostgresDatabase {
    var connected: bool
    var server: Server // the session at the other end
    var searchPath: string

    constructor ()
      ensures State() == INITIAL
    {
      connected, server, searchPath := false, FRESH_SESSION, "";
    }

    function State(): Sys
      reads this
    {
      Sys(connected, server, searchPath, Free)
    }

    /** Connect if need be, and run: false when either fails. */
    method RunBatch(cmds: seq<Effect>, connects: bool) returns (ok: bool)
      modifies this
      ensures var t := EnsureConn(old(State()), connects);
              if !t.connected then !ok && State() == t
              else ok == Execute(t.server, cmds).1 && State() == t.(server := Execute(t.server, cmds).0)
    {
      if !connected {
        if !connects {
          return false;
        }
        connected := true;
        server := FRESH_SESSION;
        searchPath := "";
      }
      var after := Execute(server, cmds);
      server, ok := after.0, after.1;
    }

    method ExecuteIn(schema: string, batch: Batch, connects: bool, setFails: bool) returns (ok: bool)
      requires schema != UNKNOWN
      modifies this
      ensures (State(), ok) == Call(old(State()), schema, batch, connects, setFails)
      ensures Agrees(old(State())) ==>
              (Agrees(State()) <==> SafeCall(old(State()), schema, batch, connects, setFails))
    {
      hide MayMovePath, Execute, SafeCall;
      if Agrees(State()) {
        CallAgrees(State(), schema, batch, connects, setFails);
      }
      if schema != searchPath {
        var wasSet := RunBatch([if setFails then Fails else SetCommand(schema)], connects);
        if !wasSet {
          return false;
        }
        searchPath := schema;
      }
      ok := RunBatch(batch.cmds, connects);
      if !ok || MayMovePath(batch.sql) {
        searchPath := UNKNOWN;
      }
    }
  }

  lemma CallAgrees(s: Sys, schema: string, batch: Batch, connects: bool, setFails: bool)
    requires s.pc.Free? && schema != UNKNOWN && Agrees(s)
    ensures Agrees(Call(s, schema, batch, connects, setFails).0) <==> SafeCall(s, schema, batch, connects, setFails)
  {
    hide MayMovePath, Execute, Safe;
    var a := Step(s, Start(schema, batch));
    assert Inv(a);
    if a.pc.MustSet? {
      StepKeepsExactly(a, RunSet(connects, setFails));
    }
    var b := if a.pc.MustSet? then Step(a, RunSet(connects, setFails)) else a;
    if Inv(b) {
      var c := if b.pc.WasSet? then Step(b, StoreCache) else b;
      assert Inv(c);
      if c.pc.Ready? {
        StepKeepsExactly(c, Send(connects));
        FinishKeepsExactly(Step(c, Send(connects)));
      }
    } else {
      SetLoses(a, connects, setFails);
    }
  }

  lemma FinishKeepsExactly(s: Sys)
    requires s.pc.Sent? && (s.pc.ok ==> s.connected) && (!s.connected ==> Agrees(s))
    ensures Agrees(Step(s, Finish)) <==> Inv(s)
  {
    hide MayMovePath, Execute;
  }

  /** A path lost to the client's own SET ends the call. */
  lemma SetLoses(s: Sys, connects: bool, fails: bool)
    requires Inv(s) && s.pc.MustSet? && !Inv(Step(s, RunSet(connects, fails)))
    ensures Step(s, RunSet(connects, fails)).pc.Free? && !Agrees(Step(s, RunSet(connects, fails)))
  {
    OneCommand(EnsureConn(s, connects).server, if fails then Fails else SetCommand(s.pc.schema));
    hide MayMovePath, Execute;
  }
}
