/** Under which path a batch is sent: exactly when it is the one asked for, and when no batch is sent any more. */
module PgSends {
  import opened PgPath

  // ---------- when the cache is stale ----------

  /** A step that starts a new session. */
  predicate Connects(s: Sys, e: Event) {
    !s.connected && match e
                    case RunSet(connects, _) => connects
                    case Send(connects) => connects
                    case Catalog(connects, _) => connects
                    case _ => false
  }

  /** A failure that takes the path back to the one relied on. */
  predicate ComesBack(s: Sys, fails: bool) {
    TakesBack(s, fails) && Relied(s) && s.server.mode.saved == Trusted(s)
  }

  /** A batch that succeeds without a mention of the path, and leaves it where it was asked to run. */
  predicate Arrives(s: Sys, connects: bool)
    requires s.pc.Ready?
  {
    var t := EnsureConn(s, connects);
    var (after, ok) := Execute(t.server, s.pc.batch.cmds);
    t.connected && ok && !MayMovePath(s.pc.batch.sql) && after.path == s.pc.schema
  }

  /** A step after which the cache is true again, or unknown. */
  predicate Renews(s: Sys, e: Event)
    requires Enabled(s, e)
  {
    || Connects(s, e)
    || match e
       case RunSet(_, fails) => Step(s, e).pc.WasSet? || ComesBack(s, fails)
       case Catalog(_, fails) => ComesBack(s, fails)
       case Send(connects) => Arrives(s, connects)
       case Finish => !s.pc.ok || MayMovePath(s.pc.batch.sql)
       case _ => false
  }

  /** Before step `k`: a relied-on path was lost, and nothing has renewed the cache since. */
  ghost predicate StaleAt(ss: seq<Sys>, es: seq<Event>, k: nat)
    requires IsRun(ss, es) && k <= |es|
  {
    exists j :: 0 <= j < k && LostAt(ss, es, j, k)
  }

  predicate LostAt(ss: seq<Sys>, es: seq<Event>, j: nat, k: nat)
    requires IsRun(ss, es) && j < k <= |es|
  {
    !Safe(ss[j], es[j]) && forall i :: j < i < k ==> !Renews(ss[i], es[i])
  }

  lemma StaleStep(ss: seq<Sys>, es: seq<Event>, k: nat)
    requires IsRun(ss, es) && k < |es|
    ensures StaleAt(ss, es, k + 1) <==> !Safe(ss[k], es[k]) || (StaleAt(ss, es, k) && !Renews(ss[k], es[k]))
  {
    hide Safe, Renews, Step;
    if !Safe(ss[k], es[k]) {
      assert LostAt(ss, es, k, k + 1);
    } else if StaleAt(ss, es, k) && !Renews(ss[k], es[k]) {
      var j :| 0 <= j < k && LostAt(ss, es, j, k);
      assert LostAt(ss, es, j, k + 1);
    }
    if StaleAt(ss, es, k + 1) && Safe(ss[k], es[k]) {
      var j :| 0 <= j < k + 1 && LostAt(ss, es, j, k + 1);
      assert LostAt(ss, es, j, k);
    }
  }

  // ---------- what is known of a stale cache ----------

  predicate Broken(s: Sys) {
    && s.connected
    && match s.pc
       case Free => s.cache != UNKNOWN && s.cache != s.server.path
       case MustSet(schema, _) => s.cache != UNKNOWN && s.cache != s.server.path && schema != UNKNOWN
       case WasSet(schema, _) => schema != s.server.path && schema != UNKNOWN
       case Ready(schema, _) => s.cache == schema != s.server.path && schema != UNKNOWN
       case Sent(batch, ok) => ok && !MayMovePath(batch.sql) ==> s.cache != UNKNOWN && s.cache != s.server.path
  }

  /** The cache agrees, or is known to be wrong. */
  predicate Known(s: Sys, stale: bool) {
    if stale then Broken(s) else Inv(s)
  }

  lemma KnownStep(s: Sys, e: Event, stale: bool)
    requires Known(s, stale) && Enabled(s, e)
    ensures Known(Step(s, e), !Safe(s, e) || (stale && !Renews(s, e)))
  {
    if stale {
      BrokenStep(s, e);
    } else {
      StepKeepsExactly(s, e);
      if !Safe(s, e) {
        LosingStep(s, e);
      }
    }
  }

  lemma LosingStep(s: Sys, e: Event)
    requires Inv(s) && Enabled(s, e) && !Safe(s, e)
    ensures Broken(Step(s, e))
  {
    OneCommand(s.server, Fails);
    hide MayMovePath, Execute;
  }

  lemma BrokenStep(s: Sys, e: Event)
    requires Broken(s) && Enabled(s, e)
    ensures Known(Step(s, e), !Safe(s, e) || !Renews(s, e))
  {
    match e {
      case Start(_, _) =>
        hide MayMovePath, Execute;
      case RunSet(connects, fails) => BrokenSet(s, connects, fails);
      case StoreCache =>
        hide MayMovePath, Execute;
      case Send(connects) =>
        hide MayMovePath, Execute;
      case Finish =>
        hide MayMovePath, Execute;
      case Catalog(connects, fails) => BrokenCatalog(s, connects, fails);
    }
  }

  lemma BrokenSet(s: Sys, connects: bool, fails: bool)
    requires Broken(s) && s.pc.MustSet?
    ensures var e := RunSet(connects, fails); Known(Step(s, e), !Safe(s, e) || !Renews(s, e))
  {
    OneCommand(s.server, if fails then Fails else SetCommand(s.pc.schema));
    hide MayMovePath, Execute;
  }

  lemma BrokenCatalog(s: Sys, connects: bool, fails: bool)
    requires Broken(s)
    ensures var e := Catalog(connects, fails); Known(Step(s, e), !Safe(s, e) || !Renews(s, e))
  {
    OneCommand(s.server, if fails then Fails else Query);
    hide MayMovePath, Execute;
  }

  // ---------- over runs ----------

  lemma {:induction false} KnownAt(ss: seq<Sys>, es: seq<Event>, k: nat)
    requires IsRun(ss, es) && ss[0] == INITIAL && k <= |es|
    ensures Known(ss[k], StaleAt(ss, es, k))
  {
    hide Inv, Broken, Step, Enabled, Safe, Renews;
    if k == 0 {
      StartsAgreeing();
    } else {
      KnownAt(ss, es, k - 1);
      KnownStep(ss[k - 1], es[k - 1], StaleAt(ss, es, k - 1));
      StaleStep(ss, es, k - 1);
    }
  }

  /**
   A batch is sent under the schema asked for exactly when no relied-on path has been lost since the cache was last
   renewed.
   */
  lemma BatchesRunUnderTheirSchema(ss: seq<Sys>, es: seq<Event>, k: nat)
    requires IsRun(ss, es) && ss[0] == INITIAL && k < |es| && es[k].Send? && (ss[k].connected || es[k].connects)
    ensures ss[k].pc.Ready?
    ensures EnsureConn(ss[k], es[k].connects).server.path == ss[k].pc.schema <==> !StaleAt(ss, es, k)
  {
    KnownAt(ss, es, k);
    assert Enabled(ss[k], es[k]);
    hide StaleAt;
  }

  /** A caller's guard: only user batches fail while a transaction is open, and they are ordinary. */
  predicate Guarded(s: Sys, e: Event) {
    && ((e.RunSet? || e.Catalog?) && e.fails ==> !(s.connected && s.server.mode.InTx?))
    && (e.Send? && s.pc.Ready? ==> Ordinary(s.pc.batch))
  }

  lemma GuardIsSafe(s: Sys, e: Event)
    requires Inv(s) && Enabled(s, e)
    ensures Guarded(s, e) ==> Safe(s, e)
  {
    if e.Send? && Guarded(s, e) {
      OrdinaryIsSafe(s, e.connects);
    }
    hide Ordinary, MayMovePath, Execute, Strays;
  }

  // ---------- no way on after a failure in a transaction ----------

  /** The transaction is aborted and the path unknown, or about to be. */
  predicate Stuck(s: Sys) {
    && s.connected && s.server.mode.Aborted?
    && match s.pc
       case Free => s.cache == UNKNOWN
       case MustSet(_, _) => s.cache == UNKNOWN
       case Sent(_, ok) => !ok
       case _ => false
  }

  lemma StuckStep(s: Sys, e: Event)
    requires Stuck(s) && Enabled(s, e)
    ensures Stuck(Step(s, e)) && !e.Send?
  {
    hide MayMovePath, Execute;
    if e.RunSet? {
      OneCommand(s.server, if e.fails then Fails else SetCommand(s.pc.schema));
    } else if e.Catalog? {
      OneCommand(s.server, if e.fails then Fails else Query);
    }
  }

  /**
   Once a batch has failed in an open transaction, no later call sends its batch, not even one that would end the
   transaction.
   */
  lemma {:induction false} NothingIsSentAgain(ss: seq<Sys>, es: seq<Event>, k: nat)
    requires IsRun(ss, es) && Stuck(ss[0]) && k <= |es|
    ensures Stuck(ss[k]) && (k < |es| ==> !es[k].Send?)
    decreases k
  {
    hide Step, Stuck;
    if k > 0 {
      NothingIsSentAgain(ss, es, k - 1);
      StuckStep(ss[k - 1], es[k - 1]);
    }
    if k < |es| {
      StuckStep(ss[k], es[k]);
    }
  }

  /** A batch whose failure leaves the transaction aborted gets there. */
  lemma FailureInTxIsStuck(s: Sys, connects: bool)
    requires s.pc.Ready? && (s.connected || connects)
    requires var x := Execute(EnsureConn(s, connects).server, s.pc.batch.cmds); x.0.mode.Aborted? && !x.1
    ensures Stuck(Step(s, Send(connects)))
  {
    hide Execute;
  }
}
