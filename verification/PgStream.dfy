/** Reading a PostgreSQL result stream, in chunks when the rows are limited, with an early stop. */
module PgStream {
  import opened StoppableReads

  const NULL_SENTINEL := "dearsql__null"
  const BOOL_TRUE_SENTINEL := "dearsql__bool_true"
  const BOOL_FALSE_SENTINEL := "dearsql__bool_false"

  datatype Cell = Cell(isNull: bool, isBool: bool, text: string)

  datatype Status = TuplesChunk | TuplesOk | CommandOk | Failed

  /** One result as the driver hands it out; `affected` is empty when the command reports no count. */
  datatype PgResult = PgResult(status: Status, columns: seq<string>, rows: seq<seq<Cell>>, affected: string,
      error: string)

  datatype Note = Plain | Limited(limit: int) | NotFetched(limit: int)

  datatype Message = NoMessage | Returned(count: nat, note: Note) | Affected(text: string) | Executed

  datatype StatementResult = StatementResult(
    success: bool, error: string, columns: seq<string>, table: seq<seq<string>>, affected: string, message: Message)

  const FRESH := StatementResult(true, "", [], [], "", NoMessage)

  // ---------- one result ----------

  function CellText(c: Cell): string {
    if c.isNull then NULL_SENTINEL
    else if c.isBool then (if c.text != "" && c.text[0] == 't' then BOOL_TRUE_SENTINEL else BOOL_FALSE_SENTINEL)
    else c.text
  }

  function RowText(row: seq<Cell>): seq<string> {
    seq(|row|, i requires 0 <= i < |row| => CellText(row[i]))
  }

  function RowsText(rows: seq<seq<Cell>>): seq<seq<string>> {
    seq(|rows|, i requires 0 <= i < |rows| => RowText(rows[i]))
  }

  /** The first `limit` rows, all of them when there is no limit. */
  function Keep<T>(rows: seq<T>, limit: int): seq<T> {
    if 0 < limit < |rows| then rows[..limit] else rows
  }

  /** How many of `n` more rows fit, when there are `have`. */
  function Fitting(n: nat, have: nat, limit: int): (k: nat)
    ensures k <= n
  {
    if limit <= 0 then n
    else
      var left := if limit - have > 0 then limit - have else 0;
      if n < left then n else left
  }

  function AppendRows(res: PgResult, result: StatementResult, limit: int): StatementResult {
    result.(columns := if result.columns == [] then res.columns else result.columns,
            table := result.table + RowsText(res.rows[..Fitting(|res.rows|, |result.table|, limit)]))
  }

  function RowsMessage(result: StatementResult, total: nat, limit: int, stopped: bool): StatementResult {
    result.(message := Returned(|result.table|,
      if stopped then NotFetched(limit) else if 0 < limit < total then Limited(limit) else Plain))
  }

  /** The simple form: one whole result. */
  function Extract(res: PgResult, limit: int): StatementResult {
    if res.status.TuplesOk? then RowsMessage(AppendRows(res, FRESH, limit), |res.rows|, limit, false)
    else if res.status.CommandOk? then
      FRESH.(affected := res.affected, message := if res.affected != "" then Affected(res.affected) else Executed)
    else FRESH.(success := false, error := res.error)
  }

  method AppendPgRows(res: PgResult, result: StatementResult, rowLimit: int) returns (r: StatementResult)
    ensures r == AppendRows(res, result, rowLimit)
  {
    r := result;
    if r.columns == [] {
      r := r.(columns := res.columns);
    }
    var have := |r.table|;
    var limit := Fitting(|res.rows|, have, rowLimit);
    ghost var before := r;
    for row := 0 to limit
      invariant r == before.(table := before.table + RowsText(res.rows[..row]))
    {
      RowsTextSnoc(res.rows, row);
      r := r.(table := r.table + [RowText(res.rows[row])]);
    }
  }

  lemma RowsTextSnoc(rows: seq<seq<Cell>>, n: nat)
    requires n < |rows|
    ensures RowsText(rows[..n + 1]) == RowsText(rows[..n]) + [RowText(rows[n])]
    ensures RowsText(rows[..0]) == []
  {
  }

  // ---------- the stream loop ----------

  /** The loop's variables: a row set not yet at its end, the rows seen of it, and what is done. */
  datatype State = State(rows: StatementResult, streaming: bool, seen: nat, stopped: bool, done: seq<StatementResult>)

  const BEGIN := State(FRESH, false, 0, false, [])

  function Step(st: State, res: PgResult, limit: int, stoppable: bool): State {
    if res.status.TuplesChunk? || (st.streaming && res.status.TuplesOk?) then
      var rows, seen := AppendRows(res, st.rows, limit), st.seen + |res.rows|;
      if res.status.TuplesChunk? then State(rows, true, seen, st.stopped || (stoppable && seen > limit), st.done)
      else State(FRESH, false, 0, st.stopped, st.done + [RowsMessage(rows, seen, limit, false)])
    else if st.streaming then
      State(FRESH, false, 0, st.stopped,
            st.done + [if st.stopped then RowsMessage(st.rows, st.seen, limit, true) else Extract(res, limit)])
    else
      var r := Extract(res, limit);
      st.(done := if r.success || r.error != "" then st.done + [r] else st.done)
  }

  function RunAll(st: State, stream: seq<PgResult>, limit: int, stoppable: bool): State
    decreases |stream|
  {
    if stream == [] then st else RunAll(Step(st, stream[0], limit, stoppable), stream[1..], limit, stoppable)
  }

  lemma {:induction false} RunJoin(st: State, a: seq<PgResult>, b: seq<PgResult>, limit: int, stoppable: bool)
    ensures RunAll(st, a + b, limit, stoppable) == RunAll(RunAll(st, a, limit, stoppable), b, limit, stoppable)
    decreases |a|
  {
    hide Step;
    if a == [] {
      assert a + b == b;
    } else {
      assert (a + b)[1..] == a[1..] + b;
      RunJoin(Step(st, a[0], limit, stoppable), a[1..], b, limit, stoppable);
    }
  }

  /**
   A batch on an open connection: `stream` is what the driver hands out, whatever a cancel made of it. The rows
   of a limited read may be stopped early, when the session is idle and the batch is one plain read.
   */
  method Run(sql: string, rowLimit: int, idle: bool, stream: seq<PgResult>)
    returns (statements: seq<StatementResult>, cancels: nat)
    ensures statements == RunAll(BEGIN, stream, rowLimit, rowLimit > 0 && idle && Stoppable(sql)).done
    ensures cancels == if RunAll(BEGIN, stream, rowLimit, rowLimit > 0 && idle && Stoppable(sql)).stopped then 1 else 0
  {
    var stoppable := false;
    if rowLimit > 0 && idle {
      stoppable := StoppableRead(sql);
    }
    hide Stoppable, AppendRows, RowsMessage, Extract;
    var rows, streaming, stopped := FRESH, false, false;
    var seen: nat := 0;
    statements, cancels := [], 0;
    assert stream[0..] == stream;
    for i := 0 to |stream|
      invariant RunAll(BEGIN, stream, rowLimit, stoppable)
             == RunAll(State(rows, streaming, seen, stopped, statements), stream[i..], rowLimit, stoppable)
      invariant cancels == if stopped then 1 else 0
    {
      var res := stream[i];
      assert stream[i..][1..] == stream[i + 1..];
      if res.status.TuplesChunk? || (streaming && res.status.TuplesOk?) {
        rows := AppendPgRows(res, rows, rowLimit);
        seen := seen + |res.rows|;
        streaming := res.status.TuplesChunk?;
        if streaming && stoppable && !stopped && seen > rowLimit {
          cancels := cancels + 1;
          stopped := true;
        }
        if !streaming {
          statements := statements + [RowsMessage(rows, seen, rowLimit, false)];
          rows, seen := FRESH, 0;
        }
      } else if streaming {
        streaming := false;
        if stopped {
          statements := statements + [RowsMessage(rows, seen, rowLimit, true)];
        } else {
          statements := statements + [Extract(res, rowLimit)];
        }
        rows, seen := FRESH, 0;
      } else {
        var r := Extract(res, rowLimit);
        if r.success || r.error != "" {
          statements := statements + [r];
        }
      }
    }
  }

  // ---------- streaming refines the simple form ----------

  function Flatten<T>(cs: seq<seq<T>>): seq<T> {
    if cs == [] then [] else cs[0] + Flatten(cs[1..])
  }

  /** A whole result of the batch, and the chunks of rows the driver hands out before its last part. */
  datatype Delivery = Delivery(whole: PgResult, chunks: seq<seq<seq<Cell>>>, last: seq<seq<Cell>>)

  /** Only row sets come in chunks, and their parts are the whole; a failure may cut a row set off. */
  predicate ValidDelivery(d: Delivery) {
    match d.whole.status
    case TuplesChunk => false
    case TuplesOk => d.whole.rows == Flatten(d.chunks) + d.last
    case CommandOk => d.chunks == [] && d.last == d.whole.rows
    case Failed => d.last == d.whole.rows
  }

  function ChunkResults(columns: seq<string>, chunks: seq<seq<seq<Cell>>>): (r: seq<PgResult>)
    ensures |r| == |chunks|
  {
    seq(|chunks|, i requires 0 <= i < |chunks| => PgResult(TuplesChunk, columns, chunks[i], "", ""))
  }

  function StreamOf(d: Delivery): seq<PgResult> {
    ChunkResults(d.whole.columns, d.chunks) + [d.whole.(rows := d.last)]
  }

  function StreamOfAll(ds: seq<Delivery>): seq<PgResult> {
    if ds == [] then [] else StreamOf(ds[0]) + StreamOfAll(ds[1..])
  }

  /** What the simple form gives for one result; a failure without text is dropped, unless it cut a row set off. */
  function Simple(d: Delivery, limit: int): seq<StatementResult> {
    if d.whole.status.Failed? && d.whole.error == "" && d.chunks == [] then [] else [Extract(d.whole, limit)]
  }

  function SimpleAll(ds: seq<Delivery>, limit: int): seq<StatementResult> {
    if ds == [] then [] else Simple(ds[0], limit) + SimpleAll(ds[1..], limit)
  }

  /** The row set under way: the first rows, up to the limit, of those seen. */
  function Streamed(columns: seq<string>, seen: seq<seq<Cell>>, limit: int): StatementResult {
    FRESH.(columns := columns, table := RowsText(Keep(seen, limit)))
  }

  lemma KeepMore(acc: seq<seq<Cell>>, next: seq<seq<Cell>>, limit: int)
    ensures RowsText(Keep(acc, limit)) + RowsText(next[..Fitting(|next|, |Keep(acc, limit)|, limit)])
            == RowsText(Keep(acc + next, limit))
  {
    var k := Fitting(|next|, |Keep(acc, limit)|, limit);
    assert Keep(acc, limit) + next[..k] == Keep(acc + next, limit);
    RowsTextJoin(Keep(acc, limit), next[..k]);
  }

  lemma RowsTextJoin(a: seq<seq<Cell>>, b: seq<seq<Cell>>)
    ensures RowsText(a + b) == RowsText(a) + RowsText(b)
  {
  }

  lemma AppendStreamed(res: PgResult, columns: seq<string>, acc: seq<seq<Cell>>, limit: int)
    requires columns == [] || columns == res.columns
    ensures AppendRows(res, Streamed(columns, acc, limit), limit) == Streamed(res.columns, acc + res.rows, limit)
  {
    KeepMore(acc, res.rows, limit);
    hide Keep, Fitting, RowsText;
    RowsTextLength(Keep(acc, limit));
  }

  lemma RowsTextLength(rows: seq<seq<Cell>>)
    ensures |RowsText(rows)| == |rows|
  {
  }

  function Under(columns: seq<string>, acc: seq<seq<Cell>>, streaming: bool, stopped: bool,
      done: seq<StatementResult>, limit: int): State {
    State(Streamed(columns, acc, limit), streaming, |acc|, stopped, done)
  }

  /** After its chunks, the loop holds their rows up to the limit, and has stopped when they exceed it. */
  lemma {:induction false} AfterChunks(
    have: seq<string>, columns: seq<string>, acc: seq<seq<Cell>>, chunks: seq<seq<seq<Cell>>>,
    streaming: bool, stopped: bool, done: seq<StatementResult>, limit: int, stoppable: bool)
    requires have == [] || have == columns
    requires chunks != []
    ensures var all := acc + Flatten(chunks);
            RunAll(Under(have, acc, streaming, stopped, done, limit), ChunkResults(columns, chunks), limit, stoppable)
            == Under(columns, all, true, stopped || (stoppable && |all| > limit), done, limit)
    decreases |chunks|
  {
    var res := PgResult(TuplesChunk, columns, chunks[0], "", "");
    var st := Under(have, acc, streaming, stopped, done, limit);
    var results := ChunkResults(columns, chunks);
    AppendStreamed(res, have, acc, limit);
    hide Streamed, AppendRows;
    var next := Under(columns, acc + chunks[0], true, stopped || (stoppable && |acc + chunks[0]| > limit), done, limit);
    assert Step(st, res, limit, stoppable) == next;
    assert results[0] == res && results[1..] == ChunkResults(columns, chunks[1..]);
    FlattenCons(acc, chunks);
    if |chunks| > 1 {
      AfterChunks(columns, columns, acc + chunks[0], chunks[1..], true, next.stopped, done, limit, stoppable);
    } else {
      assert results[1..] == [];
    }
  }

  lemma FlattenCons(acc: seq<seq<Cell>>, chunks: seq<seq<seq<Cell>>>)
    requires chunks != []
    ensures acc + Flatten(chunks) == (acc + chunks[0]) + Flatten(chunks[1..])
  {
  }

  /** The loop between two results, nothing under way. */
  function Idle(stopped: bool, done: seq<StatementResult>, limit: int): State {
    State(FRESH, false, 0, stopped, done)
  }

  lemma FreshIsStreamed(limit: int)
    ensures FRESH == Streamed([], [], limit)
  {
    assert Keep<seq<Cell>>([], limit) == [];
  }

  /** One result, however chunked, and no early stop: the loop adds what the simple form gives. */
  lemma OneDelivery(d: Delivery, done: seq<StatementResult>, limit: int)
    requires ValidDelivery(d)
    ensures RunAll(Idle(false, done, limit), StreamOf(d), limit, false) == Idle(false, done + Simple(d, limit), limit)
  {
    FreshIsStreamed(limit);
    var last := d.whole.(rows := d.last);
    var st := Idle(false, done, limit);
    RunJoin(st, ChunkResults(d.whole.columns, d.chunks), [last], limit, false);
    if d.chunks == [] {
      assert ChunkResults(d.whole.columns, d.chunks) == [];
      assert Flatten(d.chunks) + d.last == d.last;
      OneStep(st, last, limit, false);
    } else {
      AfterChunks([], d.whole.columns, [], d.chunks, false, false, done, limit, false);
      assert [] + Flatten(d.chunks) == Flatten(d.chunks);
      LastPart(d, done, limit);
    }
  }

  lemma OneStep(st: State, res: PgResult, limit: int, stoppable: bool)
    ensures RunAll(st, [res], limit, stoppable) == Step(st, res, limit, stoppable)
  {
    assert [res][1..] == [];
  }

  lemma LastPart(d: Delivery, done: seq<StatementResult>, limit: int)
    requires ValidDelivery(d) && d.chunks != []
    ensures RunAll(Under(d.whole.columns, Flatten(d.chunks), true, false, done, limit), [d.whole.(rows := d.last)],
            limit, false)
         == Idle(false, done + Simple(d, limit), limit)
  {
    var last := d.whole.(rows := d.last);
    FreshIsStreamed(limit);
    OneStep(Under(d.whole.columns, Flatten(d.chunks), true, false, done, limit), last, limit, false);
    AppendStreamed(last, d.whole.columns, Flatten(d.chunks), limit);
    AppendStreamed(d.whole, [], [], limit);
    assert [] + d.whole.rows == d.whole.rows;
    hide Streamed, AppendRows, Flatten;
  }

  /**
   For any batch and any way of chunking its row sets, the streaming loop gives the statements
   of the simple form on whole results, when nothing is stopped early.
   */
  lemma {:induction false} StreamingRefinesSimple(ds: seq<Delivery>, done: seq<StatementResult>, limit: int)
    requires forall i :: 0 <= i < |ds| ==> ValidDelivery(ds[i])
    ensures RunAll(Idle(false, done, limit), StreamOfAll(ds), limit, false)
            == Idle(false, done + SimpleAll(ds, limit), limit)
    decreases |ds|
  {
    hide Simple, StreamOf, ValidDelivery;
    if ds != [] {
      RunJoin(Idle(false, done, limit), StreamOf(ds[0]), StreamOfAll(ds[1..]), limit, false);
      OneDelivery(ds[0], done, limit);
      StreamingRefinesSimple(ds[1..], done + Simple(ds[0], limit), limit);
      assert done + Simple(ds[0], limit) + SimpleAll(ds[1..], limit)
        == done + (Simple(ds[0], limit) + SimpleAll(ds[1..], limit));
    }
  }

  /** Being allowed to stop changes nothing until a stop happens. */
  lemma {:induction false} UnstoppedIsUnstoppable(st: State, stream: seq<PgResult>, limit: int)
    requires !RunAll(st, stream, limit, true).stopped
    ensures !st.stopped
    ensures RunAll(st, stream, limit, true) == RunAll(st, stream, limit, false)
    decreases |stream|
  {
    hide AppendRows, RowsMessage, Extract;
    if stream != [] {
      UnstoppedIsUnstoppable(Step(st, stream[0], limit, true), stream[1..], limit);
    }
  }

  /** When the batch runs to its end unstopped, `Run` gives the simple form's statements. */
  lemma RunIsSimple(ds: seq<Delivery>, limit: int, stoppable: bool)
    requires forall i :: 0 <= i < |ds| ==> ValidDelivery(ds[i])
    requires !RunAll(BEGIN, StreamOfAll(ds), limit, stoppable).stopped
    ensures RunAll(BEGIN, StreamOfAll(ds), limit, stoppable).done == SimpleAll(ds, limit)
  {
    hide ValidDelivery, StreamOfAll, RunAll, SimpleAll;
    StreamingRefinesSimple(ds, [], limit);
    if stoppable {
      UnstoppedIsUnstoppable(BEGIN, StreamOfAll(ds), limit);
    }
    assert [] + SimpleAll(ds, limit) == SimpleAll(ds, limit);
  }

  // ---------- the early stop ----------

  /**
   A stoppable read whose stream ends in an error: past the limit the error is the loop's own
   cancel, and the one statement holds the first rows, as many as the limit; else it is the user's.
   */
  lemma EarlyStopKeepsTheLimit(columns: seq<string>, chunks: seq<seq<seq<Cell>>>, error: PgResult, limit: int)
    requires limit > 0 && error.status.Failed? && chunks != []
    ensures var rows := Flatten(chunks);
            var end := RunAll(BEGIN, ChunkResults(columns, chunks) + [error], limit, true);
            if |rows| > limit then
              end.stopped && end.done
                == [StatementResult(true, "", columns, RowsText(rows[..limit]), "", Returned(limit, NotFetched(limit)))]
            else !end.stopped && end.done == [Extract(error, limit)]
  {
    var rows := Flatten(chunks);
    FreshIsStreamed(limit);
    RunJoin(BEGIN, ChunkResults(columns, chunks), [error], limit, true);
    AfterChunks([], columns, [], chunks, false, false, [], limit, true);
    assert [] + rows == rows;
    OneStep(Under(columns, rows, true, |rows| > limit, [], limit), error, limit, true);
    hide Flatten;
  }

  /** A stoppable read whose cancel came too late ends as if it had not been sent. */
  lemma LateCancelChangesNothing(columns: seq<string>, chunks: seq<seq<seq<Cell>>>, last: PgResult, limit: int)
    requires limit > 0 && last.status.TuplesOk? && last.columns == columns && chunks != []
    ensures RunAll(BEGIN, ChunkResults(columns, chunks) + [last], limit, true).done
         == [Extract(last.(rows := Flatten(chunks) + last.rows), limit)]
  {
    var rows, whole := Flatten(chunks), last.(rows := Flatten(chunks) + last.rows);
    FreshIsStreamed(limit);
    RunJoin(BEGIN, ChunkResults(columns, chunks), [last], limit, true);
    AfterChunks([], columns, [], chunks, false, false, [], limit, true);
    assert [] + rows == rows && [] + whole.rows == whole.rows;
    OneStep(Under(columns, rows, true, |rows| > limit, [], limit), last, limit, true);
    AppendStreamed(last, columns, rows, limit);
    AppendStreamed(whole, [], [], limit);
    hide Flatten, Streamed, AppendRows;
  }
}
