/** What a batch's statements say of what the driver handed out, cell by cell. */
module PgAnswers {
  import opened PgStream

  /** A cell as the client shows it: a null or a boolean as its sentinel, anything else as its text. */
  predicate ShowsCell(shown: string, c: Cell) {
    && (c.isNull ==> shown == NULL_SENTINEL)
    && (!c.isNull && c.isBool && "t" <= c.text ==> shown == BOOL_TRUE_SENTINEL)
    && (!c.isNull && c.isBool && !("t" <= c.text) ==> shown == BOOL_FALSE_SENTINEL)
    && (!c.isNull && !c.isBool ==> shown == c.text)
  }

  predicate ShowsRow(shown: seq<string>, row: seq<Cell>) {
    |shown| == |row| && forall i :: 0 <= i < |row| ==> ShowsCell(shown[i], row[i])
  }

  /** The first `n` of the rows and no others. */
  predicate ShowsRows(shown: seq<seq<string>>, rows: seq<seq<Cell>>, n: nat) {
    && |shown| == n <= |rows|
    && forall i :: 0 <= i < n ==> ShowsRow(shown[i], rows[i])
  }

  /** How many rows of a row set of `n` are shown under a limit; none, or one below 1, shows all. */
  function Within(n: nat, limit: int): nat {
    if 0 < limit < n then limit else n
  }

  /** The statement says what the driver said. */
  predicate Answers(st: StatementResult, res: PgResult, limit: int) {
    && (st.success <==> !res.status.Failed?)
    && (res.status.Failed? ==> st.error == res.error && st.columns == [] && st.table == [] && st.affected == "")
    && (!res.status.Failed? ==> st.error == "")
    && (res.status.CommandOk? ==>
          && st.affected == res.affected && st.columns == [] && st.table == []
          && (res.affected != "" ==> st.message == Affected(res.affected))
          && (res.affected == "" ==> st.message == Executed))
    && (res.status.TuplesOk? ==>
          && st.columns == res.columns && st.affected == ""
          && ShowsRows(st.table, res.rows, Within(|res.rows|, limit))
          && (0 < limit < |res.rows| ==> st.message == Returned(limit, Limited(limit)))
          && (!(0 < limit < |res.rows|) ==> st.message == Returned(|res.rows|, Plain)))
  }

  /** Every delivery has a statement but a failure that has no text and cut nothing off. */
  predicate Answered(d: Delivery) {
    !(d.whole.status.Failed? && d.whole.error == "" && d.chunks == [])
  }

  function AnsweredOf(ds: seq<Delivery>): seq<Delivery> {
    if ds == [] then [] else (if Answered(ds[0]) then [ds[0]] else []) + AnsweredOf(ds[1..])
  }

  predicate AllAnswer(sts: seq<StatementResult>, ds: seq<Delivery>, limit: int) {
    |sts| == |ds| && forall i :: 0 <= i < |ds| ==> Answers(sts[i], ds[i].whole, limit)
  }

  lemma RowShown(row: seq<Cell>)
    ensures ShowsRow(RowText(row), row)
  {
    forall i | 0 <= i < |row| ensures ShowsCell(RowText(row)[i], row[i]) {
      assert row[i].text != "" && row[i].text[0] == 't' <==> "t" <= row[i].text;
    }
  }

  lemma RowsShown(rows: seq<seq<Cell>>, n: nat)
    requires n <= |rows|
    ensures ShowsRows(RowsText(rows[..n]), rows, n)
  {
    hide ShowsRow, RowText;
    forall i | 0 <= i < n ensures ShowsRow(RowsText(rows[..n])[i], rows[i]) {
      RowShown(rows[i]);
    }
  }

  lemma ExtractAnswers(res: PgResult, limit: int)
    requires !res.status.TuplesChunk?
    ensures Answers(Extract(res, limit), res, limit)
  {
    var n := Fitting(|res.rows|, 0, limit);
    RowsShown(res.rows, n);
    hide ShowsRows;
    assert [] + RowsText(res.rows[..n]) == RowsText(res.rows[..n]);
  }

  lemma {:induction false} SimpleAnswers(ds: seq<Delivery>, limit: int)
    requires forall i :: 0 <= i < |ds| ==> ValidDelivery(ds[i])
    ensures AllAnswer(SimpleAll(ds, limit), AnsweredOf(ds), limit)
    decreases |ds|
  {
    hide Answers, Extract;
    if ds != [] {
      ExtractAnswers(ds[0].whole, limit);
      SimpleAnswers(ds[1..], limit);
    }
  }

  /** For any batch in any chunking, the statements answer the driver's results one for one, when nothing is stopped. */
  lemma StatementsAnswer(ds: seq<Delivery>, limit: int, stoppable: bool)
    requires forall i :: 0 <= i < |ds| ==> ValidDelivery(ds[i])
    requires !RunAll(BEGIN, StreamOfAll(ds), limit, stoppable).stopped
    ensures AllAnswer(RunAll(BEGIN, StreamOfAll(ds), limit, stoppable).done, AnsweredOf(ds), limit)
  {
    hide ValidDelivery, StreamOfAll, RunAll, SimpleAll, AnsweredOf, AllAnswer;
    RunIsSimple(ds, limit, stoppable);
    SimpleAnswers(ds, limit);
  }

  /** A read that was stopped shows the first `limit` of the rows that came, and says that the rest was not fetched. */
  predicate AnswersStopped(st: StatementResult, columns: seq<string>, rows: seq<seq<Cell>>, limit: nat) {
    && st.success && st.error == "" && st.columns == columns && st.affected == ""
    && ShowsRows(st.table, rows, limit)
    && st.message == Returned(limit, NotFetched(limit))
  }

  lemma StoppedAnswers(columns: seq<string>, chunks: seq<seq<seq<Cell>>>, error: PgResult, limit: nat)
    requires limit > 0 && error.status.Failed? && chunks != []
    ensures var end := RunAll(BEGIN, ChunkResults(columns, chunks) + [error], limit, true);
            && |end.done| == 1
            && (end.stopped <==> |Flatten(chunks)| > limit)
            && (end.stopped ==> AnswersStopped(end.done[0], columns, Flatten(chunks), limit))
            && (!end.stopped ==> Answers(end.done[0], error, limit))
  {
    EarlyStopKeepsTheLimit(columns, chunks, error, limit);
    ExtractAnswers(error, limit);
    if |Flatten(chunks)| > limit {
      RowsShown(Flatten(chunks), limit);
    }
    hide RunAll, Extract, Answers, ShowsRows, Flatten, ChunkResults;
  }
}
