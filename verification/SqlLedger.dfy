/** Where every statement of the SQL pipeline is: the bookkeeping behind the writer thread, on
    values. Each step of the writer has a function here and a lemma that it keeps the balance. */
module SqlLedger {
  import opened Common
  import opened SqlText
  import opened SqlExecutor

  /** A statement pushed on one of the two queues. */
  datatype Push = Push(high: bool, sql: CStr)

  function Sqls(ps: seq<Push>): seq<string> {
    if ps == [] then [] else Sqls(ps[..|ps| - 1]) + [ps[|ps| - 1].sql]
  }

  /** The statements of one queue, in order. */
  function OnQueue(ps: seq<Push>, high: bool): seq<CStr> {
    if ps == [] then []
    else
      var p := ps[|ps| - 1];
      OnQueue(ps[..|ps| - 1], high) + (if p.high == high then [p.sql] else [])
  }

  /** All statements ever pushed and ever taken off a queue, in order; the batches flushed so far,
      the batch being built, the statement in hand or saved, and the two queues. */
  datatype Ledger = Ledger(
    pushed: seq<Push>, taken: seq<Push>,
    batches: seq<seq<string>>, batch: seq<string>, hand: seq<string>,
    high: seq<CStr>, low: seq<CStr>)
  {
    ghost function Arrive(arrivals: seq<Push>): Ledger {
      this.(pushed := pushed + arrivals,
            high := high + OnQueue(arrivals, true), low := low + OnQueue(arrivals, false))
    }

    ghost function TakeHigh(): Ledger
      requires high != []
    {
      this.(taken := taken + [Push(true, high[0])], hand := [high[0]], high := high[1..])
    }

    ghost function TakeLow(): Ledger
      requires low != []
    {
      this.(taken := taken + [Push(false, low[0])], hand := [low[0]], low := low[1..])
    }

    ghost function Store(): Ledger {
      this.(batch := batch + hand, hand := [])
    }

    ghost function Flush(): Ledger {
      this.(batches := batches + [batch], batch := [])
    }
  }

  /** Each statement pushed is still queued or was taken, and each one taken was flushed, is in the
      batch, or is in hand. All of it is in order, so none is lost, doubled or overtaken by one of
      its own queue. */
  ghost predicate Balanced(l: Ledger) {
    && OnQueue(l.pushed, true) == OnQueue(l.taken, true) + l.high
    && OnQueue(l.pushed, false) == OnQueue(l.taken, false) + l.low
    && Sqls(l.taken) == Flatten(l.batches) + l.batch + l.hand
  }

  type BalancedLedger = l: Ledger | Balanced(l) ghost witness Ledger([], [], [], [], [], [], [])

  lemma OnQueueSnoc(ps: seq<Push>, p: Push, high: bool)
    ensures OnQueue(ps + [p], high) == OnQueue(ps, high) + (if p.high == high then [p.sql] else [])
    ensures Sqls(ps + [p]) == Sqls(ps) + [p.sql]
  {
    assert (ps + [p])[..|ps|] == ps;
  }

  lemma {:induction false} OnQueueConcat(a: seq<Push>, b: seq<Push>, high: bool)
    ensures OnQueue(a + b, high) == OnQueue(a, high) + OnQueue(b, high)
  {
    if b == [] {
      assert a + b == a;
    } else {
      var n := |b| - 1;
      assert a + b == (a + b[..n]) + [b[n]];
      OnQueueConcat(a, b[..n], high);
      OnQueueSnoc(a + b[..n], b[n], high);
    }
  }

  lemma ArriveBalanced(l: Ledger, arrivals: seq<Push>)
    requires Balanced(l)
    ensures Balanced(l.Arrive(arrivals))
  {
    OnQueueConcat(l.pushed, arrivals, true);
    OnQueueConcat(l.pushed, arrivals, false);
    ConcatAssociates(OnQueue(l.taken, true), l.high, OnQueue(arrivals, true));
    ConcatAssociates(OnQueue(l.taken, false), l.low, OnQueue(arrivals, false));
  }

  lemma HeadOff(a: seq<string>, q: seq<string>)
    requires q != []
    ensures a + q == (a + [q[0]]) + q[1..]
  {
  }

  lemma TakeHighBalanced(l: Ledger)
    requires Balanced(l) && l.hand == [] && l.high != []
    ensures Balanced(l.TakeHigh())
  {
    OnQueueSnoc(l.taken, Push(true, l.high[0]), true);
    OnQueueSnoc(l.taken, Push(true, l.high[0]), false);
    HeadOff(OnQueue(l.taken, true), l.high);
    assert OnQueue(l.taken, false) + [] == OnQueue(l.taken, false);
  }

  lemma TakeLowBalanced(l: Ledger)
    requires Balanced(l) && l.hand == [] && l.low != []
    ensures Balanced(l.TakeLow())
  {
    OnQueueSnoc(l.taken, Push(false, l.low[0]), true);
    OnQueueSnoc(l.taken, Push(false, l.low[0]), false);
    HeadOff(OnQueue(l.taken, false), l.low);
    assert OnQueue(l.taken, true) + [] == OnQueue(l.taken, true);
  }

  lemma StoreBalanced(l: Ledger)
    requires Balanced(l)
    ensures Balanced(l.Store())
  {
    assert Flatten(l.batches) + l.batch + l.hand == Flatten(l.batches) + (l.batch + l.hand) + [];
  }

  lemma FlushBalanced(l: Ledger)
    requires Balanced(l)
    ensures Balanced(l.Flush())
  {
    FlattenSnoc(l.batches, l.batch);
    assert Flatten(l.batches) + l.batch + l.hand == Flatten(l.batches + [l.batch]) + [] + l.hand;
  }

  // ----- Only pushed statements are ever taken

  lemma {:induction false} OnQueueSound(ps: seq<Push>, high: bool, sql: string)
    requires sql in OnQueue(ps, high)
    ensures Push(high, sql) in ps
  {
    var n := |ps| - 1;
    if sql in OnQueue(ps[..n], high) {
      OnQueueSound(ps[..n], high, sql);
    }
  }

  lemma {:induction false} OnQueueComplete(ps: seq<Push>, sql: string)
    requires sql in Sqls(ps)
    ensures exists high :: sql in OnQueue(ps, high)
  {
    var n := |ps| - 1;
    if sql in Sqls(ps[..n]) {
      OnQueueComplete(ps[..n], sql);
      var high :| sql in OnQueue(ps[..n], high);
      assert sql in OnQueue(ps, high);
    } else {
      assert sql in OnQueue(ps, ps[n].high);
    }
  }

  /** Every statement taken, so every one in the batch or in hand, was pushed. */
  lemma TakenWasPushed(l: Ledger, sql: string)
    requires Balanced(l) && sql in Flatten(l.batches) + l.batch + l.hand
    ensures exists i :: 0 <= i < |l.pushed| && l.pushed[i].sql == sql
  {
    OnQueueComplete(l.taken, sql);
    var high :| sql in OnQueue(l.taken, high);
    OnQueueSound(l.pushed, high, sql);
    var i :| 0 <= i < |l.pushed| && l.pushed[i] == Push(high, sql);
    assert l.pushed[i].sql == sql;
  }

  lemma BatchIsCString(l: Ledger)
    requires Balanced(l)
    ensures IsCString(Render(l.batch))
  {
    forall s | s in l.batch
      ensures IsCString(s)
    {
      TakenWasPushed(l, s);
    }
    RenderIsCString(l.batch);
  }

  // ----- What the database has seen

  /** The database log after a list of batches was flushed, one call of the executor each. */
  ghost function LogOf(batches: seq<seq<string>>, fails: iset<nat>): seq<string> {
    if batches == [] then []
    else
      var n := |batches| - 1;
      var before := LogOf(batches[..n], fails);
      before + Attempted(Submitted(Render(batches[n]), CHUNK_SIZE), |before|, fails)
  }

  lemma LogOfSnoc(batches: seq<seq<string>>, batch: seq<string>, fails: iset<nat>)
    ensures LogOf(batches + [batch], fails)
         == LogOf(batches, fails)
          + Attempted(Submitted(Render(batch), CHUNK_SIZE), |LogOf(batches, fails)|, fails)
  {
    assert (batches + [batch])[..|batches|] == batches;
  }

  /** No statement holds a terminator or reaches the chunk size. */
  predicate Chunkable(stmts: seq<string>) {
    AllClean(stmts) && forall i :: 0 <= i < |stmts| ==> |stmts[i]| < 32768
  }

  lemma ChunkableParts(a: seq<string>, b: seq<string>)
    requires Chunkable(a + b)
    ensures Chunkable(a) && Chunkable(b)
  {
    assert forall i :: 0 <= i < |a| ==> (a + b)[i] == a[i];
    assert forall i :: 0 <= i < |b| ==> (a + b)[|a| + i] == b[i];
  }

  lemma BatchIsExecuted(batch: seq<string>)
    requires Chunkable(batch)
    ensures Meaning(Submitted(Render(batch), CHUNK_SIZE)) == NonEmpty(batch)
  {
    SubmittedMeaning(batch, CHUNK_SIZE);
    assert batch[..ShortPrefix(batch, CHUNK_SIZE)] == batch;
  }

  /** A statement of 32768 characters or more is never executed. */
  lemma LongIsDropped(sql: string)
    requires IsClean(sql) && |sql| >= 32768
    ensures Meaning(Submitted(Render([sql]), CHUNK_SIZE)) == []
  {
    SubmittedMeaning([sql], CHUNK_SIZE);
    assert ShortPrefix([sql], CHUNK_SIZE) == 0;
    LongStatementMakesLongBatch([sql], 0);
  }

  /** End to end: while executions succeed, what the database has executed is exactly the flushed
      statements in order. */
  lemma {:induction false} FlushedIsExecuted(batches: seq<seq<string>>)
    requires Chunkable(Flatten(batches))
    ensures Meaning(LogOf(batches, iset{})) == NonEmpty(Flatten(batches))
  {
    if batches != [] {
      var n := |batches| - 1;
      var init, batch := batches[..n], batches[n];
      assert batches == init + [batch];
      FlattenSnoc(init, batch);
      ChunkableParts(Flatten(init), batch);
      FlushedIsExecuted(init);
      BatchIsExecuted(batch);
      var texts := Submitted(Render(batch), CHUNK_SIZE);
      assert Attempted(texts, |LogOf(init, iset{})|, iset{}) == texts;
      MeaningConcat(LogOf(init, iset{}), texts);
      NonEmptyConcat(Flatten(init), batch);
    }
  }

  /** If all statements pushed are fit for the chunker, so are all that were flushed. */
  lemma FlushedIsChunkable(l: Ledger)
    requires Balanced(l) && forall i :: 0 <= i < |l.pushed| ==> Chunkable([l.pushed[i].sql])
    ensures Chunkable(Flatten(l.batches))
  {
    var all := Flatten(l.batches);
    forall k | 0 <= k < |all|
      ensures IsClean(all[k]) && |all[k]| < 32768
    {
      assert all[k] in all + l.batch + l.hand;
      TakenWasPushed(l, all[k]);
      var i :| 0 <= i < |l.pushed| && l.pushed[i].sql == all[k];
      assert [all[k]][0] == all[k];
    }
  }
}
