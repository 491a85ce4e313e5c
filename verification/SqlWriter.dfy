/** The SQL writer thread: it drains two queues into a growing batch buffer and hands full batches
    to the chunked executor (src/switch_core_sqldb.c). */
module SqlWriter {
  import opened Common
  import opened SqlText
  import opened SqlExecutor
  import opened SqlLedger

  const TARGET: nat := 20000
  const GROWTH: nat := 10240

  /** A statement for which a buffer of the given size, with len characters in it, is large enough or
      can be made so. */
  predicate FitsBehind(len: nat, sql: string, room: nat, maxLen: int) {
    len + |sql| + 3 <= room || len + |sql| + 2 + GROWTH < maxLen
  }

  /** The same for an empty buffer. */
  predicate Fits(sql: string, room: nat, maxLen: int) {
    FitsBehind(0, sql, room, maxLen)
  }

  /** How full the buffer is: the characters in it, its size, and the statements in it. */
  datatype Fill = Fill(len: nat, room: nat, count: nat)

  /** One more statement in the buffer, which grows for it if it must. */
  function Stored(f: Fill, sql: string): Fill {
    var size := f.len + |sql| + 2;
    Fill(size, if size + 1 <= f.room then f.room else size + GROWTH, f.count + 1)
  }

  /** The buffer after a turn has taken a statement, if there was one, and stored it if it fits. */
  function Gathered(f: Fill, next: Option<string>, maxLen: int): Fill {
    if next.Some? && FitsBehind(f.len, next.value, f.room, maxLen) then Stored(f, next.value) else f
  }

  /** A batch is flushed when it is large, nothing is queued, or a statement did not fit. */
  predicate Due(count: nat, skip: bool, empty: bool) {
    count > 0 && (count > TARGET || skip || empty)
  }

  function Settled(f: Fill, skip: bool, empty: bool): Fill {
    if Due(f.count, skip, empty) then Fill(0, f.room, 0) else f
  }

  /** The buffer has room for the statement and a terminating NUL, and leaves 10240 characters less one
      beyond those when it has to grow; it never grows to its limit. */
  lemma RoomBound(f: Fill, sql: string, maxLen: int)
    requires FitsBehind(f.len, sql, f.room, maxLen)
    ensures var g := Stored(f, sql);
            && g.len == f.len + |sql + ";\n"| < g.room
            && (g.room == f.room || (f.room <= g.len && g.room == g.len + 10240 < maxLen))
  {
  }

  /** What filling the buffer with the pending statements, one after the other, leaves over. Where one does
      not fit behind the batch, the batch is flushed; the statement then starts the next batch, unless it is
      the last, for then the thread waits. A statement that fits no buffer stops the writer. */
  function LeftOf(pending: seq<string>, f: Fill, maxLen: int): Option<string>
    decreases |pending|, f.len
  {
    if pending == [] then None
    else
      var sql, rest := pending[0], pending[1..];
      if FitsBehind(f.len, sql, f.room, maxLen) then LeftOf(rest, Settled(Stored(f, sql), false, rest == []), maxLen)
      else if rest == [] || !Fits(sql, f.room, maxLen) then Some(sql)
      else LeftOf(pending, Fill(0, f.room, 0), maxLen)
  }

  /** What a turn takes from the saved statement and the queued ones, and what it leaves of them. */
  function TakenOf(save: Option<string>, queued: seq<string>): Option<string> {
    if save.Some? then save else if queued == [] then None else Some(queued[0])
  }

  function QueuedLeft(save: Option<string>, queued: seq<string>): seq<string> {
    if save.Some? || queued == [] then queued else queued[1..]
  }

  function HighLeftOf(save: Option<string>, high: seq<CStr>): seq<CStr> {
    if save.None? && high != [] then high[1..] else high
  }

  function LowLeftOf(save: Option<string>, high: seq<CStr>, low: seq<CStr>): seq<CStr> {
    if save.None? && high == [] && low != [] then low[1..] else low
  }

  lemma LeftOfQueues(save: Option<string>, high: seq<CStr>, low: seq<CStr>)
    ensures HighLeftOf(save, high) + LowLeftOf(save, high, low) == QueuedLeft(save, high + low)
  {
  }

  function PendingOf(save: Option<string>, queued: seq<string>): seq<string> {
    (if save.Some? then [save.value] else []) + queued
  }

  /** One quiet turn on values: what will be left over does not change. */
  lemma LeftTurn(save: Option<string>, queued: seq<string>, f: Fill, maxLen: int)
    requires TakenOf(save, queued).Some? ==> Fits(TakenOf(save, queued).value, f.room, maxLen)
    requires f.count == 0 <==> f.len == 0
    ensures var next, left := TakenOf(save, queued), QueuedLeft(save, queued);
            var saved := if next.Some? && !FitsBehind(f.len, next.value, f.room, maxLen) then next else None;
            var f' := Settled(Gathered(f, next, maxLen), saved.Some?, left == []);
            if left == [] then saved == LeftOf(PendingOf(save, queued), f, maxLen)
            else LeftOf(PendingOf(saved, left), f', maxLen) == LeftOf(PendingOf(save, queued), f, maxLen)
  {
    var pending := PendingOf(save, queued);
    if pending != [] {
      var sql, left := pending[0], QueuedLeft(save, queued);
      assert pending[1..] == left && pending == [sql] + left;
      if FitsBehind(f.len, sql, f.room, maxLen) {
        assert PendingOf(None, left) == left;
      }
    }
  }

  /** Only the last statement can be left over. */
  lemma {:induction false} LeftIsLast(pending: seq<string>, f: Fill, maxLen: int)
    requires forall i :: 0 <= i < |pending| ==> Fits(pending[i], f.room, maxLen)
    ensures var left := LeftOf(pending, f, maxLen);
            left.Some? ==> pending != [] && left.value == pending[|pending| - 1]
    decreases |pending|, f.len
  {
    if pending != [] {
      var sql, rest := pending[0], pending[1..];
      if FitsBehind(f.len, sql, f.room, maxLen) {
        LeftIsLast(rest, Settled(Stored(f, sql), false, rest == []), maxLen);
      } else if rest != [] {
        LeftIsLast(pending, Fill(0, f.room, 0), maxLen);
      }
    }
  }

  /** Nothing is left over when all that is pending fits the buffer together. */
  lemma {:induction false} NothingLeft(pending: seq<string>, f: Fill, maxLen: int)
    requires f.len + |Render(pending)| < f.room
    ensures LeftOf(pending, f, maxLen).None?
    decreases |pending|
  {
    if pending != [] {
      NothingLeft(pending[1..], Settled(Stored(f, pending[0]), false, pending[1..] == []), maxLen);
    }
  }

  /** What other threads push in one turn of the writer: between its two pops, before it reads the
      backlog, before it reads it again, and before it waits or goes on. */
  datatype Arrivals = Arrivals(early: seq<Push>, mid: seq<Push>, late: seq<Push>, last: seq<Push>)

  const NOTHING := Arrivals([], [], [], [])

  lemma NothingQueued(ps: seq<Push>)
    ensures OnQueue(ps, true) == [] && OnQueue(ps, false) == [] <==> ps == []
  {
  }

  lemma AppendRender(batch: seq<string>, sql: string)
    ensures Render(batch + [sql]) == Render(batch) + (sql + ";\n")
  {
    RenderConcat(batch, [sql]);
    assert Render([sql]) == sql + ";\n" + Render([]);
  }

  lemma SavedFits(l: Ledger, save: Option<string>, room: nat, maxLen: int)
    requires Balanced(l) && l.hand == (if save.None? then [] else [save.value])
    requires forall i :: 0 <= i < |l.pushed| ==> Fits(l.pushed[i].sql, room, maxLen)
    ensures save.Some? ==> Fits(save.value, room, maxLen)
  {
    if save.Some? {
      TakenWasPushed(l, save.value);
    }
  }

  lemma QueuedFits(l: Ledger, room: nat, maxLen: int)
    requires Balanced(l) && forall i :: 0 <= i < |l.pushed| ==> Fits(l.pushed[i].sql, room, maxLen)
    ensures forall k :: 0 <= k < |l.high| ==> Fits(l.high[k], room, maxLen)
    ensures forall k :: 0 <= k < |l.low| ==> Fits(l.low[k], room, maxLen)
  {
    forall k | 0 <= k < |l.high|
      ensures Fits(l.high[k], room, maxLen)
    {
      assert l.high[k] in OnQueue(l.pushed, true);
      OnQueueSound(l.pushed, true, l.high[k]);
      var i :| 0 <= i < |l.pushed| && l.pushed[i] == Push(true, l.high[k]);
    }
    forall k | 0 <= k < |l.low|
      ensures Fits(l.low[k], room, maxLen)
    {
      assert l.low[k] in OnQueue(l.pushed, false);
      OnQueueSound(l.pushed, false, l.low[k]);
      var i :| 0 <= i < |l.pushed| && l.pushed[i] == Push(false, l.low[k]);
    }
  }

  /** The batch buffer: sqlbuf, its length sql_len, and the length len of the text in it. */
  class BatchBuffer {
    var mem: array<char>
    var len: nat
    ghost var stmts: seq<string>

    /** The buffer holds the batch as a C string. */
    ghost predicate Valid()
      reads this, mem
    {
      && len == |Render(stmts)| < mem.Length
      && mem[..len] == Render(stmts)
      && (stmts != [] ==> mem[len] == '\0')
    }

    constructor (size: nat)
      requires size > 0
      ensures Valid() && stmts == [] && fresh(mem) && mem.Length == size
    {
      mem, len, stmts := new char[size], 0, [];
    }

    /** Grows the buffer when the statement does not fit behind the batch and growing is allowed. */
    method Reserve(newlen: nat, maxLen: int) returns (ok: bool)
      requires Valid()
      modifies this`mem
      ensures fresh(mem) || mem == old(mem)
      ensures mem.Length >= old(mem.Length) && mem[..len] == old(mem[..len])
      ensures ok == (len + newlen + 1 <= old(mem.Length) || len + newlen + GROWTH < maxLen)
      ensures ok ==> len + newlen + 1 <= mem.Length
      ensures if !ok || len + newlen + 1 <= old(mem.Length) then mem == old(mem)
              else mem.Length == len + newlen + GROWTH
    {
      ok := true;
      if len + newlen + 1 > mem.Length {
        var newMlen := len + newlen + GROWTH;
        if newMlen < maxLen {
          var tmp := new char[newMlen];
          forall i | 0 <= i < mem.Length {
            tmp[i] := mem[i];
          }
          mem := tmp;
        } else {
          ok := false;
        }
      }
    }

    /** sprintf(sqlbuf + len, "%s;\n", sql) */
    method Print(line: string)
      requires len + |line| < mem.Length
      modifies mem
      ensures mem[..len + |line|] == old(mem[..len]) + line && mem[len + |line|] == '\0'
    {
      forall i | len <= i < len + |line| {
        mem[i] := line[i - len];
      }
      mem[len + |line|] := '\0';
    }

    /** Adds a statement to the batch unless there is no room and no growing. */
    method Append(sql: string, maxLen: int) returns (ok: bool)
      requires Valid()
      modifies this, mem
      ensures Valid() && (fresh(mem) || mem == old(mem)) && mem.Length >= old(mem.Length)
      ensures stmts == old(stmts) + (if ok then [sql] else [])
      ensures ok == FitsBehind(old(len), sql, old(mem.Length), maxLen)
      ensures !ok || old(len) + |sql| + 3 <= old(mem.Length) ==> mem == old(mem)
      ensures ok ==> Fill(len, mem.Length, |stmts|) == Stored(old(Fill(len, mem.Length, |stmts|)), sql)
      ensures !ok ==> len == old(len)
    {
      ok := Reserve(|sql| + 2, maxLen);
      if ok {
        Print(sql + ";\n");
        AppendRender(stmts, sql);
        len := len + |sql| + 2;
        stmts := stmts + [sql];
      }
    }

    method Clear()
      requires mem.Length > 0
      modifies this`len, this`stmts, mem
      ensures Valid() && stmts == [] && len == 0
    {
      len, stmts := 0, [];
      mem[0] := '\0';
    }
  }

  /** The writer thread's variables. The two queues are filled by other threads. */
  class Writer {
    var highQueue: seq<CStr>
    var lowQueue: seq<CStr>
    var save: Option<string>
    var iterations: nat
    var trans: bool
    const buffer: BatchBuffer
    const maxLen: int
    const db: Database

    ghost var ledger: BalancedLedger

    ghost predicate Tied(hand: Option<string>)
      reads this
    {
      && ledger.high == highQueue && ledger.low == lowQueue
      && ledger.hand == (if hand.None? then [] else [hand.value])
    }

    ghost predicate Buffered()
      reads this, buffer, buffer.mem
    {
      && buffer.Valid() && buffer.stmts == ledger.batch
      && iterations == |ledger.batch| && (iterations > 0 ==> trans)
    }

    ghost predicate Logged()
      reads this, db
    {
      db.log == LogOf(ledger.batches, db.fails)
    }

    /** What holds between two turns of the writer loop, whatever the other threads push. In
        particular the save slot is full only while the batch is empty, and a batch is kept only
        while a queue is not empty and it has no more than 20000 statements. */
    ghost predicate Valid()
      reads this, buffer, buffer.mem, db
    {
      && Tied(save) && Buffered() && Logged()
      && (save.Some? ==> iterations == 0)
      && (iterations > 0 ==> highQueue != [] || lowQueue != [])
      && iterations <= 20000
    }

    function Backlog(): nat
      reads this
    {
      2 * (|highQueue| + |lowQueue|) + (if save.Some? then 1 else 0)
    }

    constructor (bufferLen: nat, maxLen: int, db: Database)
      requires bufferLen > 0 && db.log == []
      ensures Valid() && ledger == Ledger([], [], [], [], [], [], []) && save == None
      ensures fresh(buffer) && fresh(buffer.mem)
      ensures this.db == db && this.maxLen == maxLen && buffer.mem.Length == bufferLen
    {
      highQueue, lowQueue, save := [], [], None;
      buffer := new BatchBuffer(bufferLen);
      iterations, trans := 0, false;
      this.maxLen, this.db := maxLen, db;
      ledger := Ledger([], [], [], [], [], [], []);
    }

    /** What the next turn takes off a queue: nothing when a statement is saved, else the head of the
        first queue, else the head of the second, on which `early` has arrived by then. */
    function Picks(early: seq<Push>): seq<Push>
      reads this
    {
      var low := lowQueue + OnQueue(early, false);
      if save.Some? then []
      else if highQueue != [] then [Push(true, highQueue[0])]
      else if low != [] then [Push(false, low[0])]
      else []
    }

    /** The statement of the next turn: the saved one or what is taken off a queue. */
    function Upcoming(early: seq<Push>): Option<string>
      reads this
    {
      if save.Some? then save else if Picks(early) == [] then None else Some(Picks(early)[0].sql)
    }

    /** What a turn leaves of the two queues. */
    function HighLeft(): seq<CStr>
      reads this
    {
      HighLeftOf(save, highQueue)
    }

    function LowLeft(early: seq<Push>): seq<CStr>
      reads this
    {
      LowLeftOf(save, highQueue, lowQueue + OnQueue(early, false))
    }

    function Filling(): Fill
      reads this, buffer
    {
      Fill(buffer.len, buffer.mem.Length, iterations)
    }

    /** The statements on the queues in the order in which they are taken if no more arrive, and the same
        with the saved one in front. */
    function Queued(): seq<string>
      reads this
    {
      highQueue + lowQueue
    }

    function Pending(): seq<string>
      reads this
    {
      PendingOf(save, Queued())
    }

    /** The statement that the next turn saves, because it does not fit behind the batch. */
    function Overflow(early: seq<Push>): Option<string>
      reads this, buffer
    {
      var next := Upcoming(early);
      if next.Some? && !FitsBehind(buffer.len, next.value, buffer.mem.Length, maxLen) then next else None
    }

    /** switch_queue_push, by any thread and any number of times. */
    method Enqueue(arrivals: seq<Push>, ghost hand: Option<string>)
      requires Tied(hand)
      modifies this`highQueue, this`lowQueue, this`ledger
      ensures Tied(hand) && ledger.pushed == old(ledger.pushed) + arrivals
      ensures ledger.taken == old(ledger.taken)
      ensures ledger.batches == old(ledger.batches) && ledger.batch == old(ledger.batch)
      ensures highQueue == old(highQueue) + OnQueue(arrivals, true)
      ensures lowQueue == old(lowQueue) + OnQueue(arrivals, false)
    {
      ArriveBalanced(ledger, arrivals);
      highQueue := highQueue + OnQueue(arrivals, true);
      lowQueue := lowQueue + OnQueue(arrivals, false);
      ledger := ledger.Arrive(arrivals);
    }

    /** Picks the statement for this turn: the saved one, else the head of the first queue, else
        the head of the second. Statements may arrive between the two pops. */
    method TakeNext(early: seq<Push>) returns (next: Option<string>)
      requires Tied(save)
      modifies this`highQueue, this`lowQueue, this`save, this`ledger
      ensures Tied(next) && save.None? && next == old(Upcoming(early))
      ensures ledger.taken == old(ledger.taken) + old(Picks(early))
      ensures ledger.pushed == old(ledger.pushed) + early
      ensures old(save).Some? ==> next == old(save) && ledger.taken == old(ledger.taken)
      ensures old(save).None? && old(highQueue) != [] ==>
                next == Some(old(highQueue)[0]) && ledger.taken == old(ledger.taken) + [Push(true, old(highQueue)[0])]
      ensures old(save).None? && old(highQueue) == [] && old(lowQueue) != [] ==>
                next == Some(old(lowQueue)[0]) && ledger.taken == old(ledger.taken) + [Push(false, old(lowQueue)[0])]
      ensures ledger.batches == old(ledger.batches) && ledger.batch == old(ledger.batch)
      ensures highQueue == old(HighLeft()) + OnQueue(early, true) && lowQueue == old(LowLeft(early))
    {
      next := None;
      if save.Some? {
        next, save := save, None;
      } else if highQueue != [] {
        TakeHighBalanced(ledger);
        next, highQueue, ledger := Some(highQueue[0]), highQueue[1..], ledger.TakeHigh();
      }
      Enqueue(early, next);
      if next.None? && lowQueue != [] {
        TakeLowBalanced(ledger);
        next, lowQueue, ledger := Some(lowQueue[0]), lowQueue[1..], ledger.TakeLow();
      }
    }

    /** Adds the statement in hand to the batch, or saves it when there is no room. */
    method Store(sql: string) returns (stored: bool)
      requires Tied(Some(sql)) && Buffered() && save.None?
      modifies this`save, this`iterations, this`trans, this`ledger, buffer, buffer.mem
      ensures Tied(save) && Buffered() && (fresh(buffer.mem) || buffer.mem == old(buffer.mem))
      ensures buffer.mem.Length >= old(buffer.mem.Length)
      ensures stored == FitsBehind(old(buffer.len), sql, old(buffer.mem.Length), maxLen)
      ensures stored ==> save.None? && ledger == old(ledger).Store() && iterations > 0
      ensures |sql| + 3 + old(buffer.len) <= old(buffer.mem.Length) ==> buffer.mem == old(buffer.mem)
      ensures !stored ==> save == Some(sql) && ledger == old(ledger) && iterations == old(iterations)
      ensures !stored ==> buffer.mem == old(buffer.mem)
      ensures Filling() == Gathered(old(Filling()), Some(sql), maxLen)
    {
      if iterations == 0 {
        trans := true;
      }
      stored := buffer.Append(sql, maxLen);
      if stored {
        iterations := iterations + 1;
        StoreBalanced(ledger);
        ledger := ledger.Store();
      } else {
        save := Some(sql);
      }
    }

    /** Hands the batch to the database and empties the buffer. */
    method Flush()
      requires Tied(save) && Buffered() && Logged() && iterations > 0
      modifies this`ledger, this`iterations, this`trans, buffer, buffer.mem, db
      ensures Tied(save) && Buffered() && Logged() && iterations == 0 && buffer.len == 0
      ensures ledger == old(ledger).Flush() && buffer.mem == old(buffer.mem)
    {
      BatchIsCString(ledger);
      var ok := ExecuteChunked(db, buffer.mem, CHUNK_SIZE, Render(ledger.batch));
      LogOfSnoc(ledger.batches, ledger.batch, db.fails);
      FlushBalanced(ledger);
      ledger := ledger.Flush();
      iterations, trans := 0, false;
      buffer.Clear();
    }

    /** Stores the statement in hand, if there is one. The result says that it did not fit. */
    method StoreNext(next: Option<string>) returns (skip: bool)
      requires Tied(next) && Buffered() && Logged() && save.None?
      modifies this`save, this`iterations, this`trans, this`ledger, buffer, buffer.mem
      ensures Tied(save) && Buffered() && Logged() && skip == save.Some?
      ensures (fresh(buffer.mem) || buffer.mem == old(buffer.mem)) && buffer.mem.Length >= old(buffer.mem.Length)
      ensures save == if next.Some? && !FitsBehind(old(buffer.len), next.value, old(buffer.mem.Length), maxLen)
                      then next else None
      ensures skip ==> buffer.mem == old(buffer.mem)
      ensures ledger.pushed == old(ledger.pushed) && ledger.taken == old(ledger.taken)
      ensures ledger.batches == old(ledger.batches)
      ensures ledger.batch == old(ledger.batch) + if skip || next.None? then [] else [next.value]
      ensures Filling() == Gathered(old(Filling()), next, maxLen)
    {
      skip := false;
      if next.Some? {
        var stored := Store(next.value);
        skip := !stored;
      }
    }

    /** The first half of a turn: takes a statement, if there is one, and stores it. The result
        says that it did not fit, which skips the reading of the backlog. */
    method Gather(early: seq<Push>) returns (skip: bool)
      requires Valid()
      modifies this, buffer, buffer.mem
      ensures Tied(save) && Buffered() && Logged() && save == old(Overflow(early)) && skip == save.Some?
      ensures (fresh(buffer.mem) || buffer.mem == old(buffer.mem)) && buffer.mem.Length >= old(buffer.mem.Length)
      ensures skip ==> buffer.mem == old(buffer.mem)
      ensures ledger.pushed == old(ledger.pushed) + early && ledger.taken == old(ledger.taken) + old(Picks(early))
      ensures ledger.batches == old(ledger.batches)
      ensures ledger.batch == old(ledger.batch)
                            + if skip || old(Upcoming(early)).None? then [] else [old(Upcoming(early)).value]
      ensures highQueue == old(HighLeft()) + OnQueue(early, true) && lowQueue == old(LowLeft(early))
      ensures Filling() == Gathered(old(Filling()), old(Upcoming(early)), maxLen)
    {
      var next := TakeNext(early);
      skip := StoreNext(next);
    }

    /** Flushes the batch when it is large or the backlog count is zero. */
    method FlushIfDue(lc: nat)
      requires Tied(save) && Buffered() && Logged()
      modifies this`ledger, this`iterations, this`trans, buffer, buffer.mem, db
      ensures Tied(save) && Buffered() && Logged() && buffer.mem == old(buffer.mem)
      ensures if old(iterations) > 0 && (old(iterations) > 20000 || lc == 0) then ledger == old(ledger).Flush()
              else ledger == old(ledger) && db.log == old(db.log)
      ensures Filling() == Settled(old(Filling()), false, lc == 0)
    {
      if trans && iterations > 0 && (iterations > TARGET || lc == 0) {
        Flush();
      }
    }

    /** Pushes by other threads while the writer is between two of its actions. */
    method Arrive(arrivals: seq<Push>)
      requires Tied(save) && Buffered() && Logged()
      modifies this`highQueue, this`lowQueue, this`ledger
      ensures Tied(save) && Buffered() && Logged()
      ensures ledger.pushed == old(ledger.pushed) + arrivals && ledger.taken == old(ledger.taken)
      ensures ledger.batches == old(ledger.batches) && ledger.batch == old(ledger.batch)
      ensures highQueue == old(highQueue) + OnQueue(arrivals, true)
      ensures lowQueue == old(lowQueue) + OnQueue(arrivals, false)
    {
      Enqueue(arrivals, save);
    }

    /** Flushes the batch when it is large, nothing more is queued, or the statement in hand did not
        fit, in which case the count of the backlog is not read. */
    method Write(mid: seq<Push>, skip: bool)
      requires Tied(save) && Buffered() && Logged()
      modifies this, buffer, buffer.mem, db
      ensures Tied(save) && Buffered() && Logged() && save == old(save)
      ensures buffer.mem == old(buffer.mem)
      ensures ledger.pushed == old(ledger.pushed) + mid && ledger.taken == old(ledger.taken)
      ensures highQueue == lowQueue == [] <==> old(highQueue) == old(lowQueue) == [] && mid == []
      ensures mid == [] ==> highQueue == old(highQueue) && lowQueue == old(lowQueue)
      ensures Filling() == Settled(old(Filling()), skip, highQueue == lowQueue == [])
      ensures if Due(old(iterations), skip, highQueue == lowQueue == [])
              then ledger.batch == [] && ledger.batches == old(ledger.batches) + [old(ledger.batch)]
              else ledger.batch == old(ledger.batch) && ledger.batches == old(ledger.batches) && db.log == old(db.log)
    {
      NothingQueued(mid);
      Arrive(mid);
      FlushIfDue(if skip then 0 else |highQueue| + |lowQueue|);
    }

    /** Says whether the thread now waits, which it does when the queues are empty at that moment. What
        arrives after that gives no signal: the thread that pushes only tries for the mutex that the
        writer still has. */
    method Rest(late: seq<Push>, last: seq<Push>) returns (sleep: bool)
      requires Tied(save) && Buffered() && Logged()
      modifies this`highQueue, this`lowQueue, this`ledger
      ensures Tied(save) && Buffered() && Logged()
      ensures ledger.pushed == old(ledger.pushed) + late + last && ledger.taken == old(ledger.taken)
      ensures ledger.batches == old(ledger.batches) && ledger.batch == old(ledger.batch)
      ensures sleep <==> old(highQueue) == old(lowQueue) == [] && late == []
      ensures sleep ==> highQueue == OnQueue(last, true) && lowQueue == OnQueue(last, false)
      ensures !sleep ==> highQueue != [] || lowQueue != []
      ensures late == last == [] ==> highQueue == old(highQueue) && lowQueue == old(lowQueue)
    {
      NothingQueued(late);
      Arrive(late);
      sleep := |highQueue| + |lowQueue| == 0;
      Arrive(last);
    }

    /** The second half of a turn: writes the batch when that is due, and says whether the thread waits. */
    method Settle(mid: seq<Push>, late: seq<Push>, last: seq<Push>, skip: bool) returns (sleep: bool)
      requires Tied(save) && Buffered() && Logged() && (save.Some? <==> skip)
      modifies this, buffer, buffer.mem, db
      ensures Valid() && buffer.mem == old(buffer.mem) && save == old(save) && ledger.taken == old(ledger.taken)
      ensures ledger.pushed == old(ledger.pushed) + mid + late + last
      ensures sleep <==> old(highQueue) == old(lowQueue) == [] && mid == late == []
      ensures sleep ==> iterations == 0 && highQueue == OnQueue(last, true) && lowQueue == OnQueue(last, false)
      ensures !sleep ==> highQueue != [] || lowQueue != []
      ensures mid == late == last == [] ==> highQueue == old(highQueue) && lowQueue == old(lowQueue)
      ensures Filling() == Settled(old(Filling()), skip, old(highQueue) == old(lowQueue) == [] && mid == [])
      ensures if Due(old(iterations), skip, old(highQueue) == old(lowQueue) == [] && mid == [])
              then ledger.batch == [] && ledger.batches == old(ledger.batches) + [old(ledger.batch)]
              else ledger.batch == old(ledger.batch) && ledger.batches == old(ledger.batches) && db.log == old(db.log)
    {
      Write(mid, skip);
      sleep := Rest(late, last);
    }

    /** One turn of the writer loop, with pushes by other threads at four moments. The result says
        whether the thread then waits to be woken. */
    method Step(a: Arrivals) returns (sleep: bool)
      requires Valid()
      modifies this, buffer, buffer.mem, db
      ensures Valid()
      ensures (fresh(buffer.mem) || buffer.mem == old(buffer.mem)) && buffer.mem.Length >= old(buffer.mem.Length)
      ensures ledger.pushed == old(ledger.pushed) + a.early + a.mid + a.late + a.last
      // The turn takes one statement, by priority, and saves it exactly if it does not fit.
      ensures ledger.taken == old(ledger.taken) + old(Picks(a.early)) && save == old(Overflow(a.early))
      // When the thread waits, what is queued is what came after it last looked.
      ensures sleep ==> iterations == 0 && highQueue == OnQueue(a.last, true) && lowQueue == OnQueue(a.last, false)
      ensures sleep ==> (highQueue == lowQueue == [] <==> a.last == [])
      ensures !sleep ==> highQueue != [] || lowQueue != []
      // When a statement is saved, the storage stays; when also the batch was empty, so does the rest.
      ensures save.Some? ==> buffer.mem == old(buffer.mem)
      ensures save.Some? && old(iterations) == 0 ==> ledger.batches == old(ledger.batches) && db.log == old(db.log)
      // The buffer after the turn, and with nothing arriving also the queues.
      ensures Filling() == Settled(Gathered(old(Filling()), old(Upcoming(a.early)), maxLen), save.Some?,
                                   old(HighLeft()) + OnQueue(a.early, true) == old(LowLeft(a.early)) == []
                                   && a.mid == [])
      ensures a == NOTHING ==> highQueue == old(HighLeft()) && lowQueue == old(LowLeft([]))
    {
      NothingQueued(a.last);
      var skip := Gather(a.early);
      sleep := Settle(a.mid, a.late, a.last, skip);
    }

    /** End to end, between any two turns, while executions succeed and every statement pushed is fit
        for the chunker. Each statement pushed is queued, saved, in the batch buffer, or executed: it
        is in exactly one of these places, and in each the order of its queue is kept. */
    lemma EachInOnePlace() returns (executed: seq<string>)
      requires Valid() && db.fails == iset{}
      requires forall i :: 0 <= i < |ledger.pushed| ==> Chunkable([ledger.pushed[i].sql])
      ensures OnQueue(ledger.pushed, true) == OnQueue(ledger.taken, true) + highQueue
      ensures OnQueue(ledger.pushed, false) == OnQueue(ledger.taken, false) + lowQueue
      ensures Sqls(ledger.taken) == executed + buffer.stmts + (if save.Some? then [save.value] else [])
      ensures buffer.mem[..buffer.len] == Render(buffer.stmts)
      ensures Meaning(db.log) == NonEmpty(executed)
    {
      executed := Flatten(ledger.batches);
      FlushedIsChunkable(ledger);
      FlushedIsExecuted(ledger.batches);
    }

    /** A turn in which nothing arrives and what is saved fits. The thread waits exactly if the queues
        are empty after it, and then with what is left over in the save slot. */
    method QuietStep() returns (sleep: bool)
      requires Valid() && (save.Some? ==> Fits(save.value, buffer.mem.Length, maxLen))
      modifies this, buffer, buffer.mem, db
      ensures Valid() && (Backlog() < old(Backlog()) || Backlog() == old(Backlog()) == 0)
      ensures (fresh(buffer.mem) || buffer.mem == old(buffer.mem)) && buffer.mem.Length >= old(buffer.mem.Length)
      ensures ledger.pushed == old(ledger.pushed) && ledger.taken == old(ledger.taken) + old(Picks([]))
      ensures sleep <==> highQueue == lowQueue == []
      ensures sleep ==> iterations == 0
      ensures save == old(Overflow([])) && Queued() == QueuedLeft(old(save), old(Queued()))
      ensures old(Upcoming([])) == TakenOf(old(save), old(Queued()))
      ensures Filling() == Settled(Gathered(old(Filling()), old(Upcoming([])), maxLen), save.Some?, Queued() == [])
    {
      LeftOfQueues(save, highQueue, lowQueue);
      assert lowQueue + OnQueue([], false) == lowQueue;
      sleep := Step(NOTHING);
      assert old(ledger.pushed) + [] + [] + [] + [] == old(ledger.pushed);
    }

    ghost predicate AllFit()
      reads this, buffer
    {
      forall i :: 0 <= i < |ledger.pushed| ==> Fits(ledger.pushed[i].sql, buffer.mem.Length, maxLen)
    }

    /** What is left over when the thread comes to wait with nothing more arriving. */
    function Leftover(): Option<string>
      reads this, buffer
    {
      LeftOf(Pending(), Filling(), maxLen)
    }

    lemma NextFits()
      requires Valid() && AllFit()
      ensures save.Some? ==> Fits(save.value, buffer.mem.Length, maxLen)
      ensures var next := TakenOf(save, Queued()); next.Some? ==> Fits(next.value, buffer.mem.Length, maxLen)
      ensures iterations == 0 <==> buffer.len == 0
    {
      SavedFits(ledger, save, buffer.mem.Length, maxLen);
      QueuedFits(ledger, buffer.mem.Length, maxLen);
      RenderLength(ledger.batch);
    }

    /** A quiet turn brings the end nearer, and does not change what will be left over. */
    method DrainStep() returns (sleep: bool)
      requires Valid() && AllFit()
      modifies this, buffer, buffer.mem, db
      ensures Valid() && AllFit() && (Backlog() < old(Backlog()) || Backlog() == old(Backlog()) == 0)
      ensures (fresh(buffer.mem) || buffer.mem == old(buffer.mem)) && ledger.pushed == old(ledger.pushed)
      ensures (sleep <==> highQueue == lowQueue == []) && (sleep ==> iterations == 0)
      ensures if sleep then save == old(Leftover()) else Leftover() == old(Leftover())
    {
      NextFits();
      LeftTurn(save, Queued(), Filling(), maxLen);
      sleep := QuietStep();
    }

    /** With nothing more arriving, and every statement pushed fit for an empty buffer, the thread comes
        to wait with queues and batch empty. All that was pushed has then been flushed but for what the
        start state leaves over, which is in the save slot. */
    method Drain()
      requires Valid() && AllFit()
      modifies this, buffer, buffer.mem, db
      ensures Valid() && highQueue == lowQueue == [] && iterations == 0 && ledger.pushed == old(ledger.pushed)
      ensures save == old(Leftover())
    {
      var sleep := DrainStep();
      while !sleep
        invariant Valid() && AllFit() && ledger.pushed == old(ledger.pushed)
        invariant fresh(buffer.mem) || buffer.mem == old(buffer.mem)
        invariant (sleep <==> highQueue == lowQueue == []) && (sleep ==> iterations == 0)
        invariant if sleep then save == old(Leftover()) else Leftover() == old(Leftover())
        decreases Backlog()
      {
        sleep := DrainStep();
      }
    }

    /** A turn in which one statement arrives before the backlog is read. */
    method BusyStep(p: Push)
      requires Valid()
      modifies this, buffer, buffer.mem, db
      ensures Valid() && (fresh(buffer.mem) || buffer.mem == old(buffer.mem))
      ensures ledger.pushed == old(ledger.pushed) + [p] && ledger.taken == old(ledger.taken) + old(Picks([]))
      ensures save == old(Overflow([]))
      ensures Filling() == Settled(Gathered(old(Filling()), old(Upcoming([])), maxLen), save.Some?, false)
    {
      var sleep := Step(Arrivals([], [p], [], []));
    }

    /** Any wake-up of a thread that waits on a saved statement which fits an empty buffer completes
        the work. */
    method Wake() returns (sleep: bool)
      requires Valid() && highQueue == lowQueue == [] && save.Some? && Fits(save.value, buffer.mem.Length, maxLen)
      modifies this, buffer, buffer.mem, db
      ensures Valid() && sleep && Backlog() == 0 && iterations == 0
      ensures ledger.pushed == old(ledger.pushed) && ledger.taken == old(ledger.taken)
    {
      sleep := QuietStep();
    }

    /** A saved statement goes through on the next turn exactly when it fits an empty buffer; otherwise
        the turn leaves all of the pipeline but the queues where it is. */
    method StepOnSaved(a: Arrivals) returns (sleep: bool)
      requires Valid() && save.Some?
      modifies this, buffer, buffer.mem, db
      ensures Valid() && (save.None? <==> Fits(old(save).value, old(buffer.mem.Length), maxLen))
      ensures ledger.taken == old(ledger.taken)
      ensures save.Some? ==> save == old(save) && buffer.mem == old(buffer.mem)
      ensures save.Some? ==> ledger.batches == old(ledger.batches) && db.log == old(db.log)
    {
      assert buffer.stmts == [] && buffer.len == 0;
      sleep := Step(a);
    }

    /** A saved statement that fits no buffer stays saved over any number of turns. Nothing more is taken
        off the queues, and nothing reaches the database. */
    method StayStuck(turns: seq<Arrivals>)
      requires Valid() && save.Some? && !Fits(save.value, buffer.mem.Length, maxLen)
      modifies this, buffer, buffer.mem, db
      ensures Valid() && save == old(save) && ledger.taken == old(ledger.taken)
      ensures ledger.batches == old(ledger.batches) && db.log == old(db.log) && buffer.mem == old(buffer.mem)
    {
      var i := 0;
      while i < |turns|
        invariant Valid() && save == old(save) && ledger.taken == old(ledger.taken)
        invariant ledger.batches == old(ledger.batches) && db.log == old(db.log) && buffer.mem == old(buffer.mem)
      {
        var sleep := StepOnSaved(turns[i]);
        i := i + 1;
      }
    }
  }

  lemma QueuedIsLeft(l: Ledger, rest: seq<Push>)
    requires Balanced(l) && l.pushed == l.taken + rest
    ensures l.high == OnQueue(rest, true) && l.low == OnQueue(rest, false)
  {
    OnQueueConcat(l.taken, rest, true);
    OnQueueConcat(l.taken, rest, false);
    Cancel(OnQueue(l.taken, true), l.high, OnQueue(rest, true));
    Cancel(OnQueue(l.taken, false), l.low, OnQueue(rest, false));
  }

  lemma Cancel<T>(a: seq<T>, b: seq<T>, c: seq<T>)
    requires a + b == a + c
    ensures b == c
  {
    assert b == (a + b)[|a|..] && c == (a + c)[|a|..];
  }

  lemma OnQueueOne(sql: CStr)
    ensures OnQueue([Push(true, sql)], true) == [sql] && OnQueue([Push(true, sql)], false) == []
  {
    assert [Push(true, sql)] == [] + [Push(true, sql)];
    OnQueueSnoc([], Push(true, sql), true);
    OnQueueSnoc([], Push(true, sql), false);
  }

  /** A writer whose buffer may not grow, after a first turn in which a statement arrives. */
  method FirstTurn(a: CStr, room: nat) returns (w: Writer)
    requires room > 0
    ensures fresh(w) && fresh(w.buffer) && fresh(w.buffer.mem) && fresh(w.db) && w.Valid()
    ensures w.maxLen == 0 && w.save == None && w.Filling() == Fill(0, room, 0)
    ensures w.ledger.pushed == [Push(true, a)] && w.ledger.taken == []
    ensures w.highQueue == [a] && w.lowQueue == []
  {
    var db := new Database(iset{});
    w := new Writer(room, 0, db);
    w.BusyStep(Push(true, a));
    OnQueueOne(a);
    QueuedIsLeft(w.ledger, [Push(true, a)]);
  }

  /** The same after a second turn, in which the statement is taken and another one arrives. */
  method SecondTurn(a: CStr, b: CStr, room: nat) returns (w: Writer)
    requires |a| + 3 <= room
    ensures fresh(w) && fresh(w.buffer) && fresh(w.buffer.mem) && fresh(w.db) && w.Valid()
    ensures w.maxLen == 0 && w.save == None && w.Filling() == Fill(|a| + 2, room, 1)
    ensures w.ledger.pushed == [Push(true, a), Push(true, b)] && w.highQueue == [b] && w.lowQueue == []
  {
    w := FirstTurn(a, room);
    assert w.Upcoming([]) == Some(a) && w.Overflow([]) == None;
    w.BusyStep(Push(true, b));
    OnQueueOne(b);
    QueuedIsLeft(w.ledger, [Push(true, b)]);
  }

  /** The thread may come to wait on a statement: it does in the third turn for any two statements that
      fit the buffer each alone but not together. */
  method WaitsOnSaved(a: CStr, b: CStr, room: nat) returns (w: Writer, sleep: bool)
    requires |a| + 3 <= room && |b| + 3 <= room < |a| + |b| + 5
    ensures fresh(w) && w.Valid() && sleep && w.save == Some(b) && w.highQueue == w.lowQueue == []
    ensures w.ledger.pushed == [Push(true, a), Push(true, b)] && w.AllFit()
  {
    w := SecondTurn(a, b, room);
    sleep := w.QuietStep();
  }
}
