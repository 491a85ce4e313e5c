/** The chunked SQL executor (src/switch_core_sqldb.c). */
module SqlExecutor {
  import opened SqlText

  /** The chunk size every call of switch_cache_db_execute_sql passes on. */
  const CHUNK_SIZE: nat := 32768

  /** The database end of the pipeline: it keeps the texts it was given, and an oracle says which
      of the executions fail. */
  class Database {
    var log: seq<string>
    const fails: iset<nat>

    constructor (fails: iset<nat>)
      ensures log == [] && this.fails == fails
    {
      log := [];
      this.fails := fails;
    }

    method Exec(text: string) returns (ok: bool)
      modifies this
      ensures log == old(log) + [text]
      ensures ok == (|old(log)| !in fails)
    {
      ok := |log| !in fails;
      log := log + [text];
    }
  }

  ghost predicate AllSucceed(n: nat, start: nat, fails: iset<nat>) {
    forall i :: start <= i < start + n ==> i !in fails
  }

  /** How many of n executions are tried when the first failure ends them. */
  ghost function Tries(n: nat, start: nat, fails: iset<nat>): (k: nat)
    ensures k <= n && (n > 0 ==> k > 0)
    ensures AllSucceed(n, start, fails) ==> k == n
    ensures forall i :: start <= i < start + k - 1 ==> i !in fails
    ensures k < n ==> start + k - 1 in fails
  {
    if n == 0 then 0 else if start in fails then 1 else 1 + Tries(n - 1, start + 1, fails)
  }

  /** The texts that reach the database when texts are executed in turn until one fails. */
  ghost function Attempted(texts: seq<string>, start: nat, fails: iset<nat>): seq<string> {
    texts[..Tries(|texts|, start, fails)]
  }

  /** The log and status the chunking loop ends with when rest is left of the text: the loop's own
      definition, with the same order of events. */
  ghost function LoopResult(log: seq<string>, ok: bool, rest: string, chunk: nat, fails: iset<nat>): (seq<string>, bool)
    requires chunk > 0
    decreases |rest|
  {
    if |rest| <= 1 then (log, ok)
    else
      var p := LastCut(rest, if chunk < |rest| - 1 then chunk else |rest| - 1);
      if p == 0 then (log, ok)
      else if |log| in fails then (log + [rest[..p - 1]], false)
      else LoopResult(log + [rest[..p - 1]], true, rest[p + 1..], chunk, fails)
  }

  lemma {:induction false} LoopResultIsAttempted(log: seq<string>, ok: bool, rest: string, chunk: nat, fails: iset<nat>)
    requires chunk > 0
    ensures LoopResult(log, ok, rest, chunk, fails).0 == log + Attempted(Chunks(rest, chunk), |log|, fails)
    ensures LoopResult(log, ok, rest, chunk, fails).1
         == if Chunks(rest, chunk) == [] then ok else AllSucceed(|Chunks(rest, chunk)|, |log|, fails)
    decreases |rest|
  {
    if Chunks(rest, chunk) == [] {
      assert log + [] == log;
    } else {
      var p := LastCut(rest, if chunk < |rest| - 1 then chunk else |rest| - 1);
      LoopResultIsAttempted(log + [rest[..p - 1]], true, rest[p + 1..], chunk, fails);
      AttemptedCons(log, rest[..p - 1], Chunks(rest[p + 1..], chunk), fails);
    }
  }

  lemma AttemptedCons(log: seq<string>, piece: string, rest: seq<string>, fails: iset<nat>)
    ensures log + Attempted([piece] + rest, |log|, fails)
         == (log + [piece]) + (if |log| in fails then [] else Attempted(rest, |log| + 1, fails))
    ensures AllSucceed(1 + |rest|, |log|, fails) <==> |log| !in fails && AllSucceed(|rest|, |log| + 1, fails)
  {
    var texts := [piece] + rest;
    var n := Tries(|rest|, |log| + 1, fails);
    assert |texts| == 1 + |rest|;
    assert Tries(1 + |rest|, |log|, fails) == if |log| in fails then 1 else 1 + n;
    assert texts[..1] == [piece] && texts[..1 + n] == [piece] + rest[..n];
    if AllSucceed(1 + |rest|, |log|, fails) {
      assert |log| !in fails;
    }
  }

  /** Reads the C string at offset s, as the database does. */
  method ReadText(mem: array<char>, s: nat, ghost text: string) returns (t: string)
    requires s + |text| < mem.Length && mem[s + |text|] == '\0'
    requires IsCString(text) && forall i :: 0 <= i < |text| ==> mem[s + i] == text[i]
    ensures t == text
  {
    t := "";
    while mem[s + |t|] != '\0'
      invariant |t| <= |text| && t == text[..|t|]
      invariant mem[s + |t|] == if |t| < |text| then text[|t|] else '\0'
      decreases |text| - |t|
    {
      t := t + [mem[s + |t|]];
    }
  }

  /** The inner loop of the chunker: looks backwards from chunk characters past s for the newline
      of a terminator. The result is s when there is none. */
  method FindCut(sql: array<char>, s: nat, e: nat, chunk: nat, ghost rest: string) returns (p: nat)
    requires chunk > 0 && s < e < sql.Length && sql[s..e + 1] == rest
    ensures p == s + LastCut(rest, if chunk < |rest| - 1 then chunk else |rest| - 1)
  {
    p := s + chunk;
    if p > e {
      p := e;
    }
    ghost var hi := p - s;
    while p > s
      invariant s <= p <= e && LastCut(rest, hi) == LastCut(rest, p - s)
    {
      assert sql[p] == rest[p - s] && sql[p - 1] == rest[p - s - 1];
      if sql[p] == '\n' && sql[p - 1] == ';' {
        break;
      }
      p := p - 1;
    }
  }

  /** Cuts the text at a terminator by writing NULs over it, and reads the C string before it. */
  method CutAt(sql: array<char>, s: nat, p: nat, ghost rest: string) returns (piece: string)
    requires s < p < s + |rest| <= sql.Length && sql[s..s + |rest|] == rest && IsCString(rest)
    modifies sql
    ensures var cut := p - s;
            && piece == rest[..cut - 1]
            && sql[p + 1..s + |rest|] == rest[cut + 1..] && IsCString(rest[cut + 1..])
  {
    assert forall i :: 0 <= i < |rest| ==> sql[s + i] == rest[i];
    sql[p] := '\0';
    sql[p - 1] := '\0';
    assert forall i :: 0 <= i < p - s - 1 ==> sql[s + i] == rest[i];
    piece := ReadText(sql, s, rest[..p - s - 1]);
  }

  /** One turn of the chunking loop up to the execution. */
  method CutPiece(sql: array<char>, s: nat, e: nat, chunk: nat, ghost rest: string) returns (p: nat, piece: string)
    requires chunk > 0 && s < e < sql.Length && sql[s..e + 1] == rest && IsCString(rest)
    modifies sql
    ensures var cut := LastCut(rest, if chunk < |rest| - 1 then chunk else |rest| - 1);
            if cut == 0 then p == s
            else p == s + cut + 1 && piece == rest[..cut - 1]
                 && sql[p..e + 1] == rest[cut + 1..] && IsCString(rest[cut + 1..])
  {
    p := FindCut(sql, s, e, chunk, rest);
    piece := "";
    if p > s {
      piece := CutAt(sql, s, p, rest);
      p := p + 1;
    }
  }

  /** The outer loop of the chunker. */
  method ChunkLoop(db: Database, sql: array<char>, chunk: nat, len: nat, ghost text: string) returns (ok: bool)
    requires 0 < chunk <= len < sql.Length && sql[..len] == text && IsCString(text)
    modifies db, sql
    ensures (db.log, ok) == LoopResult(old(db.log), false, text, chunk, db.fails)
  {
    var e := len - 1;
    var s := 0;
    ok := false;
    ghost var rest := text;
    while s < e
      invariant s <= len && sql[s..len] == rest && IsCString(rest)
      invariant LoopResult(old(db.log), false, text, chunk, db.fails) == LoopResult(db.log, ok, rest, chunk, db.fails)
    {
      var p, piece := CutPiece(sql, s, e, chunk, rest);
      if p <= s {
        break;
      }
      ok := db.Exec(piece);
      if !ok {
        break;
      }
      s, rest := p, rest[p - s..];
    }
  }

  /** switch_cache_db_execute_sql_chunked: submits the text in pieces and writes NULs over the
      terminators it cuts at. The result is the status of the last execution, so it is also true
      when a later part of the text was never submitted. */
  method ExecuteChunked(db: Database, sql: array<char>, chunk: nat, ghost text: string) returns (ok: bool)
    requires chunk > 0 && IsCString(text)
    requires |text| < sql.Length && sql[..|text|] == text && sql[|text|] == '\0'
    modifies db, sql
    ensures db.log == old(db.log) + Attempted(Submitted(text, chunk), |old(db.log)|, db.fails)
    ensures ok == (var texts := Submitted(text, chunk);
                   texts != [] && AllSucceed(|texts|, |old(db.log)|, db.fails))
  {
    var whole := ReadText(sql, 0, text);
    if chunk > |whole| {
      ok := db.Exec(whole);
    } else {
      ok := ChunkLoop(db, sql, chunk, |whole|, text);
      LoopResultIsAttempted(old(db.log), false, text, chunk, db.fails);
    }
  }
}
