/** The life of sessions as values: the table of sessions by uuid, the read locks that callers take,
    and the end of a session (src/switch_core_session.c, src/switch_core_rwlock.c). Every public call
    is one step. */
module SessionTable {
  import opened Common

  const UUID_LENGTH: nat := 256

  /** switch_set_string into the uuid field cuts a longer text. */
  function Cut(uuid: string): string {
    if |uuid| <= UUID_LENGTH then uuid else uuid[..UUID_LENGTH]
  }

  /** The life of a session: first it has no thread. Its thread, once launched, ends it: it takes the
      write lock, marks the session destroyed, gives the lock back, and frees the session. */
  datatype Phase = Unstarted | Running | Locked | Marked | Unlocked | Freed

  /** `holders` are the threads with a read lock, each as often as it has one. */
  datatype Session = Session(uuid: string, holders: multiset<nat>, phase: Phase) {
    predicate Destroyed() {
      phase in {Marked, Unlocked, Freed}
    }

    predicate WriteLocked() {
      phase in {Locked, Marked}
    }
  }

  /** Sessions are numbered in the order of their creation; the table maps uuids to numbers. */
  datatype Sessions = Sessions(all: seq<Session>, table: map<string, nat>, count: nat)

  const EMPTY := Sessions([], map[], 0)

  /** The calls. `admitted` is what the limits say of a request, `down` what the channel says of a
      request for a read lock; `id` is a session the caller has a pointer to. */
  datatype Call =
    | Request(use: Option<string>, generated: string, admitted: bool)
    | SetUuid(id: nat, name: string)
    | Locate(name: string, t: nat, down: bool)
    | ReadLock(id: nat, t: nat, down: bool)
    | Unlock(id: nat, t: nat)
    | Launch(id: nat)
    | TakeWriteLock(id: nat)
    | MarkDestroyed(id: nat)
    | DropWriteLock(id: nat)
    | Destroy(id: nat)

  predicate Usable(st: Sessions, id: nat) {
    id < |st.all| && st.all[id].phase != Freed
  }

  /** A pointer is to a session that is not freed; unlocking is by a holder; the write lock waits for
      the last holder; and the session's thread ends the session in order. A session without a thread
      is destroyed by whoever created it, at any time. */
  predicate Legal(st: Sessions, c: Call) {
    match c
    case Request(_, _, _) => true
    case SetUuid(id, _) => Usable(st, id)
    case Locate(_, _, _) => true
    case ReadLock(id, _, _) => Usable(st, id)
    case Unlock(id, t) => id < |st.all| && t in st.all[id].holders
    case Launch(id) => Usable(st, id)
    case TakeWriteLock(id) => id < |st.all| && st.all[id].phase == Running && st.all[id].holders == multiset{}
    case MarkDestroyed(id) => id < |st.all| && st.all[id].phase == Locked
    case DropWriteLock(id) => id < |st.all| && st.all[id].phase == Marked
    case Destroy(id) => id < |st.all| && st.all[id].phase in {Unstarted, Unlocked}
  }

  /** A read lock is given unless the session is marked, its channel is down, or it is write-locked. */
  predicate Grants(s: Session, down: bool) {
    !s.Destroyed() && !down && !s.WriteLocked()
  }

  function WithReader(st: Sessions, id: nat, t: nat): Sessions
    requires id < |st.all|
  {
    st.(all := st.all[id := st.all[id].(holders := st.all[id].holders + multiset{t})])
  }

  function WithPhase(st: Sessions, id: nat, phase: Phase): Sessions
    requires id < |st.all|
  {
    st.(all := st.all[id := st.all[id].(phase := phase)])
  }

  /** The session that a look-up finds and can lock. */
  function Located(st: Sessions, name: string, down: bool): Option<nat> {
    if name in st.table && st.table[name] < |st.all| && Grants(st.all[st.table[name]], down)
    then Some(st.table[name]) else None
  }

  predicate Creates(st: Sessions, c: Call) {
    c.Request? && !(c.use.Some? && c.use.value in st.table) && c.admitted
  }

  predicate Renames(st: Sessions, c: Call) {
    c.SetUuid? && c.name !in st.table
  }

  function NameOf(c: Call): string
    requires c.Request? || c.SetUuid?
  {
    if c.SetUuid? then Cut(c.name) else if c.use.Some? then Cut(c.use.value) else c.generated
  }

  function After(st: Sessions, c: Call): Sessions
    requires Legal(st, c)
  {
    match c
    case Request(_, _, _) => (
      if !Creates(st, c) then st
      else Sessions(
             st.all + [Session(NameOf(c), multiset{}, Unstarted)],
             st.table[NameOf(c) := |st.all|],
             st.count + 1))
    case SetUuid(id, _) => (
      if !Renames(st, c) then st
      else st.(all := st.all[id := st.all[id].(uuid := NameOf(c))],
               table := (st.table - {st.all[id].uuid})[NameOf(c) := id]))
    case Locate(name, t, down) => (
      var found := Located(st, name, down);
      if found.Some? then WithReader(st, found.value, t) else st)
    case ReadLock(id, t, down) => if Grants(st.all[id], down) then WithReader(st, id, t) else st
    case Unlock(id, t) => st.(all := st.all[id := st.all[id].(holders := st.all[id].holders - multiset{t})])
    case Launch(id) => if st.all[id].phase == Unstarted then WithPhase(st, id, Running) else st
    case TakeWriteLock(id) => WithPhase(st, id, Locked)
    case MarkDestroyed(id) => WithPhase(st, id, Marked)
    case DropWriteLock(id) => WithPhase(st, id, Unlocked)
    case Destroy(id) =>
      WithPhase(st, id, Freed).(
        table := st.table - {st.all[id].uuid},
        count := if st.count > 0 then st.count - 1 else 0)
  }

  // ----- What every call keeps

  function Live(st: Sessions): set<nat> {
    set id | 0 <= id < |st.all| && st.all[id].phase != Freed
  }

  /** The table's keys are the uuids of sessions that are not freed, and the count is the number of
      sessions not freed. */
  ghost predicate Tabled(st: Sessions) {
    && (forall name :: name in st.table ==> Usable(st, st.table[name]) && st.all[st.table[name]].uuid == name)
    && st.count == |Live(st)|
  }

  /** Nobody holds a session that is being ended or freed. */
  ghost predicate Safe(st: Sessions) {
    forall id :: 0 <= id < |st.all| && !Open(st.all[id].phase) ==> st.all[id].holders == multiset{}
  }

  predicate Open(p: Phase) {
    p == Unstarted || p == Running
  }

  /** Every session not freed is found under its uuid. */
  ghost predicate Listed(st: Sessions) {
    forall id: nat :: Usable(st, id) ==> st.all[id].uuid in st.table && st.table[st.all[id].uuid] == id
  }

  lemma LiveStays(st: Sessions, st': Sessions)
    requires |st'.all| == |st.all|
    requires forall id :: 0 <= id < |st.all| ==> (st.all[id].phase == Freed <==> st'.all[id].phase == Freed)
    ensures Live(st') == Live(st)
  {
  }

  lemma CreateKeepsTabled(st: Sessions, c: Call)
    requires Tabled(st) && Legal(st, c) && Creates(st, c)
    ensures Tabled(After(st, c))
  {
    assert Live(After(st, c)) == Live(st) + {|st.all|};
  }

  lemma RenameKeepsTabled(st: Sessions, c: Call)
    requires Tabled(st) && Legal(st, c) && Renames(st, c)
    ensures Tabled(After(st, c))
  {
    LiveStays(st, After(st, c));
  }

  lemma DestroyKeepsTabled(st: Sessions, c: Call)
    requires Tabled(st) && Legal(st, c) && c.Destroy?
    ensures Tabled(After(st, c))
  {
    assert Live(st) == Live(After(st, c)) + {c.id};
  }

  /** Locks and phases change one session and nothing about names. */
  lemma UpdateKeepsTabled(st: Sessions, id: nat, s: Session)
    requires Tabled(st) && id < |st.all| && s.uuid == st.all[id].uuid
    requires s.phase == Freed <==> st.all[id].phase == Freed
    ensures Tabled(st.(all := st.all[id := s]))
  {
    LiveStays(st, st.(all := st.all[id := s]));
  }

  lemma KeepsTabled(st: Sessions, c: Call)
    requires Tabled(st) && Legal(st, c)
    ensures Tabled(After(st, c))
  {
    if Creates(st, c) {
      CreateKeepsTabled(st, c);
    } else if Renames(st, c) {
      RenameKeepsTabled(st, c);
    } else if c.Destroy? {
      DestroyKeepsTabled(st, c);
    } else if After(st, c) != st {
      var id := if c.Locate? then st.table[c.name] else c.id;
      UpdateKeepsTabled(st, id, After(st, c).all[id]);
    }
  }

  /** The call frees a session that some thread holds: one without a thread of its own, for nothing waits
      for the holders then. */
  predicate FreesHeld(st: Sessions, c: Call)
    requires Legal(st, c)
  {
    c.Destroy? && st.all[c.id].holders != multiset{}
  }

  lemma UpdateKeepsSafeIff(st: Sessions, st': Sessions, id: nat, s: Session)
    requires Safe(st) && id < |st.all| && st'.all == st.all[id := s]
    ensures Safe(st') <==> Open(s.phase) || s.holders == multiset{}
  {
    assert st'.all[id] == s;
  }

  /** A call keeps holders safe exactly if it does not destroy a session that is held. */
  lemma KeepsSafeIff(st: Sessions, c: Call)
    requires Tabled(st) && Safe(st) && Legal(st, c)
    ensures Safe(After(st, c)) <==> !FreesHeld(st, c)
    ensures FreesHeld(st, c) ==> st.all[c.id].phase == Unstarted
  {
    var st' := After(st, c);
    if !c.Request? && st'.all != st.all {
      var id := if c.Locate? then st.table[c.name] else c.id;
      UpdateKeepsSafeIff(st, st', id, st'.all[id]);
    }
  }

  /** The name, once cut, is that of another session. (A generated uuid is short and, if generation
      does its work, new; it then never clashes.) */
  predicate Clashes(st: Sessions, c: Call) {
    || (Creates(st, c) && NameOf(c) in st.table)
    || (Renames(st, c) && NameOf(c) in st.table && st.table[NameOf(c)] != c.id)
  }

  /** The table stays complete exactly when no name clashes after it was cut: the test for
      duplicates looks up the name as given, but the table has it as cut. */
  lemma KeepsListedIff(st: Sessions, c: Call)
    requires Tabled(st) && Listed(st) && Legal(st, c)
    ensures Listed(After(st, c)) <==> !Clashes(st, c)
  {
    if Clashes(st, c) {
      var victim := st.table[NameOf(c)];
      assert Usable(After(st, c), victim) && After(st, c).all[victim].uuid == NameOf(c);
    }
  }

  lemma ListedCount(st: Sessions)
    requires Tabled(st) && Listed(st)
    ensures |st.table| == st.count
  {
    var ids := set name | name in st.table :: st.table[name];
    assert forall id :: id in Live(st) ==> st.all[id].uuid in st.table;
    assert ids == Live(st);
    ImageSize(st.table, ids);
  }

  lemma {:induction false} ImageSize(table: map<string, nat>, ids: set<nat>)
    requires ids == set name | name in table :: table[name]
    requires forall a, b :: a in table && b in table && a != b ==> table[a] != table[b]
    ensures |ids| == |table|
    decreases |table|
  {
    if table != map[] {
      var name :| name in table;
      var rest := table - {name};
      assert table == rest[name := table[name]];
      assert ids == (set n | n in rest :: rest[n]) + {table[name]};
      ImageSize(rest, set n | n in rest :: rest[n]);
    }
  }

  lemma LocateReadLocks(st: Sessions, name: string, t: nat, down: bool)
    requires Tabled(st) && name in st.table
    ensures Usable(st, st.table[name]) && st.all[st.table[name]].uuid == name
    ensures After(st, Locate(name, t, down)) == After(st, ReadLock(st.table[name], t, down))
    ensures Located(st, name, down) == if Grants(st.all[st.table[name]], down) then Some(st.table[name]) else None
  {
  }

  // ----- Runs

  ghost predicate LegalRun(st: Sessions, calls: seq<Call>)
    decreases |calls|
  {
    calls == [] || (Legal(st, calls[0]) && LegalRun(After(st, calls[0]), calls[1..]))
  }

  function RunOf(st: Sessions, calls: seq<Call>): Sessions
    requires LegalRun(st, calls)
    decreases |calls|
  {
    if calls == [] then st else RunOf(After(st, calls[0]), calls[1..])
  }

  /** No name of the run clashes. */
  ghost predicate Clashless(st: Sessions, calls: seq<Call>)
    requires LegalRun(st, calls)
    decreases |calls|
  {
    calls == [] || (!Clashes(st, calls[0]) && Clashless(After(st, calls[0]), calls[1..]))
  }

  /** Requests for a read lock that a thread was given in a run, less its unlocks, for one session. */
  function Locks(st: Sessions, calls: seq<Call>, id: nat, t: nat): int
    requires LegalRun(st, calls)
    decreases |calls|
  {
    if calls == [] then 0 else LockGain(st, calls[0], id, t) + Locks(After(st, calls[0]), calls[1..], id, t)
  }

  function LockGain(st: Sessions, c: Call, id: nat, t: nat): int
    requires Legal(st, c)
  {
    match c
    case Locate(name, u, down) => if u == t && Located(st, name, down) == Some(id) then 1 else 0
    case ReadLock(i, u, down) => if u == t && i == id && Grants(st.all[id], down) then 1 else 0
    case Unlock(i, u) => if u == t && i == id then -1 else 0
    case _ => 0
  }

  function Held(st: Sessions, id: nat, t: nat): nat {
    if id < |st.all| then st.all[id].holders[t] else 0
  }

  lemma LocksAreHeld(st: Sessions, c: Call, id: nat, t: nat)
    requires Tabled(st) && Legal(st, c)
    ensures Held(After(st, c), id, t) == Held(st, id, t) + LockGain(st, c, id, t)
  {
  }

  /** Over every run: the table is right, and the read locks that a thread has on a session are those it
      was given less those it gave back. */
  lemma {:induction false} RunsAreTabled(st: Sessions, calls: seq<Call>, id: nat, t: nat)
    requires Tabled(st) && LegalRun(st, calls)
    ensures Tabled(RunOf(st, calls))
    ensures Held(RunOf(st, calls), id, t) == Held(st, id, t) + Locks(st, calls, id, t)
    ensures Listed(st) && Clashless(st, calls) ==> Listed(RunOf(st, calls))
    decreases |calls|
  {
    if calls != [] {
      KeepsTabled(st, calls[0]);
      LocksAreHeld(st, calls[0], id, t);
      if Listed(st) {
        KeepsListedIff(st, calls[0]);
      }
      RunsAreTabled(After(st, calls[0]), calls[1..], id, t);
    }
  }

  /** No call of the run destroys a session that is held. */
  ghost predicate Guarded(st: Sessions, calls: seq<Call>)
    requires LegalRun(st, calls)
    decreases |calls|
  {
    calls == [] || (!FreesHeld(st, calls[0]) && Guarded(After(st, calls[0]), calls[1..]))
  }

  /** At every moment of the run nobody holds a session that is being ended or freed. */
  ghost predicate AlwaysSafe(st: Sessions, calls: seq<Call>)
    requires LegalRun(st, calls)
    decreases |calls|
  {
    Safe(st) && (calls == [] || AlwaysSafe(After(st, calls[0]), calls[1..]))
  }

  /** A run is safe throughout exactly if no call in it destroys a session that is held. */
  lemma {:induction false} SafeIffGuarded(st: Sessions, calls: seq<Call>)
    requires Tabled(st) && Safe(st) && LegalRun(st, calls)
    ensures AlwaysSafe(st, calls) <==> Guarded(st, calls)
    ensures Guarded(st, calls) ==> Safe(RunOf(st, calls))
    decreases |calls|
  {
    if calls != [] {
      KeepsTabled(st, calls[0]);
      KeepsSafeIff(st, calls[0]);
      if !FreesHeld(st, calls[0]) {
        SafeIffGuarded(After(st, calls[0]), calls[1..]);
      } else {
        assert !AlwaysSafe(After(st, calls[0]), calls[1..]);
      }
    }
  }

  /** Over every guarded run: a session that a thread locked more often than it unlocked is neither freed
      nor even being ended, so the thread may use it. */
  lemma HeldIsAlive(calls: seq<Call>, id: nat, t: nat)
    requires LegalRun(EMPTY, calls) && Guarded(EMPTY, calls) && Locks(EMPTY, calls, id, t) > 0
    ensures Usable(RunOf(EMPTY, calls), id) && Open(RunOf(EMPTY, calls).all[id].phase)
  {
    RunsAreTabled(EMPTY, calls, id, t);
    SafeIffGuarded(EMPTY, calls);
    assert RunOf(EMPTY, calls).all[id].holders[t] > 0;
  }

  /** The guard is needed: a session that was found and locked is freed when its creator gives it up
      before its thread was launched. */
  lemma HeldIsFreed(name: string, t: nat)
    requires |name| <= UUID_LENGTH
    ensures var calls := [Request(Some(name), "", true), Locate(name, t, false), Destroy(0)];
            && LegalRun(EMPTY, calls) && !Guarded(EMPTY, calls)
            && Locks(EMPTY, calls, 0, t) == 1
            && |RunOf(EMPTY, calls).all| == 1 && RunOf(EMPTY, calls).all[0].phase == Freed
  {
    var c1, c2, c3 := Request(Some(name), "", true), Locate(name, t, false), Destroy(0);
    assert [c1, c2, c3][1..] == [c2, c3] && [c2, c3][1..] == [c3] && [c3][1..] == [];
    var st1 := After(EMPTY, c1);
    assert st1.table == map[name := 0] && Located(st1, name, false) == Some(0);
    var st2 := After(st1, c2);
    assert t in st2.all[0].holders && FreesHeld(st2, c3);
    var st3 := After(st2, c3);
    assert LegalRun(st3, []) && LegalRun(st2, [c3]) && LegalRun(st1, [c2, c3]);
    assert RunOf(st2, [c3]) == st3 && RunOf(st1, [c2, c3]) == st3;
    assert !Guarded(st2, [c3]) && !Guarded(st1, [c2, c3]);
    assert LockGain(st2, c3, 0, t) == 0 && LockGain(st1, c2, 0, t) == 1 && LockGain(EMPTY, c1, 0, t) == 0;
    assert Locks(st3, [], 0, t) == 0;
    assert Locks(st2, [c3], 0, t) == LockGain(st2, c3, 0, t) + Locks(st3, [], 0, t);
    assert Locks(st1, [c2, c3], 0, t) == LockGain(st1, c2, 0, t) + Locks(st2, [c3], 0, t);
  }

  /** A session that nobody holds can be launched and then be brought to its end by its thread: no look-up
      gives it any more from the write lock on, and in the end it is freed and not in the table. */
  lemma EndOfLife(st: Sessions, id: nat)
    requires Tabled(st) && id < |st.all| && st.all[id].phase == Unstarted && st.all[id].holders == multiset{}
    ensures var c1, c2 := Launch(id), TakeWriteLock(id);
            && Legal(st, c1) && Legal(After(st, c1), c2) && EndsFrom(After(After(st, c1), c2), id)
  {
  }

  predicate EndsFrom(st: Sessions, id: nat)
    requires id < |st.all|
  {
    && !Grants(st.all[id], false) && Legal(st, MarkDestroyed(id))
    && var st3 := After(st, MarkDestroyed(id));
       && !Grants(st3.all[id], false) && Legal(st3, DropWriteLock(id))
       && var st4 := After(st3, DropWriteLock(id));
          && !Grants(st4.all[id], false) && Legal(st4, Destroy(id))
          && var st5 := After(st4, Destroy(id));
             st5.all[id].phase == Freed && st5.all[id].uuid !in st5.table
  }

  /** Over every run: a look-up gives a session with that uuid that is not marked destroyed. */
  lemma LocatedIsAlive(calls: seq<Call>, name: string, down: bool)
    requires LegalRun(EMPTY, calls) && Located(RunOf(EMPTY, calls), name, down).Some?
    ensures var st, id := RunOf(EMPTY, calls), Located(RunOf(EMPTY, calls), name, down).value;
            Usable(st, id) && !st.all[id].Destroyed() && st.all[id].uuid == name
  {
    RunsAreTabled(EMPTY, calls, 0, 0);
  }

  /** Over every run without a clash the count is the size of the table, and every session not freed
      is found under its uuid. */
  lemma CountIsTableSize(calls: seq<Call>)
    requires LegalRun(EMPTY, calls) && Clashless(EMPTY, calls)
    ensures Listed(RunOf(EMPTY, calls)) && RunOf(EMPTY, calls).count == |RunOf(EMPTY, calls).table|
  {
    RunsAreTabled(EMPTY, calls, 0, 0);
    ListedCount(RunOf(EMPTY, calls));
  }

  /** A uuid that is asked for fits the field, and one that is generated is new. */
  predicate IsOrderly(st: Sessions, c: Call) {
    match c
    case Request(use, generated, _) => if use.Some? then |use.value| <= 256 else generated !in st.table
    case SetUuid(_, name) => |name| <= 256
    case _ => true
  }

  ghost predicate Orderly(st: Sessions, calls: seq<Call>)
    requires LegalRun(st, calls)
    decreases |calls|
  {
    calls == [] || (IsOrderly(st, calls[0]) && Orderly(After(st, calls[0]), calls[1..]))
  }

  /** The tests for duplicates do their work: with such uuids no name ever clashes. */
  lemma {:induction false} OrderlyIsClashless(st: Sessions, calls: seq<Call>)
    requires LegalRun(st, calls) && Orderly(st, calls)
    ensures Clashless(st, calls)
    decreases |calls|
  {
    if calls != [] {
      assert !Clashes(st, calls[0]);
      OrderlyIsClashless(After(st, calls[0]), calls[1..]);
    }
  }

  /** Over every run with such uuids every session not freed is found under its uuid, and the count is the
      size of the table. */
  lemma OrderlyRunsAreListed(calls: seq<Call>)
    requires LegalRun(EMPTY, calls) && Orderly(EMPTY, calls)
    ensures Listed(RunOf(EMPTY, calls)) && RunOf(EMPTY, calls).count == |RunOf(EMPTY, calls).table|
  {
    OrderlyIsClashless(EMPTY, calls);
    CountIsTableSize(calls);
  }

  /** A request is refused exactly for a uuid that is taken or by the limits. Otherwise there is one more
      session, and a look-up of its uuid finds it. */
  lemma RequestIff(st: Sessions, use: Option<string>, generated: string, admitted: bool)
    ensures var st' := After(st, Request(use, generated, admitted));
            if !admitted || (use.Some? && use.value in st.table) then st' == st
            else
              var name := if use.Some? then Cut(use.value) else generated;
              |st'.all| == |st.all| + 1 && st'.count == st.count + 1 && Located(st', name, false) == Some(|st.all|)
  {
  }

  /** A renaming is refused exactly for a uuid that is taken. Otherwise the session is found under the new
      one and no longer under the old one. */
  lemma RenameIff(st: Sessions, id: nat, name: string)
    requires Usable(st, id) && Tabled(st) && Listed(st)
    ensures var st' := After(st, SetUuid(id, name));
            if name in st.table then st' == st
            else st'.all[id].uuid == Cut(name) && Cut(name) in st'.table && st'.table[Cut(name)] == id
                 && (st.all[id].uuid != Cut(name) ==> st.all[id].uuid !in st'.table)
  {
  }

  /** A uuid longer than the field hides the session whose uuid it begins with. */
  lemma LongNamesClash(name: string, g: string)
    requires |name| > 256
    ensures var calls := [Request(Some(Cut(name)), g, true), Request(Some(name), g, true)];
            && LegalRun(EMPTY, calls) && !Clashless(EMPTY, calls)
            && RunOf(EMPTY, calls).count == 2 && |RunOf(EMPTY, calls).table| == 1
  {
    var c1, c2 := Request(Some(Cut(name)), g, true), Request(Some(name), g, true);
    assert [c1, c2][1..] == [c2] && [c2][1..] == [];
    var st1 := After(EMPTY, c1);
    assert st1.table == map[Cut(name) := 0];
    var st2 := After(st1, c2);
    assert st2.table == map[Cut(name) := 1];
    assert RunOf(st1, [c2]) == RunOf(st2, []);
    assert Clashes(st1, c2) && !Clashless(st1, [c2]);
  }
}
