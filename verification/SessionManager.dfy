/** The session manager: the table, the sessions' read/write locks, and the end of a session thread
    (src/switch_core_session.c, src/switch_core_rwlock.c). */
module SessionManager {
  import opened Common
  import T = SessionTable

  class Session {
    var uuid: string
    var readers: nat
    var writer: bool
    var destroyed: bool
    var started: bool

    constructor (uuid: string)
      ensures this.uuid == uuid && readers == 0 && !writer && !destroyed && !started
    {
      this.uuid, readers, writer, destroyed, started := uuid, 0, false, false, false;
    }

    ghost predicate Shows(s: T.Session)
      reads this
    {
      && uuid == s.uuid && readers == |s.holders| && writer == s.WriteLocked()
      && (s.phase != T.Freed ==> destroyed == s.Destroyed() && started == (s.phase != T.Unstarted))
    }

    method TryReadLock() returns (ok: bool)
      modifies this`readers
      ensures ok == !writer && readers == old(readers) + if ok then 1 else 0
    {
      ok := !writer;
      if ok {
        readers := readers + 1;
      }
    }

    method DropReadLock()
      requires readers > 0
      modifies this`readers
      ensures readers == old(readers) - 1
    {
      readers := readers - 1;
    }

    /** switch_core_session_read_lock. A session that is going down is locked only to wake its thread. */
    method ReadLock(down: bool) returns (ok: bool)
      modifies this`readers
      ensures ok == (!destroyed && !down && !writer) && readers == old(readers) + if ok then 1 else 0
    {
      ok := false;
      if destroyed || down {
        var pinged := TryReadLock();
        if pinged {
          DropReadLock();
        }
      } else {
        ok := TryReadLock();
      }
    }
  }

  class Manager {
    var table: map<string, Session>
    var sessionCount: nat
    ghost var sessions: seq<Session>
    ghost var st: T.Sessions

    /** The objects show the values. */
    ghost predicate Mirrors()
      reads this, sessions
    {
      && |sessions| == |st.all| && sessionCount == st.count && table.Keys == st.table.Keys
      && (forall i, j :: 0 <= i < j < |sessions| ==> sessions[i] != sessions[j])
      && (forall i :: 0 <= i < |sessions| ==> sessions[i].Shows(st.all[i]))
      && (forall name :: name in table ==> st.table[name] < |sessions| && table[name] == sessions[st.table[name]])
    }

    ghost predicate Valid()
      reads this, sessions
    {
      Mirrors() && T.Tabled(st)
    }

    constructor ()
      ensures Valid() && st == T.EMPTY
    {
      table, sessionCount, sessions, st := map[], 0, [], T.EMPTY;
    }

    /** switch_core_session_request_uuid */
    method Request(use: Option<string>, generated: string, admitted: bool) returns (s: Session?)
      requires Valid()
      modifies this
      ensures Valid() && st == T.After(old(st), T.Request(use, generated, admitted))
      ensures s != null <==> T.Creates(old(st), T.Request(use, generated, admitted))
      ensures s != null ==> fresh(s) && sessions == old(sessions) + [s]
      ensures s == null <==> !admitted || (use.Some? && use.value in old(table))
      ensures s == null ==> st == old(st) && table == old(table) && sessionCount == old(sessionCount)
      ensures s != null ==> s.uuid in table && table[s.uuid] == s && sessionCount == old(sessionCount) + 1
    {
      if use.Some? && use.value in table {
        return null;
      }
      if !admitted {
        return null;
      }
      T.CreateKeepsTabled(st, T.Request(use, generated, admitted));
      s := new Session(if use.Some? then T.Cut(use.value) else generated);
      Insert(s, T.After(st, T.Request(use, generated, admitted)));
    }

    method Insert(s: Session, ghost st': T.Sessions)
      requires Mirrors() && s !in sessions && s.readers == 0 && !s.writer && !s.destroyed && !s.started
      requires st' == T.Sessions(
                        st.all + [T.Session(s.uuid, multiset{}, T.Unstarted)],
                        st.table[s.uuid := |st.all|],
                        st.count + 1)
      modifies this
      ensures Mirrors() && st == st' && sessions == old(sessions) + [s]
    {
      table := table[s.uuid := s];
      sessionCount := sessionCount + 1;
      sessions, st := sessions + [s], st';
    }

    /** switch_core_session_set_uuid */
    method SetUuid(s: Session, ghost id: nat, name: string) returns (ok: bool)
      requires Valid() && T.Legal(st, T.SetUuid(id, name)) && s == sessions[id]
      modifies this`table, this`st, s`uuid
      ensures Valid() && st == T.After(old(st), T.SetUuid(id, name)) && ok == T.Renames(old(st), T.SetUuid(id, name))
      ensures ok <==> name !in old(table)
      ensures ok ==> s.uuid == T.Cut(name) && s.uuid in table && table[s.uuid] == s
      ensures !ok ==> st == old(st) && table == old(table) && s.uuid == old(s.uuid)
    {
      if name in table {
        return false;
      }
      T.RenameKeepsTabled(st, T.SetUuid(id, name));
      Rename(s, id, T.Cut(name), T.After(st, T.SetUuid(id, name)));
      ok := true;
    }

    method Rename(s: Session, ghost id: nat, name: string, ghost st': T.Sessions)
      requires Mirrors() && id < |sessions| && s == sessions[id]
      requires st' == st.(all := st.all[id := st.all[id].(uuid := name)], table := (st.table - {s.uuid})[name := id])
      modifies this`table, this`st, s`uuid
      ensures Mirrors() && st == st'
    {
      table := table - {s.uuid};
      s.uuid := name;
      table := table[s.uuid := s];
      st := st';
    }

    /** switch_core_session_locate, and with `down` false switch_core_session_force_locate. */
    method Locate(name: string, t: nat, down: bool) returns (s: Session?)
      requires Valid()
      modifies this`st, sessions`readers
      ensures Valid() && st == T.After(old(st), T.Locate(name, t, down))
      ensures var found := T.Located(old(st), name, down);
              if found.Some? then s == sessions[found.value] && !s.destroyed && s.uuid == name else s == null
      ensures s != null <==> name in table && !table[name].destroyed && !table[name].writer && !down
      ensures s != null ==> s == table[name] && s.readers == old(table[name].readers) + 1
    {
      if name !in table {
        return null;
      }
      s := table[name];
      T.LocateReadLocks(st, name, t, down);
      var ok := ReadLock(s, st.table[name], t, down);
      if !ok {
        s := null;
      }
    }

    /** switch_core_session_read_lock, and switch_core_session_read_lock_hangup with another test of
        the channel. */
    method ReadLock(s: Session, ghost id: nat, t: nat, down: bool) returns (ok: bool)
      requires Valid() && T.Legal(st, T.ReadLock(id, t, down)) && s == sessions[id]
      modifies this`st, s`readers
      ensures Valid() && st == T.After(old(st), T.ReadLock(id, t, down)) && ok == T.Grants(old(st).all[id], down)
    {
      T.KeepsTabled(st, T.ReadLock(id, t, down));
      ok := s.ReadLock(down);
      st := T.After(st, T.ReadLock(id, t, down));
    }

    /** switch_core_session_rwunlock by a thread with a read lock. */
    method Unlock(s: Session, ghost id: nat, t: nat)
      requires Valid() && T.Legal(st, T.Unlock(id, t)) && s == sessions[id]
      modifies this`st, s`readers
      ensures Valid() && st == T.After(old(st), T.Unlock(id, t))
    {
      T.KeepsTabled(st, T.Unlock(id, t));
      s.DropReadLock();
      st := T.After(st, T.Unlock(id, t));
    }

    /** switch_core_session_thread_launch, which does nothing the second time. */
    method Launch(s: Session, ghost id: nat)
      requires Valid() && T.Legal(st, T.Launch(id)) && s == sessions[id]
      modifies this`st, s`started
      ensures Valid() && st == T.After(old(st), T.Launch(id))
    {
      T.KeepsTabled(st, T.Launch(id));
      if !s.started {
        s.started := true;
      }
      st := T.After(st, T.Launch(id));
    }

    /** switch_core_session_write_lock at the end of switch_core_session_thread, when it is free. */
    method TakeWriteLock(s: Session, ghost id: nat)
      requires Valid() && T.Legal(st, T.TakeWriteLock(id)) && s == sessions[id]
      modifies this`st, s`writer
      ensures Valid() && old(s.readers) == 0 && !old(s.writer) && st == T.After(old(st), T.TakeWriteLock(id))
    {
      T.KeepsTabled(st, T.TakeWriteLock(id));
      s.writer := true;
      st := T.After(st, T.TakeWriteLock(id));
    }

    method MarkDestroyed(s: Session, ghost id: nat)
      requires Valid() && T.Legal(st, T.MarkDestroyed(id)) && s == sessions[id]
      modifies this`st, s`destroyed
      ensures Valid() && st == T.After(old(st), T.MarkDestroyed(id))
    {
      T.KeepsTabled(st, T.MarkDestroyed(id));
      s.destroyed := true;
      st := T.After(st, T.MarkDestroyed(id));
    }

    method DropWriteLock(s: Session, ghost id: nat)
      requires Valid() && T.Legal(st, T.DropWriteLock(id)) && s == sessions[id]
      modifies this`st, s`writer
      ensures Valid() && st == T.After(old(st), T.DropWriteLock(id))
    {
      T.KeepsTabled(st, T.DropWriteLock(id));
      s.writer := false;
      st := T.After(st, T.DropWriteLock(id));
    }

    /** switch_core_session_perform_destroy: the session leaves the table and is freed, at the end of its
        thread or before it was launched. Only in the first case is it certain that nobody holds it. */
    method Destroy(s: Session, ghost id: nat)
      requires Valid() && T.Legal(st, T.Destroy(id)) && s == sessions[id]
      modifies this`table, this`sessionCount, this`st
      ensures Valid() && st == T.After(old(st), T.Destroy(id))
    {
      T.DestroyKeepsTabled(st, T.Destroy(id));
      table := table - {s.uuid};
      if sessionCount > 0 {
        sessionCount := sessionCount - 1;
      }
      st := T.After(st, T.Destroy(id));
    }
  }
}
