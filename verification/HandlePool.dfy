/** The pool of database handles: a linked list with counters (src/switch_core_sqldb.c). */
module HandlePool {
  import opened Common
  import opened HandleCache

  class Handle {
    var hash: nat
    var threadHash: nat
    var useCount: nat
    var lastUsed: int
    var prune: bool
    var mutexOwner: Option<nat>
    var mutexDepth: nat
    var next: Handle?

    ghost function Value(): Entry
      reads this
    {
      Entry(hash, threadHash, useCount, lastUsed, prune, mutexOwner, mutexDepth)
    }

    constructor ()
      ensures Value() == Entry(0, 0, 0, 0, false, None, 0) && next == null
    {
      hash, threadHash, useCount, lastUsed, prune, mutexOwner, mutexDepth, next := 0, 0, 0, 0, false, None, 0, null;
    }

    /** A try-lock by a thread, which a nested mutex grants again to the thread that has it. */
    method TryLock(t: nat) returns (ok: bool)
      modifies this`mutexOwner, this`mutexDepth
      ensures ok == CanLock(old(Value()), t)
      ensures Value() == if ok then Lock(old(Value()), t) else old(Value())
    {
      ok := mutexDepth == 0 || mutexOwner == Some(t);
      if ok {
        mutexOwner, mutexDepth := Some(t), mutexDepth + 1;
      }
    }

    /** An unlock by a thread, which a nested mutex refuses to any but the one that has it. */
    method ReleaseLock(t: nat)
      modifies this`mutexOwner, this`mutexDepth
      ensures Value() == var e := old(Value()); if e.depth > 0 && e.owner == Some(t) then HandleCache.Unlock(e) else e
    {
      if mutexDepth > 0 && mutexOwner == Some(t) {
        mutexDepth := mutexDepth - 1;
        if mutexDepth == 0 {
          mutexOwner := None;
        }
      }
    }

    /** What add_handle does to the new handle itself. */
    method Open(db: nat, t: nat)
      requires Value() == Entry(0, 0, 0, 0, false, None, 0)
      modifies this
      ensures Value() == Created(db, t) && next == old(next)
    {
      hash := db;
      threadHash := t;
      useCount := useCount + 1;
      var ok := TryLock(t);
    }

    method Drop(t: nat, now: int)
      modifies this
      ensures Value() == ReleasedBy(old(Value()), t, now) && next == old(next)
    {
      lastUsed := now;
      if useCount > 0 {
        useCount := useCount - 1;
        if useCount == 0 {
          threadHash := RELEASED;
        }
      }
      ReleaseLock(t);
    }
  }

  class Manager {
    var handlePool: Handle?
    var totalHandles: nat
    var totalUsed: int
    ghost var nodes: seq<Handle>
    ghost var entries: seq<Entry>
    /** The threads between the look-up and the adding of a request. */
    ghost var waiting: map<nat, nat>

    ghost function P(): Pool
      reads this
    {
      Pool(entries, waiting)
    }

    /** The pool is a chain of distinct handles whose values are the entries. */
    ghost predicate Linked()
      reads this, nodes
    {
      && |entries| == |nodes| == totalHandles
      && (forall i, j :: 0 <= i < j < |nodes| ==> nodes[i] != nodes[j])
      && handlePool == NodeAt(0)
      && (forall i {:trigger nodes[i].next} :: 0 <= i < |nodes| ==> nodes[i].next == NodeAt(i + 1))
      && (forall i :: 0 <= i < |nodes| ==> nodes[i].Value() == entries[i])
    }

    ghost function NodeAt(i: nat): Handle?
      reads this
    {
      if i < |nodes| then nodes[i] else null
    }

    ghost predicate Valid()
      reads this, nodes
    {
      Linked() && SoundPool(P()) && totalUsed == Total(AllUses(), entries)
    }

    constructor ()
      ensures Valid() && nodes == []
    {
      handlePool, totalHandles, totalUsed, nodes, entries, waiting := null, 0, 0, [], [], map[];
    }

    method TryLockAt(h: Handle, ghost i: nat, t: nat) returns (ok: bool)
      requires Linked() && i < |nodes| && h == nodes[i]
      modifies this`entries, h`mutexOwner, h`mutexDepth
      ensures Linked() && ok == CanLock(old(entries)[i], t)
      ensures entries == if ok then old(entries)[i := Lock(old(entries)[i], t)] else old(entries)
    {
      ok := h.TryLock(t);
      if ok {
        entries := entries[i := Lock(entries[i], t)];
      }
    }

    /** The first loop of get_handle. It does not stop at a match, so it would lock every handle the
        thread has of the database: there is at most one. */
    method LockHeld(db: nat, t: nat) returns (r: Handle?, ghost k: nat)
      requires Linked() && Sound(entries) && t != RELEASED
      modifies this`entries, nodes
      ensures Linked()
      ensures r == null ==> entries == old(entries) && forall j :: 0 <= j < |entries| ==> !HeldBy(entries[j], db, t)
      ensures r != null ==> k < |nodes| && r == nodes[k] && HeldBy(old(entries)[k], db, t)
                            && entries == old(entries)[k := Lock(old(entries)[k], t)]
    {
      r, k := null, 0;
      var ptr := handlePool;
      ghost var i := 0;
      while ptr != null
        invariant Linked() && i <= |nodes| && ptr == NodeAt(i)
        invariant r == null ==> entries == old(entries) && forall j :: 0 <= j < i ==> !HeldBy(entries[j], db, t)
        invariant r != null ==> k < i && r == nodes[k] && HeldBy(old(entries)[k], db, t)
                                && entries == old(entries)[k := Lock(old(entries)[k], t)]
        decreases |nodes| - i
      {
        if ptr.threadHash == t && ptr.hash == db && !ptr.prune {
          assert Accounted(old(entries)[i]);
          var ok := TryLockAt(ptr, i, t);
          if ok {
            r, k := ptr, i;
          }
        }
        ptr := ptr.next;
        i := i + 1;
      }
    }

    /** The second loop of get_handle: the first idle handle of the database. */
    method LockIdle(db: nat, t: nat) returns (r: Handle?, ghost k: nat)
      requires Linked() && Sound(entries)
      modifies this`entries, nodes
      ensures Linked()
      ensures r == null ==> entries == old(entries) && forall j :: 0 <= j < |entries| ==> !IdleFor(entries[j], db)
      ensures r != null ==> k < |nodes| && r == nodes[k] && IdleFor(old(entries)[k], db)
                            && (forall j :: 0 <= j < k ==> !IdleFor(old(entries)[j], db))
                            && entries == old(entries)[k := Lock(old(entries)[k], t)]
    {
      var ptr := handlePool;
      k := 0;
      while ptr != null
        invariant Linked() && k <= |nodes| && ptr == NodeAt(k) && entries == old(entries)
        invariant forall j :: 0 <= j < k ==> !IdleFor(entries[j], db)
        decreases |nodes| - k
      {
        if ptr.hash == db && ptr.useCount == 0 && !ptr.prune {
          assert Accounted(entries[k]);
          var ok := TryLockAt(ptr, k, t);
          if ok {
            return ptr, k;
          }
        }
        ptr := ptr.next;
        k := k + 1;
      }
      r := null;
    }

    method LockChosen(db: nat, t: nat) returns (r: Handle?, ghost k: nat)
      requires Linked() && Sound(entries) && t != RELEASED
      modifies this`entries, nodes
      ensures Linked() && Chosen(old(entries), db, t) == if r == null then None else Some(k)
      ensures r == null ==> entries == old(entries)
      ensures r != null ==> k < |nodes| && r == nodes[k] && entries == old(entries)[k := Lock(old(entries)[k], t)]
    {
      r, k := LockHeld(db, t);
      if r == null {
        r, k := LockIdle(db, t);
      } else {
        HeldIsChosen(old(entries), db, t, k);
      }
    }

    method MarkUsed(h: Handle, ghost k: nat, db: nat, t: nat)
      requires Linked() && k < |nodes| && h == nodes[k]
      modifies this`entries, this`totalUsed, h
      ensures Linked() && totalUsed == old(totalUsed) + 1
      ensures var e := old(entries)[k];
              entries == old(entries)[k := e.(useCount := e.useCount + 1, db := db, thread := t)]
    {
      h.useCount := h.useCount + 1;
      totalUsed := totalUsed + 1;
      h.hash := db;
      h.threadHash := t;
      entries := entries[k := h.Value()];
    }

    /** The handles are right, whatever the waiting threads. */
    ghost predicate Counted()
      reads this, nodes
    {
      Linked() && Sound(entries) && totalUsed == Total(AllUses(), entries)
    }

    /** get_handle: the handle the thread has, otherwise the first idle one, otherwise none. */
    method GetHandle(db: nat, t: nat) returns (r: Handle?, ghost k: nat)
      requires Counted() && t != RELEASED
      modifies this`entries, this`totalUsed, nodes
      ensures Counted() && Chosen(old(entries), db, t) == if r == null then None else Some(k)
      ensures r == null ==> entries == old(entries)
      ensures r != null ==> k < |nodes| && r == nodes[k] && entries == old(entries)[k := Taken(old(entries)[k], t)]
    {
      r, k := LockChosen(db, t);
      if r != null {
        ChosenIsFree(old(entries), db, t);
        TakeChosen(old(entries), db, t, k);
        MarkUsed(r, k, db, t);
        assert entries == old(entries)[k := Taken(old(entries)[k], t)];
      }
    }

    method LinkFirst(h: Handle)
      requires Linked() && h !in nodes
      modifies this`handlePool, this`totalHandles, this`nodes, this`entries, h`next
      ensures Linked() && nodes == [h] + old(nodes) && entries == [h.Value()] + old(entries)
    {
      h.next := handlePool;
      handlePool := h;
      totalHandles := totalHandles + 1;
      nodes, entries := [h] + nodes, [h.Value()] + entries;
    }

    /** add_handle: a new handle goes to the front, used and locked by the thread. */
    method AddHandle(h: Handle, db: nat, t: nat)
      requires Counted() && t != RELEASED && h !in nodes && h.Value() == Entry(0, 0, 0, 0, false, None, 0)
      requires HasNone(entries, db, t)
      modifies this`handlePool, this`totalHandles, this`totalUsed, this`nodes, this`entries, h
      ensures Counted() && nodes == [h] + old(nodes) && entries == [Created(db, t)] + old(entries)
    {
      AddCreated(entries, db, t);
      h.Open(db, t);
      totalUsed := totalUsed + 1;
      LinkFirst(h);
    }

    method Stamp(h: Handle, ghost k: nat, now: int)
      requires Counted() && k < |nodes| && h == nodes[k]
      modifies this`entries, h`lastUsed
      ensures Counted() && entries == old(entries)[k := old(entries)[k].(lastUsed := now)]
    {
      StampKeeps(entries, k, now);
      h.lastUsed := now;
      entries := entries[k := entries[k].(lastUsed := now)];
    }

    /** The first half of _switch_cache_db_get_db_handle, under the pool's mutex. */
    method LookUp(db: nat, t: nat, now: int) returns (r: Handle?)
      requires Valid() && Legal(P(), HandleCache.LookUp(db, t, now))
      modifies this`entries, this`totalUsed, this`waiting, nodes
      ensures Valid() && P() == After(old(P()), HandleCache.LookUp(db, t, now))
      ensures var k := Chosen(old(entries), db, t);
              if k.Some? then r == nodes[k.value] else r == null && t in waiting && waiting[t] == db
    {
      CallKeepsSound(P(), HandleCache.LookUp(db, t, now));
      r := GetStamped(db, t, now);
      if r == null {
        waiting := waiting[t := db];
      }
    }

    method GetStamped(db: nat, t: nat, now: int) returns (r: Handle?)
      requires Counted() && t != RELEASED
      modifies this`entries, this`totalUsed, nodes
      ensures Counted() && entries == LookedUp(old(entries), db, t, now)
      ensures var k := Chosen(old(entries), db, t); if k.Some? then r == nodes[k.value] else r == null
    {
      ghost var k;
      r, k := GetHandle(db, t);
      if r != null {
        Stamp(r, k, now);
        StampChosen(old(entries), db, t, now, k);
      }
    }

    method Create(db: nat, t: nat, now: int) returns (r: Handle)
      requires Counted() && t != RELEASED && HasNone(entries, db, t)
      modifies this`handlePool, this`totalHandles, this`totalUsed, this`nodes, this`entries
      ensures Counted() && entries == Added(old(entries), db, t, now) && fresh(r) && nodes == [r] + old(nodes)
    {
      StampCreated(entries, db, t, now);
      r := new Handle();
      AddHandle(r, db, t);
      Stamp(r, 0, now);
    }

    /** The second half, under the mutex again, after a connection has been made. Other threads may have
        used the pool in between. */
    method Add(db: nat, t: nat, now: int) returns (r: Handle)
      requires Valid() && Legal(P(), HandleCache.Add(db, t, now))
      modifies this`handlePool, this`totalHandles, this`totalUsed, this`nodes, this`entries, this`waiting
      ensures Valid() && P() == After(old(P()), HandleCache.Add(db, t, now))
      ensures fresh(r) && nodes == [r] + old(nodes)
    {
      CallKeepsSound(P(), HandleCache.Add(db, t, now));
      r := Create(db, t, now);
      waiting := waiting - {t};
    }

    /** No connection could be made. */
    method GiveUp(t: nat)
      requires Valid() && Legal(P(), HandleCache.GiveUp(t))
      modifies this`waiting
      ensures Valid() && P() == After(old(P()), HandleCache.GiveUp(t))
    {
      CallKeepsSound(P(), HandleCache.GiveUp(t));
      waiting := waiting - {t};
    }

    /** _switch_cache_db_get_db_handle without interruption: gives a handle of the database to the thread,
        a new one if the thread has none and none is idle. */
    method Request(db: nat, t: nat, now: int, connects: bool) returns (r: Handle?)
      requires Valid() && t != RELEASED && t !in waiting
      modifies this, nodes
      ensures Valid() && waiting == old(waiting)
      ensures var k := Chosen(old(entries), db, t);
              if k.Some? then nodes == old(nodes) && r == nodes[k.value]
                              && entries == LookedUp(old(entries), db, t, now)
              else if connects then r != null && fresh(r) && nodes == [r] + old(nodes)
                                    && entries == Added(old(entries), db, t, now)
              else r == null && nodes == old(nodes) && entries == old(entries)
    {
      r := LookUp(db, t, now);
      if r == null {
        assert waiting - {t} == old(waiting);
        if connects {
          r := Add(db, t, now);
        } else {
          GiveUp(t);
        }
      }
    }

    /** switch_cache_db_release_db_handle, by any thread. It keeps the pool right exactly if the thread
        uses the handle. */
    method Release(h: Handle, ghost k: nat, t: nat, now: int)
      requires Valid() && k < |nodes| && h == nodes[k]
      modifies this`entries, this`totalUsed, h
      ensures Linked() && entries == old(entries)[k := ReleasedBy(old(entries)[k], t, now)]
      ensures totalUsed == old(totalUsed) - 1
      ensures Valid() <==> Legal(old(P()), HandleCache.Release(k, t, now))
      ensures Valid() ==> P() == After(old(P()), HandleCache.Release(k, t, now))
    {
      ReleaseSoundIff(entries, k, t, now);
      if UsedBy(entries, k, t) {
        CallKeepsSound(P(), HandleCache.Release(k, t, now));
      }
      DropUse(h, k, t, now);
    }

    method DropUse(h: Handle, ghost k: nat, t: nat, now: int)
      requires Linked() && k < |nodes| && h == nodes[k]
      modifies this`entries, this`totalUsed, h
      ensures Linked() && entries == old(entries)[k := ReleasedBy(old(entries)[k], t, now)]
      ensures totalUsed == old(totalUsed) - 1
    {
      h.Drop(t, now);
      totalUsed := totalUsed - 1;
      entries := entries[k := h.Value()];
    }

    /** del_handle: takes the handle out of the chain, and does nothing if it is not in it. */
    method DelHandle(h: Handle)
      requires Linked()
      modifies this`handlePool, this`totalHandles, this`nodes, this`entries, nodes`next
      ensures Linked() && totalUsed == old(totalUsed)
      ensures h !in nodes && (h !in old(nodes) ==> nodes == old(nodes) && entries == old(entries))
      ensures forall k :: 0 <= k < |old(nodes)| && old(nodes)[k] == h ==>
                nodes == Without(old(nodes), k) && entries == Without(old(entries), k)
    {
      var ptr, last: Handle? := handlePool, null;
      ghost var i := 0;
      while ptr != null
        invariant Linked() && i <= |nodes| && ptr == NodeAt(i) && last == (if i == 0 then null else nodes[i - 1])
        invariant h !in nodes[..i] && nodes == old(nodes) && entries == old(entries)
        decreases |nodes| - i
      {
        if ptr == h {
          Unlink(i, last, h);
          return;
        }
        last, ptr := ptr, ptr.next;
        i := i + 1;
      }
    }

    method Unlink(ghost k: nat, last: Handle?, h: Handle)
      requires Linked() && k < |nodes| && h == nodes[k] && last == if k == 0 then null else nodes[k - 1]
      modifies this`handlePool, this`totalHandles, this`nodes, this`entries, nodes`next
      ensures Linked() && totalUsed == old(totalUsed) && h !in nodes
      ensures nodes == Without(old(nodes), k) && entries == Without(old(entries), k)
    {
      if last != null {
        last.next := h.next;
      } else {
        handlePool := h.next;
      }
      totalHandles := totalHandles - 1;
      nodes, entries := Without(nodes, k), Without(entries, k);
    }

    /** Takes an idle handle out of the pool and destroys it, under its lock. */
    method Close(h: Handle, ghost k: nat, t: nat) returns (ok: bool)
      requires Counted() && k < |nodes| && h == nodes[k] && h.useCount == 0
      modifies this`handlePool, this`totalHandles, this`nodes, this`entries
      modifies nodes`next, h`mutexOwner, h`mutexDepth
      ensures Counted() && ok && nodes == Without(old(nodes), k) && entries == Without(old(entries), k)
    {
      CloseKeeps(entries, k, Lock(entries[k], t));
      assert Accounted(entries[k]);
      ok := TryLockAt(h, k, t);
      if ok {
        DelHandle(h);
        h.ReleaseLock(t);
      }
    }

    /** One scan of sql_close for a handle to close. */
    method CloseOne(t: nat, now: int) returns (closed: bool)
      requires Counted() && now > 0
      modifies this`handlePool, this`totalHandles, this`nodes, this`entries
      modifies nodes`next, nodes`mutexOwner, nodes`mutexDepth
      ensures Counted()
      ensures Survivors(nodes, entries, now) == Survivors(old(nodes), old(entries), now)
      ensures Pruned(entries, now) == Pruned(old(entries), now)
      ensures closed ==> |nodes| < |old(nodes)| && forall i :: 0 <= i < |nodes| ==> nodes[i] in old(nodes)
      ensures !closed ==> nodes == old(nodes) && entries == old(entries)
      ensures !closed ==> forall i :: 0 <= i < |entries| ==> Kept(entries[i], now)
    {
      var ptr := handlePool;
      ghost var i := 0;
      while ptr != null
        invariant Counted() && i <= |nodes| && ptr == NodeAt(i) && nodes == old(nodes) && entries == old(entries)
        invariant forall j :: 0 <= j < i ==> Kept(entries[j], now)
        decreases |nodes| - i
      {
        var diff := if now > ptr.lastUsed then now - ptr.lastUsed else 0;
        if !(ptr.useCount > 0 || (diff < CACHE_TIMEOUT && !ptr.prune)) {
          PruneOne(nodes, entries, i, now);
          PruneOne(entries, entries, i, now);
          closed := Close(ptr, i, t);
          return;
        }
        ptr := ptr.next;
        i := i + 1;
      }
      closed := false;
    }

    lemma SparedNodes(now: int)
      requires Linked()
      ensures forall i :: 0 <= i < |nodes| ==>
                (nodes[i] in Survivors(nodes, entries, now) <==> Spared(entries[i], now))
    {
      forall i | 0 <= i < |nodes|
        ensures nodes[i] in Survivors(nodes, entries, now) <==> Spared(entries[i], now)
      {
        PruneIff(nodes, entries, now, i);
      }
    }

    /** The scans of sql_close, from the top again after each handle closed, until none is to be closed. */
    method CloseAll(t: nat, now: int)
      requires Counted() && now > 0
      modifies this`handlePool, this`totalHandles, this`nodes, this`entries
      modifies nodes`next, nodes`mutexOwner, nodes`mutexDepth
      ensures Counted() && forall i :: 0 <= i < |entries| ==> Kept(entries[i], now)
      ensures Survivors(nodes, entries, now) == Survivors(old(nodes), old(entries), now)
      ensures Pruned(entries, now) == Pruned(old(entries), now)
    {
      var again := true;
      while again
        invariant Counted() && forall i :: 0 <= i < |nodes| ==> nodes[i] in old(nodes)
        invariant Survivors(nodes, entries, now) == Survivors(old(nodes), old(entries), now)
        invariant Pruned(entries, now) == Pruned(old(entries), now)
        invariant !again ==> forall i :: 0 <= i < |entries| ==> Kept(entries[i], now)
        decreases |nodes|, again
      {
        again := CloseOne(t, now);
      }
    }

    /** sql_close for prune > 0. In the end exactly the handles to keep are left, in their order; no handle
        in use is closed. */
    method SqlClose(t: nat, now: int)
      requires Valid() && now > 0
      modifies this`handlePool, this`totalHandles, this`nodes, this`entries
      modifies nodes`next, nodes`mutexOwner, nodes`mutexDepth
      ensures Valid() && P() == After(old(P()), Prune(now))
      ensures nodes == Survivors(old(nodes), old(entries), now) && totalUsed == old(totalUsed)
      ensures forall i :: 0 <= i < |old(nodes)| ==> (old(nodes)[i] in nodes <==> Spared(old(entries)[i], now))
    {
      CallKeepsSound(P(), Prune(now));
      SparedNodes(now);
      CloseAll(t, now);
      PruneDone(nodes, entries, old(nodes), old(entries), now);
    }
  }
}
