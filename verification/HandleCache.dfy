/** The cache of database handles as values: what each call does to the pool, and what every run keeps
    (src/switch_core_sqldb.c). Databases and threads stand for their hashes. */
module HandleCache {
  import opened Common

  /** The thread hash of a handle that nobody uses. */
  const RELEASED: nat := 1
  const CACHE_TIMEOUT: int := 120

  /** One handle; `owner` and `depth` are the state of its nested mutex. */
  datatype Entry = Entry(
    db: nat, thread: nat, useCount: nat, lastUsed: int, prune: bool, owner: Option<nat>, depth: nat)

  predicate CanLock(e: Entry, t: nat) {
    e.depth == 0 || e.owner == Some(t)
  }

  function Lock(e: Entry, t: nat): Entry {
    e.(owner := Some(t), depth := e.depth + 1)
  }

  function Unlock(e: Entry): Entry
    requires e.depth > 0
  {
    e.(owner := if e.depth == 1 then None else e.owner, depth := e.depth - 1)
  }

  predicate HeldBy(e: Entry, db: nat, t: nat) {
    e.thread == t && e.db == db && !e.prune
  }

  predicate IdleFor(e: Entry, db: nat) {
    e.db == db && e.useCount == 0 && !e.prune
  }

  /** The user of a handle holds its mutex as often as it uses the handle; nobody else holds it. */
  predicate Accounted(e: Entry) {
    && e.depth == e.useCount
    && e.owner == (if e.useCount == 0 then None else Some(e.thread))
    && (e.useCount == 0 <==> e.thread == RELEASED)
  }

  /** Every handle is accounted for, and a thread uses at most one handle of a database. */
  ghost predicate Sound(es: seq<Entry>) {
    && (forall i :: 0 <= i < |es| ==> Accounted(es[i]))
    && (forall i, j :: 0 <= i < j < |es| && es[i].useCount > 0 && !es[i].prune ==>
          !HeldBy(es[j], es[i].db, es[i].thread))
  }

  // ----- The calls

  function First(p: Entry -> bool, es: seq<Entry>, from: nat): (k: Option<nat>)
    requires from <= |es|
    ensures k.Some? ==> from <= k.value < |es| && p(es[k.value]) && forall j :: from <= j < k.value ==> !p(es[j])
    ensures k.None? ==> forall j :: from <= j < |es| ==> !p(es[j])
    decreases |es| - from
  {
    if from == |es| then None else if p(es[from]) then Some(from) else First(p, es, from + 1)
  }

  /** The handle that get_handle chooses: the one the thread has, otherwise the first idle one. */
  function Chosen(es: seq<Entry>, db: nat, t: nat): (k: Option<nat>)
    ensures k.Some? ==> k.value < |es|
  {
    var held := First(e => HeldBy(e, db, t), es, 0);
    if held.Some? then held else First(e => IdleFor(e, db), es, 0)
  }

  function Taken(e: Entry, t: nat): Entry {
    Lock(e, t).(useCount := e.useCount + 1, thread := t)
  }

  function Created(db: nat, t: nat): Entry {
    Entry(db, t, 1, 0, false, Some(t), 1)
  }

  function Released(e: Entry, now: int): Entry
    requires e.depth > 0 && e.useCount > 0
  {
    Unlock(e).(useCount := e.useCount - 1, lastUsed := now, thread := if e.useCount == 1 then RELEASED else e.thread)
  }

  /** A release by any thread, which the code does not check: a nested mutex stays locked when a thread
      that does not have it asks to unlock it. */
  function ReleasedBy(e: Entry, t: nat, now: int): Entry {
    var thread := if e.useCount == 1 then RELEASED else e.thread;
    var left := e.(useCount := if e.useCount > 0 then e.useCount - 1 else 0, lastUsed := now, thread := thread);
    if e.depth > 0 && e.owner == Some(t) then Unlock(left) else left
  }

  predicate Kept(e: Entry, now: int) {
    e.useCount > 0 || ((if now > e.lastUsed then now - e.lastUsed else 0) < CACHE_TIMEOUT && !e.prune)
  }

  /** The items that stand beside entries that are kept. */
  function Survivors<T>(items: seq<T>, es: seq<Entry>, now: int): seq<T>
    requires |items| == |es|
  {
    if es == [] then [] else (if Kept(es[0], now) then [items[0]] else []) + Survivors(items[1..], es[1..], now)
  }

  function Pruned(es: seq<Entry>, now: int): seq<Entry> {
    Survivors(es, es, now)
  }

  /** The pool, and the threads that have looked for a handle of a database in vain and are about to make
      a new one: the pool's mutex is free in between. */
  datatype Pool = Pool(es: seq<Entry>, waiting: map<nat, nat>)

  const EMPTY := Pool([], map[])

  /** A step of the cache: the look-up of a request, the adding of a new handle after a look-up in vain or,
      when no connection can be made, its end without one, the release of the k-th handle by its user, and
      the pruning of idle handles. */
  datatype Call =
    | LookUp(db: nat, thread: nat, now: int)
    | Add(db: nat, thread: nat, now: int)
    | GiveUp(thread: nat)
    | Release(k: nat, thread: nat, now: int)
    | Prune(now: int)

  predicate UsedBy(es: seq<Entry>, k: nat, t: nat) {
    k < |es| && es[k].useCount > 0 && es[k].thread == t && es[k].depth > 0
  }

  predicate Legal(p: Pool, c: Call) {
    match c
    case LookUp(_, t, _) => t != RELEASED && t !in p.waiting
    case Add(db, t, _) => t != RELEASED && t in p.waiting && p.waiting[t] == db
    case GiveUp(t) => t in p.waiting
    case Release(k, t, _) => UsedBy(p.es, k, t)
    case Prune(now) => now > 0
  }

  function LookedUp(es: seq<Entry>, db: nat, t: nat, now: int): seq<Entry> {
    var k := Chosen(es, db, t);
    if k.Some? then es[k.value := Taken(es[k.value], t).(lastUsed := now)] else es
  }

  function Added(es: seq<Entry>, db: nat, t: nat, now: int): seq<Entry> {
    [Created(db, t).(lastUsed := now)] + es
  }

  function After(p: Pool, c: Call): Pool
    requires Legal(p, c)
  {
    match c
    case LookUp(db, t, now) =>
      Pool(LookedUp(p.es, db, t, now), if Chosen(p.es, db, t).Some? then p.waiting else p.waiting[t := db])
    case Add(db, t, now) => Pool(Added(p.es, db, t, now), p.waiting - {t})
    case GiveUp(t) => Pool(p.es, p.waiting - {t})
    case Release(k, _, now) => Pool(p.es[k := Released(p.es[k], now)], p.waiting)
    case Prune(now) => Pool(Pruned(p.es, now), p.waiting)
  }

  /** The thread has no handle of the database. */
  ghost predicate HasNone(es: seq<Entry>, db: nat, t: nat) {
    forall j :: 0 <= j < |es| ==> !HeldBy(es[j], db, t)
  }

  /** The handles are sound, and a thread about to make one still has none of the database. */
  ghost predicate SoundPool(p: Pool) {
    && Sound(p.es)
    && (forall t :: t in p.waiting ==> t != RELEASED && HasNone(p.es, p.waiting[t], t))
  }

  // ----- What the calls keep

  /** A request is given the handle that the thread has of the database, if it has one; otherwise the first
      idle one of the database in the pool; and otherwise none. */
  lemma ChosenIff(es: seq<Entry>, db: nat, t: nat, k: nat)
    requires k < |es|
    ensures Chosen(es, db, t) == Some(k) <==>
            if exists j :: 0 <= j < |es| && HeldBy(es[j], db, t)
            then HeldBy(es[k], db, t) && forall j :: 0 <= j < k ==> !HeldBy(es[j], db, t)
            else IdleFor(es[k], db) && forall j :: 0 <= j < k ==> !IdleFor(es[j], db)
    ensures Chosen(es, db, t).None? <==>
            forall j :: 0 <= j < |es| ==> !HeldBy(es[j], db, t) && !IdleFor(es[j], db)
  {
    var held := First(e => HeldBy(e, db, t), es, 0);
    var idle := First(e => IdleFor(e, db), es, 0);
  }

  lemma ChosenIsFree(es: seq<Entry>, db: nat, t: nat)
    requires Sound(es) && t != RELEASED && Chosen(es, db, t).Some?
    ensures var e := es[Chosen(es, db, t).value];
            e.db == db && !e.prune && CanLock(e, t) && (e.useCount > 0 ==> e.thread == t)
    ensures es[Chosen(es, db, t).value].useCount == 0 ==> forall j :: 0 <= j < |es| ==> !HeldBy(es[j], db, t)
  {
    assert Accounted(es[Chosen(es, db, t).value]);
  }

  lemma LookUpKeepsSound(es: seq<Entry>, db: nat, t: nat, now: int)
    requires Sound(es) && t != RELEASED
    ensures Sound(LookedUp(es, db, t, now))
    ensures Chosen(es, db, t).None? ==> HasNone(es, db, t)
  {
    var k := Chosen(es, db, t);
    if k.Some? {
      ChosenIsFree(es, db, t);
      assert Accounted(es[k.value]);
    }
  }

  lemma AddKeepsSound(es: seq<Entry>, db: nat, t: nat, now: int)
    requires Sound(es) && t != RELEASED && HasNone(es, db, t)
    ensures Sound(Added(es, db, t, now))
  {
  }

  lemma ReleaseKeepsSound(es: seq<Entry>, k: nat, t: nat, now: int)
    requires Sound(es) && UsedBy(es, k, t)
    ensures Sound(es[k := Released(es[k], now)])
  {
    assert Accounted(es[k]);
  }

  lemma {:induction false} PrunedMembers(es: seq<Entry>, now: int, i: nat) returns (j: nat)
    requires i < |Pruned(es, now)|
    ensures j < |es| && Pruned(es, now)[i] == es[j] && Kept(es[j], now)
  {
    if Kept(es[0], now) && i == 0 {
      j := 0;
    } else {
      j := PrunedMembers(es[1..], now, if Kept(es[0], now) then i - 1 else i);
      j := j + 1;
    }
  }

  /** The handle is in use, or it was used less than two minutes ago and is not marked for pruning. */
  predicate Spared(e: Entry, now: int) {
    e.useCount > 0 || (!e.prune && now - e.lastUsed < 120)
  }

  /** No handle in use is closed, and none that has been idle for less than the timeout. */
  lemma {:induction false} PruneSpares<T>(items: seq<T>, es: seq<Entry>, now: int, i: nat)
    requires |items| == |es| && i < |es| && Spared(es[i], now)
    ensures items[i] in Survivors(items, es, now)
  {
    if i > 0 {
      PruneSpares(items[1..], es[1..], now, i - 1);
    }
  }

  lemma {:induction false} PruneTakes<T>(items: seq<T>, es: seq<Entry>, now: int, x: T) returns (i: nat)
    requires |items| == |es| && x in Survivors(items, es, now)
    ensures i < |es| && items[i] == x && Spared(es[i], now)
  {
    if Kept(es[0], now) && x == items[0] {
      i := 0;
    } else {
      i := PruneTakes(items[1..], es[1..], now, x);
      i := i + 1;
    }
  }

  /** Pruning closes exactly the handles that are neither in use nor recently used. */
  lemma PruneIff<T>(items: seq<T>, es: seq<Entry>, now: int, i: nat)
    requires |items| == |es| && i < |es| && forall j, k :: 0 <= j < k < |items| ==> items[j] != items[k]
    ensures items[i] in Survivors(items, es, now) <==> Spared(es[i], now)
  {
    if Spared(es[i], now) {
      PruneSpares(items, es, now, i);
    }
    if items[i] in Survivors(items, es, now) {
      var j := PruneTakes(items, es, now, items[i]);
    }
  }

  /** A handle that was released less than two minutes ago is not closed. */
  lemma ReleasedIsSpared(p: Pool, k: nat, t: nat, at: int, now: int)
    requires Legal(p, Release(k, t, at)) && !p.es[k].prune && now - at < 120 && now > 0
    ensures var q := After(p, Release(k, t, at)); q.es[k] in After(q, Prune(now)).es
  {
    var q := After(p, Release(k, t, at));
    PruneSpares(q.es, q.es, now, k);
  }

  lemma {:induction false} SurvivorsConcat<T>(x: seq<T>, y: seq<T>, a: seq<Entry>, b: seq<Entry>, now: int)
    requires |x| == |a| && |y| == |b|
    ensures Survivors(x + y, a + b, now) == Survivors(x, a, now) + Survivors(y, b, now)
  {
    if a == [] {
      assert a + b == b && x + y == y;
    } else {
      assert (a + b)[1..] == a[1..] + b && (x + y)[1..] == x[1..] + y;
      SurvivorsConcat(x[1..], y, a[1..], b, now);
      ConcatAssociates(if Kept(a[0], now) then [x[0]] else [], Survivors(x[1..], a[1..], now), Survivors(y, b, now));
    }
  }

  function Without<T>(s: seq<T>, k: nat): (r: seq<T>)
    requires k < |s|
    ensures |r| == |s| - 1
    ensures forall i :: 0 <= i < k ==> r[i] == s[i]
    ensures forall i :: k <= i < |r| ==> r[i] == s[i + 1]
  {
    s[..k] + s[k + 1..]
  }

  lemma SplitAt<T>(s: seq<T>, k: nat)
    requires k < |s|
    ensures s == s[..k] + ([s[k]] + s[k + 1..])
  {
  }

  lemma PruneFirst<T>(i: T, y: seq<T>, e: Entry, b: seq<Entry>, now: int)
    requires |y| == |b| && !Kept(e, now)
    ensures Survivors([i] + y, [e] + b, now) == Survivors(y, b, now)
  {
    assert ([i] + y)[1..] == y && ([e] + b)[1..] == b;
  }

  lemma PruneMiddle<T>(x: seq<T>, i: T, y: seq<T>, a: seq<Entry>, e: Entry, b: seq<Entry>, now: int)
    requires |x| == |a| && |y| == |b| && !Kept(e, now)
    ensures Survivors(x + ([i] + y), a + ([e] + b), now) == Survivors(x + y, a + b, now)
  {
    SurvivorsConcat(x, y, a, b, now);
    SurvivorsConcat(x, [i] + y, a, [e] + b, now);
    PruneFirst(i, y, e, b, now);
  }

  /** Closing one handle that pruning would close leaves the rest of the work the same. */
  lemma PruneOne<T>(items: seq<T>, es: seq<Entry>, k: nat, now: int)
    requires |items| == |es| && k < |es| && !Kept(es[k], now)
    ensures Survivors(Without(items, k), Without(es, k), now) == Survivors(items, es, now)
  {
    PruneMiddle(items[..k], items[k], items[k + 1..], es[..k], es[k], es[k + 1..], now);
    SplitAt(items, k);
    SplitAt(es, k);
  }

  lemma {:induction false} PruneNone<T>(items: seq<T>, es: seq<Entry>, now: int)
    requires |items| == |es| && forall i :: 0 <= i < |es| ==> Kept(es[i], now)
    ensures Survivors(items, es, now) == items
  {
    if es != [] {
      assert forall i :: 0 <= i < |es[1..]| ==> es[1..][i] == es[i + 1];
      PruneNone(items[1..], es[1..], now);
    }
  }

  lemma {:induction false} PruneKeepsSound(es: seq<Entry>, now: int)
    requires Sound(es)
    ensures Sound(Pruned(es, now))
  {
    if es != [] {
      var rest := es[1..];
      assert forall i :: 0 <= i < |rest| ==> rest[i] == es[i + 1];
      PruneKeepsSound(rest, now);
      forall i | 0 <= i < |Pruned(rest, now)| && es[0].useCount > 0 && !es[0].prune
        ensures !HeldBy(Pruned(rest, now)[i], es[0].db, es[0].thread)
      {
        var j := PrunedMembers(rest, now, i);
        assert rest[j] == es[j + 1];
      }
    }
  }

  /** switch_cache_db_flush_handles, which prunes as if the timeout had passed, leaves only handles in
      use, and by PruneSpares all of those. */
  lemma FlushLeavesUsed(es: seq<Entry>, now: int)
    requires forall i :: 0 <= i < |es| ==> es[i].lastUsed <= now
    ensures var left := Pruned(es, now + CACHE_TIMEOUT + 1);
            forall i :: 0 <= i < |left| ==> left[i].useCount > 0
  {
    var left := Pruned(es, now + CACHE_TIMEOUT + 1);
    forall i | 0 <= i < |left|
      ensures left[i].useCount > 0
    {
      var j := PrunedMembers(es, now + CACHE_TIMEOUT + 1, i);
    }
  }

  // ----- Counting uses

  function Total(w: Entry -> nat, es: seq<Entry>): nat {
    if es == [] then 0 else w(es[0]) + Total(w, es[1..])
  }

  lemma {:induction false} TotalUpdate(w: Entry -> nat, es: seq<Entry>, k: nat, e: Entry)
    requires k < |es|
    ensures Total(w, es[k := e]) + w(es[k]) == Total(w, es) + w(e)
  {
    if k == 0 {
      assert es[k := e][1..] == es[1..];
    } else {
      assert es[k := e][1..] == es[1..][k - 1 := e];
      TotalUpdate(w, es[1..], k - 1, e);
    }
  }

  lemma TotalCons(w: Entry -> nat, e: Entry, es: seq<Entry>)
    ensures Total(w, [e] + es) == w(e) + Total(w, es)
  {
    assert ([e] + es)[1..] == es;
  }

  lemma {:induction false} TotalPruned(w: Entry -> nat, es: seq<Entry>, now: int)
    requires forall e: Entry :: e.useCount == 0 ==> w(e) == 0
    ensures Total(w, Pruned(es, now)) == Total(w, es)
  {
    if es != [] {
      TotalPruned(w, es[1..], now);
      TotalCons(w, es[0], Pruned(es[1..], now));
      assert [] + Pruned(es[1..], now) == Pruned(es[1..], now);
    }
  }

  function AllUses(): Entry -> nat {
    (e: Entry) => e.useCount
  }

  function UsesOf(db: nat, t: nat): Entry -> nat {
    (e: Entry) => if e.db == db && e.thread == t then e.useCount else 0
  }

  lemma {:induction false} TotalWithout(w: Entry -> nat, es: seq<Entry>, k: nat)
    requires k < |es|
    ensures Total(w, Without(es, k)) + w(es[k]) == Total(w, es)
  {
    if k == 0 {
      assert Without(es, k) == es[1..];
    } else {
      assert Without(es, k) == [es[0]] + Without(es[1..], k - 1);
      TotalCons(w, es[0], Without(es[1..], k - 1));
      TotalWithout(w, es[1..], k - 1);
    }
  }

  lemma TakeChosen(es: seq<Entry>, db: nat, t: nat, k: nat)
    requires Sound(es) && t != RELEASED && Chosen(es, db, t) == Some(k)
    ensures Sound(es[k := Taken(es[k], t)]) && Total(AllUses(), es[k := Taken(es[k], t)]) == Total(AllUses(), es) + 1
  {
    LookUpKeepsSound(es, db, t, es[k].lastUsed);
    assert LookedUp(es, db, t, es[k].lastUsed) == es[k := Taken(es[k], t)];
    TotalUpdate(AllUses(), es, k, Taken(es[k], t));
  }

  lemma AddCreated(es: seq<Entry>, db: nat, t: nat)
    requires Sound(es) && t != RELEASED && forall j :: 0 <= j < |es| ==> !HeldBy(es[j], db, t)
    ensures Sound([Created(db, t)] + es) && Total(AllUses(), [Created(db, t)] + es) == Total(AllUses(), es) + 1
  {
    TotalCons(AllUses(), Created(db, t), es);
  }

  /** Nothing more is to be closed, so the pruning is done. */
  lemma PruneDone<T>(items: seq<T>, es: seq<Entry>, items0: seq<T>, es0: seq<Entry>, now: int)
    requires |items| == |es| && |items0| == |es0| && forall i :: 0 <= i < |es| ==> Kept(es[i], now)
    requires Survivors(items, es, now) == Survivors(items0, es0, now) && Pruned(es, now) == Pruned(es0, now)
    ensures items == Survivors(items0, es0, now) && es == Pruned(es0, now)
    ensures Total(AllUses(), es) == Total(AllUses(), es0)
  {
    PruneNone(items, es, now);
    PruneNone(es, es, now);
    TotalPruned(AllUses(), es0, now);
  }

  lemma StampKeeps(es: seq<Entry>, k: nat, now: int)
    requires Sound(es) && k < |es|
    ensures var es' := es[k := es[k].(lastUsed := now)];
            Sound(es') && Total(AllUses(), es') == Total(AllUses(), es)
  {
    TotalUpdate(AllUses(), es, k, es[k].(lastUsed := now));
  }

  lemma CloseKeeps(es: seq<Entry>, k: nat, e: Entry)
    requires Sound(es) && k < |es| && es[k].useCount == 0
    ensures Without(es[k := e], k) == Without(es, k)
    ensures Sound(Without(es, k)) && Total(AllUses(), Without(es, k)) == Total(AllUses(), es)
  {
    TotalWithout(AllUses(), es, k);
  }

  lemma ReleaseKeeps(es: seq<Entry>, k: nat, t: nat, now: int)
    requires Sound(es) && UsedBy(es, k, t)
    ensures var es' := es[k := Released(es[k], now)];
            Sound(es') && Total(AllUses(), es') == Total(AllUses(), es) - 1
  {
    ReleaseKeepsSound(es, k, t, now);
    TotalUpdate(AllUses(), es, k, Released(es[k], now));
  }

  /** A release keeps the pool sound and the count of uses right exactly if it is by the user. */
  lemma ReleaseSoundIff(es: seq<Entry>, k: nat, t: nat, now: int)
    requires Sound(es) && k < |es|
    ensures var es' := es[k := ReleasedBy(es[k], t, now)];
            && (Sound(es') && Total(AllUses(), es') == Total(AllUses(), es) - 1 <==> UsedBy(es, k, t))
            && (UsedBy(es, k, t) ==> es' == es[k := Released(es[k], now)])
  {
    var e := ReleasedBy(es[k], t, now);
    assert Accounted(es[k]) && es[k := e][k] == e;
    TotalUpdate(AllUses(), es, k, e);
    if UsedBy(es, k, t) {
      ReleaseKeeps(es, k, t, now);
    }
  }

  lemma StampChosen(es: seq<Entry>, db: nat, t: nat, now: int, k: nat)
    requires Chosen(es, db, t) == Some(k)
    ensures var es' := es[k := Taken(es[k], t)];
            es'[k := es'[k].(lastUsed := now)] == LookedUp(es, db, t, now)
  {
  }

  lemma StampCreated(es: seq<Entry>, db: nat, t: nat, now: int)
    ensures var es' := [Created(db, t)] + es;
            es'[0 := es'[0].(lastUsed := now)] == Added(es, db, t, now)
  {
  }

  /** What a step adds to the uses of a database by a thread. */
  function Gain(p: Pool, c: Call, db: nat, t: nat): int
    requires Legal(p, c)
  {
    match c
    case LookUp(d, u, _) => if d == db && u == t && Chosen(p.es, db, t).Some? then 1 else 0
    case Add(d, u, _) => if d == db && u == t then 1 else 0
    case GiveUp(_) => 0
    case Release(k, u, _) => if p.es[k].db == db && u == t then -1 else 0
    case Prune(_) => 0
  }

  lemma GainIsGained(p: Pool, c: Call, db: nat, t: nat)
    requires Sound(p.es) && Legal(p, c) && t != RELEASED
    ensures Total(UsesOf(db, t), After(p, c).es) == Total(UsesOf(db, t), p.es) + Gain(p, c, db, t)
  {
    var w := UsesOf(db, t);
    match c
    case LookUp(d, u, now) =>
      var k := Chosen(p.es, d, u);
      if k.Some? {
        ChosenIsFree(p.es, d, u);
        TotalUpdate(w, p.es, k.value, Taken(p.es[k.value], u).(lastUsed := now));
      }
    case Add(d, u, now) => TotalCons(w, Created(d, u).(lastUsed := now), p.es);
    case GiveUp(_) =>
    case Release(k, u, now) => TotalUpdate(w, p.es, k, Released(p.es[k], now));
    case Prune(now) => TotalPruned(w, p.es, now);
  }

  /** The thread whose step it is. */
  predicate By(c: Call, t: nat) {
    !c.Prune? && c.thread == t
  }

  /** Steps of other threads, and releases and prunings of any, do not give a thread a handle. */
  lemma LeavesNone(p: Pool, c: Call, db: nat, t: nat)
    requires Legal(p, c) && t != RELEASED && HasNone(p.es, db, t) && (By(c, t) ==> c.Release? || c.GiveUp?)
    ensures HasNone(After(p, c).es, db, t)
  {
    if c.Prune? {
      forall j | 0 <= j < |Pruned(p.es, c.now)|
        ensures !HeldBy(Pruned(p.es, c.now)[j], db, t)
      {
        var i := PrunedMembers(p.es, c.now, j);
      }
    }
  }

  /** A thread is about to make a handle exactly from a look-up in vain until it adds one or gives up. */
  lemma WaitingIff(p: Pool, c: Call, t: nat)
    requires Legal(p, c)
    ensures t in After(p, c).waiting <==>
            || (t in p.waiting && !(By(c, t) && (c.Add? || c.GiveUp?)))
            || (c.LookUp? && c.thread == t && Chosen(p.es, c.db, t).None?)
  {
  }

  lemma StepKeepsSound(p: Pool, c: Call)
    requires SoundPool(p) && Legal(p, c)
    ensures Sound(After(p, c).es)
  {
    match c
    case LookUp(db, t, now) => LookUpKeepsSound(p.es, db, t, now);
    case Add(db, t, now) => AddKeepsSound(p.es, db, t, now);
    case GiveUp(_) =>
    case Release(k, t, now) => ReleaseKeepsSound(p.es, k, t, now);
    case Prune(now) => PruneKeepsSound(p.es, now);
  }

  lemma CallKeepsSound(p: Pool, c: Call)
    requires SoundPool(p) && Legal(p, c)
    ensures SoundPool(After(p, c))
  {
    StepKeepsSound(p, c);
    var p' := After(p, c);
    if c.LookUp? {
      LookUpKeepsSound(p.es, c.db, c.thread, c.now);
    }
    forall t | t in p'.waiting
      ensures t != RELEASED && HasNone(p'.es, p'.waiting[t], t)
    {
      if t in p.waiting {
        LeavesNone(p, c, p.waiting[t], t);
      }
    }
  }

  // ----- Runs

  ghost predicate LegalRun(p: Pool, calls: seq<Call>)
    decreases |calls|
  {
    calls == [] || (Legal(p, calls[0]) && LegalRun(After(p, calls[0]), calls[1..]))
  }

  function RunOf(p: Pool, calls: seq<Call>): Pool
    requires LegalRun(p, calls)
    decreases |calls|
  {
    if calls == [] then p else RunOf(After(p, calls[0]), calls[1..])
  }

  /** The requests that got a handle less the releases, for one database and thread. */
  function Balance(p: Pool, calls: seq<Call>, db: nat, t: nat): int
    requires LegalRun(p, calls)
    decreases |calls|
  {
    if calls == [] then 0 else Gain(p, calls[0], db, t) + Balance(After(p, calls[0]), calls[1..], db, t)
  }

  /** Over every run of steps of any threads, also between the look-up and the adding of a request, the
      pool stays sound, and the uses of each database by each thread are its requests less its releases. */
  lemma {:induction false} RunsAreSound(p: Pool, calls: seq<Call>, db: nat, t: nat)
    requires SoundPool(p) && LegalRun(p, calls) && t != RELEASED
    ensures SoundPool(RunOf(p, calls))
    ensures Total(UsesOf(db, t), RunOf(p, calls).es) == Total(UsesOf(db, t), p.es) + Balance(p, calls, db, t)
    decreases |calls|
  {
    if calls != [] {
      CallKeepsSound(p, calls[0]);
      GainIsGained(p, calls[0], db, t);
      RunsAreSound(After(p, calls[0]), calls[1..], db, t);
    }
  }

  /** A handle a thread has is the one it gets again. */
  lemma HeldIsChosen(es: seq<Entry>, db: nat, t: nat, k: nat)
    requires Sound(es) && t != RELEASED && k < |es| && HeldBy(es[k], db, t)
    ensures Chosen(es, db, t) == Some(k)
  {
    var c := First(e => HeldBy(e, db, t), es, 0);
    assert Accounted(es[k]) && Accounted(es[c.value]);
  }

  lemma {:induction false} UsedHandle(es: seq<Entry>, db: nat, t: nat) returns (k: nat)
    requires Total(UsesOf(db, t), es) > 0
    ensures k < |es| && es[k].db == db && es[k].thread == t && es[k].useCount > 0
  {
    if UsesOf(db, t)(es[0]) > 0 {
      k := 0;
    } else {
      k := UsedHandle(es[1..], db, t);
      k := k + 1;
    }
  }

  lemma {:induction false} TotalZero(w: Entry -> nat, es: seq<Entry>)
    requires forall i :: 0 <= i < |es| ==> w(es[i]) == 0
    ensures Total(w, es) == 0
  {
    if es != [] {
      assert forall i :: 0 <= i < |es[1..]| ==> es[1..][i] == es[i + 1];
      TotalZero(w, es[1..]);
    }
  }

  /** Nothing in the core sets CDF_PRUNE. */
  ghost predicate Unflagged(es: seq<Entry>) {
    forall i :: 0 <= i < |es| ==> !es[i].prune
  }

  lemma LoneUse(es: seq<Entry>, db: nat, t: nat, k: nat)
    requires Sound(es) && Unflagged(es) && t != RELEASED && k < |es| && HeldBy(es[k], db, t)
    ensures Total(UsesOf(db, t), es) == es[k].useCount
  {
    var w := UsesOf(db, t);
    var idle := es[k].(useCount := 0);
    TotalUpdate(w, es, k, idle);
    forall i: nat | i < |es| && HeldBy(es[i], db, t)
      ensures i == k
    {
      HeldIsChosen(es, db, t, i);
      HeldIsChosen(es, db, t, k);
    }
    TotalZero(w, es[k := idle]);
  }

  lemma {:induction false} RunsAreUnflagged(p: Pool, calls: seq<Call>)
    requires Unflagged(p.es) && LegalRun(p, calls)
    ensures Unflagged(RunOf(p, calls).es)
    decreases |calls|
  {
    if calls != [] {
      var p' := After(p, calls[0]);
      if calls[0].Prune? {
        forall i | 0 <= i < |p'.es|
          ensures !p'.es[i].prune
        {
          var j := PrunedMembers(p.es, calls[0].now, i);
        }
      }
      RunsAreUnflagged(p', calls[1..]);
    }
  }

  /** A thread has a handle of a database exactly while it has requested the database more often than
      it released it. It then has just the one, locked that often, and it gets that one again. */
  lemma RequestedIsHeld(calls: seq<Call>, db: nat, t: nat)
    requires LegalRun(EMPTY, calls) && t != RELEASED
    ensures var es, n := RunOf(EMPTY, calls).es, Balance(EMPTY, calls, db, t);
            && n >= 0
            && (n > 0 ==> exists k :: 0 <= k < |es| && HeldBy(es[k], db, t))
            && (forall k: nat :: k < |es| && HeldBy(es[k], db, t) ==>
                  n == es[k].useCount == es[k].depth > 0 && es[k].owner == Some(t) && Chosen(es, db, t) == Some(k))
  {
    var es, n := RunOf(EMPTY, calls).es, Balance(EMPTY, calls, db, t);
    RunsAreSound(EMPTY, calls, db, t);
    RunsAreUnflagged(EMPTY, calls);
    if n > 0 {
      var k := UsedHandle(es, db, t);
    }
    forall k: nat | k < |es| && HeldBy(es[k], db, t)
      ensures n == es[k].useCount == es[k].depth > 0 && es[k].owner == Some(t) && Chosen(es, db, t) == Some(k)
    {
      LoneUse(es, db, t, k);
      HeldIsChosen(es, db, t, k);
      assert Accounted(es[k]);
    }
  }
}
