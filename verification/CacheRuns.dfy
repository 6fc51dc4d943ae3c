/**
 Runs of a cache shard (LRUCache, util/cache.cc): what a client finds in it and what eviction takes, told by
 the operations that went before.
 */
module CacheRuns {
  import opened Options
  import opened HandleTable
  import opened Cache

  /** From an empty shard; step `n` is `events[n]` with the entry `found[n]` of its key. */
  ghost predicate Run(capacity: nat, shards: seq<Shard>, events: seq<Event>, found: seq<Option<nat>>) {
    && |shards| == |events| + 1 && |found| == |events|
    && shards[0] == Shard(map[], [], [], 0, multiset{}, [], 0)
    && forall n :: 0 <= n < |events| ==> Step(capacity, shards[n], events[n], found[n], shards[n + 1])
  }

  // ---- what went before ----------------------------------------------------------------------------------

  /** The latest insertion of the key, unless it has been erased since. */
  function LastInserted(events: seq<Event>, key: Bytes, hash: nat): Option<Event> {
    if events == [] then None else
      match events[|events| - 1]
      case Inserts(k, h, _, _) =>
        if k == key && h == hash then Some(events[|events| - 1]) else LastInserted(events[..|events| - 1], key, hash)
      case Erases(k, h) =>
        if k == key && h == hash then None else LastInserted(events[..|events| - 1], key, hash)
      case _ => LastInserted(events[..|events| - 1], key, hash)
  }

  /** When a client last released the entry, counted from 1; 0 if none did. */
  function LastRelease(events: seq<Event>, id: nat): (n: nat)
    ensures n <= |events|
  {
    if events == [] then 0
    else if events[|events| - 1] == Releases(id) then |events|
    else LastRelease(events[..|events| - 1], id)
  }

  // ---- the invariant of the runs -------------------------------------------------------------------------

  ghost predicate Good(s: Shard) {
    Inv(s, CachedOf(s)) && Unique(CachedOf(s))
  }

  ghost predicate Cached(s: Shard, id: nat) {
    id in s.handles && s.handles[id].inCache
  }

  /** `id` is cached in `t` as it was in `s`. */
  ghost predicate StillCached(s: Shard, t: Shard, id: nat) {
    && Cached(s, id) && Cached(t, id)
    && s.handles[id].key == t.handles[id].key && s.handles[id].hash == t.handles[id].hash
    && s.handles[id].value == t.handles[id].value && s.handles[id].charge == t.handles[id].charge
  }

  ghost predicate OnlyLoses(s: Shard, t: Shard) {
    forall id :: Cached(t, id) ==> StillCached(s, t, id)
  }

  lemma UniqueIds(s: Shard, id: nat, other: nat)
    requires Unique(CachedOf(s)) && Cached(s, id) && Cached(s, other)
    requires s.handles[id].key == s.handles[other].key && s.handles[id].hash == s.handles[other].hash
    ensures id == other
  {
    assert NodeOf(s.handles, id) in CachedOf(s) && NodeOf(s.handles, other) in CachedOf(s);
  }

  lemma StaysUnique(s: Shard, t: Shard)
    requires Unique(CachedOf(s)) && OnlyLoses(s, t)
    ensures Unique(CachedOf(t))
  {
    forall m, n | m in CachedOf(t) && n in CachedOf(t) && m.key == n.key && m.hash == n.hash
      ensures m == n
    {
      assert StillCached(s, t, m.id) && StillCached(s, t, n.id);
      UniqueIds(s, m.id, n.id);
    }
  }

  lemma {:induction false} EvictedOnlyLoses(s: Shard, cached: set<Node>, capacity: int)
    requires Inv(s, cached)
    ensures OnlyLoses(s, Evicted(s, cached, capacity).0)
    decreases |s.lru|
  {
    if s.usage > capacity && s.lru != [] {
      OldestIsEvictable(s, cached);
      ErasedKeepsInv(s, cached, s.lru[0]);
      var s' := Erased(s, s.lru[0]);
      EvictedOnlyLoses(s', cached - {NodeOf(s.handles, s.lru[0])}, capacity);
      assert OnlyLoses(s, s') by { ErasedOnlyLoses(s, s.lru[0]); }
      hide Inv, Erased;
      LosesMore(s, s', Evicted(s, cached, capacity).0);
    }
  }

  lemma LosesMore(s: Shard, t: Shard, u: Shard)
    requires OnlyLoses(s, t) && OnlyLoses(t, u)
    ensures OnlyLoses(s, u)
  {
    forall id | Cached(u, id)
      ensures StillCached(s, u, id)
    {
      assert StillCached(t, u, id) && StillCached(s, t, id);
    }
  }

  /** An entry that leaves the cache; the others stay as they are. */
  lemma ErasedOnlyLoses(s: Shard, id: nat)
    requires id in s.handles && s.handles[id].refs > 0
    ensures OnlyLoses(s, Erased(s, id)) && !Cached(Erased(s, id), id)
  {
  }

  lemma RefsOnlyLose(s: Shard, id: nat)
    requires id in s.handles
    ensures OnlyLoses(s, Referenced(s, id)) && (s.handles[id].refs > 0 ==> OnlyLoses(s, Unreferenced(s, id)))
  {
  }

  // ---- insertion -----------------------------------------------------------------------------------------

  /** A new entry for the key, which no other has then; a shard without capacity never caches one. */
  lemma Inserted(s: Shard, key: Bytes, hash: nat, value: nat, charge: nat, cache: bool, dup: Option<nat>, m: Shard)
    requires Good(s) && IsCached(s, key, hash, dup)
    requires WithEntry(s, key, hash, value, charge, cache, dup) == Some(m)
    ensures cache ==>
              Cached(m, s.nextId) && m.handles[s.nextId].(refs := 2) == Handle(key, hash, value, charge, true, 2)
    ensures forall id :: Cached(m, id) && (cache ==> id != s.nextId) ==> StillCached(s, m, id)
    ensures forall id :: cache && Cached(m, id) && id != s.nextId ==>
              !(m.handles[id].key == key && m.handles[id].hash == hash)
  {
    hide Inv, Unique;
    if cache {
      var t := Added(s, key, hash, value, charge);
      assert EntryInv(s, s.nextId) by { EntryOf(s, s.nextId); }
      if dup.Some? {
        ErasedOnlyLoses(t, dup.value);
      }
      forall id | Cached(m, id) && id != s.nextId
        ensures StillCached(s, m, id)
        ensures !(m.handles[id].key == key && m.handles[id].hash == hash)
      {
        if dup.Some? {
          assert StillCached(t, m, id);
          if s.handles[id].key == key && s.handles[id].hash == hash {
            UniqueIds(s, id, dup.value);
          }
        }
      }
    }
  }

  lemma EntryOf(s: Shard, id: nat)
    requires Good(s)
    ensures EntryInv(s, id)
  {
  }

  /** WithEntry of an insertion step, and what eviction leaves of it. */
  lemma InsertedStep(capacity: nat, s: Shard, e: Event, r: Option<nat>, t: Shard) returns (m: Shard)
    requires Good(s) && e.Inserts? && Step(capacity, s, e, r, t)
    ensures WithEntry(s, e.key, e.hash, e.value, e.charge, capacity > 0, r) == Some(m)
    ensures Good(m) && Good(t) && OnlyLoses(m, t)
    ensures t == Evicted(m, CachedOf(m), capacity).0
  {
    m := WithEntry(s, e.key, e.hash, e.value, e.charge, capacity > 0, r).value;
    Inserted(s, e.key, e.hash, e.value, e.charge, capacity > 0, r, m);
    hide Inv, WithEntry, IsCached;
    forall a, b | a in CachedOf(m) && b in CachedOf(m) && a.key == b.key && a.hash == b.hash
      ensures a == b
    {
      if capacity == 0 || (a.id != s.nextId && b.id != s.nextId) {
        assert StillCached(s, m, a.id) && StillCached(s, m, b.id);
        UniqueIds(s, a.id, b.id);
      }
    }
    EvictedIsGood(m, capacity);
  }

  lemma EvictedIsGood(s: Shard, capacity: int)
    requires Good(s)
    ensures Good(Evicted(s, CachedOf(s), capacity).0) && OnlyLoses(s, Evicted(s, CachedOf(s), capacity).0)
  {
    hide Inv, Unique, CachedOf;
    EvictedOnlyLoses(s, CachedOf(s), capacity);
    var t := Evicted(s, CachedOf(s), capacity).0;
    StaysUnique(s, t);
    InvCachedIs(t, Evicted(s, CachedOf(s), capacity).1);
  }

  /** Everything but an insertion only takes entries out. */
  lemma OtherSteps(capacity: nat, s: Shard, e: Event, r: Option<nat>, t: Shard)
    requires Good(s) && !e.Inserts? && Step(capacity, s, e, r, t)
    ensures Good(t) && OnlyLoses(s, t)
    ensures e.Erases? && r.Some? ==> !Cached(t, r.value)
  {
    hide Unique, CachedOf;
    match e
    case LooksUp(key, hash) =>
      if r.Some? {
        LookupIsGood(s, r.value);
      }
    case Releases(id) => ReleaseIsGood(s, id);
    case Erases(key, hash) =>
      if r.Some? {
        EraseIsGood(s, r.value);
      }
    case Prunes => EvictedIsGood(s, -1);
  }

  lemma LookupIsGood(s: Shard, id: nat)
    requires Good(s) && id in s.handles
    ensures var t := Referenced(s, id).(held := s.held + multiset{id}); Good(t) && OnlyLoses(s, t)
  {
    var t := Referenced(s, id).(held := s.held + multiset{id});
    ReferencedKeepsInv(s, CachedOf(s), id);
    RefsOnlyLose(s, id);
    hide Inv, Unique, CachedOf;
    assert OnlyLoses(s, t);
    StaysUnique(s, t);
    InvCachedIs(t, CachedOf(s));
  }

  lemma ReleaseIsGood(s: Shard, id: nat)
    requires Good(s) && s.held[id] > 0 && id in s.handles && s.handles[id].refs > 0
    ensures var t := Unreferenced(s, id).(held := s.held - multiset{id}); Good(t) && OnlyLoses(s, t)
  {
    var t := Unreferenced(s, id).(held := s.held - multiset{id});
    ReleasedKeepsInv(s, CachedOf(s), id);
    RefsOnlyLose(s, id);
    hide Inv, Unique, CachedOf;
    assert OnlyLoses(s, t);
    StaysUnique(s, t);
    InvCachedIs(t, CachedOf(s));
  }

  lemma EraseIsGood(s: Shard, id: nat)
    requires Good(s) && Cached(s, id) && s.handles[id].refs > 0
    ensures Good(Erased(s, id)) && OnlyLoses(s, Erased(s, id)) && !Cached(Erased(s, id), id)
  {
    hide Inv, Unique, CachedOf;
    ErasedKeepsInv(s, CachedOf(s), id);
    ErasedOnlyLoses(s, id);
    StaysUnique(s, Erased(s, id));
    InvCachedIs(Erased(s, id), CachedOf(s) - {NodeOf(s.handles, id)});
  }

  // ---- what is cached ------------------------------------------------------------------------------------

  /** Every cached entry is the latest insertion of its key, not erased since; without capacity there is none. */
  ghost predicate Fresh(capacity: nat, s: Shard, events: seq<Event>) {
    forall id :: Cached(s, id) ==>
      var h := s.handles[id];
      capacity > 0 && LastInserted(events, h.key, h.hash) == Some(Inserts(h.key, h.hash, h.value, h.charge))
  }

  lemma StepKeepsFresh(capacity: nat, s: Shard, e: Event, r: Option<nat>, t: Shard, events: seq<Event>)
    requires Good(s) && Step(capacity, s, e, r, t) && Fresh(capacity, s, events)
    ensures Good(t) && Fresh(capacity, t, events + [e])
  {
    var all := events + [e];
    assert all[..|all| - 1] == events;
    hide Inv, Unique, WithEntry, Evicted, CachedOf;
    if e.Inserts? {
      var m := InsertedStep(capacity, s, e, r, t);
      Inserted(s, e.key, e.hash, e.value, e.charge, capacity > 0, r, m);
      forall id | Cached(t, id)
        ensures capacity > 0 && var h := t.handles[id];
                LastInserted(all, h.key, h.hash) == Some(Inserts(h.key, h.hash, h.value, h.charge))
      {
        assert StillCached(m, t, id);
        if capacity == 0 || id != s.nextId {
          assert StillCached(s, m, id);
        }
      }
    } else {
      OtherSteps(capacity, s, e, r, t);
      forall id | Cached(t, id)
        ensures capacity > 0 && var h := t.handles[id];
                LastInserted(all, h.key, h.hash) == Some(Inserts(h.key, h.hash, h.value, h.charge))
      {
        assert StillCached(s, t, id);
        if e.Erases? && s.handles[id].key == e.key && s.handles[id].hash == e.hash {
          UniqueIds(s, id, r.value);
        }
      }
    }
  }

  lemma NewShard(capacity: nat)
    ensures var s := Shard(map[], [], [], 0, multiset{}, [], 0); Good(s) && Fresh(capacity, s, [])
  {
    EmptyShard();
    assert CachedOf(Shard(map[], [], [], 0, multiset{}, [], 0)) == {};
  }

  /** Over every run the lists, counts and charges are in step, and the cached entries are the latest ones. */
  lemma {:induction false} RunKeepsFresh(capacity: nat, shards: seq<Shard>, events: seq<Event>,
                                         found: seq<Option<nat>>, n: nat)
    requires Run(capacity, shards, events, found) && n <= |events|
    ensures Good(shards[n]) && Fresh(capacity, shards[n], events[..n])
  {
    hide Good, Fresh, Step;
    if n == 0 {
      NewShard(capacity);
    } else {
      RunKeepsFresh(capacity, shards, events, found, n - 1);
      assert events[..n] == events[..n - 1] + [events[n - 1]];
      StepKeepsFresh(capacity, shards[n - 1], events[n - 1], found[n - 1], shards[n], events[..n - 1]);
    }
  }

  /**
   A look-up that hits gives the value that was inserted last for the key, which no one has erased since; the
   charges of the shard are those of the insertions.
   */
  lemma LookupIsFresh(capacity: nat, shards: seq<Shard>, events: seq<Event>, found: seq<Option<nat>>, n: nat)
    requires Run(capacity, shards, events, found) && n < |events|
    requires events[n].LooksUp? && found[n].Some?
    ensures capacity > 0
    ensures found[n].value in shards[n].handles
    ensures var h := shards[n].handles[found[n].value];
            LastInserted(events[..n], events[n].key, events[n].hash)
              == Some(Inserts(events[n].key, events[n].hash, h.value, h.charge))
  {
    RunKeepsFresh(capacity, shards, events, found, n);
    assert Step(capacity, shards[n], events[n], found[n], shards[n + 1]);
    assert Cached(shards[n], found[n].value);
  }

  // ---- the order of eviction -----------------------------------------------------------------------------

  /** The entries come in the order of their latest releases. */
  ghost predicate InReleaseOrder(lru: seq<nat>, events: seq<Event>) {
    && (forall i :: 0 <= i < |lru| ==> LastRelease(events, lru[i]) > 0)
    && forall i, j :: 0 <= i < j < |lru| ==> LastRelease(events, lru[i]) < LastRelease(events, lru[j])
  }

  /** Cutting keeps the others in their order. */
  lemma {:induction false} CutKeepsOrder(s: seq<nat>, id: nat, events: seq<Event>)
    requires InReleaseOrder(s, events)
    ensures InReleaseOrder(Cut(s, id), events)
    ensures forall x :: x in Cut(s, id) ==> x in s && x != id
  {
    hide LastRelease;
    if s != [] {
      SuffixInOrder(s, 1, events);
      hide InReleaseOrder;
      CutKeepsOrder(s[1..], id, events);
      if s[0] != id {
        HeadComesFirst(s, Cut(s[1..], id), events);
      }
    }
  }

  lemma HeadComesFirst(s: seq<nat>, rest: seq<nat>, events: seq<Event>)
    requires InReleaseOrder(s, events) && s != []
    requires InReleaseOrder(rest, events) && forall x :: x in rest ==> x in s[1..]
    ensures InReleaseOrder([s[0]] + rest, events)
  {
    hide LastRelease;
    forall j | 0 <= j < |rest|
      ensures LastRelease(events, s[0]) < LastRelease(events, rest[j])
    {
      assert rest[j] in s[1..];
      var i :| 0 <= i < |s| - 1 && s[1..][i] == rest[j];
      assert s[i + 1] == rest[j];
    }
  }

  /** A step that is no release of a listed entry leaves the order as it was. */
  lemma SameReleases(lru: seq<nat>, events: seq<Event>, e: Event)
    requires InReleaseOrder(lru, events) && !(e.Releases? && e.id in lru)
    ensures InReleaseOrder(lru, events + [e])
  {
    assert (events + [e])[..|events|] == events;
    forall i | 0 <= i < |lru|
      ensures LastRelease(events + [e], lru[i]) == LastRelease(events, lru[i])
    {
      assert lru[i] in lru;
    }
  }

  lemma ReleasedComesLast(lru: seq<nat>, events: seq<Event>, id: nat)
    requires InReleaseOrder(lru, events) && id !in lru
    ensures InReleaseOrder(lru + [id], events + [Releases(id)])
  {
    SameReleases(lru, events, Releases(id));
    assert LastRelease(events + [Releases(id)], id) == |events| + 1;
    assert (events + [Releases(id)])[..|events|] == events;
    forall i | 0 <= i < |lru|
      ensures LastRelease(events + [Releases(id)], lru[i]) <= |events|
    {
      assert lru[i] in lru;
    }
  }

  lemma SuffixInOrder(lru: seq<nat>, k: nat, events: seq<Event>)
    requires InReleaseOrder(lru, events) && k <= |lru|
    ensures InReleaseOrder(lru[k..], events)
  {
    hide LastRelease;
  }

  /** The LRU list after each operation but eviction. */
  lemma StepKeepsOrder(capacity: nat, s: Shard, e: Event, r: Option<nat>, t: Shard, events: seq<Event>)
    requires Good(s) && Step(capacity, s, e, r, t) && InReleaseOrder(s.lru, events)
    ensures InReleaseOrder(t.lru, events + [e])
  {
    match e
    case Inserts(key, hash, value, charge) =>
      var m, k := InsertionGivesUp(capacity, s, e, r, t, events);
      hide Step, Good, InReleaseOrder;
      SuffixInOrder(m.lru, k, events);
      SameReleases(t.lru, events, e);
    case LooksUp(key, hash) =>
      if r.Some? {
        CutKeepsOrder(s.lru, r.value, events);
      }
      hide Good, InReleaseOrder, Inv, IsCached;
      SameReleases(t.lru, events, e);
    case Releases(id) =>
      EntryOf(s, id);
      CutKeepsOrder(s.lru, id, events);
      hide Good, InReleaseOrder, Inv;
      if s.handles[id].inCache && s.handles[id].refs == 2 {
        ReleasedComesLast(Cut(s.lru, id), events, id);
      } else {
        SameReleases(s.lru, events, e);
      }
    case Erases(key, hash) =>
      if r.Some? {
        CutKeepsOrder(s.lru, r.value, events);
      }
      hide Good, InReleaseOrder, Inv, IsCached;
      SameReleases(t.lru, events, e);
    case Prunes =>
      var k := EvictionIsExact(s, CachedOf(s), -1);
      hide Step, Good, Inv;
      SuffixInOrder(s.lru, k, events);
      SameReleases(s.lru[k..], events, e);
  }

  /** What an insertion gives up is a prefix of the list in which only the displaced entry is missing. */
  lemma InsertionGivesUp(capacity: nat, s: Shard, e: Event, r: Option<nat>, t: Shard, events: seq<Event>)
    returns (m: Shard, k: nat)
    requires Good(s) && e.Inserts? && Step(capacity, s, e, r, t) && InReleaseOrder(s.lru, events)
    ensures WithEntry(s, e.key, e.hash, e.value, e.charge, capacity > 0, r) == Some(m)
    ensures Good(m) && Good(t) && InReleaseOrder(m.lru, events)
    ensures GivesUp(m, t, capacity, k)
  {
    m := InsertedStep(capacity, s, e, r, t);
    k := EvictionIsExact(m, CachedOf(m), capacity);
    hide Good, Inv, Step, IsCached, GivesUp, InReleaseOrder;
    if r.Some? {
      CutKeepsOrder(s.lru, r.value, events);
    }
  }

  lemma NothingListed(events: seq<Event>)
    ensures InReleaseOrder([], events)
  {
  }

  /** Over every run the LRU list is in the order in which clients last released its entries. */
  lemma {:induction false} LruIsReleaseOrder(capacity: nat, shards: seq<Shard>, events: seq<Event>,
                                             found: seq<Option<nat>>, n: nat)
    requires Run(capacity, shards, events, found) && n <= |events|
    ensures InReleaseOrder(shards[n].lru, events[..n])
  {
    hide LastRelease, Good, Fresh, Step, InReleaseOrder;
    if n == 0 {
      NothingListed(events[..0]);
    } else {
      LruIsReleaseOrder(capacity, shards, events, found, n - 1);
      RunKeepsFresh(capacity, shards, events, found, n - 1);
      assert events[..n] == events[..n - 1] + [events[n - 1]];
      StepKeepsOrder(capacity, shards[n - 1], events[n - 1], found[n - 1], shards[n], events[..n - 1]);
    }
  }

  /** An entry that was cached before an insertion is still there before eviction, but for the displaced one. */
  lemma OnlyDisplacedLeaves(capacity: nat, s: Shard, e: Event, r: Option<nat>, m: Shard, x: nat)
    requires Good(s) && e.Inserts? && Cached(s, x) && r != Some(x)
    requires WithEntry(s, e.key, e.hash, e.value, e.charge, capacity > 0, r) == Some(m)
    ensures Cached(m, x) && m.held[x] == s.held[x]
  {
    EntryOf(s, x);
    EntryOf(s, s.nextId);
  }

  lemma GivenUpWasListed(m: Shard, t: Shard, capacity: int, k: nat, x: nat)
    requires Good(m) && Good(t) && GivesUp(m, t, capacity, k) && Cached(m, x) && !Cached(t, x)
    ensures x in m.lru[..k] && m.held[x] == 0
  {
    EntryOf(m, x);
    EntryOf(t, x);
    assert m.lru == m.lru[..k] + m.lru[k..];
  }

  /**
   What an insertion evicts no client holds, and it was last released before every entry that stays on the
   LRU list: the least recently used entries go.
   */
  lemma EvictedIsLeastRecent(capacity: nat, shards: seq<Shard>, events: seq<Event>, found: seq<Option<nat>>, n: nat,
                             x: nat, y: nat)
    requires Run(capacity, shards, events, found) && n < |events| && events[n].Inserts?
    requires Cached(shards[n], x) && !Cached(shards[n + 1], x) && found[n] != Some(x)
    requires y in shards[n + 1].lru
    ensures shards[n].held[x] == 0
    ensures 0 < LastRelease(events[..n], x) < LastRelease(events[..n], y)
  {
    RunKeepsFresh(capacity, shards, events, found, n);
    LruIsReleaseOrder(capacity, shards, events, found, n);
    var s, t := shards[n], shards[n + 1];
    assert Step(capacity, s, events[n], found[n], t);
    hide Good, Fresh, Step, InReleaseOrder, Cached;
    var m, k := InsertionGivesUp(capacity, s, events[n], found[n], t, events[..n]);
    OnlyDisplacedLeaves(capacity, s, events[n], found[n], m, x);
    GivenUpWasListed(m, t, capacity, k, x);
    InOrderAt(m.lru, k, events[..n], x, y);
  }

  lemma InOrderAt(lru: seq<nat>, k: nat, events: seq<Event>, x: nat, y: nat)
    requires InReleaseOrder(lru, events) && k <= |lru| && x in lru[..k] && y in lru[k..]
    ensures 0 < LastRelease(events, x) < LastRelease(events, y)
  {
    var i :| 0 <= i < k && lru[i] == x;
    var j :| 0 <= j < |lru| - k && lru[k..][j] == y;
    assert lru[k + j] == y;
  }
}
