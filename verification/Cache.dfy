/**
 One shard of the LRU cache (LRUCache, util/cache.cc).  Handles are numbers that stand for LRUHandle
 objects; the two circular lists are sequences, the oldest entry first.
 */
module Cache {
  import opened Options
  import opened HandleTable

  /** An LRUHandle.  A deleted entry is no longer in the handle map. */
  datatype Handle = Handle(key: Bytes, hash: nat, value: nat, charge: nat, inCache: bool, refs: nat)

  /**
   The state of a shard.  `held` are the references that clients have, and `deleted` the entries whose
   deleter has run, in that order; new entries are numbered from `nextId`.
   */
  datatype Shard = Shard(
    handles: map<nat, Handle>, lru: seq<nat>, inUse: seq<nat>, usage: int,
    held: multiset<nat>, deleted: seq<nat>, nextId: nat)

  // ---- lists ---------------------------------------------------------------------------------------------

  /** LRU_Remove on a list that may hold the entry. */
  function Cut(s: seq<nat>, id: nat): seq<nat> {
    if s == [] then [] else if s[0] == id then s[1..] else [s[0]] + Cut(s[1..], id)
  }

  ghost predicate Distinct(s: seq<nat>) {
    forall i, j :: 0 <= i < j < |s| ==> s[i] != s[j]
  }

  lemma {:induction false} CutIs(s: seq<nat>, id: nat)
    requires Distinct(s)
    ensures Distinct(Cut(s, id)) && id !in Cut(s, id)
    ensures forall x :: x in Cut(s, id) <==> x in s && x != id
    ensures id !in s ==> Cut(s, id) == s
    ensures id in s ==> |Cut(s, id)| == |s| - 1
  {
    if s != [] {
      assert s == [s[0]] + s[1..];
      assert s[0] !in s[1..];
      if s[0] != id {
        CutIs(s[1..], id);
        assert s[0] !in Cut(s[1..], id);
      }
    }
  }

  function ChargeOf(handles: map<nat, Handle>, id: nat): nat {
    if id in handles then handles[id].charge else 0
  }

  function Charges(handles: map<nat, Handle>, s: seq<nat>): nat {
    if s == [] then 0 else ChargeOf(handles, s[0]) + Charges(handles, s[1..])
  }

  lemma {:induction false} ChargesOfCut(handles: map<nat, Handle>, s: seq<nat>, id: nat)
    ensures Charges(handles, Cut(s, id)) == Charges(handles, s) - if id in s then ChargeOf(handles, id) else 0
  {
    if s != [] {
      assert s == [s[0]] + s[1..];
      if s[0] != id {
        ChargesOfCut(handles, s[1..], id);
        assert Cut(s, id)[1..] == Cut(s[1..], id);
      }
    }
  }

  lemma {:induction false} ChargesOfAppend(handles: map<nat, Handle>, s: seq<nat>, id: nat)
    ensures Charges(handles, s + [id]) == Charges(handles, s) + ChargeOf(handles, id)
  {
    if s == [] {
      assert [] + [id] == [id];
      assert [id][1..] == [];
    } else {
      ChargesOfAppend(handles, s[1..], id);
      assert (s + [id])[1..] == s[1..] + [id];
    }
  }

  lemma {:induction false} SameCharges(h: map<nat, Handle>, k: map<nat, Handle>, s: seq<nat>)
    requires forall id :: id in s ==> ChargeOf(h, id) == ChargeOf(k, id)
    ensures Charges(h, s) == Charges(k, s)
  {
    if s != [] {
      assert s[0] in s;
      assert forall id :: id in s[1..] ==> id in s;
      SameCharges(h, k, s[1..]);
    }
  }

  // ---- the operations on one entry -----------------------------------------------------------------------

  function WithRefs(s: Shard, id: nat, refs: nat): Shard
    requires id in s.handles
  {
    s.(handles := s.handles[id := s.handles[id].(refs := refs)])
  }

  /** Ref: the first client reference takes an entry off the LRU list. */
  function Referenced(s: Shard, id: nat): Shard
    requires id in s.handles
  {
    var h := s.handles[id];
    var t := if h.refs == 1 && h.inCache then s.(lru := Cut(s.lru, id), inUse := Cut(s.inUse, id) + [id]) else s;
    WithRefs(t, id, h.refs + 1)
  }

  /** Unref: the last reference deletes an entry, the last client reference puts it on the LRU list. */
  function Unreferenced(s: Shard, id: nat): Shard
    requires id in s.handles && s.handles[id].refs > 0
  {
    var h := s.handles[id];
    if h.refs == 1 then s.(handles := s.handles - {id}, deleted := s.deleted + [id])
    else if h.inCache && h.refs == 2 then
      WithRefs(s.(lru := Cut(s.lru, id) + [id], inUse := Cut(s.inUse, id)), id, 1)
    else WithRefs(s, id, h.refs - 1)
  }

  function TakenOut(s: Shard, id: nat): Shard
    requires id in s.handles
  {
    var h := s.handles[id];
    s.(lru := Cut(s.lru, id), inUse := Cut(s.inUse, id), usage := s.usage - h.charge,
       handles := s.handles[id := h.(inCache := false)])
  }

  /** FinishErase: the cache gives up an entry that is no longer in the table. */
  function Erased(s: Shard, id: nat): Shard
    requires id in s.handles && s.handles[id].refs > 0
  {
    Unreferenced(TakenOut(s, id), id)
  }

  /** Insert: a new entry with a reference of its client and one of the cache. */
  function Added(s: Shard, key: Bytes, hash: nat, value: nat, charge: nat): Shard {
    s.(handles := s.handles[s.nextId := Handle(key, hash, value, charge, true, 2)],
       inUse := s.inUse + [s.nextId], usage := s.usage + charge,
       held := s.held + multiset{s.nextId}, nextId := s.nextId + 1)
  }

  /** Insert with capacity 0: the entry is its client's alone. */
  function Uncached(s: Shard, key: Bytes, hash: nat, value: nat, charge: nat): Shard {
    s.(handles := s.handles[s.nextId := Handle(key, hash, value, charge, false, 1)],
       held := s.held + multiset{s.nextId}, nextId := s.nextId + 1)
  }

  // ---- the invariant -------------------------------------------------------------------------------------

  function NodeOf(handles: map<nat, Handle>, id: nat): Node
    requires id in handles
  {
    Node(id, handles[id].key, handles[id].hash)
  }

  /** How an entry is counted and where it is listed. */
  ghost predicate EntryInv(s: Shard, id: nat) {
    if id in s.handles then
      var h := s.handles[id];
      && h.refs > 0 && h.refs == s.held[id] + (if h.inCache then 1 else 0)
      && (id in s.lru <==> h.inCache && h.refs == 1)
      && (id in s.inUse <==> h.inCache && h.refs >= 2)
      && id < s.nextId && id !in s.deleted
    else
      s.held[id] == 0 && id !in s.lru && id !in s.inUse && (id in s.deleted <==> id < s.nextId)
  }

  ghost predicate CachedAre(s: Shard, cached: set<Node>) {
    forall n :: n in cached <==> n.id in s.handles && s.handles[n.id].inCache && n == NodeOf(s.handles, n.id)
  }

  ghost predicate ListsInv(s: Shard) {
    && Distinct(s.lru) && Distinct(s.inUse) && Distinct(s.deleted)
    && s.usage == Charges(s.handles, s.lru) + Charges(s.handles, s.inUse)
  }

  /** `cached` are the entries of the cache as its table knows them. */
  ghost predicate Inv(s: Shard, cached: set<Node>) {
    && (forall id: nat :: EntryInv(s, id))
    && CachedAre(s, cached) && ListsInv(s)
  }

  lemma MovedBack(s: seq<nat>, id: nat)
    requires Distinct(s)
    ensures Distinct(Cut(s, id) + [id])
    ensures forall x :: x in Cut(s, id) + [id] <==> x in s || x == id
  {
    CutIs(s, id);
  }

  lemma ReferencedKeepsLists(s: Shard, id: nat)
    requires ListsInv(s) && EntryInv(s, id) && id in s.handles
    ensures ListsInv(Referenced(s, id))
  {
    var t := Referenced(s, id);
    CutIs(s.lru, id);
    CutIs(s.inUse, id);
    MovedBack(s.inUse, id);
    hide Cut, Distinct;
    SameCharges(s.handles, t.handles, s.lru);
    SameCharges(s.handles, t.handles, s.inUse);
    ChargesOfCut(t.handles, s.lru, id);
    ChargesOfAppend(t.handles, s.inUse, id);
  }

  lemma ReferencedKeepsInv(s: Shard, cached: set<Node>, id: nat)
    requires Inv(s, cached) && id in s.handles
    ensures Inv(Referenced(s, id).(held := s.held + multiset{id}), cached)
  {
    hide ListsInv;
    var t := Referenced(s, id).(held := s.held + multiset{id});
    assert EntryInv(s, id);
    ReferencedKeepsLists(s, id);
    SameLists(Referenced(s, id), t);
    CutLists(s, id);
    hide Cut;
    forall x: nat
      ensures EntryInv(t, x)
    {
      assert EntryInv(s, x);
    }
  }

  lemma SameLists(s: Shard, t: Shard)
    requires ListsInv(s)
    requires t.lru == s.lru && t.inUse == s.inUse && t.deleted == s.deleted && t.usage == s.usage
               && t.handles == s.handles
    ensures ListsInv(t)
  {
  }

  lemma CutLists(s: Shard, id: nat)
    requires ListsInv(s)
    ensures forall x :: x in Cut(s.lru, id) <==> x in s.lru && x != id
    ensures forall x :: x in Cut(s.inUse, id) <==> x in s.inUse && x != id
  {
    CutIs(s.lru, id);
    CutIs(s.inUse, id);
  }

  // ---- releasing -----------------------------------------------------------------------------------------

  lemma UnreferencedKeepsLists(s: Shard, id: nat)
    requires ListsInv(s) && EntryInv(s, id) && id in s.handles
    requires s.handles[id].refs == 1 ==> !s.handles[id].inCache
    ensures ListsInv(Unreferenced(s, id))
  {
    var t := Unreferenced(s, id);
    CutIs(s.lru, id);
    CutIs(s.inUse, id);
    MovedBack(s.lru, id);
    hide Cut, Distinct;
    SameCharges(s.handles, t.handles, s.lru);
    SameCharges(s.handles, t.handles, s.inUse);
    ChargesOfCut(t.handles, s.inUse, id);
    ChargesOfAppend(t.handles, s.lru, id);
    if s.handles[id].refs == 1 {
      OneMoreDeleted(s.deleted, id);
    }
  }

  lemma OneMoreDeleted(s: seq<nat>, id: nat)
    requires Distinct(s) && id !in s
    ensures Distinct(s + [id])
  {
  }

  /** Release: a client gives up one of its references. */
  lemma ReleasedKeepsInv(s: Shard, cached: set<Node>, id: nat)
    requires Inv(s, cached) && s.held[id] > 0
    ensures id in s.handles && s.handles[id].refs > 0
    ensures Inv(Unreferenced(s, id).(held := s.held - multiset{id}), cached)
  {
    hide ListsInv;
    assert EntryInv(s, id);
    var t := Unreferenced(s, id).(held := s.held - multiset{id});
    UnreferencedKeepsLists(s, id);
    SameLists(Unreferenced(s, id), t);
    CutLists(s, id);
    hide Cut;
    forall x: nat
      ensures EntryInv(t, x)
    {
      assert EntryInv(s, x);
    }
  }

  // ---- leaving and entering the cache --------------------------------------------------------------------

  /** The cache's own reference goes: a step on the way of FinishErase. */
  function Dropped(s: Shard, id: nat): Shard
    requires id in s.handles
  {
    var h := s.handles[id];
    s.(lru := Cut(s.lru, id), inUse := Cut(s.inUse, id), usage := s.usage - h.charge,
       handles := s.handles[id := h.(inCache := false)])
  }

  lemma DroppedKeepsLists(s: Shard, id: nat)
    requires ListsInv(s) && EntryInv(s, id) && id in s.handles && s.handles[id].inCache
    ensures ListsInv(Dropped(s, id))
  {
    var t := Dropped(s, id);
    CutIs(s.lru, id);
    CutIs(s.inUse, id);
    hide Cut, Distinct;
    SameCharges(s.handles, t.handles, s.lru);
    SameCharges(s.handles, t.handles, s.inUse);
    ChargesOfCut(t.handles, s.lru, id);
    ChargesOfCut(t.handles, s.inUse, id);
  }

  lemma ErasedKeepsLists(s: Shard, id: nat)
    requires ListsInv(s) && EntryInv(s, id) && id in s.handles && s.handles[id].inCache
    ensures ListsInv(Erased(s, id))
  {
    hide ListsInv;
    DroppedKeepsLists(s, id);
    CutLists(s, id);
    var t := Dropped(s, id);
    hide Charges;
    if t.handles[id].refs == 1 {
      DeletedKeepsLists(t, id);
    } else {
      RefsKeepLists(t, id, t.handles[id].refs - 1);
    }
  }

  lemma DeletedKeepsLists(s: Shard, id: nat)
    requires ListsInv(s) && id !in s.lru && id !in s.inUse && id !in s.deleted
    ensures ListsInv(s.(handles := s.handles - {id}, deleted := s.deleted + [id]))
  {
    hide Distinct;
    var t := s.(handles := s.handles - {id}, deleted := s.deleted + [id]);
    SameCharges(s.handles, t.handles, s.lru);
    SameCharges(s.handles, t.handles, s.inUse);
    OneMoreDeleted(s.deleted, id);
  }

  lemma RefsKeepLists(s: Shard, id: nat, refs: nat)
    requires ListsInv(s) && id in s.handles
    ensures ListsInv(WithRefs(s, id, refs))
  {
    hide Distinct;
    SameCharges(s.handles, WithRefs(s, id, refs).handles, s.lru);
    SameCharges(s.handles, WithRefs(s, id, refs).handles, s.inUse);
  }

  lemma ErasedKeepsInv(s: Shard, cached: set<Node>, id: nat)
    requires Inv(s, cached) && id in s.handles && s.handles[id].inCache
    ensures s.handles[id].refs > 0
    ensures Inv(Erased(s, id), cached - {NodeOf(s.handles, id)})
  {
    hide ListsInv;
    assert EntryInv(s, id);
    var t := Erased(s, id);
    ErasedKeepsLists(s, id);
    CutLists(s, id);
    hide Cut;
    forall x: nat
      ensures EntryInv(t, x)
    {
      assert EntryInv(s, x);
    }
  }

  lemma AddedKeepsInv(s: Shard, cached: set<Node>, key: Bytes, hash: nat, value: nat, charge: nat)
    requires Inv(s, cached)
    ensures Inv(Added(s, key, hash, value, charge), cached + {Node(s.nextId, key, hash)})
    ensures Node(s.nextId, key, hash) !in cached
  {
    hide ListsInv;
    assert EntryInv(s, s.nextId);
    var t := Added(s, key, hash, value, charge);
    AddedKeepsLists(s, key, hash, value, charge);
    forall x: nat
      ensures EntryInv(t, x)
    {
      assert EntryInv(s, x);
    }
  }

  lemma AddedKeepsLists(s: Shard, key: Bytes, hash: nat, value: nat, charge: nat)
    requires ListsInv(s) && EntryInv(s, s.nextId) && s.nextId !in s.handles
    ensures ListsInv(Added(s, key, hash, value, charge))
  {
    var t := Added(s, key, hash, value, charge);
    OneMoreDeleted(s.inUse, s.nextId);
    hide Distinct;
    SameCharges(s.handles, t.handles, s.lru);
    SameCharges(s.handles, t.handles, s.inUse);
    ChargesOfAppend(t.handles, s.inUse, s.nextId);
  }

  lemma UncachedKeepsInv(s: Shard, cached: set<Node>, key: Bytes, hash: nat, value: nat, charge: nat)
    requires Inv(s, cached)
    ensures Inv(Uncached(s, key, hash, value, charge), cached)
  {
    hide Distinct;
    assert EntryInv(s, s.nextId);
    var t := Uncached(s, key, hash, value, charge);
    forall x: nat
      ensures EntryInv(t, x)
    {
      assert EntryInv(s, x);
    }
    SameCharges(s.handles, t.handles, s.lru);
    SameCharges(s.handles, t.handles, s.inUse);
  }

  /**
   The deleter of an entry has run, and once, exactly when neither the cache nor a client refers to it;
   the others are counted by their references and are on at most one list.
   */
  lemma DeletedExactlyOnce(s: Shard, cached: set<Node>, id: nat)
    requires Inv(s, cached) && id < s.nextId
    ensures id in s.deleted <==> s.held[id] == 0 && forall n :: n in cached ==> n.id != id
    ensures multiset(s.deleted)[id] <= 1
    ensures id in s.handles <==> id !in s.deleted
    ensures !(id in s.lru && id in s.inUse)
    ensures id in s.lru || id in s.inUse <==> exists n :: n in cached && n.id == id
  {
    assert EntryInv(s, id);
    if id in s.handles && s.handles[id].inCache {
      assert NodeOf(s.handles, id) in cached;
    }
    CountDistinct(s.deleted, id);
  }

  lemma {:induction false} CountDistinct(s: seq<nat>, id: nat)
    requires Distinct(s)
    ensures multiset(s)[id] <= 1
  {
    if s != [] {
      var n := |s| - 1;
      CountDistinct(s[..n], id);
      assert s == s[..n] + [s[n]];
      assert multiset(s) == multiset(s[..n]) + multiset{s[n]};
      if s[n] == id {
        assert id !in s[..n];
      }
    }
  }

  // ---- eviction ------------------------------------------------------------------------------------------

  /** While the shard is over its capacity, the entry at the old end of the LRU list goes. */
  ghost function Evicted(s: Shard, cached: set<Node>, capacity: int): (r: (Shard, set<Node>))
    requires Inv(s, cached)
    ensures Inv(r.0, r.1)
    decreases |s.lru|
  {
    if s.usage <= capacity || s.lru == [] then (s, cached) else
      OldestIsEvictable(s, cached);
      ErasedKeepsInv(s, cached, s.lru[0]);
      Evicted(Erased(s, s.lru[0]), cached - {NodeOf(s.handles, s.lru[0])}, capacity)
  }

  /** The entries of the cache, from their handles. */
  ghost function CachedOf(s: Shard): set<Node> {
    set id | id in s.handles && s.handles[id].inCache :: NodeOf(s.handles, id)
  }

  lemma CachedIs(s: Shard, cached: set<Node>)
    requires CachedAre(s, cached)
    ensures cached == CachedOf(s)
  {
    forall n | n in cached
      ensures n in CachedOf(s)
    {
      assert n.id in s.handles;
    }
  }

  lemma InvCachedIs(s: Shard, cached: set<Node>)
    requires Inv(s, cached)
    ensures cached == CachedOf(s)
  {
    CachedIs(s, cached);
  }

  lemma NotListed(s: seq<nat>, id: nat)
    ensures id !in s ==> Cut(s, id) == s
  {
  }

  lemma OldestIsEvictable(s: Shard, cached: set<Node>)
    requires Inv(s, cached) && s.lru != []
    ensures var id := s.lru[0];
      && id in s.handles && s.handles[id].inCache && s.handles[id].refs == 1
      && NodeOf(s.handles, id) in cached
      && Erased(s, id).lru == s.lru[1..] && Erased(s, id).inUse == s.inUse
      && Erased(s, id).deleted == s.deleted + [id] && Erased(s, id).usage == s.usage - s.handles[id].charge
      && Erased(s, id).held == s.held && Erased(s, id).nextId == s.nextId
  {
    var id := s.lru[0];
    assert EntryInv(s, id);
    CutIs(s.inUse, id);
  }

  /** The first `k` entries of the LRU list are gone, and without the last of them too little would be. */
  ghost predicate GivesUp(s: Shard, t: Shard, capacity: int, k: nat) {
    && k <= |s.lru| && t.lru == s.lru[k..] && t.deleted == s.deleted + s.lru[..k]
    && t.held == s.held && t.inUse == s.inUse && t.nextId == s.nextId
    && (if k == 0 then t.usage == s.usage else t.usage + ChargeOf(s.handles, s.lru[k - 1]) > capacity)
  }

  /**
   Eviction takes the least recently used entries and no more of them than it must: it stops within
   the capacity, or when only entries that clients hold are left.
   */
  lemma {:induction false} EvictionIsExact(s: Shard, cached: set<Node>, capacity: int) returns (k: nat)
    requires Inv(s, cached)
    ensures var t := Evicted(s, cached, capacity).0;
            (t.usage <= capacity || t.lru == []) && GivesUp(s, t, capacity, k)
    decreases |s.lru|
  {
    hide Inv, Erased, GivesUp;
    if s.usage <= capacity || s.lru == [] {
      k := 0;
      GivesUpNothing(s, capacity);
    } else {
      OldestIsEvictable(s, cached);
      ErasedKeepsInv(s, cached, s.lru[0]);
      var s' := Erased(s, s.lru[0]);
      var cached' := cached - {NodeOf(s.handles, s.lru[0])};
      var k' := EvictionIsExact(s', cached', capacity);
      k := k' + 1;
      GivesUpOneMore(s, cached, Evicted(s', cached', capacity).0, capacity, k');
    }
  }

  lemma GivesUpNothing(s: Shard, capacity: int)
    ensures GivesUp(s, s, capacity, 0)
  {
    assert s.lru[0..] == s.lru && s.deleted + s.lru[..0] == s.deleted;
  }

  lemma GivesUpOneMore(s: Shard, cached: set<Node>, t: Shard, capacity: int, k: nat)
    requires Inv(s, cached) && s.lru != [] && s.usage > capacity
    requires s.lru[0] in s.handles && s.handles[s.lru[0]].refs > 0
    requires GivesUp(Erased(s, s.lru[0]), t, capacity, k)
    ensures GivesUp(s, t, capacity, k + 1)
  {
    OldestIsEvictable(s, cached);
    var s' := Erased(s, s.lru[0]);
    if k > 0 {
      OtherCharge(s, s.lru[0], s.lru[k]);
    }
    hide Erased, EntryInv, CachedAre;
    assert s.lru[k + 1..] == s'.lru[k..];
    assert s.deleted + s.lru[..k + 1] == s'.deleted + s'.lru[..k];
  }

  lemma OtherCharge(s: Shard, id: nat, other: nat)
    requires id in s.handles && s.handles[id].refs > 0 && id != other
    ensures ChargeOf(Erased(s, id).handles, other) == ChargeOf(s.handles, other)
  {
  }

  // ---- the shard -----------------------------------------------------------------------------------------

  /** The entry of the cache with this key and hash, if there is one. */
  ghost predicate IsCached(s: Shard, key: Bytes, hash: nat, r: Option<nat>) {
    if r.Some? then
      r.value in s.handles && s.handles[r.value].inCache && s.handles[r.value].key == key
        && s.handles[r.value].hash == hash
    else
      forall id :: id in s.handles && s.handles[id].inCache ==>
        !(s.handles[id].key == key && s.handles[id].hash == hash)
  }

  lemma EntryIsCached(s: Shard, cached: set<Node>, key: Bytes, hash: nat, n: Option<Node>)
    requires CachedAre(s, cached) && IsEntry(cached, key, hash, n)
    ensures IsCached(s, key, hash, if n.Some? then Some(n.value.id) else None)
    ensures n.Some? ==> n.value == NodeOf(s.handles, n.value.id)
  {
    if n.None? {
      forall id | id in s.handles && s.handles[id].inCache
        ensures !(s.handles[id].key == key && s.handles[id].hash == hash)
      {
        assert NodeOf(s.handles, id) in cached;
      }
    }
  }

  lemma EmptyShard()
    ensures Inv(Shard(map[], [], [], 0, multiset{}, [], 0), {})
  {
    var s := Shard(map[], [], [], 0, multiset{}, [], 0);
    assert forall id: nat :: EntryInv(s, id);
  }

  // ---- the operations as steps ---------------------------------------------------------------------------

  datatype Event =
    | Inserts(key: Bytes, hash: nat, value: nat, charge: nat)
    | LooksUp(key: Bytes, hash: nat)
    | Releases(id: nat)
    | Erases(key: Bytes, hash: nat)
    | Prunes

  /** One operation on a shard of the given capacity; `r` is the entry that the handle map has for the key. */
  ghost predicate Step(capacity: nat, s: Shard, e: Event, r: Option<nat>, t: Shard) {
    match e
    case Inserts(key, hash, value, charge) =>
      var m := WithEntry(s, key, hash, value, charge, capacity > 0, r);
      && IsCached(s, key, hash, r) && m.Some? && Inv(m.value, CachedOf(m.value))
      && t == Evicted(m.value, CachedOf(m.value), capacity).0
    case LooksUp(key, hash) =>
      && IsCached(s, key, hash, r)
      && t == if r.Some? then Referenced(s, r.value).(held := s.held + multiset{r.value}) else s
    case Releases(id) =>
      && s.held[id] > 0 && id in s.handles && s.handles[id].refs > 0
      && t == Unreferenced(s, id).(held := s.held - multiset{id})
    case Erases(key, hash) =>
      && IsCached(s, key, hash, r) && (r.Some? ==> s.handles[r.value].refs > 0)
      && t == if r.Some? then Erased(s, r.value) else s
    case Prunes =>
      Inv(s, CachedOf(s)) && t == Evicted(s, CachedOf(s), -1).0
  }

  class LRUCache {
    const table: HandleTable
    var capacity: nat
    var usage: int
    var lru: seq<nat>
    var inUse: seq<nat>
    var handles: map<nat, Handle>
    var nextId: nat
    ghost var held: multiset<nat>
    var deleted: seq<nat>

    ghost function State(): Shard
      reads this
    {
      Shard(handles, lru, inUse, usage, held, deleted, nextId)
    }

    ghost predicate Valid()
      reads this, table
    {
      table.Valid() && Inv(State(), table.Nodes())
    }

    constructor ()
      ensures Valid() && fresh(table) && capacity == 0 && handles == map[] && deleted == []
    {
      hide Inv;
      table := new HandleTable();
      capacity, usage, lru, inUse, handles, nextId, held, deleted := 0, 0, [], [], map[], 0, multiset{}, [];
      EmptyShard();
    }

    method SetCapacity(capacity: nat)
      requires Valid()
      modifies this`capacity
      ensures Valid() && this.capacity == capacity
    {
      this.capacity := capacity;
    }

    method Ref(id: nat)
      requires id in handles
      modifies this`lru, this`inUse, this`handles
      ensures State() == Referenced(old(State()), id)
    {
      var h := handles[id];
      if h.refs == 1 && h.inCache {
        lru, inUse := Cut(lru, id), Cut(inUse, id);
        inUse := inUse + [id];
      }
      handles := handles[id := h.(refs := h.refs + 1)];
    }

    method Unref(id: nat)
      requires id in handles && handles[id].refs > 0
      modifies this`lru, this`inUse, this`handles, this`deleted
      ensures State() == Unreferenced(old(State()), id)
    {
      var h := handles[id];
      var refs := h.refs - 1;
      if refs == 0 {
        deleted := deleted + [id];
        handles := handles - {id};
      } else {
        if h.inCache && refs == 1 {
          lru, inUse := Cut(lru, id), Cut(inUse, id);
          lru := lru + [id];
        }
        handles := handles[id := h.(refs := refs)];
      }
    }

    /** FinishErase for an entry that was found in the table. */
    method FinishErase(id: nat)
      requires id in handles && handles[id].refs > 0
      modifies this`lru, this`inUse, this`handles, this`deleted, this`usage
      ensures State() == Erased(old(State()), id)
    {
      hide Cut, Unreferenced;
      lru, inUse := Cut(lru, id), Cut(inUse, id);
      usage := usage - handles[id].charge;
      handles := handles[id := handles[id].(inCache := false)];
      assert State() == TakenOut(old(State()), id);
      Unref(id);
    }

    /** Lookup: the entry a map of the cached keys gives, with one more client reference. */
    method Lookup(key: Bytes, hash: nat) returns (r: Option<nat>)
      requires Valid()
      modifies this`lru, this`inUse, this`handles, this`held
      ensures Valid() && IsCached(old(State()), key, hash, r)
      ensures Step(capacity, old(State()), LooksUp(key, hash), r, State())
    {
      hide EntryInv, Cut, ListsInv;
      var n := table.Lookup(key, hash);
      EntryIsCached(State(), table.Nodes(), key, hash, n);
      if n.None? {
        return None;
      }
      r := Some(n.value.id);
      ReferencedKeepsInv(State(), table.Nodes(), n.value.id);
      Ref(n.value.id);
      held := held + multiset{n.value.id};
    }

    method Release(id: nat)
      requires Valid() && held[id] > 0
      modifies this`lru, this`inUse, this`handles, this`deleted, this`held
      ensures Valid()
      ensures Step(capacity, old(State()), Releases(id), None, State())
      ensures lru == if old(held)[id] == 1 && id in old(handles) && old(handles)[id].inCache
                     then old(lru) + [id] else old(lru)
    {
      hide ListsInv;
      ReleasedKeepsInv(State(), table.Nodes(), id);
      assert EntryInv(State(), id);
      NotListed(lru, id);
      Unref(id);
      held := held - multiset{id};
    }

    /** Takes the entry with this key out of the table and gives it up. */
    method Erase(key: Bytes, hash: nat) returns (ghost r: Option<nat>)
      requires Valid()
      modifies this`lru, this`inUse, this`handles, this`deleted, this`usage, table
      ensures Valid() && IsCached(old(State()), key, hash, r)
      ensures Step(capacity, old(State()), Erases(key, hash), r, State())
      ensures table.Nodes() == old(table.Nodes()) - if r.Some? then {NodeOf(old(handles), r.value)} else {}
    {
      hide EntryInv, Cut, ListsInv, HandleTable.Valid, HandleTable.Nodes;
      var n := table.Remove(key, hash);
      EntryIsCached(State(), old(table.Nodes()), key, hash, n);
      if n.Some? {
        r := Some(n.value.id);
        ErasedKeepsInv(State(), old(table.Nodes()), n.value.id);
        FinishErase(n.value.id);
      } else {
        r := None;
      }
    }

    /** The loop of Insert, and of Prune with a capacity that nothing satisfies. */
    method Evict(limit: int)
      requires Valid()
      modifies this`lru, this`inUse, this`handles, this`deleted, this`usage, table
      ensures Valid()
      ensures (State(), table.Nodes()) == Evicted(old(State()), old(table.Nodes()), limit)
    {
      hide Inv, IsCached, Erased;
      while usage > limit && lru != []
        invariant Valid() && held == old(held) && nextId == old(nextId)
        invariant Evicted(State(), table.Nodes(), limit) == Evicted(old(State()), old(table.Nodes()), limit)
        decreases |lru|
      {
        var old_ := lru[0];
        OldestIsEvictable(State(), table.Nodes());
        ghost var s, cached := State(), table.Nodes();
        TableIsUnique(table);
        ghost var r := Erase(handles[old_].key, handles[old_].hash);
        SameEntry(s, cached, old_, r);
      }
    }

    /** Insert, before it evicts. */
    method AddEntry(key: Bytes, hash: nat, value: nat, charge: nat) returns (id: nat, ghost dup: Option<nat>)
      requires Valid()
      modifies this`lru, this`inUse, this`handles, this`deleted, this`usage, this`nextId, this`held, table
      ensures Valid() && id == old(nextId)
      ensures IsCached(old(State()), key, hash, dup)
      ensures WithEntry(old(State()), key, hash, value, charge, capacity > 0, dup) == Some(State())
    {
      hide Inv, IsCached, Erased, Unique, HandleTable.Valid, HandleTable.Nodes;
      id := nextId;
      ghost var s, cached := State(), table.Nodes();
      dup := None;
      if capacity > 0 {
        AddedKeepsInv(s, cached, key, hash, value, charge);
        handles := handles[id := Handle(key, hash, value, charge, true, 2)];
        inUse := inUse + [id];
        usage := usage + charge;
        nextId, held := nextId + 1, held + multiset{id};
        ghost var t := State();
        assert t == Added(s, key, hash, value, charge);
        var n := table.Insert(Node(id, key, hash));
        DupIsCached(s, cached, key, hash, value, charge, n);
        if n.Some? {
          dup := Some(n.value.id);
          ErasedKeepsInv(t, cached + {Node(id, key, hash)}, n.value.id);
          FinishErase(n.value.id);
          assert table.Nodes() == cached + {Node(id, key, hash)} - {n.value};
        } else {
          assert table.Nodes() == cached + {Node(id, key, hash)};
        }
      } else {
        UncachedKeepsInv(s, cached, key, hash, value, charge);
        handles := handles[id := Handle(key, hash, value, charge, false, 1)];
        nextId, held := nextId + 1, held + multiset{id};
        assert State() == Uncached(s, key, hash, value, charge);
        var n := table.Lookup(key, hash);
        DupIsCached(s, cached, key, hash, value, charge, n);
        dup := if n.Some? then Some(n.value.id) else None;
      }
    }

    /** Insert: a new entry for its client, in place of one with the same key, and then eviction. */
    method Insert(key: Bytes, hash: nat, value: nat, charge: nat)
      returns (id: nat, ghost dup: Option<nat>, ghost k: nat)
      requires Valid()
      modifies this`lru, this`inUse, this`handles, this`deleted, this`usage, this`nextId, this`held, table
      ensures Valid() && id == old(nextId)
      ensures usage <= capacity || lru == []
      ensures IsCached(old(State()), key, hash, dup)
      ensures var t := WithEntry(old(State()), key, hash, value, charge, capacity > 0, dup);
              t.Some? && GivesUp(t.value, State(), capacity, k)
      ensures Step(capacity, old(State()), Inserts(key, hash, value, charge), dup, State())
    {
      hide Inv, IsCached, WithEntry, GivesUp, CachedOf, HandleTable.Valid, HandleTable.Nodes;
      id, dup := AddEntry(key, hash, value, charge);
      InvCachedIs(State(), table.Nodes());
      k := EvictionIsExact(State(), table.Nodes(), capacity);
      Evict(capacity);
    }

    /** Prune: everything that no client holds goes. */
    method Prune()
      requires Valid()
      modifies this`lru, this`inUse, this`handles, this`deleted, this`usage, table
      ensures Valid() && lru == [] && inUse == old(inUse) && deleted == old(deleted) + old(lru) && held == old(held)
      ensures Step(capacity, old(State()), Prunes, None, State())
    {
      hide Inv, Erased, CachedOf;
      InvCachedIs(State(), table.Nodes());
      UsageIsNotNegative(State(), table.Nodes());
      ghost var k := EvictionIsExact(State(), table.Nodes(), -1);
      ghost var s := State();
      Evict(-1);
      UsageIsNotNegative(State(), table.Nodes());
      assert k == |s.lru|;
      assert s.lru[..k] == s.lru;
    }
  }

  /** The state after Insert and before it evicts; without a capacity an old entry of the key stays. */
  function WithEntry(s: Shard, key: Bytes, hash: nat, value: nat, charge: nat, cache: bool,
                     dup: Option<nat>): Option<Shard> {
    if !cache then Some(Uncached(s, key, hash, value, charge))
    else if dup.None? then Some(Added(s, key, hash, value, charge))
    else
      var t := Added(s, key, hash, value, charge);
      if dup.value in t.handles && t.handles[dup.value].refs > 0 then Some(Erased(t, dup.value)) else None
  }

  /** The table tells the entries of the cache apart by key and hash. */
  lemma SameEntry(s: Shard, cached: set<Node>, id: nat, r: Option<nat>)
    requires Inv(s, cached) && Unique(cached)
    requires id in s.handles && s.handles[id].inCache && IsCached(s, s.handles[id].key, s.handles[id].hash, r)
    ensures r == Some(id)
  {
    assert NodeOf(s.handles, id) in cached;
    if r.Some? {
      assert NodeOf(s.handles, r.value) in cached;
    }
  }

  lemma DupIsCached(s: Shard, cached: set<Node>, key: Bytes, hash: nat, value: nat, charge: nat, n: Option<Node>)
    requires Inv(s, cached) && IsEntry(cached, key, hash, n)
    ensures IsCached(s, key, hash, if n.Some? then Some(n.value.id) else None)
    ensures n.Some? ==>
      var t := Added(s, key, hash, value, charge);
      && n.value.id in t.handles && t.handles[n.value.id].inCache && t.handles[n.value.id].refs > 0
      && n.value == NodeOf(t.handles, n.value.id) && n.value.id != s.nextId
  {
    EntryIsCached(s, cached, key, hash, n);
    if n.Some? {
      assert EntryInv(s, n.value.id);
    }
  }

  lemma UsageIsNotNegative(s: Shard, cached: set<Node>)
    requires Inv(s, cached)
    ensures s.usage >= 0
  {
  }

  lemma TableIsUnique(table: HandleTable)
    requires table.Valid()
    ensures Unique(table.Nodes())
  {
  }
}
