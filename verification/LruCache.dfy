/** The LRU cache: two rings of handles, linked in both directions, beside the hash table
    (class LRUCache of util/cache.cc). */
module LruCaches {
  import opened HandleTables
  import opened Caches

  // ---------------------------------------------------------------- rings

  function At(head: Ptr, list: seq<Ptr>, j: int): Ptr {
    if 0 <= j < |list| then list[j] else head
  }

  /** From `head` on through this list and back, in both directions. */
  ghost predicate Ring(next: map<Ptr, Ptr>, prev: map<Ptr, Ptr>, head: Ptr, list: seq<Ptr>) {
    NoRepeats(list) && head !in list && forall use: nat :: Links(next, prev, head, list, use)
  }

  ghost predicate Links(next: map<Ptr, Ptr>, prev: map<Ptr, Ptr>, head: Ptr, list: seq<Ptr>, use: nat) {
    forall j: nat :: LinkAt(next, prev, head, list, j)
  }

  ghost predicate LinkAt(next: map<Ptr, Ptr>, prev: map<Ptr, Ptr>, head: Ptr, list: seq<Ptr>, j: nat) {
    j <= |list| ==>
      var a, b := At(head, list, j - 1), At(head, list, j);
      a in next && next[a] == b && b in prev && prev[b] == a
  }

  lemma RingAt(next: map<Ptr, Ptr>, prev: map<Ptr, Ptr>, head: Ptr, list: seq<Ptr>, j: nat)
    requires Ring(next, prev, head, list)
    ensures LinkAt(next, prev, head, list, j)
  {
    assert Links(next, prev, head, list, 0);
  }

  lemma RingStays(next: map<Ptr, Ptr>, prev: map<Ptr, Ptr>, next': map<Ptr, Ptr>, prev': map<Ptr, Ptr>, head: Ptr, list: seq<Ptr>)
    requires Ring(next, prev, head, list)
    requires forall p :: p == head || p in list ==>
               (p in next ==> p in next' && next'[p] == next[p]) && (p in prev ==> p in prev' && prev'[p] == prev[p])
    ensures Ring(next', prev', head, list)
  {
    forall j: nat
      ensures LinkAt(next', prev', head, list, j)
    {
      RingAt(next, prev, head, list, j);
    }
  }

  lemma {:induction false} WithoutAt(list: seq<Ptr>, i: nat)
    requires NoRepeats(list) && i < |list|
    ensures Without(list, list[i]) == list[..i] + list[i + 1..]
  {
    if i > 0 {
      assert list[1..][i - 1] == list[i];
      WithoutAt(list[1..], i - 1);
      assert list[..i] == [list[0]] + list[1..][..i - 1] && list[1..][i - 1 + 1..] == list[i + 1..];
    }
  }

  lemma RingLoses(next: map<Ptr, Ptr>, prev: map<Ptr, Ptr>, head: Ptr, list: seq<Ptr>, p: Ptr)
    requires Ring(next, prev, head, list) && p in list
    ensures p in next && p in prev && next[p] != p && prev[p] != p
    ensures (prev[p] == head || prev[p] in list) && (next[p] == head || next[p] in list)
    ensures Ring(next[prev[p] := next[p]], prev[next[p] := prev[p]], head, Without(list, p))
  {
    var i: nat :| i < |list| && list[i] == p;
    WithoutAt(list, i);
    RingAt(next, prev, head, list, i);
    RingAt(next, prev, head, list, i + 1);
    var rest := list[..i] + list[i + 1..];
    var next', prev' := next[prev[p] := next[p]], prev[next[p] := prev[p]];
    forall j: nat
      ensures LinkAt(next', prev', head, rest, j)
    {
      if j <= |rest| {
        LinkLost(next, prev, head, list, i, j);
      }
    }
  }

  lemma LinkLost(next: map<Ptr, Ptr>, prev: map<Ptr, Ptr>, head: Ptr, list: seq<Ptr>, i: nat, j: nat)
    requires Ring(next, prev, head, list) && i < |list| && j < |list|
    ensures var a, b, rest := At(head, list, i - 1), At(head, list, i + 1), list[..i] + list[i + 1..];
            LinkAt(next[a := b], prev[b := a], head, rest, j)
  {
    PlaceStays(head, list, i, j - 1);
    PlaceStays(head, list, i, j);
    if j < i {
      RingAt(next, prev, head, list, j);
      PlacesDiffer(head, list, j - 1, i - 1);
      PlacesDiffer(head, list, j, i + 1);
    } else if i < j {
      RingAt(next, prev, head, list, j + 1);
      PlacesDiffer(head, list, i - 1, j);
      PlacesDiffer(head, list, i + 1, j + 1);
    }
  }

  lemma PlaceStays(head: Ptr, list: seq<Ptr>, i: nat, j: int)
    requires i < |list| && -1 <= j < |list|
    ensures At(head, list[..i] + list[i + 1..], j) == At(head, list, if j < i then j else j + 1)
  {
  }

  /** Every place of a ring holds something else. */
  lemma PlacesDiffer(head: Ptr, list: seq<Ptr>, i: int, j: int)
    requires NoRepeats(list) && head !in list && -1 <= i < j <= |list| && j - i <= |list|
    ensures At(head, list, i) != At(head, list, j)
  {
  }

  lemma RingAppends(next: map<Ptr, Ptr>, prev: map<Ptr, Ptr>, head: Ptr, list: seq<Ptr>, p: Ptr)
    requires Ring(next, prev, head, list) && p !in list && p != head
    ensures head in prev && (prev[head] == head || prev[head] in list)
    ensures Ring(next[p := head][prev[head] := p], prev[p := prev[head]][head := p], head, list + [p])
  {
    RingAt(next, prev, head, list, |list|);
    var next', prev', list' := next[p := head][prev[head] := p], prev[p := prev[head]][head := p], list + [p];
    forall j: nat
      ensures LinkAt(next', prev', head, list', j)
    {
      RingAt(next, prev, head, list, j);
    }
  }

  // ---------------------------------------------------------------- the cache

  /** Both rings. */
  ghost predicate Rings(next: map<Ptr, Ptr>, prev: map<Ptr, Ptr>, lru: seq<Ptr>, inUse: seq<Ptr>) {
    Ring(next, prev, LRU, lru) && Ring(next, prev, IN_USE, inUse) && Apart(lru, inUse)
  }

  ghost predicate Apart(lru: seq<Ptr>, inUse: seq<Ptr>) {
    (forall p :: p in lru ==> p > IN_USE && p !in inUse) && forall p :: p in inUse ==> p > IN_USE && p !in lru
  }

  lemma RingsLose(next: map<Ptr, Ptr>, prev: map<Ptr, Ptr>, lru: seq<Ptr>, inUse: seq<Ptr>, e: Ptr)
    requires Rings(next, prev, lru, inUse) && (e in lru || e in inUse)
    ensures e in next && e in prev && next[e] != e && prev[e] != e
    ensures Rings(next[prev[e] := next[e]], prev[next[e] := prev[e]], Without(lru, e), Without(inUse, e))
  {
    WithoutIs(lru, e);
    WithoutIs(inUse, e);
    if e in lru {
      RingLoses(next, prev, LRU, lru, e);
      RingStays(next, prev, next[prev[e] := next[e]], prev[next[e] := prev[e]], IN_USE, inUse);
    } else {
      RingLoses(next, prev, IN_USE, inUse, e);
      RingStays(next, prev, next[prev[e] := next[e]], prev[next[e] := prev[e]], LRU, lru);
    }
  }

  lemma RingsAppend(next: map<Ptr, Ptr>, prev: map<Ptr, Ptr>, lru: seq<Ptr>, inUse: seq<Ptr>, head: Ptr, e: Ptr)
    requires Rings(next, prev, lru, inUse) && (head == LRU || head == IN_USE) && e !in lru && e !in inUse && e > IN_USE
    ensures head in prev && prev[head] != e
    ensures var next', prev' := next[e := head][prev[head] := e], prev[e := prev[head]][head := e];
            Rings(next', prev', if head == LRU then lru + [e] else lru, if head == LRU then inUse else inUse + [e])
  {
    var list := if head == LRU then lru else inUse;
    RingAppends(next, prev, head, list, e);
    var next', prev' := next[e := head][prev[head] := e], prev[e := prev[head]][head := e];
    if head == LRU {
      RingStays(next, prev, next', prev', IN_USE, inUse);
    } else {
      RingStays(next, prev, next', prev', LRU, lru);
    }
  }

  /** A link of a handle on neither ring does not matter. */
  lemma RingsStay(next: map<Ptr, Ptr>, prev: map<Ptr, Ptr>, lru: seq<Ptr>, inUse: seq<Ptr>, e: Ptr, p: Ptr)
    requires Rings(next, prev, lru, inUse) && e !in lru && e !in inUse && e > IN_USE
    ensures Rings(next[e := p], prev, lru, inUse)
  {
    RingStays(next, prev, next[e := p], prev, LRU, lru);
    RingStays(next, prev, next[e := p], prev, IN_USE, inUse);
  }

  lemma OldestIsNext(next: map<Ptr, Ptr>, prev: map<Ptr, Ptr>, lru: seq<Ptr>, inUse: seq<Ptr>)
    requires Rings(next, prev, lru, inUse)
    ensures LRU in next && (next[LRU] == LRU <==> lru == []) && (lru != [] ==> next[LRU] == lru[0])
  {
    RingAt(next, prev, LRU, lru, 0);
  }

  function Keys(handles: map<Ptr, Handle>): map<Ptr, Key> {
    map p | p in handles :: handles[p].item.key
  }

  ghost function Cached(handles: map<Ptr, Handle>): set<Ptr> {
    set p | p in handles && handles[p].inCache
  }

  /** The handles in the table keep their keys. */
  ghost predicate SameKeys(keys: map<Ptr, Key>, keys': map<Ptr, Key>, held: set<Ptr>) {
    forall p :: p in held && p in keys ==> p in keys' && keys'[p] == keys[p]
  }

  lemma ReferencedKeys(s: State, p: Ptr)
    requires p in s.handles
    ensures Cached(s.Referenced(p).handles) == Cached(s.handles)
    ensures SameKeys(Keys(s.handles), Keys(s.Referenced(p).handles), Cached(s.handles))
  {
  }

  lemma UnreferencedKeys(s: State, p: Ptr)
    requires p in s.handles && HandleOk(s, p) && p in s.out
    ensures Cached(s.Unreferenced(p).handles) == Cached(s.handles)
    ensures SameKeys(Keys(s.handles), Keys(s.Unreferenced(p).handles), Cached(s.handles))
  {
  }

  lemma ErasedKeys(s: State, p: Ptr)
    requires p in s.handles
    ensures Cached(s.Erased(p).handles) == Cached(s.handles) - {p}
    ensures SameKeys(Keys(s.handles), Keys(s.Erased(p).handles), Cached(s.handles) - {p})
  {
  }

  /** What the table finds is the cached handle of the key. */
  lemma TableFinds(s: State, keys: map<Ptr, Key>, key: Key, p: Ptr)
    requires Inv(s) && Finds(keys, Cached(s.handles), key, p)
    requires forall q :: q in s.handles ==> q in keys && keys[q] == s.handles[q].item.key
    ensures if p == NULL then s.Find(key) !in s.handles else p == s.Find(key) && s.Caches(key, p)
  {
    FindCaches(s, key);
    assert forall q :: s.Caches(key, q) ==> q in Cached(s.handles);
    if p != NULL {
      FindIs(s, key, p);
    }
  }

  /** A new handle before the table knows of it. */
  lemma MadeKeys(s: State, e: Ptr, item: Item)
    requires Inv(s) && e > IN_USE && e !in s.handles
    ensures SameKeys(Keys(s.handles), Keys(s.Made(e, item).handles), Cached(s.handles))
    ensures Cached(s.Made(e, item).handles) == Cached(s.handles) + if s.capacity > 0 then {e} else {}
    ensures NULL !in Cached(s.handles) && (s.capacity == 0 ==> s.Put(e, item) == s.Made(e, item))
    ensures forall p :: HandleOk(s.Made(e, item), p)
  {
    InvIs(s);
    ListedMade(s, e, item);
    assert HandleOk(s, NULL);
  }

  /** The new handle in the table, with what the table found under its key erased. */
  lemma PutKeys(s: State, keys: map<Ptr, Key>, e: Ptr, item: Item, was: Ptr)
    requires Inv(s) && e > IN_USE && e !in s.handles && s.capacity > 0 && keys == Keys(s.Made(e, item).handles)
    requires Finds(keys, Cached(s.handles), item.key, was)
    ensures was != NULL ==>
              was in s.Made(e, item).handles && s.Made(e, item).handles[was].inCache && HandleOk(s.Made(e, item), was)
    ensures s.Put(e, item) == if was == NULL then s.Made(e, item) else s.Made(e, item).Erased(was)
    ensures Cached(s.Put(e, item).handles) == Cached(s.handles) - {was} + {e}
    ensures SameKeys(keys, Keys(s.Put(e, item).handles), Cached(s.Put(e, item).handles))
  {
    MadeKeys(s, e, item);
    TableFinds(s, keys, item.key, was);
    if was != NULL {
      ErasedKeys(s.Made(e, item), was);
    }
  }

  /** The handle that was let go first is the one that the table has under its key. */
  lemma OldestIs(s: State)
    requires Inv(s) && s.lru != []
    ensures var e := s.lru[0];
            e in s.handles && s.Caches(s.handles[e].item.key, e) && HandleOk(s, e)
            && s.Find(s.handles[e].item.key) == e && Inv(s.Erased(e))
  {
    var e := s.lru[0];
    InvHandleOk(s, e);
    InvIs(s);
    assert e in s.lru;
    FindIs(s, s.handles[e].item.key, e);
    EraseKeeps(s, s.handles[e].item.key, s.Erased(e));
  }

  lemma DestroyNext(s: State, i: nat)
    requires NoRepeats(s.lru) && i < |s.lru| && forall p :: p in s.lru ==> p in s.handles && p > IN_USE
    ensures var e := s.lru[i];
            e in s.handles && e !in Members(s.lru[..i]) && Members(s.lru[..i + 1]) == Members(s.lru[..i]) + {e}
            && Deletions(s.handles, s.lru[..i + 1])
               == Deletions(s.handles, s.lru[..i]) + [Deletion(s.handles[e].id, s.handles[e].item)]
    ensures i + 1 < |s.lru| ==> s.lru[i + 1] > IN_USE
  {
    assert i + 1 < |s.lru| ==> s.lru[i + 1] in s.lru;
    assert s.lru[i] in s.lru && s.lru[..i + 1] == s.lru[..i] + [s.lru[i]];
    DeletionsAppend(s.handles, s.lru[..i], s.lru[i]);
  }

  class LruCache {
    const capacity: nat
    var usage: int
    var handles: map<Ptr, Handle>
    /** The links through the list heads and the handles. */
    var next: map<Ptr, Ptr>
    var prev: map<Ptr, Ptr>
    const table: HandleTable
    /** What was inserted, and which deleters were called. */
    var inserted: seq<Item>
    var deleted: seq<Deletion>
    ghost var lru: seq<Ptr>
    ghost var inUse: seq<Ptr>
    ghost var out: multiset<Ptr>

    ghost function S(): State
      reads this
    {
      State(capacity, usage, handles, lru, inUse, out, inserted, deleted)
    }

    ghost predicate Linked()
      reads this
    {
      Rings(next, prev, lru, inUse)
    }

    /** The table holds these handles. */
    ghost predicate Tabled(held: set<Ptr>)
      reads this, table
    {
      table.Valid(Keys(handles)) && table.Contents() == held
    }

    ghost predicate Valid()
      reads this, table
    {
      Inv(S()) && Linked() && Tabled(Cached(handles))
    }

    constructor (capacity: nat)
      ensures Valid() && S() == Init(capacity) && fresh(table)
    {
      this.capacity, usage, handles := capacity, 0, map[];
      next, prev := map[LRU := LRU, IN_USE := IN_USE], map[LRU := LRU, IN_USE := IN_USE];
      table := new HandleTable();
      inserted, deleted, lru, inUse, out := [], [], [], [], multiset{};
      new;
      assert IsRun([Init(capacity)], []);
      RunKeepsInvariant([Init(capacity)], [], 0);
    }

    method LruRemove(e: Ptr)
      requires Linked() && (e in lru || e in inUse)
      modifies `next, `prev, `lru, `inUse
      ensures Linked() && S() == old(S()).Unlinked(e)
    {
      WithoutIs(lru, e);
      WithoutIs(inUse, e);
      RingsLose(next, prev, lru, inUse, e);
      prev := prev[next[e] := prev[e]];
      next := next[prev[e] := next[e]];
      lru, inUse := Without(lru, e), Without(inUse, e);
    }

    /** Makes a handle the newest of a list. */
    method LruAppend(list: Ptr, e: Ptr)
      requires Linked() && (list == LRU || list == IN_USE) && e !in lru && e !in inUse && e > IN_USE
      modifies `next, `prev, `lru, `inUse
      ensures Linked()
      ensures lru == if list == LRU then old(lru) + [e] else old(lru)
      ensures inUse == if list == LRU then old(inUse) else old(inUse) + [e]
    {
      RingsAppend(next, prev, lru, inUse, list, e);
      next := next[e := list];
      prev := prev[e := prev[list]];
      next := next[prev[e] := e];
      prev := prev[next[e] := e];
      if list == LRU {
        lru := lru + [e];
      } else {
        inUse := inUse + [e];
      }
    }

    method Ref(e: Ptr)
      requires Linked() && e in handles && HandleOk(S(), e)
      modifies `next, `prev, `lru, `inUse, `handles
      ensures Linked() && S() == old(S()).Referenced(e)
    {
      if handles[e].refs == 1 && handles[e].inCache {
        WithoutIs(lru, e);
        WithoutIs(inUse, e);
        LruRemove(e);
        LruAppend(IN_USE, e);
      }
      handles := handles[e := handles[e].(refs := handles[e].refs + 1)];
    }

    method Unref(e: Ptr)
      requires Linked() && e in handles && e > IN_USE && handles[e].refs > 0
      requires handles[e].inCache && handles[e].refs == 2 ==> e in inUse
      requires handles[e].inCache ==> handles[e].refs > 1
      modifies `next, `prev, `lru, `inUse, `handles, `deleted
      ensures Linked() && S() == old(S()).Unreferenced(e)
      ensures old(handles)[e].refs == 1 ==> next == old(next) && prev == old(prev)
    {
      handles := handles[e := handles[e].(refs := handles[e].refs - 1)];
      if handles[e].refs == 0 {
        deleted := deleted + [Deletion(handles[e].id, handles[e].item)];
        handles := handles - {e};
      } else if handles[e].inCache && handles[e].refs == 1 {
        WithoutIs(lru, e);
        WithoutIs(inUse, e);
        LruRemove(e);
        LruAppend(LRU, e);
      }
    }

    /** Finishes taking a handle out of the cache that was taken out of the table. */
    method FinishErase(e: Ptr) returns (erased: bool)
      requires e != NULL ==> Linked() && e in handles && handles[e].inCache && HandleOk(S(), e)
      modifies `next, `prev, `lru, `inUse, `handles, `deleted, `usage
      ensures erased == (e != NULL)
      ensures if erased then Linked() && S() == old(S()).Erased(e) else S() == old(S()) && next == old(next) && prev == old(prev)
    {
      if e != NULL {
        LruRemove(e);
        handles := handles[e := handles[e].(inCache := false)];
        usage := usage - handles[e].item.charge;
        Unref(e);
      }
      erased := e != NULL;
    }

    method Lookup(key: Key) returns (e: Ptr)
      requires Valid()
      modifies `next, `prev, `lru, `inUse, `handles, `out
      ensures Valid() && Next(old(S()), Look(key), S())
      ensures e == if old(S()).Find(key) in old(handles) then old(S()).Find(key) else NULL
    {
      ghost var s, keys := S(), Keys(handles);
      e := table.Lookup(Keys(handles), key);
      TableFinds(s, keys, key, e);
      InvHandleOk(s, e);
      if e != NULL {
        Ref(e);
        ReferencedKeys(s, e);
        out := out + multiset{e};
      }
      NextKeeps(s, Look(key), S());
      table.ValidStays(keys, Keys(handles));
    }

    method Release(e: Ptr)
      requires Valid() && e in out
      modifies `next, `prev, `lru, `inUse, `handles, `deleted, `out
      ensures Valid() && Next(old(S()), Call.Release(e), S())
    {
      ghost var s, keys := S(), Keys(handles);
      InvHandleOk(s, e);
      UnreferencedKeys(s, e);
      Unref(e);
      out := out - multiset{e};
      NextKeeps(s, Call.Release(e), S());
      table.ValidStays(keys, Keys(handles));
    }

    method Erase(key: Key)
      requires Valid()
      modifies this, table
      ensures Valid() && Next(old(S()), Call.Erase(key), S())
    {
      ghost var s, keys := S(), Keys(handles);
      var e := table.Remove(Keys(handles), key);
      TableFinds(s, keys, key, e);
      InvHandleOk(s, e);
      var erased := FinishErase(e);
      if erased {
        ErasedKeys(s, e);
      }
      NextKeeps(s, Call.Erase(key), S());
      table.ValidStays(keys, Keys(handles));
    }

    /** `e` is the memory of the new handle, which goes to the client. */
    method Insert(e: Ptr, item: Item)
      requires Valid() && e > IN_USE && e !in handles
      modifies this, table
      ensures Valid() && Next(old(S()), Call.Insert(e, item), S())
    {
      ghost var s := S();
      PutHandle(e, item);
      OldestIsNext(next, prev, lru, inUse);
      while usage > capacity && next[LRU] != LRU
        invariant Valid() && S().Evicted() == s.Inserted(e, item)
        invariant LRU in next && (next[LRU] == LRU <==> lru == [])
        decreases |lru|
      {
        InvIs(S());
        OldestSheds(S());
        EvictOldest();
        OldestIsNext(next, prev, lru, inUse);
      }
    }

    /** Makes the new handle, and puts it into the cache in the place of the one with its key. */
    method PutHandle(e: Ptr, item: Item)
      requires Valid() && e > IN_USE && e !in handles
      modifies this, table
      ensures Valid() && S() == old(S()).Put(e, item)
    {
      ghost var s := S();
      MakeHandle(e, item);
      MadeKeys(s, e, item);
      if capacity > 0 {
        EnterTable(s, e, item);
      } else {
        table.ValidStays(Keys(s.handles), Keys(handles));
      }
      PutKeeps(s, e, item);
    }

    method MakeHandle(e: Ptr, item: Item)
      requires Linked() && Inv(S()) && e > IN_USE && e !in handles
      modifies `handles, `inserted, `out, `next, `prev, `lru, `inUse, `usage
      ensures Linked() && S() == old(S()).Made(e, item)
    {
      InvHandleOk(S(), e);
      handles := handles[e := Handle(item, 1, false, |inserted|)];
      inserted, out := inserted + [item], out + multiset{e};
      if capacity > 0 {
        handles := handles[e := Handle(item, 2, true, handles[e].id)];
        LruAppend(IN_USE, e);
        usage := usage + item.charge;
      } else {
        RingsStay(next, prev, lru, inUse, e, NULL);
        next := next[e := NULL];
      }
    }

    /** Puts the new handle into the table, and finishes erasing the one that it replaces there. */
    method EnterTable(ghost s: State, e: Ptr, item: Item)
      requires Inv(s) && e > IN_USE && e !in s.handles && capacity > 0 && S() == s.Made(e, item) && Linked()
      requires table.Valid(Keys(s.handles)) && table.Contents() == Cached(s.handles)
      modifies this, table
      ensures Linked() && Tabled(Cached(handles)) && S() == s.Put(e, item)
    {
      MadeKeys(s, e, item);
      ghost var made := Keys(handles);
      table.ValidStays(Keys(s.handles), made);
      assert e in made && made[e] == item.key && e !in table.Contents();
      var was := table.Insert(Keys(handles), e);
      PutKeys(s, made, e, item, was);
      var erased := FinishErase(was);
      table.ValidStays(made, Keys(handles));
    }

    /** Takes the handle that was let go first out of the cache. */
    method EvictOldest()
      requires Valid() && LRU in next && next[LRU] != LRU
      modifies this, table
      ensures old(lru) != [] && old(lru[0]) in old(handles) && Valid() && S() == old(S()).Erased(old(lru[0]))
    {
      ghost var s, keys := S(), Keys(handles);
      OldestIsNext(next, prev, lru, inUse);
      OldestIs(s);
      var e := next[LRU];
      var p := table.Remove(Keys(handles), handles[e].item.key);
      TableFinds(s, keys, handles[e].item.key, p);
      var erased := FinishErase(p);
      ErasedKeys(s, e);
      table.ValidStays(keys, Keys(handles));
    }

    method Prune()
      requires Valid()
      modifies this, table
      ensures Valid() && Next(old(S()), Call.Prune, S())
    {
      ghost var s := S();
      OldestIsNext(next, prev, lru, inUse);
      while next[LRU] != LRU
        invariant Valid() && S().Pruned() == s.Pruned()
        invariant LRU in next && (next[LRU] == LRU <==> lru == [])
        decreases |lru|
      {
        InvIs(S());
        OldestSheds(S());
        EvictOldest();
        OldestIsNext(next, prev, lru, inUse);
      }
    }

    /** Deletes an unused handle, whose links are left as they are. */
    method Drop(e: Ptr)
      requires Linked() && e in handles && e > IN_USE && handles[e].refs == 1
      modifies `next, `prev, `lru, `inUse, `handles, `deleted
      ensures Linked() && lru == old(lru) && next == old(next) && prev == old(prev) && handles == old(handles) - {e}
      ensures deleted == old(deleted) + [Deletion(old(handles)[e].id, old(handles)[e].item)]
    {
      handles := handles[e := handles[e].(inCache := false)];
      Unref(e);
    }

    /** The destructor: the clients must have given everything back. */
    method Destroy()
      requires Valid() && out == multiset{}
      modifies `next, `prev, `lru, `inUse, `handles, `deleted
      ensures Destroys(old(S()), deleted)
    {
      ghost var s, i := S(), 0;
      NoneInUse(s);
      RingAt(next, prev, IN_USE, inUse, 0);
      assert next[IN_USE] == IN_USE;
      OldestIsNext(next, prev, lru, inUse);
      var e := next[LRU];
      while e != LRU
        invariant i <= |s.lru| && e == At(LRU, s.lru, i) && (e == LRU <==> i == |s.lru|)
        invariant Linked() && lru == s.lru
        invariant handles == s.handles - Members(s.lru[..i])
        invariant deleted == s.deleted + Deletions(s.handles, s.lru[..i])
        decreases |s.lru| - i
      {
        RingAt(next, prev, LRU, lru, i + 1);
        DestroyNext(s, i);
        var after := next[e];
        Drop(e);
        e, i := after, i + 1;
      }
      assert s.lru[..i] == s.lru;
    }
  }
}
