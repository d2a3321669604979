/** The LRU cache over all runs: what each call does to the handles, the two lists and the
    reference counts, and what that means for the clients (class LRUCache of util/cache.cc). */
module Caches {
  import opened HandleTables

  datatype Item = Item(key: Key, value: nat, charge: nat)

  /** `id` is the number of the insertion that made the handle. */
  datatype Handle = Handle(item: Item, refs: int, inCache: bool, id: nat)

  /** A call of the deleter of an item. */
  datatype Deletion = Deletion(id: nat, item: Item)

  /** The list heads lru_ and in_use_; handles lie at other addresses. */
  const LRU: Ptr := 1
  const IN_USE: Ptr := 2

  function Without(list: seq<Ptr>, p: Ptr): seq<Ptr> {
    if list == [] then [] else if list[0] == p then list[1..] else [list[0]] + Without(list[1..], p)
  }

  lemma {:induction false} WithoutIs(list: seq<Ptr>, p: Ptr)
    requires NoRepeats(list)
    ensures NoRepeats(Without(list, p)) && forall q :: q in Without(list, p) <==> q in list && q != p
    ensures p !in list ==> Without(list, p) == list
    ensures |Without(list, p)| == if p in list then |list| - 1 else |list|
  {
    if list != [] {
      var rest := list[1..];
      assert list[0] !in rest && forall q :: q in list <==> q == list[0] || q in rest;
      WithoutIs(rest, p);
    }
  }

  /** Members that stay keep their order. */
  ghost predicate Before(list: seq<Ptr>, p: Ptr, q: Ptr) {
    exists i, j :: 0 <= i < j < |list| && list[i] == p && list[j] == q
  }

  lemma {:induction false} WithoutKeepsOrder(list: seq<Ptr>, p: Ptr, a: Ptr, b: Ptr)
    requires NoRepeats(list) && Before(Without(list, p), a, b)
    ensures Before(list, a, b)
  {
    var rest := Without(list, p);
    var i, j :| 0 <= i < j < |rest| && rest[i] == a && rest[j] == b;
    if list[0] == p {
      assert list[i + 1] == a && list[j + 1] == b;
    } else if i == 0 {
      WithoutIs(list[1..], p);
      assert b in list[1..];
      var m :| 0 <= m < |list| - 1 && list[1..][m] == b;
      assert list[0] == a && list[m + 1] == b;
    } else {
      var rest' := Without(list[1..], p);
      assert rest'[i - 1] == a && rest'[j - 1] == b;
      WithoutKeepsOrder(list[1..], p, a, b);
      var m, n :| 0 <= m < n < |list| - 1 && list[1..][m] == a && list[1..][n] == b;
      assert list[m + 1] == a && list[n + 1] == b;
    }
  }

  // ---------------------------------------------------------------- charges

  function Charge(handles: map<Ptr, Handle>, p: Ptr): nat {
    if p in handles then handles[p].item.charge else 0
  }

  function Charges(handles: map<Ptr, Handle>, list: seq<Ptr>): nat {
    if list == [] then 0 else Charge(handles, list[0]) + Charges(handles, list[1..])
  }

  lemma {:induction false} ChargesAppend(handles: map<Ptr, Handle>, list: seq<Ptr>, p: Ptr)
    ensures Charges(handles, list + [p]) == Charges(handles, list) + Charge(handles, p)
  {
    if list == [] {
      assert list + [p] == [p];
    } else {
      assert (list + [p])[1..] == list[1..] + [p];
      ChargesAppend(handles, list[1..], p);
    }
  }

  lemma {:induction false} ChargesWithout(handles: map<Ptr, Handle>, list: seq<Ptr>, p: Ptr)
    ensures Charges(handles, Without(list, p)) == Charges(handles, list) - if p in list then Charge(handles, p) else 0
  {
    if list != [] && list[0] != p {
      ChargesWithout(handles, list[1..], p);
      var rest := [list[0]] + Without(list[1..], p);
      assert rest[1..] == Without(list[1..], p);
    }
  }

  lemma {:induction false} ChargesStay(handles: map<Ptr, Handle>, handles': map<Ptr, Handle>, list: seq<Ptr>)
    requires forall p :: p in list ==> Charge(handles', p) == Charge(handles, p)
    ensures Charges(handles', list) == Charges(handles, list)
  {
    if list != [] {
      ChargesStay(handles, handles', list[1..]);
    }
  }

  // ---------------------------------------------------------------- states

  /** `out` holds one copy of a handle for each time that a client has it; `inserted` and
      `deleted` are everything that was ever inserted and deleted, in order. */
  datatype State = State(capacity: nat, usage: int, handles: map<Ptr, Handle>, lru: seq<Ptr>, inUse: seq<Ptr>,
                         out: multiset<Ptr>, inserted: seq<Item>, deleted: seq<Deletion>) {
    /** LRU_Remove, whichever list the handle is on. */
    function Unlinked(p: Ptr): State {
      this.(lru := Without(lru, p), inUse := Without(inUse, p))
    }

    /** Ref */
    function Referenced(p: Ptr): State
      requires p in handles
    {
      var e := handles[p];
      var s := if e.refs == 1 && e.inCache then this.Unlinked(p).Used(p) else this;
      s.(handles := handles[p := e.(refs := e.refs + 1)])
    }

    /** LRU_Append to in_use_ */
    function Used(p: Ptr): State {
      this.(inUse := inUse + [p])
    }

    /** Unref */
    function Unreferenced(p: Ptr): State
      requires p in handles
    {
      var e := handles[p].(refs := handles[p].refs - 1);
      if e.refs == 0 then
        this.(handles := handles - {p}, deleted := deleted + [Deletion(e.id, e.item)])
      else if e.inCache && e.refs == 1 then
        this.Unlinked(p).(lru := Without(lru, p) + [p], handles := handles[p := e])
      else
        this.(handles := handles[p := e])
    }

    /** FinishErase */
    function Erased(p: Ptr): State
      requires p in handles
    {
      var e := handles[p].(inCache := false);
      this.Unlinked(p).(handles := handles[p := e], usage := usage - e.item.charge).Unreferenced(p)
    }

    /** The new handle of an insertion. */
    function Made(p: Ptr, item: Item): State {
      var s := this.(out := out + multiset{p}, inserted := inserted + [item]);
      if capacity > 0 then
        s.(handles := handles[p := Handle(item, 2, true, |inserted|)], inUse := inUse + [p], usage := usage + item.charge)
      else
        s.(handles := handles[p := Handle(item, 1, false, |inserted|)])
    }

    predicate HasOldest() {
      lru != [] && lru[0] in handles && handles[lru[0]].refs == 1
    }

    /** The evictions at the end of an insertion. */
    function Evicted(): State
      decreases |lru|
    {
      if usage > capacity && HasOldest() then Erased(lru[0]).Evicted() else this
    }

    function Pruned(): State
      decreases |lru|
    {
      if HasOldest() then Erased(lru[0]).Pruned() else this
    }

    /** The cached handle of a key. */
    ghost predicate Caches(key: Key, p: Ptr) {
      p in handles && handles[p].inCache && handles[p].item.key == key
    }

    ghost function Find(key: Key): Ptr {
      if exists p: Ptr :: Caches(key, p) then var p: Ptr :| Caches(key, p); p else NULL
    }

    // What a client calls.

    function Taken(p: Ptr): State
      requires p in handles
    {
      this.Referenced(p).(out := out + multiset{p})
    }

    /** The new handle is there, and the one that had its key is out of the cache. */
    ghost function Put(p: Ptr, item: Item): State {
      var s := this.Made(p, item);
      var was := if capacity > 0 then Find(item.key) else NULL;
      if was in s.handles then s.Erased(was) else s
    }

    ghost function Inserted(p: Ptr, item: Item): State {
      this.Put(p, item).Evicted()
    }

    function Released(p: Ptr): State
      requires p in handles
    {
      this.Unreferenced(p).(out := out - multiset{p})
    }

    ghost function Dropped(key: Key): State {
      var was := Find(key);
      if was in handles then this.Erased(was) else this
    }
  }

  // ---------------------------------------------------------------- what always holds

  /** A handle counts the clients that have it and the cache, and lies on the list that the
      count says. */
  ghost predicate HandleOk(s: State, p: Ptr) {
    p in s.handles ==>
      var e := s.handles[p];
      && p > IN_USE && e.refs == s.out[p] + (if e.inCache then 1 else 0) && e.refs > 0
      && (p in s.lru <==> e.inCache && e.refs == 1)
      && (p in s.inUse <==> e.inCache && e.refs > 1)
      && e.id < |s.inserted| && e.item == s.inserted[e.id]
  }

  ghost predicate Listed(s: State) {
    NoRepeats(s.lru) && NoRepeats(s.inUse)
    && (forall p :: p in s.lru || p in s.inUse || p in s.out ==> p in s.handles)
    && forall p :: HandleOk(s, p)
  }

  ghost predicate Live(s: State, id: nat) {
    exists p :: p in s.handles && s.handles[p].id == id
  }

  ghost predicate IsDeleted(s: State, id: nat) {
    InDeletions(s.deleted, id)
  }

  ghost predicate InDeletions(deleted: seq<Deletion>, id: nat) {
    exists i :: 0 <= i < |deleted| && deleted[i].id == id
  }

  /** What was inserted is in memory once, or was deleted once. */
  ghost predicate Accounted(s: State) {
    && (forall p, q :: p in s.handles && q in s.handles && p != q ==> s.handles[p].id != s.handles[q].id)
    && (forall i :: 0 <= i < |s.deleted| ==>
          s.deleted[i].id < |s.inserted| && s.deleted[i].item == s.inserted[s.deleted[i].id])
    && (forall i, j :: 0 <= i < j < |s.deleted| ==> s.deleted[i].id != s.deleted[j].id)
    && (forall id: nat :: id < |s.inserted| ==> (Live(s, id) <==> !IsDeleted(s, id)))
  }

  ghost predicate Charged(s: State) {
    s.usage == Charges(s.handles, s.lru) + Charges(s.handles, s.inUse)
  }

  ghost predicate Sound(s: State) {
    forall use: nat :: IsSound(s, use)
  }

  ghost predicate IsSound(s: State, use: nat) {
    Listed(s) && Accounted(s) && Charged(s)
  }

  lemma SoundIs(s: State)
    requires Sound(s)
    ensures Listed(s) && Accounted(s) && Charged(s)
  {
    assert IsSound(s, 0);
  }

  /** A cached handle is that of the latest insertion under its key. */
  ghost predicate Latest(s: State, p: Ptr) {
    p in s.handles && s.handles[p].inCache ==>
      forall id: nat :: s.handles[p].id < id < |s.inserted| ==> s.inserted[id].key != s.handles[p].item.key
  }

  ghost predicate Inv(s: State) {
    forall use: nat :: IsInv(s, use)
  }

  ghost predicate IsInv(s: State, use: nat) {
    Sound(s) && (forall p :: Latest(s, p)) && (s.capacity == 0 ==> s.lru == [] && s.inUse == [])
  }

  lemma InvIs(s: State)
    requires Inv(s)
    ensures IsInv(s, 0) && Listed(s) && Accounted(s) && Charged(s)
  {
    assert IsInv(s, 0);
    SoundIs(s);
  }

  lemma InvHandleOk(s: State, p: Ptr)
    requires Inv(s)
    ensures HandleOk(s, p) && (p in s.lru || p in s.inUse || p in s.out ==> p in s.handles)
  {
    InvIs(s);
  }

  // ---------------------------------------------------------------- every call keeps it

  lemma ListedTaken(s: State, p: Ptr)
    requires Listed(s) && p in s.handles
    ensures Listed(s.Taken(p))
  {
    var s' := s.Taken(p);
    WithoutIs(s.lru, p);
    WithoutIs(s.inUse, p);
    assert HandleOk(s, p);
    forall q
      ensures HandleOk(s', q)
    {
      assert HandleOk(s, q);
    }
  }

  lemma ListedReleased(s: State, p: Ptr)
    requires Listed(s) && p in s.out
    ensures p in s.handles && Listed(s.Released(p))
  {
    var s' := s.Released(p);
    WithoutIs(s.lru, p);
    WithoutIs(s.inUse, p);
    assert HandleOk(s, p);
    forall q
      ensures HandleOk(s', q)
    {
      assert HandleOk(s, q);
    }
  }

  lemma ListedErased(s: State, p: Ptr)
    requires Listed(s) && p in s.handles && s.handles[p].inCache
    ensures Listed(s.Erased(p))
  {
    var s' := s.Erased(p);
    WithoutIs(s.lru, p);
    WithoutIs(s.inUse, p);
    assert HandleOk(s, p);
    forall q
      ensures HandleOk(s', q)
    {
      assert HandleOk(s, q);
    }
  }

  lemma ListedMade(s: State, p: Ptr, item: Item)
    requires Listed(s) && p !in s.handles && p > IN_USE
    ensures Listed(s.Made(p, item))
  {
    var s' := s.Made(p, item);
    forall q
      ensures HandleOk(s', q)
    {
      assert HandleOk(s, q);
    }
  }

  lemma ChargedTaken(s: State, p: Ptr)
    requires Listed(s) && Charged(s) && p in s.handles
    ensures Charged(s.Taken(p))
  {
    var s' := s.Taken(p);
    assert HandleOk(s, p);
    ChargesWithout(s.handles, s.lru, p);
    WithoutIs(s.inUse, p);
    ChargesAppend(s.handles, s.inUse, p);
    ChargesStay(s.handles, s'.handles, s'.lru);
    ChargesStay(s.handles, s'.handles, s'.inUse);
  }

  lemma ChargedReleased(s: State, p: Ptr)
    requires Listed(s) && Charged(s) && p in s.out && p in s.handles
    ensures Charged(s.Released(p))
  {
    var s' := s.Released(p);
    assert HandleOk(s, p);
    ChargesWithout(s.handles, s.inUse, p);
    WithoutIs(s.lru, p);
    ChargesAppend(s.handles, s.lru, p);
    ChargesStay(s.handles, s'.handles, s'.lru);
    ChargesStay(s.handles, s'.handles, s'.inUse);
  }

  lemma ChargedErased(s: State, p: Ptr)
    requires Listed(s) && Charged(s) && p in s.handles && s.handles[p].inCache
    ensures Charged(s.Erased(p))
  {
    var s' := s.Erased(p);
    assert HandleOk(s, p);
    ChargesWithout(s.handles, s.inUse, p);
    ChargesWithout(s.handles, s.lru, p);
    WithoutIs(s.inUse, p);
    WithoutIs(s.lru, p);
    ChargesStay(s.handles, s'.handles, s'.lru);
    ChargesStay(s.handles, s'.handles, s'.inUse);
  }

  lemma ChargedMade(s: State, p: Ptr, item: Item)
    requires Listed(s) && Charged(s) && p !in s.handles
    ensures Charged(s.Made(p, item))
  {
    var s' := s.Made(p, item);
    ChargesStay(s.handles, s'.handles, s.lru);
    ChargesStay(s.handles, s'.handles, s.inUse);
    ChargesAppend(s'.handles, s.inUse, p);
  }

  /** What a handle stands for never changes. */
  ghost predicate SameItems(handles: map<Ptr, Handle>, handles': map<Ptr, Handle>) {
    handles.Keys == handles'.Keys
    && forall p :: p in handles ==> handles'[p].id == handles[p].id && handles'[p].item == handles[p].item
  }

  lemma AccountedStays(s: State, s': State)
    requires Accounted(s) && SameItems(s.handles, s'.handles) && s'.inserted == s.inserted && s'.deleted == s.deleted
    ensures Accounted(s')
  {
    forall id: nat | id < |s.inserted|
      ensures Live(s', id) <==> Live(s, id)
      ensures IsDeleted(s', id) <==> IsDeleted(s, id)
    {
      forall p | p in s.handles
        ensures s'.handles[p].id == s.handles[p].id
      {
      }
    }
  }

  lemma AccountedDeletes(s: State, s': State, p: Ptr)
    requires Accounted(s) && p in s.handles && SameItems(s.handles - {p}, s'.handles) && s'.inserted == s.inserted
    requires s.handles[p].id < |s.inserted| && s.handles[p].item == s.inserted[s.handles[p].id]
    requires s'.deleted == s.deleted + [Deletion(s.handles[p].id, s.handles[p].item)]
    ensures Accounted(s')
  {
    var gone, n := s.handles[p].id, |s.deleted|;
    assert Live(s, gone) && !IsDeleted(s, gone);
    assert s'.deleted[n].id == gone && IsDeleted(s', gone);
    forall id: nat | id < |s.inserted|
      ensures Live(s', id) <==> Live(s, id) && id != gone
      ensures IsDeleted(s', id) <==> IsDeleted(s, id) || id == gone
    {
      if Live(s, id) && id != gone {
        var q :| q in s.handles && s.handles[q].id == id;
        assert q in s'.handles && s'.handles[q].id == id;
      }
      if IsDeleted(s, id) {
        var i :| 0 <= i < n && s.deleted[i].id == id;
        assert s'.deleted[i].id == id;
      }
    }
    forall i, j | 0 <= i < j < |s'.deleted|
      ensures s'.deleted[i].id != s'.deleted[j].id
    {
      if j == n {
        assert IsDeleted(s, s.deleted[i].id);
      }
    }
  }

  lemma AccountedMade(s: State, p: Ptr, item: Item)
    requires Listed(s) && Accounted(s) && p !in s.handles
    ensures Accounted(s.Made(p, item))
  {
    var s', n := s.Made(p, item), |s.inserted|;
    assert p in s'.handles && s'.handles[p].id == n;
    forall id: nat | id <= n
      ensures Live(s', id) <==> Live(s, id) || id == n
      ensures IsDeleted(s', id) <==> IsDeleted(s, id)
    {
      if Live(s, id) {
        var q :| q in s.handles && s.handles[q].id == id;
        assert q in s'.handles && s'.handles[q].id == id;
      }
    }
    forall q | q in s.handles
      ensures s.handles[q].id < n
    {
      assert HandleOk(s, q);
    }
  }

  lemma TakenIsSound(s: State, p: Ptr)
    requires Sound(s) && p in s.handles
    ensures Sound(s.Taken(p))
  {
    SoundIs(s);
    ListedTaken(s, p);
    ChargedTaken(s, p);
    AccountedStays(s, s.Taken(p));
  }

  lemma ReleasedIsSound(s: State, p: Ptr)
    requires Sound(s) && p in s.out
    ensures p in s.handles && Sound(s.Released(p))
  {
    SoundIs(s);
    ListedReleased(s, p);
    ChargedReleased(s, p);
    assert HandleOk(s, p);
    if s.handles[p].refs == 1 {
      AccountedDeletes(s, s.Released(p), p);
    } else {
      AccountedStays(s, s.Released(p));
    }
  }

  lemma ErasedIsSound(s: State, p: Ptr)
    requires Sound(s) && p in s.handles && s.handles[p].inCache
    ensures Sound(s.Erased(p))
  {
    SoundIs(s);
    ListedErased(s, p);
    ChargedErased(s, p);
    assert HandleOk(s, p);
    if s.handles[p].refs == 1 {
      AccountedDeletes(s, s.Erased(p), p);
    } else {
      AccountedStays(s, s.Erased(p));
    }
  }

  lemma MadeIsSound(s: State, p: Ptr, item: Item)
    requires Sound(s) && p !in s.handles && p > IN_USE
    ensures Sound(s.Made(p, item))
  {
    SoundIs(s);
    ListedMade(s, p, item);
    ChargedMade(s, p, item);
    AccountedMade(s, p, item);
  }

  // ---------------------------------------------------------------- evictions

  function Deletions(handles: map<Ptr, Handle>, list: seq<Ptr>): seq<Deletion>
    requires forall p :: p in list ==> p in handles
  {
    if list == [] then []
    else [Deletion(handles[list[0]].id, handles[list[0]].item)] + Deletions(handles, list[1..])
  }

  lemma {:induction false} DeletionsStay(handles: map<Ptr, Handle>, handles': map<Ptr, Handle>, list: seq<Ptr>)
    requires forall p :: p in list ==> p in handles && p in handles' && handles'[p] == handles[p]
    ensures Deletions(handles', list) == Deletions(handles, list)
  {
    if list != [] {
      DeletionsStay(handles, handles', list[1..]);
    }
  }

  lemma {:induction false} DeletionsAppend(handles: map<Ptr, Handle>, list: seq<Ptr>, p: Ptr)
    requires p in handles && forall q :: q in list ==> q in handles
    ensures Deletions(handles, list + [p]) == Deletions(handles, list) + [Deletion(handles[p].id, handles[p].item)]
  {
    if list == [] {
      assert list + [p] == [p];
    } else {
      assert (list + [p])[1..] == list[1..] + [p];
      DeletionsAppend(handles, list[1..], p);
    }
  }

  /** The k handles that were let go first are deleted, in that order, and nothing else changes. */
  ghost predicate Sheds(s: State, s': State, k: nat) {
    k <= |s.lru| && (forall p :: p in s.lru ==> p in s.handles)
    && s' == s.(lru := s.lru[k..], handles := s.handles - Members(s.lru[..k]),
                usage := s.usage - Charges(s.handles, s.lru[..k]),
                deleted := s.deleted + Deletions(s.handles, s.lru[..k]))
  }

  lemma OldestSheds(s: State)
    requires Sound(s) && s.lru != []
    ensures NoRepeats(s.lru) && s.HasOldest() && Sheds(s, s.Erased(s.lru[0]), 1) && Sound(s.Erased(s.lru[0]))
  {
    SoundIs(s);
    var p := s.lru[0];
    assert p in s.lru;
    assert HandleOk(s, p);
    WithoutIs(s.inUse, p);
    assert s.lru[..1] == [p] && Members([p]) == {p};
    ErasedIsSound(s, p);
  }

  lemma ShedsMore(s: State, s': State, s'': State, k: nat)
    requires NoRepeats(s.lru) && Sheds(s, s', 1) && Sheds(s', s'', k)
    ensures Sheds(s, s'', k + 1)
  {
    var p, rest, more := s.lru[0], s.lru[1..][..k], s.lru[..k + 1];
    assert more[1..] == rest && more[0] == p && s.lru[..1] == [p] && s.lru[k + 1..] == s.lru[1..][k..];
    RestStays(s, s', k);
    assert s.handles - Members(more) == s.handles - Members([p]) - Members(rest) by {
      assert Members(more) == Members([p]) + Members(rest);
    }
  }

  lemma RestStays(s: State, s': State, k: nat)
    requires NoRepeats(s.lru) && Sheds(s, s', 1) && k < |s.lru|
    ensures var p, rest := s.lru[0], s.lru[1..][..k];
            Charges(s.handles, [p]) == Charge(s.handles, p) && Charges(s'.handles, rest) == Charges(s.handles, rest)
            && Deletions(s.handles, [p]) == [Deletion(s.handles[p].id, s.handles[p].item)]
            && (forall q :: q in rest ==> q in s.handles && q in s'.handles)
            && Deletions(s'.handles, rest) == Deletions(s.handles, rest)
  {
    var p, rest := s.lru[0], s.lru[1..][..k];
    assert s.lru[..1] == [p];
    forall q | q in rest
      ensures q != p && q in s.handles
    {
      assert q in s.lru;
    }
    ChargesStay(s.handles, s'.handles, rest);
    DeletionsStay(s.handles, s'.handles, rest);
  }

  lemma ShedsNone(s: State)
    requires forall p :: p in s.lru ==> p in s.handles
    ensures Sheds(s, s, 0)
  {
    assert s.lru[..0] == [] && s.lru[0..] == s.lru && Members([]) == {};
  }

  /** What is evicted: as few as make the charges fit, the one that was let go first first. */
  ghost predicate Evicts(s: State, s': State, k: nat) {
    Sheds(s, s', k) && (s'.usage <= s.capacity || s'.lru == [])
    && TooMuch(s, k)
  }

  ghost predicate EvictsSome(s: State, s': State) {
    exists k: nat :: Evicts(s, s', k)
  }

  ghost predicate TooMuch(s: State, k: nat) {
    forall m :: 0 <= m < k && m <= |s.lru| ==> s.usage - Charges(s.handles, s.lru[..m]) > s.capacity
  }

  lemma TooMuchMore(s: State, s': State, k: nat)
    requires NoRepeats(s.lru) && Sheds(s, s', 1) && s.usage > s.capacity && TooMuch(s', k)
    ensures TooMuch(s, k + 1)
  {
    forall m | 0 <= m < k + 1 && m <= |s.lru|
      ensures s.usage - Charges(s.handles, s.lru[..m]) > s.capacity
    {
      if m > 0 {
        var rest := s.lru[1..][..m - 1];
        assert s.lru[..m][1..] == rest && s.lru[..m][0] == s.lru[0] && s.lru[..1] == [s.lru[0]];
        assert Charges(s.handles, [s.lru[0]]) == Charge(s.handles, s.lru[0]);
        forall q | q in rest
          ensures q != s.lru[0] && q in s.handles
        {
          assert q in s.lru;
        }
        ChargesStay(s.handles, s'.handles, rest);
      }
    }
  }

  lemma {:induction false} EvictedIs(s: State)
    requires Sound(s)
    ensures Sound(s.Evicted()) && EvictsSome(s, s.Evicted())
    decreases |s.lru|
  {
    if s.usage > s.capacity && s.lru != [] {
      OldestSheds(s);
      var s' := s.Erased(s.lru[0]);
      EvictedIs(s');
      var k: nat :| Evicts(s', s'.Evicted(), k);
      ShedsMore(s, s', s'.Evicted(), k);
      TooMuchMore(s, s', k);
      assert Evicts(s, s.Evicted(), k + 1);
    } else {
      SoundIs(s);
      ShedsNone(s);
      assert Evicts(s, s.Evicted(), 0);
    }
  }

  /** Pruning deletes every handle that no client has. */
  lemma {:induction false} PrunedIs(s: State)
    requires Sound(s)
    ensures Sound(s.Pruned()) && Sheds(s, s.Pruned(), |s.lru|)
    decreases |s.lru|
  {
    if s.lru != [] {
      OldestSheds(s);
      var s' := s.Erased(s.lru[0]);
      PrunedIs(s');
      ShedsMore(s, s', s'.Pruned(), |s'.lru|);
    } else {
      SoundIs(s);
      ShedsNone(s);
    }
  }

  // ---------------------------------------------------------------- calls and runs

  datatype Call = Look(key: Key) | Insert(at: Ptr, item: Item) | Release(p: Ptr) | Erase(key: Key) | Prune

  /** One call of a client, which has the lock. A new handle lies where none is, and a client
      gives back what it has. */
  ghost predicate Next(s: State, c: Call, s': State) {
    match c
    case Look(key) => s' == if s.Find(key) in s.handles then s.Taken(s.Find(key)) else s
    case Insert(at, item) => at > IN_USE && at !in s.handles && s' == s.Inserted(at, item)
    case Release(p) => p in s.out && p in s.handles && s' == s.Released(p)
    case Erase(key) => s' == s.Dropped(key)
    case Prune => s' == s.Pruned()
  }

  /** A key has one cached handle at most. */
  lemma FindIs(s: State, key: Key, p: Ptr)
    requires Inv(s) && s.Caches(key, p)
    ensures s.Find(key) == p
  {
    InvIs(s);
    var q := s.Find(key);
    assert s.Caches(key, q);
    assert HandleOk(s, p) && HandleOk(s, q) && Latest(s, p) && Latest(s, q);
  }

  lemma FindCaches(s: State, key: Key)
    requires Inv(s)
    ensures s.Find(key) in s.handles ==> s.Caches(key, s.Find(key))
  {
    InvIs(s);
    assert HandleOk(s, NULL);
  }

  /** Fewer handles are cached, and nothing was inserted. */
  lemma StillLatest(s: State, s': State)
    requires forall p :: Latest(s, p)
    requires s'.inserted == s.inserted
    requires forall p :: p in s'.handles ==>
               p in s.handles && s'.handles[p].id == s.handles[p].id && s'.handles[p].item == s.handles[p].item
               && (s'.handles[p].inCache ==> s.handles[p].inCache)
    ensures forall p :: Latest(s', p)
  {
    forall p
      ensures Latest(s', p)
    {
      assert Latest(s, p);
    }
  }

  lemma LookKeeps(s: State, key: Key, s': State)
    requires Inv(s) && Next(s, Look(key), s')
    ensures Inv(s')
  {
    InvIs(s);
    var p := s.Find(key);
    if p in s.handles {
      FindCaches(s, key);
      assert HandleOk(s, p);
      TakenIsSound(s, p);
      StillLatest(s, s');
    }
  }

  lemma ReleaseKeeps(s: State, p: Ptr, s': State)
    requires Inv(s) && Next(s, Release(p), s')
    ensures Inv(s')
  {
    InvIs(s);
    assert HandleOk(s, p);
    ReleasedIsSound(s, p);
    StillLatest(s, s');
  }

  lemma EraseKeeps(s: State, key: Key, s': State)
    requires Inv(s) && Next(s, Erase(key), s')
    ensures Inv(s')
  {
    InvIs(s);
    var p := s.Find(key);
    if p in s.handles {
      FindCaches(s, key);
      assert HandleOk(s, p);
      ErasedIsSound(s, p);
      StillLatest(s, s');
    }
  }

  lemma PruneKeeps(s: State, s': State)
    requires Inv(s) && Next(s, Prune, s')
    ensures Inv(s')
  {
    InvIs(s);
    PrunedIs(s);
    StillLatest(s, s');
  }

  lemma PutKeeps(s: State, at: Ptr, item: Item)
    requires Inv(s) && at > IN_USE && at !in s.handles
    ensures Inv(s.Put(at, item))
  {
    InvIs(s);
    MadeIsSound(s, at, item);
    FindCaches(s, item.key);
    var s', s'', was := s.Made(at, item), s.Put(at, item), s.Find(item.key);
    assert HandleOk(s, NULL) && was != at;
    if s.capacity > 0 && was in s.handles {
      ErasedIsSound(s', was);
      SoundIs(s');
      assert HandleOk(s', was);
    }
    forall p
      ensures Latest(s'', p)
    {
      assert Latest(s, p) && HandleOk(s, p);
      if p != at && p in s.handles && s.Caches(item.key, p) {
        FindIs(s, item.key, p);
        assert p in s''.handles ==> s.capacity == 0 || !s''.handles[p].inCache;
      }
    }
  }

  lemma InsertKeeps(s: State, at: Ptr, item: Item, s': State)
    requires Inv(s) && Next(s, Insert(at, item), s')
    ensures Inv(s') && EvictsSome(s.Put(at, item), s')
  {
    PutKeeps(s, at, item);
    InvIs(s.Put(at, item));
    EvictedIs(s.Put(at, item));
    StillLatest(s.Put(at, item), s');
  }

  /** Every call keeps the invariant. */
  lemma NextKeeps(s: State, c: Call, s': State)
    requires Inv(s) && Next(s, c, s')
    ensures Inv(s')
  {
    match c
    case Look(key) => LookKeeps(s, key, s');
    case Insert(at, item) => InsertKeeps(s, at, item, s');
    case Release(p) => ReleaseKeeps(s, p, s');
    case Erase(key) => EraseKeeps(s, key, s');
    case Prune => PruneKeeps(s, s');
  }

  function Init(capacity: nat): State {
    State(capacity, 0, map[], [], [], multiset{}, [], [])
  }

  ghost predicate IsRun(run: seq<State>, calls: seq<Call>) {
    |run| == |calls| + 1 && run[0] == Init(run[0].capacity) && forall i :: 0 <= i < |calls| ==> Next(run[i], calls[i], run[i + 1])
  }

  /** In every state of every run the lists, the counts and the cached keys agree. */
  lemma {:induction false} RunKeepsInvariant(run: seq<State>, calls: seq<Call>, n: nat)
    requires IsRun(run, calls) && n <= |calls|
    ensures Inv(run[n])
  {
    if n > 0 {
      RunKeepsInvariant(run, calls, n - 1);
      NextKeeps(run[n - 1], calls[n - 1], run[n]);
    }
  }

  // ---------------------------------------------------------------- what it means for clients

  /** When a client last had a handle, up to state n; -1 for never. */
  ghost function LastUse(run: seq<State>, n: nat, p: Ptr): int
    requires n < |run|
  {
    if p in run[n].out then n else if n == 0 then -1 else LastUse(run, n - 1, p)
  }

  /** The list of unused handles is in the order of their last use. */
  ghost predicate OrderedByUse(run: seq<State>, n: nat)
    requires n < |run|
  {
    forall p, q :: Before(run[n].lru, p, q) ==> LastUse(run, n, p) < LastUse(run, n, q)
  }

  ghost predicate KeepsOrder(list: seq<Ptr>, list': seq<Ptr>) {
    forall p, q :: Before(list', p, q) ==> Before(list, p, q)
  }

  lemma WithoutIsInOrder(list: seq<Ptr>, p: Ptr)
    requires NoRepeats(list)
    ensures KeepsOrder(list, Without(list, p))
  {
    forall a, b | Before(Without(list, p), a, b)
      ensures Before(list, a, b)
    {
      WithoutKeepsOrder(list, p, a, b);
    }
  }

  lemma DropIsInOrder(list: seq<Ptr>, k: nat)
    requires k <= |list|
    ensures KeepsOrder(list, list[k..])
  {
    forall p, q | Before(list[k..], p, q)
      ensures Before(list, p, q)
    {
      var i, j :| 0 <= i < j < |list| - k && list[k..][i] == p && list[k..][j] == q;
      assert list[k + i] == p && list[k + j] == q;
    }
  }

  lemma UnusedAreOut(s: State)
    requires Inv(s)
    ensures NoRepeats(s.lru) && NoRepeats(s.inUse) && forall p :: p in s.lru ==> p !in s.out
  {
    InvIs(s);
    forall p | p in s.lru
      ensures p !in s.out
    {
      assert HandleOk(s, p);
    }
  }

  /** An insertion takes at most one handle out of the order, and some from the front. */
  lemma InsertedIsInOrder(s: State, at: Ptr, item: Item, s': State)
    requires Inv(s) && Next(s, Insert(at, item), s')
    ensures KeepsOrder(s.lru, s'.lru)
  {
    UnusedAreOut(s);
    FindCaches(s, item.key);
    InsertKeeps(s, at, item, s');
    var k: nat :| Evicts(s.Put(at, item), s', k);
    PutLists(s, at, item);
    WithoutIsInOrder(s.lru, s.Find(item.key));
    DropIsInOrder(s.Put(at, item).lru, k);
  }

  lemma PutLists(s: State, at: Ptr, item: Item)
    requires Inv(s) && at > IN_USE && at !in s.handles
    ensures s.Put(at, item).lru
            == if s.capacity > 0 && s.Find(item.key) in s.handles then Without(s.lru, s.Find(item.key)) else s.lru
  {
    InvIs(s);
    assert HandleOk(s, NULL);
  }

  /** Only what a client gives back joins the list, at its end. */
  lemma NextIsInOrder(s: State, c: Call, s': State)
    requires Inv(s) && Next(s, c, s')
    ensures KeepsOrder(s.lru, s'.lru) || (c.Release? && c.p in s.out && c.p !in s.lru && s'.lru == s.lru + [c.p])
  {
    UnusedAreOut(s);
    if c.Insert? {
      InsertedIsInOrder(s, c.at, c.item, s');
    } else if c.Prune? {
      InvIs(s);
      PrunedIs(s);
    } else if c.Release? {
      WithoutIs(s.lru, c.p);
    } else {
      WithoutIsInOrder(s.lru, s.Find(c.key));
    }
  }

  /** In every state of every run the unused handles are in the order of their last use. */
  lemma {:induction false} RunIsOrdered(run: seq<State>, calls: seq<Call>, n: nat)
    requires IsRun(run, calls) && n <= |calls|
    ensures OrderedByUse(run, n)
  {
    if n > 0 {
      RunIsOrdered(run, calls, n - 1);
      RunKeepsInvariant(run, calls, n - 1);
      RunKeepsInvariant(run, calls, n);
      UnusedAreOut(run[n - 1]);
      UnusedAreOut(run[n]);
      NextIsInOrder(run[n - 1], calls[n - 1], run[n]);
      forall p, q | Before(run[n].lru, p, q)
        ensures LastUse(run, n, p) < LastUse(run, n, q)
      {
        assert p in run[n].lru && q in run[n].lru;
        LastUseIsPast(run, n - 1, p);
        if !Before(run[n - 1].lru, p, q) {
          assert p in run[n - 1].lru && q in run[n - 1].out;
        }
      }
    }
  }

  lemma {:induction false} LastUseIsPast(run: seq<State>, n: nat, p: Ptr)
    requires n < |run|
    ensures LastUse(run, n, p) <= n && (p !in run[n].out ==> LastUse(run, n, p) < n)
  {
    if p !in run[n].out && n > 0 {
      LastUseIsPast(run, n - 1, p);
    }
  }

  lemma {:induction false} StaysOnList(list: seq<Ptr>, p: Ptr, q: Ptr)
    requires p in list && p != q
    ensures p in Without(list, q)
  {
    if list[0] == q {
      var i :| 0 <= i < |list| && list[i] == p;
      assert list[1..][i - 1] == p;
    } else if list[0] != p {
      StaysOnList(list[1..], p, q);
    }
  }

  /** What an insertion evicts has been unused for longer than everything unused that stays. */
  lemma EvictsLongestUnused(run: seq<State>, calls: seq<Call>, n: nat, p: Ptr, q: Ptr)
    requires IsRun(run, calls) && n < |calls| && calls[n].Insert?
    requires p in run[n].lru && p !in run[n + 1].lru && !run[n].Caches(calls[n].item.key, p)
    requires q in run[n + 1].lru
    ensures q in run[n].lru && LastUse(run, n, p) < LastUse(run, n, q)
  {
    var s, s', at, item := run[n], run[n + 1], calls[n].at, calls[n].item;
    RunKeepsInvariant(run, calls, n);
    RunIsOrdered(run, calls, n);
    UnusedAreOut(s);
    InsertKeeps(s, at, item, s');
    PutLists(s, at, item);
    FindCaches(s, item.key);
    var list := s.Put(at, item).lru;
    var k: nat :| Evicts(s.Put(at, item), s', k);
    WithoutIsInOrder(s.lru, s.Find(item.key));
    if list != s.lru {
      StaysOnList(s.lru, p, s.Find(item.key));
    }
    DroppedIsBefore(list, k, p, q);
    assert Before(s.lru, p, q);
  }

  lemma DroppedIsBefore(list: seq<Ptr>, k: nat, p: Ptr, q: Ptr)
    requires k <= |list| && p in list && p !in list[k..] && q in list[k..]
    ensures Before(list, p, q)
  {
    var i :| 0 <= i < |list| && list[i] == p;
    var j :| 0 <= j < |list| - k && list[k..][j] == q;
    forall m | k <= m < |list|
      ensures list[m] in list[k..]
    {
      assert list[k..][m - k] == list[m];
    }
    assert i < k && list[k + j] == q;
  }

  /** Right after an insertion the charges fit, or nothing more can be evicted; and no more was
      evicted than had to be. */
  lemma InsertedFits(run: seq<State>, calls: seq<Call>, n: nat)
    requires IsRun(run, calls) && n < |calls| && calls[n].Insert?
    ensures run[n + 1].usage <= run[n + 1].capacity || run[n + 1].lru == []
    ensures EvictsSome(run[n].Put(calls[n].at, calls[n].item), run[n + 1])
  {
    RunKeepsInvariant(run, calls, n);
    InsertKeeps(run[n], calls[n].at, calls[n].item, run[n + 1]);
  }

  lemma PutIsSame(s: State, at: Ptr, item: Item)
    requires Inv(s) && at > IN_USE && at !in s.handles
    ensures forall p :: p in s.handles && p in s.Put(at, item).handles ==>
              s.Put(at, item).handles[p].id == s.handles[p].id && s.Put(at, item).handles[p].item == s.handles[p].item
    ensures forall p, key :: s.Caches(key, p) && key != item.key ==> s.Put(at, item).Caches(key, p)
  {
    FindCaches(s, item.key);
    InvIs(s);
    assert HandleOk(s, NULL);
    forall p, key | s.Caches(key, p) && key != item.key
      ensures s.Put(at, item).Caches(key, p)
    {
      assert p != s.Find(item.key) && p != at;
    }
  }

  /** A handle that stays in memory stands for the same thing. */
  lemma SameWhileLive(s: State, c: Call, s': State, p: Ptr)
    requires Inv(s) && Next(s, c, s') && p in s.handles && p in s'.handles
    ensures s'.handles[p].id == s.handles[p].id && s'.handles[p].item == s.handles[p].item
  {
    if c.Insert? {
      PutIsSame(s, c.at, c.item);
      InsertKeeps(s, c.at, c.item, s');
      var k: nat :| Evicts(s.Put(c.at, c.item), s', k);
    } else if c.Prune? {
      InvIs(s);
      PrunedIs(s);
    }
  }

  /** A client finds behind its handle what it did before, whatever other clients do. */
  lemma HeldStays(run: seq<State>, calls: seq<Call>, m: nat, n: nat, p: Ptr)
    requires IsRun(run, calls) && m <= n <= |calls| && forall i :: m <= i <= n ==> p in run[i].out
    ensures p in run[m].handles && p in run[n].handles
    ensures run[n].handles[p].id == run[m].handles[p].id && run[n].handles[p].item == run[m].handles[p].item
  {
    RunKeepsInvariant(run, calls, n);
    InvHandleOk(run[n], p);
    if m < n {
      HeldStays(run, calls, m, n - 1, p);
      RunKeepsInvariant(run, calls, n - 1);
      SameWhileLive(run[n - 1], calls[n - 1], run[n], p);
    }
  }

  /** A handle leaves the cache only by the key, or when no client has it: by pruning, or
      for want of room. */
  lemma LeavesOnlyWhen(s: State, c: Call, s': State, key: Key, p: Ptr)
    requires Inv(s) && Next(s, c, s') && s.Caches(key, p) && !s'.Caches(key, p)
    ensures (c.Erase? && c.key == key) || (c.Insert? && c.item.key == key)
            || (p in s.lru && (c.Prune? || (c.Insert? && s.Put(c.at, c.item).usage > s.capacity)))
  {
    if c.Insert? {
      if c.item.key != key {
        LeavesForRoom(s, c.at, c.item, s', key, p);
      }
    } else if c.Prune? {
      InvIs(s);
      PrunedIs(s);
      ShedsUnused(s, s', |s.lru|, p);
    } else if c.Release? {
      ReleaseKeepsCached(s, c.p, s', key, p);
    } else {
      FindCaches(s, c.key);
    }
  }

  lemma LeavesForRoom(s: State, at: Ptr, item: Item, s': State, key: Key, p: Ptr)
    requires Inv(s) && Next(s, Insert(at, item), s') && s.Caches(key, p) && key != item.key && !s'.Caches(key, p)
    ensures p in s.lru && s.Put(at, item).usage > s.capacity
  {
    PutIsSame(s, at, item);
    PutLists(s, at, item);
    InsertKeeps(s, at, item, s');
    var k: nat :| Evicts(s.Put(at, item), s', k);
    ShedsUnused(s.Put(at, item), s', k, p);
    UnusedAreOut(s);
    WithoutIs(s.lru, s.Find(item.key));
  }

  lemma ReleaseKeepsCached(s: State, r: Ptr, s': State, key: Key, p: Ptr)
    requires Inv(s) && Next(s, Release(r), s') && s.Caches(key, p)
    ensures s'.Caches(key, p)
  {
    InvIs(s);
    assert HandleOk(s, p);
  }

  /** Only unused handles are evicted, and only when there is too much. */
  lemma ShedsUnused(s: State, s': State, k: nat, p: Ptr)
    requires Sheds(s, s', k) && p in s.handles && !(p in s'.handles && s'.handles[p] == s.handles[p])
    ensures p in s.lru && (TooMuch(s, k) ==> s.usage > s.capacity)
  {
    assert p in Members(s.lru[..k]) && s.lru[..0] == [];
  }

  /** A look-up finds what was inserted last under the key, or nothing. */
  lemma FindsLatest(run: seq<State>, calls: seq<Call>, n: nat, key: Key)
    requires IsRun(run, calls) && n <= |calls|
    ensures var p, s := run[n].Find(key), run[n];
            p in s.handles ==>
              s.handles[p].item.key == key && s.handles[p].id < |s.inserted| && s.inserted[s.handles[p].id] == s.handles[p].item
              && forall id :: s.handles[p].id < id < |s.inserted| ==> s.inserted[id].key != key
  {
    var s, p := run[n], run[n].Find(key);
    RunKeepsInvariant(run, calls, n);
    InvIs(s);
    FindCaches(s, key);
    assert HandleOk(s, p) && Latest(s, p);
  }

  /** Someone has a handle of an insertion: a client, or the cache. */
  ghost predicate Wanted(s: State, id: nat) {
    exists p :: p in s.handles && s.handles[p].id == id && (p in s.out || s.handles[p].inCache)
  }

  /** The deleter of everything that was inserted has run exactly once if no one has a handle
      any more, and not at all before. */
  lemma DeletedOnce(run: seq<State>, calls: seq<Call>, n: nat, id: nat)
    requires IsRun(run, calls) && n <= |calls| && id < |run[n].inserted|
    ensures IsDeleted(run[n], id) <==> !Wanted(run[n], id)
    ensures forall i, j :: 0 <= i < j < |run[n].deleted| ==> run[n].deleted[i].id != run[n].deleted[j].id
    ensures forall i :: 0 <= i < |run[n].deleted| && run[n].deleted[i].id == id ==> run[n].deleted[i].item == run[n].inserted[id]
  {
    RunKeepsInvariant(run, calls, n);
    InvIs(run[n]);
    if Live(run[n], id) {
      var p :| p in run[n].handles && run[n].handles[p].id == id;
      assert HandleOk(run[n], p);
    }
  }

  /** The destructor deletes what is left when the clients have given everything back. */
  ghost predicate Destroys(s: State, deleted: seq<Deletion>) {
    (forall p :: p in s.lru ==> p in s.handles) && deleted == s.deleted + Deletions(s.handles, s.lru)
  }

  lemma NoneInUse(s: State)
    requires Inv(s) && s.out == multiset{}
    ensures s.inUse == []
    ensures forall p :: p in s.lru ==> p in s.handles && p > IN_USE && s.handles[p].refs == 1
  {
    InvIs(s);
    assert |s.inUse| > 0 ==> s.inUse[0] in s.inUse;
    forall p: Ptr
      ensures p !in s.inUse && (p in s.lru ==> p in s.handles && p > IN_USE && s.handles[p].refs == 1)
    {
      assert HandleOk(s, p);
    }
  }

  /** In the end everything that was inserted has been deleted exactly once. */
  lemma DestroyedDeletesAll(s: State, deleted: seq<Deletion>)
    requires Inv(s) && s.out == multiset{} && Destroys(s, deleted)
    ensures forall id: nat :: id < |s.inserted| ==> InDeletions(deleted, id)
    ensures forall i, j :: 0 <= i < j < |deleted| ==> deleted[i].id != deleted[j].id
    ensures forall i :: 0 <= i < |deleted| ==> deleted[i].id < |s.inserted| && deleted[i].item == s.inserted[deleted[i].id]
  {
    InvIs(s);
    PrunedIs(s);
    var s' := s.Pruned();
    assert s.lru[..|s.lru|] == s.lru && s'.deleted == deleted;
    SoundIs(s');
    forall p
      ensures p !in s'.handles
    {
      assert HandleOk(s, p);
    }
    forall id: nat | id < |s.inserted|
      ensures InDeletions(deleted, id)
    {
      assert Live(s', id) <==> !IsDeleted(s', id);
    }
  }
}
