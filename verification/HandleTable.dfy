/** The hash table of the cache: buckets of handles that are chained through the handles
    (class HandleTable of util/cache.cc). A handle is known by its address. */
module HandleTables {
  import opened Entries

  type Ptr = nat

  const NULL: Ptr := 0

  datatype Key = Key(bytes: Bytes, hash: nat)

  predicate HasKey(keys: map<Ptr, Key>, p: Ptr, key: Key) {
    p in keys && keys[p] == key
  }

  /** Among these handles, the one that has the key; NULL when there is none. */
  ghost predicate Finds(keys: map<Ptr, Key>, held: set<Ptr>, key: Key, p: Ptr) {
    if p == NULL then forall q :: q in held ==> q != NULL && !HasKey(keys, q, key) else p in held && HasKey(keys, p, key)
  }

  predicate PowerOfTwo(n: nat) {
    n == 1 || (n > 1 && n % 2 == 0 && PowerOfTwo(n / 2))
  }

  // ---------------------------------------------------------------- chains

  ghost function Members(list: seq<Ptr>): set<Ptr> {
    set p | p in list
  }

  /** Links change only inside a set of handles. */
  ghost predicate Kept(next: map<Ptr, Ptr>, next': map<Ptr, Ptr>, changed: set<Ptr>) {
    forall p :: p in next && p !in changed ==> p in next' && next'[p] == next[p]
  }

  /** Where a chain goes on. */
  function First(chain: seq<Ptr>, j: nat): Ptr {
    if j < |chain| then chain[j] else NULL
  }

  ghost predicate NoRepeats(list: seq<Ptr>) {
    forall i, j :: 0 <= i < j < |list| ==> list[i] != list[j]
  }

  /** The first of some handles joins others. */
  lemma FirstJoins(held: set<Ptr>, list: seq<Ptr>)
    requires list != [] && NoRepeats(list) && Members(list) !! held
    ensures list[0] in Members(list) && Members(list[1..]) <= Members(list) && Members(list[1..]) !! held + {list[0]}
    ensures held + {list[0]} + Members(list[1..]) == held + Members(list) && |held + {list[0]}| == |held| + 1
  {
    assert Members(list) == {list[0]} + Members(list[1..]);
  }

  /** The links from `head` on lead through exactly this chain. */
  ghost predicate Chain(next: map<Ptr, Ptr>, head: Ptr, chain: seq<Ptr>) {
    head == First(chain, 0) && NoRepeats(chain)
    && forall j: nat :: ChainAt(next, chain, j)
  }

  ghost predicate ChainAt(next: map<Ptr, Ptr>, chain: seq<Ptr>, j: nat) {
    j < |chain| ==> chain[j] != NULL && chain[j] in next && next[chain[j]] == First(chain, j + 1)
  }

  /** A link that is not in the chain does not matter. */
  lemma ChainStays(next: map<Ptr, Ptr>, next': map<Ptr, Ptr>, head: Ptr, chain: seq<Ptr>)
    requires Chain(next, head, chain)
    requires forall p :: p in chain && p in next ==> p in next' && next'[p] == next[p]
    ensures Chain(next', head, chain)
  {
    forall j: nat
      ensures ChainAt(next', chain, j)
    {
      assert ChainAt(next, chain, j);
    }
  }

  /** Another handle takes the place of one. */
  lemma ChainReplaces(next: map<Ptr, Ptr>, head: Ptr, chain: seq<Ptr>, j: nat, h: Ptr)
    requires Chain(next, head, chain) && j < |chain| && h !in chain && h != NULL
    ensures var next' := next[h := First(chain, j + 1)];
            Chain(if j == 0 then next' else next'[chain[j - 1] := h], if j == 0 then h else head, chain[j := h])
  {
    var next', chain' := next[h := First(chain, j + 1)], chain[j := h];
    var next'' := if j == 0 then next' else next'[chain[j - 1] := h];
    forall i: nat
      ensures ChainAt(next'', chain', i)
    {
      assert ChainAt(next, chain, i);
    }
  }

  /** A handle joins at the end. */
  lemma ChainAppends(next: map<Ptr, Ptr>, head: Ptr, chain: seq<Ptr>, h: Ptr)
    requires Chain(next, head, chain) && h !in chain && h != NULL
    ensures var next' := next[h := NULL];
            Chain(if chain == [] then next' else next'[chain[|chain| - 1] := h], if chain == [] then h else head, chain + [h])
  {
    var next', chain' := next[h := NULL], chain + [h];
    var next'' := if chain == [] then next' else next'[chain[|chain| - 1] := h];
    forall i: nat
      ensures ChainAt(next'', chain', i)
    {
      assert ChainAt(next, chain, i);
    }
  }

  /** A handle joins at the front. */
  lemma ChainPrepends(next: map<Ptr, Ptr>, head: Ptr, chain: seq<Ptr>, h: Ptr)
    requires Chain(next, head, chain) && h !in chain && h != NULL
    ensures Chain(next[h := head], h, [h] + chain)
  {
    var next', chain' := next[h := head], [h] + chain;
    forall i: nat
      ensures ChainAt(next', chain', i)
    {
      if i > 0 {
        assert ChainAt(next, chain, i - 1);
      }
    }
  }

  /** A handle leaves. */
  lemma ChainLoses(next: map<Ptr, Ptr>, head: Ptr, chain: seq<Ptr>, j: nat)
    requires Chain(next, head, chain) && j < |chain|
    ensures var after := First(chain, j + 1);
            Chain(if j == 0 then next else next[chain[j - 1] := after], if j == 0 then after else head,
                  chain[..j] + chain[j + 1..])
  {
    var after, rest := First(chain, j + 1), chain[..j] + chain[j + 1..];
    var next' := if j == 0 then next else next[chain[j - 1] := after];
    forall i: nat
      ensures ChainAt(next', rest, i)
    {
      assert ChainAt(next, chain, i) && ChainAt(next, chain, i + 1);
    }
  }

  lemma ChainHead(next: map<Ptr, Ptr>, head: Ptr, chain: seq<Ptr>)
    requires Chain(next, head, chain)
    ensures head == NULL <==> chain == []
  {
    assert ChainAt(next, chain, 0);
  }

  /** The chain behind its first handle. */
  lemma ChainRest(next: map<Ptr, Ptr>, chain: seq<Ptr>)
    requires chain != [] && Chain(next, chain[0], chain)
    ensures chain[0] != NULL && chain[0] in next && chain[0] !in chain[1..]
    ensures Chain(next, next[chain[0]], chain[1..])
  {
    assert ChainAt(next, chain, 0);
    var rest := chain[1..];
    forall i: nat
      ensures ChainAt(next, rest, i)
    {
      assert ChainAt(next, chain, i + 1);
    }
  }

  // ---------------------------------------------------------------- buckets

  ghost function Held(chains: seq<seq<Ptr>>): set<Ptr> {
    set i, p | 0 <= i < |chains| && p in chains[i] :: p
  }

  lemma HeldChanges(chains: seq<seq<Ptr>>, i: nat, chain: seq<Ptr>, add: set<Ptr>, drop: set<Ptr>)
    requires i < |chains| && forall p :: p in chain <==> (p in chains[i] && p !in drop) || p in add
    requires forall p, m :: p in drop && 0 <= m < |chains| && p in chains[m] ==> m == i
    ensures Held(chains[i := chain]) == Held(chains) - drop + add
  {
    var chains' := chains[i := chain];
    forall p | p in Held(chains) - drop + add
      ensures p in Held(chains')
    {
      if p in add {
        assert p in chains'[i];
      } else {
        var m :| 0 <= m < |chains| && p in chains[m];
        assert p in chains'[m];
      }
    }
  }

  /** Every chain lies in the bucket of its keys. */
  ghost predicate Buckets(next: map<Ptr, Ptr>, list: seq<Ptr>, chains: seq<seq<Ptr>>, keys: map<Ptr, Key>) {
    |list| == |chains| > 0 && forall use: nat :: AllBuckets(next, list, chains, keys, use)
  }

  ghost predicate AllBuckets(next: map<Ptr, Ptr>, list: seq<Ptr>, chains: seq<seq<Ptr>>, keys: map<Ptr, Key>, use: nat)
    requires |list| == |chains| > 0
  {
    forall i: nat :: BucketAt(next, list, chains, keys, i)
  }

  ghost predicate BucketAt(next: map<Ptr, Ptr>, list: seq<Ptr>, chains: seq<seq<Ptr>>, keys: map<Ptr, Key>, i: nat)
    requires |list| == |chains| > 0
  {
    i < |list| ==>
      Chain(next, list[i], chains[i]) && forall p :: p in chains[i] ==> p in keys && keys[p].hash % |list| == i
  }

  lemma BucketIs(next: map<Ptr, Ptr>, list: seq<Ptr>, chains: seq<seq<Ptr>>, keys: map<Ptr, Key>, i: nat)
    requires Buckets(next, list, chains, keys)
    ensures BucketAt(next, list, chains, keys, i)
  {
    assert AllBuckets(next, list, chains, keys, 0);
  }

  /** No two handles have the same key. */
  ghost predicate KeysDiffer(keys: map<Ptr, Key>, held: set<Ptr>) {
    forall p, q :: p in held && q in held && p in keys && q in keys && p != q ==> keys[p] != keys[q]
  }

  /** One bucket changes, and only links of its own handles and of a new one. */
  lemma OneBucket(next: map<Ptr, Ptr>, list: seq<Ptr>, chains: seq<seq<Ptr>>, keys: map<Ptr, Key>,
                  i: nat, next': map<Ptr, Ptr>, head: Ptr, chain: seq<Ptr>)
    requires Buckets(next, list, chains, keys) && i < |list| && Chain(next', head, chain)
    requires forall p :: p in chain ==> p in keys && keys[p].hash % |list| == i
    requires forall p :: p in Held(chains) && p !in chains[i] && p in next ==> p in next' && next'[p] == next[p]
    ensures Buckets(next', list[i := head], chains[i := chain], keys)
  {
    var list', chains' := list[i := head], chains[i := chain];
    forall m: nat
      ensures BucketAt(next', list', chains', keys, m)
    {
      BucketIs(next, list, chains, keys, m);
      BucketIs(next, list, chains, keys, i);
      if m < |list| && m != i {
        forall p | p in chains[m]
          ensures p in Held(chains) && p !in chains[i]
        {
        }
        ChainStays(next, next', list[m], chains[m]);
      }
    }
  }

  /** A handle is in the bucket of its key, and in no other. */
  lemma OnlyBucket(next: map<Ptr, Ptr>, list: seq<Ptr>, chains: seq<seq<Ptr>>, keys: map<Ptr, Key>, p: Ptr)
    requires Buckets(next, list, chains, keys) && p in Held(chains)
    ensures p in keys && p != NULL && p in next && p in chains[keys[p].hash % |list|]
    ensures forall m :: 0 <= m < |chains| && p in chains[m] ==> m == keys[p].hash % |list|
  {
    var i: nat :| i < |chains| && p in chains[i];
    BucketIs(next, list, chains, keys, i);
    var j: nat :| j < |chains[i]| && chains[i][j] == p;
    assert ChainAt(next, chains[i], j);
    forall m: nat | m < |chains| && p in chains[m]
      ensures m == keys[p].hash % |list|
    {
      BucketIs(next, list, chains, keys, m);
    }
  }

  lemma BucketsStay(next: map<Ptr, Ptr>, list: seq<Ptr>, chains: seq<seq<Ptr>>, keys: map<Ptr, Key>, keys': map<Ptr, Key>)
    requires Buckets(next, list, chains, keys)
    requires forall p :: p in Held(chains) && p in keys ==> p in keys' && keys'[p] == keys[p]
    ensures Buckets(next, list, chains, keys')
  {
    forall m: nat
      ensures BucketAt(next, list, chains, keys', m)
    {
      BucketIs(next, list, chains, keys, m);
      if m < |list| {
        forall p | p in chains[m]
          ensures p in Held(chains)
        {
        }
      }
    }
  }

  /** A slot of a bucket takes a handle: the end of the chain, or the place of another one. */
  lemma SlotTakes(next: map<Ptr, Ptr>, list: seq<Ptr>, chains: seq<seq<Ptr>>, keys: map<Ptr, Key>, i: nat, j: nat, h: Ptr)
    requires Buckets(next, list, chains, keys) && i < |list| && j <= |chains[i]|
    requires h in keys && keys[h].hash % |list| == i && h !in Held(chains) && h != NULL
    ensures j < |chains[i]| ==> chains[i][j] in next
    ensures var chain, was := chains[i], First(chains[i], j);
            var next' := next[h := if j == |chain| then NULL else next[was]];
            var chains' := chains[i := if j == |chain| then chain + [h] else chain[j := h]];
            Buckets(if j == 0 then next' else next'[chain[j - 1] := h], if j == 0 then list[i := h] else list, chains', keys)
            && NULL !in Held(chains) && Held(chains') == Held(chains) - {was} + {h}
  {
    var chain, was := chains[i], First(chains[i], j);
    BucketIs(next, list, chains, keys, i);
    assert ChainAt(next, chain, j) && (j > 0 ==> ChainAt(next, chain, j - 1));
    forall p | p in Held(chains)
      ensures p != NULL && p in next && p in keys && (p in chain <==> keys[p].hash % |list| == i)
      ensures forall m :: 0 <= m < |chains| && p in chains[m] ==> m == keys[p].hash % |list|
    {
      OnlyBucket(next, list, chains, keys, p);
    }
    forall m, p | 0 <= m < |chains| && p in chains[m]
      ensures p in Held(chains)
    {
    }
    var next' := next[h := if j == |chain| then NULL else next[was]];
    var next'' := if j == 0 then next' else next'[chain[j - 1] := h];
    var head, chain' := if j == 0 then h else list[i], if j == |chain| then chain + [h] else chain[j := h];
    if j == |chain| {
      ChainAppends(next, list[i], chain, h);
    } else {
      ChainReplaces(next, list[i], chain, j, h);
    }
    forall p
      ensures p in chain' <==> (p in chain && p !in {was}) || p in {h}
    {
      if p in chain {
        var m :| 0 <= m < |chain| && chain[m] == p;
        assert m < |chain'| && (m != j ==> chain'[m] == p);
      }
      assert h == chain'[j];
    }
    OneBucket(next, list, chains, keys, i, next'', head, chain');
    assert list[i := list[i]] == list;
    HeldChanges(chains, i, chain', {h}, {was});
  }

  /** A slot of a bucket loses its handle. */
  lemma SlotLoses(next: map<Ptr, Ptr>, list: seq<Ptr>, chains: seq<seq<Ptr>>, keys: map<Ptr, Key>, i: nat, j: nat)
    requires Buckets(next, list, chains, keys) && i < |list| && j < |chains[i]|
    ensures chains[i][j] in next
    ensures var chain, was := chains[i], chains[i][j];
            var chains' := chains[i := chain[..j] + chain[j + 1..]];
            Buckets(if j == 0 then next else next[chain[j - 1] := next[was]], if j == 0 then list[i := next[was]] else list,
                    chains', keys)
            && was in Held(chains) && Held(chains') == Held(chains) - {was}
  {
    var chain, was := chains[i], chains[i][j];
    BucketIs(next, list, chains, keys, i);
    assert ChainAt(next, chain, j) && (j > 0 ==> ChainAt(next, chain, j - 1));
    forall p | p in Held(chains)
      ensures p in next && p in keys && (p in chain <==> keys[p].hash % |list| == i)
    {
      OnlyBucket(next, list, chains, keys, p);
    }
    var next' := if j == 0 then next else next[chain[j - 1] := next[was]];
    var head, chain' := if j == 0 then next[was] else list[i], chain[..j] + chain[j + 1..];
    ChainLoses(next, list[i], chain, j);
    assert was in chains[i];
    OnlyBucket(next, list, chains, keys, was);
    forall p
      ensures p in chain' <==> p in chain && p !in {was}
    {
      if p in chain {
        var m :| 0 <= m < |chain| && chain[m] == p;
        assert m < j ==> chain'[m] == p;
        assert m > j ==> chain'[m - 1] == p;
      }
    }
    OneBucket(next, list, chains, keys, i, next', head, chain');
    assert list[i := list[i]] == list;
    HeldChanges(chains, i, chain', {}, {was});
  }

  lemma KeysStillDiffer(keys: map<Ptr, Key>, held: set<Ptr>, was: Ptr, h: Ptr)
    requires KeysDiffer(keys, held) && NULL !in held && h in keys && h !in held && Finds(keys, held, keys[h], was)
    ensures KeysDiffer(keys, held - {was} + {h})
    ensures |held - {was} + {h}| == if was == NULL then |held| + 1 else |held|
  {
    assert was == NULL ==> held - {was} == held;
  }

  /** A handle joins its bucket at the front. */
  lemma BucketPrepends(next: map<Ptr, Ptr>, list: seq<Ptr>, chains: seq<seq<Ptr>>, keys: map<Ptr, Key>, h: Ptr)
    requires Buckets(next, list, chains, keys) && h in keys && h != NULL && h !in Held(chains)
    ensures var i := keys[h].hash % |list|;
            var chains' := chains[i := [h] + chains[i]];
            Buckets(next[h := list[i]], list[i := h], chains', keys) && Held(chains') == Held(chains) + {h}
  {
    var i := keys[h].hash % |list|;
    BucketIs(next, list, chains, keys, i);
    forall p | p in chains[i]
      ensures p in Held(chains)
    {
    }
    ChainPrepends(next, list[i], chains[i], h);
    OneBucket(next, list, chains, keys, i, next[h := list[i]], h, [h] + chains[i]);
    HeldChanges(chains, i, [h] + chains[i], {h}, {});
  }

  lemma EmptyBuckets(next: map<Ptr, Ptr>, length: nat, keys: map<Ptr, Key>)
    requires length > 0
    ensures Buckets(next, seq(length, _ => NULL), seq(length, _ => []), keys)
    ensures Held(seq(length, _ => [])) == {}
  {
    var list, chains: seq<seq<Ptr>> := seq(length, _ => NULL), seq(length, _ => []);
    forall i: nat
      ensures BucketAt(next, list, chains, keys, i)
    {
      if i < length {
        forall j: nat
          ensures ChainAt(next, chains[i], j)
        {
        }
      }
    }
  }

  lemma HeldGrows(chains: seq<seq<Ptr>>, i: nat)
    requires i < |chains|
    ensures Held(chains[..i + 1]) == Held(chains[..i]) + Members(chains[i])
  {
    var before, after := chains[..i], chains[..i + 1];
    forall p | p in Held(before) + Members(chains[i])
      ensures p in Held(after)
    {
      if p in chains[i] {
        assert p in after[i];
      } else {
        var m :| 0 <= m < |before| && p in before[m];
        assert p in after[m];
      }
    }
  }

  /** No handle is in two chains. */
  lemma BucketsApart(next: map<Ptr, Ptr>, list: seq<Ptr>, chains: seq<seq<Ptr>>, keys: map<Ptr, Key>)
    requires Buckets(next, list, chains, keys)
    ensures forall m, i, p :: 0 <= m < i < |chains| && p in chains[i] ==> p !in chains[m]
    ensures forall i :: 0 <= i < |chains| ==> Members(chains[i]) <= keys.Keys && Members(chains[i]) !! Held(chains[..i])
    ensures Unmoved(next, list, chains, 0)
  {
    forall m, i, p | 0 <= m < i < |chains| && p in chains[i]
      ensures p !in chains[m]
    {
      BucketIs(next, list, chains, keys, m);
      BucketIs(next, list, chains, keys, i);
    }
    forall i | 0 <= i < |chains|
      ensures Members(chains[i]) <= keys.Keys && Members(chains[i]) !! Held(chains[..i])
    {
      BucketIs(next, list, chains, keys, i);
    }
    forall i: nat
      ensures ChainIn(next, list, chains, i)
    {
      BucketIs(next, list, chains, keys, i);
    }
  }

  /** The chains from m on have not been moved yet. */
  ghost predicate Unmoved(next: map<Ptr, Ptr>, list: seq<Ptr>, chains: seq<seq<Ptr>>, m: nat) {
    forall i: nat :: m <= i ==> ChainIn(next, list, chains, i)
  }

  ghost predicate ChainIn(next: map<Ptr, Ptr>, list: seq<Ptr>, chains: seq<seq<Ptr>>, i: nat) {
    i < |list| == |chains| ==> Chain(next, list[i], chains[i])
  }

  /** Moving one chain leaves the others. */
  lemma RestUnmoved(next: map<Ptr, Ptr>, next': map<Ptr, Ptr>, list: seq<Ptr>, chains: seq<seq<Ptr>>, m: nat)
    requires Unmoved(next, list, chains, m) && m < |list| == |chains|
    requires forall i, p :: m < i < |chains| && p in chains[i] ==> p !in chains[m]
    requires Kept(next, next', Members(chains[m]))
    ensures Unmoved(next', list, chains, m + 1)
  {
    forall i: nat | m + 1 <= i
      ensures ChainIn(next', list, chains, i)
    {
      assert ChainIn(next, list, chains, i);
      if i < |list| {
        forall p | p in chains[i]
          ensures p in next
        {
          var j: nat :| j < |chains[i]| && chains[i][j] == p;
          assert ChainAt(next, chains[i], j);
        }
        ChainStays(next, next', list[i], chains[i]);
      }
    }
  }

  class HandleTable {
    var list: seq<Ptr>
    var elems: nat
    /** The links through the handles. */
    var nextHash: map<Ptr, Ptr>
    ghost var chains: seq<seq<Ptr>>

    ghost function Contents(): set<Ptr>
      reads this
    {
      Held(chains)
    }

    ghost predicate Valid(keys: map<Ptr, Key>)
      reads this
    {
      Buckets(nextHash, list, chains, keys) && KeysDiffer(keys, Contents())
      && elems == |Contents()| <= |list| && PowerOfTwo(|list|)
    }

    constructor ()
      ensures Valid(map[]) && Contents() == {}
    {
      list, elems, nextHash := [NULL, NULL, NULL, NULL], 0, map[];
      chains := [[], [], [], []];
      assert PowerOfTwo(2);
    }

    /** Keys of handles that are not in the table do not matter. */
    lemma ValidStays(keys: map<Ptr, Key>, keys': map<Ptr, Key>)
      requires Valid(keys) && forall p :: p in Contents() && p in keys ==> p in keys' && keys'[p] == keys[p]
      ensures Valid(keys')
    {
      BucketsStay(nextHash, list, chains, keys, keys');
      forall p | p in Contents()
        ensures p in keys
      {
        OnlyBucket(nextHash, list, chains, keys, p);
      }
    }

    /** The slot for a key: that of its handle, or the one at the end of its chain. The
        slot is the bucket itself, or the link of the handle before. */
    method FindPointer(keys: map<Ptr, Key>, key: Key) returns (i: nat, before: Ptr, found: Ptr, ghost j: nat)
      requires Valid(keys)
      ensures i == key.hash % |list| && j <= |chains[i]| && found == First(chains[i], j)
      ensures (before == NULL <==> j == 0) && (j > 0 ==> before == chains[i][j - 1])
      ensures forall m :: 0 <= m < j ==> !HasKey(keys, chains[i][m], key)
      ensures j < |chains[i]| ==> found != NULL && HasKey(keys, found, key)
    {
      i, before, j := key.hash % |list|, NULL, 0;
      BucketIs(nextHash, list, chains, keys, i);
      found := list[i];
      assert ChainAt(nextHash, chains[i], 0);
      while found != NULL && keys[found] != key
        invariant j <= |chains[i]| && found == First(chains[i], j)
        invariant found != NULL <==> j < |chains[i]|
        invariant (before == NULL <==> j == 0) && (j > 0 ==> before == chains[i][j - 1])
        invariant forall m :: 0 <= m < j ==> !HasKey(keys, chains[i][m], key)
        decreases |chains[i]| - j
      {
        assert ChainAt(nextHash, chains[i], j) && ChainAt(nextHash, chains[i], j + 1);
        before := found;
        found := nextHash[found];
        j := j + 1;
      }
    }

    /** When no handle of its bucket has a key, none has. */
    lemma NoneHas(keys: map<Ptr, Key>, key: Key)
      requires Valid(keys)
      requires forall m :: 0 <= m < |chains[key.hash % |list|]| ==> !HasKey(keys, chains[key.hash % |list|][m], key)
      ensures Finds(keys, Contents(), key, NULL)
    {
      forall p | p in Contents()
        ensures p != NULL && !HasKey(keys, p, key)
      {
        OnlyBucket(nextHash, list, chains, keys, p);
        var i := keys[p].hash % |list|;
        var m :| 0 <= m < |chains[i]| && chains[i][m] == p;
      }
    }

    method Lookup(keys: map<Ptr, Key>, key: Key) returns (p: Ptr)
      requires Valid(keys)
      ensures Finds(keys, Contents(), key, p)
    {
      var i, before;
      ghost var j;
      i, before, p, j := FindPointer(keys, key);
      if p == NULL {
        NoneHas(keys, key);
      } else {
        assert p in chains[i];
      }
    }

    /** Puts a handle into a slot. */
    method Store(i: nat, before: Ptr, h: Ptr)
      requires i < |list|
      modifies `list, `nextHash
      ensures list == if before == NULL then old(list)[i := h] else old(list)
      ensures nextHash == if before == NULL then old(nextHash) else old(nextHash)[before := h]
    {
      if before == NULL {
        list := list[i := h];
      } else {
        nextHash := nextHash[before := h];
      }
    }

    /** Takes a handle in, in the place of the one with its key if there is one. */
    method Insert(keys: map<Ptr, Key>, h: Ptr) returns (was: Ptr)
      requires Valid(keys) && h in keys && h != NULL && h !in Contents()
      modifies this
      ensures Valid(keys)
      ensures Finds(keys, old(Contents()), keys[h], was)
      ensures Contents() == old(Contents()) - {was} + {h}
    {
      var i, before;
      ghost var j;
      i, before, was, j := FindPointer(keys, keys[h]);
      ghost var chain := chains[i];
      if was == NULL {
        NoneHas(keys, keys[h]);
      } else {
        assert was in chains[i];
      }
      ghost var held := Contents();
      Put(keys, i, before, was, j, h);
      KeysStillDiffer(keys, held, was, h);
      if was == NULL {
        elems := elems + 1;
        if elems > |list| {
          Resize(keys);
        }
      }
    }

    /** Puts a handle into a slot, in the place of the one that is there. */
    method Put(keys: map<Ptr, Key>, i: nat, before: Ptr, was: Ptr, ghost j: nat, h: Ptr)
      requires Buckets(nextHash, list, chains, keys) && i < |list| && j <= |chains[i]|
      requires (before == NULL <==> j == 0) && (j > 0 ==> before == chains[i][j - 1])
      requires was == First(chains[i], j) && (j < |chains[i]| ==> was != NULL)
      requires h in keys && keys[h].hash % |list| == i && h != NULL && h !in Contents()
      modifies `list, `nextHash, `chains
      ensures Buckets(nextHash, list, chains, keys) && |list| == old(|list|)
      ensures NULL !in old(Contents()) && Contents() == old(Contents()) - {was} + {h}
    {
      ghost var chain := chains[i];
      SlotTakes(nextHash, list, chains, keys, i, j, h);
      nextHash := nextHash[h := if was == NULL then NULL else nextHash[was]];
      Store(i, before, h);
      chains := chains[i := if j == |chain| then chain + [h] else chain[j := h]];
    }

    /** Takes the handle with a key out. */
    method Remove(keys: map<Ptr, Key>, key: Key) returns (p: Ptr)
      requires Valid(keys)
      modifies this
      ensures Valid(keys)
      ensures Finds(keys, old(Contents()), key, p)
      ensures Contents() == old(Contents()) - {p}
    {
      var i, before;
      ghost var j;
      i, before, p, j := FindPointer(keys, key);
      if p == NULL {
        NoneHas(keys, key);
      } else {
        ghost var chain := chains[i];
        assert p in chain;
        SlotLoses(nextHash, list, chains, keys, i, j);
        Store(i, before, nextHash[p]);
        chains := chains[i := chain[..j] + chain[j + 1..]];
        elems := elems - 1;
      }
    }

    /** Moves all handles into a list of buckets that is long enough for them. */
    method Resize(keys: map<Ptr, Key>)
      requires Buckets(nextHash, list, chains, keys) && elems == |Contents()|
      modifies `list, `nextHash, `chains
      ensures Buckets(nextHash, list, chains, keys) && Contents() == old(Contents())
      ensures elems <= |list| && PowerOfTwo(|list|)
    {
      var length := NewLength();
      var into: seq<Ptr> := seq(length, _ => NULL);
      ghost var chains': seq<seq<Ptr>> := seq(length, _ => []);
      EmptyBuckets(nextHash, length, keys);
      BucketsApart(nextHash, list, chains, keys);
      ghost var was := chains;
      var i, count := 0, 0;
      while i < |list|
        invariant i <= |list| == |was| && |into| == length && list == old(list)
        invariant Buckets(nextHash, into, chains', keys)
        invariant Held(chains') == Held(was[..i]) && count == |Held(chains')|
        invariant Unmoved(nextHash, list, was, i)
      {
        ghost var next := nextHash;
        assert ChainIn(nextHash, list, was, i);
        HeldGrows(was, i);
        into, count, chains' := MoveChain(keys, list[i], was[i], into, count, chains');
        RestUnmoved(next, nextHash, list, was, i);
        i := i + 1;
      }
      assert was[..|list|] == was;
      assert elems == count;
      list, chains := into, chains';
    }

    method NewLength() returns (length: nat)
      ensures elems <= length && PowerOfTwo(length)
    {
      length := 4;
      assert PowerOfTwo(2);
      while length < elems
        invariant PowerOfTwo(length) && length > 0
        decreases elems - length
      {
        length := length * 2;
      }
    }

    /** Moves the handles of one chain, each to the front of its new bucket. */
    method MoveChain(keys: map<Ptr, Key>, head: Ptr, ghost chain: seq<Ptr>, into: seq<Ptr>, count: nat,
                     ghost chains': seq<seq<Ptr>>)
      returns (into': seq<Ptr>, count': nat, ghost moved: seq<seq<Ptr>>)
      requires Chain(nextHash, head, chain) && Buckets(nextHash, into, chains', keys) && count == |Held(chains')|
      requires Members(chain) <= keys.Keys && Members(chain) !! Held(chains')
      modifies `nextHash
      ensures |into'| == |into| && Buckets(nextHash, into', moved, keys)
      ensures Held(moved) == Held(chains') + Members(chain) && count' == |Held(moved)|
      ensures Kept(old(nextHash), nextHash, Members(chain))
    {
      var h := head;
      into', count', moved := into, count, chains';
      ghost var rest, next0 := chain, nextHash;
      ChainHead(nextHash, h, chain);
      while h != NULL
        invariant |into'| == |into| && Buckets(nextHash, into', moved, keys)
        invariant Chain(nextHash, h, rest) && (h == NULL <==> rest == [])
        invariant Members(rest) <= Members(chain) && Members(rest) !! Held(moved)
        invariant Held(moved) + Members(rest) == Held(chains') + Members(chain)
        invariant count' == |Held(moved)|
        invariant Kept(next0, nextHash, Members(chain))
        decreases |rest|
      {
        FirstJoins(Held(moved), rest);
        assert h == rest[0];
        var next;
        into', next, moved := MoveHandle(keys, h, into', moved, rest);
        h, count', rest := next, count' + 1, rest[1..];
      }
    }

    /** Moves the first handle of a chain to the front of its new bucket. */
    method MoveHandle(keys: map<Ptr, Key>, h: Ptr, into: seq<Ptr>, ghost chains': seq<seq<Ptr>>, ghost chain: seq<Ptr>)
      returns (into': seq<Ptr>, next: Ptr, ghost moved: seq<seq<Ptr>>)
      requires Buckets(nextHash, into, chains', keys) && h in keys && h !in Held(chains')
      requires chain != [] && Chain(nextHash, h, chain)
      modifies `nextHash
      ensures |into'| == |into| && Buckets(nextHash, into', moved, keys) && Held(moved) == Held(chains') + {h}
      ensures Chain(nextHash, next, chain[1..]) && (next == NULL <==> chain[1..] == [])
      ensures Kept(old(nextHash), nextHash, {h})
    {
      ChainRest(nextHash, chain);
      next := nextHash[h];
      ChainHead(nextHash, next, chain[1..]);
      var i := keys[h].hash % |into|;
      BucketPrepends(nextHash, into, chains', keys, h);
      ChainStays(nextHash, nextHash[h := into[i]], next, chain[1..]);
      nextHash := nextHash[h := into[i]];
      into', moved := into[i := h], chains'[i := [h] + chains'[i]];
    }
  }
}
