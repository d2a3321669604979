/** Tables: blocks of entries behind an index of shortened separators, with filters
    (table/table_builder.cc, table/table.cc). */
module Tables {
  import opened Entries
  import opened Coding
  import opened Comparators
  import B = Block
  import Bloom
  import F = FilterBlock

  type KV = B.KV

  /** A data block in the file: its entries and its handle. */
  datatype Blk = Blk(entries: seq<KV>, offset: nat, size: nat)

  function HandleBytes(offset: nat, size: nat): Bytes {
    Varint(offset) + Varint(size)
  }

  function FirstKey(entries: seq<KV>): Bytes
    requires entries != []
  {
    entries[0].key
  }

  function LastKey(entries: seq<KV>): Bytes
    requires entries != []
  {
    entries[|entries| - 1].key
  }

  // ------------------------------------------------------- what a table is

  ghost predicate BlockOk(cmp: Order, b: Blk, sep: Bytes) {
    b.entries != [] && B.Ordered(cmp, b.entries) && cmp(LastKey(b.entries), sep) <= 0
  }

  /** Block `i` is in order and not after its separator, and the next block is after it. */
  ghost predicate InPlace(cmp: Order, blocks: seq<Blk>, seps: seq<Bytes>, i: nat)
    requires |seps| == |blocks|
  {
    (i < |blocks| ==> BlockOk(cmp, blocks[i], seps[i]))
    && (i + 1 < |blocks| && blocks[i + 1].entries != [] ==> cmp(seps[i], FirstKey(blocks[i + 1].entries)) < 0)
  }

  /** Every block has entries, in order; the separators keep the blocks apart. */
  ghost predicate Separated(cmp: Order, blocks: seq<Blk>, seps: seq<Bytes>) {
    |seps| == |blocks| && forall i: nat :: InPlace(cmp, blocks, seps, i)
  }

  ghost predicate SameUser(u: Comparator, a: Bytes, b: Bytes) {
    u.compare(ExtractUserKey(a), ExtractUserKey(b)) == 0
  }

  /** A separator that is not the last key of its block is told apart from the first key
      of the next block by its user key already. */
  ghost predicate Apart(cmp: Order, u: Comparator, last: Bytes, sep: Bytes, first: Bytes) {
    sep == last || forall key :: cmp(sep, key) >= 0 ==> !SameUser(u, first, key)
  }

  ghost predicate ApartAt(cmp: Order, u: Comparator, blocks: seq<Blk>, seps: seq<Bytes>, i: nat) {
    i + 1 < |blocks| && i < |seps| && blocks[i].entries != [] && blocks[i + 1].entries != [] ==>
      Apart(cmp, u, LastKey(blocks[i].entries), seps[i], FirstKey(blocks[i + 1].entries))
  }

  ghost predicate ToldApart(cmp: Order, u: Comparator, blocks: seq<Blk>, seps: seq<Bytes>) {
    forall i: nat :: ApartAt(cmp, u, blocks, seps, i)
  }

  function Flat(blocks: seq<Blk>): seq<KV> {
    if blocks == [] then [] else Flat(blocks[..|blocks| - 1]) + blocks[|blocks| - 1].entries
  }

  lemma FlatGrows(blocks: seq<Blk>, b: Blk)
    ensures Flat(blocks + [b]) == Flat(blocks) + b.entries
  {
    assert (blocks + [b])[..|blocks|] == blocks;
  }

  lemma {:induction false} FlatPrefix(blocks: seq<Blk>, n: nat)
    requires n <= |blocks|
    ensures Flat(blocks[..n]) <= Flat(blocks)
  {
    if n < |blocks| {
      FlatPrefix(blocks[..|blocks| - 1], n);
      assert blocks[..|blocks| - 1][..n] == blocks[..n];
    } else {
      assert blocks[..n] == blocks;
    }
  }

  /** The entries of block `i` lie behind those of the blocks before it. */
  lemma FlatAt(blocks: seq<Blk>, i: nat, m: nat)
    requires i < |blocks| && m < |blocks[i].entries|
    ensures var n := |Flat(blocks[..i])| + m;
            n < |Flat(blocks)| && Flat(blocks)[n] == blocks[i].entries[m]
  {
    assert blocks[..i + 1][..i] == blocks[..i];
    FlatPrefix(blocks, i + 1);
  }

  lemma {:induction false} WhichBlock(blocks: seq<Blk>, n: nat) returns (i: nat, m: nat)
    requires n < |Flat(blocks)|
    ensures i < |blocks| && m < |blocks[i].entries| && n == |Flat(blocks[..i])| + m
    ensures Flat(blocks)[n] == blocks[i].entries[m]
  {
    var last := |blocks| - 1;
    if n < |Flat(blocks[..last])| {
      i, m := WhichBlock(blocks[..last], n);
      assert blocks[..last][..i] == blocks[..i];
    } else {
      i, m := last, n - |Flat(blocks[..last])|;
    }
  }

  // ------------------------------------------------------------- searching

  lemma Chain(cmp: Order, a: Bytes, b: Bytes, c: Bytes)
    requires TotalOrder(cmp) && cmp(a, b) <= 0 && cmp(b, c) <= 0
    ensures cmp(a, c) <= 0
    ensures cmp(a, b) < 0 || cmp(b, c) < 0 ==> cmp(a, c) < 0
  {
    assert OrderLaws(cmp, 0);
  }

  lemma Flip(cmp: Order, a: Bytes, b: Bytes)
    requires TotalOrder(cmp)
    ensures cmp(a, b) < 0 <==> cmp(b, a) > 0
    ensures cmp(a, b) > 0 <==> cmp(b, a) < 0
  {
    assert OrderLaws(cmp, 0);
    assert cmp(a, b) < 0 <==> cmp(b, a) > 0;
    assert cmp(b, a) < 0 <==> cmp(a, b) > 0;
  }

  /** Every key of a block is at or before the block's separator. */
  lemma BelowSeparator(cmp: Order, blocks: seq<Blk>, seps: seq<Bytes>, i: nat, m: nat)
    requires TotalOrder(cmp) && Separated(cmp, blocks, seps) && i < |blocks| && m < |blocks[i].entries|
    ensures cmp(blocks[i].entries[m].key, seps[i]) <= 0
  {
    var es := blocks[i].entries;
    assert InPlace(cmp, blocks, seps, i);
    if m < |es| - 1 {
      Chain(cmp, es[m].key, LastKey(es), seps[i]);
    }
  }

  /** And after the separators of all earlier blocks. */
  lemma {:induction false} AboveSeparator(cmp: Order, blocks: seq<Blk>, seps: seq<Bytes>, i: nat, j: nat, m: nat)
    requires TotalOrder(cmp) && Separated(cmp, blocks, seps) && i < j < |blocks| && m < |blocks[j].entries|
    ensures cmp(seps[i], blocks[j].entries[m].key) < 0
    decreases j
  {
    var es := blocks[j].entries;
    assert InPlace(cmp, blocks, seps, j) && InPlace(cmp, blocks, seps, j - 1);
    if i < j - 1 {
      var p := |blocks[j - 1].entries| - 1;
      AboveSeparator(cmp, blocks, seps, i, j - 1, p);
      Chain(cmp, seps[i], blocks[j - 1].entries[p].key, seps[j - 1]);
      Chain(cmp, seps[i], seps[j - 1], FirstKey(es));
    }
    if m > 0 {
      Chain(cmp, seps[i], FirstKey(es), es[m].key);
    }
  }

  /** What a lookup has to answer: some entries are before the key and all others are not,
      and the first of these counts, but only if it has the key's user key. */
  ghost predicate Answers(cmp: Order, u: Comparator, all: seq<KV>, key: Bytes, r: Option<KV>) {
    exists n: nat :: B.IsCut(cmp, all, key, n) && AnswersAt(u, all, key, n, r)
  }

  /** The index names the first block whose separator is not before the key. */
  ghost predicate Names(cmp: Order, seps: seq<Bytes>, key: Bytes, i: nat) {
    i <= |seps| && (forall j :: 0 <= j < i ==> cmp(seps[j], key) < 0) && (i < |seps| ==> cmp(seps[i], key) >= 0)
  }

  /** Everything in the blocks before the one the index names is before the key, and
      everything in the blocks after it is not. */
  lemma BlockChosen(cmp: Order, blocks: seq<Blk>, seps: seq<Bytes>, key: Bytes, i: nat, j: nat, m: nat)
    requires TotalOrder(cmp) && Separated(cmp, blocks, seps) && Names(cmp, seps, key, i)
    requires j < |blocks| && m < |blocks[j].entries|
    ensures j < i ==> cmp(blocks[j].entries[m].key, key) < 0
    ensures i < j ==> cmp(blocks[j].entries[m].key, key) > 0
  {
    var e := blocks[j].entries[m].key;
    if j < i {
      BelowSeparator(cmp, blocks, seps, j, m);
      Chain(cmp, e, seps[j], key);
    } else if i < j {
      AboveSeparator(cmp, blocks, seps, i, j, m);
      Flip(cmp, seps[i], key);
      Chain(cmp, key, seps[i], e);
      Flip(cmp, key, e);
    }
  }

  lemma FlatGrowsAt(blocks: seq<Blk>, i: nat)
    requires i < |blocks|
    ensures |Flat(blocks[..i + 1])| == |Flat(blocks[..i])| + |blocks[i].entries|
  {
    assert blocks[..i + 1][..i] == blocks[..i];
  }

  lemma FlatShorter(blocks: seq<Blk>, i: nat, j: nat)
    requires i <= j <= |blocks|
    ensures |Flat(blocks[..i])| <= |Flat(blocks[..j])|
  {
    FlatPrefix(blocks[..j], i);
    assert blocks[..j][..i] == blocks[..i];
  }

  /** Where the block that the index names is cut, the whole table is cut. */
  lemma CutIsHere(cmp: Order, blocks: seq<Blk>, seps: seq<Bytes>, key: Bytes, i: nat, m: nat)
    requires TotalOrder(cmp) && Separated(cmp, blocks, seps) && Names(cmp, seps, key, i) && i < |blocks|
    requires B.IsCut(cmp, blocks[i].entries, key, m)
    ensures B.IsCut(cmp, Flat(blocks), key, |Flat(blocks[..i])| + m)
  {
    var all, cut := Flat(blocks), |Flat(blocks[..i])| + m;
    FlatGrowsAt(blocks, i);
    FlatShorter(blocks, i + 1, |blocks|);
    assert blocks[..|blocks|] == blocks;
    forall n: nat | n < |all|
      ensures n < cut ==> cmp(all[n].key, key) < 0
      ensures n >= cut ==> cmp(all[n].key, key) >= 0
    {
      var j, q := WhichBlock(blocks, n);
      BlockChosen(cmp, blocks, seps, key, i, j, q);
      Places(blocks, i, j, q, n);
    }
  }

  /** Which side of a block a position lies on. */
  lemma Places(blocks: seq<Blk>, i: nat, j: nat, q: nat, n: nat)
    requires i < |blocks| && j < |blocks| && q < |blocks[j].entries| && n == |Flat(blocks[..j])| + q
    ensures j < i ==> n < |Flat(blocks[..i])|
    ensures j > i ==> n >= |Flat(blocks[..i])| + |blocks[i].entries|
  {
    FlatGrowsAt(blocks, i);
    FlatGrowsAt(blocks, j);
    if j < i {
      FlatShorter(blocks, j + 1, i);
    } else if j > i {
      FlatShorter(blocks, i + 1, j);
    }
  }

  /** The answer for a table whose cut is known. */
  ghost predicate AnswersAt(u: Comparator, all: seq<KV>, key: Bytes, n: nat, r: Option<KV>) {
    if n < |all| && SameUser(u, all[n].key, key) then r == Some(all[n])
    else r.None? || !SameUser(u, r.value.key, key)
  }

  /** Searching the block that the index names answers for the whole table; a key that
      falls between a block and its separator has no entry of its user key. */
  lemma FoundInBlock(cmp: Order, u: Comparator, blocks: seq<Blk>, seps: seq<Bytes>, key: Bytes, i: nat, m: nat)
    requires TotalOrder(cmp) && Separated(cmp, blocks, seps) && ToldApart(cmp, u, blocks, seps)
    requires Names(cmp, seps, key, i) && i < |blocks| && B.IsCut(cmp, blocks[i].entries, key, m)
    ensures Answers(cmp, u, Flat(blocks), key, if m < |blocks[i].entries| then Some(blocks[i].entries[m]) else None)
  {
    var r := if m < |blocks[i].entries| then Some(blocks[i].entries[m]) else None;
    var at := |Flat(blocks[..i])| + m;
    CutIsHere(cmp, blocks, seps, key, i, m);
    assert AnswersAt(u, Flat(blocks), key, at, r) by {
      assert InPlace(cmp, blocks, seps, i) && InPlace(cmp, blocks, seps, i + 1) && ApartAt(cmp, u, blocks, seps, i);
      HereOrNext(cmp, u, blocks, seps[i], key, i, m);
    }
  }

  lemma HereOrNext(cmp: Order, u: Comparator, blocks: seq<Blk>, sep: Bytes, key: Bytes, i: nat, m: nat)
    requires i < |blocks| && B.IsCut(cmp, blocks[i].entries, key, m) && cmp(sep, key) >= 0 && blocks[i].entries != []
    requires i + 1 < |blocks| ==> blocks[i + 1].entries != []
                                  && Apart(cmp, u, LastKey(blocks[i].entries), sep, FirstKey(blocks[i + 1].entries))
    ensures AnswersAt(u, Flat(blocks), key, |Flat(blocks[..i])| + m,
                      if m < |blocks[i].entries| then Some(blocks[i].entries[m]) else None)
  {
    if m < |blocks[i].entries| {
      FlatAt(blocks, i, m);
    } else {
      FlatGrowsAt(blocks, i);
      if i + 1 < |blocks| {
        FlatAt(blocks, i + 1, 0);
        NextIsOther(cmp, u, blocks[i].entries, sep, FirstKey(blocks[i + 1].entries), key);
      } else {
        assert blocks[..i + 1] == blocks;
      }
    }
  }

  /** When the whole block is before the key, the next entry has another user key. */
  lemma NextIsOther(cmp: Order, u: Comparator, entries: seq<KV>, sep: Bytes, first: Bytes, key: Bytes)
    requires entries != [] && Apart(cmp, u, LastKey(entries), sep, first)
    requires B.IsCut(cmp, entries, key, |entries|) && cmp(sep, key) >= 0
    ensures !SameUser(u, first, key)
  {
    assert cmp(LastKey(entries), key) < 0;
  }

  /** No block is named: every entry is before the key. */
  lemma NoneNamed(cmp: Order, u: Comparator, blocks: seq<Blk>, seps: seq<Bytes>, key: Bytes)
    requires TotalOrder(cmp) && Separated(cmp, blocks, seps) && Names(cmp, seps, key, |blocks|)
    ensures Answers(cmp, u, Flat(blocks), key, None)
  {
    var all := Flat(blocks);
    forall n: nat | n < |all|
      ensures cmp(all[n].key, key) < 0
    {
      var j, q := WhichBlock(blocks, n);
      BlockChosen(cmp, blocks, seps, key, |blocks|, j, q);
    }
    assert B.IsCut(cmp, all, key, |all|) && AnswersAt(u, all, key, |all|, None);
  }

  /** A separator as the comparator makes it is told apart. */
  lemma SeparatesIsApart(u: Comparator, last: Bytes, sep: Bytes, first: Bytes)
    requires u.Lawful() && Separates(u, last, sep, first)
    ensures Apart(InternalOrder(u), u, last, sep, first)
  {
    if sep != last {
      forall key | InternalOrder(u)(sep, key) >= 0
        ensures !SameUser(u, first, key)
      {
        assert InternalCompare(u, sep, key) >= 0;
        UserOrder(u, ExtractUserKey(key), ExtractUserKey(sep), ExtractUserKey(first));
      }
    }
  }

  lemma UserOrder(u: Comparator, a: Bytes, b: Bytes, c: Bytes)
    requires u.Lawful()
    ensures u.compare(b, a) >= 0 && u.compare(b, c) < 0 ==> u.compare(c, a) != 0
  {
    assert u.Laws(0);
    assert u.compare(b, a) < 0 <==> u.compare(a, b) > 0;
    assert u.compare(a, b) < 0 <==> u.compare(b, a) > 0;
    assert u.compare(a, c) < 0 <==> u.compare(c, a) > 0;
  }

  // ------------------------------------------------------ growing a table

  /** What a search depends on: the entries of the blocks. */
  ghost predicate SameEntries(a: seq<Blk>, b: seq<Blk>) {
    |a| == |b| && forall i :: 0 <= i < |a| ==> a[i].entries == b[i].entries
  }

  /** The blocks written and the one being filled, and a separator behind each; the last
      key serves as the last separator. */
  ghost predicate Growing(cmp: Order, u: Comparator, all: seq<Blk>, seps: seq<Bytes>) {
    Separated(cmp, all, seps) && ToldApart(cmp, u, all, seps)
    && (all != [] ==> all[|all| - 1].entries != [] && LastKey(all[|all| - 1].entries) == seps[|all| - 1])
  }

  lemma FirstBlock(cmp: Order, u: Comparator, kv: KV, offset: nat)
    requires TotalOrder(cmp)
    ensures Growing(cmp, u, [Blk([kv], offset, 0)], [kv.key])
  {
    assert OrderLaws(cmp, 0);
  }

  /** Both conditions at `i` look at two blocks and one separator. */
  ghost predicate AtOk(cmp: Order, u: Comparator, all: seq<Blk>, seps: seq<Bytes>, i: nat)
    requires |seps| == |all|
  {
    InPlace(cmp, all, seps, i) && ApartAt(cmp, u, all, seps, i)
  }

  lemma AtOkMoves(cmp: Order, u: Comparator, a: seq<Blk>, s: seq<Bytes>, b: seq<Blk>, t: seq<Bytes>, i: nat)
    requires |a| == |s| && |b| == |t| && i + 1 < |a| && i + 1 < |b| && AtOk(cmp, u, a, s, i)
    requires a[i].entries == b[i].entries && s[i] == t[i]
    requires a[i + 1].entries != [] && b[i + 1].entries != [] && FirstKey(a[i + 1].entries) == FirstKey(b[i + 1].entries)
    ensures AtOk(cmp, u, b, t, i)
  {
  }

  lemma AtOkEverywhere(cmp: Order, u: Comparator, all: seq<Blk>, seps: seq<Bytes>)
    requires |seps| == |all| && forall i: nat :: i < |all| ==> AtOk(cmp, u, all, seps, i)
    ensures Separated(cmp, all, seps) && ToldApart(cmp, u, all, seps)
  {
    forall i: nat
      ensures InPlace(cmp, all, seps, i) && ApartAt(cmp, u, all, seps, i)
    {
      assert i < |all| ==> AtOk(cmp, u, all, seps, i);
    }
  }

  /** A new block begins behind a shortened separator. */
  lemma NextBlock(cmp: Order, u: Comparator, all: seq<Blk>, seps: seq<Bytes>, sep: Bytes, kv: KV, offset: nat)
    requires TotalOrder(cmp) && all != [] && Growing(cmp, u, all, seps)
    requires cmp(seps[|all| - 1], sep) <= 0 && cmp(sep, kv.key) < 0 && Apart(cmp, u, seps[|all| - 1], sep, kv.key)
    ensures Growing(cmp, u, all + [Blk([kv], offset, 0)], seps[..|all| - 1] + [sep, kv.key])
  {
    var n := |all|;
    var all', seps' := all + [Blk([kv], offset, 0)], seps[..n - 1] + [sep, kv.key];
    forall i: nat | i < n + 1
      ensures AtOk(cmp, u, all', seps', i)
    {
      assert InPlace(cmp, all, seps, i) && ApartAt(cmp, u, all, seps, i);
      if i < n - 1 {
        assert InPlace(cmp, all, seps, i + 1);
        AtOkMoves(cmp, u, all, seps, all', seps', i);
      } else if i == n - 1 {
        Chain(cmp, LastKey(all[i].entries), seps[i], sep);
        assert all'[i] == all[i] && seps'[i] == sep && all'[i + 1].entries == [kv];
      } else {
        assert all'[i].entries == [kv] && seps'[i] == kv.key;
        SelfEqual(cmp, kv.key);
      }
    }
    AtOkEverywhere(cmp, u, all', seps');
  }

  lemma SelfEqual(cmp: Order, a: Bytes)
    requires TotalOrder(cmp)
    ensures cmp(a, a) == 0
  {
    assert OrderLaws(cmp, 0);
  }

  /** The last block takes one more entry. */
  lemma LongerBlock(cmp: Order, u: Comparator, all: seq<Blk>, seps: seq<Bytes>, kv: KV)
    requires TotalOrder(cmp) && all != [] && Growing(cmp, u, all, seps) && cmp(seps[|all| - 1], kv.key) < 0
    ensures var n, b := |all|, all[|all| - 1];
            Growing(cmp, u, all[..n - 1] + [b.(entries := b.entries + [kv])], seps[..n - 1] + [kv.key])
  {
    var n, b := |all|, all[|all| - 1];
    var b' := b.(entries := b.entries + [kv]);
    var all', seps' := all[..n - 1] + [b'], seps[..n - 1] + [kv.key];
    forall i: nat | i < n
      ensures AtOk(cmp, u, all', seps', i)
    {
      assert InPlace(cmp, all, seps, i) && ApartAt(cmp, u, all, seps, i);
      if i < n - 1 {
        assert InPlace(cmp, all, seps, i + 1);
        AtOkMoves(cmp, u, all, seps, all', seps', i);
      } else {
        assert all'[i] == b' && seps'[i] == kv.key;
        OrderedGrows(cmp, b.entries, kv);
        SelfEqual(cmp, kv.key);
      }
    }
    AtOkEverywhere(cmp, u, all', seps');
  }

  lemma OrderedGrows(cmp: Order, entries: seq<KV>, kv: KV)
    requires TotalOrder(cmp) && entries != [] && B.Ordered(cmp, entries) && cmp(LastKey(entries), kv.key) < 0
    ensures B.Ordered(cmp, entries + [kv])
  {
    forall i | 0 <= i < |entries|
      ensures cmp(entries[i].key, kv.key) < 0
    {
      if i < |entries| - 1 {
        Chain(cmp, entries[i].key, LastKey(entries), kv.key);
      }
    }
  }

  /** The last separator may be any key from the last key on. */
  lemma LastSeparator(cmp: Order, u: Comparator, all: seq<Blk>, seps: seq<Bytes>, sep: Bytes)
    requires TotalOrder(cmp) && all != [] && Growing(cmp, u, all, seps) && cmp(seps[|all| - 1], sep) <= 0
    ensures Separated(cmp, all, seps[..|all| - 1] + [sep]) && ToldApart(cmp, u, all, seps[..|all| - 1] + [sep])
  {
    var n := |all|;
    var seps' := seps[..n - 1] + [sep];
    forall i: nat | i < n
      ensures AtOk(cmp, u, all, seps', i)
    {
      assert InPlace(cmp, all, seps, i) && ApartAt(cmp, u, all, seps, i);
      if i < n - 1 {
        assert InPlace(cmp, all, seps, i + 1);
        AtOkMoves(cmp, u, all, seps, all, seps', i);
      } else {
        Chain(cmp, LastKey(all[i].entries), seps[i], sep);
      }
    }
    AtOkEverywhere(cmp, u, all, seps');
  }

  lemma SameEntriesGrow(cmp: Order, u: Comparator, a: seq<Blk>, b: seq<Blk>, seps: seq<Bytes>)
    requires SameEntries(a, b) && Growing(cmp, u, a, seps)
    ensures Growing(cmp, u, b, seps)
  {
    forall i: nat
      ensures InPlace(cmp, b, seps, i) && ApartAt(cmp, u, b, seps, i)
    {
      assert InPlace(cmp, a, seps, i) && ApartAt(cmp, u, a, seps, i);
    }
  }

  // ------------------------------------------------------------- the file

  /** What follows a block: its compression type, here none, and a checksum. */
  const TRAILER_SIZE: nat := 5

  /** A block of these entries lies at its handle. */
  ghost predicate Stored(file: Bytes, b: Blk) {
    b.offset + b.size + TRAILER_SIZE <= |file| && file[b.offset + b.size] == 0
    && B.HoldsEntries(file[b.offset..b.offset + b.size], b.entries)
  }

  ghost predicate StoredAt(file: Bytes, blocks: seq<Blk>, i: nat) {
    i < |blocks| ==> Stored(file, blocks[i])
  }

  ghost predicate AllStored(file: Bytes, blocks: seq<Blk>) {
    forall i: nat :: StoredAt(file, blocks, i)
  }

  lemma StoredStays(file: Bytes, file': Bytes, blocks: seq<Blk>)
    requires AllStored(file, blocks) && file <= file'
    ensures AllStored(file', blocks)
  {
    forall i: nat
      ensures StoredAt(file', blocks, i)
    {
      assert StoredAt(file, blocks, i);
      if i < |blocks| {
        var b := blocks[i];
        assert file'[b.offset..b.offset + b.size] == file[b.offset..b.offset + b.size];
      }
    }
  }

  function IndexEntries(blocks: seq<Blk>, seps: seq<Bytes>): seq<KV>
    requires |seps| <= |blocks|
  {
    seq(|seps|, i requires 0 <= i < |seps| => B.KV(seps[i], HandleBytes(blocks[i].offset, blocks[i].size)))
  }

  method EncodeHandle(offset: nat, size: nat) returns (r: Bytes)
    ensures r == HandleBytes(offset, size)
  {
    var a := EncodeVarint64(offset);
    var b := EncodeVarint64(size);
    r := a + b;
  }

  lemma HandleLength(offset: nat, size: nat)
    requires offset < LIMIT64 && size < LIMIT64
    ensures |HandleBytes(offset, size)| <= 20
  {
    VarintLength(offset, 10);
    VarintLength(size, 10);
  }

  ghost predicate HandleFits(blocks: seq<Blk>, i: nat) {
    i < |blocks| ==> blocks[i].offset < LIMIT64 && blocks[i].size < LIMIT64
  }

  ghost predicate HandlesFit(blocks: seq<Blk>) {
    forall i: nat :: HandleFits(blocks, i)
  }

  lemma HandlesFitMore(blocks: seq<Blk>, b: Blk)
    requires HandlesFit(blocks) && b.offset < LIMIT64 && b.size < LIMIT64
    ensures HandlesFit(blocks + [b])
  {
    forall i: nat
      ensures HandleFits(blocks + [b], i)
    {
      assert HandleFits(blocks, i);
    }
  }

  /** Reads a handle at `p`. The ghost argument is one that may lie there. */
  method GetHandle(data: Bytes, p: nat, limit: nat, ghost handle: (nat, nat)) returns (r: Option<((nat, nat), nat)>)
    requires limit <= |data|
    ensures Narrow(handle) == handle && BytesAt(data, p, limit, HandleBytes(handle.0, handle.1)) ==>
              r == Some((handle, p + |HandleBytes(handle.0, handle.1)|))
  {
    BytesAtSplit(data, p, limit, Varint(handle.0), Varint(handle.1));
    var a := GetVarint64Ptr(data, p, limit, handle.0);
    if a.None? {
      return None;
    }
    var b := GetVarint64Ptr(data, a.value.1, limit, handle.1);
    if b.None? {
      return None;
    }
    r := Some(((a.value.0, b.value.0), b.value.1));
  }

  /** Extra bytes behind the handle are allowed. */
  method DecodeHandle(data: Bytes, ghost offset: nat, ghost size: nat) returns (r: Option<(nat, nat)>)
    ensures offset < LIMIT64 && size < LIMIT64 && data == HandleBytes(offset, size) ==> r == Some((offset, size))
  {
    assert data[0..0 + |data|] == data;
    var handle := GetHandle(data, 0, |data|, (offset, size));
    r := if handle.None? then None else Some(handle.value.0);
  }

  // -------------------------------------------------------------- footer

  /** The fields of a handle have 64 bits. */
  function Narrow(handle: (nat, nat)): (nat, nat) {
    (handle.0 % LIMIT64, handle.1 % LIMIT64)
  }

  const HANDLES_SIZE: nat := 40
  const FOOTER_SIZE: nat := 48
  const TABLE_MAGIC: nat := 0xdb47_7524_8b80_fb57

  function Resized(b: Bytes, n: nat): (r: Bytes)
    ensures |r| == n
  {
    if n <= |b| then b[..n] else b + seq(n - |b|, _ => 0)
  }

  function Footer(meta: (nat, nat), index: (nat, nat)): (r: Bytes)
    ensures |r| == FOOTER_SIZE
  {
    Resized(HandleBytes(meta.0, meta.1) + HandleBytes(index.0, index.1), HANDLES_SIZE) + Fixed64(TABLE_MAGIC)
  }

  lemma FooterParts(meta: (nat, nat), index: (nat, nat))
    requires Narrow(meta) == meta && Narrow(index) == index
    ensures var f, m, i := Footer(meta, index), HandleBytes(meta.0, meta.1), HandleBytes(index.0, index.1);
            BytesAt(f, 0, FOOTER_SIZE, m) && BytesAt(f, |m|, FOOTER_SIZE, i) && DecodeFixed64(f, HANDLES_SIZE) == TABLE_MAGIC
  {
    var f, m, i := Footer(meta, index), HandleBytes(meta.0, meta.1), HandleBytes(index.0, index.1);
    HandleLength(meta.0, meta.1);
    HandleLength(index.0, index.1);
    assert f[0..0 + |m + i|] == m + i;
    BytesAtSplit(f, 0, FOOTER_SIZE, m, i);
    assert f[HANDLES_SIZE..HANDLES_SIZE + 4] == Fixed32(TABLE_MAGIC % LIMIT32);
    assert f[HANDLES_SIZE + 4..HANDLES_SIZE + 4 + 4] == Fixed32(TABLE_MAGIC / LIMIT32);
    Fixed32RoundTrip(f, HANDLES_SIZE, TABLE_MAGIC % LIMIT32);
    Fixed32RoundTrip(f, HANDLES_SIZE + 4, TABLE_MAGIC / LIMIT32);
  }

  method EncodeFooter(meta: (nat, nat), index: (nat, nat)) returns (r: Bytes)
    ensures r == Footer(meta, index)
  {
    var a := EncodeHandle(meta.0, meta.1);
    var b := EncodeHandle(index.0, index.1);
    r := Resized(a + b, HANDLES_SIZE) + Fixed32(TABLE_MAGIC % LIMIT32);
    r := r + Fixed32(TABLE_MAGIC / LIMIT32);
  }

  /** A footer gives back its two handles. */
  method DecodeFooter(data: Bytes, ghost meta: (nat, nat), ghost index: (nat, nat)) returns (r: Option<((nat, nat), (nat, nat))>)
    requires |data| == FOOTER_SIZE
    ensures Narrow(meta) == meta && Narrow(index) == index && data == Footer(meta, index) ==> r == Some((meta, index))
    ensures DecodeFixed64(data, HANDLES_SIZE) != TABLE_MAGIC ==> r == None
  {
    if Narrow(meta) == meta && Narrow(index) == index && data == Footer(meta, index) {
      FooterParts(meta, index);
    }
    if DecodeFixed64(data, HANDLES_SIZE) != TABLE_MAGIC {
      return None;
    }
    var m := GetHandle(data, 0, |data|, meta);
    if m.None? {
      return None;
    }
    var i := GetHandle(data, m.value.1, |data|, index);
    r := if i.None? then None else Some((m.value.0, i.value.0));
  }

  /** A file ends in a footer of these handles. */
  ghost predicate EndsIn(file: Bytes, meta: (nat, nat), index: (nat, nat)) {
    FOOTER_SIZE <= |file| && file[|file| - FOOTER_SIZE..] == Footer(Narrow(meta), Narrow(index))
  }

  function Ascii(s: string): Bytes {
    seq(|s|, i requires 0 <= i < |s| => s[i] as int % 256)
  }

  /** What the metaindex block knows the filters by. */
  function FilterKey(): Bytes {
    Ascii("filter.leveldb.BuiltinBloomFilter2")
  }

  function MetaEntries(filter: Option<(nat, nat)>): seq<KV> {
    if filter.None? then []
    else [B.KV(FilterKey(), HandleBytes(Narrow(filter.value).0, Narrow(filter.value).1))]
  }

  // ------------------------------------------------------------- filters

  /** Every key of every block is covered by the filter of the block's offset. */
  ghost predicate Covers(groups: seq<seq<Bytes>>, waiting: seq<Bytes>, blocks: seq<Blk>) {
    forall i, m :: 0 <= i < |blocks| && 0 <= m < |blocks[i].entries| ==>
      F.Covered(groups, waiting, blocks[i].offset / 2048, blocks[i].entries[m].key)
  }

  lemma CoversMore(groups: seq<seq<Bytes>>, waiting: seq<Bytes>, groups': seq<seq<Bytes>>, waiting': seq<Bytes>, blocks: seq<Blk>)
    requires Covers(groups, waiting, blocks)
    requires (groups' == groups && waiting <= waiting') || groups + [waiting] <= groups'
    ensures Covers(groups', waiting', blocks)
  {
    forall i, m | 0 <= i < |blocks| && 0 <= m < |blocks[i].entries|
      ensures F.Covered(groups', waiting', blocks[i].offset / 2048, blocks[i].entries[m].key)
    {
      var index, key := blocks[i].offset / 2048, blocks[i].entries[m].key;
      assert F.Covered(groups, waiting, index, key);
      if groups' == groups && waiting <= waiting' && key in waiting {
        var k :| 0 <= k < |waiting| && waiting[k] == key;
        assert waiting'[k] == key;
      }
    }
  }

  // -------------------------------------------------------------- builder

  lemma EntriesFit(lay: B.Layout, data: Bytes)
    requires lay.Ok(data)
    ensures lay.entries == [] <==> data == []
    ensures |lay.starts| < LIMIT32
  {
    B.StartsBounded(lay);
    EntriesTakeRoom(lay, data, |lay.entries|);
  }

  lemma {:induction false} EntriesTakeRoom(lay: B.Layout, data: Bytes, n: nat)
    requires lay.Ok(data) && n <= |lay.entries|
    ensures lay.offs[n] >= 3 * n
  {
    if n > 0 {
      EntriesTakeRoom(lay, data, n - 1);
      assert lay.Stored(data, n - 1);
      assert |B.EntryBytes(lay.shares[n - 1], lay.entries[n - 1])| == lay.offs[n] - lay.offs[n - 1];
    }
  }

  /** The blocks written, and the one being filled. */
  ghost function WithCurrent(blocks: seq<Blk>, current: seq<KV>, length: nat): seq<Blk> {
    if current == [] then blocks else blocks + [Blk(current, length, 0)]
  }

  ghost function WithLast(all: seq<Blk>, seps: seq<Bytes>, lastKey: Bytes): seq<Bytes> {
    if all == [] then [] else seps + [lastKey]
  }

  /** Adding an entry: it begins the first block, or the next one behind a separator, or
      makes the current block longer. */
  lemma EntryAdded(u: Comparator, blocks: seq<Blk>, current: seq<KV>, length: nat, seps: seq<Bytes>, lastKey: Bytes, kv: KV)
    requires u.Lawful() && |seps| <= |blocks|
    requires var all := WithCurrent(blocks, current, length);
             Growing(InternalOrder(u), u, all, WithLast(all, seps, lastKey))
             && (all != [] ==> InternalCompare(u, lastKey, kv.key) < 0)
    ensures var seps' := if blocks != [] && current == [] then seps + [InternalSeparator(u, lastKey, kv.key)] else seps;
            var all' := WithCurrent(blocks, current + [kv], length);
            Growing(InternalOrder(u), u, all', WithLast(all', seps', kv.key))
    ensures Flat(WithCurrent(blocks, current + [kv], length)) == Flat(WithCurrent(blocks, current, length)) + [kv]
  {
    var cmp, all := InternalOrder(u), WithCurrent(blocks, current, length);
    InternalIsTotal(u);
    FlatGrows(blocks, Blk(current + [kv], length, 0));
    if current == [] {
      assert current + [kv] == [kv];
    }
    if all == [] {
      FirstBlock(cmp, u, kv, length);
      assert blocks + [Blk([kv], length, 0)] == [Blk([kv], length, 0)] && seps + [kv.key] == [kv.key];
    } else if current == [] {
      var sep := InternalSeparator(u, lastKey, kv.key);
      SeparatorWorks(u, lastKey, kv.key);
      NextBlock(cmp, u, all, seps + [lastKey], sep, kv, length);
      assert (seps + [lastKey])[..|all| - 1] == seps;
      assert seps + [sep, kv.key] == seps + [sep] + [kv.key];
    } else {
      LongerBlock(cmp, u, all, seps + [lastKey], kv);
      FlatGrows(blocks, Blk(current, length, 0));
      assert all[..|all| - 1] == blocks && (seps + [lastKey])[..|all| - 1] == seps;
    }
  }

  lemma StoredMore(file: Bytes, blocks: seq<Blk>, contents: Bytes, entries: seq<KV>, trailer: Bytes)
    requires AllStored(file, blocks) && B.HoldsEntries(contents, entries)
    requires |trailer| == TRAILER_SIZE && trailer[0] == 0
    ensures AllStored(file + contents + trailer, blocks + [Blk(entries, |file|, |contents|)])
  {
    var file', blocks' := file + contents + trailer, blocks + [Blk(entries, |file|, |contents|)];
    StoredStays(file, file', blocks);
    assert file'[|file|..|file| + |contents|] == contents;
    forall i: nat
      ensures StoredAt(file', blocks', i)
    {
      assert StoredAt(file', blocks, i);
    }
  }

  /** Writing the current block gives it its size and makes it one of the blocks. */
  lemma BlockWritten(u: Comparator, blocks: seq<Blk>, current: seq<KV>, length: nat, size: nat, seps: seq<Bytes>, lastKey: Bytes)
    requires current != []
    requires var all := WithCurrent(blocks, current, length);
             Growing(InternalOrder(u), u, all, WithLast(all, seps, lastKey))
    ensures var blocks' := blocks + [Blk(current, length, size)];
            Growing(InternalOrder(u), u, blocks', seps + [lastKey])
            && Flat(blocks') == Flat(WithCurrent(blocks, current, length))
  {
    var all := WithCurrent(blocks, current, length);
    SameEntriesGrow(InternalOrder(u), u, all, blocks + [Blk(current, length, size)], seps + [lastKey]);
    FlatGrows(blocks, Blk(current, length, 0));
    FlatGrows(blocks, Blk(current, length, size));
  }

  lemma CoversWritten(groups: seq<seq<Bytes>>, waiting: seq<Bytes>, blocks: seq<Blk>, current: seq<KV>, length: nat, size: nat)
    requires current != [] && Covers(groups, waiting, WithCurrent(blocks, current, length))
    ensures Covers(groups, waiting, blocks + [Blk(current, length, size)])
  {
    var all := WithCurrent(blocks, current, length);
    assert forall i :: 0 <= i < |all| ==>
        all[i].entries == (blocks + [Blk(current, length, size)])[i].entries
        && all[i].offset == (blocks + [Blk(current, length, size)])[i].offset;
  }

  lemma IndexGrows(blocks: seq<Blk>, seps: seq<Bytes>, sep: Bytes)
    requires |seps| < |blocks|
    ensures IndexEntries(blocks, seps + [sep])
            == IndexEntries(blocks, seps) + [B.KV(sep, HandleBytes(blocks[|seps|].offset, blocks[|seps|].size))]
  {
  }

  lemma SeparatorWorks(u: Comparator, last: Bytes, first: Bytes)
    requires u.Lawful() && InternalCompare(u, last, first) < 0
    ensures var cmp, sep := InternalOrder(u), InternalSeparator(u, last, first);
            cmp(last, sep) <= 0 && cmp(sep, first) < 0 && Apart(cmp, u, last, sep, first) && |sep| <= |last|
  {
    assert u.Laws(0);
    InternalSeparatorSeparates(u, last, first);
    SeparatesIsApart(u, last, InternalSeparator(u, last, first), first);
  }

  lemma KeyAdded(groups: seq<seq<Bytes>>, waiting: seq<Bytes>, blocks: seq<Blk>, current: seq<KV>, length: nat, kv: KV)
    requires Covers(groups, waiting, WithCurrent(blocks, current, length)) && |groups| == length / 2048
    ensures Covers(groups, waiting + [kv.key], WithCurrent(blocks, current + [kv], length))
  {
    var all, all' := WithCurrent(blocks, current, length), WithCurrent(blocks, current + [kv], length);
    CoversMore(groups, waiting, groups, waiting + [kv.key], all);
    forall i, m | 0 <= i < |all'| && 0 <= m < |all'[i].entries|
      ensures F.Covered(groups, waiting + [kv.key], all'[i].offset / 2048, all'[i].entries[m].key)
    {
      if i < |blocks| {
        assert all'[i] == all[i];
      } else if m < |current| {
        assert all'[i].entries[m] == all[i].entries[m];
      } else {
        assert (waiting + [kv.key])[|waiting|] == kv.key;
      }
    }
  }

  /** A finished table: blocks kept apart by separators, and an index block of both. */
  ghost predicate TableAt(u: Comparator, file: Bytes, blocks: seq<Blk>, seps: seq<Bytes>, index: (nat, nat)) {
    Separated(InternalOrder(u), blocks, seps) && ToldApart(InternalOrder(u), u, blocks, seps)
    && AllStored(file, blocks) && HandlesFit(blocks)
    && Stored(file, Blk(IndexEntries(blocks, seps), index.0, index.1))
  }

  /** A file that is a table, with the handle of its filter block if it has one. */
  ghost predicate IsTable(u: Comparator, file: Bytes, blocks: seq<Blk>, seps: seq<Bytes>, filter: Option<(nat, nat)>) {
    exists meta, index :: LaidOut(u, file, blocks, seps, filter, meta, index)
  }

  ghost predicate LaidOut(u: Comparator, file: Bytes, blocks: seq<Blk>, seps: seq<Bytes>, filter: Option<(nat, nat)>,
                          meta: (nat, nat), index: (nat, nat)) {
    TableAt(u, file, blocks, seps, index) && Stored(file, Blk(MetaEntries(filter), meta.0, meta.1)) && EndsIn(file, meta, index)
  }

  /** A filter block that covers every key. */
  ghost predicate FilterAt(hash: Bloom.Hash, file: Bytes, blocks: seq<Blk>, filter: (nat, nat)) {
    filter.0 + filter.1 + TRAILER_SIZE <= |file| && file[filter.0 + filter.1] == 0
    && (filter.1 < LIMIT32 ==>
          exists groups :: F.Holds(hash, groups, file[filter.0..filter.0 + filter.1]) && Covers(groups, [], blocks))
  }

  /** What a table under construction holds: the blocks written and the entries of the
      current one, the separators and the index entries so far. */
  datatype Build = Build(u: Comparator, file: Bytes, blocks: seq<Blk>, current: seq<KV>, seps: seq<Bytes>, index: seq<KV>,
                         lastKey: Bytes, numEntries: nat, pending: bool, handle: (nat, nat)) {

    ghost function All(): seq<Blk> {
      WithCurrent(blocks, current, |file|)
    }

    ghost function AllSeps(): seq<Bytes> {
      WithLast(All(), seps, lastKey)
    }

    /** The state is sound; this comes into play where `SoundIs` is mentioned. */
    ghost predicate Sound() {
      forall use: nat :: SoundIs(use)
    }

    ghost predicate SoundIs(use: nat) {
      u.Lawful()
      && Growing(InternalOrder(u), u, All(), AllSeps()) && AllStored(file, blocks) && HandlesFit(blocks)
      && |seps| <= |blocks| && index == IndexEntries(blocks, seps)
      && pending == (blocks != [] && current == [])
      && (pending ==> handle == (blocks[|blocks| - 1].offset, blocks[|blocks| - 1].size))
      && numEntries == |Flat(All())|
    }

    /** One more entry; the index entry of the block before is written first. */
    ghost function Plus(kv: KV): Build {
      var sep := InternalSeparator(u, lastKey, kv.key);
      this.(current := current + [kv], lastKey := kv.key, numEntries := numEntries + 1, pending := false,
            seps := if pending then seps + [sep] else seps,
            index := if pending then index + [B.KV(sep, HandleBytes(handle.0, handle.1))] else index)
    }

    lemma PlusIsSound(kv: KV)
      requires Sound() && (numEntries > 0 ==> InternalCompare(u, lastKey, kv.key) < 0)
      ensures Plus(kv).Sound() && Flat(Plus(kv).All()) == Flat(All()) + [kv]
    {
      assert SoundIs(0);
      EntryAdded(u, blocks, current, |file|, seps, lastKey, kv);
      PendingIs(kv);
      if pending {
        IndexGrows(blocks, seps, InternalSeparator(u, lastKey, kv.key));
      }
      assert Plus(kv).SoundIs(0);
    }

    /** A pending index entry is that of the last block, and its separator is no longer
        than the last key. */
    lemma PendingIs(kv: KV)
      requires Sound() && (numEntries > 0 ==> InternalCompare(u, lastKey, kv.key) < 0)
      ensures u.Lawful()
      ensures pending ==>
                handle.0 < LIMIT64 && handle.1 < LIMIT64 && |InternalSeparator(u, lastKey, kv.key)| <= |lastKey|
                && |seps| < |blocks| && handle == (blocks[|seps|].offset, blocks[|seps|].size)
    {
      assert SoundIs(0);
      if pending {
        assert HandleFits(blocks, |blocks| - 1);
        SeparatorWorks(u, lastKey, kv.key);
      }
    }
  }

  class TableBuilder {
    const u: Comparator
    const blockSize: nat
    const crc: Bytes -> Word
    const data: B.BlockBuilder
    const index: B.BlockBuilder
    const filter: F.FilterBlockBuilder?
    var file: Bytes
    var lastKey: Bytes
    var numEntries: nat
    var pendingIndexEntry: bool
    var pendingHandle: (nat, nat)
    ghost var blocks: seq<Blk>
    ghost var seps: seq<Bytes>

    ghost function S(): Build
      reads this, data, index
    {
      Build(u, file, blocks, data.lay.entries, seps, index.lay.entries, lastKey, numEntries, pendingIndexEntry, pendingHandle)
    }

    ghost function All(): seq<Blk>
      reads this, data
    {
      WithCurrent(blocks, data.lay.entries, |file|)
    }

    /** The entries added so far. */
    ghost function Contents(): seq<KV>
      reads this, data
    {
      Flat(All())
    }

    // The parts of the invariant come into play where `BuildersAre` and `Filters` are
    // mentioned.

    ghost predicate BuildersOk()
      reads data, index
    {
      data != index && forall use: nat :: BuildersAre(use)
    }

    ghost predicate FilterOk()
      reads this, data, filter
    {
      FilterCovers(All(), |file|)
    }

    ghost predicate BuildersAre(use: nat)
      reads data, index
    {
      data.Valid() && !data.finished && data.lay.Packed(data.interval)
      && index.Valid() && !index.finished && index.lay.Packed(index.interval)
    }

    ghost predicate FilterCovers(all: seq<Blk>, length: nat)
      reads filter
    {
      forall use: nat :: Filters(all, length, use)
    }

    ghost predicate Filters(all: seq<Blk>, length: nat, use: nat)
      reads filter
    {
      filter != null ==>
        filter.Valid() && |filter.groups| == length / 2048 && Covers(filter.groups, filter.pending, all)
    }

    ghost predicate Valid()
      reads this, data, index, filter
    {
      BuildersOk() && FilterOk() && S().Sound()
    }

    constructor (u: Comparator, interval: nat, blockSize: nat, crc: Bytes -> Word, policy: Bloom.BloomFilterPolicy?)
      requires u.Lawful() && interval >= 1 && (policy != null ==> policy.Valid())
      ensures Valid() && fresh(data) && fresh(index) && (filter != null ==> fresh(filter) && filter.policy == policy)
      ensures Contents() == [] && file == [] && this.u == u && (filter == null <==> policy == null)
    {
      this.u, this.blockSize, this.crc := u, blockSize, crc;
      data := new B.BlockBuilder(interval);
      index := new B.BlockBuilder(1);
      if policy == null {
        filter := null;
      } else {
        filter := new F.FilterBlockBuilder(policy);
      }
      file, lastKey, numEntries, pendingIndexEntry, pendingHandle := [], [], 0, false, (0, 0);
      blocks, seps := [], [];
      new;
      if filter != null {
        filter.StartBlock(0);
      }
      assert ToldApart(InternalOrder(u), u, [], []);
    }

    /** Sizes stay below the 32-bit limits of the format. */
    ghost predicate Room(key: Bytes, value: Bytes)
      reads this, data, index
    {
      |key| < LIMIT32 && |value| < LIMIT32 && |data.buffer| + |key| + |value| + 15 < LIMIT32
      && |file| < LIMIT64 && RoomInIndex()
    }

    ghost predicate RoomInIndex()
      reads this, index
    {
      |lastKey| < LIMIT32 && |index.buffer| + |lastKey| + 35 < LIMIT32
    }

    method PutIndexEntry(sep: Bytes)
      requires BuildersOk() && |sep| <= |lastKey| && RoomInIndex()
      requires pendingHandle.0 < LIMIT64 && pendingHandle.1 < LIMIT64
      modifies index, this`pendingIndexEntry
      ensures BuildersOk() && !pendingIndexEntry
      ensures index.lay.entries == old(index.lay.entries) + [B.KV(sep, HandleBytes(pendingHandle.0, pendingHandle.1))]
    {
      assert BuildersAre(0);
      HandleLength(pendingHandle.0, pendingHandle.1);
      var handle := EncodeHandle(pendingHandle.0, pendingHandle.1);
      index.Add(sep, handle);
      pendingIndexEntry := false;
    }

    method Add(key: Bytes, value: Bytes)
      requires Valid() && Room(key, value) && (numEntries > 0 ==> InternalCompare(u, lastKey, key) < 0)
      modifies this, data, index, filter
      ensures Valid() && Contents() == old(Contents()) + [B.KV(key, value)] && lastKey == key
    {
      AddEntry(key, value);
      if |data.buffer| + 4 * |data.restarts| + 4 >= blockSize {
        Flush();
      }
    }

    method AddEntry(key: Bytes, value: Bytes)
      requires Valid() && Room(key, value) && (numEntries > 0 ==> InternalCompare(u, lastKey, key) < 0)
      modifies this, data, index, filter
      ensures Valid() && Contents() == old(Contents()) + [B.KV(key, value)] && lastKey == key
      ensures data.lay.entries != [] && file == old(file)
    {
      ghost var s, kv := S(), B.KV(key, value);
      s.PlusIsSound(kv);
      s.PendingIs(kv);
      PutEntry(key, value);
      assert S() == s.Plus(kv);
    }

    ghost predicate IndexOk()
      reads this, index
    {
      |seps| <= |blocks| && index.lay.entries == IndexEntries(blocks, seps)
    }

    method PutEntry(key: Bytes, value: Bytes)
      requires BuildersOk() && FilterOk() && Room(key, value)
      requires pendingIndexEntry ==>
                 |InternalSeparator(u, lastKey, key)| <= |lastKey| && pendingHandle.0 < LIMIT64 && pendingHandle.1 < LIMIT64
      modifies this`pendingIndexEntry, this`seps, this`lastKey, this`numEntries, data, index, filter
      ensures BuildersOk() && FilterOk() && S() == old(S()).Plus(B.KV(key, value))
    {
      CloseIndexEntry(key);
      AddToFilter(key, value);
      lastKey := key;
      numEntries := numEntries + 1;
      AddToBlock(key, value);
    }

    method AddToBlock(key: Bytes, value: Bytes)
      requires BuildersOk() && |key| < LIMIT32 && |value| < LIMIT32 && |data.buffer| + |key| + |value| + 15 < LIMIT32
      modifies data
      ensures BuildersOk() && data.lay.entries == old(data.lay.entries) + [B.KV(key, value)]
    {
      assert BuildersAre(0);
      data.Add(key, value);
    }

    /** The index entry of the block before is written once the next key is known. */
    method CloseIndexEntry(key: Bytes)
      requires BuildersOk() && RoomInIndex()
      requires pendingIndexEntry ==>
                 |InternalSeparator(u, lastKey, key)| <= |lastKey| && pendingHandle.0 < LIMIT64 && pendingHandle.1 < LIMIT64
      modifies index, this`pendingIndexEntry, this`seps
      ensures BuildersOk() && !pendingIndexEntry
      ensures seps == if old(pendingIndexEntry) then old(seps) + [InternalSeparator(u, lastKey, key)] else old(seps)
      ensures index.lay.entries ==
              if old(pendingIndexEntry) then
                old(index.lay.entries)
                + [B.KV(InternalSeparator(u, lastKey, key), HandleBytes(pendingHandle.0, pendingHandle.1))]
              else old(index.lay.entries)
    {
      if pendingIndexEntry {
        var sep := InternalSeparator(u, lastKey, key);
        PutIndexEntry(sep);
        seps := seps + [sep];
      }
    }

    method AddToFilter(key: Bytes, ghost value: Bytes)
      requires FilterOk()
      modifies filter
      ensures FilterCovers(WithCurrent(blocks, data.lay.entries + [B.KV(key, value)], |file|), |file|)
    {
      assert Filters(All(), |file|, 0);
      if filter != null {
        KeyAdded(filter.groups, filter.pending, blocks, data.lay.entries, |file|, B.KV(key, value));
        filter.AddKey(key);
      }
    }

    /** Appends a block and its trailer; the block's builder starts over. */
    method WriteBlock(block: B.BlockBuilder) returns (handle: (nat, nat))
      requires block.Valid() && !block.finished
      modifies this`file, block
      ensures block.Valid() && !block.finished && block.lay.entries == [] && block.lay.Packed(block.interval)
      ensures handle.0 == old(|file|) && handle.1 < LIMIT64
      ensures exists contents, trailer ::
                |contents| == handle.1 && |trailer| == TRAILER_SIZE && trailer[0] == 0
                && file == old(file) + contents + trailer && B.HoldsEntries(contents, old(block.lay.entries))
    {
      EntriesFit(block.lay, block.buffer);
      ghost var lay, n := block.lay, |block.buffer|;
      var raw := block.Finish();
      assert B.BlockData(raw, lay, n);
      handle := WriteRawBlock(raw);
      block.Reset();
    }

    /** Contents, then the type byte and the checksum of both. */
    method WriteRawBlock(contents: Bytes) returns (handle: (nat, nat))
      modifies this`file
      ensures handle == (old(|file|), |contents|)
      ensures exists trailer :: |trailer| == TRAILER_SIZE && trailer[0] == 0 && file == old(file) + contents + trailer
    {
      handle := (|file|, |contents|);
      var trailer := [0] + Fixed32(crc(contents + [0]));
      file := file + contents;
      file := file + trailer;
    }

    /** Ends the current block, if it has entries; its index entry stays pending. */
    method Flush()
      requires Valid() && |file| < LIMIT64
      modifies this, data, filter
      ensures Valid() && Contents() == old(Contents()) && data.lay.entries == []
      ensures lastKey == old(lastKey) && seps == old(seps) && index.lay == old(index.lay) && |index.buffer| == old(|index.buffer|)
    {
      var empty := IsEmpty();
      if !empty {
        FlushEntries();
      }
    }

    method FlushEntries()
      requires Valid() && |file| < LIMIT64 && data.lay.entries != []
      modifies this`file, this`blocks, this`pendingIndexEntry, this`pendingHandle, data, filter
      ensures Valid() && Contents() == old(Contents()) && data.lay.entries == []
    {
      assert S().SoundIs(0);
      ghost var blocks0, current, length := blocks, data.lay.entries, |file|;
      ghost var size := FlushBlock();
      BlockWritten(u, blocks0, current, length, size, seps, lastKey);
      assert All() == blocks;
      assert S().SoundIs(0);
    }

    method IsEmpty() returns (empty: bool)
      requires BuildersOk()
      ensures empty <==> data.lay.entries == []
    {
      assert BuildersAre(0);
      EntriesFit(data.lay, data.buffer);
      empty := data.buffer == [];
    }

    method FlushBlock() returns (ghost size: nat)
      requires BuildersOk() && FilterOk() && AllStored(file, blocks) && data.lay.entries != []
      requires HandlesFit(blocks) && |file| < LIMIT64
      modifies this`file, this`blocks, this`pendingIndexEntry, this`pendingHandle, data, filter
      ensures BuildersOk() && data.lay.entries == [] && AllStored(file, blocks) && HandlesFit(blocks)
      ensures blocks == old(blocks) + [Blk(old(data.lay.entries), old(|file|), size)]
      ensures pendingIndexEntry && pendingHandle == (old(|file|), size)
      ensures FilterCovers(blocks, |file|)
    {
      assert BuildersAre(0);
      ghost var file0, current := file, data.lay.entries;
      pendingHandle := WriteBlock(data);
      size := pendingHandle.1;
      ghost var contents, trailer :| |contents| == size && |trailer| == TRAILER_SIZE && trailer[0] == 0
                                     && file == file0 + contents + trailer && B.HoldsEntries(contents, current);
      StoredMore(file0, blocks, contents, current, trailer);
      HandlesFitMore(blocks, Blk(current, |file0|, size));
      pendingIndexEntry := true;
      StartFilter(|file0|, current, size);
      blocks := blocks + [Blk(current, |file0|, size)];
    }

    /** The filter of the written block's offset is closed where the next one needs another. */
    method StartFilter(ghost length: nat, ghost current: seq<KV>, ghost size: nat)
      requires FilterCovers(WithCurrent(blocks, current, length), length) && current != [] && length <= |file|
      modifies filter
      ensures FilterCovers(blocks + [Blk(current, length, size)], |file|)
    {
      assert Filters(WithCurrent(blocks, current, length), length, 0);
      if filter != null {
        ghost var groups, waiting := filter.groups, filter.pending;
        CoversWritten(groups, waiting, blocks, current, length, size);
        F.QuotientGrows(length, |file|);
        filter.StartBlock(|file|);
        CoversMore(groups, waiting, filter.groups, filter.pending, blocks + [Blk(current, length, size)]);
      }
    }

    /** Ends the last block and writes what follows the blocks; the last separator is
        shortened as far as the comparator can. */
    method Finish() returns (filterHandle: Option<(nat, nat)>)
      requires Valid() && |file| < LIMIT64 && RoomInIndex()
      modifies this, data, index, filter
      ensures filter != null <==> filterHandle.Some?
      ensures exists bs, ss :: IsTable(u, file, bs, ss, filterHandle) && Flat(bs) == old(Contents())
                               && (filter != null ==> FilterAt(filter.policy.hash, file, bs, filterHandle.value))
    {
      Flush();
      assert S().SoundIs(0);
      assert All() == blocks;
      filterHandle := WriteTail();
      assert IsTable(u, file, blocks, seps, filterHandle);
    }

    /** Everything behind the data blocks. */
    method WriteTail() returns (filterHandle: Option<(nat, nat)>)
      requires BuildersOk() && IndexOk() && RoomInIndex() && HandlesFit(blocks) && u.Lawful()
      requires FilterCovers(blocks, |file|) && AllStored(file, blocks)
      requires Growing(InternalOrder(u), u, blocks, WithLast(blocks, seps, lastKey))
      requires pendingIndexEntry == (blocks != [])
      requires pendingIndexEntry ==> pendingHandle == (blocks[|blocks| - 1].offset, blocks[|blocks| - 1].size)
      modifies this`file, this`pendingIndexEntry, this`seps, index, filter
      ensures IsTable(u, file, blocks, seps, filterHandle)
      ensures filter != null <==> filterHandle.Some?
      ensures filter != null ==> FilterAt(filter.policy.hash, file, blocks, filterHandle.value)
    {
      filterHandle := WriteFilter();
      ghost var file0 := file;
      var meta := WriteMetaIndex(filterHandle);
      StoredStays(file0, file, blocks);
      WriteIndexAndFooter(meta, filterHandle);
      if filter != null {
        FilterStays(filter.policy.hash, file0, file, blocks, filterHandle.value);
      }
    }

    method WriteIndexAndFooter(meta: (nat, nat), ghost filterHandle: Option<(nat, nat)>)
      requires BuildersOk() && IndexOk() && RoomInIndex() && HandlesFit(blocks) && u.Lawful()
      requires AllStored(file, blocks) && Stored(file, Blk(MetaEntries(filterHandle), meta.0, meta.1))
      requires Growing(InternalOrder(u), u, blocks, WithLast(blocks, seps, lastKey))
      requires pendingIndexEntry == (blocks != [])
      requires pendingIndexEntry ==> pendingHandle == (blocks[|blocks| - 1].offset, blocks[|blocks| - 1].size)
      modifies this`file, this`pendingIndexEntry, this`seps, index
      ensures old(file) <= file && IsTable(u, file, blocks, seps, filterHandle)
    {
      ghost var file0 := file;
      PutLastEntry();
      var handle := WriteIndex();
      ghost var file1 := file;
      WriteFooter(meta, handle);
      TailStays(u, file0, file1, file, blocks, seps, filterHandle, meta, handle);
    }

    method WriteFooter(meta: (nat, nat), index: (nat, nat))
      modifies this`file
      ensures old(file) <= file && EndsIn(file, meta, index)
    {
      var footer := EncodeFooter(Narrow(meta), Narrow(index));
      file := file + footer;
      assert file[|file| - FOOTER_SIZE..] == footer;
    }

    static lemma TailStays(u: Comparator, file0: Bytes, file1: Bytes, file: Bytes, blocks: seq<Blk>, seps: seq<Bytes>,
                           filter: Option<(nat, nat)>, meta: (nat, nat), index: (nat, nat))
      requires file0 <= file1 <= file && |seps| == |blocks|
      requires Separated(InternalOrder(u), blocks, seps) && ToldApart(InternalOrder(u), u, blocks, seps) && HandlesFit(blocks)
      requires AllStored(file0, blocks) && Stored(file0, Blk(MetaEntries(filter), meta.0, meta.1))
      requires Stored(file1, Blk(IndexEntries(blocks, seps), index.0, index.1)) && EndsIn(file, meta, index)
      ensures IsTable(u, file, blocks, seps, filter)
    {
      StoredStays(file0, file, blocks);
      assert file[meta.0..meta.0 + meta.1] == file0[meta.0..meta.0 + meta.1];
      assert file[index.0..index.0 + index.1] == file1[index.0..index.0 + index.1];
      assert LaidOut(u, file, blocks, seps, filter, meta, index);
    }

    /** The block that names the filter block. */
    method WriteMetaIndex(filterHandle: Option<(nat, nat)>) returns (handle: (nat, nat))
      requires BuildersOk()
      modifies this`file
      ensures old(file) <= file && Stored(file, Blk(MetaEntries(filterHandle), handle.0, handle.1))
    {
      assert BuildersAre(0);
      var block := new B.BlockBuilder(data.interval);
      if filterHandle.Some? {
        var narrow := Narrow(filterHandle.value);
        HandleLength(narrow.0, narrow.1);
        var value := EncodeHandle(narrow.0, narrow.1);
        block.Add(FilterKey(), value);
      }
      assert block.lay.entries == MetaEntries(filterHandle);
      handle := WriteStored(block);
    }

    static lemma FilterStays(hash: Bloom.Hash, file: Bytes, file': Bytes, blocks: seq<Blk>, filter: (nat, nat))
      requires FilterAt(hash, file, blocks, filter) && file <= file'
      ensures FilterAt(hash, file', blocks, filter)
    {
      assert file'[filter.0..filter.0 + filter.1] == file[filter.0..filter.0 + filter.1];
    }

    method WriteFilter() returns (handle: Option<(nat, nat)>)
      requires FilterCovers(blocks, |file|) && AllStored(file, blocks)
      modifies this`file, filter
      ensures AllStored(file, blocks) && (filter != null <==> handle.Some?)
      ensures filter != null ==> FilterAt(filter.policy.hash, file, blocks, handle.value)
    {
      handle := None;
      if filter != null {
        assert Filters(blocks, |file|, 0);
        ghost var file0, groups, waiting := file, filter.groups, filter.pending;
        var contents := filter.Finish();
        CoversMore(groups, waiting, filter.groups, [], blocks);
        var h := WriteRawBlock(contents);
        assert file[h.0..h.0 + h.1] == contents;
        StoredStays(file0, file, blocks);
        handle := Some(h);
      }
    }

    method PutLastEntry()
      requires BuildersOk() && IndexOk() && RoomInIndex() && HandlesFit(blocks) && u.Lawful()
      requires Growing(InternalOrder(u), u, blocks, WithLast(blocks, seps, lastKey))
      requires pendingIndexEntry == (blocks != [])
      requires pendingIndexEntry ==> pendingHandle == (blocks[|blocks| - 1].offset, blocks[|blocks| - 1].size)
      modifies index, this`pendingIndexEntry, this`seps
      ensures BuildersOk() && IndexOk()
      ensures Separated(InternalOrder(u), blocks, seps) && ToldApart(InternalOrder(u), u, blocks, seps)
    {
      if pendingIndexEntry {
        var sep := InternalSuccessor(u, lastKey);
        SuccessorWorks(u, lastKey);
        LastSeparator(InternalOrder(u), u, blocks, seps + [lastKey], sep);
        assert (seps + [lastKey])[..|blocks| - 1] == seps;
        assert HandleFits(blocks, |seps|);
        IndexGrows(blocks, seps, sep);
        PutIndexEntry(sep);
        seps := seps + [sep];
      }
    }

    static lemma SuccessorWorks(u: Comparator, key: Bytes)
      requires u.Lawful()
      ensures TotalOrder(InternalOrder(u)) && InternalOrder(u)(key, InternalSuccessor(u, key)) <= 0
      ensures |InternalSuccessor(u, key)| <= |key|
    {
      assert u.Laws(0);
      InternalIsTotal(u);
      InternalSuccessorIsAfter(u, key);
    }

    method WriteIndex() returns (handle: (nat, nat))
      requires BuildersOk()
      modifies this`file, index
      ensures old(file) <= file && Stored(file, Blk(old(index.lay.entries), handle.0, handle.1))
    {
      assert BuildersAre(0);
      handle := WriteStored(index);
    }

    method WriteStored(block: B.BlockBuilder) returns (handle: (nat, nat))
      requires block.Valid() && !block.finished
      modifies this`file, block
      ensures old(file) <= file && Stored(file, Blk(old(block.lay.entries), handle.0, handle.1))
    {
      ghost var file0, entries := file, block.lay.entries;
      handle := WriteBlock(block);
      ghost var contents, trailer :| |contents| == handle.1 && |trailer| == TRAILER_SIZE && trailer[0] == 0
                                     && file == file0 + contents + trailer && B.HoldsEntries(contents, entries);
      assert file[handle.0..handle.0 + handle.1] == contents;
    }
  }

  // --------------------------------------------------------------- reading

  /** The contents of a block, if it is there and stored as it is. */
  method ReadBlock(file: Bytes, handle: (nat, nat)) returns (r: Option<Bytes>)
    ensures forall entries :: Stored(file, Blk(entries, handle.0, handle.1)) ==>
              r.Some? && B.HoldsEntries(r.value, entries)
    ensures r.Some? ==> |r.value| == handle.1 && handle.0 + handle.1 <= |file| && r.value == file[handle.0..handle.0 + handle.1]
  {
    if handle.0 + handle.1 + TRAILER_SIZE > |file| || file[handle.0 + handle.1] != 0 {
      return None;
    }
    r := Some(file[handle.0..handle.0 + handle.1]);
  }

  /** Filters hash user keys: keys that the comparator takes as equal hash alike. */
  ghost predicate HashFits(u: Comparator, hash: Bloom.Hash) {
    forall a, b :: SameUser(u, a, b) ==> hash(a) == hash(b)
  }

  /** With the bytewise comparator every hash of user keys will do. */
  lemma UserHashFits(hash: Bloom.Hash)
    ensures HashFits(BYTEWISE, (key: Bytes) => hash(ExtractUserKey(key)))
  {
    forall a, b | SameUser(BYTEWISE, a, b)
      ensures ExtractUserKey(a) == ExtractUserKey(b)
    {
      EqualBytes(ExtractUserKey(a), ExtractUserKey(b));
    }
  }

  lemma {:induction false} EqualBytes(a: Bytes, b: Bytes)
    requires CompareBytes(a, b) == 0
    ensures a == b
    decreases |a|
  {
    if a != [] {
      EqualBytes(a[1..], b[1..]);
      assert a == [a[0]] + a[1..] && b == [b[0]] + b[1..];
    }
  }

  /** A block that a filter rules out holds no entry of the key's user key. */
  lemma RuledOut(cmp: Order, u: Comparator, blocks: seq<Blk>, seps: seq<Bytes>, key: Bytes, i: nat, m: nat)
    requires TotalOrder(cmp) && Separated(cmp, blocks, seps) && ToldApart(cmp, u, blocks, seps)
    requires Names(cmp, seps, key, i) && i < |blocks| && B.IsCut(cmp, blocks[i].entries, key, m)
    requires forall q :: 0 <= q < |blocks[i].entries| ==> !SameUser(u, blocks[i].entries[q].key, key)
    ensures Answers(cmp, u, Flat(blocks), key, None)
  {
    FoundInBlock(cmp, u, blocks, seps, key, i, m);
    var all, r := Flat(blocks), if m < |blocks[i].entries| then Some(blocks[i].entries[m]) else None;
    var n: nat :| B.IsCut(cmp, all, key, n) && AnswersAt(u, all, key, n, r);
    assert AnswersAt(u, all, key, n, None);
  }

  lemma {:induction false} CutExists(cmp: Order, entries: seq<KV>, key: Bytes) returns (m: nat)
    requires TotalOrder(cmp) && B.Ordered(cmp, entries)
    ensures B.IsCut(cmp, entries, key, m)
  {
    if entries == [] {
      m := 0;
    } else {
      var n := |entries| - 1;
      m := CutExists(cmp, entries[..n], key);
      if m == n && cmp(entries[n].key, key) < 0 {
        m := n + 1;
      } else if m < n {
        LaterIsNotBefore(cmp, entries[m].key, entries[n].key, key);
      }
    }
  }

  lemma LaterIsNotBefore(cmp: Order, a: Bytes, b: Bytes, key: Bytes)
    requires TotalOrder(cmp) && cmp(a, b) < 0 && cmp(a, key) >= 0
    ensures cmp(b, key) >= 0
  {
    assert OrderLaws(cmp, 0);
  }

  /** The separators are in order. */
  lemma IndexIsOrdered(cmp: Order, blocks: seq<Blk>, seps: seq<Bytes>)
    requires TotalOrder(cmp) && Separated(cmp, blocks, seps)
    ensures B.Ordered(cmp, IndexEntries(blocks, seps))
  {
    forall i, j | 0 <= i < j < |seps|
      ensures cmp(seps[i], seps[j]) < 0
    {
      assert InPlace(cmp, blocks, seps, j);
      var m := |blocks[j].entries| - 1;
      AboveSeparator(cmp, blocks, seps, i, j, m);
      Chain(cmp, seps[i], blocks[j].entries[m].key, seps[j]);
    }
  }

  /** What a seek in the index finds: the handle of the block that it names. */
  lemma IndexNames(cmp: Order, blocks: seq<Blk>, seps: seq<Bytes>, key: Bytes, e: Option<KV>) returns (i: nat)
    requires |seps| == |blocks| && B.FirstFrom(cmp, IndexEntries(blocks, seps), key, e)
    ensures Names(cmp, seps, key, i) && (e.None? <==> i == |blocks|)
    ensures e.Some? ==> i < |blocks| && e.value.value == HandleBytes(blocks[i].offset, blocks[i].size)
  {
    var entries := IndexEntries(blocks, seps);
    i :| B.IsCut(cmp, entries, key, i) && e == if i < |entries| then Some(entries[i]) else None;
    assert forall j :: 0 <= j < |seps| ==> entries[j].key == seps[j];
  }

  class Table {
    const u: Comparator
    const file: Bytes
    const index: Bytes
    const filter: F.FilterBlockReader?

    /** A table with this index block, and the filters at a handle if there are any. */
    constructor (u: Comparator, file: Bytes, index: Bytes, filterHandle: Option<(nat, nat)>, policy: Bloom.BloomFilterPolicy?)
      requires filterHandle.Some? ==> policy != null
      ensures Valid() && this.u == u && this.file == file && this.index == index
      ensures filter != null ==>
                policy != null && filter.policy == policy && filterHandle.Some? && filterHandle.value.1 == |filter.data|
                && filterHandle.value.0 + |filter.data| <= |file|
                && filter.data == file[filterHandle.value.0..filterHandle.value.0 + |filter.data|]
                && forall groups :: F.Holds(policy.hash, groups, filter.data) ==> filter.Reads(groups)
    {
      this.u, this.file, this.index := u, file, index;
      var block := None;
      if filterHandle.Some? {
        block := ReadBlock(file, filterHandle.value);
      }
      if block.Some? {
        filter := new F.FilterBlockReader(policy, block.value);
      } else {
        filter := null;
      }
    }

    ghost predicate Valid() {
      filter != null ==> filter.Valid()
    }

    ghost predicate Holds(blocks: seq<Blk>, seps: seq<Bytes>) {
      Separated(InternalOrder(u), blocks, seps) && ToldApart(InternalOrder(u), u, blocks, seps)
      && AllStored(file, blocks) && HandlesFit(blocks) && B.HoldsEntries(index, IndexEntries(blocks, seps))
    }

    /** The filters, if there are any, cover the blocks and hash user keys. */
    ghost predicate FilterFits(blocks: seq<Blk>) {
      filter != null ==>
        Valid() && HashFits(u, filter.policy.hash)
        && exists groups :: filter.Reads(groups) && Covers(groups, [], blocks)
    }

    /** A key of the block with the same user key would have been accepted. */
    lemma TurnedAway(blocks: seq<Blk>, key: Bytes, i: nat)
      requires filter != null && FilterFits(blocks) && i < |blocks| && !filter.Accepts(blocks[i].offset, key)
      ensures forall m :: 0 <= m < |blocks[i].entries| ==> !SameUser(u, blocks[i].entries[m].key, key)
    {
      var groups :| filter.Reads(groups) && Covers(groups, [], blocks);
      forall m | 0 <= m < |blocks[i].entries|
        ensures !SameUser(u, blocks[i].entries[m].key, key)
      {
        var k := blocks[i].entries[m].key;
        assert F.Covered(groups, [], blocks[i].offset / 2048, k);
        filter.AddedIsAccepted(groups, blocks[i].offset, k);
        if SameUser(u, k, key) {
          SameHash(blocks[i].offset, k, key);
        }
      }
    }

    lemma SameHash(offset: nat, a: Bytes, b: Bytes)
      requires filter != null && filter.Valid() && filter.policy.hash(a) == filter.policy.hash(b)
      ensures filter.Accepts(offset, a) <==> filter.Accepts(offset, b)
    {
    }

    /** Seeks the key in the block that the index names, unless its filter rules it out. */
    method InternalGet(key: Bytes, ghost blocks: seq<Blk>, ghost seps: seq<Bytes>) returns (r: Option<KV>)
      requires Valid() && u.Lawful()
      ensures Holds(blocks, seps) && FilterFits(blocks) ==> Answers(InternalOrder(u), u, Flat(blocks), key, r)
    {
      var cmp := InternalOrder(u);
      InternalIsTotal(u);
      TotalIsTransitive(cmp);
      ghost var good := Holds(blocks, seps) && FilterFits(blocks);
      if good {
        IndexIsOrdered(cmp, blocks, seps);
      }
      var e := B.SeekEntry(cmp, index, key, if good then IndexEntries(blocks, seps) else []);
      ghost var i: nat := 0;
      if good {
        i := IndexNames(cmp, blocks, seps, key, e);
      }
      if e.None? {
        if good {
          NoneNamed(cmp, u, blocks, seps, key);
        }
        return None;
      }
      r := GetFromBlock(cmp, key, e.value.value, blocks, seps, i, good);
    }

    method GetFromBlock(cmp: Order, key: Bytes, handleValue: Bytes, ghost blocks: seq<Blk>, ghost seps: seq<Bytes>,
                        ghost i: nat, ghost good: bool)
      returns (r: Option<KV>)
      requires Valid() && TotalOrder(cmp) && B.Transitive(cmp)
      requires good ==> Separated(cmp, blocks, seps) && ToldApart(cmp, u, blocks, seps)
                        && AllStored(file, blocks) && HandlesFit(blocks) && FilterFits(blocks)
                        && Names(cmp, seps, key, i) && i < |blocks|
                        && handleValue == HandleBytes(blocks[i].offset, blocks[i].size)
      ensures good ==> Answers(cmp, u, Flat(blocks), key, r)
    {
      if good {
        assert HandleFits(blocks, i) && StoredAt(file, blocks, i) && InPlace(cmp, blocks, seps, i);
      }
      ghost var b := if good then blocks[i] else Blk([], 0, 0);
      var handle := DecodeHandle(handleValue, b.offset, b.size);
      if filter != null && handle.Some? {
        var mayMatch := filter.KeyMayMatch(handle.value.0, key);
        if !mayMatch {
          if good {
            TurnedAway(blocks, key, i);
            ghost var m := CutExists(cmp, b.entries, key);
            RuledOut(cmp, u, blocks, seps, key, i, m);
          }
          return None;
        }
      }
      r := None;
      if handle.Some? {
        var contents := ReadBlock(file, handle.value);
        if contents.Some? {
          r := B.SeekEntry(cmp, contents.value, key, b.entries);
        }
      }
      if good {
        ghost var m: nat :| B.IsCut(cmp, b.entries, key, m) && r == if m < |b.entries| then Some(b.entries[m]) else None;
        FoundInBlock(cmp, u, blocks, seps, key, i, m);
      }
    }
  }

  lemma TotalIsTransitive(cmp: Order)
    requires TotalOrder(cmp)
    ensures B.Transitive(cmp)
  {
    assert OrderLaws(cmp, 0);
  }

  lemma MetaFound(key: Bytes, value: Option<Bytes>, entries: seq<KV>, e: Option<KV>)
    requires entries == if value.None? then [] else [B.KV(key, value.value)]
    requires B.FirstFrom(CompareBytes, entries, key, e)
    ensures e == if value.None? then None else Some(entries[0])
  {
    BytewiseOrder();
  }

  /** The handle of the filter block, if the metaindex block at a handle names it. */
  method ReadMeta(file: Bytes, meta: (nat, nat), ghost filter: Option<(nat, nat)>) returns (r: Option<(nat, nat)>)
    ensures Stored(file, Blk(MetaEntries(filter), meta.0, meta.1)) && (filter.Some? ==> Narrow(filter.value) == filter.value) ==>
              r == filter
  {
    ghost var h := if filter.Some? then Narrow(filter.value) else (0, 0);
    var contents := ReadBlock(file, meta);
    if contents.None? {
      return None;
    }
    var key := FilterKey();
    var e := FindMeta(contents.value, key, if filter.Some? then Some(HandleBytes(h.0, h.1)) else None);
    r := None;
    if e.Some? && e.value.key == key {
      r := DecodeHandle(e.value.value, h.0, h.1);
    }
  }

  /** Looks for the only key of a metaindex block. */
  method FindMeta(data: Bytes, key: Bytes, ghost value: Option<Bytes>) returns (e: Option<KV>)
    ensures var entries := if value.None? then [] else [B.KV(key, value.value)];
            B.HoldsEntries(data, entries) ==> e == if value.None? then None else Some(entries[0])
  {
    ghost var entries := if value.None? then [] else [B.KV(key, value.value)];
    BytewiseOrder();
    e := B.SeekEntry(CompareBytes, data, key, entries);
    if B.HoldsEntries(data, entries) {
      MetaFound(key, value, entries, e);
    }
  }

  /** A file below 2^64 bytes has handles that fit. */
  lemma HandlesAreNarrow(u: Comparator, file: Bytes, blocks: seq<Blk>, seps: seq<Bytes>, filter: Option<(nat, nat)>,
                         meta: (nat, nat), index: (nat, nat))
    requires LaidOut(u, file, blocks, seps, filter, meta, index) && |file| < LIMIT64
    ensures Narrow(meta) == meta && Narrow(index) == index
  {
    StoredIsNarrow(file, MetaEntries(filter), meta);
    StoredIsNarrow(file, IndexEntries(blocks, seps), index);
  }

  lemma StoredIsNarrow(file: Bytes, entries: seq<KV>, handle: (nat, nat))
    requires Stored(file, Blk(entries, handle.0, handle.1)) && |file| < LIMIT64
    ensures Narrow(handle) == handle
  {
    FitIsNarrow(handle);
  }

  lemma FitIsNarrow(handle: (nat, nat))
    requires handle.0 < LIMIT64 && handle.1 < LIMIT64
    ensures Narrow(handle) == handle
  {
  }

  /** The table of a finished file, opened with its index. */
  lemma TableHolds(table: Table, blocks: seq<Blk>, seps: seq<Bytes>, filter: Option<(nat, nat)>, meta: (nat, nat), index: (nat, nat))
    requires LaidOut(table.u, table.file, blocks, seps, filter, meta, index)
    requires B.HoldsEntries(table.index, IndexEntries(blocks, seps))
    ensures table.Holds(blocks, seps)
  {
  }

  method ReadFooter(file: Bytes, ghost meta: (nat, nat), ghost index: (nat, nat)) returns (r: Option<((nat, nat), (nat, nat))>)
    ensures EndsIn(file, meta, index) && Narrow(meta) == meta && Narrow(index) == index ==> r == Some((meta, index))
    ensures |file| < FOOTER_SIZE || DecodeFixed64(file, |file| - 8) != TABLE_MAGIC ==> r == None
  {
    if |file| < FOOTER_SIZE {
      return None;
    }
    r := DecodeFooter(file[|file| - FOOTER_SIZE..], meta, index);
  }

  /** The filters of a table fit its blocks. */
  ghost predicate FilterIsGood(u: Comparator, policy: Bloom.BloomFilterPolicy?, file: Bytes, blocks: seq<Blk>,
                               filter: Option<(nat, nat)>) {
    policy != null && filter.Some? ==>
      FilterAt(policy.hash, file, blocks, filter.value) && filter.value.1 < LIMIT32 && HashFits(u, policy.hash)
  }

  /** Opens a file, whatever it holds; one that is a table opens. */
  method Open(u: Comparator, file: Bytes, policy: Bloom.BloomFilterPolicy?,
              ghost blocks: seq<Blk>, ghost seps: seq<Bytes>, ghost filter: Option<(nat, nat)>)
    returns (table: Table?)
    ensures table != null ==> table.Valid() && table.u == u && table.file == file
    ensures |file| < FOOTER_SIZE || DecodeFixed64(file, |file| - 8) != TABLE_MAGIC ==> table == null
    ensures |file| < LIMIT64 && IsTable(u, file, blocks, seps, filter) ==> table != null && table.Holds(blocks, seps)
    ensures |file| < LIMIT64 && IsTable(u, file, blocks, seps, filter) && FilterIsGood(u, policy, file, blocks, filter) ==>
              table != null && table.FilterFits(blocks)
  {
    ghost var meta, index := (0, 0), (0, 0);
    ghost var good := |file| < LIMIT64 && IsTable(u, file, blocks, seps, filter);
    if good {
      meta, index :| LaidOut(u, file, blocks, seps, filter, meta, index);
      HandlesAreNarrow(u, file, blocks, seps, filter, meta, index);
    }
    var footer := ReadFooter(file, meta, index);
    if footer.None? {
      return null;
    }
    var contents := ReadBlock(file, footer.value.1);
    if contents.None? {
      return null;
    }
    table := OpenBlocks(u, file, contents.value, policy, footer.value.0, blocks, filter);
    if good {
      TableHolds(table, blocks, seps, filter, meta, index);
    }
  }

  /** Makes the table, with its filters if there are any and if there is a policy for them. */
  method OpenBlocks(u: Comparator, file: Bytes, index: Bytes, policy: Bloom.BloomFilterPolicy?, meta: (nat, nat),
                    ghost blocks: seq<Blk>, ghost filter: Option<(nat, nat)>)
    returns (table: Table)
    ensures table.Valid() && table.u == u && table.file == file && table.index == index
    ensures |file| < LIMIT64 && Stored(file, Blk(MetaEntries(filter), meta.0, meta.1)) && FilterIsGood(u, policy, file, blocks, filter) ==>
              table.FilterFits(blocks)
  {
    var handle := None;
    ghost var good := |file| < LIMIT64 && Stored(file, Blk(MetaEntries(filter), meta.0, meta.1))
                      && FilterIsGood(u, policy, file, blocks, filter);
    if good && policy != null && filter.Some? {
      FitIsNarrow(filter.value);
    }
    if policy != null {
      handle := ReadMeta(file, meta, filter);
    }
    table := MakeTable(u, file, index, policy, handle, blocks);
  }

  method MakeTable(u: Comparator, file: Bytes, index: Bytes, policy: Bloom.BloomFilterPolicy?, handle: Option<(nat, nat)>,
                   ghost blocks: seq<Blk>)
    returns (table: Table)
    requires handle.Some? ==> policy != null
    ensures table.Valid() && table.u == u && table.file == file && table.index == index
    ensures FilterIsGood(u, policy, file, blocks, handle) ==> table.FilterFits(blocks)
  {
    table := new Table(u, file, index, handle, policy);
    if FilterIsGood(u, policy, file, blocks, handle) && table.filter != null {
      FilterOpened(table, u, policy, file, blocks, handle.value);
    }
  }

  /** Finish a table, open its file, and look a key up. The reader may have no filter
      policy, or one with another number of bits. */
  method FinishAndGet(builder: TableBuilder, policy: Bloom.BloomFilterPolicy?, key: Bytes)
    returns (ok: bool, r: Option<KV>, filterSize: nat)
    requires builder.Valid() && |builder.file| < LIMIT64 && builder.RoomInIndex() && builder.u.Lawful()
    requires builder.filter != null && policy != null ==>
               builder.filter.policy.hash == policy.hash && HashFits(builder.u, policy.hash)
    modifies builder, builder.data, builder.index, builder.filter
    ensures |builder.file| < LIMIT64 && filterSize < LIMIT32 ==>
              ok && Answers(InternalOrder(builder.u), builder.u, old(builder.Contents()), key, r)
  {
    ghost var all := builder.Contents();
    var handle := builder.Finish();
    ghost var blocks, seps :| IsTable(builder.u, builder.file, blocks, seps, handle) && Flat(blocks) == all
                              && (builder.filter != null ==> FilterAt(builder.filter.policy.hash, builder.file, blocks, handle.value));
    filterSize := if handle.None? then 0 else handle.value.1;
    var table := Open(builder.u, builder.file, policy, blocks, seps, handle);
    ok, r := table != null, None;
    if ok {
      r := table.InternalGet(key, blocks, seps);
    }
  }

  lemma FilterOpened(table: Table, u: Comparator, policy: Bloom.BloomFilterPolicy, file: Bytes, blocks: seq<Blk>, handle: (nat, nat))
    requires table.filter != null && table.filter.Valid() && table.u == u && table.filter.policy == policy
    requires handle.0 + handle.1 <= |file| && table.filter.data == file[handle.0..handle.0 + handle.1]
    requires forall groups :: F.Holds(policy.hash, groups, table.filter.data) ==> table.filter.Reads(groups)
    requires FilterAt(policy.hash, file, blocks, handle) && handle.1 < LIMIT32 && HashFits(u, policy.hash)
    ensures table.FilterFits(blocks)
  {
    var groups :| F.Holds(policy.hash, groups, file[handle.0..handle.0 + handle.1]) && Covers(groups, [], blocks);
    assert table.filter.Reads(groups);
  }
}
