/** The Bloom filter of one set of keys (util/bloom.cc). The hash is any function. */
module Bloom {
  import opened Entries
  import opened Coding

  /** Bit `k`, counted from the least significant one. */
  predicate HasBit(b: nat, k: nat) {
    if k == 0 then b % 2 == 1 else HasBit(b / 2, k - 1)
  }

  /** The number with bit `k` switched on. */
  function SetBit(b: nat, k: nat): nat {
    if k == 0 then b / 2 * 2 + 1 else SetBit(b / 2, k - 1) * 2 + b % 2
  }

  function Pow2(n: nat): nat {
    if n == 0 then 1 else 2 * Pow2(n - 1)
  }

  lemma {:induction false} SetBitFits(b: nat, k: nat, n: nat)
    requires k < n && b < Pow2(n)
    ensures SetBit(b, k) < Pow2(n)
  {
    if k > 0 {
      SetBitFits(b / 2, k - 1, n - 1);
    }
  }

  lemma {:induction false} SetBitSets(b: nat, k: nat)
    ensures HasBit(SetBit(b, k), k)
  {
    if k > 0 {
      SetBitSets(b / 2, k - 1);
    }
  }

  /** Switching a bit on leaves the others as they are. */
  lemma {:induction false} OtherBitsStay(b: nat, k: nat, j: nat)
    ensures j != k ==> (HasBit(SetBit(b, k), j) <==> HasBit(b, j))
  {
    if j > 0 && k > 0 {
      OtherBitsStay(b / 2, k - 1, j - 1);
    }
  }

  function SetByte(b: Byte, k: nat): (r: Byte)
    requires k < 8
    ensures HasBit(r, k) && forall j: nat :: j != k ==> (HasBit(r, j) <==> HasBit(b, j))
  {
    SetBitSets(b, k);
    assert Pow2(8) == 256;
    SetBitFits(b, k, 8);
    assert forall j: nat :: j != k ==> (HasBit(SetBit(b, k), j) <==> HasBit(b, j)) by {
      forall j: nat | j != k
        ensures HasBit(SetBit(b, k), j) <==> HasBit(b, j)
      {
        OtherBitsStay(b, k, j);
      }
    }
    SetBit(b, k)
  }

  /** Bit `pos` of an array of bytes. */
  predicate BitSet(bytes: Bytes, pos: nat) {
    pos / 8 < |bytes| && HasBit(bytes[pos / 8], pos % 8)
  }

  type Hash = Bytes -> Word

  function Rotated(h: Word): Word {
    h / 0x2_0000 + h % 0x2_0000 * 0x8000
  }

  /** The `j`th hash value of a key. */
  function Probe(h: Word, j: nat): Word {
    if j == 0 then h else (Probe(h, j - 1) + Rotated(h)) % LIMIT32
  }

  /** The first `k` probes of a key hit bits that are on. */
  ghost predicate Hit(hash: Hash, key: Bytes, bytes: Bytes, bits: nat, k: nat)
    requires bits > 0
  {
    forall j :: 0 <= j < k ==> BitSet(bytes, Probe(hash(key), j) % bits)
  }

  /** What a filter answers. */
  ghost predicate Matches(hash: Hash, key: Bytes, filter: Bytes) {
    |filter| >= 2
    && (filter[|filter| - 1] > 30 || Hit(hash, key, filter[..|filter| - 1], (|filter| - 1) * 8, filter[|filter| - 1]))
  }

  class BloomFilterPolicy {
    const hash: Hash
    const bitsPerKey: nat
    const k: nat

    ghost predicate Valid() {
      1 <= k <= 30
    }

    constructor (hash: Hash, bitsPerKey: nat)
      ensures Valid() && this.hash == hash && this.bitsPerKey == bitsPerKey
    {
      this.hash, this.bitsPerKey := hash, bitsPerKey;
      var n := (bitsPerKey as real * 0.69).Floor;
      k := if n < 1 then 1 else if n > 30 then 30 else n;
    }

    /** Appends a filter that every one of the keys matches. */
    method CreateFilter(keys: seq<Bytes>, dst: Bytes) returns (grown: Bytes)
      requires Valid()
      ensures dst <= grown
      ensures forall i :: 0 <= i < |keys| ==> Matches(hash, keys[i], grown[|dst|..])
    {
      var bits := |keys| * bitsPerKey;
      if bits < 64 {
        bits := 64;
      }
      var bytes := (bits + 7) / 8;
      bits := bytes * 8;
      var bitmap := new Byte[bytes](_ => 0);
      for i := 0 to |keys|
        invariant forall n :: 0 <= n < i ==> Hit(hash, keys[n], bitmap[..], bits, k)
      {
        SetProbes(bitmap, keys, i);
      }
      var filter := bitmap[..] + [k];
      assert filter[..|filter| - 1] == bitmap[..];
      grown := dst + filter;
      assert grown[|dst|..] == filter;
    }

    /** Switches on the bits of one key; the keys before it still match. */
    method SetProbes(bytes: array<Byte>, keys: seq<Bytes>, i: nat)
      requires i < |keys| && bytes.Length > 0
      requires forall n :: 0 <= n < i ==> Hit(hash, keys[n], bytes[..], bytes.Length * 8, k)
      modifies bytes
      ensures forall n :: 0 <= n < i + 1 ==> Hit(hash, keys[n], bytes[..], bytes.Length * 8, k)
    {
      var bits := bytes.Length * 8;
      var h := hash(keys[i]);
      var delta := Rotated(h);
      for j := 0 to k
        invariant h == Probe(hash(keys[i]), j)
        invariant Hit(hash, keys[i], bytes[..], bits, j)
        invariant forall n :: 0 <= n < i ==> Hit(hash, keys[n], bytes[..], bits, k)
      {
        var bitpos := h % bits;
        ghost var before := bytes[..];
        bytes[bitpos / 8] := SetByte(bytes[bitpos / 8], bitpos % 8);
        BitsStay(before, bytes[..], bitpos);
        assert forall n :: 0 <= n < i ==> Hit(hash, keys[n], before, bits, k);
        h := (h + delta) % LIMIT32;
      }
    }

    static lemma BitsStay(before: Bytes, bytes: Bytes, pos: nat)
      requires pos / 8 < |before|
      requires bytes == before[pos / 8 := SetByte(before[pos / 8], pos % 8)]
      ensures BitSet(bytes, pos) && forall p: nat :: BitSet(before, p) ==> BitSet(bytes, p)
    {
      forall p: nat | BitSet(before, p)
        ensures BitSet(bytes, p)
      {
        if p / 8 == pos / 8 {
          assert HasBit(SetByte(before[pos / 8], pos % 8), p % 8);
        }
      }
    }

    method KeyMayMatch(key: Bytes, filter: Bytes) returns (r: bool)
      ensures r == Matches(hash, key, filter)
    {
      var len := |filter|;
      if len < 2 {
        return false;
      }
      var bits := (len - 1) * 8;
      var probes := filter[len - 1];
      if probes > 30 {
        return true;
      }
      var h := hash(key);
      var delta := Rotated(h);
      for j := 0 to probes
        invariant h == Probe(hash(key), j)
        invariant Hit(hash, key, filter[..len - 1], bits, j)
      {
        var bitpos := h % bits;
        if !HasBit(filter[bitpos / 8], bitpos % 8) {
          assert !BitSet(filter[..len - 1], Probe(hash(key), j) % bits);
          return false;
        }
        h := (h + delta) % LIMIT32;
      }
      r := true;
    }
  }
}

/** The filter block of a table: one filter for every 2KB of data (table/filter_block.cc). */
module FilterBlock {
  import opened Entries
  import opened Coding
  import opened Bloom

  const BASE_LG: Byte := 11

  ghost predicate EachMatches(hash: Hash, keys: seq<Bytes>, filter: Bytes) {
    forall i :: 0 <= i < |keys| ==> Matches(hash, keys[i], filter)
  }

  /** Filter `i` lies from its offset to the next one, the last one to `end`. */
  function EndOf(offsets: seq<nat>, i: nat, end: nat): nat {
    if i + 1 < |offsets| then offsets[i + 1] else end
  }

  ghost predicate FilterAt(hash: Hash, keys: seq<Bytes>, data: Bytes, start: nat, end: nat) {
    start <= end <= |data| && EachMatches(hash, keys, data[start..end])
  }

  /** The filters generated so far, and the keys that each of them covers. */
  ghost predicate Generated(hash: Hash, groups: seq<seq<Bytes>>, offsets: seq<nat>, result: Bytes) {
    |groups| == |offsets|
    && forall i :: 0 <= i < |offsets| ==> FilterAt(hash, groups[i], result, offsets[i], EndOf(offsets, i, |result|))
  }

  lemma GeneratesOn(hash: Hash, groups: seq<seq<Bytes>>, offsets: seq<nat>, before: Bytes, after: Bytes, keys: seq<Bytes>)
    requires Generated(hash, groups, offsets, before) && before <= after
    requires EachMatches(hash, keys, after[|before|..])
    ensures Generated(hash, groups + [keys], offsets + [|before|], after)
  {
    var grown := offsets + [|before|];
    forall i | 0 <= i < |grown|
      ensures FilterAt(hash, (groups + [keys])[i], after, grown[i], EndOf(grown, i, |after|))
    {
      if i < |offsets| {
        assert FilterAt(hash, groups[i], before, offsets[i], EndOf(offsets, i, |before|));
        assert EndOf(grown, i, |after|) == EndOf(offsets, i, |before|);
        assert after[offsets[i]..EndOf(offsets, i, |before|)] == before[offsets[i]..EndOf(offsets, i, |before|)];
      } else {
        assert after[|before|..|after|] == after[|before|..];
      }
    }
  }

  /** The keys laid out one behind the other, each from its start to the next one's. */
  ghost predicate Flattened(keys: seq<Bytes>, flat: Bytes, start: seq<nat>) {
    |start| == |keys| && (keys == [] ==> flat == [])
    && forall i :: 0 <= i < |keys| ==> start[i] <= EndOf(start, i, |flat|) <= |flat| && flat[start[i]..EndOf(start, i, |flat|)] == keys[i]
  }

  lemma FlattensOn(keys: seq<Bytes>, flat: Bytes, start: seq<nat>, key: Bytes)
    requires Flattened(keys, flat, start)
    ensures Flattened(keys + [key], flat + key, start + [|flat|])
  {
    var grown := start + [|flat|];
    forall i | 0 <= i < |keys| + 1
      ensures grown[i] <= EndOf(grown, i, |flat + key|) <= |flat + key|
      ensures (flat + key)[grown[i]..EndOf(grown, i, |flat + key|)] == (keys + [key])[i]
    {
      if i < |keys| {
        assert EndOf(grown, i, |flat + key|) == EndOf(start, i, |flat|);
        assert (flat + key)[start[i]..EndOf(start, i, |flat|)] == flat[start[i]..EndOf(start, i, |flat|)];
      }
    }
  }

  class FilterBlockBuilder {
    const policy: BloomFilterPolicy
    var keys: Bytes
    var start: seq<nat>
    var result: Bytes
    var filterOffsets: seq<nat>
    /** The keys without a filter yet, and those of each filter. */
    ghost var pending: seq<Bytes>
    ghost var groups: seq<seq<Bytes>>

    ghost predicate Valid()
      reads this
    {
      policy.Valid() && Flattened(pending, keys, start) && Generated(policy.hash, groups, filterOffsets, result)
    }

    constructor (policy: BloomFilterPolicy)
      requires policy.Valid()
      ensures Valid() && this.policy == policy && pending == [] && groups == []
    {
      this.policy := policy;
      keys, start, result, filterOffsets := [], [], [], [];
      pending, groups := [], [];
    }

    /** Closes the filters of all index positions before the block's. */
    method StartBlock(blockOffset: nat)
      requires Valid() && blockOffset / 2048 >= |groups|
      modifies this
      ensures Valid() && |groups| == blockOffset / 2048
      ensures blockOffset / 2048 == old(|groups|) ==> groups == old(groups) && pending == old(pending)
      ensures blockOffset / 2048 > old(|groups|) ==>
                pending == [] && old(groups) + [old(pending)] <= groups
                && forall i :: old(|groups|) < i < |groups| ==> groups[i] == []
    {
      var filterIndex := blockOffset / 2048;
      while filterIndex > |filterOffsets|
        invariant Valid() && old(|groups|) <= |groups| <= filterIndex
        invariant |groups| == old(|groups|) ==> groups == old(groups) && pending == old(pending)
        invariant |groups| > old(|groups|) ==>
            pending == [] && old(groups) + [old(pending)] <= groups
            && forall i :: old(|groups|) < i < |groups| ==> groups[i] == []
        decreases filterIndex - |filterOffsets|
      {
        GenerateFilter();
      }
    }

    method AddKey(key: Bytes)
      requires Valid()
      modifies this
      ensures Valid() && pending == old(pending) + [key] && groups == old(groups)
    {
      FlattensOn(pending, keys, start, key);
      start := start + [|keys|];
      keys := keys + key;
      pending := pending + [key];
    }

    /** The filters, their offsets, where the offsets start, and the base. */
    method Finish() returns (data: Bytes)
      requires Valid()
      modifies this
      ensures Valid() && pending == []
      ensures groups == if old(pending) == [] then old(groups) else old(groups) + [old(pending)]
      ensures |data| < LIMIT32 ==> Holds(policy.hash, groups, data)
    {
      if start != [] {
        GenerateFilter();
      }
      data := AppendWords(policy.hash, groups, result, filterOffsets);
      pending := [];
    }

    method GenerateFilter()
      requires Valid()
      modifies this
      ensures Valid() && pending == [] && groups == old(groups) + [old(pending)]
      ensures |filterOffsets| == old(|filterOffsets|) + 1
    {
      var numKeys := |start|;
      ghost var before, offsets0, groups0 := result, filterOffsets, groups;
      if numKeys == 0 {
        GeneratesOn(policy.hash, groups, filterOffsets, result, result, []);
        filterOffsets := filterOffsets + [|result|];
        groups := groups + [pending];
        return;
      }
      var tmpKeys := ListKeys(keys, start + [|keys|], numKeys, pending);
      filterOffsets := filterOffsets + [|result|];
      result := policy.CreateFilter(tmpKeys, result);
      GeneratesOn(policy.hash, groups0, offsets0, before, result, pending);
      groups := groups + [pending];
      pending := [];
      keys, start := [], [];
    }

    /** The list of keys, from the flattened structure. */
    static method ListKeys(keys: Bytes, start: seq<nat>, numKeys: nat, ghost pending: seq<Bytes>) returns (list: seq<Bytes>)
      requires |start| == numKeys + 1 && start[numKeys] == |keys| && Flattened(pending, keys, start[..numKeys])
      ensures list == pending
    {
      list := [];
      for i := 0 to numKeys
        invariant list == pending[..i]
      {
        assert start[i + 1] == EndOf(start[..numKeys], i, |keys|);
        list := list + [keys[start[i]..start[i + 1]]];
      }
    }
  }

  /** A finished filter block. */
  ghost predicate Holds(hash: Hash, groups: seq<seq<Bytes>>, data: Bytes) {
    exists offsets, n: nat :: Layout(hash, groups, offsets, n, data)
  }

  ghost predicate Layout(hash: Hash, groups: seq<seq<Bytes>>, offsets: seq<nat>, n: nat, data: Bytes) {
    n + 4 * |offsets| + 5 == |data| && Generated(hash, groups, offsets, data[..n])
    && (forall i :: 0 <= i < |offsets| ==> DecodeFixed32(data, n + 4 * i) == offsets[i])
    && DecodeFixed32(data, |data| - 5) == n && data[|data| - 1] == BASE_LG
  }

  /** A number as a 32-bit field holds it. */
  function Cut32(n: nat): Word {
    if n < LIMIT32 then n else n % LIMIT32
  }

  /** Offsets are cut to 32 bits, as they are stored. */
  method AppendWords(hash: Hash, ghost groups: seq<seq<Bytes>>, result: Bytes, offsets: seq<nat>) returns (data: Bytes)
    requires Generated(hash, groups, offsets, result)
    ensures |data| < LIMIT32 ==> Holds(hash, groups, data)
  {
    data := AppendOffsets(result, offsets);
    ghost var before := data;
    data := data + Fixed32(Cut32(|result|)) + [BASE_LG];
    if |data| < LIMIT32 {
      WordsAre(hash, groups, offsets, result, before, data);
    }
  }

  method AppendOffsets(result: Bytes, offsets: seq<nat>) returns (data: Bytes)
    ensures |data| == |result| + 4 * |offsets| && data[..|result|] == result
    ensures forall j :: 0 <= j < |offsets| ==> data[|result| + 4 * j..|result| + 4 * j + 4] == Fixed32(Cut32(offsets[j]))
  {
    data := result;
    ghost var n := |result|;
    for i := 0 to |offsets|
      invariant |data| == n + 4 * i && data[..n] == result
      invariant forall j :: 0 <= j < i ==> data[n + 4 * j..n + 4 * j + 4] == Fixed32(Cut32(offsets[j]))
    {
      ghost var before := data;
      data := data + Fixed32(Cut32(offsets[i]));
      forall j | 0 <= j < i + 1
        ensures data[n + 4 * j..n + 4 * j + 4] == Fixed32(Cut32(offsets[j]))
      {
        if j < i {
          assert data[n + 4 * j..n + 4 * j + 4] == before[n + 4 * j..n + 4 * j + 4];
        }
      }
    }
  }

  lemma WordsAre(hash: Hash, groups: seq<seq<Bytes>>, offsets: seq<nat>, result: Bytes, before: Bytes, data: Bytes)
    requires Generated(hash, groups, offsets, result)
    requires |before| == |result| + 4 * |offsets| && before[..|result|] == result
    requires forall j :: 0 <= j < |offsets| ==>
               before[|result| + 4 * j..|result| + 4 * j + 4] == Fixed32(Cut32(offsets[j]))
    requires |data| < LIMIT32 && data == before + Fixed32(Cut32(|result|)) + [BASE_LG]
    ensures Layout(hash, groups, offsets, |result|, data)
  {
    LastWord(before, data, |result|);
    assert data[..|result|] == before[..|result|];
    OffsetsBounded(hash, groups, offsets, result);
    WordsRead(offsets, |result|, before, data);
  }

  lemma OffsetsBounded(hash: Hash, groups: seq<seq<Bytes>>, offsets: seq<nat>, result: Bytes)
    requires Generated(hash, groups, offsets, result)
    ensures forall j :: 0 <= j < |offsets| ==> offsets[j] <= |result|
  {
    forall j | 0 <= j < |offsets|
      ensures offsets[j] <= |result|
    {
      assert FilterAt(hash, groups[j], result, offsets[j], EndOf(offsets, j, |result|));
    }
  }

  lemma LastWord(before: Bytes, data: Bytes, n: Word)
    requires data == before + Fixed32(n) + [BASE_LG]
    ensures |data| == |before| + 5 && before <= data && data[|data| - 1] == BASE_LG
    ensures DecodeFixed32(data, |before|) == n
  {
    WordKept(before + Fixed32(n), data, |before|, n);
  }

  lemma WordsRead(words: seq<nat>, n: nat, before: Bytes, data: Bytes)
    requires |before| == n + 4 * |words| && before <= data
    requires forall j :: 0 <= j < |words| ==> words[j] < LIMIT32
    requires forall j :: 0 <= j < |words| ==> before[n + 4 * j..n + 4 * j + 4] == Fixed32(Cut32(words[j]))
    ensures forall j :: 0 <= j < |words| ==> DecodeFixed32(data, n + 4 * j) == words[j]
  {
    forall j | 0 <= j < |words|
      ensures DecodeFixed32(data, n + 4 * j) == words[j]
    {
      WordKept(before, data, n + 4 * j, words[j]);
    }
  }

  lemma WordKept(before: Bytes, data: Bytes, p: nat, word: Word)
    requires p + 4 <= |before| && before[p..p + 4] == Fixed32(word) && before <= data
    ensures DecodeFixed32(data, p) == word
  {
    assert data[p..p + 4] == before[p..p + 4];
    Fixed32RoundTrip(data, p, word);
  }

  function ShiftRight(n: nat, bits: nat): nat {
    if bits == 0 then n else ShiftRight(n / 2, bits - 1)
  }

  lemma ShiftByFour(n: nat, bits: nat)
    requires bits >= 4
    ensures ShiftRight(n, bits) == ShiftRight(n / 16, bits - 4)
  {
    assert ShiftRight(n / 2, bits - 1) == ShiftRight(n / 2 / 2, bits - 2);
    assert ShiftRight(n / 2 / 2, bits - 2) == ShiftRight(n / 2 / 2 / 2, bits - 3);
    assert ShiftRight(n / 2 / 2 / 2, bits - 3) == ShiftRight(n / 2 / 2 / 2 / 2, bits - 4);
  }

  lemma ShiftByBase(n: nat)
    ensures ShiftRight(n, BASE_LG) == n / 2048
  {
    ShiftByFour(n, 11);
    ShiftByFour(n / 16, 7);
    var m := n / 16 / 16;
    assert ShiftRight(m, 3) == ShiftRight(m / 2, 2);
    assert ShiftRight(m / 2, 2) == ShiftRight(m / 2 / 2, 1);
    assert ShiftRight(m / 2 / 2, 1) == ShiftRight(m / 2 / 2 / 2, 0);
  }

  class FilterBlockReader {
    const policy: BloomFilterPolicy
    const data: Bytes
    /** Where the array of offsets starts, and how many there are. */
    const offset: nat
    const num: nat
    const baseLg: Byte

    ghost predicate Valid() {
      num > 0 ==> offset + 4 * num + 5 <= |data|
    }

    constructor (policy: BloomFilterPolicy, contents: Bytes)
      ensures Valid() && this.policy == policy && data == contents
      ensures forall groups, offsets, n: nat :: Layout(policy.hash, groups, offsets, n, contents) ==>
                offset == n && num == |groups| && baseLg == BASE_LG
    {
      this.policy, data := policy, contents;
      var n := |contents|;
      if n < 5 {
        offset, num, baseLg := 0, 0, 0;
      } else {
        var lastWord := DecodeFixed32(contents, n - 5);
        baseLg := contents[n - 1];
        if lastWord > n - 5 {
          offset, num := 0, 0;
        } else {
          offset, num := lastWord, (n - 5 - lastWord) / 4;
        }
      }
    }

    /** The contents are a finished filter block with these groups of keys. */
    ghost predicate Reads(groups: seq<seq<Bytes>>) {
      (exists offsets :: Layout(policy.hash, groups, offsets, offset, data)) && num == |groups| && baseLg == BASE_LG
    }

    lemma GroupMatches(groups: seq<seq<Bytes>>, index: nat)
      requires Valid() && Reads(groups) && index < num
      ensures var start, limit := DecodeFixed32(data, offset + index * 4), DecodeFixed32(data, offset + index * 4 + 4);
              start <= limit <= offset && EachMatches(policy.hash, groups[index], data[start..limit])
    {
      var offsets :| Layout(policy.hash, groups, offsets, offset, data);
      FilterIsThere(policy.hash, groups, offsets, offset, data, index);
    }

    /** The verdict on a key: errors count as potential matches. */
    ghost predicate Accepts(blockOffset: nat, key: Bytes)
      requires Valid()
    {
      var index := ShiftRight(blockOffset, baseLg);
      index < num ==>
        var start, limit := DecodeFixed32(data, offset + index * 4), DecodeFixed32(data, offset + index * 4 + 4);
        if start <= limit <= offset then Matches(policy.hash, key, data[start..limit]) else start != limit
    }

    /** No key that was added for a block is turned away. */
    lemma AddedIsAccepted(groups: seq<seq<Bytes>>, blockOffset: nat, key: Bytes)
      requires Valid() && Reads(groups) && blockOffset / 2048 < |groups| && key in groups[blockOffset / 2048]
      ensures Accepts(blockOffset, key)
    {
      var index := blockOffset / 2048;
      ShiftByBase(blockOffset);
      GroupMatches(groups, index);
      var i :| 0 <= i < |groups[index]| && groups[index][i] == key;
    }

    method KeyMayMatch(blockOffset: nat, key: Bytes) returns (r: bool)
      requires Valid()
      ensures r == Accepts(blockOffset, key)
    {
      var index := ShiftRight(blockOffset, baseLg);
      if index < num {
        var start := DecodeFixed32(data, offset + index * 4);
        var limit := DecodeFixed32(data, offset + index * 4 + 4);
        if start <= limit && limit <= offset {
          r := policy.KeyMayMatch(key, data[start..limit]);
          return;
        } else if start == limit {
          return false;
        }
      }
      r := true;
    }
  }

  lemma FilterIsThere(hash: Hash, groups: seq<seq<Bytes>>, offsets: seq<nat>, n: nat, data: Bytes, index: nat)
    requires Layout(hash, groups, offsets, n, data) && index < |groups|
    ensures var start, limit := DecodeFixed32(data, n + index * 4), DecodeFixed32(data, n + index * 4 + 4);
            start <= limit <= n && EachMatches(hash, groups[index], data[start..limit])
  {
    var start, limit := offsets[index], EndOf(offsets, index, n);
    assert FilterAt(hash, groups[index], data[..n], start, limit);
    assert data[start..limit] == data[..n][start..limit];
    if index + 1 < |offsets| {
      assert DecodeFixed32(data, n + 4 * (index + 1)) == limit;
    }
  }

  /** A data block of a table: where it starts and its keys. */
  datatype DataBlock = DataBlock(offset: nat, keys: seq<Bytes>)

  /** The key is in the filter of its block, or still waiting for one. */
  ghost predicate Covered(groups: seq<seq<Bytes>>, pending: seq<Bytes>, index: nat, key: Bytes) {
    (index < |groups| && key in groups[index]) || (index == |groups| && key in pending)
  }

  ghost predicate AllCovered(groups: seq<seq<Bytes>>, pending: seq<Bytes>, blocks: seq<DataBlock>) {
    forall b, k :: 0 <= b < |blocks| && k in blocks[b].keys ==> Covered(groups, pending, blocks[b].offset / 2048, k)
  }

  /** Adds the keys of blocks whose offsets never decrease. */
  method AddBlocks(builder: FilterBlockBuilder, blocks: seq<DataBlock>)
    requires builder.Valid() && builder.groups == [] && builder.pending == []
    requires forall a, b :: 0 <= a < b < |blocks| ==> blocks[a].offset <= blocks[b].offset
    modifies builder
    ensures builder.Valid() && AllCovered(builder.groups, builder.pending, blocks)
  {
    for i := 0 to |blocks|
      invariant builder.Valid() && AllCovered(builder.groups, builder.pending, blocks[..i])
      invariant |builder.groups| == if i == 0 then 0 else blocks[i - 1].offset / 2048
    {
      var block := blocks[i];
      ghost var groups0, pending0 := builder.groups, builder.pending;
      if i > 0 {
        assert blocks[i - 1].offset <= block.offset;
        QuotientGrows(blocks[i - 1].offset, block.offset);
      }
      builder.StartBlock(block.offset);
      StillCovered(groups0, pending0, builder.groups, builder.pending, blocks[..i]);
      AddKeys(builder, block.keys, blocks[..i]);
      assert blocks[..i + 1] == blocks[..i] + [block];
    }
    assert blocks[..|blocks|] == blocks;
  }

  /** Closing filters takes the waiting keys along. */
  lemma StillCovered(groups0: seq<seq<Bytes>>, pending0: seq<Bytes>, groups: seq<seq<Bytes>>, pending: seq<Bytes>,
                     blocks: seq<DataBlock>)
    requires AllCovered(groups0, pending0, blocks)
    requires (groups == groups0 && pending == pending0) || groups0 + [pending0] <= groups
    ensures AllCovered(groups, pending, blocks)
  {
    forall b, k | 0 <= b < |blocks| && k in blocks[b].keys
      ensures Covered(groups, pending, blocks[b].offset / 2048, k)
    {
      assert Covered(groups0, pending0, blocks[b].offset / 2048, k);
    }
  }

  lemma QuotientGrows(a: nat, b: nat)
    requires a <= b
    ensures a / 2048 <= b / 2048
  {
  }

  method AddKeys(builder: FilterBlockBuilder, keys: seq<Bytes>, ghost blocks: seq<DataBlock>)
    requires builder.Valid() && AllCovered(builder.groups, builder.pending, blocks)
    modifies builder
    ensures builder.Valid() && builder.groups == old(builder.groups) && AllCovered(builder.groups, builder.pending, blocks)
    ensures forall k :: k in keys ==> k in builder.pending
  {
    for j := 0 to |keys|
      invariant builder.Valid() && builder.groups == old(builder.groups)
      invariant forall k :: k in old(builder.pending) || k in keys[..j] ==> k in builder.pending
    {
      assert keys[..j + 1] == keys[..j] + [keys[j]];
      builder.AddKey(keys[j]);
    }
    assert keys[..|keys|] == keys;
    forall b, k | 0 <= b < |blocks| && k in blocks[b].keys
      ensures Covered(builder.groups, builder.pending, blocks[b].offset / 2048, k)
    {
      assert Covered(old(builder.groups), old(builder.pending), blocks[b].offset / 2048, k);
    }
  }

  /** Builds the filter block of a table and asks it for one of the keys. */
  method NoFalseNegatives(policy: BloomFilterPolicy, blocks: seq<DataBlock>, b: nat, key: Bytes) returns (data: Bytes, r: bool)
    requires policy.Valid() && b < |blocks|
    requires forall a, b :: 0 <= a < b < |blocks| ==> blocks[a].offset <= blocks[b].offset
    ensures key in blocks[b].keys && |data| < LIMIT32 ==> r
  {
    var builder := new FilterBlockBuilder(policy);
    AddBlocks(builder, blocks);
    assert key in blocks[b].keys ==> Covered(builder.groups, builder.pending, blocks[b].offset / 2048, key);
    data := builder.Finish();
    var reader := new FilterBlockReader(policy, data);
    r := reader.KeyMayMatch(blocks[b].offset, key);
    if key in blocks[b].keys && |data| < LIMIT32 {
      ghost var offsets, n: nat :| Layout(policy.hash, builder.groups, offsets, n, data);
      reader.AddedIsAccepted(builder.groups, blocks[b].offset, key);
    }
  }
}
