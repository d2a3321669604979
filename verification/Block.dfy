/** Prefix-compressed blocks: the builder and the iterator
    (table/block_builder.cc, table/block.cc). Sizes stay below the 32-bit limits of the
    format. */
module Block {
  import opened Entries
  import opened Coding
  import opened Comparators

  ghost predicate Transitive(cmp: Order) {
    forall a, b, c :: cmp(a, b) < 0 && cmp(b, c) < 0 ==> cmp(a, c) < 0
  }

  datatype KV = KV(key: Bytes, value: Bytes)

  ghost predicate Fits(kv: KV) {
    |kv.key| < LIMIT32 && |kv.value| < LIMIT32
  }

  function EntryBytes(shared: nat, kv: KV): (r: Bytes)
    requires shared <= |kv.key|
    ensures |r| >= 3
  {
    Varint(shared) + Varint(|kv.key| - shared) + Varint(|kv.value|) + kv.key[shared..] + kv.value
  }

  // ------------------------------------------------------------- the layout

  /** What a block holds: its entries, where each starts, how much of the previous key
      each shares, and which entries are restart points. */
  datatype Layout = Layout(entries: seq<KV>, offs: seq<nat>, shares: seq<nat>, starts: seq<nat>) {
    ghost predicate Shape() {
      |offs| == |entries| + 1 && |shares| == |entries| && offs[0] == 0
      && |starts| > 0 && starts[0] == 0
      && (forall j, k :: 0 <= j < k < |starts| ==> starts[j] < starts[k])
      && (forall j :: 0 < j < |starts| ==> starts[j] < |entries|)
      && (forall i, k :: 0 <= i < k < |offs| ==> offs[i] < offs[k])
    }

    ghost function PrevKey(i: nat): Bytes
      requires i <= |entries|
    {
      if i == 0 then [] else entries[i - 1].key
    }

    /** Entry `i` is stored from its offset on, against the key before it. */
    ghost predicate Stored(data: Bytes, i: nat)
      requires Shape() && i < |entries|
    {
      offs[i] <= offs[i + 1] <= |data| && Fits(entries[i])
      && shares[i] <= |PrevKey(i)| && shares[i] <= |entries[i].key|
      && entries[i].key[..shares[i]] == PrevKey(i)[..shares[i]]
      && data[offs[i]..offs[i + 1]] == EntryBytes(shares[i], entries[i])
    }

    ghost predicate Ok(data: Bytes) {
      Shape() && offs[|entries|] == |data| && |data| < LIMIT32
      && (forall i :: 0 <= i < |entries| ==> Stored(data, i))
      && forall j :: 0 <= j < |starts| && starts[j] < |entries| ==> shares[starts[j]] == 0
    }

    /** There is a restart point every `interval` entries, and all other entries share as
        much as they can with the key before them. */
    ghost predicate Packed(interval: nat)
      requires Shape()
    {
      (forall j: nat :: EvenlySpaced(starts, j, interval))
      && |entries| <= starts[|starts| - 1] + interval
      && forall i :: 0 <= i < |entries| && i !in starts ==> Maximal(PrevKey(i), entries[i].key, shares[i])
    }

    ghost predicate Increasing(cmp: Order) {
      forall i, k :: 0 <= i < k < |entries| ==> cmp(entries[i].key, entries[k].key) < 0
    }
  }

  ghost predicate EvenlySpaced(starts: seq<nat>, j: nat, interval: nat) {
    j + 1 < |starts| ==> starts[j + 1] == starts[j] + interval
  }

  ghost predicate Maximal(a: Bytes, b: Bytes, n: nat) {
    n < |a| && n < |b| ==> a[n] != b[n]
  }

  // ------------------------------------------------------------- builder

  /** Length of the common prefix. */
  method SharedLength(a: Bytes, b: Bytes) returns (n: nat)
    ensures n <= |a| && n <= |b| && a[..n] == b[..n]
    ensures Maximal(a, b, n)
  {
    var minLength := if |a| < |b| then |a| else |b|;
    n := 0;
    while n < minLength && a[n] == b[n]
      invariant n <= minLength && a[..n] == b[..n]
    {
      n := n + 1;
    }
  }

  /** What a builder's fields say about the entries added so far. */
  ghost predicate Builds(lay: Layout, buffer: Bytes, lastKey: Bytes, restarts: seq<nat>, counter: nat) {
    lay.Ok(buffer) && lastKey == lay.PrevKey(|lay.entries|)
    && |restarts| == |lay.starts|
    && (forall j :: 0 <= j < |restarts| ==> lay.starts[j] < |lay.offs| && restarts[j] == lay.offs[lay.starts[j]])
    && counter == |lay.entries| - lay.starts[|lay.starts| - 1]
  }

  class BlockBuilder {
    const interval: nat
    var buffer: Bytes
    var restarts: seq<nat>
    var counter: nat
    var finished: bool
    var lastKey: Bytes
    ghost var lay: Layout

    ghost predicate Valid()
      reads this
    {
      interval >= 1 && counter <= interval
      && (!finished ==> Builds(lay, buffer, lastKey, restarts, counter))
    }

    constructor (interval: nat)
      requires interval >= 1
      ensures Valid() && !finished && lay.entries == [] && buffer == [] && lay.Packed(interval) && this.interval == interval
    {
      this.interval := interval;
      buffer, restarts, counter, finished, lastKey := [], [0], 0, false, [];
      lay := Layout([], [0], [], [0]);
    }

    method Reset()
      requires Valid()
      modifies this
      ensures Valid() && !finished && lay.entries == [] && lay.Packed(interval)
    {
      buffer, restarts, counter, finished, lastKey := [], [0], 0, false, [];
      lay := Layout([], [0], [], [0]);
    }

    method Add(key: Bytes, value: Bytes)
      requires Valid() && !finished && Fits(KV(key, value)) && lay.Packed(interval)
      requires |buffer| + |key| + |value| + 15 < LIMIT32
      modifies this
      ensures Valid() && !finished && lay.Packed(interval)
      ensures lay.entries == old(lay.entries) + [KV(key, value)]
      ensures |buffer| <= old(|buffer|) + |key| + |value| + 15
    {
      ghost var lay0, restart := lay, counter >= interval;
      ghost var shared := AddEntry(key, value);
      PackedOn(lay0, |buffer|, shared, KV(key, value), restart, interval);
    }

    method AddEntry(key: Bytes, value: Bytes) returns (ghost r: nat)
      requires Valid() && !finished && Fits(KV(key, value))
      requires |buffer| + |key| + |value| + 15 < LIMIT32
      modifies this
      ensures Valid() && !finished
      ensures lay == Extended(old(lay), |buffer|, r, KV(key, value), old(counter) >= interval)
      ensures old(counter) >= interval || Maximal(old(lastKey), key, r)
      ensures |buffer| <= old(|buffer|) + |key| + |value| + 15
    {
      ghost var lay0, data0, lastKey0, restarts0, counter0 := lay, buffer, lastKey, restarts, counter;
      ghost var restart := counter >= interval;
      var shared := 0;
      if counter < interval {
        shared := SharedLength(lastKey, key);
      } else {
        restarts := restarts + [|buffer|];
        counter := 0;
      }
      var entry := EncodeEntry(shared, key, value);
      buffer := buffer + entry;
      lastKey := lastKey[..shared] + key[shared..];
      counter := counter + 1;
      lay := Extended(lay0, |buffer|, shared, KV(key, value), restart);
      assert lastKey == key;
      BuildsOn(lay0, data0, lastKey0, restarts0, counter0, buffer, shared, KV(key, value), restart);
      r := shared;
    }

    /** Appends the restart array and its length. */
    method Finish() returns (data: Bytes)
      requires Valid() && !finished && |restarts| < LIMIT32
      modifies this
      ensures Valid() && finished && lay == old(lay)
      ensures BlockData(data, lay, |old(buffer)|)
    {
      OffsetsAreWords(lay, buffer, restarts);
      data := AppendWords(buffer, restarts);
      buffer := data;
      finished := true;
    }
  }

  /** The restart offsets and their count, behind the entries. */
  method AppendWords(contents: Bytes, words: seq<nat>) returns (data: Bytes)
    requires |words| < LIMIT32 && forall j :: 0 <= j < |words| ==> words[j] < LIMIT32
    ensures |data| == |contents| + 4 * |words| + 4 && data[..|contents|] == contents
    ensures forall j :: 0 <= j < |words| ==> DecodeFixed32(data, |contents| + 4 * j) == words[j]
    ensures DecodeFixed32(data, |data| - 4) == |words|
  {
    ghost var n := |contents|;
    data := contents;
    for i := 0 to |words|
      invariant |data| == n + 4 * i && data[..n] == contents
      invariant forall j :: 0 <= j < i ==> data[n + 4 * j..n + 4 * j + 4] == Fixed32(words[j])
    {
      ghost var before := data;
      data := data + Fixed32(words[i]);
      WordsKept(before, data, n, i, words);
    }
    ghost var before := data;
    data := data + Fixed32(|words|);
    forall j | 0 <= j < |words|
      ensures DecodeFixed32(data, n + 4 * j) == words[j]
    {
      assert data[n + 4 * j..n + 4 * j + 4] == before[n + 4 * j..n + 4 * j + 4];
      Fixed32RoundTrip(data, n + 4 * j, words[j]);
    }
    assert data[|data| - 4..|data| - 4 + 4] == Fixed32(|words|);
    Fixed32RoundTrip(data, |data| - 4, |words|);
    assert data[..n] == before[..n];
  }

  lemma WordsKept(before: Bytes, data: Bytes, n: nat, i: nat, words: seq<nat>)
    requires i < |words| && |before| == n + 4 * i
    requires forall j :: 0 <= j < |words| ==> words[j] < LIMIT32
    requires data == before + Fixed32(words[i])
    requires forall j :: 0 <= j < i ==> before[n + 4 * j..n + 4 * j + 4] == Fixed32(words[j])
    ensures data[..n] == before[..n]
    ensures forall j :: 0 <= j < i + 1 ==> data[n + 4 * j..n + 4 * j + 4] == Fixed32(words[j])
  {
    forall j | 0 <= j < i + 1
      ensures data[n + 4 * j..n + 4 * j + 4] == Fixed32(words[j])
    {
      if j < i {
        assert data[n + 4 * j..n + 4 * j + 4] == before[n + 4 * j..n + 4 * j + 4];
      }
    }
  }

  method EncodeEntry(shared: nat, key: Bytes, value: Bytes) returns (entry: Bytes)
    requires shared <= |key| && Fits(KV(key, value))
    ensures entry == EntryBytes(shared, KV(key, value)) && |entry| <= |key| + |value| + 15
  {
    var a := EncodeVarint32(shared);
    var b := EncodeVarint32(|key| - shared);
    var c := EncodeVarint32(|value|);
    entry := a + b + c + key[shared..] + value;
  }

  lemma OffsetsAreWords(lay: Layout, contents: Bytes, restarts: seq<nat>)
    requires lay.Ok(contents) && |restarts| == |lay.starts|
    requires forall j :: 0 <= j < |restarts| ==> lay.starts[j] < |lay.offs| && restarts[j] == lay.offs[lay.starts[j]]
    ensures forall j :: 0 <= j < |restarts| ==> restarts[j] < LIMIT32
  {
    assert forall j :: 0 <= j < |restarts| ==> restarts[j] <= lay.offs[|lay.entries|];
  }

  /** The layout with one more entry. */
  ghost function Extended(lay: Layout, end: nat, shared: nat, kv: KV, restart: bool): Layout {
    Layout(lay.entries + [kv], lay.offs + [end], lay.shares + [shared],
           if restart then lay.starts + [|lay.entries|] else lay.starts)
  }

  lemma BuildsOn(lay0: Layout, data0: Bytes, lastKey: Bytes, restarts: seq<nat>, counter: nat, data: Bytes, shared: nat,
                 kv: KV, restart: bool)
    requires Builds(lay0, data0, lastKey, restarts, counter) && |data| < LIMIT32 && Fits(kv)
    requires shared <= |kv.key| && shared <= |lastKey| && kv.key[..shared] == lastKey[..shared]
    requires restart ==> shared == 0 && counter > 0
    requires data == data0 + EntryBytes(shared, kv)
    ensures Builds(Extended(lay0, |data|, shared, kv, restart), data, kv.key,
                   if restart then restarts + [|data0|] else restarts, if restart then 1 else counter + 1)
  {
    LayoutGrows(lay0, Extended(lay0, |data|, shared, kv, restart), data0, data, shared, kv, restart);
  }

  lemma PackedOn(lay: Layout, end: nat, shared: nat, kv: KV, restart: bool, interval: nat)
    requires lay.Shape() && lay.Packed(interval) && Extended(lay, end, shared, kv, restart).Shape()
    requires var counter := |lay.entries| - lay.starts[|lay.starts| - 1];
             if restart then counter >= interval >= 1 else counter < interval && Maximal(lay.PrevKey(|lay.entries|), kv.key, shared)
    ensures Extended(lay, end, shared, kv, restart).Packed(interval)
  {
    var r := Extended(lay, end, shared, kv, restart);
    SpacedOn(lay, r, interval, restart);
    forall i | 0 <= i < |r.entries| && i !in r.starts
      ensures Maximal(r.PrevKey(i), r.entries[i].key, r.shares[i])
    {
      assert r.starts == if restart then lay.starts + [|lay.entries|] else lay.starts;
      assert i !in lay.starts && (restart ==> i != |lay.entries|);
      assert r.PrevKey(i) == lay.PrevKey(i);
    }
  }

  lemma SpacedOn(lay: Layout, r: Layout, interval: nat, restart: bool)
    requires lay.Shape() && lay.Packed(interval) && r.starts == if restart then lay.starts + [|lay.entries|] else lay.starts
    requires restart ==> |lay.entries| - lay.starts[|lay.starts| - 1] >= interval
    ensures forall j: nat :: EvenlySpaced(r.starts, j, interval)
  {
    forall j: nat
      ensures EvenlySpaced(r.starts, j, interval)
    {
      assert EvenlySpaced(lay.starts, j, interval);
    }
  }

  lemma LayoutGrows(lay0: Layout, lay: Layout, data0: Bytes, data: Bytes, shared: nat, kv: KV, restart: bool)
    requires lay0.Ok(data0) && |data| < LIMIT32 && Fits(kv)
    requires shared <= |kv.key| && shared <= |lay0.PrevKey(|lay0.entries|)|
    requires kv.key[..shared] == lay0.PrevKey(|lay0.entries|)[..shared]
    requires restart ==> shared == 0
    requires restart || lay0.entries == [] || lay0.starts[|lay0.starts| - 1] < |lay0.entries|
    requires restart ==> lay0.entries != []
    requires data == data0 + EntryBytes(shared, kv)
    requires lay == Extended(lay0, |data|, shared, kv, restart)
    ensures lay.Ok(data)
  {
    var n := |lay0.entries|;
    ShapeGrows(lay0, lay, |data|, shared, kv, restart);
    forall i: nat | i < n
      ensures lay.Stored(data, i)
    {
      StoredStays(lay0, lay, data0, data, i);
    }
    assert lay.PrevKey(n) == lay0.PrevKey(n);
    assert data[|data0|..|data|] == EntryBytes(shared, kv);
    assert lay.Stored(data, n);
    RestartsShareNothing(lay0, lay, data0, shared, restart);
  }

  lemma ShapeGrows(lay0: Layout, lay: Layout, end: nat, shared: nat, kv: KV, restart: bool)
    requires lay0.Shape() && lay0.offs[|lay0.entries|] < end && lay == Extended(lay0, end, shared, kv, restart)
    requires restart || lay0.entries == [] || lay0.starts[|lay0.starts| - 1] < |lay0.entries|
    requires restart ==> lay0.entries != [] && lay0.starts[|lay0.starts| - 1] < |lay0.entries|
    ensures lay.Shape()
  {
    assert forall j :: 0 <= j < |lay0.starts| ==> lay.starts[j] == lay0.starts[j];
  }

  lemma StoredStays(lay0: Layout, lay: Layout, data0: Bytes, data: Bytes, i: nat)
    requires lay0.Shape() && lay.Shape() && i < |lay0.entries| && lay0.Stored(data0, i) && data0 <= data
    requires lay0.entries <= lay.entries && lay0.offs <= lay.offs && lay0.shares <= lay.shares
    ensures lay.Stored(data, i)
  {
    assert lay.PrevKey(i) == lay0.PrevKey(i);
    assert data[lay.offs[i]..lay.offs[i + 1]] == data0[lay0.offs[i]..lay0.offs[i + 1]];
  }

  lemma RestartsShareNothing(lay0: Layout, lay: Layout, data0: Bytes, shared: nat, restart: bool)
    requires lay0.Ok(data0) && lay.Shape() && |lay.entries| == |lay0.entries| + 1 && lay.shares == lay0.shares + [shared]
    requires lay.starts == if restart then lay0.starts + [|lay0.entries|] else lay0.starts
    requires shared <= |lay0.PrevKey(|lay0.entries|)| && (restart ==> shared == 0)
    requires restart || lay0.entries == [] || lay0.starts[|lay0.starts| - 1] < |lay0.entries|
    ensures forall j :: 0 <= j < |lay.starts| && lay.starts[j] < |lay.entries| ==> lay.shares[lay.starts[j]] == 0
  {
    var n := |lay0.entries|;
    forall j | 0 <= j < |lay.starts| && lay.starts[j] < |lay.entries|
      ensures lay.shares[lay.starts[j]] == 0
    {
      if lay.starts[j] < n {
        assert lay0.shares[lay0.starts[j]] == 0;
      }
    }
  }

  // ----------------------------------------------------------- finished data

  /** A finished block: entries up to `restarts`, the restart array, and its length. */
  ghost predicate BlockData(data: Bytes, lay: Layout, restarts: nat) {
    restarts + 4 * |lay.starts| + 4 == |data|
    && lay.Ok(data[..restarts])
    && DecodeFixed32(data, |data| - 4) == |lay.starts|
    && forall j :: 0 <= j < |lay.starts| ==>
         lay.starts[j] < |lay.offs| && DecodeFixed32(data, restarts + 4 * j) == lay.offs[lay.starts[j]]
  }

  /** The bytes of an entry lie from `p` to `q`, before `limit`. */
  ghost predicate EntryAt(data: Bytes, p: nat, q: nat, limit: nat, shared: nat, kv: KV) {
    p <= q <= limit <= |data| && Fits(kv) && shared <= |kv.key|
    && data[p..q] == EntryBytes(shared, kv)
  }

  /** Where the parts of an entry lie. */
  lemma EntryParts(data: Bytes, p: nat, q: nat, limit: nat, shared: nat, kv: KV)
    requires EntryAt(data, p, q, limit, shared, kv)
    ensures var a, b, c := |Varint(shared)|, |Varint(|kv.key| - shared)|, |Varint(|kv.value|)|;
            var d := |kv.key| - shared;
            q == p + a + b + c + d + |kv.value|
            && VarintAt(data, p, limit, shared) && VarintAt(data, p + a, limit, d)
            && VarintAt(data, p + a + b, limit, |kv.value|)
            && data[p + a + b + c..p + a + b + c + d] == kv.key[shared..]
            && data[p + a + b + c + d..q] == kv.value
  {
    var x, y, z := PartsOf(data, p, q, limit, shared, kv);
    VarintIsAt(data, p, limit, shared, x);
    VarintIsAt(data, p + |x|, limit, |kv.key| - shared, y);
    VarintIsAt(data, p + |x| + |y|, limit, |kv.value|, z);
  }

  lemma PartsOf(data: Bytes, p: nat, q: nat, limit: nat, shared: nat, kv: KV) returns (x: Bytes, y: Bytes, z: Bytes)
    requires EntryAt(data, p, q, limit, shared, kv)
    ensures x == Varint(shared) && y == Varint(|kv.key| - shared) && z == Varint(|kv.value|)
    ensures var d := |kv.key| - shared;
            q == p + |x| + |y| + |z| + d + |kv.value| && data[p..p + |x|] == x && data[p + |x|..p + |x| + |y|] == y
            && data[p + |x| + |y|..p + |x| + |y| + |z|] == z
            && data[p + |x| + |y| + |z|..p + |x| + |y| + |z| + d] == kv.key[shared..]
            && data[p + |x| + |y| + |z| + d..q] == kv.value
  {
    x, y, z := Varint(shared), Varint(|kv.key| - shared), Varint(|kv.value|);
    FiveParts(data, p, q, x, y, z, kv.key[shared..], kv.value);
  }

  lemma VarintIsAt(data: Bytes, p: nat, limit: nat, v: nat, b: Bytes)
    requires b == Varint(v) && p + |b| <= limit <= |data| && data[p..p + |b|] == b
    ensures VarintAt(data, p, limit, v)
  {
  }

  lemma FiveParts(data: Bytes, p: nat, q: nat, x: Bytes, y: Bytes, z: Bytes, k: Bytes, v: Bytes)
    requires p <= q <= |data| && data[p..q] == x + y + z + k + v
    ensures q == p + |x| + |y| + |z| + |k| + |v|
    ensures data[p..p + |x|] == x && data[p + |x|..p + |x| + |y|] == y
    ensures data[p + |x| + |y|..p + |x| + |y| + |z|] == z
    ensures data[p + |x| + |y| + |z|..p + |x| + |y| + |z| + |k|] == k
    ensures data[p + |x| + |y| + |z| + |k|..q] == v
  {
    var e := data[p..q];
    assert e == [] + x + (y + z + k + v);
    Part(data, p, q, [], x, y + z + k + v);
    assert e == x + y + (z + k + v);
    Part(data, p, q, x, y, z + k + v);
    assert e == (x + y) + z + (k + v);
    Part(data, p, q, x + y, z, k + v);
    Part(data, p, q, x + y + z, k, v);
    assert e == (x + y + z + k) + v + [];
    Part(data, p, q, x + y + z + k, v, []);
  }

  lemma Part(data: Bytes, p: nat, q: nat, a: Bytes, b: Bytes, c: Bytes)
    requires p <= q <= |data| && data[p..q] == a + b + c
    ensures p + |a| + |b| <= q
    ensures data[p + |a|..p + |a| + |b|] == b
  {
    forall i | 0 <= i < |b|
      ensures data[p + |a| + i] == b[i]
    {
      assert data[p..q][|a| + i] == (a + b + c)[|a| + i];
    }
  }

  datatype Header = Header(shared: nat, nonShared: nat, valueLength: nat, p: nat)

  /** The encodings of three lengths lie at `p`, one behind the other. */
  ghost predicate LengthsAt(data: Bytes, p: nat, limit: nat, s: nat, d: nat, l: nat) {
    s < LIMIT32 && d < LIMIT32 && l < LIMIT32
    && VarintAt(data, p, limit, s) && VarintAt(data, p + |Varint(s)|, limit, d)
    && VarintAt(data, p + |Varint(s)| + |Varint(d)|, limit, l)
  }

  lemma ShortLengths(data: Bytes, p: nat, limit: nat, s: nat, d: nat, l: nat)
    requires LengthsAt(data, p, limit, s, d, l)
    requires p + 3 <= |data| && data[p] < 128 && data[p + 1] < 128 && data[p + 2] < 128
    ensures |Varint(s)| == |Varint(d)| == |Varint(l)| == 1
    ensures data[p] as int == s && data[p + 1] as int == d && data[p + 2] as int == l
  {
    VarintAtStep(data, p, limit, s);
    VarintAtStep(data, p + |Varint(s)|, limit, d);
    VarintAtStep(data, p + |Varint(s)| + |Varint(d)|, limit, l);
  }

  method DecodeLongLengths(data: Bytes, p: nat, limit: nat, ghost s: nat, ghost d: nat, ghost l: nat)
    returns (r: Option<Header>)
    requires limit <= |data|
    ensures r.Some? ==> p + 3 <= r.value.p <= limit
    ensures LengthsAt(data, p, limit, s, d, l) ==>
              r == Some(Header(s, d, l, p + |Varint(s)| + |Varint(d)| + |Varint(l)|))
  {
    var x := GetVarint32Ptr(data, p, limit, s);
    if x.None? {
      return None;
    }
    var y := GetVarint32Ptr(data, x.value.1, limit, d);
    if y.None? {
      return None;
    }
    var z := GetVarint32Ptr(data, y.value.1, limit, l);
    if z.None? {
      return None;
    }
    r := Some(Header(x.value.0, y.value.0, z.value.0, z.value.1));
  }

  /** The three lengths at the start of an entry; the fast path reads one byte each. */
  method DecodeLengths(data: Bytes, p: nat, limit: nat, ghost s: nat, ghost d: nat, ghost l: nat)
    returns (r: Option<Header>)
    requires limit <= |data|
    ensures r.Some? ==> p + 3 <= r.value.p <= limit
    ensures LengthsAt(data, p, limit, s, d, l) ==>
              r == Some(Header(s, d, l, p + |Varint(s)| + |Varint(d)| + |Varint(l)|))
  {
    if limit < p + 3 {
      return None;
    }
    if data[p] < 128 && data[p + 1] < 128 && data[p + 2] < 128 {
      if LengthsAt(data, p, limit, s, d, l) {
        ShortLengths(data, p, limit, s, d, l);
      }
      return Some(Header(data[p] as int, data[p + 1] as int, data[p + 2] as int, p + 3));
    }
    r := DecodeLongLengths(data, p, limit, s, d, l);
  }

  /** Decodes the start of an entry; the key delta and the value follow it. */
  method DecodeEntry(data: Bytes, p: nat, limit: nat, ghost q: nat, ghost shared: nat, ghost kv: KV)
    returns (r: Option<Header>)
    requires limit <= |data|
    ensures r.Some? ==> p + 3 <= r.value.p && r.value.p + r.value.nonShared + r.value.valueLength <= limit
    ensures EntryAt(data, p, q, limit, shared, kv) ==>
              r.Some? && r.value.shared == shared && r.value.nonShared == |kv.key| - shared
              && r.value.valueLength == |kv.value| && r.value.p + r.value.nonShared + r.value.valueLength == q
              && data[r.value.p..r.value.p + r.value.nonShared] == kv.key[shared..]
              && data[r.value.p + r.value.nonShared..q] == kv.value
  {
    ghost var good := EntryAt(data, p, q, limit, shared, kv);
    if good {
      EntryParts(data, p, q, limit, shared, kv);
    }
    var h := DecodeLengths(data, p, limit, shared, if good then |kv.key| - shared else 0, |kv.value|);
    if h.None? || limit - h.value.p < h.value.nonShared + h.value.valueLength {
      return None;
    }
    r := h;
  }

  // ----------------------------------------------------------------- iterator

  class BlockIter {
    const cmp: Order
    const data: Bytes
    /** Offset of the restart array, and its length. */
    const restarts: nat
    const numRestarts: nat
    /** Offset of the current entry; `restarts` when not valid. */
    var current: nat
    var restartIndex: nat
    var key: Bytes
    /** The value is a slice of the data. */
    var valueStart: nat
    var valueLength: nat
    var corrupt: bool

    constructor (cmp: Order, data: Bytes, restarts: nat, numRestarts: nat)
      requires numRestarts > 0 && restarts + 4 * numRestarts + 4 <= |data|
      ensures this.cmp == cmp && this.data == data && this.restarts == restarts && this.numRestarts == numRestarts
      ensures Sound() && !corrupt
    {
      this.cmp, this.data, this.restarts, this.numRestarts := cmp, data, restarts, numRestarts;
      current, restartIndex := restarts, numRestarts;
      key, valueStart, valueLength, corrupt := [], 0, 0, false;
    }

    predicate Valid()
      reads this
    {
      current < restarts
    }

    ghost predicate Sound()
      reads this
    {
      numRestarts > 0 && restarts + 4 * numRestarts + 4 <= |data|
      && (Valid() ==> restartIndex < numRestarts && current < NextEntryOffset() <= restarts)
    }

    function Value(): Bytes
      requires Sound() && Valid() && valueStart + valueLength <= |data|
      reads this
    {
      data[valueStart..valueStart + valueLength]
    }

    function NextEntryOffset(): nat
      reads this
    {
      valueStart + valueLength
    }

    function GetRestartPoint(index: nat): nat
      requires restarts + 4 * numRestarts + 4 <= |data| && index < numRestarts
    {
      DecodeFixed32(data, restarts + 4 * index)
    }

    /** The iterator's data is a finished block. */
    ghost predicate Holds(lay: Layout) {
      BlockData(data, lay, restarts) && numRestarts == |lay.starts|
    }

    /** At entry `i`; the number of entries stands for "not valid". */
    ghost predicate At(lay: Layout, i: nat)
      requires Holds(lay)
      reads this
    {
      Sound() && !corrupt && i <= |lay.entries|
      && if i == |lay.entries| then !Valid()
         else current == lay.offs[i] && key == lay.entries[i].key
              && NextEntryOffset() == lay.offs[i + 1] && valueStart <= |data| && Value() == lay.entries[i].value
              && restartIndex < numRestarts && lay.starts[restartIndex] <= i
              && (restartIndex + 1 < numRestarts ==> lay.starts[restartIndex + 1] >= i)
    }

    /** Ready to parse entry `i` next. */
    ghost predicate Ready(lay: Layout, i: nat)
      requires Holds(lay)
      reads this
    {
      !corrupt && i <= |lay.entries| && NextEntryOffset() == lay.offs[i]
      && restartIndex < numRestarts && lay.starts[restartIndex] <= i
      && (i < |lay.entries| ==>
            lay.shares[i] <= |key| && lay.shares[i] <= |lay.entries[i].key| && key[..lay.shares[i]] == lay.entries[i].key[..lay.shares[i]])
    }

    lemma AtIsReady(lay: Layout, i: nat)
      requires Holds(lay) && At(lay, i) && i < |lay.entries|
      ensures Ready(lay, i + 1)
    {
      if i + 1 < |lay.entries| {
        assert lay.Stored(data[..restarts], i + 1);
      }
    }

    lemma EntryIsThere(lay: Layout, i: nat)
      requires Holds(lay) && i < |lay.entries|
      ensures EntryAt(data, lay.offs[i], lay.offs[i + 1], restarts, lay.shares[i], lay.entries[i])
      ensures lay.offs[i + 1] <= restarts
    {
      assert lay.Stored(data[..restarts], i);
      assert data[lay.offs[i]..lay.offs[i + 1]] == data[..restarts][lay.offs[i]..lay.offs[i + 1]];
    }

    method CorruptionError()
      requires numRestarts > 0 && restarts + 4 * numRestarts + 4 <= |data|
      modifies this
      ensures Sound() && !Valid() && corrupt
    {
      current, restartIndex := restarts, numRestarts;
      corrupt := true;
      key, valueStart, valueLength := [], 0, 0;
    }

    method SeekToRestartPoint(index: nat, ghost lay: Layout)
      requires restarts + 4 * numRestarts + 4 <= |data| && index < numRestarts
      modifies this`key, this`restartIndex, this`valueStart, this`valueLength
      ensures restartIndex == index && NextEntryOffset() == GetRestartPoint(index)
      ensures Holds(lay) && !corrupt ==> Ready(lay, lay.starts[index])
    {
      key := [];
      restartIndex := index;
      valueStart, valueLength := GetRestartPoint(index), 0;
    }

    /** Parses the entry after the current value. */
    method ParseNextKey(ghost lay: Layout, ghost i: nat) returns (ok: bool)
      requires numRestarts > 0 && restarts + 4 * numRestarts + 4 <= |data| && restartIndex < numRestarts
      modifies this
      ensures Sound() && ok == Valid()
      ensures ok ==> NextEntryOffset() > old(NextEntryOffset()) && restartIndex < numRestarts
      ensures Holds(lay) && old(Ready(lay, i)) ==> At(lay, i)
    {
      ghost var good := Holds(lay) && Ready(lay, i);
      ghost var here := good && i < |lay.entries|;
      current := NextEntryOffset();
      if current >= restarts {
        current, restartIndex := restarts, numRestarts;
        return false;
      }
      if here {
        EntryIsThere(lay, i);
      }
      var h := DecodeEntry(data, current, restarts, if here then lay.offs[i + 1] else 0,
                           if here then lay.shares[i] else 0, if here then lay.entries[i] else KV([], []));
      if h.None? || |key| < h.value.shared {
        CorruptionError();
        return false;
      }
      TakeEntry(h.value, lay, i, here);
      ok := true;
    }

    /** Takes over the entry whose start was decoded. */
    method TakeEntry(h: Header, ghost lay: Layout, ghost i: nat, ghost here: bool)
      requires numRestarts > 0 && restarts + 4 * numRestarts + 4 <= |data| && restartIndex < numRestarts
      requires h.shared <= |key| && current < h.p && h.p + h.nonShared + h.valueLength <= restarts
      requires here ==> Holds(lay) && !corrupt && i < |lay.entries| && Decoded(lay, i, h)
      modifies this`key, this`valueStart, this`valueLength, this`restartIndex
      ensures Sound() && restartIndex < numRestarts && NextEntryOffset() == h.p + h.nonShared + h.valueLength
      ensures here ==> At(lay, i)
    {
      if here {
        assert lay.entries[i].key == lay.entries[i].key[..h.shared] + lay.entries[i].key[h.shared..];
      }
      key := key[..h.shared] + data[h.p..h.p + h.nonShared];
      valueStart, valueLength := h.p + h.nonShared, h.valueLength;
      AdvanceRestart(lay, i, here);
    }

    /** The start of entry `i` was decoded, and the key before it is still there. */
    ghost predicate Decoded(lay: Layout, i: nat, h: Header)
      requires Holds(lay) && i < |lay.entries|
      reads this
    {
      var kv := lay.entries[i];
      && current == lay.offs[i] && restartIndex < numRestarts && lay.starts[restartIndex] <= i
      && h.shared <= |key| && h.shared <= |kv.key| && key[..h.shared] == kv.key[..h.shared]
      && h.p + h.nonShared + h.valueLength == lay.offs[i + 1] <= |data|
      && data[h.p..h.p + h.nonShared] == kv.key[h.shared..] && data[h.p + h.nonShared..lay.offs[i + 1]] == kv.value
    }

    /** Moves the restart index up to the last restart point before the current entry. */
    method AdvanceRestart(ghost lay: Layout, ghost i: nat, ghost here: bool)
      requires restarts + 4 * numRestarts + 4 <= |data| && restartIndex < numRestarts
      requires here ==> Holds(lay) && i < |lay.entries| && current == lay.offs[i] && lay.starts[restartIndex] <= i
      modifies this`restartIndex
      ensures restartIndex < numRestarts
      ensures here ==> lay.starts[restartIndex] <= i && (restartIndex + 1 < numRestarts ==> lay.starts[restartIndex + 1] >= i)
    {
      while restartIndex + 1 < numRestarts && GetRestartPoint(restartIndex + 1) < current
        invariant restartIndex < numRestarts
        invariant here ==> lay.starts[restartIndex] <= i
        decreases numRestarts - restartIndex
      {
        restartIndex := restartIndex + 1;
      }
    }

    /** Parses the entry after entry `i`. */
    method ParseOn(ghost lay: Layout, ghost i: nat) returns (ok: bool)
      requires Sound() && Valid()
      modifies this
      ensures Sound() && ok == Valid()
      ensures ok ==> NextEntryOffset() > old(NextEntryOffset()) && restartIndex < numRestarts
      ensures Holds(lay) && i < |lay.entries| && old(At(lay, i)) ==> At(lay, i + 1)
    {
      if Holds(lay) && i < |lay.entries| && At(lay, i) {
        AtIsReady(lay, i);
      }
      ok := ParseNextKey(lay, i + 1);
    }

    method Next(ghost lay: Layout, ghost i: nat)
      requires Sound() && Valid()
      modifies this
      ensures Sound()
      ensures Holds(lay) && i < |lay.entries| && old(At(lay, i)) ==> At(lay, i + 1)
    {
      var ok := ParseOn(lay, i);
    }

    method SeekToFirst(ghost lay: Layout)
      requires Sound()
      modifies this
      ensures Sound()
      ensures Holds(lay) && !old(corrupt) ==> At(lay, 0)
    {
      SeekToRestartPoint(0, lay);
      var ok := ParseNextKey(lay, 0);
    }

    /** Steps back: to a restart point before the current entry, and forward from there. */
    method Prev(ghost lay: Layout, ghost i: nat)
      requires Sound() && Valid()
      modifies this
      ensures Sound()
      ensures Holds(lay) && i < |lay.entries| && old(At(lay, i)) ==>
                if i == 0 then At(lay, |lay.entries|) else At(lay, i - 1)
    {
      ghost var good := Holds(lay) && i < |lay.entries| && At(lay, i);
      var original := current;
      while GetRestartPoint(restartIndex) >= original
        invariant restartIndex < numRestarts && current == original
        invariant corrupt == old(corrupt)
        invariant good ==> restartIndex + 1 < numRestarts ==> lay.starts[restartIndex + 1] >= i
        decreases restartIndex
      {
        if restartIndex == 0 {
          current, restartIndex := restarts, numRestarts;
          return;
        }
        restartIndex := restartIndex - 1;
      }
      ScanBefore(original, lay, i, good);
    }

    /** Parses from a restart point up to the entry that ends where `original` starts. */
    method ScanBefore(original: nat, ghost lay: Layout, ghost i: nat, ghost good: bool)
      requires restarts + 4 * numRestarts + 4 <= |data| && restartIndex < numRestarts
      requires good ==> Holds(lay) && !corrupt && i < |lay.entries| && original == lay.offs[i] && lay.starts[restartIndex] < i
      modifies this
      ensures Sound()
      ensures good ==> i > 0 && At(lay, i - 1)
    {
      ghost var k: nat := if good then lay.starts[restartIndex] else 0;
      SeekToRestartPoint(restartIndex, lay);
      var ok := ParseNextKey(lay, k);
      while ok && NextEntryOffset() < original
        invariant Sound() && (ok ==> Valid() && restartIndex < numRestarts)
        invariant good ==> k < i && ok && At(lay, k)
        decreases ok, |data| - NextEntryOffset()
      {
        ok := ParseOn(lay, k);
        k := k + 1;
      }
      assert good ==> k == i - 1;
    }

    method SeekToLast(ghost lay: Layout)
      requires Sound()
      modifies this
      ensures Sound()
      ensures Holds(lay) && !old(corrupt) ==> if lay.entries == [] then At(lay, 0) else At(lay, |lay.entries| - 1)
    {
      ghost var good := Holds(lay) && !corrupt;
      ghost var k: nat := if good then lay.starts[numRestarts - 1] else 0;
      SeekToRestartPoint(numRestarts - 1, lay);
      var ok := ParseNextKey(lay, k);
      while ok && NextEntryOffset() < restarts
        invariant Sound() && (ok ==> Valid() && restartIndex < numRestarts)
        invariant good ==> At(lay, k) && ok == (k < |lay.entries|) && (k < |lay.entries| || lay.entries == [])
        decreases ok, |data| - NextEntryOffset()
      {
        if good {
          MoreToCome(lay, k);
        }
        ok := ParseOn(lay, k);
        k := k + 1;
      }
      if good && ok {
        NoMoreToCome(lay, k);
      }
    }

    lemma MoreToCome(lay: Layout, k: nat)
      requires Holds(lay) && At(lay, k) && k < |lay.entries| && NextEntryOffset() < restarts
      ensures k + 1 < |lay.entries|
    {
    }

    lemma NoMoreToCome(lay: Layout, k: nat)
      requires Holds(lay) && At(lay, k) && k < |lay.entries| && NextEntryOffset() >= restarts
      ensures k == |lay.entries| - 1
    {
      assert forall i :: k + 1 < i < |lay.offs| ==> lay.offs[k + 1] < lay.offs[i];
    }

    /** Lands on the first entry whose key is at or after the target. */
    method Seek(target: Bytes, ghost lay: Layout) returns (ghost k: nat)
      requires Sound() && Transitive(cmp)
      modifies this
      ensures Sound()
      ensures Holds(lay) && lay.Increasing(cmp) && !old(corrupt) ==> Sought(lay, target, k)
    {
      ghost var good := Holds(lay) && lay.Increasing(cmp) && !corrupt;
      var ok, left := SeekRestart(target, lay);
      k := 0;
      if ok {
        k := ScanFor(target, left, lay, good);
      }
    }

    /** What a seek ends with. */
    ghost predicate Sought(lay: Layout, target: Bytes, k: nat)
      requires Holds(lay)
      reads this
    {
      k <= |lay.entries| && At(lay, k) && Passed(lay, target, k)
      && forall j :: k <= j < |lay.entries| ==> cmp(lay.entries[j].key, target) >= 0
    }

    /** The first `k` keys are before the target. */
    ghost predicate Passed(lay: Layout, target: Bytes, k: nat) {
      k <= |lay.entries| && forall j :: 0 <= j < k ==> cmp(lay.entries[j].key, target) < 0
    }

    /** At the end, or at an entry that is not before the target. */
    ghost predicate Stopped(lay: Layout, target: Bytes, k: nat)
      requires Holds(lay)
      reads this
    {
      At(lay, k) && (k < |lay.entries| ==> cmp(lay.entries[k].key, target) >= 0)
    }

    /** Linear search from a restart point. */
    method ScanFor(target: Bytes, left: nat, ghost lay: Layout, ghost good: bool) returns (ghost k: nat)
      requires restarts + 4 * numRestarts + 4 <= |data| && left < numRestarts && Transitive(cmp)
      requires good ==> Holds(lay) && !corrupt && lay.Increasing(cmp) && Passed(lay, target, lay.starts[left])
      modifies this
      ensures Sound()
      ensures good ==> Sought(lay, target, k)
    {
      k := if good then lay.starts[left] else 0;
      SeekToRestartPoint(left, lay);
      k := ScanAll(target, lay, k, good);
      if good {
        NotBefore(lay, target, k);
      }
    }

    method ScanAll(target: Bytes, ghost lay: Layout, ghost from: nat, ghost good: bool) returns (ghost k: nat)
      requires restarts + 4 * numRestarts + 4 <= |data| && restartIndex < numRestarts
      requires good ==> Holds(lay) && Ready(lay, from) && Passed(lay, target, from)
      modifies this
      ensures Sound()
      ensures good ==> Passed(lay, target, k) && Stopped(lay, target, k)
    {
      k := from;
      var more := true;
      while more
        invariant if more then restartIndex < numRestarts else Sound()
        invariant good ==> Passed(lay, target, k) && if more then Ready(lay, k) else Stopped(lay, target, k)
        decreases more, restarts - NextEntryOffset()
      {
        more := ScanOn(target, lay, k, good);
        if more {
          k := k + 1;
        }
      }
    }

    /** Parses one entry; more is to be parsed when its key is before the target. */
    method ScanOn(target: Bytes, ghost lay: Layout, ghost k: nat, ghost good: bool) returns (more: bool)
      requires restarts + 4 * numRestarts + 4 <= |data| && restartIndex < numRestarts
      requires good ==> Holds(lay) && Ready(lay, k)
      modifies this
      ensures Sound()
      ensures more ==> NextEntryOffset() > old(NextEntryOffset()) && restartIndex < numRestarts && old(NextEntryOffset()) < restarts
      ensures good && !more ==> Stopped(lay, target, k)
      ensures good && more ==> k < |lay.entries| && cmp(lay.entries[k].key, target) < 0 && Ready(lay, k + 1)
    {
      var ok := ParseNextKey(lay, k);
      more := ok && cmp(key, target) < 0;
      if good && more {
        AtIsReady(lay, k);
      }
    }

    lemma NotBefore(lay: Layout, target: Bytes, k: nat)
      requires Holds(lay) && lay.Increasing(cmp) && Transitive(cmp) && k <= |lay.entries|
      requires k < |lay.entries| ==> cmp(lay.entries[k].key, target) >= 0
      ensures forall j :: k <= j < |lay.entries| ==> cmp(lay.entries[j].key, target) >= 0
    {
    }

    /** Binary search for the last restart point whose key is before the target. */
    method SeekRestart(target: Bytes, ghost lay: Layout) returns (ok: bool, left: nat)
      requires Sound() && Transitive(cmp)
      modifies this
      ensures Sound() && left < numRestarts && (ok ==> corrupt == old(corrupt))
      ensures Holds(lay) && lay.Increasing(cmp) ==> ok && Passed(lay, target, lay.starts[left])
    {
      ghost var good := Holds(lay) && lay.Increasing(cmp);
      left := 0;
      var right := numRestarts - 1;
      while left < right
        invariant left <= right < numRestarts && corrupt == old(corrupt) && Sound()
        invariant good ==> Passed(lay, target, lay.starts[left])
      {
        var mid := (left + right + 1) / 2;
        var offset := GetRestartPoint(mid);
        ghost var i: nat := if good then lay.starts[mid] else 0;
        if good {
          EntryIsThere(lay, i);
        }
        var h := DecodeEntry(data, offset, restarts, if good then lay.offs[i + 1] else 0, 0,
                             if good then lay.entries[i] else KV([], []));
        if h.None? || h.value.shared != 0 {
          CorruptionError();
          return false, left;
        }
        var midKey := data[h.value.p..h.value.p + h.value.nonShared];
        assert good ==> midKey == lay.entries[i].key;
        if cmp(midKey, target) < 0 {
          left := mid;
        } else {
          right := mid - 1;
        }
      }
      ok := true;
    }
  }

  /** An iterator over a block's contents; none for contents that are no block, or that
      have no restart points. */
  method NewIterator(cmp: Order, data: Bytes) returns (iter: BlockIter?)
    ensures iter != null ==> fresh(iter) && iter.cmp == cmp && iter.data == data && iter.Sound() && !iter.corrupt
    ensures forall lay, restarts: nat :: BlockData(data, lay, restarts) ==> iter != null && iter.Holds(lay)
  {
    if |data| < 4 {
      return null;
    }
    var numRestarts := DecodeFixed32(data, |data| - 4);
    var maxRestartsAllowed := (|data| - 4) / 4;
    if numRestarts > maxRestartsAllowed || numRestarts == 0 {
      return null;
    }
    iter := new BlockIter(cmp, data, |data| - (1 + numRestarts) * 4, numRestarts);
  }

  /** An upper bound for the size of a block's entries. */
  function SizeBound(entries: seq<KV>): nat {
    if entries == [] then 0
    else SizeBound(entries[..|entries| - 1]) + |entries[|entries| - 1].key| + |entries[|entries| - 1].value| + 15
  }

  lemma {:induction false} SizeBoundGrows(entries: seq<KV>, n: nat)
    requires n <= |entries|
    ensures SizeBound(entries[..n]) + 15 * (|entries| - n) <= SizeBound(entries)
  {
    if n < |entries| {
      var init := entries[..|entries| - 1];
      SizeBoundGrows(init, n);
      assert init[..n] == entries[..n];
    } else {
      assert entries[..n] == entries;
    }
  }

  /** Any entries can be built into a block, for any restart interval. */
  method Build(interval: nat, entries: seq<KV>) returns (data: Bytes)
    requires interval >= 1 && SizeBound(entries) < LIMIT32
    ensures HoldsEntries(data, entries)
  {
    var builder := new BlockBuilder(interval);
    AddAll(builder, entries);
    SizeBoundGrows(entries, 0);
    StartsBounded(builder.lay);
    data := builder.Finish();
    assert BlockData(data, builder.lay, |data| - 4 - 4 * |builder.lay.starts|);
  }

  method AddAll(builder: BlockBuilder, entries: seq<KV>)
    requires builder.Valid() && !builder.finished && builder.lay.entries == [] && builder.buffer == []
    requires builder.lay.Packed(builder.interval) && SizeBound(entries) < LIMIT32
    modifies builder
    ensures builder.Valid() && !builder.finished && builder.lay.entries == entries && builder.lay.Packed(builder.interval)
    ensures |builder.buffer| <= SizeBound(entries)
  {
    for n := 0 to |entries|
      invariant builder.Valid() && !builder.finished && builder.lay.Packed(builder.interval)
      invariant builder.lay.entries == entries[..n] && |builder.buffer| <= SizeBound(entries[..n])
    {
      SizeBoundStep(entries, n);
      builder.Add(entries[n].key, entries[n].value);
    }
    assert entries[..|entries|] == entries;
  }

  lemma SizeBoundStep(entries: seq<KV>, n: nat)
    requires n < |entries| && SizeBound(entries) < LIMIT32
    ensures SizeBound(entries[..n + 1]) == SizeBound(entries[..n]) + |entries[n].key| + |entries[n].value| + 15 < LIMIT32
    ensures entries[..n + 1] == entries[..n] + [entries[n]]
  {
    SizeBoundGrows(entries, n + 1);
    assert entries[..n + 1][..n] == entries[..n];
  }

  lemma StartsBounded(lay: Layout)
    requires lay.Shape()
    ensures |lay.starts| <= |lay.entries| + 1
  {
    StartsFrom(lay, |lay.starts| - 1);
  }

  lemma {:induction false} StartsFrom(lay: Layout, j: nat)
    requires lay.Shape() && j < |lay.starts|
    ensures lay.starts[j] >= j
  {
    if j > 0 {
      StartsFrom(lay, j - 1);
    }
  }

  /** The data holds a block of these entries. */
  ghost predicate HoldsEntries(data: Bytes, entries: seq<KV>) {
    exists lay, restarts: nat :: BlockData(data, lay, restarts) && lay.entries == entries
  }

  /** Reads a whole block back. */
  method ReadBlock(cmp: Order, data: Bytes, ghost entries: seq<KV>) returns (result: seq<KV>)
    requires HoldsEntries(data, entries)
    ensures result == entries
  {
    ghost var lay, restarts: nat :| BlockData(data, lay, restarts) && lay.entries == entries;
    var iter := NewIterator(cmp, data);
    assert iter.Holds(lay);
    iter.SeekToFirst(lay);
    result := TakeAll(iter, lay);
  }

  method TakeAll(iter: BlockIter, ghost lay: Layout) returns (result: seq<KV>)
    requires iter.Holds(lay) && iter.At(lay, 0)
    modifies iter
    ensures result == lay.entries
  {
    result := [];
    ghost var n: nat := 0;
    while iter.Valid()
      invariant n <= |lay.entries| && iter.At(lay, n) && result == lay.entries[..n]
      decreases |lay.entries| - n
    {
      var kv := TakeEntry(iter, lay, n);
      result := result + [kv];
      n := n + 1;
    }
  }

  method TakeEntry(iter: BlockIter, ghost lay: Layout, ghost n: nat) returns (kv: KV)
    requires iter.Holds(lay) && n < |lay.entries| && iter.At(lay, n)
    modifies iter
    ensures kv == lay.entries[n] && iter.At(lay, n + 1)
  {
    kv := KV(iter.key, iter.Value());
    iter.Next(lay, n);
  }

  /** The first entry at or after a key, if there is one. */
  ghost predicate FirstFrom(cmp: Order, entries: seq<KV>, key: Bytes, r: Option<KV>) {
    exists m: nat :: IsCut(cmp, entries, key, m) && r == if m < |entries| then Some(entries[m]) else None
  }

  /** `m` entries are before the key. */
  ghost predicate IsCut(cmp: Order, entries: seq<KV>, key: Bytes, m: nat) {
    m <= |entries|
    && (forall j :: 0 <= j < m ==> cmp(entries[j].key, key) < 0)
    && forall j :: m <= j < |entries| ==> cmp(entries[j].key, key) >= 0
  }

  ghost predicate Ordered(cmp: Order, entries: seq<KV>) {
    forall i, j :: 0 <= i < j < |entries| ==> cmp(entries[i].key, entries[j].key) < 0
  }

  /** Seeks a key in a block, whatever the data is. */
  method SeekEntry(cmp: Order, data: Bytes, key: Bytes, ghost entries: seq<KV>) returns (r: Option<KV>)
    requires Transitive(cmp)
    ensures HoldsEntries(data, entries) && Ordered(cmp, entries) ==> FirstFrom(cmp, entries, key, r)
  {
    ghost var good := HoldsEntries(data, entries) && Ordered(cmp, entries);
    ghost var lay, restarts: nat := Layout([], [0], [], [0]), 0;
    if good {
      lay, restarts :| BlockData(data, lay, restarts) && lay.entries == entries;
    }
    var iter := NewIterator(cmp, data);
    if iter == null {
      return None;
    }
    ghost var m := iter.Seek(key, lay);
    if good {
      assert iter.Sought(lay, key, m);
      assert IsCut(cmp, entries, key, m);
    }
    if iter.Valid() && iter.valueStart + iter.valueLength <= |data| {
      r := Some(KV(iter.key, iter.Value()));
    } else {
      r := None;
    }
  }
}
