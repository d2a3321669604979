/** Variable-length and fixed-length integers (util/coding.h, util/coding.cc). */
module Coding {
  import opened Entries

  const LIMIT32: nat := 0x1_0000_0000

  type Word = n: nat | n < LIMIT32

  /** Seven bits a byte, least significant first; all bytes but the last have the top
      bit set. */
  function Varint(v: nat): (r: Bytes)
    ensures r != []
    ensures r[0] < 128 <==> v < 128
    ensures r[0] < 128 ==> r == [r[0]] && v == r[0]
    decreases v
  {
    if v < 128 then [v] else [v % 128 + 128] + Varint(v / 128)
  }

  /** The encoding of a 32-bit value, written out case by case. */
  method EncodeVarint32(v: Word) returns (r: Bytes)
    ensures r == Varint(v) && |r| <= 5
  {
    Sevens(v);
    if v < 0x80 {
      r := [v];
    } else if v < 0x4000 {
      r := [v % 0x80 + 0x80, v / 0x80];
      VarintIs(v, [v % 0x80 + 0x80], v / 0x80);
    } else if v < 0x20_0000 {
      r := [v % 0x80 + 0x80, v / 0x80 % 0x80 + 0x80, v / 0x4000];
      VarintIs(v / 0x80, [v / 0x80 % 0x80 + 0x80], v / 0x4000);
      assert r == [v % 0x80 + 0x80] + [v / 0x80 % 0x80 + 0x80, v / 0x4000];
    } else if v < 0x1000_0000 {
      r := [v % 0x80 + 0x80, v / 0x80 % 0x80 + 0x80, v / 0x4000 % 0x80 + 0x80, v / 0x20_0000];
      VarintIs(v / 0x4000, [v / 0x4000 % 0x80 + 0x80], v / 0x20_0000);
      VarintMore(v, v / 0x80, v / 0x4000);
      assert r == [v % 0x80 + 0x80] + ([v / 0x80 % 0x80 + 0x80] + [v / 0x4000 % 0x80 + 0x80, v / 0x20_0000]);
    } else {
      r := [v % 0x80 + 0x80, v / 0x80 % 0x80 + 0x80, v / 0x4000 % 0x80 + 0x80, v / 0x20_0000 % 0x80 + 0x80, v / 0x1000_0000];
      VarintIs(v / 0x20_0000, [v / 0x20_0000 % 0x80 + 0x80], v / 0x1000_0000);
      VarintMore(v, v / 0x80, v / 0x4000);
      assert r == [v % 0x80 + 0x80] + ([v / 0x80 % 0x80 + 0x80] +
                  ([v / 0x4000 % 0x80 + 0x80] + [v / 0x20_0000 % 0x80 + 0x80, v / 0x1000_0000]));
    }
  }

  /** Shifting by seven bits again and again. */
  lemma Sevens(v: Word)
    ensures v / 0x80 / 0x80 == v / 0x4000 && v / 0x4000 / 0x80 == v / 0x20_0000 && v / 0x20_0000 / 0x80 == v / 0x1000_0000
    ensures v / 0x1000_0000 < 0x80
  {
  }

  lemma VarintIs(v: nat, low: Bytes, high: nat)
    requires v >= 0x80 && low == [v % 0x80 + 0x80] && high == v / 0x80 && high < 0x80
    ensures Varint(v) == low + [high]
  {
  }

  lemma VarintMore(v: nat, w: nat, x: nat)
    requires v >= 0x80 && w == v / 0x80 && w >= 0x80 && x == w / 0x80
    ensures Varint(v) == [v % 0x80 + 0x80] + ([w % 0x80 + 0x80] + Varint(x))
  {
    assert Varint(w) == [w % 0x80 + 0x80] + Varint(x);
  }

  /** The encoding of `v` lies at `p` and ends by `limit`. */
  ghost predicate VarintAt(data: Bytes, p: nat, limit: nat, v: nat) {
    p + |Varint(v)| <= limit <= |data| && data[p..p + |Varint(v)|] == Varint(v)
  }

  lemma VarintAtStep(data: Bytes, p: nat, limit: nat, v: nat)
    requires VarintAt(data, p, limit, v)
    ensures p < limit && data[p] == Varint(v)[0]
    ensures v >= 128 ==> data[p] == v % 128 + 128 && VarintAt(data, p + 1, limit, v / 128)
                         && |Varint(v)| == 1 + |Varint(v / 128)|
  {
    var e := Varint(v);
    assert data[p..p + |e|][0] == e[0];
    if v >= 128 {
      assert data[p + 1..p + |e|] == data[p..p + |e|][1..] == e[1..] == Varint(v / 128);
    }
  }

  /** 128 to the power of `k`. */
  function Scale(k: nat): nat
    requires k <= 10
  {
    if k == 0 then 1
    else if k == 1 then 0x80
    else if k == 2 then 0x4000
    else if k == 3 then 0x20_0000
    else if k == 4 then 0x1000_0000
    else if k == 5 then 0x8_0000_0000
    else if k == 6 then 0x400_0000_0000
    else if k == 7 then 0x2_0000_0000_0000
    else if k == 8 then 0x100_0000_0000_0000
    else if k == 9 then 0x8000_0000_0000_0000
    else 0x40_0000_0000_0000_0000
  }

  lemma ScaleStep(k: nat, v: nat)
    requires k < 10
    ensures v * Scale(k) == v % 128 * Scale(k) + v / 128 * Scale(k + 1)
  {
    assert v == v / 128 * 128 + v % 128;
    assert Scale(k + 1) == 128 * Scale(k);
    assert v * Scale(k) == v / 128 * 128 * Scale(k) + v % 128 * Scale(k);
    assert v / 128 * 128 * Scale(k) == v / 128 * Scale(k + 1);
  }

  /** Reads a value of at most `maxBytes` bytes, truncated to `modulus`. The ghost
      argument is a value whose encoding may lie there. */
  method GetVarint(data: Bytes, p: nat, limit: nat, maxBytes: nat, modulus: nat, ghost v: nat)
    returns (r: Option<(nat, nat)>)
    requires limit <= |data|
    requires (maxBytes == 5 && modulus == LIMIT32) || (maxBytes == 10 && modulus == LIMIT32 * LIMIT32)
    ensures r.Some? ==> p < r.value.1 <= limit && r.value.0 < modulus
    ensures v < modulus && VarintAt(data, p, limit, v) ==> r == Some((v, p + |Varint(v)|))
  {
    var result: nat := 0;
    var q := p;
    var k := 0;
    ghost var rest: nat := v;
    ghost var good := v < modulus && VarintAt(data, p, limit, v);
    while k < maxBytes && q < limit
      invariant k <= maxBytes && p <= q && q == p + k
      invariant good ==> VarintAt(data, q, limit, rest) && q + |Varint(rest)| == p + |Varint(v)|
      invariant good ==> v == result + rest * Scale(k) && result < modulus
      invariant good ==> k < maxBytes
    {
      var byte := data[q] as int;
      q := q + 1;
      if good {
        VarintAtStep(data, q - 1, limit, rest);
        TakeByte(k, result, rest, v, byte, maxBytes, modulus);
      }
      result := Add(result, byte % 128, k, modulus);
      if byte < 128 {
        return Some((result, q));
      }
      k := k + 1;
      rest := rest / 128;
    }
    return None;
  }

  /** Adds seven bits at place `k`, as unsigned arithmetic of the width does. */
  function Add(result: nat, low: nat, k: nat, modulus: nat): (r: nat)
    requires k <= 10 && modulus > 0
    ensures r < modulus
  {
    (result + low * Scale(k)) % modulus
  }

  /** A byte of a fitting encoding adds without wrapping; the encoding goes on only if
      another byte may follow. */
  lemma TakeByte(k: nat, result: nat, rest: nat, v: nat, byte: nat, maxBytes: nat, modulus: nat)
    requires (maxBytes == 5 && modulus == LIMIT32) || (maxBytes == 10 && modulus == LIMIT32 * LIMIT32)
    requires k < maxBytes && v == result + rest * Scale(k) && v < modulus
    requires byte == if rest < 128 then rest else rest % 128 + 128
    ensures rest < 128 ==> Add(result, byte % 128, k, modulus) == v
    ensures rest >= 128 ==> v == Add(result, byte % 128, k, modulus) + rest / 128 * Scale(k + 1) && k + 1 < maxBytes
  {
    ScaleStep(k, rest);
    var sum := result + byte % 128 * Scale(k);
    assert byte % 128 == rest % 128;
    assert rest / 128 * Scale(k + 1) >= 0;
    assert sum < modulus;
    assert Add(result, byte % 128, k, modulus) == sum;
    if rest >= 128 {
      assert rest * Scale(k) >= 128 * Scale(k);
    }
  }

  method GetVarint32Ptr(data: Bytes, p: nat, limit: nat, ghost v: nat) returns (r: Option<(nat, nat)>)
    requires limit <= |data|
    ensures r.Some? ==> p < r.value.1 <= limit && r.value.0 < LIMIT32
    ensures v < LIMIT32 && VarintAt(data, p, limit, v) ==> r == Some((v, p + |Varint(v)|))
  {
    if p < limit {
      var byte := data[p];
      if byte < 128 {
        if VarintAt(data, p, limit, v) {
          VarintAtStep(data, p, limit, v);
        }
        return Some((byte as int, p + 1));
      }
    }
    r := GetVarint(data, p, limit, 5, LIMIT32, v);
  }

  function Fixed32(n: Word): (r: Bytes)
    ensures |r| == 4
  {
    [n % 0x100, n / 0x100 % 0x100, n / 0x1_0000 % 0x100, n / 0x100_0000]
  }

  function DecodeFixed32(b: Bytes, p: nat): (n: Word)
    requires p + 4 <= |b|
  {
    b[p] as int + b[p + 1] as int * 0x100 + b[p + 2] as int * 0x1_0000 + b[p + 3] as int * 0x100_0000
  }

  lemma FourBytes(n: Word)
    ensures n % 0x100 + n / 0x100 % 0x100 * 0x100 + n / 0x1_0000 % 0x100 * 0x1_0000 + n / 0x100_0000 * 0x100_0000 == n
  {
    assert n / 0x1_0000 == n / 0x100 / 0x100 && n / 0x100_0000 == n / 0x1_0000 / 0x100;
  }

  lemma Fixed32RoundTrip(b: Bytes, p: nat, n: Word)
    requires p + 4 <= |b| && b[p..p + 4] == Fixed32(n)
    ensures DecodeFixed32(b, p) == n
  {
    FourBytes(n);
    var f := b[p..p + 4];
    assert b[p] == f[0] && b[p + 1] == f[1] && b[p + 2] == f[2] && b[p + 3] == f[3];
  }

  const LIMIT64: nat := LIMIT32 * LIMIT32

  function Fixed64(n: nat): (r: Bytes)
    requires n < LIMIT64
    ensures |r| == 8
  {
    Fixed32(n % LIMIT32) + Fixed32(n / LIMIT32)
  }

  function DecodeFixed64(b: Bytes, p: nat): nat
    requires p + 8 <= |b|
  {
    DecodeFixed32(b, p) + DecodeFixed32(b, p + 4) * LIMIT32
  }

  method EncodeVarint64(v: nat) returns (r: Bytes)
    ensures r == Varint(v)
  {
    r := [];
    var rest := v;
    while rest >= 128
      invariant r + Varint(rest) == Varint(v)
    {
      assert Varint(rest) == [rest % 128 + 128] + Varint(rest / 128);
      assert r + Varint(rest) == r + [rest % 128 + 128] + Varint(rest / 128);
      r := r + [rest % 128 + 128];
      rest := rest / 128;
    }
    r := r + [rest];
  }

  method GetVarint64Ptr(data: Bytes, p: nat, limit: nat, ghost v: nat) returns (r: Option<(nat, nat)>)
    requires limit <= |data|
    ensures r.Some? ==> p < r.value.1 <= limit && r.value.0 < LIMIT64
    ensures v < LIMIT64 && VarintAt(data, p, limit, v) ==> r == Some((v, p + |Varint(v)|))
  {
    r := GetVarint(data, p, limit, 10, LIMIT64, v);
  }

  /** Some bytes lie at `p` and end by `limit`. */
  ghost predicate BytesAt(data: Bytes, p: nat, limit: nat, b: Bytes) {
    p + |b| <= limit <= |data| && data[p..p + |b|] == b
  }

  lemma BytesAtSplit(data: Bytes, p: nat, limit: nat, a: Bytes, b: Bytes)
    ensures BytesAt(data, p, limit, a + b) <==> BytesAt(data, p, limit, a) && BytesAt(data, p + |a|, limit, b)
  {
    if p + |a + b| <= limit <= |data| {
      var s := data[p..p + |a + b|];
      assert s[..|a|] == data[p..p + |a|] && s[|a|..] == data[p + |a|..p + |a| + |b|];
      assert (a + b)[..|a|] == a && (a + b)[|a|..] == b;
      assert s == s[..|a|] + s[|a|..];
    }
  }

  /** A slice behind its length. */
  function Prefixed(s: Bytes): Bytes {
    Varint(|s|) + s
  }

  method PutLengthPrefixedSlice(s: Bytes) returns (r: Bytes)
    requires |s| < LIMIT32
    ensures r == Prefixed(s)
  {
    var length := EncodeVarint32(|s|);
    r := length + s;
  }

  method GetLengthPrefixedSlice(data: Bytes, p: nat, limit: nat, ghost s: Bytes) returns (r: Option<(Bytes, nat)>)
    requires limit <= |data|
    ensures r.Some? ==> p < r.value.1 <= limit && |r.value.0| < LIMIT32
    ensures |s| < LIMIT32 && BytesAt(data, p, limit, Prefixed(s)) ==> r == Some((s, p + |Prefixed(s)|))
  {
    ghost var good := |s| < LIMIT32 && BytesAt(data, p, limit, Prefixed(s));
    BytesAtSplit(data, p, limit, Varint(|s|), s);
    var n := GetVarint32Ptr(data, p, limit, |s|);
    if n.None? || limit - n.value.1 < n.value.0 {
      return None;
    }
    var q := n.value.1;
    r := Some((data[q..q + n.value.0], q + n.value.0));
  }

  /** Seven bits a byte are enough. */
  lemma {:induction false} VarintLength(v: nat, k: nat)
    requires 1 <= k <= 10 && v < Scale(k)
    ensures |Varint(v)| <= k
  {
    if v >= 128 {
      assert Scale(k) == 128 * Scale(k - 1);
      VarintLength(v / 128, k - 1);
    }
  }
}
