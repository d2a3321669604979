/** Byte-string comparators and the keys they shorten for the index of a table
    (util/comparator.cc, db/dbformat.cc). */
module Comparators {
  import opened Entries
  import opened Coding

  /** Negative, zero or positive. */
  type Order = (Bytes, Bytes) -> int

  /** A total order up to keys that compare as equal. */
  ghost predicate OrderOk(cmp: Order) {
    (forall a :: cmp(a, a) == 0)
    && (forall a, b :: cmp(a, b) < 0 <==> cmp(b, a) > 0)
    && forall a, b, c :: cmp(a, b) <= 0 && cmp(b, c) <= 0 ==>
         cmp(a, c) <= 0 && (cmp(a, b) < 0 || cmp(b, c) < 0 ==> cmp(a, c) < 0)
  }

  /** The same, for use far from the order's laws: they come into play only where
      `OrderLaws` is mentioned. */
  ghost predicate TotalOrder(cmp: Order) {
    forall use: nat :: OrderLaws(cmp, use)
  }

  ghost predicate OrderLaws(cmp: Order, use: nat) {
    OrderOk(cmp)
  }

  /** A user comparator: its order, and how it shortens keys. */
  datatype Comparator = Comparator(compare: Order, separator: (Bytes, Bytes) -> Bytes, successor: Bytes -> Bytes) {
    ghost predicate Ok() {
      OrderOk(compare)
      && (forall a, b :: compare(a, b) < 0 ==> compare(a, separator(a, b)) <= 0 && compare(separator(a, b), b) < 0)
      && (forall a, b :: compare(a, b) >= 0 ==> separator(a, b) == a)
      && forall a :: compare(a, successor(a)) <= 0
    }

    ghost predicate Lawful() {
      forall use: nat :: Laws(use)
    }

    ghost predicate Laws(use: nat) {
      Ok()
    }
  }

  // ------------------------------------------------------------ bytewise

  function CompareBytes(a: Bytes, b: Bytes): int {
    if a == [] then (if b == [] then 0 else -1)
    else if b == [] then 1
    else if a[0] != b[0] then (if a[0] < b[0] then -1 else 1)
    else CompareBytes(a[1..], b[1..])
  }

  lemma {:induction false} CompareSelf(a: Bytes)
    ensures CompareBytes(a, a) == 0
  {
    if a != [] {
      CompareSelf(a[1..]);
    }
  }

  lemma {:induction false} CompareFlips(a: Bytes, b: Bytes)
    ensures CompareBytes(a, b) < 0 <==> CompareBytes(b, a) > 0
    decreases |a|
  {
    if a != [] && b != [] && a[0] == b[0] {
      CompareFlips(a[1..], b[1..]);
    }
  }

  lemma {:induction false} CompareChains(a: Bytes, b: Bytes, c: Bytes)
    requires CompareBytes(a, b) <= 0 && CompareBytes(b, c) <= 0
    ensures CompareBytes(a, c) <= 0
    ensures CompareBytes(a, b) < 0 || CompareBytes(b, c) < 0 ==> CompareBytes(a, c) < 0
    decreases |a|
  {
    if a != [] && b != [] && c != [] && a[0] == b[0] == c[0] {
      CompareChains(a[1..], b[1..], c[1..]);
    }
  }

  lemma BytewiseOrder()
    ensures OrderOk(CompareBytes)
  {
    forall a
      ensures CompareBytes(a, a) == 0
    {
      CompareSelf(a);
    }
    forall a, b
      ensures CompareBytes(a, b) < 0 <==> CompareBytes(b, a) > 0
    {
      CompareFlips(a, b);
    }
    forall a, b, c | CompareBytes(a, b) <= 0 && CompareBytes(b, c) <= 0
      ensures CompareBytes(a, c) <= 0
      ensures CompareBytes(a, b) < 0 || CompareBytes(b, c) < 0 ==> CompareBytes(a, c) < 0
    {
      CompareChains(a, b, c);
    }
  }

  /** A common prefix does not decide. */
  lemma {:induction false} ComparePrefix(a: Bytes, b: Bytes, n: nat)
    requires n <= |a| && n <= |b| && a[..n] == b[..n]
    ensures CompareBytes(a, b) == CompareBytes(a[n..], b[n..])
  {
    if n > 0 {
      assert a[0] == a[..n][0] && b[0] == b[..n][0];
      assert a[1..][..n - 1] == a[..n][1..] && b[1..][..n - 1] == b[..n][1..];
      ComparePrefix(a[1..], b[1..], n - 1);
      assert a[1..][n - 1..] == a[n..] && b[1..][n - 1..] == b[n..];
    }
  }

  function CommonPrefix(a: Bytes, b: Bytes): (n: nat)
    ensures n <= |a| && n <= |b| && a[..n] == b[..n]
    ensures n < |a| && n < |b| ==> a[n] != b[n]
  {
    if a == [] || b == [] || a[0] != b[0] then 0
    else
      var n := CommonPrefix(a[1..], b[1..]);
      assert a[..n + 1] == [a[0]] + a[1..][..n];
      assert b[..n + 1] == [b[0]] + b[1..][..n];
      n + 1
  }

  lemma {:induction false} PrefixIsCommon(a: Bytes, b: Bytes, n: nat)
    requires n <= |a| && n <= |b| && a[..n] == b[..n]
    requires n < |a| && n < |b| ==> a[n] != b[n]
    ensures CommonPrefix(a, b) == n
  {
    if n > 0 {
      assert a[0] == a[..n][0] && b[0] == b[..n][0];
      assert a[1..][..n - 1] == a[..n][1..] && b[1..][..n - 1] == b[..n][1..];
      PrefixIsCommon(a[1..], b[1..], n - 1);
    }
  }

  /** The start cut behind the first byte that differs, with that byte raised by one,
      where that stays below the limit. */
  function Separator(start: Bytes, limit: Bytes): Bytes {
    var n := CommonPrefix(start, limit);
    if n < |start| && n < |limit| && start[n] < 255 && start[n] + 1 < limit[n] then start[..n] + [start[n] + 1]
    else start
  }

  lemma SeparatorSeparates(start: Bytes, limit: Bytes)
    requires CompareBytes(start, limit) < 0
    ensures CompareBytes(start, Separator(start, limit)) <= 0 && CompareBytes(Separator(start, limit), limit) < 0
    ensures |Separator(start, limit)| <= |start|
  {
    var n, r := CommonPrefix(start, limit), Separator(start, limit);
    CompareSelf(start);
    if r != start {
      assert r[..n] == start[..n] == limit[..n];
      ComparePrefix(start, r, n);
      ComparePrefix(r, limit, n);
      assert start[n..][0] < r[n..][0] < limit[n..][0];
    }
  }

  lemma SeparatorKeeps(start: Bytes, limit: Bytes)
    requires CompareBytes(start, limit) >= 0
    ensures Separator(start, limit) == start
  {
    var n := CommonPrefix(start, limit);
    ComparePrefix(start, limit, n);
    if n < |start| && n < |limit| {
      assert start[n..][0] == start[n] && limit[n..][0] == limit[n];
    }
  }

  method FindShortestSeparator(start: Bytes, limit: Bytes) returns (r: Bytes)
    ensures r == Separator(start, limit)
  {
    var minLength := if |start| < |limit| then |start| else |limit|;
    var diffIndex := 0;
    while diffIndex < minLength && start[diffIndex] == limit[diffIndex]
      invariant diffIndex <= minLength && start[..diffIndex] == limit[..diffIndex]
    {
      diffIndex := diffIndex + 1;
    }
    PrefixIsCommon(start, limit, diffIndex);
    r := start;
    if diffIndex < minLength {
      var diffByte := start[diffIndex];
      if diffByte < 255 && diffByte + 1 < limit[diffIndex] {
        r := r[diffIndex := diffByte + 1];
        r := r[..diffIndex + 1];
        assert r == start[..diffIndex] + [diffByte + 1];
      }
    }
  }

  /** The key cut behind its first byte that is not 255, with that byte raised. */
  function Successor(key: Bytes): Bytes {
    if key == [] then []
    else if key[0] != 255 then [key[0] + 1]
    else [key[0]] + Successor(key[1..])
  }

  lemma {:induction false} SuccessorIsAfter(key: Bytes)
    ensures CompareBytes(key, Successor(key)) <= 0 && |Successor(key)| <= |key|
  {
    if key != [] && key[0] == 255 {
      SuccessorIsAfter(key[1..]);
      assert Successor(key)[1..] == Successor(key[1..]);
    }
  }

  lemma {:induction false} SuccessorAt(key: Bytes, i: nat)
    requires i <= |key| && forall j :: 0 <= j < i ==> key[j] == 255
    ensures Successor(key) == key[..i] + Successor(key[i..])
  {
    if i > 0 {
      SuccessorAt(key[1..], i - 1);
      Onwards(key, i, Successor(key[i..]));
    } else {
      assert key[0..] == key;
    }
  }

  lemma Onwards(key: Bytes, i: nat, rest: Bytes)
    requires 0 < i <= |key|
    ensures key[1..][i - 1..] == key[i..]
    ensures [key[0]] + (key[1..][..i - 1] + rest) == key[..i] + rest
  {
    assert key[..i] == [key[0]] + key[1..][..i - 1];
  }

  method FindShortSuccessor(key: Bytes) returns (r: Bytes)
    ensures r == Successor(key)
  {
    for i := 0 to |key|
      invariant forall j :: 0 <= j < i ==> key[j] == 255
    {
      var byte := key[i];
      if byte != 255 {
        SuccessorAt(key, i);
        r := key[i := byte + 1];
        r := r[..i + 1];
        assert r == key[..i] + [byte + 1];
        return;
      }
    }
    SuccessorAt(key, |key|);
    assert key[|key|..] == [] && key[..|key|] == key;
    r := key;
  }

  const BYTEWISE := Comparator(CompareBytes, Separator, Successor)

  lemma BytewiseOk()
    ensures BYTEWISE.Ok()
  {
    BytewiseOrder();
    forall a, b | CompareBytes(a, b) < 0
      ensures CompareBytes(a, Separator(a, b)) <= 0 && CompareBytes(Separator(a, b), b) < 0
    {
      SeparatorSeparates(a, b);
    }
    forall a, b | CompareBytes(a, b) >= 0
      ensures Separator(a, b) == a
    {
      SeparatorKeeps(a, b);
    }
    forall a
      ensures CompareBytes(a, Successor(a)) <= 0
    {
      SuccessorIsAfter(a);
    }
  }

  // -------------------------------------------------------- internal keys

  /** Everything but the eight bytes of the tag. */
  function ExtractUserKey(key: Bytes): Bytes {
    if |key| < 8 then [] else key[..|key| - 8]
  }

  function TagOf(key: Bytes): nat {
    if |key| < 8 then 0 else DecodeFixed64(key, |key| - 8)
  }

  /** User keys up, then tags down. */
  function CompareTagged(compare: Order, x: Bytes, m: nat, y: Bytes, n: nat): int {
    var r := compare(x, y);
    if r != 0 then r else if m > n then -1 else if m < n then 1 else 0
  }

  lemma TaggedFlips(compare: Order, x: Bytes, m: nat, y: Bytes, n: nat)
    requires OrderOk(compare)
    ensures CompareTagged(compare, x, m, y, n) < 0 <==> CompareTagged(compare, y, n, x, m) > 0
  {
    assert compare(x, y) < 0 <==> compare(y, x) > 0;
    assert compare(y, x) < 0 <==> compare(x, y) > 0;
  }

  lemma TaggedChains(compare: Order, x: Bytes, m: nat, y: Bytes, n: nat, z: Bytes, k: nat)
    requires OrderOk(compare)
    requires CompareTagged(compare, x, m, y, n) <= 0 && CompareTagged(compare, y, n, z, k) <= 0
    ensures CompareTagged(compare, x, m, z, k) <= 0
    ensures CompareTagged(compare, x, m, y, n) < 0 || CompareTagged(compare, y, n, z, k) < 0 ==>
              CompareTagged(compare, x, m, z, k) < 0
  {
    assert compare(x, y) <= 0 && compare(y, z) <= 0;
    if compare(x, z) == 0 {
      assert compare(x, y) == 0 && compare(y, z) == 0;
    }
  }

  function InternalCompare(u: Comparator, a: Bytes, b: Bytes): int {
    CompareTagged(u.compare, ExtractUserKey(a), TagOf(a), ExtractUserKey(b), TagOf(b))
  }

  /** The comparator of internal keys. */
  function InternalOrder(u: Comparator): Order {
    (a: Bytes, b: Bytes) => InternalCompare(u, a, b)
  }

  lemma InternalOrderOk(u: Comparator)
    requires u.Ok()
    ensures OrderOk(InternalOrder(u))
  {
    var cmp := InternalOrder(u);
    forall a
      ensures cmp(a, a) == 0
    {
      var x := ExtractUserKey(a);
      assert u.compare(x, x) == 0;
      assert InternalCompare(u, a, a) == 0;
    }
    forall a, b
      ensures cmp(a, b) < 0 <==> cmp(b, a) > 0
    {
      TaggedFlips(u.compare, ExtractUserKey(a), TagOf(a), ExtractUserKey(b), TagOf(b));
    }
    forall a, b, c | cmp(a, b) <= 0 && cmp(b, c) <= 0
      ensures cmp(a, c) <= 0 && (cmp(a, b) < 0 || cmp(b, c) < 0 ==> cmp(a, c) < 0)
    {
      TaggedChains(u.compare, ExtractUserKey(a), TagOf(a), ExtractUserKey(b), TagOf(b), ExtractUserKey(c), TagOf(c));
    }
  }

  lemma InternalIsTotal(u: Comparator)
    requires u.Lawful()
    ensures TotalOrder(InternalOrder(u))
  {
    assert u.Laws(0);
    InternalOrderOk(u);
  }

  /** The tag of the greatest sequence number, for seeking. */
  const SEEK_TAG: nat := MAX_SEQUENCE * 256 + 1

  lemma TagReadsBack(user: Bytes, n: nat)
    requires n < LIMIT64
    ensures var key := user + Fixed64(n);
            ExtractUserKey(key) == user && TagOf(key) == n
  {
    var key, low, high := user + Fixed64(n), n % LIMIT32, n / LIMIT32;
    assert key[|user|..|user| + 4] == Fixed32(low);
    Fixed32RoundTrip(key, |user|, low);
    assert key[|user| + 4..|user| + 4 + 4] == Fixed32(high);
    Fixed32RoundTrip(key, |user| + 4, high);
  }

  function InternalSeparator(u: Comparator, start: Bytes, limit: Bytes): Bytes {
    var userStart := ExtractUserKey(start);
    var tmp := u.separator(userStart, ExtractUserKey(limit));
    if |tmp| < |userStart| && u.compare(userStart, tmp) < 0 then tmp + Fixed64(SEEK_TAG) else start
  }

  function InternalSuccessor(u: Comparator, key: Bytes): Bytes {
    var userKey := ExtractUserKey(key);
    var tmp := u.successor(userKey);
    if |tmp| < |userKey| && u.compare(userKey, tmp) < 0 then tmp + Fixed64(SEEK_TAG) else key
  }

  /** Whether `sep` may stand in the index between two blocks: nothing between the last
      key before it and itself can have the user key of the first key after it. */
  ghost predicate Separates(u: Comparator, last: Bytes, sep: Bytes, first: Bytes) {
    InternalCompare(u, last, sep) <= 0 && InternalCompare(u, sep, first) < 0
    && (sep == last || u.compare(ExtractUserKey(sep), ExtractUserKey(first)) < 0)
  }

  lemma CompareSame(u: Comparator, a: Bytes)
    requires u.Ok()
    ensures InternalCompare(u, a, a) == 0
  {
    var x := ExtractUserKey(a);
    assert u.compare(x, x) == 0;
  }

  /** A shorter, greater user key, tagged for seeking, comes after the key. */
  lemma ShortenedIsAfter(u: Comparator, key: Bytes, tmp: Bytes)
    requires u.compare(ExtractUserKey(key), tmp) < 0 && |tmp| < |ExtractUserKey(key)|
    ensures InternalCompare(u, key, tmp + Fixed64(SEEK_TAG)) < 0 && |tmp + Fixed64(SEEK_TAG)| <= |key|
    ensures ExtractUserKey(tmp + Fixed64(SEEK_TAG)) == tmp
  {
    TagReadsBack(tmp, SEEK_TAG);
  }

  /** The shortened key separates; the user keys are told apart whenever it is shortened. */
  lemma InternalSeparatorSeparates(u: Comparator, start: Bytes, limit: Bytes)
    requires u.Ok() && InternalCompare(u, start, limit) < 0
    ensures Separates(u, start, InternalSeparator(u, start, limit), limit)
    ensures |InternalSeparator(u, start, limit)| <= |start|
  {
    var userStart, userLimit := ExtractUserKey(start), ExtractUserKey(limit);
    var tmp := u.separator(userStart, userLimit);
    CompareSame(u, start);
    if |tmp| < |userStart| && u.compare(userStart, tmp) < 0 {
      ShortenedIsAfter(u, start, tmp);
      assert u.compare(userStart, userLimit) < 0;
      assert u.compare(tmp, userLimit) < 0;
    }
  }

  lemma InternalSuccessorIsAfter(u: Comparator, key: Bytes)
    requires u.Ok()
    ensures InternalCompare(u, key, InternalSuccessor(u, key)) <= 0
    ensures |InternalSuccessor(u, key)| <= |key|
  {
    var userKey := ExtractUserKey(key);
    var tmp := u.successor(userKey);
    CompareSame(u, key);
    if |tmp| < |userKey| && u.compare(userKey, tmp) < 0 {
      ShortenedIsAfter(u, key, tmp);
    }
  }
}
