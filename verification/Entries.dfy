/** Internal keys, their order, and what a read at a sequence number means
    (db/dbformat.h, db/dbformat.cc).

    A user key stands for its position in the order of the user comparator: the
    code modelled on top of this module compares user keys and never looks
    inside them. */
module Entries {

  datatype Option<+T> = None | Some(value: T)

  type UserKey = int
  type Byte = b: int | 0 <= b < 256
  type Bytes = seq<Byte>

  /** How many levels of files there are. */
  const NUM_LEVELS := 7

  /** The low eight bits of a packed tag hold the kind, so 56 bits remain. */
  const MAX_SEQUENCE: nat := 0xFF_FFFF_FFFF_FFFF

  type SequenceNumber = n: nat | n <= MAX_SEQUENCE

  datatype Kind = Deletion | Value

  datatype IKey = IKey(user: UserKey, sequence: SequenceNumber, kind: Kind)

  datatype Entry = Entry(k: IKey, value: Bytes)

  // ------------------------------------------------------------ key order

  function Tag(k: IKey): nat {
    k.sequence * 256 + if k.kind.Value? then 1 else 0
  }

  /** Negative, zero or positive, as the comparator returns it. */
  function Compare(a: IKey, b: IKey): int {
    if a.user != b.user then (if a.user < b.user then -1 else 1)
    else if Tag(a) > Tag(b) then -1
    else if Tag(a) < Tag(b) then 1
    else 0
  }

  predicate Less(a: IKey, b: IKey) {
    Compare(a, b) < 0
  }

  /** The order of entries that a store really holds: no two entries of one user
      key share a sequence number. */
  predicate Before(a: IKey, b: IKey) {
    a.user < b.user || (a.user == b.user && a.sequence > b.sequence)
  }

  lemma CompareIsLexicographic(a: IKey, b: IKey)
    ensures Less(a, b) <==>
            a.user < b.user ||
            (a.user == b.user &&
             (a.sequence > b.sequence ||
              (a.sequence == b.sequence && a.kind.Value? && b.kind.Deletion?)))
    ensures Compare(a, b) == 0 <==> a == b
    ensures Compare(a, b) > 0 <==> Less(b, a)
  {
  }

  /** The lookup key for a snapshot: it precedes exactly what the snapshot sees. */
  function SeekKey(u: UserKey, s: SequenceNumber): IKey {
    IKey(u, s, Value)
  }

  // ------------------------------------------------------- sorted runs

  function SetOf<T>(es: seq<T>): set<T> {
    set e | e in es
  }

  ghost predicate Sorted(es: seq<Entry>) {
    forall i, j :: 0 <= i < j < |es| ==> Before(es[i].k, es[j].k)
  }

  /** Where a cursor stops that seeks the first key at or after `t`. */
  ghost predicate IsSeek(es: seq<Entry>, t: IKey, i: nat) {
    i <= |es|
    && (forall j :: 0 <= j < i ==> Less(es[j].k, t))
    && (forall j :: i <= j < |es| ==> !Less(es[j].k, t))
  }

  /** The index of the first key at or after `t`, by a linear scan. */
  function SeekIndex(es: seq<Entry>, t: IKey): (i: nat)
    ensures i <= |es|
    ensures forall j :: 0 <= j < i ==> Less(es[j].k, t)
    ensures i < |es| ==> !Less(es[i].k, t)
  {
    if es == [] || !Less(es[0].k, t) then 0
    else
      var r := SeekIndex(es[1..], t);
      assert forall j :: 0 < j < r + 1 ==> es[j] == es[1..][j - 1];
      1 + r
  }

  lemma SeekSplits(es: seq<Entry>, t: IKey)
    requires Sorted(es)
    ensures IsSeek(es, t, SeekIndex(es, t))
  {
  }

  // ------------------------------------------------------------- reading

  datatype Answer = Absent | Present(value: Bytes)

  function AnswerOf(e: Entry): Answer {
    if e.k.kind.Value? then Present(e.value) else Absent
  }

  predicate Sees(e: Entry, u: UserKey, s: SequenceNumber) {
    e.k.user == u && e.k.sequence <= s
  }

  ghost predicate SomeSeen(store: set<Entry>, u: UserKey, s: SequenceNumber) {
    exists e :: e in store && Sees(e, u, s)
  }

  ghost predicate IsNewest(store: set<Entry>, u: UserKey, s: SequenceNumber, e: Entry) {
    e in store && Sees(e, u, s)
    && forall x :: x in store && Sees(x, u, s) ==> x.k.sequence <= e.k.sequence
  }

  /** No two entries of one user key carry the same sequence number. */
  ghost predicate Unique(store: set<Entry>) {
    forall a, b :: a in store && b in store && a.k.user == b.k.user && a.k.sequence == b.k.sequence ==> a == b
  }

  /** What a read of user key `u` at sequence number `s` answers: the newest entry
      at or below `s`, where a deletion reads as absence. */
  ghost function Read(store: set<Entry>, u: UserKey, s: SequenceNumber): Answer {
    if exists e :: IsNewest(store, u, s, e) then
      var e :| IsNewest(store, u, s, e);
      AnswerOf(e)
    else Absent
  }

  lemma {:induction false} NewestExists(store: set<Entry>, u: UserKey, s: SequenceNumber)
    requires SomeSeen(store, u, s)
    ensures exists e :: IsNewest(store, u, s, e)
    decreases |store|
  {
    var x :| x in store && Sees(x, u, s);
    var rest := store - {x};
    if SomeSeen(rest, u, s) {
      NewestExists(rest, u, s);
      var y :| IsNewest(rest, u, s, y);
      if x.k.sequence <= y.k.sequence {
        assert IsNewest(store, u, s, y);
      } else {
        assert IsNewest(store, u, s, x);
      }
    } else {
      assert IsNewest(store, u, s, x);
    }
  }

  /** A read names the newest entry, whichever way it was found. */
  lemma ReadIs(store: set<Entry>, u: UserKey, s: SequenceNumber, e: Entry)
    requires Unique(store) && IsNewest(store, u, s, e)
    ensures Read(store, u, s) == AnswerOf(e)
  {
    forall x | IsNewest(store, u, s, x)
      ensures x == e
    {
      assert x.k.sequence == e.k.sequence;
    }
  }

  lemma ReadAbsent(store: set<Entry>, u: UserKey, s: SequenceNumber)
    requires !SomeSeen(store, u, s)
    ensures Read(store, u, s) == Absent
  {
  }

  /** Every entry of `a` is newer than every entry of `b` for the same user key. */
  ghost predicate Newer(a: set<Entry>, b: set<Entry>) {
    forall x, y :: x in a && y in b && x.k.user == y.k.user ==> x.k.sequence > y.k.sequence
  }

  /** Searching a newer layer first, and an older one only if nothing is seen. */
  lemma ReadLayered(a: set<Entry>, b: set<Entry>, u: UserKey, s: SequenceNumber)
    requires Unique(a + b) && Newer(a, b)
    ensures SomeSeen(a, u, s) ==> Read(a + b, u, s) == Read(a, u, s)
    ensures !SomeSeen(a, u, s) ==> Read(a + b, u, s) == Read(b, u, s)
  {
    if SomeSeen(a, u, s) {
      NewestExists(a, u, s);
      var e :| IsNewest(a, u, s, e);
      assert IsNewest(a + b, u, s, e);
      ReadIs(a, u, s, e);
      ReadIs(a + b, u, s, e);
    } else if SomeSeen(b, u, s) {
      NewestExists(b, u, s);
      var e :| IsNewest(b, u, s, e);
      assert IsNewest(a + b, u, s, e);
      ReadIs(b, u, s, e);
      ReadIs(a + b, u, s, e);
    } else {
      assert !SomeSeen(a + b, u, s);
    }
  }

  // -------------------------------------------------------- one sorted run

  /** What a search of one layer reports: memtables and tables both seek the
      lookup key and then compare user keys. */
  datatype Lookup = NotFound | Deleted | Found(value: Bytes)

  function LookupOf(e: Entry): Lookup {
    if e.k.kind.Value? then Found(e.value) else Deleted
  }

  function LookupIn(es: seq<Entry>, u: UserKey, s: SequenceNumber): Lookup {
    var i := SeekIndex(es, SeekKey(u, s));
    if i < |es| && es[i].k.user == u then LookupOf(es[i]) else NotFound
  }

  /** A seek in a sorted run finds the newest visible entry, or shows there is none. */
  lemma LookupFindsNewest(es: seq<Entry>, u: UserKey, s: SequenceNumber)
    requires Sorted(es)
    ensures var i := SeekIndex(es, SeekKey(u, s));
            if i < |es| && es[i].k.user == u
            then IsNewest(SetOf(es), u, s, es[i])
            else !SomeSeen(SetOf(es), u, s)
  {
    var t := SeekKey(u, s);
    var i := SeekIndex(es, t);
    SeekSplits(es, t);
    forall e | e in es && Sees(e, u, s)
      ensures i < |es| && es[i].k.user == u && e.k.sequence <= es[i].k.sequence
    {
      var j :| 0 <= j < |es| && es[j] == e;
      assert !Less(e.k, t);
      assert i <= j;
      if i < j {
        assert Before(es[i].k, es[j].k);
      }
    }
  }
}
