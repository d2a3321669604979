/** The user-key view of the store at a snapshot (db/db_iter.cc).

    The internal iterator yields every stored entry in key order; DBIter turns it into
    a cursor over the user keys whose read at the snapshot is present. */
module DbIter {
  import opened Entries
  import opened Iterators

  // ---------------------------------------------------- entries and the view

  predicate VisibleAt(list: seq<Entry>, s: SequenceNumber, i: nat) {
    i < |list| && list[i].k.sequence <= s
  }

  /** The entry that stands for its user key at `s`: a value, with no newer visible entry. */
  ghost predicate Shown(list: seq<Entry>, s: SequenceNumber, i: nat) {
    VisibleAt(list, s, i) && list[i].k.kind.Value?
    && forall j :: 0 <= j < i && VisibleAt(list, s, j) ==> list[j].k.user < list[i].k.user
  }

  ghost predicate Live(list: seq<Entry>, s: SequenceNumber, u: UserKey) {
    Read(SetOf(list), u, s).Present?
  }

  lemma SortedUsers(list: seq<Entry>, i: nat, j: nat)
    requires Sorted(list) && i <= j < |list|
    ensures list[i].k.user <= list[j].k.user
    ensures list[i].k.user == list[j].k.user ==> list[i].k.sequence >= list[j].k.sequence
  {
    assert i == j || Before(list[i].k, list[j].k);
  }

  lemma SortedIsUnique(list: seq<Entry>)
    requires Sorted(list)
    ensures Unique(SetOf(list))
  {
    forall a, b | a in list && b in list && a.k.user == b.k.user && a.k.sequence == b.k.sequence
      ensures a == b
    {
      var i :| 0 <= i < |list| && list[i] == a;
      var j :| 0 <= j < |list| && list[j] == b;
      assert i < j ==> Before(a.k, b.k);
      assert j < i ==> Before(b.k, a.k);
    }
  }

  lemma ShownIsLive(list: seq<Entry>, s: SequenceNumber, i: nat)
    requires Sorted(list) && Shown(list, s, i)
    ensures Read(SetOf(list), list[i].k.user, s) == Present(list[i].value)
  {
    SortedIsUnique(list);
    forall e | e in list && Sees(e, list[i].k.user, s)
      ensures e.k.sequence <= list[i].k.sequence
    {
      var j :| 0 <= j < |list| && list[j] == e;
      assert VisibleAt(list, s, j);
      if i <= j {
        SortedUsers(list, i, j);
      }
    }
    ReadIs(SetOf(list), list[i].k.user, s, list[i]);
  }

  lemma LiveIsShown(list: seq<Entry>, s: SequenceNumber, u: UserKey)
    requires Sorted(list) && Live(list, s, u)
    ensures exists i :: 0 <= i < |list| && Shown(list, s, i) && list[i].k.user == u
  {
    SortedIsUnique(list);
    var e :| IsNewest(SetOf(list), u, s, e) && Read(SetOf(list), u, s) == AnswerOf(e);
    var i :| 0 <= i < |list| && list[i] == e;
    forall j | 0 <= j < i && VisibleAt(list, s, j)
      ensures list[j].k.user < list[i].k.user
    {
      assert Before(list[j].k, list[i].k);
      assert list[j] in SetOf(list);
    }
    assert Shown(list, s, i);
  }

  /** The least live key that is shown at or after `from`, if any. */
  lemma NothingShownMeansNothingLive(list: seq<Entry>, s: SequenceNumber, from: nat, to: nat, lo: Option<UserKey>, hi: Option<UserKey>)
    requires Sorted(list) && from <= to <= |list|
    requires forall i :: from <= i < to && Shown(list, s, i) ==>
               (lo.Some? && list[i].k.user <= lo.value) || (hi.Some? && hi.value <= list[i].k.user)
    requires forall i :: 0 <= i < from && VisibleAt(list, s, i) ==> lo.Some? && list[i].k.user <= lo.value
    requires forall i :: to <= i < |list| && VisibleAt(list, s, i) ==> hi.Some? && hi.value <= list[i].k.user
    ensures forall u :: Live(list, s, u) ==> (lo.Some? && u <= lo.value) || (hi.Some? && hi.value <= u)
  {
    forall u | Live(list, s, u)
      ensures (lo.Some? && u <= lo.value) || (hi.Some? && hi.value <= u)
    {
      LiveIsShown(list, s, u);
      var i :| 0 <= i < |list| && Shown(list, s, i) && list[i].k.user == u;
    }
  }

  // ----------------------------------------------------------------- DBIter

  class DBIter {
    const iter: ListIterator
    const sequence: SequenceNumber
    var savedKey: Option<UserKey>
    var savedValue: Bytes
    var direction: Direction
    var valid: bool

    constructor (iter: ListIterator, s: SequenceNumber)
      requires Sorted(iter.list)
      ensures this.iter == iter && sequence == s && !valid && Ok()
    {
      this.iter := iter;
      sequence := s;
      savedKey, savedValue := None, [];
      direction := Forward;
      valid := false;
    }

    /** How many entries lie at or before the internal iterator while moving backwards. */
    function Behind(): (q: nat)
      reads this, iter
      ensures q <= |iter.list|
    {
      if iter.Valid() then iter.pos + 1 else 0
    }

    /** Everything visible before `q` has a smaller user key than everything after. */
    ghost predicate Splits(q: nat)
      requires q <= |iter.list|
    {
      forall j, k :: 0 <= j < q <= k < |iter.list|
                     && VisibleAt(iter.list, sequence, j) && VisibleAt(iter.list, sequence, k) ==>
                     iter.list[j].k.user < iter.list[k].k.user
    }

    /** Moving forward the internal iterator is at the entry shown. Moving backwards it
        is before the current key, with nothing visible in between. */
    ghost predicate Ok()
      reads this, iter
    {
      Sorted(iter.list)
      && (valid && direction.Forward? ==> Shown(iter.list, sequence, iter.pos))
      && (valid && direction.Reverse? ==>
            savedKey.Some? && Read(SetOf(iter.list), savedKey.value, sequence) == Present(savedValue)
            && (forall j :: 0 <= j < Behind() && VisibleAt(iter.list, sequence, j) ==> iter.list[j].k.user < savedKey.value)
            && (forall j :: Behind() <= j < |iter.list| && VisibleAt(iter.list, sequence, j) ==>
                  savedKey.value <= iter.list[j].k.user))
    }

    function Key(): UserKey
      requires Ok() && valid
      reads this, iter
    {
      if direction.Forward? then iter.list[iter.pos].k.user else savedKey.value
    }

    function Value(): Bytes
      requires Ok() && valid
      reads this, iter
    {
      if direction.Forward? then iter.list[iter.pos].value else savedValue
    }

    ghost predicate IsLive(u: UserKey) {
      Live(iter.list, sequence, u)
    }

    /** A valid cursor yields what a read of its key answers. */
    lemma YieldsRead()
      requires Ok() && valid
      ensures Read(SetOf(iter.list), Key(), sequence) == Present(Value())
    {
      if direction.Forward? {
        ShownIsLive(iter.list, sequence, iter.pos);
      }
    }

    // ------------------------------------------------------------- forward

    /** Where a forward search may start: with `skip` set, everything visible before is
        at or below it and everything visible from here on at or above. */
    ghost predicate Starts(p: nat, skip: Option<UserKey>)
      requires p <= |iter.list|
    {
      if skip.Some? then
        (forall j :: 0 <= j < p && VisibleAt(iter.list, sequence, j) ==> iter.list[j].k.user <= skip.value)
        && forall j :: p <= j < |iter.list| && VisibleAt(iter.list, sequence, j) ==> skip.value <= iter.list[j].k.user
      else Splits(p)
    }

    /** Stops at the first shown entry that is not skipped. `savedKey` holds the key to
        skip while `skipping0` or a deletion asks for it. */
    method FindNextUserEntry(skipping0: bool)
      requires Sorted(iter.list) && iter.Valid() && direction.Forward?
      requires skipping0 ==> savedKey.Some?
      requires Starts(iter.pos, if skipping0 then savedKey else None)
      modifies this`valid, this`savedKey, iter
      ensures Ok() && direction.Forward?
      ensures old(iter.pos) <= iter.pos <= |iter.list| && valid == iter.Valid()
      ensures valid ==> (skipping0 ==> Key() > old(savedKey).value)
      ensures forall i :: old(iter.pos) <= i < iter.pos && Shown(iter.list, sequence, i) ==>
                skipping0 && iter.list[i].k.user <= old(savedKey).value
    {
      var skipping := skipping0;
      ghost var p0, skip0 := iter.pos, savedKey;
      ghost var deletion: Option<nat> := None;
      var more := true;
      while more
        invariant p0 <= iter.pos <= |iter.list| && more == iter.Valid()
        invariant direction.Forward?
        invariant skipping0 ==> skipping
        invariant skipping ==> savedKey.Some? && Starts(iter.pos, savedKey)
        invariant !skipping ==> Starts(iter.pos, None)
        invariant skipping0 ==> savedKey.value >= skip0.value
        invariant skipping && deletion.None? ==> skipping0 && savedKey == skip0
        invariant deletion.Some? ==> skipping && deletion.value < iter.pos
                                     && VisibleAt(iter.list, sequence, deletion.value)
                                     && iter.list[deletion.value].k.user == savedKey.value
        invariant forall i :: p0 <= i < iter.pos && Shown(iter.list, sequence, i) ==>
            skipping0 && iter.list[i].k.user <= skip0.value
        decreases |iter.list| - iter.pos
      {
        var e := iter.list[iter.pos];
        ForwardStep(iter.pos, if skipping then savedKey else None);
        if e.k.sequence <= sequence {
          match e.k.kind
          case Deletion =>
            savedKey := Some(e.k.user);
            skipping := true;
            deletion := Some(iter.pos);
          case Value =>
            if skipping && e.k.user <= savedKey.value {
            } else {
              valid := true;
              savedKey := None;
              return;
            }
        }
        iter.Next();
        more := iter.Valid();
      }
      savedKey := None;
      valid := false;
    }

    /** What one entry does to a forward search. */
    lemma ForwardStep(p: nat, skip: Option<UserKey>)
      requires Sorted(iter.list) && p < |iter.list| && Starts(p, skip)
      ensures var e := iter.list[p];
              if !VisibleAt(iter.list, sequence, p) then Starts(p + 1, skip) && !Shown(iter.list, sequence, p)
              else
                (e.k.kind.Deletion? ==> Starts(p + 1, Some(e.k.user)) && !Shown(iter.list, sequence, p))
                && (skip.Some? && e.k.user <= skip.value ==> Starts(p + 1, skip) && e.k.user == skip.value)
                && (e.k.kind.Value? && (skip.None? || e.k.user > skip.value) ==> Shown(iter.list, sequence, p))
    {
      forall j | 0 <= j < |iter.list|
        ensures j <= p ==> iter.list[j].k.user <= iter.list[p].k.user
        ensures j >= p ==> iter.list[p].k.user <= iter.list[j].k.user
      {
        if j <= p {
          SortedUsers(iter.list, j, p);
        } else {
          SortedUsers(iter.list, p, j);
        }
      }
    }

    method Seek(target: UserKey)
      requires Ok()
      modifies this, iter
      ensures Ok()
      ensures valid ==> Key() >= target && forall u :: IsLive(u) && u >= target ==> Key() <= u
      ensures !valid ==> forall u :: IsLive(u) ==> u < target
    {
      direction := Forward;
      savedValue := [];
      savedKey := None;
      iter.Seek(SeekKey(target, sequence));
      ghost var p := iter.pos;
      if iter.Valid() {
        FindNextUserEntry(false);
      } else {
        valid := false;
      }
      AfterForward(p, Some(target - 1));
    }

    /** What a finished forward search says about live keys above `lo`. */
    lemma AfterForward(p: nat, lo: Option<UserKey>)
      requires Ok() && direction.Forward? && p <= iter.pos <= |iter.list| && valid == iter.Valid()
      requires forall i :: 0 <= i < p && VisibleAt(iter.list, sequence, i) ==> lo.Some? && iter.list[i].k.user <= lo.value
      requires forall i :: p <= i < iter.pos && Shown(iter.list, sequence, i) ==> lo.Some? && iter.list[i].k.user <= lo.value
      ensures forall u :: IsLive(u) ==> (lo.Some? && u <= lo.value) || (valid && Key() <= u)
    {
      var hi := if valid then Some(Key()) else None;
      forall i | iter.pos <= i < |iter.list|
        ensures hi.Some? && hi.value <= iter.list[i].k.user
      {
        SortedUsers(iter.list, iter.pos, i);
      }
      NothingShownMeansNothingLive(iter.list, sequence, p, iter.pos, lo, hi);
    }

    method SeekToFirst()
      requires Ok()
      modifies this, iter
      ensures Ok()
      ensures valid ==> forall u :: IsLive(u) ==> Key() <= u
      ensures !valid ==> forall u :: !IsLive(u)
    {
      direction := Forward;
      savedValue := [];
      iter.SeekToFirst();
      if iter.Valid() {
        FindNextUserEntry(false);
      } else {
        valid := false;
      }
      AfterForward(0, None);
    }

    method Next()
      requires Ok() && valid
      modifies this, iter
      ensures Ok()
      ensures valid ==> Key() > old(Key()) && forall u :: IsLive(u) && u > old(Key()) ==> Key() <= u
      ensures !valid ==> forall u :: IsLive(u) ==> u <= old(Key())
    {
      ghost var k := Key();
      if direction == Reverse {
        ghost var q := Behind();
        direction := Forward;
        if !iter.Valid() {
          iter.SeekToFirst();
        } else {
          iter.Next();
        }
        assert iter.pos == q;
        if !iter.Valid() {
          // The entries of the current key lie ahead, so giving up here never happens.
          assert false;
        }
      } else {
        savedKey := Some(iter.list[iter.pos].k.user);
        ForwardStart();
      }
      ghost var p := iter.pos;
      assert savedKey == Some(k);
      FindNextUserEntry(true);
      AfterForward(p, Some(k));
    }

    lemma ForwardStart()
      requires Sorted(iter.list) && iter.Valid()
      ensures Starts(iter.pos, Some(iter.list[iter.pos].k.user))
    {
      forall j | 0 <= j < |iter.list|
        ensures j <= iter.pos ==> iter.list[j].k.user <= iter.list[iter.pos].k.user
        ensures j >= iter.pos ==> iter.list[iter.pos].k.user <= iter.list[j].k.user
      {
        if j <= iter.pos {
          SortedUsers(iter.list, j, iter.pos);
        } else {
          SortedUsers(iter.list, iter.pos, j);
        }
      }
    }

    // ------------------------------------------------------------ backward

    /** The oldest entry processed so far, while scanning back from `q0` to `q`. */
    ghost predicate Scanned(q: nat, q0: nat, x: Option<nat>)
      requires q <= q0 <= |iter.list|
    {
      (x.Some? ==> q <= x.value < q0 && VisibleAt(iter.list, sequence, x.value))
      && (forall j :: q <= j < q0 && VisibleAt(iter.list, sequence, j) ==> x.Some? && x.value <= j)
      && (forall j :: q <= j < q0 && Shown(iter.list, sequence, j) ==> x == Some(j))
    }

    /** Steps back to the newest entry of the previous live key, and stops before it. */
    method FindPrevUserEntry()
      requires Sorted(iter.list) && direction.Reverse?
      requires Splits(Behind())
      modifies this, iter
      ensures Ok()
      ensures valid ==> direction.Reverse? && Behind() <= old(Behind())
      ensures valid ==> forall i :: 0 <= i < old(Behind()) && Shown(iter.list, sequence, i) ==>
                                    iter.list[i].k.user <= Key()
      ensures valid ==> exists i :: 0 <= i < old(Behind()) && VisibleAt(iter.list, sequence, i) && iter.list[i].k.user == Key()
      ensures !valid ==> forall i :: 0 <= i < old(Behind()) ==> !Shown(iter.list, sequence, i)
    {
      ghost var q0 := Behind();
      var valueType, x := ScanBack();
      if valueType == Kind.Deletion {
        NothingShownBack(q0, x);
        valid := false;
        savedKey, savedValue := None, [];
        direction := Forward;
      } else {
        valid := true;
        StoppedAt(Behind(), q0, x.value);
        ShownIsLive(iter.list, sequence, x.value);
      }
    }

    /** The scan itself: back over one user key, and on over deleted ones. */
    method ScanBack() returns (valueType: Kind, ghost x: Option<nat>)
      requires Sorted(iter.list)
      modifies this`savedKey, this`savedValue, iter
      ensures Behind() <= old(Behind()) && Scanned(Behind(), old(Behind()), x)
      ensures valueType == (if x.Some? then iter.list[x.value].k.kind else Kind.Deletion)
      ensures valueType.Value? ==>
                savedKey == Some(iter.list[x.value].k.user) && savedValue == iter.list[x.value].value
      ensures Behind() > 0 ==>
                valueType.Value? && VisibleAt(iter.list, sequence, Behind() - 1)
                && iter.list[Behind() - 1].k.user < savedKey.value
    {
      valueType := Kind.Deletion;
      x := None;
      ghost var q0 := Behind();
      while iter.Valid()
        invariant Behind() <= q0
        invariant Scanned(Behind(), q0, x)
        invariant valueType == (if x.Some? then iter.list[x.value].k.kind else Kind.Deletion)
        invariant valueType.Value? ==>
            savedKey == Some(iter.list[x.value].k.user) && savedValue == iter.list[x.value].value
        decreases Behind()
      {
        var e := iter.list[iter.pos];
        if e.k.sequence <= sequence {
          if valueType != Kind.Deletion && e.k.user < savedKey.value {
            return;
          }
          BackwardStep(Behind(), q0, x);
          x := Some(iter.pos);
          valueType := e.k.kind;
          if valueType == Kind.Deletion {
            savedKey, savedValue := None, [];
          } else {
            savedKey, savedValue := Some(e.k.user), e.value;
          }
        }
        iter.Prev();
      }
    }

    lemma BackwardStep(q: nat, q0: nat, x: Option<nat>)
      requires Sorted(iter.list) && 0 < q <= q0 <= |iter.list| && Scanned(q, q0, x)
      requires VisibleAt(iter.list, sequence, q - 1)
      requires x.Some? && iter.list[x.value].k.kind.Value? ==> iter.list[q - 1].k.user >= iter.list[x.value].k.user
      ensures Scanned(q - 1, q0, Some(q - 1))
    {
      forall j | q <= j < q0
        ensures !Shown(iter.list, sequence, j)
      {
        if x == Some(j) {
          SortedUsers(iter.list, q - 1, j);
        }
      }
    }

    lemma NothingShownBack(q0: nat, x: Option<nat>)
      requires Sorted(iter.list) && q0 <= |iter.list| && Scanned(0, q0, x)
      requires x.Some? ==> iter.list[x.value].k.kind.Deletion?
      ensures forall i :: 0 <= i < q0 ==> !Shown(iter.list, sequence, i)
    {
    }

    /** Where a backward search stopped: `x` is shown and what is behind is smaller. */
    lemma StoppedAt(q: nat, q0: nat, x: nat)
      requires Sorted(iter.list) && q <= q0 <= |iter.list| && Splits(q0) && Scanned(q, q0, Some(x))
      requires iter.list[x].k.kind.Value?
      requires q > 0 ==> VisibleAt(iter.list, sequence, q - 1) && iter.list[q - 1].k.user < iter.list[x].k.user
      ensures Shown(iter.list, sequence, x)
      ensures forall j :: 0 <= j < q ==> iter.list[j].k.user < iter.list[x].k.user
      ensures forall j :: q <= j < |iter.list| && VisibleAt(iter.list, sequence, j) ==>
                iter.list[x].k.user <= iter.list[j].k.user
    {
      forall j | 0 <= j < q
        ensures iter.list[j].k.user < iter.list[x].k.user
      {
        SortedUsers(iter.list, j, q - 1);
      }
      forall j | q <= j < |iter.list| && VisibleAt(iter.list, sequence, j)
        ensures iter.list[x].k.user <= iter.list[j].k.user
      {
        if j < q0 {
          SortedUsers(iter.list, x, j);
        }
      }
    }

    /** What a finished backward search from `q0` says about live keys below `hi`. */
    lemma AfterBackward(q0: nat, hi: Option<UserKey>)
      requires Ok() && q0 <= |iter.list|
      requires forall i :: q0 <= i < |iter.list| && VisibleAt(iter.list, sequence, i) ==>
                 hi.Some? && hi.value <= iter.list[i].k.user
      requires valid ==> forall i :: 0 <= i < q0 && Shown(iter.list, sequence, i) ==> iter.list[i].k.user <= Key()
      requires !valid ==> forall i :: 0 <= i < q0 ==> !Shown(iter.list, sequence, i)
      ensures forall u :: IsLive(u) ==> (hi.Some? && hi.value <= u) || (valid && u <= Key())
    {
      NothingShownMeansNothingLive(iter.list, sequence, 0, q0, if valid then Some(Key()) else None, hi);
    }

    method SeekToLast()
      requires Ok()
      modifies this, iter
      ensures Ok()
      ensures valid ==> forall u :: IsLive(u) ==> u <= Key()
      ensures !valid ==> forall u :: !IsLive(u)
    {
      direction := Reverse;
      savedValue := [];
      iter.SeekToLast();
      ghost var q0 := Behind();
      FindPrevUserEntry();
      AfterBackward(q0, None);
    }

    method Prev()
      requires Ok() && valid
      modifies this, iter
      ensures Ok()
      ensures valid ==> Key() < old(Key()) && forall u :: IsLive(u) && u < old(Key()) ==> u <= Key()
      ensures !valid ==> forall u :: IsLive(u) ==> old(Key()) <= u
    {
      ghost var k := Key();
      if direction == Forward {
        ghost var p := iter.pos;
        savedKey := Some(iter.list[iter.pos].k.user);
        while true
          invariant iter.Valid() && iter.pos <= p && savedKey == Some(k) && direction.Forward?
          invariant forall j :: iter.pos <= j <= p ==> iter.list[j].k.user == k
          decreases iter.pos
        {
          iter.Prev();
          if !iter.Valid() {
            valid := false;
            savedKey, savedValue := None, [];
            FromCurrent(0, p, k);
            AfterBackward(0, Some(k));
            return;
          }
          SortedUsers(iter.list, iter.pos, p);
          if iter.list[iter.pos].k.user < savedKey.value {
            break;
          }
        }
        direction := Reverse;
        FromCurrent(Behind(), p, k);
      }
      ghost var q0 := Behind();
      FindPrevUserEntry();
      AfterBackward(q0, Some(k));
    }

    /** Going back from a shown entry over the entries of its own key. */
    lemma FromCurrent(q: nat, p: nat, k: UserKey)
      requires Sorted(iter.list) && q <= p < |iter.list|
      requires forall j :: q <= j <= p ==> iter.list[j].k.user == k
      requires q > 0 ==> iter.list[q - 1].k.user < k
      ensures forall j :: 0 <= j < q ==> iter.list[j].k.user < k
      ensures forall j :: q <= j < |iter.list| ==> k <= iter.list[j].k.user
    {
      forall j | 0 <= j < q
        ensures iter.list[j].k.user < k
      {
        SortedUsers(iter.list, j, q - 1);
      }
      forall j | q <= j < |iter.list|
        ensures k <= iter.list[j].k.user
      {
        SortedUsers(iter.list, q, j);
      }
    }
  }
}
