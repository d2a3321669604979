/** The compaction loop and the entries it drops
    (db/db_impl.cc, and class Compaction of db/version_set.cc). */
module CompactionLoop {
  import opened Entries
  import opened Versions
  import opened CompactionInputs

  // ----------------------------------------------------------- what is dropped

  /** No file two or more levels below `level` has `u` in its key range. */
  ghost predicate IsBaseLevel(v: Version, level: nat, u: UserKey) {
    forall l, f :: level + 2 <= l && In(v, l, f) ==> !(f.smallest.user <= u <= f.largest.user)
  }

  /** Some newer entry of the same user key is already visible at the snapshot. */
  ghost predicate Hidden(input: seq<Entry>, i: nat, snap: SequenceNumber) {
    i < |input| && exists j :: 0 <= j < i && input[j].k.user == input[i].k.user && input[j].k.sequence <= snap
  }

  ghost predicate Obsolete(v: Version, level: nat, e: Entry, snap: SequenceNumber) {
    e.k.kind.Deletion? && e.k.sequence <= snap && IsBaseLevel(v, level, e.k.user)
  }

  ghost predicate Dropped(v: Version, level: nat, input: seq<Entry>, i: nat, snap: SequenceNumber) {
    Hidden(input, i, snap) || (i < |input| && Obsolete(v, level, input[i], snap))
  }

  ghost function Kept(v: Version, level: nat, input: seq<Entry>, n: nat, snap: SequenceNumber): (r: seq<Entry>)
    requires n <= |input|
  {
    if n == 0 then []
    else Kept(v, level, input, n - 1, snap) + if Dropped(v, level, input, n - 1, snap) then [] else [input[n - 1]]
  }

  lemma {:induction false} KeptMembers(v: Version, level: nat, input: seq<Entry>, n: nat, snap: SequenceNumber)
    requires n <= |input|
    ensures forall e :: e in Kept(v, level, input, n, snap) <==>
                        exists i :: 0 <= i < n && input[i] == e && !Dropped(v, level, input, i, snap)
  {
    if n > 0 {
      KeptMembers(v, level, input, n - 1, snap);
      forall e
        ensures e in Kept(v, level, input, n, snap) <==>
                exists i :: 0 <= i < n && input[i] == e && !Dropped(v, level, input, i, snap)
      {
        var below := exists i :: 0 <= i < n - 1 && input[i] == e && !Dropped(v, level, input, i, snap);
        assert (exists i :: 0 <= i < n && input[i] == e && !Dropped(v, level, input, i, snap)) <==>
               below || (input[n - 1] == e && !Dropped(v, level, input, n - 1, snap));
      }
    }
  }

  lemma {:induction false} KeptSorted(v: Version, level: nat, input: seq<Entry>, n: nat, snap: SequenceNumber)
    requires n <= |input| && Sorted(input)
    ensures Sorted(Kept(v, level, input, n, snap))
  {
    if n > 0 {
      KeptSorted(v, level, input, n - 1, snap);
      KeptMembers(v, level, input, n - 1, snap);
      var r := Kept(v, level, input, n - 1, snap);
      forall i | 0 <= i < |r|
        ensures Before(r[i].k, input[n - 1].k)
      {
        assert r[i] in r;
      }
    }
  }

  /** Within a user key it is enough to look at the entry just before. */
  lemma HiddenByPrevious(input: seq<Entry>, i: nat, snap: SequenceNumber)
    requires Sorted(input) && i < |input|
    ensures Hidden(input, i, snap) <==>
            i > 0 && input[i - 1].k.user == input[i].k.user && input[i - 1].k.sequence <= snap
  {
    if i > 0 {
      forall j | 0 <= j < i && input[j].k.user == input[i].k.user && input[j].k.sequence <= snap
        ensures input[i - 1].k.user == input[i].k.user && input[i - 1].k.sequence <= snap
      {
        assert Before(input[i - 1].k, input[i].k);
        assert j == i - 1 || Before(input[j].k, input[i - 1].k);
      }
    }
  }

  // -------------------------------------------------------------- the loop

  function Concat(files: seq<File>): seq<Entry> {
    if files == [] then [] else Concat(files[..|files| - 1]) + files[|files| - 1].entries
  }

  /** New files numbered upwards from `next`. */
  ghost predicate NumberedFrom(files: seq<File>, next: nat) {
    forall i :: 0 <= i < |files| ==> files[i].number == next + i
  }

  ghost predicate Bounded(files: seq<File>) {
    forall i :: 0 <= i < |files| ==>
      files[i].entries != []
      && files[i].smallest == files[i].entries[0].k
      && files[i].largest == files[i].entries[|files[i].entries| - 1].k
  }

  class Compaction {
    const version: Version
    const inputs: Inputs
    const maxFileSize: nat
    /** The size of a table that holds these entries. */
    const fileSize: seq<Entry> -> nat

    const levelPtrs: array<nat>
    var grandparentIndex: nat
    var seenKey: bool
    var overlappedBytes: nat

    constructor (version: Version, inputs: Inputs, maxFileSize: nat, fileSize: seq<Entry> -> nat)
      requires |version| == NUM_LEVELS
      ensures this.version == version && this.inputs == inputs
      ensures this.maxFileSize == maxFileSize && this.fileSize == fileSize
      ensures fresh(levelPtrs) && Ready(None)
      ensures grandparentIndex == 0 && !seenKey && overlappedBytes == 0
    {
      this.version := version;
      this.inputs := inputs;
      this.maxFileSize := maxFileSize;
      this.fileSize := fileSize;
      levelPtrs := new nat[NUM_LEVELS](_ => 0);
      grandparentIndex := 0;
      seenKey := false;
      overlappedBytes := 0;
    }

    /** The files already passed in every deeper level end before `u`. */
    ghost predicate PtrsBehind(u: UserKey)
      reads levelPtrs
    {
      levelPtrs.Length == NUM_LEVELS && |version| == NUM_LEVELS
      && forall l :: inputs.level + 2 <= l < NUM_LEVELS ==> PtrBehind(version[l], levelPtrs[l], u)
    }

    static ghost predicate PtrBehind(files: seq<File>, p: nat, u: UserKey) {
      p <= |files| && forall i :: 0 <= i < p ==> files[i].largest.user < u
    }

    /** Ready for any key at or after the last one asked about. */
    ghost predicate Ready(last: Option<UserKey>)
      reads levelPtrs
    {
      if last.Some? then PtrsBehind(last.value)
      else levelPtrs.Length == NUM_LEVELS && |version| == NUM_LEVELS
           && forall l :: 0 <= l < NUM_LEVELS ==> levelPtrs[l] == 0
    }

    lemma ReadyFor(last: Option<UserKey>, u: UserKey)
      requires Ready(last) && (last.Some? ==> last.value <= u)
      ensures PtrsBehind(u)
    {
    }

    /** Moves one level's pointer to the first file that ends at or after `u`. */
    method AdvancePtr(lvl: nat, u: UserKey)
      requires inputs.level + 2 <= lvl < NUM_LEVELS && PtrsBehind(u)
      modifies levelPtrs
      ensures PtrsBehind(u)
      ensures levelPtrs[lvl] < |version[lvl]| ==> u <= version[lvl][levelPtrs[lvl]].largest.user
    {
      while levelPtrs[lvl] < |version[lvl]| && !(u <= version[lvl][levelPtrs[lvl]].largest.user)
        invariant PtrsBehind(u)
        decreases |version[lvl]| - levelPtrs[lvl]
      {
        assert PtrBehind(version[lvl], levelPtrs[lvl], u);
        levelPtrs[lvl] := levelPtrs[lvl] + 1;
      }
    }

    /** Keys arrive in increasing order, so each level's pointer only moves forward. */
    method IsBaseLevelForKey(u: UserKey) returns (r: bool)
      requires LevelsOk(version) && PtrsBehind(u)
      modifies levelPtrs
      ensures PtrsBehind(u)
      ensures r <==> IsBaseLevel(version, inputs.level, u)
    {
      var lvl := inputs.level + 2;
      while lvl < NUM_LEVELS
        invariant inputs.level + 2 <= lvl
        invariant PtrsBehind(u)
        invariant forall l, f :: inputs.level + 2 <= l < lvl && In(version, l, f) ==>
                                 !(f.smallest.user <= u <= f.largest.user)
      {
        AdvancePtr(lvl, u);
        assert PtrBehind(version[lvl], levelPtrs[lvl], u);
        if levelPtrs[lvl] < |version[lvl]| {
          var f := version[lvl][levelPtrs[lvl]];
          if u >= f.smallest.user {
            assert In(version, lvl, f);
            return false;
          }
        }
        NoneHoldsFrom(version[lvl], levelPtrs[lvl], u);
        lvl := lvl + 1;
      }
      return true;
    }

    static lemma NoneHoldsFrom(files: seq<File>, p: nat, u: UserKey)
      requires LevelOk(files) && p <= |files|
      requires forall i :: 0 <= i < p ==> files[i].largest.user < u
      requires p < |files| ==> u < files[p].smallest.user
      ensures forall f :: f in files ==> !(f.smallest.user <= u <= f.largest.user)
    {
      forall f | f in files
        ensures !(f.smallest.user <= u <= f.largest.user)
      {
        var i :| 0 <= i < |files| && files[i] == f;
        if p < i {
          EarlierEndsFirst(files, p, i);
          assert files[p] in files;
          EntriesWithin(files[p], files[p].entries[0]);
        }
      }
    }

    ghost function SizeBetween(from: nat, to: nat): nat
      requires from <= to <= |inputs.grandparents|
    {
      TotalFileSize(inputs.grandparents[from..to])
    }

    /** Ends an output that would overlap too many bytes two levels down. */
    method ShouldStopBefore(key: IKey) returns (stop: bool)
      requires grandparentIndex <= |inputs.grandparents|
      modifies this`grandparentIndex, this`seenKey, this`overlappedBytes
      ensures old(grandparentIndex) <= grandparentIndex <= |inputs.grandparents| && seenKey
      ensures forall i :: old(grandparentIndex) <= i < grandparentIndex ==> Less(inputs.grandparents[i].largest, key)
      ensures grandparentIndex < |inputs.grandparents| ==> !Less(inputs.grandparents[grandparentIndex].largest, key)
      ensures var passed := old(overlappedBytes)
                            + if old(seenKey) then SizeBetween(old(grandparentIndex), grandparentIndex) else 0;
              stop == (passed > MaxGrandParentOverlapBytes(maxFileSize)) && overlappedBytes == if stop then 0 else passed
    {
      while grandparentIndex < |inputs.grandparents|
            && Compare(key, inputs.grandparents[grandparentIndex].largest) > 0
        invariant old(grandparentIndex) <= grandparentIndex <= |inputs.grandparents|
        invariant forall i :: old(grandparentIndex) <= i < grandparentIndex ==> Less(inputs.grandparents[i].largest, key)
        invariant overlappedBytes == old(overlappedBytes)
                                     + if seenKey then SizeBetween(old(grandparentIndex), grandparentIndex) else 0
        invariant seenKey == old(seenKey)
      {
        ghost var from, to := old(grandparentIndex), grandparentIndex;
        assert inputs.grandparents[from..to + 1][..to - from] == inputs.grandparents[from..to];
        if seenKey {
          overlappedBytes := overlappedBytes + inputs.grandparents[grandparentIndex].size;
        }
        grandparentIndex := grandparentIndex + 1;
      }
      seenKey := true;
      if overlappedBytes > MaxGrandParentOverlapBytes(maxFileSize) {
        overlappedBytes := 0;
        return true;
      } else {
        return false;
      }
    }

    /** Whether the loop drops `e`, given the sequence number of the entry before it for
        the same user key. */
    method DropEntry(e: Entry, lastSequenceForKey: SequenceNumber, snap: SequenceNumber) returns (drop: bool)
      requires LevelsOk(version) && PtrsBehind(e.k.user)
      modifies levelPtrs
      ensures PtrsBehind(e.k.user)
      ensures drop <==> lastSequenceForKey <= snap || Obsolete(version, inputs.level, e, snap)
    {
      drop := false;
      if lastSequenceForKey <= snap {
        drop := true;
      } else if e.k.kind == Deletion && e.k.sequence <= snap {
        drop := IsBaseLevelForKey(e.k.user);
      }
    }

    /** Runs over the merged inputs and writes the entries that are still needed into
        new files. `snap` is the oldest snapshot in use; a sequence number that has
        reached the maximum is not supported by the format. */
    method DoCompactionWork(input: seq<Entry>, snap: SequenceNumber, next: nat) returns (outputs: seq<File>)
      requires LevelsOk(version) && Sorted(input) && snap < MAX_SEQUENCE
      requires Ready(None) && grandparentIndex <= |inputs.grandparents|
      modifies this`grandparentIndex, this`seenKey, this`overlappedBytes, levelPtrs
      ensures Concat(outputs) == Kept(version, inputs.level, input, |input|, snap)
      ensures Bounded(outputs) && NumberedFrom(outputs, next)
    {
      outputs := [];
      var builder: seq<Entry> := [];
      var currentUserKey: Option<UserKey> := None;
      var lastSequenceForKey: SequenceNumber := MAX_SEQUENCE;
      for n := 0 to |input|
        invariant grandparentIndex <= |inputs.grandparents|
        invariant Concat(outputs) + builder == Kept(version, inputs.level, input, n, snap)
        invariant Bounded(outputs) && NumberedFrom(outputs, next)
        invariant Remembers(input, n, currentUserKey, lastSequenceForKey)
        invariant Ready(currentUserKey)
      {
        outputs, builder := CompactEntry(input, n, snap, next, outputs, builder, currentUserKey, lastSequenceForKey);
        currentUserKey, lastSequenceForKey := Some(input[n].k.user), input[n].k.sequence;
      }
      if builder != [] {
        outputs := Finish(outputs, builder, next);
      }
    }

    /** One round of the loop: ends the output file if it must, and keeps or drops the entry. */
    method CompactEntry(input: seq<Entry>, n: nat, snap: SequenceNumber, next: nat, outputs0: seq<File>, builder0: seq<Entry>,
                        currentUserKey: Option<UserKey>, lastSequenceForKey: SequenceNumber)
      returns (outputs: seq<File>, builder: seq<Entry>)
      requires LevelsOk(version) && Sorted(input) && snap < MAX_SEQUENCE && n < |input|
      requires grandparentIndex <= |inputs.grandparents| && Bounded(outputs0) && NumberedFrom(outputs0, next)
      requires Concat(outputs0) + builder0 == Kept(version, inputs.level, input, n, snap)
      requires Remembers(input, n, currentUserKey, lastSequenceForKey) && Ready(currentUserKey)
      modifies this`grandparentIndex, this`seenKey, this`overlappedBytes, levelPtrs
      ensures grandparentIndex <= |inputs.grandparents| && Bounded(outputs) && NumberedFrom(outputs, next)
      ensures Concat(outputs) + builder == Kept(version, inputs.level, input, n + 1, snap)
      ensures Ready(Some(input[n].k.user))
    {
      outputs, builder := outputs0, builder0;
      var stop := ShouldStopBefore(input[n].k);
      if stop && builder != [] {
        outputs := Finish(outputs, builder, next);
        builder := [];
      }
      var drop := JudgeEntry(input, n, snap, currentUserKey, lastSequenceForKey);
      if !drop {
        outputs, builder := Emit(outputs, builder, input[n], next);
      }
    }

    /** The loop remembers the user key and the sequence number of the entry before. */
    static ghost predicate Remembers(input: seq<Entry>, n: nat, currentUserKey: Option<UserKey>,
                                     lastSequenceForKey: SequenceNumber)
      requires n <= |input|
    {
      if n == 0 then currentUserKey.None?
      else currentUserKey == Some(input[n - 1].k.user) && lastSequenceForKey == input[n - 1].k.sequence
    }

    /** Whether entry `n` is dropped; the first entry of a user key is never hidden. */
    method JudgeEntry(input: seq<Entry>, n: nat, snap: SequenceNumber, currentUserKey: Option<UserKey>,
                      lastSequenceForKey: SequenceNumber)
      returns (drop: bool)
      requires LevelsOk(version) && Sorted(input) && snap < MAX_SEQUENCE && n < |input|
      requires Remembers(input, n, currentUserKey, lastSequenceForKey) && Ready(currentUserKey)
      modifies levelPtrs
      ensures drop <==> Dropped(version, inputs.level, input, n, snap)
      ensures Ready(Some(input[n].k.user))
    {
      var e := input[n];
      assert n > 0 ==> Before(input[n - 1].k, e.k);
      ReadyFor(currentUserKey, e.k.user);
      HiddenByPrevious(input, n, snap);
      drop := DropEntry(e, if currentUserKey == Some(e.k.user) then lastSequenceForKey else MAX_SEQUENCE, snap);
    }

    /** Appends an entry to the output being built and closes it if it is big enough. */
    method Emit(outputs: seq<File>, builder: seq<Entry>, e: Entry, next: nat)
      returns (outputs': seq<File>, builder': seq<Entry>)
      requires Bounded(outputs) && NumberedFrom(outputs, next)
      ensures Concat(outputs') + builder' == Concat(outputs) + builder + [e]
      ensures Bounded(outputs') && NumberedFrom(outputs', next)
    {
      outputs', builder' := outputs, builder + [e];
      assert Concat(outputs) + builder + [e] == Concat(outputs) + builder';
      if fileSize(builder') >= maxFileSize {
        outputs' := Finish(outputs, builder', next);
        builder' := [];
      }
    }

    function Finish(outputs: seq<File>, builder: seq<Entry>, next: nat): (r: seq<File>)
      requires builder != [] && Bounded(outputs) && NumberedFrom(outputs, next)
      ensures Concat(r) == Concat(outputs) + builder && Bounded(r) && NumberedFrom(r, next)
    {
      var f := File(next + |outputs|, fileSize(builder), builder[0].k, builder[|builder| - 1].k, builder);
      var r := outputs + [f];
      assert r[..|r| - 1] == outputs;
      r
    }
  }

  // ------------------------------------------------------------ the outputs

  /** The outputs are files of a sorted, disjoint level. */
  lemma {:induction false} OutputsAreOrdered(outputs: seq<File>)
    requires Bounded(outputs) && Sorted(Concat(outputs))
    ensures forall i :: 0 <= i < |outputs| ==> FileOk(outputs[i])
    ensures forall i, j :: 0 <= i < j < |outputs| ==> Before(outputs[i].largest, outputs[j].smallest)
    ensures SetOf(Concat(outputs)) == Contents(outputs)
  {
    if outputs != [] {
      var init, last := outputs[..|outputs| - 1], outputs[|outputs| - 1];
      SortedParts(Concat(init), last.entries);
      OutputsAreOrdered(init);
      assert FileOk(last);
      forall i | 0 <= i < |init|
        ensures Before(outputs[i].largest, last.smallest)
      {
        LastOutputIsLater(init, last, init[i]);
      }
      ConcatContents(init, last);
      assert outputs == init + [last];
    }
  }

  lemma SortedParts(a: seq<Entry>, b: seq<Entry>)
    requires Sorted(a + b)
    ensures Sorted(a) && Sorted(b)
  {
    var all := a + b;
    assert forall i :: 0 <= i < |a| ==> all[i] == a[i];
    assert forall i :: 0 <= i < |b| ==> all[|a| + i] == b[i];
  }

  lemma LastOutputIsLater(init: seq<File>, last: File, f: File)
    requires f in init && FileOk(f) && FileOk(last) && Sorted(Concat(init) + last.entries)
    requires SetOf(Concat(init)) == Contents(init)
    ensures Before(f.largest, last.smallest)
  {
    var part, e := Concat(init), f.entries[|f.entries| - 1];
    assert e in f.entries;
    assert e in Contents(init);
    var p :| 0 <= p < |part| && part[p] == e;
    var all := part + last.entries;
    assert Before(all[p].k, all[|part|].k);
  }

  lemma ConcatContents(init: seq<File>, last: File)
    requires SetOf(Concat(init)) == Contents(init)
    ensures SetOf(Concat(init) + last.entries) == Contents(init + [last])
  {
    assert SetOf(Concat(init) + last.entries) == SetOf(Concat(init)) + SetOf(last.entries);
    assert forall f :: f in init + [last] <==> f in init || f == last;
    assert Contents(init + [last]) == Contents(init) + SetOf(last.entries);
  }

  // -------------------------------------------------------------- reads

  /** The read of `u` that a compaction would change: its newest compacted entry at
      the snapshot is a dropped tombstone, nothing newer covers it, and an entry left
      outside the compaction shows again. */
  ghost predicate Resurrects(v: Version, level: nat, newer: set<Entry>, input: seq<Entry>, older: set<Entry>,
                             snap: SequenceNumber, u: UserKey) {
    IsBaseLevel(v, level, u) && !SomeSeen(newer, u, snap)
    && (exists t :: IsNewest(SetOf(input), u, snap, t) && t.k.kind.Deletion?)
    && Read(older, u, snap).Present?
  }

  /** Nothing that is newer or compacted becomes visible between `snap` and `s`. */
  ghost predicate Uncovered(store: set<Entry>, snap: SequenceNumber, u: UserKey, s: SequenceNumber) {
    forall e :: e in store && Sees(e, u, s) ==> e.k.sequence <= snap
  }

  /** The other stored entries are newer or older than what is compacted. */
  ghost predicate Surrounds(newer: set<Entry>, input: seq<Entry>, older: set<Entry>) {
    Sorted(input) && Unique(newer + SetOf(input) + older)
    && Newer(newer, SetOf(input)) && Newer(SetOf(input), older)
  }

  lemma SameVisible(a: set<Entry>, b: set<Entry>, u: UserKey, s: SequenceNumber)
    requires Unique(a) && Unique(b)
    requires forall e :: Sees(e, u, s) ==> (e in a <==> e in b)
    ensures Read(a, u, s) == Read(b, u, s)
  {
    if SomeSeen(a, u, s) {
      NewestExists(a, u, s);
      var e :| IsNewest(a, u, s, e);
      assert IsNewest(b, u, s, e);
      ReadIs(a, u, s, e);
      ReadIs(b, u, s, e);
    } else {
      assert !SomeSeen(b, u, s);
    }
  }

  lemma SameNewest(a: set<Entry>, b: set<Entry>, u: UserKey, s: SequenceNumber, e: Entry)
    requires Unique(a) && Unique(b) && IsNewest(a, u, s, e) && IsNewest(b, u, s, e)
    ensures Read(a, u, s) == Read(b, u, s)
  {
    ReadIs(a, u, s, e);
    ReadIs(b, u, s, e);
  }

  ghost function KeptSet(v: Version, level: nat, input: seq<Entry>, snap: SequenceNumber): set<Entry> {
    SetOf(Kept(v, level, input, |input|, snap))
  }

  lemma KeptIsPart(v: Version, level: nat, input: seq<Entry>, snap: SequenceNumber)
    ensures KeptSet(v, level, input, snap) <= SetOf(input)
  {
    KeptMembers(v, level, input, |input|, snap);
  }

  /** The newest compacted entry a reader sees is kept, or it is an obsolete tombstone
      and then no compacted entry of its user key stays visible. */
  lemma NewestKeptOrObsolete(v: Version, level: nat, input: seq<Entry>, snap: SequenceNumber, u: UserKey, s: SequenceNumber, e: Entry)
    requires Sorted(input) && s >= snap && IsNewest(SetOf(input), u, s, e)
    ensures if Obsolete(v, level, e, snap) then !SomeSeen(KeptSet(v, level, input, snap), u, s)
            else e in KeptSet(v, level, input, snap)
  {
    KeptMembers(v, level, input, |input|, snap);
    var i :| 0 <= i < |input| && input[i] == e;
    forall j | 0 <= j < i && input[j].k.user == u
      ensures input[j].k.sequence > s
    {
      assert Before(input[j].k, input[i].k);
      assert input[j] in SetOf(input);
    }
    assert !Hidden(input, i, snap);
    if Obsolete(v, level, e, snap) {
      ObsoleteHidesAll(v, level, input, snap, i, s);
    } else {
      assert !Dropped(v, level, input, i, snap);
    }
  }

  /** An obsolete tombstone takes everything that it hides with it. */
  lemma ObsoleteHidesAll(v: Version, level: nat, input: seq<Entry>, snap: SequenceNumber, i: nat, s: SequenceNumber)
    requires Sorted(input) && i < |input| && Obsolete(v, level, input[i], snap)
    requires forall j :: 0 <= j < i && input[j].k.user == input[i].k.user ==> input[j].k.sequence > s
    ensures forall j :: 0 <= j < |input| && Sees(input[j], input[i].k.user, s) ==> Dropped(v, level, input, j, snap)
  {
    forall j | 0 <= j < |input| && Sees(input[j], input[i].k.user, s)
      ensures Dropped(v, level, input, j, snap)
    {
      assert i <= j;
      assert i < j ==> Hidden(input, j, snap);
    }
  }

  /** What a compaction does to one read: nothing, except in the resurrecting case. */
  lemma CompactedReadAt(v: Version, level: nat, newer: set<Entry>, input: seq<Entry>, older: set<Entry>,
                        snap: SequenceNumber, u: UserKey, s: SequenceNumber)
    requires Surrounds(newer, input, older) && s >= snap
    ensures Read(newer + KeptSet(v, level, input, snap) + older, u, s) == Read(newer + SetOf(input) + older, u, s)
            <==> !(Resurrects(v, level, newer, input, older, snap, u) && Uncovered(newer + SetOf(input), snap, u, s))
  {
    var all, kept := SetOf(input), KeptSet(v, level, input, snap);
    KeptIsPart(v, level, input, snap);
    if !SomeSeen(all, u, s) {
      assert !SomeSeen(kept, u, s);
      SameVisible(newer + all + older, newer + kept + older, u, s);
      assert forall t :: IsNewest(all, u, snap, t) ==> t in all && Sees(t, u, s);
    } else {
      NewestExists(all, u, s);
      var e :| IsNewest(all, u, s, e);
      if SomeSeen(newer, u, s) {
        NewestExists(newer, u, s);
        var n :| IsNewest(newer, u, s, n);
        NewerDecides(newer, all, older, u, s, n, e);
        assert IsNewest(newer + kept + older, u, s, n);
        SameNewest(newer + all + older, newer + kept + older, u, s, n);
      } else {
        CompactedDecides(v, level, newer, input, older, snap, u, s, e);
        assert Uncovered(newer + all, snap, u, s) <==> e.k.sequence <= snap;
      }
    }
  }

  lemma NewerDecides(newer: set<Entry>, all: set<Entry>, older: set<Entry>, u: UserKey, s: SequenceNumber, n: Entry, e: Entry)
    requires Newer(newer, all) && Newer(all, older)
    requires IsNewest(newer, u, s, n) && IsNewest(all, u, s, e)
    ensures IsNewest(newer + all + older, u, s, n)
  {
    forall x | x in newer + all + older && Sees(x, u, s)
      ensures x.k.sequence <= n.k.sequence
    {
      assert n.k.sequence > e.k.sequence;
    }
  }

  lemma CompactedDecides(v: Version, level: nat, newer: set<Entry>, input: seq<Entry>, older: set<Entry>,
                         snap: SequenceNumber, u: UserKey, s: SequenceNumber, e: Entry)
    requires Surrounds(newer, input, older) && s >= snap
    requires !SomeSeen(newer, u, s) && IsNewest(SetOf(input), u, s, e)
    ensures Read(newer + KeptSet(v, level, input, snap) + older, u, s) == Read(newer + SetOf(input) + older, u, s)
            <==> !(Resurrects(v, level, newer, input, older, snap, u) && e.k.sequence <= snap)
  {
    var all, kept := SetOf(input), KeptSet(v, level, input, snap);
    var before, after := newer + all + older, newer + kept + older;
    KeptIsPart(v, level, input, snap);
    assert Unique(after);
    assert IsNewest(before, u, s, e);
    NewestKeptOrObsolete(v, level, input, snap, u, s, e);
    if Obsolete(v, level, e, snap) {
      OnlyOlderShows(newer, kept, older, u, s, snap, e);
      ReadIs(before, u, s, e);
      assert IsNewest(all, u, snap, e);
      assert !SomeSeen(newer, u, snap);
    } else {
      assert IsNewest(after, u, s, e);
      SameNewest(before, after, u, s, e);
      NotResurrected(v, level, newer, input, older, snap, u, s, e);
    }
  }

  lemma OnlyOlderShows(newer: set<Entry>, kept: set<Entry>, older: set<Entry>, u: UserKey, s: SequenceNumber,
                       snap: SequenceNumber, e: Entry)
    requires Unique(newer + kept + older) && s >= snap && e.k.sequence <= snap
    requires !SomeSeen(newer, u, s) && !SomeSeen(kept, u, s)
    requires forall x :: x in older && x.k.user == u ==> x.k.sequence < e.k.sequence
    ensures Read(newer + kept + older, u, s) == Read(older, u, snap)
  {
    var after := newer + kept + older;
    assert Unique(older);
    SameVisible(after, older, u, s);
    if SomeSeen(older, u, s) {
      NewestExists(older, u, s);
      var x :| IsNewest(older, u, s, x);
      assert IsNewest(older, u, snap, x);
      ReadIs(older, u, s, x);
      ReadIs(older, u, snap, x);
    } else {
      assert !SomeSeen(older, u, snap);
    }
  }

  /** A kept newest entry either lies above the snapshot or is no obsolete tombstone. */
  lemma NotResurrected(v: Version, level: nat, newer: set<Entry>, input: seq<Entry>, older: set<Entry>,
                       snap: SequenceNumber, u: UserKey, s: SequenceNumber, e: Entry)
    requires Surrounds(newer, input, older) && s >= snap
    requires IsNewest(SetOf(input), u, s, e) && !Obsolete(v, level, e, snap)
    ensures e.k.sequence <= snap ==> !Resurrects(v, level, newer, input, older, snap, u)
  {
    forall t | IsNewest(SetOf(input), u, snap, t) && e.k.sequence <= snap
      ensures t == e
    {
      assert t in newer + SetOf(input) + older && e in newer + SetOf(input) + older;
    }
  }

  /** Compaction keeps every read at or above the oldest snapshot exactly when it
      resurrects no user key. */
  lemma CompactionKeepsReads(v: Version, level: nat, newer: set<Entry>, input: seq<Entry>, older: set<Entry>,
                             snap: SequenceNumber)
    requires Surrounds(newer, input, older)
    ensures (forall u, s: SequenceNumber :: s >= snap ==>
               Read(newer + KeptSet(v, level, input, snap) + older, u, s) == Read(newer + SetOf(input) + older, u, s))
            <==> (forall u :: !Resurrects(v, level, newer, input, older, snap, u))
  {
    forall u, s: SequenceNumber | s >= snap
      ensures Read(newer + KeptSet(v, level, input, snap) + older, u, s) == Read(newer + SetOf(input) + older, u, s)
              <==> !(Resurrects(v, level, newer, input, older, snap, u) && Uncovered(newer + SetOf(input), snap, u, s))
    {
      CompactedReadAt(v, level, newer, input, older, snap, u, s);
    }
    forall u | Resurrects(v, level, newer, input, older, snap, u)
      ensures Uncovered(newer + SetOf(input), snap, u, snap)
      ensures Read(newer + KeptSet(v, level, input, snap) + older, u, snap)
              != Read(newer + SetOf(input) + older, u, snap)
    {
    }
  }
}
