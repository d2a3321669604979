/** The manifest: a log of version edits, written as versions change and replayed when a
    database is opened (class VersionSet of db/version_set.cc). A table file is looked up
    by what the manifest says about it. */
module Manifest {
  import opened Entries
  import opened Coding
  import opened Versions
  import opened VersionBuilder
  import E = VersionEdits
  import Log
  import Database

  const EMPTY: Version := [[], [], [], [], [], [], []]

  /** The table file that a manifest entry stands for. */
  type Disk = E.Meta -> File

  function FilesOf(e: E.Edit, disk: Disk): FileEdit {
    FileEdit(e.deleted, seq(|e.added|, i requires 0 <= i < |e.added| => (e.added[i].0, disk(e.added[i].1))))
  }

  // ------------------------------------------------------- what was written

  /** The numbers of the files that an edit adds to a level differ. */
  ghost predicate NoRepeats(edit: FileEdit) {
    EditOk(edit)
    && forall i, j :: 0 <= i < j < |edit.added| && edit.added[i].0 == edit.added[j].0 ==>
         edit.added[i].1.number != edit.added[j].1.number
  }

  ghost function FileEdits(edits: seq<E.Edit>, disk: Disk): seq<FileEdit> {
    seq(|edits|, i requires 0 <= i < |edits| => FilesOf(edits[i], disk))
  }

  /** The versions that a database went through, from the empty one on; no file comes
      back to a level that it left. */
  ghost predicate History(edits: seq<E.Edit>, versions: seq<Version>, disk: Disk) {
    |versions| == |edits| + 1 && versions[0] == EMPTY
    && (forall i :: 0 <= i < |edits| ==> NoRepeats(FilesOf(edits[i], disk)))
    && (forall i :: 0 <= i < |edits| ==> Database.Applied(versions[i], versions[i + 1], FilesOf(edits[i], disk)))
    && forall l :: 0 <= l < NUM_LEVELS ==> NeverReadded({}, FileEdits(edits, disk), l)
  }

  ghost predicate Written(edits: seq<E.Edit>, records: seq<Bytes>) {
    |records| == |edits| && forall i :: 0 <= i < |edits| ==> E.Stores(edits[i], records[i])
  }

  /** The last value that one of the edits gives. */
  function Latest(edits: seq<E.Edit>, field: E.Edit -> Option<nat>): Option<nat> {
    if edits == [] then None
    else
      var last := field(edits[|edits| - 1]);
      if last.Some? then last else Latest(edits[..|edits| - 1], field)
  }

  ghost predicate NamesMatch(edits: seq<E.Edit>, name: Bytes) {
    forall i :: 0 <= i < |edits| && edits[i].comparator.Some? ==> edits[i].comparator.value == name
  }

  lemma {:induction false} AppliedInTurn(edits: seq<E.Edit>, versions: seq<Version>, disk: Disk, k: nat, l: nat)
    requires History(edits, versions, disk) && k <= |edits| && l < NUM_LEVELS
    ensures |versions[k]| == NUM_LEVELS && InOrder(versions[k][l])
    ensures SetOf(versions[k][l]) == AppliedAll({}, FileEdits(edits, disk)[..k], l)
  {
    if k > 0 {
      AppliedInTurn(edits, versions, disk, k - 1, l);
      var all := FileEdits(edits, disk);
      assert all[..k][..k - 1] == all[..k - 1] && all[..k][k - 1] == FilesOf(edits[k - 1], disk);
      assert Database.Applied(versions[k - 1], versions[k], FilesOf(edits[k - 1], disk));
    }
  }

  lemma {:induction false} NeverReaddedPrefix(edits: seq<FileEdit>, k: nat, l: nat)
    requires k <= |edits| && NeverReadded({}, edits, l)
    ensures NeverReadded({}, edits[..k], l)
  {
    if k < |edits| {
      NeverReaddedPrefix(edits[..|edits| - 1], k, l);
      assert edits[..|edits| - 1][..k] == edits[..k];
    } else {
      assert edits[..k] == edits;
    }
  }

  // -------------------------------------------------------------- replaying

  /** The builder has been given the first `k` edits. */
  ghost predicate Replayed(builder: Builder, edits: seq<E.Edit>, disk: Disk, k: nat)
    requires k <= |edits|
    reads builder, builder.deleted, builder.added
  {
    builder.Valid() && builder.base == EMPTY
    && forall l :: 0 <= l < NUM_LEVELS ==>
         SetOf(builder.added[l]) == AccumulatedAdds(FileEdits(edits, disk)[..k], l)
         && builder.deleted[l] == AccumulatedDeletes(FileEdits(edits, disk)[..k], l)
  }

  /** A file that the next edit adds was never in its level before. */
  lemma NextIsNew(edits: seq<E.Edit>, versions: seq<Version>, disk: Disk, k: nat, l: nat, f: File, g: File)
    requires History(edits, versions, disk) && k < |edits| && l < NUM_LEVELS
    requires f in AccumulatedAdds(FileEdits(edits, disk)[..k], l) && g in AddedFiles(FilesOf(edits[k], disk), l)
    ensures f.number != g.number
  {
    var all := FileEdits(edits, disk);
    NeverReaddedPrefix(all, k + 1, l);
    assert all[..k + 1][..k] == all[..k];
    assert DistinctNumbers({} + AccumulatedAdds(all[..k], l), AddedFiles(all[k], l));
  }

  lemma NextIsFresh(builder: Builder, edits: seq<E.Edit>, versions: seq<Version>, disk: Disk, k: nat)
    requires History(edits, versions, disk) && k < |edits| && Replayed(builder, edits, disk, k)
    ensures builder.Fresh(FilesOf(edits[k], disk))
  {
    var edit := FilesOf(edits[k], disk);
    assert NoRepeats(edit);
    forall a, f | a in edit.added && f in SetOf(builder.base[a.0]) + SetOf(builder.added[a.0])
      ensures f.number != a.1.number
    {
      NextIsNew(edits, versions, disk, k, a.0, f, a.1);
    }
  }

  lemma AccumulatesOn(edits: seq<E.Edit>, disk: Disk, k: nat, l: nat)
    requires k < |edits|
    ensures var all, edit := FileEdits(edits, disk), FilesOf(edits[k], disk);
            AccumulatedAdds(all[..k + 1], l) == AccumulatedAdds(all[..k], l) + AddedFiles(edit, l)
            && AccumulatedDeletes(all[..k + 1], l)
               == AccumulatedDeletes(all[..k], l) + DeletedNumbers(edit, l) - AddedNumbers(edit, l)
  {
    var all := FileEdits(edits, disk);
    assert all[..k + 1][..k] == all[..k];
  }

  method ApplyNext(builder: Builder, edit: E.Edit, ghost edits: seq<E.Edit>, ghost versions: seq<Version>, disk: Disk,
                   ghost k: nat)
    requires History(edits, versions, disk) && k < |edits| && edit == edits[k] && Replayed(builder, edits, disk, k)
    modifies builder.deleted, builder.added
    ensures Replayed(builder, edits, disk, k + 1)
  {
    NextIsFresh(builder, edits, versions, disk, k);
    builder.Apply(FilesOf(edit, disk));
    forall l: nat | l < NUM_LEVELS
      ensures SetOf(builder.added[l]) == AccumulatedAdds(FileEdits(edits, disk)[..k + 1], l)
      ensures builder.deleted[l] == AccumulatedDeletes(FileEdits(edits, disk)[..k + 1], l)
    {
      AccumulatesOn(edits, disk, k, l);
    }
  }

  /** A builder over the first `k` edits saves the version after them. */
  method SaveReplayed(builder: Builder, ghost edits: seq<E.Edit>, ghost versions: seq<Version>, ghost disk: Disk, ghost k: nat)
    returns (v: Version)
    requires History(edits, versions, disk) && k <= |edits| && Replayed(builder, edits, disk, k)
    ensures v == versions[k]
  {
    v := builder.SaveTo();
    AppliedInTurn(edits, versions, disk, k, 0);
    forall l: nat | l < NUM_LEVELS
      ensures v[l] == versions[k][l]
    {
      NeverReaddedPrefix(FileEdits(edits, disk), k, l);
      AccumulatedIsSequential({}, FileEdits(edits, disk)[..k], l);
      AppliedInTurn(edits, versions, disk, k, l);
      assert SetOf(EMPTY[l]) == {};
      OrderedListIsUnique(v[l], versions[k][l]);
    }
  }

  /** The numbers that replaying has seen last. */
  datatype Numbers = Numbers(next: Option<nat>, last: Option<nat>, log: Option<nat>, prev: Option<nat>)

  function NumbersOf(edits: seq<E.Edit>): Numbers {
    Numbers(Latest(edits, (e: E.Edit) => e.nextFile), Latest(edits, (e: E.Edit) => e.lastSequence),
            Latest(edits, (e: E.Edit) => e.logNumber), Latest(edits, (e: E.Edit) => e.prevLogNumber))
  }

  function Seen(n: Numbers, e: E.Edit): Numbers {
    Numbers(if e.nextFile.Some? then e.nextFile else n.next, if e.lastSequence.Some? then e.lastSequence else n.last,
            if e.logNumber.Some? then e.logNumber else n.log, if e.prevLogNumber.Some? then e.prevLogNumber else n.prev)
  }

  lemma SeenOn(edits: seq<E.Edit>, k: nat)
    requires k < |edits|
    ensures NumbersOf(edits[..k + 1]) == Seen(NumbersOf(edits[..k]), edits[k])
  {
    assert edits[..k + 1][..k] == edits[..k];
  }

  /** A manifest that holds a history, and the file that is left of it. */
  ghost predicate Holds(sum: Log.Sum, name: Bytes, edits: seq<E.Edit>, versions: seq<Version>, disk: Disk,
                        records: seq<Bytes>, full: Bytes, ends: seq<nat>) {
    History(edits, versions, disk) && Written(edits, records) && NamesMatch(edits, name)
    && Log.Layout(sum, records, full, ends)
  }

  /** Reads a record as an edit of the database with the given comparator. */
  method DecodeEdit(record: Bytes, name: Bytes, ghost edit: E.Edit) returns (r: Option<E.Edit>)
    ensures E.Stores(edit, record) && (edit.comparator.Some? ==> edit.comparator.value == name) ==> r == Some(edit)
  {
    ghost var fields: seq<E.Field> := [];
    if E.Stores(edit, record) {
      fields :| E.IsStored(edit, fields, record);
    }
    var e := new E.VersionEdit();
    var msg := e.DecodeFrom(record, fields);
    if msg.Some? || (e.comparator.Some? && e.comparator.value != name) {
      return None;
    }
    r := Some(e.Value());
  }

  class VersionSet {
    var current: Version
    var manifestFileNumber: nat
    var nextFileNumber: nat
    var lastSequence: nat
    var logNumber: nat
    var prevLogNumber: nat

    constructor ()
      ensures current == EMPTY
    {
      current := EMPTY;
      manifestFileNumber, nextFileNumber, lastSequence, logNumber, prevLogNumber := 0, 2, 0, 0, 0;
    }

    method MarkFileNumberUsed(number: nat)
      modifies this`nextFileNumber
      ensures nextFileNumber > number && nextFileNumber >= old(nextFileNumber)
      ensures nextFileNumber == old(nextFileNumber) || nextFileNumber == number + 1
    {
      if nextFileNumber <= number {
        nextFileNumber := number + 1;
      }
    }

    /** Replays the records of a manifest file that is cut at any byte. */
    static method Replay(builder: Builder, sum: Log.Sum, file: Bytes, name: Bytes, disk: Disk, ghost edits: seq<E.Edit>,
                         ghost versions: seq<Version>, ghost records: seq<Bytes>, ghost full: Bytes, ghost ends: seq<nat>)
      returns (ok: bool, numbers: Numbers, ghost k: nat)
      requires Holds(sum, name, edits, versions, disk, records, full, ends) && file <= full
      requires Replayed(builder, edits, disk, 0)
      modifies builder.deleted, builder.added
      ensures ok && Log.WhollyWithin(ends, |file|, k) && k <= |edits| && Replayed(builder, edits, disk, k)
      ensures numbers == NumbersOf(edits[..k])
    {
      var reader := new Log.Reader(sum, file);
      ok, numbers, k := true, Numbers(None, None, None, None), 0;
      var more := true;
      while more && ok
        invariant fresh(reader) && reader.file == file && k <= |edits|
        invariant ok && if more then InStep(reader, builder, disk, numbers, edits, ends, k)
                        else AtEnd(builder, file, disk, numbers, edits, ends, k)
        decreases more, |edits| - k
      {
        more, ok, numbers := ReplayNext(reader, builder, name, disk, numbers, sum, edits, versions, records, full, ends, k);
        if more {
          k := k + 1;
        }
      }
    }

    /** The reader stands behind the first `k` records, and the builder has their edits. */
    static ghost predicate InStep(reader: Log.Reader, builder: Builder, disk: Disk, numbers: Numbers, edits: seq<E.Edit>,
                                  ends: seq<nat>, k: nat)
      requires k <= |edits|
      reads reader, builder, builder.deleted, builder.added
    {
      reader.reports == 0 && k < |ends| && ends[k] <= |reader.file| && reader.At(ends[k])
      && Replayed(builder, edits, disk, k) && numbers == NumbersOf(edits[..k])
    }

    static ghost predicate AtEnd(builder: Builder, file: Bytes, disk: Disk, numbers: Numbers, edits: seq<E.Edit>,
                                 ends: seq<nat>, k: nat)
      requires k <= |edits|
      reads builder, builder.deleted, builder.added
    {
      Log.WhollyWithin(ends, |file|, k) && Replayed(builder, edits, disk, k) && numbers == NumbersOf(edits[..k])
    }

    /** Reads one record, if there is one, and applies it. */
    static method ReplayNext(reader: Log.Reader, builder: Builder, name: Bytes, disk: Disk, numbers0: Numbers,
                             ghost sum: Log.Sum, ghost edits: seq<E.Edit>, ghost versions: seq<Version>,
                             ghost records: seq<Bytes>, ghost full: Bytes, ghost ends: seq<nat>, ghost k: nat)
      returns (more: bool, ok: bool, numbers: Numbers)
      requires Holds(sum, name, edits, versions, disk, records, full, ends) && reader.sum == sum && reader.file <= full
      requires k <= |edits| && InStep(reader, builder, disk, numbers0, edits, ends, k)
      modifies reader, builder.deleted, builder.added
      ensures ok && if more then k < |edits| && InStep(reader, builder, disk, numbers, edits, ends, k + 1)
                    else AtEnd(builder, reader.file, disk, numbers, edits, ends, k)
    {
      var record := NextRecord(reader, sum, records, full, ends, k);
      if record.None? {
        return false, true, numbers0;
      }
      assert E.Stores(edits[k], records[k]);
      ok, numbers := ReplayRecord(builder, record.value, name, disk, numbers0, edits, versions, k);
      more := true;
    }

    static method NextRecord(reader: Log.Reader, ghost sum: Log.Sum, ghost records: seq<Bytes>, ghost full: Bytes,
                             ghost ends: seq<nat>, ghost k: nat)
      returns (record: Option<Bytes>)
      requires Log.Layout(sum, records, full, ends) && reader.sum == sum && reader.file <= full && reader.reports == 0
      requires k <= |records| && ends[k] <= |reader.file| && reader.At(ends[k])
      modifies reader
      ensures reader.reports == 0
      ensures record.None? ==> Log.WhollyWithin(ends, |reader.file|, k)
      ensures record.Some? ==>
                k < |records| && record.value == records[k] && ends[k + 1] <= |reader.file| && reader.At(ends[k + 1])
    {
      record := reader.ReadRecord(records, full, ends, k);
    }

    /** Applies one record and takes note of its numbers. */
    static method ReplayRecord(builder: Builder, record: Bytes, name: Bytes, disk: Disk, numbers0: Numbers,
                               ghost edits: seq<E.Edit>, ghost versions: seq<Version>, ghost k: nat)
      returns (ok: bool, numbers: Numbers)
      requires History(edits, versions, disk) && NamesMatch(edits, name) && k < |edits| && E.Stores(edits[k], record)
      requires Replayed(builder, edits, disk, k) && numbers0 == NumbersOf(edits[..k])
      modifies builder.deleted, builder.added
      ensures ok && Replayed(builder, edits, disk, k + 1) && numbers == NumbersOf(edits[..k + 1])
    {
      var edit := DecodeEdit(record, name, edits[k]);
      ok := edit.Some?;
      ApplyNext(builder, edit.value, edits, versions, disk, k);
      SeenOn(edits, k);
      numbers := Seen(numbers0, edit.value);
    }

    /** Opens a database from what is left of its manifest. */
    method Recover(sum: Log.Sum, file: Bytes, name: Bytes, disk: Disk, ghost edits: seq<E.Edit>,
                   ghost versions: seq<Version>, ghost records: seq<Bytes>, ghost full: Bytes, ghost ends: seq<nat>)
      returns (ok: bool, ghost k: nat)
      requires current == EMPTY
      requires Holds(sum, name, edits, versions, disk, records, full, ends) && file <= full
      modifies this
      ensures Log.WhollyWithin(ends, |file|, k) && k <= |edits|
      ensures var n := NumbersOf(edits[..k]);
              ok == (n.next.Some? && n.log.Some? && n.last.Some?)
              && if ok then
                   current == versions[k] && manifestFileNumber == n.next.value && nextFileNumber == n.next.value + 1
                   && lastSequence == n.last.value && logNumber == n.log.value
                   && prevLogNumber == (if n.prev.Some? then n.prev.value else 0)
                 else current == old(current)
    {
      var builder := new Builder(current);
      assert Replayed(builder, edits, disk, 0);
      var numbers;
      ok, numbers, k := Replay(builder, sum, file, name, disk, edits, versions, records, full, ends);
      ok := numbers.next.Some? && numbers.log.Some? && numbers.last.Some?;
      var prev := if numbers.prev.Some? then numbers.prev.value else 0;
      MarkFileNumberUsed(prev);
      MarkFileNumberUsed(if numbers.log.Some? then numbers.log.value else 0);
      if ok {
        var v := SaveReplayed(builder, edits, versions, disk, k);
        current := v;
        manifestFileNumber, nextFileNumber := numbers.next.value, numbers.next.value + 1;
        lastSequence, logNumber, prevLogNumber := numbers.last.value, numbers.log.value, prev;
      }
    }
  }

  // ---------------------------------------------------------------- writing

  lemma HistoryExtends(edits: seq<E.Edit>, versions: seq<Version>, disk: Disk, edit: E.Edit, v: Version)
    requires History(edits, versions, disk) && NoRepeats(FilesOf(edit, disk))
    requires Database.Applied(versions[|edits|], v, FilesOf(edit, disk))
    requires forall l :: 0 <= l < NUM_LEVELS ==>
               DistinctNumbers(AccumulatedAdds(FileEdits(edits, disk), l), AddedFiles(FilesOf(edit, disk), l))
    ensures History(edits + [edit], versions + [v], disk)
  {
    var edits', versions' := edits + [edit], versions + [v];
    assert FileEdits(edits', disk) == FileEdits(edits, disk) + [FilesOf(edit, disk)];
    forall i | 0 <= i < |edits'|
      ensures Database.Applied(versions'[i], versions'[i + 1], FilesOf(edits'[i], disk))
    {
      assert i < |edits| ==> Database.Applied(versions[i], versions[i + 1], FilesOf(edits[i], disk));
    }
    forall l: nat | l < NUM_LEVELS
      ensures NeverReadded({}, FileEdits(edits', disk), l)
    {
      assert FileEdits(edits', disk)[..|edits|] == FileEdits(edits, disk);
      assert {} + AccumulatedAdds(FileEdits(edits, disk), l) == AccumulatedAdds(FileEdits(edits, disk), l);
    }
  }

  /** An edit as LogAndApply leaves it: all numbers are there. */
  ghost predicate Complete(e: E.Edit) {
    e.logNumber.Some? && e.prevLogNumber.Some? && e.nextFile.Some? && e.lastSequence.Some?
  }

  /** The first record is a snapshot; all later ones are complete edits. */
  ghost predicate CompleteFrom(edits: seq<E.Edit>) {
    forall i :: 1 <= i < |edits| ==> Complete(edits[i])
  }

  lemma LatestIsLast(edits: seq<E.Edit>, k: nat)
    requires CompleteFrom(edits) && 2 <= k <= |edits|
    ensures var e := edits[k - 1];
            NumbersOf(edits[..k]) == Numbers(e.nextFile, e.lastSequence, e.logNumber, e.prevLogNumber)
            && Complete(e)
  {
  }

  // ---------------------------------------------------------- the snapshot

  /** How the manifest describes a file. */
  type Describe = File -> E.Meta

  ghost predicate Described(v: Version, describe: Describe, disk: Disk) {
    forall l, f :: In(v, l, f) ==>
      disk(describe(f)) == f && E.FieldOk(E.NewFile(0, describe(f)))
  }

  function SnapshotFiles(v: Version, describe: Describe): seq<(nat, E.Meta)> {
    if v == [] then []
    else
      var l := |v| - 1;
      SnapshotFiles(v[..l], describe) + seq(|v[l]|, i requires 0 <= i < |v[l]| => (l, describe(v[l][i])))
  }

  lemma {:induction false} SnapshotMembers(v: Version, describe: Describe, a: (nat, E.Meta))
    ensures a in SnapshotFiles(v, describe) <==> a.0 < |v| && exists f :: f in v[a.0] && describe(f) == a.1
  {
    if v != [] {
      var l := |v| - 1;
      SnapshotMembers(v[..l], describe, a);
      var last := seq(|v[l]|, i requires 0 <= i < |v[l]| => (l, describe(v[l][i])));
      if a.0 == l {
        forall f | f in v[l] && describe(f) == a.1
          ensures a in last
        {
          var i :| 0 <= i < |v[l]| && v[l][i] == f;
          assert last[i] == a;
        }
      }
    }
  }

  /** The snapshot edit turns the empty version into the current one. */
  lemma SnapshotMakes(v: Version, describe: Describe, disk: Disk, e: E.Edit)
    requires Database.LevelsInOrder(v) && Described(v, describe, disk)
    requires e.deleted == {} && e.added == SnapshotFiles(v, describe)
    ensures Database.Applied(EMPTY, v, FilesOf(e, disk))
  {
    var edit := FilesOf(e, disk);
    forall l: nat | l < NUM_LEVELS
      ensures AppliedAt(SetOf(EMPTY[l]), edit, l) == SetOf(v[l])
    {
      forall f
        ensures f in AddedFiles(edit, l) <==> f in v[l]
      {
        SnapshotAdds(v, describe, disk, e, l, f);
      }
      assert DeletedNumbers(edit, l) == {};
    }
  }

  lemma SnapshotAdds(v: Version, describe: Describe, disk: Disk, e: E.Edit, l: nat, f: File)
    requires |v| == NUM_LEVELS && l < NUM_LEVELS && Described(v, describe, disk)
    requires e.added == SnapshotFiles(v, describe)
    ensures f in AddedFiles(FilesOf(e, disk), l) <==> f in v[l]
  {
    var edit := FilesOf(e, disk);
    if f in v[l] {
      SnapshotMembers(v, describe, (l, describe(f)));
      var i :| 0 <= i < |e.added| && e.added[i] == (l, describe(f));
      assert In(v, l, f);
      assert edit.added[i] == (l, f);
      assert (l, f) in edit.added;
    }
    if f in AddedFiles(edit, l) {
      var i :| 0 <= i < |e.added| && edit.added[i] == (l, f);
      SnapshotMembers(v, describe, e.added[i]);
      var g :| g in v[l] && describe(g) == e.added[i].1;
      assert In(v, l, g);
    }
  }

  lemma {:induction false} SnapshotIsDistinct(v: Version, describe: Describe, disk: Disk, i: nat, j: nat)
    requires Numbered(v) && Database.LevelsInOrder(v) && Described(v, describe, disk)
    requires i < j < |SnapshotFiles(v, describe)| && SnapshotFiles(v, describe)[i].0 == SnapshotFiles(v, describe)[j].0
    ensures disk(SnapshotFiles(v, describe)[i].1).number != disk(SnapshotFiles(v, describe)[j].1).number
  {
    assert v[..|v|] == v;
    SnapshotPositions(v, describe, |v|, i, j);
    var l: nat, m: nat, n: nat :| l < |v| && m < n < |v[l]|
                   && SnapshotFiles(v, describe)[i] == (l, describe(v[l][m])) && SnapshotFiles(v, describe)[j] == (l, describe(v[l][n]));
    assert In(v, l, v[l][m]) && In(v, l, v[l][n]);
    assert BySmallest(v[l][m], v[l][n]);
  }

  /** Two snapshot entries of one level stand for two places of that level. */
  lemma {:induction false} SnapshotPositions(v: Version, describe: Describe, top: nat, i: nat, j: nat)
    requires top <= |v| && i < j < |SnapshotFiles(v[..top], describe)|
    requires SnapshotFiles(v[..top], describe)[i].0 == SnapshotFiles(v[..top], describe)[j].0
    ensures var s := SnapshotFiles(v[..top], describe);
            exists l: nat, m: nat, n: nat :: l < top && m < n < |v[l]| && s[i] == (l, describe(v[l][m])) && s[j] == (l, describe(v[l][n]))
  {
    var l := top - 1;
    assert v[..top][..l] == v[..l];
    var before := SnapshotFiles(v[..l], describe);
    var s := SnapshotFiles(v[..top], describe);
    assert forall k :: 0 <= k < |before| ==> s[k] == before[k];
    assert forall k :: |before| <= k < |s| ==> s[k] == (l, describe(v[l][k - |before|]));
    if j < |before| {
      SnapshotPositions(v, describe, l, i, j);
    } else if i < |before| {
      assert before[i] in before;
      SnapshotMembers(v[..l], describe, before[i]);
      assert false;
    } else {
      var m, n: nat := i - |before|, j - |before|;
      assert l < top && m < n < |v[l]| && s[i] == (l, describe(v[l][m])) && s[j] == (l, describe(v[l][n]));
    }
  }

  /** A version set with an open manifest. */
  class Descriptor {
    const sum: Log.Sum
    const name: Bytes
    const disk: Disk
    const log: Log.Writer
    var current: Version
    var nextFileNumber: nat
    var lastSequence: nat
    var logNumber: nat
    var prevLogNumber: nat
    ghost var edits: seq<E.Edit>
    ghost var versions: seq<Version>
    ghost var records: seq<Bytes>
    ghost var ends: seq<nat>

    ghost predicate Valid()
      reads this, log
    {
      log.Valid() && log.sum == sum
      && Holds(sum, name, edits, versions, disk, records, log.dest, ends) && CompleteFrom(edits)
      && edits != [] && current == versions[|edits|]
      && nextFileNumber < LIMIT64 && lastSequence < LIMIT64 && logNumber < LIMIT64 && prevLogNumber < LIMIT64
    }

    /** A new manifest begins with a snapshot of the current version. */
    constructor (sum: Log.Sum, name: Bytes, disk: Disk, describe: Describe, current: Version, pointers: seq<(nat, Bytes)>,
                 nextFileNumber: nat, lastSequence: nat, logNumber: nat, prevLogNumber: nat)
      requires |name| < LIMIT32 && Database.LevelsInOrder(current) && Numbered(current) && Described(current, describe, disk)
      requires forall p :: p in pointers ==> p.0 < NUM_LEVELS && |p.1| < LIMIT32
      requires nextFileNumber < LIMIT64 && lastSequence < LIMIT64 && logNumber < LIMIT64 && prevLogNumber < LIMIT64
      ensures Valid() && fresh(log) && this.current == current && |edits| == 1
      ensures this.sum == sum && this.name == name && this.disk == disk
      ensures this.nextFileNumber == nextFileNumber && this.lastSequence == lastSequence
              && this.logNumber == logNumber && this.prevLogNumber == prevLogNumber
    {
      this.sum, this.name, this.disk := sum, name, disk;
      this.current := current;
      this.nextFileNumber, this.lastSequence := nextFileNumber, lastSequence;
      this.logNumber, this.prevLogNumber := logNumber, prevLogNumber;
      log := new Log.Writer(sum, []);
      edits, versions, records, ends := [], [EMPTY], [], [0];
      new;
      EmptyHistory(sum, name, disk);
      WriteSnapshot(describe, pointers);
    }

    method WriteSnapshot(describe: Describe, pointers: seq<(nat, Bytes)>)
      requires log.Valid() && log.sum == sum && edits == []
      requires Holds(sum, name, edits, versions, disk, records, log.dest, ends)
      requires |name| < LIMIT32 && Database.LevelsInOrder(current) && Numbered(current) && Described(current, describe, disk)
      requires forall p :: p in pointers ==> p.0 < NUM_LEVELS && |p.1| < LIMIT32
      modifies this`edits, this`versions, this`records, this`ends, this`current, log
      ensures log.Valid() && Holds(sum, name, edits, versions, disk, records, log.dest, ends)
      ensures current == old(current) && |edits| == 1 && versions[1] == current
    {
      var edit := new E.VersionEdit();
      edit.comparator, edit.compactPointers := Some(name), pointers;
      edit.added := SnapshotFiles(current, describe);
      SnapshotIsEdit(current, describe, disk, edit.Value());
      Append(edit, current);
    }

    static lemma EmptyHistory(sum: Log.Sum, name: Bytes, disk: Disk)
      ensures Holds(sum, name, [], [EMPTY], disk, [], [], [0])
    {
    }

    static lemma SnapshotIsEdit(v: Version, describe: Describe, disk: Disk, e: E.Edit)
      requires Database.LevelsInOrder(v) && Numbered(v) && Described(v, describe, disk)
      requires e == E.EMPTY.(comparator := e.comparator, compactPointers := e.compactPointers, added := SnapshotFiles(v, describe))
      requires e.comparator.Some? ==> |e.comparator.value| < LIMIT32
      requires forall p :: p in e.compactPointers ==> p.0 < NUM_LEVELS && |p.1| < LIMIT32
      ensures E.EditOk(e) && NoRepeats(FilesOf(e, disk)) && Database.Applied(EMPTY, v, FilesOf(e, disk))
      ensures forall l :: 0 <= l < NUM_LEVELS ==>
                DistinctNumbers(AccumulatedAdds(FileEdits([], disk), l), AddedFiles(FilesOf(e, disk), l))
    {
      SnapshotMakes(v, describe, disk, e);
      var edit := FilesOf(e, disk);
      forall i | 0 <= i < |e.added|
        ensures E.FieldOk(E.NewFile(e.added[i].0, e.added[i].1)) && edit.added[i].0 < NUM_LEVELS
      {
        SnapshotMembers(v, describe, e.added[i]);
        var f :| f in v[e.added[i].0] && describe(f) == e.added[i].1;
        assert In(v, e.added[i].0, f);
      }
      forall a | a in edit.added
        ensures a.0 < NUM_LEVELS
      {
        var i :| 0 <= i < |edit.added| && edit.added[i] == a;
        assert e.added[i].0 == a.0;
      }
      forall i, j | 0 <= i < j < |edit.added| && edit.added[i].0 == edit.added[j].0
        ensures edit.added[i].1.number != edit.added[j].1.number
      {
        SnapshotIsDistinct(v, describe, disk, i, j);
      }
      forall i | 0 <= i < |e.compactPointers|
        ensures E.FieldOk(E.CompactPointer(e.compactPointers[i].0, e.compactPointers[i].1))
      {
        assert e.compactPointers[i] in e.compactPointers;
      }
    }

    /** Appends an edit to the manifest and installs the version it makes. */
    method Append(edit: E.VersionEdit, v: Version)
      requires log.Valid() && log.sum == sum
      requires Holds(sum, name, edits, versions, disk, records, log.dest, ends)
      requires E.EditOk(edit.Value()) && (edit.comparator.Some? ==> edit.comparator.value == name)
      requires NoRepeats(FilesOf(edit.Value(), disk))
      requires Database.Applied(versions[|edits|], v, FilesOf(edit.Value(), disk))
      requires forall l :: 0 <= l < NUM_LEVELS ==>
                 DistinctNumbers(AccumulatedAdds(FileEdits(edits, disk), l), AddedFiles(FilesOf(edit.Value(), disk), l))
      modifies this`edits, this`versions, this`records, this`ends, this`current, log
      ensures log.Valid() && Holds(sum, name, edits, versions, disk, records, log.dest, ends)
      ensures current == v && edits == old(edits) + [edit.Value()] && versions == old(versions) + [v]
    {
      ghost var e, file := edit.Value(), log.dest;
      var record := edit.EncodeTo();
      log.AddRecord(record);
      HoldsOn(sum, name, edits, versions, disk, records, file, ends, e, v, record, log.dest);
      edits, versions := edits + [e], versions + [v];
      records, ends := records + [record], ends + [|log.dest|];
      current := v;
    }

    static lemma HoldsOn(sum: Log.Sum, name: Bytes, edits: seq<E.Edit>, versions: seq<Version>, disk: Disk, records: seq<Bytes>,
                         file: Bytes, ends: seq<nat>, e: E.Edit, v: Version, record: Bytes, file': Bytes)
      requires Holds(sum, name, edits, versions, disk, records, file, ends)
      requires E.Stores(e, record) && (e.comparator.Some? ==> e.comparator.value == name)
      requires NoRepeats(FilesOf(e, disk)) && Database.Applied(versions[|edits|], v, FilesOf(e, disk))
      requires forall l :: 0 <= l < NUM_LEVELS ==>
                 DistinctNumbers(AccumulatedAdds(FileEdits(edits, disk), l), AddedFiles(FilesOf(e, disk), l))
      requires file' == file + Log.Fragments(sum, Log.OffsetOf(|file|), record, true)
      ensures Holds(sum, name, edits + [e], versions + [v], disk, records + [record], file', ends + [|file'|])
    {
      HistoryExtends(edits, versions, disk, e, v);
      Log.LayoutExtends(sum, records, file, ends, record, file');
    }

    /** The state part of LogAndApply: the edit is completed, logged, and applied. */
    method LogAndApply(edit: E.VersionEdit)
      requires Valid() && E.EditOk(edit.Value())
      requires edit.comparator.Some? ==> edit.comparator.value == name
      requires Database.LevelsInOrder(current) && Database.EditFits(current, FilesOf(edit.Value(), disk))
      requires forall l :: 0 <= l < NUM_LEVELS ==>
                 DistinctNumbers(AccumulatedAdds(FileEdits(edits, disk), l), AddedFiles(FilesOf(edit.Value(), disk), l))
      modifies this, log, edit
      ensures Valid() && Database.Applied(old(current), current, FilesOf(edit.Value(), disk))
      ensures edits == old(edits) + [edit.Value()] && versions == old(versions) + [current]
      ensures edit.Value() == Completed(old(edit.Value()), old(logNumber), old(prevLogNumber), old(nextFileNumber), old(lastSequence))
      ensures logNumber == edit.logNumber.value && prevLogNumber == edit.prevLogNumber.value
              && nextFileNumber == old(nextFileNumber) && lastSequence == old(lastSequence)
    {
      CompleteEdit(edit);
      var v := Database.ApplyEdit(current, FilesOf(edit.Value(), disk));
      Append(edit, v);
      logNumber, prevLogNumber := edit.logNumber.value, edit.prevLogNumber.value;
    }

    /** Numbers that an edit does not give are the current ones. */
    static function Completed(e: E.Edit, log: nat, prev: nat, next: nat, last: nat): E.Edit {
      e.(logNumber := Some(if e.logNumber.Some? then e.logNumber.value else log),
         prevLogNumber := Some(if e.prevLogNumber.Some? then e.prevLogNumber.value else prev),
         nextFile := Some(next), lastSequence := Some(last))
    }

    method CompleteEdit(edit: E.VersionEdit)
      modifies edit
      ensures edit.Value() == Completed(old(edit.Value()), logNumber, prevLogNumber, nextFileNumber, lastSequence)
    {
      if edit.logNumber.None? {
        edit.logNumber := Some(logNumber);
      }
      if edit.prevLogNumber.None? {
        edit.prevLogNumber := Some(prevLogNumber);
      }
      edit.nextFile, edit.lastSequence := Some(nextFileNumber), Some(lastSequence);
    }
  }

  /** Crash and reopen: from whatever is left of a manifest once its first edit is in, a
      database recovers the version after the last whole edit, and that edit's numbers. */
  method Reopen(d: Descriptor, cut: nat) returns (vs: VersionSet, ok: bool, ghost k: nat)
    requires d.Valid() && |d.edits| >= 2 && cut >= d.ends[2]
    ensures fresh(vs) && ok && 2 <= k <= |d.edits| && d.ends[k] <= cut && (k < |d.edits| ==> d.ends[k + 1] > cut)
    ensures vs.current == d.versions[k]
    ensures var e := d.edits[k - 1];
            Complete(e) && vs.manifestFileNumber == e.nextFile.value && vs.nextFileNumber == e.nextFile.value + 1
            && vs.lastSequence == e.lastSequence.value && vs.logNumber == e.logNumber.value
            && vs.prevLogNumber == e.prevLogNumber.value
  {
    var full := d.log.dest;
    var file := if cut < |full| then full[..cut] else full;
    vs := new VersionSet();
    ok, k := vs.Recover(d.sum, file, d.name, d.disk, d.edits, d.versions, d.records, full, d.ends);
    assert k < |d.ends| && d.ends[|d.edits|] == |full|;
    LatestIsLast(d.edits, k);
  }
}
