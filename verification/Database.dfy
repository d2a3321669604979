/** The database object: each method performs one step of the state machine in module
    Store (db/db_impl.cc, class VersionSet of db/version_set.cc). */
module Database {
  import opened Entries
  import opened Versions
  import opened CompactionInputs
  import opened CompactionLoop
  import opened VersionBuilder
  import opened Store
  import opened Runs

  /** The edit that takes out the inputs of `c` and adds `outputs` below. */
  function ReplaceEdit(c: Inputs, outputs: seq<File>): FileEdit {
    FileEdit((set f | f in c.files0 :: (c.level, f.number)) + (set f | f in c.files1 :: (c.level + 1, f.number)),
             seq(|outputs|, i requires 0 <= i < |outputs| => (c.level + 1, outputs[i])))
  }

  /** The added files have numbers that are new to their level. */
  ghost predicate EditFits(v: Version, edit: FileEdit) {
    |v| == NUM_LEVELS && EditOk(edit)
    && (forall i, j :: 0 <= i < j < |edit.added| && edit.added[i].0 == edit.added[j].0 ==>
          edit.added[i].1.number != edit.added[j].1.number)
    && forall a, f :: a in edit.added && f in v[a.0] ==> f.number != a.1.number
  }

  /** What one edit makes of every level. */
  ghost predicate Applied(v: Version, v': Version, edit: FileEdit) {
    |v| == |v'| == NUM_LEVELS
    && forall l :: 0 <= l < NUM_LEVELS ==> LevelHolds(v', l, AppliedAt(SetOf(v[l]), edit, l))
  }

  ghost predicate LevelsInOrder(v: Version) {
    |v| == NUM_LEVELS && forall l :: 0 <= l < NUM_LEVELS ==> InOrder(v[l])
  }

  /** Builds the version that one edit makes of another. */
  method ApplyEdit(current: Version, edit: FileEdit) returns (v: Version)
    requires LevelsInOrder(current) && EditFits(current, edit)
    ensures Applied(current, v, edit)
  {
    var builder := new Builder(current);
    assert forall l :: 0 <= l < NUM_LEVELS ==> SetOf(builder.added[l]) == {};
    builder.Apply(edit);
    forall l, f, g | 0 <= l < NUM_LEVELS && f in builder.base[l] && g in builder.added[l]
      ensures !SamePlace(f, g)
    {
      assert g in SetOf(builder.added[l]);
      assert g in AddedFiles(edit, l);
    }
    v := builder.SaveTo();
    forall l: nat | l < NUM_LEVELS
      ensures LevelHolds(v, l, AppliedAt(SetOf(current[l]), edit, l))
    {
      assert builder.SavedAt(l) == AppliedAt(SetOf(current[l]), edit, l);
    }
  }

  lemma UntouchedLevel(v: Version, v': Version, edit: FileEdit, l: nat)
    requires Applied(v, v', edit) && l < NUM_LEVELS && InOrder(v[l])
    requires AddedFiles(edit, l) == {} && DeletedNumbers(edit, l) == {}
    ensures v'[l] == v[l]
  {
    assert AppliedAt(SetOf(v[l]), edit, l) == SetOf(v[l]);
    OrderedListIsUnique(v[l], v'[l]);
  }

  lemma AddEditAdds(v: Version, v': Version, level: nat, f: File)
    requires LevelsOk(v) && level < NUM_LEVELS
    requires Applied(v, v', FileEdit({}, [(level, f)]))
    ensures FileAdded(v, v', level, f)
  {
    var edit := FileEdit({}, [(level, f)]);
    assert (level, f) in edit.added;
    assert AddedFiles(edit, level) == {f};
    forall l: nat | l < NUM_LEVELS && l != level
      ensures v'[l] == v[l]
    {
      assert AddedFiles(edit, l) == {};
      UntouchedLevel(v, v', edit, l);
    }
  }

  ghost function Numbers(files: seq<File>): set<nat> {
    set f | f in files :: f.number
  }

  lemma ReplaceEditAdds(c: Inputs, outputs: seq<File>, l: nat)
    ensures var edit := ReplaceEdit(c, outputs);
            AddedFiles(edit, l) == (if l == c.level + 1 then SetOf(outputs) else {})
            && AddedNumbers(edit, l) == (if l == c.level + 1 then Numbers(outputs) else {})
  {
    var edit := ReplaceEdit(c, outputs);
    forall f | f in outputs && l == c.level + 1
      ensures f in AddedFiles(edit, l) && f.number in AddedNumbers(edit, l)
    {
      var i :| 0 <= i < |outputs| && outputs[i] == f;
      assert edit.added[i] == (l, f);
      assert edit.added[i] in edit.added;
    }
  }

  lemma ReplaceEditDeletes(c: Inputs, outputs: seq<File>, l: nat)
    ensures DeletedNumbers(ReplaceEdit(c, outputs), l)
            == if l == c.level then Numbers(c.files0) else if l == c.level + 1 then Numbers(c.files1) else {}
  {
    var edit := ReplaceEdit(c, outputs);
    forall n | n in (if l == c.level then Numbers(c.files0) else if l == c.level + 1 then Numbers(c.files1) else {})
      ensures n in DeletedNumbers(edit, l)
    {
      assert (l, n) in edit.deleted;
    }
  }

  lemma SavedSwaps(files: set<File>, adds: set<File>, deleted: set<nat>, selected: set<File>)
    requires forall f :: f in files ==> (f.number in deleted <==> f in selected)
    requires forall f :: f in adds ==> f.number !in deleted
    ensures Saved(files, adds, deleted) == files - selected + adds
  {
  }

  lemma ReplaceEditLoses(v: Version, c: Inputs, outputs: seq<File>)
    requires Numbered(v) && InputsOk(v, c)
    ensures AppliedAt(SetOf(v[c.level]), ReplaceEdit(c, outputs), c.level) == SetOf(v[c.level]) - SetOf(c.files0)
  {
    ReplaceEditAdds(c, outputs, c.level);
    ReplaceEditDeletes(c, outputs, c.level);
    forall f | f in v[c.level]
      ensures f.number in Numbers(c.files0) <==> f in c.files0
    {
      NumberInSelection(v, c.level, c.files0, f);
    }
    SavedSwaps(SetOf(v[c.level]), {}, Numbers(c.files0), SetOf(c.files0));
  }

  lemma ReplaceEditGains(v: Version, c: Inputs, outputs: seq<File>)
    requires Numbered(v) && InputsOk(v, c)
    requires forall o, g :: o in outputs && In(v, c.level + 1, g) ==> o.number != g.number
    ensures AppliedAt(SetOf(v[c.level + 1]), ReplaceEdit(c, outputs), c.level + 1)
            == SetOf(v[c.level + 1]) - SetOf(c.files1) + SetOf(outputs)
  {
    var n := c.level + 1;
    ReplaceEditAdds(c, outputs, n);
    ReplaceEditDeletes(c, outputs, n);
    var deleted := Numbers(c.files1) - Numbers(outputs);
    forall f | f in SetOf(v[n])
      ensures f.number in deleted <==> f in SetOf(c.files1)
    {
      NumberInSelection(v, n, c.files1, f);
      assert In(v, n, f);
    }
    SavedSwaps(SetOf(v[n]), SetOf(outputs), deleted, SetOf(c.files1));
  }

  lemma ReplaceEditReplaces(v: Version, v': Version, c: Inputs, outputs: seq<File>)
    requires VersionOk(v) && InputsOk(v, c)
    requires forall o, g :: o in outputs && In(v, c.level + 1, g) ==> o.number != g.number
    requires Applied(v, v', ReplaceEdit(c, outputs))
    ensures Replaced(v, v', c, SetOf(outputs))
  {
    var edit := ReplaceEdit(c, outputs);
    ReplaceEditLoses(v, c, outputs);
    ReplaceEditGains(v, c, outputs);
    forall l: nat | l < NUM_LEVELS && l != c.level && l != c.level + 1
      ensures v'[l] == v[l]
    {
      ReplaceEditAdds(c, outputs, l);
      ReplaceEditDeletes(c, outputs, l);
      UntouchedLevel(v, v', edit, l);
    }
  }

  lemma NumberInSelection(v: Version, l: nat, files: seq<File>, f: File)
    requires Numbered(v) && l < |v| && f in v[l] && forall g :: g in files ==> g in v[l]
    ensures f.number in Numbers(files) <==> f in files
  {
    assert In(v, l, f);
    assert forall g :: g in files ==> In(v, l, g);
  }

  // -------------------------------------------------------- picking inputs

  /** The first file after the compaction pointer, or the first of the level. */
  function PickedFile(files: seq<File>, pointer: Option<IKey>): (f: File)
    requires files != []
    ensures f in files
  {
    var i := FirstAfter(files, pointer);
    if i < |files| then files[i] else files[0]
  }

  function FirstAfter(files: seq<File>, pointer: Option<IKey>): (i: nat)
    ensures i <= |files|
  {
    if files == [] || pointer.None? || Less(pointer.value, files[0].largest) then 0
    else 1 + FirstAfter(files[1..], pointer)
  }

  lemma OneFileIsSelected(level: nat, files: seq<File>, f: File)
    requires level > 0 && f in files
    ensures Selected(level, files, [f])
  {
    assert f in [f];
    forall g
      ensures !(BySmallest(f, g) && BySmallest(g, f))
    {
      OrderFacts(f, g, f);
    }
  }

  lemma PrefixIsSelected(level: nat, files: seq<File>, r: seq<File>, n: nat)
    requires level > 0 && Selected(level, files, r) && 0 < n <= |r|
    ensures Selected(level, files, r[..n])
  {
    forall f, g, h | f in r[..n] && h in r[..n] && g in files && BySmallest(f, g) && BySmallest(g, h)
      ensures g in r[..n]
    {
      assert g in r;
      var k :| 0 <= k < |r| && r[k] == g;
      var j :| 0 <= j < n && r[j] == h;
      OrderFacts(g, h, g);
      assert k < j;
      assert r[..n][k] == g;
    }
  }

  class DB {
    const maxFileSize: nat
    /** The size of a table that holds these entries. */
    const fileSize: seq<Entry> -> nat

    var mem: seq<Entry>
    var imm: Option<seq<Entry>>
    var current: Version
    var lastSequence: SequenceNumber
    var snapshots: seq<SequenceNumber>
    var nextFileNumber: nat
    var compactPointer: seq<Option<IKey>>
    var job: Option<Job>
    ghost var history: set<Entry>

    ghost function S(): State
      reads this
    {
      State(mem, imm, current, lastSequence, snapshots, nextFileNumber, job, history)
    }

    ghost predicate Valid()
      reads this
    {
      Inv(S()) && |compactPointer| == NUM_LEVELS
    }

    constructor (maxFileSize: nat, fileSize: seq<Entry> -> nat)
      ensures Init(S()) && Valid() && Faithful(S())
    {
      this.maxFileSize := maxFileSize;
      this.fileSize := fileSize;
      mem, imm, current := [], None, [[], [], [], [], [], [], []];
      lastSequence, snapshots, nextFileNumber := 0, [], 2;
      compactPointer := [None, None, None, None, None, None, None];
      job := None;
      history := {};
      new;
      InitHolds(S());
    }

    // ------------------------------------------------------------- reading

    /** Memtable, then immutable memtable, then the levels. */
    method Get(u: UserKey, s: SequenceNumber) returns (answer: Answer)
      requires Valid()
      ensures answer == Read(AllStored(S()), u, s)
      ensures Faithful(S()) && s >= Smallest(S()) ==> answer == Read(history, u, s)
    {
      assert Unique(AllStored(S()));
      LayersDecide(SetOf(mem), ImmSet(imm), Stored(current), u, s);
      var found := MemTableGet(mem, u, s);
      if !found.NotFound? {
        return ToAnswer(found);
      }
      if imm.Some? {
        found := MemTableGet(imm.value, u, s);
        if !found.NotFound? {
          return ToAnswer(found);
        }
      }
      answer := Versions.Get(current, u, s);
    }

    static lemma LayersDecide(m: set<Entry>, i: set<Entry>, v: set<Entry>, u: UserKey, s: SequenceNumber)
      requires Unique(m + i + v) && Newer(m, i) && Newer(m, v) && Newer(i, v)
      ensures Read(m + i + v, u, s) == if SomeSeen(m, u, s) then Read(m, u, s)
                                       else if SomeSeen(i, u, s) then Read(i, u, s) else Read(v, u, s)
    {
      assert m + i + v == m + (i + v);
      assert Newer(m, i + v);
      ReadLayered(m, i + v, u, s);
      ReadLayered(i, v, u, s);
    }

    /** A memtable seeks the lookup key and compares user keys. */
    static method MemTableGet(es: seq<Entry>, u: UserKey, s: SequenceNumber) returns (found: Lookup)
      requires Sorted(es) && Unique(SetOf(es))
      ensures found.NotFound? <==> !SomeSeen(SetOf(es), u, s)
      ensures !found.NotFound? ==> ToAnswer(found) == Read(SetOf(es), u, s)
    {
      var i := SeekIndex(es, SeekKey(u, s));
      LookupFindsNewest(es, u, s);
      if i < |es| && es[i].k.user == u {
        ReadIs(SetOf(es), u, s, es[i]);
        found := LookupOf(es[i]);
      } else {
        found := NotFound;
      }
    }

    // ------------------------------------------------------------- writing

    /** Inserts the entries of a batch with consecutive sequence numbers. */
    static method InsertInto(ops: seq<Op>, sequence: nat, mem: seq<Entry>) returns (table: seq<Entry>)
      requires Sorted(mem) && sequence + |ops| <= MAX_SEQUENCE
      requires forall e :: e in mem ==> e.k.sequence < sequence
      ensures Sorted(table) && SetOf(table) == SetOf(mem) + Batch(ops, sequence)
    {
      table := mem;
      for i := 0 to |ops|
        invariant Sorted(table) && SetOf(table) == SetOf(mem) + Batch(ops[..i], sequence)
      {
        assert ops[..i + 1][..i] == ops[..i];
        BatchSequences(ops[..i], sequence);
        BatchGrows(ops[..i + 1], sequence);
        assert forall e :: e in table ==> e in SetOf(mem) + Batch(ops[..i], sequence);
        table := InsertEntry(table, EntryOf(ops[i], sequence + i));
      }
      assert ops[..|ops|] == ops;
    }

    static lemma MemBelow(st: State)
      requires Inv(st)
      ensures forall e :: e in st.mem ==> e.k.sequence < st.last + 1
    {
      forall e | e in st.mem
        ensures e.k.sequence < st.last + 1
      {
        assert e in AllStored(st);
      }
    }

    static lemma WriteIsWrite(st: State, st': State, ops: seq<Op>, es: set<Entry>)
      requires Inv(st) && st.last + |ops| < MAX_SEQUENCE && es == Batch(ops, st.last + 1)
      requires Sorted(st'.mem) && SetOf(st'.mem) == SetOf(st.mem) + es
      requires st' == st.(mem := st'.mem, last := st.last + |ops|, history := st.history + es)
      ensures Inv(st') && Next(st, WriteStep(ops), st')
      ensures Faithful(st) ==> Faithful(st')
    {
      assert Store.Write(st, st', ops);
      WriteKeeps(st, st', ops);
    }

    method Write(ops: seq<Op>)
      requires Valid() && lastSequence + |ops| < MAX_SEQUENCE
      modifies this`mem, this`lastSequence, this`history
      ensures Valid() && Next(old(S()), WriteStep(ops), S())
      ensures old(Faithful(S())) ==> Faithful(S())
    {
      ghost var st, es := S(), Batch(ops, lastSequence + 1);
      MemBelow(st);
      var table := InsertInto(ops, lastSequence + 1, mem);
      ghost var st' := st.(mem := table, last := st.last + |ops|, history := st.history + es);
      WriteIsWrite(st, st', ops, es);
      mem, lastSequence := table, lastSequence + |ops|;
      history := history + es;
      assert S() == st';
    }

    /** The memtable switch of MakeRoomForWrite. */
    method SwitchToNewMemTable()
      requires Valid() && imm.None?
      modifies this`mem, this`imm, this`nextFileNumber
      ensures Valid() && Next(old(S()), SwitchStep, S())
      ensures old(Faithful(S())) ==> Faithful(S())
    {
      ghost var st := S();
      nextFileNumber := nextFileNumber + 1;
      imm, mem := Some(mem), [];
      SwitchKeeps(st, S());
    }

    method GetSnapshot() returns (s: SequenceNumber)
      requires Valid()
      modifies this`snapshots
      ensures Valid() && Next(old(S()), SnapshotStep, S()) && s == lastSequence
      ensures old(Faithful(S())) ==> Faithful(S())
    {
      ghost var st := S();
      snapshots := snapshots + [lastSequence];
      SnapshotKeeps(st, S());
      s := lastSequence;
    }

    method ReleaseSnapshot(i: nat)
      requires Valid() && i < |snapshots|
      modifies this`snapshots
      ensures Valid() && Next(old(S()), ReleaseStep(i), S())
      ensures old(Faithful(S())) ==> Faithful(S())
    {
      ghost var st := S();
      snapshots := snapshots[..i] + snapshots[i + 1..];
      ReleaseKeeps(st, S(), i);
    }

    // ------------------------------------------------------ version changes

    /** Installs the version that one edit makes of the current one. */
    method LogAndApply(edit: FileEdit)
      requires LevelsOk(current) && EditFits(current, edit)
      modifies this`current
      ensures Applied(old(current), current, edit)
    {
      current := ApplyEdit(current, edit);
    }

    /** Writes the immutable memtable to a table and places it. */
    method CompactMemTable()
      requires Valid() && imm.Some? && job.None?
      modifies this`imm, this`nextFileNumber, this`current
      ensures Valid()
      ensures exists level, f :: Next(old(S()), FlushStep(level, f), S())
      ensures old(Faithful(S())) ==> Faithful(S())
    {
      ghost var st := S();
      var es := imm.value;
      var number := nextFileNumber;
      nextFileNumber := nextFileNumber + 1;
      if es == [] {
        ghost var f := File(number, 0, SeekKey(0, 0), SeekKey(0, 0), []);
        DropEmpty();
        Flushed(st, S(), 0, f);
        return;
      }
      var f := File(number, fileSize(es), es[0].k, es[|es| - 1].k, es);
      EntriesWithin(f, es[0]);
      var level := PickLevelForMemTableOutput(current, f.smallest.user, f.largest.user, maxFileSize);
      AddTable(level, f);
      Flushed(st, S(), level, f);
    }

    method DropEmpty()
      modifies this`imm
      ensures S() == old(S()).(imm := None)
    {
      imm := None;
    }

    /** Adds a file with a new number to a level, and lets the immutable memtable go. */
    method AddTable(level: nat, f: File)
      requires LevelsOk(current) && level < NUM_LEVELS && NumbersBelow(current, f.number)
      modifies this`current, this`imm
      ensures FileAdded(old(current), current, level, f)
      ensures S() == old(S()).(version := S().version, imm := None)
    {
      ghost var v := current;
      imm := None;
      var edit := FileEdit({}, [(level, f)]);
      forall a, g | a in edit.added && g in current[a.0]
        ensures g.number != a.1.number
      {
        assert In(current, a.0, g);
      }
      LogAndApply(edit);
      AddEditAdds(v, current, level, f);
    }

    static lemma Flushed(st: State, st': State, level: nat, f: File)
      requires Inv(st) && Flush(st, st', level, f)
      ensures Inv(st') && Next(st, FlushStep(level, f), st')
      ensures Faithful(st) ==> Faithful(st')
    {
      FlushKeeps(st, st', level, f);
    }

    // --------------------------------------------------------- compactions

    /** A level that is too big gives the file after its compaction pointer; otherwise a
        file that was sought too often is compacted. */
    method PickCompaction(sizeLevel: Option<nat>, seekFile: Option<(nat, File)>) returns (c: Option<Inputs>)
      requires Valid()
      requires sizeLevel.Some? ==> sizeLevel.value + 1 < NUM_LEVELS && current[sizeLevel.value] != []
      requires seekFile.Some? ==> seekFile.value.0 + 1 < NUM_LEVELS && seekFile.value.1 in current[seekFile.value.0]
      modifies this`compactPointer
      ensures Valid()
      ensures c.None? <==> sizeLevel.None? && seekFile.None?
      ensures c.None? ==> compactPointer == old(compactPointer)
      ensures c.Some? ==> InputsOk(current, c.value)
                          && compactPointer == old(compactPointer)[c.value.level := Some(c.value.largest)]
      ensures c.Some? ==>
                if sizeLevel.Some?
                then c.value.level == sizeLevel.value
                     && PickedFile(current[sizeLevel.value], old(compactPointer)[sizeLevel.value]) in c.value.files0
                else c.value.level == seekFile.value.0 && seekFile.value.1 in c.value.files0
    {
      var level: nat;
      var f: File;
      if sizeLevel.Some? {
        level := sizeLevel.value;
        f := PickedFile(current[level], compactPointer[level]);
      } else if seekFile.Some? {
        level := seekFile.value.0;
        f := seekFile.value.1;
      } else {
        return None;
      }
      var picked := CompactFrom(level, f);
      compactPointer := compactPointer[level := Some(picked.largest)];
      c := Some(picked);
    }

    method CompactFrom(level: nat, f: File) returns (c: Inputs)
      requires LevelsOk(current) && level + 1 < NUM_LEVELS && f in current[level]
      ensures InputsOk(current, c) && c.level == level && f in c.files0
    {
      var files := StartWith(level, f);
      c := SetupOtherInputs(current, level, files, maxFileSize);
    }

    /** One file, or, at level 0, all that overlap it. */
    method StartWith(level: nat, f: File) returns (files: seq<File>)
      requires LevelsOk(current) && level < NUM_LEVELS && f in current[level]
      ensures Selected(level, current[level], files) && f in files
    {
      files := [f];
      assert f in [f];
      if level == 0 {
        var smallest, largest := GetRange([f]);
        files := GetOverlappingInputs(0, current[0], Some(smallest.user), Some(largest.user));
        EntriesWithin(f, f.entries[0]);
        OverlappingContains(0, current[0], Some(smallest.user), Some(largest.user), files, f);
        OverlappingIsSelected(0, current[0], Some(smallest.user), Some(largest.user), files);
      } else {
        OneFileIsSelected(level, current[level], f);
      }
    }

    /** The files of a key range, cut short below level 0 when they are many. */
    method CompactRange(level: nat, begin: Option<UserKey>, end: Option<UserKey>) returns (c: Option<Inputs>)
      requires Valid() && level + 1 < NUM_LEVELS
      modifies this`compactPointer
      ensures Valid()
      ensures c.None? <==> forall f :: f in current[level] ==> !Overlaps(f, begin, end)
      ensures c.None? ==> compactPointer == old(compactPointer)
      ensures c.Some? ==> InputsOk(current, c.value) && c.value.level == level
                          && compactPointer == old(compactPointer)[level := Some(c.value.largest)]
      ensures level == 0 && c.Some? ==> forall f :: f in current[0] && Overlaps(f, begin, end) ==> f in c.value.files0
    {
      var inputs := SelectRange(level, current[level], begin, end);
      if inputs == [] {
        return None;
      }
      var picked := SetupOtherInputs(current, level, inputs, maxFileSize);
      compactPointer := compactPointer[level := Some(picked.largest)];
      c := Some(picked);
    }

    /** The overlapping files, cut to the size limit where cutting is safe. */
    method SelectRange(level: nat, files: seq<File>, begin: Option<UserKey>, end: Option<UserKey>) returns (inputs: seq<File>)
      requires if level == 0 then FilesOk(files) && InOrder(files) else LevelOk(files)
      ensures inputs == [] <==> forall f :: f in files ==> !Overlaps(f, begin, end)
      ensures inputs != [] ==> Selected(level, files, inputs)
      ensures level == 0 ==> forall f :: f in files && Overlaps(f, begin, end) ==> f in inputs
    {
      var all := GetOverlappingInputs(level, files, begin, end);
      if all == [] {
        forall f | f in files
          ensures !Overlaps(f, begin, end)
        {
          if Overlaps(f, begin, end) {
            OverlappingContains(level, files, begin, end, all, f);
          }
        }
        return [];
      }
      OverlappingIsSelected(level, files, begin, end, all);
      RangeIsHit(level, files, begin, end, all);
      if level == 0 {
        forall f | f in files && Overlaps(f, begin, end)
          ensures f in all
        {
          OverlappingContains(level, files, begin, end, all, f);
        }
        return all;
      }
      inputs := LimitInputs(all);
      assert inputs == all[..|inputs|];
      PrefixIsSelected(level, files, all, |inputs|);
    }

    /** Cuts the inputs where their total size reaches the limit. */
    method LimitInputs(all: seq<File>) returns (inputs: seq<File>)
      requires all != []
      ensures 0 < |inputs| && inputs <= all
      ensures TotalFileSize(inputs[..|inputs| - 1]) < maxFileSize || |inputs| == 1
      ensures inputs == all || TotalFileSize(inputs) >= maxFileSize
    {
      var total := 0;
      for i := 0 to |all|
        invariant total == TotalFileSize(all[..i]) && (i > 0 ==> total < maxFileSize)
      {
        total := total + all[i].size;
        assert all[..i + 1][..i] == all[..i];
        if total >= maxFileSize {
          return all[..i + 1];
        }
      }
      assert all[..|all|] == all;
      inputs := all;
    }

    static lemma RangeIsHit(level: nat, files: seq<File>, begin: Option<UserKey>, end: Option<UserKey>, r: seq<File>)
      requires OverlappingInputs(level, files, begin, end, r) && r != []
      ensures exists f :: f in files && Overlaps(f, begin, end)
    {
      assert r[0] in r;
      if level == 0 {
        var lo, hi :| LeastClosed(files, begin, end, lo, hi) && r == Overlapping(files, lo, hi);
        if forall f :: f in files ==> !Overlaps(f, begin, end) {
          assert ClosedRange(files, begin, end);
          assert Covers(begin, end, begin, end);
          assert Covers(begin, end, lo, hi);
        }
      }
    }

    /** One file with nothing below it in the next level just moves there. */
    method MoveFile(c: Inputs)
      requires Valid() && job.None? && InputsOk(current, c)
      requires |c.files0| == 1 && c.files1 == []
      modifies this`current
      ensures Valid() && Next(old(S()), MoveStep(c), S())
      ensures old(Faithful(S())) ==> Faithful(S())
    {
      ghost var st := S();
      MoveIsFresh(current, c);
      ReplaceFiles(c, [c.files0[0]]);
      assert c.files0 == [c.files0[0]];
      MoveKeeps(st, S(), c);
    }

    static lemma MoveIsFresh(v: Version, c: Inputs)
      requires VersionOk(v) && InputsOk(v, c) && |c.files0| == 1 && c.files1 == []
      ensures EditFits(v, ReplaceEdit(c, [c.files0[0]]))
      ensures forall g :: In(v, c.level + 1, g) ==> c.files0[0].number != g.number
    {
      var f := c.files0[0];
      assert c.files0 == [f] && In(v, c.level, f);
      forall a, g | a in ReplaceEdit(c, [f]).added && g in v[a.0]
        ensures g.number != a.1.number
      {
        assert In(v, a.0, g);
      }
    }

    /** Fixes the inputs and the oldest snapshot; writes may go on meanwhile. */
    method StartCompaction(c: Inputs)
      requires Valid() && job.None? && InputsOk(current, c)
      modifies this`job
      ensures Valid() && Next(old(S()), BeginStep(c), S())
      ensures old(Faithful(S())) ==> Faithful(S())
    {
      ghost var st := S();
      job := Some(Job(c, if snapshots == [] then lastSequence else snapshots[0]));
      BeginKeeps(st, S(), c);
    }

    /** Runs the compaction loop and installs its outputs. `input` is what the merging
        iterator over the input files yields. */
    method CompleteCompaction(input: seq<Entry>)
      requires Valid() && job.Some?
      requires Sorted(input) && SetOf(input) == InputSet(job.value.c)
      modifies this`current, this`nextFileNumber, this`job
      ensures Valid()
      ensures exists outputs :: Next(old(S()), FinishStep(input, outputs), S())
      ensures old(Faithful(S())) && Splitless(old(current), old(job).value.c) ==> Faithful(S())
    {
      assert job.value.snap <= Smallest(S()) <= lastSequence;
      var compaction := new Compaction(current, job.value.c, maxFileSize, fileSize);
      var outputs := compaction.DoCompactionWork(input, job.value.snap, nextFileNumber);
      InstallCompactionResults(input, outputs);
    }

    method InstallCompactionResults(ghost input: seq<Entry>, outputs: seq<File>)
      requires Valid() && job.Some?
      requires Sorted(input) && SetOf(input) == InputSet(job.value.c)
      requires Bounded(outputs) && NumberedFrom(outputs, nextFileNumber)
      requires Concat(outputs) == Kept(current, job.value.c.level, input, |input|, job.value.snap)
      modifies this`current, this`nextFileNumber, this`job
      ensures Valid() && Next(old(S()), FinishStep(input, outputs), S())
      ensures old(Faithful(S())) && Splitless(old(current), old(job).value.c) ==> Faithful(S())
    {
      ghost var st := S();
      AddOutputs(job.value.c, outputs);
      Installed(st, S(), input, outputs);
    }

    method AddOutputs(c: Inputs, outputs: seq<File>)
      requires VersionOk(current) && InputsOk(current, c)
      requires NumbersBelow(current, nextFileNumber) && NumberedFrom(outputs, nextFileNumber)
      modifies this`current, this`nextFileNumber, this`job
      ensures Replaced(old(current), current, c, SetOf(outputs))
      ensures S() == old(S()).(version := S().version, nextFile := old(nextFileNumber) + |outputs|, job := None)
    {
      OutputsAreFresh(current, c, outputs, nextFileNumber);
      ReplaceFiles(c, outputs);
      nextFileNumber, job := nextFileNumber + |outputs|, None;
    }

    /** Takes the inputs out of their levels and adds the outputs to the next one. */
    method ReplaceFiles(c: Inputs, outputs: seq<File>)
      requires VersionOk(current) && InputsOk(current, c) && EditFits(current, ReplaceEdit(c, outputs))
      requires forall o, g :: o in outputs && In(current, c.level + 1, g) ==> o.number != g.number
      modifies this`current
      ensures Replaced(old(current), current, c, SetOf(outputs))
      ensures S() == old(S()).(version := S().version)
    {
      ghost var v := current;
      LogAndApply(ReplaceEdit(c, outputs));
      ReplaceEditReplaces(v, current, c, outputs);
    }

    static lemma OutputsAreFresh(v: Version, c: Inputs, outputs: seq<File>, next: nat)
      requires NumbersBelow(v, next) && NumberedFrom(outputs, next) && |v| == NUM_LEVELS && c.level + 1 < NUM_LEVELS
      ensures EditFits(v, ReplaceEdit(c, outputs))
      ensures forall o, g :: o in outputs && In(v, c.level + 1, g) ==> o.number != g.number
    {
      forall o, g | o in outputs && In(v, c.level + 1, g)
        ensures o.number != g.number
      {
        var i :| 0 <= i < |outputs| && outputs[i] == o;
      }
      forall a, g | a in ReplaceEdit(c, outputs).added && g in v[a.0]
        ensures g.number != a.1.number
      {
        assert In(v, a.0, g) && a.1 in outputs;
      }
    }

    static lemma Installed(st: State, st': State, input: seq<Entry>, outputs: seq<File>)
      requires Inv(st) && st.job.Some?
      requires Sorted(input) && SetOf(input) == InputSet(st.job.value.c)
      requires Bounded(outputs) && NumberedFrom(outputs, st.nextFile)
      requires Concat(outputs) == Kept(st.version, st.job.value.c.level, input, |input|, st.job.value.snap)
      requires Replaced(st.version, st'.version, st.job.value.c, SetOf(outputs))
      requires st' == st.(version := st'.version, nextFile := st.nextFile + |outputs|, job := None)
      ensures Inv(st') && Next(st, FinishStep(input, outputs), st')
      ensures Faithful(st) && Splitless(st.version, st.job.value.c) ==> Faithful(st')
    {
      assert FinishCompaction(st, st', input, outputs);
      FinishKeepsInv(st, st', input, outputs);
      if Splitless(st.version, st.job.value.c) {
        FinishKeepsReads(st, st', input, outputs);
      }
    }
  }
}
