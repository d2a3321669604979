/** The whole store as a state machine: memtable, immutable memtable, levels,
    snapshots, and the steps that change them (db/db_impl.cc, db/snapshot.h). */
module Store {
  import opened Entries
  import opened Versions
  import opened CompactionInputs
  import opened CompactionLoop

  /** A running compaction: its inputs and the oldest snapshot when it started. */
  datatype Job = Job(c: Inputs, snap: SequenceNumber)

  /** `history` records every entry ever written; nothing in the code reads it. */
  datatype State = State(mem: seq<Entry>, imm: Option<seq<Entry>>, version: Version, last: SequenceNumber,
                         snapshots: seq<SequenceNumber>, nextFile: nat, job: Option<Job>, history: set<Entry>)

  ghost function ImmSet(imm: Option<seq<Entry>>): set<Entry> {
    if imm.Some? then SetOf(imm.value) else {}
  }

  ghost function AllStored(st: State): set<Entry> {
    SetOf(st.mem) + ImmSet(st.imm) + Stored(st.version)
  }

  /** The oldest sequence number that a reader may still ask for. */
  function Smallest(st: State): SequenceNumber {
    if st.snapshots == [] then st.last else st.snapshots[0]
  }

  // ------------------------------------------------------------ invariants

  ghost predicate MemOk(st: State) {
    Sorted(st.mem) && (st.imm.Some? ==> Sorted(st.imm.value))
  }

  ghost predicate LayersOk(st: State) {
    Newer(SetOf(st.mem), ImmSet(st.imm))
    && Newer(SetOf(st.mem), Stored(st.version))
    && Newer(ImmSet(st.imm), Stored(st.version))
  }

  ghost predicate HistoryOk(st: State) {
    AllStored(st) <= st.history && Unique(st.history)
    && forall e :: e in st.history ==> e.k.sequence <= st.last
  }

  ghost predicate SnapshotsOk(st: State) {
    (forall i, j :: 0 <= i < j < |st.snapshots| ==> st.snapshots[i] <= st.snapshots[j])
    && (forall i :: 0 <= i < |st.snapshots| ==> st.snapshots[i] <= st.last)
    && st.last < MAX_SEQUENCE
  }

  ghost predicate NumbersBelow(v: Version, next: nat) {
    forall l, f :: In(v, l, f) ==> f.number < next
  }

  ghost predicate JobOk(st: State) {
    st.job.Some? ==> InputsOk(st.version, st.job.value.c) && st.job.value.snap <= Smallest(st)
  }

  ghost predicate Inv(st: State) {
    MemOk(st) && VersionOk(st.version) && LayersOk(st) && HistoryOk(st) && SnapshotsOk(st)
    && NumbersBelow(st.version, st.nextFile) && JobOk(st)
  }

  /** Every read that a live snapshot can ask for answers as if nothing had ever
      been flushed, moved or dropped. */
  ghost predicate Faithful(st: State) {
    forall u, s: SequenceNumber :: s >= Smallest(st) ==> Read(AllStored(st), u, s) == Read(st.history, u, s)
  }

  // ----------------------------------------------------------------- writes

  datatype Op = Put(key: UserKey, value: Bytes) | Delete(key: UserKey)

  function EntryOf(op: Op, s: SequenceNumber): Entry {
    match op
    case Put(k, v) => Entry(IKey(k, s, Value), v)
    case Delete(k) => Entry(IKey(k, s, Deletion), [])
  }

  function InsertEntry(es: seq<Entry>, e: Entry): (r: seq<Entry>)
    requires Sorted(es)
    requires forall x :: x in es ==> !(x.k.user == e.k.user && x.k.sequence == e.k.sequence)
    ensures Sorted(r)
    ensures SetOf(r) == SetOf(es) + {e}
  {
    if es == [] || Before(e.k, es[0].k) then
      assert SetOf([e] + es) == SetOf(es) + {e};
      [e] + es
    else
      var rest := InsertEntry(es[1..], e);
      assert es == [es[0]] + es[1..];
      assert SetOf(es) == {es[0]} + SetOf(es[1..]);
      assert SetOf([es[0]] + rest) == {es[0]} + SetOf(rest);
      assert forall i :: 0 <= i < |rest| ==> rest[i] in SetOf(rest);
      [es[0]] + rest
  }

  /** The entries of a batch, numbered from `first`. */
  ghost function Batch(ops: seq<Op>, first: nat): set<Entry>
    requires first + |ops| <= MAX_SEQUENCE
  {
    set i | 0 <= i < |ops| :: EntryOf(ops[i], first + i)
  }

  lemma BatchGrows(ops: seq<Op>, first: nat)
    requires ops != [] && first + |ops| <= MAX_SEQUENCE
    ensures var n := |ops| - 1;
            Batch(ops, first) == Batch(ops[..n], first) + {EntryOf(ops[n], first + n)}
  {
    var n := |ops| - 1;
    forall e | e in Batch(ops, first)
      ensures e in Batch(ops[..n], first) + {EntryOf(ops[n], first + n)}
    {
      var i :| 0 <= i < |ops| && e == EntryOf(ops[i], first + i);
      assert i < n ==> ops[..n][i] == ops[i];
    }
    forall e | e in Batch(ops[..n], first)
      ensures e in Batch(ops, first)
    {
      var i :| 0 <= i < n && e == EntryOf(ops[..n][i], first + i);
      assert ops[..n][i] == ops[i];
    }
  }

  // ------------------------------------------------------------------ steps

  /** The batch is in the memtable, numbered on from the last sequence number. */
  ghost predicate Write(st: State, st': State, ops: seq<Op>) {
    st.last + |ops| < MAX_SEQUENCE
    && Sorted(st'.mem) && SetOf(st'.mem) == SetOf(st.mem) + Batch(ops, st.last + 1)
    && st' == st.(mem := st'.mem, last := st.last + |ops|, history := st.history + Batch(ops, st.last + 1))
  }

  /** The memtable becomes immutable; the new log takes a file number. */
  ghost predicate SwitchMemTable(st: State, st': State) {
    st.imm.None? && st' == st.(imm := Some(st.mem), mem := [], nextFile := st.nextFile + 1)
  }

  ghost predicate LevelHolds(v: Version, l: nat, files: set<File>) {
    l < |v| && InOrder(v[l]) && SetOf(v[l]) == files
  }

  /** `f` joins a level; the other levels stay. */
  ghost predicate FileAdded(v: Version, v': Version, level: nat, f: File) {
    |v| == |v'| == NUM_LEVELS && level < NUM_LEVELS
    && LevelHolds(v', level, SetOf(v[level]) + {f})
    && forall l :: 0 <= l < NUM_LEVELS && l != level ==> v'[l] == v[l]
  }

  ghost predicate Flush(st: State, st': State, level: nat, f: File) {
    st.imm.Some? && st.job.None? && st'.nextFile == st.nextFile + 1 && st'.imm == None
    && st' == st.(imm := None, nextFile := st.nextFile + 1, version := st'.version)
    && if st.imm.value == [] then st'.version == st.version
       else
         f.entries == st.imm.value && FileOk(f) && f.number == st.nextFile
         && (level > 0 ==> forall l :: 0 <= l <= level ==> !OverlapsLevel(st.version, l, f.smallest.user, f.largest.user))
         && FileAdded(st.version, st'.version, level, f)
  }

  ghost predicate TakeSnapshot(st: State, st': State) {
    st' == st.(snapshots := st.snapshots + [st.last])
  }

  ghost predicate ReleaseSnapshot(st: State, st': State, i: nat) {
    i < |st.snapshots| && st' == st.(snapshots := st.snapshots[..i] + st.snapshots[i + 1..])
  }

  ghost predicate BeginCompaction(st: State, st': State, c: Inputs) {
    st.job.None? && InputsOk(st.version, c) && st' == st.(job := Some(Job(c, Smallest(st))))
  }

  ghost predicate AbandonCompaction(st: State, st': State) {
    st.job.Some? && st' == st.(job := None)
  }

  /** The inputs leave their levels and `outputs` join the level below. */
  ghost predicate Replaced(v: Version, v': Version, c: Inputs, outputs: set<File>) {
    |v| == |v'| == NUM_LEVELS && c.level + 1 < NUM_LEVELS
    && LevelHolds(v', c.level, SetOf(v[c.level]) - SetOf(c.files0))
    && LevelHolds(v', c.level + 1, SetOf(v[c.level + 1]) - SetOf(c.files1) + outputs)
    && forall l :: 0 <= l < NUM_LEVELS && l != c.level && l != c.level + 1 ==> v'[l] == v[l]
  }

  ghost function InputSet(c: Inputs): set<Entry> {
    Contents(c.files0) + Contents(c.files1)
  }

  ghost predicate FinishCompaction(st: State, st': State, input: seq<Entry>, outputs: seq<File>) {
    st.job.Some? && |st.version| == NUM_LEVELS
    && var c := st.job.value.c;
    Sorted(input) && SetOf(input) == InputSet(c)
    && Bounded(outputs) && NumberedFrom(outputs, st.nextFile)
    && Concat(outputs) == Kept(st.version, c.level, input, |input|, st.job.value.snap)
    && Replaced(st.version, st'.version, c, SetOf(outputs))
    && st' == st.(version := st'.version, nextFile := st.nextFile + |outputs|, job := None)
  }

  ghost predicate TrivialMove(st: State, st': State, c: Inputs) {
    st.job.None? && InputsOk(st.version, c) && |c.files0| == 1 && c.files1 == []
    && Replaced(st.version, st'.version, c, SetOf(c.files0))
    && st' == st.(version := st'.version)
  }

  /** No file of the next level that is left out continues a user key of one that is
      compacted. */
  ghost predicate Splitless(v: Version, c: Inputs) {
    c.level + 1 < |v|
    && forall f, h :: f in c.files1 && h in v[c.level + 1] && h !in c.files1 ==> !IsBoundary(h, f.largest)
  }

  // ------------------------------------------------- the level invariant

  lemma FlushKeepsVersion(v: Version, v': Version, level: nat, f: File, next: nat)
    requires VersionOk(v) && NumbersBelow(v, next) && f.number == next
    requires FileOk(f) && Newer(SetOf(f.entries), Stored(v))
    requires level > 0 ==> forall l :: 0 <= l <= level ==> !OverlapsLevel(v, l, f.smallest.user, f.largest.user)
    requires FileAdded(v, v', level, f)
    ensures VersionOk(v') && NumbersBelow(v', next + 1)
  {
    forall l, g | In(v', l, g)
      ensures In(v, l, g) || (l == level && g == f)
    {
      assert l == level ==> g in SetOf(v'[level]);
    }
    forall l, g | In(v, l, g) && l <= level && level > 0
      ensures UserApart(f, g)
    {
      assert !OverlapsLevel(v, l, f.smallest.user, f.largest.user);
      assert !Overlaps(g, Some(f.smallest.user), Some(f.largest.user));
    }
    forall l, f1, m, f2 | In(v', l, f1) && In(v', m, f2) && Above(l, f1, m, f2)
      ensures FileNewer(f1, f2)
    {
      if In(v, l, f1) && In(v, m, f2) {
      } else if In(v, m, f2) {
        FileIsStored(v, m, f2);
      } else if In(v, l, f1) {
        UserApartIsNewer(f1, f2);
      }
    }
    assert forall g :: g in v'[level] <==> g in SetOf(v'[level]);
    forall g, h | g in v'[level] && h in v'[level] && g != h && level > 0
      ensures Apart(g, h)
    {
      assert In(v', level, g) && In(v', level, h);
      assert In(v, level, g) || In(v, level, h);
      if g == f {
        assert UserApart(f, h);
      } else if h == f {
        assert UserApart(f, g);
      }
    }
    assert FilesOk(v'[level]);
    assert Numbered(v');
  }

  /** What a set of files must be to stand in for the inputs one level down. */
  ghost predicate Replacement(v: Version, c: Inputs, outputs: set<File>) {
    (forall o :: o in outputs ==> FileOk(o) && SetOf(o.entries) <= InputSet(c))
    && (forall o, p :: o in outputs && p in outputs && o != p ==> Apart(o, p) && o.number != p.number)
    && forall o, l, g :: o in outputs && In(v, l, g) && !(l == c.level && g in c.files0) ==> o.number != g.number
  }

  /** Where the files of the new version come from. */
  lemma ReplacedFiles(v: Version, v': Version, c: Inputs, outputs: set<File>, l: nat, g: File)
    requires Replaced(v, v', c, outputs)
    ensures In(v', l, g) <==>
            (In(v, l, g) && !(l == c.level && g in c.files0) && !(l == c.level + 1 && g in c.files1))
            || (l == c.level + 1 && g in outputs)
  {
    if l < NUM_LEVELS {
      assert g in v'[l] <==> g in SetOf(v'[l]);
      assert g in v[l] <==> g in SetOf(v[l]);
      assert g in c.files0 <==> g in SetOf(c.files0);
      assert g in c.files1 <==> g in SetOf(c.files1);
    }
  }

  lemma InputEntry(v: Version, c: Inputs, e: Entry) returns (l: nat, f: File)
    requires InputsOk(v, c) && e in InputSet(c)
    ensures e in f.entries && In(v, l, f)
    ensures (l == c.level && f in c.files0) || (l == c.level + 1 && f in c.files1)
  {
    if e in Contents(c.files0) {
      l := c.level;
      f :| f in c.files0 && e in f.entries;
    } else {
      l := c.level + 1;
      f :| f in c.files1 && e in f.entries;
    }
  }

  /** A file that is not an input and lies above the next level, or in it, is newer or
      older than the inputs as a whole wherever they share a user key. */
  lemma AboveIsNewer(v: Version, c: Inputs, l: nat, g: File, o: File)
    requires VersionOk(v) && Unique(Stored(v)) && InputsOk(v, c)
    requires In(v, l, g) && l <= c.level && !(l == c.level && g in c.files0)
    requires SetOf(o.entries) <= InputSet(c)
    ensures FileNewer(g, o)
  {
    forall x, y | x in SetOf(g.entries) && y in SetOf(o.entries) && x.k.user == y.k.user
      ensures x.k.sequence > y.k.sequence
    {
      var m, f := InputEntry(v, c, y);
      assert y in SetOf(f.entries);
      if l == c.level && m == c.level {
        OmittedIsNewer(v, c, f, g);
      } else {
        assert Above(l, g, m, f);
      }
    }
  }

  lemma DeeperIsOlder(v: Version, c: Inputs, l: nat, g: File, o: File)
    requires VersionOk(v) && InputsOk(v, c)
    requires In(v, l, g) && l >= c.level + 2
    requires SetOf(o.entries) <= InputSet(c)
    ensures FileNewer(o, g)
  {
    forall x, y | x in SetOf(o.entries) && y in SetOf(g.entries) && x.k.user == y.k.user
      ensures x.k.sequence > y.k.sequence
    {
      var m, f := InputEntry(v, c, x);
      assert x in SetOf(f.entries);
      assert Above(m, f, l, g);
    }
  }

  lemma BesideIsApart(v: Version, c: Inputs, h: File, o: File)
    requires VersionOk(v) && InputsOk(v, c)
    requires h in v[c.level + 1] && h !in c.files1
    requires FileOk(o) && SetOf(o.entries) <= InputSet(c)
    ensures Apart(h, o)
  {
    OmittedBelowIsOutside(v, c, h);
    var a, b := o.entries[0], o.entries[|o.entries| - 1];
    assert a in SetOf(o.entries) && b in SetOf(o.entries);
    var l, f := InputEntry(v, c, a);
    var m, g := InputEntry(v, c, b);
    EntriesWithin(f, a);
    EntriesWithin(g, b);
  }

  lemma ReplaceKeepsVersion(v: Version, v': Version, c: Inputs, outputs: set<File>, next: nat, next': nat)
    requires VersionOk(v) && Unique(Stored(v)) && InputsOk(v, c)
    requires NumbersBelow(v, next) && next <= next' && forall o :: o in outputs ==> o.number < next'
    requires Replacement(v, c, outputs) && Replaced(v, v', c, outputs)
    ensures VersionOk(v') && NumbersBelow(v', next')
  {
    forall l: nat, g
      ensures In(v', l, g) <==>
              (In(v, l, g) && !(l == c.level && g in c.files0) && !(l == c.level + 1 && g in c.files1))
              || (l == c.level + 1 && g in outputs)
    {
      ReplacedFiles(v, v', c, outputs, l, g);
    }
    ReplaceKeepsLevels(v, v', c, outputs);
    forall l, f, m, g | In(v', l, f) && In(v', m, g) && Above(l, f, m, g)
      ensures FileNewer(f, g)
    {
      if l == c.level + 1 && f in outputs {
        DeeperIsOlder(v, c, m, g, f);
      } else if m == c.level + 1 && g in outputs {
        AboveIsNewer(v, c, l, f, g);
      } else {
        assert In(v, l, f) && In(v, m, g);
      }
    }
    forall l, f, m, g | In(v', l, f) && In(v', m, g) && f.number == g.number
      ensures l == m && f == g
    {
    }
  }

  lemma ReplaceKeepsLevels(v: Version, v': Version, c: Inputs, outputs: set<File>)
    requires VersionOk(v) && InputsOk(v, c)
    requires Replacement(v, c, outputs) && Replaced(v, v', c, outputs)
    requires forall l: nat, g ::
               In(v', l, g) <==>
               (In(v, l, g) && !(l == c.level && g in c.files0) && !(l == c.level + 1 && g in c.files1))
               || (l == c.level + 1 && g in outputs)
    ensures LevelsOk(v')
  {
    var n := c.level + 1;
    forall f, g | f in v'[n] && g in v'[n] && f != g
      ensures Apart(f, g)
    {
      assert In(v', n, f) && In(v', n, g);
      if f in outputs && g !in outputs {
        BesideIsApart(v, c, g, f);
      } else if f !in outputs && g in outputs {
        BesideIsApart(v, c, f, g);
      }
    }
    forall f | f in v'[n]
      ensures FileOk(f)
    {
      assert In(v', n, f);
    }
    forall f | f in v'[c.level]
      ensures f in v[c.level]
    {
      assert In(v', c.level, f);
    }
    assert LevelOk(v'[n]);
  }

  // -------------------------------------------------- what surrounds inputs

  ghost predicate AfterInputs(c: Inputs, h: File) {
    forall f :: f in c.files0 || f in c.files1 ==> Less(f.largest, h.smallest)
  }

  ghost predicate InOlder(v: Version, c: Inputs, l: nat, f: File) {
    In(v, l, f) && (l >= c.level + 2 || (l == c.level + 1 && f !in c.files1 && AfterInputs(c, f)))
  }

  ghost predicate InNewer(v: Version, c: Inputs, l: nat, f: File) {
    In(v, l, f) && (l < c.level || (l == c.level && f !in c.files0)
                    || (l == c.level + 1 && f !in c.files1 && !AfterInputs(c, f)))
  }

  ghost function OlderPart(v: Version, c: Inputs): set<Entry> {
    set l, f, e | 0 <= l < |v| && f in v[l] && e in f.entries && InOlder(v, c, l, f) :: e
  }

  ghost function NewerPart(v: Version, c: Inputs): set<Entry> {
    set l, f, e | 0 <= l < |v| && f in v[l] && e in f.entries && InNewer(v, c, l, f) :: e
  }

  lemma StoredSplits(v: Version, c: Inputs)
    requires InputsOk(v, c)
    ensures Stored(v) == NewerPart(v, c) + InputSet(c) + OlderPart(v, c)
  {
    forall e | e in Stored(v)
      ensures e in NewerPart(v, c) + InputSet(c) + OlderPart(v, c)
    {
      var l, f :| 0 <= l < |v| && f in v[l] && e in f.entries;
      assert In(v, l, f);
      assert InNewer(v, c, l, f) || InOlder(v, c, l, f)
             || (l == c.level && f in c.files0) || (l == c.level + 1 && f in c.files1);
    }
    forall e | e in InputSet(c)
      ensures e in Stored(v)
    {
      var l, f := InputEntry(v, c, e);
    }
  }

  lemma StoredAfter(v: Version, v': Version, c: Inputs, outputs: set<File>, out: set<Entry>)
    requires InputsOk(v, c) && Replaced(v, v', c, outputs)
    requires out == set f, e | f in outputs && e in f.entries :: e
    ensures Stored(v') == NewerPart(v, c) + out + OlderPart(v, c)
  {
    forall l: nat, g
      ensures In(v', l, g) <==>
              (In(v, l, g) && !(l == c.level && g in c.files0) && !(l == c.level + 1 && g in c.files1))
              || (l == c.level + 1 && g in outputs)
    {
      ReplacedFiles(v, v', c, outputs, l, g);
    }
    forall e | e in Stored(v')
      ensures e in NewerPart(v, c) + out + OlderPart(v, c)
    {
      var l, f :| 0 <= l < |v'| && f in v'[l] && e in f.entries;
      assert In(v', l, f);
      assert InNewer(v, c, l, f) || InOlder(v, c, l, f) || f in outputs;
    }
    forall e | e in NewerPart(v, c) + out + OlderPart(v, c)
      ensures e in Stored(v')
    {
      if e in out {
        var f :| f in outputs && e in f.entries;
        assert In(v', c.level + 1, f);
      } else {
        var l, f :| 0 <= l < |v| && f in v[l] && e in f.entries && (InNewer(v, c, l, f) || InOlder(v, c, l, f));
        assert In(v', l, f);
      }
    }
  }

  lemma NewerFile(v: Version, c: Inputs, l: nat, g: File, m: nat, f: File)
    requires VersionOk(v) && Unique(Stored(v)) && InputsOk(v, c) && InNewer(v, c, l, g) && In(v, m, f)
    requires (m == c.level && f in c.files0) || (m == c.level + 1 && f in c.files1)
    ensures FileNewer(g, f)
  {
    if l <= c.level {
      if m == c.level && l == c.level {
        OmittedIsNewer(v, c, f, g);
      } else {
        assert Above(l, g, m, f);
      }
    } else {
      OmittedBelowIsOutside(v, c, g);
      FileIsStored(v, l, g);
      FileIsStored(v, m, f);
      EarlierIsNewer(g, f);
    }
  }

  lemma OlderFile(v: Version, c: Inputs, l: nat, g: File, m: nat, f: File)
    requires VersionOk(v) && Unique(Stored(v)) && InputsOk(v, c) && InOlder(v, c, l, g) && In(v, m, f)
    requires (m == c.level && f in c.files0) || (m == c.level + 1 && f in c.files1)
    ensures FileNewer(f, g)
  {
    if l >= c.level + 2 {
      assert Above(m, f, l, g);
    } else {
      FileIsStored(v, l, g);
      FileIsStored(v, m, f);
      EarlierIsNewer(f, g);
    }
  }

  lemma NewerPartIsNewer(v: Version, c: Inputs)
    requires VersionOk(v) && Unique(Stored(v)) && InputsOk(v, c)
    ensures Newer(NewerPart(v, c), InputSet(c))
  {
    forall x, y | x in NewerPart(v, c) && y in InputSet(c) && x.k.user == y.k.user
      ensures x.k.sequence > y.k.sequence
    {
      var l, g :| 0 <= l < |v| && g in v[l] && x in g.entries && InNewer(v, c, l, g);
      var m, f := InputEntry(v, c, y);
      NewerFile(v, c, l, g, m, f);
      assert x in SetOf(g.entries) && y in SetOf(f.entries);
    }
  }

  lemma OlderPartIsOlder(v: Version, c: Inputs)
    requires VersionOk(v) && Unique(Stored(v)) && InputsOk(v, c)
    ensures Newer(InputSet(c), OlderPart(v, c))
  {
    forall x, y | x in InputSet(c) && y in OlderPart(v, c) && x.k.user == y.k.user
      ensures x.k.sequence > y.k.sequence
    {
      var l, g :| 0 <= l < |v| && g in v[l] && y in g.entries && InOlder(v, c, l, g);
      var m, f := InputEntry(v, c, x);
      OlderFile(v, c, l, g, m, f);
      assert y in SetOf(g.entries) && x in SetOf(f.entries);
    }
  }

  /** A file behind the inputs whose range does not reach a compacted user key. */
  lemma OlderFileLacks(v: Version, c: Inputs, f: File, l: nat, g: File, u: UserKey)
    requires VersionOk(v) && InputsOk(v, c) && Splitless(v, c) && IsBaseLevel(v, c.level, u)
    requires (f in c.files0 || f in c.files1) && f.smallest.user <= u <= f.largest.user
    requires InOlder(v, c, l, g)
    ensures !(g.smallest.user <= u <= g.largest.user)
  {
    if l == c.level + 1 {
      assert Less(f.largest, g.smallest);
      if f in c.files0 {
        OmittedBelowIsApart(v, c, f, g);
      } else {
        assert !IsBoundary(g, f.largest);
      }
    }
  }

  /** When no left-out file continues a compacted user key, an obsolete tombstone has
      nothing below it to uncover. */
  lemma SplitlessNeverResurrects(v: Version, c: Inputs, newer: set<Entry>, input: seq<Entry>, snap: SequenceNumber, u: UserKey)
    requires VersionOk(v) && InputsOk(v, c) && Splitless(v, c)
    requires SetOf(input) == InputSet(c)
    ensures !Resurrects(v, c.level, newer, input, OlderPart(v, c), snap, u)
  {
    if t :| IsNewest(SetOf(input), u, snap, t) && IsBaseLevel(v, c.level, u) {
      var m, f := InputEntry(v, c, t);
      EntriesWithin(f, t);
      forall e | e in OlderPart(v, c)
        ensures e.k.user != u
      {
        var l, g :| 0 <= l < |v| && g in v[l] && e in g.entries && InOlder(v, c, l, g);
        OlderFileLacks(v, c, f, l, g, u);
        EntriesWithin(g, e);
      }
      ReadAbsent(OlderPart(v, c), u, snap);
    }
  }
}
