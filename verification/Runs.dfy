/** What every run of the store keeps: the level invariant, and the answers of reads. */
module Runs {
  import opened Entries
  import opened Versions
  import opened CompactionInputs
  import opened CompactionLoop
  import opened Store

  datatype Label =
    | WriteStep(ops: seq<Op>)
    | SwitchStep
    | FlushStep(level: nat, f: File)
    | SnapshotStep
    | ReleaseStep(i: nat)
    | BeginStep(c: Inputs)
    | AbandonStep
    | FinishStep(input: seq<Entry>, outputs: seq<File>)
    | MoveStep(c: Inputs)

  ghost predicate Next(st: State, l: Label, st': State) {
    match l
    case WriteStep(ops) => Write(st, st', ops)
    case SwitchStep => SwitchMemTable(st, st')
    case FlushStep(level, f) => Flush(st, st', level, f)
    case SnapshotStep => TakeSnapshot(st, st')
    case ReleaseStep(i) => ReleaseSnapshot(st, st', i)
    case BeginStep(c) => BeginCompaction(st, st', c)
    case AbandonStep => AbandonCompaction(st, st')
    case FinishStep(input, outputs) => FinishCompaction(st, st', input, outputs)
    case MoveStep(c) => TrivialMove(st, st', c)
  }

  ghost predicate Init(st: State) {
    st.mem == [] && st.imm.None? && st.version == [[], [], [], [], [], [], []]
    && st.snapshots == [] && st.last < MAX_SEQUENCE && st.job.None? && st.history == {}
  }

  // -------------------------------------------------------- single steps

  lemma InitHolds(st: State)
    requires Init(st)
    ensures Inv(st) && Faithful(st)
  {
    assert Stored(st.version) == {};
    assert AllStored(st) == {};
  }

  lemma {:induction false} BatchSequences(ops: seq<Op>, first: nat)
    requires first + |ops| <= MAX_SEQUENCE
    ensures forall e :: e in Batch(ops, first) ==> first <= e.k.sequence < first + |ops|
    ensures Unique(Batch(ops, first))
  {
    forall a, b | a in Batch(ops, first) && b in Batch(ops, first) && a.k.sequence == b.k.sequence
      ensures a == b
    {
      var i :| 0 <= i < |ops| && a == EntryOf(ops[i], first + i);
      var j :| 0 <= j < |ops| && b == EntryOf(ops[j], first + j);
    }
  }

  lemma AddedNewest(es: set<Entry>, a: set<Entry>, b: set<Entry>, last: nat)
    requires Newer(a, b) && (forall e :: e in es ==> e.k.sequence > last) && (forall e :: e in b ==> e.k.sequence <= last)
    ensures Newer(a + es, b)
  {
  }

  lemma WriteKeepsHistory(st: State, st': State, es: set<Entry>)
    requires HistoryOk(st) && Unique(es)
    requires forall e :: e in es ==> st.last < e.k.sequence <= st'.last
    requires st.last <= st'.last && st'.history == st.history + es && AllStored(st') == AllStored(st) + es
    ensures HistoryOk(st')
  {
    assert forall e :: e in st.history ==> e !in es;
  }

  lemma WriteKeepsReads(st: State, st': State, es: set<Entry>)
    requires Inv(st) && Faithful(st) && Unique(st'.history) && Newer(es, st.history)
    requires st'.history == st.history + es && AllStored(st') == AllStored(st) + es
    requires Smallest(st') >= Smallest(st)
    ensures Faithful(st')
  {
    forall u, s: SequenceNumber | s >= Smallest(st')
      ensures Read(AllStored(st'), u, s) == Read(st'.history, u, s)
    {
      assert AllStored(st') == es + AllStored(st) && st'.history == es + st.history;
      ReadLayered(es, AllStored(st), u, s);
      ReadLayered(es, st.history, u, s);
      assert s >= Smallest(st);
    }
  }

  lemma WriteKeepsInv(st: State, st': State, es: set<Entry>)
    requires Inv(st) && HistoryOk(st') && Sorted(st'.mem) && SetOf(st'.mem) == SetOf(st.mem) + es
    requires forall e :: e in es ==> e.k.sequence > st.last
    requires st.last <= st'.last < MAX_SEQUENCE
    requires st' == st.(mem := st'.mem, last := st'.last, history := st'.history)
    ensures Inv(st')
  {
    assert forall e :: e in ImmSet(st.imm) + Stored(st.version) ==> e in st.history;
    AddedNewest(es, SetOf(st.mem), ImmSet(st.imm), st.last);
    AddedNewest(es, SetOf(st.mem), Stored(st.version), st.last);
    assert LayersOk(st');
  }

  lemma WrittenParts(st: State, st': State, ops: seq<Op>)
    requires Write(st, st', ops)
    ensures var es := Batch(ops, st.last + 1);
            Sorted(st'.mem) && SetOf(st'.mem) == SetOf(st.mem) + es && AllStored(st') == AllStored(st) + es
            && Unique(es) && forall e :: e in es ==> st.last < e.k.sequence <= st'.last
  {
    BatchSequences(ops, st.last + 1);
  }

  lemma WriteKeeps(st: State, st': State, ops: seq<Op>)
    requires Inv(st) && Write(st, st', ops)
    ensures Inv(st')
    ensures Faithful(st) ==> Faithful(st')
  {
    var es := Batch(ops, st.last + 1);
    WrittenParts(st, st', ops);
    WriteKeepsHistory(st, st', es);
    WriteKeepsInv(st, st', es);
    if Faithful(st) {
      WriteKeepsReads(st, st', es);
    }
  }

  lemma SwitchKeeps(st: State, st': State)
    requires Inv(st) && SwitchMemTable(st, st')
    ensures Inv(st')
    ensures Faithful(st) ==> Faithful(st')
  {
    assert AllStored(st') == AllStored(st);
  }

  lemma FlushKeeps(st: State, st': State, level: nat, f: File)
    requires Inv(st) && Flush(st, st', level, f)
    ensures Inv(st') && AllStored(st') == AllStored(st)
    ensures Faithful(st) ==> Faithful(st')
  {
    if st.imm.value == [] {
      assert AllStored(st') == AllStored(st);
    } else {
      FlushKeepsVersion(st.version, st'.version, level, f, st.nextFile);
      FlushedStored(st.version, st'.version, level, f);
      assert AllStored(st') == AllStored(st);
    }
  }

  lemma FlushedStored(v: Version, v': Version, level: nat, f: File)
    requires FileAdded(v, v', level, f)
    ensures Stored(v') == Stored(v) + SetOf(f.entries)
  {
    forall e | e in Stored(v')
      ensures e in Stored(v) + SetOf(f.entries)
    {
      var l, g :| 0 <= l < |v'| && g in v'[l] && e in g.entries;
      assert l == level ==> g in SetOf(v'[level]);
    }
    forall e | e in Stored(v) + SetOf(f.entries)
      ensures e in Stored(v')
    {
      if e in SetOf(f.entries) {
        assert f in SetOf(v'[level]);
        assert f in v'[level];
      } else {
        var l, g :| 0 <= l < |v| && g in v[l] && e in g.entries;
        assert l == level ==> g in SetOf(v'[level]);
        assert g in v'[l];
      }
    }
  }

  lemma SnapshotKeeps(st: State, st': State)
    requires Inv(st) && TakeSnapshot(st, st')
    ensures Inv(st')
    ensures Faithful(st) ==> Faithful(st')
  {
    assert AllStored(st') == AllStored(st);
  }

  lemma ReleaseKeeps(st: State, st': State, i: nat)
    requires Inv(st) && ReleaseSnapshot(st, st', i)
    ensures Inv(st')
    ensures Faithful(st) ==> Faithful(st')
  {
    assert AllStored(st') == AllStored(st);
    assert Smallest(st') >= Smallest(st);
  }

  lemma BeginKeeps(st: State, st': State, c: Inputs)
    requires Inv(st) && BeginCompaction(st, st', c)
    ensures Inv(st')
    ensures Faithful(st) ==> Faithful(st')
  {
    assert AllStored(st') == AllStored(st);
  }

  lemma AbandonKeeps(st: State, st': State)
    requires Inv(st) && AbandonCompaction(st, st')
    ensures Inv(st')
    ensures Faithful(st) ==> Faithful(st')
  {
    assert AllStored(st') == AllStored(st);
  }

  /** A new version that stores no more than the old one. */
  lemma VersionChangeKeeps(st: State, st': State)
    requires Inv(st) && VersionOk(st'.version) && NumbersBelow(st'.version, st'.nextFile)
    requires st' == st.(version := st'.version, nextFile := st'.nextFile, job := None)
    requires Stored(st'.version) <= Stored(st.version)
    ensures Inv(st')
  {
  }

  lemma MoveReplaces(v: Version, v': Version, c: Inputs)
    requires VersionOk(v) && InputsOk(v, c) && |c.files0| == 1 && c.files1 == []
    requires Replaced(v, v', c, SetOf(c.files0))
    ensures Replacement(v, c, SetOf(c.files0))
    ensures Stored(v') == Stored(v)
  {
    var f := c.files0[0];
    assert c.files0 == [f] && SetOf(c.files0) == {f} && In(v, c.level, f);
    assert Contents(c.files0) == SetOf(f.entries);
    StoredSplits(v, c);
    StoredAfter(v, v', c, {f}, SetOf(f.entries));
  }

  lemma MoveKeeps(st: State, st': State, c: Inputs)
    requires Inv(st) && TrivialMove(st, st', c)
    ensures Inv(st') && AllStored(st') == AllStored(st)
    ensures Faithful(st) ==> Faithful(st')
  {
    var v := st.version;
    MoveReplaces(v, st'.version, c);
    assert Unique(Stored(v));
    forall o | o in SetOf(c.files0)
      ensures o.number < st.nextFile
    {
      assert In(v, c.level, o);
    }
    ReplaceKeepsVersion(v, st'.version, c, SetOf(c.files0), st.nextFile, st.nextFile);
    VersionChangeKeeps(st, st');
  }

  // ---------------------------------------------------- the end of a compaction

  lemma OutputsAreApart(outputs: seq<File>, next: nat)
    requires NumberedFrom(outputs, next) && forall i :: 0 <= i < |outputs| ==> FileOk(outputs[i])
    requires forall i, j :: 0 <= i < j < |outputs| ==> Before(outputs[i].largest, outputs[j].smallest)
    ensures forall o, p :: o in outputs && p in outputs && o != p ==> Apart(o, p) && o.number != p.number
    ensures forall o :: o in outputs ==> FileOk(o) && next <= o.number < next + |outputs|
  {
    forall o, p | o in outputs && p in outputs && o != p
      ensures Apart(o, p) && o.number != p.number
    {
      var i :| 0 <= i < |outputs| && outputs[i] == o;
      var j :| 0 <= j < |outputs| && outputs[j] == p;
      assert if i < j then Before(o.largest, p.smallest) else Before(p.largest, o.smallest);
    }
  }

  lemma OutputsReplace(v: Version, c: Inputs, snap: SequenceNumber, input: seq<Entry>, outputs: seq<File>, next: nat)
    requires Sorted(input) && SetOf(input) == InputSet(c) && NumbersBelow(v, next)
    requires Bounded(outputs) && NumberedFrom(outputs, next)
    requires Concat(outputs) == Kept(v, c.level, input, |input|, snap)
    ensures Replacement(v, c, SetOf(outputs))
    ensures Contents(outputs) == KeptSet(v, c.level, input, snap)
    ensures forall o :: o in SetOf(outputs) ==> o.number < next + |outputs|
  {
    KeptSorted(v, c.level, input, |input|, snap);
    KeptIsPart(v, c.level, input, snap);
    OutputsAreOrdered(outputs);
    OutputsAreApart(outputs, next);
    forall o | o in outputs
      ensures SetOf(o.entries) <= InputSet(c)
    {
      assert SetOf(o.entries) <= Contents(outputs);
    }
  }

  /** Installing a compaction keeps the structure, whatever was left out of it. */
  lemma FinishKeepsInv(st: State, st': State, input: seq<Entry>, outputs: seq<File>)
    requires Inv(st) && FinishCompaction(st, st', input, outputs)
    ensures Inv(st')
  {
    var v, c := st.version, st.job.value.c;
    OutputsReplace(v, c, st.job.value.snap, input, outputs, st.nextFile);
    assert Unique(Stored(v));
    ReplaceKeepsVersion(v, st'.version, c, SetOf(outputs), st.nextFile, st'.nextFile);
    StoredSplits(v, c);
    StoredAfter(v, st'.version, c, SetOf(outputs), Contents(outputs));
    KeptIsPart(v, c.level, input, st.job.value.snap);
    assert Stored(st'.version) <= Stored(v);
    VersionChangeKeeps(st, st');
  }

  ghost function NewerThanInputs(st: State): set<Entry>
    requires st.job.Some?
  {
    SetOf(st.mem) + ImmSet(st.imm) + NewerPart(st.version, st.job.value.c)
  }

  ghost predicate KeepsReads(st: State, st': State, snap: SequenceNumber) {
    forall u, s: SequenceNumber :: s >= snap ==> Read(AllStored(st'), u, s) == Read(AllStored(st), u, s)
  }

  lemma FinishStores(v: Version, v': Version, c: Inputs, snap: SequenceNumber, input: seq<Entry>, outputs: seq<File>)
    requires InputsOk(v, c) && SetOf(input) == InputSet(c)
    requires Contents(outputs) == KeptSet(v, c.level, input, snap)
    requires Replaced(v, v', c, SetOf(outputs))
    ensures Stored(v) == NewerPart(v, c) + SetOf(input) + OlderPart(v, c)
    ensures Stored(v') == NewerPart(v, c) + KeptSet(v, c.level, input, snap) + OlderPart(v, c)
  {
    StoredSplits(v, c);
    assert Contents(outputs) == set f, e | f in SetOf(outputs) && e in f.entries :: e;
    StoredAfter(v, v', c, SetOf(outputs), Contents(outputs));
  }

  lemma InputsAreSurrounded(st: State, input: seq<Entry>)
    requires Inv(st) && st.job.Some? && Sorted(input) && SetOf(input) == InputSet(st.job.value.c)
    ensures Surrounds(NewerThanInputs(st), input, OlderPart(st.version, st.job.value.c))
  {
    var v, c := st.version, st.job.value.c;
    assert Unique(Stored(v));
    StoredSplits(v, c);
    NewerPartIsNewer(v, c);
    OlderPartIsOlder(v, c);
    assert NewerThanInputs(st) + SetOf(input) + OlderPart(v, c) <= AllStored(st);
  }

  lemma FinishedSets(st: State, st': State, input: seq<Entry>, outputs: seq<File>)
    requires Inv(st) && FinishCompaction(st, st', input, outputs)
    ensures var job := st.job.value;
            var newer, older := NewerThanInputs(st), OlderPart(st.version, job.c);
            AllStored(st) == newer + SetOf(input) + older
            && AllStored(st') == newer + KeptSet(st.version, job.c.level, input, job.snap) + older
  {
    var v, c, snap := st.version, st.job.value.c, st.job.value.snap;
    OutputsReplace(v, c, snap, input, outputs, st.nextFile);
    FinishStores(v, st'.version, c, snap, input, outputs);
    Regroup(SetOf(st.mem), ImmSet(st.imm), NewerPart(v, c), SetOf(input), OlderPart(v, c));
    Regroup(SetOf(st.mem), ImmSet(st.imm), NewerPart(v, c), KeptSet(v, c.level, input, snap), OlderPart(v, c));
  }

  lemma Regroup(a: set<Entry>, b: set<Entry>, n: set<Entry>, x: set<Entry>, o: set<Entry>)
    ensures a + b + (n + x + o) == (a + b + n) + x + o
  {
  }

  lemma KeepsReadsExactly(before: set<Entry>, after: set<Entry>, v: Version, level: nat, newer: set<Entry>,
                          input: seq<Entry>, older: set<Entry>, snap: SequenceNumber)
    requires Surrounds(newer, input, older)
    requires before == newer + SetOf(input) + older && after == newer + KeptSet(v, level, input, snap) + older
    ensures (forall u, s: SequenceNumber :: s >= snap ==> Read(after, u, s) == Read(before, u, s)) <==>
            forall u :: !Resurrects(v, level, newer, input, older, snap, u)
  {
    CompactionKeepsReads(v, level, newer, input, older, snap);
  }

  /** Installing a compaction keeps every read that its oldest snapshot covers exactly
      when no obsolete tombstone uncovers an entry in a file that was left out. */
  lemma FinishKeepsReadsExactly(st: State, st': State, input: seq<Entry>, outputs: seq<File>)
    requires Inv(st) && FinishCompaction(st, st', input, outputs)
    ensures var job := st.job.value;
            KeepsReads(st, st', job.snap) <==>
            forall u :: !Resurrects(st.version, job.c.level, NewerThanInputs(st), input,
                                    OlderPart(st.version, job.c), job.snap, u)
  {
    var c, snap := st.job.value.c, st.job.value.snap;
    InputsAreSurrounded(st, input);
    FinishedSets(st, st', input, outputs);
    KeepsReadsExactly(AllStored(st), AllStored(st'), st.version, c.level, NewerThanInputs(st), input,
                      OlderPart(st.version, c), snap);
  }

  lemma FinishKeepsReads(st: State, st': State, input: seq<Entry>, outputs: seq<File>)
    requires Inv(st) && FinishCompaction(st, st', input, outputs)
    requires Splitless(st.version, st.job.value.c)
    ensures KeepsReads(st, st', st.job.value.snap)
    ensures Faithful(st) ==> Faithful(st')
  {
    var v, c, snap := st.version, st.job.value.c, st.job.value.snap;
    forall u
      ensures !Resurrects(v, c.level, NewerThanInputs(st), input, OlderPart(v, c), snap, u)
    {
      SplitlessNeverResurrects(v, c, NewerThanInputs(st), input, snap, u);
    }
    FinishKeepsReadsExactly(st, st', input, outputs);
    assert Smallest(st') == Smallest(st);
  }

  // ------------------------------------------------------------------ runs

  ghost predicate IsRun(states: seq<State>, labels: seq<Label>) {
    |states| == |labels| + 1 && Init(states[0])
    && forall i :: 0 <= i < |labels| ==> Next(states[i], labels[i], states[i + 1])
  }

  /** The guard of the one step that can lose a deletion. */
  ghost predicate Guarded(st: State, l: Label) {
    l.FinishStep? && st.job.Some? ==> Splitless(st.version, st.job.value.c)
  }

  lemma StepKeeps(st: State, l: Label, st': State)
    requires Inv(st) && Next(st, l, st')
    ensures Inv(st')
    ensures Faithful(st) && Guarded(st, l) ==> Faithful(st')
  {
    match l
    case WriteStep(ops) => WriteKeeps(st, st', ops);
    case SwitchStep => SwitchKeeps(st, st');
    case FlushStep(level, f) => FlushKeeps(st, st', level, f);
    case SnapshotStep => SnapshotKeeps(st, st');
    case ReleaseStep(i) => ReleaseKeeps(st, st', i);
    case BeginStep(c) => BeginKeeps(st, st', c);
    case AbandonStep => AbandonKeeps(st, st');
    case MoveStep(c) => MoveKeeps(st, st', c);
    case FinishStep(input, outputs) =>
      FinishKeepsInv(st, st', input, outputs);
      if Guarded(st, l) {
        FinishKeepsReads(st, st', input, outputs);
      }
  }

  /** Every reachable state satisfies the level invariant: levels sorted and disjoint,
      and shallower layers newer than deeper ones for every user key. */
  lemma {:induction false} RunKeepsInvariant(states: seq<State>, labels: seq<Label>, i: nat)
    requires IsRun(states, labels) && i < |states|
    ensures Inv(states[i])
  {
    if i == 0 {
      InitHolds(states[0]);
    } else {
      RunKeepsInvariant(states, labels, i - 1);
      StepKeeps(states[i - 1], labels[i - 1], states[i]);
    }
  }

  /** Every run whose compactions leave out no continuation of a compacted user key
      answers reads from what was written, as if nothing had ever been compacted. */
  lemma {:induction false} RunIsFaithful(states: seq<State>, labels: seq<Label>, i: nat)
    requires IsRun(states, labels) && i < |states|
    requires forall j :: 0 <= j < i ==> Guarded(states[j], labels[j])
    ensures Faithful(states[i])
  {
    if i == 0 {
      InitHolds(states[0]);
    } else {
      RunIsFaithful(states, labels, i - 1);
      RunKeepsInvariant(states, labels, i - 1);
      StepKeeps(states[i - 1], labels[i - 1], states[i]);
    }
  }
}
