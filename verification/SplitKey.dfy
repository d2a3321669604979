/** Why compactions need a guard: a run of the store in which a deleted key comes back.

    Keys 1 and 5 are written, a snapshot is taken, and key 5 is deleted. The memtable is
    flushed to level 2, and compacted into level 3, where the output is cut between the
    deletion of key 5 and its older value, which the snapshot still needs. The snapshot is
    released; key 1 is written again, flushed, and compacted into level 3. Only the first
    file there overlaps key 1, and the second one, which continues key 5, is left out. The
    deletion is dropped, since no deeper level holds key 5. */
module SplitKey {
  import opened Entries
  import opened Versions
  import opened CompactionInputs
  import opened CompactionLoop
  import opened Store
  import opened Runs

  const P := Entry(IKey(1, 1, Value), [])
  const E := Entry(IKey(5, 2, Value), [7])
  const T := Entry(IKey(5, 3, Deletion), [])
  const A := Entry(IKey(1, 4, Value), [])

  const M := File(3, 1, P.k, E.k, [P, T, E])
  const G := File(4, 1, P.k, T.k, [P, T])
  const H := File(5, 1, E.k, E.k, [E])
  const F := File(7, 1, A.k, A.k, [A])
  const O := File(8, 1, A.k, A.k, [A])

  const V0: Version := [[], [], [], [], [], [], []]
  const V1: Version := [[], [], [M], [], [], [], []]
  const V2: Version := [[], [], [], [G, H], [], [], []]
  const V3: Version := [[], [], [F], [G, H], [], [], []]
  const V4: Version := [[], [], [], [O, H], [], [], []]

  const C1 := Inputs(2, [M], [], P.k, E.k, [])
  const C2 := Inputs(2, [F], [G], A.k, A.k, [])

  const S0 := State([], None, V0, 0, [], 2, None, {})
  const S1 := State([P, E], None, V0, 2, [], 2, None, {P, E})
  const S2 := State([P, E], None, V0, 2, [2], 2, None, {P, E})
  const S3 := State([P, T, E], None, V0, 3, [2], 2, None, {P, E, T})
  const S4 := State([], Some([P, T, E]), V0, 3, [2], 3, None, {P, E, T})
  const S5 := State([], None, V1, 3, [2], 4, None, {P, E, T})
  const S6 := State([], None, V1, 3, [2], 4, Some(Job(C1, 2)), {P, E, T})
  const S7 := State([], None, V2, 3, [2], 6, None, {P, E, T})
  const S8 := State([], None, V2, 3, [], 6, None, {P, E, T})
  const S9 := State([A], None, V2, 4, [], 6, None, {P, E, T, A})
  const S10 := State([], Some([A]), V2, 4, [], 7, None, {P, E, T, A})
  const S11 := State([], None, V3, 4, [], 8, None, {P, E, T, A})
  const S12 := State([], None, V3, 4, [], 8, Some(Job(C2, 4)), {P, E, T, A})
  const S13 := State([], None, V4, 4, [], 9, None, {P, E, T, A})

  const STATES := [S0, S1, S2, S3, S4, S5, S6, S7, S8, S9, S10, S11, S12, S13]

  const LABELS := [WriteStep([Put(1, []), Put(5, [7])]), SnapshotStep, WriteStep([Delete(5)]), SwitchStep, FlushStep(2, M),
                   BeginStep(C1), FinishStep([P, T, E], [G, H]), ReleaseStep(0), WriteStep([Put(1, [])]), SwitchStep,
                   FlushStep(2, F), BeginStep(C2), FinishStep([A, P, T], [O])]

  /** Every state of the run but the last answers reads faithfully; the last one does not,
      and the deleted key has its old value again. */
  lemma SplitKeyResurrects()
    ensures IsRun(STATES, LABELS)
    ensures forall i :: 0 <= i < 13 ==> Faithful(STATES[i])
    ensures !Faithful(STATES[13])
    ensures Read(AllStored(STATES[12]), 5, 4) == Absent && Read(AllStored(STATES[13]), 5, 4) == Present([7])
  {
    Steps();
    forall i | 0 <= i < 13
      ensures Faithful(STATES[i])
    {
      forall j | 0 <= j < i
        ensures Guarded(STATES[j], LABELS[j])
      {
        FirstIsGuarded(j);
      }
      RunIsFaithful(STATES, LABELS, i);
    }
    Reads();
  }

  /** The first compaction leaves nothing out. */
  lemma FirstIsGuarded(j: nat)
    requires j < 12
    ensures Guarded(STATES[j], LABELS[j])
  {
    assert LABELS[j].FinishStep? ==> j == 6;
    assert STATES[6] == S6;
  }

  lemma Reads()
    ensures Read(AllStored(S12), 5, 4) == Absent && Read(AllStored(S13), 5, 4) == Present([7])
    ensures !Faithful(S13)
  {
    StoredV3();
    StoredV4();
    assert AllStored(S12) == S12.history == {P, E, T, A};
    assert AllStored(S13) == {A, E};
    assert IsNewest({P, E, T, A}, 5, 4, T);
    ReadIs({P, E, T, A}, 5, 4, T);
    assert IsNewest({A, E}, 5, 4, E);
    ReadIs({A, E}, 5, 4, E);
  }

  lemma StoredV3()
    ensures Stored(V3) == {P, E, T, A}
  {
    assert F in V3[2] && G in V3[3] && H in V3[3];
    assert A in F.entries && P in G.entries && T in G.entries && E in H.entries;
    forall x | x in Stored(V3)
      ensures x in {P, E, T, A}
    {
      var l, y :| 0 <= l < |V3| && y in V3[l] && x in y.entries;
      assert l == 2 || l == 3;
    }
  }

  lemma StoredV4()
    ensures Stored(V4) == {A, E}
  {
    assert O in V4[3] && H in V4[3];
    assert A in O.entries && E in H.entries;
    forall x | x in Stored(V4)
      ensures x in {A, E}
    {
      var l, y :| 0 <= l < |V4| && y in V4[l] && x in y.entries;
      assert l == 3;
    }
  }

  // ---------------------------------------------------------------- the steps

  lemma Steps()
    ensures IsRun(STATES, LABELS)
  {
    forall i | 0 <= i < 13
      ensures Next(STATES[i], LABELS[i], STATES[i + 1])
    {
      if i < 6 {
        FirstSteps(i);
      } else {
        LastSteps(i);
      }
    }
  }

  lemma FirstSteps(i: nat)
    requires i < 6
    ensures Next(STATES[i], LABELS[i], STATES[i + 1])
  {
    if i == 0 {
      FirstWrite();
    } else if i == 2 {
      OtherWrites();
    } else if i == 4 {
      Flushes();
    } else if i == 5 {
      FirstBegins();
    }
  }

  lemma LastSteps(i: nat)
    requires 6 <= i < 13
    ensures Next(STATES[i], LABELS[i], STATES[i + 1])
  {
    if i == 6 {
      FirstFinishes();
    } else if i == 8 {
      OtherWrites();
    } else if i == 10 {
      Flushes();
    } else if i == 11 {
      SecondBegins();
    } else if i == 12 {
      SecondFinishes();
    }
  }

  lemma FirstWrite()
    ensures Write(S0, S1, [Put(1, []), Put(5, [7])])
  {
    var ops := [Put(1, []), Put(5, [7])];
    BatchGrows(ops, 1);
    assert ops[..1] == [Put(1, [])];
    BatchOfOne(Put(1, []), 1);
    assert Batch(ops, 1) == {P, E};
    assert SetOf([P, E]) == {P, E};
  }

  lemma OtherWrites()
    ensures Write(S2, S3, [Delete(5)]) && Write(S8, S9, [Put(1, [])])
  {
    BatchOfOne(Delete(5), 3);
    BatchOfOne(Put(1, []), 4);
    assert SetOf([P, E]) == {P, E} && SetOf([P, T, E]) == {P, T, E} && SetOf([A]) == {A};
  }

  lemma BatchOfOne(op: Op, s: nat)
    requires s < MAX_SEQUENCE
    ensures Batch([op], s) == {EntryOf(op, s)}
  {
    BatchGrows([op], s);
    assert [op][..0] == [];
    assert Batch([], s) == {};
  }

  lemma Flushes()
    ensures Flush(S4, S5, 2, M) && Flush(S10, S11, 2, F)
  {
    assert SetOf(V1[2]) == SetOf(V0[2]) + {M} && SetOf(V3[2]) == SetOf(V2[2]) + {F};
    NoOverlap(V0);
    NoOverlap(V2);
  }

  lemma NoOverlap(v: Version)
    requires v == V0 || v == V2
    ensures forall l, lo, hi :: 0 <= l <= 2 ==> !OverlapsLevel(v, l, lo, hi)
  {
    assert v[0] == [] && v[1] == [] && v[2] == [];
  }

  lemma FirstBegins()
    ensures BeginCompaction(S5, S6, C1)
  {
    assert M in [M];
    assert Overlapping([], Some(1), Some(5)) == [];
  }

  lemma SecondBegins()
    ensures BeginCompaction(S11, S12, C2)
  {
    assert F in [F];
    OnlyFirstOverlaps();
  }

  lemma OnlyFirstOverlaps()
    ensures Overlapping([G, H], Some(1), Some(1)) == [G]
  {
    assert [G, H][..1] == [G] && [G][..0] == [];
    assert Overlapping([], Some(1), Some(1)) == [];
    assert Overlapping([G], Some(1), Some(1)) == [G];
  }

  /** The snapshot needs the old value of key 5, and the deletion is newer than it. */
  lemma FirstFinishes()
    ensures FinishCompaction(S6, S7, [P, T, E], [G, H])
  {
    var input := [P, T, E];
    assert Kept(V1, 2, input, 0, 2) == [];
    assert Kept(V1, 2, input, 1, 2) == [P];
    assert Kept(V1, 2, input, 2, 2) == [P, T];
    assert Kept(V1, 2, input, 3, 2) == [P, T, E];
    assert [G, H][..1] == [G] && [G][..0] == [];
    assert Concat([G]) == [P, T];
    assert Concat([G, H]) == [P, T, E];
    assert SetOf(input) == InputSet(C1) by {
      OneFile(M);
    }
    assert SetOf([M]) == {M} && SetOf<File>([]) == {} && SetOf([G, H]) == {G, H};
    assert InOrder(V2[3]);
  }

  lemma OneFile(f: File)
    ensures Contents([f]) == SetOf(f.entries) && Contents([]) == {}
  {
    assert f in [f];
  }

  lemma OneIsKept(input: seq<Entry>)
    requires input == [A, P, T]
    ensures Kept(V3, 2, input, 3, 4) == [A]
  {
    assert Hidden(input, 1, 4) by {
      assert input[0].k.user == input[1].k.user;
    }
    assert IsBaseLevel(V3, 2, 5);
    assert Kept(V3, 2, input, 0, 4) == [];
    assert Kept(V3, 2, input, 1, 4) == [A];
    assert Kept(V3, 2, input, 2, 4) == [A];
  }

  /** The old value of key 1 is hidden, and the deletion of key 5 counts as obsolete. */
  lemma SecondFinishes()
    ensures FinishCompaction(S12, S13, [A, P, T], [O])
  {
    var input := [A, P, T];
    OneIsKept(input);
    assert [O][..0] == [] && Concat([O]) == [A];
    assert SetOf(input) == InputSet(C2) by {
      OneFile(F);
      OneFile(G);
    }
    assert SetOf([F]) == {F} && SetOf([G]) == {G} && SetOf([O]) == {O};
    assert SetOf(V3[3]) == {G, H} && SetOf(V4[3]) == {O, H};
    assert InOrder(V4[3]);
  }
}
