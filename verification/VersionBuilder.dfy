/** Applying version edits to a version, one at a time or accumulated
    (class VersionSet::Builder of db/version_set.cc, db/version_edit.h). */
module VersionBuilder {
  import opened Entries
  import opened Versions

  /** The part of a version edit that changes the file lists. */
  datatype FileEdit = FileEdit(deleted: set<(nat, nat)>, added: seq<(nat, File)>)

  ghost predicate EditOk(edit: FileEdit) {
    (forall d :: d in edit.deleted ==> d.0 < NUM_LEVELS)
    && forall a :: a in edit.added ==> a.0 < NUM_LEVELS
  }

  /** Files with one key order position and one number are the same set element. */
  predicate SamePlace(f: File, g: File) {
    f.smallest == g.smallest && f.number == g.number
  }

  function AddedNumbers(edit: FileEdit, l: nat): set<nat> {
    set a | a in edit.added && a.0 == l :: a.1.number
  }

  function AddedFiles(edit: FileEdit, l: nat): set<File> {
    set a | a in edit.added && a.0 == l :: a.1
  }

  function DeletedNumbers(edit: FileEdit, l: nat): set<nat> {
    set d | d in edit.deleted && d.0 == l :: d.1
  }

  // --------------------------------------------------------- ordered lists

  lemma OrderFacts(f: File, g: File, h: File)
    ensures BySmallest(f, g) || BySmallest(g, f) || SamePlace(f, g)
    ensures !(BySmallest(f, g) && BySmallest(g, f)) && !(BySmallest(f, g) && SamePlace(f, g))
    ensures BySmallest(f, g) && BySmallest(g, h) ==> BySmallest(f, h)
  {
    CompareIsLexicographic(f.smallest, g.smallest);
    CompareIsLexicographic(g.smallest, h.smallest);
    CompareIsLexicographic(f.smallest, h.smallest);
  }

  lemma EmptyList(a: seq<File>)
    ensures SetOf(a) == {} <==> a == []
  {
    if a != [] {
      assert a[0] in SetOf(a);
    }
  }

  /** A level's list is determined by the set of its files. */
  lemma {:induction false} OrderedListIsUnique(a: seq<File>, b: seq<File>)
    requires InOrder(a) && InOrder(b) && SetOf(a) == SetOf(b)
    ensures a == b
  {
    if a == [] {
      EmptyList(b);
    } else {
      assert a[0] in SetOf(a);
      assert b != [];
      assert b[0] in SetOf(b);
      assert a[0] in b && b[0] in a;
      OrderFacts(a[0], b[0], a[0]);
      assert a[0] == b[0];
      forall f
        ensures f in a[1..] <==> f in b[1..]
      {
        TailMembers(a, f);
        TailMembers(b, f);
      }
      OrderedListIsUnique(a[1..], b[1..]);
      assert a == [a[0]] + a[1..] && b == [b[0]] + b[1..];
    }
  }

  lemma TailMembers(a: seq<File>, f: File)
    requires InOrder(a) && a != []
    ensures f in a[1..] <==> f in SetOf(a) && f != a[0]
  {
    OrderFacts(a[0], f, f);
    if f in a && f != a[0] {
      var i :| 0 <= i < |a| && a[i] == f;
      assert a[1..][i - 1] == f;
    }
  }

  /** Inserting into an ordered set; an element already there stays. */
  function InsertFile(files: seq<File>, x: File): (r: seq<File>)
    requires InOrder(files)
    ensures InOrder(r)
    ensures SetOf(r) == SetOf(files) + if exists f :: f in files && SamePlace(f, x) then {} else {x}
  {
    if files == [] then [x]
    else if SamePlace(files[0], x) then files
    else if BySmallest(x, files[0]) then
      OrderFacts(x, files[0], x);
      assert forall i :: 0 <= i < |files| ==> BySmallest(x, files[i]) by {
        forall i | 0 <= i < |files|
          ensures BySmallest(x, files[i])
        {
          OrderFacts(x, files[0], files[i]);
        }
      }
      assert forall f :: f in files ==> !SamePlace(f, x);
      assert SetOf([x] + files) == SetOf(files) + {x};
      [x] + files
    else
      var rest := InsertFile(files[1..], x);
      OrderFacts(files[0], x, x);
      assert forall f :: f in files <==> f == files[0] || f in files[1..];
      assert forall j :: 0 <= j < |rest| ==> rest[j] in SetOf(rest);
      assert SetOf([files[0]] + rest) == {files[0]} + SetOf(rest);
      assert SetOf(files) == {files[0]} + SetOf(files[1..]);
      [files[0]] + rest
  }

  // ------------------------------------------------------------- builder

  /** What one level holds after the edits so far. */
  ghost function Saved(base: set<File>, added: set<File>, deleted: set<nat>): set<File> {
    set f | f in base + added && f.number !in deleted
  }

  class Builder {
    const base: Version
    /** Numbers deleted from each level, and files added to it in key order. */
    const deleted: array<set<nat>>
    const added: array<seq<File>>

    ghost predicate Valid()
      reads deleted, added
    {
      deleted.Length == NUM_LEVELS && added.Length == NUM_LEVELS && |base| == NUM_LEVELS
      && (forall l :: 0 <= l < NUM_LEVELS ==> InOrder(base[l]))
      && forall l :: 0 <= l < NUM_LEVELS ==> InOrder(added[l])
    }

    ghost function SavedAt(l: nat): set<File>
      requires Valid() && l < NUM_LEVELS
      reads deleted, added
    {
      Saved(SetOf(base[l]), SetOf(added[l]), deleted[l])
    }

    constructor (base: Version)
      requires |base| == NUM_LEVELS && forall l :: 0 <= l < NUM_LEVELS ==> InOrder(base[l])
      ensures Valid() && this.base == base && fresh(deleted) && fresh(added)
      ensures forall l :: 0 <= l < NUM_LEVELS ==> deleted[l] == {} && added[l] == []
    {
      this.base := base;
      deleted := new set<nat>[NUM_LEVELS](_ => {});
      added := new seq<File>[NUM_LEVELS](_ => []);
    }

    /** The files of an edit have numbers that are new to the level they go to. */
    ghost predicate Fresh(edit: FileEdit)
      requires Valid()
      reads deleted, added
    {
      EditOk(edit)
      && (forall i, j :: 0 <= i < j < |edit.added| && edit.added[i].0 == edit.added[j].0 ==>
            edit.added[i].1.number != edit.added[j].1.number)
      && forall a, f :: a in edit.added && f in SetOf(base[a.0]) + SetOf(added[a.0]) ==> f.number != a.1.number
    }

    /** Records an edit: deletions first, then additions, which undo a deletion. */
    method Apply(edit: FileEdit)
      requires Valid() && Fresh(edit)
      modifies deleted, added
      ensures Valid()
      ensures forall l :: 0 <= l < NUM_LEVELS ==>
                deleted[l] == old(deleted[l]) + DeletedNumbers(edit, l) - AddedNumbers(edit, l)
                && SetOf(added[l]) == old(SetOf(added[l])) + AddedFiles(edit, l)
    {
      MarkDeleted(edit);
      ghost var marked, held := deleted[..], added[..];
      for i := 0 to |edit.added|
        invariant Valid()
        invariant forall l :: 0 <= l < NUM_LEVELS ==> deleted[l] == marked[l] - AddedNumbers(Prefix(edit, i), l)
        invariant forall l :: 0 <= l < NUM_LEVELS ==>
            SetOf(added[l]) == SetOf(held[l]) + AddedFiles(Prefix(edit, i), l)
      {
        ApplyNth(edit, i, marked, held);
      }
      assert Prefix(edit, |edit.added|) == edit;
    }

    method ApplyNth(edit: FileEdit, i: nat, ghost marked: seq<set<nat>>, ghost held: seq<seq<File>>)
      requires Valid() && EditOk(edit) && i < |edit.added| && |marked| == |held| == NUM_LEVELS
      requires forall j :: 0 <= j < i && edit.added[j].0 == edit.added[i].0 ==>
                 edit.added[j].1.number != edit.added[i].1.number
      requires forall a, f :: a in edit.added && f in SetOf(held[a.0]) ==> f.number != a.1.number
      requires forall l :: 0 <= l < NUM_LEVELS ==> deleted[l] == marked[l] - AddedNumbers(Prefix(edit, i), l)
      requires forall l :: 0 <= l < NUM_LEVELS ==>
                 SetOf(added[l]) == SetOf(held[l]) + AddedFiles(Prefix(edit, i), l)
      modifies deleted, added
      ensures Valid()
      ensures forall l :: 0 <= l < NUM_LEVELS ==> deleted[l] == marked[l] - AddedNumbers(Prefix(edit, i + 1), l)
      ensures forall l :: 0 <= l < NUM_LEVELS ==>
                SetOf(added[l]) == SetOf(held[l]) + AddedFiles(Prefix(edit, i + 1), l)
    {
      PrefixStep(edit, i);
      var level, f := edit.added[i].0, edit.added[i].1;
      assert edit.added[i] in edit.added;
      NotThereYet(edit, i, held[level], added[level]);
      AddFile(level, f);
    }

    method MarkDeleted(edit: FileEdit)
      requires Valid()
      modifies deleted
      ensures Valid()
      ensures forall l :: 0 <= l < NUM_LEVELS ==> deleted[l] == old(deleted[l]) + DeletedNumbers(edit, l)
    {
      for l := 0 to NUM_LEVELS
        invariant Valid()
        invariant forall m :: l <= m < NUM_LEVELS ==> deleted[m] == old(deleted[m])
        invariant forall m :: 0 <= m < l ==> deleted[m] == old(deleted[m]) + DeletedNumbers(edit, m)
      {
        deleted[l] := deleted[l] + DeletedNumbers(edit, l);
      }
    }

    method AddFile(level: nat, f: File)
      requires Valid() && level < NUM_LEVELS
      requires forall g :: g in added[level] ==> !SamePlace(g, f)
      modifies deleted, added
      ensures Valid()
      ensures deleted[..] == old(deleted[..])[level := old(deleted[level]) - {f.number}]
      ensures SetOf(added[level]) == old(SetOf(added[level])) + {f}
      ensures forall l :: 0 <= l < NUM_LEVELS && l != level ==> added[l] == old(added[l])
    {
      deleted[level] := deleted[level] - {f.number};
      added[level] := InsertFile(added[level], f);
    }

    static lemma NotThereYet(edit: FileEdit, i: nat, held: seq<File>, now: seq<File>)
      requires i < |edit.added|
      requires forall j :: 0 <= j < i && edit.added[j].0 == edit.added[i].0 ==>
                 edit.added[j].1.number != edit.added[i].1.number
      requires forall f :: f in SetOf(held) ==> f.number != edit.added[i].1.number
      requires SetOf(now) == SetOf(held) + AddedFiles(Prefix(edit, i), edit.added[i].0)
      ensures forall g :: g in now ==> !SamePlace(g, edit.added[i].1)
    {
      PrefixStep(edit, i);
      forall g | g in now
        ensures !SamePlace(g, edit.added[i].1)
      {
        assert g in SetOf(now);
      }
    }

    static ghost function Prefix(edit: FileEdit, i: nat): FileEdit
      requires i <= |edit.added|
    {
      FileEdit(edit.deleted, edit.added[..i])
    }

    static lemma PrefixStep(edit: FileEdit, i: nat)
      requires i < |edit.added|
      ensures forall l: nat :: AddedFiles(Prefix(edit, i + 1), l) ==
                AddedFiles(Prefix(edit, i), l) + if edit.added[i].0 == l then {edit.added[i].1} else {}
      ensures forall l: nat :: AddedNumbers(Prefix(edit, i + 1), l) ==
                AddedNumbers(Prefix(edit, i), l) + if edit.added[i].0 == l then {edit.added[i].1.number} else {}
      ensures forall l: nat, f :: f in AddedFiles(Prefix(edit, i), l) ==>
                exists j :: 0 <= j < i && edit.added[j] == (l, f)
    {
      var p, q := edit.added[..i], edit.added[..i + 1];
      assert q == p + [edit.added[i]];
      forall l: nat, f | f in AddedFiles(Prefix(edit, i), l)
        ensures exists j :: 0 <= j < i && edit.added[j] == (l, f)
      {
        var a :| a in p && a.0 == l && a.1 == f;
        var j :| 0 <= j < |p| && p[j] == a;
        assert edit.added[j] == (l, f);
      }
    }

    /** Merges the base files with the added ones, leaving out what was deleted. */
    method SaveTo() returns (v: Version)
      requires Valid()
      requires forall l, f, g :: 0 <= l < NUM_LEVELS && f in base[l] && g in added[l] ==> !SamePlace(f, g)
      ensures |v| == NUM_LEVELS
      ensures forall l :: 0 <= l < NUM_LEVELS ==> InOrder(v[l]) && SetOf(v[l]) == SavedAt(l)
    {
      v := [];
      for l := 0 to NUM_LEVELS
        invariant |v| == l
        invariant forall m :: 0 <= m < l ==> InOrder(v[m]) && SetOf(v[m]) == SavedAt(m)
      {
        var files := SaveLevel(base[l], added[l], deleted[l]);
        v := v + [files];
      }
    }

    /** Everything listed so far comes before the base and added files still to come. */
    static ghost predicate Ahead(files: seq<File>, rest: seq<File>) {
      forall f, g :: f in files && g in rest ==> BySmallest(f, g)
    }

    static function MaybeAddFile(files: seq<File>, f: File, deleted: set<nat>): seq<File> {
      if f.number in deleted then files else files + [f]
    }

    static method SaveLevel(base: seq<File>, added: seq<File>, deleted: set<nat>) returns (files: seq<File>)
      requires InOrder(base) && InOrder(added)
      requires forall f, g :: f in base && g in added ==> !SamePlace(f, g)
      ensures InOrder(files)
      ensures SetOf(files) == Saved(SetOf(base), SetOf(added), deleted)
    {
      files := [];
      var b := 0;
      for a := 0 to |added|
        invariant 0 <= b <= |base|
        invariant InOrder(files) && Ahead(files, base[b..]) && Ahead(files, added[a..])
        invariant SetOf(files) == Saved(SetOf(base[..b]), SetOf(added[..a]), deleted)
      {
        files, b := AddSmallerBase(base, added, deleted, files, b, a);
        files := AddNext(files, added, a, base[b..], deleted);
        assert SetOf(added[..a + 1]) == SetOf(added[..a]) + {added[a]};
      }
      while b < |base|
        invariant 0 <= b <= |base|
        invariant InOrder(files) && Ahead(files, base[b..])
        invariant SetOf(files) == Saved(SetOf(base[..b]), SetOf(added[..|added|]), deleted)
      {
        files := AddNext(files, base, b, [], deleted);
        assert SetOf(base[..b + 1]) == SetOf(base[..b]) + {base[b]};
        b := b + 1;
      }
      assert base[..b] == base && added[..|added|] == added;
    }

    /** The base files up to the upper bound of the next added file. */
    static method AddSmallerBase(base: seq<File>, added: seq<File>, deleted: set<nat>, files0: seq<File>, b0: nat, a: nat)
      returns (files: seq<File>, b: nat)
      requires InOrder(base) && InOrder(added) && b0 <= |base| && a < |added|
      requires forall f, g :: f in base && g in added ==> !SamePlace(f, g)
      requires InOrder(files0) && Ahead(files0, base[b0..]) && Ahead(files0, added[a..])
      requires SetOf(files0) == Saved(SetOf(base[..b0]), SetOf(added[..a]), deleted)
      ensures b0 <= b <= |base|
      ensures InOrder(files) && Ahead(files, base[b..]) && Ahead(files, added[a..])
      ensures SetOf(files) == Saved(SetOf(base[..b]), SetOf(added[..a]), deleted)
      ensures forall g :: g in base[b..] ==> BySmallest(added[a], g)
    {
      files, b := files0, b0;
      while b < |base| && !BySmallest(added[a], base[b])
        invariant b0 <= b <= |base|
        invariant InOrder(files) && Ahead(files, base[b..]) && Ahead(files, added[a..])
        invariant SetOf(files) == Saved(SetOf(base[..b]), SetOf(added[..a]), deleted)
      {
        assert base[b] in base && added[a] in added;
        OrderFacts(base[b], added[a], base[b]);
        assert BySmallest(base[b], added[a]);
        forall g | g in added[a..]
          ensures BySmallest(base[b], g)
        {
          OrderFacts(base[b], added[a], g);
        }
        files := AddNext(files, base, b, added[a..], deleted);
        assert SetOf(base[..b + 1]) == SetOf(base[..b]) + {base[b]};
        b := b + 1;
      }
      forall g | g in base[b..]
        ensures BySmallest(added[a], g)
      {
        if g != base[b] {
          OrderFacts(added[a], base[b], g);
        }
      }
    }

    static method AddNext(files0: seq<File>, source: seq<File>, i: nat, other: seq<File>, deleted: set<nat>)
      returns (files: seq<File>)
      requires InOrder(source) && i < |source|
      requires InOrder(files0) && Ahead(files0, source[i..]) && Ahead(files0, other)
      requires forall g :: g in other ==> BySmallest(source[i], g)
      ensures InOrder(files) && Ahead(files, source[i + 1..]) && Ahead(files, other)
      ensures SetOf(files) == SetOf(files0) + if source[i].number in deleted then {} else {source[i]}
    {
      files := MaybeAddFile(files0, source[i], deleted);
      assert source[i] in source[i..];
      assert forall g :: g in source[i + 1..] ==> g in source[i..];
    }
  }

  // ---------------------------------------- accumulated and separate edits

  /** One level after an edit, applied on its own. */
  ghost function AppliedAt(files: set<File>, edit: FileEdit, l: nat): set<File> {
    Saved(files, AddedFiles(edit, l), DeletedNumbers(edit, l) - AddedNumbers(edit, l))
  }

  ghost function AppliedAll(files: set<File>, edits: seq<FileEdit>, l: nat): set<File> {
    if edits == [] then files
    else AppliedAt(AppliedAll(files, edits[..|edits| - 1], l), edits[|edits| - 1], l)
  }

  /** What a builder accumulates for a level over several edits. */
  ghost function AccumulatedAdds(edits: seq<FileEdit>, l: nat): set<File> {
    if edits == [] then {}
    else AccumulatedAdds(edits[..|edits| - 1], l) + AddedFiles(edits[|edits| - 1], l)
  }

  ghost function AccumulatedDeletes(edits: seq<FileEdit>, l: nat): set<nat> {
    if edits == [] then {}
    else
      var last := edits[|edits| - 1];
      AccumulatedDeletes(edits[..|edits| - 1], l) + DeletedNumbers(last, l) - AddedNumbers(last, l)
  }

  ghost predicate DistinctNumbers(a: set<File>, b: set<File>) {
    forall f, g :: f in a && g in b ==> f.number != g.number
  }

  /** No edit adds to a level a file number that the level has held before. */
  ghost predicate NeverReadded(files: set<File>, edits: seq<FileEdit>, l: nat) {
    edits == [] ||
    (NeverReadded(files, edits[..|edits| - 1], l)
     && DistinctNumbers(files + AccumulatedAdds(edits[..|edits| - 1], l), AddedFiles(edits[|edits| - 1], l)))
  }

  /** One builder over all edits saves what separate applications would have saved. */
  lemma {:induction false} AccumulatedIsSequential(files: set<File>, edits: seq<FileEdit>, l: nat)
    requires NeverReadded(files, edits, l)
    ensures Saved(files, AccumulatedAdds(edits, l), AccumulatedDeletes(edits, l)) == AppliedAll(files, edits, l)
  {
    if edits != [] {
      var init, last := edits[..|edits| - 1], edits[|edits| - 1];
      AccumulatedIsSequential(files, init, l);
      var adds, dels := AccumulatedAdds(init, l), AccumulatedDeletes(init, l);
      var news, numbers := AddedFiles(last, l), AddedNumbers(last, l);
      forall f
        ensures f in Saved(files, AccumulatedAdds(edits, l), AccumulatedDeletes(edits, l)) <==>
                f in AppliedAll(files, edits, l)
      {
        NumberOfAdded(last, l, f);
        assert f in files + adds ==> f.number !in numbers;
      }
    }
  }

  lemma NumberOfAdded(edit: FileEdit, l: nat, f: File)
    ensures f in AddedFiles(edit, l) ==> f.number in AddedNumbers(edit, l)
    ensures f.number in AddedNumbers(edit, l) ==> exists g :: g in AddedFiles(edit, l) && g.number == f.number
  {
    if f.number in AddedNumbers(edit, l) {
      var a :| a in edit.added && a.0 == l && a.1.number == f.number;
      assert a.1 in AddedFiles(edit, l);
    }
  }
}
