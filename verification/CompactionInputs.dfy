/** Choosing the level of a flushed memtable and the input files of a compaction
    (db/version_set.cc). */
module CompactionInputs {
  import opened Entries
  import opened Versions

  /** The highest level a flushed memtable may be pushed to. */
  const MAX_MEM_COMPACT_LEVEL := 2

  // --------------------------------------------------------------- sizes

  function TotalFileSize(files: seq<File>): nat {
    if files == [] then 0 else TotalFileSize(files[..|files| - 1]) + files[|files| - 1].size
  }

  /** `maxFileSize` is the configured target size of a table file. */
  function MaxGrandParentOverlapBytes(maxFileSize: nat): nat {
    10 * maxFileSize
  }

  function ExpandedCompactionByteSizeLimit(maxFileSize: nat): nat {
    25 * maxFileSize
  }

  // ------------------------------------------------- overlapping inputs

  function Overlapping(files: seq<File>, lo: Option<UserKey>, hi: Option<UserKey>): (r: seq<File>)
    ensures forall f :: f in r <==> f in files && Overlaps(f, lo, hi)
    ensures |r| <= |files|
  {
    if files == [] then []
    else
      var last := files[|files| - 1];
      var init := Overlapping(files[..|files| - 1], lo, hi);
      assert files == files[..|files| - 1] + [last];
      if Overlaps(last, lo, hi) then init + [last] else init
  }

  /** No file that overlaps the range sticks out of it. */
  ghost predicate ClosedRange(files: seq<File>, lo: Option<UserKey>, hi: Option<UserKey>) {
    forall f :: f in files && Overlaps(f, lo, hi) ==>
      (lo.Some? ==> lo.value <= f.smallest.user) && (hi.Some? ==> f.largest.user <= hi.value)
  }

  predicate Covers(lo: Option<UserKey>, hi: Option<UserKey>, lo': Option<UserKey>, hi': Option<UserKey>) {
    (if lo'.None? then lo.None? else lo.Some? && lo.value <= lo'.value)
    && (if hi'.None? then hi.None? else hi.Some? && hi.value >= hi'.value)
  }

  /** The range a level-0 search ends with: the least closed one around the request. */
  ghost predicate LeastClosed(files: seq<File>, begin: Option<UserKey>, end: Option<UserKey>,
                              lo: Option<UserKey>, hi: Option<UserKey>) {
    Covers(lo, hi, begin, end) && ClosedRange(files, lo, hi)
    && forall a, b :: Covers(a, b, begin, end) && ClosedRange(files, a, b) ==> Covers(a, b, lo, hi)
  }

  ghost predicate OverlappingInputs(level: nat, files: seq<File>, begin: Option<UserKey>, end: Option<UserKey>,
                                    inputs: seq<File>) {
    if level > 0 then inputs == Overlapping(files, begin, end)
    else exists lo, hi :: LeastClosed(files, begin, end, lo, hi) && inputs == Overlapping(files, lo, hi)
  }

  ghost function StartsBefore(files: seq<File>, lo: Option<UserKey>): set<int> {
    set i | 0 <= i < |files| && lo.Some? && files[i].smallest.user < lo.value
  }

  ghost function EndsAfter(files: seq<File>, hi: Option<UserKey>): set<int> {
    set i | 0 <= i < |files| && hi.Some? && files[i].largest.user > hi.value
  }

  ghost predicate BelowEveryClosed(files: seq<File>, begin: Option<UserKey>, end: Option<UserKey>,
                                   lo: Option<UserKey>, hi: Option<UserKey>) {
    forall a, b :: Covers(a, b, begin, end) && ClosedRange(files, a, b) ==> Covers(a, b, lo, hi)
  }

  lemma OverlappingPrefix(files: seq<File>, i: nat, lo: Option<UserKey>, hi: Option<UserKey>)
    requires i < |files|
    ensures Overlapping(files[..i + 1], lo, hi)
            == Overlapping(files[..i], lo, hi) + if Overlaps(files[i], lo, hi) then [files[i]] else []
    ensures forall f :: f in files[..i + 1] <==> f in files[..i] || f == files[i]
  {
    assert files[..i + 1][..i] == files[..i];
    assert files[..i + 1] == files[..i] + [files[i]];
  }

  /** All files of a level that overlap a user-key range. In level 0 a file that
      sticks out of the range widens it and the search starts over. */
  method GetOverlappingInputs(level: nat, files: seq<File>, begin: Option<UserKey>, end: Option<UserKey>)
    returns (inputs: seq<File>)
    ensures OverlappingInputs(level, files, begin, end, inputs)
  {
    inputs := [];
    var lo, hi := begin, end;
    var i: nat := 0;
    while i < |files|
      invariant Searched(level, files, begin, end, i, lo, hi, inputs)
      decreases StartsBefore(files, lo), EndsAfter(files, hi), |files| - i
    {
      i, lo, hi, inputs := SearchFile(level, files, begin, end, i, lo, hi, inputs);
    }
    assert files[..i] == files;
    if level == 0 {
      assert LeastClosed(files, begin, end, lo, hi);
    }
  }

  /** What has been found after looking at the first `i` files for a range. */
  ghost predicate Searched(level: nat, files: seq<File>, begin: Option<UserKey>, end: Option<UserKey>, i: nat,
                           lo: Option<UserKey>, hi: Option<UserKey>, inputs: seq<File>) {
    i <= |files| && inputs == Overlapping(files[..i], lo, hi)
    && if level > 0 then lo == begin && hi == end
       else ClosedRange(files[..i], lo, hi) && Covers(lo, hi, begin, end) && BelowEveryClosed(files, begin, end, lo, hi)
  }

  /** One round of the search: the next file is taken, passed over, or widens the range. */
  method SearchFile(level: nat, files: seq<File>, begin: Option<UserKey>, end: Option<UserKey>, i: nat,
                    lo: Option<UserKey>, hi: Option<UserKey>, inputs: seq<File>)
    returns (i': nat, lo': Option<UserKey>, hi': Option<UserKey>, inputs': seq<File>)
    requires Searched(level, files, begin, end, i, lo, hi, inputs) && i < |files|
    ensures Searched(level, files, begin, end, i', lo', hi', inputs')
    ensures if lo' == lo && hi' == hi then i' == i + 1
            else StartsBefore(files, lo') < StartsBefore(files, lo)
                 || (lo' == lo && EndsAfter(files, hi') < EndsAfter(files, hi))
  {
    var f := files[i];
    i', lo', hi', inputs' := i + 1, lo, hi, inputs;
    if lo.Some? && f.largest.user < lo.value {
      SearchedOn(level, files, begin, end, i, lo, hi, inputs);
    } else if hi.Some? && f.smallest.user > hi.value {
      SearchedOn(level, files, begin, end, i, lo, hi, inputs);
    } else {
      inputs' := inputs + [f];
      if level == 0 && lo.Some? && f.smallest.user < lo.value {
        Widened(files, begin, end, i, lo, hi, Some(f.smallest.user), hi);
        lo' := Some(f.smallest.user);
        inputs' := [];
        i' := 0;
      } else if level == 0 && hi.Some? && f.largest.user > hi.value {
        Widened(files, begin, end, i, lo, hi, lo, Some(f.largest.user));
        hi' := Some(f.largest.user);
        inputs' := [];
        i' := 0;
      } else {
        SearchedOn(level, files, begin, end, i, lo, hi, inputs);
      }
    }
  }

  /** A file that does not widen the range is taken if it overlaps the range. */
  lemma SearchedOn(level: nat, files: seq<File>, begin: Option<UserKey>, end: Option<UserKey>, i: nat,
                   lo: Option<UserKey>, hi: Option<UserKey>, inputs: seq<File>)
    requires Searched(level, files, begin, end, i, lo, hi, inputs) && i < |files|
    requires level == 0 && Overlaps(files[i], lo, hi) ==>
               (lo.Some? ==> lo.value <= files[i].smallest.user) && (hi.Some? ==> files[i].largest.user <= hi.value)
    ensures Searched(level, files, begin, end, i + 1, lo, hi, if Overlaps(files[i], lo, hi) then inputs + [files[i]] else inputs)
  {
    OverlappingPrefix(files, i, lo, hi);
  }

  /** Widening the range over a file that overlaps it stays below every closed range,
      and leaves fewer files that stick out. */
  lemma Widened(files: seq<File>, begin: Option<UserKey>, end: Option<UserKey>, i: nat,
                lo0: Option<UserKey>, hi0: Option<UserKey>, lo: Option<UserKey>, hi: Option<UserKey>)
    requires i < |files| && Overlaps(files[i], lo0, hi0)
    requires Covers(lo0, hi0, begin, end) && BelowEveryClosed(files, begin, end, lo0, hi0)
    requires || (hi == hi0 && lo0.Some? && lo == Some(files[i].smallest.user) && lo.value < lo0.value)
             || (lo == lo0 && hi0.Some? && hi == Some(files[i].largest.user) && hi.value > hi0.value)
    ensures Covers(lo, hi, begin, end) && BelowEveryClosed(files, begin, end, lo, hi)
    ensures hi == hi0 ==> StartsBefore(files, lo) < StartsBefore(files, lo0)
    ensures lo == lo0 ==> EndsAfter(files, hi) < EndsAfter(files, hi0)
  {
    var f := files[i];
    forall a, b | Covers(a, b, begin, end) && ClosedRange(files, a, b)
      ensures Covers(a, b, lo, hi)
    {
      assert Covers(a, b, lo0, hi0);
      assert Overlaps(f, a, b);
    }
    if hi == hi0 {
      assert i in StartsBefore(files, lo0) && i !in StartsBefore(files, lo);
    } else {
      assert i in EndsAfter(files, hi0) && i !in EndsAfter(files, hi);
    }
  }

  // ------------------------------------------------------- level of a flush

  ghost predicate OverlapsLevel(v: Version, l: nat, lo: UserKey, hi: UserKey) {
    l < |v| && exists f :: f in v[l] && Overlaps(f, Some(lo), Some(hi))
  }

  /** A flushed memtable is pushed below level 0 only past levels it does not overlap. */
  method PickLevelForMemTableOutput(v: Version, lo: UserKey, hi: UserKey, maxFileSize: nat) returns (level: nat)
    requires LevelsOk(v) && lo <= hi
    ensures level <= MAX_MEM_COMPACT_LEVEL
    ensures level > 0 ==> forall l :: 0 <= l <= level ==> !OverlapsLevel(v, l, lo, hi)
    ensures level < MAX_MEM_COMPACT_LEVEL ==>
              (level == 0 && OverlapsLevel(v, 0, lo, hi))
              || OverlapsLevel(v, level + 1, lo, hi)
              || TotalFileSize(Overlapping(v[level + 2], Some(lo), Some(hi))) > MaxGrandParentOverlapBytes(maxFileSize)
  {
    level := 0;
    var overlap := SomeFileOverlapsRange(false, v[0], Some(lo), Some(hi));
    if !overlap {
      while level < MAX_MEM_COMPACT_LEVEL
        invariant level <= MAX_MEM_COMPACT_LEVEL
        invariant forall l :: 0 <= l <= level ==> !OverlapsLevel(v, l, lo, hi)
      {
        overlap := SomeFileOverlapsRange(true, v[level + 1], Some(lo), Some(hi));
        if overlap {
          break;
        }
        if level + 2 < NUM_LEVELS {
          var overlaps := GetOverlappingInputs(level + 2, v[level + 2], Some(lo), Some(hi));
          if TotalFileSize(overlaps) > MaxGrandParentOverlapBytes(maxFileSize) {
            break;
          }
        }
        level := level + 1;
      }
    }
  }

  // ---------------------------------------------------------- key ranges

  ghost predicate IsSmallest(files: seq<File>, k: IKey) {
    (exists f :: f in files && f.smallest == k) && forall f :: f in files ==> !Less(f.smallest, k)
  }

  ghost predicate IsLargest(files: seq<File>, k: IKey) {
    (exists f :: f in files && f.largest == k) && forall f :: f in files ==> !Less(k, f.largest)
  }

  /** The least and greatest key over a list of files. */
  ghost predicate IsRange(files: seq<File>, smallest: IKey, largest: IKey) {
    IsSmallest(files, smallest) && IsLargest(files, largest)
  }

  lemma SmallestExtends(files: seq<File>, i: nat, k: IKey)
    requires i < |files| && IsSmallest(files[..i], k)
    ensures IsSmallest(files[..i + 1], if Less(files[i].smallest, k) then files[i].smallest else k)
  {
    assert files[..i + 1] == files[..i] + [files[i]];
    var f :| f in files[..i] && f.smallest == k;
    assert f in files[..i + 1] && files[i] in files[..i + 1];
  }

  lemma LargestExtends(files: seq<File>, i: nat, k: IKey)
    requires i < |files| && IsLargest(files[..i], k)
    ensures IsLargest(files[..i + 1], if Less(k, files[i].largest) then files[i].largest else k)
  {
    assert files[..i + 1] == files[..i] + [files[i]];
    var f :| f in files[..i] && f.largest == k;
    assert f in files[..i + 1] && files[i] in files[..i + 1];
  }

  method GetRange(inputs: seq<File>) returns (smallest: IKey, largest: IKey)
    requires inputs != []
    ensures IsRange(inputs, smallest, largest)
  {
    smallest, largest := inputs[0].smallest, inputs[0].largest;
    for i := 1 to |inputs|
      invariant IsRange(inputs[..i], smallest, largest)
    {
      SmallestExtends(inputs, i, smallest);
      LargestExtends(inputs, i, largest);
      var f := inputs[i];
      if Compare(f.smallest, smallest) < 0 {
        smallest := f.smallest;
      }
      if Compare(f.largest, largest) > 0 {
        largest := f.largest;
      }
    }
    assert inputs[..|inputs|] == inputs;
  }

  // ------------------------------------------------------ boundary files

  method FindLargestKey(files: seq<File>) returns (largest: Option<IKey>)
    ensures files == [] <==> largest.None?
    ensures largest.Some? ==> IsLargest(files, largest.value)
  {
    if files == [] {
      return None;
    }
    var k := files[0].largest;
    for i := 1 to |files|
      invariant IsLargest(files[..i], k)
    {
      LargestExtends(files, i, k);
      var f := files[i];
      if Compare(f.largest, k) > 0 {
        k := f.largest;
      }
    }
    assert files[..|files|] == files;
    largest := Some(k);
  }

  /** A file that continues the user key of `k` with older entries. */
  predicate IsBoundary(f: File, k: IKey) {
    Less(k, f.smallest) && f.smallest.user == k.user
  }

  ghost predicate IsNextBoundary(levelFiles: seq<File>, k: IKey, f: File) {
    f in levelFiles && IsBoundary(f, k)
    && forall g :: g in levelFiles && IsBoundary(g, k) ==> !Less(g.smallest, f.smallest)
  }

  method FindSmallestBoundaryFile(levelFiles: seq<File>, largest: IKey) returns (r: Option<File>)
    ensures r.None? ==> forall g :: g in levelFiles ==> !IsBoundary(g, largest)
    ensures r.Some? ==> IsNextBoundary(levelFiles, largest, r.value)
  {
    r := None;
    for i := 0 to |levelFiles|
      invariant r.None? ==> forall g :: g in levelFiles[..i] ==> !IsBoundary(g, largest)
      invariant r.Some? ==> IsNextBoundary(levelFiles[..i], largest, r.value)
    {
      var f := levelFiles[i];
      assert levelFiles[..i + 1] == levelFiles[..i] + [f];
      if Compare(f.smallest, largest) > 0 && f.smallest.user == largest.user {
        if r.None? || Compare(f.smallest, r.value.smallest) < 0 {
          r := Some(f);
        }
      }
    }
    assert levelFiles[..|levelFiles|] == levelFiles;
  }

  /** No file of the level continues the largest user key of `files`. */
  ghost predicate BoundaryClosed(levelFiles: seq<File>, files: seq<File>) {
    forall k, g :: IsLargest(files, k) && g in levelFiles ==> !IsBoundary(g, k)
  }

  /** Nothing of the level lies between two selected files. */
  ghost predicate Convex(levelFiles: seq<File>, files: seq<File>) {
    forall f, g, h :: f in files && h in files && g in levelFiles && BySmallest(f, g) && BySmallest(g, h) ==> g in files
  }

  predicate UserApart(f: File, g: File) {
    f.largest.user < g.smallest.user || g.largest.user < f.smallest.user
  }

  /** A selection that a compaction may start from: in level 0 whatever is left out
      overlaps nothing that is selected, below it the selection is a contiguous run. */
  ghost predicate Selected(level: nat, levelFiles: seq<File>, files: seq<File>) {
    files != [] && InOrder(files) && (forall f :: f in files ==> f in levelFiles)
    && if level == 0 then forall f, g :: f in files && g in levelFiles && g !in files ==> UserApart(f, g)
       else Convex(levelFiles, files)
  }

  ghost function StartsAfter(files: seq<File>, k: IKey): set<int> {
    set i | 0 <= i < |files| && Less(k, files[i].smallest)
  }

  lemma LargestIsUnique(files: seq<File>, a: IKey, b: IKey)
    requires IsLargest(files, a) && IsLargest(files, b)
    ensures a == b
  {
    CompareIsLexicographic(a, b);
  }

  method AddBoundaryInputs(level: nat, levelFiles: seq<File>, files: seq<File>) returns (r: seq<File>)
    requires if level == 0 then FilesOk(levelFiles) else LevelOk(levelFiles)
    requires Selected(level, levelFiles, files)
    ensures files <= r
    ensures Selected(level, levelFiles, r) && BoundaryClosed(levelFiles, r)
    ensures level == 0 ==> r == files
  {
    r := files;
    var found := FindLargestKey(files);
    var largest := found.value;
    var searching := true;
    while searching
      invariant files <= r && Selected(level, levelFiles, r) && IsLargest(r, largest)
      invariant level == 0 ==> r == files
      invariant !searching ==> forall g :: g in levelFiles ==> !IsBoundary(g, largest)
      decreases searching, StartsAfter(levelFiles, largest)
    {
      var b := FindSmallestBoundaryFile(levelFiles, largest);
      if b.Some? {
        BoundaryExtends(level, levelFiles, r, largest, b.value);
        ghost var old_largest := largest;
        r := r + [b.value];
        largest := b.value.largest;
        ghost var i :| 0 <= i < |levelFiles| && levelFiles[i] == b.value;
        assert i in StartsAfter(levelFiles, old_largest) && i !in StartsAfter(levelFiles, largest);
        assert StartsAfter(levelFiles, largest) < StartsAfter(levelFiles, old_largest);
      } else {
        searching := false;
      }
    }
    forall k, g | IsLargest(r, k) && g in levelFiles
      ensures !IsBoundary(g, k)
    {
      LargestIsUnique(r, k, largest);
    }
  }

  /** The next boundary file directly follows the selection; in level 0 there is none. */
  lemma BoundaryExtends(level: nat, levelFiles: seq<File>, files: seq<File>, k: IKey, b: File)
    requires if level == 0 then FilesOk(levelFiles) else LevelOk(levelFiles)
    requires Selected(level, levelFiles, files) && IsLargest(files, k)
    requires IsNextBoundary(levelFiles, k, b)
    ensures level > 0
    ensures Selected(level, levelFiles, files + [b])
    ensures IsLargest(files + [b], b.largest)
    ensures Less(k, b.largest) && !Less(b.largest, b.smallest)
  {
    var last :| last in files && last.largest == k;
    EntriesWithin(b, b.entries[0]);
    EntriesWithin(last, last.entries[0]);
    assert b !in files;
    ConvexExtends(levelFiles, files, k, b);
    forall i | 0 <= i < |files|
      ensures BySmallest(files[i], b)
    {
      assert files[i] in files;
      EntriesWithin(files[i], files[i].entries[0]);
    }
  }

  lemma ConvexExtends(levelFiles: seq<File>, files: seq<File>, k: IKey, b: File)
    requires LevelOk(levelFiles) && Convex(levelFiles, files)
    requires forall x :: x in files ==> x in levelFiles
    requires IsLargest(files, k) && IsNextBoundary(levelFiles, k, b)
    ensures Convex(levelFiles, files + [b])
  {
    forall f, g, h | f in files + [b] && h in files + [b] && g in levelFiles && BySmallest(f, g) && BySmallest(g, h)
      ensures g in files + [b]
    {
      if g != b {
        InSelectionOrBeyond(levelFiles, files, k, b, f, g, h);
      }
    }
  }

  lemma InSelectionOrBeyond(levelFiles: seq<File>, files: seq<File>, k: IKey, b: File, f: File, g: File, h: File)
    requires LevelOk(levelFiles) && Convex(levelFiles, files)
    requires forall x :: x in files ==> x in levelFiles
    requires IsLargest(files, k) && IsNextBoundary(levelFiles, k, b)
    requires f in files + [b] && h in files + [b] && g in levelFiles && g != b
    requires BySmallest(f, g) && BySmallest(g, h)
    ensures g in files
  {
    var last :| last in files && last.largest == k;
    EntriesWithin(b, b.entries[0]);
    EntriesWithin(g, g.entries[0]);
    EntriesWithin(last, last.entries[0]);
    EntriesWithin(h, h.entries[0]);
    EntriesWithin(f, f.entries[0]);
    assert h in files ==> !Less(k, h.largest);
    assert g == last || Apart(g, last);
    assert Apart(g, h);
    assert Apart(g, b);
    if g != last && Less(last.largest, g.smallest) {
      assert IsBoundary(g, k) <==> g.smallest.user == k.user;
    }
  }

  // ------------------------------------------------------ the other inputs

  /** The inputs of a compaction of `level` into `level + 1`; `smallest` and `largest`
      are the key range of `files0`. */
  datatype Inputs = Inputs(level: nat, files0: seq<File>, files1: seq<File>, smallest: IKey, largest: IKey,
                           grandparents: seq<File>)

  ghost predicate InputsOk(v: Version, c: Inputs) {
    |v| == NUM_LEVELS && c.level + 1 < NUM_LEVELS
    && Selected(c.level, v[c.level], c.files0)
    && BoundaryClosed(v[c.level], c.files0)
    && IsRange(c.files0, c.smallest, c.largest)
    && c.files1 == Overlapping(v[c.level + 1], Some(c.smallest.user), Some(c.largest.user))
  }

  lemma {:induction false} OverlappingKeepsOrder(files: seq<File>, lo: Option<UserKey>, hi: Option<UserKey>)
    requires InOrder(files)
    ensures InOrder(Overlapping(files, lo, hi))
  {
    if files != [] {
      var init := files[..|files| - 1];
      OverlappingKeepsOrder(init, lo, hi);
      var r := Overlapping(init, lo, hi);
      forall i | 0 <= i < |r|
        ensures BySmallest(r[i], files[|files| - 1])
      {
        assert r[i] in init;
      }
    }
  }

  lemma OverlappingIsSelected(level: nat, files: seq<File>, begin: Option<UserKey>, end: Option<UserKey>, r: seq<File>)
    requires if level == 0 then FilesOk(files) && InOrder(files) else LevelOk(files)
    requires OverlappingInputs(level, files, begin, end, r) && r != []
    ensures Selected(level, files, r)
    ensures forall f :: f in files && Overlaps(f, begin, end) ==> f in r
  {
    if level == 0 {
      var lo, hi :| LeastClosed(files, begin, end, lo, hi) && r == Overlapping(files, lo, hi);
      OverlappingKeepsOrder(files, lo, hi);
    } else {
      OverlappingKeepsOrder(files, begin, end);
      forall f, g, h | f in r && h in r && g in files && BySmallest(f, g) && BySmallest(g, h)
        ensures g in r
      {
        EntriesWithin(f, f.entries[0]);
        EntriesWithin(g, g.entries[0]);
        EntriesWithin(h, h.entries[0]);
        assert Apart(f, g) && Apart(g, h);
      }
    }
  }

  ghost predicate LevelsOk(v: Version) {
    |v| == NUM_LEVELS && FilesOk(v[0]) && InOrder(v[0]) && forall l :: 1 <= l < NUM_LEVELS ==> LevelOk(v[l])
  }

  /** The files of another level that overlap the range of a selection. */
  ghost predicate PulledIn(files: seq<File>, selection: seq<File>, r: seq<File>) {
    exists s, t: IKey :: IsRange(selection, s, t) && r == Overlapping(files, Some(s.user), Some(t.user))
  }

  /** The selection grown to everything that overlaps the range of all inputs, and to the
      files that continue it. */
  ghost predicate IsExpansion(levelFiles: seq<File>, level: nat, in0: seq<File>, in1: seq<File>, expanded0: seq<File>) {
    Selected(level, levelFiles, expanded0) && BoundaryClosed(levelFiles, expanded0) && (forall f :: f in in0 ==> f in expanded0)
    && exists s, t: IKey, o :: IsRange(in0 + in1, s, t) && OverlappingInputs(level, levelFiles, Some(s.user), Some(t.user), o)
                               && o <= expanded0
  }

  method ExpandInputs(v: Version, level: nat, in0: seq<File>, in1: seq<File>) returns (expanded0: seq<File>)
    requires LevelsOk(v) && level + 1 < NUM_LEVELS
    requires Selected(level, v[level], in0)
    requires forall f :: f in in1 ==> f in v[level + 1]
    ensures IsExpansion(v[level], level, in0, in1, expanded0)
  {
    var allStart, allLimit := GetRange(in0 + in1);
    var o := GetOverlappingInputs(level, v[level], Some(allStart.user), Some(allLimit.user));
    forall f | f in in0
      ensures f in o
    {
      assert f in in0 + in1;
      EntriesWithin(f, f.entries[0]);
      OverlappingContains(level, v[level], Some(allStart.user), Some(allLimit.user), o, f);
    }
    assert in0[0] in o;
    OverlappingIsSelected(level, v[level], Some(allStart.user), Some(allLimit.user), o);
    expanded0 := AddBoundaryInputs(level, v[level], o);
  }

  /** A wider range takes in no fewer files, and as many only if they are the same. */
  lemma {:induction false} WiderTakesMore(files: seq<File>, lo: UserKey, hi: UserKey, lo': UserKey, hi': UserKey)
    requires lo' <= lo && hi <= hi'
    ensures var r, r' := Overlapping(files, Some(lo), Some(hi)), Overlapping(files, Some(lo'), Some(hi'));
            |r| <= |r'| && (|r| == |r'| ==> r == r')
  {
    if files != [] {
      WiderTakesMore(files[..|files| - 1], lo, hi, lo', hi');
    }
  }

  /** Whether the grown selection is taken: it must be larger, not too big, and bring in no
      further file of the next level. */
  predicate TakesExpansion(in0: seq<File>, in1: seq<File>, expanded0: seq<File>, expanded1: seq<File>, maxFileSize: nat) {
    in1 != [] && |expanded0| > |in0|
    && TotalFileSize(in1) + TotalFileSize(expanded0) < ExpandedCompactionByteSizeLimit(maxFileSize)
    && |expanded1| == |in1|
  }

  /** A selection that nothing in its level continues; this comes into play where `CompleteIs`
      is mentioned. */
  ghost predicate Complete(level: nat, levelFiles: seq<File>, files: seq<File>) {
    forall use: nat :: CompleteIs(level, levelFiles, files, use)
  }

  ghost predicate CompleteIs(level: nat, levelFiles: seq<File>, files: seq<File>, use: nat) {
    Selected(level, levelFiles, files) && BoundaryClosed(levelFiles, files)
  }

  /** The selection that becomes of `in0`, and what was looked at on the way. */
  ghost predicate IsWidened(v: Version, level: nat, in0: seq<File>, in1: seq<File>, expanded0: seq<File>, expanded1: seq<File>,
                           maxFileSize: nat, sel0: seq<File>)
    requires |v| == NUM_LEVELS && level + 1 < NUM_LEVELS
  {
    (in1 != [] ==> IsExpansion(v[level], level, in0, in1, expanded0) && PulledIn(v[level + 1], expanded0, expanded1))
    && sel0 == if TakesExpansion(in0, in1, expanded0, expanded1, maxFileSize) then expanded0 else in0
  }

  /** The inputs that follow from a completed selection `in0` and its expansion. */
  ghost predicate SetUp(v: Version, level: nat, in0: seq<File>, in1: seq<File>, expanded0: seq<File>, expanded1: seq<File>,
                        maxFileSize: nat, c: Inputs)
    requires |v| == NUM_LEVELS && level + 1 < NUM_LEVELS
  {
    Complete(level, v[level], in0) && PulledIn(v[level + 1], in0, in1)
    && IsWidened(v, level, in0, in1, expanded0, expanded1, maxFileSize, c.files0)
    && c.level == level && c.files1 == in1
    && if level + 2 < NUM_LEVELS then PulledIn(v[level + 2], c.files0 + c.files1, c.grandparents) else c.grandparents == []
  }

  /** The range of a selection, and the files of another level that overlap it. */
  method PullIn(level: nat, files: seq<File>, selection: seq<File>) returns (smallest: IKey, largest: IKey, r: seq<File>)
    requires level > 0 && LevelOk(files) && selection != []
    ensures IsRange(selection, smallest, largest) && r == Overlapping(files, Some(smallest.user), Some(largest.user))
    ensures PulledIn(files, selection, r)
  {
    smallest, largest := GetRange(selection);
    r := GetOverlappingInputs(level, files, Some(smallest.user), Some(largest.user));
  }

  /** Grows the selection if that brings in no further file of the next level. */
  method Widen(v: Version, level: nat, in0: seq<File>, in1: seq<File>, maxFileSize: nat, smallest: IKey, largest: IKey)
    returns (sel0: seq<File>, smallest': IKey, largest': IKey, expanded0: seq<File>, expanded1: seq<File>)
    requires LevelsOk(v) && level + 1 < NUM_LEVELS && Complete(level, v[level], in0)
    requires IsRange(in0, smallest, largest) && in1 == Overlapping(v[level + 1], Some(smallest.user), Some(largest.user))
    ensures IsWidened(v, level, in0, in1, expanded0, expanded1, maxFileSize, sel0)
    ensures Complete(level, v[level], sel0) && sel0 != [] && forall f :: f in in0 ==> f in sel0
    ensures IsRange(sel0, smallest', largest') && in1 == Overlapping(v[level + 1], Some(smallest'.user), Some(largest'.user))
  {
    sel0, smallest', largest', expanded0, expanded1 := in0, smallest, largest, in0, in1;
    assert CompleteIs(level, v[level], in0, 0);
    if in1 != [] {
      expanded0 := ExpandInputs(v, level, in0, in1);
      var newStart, newLimit;
      newStart, newLimit, expanded1 := PullIn(level + 1, v[level + 1], expanded0);
      if TakesExpansion(in0, in1, expanded0, expanded1, maxFileSize) {
        WiderRange(in0, expanded0, smallest, largest, newStart, newLimit);
        WiderTakesMore(v[level + 1], smallest.user, largest.user, newStart.user, newLimit.user);
        sel0, smallest', largest' := expanded0, newStart, newLimit;
      }
    }
  }

  /** The files two levels down that overlap the range of all inputs, if there are such
      levels. */
  method Grandparents(v: Version, level: nat, inputs: seq<File>) returns (r: seq<File>)
    requires LevelsOk(v) && inputs != []
    ensures if level + 2 < NUM_LEVELS then PulledIn(v[level + 2], inputs, r) else r == []
  {
    r := [];
    if level + 2 < NUM_LEVELS {
      var s, t;
      s, t, r := PullIn(level + 2, v[level + 2], inputs);
    }
  }

  lemma InputsAre(v: Version, c: Inputs)
    requires LevelsOk(v) && c.level + 1 < NUM_LEVELS && Complete(c.level, v[c.level], c.files0)
    requires IsRange(c.files0, c.smallest, c.largest)
    requires c.files1 == Overlapping(v[c.level + 1], Some(c.smallest.user), Some(c.largest.user))
    ensures InputsOk(v, c)
  {
    assert CompleteIs(c.level, v[c.level], c.files0, 0);
  }

  /** The inputs for a completed selection. */
  method ChooseInputs(v: Version, level: nat, in0: seq<File>, maxFileSize: nat)
    returns (c: Inputs, in1: seq<File>, expanded0: seq<File>, expanded1: seq<File>)
    requires LevelsOk(v) && level + 1 < NUM_LEVELS
    requires Complete(level, v[level], in0) && in0 != []
    ensures InputsOk(v, c) && forall f :: f in in0 ==> f in c.files0
    ensures SetUp(v, level, in0, in1, expanded0, expanded1, maxFileSize, c)
  {
    var smallest, largest;
    smallest, largest, in1 := PullIn(level + 1, v[level + 1], in0);
    var sel0, smallest', largest';
    sel0, smallest', largest', expanded0, expanded1 := Widen(v, level, in0, in1, maxFileSize, smallest, largest);
    var grandparents := Grandparents(v, level, sel0 + in1);
    c := Inputs(level, sel0, in1, smallest', largest', grandparents);
    InputsAre(v, c);
  }

  /** Completes the selection `files0` with boundary files and with the files of the
      next level, and grows it when that brings in no further file of that level. */
  method SetupOtherInputs(v: Version, level: nat, files0: seq<File>, maxFileSize: nat) returns (c: Inputs)
    requires LevelsOk(v) && level + 1 < NUM_LEVELS
    requires Selected(level, v[level], files0)
    ensures InputsOk(v, c) && c.level == level
    ensures forall f :: f in files0 ==> f in c.files0
    ensures exists in0, in1, expanded0, expanded1 ::
              files0 <= in0 && SetUp(v, level, in0, in1, expanded0, expanded1, maxFileSize, c)
  {
    var in0 := AddBoundaryInputs(level, v[level], files0);
    var in1, expanded0, expanded1;
    c, in1, expanded0, expanded1 := ChooseInputs(v, level, in0, maxFileSize);
  }

  lemma WiderRange(a: seq<File>, b: seq<File>, s: IKey, t: IKey, s': IKey, t': IKey)
    requires IsRange(a, s, t) && IsRange(b, s', t') && forall f :: f in a ==> f in b
    ensures s'.user <= s.user && t.user <= t'.user
  {
  }

  lemma OverlappingContains(level: nat, files: seq<File>, begin: Option<UserKey>, end: Option<UserKey>, r: seq<File>, f: File)
    requires OverlappingInputs(level, files, begin, end, r)
    requires f in files && Overlaps(f, begin, end)
    ensures f in r
  {
  }

  // --------------------------------------- what makes the selection safe

  /** Of two files of a sorted level, the earlier one is newer for a shared user key. */
  lemma EarlierIsNewer(g: File, f: File)
    requires FileOk(g) && FileOk(f) && Less(g.largest, f.smallest)
    requires Unique(SetOf(g.entries) + SetOf(f.entries))
    ensures FileNewer(g, f)
  {
    forall x, y | x in SetOf(g.entries) && y in SetOf(f.entries) && x.k.user == y.k.user
      ensures x.k.sequence > y.k.sequence
    {
      EntriesWithin(g, x);
      EntriesWithin(f, y);
      assert x != y;
    }
  }

  lemma UserApartIsNewer(g: File, f: File)
    requires FileOk(g) && FileOk(f) && UserApart(f, g)
    ensures FileNewer(g, f)
  {
    forall x, y | x in SetOf(g.entries) && y in SetOf(f.entries)
      ensures x.k.user != y.k.user
    {
      EntriesWithin(g, x);
      EntriesWithin(f, y);
    }
  }

  lemma FileIsStored(v: Version, l: nat, f: File)
    requires l < |v| && f in v[l]
    ensures SetOf(f.entries) <= Stored(v)
  {
  }

  /** A file left out of the level holds only newer entries of any user key it shares
      with the selection, so moving the selection down keeps the search order right. */
  lemma OmittedIsNewer(v: Version, c: Inputs, f: File, g: File)
    requires VersionOk(v) && Unique(Stored(v)) && InputsOk(v, c)
    requires f in c.files0 && g in v[c.level] && g !in c.files0
    ensures FileNewer(g, f)
  {
    FileIsStored(v, c.level, f);
    FileIsStored(v, c.level, g);
    if c.level == 0 {
      UserApartIsNewer(g, f);
    } else {
      assert Apart(f, g);
      if Less(f.largest, g.smallest) {
        var last :| last in c.files0 && last.largest == c.largest;
        OmittedAfterIsApart(v, c, f, g, last);
        UserApartIsNewer(g, f);
      } else {
        EarlierIsNewer(g, f);
      }
    }
  }

  /** A file left out behind a selected one shares no user key with it. */
  lemma OmittedAfterIsApart(v: Version, c: Inputs, f: File, g: File, last: File)
    requires VersionOk(v) && InputsOk(v, c) && c.level > 0
    requires f in c.files0 && g in v[c.level] && g !in c.files0
    requires last in c.files0 && last.largest == c.largest
    requires Less(f.largest, g.smallest)
    ensures UserApart(f, g)
  {
    EntriesWithin(f, f.entries[0]);
    EntriesWithin(g, g.entries[0]);
    EntriesWithin(last, last.entries[0]);
    assert Apart(g, last);
    assert BySmallest(f, g);
    assert !BySmallest(g, last);
    assert IsLargest(c.files0, c.largest);
    assert !IsBoundary(g, c.largest);
    assert !Less(c.largest, f.largest);
  }

  /** Files of the next level that are left out share no user key with the selection. */
  lemma OmittedBelowIsApart(v: Version, c: Inputs, f: File, h: File)
    requires VersionOk(v) && InputsOk(v, c)
    requires f in c.files0 && h in v[c.level + 1] && h !in c.files1
    ensures UserApart(f, h)
  {
    assert !Less(f.smallest, c.smallest) && !Less(c.largest, f.largest);
    assert !Overlaps(h, Some(c.smallest.user), Some(c.largest.user));
  }

  /** They lie wholly before or wholly after everything that is compacted. */
  lemma OmittedBelowIsOutside(v: Version, c: Inputs, h: File)
    requires VersionOk(v) && InputsOk(v, c)
    requires h in v[c.level + 1] && h !in c.files1
    ensures (forall f :: f in c.files0 || f in c.files1 ==> Less(h.largest, f.smallest))
            || (forall f :: f in c.files0 || f in c.files1 ==> Less(f.largest, h.smallest))
  {
    var files := v[c.level + 1];
    EntriesWithin(h, h.entries[0]);
    var f0 :| f0 in c.files0 && f0.smallest == c.smallest;
    EntriesWithin(f0, f0.entries[0]);
    assert !Overlaps(h, Some(c.smallest.user), Some(c.largest.user));
    forall f | f in c.files0 || f in c.files1
      ensures if h.largest.user < c.smallest.user then Less(h.largest, f.smallest) else Less(f.largest, h.smallest)
    {
      OutsideOf(v, c, h, f);
    }
  }

  lemma OutsideOf(v: Version, c: Inputs, h: File, f: File)
    requires VersionOk(v) && InputsOk(v, c)
    requires h in v[c.level + 1] && h !in c.files1 && (f in c.files0 || f in c.files1)
    requires !Overlaps(h, Some(c.smallest.user), Some(c.largest.user)) && h.smallest.user <= h.largest.user
    ensures if h.largest.user < c.smallest.user then Less(h.largest, f.smallest) else Less(f.largest, h.smallest)
  {
    if f in c.files0 {
      EntriesWithin(f, f.entries[0]);
      OmittedBelowIsApart(v, c, f, h);
    } else {
      assert f in v[c.level + 1];
      assert Overlaps(f, Some(c.smallest.user), Some(c.largest.user));
      EntriesWithin(f, f.entries[0]);
      assert Apart(f, h);
    }
  }
}
