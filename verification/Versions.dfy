/** Table files, versions, and point lookup through the levels
    (db/version_edit.h, db/version_set.cc). */
module Versions {
  import opened Entries

  /** A table file: its metadata and, since tables are immutable, its entries. */
  datatype File = File(number: nat, size: nat, smallest: IKey, largest: IKey, entries: seq<Entry>)

  /** The files of each level; a version never changes once it is installed. */
  type Version = seq<seq<File>>

  ghost predicate FileOk(f: File) {
    f.entries != [] && Sorted(f.entries)
    && f.smallest == f.entries[0].k && f.largest == f.entries[|f.entries| - 1].k
  }

  /** The order in which a level lists its files. */
  predicate BySmallest(f: File, g: File) {
    Less(f.smallest, g.smallest) || (f.smallest == g.smallest && f.number < g.number)
  }

  ghost predicate InOrder(files: seq<File>) {
    forall i, j :: 0 <= i < j < |files| ==> BySmallest(files[i], files[j])
  }

  predicate Apart(f: File, g: File) {
    Less(f.largest, g.smallest) || Less(g.largest, f.smallest)
  }

  ghost predicate AllApart(files: seq<File>) {
    forall f, g :: f in files && g in files && f != g ==> Apart(f, g)
  }

  ghost predicate FilesOk(files: seq<File>) {
    forall f :: f in files ==> FileOk(f)
  }

  /** A level below level 0: sorted, with disjoint key ranges. */
  ghost predicate LevelOk(files: seq<File>) {
    FilesOk(files) && InOrder(files) && AllApart(files)
  }

  /** For each user key they share, every entry of `f` is newer than those of `g`. */
  ghost predicate FileNewer(f: File, g: File) {
    Newer(SetOf(f.entries), SetOf(g.entries))
  }

  /** `f` at level `l` is searched before `g` at level `m`. */
  predicate Above(l: int, f: File, m: int, g: File) {
    l < m || (l == 0 && m == 0 && f.number > g.number)
  }

  ghost predicate In(v: Version, l: int, f: File) {
    0 <= l < |v| && f in v[l]
  }

  ghost predicate Layered(v: Version) {
    forall l, f, m, g :: In(v, l, f) && In(v, m, g) && Above(l, f, m, g) ==> FileNewer(f, g)
  }

  ghost predicate Numbered(v: Version) {
    forall l, f, m, g :: In(v, l, f) && In(v, m, g) && f.number == g.number ==> l == m && f == g
  }

  /** The level invariant. */
  ghost predicate VersionOk(v: Version) {
    |v| == NUM_LEVELS
    && FilesOk(v[0]) && InOrder(v[0])
    && (forall l :: 1 <= l < NUM_LEVELS ==> LevelOk(v[l]))
    && Layered(v) && Numbered(v)
  }

  ghost function Contents(files: seq<File>): set<Entry> {
    set f, e | f in files && e in f.entries :: e
  }

  /** Everything stored in the levels from `l` down. */
  ghost function Deeper(v: Version, l: nat): set<Entry> {
    set m, f, e | l <= m < |v| && f in v[m] && e in f.entries :: e
  }

  ghost function Stored(v: Version): set<Entry> {
    Deeper(v, 0)
  }

  // ------------------------------------------------------ order of files

  lemma EntriesWithin(f: File, e: Entry)
    requires FileOk(f) && e in f.entries
    ensures !Less(e.k, f.smallest) && !Less(f.largest, e.k)
    ensures f.smallest.user <= e.k.user <= f.largest.user
    ensures !Less(f.largest, f.smallest)
  {
    var i :| 0 <= i < |f.entries| && f.entries[i] == e;
    assert i == 0 || Before(f.entries[0].k, e.k);
    assert i == |f.entries| - 1 || Before(e.k, f.entries[|f.entries| - 1].k);
  }

  /** In a level below 0 an earlier file ends before a later one starts. */
  lemma EarlierEndsFirst(files: seq<File>, i: nat, j: nat)
    requires LevelOk(files) && i < j < |files|
    ensures Less(files[i].largest, files[j].smallest)
  {
    var f, g := files[i], files[j];
    assert BySmallest(f, g);
    assert f in files && g in files && f != g;
    assert FileOk(f) && FileOk(g) && Apart(f, g);
    assert f.entries[0] in f.entries && g.entries[0] in g.entries;
    EntriesWithin(f, f.entries[0]);
    EntriesWithin(g, g.entries[0]);
  }

  // ---------------------------------------------------------- FindFile

  /** Binary search for the first file whose largest key is at or after `key`. */
  method FindFile(files: seq<File>, key: IKey) returns (right: nat)
    requires LevelOk(files)
    ensures right <= |files|
    ensures forall i :: 0 <= i < right ==> Less(files[i].largest, key)
    ensures forall i :: right <= i < |files| ==> !Less(files[i].largest, key)
  {
    var left := 0;
    right := |files|;
    while left < right
      invariant 0 <= left <= right <= |files|
      invariant forall i :: 0 <= i < left ==> Less(files[i].largest, key)
      invariant forall i :: right <= i < |files| ==> !Less(files[i].largest, key)
    {
      var mid := (left + right) / 2;
      var f := files[mid];
      assert f in files;
      if Compare(f.largest, key) < 0 {
        forall i | 0 <= i < mid
          ensures Less(files[i].largest, key)
        {
          EarlierEndsFirst(files, i, mid);
          EntriesWithin(f, f.entries[0]);
        }
        left := mid + 1;
      } else {
        forall i | mid < i < |files|
          ensures !Less(files[i].largest, key)
        {
          EarlierEndsFirst(files, mid, i);
          assert files[i] in files;
          EntriesWithin(files[i], files[i].entries[0]);
        }
        right := mid;
      }
    }
  }

  // ---------------------------------------------------------- overlap tests

  /** `None` stands for an unbounded end of a user-key range. */
  predicate AfterFile(u: Option<UserKey>, f: File) {
    u.Some? && u.value > f.largest.user
  }

  predicate BeforeFile(u: Option<UserKey>, f: File) {
    u.Some? && u.value < f.smallest.user
  }

  predicate Overlaps(f: File, lo: Option<UserKey>, hi: Option<UserKey>) {
    !AfterFile(lo, f) && !BeforeFile(hi, f)
  }

  method SomeFileOverlapsRange(disjointSorted: bool, files: seq<File>, lo: Option<UserKey>, hi: Option<UserKey>)
    returns (r: bool)
    requires disjointSorted ==> LevelOk(files)
    requires lo.Some? && hi.Some? ==> lo.value <= hi.value
    ensures r <==> exists f :: f in files && Overlaps(f, lo, hi)
  {
    if !disjointSorted {
      for i := 0 to |files|
        invariant forall j :: 0 <= j < i ==> !Overlaps(files[j], lo, hi)
      {
        var f := files[i];
        if !(AfterFile(lo, f) || BeforeFile(hi, f)) {
          assert f in files && Overlaps(f, lo, hi);
          return true;
        }
      }
      return false;
    }
    var index := 0;
    if lo.Some? {
      index := FindFile(files, SeekKey(lo.value, MAX_SEQUENCE));
    }
    assert forall i :: 0 <= i < index ==> AfterFile(lo, files[i]);
    if index >= |files| {
      return false;
    }
    r := !BeforeFile(hi, files[index]);
    if r {
      assert Overlaps(files[index], lo, hi);
    } else {
      forall i | index <= i < |files|
        ensures BeforeFile(hi, files[i])
      {
        if index < i {
          EarlierEndsFirst(files, index, i);
          assert files[index] in files;
          EntriesWithin(files[index], files[index].entries[0]);
        }
      }
    }
  }

  // -------------------------------------------------------------- Get

  /** The files of level 0 that may hold `u`, in list order. */
  method FilesHolding(files: seq<File>, u: UserKey) returns (tmp: seq<File>)
    ensures forall f :: f in tmp <==> f in files && f.smallest.user <= u <= f.largest.user
  {
    tmp := [];
    for i := 0 to |files|
      invariant forall f :: f in tmp <==> f in files[..i] && f.smallest.user <= u <= f.largest.user
    {
      var f := files[i];
      if u >= f.smallest.user && u <= f.largest.user {
        tmp := tmp + [f];
      }
    }
  }

  ghost predicate NewestFirst(files: seq<File>) {
    forall i, j :: 0 <= i < j < |files| ==> files[i].number >= files[j].number
  }

  /** What the library sort promises: the same files, newest first. */
  method SortNewestFirst(files: seq<File>) returns (r: seq<File>)
    ensures forall f :: f in r <==> f in files
    ensures NewestFirst(r)
  {
    r := [];
    for i := 0 to |files|
      invariant forall f :: f in r <==> f in files[..i]
      invariant NewestFirst(r)
    {
      var before := r;
      r := InsertNewestFirst(before, files[i]);
      assert forall f :: f in files[..i + 1] <==> f in files[..i] || f == files[i];
    }
  }

  function InsertNewestFirst(files: seq<File>, x: File): (r: seq<File>)
    requires NewestFirst(files)
    ensures NewestFirst(r)
    ensures forall f :: f in r <==> f in files || f == x
  {
    if files == [] || files[0].number <= x.number then [x] + files
    else
      var rest := InsertNewestFirst(files[1..], x);
      assert forall f :: f in files <==> f == files[0] || f in files[1..];
      assert forall j :: 0 <= j < |rest| ==> rest[j] in rest;
      [files[0]] + rest
  }

  function ToAnswer(l: Lookup): Answer {
    match l
    case Found(v) => Present(v)
    case _ => Absent
  }

  /** A binary-searched level: one file is enough to find the newest visible entry
      of the whole level, or to show that there is none, even when the user key is
      split over adjacent files. */
  lemma OneFileDecides(files: seq<File>, index: nat, u: UserKey, s: SequenceNumber)
    requires LevelOk(files) && index <= |files|
    requires forall i :: 0 <= i < index ==> Less(files[i].largest, SeekKey(u, s))
    requires forall i :: index <= i < |files| ==> !Less(files[i].largest, SeekKey(u, s))
    ensures index == |files| || u < files[index].smallest.user ==> !SomeSeen(Contents(files), u, s)
    ensures index < |files| && LookupIn(files[index].entries, u, s).NotFound? ==> !SomeSeen(Contents(files), u, s)
    ensures index < |files| ==>
              forall e :: IsNewest(SetOf(files[index].entries), u, s, e) ==> IsNewest(Contents(files), u, s, e)
  {
    var t := SeekKey(u, s);
    forall e | e in Contents(files) && Sees(e, u, s)
      ensures index < |files| && files[index].smallest.user <= u
      ensures exists x :: x in files[index].entries && Sees(x, u, s) && e.k.sequence <= x.k.sequence
    {
      var i :| 0 <= i < |files| && e in files[i].entries;
      var f := files[i];
      EntriesWithin(f, e);
      assert !Less(e.k, t);
      assert index <= i;
      if index < i {
        // The key reaches back into the searched file: its last entry is visible.
        var g := files[index];
        EarlierEndsFirst(files, index, i);
        assert g in files;
        var x := g.entries[|g.entries| - 1];
        EntriesWithin(g, x);
        assert Sees(x, u, s);
      }
    }
    if index < |files| {
      assert files[index] in files;
      LookupFindsNewest(files[index].entries, u, s);
    }
  }

  /** Nothing visible for `u` above level `l`. */
  ghost predicate NothingAbove(v: Version, l: nat, u: UserKey, s: SequenceNumber) {
    forall m, f, e :: In(v, m, f) && m < l && e in f.entries ==> !Sees(e, u, s)
  }

  /** An entry that is newest in its file, with nothing visible in files searched
      earlier, is the newest of the whole version. */
  lemma FirstHitIsNewest(v: Version, l: nat, f: File, u: UserKey, s: SequenceNumber, e: Entry)
    requires VersionOk(v) && In(v, l, f)
    requires NothingAbove(v, l, u, s)
    requires IsNewest(SetOf(f.entries), u, s, e)
    requires l == 0 ==> forall g :: g in v[0] && g.number > f.number ==> !SomeSeen(SetOf(g.entries), u, s)
    requires l > 0 ==> IsNewest(Contents(v[l]), u, s, e)
    ensures IsNewest(Stored(v), u, s, e)
  {
    forall x | x in Stored(v) && Sees(x, u, s)
      ensures x.k.sequence <= e.k.sequence
    {
      var m, g :| 0 <= m < |v| && g in v[m] && x in g.entries;
      assert In(v, m, g);
      assert x in SetOf(g.entries);
      if m == l {
        if l == 0 {
          if g.number == f.number {
            assert g == f;
          } else if g.number < f.number {
            assert FileNewer(f, g);
          }
        } else {
          assert x in Contents(v[l]);
        }
      } else {
        assert m > l;
        assert FileNewer(f, g);
      }
    }
  }

  /** Level-0 files newest first, then one binary-searched file per level. */
  method Get(v: Version, u: UserKey, s: SequenceNumber) returns (answer: Answer)
    requires VersionOk(v) && Unique(Stored(v))
    ensures answer == Read(Stored(v), u, s)
  {
    for level := 0 to NUM_LEVELS
      invariant NothingAbove(v, level, u, s)
    {
      if level == 0 {
        var tmp := FilesHolding(v[0], u);
        var files := SortNewestFirst(tmp);
        for i := 0 to |files|
          invariant forall j :: 0 <= j < i ==> !SomeSeen(SetOf(files[j].entries), u, s)
        {
          var f := files[i];
          var found := LookupIn(f.entries, u, s);
          LookupFindsNewest(f.entries, u, s);
          if !found.NotFound? {
            var e := f.entries[SeekIndex(f.entries, SeekKey(u, s))];
            forall g | g in v[0] && g.number > f.number
              ensures !SomeSeen(SetOf(g.entries), u, s)
            {
              NotInOtherFiles(v[0], files, i, g, u, s);
            }
            assert In(v, 0, f);
            FirstHitIsNewest(v, 0, f, u, s, e);
            ReadIs(Stored(v), u, s, e);
            return ToAnswer(found);
          }
        }
        forall g | g in v[0]
          ensures !SomeSeen(SetOf(g.entries), u, s)
        {
          NotInOtherFiles(v[0], files, |files|, g, u, s);
        }
      } else {
        var index := FindFile(v[level], SeekKey(u, s));
        OneFileDecides(v[level], index, u, s);
        if index < |v[level]| && u >= v[level][index].smallest.user {
          var f := v[level][index];
          assert f in v[level];
          var found := LookupIn(f.entries, u, s);
          LookupFindsNewest(f.entries, u, s);
          if !found.NotFound? {
            var e := f.entries[SeekIndex(f.entries, SeekKey(u, s))];
            assert In(v, level, f);
            FirstHitIsNewest(v, level, f, u, s, e);
            ReadIs(Stored(v), u, s, e);
            return ToAnswer(found);
          }
        }
        NothingInLevel(v, level, u, s);
      }
      NothingAboveNext(v, level, u, s);
    }
    forall e | e in Stored(v)
      ensures !Sees(e, u, s)
    {
      var m, f :| 0 <= m < |v| && f in v[m] && e in f.entries;
      assert In(v, m, f);
    }
    answer := Absent;
  }

  /** A level-0 file with a larger number was searched already or cannot hold `u`. */
  lemma NotInOtherFiles(level0: seq<File>, files: seq<File>, i: nat, g: File, u: UserKey, s: SequenceNumber)
    requires FilesOk(level0) && i <= |files| && g in level0
    requires forall f :: f in files <==> f in level0 && f.smallest.user <= u <= f.largest.user
    requires NewestFirst(files)
    requires forall j :: 0 <= j < i ==> !SomeSeen(SetOf(files[j].entries), u, s)
    requires i < |files| ==> g.number > files[i].number
    ensures !SomeSeen(SetOf(g.entries), u, s)
  {
    forall e | e in g.entries
      ensures !Sees(e, u, s)
    {
      EntriesWithin(g, e);
      if g in files {
        var j :| 0 <= j < |files| && files[j] == g;
        assert j < i;
        assert e in SetOf(g.entries);
      }
    }
  }

  lemma NothingInLevel(v: Version, level: nat, u: UserKey, s: SequenceNumber)
    requires level < |v| && !SomeSeen(Contents(v[level]), u, s)
    ensures forall f :: f in v[level] ==> !SomeSeen(SetOf(f.entries), u, s)
  {
    forall f, e | f in v[level] && e in f.entries
      ensures !Sees(e, u, s)
    {
      assert e in Contents(v[level]);
    }
  }

  lemma NothingAboveNext(v: Version, level: nat, u: UserKey, s: SequenceNumber)
    requires level < |v| && NothingAbove(v, level, u, s)
    requires forall f :: f in v[level] ==> !SomeSeen(SetOf(f.entries), u, s)
    ensures NothingAbove(v, level + 1, u, s)
  {
    forall m, f, e | In(v, m, f) && m < level + 1 && e in f.entries
      ensures !Sees(e, u, s)
    {
      if m == level {
        assert e in SetOf(f.entries);
      }
    }
  }
}
