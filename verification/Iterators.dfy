/** Iterators over sorted lists of entries, and the iterator that merges several of them
    (include/leveldb/iterator.h, table/merger.cc). */
module Iterators {
  import opened Entries

  /** An iterator over a sorted list of entries; `pos == |list|` when it is not valid. */
  class ListIterator {
    const list: seq<Entry>
    var pos: nat

    constructor (list: seq<Entry>)
      ensures this.list == list && pos == |list|
    {
      this.list := list;
      pos := |list|;
    }

    predicate Valid()
      reads this
    {
      pos < |list|
    }

    method Seek(t: IKey)
      requires Sorted(list)
      modifies this
      ensures IsSeek(list, t, pos)
    {
      SeekSplits(list, t);
      pos := SeekIndex(list, t);
    }

    method SeekToFirst()
      modifies this
      ensures pos == 0
    {
      pos := 0;
    }

    method SeekToLast()
      modifies this
      ensures pos == if list == [] then 0 else |list| - 1
    {
      pos := if list == [] then 0 else |list| - 1;
    }

    method Next()
      requires Valid()
      modifies this
      ensures pos == old(pos) + 1
    {
      pos := pos + 1;
    }

    method Prev()
      requires Valid()
      modifies this
      ensures pos == if old(pos) == 0 then |list| else old(pos) - 1
    {
      pos := if pos == 0 then |list| else pos - 1;
    }
  }

  lemma SortedLess(list: seq<Entry>, i: nat, j: nat)
    requires Sorted(list) && i < |list| && j < |list|
    ensures Less(list[i].k, list[j].k) <==> i < j
  {
    assert i < j ==> Before(list[i].k, list[j].k);
    assert j < i ==> Before(list[j].k, list[i].k);
  }

  lemma KeyOrder(a: IKey, b: IKey, c: IKey)
    ensures Less(a, b) || Less(b, a) || a == b
    ensures !(Less(a, b) && Less(b, a)) && !Less(a, a)
    ensures Less(a, b) && Less(b, c) ==> Less(a, c)
  {
    CompareIsLexicographic(a, b);
    CompareIsLexicographic(b, c);
    CompareIsLexicographic(a, c);
  }

  /** A place between keys: before all of them, just before or after one, after all. */
  datatype Cut = Bottom | JustBefore(k: IKey) | JustAfter(k: IKey) | Top {
    predicate Covers(x: IKey) {
      match this
      case Bottom => false
      case JustBefore(k) => Less(x, k)
      case JustAfter(k) => !Less(k, x)
      case Top => true
    }
  }

  datatype Direction = Forward | Reverse

  // ------------------------------------------------------ MergingIterator

  class MergingIterator {
    const children: seq<ListIterator>
    /** The child that holds the current key. */
    var current: Option<nat>
    var direction: Direction

    constructor (children: seq<ListIterator>)
      ensures this.children == children && current.None?
    {
      this.children := children;
      current := None;
      direction := Forward;
    }

    /** The children are different objects over sorted lists with no key in common. */
    ghost predicate Wellformed() {
      (forall i :: 0 <= i < |children| ==> Sorted(children[i].list))
      && (forall i, j :: 0 <= i < j < |children| ==> children[i] != children[j])
      && forall i, j, a, b :: 0 <= i < j < |children| && 0 <= a < |children[i].list| && 0 <= b < |children[j].list| ==>
           children[i].list[a].k != children[j].list[b].k
    }

    ghost predicate Has(k: IKey) {
      exists i, a :: 0 <= i < |children| && 0 <= a < |children[i].list| && children[i].list[a].k == k
    }

    /** How many entries of a child lie before its position, read in a direction. */
    ghost function Passed(i: nat, d: Direction): (q: nat)
      requires i < |children|
      reads children[i]
    {
      if d.Forward? then children[i].pos else if children[i].Valid() then children[i].pos + 1 else 0
    }

    ghost predicate AtCut(i: nat, d: Direction, cut: Cut)
      requires i < |children|
      reads children[i]
    {
      Passed(i, d) <= |children[i].list|
      && forall a :: 0 <= a < |children[i].list| ==> (a < Passed(i, d) <==> cut.Covers(children[i].list[a].k))
    }

    /** The current child is at its key, and the others just beyond it. */
    ghost predicate Ok()
      reads this, children
    {
      Wellformed()
      && (current.Some? ==>
            current.value < |children| && children[current.value].Valid()
            && OthersBeyond(current.value, direction, PosKey(current.value)))
    }

    ghost predicate OthersBeyond(c: nat, d: Direction, k: IKey)
      reads children
    {
      forall i :: 0 <= i < |children| && i != c ==> AtCut(i, d, Edge(d, k))
    }

    static function Edge(d: Direction, k: IKey): Cut {
      if d.Forward? then JustAfter(k) else JustBefore(k)
    }

    predicate Valid() reads this {
      current.Some?
    }

    function Key(): IKey
      requires Ok() && Valid()
      reads this, children
    {
      children[current.value].list[children[current.value].pos].k
    }

    function Value(): Bytes
      requires Ok() && Valid()
      reads this, children
    {
      children[current.value].list[children[current.value].pos].value
    }

    /** The least key beyond the cut, if there is one. */
    ghost predicate IsFirstAfter(cut: Cut)
      requires Ok()
      reads this, children
    {
      if Valid() then !cut.Covers(Key()) && Has(Key()) && forall k :: Has(k) && !cut.Covers(k) ==> !Less(k, Key())
      else forall k :: Has(k) ==> cut.Covers(k)
    }

    /** The greatest key before the cut, if there is one. */
    ghost predicate IsLastBefore(cut: Cut)
      requires Ok()
      reads this, children
    {
      if Valid() then cut.Covers(Key()) && Has(Key()) && forall k :: Has(k) && cut.Covers(k) ==> !Less(Key(), k)
      else forall k :: Has(k) ==> !cut.Covers(k)
    }

    method FindSmallest(ghost cut: Cut)
      requires Wellformed() && forall i :: 0 <= i < |children| ==> AtCut(i, Forward, cut)
      modifies this
      ensures direction == Forward && Ok() && IsFirstAfter(cut)
    {
      var smallest: Option<nat> := None;
      for n := 0 to |children|
        invariant smallest.None? ==> forall i :: 0 <= i < n ==> !children[i].Valid()
        invariant smallest.Some? ==>
            smallest.value < n && children[smallest.value].Valid()
            && forall i :: 0 <= i < n && children[i].Valid() ==> !Less(PosKey(i), PosKey(smallest.value))
      {
        if children[n].Valid() {
          if smallest.None? {
            smallest := Some(n);
          } else {
            KeysOrder(n, smallest.value);
            if Compare(children[n].list[children[n].pos].k,
                       children[smallest.value].list[children[smallest.value].pos].k) < 0 {
              smallest := Some(n);
            }
          }
        }
      }
      current := smallest;
      direction := Forward;
      if smallest.Some? {
        SmallestIsOk(smallest.value, cut);
      } else {
        NothingAfter(cut);
      }
    }

    ghost function PosKey(i: nat): IKey
      requires i < |children| && children[i].Valid()
      reads children[i]
    {
      children[i].list[children[i].pos].k
    }

    lemma KeysOrder(n: nat, m: nat)
      requires n < |children| && m < |children| && children[n].Valid() && children[m].Valid()
      ensures forall i :: 0 <= i < |children| && children[i].Valid() ==>
                (Less(PosKey(n), PosKey(m)) && !Less(PosKey(i), PosKey(m)) ==> !Less(PosKey(i), PosKey(n)))
      ensures forall i :: 0 <= i < |children| && children[i].Valid() ==>
                (Less(PosKey(m), PosKey(n)) && !Less(PosKey(m), PosKey(i)) ==> !Less(PosKey(n), PosKey(i)))
    {
      forall i | 0 <= i < |children| && children[i].Valid()
        ensures Less(PosKey(n), PosKey(m)) && !Less(PosKey(i), PosKey(m)) ==> !Less(PosKey(i), PosKey(n))
        ensures Less(PosKey(m), PosKey(n)) && !Less(PosKey(m), PosKey(i)) ==> !Less(PosKey(n), PosKey(i))
      {
        KeyOrder(PosKey(i), PosKey(n), PosKey(m));
        KeyOrder(PosKey(m), PosKey(n), PosKey(i));
      }
    }

    lemma NothingAfter(cut: Cut)
      requires Wellformed() && forall i :: 0 <= i < |children| ==> AtCut(i, Forward, cut) && !children[i].Valid()
      ensures forall k :: Has(k) ==> cut.Covers(k)
    {
      forall k | Has(k)
        ensures cut.Covers(k)
      {
        var i, a :| 0 <= i < |children| && 0 <= a < |children[i].list| && children[i].list[a].k == k;
        assert AtCut(i, Forward, cut);
      }
    }

    /** Every entry at or after its child's position comes at or after the least one. */
    lemma SmallestIsOk(c: nat, cut: Cut)
      requires Wellformed() && forall i :: 0 <= i < |children| ==> AtCut(i, Forward, cut)
      requires c < |children| && children[c].Valid()
      requires forall i :: 0 <= i < |children| && children[i].Valid() ==> !Less(PosKey(i), PosKey(c))
      ensures !cut.Covers(PosKey(c)) && Has(PosKey(c))
      ensures forall k :: Has(k) && !cut.Covers(k) ==> !Less(k, PosKey(c))
      ensures forall i :: 0 <= i < |children| && i != c ==> AtCut(i, Forward, JustAfter(PosKey(c)))
    {
      assert AtCut(c, Forward, cut);
      forall i, a | 0 <= i < |children| && 0 <= a < |children[i].list|
        ensures a < children[i].pos ==> cut.Covers(children[i].list[a].k) && Less(children[i].list[a].k, PosKey(c))
        ensures a >= children[i].pos ==> !Less(children[i].list[a].k, PosKey(c))
      {
        assert AtCut(i, Forward, cut);
        var x := children[i].list[a].k;
        KeyOrder(x, PosKey(c), x);
        if a < children[i].pos {
          CoversIsDownward(cut, x, PosKey(c));
        } else {
          SortedLess(children[i].list, children[i].pos, a);
          KeyOrder(x, PosKey(c), PosKey(i));
          KeyOrder(PosKey(i), x, PosKey(c));
        }
      }
      forall i | 0 <= i < |children| && i != c
        ensures AtCut(i, Forward, JustAfter(PosKey(c)))
      {
        assert AtCut(i, Forward, cut);
        forall a | 0 <= a < |children[i].list|
          ensures a < children[i].pos <==> !Less(PosKey(c), children[i].list[a].k)
        {
          KeyOrder(children[i].list[a].k, PosKey(c), PosKey(c));
        }
      }
    }

    static lemma CoversIsDownward(cut: Cut, x: IKey, y: IKey)
      ensures cut.Covers(x) && !cut.Covers(y) ==> Less(x, y)
    {
      match cut
      case Bottom =>
      case Top =>
      case JustBefore(k) =>
        KeyOrder(x, k, y);
        KeyOrder(y, k, x);
      case JustAfter(k) =>
        KeyOrder(x, k, y);
        KeyOrder(k, y, x);
    }

    method FindLargest(ghost cut: Cut)
      requires Wellformed() && forall i :: 0 <= i < |children| ==> AtCut(i, Reverse, cut)
      modifies this
      ensures direction == Reverse && Ok() && IsLastBefore(cut)
    {
      var largest: Option<nat> := None;
      for n := |children| downto 0
        invariant largest.None? ==> forall i :: n <= i < |children| ==> !children[i].Valid()
        invariant largest.Some? ==>
            n <= largest.value < |children| && children[largest.value].Valid()
            && forall i :: n <= i < |children| && children[i].Valid() ==> !Less(PosKey(largest.value), PosKey(i))
      {
        if children[n].Valid() {
          if largest.None? {
            largest := Some(n);
          } else {
            KeysOrder(n, largest.value);
            if Compare(children[n].list[children[n].pos].k,
                       children[largest.value].list[children[largest.value].pos].k) > 0 {
              KeyOrder(PosKey(n), PosKey(largest.value), PosKey(n));
              largest := Some(n);
            }
          }
        }
      }
      current := largest;
      direction := Reverse;
      if largest.Some? {
        LargestIsOk(largest.value, cut);
      } else {
        NothingBefore(cut);
      }
    }

    lemma NothingBefore(cut: Cut)
      requires Wellformed() && forall i :: 0 <= i < |children| ==> AtCut(i, Reverse, cut) && !children[i].Valid()
      ensures forall k :: Has(k) ==> !cut.Covers(k)
    {
      forall k | Has(k)
        ensures !cut.Covers(k)
      {
        var i, a :| 0 <= i < |children| && 0 <= a < |children[i].list| && children[i].list[a].k == k;
        assert AtCut(i, Reverse, cut);
      }
    }

    lemma LargestIsOk(c: nat, cut: Cut)
      requires Wellformed() && forall i :: 0 <= i < |children| ==> AtCut(i, Reverse, cut)
      requires c < |children| && children[c].Valid()
      requires forall i :: 0 <= i < |children| && children[i].Valid() ==> !Less(PosKey(c), PosKey(i))
      ensures cut.Covers(PosKey(c)) && Has(PosKey(c))
      ensures forall k :: Has(k) && cut.Covers(k) ==> !Less(PosKey(c), k)
      ensures forall i :: 0 <= i < |children| && i != c ==> AtCut(i, Reverse, JustBefore(PosKey(c)))
    {
      assert AtCut(c, Reverse, cut);
      forall i, a | 0 <= i < |children| && 0 <= a < |children[i].list|
        ensures a < Passed(i, Reverse) ==> cut.Covers(children[i].list[a].k) && !Less(PosKey(c), children[i].list[a].k)
        ensures a >= Passed(i, Reverse) ==> !cut.Covers(children[i].list[a].k) && Less(PosKey(c), children[i].list[a].k)
      {
        assert AtCut(i, Reverse, cut);
        var x := children[i].list[a].k;
        if a < Passed(i, Reverse) {
          SortedLess(children[i].list, a, children[i].pos);
          SortedLess(children[i].list, children[i].pos, a);
          KeyOrder(PosKey(c), x, PosKey(i));
          KeyOrder(x, PosKey(i), x);
        } else {
          CoversIsDownward(cut, PosKey(c), x);
        }
      }
      forall i | 0 <= i < |children| && i != c
        ensures AtCut(i, Reverse, JustBefore(PosKey(c)))
      {
        forall a | 0 <= a < |children[i].list|
          ensures a < Passed(i, Reverse) <==> Less(children[i].list[a].k, PosKey(c))
        {
          KeyOrder(children[i].list[a].k, PosKey(c), PosKey(c));
        }
      }
    }

    method SeekToFirst()
      requires Wellformed()
      modifies this, children
      ensures Ok() && IsFirstAfter(Bottom)
    {
      for n := 0 to |children|
        invariant forall i :: 0 <= i < n ==> AtCut(i, Forward, Bottom)
      {
        children[n].SeekToFirst();
      }
      FindSmallest(Bottom);
    }

    method SeekToLast()
      requires Wellformed()
      modifies this, children
      ensures Ok() && IsLastBefore(Top)
    {
      for n := 0 to |children|
        invariant forall i :: 0 <= i < n ==> AtCut(i, Reverse, Top)
      {
        children[n].SeekToLast();
      }
      FindLargest(Top);
    }

    method Seek(target: IKey)
      requires Wellformed()
      modifies this, children
      ensures Ok() && IsFirstAfter(JustBefore(target))
    {
      for n := 0 to |children|
        invariant forall i :: 0 <= i < n ==> AtCut(i, Forward, JustBefore(target))
      {
        children[n].Seek(target);
      }
      FindSmallest(JustBefore(target));
    }

    /** Steps to the next key, whichever direction the iterator moved in before. */
    method Next()
      requires Ok() && Valid()
      modifies this, children
      ensures Ok() && IsFirstAfter(JustAfter(old(Key())))
    {
      ghost var k := Key();
      var c := current.value;
      if direction != Forward {
        for n := 0 to |children|
          invariant children[c].Valid() && PosKey(c) == k
          invariant forall i :: 0 <= i < n && i != c ==> AtCut(i, Forward, JustAfter(k))
        {
          if n != c {
            SeekPast(n, c);
          }
        }
        assert OthersBeyond(c, Forward, k);
        direction := Forward;
      }
      assert OthersBeyond(c, Forward, k);
      label Positioned:
      children[c].Next();
      OwnChildPasses(c, k, Forward);
      forall i | 0 <= i < |children|
        ensures AtCut(i, Forward, JustAfter(k))
      {
        if i != c {
          assert old@Positioned(AtCut(i, Forward, Edge(Forward, k)));
          assert children[i] != children[c];
          assert unchanged@Positioned(children[i]);
        }
      }
      FindSmallest(JustAfter(k));
    }

    /** Positions another child just past the current key. */
    method SeekPast(n: nat, c: nat)
      requires Wellformed() && n < |children| && c < |children| && n != c && children[c].Valid()
      modifies children[n]
      ensures AtCut(n, Forward, JustAfter(PosKey(c)))
    {
      var k := children[c].list[children[c].pos].k;
      children[n].Seek(k);
      if children[n].Valid() && Compare(k, children[n].list[children[n].pos].k) == 0 {
        // No two children hold the same key.
        assert false;
      }
      forall a | 0 <= a < |children[n].list|
        ensures a < children[n].pos <==> !Less(k, children[n].list[a].k)
      {
        KeyOrder(k, children[n].list[a].k, k);
      }
    }

    lemma OwnChildPasses(c: nat, k: IKey, d: Direction)
      requires Wellformed() && c < |children|
      requires if d.Forward? then 0 < children[c].pos <= |children[c].list| && children[c].list[children[c].pos - 1].k == k
               else Passed(c, Reverse) < |children[c].list| && children[c].list[Passed(c, Reverse)].k == k
      ensures AtCut(c, d, if d.Forward? then JustAfter(k) else JustBefore(k))
    {
      var at := if d.Forward? then children[c].pos - 1 else Passed(c, Reverse);
      forall a | 0 <= a < |children[c].list|
        ensures Less(children[c].list[a].k, k) <==> a < at
        ensures Less(k, children[c].list[a].k) <==> at < a
      {
        SortedLess(children[c].list, a, at);
        SortedLess(children[c].list, at, a);
      }
    }

    /** Steps to the previous key, whichever direction the iterator moved in before. */
    method Prev()
      requires Ok() && Valid()
      modifies this, children
      ensures Ok() && IsLastBefore(JustBefore(old(Key())))
    {
      ghost var k := Key();
      var c := current.value;
      if direction != Reverse {
        for n := 0 to |children|
          invariant children[c].Valid() && PosKey(c) == k
          invariant forall i :: 0 <= i < n && i != c ==> AtCut(i, Reverse, JustBefore(k))
        {
          if n != c {
            SeekBack(n, c);
          }
        }
        assert OthersBeyond(c, Reverse, k);
        direction := Reverse;
      }
      assert OthersBeyond(c, Reverse, k);
      label Positioned:
      children[c].Prev();
      OwnChildPasses(c, k, Reverse);
      forall i | 0 <= i < |children|
        ensures AtCut(i, Reverse, JustBefore(k))
      {
        if i != c {
          assert old@Positioned(AtCut(i, Reverse, Edge(Reverse, k)));
          assert children[i] != children[c];
          assert unchanged@Positioned(children[i]);
        }
      }
      FindLargest(JustBefore(k));
    }

    /** Positions another child just before the current key. */
    method SeekBack(n: nat, c: nat)
      requires Wellformed() && n < |children| && c < |children| && n != c && children[c].Valid()
      modifies children[n]
      ensures AtCut(n, Reverse, JustBefore(PosKey(c)))
    {
      var k := children[c].list[children[c].pos].k;
      children[n].Seek(k);
      if children[n].Valid() {
        children[n].Prev();
      } else {
        children[n].SeekToLast();
      }
    }
  }
}
