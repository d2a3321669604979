/** The iterator that walks the blocks of a table, or the files of a level, through an
    index (table/two_level_iterator.cc). */
module TwoLevel {
  import opened Entries
  import opened Iterators

  /** All entries of the blocks, in order. */
  function Concat(blocks: seq<seq<Entry>>): seq<Entry> {
    if blocks == [] then [] else Concat(blocks[..|blocks| - 1]) + blocks[|blocks| - 1]
  }

  /** Where block `b` starts in the concatenation. */
  function Offset(blocks: seq<seq<Entry>>, b: nat): nat
    requires b <= |blocks|
  {
    |Concat(blocks[..b])|
  }

  lemma OffsetStep(blocks: seq<seq<Entry>>, b: nat)
    requires b < |blocks|
    ensures Offset(blocks, b + 1) == Offset(blocks, b) + |blocks[b]|
    ensures Concat(blocks[..b + 1]) == Concat(blocks[..b]) + blocks[b]
  {
    assert blocks[..b + 1][..b] == blocks[..b];
  }

  lemma {:induction false} ConcatPrefix(blocks: seq<seq<Entry>>, b: nat)
    requires b <= |blocks|
    ensures Concat(blocks[..b]) <= Concat(blocks)
  {
    if b == |blocks| {
      assert blocks[..b] == blocks;
    } else {
      var n := |blocks| - 1;
      ConcatPrefix(blocks[..n], b);
      assert blocks[..n][..b] == blocks[..b];
    }
  }

  /** Entry `p` of block `b` in the concatenation. */
  lemma ConcatAt(blocks: seq<seq<Entry>>, b: nat, p: nat)
    requires b < |blocks| && p < |blocks[b]|
    ensures Offset(blocks, b) + p < |Concat(blocks)|
    ensures Concat(blocks)[Offset(blocks, b) + p] == blocks[b][p]
  {
    OffsetStep(blocks, b);
    ConcatPrefix(blocks, b + 1);
  }

  lemma OffsetMonotone(blocks: seq<seq<Entry>>, a: nat, b: nat)
    requires a <= b <= |blocks|
    ensures Offset(blocks, a) <= Offset(blocks, b) <= |Concat(blocks)|
  {
    assert blocks[..b][..a] == blocks[..a];
    ConcatPrefix(blocks[..b], a);
    ConcatPrefix(blocks, b);
  }

  /** An index key is at or after everything in its block and before everything in the
      blocks behind it. */
  ghost predicate IndexOk(keys: seq<IKey>, blocks: seq<seq<Entry>>) {
    |keys| == |blocks|
    && (forall b, p :: 0 <= b < |blocks| && 0 <= p < |blocks[b]| ==> !Less(keys[b], blocks[b][p].k))
    && (forall a, b, p :: 0 <= a < b < |blocks| && 0 <= p < |blocks[b]| ==> Less(keys[a], blocks[b][p].k))
    && (forall b :: 0 <= b < |blocks| ==> Sorted(blocks[b]))
    && forall a, b :: 0 <= a < b < |keys| ==> Less(keys[a], keys[b])
  }

  class TwoLevelIterator {
    const keys: seq<IKey>
    const blocks: seq<seq<Entry>>
    /** Position in the index; `|blocks|` when the index iterator is not valid. */
    var index: nat
    /** The block that the data iterator belongs to, and its position there. */
    var block: Option<nat>
    var pos: nat

    constructor (keys: seq<IKey>, blocks: seq<seq<Entry>>)
      requires |keys| == |blocks|
      ensures this.keys == keys && this.blocks == blocks && Ok() && !Valid()
    {
      this.keys := keys;
      this.blocks := blocks;
      index, block, pos := |blocks|, None, 0;
    }

    ghost predicate Ok()
      reads this
    {
      |keys| == |blocks| && index <= |blocks|
      && (block.Some? ==> block.value < |blocks| && pos <= |blocks[block.value]|)
      && (Valid() ==> index == block.value)
    }

    predicate Valid()
      reads this
    {
      block.Some? && block.value < |blocks| && pos < |blocks[block.value]|
    }

    /** The position in the concatenation of the blocks. */
    ghost function Position(): nat
      requires Valid()
      reads this
    {
      Offset(blocks, block.value) + pos
    }

    /** At `n`, or not valid when `n` is no position. */
    ghost predicate IsAt(n: int)
      reads this
    {
      if 0 <= n < |Concat(blocks)|
      then Valid() && Position() == n && Concat(blocks)[n] == blocks[block.value][pos]
      else !Valid()
    }

    /** A data iterator for the block of the current index entry, kept if it is there. */
    method InitDataBlock()
      requires |keys| == |blocks| && index <= |blocks|
      modifies this`block, this`pos
      ensures if index < |blocks|
              then block == Some(index) && (old(block) == Some(index) ==> pos == old(pos))
                   && (old(block) != Some(index) ==> pos == |blocks[index]|)
              else block == None
    {
      if index == |blocks| {
        block := None;
      } else if block == Some(index) {
      } else {
        block, pos := Some(index), |blocks[index]|;
      }
    }

    /** Moves on to the first entry of the next block that has one. */
    method SkipEmptyDataBlocksForward()
      requires |keys| == |blocks| && index <= |blocks|
      requires if index < |blocks| then block == Some(index) && pos <= |blocks[index]| else block.None?
      modifies this
      ensures Ok()
      ensures IsAt(if old(index) < |blocks| then Offset(blocks, old(index)) + old(pos) else |Concat(blocks)|)
    {
      ghost var n := if index < |blocks| then Offset(blocks, index) + pos else |Concat(blocks)|;
      while block.None? || !(pos < |blocks[block.value]|)
        invariant index <= |blocks|
        invariant if index < |blocks| then block == Some(index) && pos <= |blocks[index]| else block.None?
        invariant index < |blocks| ==> n == Offset(blocks, index) + pos
        invariant index == |blocks| ==> n == |Concat(blocks)|
        decreases |blocks| - index, if block.Some? then 1 else 0
      {
        if index == |blocks| {
          block := None;
          break;
        }
        OffsetStep(blocks, index);
        index := index + 1;
        InitDataBlock();
        if block.Some? {
          pos := 0;
        } else {
          assert blocks[..index] == blocks;
        }
      }
      if block.Some? {
        ConcatAt(blocks, block.value, pos);
      }
    }

    /** Moves back to the last entry of the previous block that has one. `pos` counts the
        block's entries when the data iterator ran off its front. */
    method SkipEmptyDataBlocksBackward()
      requires |keys| == |blocks| && index <= |blocks|
      requires if index < |blocks| then block == Some(index) && pos <= |blocks[index]| else block.None?
      modifies this
      ensures Ok()
      ensures IsAt(if old(index) == |blocks| then -1
                   else if old(pos) < |blocks[old(index)]| then Offset(blocks, old(index)) + old(pos)
                   else Offset(blocks, old(index)) - 1)
    {
      ghost var n: int := if index == |blocks| then -1
                          else if pos < |blocks[index]| then Offset(blocks, index) + pos
                          else Offset(blocks, index) - 1;
      while block.None? || !(pos < |blocks[block.value]|)
        invariant index <= |blocks|
        invariant if index < |blocks| then block == Some(index) && pos <= |blocks[index]| else block.None?
        invariant n == if index == |blocks| then -1
                       else if pos < |blocks[index]| then Offset(blocks, index) + pos
                       else Offset(blocks, index) - 1
        decreases if index == |blocks| then 0 else index + 1
      {
        if index == |blocks| {
          block := None;
          break;
        }
        if index > 0 {
          OffsetStep(blocks, index - 1);
        } else {
          assert blocks[..0] == [];
        }
        index := if index == 0 then |blocks| else index - 1;
        InitDataBlock();
        if block.Some? {
          pos := if blocks[block.value] == [] then 0 else |blocks[block.value]| - 1;
        }
      }
      if block.Some? {
        ConcatAt(blocks, block.value, pos);
      }
    }

    method SeekToFirst()
      requires Ok()
      modifies this
      ensures Ok() && IsAt(0)
    {
      index := 0;
      InitDataBlock();
      if block.Some? {
        pos := 0;
      }
      assert blocks[..0] == [];
      SkipEmptyDataBlocksForward();
    }

    method SeekToLast()
      requires Ok()
      modifies this
      ensures Ok() && IsAt(|Concat(blocks)| - 1)
    {
      index := if blocks == [] then 0 else |blocks| - 1;
      InitDataBlock();
      if block.Some? {
        pos := if blocks[block.value] == [] then 0 else |blocks[block.value]| - 1;
        OffsetStep(blocks, index);
        assert blocks[..index + 1] == blocks;
      }
      SkipEmptyDataBlocksBackward();
    }

    method Next()
      requires Ok() && Valid()
      modifies this
      ensures Ok() && IsAt(old(Position()) + 1)
    {
      pos := pos + 1;
      SkipEmptyDataBlocksForward();
    }

    method Prev()
      requires Ok() && Valid()
      modifies this
      ensures Ok() && IsAt(old(Position()) - 1)
    {
      pos := if pos == 0 then |blocks[block.value]| else pos - 1;
      SkipEmptyDataBlocksBackward();
    }

    /** Lands on the first entry at or after the target in all blocks together. */
    method Seek(target: IKey)
      requires Ok() && IndexOk(keys, blocks)
      modifies this
      ensures Ok()
      ensures exists n: nat :: IsSeek(Concat(blocks), target, n) && IsAt(n)
    {
      index := SeekKeys(target);
      InitDataBlock();
      if block.Some? {
        pos := SeekIndex(blocks[block.value], target);
        SeekSplits(blocks[block.value], target);
      }
      ghost var n := if index < |blocks| then Offset(blocks, index) + pos else |Concat(blocks)|;
      SeekIsGlobal(target, index, if index < |blocks| then pos else 0, n);
      SkipEmptyDataBlocksForward();
      assert IsAt(n);
    }

    /** The first index key at or after the target. */
    method SeekKeys(target: IKey) returns (i: nat)
      requires IndexOk(keys, blocks)
      ensures i <= |keys|
      ensures forall j :: 0 <= j < i ==> Less(keys[j], target)
      ensures i < |keys| ==> !Less(keys[i], target)
    {
      i := 0;
      while i < |keys| && Compare(keys[i], target) < 0
        invariant i <= |keys|
        invariant forall j :: 0 <= j < i ==> Less(keys[j], target)
      {
        i := i + 1;
      }
    }

    lemma SeekIsGlobal(target: IKey, i: nat, p: nat, n: nat)
      requires IndexOk(keys, blocks) && i <= |keys|
      requires forall j :: 0 <= j < i ==> Less(keys[j], target)
      requires i < |keys| ==> !Less(keys[i], target) && IsSeek(blocks[i], target, p)
      requires n == if i < |blocks| then Offset(blocks, i) + p else |Concat(blocks)|
      ensures IsSeek(Concat(blocks), target, n)
    {
      if i < |blocks| {
        OffsetStep(blocks, i);
        OffsetMonotone(blocks, i + 1, |blocks|);
      }
      var all := Concat(blocks);
      forall m | 0 <= m < |all|
        ensures m < n ==> Less(all[m].k, target)
        ensures m >= n ==> !Less(all[m].k, target)
      {
        var b, q := Locate(blocks, m);
        if b < i {
          OffsetStep(blocks, b);
          OffsetMonotone(blocks, b + 1, i);
          KeyOrder(all[m].k, keys[b], target);
          KeyOrder(keys[b], all[m].k, target);
        } else if b > i {
          OffsetMonotone(blocks, i + 1, b);
          KeyOrder(keys[i], all[m].k, target);
          KeyOrder(all[m].k, target, keys[i]);
        }
      }
    }
  }

  /** The block and the place in it of a position of the concatenation. */
  lemma {:induction false} Locate(blocks: seq<seq<Entry>>, m: nat) returns (b: nat, q: nat)
    requires m < |Concat(blocks)|
    ensures b < |blocks| && q < |blocks[b]| && m == Offset(blocks, b) + q && Concat(blocks)[m] == blocks[b][q]
  {
    var n := |blocks| - 1;
    if m < |Concat(blocks[..n])| {
      b, q := Locate(blocks[..n], m);
      assert blocks[..n][..b] == blocks[..b];
    } else {
      b, q := n, m - |Concat(blocks[..n])|;
    }
  }
}
