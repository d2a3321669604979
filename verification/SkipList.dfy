/** The skip list under a memtable (db/skiplist.h). Level by level, `lists` records the
    nodes that the links of that level thread together. */
module SkipList {
  import opened Entries
  import Store

  const MAX_HEIGHT: nat := 12

  class Node {
    const entry: Entry
    /** One link a level; as many as the node is high. */
    var next: seq<Node?>

    constructor (entry: Entry, height: nat)
      ensures this.entry == entry && |next| == height && forall i :: 0 <= i < height ==> next[i] == null
    {
      this.entry := entry;
      next := seq(height, _ => null);
    }
  }

  ghost predicate Ascending(list: seq<Node>) {
    forall i, j :: 0 <= i < j < |list| ==> Less(list[i].entry.k, list[j].entry.k)
  }

  /** `k` nodes come before the key, and the others do not. */
  ghost predicate IsCut(list: seq<Node>, key: IKey, k: nat) {
    k <= |list|
    && (forall j :: 0 <= j < k ==> Less(list[j].entry.k, key))
    && forall j :: k <= j < |list| ==> !Less(list[j].entry.k, key)
  }

  ghost function EntriesOf(list: seq<Node>): (r: seq<Entry>)
    ensures |r| == |list| && forall i :: 0 <= i < |list| ==> r[i] == list[i].entry
  {
    seq(|list|, i requires 0 <= i < |list| => list[i].entry)
  }

  ghost predicate SubList(upper: seq<Node>, lower: seq<Node>) {
    forall n :: n in upper ==> n in lower
  }

  /** The node with `i` nodes up to and including it, and the one that follows it. */
  ghost function NodeAt(head: Node, list: seq<Node>, i: nat): Node
    requires i <= |list|
  {
    if i == 0 then head else list[i - 1]
  }

  ghost function NodeAfter(list: seq<Node>, i: nat): Node? {
    if i < |list| then list[i] else null
  }

  lemma GrownList(head: Node, list: seq<Node>, x: Node, k: nat, i: nat)
    requires k <= |list| && i <= |list| + 1
    ensures var grown := list[..k] + [x] + list[k..];
            |grown| == |list| + 1
            && NodeAt(head, grown, i) == (if i <= k then NodeAt(head, list, i) else if i == k + 1 then x else NodeAt(head, list, i - 1))
            && NodeAfter(grown, i) == if i < k then NodeAfter(list, i) else if i == k then x else NodeAfter(list, i - 1)
  {
  }

  lemma InsertKeepsOrder(list: seq<Node>, x: Node, k: nat)
    requires Ascending(list) && IsCut(list, x.entry.k, k)
    requires k < |list| ==> Compare(list[k].entry.k, x.entry.k) != 0
    ensures Ascending(list[..k] + [x] + list[k..])
    ensures forall n :: n in list[..k] + [x] + list[k..] <==> n in list || n == x
  {
    var grown := list[..k] + [x] + list[k..];
    forall i, j | 0 <= i < j < |grown|
      ensures Less(grown[i].entry.k, grown[j].entry.k)
    {
      if i == k {
        assert grown[j] == list[j - 1];
        assert Less(x.entry.k, list[k].entry.k);
      }
    }
    assert list == list[..k] + list[k..];
  }

  class List {
    const head: Node
    var maxHeight: nat
    ghost var lists: seq<seq<Node>>
    ghost var nodes: set<Node>

    ghost function At(l: nat, i: nat): Node
      requires l < |lists| && i <= |lists[l]|
      reads this`lists
    {
      NodeAt(head, lists[l], i)
    }

    ghost function After(l: nat, i: nat): Node?
      requires l < |lists| && i <= |lists[l]|
      reads this`lists
    {
      NodeAfter(lists[l], i)
    }

    /** The link of a node leads on to its successor. */
    ghost predicate Linked(l: nat, n: Node, next: Node?)
      reads this`nodes, n
    {
      n in nodes && |n.next| > l && n.next[l] == next
    }

    ghost predicate LevelOk(l: nat)
      requires l < |lists|
      reads this`lists, this`nodes, nodes
    {
      head in nodes && |head.next| == MAX_HEIGHT >= |lists|
      && Ascending(lists[l])
      && (forall n :: n in lists[l] ==> n in nodes && n != head && |n.next| > l)
      && (forall i :: 0 <= i <= |lists[l]| ==> At(l, i) in nodes && Linked(l, At(l, i), After(l, i)))
    }

    /** Every level is sorted and linked, and is a sublist of the level below. */
    ghost predicate Valid()
      reads this, nodes
    {
      |lists| == MAX_HEIGHT && 1 <= maxHeight <= MAX_HEIGHT
      && (forall l :: 0 <= l < MAX_HEIGHT ==> LevelOk(l))
      && (forall l :: 0 <= l < MAX_HEIGHT - 1 ==> SubList(lists[l + 1], lists[l]))
      && (forall l :: maxHeight <= l < MAX_HEIGHT ==> lists[l] == [])
      && (forall n :: n in nodes && n != head ==> n in lists[0])
    }

    /** The contents: what the lowest level holds. */
    ghost function Contents(): seq<Entry>
      requires |lists| > 0
      reads this`lists
    {
      EntriesOf(lists[0])
    }

    constructor (any: Entry)
      ensures Valid() && Contents() == [] && fresh(nodes)
    {
      head := new Node(any, MAX_HEIGHT);
      maxHeight := 1;
      lists := seq(MAX_HEIGHT, _ => []);
      new;
      nodes := {head};
    }

    // -------------------------------------------------------------- search

    /** A search stands at a node of its level that is before the key. */
    ghost predicate Standing(key: IKey, level: nat, x: Node, i: nat)
      reads this`lists
    {
      level < |lists| && i <= |lists[level]| && x == At(level, i) && (i > 0 ==> Less(x.entry.k, key))
    }

    /** The place of a node one level down. */
    lemma StepDown(key: IKey, level: nat, x: Node, i: nat) returns (j: nat)
      requires Valid() && Standing(key, level, x, i) && level > 0
      ensures Standing(key, level - 1, x, j)
    {
      if i == 0 {
        j := 0;
      } else {
        assert SubList(lists[level - 1 + 1], lists[level - 1]);
        assert x in lists[level];
        j :| 0 <= j < |lists[level - 1]| && lists[level - 1][j] == x;
        j := j + 1;
      }
    }

    /** A node before the key whose successor is not splits its level. */
    lemma CutHere(key: IKey, level: nat, x: Node, i: nat)
      requires level < |lists| && Ascending(lists[level]) && Standing(key, level, x, i)
      requires After(level, i) != null ==> !Less(lists[level][i].entry.k, key)
      ensures IsCut(lists[level], key, i)
    {
    }

    /** The earliest node at or after the key, and the nodes before it, level by level. */
    method FindGreaterOrEqual(key: IKey) returns (result: Node?, prev: seq<Node>, ghost cuts: seq<nat>)
      requires Valid()
      ensures |prev| == |cuts| == MAX_HEIGHT
      ensures forall l :: 0 <= l < maxHeight ==> IsCut(lists[l], key, cuts[l]) && prev[l] == At(l, cuts[l])
      ensures cuts[0] == SeekIndex(Contents(), key) && result == After(0, SeekIndex(Contents(), key))
    {
      var x: Node := head;
      var level := maxHeight - 1;
      prev := seq(MAX_HEIGHT, _ => head);
      cuts := seq(MAX_HEIGHT, _ => 0);
      ghost var i: nat := 0;
      while true
        invariant 0 <= level < maxHeight && |prev| == |cuts| == MAX_HEIGHT && Standing(key, level, x, i)
        invariant forall l :: level < l < maxHeight ==> IsCut(lists[l], key, cuts[l]) && prev[l] == At(l, cuts[l])
        decreases level, |lists[level]| - i
      {
        assert LevelOk(level);
        var next := x.next[level];
        if next != null && Less(next.entry.k, key) {
          x := next;
          i := i + 1;
        } else {
          CutHere(key, level, x, i);
          prev := prev[level := x];
          cuts := cuts[level := i];
          if level == 0 {
            SeekIsCut(lists[0], key, i);
            return next, prev, cuts;
          }
          i := StepDown(key, level, x, i);
          level := level - 1;
        }
      }
    }

    /** The latest node before the key, or the head. */
    method FindLessThan(key: IKey) returns (x: Node, ghost k: nat)
      requires Valid()
      ensures IsCut(lists[0], key, k) && k == SeekIndex(Contents(), key) && x == At(0, SeekIndex(Contents(), key))
    {
      x := head;
      var level := maxHeight - 1;
      k := 0;
      while true
        invariant 0 <= level < maxHeight && Standing(key, level, x, k)
        decreases level, |lists[level]| - k
      {
        assert LevelOk(level);
        var next := x.next[level];
        if next == null || !Less(next.entry.k, key) {
          CutHere(key, level, x, k);
          if level == 0 {
            SeekIsCut(lists[0], key, k);
            return x, k;
          }
          k := StepDown(key, level, x, k);
          level := level - 1;
        } else {
          x := next;
          k := k + 1;
        }
      }
    }

    /** The last node, or the head. */
    method FindLast() returns (x: Node)
      requires Valid()
      ensures x == At(0, |lists[0]|)
    {
      x := head;
      var level := maxHeight - 1;
      ghost var k: nat := 0;
      while true
        invariant 0 <= level < maxHeight && k <= |lists[level]| && x == At(level, k)
        decreases level, |lists[level]| - k
      {
        assert LevelOk(level);
        var next := x.next[level];
        if next == null {
          if level == 0 {
            return x;
          }
          if k > 0 {
            assert SubList(lists[level - 1 + 1], lists[level - 1]);
            assert x in lists[level];
            ghost var j :| 0 <= j < |lists[level - 1]| && lists[level - 1][j] == x;
            k := j + 1;
          }
          level := level - 1;
        } else {
          x := next;
          k := k + 1;
        }
      }
    }

    method Contains(key: IKey) returns (found: bool)
      requires Valid()
      ensures found <==> exists e :: e in Contents() && e.k == key
    {
      var x, prev, cuts := FindGreaterOrEqual(key);
      assert LevelOk(0);
      found := x != null && Compare(key, x.entry.k) == 0;
      if found {
        assert Contents()[cuts[0]] == x.entry;
      } else {
        forall e | e in Contents()
          ensures e.k != key
        {
          var i :| 0 <= i < |lists[0]| && lists[0][i].entry == e;
          CompareIsLexicographic(e.k, key);
          if i >= cuts[0] && x != null {
            CompareIsLexicographic(key, x.entry.k);
          }
        }
      }
    }

    // -------------------------------------------------------------- insert

    /** The node gets its successor before it becomes one. */
    static method SetLinks(x: Node, l: nat, prev: Node)
      requires x != prev && l < |x.next| && l < |prev.next|
      modifies x`next, prev`next
      ensures x.next == old(x.next)[l := old(prev.next[l])]
      ensures prev.next == old(prev.next)[l := x]
    {
      x.next := x.next[l := prev.next[l]];
      prev.next := prev.next[l := x];
    }

    /** One step of an insertion: the new node is linked into level `l`. Whatever level it
        has reached, the list is valid; only the lowest link changes the contents. */
    method Link(x: Node, l: nat, prev: Node, ghost k: nat)
      requires Valid() && l < maxHeight && |x.next| > l && x != head
      requires IsCut(lists[l], x.entry.k, k) && prev == At(l, k)
      requires k < |lists[l]| ==> Compare(lists[l][k].entry.k, x.entry.k) != 0
      requires if l == 0 then x !in nodes else x in nodes && x in lists[l - 1]
      requires l + 1 < MAX_HEIGHT ==> x !in lists[l + 1]
      requires x !in lists[l]
      modifies this`lists, this`nodes, x, prev
      ensures Valid() && nodes == old(nodes) + {x} && |x.next| == old(|x.next|)
      ensures lists == old(lists)[l := old(lists[l])[..k] + [x] + old(lists[l])[k..]]
    {
      assert LevelOk(l);
      ghost var list, was := lists[l], lists;
      InsertKeepsOrder(list, x, k);
      SetLinks(x, l, prev);
      lists := lists[l := list[..k] + [x] + list[k..]];
      nodes := nodes + {x};
      forall i | 0 <= i <= |list| && i != k
        ensures Linked(l, NodeAt(head, list, i), NodeAfter(list, i))
      {
        assert old(Linked(l, At(l, i), After(l, i)));
        assert NodeAt(head, list, i) != prev && NodeAt(head, list, i) != x;
      }
      LinkedHere(l, list, x, k);
      forall m | 0 <= m < MAX_HEIGHT && m != l
        ensures LevelOk(m)
      {
        assert old(LevelOk(m));
        OtherLevel(m);
      }
      SubListsKept(was, lists, l, x, head, old(nodes));
    }

    static lemma SubListsKept(was: seq<seq<Node>>, lists: seq<seq<Node>>, l: nat, x: Node, head: Node, nodes: set<Node>)
      requires |was| == |lists| == MAX_HEIGHT && l < MAX_HEIGHT
      requires forall m :: 0 <= m < MAX_HEIGHT && m != l ==> lists[m] == was[m]
      requires forall n :: n in lists[l] <==> n in was[l] || n == x
      requires l > 0 ==> x in was[l - 1]
      requires forall m :: 0 <= m < MAX_HEIGHT - 1 ==> SubList(was[m + 1], was[m])
      requires (forall n :: n in nodes && n != head ==> n in was[0]) && (l > 0 ==> x in nodes)
      ensures forall m :: 0 <= m < MAX_HEIGHT - 1 ==> SubList(lists[m + 1], lists[m])
      ensures forall n :: n in nodes + {x} && n != head ==> n in lists[0]
    {
      forall m | 0 <= m < MAX_HEIGHT - 1
        ensures SubList(lists[m + 1], lists[m])
      {
        assert SubList(was[m + 1], was[m]);
      }
    }

    twostate lemma OtherLevel(m: nat)
      requires m < |old(lists)| == |lists| && old(LevelOk(m)) && lists[m] == old(lists[m]) && old(nodes) <= nodes
      requires forall n :: n in old(nodes) ==>
                 |n.next| == old(|n.next|) && (m < |n.next| ==> n.next[m] == old(n.next[m]))
      ensures LevelOk(m)
    {
      forall i | 0 <= i <= |lists[m]|
        ensures Linked(m, At(m, i), After(m, i))
      {
        assert old(Linked(m, At(m, i), After(m, i)));
      }
    }

    /** Where the links of a level go after an insertion. */
    lemma LinkedHere(l: nat, list: seq<Node>, x: Node, k: nat)
      requires l < |lists| && k <= |list| && lists[l] == list[..k] + [x] + list[k..]
      requires head in nodes && |head.next| == MAX_HEIGHT >= |lists| && Ascending(lists[l])
      requires forall n :: n in lists[l] ==> n in nodes && n != head && |n.next| > l
      requires forall i :: 0 <= i <= |list| && i != k ==> Linked(l, NodeAt(head, list, i), NodeAfter(list, i))
      requires Linked(l, NodeAt(head, list, k), x) && Linked(l, x, NodeAfter(list, k))
      ensures LevelOk(l)
    {
      forall i | 0 <= i <= |lists[l]|
        ensures Linked(l, At(l, i), After(l, i))
      {
        GrownList(head, list, x, k, i);
        if i > k + 1 {
          assert Linked(l, NodeAt(head, list, i - 1), NodeAfter(list, i - 1));
        }
      }
    }

    /** The places of a new node of a given height; the list grows to that height. */
    method FindPlaces(key: IKey, height: nat) returns (prev: seq<Node>, ghost cuts: seq<nat>)
      requires Valid() && 1 <= height <= MAX_HEIGHT
      modifies this`maxHeight
      ensures Valid() && height <= maxHeight && |prev| == |cuts| == MAX_HEIGHT
      ensures forall l :: 0 <= l < height ==> IsCut(lists[l], key, cuts[l]) && prev[l] == At(l, cuts[l])
    {
      var x;
      x, prev, cuts := FindGreaterOrEqual(key);
      if height > maxHeight {
        for i := maxHeight to height
          invariant |prev| == |cuts| == MAX_HEIGHT
          invariant forall l :: 0 <= l < i ==> IsCut(lists[l], key, cuts[l]) && prev[l] == At(l, cuts[l])
        {
          prev := prev[i := head];
          cuts := cuts[i := 0];
        }
        maxHeight := height;
      }
    }

    /** Inserts an entry that is not in the list yet; `height` is the drawn height. */
    method Insert(e: Entry, height: nat)
      requires Valid() && 1 <= height <= MAX_HEIGHT
      requires forall y :: y in Contents() ==> y.k != e.k
      modifies this, nodes
      ensures Valid() && fresh(nodes - old(nodes))
      ensures Contents() == Plus(old(Contents()), e)
    {
      ghost var was, nodes0 := lists, nodes;
      var x, prev, cuts := StartInsert(e, height);
      LinkRest(x, 0, height, prev, cuts, was, nodes0);
    }

    /** Finds the places of a new entry, and makes its node. */
    method StartInsert(e: Entry, height: nat) returns (x: Node, prev: seq<Node>, ghost cuts: seq<nat>)
      requires Valid() && 1 <= height <= MAX_HEIGHT
      requires forall y :: y in Contents() ==> y.k != e.k
      modifies this`maxHeight
      ensures fresh(x) && Linking(x, 0, height, prev, cuts, lists, nodes)
      ensures EntriesOf(lists[0][..cuts[0]] + [x] + lists[0][cuts[0]..]) == Plus(Contents(), e)
    {
      NoneEqual(e.k);
      prev, cuts := FindPlaces(e.k, height);
      x := new Node(e, height);
      EntriesGrow(lists[0], x, cuts[0]);
      LinkingBegins(x, height, prev, cuts);
    }

    /** An insertion has linked its node into the lowest `i` levels. `was` and `nodes0` are
        the lists and the nodes before it, `prev` and `cuts` the places it has found. */
    ghost predicate Linking(x: Node, i: nat, height: nat, prev: seq<Node>, cuts: seq<nat>, was: seq<seq<Node>>, nodes0: set<Node>)
      reads this, nodes, x
    {
      Valid() && i <= height && 1 <= height <= maxHeight && |x.next| == height && x != head && x !in nodes0
      && |prev| == |cuts| == |was| == MAX_HEIGHT && nodes == (if i == 0 then nodes0 else nodes0 + {x})
      && (i > 0 ==> x in lists[i - 1])
      && (forall l :: 0 <= l < height ==> IsCut(was[l], x.entry.k, cuts[l]) && prev[l] == NodeAt(head, was[l], cuts[l]))
      && (forall l, n :: 0 <= l < MAX_HEIGHT && n in was[l] ==> n.entry.k != x.entry.k)
      && (forall l :: i <= l < MAX_HEIGHT ==> lists[l] == was[l] && x !in lists[l])
      && lists[0] == if i == 0 then was[0] else was[0][..cuts[0]] + [x] + was[0][cuts[0]..]
    }

    /** The next link of an insertion. */
    method LinkNext(x: Node, i: nat, height: nat, prev: seq<Node>, ghost cuts: seq<nat>, ghost was: seq<seq<Node>>,
                    ghost nodes0: set<Node>)
      requires Linking(x, i, height, prev, cuts, was, nodes0) && i < height
      modifies this`lists, this`nodes, nodes, x
      ensures Linking(x, i + 1, height, prev, cuts, was, nodes0)
      ensures forall l :: 0 <= l < MAX_HEIGHT ==> SubList(old(lists)[l], lists[l])
    {
      ghost var k := cuts[i];
      assert LevelOk(i);
      assert IsCut(was[i], x.entry.k, k) && prev[i] == At(i, k);
      if k < |lists[i]| {
        assert lists[i][k] in was[i];
        CompareIsLexicographic(lists[i][k].entry.k, x.entry.k);
      }
      ghost var list := lists[i];
      Link(x, i, prev[i], k);
      assert list == list[..k] + list[k..];
    }

    /** Links a node into the levels that are left, from the lowest up. */
    method LinkRest(x: Node, from: nat, height: nat, prev: seq<Node>, ghost cuts: seq<nat>, ghost was: seq<seq<Node>>,
                    ghost nodes0: set<Node>)
      requires Linking(x, from, height, prev, cuts, was, nodes0)
      modifies this`lists, this`nodes, nodes, x
      ensures Linking(x, height, height, prev, cuts, was, nodes0)
    {
      for i := from to height
        invariant Linking(x, i, height, prev, cuts, was, nodes0) && nodes <= old(nodes) + {x}
      {
        LinkNext(x, i, height, prev, cuts, was, nodes0);
      }
    }

    lemma LinkingBegins(x: Node, height: nat, prev: seq<Node>, cuts: seq<nat>)
      requires Valid() && 1 <= height <= maxHeight && |x.next| == height && x !in nodes
      requires |prev| == |cuts| == MAX_HEIGHT
      requires forall l :: 0 <= l < height ==> IsCut(lists[l], x.entry.k, cuts[l]) && prev[l] == At(l, cuts[l])
      requires forall l, n :: 0 <= l < MAX_HEIGHT && n in lists[l] ==> n.entry.k != x.entry.k
      ensures Linking(x, 0, height, prev, cuts, lists, nodes)
    {
      assert LevelOk(0);
      forall l | 0 <= l < MAX_HEIGHT
        ensures x !in lists[l]
      {
        assert LevelOk(l);
      }
    }

    lemma NoneEqual(key: IKey)
      requires Valid() && forall y :: y in Contents() ==> y.k != key
      ensures forall l, n :: 0 <= l < MAX_HEIGHT && n in lists[l] ==> n.entry.k != key
    {
      forall l, n | 0 <= l < MAX_HEIGHT && n in lists[l]
        ensures n.entry.k != key
      {
        assert LevelOk(l);
        var i :| 0 <= i < |lists[0]| && lists[0][i] == n;
        assert Contents()[i] == n.entry;
      }
    }
  }

  /** The entries with one more, where it belongs. */
  function Plus(es: seq<Entry>, e: Entry): seq<Entry> {
    var k := SeekIndex(es, e.k);
    es[..k] + [e] + es[k..]
  }

  lemma EntriesGrow(list: seq<Node>, x: Node, k: nat)
    requires IsCut(list, x.entry.k, k)
    ensures SeekIndex(EntriesOf(list), x.entry.k) == k
    ensures EntriesOf(list[..k] + [x] + list[k..]) == Plus(EntriesOf(list), x.entry)
  {
    SeekIsCut(list, x.entry.k, k);
  }

  lemma SeekIsCut(list: seq<Node>, key: IKey, k: nat)
    requires IsCut(list, key, k)
    ensures SeekIndex(EntriesOf(list), key) == k
  {
    var es := EntriesOf(list);
    forall j | 0 <= j < |list|
      ensures Less(es[j].k, key) <==> j < k
    {
      assert es[j] == list[j].entry;
    }
    if k < |list| {
      assert !Less(es[k].k, key);
    }
  }

  // -------------------------------------------------------------- iterator

  /** Stands at the node with `pos` nodes before it; past the last one when not valid. */
  class Iterator {
    const list: List
    var node: Node?
    ghost var pos: nat

    ghost predicate Valid()
      reads this, list, list.nodes
    {
      list.Valid() && pos <= |list.Contents()| && node == list.After(0, pos)
    }

    constructor (list: List)
      requires list.Valid()
      ensures Valid() && this.list == list && node == null
    {
      this.list := list;
      node := null;
      pos := |list.lists[0]|;
    }

    method Next()
      requires Valid() && node != null
      modifies this
      ensures Valid() && pos == old(pos) + 1
    {
      assert list.LevelOk(0);
      assert node == list.At(0, pos + 1);
      node := node.next[0];
      pos := pos + 1;
    }

    /** Before the first entry there is nothing: the iterator becomes invalid. */
    method Prev()
      requires Valid() && node != null
      modifies this
      ensures Valid() && pos == if old(pos) == 0 then |list.Contents()| else old(pos) - 1
    {
      assert list.LevelOk(0);
      var x, k := list.FindLessThan(node.entry.k);
      assert k == pos by {
        CutAtNode(list.lists[0], pos, k);
      }
      node := if x == list.head then null else x;
      pos := if k == 0 then |list.lists[0]| else k - 1;
    }

    method Seek(target: IKey)
      requires Valid()
      modifies this
      ensures Valid() && pos == SeekIndex(list.Contents(), target)
    {
      var x, prev, cuts := list.FindGreaterOrEqual(target);
      node := x;
      SeekIsCut(list.lists[0], target, cuts[0]);
      pos := cuts[0];
    }

    method SeekToFirst()
      requires Valid()
      modifies this
      ensures Valid() && pos == 0
    {
      assert list.LevelOk(0);
      assert list.head == list.At(0, 0);
      node := list.head.next[0];
      pos := 0;
    }

    method SeekToLast()
      requires Valid()
      modifies this
      ensures Valid() && pos == if list.Contents() == [] then 0 else |list.Contents()| - 1
    {
      assert list.LevelOk(0);
      var x := list.FindLast();
      node := if x == list.head then null else x;
      pos := if list.lists[0] == [] then 0 else |list.lists[0]| - 1;
    }
  }

  lemma CutAtNode(nodes: seq<Node>, pos: nat, k: nat)
    requires Ascending(nodes) && pos < |nodes| && IsCut(nodes, nodes[pos].entry.k, k)
    ensures k == pos
  {
    forall i | 0 <= i < |nodes|
      ensures Less(nodes[i].entry.k, nodes[pos].entry.k) <==> i < pos
    {
    }
    if k < |nodes| {
      assert Less(nodes[k].entry.k, nodes[pos].entry.k) <==> k < pos;
    }
  }

  // -------------------------------------------------- readers beside a writer

  /** The first entry at or after a key. */
  function FirstFrom(es: seq<Entry>, key: IKey): Option<Entry> {
    var k := SeekIndex(es, key);
    if k < |es| then Some(es[k]) else None
  }

  /** One round of a search, in whatever state an insertion has left the list. The answer
      is right for the contents at the moment of the last round. */
  method SearchStep(list: List, key: IKey, level: nat, x: Node, ghost k: nat)
    returns (found: bool, answer: Option<Entry>, level': nat, x': Node, ghost k': nat)
    requires list.Valid() && list.Standing(key, level, x, k)
    ensures found ==> answer == FirstFrom(list.Contents(), key)
    ensures !found ==> list.Standing(key, level', x', k') && (level' < level || (level' == level && k' == k + 1))
  {
    found, answer, level', x', k' := false, None, level, x, k;
    assert list.LevelOk(level);
    var next := x.next[level];
    if next != null && Less(next.entry.k, key) {
      x', k' := next, k + 1;
    } else {
      list.CutHere(key, level, x, k);
      if level == 0 {
        SeekIsCut(list.lists[0], key, k);
        found, answer := true, if next == null then None else Some(next.entry);
      } else {
        k' := list.StepDown(key, level, x, k);
        level' := level - 1;
      }
    }
  }

  /** Links only add nodes, so that a reader may go on where it stands. */
  lemma SearchGoesOn(list: List, key: IKey, level: nat, x: Node, k: nat, was: seq<Node>) returns (k': nat)
    requires level < |list.lists| && SubList(was, list.lists[level])
    requires k <= |was| && x == NodeAt(list.head, was, k) && (k > 0 ==> Less(x.entry.k, key))
    ensures list.Standing(key, level, x, k')
  {
    k' := 0;
    if k > 0 {
      assert x in was;
      var j :| 0 <= j < |list.lists[level]| && list.lists[level][j] == x;
      k' := j + 1;
    }
  }

  /** A search beside an insertion: at each moment `writerNext` says who takes the next
      step, the writer, setting one link, or the reader, following one. In every such
      interleaving the search ends, and its answer is the one for the contents before the
      insertion, if the lowest link was not yet set at its last round, and otherwise the one
      for the contents after it. */
  method SearchBesideInsert(list: List, e: Entry, height: nat, key: IKey, writerNext: nat -> bool)
    returns (answer: Option<Entry>, ghost inserted: bool)
    requires list.Valid() && 1 <= height <= MAX_HEIGHT
    requires forall y :: y in list.Contents() ==> y.k != e.k
    modifies list, list.nodes
    ensures list.Valid()
    ensures list.Contents() == Plus(old(list.Contents()), e)
    ensures answer == FirstFrom(if inserted then Plus(old(list.Contents()), e) else old(list.Contents()), key)
  {
    var level := list.maxHeight - 1;
    ghost var was, nodes0 := list.lists, list.nodes;
    var node, prev, cuts := list.StartInsert(e, height);
    var i;
    i, answer, inserted := RunBoth(list, node, height, prev, cuts, was, nodes0, key, level, writerNext);
    list.LinkRest(node, i, height, prev, cuts, was, nodes0);
  }

  /** Writer and reader take their steps until the search is over. */
  method RunBoth(list: List, node: Node, height: nat, prev: seq<Node>, ghost cuts: seq<nat>, ghost was: seq<seq<Node>>,
                 ghost nodes0: set<Node>, key: IKey, startLevel: nat, writerNext: nat -> bool)
    returns (i: nat, answer: Option<Entry>, ghost inserted: bool)
    requires list.Linking(node, 0, height, prev, cuts, was, nodes0) && startLevel < MAX_HEIGHT
    modifies list`lists, list`nodes, list.nodes, node
    ensures list.Linking(node, i, height, prev, cuts, was, nodes0) && inserted == (i > 0)
    ensures answer == FirstFrom(list.Contents(), key)
  {
    var level, x, found := startLevel, list.head, false;
    var time := 0;
    ghost var k: nat := 0;
    i, answer := 0, None;
    while !found
      invariant list.Linking(node, i, height, prev, cuts, was, nodes0) && list.nodes <= nodes0 + {node}
      invariant found ==> answer == FirstFrom(list.Contents(), key)
      invariant !found ==> list.Standing(key, level, x, k)
      decreases !found, height - i, level, if found then 0 else |list.lists[level]| - k
    {
      if i < height && writerNext(time) {
        ghost var here := list.lists[level];
        list.LinkNext(node, i, height, prev, cuts, was, nodes0);
        k := SearchGoesOn(list, key, level, x, k, here);
        i := i + 1;
      } else {
        found, answer, level, x, k := SearchStep(list, key, level, x, k);
      }
      time := time + 1;
    }
    inserted := i > 0;
  }

  // --------------------------------------------------------------- memtable

  /** Where an entry belongs that shares its sequence number with no entry of its key. */
  lemma {:induction false} InsertedInOrder(es: seq<Entry>, e: Entry)
    requires Sorted(es)
    requires forall x :: x in es ==> !(x.k.user == e.k.user && x.k.sequence == e.k.sequence)
    ensures var k := SeekIndex(es, e.k);
            es[..k] + [e] + es[k..] == Store.InsertEntry(es, e)
  {
    var k := SeekIndex(es, e.k);
    if es == [] {
    } else if Before(e.k, es[0].k) {
      assert k == 0;
      assert es[..0] + [e] + es[0..] == [e] + es;
    } else {
      InsertedInOrder(es[1..], e);
      InsertBehind(es, e);
    }
  }

  lemma InsertBehind(es: seq<Entry>, e: Entry)
    requires es != [] && Sorted(es) && !Before(e.k, es[0].k)
    requires forall x :: x in es ==> !(x.k.user == e.k.user && x.k.sequence == e.k.sequence)
    requires var j := SeekIndex(es[1..], e.k);
             es[1..][..j] + [e] + es[1..][j..] == Store.InsertEntry(es[1..], e)
    ensures var k := SeekIndex(es, e.k);
            es[..k] + [e] + es[k..] == Store.InsertEntry(es, e)
  {
    assert es[0] in es;
    assert SeekIndex(es, e.k) == 1 + SeekIndex(es[1..], e.k);
    assert Store.InsertEntry(es, e) == [es[0]] + Store.InsertEntry(es[1..], e);
    InsertShifts(es, e, SeekIndex(es[1..], e.k));
  }

  lemma InsertShifts<T>(s: seq<T>, x: T, j: nat)
    requires j < |s|
    ensures s[..1 + j] + [x] + s[1 + j..] == [s[0]] + (s[1..][..j] + [x] + s[1..][j..])
  {
  }

  class MemTable {
    const table: List

    ghost predicate Valid()
      reads this, table, table.nodes
    {
      table.Valid() && Sorted(table.Contents())
    }

    constructor (any: Entry)
      ensures Valid() && table.Contents() == [] && fresh(table) && fresh(table.nodes)
    {
      table := new List(any);
    }

    method Add(e: Entry, height: nat)
      requires Valid() && 1 <= height <= MAX_HEIGHT
      requires forall x :: x in table.Contents() ==> !(x.k.user == e.k.user && x.k.sequence == e.k.sequence)
      modifies table, table.nodes
      ensures Valid() && fresh(table.nodes - old(table.nodes))
      ensures table.Contents() == Store.InsertEntry(old(table.Contents()), e)
    {
      InsertedInOrder(table.Contents(), e);
      table.Insert(e, height);
    }

    /** The newest entry of a user key at or below a sequence number. */
    method Get(u: UserKey, s: SequenceNumber) returns (found: Lookup)
      requires Valid()
      ensures found == LookupIn(table.Contents(), u, s)
      ensures found.NotFound? <==> !SomeSeen(SetOf(table.Contents()), u, s)
      ensures !found.NotFound? ==>
                exists e :: IsNewest(SetOf(table.Contents()), u, s, e) && found == LookupOf(e)
    {
      var iter := new Iterator(table);
      iter.Seek(SeekKey(u, s));
      LookupFindsNewest(table.Contents(), u, s);
      if iter.node != null && iter.node.entry.k.user == u {
        found := LookupOf(iter.node.entry);
      } else {
        found := NotFound;
      }
    }
  }
}
