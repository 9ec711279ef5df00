/** The array min-heap of timers. */
module Heap {

  /** `event_timer_st`: an event with a deadline. The heap node inside it is identified with it. */
  class Timer {
    // event_st
    var next: Timer?
    var pending: bool
    var destory: bool
    /** `cb` is set; nothing in the repository changes it later. */
    const hasCallback: bool
    // the timer
    var repeat: nat
    var nextTimeout: nat
    var timeout: nat

    constructor (timeout: nat, nextTimeout: nat, repeat: nat, hasCallback: bool)
      ensures this.timeout == timeout && this.nextTimeout == nextTimeout && this.repeat == repeat
      ensures this.hasCallback == hasCallback && !pending && !destory && next == null
    {
      this.timeout, this.nextTimeout, this.repeat, this.hasCallback := timeout, nextTimeout, repeat, hasCallback;
      next, pending, destory := null, false, false;
    }
  }

  // ---------- heap order, on the keys alone ----------

  function Parent(i: nat): nat
    requires i > 0
  {
    (i - 1) / 2
  }

  predicate Edge(k: seq<int>, i: nat)
    requires 0 < i < |k|
  {
    k[Parent(i)] <= k[i]
  }

  predicate Ordered(k: seq<int>) {
    forall i :: 0 < i < |k| ==> Edge(k, i)
  }

  /** Every edge holds that does not touch `at`, and the order skips over `at`. */
  predicate OrderedAround(k: seq<int>, at: nat) {
    && (forall i :: 0 < i < |k| && i != at && Parent(i) != at ==> Edge(k, i))
    && (forall i :: 0 < i < |k| && at > 0 && at < |k| && Parent(i) == at ==> k[Parent(at)] <= k[i])
  }

  /** Only the edge above `at` may be violated, and the order skips over `at`. */
  predicate OrderedBelow(k: seq<int>, at: nat) {
    && (forall i :: 0 < i < |k| && i != at ==> Edge(k, i))
    && (forall i :: 0 < i < |k| && at > 0 && at < |k| && Parent(i) == at ==> k[Parent(at)] <= k[i])
  }

  function Swapped<T>(s: seq<T>, i: nat, j: nat): (r: seq<T>)
    requires i < |s| && j < |s|
    ensures |r| == |s|
  {
    s[i := s[j]][j := s[i]]
  }

  lemma SwappedMultiset<T>(s: seq<T>, i: nat, j: nat)
    requires i < |s| && j < |s|
    ensures multiset(Swapped(s, i, j)) == multiset(s)
  {
  }

  /** Moving a small key one level up leaves only the edge above its new place in doubt. */
  lemma SwapUp(k: seq<int>, at: nat)
    requires 0 < at < |k| && OrderedBelow(k, at) && k[at] < k[Parent(at)]
    ensures OrderedBelow(Swapped(k, at, Parent(at)), Parent(at))
  {
    var p := Parent(at);
    var r := Swapped(k, at, p);
    forall i | 0 < i < |r| && i != p ensures Edge(r, i) {
      if Parent(i) == p && i != at {
        assert Edge(k, i);
      } else if i != at && Parent(i) != at {
        assert Edge(k, i);
      }
    }
    forall i | 0 < i < |r| && p > 0 && Parent(i) == p ensures r[Parent(p)] <= r[i] {
      assert Edge(k, p);
      if i != at {
        assert Edge(k, i);
      }
    }
  }

  /** The smaller child that heapify_down picks, or `at` itself. */
  function Smallest(k: seq<int>, at: nat): (p: nat)
    requires at < |k|
    ensures p < |k| && (p == at || (p > at && p > 0 && Parent(p) == at && k[p] < k[at]))
    ensures forall i :: 0 < i < |k| && Parent(i) == at ==> k[p] <= k[i]
  {
    var left, right := 2 * at + 1, 2 * at + 2;
    var p := if left < |k| && k[left] < k[at] then left else at;
    if right < |k| && k[right] < k[p] then right else p
  }

  /** The two tests of heapify_down. */
  lemma SmallestIs(k: seq<int>, at: nat, p: nat)
    requires at < |k|
    requires var left, right := 2 * at + 1, 2 * at + 2;
      var q := if left < |k| && k[left] < k[at] then left else at;
      p == if right < |k| && k[right] < k[q] then right else q
    ensures p == Smallest(k, at)
  {
  }

  /** Moving a large key down to the smaller child leaves only that child's place in doubt. */
  lemma SwapDown(k: seq<int>, at: nat)
    requires at < |k| && OrderedAround(k, at) && Smallest(k, at) != at
    ensures var p := Smallest(k, at);
      var r := Swapped(k, at, p);
      OrderedAround(r, p) && Edge(r, p) && (at > 0 ==> Edge(r, at))
  {
    var p := Smallest(k, at);
    var r := Swapped(k, at, p);
    forall i | 0 < i < |r| && i != p && Parent(i) != p ensures Edge(r, i) {
      if i != at && Parent(i) != at {
        assert Edge(k, i);
      }
    }
    forall i | 0 < i < |r| && p > 0 && Parent(i) == p ensures r[Parent(p)] <= r[i] {
      assert Edge(k, i);
    }
  }

  lemma {:induction false} RootIsLeast(k: seq<int>, i: nat)
    requires Ordered(k) && i < |k|
    ensures k[0] <= k[i]
  {
    if i > 0 {
      assert Edge(k, i);
      RootIsLeast(k, Parent(i));
    }
  }

  // ---------- the array ----------

  ghost function KeysOf(nodes: seq<Timer>): (k: seq<int>)
    reads nodes`nextTimeout
    ensures |k| == |nodes| && forall i :: 0 <= i < |k| ==> k[i] == nodes[i].nextTimeout
  {
    if nodes == [] then [] else KeysOf(nodes[..|nodes| - 1]) + [nodes[|nodes| - 1].nextTimeout]
  }

  class Heap {
    /** `array` */
    const slots: array<Timer?>
    var size: nat

    ghost predicate Ok()
      reads this, slots
    {
      size <= slots.Length && forall i :: 0 <= i < size ==> slots[i] != null
    }

    ghost function Nodes(): (s: seq<Timer>)
      reads this, slots
      requires Ok()
      ensures |s| == size && forall i :: 0 <= i < size ==> s[i] == slots[i]
    {
      slots[..size]
    }

    ghost function Contents(): multiset<Timer>
      reads this, slots
      requires Ok()
    {
      multiset(Nodes())
    }

    ghost function Keys(): (k: seq<int>)
      reads this, slots, (if Ok() then Nodes() else [])`nextTimeout
      requires Ok()
      ensures |k| == size && forall i :: 0 <= i < size ==> k[i] == slots[i].nextTimeout
    {
      KeysOf(Nodes())
    }

    /** create_heap */
    constructor (capacity: nat)
      ensures Ok() && size == 0 && slots.Length == capacity && fresh(slots)
    {
      slots := new Timer?[capacity](i => null);
      size := 0;
    }

    method Swap(i: nat, j: nat)
      requires Ok() && i < size && j < size
      modifies slots
      ensures Ok() && Nodes() == Swapped(old(Nodes()), i, j) && Contents() == old(Contents())
      ensures Keys() == Swapped(old(Keys()), i, j)
    {
      ghost var nodes, keys := Nodes(), Keys();
      var temp := slots[i];
      slots[i] := slots[j];
      slots[j] := temp;
      SwappedMultiset(nodes, i, j);
      assert Nodes() == Swapped(nodes, i, j);
      assert Keys() == Swapped(keys, i, j);
    }

    /** heapify_up: repairs a node that may be smaller than its parent. */
    method HeapifyUp(at: nat)
      requires Ok() && at < size && OrderedBelow(Keys(), at)
      modifies slots
      ensures Ok() && Contents() == old(Contents()) && Ordered(Keys())
    {
      hide OrderedBelow, Ordered, Contents, Nodes, Keys, Swapped;
      var index: nat := at;
      while index != 0 && slots[index].nextTimeout < slots[(index - 1) / 2].nextTimeout
        invariant Ok() && index < size && Contents() == old(Contents())
        invariant OrderedBelow(Keys(), index)
      {
        SwapUp(Keys(), index);
        Swap(index, (index - 1) / 2);
        index := (index - 1) / 2;
      }
      Settled(Keys(), index);
    }

    /** heapify_down: repairs everything below a node; only the edge above it may stay violated. */
    method HeapifyDown(at: nat)
      requires Ok() && (at < size ==> OrderedAround(Keys(), at))
      modifies slots
      ensures Ok() && Contents() == old(Contents())
      ensures forall i :: 0 <= i < at && i < size ==> slots[i] == old(slots[i])
      ensures at < size ==> OrderedBelow(Keys(), at)
      ensures 0 < at < size && old(Edge(Keys(), at)) ==> Edge(Keys(), at)
      decreases size - at
    {
      hide OrderedBelow, OrderedAround, Contents, Nodes, Keys, Smallest;
      var parentIndex, left, right := at, 2 * at + 1, 2 * at + 2;
      if left < size && slots[left].nextTimeout < slots[parentIndex].nextTimeout {
        parentIndex := left;
      }
      if right < size && slots[right].nextTimeout < slots[parentIndex].nextTimeout {
        parentIndex := right;
      }
      if at < size {
        SmallestIs(Keys(), at, parentIndex);
      }
      if parentIndex != at {
        SwapDown(Keys(), at);
        Swap(at, parentIndex);
        HeapifyDown(parentIndex);
        StillBelow(Keys(), at, parentIndex);
      } else if at < size {
        NoSmallerChild(Keys(), at);
      }
    }

    // ---------- the operations ----------

    ghost predicate Valid()
      reads this, slots, (if Ok() then Nodes() else [])`nextTimeout
    {
      Ok() && Ordered(Keys())
    }

    /** heap_insert: a full heap silently drops the node. */
    method Insert(node: Timer)
      requires Valid()
      modifies this`size, slots
      ensures Valid()
      ensures Contents() == if old(size) == slots.Length then old(Contents()) else old(Contents()) + multiset{node}
      ensures size == if old(size) == slots.Length then old(size) else old(size) + 1
    {
      if size == slots.Length {
        return;
      }
      ghost var k := Keys();
      slots[size] := node;
      size := size + 1;
      assert Nodes() == old(Nodes()) + [node];
      assert Keys() == k + [node.nextTimeout];
      Appended(k, node.nextTimeout);
      HeapifyUp(size - 1);
    }

    /** heap_top: a node with the least key. */
    method Top() returns (node: Timer?)
      requires Valid()
      ensures size == 0 <==> node == null
      ensures node != null ==> node == slots[0] && node in Contents()
      ensures node != null ==> forall t :: t in Contents() ==> node.nextTimeout <= t.nextTimeout
    {
      if size == 0 {
        return null;
      }
      RootLeast();
      return slots[0];
    }

    lemma RootLeast()
      requires Valid() && size > 0
      ensures slots[0] in Contents() && forall t :: t in Contents() ==> slots[0].nextTimeout <= t.nextTimeout
    {
      assert slots[0] == Nodes()[0];
      forall t | t in Contents() ensures slots[0].nextTimeout <= t.nextTimeout {
        var i :| 0 <= i < size && Nodes()[i] == t;
        RootIsLeast(Keys(), i);
      }
    }

    /** heap_pop: the root goes, even if its key was changed since the heap was last in order. */
    method Pop()
      requires Ok() && OrderedAround(Keys(), 0)
      modifies this`size, slots
      ensures Valid()
      ensures old(size) == 0 ==> size == 0 && Contents() == old(Contents())
      ensures old(size) > 0 ==> size == old(size) - 1 && Contents() == old(Contents()) - multiset{old(slots[0])}
    {
      hide OrderedAround, OrderedBelow, Keys, Nodes, Contents, Without;
      if size == 0 {
        NoKeys(Keys());
        return;
      }
      WithoutRoot(Keys());
      MoveLast(0);
      HeapifyDown(0);
      if size > 0 {
        Settled(Keys(), 0);
      } else {
        NoKeys(Keys());
      }
    }

    /** heap_remove: one occurrence of the node goes, wherever it is; every other node stays. */
    method Remove(node: Timer)
      requires Valid()
      modifies this`size, slots
      ensures Valid()
      ensures Contents() == old(Contents()) - multiset{node}
      ensures size == if node in old(Contents()) then old(size) - 1 else old(size)
    {
      hide OrderedAround, OrderedBelow, Ordered, Keys, Nodes, Contents, Without;
      var index := -1;
      var i := 0;
      while i < size
        invariant 0 <= i <= size && index == -1
        invariant forall j :: 0 <= j < i ==> slots[j] != node
      {
        if slots[i] == node {
          index := i;
          break;
        }
        i := i + 1;
      }
      if index == -1 {
        NotInContents(node);
        return;
      }
      WithoutOne(Keys(), index);
      InContents(index);
      if index == size - 1 {
        MoveLast(index);
      } else {
        MoveLast(index);
        HeapifyDown(index);
        HeapifyUp(index);
      }
    }

    lemma InContents(i: nat)
      requires Ok() && i < size
      ensures slots[i] in Contents()
    {
      assert slots[i] == Nodes()[i];
    }

    lemma NotInContents(node: Timer)
      requires Ok() && forall j :: 0 <= j < size ==> slots[j] != node
      ensures node !in Contents()
    {
      assert forall j :: 0 <= j < size ==> Nodes()[j] != node;
    }

    /** The last node takes the place of the node at `index`. */
    method MoveLast(index: nat)
      requires Ok() && index < size
      modifies this`size, slots
      ensures Ok() && size == old(size) - 1
      ensures Keys() == Without(old(Keys()), index) && Contents() == old(Contents()) - multiset{old(slots[index])}
    {
      hide Keys, Contents, Without;
      ghost var nodes := Nodes();
      ghost var left := Without(nodes, index);
      KeysWithout(nodes, index);
      Replaced(nodes, index);
      KeysAre();
      ContentsAre();
      ghost var keys := KeysOf(left);
      DropLast(index);
      assert KeysOf(left) == keys;
      KeysAre();
      ContentsAre();
    }

    lemma KeysAre()
      requires Ok()
      ensures Keys() == KeysOf(Nodes())
    {
      hide KeysOf, Nodes;
    }

    lemma ContentsAre()
      requires Ok()
      ensures Contents() == multiset(Nodes())
    {
      hide Nodes;
    }

    method DropLast(index: nat)
      requires Ok() && index < size
      modifies this`size, slots
      ensures Ok() && size == old(size) - 1 && Nodes() == Without(old(Nodes()), index)
    {
      hide Contents, Keys, KeysOf;
      slots[index] := slots[size - 1];
      slots[size - 1] := null;
      size := size - 1;
      assert forall j :: 0 <= j < size ==> Nodes()[j] == Without(old(Nodes()), index)[j];
    }

    /** The nodes of the heap are objects that exist, so that changing the array leaves them as they are. */
    lemma AllAllocated()
      requires Ok()
      ensures forall t :: t in Contents() ==> allocated(t)
    {
      forall t | t in Contents() ensures allocated(t) {
        var i :| 0 <= i < size && Nodes()[i] == t;
        assert slots[i] == t;
      }
    }

    /** heap_top and then heap_pop. */
    method TakeTop() returns (node: Timer)
      requires Valid() && size > 0
      modifies this`size, slots
      ensures Valid() && size == old(size) - 1
      ensures old(Contents()) == Contents() + multiset{node}
      ensures forall t :: t in Contents() ==> node.nextTimeout <= t.nextTimeout
    {
      hide Nodes, OrderedAround, Contents;
      ghost var all := Contents();
      node := Top();
      OrderedFromRoot(Keys());
      AllAllocated();
      Pop();
      assert all == (all - multiset{node}) + multiset{node};
    }

    /** Taking the top until the heap is empty visits every node once, in order of key. */
    method Drain() returns (order: seq<Timer>)
      requires Valid()
      modifies this`size, slots
      ensures Valid() && size == 0
      ensures multiset(order) == old(Contents())
      ensures forall i :: 0 < i < |order| ==> order[i - 1].nextTimeout <= order[i].nextTimeout
    {
      hide Valid, Contents, Ok, Nodes, Keys;
      order := [];
      SizesAgree();
      while size > 0
        invariant Valid() && Ok() && multiset(order) + Contents() == old(Contents())
        invariant forall i :: 0 < i < |order| ==> order[i - 1].nextTimeout <= order[i].nextTimeout
        invariant order != [] ==> forall t :: t in Contents() ==> order[|order| - 1].nextTimeout <= t.nextTimeout
        decreases size
      {
        ghost var before := Contents();
        AllAllocated();
        var node := TakeTop();
        SizesAgree();
        assert node in before;
        assert order != [] ==> order[|order| - 1].nextTimeout <= node.nextTimeout;
        order := order + [node];
      }
      Emptied();
    }

    lemma SizesAgree()
      requires Valid()
      ensures Ok()
    {
    }

    lemma ReadyToPop()
      requires Valid()
      ensures Ok() && OrderedAround(Keys(), 0)
    {
      OrderedFromRoot(Keys());
    }

    lemma RootInside()
      requires Valid()
      ensures Ok() && (size == 0 ==> Contents() == multiset{}) && (size > 0 ==> slots[0] in Contents())
    {
    }

    /** A root that is in the heap once is at no other place. */
    lemma RootOnce()
      requires Ok() && size > 0 && Contents()[slots[0]] == 1
      ensures forall j :: 0 < j < size ==> slots[j] != slots[0]
    {
      assert Nodes() == [Nodes()[0]] + Nodes()[1..];
      assert forall j :: 0 < j < size ==> Nodes()[j] == Nodes()[1..][j - 1];
    }

    lemma Emptied()
      requires Ok() && size == 0
      ensures Contents() == multiset{}
    {
    }
  }

  /** Changing the key of the root disturbs only the edges at the root. */
  lemma RootRekeyed(k: seq<int>, k': seq<int>)
    requires Ordered(k) && |k'| == |k| && forall i :: 0 < i < |k| ==> k'[i] == k[i]
    ensures OrderedAround(k', 0)
  {
    forall i | 0 < i < |k'| && Parent(i) != 0 ensures Edge(k', i) {
      assert Edge(k, i);
    }
  }

  lemma OrderedFromRoot(k: seq<int>)
    requires Ordered(k)
    ensures OrderedAround(k, 0)
  {
  }

  /** The sequence whose slot `i` was overwritten by the last element, and shortened by it. */
  function Without<T>(s: seq<T>, i: nat): (r: seq<T>)
    requires i < |s|
    ensures |r| == |s| - 1
  {
    s[i := s[|s| - 1]][..|s| - 1]
  }

  lemma Parts<T>(a: seq<T>, x: T, b: seq<T>, y: T)
    ensures multiset(a + [y] + b) == multiset(a + [x] + b + [y]) - multiset{x}
  {
    assert multiset(a + [y] + b) == multiset(a) + multiset{y} + multiset(b);
    assert multiset(a + [x] + b + [y]) == multiset(a) + multiset{x} + multiset(b) + multiset{y};
  }

  lemma WithoutLast<T>(s: seq<T>)
    requires |s| > 0
    ensures Without(s, |s| - 1) == s[..|s| - 1] && s == s[..|s| - 1] + [s[|s| - 1]]
  {
  }

  lemma WithoutInner<T>(s: seq<T>, i: nat)
    requires i < |s| - 1
    ensures var n := |s| - 1;
      Without(s, i) == s[..i] + [s[n]] + s[i + 1..n] && s == s[..i] + [s[i]] + s[i + 1..n] + [s[n]]
  {
  }

  lemma Replaced<T>(s: seq<T>, i: nat)
    requires i < |s|
    ensures multiset(Without(s, i)) == multiset(s) - multiset{s[i]}
  {
    hide Without;
    var n := |s| - 1;
    if i == n {
      WithoutLast(s);
      assert multiset(s[..n] + [s[n]]) == multiset(s[..n]) + multiset{s[n]};
    } else {
      WithoutInner(s, i);
      Parts(s[..i], s[i], s[i + 1..n], s[n]);
    }
  }

  lemma KeysWithout(nodes: seq<Timer>, i: nat)
    requires i < |nodes|
    ensures KeysOf(Without(nodes, i)) == Without(KeysOf(nodes), i)
  {
  }

  lemma Appended(k: seq<int>, x: int)
    requires Ordered(k)
    ensures OrderedBelow(k + [x], |k|)
  {
    var r := k + [x];
    forall i | 0 < i < |r| && i != |k| ensures Edge(r, i) {
      assert Edge(k, i);
    }
  }

  lemma WithoutRoot(k: seq<int>)
    requires |k| > 0 && OrderedAround(k, 0)
    ensures OrderedAround(Without(k, 0), 0)
  {
    var r := Without(k, 0);
    forall i | 0 < i < |r| && Parent(i) != 0 ensures Edge(r, i) {
      assert Edge(k, i);
    }
  }

  /** Overwriting a slot by the last element may break the order both above and below it, but nowhere else. */
  lemma WithoutOne(k: seq<int>, at: nat)
    requires at < |k| && Ordered(k)
    ensures if at == |k| - 1 then Ordered(Without(k, at)) else OrderedAround(Without(k, at), at)
  {
    var r := Without(k, at);
    forall i | 0 < i < |r| && i != at && Parent(i) != at ensures Edge(r, i) {
      assert Edge(k, i);
    }
    forall i | 0 < i < |r| && at > 0 && Parent(i) == at && at < |r| ensures r[Parent(at)] <= r[i] {
      assert Edge(k, i) && Edge(k, at);
    }
  }

  /** At the root, or below a parent that is not larger, nothing is left in doubt. */
  lemma Settled(k: seq<int>, at: nat)
    requires at < |k| && OrderedBelow(k, at) && (at > 0 ==> Edge(k, at))
    ensures Ordered(k)
  {
  }

  lemma NoKeys(k: seq<int>)
    requires k == []
    ensures Ordered(k)
  {
  }

  lemma NoSmallerChild(k: seq<int>, at: nat)
    requires at < |k| && OrderedAround(k, at) && Smallest(k, at) == at
    ensures OrderedBelow(k, at)
  {
    forall i | 0 < i < |k| && i != at ensures Edge(k, i) {
      if Parent(i) != at {
        assert OrderedAround(k, at);
      }
    }
  }

  lemma StillBelow(k: seq<int>, at: nat, p: nat)
    requires at < p < |k| && p > 0 && Parent(p) == at && OrderedBelow(k, p) && Edge(k, p) && (at > 0 ==> Edge(k, at))
    ensures OrderedBelow(k, at)
  {
    Settled(k, p);
    forall i | 0 < i < |k| && at > 0 && Parent(i) == at ensures k[Parent(at)] <= k[i] {
      assert Edge(k, i) && Edge(k, at);
    }
  }
}
