/** The binary heap behind the k-way merge, over a growable array. */
module MinHeaps {
  import opened Wrappers

  /** A comparator that orders all values, as sorting code expects of it. */
  ghost predicate Lawful<T(!new)>(compare: (T, T) -> int) {
    (forall a, b :: compare(a, b) <= 0 || compare(b, a) <= 0) &&
    (forall a, b :: compare(a, b) < 0 <==> !(compare(b, a) <= 0)) &&
    (forall a, b, c :: compare(a, b) <= 0 && compare(b, c) <= 0 ==> compare(a, c) <= 0)
  }

  function Parent(i: int): int
    requires i > 0
  {
    (i - 1) / 2
  }

  /** Every item but possibly the one at `hole` is at least its parent. */
  ghost predicate HeapAbove<T>(compare: (T, T) -> int, s: seq<T>, hole: int) {
    forall i :: 0 < i < |s| && i != hole ==> compare(s[Parent(i)], s[i]) <= 0
  }

  /** Every item whose parent is not `hole` is at least its parent. */
  ghost predicate HeapBelow<T>(compare: (T, T) -> int, s: seq<T>, hole: int) {
    forall i :: 0 < i < |s| && Parent(i) != hole ==> compare(s[Parent(i)], s[i]) <= 0
  }

  /** The children of `hole` are at least its parent. */
  ghost predicate Bridged<T>(compare: (T, T) -> int, s: seq<T>, hole: int) {
    forall i :: 0 < i < |s| && Parent(i) == hole && hole > 0 ==> compare(s[Parent(hole)], s[i]) <= 0
  }

  ghost predicate IsHeap<T>(compare: (T, T) -> int, s: seq<T>) {
    HeapAbove(compare, s, -1)
  }

  /** The root of a heap is a least item. */
  lemma {:induction false} RootIsLeast<T(!new)>(compare: (T, T) -> int, s: seq<T>, i: nat)
    requires Lawful(compare) && IsHeap(compare, s) && i < |s|
    ensures compare(s[0], s[i]) <= 0
  {
    if i > 0 {
      RootIsLeast(compare, s, Parent(i));
    }
  }

  lemma Transitive<T(!new)>(compare: (T, T) -> int, a: T, b: T, c: T)
    requires Lawful(compare) && compare(a, b) <= 0 && compare(b, c) <= 0
    ensures compare(a, c) <= 0
  {
  }

  function Swap<T>(s: seq<T>, i: nat, j: nat): (r: seq<T>)
    requires i < |s| && j < |s|
    ensures |r| == |s| && r[i] == s[j] && r[j] == s[i]
    ensures forall k :: 0 <= k < |s| && k != i && k != j ==> r[k] == s[k]
    ensures multiset(r) == multiset(s)
  {
    s[i := s[j]][j := s[i]]
  }

  /** An item smaller than its parent trades places with it; the hole moves up. */
  lemma SwapUp<T(!new)>(compare: (T, T) -> int, s: seq<T>, i: nat)
    requires Lawful(compare) && 0 < i < |s| && compare(s[i], s[Parent(i)]) < 0
    requires HeapAbove(compare, s, i) && Bridged(compare, s, i)
    ensures HeapAbove(compare, Swap(s, Parent(i), i), Parent(i)) && Bridged(compare, Swap(s, Parent(i), i), Parent(i))
  {
    var p := Parent(i);
    var r := Swap(s, p, i);
    forall j | 0 < j < |r| && j != p
      ensures compare(r[Parent(j)], r[j]) <= 0
    {
      if Parent(j) == p && j != i {
        Transitive(compare, s[i], s[p], s[j]);
      }
    }
    forall j | 0 < j < |r| && Parent(j) == p && p > 0
      ensures compare(r[Parent(p)], r[j]) <= 0
    {
      if j != i {
        Transitive(compare, s[Parent(p)], s[p], s[j]);
      }
    }
  }

  /** An item larger than its least child trades places with it; the hole moves down. */
  lemma SwapDown<T(!new)>(compare: (T, T) -> int, s: seq<T>, i: nat, c: nat)
    requires Lawful(compare) && 0 < c < |s| && Parent(c) == i && compare(s[c], s[i]) < 0
    requires forall j :: 0 < j < |s| && Parent(j) == i ==> compare(s[c], s[j]) <= 0
    requires HeapBelow(compare, s, i) && Bridged(compare, s, i)
    ensures HeapBelow(compare, Swap(s, i, c), c) && Bridged(compare, Swap(s, i, c), c)
  {
    var r := Swap(s, i, c);
    forall j | 0 < j < |r| && Parent(j) != c
      ensures compare(r[Parent(j)], r[j]) <= 0
    {
    }
    forall j | 0 < j < |r| && Parent(j) == c
      ensures compare(r[Parent(c)], r[j]) <= 0
    {
      assert compare(s[Parent(j)], s[j]) <= 0;
    }
  }

  /** What the two comparisons of `bubbleDown` leave in `smallest`. */
  lemma LeastOfThree<T(!new)>(compare: (T, T) -> int, s: seq<T>, i: nat, smallest: nat)
    requires Lawful(compare) && i < |s| && smallest < |s|
    requires var l, r := 2 * i + 1, 2 * i + 2;
      var first := if l < |s| && compare(s[l], s[i]) < 0 then l else i;
      smallest == if r < |s| && compare(s[r], s[first]) < 0 then r else first
    ensures forall j :: 0 < j < |s| && Parent(j) == i ==> compare(s[smallest], s[j]) <= 0
    ensures smallest != i ==> Parent(smallest) == i && compare(s[smallest], s[i]) < 0
  {
    var l, r := 2 * i + 1, 2 * i + 2;
    forall j | 0 < j < |s| && Parent(j) == i
      ensures compare(s[smallest], s[j]) <= 0
    {
      assert j == l || j == r;
      assert compare(s[smallest], s[smallest]) <= 0;
    }
  }

  class MinHeap<T(!new)> {
    const compare: (T, T) -> int
    var heap: seq<T>

    ghost predicate Valid()
      reads this
    {
      Lawful(compare) && IsHeap(compare, heap)
    }

    constructor (comparator: (T, T) -> int)
      requires Lawful(comparator)
      ensures Valid() && heap == [] && compare == comparator
    {
      heap, compare := [], comparator;
    }

    method Insert(item: T)
      requires Valid()
      modifies this
      ensures Valid() && multiset(heap) == multiset(old(heap)) + multiset{item}
    {
      heap := heap + [item];
      BubbleUp(|heap| - 1);
    }

    method ExtractMin() returns (min: Option<T>)
      requires Valid()
      modifies this
      ensures Valid()
      ensures min == None <==> old(heap) == []
      ensures min == None ==> heap == []
      ensures min.Some? ==> min.value == old(heap)[0] && multiset(old(heap)) == multiset(heap) + multiset{min.value}
    {
      if |heap| == 0 { return None; }
      ghost var before := heap;
      var last := heap[|heap| - 1];
      if |heap| == 1 {
        heap := [];
        assert before == [last];
        return Some(last);
      }
      min := Some(heap[0]);
      heap := heap[..|heap| - 1];
      assert before == heap + [last];
      heap := heap[0 := last];
      BubbleDown(0);
    }

    method Peek() returns (r: Option<T>)
      requires Valid()
      ensures r == if heap == [] then None else Some(heap[0])
    {
      r := if |heap| == 0 then None else Some(heap[0]);
    }

    method BubbleUp(start: nat)
      requires Lawful(compare) && start < |heap|
      requires HeapAbove(compare, heap, start) && Bridged(compare, heap, start)
      modifies this
      ensures Valid() && multiset(heap) == multiset(old(heap))
    {
      var index := start;
      while index > 0
        invariant index < |heap| == |old(heap)|
        invariant HeapAbove(compare, heap, index) && Bridged(compare, heap, index)
        invariant multiset(heap) == multiset(old(heap))
      {
        var parentIndex := (index - 1) / 2;
        var parent, current := heap[parentIndex], heap[index];
        if compare(current, parent) >= 0 {
          break;
        }
        SwapUp(compare, heap, index);
        heap := Swap(heap, parentIndex, index);
        index := parentIndex;
      }
    }

    method BubbleDown(start: nat)
      requires Lawful(compare) && start < |heap|
      requires HeapBelow(compare, heap, start) && Bridged(compare, heap, start)
      modifies this
      ensures Valid() && multiset(heap) == multiset(old(heap))
    {
      var index, length := start, |heap|;
      while true
        invariant index < |heap| == length
        invariant HeapBelow(compare, heap, index) && Bridged(compare, heap, index)
        invariant multiset(heap) == multiset(old(heap))
        decreases length - index
      {
        var leftChild, rightChild := 2 * index + 1, 2 * index + 2;
        var smallest := index;
        if leftChild < length && compare(heap[leftChild], heap[smallest]) < 0 {
          smallest := leftChild;
        }
        if rightChild < length && compare(heap[rightChild], heap[smallest]) < 0 {
          smallest := rightChild;
        }
        LeastOfThree(compare, heap, index, smallest);
        if smallest == index {
          break;
        }
        SwapDown(compare, heap, index, smallest);
        heap := Swap(heap, index, smallest);
        index := smallest;
      }
    }
  }
}
