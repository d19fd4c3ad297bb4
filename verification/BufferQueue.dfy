/** The buffer of a lambda node: the heap of common/sync/heap/heap.go over the chunk queue of
    lambda/storage/chunk_queue.go, whose chunks know their own position, and the operations of
    lambda/storage/lineage_storage.go that keep a size counter beside it and evict from it. */
module BufferQueue {
  import opened Common

  /** An unsigned 64-bit number. */
  type Size = x: nat | x < 0x1_0000_0000_0000_0000

  function Increase(size: Size, delta: Size): Size {
    (size + delta) % 0x1_0000_0000_0000_0000
  }

  function Decrease(size: Size, delta: Size): Size {
    (size - delta) % 0x1_0000_0000_0000_0000
  }

  function Wrapped(n: int): Size {
    n % 0x1_0000_0000_0000_0000
  }

  lemma WrapIncrease(n: int, k: Size)
    ensures Increase(Wrapped(n), k) == Wrapped(n + k)
  {
  }

  lemma WrapDecrease(n: int, k: Size)
    ensures Decrease(Wrapped(n), k) == Wrapped(n - k)
  {
  }

  const TO_BE_BUFFERED: int := -1   // CHUNK_TOBEBUFFERED

  class Chunk {
    const key: string
    const size: Size
    var accessed: int
    var buffIdx: int    // position in the queue plus one; zero or negative if never queued

    constructor (key: string, size: Size, buffIdx: int)
      ensures this.key == key && this.size == size && this.buffIdx == buffIdx
    {
      this.key, this.size, this.accessed, this.buffIdx := key, size, 0, buffIdx;
    }

    predicate IsBuffered(includeToBe: bool)
      reads this
    {
      buffIdx > 0 || (includeToBe && buffIdx == TO_BE_BUFFERED)
    }
  }

  // ----- sums and swaps -----

  function Sum(s: seq<Chunk>): nat {
    if |s| == 0 then 0 else s[0].size + Sum(s[1..])
  }

  lemma {:induction false} SumUpdate(s: seq<Chunk>, i: nat, c: Chunk)
    requires i < |s|
    ensures Sum(s[i := c]) == Sum(s) - s[i].size + c.size
  {
    if i == 0 {
      assert s[i := c][1..] == s[1..];
    } else {
      SumUpdate(s[1..], i - 1, c);
      assert s[i := c][1..] == s[1..][i - 1 := c];
    }
  }

  lemma {:induction false} SumSnoc(s: seq<Chunk>, c: Chunk)
    ensures Sum(s + [c]) == Sum(s) + c.size
  {
    if |s| == 0 {
      assert (s + [c])[1..] == [];
    } else {
      SumSnoc(s[1..], c);
      assert (s + [c])[1..] == s[1..] + [c];
    }
  }

  lemma ExchangedSame(s: seq<Chunk>, i: nat, j: nat)
    requires i < |s| && j < |s|
    ensures Same(s, Exchanged(s, i, j))
  {
    ExchangedSum(s, i, j);
    hide Sum;
    SameByMultiset(s, Exchanged(s, i, j));
  }

  lemma ExchangedSum(s: seq<Chunk>, i: nat, j: nat)
    requires i < |s| && j < |s|
    ensures Sum(Exchanged(s, i, j)) == Sum(s)
  {
    SumUpdate(s, i, s[j]);
    SumUpdate(s[i := s[j]], j, s[i]);
    hide Sum;
  }

  /** The same chunks, in some order. */
  ghost predicate Same(s: seq<Chunk>, t: seq<Chunk>) {
    && |s| == |t| && multiset(s) == multiset(t) && Sum(s) == Sum(t)
    && (forall i :: 0 <= i < |s| ==> s[i] in t) && (forall i :: 0 <= i < |t| ==> t[i] in s)
  }

  lemma SameByMultiset(s: seq<Chunk>, t: seq<Chunk>)
    requires multiset(s) == multiset(t) && Sum(s) == Sum(t)
    ensures Same(s, t)
  {
    assert |s| == |multiset(s)| == |multiset(t)| == |t|;
    forall i | 0 <= i < |s|
      ensures s[i] in t
    {
      assert s[i] in multiset(s);
    }
    forall i | 0 <= i < |t|
      ensures t[i] in s
    {
      assert t[i] in multiset(t);
    }
  }

  // ----- the queue -----

  /** What Less answers for two chunks: it tests the sign of the difference of unsigned sizes. */
  predicate Less(lru: bool, sizeA: Size, accessedA: int, sizeB: Size, accessedB: int) {
    var diff := Decrease(sizeA, sizeB);
    if diff != 0 then lru == (diff > 0) else accessedA < accessedB
  }

  lemma DifferenceIsPositive(a: Size, b: Size)
    ensures Decrease(a, b) == 0 <==> a == b
  {
  }

  /** An unsigned difference is positive whenever the sizes differ. So on the queue of the buffer, where lru is set,
      two chunks precede each other exactly when their sizes differ: it is no order on chunks of different sizes, and
      no claim here rests on one. */
  lemma LessBothWaysIff(lru: bool, sizeA: Size, accessedA: int, sizeB: Size, accessedB: int)
    ensures (Less(lru, sizeA, accessedA, sizeB, accessedB) && Less(lru, sizeB, accessedB, sizeA, accessedA)) <==>
      (lru && sizeA != sizeB)
  {
    DifferenceIsPositive(sizeA, sizeB);
    DifferenceIsPositive(sizeB, sizeA);
  }

  // ----- the order of the heap, as long as Less is one -----

  ghost predicate EqualSizes(s: seq<Chunk>) {
    forall i, j :: 0 <= i < |s| && 0 <= j < |s| ==> s[i].size == s[j].size
  }

  function Parent(k: nat): nat
    requires k > 0
  {
    (k - 1) / 2
  }

  /** The k-th element is not in front of its parent. */
  ghost predicate Follows(a: seq<int>, k: nat)
    requires 0 < k < |a|
  {
    a[Parent(k)] <= a[k]
  }

  /** The first n elements are in heap order, as far as parents from lo on are concerned. */
  ghost predicate Heap(a: seq<int>, lo: nat, n: nat) {
    n <= |a| && forall k :: 0 < k < n && Parent(k) >= lo ==> Follows(a, k)
  }

  /** In heap order but for the i-th element, which may be out of order with its parent and its children. */
  ghost predicate HeapBut(a: seq<int>, lo: nat, n: nat, i: nat) {
    && n <= |a|
    && (forall k :: 0 < k < n && Parent(k) >= lo && Parent(k) != i && k != i ==> Follows(a, k))
    && (forall k :: 0 < k < n && Parent(k) == i && i > 0 && Parent(i) >= lo ==> a[Parent(i)] <= a[k])
  }

  /** Its children follow it. */
  ghost predicate Leads(a: seq<int>, n: nat, i: nat) {
    n <= |a| && forall k :: 0 < k < n && Parent(k) == i ==> Follows(a, k)
  }

  /** It follows its parent, as far as that counts. */
  ghost predicate Placed(a: seq<int>, lo: nat, i: nat) {
    i < |a| && (i > 0 && Parent(i) >= lo ==> Follows(a, i))
  }

  lemma HeapWhole(a: seq<int>, lo: nat, n: nat, i: nat)
    requires HeapBut(a, lo, n, i) && Leads(a, n, i) && (i < n ==> Placed(a, lo, i))
    ensures Heap(a, lo, n)
  {
  }

  lemma HeapHasBut(a: seq<int>, lo: nat, n: nat, i: nat)
    requires Heap(a, lo, n)
    ensures HeapBut(a, lo, n, i)
  {
    forall k | 0 < k < n && Parent(k) == i && i > 0 && Parent(i) >= lo
      ensures a[Parent(i)] <= a[k]
    {
      assert Follows(a, k) && Follows(a, i);
    }
  }

  /** The j-th element is the first of the children of the i-th, and in front of that. */
  ghost predicate SmallestChild(a: seq<int>, n: nat, i: nat, j: nat) {
    && n <= |a| && i < |a| && j < |a| && a[j] < a[i]
    && forall k :: 0 < k < n && Parent(k) == i ==> a[j] <= a[k]
  }

  /** A new value at one position spoils the order there only. */
  lemma HeapUpdated(a: seq<int>, i: nat, value: int)
    requires i < |a| && Heap(a, 0, |a|)
    ensures HeapBut(a[i := value], 0, |a|, i)
  {
    HeapHasBut(a, 0, |a|, i);
    var b := a[i := value];
    forall k | 0 < k < |a| && Parent(k) != i && k != i
      ensures Follows(b, k)
    {
      assert Follows(a, k);
    }
  }

  /** An element behind its smaller child trades places with it. */
  lemma SiftDown(a: seq<int>, lo: nat, n: nat, i: nat, j: nat)
    requires HeapBut(a, lo, n, i) && 0 < j < n && Parent(j) == i && i >= lo && SmallestChild(a, n, i, j)
    ensures var b := Exchanged(a, i, j); HeapBut(b, lo, n, j) && Placed(b, lo, i) && Placed(b, lo, j)
  {
    var b := Exchanged(a, i, j);
    forall k | 0 < k < n && Parent(k) >= lo && Parent(k) != j && k != j
      ensures Follows(b, k)
    {
      if Parent(k) == i {
        assert b[i] == a[j] && b[k] == a[k];
      } else if k == i {
        assert b[i] == a[j] && b[Parent(i)] == a[Parent(i)];
      } else {
        assert Follows(a, k) && b[k] == a[k] && b[Parent(k)] == a[Parent(k)];
      }
    }
    forall k | 0 < k < n && Parent(k) == j
      ensures b[Parent(j)] <= b[k]
    {
      assert Follows(a, k) && b[k] == a[k];
    }
  }

  /** An element in front of its parent trades places with it. */
  lemma SiftUp(a: seq<int>, n: nat, j: nat)
    requires HeapBut(a, 0, n, j) && Leads(a, n, j) && 0 < j < n && a[j] < a[Parent(j)]
    ensures HeapBut(Exchanged(a, Parent(j), j), 0, n, Parent(j)) && Leads(Exchanged(a, Parent(j), j), n, Parent(j))
  {
    var i := Parent(j);
    var b := Exchanged(a, i, j);
    forall k | 0 < k < n && Parent(k) == i
      ensures Follows(b, k) && (i > 0 ==> b[Parent(i)] <= b[k])
    {
      assert k != j ==> Follows(a, k);
      assert i > 0 ==> Follows(a, i);
    }
    forall k | 0 < k < n && Parent(k) != i && k != i
      ensures Follows(b, k)
    {
      if Parent(k) != j {
        assert Follows(a, k);
      }
    }
  }

  /** The root of a heap comes first. */
  lemma {:induction false} RootFirst(a: seq<int>, n: nat, k: nat)
    requires Heap(a, 0, n) && k < n
    ensures a[0] <= a[k]
  {
    if k > 0 {
      assert Follows(a, k);
      RootFirst(a, n, Parent(k));
    }
  }

  /** When the chunks were accessed, in the order of the queue. */
  ghost function Times(s: seq<Chunk>): (times: seq<int>)
    reads s`accessed
    ensures |times| == |s| && forall i :: 0 <= i < |s| ==> times[i] == s[i].accessed
  {
    if |s| == 0 then [] else Times(s[..|s| - 1]) + [s[|s| - 1].accessed]
  }

  /** Chunks of one size, in heap order of their last access. */
  ghost predicate InOrder(s: seq<Chunk>)
    reads s`accessed
  {
    EqualSizes(s) && Heap(Times(s), 0, |s|)
  }

  /** Chunks of one size, in order but for one of them. */
  ghost predicate OutOfOrderAt(s: seq<Chunk>, i: nat)
    reads s`accessed
  {
    EqualSizes(s) && HeapBut(Times(s), 0, |s|, i)
  }

  /** On the queue of the buffer no other order is possible: if no chunk precedes its parent, all sizes are equal. */
  lemma {:induction false} OrderNeedsEqualSizes(s: seq<Chunk>, k: nat)
    requires k < |s|
    requires forall j :: 0 < j < |s| ==>
      !Less(true, s[j].size, s[j].accessed, s[Parent(j)].size, s[Parent(j)].accessed)
    ensures s[k].size == s[0].size
  {
    if k > 0 {
      DifferenceIsPositive(s[k].size, s[Parent(k)].size);
      assert !Less(true, s[k].size, s[k].accessed, s[Parent(k)].size, s[Parent(k)].accessed);
      OrderNeedsEqualSizes(s, Parent(k));
    }
  }

  class ChunkQueue {
    var queue: seq<Chunk>
    const lru: bool

    constructor (lru: bool)
      ensures Valid() && queue == []
    {
      queue := [];
      this.lru := lru;
    }

    /** Every chunk knows its position. */
    ghost predicate Valid()
      reads this, queue
    {
      forall i :: 0 <= i < |queue| ==> queue[i].buffIdx == i + 1
    }

    method IsLess(i: nat, j: nat) returns (r: bool)
      requires i < |queue| && j < |queue|
      ensures r <==> Less(lru, queue[i].size, queue[i].accessed, queue[j].size, queue[j].accessed)
      ensures EqualSizes(queue) ==> (r <==> Times(queue)[i] < Times(queue)[j])
    {
      r := Less(lru, queue[i].size, queue[i].accessed, queue[j].size, queue[j].accessed);
    }

    method Swap(i: nat, j: nat)
      requires Valid() && i < |queue| && j < |queue|
      modifies this`queue, queue`buffIdx
      ensures Valid() && queue == Exchanged(old(queue), i, j) && Same(old(queue), queue)
      ensures Times(queue) == Exchanged(old(Times(queue)), i, j) && (EqualSizes(old(queue)) ==> EqualSizes(queue))
    {
      hide Times, Same;
      queue[i].buffIdx, queue[j].buffIdx := queue[j].buffIdx, queue[i].buffIdx;
      ExchangedSame(queue, i, j);
      queue := Exchanged(queue, i, j);
    }

    /** Moves the element at j towards the root. If that is the only thing wrong with the order of the first n
        elements, they are in heap order then. */
    method Up(start: nat, ghost n: nat)
      requires Valid() && start < n <= |queue|
      modifies this`queue, queue`buffIdx
      ensures Valid() && Same(old(queue), queue)
      ensures forall k :: start < k < |queue| ==> queue[k] == old(queue[k])
      ensures EqualSizes(old(queue)) && old(HeapBut(Times(queue), 0, n, start) && Leads(Times(queue), n, start)) ==>
        EqualSizes(queue) && Heap(Times(queue), 0, n)
    {
      hide Times, Same, EqualSizes, HeapBut, Leads, Heap, Exchanged;
      SameRefl(queue);
      ghost var was := queue;
      ghost var fits := EqualSizes(queue) && HeapBut(Times(queue), 0, n, start) && Leads(Times(queue), n, start);
      var j: nat := start;
      while true
        invariant Valid() && j <= start < n <= |queue| == |was| && Same(was, queue)
        invariant forall k :: start < k < |queue| ==> queue[k] == was[k]
        invariant forall k :: 0 <= k < |queue| ==> queue[k] in was
        invariant fits ==> EqualSizes(queue) && HeapBut(Times(queue), 0, n, j) && Leads(Times(queue), n, j)
        decreases j
      {
        var i: nat := if j == 0 then 0 else (j - 1) / 2;
        if i == j {
          break;
        }
        var less := IsLess(j, i);
        if !less {
          break;
        }
        ghost var before, times := queue, Times(queue);
        assert i == Parent(j);
        Swap(i, j);
        SwappedBehind(before, i, j, start);
        SameTrans(was, before, queue);
        if fits {
          SiftUp(times, n, j);
        }
        j := i;
      }
      if fits {
        assert Placed(Times(queue), 0, j);
        HeapWhole(Times(queue), 0, n, j);
      }
    }

    /** The child of i to compare with, among the first n. */
    method Child(i: nat, n: nat) returns (j: nat)
      requires 2 * i + 1 < n <= |queue|
      ensures i < j < n && Parent(j) == i
      ensures EqualSizes(queue) ==> forall k :: 0 < k < n && Parent(k) == i ==> Times(queue)[j] <= Times(queue)[k]
    {
      hide Times, EqualSizes;
      j := 2 * i + 1;
      assert forall k: nat :: 0 < k && Parent(k) == i ==> k == j || k == j + 1;
      if j + 1 < n {
        var right := IsLess(j + 1, j);
        if right {
          j := j + 1;
        }
      }
    }

    /** Whether that child precedes i. */
    method Smaller(i: nat, n: nat) returns (j: nat, less: bool)
      requires 2 * i + 1 < n <= |queue|
      ensures i < j < n && Parent(j) == i
      ensures EqualSizes(queue) ==>
        if less then SmallestChild(Times(queue), n, i, j) else Leads(Times(queue), n, i)
    {
      hide Times, EqualSizes, Leads;
      j := Child(i, n);
      less := IsLess(j, i);
      if EqualSizes(queue) && !less {
        LeadsAll(Times(queue), n, i, j);
      }
    }

    /** Moves the element at i0 away from the root, within the first n. If it is the only thing wrong with their
        order, from parents lo on, then the order is right below it, and everywhere if it has moved. */
    method Down(i0: nat, n: nat, ghost lo: nat) returns (moved: bool)
      requires Valid() && n <= |queue| && lo <= i0
      modifies this`queue, queue`buffIdx
      ensures Valid() && Same(old(queue), queue)
      ensures forall k :: n <= k < |queue| ==> queue[k] == old(queue[k])
      ensures EqualSizes(old(queue)) ==> EqualSizes(queue)
      ensures EqualSizes(old(queue)) && old(HeapBut(Times(queue), lo, n, i0)) ==>
        if moved then Heap(Times(queue), lo, n) else queue == old(queue) && Leads(Times(queue), n, i0)
    {
      hide Times, Same, EqualSizes, HeapBut, Leads, Heap, Exchanged, Placed, SmallestChild;
      SameRefl(queue);
      ghost var was := queue;
      ghost var fits := EqualSizes(queue) && HeapBut(Times(queue), lo, n, i0);
      var i: nat := i0;
      while true
        invariant Valid() && n <= |queue| == |was| && Same(was, queue) && i0 <= i
        invariant forall k :: n <= k < |queue| ==> queue[k] == was[k]
        invariant forall k :: 0 <= k < |queue| ==> queue[k] in was
        invariant EqualSizes(was) ==> EqualSizes(queue)
        invariant if i == i0 then queue == was else i < n
        invariant fits ==> HeapBut(Times(queue), lo, n, i) && (i > i0 ==> Placed(Times(queue), lo, i))
        decreases n - i
      {
        if 2 * i + 1 >= n {
          NoChildren(Times(queue), n, i);
          break;
        }
        var j, less := Smaller(i, n);
        if !less {
          break;
        }
        ghost var before, times := queue, Times(queue);
        Swap(i, j);
        SwappedWithin(before, i, j, n);
        SameTrans(was, before, queue);
        if fits {
          SiftDown(times, lo, n, i, j);
        }
        i := j;
      }
      moved := i > i0;
      if fits && moved {
        HeapWhole(Times(queue), lo, n, i);
      }
    }

    method Append(x: Chunk)
      requires Valid() && x !in queue
      modifies this`queue, x`buffIdx
      ensures Valid() && queue == old(queue) + [x]
      ensures Times(queue) == old(Times(queue)) + [x.accessed]
    {
      hide Times;
      x.buffIdx := |queue| + 1;
      queue := queue + [x];
    }

    method TakeLast() returns (x: Chunk)
      requires Valid() && |queue| > 0
      modifies this`queue
      ensures Valid() && old(queue) == queue + [x] && x !in queue
      ensures Times(queue) == old(Times(queue))[..|queue|] && (EqualSizes(old(queue)) ==> EqualSizes(queue))
    {
      hide Times;
      x := queue[|queue| - 1];
      queue := queue[..|queue| - 1];
    }

    method Push(x: Chunk)
      requires Valid() && x !in queue
      modifies this`queue, queue`buffIdx, x`buffIdx
      ensures Valid() && Same(old(queue) + [x], queue)
      ensures old(InOrder(queue)) && EqualSizes(old(queue) + [x]) ==> InOrder(queue)
    {
      hide Times, Same, EqualSizes, HeapBut, Leads, Heap;
      ghost var times := Times(queue);
      Append(x);
      if Heap(times, 0, |times|) {
        HeapAppend(times, x.accessed);
      }
      ghost var appended := queue;
      Up(|queue| - 1, |queue|);
      SameMembers(appended, queue);
    }

    /** The top leaves; of chunks in order that is one accessed before all others. */
    method Pop() returns (x: Chunk)
      requires Valid() && |queue| > 0
      modifies this`queue, queue`buffIdx
      ensures Valid() && x == old(queue[0]) && x !in queue && Same(old(queue), queue + [x])
      ensures old(InOrder(queue)) ==> InOrder(queue) && forall k :: 0 <= k < |queue| ==> x.accessed <= queue[k].accessed
    {
      hide Times, Same, EqualSizes, HeapBut, Leads, Heap;
      ghost var was, ordered := queue, InOrder(queue);
      TopToEnd();
      SameMembers(was, queue);
      ghost var settled := Times(queue);
      x := TakeLast();
      assert forall k :: 0 <= k < |queue| ==> queue[k] == (queue + [x])[k];
      if ordered {
        HeapPart(settled, |queue|);
        TopIsFirst(was, queue);
      }
    }

    method TopToEnd()
      requires Valid() && |queue| > 0
      modifies this`queue, queue`buffIdx
      ensures Valid() && Same(old(queue), queue) && |queue| == old(|queue|) && queue[|queue| - 1] == old(queue[0])
      ensures old(InOrder(queue)) ==> EqualSizes(queue) && Heap(Times(queue), 0, |queue| - 1)
    {
      hide Times, Same, EqualSizes, HeapBut, Leads, Heap;
      ghost var was, times, ordered := queue, Times(queue), InOrder(queue);
      var n := |queue| - 1;
      if ordered {
        HeapSwapLast(times, 0);
      }
      Swap(0, n);
      ghost var swapped := queue;
      assert swapped[n] == was[0];
      SameMembers(was, swapped);
      var moved := Down(0, n, 0);
      SameTrans(was, swapped, queue);
      if ordered && !moved {
        HeapTop(Times(queue), 0, n);
      }
    }

    /** Down, or up if that does not move it. */
    method Settle(i: nat, n: nat)
      requires Valid() && i < n <= |queue|
      modifies this`queue, queue`buffIdx
      ensures Valid() && Same(old(queue), queue) && forall k :: n <= k < |queue| ==> queue[k] == old(queue[k])
      ensures EqualSizes(old(queue)) && old(HeapBut(Times(queue), 0, n, i)) ==>
        EqualSizes(queue) && Heap(Times(queue), 0, n)
    {
      hide Times, Same, EqualSizes, HeapBut, Leads, Heap;
      ghost var was := queue;
      var moved := Down(i, n, 0);
      SameMembers(was, queue);
      if !moved {
        ghost var before := queue;
        Up(i, n);
        SameTrans(was, before, queue);
      }
    }

    /** Removes the element at a position, whatever Less says. */
    method Remove(i: nat) returns (x: Chunk)
      requires Valid() && i < |queue|
      modifies this`queue, queue`buffIdx
      ensures Valid() && x == old(queue[i]) && x !in queue && Same(old(queue), queue + [x])
      ensures old(InOrder(queue)) ==> InOrder(queue)
    {
      hide Times, Same, EqualSizes, HeapBut, Leads, Heap;
      ghost var was := queue;
      SameRefl(queue);
      var n := |queue| - 1;
      if n != i {
        MoveToEnd(i);
        SameMembers(was, queue);
      } else if Heap(Times(queue), 0, n + 1) {
        HeapShorter(Times(queue), n);
      }
      ghost var times := Times(queue);
      x := TakeLast();
      if Heap(times, 0, n) {
        HeapPart(times, n);
      }
    }

    method MoveToEnd(i: nat)
      requires Valid() && i < |queue| - 1
      modifies this`queue, queue`buffIdx
      ensures Valid() && Same(old(queue), queue) && |queue| == old(|queue|) && queue[|queue| - 1] == old(queue[i])
      ensures old(InOrder(queue)) ==> EqualSizes(queue) && Heap(Times(queue), 0, |queue| - 1)
    {
      hide Times, Same, EqualSizes, HeapBut, Leads, Heap;
      ghost var was, times := queue, Times(queue);
      if Heap(times, 0, |times|) {
        HeapSwapLast(times, i);
      }
      Swap(i, |queue| - 1);
      ghost var swapped := queue;
      assert swapped[|was| - 1] == was[i];
      SameMembers(was, swapped);
      Settle(i, |queue| - 1);
      SameTrans(was, swapped, queue);
    }

    /** Restores the order after the access time of one chunk has changed. */
    method Fix(i: nat)
      requires Valid() && i < |queue|
      modifies this`queue, queue`buffIdx
      ensures Valid() && Same(old(queue), queue)
      ensures old(OutOfOrderAt(queue, i)) ==> InOrder(queue)
    {
      hide Times, Same, EqualSizes, HeapBut, Heap;
      ghost var was := queue;
      Settle(i, |queue|);
      SameMembers(was, queue);
    }

    /** The order extends to one more parent. */
    method Sink(i: nat)
      requires Valid() && i < |queue|
      modifies this`queue, queue`buffIdx
      ensures Valid() && Same(old(queue), queue) && |queue| == |old(queue)|
      ensures EqualSizes(old(queue)) && old(Heap(Times(queue), i + 1, |queue|)) ==>
        EqualSizes(queue) && Heap(Times(queue), i, |queue|)
    {
      hide Times, Same, EqualSizes, HeapBut, Leads, Heap;
      ghost var was, fits := queue, EqualSizes(queue) && Heap(Times(queue), i + 1, |queue|);
      if fits {
        HeapFrom(Times(queue), i, |queue|);
      }
      var moved := Down(i, |queue|, i);
      SameMembers(was, queue);
      if fits && !moved {
        HeapTop(Times(queue), i, |queue|);
      }
    }

    method Init()
      requires Valid()
      modifies this`queue, queue`buffIdx
      ensures Valid() && Same(old(queue), queue)
      ensures EqualSizes(old(queue)) ==> InOrder(queue)
    {
      hide Times, Same, EqualSizes, HeapBut, Leads, Heap;
      SameRefl(queue);
      ghost var was := queue;
      var i := |queue| / 2 - 1;
      HeapLeaves(Times(queue));
      while i >= 0
        invariant -1 <= i < |queue| && Valid() && Same(was, queue) && |queue| == |was|
        invariant forall k :: 0 <= k < |queue| ==> queue[k] in was
        invariant EqualSizes(was) ==> EqualSizes(queue) && Heap(Times(queue), i + 1, |queue|)
      {
        ghost var before := queue;
        Sink(i);
        SameTrans(was, before, queue);
        i := i - 1;
      }
    }
  }

  /** An exchange leaves everything behind a position alone. */
  lemma SwappedBehind(s: seq<Chunk>, i: nat, j: nat, start: nat)
    requires i < |s| && j < |s| && i <= start && j <= start
    ensures forall k :: start < k < |s| ==> Exchanged(s, i, j)[k] == s[k]
  {
  }

  lemma SwappedWithin(s: seq<Chunk>, i: nat, j: nat, n: nat)
    requires i < n <= |s| && j < n
    ensures forall k :: n <= k < |s| ==> Exchanged(s, i, j)[k] == s[k]
  {
  }

  lemma NoChildren(a: seq<int>, n: nat, i: nat)
    requires 2 * i + 1 >= n && n <= |a|
    ensures Leads(a, n, i)
  {
  }

  lemma LeadsAll(a: seq<int>, n: nat, i: nat, j: nat)
    requires n <= |a| && i < |a| && j < |a| && a[i] <= a[j]
    requires forall k :: 0 < k < n && Parent(k) == i ==> a[j] <= a[k]
    ensures Leads(a, n, i)
  {
  }

  lemma HeapAppend(a: seq<int>, x: int)
    requires Heap(a, 0, |a|)
    ensures HeapBut(a + [x], 0, |a| + 1, |a|) && Leads(a + [x], |a| + 1, |a|)
  {
    forall k | 0 < k < |a|
      ensures Follows(a + [x], k)
    {
      assert Follows(a, k);
    }
  }

  lemma HeapShorter(a: seq<int>, n: nat)
    requires Heap(a, 0, n + 1)
    ensures Heap(a, 0, n)
  {
  }

  /** The last element takes the place of another. */
  lemma HeapSwapLast(a: seq<int>, i: nat)
    requires i < |a| && Heap(a, 0, |a|)
    ensures HeapBut(Exchanged(a, i, |a| - 1), 0, |a| - 1, i)
  {
    HeapHasBut(a, 0, |a|, i);
    var b := Exchanged(a, i, |a| - 1);
    forall k | 0 < k < |a| - 1 && Parent(k) != i && k != i
      ensures Follows(b, k)
    {
      assert Follows(a, k);
    }
  }

  lemma HeapPart(a: seq<int>, n: nat)
    requires Heap(a, 0, n)
    ensures Heap(a[..n], 0, n)
  {
    forall k | 0 < k < n
      ensures Follows(a[..n], k)
    {
      assert Follows(a, k);
    }
  }

  lemma HeapLeaves(a: seq<int>)
    ensures Heap(a, |a| / 2, |a|)
  {
  }

  lemma HeapFrom(a: seq<int>, i: nat, n: nat)
    requires Heap(a, i + 1, n)
    ensures HeapBut(a, i, n, i)
  {
  }

  lemma HeapTop(a: seq<int>, i: nat, n: nat)
    requires HeapBut(a, i, n, i) && Leads(a, n, i)
    ensures Heap(a, i, n)
  {
  }

  /** Chunks of a heap were accessed after its top. */
  lemma TopIsFirst(s: seq<Chunk>, t: seq<Chunk>)
    requires |s| > 0 && Heap(Times(s), 0, |s|) && forall k :: 0 <= k < |t| ==> t[k] in s
    ensures forall k :: 0 <= k < |t| ==> s[0].accessed <= t[k].accessed
  {
    hide Times, Heap;
    forall k | 0 <= k < |t|
      ensures s[0].accessed <= t[k].accessed
    {
      var j :| 0 <= j < |s| && s[j] == t[k];
      RootFirst(Times(s), |s|, j);
    }
  }

  lemma SameMembers(s: seq<Chunk>, t: seq<Chunk>)
    requires Same(s, t)
    ensures |s| == |t| && forall k :: 0 <= k < |t| ==> t[k] in s
  {
  }

  lemma SameRefl(s: seq<Chunk>)
    ensures Same(s, s)
  {
  }

  lemma SameTrans(s: seq<Chunk>, t: seq<Chunk>, u: seq<Chunk>)
    requires Same(s, t) && Same(t, u)
    ensures Same(s, u) && |u| == |s| && forall k :: 0 <= k < |u| ==> u[k] in s
  {
  }

  // ----- the buffer beside the queue -----

  /** A key names one queued chunk. */
  ghost predicate KeysNameChunks(s: seq<Chunk>) {
    forall i, j :: 0 <= i < |s| && 0 <= j < |s| && s[i].key == s[j].key ==> s[i] == s[j]
  }

  /** Whatever is queued under the key of the chunk is the chunk. */
  ghost predicate Named(s: seq<Chunk>, c: Chunk) {
    forall i :: 0 <= i < |s| && s[i].key == c.key ==> s[i] == c
  }

  lemma KeysPart(s: seq<Chunk>, t: seq<Chunk>)
    requires KeysNameChunks(s) && forall k :: 0 <= k < |t| ==> t[k] in s
    ensures KeysNameChunks(t)
  {
  }

  lemma SameSum(s: seq<Chunk>, t: seq<Chunk>, x: Chunk)
    requires Same(s, t + [x])
    ensures Sum(s) == Sum(t) + x.size && |s| == |t| + 1 && forall k :: 0 <= k < |t| ==> t[k] in s
  {
    SumSnoc(t, x);
    assert forall k :: 0 <= k < |t| ==> t[k] == (t + [x])[k];
  }

  lemma SameAppend(s: seq<Chunk>, t: seq<Chunk>, u: seq<Chunk>)
    requires Same(s, t)
    ensures Same(s + u, t + u)
  {
    SumAppend(s, u);
    SumAppend(t, u);
    hide Sum;
    assert multiset(s + u) == multiset(s) + multiset(u) == multiset(t + u);
    SameByMultiset(s + u, t + u);
  }

  lemma {:induction false} SumAppend(s: seq<Chunk>, t: seq<Chunk>)
    ensures Sum(s + t) == Sum(s) + Sum(t)
  {
    if |s| == 0 {
      assert s + t == t;
    } else {
      SumAppend(s[1..], t);
      assert (s + t)[1..] == s[1..] + t;
    }
  }

  /** The common element cancels. */
  lemma SameCancel(s: seq<Chunk>, t: seq<Chunk>, x: Chunk)
    requires Same(s + [x], t + [x])
    ensures Same(s, t)
  {
    SumSnoc(s, x);
    SumSnoc(t, x);
    hide Sum;
    assert multiset(s + [x]) == multiset(s) + multiset{x} && multiset(t + [x]) == multiset(t) + multiset{x};
    assert multiset(s) == multiset(s + [x]) - multiset{x};
    assert multiset(t) == multiset(t + [x]) - multiset{x};
    SameByMultiset(s, t);
  }

  lemma SameMoved(s: seq<Chunk>, t: seq<Chunk>, x: Chunk, u: seq<Chunk>)
    requires Same(s, (t + [x]) + u)
    ensures Same(s, t + ([x] + u)) && Same(s, (t + u) + [x])
  {
    assert (t + [x]) + u == t + ([x] + u);
    SumAppend(t + [x], u);
    SumAppend(t, u);
    SumSnoc(t, x);
    SumSnoc(t + u, x);
    hide Sum;
    assert multiset((t + u) + [x]) == multiset(t) + multiset(u) + multiset{x} == multiset((t + [x]) + u);
    SameByMultiset(s, (t + u) + [x]);
  }

  class Buffer {
    const queue: ChunkQueue
    var bufferSize: Size    // size of the queued chunks
    var metaSize: Size      // size of everything stored
    var effective: Size     // storage that may be used

    /** The counter of the buffer is the sum of the queued sizes, modulo the width of the counter. */
    ghost predicate Valid()
      reads this, queue, queue.queue
    {
      queue.Valid() && bufferSize == Wrapped(Sum(queue.queue)) && KeysNameChunks(queue.queue)
    }

    constructor (effective: Size)
      ensures Valid() && queue.queue == [] && metaSize == 0 && fresh(queue) && this.effective == effective
    {
      queue := new ChunkQueue(true);
      bufferSize, metaSize, this.effective := 0, 0, effective;
    }

    method BufferAdd(chunk: Chunk)
      requires Valid() && chunk !in queue.queue && Named(queue.queue, chunk)
      modifies this`bufferSize, queue`queue, queue.queue`buffIdx, chunk`buffIdx
      ensures Valid() && Same(old(queue.queue) + [chunk], queue.queue)
      ensures old(InOrder(queue.queue)) && EqualSizes(old(queue.queue) + [chunk]) ==> InOrder(queue.queue)
    {
      hide Same, Wrapped, Sum, InOrder, EqualSizes;
      ghost var was := queue.queue;
      queue.Push(chunk);
      AddedKeys(was, chunk, queue.queue);
      WrapIncrease(Sum(was), chunk.size);
      bufferSize := Increase(bufferSize, chunk.size);
    }

    /** Removes the chunk queued at the position the chunk remembers, if that has its key. The counter stays right
        exactly when what was removed has the size of the chunk; if keys name chunks, the chunk is removed exactly
        when it is queued. */
    method BufferRemove(chunk: Chunk) returns (ghost hit: bool)
      requires Valid() && chunk.IsBuffered(false)
      modifies this`bufferSize, queue`queue, queue.queue`buffIdx
      ensures hit <==> old(chunk.buffIdx <= |queue.queue| && queue.queue[chunk.buffIdx - 1].key == chunk.key)
      ensures queue.Valid() && KeysNameChunks(queue.queue)
      ensures hit ==> Same(old(queue.queue), queue.queue + [old(queue.queue[chunk.buffIdx - 1])])
      ensures !hit ==> Valid() && queue.queue == old(queue.queue) && bufferSize == old(bufferSize)
      ensures hit ==> (Valid() <==> old(queue.queue[chunk.buffIdx - 1].size) == chunk.size)
      ensures Named(old(queue.queue), chunk) ==> Valid() && (hit <==> chunk in old(queue.queue))
      ensures Named(old(queue.queue), chunk) && hit ==>
        Same(old(queue.queue), queue.queue + [chunk]) && chunk !in queue.queue
      ensures old(InOrder(queue.queue)) ==> InOrder(queue.queue)
    {
      hide Same, Wrapped, Sum, InOrder;
      ghost var was := queue.queue;
      var i := chunk.buffIdx - 1;
      hit := i < |queue.queue| && queue.queue[i].key == chunk.key;
      if i >= |queue.queue| || queue.queue[i].key != chunk.key {
        return;
      }
      var x := queue.Remove(i);
      SameSum(was, queue.queue, x);
      KeysPart(was, queue.queue);
      RemovedSize(Sum(was), x.size, chunk.size);
      WrapDecrease(Sum(was), chunk.size);
      bufferSize := Decrease(bufferSize, chunk.size);
    }

    /** Restores the order after a chunk that is queued has been accessed. */
    method BufferFix(chunk: Chunk)
      requires Valid() && chunk.IsBuffered(false)
      modifies queue`queue, queue.queue`buffIdx
      ensures Valid() && Same(old(queue.queue), queue.queue)
      ensures chunk in old(queue.queue) && old(OutOfOrderAt(queue.queue, chunk.buffIdx - 1)) ==> InOrder(queue.queue)
    {
      hide Same, Wrapped, Sum, InOrder, OutOfOrderAt;
      ghost var was := queue.queue;
      SameRefl(was);
      var i := chunk.buffIdx - 1;
      if i >= |queue.queue| || queue.queue[i].key != chunk.key {
        return;
      }
      queue.Fix(i);
      SameFacts(was, queue.queue);
      KeysPart(was, queue.queue);
    }

    /** Evicts the top of the queue: it leaves the buffer and its counter. */
    method EvictTop() returns (x: Chunk)
      requires Valid() && bufferSize > 0
      modifies this`bufferSize, queue`queue, queue.queue`buffIdx
      ensures Valid() && x !in queue.queue && Same(old(queue.queue), queue.queue + [x])
      ensures |queue.queue| < old(|queue.queue|)
      ensures old(InOrder(queue.queue)) ==> InOrder(queue.queue) && EvictedFirst([x], queue.queue)
    {
      EmptySum();
      hide Same, Wrapped, Sum, InOrder;
      ghost var was := queue.queue;
      x := queue.Pop();
      SameSum(was, queue.queue, x);
      KeysPart(was, queue.queue);
      WrapDecrease(Sum(was), x.size);
      bufferSize := Decrease(bufferSize, x.size);
    }

    /** validate: makes room for a chunk by evicting from the buffer. If the chunk has to go itself, it does not fit
        and nothing of it is kept; otherwise the eviction ends with room made or the buffer empty. Nothing is evicted
        while there is room. The storage counter moves by exactly what was kept and evicted, and no chunk is lost or
        doubled. */
    method Validate(test: Chunk) returns (fit: bool, ghost evicted: seq<Chunk>)
      requires Valid() && test !in queue.queue
      requires test.IsBuffered(true) ==> Named(queue.queue, test)
      modifies this`bufferSize, this`metaSize, queue`queue, queue.queue`buffIdx, test`buffIdx
      ensures Valid() && test !in evicted && (test in queue.queue <==> fit && old(test.IsBuffered(true)))
      ensures Same(old(queue.queue) + (if fit && old(test.IsBuffered(true)) then [test] else []), queue.queue + evicted)
      ensures metaSize == Wrapped(old(metaSize) + (if fit then test.size else 0) - Sum(evicted))
      ensures fit ==> metaSize < effective || bufferSize == 0
      ensures !fit ==> old(test.IsBuffered(true)) && Wrapped(metaSize + test.size) >= effective
      ensures Wrapped(old(metaSize) + test.size) < effective ==> fit && evicted == []
      ensures ForWantOfRoom(old(metaSize) + test.size, evicted, fit, effective)
      ensures old(InOrder(queue.queue)) && (old(test.IsBuffered(true)) ==> EqualSizes(old(queue.queue) + [test])) ==>
        InOrder(queue.queue) && EvictedFirst(evicted + (if fit then [] else [test]), queue.queue)
    {
      hide Same, Wrapped, Sum, KeysNameChunks, Named, ForWantOfRoom, InOrder, EqualSizes, EvictedFirst;
      ghost var was := queue.queue;
      var toBeBuffered := test.IsBuffered(true);
      AddIf(test, toBeBuffered);
      ghost var start, total := queue.queue, metaSize + test.size;
      metaSize := IncreaseTo(metaSize, test.size);
      fit, evicted := MakeRoom(test);
      Balance(was, test, toBeBuffered, start, queue.queue, evicted, fit);
      WrapTwice(total, Sum(evicted));
      RoomWrapped(total, evicted, fit, effective);
      RoomBefore(total, evicted, fit, effective);
      if !fit {
        WrapDecrease(total - Sum(evicted), test.size);
        WrapBack(total - Sum(evicted), test.size);
        metaSize := Decrease(metaSize, test.size);
      }
    }

    method AddIf(test: Chunk, toBeBuffered: bool)
      requires Valid() && test !in queue.queue
      requires toBeBuffered ==> Named(queue.queue, test)
      modifies this`bufferSize, queue`queue, queue.queue`buffIdx, test`buffIdx
      ensures Valid() && Same(old(queue.queue) + (if toBeBuffered then [test] else []), queue.queue)
      ensures test in queue.queue <==> toBeBuffered
      ensures forall k :: 0 <= k < |queue.queue| ==> queue.queue[k] in old(queue.queue) || queue.queue[k] == test
      ensures old(InOrder(queue.queue)) && (toBeBuffered ==> EqualSizes(old(queue.queue) + [test])) ==>
        InOrder(queue.queue)
    {
      hide Same, Wrapped, Sum, KeysNameChunks, Named, InOrder, EqualSizes;
      ghost var was := queue.queue;
      SameRefl(was);
      assert was + [] == was;
      if toBeBuffered {
        BufferAdd(test);
        SameBack(was + [test], queue.queue);
        SameFacts(was + [test], queue.queue);
        assert (was + [test])[|was|] == test;
      }
    }

    /** The eviction loop. */
    method MakeRoom(test: Chunk) returns (fit: bool, ghost evicted: seq<Chunk>)
      requires Valid()
      modifies this`bufferSize, this`metaSize, queue`queue, queue.queue`buffIdx
      ensures Valid() && test !in evicted
      ensures Same(old(queue.queue), queue.queue + evicted + (if fit then [] else [test]))
      ensures metaSize == Wrapped(old(metaSize) - Sum(evicted))
      ensures fit ==> metaSize < effective || bufferSize == 0
      ensures !fit ==> test in old(queue.queue)
      ensures ForWantOfRoom(old(metaSize), evicted, fit, effective)
      ensures old(InOrder(queue.queue)) ==>
        InOrder(queue.queue) && EvictedFirst(evicted + (if fit then [] else [test]), queue.queue)
      ensures test in queue.queue <==> fit && test in old(queue.queue)
    {
      hide Same, Wrapped, Sum, KeysNameChunks, Named, InOrder, EvictedFirst;
      ghost var start, base := queue.queue, metaSize;
      NoneFirst(start);
      SameRefl(start);
      SumNothing();
      WrapSmall(base);
      assert ForWantOfRoom(base, [], true, effective);
      hide ForWantOfRoom;
      assert start + [] == start;
      evicted, fit := [], true;
      var size := metaSize;
      while size >= effective && bufferSize > 0
        invariant Valid() && Same(start, queue.queue + evicted) && test !in evicted && fit
        invariant size == metaSize == Wrapped(base - Sum(evicted))
        invariant forall k :: 0 <= k < |queue.queue| ==> queue.queue[k] in start
        invariant test in start ==> test in queue.queue
        invariant ForWantOfRoom(base, evicted, true, effective)
        invariant old(InOrder(queue.queue)) ==> InOrder(queue.queue) && EvictedFirst(evicted, queue.queue)
        decreases |queue.queue|
      {
        ghost var before := queue.queue;
        StillNoRoom(base, evicted, effective);
        var x := EvictTop();
        SameStep(start, before, evicted, queue.queue, x);
        if old(InOrder(queue.queue)) {
          OneMoreFirst(before, evicted, queue.queue, x);
        }
        if x == test {
          fit := false;
          return;
        }
        WrapDecrease(base - Sum(evicted), x.size);
        metaSize := Decrease(metaSize, x.size);
        OneMoreOut(base, evicted, x, effective);
        evicted := [x] + evicted;
        size := metaSize;
      }
      assert queue.queue + evicted + [] == queue.queue + evicted && evicted + [] == evicted;
    }
  }

  /** Whoever was evicted had been accessed before all that are left. */
  ghost predicate EvictedFirst(evicted: seq<Chunk>, left: seq<Chunk>)
    reads evicted`accessed, left`accessed
  {
    forall i, k :: 0 <= i < |evicted| && 0 <= k < |left| ==> evicted[i].accessed <= left[k].accessed
  }

  lemma NoneFirst(left: seq<Chunk>)
    ensures EvictedFirst([], left)
  {
  }

  lemma OneMoreFirst(before: seq<Chunk>, evicted: seq<Chunk>, left: seq<Chunk>, x: Chunk)
    requires EvictedFirst(evicted, before) && EvictedFirst([x], left) && Same(before, left + [x])
    ensures EvictedFirst([x] + evicted, left) && EvictedFirst(evicted + [x], left)
  {
    assert [x][0] == x;
    forall k | 0 <= k < |left|
      ensures left[k] in before && x.accessed <= left[k].accessed
    {
      assert (left + [x])[k] == left[k];
    }
  }

  /** The storage counter after evictions, total having been stored. */
  ghost function After(total: nat, evicted: seq<Chunk>): Size {
    Wrapped(total - Sum(evicted))
  }

  /** Every eviction, and the refusal of the chunk itself, came at a moment without room: the storage counter was
      still over the limit after the evictions before it. The last evicted comes first. */
  ghost predicate ForWantOfRoom(total: nat, evicted: seq<Chunk>, fit: bool, effective: Size) {
    forall k :: (if fit then 1 else 0) <= k <= |evicted| ==> After(total, evicted[k..]) >= effective
  }

  lemma OneMoreOut(total: nat, evicted: seq<Chunk>, x: Chunk, effective: Size)
    requires ForWantOfRoom(total, evicted, true, effective) && After(total, evicted) >= effective
    ensures ForWantOfRoom(total, [x] + evicted, true, effective)
  {
    hide After;
    forall k | 1 <= k <= |evicted| + 1
      ensures After(total, ([x] + evicted)[k..]) >= effective
    {
      assert ([x] + evicted)[k..] == evicted[k - 1..];
      assert k == 1 ==> evicted[k - 1..] == evicted;
    }
  }

  lemma StillNoRoom(total: nat, evicted: seq<Chunk>, effective: Size)
    requires ForWantOfRoom(total, evicted, true, effective)
    ensures After(total, evicted) >= effective ==> ForWantOfRoom(total, evicted, false, effective)
  {
    hide After;
    assert evicted[0..] == evicted;
  }

  lemma AfterWrapped(total: nat, evicted: seq<Chunk>)
    ensures After(Wrapped(total), evicted) == After(total, evicted)
  {
    WrapTwice(total, Sum(evicted));
    hide Wrapped, Sum;
  }

  lemma AfterNothing(total: nat)
    ensures After(total, []) == Wrapped(total)
  {
  }

  lemma RoomWrapped(total: nat, evicted: seq<Chunk>, fit: bool, effective: Size)
    requires ForWantOfRoom(Wrapped(total), evicted, fit, effective)
    ensures ForWantOfRoom(total, evicted, fit, effective)
  {
    hide After, Wrapped;
    forall k | (if fit then 1 else 0) <= k <= |evicted|
      ensures After(total, evicted[k..]) >= effective
    {
      AfterWrapped(total, evicted[k..]);
    }
  }

  /** With room for the chunk from the start nothing is evicted. */
  lemma RoomBefore(total: nat, evicted: seq<Chunk>, fit: bool, effective: Size)
    requires ForWantOfRoom(total, evicted, fit, effective)
    ensures Wrapped(total) < effective ==> fit && evicted == []
    ensures !fit ==> After(total, evicted) >= effective
  {
    AfterNothing(total);
    hide After, Wrapped;
    assert evicted[|evicted|..] == [] && evicted[0..] == evicted;
    if !fit || evicted != [] {
      assert After(total, evicted[|evicted|..]) >= effective;
    }
  }

  lemma Balance(was: seq<Chunk>, test: Chunk, buffered: bool, start: seq<Chunk>, now: seq<Chunk>, evicted: seq<Chunk>,
                fit: bool)
    requires Same(was + (if buffered then [test] else []), start)
    requires Same(start, now + evicted + (if fit then [] else [test])) && (!fit ==> buffered)
    ensures Same(was + (if fit && buffered then [test] else []), now + evicted)
  {
    hide Same;
    assert was + [] == was && now + evicted + [] == now + evicted;
    if fit {
      SameTrans(was + (if buffered then [test] else []), start, now + evicted);
    } else {
      SameTrans(was + [test], start, now + evicted + [test]);
      SameCancel(was, now + evicted, test);
    }
  }

  lemma WrapSmall(n: Size)
    ensures Wrapped(n) == n
  {
  }

  lemma WrapTwice(total: nat, k: nat)
    ensures Wrapped(Wrapped(total) - k) == Wrapped(total - k)
  {
  }

  lemma WrapBack(n: int, k: nat)
    ensures Wrapped(Wrapped(n - k) + k) == Wrapped(n)
  {
  }

  function IncreaseTo(a: Size, b: Size): (r: Size)
    ensures r == Wrapped(a + b)
  {
    Increase(a, b)
  }

  lemma EmptySum()
    ensures Wrapped(Sum([])) == 0
  {
  }

  lemma SumNothing()
    ensures Sum([]) == 0
  {
  }

  lemma SameBack(s: seq<Chunk>, t: seq<Chunk>)
    requires Same(s, t)
    ensures forall k :: 0 <= k < |s| ==> s[k] in t
  {
  }

  /** One eviction: what was queued and evicted before is what is queued and evicted now. */
  lemma SameStep(start: seq<Chunk>, before: seq<Chunk>, evicted: seq<Chunk>, now: seq<Chunk>, x: Chunk)
    requires Same(start, before + evicted) && Same(before, now + [x])
    ensures Same(start, now + ([x] + evicted)) && Same(start, (now + evicted) + [x])
    ensures Sum([x] + evicted) == x.size + Sum(evicted)
    ensures forall k :: 0 <= k < |now| ==> now[k] in start
    ensures (forall k :: 0 <= k < |before| && before[k] != x ==> before[k] in now) && x in start
  {
    SameAppend(before, now + [x], evicted);
    SameTrans(start, before + evicted, (now + [x]) + evicted);
    SameMoved(start, now, x, evicted);
    assert ([x] + evicted)[1..] == evicted;
    var all := now + ([x] + evicted);
    assert all[|now|] == x;
    assert forall k :: 0 <= k < |now| ==> all[k] == now[k];
  }

  lemma SameFacts(s: seq<Chunk>, t: seq<Chunk>)
    requires Same(s, t)
    ensures Sum(s) == Sum(t) && |s| == |t| && forall k :: 0 <= k < |t| ==> t[k] in s
  {
  }

  lemma AddedKeys(was: seq<Chunk>, c: Chunk, now: seq<Chunk>)
    requires KeysNameChunks(was) && Named(was, c) && Same(was + [c], now)
    ensures KeysNameChunks(now) && Sum(now) == Sum(was) + c.size
  {
    SumSnoc(was, c);
    assert KeysNameChunks(was + [c]);
    KeysPart(was + [c], now);
  }

  lemma RemovedSize(sum: nat, removed: Size, said: Size)
    ensures Wrapped(sum - said) == Wrapped(sum - removed) <==> removed == said
  {
  }
}
