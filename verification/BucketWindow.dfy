/** The bucket list behind the client's sliding window, common/redeo/client/wnd.go: a singly linked list of
    fixed-size buckets that is extended at the tail, consumed at the head and recycled. Numbers are counted in units
    of SeqStep from the start of the window. Each method is one lock-protected section; AddRequest is two of them
    because it drops the lock while it extends the list. */
module BucketWindow {

  const BUCKET_SIZE := 20

  datatype Slot<R> = Empty | Filled(request: R, acked: bool)

  datatype Error = ErrAcked | ErrNotSent | ErrNotSeen

  datatype Lookup<R> = Found(request: R) | Failed(error: Error)

  /** The numbers acked so far form exactly the prefix 1..frontier, as far as it is unbroken. */
  ghost predicate IsFrontier(acks: set<nat>, frontier: nat) {
    && (forall n: nat :: 1 <= n <= frontier ==> n in acks)
    && frontier + 1 !in acks
  }

  /** The frontier depends on which numbers are acked only, not on the order they came in. */
  lemma FrontierUnique(acks: set<nat>, f: nat, g: nat)
    requires IsFrontier(acks, f) && IsFrontier(acks, g)
    ensures f == g
  {
    assert f < g ==> 1 <= f + 1 <= g;
    assert g < f ==> 1 <= g + 1 <= f;
  }

  /** The senders notified while the frontier moves from lo to hi: whoever has a slot exactly size numbers ahead, in
      order. */
  ghost function Notified(lo: nat, hi: nat, size: nat, stored: set<nat>): seq<nat>
    decreases hi
  {
    if hi <= lo then []
    else Notified(lo, hi - 1, size, stored) + (if hi + size in stored then [hi + size] else [])
  }

  /** The senders released by a move of the frontier from lo to hi: exactly those with a slot whose place became
      free, in the order of their numbers. */
  ghost predicate ReleasesExactly(released: seq<nat>, lo: nat, hi: nat, size: nat, stored: set<nat>) {
    && (forall n: nat :: n in released <==> n in stored && lo + size < n <= hi + size)
    && (forall i, j :: 0 <= i < j < |released| ==> released[i] < released[j])
  }

  lemma {:induction false} NotifiedExactly(lo: nat, hi: nat, size: nat, stored: set<nat>)
    requires lo <= hi
    ensures ReleasesExactly(Notified(lo, hi, size, stored), lo, hi, size, stored)
    decreases hi
  {
    if lo < hi {
      NotifiedExactly(lo, hi - 1, size, stored);
      var before := Notified(lo, hi - 1, size, stored);
      assert forall i :: 0 <= i < |before| ==> before[i] in before;
    }
  }

  class ReqBucket<R> {
    var first: nat              // number of the first slot
    var acks: nat               // counters kept by the source for Reset
    var filled: nat
    var requests: seq<Slot<R>>  // BUCKET_SIZE of them
    var next: ReqBucket?<R>
    var refs: int               // pins held by senders that dropped the lock while walking

    constructor (first: nat)
      ensures this.first == first && next == null && |requests| == BUCKET_SIZE
      ensures forall j :: 0 <= j < BUCKET_SIZE ==> requests[j] == Empty
    {
      this.first, acks, filled, next, refs := first, 0, 0, null, 0;
      requests := seq(BUCKET_SIZE, _ => Empty);
    }

    method Reset()
      modifies `refs, `acks, `filled, `requests
      ensures refs == 0 && acks == 0 && filled == 0 && |requests| == old(|requests|)
      ensures old(acks < filled) ==> forall j :: 0 <= j < |requests| ==> requests[j] == Empty
      ensures !old(acks < filled) ==> requests == old(requests)
    {
      if acks < filled {
        var j := 0;
        while j < |requests|
          invariant 0 <= j <= |requests| == old(|requests|)
          invariant forall k :: 0 <= k < j ==> requests[k] == Empty
        {
          requests := requests[j := Empty];
          j := j + 1;
        }
      }
      refs, acks, filled := 0, 0, 0;
    }
  }

  class Window<R> {
    const size: nat
    var last: nat               // wnd.seq
    var acked: nat              // wnd.acked
    var top: ReqBucket<R>
    var active: ReqBucket<R>
    var tail: ReqBucket<R>

    ghost var chain: seq<ReqBucket<R>>  // the list from top to tail
    ghost var at: nat                   // position of active in it
    ghost var sent: map<nat, R>         // every request ever stored, by its number
    ghost var acks: set<nat>            // every number ever acked

    ghost function Members(): set<ReqBucket<R>>
      reads `chain
    {
      set b | b in chain
    }

    ghost predicate Linked()
      reads `chain, `top, `active, `tail, `at, chain`next
    {
      && |chain| > 0 && top == chain[0] && tail == chain[|chain| - 1] && tail.next == null
      && at < |chain| && active == chain[at]
      && (forall i {:trigger chain[i].next} :: 0 <= i < |chain| - 1 ==> chain[i].next == chain[i + 1])
      && (forall i, j :: 0 <= i < j < |chain| ==> chain[i] != chain[j])
    }

    /** The buckets cover consecutive ranges of numbers. */
    ghost predicate Contiguous()
      reads `chain, chain`first, chain`requests
    {
      forall i :: 0 <= i < |chain| ==> chain[i].first == chain[0].first + 20 * i && |chain[i].requests| == BUCKET_SIZE
    }

    ghost predicate InBucket(n: nat, bucket: ReqBucket<R>, k: int)
      reads `chain, bucket`first
    {
      0 <= k < |chain| && chain[k] == bucket && bucket.first <= n < bucket.first + BUCKET_SIZE
    }

    /** What the plain map says about number n: stored and not yet retired. */
    ghost function SlotOf(n: nat): Slot<R>
      reads `sent, `acks, `acked
    {
      if n in sent && n > acked then Filled(sent[n], n in acks) else Empty
    }

    /** Every slot of every bucket holds exactly what the plain map says. */
    ghost predicate Refines()
      reads `chain, `sent, `acks, `acked, chain`first, chain`requests
      requires Contiguous()
    {
      forall i, j :: 0 <= i < |chain| && 0 <= j < BUCKET_SIZE ==> chain[i].requests[j] == SlotOf(chain[i].first + j)
    }

    /** All numbers are within reach of the list, and active lies at or below the frontier. */
    ghost predicate Bounded()
      reads `last, `acked, `active, `tail, `sent, `acks, active`first, tail`first
    {
      && acked <= last && active.first <= acked + 1
      && (forall n: nat :: n in sent ==> 1 <= n <= last && n < tail.first + BUCKET_SIZE)
      && acks <= sent.Keys
    }

    ghost predicate Consistent()
      reads this, chain, active, tail
    {
      && Linked() && Contiguous() && Refines() && Bounded()
      && (forall n: nat :: 1 <= n <= acked ==> n in acks)
    }

    ghost predicate Valid()
      reads this, chain, active, tail
    {
      Consistent() && IsFrontier(acks, acked)
    }

    constructor (size: nat)
      ensures Valid() && fresh(chain)
      ensures this.size == size && last == 0 && acked == 0 && sent == map[] && acks == {}
    {
      this.size, last, acked := size, 0, 0;
      var b := new ReqBucket<R>(1);
      top, active, tail := b, b, b;
      chain, at, sent, acks := [b], 0, map[], {};
    }

    /** Walks the list for the bucket of n. */
    method Seek(n: nat, from: ReqBucket<R>, ghost k0: nat) returns (bucket: ReqBucket?<R>, ghost k: nat)
      requires Linked() && Contiguous() && k0 < |chain| && chain[k0] == from && from.first <= n
      ensures bucket == null ==> n >= tail.first + BUCKET_SIZE
      ensures bucket != null ==> InBucket(n, bucket, k)
    {
      bucket, k := from, k0;
      while bucket != null && n - bucket.first >= BUCKET_SIZE
        invariant bucket == null ==> n >= tail.first + BUCKET_SIZE
        invariant bucket != null ==> k0 <= k < |chain| && chain[k] == bucket && bucket.first <= n
        decreases if bucket == null then 0 else |chain| - k
      {
        bucket, k := bucket.next, k + 1;
      }
    }

    /** First half of AddRequest: takes the next number. */
    method TakeNumber() returns (n: nat)
      requires Valid()
      modifies `last
      ensures Valid() && n == last == old(last) + 1 && n !in sent
    {
      last := last + 1;
      n := last;
    }

    method AppendBucket()
      requires Valid()
      modifies `tail, `chain, tail`next
      ensures Valid() && fresh(tail) && chain == old(chain) + [tail]
    {
      var b := new ReqBucket<R>(tail.first + BUCKET_SIZE);
      tail.next := b;
      tail := b;
      chain := chain + [b];
      assert forall i :: 0 <= i < |chain| - 1 ==> chain[i] == old(chain)[i];
      forall i, j | 0 <= i < |chain| && 0 <= j < BUCKET_SIZE
        ensures chain[i].requests[j] == SlotOf(chain[i].first + j)
      {
        assert i < |chain| - 1 || chain[i] == b;
      }
    }

    /** The bucket after the given one; the list grows if it was the tail. */
    method NextForSet(bucket: ReqBucket<R>, ghost k: nat) returns (next: ReqBucket<R>)
      requires Valid() && k < |chain| && chain[k] == bucket
      modifies `tail, `chain, tail`next
      ensures Valid() && k + 1 < |chain| && chain[k + 1] == next
      ensures chain == old(chain) || (fresh(next) && chain == old(chain) + [next])
    {
      if bucket.next == null {
        assert k == |chain| - 1;
        AppendBucket();
        next := tail;
      } else {
        next := bucket.next;
      }
    }

    /** Second half of AddRequest: finds the slot of n, extending the list as needed, and fills it. */
    method Store(n: nat, request: R)
      requires Valid() && acked < n <= last && n !in sent
      modifies `tail, `chain, `sent, chain
      ensures Valid() && sent == old(sent)[n := request]
      ensures forall b :: b in chain ==> b in old(chain) || fresh(b)
    {
      // The source spins while active lies beyond n; the bound on active rules that out.
      assert active.first <= n;
      var bucket: ReqBucket<R> := active;
      ghost var k: nat := at;
      while n - bucket.first >= BUCKET_SIZE
        invariant Valid() && k < |chain| && chain[k] == bucket && bucket.first <= n
        invariant forall b :: b in chain ==> b in old(chain) || fresh(b)
        invariant sent == old(sent) && acked == old(acked) && last == old(last)
        decreases n - bucket.first
      {
        assert tail in chain;
        bucket := NextForSet(bucket, k);
        k := k + 1;
      }
      assert bucket in chain;
      Fill(n, request, bucket, k);
    }

    method Fill(n: nat, request: R, bucket: ReqBucket<R>, ghost k: nat)
      requires Valid() && acked < n <= last && n !in sent
      requires InBucket(n, bucket, k)
      modifies `sent, bucket`filled, bucket`requests
      ensures Valid() && sent == old(sent)[n := request]
    {
      bucket.requests := bucket.requests[n - bucket.first := Filled(request, false)];
      bucket.filled := bucket.filled + 1;
      sent := sent[n := request];
      forall i, j | 0 <= i < |chain| && 0 <= j < BUCKET_SIZE
        ensures chain[i].requests[j] == SlotOf(chain[i].first + j)
      {
        assert i != k ==> chain[i].first + j != n;
        assert i != k ==> chain[i].requests == old(chain[i].requests);
      }
    }

    /** Locates the slot of n as findRequestMetaRLocked does; waiting holds the numbers whose senders are still
        blocked. */
    method Find(n: nat, waiting: set<nat>) returns (bucket: ReqBucket?<R>, ghost k: nat, r: Lookup<R>)
      requires Valid()
      ensures n <= acked ==> r == Failed(ErrAcked)
      ensures n > last ==> r == Failed(ErrNotSent)
      ensures acked < n <= last && n !in sent ==> r == Failed(ErrNotSeen)
      ensures acked < n <= last && n in sent ==> r == if n in waiting then Failed(ErrNotSent) else Found(sent[n])
      ensures r.Found? ==> bucket != null && InBucket(n, bucket, k)
    {
      bucket, k := null, 0;
      if n <= acked {
        r := Failed(ErrAcked);
      } else if n > last {
        r := Failed(ErrNotSent);
      } else {
        bucket, k := Seek(n, active, at);
        if bucket == null {
          r := Failed(ErrNotSeen);
        } else {
          var slot := bucket.requests[n - bucket.first];
          assert slot == SlotOf(chain[k].first + (n - bucket.first)) == SlotOf(n);
          r := if slot.Empty? then Failed(ErrNotSeen)
               else if n in waiting then Failed(ErrNotSent)
               else Found(slot.request);
        }
      }
    }

    /** Lookup returns exactly the request that was stored under the number. */
    method MatchRequest(n: nat, waiting: set<nat>) returns (r: Lookup<R>)
      requires Valid()
      ensures r.Found? <==> acked < n <= last && n in sent && n !in waiting
      ensures r.Found? ==> r.request == sent[n]
    {
      var _, _, found := Find(n, waiting);
      r := found;
    }

    method Mark(n: nat, bucket: ReqBucket<R>, ghost k: nat)
      requires Consistent() && acked < n && n in sent
      requires InBucket(n, bucket, k)
      modifies `acks, bucket`acks, bucket`requests
      ensures Consistent() && acks == old(acks) + {n}
    {
      var j := n - bucket.first;
      assert bucket.requests[j] == SlotOf(chain[k].first + j);
      bucket.requests := bucket.requests[j := bucket.requests[j].(acked := true)];
      bucket.acks := bucket.acks + 1;
      acks := acks + {n};
      forall i, l | 0 <= i < |chain| && 0 <= l < BUCKET_SIZE
        ensures chain[i].requests[l] == SlotOf(chain[i].first + l)
      {
        assert i != k ==> chain[i].first + l != n;
        assert i != k ==> chain[i].requests == old(chain[i].requests);
      }
    }

    /** Moves the frontier to n and empties its slot. */
    method Retire(n: nat, bucket: ReqBucket<R>, ghost k: nat)
      requires Consistent() && n == acked + 1 && n in acks
      requires InBucket(n, bucket, k)
      modifies `acked, bucket`requests
      ensures Consistent() && acked == n
    {
      acked := n;
      bucket.requests := bucket.requests[n - bucket.first := Empty];
      forall i, j | 0 <= i < |chain| && 0 <= j < BUCKET_SIZE
        ensures chain[i].requests[j] == SlotOf(chain[i].first + j)
      {
        assert i != k ==> chain[i].first + j != n;
        assert i != k ==> chain[i].requests == old(chain[i].requests);
      }
    }

    /** Whether number n has a filled slot, seen from a bucket at or before its own. */
    method IsStored(n: nat, from: ReqBucket<R>, ghost k0: nat) returns (yes: bool)
      requires Consistent() && acked < n && k0 < |chain| && chain[k0] == from && from.first <= n
      ensures yes <==> n in sent
    {
      var bucket, k := Seek(n, from, k0);
      yes := false;
      if bucket != null {
        assert bucket.requests[n - bucket.first] == SlotOf(chain[k].first + (n - bucket.first));
        yes := bucket.requests[n - bucket.first].Filled?;
      }
    }

    /** The bucket of number m if m is stored and acked, null otherwise. */
    method AckedBucket(m: nat, from: ReqBucket<R>, ghost k0: nat) returns (bucket: ReqBucket?<R>, ghost k: nat)
      requires Consistent() && acked < m && k0 < |chain| && chain[k0] == from && from.first <= m
      ensures bucket != null <==> m in acks
      ensures bucket != null ==> InBucket(m, bucket, k)
    {
      if m > last {
        return null, 0;
      }
      bucket, k := Seek(m, from, k0);
      if bucket != null {
        var slot := bucket.requests[m - bucket.first];
        assert slot == SlotOf(chain[k].first + (m - bucket.first));
        if slot.Empty? || !slot.acked {
          bucket := null;
        }
      }
    }

    /** The loop of AckRequest: carries the frontier from n over every acked number that follows, notifying on the
        way whoever stands size numbers ahead. */
    method Advance(n: nat, from: ReqBucket<R>, ghost k0: nat) returns (released: seq<nat>)
      requires Consistent() && size > 0 && n in acks && acked < n
      requires acked + 1 in acks ==> n == acked + 1
      requires InBucket(n, from, k0)
      modifies `acked, chain`requests
      ensures Valid() && acked >= old(acked)
      ensures ReleasesExactly(released, old(acked), acked, size, sent.Keys)
    {
      hide Refines, Contiguous, Linked;
      released := [];
      var m: nat, bucket: ReqBucket?<R> := n, from;
      ghost var k: nat := k0;
      while bucket != null && m == acked + 1
        invariant Consistent() && old(acked) <= acked < m
        invariant bucket != null ==> m in acks && InBucket(m, bucket, k)
        invariant acked + 1 in acks ==> bucket != null && m == acked + 1
        invariant released == Notified(old(acked), acked, size, sent.Keys)
        decreases last - acked
      {
        assert bucket in chain;
        Retire(m, bucket, k);
        var pending := IsStored(m + size, bucket, k);
        released := if pending then released + [m + size] else released;
        m := m + 1;
        bucket, k := AckedBucket(m, bucket, k);
      }
      NotifiedExactly(old(acked), acked, size, sent.Keys);
      hide ReleasesExactly;
    }

    method AckRequest(n: nat, waiting: set<nat>) returns (r: Lookup<R>, released: seq<nat>)
      requires Valid() && size > 0
      modifies `acked, `acks, chain
      ensures Valid() && acked >= old(acked)
      ensures r.Found? <==> old(acked) < n <= last && n in sent && n !in waiting
      ensures r.Found? ==> r.request == sent[n] && acks == old(acks) + {n}
      ensures r.Failed? ==> acks == old(acks) && acked == old(acked)
      ensures forall m: nat :: m in released <==> m in sent && old(acked) + size < m <= acked + size
      ensures forall i, j :: 0 <= i < j < |released| ==> released[i] < released[j]
    {
      released := [];
      var bucket, k, outcome := Find(n, waiting);
      r := outcome;
      if r.Found? {
        assert bucket in chain;
        Mark(n, bucket, k);
        released := Advance(n, bucket, k);
      }
    }

    /** All numbers of a bucket in front of active are acked, so its slots are already empty. */
    lemma NothingLeft()
      requires Valid() && at > 0
      ensures forall j :: 0 <= j < BUCKET_SIZE ==> top.requests[j] == Empty
      ensures forall n: nat :: top.first <= n < top.first + BUCKET_SIZE && n >= 1 ==> n in acks
    {
      assert chain[0].first + BUCKET_SIZE <= chain[at].first;
      forall j | 0 <= j < BUCKET_SIZE
        ensures top.requests[j] == Empty
      {
        assert chain[0].requests[j] == SlotOf(chain[0].first + j);
      }
    }

    method RotateLinks()
      requires Linked() && at > 0
      modifies `top, `tail, `chain, `at, chain`next
      ensures Linked() && at == old(at) - 1 && active == old(active)
      ensures |chain| == |old(chain)| && chain[|chain| - 1] == old(chain[0])
      ensures forall i :: 0 <= i < |chain| - 1 ==> chain[i] == old(chain)[i + 1]
      ensures Members() == old(Members())
    {
      var bucket := top;
      var next := bucket.next;
      tail.next := bucket;
      tail := bucket;
      tail.next := null;
      top := next;
      chain, at := chain[1..] + [bucket], at - 1;
      assert old(chain) == [bucket] + old(chain)[1..];
    }

    method RenumberTop()
      requires Valid() && at > 0
      modifies top`refs, top`acks, top`filled, top`requests, top`first
      ensures top.first == tail.first + BUCKET_SIZE && |top.requests| == BUCKET_SIZE && tail.first == old(tail.first)
      ensures forall j :: 0 <= j < BUCKET_SIZE ==> top.requests[j] == Empty
    {
      NothingLeft();
      hide Refines, Consistent, Bounded;
      top.Reset();
      top.first := tail.first + BUCKET_SIZE;
    }

    /** Moves the head bucket behind the tail, under the range of numbers that comes next. */
    method RecycleTop()
      requires Valid() && at > 0
      modifies `top, `tail, `chain, `at, Members()
      ensures Valid() && at == old(at) - 1 && active == old(active) && Members() == old(Members())
    {
      RenumberTop();
      RotateLinks();
      hide Linked, IsFrontier;
      forall i, j | 0 <= i < |chain| && 0 <= j < BUCKET_SIZE
        ensures chain[i].requests[j] == SlotOf(chain[i].first + j)
      {
        if i < |chain| - 1 {
          assert chain[i].requests == old(chain[i + 1].requests);
        } else {
          assert chain[i].first + j !in sent;
        }
      }
    }

    /** Recycles the unpinned buckets between top and active, then moves active up to the frontier seen by the acker
        that started the collection. The plain map is untouched. */
    method Gc(seen: nat)
      requires Valid() && seen <= acked
      modifies `top, `tail, `active, `chain, `at, Members()
      ensures Valid() && Members() == old(Members())
      ensures top == old(active) || top.refs != 0
      ensures active.next != null ==> seen + 1 < active.next.first
    {
      hide Refines, Contiguous;
      while top != active && top.refs == 0
        invariant Valid() && Members() == old(Members()) && active == old(active)
        decreases at
      {
        RecycleTop();
      }
      MoveActive(seen);
    }

    method MoveActive(seen: nat)
      requires Valid() && seen <= acked
      modifies `active, `at
      ensures Valid()
      ensures active.next != null ==> seen + 1 < active.next.first
    {
      hide Refines, Contiguous;
      while active.next != null && seen >= active.next.first - 1
        invariant Valid()
        decreases |chain| - at
      {
        active, at := active.next, at + 1;
      }
    }
  }
}
