/** The objects behind MovingWindow: the double-buffered group of proxy/server/cluster/group.go, the buckets of
    bucket.go and the cluster of movingwindow.go, updated in place. Every method is tied to the function of
    MovingWindow that says what it makes of the cluster as a whole. */
module ClusterObjects {
  import opened Common
  import opened MovingWindow
  import BackupCandidates

  /** Rounding up to a multiple of the old capacity makes enough room. */
  lemma CeilingFits(num: nat, cap: nat)
    requires cap > 0 && num > 0
    ensures ((num - 1) / cap + 1) * cap >= num
  {
    var q := (num - 1) / cap;
    assert num - 1 == q * cap + (num - 1) % cap;
    assert (q + 1) * cap == q * cap + cap;
  }

  class Group {
    var all: array<InstanceId>
    var len: nat
    var buff: array<InstanceId>
    var idxBase: nat
    var index: map<InstanceId, Index>   // the index object of every instance handed out

    ghost predicate Valid()
      reads this
    {
      0 < all.Length && len <= all.Length && 0 < buff.Length && all != buff
    }

    ghost function Cells(): seq<InstanceId>
      requires Valid()
      reads this, all
    {
      all[..len]
    }

    /** Every slot holds the instance that has the slot's logical index. */
    ghost predicate InPlace()
      requires Valid()
      reads this, all
    {
      forall k :: 0 <= k < len ==> Cells()[k] in index && index[Cells()[k]].idx == idxBase + k
    }

    constructor (capacity: nat)
      requires capacity > 0
      ensures Valid() && Cells() == [] && idxBase == 0 && index == map[] && fresh(all) && fresh(buff)
    {
      all := new InstanceId[capacity](i => 0);
      buff := new InstanceId[capacity](i => 0);
      len, idxBase, index := 0, 0, map[];
    }

    /** A slice with room for num; the used elements are carried over on request. */
    method CheckCapacity(buffer: array<InstanceId>, used: nat, num: nat, preserve: bool) returns (r: array<InstanceId>)
      requires used <= buffer.Length && buffer.Length > 0
      ensures num <= r.Length && 0 < r.Length
      ensures if num <= buffer.Length then r == buffer else fresh(r)
      ensures preserve ==> used <= r.Length && r[..used] == buffer[..used]
    {
      if buffer.Length < num {
        CeilingFits(num, buffer.Length);
        r := new InstanceId[((num - 1) / buffer.Length + 1) * buffer.Length](i => 0);
        if preserve {
          Copy(buffer, 0, r, used);
        }
      } else {
        r := buffer;
      }
    }

    method Copy(src: array<InstanceId>, from: nat, dst: array<InstanceId>, n: nat)
      requires src != dst && from + n <= src.Length && n <= dst.Length
      modifies dst
      ensures dst[..n] == src[from..from + n]
    {
      for i := 0 to n
        invariant dst[..i] == src[from..from + i]
      {
        dst[i] := src[from + i];
      }
    }

    /** n more slots at the end, of unspecified content. */
    method Expand(n: nat) returns (end: nat)
      requires Valid()
      modifies this`all, this`len
      ensures Valid() && len == old(len) + n && end == idxBase + len
      ensures Cells()[..old(len)] == old(Cells())
      ensures all == old(all) || fresh(all)
    {
      var a := CheckCapacity(all, len, len + n, true);
      assert a[..len] == all[..len];
      all, len := a, len + n;
      end := idxBase + len;
    }

    /** The first n instances leave; what is left moves to the other buffer. */
    method Expire(n: nat) returns (ok: bool)
      requires Valid()
      modifies this`all, this`buff, this`len, this`idxBase, buff
      ensures Valid() && ok == (n <= old(len))
      ensures ok ==> Cells() == old(Cells())[n..] && idxBase == old(idxBase) + n
      ensures !ok ==> Cells() == old(Cells()) && idxBase == old(idxBase)
      ensures (all in {old(all), old(buff)} || fresh(all)) && buff == if ok then old(all) else old(buff)
    {
      if n > len {
        return false;
      }
      var b := CheckCapacity(buff, 0, len - n, false);
      Copy(all, n, b, len - n);
      idxBase := idxBase + n;
      all, buff, len := b, all, len - n;
      ok := true;
    }

    method SubGroup(start: nat, end: nat) returns (sub: seq<InstanceId>)
      requires Valid() && idxBase <= start <= end <= idxBase + len
      ensures sub == Cells()[start - idxBase..end - idxBase]
      ensures InPlace() ==>
        && |sub| == end - start
        && forall k :: 0 <= k < |sub| ==> sub[k] in index && index[sub[k]].idx == start + k
    {
      sub := all[start - idxBase..end - idxBase];
      assert forall k :: 0 <= k < |sub| ==> sub[k] == Cells()[start - idxBase + k];
    }

    /** GetForGroup: a new instance takes the slot of its index. */
    method Place(i: nat, bucketId: nat)
      requires Valid() && idxBase <= i < idxBase + len
      modifies all, this`index
      ensures Cells() == old(Cells())[i - idxBase := i]
      ensures index == old(index)[i := Index(i, bucketId)]
    {
      all[i - idxBase] := i;
      index := index[i := Index(i, bucketId)];
    }

    /** Two instances trade places and indices. */
    method Swap(i: nat, j: nat)
      requires Valid() && idxBase <= i < idxBase + len && idxBase <= j < idxBase + len
      requires all[i - idxBase] in index && all[j - idxBase] in index
      modifies all, this`index
      ensures Cells() == Exchanged(old(Cells()), i - idxBase, j - idxBase)
      ensures var x, y := old(Cells())[i - idxBase], old(Cells())[j - idxBase];
        index == old(index)[x := old(index)[y]][y := old(index)[x]]
    {
      var x, y := all[i - idxBase], all[j - idxBase];
      all[i - idxBase], all[j - idxBase] := y, x;
      index := index[x := index[y]][y := index[x]];
    }

    /** Expand and initInstance together: n new instances labelled with a bucket. */
    method Populate(n: nat, bucketId: nat) returns (ids: seq<InstanceId>)
      requires Valid()
      modifies this`all, this`len, this`index, all
      ensures Valid() && len == old(len) + n
      ensures Cells() == old(Cells()) + Ids(old(idxBase + len), n) && ids == Ids(old(idxBase + len), n)
      ensures index == old(index) + Labels(old(idxBase + len), n, bucketId)
      ensures all == old(all) || fresh(all)
    {
      var _ := Expand(n);
      ids := InitInstances(n, bucketId);
    }

    /** initInstance for the last n slots. */
    method InitInstances(n: nat, bucketId: nat) returns (ids: seq<InstanceId>)
      requires Valid() && n <= len
      modifies this`index, all
      ensures Cells() == old(Cells())[..len - n] + ids && ids == Ids(idxBase + len - n, n)
      ensures index == old(index) + Labels(idxBase + len - n, n, bucketId)
    {
      var from := idxBase + len - n;
      ghost var start, was := Cells(), index;
      ghost var m: nat := len - n;
      ids := [];
      NoneYet(from, bucketId, was);
      hide Ids, Labels;
      for k := 0 to n
        invariant Cells()[..m + k] == start[..m] + ids && ids == Ids(from, k)
        invariant index == was + Labels(from, k, bucketId)
      {
        ghost var before := Cells();
        Place(from + k, bucketId);
        PlacedNext(before, Cells(), m + k, from + k);
        Snoc(from, k, bucketId, was);
        ids := ids + [from + k];
      }
      assert Cells() == Cells()[..m + n];
    }
  }

  lemma NoneYet(from: nat, id: nat, index: map<InstanceId, Index>)
    ensures Ids(from, 0) == [] && index + Labels(from, 0, id) == index
  {
  }

  lemma PlacedNext(before: seq<InstanceId>, after: seq<InstanceId>, k: nat, x: InstanceId)
    requires k < |before| && after == before[k := x]
    ensures after[..k + 1] == before[..k] + [x]
  {
  }

  lemma Snoc(from: nat, k: nat, id: nat, index: map<InstanceId, Index>)
    ensures Ids(from, k + 1) == Ids(from, k) + [from + k]
    ensures index + Labels(from, k + 1, id) == (index + Labels(from, k, id))[from + k := Index(from + k, id)]
  {
  }

  class Bucket {
    const id: nat
    var start: nat
    var active: nat
    var end: nat
    var heat: Heat
    var instances: seq<InstanceId>

    constructor (id: nat, start: nat, active: nat, end: nat, instances: seq<InstanceId>)
      ensures View() == Span(id, start, active, end, Active, instances)
    {
      this.id, this.start, this.active, this.end := id, start, active, end;
      this.heat, this.instances := Active, instances;
    }

    ghost function View(): Span
      reads this
    {
      Span(id, start, active, end, heat, instances)
    }
  }

  lemma CurrentBucket(w: World)
    requires Inv(w, NUM_ACTIVE, NUM_AVAILABLE)
    ensures |w.spans| > 0 && Last(w).start <= Last(w).active <= Last(w).end == End(w)
    ensures |Last(w).instances| == Length(Last(w))
  {
  }

  lemma Swappable(w: World, i: nat, j: nat)
    requires CanSwap(w, i, j)
    ensures w.base <= Last(w).start <= Last(w).end <= End(w) && Length(Last(w)) <= |Last(w).instances|
    ensures w.cells[i - w.base] in w.index && w.cells[j - w.base] in w.index
  {
  }

  lemma FlushStep(w: World, swaps: seq<(nat, nat)>, active: nat)
    requires Inv(w, NUM_ACTIVE, NUM_AVAILABLE) && Within(w, swaps, active) && |swaps| > 0
    ensures CanSwap(w, swaps[0].0, swaps[0].1)
    ensures var w' := SwapIns(w, swaps[0].0, swaps[0].1);
      && Inv(w', NUM_ACTIVE, NUM_AVAILABLE) && Within(w', swaps[1..], active)
      && Flushed(w', swaps[1..], active) == Flushed(w, swaps, active)
  {
    CanSwapHere(w, swaps[0].0, swaps[0].1);
    SwapKeeps(w, swaps[0].0, swaps[0].1);
    hide Inv;
  }

  lemma FlushEnd(w: World, active: nat)
    requires Inv(w, NUM_ACTIVE, NUM_AVAILABLE) && Within(w, [], active)
    ensures |w.spans| > 0 && Flushed(w, [], active) == Fill(w, active)
  {
  }

  datatype Outcome = Unknown | Unneeded | Refused | Scaled(num: nat)

  /** The least positive multiple of steps that reaches the target. */
  function Multiple(steps: nat, target: int): (n: nat)
    requires steps > 0
    ensures n >= steps && n >= target && (n == steps || n - steps < target)
    ensures exists k: nat :: n == k * steps
  {
    if target > steps then
      CeilingFits(target, steps);
      CeilingTight(target, steps);
      ((target - 1) / steps + 1) * steps
    else
      assert steps == 1 * steps;
      steps
  }

  /** The instance is in the current bucket with fewer than steps instances from it to the end. */
  predicate Wanting(w: World, ins: InstanceId, steps: nat) {
    |w.spans| > 0 && ins in w.index && w.index[ins].bucketId == Last(w).id && Last(w).end - w.index[ins].idx < steps
  }

  lemma CeilingTight(num: nat, cap: nat)
    requires cap > 0 && num > cap
    ensures ((num - 1) / cap + 1) * cap - cap < num
    ensures ((num - 1) / cap + 1) * cap >= cap
  {
    var q := (num - 1) / cap;
    assert num - 1 == q * cap + (num - 1) % cap;
    assert (q + 1) * cap == q * cap + cap;
    assert q * cap >= 0;
  }

  predicate Backed(backups: map<InstanceId, seq<InstanceId>>, gins: InstanceId, all: seq<InstanceId>, wanted: nat) {
    && gins in backups && gins !in backups[gins] && NoRepeats(backups[gins])
    && |backups[gins]| == BackupCandidates.Wanted(|all|, 1, wanted)
    && forall c :: c in backups[gins] ==> c in all
  }

  lemma BackedUpdate(backups: map<InstanceId, seq<InstanceId>>, gins: InstanceId, candidates: seq<InstanceId>,
                     all: seq<InstanceId>, wanted: nat)
    requires gins !in candidates && NoRepeats(candidates)
    requires |candidates| == BackupCandidates.Wanted(|all|, 1, wanted) && forall c :: c in candidates ==> c in all
    ensures Backed(backups[gins := candidates], gins, all, wanted)
    ensures forall x :: Backed(backups, x, all, wanted) ==> Backed(backups[gins := candidates], x, all, wanted)
  {
  }

  /** The loop over the instances: i is the place of an instance in all, by its index. */
  method AssignEach(given: map<InstanceId, seq<InstanceId>>, gall: seq<InstanceId>, all: seq<InstanceId>,
                    index: map<InstanceId, Index>, wanted: nat, perms: seq<seq<nat>>)
    returns (backups: map<InstanceId, seq<InstanceId>>)
    requires NoRepeats(all) && |gall| <= |all| && gall == all[|all| - |gall|..]
    requires forall k :: 0 <= k < |all| ==>
      all[0] in index && all[k] in index && index[all[k]].idx == index[all[0]].idx + k
    requires |perms| == |gall|
    requires forall g :: 0 <= g < |perms| ==> BackupCandidates.Permutation(perms[g]) && |perms[g]| == |all|
    ensures forall g :: 0 <= g < |gall| ==> Backed(backups, gall[g], all, wanted)
  {
    hide Backed;
    backups := given;
    for g := 0 to |gall|
      invariant forall h :: 0 <= h < g ==> Backed(backups, gall[h], all, wanted)
    {
      var gins := gall[g];
      assert gins == all[|all| - |gall| + g];
      var i := index[gins].idx - index[all[0]].idx;
      var _, candidates, _, _ := BackupCandidates.GetBackupsForNode(all, i, wanted, perms[g]);
      BackedUpdate(backups, gins, candidates, all, wanted);
      backups := backups[gins := candidates];
    }
  }

  /** The active buckets lie inside the group and end with it. */
  lemma InWindow(w: World, actives: nat, available: nat)
    requires NUM_ACTIVE <= actives && NUM_ACTIVE <= available && Inv(w, actives, available)
    ensures |w.spans| > 0 && Last(w).end == End(w)
    ensures w.base <= w.spans[Before(|w.spans|, NUM_ACTIVE)].start <= End(w)
    ensures Indexed(w)
  {
    assert Shows(w, w.spans[Before(|w.spans|, NUM_ACTIVE)]);
  }

  function NumInActive(w: World): int {
    if |w.spans| == 0 then 0 else End(w) - w.spans[Before(|w.spans|, NUM_ACTIVE)].start
  }

  /** The newest n instances of the group. */
  function Newest(w: World, n: int): seq<InstanceId> {
    if 0 <= n <= |w.cells| then w.cells[|w.cells| - n..] else []
  }

  /** They have consecutive indices, so none is repeated. */
  lemma NewestActive(w: World)
    requires |w.spans| > 0 && Last(w).end == End(w)
    requires w.base <= w.spans[Before(|w.spans|, NUM_ACTIVE)].start <= End(w)
    ensures var from := w.spans[Before(|w.spans|, NUM_ACTIVE)].start;
      Newest(w, NumInActive(w)) == w.cells[from - w.base..Last(w).end - w.base]
  {
  }

  lemma NewestOf(w: World, m: nat, all: seq<InstanceId>)
    requires Indexed(w) && m <= NumInActive(w) <= |w.cells| && all == Newest(w, NumInActive(w))
    ensures NoRepeats(all) && |all| == NumInActive(w) && Newest(w, m) == all[|all| - m..]
    ensures forall k :: 0 <= k < |all| ==>
      all[0] in w.index && all[k] in w.index && w.index[all[k]].idx == w.index[all[0]].idx + k
  {
    hide NumInActive;
    forall k | 0 <= k < |all|
      ensures all[k] in w.index && w.index[all[k]].idx == End(w) - |all| + k
    {
      assert all[k] == w.cells[|w.cells| - |all| + k];
    }
  }

  class Cluster {
    const steps: nat
    const buffer: nat
    const group: Group
    var buckets: seq<Bucket>
    var numActives: int
    var backups: map<InstanceId, seq<InstanceId>>   // candidates assigned to each instance

    ghost predicate Fits()
      reads this, group
    {
      group.Valid() && NoRepeats(buckets)
    }

    ghost function Spans(): (r: seq<Span>)
      reads this, buckets
      ensures |r| == |buckets| && forall k :: 0 <= k < |r| ==> r[k] == buckets[k].View()
    {
      seq(|buckets|, k requires 0 <= k < |buckets| reads this, buckets => buckets[k].View())
    }

    ghost function View(): World
      requires group.Valid()
      reads this, group, group.all, buckets
    {
      World(group.idxBase, group.Cells(), group.index, Spans(), numActives)
    }

    /** Only one bucket changed. */
    twostate lemma OneChanged(at: nat)
      requires buckets == old(buckets) && at < |buckets| && NoRepeats(buckets)
      requires forall b :: b in buckets && b != buckets[at] ==> unchanged(b)
      ensures Spans() == old(Spans())[at := buckets[at].View()]
    {
      forall k | 0 <= k < |buckets| && k != at
        ensures Spans()[k] == old(Spans())[k]
      {
        assert buckets[k] in buckets && buckets[k] != buckets[at];
        assert old(Spans())[k] == old(buckets[k].View());
      }
    }

    /** What a method may have put in place of the objects it found. */
    twostate predicate Grown()
      reads this, group
    {
      && (group.all in {old(group.all), old(group.buff)} || fresh(group.all))
      && (group.buff in {old(group.all), old(group.buff)} || fresh(group.buff))
      && forall b :: b in buckets ==> b in old(buckets) || fresh(b)
    }

    constructor (steps: nat, buffer: nat, capacity: nat)
      requires capacity > 0
      ensures Fits() && View() == Empty() && this.steps == steps && this.buffer == buffer
      ensures fresh(group) && fresh(group.all) && fresh(group.buff)
    {
      this.steps, this.buffer := steps, buffer;
      group := new Group(capacity);
      buckets, numActives, backups := [], 0, map[];
    }

    method Append(bucket: Bucket)
      requires Fits() && bucket !in buckets
      modifies this`buckets
      ensures Fits() && buckets == old(buckets) + [bucket] && Spans() == old(Spans()) + [bucket.View()]
    {
      buckets := buckets + [bucket];
      assert Spans() == old(Spans()) + [bucket.View()];
    }

    /** newBucket, appended to the buckets; refused when the pool has too few deployments. */
    method NewBucket(id: nat, num: nat, available: nat) returns (ok: bool)
      requires Fits()
      modifies this`buckets, this`numActives, group`all, group`len, group`index, group.all
      ensures Fits() && Grown() && ok == (available >= num)
      ensures View() == if ok then Open(old(View()), id, num) else old(View())
    {
      hide NoRepeats, Ids, Labels, Open;
      if available < num {
        return false;
      }
      ghost var w := View();
      numActives := numActives + num;
      var start := group.idxBase + group.len;
      var ids := group.Populate(num, id);
      var bucket := new Bucket(id, start, start, start + num, ids);
      Append(bucket);
      ok := true;
      hide Spans;
      OpenIs(w, View(), id, num);
    }

    method SwapLock(i: nat, j: nat)
      requires Fits() && CanSwap(View(), i, j)
      modifies buckets, group`index, group.all
      ensures Fits() && View() == SwapIns(old(View()), i, j)
    {
      hide Shows, Indexed, NoRepeats;
      var b := buckets[|buckets| - 1];
      ghost var was := View();
      Swappable(was, i, j);
      assert b.View() == Last(was);
      hide SwapIns, CanSwap, Exchanged;
      group.Swap(i, j);
      b.instances := Exchanged(b.instances, i - b.start, j - b.start);
      OneChanged(|buckets| - 1);
      hide Spans;
      SwapIs(was, View(), i, j);
    }

    method FillTo(active: nat)
      requires Fits() && |buckets| > 0
      modifies buckets
      ensures Fits() && View() == Fill(old(View()), active)
    {
      var b := buckets[|buckets| - 1];
      b.active := active;
      assert Spans() == old(Spans())[|buckets| - 1 := b.View()];
    }

    /** flushInactiveLocked, up to the choice of the swaps and of the new fill mark. */
    method FlushInactive(swaps: seq<(nat, nat)>, active: nat)
      requires Fits() && Inv(View(), NUM_ACTIVE, NUM_AVAILABLE) && Within(View(), swaps, active)
      modifies buckets, group`index, group.all
      ensures Fits() && View() == Flushed(old(View()), swaps, active)
      ensures FilledUp(old(View()), View(), active)
    {
      hide Inv, Within, SwapIns, Fill, CanSwap, Flushed, FilledUp;
      FlushFillsUp(View(), swaps, active);
      assert swaps[0..] == swaps;
      for k := 0 to |swaps|
        invariant Fits() && group.Valid() && Inv(View(), NUM_ACTIVE, NUM_AVAILABLE)
        invariant Within(View(), swaps[k..], active)
        invariant Flushed(View(), swaps[k..], active) == Flushed(old(View()), swaps, active)
      {
        FlushStep(View(), swaps[k..], active);
        assert swaps[k..][1..] == swaps[k + 1..];
        SwapLock(swaps[k].0, swaps[k].1);
      }
      FlushEnd(View(), active);
      FillTo(active);
    }

    /** The unfilled part of the current bucket moves to a bucket of its own. */
    method Divide() returns (moved: seq<InstanceId>)
      requires Fits() && |buckets| > 0
      requires var b := buckets[|buckets| - 1]; b.start <= b.active <= b.end && |b.instances| == b.end - b.start
      modifies this`buckets, buckets
      ensures Fits() && forall b :: b in buckets ==> b in old(buckets) || fresh(b)
      ensures var s := old(buckets[|buckets| - 1].View());
        && moved == s.instances[s.active - s.start..]
        && Spans() == old(Spans())[old(|buckets|) - 1 := s.(end := s.active)] +
             [Span(s.id + 1, s.active, s.active, s.end, Active, moved)]
    {
      hide NoRepeats;
      ghost var was := Spans();
      var b := buckets[|buckets| - 1];
      moved := b.instances[b.active - b.start..];
      var bucket := new Bucket(b.id + 1, b.active, b.active, b.end, moved);
      b.end := b.active;
      OneChanged(|buckets| - 1);
      Append(bucket);
    }

    /** createNextBucket for a current bucket with enough instances left. */
    method SplitCurrent()
      requires Fits() && Inv(View(), NUM_ACTIVE, NUM_AVAILABLE)
      modifies this`buckets, buckets, group`index
      ensures Fits() && Grown()
      ensures Splittable(old(View())) && View() == Split(old(View()))
    {
      hide Inv, Splittable, NoRepeats;
      SplitKeeps(View());
      CurrentBucket(View());
      var id := buckets[|buckets| - 1].id + 1;
      var moved := Divide();
      group.index := Relabelled(group.index, moved, id);
    }

    method Start(available: nat) returns (ok: bool)
      requires Fits() && View() == Empty()
      modifies this`buckets, this`numActives, group`all, group`len, group`index, group.all
      ensures Fits() && Grown() && ok == (available >= steps + buffer)
      ensures View() == if ok then Open(Empty(), 0, steps + buffer) else Empty()
      ensures ok ==> Inv(View(), NUM_ACTIVE, NUM_AVAILABLE) && Opened(Empty(), View(), steps + buffer)
    {
      StartHolds(steps + buffer);
      OpenOpens(Empty(), 0, steps + buffer);
      hide Inv, Open, Opened;
      ok := NewBucket(0, steps + buffer, available);
    }

    /** Rotate: with too few instances left in the current bucket, a bucket of new ones; otherwise what is left
        becomes the next bucket and no instance is made. It fails only when new ones are needed and the pool is too
        small, and then nothing changed. */
    method Rotate(available: nat, swaps: seq<(nat, nat)>, active: nat) returns (ok: bool)
      requires Fits() && Inv(View(), NUM_ACTIVE, NUM_AVAILABLE) && Within(View(), swaps, active)
      modifies this`buckets, this`numActives, buckets, group`all, group`len, group`index, group.all
      ensures Fits() && Grown()
      ensures ok == (Last(old(View())).active + steps <= Last(old(View())).end || available >= steps)
      ensures View() == if ok then Rotated(old(View()), steps, swaps, active) else old(View())
      ensures ok && Last(old(View())).active + steps > Last(old(View())).end ==> Opened(old(View()), View(), steps)
      ensures ok && Last(old(View())).active + steps <= Last(old(View())).end ==> Divided(old(View()), View(), active)
    {
      hide Inv, Open, Split, Flushed, Splittable, Within, NoRepeats, Opened, Divided;
      RotationOpensOrDivides(View(), steps, swaps, active);
      CurrentBucket(View());
      var b := buckets[|buckets| - 1];
      assert b.View() == Last(View());
      if b.active + steps > b.end {
        ok := NewBucket(b.id + 1, steps, available);
      } else {
        FlushInactive(swaps, active);
        SplitCurrent();
        ok := true;
      }
    }

    /** The bucket that left the active window turns cold; its length is reported. */
    method DegradeCheck() returns (degraded: nat)
      requires Fits() && Inv(View(), NUM_ACTIVE + 1, NUM_AVAILABLE + 1)
      modifies this`numActives, buckets
      ensures Fits() && buckets == old(buckets) && View() == Degrade(old(View()))
      ensures degraded == old(numActives) - numActives
    {
      ghost var was := View();
      if |buckets| <= NUM_ACTIVE {
        return 0;
      }
      hide Inv, NoRepeats;
      var k := |buckets| - NUM_ACTIVE - 1;
      Shown(was, NUM_ACTIVE + 1, NUM_AVAILABLE + 1, k);
      var b := buckets[k];
      assert b.View() == was.spans[k];
      var instances := b.instances[..b.end - b.start];
      numActives := numActives - |instances|;
      b.heat := Cold;
      degraded := |instances|;
      OneChanged(k);
    }

    /** Everything before the last NUM_AVAILABLE buckets expires and leaves the group; one expired bucket is kept. */
    method ExpireCheck() returns (expired: nat)
      requires Fits() && Inv(View(), NUM_ACTIVE, NUM_AVAILABLE + 1)
      modifies this`buckets, buckets, group`all, group`buff, group`len, group`idxBase, group.buff
      ensures Fits() && Grown() && View() == Expire(old(View()))
      ensures expired == group.idxBase - old(group.idxBase)
    {
      hide Inv, NoRepeats, Cooled, Left, Expiring, Expire;
      ghost var was := View();
      ExpireValue(was);
      if |buckets| <= NUM_AVAILABLE {
        return 0;
      }
      expired := ExpireFirst(|buckets| - NUM_AVAILABLE);
      KeepLast();
      var _ := group.Expire(expired);
    }

    /** Drops the oldest buckets from the list. */
    method KeepLast()
      requires Fits()
      modifies this`buckets
      ensures Fits() && (forall b :: b in buckets ==> b in old(buckets)) && Spans() == Left(old(Spans()))
    {
      if |buckets| > NUM_AVAILABLE + 1 {
        buckets := buckets[|buckets| - NUM_AVAILABLE - 1..];
        assert Spans() == old(Spans())[old(|buckets|) - NUM_AVAILABLE - 1..];
      }
    }

    method ExpireOne(k: nat) returns (expired: int)
      requires Fits() && k < |buckets|
      modifies buckets`heat
      ensures Fits() && buckets == old(buckets) && Spans() == old(Spans())[k := old(Spans())[k].(heat := Expired)]
      ensures expired == if old(Spans())[k].heat == Expired then 0 else Length(old(Spans())[k])
    {
      hide NoRepeats;
      var b := buckets[k];
      assert b.View() == Spans()[k];
      expired := 0;
      if b.heat != Expired {
        expired := b.end - b.start;
        b.heat := Expired;
      }
      OneChanged(k);
    }

    method ExpireFirst(m: nat) returns (expired: int)
      requires Fits() && m <= |buckets|
      modifies buckets`heat
      ensures Fits() && buckets == old(buckets)
      ensures Spans() == Cooled(old(Spans()), m) && expired == Expiring(old(Spans()), m)
    {
      hide NoRepeats, Cooled;
      ghost var was := Spans();
      CooledNone(was);
      expired := 0;
      for k := 0 to m
        invariant Fits() && buckets == old(buckets) && Spans() == Cooled(was, k) && expired == Expiring(was, k)
      {
        CooledStep(was, k);
        var n := ExpireOne(k);
        expired := expired + n;
      }
    }

    /** bucket.scale on the current bucket. */
    method ScaleCurrent(num: nat, available: nat) returns (ok: bool)
      requires Fits() && Inv(View(), NUM_ACTIVE, NUM_AVAILABLE)
      modifies this`numActives, buckets, group`all, group`len, group`index, group.all
      ensures Fits() && Grown() && buckets == old(buckets)
      ensures ok == (available >= num) && View() == if ok then Scale(old(View()), num) else old(View())
    {
      hide Inv, NoRepeats, Scale;
      CurrentBucket(View());
      var last := |buckets| - 1;
      var b := buckets[last];
      assert b.View() == Last(View());
      if b.end != group.idxBase + group.len || available < num {
        return false;
      }
      Extend(num, b.id);
      ok := true;
    }

    method Extend(num: nat, id: nat)
      requires Fits() && |buckets| > 0 && buckets[|buckets| - 1].id == id
      requires buckets[|buckets| - 1].end == group.idxBase + group.len
      modifies this`numActives, buckets, group`all, group`len, group`index, group.all
      ensures Fits() && Grown() && buckets == old(buckets) && View() == Scale(old(View()), num)
    {
      hide NoRepeats, Ids, Labels, Scale;
      ghost var w := View();
      var last := |buckets| - 1;
      var b := buckets[last];
      assert Last(w) == b.View();
      numActives := numActives + num;
      var ids := group.Populate(num, id);
      b.end, b.instances := b.end + num, b.instances + ids;
      OneChanged(last);
      hide Spans;
      ScaleIs(w, View(), num);
    }

    /** doScale: the current bucket grows by a multiple of steps, unless the instance that asked for it is in another
        bucket or has enough instances behind it. */
    method DoScale(ins: InstanceId, target: int, available: nat) returns (outcome: Outcome)
      requires Fits() && Inv(View(), NUM_ACTIVE, NUM_AVAILABLE) && steps > 0
      modifies this`numActives, buckets, group`all, group`len, group`index, group.all
      ensures Fits() && Grown()
      ensures outcome == Unknown <==> ins !in old(group.index)
      ensures outcome == Unneeded <==> ins in old(group.index) && !Wanting(old(View()), ins, steps)
      ensures outcome.Scaled? ==> outcome.num == Multiple(steps, target) <= available
      ensures outcome == Refused ==> Multiple(steps, target) > available
      ensures View() == if outcome.Scaled? then Scale(old(View()), outcome.num) else old(View())
      ensures outcome.Scaled? ==> Extended(old(View()), View(), outcome.num)
    {
      hide Inv, NoRepeats, Scale, Extended;
      CurrentBucket(View());
      CurrentInGroup(View());
      if ins in group.index {
        ScaleExtends(View(), Multiple(steps, target));
      }
      var b := buckets[|buckets| - 1];
      assert b.View() == Last(View());
      if ins !in group.index {
        return Unknown;
      }
      if group.index[ins].bucketId != b.id || b.end - group.index[ins].idx >= steps {
        return Unneeded;
      }
      var num := Multiple(steps, target);
      var ok := ScaleCurrent(num, available);
      outcome := if ok then Scaled(num) else Refused;
    }

    /** The instances of the active buckets. */
    method ActiveInstances(ghost actives: nat, ghost available: nat) returns (all: seq<InstanceId>)
      requires NUM_ACTIVE <= actives && NUM_ACTIVE <= available && Fits() && Inv(View(), actives, available)
      ensures all == Newest(View(), NumInActive(View()))
    {
      hide Inv, NoRepeats, Indexed, Spans, Newest, NumInActive, Group.InPlace;
      ghost var w := View();
      InWindow(w, actives, available);
      NewestActive(w);
      var bucketRange := if NUM_ACTIVE > |buckets| then |buckets| else NUM_ACTIVE;
      var startBucket, last := buckets[|buckets| - bucketRange], buckets[|buckets| - 1];
      assert startBucket.View() == w.spans[Before(|buckets|, NUM_ACTIVE)] && last.View() == w.spans[|buckets| - 1];
      all := group.SubGroup(startBucket.start, last.end);
    }

    /** assignBackupLocked for the newest instances of the group: each one gets distinct other instances of the
        active buckets, as many as there are up to the number wanted. */
    method AssignBackups(gall: seq<InstanceId>, wanted: nat, perms: seq<seq<nat>>, ghost actives: nat,
                         ghost available: nat)
      requires NUM_ACTIVE <= actives && NUM_ACTIVE <= available && Fits() && Inv(View(), actives, available)
      requires |gall| <= NumInActive(View()) && gall == Newest(View(), |gall|)
      requires |perms| == |gall|
      requires forall g :: 0 <= g < |perms| ==>
        BackupCandidates.Permutation(perms[g]) && |perms[g]| == NumInActive(View())
      modifies this`backups
      ensures forall g :: 0 <= g < |gall| ==>
        Backed(backups, gall[g], Newest(old(View()), NumInActive(old(View()))), wanted)
    {
      hide Inv, NoRepeats, Indexed, Backed;
      var all := ActiveInstances(actives, available);
      InWindow(View(), actives, available);
      NewestOf(View(), |gall|, all);
      backups := AssignEach(backups, gall, all, group.index, wanted, perms);
    }

    /** One round of the daemon's timer; a failed rotation ends the round with nothing changed. */
    method Tick(available: nat, swaps: seq<(nat, nat)>, active: nat) returns (ok: bool)
      requires Fits() && Inv(View(), NUM_ACTIVE, NUM_AVAILABLE) && Within(View(), swaps, active)
      modifies this`buckets, this`numActives, buckets, group, group.all, group.buff
      ensures Fits() && Grown()
      ensures View() == if ok then Ticked(old(View()), steps, swaps, active) else old(View())
    {
      hide Inv, Within, Rotated, Degrade, Expire, NoRepeats;
      ghost var was := View();
      ok := Rotate(available, swaps, active);
      assert forall k :: 0 <= k < |buckets| ==> buckets[k] in old(buckets) || fresh(buckets[k]);
      if ok {
        DegradeKeeps(Rotated(was, steps, swaps, active));
        var _ := DegradeCheck();
        var _ := ExpireCheck();
      }
    }
  }

  lemma Shown(w: World, actives: nat, available: nat, k: nat)
    requires actives > 0 && available > 0 && Inv(w, actives, available) && Before(|w.spans|, available) <= k < |w.spans|
    ensures 0 <= Length(w.spans[k]) <= |w.spans[k].instances|
  {
    assert Shows(w, w.spans[k]);
  }

  lemma ExpireValue(w: World)
    requires Inv(w, NUM_ACTIVE, NUM_AVAILABLE + 1)
    ensures |w.spans| <= NUM_AVAILABLE ==> Expire(w) == w
    ensures |w.spans| > NUM_AVAILABLE ==>
      var m := |w.spans| - NUM_AVAILABLE; var n := Expiring(w.spans, m);
      && 0 <= n <= |w.cells|
      && Expire(w) == World(w.base + n, w.cells[n..], w.index, Left(Cooled(w.spans, m)), w.numActives)
  {
    hide Inv, Left, Cooled, Expiring;
    if |w.spans| > NUM_AVAILABLE {
      ExpireIs(w);
    }
  }

  lemma OpenIs(w: World, w': World, id: nat, num: nat)
    requires w'.base == w.base && w'.cells == w.cells + Ids(End(w), num)
    requires w'.index == w.index + Labels(End(w), num, id) && w'.numActives == w.numActives + num
    requires w'.spans == w.spans + [Span(id, End(w), End(w), End(w) + num, Active, Ids(End(w), num))]
    ensures w' == Open(w, id, num)
  {
    hide Ids, Labels;
  }

  lemma SwapIs(w: World, w': World, i: nat, j: nat)
    requires CanSwap(w, i, j) && w'.base == w.base && w'.numActives == w.numActives
    requires w'.cells == Exchanged(w.cells, i - w.base, j - w.base)
    requires var x, y := w.cells[i - w.base], w.cells[j - w.base];
      x in w.index && y in w.index && w'.index == w.index[x := w.index[y]][y := w.index[x]]
    requires var s := Last(w);
      w'.spans == w.spans[|w.spans| - 1 := s.(instances := Exchanged(s.instances, i - s.start, j - s.start))]
    ensures w' == SwapIns(w, i, j)
  {
    hide Exchanged;
  }

  lemma ScaleIs(w: World, w': World, num: nat)
    requires |w.spans| > 0 && Last(w).end == End(w)
    requires w'.base == w.base && w'.cells == w.cells + Ids(End(w), num)
    requires w'.index == w.index + Labels(End(w), num, Last(w).id)
    requires var s := Last(w);
      w'.spans == w.spans[|w.spans| - 1 := s.(end := s.end + num, instances := s.instances + Ids(End(w), num))]
    requires w'.numActives == w.numActives + num
    ensures w' == Scale(w, num)
  {
    hide Ids, Labels;
  }

  lemma CooledNone(spans: seq<Span>)
    ensures Cooled(spans, 0) == spans
  {
  }

  lemma CooledStep(spans: seq<Span>, k: nat)
    requires k < |spans|
    ensures |Cooled(spans, k)| == |spans| && Cooled(spans, k)[k] == spans[k]
    ensures Cooled(spans, k + 1) == Cooled(spans, k)[k := spans[k].(heat := Expired)]
    ensures spans[k].heat == Expired ==> Cooled(spans, k + 1) == Cooled(spans, k)
  {
  }
}
