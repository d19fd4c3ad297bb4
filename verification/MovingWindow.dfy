/** The moving-window cluster of the proxy, proxy/server/cluster: buckets are views of one growing group of
    instances, addressed by logical indices that never change their meaning while old instances expire. This module
    holds the state as one value, what each operation makes of it, and the invariant of every run; ClusterObjects has
    the operations as the source performs them. */
module MovingWindow {
  import opened Common

  type InstanceId = nat   // the logical index an instance was created for

  const NUM_ACTIVE: nat := 6       // NumActiveBuckets
  const NUM_AVAILABLE: nat := 18   // NumAvailableBuckets

  datatype Heat = Expired | Cold | Active

  /** BucketIndex of an instance. */
  datatype Index = Index(idx: nat, bucketId: nat)

  /** A bucket; instances beyond end - start are shadows left behind by a split. */
  datatype Span = Span(id: nat, start: nat, active: nat, end: nat, heat: Heat, instances: seq<InstanceId>)

  datatype World = World(
    base: nat,
    cells: seq<InstanceId>,
    index: map<InstanceId, Index>,
    spans: seq<Span>,
    numActives: int)

  function End(w: World): nat {
    w.base + |w.cells|
  }

  function Length(s: Span): int {
    s.end - s.start
  }

  /** Total length of the buckets from the k-th on. */
  function Total(spans: seq<Span>, k: nat): int
    decreases |spans| - k
  {
    if k >= |spans| then 0 else Length(spans[k]) + Total(spans, k + 1)
  }

  /** All but the last k of n. */
  function Before(n: nat, k: nat): nat {
    if n > k then n - k else 0
  }

  // ----- invariant -----

  /** Bucket k starts where the one before it ends. */
  ghost predicate Joins(spans: seq<Span>, k: nat)
    requires 0 < k < |spans|
  {
    spans[k - 1].end == spans[k].start
  }

  ghost predicate Chained(spans: seq<Span>) {
    && (forall k :: 0 <= k < |spans| ==>
      spans[k].start <= spans[k].active <= spans[k].end && spans[k].id == spans[0].id + k)
    && (forall k :: 0 < k < |spans| ==> Joins(spans, k))
  }

  /** Every slot of the group holds the instance that has the slot's logical index. */
  ghost predicate Indexed(w: World) {
    && (forall k :: 0 <= k < |w.cells| ==> w.cells[k] in w.index && w.index[w.cells[k]].idx == w.base + k)
    && (forall x :: x in w.index ==> x < End(w))
  }

  /** The bucket shows its part of the group and the instances there know it. */
  ghost predicate Shows(w: World, s: Span) {
    && w.base <= s.start <= s.end <= End(w)
    && s.end - s.start <= |s.instances|
    && forall k :: 0 <= k < s.end - s.start ==>
         && s.instances[k] == w.cells[s.start - w.base + k]
         && s.instances[k] in w.index && w.index[s.instances[k]].bucketId == s.id
  }

  ghost predicate Heated(spans: seq<Span>, actives: nat, available: nat) {
    forall k :: 0 <= k < |spans| ==>
      spans[k].heat ==
        if k < Before(|spans|, available) then Expired else if k < Before(|spans|, actives) then Cold else Active
  }

  ghost predicate Covered(w: World, available: nat)
    requires available > 0
  {
    && |w.spans| > 0
    && w.spans[|w.spans| - 1].end == End(w)
    && w.spans[Before(|w.spans|, available)].start == w.base
    && |w.spans[|w.spans| - 1].instances| == Length(w.spans[|w.spans| - 1])
    && (forall k :: Before(|w.spans|, available) <= k < |w.spans| ==> Shows(w, w.spans[k]))
  }

  /** numActives is the number of instances in the active buckets. */
  ghost predicate Counted(w: World, actives: nat) {
    w.numActives == Total(w.spans, Before(|w.spans|, actives))
  }

  ghost predicate Inv(w: World, actives: nat, available: nat)
    requires actives > 0 && available > 0
  {
    && Chained(w.spans) && Indexed(w) && Covered(w, available) && Heated(w.spans, actives, available)
    && Counted(w, actives)
  }

  /** Contiguous buckets: the length of the last ones is the distance between two bounds. */
  lemma {:induction false} ActiveLength(spans: seq<Span>, from: nat)
    requires Chained(spans) && from < |spans|
    ensures Total(spans, from) == spans[|spans| - 1].end - spans[from].start
    decreases |spans| - from
  {
    if from + 1 < |spans| {
      assert Joins(spans, from + 1);
      ActiveLength(spans, from + 1);
    }
  }

  lemma CountedBy(w: World, actives: nat)
    requires Chained(w.spans) && |w.spans| > 0 && actives > 0
    ensures Counted(w, actives) <==> w.numActives == Last(w).end - w.spans[Before(|w.spans|, actives)].start
  {
    ActiveLength(w.spans, Before(|w.spans|, actives));
  }

  // ----- operations -----

  function Ids(from: nat, n: nat): seq<InstanceId> {
    seq(n, k => from + k)
  }

  function Labels(from: nat, n: nat, id: nat): map<InstanceId, Index> {
    map x: nat | from <= x < from + n :: Index(x, id)
  }

  /** initInstance: n new instances at the end of the group, labelled with a bucket. */
  function Grow(w: World, n: nat, id: nat): World {
    w.(cells := w.cells + Ids(End(w), n),
       index := w.index + Labels(End(w), n, id))
  }

  function Open(w: World, id: nat, n: nat): World {
    var s := Span(id, End(w), End(w), End(w) + n, Active, Ids(End(w), n));
    Grow(w, n, id).(spans := w.spans + [s], numActives := w.numActives + n)
  }

  function Empty(): World {
    World(0, [], map[], [], 0)
  }

  function Last(w: World): Span
    requires |w.spans| > 0
  {
    w.spans[|w.spans| - 1]
  }

  function Relabelled(index: map<InstanceId, Index>, moved: seq<InstanceId>, id: nat): map<InstanceId, Index> {
    map x | x in index :: if x in moved then index[x].(bucketId := id) else index[x]
  }

  /** createNextBucket when the current bucket has room: its unfilled part becomes the next bucket. */
  function Split(w: World): World
    requires |w.spans| > 0 && Last(w).start <= Last(w).active <= Last(w).end && |Last(w).instances| == Length(Last(w))
  {
    var s := Last(w);
    var moved := s.instances[s.active - s.start..];
    var tail := Span(s.id + 1, s.active, s.active, s.end, Active, moved);
    w.(spans := w.spans[|w.spans| - 1 := s.(end := s.active)] + [tail],
       index := Relabelled(w.index, moved, s.id + 1))
  }

  function Scale(w: World, n: nat): World
    requires |w.spans| > 0
  {
    var s := Last(w);
    var grown := s.(end := End(w) + n, instances := s.instances + Ids(End(w), n));
    Grow(w, n, s.id).(spans := w.spans[|w.spans| - 1 := grown],
                      numActives := w.numActives + n)
  }

  /** Two instances of the current bucket trade places. */
  ghost predicate CanSwap(w: World, i: nat, j: nat) {
    && Indexed(w) && |w.spans| > 0 && Last(w).active <= i < Last(w).end && Last(w).active <= j < Last(w).end
    && Shows(w, Last(w)) && Last(w).start <= Last(w).active
  }

  function SwapIns(w: World, i: nat, j: nat): World
    requires CanSwap(w, i, j)
  {
    var s := Last(w);
    var x, y := w.cells[i - w.base], w.cells[j - w.base];
    w.(cells := Exchanged(w.cells, i - w.base, j - w.base),
       index := w.index[x := w.index[y]][y := w.index[x]],
       spans := w.spans[|w.spans| - 1 := s.(instances := Exchanged(s.instances, i - s.start, j - s.start))])
  }

  /** The unfilled part of the current bucket now starts further on. */
  function Fill(w: World, active: nat): World
    requires |w.spans| > 0
  {
    w.(spans := w.spans[|w.spans| - 1 := Last(w).(active := active)])
  }

  function Degrade(w: World): World {
    if |w.spans| <= NUM_ACTIVE then w
    else
      var k := |w.spans| - NUM_ACTIVE - 1;
      w.(spans := w.spans[k := w.spans[k].(heat := Cold)], numActives := w.numActives - Length(w.spans[k]))
  }

  /** Length of the buckets among the first m that are not expired yet. */
  function Expiring(spans: seq<Span>, m: nat): int
    requires m <= |spans|
  {
    if m == 0 then 0 else Expiring(spans, m - 1) + (if spans[m - 1].heat == Expired then 0 else Length(spans[m - 1]))
  }

  /** The first m buckets expired. */
  function Cooled(spans: seq<Span>, m: nat): seq<Span> {
    seq(|spans|, k requires 0 <= k < |spans| => if k < m then spans[k].(heat := Expired) else spans[k])
  }

  /** One expired bucket is kept. */
  function Left(spans: seq<Span>): seq<Span> {
    if |spans| > NUM_AVAILABLE + 1 then spans[|spans| - NUM_AVAILABLE - 1..] else spans
  }

  function Expire(w: World): World {
    if |w.spans| <= NUM_AVAILABLE then w
    else
      var m := |w.spans| - NUM_AVAILABLE;
      var n := Expiring(w.spans, m);
      var left := Left(Cooled(w.spans, m));
      if 0 <= n <= |w.cells| then w.(spans := left, cells := w.cells[n..], base := w.base + n) else w.(spans := left)
  }

  // ----- what they keep -----

  lemma GrowKeepsIndexed(w: World, n: nat, id: nat)
    requires Indexed(w)
    ensures Indexed(Grow(w, n, id))
  {
  }

  lemma GrowKeepsShown(w: World, n: nat, id: nat, s: Span)
    requires Indexed(w) && Shows(w, s)
    ensures Shows(Grow(w, n, id), s)
  {
    var w' := Grow(w, n, id);
    forall k | 0 <= k < s.end - s.start
      ensures s.instances[k] == w'.cells[s.start - w.base + k]
      ensures s.instances[k] in w'.index && w'.index[s.instances[k]].bucketId == s.id
    {
      assert s.instances[k] in w.index;
    }
  }

  lemma GrowShowsNew(w: World, n: nat, s: Span)
    requires Indexed(w) && s.start == End(w) && s.end == End(w) + n && s.instances == Ids(End(w), n)
    ensures Shows(Grow(w, n, s.id), s)
  {
  }

  lemma StartHolds(n: nat)
    ensures Inv(Open(Empty(), 0, n), NUM_ACTIVE, NUM_AVAILABLE)
  {
    var w, g := Open(Empty(), 0, n), Grow(Empty(), n, 0);
    GrowKeepsIndexed(Empty(), n, 0);
    GrowShowsNew(Empty(), n, w.spans[0]);
    assert Indexed(w) && Shows(w, w.spans[0]);
    hide Indexed, Shows;
    CountedBy(w, NUM_ACTIVE);
  }

  /** Appending a bucket that starts where the last one ends. */
  lemma ChainSnoc(spans: seq<Span>, s: Span)
    requires Chained(spans) && |spans| > 0 && s.start == spans[|spans| - 1].end && s.start <= s.active <= s.end
    requires s.id == spans[|spans| - 1].id + 1
    ensures Chained(spans + [s])
  {
    var spans' := spans + [s];
    forall k | 0 < k < |spans'|
      ensures Joins(spans', k)
    {
      assert k < |spans| ==> Joins(spans, k);
    }
  }

  lemma HeatSnoc(spans: seq<Span>, s: Span)
    requires Heated(spans, NUM_ACTIVE, NUM_AVAILABLE) && s.heat == Active
    ensures Heated(spans + [s], NUM_ACTIVE + 1, NUM_AVAILABLE + 1)
  {
  }

  /** Shows looks at the group only. */
  lemma ShowsAlike(w: World, w': World, s: Span)
    requires Shows(w, s) && w'.base == w.base && w'.cells == w.cells && w'.index == w.index
    ensures Shows(w', s)
  {
  }

  lemma OpenShowsAt(w: World, n: nat, k: nat)
    requires Inv(w, NUM_ACTIVE, NUM_AVAILABLE) && Before(|w.spans|, NUM_AVAILABLE) <= k <= |w.spans|
    ensures var w' := Open(w, Last(w).id + 1, n); Shows(w', w'.spans[k])
  {
    var id := Last(w).id + 1;
    var w', g := Open(w, id, n), Grow(w, n, id);
    if k < |w.spans| {
      GrowKeepsShown(w, n, id, w.spans[k]);
    } else {
      GrowShowsNew(w, n, Last(w'));
    }
    hide Shows, Indexed, Chained, Heated, Counted;
    ShowsAlike(g, w', w'.spans[k]);
  }

  lemma OpenShows(w: World, n: nat)
    requires Inv(w, NUM_ACTIVE, NUM_AVAILABLE)
    ensures Covered(Open(w, Last(w).id + 1, n), NUM_AVAILABLE + 1)
  {
    var w' := Open(w, Last(w).id + 1, n);
    forall k | Before(|w.spans|, NUM_AVAILABLE) <= k < |w'.spans|
      ensures Shows(w', w'.spans[k])
    {
      OpenShowsAt(w, n, k);
    }
    hide Shows, Indexed, Chained, Heated, Counted;
    assert w'.spans[Before(|w.spans|, NUM_AVAILABLE)] == w.spans[Before(|w.spans|, NUM_AVAILABLE)];
  }

  lemma OpenKeeps(w: World, n: nat)
    requires Inv(w, NUM_ACTIVE, NUM_AVAILABLE)
    ensures Inv(Open(w, Last(w).id + 1, n), NUM_ACTIVE + 1, NUM_AVAILABLE + 1)
  {
    var w' := Open(w, Last(w).id + 1, n);
    GrowKeepsIndexed(w, n, Last(w).id + 1);
    assert Indexed(w');
    OpenShows(w, n);
    ChainSnoc(w.spans, Last(w'));
    HeatSnoc(w.spans, Last(w'));
    CountedBy(w, NUM_ACTIVE);
    CountedBy(w', NUM_ACTIVE + 1);
    hide Indexed, Chained, Heated, Shows, Counted;
  }

  // -- split --

  lemma {:induction false} Distinct(w: World, i: nat, j: nat)
    requires Indexed(w) && i < |w.cells| && j < |w.cells| && i != j
    ensures w.cells[i] != w.cells[j]
  {
    assert w.index[w.cells[i]].idx == w.base + i;
    assert w.index[w.cells[j]].idx == w.base + j;
  }

  ghost predicate Splittable(w: World) {
    && |w.spans| > 0 && Last(w).start <= Last(w).active <= Last(w).end && |Last(w).instances| == Length(Last(w))
    && Shows(w, Last(w)) && Indexed(w)
  }

  /** Instances outside the moved part keep their label. */
  lemma SplitLabels(w: World, i: nat)
    requires Splittable(w) && w.base <= i < End(w)
    ensures var x, w', s := w.cells[i - w.base], Split(w), Last(w);
      && x in w.index && x in w'.index && w'.index[x].idx == w.index[x].idx
      && w'.index[x].bucketId == if s.active <= i < s.end then s.id + 1 else w.index[x].bucketId
  {
    var x, s := w.cells[i - w.base], Last(w);
    var moved := s.instances[s.active - s.start..];
    if s.active <= i < s.end {
      assert moved[i - s.active] == s.instances[i - s.start] == x;
    } else {
      forall k | 0 <= k < |moved|
        ensures moved[k] != x
      {
        assert moved[k] == s.instances[s.active - s.start + k] == w.cells[s.active - w.base + k];
        Distinct(w, i - w.base, s.active - w.base + k);
      }
    }
  }

  lemma SplitKeepsIndexed(w: World)
    requires Splittable(w)
    ensures Indexed(Split(w))
  {
    var w' := Split(w);
    forall k | 0 <= k < |w'.cells|
      ensures w'.cells[k] in w'.index && w'.index[w'.cells[k]].idx == w'.base + k
    {
      SplitLabels(w, w.base + k);
    }
  }

  lemma SplitShowsOld(w: World, s: Span)
    requires Splittable(w) && Shows(w, s) && s.end <= Last(w).active
    ensures Shows(Split(w), s)
  {
    forall k | 0 <= k < s.end - s.start
      ensures s.instances[k] in Split(w).index && Split(w).index[s.instances[k]].bucketId == s.id
    {
      assert s.instances[k] == w.cells[s.start - w.base + k];
      SplitLabels(w, s.start + k);
    }
  }

  lemma SplitShowsNew(w: World)
    requires Splittable(w)
    ensures Shows(Split(w), Last(Split(w)))
  {
    var s := Last(Split(w));
    forall k | 0 <= k < s.end - s.start
      ensures s.instances[k] == w.cells[s.start - w.base + k]
      ensures s.instances[k] in Split(w).index && Split(w).index[s.instances[k]].bucketId == s.id
    {
      assert s.instances[k] == Last(w).instances[s.start - Last(w).start + k];
      SplitLabels(w, s.start + k);
    }
  }

  lemma SplitShowsAt(w: World, k: nat)
    requires Inv(w, NUM_ACTIVE, NUM_AVAILABLE) && Splittable(w) && Before(|w.spans|, NUM_AVAILABLE) <= k <= |w.spans|
    ensures Shows(Split(w), Split(w).spans[k])
  {
    var n, s := |w.spans|, Last(w);
    if k == n {
      SplitShowsNew(w);
    } else if k == n - 1 {
      assert Shows(w, s.(end := s.active));
      SplitShowsOld(w, s.(end := s.active));
    } else {
      ChainOrder(w.spans, k + 1, n - 1);
      assert Joins(w.spans, k + 1);
      SplitShowsOld(w, w.spans[k]);
    }
  }

  lemma {:induction false} ChainOrder(spans: seq<Span>, i: nat, j: nat)
    requires Chained(spans) && i <= j < |spans|
    ensures spans[i].start <= spans[j].start
    decreases j - i
  {
    if i < j {
      assert Joins(spans, i + 1);
      ChainOrder(spans, i + 1, j);
    }
  }

  lemma ChainSplit(spans: seq<Span>, s: Span, t: Span)
    requires Chained(spans) && |spans| > 0
    requires var l := spans[|spans| - 1];
      s == l.(end := l.active) && t.id == l.id + 1 && t.start == t.active == l.active && t.end == l.end
    ensures Chained(spans[|spans| - 1 := s] + [t])
  {
    ChainLast(spans, s);
    ChainSnoc(spans[|spans| - 1 := s], t);
  }

  lemma HeatSame(spans: seq<Span>, s: Span, actives: nat, available: nat)
    requires Heated(spans, actives, available) && |spans| > 0 && s.heat == spans[|spans| - 1].heat
    ensures Heated(spans[|spans| - 1 := s], actives, available)
  {
  }

  lemma SplitCovers(w: World)
    requires Inv(w, NUM_ACTIVE, NUM_AVAILABLE) && Splittable(w)
    ensures Covered(Split(w), NUM_AVAILABLE + 1)
  {
    var w' := Split(w);
    forall k | Before(|w.spans|, NUM_AVAILABLE) <= k < |w'.spans|
      ensures Shows(w', w'.spans[k])
    {
      SplitShowsAt(w, k);
    }
    hide Shows, Indexed, Chained, Heated, Counted;
  }

  lemma SplitKeeps(w: World)
    requires Inv(w, NUM_ACTIVE, NUM_AVAILABLE)
    ensures Splittable(w) && Inv(Split(w), NUM_ACTIVE + 1, NUM_AVAILABLE + 1)
  {
    assert Splittable(w);
    var w', s := Split(w), Last(w);
    SplitKeepsIndexed(w);
    SplitCovers(w);
    ChainSplit(w.spans, s.(end := s.active), Last(w'));
    HeatSame(w.spans, s.(end := s.active), NUM_ACTIVE, NUM_AVAILABLE);
    HeatSnoc(w.spans[|w.spans| - 1 := s.(end := s.active)], Last(w'));
    CountedBy(w, NUM_ACTIVE);
    CountedBy(w', NUM_ACTIVE + 1);
    hide Indexed, Chained, Heated, Shows, Covered, Counted;
  }

  // -- scale --

  /** Replacing the last bucket by one with the same start and id. */
  lemma ChainLast(spans: seq<Span>, s: Span)
    requires Chained(spans) && |spans| > 0 && s.id == spans[|spans| - 1].id && s.start == spans[|spans| - 1].start
    requires s.start <= s.active <= s.end
    ensures Chained(spans[|spans| - 1 := s])
  {
    var spans' := spans[|spans| - 1 := s];
    forall k | 0 < k < |spans'|
      ensures Joins(spans', k)
    {
      assert Joins(spans, k);
    }
  }

  lemma ShowsJoined(w: World, s: Span, tail: Span, whole: Span)
    requires Shows(w, s) && Shows(w, tail) && tail.start == s.end && tail.id == s.id == whole.id
    requires |s.instances| == s.end - s.start
    requires whole.start == s.start && whole.end == tail.end && whole.instances == s.instances + tail.instances
    ensures Shows(w, whole)
  {
    forall m | 0 <= m < whole.end - whole.start
      ensures whole.instances[m] == w.cells[s.start - w.base + m]
      ensures whole.instances[m] in w.index && w.index[whole.instances[m]].bucketId == s.id
    {
      if m < |s.instances| {
        assert whole.instances[m] == s.instances[m];
      } else {
        assert whole.instances[m] == tail.instances[m - |s.instances|];
      }
    }
  }

  lemma ScaleShowsAt(w: World, n: nat, k: nat)
    requires Inv(w, NUM_ACTIVE, NUM_AVAILABLE) && Before(|w.spans|, NUM_AVAILABLE) <= k < |w.spans|
    ensures Shows(Scale(w, n), Scale(w, n).spans[k])
  {
    var s, g, w' := Last(w), Grow(w, n, Last(w).id), Scale(w, n);
    GrowKeepsShown(w, n, s.id, w.spans[k]);
    var tail := Span(s.id, End(w), End(w), End(w) + n, Active, Ids(End(w), n));
    GrowShowsNew(w, n, tail);
    hide Shows, Chained, Heated, Counted, Indexed;
    if k == |w.spans| - 1 {
      ShowsJoined(g, s, tail, w'.spans[k]);
    }
    ShowsAlike(g, w', w'.spans[k]);
  }

  lemma ScaleCovers(w: World, n: nat)
    requires Inv(w, NUM_ACTIVE, NUM_AVAILABLE)
    ensures Covered(Scale(w, n), NUM_AVAILABLE)
  {
    var w' := Scale(w, n);
    forall k | Before(|w.spans|, NUM_AVAILABLE) <= k < |w'.spans|
      ensures Shows(w', w'.spans[k])
    {
      ScaleShowsAt(w, n, k);
    }
    hide Shows, Indexed, Chained, Heated, Counted;
  }

  lemma ScaleKeeps(w: World, n: nat)
    requires Inv(w, NUM_ACTIVE, NUM_AVAILABLE)
    ensures Inv(Scale(w, n), NUM_ACTIVE, NUM_AVAILABLE)
  {
    var w' := Scale(w, n);
    GrowKeepsIndexed(w, n, Last(w).id);
    assert Indexed(w');
    ScaleCovers(w, n);
    ChainLast(w.spans, Last(w'));
    HeatSame(w.spans, Last(w'), NUM_ACTIVE, NUM_AVAILABLE);
    CountedBy(w, NUM_ACTIVE);
    CountedBy(w', NUM_ACTIVE);
    hide Indexed, Chained, Heated, Shows, Counted;
  }

  // -- flush --

  lemma SwapKeepsIndexed(w: World, i: nat, j: nat)
    requires CanSwap(w, i, j)
    ensures Indexed(SwapIns(w, i, j))
  {
    if i != j {
      Distinct(w, i - w.base, j - w.base);
      forall k | 0 <= k < |w.cells| && k != i - w.base && k != j - w.base
        ensures w.cells[k] != w.cells[i - w.base] && w.cells[k] != w.cells[j - w.base]
      {
        Distinct(w, k, i - w.base);
        Distinct(w, k, j - w.base);
      }
    }
  }

  lemma SwapShowsOther(w: World, i: nat, j: nat, s: Span)
    requires CanSwap(w, i, j) && Shows(w, s) && s.end <= Last(w).start
    ensures Shows(SwapIns(w, i, j), s)
  {
    forall k | 0 <= k < s.end - s.start
      ensures s.instances[k] != w.cells[i - w.base] && s.instances[k] != w.cells[j - w.base]
    {
      Distinct(w, s.start - w.base + k, i - w.base);
      Distinct(w, s.start - w.base + k, j - w.base);
    }
  }

  lemma SwapShowsLast(w: World, i: nat, j: nat)
    requires CanSwap(w, i, j)
    ensures Shows(SwapIns(w, i, j), Last(SwapIns(w, i, j)))
  {
    var s, s', w' := Last(w), Last(SwapIns(w, i, j)), SwapIns(w, i, j);
    var x, y := w.cells[i - w.base], w.cells[j - w.base];
    assert x == s.instances[i - s.start] && y == s.instances[j - s.start];
    forall k | 0 <= k < s.end - s.start
      ensures s'.instances[k] == w'.cells[s.start - w.base + k]
      ensures s'.instances[k] in w'.index && w'.index[s'.instances[k]].bucketId == s.id
    {
      if k == j - s.start || k == i - s.start {
        assert s'.instances[k] == x || s'.instances[k] == y;
      } else {
        assert s'.instances[k] == s.instances[k];
      }
    }
  }

  lemma SwapCovers(w: World, i: nat, j: nat)
    requires Inv(w, NUM_ACTIVE, NUM_AVAILABLE) && CanSwap(w, i, j)
    ensures Covered(SwapIns(w, i, j), NUM_AVAILABLE)
  {
    var w' := SwapIns(w, i, j);
    SwapShowsLast(w, i, j);
    forall k | Before(|w.spans|, NUM_AVAILABLE) <= k < |w'.spans|
      ensures Shows(w', w'.spans[k])
    {
      if k < |w.spans| - 1 {
        assert Joins(w.spans, k + 1);
        ChainOrder(w.spans, k + 1, |w.spans| - 1);
        SwapShowsOther(w, i, j, w.spans[k]);
      }
    }
    hide Shows, Indexed, Chained, Heated, Counted;
  }

  lemma SwapKeeps(w: World, i: nat, j: nat)
    requires Inv(w, NUM_ACTIVE, NUM_AVAILABLE) && CanSwap(w, i, j)
    ensures Inv(SwapIns(w, i, j), NUM_ACTIVE, NUM_AVAILABLE)
  {
    var w' := SwapIns(w, i, j);
    SwapKeepsIndexed(w, i, j);
    SwapCovers(w, i, j);
    LastKeeps(w, w');
  }

  /** The last bucket changes in its instances or its fill mark only. */
  lemma LastKeeps(w: World, w': World)
    requires Inv(w, NUM_ACTIVE, NUM_AVAILABLE) && |w'.spans| == |w.spans|
    requires w'.spans == w.spans[|w.spans| - 1 := Last(w')]
    requires Last(w').(active := 0, instances := []) == Last(w).(active := 0, instances := [])
    requires Last(w').start <= Last(w').active <= Last(w').end && w'.numActives == w.numActives
    requires Indexed(w') && Covered(w', NUM_AVAILABLE)
    ensures Inv(w', NUM_ACTIVE, NUM_AVAILABLE)
  {
    hide Indexed, Shows;
    ChainLast(w.spans, Last(w'));
    HeatSame(w.spans, Last(w'), NUM_ACTIVE, NUM_AVAILABLE);
    CountedBy(w, NUM_ACTIVE);
    CountedBy(w', NUM_ACTIVE);
    hide Chained, Heated, Covered, Counted;
  }

  lemma FillKeeps(w: World, active: nat)
    requires Inv(w, NUM_ACTIVE, NUM_AVAILABLE) && Last(w).active <= active <= Last(w).end
    ensures Inv(Fill(w, active), NUM_ACTIVE, NUM_AVAILABLE)
  {
    var w' := Fill(w, active);
    assert Indexed(w');
    assert Covered(w', NUM_AVAILABLE) by {
      forall k | Before(|w.spans|, NUM_AVAILABLE) <= k < |w'.spans|
        ensures Shows(w', w'.spans[k])
      {
        assert Shows(w, w.spans[k]);
      }
    }
    LastKeeps(w, w');
  }

  // -- degrade and expire --

  lemma HeatOnly(spans: seq<Span>, spans': seq<Span>)
    requires Chained(spans) && |spans'| == |spans|
    requires forall k :: 0 <= k < |spans| ==> spans'[k] == spans[k].(heat := spans'[k].heat)
    ensures Chained(spans')
  {
    forall k | 0 < k < |spans'|
      ensures Joins(spans', k)
    {
      assert Joins(spans, k);
    }
  }

  lemma HeatShows(w: World, w': World, s: Span, heat: Heat)
    requires Shows(w, s) && w'.base == w.base && w'.cells == w.cells && w'.index == w.index
    ensures Shows(w', s.(heat := heat))
  {
  }

  lemma DegradeCovers(w: World)
    requires Inv(w, NUM_ACTIVE + 1, NUM_AVAILABLE + 1) && |w.spans| > NUM_ACTIVE
    ensures Covered(Degrade(w), NUM_AVAILABLE + 1)
  {
    var w', n := Degrade(w), |w.spans|;
    hide Chained, Heated, Counted, Indexed, Shows;
    forall m | Before(n, NUM_AVAILABLE + 1) <= m < n
      ensures Shows(w', w'.spans[m])
    {
      HeatShows(w, w', w.spans[m], w'.spans[m].heat);
    }
  }

  lemma DegradeHeats(spans: seq<Span>)
    requires Heated(spans, NUM_ACTIVE + 1, NUM_AVAILABLE + 1) && |spans| > NUM_ACTIVE
    ensures var k := |spans| - NUM_ACTIVE - 1;
      Heated(spans[k := spans[k].(heat := Cold)], NUM_ACTIVE, NUM_AVAILABLE + 1)
  {
  }

  lemma DegradeKeeps(w: World)
    requires Inv(w, NUM_ACTIVE + 1, NUM_AVAILABLE + 1)
    ensures Inv(Degrade(w), NUM_ACTIVE, NUM_AVAILABLE + 1)
  {
    var w', n := Degrade(w), |w.spans|;
    IndexedAlike(w, w');
    hide Shows, Heated, Counted, Indexed, Covered, Chained;
    if n > NUM_ACTIVE {
      DegradeCovers(w);
      DegradeHeats(w.spans);
      DegradeCounts(w);
    } else {
      DegradeEarly(w.spans);
      CountedAll(w);
    }
  }

  lemma CountedAll(w: World)
    requires |w.spans| <= NUM_ACTIVE && Counted(w, NUM_ACTIVE + 1)
    ensures Counted(w, NUM_ACTIVE)
  {
  }

  lemma DegradeCounts(w: World)
    requires Inv(w, NUM_ACTIVE + 1, NUM_AVAILABLE + 1) && |w.spans| > NUM_ACTIVE
    ensures Chained(Degrade(w).spans) && Counted(Degrade(w), NUM_ACTIVE)
  {
    hide Shows, Heated, Counted, Indexed, Covered;
    var w', k := Degrade(w), |w.spans| - NUM_ACTIVE - 1;
    HeatOnly(w.spans, w'.spans);
    CountedBy(w, NUM_ACTIVE + 1);
    CountedBy(w', NUM_ACTIVE);
    assert Joins(w.spans, k + 1);
    hide Chained;
    assert Last(w') == Last(w) && w'.spans[k + 1] == w.spans[k + 1];
  }

  lemma DegradeEarly(spans: seq<Span>)
    requires Heated(spans, NUM_ACTIVE + 1, NUM_AVAILABLE + 1) && |spans| <= NUM_ACTIVE
    ensures Heated(spans, NUM_ACTIVE, NUM_AVAILABLE + 1)
  {
  }

  lemma {:induction false} NoneExpiring(spans: seq<Span>, m: nat)
    requires m <= |spans| && forall k :: 0 <= k < m ==> spans[k].heat == Expired
    ensures Expiring(spans, m) == 0
  {
    if m > 0 {
      NoneExpiring(spans, m - 1);
    }
  }

  /** What is left of a group whose oldest n instances are gone. */
  function Dropped(w: World, n: nat): World
    requires n <= |w.cells|
  {
    w.(cells := w.cells[n..], base := w.base + n)
  }

  lemma DropShows(w: World, n: nat, s: Span)
    requires Shows(w, s) && n <= |w.cells| && w.base + n <= s.start
    ensures Shows(Dropped(w, n), s)
  {
    forall k | 0 <= k < s.end - s.start
      ensures s.instances[k] == w.cells[n..][s.start - (w.base + n) + k]
    {
      assert s.instances[k] == w.cells[s.start - w.base + k];
    }
  }

  lemma DropKeepsIndexed(w: World, n: nat)
    requires Indexed(w) && n <= |w.cells|
    ensures Indexed(Dropped(w, n))
  {
  }

  /** One bucket expires per tick, the oldest one left in the group. */
  lemma ExpireIs(w: World)
    requires Inv(w, NUM_ACTIVE, NUM_AVAILABLE + 1) && |w.spans| > NUM_AVAILABLE
    ensures var m := |w.spans| - NUM_AVAILABLE; var n := Expiring(w.spans, m);
      && 0 <= n == Length(w.spans[m - 1]) <= |w.cells|
      && w.base + n == w.spans[m].start
  {
    var m := |w.spans| - NUM_AVAILABLE;
    NoneExpiring(w.spans, m - 1);
    assert w.spans[m - 1].heat == Cold;
    assert Joins(w.spans, m);
    assert Shows(w, w.spans[m - 1]);
  }

  lemma ExpireCovers(w: World, k: nat)
    requires Inv(w, NUM_ACTIVE, NUM_AVAILABLE + 1) && |w.spans| > NUM_AVAILABLE
    requires |w.spans| - NUM_AVAILABLE <= k < |w.spans|
    ensures Shows(Expire(w), w.spans[k])
  {
    var m := |w.spans| - NUM_AVAILABLE;
    var n := Expiring(w.spans, m);
    ExpireIs(w);
    ChainOrder(w.spans, m, k);
    assert Shows(w, w.spans[k]);
    DropShows(w, n, w.spans[k]);
    hide Shows, Indexed, Chained, Heated, Counted;
    ShowsAlike(Dropped(w, n), Expire(w), w.spans[k]);
  }

  /** The last buckets of a chain. */
  lemma ChainTail(spans: seq<Span>, from: nat)
    requires Chained(spans) && from <= |spans|
    ensures Chained(spans[from..])
  {
    var rest := spans[from..];
    assert forall k :: 0 <= k < |rest| ==> rest[k] == spans[k + from];
    forall k | 0 < k < |rest|
      ensures Joins(rest, k)
    {
      assert Joins(spans, k + from);
    }
  }

  lemma CooledHeat(spans: seq<Span>)
    requires Heated(spans, NUM_ACTIVE, NUM_AVAILABLE + 1) && |spans| > NUM_AVAILABLE
    ensures Heated(Cooled(spans, |spans| - NUM_AVAILABLE)[|spans| - NUM_AVAILABLE - 1..], NUM_ACTIVE, NUM_AVAILABLE)
  {
    var m := |spans| - NUM_AVAILABLE;
    var rest := Cooled(spans, m)[m - 1..];
    forall k | 0 <= k < |rest|
      ensures rest[k].heat ==
        if k < Before(|rest|, NUM_AVAILABLE) then Expired else if k < Before(|rest|, NUM_ACTIVE) then Cold else Active
    {
      assert rest[k] == Cooled(spans, m)[k + m - 1];
    }
  }

  lemma LeftAt(spans: seq<Span>)
    requires |spans| > NUM_AVAILABLE
    ensures var m := |spans| - NUM_AVAILABLE;
      && Left(Cooled(spans, m)) == Cooled(spans, m)[m - 1..]
      && |Left(Cooled(spans, m))| == NUM_AVAILABLE + 1
      && forall k :: 0 < k <= NUM_AVAILABLE ==> Left(Cooled(spans, m))[k] == spans[k + m - 1]
  {
  }

  lemma LeftHolds(spans: seq<Span>)
    requires Chained(spans) && Heated(spans, NUM_ACTIVE, NUM_AVAILABLE + 1) && |spans| > NUM_AVAILABLE
    ensures var left := Left(Cooled(spans, |spans| - NUM_AVAILABLE));
      Chained(left) && Heated(left, NUM_ACTIVE, NUM_AVAILABLE)
  {
    hide Heated, Chained, Left, Cooled;
    var m := |spans| - NUM_AVAILABLE;
    CooledChained(spans, m);
    CooledHeat(spans);
    LeftAt(spans);
    ChainTail(Cooled(spans, m), m - 1);
  }

  lemma CooledChained(spans: seq<Span>, m: nat)
    requires Chained(spans)
    ensures Chained(Cooled(spans, m)) && |Cooled(spans, m)| == |spans|
  {
    HeatOnly(spans, Cooled(spans, m));
  }

  /** The buckets left after a tick. */
  lemma ExpireSpans(w: World)
    requires Inv(w, NUM_ACTIVE, NUM_AVAILABLE + 1) && |w.spans| > NUM_AVAILABLE
    ensures |Expire(w).spans| == NUM_AVAILABLE + 1 && Chained(Expire(w).spans)
    ensures Heated(Expire(w).spans, NUM_ACTIVE, NUM_AVAILABLE)
    ensures forall k :: 0 < k <= NUM_AVAILABLE ==> Expire(w).spans[k] == w.spans[k + |w.spans| - NUM_AVAILABLE - 1]
  {
    hide Indexed, Shows, Counted, Heated, Chained, Covered, Expiring, Left, Cooled;
    LeftHolds(w.spans);
    LeftAt(w.spans);
  }

  lemma IndexedAlike(w: World, w': World)
    requires Indexed(w)
    ensures w'.base == w.base && w'.cells == w.cells && w'.index == w.index ==> Indexed(w')
  {
  }

  lemma ExpireGroup(w: World)
    requires Inv(w, NUM_ACTIVE, NUM_AVAILABLE + 1) && |w.spans| > NUM_AVAILABLE
    ensures Indexed(Expire(w)) && End(Expire(w)) == End(w) && Expire(w).numActives == w.numActives
    ensures Expire(w).base == w.spans[|w.spans| - NUM_AVAILABLE].start
  {
    hide Indexed, Chained, Heated, Covered, Counted, Shows, Expiring, Left, Cooled;
    ExpireIs(w);
    var n := Expiring(w.spans, |w.spans| - NUM_AVAILABLE);
    DropKeepsIndexed(w, n);
    IndexedAlike(Dropped(w, n), Expire(w));
  }

  lemma ExpireShows(w: World)
    requires Inv(w, NUM_ACTIVE, NUM_AVAILABLE + 1) && |w.spans| > NUM_AVAILABLE
    requires |Expire(w).spans| == NUM_AVAILABLE + 1
    requires forall k :: 0 < k <= NUM_AVAILABLE ==> Expire(w).spans[k] == w.spans[k + |w.spans| - NUM_AVAILABLE - 1]
    ensures forall k :: 0 < k <= NUM_AVAILABLE ==> Shows(Expire(w), Expire(w).spans[k])
  {
    hide Shows, Chained, Heated, Counted, Indexed, Covered, Expire;
    forall k | 0 < k <= NUM_AVAILABLE
      ensures Shows(Expire(w), Expire(w).spans[k])
    {
      ExpireCovers(w, k + |w.spans| - NUM_AVAILABLE - 1);
    }
  }

  lemma ExpireKeeps(w: World)
    requires Inv(w, NUM_ACTIVE, NUM_AVAILABLE + 1)
    ensures Inv(Expire(w), NUM_ACTIVE, NUM_AVAILABLE) && |Expire(w).spans| <= NUM_AVAILABLE + 1
    ensures |Expire(w).spans| <= |w.spans|
  {
    if |w.spans| > NUM_AVAILABLE {
      hide Shows, Chained, Heated, Counted, Indexed, Covered, Expire;
      ExpireGroup(w);
      ExpireSpans(w);
      ExpireShows(w);
      ExpireHolds(w, Expire(w));
    } else {
      HeatEarly(w.spans);
    }
  }

  lemma HeatEarly(spans: seq<Span>)
    requires Heated(spans, NUM_ACTIVE, NUM_AVAILABLE + 1) && |spans| <= NUM_AVAILABLE
    ensures Heated(spans, NUM_ACTIVE, NUM_AVAILABLE)
  {
  }

  lemma ExpireHolds(w: World, w': World)
    requires Inv(w, NUM_ACTIVE, NUM_AVAILABLE + 1) && |w.spans| > NUM_AVAILABLE && |w'.spans| == NUM_AVAILABLE + 1
    requires Chained(w'.spans) && Indexed(w') && Heated(w'.spans, NUM_ACTIVE, NUM_AVAILABLE)
    requires forall k :: 0 < k <= NUM_AVAILABLE ==> w'.spans[k] == w.spans[k + |w.spans| - NUM_AVAILABLE - 1]
    requires forall k :: 0 < k <= NUM_AVAILABLE ==> Shows(w', w'.spans[k])
    requires End(w') == End(w) && w'.base == w.spans[|w.spans| - NUM_AVAILABLE].start && w'.numActives == w.numActives
    ensures Inv(w', NUM_ACTIVE, NUM_AVAILABLE)
  {
    CountedBy(w, NUM_ACTIVE);
    CountedBy(w', NUM_ACTIVE);
    hide Shows, Indexed, Chained, Heated, Counted;
    assert Last(w') == Last(w);
  }

  // ----- runs -----

  ghost predicate Within(w: World, swaps: seq<(nat, nat)>, active: nat) {
    && |w.spans| > 0 && Last(w).active <= active <= Last(w).end
    && forall k :: 0 <= k < |swaps| ==>
      Last(w).active <= swaps[k].0 < Last(w).end && Last(w).active <= swaps[k].1 < Last(w).end
  }

  /** flushInactiveLocked: full instances of the current bucket are packed by some swaps, then the bucket's fill mark
      moves on. */
  function Flushed(w: World, swaps: seq<(nat, nat)>, active: nat): (r: World)
    requires Inv(w, NUM_ACTIVE, NUM_AVAILABLE) && Within(w, swaps, active)
    ensures Inv(r, NUM_ACTIVE, NUM_AVAILABLE)
    decreases |swaps|
  {
    if |swaps| == 0 then
      FillKeeps(w, active);
      Fill(w, active)
    else
      CanSwapHere(w, swaps[0].0, swaps[0].1);
      SwapKeeps(w, swaps[0].0, swaps[0].1);
      Flushed(SwapIns(w, swaps[0].0, swaps[0].1), swaps[1..], active)
  }

  lemma CanSwapHere(w: World, i: nat, j: nat)
    requires Inv(w, NUM_ACTIVE, NUM_AVAILABLE)
    requires Last(w).active <= i < Last(w).end && Last(w).active <= j < Last(w).end
    ensures CanSwap(w, i, j)
  {
    assert Shows(w, w.spans[|w.spans| - 1]);
  }

  datatype Action =
    | Flush(swaps: seq<(nat, nat)>, active: nat)
    | Grew(n: nat)
    | Tick(num: nat, swaps: seq<(nat, nat)>, active: nat)

  ghost predicate Enabled(w: World, a: Action) {
    match a
    case Flush(swaps, active) => Within(w, swaps, active)
    case Grew(_) => true
    case Tick(_, swaps, active) => Within(w, swaps, active)
  }

  /** Rotate: a new bucket of num instances, or the rest of the current bucket if that has enough. */
  function Rotated(w: World, num: nat, swaps: seq<(nat, nat)>, active: nat): (r: World)
    requires Inv(w, NUM_ACTIVE, NUM_AVAILABLE) && Within(w, swaps, active)
    ensures Inv(r, NUM_ACTIVE + 1, NUM_AVAILABLE + 1)
  {
    if Last(w).active + num > Last(w).end then
      OpenKeeps(w, num);
      Open(w, Last(w).id + 1, num)
    else
      var f := Flushed(w, swaps, active);
      SplitKeeps(f);
      Split(f)
  }

  // ----- what an operation makes of the cluster, told from before and after -----

  /** n instances joined at the end of the group and count as active. */
  ghost predicate Added(w: World, r: World, n: nat) {
    w.cells <= r.cells && r.base == w.base && End(r) == End(w) + n && r.numActives == w.numActives + n
  }

  /** They make up a bucket of their own. */
  ghost predicate Opened(w: World, r: World, n: nat) {
    && Added(w, r, n) && |r.spans| == |w.spans| + 1 && r.spans[..|w.spans|] == w.spans
    && Last(r).start == Last(r).active == End(w) && Last(r).end == End(w) + n
  }

  /** They join the current bucket. */
  ghost predicate Extended(w: World, r: World, n: nat)
    requires |w.spans| > 0
  {
    && Added(w, r, n) && |r.spans| == |w.spans| && r.spans[..|w.spans| - 1] == w.spans[..|w.spans| - 1]
    && Last(r).start == Last(w).start && Last(r).active == Last(w).active && Last(r).end == End(w) + n
  }

  /** The same instances; those in front of position upTo have kept their places. */
  ghost predicate Reordered(w: World, r: World, upTo: nat) {
    && multiset(r.cells) == multiset(w.cells) && |r.cells| == |w.cells|
    && r.base == w.base && r.numActives == w.numActives
    && upTo <= |w.cells| && r.cells[..upTo] == w.cells[..upTo]
  }

  /** The instances of the current bucket from active on make up the next one. */
  ghost predicate Divided(w: World, r: World, active: nat)
    requires |w.spans| > 0
  {
    && Last(w).active >= w.base && Reordered(w, r, Last(w).active - w.base)
    && |r.spans| == |w.spans| + 1 && r.spans[..|w.spans| - 1] == w.spans[..|w.spans| - 1]
    && r.spans[|w.spans| - 1].start == Last(w).start && r.spans[|w.spans| - 1].end == active
    && Last(r).start == Last(r).active == active && Last(r).end == End(w)
  }

  /** The current bucket now has its fill mark at active. */
  ghost predicate FilledUp(w: World, r: World, active: nat)
    requires |w.spans| > 0
  {
    && Last(w).active >= w.base && Reordered(w, r, Last(w).active - w.base)
    && |r.spans| == |w.spans| && r.spans[..|w.spans| - 1] == w.spans[..|w.spans| - 1]
    && Last(r).start == Last(w).start && Last(r).active == active && Last(r).end == Last(w).end
  }

  lemma ExchangedCells(s: seq<InstanceId>, i: nat, j: nat, upTo: nat)
    requires upTo <= i < |s| && upTo <= j < |s|
    ensures multiset(Exchanged(s, i, j)) == multiset(s) && Exchanged(s, i, j)[..upTo] == s[..upTo]
  {
  }

  lemma CurrentInGroup(w: World)
    requires Inv(w, NUM_ACTIVE, NUM_AVAILABLE)
    ensures |w.spans| > 0 && w.base <= Last(w).start <= Last(w).active <= Last(w).end == End(w)
    ensures |Last(w).instances| == Length(Last(w))
  {
    assert Shows(w, w.spans[|w.spans| - 1]);
    hide Indexed, Heated, Counted;
  }

  lemma SwapLeaves(w: World, i: nat, j: nat)
    requires CanSwap(w, i, j)
    ensures var r := SwapIns(w, i, j);
      && w.base <= i < End(w) && w.base <= j < End(w) && r.cells == Exchanged(w.cells, i - w.base, j - w.base)
      && r.base == w.base && r.numActives == w.numActives && |r.spans| == |w.spans|
      && r.spans[..|w.spans| - 1] == w.spans[..|w.spans| - 1]
      && Last(r) == Last(w).(instances := Last(r).instances)
  {
    hide Exchanged, Indexed;
  }

  lemma SwapReorders(w: World, i: nat, j: nat)
    requires Inv(w, NUM_ACTIVE, NUM_AVAILABLE) && CanSwap(w, i, j)
    ensures FilledUp(w, SwapIns(w, i, j), Last(w).active)
  {
    CurrentInGroup(w);
    SwapLeaves(w, i, j);
    assert Last(w).active <= i && Last(w).active <= j;
    hide Inv, CanSwap, SwapIns, Exchanged;
    ExchangedCells(w.cells, i - w.base, j - w.base, Last(w).active - w.base);
  }

  lemma FillFillsUp(w: World, active: nat)
    requires |w.spans| > 0 && w.base <= Last(w).active <= End(w)
    ensures FilledUp(w, Fill(w, active), active)
  {
  }

  lemma FilledUpFurther(w: World, m: World, r: World, active: nat)
    requires |w.spans| > 0 && FilledUp(w, m, Last(w).active) && |m.spans| > 0 && FilledUp(m, r, active)
    ensures FilledUp(w, r, active)
  {
  }

  lemma {:induction false} FlushFillsUp(w: World, swaps: seq<(nat, nat)>, active: nat)
    requires Inv(w, NUM_ACTIVE, NUM_AVAILABLE) && Within(w, swaps, active)
    ensures FilledUp(w, Flushed(w, swaps, active), active)
    decreases |swaps|
  {
    hide FilledUp;
    CurrentInGroup(w);
    if |swaps| > 0 {
      CanSwapHere(w, swaps[0].0, swaps[0].1);
      SwapKeeps(w, swaps[0].0, swaps[0].1);
      SwapReorders(w, swaps[0].0, swaps[0].1);
      hide Inv, CanSwap;
      var m := SwapIns(w, swaps[0].0, swaps[0].1);
      FlushFillsUp(m, swaps[1..], active);
      hide SwapIns;
      FilledUpFurther(w, m, Flushed(w, swaps, active), active);
    } else {
      hide Inv;
      FillFillsUp(w, active);
    }
  }

  lemma OpenOpens(w: World, id: nat, n: nat)
    ensures Opened(w, Open(w, id, n), n)
  {
    hide Labels;
  }

  /** Rotation: num new instances in a bucket of their own if the current bucket has too few left, and otherwise no
      new instance: the next bucket is what the current one has left. */
  lemma RotationOpensOrDivides(w: World, num: nat, swaps: seq<(nat, nat)>, active: nat)
    requires Inv(w, NUM_ACTIVE, NUM_AVAILABLE) && Within(w, swaps, active)
    ensures Last(w).active + num > Last(w).end ==> Opened(w, Rotated(w, num, swaps, active), num)
    ensures Last(w).active + num <= Last(w).end ==> Divided(w, Rotated(w, num, swaps, active), active)
  {
    if Last(w).active + num > Last(w).end {
      hide Inv, Within;
      OpenOpens(w, Last(w).id + 1, num);
    } else {
      FlushFillsUp(w, swaps, active);
      CurrentInGroup(w);
      CurrentInGroup(Flushed(w, swaps, active));
      hide Inv, Within, Flushed, Relabelled;
    }
  }

  lemma ScaleExtends(w: World, n: nat)
    requires |w.spans| > 0 && Last(w).end == End(w)
    ensures Extended(w, Scale(w, n), n)
  {
    hide Labels;
  }

  /** One successful round of the daemon. */
  function Ticked(w: World, num: nat, swaps: seq<(nat, nat)>, active: nat): (r: World)
    requires Inv(w, NUM_ACTIVE, NUM_AVAILABLE) && Within(w, swaps, active)
    ensures Inv(r, NUM_ACTIVE, NUM_AVAILABLE) && |r.spans| <= NUM_AVAILABLE + 1
  {
    var rotated := Rotated(w, num, swaps, active);
    DegradeKeeps(rotated);
    ExpireKeeps(Degrade(rotated));
    Expire(Degrade(rotated))
  }

  function Apply(w: World, a: Action): (r: World)
    requires Inv(w, NUM_ACTIVE, NUM_AVAILABLE) && Enabled(w, a)
    ensures Inv(r, NUM_ACTIVE, NUM_AVAILABLE)
  {
    match a
    case Flush(swaps, active) => Flushed(w, swaps, active)
    case Grew(n) => ScaleKeeps(w, n); Scale(w, n)
    case Tick(num, swaps, active) => Ticked(w, num, swaps, active)
  }

  ghost predicate Runs(w: World, actions: seq<Action>, e: World)
    requires Inv(w, NUM_ACTIVE, NUM_AVAILABLE)
    decreases |actions|
  {
    if |actions| == 0 then w == e
    else Enabled(w, actions[0]) && Runs(Apply(w, actions[0]), actions[1..], e)
  }

  lemma {:induction false} RunKeepsInv(w: World, actions: seq<Action>, e: World)
    requires Inv(w, NUM_ACTIVE, NUM_AVAILABLE) && Runs(w, actions, e)
    ensures Inv(e, NUM_ACTIVE, NUM_AVAILABLE)
    decreases |actions|
  {
    hide Inv, Apply, Enabled;
    if |actions| > 0 {
      RunKeepsInv(Apply(w, actions[0]), actions[1..], e);
    }
  }

  /** What a cluster that started with n instances can get to by the actions. */
  ghost predicate Reaches(n: nat, actions: seq<Action>, w: World) {
    StartHolds(n);
    Runs(Open(Empty(), 0, n), actions, w)
  }

  lemma ReachesInv(n: nat, actions: seq<Action>, w: World)
    requires Reaches(n, actions, w)
    ensures Inv(w, NUM_ACTIVE, NUM_AVAILABLE)
  {
    StartHolds(n);
    hide Inv;
    RunKeepsInv(Open(Empty(), 0, n), actions, w);
  }

  lemma {:induction false} BucketAt(w: World, idx: nat, k: nat) returns (j: nat)
    requires Chained(w.spans) && k < |w.spans| && w.spans[k].start <= idx < Last(w).end
    ensures k <= j < |w.spans| && w.spans[j].start <= idx < w.spans[j].end
    decreases |w.spans| - k
  {
    j := k;
    if idx >= w.spans[k].end {
      assert Joins(w.spans, k + 1);
      j := BucketAt(w, idx, k + 1);
    }
  }

  lemma OnlyBucket(w: World, idx: nat, i: nat, j: nat)
    requires Chained(w.spans) && i < |w.spans| && j < |w.spans|
    requires w.spans[i].start <= idx < w.spans[i].end && w.spans[j].start <= idx < w.spans[j].end
    ensures i == j
  {
    if i < j {
      assert Joins(w.spans, i + 1);
      ChainOrder(w.spans, i + 1, j);
    } else if j < i {
      assert Joins(w.spans, j + 1);
      ChainOrder(w.spans, j + 1, i);
    }
  }

  lemma HomeOf(w: World, idx: nat) returns (j: nat)
    requires Inv(w, NUM_ACTIVE, NUM_AVAILABLE) && w.base <= idx < End(w)
    ensures w.cells[idx - w.base] in w.index && w.index[w.cells[idx - w.base]].idx == idx
    ensures j < |w.spans| && w.spans[j].heat != Expired
    ensures w.spans[j].start <= idx < w.spans[j].end && idx - w.spans[j].start < |w.spans[j].instances|
    ensures w.spans[j].instances[idx - w.spans[j].start] == w.cells[idx - w.base]
    ensures w.index[w.cells[idx - w.base]].bucketId == w.spans[j].id
    ensures forall i :: 0 <= i < |w.spans| && w.spans[i].start <= idx < w.spans[i].end ==> i == j
  {
    j := BucketAt(w, idx, Before(|w.spans|, NUM_AVAILABLE));
    assert Shows(w, w.spans[j]);
    assert w.spans[j].heat != Expired;
    hide Covered, Counted, Heated;
    assert w.spans[j].instances[idx - w.spans[j].start] ==
      w.cells[w.spans[j].start - w.base + (idx - w.spans[j].start)];
    hide Shows, Indexed;
    forall i | 0 <= i < |w.spans| && w.spans[i].start <= idx < w.spans[i].end
      ensures i == j
    {
      OnlyBucket(w, idx, i, j);
    }
  }

  /** Through every run that starts with n instances, a logical index in the group leads to the instance that has
      this index, the index lies in exactly one unexpired bucket, that bucket lists the instance and the instance
      carries the bucket's id. */
  lemma IndexLeadsHome(n: nat, actions: seq<Action>, w: World, idx: nat) returns (j: nat)
    requires Reaches(n, actions, w)
    requires w.base <= idx < End(w)
    ensures w.cells[idx - w.base] in w.index && w.index[w.cells[idx - w.base]].idx == idx
    ensures j < |w.spans| && w.spans[j].heat != Expired
    ensures w.spans[j].start <= idx < w.spans[j].end && idx - w.spans[j].start < |w.spans[j].instances|
    ensures w.spans[j].instances[idx - w.spans[j].start] == w.cells[idx - w.base]
    ensures w.index[w.cells[idx - w.base]].bucketId == w.spans[j].id
    ensures forall i :: 0 <= i < |w.spans| && w.spans[i].start <= idx < w.spans[i].end ==> i == j
  {
    ReachesInv(n, actions, w);
    hide Reaches;
    j := HomeOf(w, idx);
  }

  /** Through every run the buckets are contiguous with consecutive ids, the last one ends at the end of the group,
      the group begins with the first unexpired bucket, and numActives is the number of instances in the last
      NUM_ACTIVE buckets, exactly those that are hot. */
  lemma BucketsPartitionGroup(n: nat, actions: seq<Action>, w: World)
    requires Reaches(n, actions, w)
    ensures |w.spans| > 0 && Last(w).end == End(w)
    ensures forall k :: 0 <= k < |w.spans| ==>
      w.spans[k].id == w.spans[0].id + k && w.spans[k].start <= w.spans[k].active <= w.spans[k].end
    ensures forall k :: 0 < k < |w.spans| ==> Joins(w.spans, k)
    ensures var k := Before(|w.spans|, NUM_AVAILABLE);
      && w.spans[k].start == w.base && w.spans[k].heat != Expired
      && forall i :: 0 <= i < k ==> w.spans[i].heat == Expired
    ensures var k := Before(|w.spans|, NUM_ACTIVE);
      && w.numActives == Total(w.spans, k) == End(w) - w.spans[k].start
      && forall i :: 0 <= i < |w.spans| ==> (w.spans[i].heat == Active <==> i >= k)
  {
    ReachesInv(n, actions, w);
    hide Reaches, Inv;
    OrderOf(w);
    FirstOf(w);
    ActivesOf(w);
  }

  lemma OrderOf(w: World)
    requires Inv(w, NUM_ACTIVE, NUM_AVAILABLE)
    ensures |w.spans| > 0 && Last(w).end == End(w)
    ensures forall k :: 0 <= k < |w.spans| ==>
      w.spans[k].id == w.spans[0].id + k && w.spans[k].start <= w.spans[k].active <= w.spans[k].end
    ensures forall k :: 0 < k < |w.spans| ==> Joins(w.spans, k)
  {
    hide Shows, Indexed, Heated, Counted;
  }

  lemma FirstOf(w: World)
    requires Inv(w, NUM_ACTIVE, NUM_AVAILABLE)
    ensures var k := Before(|w.spans|, NUM_AVAILABLE);
      && k < |w.spans| && w.spans[k].start == w.base && w.spans[k].heat != Expired
      && forall i :: 0 <= i < k ==> w.spans[i].heat == Expired
  {
    hide Shows, Indexed, Chained, Counted;
  }

  lemma ActivesOf(w: World)
    requires Inv(w, NUM_ACTIVE, NUM_AVAILABLE)
    ensures var k := Before(|w.spans|, NUM_ACTIVE);
      && k < |w.spans| && w.numActives == Total(w.spans, k) == End(w) - w.spans[k].start
      && forall i :: 0 <= i < |w.spans| ==> (w.spans[i].heat == Active <==> i >= k)
  {
    hide Shows, Indexed;
    ActiveLength(w.spans, Before(|w.spans|, NUM_ACTIVE));
    hide Chained, Total;
  }
}
