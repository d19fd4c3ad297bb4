/** The choice of backup candidates for a node, proxy/server/cluster/movingwindow.go: nodes at equal distances in a
    random permutation, starting after the node itself. */
module BackupCandidates {
  import opened Common

  predicate Permutation(p: seq<nat>) {
    && NoRepeats(p)
    && (forall k :: 0 <= k < |p| ==> p[k] < |p|)
    && (forall i :: 0 <= i < |p| ==> i in p)
  }

  /** Two numbers less than n apart differ modulo n. */
  lemma ApartModulo(a: nat, b: nat, n: nat)
    requires a < b < a + n
    ensures a % n != b % n
  {
    var q, r := a / n, b / n;
    DivMod(a, n);
    DivMod(b, n);
    if r <= q {
      MulMonotone(r, q, n);
    } else {
      MulMonotone(q + 1, r, n);
      Distribute(q, 1, n);
      if r > q + 1 {
        MulMonotone(q + 2, r, n);
        Distribute(q, 2, n);
      }
    }
  }

  lemma SmallModulo(a: nat, n: nat)
    requires a < n
    ensures a % n == a
  {
  }

  /** Equal distances stay within one turn. */
  lemma Spread(j: nat, k: nat, num: nat, d: nat)
    requires j < k < num
    ensures j * d + d <= k * d <= (num - 1) * d
  {
    Distribute(j, 1, d);
    MulMonotone(j + 1, k, d);
    MulMonotone(k, num - 1, d);
  }

  /** Number of candidates for numBaks wanted out of n nodes. */
  function Wanted(n: nat, exclude: nat, numBaks: nat): int {
    if numBaks <= n - exclude then numBaks else n - exclude
  }

  /** What the loop relies on: the last candidate is less than a turn away, and short of the node itself. */
  lemma DistanceFits(n: nat, exclude: nat, numBaks: nat, d: nat, num: nat)
    requires exclude <= 1 && numBaks + exclude > 0 && exclude <= n
    requires num == Wanted(n, exclude, numBaks) && num > 0
    requires d == if n / (numBaks + exclude) == 0 then 1 else n / (numBaks + exclude)
    ensures (num - 1) * d < n && (exclude == 1 ==> (num - 1) * d + 1 < n) && d > 0
  {
    var total := numBaks + exclude;
    var q := n / total;
    if q == 0 {
      assert d == 1;
    } else {
      assert q * total <= n;
      assert total <= n by {
        assert q * total == total + (q - 1) * total;
        assert (q - 1) * total >= 0;
      }
      assert num == numBaks;
      assert q * total == (num - 1) * q + q + exclude * q;
    }
  }

  /** Place of i in a permutation, -1 if it has none. */
  method Locate(perm: seq<nat>, i: nat) returns (place: int)
    ensures place == -1 <==> i !in perm
    ensures place != -1 ==> 0 <= place < |perm| && perm[place] == i
  {
    var j := 0;
    while j < |perm|
      invariant 0 <= j <= |perm| && i !in perm[..j]
    {
      if perm[j] == i {
        return j;
      }
      j := j + 1;
    }
    assert perm[..|perm|] == perm;
    place := -1;
  }

  /** Step between candidates and their number; with few nodes all of them are used. */
  method Sizes(available: nat, exclude: nat, wanted: nat) returns (distance: nat, numBaks: nat)
    requires exclude <= 1 && exclude <= available && wanted + exclude > 0
    ensures numBaks == Wanted(available, exclude, wanted) && distance > 0
    ensures distance == 1 || distance * (wanted + exclude) <= available
    ensures available < (distance + 1) * (wanted + exclude)
    ensures numBaks > 0 ==> distance > 0 && (numBaks - 1) * distance < available
    ensures numBaks > 0 && exclude == 1 ==> (numBaks - 1) * distance + 1 < available
  {
    distance := available / (wanted + exclude);
    Widest(available, wanted + exclude);
    numBaks := wanted;
    if distance == 0 {
      distance := 1;
      numBaks := if wanted >= available then available - exclude else wanted;
      if wanted < available {
        EnoughGone(available, wanted + exclude);
      }
    } else {
      EnoughLeft(available, wanted + exclude);
    }
    if numBaks > 0 {
      DistanceFits(available, exclude, wanted, distance, numBaks);
    }
  }

  /** The quotient is the widest step that many of which stay within n. */
  lemma Widest(n: nat, total: nat)
    requires total > 0
    ensures (n / total) * total <= n < (n / total + 1) * total
  {
    DivMod(n, total);
    Distribute(n / total, 1, total);
  }

  lemma EnoughGone(n: nat, total: nat)
    requires total > 0 && n / total == 0
    ensures n < total
  {
    DivMod(n, total);
  }

  /** The candidates follow each other in the permutation at the widest step with which as many as wanted fit into a
      turn, or right after each other, from the place after the node's own on. They are distinct, and the node itself
      is not among them. */
  method GetBackupsForNode<T(==)>(all: seq<T>, i: int, wanted: nat, perm: seq<nat>)
    returns (numBaks: nat, candidates: seq<T>, ghost own: int, ghost step: nat)
    requires Permutation(perm) && |perm| == |all| && i < |all|
    requires i < 0 ==> wanted > 0
    ensures numBaks == |candidates| == Wanted(|all|, if i < 0 then 0 else 1, wanted)
    ensures forall c :: c in candidates ==> c in all
    ensures NoRepeats(all) ==> NoRepeats(candidates)
    ensures NoRepeats(all) && i >= 0 ==> all[i] !in candidates
    ensures if i < 0 then own == -1 else 0 <= own < |perm| && perm[own] == i
    ensures step > 0 && (step == 1 || step * (wanted + if i < 0 then 0 else 1) <= |all|)
    ensures |all| < (step + 1) * (wanted + if i < 0 then 0 else 1)
    ensures |all| > 0 ==> forall k :: 0 <= k < |candidates| ==>
      candidates[k] == all[perm[(own + 1 + k * step) % |all|]]
  {
    var available := |all|;
    var exclude := if i < 0 then 0 else 1;
    var distance, n := Sizes(available, exclude, wanted);
    var permI := -1;
    if exclude > 0 {
      permI := Locate(perm, i);
    }
    assert forall k :: 0 <= k < |perm| ==> perm[k] < |perm|;
    own, step := permI, distance;
    numBaks, candidates := n, [];
    ghost var slots: seq<nat> := [];
    hide Permutation, SlotOf;
    var j := 0;
    while j < numBaks
      invariant 0 <= j <= numBaks && |slots| == |candidates| == j
      invariant forall k :: 0 <= k < j ==> slots[k] == SlotOf(permI, k, distance, available) && slots[k] < available
      invariant forall k :: 0 <= k < j ==> candidates[k] == all[perm[slots[k]]]
    {
      SlotBound(permI, j, distance, available);
      var slot := SlotOf(permI, j, distance, available);
      candidates := candidates + [all[perm[slot]]];
      slots := slots + [slot];
      j := j + 1;
    }
    SlotsApart(slots, permI, distance, available, numBaks);
    if exclude > 0 {
      SlotsAway(slots, permI, distance, available, numBaks);
    }
    Picked(all, perm, slots, candidates);
    forall k | 0 <= k < |candidates|
      ensures slots[k] == (own + 1 + k * step) % |all|
    {
      SlotIs(own, k, step, |all|);
    }
  }

  /** Distinct places of a permutation hold distinct nodes. */
  lemma Picked<T>(all: seq<T>, perm: seq<nat>, slots: seq<nat>, candidates: seq<T>)
    requires Permutation(perm) && |perm| == |all| && |slots| == |candidates| && NoRepeats(slots)
    requires forall k :: 0 <= k < |slots| ==> slots[k] < |all|
    requires forall k :: 0 <= k < |slots| ==> candidates[k] == all[perm[slots[k]]]
    ensures NoRepeats(all) ==> NoRepeats(candidates)
    ensures forall c :: c in candidates ==> c in all
    ensures NoRepeats(all) ==> forall m :: 0 <= m < |all| && m !in slots ==> all[perm[m]] !in candidates
  {
    if NoRepeats(all) {
      forall j, k | 0 <= j < k < |candidates|
        ensures candidates[j] != candidates[k]
      {
        Differ(perm, slots[j], slots[k]);
        Differ(all, perm[slots[j]], perm[slots[k]]);
      }
      forall m, k | 0 <= m < |all| && m !in slots && 0 <= k < |candidates|
        ensures all[perm[m]] != candidates[k]
      {
        Differ(perm, m, slots[k]);
        Differ(all, perm[m], perm[slots[k]]);
      }
    }
  }

  lemma Differ<T>(s: seq<T>, j: nat, k: nat)
    requires NoRepeats(s) && j < |s| && k < |s| && j != k
    ensures s[j] != s[k]
  {
  }

  lemma EnoughLeft(n: nat, total: nat)
    requires total > 0 && n / total > 0
    ensures total <= n
  {
    DivMod(n, total);
    MulMonotone(1, n / total, total);
  }

  function SlotOf(permI: int, j: nat, distance: nat, available: nat): int
    requires available > 0
  {
    (permI + j * distance + 1) % available
  }

  lemma SlotIs(permI: int, j: nat, distance: nat, available: nat)
    requires available > 0
    ensures SlotOf(permI, j, distance, available) == (permI + 1 + j * distance) % available
  {
  }

  lemma SlotBound(permI: int, j: nat, distance: nat, available: nat)
    requires available > 0
    ensures 0 <= SlotOf(permI, j, distance, available) < available
  {
  }

  lemma SlotsApart(slots: seq<nat>, permI: int, d: nat, n: nat, num: nat)
    requires |slots| == num && permI >= -1
    requires num > 0 ==> n > 0 && d > 0 && (num - 1) * d < n
    requires forall k :: 0 <= k < num ==> slots[k] == SlotOf(permI, k, d, n)
    ensures NoRepeats(slots)
  {
    forall j, k | 0 <= j < k < num
      ensures slots[j] != slots[k]
    {
      Spread(j, k, num, d);
      ApartModulo(permI + j * d + 1, permI + k * d + 1, n);
    }
  }

  lemma SlotsAway(slots: seq<nat>, permI: int, d: nat, n: nat, num: nat)
    requires |slots| == num && 0 <= permI < n
    requires num > 0 ==> d > 0 && (num - 1) * d + 1 < n
    requires forall k :: 0 <= k < num ==> slots[k] == SlotOf(permI, k, d, n)
    ensures permI !in slots
  {
    forall k | 0 <= k < num
      ensures slots[k] != permI
    {
      MulMonotone(k, num - 1, d);
      MulMonotone(0, k, d);
      ApartModulo(permI, permI + k * d + 1, n);
      SmallModulo(permI, n);
    }
  }
}
