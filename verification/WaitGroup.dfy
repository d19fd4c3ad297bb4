/** The wait group of common/sync/waitgroup.go: it tolerates a Done that arrives before the matching Add by keeping a
    signed balance next to the real counter. */
module EarlyDoneWaitGroup {

  /** waiting: signed balance of Add and Done; count: the counter of the wrapped standard wait group, the one Wait
      blocks on. */
  datatype Counters = Counters(waiting: int, count: int)

  /** What the class promises: callers block exactly while the balance is positive. */
  ghost predicate Balanced(c: Counters) {
    c.count == if c.waiting > 0 then c.waiting else 0
  }

  function AddTo(c: Counters, delta: int): Counters {
    var waiting := c.waiting + delta;
    if delta > 0 && waiting > 0 then Counters(waiting, c.count + delta)
    else if delta < 0 && waiting >= 0 then Counters(waiting, c.count + delta)
    else Counters(waiting, c.count)
  }

  /** The delta does not carry the balance across zero in one stride. */
  ghost predicate StaysOnOneSide(waiting: int, delta: int) {
    (waiting >= 0 || waiting + delta <= 0) && (waiting <= 0 || waiting + delta >= 0)
  }

  /** The real counter tracks the balance after Add exactly when the delta does not jump over zero. */
  lemma AddKeepsBalanceIff(c: Counters, delta: int)
    requires Balanced(c)
    ensures Balanced(AddTo(c, delta)) <==> StaysOnOneSide(c.waiting, delta)
  {
  }

  ghost function Net(deltas: seq<int>): int {
    if |deltas| == 0 then 0 else Net(deltas[..|deltas| - 1]) + deltas[|deltas| - 1]
  }

  function AddAll(c: Counters, deltas: seq<int>): Counters {
    if |deltas| == 0 then c else AddTo(AddAll(c, deltas[..|deltas| - 1]), deltas[|deltas| - 1])
  }

  /** Over any run of single Adds and Dones, in any order, a waiter is blocked exactly while more Adds than Dones
      have happened, and by exactly that many. */
  lemma {:induction false} UnitRunBlocksOnSurplus(deltas: seq<int>)
    requires forall i :: 0 <= i < |deltas| ==> deltas[i] == 1 || deltas[i] == -1
    ensures AddAll(Counters(0, 0), deltas).waiting == Net(deltas)
    ensures AddAll(Counters(0, 0), deltas).count == if Net(deltas) > 0 then Net(deltas) else 0
  {
    if |deltas| > 0 {
      var last := |deltas| - 1;
      UnitRunBlocksOnSurplus(deltas[..last]);
      AddKeepsBalanceIff(AddAll(Counters(0, 0), deltas[..last]), deltas[last]);
    }
  }

  class WaitGroup {
    var waiting: int
    var count: int

    ghost function View(): Counters
      reads this
    {
      Counters(waiting, count)
    }

    constructor ()
      ensures View() == Counters(0, 0)
    {
      waiting, count := 0, 0;
    }

    /** Callers of Wait block on max(waiting, 0) afterwards exactly if the delta does not jump over zero. */
    method Add(delta: int)
      modifies this
      ensures View() == AddTo(old(View()), delta)
      ensures old(Balanced(View())) ==> (Balanced(View()) <==> StaysOnOneSide(old(waiting), delta))
    {
      waiting := waiting + delta;
      if delta > 0 && waiting > 0 {
        count := count + delta;
      } else if delta < 0 && waiting >= 0 {
        count := count + delta;
      }
    }

    method Done()
      requires Balanced(View())
      modifies this
      ensures Balanced(View()) && waiting == old(waiting) - 1
    {
      AddKeepsBalanceIff(View(), -1);
      Add(-1);
    }

    /** Forgets early Dones before the object is reused; never unblocks a waiter. */
    method Reset()
      requires Balanced(View())
      modifies this
      ensures Balanced(View()) && count == old(count)
      ensures waiting == count
    {
      if waiting < 0 {
        waiting := 0;
      }
    }
  }
}
