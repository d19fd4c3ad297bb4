/** The concurrent protocol of the client's sliding window, common/redeo/client/wnd.go: senders (AddRequest) and
    ackers (AckRequest) as atomic steps over shared state. Sequence numbers are counted in units of SeqStep from the
    start of the window, so the first request is number 1. The slot array is a set of filled slots here; the bucket
    list that implements it is verified in module BucketWindow. */
module WindowProtocol {

  /** Where the goroutine that runs AddRequest for one number stands. */
  datatype Sender =
    | Numbered  // holds its number, slot still empty
    | Stored    // slot filled, window not checked yet
    | Deciding  // found the window full, about to call Notifier.Add(1)
    | Waiting   // inside Notifier.Wait
    | Sent      // AddRequest has returned

  /** Where a goroutine that runs AckRequest stands; s is the number it is working on. */
  datatype Acker =
    | Matched(s: nat)          // request located
    | Marked(s: nat)           // meta.Acked set
    | Loaded(s: nat, seen: nat) // wnd.acked read as seen
    | Won(s: nat)              // CAS moved wnd.acked to s
    | Cleared(s: nat)          // slot s emptied
    | Retired(s: nat)          // notifier of s reset
    | Released(s: nat)         // the sender of s + size was notified, if it had a slot

  datatype State = State(
    size: nat,
    top: nat,                 // wnd.seq, the last number handed out
    acked: nat,               // wnd.acked
    senders: map<nat, Sender>,
    slots: set<nat>,          // numbers whose slot is filled
    waiting: map<nat, int>,   // Notifier balance of each number
    marks: set<nat>,          // numbers whose meta.Acked is set
    ackers: map<nat, Acker>)

  datatype Action =
    | Number
    | Store(n: nat)
    | Check(n: nat)
    | Block(n: nat)
    | Wake(n: nat)
    | Match(t: nat, s: nat)
    | Mark(t: nat)
    | Load(t: nat)
    | Swap(t: nat)
    | Clear(t: nat)
    | Reset(t: nat)
    | Release(t: nat)
    | Advance(t: nat)

  function Init(size: nat): State {
    State(size, 0, 0, map[], {}, map[], {}, map[])
  }

  predicate SenderAt(s: State, n: nat, pc: Sender) {
    n in s.senders && n in s.waiting && s.senders[n] == pc
  }

  /** In a disciplined run an ack only ever matches a request that AddRequest has already handed back to its caller,
      i.e. nobody answers a request that was not sent. */
  predicate Enabled(s: State, a: Action, disciplined: bool) {
    match a
    case Number => true
    case Store(n) => SenderAt(s, n, Numbered)
    case Check(n) => SenderAt(s, n, Stored)
    case Block(n) => SenderAt(s, n, Deciding)
    case Wake(n) => SenderAt(s, n, Waiting) && s.waiting[n] <= 0
    case Match(t, n) =>
      && t !in s.ackers && n in s.slots && n in s.waiting && s.waiting[n] <= 0
      && (disciplined ==> SenderAt(s, n, Sent))
    case Mark(t) => t in s.ackers && s.ackers[t].Matched?
    case Load(t) => t in s.ackers && s.ackers[t].Marked?
    case Swap(t) => t in s.ackers && s.ackers[t].Loaded?
    case Clear(t) => t in s.ackers && s.ackers[t].Won?
    case Reset(t) => t in s.ackers && s.ackers[t].Cleared? && s.ackers[t].s in s.waiting
    case Release(t) => t in s.ackers && s.ackers[t].Retired?
    case Advance(t) => t in s.ackers && s.ackers[t].Released?
  }

  function Apply(s: State, a: Action): State
    requires Enabled(s, a, false)
  {
    match a
    case Number =>
      s.(top := s.top + 1, senders := s.senders[s.top + 1 := Numbered], waiting := s.waiting[s.top + 1 := 0])
    case Store(n) => s.(senders := s.senders[n := Stored], slots := s.slots + {n})
    case Check(n) => s.(senders := s.senders[n := if n - s.acked > s.size then Deciding else Sent])
    case Block(n) => s.(senders := s.senders[n := Waiting], waiting := s.waiting[n := s.waiting[n] + 1])
    case Wake(n) => s.(senders := s.senders[n := Sent])
    case Match(t, n) => s.(ackers := s.ackers[t := Matched(n)])
    case Mark(t) => s.(ackers := s.ackers[t := Marked(s.ackers[t].s)], marks := s.marks + {s.ackers[t].s})
    case Load(t) => s.(ackers := s.ackers[t := Loaded(s.ackers[t].s, s.acked)])
    case Swap(t) =>
      var n := s.ackers[t].s;
      if n == s.ackers[t].seen + 1 && s.acked == s.ackers[t].seen
      then s.(ackers := s.ackers[t := Won(n)], acked := n)
      else s.(ackers := s.ackers - {t})
    case Clear(t) => s.(ackers := s.ackers[t := Cleared(s.ackers[t].s)], slots := s.slots - {s.ackers[t].s})
    case Reset(t) =>
      var n := s.ackers[t].s;
      s.(ackers := s.ackers[t := Retired(n)],
         waiting := s.waiting[n := if s.waiting[n] < 0 then 0 else s.waiting[n]])
    case Release(t) =>
      var n := s.ackers[t].s + s.size;
      s.(ackers := s.ackers[t := Released(s.ackers[t].s)],
         waiting := if n in s.slots && n in s.waiting then s.waiting[n := s.waiting[n] - 1] else s.waiting)
    case Advance(t) =>
      var n := s.ackers[t].s;
      if n + 1 <= s.top && n + 1 in s.marks
      then s.(ackers := s.ackers[t := Loaded(n + 1, n)])
      else s.(ackers := s.ackers - {t})
  }

  /** The run performs the actions in order from s and ends in e. */
  ghost predicate Runs(s: State, actions: seq<Action>, e: State, disciplined: bool)
    decreases |actions|
  {
    if |actions| == 0 then s == e
    else
      && Enabled(s, actions[0], disciplined)
      && Enabled(s, actions[0], false)
      && Runs(Apply(s, actions[0]), actions[1..], e, disciplined)
  }

  // ----- invariants of every run -----

  /** The part of the balance a sender has added itself. */
  function OwnShare(s: State, n: nat): int
    requires n in s.senders
  {
    if s.senders[n] == Waiting then 1 else 0
  }

  /** Exactly the numbers handed out are tracked. */
  ghost predicate Tracked(s: State) {
    && (forall n: nat :: n in s.senders <==> 1 <= n <= s.top)
    && s.waiting.Keys == s.senders.Keys
    && s.slots <= s.senders.Keys && s.marks <= s.senders.Keys
    && s.acked <= s.top
  }

  /** Only its own sender raises a balance, and a number that was let through, or that has a notification to its
      credit, lies within the window. */
  ghost predicate WithinWindow(s: State) {
    forall n: nat :: n in s.senders && n in s.waiting ==> Credible(s, n)
  }

  ghost predicate Credible(s: State, n: nat)
    requires n in s.senders && n in s.waiting
  {
    && s.waiting[n] <= OwnShare(s, n)
    && (s.senders[n] == Sent || s.waiting[n] < OwnShare(s, n) ==> n <= s.acked + s.size)
  }

  ghost predicate PrefixMarked(s: State) {
    forall n: nat :: 1 <= n <= s.acked ==> n in s.marks
  }

  /** Ackers past their CAS work below the frontier; the others hold marked or stored numbers. */
  ghost predicate AckerInv(s: State) {
    forall t: nat :: t in s.ackers ==> Placed(s, s.ackers[t])
  }

  ghost predicate Placed(s: State, a: Acker) {
    && a.s in s.senders
    && (!a.Matched? ==> a.s in s.marks)
    && (PastSwap(a) ==> 1 <= a.s <= s.acked)
  }

  predicate PastSwap(a: Acker) {
    a.Won? || a.Cleared? || a.Retired? || a.Released?
  }

  /** This acker will move the frontier to the given number, or is about to look at it. */
  predicate Covers(a: Acker, acked: nat) {
    || a == Marked(acked + 1)
    || a == Loaded(acked + 1, acked)
    || (PastSwap(a) && a.s == acked)
  }

  /** An acked number right above the frontier is never forgotten. */
  ghost predicate FrontierCovered(s: State) {
    s.acked + 1 in s.marks ==> exists t: nat :: t in s.ackers && Covers(s.ackers[t], s.acked)
  }

  /** This acker is still going to notify number n. */
  predicate WillRelease(a: Acker, n: nat, size: nat) {
    (a.Won? || a.Cleared? || a.Retired?) && a.s + size == n
  }

  /** n sleeps, or is bound to sleep, although its place in the window is free. */
  predicate MissedItsTurn(s: State, n: nat) {
    && n in s.senders && n in s.waiting
    && (s.senders[n] == Deciding || s.senders[n] == Waiting)
    && s.waiting[n] >= OwnShare(s, n)
    && n <= s.acked + s.size
  }

  ghost predicate ReleasePending(s: State, n: nat) {
    exists t: nat :: t in s.ackers && WillRelease(s.ackers[t], n, s.size)
  }

  /** With the discipline, only sent requests are being acked, so whoever sleeps keeps its slot. */
  ghost predicate OnlySentAcked(s: State) {
    && (forall n: nat :: n in s.marks && n in s.senders ==> s.senders[n] == Sent)
    && (forall t: nat :: t in s.ackers && s.ackers[t].s in s.senders ==> s.senders[s.ackers[t].s] == Sent)
    && (forall n: nat :: n in s.senders && s.senders[n] != Numbered && s.senders[n] != Sent ==> n in s.slots)
  }

  /** A number that has not stored its request yet is unknown to everybody else. */
  ghost predicate NumberedUnseen(s: State) {
    && (forall n: nat :: n in s.senders && s.senders[n] == Numbered ==> n !in s.slots && n !in s.marks)
    && (forall t: nat :: t in s.ackers && s.ackers[t].s in s.senders ==> s.senders[s.ackers[t].s] != Numbered)
  }

  predicate PastClear(a: Acker) {
    a.Cleared? || a.Retired? || a.Released?
  }

  /** A slot is emptied only once the frontier has passed it, and is not filled again. */
  ghost predicate EmptiedBelow(s: State) {
    && (forall n: nat :: n in s.senders && s.senders[n] != Numbered && n !in s.slots ==> n <= s.acked)
    && (forall t: nat :: t in s.ackers && PastClear(s.ackers[t]) ==> s.ackers[t].s !in s.slots)
  }

  ghost predicate WakeupsPending(s: State) {
    forall n: nat :: MissedItsTurn(s, n) && n in s.slots ==> ReleasePending(s, n)
  }

  ghost predicate Inv(s: State, disciplined: bool) {
    && Tracked(s) && WithinWindow(s) && AckerInv(s) && PrefixMarked(s) && FrontierCovered(s)
    && NumberedUnseen(s) && EmptiedBelow(s) && WakeupsPending(s)
    && (disciplined ==> OnlySentAcked(s))
  }

  lemma TrackedStep(s: State, a: Action)
    requires Tracked(s) && AckerInv(s) && Enabled(s, a, false)
    ensures Tracked(Apply(s, a))
  {
  }

  lemma WithinWindowStep(s: State, a: Action)
    requires Tracked(s) && WithinWindow(s) && AckerInv(s) && Enabled(s, a, false)
    ensures WithinWindow(Apply(s, a))
  {
    forall n: nat | n in Apply(s, a).senders && n in Apply(s, a).waiting
      ensures Credible(Apply(s, a), n)
    {
      CredibleStep(s, a, n);
    }
  }

  lemma CredibleStep(s: State, a: Action, n: nat)
    requires Tracked(s) && WithinWindow(s) && AckerInv(s) && Enabled(s, a, false)
    requires n in Apply(s, a).senders && n in Apply(s, a).waiting
    ensures Credible(Apply(s, a), n)
  {
    assert n in s.senders && n in s.waiting ==> Credible(s, n);
    if a.Release? || a.Reset? {
      assert a.t in s.ackers && Placed(s, s.ackers[a.t]);
    }
    hide Tracked, WithinWindow, AckerInv;
  }

  lemma AckerStep(s: State, a: Action)
    requires Tracked(s) && AckerInv(s) && Enabled(s, a, false)
    ensures AckerInv(Apply(s, a))
  {
    forall t: nat | t in Apply(s, a).ackers
      ensures Placed(Apply(s, a), Apply(s, a).ackers[t])
    {
      PlacedStep(s, a, t);
    }
  }

  lemma PlacedStep(s: State, a: Action, t: nat)
    requires Tracked(s) && AckerInv(s) && Enabled(s, a, false) && t in Apply(s, a).ackers
    ensures Placed(Apply(s, a), Apply(s, a).ackers[t])
  {
    assert t in s.ackers ==> Placed(s, s.ackers[t]);
    assert a.Swap? ==> Placed(s, s.ackers[a.t]);
  }

  lemma PrefixStep(s: State, a: Action)
    requires AckerInv(s) && PrefixMarked(s) && Enabled(s, a, false)
    ensures PrefixMarked(Apply(s, a))
  {
  }

  lemma CoverStays(s: State, a: Action, t: nat)
    requires Tracked(s) && s.acked + 1 in s.marks && Enabled(s, a, false)
    requires Apply(s, a).acked == s.acked && t in s.ackers && Covers(s.ackers[t], s.acked)
    ensures t in Apply(s, a).ackers && Covers(Apply(s, a).ackers[t], s.acked)
  {
  }

  lemma FrontierStep(s: State, a: Action)
    requires Tracked(s) && FrontierCovered(s) && Enabled(s, a, false)
    ensures FrontierCovered(Apply(s, a))
  {
    var s' := Apply(s, a);
    if s'.acked + 1 in s'.marks {
      if s'.acked != s.acked {
        assert a.Swap? && Covers(s'.ackers[a.t], s'.acked);
      } else if s.acked + 1 in s.marks {
        var t: nat :| t in s.ackers && Covers(s.ackers[t], s.acked);
        CoverStays(s, a, t);
      } else {
        assert a.Mark? && Covers(s'.ackers[a.t], s'.acked);
      }
    }
  }

  lemma OnlySentStep(s: State, a: Action)
    requires Tracked(s) && AckerInv(s) && OnlySentAcked(s) && Enabled(s, a, true)
    ensures Enabled(s, a, false) && OnlySentAcked(Apply(s, a))
  {
  }

  lemma NumberedStep(s: State, a: Action)
    requires Tracked(s) && AckerInv(s) && NumberedUnseen(s) && Enabled(s, a, false)
    ensures NumberedUnseen(Apply(s, a))
  {
  }

  lemma EmptiedStep(s: State, a: Action)
    requires Tracked(s) && AckerInv(s) && NumberedUnseen(s) && EmptiedBelow(s) && Enabled(s, a, false)
    ensures EmptiedBelow(Apply(s, a))
  {
    var s' := Apply(s, a);
    forall n: nat | n in s'.senders && s'.senders[n] != Numbered && n !in s'.slots
      ensures n <= s'.acked
    {
      EmptySlotStep(s, a, n);
    }
    forall t: nat | t in s'.ackers && PastClear(s'.ackers[t])
      ensures s'.ackers[t].s !in s'.slots
    {
      ClearedStep(s, a, t);
    }
  }

  lemma EmptySlotStep(s: State, a: Action, n: nat)
    requires Tracked(s) && AckerInv(s) && EmptiedBelow(s) && Enabled(s, a, false)
    requires n in Apply(s, a).senders && Apply(s, a).senders[n] != Numbered && n !in Apply(s, a).slots
    ensures n <= Apply(s, a).acked
  {
    assert a.Clear? || a.Swap? ==> Placed(s, s.ackers[a.t]);
    hide AckerInv, Tracked;
  }

  lemma ClearedStep(s: State, a: Action, t: nat)
    requires NumberedUnseen(s) && EmptiedBelow(s) && Tracked(s) && AckerInv(s) && Enabled(s, a, false)
    requires t in Apply(s, a).ackers && PastClear(Apply(s, a).ackers[t])
    ensures Apply(s, a).ackers[t].s !in Apply(s, a).slots
  {
    assert t in s.ackers ==> Placed(s, s.ackers[t]);
    hide AckerInv, Tracked;
  }

  /** A free place opens for n, whose slot is filled, only by the CAS that moves the frontier to n - size. */
  lemma TurnComesBySwap(s: State, a: Action, n: nat)
    requires Tracked(s) && AckerInv(s) && EmptiedBelow(s) && Enabled(s, a, false)
    requires MissedItsTurn(Apply(s, a), n) && n in Apply(s, a).slots && !(MissedItsTurn(s, n) && n in s.slots)
    ensures a.Swap? && a.t in Apply(s, a).ackers && WillRelease(Apply(s, a).ackers[a.t], n, s.size)
  {
  }

  /** The acker that is going to notify n goes on doing so until it has. */
  lemma ReleaseStaysPending(s: State, a: Action, n: nat, t: nat)
    requires Tracked(s) && WithinWindow(s) && Enabled(s, a, false)
    requires MissedItsTurn(Apply(s, a), n) && MissedItsTurn(s, n) && n in s.slots
    requires t in s.ackers && WillRelease(s.ackers[t], n, s.size)
    ensures t in Apply(s, a).ackers && WillRelease(Apply(s, a).ackers[t], n, s.size)
  {
  }

  lemma WakeupStep(s: State, a: Action)
    requires Tracked(s) && WithinWindow(s) && AckerInv(s) && EmptiedBelow(s) && WakeupsPending(s)
    requires Enabled(s, a, false)
    ensures WakeupsPending(Apply(s, a))
  {
    var s' := Apply(s, a);
    forall n: nat | MissedItsTurn(s', n) && n in s'.slots
      ensures ReleasePending(s', n)
    {
      if MissedItsTurn(s, n) && n in s.slots {
        var t: nat :| t in s.ackers && WillRelease(s.ackers[t], n, s.size);
        ReleaseStaysPending(s, a, n, t);
      } else {
        TurnComesBySwap(s, a, n);
      }
    }
  }

  lemma StepKeepsInv(s: State, a: Action, disciplined: bool)
    requires Inv(s, disciplined) && Enabled(s, a, disciplined) && Enabled(s, a, false)
    ensures Inv(Apply(s, a), disciplined)
  {
    TrackedStep(s, a);
    WithinWindowStep(s, a);
    AckerStep(s, a);
    PrefixStep(s, a);
    FrontierStep(s, a);
    NumberedStep(s, a);
    EmptiedStep(s, a);
    WakeupStep(s, a);
    if disciplined {
      OnlySentStep(s, a);
    }
    hide Tracked, WithinWindow, AckerInv, PrefixMarked, FrontierCovered, NumberedUnseen, EmptiedBelow,
      WakeupsPending, OnlySentAcked, Apply;
  }

  lemma {:induction false} RunKeepsInv(s: State, actions: seq<Action>, e: State, disciplined: bool)
    requires Inv(s, disciplined) && Runs(s, actions, e, disciplined)
    ensures Inv(e, disciplined)
    decreases |actions|
  {
    if |actions| > 0 {
      StepKeepsInv(s, actions[0], disciplined);
      hide Inv, Apply, Enabled;
      RunKeepsInv(Apply(s, actions[0]), actions[1..], e, disciplined);
    }
  }

  ghost predicate Reachable(s: State, disciplined: bool) {
    exists actions: seq<Action> :: Runs(Init(s.size), actions, s, disciplined)
  }

  lemma ReachableInv(s: State, disciplined: bool)
    requires Reachable(s, disciplined)
    ensures Inv(s, disciplined)
  {
    var actions :| Runs(Init(s.size), actions, s, disciplined);
    RunKeepsInv(Init(s.size), actions, s, disciplined);
  }

  // ----- main results -----

  /** In every interleaving, however acks arrive, a request that AddRequest let through is at most size numbers ahead
      of the frontier. */
  lemma NeverAheadOfWindow(s: State, n: nat)
    requires Reachable(s, false) && SenderAt(s, n, Sent)
    ensures 1 <= n <= s.top && n <= s.acked + s.size
  {
    ReachableInv(s, false);
  }

  /** The sender of n sleeps although its place in the window is free. */
  ghost predicate SleepsOnFreePlace(s: State, n: nat) {
    SenderAt(s, n, Waiting) && s.waiting[n] > 0 && n <= s.acked + s.size
  }

  /** In every interleaving, a sender that sleeps on a free place and has its slot has an acker that is going to
      release it; the slot is gone only if the request was acked and retired while it was still being added. */
  lemma StoredHasRelease(s: State, n: nat)
    requires Reachable(s, false) && SleepsOnFreePlace(s, n)
    ensures n in s.slots ==> ReleasePending(s, n)
    ensures n !in s.slots ==> n <= s.acked && n in s.marks
  {
    ReachableInv(s, false);
    assert MissedItsTurn(s, n);
  }

  /** The slot of n was emptied by an acker that has yet to reset the notifier. */
  ghost predicate ResetPending(s: State, n: nat) {
    exists t: nat :: t in s.ackers && s.ackers[t] == Cleared(n)
  }

  /** A number without a slot has no notification to its credit, but for the moment before the reset. */
  ghost predicate NoCreditLeft(s: State) {
    forall n: nat :: n in s.waiting && n !in s.slots && !ResetPending(s, n) ==> s.waiting[n] >= 0
  }

  lemma CreditStep(s: State, a: Action)
    requires Tracked(s) && AckerInv(s) && NoCreditLeft(s) && Enabled(s, a, false)
    ensures NoCreditLeft(Apply(s, a))
  {
    var s' := Apply(s, a);
    forall n: nat | n in s'.waiting && n !in s'.slots && !ResetPending(s', n)
      ensures s'.waiting[n] >= 0
    {
      if ResetPending(s, n) {
        ResetComes(s, a, n);
      } else if a.Clear? {
        ClearedIsPending(s, a.t);
      }
    }
  }

  lemma ResetComes(s: State, a: Action, n: nat)
    requires ResetPending(s, n) && Enabled(s, a, false)
    ensures ResetPending(Apply(s, a), n) || (n in Apply(s, a).waiting && Apply(s, a).waiting[n] >= 0)
  {
    var t: nat :| t in s.ackers && s.ackers[t] == Cleared(n);
    var s' := Apply(s, a);
    if a != Reset(t) {
      assert t in s'.ackers && s'.ackers[t] == Cleared(n);
    }
  }

  lemma ClearedIsPending(s: State, t: nat)
    requires Enabled(s, Clear(t), false)
    ensures ResetPending(Apply(s, Clear(t)), s.ackers[t].s)
  {
    assert Apply(s, Clear(t)).ackers[t] == Cleared(s.ackers[t].s);
  }

  lemma {:induction false} RunLeavesNoCredit(s: State, actions: seq<Action>, e: State)
    requires Inv(s, false) && NoCreditLeft(s) && Runs(s, actions, e, false)
    ensures NoCreditLeft(e)
    decreases |actions|
  {
    if |actions| > 0 {
      StepKeepsInv(s, actions[0], false);
      CreditStep(s, actions[0]);
      hide Inv, Apply, Enabled, NoCreditLeft;
      RunLeavesNoCredit(Apply(s, actions[0]), actions[1..], e);
    }
  }

  /** A notification a sender has not used is forgotten with its slot: in every interleaving, whoever blocks without
      a slot after the reset has to wait, and sleeps for good. */
  lemma CreditGoesWithSlot(s: State, n: nat)
    requires Reachable(s, false) && n in s.waiting && n !in s.slots && !ResetPending(s, n)
    ensures s.waiting[n] >= 0
    ensures SenderAt(s, n, Deciding) ==> AsleepForGood(Apply(s, Block(n)), n)
  {
    var actions :| Runs(Init(s.size), actions, s, false);
    assert NoCreditLeft(Init(s.size));
    RunLeavesNoCredit(Init(s.size), actions, s);
  }

  /** An ack finds a request exactly while its slot is filled and its sender is not asleep: the counter the lookup
      tests is positive only for a sender that waits and has not been notified. */
  lemma MatchIffAwake(s: State, t: nat, n: nat)
    requires Reachable(s, false) && t !in s.ackers
    ensures Enabled(s, Match(t, n), false) <==>
      n in s.slots && !(SenderAt(s, n, Waiting) && !Enabled(s, Wake(n), false))
    ensures Enabled(s, Match(t, n), false) && n in s.senders && s.senders[n] == Waiting ==> n <= s.acked + s.size
  {
    ReachableInv(s, false);
    assert n in s.senders && n in s.waiting ==> Credible(s, n);
  }

  ghost predicate AsleepForGood(s: State, n: nat) {
    SenderAt(s, n, Waiting) && s.waiting[n] > 0 && (n !in s.slots || s.size == 0)
  }

  lemma AsleepStep(s: State, a: Action, n: nat)
    requires Tracked(s) && EmptiedBelow(s) && AsleepForGood(s, n) && Enabled(s, a, false)
    ensures AsleepForGood(Apply(s, a), n)
  {
  }

  /** Whoever sleeps without a slot sleeps through every continuation. */
  lemma {:induction false} AsleepThroughout(s: State, actions: seq<Action>, e: State, n: nat)
    requires Inv(s, false) && AsleepForGood(s, n) && Runs(s, actions, e, false)
    ensures AsleepForGood(e, n)
    decreases |actions|
  {
    if |actions| > 0 {
      StepKeepsInv(s, actions[0], false);
      AsleepStep(s, actions[0], n);
      hide Inv, AsleepForGood, Apply, Enabled;
      AsleepThroughout(Apply(s, actions[0]), actions[1..], e, n);
    }
  }

  ghost predicate CanWake(s: State, n: nat) {
    exists actions: seq<Action>, e: State :: Runs(s, actions, e, false) && SenderAt(e, n, Sent)
  }

  /** The rest of the way of the acker that is going to release n. */
  lemma Rescue(s: State, n: nat, t: nat)
    requires Tracked(s) && WithinWindow(s) && AckerInv(s) && s.size > 0
    requires SleepsOnFreePlace(s, n) && n in s.slots && t in s.ackers && WillRelease(s.ackers[t], n, s.size)
    ensures CanWake(s, n)
  {
    if s.ackers[t].Won? {
      ClearFirst(s, n, t);
    } else if s.ackers[t].Cleared? {
      ResetFirst(s, n, t);
    } else {
      ReleaseAndWake(s, n, t);
    }
  }

  lemma ReleaseAndWake(s: State, n: nat, t: nat)
    requires Tracked(s) && WithinWindow(s)
    requires SleepsOnFreePlace(s, n) && n in s.slots && t in s.ackers && s.ackers[t].Retired?
    requires s.ackers[t].s + s.size == n
    ensures CanWake(s, n)
  {
    var r := Apply(s, Release(t));
    var w := Apply(r, Wake(n));
    assert Runs(w, [], w, false);
    assert [Wake(n)][1..] == [];
    assert Runs(r, [Wake(n)], w, false);
    assert [Release(t), Wake(n)][1..] == [Wake(n)];
    assert Runs(s, [Release(t), Wake(n)], w, false);
  }

  /** A step after which n can be woken. */
  lemma WakeAfter(s: State, a: Action, n: nat)
    requires Enabled(s, a, false) && CanWake(Apply(s, a), n)
    ensures CanWake(s, n)
  {
    hide Enabled, Apply;
    var actions: seq<Action>, e: State :| Runs(Apply(s, a), actions, e, false) && SenderAt(e, n, Sent);
    assert ([a] + actions)[1..] == actions;
    assert Runs(s, [a] + actions, e, false);
  }

  lemma ResetFirst(s: State, n: nat, t: nat)
    requires Tracked(s) && WithinWindow(s) && AckerInv(s) && s.size > 0
    requires SleepsOnFreePlace(s, n) && n in s.slots && t in s.ackers && s.ackers[t].Cleared?
    requires s.ackers[t].s + s.size == n
    ensures CanWake(s, n)
  {
    TrackedStep(s, Reset(t));
    WithinWindowStep(s, Reset(t));
    hide Tracked, WithinWindow, CanWake;
    assert s.ackers[t].s in s.waiting && s.waiting[n] == Apply(s, Reset(t)).waiting[n] by {
      AckerHolds(s, t);
    }
    ReleaseAndWake(Apply(s, Reset(t)), n, t);
    WakeAfter(s, Reset(t), n);
  }

  lemma AckerHolds(s: State, t: nat)
    requires Tracked(s) && AckerInv(s) && t in s.ackers
    ensures s.ackers[t].s in s.senders && s.ackers[t].s in s.waiting
  {
  }

  lemma ClearFirst(s: State, n: nat, t: nat)
    requires Tracked(s) && WithinWindow(s) && AckerInv(s) && s.size > 0
    requires SleepsOnFreePlace(s, n) && n in s.slots && t in s.ackers && s.ackers[t].Won? && s.ackers[t].s + s.size == n
    ensures CanWake(s, n)
  {
    TrackedStep(s, Clear(t));
    WithinWindowStep(s, Clear(t));
    AckerStep(s, Clear(t));
    hide Tracked, WithinWindow, AckerInv, CanWake;
    ResetFirst(Apply(s, Clear(t)), n, t);
    WakeAfter(s, Clear(t), n);
  }

  /** The exact condition for a wakeup not to be lost, in every interleaving: a sender that sleeps on a free place
      can still be woken if and only if its slot is filled. If the slot is empty it sleeps for ever. (A window of
      size zero never wakes anybody.) */
  lemma CanWakeIffStored(s: State, n: nat)
    requires Reachable(s, false) && SleepsOnFreePlace(s, n)
    ensures CanWake(s, n) <==> n in s.slots && s.size > 0
  {
    ReachableInv(s, false);
    if n in s.slots && s.size > 0 {
      assert MissedItsTurn(s, n);
      var t: nat :| t in s.ackers && WillRelease(s.ackers[t], n, s.size);
      Rescue(s, n, t);
    } else if CanWake(s, n) {
      var actions: seq<Action>, e: State :| Runs(s, actions, e, false) && SenderAt(e, n, Sent);
      AsleepThroughout(s, actions, e, n);
    }
  }

  /** If acks match only requests that were sent, no wakeup is lost: a sender that is blocked although its place is
      free has an acker that is still going to notify it. */
  lemma NoLostWakeup(s: State, n: nat)
    requires Reachable(s, true) && SleepsOnFreePlace(s, n)
    ensures ReleasePending(s, n) && n in s.slots
  {
    ReachableInv(s, true);
    assert MissedItsTurn(s, n);
  }

  /** Once all ackers have returned, the frontier is exactly the longest acked prefix, in every interleaving; the
      senders still asleep are beyond the window, except those without a slot. */
  lemma QuiescentFrontier(s: State)
    requires Reachable(s, false) && s.ackers == map[]
    ensures forall n: nat :: 1 <= n <= s.acked ==> n in s.marks
    ensures s.acked + 1 !in s.marks
    ensures forall n: nat :: SenderAt(s, n, Waiting) && s.waiting[n] > 0 ==> (n > s.acked + s.size <==> n in s.slots)
  {
    ReachableInv(s, false);
    forall n: nat | SenderAt(s, n, Waiting) && s.waiting[n] > 0
      ensures n > s.acked + s.size <==> n in s.slots
    {
      assert !ReleasePending(s, n);
      assert MissedItsTurn(s, n) && n in s.slots ==> ReleasePending(s, n);
    }
  }

  lemma {:induction false} AppendToRun(s: State, actions: seq<Action>, m: State, a: Action)
    requires Runs(s, actions, m, false) && Enabled(m, a, false)
    ensures Runs(s, actions + [a], Apply(m, a), false)
    decreases |actions|
  {
    if |actions| == 0 {
      assert Runs(Apply(s, a), [], Apply(m, a), false);
      assert (actions + [a])[1..] == [];
    } else {
      AppendToRun(Apply(s, actions[0]), actions[1..], m, a);
      assert (actions + [a])[1..] == actions[1..] + [a];
    }
  }

  lemma TakeStep(s: State, a: Action) returns (e: State)
    requires Reachable(s, false) && Enabled(s, a, false)
    ensures e == Apply(s, a) && Reachable(e, false)
  {
    e := Apply(s, a);
    var actions :| Runs(Init(s.size), actions, s, false);
    AppendToRun(Init(s.size), actions, s, a);
  }

  const BothStored := State(1, 2, 0, map[1 := Sent, 2 := Deciding], {1, 2}, map[1 := 0, 2 := 0], {}, map[])
  const OneWon := State(1, 2, 1, map[1 := Sent, 2 := Deciding], {1, 2}, map[1 := 0, 2 := 0], {1}, map[0 := Won(1)])
  const BothWon := State(1, 2, 2, map[1 := Sent, 2 := Deciding], {1}, map[1 := 0, 2 := 0], {1, 2},
                         map[0 := Won(1), 1 := Cleared(2)])
  const OneGone := State(1, 2, 2, map[1 := Sent, 2 := Waiting], {}, map[1 := 0, 2 := 1], {1, 2},
                         map[0 := Released(1), 1 := Cleared(2)])

  /** Two requests on a window of size one: the second finds it full. */
  lemma StoreBoth()
    ensures Reachable(BothStored, false)
  {
    assert Runs(Init(1), [], Init(1), false);
    var s := TakeStep(Init(1), Number);
    s := TakeStep(s, Store(1)); s := TakeStep(s, Check(1));
    s := TakeStep(s, Number); s := TakeStep(s, Store(2)); s := TakeStep(s, Check(2));
    assert s == BothStored;
  }

  lemma AnswerFirst()
    ensures Reachable(OneWon, false)
  {
    StoreBoth();
    hide Reachable;
    var s := TakeStep(BothStored, Match(0, 1));
    s := TakeStep(s, Mark(0)); s := TakeStep(s, Load(0)); s := TakeStep(s, Swap(0));
    assert s == OneWon;
  }

  /** The acker of the second empties its slot before the acker of the first has come to its lookup. */
  lemma AnswerSecond()
    ensures Reachable(BothWon, false)
  {
    AnswerFirst();
    hide Reachable;
    var s := TakeStep(OneWon, Match(1, 2));
    s := TakeStep(s, Mark(1));
    assert s.marks == {1, 2} && s.ackers == map[0 := Won(1), 1 := Marked(2)];
    s := TakeStep(s, Load(1));
    assert s.ackers == map[0 := Won(1), 1 := Loaded(2, 1)];
    s := TakeStep(s, Swap(1)); s := TakeStep(s, Clear(1));
    assert s == BothWon;
  }

  const OneReset := State(1, 2, 2, map[1 := Sent, 2 := Deciding], {}, map[1 := 0, 2 := 0], {1, 2},
                          map[0 := Retired(1), 1 := Cleared(2)])

  lemma RetireFirst()
    ensures Reachable(OneReset, false)
  {
    AnswerSecond();
    hide Reachable;
    var s := TakeStep(BothWon, Clear(0));
    assert s.slots == {};
    s := TakeStep(s, Reset(0));
    assert s == OneReset;
  }

  lemma ReleaseNobody()
    ensures Reachable(OneGone, false)
  {
    RetireFirst();
    hide Reachable;
    var s := TakeStep(OneReset, Release(0));
    assert s.ackers == map[0 := Released(1), 1 := Cleared(2)];
    s := TakeStep(s, Block(2));
    assert s == OneGone;
  }

  /** The empty slot does occur: request 2, answered while it is still being added, sleeps with its place free and
      nobody left to notify it. */
  lemma LostWakeupWithoutDiscipline() returns (s: State)
    ensures Reachable(s, false) && s.ackers == map[]
    ensures SenderAt(s, 2, Waiting) && s.waiting[2] > 0 && 2 <= s.acked + s.size
  {
    ReleaseNobody();
    hide Reachable;
    s := TakeStep(OneGone, Reset(1)); s := TakeStep(s, Release(1)); s := TakeStep(s, Advance(1));
    s := TakeStep(s, Advance(0)); s := TakeStep(s, Swap(0));
    assert s.ackers.Keys == {};
  }
}
