/** The persistence tracker of lambda/storage/persistent_storage.go: an event loop that starts uploads in parallel
    under a token throttle and hands their results on in arrival order. The goroutines that share its channels are
    atomic steps. */
module Tracker {
  import opened Common

  /** needsUpload: a set that is not persisted yet; everything else concludes at once. */
  datatype Op = Op(id: nat, needsUpload: bool)

  datatype Signal = Signal(forced: bool, stop: bool)

  /** An entry of the token channel: a bare token, or a token that carries a concluded operation. */
  datatype Token = Bare | Concluded(idx: nat, ok: bool)

  datatype State = State(
    concurrency: nat,             // types.UploadConcurrency
    incoming: seq<Op>,            // chanOps
    arrivals: seq<Op>,            // operations dequeued so far; the position is OpIdx
    freeToken: nat,
    token: seq<Token>,
    uploading: set<nat>,          // upload goroutines that have not reported yet
    slots: seq<Option<bool>>,     // persistedOps: outcome per operation, None while pending
    persisted: nat,
    delivered: seq<nat>,          // positions handed to onPersisted, in order
    inHand: Option<Op>,           // operation dequeued, tracker waiting for a token
    delayed: Option<Signal>,      // delayedSignal
    signal: Option<Signal>,       // signalTracker, a channel of capacity one
    outcomes: map<nat, bool>,     // what became of each operation
    acted: seq<Signal>,           // signals handed to onSignalTracker
    stopped: bool)

  datatype Action =
    | Submit(op: Op)
    | Dequeue
    | TakeTokenForOp
    | Report(idx: nat, ok: bool)
    | TakeToken
    | Send(s: Signal)
    | TakeSignal

  function Init(concurrency: nat): State {
    State(concurrency, [], [], concurrency, [], {}, [], 0, [], None, None, None, map[], [], false)
  }

  /** The loop of collectPersisted: passes every concluded operation from p on, keeping the successful ones. */
  function Drain(slots: seq<Option<bool>>, p: nat, log: seq<nat>): (nat, seq<nat>)
    requires p <= |slots|
    decreases |slots| - p
  {
    if p < |slots| && slots[p].Some?
    then Drain(slots, p + 1, if slots[p].value then log + [p] else log)
    else (p, log)
  }

  function Collect(s: State, t: Token): State
    requires s.persisted <= |s.slots| && (t.Concluded? ==> t.idx < |s.slots|)
  {
    if t.Bare? then s
    else
      var slots := s.slots[t.idx := Some(t.ok)];
      var (p, log) := Drain(slots, s.persisted, s.delivered);
      s.(slots := slots, persisted := p, delivered := log)
  }

  /** The tracker stands at its select statement. */
  predicate AtSelect(s: State) {
    s.inHand.None? && !s.stopped
  }

  predicate Enabled(s: State, a: Action) {
    && s.persisted <= |s.slots|
    && (a.TakeTokenForOp? || a.TakeToken? ==>
          |s.token| > 0 && (s.token[0].Concluded? ==> s.token[0].idx < |s.slots|))
    && match a
       case Submit(_) => true
       case Dequeue => AtSelect(s) && |s.incoming| > 0
       case TakeTokenForOp => s.inHand.Some?
       case Report(idx, _) => idx in s.uploading
       case TakeToken => AtSelect(s)
       case Send(_) => true
       case TakeSignal => AtSelect(s) && s.signal.Some?
  }

  /** The operation in hand gets its slot and either its upload or its immediate conclusion. */
  function Launch(s: State): State
    requires s.inHand.Some?
  {
    var op, idx := s.inHand.value, |s.slots|;
    var o := s.(slots := s.slots + [None], arrivals := s.arrivals + [op], inHand := None);
    if op.needsUpload
    then o.(uploading := s.uploading + {idx})
    else o.(token := s.token + [Concluded(idx, true)], outcomes := s.outcomes[idx := true])
  }

  function Apply(s: State, a: Action): State
    requires Enabled(s, a)
  {
    match a
    case Submit(op) => s.(incoming := s.incoming + [op])
    case Dequeue =>
      var taken := s.(incoming := s.incoming[1..], inHand := Some(s.incoming[0]));
      if s.freeToken > 0 then taken.(freeToken := s.freeToken - 1, token := s.token + [Bare]) else taken
    case TakeTokenForOp => Launch(Collect(s.(token := s.token[1..]), s.token[0]))
    case Report(idx, ok) =>
      s.(uploading := s.uploading - {idx}, token := s.token + [Concluded(idx, ok)], outcomes := s.outcomes[idx := ok])
    case TakeToken =>
      var c := Collect(s.(token := s.token[1..], freeToken := s.freeToken + 1), s.token[0]);
      if c.delayed.Some? && c.persisted == |c.slots| then c.(signal := c.delayed, delayed := None) else c
    case Send(sig) => s.(signal := Some(sig))
    case TakeSignal =>
      var sig := s.signal.value;
      if |s.incoming| > 0 && !sig.forced then s
      else if s.persisted < |s.slots| && !sig.forced then s.(signal := None, delayed := Some(sig))
      else s.(signal := None, acted := s.acted + [sig], stopped := sig.stop)
  }

  // ----- invariants -----

  /** Tokens are neither made nor lost; the sum is what bounds the channel. */
  ghost predicate TokensConserved(s: State) {
    s.freeToken + |s.token| + |s.uploading| == s.concurrency
  }

  /** Every operation is pending in exactly one place, or concluded with its own outcome. */
  ghost predicate Tracked(s: State) {
    && |s.arrivals| == |s.slots|
    && (forall i :: i in s.uploading ==> i < |s.slots| && s.slots[i].None? && i !in s.outcomes)
    && (forall k :: 0 <= k < |s.token| && s.token[k].Concluded? ==>
          && s.token[k].idx < |s.slots| && s.slots[s.token[k].idx].None?
          && s.token[k].idx in s.outcomes && s.outcomes[s.token[k].idx] == s.token[k].ok)
    && (forall k, l :: 0 <= k < l < |s.token| && s.token[k].Concluded? && s.token[l].Concluded? ==>
          s.token[k].idx != s.token[l].idx)
    && (forall i :: i in s.outcomes ==> i < |s.slots|)
    && (forall i :: 0 <= i < |s.slots| && s.slots[i].Some? ==> i in s.outcomes && s.outcomes[i] == s.slots[i].value)
  }

  ghost predicate Carried(s: State, i: nat) {
    exists k :: 0 <= k < |s.token| && s.token[k].Concluded? && s.token[k].idx == i
  }

  /** A pending operation is still being uploaded or rides on a queued token. */
  ghost predicate NothingForgotten(s: State) {
    forall i :: 0 <= i < |s.slots| && s.slots[i].None? ==> i in s.uploading || Carried(s, i)
  }

  /** The successful operations below p, in arrival order. */
  ghost function Successes(slots: seq<Option<bool>>, p: nat): seq<nat>
    requires p <= |slots|
  {
    if p == 0 then []
    else Successes(slots, p - 1) + (if slots[p - 1] == Some(true) then [p - 1] else [])
  }

  ghost predicate InOrder(slots: seq<Option<bool>>, p: nat, log: seq<nat>) {
    p <= |slots| && (forall i :: 0 <= i < p ==> slots[i].Some?) && log == Successes(slots, p)
  }

  ghost predicate Ordered(s: State) {
    InOrder(s.slots, s.persisted, s.delivered) && (s.persisted < |s.slots| ==> s.slots[s.persisted].None?)
  }

  /** A delayed signal always has an operation to wait for, so it cannot be left behind. */
  ghost predicate DelayHasReason(s: State) {
    s.delayed.Some? ==> s.persisted < |s.slots|
  }

  ghost predicate Inv(s: State) {
    TokensConserved(s) && Tracked(s) && NothingForgotten(s) && Ordered(s) && DelayHasReason(s)
  }

  lemma {:induction false} DrainInOrder(slots: seq<Option<bool>>, p: nat, log: seq<nat>)
    requires InOrder(slots, p, log)
    ensures InOrder(slots, Drain(slots, p, log).0, Drain(slots, p, log).1)
    ensures Drain(slots, p, log).0 < |slots| ==> slots[Drain(slots, p, log).0].None?
    decreases |slots| - p
  {
    if p < |slots| && slots[p].Some? {
      DrainInOrder(slots, p + 1, if slots[p].value then log + [p] else log);
    }
  }

  lemma {:induction false} SuccessesBelow(slots: seq<Option<bool>>, slots': seq<Option<bool>>, p: nat)
    requires p <= |slots| && p <= |slots'| && slots[..p] == slots'[..p]
    ensures Successes(slots, p) == Successes(slots', p)
  {
    if p > 0 {
      assert slots[..p][p - 1] == slots[p - 1] && slots'[..p][p - 1] == slots'[p - 1];
      assert slots[..p - 1] == slots[..p][..p - 1] && slots'[..p - 1] == slots'[..p][..p - 1];
      SuccessesBelow(slots, slots', p - 1);
    }
  }

  /** Taking the head token off the channel and collecting it. */
  lemma CollectTracks(s: State, c: State)
    requires Tracked(s) && s.persisted <= |s.slots| && |s.token| > 0
    requires c == Collect(s.(token := s.token[1..]), s.token[0])
    ensures Tracked(c)
  {
    var t := s.token[0];
    hide Drain;
    assert forall k :: 0 <= k < |c.token| ==> c.token[k] == s.token[k + 1];
    if t.Concluded? {
      assert c.slots == s.slots[t.idx := Some(t.ok)];
    }
  }

  lemma CollectOrders(s: State, c: State)
    requires Tracked(s) && Ordered(s) && |s.token| > 0
    requires c == Collect(s.(token := s.token[1..]), s.token[0])
    ensures Ordered(c)
  {
    var t := s.token[0];
    if t.Concluded? {
      var slots := s.slots[t.idx := Some(t.ok)];
      assert s.slots[t.idx].None? && s.persisted <= t.idx;
      hide Tracked;
      SuccessesBelow(s.slots, slots, s.persisted);
      DrainInOrder(slots, s.persisted, s.delivered);
    }
  }

  lemma CollectKeeps(s: State, c: State)
    requires Tracked(s) && NothingForgotten(s) && Ordered(s) && |s.token| > 0
    requires c == Collect(s.(token := s.token[1..]), s.token[0])
    ensures Tracked(c) && Ordered(c)
  {
    CollectTracks(s, c);
    CollectOrders(s, c);
  }

  /** Steps that leave the operations alone and at most put a bare token into the channel. */
  lemma SameTracking(s: State, s': State)
    requires Tracked(s) && NothingForgotten(s) && Ordered(s)
    requires s'.slots == s.slots && s'.arrivals == s.arrivals && s'.persisted == s.persisted
    requires s'.delivered == s.delivered
    requires s'.uploading == s.uploading && s'.outcomes == s.outcomes
    requires s'.token == s.token || s'.token == s.token + [Bare]
    ensures Tracked(s') && NothingForgotten(s') && Ordered(s')
  {
    QueuedStayCarried(s, s');
    hide Carried, Successes;
  }

  lemma CollectForgetsNothing(s: State, c: State)
    requires Tracked(s) && NothingForgotten(s) && Ordered(s) && |s.token| > 0
    requires c == Collect(s.(token := s.token[1..]), s.token[0])
    ensures NothingForgotten(c)
  {
    forall i | 0 <= i < |c.slots| && c.slots[i].None?
      ensures i in c.uploading || Carried(c, i)
    {
      assert s.slots[i].None?;
      if i !in c.uploading {
        var k :| 0 <= k < |s.token| && s.token[k].Concluded? && s.token[k].idx == i;
        assert k > 0 && c.token[k - 1] == s.token[k];
      }
    }
  }

  /** A token put at the end of the channel leaves the others where they were. */
  lemma QueuedStayCarried(s: State, s': State)
    requires s.token <= s'.token
    ensures forall i: nat :: Carried(s, i) ==> Carried(s', i)
  {
    forall i: nat | Carried(s, i)
      ensures Carried(s', i)
    {
      var k :| 0 <= k < |s.token| && s.token[k].Concluded? && s.token[k].idx == i;
      assert s'.token[k] == s.token[k];
    }
  }

  lemma LaunchTracks(s: State)
    requires Tracked(s) && s.inHand.Some?
    ensures Tracked(Launch(s))
  {
  }

  lemma LaunchKeepsOrder(s: State)
    requires Ordered(s) && s.inHand.Some?
    ensures Ordered(Launch(s)) && DelayHasReason(Launch(s))
  {
    SuccessesBelow(s.slots, Launch(s).slots, s.persisted);
  }

  lemma LaunchForgetsNothing(s: State)
    requires NothingForgotten(s) && s.inHand.Some?
    ensures NothingForgotten(Launch(s))
  {
    var s' := Launch(s);
    QueuedStayCarried(s, s');
    if !s.inHand.value.needsUpload {
      assert s'.token[|s.token|] == Concluded(|s.slots|, true);
      assert Carried(s', |s.slots|);
    }
  }

  lemma CollectLeaves(s: State, t: Token)
    requires s.persisted <= |s.slots| && (t.Concluded? ==> t.idx < |s.slots|)
    ensures var c := Collect(s, t);
      && |c.slots| == |s.slots| && c.uploading == s.uploading && c.token == s.token && c.freeToken == s.freeToken
      && c.concurrency == s.concurrency && c.inHand == s.inHand
  {
    hide Drain;
  }

  lemma CollectIgnoresFree(s: State, t: Token, free: nat)
    requires s.persisted <= |s.slots| && (t.Concluded? ==> t.idx < |s.slots|)
    ensures Collect(s.(freeToken := free), t) == Collect(s, t).(freeToken := free)
  {
    hide Drain;
  }

  lemma LaunchConserves(c: State)
    requires c.inHand.Some? && |c.slots| !in c.uploading && c.freeToken + |c.token| + 1 + |c.uploading| == c.concurrency
    ensures TokensConserved(Launch(c))
  {
  }

  lemma TakeTokenForOpConserves(s: State)
    requires TokensConserved(s) && Tracked(s) && Enabled(s, TakeTokenForOp)
    ensures TokensConserved(Apply(s, TakeTokenForOp))
  {
    assert |s.slots| !in s.uploading;
    hide Tracked, Collect, Launch;
    CollectLeaves(s.(token := s.token[1..]), s.token[0]);
    LaunchConserves(Collect(s.(token := s.token[1..]), s.token[0]));
  }

  lemma TakeTokenForOpKeeps(s: State)
    requires Inv(s) && Enabled(s, TakeTokenForOp)
    ensures Inv(Apply(s, TakeTokenForOp))
  {
    TakeTokenForOpConserves(s);
    var c := Collect(s.(token := s.token[1..]), s.token[0]);
    CollectKeeps(s, c);
    CollectForgetsNothing(s, c);
    hide Tracked, NothingForgotten, Ordered, DelayHasReason, TokensConserved, Launch, Collect;
    LaunchTracks(c);
    LaunchKeepsOrder(c);
    LaunchForgetsNothing(c);
  }

  lemma TakeTokenKeeps(s: State)
    requires Inv(s) && Enabled(s, TakeToken)
    ensures Inv(Apply(s, TakeToken))
  {
    hide Drain, Carried, Successes;
    var c := Collect(s.(token := s.token[1..]), s.token[0]);
    CollectKeeps(s, c);
    CollectForgetsNothing(s, c);
    hide Tracked, NothingForgotten, Ordered, Collect;
    CollectIgnoresFree(s.(token := s.token[1..]), s.token[0], s.freeToken + 1);
    CollectLeaves(s.(token := s.token[1..]), s.token[0]);
    assert s.(token := s.token[1..], freeToken := s.freeToken + 1) ==
      s.(token := s.token[1..]).(freeToken := s.freeToken + 1);
    SameTracking(c, Apply(s, TakeToken));
  }

  lemma ReportKeeps(s: State, idx: nat, ok: bool)
    requires Inv(s) && Enabled(s, Report(idx, ok))
    ensures Inv(Apply(s, Report(idx, ok)))
  {
    var s' := Apply(s, Report(idx, ok));
    QueuedStayCarried(s, s');
    assert s'.token[|s.token|] == Concluded(idx, ok);
    assert Carried(s', idx);
  }

  lemma DequeueKeeps(s: State)
    requires Inv(s) && Enabled(s, Dequeue)
    ensures Inv(Apply(s, Dequeue))
  {
    hide Tracked, NothingForgotten, Ordered;
    SameTracking(s, Apply(s, Dequeue));
  }

  lemma SignalsAndArrivalsKeep(s: State, a: Action)
    requires Inv(s) && Enabled(s, a) && (a.Submit? || a.Send? || a.TakeSignal?)
    ensures Inv(Apply(s, a))
  {
    hide Tracked, NothingForgotten, Ordered;
    SameTracking(s, Apply(s, a));
  }

  lemma StepKeepsInv(s: State, a: Action)
    requires Inv(s) && Enabled(s, a)
    ensures Inv(Apply(s, a))
  {
    hide Apply, Inv;
    match a {
      case TakeTokenForOp => TakeTokenForOpKeeps(s);
      case TakeToken => TakeTokenKeeps(s);
      case Report(idx, ok) => ReportKeeps(s, idx, ok);
      case Dequeue => DequeueKeeps(s);
      case _ => SignalsAndArrivalsKeep(s, a);
    }
  }

  ghost predicate Runs(s: State, actions: seq<Action>, e: State)
    decreases |actions|
  {
    if |actions| == 0 then s == e
    else Enabled(s, actions[0]) && Runs(Apply(s, actions[0]), actions[1..], e)
  }

  ghost predicate Reachable(s: State) {
    exists actions: seq<Action> :: Runs(Init(s.concurrency), actions, s)
  }

  lemma {:induction false} RunKeepsInv(s: State, actions: seq<Action>, e: State)
    requires Inv(s) && Runs(s, actions, e)
    ensures Inv(e)
    decreases |actions|
  {
    if |actions| > 0 {
      StepKeepsInv(s, actions[0]);
      RunKeepsInv(Apply(s, actions[0]), actions[1..], e);
    }
  }

  lemma ReachableInv(s: State)
    requires Reachable(s)
    ensures Inv(s)
  {
    var actions :| Runs(Init(s.concurrency), actions, s);
    RunKeepsInv(Init(s.concurrency), actions, s);
  }

  // ----- main results -----

  lemma {:induction false} SuccessesExact(slots: seq<Option<bool>>, p: nat)
    requires p <= |slots|
    ensures forall k, l :: 0 <= k < l < |Successes(slots, p)| ==> Successes(slots, p)[k] < Successes(slots, p)[l]
    ensures forall k :: 0 <= k < |Successes(slots, p)| ==> 0 <= Successes(slots, p)[k] < p
    ensures forall i: nat :: i in Successes(slots, p) <==> i < p && slots[i] == Some(true)
  {
    if p > 0 {
      SuccessesExact(slots, p - 1);
    }
  }

  /** In every interleaving the operations handed on are distinct and in arrival order, they are exactly the
      successful ones below the collection point, and once every dequeued operation is concluded they are exactly all
      the successful ones. */
  lemma DeliversSuccessesInOrder(s: State)
    requires Reachable(s)
    ensures forall k, l :: 0 <= k < l < |s.delivered| ==> s.delivered[k] < s.delivered[l]
    ensures forall i: nat :: i in s.delivered <==> i < s.persisted && i in s.outcomes && s.outcomes[i]
    ensures s.persisted == |s.arrivals| ==> forall i: nat :: i in s.delivered <==> i in s.outcomes && s.outcomes[i]
  {
    ReachableInv(s);
    SuccessesExact(s.slots, s.persisted);
  }

  /** Tokens are conserved: the free ones, those in the channel and the uploads in flight add up to the concurrency.
      So every token send finds room, and while an operation waits for a token, one is queued or an upload is under
      way that will bring one. */
  lemma TokenSendsNeverBlock(s: State)
    requires Reachable(s)
    ensures s.freeToken + |s.token| + |s.uploading| == s.concurrency
    ensures s.freeToken > 0 ==> |s.token| < s.concurrency
    ensures s.inHand.Some? && s.concurrency > 0 ==> |s.token| > 0 || |s.uploading| > 0
  {
    ReachableInv(s);
    var actions :| Runs(Init(s.concurrency), actions, s);
    RunServesHand(Init(s.concurrency), actions, s);
  }

  /** An operation in hand has a token coming. */
  ghost predicate HandServed(s: State) {
    s.inHand.Some? && s.concurrency > 0 ==> |s.token| > 0 || |s.uploading| > 0
  }

  lemma StepServesHand(s: State, a: Action)
    requires TokensConserved(s) && HandServed(s) && Enabled(s, a)
    ensures HandServed(Apply(s, a))
  {
    hide Drain;
    if a.Dequeue? && s.freeToken > 0 {
      assert |Apply(s, a).token| > 0;
    }
  }

  lemma {:induction false} RunServesHand(s: State, actions: seq<Action>, e: State)
    requires Inv(s) && HandServed(s) && Runs(s, actions, e)
    ensures HandServed(e)
    decreases |actions|
  {
    if |actions| > 0 {
      StepKeepsInv(s, actions[0]);
      StepServesHand(s, actions[0]);
      hide Inv, HandServed, Enabled, Apply;
      RunServesHand(Apply(s, actions[0]), actions[1..], e);
    }
  }

  /** With every dequeued operation concluded no upload is under way and no outcome waits for collection. */
  lemma ConcludedMeansIdle(s: State)
    requires Inv(s)
    ensures s.persisted == |s.slots| ==> s.uploading == {} && forall k :: 0 <= k < |s.token| ==> s.token[k].Bare?
  {
    if s.persisted == |s.slots| {
      assert forall i :: i !in s.uploading;
    }
  }

  /** A signal that does not force its way is acted on only with no operation waiting and every dequeued operation
      concluded: no upload under way, none reported but uncollected. */
  lemma ActsOnlyWhenConcluded(s: State)
    requires Reachable(s) && Enabled(s, TakeSignal) && !s.signal.value.forced
    ensures Apply(s, TakeSignal).acted != s.acted <==> |s.incoming| == 0 && s.persisted == |s.arrivals|
    ensures Apply(s, TakeSignal).acted != s.acted ==>
      s.uploading == {} && forall k :: 0 <= k < |s.token| ==> s.token[k].Bare?
  {
    ReachableInv(s);
    assert |s.acted + [s.signal.value]| == |s.acted| + 1;
    ConcludedMeansIdle(s);
  }

  /** A delayed signal is never stranded: the operation that holds it back is still being uploaded or rides on a
      queued token, whose collection re-examines the signal. */
  lemma DelayedSignalHasCarrier(s: State)
    requires Reachable(s) && s.delayed.Some?
    ensures s.persisted < |s.slots| && (s.persisted in s.uploading || Carried(s, s.persisted))
  {
    ReachableInv(s);
  }

  /** The token at the head of the channel carries the only operation that is not concluded yet. */
  ghost predicate LastOutstanding(s: State) {
    && |s.token| > 0 && s.token[0].Concluded?
    && forall i :: 0 <= i < |s.slots| && s.slots[i].None? ==> i == s.token[0].idx
  }

  /** The step puts another signal into the channel of capacity one: a new one is sent, or the collection of the last
      outstanding operation sends a delayed one again. */
  ghost predicate Evicts(s: State, a: Action) {
    || (a.Send? && Some(a.s) != s.signal)
    || (a.TakeToken? && s.delayed.Some? && s.delayed != s.signal && LastOutstanding(s))
  }

  lemma CollectsAll(s: State)
    requires Inv(s) && Enabled(s, TakeToken) && s.delayed.Some?
    ensures var c := Collect(s.(token := s.token[1..]), s.token[0]); c.persisted == |c.slots| <==> LastOutstanding(s)
  {
    var c := Collect(s.(token := s.token[1..]), s.token[0]);
    CollectOrders(s, c);
    CollectLeaves(s.(token := s.token[1..]), s.token[0]);
    hide Drain, Successes, Tracked, NothingForgotten;
    if s.token[0].Concluded? {
      assert c.slots == s.slots[s.token[0].idx := Some(s.token[0].ok)];
      if c.persisted < |c.slots| {
        assert c.slots[c.persisted].None? && s.slots[c.persisted].None? && c.persisted != s.token[0].idx;
      } else {
        forall i | 0 <= i < |s.slots| && s.slots[i].None?
          ensures i == s.token[0].idx
        {
          assert c.slots[i].Some?;
        }
      }
    } else {
      assert c.persisted == s.persisted < |s.slots|;
    }
  }

  /** What becomes of a queued forced signal: the tracker acts on it as soon as it takes it, whatever is outstanding,
      and it is lost exactly when a step evicts it before. */
  lemma ForcedSignalFate(s: State, a: Action)
    requires Reachable(s) && Enabled(s, a) && s.signal.Some? && s.signal.value.forced
    ensures a.TakeSignal? ==> Apply(s, a).acted == s.acted + [s.signal.value] && Apply(s, a).signal.None?
    ensures !a.TakeSignal? ==> Apply(s, a).acted == s.acted && (Apply(s, a).signal == s.signal <==> !Evicts(s, a))
  {
    ReachableInv(s);
    if a.TakeToken? {
      hide Inv, Collect, LastOutstanding;
      ResendFate(s);
    } else if a.TakeTokenForOp? {
      CollectKeepsSignals(s.(token := s.token[1..]), s.token[0]);
    }
  }

  lemma ResendFate(s: State)
    requires Inv(s) && Enabled(s, TakeToken)
    ensures var s' := Apply(s, TakeToken);
      s'.acted == s.acted && s'.signal == if s.delayed.Some? && LastOutstanding(s) then s.delayed else s.signal
  {
    if s.delayed.Some? {
      CollectsAll(s);
    }
    hide Inv, Collect, LastOutstanding;
    CollectIgnoresFree(s.(token := s.token[1..]), s.token[0], s.freeToken + 1);
    assert s.(token := s.token[1..], freeToken := s.freeToken + 1) ==
      s.(token := s.token[1..]).(freeToken := s.freeToken + 1);
    CollectKeepsSignals(s.(token := s.token[1..]), s.token[0]);
  }

  lemma CollectKeepsSignals(s: State, t: Token)
    requires s.persisted <= |s.slots| && (t.Concluded? ==> t.idx < |s.slots|)
    ensures var c := Collect(s, t); c.signal == s.signal && c.delayed == s.delayed && c.acted == s.acted
  {
    hide Drain;
  }

  lemma {:induction false} RunSnoc(s: State, actions: seq<Action>, m: State, a: Action)
    requires Runs(s, actions, m) && Enabled(m, a)
    ensures Runs(s, actions + [a], Apply(m, a))
    decreases |actions|
  {
    hide Enabled, Apply;
    if |actions| == 0 {
      assert (actions + [a])[1..] == [];
      assert Runs(Apply(s, a), [], Apply(m, a));
    } else {
      assert (actions + [a])[1..] == actions[1..] + [a];
      RunSnoc(Apply(s, actions[0]), actions[1..], m, a);
    }
  }

  lemma ReachableStep(s: State, a: Action)
    requires Reachable(s) && Enabled(s, a)
    ensures Reachable(Apply(s, a))
  {
    var actions :| Runs(Init(s.concurrency), actions, s);
    RunSnoc(Init(s.concurrency), actions, s, a);
    assert Apply(s, a).concurrency == s.concurrency by {
      hide Drain;
    }
  }

  /** One upload is under way and nothing else. */
  lemma OneUploading(concurrency: nat, op: Op) returns (s: State)
    requires concurrency > 0 && op.needsUpload
    ensures Reachable(s)
    ensures s == Init(concurrency).(arrivals := [op], freeToken := concurrency - 1, uploading := {0}, slots := [None])
  {
    s := Init(concurrency);
    assert Runs(s, [], s);
    hide Reachable;
    ReachableStep(s, Submit(op));
    s := Apply(s, Submit(op));
    ReachableStep(s, Dequeue);
    s := Apply(s, Dequeue);
    ReachableStep(s, TakeTokenForOp);
    s := Apply(s, TakeTokenForOp);
  }

  /** A signal was delayed by the upload, which has reported since. */
  lemma DelayedByUpload(concurrency: nat, op: Op, plain: Signal) returns (s: State)
    requires concurrency > 0 && op.needsUpload && !plain.forced
    ensures Reachable(s) && s.token == [Concluded(0, true)] && s.slots == [None] && s.persisted == 0
    ensures s.delayed == Some(plain) && s.acted == [] && AtSelect(s)
  {
    s := OneUploading(concurrency, op);
    hide Reachable;
    ReachableStep(s, Send(plain));
    s := Apply(s, Send(plain));
    ReachableStep(s, TakeSignal);
    s := Apply(s, TakeSignal);
    ReachableStep(s, Report(0, true));
    s := Apply(s, Report(0, true));
  }

  /** The second kind of eviction does happen. A signal that does not force its way is delayed by an upload; before
      the tracker collects the upload, a forced signal is sent; the collection sends the delayed signal again and the
      forced one is gone. */
  lemma ForcedSignalEvicted(concurrency: nat, op: Op, plain: Signal, urgent: Signal) returns (s: State)
    requires concurrency > 0 && op.needsUpload && !plain.forced && urgent.forced
    ensures Reachable(s) && s.signal == Some(urgent) && s.acted == []
    ensures Enabled(s, TakeToken) && Evicts(s, TakeToken)
    ensures Apply(s, TakeToken).signal == Some(plain) && Apply(s, TakeToken).acted == []
  {
    s := DelayedByUpload(concurrency, op, plain);
    hide Reachable;
    ReachableStep(s, Send(urgent));
    s := Apply(s, Send(urgent));
    ReachableInv(s);
    hide Inv;
    ResendFate(s);
  }

  // ----- what became of the operations, told by the steps of the run -----

  /** The operations submitted in a run, in order. */
  function Submitted(actions: seq<Action>): seq<Op> {
    if |actions| == 0 then []
    else Submitted(actions[..|actions| - 1]) + (if Ending(actions).Submit? then [Ending(actions).op] else [])
  }

  function Ending(actions: seq<Action>): Action
    requires |actions| > 0
  {
    actions[|actions| - 1]
  }

  /** The operations taken in, the one in hand and those still waiting. */
  function Known(s: State): seq<Op> {
    s.arrivals + (if s.inHand.Some? then [s.inHand.value] else []) + s.incoming
  }

  /** Nothing submitted is lost, doubled or reordered on its way through the tracker. */
  ghost predicate InSubmitted(s: State, past: seq<Action>) {
    Known(s) == Submitted(past)
  }

  /** The operation succeeds: it needs no upload, or its upload has reported success. */
  ghost predicate Succeeded(op: Op, i: nat, past: seq<Action>) {
    !op.needsUpload || Report(i, true) in past
  }

  /** Outcomes are what the run says; nobody has reported for an operation that is being uploaded or not there. */
  ghost predicate Told(s: State, past: seq<Action>) {
    && |s.arrivals| == |s.slots|
    && (forall i :: i in s.outcomes ==> i < |s.arrivals| && (s.outcomes[i] <==> Succeeded(s.arrivals[i], i, past)))
    && (forall i :: i in s.uploading ==> i < |s.arrivals| && s.arrivals[i].needsUpload)
    && (forall i: nat, ok :: Report(i, ok) in past ==> i < |s.arrivals| && i !in s.uploading)
  }

  lemma LaunchTold(s: State, past: seq<Action>)
    requires Told(s, past) && s.inHand.Some?
    ensures Told(Launch(s), past)
  {
    assert Report(|s.slots|, true) !in past;
  }

  lemma CollectTold(s: State, t: Token)
    requires s.persisted <= |s.slots| && (t.Concluded? ==> t.idx < |s.slots|)
    ensures var c := Collect(s, t);
      && |c.slots| == |s.slots| && c.arrivals == s.arrivals && c.inHand == s.inHand && c.incoming == s.incoming
      && c.outcomes == s.outcomes && c.uploading == s.uploading
  {
    hide Drain;
  }

  lemma SnocMember(past: seq<Action>, a: Action)
    ensures forall i: nat, ok :: Report(i, ok) in past + [a] <==> Report(i, ok) in past || a == Report(i, ok)
  {
  }

  lemma QuietTold(s: State, s': State, past: seq<Action>, a: Action)
    requires Told(s, past) && !a.Report?
    requires s'.arrivals == s.arrivals && |s'.slots| == |s.slots|
    requires s'.outcomes == s.outcomes && s'.uploading == s.uploading
    ensures Told(s', past + [a])
  {
    SnocMember(past, a);
  }

  lemma ReportTold(s: State, past: seq<Action>, a: Action)
    requires Told(s, past) && a.Report? && Enabled(s, a)
    ensures Told(Apply(s, a), past + [a])
  {
    SnocMember(past, a);
  }

  lemma StepTold(s: State, past: seq<Action>, a: Action)
    requires Told(s, past) && Enabled(s, a)
    ensures Told(Apply(s, a), past + [a])
  {
    match a {
      case Report(_, _) => ReportTold(s, past, a);
      case TakeTokenForOp =>
        var s1 := s.(token := s.token[1..]);
        CollectTold(s1, s.token[0]);
        hide Collect;
        QuietTold(s, Collect(s1, s.token[0]), past, a);
        LaunchTold(Collect(s1, s.token[0]), past + [a]);
      case TakeToken =>
        CollectTold(s.(token := s.token[1..], freeToken := s.freeToken + 1), s.token[0]);
        hide Collect;
        QuietTold(s, Apply(s, a), past, a);
      case _ => QuietTold(s, Apply(s, a), past, a);
    }
  }

  lemma TokenKeepsKnown(s: State, a: Action)
    requires Enabled(s, a) && (a.TakeTokenForOp? || a.TakeToken?)
    ensures Known(Apply(s, a)) == Known(s)
  {
    var s1 := if a.TakeToken? then s.(freeToken := s.freeToken + 1) else s;
    CollectTold(s1.(token := s.token[1..]), s.token[0]);
    hide Collect;
  }

  lemma QueueKeepsKnown(s: State, a: Action)
    requires Enabled(s, a) && !a.TakeTokenForOp? && !a.TakeToken?
    ensures Known(Apply(s, a)) == Known(s) + (if a.Submit? then [a.op] else [])
  {
    hide Collect;
    if a.Dequeue? {
      assert s.incoming == [s.incoming[0]] + s.incoming[1..];
    }
  }

  lemma StepInSubmitted(s: State, past: seq<Action>, a: Action)
    requires InSubmitted(s, past) && Enabled(s, a)
    ensures InSubmitted(Apply(s, a), past + [a])
  {
    assert (past + [a])[..|past|] == past && Ending(past + [a]) == a;
    hide Known, Apply;
    if a.TakeTokenForOp? || a.TakeToken? {
      TokenKeepsKnown(s, a);
    } else {
      QueueKeepsKnown(s, a);
    }
  }

  lemma {:induction false} RunTold(s: State, past: seq<Action>, actions: seq<Action>, e: State)
    requires Told(s, past) && InSubmitted(s, past) && Runs(s, actions, e)
    ensures Told(e, past + actions) && InSubmitted(e, past + actions)
    decreases |actions|
  {
    if |actions| == 0 {
      assert past + actions == past;
    } else {
      hide Told, InSubmitted, Enabled, Apply;
      StepTold(s, past, actions[0]);
      StepInSubmitted(s, past, actions[0]);
      RunTold(Apply(s, actions[0]), past + [actions[0]], actions[1..], e);
      assert past + [actions[0]] + actions[1..] == past + actions;
    }
  }

  /** In every run the operations taken in, the one in hand and those still waiting are the submitted ones in order,
      and of the concluded ones exactly those are handed on that needed no upload or whose upload reported
      success. */
  lemma DeliversWhatSucceeded(concurrency: nat, actions: seq<Action>, s: State)
    requires Runs(Init(concurrency), actions, s)
    ensures Known(s) == Submitted(actions) && s.persisted <= |s.arrivals|
    ensures forall i: nat :: i < s.persisted ==>
      (i in s.delivered <==> !s.arrivals[i].needsUpload || Report(i, true) in actions)
  {
    var start := Init(concurrency);
    assert Told(start, []) && InSubmitted(start, []);
    RunTold(start, [], actions, s);
    assert [] + actions == actions;
    RunKeepsInv(start, actions, s);
    hide Runs;
    forall i: nat | i < s.persisted
      ensures i in s.delivered <==> Succeeded(s.arrivals[i], i, actions)
    {
      SuccessesExact(s.slots, s.persisted);
    }
  }

  // ----- what becomes of a signal that does not force its way -----

  /** A queued signal that does not force its way stays in the channel while operations wait, is put off while one is
      outstanding, and is acted on otherwise; before it is taken it is lost exactly when a step evicts it. */
  lemma UnforcedSignalFate(s: State, a: Action)
    requires Reachable(s) && Enabled(s, a) && s.signal.Some? && !s.signal.value.forced
    ensures a.TakeSignal? && |s.incoming| > 0 ==> Apply(s, a) == s
    ensures a.TakeSignal? && |s.incoming| == 0 && s.persisted < |s.arrivals| ==>
      Apply(s, a).signal.None? && Apply(s, a).delayed == s.signal && Apply(s, a).acted == s.acted
    ensures a.TakeSignal? && |s.incoming| == 0 && s.persisted == |s.arrivals| ==>
      && Apply(s, a).signal.None? && Apply(s, a).delayed.None?
      && Apply(s, a).acted == s.acted + [s.signal.value]
    ensures !a.TakeSignal? ==> Apply(s, a).acted == s.acted && (Apply(s, a).signal == s.signal <==> !Evicts(s, a))
  {
    ReachableInv(s);
    if a.TakeToken? {
      hide Inv, Collect, LastOutstanding;
      ResendFate(s);
    } else if a.TakeTokenForOp? {
      CollectKeepsSignals(s.(token := s.token[1..]), s.token[0]);
    }
  }

  /** A delayed signal stays delayed until the last outstanding operation is collected, which sends it again, or
      until another signal is put off in its place. */
  lemma DelayedSignalFate(s: State, a: Action)
    requires Reachable(s) && Enabled(s, a) && s.delayed.Some?
    ensures a.TakeToken? && LastOutstanding(s) ==> Apply(s, a).delayed.None? && Apply(s, a).signal == s.delayed
    ensures a.TakeSignal? && !s.signal.value.forced && |s.incoming| == 0 ==> Apply(s, a).delayed == s.signal
    ensures !(a.TakeToken? && LastOutstanding(s)) && !(a.TakeSignal? && !s.signal.value.forced && |s.incoming| == 0) ==>
      Apply(s, a).delayed == s.delayed
  {
    ReachableInv(s);
    if a.TakeToken? {
      CollectsAll(s);
      hide Inv, Collect, LastOutstanding;
      CollectIgnoresFree(s.(token := s.token[1..]), s.token[0], s.freeToken + 1);
      assert s.(token := s.token[1..], freeToken := s.freeToken + 1) ==
        s.(token := s.token[1..]).(freeToken := s.freeToken + 1);
      CollectKeepsSignals(s.(token := s.token[1..]), s.token[0]);
    } else if a.TakeTokenForOp? {
      CollectKeepsSignals(s.(token := s.token[1..]), s.token[0]);
    }
  }

  /** The tracker has stopped if and only if the last signal it acted on was a stop, and acts on nothing after it. */
  ghost predicate StopEnds(s: State) {
    && (s.stopped <==> |s.acted| > 0 && s.acted[|s.acted| - 1].stop)
    && (forall k :: 0 <= k < |s.acted| - 1 ==> !s.acted[k].stop)
    && (s.stopped ==> s.inHand.None?)
  }

  lemma {:induction false} RunStops(s: State, actions: seq<Action>, e: State)
    requires StopEnds(s) && Runs(s, actions, e)
    ensures StopEnds(e)
    decreases |actions|
  {
    if |actions| > 0 {
      hide Drain;
      RunStops(Apply(s, actions[0]), actions[1..], e);
    }
  }

  lemma NothingAfterStop(s: State)
    requires Reachable(s)
    ensures s.stopped <==> |s.acted| > 0 && s.acted[|s.acted| - 1].stop
    ensures forall k :: 0 <= k < |s.acted| - 1 ==> !s.acted[k].stop
  {
    var actions :| Runs(Init(s.concurrency), actions, s);
    RunStops(Init(s.concurrency), actions, s);
  }

  /** The event loop itself. Each handler is one case of its select statement, or the part of one between two channel
      operations, and does what the step of that name says. */
  class EventLoop {
    var world: State   // the channels, the goroutines and the log of calls to the helpers
    var persistedOps: seq<Option<bool>>
    var persisted: nat
    var freeToken: nat
    var delayedSignal: Option<Signal>

    ghost function View(): State
      reads this
    {
      world.(slots := persistedOps, persisted := persisted, freeToken := freeToken, delayed := delayedSignal)
    }

    constructor (concurrency: nat)
      ensures View() == Init(concurrency)
    {
      world := Init(concurrency);
      persistedOps, persisted, freeToken, delayedSignal := [], 0, concurrency, None;
    }

    method CollectPersisted(idx: nat, ok: bool)
      requires persisted <= |persistedOps| && idx < |persistedOps|
      modifies `world, `persistedOps, `persisted
      ensures View() == Collect(old(View()), Concluded(idx, ok))
    {
      persistedOps := persistedOps[idx := Some(ok)];
      var calls := world.delivered;
      while persisted < |persistedOps| && persistedOps[persisted].Some?
        invariant persisted <= |persistedOps|
        invariant persistedOps == old(persistedOps)[idx := Some(ok)] && world == old(world)
        invariant Drain(persistedOps, persisted, calls) == Drain(persistedOps, old(persisted), world.delivered)
      {
        if persistedOps[persisted].value {
          calls := calls + [persisted];
        }
        persisted := persisted + 1;
      }
      world := world.(delivered := calls);
    }

    /** The first part of the case for a new operation: fill a token if one is free. */
    method OnOperation()
      requires Enabled(View(), Dequeue)
      modifies this
      ensures View() == Apply(old(View()), Dequeue)
      ensures old(Inv(View())) ==> Inv(View())
      ensures old(Inv(View()) && View().concurrency > 0) ==>
        |View().token| > 0 || View().uploading != {}   // a token is there or will come
    {
      if Inv(View()) {
        StepKeepsInv(View(), Dequeue);
      }
      hide Tracked, NothingForgotten, Ordered, DelayHasReason;
      world := world.(inHand := Some(world.incoming[0]), incoming := world.incoming[1..]);
      if freeToken > 0 {
        freeToken := freeToken - 1;
        world := world.(token := world.token + [Bare]);
      }
    }

    /** The second part: a token is available; reserve a slot and start the upload. */
    method OnTokenForOperation()
      requires Enabled(View(), TakeTokenForOp)
      modifies this
      ensures View() == Apply(old(View()), TakeTokenForOp)
      ensures old(Inv(View())) ==> Inv(View())
    {
      if Inv(View()) {
        StepKeepsInv(View(), TakeTokenForOp);
      }
      hide Inv;
      var t := world.token[0];
      world := world.(token := world.token[1..]);
      if t.Concluded? {
        CollectPersisted(t.idx, t.ok);
      }
      var op, idx := world.inHand.value, |persistedOps|;
      persistedOps := persistedOps + [None];
      world := world.(arrivals := world.arrivals + [op], inHand := None);
      if op.needsUpload {
        world := world.(uploading := world.uploading + {idx});
      } else {
        world := world.(token := world.token + [Concluded(idx, true)], outcomes := world.outcomes[idx := true]);
      }
    }

    method OnToken()
      requires Enabled(View(), TakeToken)
      modifies this
      ensures View() == Apply(old(View()), TakeToken)
      ensures old(Inv(View())) ==> Inv(View())
    {
      if Inv(View()) {
        StepKeepsInv(View(), TakeToken);
      }
      hide Inv;
      var t := world.token[0];
      world := world.(token := world.token[1..]);
      if t.Concluded? {
        CollectPersisted(t.idx, t.ok);
      }
      freeToken := freeToken + 1;
      if delayedSignal.Some? && persisted == |persistedOps| {
        world := world.(signal := delayedSignal);
        delayedSignal := None;
      }
    }

    method OnSignal()
      requires Enabled(View(), TakeSignal)
      modifies this
      ensures View() == Apply(old(View()), TakeSignal)
      ensures old(Inv(View())) ==> Inv(View())
      ensures old(Inv(View()) && !View().signal.value.forced) && View().acted != old(View().acted) ==>
        && old(View().incoming == [] && View().uploading == {})
        && old(forall k :: 0 <= k < |View().token| ==> View().token[k].Bare?)
    {
      if Inv(View()) {
        StepKeepsInv(View(), TakeSignal);
        ConcludedMeansIdle(View());
      }
      hide Inv;
      var sig := world.signal.value;
      if |world.incoming| > 0 && !sig.forced {
        world := world.(signal := Some(sig));
      } else if persisted < |persistedOps| && !sig.forced {
        world := world.(signal := None);
        delayedSignal := Some(sig);
      } else {
        world := world.(signal := None, acted := world.acted + [sig], stopped := sig.stop);
      }
    }
  }
}
