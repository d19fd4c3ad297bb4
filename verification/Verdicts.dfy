/** What became of the versions in the metadata store and why, told by the steps of a run: who confirmed or gave up a
    creation first, and whose calls were refused. Candidates may come with any flags. */
module Verdicts {
  import opened Common
  import opened MetaStore
  import opened AnyCandidate

  datatype Verdict = Confirmed | GivenUp

  /** The step passes a verdict on the meta: ConfirmCreated, Invalidate, or the invalidation by a call that finds it
      past its deadline. */
  function Passes(s: State, a: Action, id: MetaId): Option<Verdict>
    requires Enabled(s, a, false)
  {
    match a
    case Confirm(x) => if x == id then Some(Confirmed) else None
    case Invalidate(x) => if x == id then Some(GivenUp) else None
    case TestStep(t, _) => if s.inserters[t].test == Expire && s.inserters[t].seen == id then Some(GivenUp) else None
    case GetStep(t, _) => if s.getters[t].test == Expire && s.getters[t].at == id then Some(GivenUp) else None
    case _ => None
  }

  /** The first verdict on the meta in a run. */
  ghost function FirstVerdict(s: State, actions: seq<Action>, id: MetaId): Option<Verdict>
    decreases |actions|
  {
    if |actions| == 0 || !Enabled(s, actions[0], false) then None
    else if Passes(s, actions[0], id).Some? then Passes(s, actions[0], id)
    else FirstVerdict(Apply(s, actions[0]), actions[1..], id)
  }

  /** The flags a meta was handed in with. */
  function Brought(actions: seq<Action>, id: MetaId): Option<Flags> {
    if |actions| == 0 then None
    else if actions[0].Call? && actions[0].cand == id then Some(actions[0].flags)
    else Brought(actions[1..], id)
  }

  /** The flags a verdict leaves; only a meta in creation is open to one. */
  ghost predicate FlagsAfter(before: Flags, verdict: Option<Verdict>, after: Flags) {
    if before != CREATING || verdict.None? then after.created == before.created && after.valid == before.valid
    else after.created == after.valid == (verdict == Some(Confirmed))
  }

  lemma TestFlags(s: State, t: nat, expired: bool, id: MetaId)
    requires Enabled(s, TestStep(t, expired), false) && id in s.metas
    ensures id in StepTest(s, t, expired).metas
    ensures StepTest(s, t, expired).metas[id].flags ==
      if s.inserters[t].test == Expire && s.inserters[t].seen == id && s.metas[id].flags == CREATING
      then Flags(false, false, false) else s.metas[id].flags
  {
  }

  lemma GetFlags(s: State, t: nat, expired: bool, id: MetaId)
    requires Enabled(s, GetStep(t, expired), false) && id in s.metas
    ensures id in StepGet(s, t, expired).metas
    ensures StepGet(s, t, expired).metas[id].flags ==
      if s.getters[t].test == Expire && s.getters[t].at == id && s.metas[id].flags == CREATING
      then Flags(false, false, false) else s.metas[id].flags
  {
  }

  lemma StepFlags(s: State, a: Action, id: MetaId)
    requires Enabled(s, a, false) && id in s.metas
    ensures id in Apply(s, a).metas
    ensures FlagsAfter(s.metas[id].flags, Passes(s, a, id), Apply(s, a).metas[id].flags)
    ensures s.metas[id].flags != CREATING || Passes(s, a, id).Some? ==> Apply(s, a).metas[id].flags != CREATING
    ensures Passes(s, a, id).None? && s.metas[id].flags == CREATING ==> Apply(s, a).metas[id].flags == CREATING
    ensures Apply(s, a).metas[id].flags.deleted <==> s.metas[id].flags.deleted || a == Delete(id)
  {
    hide GreatestFrom, Observe;
    if a.TestStep? {
      TestFlags(s, a.t, a.expired, id);
      hide StepTest;
    } else if a.GetStep? {
      GetFlags(s, a.t, a.expired, id);
      hide StepGet;
    }
  }

  lemma {:induction false} RunFlags(s: State, actions: seq<Action>, e: State, id: MetaId)
    requires Runs(s, actions, e, false) && id in s.metas
    ensures id in e.metas && FlagsAfter(s.metas[id].flags, FirstVerdict(s, actions, id), e.metas[id].flags)
    ensures e.metas[id].flags.deleted <==> s.metas[id].flags.deleted || Delete(id) in actions
    decreases |actions|
  {
    if |actions| > 0 {
      hide Enabled, Apply, Passes;
      StepFlags(s, actions[0], id);
      RunFlags(Apply(s, actions[0]), actions[1..], e, id);
      assert Delete(id) in actions <==> actions[0] == Delete(id) || Delete(id) in actions[1..];
    }
  }

  lemma NewcomerFlags(s: State, a: Action, id: MetaId)
    requires Enabled(s, a, false) && id !in s.metas
    ensures Passes(s, a, id).None? && a != Delete(id)
    ensures id in Apply(s, a).metas <==> a.Call? && a.cand == id
    ensures a.Call? && a.cand == id ==> Apply(s, a).metas[id].flags == a.flags
  {
    hide GreatestFrom, Observe;
  }

  lemma {:induction false} RunFlagsFromCall(s: State, actions: seq<Action>, e: State, id: MetaId)
    requires Runs(s, actions, e, false) && id !in s.metas && id in e.metas
    ensures Brought(actions, id).Some?
    ensures FlagsAfter(Brought(actions, id).value, FirstVerdict(s, actions, id), e.metas[id].flags)
    ensures e.metas[id].flags.deleted <==> Brought(actions, id).value.deleted || Delete(id) in actions
    decreases |actions|
  {
    if |actions| > 0 {
      hide Enabled, Apply, Passes;
      NewcomerFlags(s, actions[0], id);
      var next := Apply(s, actions[0]);
      if id in next.metas {
        RunFlags(next, actions[1..], e, id);
      } else {
        RunFlagsFromCall(next, actions[1..], e, id);
      }
      assert Delete(id) in actions <==> actions[0] == Delete(id) || Delete(id) in actions[1..];
    }
  }

  /** In every run a version is created if and only if the first verdict on it confirms it, and valid if and only if
      none gives it up first; a meta that was handed in decided already keeps what it came with. It is deleted if and
      only if it came so or a step of the run deletes it. */
  lemma FateIsFirstVerdict(actions: seq<Action>, s: State, n: nat)
    requires Runs(Init(), actions, s, false) && n in s.versions
    ensures s.versions[n] in s.metas && Brought(actions, s.versions[n]).Some?
    ensures var id := s.versions[n];
      var came, first, now := Brought(actions, id).value, FirstVerdict(Init(), actions, id), s.metas[id].flags;
      && (came == CREATING ==>
            && (now.created <==> first == Some(Confirmed))
            && (now.valid <==> first != Some(GivenUp)))
      && (came != CREATING ==> now.created == came.created && now.valid == came.valid)
      && (now.deleted <==> came.deleted || Delete(id) in actions)
  {
    assert Loose(Init());
    RunKeepsLoose(Init(), actions, s);
    assert s.versions[n] in s.metas;
    RunFlagsFromCall(Init(), actions, s, s.versions[n]);
    hide Runs, Loose;
    var first := FirstVerdict(Init(), actions, s.versions[n]);
    hide FirstVerdict, Brought;
    assert first.Some? ==> first.value.Confirmed? || first.value.GivenUp?;
  }

  // ----- what a step does to the answer of a reader -----

  lemma CandidateInCreation(s: State, t: nat)
    requires Contiguous(s) && Private(s) && Informed(s) && t in s.inserters && Active(s.inserters[t])
    ensures s.inserters[t].cand in s.metas && s.metas[s.inserters[t].cand].flags == CREATING
    ensures s.inserters[t].Fresh? && s.latest.None? ==> s.metas[s.inserters[t].cand].version == |s.versions| + 1
    ensures s.inserters[t].Swapping? && s.latest == Some(s.inserters[t].seen) ==>
      s.metas[s.inserters[t].cand].version == |s.versions| + 1
    ensures |s.versions| + 1 !in s.versions
  {
    assert InformedCall(s, s.inserters[t]);
  }

  /** A version that joins is in creation. */
  lemma JoinsInCreation(s: State, a: Action)
    requires StoreInv(s) && Enabled(s, a, true) && Enabled(s, a, false)
    ensures var s' := Act(s, a);
      || s'.versions == s.versions
      || (|s.versions| + 1 in s'.versions && !CreatedAt(s', |s.versions| + 1) && |s'.versions| == |s.versions| + 1)
  {
    if a.LoadOrStore? || a.Swap? {
      CandidateInCreation(s, a.t);
    }
    hide Contiguous, Linked, OlderConcluded, FlagsSane, Private, Informed, GreatestFrom, Read;
  }

  /** What the newest version is decides what the greatest created one becomes. */
  lemma NewestDecides(s: State, s': State)
    requires Contiguous(s) && Contiguous(s') && Evolves(s, s')
    requires || s'.versions == s.versions
             || (|s'.versions| == |s.versions| + 1 && !CreatedAt(s', |s.versions| + 1))
    ensures Greatest(s') ==
      if s'.versions == s.versions && CreatedAt(s', |s.versions|) then |s.versions| else Greatest(s)
  {
    var n := |s.versions|;
    if n > 0 {
      GreatestFrame(s, s', n - 1);
      NewestListed(s);
      GreatestHere(s, n);
      GreatestHere(s', n);
    }
    if s'.versions != s.versions {
      NewestListed(s');
      GreatestHere(s', n + 1);
    }
    hide GreatestFrom;
  }

  lemma ConfirmsNewest(s: State, id: MetaId)
    requires StoreInv(s) && Installed(s, id) && s.metas[id].flags == CREATING
    ensures s.latest == Some(id) && |s.versions| in s.versions && s.versions[|s.versions|] == id
  {
  }

  lemma NewestTurnsCreated(s: State, a: Action)
    requires StoreInv(s) && Enabled(s, a, false) && |s.versions| > 0 && Apply(s, a).versions == s.versions
    ensures CreatedAt(Apply(s, a), |s.versions|) <==>
      CreatedAt(s, |s.versions|) || (a.Confirm? && s.metas[a.id].flags == CREATING)
  {
    NewestListed(s);
    StepFlags(s, a, s.versions[|s.versions|]);
    if a.Confirm? && s.metas[a.id].flags == CREATING {
      ConfirmsNewest(s, a.id);
    }
    hide Apply, StoreInv;
  }

  /** With fresh candidates the greatest created version changes only when the newest version, still in creation, is
      confirmed, and then to that version. So a creation that is given up, or past its deadline, leaves it alone. */
  lemma GreatestMovesByConfirm(s: State, a: Action)
    requires Reachable(s, true) && Enabled(s, a, true)
    ensures Enabled(s, a, false)
    ensures Greatest(Apply(s, a)) ==
      if a.Confirm? && s.metas[a.id].flags == CREATING then |s.versions| else Greatest(s)
    ensures a.Confirm? && s.metas[a.id].flags == CREATING ==> s.latest == Some(a.id)
  {
    ReachableInv(s);
    StepKeepsInv(s, a);
    StepEvolves(s, a);
    hide ReadersOk, Linked, OlderConcluded, FlagsSane, Private, Informed;
    JoinsInCreation(s, a);
    var s', n := Apply(s, a), |s.versions|;
    EvolvesByStore(s, Act(s, a), s');
    NewestDecides(s, s');
    if n > 0 {
      NewestListed(s);
      GreatestHere(s, n);
      if s'.versions == s.versions {
        NewestTurnsCreated(s, a);
      }
    }
    if a.Confirm? && s.metas[a.id].flags == CREATING {
      ConfirmsNewest(s, a.id);
    }
    hide GreatestFrom, Evolves, Contiguous, Act, Enabled, Apply, CreatedAt;
  }

  // ----- deadlines -----

  /** Nobody is about to invalidate a meta for its age. */
  ghost predicate NobodyExpires(s: State) {
    && (forall t :: t in s.inserters && s.inserters[t].Testing? ==> s.inserters[t].test != Expire)
    && (forall t :: t in s.getters && s.getters[t].Reading? ==> s.getters[t].test != Expire)
  }

  predicate FindsExpired(a: Action) {
    (a.TestStep? || a.GetStep?) && a.expired
  }

  lemma StepExpires(s: State, a: Action)
    requires NobodyExpires(s) && Enabled(s, a, false) && !FindsExpired(a)
    ensures NobodyExpires(Apply(s, a))
  {
    hide GreatestFrom;
  }

  lemma {:induction false} NoVerdictByAge(s: State, actions: seq<Action>, e: State, id: MetaId)
    requires NobodyExpires(s) && Runs(s, actions, e, false)
    requires forall k :: 0 <= k < |actions| ==> !FindsExpired(actions[k])
    ensures FirstVerdict(s, actions, id) == Some(GivenUp) ==> Invalidate(id) in actions
    ensures FirstVerdict(s, actions, id) == Some(Confirmed) ==> Confirm(id) in actions
    decreases |actions|
  {
    if |actions| > 0 {
      StepExpires(s, actions[0]);
      hide Apply;
      NoVerdictByAge(Apply(s, actions[0]), actions[1..], e, id);
      assert forall a :: a in actions[1..] ==> a in actions;
    }
  }

  /** As long as no call finds a meta past its deadline, a creation is given up by Invalidate only. */
  lemma OnlyDeadlinesExpire(actions: seq<Action>, s: State, n: nat)
    requires Runs(Init(), actions, s, false) && n in s.versions && Brought(actions, s.versions[n]) == Some(CREATING)
    requires forall k :: 0 <= k < |actions| ==> !FindsExpired(actions[k])
    ensures s.versions[n] in s.metas
    ensures !s.metas[s.versions[n]].flags.valid ==> Invalidate(s.versions[n]) in actions
    ensures s.metas[s.versions[n]].flags.created ==> Confirm(s.versions[n]) in actions
  {
    FateIsFirstVerdict(actions, s, n);
    NoVerdictByAge(Init(), actions, s, s.versions[n]);
  }

  // ----- calls that are refused -----

  /** The two metas were made by different requests. */
  ghost predicate Strangers(s: State, x: MetaId, y: MetaId) {
    x in s.metas && y in s.metas && s.metas[x].initiator != s.metas[y].initiator
  }

  /** A call that is past the first test has not found its own request. */
  ghost predicate Admitted(s: State) {
    forall t :: t in s.inserters ==>
      var i := s.inserters[t];
      (i.Testing? && i.test != CheckCreated) || i.Revising? || i.Swapping? ==> Strangers(s, i.cand, i.seen)
  }

  ghost predicate NeighboursDiffer(s: State) {
    forall n: nat :: n in s.versions && n > 1 && n - 1 in s.versions ==> Strangers(s, s.versions[n], s.versions[n - 1])
  }

  /** Metas stay and keep their initiators. */
  ghost predicate SameInitiators(s: State, s': State) {
    forall id :: id in s.metas ==> id in s'.metas && s'.metas[id].initiator == s.metas[id].initiator
  }

  lemma StepSameInitiators(s: State, a: Action)
    requires Enabled(s, a, false)
    ensures SameInitiators(s, Apply(s, a))
  {
    hide GreatestFrom, Observe;
  }

  lemma OthersStayAdmitted(s: State, s': State, t: nat)
    requires Admitted(s) && SameInitiators(s, s')
    requires t in s'.inserters && s'.inserters == s.inserters[t := s'.inserters[t]]
    requires var i := s'.inserters[t];
      (i.Testing? && i.test != CheckCreated) || i.Revising? || i.Swapping? ==> Strangers(s', i.cand, i.seen)
    ensures Admitted(s')
  {
  }

  lemma SameCallsAdmitted(s: State, s': State)
    requires Admitted(s) && SameInitiators(s, s') && s'.inserters == s.inserters
    ensures Admitted(s')
  {
  }

  lemma StepAdmits(s: State, a: Action)
    requires Admitted(s) && Enabled(s, a, false)
    ensures Admitted(Apply(s, a))
  {
    StepSameInitiators(s, a);
    hide GreatestFrom, Observe, SameInitiators;
    if a.Call? || a.LoadOrStore? || a.TestStep? || a.Revise? || a.Swap? {
      if !a.Call? && !a.LoadOrStore? {
        CallAdmitted(s, a);
      }
      hide Admitted;
      OthersStayAdmitted(s, Apply(s, a), a.t);
    } else {
      hide Admitted;
      SameCallsAdmitted(s, Apply(s, a));
    }
  }

  lemma CallAdmitted(s: State, a: Action)
    requires Admitted(s) && Enabled(s, a, false) && (a.TestStep? || a.Revise? || a.Swap?)
    ensures var i := Apply(s, a).inserters[a.t];
      (i.Testing? && i.test != CheckCreated) || i.Revising? || i.Swapping? ==> Strangers(Apply(s, a), i.cand, i.seen)
  {
    StepSameInitiators(s, a);
    hide GreatestFrom, Observe;
  }

  /** A version joins only next to one of another request. */
  lemma JoinsStranger(s: State, a: Action)
    requires Loose(s) && Admitted(s) && Enabled(s, a, false)
    ensures var s', n := Act(s, a), |s.versions|;
      || s'.versions == s.versions
      || (&& n + 1 in s'.versions && s'.versions == s.versions[n + 1 := s'.versions[n + 1]]
          && (n > 0 ==> n in s.versions && Strangers(s, s'.versions[n + 1], s.versions[n])))
  {
    if a.Swap? || a.LoadOrStore? {
      assert Knows(s, s.inserters[a.t]);
      if s.latest.Some? {
        LatestInstalled(s);
      }
    }
    hide Chained, Unseen, AllKnow;
  }

  lemma StepKeepsNeighbours(s: State, a: Action)
    requires Loose(s) && Admitted(s) && NeighboursDiffer(s) && Enabled(s, a, false)
    ensures NeighboursDiffer(Apply(s, a))
  {
    StepSameInitiators(s, a);
    JoinsStranger(s, a);
    hide Chained, Unseen, AllKnow, Act, Enabled, Admitted;
  }

  lemma {:induction false} RunKeepsNeighbours(s: State, actions: seq<Action>, e: State)
    requires Loose(s) && Admitted(s) && NeighboursDiffer(s) && Runs(s, actions, e, false)
    ensures NeighboursDiffer(e)
    decreases |actions|
  {
    if |actions| > 0 {
      hide Loose, Admitted, NeighboursDiffer, Enabled, Apply;
      StepKeepsLoose(s, actions[0]);
      StepAdmits(s, actions[0]);
      StepKeepsNeighbours(s, actions[0]);
      RunKeepsNeighbours(Apply(s, actions[0]), actions[1..], e);
    }
  }

  /** In every interleaving no request makes two versions in a row. */
  lemma NeighboursMadeByDifferentRequests(s: State, n: nat)
    requires Reachable(s, false) && n in s.versions && n + 1 in s.versions
    ensures s.versions[n] in s.metas && s.versions[n + 1] in s.metas
    ensures s.metas[s.versions[n]].initiator != s.metas[s.versions[n + 1]].initiator
  {
    var actions :| Runs(Init(), actions, s, false);
    assert Loose(Init());
    RunKeepsNeighbours(Init(), actions, s);
    RunKeepsLoose(Init(), actions, s);
    assert n >= 1;
    assert Strangers(s, s.versions[n + 1], s.versions[n + 1 - 1]);
  }

  /** Another request's call is refused only over a version it has just seen not created. */
  lemma RefusedOverUncreated(s: State, t: nat, expired: bool)
    requires Enabled(s, TestStep(t, expired), false) && Strangers(s, s.inserters[t].cand, s.inserters[t].seen)
    requires Apply(s, TestStep(t, expired)).inserters[t].Refused?
    ensures Apply(s, TestStep(t, expired)).inserters[t] == Refused(s.inserters[t].cand, s.inserters[t].seen)
    ensures !s.metas[s.inserters[t].seen].flags.created
  {
  }

  /** A call by the request that made the newest version shares that version and installs nothing. */
  lemma OwnVersionIsShared(s: State, t: nat, cand: MetaId, flags: Flags, last: MetaId)
    returns (actions: seq<Action>, e: State)
    requires s.latest == Some(last) && last in s.metas && t !in s.inserters && cand !in s.metas
    ensures Runs(s, actions, e, false)
    ensures Examining(s, e, t, cand, Meta(1, 0, s.metas[last].initiator, flags), Refused(cand, last))
  {
    actions, e := InsertBegins(s, t, cand, s.metas[last].initiator, flags, last);
    hide GreatestFrom, Observe, Runs;
    RunSnoc(s, actions, e, TestStep(t, false));
    actions, e := actions + [TestStep(t, false)], Apply(e, TestStep(t, false));
  }

  lemma TestGoesOn(s: State, m: State, t: nat, cand: MetaId, c: Meta, last: MetaId, test: Test, expired: bool)
    requires Examining(s, m, t, cand, c, Testing(cand, last, test)) && test != Expire
    requires last in s.metas && last != cand && s.metas[last].initiator != c.initiator
    requires s.metas[last].flags == CREATING
    ensures Enabled(m, TestStep(t, expired), false)
    ensures var next := match test
                        case CheckCreated => Testing(cand, last, CheckValid)
                        case CheckValid => Testing(cand, last, if expired then Expire else CheckAgain)
                        case CheckAgain => Testing(cand, last, CheckLast)
                        case _ => Refused(cand, last);
      Examining(s, Apply(m, TestStep(t, expired)), t, cand, c, next)
  {
    hide GreatestFrom, Observe;
  }

  /** While another request is creating the newest version, and has time to do so, a call is refused with it. */
  lemma CreationUnderWayRefuses(s: State, t: nat, cand: MetaId, initiator: nat, flags: Flags, last: MetaId)
    returns (actions: seq<Action>, e: State)
    requires s.latest == Some(last) && last in s.metas && t !in s.inserters && cand !in s.metas
    requires s.metas[last].initiator != initiator && s.metas[last].flags == CREATING
    ensures Runs(s, actions, e, false)
    ensures Examining(s, e, t, cand, Meta(1, 0, initiator, flags), Refused(cand, last))
  {
    var c, a := Meta(1, 0, initiator, flags), TestStep(t, false);
    actions, e := InsertBegins(s, t, cand, initiator, flags, last);
    hide Runs, Apply, Examining, Enabled;
    TestGoesOn(s, e, t, cand, c, last, CheckCreated, false);
    RunSnoc(s, actions, e, a);
    actions, e := actions + [a], Apply(e, a);
    TestGoesOn(s, e, t, cand, c, last, CheckValid, false);
    RunSnoc(s, actions, e, a);
    actions, e := actions + [a], Apply(e, a);
    TestGoesOn(s, e, t, cand, c, last, CheckAgain, false);
    RunSnoc(s, actions, e, a);
    actions, e := actions + [a], Apply(e, a);
    TestGoesOn(s, e, t, cand, c, last, CheckLast, false);
    RunSnoc(s, actions, e, a);
    actions, e := actions + [a], Apply(e, a);
  }

  /** The last steps of a call that finds the newest version past its deadline. */
  lemma ExpiredIsReplaced(s: State, m: State, t: nat, cand: MetaId, c: Meta, last: MetaId)
    returns (actions: seq<Action>, e: State)
    requires Examining(s, m, t, cand, c, Testing(cand, last, Expire))
    requires s.latest == Some(last) && last in s.metas && last != cand && s.metas[last].flags == CREATING
    requires s.metas[last].initiator != c.initiator
    ensures Runs(m, actions, e, false)
    ensures e.versions == s.versions[s.metas[last].version + 1 := cand] && e.latest == Some(cand)
    ensures var given := s.metas[last].(flags := Flags(false, false, false));
      e.metas == s.metas[last := given][cand := ReviseBy(given, c)]
  {
    hide GreatestFrom, Observe;
    assert Runs(m, [], m, false);
    hide Runs;
    RunSnoc(m, [], m, TestStep(t, false));
    var m1 := Apply(m, TestStep(t, false));
    assert m1.inserters[t] == Revising(cand, last) && m1.latest == Some(last) && m1.versions == s.versions;
    RunSnoc(m, [] + [TestStep(t, false)], m1, Revise(t));
    var m2 := Apply(m1, Revise(t));
    assert m2.inserters[t] == Swapping(cand, last) && m2.latest == Some(last);
    RunSnoc(m, [] + [TestStep(t, false)] + [Revise(t)], m2, Swap(t));
    actions, e := [] + [TestStep(t, false)] + [Revise(t)] + [Swap(t)], Apply(m2, Swap(t));
  }

  /** When its time is over the creation is given up and the call makes the next version. */
  lemma DeadlineGivesWay(s: State, t: nat, cand: MetaId, initiator: nat, flags: Flags, last: MetaId)
    returns (actions: seq<Action>, e: State)
    requires s.latest == Some(last) && last in s.metas && t !in s.inserters && cand !in s.metas
    requires s.metas[last].initiator != initiator && s.metas[last].flags == CREATING
    ensures Runs(s, actions, e, false)
    ensures e.versions == s.versions[s.metas[last].version + 1 := cand] && e.latest == Some(cand)
    ensures last in e.metas && e.metas[last].flags == Flags(false, false, false)
  {
    var c := Meta(1, 0, initiator, flags);
    actions, e := InsertBegins(s, t, cand, initiator, flags, last);
    hide Runs, Apply, Examining, Enabled;
    TestGoesOn(s, e, t, cand, c, last, CheckCreated, false);
    RunSnoc(s, actions, e, TestStep(t, false));
    actions, e := actions + [TestStep(t, false)], Apply(e, TestStep(t, false));
    TestGoesOn(s, e, t, cand, c, last, CheckValid, true);
    RunSnoc(s, actions, e, TestStep(t, true));
    actions, e := actions + [TestStep(t, true)], Apply(e, TestStep(t, true));
    var m, rest := e, [];
    rest, e := ExpiredIsReplaced(s, m, t, cand, c, last);
    RunsJoined(s, actions, m, rest, e);
    actions := actions + rest;
  }
}
