/** The metadata store when callers insert candidates with any flags, invalidated or created ones among them: what
    every interleaving still keeps, and exactly when a reader finds the greatest created version. */
module AnyCandidate {
  import opened Common
  import opened MetaStore

  /** The link of version n: the version before it, or what that one links to. */
  ghost predicate LinkFits(s: State, n: nat)
    requires n in s.versions && s.versions[n] in s.metas
  {
    var link := s.metas[s.versions[n]].lastVersion;
    || link == n - 1
    || (n - 1 in s.versions && s.versions[n - 1] in s.metas && link == s.metas[s.versions[n - 1]].lastVersion)
  }

  ghost predicate Chained(s: State) {
    forall n: nat {:trigger LinkFits(s, n)} :: n in s.versions && s.versions[n] in s.metas ==> LinkFits(s, n)
  }

  /** A candidate on its way in is known to its own call only. */
  ghost predicate Unseen(s: State) {
    && (forall t :: t in s.inserters && Active(s.inserters[t]) ==>
          s.inserters[t].cand in s.metas && !Listed(s, s.inserters[t].cand))
    && (forall t, u ::
          t in s.inserters && u in s.inserters && t != u && Active(s.inserters[t]) && Active(s.inserters[u]) ==>
            s.inserters[t].cand != s.inserters[u].cand)
  }

  /** What a call knows about the meta it looked at and about its own. */
  ghost predicate Knows(s: State, i: Inserter) {
    && (i.Fresh? && i.cand in s.metas ==> s.metas[i.cand].version == 1 && s.metas[i.cand].lastVersion == 0)
    && (i.Testing? || i.Revising? || i.Swapping? ==> Installed(s, i.seen))
    && (i.Swapping? && i.cand in s.metas && i.seen in s.metas ==> Follows(s.metas[i.seen], s.metas[i.cand]))
  }

  ghost predicate Follows(seen: Meta, m: Meta) {
    m.version == seen.version + 1 && (m.lastVersion == seen.version || m.lastVersion == seen.lastVersion)
  }

  ghost predicate AllKnow(s: State) {
    forall t :: t in s.inserters ==> Knows(s, s.inserters[t])
  }

  ghost predicate Loose(s: State) {
    Contiguous(s) && Chained(s) && Unseen(s) && AllKnow(s)
  }

  /** Only flags changed. */
  ghost predicate SameShape(s: State, s': State) {
    && s'.versions == s.versions && s'.latest == s.latest && s'.metas.Keys == s.metas.Keys
    && forall id :: id in s.metas ==>
         s'.metas[id].version == s.metas[id].version && s'.metas[id].lastVersion == s.metas[id].lastVersion
  }

  lemma ShapeKeeps(s: State, s': State)
    requires Loose(s) && SameShape(s, s') && s'.inserters == s.inserters
    ensures Loose(s')
  {
    ShapeKeepsVersions(s, s');
    ShapeKeepsCalls(s, s');
  }

  lemma ShapeKeepsVersions(s: State, s': State)
    requires Contiguous(s) && Chained(s) && SameShape(s, s')
    ensures Contiguous(s') && Chained(s')
  {
    forall n: nat | n in s'.versions && s'.versions[n] in s'.metas
      ensures LinkFits(s', n)
    {
      assert LinkFits(s, n);
    }
  }

  lemma ShapeKeepsCalls(s: State, s': State)
    requires Unseen(s) && AllKnow(s) && SameShape(s, s') && s'.inserters == s.inserters
    ensures Unseen(s') && AllKnow(s')
  {
    assert forall id :: Listed(s', id) <==> Listed(s, id);
    forall t | t in s'.inserters
      ensures Knows(s', s'.inserters[t])
    {
      assert Knows(s, s.inserters[t]);
    }
  }

  /** A call moves on without touching the store. */
  lemma MoveKeepsLoose(s: State, t: nat, next: Inserter)
    requires Loose(s) && t in s.inserters && Active(s.inserters[t])
    requires !next.Fresh? && !next.Swapping? && next.cand == s.inserters[t].cand
    requires next.Testing? || next.Revising? ==> Installed(s, next.seen)
    ensures Loose(s.(inserters := s.inserters[t := next]))
  {
    var s' := s.(inserters := s.inserters[t := next]);
    ShapeKeepsVersions(s, s');
    assert forall id :: Listed(s', id) <==> Listed(s, id);
    forall u | u in s'.inserters
      ensures Knows(s', s'.inserters[u])
    {
      if u != t {
        assert Knows(s, s.inserters[u]);
      }
    }
    hide Contiguous, Chained, Listed;
  }

  lemma LatestInstalled(s: State)
    requires Contiguous(s) && s.latest.Some?
    ensures Installed(s, s.latest.value) && s.metas[s.latest.value].version == |s.versions|
  {
  }

  /** Metas nobody has installed yet come and change. */
  lemma UnlistedKeepsChain(s: State, s': State)
    requires Contiguous(s) && Chained(s) && s'.versions == s.versions && s'.latest == s.latest
    requires forall n: nat :: n in s.versions ==>
      s.versions[n] in s'.metas && s'.metas[s.versions[n]] == s.metas[s.versions[n]]
    ensures Contiguous(s') && Chained(s')
  {
    forall n: nat | n in s'.versions && s'.versions[n] in s'.metas
      ensures LinkFits(s', n)
    {
      assert LinkFits(s, n);
    }
  }

  lemma CallKeepsLoose(s: State, a: Action)
    requires Loose(s) && a.Call? && Enabled(s, a, false)
    ensures Loose(Act(s, a))
  {
    var s' := Act(s, a);
    UnlistedKeepsChain(s, s');
    CallIsUnseen(s, a);
    forall u | u in s'.inserters
      ensures Knows(s', s'.inserters[u])
    {
      if u != a.t {
        assert Knows(s, s.inserters[u]);
      }
    }
    hide Unseen, Chained, Contiguous, Knows;
  }

  lemma CallIsUnseen(s: State, a: Action)
    requires Contiguous(s) && Unseen(s) && a.Call? && Enabled(s, a, false)
    ensures Unseen(Act(s, a))
  {
    assert !Listed(s, a.cand);
  }

  /** A candidate that fits behind the newest version is installed. */
  lemma InstallKeepsLoose(s: State, t: nat, cand: MetaId)
    requires Loose(s) && t in s.inserters && Active(s.inserters[t]) && s.inserters[t].cand == cand
    requires s.metas[cand].version == |s.versions| + 1
    requires s.metas[cand].lastVersion == |s.versions| ||
      (|s.versions| > 0 && s.metas[cand].lastVersion == s.metas[s.versions[|s.versions|]].lastVersion)
    ensures Loose(Install(s, t, cand))
  {
    InstallKeepsChain(s, t, cand);
    InstallKeepsKnowledge(s, t, cand);
  }

  lemma InstallKeepsChain(s: State, t: nat, cand: MetaId)
    requires Contiguous(s) && Chained(s) && cand in s.metas
    requires s.metas[cand].version == |s.versions| + 1
    requires s.metas[cand].lastVersion == |s.versions| ||
      (|s.versions| > 0 && s.metas[cand].lastVersion == s.metas[s.versions[|s.versions|]].lastVersion)
    ensures Contiguous(Install(s, t, cand)) && Chained(Install(s, t, cand))
  {
    var s', n := Install(s, t, cand), |s.versions|;
    assert n + 1 !in s.versions && (n > 0 ==> n in s.versions && s.versions[n] in s.metas);
    assert Contiguous(s');
    assert forall m: nat :: m in s.versions ==> m <= n && s'.versions[m] == s.versions[m] && s.versions[m] in s.metas;
    hide Contiguous;
    forall m: nat | m in s'.versions && s'.versions[m] in s'.metas
      ensures LinkFits(s', m)
    {
      if m <= n {
        assert LinkFits(s, m);
      }
    }
  }

  lemma InstallKeepsKnowledge(s: State, t: nat, cand: MetaId)
    requires Loose(s) && t in s.inserters && Active(s.inserters[t]) && s.inserters[t].cand == cand
    requires s.metas[cand].version == |s.versions| + 1
    ensures Unseen(Install(s, t, cand)) && AllKnow(Install(s, t, cand))
  {
    var s' := Install(s, t, cand);
    assert |s.versions| + 1 !in s.versions;
    assert forall id :: Listed(s', id) ==> Listed(s, id) || id == cand;
    forall u | u in s'.inserters
      ensures Knows(s', s'.inserters[u])
    {
      if u != t {
        assert Knows(s, s.inserters[u]);
      }
    }
    hide Knows, Chained, Contiguous;
  }

  lemma LoadOrStoreKeepsLoose(s: State, t: nat)
    requires Loose(s) && Enabled(s, LoadOrStore(t), false)
    ensures Loose(Act(s, LoadOrStore(t)))
  {
    assert Knows(s, s.inserters[t]);
    if s.latest.None? {
      assert |s.versions| == 0;
      hide Loose, Contiguous;
      InstallKeepsLoose(s, t, s.inserters[t].cand);
    } else {
      LatestInstalled(s);
      hide Loose, Contiguous;
      MoveKeepsLoose(s, t, Testing(s.inserters[t].cand, s.latest.value, CheckCreated));
    }
  }

  lemma SwapKeepsLoose(s: State, t: nat)
    requires Loose(s) && Enabled(s, Swap(t), false)
    ensures Loose(Act(s, Swap(t)))
  {
    assert Knows(s, s.inserters[t]);
    LatestInstalled(s);
    hide Loose, Contiguous;
    if s.latest == Some(s.inserters[t].seen) {
      InstallKeepsLoose(s, t, s.inserters[t].cand);
    } else {
      MoveKeepsLoose(s, t, Testing(s.inserters[t].cand, s.latest.value, CheckCreated));
    }
  }

  lemma ReviseKeepsLoose(s: State, t: nat)
    requires Loose(s) && Enabled(s, Revise(t), false)
    ensures Loose(Act(s, Revise(t)))
  {
    var s', i := Act(s, Revise(t)), s.inserters[t];
    assert Knows(s, i) && !Listed(s, i.cand);
    UnlistedKeepsChain(s, s');
    ReviseKeepsKnowledge(s, t);
    hide Chained, Contiguous, AllKnow, Knows;
    assert forall id :: Listed(s', id) <==> Listed(s, id);
  }

  lemma ReviseKeepsKnowledge(s: State, t: nat)
    requires Unseen(s) && AllKnow(s) && Enabled(s, Revise(t), false)
    ensures AllKnow(Act(s, Revise(t)))
  {
    var s', i := Act(s, Revise(t)), s.inserters[t];
    assert Knows(s, i) && !Listed(s, i.cand);
    forall u | u in s'.inserters
      ensures Knows(s', s'.inserters[u])
    {
      assert Knows(s, s.inserters[u]);
    }
  }

  lemma TestKeepsLoose(s: State, t: nat, expired: bool)
    requires Loose(s) && Enabled(s, TestStep(t, expired), false)
    ensures Loose(Act(s, TestStep(t, expired)))
  {
    var i, s' := s.inserters[t], Act(s, TestStep(t, expired));
    assert Knows(s, i);
    hide Loose;
    var s1 := s.(inserters := s'.inserters);
    assert s1.inserters == s.inserters[t := s'.inserters[t]];
    MoveKeepsLoose(s, t, s'.inserters[t]);
    ShapeKeeps(s1, s');
  }

  lemma StepKeepsLoose(s: State, a: Action)
    requires Loose(s) && Enabled(s, a, false)
    ensures Loose(Apply(s, a))
  {
    hide Loose;
    match a {
      case Call(_, _, _, _) => CallKeepsLoose(s, a);
      case LoadOrStore(t) => LoadOrStoreKeepsLoose(s, t);
      case TestStep(t, expired) => TestKeepsLoose(s, t, expired);
      case Revise(t) => ReviseKeepsLoose(s, t);
      case Swap(t) => SwapKeepsLoose(s, t);
      case _ => ShapeKeeps(s, Act(s, a));
    }
    hide Act, Enabled;
    ShapeKeeps(Act(s, a), Apply(s, a));
  }

  lemma {:induction false} RunKeepsLoose(s: State, actions: seq<Action>, e: State)
    requires Loose(s) && Runs(s, actions, e, false)
    ensures Loose(e)
    decreases |actions|
  {
    if |actions| > 0 {
      hide Loose, Enabled, Apply;
      StepKeepsLoose(s, actions[0]);
      RunKeepsLoose(Apply(s, actions[0]), actions[1..], e);
    }
  }

  // ----- what a reader finds -----

  lemma {:induction false} LinksFall(s: State, n: nat)
    requires Contiguous(s) && Chained(s) && n in s.versions
    ensures s.metas[s.versions[n]].lastVersion < n
    decreases n
  {
    assert LinkFits(s, n);
    if n > 1 {
      LinksFall(s, n - 1);
    }
  }

  lemma LinkAt(s: State, n: nat)
    requires Contiguous(s) && Chained(s) && 0 < n <= |s.versions|
    ensures n in s.versions && s.versions[n] in s.metas && s.metas[s.versions[n]].lastVersion < n && LinkFits(s, n)
  {
    LinksFall(s, n);
    assert LinkFits(s, n);
  }

  /** Above an uncreated version a reader ends where it ends from that version. */
  lemma FollowFromAbove(s: State, m: nat)
    requires Contiguous(s) && Chained(s) && 0 < m < |s.versions|
    requires !CreatedAt(s, m) && !CreatedAt(s, m + 1)
    ensures Follow(s, m + 1) == Follow(s, m)
  {
    hide Contiguous, Chained;
    LinkAt(s, m);
    LinkAt(s, m + 1);
  }

  lemma {:induction false} FollowDown(s: State, g: nat, n: nat)
    requires Contiguous(s) && Chained(s) && g < n <= |s.versions| && forall m: nat :: g < m <= n ==> !CreatedAt(s, m)
    ensures Follow(s, n) == Follow(s, g + 1)
    decreases n
  {
    hide Contiguous, Chained, Follow, CreatedAt;
    if n > g + 1 {
      FollowDown(s, g, n - 1);
      FollowFromAbove(s, n - 1);
    }
  }

  predicate CreatedAt(s: State, n: nat) {
    n in s.versions && s.versions[n] in s.metas && s.metas[s.versions[n]].flags.created
  }

  lemma {:induction false} FollowBound(s: State, n: nat)
    ensures Follow(s, n) <= n
    ensures Follow(s, n) > 0 ==> CreatedAt(s, Follow(s, n))
    decreases n
  {
    if n in s.versions && s.versions[n] in s.metas && s.metas[s.versions[n]].lastVersion < n {
      FollowBound(s, s.metas[s.versions[n]].lastVersion);
    }
  }

  /** The exact law, in every interleaving and for candidates with any flags: an undisturbed Get finds the greatest
      created version if and only if there is none, it is the newest, or the version right above it links to it;
      LinksIffValidWhenRevised says when it does. */
  lemma GetFindsGreatestIff(s: State)
    requires Reachable(s, false)
    ensures var g, n := Greatest(s), |s.versions|;
      Follow(s, n) == g <==>
        || g == 0 || g == n
        || (g + 1 in s.versions && s.versions[g + 1] in s.metas && s.metas[s.versions[g + 1]].lastVersion == g)
  {
    var actions :| Runs(Init(), actions, s, false);
    assert Loose(Init());
    RunKeepsLoose(Init(), actions, s);
    FindsGreatestIff(s);
  }

  lemma FindsGreatestIff(s: State)
    requires Loose(s)
    ensures var g, n := Greatest(s), |s.versions|;
      Follow(s, n) == g <==>
        || g == 0 || g == n
        || (g + 1 in s.versions && s.versions[g + 1] in s.metas && s.metas[s.versions[g + 1]].lastVersion == g)
  {
    var g, n := Greatest(s), |s.versions|;
    GreatestIsGreatest(s, n);
    assert forall m: nat :: g < m <= n ==> !CreatedAt(s, m);
    hide Unseen, AllKnow, Contiguous, Chained, GreatestFrom;
    FollowBound(s, n);
    if g == n {
      if n > 0 {
        LinkAt(s, n);
      }
    } else if g > 0 {
      FollowDown(s, g, n);
      LinkAt(s, g);
      LinkAt(s, g + 1);
      FollowBound(s, s.metas[s.versions[g + 1]].lastVersion);
    }
  }

  // ----- what the links remember -----

  /** Keeps note of whether a candidate is valid when it is revised. */
  function Note(s: State, a: Action, noted: map<MetaId, bool>): map<MetaId, bool>
    requires Enabled(s, a, false)
  {
    if a.Revise? then noted[s.inserters[a.t].cand := s.metas[s.inserters[a.t].cand].flags.valid] else noted
  }

  /** For every candidate revised in the run, whether it was valid at its last revision. */
  ghost function Noted(s: State, actions: seq<Action>, noted: map<MetaId, bool>): map<MetaId, bool>
    decreases |actions|
  {
    if |actions| == 0 || !Enabled(s, actions[0], false) then noted
    else Noted(Apply(s, actions[0]), actions[1..], Note(s, actions[0], noted))
  }

  /** The candidate links to the version it follows if and only if it was noted as valid. */
  ghost predicate Explains(s: State, cand: MetaId, after: nat, noted: map<MetaId, bool>) {
    cand in s.metas && cand in noted && (s.metas[cand].lastVersion == after <==> noted[cand])
  }

  ghost predicate VersionsExplained(s: State, noted: map<MetaId, bool>) {
    forall n: nat :: n in s.versions && n > 1 ==> Explains(s, s.versions[n], n - 1, noted)
  }

  ghost predicate SwapsExplained(s: State, noted: map<MetaId, bool>) {
    forall t :: t in s.inserters && s.inserters[t].Swapping? ==>
      s.inserters[t].seen in s.metas && Explains(s, s.inserters[t].cand, s.metas[s.inserters[t].seen].version, noted)
  }

  ghost predicate Explained(s: State, noted: map<MetaId, bool>) {
    VersionsExplained(s, noted) && SwapsExplained(s, noted)
  }

  /** No meta is revised and none installed. */
  ghost predicate SameLinks(s: State, s': State) {
    && s'.versions == s.versions
    && (forall id :: id in s.metas ==>
          && id in s'.metas && s'.metas[id].version == s.metas[id].version
          && s'.metas[id].lastVersion == s.metas[id].lastVersion)
    && (forall t :: t in s'.inserters && s'.inserters[t].Swapping? ==>
          t in s.inserters && s'.inserters[t] == s.inserters[t])
  }

  lemma LinksStayExplained(s: State, s': State, noted: map<MetaId, bool>)
    requires Explained(s, noted) && SameLinks(s, s')
    ensures Explained(s', noted)
  {
    forall n: nat | n in s'.versions && n > 1
      ensures Explains(s', s'.versions[n], n - 1, noted)
    {
      assert Explains(s, s.versions[n], n - 1, noted);
    }
    forall t | t in s'.inserters && s'.inserters[t].Swapping?
      ensures s'.inserters[t].seen in s'.metas
      ensures Explains(s', s'.inserters[t].cand, s'.metas[s'.inserters[t].seen].version, noted)
    {
      assert s.inserters[t].Swapping?;
    }
  }

  lemma InstallStaysExplained(s: State, t: nat, cand: MetaId, noted: map<MetaId, bool>)
    requires Contiguous(s) && Explained(s, noted) && cand in s.metas && s.metas[cand].version == |s.versions| + 1
    requires |s.versions| > 0 ==> Explains(s, cand, |s.versions|, noted)
    ensures Explained(Install(s, t, cand), noted)
  {
    var s' := Install(s, t, cand);
    forall n: nat | n in s'.versions && n > 1
      ensures Explains(s', s'.versions[n], n - 1, noted)
    {
      if n != |s.versions| + 1 {
        assert Explains(s, s.versions[n], n - 1, noted);
      }
    }
    hide Contiguous, VersionsExplained;
    assert forall u :: u in s'.inserters && s'.inserters[u].Swapping? ==> s'.inserters[u] == s.inserters[u];
  }

  lemma LoadOrStoreStaysExplained(s: State, t: nat, noted: map<MetaId, bool>)
    requires Loose(s) && Explained(s, noted) && Enabled(s, LoadOrStore(t), false)
    ensures Explained(Act(s, LoadOrStore(t)), noted)
  {
    assert Knows(s, s.inserters[t]);
    hide Chained, Unseen, AllKnow, Explained;
    if s.latest.None? {
      InstallStaysExplained(s, t, s.inserters[t].cand, noted);
    } else {
      LinksStayExplained(s, Act(s, LoadOrStore(t)), noted);
    }
  }

  lemma SwapStaysExplained(s: State, t: nat, noted: map<MetaId, bool>)
    requires Loose(s) && Explained(s, noted) && Enabled(s, Swap(t), false)
    ensures Explained(Act(s, Swap(t)), noted)
  {
    assert Knows(s, s.inserters[t]);
    LatestInstalled(s);
    hide Chained, Unseen, AllKnow, Contiguous, VersionsExplained;
    if s.latest == Some(s.inserters[t].seen) {
      InstallStaysExplained(s, t, s.inserters[t].cand, noted);
    } else {
      LinksStayExplained(s, Act(s, Swap(t)), noted);
    }
  }

  /** The revision links an invalid candidate below the version it follows. */
  lemma RevisionExplains(s: State, t: nat, noted: map<MetaId, bool>)
    requires Loose(s) && Enabled(s, Revise(t), false)
    ensures var s', i := Act(s, Revise(t)), s.inserters[t];
      && i.seen != i.cand && s'.metas[i.seen] == s.metas[i.seen]
      && Explains(s', i.cand, s.metas[i.seen].version, Note(s, Revise(t), noted))
  {
    var i := s.inserters[t];
    assert Knows(s, i) && !Listed(s, i.cand);
    assert i.seen != i.cand;
    hide AllKnow, Unseen, Listed, Knows;
    LinksFall(s, s.metas[i.seen].version);
  }

  lemma ReviseStaysExplained(s: State, t: nat, noted: map<MetaId, bool>)
    requires Loose(s) && Explained(s, noted) && Enabled(s, Revise(t), false)
    ensures Explained(Act(s, Revise(t)), Note(s, Revise(t), noted))
  {
    var s', now, cand := Act(s, Revise(t)), Note(s, Revise(t), noted), s.inserters[t].cand;
    RevisionExplains(s, t, noted);
    assert !Listed(s, cand);
    assert forall u :: u in s.inserters && u != t && s.inserters[u].Swapping? ==>
      s.inserters[u].cand != cand && Knows(s, s.inserters[u]) && s.inserters[u].seen != cand;
    hide Contiguous, Chained, AllKnow, Unseen, Knows;
    assert forall id :: id in s.metas && id != cand ==> id in s'.metas && s'.metas[id] == s.metas[id];
    forall n: nat | n in s'.versions && n > 1
      ensures Explains(s', s'.versions[n], n - 1, now)
    {
      assert Explains(s, s.versions[n], n - 1, noted);
    }
    hide VersionsExplained;
    forall u | u in s'.inserters && s'.inserters[u].Swapping?
      ensures s'.inserters[u].seen in s'.metas
      ensures Explains(s', s'.inserters[u].cand, s'.metas[s'.inserters[u].seen].version, now)
    {
      if u != t {
        assert s.inserters[u].Swapping?;
      }
    }
  }

  lemma TestStepKeepsLinks(s: State, t: nat, expired: bool)
    requires Enabled(s, TestStep(t, expired), false)
    ensures SameLinks(s, Act(s, TestStep(t, expired)))
  {
  }

  lemma StepStaysExplained(s: State, a: Action, noted: map<MetaId, bool>)
    requires Loose(s) && Explained(s, noted) && Enabled(s, a, false)
    ensures Explained(Apply(s, a), Note(s, a, noted))
  {
    hide Loose, Explained;
    match a {
      case LoadOrStore(t) => LoadOrStoreStaysExplained(s, t, noted);
      case Revise(t) => ReviseStaysExplained(s, t, noted);
      case Swap(t) => SwapStaysExplained(s, t, noted);
      case TestStep(t, expired) =>
        TestStepKeepsLinks(s, t, expired);
        hide SameLinks;
        LinksStayExplained(s, Act(s, a), noted);
      case _ => LinksStayExplained(s, Act(s, a), noted);
    }
    hide Act, Enabled;
    LinksStayExplained(Act(s, a), Apply(s, a), Note(s, a, noted));
  }

  lemma {:induction false} RunStaysExplained(s: State, actions: seq<Action>, e: State, noted: map<MetaId, bool>)
    requires Loose(s) && Explained(s, noted) && Runs(s, actions, e, false)
    ensures Explained(e, Noted(s, actions, noted))
    decreases |actions|
  {
    if |actions| > 0 {
      hide Loose, Explained, Enabled, Apply, Note;
      StepKeepsLoose(s, actions[0]);
      StepStaysExplained(s, actions[0], noted);
      RunStaysExplained(Apply(s, actions[0]), actions[1..], e, Note(s, actions[0], noted));
    }
  }

  /** In every run a version links to the one right before it if and only if it was valid when it was revised. */
  lemma LinksIffValidWhenRevised(actions: seq<Action>, s: State, n: nat)
    requires Runs(Init(), actions, s, false) && 0 < n < |s.versions|
    ensures n + 1 in s.versions && s.versions[n + 1] in s.metas
    ensures s.versions[n + 1] in Noted(Init(), actions, map[])
    ensures s.metas[s.versions[n + 1]].lastVersion == n <==> Noted(Init(), actions, map[])[s.versions[n + 1]]
  {
    assert Loose(Init()) && Explained(Init(), map[]);
    RunKeepsLoose(Init(), actions, s);
    RunStaysExplained(Init(), actions, s, map[]);
    assert n + 1 in s.versions;
    assert Explains(s, s.versions[n + 1], n, Noted(Init(), actions, map[]));
  }

  /** So Get finds the greatest created version if and only if there is none, it is the newest, or the version right
      above it was valid when it was revised. */
  lemma GetFindsGreatestIffRevisedValid(actions: seq<Action>, s: State)
    requires Runs(Init(), actions, s, false)
    ensures var g, n, noted := Greatest(s), |s.versions|, Noted(Init(), actions, map[]);
      Follow(s, n) == g <==>
        g == 0 || g == n || (g + 1 in s.versions && s.versions[g + 1] in noted && noted[s.versions[g + 1]])
  {
    GetFindsGreatestIff(s);
    GreatestIsGreatest(s, |s.versions|);
    var g := Greatest(s);
    hide Runs, Noted, Follow, GreatestFrom;
    if 0 < g < |s.versions| {
      LinksIffValidWhenRevised(actions, s, g);
    }
  }

  lemma {:induction false} RunsJoined(s: State, first: seq<Action>, m: State, second: seq<Action>, e: State)
    requires Runs(s, first, m, false) && Runs(m, second, e, false)
    ensures Runs(s, first + second, e, false)
    decreases |first|
  {
    hide Enabled, Apply;
    if |first| == 0 {
      assert first + second == second;
    } else {
      assert (first + second)[1..] == first[1..] + second;
      RunsJoined(Apply(s, first[0]), first[1..], m, second, e);
    }
  }

  /** One version, inserted by call 0. */
  ghost predicate OnlyVersion(s: State, flags: Flags) {
    && s.versions == map[1 := 0] && s.metas == map[0 := Meta(1, 0, 0, flags)] && s.latest == Some(0)
    && s.inserters == map[0 := Inserted(0)]
  }

  lemma OnlyVersionSound(s: State)
    requires OnlyVersion(s, Flags(true, true, false))
    ensures StoreInv(s)
  {
    assert |s.versions| == 1;
    assert Private(s) && Informed(s);
  }

  lemma FirstVersionInserted() returns (actions: seq<Action>, s: State)
    ensures Runs(Init(), actions, s, false) && OnlyVersion(s, CREATING)
  {
    hide GreatestFrom, Observe;
    var call := Call(0, 0, 0, CREATING);
    assert Runs(Init(), [], Init(), false);
    hide Runs;
    RunSnoc(Init(), [], Init(), call);
    var s1 := Apply(Init(), call);
    assert s1.inserters == map[0 := Fresh(0)] && s1.metas == map[0 := Meta(1, 0, 0, CREATING)];
    RunSnoc(Init(), [] + [call], s1, LoadOrStore(0));
    actions, s := [] + [call] + [LoadOrStore(0)], Apply(s1, LoadOrStore(0));
  }

  lemma FirstVersionCreated() returns (actions: seq<Action>, s: State)
    ensures Runs(Init(), actions, s, false) && OnlyVersion(s, Flags(true, true, false))
  {
    hide GreatestFrom, Observe, Runs;
    actions, s := FirstVersionInserted();
    assert s.versions[1] == 0;
    RunSnoc(Init(), actions, s, Confirm(0));
    actions, s := actions + [Confirm(0)], Apply(s, Confirm(0));
  }

  /** It does fail: a store with one created version and an invalidated candidate inserted behind it. */
  lemma GreatestMissed() returns (actions: seq<Action>, s: State)
    ensures Runs(Init(), actions, s, false) && Reachable(s, false)
    ensures Greatest(s) == 1 && Follow(s, |s.versions|) != Greatest(s)
  {
    var first, m := FirstVersionCreated();
    OnlyVersionSound(m);
    assert m.versions[1] == 0 && |m.versions| == 1;
    hide StoreInv, Runs, Follow;
    var second;
    second, s := CreatedVersionStaysReadableIff(m, 1, 1, 1, Flags(false, false, false));
    RunsJoined(Init(), first, m, second, s);
    actions := first + second;
  }
}
