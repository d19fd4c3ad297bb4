/** The versioned metadata store of the proxy, proxy/server/metastore/metastore.go and meta.go, for one object key:
    the map entry of the key itself and the entries of its versions. Concurrent GetOrInsert and Get calls,
    confirmations and invalidations are atomic steps; installing a meta and registering it under its version key is
    one step. */
module MetaStore {
  import opened Common

  type MetaId = nat   // a *Meta

  datatype Flags = Flags(valid: bool, created: bool, deleted: bool)

  const CREATING := Flags(true, false, false)

  datatype Meta = Meta(version: nat, lastVersion: nat, initiator: nat, flags: Flags)

  /** The status of a version is decided once its creation was confirmed or given up. */
  predicate Concluded(m: Meta) {
    m.flags != CREATING
  }

  /** The new meta becomes the successor of m. The source tests the flag of the new meta itself before it shortcuts
      the link to an older version. */
  function ReviseBy(m: Meta, newMeta: Meta): Meta {
    newMeta.(version := m.version + 1, lastVersion := if newMeta.flags.valid then m.version else m.lastVersion)
  }

  // ----- state -----

  /** Progress of a test of a meta by Validate and IsCreated, which read the flags several times. */
  datatype Test = CheckCreated | CheckValid | Expire | CheckAgain | CheckLast

  /** Place of a GetOrInsert call: what it brings, what it looks at, and how it ended. */
  datatype Inserter =
    | Fresh(cand: MetaId)
    | Testing(cand: MetaId, seen: MetaId, test: Test)
    | Revising(cand: MetaId, seen: MetaId)
    | Swapping(cand: MetaId, seen: MetaId)
    | Inserted(cand: MetaId)
    | Refused(cand: MetaId, seen: MetaId)

  /** window: every value the greatest created version has had since the call loaded the key. */
  datatype Getter =
    | Reading(at: MetaId, test: Test, window: set<nat>)
    | Returned(version: nat, window: set<nat>)

  datatype State = State(
    metas: map<MetaId, Meta>,
    latest: Option<MetaId>,          // entry of the key
    versions: map<nat, MetaId>,      // entries of the versioned keys
    inserters: map<nat, Inserter>,
    getters: map<nat, Getter>)

  datatype Action =
    | Call(t: nat, cand: MetaId, initiator: nat, flags: Flags)
    | LoadOrStore(t: nat)
    | TestStep(t: nat, expired: bool)
    | Revise(t: nat)
    | Swap(t: nat)
    | CallGet(t: nat)
    | GetStep(t: nat, expired: bool)
    | Confirm(id: MetaId)
    | Invalidate(id: MetaId)
    | Delete(id: MetaId)

  function Init(): State {
    State(map[], None, map[], map[], map[])
  }

  predicate Installed(s: State, id: MetaId) {
    id in s.metas && s.metas[id].version in s.versions && s.versions[s.metas[id].version] == id
  }

  /** Version of the newest created entry at or below n, zero if there is none. */
  function GreatestFrom(s: State, n: nat): nat {
    if n == 0 then 0
    else if n in s.versions && s.versions[n] in s.metas && s.metas[s.versions[n]].flags.created then n
    else GreatestFrom(s, n - 1)
  }

  function Greatest(s: State): nat {
    GreatestFrom(s, |s.versions|)
  }

  /** CAS on the flags of a meta that is still being created. */
  function Conclude(s: State, id: MetaId, flags: Flags): State
    requires id in s.metas
  {
    if s.metas[id].flags == CREATING then s.(metas := s.metas[id := s.metas[id].(flags := flags)]) else s
  }

  /** Outcome of one read of the flags: the test goes on, or it is over and says whether the meta counts as valid and
      not created. */
  datatype Progress = Next(test: Test) | Done(creating: bool)

  function Read(f: Flags, test: Test, expired: bool): Progress {
    match test
    case CheckCreated => if f.created then Done(false) else Next(CheckValid)
    case CheckValid => if f.valid && expired then Next(Expire) else Next(CheckAgain)
    case Expire => Done(false)
    case CheckAgain => if f.valid then Next(CheckLast) else Done(false)
    case CheckLast => Done(!f.created)
  }

  predicate Enabled(s: State, a: Action, clean: bool) {
    match a
    case Call(t, cand, _, flags) =>
      t !in s.inserters && cand !in s.metas && (clean ==> flags == CREATING)
    case LoadOrStore(t) => t in s.inserters && s.inserters[t].Fresh? && s.inserters[t].cand in s.metas
    case TestStep(t, _) =>
      && t in s.inserters && s.inserters[t].Testing?
      && s.inserters[t].seen in s.metas && s.inserters[t].cand in s.metas
    case Revise(t) =>
      && t in s.inserters && s.inserters[t].Revising?
      && s.inserters[t].seen in s.metas && s.inserters[t].cand in s.metas
    case Swap(t) => t in s.inserters && s.inserters[t].Swapping? && s.inserters[t].cand in s.metas && s.latest.Some?
    case CallGet(t) => t !in s.getters
    case GetStep(t, _) =>
      && t in s.getters && s.getters[t].Reading? && s.getters[t].at in s.metas
      && (s.metas[s.getters[t].at].lastVersion > 0 ==> s.metas[s.getters[t].at].lastVersion in s.versions)
    case Confirm(id) => Installed(s, id)
    case Invalidate(id) => Installed(s, id)
    case Delete(id) => Installed(s, id) && s.metas[id].flags.created
  }

  function Install(s: State, t: nat, cand: MetaId): State
    requires cand in s.metas
  {
    s.(latest := Some(cand), versions := s.versions[s.metas[cand].version := cand],
       inserters := s.inserters[t := Inserted(cand)])
  }

  function StepTest(s: State, t: nat, expired: bool): State
    requires Enabled(s, TestStep(t, expired), false)
  {
    var i := s.inserters[t];
    if s.metas[i.seen].initiator == s.metas[i.cand].initiator && i.test == CheckCreated
    then s.(inserters := s.inserters[t := Refused(i.cand, i.seen)])   // the same request, its meta is shared
    else
      var next := match Read(s.metas[i.seen].flags, i.test, expired)
                  case Next(test) => i.(test := test)
                  case Done(creating) => if creating then Refused(i.cand, i.seen) else Revising(i.cand, i.seen);
      var s' := if i.test == Expire then Conclude(s, i.seen, Flags(false, false, false)) else s;
      s'.(inserters := s.inserters[t := next])
  }

  /** Get returns the meta if it tests as created, else it goes on to the previous version. */
  function StepGet(s: State, t: nat, expired: bool): State
    requires Enabled(s, GetStep(t, expired), false)
  {
    var g := s.getters[t];
    var m := s.metas[g.at];
    var back := if m.lastVersion > 0 then Reading(s.versions[m.lastVersion], CheckCreated, g.window)
                else Returned(0, g.window);
    var next := match Read(m.flags, g.test, expired)
                case Next(test) => g.(test := test)
                case Done(_) =>
                  if g.test != Expire && m.flags.created then Returned(m.version, g.window) else back;
    var s' := if g.test == Expire then Conclude(s, g.at, Flags(false, false, false)) else s;
    s'.(getters := s.getters[t := next])
  }

  /** The step itself, before the bookkeeping of the readers' windows. */
  function Act(s: State, a: Action): State
    requires Enabled(s, a, false)
  {
    match a
    case Call(t, cand, initiator, flags) =>
      s.(metas := s.metas[cand := Meta(1, 0, initiator, flags)], inserters := s.inserters[t := Fresh(cand)])
    case LoadOrStore(t) =>
      var cand := s.inserters[t].cand;
      if s.latest.None? then Install(s, t, cand)
      else s.(inserters := s.inserters[t := Testing(cand, s.latest.value, CheckCreated)])
    case TestStep(t, expired) => StepTest(s, t, expired)
    case Revise(t) =>
      var i := s.inserters[t];
      s.(metas := s.metas[i.cand := ReviseBy(s.metas[i.seen], s.metas[i.cand])],
         inserters := s.inserters[t := Swapping(i.cand, i.seen)])
    case Swap(t) =>
      var i := s.inserters[t];
      if s.latest == Some(i.seen) then Install(s, t, i.cand)
      else s.(inserters := s.inserters[t := Testing(i.cand, s.latest.value, CheckCreated)])
    case CallGet(t) =>
      s.(getters := s.getters[t := if s.latest.Some? then Reading(s.latest.value, CheckCreated, {Greatest(s)})
                                       else Returned(0, {Greatest(s)})])
    case GetStep(t, expired) => StepGet(s, t, expired)
    case Confirm(id) => Conclude(s, id, Flags(true, true, false))
    case Invalidate(id) => Conclude(s, id, Flags(false, false, false))
    case Delete(id) => s.(metas := s.metas[id := s.metas[id].(flags := s.metas[id].flags.(deleted := true))])
  }

  function Observe(g: Getter, greatest: nat): Getter {
    if g.Reading? then Reading(g.at, g.test, g.window + {greatest}) else g
  }

  function Apply(s: State, a: Action): State
    requires Enabled(s, a, false)
  {
    var s' := Act(s, a);
    s'.(getters := map t | t in s'.getters :: Observe(s'.getters[t], Greatest(s')))
  }

  // ----- invariants of runs whose callers pass freshly made metas -----

  /** Versions are 1, 2, 3, ... without gaps; the key's entry is the newest. */
  ghost predicate Contiguous(s: State) {
    && (forall n: nat :: n in s.versions <==> 1 <= n <= |s.versions|)
    && (forall n: nat :: n in s.versions ==> s.versions[n] in s.metas && s.metas[s.versions[n]].version == n)
    && s.latest == if |s.versions| in s.versions then Some(s.versions[|s.versions|]) else None
  }

  ghost predicate Linked(s: State) {
    forall n: nat :: n in s.versions && s.versions[n] in s.metas ==> s.metas[s.versions[n]].lastVersion == n - 1
  }

  /** Only the newest version can still be in creation. */
  ghost predicate OlderConcluded(s: State) {
    forall n: nat :: n in s.versions && s.versions[n] in s.metas && n < |s.versions| ==>
      Concluded(s.metas[s.versions[n]])
  }

  predicate Sane(f: Flags) {
    (f.created ==> f.valid) && (f.deleted ==> f.created)
  }

  ghost predicate FlagsSane(s: State) {
    forall id :: id in s.metas ==> Sane(s.metas[id].flags)
  }

  predicate Active(i: Inserter) {
    i.Fresh? || i.Testing? || i.Revising? || i.Swapping?
  }

  ghost predicate Listed(s: State, id: MetaId) {
    exists n: nat :: n in s.versions && s.versions[n] == id
  }

  /** A candidate on its way in belongs to its own call and is visible to nobody else. */
  ghost predicate Private(s: State) {
    && (forall t :: t in s.inserters && Active(s.inserters[t]) ==>
          && s.inserters[t].cand in s.metas && s.metas[s.inserters[t].cand].flags == CREATING
          && !Listed(s, s.inserters[t].cand))
    && (forall t, u ::
          t in s.inserters && u in s.inserters && t != u && Active(s.inserters[t]) && Active(s.inserters[u]) ==>
            s.inserters[t].cand != s.inserters[u].cand)
  }

  /** What a call knows about the meta it looked at and about its own. */
  ghost predicate InformedCall(s: State, i: Inserter) {
    && (i.Fresh? && i.cand in s.metas ==> s.metas[i.cand].version == 1 && s.metas[i.cand].lastVersion == 0)
    && (i.Testing? || i.Revising? || i.Swapping? ==> Installed(s, i.seen))
    && (i.Revising? || i.Swapping? ==> i.seen in s.metas && Concluded(s.metas[i.seen]))
    && (i.Swapping? && i.cand in s.metas && i.seen in s.metas ==>
          && s.metas[i.cand].version == s.metas[i.seen].version + 1
          && s.metas[i.cand].lastVersion == s.metas[i.seen].version)
  }

  ghost predicate Informed(s: State) {
    forall t :: t in s.inserters ==> InformedCall(s, s.inserters[t])
  }

  ghost predicate StoreInv(s: State) {
    Contiguous(s) && Linked(s) && OlderConcluded(s) && FlagsSane(s) && Private(s) && Informed(s)
  }

  /** Whatever a reader may still answer was the greatest created version at some point of its call. */
  ghost predicate ReaderOk(s: State, g: Getter) {
    if g.Returned? then g.version in g.window
    else
      && Installed(s, g.at)
      && var v := s.metas[g.at].version;
         && GreatestFrom(s, v) in g.window
         && (s.metas[g.at].flags.created && g.test != CheckCreated && v > 0 ==> GreatestFrom(s, v - 1) in g.window)
  }

  ghost predicate ReadersOk(s: State) {
    forall t :: t in s.getters ==> ReaderOk(s, s.getters[t])
  }

  ghost predicate Inv(s: State) {
    StoreInv(s) && ReadersOk(s)
  }

  lemma InstallKeepsVersions(s: State, t: nat, cand: MetaId)
    requires StoreInv(s) && cand in s.metas
    requires s.metas[cand].version == |s.versions| + 1 && s.metas[cand].lastVersion == |s.versions|
    requires |s.versions| > 0 ==> Concluded(s.metas[s.versions[|s.versions|]])
    ensures Contiguous(Install(s, t, cand)) && Linked(Install(s, t, cand)) && OlderConcluded(Install(s, t, cand))
    ensures FlagsSane(Install(s, t, cand))
  {
    hide Private, Informed;
    assert |s.versions| + 1 !in s.versions;
  }

  lemma InstallKeepsCalls(s: State, t: nat, cand: MetaId)
    requires StoreInv(s) && t in s.inserters && Active(s.inserters[t]) && s.inserters[t].cand == cand
    requires s.metas[cand].version == |s.versions| + 1
    ensures Private(Install(s, t, cand)) && Informed(Install(s, t, cand))
  {
    hide Linked, OlderConcluded, FlagsSane;
  }

  lemma ConcludeKeeps(s: State, id: MetaId, flags: Flags)
    requires StoreInv(s) && Installed(s, id) && flags != CREATING && Sane(flags)
    ensures StoreInv(Conclude(s, id, flags))
  {
    var s' := Conclude(s, id, flags);
    assert Private(s') by {
      hide Linked, OlderConcluded, FlagsSane, Informed;
      assert forall c :: Listed(s', c) <==> Listed(s, c);
    }
    hide Private;
    assert Informed(s') by {
      hide Linked, OlderConcluded, FlagsSane;
      forall t | t in s'.inserters
        ensures InformedCall(s', s'.inserters[t])
      {
        assert InformedCall(s, s.inserters[t]);
      }
    }
    hide Informed;
  }

  /** A call moves on without touching the store. */
  lemma MoveKeeps(s: State, t: nat, next: Inserter)
    requires StoreInv(s) && t in s.inserters && Active(s.inserters[t])
    requires !next.Fresh? && !next.Swapping? && next.cand == s.inserters[t].cand
    requires next.Testing? || next.Revising? ==> Installed(s, next.seen)
    requires next.Revising? ==> Concluded(s.metas[next.seen])
    ensures StoreInv(s.(inserters := s.inserters[t := next]))
  {
  }

  lemma LoadOrStoreKeeps(s: State, t: nat)
    requires StoreInv(s) && Enabled(s, LoadOrStore(t), false)
    ensures StoreInv(Act(s, LoadOrStore(t)))
  {
    var cand := s.inserters[t].cand;
    if s.latest.None? {
      InstallKeepsVersions(s, t, cand);
      InstallKeepsCalls(s, t, cand);
    } else {
      hide Linked, OlderConcluded, FlagsSane, Private, Informed;
      MoveKeeps(s, t, Testing(cand, s.latest.value, CheckCreated));
    }
  }

  lemma SwapKeeps(s: State, t: nat)
    requires StoreInv(s) && Enabled(s, Swap(t), false)
    ensures StoreInv(Act(s, Swap(t)))
  {
    var i := s.inserters[t];
    if s.latest == Some(i.seen) {
      InstallKeepsVersions(s, t, i.cand);
      InstallKeepsCalls(s, t, i.cand);
    } else {
      hide Linked, OlderConcluded, FlagsSane, Private, Informed;
      MoveKeeps(s, t, Testing(i.cand, s.latest.value, CheckCreated));
    }
  }

  lemma ExpireKeeps(s: State, t: nat, expired: bool)
    requires StoreInv(s) && Enabled(s, TestStep(t, expired), false) && s.inserters[t].test == Expire
    ensures StoreInv(StepTest(s, t, expired))
  {
    var i := s.inserters[t];
    var s' := Conclude(s, i.seen, Flags(false, false, false));
    ConcludeKeeps(s, i.seen, Flags(false, false, false));
    assert Installed(s', i.seen) && Concluded(s'.metas[i.seen]);
    hide Contiguous, Linked, OlderConcluded, FlagsSane, Private, Informed;
    MoveKeeps(s', t, Revising(i.cand, i.seen));
  }

  lemma TestKeeps(s: State, t: nat, expired: bool)
    requires StoreInv(s) && Enabled(s, TestStep(t, expired), false)
    ensures StoreInv(StepTest(s, t, expired))
  {
    var i := s.inserters[t];
    if i.test == Expire {
      ExpireKeeps(s, t, expired);
    } else {
      var next := StepTest(s, t, expired).inserters[t];
      assert Installed(s, i.seen);
      hide Contiguous, Linked, OlderConcluded, FlagsSane, Private, Informed;
      MoveKeeps(s, t, next);
    }
  }

  /** Writing a meta that no version lists changes no version. */
  lemma UnlistedKeepsVersions(s: State, id: MetaId, m: Meta, inserters: map<nat, Inserter>)
    requires Contiguous(s) && Linked(s) && OlderConcluded(s) && FlagsSane(s) && !Listed(s, id)
    requires Sane(m.flags)
    ensures var s' := s.(metas := s.metas[id := m], inserters := inserters);
      Contiguous(s') && Linked(s') && OlderConcluded(s') && FlagsSane(s')
  {
  }

  lemma ReviseKeeps(s: State, t: nat)
    requires StoreInv(s) && Enabled(s, Revise(t), false)
    ensures StoreInv(Act(s, Revise(t)))
  {
    var s' := Act(s, Revise(t));
    UnlistedKeepsVersions(s, s.inserters[t].cand, s'.metas[s.inserters[t].cand], s'.inserters);
    hide Linked, OlderConcluded, FlagsSane;
    assert forall id :: Installed(s, id) ==> Installed(s', id);
  }

  lemma NewCandidateIsPrivate(s: State, t: nat, cand: MetaId, m: Meta)
    requires Contiguous(s) && Private(s) && t !in s.inserters && cand !in s.metas && m.flags == CREATING
    ensures Private(s.(metas := s.metas[cand := m], inserters := s.inserters[t := Fresh(cand)]))
  {
    assert !Listed(s, cand);
  }

  lemma NewCandidateKeepsInformed(s: State, t: nat, cand: MetaId, m: Meta)
    requires Contiguous(s) && Private(s) && Informed(s) && t !in s.inserters && cand !in s.metas
    requires m.version == 1 && m.lastVersion == 0
    ensures Informed(s.(metas := s.metas[cand := m], inserters := s.inserters[t := Fresh(cand)]))
  {
    var s' := s.(metas := s.metas[cand := m], inserters := s.inserters[t := Fresh(cand)]);
    forall u | u in s'.inserters
      ensures InformedCall(s', s'.inserters[u])
    {
      if u != t {
        assert InformedCall(s, s.inserters[u]);
      }
    }
  }

  lemma CallKeeps(s: State, a: Action)
    requires StoreInv(s) && a.Call? && Enabled(s, a, true)
    ensures StoreInv(Act(s, a))
  {
    var m := Meta(1, 0, a.initiator, a.flags);
    UnlistedKeepsVersions(s, a.cand, m, s.inserters[a.t := Fresh(a.cand)]);
    NewCandidateIsPrivate(s, a.t, a.cand, m);
    NewCandidateKeepsInformed(s, a.t, a.cand, m);
    hide Contiguous, Linked, OlderConcluded, FlagsSane, Private, Informed;
  }

  lemma DeleteKeeps(s: State, id: MetaId)
    requires StoreInv(s) && Enabled(s, Delete(id), false)
    ensures StoreInv(Act(s, Delete(id)))
  {
    var s' := Act(s, Delete(id));
    assert Private(s') by {
      hide Linked, OlderConcluded, FlagsSane, Informed;
      assert forall c :: Listed(s', c) <==> Listed(s, c);
    }
    hide Private;
    assert Informed(s') by {
      hide Linked, OlderConcluded, FlagsSane;
      forall t | t in s'.inserters
        ensures InformedCall(s', s'.inserters[t])
      {
        assert InformedCall(s, s.inserters[t]);
      }
    }
    hide Informed;
  }

  lemma ReadersDontMatter(s: State, getters: map<nat, Getter>)
    requires StoreInv(s)
    ensures StoreInv(s.(getters := getters))
  {
  }

  lemma StoreStep(s: State, a: Action)
    requires Inv(s) && Enabled(s, a, true)
    ensures Enabled(s, a, false) && StoreInv(Act(s, a))
  {
    match a {
      case Call(_, _, _, _) => CallKeeps(s, a);
      case LoadOrStore(t) => LoadOrStoreKeeps(s, t);
      case TestStep(t, expired) => TestKeeps(s, t, expired);
      case Revise(t) => ReviseKeeps(s, t);
      case Swap(t) => SwapKeeps(s, t);
      case CallGet(t) => ReadersDontMatter(s, Act(s, a).getters);
      case GetStep(t, expired) =>
        assert ReaderOk(s, s.getters[t]);
        GetStepKeepsStore(s, t, expired);
      case Confirm(id) => ConcludeKeeps(s, id, Flags(true, true, false));
      case Invalidate(id) => ConcludeKeeps(s, id, Flags(false, false, false));
      case Delete(id) => DeleteKeeps(s, id);
    }
  }

  lemma GetStepKeepsStore(s: State, t: nat, expired: bool)
    requires StoreInv(s) && Enabled(s, GetStep(t, expired), false) && Installed(s, s.getters[t].at)
    ensures StoreInv(StepGet(s, t, expired))
  {
    var at, getters := s.getters[t].at, StepGet(s, t, expired).getters;
    if s.getters[t].test == Expire && s.metas[at].flags == CREATING {
      var s' := Conclude(s, at, Flags(false, false, false));
      ConcludeKeeps(s, at, Flags(false, false, false));
      ReadersDontMatter(s', getters);
    } else {
      ReadersDontMatter(s, getters);
    }
  }

  // ----- readers -----

  /** From s to s' versions are only added, and the only version that may turn created is the newest. */
  ghost predicate Evolves(s: State, s': State) {
    && |s.versions| <= |s'.versions|
    && forall n: nat :: n in s.versions ==>
         && n in s'.versions && s'.versions[n] == s.versions[n]
         && s.versions[n] in s.metas && s.versions[n] in s'.metas
         && s'.metas[s.versions[n]].version == s.metas[s.versions[n]].version
         && (s'.metas[s.versions[n]].flags.created != s.metas[s.versions[n]].flags.created ==>
               n == |s.versions| == |s'.versions| && s'.metas[s.versions[n]].flags.created)
  }

  lemma InstallEvolves(s: State, t: nat, cand: MetaId)
    requires Contiguous(s) && cand in s.metas && s.metas[cand].version == |s.versions| + 1
    ensures Evolves(s, Install(s, t, cand))
  {
    assert |s.versions| + 1 !in s.versions;
  }

  lemma ConcludeEvolves(s: State, id: MetaId, flags: Flags)
    requires Contiguous(s) && OlderConcluded(s) && Installed(s, id)
    ensures Evolves(s, Conclude(s, id, flags))
  {
  }

  /** Steps that leave the versions and their flags alone. */
  lemma QuietEvolves(s: State, s': State)
    requires Contiguous(s) && s'.versions == s.versions
    requires forall n: nat :: n in s.versions ==>
      s.versions[n] in s'.metas && s'.metas[s.versions[n]] == s.metas[s.versions[n]]
    ensures Evolves(s, s')
  {
  }

  lemma CallerEvolves(s: State, a: Action)
    requires Inv(s) && Enabled(s, a, false) && (a.Call? || a.LoadOrStore? || a.Revise? || a.Swap?)
    ensures Evolves(s, Act(s, a))
  {
    var s' := Act(s, a);
    if a.Call? {
      QuietEvolves(s, s');
    } else {
      assert InformedCall(s, s.inserters[a.t]);
      var cand := s.inserters[a.t].cand;
      hide Linked, FlagsSane, Informed, ReadersOk, Evolves;
      if a.Revise? {
        assert !Listed(s, cand);
        QuietEvolves(s, s');
      } else if s'.versions == s.versions && s'.latest == s.latest {
        QuietEvolves(s, s');
      } else {
        InstallEvolves(s, a.t, cand);
      }
    }
  }

  /** Only the store part of a state matters for its evolution. */
  lemma EvolvesByStore(s: State, s1: State, s2: State)
    requires Evolves(s, s1) && s2.versions == s1.versions && s2.metas == s1.metas
    ensures Evolves(s, s2)
  {
  }

  lemma TestEvolves(s: State, a: Action, at: MetaId)
    requires Contiguous(s) && OlderConcluded(s) && Enabled(s, a, false) && Installed(s, at)
    requires (a.TestStep? && s.inserters[a.t].seen == at) || (a.GetStep? && s.getters[a.t].at == at)
    ensures Evolves(s, Act(s, a))
  {
    var s1 := Conclude(s, at, Flags(false, false, false));
    ConcludeEvolves(s, at, Flags(false, false, false));
    QuietEvolves(s, s);
    hide Contiguous, OlderConcluded, Evolves;
    var s2 := Act(s, a);
    if s2.metas == s.metas {
      EvolvesByStore(s, s, s2);
    } else {
      EvolvesByStore(s, s1, s2);
    }
  }

  lemma StepEvolves(s: State, a: Action)
    requires Inv(s) && Enabled(s, a, false)
    ensures Evolves(s, Act(s, a))
  {
    match a {
      case Confirm(id) => ConcludeEvolves(s, id, Flags(true, true, false));
      case Invalidate(id) => ConcludeEvolves(s, id, Flags(false, false, false));
      case TestStep(t, _) =>
        assert InformedCall(s, s.inserters[t]);
        TestEvolves(s, a, s.inserters[t].seen);
      case GetStep(t, _) =>
        assert ReaderOk(s, s.getters[t]);
        TestEvolves(s, a, s.getters[t].at);
      case Delete(_) =>
      case CallGet(_) => QuietEvolves(s, Act(s, a));
      case _ => CallerEvolves(s, a);
    }
  }

  lemma {:induction false} GreatestFrame(s: State, s': State, k: nat)
    requires Evolves(s, s') && Contiguous(s) && Contiguous(s') && k <= |s.versions|
    requires k in s.versions ==> s'.metas[s.versions[k]].flags.created == s.metas[s.versions[k]].flags.created
    ensures GreatestFrom(s', k) == GreatestFrom(s, k)
  {
    if k > 0 {
      GreatestFrame(s, s', k - 1);
    }
  }

  /** An installed meta stays, and is created meanwhile only as the newest version. */
  lemma InstalledEvolves(s: State, s': State, id: MetaId)
    requires Contiguous(s) && Contiguous(s') && Evolves(s, s') && Installed(s, id)
    ensures Installed(s', id) && s'.metas[id].version == s.metas[id].version && 0 < s.metas[id].version <= |s.versions|
    ensures s'.metas[id].flags.created != s.metas[id].flags.created ==>
      s.metas[id].version == |s'.versions| && s'.metas[id].flags.created
    ensures s'.versions[s.metas[id].version] == id && s.metas[id].version - 1 < |s.versions|
    ensures var k := s.metas[id].version - 1; k in s.versions ==>
      && s.versions[k] in s.metas && s.versions[k] in s'.metas
      && s'.metas[s.versions[k]].flags.created == s.metas[s.versions[k]].flags.created
  {
  }

  lemma ReaderKeeps(s: State, s': State, g: Getter)
    requires Contiguous(s) && Contiguous(s') && Evolves(s, s') && ReaderOk(s, g)
    ensures ReaderOk(s', Observe(g, Greatest(s')))
  {
    if g.Reading? {
      hide Contiguous, Evolves;
      var v := s.metas[g.at].version;
      InstalledEvolves(s, s', g.at);
      GreatestFrame(s, s', v - 1);
      if s'.metas[g.at].flags.created == s.metas[g.at].flags.created {
        GreatestFrame(s, s', v);
      }
      GreatestHere(s, v);
      GreatestHere(s', v);
      hide GreatestFrom;
    }
  }

  lemma GreatestHere(s: State, v: nat)
    requires 0 < v && v in s.versions && s.versions[v] in s.metas
    ensures GreatestFrom(s, v) == if s.metas[s.versions[v]].flags.created then v else GreatestFrom(s, v - 1)
  {
  }

  /** A reader at an installed meta, and what its version says about the ones below. */
  lemma ReaderPlace(s: State, g: Getter)
    requires Contiguous(s) && Linked(s) && g.Reading? && ReaderOk(s, g)
    ensures var m := s.metas[g.at]; var v := m.version;
      && v > 0 && m.lastVersion == v - 1 && GreatestFrom(s, 0) == 0
      && GreatestFrom(s, v) == (if m.flags.created then v else GreatestFrom(s, v - 1))
      && (v > 1 ==>
            v - 1 in s.versions && Installed(s, s.versions[v - 1]) && s.metas[s.versions[v - 1]].version == v - 1)
  {
    var v := s.metas[g.at].version;
    assert v in s.versions && s.versions[v] == g.at;
    if v > 1 {
      assert v - 1 in s.versions;
    }
  }

  /** The reader that takes the step moves to a meta, or to an answer, that is as good. */
  lemma ReaderMoves(s: State, t: nat, expired: bool)
    requires StoreInv(s) && Enabled(s, GetStep(t, expired), false) && ReaderOk(s, s.getters[t])
    ensures var next := StepGet(s, t, expired).getters[t];
      && ReaderOk(s, next)
      && (next.Reading? && next.at != s.getters[t].at ==> s.metas[next.at].version < s.metas[s.getters[t].at].version)
  {
    hide Private, Informed, OlderConcluded, FlagsSane, Contiguous, Linked, GreatestFrom;
    ReaderPlace(s, s.getters[t]);
    if Read(s.metas[s.getters[t].at].flags, s.getters[t].test, expired).Next? {
      ReaderTestsOn(s, t, expired);
    } else {
      ReaderGoesOn(s, t, expired);
    }
  }

  lemma ReaderTestsOn(s: State, t: nat, expired: bool)
    requires Enabled(s, GetStep(t, expired), false) && ReaderOk(s, s.getters[t])
    requires Read(s.metas[s.getters[t].at].flags, s.getters[t].test, expired).Next?
    ensures var next := StepGet(s, t, expired).getters[t];
      ReaderOk(s, next) && next.Reading? && next.at == s.getters[t].at
  {
    hide GreatestFrom;
  }

  lemma ReaderGoesOn(s: State, t: nat, expired: bool)
    requires Enabled(s, GetStep(t, expired), false) && ReaderOk(s, s.getters[t])
    requires Read(s.metas[s.getters[t].at].flags, s.getters[t].test, expired).Done?
    requires var m := s.metas[s.getters[t].at]; var v := m.version;
      && v > 0 && m.lastVersion == v - 1 && GreatestFrom(s, 0) == 0
      && GreatestFrom(s, v) == (if m.flags.created then v else GreatestFrom(s, v - 1))
      && (v > 1 ==>
            v - 1 in s.versions && Installed(s, s.versions[v - 1]) && s.metas[s.versions[v - 1]].version == v - 1)
    ensures var next := StepGet(s, t, expired).getters[t];
      ReaderOk(s, next) && (next.Reading? ==> s.metas[next.at].version < s.metas[s.getters[t].at].version)
  {
    hide GreatestFrom;
  }

  lemma ReadersStep(s: State, a: Action)
    requires Inv(s) && Enabled(s, a, true) && Enabled(s, a, false) && StoreInv(Act(s, a))
    ensures ReadersOk(Apply(s, a))
  {
    var m := Act(s, a);
    var e := Apply(s, a);
    StepEvolves(s, a);
    forall t | t in e.getters
      ensures ReaderOk(e, e.getters[t])
    {
      ReaderStep(s, a, t);
    }
  }

  lemma SameStoreSameReader(s: State, s': State, g: Getter)
    requires ReaderOk(s, g) && s'.versions == s.versions && s'.metas == s.metas
    ensures ReaderOk(s', g)
  {
    forall n: nat
      ensures GreatestFrom(s', n) == GreatestFrom(s, n)
    {
      SameStoreSameGreatest(s, s', n);
    }
  }

  lemma {:induction false} SameStoreSameGreatest(s: State, s': State, n: nat)
    requires s'.versions == s.versions && s'.metas == s.metas
    ensures GreatestFrom(s', n) == GreatestFrom(s, n)
  {
    if n > 0 {
      SameStoreSameGreatest(s, s', n - 1);
    }
  }

  /** Every reader after the step, seen against the store before it. */
  lemma ReaderBefore(s: State, a: Action, t: nat)
    requires Inv(s) && Enabled(s, a, false) && t in Act(s, a).getters
    ensures ReaderOk(s, Act(s, a).getters[t])
  {
    if a.GetStep? && a.t == t {
      ReaderMoves(s, t, a.expired);
    } else if a.CallGet? && a.t == t {
      assert s.latest.Some? ==> Installed(s, s.latest.value);
    } else {
      assert Act(s, a).getters[t] == s.getters[t];
    }
  }

  lemma ReaderStep(s: State, a: Action, t: nat)
    requires Inv(s) && Enabled(s, a, false) && Contiguous(Act(s, a)) && Evolves(s, Act(s, a))
    requires t in Act(s, a).getters
    ensures ReaderOk(Apply(s, a), Apply(s, a).getters[t])
  {
    ReaderBefore(s, a, t);
    hide Linked, FlagsSane, Informed, ReadersOk, Private, OlderConcluded, Act, Enabled;
    var m := Act(s, a);
    ReaderKeeps(s, m, m.getters[t]);
    SameStoreSameReader(m, Apply(s, a), Observe(m.getters[t], Greatest(m)));
  }

  lemma StepKeepsInv(s: State, a: Action)
    requires Inv(s) && Enabled(s, a, true)
    ensures Enabled(s, a, false) && Inv(Apply(s, a))
  {
    StoreStep(s, a);
    ReadersStep(s, a);
    ReadersDontMatter(Act(s, a), Apply(s, a).getters);
  }

  ghost predicate Runs(s: State, actions: seq<Action>, e: State, clean: bool)
    decreases |actions|
  {
    if |actions| == 0 then s == e
    else
      && Enabled(s, actions[0], clean) && Enabled(s, actions[0], false)
      && Runs(Apply(s, actions[0]), actions[1..], e, clean)
  }

  ghost predicate Reachable(s: State, clean: bool) {
    exists actions: seq<Action> :: Runs(Init(), actions, s, clean)
  }

  lemma {:induction false} RunKeepsInv(s: State, actions: seq<Action>, e: State)
    requires Inv(s) && Runs(s, actions, e, true)
    ensures Inv(e)
    decreases |actions|
  {
    if |actions| > 0 {
      StepKeepsInv(s, actions[0]);
      RunKeepsInv(Apply(s, actions[0]), actions[1..], e);
    }
  }

  lemma ReachableInv(s: State)
    requires Reachable(s, true)
    ensures Inv(s)
  {
    var actions :| Runs(Init(), actions, s, true);
    assert Inv(Init());
    RunKeepsInv(Init(), actions, s);
  }

  // ----- main results -----

  /** In every interleaving the installed versions are exactly 1, 2, ..., each linked to its predecessor, the key's
      entry is the newest, and every version but the newest is decided. */
  lemma VersionsWithoutGaps(s: State)
    requires Reachable(s, true)
    ensures forall n: nat :: n in s.versions <==> 1 <= n <= |s.versions|
    ensures forall n: nat :: n in s.versions ==>
      s.versions[n] in s.metas && s.metas[s.versions[n]].version == n && s.metas[s.versions[n]].lastVersion == n - 1
    ensures |s.versions| > 0 ==> s.latest == Some(s.versions[|s.versions|])
    ensures forall n: nat :: 1 <= n < |s.versions| ==> Concluded(s.metas[s.versions[n]])
  {
    ReachableInv(s);
  }

  /** A version that was decided keeps its fate through every later step: created stays created and valid, invalid
      stays invalid; the two exclude each other. */
  lemma FateIsFinal(s: State, a: Action, n: nat)
    requires Reachable(s, true) && Enabled(s, a, true) && n in s.versions && s.versions[n] in s.metas
    requires Concluded(s.metas[s.versions[n]])
    ensures Enabled(s, a, false) && n in Apply(s, a).versions && Apply(s, a).versions[n] == s.versions[n]
    ensures s.versions[n] in Apply(s, a).metas
    ensures var before, after := s.metas[s.versions[n]].flags, Apply(s, a).metas[s.versions[n]].flags;
      && before.created == after.created && before.valid == after.valid
      && (after.created ==> after.valid)
  {
    ReachableInv(s);
    StoreStep(s, a);
    StepEvolves(s, a);
    DecidedValid(s, a, n);
  }

  lemma DecidedValid(s: State, a: Action, n: nat)
    requires Inv(s) && Enabled(s, a, true) && n in s.versions && Concluded(s.metas[s.versions[n]])
    ensures Enabled(s, a, false) && s.versions[n] in Act(s, a).metas
    ensures Act(s, a).metas[s.versions[n]].flags.valid == s.metas[s.versions[n]].flags.valid
    ensures Act(s, a).metas[s.versions[n]].flags.created == s.metas[s.versions[n]].flags.created
  {
    hide Linked, ReadersOk, OlderConcluded, Informed;
    if a.Revise? {
      assert !Listed(s, s.inserters[a.t].cand);
    }
  }

  /** Whatever else goes on meanwhile, Get answers with the version that was the greatest created one at some moment
      between its load of the key and its return, or with none if none was. */
  lemma GetIsLinearizable(s: State, t: nat)
    requires Reachable(s, true) && t in s.getters && s.getters[t].Returned?
    ensures s.getters[t].version in s.getters[t].window
  {
    ReachableInv(s);
    assert ReaderOk(s, s.getters[t]);
  }

  /** Get follows strictly falling versions, so it visits each of them at most once. */
  lemma GetGoesDown(s: State, t: nat, expired: bool)
    requires Reachable(s, true) && Enabled(s, GetStep(t, expired), true)
    ensures Enabled(s, GetStep(t, expired), false)
    ensures var next := Apply(s, GetStep(t, expired)).getters[t];
      next.Reading? && next.at != s.getters[t].at ==>
        next.at in s.metas && s.metas[next.at].version < s.metas[s.getters[t].at].version
  {
    ReachableInv(s);
    assert ReaderOk(s, s.getters[t]);
    ReaderMoves(s, t, expired);
  }

  /** Greatest is what its name says. */
  lemma {:induction false} GreatestIsGreatest(s: State, n: nat)
    ensures GreatestFrom(s, n) <= n
    ensures GreatestFrom(s, n) > 0 ==>
      && GreatestFrom(s, n) in s.versions && s.versions[GreatestFrom(s, n)] in s.metas
      && s.metas[s.versions[GreatestFrom(s, n)]].flags.created
    ensures forall m: nat :: GreatestFrom(s, n) < m <= n && m in s.versions && s.versions[m] in s.metas ==>
      !s.metas[s.versions[m]].flags.created
  {
    if n > 0 {
      GreatestIsGreatest(s, n - 1);
    }
  }

  // ----- the reading loop, and what a candidate that was invalidated before its insertion does to it -----

  /** Get while no other call interferes and nothing expires: the links, followed to a created version. */
  function Follow(s: State, n: nat): nat
    decreases n
  {
    if n !in s.versions || s.versions[n] !in s.metas then 0
    else if s.metas[s.versions[n]].flags.created then n
    else if s.metas[s.versions[n]].lastVersion < n then Follow(s, s.metas[s.versions[n]].lastVersion)
    else 0
  }

  /** On a store built from freshly made metas the loop finds the greatest created version. */
  method Get(s: State) returns (version: nat)
    requires Contiguous(s) && Linked(s)
    ensures version == Greatest(s) == Follow(s, |s.versions|)
  {
    if s.latest.None? {
      return 0;
    }
    var at := s.latest.value;
    while !s.metas[at].flags.created
      invariant Installed(s, at) && s.metas[at].version > 0
      invariant GreatestFrom(s, s.metas[at].version) == Greatest(s)
      invariant Follow(s, s.metas[at].version) == Follow(s, |s.versions|)
      decreases if at in s.metas then s.metas[at].version else 0
    {
      assert s.metas[at].lastVersion == s.metas[at].version - 1;
      if s.metas[at].lastVersion == 0 {
        assert 0 !in s.versions;
        return 0;
      }
      at := s.versions[s.metas[at].lastVersion];
    }
    version := s.metas[at].version;
  }

  lemma {:induction false} FollowFindsGreatest(s: State, n: nat)
    requires Contiguous(s) && Linked(s) && n <= |s.versions|
    ensures Follow(s, n) == GreatestFrom(s, n)
  {
    if n > 0 {
      FollowFindsGreatest(s, n - 1);
    }
  }

  /** A decided newest version, and a call of another request. */
  ghost predicate ReadyToInsert(s: State, t: nat, cand: MetaId, initiator: nat) {
    && StoreInv(s) && |s.versions| > 0 && t !in s.inserters && cand !in s.metas
    && Concluded(s.metas[s.versions[|s.versions|]]) && s.metas[s.versions[|s.versions|]].initiator != initiator
  }

  lemma {:induction false} RunSnoc(s: State, actions: seq<Action>, m: State, a: Action)
    requires Runs(s, actions, m, false) && Enabled(m, a, false)
    ensures Runs(s, actions + [a], Apply(m, a), false)
    decreases |actions|
  {
    hide Enabled, Apply;
    if |actions| == 0 {
      assert (actions + [a])[1..] == [];
      assert Runs(Apply(s, a), [], Apply(m, a), false);
    } else {
      assert (actions + [a])[1..] == actions[1..] + [a];
      RunSnoc(Apply(s, actions[0]), actions[1..], m, a);
    }
  }

  /** What an undisturbed insertion has left untouched while it tests the newest version. */
  ghost predicate Examining(s: State, m: State, t: nat, cand: MetaId, candidate: Meta, i: Inserter) {
    && m.versions == s.versions && m.latest == s.latest && m.metas == s.metas[cand := candidate]
    && t in m.inserters && m.inserters[t] == i
  }

  lemma ExamineStep(s: State, m: State, t: nat, cand: MetaId, candidate: Meta, last: MetaId, test: Test)
    requires Examining(s, m, t, cand, candidate, Testing(cand, last, test)) && test != Expire
    requires last in s.metas && last != cand && s.metas[last].initiator != candidate.initiator
    requires !(s.metas[last].flags.valid && !s.metas[last].flags.created)
    ensures Enabled(m, TestStep(t, false), false)
    ensures var next := match Read(s.metas[last].flags, test, false)
                        case Next(further) => Testing(cand, last, further)
                        case Done(_) => Revising(cand, last);
      Read(s.metas[last].flags, test, false) != Done(true) ==>
        Examining(s, Apply(m, TestStep(t, false)), t, cand, candidate, next)
  {
    hide GreatestFrom, Observe;
  }

  lemma InsertBegins(s: State, t: nat, cand: MetaId, initiator: nat, flags: Flags, last: MetaId)
    returns (actions: seq<Action>, m: State)
    requires s.latest == Some(last) && t !in s.inserters && cand !in s.metas
    ensures Runs(s, actions, m, false)
    ensures Examining(s, m, t, cand, Meta(1, 0, initiator, flags), Testing(cand, last, CheckCreated))
  {
    hide GreatestFrom, Observe;
    var call := Call(t, cand, initiator, flags);
    assert Runs(s, [], s, false);
    RunSnoc(s, [], s, call);
    var s1 := Apply(s, call);
    RunSnoc(s, [] + [call], s1, LoadOrStore(t));
    actions, m := [] + [call] + [LoadOrStore(t)], Apply(s1, LoadOrStore(t));
  }

  /** A decided version passes the test: at once if it is created, after three reads if it is not. */
  lemma InsertTests(s: State, t: nat, cand: MetaId, initiator: nat, flags: Flags, last: MetaId)
    returns (actions: seq<Action>, m: State)
    requires s.latest == Some(last) && t !in s.inserters && cand !in s.metas
    requires last in s.metas && s.metas[last].initiator != initiator && Concluded(s.metas[last])
    requires s.metas[last].flags.valid ==> s.metas[last].flags.created
    ensures Runs(s, actions, m, false) && Examining(s, m, t, cand, Meta(1, 0, initiator, flags), Revising(cand, last))
  {
    var c := Meta(1, 0, initiator, flags);
    actions, m := InsertBegins(s, t, cand, initiator, flags, last);
    hide Runs, Apply, Examining, Enabled;
    ExamineStep(s, m, t, cand, c, last, CheckCreated);
    RunSnoc(s, actions, m, TestStep(t, false));
    actions, m := actions + [TestStep(t, false)], Apply(m, TestStep(t, false));
    if !s.metas[last].flags.created {
      ExamineStep(s, m, t, cand, c, last, CheckValid);
      RunSnoc(s, actions, m, TestStep(t, false));
      actions, m := actions + [TestStep(t, false)], Apply(m, TestStep(t, false));
      ExamineStep(s, m, t, cand, c, last, CheckAgain);
      RunSnoc(s, actions, m, TestStep(t, false));
      actions, m := actions + [TestStep(t, false)], Apply(m, TestStep(t, false));
    }
  }

  /** The store after the insertion: one more version, linked as ReviseBy links it. */
  lemma InsertRuns(s: State, t: nat, cand: MetaId, initiator: nat, flags: Flags)
    returns (actions: seq<Action>, e: State)
    requires ReadyToInsert(s, t, cand, initiator)
    requires s.metas[s.versions[|s.versions|]].flags.valid ==> s.metas[s.versions[|s.versions|]].flags.created
    ensures Runs(s, actions, e, false)
    ensures e.versions == s.versions[|s.versions| + 1 := cand]
    ensures e.metas == s.metas[cand := ReviseBy(s.metas[s.versions[|s.versions|]], Meta(1, 0, initiator, flags))]
  {
    hide Private, Informed, OlderConcluded, FlagsSane, Linked;
    var n := |s.versions|;
    assert n in s.versions;
    var last := s.versions[n];
    assert last in s.metas && s.metas[last].version == n && s.latest == Some(last);
    hide Contiguous, GreatestFrom, Observe, Runs;
    var m;
    actions, m := InsertTests(s, t, cand, initiator, flags, last);
    RunSnoc(s, actions, m, Revise(t));
    var r := Apply(m, Revise(t));
    assert r.inserters[t] == Swapping(cand, last) && r.latest == Some(last);
    RunSnoc(s, actions + [Revise(t)], r, Swap(t));
    actions, e := actions + [Revise(t)] + [Swap(t)], Apply(r, Swap(t));
  }

  /** e has all of s up to version n. */
  ghost predicate Extends(s: State, e: State, n: nat) {
    && (forall m: nat :: m <= n ==> (m in e.versions <==> m in s.versions))
    && (forall m: nat :: m <= n && m in s.versions ==> e.versions[m] == s.versions[m])
    && (forall id :: id in s.metas ==> id in e.metas && e.metas[id] == s.metas[id])
    && (forall m: nat :: m in s.versions ==> s.versions[m] in s.metas)
  }

  lemma {:induction false} FollowFrame(s: State, e: State, k: nat, n: nat)
    requires Extends(s, e, k) && n <= k
    ensures Follow(e, n) == Follow(s, n) && GreatestFrom(e, n) == GreatestFrom(s, n)
    decreases n
  {
    if n > 0 {
      FollowFrame(s, e, k, n - 1);
    }
    if n in s.versions {
      var m := s.metas[s.versions[n]].lastVersion;
      if m < n {
        FollowFrame(s, e, k, m);
      }
    }
  }

  lemma NewestListed(s: State)
    requires Contiguous(s) && |s.versions| > 0
    ensures |s.versions| in s.versions && s.versions[|s.versions|] in s.metas
  {
  }

  lemma GreatestBound(s: State, n: nat)
    ensures GreatestFrom(s, n) <= n
  {
    GreatestIsGreatest(s, n);
  }

  lemma InsertExtends(s: State, e: State, cand: MetaId)
    requires Contiguous(s) && cand !in s.metas && cand in e.metas
    requires e.versions == s.versions[|s.versions| + 1 := cand] && e.metas == s.metas[cand := e.metas[cand]]
    ensures Extends(s, e, |s.versions|) && |e.versions| == |s.versions| + 1
  {
    assert |s.versions| + 1 !in s.versions;
  }

  lemma LinkDecides(s: State, e: State, cand: MetaId, flags: Flags)
    requires Contiguous(s) && Linked(s) && |s.versions| > 0 && cand !in s.metas && cand in e.metas && !flags.created
    requires e.versions == s.versions[|s.versions| + 1 := cand]
    requires e.metas == s.metas[cand := e.metas[cand]] && e.metas[cand].flags == flags
    requires e.metas[cand].lastVersion == if flags.valid then |s.versions| else |s.versions| - 1
    ensures Greatest(e) == Greatest(s)
    ensures Follow(e, |e.versions|) == Greatest(e) <==> flags.valid || !s.metas[s.versions[|s.versions|]].flags.created
  {
    hide Contiguous, Linked, Extends, Follow, GreatestFrom;
    var n := |s.versions|;
    NewestListed(s);
    InsertExtends(s, e, cand);
    FollowFrame(s, e, n, n);
    FollowFrame(s, e, n, n - 1);
    FollowFindsGreatest(s, n - 1);
    FollowFindsGreatest(s, n);
    GreatestBound(s, n - 1);
    LinkDecidesHere(s, e, n, cand, flags);
  }

  lemma LinkDecidesHere(s: State, e: State, n: nat, cand: MetaId, flags: Flags)
    requires 0 < n == |s.versions| && |e.versions| == n + 1 && n in s.versions && s.versions[n] in s.metas
    requires n + 1 in e.versions && e.versions[n + 1] == cand && cand in e.metas && !flags.created
    requires e.metas[cand].flags == flags
    requires e.metas[cand].lastVersion == if flags.valid then n else n - 1
    requires Follow(e, n) == Follow(s, n) == GreatestFrom(s, n) == GreatestFrom(e, n)
    requires Follow(e, n - 1) == Follow(s, n - 1) == GreatestFrom(s, n - 1) <= n - 1
    ensures Greatest(e) == Greatest(s)
    ensures Follow(e, n + 1) == Greatest(e) <==> flags.valid || !s.metas[s.versions[n]].flags.created
  {
    assert GreatestFrom(e, n + 1) == GreatestFrom(e, n);
    assert Follow(e, n + 1) == Follow(e, e.metas[cand].lastVersion);
    assert GreatestFrom(s, n) == if s.metas[s.versions[n]].flags.created then n else GreatestFrom(s, n - 1);
  }

  /** ReviseBy asks the candidate, not the version it replaces, whether it is valid. So after the insertion of an
      uncreated candidate Get still finds the greatest created version if and only if that candidate is valid or the
      version it replaces is not the greatest created one; otherwise the link skips that version and Get answers with
      an older one or none. */
  lemma CreatedVersionStaysReadableIff(s: State, t: nat, cand: MetaId, initiator: nat, flags: Flags)
    returns (actions: seq<Action>, e: State)
    requires ReadyToInsert(s, t, cand, initiator) && !flags.created
    ensures Runs(s, actions, e, false) && Greatest(e) == Greatest(s)
    ensures e.versions == s.versions[|s.versions| + 1 := cand] && cand in e.metas && e.metas[cand].flags == flags
    ensures Follow(e, |e.versions|) == Greatest(e) <==> flags.valid || !s.metas[s.versions[|s.versions|]].flags.created
  {
    NewestDecided(s);
    actions, e := InsertRuns(s, t, cand, initiator, flags);
    hide Private, Informed, OlderConcluded, FlagsSane, Runs, Follow, GreatestFrom;
    assert s.metas[s.versions[|s.versions|]].lastVersion == |s.versions| - 1;
    LinkDecides(s, e, cand, flags);
  }

  /** A decided newest version that is valid is created. */
  lemma NewestDecided(s: State)
    requires StoreInv(s) && |s.versions| > 0 && Concluded(s.metas[s.versions[|s.versions|]])
    ensures s.metas[s.versions[|s.versions|]].flags.valid ==> s.metas[s.versions[|s.versions|]].flags.created
  {
  }
}
