/** Replay of the main repository, lambda/storage/lineage_storage.go. The log is a list of terms, each a list of set
    and delete operations. Snapshots, which condense all terms up to some term into one operation per chunk, are in
    LineageSnapshot. */
module LineageReplay {
  import opened Common

  type Key = string

  datatype Kind = Set | Del

  datatype Op = Op(kind: Kind, key: Key, id: string, size: nat)

  /** A term as downloaded; diffRank is positive only for a snapshot. */
  datatype Term = Term(term: nat, ops: seq<Op>, diffRank: nat)

  /** body: whether the bytes are in memory. */
  datatype Chunk = Chunk(id: string, size: nat, term: nat, deleted: bool, body: bool)

  type Repo = map<Key, Chunk>

  /** An operation together with the term that carries it. */
  datatype Event = Event(term: nat, op: Op)

  function At(repo: Repo, k: Key): Option<Chunk> {
    if k in repo then Some(repo[k]) else None
  }

  /** The events of one key, in order. */
  function Only(events: seq<Event>, k: Key): seq<Event> {
    if |events| == 0 then []
    else Only(events[..|events| - 1], k) + (if events[|events| - 1].op.key == k then [events[|events| - 1]] else [])
  }

  lemma {:induction false} OnlyConcat(a: seq<Event>, b: seq<Event>, k: Key)
    ensures Only(a + b, k) == Only(a, k) + Only(b, k)
  {
    if |b| == 0 {
      assert a + b == a;
    } else {
      assert (a + b)[..|a + b| - 1] == a + b[..|b| - 1];
      OnlyConcat(a, b[..|b| - 1], k);
    }
  }

  lemma OnlySnoc(events: seq<Event>, k: Key)
    requires |events| > 0
    ensures var n := |events| - 1; var es := Only(events, k);
      if events[n].op.key == k then |es| > 0 && es[..|es| - 1] == Only(events[..n], k) && es[|es| - 1] == events[n]
      else es == Only(events[..n], k)
  {
  }

  /** What holds of all events holds of those of a key. */
  lemma {:induction false} OnlyFrom(events: seq<Event>, k: Key)
    ensures forall i :: 0 <= i < |Only(events, k)| ==> Only(events, k)[i] in events && Only(events, k)[i].op.key == k
  {
    if |events| > 0 {
      OnlyFrom(events[..|events| - 1], k);
    }
  }

  // ----- the repository as it serves requests -----

  /** Set and Del on the serving node; the chunk is labelled with the term of the operation. */
  function ServeChunk(c: Option<Chunk>, e: Event): Option<Chunk> {
    if e.op.kind == Set then Some(Chunk(e.op.id, e.op.size, e.term, false, true))
    else if c.Some? then Some(c.value.(term := e.term, deleted := true, body := false))
    else None
  }

  function Serve(repo: Repo, e: Event): Repo {
    var c := ServeChunk(At(repo, e.op.key), e);
    if c.Some? then repo[e.op.key := c.value] else repo
  }

  function ServeAll(repo: Repo, events: seq<Event>): Repo {
    if |events| == 0 then repo else Serve(ServeAll(repo, events[..|events| - 1]), events[|events| - 1])
  }

  function ServeKey(c: Option<Chunk>, events: seq<Event>): Option<Chunk> {
    if |events| == 0 then c else ServeChunk(ServeKey(c, events[..|events| - 1]), events[|events| - 1])
  }

  lemma {:induction false} ServeAt(repo: Repo, events: seq<Event>, k: Key)
    ensures At(ServeAll(repo, events), k) == ServeKey(At(repo, k), Only(events, k))
  {
    if |events| > 0 {
      var n := |events| - 1;
      ServeAt(repo, events[..n], k);
      OnlySnoc(events, k);
    }
  }

  // ----- replay -----

  /** One operation of doReplayLineage on the main repository. */
  function ReplayChunk(c: Option<Chunk>, e: Event): Chunk {
    if c.Some? then
      if e.term <= c.value.term then c.value                      // out of date
      else if e.op.kind == Del && !c.value.deleted
      then c.value.(term := e.term, deleted := true, body := false)
      else c.value                                                // deleted already, or overlap
    else Chunk(e.op.id, e.op.size, e.term, e.op.kind == Del, false)
  }

  function ReplayOp(repo: Repo, e: Event): Repo {
    repo[e.op.key := ReplayChunk(At(repo, e.op.key), e)]
  }

  function Replay(repo: Repo, events: seq<Event>): Repo {
    if |events| == 0 then repo else ReplayOp(Replay(repo, events[..|events| - 1]), events[|events| - 1])
  }

  function ReplayKey(c: Option<Chunk>, events: seq<Event>): Option<Chunk> {
    if |events| == 0 then c else Some(ReplayChunk(ReplayKey(c, events[..|events| - 1]), events[|events| - 1]))
  }

  lemma {:induction false} ReplayAt(repo: Repo, events: seq<Event>, k: Key)
    ensures At(Replay(repo, events), k) == ReplayKey(At(repo, k), Only(events, k))
  {
    if |events| > 0 {
      var n := |events| - 1;
      ReplayAt(repo, events[..n], k);
      OnlySnoc(events, k);
    }
  }

  function Events(term: nat, ops: seq<Op>): seq<Event> {
    seq(|ops|, i requires 0 <= i < |ops| => Event(term, ops[i]))
  }

  function Flatten(terms: seq<Term>): seq<Event> {
    if |terms| == 0 then []
    else Flatten(terms[..|terms| - 1]) + Events(terms[|terms| - 1].term, terms[|terms| - 1].ops)
  }

  /** Number of set operations, the difference rank they add up to. */
  function CountSets(events: seq<Event>, above: nat): nat {
    if |events| == 0 then 0
    else
      var e := events[|events| - 1];
      CountSets(events[..|events| - 1], above) + (if e.op.kind == Set && e.term > above then 1 else 0)
  }

  /** The same chunk as far as clients can tell: there, live or deleted, id and size. */
  ghost predicate SameChunk(a: Option<Chunk>, b: Option<Chunk>) {
    && (a.Some? <==> b.Some?)
    && (a.Some? ==> a.value.deleted == b.value.deleted && a.value.id == b.value.id && a.value.size == b.value.size)
  }

  ghost predicate SameContent(a: Repo, b: Repo) {
    forall k :: SameChunk(At(a, k), At(b, k))
  }

  // ----- any log against the node that wrote it -----

  /** The first a log tells about a key: what the node started with, or the first event. */
  function Origin(c: Option<Chunk>, events: seq<Event>): Chunk
    requires c.Some? || |events| > 0
  {
    if c.Some? then c.value
    else Chunk(events[0].op.id, events[0].op.size, events[0].term, events[0].op.kind == Del, false)
  }

  /** Some delete carries a term above the given one. */
  predicate LateDelete(events: seq<Event>, term: nat) {
    exists i :: 0 <= i < |events| && events[i].op.kind == Del && events[i].term > term
  }

  /** Position of the first such delete. */
  function FirstLate(events: seq<Event>, term: nat): (i: nat)
    requires LateDelete(events, term)
    ensures i < |events| && events[i].op.kind == Del && events[i].term > term
    ensures forall j :: 0 <= j < i ==> !(events[j].op.kind == Del && events[j].term > term)
  {
    if LateDelete(events[..|events| - 1], term) then FirstLate(events[..|events| - 1], term) else |events| - 1
  }

  /** The chunk was deleted when the key first appears, or in a later term than that. */
  predicate Late(c: Option<Chunk>, events: seq<Event>)
    requires c.Some? || |events| > 0
  {
    Origin(c, events).deleted || LateDelete(events, Origin(c, events).term)
  }

  /** The last event of the key is a delete, or there is none and the node started with a deleted chunk. */
  predicate Gone(c: Option<Chunk>, events: seq<Event>)
    requires c.Some? || |events| > 0
  {
    if |events| == 0 then c.value.deleted else events[|events| - 1].op.kind == Del
  }

  /** Id and size of the last set, or what the node started with. */
  function LastSet(c: Option<Chunk>, events: seq<Event>): (string, nat)
    requires c.Some? || |events| > 0
  {
    if |events| == 0 then (c.value.id, c.value.size)
    else
      var e := events[|events| - 1];
      if e.op.kind == Set || (c.None? && |events| == 1) then (e.op.id, e.op.size)
      else LastSet(c, events[..|events| - 1])
  }

  /** A node deletes only what it holds, so the log of a new key starts with a set. */
  ghost predicate Held(c: Option<Chunk>, events: seq<Event>) {
    c.None? && |events| > 0 ==> events[0].op.kind == Set
  }

  lemma {:induction false} ReplayKeepsFirst(c: Option<Chunk>, events: seq<Event>)
    requires c.Some? || |events| > 0
    ensures var r := ReplayKey(c, events); var o := Origin(c, events);
      && r.Some? && r.value.id == o.id && r.value.size == o.size && r.value.deleted == Late(c, events)
      && (!Late(c, events) || o.deleted ==> r.value == o)
      && (Late(c, events) && !o.deleted ==>
            !r.value.body && r.value.term == events[FirstLate(events, o.term)].term)
  {
    if |events| > 0 && (c.Some? || |events| > 1) {
      var n := |events| - 1;
      var before, o := events[..n], Origin(c, events);
      ReplayKeepsFirst(c, before);
      assert Origin(c, before) == o;
      assert LateDelete(events, o.term) <==>
        LateDelete(before, o.term) || (events[n].op.kind == Del && events[n].term > o.term) by {
        if LateDelete(before, o.term) {
          var i :| 0 <= i < n && before[i].op.kind == Del && before[i].term > o.term;
          assert events[i] == before[i];
        }
        if LateDelete(events, o.term) {
          var i :| 0 <= i < |events| && events[i].op.kind == Del && events[i].term > o.term;
          assert i < n ==> before[i] == events[i];
        }
      }
    } else if |events| == 1 {
      assert events[..0] == [];
    }
  }

  lemma {:induction false} ServeKeepsLast(c: Option<Chunk>, events: seq<Event>)
    requires (c.Some? || |events| > 0) && Held(c, events)
    ensures var r := ServeKey(c, events);
      && r.Some? && (r.value.id, r.value.size) == LastSet(c, events) && r.value.deleted == Gone(c, events)
      && (|events| > 0 ==> r.value.term == events[|events| - 1].term && r.value.body == !Gone(c, events))
  {
    if |events| > 0 && (c.Some? || |events| > 1) {
      ServeKeepsLast(c, events[..|events| - 1]);
    } else if |events| == 1 {
      assert events[..0] == [];
    }
  }

  /** Replay keeps the first the log tells of a key, the node the last; they agree on this key. */
  ghost predicate Steady(c: Option<Chunk>, events: seq<Event>) {
    c.Some? || |events| > 0 ==>
      && Late(c, events) == Gone(c, events)
      && (Origin(c, events).id, Origin(c, events).size) == LastSet(c, events)
  }

  /** For every log, with keys set, deleted and set again at will: replaying it rebuilds the live and deleted keys,
      ids and sizes of the node that wrote it, if and only if for each key some delete came in a later term than its
      first event exactly when a delete is its last event, and its first and last sets agree in id and size. */
  lemma ReplayRebuildsServingIff(base: Repo, events: seq<Event>)
    requires forall k :: Held(At(base, k), Only(events, k))
    ensures SameContent(Replay(base, events), ServeAll(base, events)) <==>
      forall k :: Steady(At(base, k), Only(events, k))
  {
    forall k
      ensures SameChunk(At(Replay(base, events), k), At(ServeAll(base, events), k)) <==>
        Steady(At(base, k), Only(events, k))
    {
      SteadyDecides(base, events, k);
    }
    hide At, Only, Replay, ServeAll, SameChunk, Steady, Held;
    if SameContent(Replay(base, events), ServeAll(base, events)) {
      forall k
        ensures Steady(At(base, k), Only(events, k))
      {
        assert SameChunk(At(Replay(base, events), k), At(ServeAll(base, events), k));
      }
    }
    if forall k :: Steady(At(base, k), Only(events, k)) {
      forall k
        ensures SameChunk(At(Replay(base, events), k), At(ServeAll(base, events), k))
      {
        assert Steady(At(base, k), Only(events, k));
      }
    }
  }

  lemma SteadyDecides(base: Repo, events: seq<Event>, k: Key)
    requires Held(At(base, k), Only(events, k))
    ensures SameChunk(At(Replay(base, events), k), At(ServeAll(base, events), k)) <==>
      Steady(At(base, k), Only(events, k))
  {
    var c, es := At(base, k), Only(events, k);
    ReplayAt(base, events, k);
    ServeAt(base, events, k);
    if c.Some? || |es| > 0 {
      ReplayKeepsFirst(c, es);
      ServeKeepsLast(c, es);
    }
  }

  // ----- logs in which a key is written once -----

  /** What a node accepts when a key, which names one version of an object, is written once and deleted at most once
      afterwards. Chunks are not empty. */
  ghost predicate Acceptable(c: Option<Chunk>, op: Op) {
    if op.kind == Set then c.None? && op.size > 0
    else c.Some? && !c.value.deleted && op.id == c.value.id && op.size == c.value.size
  }

  /** A log such a node can produce from its repository: acceptable operations in terms that do not go back. */
  ghost predicate Legal(base: Repo, events: seq<Event>) {
    |events| > 0 ==>
      var n := |events| - 1;
      && Legal(base, events[..n])
      && Acceptable(At(ServeAll(base, events[..n]), events[n].op.key), events[n].op)
      && (forall i :: 0 <= i < n ==> events[i].term <= events[n].term)
      && (forall k :: k in base ==> base[k].term <= events[n].term)
  }

  /** The log of one key: nothing, a set, a set and a delete, or a delete of a chunk that was there. */
  ghost predicate WrittenOnce(c: Option<Chunk>, es: seq<Event>) {
    if c.Some? then
      |es| == 0 || (|es| == 1 && es[0].op.kind == Del && !c.value.deleted && DeletesThat(es[0], c.value))
    else
      || |es| == 0
      || (1 <= |es| <= 2 && es[0].op.kind == Set && es[0].op.size > 0
          && (|es| == 2 ==>
                && es[1].op.kind == Del
                && DeletesThat(es[1], Chunk(es[0].op.id, es[0].op.size, es[0].term, false, true))))
  }

  ghost predicate DeletesThat(e: Event, c: Chunk) {
    e.op.id == c.id && e.op.size == c.size && c.term <= e.term
  }

  lemma ServeFew(c: Option<Chunk>, es: seq<Event>)
    ensures |es| == 0 ==> ServeKey(c, es) == c
    ensures |es| == 1 ==> ServeKey(c, es) == ServeChunk(c, es[0])
    ensures |es| == 2 ==> ServeKey(c, es) == ServeChunk(ServeChunk(c, es[0]), es[1])
  {
    if |es| == 1 {
      assert es[..0] == [];
    } else if |es| == 2 {
      assert es[..1] == [es[0]] && [es[0]][..0] == [];
    }
  }

  lemma ReplayFew(c: Option<Chunk>, es: seq<Event>)
    ensures |es| == 0 ==> ReplayKey(c, es) == c
    ensures |es| == 1 ==> ReplayKey(c, es) == Some(ReplayChunk(c, es[0]))
    ensures |es| == 2 ==> ReplayKey(c, es) == Some(ReplayChunk(Some(ReplayChunk(c, es[0])), es[1]))
  {
    if |es| == 1 {
      assert es[..0] == [];
    } else if |es| == 2 {
      assert es[..1] == [es[0]] && [es[0]][..0] == [];
    }
  }

  lemma WriteOnce(c: Option<Chunk>, es: seq<Event>, e: Event)
    requires WrittenOnce(c, es) && Acceptable(ServeKey(c, es), e.op)
    requires (forall i :: 0 <= i < |es| ==> es[i].term <= e.term) && (c.Some? ==> c.value.term <= e.term)
    ensures WrittenOnce(c, es + [e])
  {
    ServeFew(c, es);
  }

  lemma LegalLast(base: Repo, events: seq<Event>)
    requires Legal(base, events) && |events| > 0
    ensures var n := |events| - 1; var e := events[n];
      && Legal(base, events[..n]) && Acceptable(At(ServeAll(base, events[..n]), e.op.key), e.op)
      && (forall x :: x in events[..n] ==> x.term <= e.term)
      && (At(base, e.op.key).Some? ==> At(base, e.op.key).value.term <= e.term)
  {
    hide ServeAll, Acceptable;
  }

  lemma {:induction false} LegalIsWrittenOnce(base: Repo, events: seq<Event>, k: Key)
    requires Legal(base, events)
    ensures WrittenOnce(At(base, k), Only(events, k))
  {
    if |events| > 0 {
      hide Legal, ServeAll, WrittenOnce, ServeKey, Acceptable, Only, At;
      var n := |events| - 1;
      LegalLast(base, events);
      LegalIsWrittenOnce(base, events[..n], k);
      OnlySnoc(events, k);
      if events[n].op.key == k {
        var es := Only(events[..n], k);
        ServeAt(base, events[..n], k);
        OnlyFrom(events[..n], k);
        WriteOnce(At(base, k), es, events[n]);
        assert Only(events, k) == es + [events[n]];
      }
    }
  }

  /** The key was deleted in the very term it was written in. */
  ghost predicate ShortLived(base: Repo, events: seq<Event>, k: Key) {
    Brief(At(base, k), Only(events, k))
  }

  ghost predicate Brief(c: Option<Chunk>, es: seq<Event>) {
    || (c.Some? && |es| == 1 && es[0].term == c.value.term)
    || (c.None? && |es| == 2 && es[0].term == es[1].term)
  }

  /** With keys written once, replay rebuilds the node if and only if no key is short-lived. */
  lemma WrittenOnceRebuildsIff(base: Repo, events: seq<Event>)
    requires Legal(base, events)
    ensures SameContent(Replay(base, events), ServeAll(base, events)) <==> forall k :: !ShortLived(base, events, k)
  {
    forall k
      ensures Held(At(base, k), Only(events, k))
      ensures Steady(At(base, k), Only(events, k)) <==> !ShortLived(base, events, k)
    {
      LegalIsWrittenOnce(base, events, k);
      BriefIsUnsteady(At(base, k), Only(events, k));
    }
    hide Steady, Held, Legal, ShortLived;
    ReplayRebuildsServingIff(base, events);
    if forall k :: Steady(At(base, k), Only(events, k)) {
      forall k
        ensures !ShortLived(base, events, k)
      {
        assert Steady(At(base, k), Only(events, k));
      }
    }
    if forall k :: !ShortLived(base, events, k) {
      forall k
        ensures Steady(At(base, k), Only(events, k))
      {
        assert !ShortLived(base, events, k);
      }
    }
  }

  lemma BriefIsUnsteady(c: Option<Chunk>, es: seq<Event>)
    requires WrittenOnce(c, es)
    ensures Held(c, es) && (Steady(c, es) <==> !Brief(c, es))
  {
    if |es| == 1 {
      assert es[..0] == [];
      assert c.Some? ==> LastSet(c, es) == LastSet(c, []) == (c.value.id, c.value.size);
      assert LateDelete(es, Origin(c, es).term) <==> es[0].op.kind == Del && es[0].term > Origin(c, es).term;
    } else if |es| == 2 {
      assert es[..1] == [es[0]];
      assert LastSet(c, es) == LastSet(c, [es[0]]) == (es[0].op.id, es[0].op.size);
      if es[1].term > es[0].term {
        assert LateDelete(es, es[0].term);
      }
    }
  }

  // ----- difference rank -----

  lemma {:induction false} CountSetsConcat(a: seq<Event>, b: seq<Event>, above: nat)
    ensures CountSets(a + b, above) == CountSets(a, above) + CountSets(b, above)
  {
    if |b| == 0 {
      assert a + b == a;
    } else {
      assert (a + b)[..|a + b| - 1] == a + b[..|b| - 1];
      CountSetsConcat(a, b[..|b| - 1], above);
    }
  }

  lemma {:induction false} CountSetsAbove(events: seq<Event>, above: nat)
    ensures (forall i :: 0 <= i < |events| ==> events[i].term > above) ==>
      CountSets(events, above) == CountSets(events, 0)
    ensures (forall i :: 0 <= i < |events| ==> events[i].term <= above) ==> CountSets(events, above) == 0
  {
    if |events| > 0 {
      CountSetsAbove(events[..|events| - 1], above);
    }
  }

  /** The rank a replay ends with: reset to the snapshot's rank when there is one, then one for every set operation
      of a later term. */
  function ReplayRank(rank: nat, terms: seq<Term>): nat
    requires |terms| > 0
  {
    var fromSnapshot := if terms[0].diffRank > 0 then terms[0].term else 0;
    (if fromSnapshot > 0 then terms[0].diffRank else rank) + CountSets(Flatten(terms), fromSnapshot)
  }

  lemma {:induction false} FlattenConcat(a: seq<Term>, b: seq<Term>)
    ensures Flatten(a + b) == Flatten(a) + Flatten(b)
  {
    if |b| == 0 {
      assert a + b == a;
    } else {
      assert (a + b)[..|a + b| - 1] == a + b[..|b| - 1] && (a + b)[|a + b| - 1] == b[|b| - 1];
      FlattenConcat(a, b[..|b| - 1]);
      hide Events;
    }
  }

  /** Terms recovered later, without a snapshot, add their sets to the rank the node has: replaying in two parts ends
      with the rank of replaying all at once. */
  lemma LaterTermsAddRank(rank: nat, done: seq<Term>, rest: seq<Term>)
    requires |done| > 0 && |rest| > 0 && rest[0].diffRank == 0
    requires forall i :: 0 <= i < |Flatten(rest)| ==> Flatten(rest)[i].term > 0
    requires done[0].diffRank > 0 ==> forall i :: 0 <= i < |Flatten(rest)| ==> Flatten(rest)[i].term > done[0].term
    ensures ReplayRank(rank, rest) == rank + |set i | 0 <= i < |Flatten(rest)| && Flatten(rest)[i].op.kind == Set|
    ensures ReplayRank(ReplayRank(rank, done), rest) == ReplayRank(rank, done + rest)
  {
    FlattenConcat(done, rest);
    assert (done + rest)[0] == done[0];
    var d, r := Flatten(done), Flatten(rest);
    var from := if done[0].diffRank > 0 then done[0].term else 0;
    CountSetsConcat(d, r, from);
    CountSetsAbove(r, from);
    SetsCounted(r);
    hide Flatten, CountSets;
  }

  /** Counting goes over all positions that hold a set. */
  lemma {:induction false} SetsCounted(events: seq<Event>)
    requires forall i :: 0 <= i < |events| ==> events[i].term > 0
    ensures CountSets(events, 0) == |set i | 0 <= i < |events| && events[i].op.kind == Set|
  {
    var all := set i | 0 <= i < |events| && events[i].op.kind == Set;
    if |events| > 0 {
      var last := |events| - 1;
      SetsCounted(events[..last]);
      var before := set i | 0 <= i < |events[..last]| && events[..last][i].op.kind == Set;
      assert all == before + (if events[last].op.kind == Set then {last} else {});
    }
  }

  /** The rank comes out the same both ways: the snapshot recorded, when its last term was committed, the number of
      set operations of all its terms. */
  lemma SnapshotReplayRank(done: seq<Term>, rest: seq<Term>, ss: Term)
    requires |done| > 0 && done[0].diffRank == 0 && ss.term > 0
    requires ss.diffRank == CountSets(Flatten(done), 0) > 0
    requires forall i :: 0 <= i < |Flatten(rest)| ==> Flatten(rest)[i].term > ss.term
    ensures ReplayRank(0, [ss] + rest) == ReplayRank(0, done + rest)
  {
    var d, r := Flatten(done), Flatten(rest);
    FlattenConcat(done, rest);
    FlattenConcat([ss], rest);
    assert [ss][..0] == [];
    assert Flatten([ss]) == Events(ss.term, ss.ops);
    assert ([ss] + rest)[0] == ss && (done + rest)[0] == done[0];
    assert forall i :: 0 <= i < |Events(ss.term, ss.ops)| ==> Events(ss.term, ss.ops)[i].term <= ss.term;
    hide Flatten, CountSets, Events;
    CountSetsConcat(d, r, 0);
    CountSetsConcat(Events(ss.term, ss.ops), r, ss.term);
    CountSetsAbove(r, ss.term);
    CountSetsAbove(Events(ss.term, ss.ops), ss.term);
  }

  lemma {:induction false} OnlyFirst(events: seq<Event>)
    requires |events| > 0
    ensures var es := Only(events, events[0].op.key); |es| > 0 && es[0] == events[0]
  {
    if |events| > 1 {
      OnlyFirst(events[..|events| - 1]);
      OnlySnoc(events, events[0].op.key);
    } else {
      assert events[..0] == [];
    }
  }

  /** Any log that starts on an empty node, where nothing can be deleted that was not set, contains a set as soon as
      it contains anything, so its rank is positive and its snapshot is recognised as one. */
  lemma FirstIsSet(events: seq<Event>)
    requires |events| > 0 && events[0].term > 0 && Held(None, Only(events, events[0].op.key))
    ensures CountSets(events, 0) > 0
  {
    OnlyFirst(events);
    assert events[..1] + events[1..] == events && events[..1][..0] == [];
    CountSetsConcat(events[..1], events[1..], 0);
    assert CountSets(events[..1], 0) == 1;
  }

  // ----- the replay loop -----

  /** An operation of a term not above the chunk's own leaves the chunk alone. */
  lemma {:induction false} NewerChunksUntouched(repo: Repo, events: seq<Event>, metaTerm: nat, k: Key)
    requires forall i :: 0 <= i < |events| ==> events[i].term <= metaTerm
    requires k in repo && repo[k].term > metaTerm
    ensures k in Replay(repo, events) && Replay(repo, events)[k] == repo[k]
  {
    if |events| > 0 {
      NewerChunksUntouched(repo, events[..|events| - 1], metaTerm, k);
    }
  }

  lemma {:induction false} ReplayConcat(repo: Repo, a: seq<Event>, b: seq<Event>)
    ensures Replay(repo, a + b) == Replay(Replay(repo, a), b)
  {
    if |b| == 0 {
      assert a + b == a;
    } else {
      assert (a + b)[..|a + b| - 1] == a + b[..|b| - 1];
      ReplayConcat(repo, a, b[..|b| - 1]);
    }
  }

  lemma FlattenNext(terms: seq<Term>, i: nat)
    requires i < |terms|
    ensures Flatten(terms[..i + 1]) == Flatten(terms[..i]) + Events(terms[i].term, terms[i].ops)
  {
    assert terms[..i + 1][..i] == terms[..i];
  }

  class MainStorage {
    var repo: Repo
    var rank: nat

    constructor ()
      ensures repo == map[] && rank == 0
    {
      repo, rank := map[], 0;
    }

    /** doReplayLineage for the main repository: rebuilds repo and rank in place and returns the keys to download,
        each new key exactly once. */
    method DoReplayLineage(terms: seq<Term>) returns (tbds: seq<Key>)
      requires |terms| > 0
      modifies this
      ensures repo == Replay(old(repo), Flatten(terms))
      ensures rank == ReplayRank(old(rank), terms)
      ensures NoRepeats(tbds)
      ensures forall k :: k in tbds <==> k in repo && k !in old(repo)
    {
      assert terms[..0] == [] && Flatten([]) == [];
      assert Replay(repo, []) == repo && NoRepeats<Key>([]);
      hide Flatten, Replay, Events, NoRepeats;
      var fromSnapshot := if terms[0].diffRank > 0 then terms[0].term else 0;
      if fromSnapshot > 0 {
        rank := terms[0].diffRank;
      }
      ghost var base := rank;
      tbds := [];
      var i := 0;
      while i < |terms|
        invariant 0 <= i <= |terms|
        invariant repo == Replay(old(repo), Flatten(terms[..i]))
        invariant rank == base + CountSets(Flatten(terms[..i]), fromSnapshot)
        invariant NoRepeats(tbds)
        invariant old(repo).Keys <= repo.Keys && forall k :: k in tbds <==> k in repo && k !in old(repo)
      {
        tbds := ReplayTerm(terms[i], fromSnapshot, tbds, old(repo));
        FlattenNext(terms, i);
        ReplayConcat(old(repo), Flatten(terms[..i]), Events(terms[i].term, terms[i].ops));
        CountSetsConcat(Flatten(terms[..i]), Events(terms[i].term, terms[i].ops), fromSnapshot);
        i := i + 1;
      }
      assert terms[..i] == terms;
    }

    method ReplayTerm(term: Term, fromSnapshot: nat, tbds: seq<Key>, ghost initial: Repo) returns (added: seq<Key>)
      requires NoRepeats(tbds) && initial.Keys <= repo.Keys && forall k :: k in tbds <==> k in repo && k !in initial
      modifies this
      ensures repo == Replay(old(repo), Events(term.term, term.ops))
      ensures rank == old(rank) + CountSets(Events(term.term, term.ops), fromSnapshot)
      ensures NoRepeats(added) && initial.Keys <= repo.Keys && forall k :: k in added <==> k in repo && k !in initial
    {
      ghost var events := Events(term.term, term.ops);
      added := tbds;
      var i := 0;
      while i < |term.ops|
        invariant 0 <= i <= |term.ops|
        invariant repo == Replay(old(repo), events[..i])
        invariant rank == old(rank) + CountSets(events[..i], fromSnapshot)
        invariant NoRepeats(added) && initial.Keys <= repo.Keys
        invariant forall k :: k in added <==> k in repo && k !in initial
      {
        var op := term.ops[i];
        assert events[..i + 1][..i] == events[..i] && events[..i + 1][i] == Event(term.term, op);
        i := i + 1;
        if term.term > fromSnapshot && op.kind == Set {
          rank := rank + 1;
        }
        added := ReplayOne(term.term, op, added);
      }
      assert events[..i] == events;
    }

    /** One operation; a new key joins the list. */
    method ReplayOne(term: nat, op: Op, tbds: seq<Key>) returns (added: seq<Key>)
      modifies `repo
      ensures repo == ReplayOp(old(repo), Event(term, op)) && repo.Keys == old(repo).Keys + {op.key}
      ensures added == if op.key in old(repo) then tbds else tbds + [op.key]
    {
      added := tbds;
      if op.key in repo {
        if term <= repo[op.key].term {
          assert repo[op.key := repo[op.key]] == repo;
          return;
        }
        if op.kind == Del && !repo[op.key].deleted {
          repo := repo[op.key := repo[op.key].(term := term, deleted := true, body := false)];
        }
        return;
      }
      repo := repo[op.key := Chunk(op.id, op.size, term, op.kind == Del, false)];
      added := added + [op.key];
    }
  }

  /** A key set and deleted within one term: the whole log leaves it alive, the node had deleted it. */
  lemma ShortLivedKeyResurrected(k: Key)
    ensures var log := [Event(2, Op(Set, k, "0", 1)), Event(2, Op(Del, k, "0", 1))];
      && Legal(map[], log) && ShortLived(map[], log, k)
      && At(ServeAll(map[], log), k).Some? && At(ServeAll(map[], log), k).value.deleted
      && At(Replay(map[], log), k).Some? && !At(Replay(map[], log), k).value.deleted
  {
    var set1, del := Event(2, Op(Set, k, "0", 1)), Event(2, Op(Del, k, "0", 1));
    var log := [set1, del];
    assert log[..1] == [set1] && [set1][..0] == [];
    assert Only([set1], k) == [set1] && Only(log, k) == log;
    ServeAt(map[], [set1], k);
    ServeAt(map[], log, k);
    ReplayAt(map[], log, k);
    ServeFew(None, [set1]);
    ServeFew(None, log);
    ReplayFew(None, log);
    assert Legal(map[], []) && Legal(map[], [set1]);
  }

  /** A key set again after its deletion stays deleted after replay: it is not steady. */
  lemma SecondSetIsLost(k: Key)
    ensures var log := [Event(2, Op(Set, k, "0", 1)), Event(3, Op(Del, k, "0", 1)), Event(4, Op(Set, k, "0", 1))];
      && Held(None, Only(log, k)) && !Steady(None, Only(log, k))
      && !SameContent(Replay(map[], log), ServeAll(map[], log))
  {
    var a, b, c := Event(2, Op(Set, k, "0", 1)), Event(3, Op(Del, k, "0", 1)), Event(4, Op(Set, k, "0", 1));
    var log := [a, b, c];
    assert log[..2] == [a, b] && [a, b][..1] == [a] && [a][..0] == [];
    assert Only([a], k) == [a] && Only([a, b], k) == [a, b] && Only(log, k) == log;
    assert LateDelete(log, 2) by {
      assert log[1] == b;
    }
    SteadyDecides(map[], log, k);
  }
}
