/** Snapshots of the main repository, lambda/storage/lineage_storage.go, and when a snapshot followed by the later
    terms recovers what all terms recover. */
module LineageSnapshot {
  import opened Common
  import opened LineageReplay

  /** Chunk.Op: a chunk without bytes counts as deleted. */
  function OpOf(key: Key, c: Chunk): Op {
    Op(if !c.body && c.size > 0 then Del else Set, key, c.id, c.size)
  }

  /** The operations of a snapshot of the repository up to a term, in whatever order the hash map yields its
      entries. */
  ghost predicate Enumerates(ops: seq<Op>, repo: Repo, upTo: nat) {
    && (forall i :: 0 <= i < |ops| ==>
          ops[i].key in repo && repo[ops[i].key].term <= upTo && ops[i] == OpOf(ops[i].key, repo[ops[i].key]))
    && (forall k :: k in repo && repo[k].term <= upTo ==> HasKey(ops, k))
  }

  ghost predicate HasKey(ops: seq<Op>, k: Key) {
    exists i :: 0 <= i < |ops| && ops[i].key == k
  }

  /** What a snapshot keeps of a chunk. */
  function Kept(c: Option<Chunk>, upTo: nat): Option<Chunk> {
    if c.Some? && c.value.term <= upTo
    then Some(Chunk(c.value.id, c.value.size, upTo, OpOf("", c.value).kind == Del, false))
    else None
  }

  lemma {:induction false} SnapshotKey(ops: seq<Op>, repo: Repo, upTo: nat, k: Key)
    requires forall i :: 0 <= i < |ops| ==> ops[i].key in repo && ops[i] == OpOf(ops[i].key, repo[ops[i].key])
    ensures At(Replay(map[], Events(upTo, ops)), k) ==
      if HasKey(ops, k) then Some(Chunk(repo[k].id, repo[k].size, upTo, OpOf("", repo[k]).kind == Del, false)) else None
  {
    if |ops| > 0 {
      var n := |ops| - 1;
      assert Events(upTo, ops)[..n] == Events(upTo, ops[..n]);
      SnapshotKey(ops[..n], repo, upTo, k);
      assert HasKey(ops, k) <==> HasKey(ops[..n], k) || k == ops[n].key by {
        if HasKey(ops, k) && k != ops[n].key {
          var i :| 0 <= i < |ops| && ops[i].key == k;
          assert ops[..n][i].key == k;
        }
        if HasKey(ops[..n], k) {
          var i :| 0 <= i < n && ops[..n][i].key == k;
          assert ops[i].key == k;
        }
      }
    }
  }

  lemma SnapshotAt(ops: seq<Op>, repo: Repo, upTo: nat, k: Key)
    requires Enumerates(ops, repo, upTo)
    ensures At(Replay(map[], Events(upTo, ops)), k) == Kept(At(repo, k), upTo)
    ensures HasKey(ops, k) <==> Kept(At(repo, k), upTo).Some?
  {
    SnapshotKey(ops, repo, upTo, k);
    if HasKey(ops, k) {
      var i :| 0 <= i < |ops| && ops[i].key == k;
      assert repo[k].term <= upTo;
    }
  }

  /** Replaying a snapshot alone restores the repository it was taken of, if and only if every chunk without bytes,
      and no other, is deleted. */
  lemma SnapshotRestoresIff(ops: seq<Op>, repo: Repo, upTo: nat)
    requires Enumerates(ops, repo, upTo)
    requires forall k :: k in repo ==> repo[k].term <= upTo && repo[k].size > 0
    ensures SameContent(Replay(map[], Events(upTo, ops)), repo) <==>
      forall k :: k in repo ==> repo[k].deleted == !repo[k].body
  {
    var r := Replay(map[], Events(upTo, ops));
    forall k
      ensures SameChunk(At(r, k), At(repo, k)) <==> (k in repo ==> repo[k].deleted == !repo[k].body)
    {
      SnapshotAt(ops, repo, upTo, k);
    }
    hide SameChunk, Enumerates;
    if SameContent(r, repo) {
      forall k | k in repo
        ensures repo[k].deleted == !repo[k].body
      {
        assert SameChunk(At(r, k), At(repo, k));
      }
    }
  }

  // ----- snapshot plus later terms against the whole log -----

  /** Live chunks, and only those, are in memory, and none is empty. */
  ghost predicate SoundChunk(c: Option<Chunk>) {
    c.Some? ==> c.value.size > 0 && c.value.deleted == !c.value.body
  }

  ghost predicate Sound(base: Repo) {
    forall k :: SoundChunk(At(base, k))
  }

  predicate HasDelete(events: seq<Event>) {
    exists i :: 0 <= i < |events| && events[i].op.kind == Del
  }

  /** When both recoveries of one key agree; b is what the node started with, served what it served since, log all
      the log tells of the key and r the part of it after the snapshot. The whole log keeps the first it tells. A
      snapshot that lists the key keeps the last the node had, and any later delete counts against that; one that
      does not list it leaves the key to r. */
  ghost predicate RecoversAlike(b: Option<Chunk>, served: seq<Event>, log: seq<Event>, r: seq<Event>, listed: bool) {
    if b.None? && |log| == 0 then !listed
    else if listed then
      && (b.Some? || |served| > 0)
      && Late(b, log) == (Gone(b, served) || HasDelete(r))
      && (Origin(b, log).id, Origin(b, log).size) == LastSet(b, served)
    else
      && |r| > 0
      && Late(b, log) == Late(None, r)
      && (Origin(b, log).id, Origin(b, log).size) == (r[0].op.id, r[0].op.size)
  }

  lemma {:induction false} ServingStaysSound(c: Option<Chunk>, events: seq<Event>)
    requires SoundChunk(c) && forall i :: 0 <= i < |events| ==> events[i].op.size > 0
    ensures SoundChunk(ServeKey(c, events))
  {
    if |events| > 0 {
      ServingStaysSound(c, events[..|events| - 1]);
    }
  }

  lemma KeyAlikeIff(b: Option<Chunk>, served: seq<Event>, d: seq<Event>, r: seq<Event>, upTo: nat)
    requires SoundChunk(b) && Held(b, served) && forall i :: 0 <= i < |served| ==> served[i].op.size > 0
    requires forall i :: 0 <= i < |r| ==> r[i].term > upTo
    ensures var kept := Kept(ServeKey(b, served), upTo);
      SameChunk(ReplayKey(b, d + r), ReplayKey(kept, r)) <==> RecoversAlike(b, served, d + r, r, kept.Some?)
  {
    var now := ServeKey(b, served);
    ServingStaysSound(b, served);
    if b.Some? || |d + r| > 0 {
      ReplayKeepsFirst(b, d + r);
    }
    if b.Some? || |served| > 0 {
      ServeKeepsLast(b, served);
    }
    var kept := Kept(now, upTo);
    if kept.Some? {
      ReplayKeepsFirst(kept, r);
      assert LateDelete(r, upTo) <==> HasDelete(r);
    } else if |r| > 0 {
      ReplayKeepsFirst(None, r);
    }
    hide LateDelete, HasDelete, Late, Gone, LastSet, Held;
  }

  /** The snapshot was taken of the node that started with base, which holds every one of its chunks, and has served
      anything since, under whatever labels: operations of the log, operations on their way to it, sets whose upload
      failed and which no term will ever carry. */
  ghost predicate SnapshotOfAny(base: Repo, served: seq<Event>, rest: seq<Event>, upTo: nat, ops: seq<Op>) {
    && Sound(base) && (forall k :: Held(At(base, k), Only(served, k)))
    && (forall i :: 0 <= i < |served| ==> served[i].op.size > 0)
    && (forall i :: 0 <= i < |rest| ==> rest[i].term > upTo)
    && Enumerates(ops, ServeAll(base, served), upTo)
  }

  ghost predicate KeyRecoversAlike(base: Repo, served: seq<Event>, done: seq<Event>, rest: seq<Event>, ops: seq<Op>,
                                   k: Key) {
    RecoversAlike(At(base, k), Only(served, k), Only(done + rest, k), Only(rest, k), HasKey(ops, k))
  }

  /** Both recoveries of one key, by its own events. */
  lemma RecoveriesAt(base: Repo, served: seq<Event>, done: seq<Event>, rest: seq<Event>, upTo: nat, ops: seq<Op>,
                     k: Key)
    requires Enumerates(ops, ServeAll(base, served), upTo)
    ensures var kept := Kept(ServeKey(At(base, k), Only(served, k)), upTo);
      && At(Replay(base, done + rest), k) == ReplayKey(At(base, k), Only(done, k) + Only(rest, k))
      && At(Replay(map[], Events(upTo, ops) + rest), k) == ReplayKey(kept, Only(rest, k))
      && (HasKey(ops, k) <==> kept.Some?)
  {
    hide Kept, Only, ReplayKey, ServeKey, Enumerates, Replay, ServeAll, Events;
    OnlyConcat(done, rest, k);
    ReplayAt(base, done + rest, k);
    ReplayConcat(map[], Events(upTo, ops), rest);
    ReplayAt(Replay(map[], Events(upTo, ops)), rest, k);
    ServeAt(base, served, k);
    SnapshotAt(ops, ServeAll(base, served), upTo, k);
  }

  lemma KeyRecovers(base: Repo, served: seq<Event>, done: seq<Event>, rest: seq<Event>, upTo: nat, ops: seq<Op>, k: Key)
    requires SnapshotOfAny(base, served, rest, upTo, ops)
    ensures SameChunk(At(Replay(base, done + rest), k), At(Replay(map[], Events(upTo, ops) + rest), k)) <==>
      KeyRecoversAlike(base, served, done, rest, ops, k)
  {
    var b, d, r, sv := At(base, k), Only(done, k), Only(rest, k), Only(served, k);
    OnlyFrom(served, k);
    OnlyFrom(rest, k);
    OnlyConcat(done, rest, k);
    assert SoundChunk(b) && Held(b, sv);
    assert forall i :: 0 <= i < |sv| ==> sv[i].op.size > 0;
    assert forall i :: 0 <= i < |r| ==> r[i].term > upTo;
    hide RecoversAlike, SameChunk, Kept, Only, ReplayKey, ServeKey, Sound, SoundChunk, Held, Enumerates;
    KeyAlikeIff(b, sv, d, r, upTo);
    RecoveriesAt(base, served, done, rest, upTo, ops, k);
  }

  /** The law for any log and any memory: keys deleted and set again at will, by a node that started empty or was
      recovered, with operations in memory that reach the log later or never. The snapshot and the later terms
      recover what all terms do if and only if each key recovers alike, a condition on its events in the log, what
      the node served of it, and whether the snapshot lists it. */
  lemma AnySnapshotEquivalentIff(base: Repo, served: seq<Event>, done: seq<Event>, rest: seq<Event>, upTo: nat,
                                 ops: seq<Op>)
    requires SnapshotOfAny(base, served, rest, upTo, ops)
    ensures SameContent(Replay(base, done + rest), Replay(map[], Events(upTo, ops) + rest)) <==>
      forall k :: KeyRecoversAlike(base, served, done, rest, ops, k)
  {
    var f, s := Replay(base, done + rest), Replay(map[], Events(upTo, ops) + rest);
    forall k
      ensures SameChunk(At(f, k), At(s, k)) <==> KeyRecoversAlike(base, served, done, rest, ops, k)
    {
      KeyRecovers(base, served, done, rest, upTo, ops, k);
    }
    hide SameChunk, KeyRecoversAlike, SnapshotOfAny, Replay;
    if SameContent(f, s) {
      forall k
        ensures KeyRecoversAlike(base, served, done, rest, ops, k)
      {
        assert SameChunk(At(f, k), At(s, k));
      }
    }
    if forall k :: KeyRecoversAlike(base, served, done, rest, ops, k) {
      forall k
        ensures SameChunk(At(f, k), At(s, k))
      {
        assert KeyRecoversAlike(base, served, done, rest, ops, k);
      }
    }
  }

  // ----- keys that are written once -----

  /** mem has the first operations of rest. */
  ghost predicate SameOps(mem: seq<Event>, rest: seq<Event>) {
    |mem| <= |rest| && forall i :: 0 <= i < |mem| ==> mem[i].op == rest[i].op
  }

  lemma OnlySameOps(mem: seq<Event>, rest: seq<Event>, k: Key)
    requires SameOps(mem, rest)
    ensures SameOps(Only(mem, k), Only(rest, k))
  {
    var p := |mem|;
    assert rest == rest[..p] + rest[p..];
    hide Only;
    OnlyConcat(rest[..p], rest[p..], k);
    OnlySameLength(mem, rest[..p], k);
  }

  lemma {:induction false} OnlySameLength(a: seq<Event>, b: seq<Event>, k: Key)
    requires |a| == |b| && forall i :: 0 <= i < |a| ==> a[i].op == b[i].op
    ensures |Only(a, k)| == |Only(b, k)| && forall i :: 0 <= i < |Only(a, k)| ==> Only(a, k)[i].op == Only(b, k)[i].op
  {
    if |a| > 0 {
      OnlySameLength(a[..|a| - 1], b[..|b| - 1], k);
    }
  }

  /** A key that is set once and deleted at most once afterwards: b what the node started with, d its events up to
      the snapshot, r the later ones. The node has served those of d and some more, whose labels are whatever they
      were given, because the term of an operation is fixed when it is persisted. If the upload of its set failed,
      the log has at most the deletion. */
  ghost predicate Wrote(b: Option<Chunk>, served: seq<Event>, d: seq<Event>, r: seq<Event>, failed: bool) {
    var p := if failed then 1 else 0;
    && p + |d| <= |served| && served[p..p + |d|] == d && SameOps(served[p + |d|..], r)
    && if failed then
         && b.None? && served[0].op.kind == Set && served[0].op.size > 0 && |d + r| <= 1
         && forall i :: 0 <= i < |d + r| ==>
              var op := (d + r)[i].op; op.kind == Del && op.id == served[0].op.id && op.size == served[0].op.size
       else WrittenOnce(b, d + r)
  }

  ghost predicate InTerms(b: Option<Chunk>, d: seq<Event>, r: seq<Event>, upTo: nat) {
    && (b.Some? ==> b.value.term <= upTo)
    && (forall i :: 0 <= i < |d| ==> d[i].term <= upTo)
    && (forall i :: 0 <= i < |r| ==> r[i].term > upTo)
  }

  lemma {:induction false} ServeConcat(c: Option<Chunk>, a: seq<Event>, b: seq<Event>)
    ensures ServeKey(c, a + b) == ServeKey(ServeKey(c, a), b)
  {
    if |b| == 0 {
      assert a + b == a;
    } else {
      assert (a + b)[..|a + b| - 1] == a + b[..|b| - 1];
      ServeConcat(c, a, b[..|b| - 1]);
    }
  }

  lemma LoggedKeyIff(b: Option<Chunk>, served: seq<Event>, d: seq<Event>, r: seq<Event>, upTo: nat)
    requires Wrote(b, served, d, r, false) && SoundChunk(b) && InTerms(b, d, r, upTo)
    ensures var kept := Kept(ServeKey(b, served), upTo);
      SameChunk(ReplayKey(b, d + r), ReplayKey(kept, r)) <==> !(kept.Some? && Brief(b, d + r))
  {
    var m := served[|d|..];
    assert served == d + m;
    hide ServeKey, ReplayKey, WrittenOnce, Brief, SameChunk, Kept;
    ServeConcat(b, d, m);
    LoggedSplit(b, d, r, m, upTo);
  }

  lemma LoggedSplit(b: Option<Chunk>, d: seq<Event>, r: seq<Event>, m: seq<Event>, upTo: nat)
    requires WrittenOnce(b, d + r) && SameOps(m, r) && SoundChunk(b) && InTerms(b, d, r, upTo)
    ensures var kept := Kept(ServeKey(ServeKey(b, d), m), upTo);
      SameChunk(ReplayKey(b, d + r), ReplayKey(kept, r)) <==> !(kept.Some? && Brief(b, d + r))
  {
    var es := d + r;
    ServeFew(b, d);
    ServeFew(ServeKey(b, d), m);
    ReplayFew(b, es);
    ReplayFew(Kept(ServeKey(ServeKey(b, d), m), upTo), r);
    hide ServeKey, ReplayKey;
    assert forall i :: 0 <= i < |d| ==> es[i] == d[i];
    assert forall i :: 0 <= i < |r| ==> es[|d| + i] == r[i];
    if |d| == 0 {
      assert es == r;
    } else if |r| == 0 {
      assert es == d;
    }
  }

  lemma FailedKeyIff(b: Option<Chunk>, served: seq<Event>, d: seq<Event>, r: seq<Event>, upTo: nat)
    requires Wrote(b, served, d, r, true) && InTerms(b, d, r, upTo)
    ensures var kept := Kept(ServeKey(b, served), upTo);
      SameChunk(ReplayKey(b, d + r), ReplayKey(kept, r)) <==> !(kept.Some? && |d + r| == 0)
  {
    var es := d + r;
    ServeFew(b, served);
    ReplayFew(b, es);
    ReplayFew(Kept(ServeKey(b, served), upTo), r);
    hide ServeKey, ReplayKey;
    assert forall i :: 0 <= i < |d| ==> es[i] == d[i] == served[1..1 + |d|][i] == served[1 + i];
    assert forall i :: 0 <= i < |r| ==> es[|d| + i] == r[i];
    assert forall i :: 1 + |d| <= i < |served| ==> served[1 + |d|..][i - 1 - |d|] == served[i];
  }

  ghost predicate SnapshotOf(base: Repo, served: seq<Event>, done: seq<Event>, rest: seq<Event>, failed: set<Key>,
                             upTo: nat, ops: seq<Op>) {
    && Sound(base) && Enumerates(ops, ServeAll(base, served), upTo)
    && forall k ::
         && InTerms(At(base, k), Only(done, k), Only(rest, k), upTo)
         && Wrote(At(base, k), Only(served, k), Only(done, k), Only(rest, k), k in failed)
  }

  /** A log that a node produces with keys written once, and a memory all of which reaches it. */
  lemma LoggedMemory(base: Repo, done: seq<Event>, rest: seq<Event>, mem: seq<Event>, upTo: nat, ops: seq<Op>)
    requires Sound(base) && Legal(base, done + rest) && SameOps(mem, rest)
    requires forall k :: k in base ==> base[k].term <= upTo
    requires forall i :: 0 <= i < |done| ==> done[i].term <= upTo
    requires forall i :: 0 <= i < |rest| ==> rest[i].term > upTo
    requires Enumerates(ops, ServeAll(base, done + mem), upTo)
    ensures SnapshotOf(base, done + mem, done, rest, {}, upTo, ops)
  {
    hide Wrote, InTerms, Legal, Only, ServeAll, Enumerates;
    forall k
      ensures InTerms(At(base, k), Only(done, k), Only(rest, k), upTo)
      ensures Wrote(At(base, k), Only(done + mem, k), Only(done, k), Only(rest, k), false)
    {
      LoggedMemoryKey(base, done, rest, mem, upTo, k);
    }
  }

  lemma LoggedMemoryKey(base: Repo, done: seq<Event>, rest: seq<Event>, mem: seq<Event>, upTo: nat, k: Key)
    requires Legal(base, done + rest) && SameOps(mem, rest) && (forall k :: k in base ==> base[k].term <= upTo)
    requires forall i :: 0 <= i < |done| ==> done[i].term <= upTo
    requires forall i :: 0 <= i < |rest| ==> rest[i].term > upTo
    ensures InTerms(At(base, k), Only(done, k), Only(rest, k), upTo)
    ensures Wrote(At(base, k), Only(done + mem, k), Only(done, k), Only(rest, k), false)
  {
    hide Legal, Only, WrittenOnce;
    OnlyFrom(done, k);
    OnlyFrom(rest, k);
    LegalIsWrittenOnce(base, done + rest, k);
    OnlyConcat(done, rest, k);
    OnlyConcat(done, mem, k);
    OnlySameOps(mem, rest, k);
    var d, m := Only(done, k), Only(mem, k);
    assert (d + m)[0..0 + |d|] == d && (d + m)[0 + |d|..] == m;
  }

  /** What a snapshot must not list: a key deleted in the term it was set in, or one whose set never reached the log
      and whose deletion did not either. */
  ghost predicate Harmful(base: Repo, log: seq<Event>, failed: set<Key>, k: Key) {
    if k in failed then Only(log, k) == [] else ShortLived(base, log, k)
  }

  lemma SnapshotReplayKey(base: Repo, served: seq<Event>, done: seq<Event>, rest: seq<Event>, failed: set<Key>,
                          upTo: nat, ops: seq<Op>, k: Key)
    requires SnapshotOf(base, served, done, rest, failed, upTo, ops)
    ensures SameChunk(At(Replay(base, done + rest), k), At(Replay(map[], Events(upTo, ops) + rest), k)) <==>
      !(HasKey(ops, k) && Harmful(base, done + rest, failed, k))
  {
    var b, d, r, sv := At(base, k), Only(done, k), Only(rest, k), Only(served, k);
    assert SoundChunk(b) && InTerms(b, d, r, upTo) && Wrote(b, sv, d, r, k in failed);
    hide Wrote, InTerms, Brief, SameChunk, Kept, Only, ReplayKey, ServeKey, SoundChunk, Enumerates;
    OnlyConcat(done, rest, k);
    if k in failed {
      FailedKeyIff(b, sv, d, r, upTo);
    } else {
      LoggedKeyIff(b, sv, d, r, upTo);
    }
    RecoveriesAt(base, served, done, rest, upTo, ops, k);
  }

  /** With keys written once: recovering from the snapshot and the later terms gives the same live and deleted keys,
      ids and sizes as recovering from all terms, whatever was in memory when the snapshot was taken, if and only if
      the snapshot lists no key that was set and deleted within one term and none whose upload failed, unless its
      deletion reached the log. */
  lemma SnapshotReplayEquivalentIff(base: Repo, served: seq<Event>, done: seq<Event>, rest: seq<Event>,
                                    failed: set<Key>, upTo: nat, ops: seq<Op>)
    requires SnapshotOf(base, served, done, rest, failed, upTo, ops)
    ensures SameContent(Replay(base, done + rest), Replay(map[], Events(upTo, ops) + rest)) <==>
      forall k :: HasKey(ops, k) ==> !Harmful(base, done + rest, failed, k)
  {
    var f, s := Replay(base, done + rest), Replay(map[], Events(upTo, ops) + rest);
    forall k
      ensures SameChunk(At(f, k), At(s, k)) <==> !(HasKey(ops, k) && Harmful(base, done + rest, failed, k))
    {
      SnapshotReplayKey(base, served, done, rest, failed, upTo, ops, k);
    }
    hide SameChunk, HasKey, Harmful, SnapshotOf, At, Replay;
    if SameContent(f, s) {
      forall k | HasKey(ops, k)
        ensures !Harmful(base, done + rest, failed, k)
      {
        assert SameChunk(At(f, k), At(s, k));
      }
    }
  }

  /** Everything served of the key that is not in the log yet, or never will be, is labelled after the snapshot. */
  ghost predicate LabelledLater(served: seq<Event>, d: seq<Event>, failed: bool, upTo: nat) {
    forall i :: 0 <= i < |served| && (i < (if failed then 1 else 0) || i >= (if failed then 1 else 0) + |d|) ==>
      served[i].term > upTo
  }

  /** When everything in memory that is not in the log is labelled with a term after the snapshot's, only keys of the
      snapshot's own terms matter. */
  lemma LaterLabelsAreHarmless(base: Repo, served: seq<Event>, done: seq<Event>, rest: seq<Event>, failed: set<Key>,
                               upTo: nat, ops: seq<Op>)
    requires SnapshotOf(base, served, done, rest, failed, upTo, ops)
    requires forall k :: LabelledLater(Only(served, k), Only(done, k), k in failed, upTo)
    ensures SameContent(Replay(base, done + rest), Replay(map[], Events(upTo, ops) + rest)) <==>
      forall k :: !ShortLived(base, done, k)
  {
    forall k
      ensures HasKey(ops, k) && Harmful(base, done + rest, failed, k) <==> ShortLived(base, done, k)
    {
      LaterLabelsKey(base, served, done, rest, failed, upTo, ops, k);
    }
    hide ShortLived, Harmful, SnapshotOf, HasKey, SameContent, LabelledLater;
    SnapshotReplayEquivalentIff(base, served, done, rest, failed, upTo, ops);
    if forall k :: HasKey(ops, k) ==> !Harmful(base, done + rest, failed, k) {
      forall k
        ensures !ShortLived(base, done, k)
      {
        assert HasKey(ops, k) ==> !Harmful(base, done + rest, failed, k);
      }
    }
    if forall k :: !ShortLived(base, done, k) {
      forall k | HasKey(ops, k)
        ensures !Harmful(base, done + rest, failed, k)
      {
        assert !ShortLived(base, done, k);
      }
    }
  }

  lemma LaterLabelsKey(base: Repo, served: seq<Event>, done: seq<Event>, rest: seq<Event>, failed: set<Key>, upTo: nat,
                       ops: seq<Op>, k: Key)
    requires SnapshotOf(base, served, done, rest, failed, upTo, ops)
    requires LabelledLater(Only(served, k), Only(done, k), k in failed, upTo)
    ensures HasKey(ops, k) && Harmful(base, done + rest, failed, k) <==> ShortLived(base, done, k)
  {
    var b, d, r, sv := At(base, k), Only(done, k), Only(rest, k), Only(served, k);
    assert InTerms(b, d, r, upTo) && Wrote(b, sv, d, r, k in failed);
    hide Wrote, InTerms, Brief, Kept, Only, ReplayKey, ServeKey, Enumerates, LabelledLater;
    OnlyConcat(done, rest, k);
    RecoveriesAt(base, served, done, rest, upTo, ops, k);
    if k in failed {
      LaterFailed(b, sv, d, r, upTo);
    } else {
      LaterLogged(b, sv, d, r, upTo);
    }
  }

  lemma LaterFailed(b: Option<Chunk>, served: seq<Event>, d: seq<Event>, r: seq<Event>, upTo: nat)
    requires Wrote(b, served, d, r, true) && InTerms(b, d, r, upTo) && LabelledLater(served, d, true, upTo)
    ensures Kept(ServeKey(b, served), upTo).Some? && |d + r| == 0 <==> Brief(b, d)
    ensures |d + r| == 0 <==> d + r == []
  {
    ServeFew(b, served);
  }

  lemma LaterLogged(b: Option<Chunk>, served: seq<Event>, d: seq<Event>, r: seq<Event>, upTo: nat)
    requires Wrote(b, served, d, r, false) && InTerms(b, d, r, upTo) && LabelledLater(served, d, false, upTo)
    ensures Kept(ServeKey(b, served), upTo).Some? && Brief(b, d + r) <==> Brief(b, d)
  {
    var es := d + r;
    ServeFew(b, served);
    assert forall i :: 0 <= i < |d| ==> es[i] == d[i] == served[..|d|][i] == served[i];
    assert forall i :: 0 <= i < |r| ==> es[|d| + i] == r[i];
    if |d| == 0 {
      assert es == r;
    } else if |r| == 0 {
      assert es == d;
    }
  }

  /** A node has served two sets, and the upload of the second failed. The snapshot lists the chunk it still holds,
      so it recovers a key that no term carries. */
  lemma FailedUploadResurfaces(a: Event, b: Event, upTo: nat)
    requires a.op.kind == Set && b.op.kind == Set && a.op.key != b.op.key && a.op.size > 0 && b.op.size > 0
    requires a.term <= upTo && b.term <= upTo
    ensures SnapshotOf(map[], [a] + [b], [a], [], {b.op.key}, upTo, [a.op, b.op])
    ensures At(Replay(map[], [a]), b.op.key).None? && At(Replay(map[], Events(upTo, [a.op, b.op])), b.op.key).Some?
  {
    hide ServeAll, Enumerates, Wrote, InTerms, Only, Replay, Kept;
    BothListed(a, b, upTo);
    forall x
      ensures InTerms(None, Only([a], x), Only([], x), upTo)
      ensures Wrote(None, Only([a] + [b], x), Only([a], x), Only([], x), x in {b.op.key})
    {
      OnlyOfTwo(a, b, x);
      TwoWritten(a, b, x, upTo);
    }
    OnlyOfTwo(a, b, b.op.key);
    ReplayAt(map[], [a], b.op.key);
    SnapshotAt([a.op, b.op], ServeAll(map[], [a] + [b]), upTo, b.op.key);
  }

  lemma TwoWritten(a: Event, b: Event, x: Key, upTo: nat)
    requires a.op.kind == Set && b.op.kind == Set && a.op.key != b.op.key && a.op.size > 0 && b.op.size > 0
    requires a.term <= upTo
    ensures Only([], x) == []
    ensures var d := if x == a.op.key then [a] else [];
      && InTerms(None, d, [], upTo)
      && Wrote(None, if x == a.op.key then [a] else if x == b.op.key then [b] else [], d, [], x in {b.op.key})
  {
  }

  lemma BothListed(a: Event, b: Event, upTo: nat)
    requires a.op.kind == Set && b.op.kind == Set && a.op.key != b.op.key && a.term <= upTo && b.term <= upTo
    ensures Enumerates([a.op, b.op], ServeAll(map[], [a] + [b]), upTo)
    ensures Kept(At(ServeAll(map[], [a] + [b]), b.op.key), upTo).Some?
  {
    BothServed(a, b);
    hide ServeAll;
    var ops := [a.op, b.op];
    assert ops[0].key == a.op.key && ops[1].key == b.op.key;
    assert HasKey(ops, a.op.key) && HasKey(ops, b.op.key);
  }

  lemma BothServed(a: Event, b: Event)
    requires a.op.kind == Set && b.op.kind == Set && a.op.key != b.op.key
    ensures ServeAll(map[], [a] + [b]) ==
      map[a.op.key := Chunk(a.op.id, a.op.size, a.term, false, true),
          b.op.key := Chunk(b.op.id, b.op.size, b.term, false, true)]
  {
    var both := [a] + [b];
    assert [a][..0] == [] && both[..1] == [a] && both[1] == b;
    assert ServeAll(map[], [a]) == Serve(map[], a);
    assert ServeAll(map[], both) == Serve(ServeAll(map[], [a]), b);
  }

  lemma OnlyOfTwo(a: Event, b: Event, x: Key)
    requires a.op.key != b.op.key
    ensures Only([a], x) == if x == a.op.key then [a] else []
    ensures Only([a] + [b], x) == if x == a.op.key then [a] else if x == b.op.key then [b] else []
  {
    assert [a][..0] == [] && [b][..0] == [];
    OnlyConcat([a], [b], x);
    assert Only([b], x) == if x == b.op.key then [b] else [];
  }

  // ----- the snapshot of a node that was itself recovered -----

  /** A repository after its live chunks have been downloaded. */
  function Restored(repo: Repo): Repo {
    map k | k in repo :: repo[k].(body := !repo[k].deleted)
  }

  lemma {:induction false} RestoringDoesNotMatter(repo: Repo, events: seq<Event>)
    ensures SameContent(Replay(Restored(repo), events), Replay(repo, events))
    ensures forall k :: k in Replay(repo, events) && k in Replay(Restored(repo), events) ==>
      Replay(Restored(repo), events)[k].term == Replay(repo, events)[k].term
  {
    if |events| > 0 {
      var n := |events| - 1;
      RestoringDoesNotMatter(repo, events[..n]);
      var a, b := Replay(Restored(repo), events[..n]), Replay(repo, events[..n]);
      assert SameChunk(At(a, events[n].op.key), At(b, events[n].op.key));
      forall k
        ensures SameChunk(At(Replay(Restored(repo), events), k), At(Replay(repo, events), k))
      {
        assert SameChunk(At(a, k), At(b, k));
      }
    }
  }

  /** Bytes do not matter to replay, so the log of a recovered node may be replayed from what it was recovered to. */
  lemma FromRecovered(earlier: seq<Event>, done: seq<Event>, rest: seq<Event>, x: Repo)
    ensures SameContent(Replay(map[], earlier + done + rest), x) <==>
      SameContent(Replay(Restored(Replay(map[], earlier)), done + rest), x)
  {
    hide SameContent, Replay, Restored;
    var start := Replay(map[], earlier);
    RestoringDoesNotMatter(start, done + rest);
    ReplayConcat(map[], earlier, done + rest);
    assert earlier + done + rest == earlier + (done + rest);
    SameContentSwap(Replay(Restored(start), done + rest), Replay(start, done + rest), x);
  }

  /** The same law for a node that was rebuilt from the log so far and went on serving: a snapshot it takes and the
      later terms recover what the whole log does, if and only if the snapshot lists no key that is harmful since the
      recovery. */
  lemma RecoveredSnapshotEquivalentIff(earlier: seq<Event>, served: seq<Event>, done: seq<Event>, rest: seq<Event>,
                                       failed: set<Key>, upTo: nat, ops: seq<Op>)
    requires SnapshotOf(Restored(Replay(map[], earlier)), served, done, rest, failed, upTo, ops)
    ensures SameContent(Replay(map[], earlier + done + rest), Replay(map[], Events(upTo, ops) + rest)) <==>
      forall k :: HasKey(ops, k) ==> !Harmful(Restored(Replay(map[], earlier)), done + rest, failed, k)
  {
    hide SnapshotOf, SameContent, Replay, Restored, Harmful, HasKey, Events;
    SnapshotReplayEquivalentIff(Restored(Replay(map[], earlier)), served, done, rest, failed, upTo, ops);
    FromRecovered(earlier, done, rest, Replay(map[], Events(upTo, ops) + rest));
  }

  lemma SameContentSwap(a: Repo, b: Repo, c: Repo)
    requires SameContent(a, b)
    ensures SameContent(a, c) <==> SameContent(b, c)
  {
    forall k
      ensures SameChunk(At(a, k), At(c, k)) <==> SameChunk(At(b, k), At(c, k))
    {
      assert SameChunk(At(a, k), At(b, k));
    }
  }
}
