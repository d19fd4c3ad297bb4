/** The hash-chained term log and its window of unconfirmed terms, lambda/storage/lineage_storage.go. The digest is a
    free constructor, so it has no collisions; the compressed size of a term is an input of the commit. */
module LineageLog {
  import opened LineageReplay

  datatype Digest = NoHash | Sha256(term: nat, updates: nat, ops: seq<Op>, previous: Digest)

  /** A committed term: updates is the number of bytes of all terms before it. */
  datatype Record = Record(term: nat, updates: nat, ops: seq<Op>, size: nat, hash: Digest)

  /** What the proxy knows about the lineage. */
  datatype Meta = Meta(term: nat, hash: Digest)

  datatype Verdict = Consistent | ConsistentWithHistoryTerm | Inconsistent

  // ----- the chain -----

  function TotalSize(history: seq<Record>): nat {
    if |history| == 0 then 0 else TotalSize(history[..|history| - 1]) + history[|history| - 1].size
  }

  function TopHash(history: seq<Record>): Digest {
    if |history| == 0 then NoHash else history[|history| - 1].hash
  }

  function AllOps(history: seq<Record>): seq<Op> {
    if |history| == 0 then [] else AllOps(history[..|history| - 1]) + history[|history| - 1].ops
  }

  /** Number of set operations, what the difference rank counts. */
  function SetsIn(ops: seq<Op>): nat {
    CountSets(Events(1, ops), 0)
  }

  lemma OneMore(ops: seq<Op>, op: Op)
    ensures SetsIn(ops + [op]) == SetsIn(ops) + (if op.kind == Set then 1 else 0)
  {
    assert Events(1, ops + [op])[..|ops|] == Events(1, ops);
  }

  /** The terms as recovery downloads them. */
  function TermsOf(history: seq<Record>): seq<Term> {
    if |history| == 0 then []
    else TermsOf(history[..|history| - 1]) + [Term(history[|history| - 1].term, history[|history| - 1].ops, 0)]
  }

  lemma SetsConcat(a: seq<Op>, b: seq<Op>)
    ensures SetsIn(a + b) == SetsIn(a) + SetsIn(b)
  {
    assert Events(1, a + b) == Events(1, a) + Events(1, b);
    CountSetsConcat(Events(1, a), Events(1, b), 0);
  }

  lemma {:induction false} SetsOfTerm(term: nat, ops: seq<Op>)
    requires term > 0
    ensures CountSets(Events(term, ops), 0) == SetsIn(ops)
  {
    if |ops| > 0 {
      SetsOfTerm(term, ops[..|ops| - 1]);
      assert Events(term, ops)[..|ops| - 1] == Events(term, ops[..|ops| - 1]);
      assert Events(1, ops)[..|ops| - 1] == Events(1, ops[..|ops| - 1]);
    }
  }

  /** Counting the sets of all operations is counting them term by term. */
  lemma {:induction false} SetsOfTerms(history: seq<Record>)
    requires Chain(history)
    ensures CountSets(Flatten(TermsOf(history)), 0) == SetsIn(AllOps(history))
  {
    if |history| > 0 {
      var n := |history| - 1;
      var record := history[n];
      SetsOfTerms(history[..n]);
      assert record.term > 0 && AllOps(history) == AllOps(history[..n]) + record.ops;
      FlattenSnoc(history);
      hide Chain, AllOps, Flatten, TermsOf, CountSets, SetsIn, Events;
      SetsConcat(AllOps(history[..n]), record.ops);
      SetsOfTerm(record.term, record.ops);
      CountSetsConcat(Flatten(TermsOf(history[..n])), Events(record.term, record.ops), 0);
    }
  }

  lemma FlattenSnoc(history: seq<Record>)
    requires |history| > 0
    ensures var n := |history| - 1;
      Flatten(TermsOf(history)) == Flatten(TermsOf(history[..n])) + Events(history[n].term, history[n].ops)
  {
    var n := |history| - 1;
    var terms := TermsOf(history);
    TermsLength(history[..n]);
    assert terms[..|terms| - 1] == TermsOf(history[..n]);
  }

  lemma {:induction false} TermsLength(history: seq<Record>)
    ensures |TermsOf(history)| == |history|
  {
    if |history| > 0 {
      TermsLength(history[..|history| - 1]);
    }
  }

  /** Terms count up from 2, each records the bytes before it and hashes itself onto its predecessor. */
  ghost predicate Chain(history: seq<Record>) {
    |history| > 0 ==>
      var n := |history| - 1;
      && Chain(history[..n])
      && history[n].term == n + 2
      && history[n].updates == TotalSize(history[..n])
      && history[n].hash == Sha256(history[n].term, history[n].updates, history[n].ops, TopHash(history[..n]))
  }

  predicate IsConsistent(meta: Meta, term: nat, hash: Digest) {
    meta.term == term && (meta.term == 1 || meta.hash == hash)
  }

  /** Same terms, same operations, same bytes before each term. */
  ghost predicate SameHistory(a: seq<Record>, b: seq<Record>) {
    && |a| == |b|
    && forall i :: 0 <= i < |a| ==>
         a[i].term == b[i].term && a[i].updates == b[i].updates && a[i].ops == b[i].ops && a[i].hash == b[i].hash
  }

  lemma {:induction false} EqualHashesEqualHistories(a: seq<Record>, b: seq<Record>)
    requires Chain(a) && Chain(b) && TopHash(a) == TopHash(b)
    ensures SameHistory(a, b)
  {
    if |a| > 0 && |b| > 0 {
      EqualHashesEqualHistories(a[..|a| - 1], b[..|b| - 1]);
      assert forall i :: 0 <= i < |a| - 1 ==> a[i] == a[..|a| - 1][i] && b[i] == b[..|b| - 1][i];
    }
  }

  /** The consistency test of two logs, which compares one term number and one hash, says yes if and only if their
      whole histories are the same. */
  lemma ConsistentIffSameHistory(a: seq<Record>, b: seq<Record>)
    requires Chain(a) && Chain(b)
    ensures IsConsistent(Meta(|a| + 1, TopHash(a)), |b| + 1, TopHash(b)) <==> SameHistory(a, b)
  {
    if IsConsistent(Meta(|a| + 1, TopHash(a)), |b| + 1, TopHash(b)) {
      if |a| > 0 {
        EqualHashesEqualHistories(a, b);
      }
    }
  }

  lemma {:induction false} ChainPrefix(history: seq<Record>, n: nat)
    requires Chain(history) && n <= |history|
    ensures Chain(history[..n])
    ensures n < |history| ==> history[n].term == n + 2 && history[n].updates == TotalSize(history[..n])
  {
    if n < |history| {
      var m := |history| - 1;
      if n < m {
        assert history[..m][..n] == history[..n];
        ChainPrefix(history[..m], n);
      }
    } else {
      assert history[..n] == history;
    }
  }

  /** Recovery adds a term's own size to the count it recorded and gets the count after the term. */
  lemma RecoveredUpdates(history: seq<Record>, i: nat)
    requires Chain(history) && i < |history|
    ensures history[i].updates + history[i].size == TotalSize(history[..i + 1])
  {
    ChainPrefix(history, i);
    assert history[..i + 1][..i] == history[..i];
  }

  lemma ChainTerms(history: seq<Record>)
    requires Chain(history)
    ensures forall i :: 0 <= i < |history| ==> history[i].term == i + 2
  {
    forall i | 0 <= i < |history|
      ensures history[i].term == i + 2
    {
      ChainPrefix(history, i);
    }
  }

  lemma ExtendChain(history: seq<Record>, record: Record)
    requires Chain(history) && record.term == |history| + 2 && record.updates == TotalSize(history)
    requires record.hash == Sha256(record.term, record.updates, record.ops, TopHash(history))
    ensures Chain(history + [record]) && TopHash(history + [record]) == record.hash
    ensures TotalSize(history + [record]) == TotalSize(history) + record.size
    ensures AllOps(history + [record]) == AllOps(history) + record.ops
  {
    assert (history + [record])[..|history|] == history;
  }

  lemma {:induction false} FirstTermIsPlain(history: seq<Record>)
    requires |history| > 0
    ensures |TermsOf(history)| > 0 && TermsOf(history)[0].diffRank == 0
  {
    if |history| > 1 {
      FirstTermIsPlain(history[..|history| - 1]);
    } else {
      assert TermsOf(history[..0]) == [];
    }
  }

  lemma SuffixSnoc(history: seq<Record>, record: Record, k: int)
    requires 0 <= k <= |history|
    ensures (history + [record])[k..] == history[k..] + [record] && (history + [record])[..|history|] == history
  {
  }

  class Log {
    var term: nat
    var updates: nat
    var hash: Digest
    var size: nat
    var ops: seq<Op>                 // operations of the term in progress
    var rank: nat                    // the difference rank, kept up to date
    var diffRank: nat                // its value when the last term was committed, for the snapshot

    var unconfirmed: array<Record>   // the slice's backing array; its length is the capacity
    var start: nat
    var end: nat

    ghost var history: seq<Record>   // every committed term
    ghost var delivered: seq<Op>     // every operation handed to onPersisted

    /** Number of terms the proxy has confirmed. */
    ghost function Confirmed(): int
      reads this
    {
      |history| - (end - start)
    }

    ghost predicate Valid()
      reads this, unconfirmed
    {
      && Chain(history)
      && term == |history| + 1 && updates == TotalSize(history) && hash == TopHash(history)
      && size == (if |history| == 0 then 0 else history[|history| - 1].size)
      && delivered == AllOps(history) + ops
      && rank == SetsIn(delivered) && diffRank == SetsIn(AllOps(history))
      && start <= end <= unconfirmed.Length && Confirmed() >= 0
      && unconfirmed[start..end] == history[Confirmed()..]
    }

    constructor ()
      ensures Valid() && fresh(unconfirmed) && history == [] && delivered == []
    {
      term, updates, hash, size, ops := 1, 0, NoHash, 0, [];
      unconfirmed := new Record[10](_ => Record(0, 0, [], 0, NoHash));
      start, end, history, delivered := 0, 0, [], [];
      rank, diffRank := 0, 0;
    }

    method OnPersisted(op: Op)
      requires Valid()
      modifies `ops, `delivered, `rank
      ensures Valid() && delivered == old(delivered) + [op]
    {
      OneMore(delivered, op);
      hide Chain, TotalSize, AllOps, TopHash, SetsIn;
      assert AllOps(history) + (ops + [op]) == delivered + [op];
      ops := ops + [op];
      delivered := delivered + [op];
      if op.kind == Set {
        rank := rank + 1;
      }
    }

    /** Moves the unconfirmed terms to the front of the array; which ones they are does not change. */
    method Compact()
      requires start <= end <= unconfirmed.Length
      modifies this`start, this`end, unconfirmed
      ensures start == 0 && end == old(end - start)
      ensures unconfirmed[start..end] == old(unconfirmed[start..end])
    {
      var n := end - start;
      var i := 0;
      while i < n
        invariant 0 <= i <= n && start == old(start) && end == old(end)
        invariant forall j :: 0 <= j < i ==> unconfirmed[j] == old(unconfirmed[start + j])
        invariant forall j :: start + i <= j < end ==> unconfirmed[j] == old(unconfirmed[j])
      {
        unconfirmed[i] := unconfirmed[start + i];
        i := i + 1;
      }
      end := n;
      start := 0;
      assert forall j :: 0 <= j < n ==> unconfirmed[..n][j] == old(unconfirmed[start..end])[j];
    }

    /** Go's append: in place while there is capacity, into a larger array otherwise. */
    method Append(record: Record)
      requires start <= end <= unconfirmed.Length
      modifies `unconfirmed, `end, unconfirmed
      ensures start <= end <= unconfirmed.Length && (unconfirmed == old(unconfirmed) || fresh(unconfirmed))
      ensures end == old(end) + 1 && unconfirmed[start..end] == old(unconfirmed[start..end]) + [record]
    {
      if end == unconfirmed.Length {
        var grown := new Record[2 * unconfirmed.Length + 1](_ => record);
        forall i | 0 <= i < end {
          grown[i] := unconfirmed[i];
        }
        unconfirmed := grown;
      }
      unconfirmed[end] := record;
      end := end + 1;
    }

    /** Compacts when the array is full and there is something to drop, then appends. */
    method AddUnconfirmed(record: Record)
      requires start <= end <= unconfirmed.Length
      modifies `unconfirmed, `start, `end, unconfirmed
      ensures start <= end <= unconfirmed.Length && (unconfirmed == old(unconfirmed) || fresh(unconfirmed))
      ensures end - start == old(end - start) + 1
      ensures unconfirmed[start..end] == old(unconfirmed[start..end]) + [record]
    {
      if end >= unconfirmed.Length && start > 0 {
        Compact();
      }
      Append(record);
    }

    /** Commits the operations in progress as the next term. If marshalling or compressing fails, nothing happens;
        the upload comes after and does not change the state. */
    method DoCommitTerm(encoded: bool, zipped: nat) returns (committed: bool)
      requires Valid()
      modifies this, unconfirmed
      ensures Valid() && (unconfirmed == old(unconfirmed) || fresh(unconfirmed))
      ensures committed == encoded && delivered == old(delivered) && Confirmed() == old(Confirmed())
      ensures !committed ==> history == old(history) && ops == old(ops)
      ensures committed ==> ops == [] && |history| == |old(history)| + 1 && history[..|old(history)|] == old(history)
      ensures committed ==> history[|old(history)|].ops == old(ops) && history[|old(history)|].size == zipped
    {
      hide Chain, TotalSize, AllOps, TopHash, SetsIn;
      if !encoded {
        return false;
      }
      var record := Record(term + 1, updates, ops, zipped, Sha256(term + 1, updates, ops, hash));
      AddUnconfirmed(record);
      ExtendChain(history, record);
      SuffixSnoc(history, record, |history| + 1 - (end - start));
      Adopt(record);
      return true;
    }

    /** The committed term becomes the local lineage. */
    method Adopt(record: Record)
      modifies `term, `updates, `hash, `size, `ops, `diffRank, `history
      ensures term == record.term && updates == old(updates) + record.size && hash == record.hash && size == record.size
      ensures ops == [] && diffRank == rank && history == old(history) + [record]
    {
      history := history + [record];
      size := record.size;
      ops := [];
      term := record.term;
      updates := updates + record.size;
      hash := record.hash;
      diffRank := rank;
    }

    /** How the answer depends on the proxy's view, and how far it confirms. */
    ghost predicate MatchesHistory(meta: Meta)
      reads this
    {
      && 0 <= Confirmed() <= meta.term - 2 < |history| - 1
      && history[meta.term - 2].hash == meta.hash
    }

    /** The array holds the unconfirmed end of the history, consecutive terms. */
    lemma WindowContent()
      requires Valid()
      ensures forall i :: start <= i < end ==>
        && unconfirmed[i] == history[Confirmed() + i - start]
        && unconfirmed[i].term == Confirmed() + i - start + 2
    {
      ChainTerms(history);
      assert forall i :: start <= i < end ==> unconfirmed[i] == unconfirmed[start..end][i - start];
    }

    /** The rank a snapshot taken now records is the number of set operations of all terms, the premise on which both
        recoveries arrive at the same rank. */
    lemma SnapshotRank(rest: seq<Term>, ss: Term)
      requires Valid() && |history| > 0 && diffRank > 0
      requires ss.term == term && ss.diffRank == diffRank
      requires forall i :: 0 <= i < |Flatten(rest)| ==> Flatten(rest)[i].term > term
      ensures ss.diffRank == CountSets(Flatten(TermsOf(history)), 0)
      ensures |TermsOf(history)| > 0 && ReplayRank(0, [ss] + rest) == ReplayRank(0, TermsOf(history) + rest)
    {
      SetsOfTerms(history);
      TermsLength(history);
      FirstTermIsPlain(history);
      hide Chain, TotalSize, AllOps, TopHash, SetsIn;
      SnapshotReplayRank(TermsOf(history), rest, ss);
    }

    /** Confirms up to the given unconfirmed position, exclusive. */
    method ConfirmTo(i: nat)
      requires Valid() && start <= i <= end
      modifies `start
      ensures Valid() && start == i && Confirmed() == old(Confirmed()) + i - old(start)
    {
      hide Chain, TotalSize, AllOps, TopHash;
      assert unconfirmed[i..end] == unconfirmed[start..end][i - start..];
      start := i;
    }

    /** The branch for a view that equals the current term. */
    method ConfirmCurrent(meta: Meta)
      requires Valid() && meta.term == term
      modifies `start
      ensures Valid() && Confirmed() == |history|
    {
      WindowContent();
      hide Chain, TotalSize, AllOps, TopHash;
      if end > start {
        var i := end - 1;
        // The newest unconfirmed term is the current one, so the search ends at its first step.
        assert unconfirmed[i].term == meta.term;
        ConfirmTo(i + 1);
      }
    }

    /** The branch for a stale view: it may still be an unconfirmed term of the history. */
    method ConfirmHistory(meta: Meta) returns (found: bool)
      requires Valid() && meta.term < term
      modifies `start
      ensures Valid() && (found <==> old(MatchesHistory(meta)))
      ensures Confirmed() == if found then meta.term - 1 else old(Confirmed())
    {
      WindowContent();
      hide Chain, TotalSize, AllOps, TopHash;
      var i := end;
      while i > start
        invariant start <= i <= end && start == old(start)
        invariant forall j :: i <= j < end ==> meta.term < unconfirmed[j].term
      {
        i := i - 1;
        if meta.term >= unconfirmed[i].term {
          if IsConsistent(meta, unconfirmed[i].term, unconfirmed[i].hash) {
            ConfirmTo(i + 1);
            return true;
          }
          return false;
        }
      }
      return false;
    }

    /** Confirms exactly the terms up to the one the proxy's view equals, and never takes a confirmation back. */
    method Validate(meta: Meta) returns (verdict: Verdict, stale: bool)
      requires Valid()
      modifies `start
      ensures Valid() && Confirmed() >= old(Confirmed())
      ensures stale <==> meta.term < term && verdict == Inconsistent
      ensures verdict == Consistent <==> IsConsistent(meta, term, hash)
      ensures verdict == ConsistentWithHistoryTerm <==> old(MatchesHistory(meta))
      ensures Confirmed() ==
        if verdict == Consistent then |history|
        else if verdict == ConsistentWithHistoryTerm then meta.term - 1 else old(Confirmed())
    {
      hide Chain, TotalSize, AllOps, TopHash;
      stale := false;
      if meta.term < term {
        var found := ConfirmHistory(meta);
        verdict, stale := if found then ConsistentWithHistoryTerm else Inconsistent, !found;
      } else if IsConsistent(meta, term, hash) {
        verdict := Consistent;
        ConfirmCurrent(meta);
      } else {
        verdict := Inconsistent;
      }
    }
  }
}
