/** A request group of the proxy: the d+p chunk requests of one object, proxy/global/requests.go, and the responses
    their responders race for, proxy/types/request.go. Every atomic operation of a responder (compare-and-swap, add
    or load of the packed status, entering or leaving sync.Once) is one step; any number of responders, for instance
    an answer, a timeout and a recovered copy, may run for one chunk. */
module RequestGroup {

  type ThreadId = nat

  // ----- the packed status word -----

  const MAX16 := 0xFFFF
  const WORD := 0x1_0000_0000_0000_0000

  const RETURNED := 0x1
  const SUCCEED := 0x1_0000
  const RECOVERED := 0x1_0000_0000
  const FLUSHED := 0x1_0000_0000_0000

  datatype Field = Returned | Succeeded | Recovered | Flushed

  /** Mask and shift. */
  function Read(word: nat, f: Field): nat {
    match f
    case Returned => word % 0x1_0000
    case Succeeded => word / 0x1_0000 % 0x1_0000
    case Recovered => word / 0x1_0000_0000 % 0x1_0000
    case Flushed => word / 0x1_0000_0000_0000 % 0x1_0000
  }

  /** Atomic addition to an unsigned 64-bit word. */
  function Add(word: nat, opts: nat): nat {
    (word + opts) % WORD
  }

  function Opts(succeeded: bool, recovered: bool): nat {
    RETURNED + (if succeeded then SUCCEED else 0) + (if recovered then RECOVERED else 0)
  }

  // ----- state -----

  /** Returned mark of a chunk: not set, set by a responder that has yet to add to the status, or counted. */
  datatype Mark = Unmarked | Pending(holder: ThreadId) | Counted(succeeded: bool, recovered: bool)

  /** The sync.Once of a response; when done it remembers which request copy ran it and what it found. */
  datatype Once = Idle | Running(runner: ThreadId) | Done(copy: nat, allSucceeded: bool)

  /** The response shared by all copies of a chunk request. The source's status word is INVOKED while unmarked,
      RESPONDED once there is a winner and RETURNED in between. */
  datatype Chunk = Chunk(mark: Mark, once: Once, winner: Winner, flushed: bool)
  datatype Winner = Nobody | By(t: ThreadId)

  /** Place of a responder in AddSucceeded followed by setResponse. */
  datatype Place = Marking | Adding | Entering | NotifyMarking | NotifyAdding | NotifyLoading | Setting | Won | Lost

  /** A handler with an answer first counts the success; a failure, a timeout or somebody who abandons the chunk
      because the group is fulfilled without it responds right away. */
  datatype Thread = Thread(chunk: nat, copy: nat, answer: bool, recovered: bool, abandons: bool, place: Place)

  datatype Group = Group(
    fulfill: nat,
    waitForClient: bool,
    word: nat,
    chunks: seq<Chunk>,
    threads: map<ThreadId, Thread>)

  datatype Action =
    | Begin(t: ThreadId, chunk: nat, copy: nat, answer: bool, recovered: bool, abandons: bool)
    | Step(t: ThreadId)
    | Flush(t: ThreadId)

  function Reset(isSet: bool, noFirstD: bool, clientFirstD: bool, d: nat, p: nat): Group {
    var fulfill := if isSet || noFirstD then d + p else d;
    Group(fulfill, clientFirstD && fulfill < d + p, 0, seq(d + p, i => Chunk(Unmarked, Idle, Nobody, false)), map[])
  }

  predicate IsFulfilled(g: Group) {
    Read(g.word, if g.waitForClient then Flushed else Succeeded) >= g.fulfill
  }

  /** Asked by a responder that has just counted its own success. */
  predicate IsLate(g: Group) {
    if g.waitForClient then Read(g.word, Flushed) >= g.fulfill else Read(g.word, Succeeded) > g.fulfill
  }

  predicate IsAllReturned(g: Group) {
    Read(g.word, Returned) >= |g.chunks|
  }

  /** disciplined: the response of a chunk is set only after the success of the chunk was counted. */
  predicate Enabled(g: Group, a: Action, disciplined: bool) {
    match a
    case Begin(t, chunk, _, answer, recovered, abandons) =>
      && t !in g.threads && chunk < |g.chunks| && (recovered ==> answer)
      && (abandons ==> !answer && IsFulfilled(g))
    case Step(t) =>
      && t in g.threads && g.threads[t].chunk < |g.chunks|
      && var c := g.chunks[g.threads[t].chunk];
         var place := g.threads[t].place;
         && place != Won && place != Lost
         && (place == Entering ==> !c.once.Running? && (disciplined ==> c.mark.Counted? && c.mark.succeeded))
    case Flush(t) =>
      && t in g.threads && g.threads[t].chunk < |g.chunks| && g.threads[t].answer
      && (g.threads[t].place == Won || g.threads[t].place == Lost) && !g.chunks[g.threads[t].chunk].flushed
  }

  function Apply(g: Group, a: Action): Group
    requires Enabled(g, a, false)
  {
    match a
    case Begin(t, chunk, copy, answer, recovered, abandons) =>
      var place := if answer then Marking else Entering;
      g.(threads := g.threads[t := Thread(chunk, copy, answer, recovered, abandons, place)])
    case Step(t) => Advance(g, t)
    case Flush(t) =>
      g.(word := Add(g.word, FLUSHED),
        chunks := g.chunks[g.threads[t].chunk := g.chunks[g.threads[t].chunk].(flushed := true)])
  }

  /** What the step adds to the status. */
  function Adds(th: Thread): nat {
    match th.place
    case Adding => Opts(true, th.recovered)
    case NotifyAdding => Opts(false, false)
    case _ => 0
  }

  /** What the step does to the shared response of its chunk and where it leaves the responder; fulfilled: what the
      group answers on the status just loaded. */
  function Local(t: ThreadId, th: Thread, c: Chunk, fulfilled: bool): (Chunk, Place) {
    match th.place
    case Marking => if c.mark.Unmarked? then (c.(mark := Pending(t)), Adding) else (c, Entering)
    case Adding => (c.(mark := Counted(true, th.recovered)), Entering)
    case Entering => if c.once.Idle? then (c.(once := Running(t)), NotifyMarking) else (c, Setting)
    case NotifyMarking => if c.mark.Unmarked? then (c.(mark := Pending(t)), NotifyAdding) else (c, NotifyLoading)
    case NotifyAdding => (c.(mark := Counted(false, false), once := Done(th.copy, fulfilled)), Setting)
    case NotifyLoading => (c.(once := Done(th.copy, fulfilled)), Setting)
    case Setting => if !c.mark.Unmarked? && c.winner.Nobody? then (c.(winner := By(t)), Won) else (c, Lost)
    case _ => (c, th.place)
  }

  function Advance(g: Group, t: ThreadId): Group
    requires Enabled(g, Step(t), false)
  {
    var th := g.threads[t];
    var g' := g.(word := Add(g.word, Adds(th)));
    var (c, place) := Local(t, th, g.chunks[th.chunk], IsFulfilled(g'));
    g'.(chunks := g.chunks[th.chunk := c], threads := g.threads[t := th.(place := place)])
  }

  // ----- counting chunks -----

  predicate Has(c: Chunk, f: Field) {
    match f
    case Returned => c.mark.Counted?
    case Succeeded => c.mark.Counted? && c.mark.succeeded
    case Recovered => c.mark.Counted? && c.mark.recovered
    case Flushed => c.flushed
  }

  function Count(chunks: seq<Chunk>, f: Field): nat {
    if |chunks| == 0 then 0 else Count(chunks[1..], f) + (if Has(chunks[0], f) then 1 else 0)
  }

  lemma {:induction false} CountBounds(chunks: seq<Chunk>, f: Field)
    ensures Count(chunks, f) <= |chunks|
    ensures Count(chunks, f) == |chunks| <==> forall i :: 0 <= i < |chunks| ==> Has(chunks[i], f)
  {
    if |chunks| > 0 {
      CountBounds(chunks[1..], f);
      assert forall i :: 0 < i < |chunks| ==> chunks[i] == chunks[1..][i - 1];
    }
  }

  lemma {:induction false} CountUpdate(chunks: seq<Chunk>, i: nat, c: Chunk, f: Field)
    requires i < |chunks|
    ensures Count(chunks[i := c], f) ==
      Count(chunks, f) + (if Has(c, f) then 1 else 0) - (if Has(chunks[i], f) then 1 else 0)
  {
    if i == 0 {
      assert chunks[i := c][1..] == chunks[1..];
    } else {
      CountUpdate(chunks[1..], i - 1, c, f);
      assert chunks[i := c][1..] == chunks[1..][i - 1 := c];
    }
  }

  lemma {:induction false} CountMonotone(chunks: seq<Chunk>, f: Field, g: Field)
    requires forall i :: 0 <= i < |chunks| && Has(chunks[i], f) ==> Has(chunks[i], g)
    ensures Count(chunks, f) <= Count(chunks, g)
  {
    if |chunks| > 0 {
      CountMonotone(chunks[1..], f, g);
    }
  }

  function Where(chunks: seq<Chunk>, f: Field): set<nat> {
    set i: nat | i < |chunks| && Has(chunks[i], f)
  }

  lemma WhereSnoc(chunks: seq<Chunk>, c: Chunk, f: Field)
    ensures |Where(chunks + [c], f)| == |Where(chunks, f)| + (if Has(c, f) then 1 else 0)
  {
    hide Has;
    assert Where(chunks + [c], f) == Where(chunks, f) + (if Has(c, f) then {|chunks|} else {});
  }

  /** Count is the number of distinct chunks. */
  lemma {:induction false} CountIsCardinality(chunks: seq<Chunk>, f: Field)
    ensures Count(chunks, f) == |Where(chunks, f)|
  {
    if |chunks| > 0 {
      var init, c := chunks[..|chunks| - 1], chunks[|chunks| - 1];
      CountIsCardinality(init, f);
      assert chunks == init + [c];
      hide Where, Has, Count;
      WhereSnoc(init, c, f);
      CountSnoc(init, c, f);
    } else {
      assert Where(chunks, f) == {};
    }
  }

  lemma {:induction false} CountSnoc(chunks: seq<Chunk>, c: Chunk, f: Field)
    ensures Count(chunks + [c], f) == Count(chunks, f) + (if Has(c, f) then 1 else 0)
  {
    if |chunks| > 0 {
      CountSnoc(chunks[1..], c, f);
      assert (chunks + [c])[1..] == chunks[1..] + [c];
    } else {
      assert (chunks + [c])[1..] == [];
    }
  }

  function Pack(returned: nat, succeeded: nat, recovered: nat, flushed: nat): nat {
    returned + 0x1_0000 * succeeded + 0x1_0000_0000 * recovered + 0x1_0000_0000_0000 * flushed
  }

  function PackOf(chunks: seq<Chunk>): nat {
    Pack(Count(chunks, Returned), Count(chunks, Succeeded), Count(chunks, Recovered), Count(chunks, Flushed))
  }

  lemma PackReads(a: nat, b: nat, c: nat, d: nat)
    requires a <= MAX16 && b <= MAX16 && c <= MAX16 && d <= MAX16
    ensures var w := Pack(a, b, c, d);
      w < WORD && Read(w, Returned) == a && Read(w, Succeeded) == b && Read(w, Recovered) == c && Read(w, Flushed) == d
  {
    var w2 := c + 0x1_0000 * d;
    var w1 := b + 0x1_0000 * w2;
    assert Pack(a, b, c, d) == a + 0x1_0000 * w1;
    Low16(a, w1);
    Low16(b, w2);
    Low16(c, d);
    Low32(a + 0x1_0000 * b, w2);
    Low48(a + 0x1_0000 * b + 0x1_0000_0000 * c, d);
  }

  lemma Low16(r: nat, q: nat)
    requires r < 0x1_0000
    ensures (r + 0x1_0000 * q) % 0x1_0000 == r && (r + 0x1_0000 * q) / 0x1_0000 == q
  {
  }

  lemma Low32(r: nat, q: nat)
    requires r < 0x1_0000_0000
    ensures (r + 0x1_0000_0000 * q) / 0x1_0000_0000 == q
  {
  }

  lemma Low48(r: nat, q: nat)
    requires r < 0x1_0000_0000_0000
    ensures (r + 0x1_0000_0000_0000 * q) / 0x1_0000_0000_0000 == q
  {
  }

  // ----- invariant of every run -----

  ghost predicate ThreadFits(t: ThreadId, th: Thread, c: Chunk) {
    && ((th.place == Adding || th.place == NotifyAdding) <==> c.mark == Pending(t))
    && ((th.place == NotifyMarking || th.place == NotifyAdding || th.place == NotifyLoading) <==> c.once == Running(t))
    && (th.place == Won <==> c.winner == By(t))
    && (th.place == NotifyLoading ==> !c.mark.Unmarked?)
    && (th.place == Setting ==> c.once.Done?)
    && (th.place == Lost ==> c.winner.By?)
    && (th.recovered ==> th.answer)
  }

  ghost predicate ChunkFits(c: Chunk) {
    && (c.mark.Counted? && c.mark.recovered ==> c.mark.succeeded)
    && (c.once.Done? ==> !c.mark.Unmarked?)
    && (c.winner.By? ==> c.once.Done?)
  }

  ghost predicate Owns(g: Group, t: ThreadId, i: nat) {
    t in g.threads && g.threads[t].chunk == i
  }

  /** Whoever holds something of a chunk is a responder of that chunk. */
  ghost predicate HoldersKnown(g: Group, i: nat, c: Chunk) {
    && (c.mark.Pending? ==> Owns(g, c.mark.holder, i))
    && (c.once.Running? ==> Owns(g, c.once.runner, i))
    && (c.winner.By? ==> Owns(g, c.winner.t, i))
  }

  ghost predicate Responders(g: Group) {
    && (forall t :: t in g.threads ==>
      g.threads[t].chunk < |g.chunks| && ThreadFits(t, g.threads[t], g.chunks[g.threads[t].chunk]))
    && (forall i :: 0 <= i < |g.chunks| ==> ChunkFits(g.chunks[i]) && HoldersKnown(g, i, g.chunks[i]))
  }

  ghost predicate Tallied(g: Group) {
    |g.chunks| <= MAX16 && g.word == PackOf(g.chunks)
  }

  ghost predicate Inv(g: Group) {
    Responders(g) && Tallied(g)
  }

  lemma TallyUpdate(chunks: seq<Chunk>, i: nat, c: Chunk)
    requires i < |chunks| <= MAX16
    ensures PackOf(chunks[i := c]) < WORD
    ensures Has(c, Flushed) == Has(chunks[i], Flushed) && c.mark == chunks[i].mark ==>
      PackOf(chunks[i := c]) == PackOf(chunks)
    ensures !chunks[i].mark.Counted? && c.mark.Counted? && c.flushed == chunks[i].flushed ==>
      PackOf(chunks[i := c]) == PackOf(chunks) + Opts(c.mark.succeeded, c.mark.recovered)
    ensures !chunks[i].mark.Counted? && !c.mark.Counted? && c.flushed == chunks[i].flushed ==>
      PackOf(chunks[i := c]) == PackOf(chunks)
    ensures !chunks[i].flushed && c.flushed && c.mark == chunks[i].mark ==>
      PackOf(chunks[i := c]) == PackOf(chunks) + FLUSHED
  {
    CountUpdate(chunks, i, c, Returned);
    CountUpdate(chunks, i, c, Succeeded);
    CountUpdate(chunks, i, c, Recovered);
    CountUpdate(chunks, i, c, Flushed);
    CountBounds(chunks[i := c], Returned);
    CountBounds(chunks[i := c], Succeeded);
    CountBounds(chunks[i := c], Recovered);
    CountBounds(chunks[i := c], Flushed);
    hide Count;
    var s := chunks[i := c];
    PackReads(Count(s, Returned), Count(s, Succeeded), Count(s, Recovered), Count(s, Flushed));
  }

  lemma StepTallies(g: Group, a: Action)
    requires Inv(g) && Enabled(g, a, false)
    ensures Tallied(Apply(g, a))
  {
    hide Count, Read, HoldersKnown, PackOf, Pack;
    if !a.Begin? {
      var th := g.threads[a.t];
      assert ThreadFits(a.t, th, g.chunks[th.chunk]);
      var c := Apply(g, a).chunks[th.chunk];
      assert Apply(g, a).chunks == g.chunks[th.chunk := c];
      if a.Flush? {
        TallyUpdate(g.chunks, th.chunk, c);
      } else {
        LocalTallies(g, a.t, c);
      }
    }
  }

  lemma LocalTallies(g: Group, t: ThreadId, c: Chunk)
    requires Tallied(g) && Enabled(g, Step(t), false) && c == Apply(g, Step(t)).chunks[g.threads[t].chunk]
    requires ThreadFits(t, g.threads[t], g.chunks[g.threads[t].chunk])
    ensures PackOf(g.chunks[g.threads[t].chunk := c]) == Add(g.word, Adds(g.threads[t]))
  {
    hide Count, Read, PackOf, Pack, IsFulfilled;
    var i := g.threads[t].chunk;
    TallyUpdate(g.chunks, i, c);
    assert g.word < WORD by {
      TallyUpdate(g.chunks, i, g.chunks[i]);
      assert g.chunks[i := g.chunks[i]] == g.chunks;
    }
  }

  lemma LocalFits(t: ThreadId, th: Thread, c: Chunk, fulfilled: bool)
    requires ThreadFits(t, th, c) && ChunkFits(c) && (th.place == Entering ==> !c.once.Running?)
    ensures var (c', place) := Local(t, th, c, fulfilled);
      ThreadFits(t, th.(place := place), c') && ChunkFits(c')
  {
  }

  lemma OthersFit(t: ThreadId, th: Thread, c: Chunk, fulfilled: bool, u: ThreadId, other: Thread)
    requires ThreadFits(t, th, c) && ThreadFits(u, other, c) && u != t
    ensures ThreadFits(u, other, Local(t, th, c, fulfilled).0)
  {
  }

  function Updated(g: Group, t: ThreadId, word: nat, c: Chunk, place: Place): Group
    requires t in g.threads && g.threads[t].chunk < |g.chunks|
  {
    g.(word := word, chunks := g.chunks[g.threads[t].chunk := c],
      threads := g.threads[t := g.threads[t].(place := place)])
  }

  lemma UpdateKeeps(g: Group, t: ThreadId, word: nat, c: Chunk, place: Place)
    requires Responders(g) && t in g.threads
    requires ThreadFits(t, g.threads[t].(place := place), c) && ChunkFits(c) && HoldersKnown(g, g.threads[t].chunk, c)
    requires forall u :: u in g.threads && u != t && g.threads[u].chunk == g.threads[t].chunk ==>
      ThreadFits(u, g.threads[u], c)
    ensures Responders(Updated(g, t, word, c, place))
  {
    hide ThreadFits, ChunkFits;
    var g' := Updated(g, t, word, c, place);
    assert forall u, i :: Owns(g', u, i) <==> Owns(g, u, i);
  }

  lemma StepKeepsResponders(g: Group, t: ThreadId)
    requires Inv(g) && Enabled(g, Step(t), false)
    ensures Responders(Advance(g, t))
  {
    hide Tallied, Read, Add;
    var th := g.threads[t];
    var i := th.chunk;
    var word := Add(g.word, Adds(th));
    var fulfilled := IsFulfilled(g.(word := word));
    var (c, place) := Local(t, th, g.chunks[i], fulfilled);
    assert ThreadFits(t, th, g.chunks[i]) && ChunkFits(g.chunks[i]) && HoldersKnown(g, i, g.chunks[i]);
    LocalFits(t, th, g.chunks[i], fulfilled);
    assert HoldersKnown(g, i, c);
    forall u | u in g.threads && u != t && g.threads[u].chunk == i
      ensures ThreadFits(u, g.threads[u], c)
    {
      OthersFit(t, th, g.chunks[i], fulfilled, u, g.threads[u]);
    }
    hide ThreadFits, ChunkFits, HoldersKnown, Local;
    UpdateKeeps(g, t, word, c, place);
    assert Advance(g, t) == Updated(g, t, word, c, place);
  }

  lemma BeginKeepsResponders(g: Group, a: Action)
    requires Inv(g) && Enabled(g, a, false) && a.Begin?
    ensures Responders(Apply(g, a))
  {
    hide Tallied, Read, Add;
    assert HoldersKnown(g, a.chunk, g.chunks[a.chunk]);
    var g' := Apply(g, a);
    assert ThreadFits(a.t, g'.threads[a.t], g.chunks[a.chunk]);
    hide ThreadFits, ChunkFits;
    assert forall u, i :: Owns(g, u, i) ==> Owns(g', u, i);
  }

  lemma FlushKeepsResponders(g: Group, a: Action)
    requires Inv(g) && Enabled(g, a, false) && a.Flush?
    ensures Responders(Apply(g, a))
  {
    hide Tallied, Read, Add;
    var th := g.threads[a.t];
    var c := g.chunks[th.chunk].(flushed := true);
    assert ThreadFits(a.t, th, g.chunks[th.chunk]) && ChunkFits(g.chunks[th.chunk]);
    assert HoldersKnown(g, th.chunk, g.chunks[th.chunk]);
    UpdateKeeps(g, a.t, Add(g.word, FLUSHED), c, th.place);
    assert g.threads[a.t := th] == g.threads;
  }

  lemma StepKeepsInv(g: Group, a: Action)
    requires Inv(g) && Enabled(g, a, false)
    ensures Inv(Apply(g, a))
  {
    StepTallies(g, a);
    if a.Step? {
      StepKeepsResponders(g, a.t);
    } else if a.Begin? {
      BeginKeepsResponders(g, a);
    } else {
      FlushKeepsResponders(g, a);
    }
    hide Responders, Tallied;
  }

  // ----- runs -----

  ghost predicate Runs(g: Group, actions: seq<Action>, e: Group, disciplined: bool)
    decreases |actions|
  {
    if |actions| == 0 then g == e
    else
      && Enabled(g, actions[0], disciplined) && Enabled(g, actions[0], false)
      && Runs(Apply(g, actions[0]), actions[1..], e, disciplined)
  }

  /** States a group of d+p chunks can get into. */
  ghost predicate Reachable(g: Group, isSet: bool, noFirstD: bool, clientFirstD: bool, d: nat, p: nat,
                            disciplined: bool) {
    exists actions: seq<Action> :: Runs(Reset(isSet, noFirstD, clientFirstD, d, p), actions, g, disciplined)
  }

  lemma {:induction false} NothingCounted(chunks: seq<Chunk>, f: Field)
    requires forall i :: 0 <= i < |chunks| ==> !Has(chunks[i], f)
    ensures Count(chunks, f) == 0
  {
    if |chunks| > 0 {
      NothingCounted(chunks[1..], f);
    }
  }

  ghost predicate Blank(g: Group) {
    && g.threads == map[] && g.word == 0
    && forall i :: 0 <= i < |g.chunks| ==> g.chunks[i] == Chunk(Unmarked, Idle, Nobody, false)
  }

  lemma BlankTallies(g: Group)
    requires Blank(g)
    ensures PackOf(g.chunks) == 0
  {
    NothingCounted(g.chunks, Returned);
    NothingCounted(g.chunks, Succeeded);
    NothingCounted(g.chunks, Recovered);
    NothingCounted(g.chunks, Flushed);
  }

  lemma BlankFits(g: Group)
    requires Blank(g)
    ensures Responders(g) && Faithful(g)
  {
    hide Count;
  }

  lemma ResetHolds(isSet: bool, noFirstD: bool, clientFirstD: bool, d: nat, p: nat)
    requires d + p <= MAX16
    ensures Inv(Reset(isSet, noFirstD, clientFirstD, d, p)) && Faithful(Reset(isSet, noFirstD, clientFirstD, d, p))
  {
    hide Responders, Faithful, PackOf;
    var g := Reset(isSet, noFirstD, clientFirstD, d, p);
    assert |g.chunks| == d + p && Blank(g);
    hide Blank;
    BlankTallies(g);
    BlankFits(g);
  }

  /** The field IsFulfilled looks at. */
  function Decisive(g: Group): Field {
    if g.waitForClient then Flushed else Succeeded
  }

  /** A recorded AllSucceeded is true, and was recorded by a responder of the chunk; nobody abandons a chunk before
      the group is fulfilled. */
  ghost predicate Faithful(g: Group) {
    && (forall t :: t in g.threads && g.threads[t].abandons ==> Count(g.chunks, Decisive(g)) >= g.fulfill)
    && forall i :: 0 <= i < |g.chunks| && g.chunks[i].once.Done? ==>
      && (g.chunks[i].once.allSucceeded ==> Count(g.chunks, Decisive(g)) >= g.fulfill)
      && RecordedBy(g, i, g.chunks[i].once.copy)
  }

  ghost predicate RecordedBy(g: Group, i: nat, copy: nat) {
    exists t :: t in g.threads && g.threads[t].chunk == i && g.threads[t].copy == copy
  }

  lemma WordReads(g: Group, f: Field)
    requires Tallied(g)
    ensures Read(g.word, f) == Count(g.chunks, f) <= |g.chunks|
  {
    CountBounds(g.chunks, Returned);
    CountBounds(g.chunks, Succeeded);
    CountBounds(g.chunks, Recovered);
    CountBounds(g.chunks, Flushed);
    hide Count, Read;
    PackReads(Count(g.chunks, Returned), Count(g.chunks, Succeeded), Count(g.chunks, Recovered),
              Count(g.chunks, Flushed));
  }

  /** Nothing counted is ever uncounted. */
  lemma StepGrows(g: Group, a: Action, f: Field)
    requires Inv(g) && Enabled(g, a, false)
    ensures Count(Apply(g, a).chunks, f) >= Count(g.chunks, f)
    ensures |Apply(g, a).chunks| == |g.chunks| && Decisive(Apply(g, a)) == Decisive(g)
    ensures Apply(g, a).fulfill == g.fulfill
  {
    hide Count, Read, Tallied, HoldersKnown;
    if !a.Begin? {
      var i := g.threads[a.t].chunk;
      assert ThreadFits(a.t, g.threads[a.t], g.chunks[i]);
      CountUpdate(g.chunks, i, Apply(g, a).chunks[i], f);
    }
  }

  /** The once of a chunk is only ever closed by a step of its runner, on the status just loaded. */
  lemma StepRecords(g: Group, a: Action, i: nat)
    requires Inv(g) && Enabled(g, a, false) && i < |g.chunks|
    ensures var once := Apply(g, a).chunks[i].once;
      once != g.chunks[i].once ==>
        && a.Step? && g.threads[a.t].chunk == i && !g.chunks[i].once.Done?
        && (once.Done? ==> once.copy == g.threads[a.t].copy && once.allSucceeded == IsFulfilled(Apply(g, a)))
  {
    hide Count, Read, Tallied, HoldersKnown;
    if a.Step? {
      assert ThreadFits(a.t, g.threads[a.t], g.chunks[g.threads[a.t].chunk]);
    }
    hide Responders;
  }

  lemma AbandonsStep(g: Group, a: Action)
    requires Inv(g) && Enabled(g, a, false) && Faithful(g)
    requires Count(Apply(g, a).chunks, Decisive(g)) >= Count(g.chunks, Decisive(g))
    requires Read(g.word, Decisive(g)) == Count(g.chunks, Decisive(g))
    requires Decisive(Apply(g, a)) == Decisive(g) && Apply(g, a).fulfill == g.fulfill
    ensures forall t :: t in Apply(g, a).threads && Apply(g, a).threads[t].abandons ==>
      Count(Apply(g, a).chunks, Decisive(g)) >= g.fulfill
  {
    hide Responders, Tallied, Read, Count;
  }

  lemma RecordedStep(g: Group, a: Action, j: nat, copy: nat)
    requires Enabled(g, a, false) && RecordedBy(g, j, copy)
    ensures RecordedBy(Apply(g, a), j, copy)
  {
    var t :| t in g.threads && g.threads[t].chunk == j && g.threads[t].copy == copy;
    var g' := Apply(g, a);
    assert t in g'.threads && g'.threads[t].chunk == j && g'.threads[t].copy == copy;
  }

  lemma StepKeepsFaithful(g: Group, a: Action)
    requires Inv(g) && Enabled(g, a, false) && Faithful(g)
    ensures Faithful(Apply(g, a))
  {
    var g' := Apply(g, a);
    StepKeepsInv(g, a);
    StepGrows(g, a, Decisive(g));
    WordReads(g', Decisive(g));
    WordReads(g, Decisive(g));
    AbandonsStep(g, a);
    forall j, copy | RecordedBy(g, j, copy)
      ensures RecordedBy(g', j, copy)
    {
      RecordedStep(g, a, j, copy);
    }
    forall i | 0 <= i < |g'.chunks| && g'.chunks[i].once.Done?
      ensures g'.chunks[i].once.allSucceeded ==> Count(g'.chunks, Decisive(g')) >= g'.fulfill
      ensures RecordedBy(g', i, g'.chunks[i].once.copy)
    {
      StepRecords(g, a, i);
      hide Responders, Tallied, Read, Count, Apply;
      if g'.chunks[i].once != g.chunks[i].once {
        assert RecordedBy(g, i, g.threads[a.t].copy);
      }
    }
  }

  lemma {:induction false} RunKeepsInv(g: Group, actions: seq<Action>, e: Group, disciplined: bool)
    requires Inv(g) && Faithful(g) && Runs(g, actions, e, disciplined)
    ensures Inv(e) && Faithful(e) && e.fulfill == g.fulfill && e.waitForClient == g.waitForClient
    ensures |e.chunks| == |g.chunks|
    ensures forall f :: Count(e.chunks, f) >= Count(g.chunks, f)
    decreases |actions|
  {
    hide Faithful, Responders, Tallied, Enabled, Apply, Count;
    if |actions| > 0 {
      var g' := Apply(g, actions[0]);
      StepKeepsInv(g, actions[0]);
      StepKeepsFaithful(g, actions[0]);
      forall f
        ensures Count(g'.chunks, f) >= Count(g.chunks, f)
      {
        StepGrows(g, actions[0], f);
      }
      StepGrows(g, actions[0], Returned);
      RunKeepsInv(g', actions[1..], e, disciplined);
    }
  }

  lemma ReachableHolds(g: Group, isSet: bool, noFirstD: bool, clientFirstD: bool, d: nat, p: nat, disciplined: bool)
    requires Reachable(g, isSet, noFirstD, clientFirstD, d, p, disciplined) && d + p <= MAX16
    ensures Inv(g) && Faithful(g) && |g.chunks| == d + p
    ensures g.fulfill == if isSet || noFirstD then d + p else d
    ensures g.waitForClient == (clientFirstD && g.fulfill < d + p)
  {
    var actions :| Runs(Reset(isSet, noFirstD, clientFirstD, d, p), actions, g, disciplined);
    ResetHolds(isSet, noFirstD, clientFirstD, d, p);
    hide Faithful, Responders, Tallied, Runs;
    RunKeepsInv(Reset(isSet, noFirstD, clientFirstD, d, p), actions, g, disciplined);
  }

  // ----- main results -----

  /** Whatever the order of the updates, no field of the packed status carries into the next: each one is the number
      of distinct chunks it stands for, and recovered <= succeeded <= returned <= d+p. */
  lemma StatusNeverCarries(g: Group, isSet: bool, noFirstD: bool, clientFirstD: bool, d: nat, p: nat, f: Field)
    requires Reachable(g, isSet, noFirstD, clientFirstD, d, p, false) && d + p <= MAX16
    ensures g.word < WORD && Read(g.word, f) == |Where(g.chunks, f)| <= d + p
    ensures Read(g.word, Recovered) <= Read(g.word, Succeeded) <= Read(g.word, Returned) <= d + p
    ensures |g.chunks| == d + p && (IsAllReturned(g) <==> forall i :: 0 <= i < |g.chunks| ==> g.chunks[i].mark.Counted?)
  {
    ReachableHolds(g, isSet, noFirstD, clientFirstD, d, p, false);
    CountIsCardinality(g.chunks, f);
    WordReads(g, f);
    WordReads(g, Returned);
    WordReads(g, Succeeded);
    WordReads(g, Recovered);
    CountMonotone(g.chunks, Succeeded, Returned);
    assert forall i :: 0 <= i < |g.chunks| ==> ChunkFits(g.chunks[i]);
    CountMonotone(g.chunks, Recovered, Succeeded);
    CountBounds(g.chunks, Returned);
    CountBounds(g.chunks, Succeeded);
    CountBounds(g.chunks, Recovered);
    CountBounds(g.chunks, Flushed);
    hide Count, Read;
    PackReads(Count(g.chunks, Returned), Count(g.chunks, Succeeded), Count(g.chunks, Recovered),
              Count(g.chunks, Flushed));
  }

  /** A GET group is fulfilled exactly once d distinct chunks are flushed, or succeeded when the proxy does not wait
      for the client, and stays so; only then is a chunk abandoned, and an answer is late only with the group
      fulfilled without it. */
  lemma AbandonedOnlyWhenFulfilled(g: Group, noFirstD: bool, clientFirstD: bool, d: nat, p: nat, more: seq<Action>,
                                   later: Group)
    requires Reachable(g, false, noFirstD, clientFirstD, d, p, false) && d + p <= MAX16
    requires Runs(g, more, later, false)
    ensures var waits := clientFirstD && !noFirstD && p > 0; var needed := if noFirstD then d + p else d;
      && (IsFulfilled(g) <==> |Where(g.chunks, if waits then Flushed else Succeeded)| >= needed)
      && (IsLate(g) <==> if waits then |Where(g.chunks, Flushed)| >= needed else |Where(g.chunks, Succeeded)| > needed)
      && ((exists t :: t in g.threads && g.threads[t].abandons) ==> IsFulfilled(g))
    ensures IsFulfilled(g) ==> IsFulfilled(later)
  {
    ReachableHolds(g, false, noFirstD, clientFirstD, d, p, false);
    hide Responders, Runs, Has, Read, Count;
    RunKeepsInv(g, more, later, false);
    WordReads(g, Decisive(g));
    WordReads(later, Decisive(g));
    CountIsCardinality(g.chunks, Decisive(g));
  }

  /** At most one responder wins the response shared by all copies of a chunk request, and a responder loses only to
      one that won. */
  lemma OneWinner(g: Group, isSet: bool, noFirstD: bool, clientFirstD: bool, d: nat, p: nat, t: ThreadId, u: ThreadId)
    requires Reachable(g, isSet, noFirstD, clientFirstD, d, p, false) && d + p <= MAX16
    requires t in g.threads && u in g.threads && g.threads[t].chunk == g.threads[u].chunk
    ensures g.threads[t].place == Won && g.threads[u].place == Won ==> t == u
    ensures g.threads[t].place == Lost ==>
      exists w :: w in g.threads && g.threads[w].chunk == g.threads[t].chunk && g.threads[w].place == Won
  {
    ReachableHolds(g, isSet, noFirstD, clientFirstD, d, p, false);
    var c := g.chunks[g.threads[t].chunk];
    assert ThreadFits(t, g.threads[t], c) && ThreadFits(u, g.threads[u], c);
    if g.threads[t].place == Lost {
      var w := c.winner.t;
      assert HoldersKnown(g, g.threads[t].chunk, c);
      assert w in g.threads && g.threads[w].chunk == g.threads[t].chunk && ThreadFits(w, g.threads[w], c);
    }
  }

  /** The callback of a chunk confirms the object: the response that won is an answer, and AllSucceeded was set on
      the request copy it belongs to. */
  ghost predicate Confirms(g: Group, i: nat) {
    && i < |g.chunks| && g.chunks[i].winner.By? && g.chunks[i].winner.t in g.threads
    && g.threads[g.chunks[i].winner.t].answer
    && g.chunks[i].once == Done(g.threads[g.chunks[i].winner.t].copy, true)
  }

  /** AllSucceeded is reported for a SET only if every one of its chunks was counted as succeeded. */
  lemma ReportedOnlyIfAllSucceeded(g: Group, noFirstD: bool, clientFirstD: bool, d: nat, p: nat, i: nat)
    requires Reachable(g, true, noFirstD, clientFirstD, d, p, false) && d + p <= MAX16
    requires i < |g.chunks| && g.chunks[i].once.Done? && g.chunks[i].once.allSucceeded
    ensures forall j :: 0 <= j < d + p ==> j < |g.chunks| && g.chunks[j].mark.Counted? && g.chunks[j].mark.succeeded
    ensures Read(g.word, Succeeded) == d + p
  {
    ReachableHolds(g, true, noFirstD, clientFirstD, d, p, false);
    assert Count(g.chunks, Decisive(g)) >= g.fulfill;
    WordReads(g, Succeeded);
    CountBounds(g.chunks, Succeeded);
    hide Count, Read, Responders;
    assert forall j :: 0 <= j < |g.chunks| ==> Has(g.chunks[j], Succeeded);
  }

  ghost predicate AllCounted(g: Group) {
    forall i :: 0 <= i < |g.chunks| ==> Has(g.chunks[i], Succeeded)
  }

  /** A group that is fulfilled only with all its chunks. */
  ghost predicate NeedsAll(g: Group) {
    !g.waitForClient && g.fulfill == |g.chunks|
  }

  lemma AllCountedFulfills(g: Group)
    requires Tallied(g) && NeedsAll(g)
    ensures AllCounted(g) <==> IsFulfilled(g)
    ensures AllCounted(g) <==> Count(g.chunks, Succeeded) >= g.fulfill
  {
    WordReads(g, Succeeded);
    CountBounds(g.chunks, Succeeded);
  }

  /** The step that counts the last success is an answer's addition to the status: it leaves every once as it was,
      and nothing has been reported before it. */
  lemma LastCount(b: Group, a: Action)
    requires Inv(b) && Faithful(b) && NeedsAll(b) && Enabled(b, a, false)
    requires !AllCounted(b) && AllCounted(Apply(b, a))
    ensures a.Step? && b.threads[a.t].place == Adding && !Has(b.chunks[b.threads[a.t].chunk], Succeeded)
    ensures |Apply(b, a).chunks| == |b.chunks|
    ensures forall i :: 0 <= i < |b.chunks| ==> Apply(b, a).chunks[i].once == b.chunks[i].once
    ensures forall i :: 0 <= i < |b.chunks| && b.chunks[i].once.Done? ==> !b.chunks[i].once.allSucceeded
  {
    AllCountedFulfills(b);
    hide Count, Read, Tallied, HoldersKnown, RecordedBy, IsFulfilled, ChunkFits;
    var j :| 0 <= j < |b.chunks| && !Has(b.chunks[j], Succeeded);
    assert Has(Apply(b, a).chunks[j], Succeeded);
  }

  /** What is fulfilled stays so. */
  lemma StepKeepsFulfilled(g: Group, a: Action)
    requires Inv(g) && IsFulfilled(g) && Enabled(g, a, false)
    ensures Inv(Apply(g, a)) && IsFulfilled(Apply(g, a))
  {
    StepKeepsInv(g, a);
    StepGrows(g, a, Decisive(g));
    WordReads(g, Decisive(g));
    WordReads(Apply(g, a), Decisive(g));
  }

  /** Once the group is fulfilled, a once that is still open closes with a report; one that is closed stays. */
  lemma {:induction false} AfterFulfilled(m: Group, more: seq<Action>, e: Group, i: nat)
    requires Inv(m) && IsFulfilled(m) && Runs(m, more, e, false) && i < |m.chunks|
    ensures |e.chunks| == |m.chunks|
    ensures m.chunks[i].once.Done? ==> e.chunks[i].once == m.chunks[i].once
    ensures !m.chunks[i].once.Done? && e.chunks[i].once.Done? ==> e.chunks[i].once.allSucceeded
    decreases |more|
  {
    if |more| > 0 {
      var m' := Apply(m, more[0]);
      StepGrows(m, more[0], Succeeded);
      StepKeepsFulfilled(m, more[0]);
      StepRecords(m, more[0], i);
      hide Inv, Apply, Enabled, IsFulfilled;
      AfterFulfilled(m', more[1..], e, i);
    }
  }

  /** A once records what the group is at the moment it closes: AllSucceeded only if the group is fulfilled, and
      whenever it was fulfilled before the once closed. */
  lemma OnceRecordsFulfilment(g: Group, isSet: bool, noFirstD: bool, clientFirstD: bool, d: nat, p: nat,
                              more: seq<Action>, later: Group, i: nat)
    requires Reachable(g, isSet, noFirstD, clientFirstD, d, p, false) && d + p <= MAX16
    requires Runs(g, more, later, false) && i < |g.chunks|
    ensures g.chunks[i].once.Done? && g.chunks[i].once.allSucceeded ==> IsFulfilled(g)
    ensures |later.chunks| == |g.chunks|
    ensures IsFulfilled(g) && !g.chunks[i].once.Done? && later.chunks[i].once.Done? ==>
      later.chunks[i].once.allSucceeded
  {
    ReachableHolds(g, isSet, noFirstD, clientFirstD, d, p, false);
    WordReads(g, Decisive(g));
    hide Responders, Tallied, Count, Read;
    RunKeepsInv(g, more, later, false);
    if IsFulfilled(g) {
      AfterFulfilled(g, more, later, i);
    }
  }

  /** Exactly when a SET whose chunks all succeed is reported: b is any state it can get into, the step a counts its
      last success, and e is any later state in which all responses have passed their once. Some request then carries
      AllSucceeded if and only if some once was still open when the last success was counted. */
  lemma ReportedIff(b: Group, noFirstD: bool, clientFirstD: bool, d: nat, p: nat, a: Action, more: seq<Action>,
                    e: Group)
    requires Reachable(b, true, noFirstD, clientFirstD, d, p, false) && d + p <= MAX16
    requires Enabled(b, a, false) && !AllCounted(b) && AllCounted(Apply(b, a)) && Runs(Apply(b, a), more, e, false)
    requires forall i :: 0 <= i < |e.chunks| ==> e.chunks[i].once.Done?
    ensures |e.chunks| == |b.chunks|
    ensures (exists i :: 0 <= i < |e.chunks| && e.chunks[i].once.allSucceeded) <==>
      exists i :: 0 <= i < |b.chunks| && !b.chunks[i].once.Done?
  {
    ReachableHolds(b, true, noFirstD, clientFirstD, d, p, false);
    ReportedFrom(b, a, more, e);
  }

  lemma ReportedFrom(b: Group, a: Action, more: seq<Action>, e: Group)
    requires Inv(b) && Faithful(b) && NeedsAll(b)
    requires Enabled(b, a, false) && !AllCounted(b) && AllCounted(Apply(b, a)) && Runs(Apply(b, a), more, e, false)
    requires forall i :: 0 <= i < |e.chunks| ==> e.chunks[i].once.Done?
    ensures |e.chunks| == |b.chunks|
    ensures (exists i :: 0 <= i < |e.chunks| && e.chunks[i].once.allSucceeded) <==>
      exists i :: 0 <= i < |b.chunks| && !b.chunks[i].once.Done?
  {
    var m := Apply(b, a);
    LastCount(b, a);
    StepKeepsInv(b, a);
    StepGrows(b, a, Succeeded);
    AllCountedFulfills(m);
    hide Inv, AllCounted, Apply, Enabled, Faithful, Runs, IsFulfilled;
    assert |m.chunks| > 0 by {
      SomethingMissing(b);
    }
    forall i | 0 <= i < |m.chunks|
      ensures |e.chunks| == |m.chunks|
      ensures m.chunks[i].once.Done? ==> e.chunks[i].once == m.chunks[i].once
      ensures !m.chunks[i].once.Done? && e.chunks[i].once.Done? ==> e.chunks[i].once.allSucceeded
    {
      AfterFulfilled(m, more, e, i);
    }
    assert 0 <= 0 < |m.chunks|;
    if exists i :: 0 <= i < |e.chunks| && e.chunks[i].once.allSucceeded {
      var i :| 0 <= i < |e.chunks| && e.chunks[i].once.allSucceeded;
      assert !m.chunks[i].once.Done?;
      assert m.chunks[i].once == b.chunks[i].once;
    }
    if exists i :: 0 <= i < |b.chunks| && !b.chunks[i].once.Done? {
      var i :| 0 <= i < |b.chunks| && !b.chunks[i].once.Done?;
      assert m.chunks[i].once == b.chunks[i].once;
      assert e.chunks[i].once.allSucceeded;
    }
  }

  lemma SomethingMissing(g: Group)
    requires !AllCounted(g)
    ensures |g.chunks| > 0
  {
  }

  /** No copies were made of any request, as of a SET. */
  ghost predicate OneCopyEach(g: Group) {
    forall t, u :: t in g.threads && u in g.threads && g.threads[t].chunk == g.threads[u].chunk ==>
      g.threads[t].copy == g.threads[u].copy
  }

  /** A request of which no copies were made: whoever ran the once of the chunk did so for the request whose response
      won, so the response confirms the object exactly if it is an answer and the once found all. */
  lemma RecordedForWinner(g: Group, isSet: bool, noFirstD: bool, clientFirstD: bool, d: nat, p: nat, i: nat)
    requires Reachable(g, isSet, noFirstD, clientFirstD, d, p, false) && d + p <= MAX16
    requires i < |g.chunks| && g.chunks[i].winner.By?
    requires OneCopyEach(g)
    ensures g.chunks[i].winner.t in g.threads && g.chunks[i].once.Done?
    ensures Confirms(g, i) <==> g.threads[g.chunks[i].winner.t].answer && g.chunks[i].once.allSucceeded
  {
    ReachableHolds(g, isSet, noFirstD, clientFirstD, d, p, false);
    var c := g.chunks[i];
    assert ChunkFits(c) && HoldersKnown(g, i, c);
    assert RecordedBy(g, i, c.once.copy);
    var t :| t in g.threads && g.threads[t].chunk == i && g.threads[t].copy == c.once.copy;
    assert g.threads[c.winner.t].copy == c.once.copy;
  }

  // ----- who counts a chunk, and how a responder ends -----

  /** A responder with an answer marks first; only one without finds the chunk unmarked in its once. */
  ghost predicate MarksFirst(th: Thread, c: Chunk) {
    && (th.place == Marking || th.place == Adding ==> th.answer)
    && (th.place == NotifyAdding ==> !th.answer)
    && (th.answer && th.place != Marking ==> !c.mark.Unmarked?)
  }

  /** Somebody of the chunk counted it: as a success if he has an answer, recovered if the answer is. */
  ghost predicate CountedBy(g: Group, i: nat, succeeded: bool, recovered: bool) {
    exists t :: Owns(g, t, i) && g.threads[t].answer == succeeded && g.threads[t].recovered == recovered
  }

  ghost predicate Honest(g: Group) {
    && (forall t :: t in g.threads && g.threads[t].chunk < |g.chunks| ==>
          MarksFirst(g.threads[t], g.chunks[g.threads[t].chunk]))
    && (forall i :: 0 <= i < |g.chunks| && g.chunks[i].mark.Counted? ==>
          CountedBy(g, i, g.chunks[i].mark.succeeded, g.chunks[i].mark.recovered))
  }

  lemma StepKeepsCounters(g: Group, a: Action, i: nat, succeeded: bool, recovered: bool)
    requires Enabled(g, a, false) && CountedBy(g, i, succeeded, recovered)
    ensures CountedBy(Apply(g, a), i, succeeded, recovered)
  {
    var t :| Owns(g, t, i) && g.threads[t].answer == succeeded && g.threads[t].recovered == recovered;
    assert Owns(Apply(g, a), t, i);
  }

  lemma StepCounts(g: Group, a: Action, i: nat)
    requires Inv(g) && Honest(g) && Enabled(g, a, false) && i < |g.chunks|
    ensures |Apply(g, a).chunks| == |g.chunks|
    ensures var mark := Apply(g, a).chunks[i].mark;
      mark.Counted? && mark != g.chunks[i].mark ==> CountedBy(Apply(g, a), i, mark.succeeded, mark.recovered)
    ensures !g.chunks[i].mark.Unmarked? ==> !Apply(g, a).chunks[i].mark.Unmarked?
  {
    hide Tallied, Count, Read, IsFulfilled;
    if !a.Begin? {
      var th := g.threads[a.t];
      assert ThreadFits(a.t, th, g.chunks[th.chunk]) && MarksFirst(th, g.chunks[th.chunk]);
      assert Owns(Apply(g, a), a.t, th.chunk);
    }
  }

  lemma StepMarksFirst(g: Group, a: Action, t: ThreadId)
    requires Inv(g) && Honest(g) && Enabled(g, a, false) && t in Apply(g, a).threads
    requires Apply(g, a).threads[t].chunk < |g.chunks|
    ensures |Apply(g, a).chunks| == |g.chunks|
    ensures MarksFirst(Apply(g, a).threads[t], Apply(g, a).chunks[Apply(g, a).threads[t].chunk])
  {
    StepCounts(g, a, Apply(g, a).threads[t].chunk);
    hide Tallied, Count, Read, IsFulfilled, HoldersKnown;
    if t in g.threads {
      var th := g.threads[t];
      assert ThreadFits(t, th, g.chunks[th.chunk]) && MarksFirst(th, g.chunks[th.chunk]);
    }
  }

  lemma StepKeepsHonest(g: Group, a: Action)
    requires Inv(g) && Honest(g) && Enabled(g, a, false)
    ensures Honest(Apply(g, a))
  {
    var g' := Apply(g, a);
    StepGrows(g, a, Returned);
    forall t | t in g'.threads && g'.threads[t].chunk < |g'.chunks|
      ensures MarksFirst(g'.threads[t], g'.chunks[g'.threads[t].chunk])
    {
      StepMarksFirst(g, a, t);
    }
    forall i | 0 <= i < |g'.chunks| && g'.chunks[i].mark.Counted?
      ensures CountedBy(g', i, g'.chunks[i].mark.succeeded, g'.chunks[i].mark.recovered)
    {
      StepCounts(g, a, i);
      if g'.chunks[i].mark == g.chunks[i].mark {
        StepKeepsCounters(g, a, i, g.chunks[i].mark.succeeded, g.chunks[i].mark.recovered);
      }
    }
  }

  lemma {:induction false} RunKeepsHonest(g: Group, actions: seq<Action>, e: Group)
    requires Inv(g) && Honest(g) && Runs(g, actions, e, false)
    ensures Honest(e)
    decreases |actions|
  {
    if |actions| > 0 {
      StepKeepsInv(g, actions[0]);
      StepKeepsHonest(g, actions[0]);
      hide Inv, Honest, Apply, Enabled;
      RunKeepsHonest(Apply(g, actions[0]), actions[1..], e);
    }
  }

  /** A chunk counts as succeeded only if somebody has an answer for it, as recovered only if that answer was, and as
      failed only if somebody had none; who has an answer has seen to it that the chunk is marked before he sets the
      response. */
  lemma SuccessIsAnswered(g: Group, isSet: bool, noFirstD: bool, clientFirstD: bool, d: nat, p: nat, i: nat)
    requires Reachable(g, isSet, noFirstD, clientFirstD, d, p, false) && d + p <= MAX16
    requires i < |g.chunks| && g.chunks[i].mark.Counted?
    ensures exists t ::
      && t in g.threads && g.threads[t].chunk == i
      && g.threads[t].answer == g.chunks[i].mark.succeeded && g.threads[t].recovered == g.chunks[i].mark.recovered
  {
    var start := Reset(isSet, noFirstD, clientFirstD, d, p);
    var actions :| Runs(start, actions, g, false);
    ResetHolds(isSet, noFirstD, clientFirstD, d, p);
    assert Honest(start);
    RunKeepsHonest(start, actions, g);
    hide Runs;
    assert CountedBy(g, i, g.chunks[i].mark.succeeded, g.chunks[i].mark.recovered);
    var t :| Owns(g, t, i) && g.threads[t].answer == g.chunks[i].mark.succeeded &&
      g.threads[t].recovered == g.chunks[i].mark.recovered;
    assert t in g.threads && g.threads[t].chunk == i;
  }

  /** Everybody has finished. */
  ghost predicate AtRest(g: Group) {
    forall t :: t in g.threads ==> g.threads[t].place == Won || g.threads[t].place == Lost
  }

  /** When all responders have finished, each chunk that had one is counted, its once is closed, and its response has
      a winner: nobody is left hanging. */
  lemma RestIsComplete(g: Group, isSet: bool, noFirstD: bool, clientFirstD: bool, d: nat, p: nat, t: ThreadId)
    requires Reachable(g, isSet, noFirstD, clientFirstD, d, p, false) && d + p <= MAX16
    requires AtRest(g) && t in g.threads
    ensures g.threads[t].chunk < |g.chunks|
    ensures var c := g.chunks[g.threads[t].chunk]; c.mark.Counted? && c.once.Done? && c.winner.By?
  {
    ReachableHolds(g, isSet, noFirstD, clientFirstD, d, p, false);
    var i := g.threads[t].chunk;
    var c := g.chunks[i];
    assert ThreadFits(t, g.threads[t], c) && ChunkFits(c) && HoldersKnown(g, i, c);
    if c.mark.Pending? {
      HolderIsBusy(g, i);
    }
  }

  lemma HolderIsBusy(g: Group, i: nat)
    requires Responders(g) && i < |g.chunks| && g.chunks[i].mark.Pending?
    ensures exists t :: t in g.threads && (g.threads[t].place == Adding || g.threads[t].place == NotifyAdding)
  {
    var t := g.chunks[i].mark.holder;
    assert HoldersKnown(g, i, g.chunks[i]) && ThreadFits(t, g.threads[t], g.chunks[i]);
  }

  // ----- successes counted before responses are set -----

  /** Whoever has entered the once of a chunk found it counted. */
  ghost predicate CountedFirst(g: Group) {
    forall i :: 0 <= i < |g.chunks| && !g.chunks[i].once.Idle? ==> Has(g.chunks[i], Succeeded)
  }

  lemma StepCountsFirst(g: Group, a: Action)
    requires Inv(g) && CountedFirst(g) && Enabled(g, a, true) && Enabled(g, a, false)
    ensures CountedFirst(Apply(g, a))
  {
    hide Count, Read, Tallied, HoldersKnown;
    if !a.Begin? {
      var i := g.threads[a.t].chunk;
      assert ThreadFits(a.t, g.threads[a.t], g.chunks[i]);
    }
  }

  /** A disciplined run is a run. */
  lemma {:induction false} RunAnyway(g: Group, actions: seq<Action>, e: Group)
    requires Runs(g, actions, e, true)
    ensures Runs(g, actions, e, false)
    decreases |actions|
  {
    hide Enabled, Apply;
    if |actions| > 0 {
      RunAnyway(Apply(g, actions[0]), actions[1..], e);
    }
  }

  /** Under the discipline the chunk counted last has an idle once, so the report is made. */
  lemma {:induction false} CountedFirstReports(g: Group, actions: seq<Action>, e: Group)
    requires Inv(g) && Faithful(g) && NeedsAll(g) && CountedFirst(g) && !AllCounted(g) && Runs(g, actions, e, true)
    requires forall i :: 0 <= i < |e.chunks| ==> e.chunks[i].once.Done?
    ensures |e.chunks| == |g.chunks| && exists i :: 0 <= i < |e.chunks| && e.chunks[i].once.allSucceeded
    decreases |actions|
  {
    if |actions| > 0 {
      var a := actions[0];
      var m := Apply(g, a);
      StepKeepsInv(g, a);
      StepKeepsFaithful(g, a);
      StepGrows(g, a, Succeeded);
      StepCountsFirst(g, a);
      assert NeedsAll(m);
      if AllCounted(m) {
        LastCount(g, a);
        assert g.chunks[g.threads[a.t].chunk].once.Idle?;
        RunAnyway(m, actions[1..], e);
        hide Inv, AllCounted, Apply, Faithful, CountedFirst;
        ReportedFrom(g, a, actions[1..], e);
      } else {
        hide Inv, AllCounted, Apply, Enabled, Faithful, CountedFirst, NeedsAll;
        CountedFirstReports(m, actions[1..], e);
      }
    }
  }

  /** If every chunk's success is counted before its response is set, then once all responses are set by answers, at
      least one of them confirms the object. */
  lemma SomeResponseConfirms(g: Group, noFirstD: bool, clientFirstD: bool, d: nat, p: nat)
    requires Reachable(g, true, noFirstD, clientFirstD, d, p, true) && 0 < d + p <= MAX16
    requires forall i :: 0 <= i < |g.chunks| ==>
      g.chunks[i].winner.By? && (g.chunks[i].winner.t in g.threads ==> g.threads[g.chunks[i].winner.t].answer)
    requires OneCopyEach(g)
    ensures exists i: nat :: Confirms(g, i)
  {
    hide OneCopyEach;
    DisciplinedIsReachable(g, noFirstD, clientFirstD, d, p);
    hide Reachable, Confirms;
    forall i | 0 <= i < |g.chunks|
      ensures g.chunks[i].once.Done?
    {
      RecordedForWinner(g, true, noFirstD, clientFirstD, d, p, i);
    }
    var i := SomeOnceReports(g, noFirstD, clientFirstD, d, p);
    RecordedForWinner(g, true, noFirstD, clientFirstD, d, p, i);
  }

  lemma DisciplinedIsReachable(g: Group, noFirstD: bool, clientFirstD: bool, d: nat, p: nat)
    requires Reachable(g, true, noFirstD, clientFirstD, d, p, true)
    ensures Reachable(g, true, noFirstD, clientFirstD, d, p, false)
  {
    var start := Reset(true, noFirstD, clientFirstD, d, p);
    var actions :| Runs(start, actions, g, true);
    hide Runs;
    RunAnyway(start, actions, g);
  }

  lemma SomeOnceReports(g: Group, noFirstD: bool, clientFirstD: bool, d: nat, p: nat) returns (i: nat)
    requires Reachable(g, true, noFirstD, clientFirstD, d, p, true) && 0 < d + p <= MAX16
    requires forall i :: 0 <= i < |g.chunks| ==> g.chunks[i].once.Done?
    ensures i < |g.chunks| && g.chunks[i].once.allSucceeded
  {
    var start := Reset(true, noFirstD, clientFirstD, d, p);
    var actions :| Runs(start, actions, g, true);
    hide Runs;
    ResetHolds(true, noFirstD, clientFirstD, d, p);
    NothingCountedYet(noFirstD, clientFirstD, d, p);
    hide Inv, Faithful, CountedFirst, AllCounted, NeedsAll, Reachable, Reset;
    CountedFirstReports(start, actions, g);
    i :| 0 <= i < |g.chunks| && g.chunks[i].once.allSucceeded;
  }

  lemma NothingCountedYet(noFirstD: bool, clientFirstD: bool, d: nat, p: nat)
    requires d + p > 0
    ensures var start := Reset(true, noFirstD, clientFirstD, d, p);
      CountedFirst(start) && !AllCounted(start) && NeedsAll(start)
  {
    var start := Reset(true, noFirstD, clientFirstD, d, p);
    assert !Has(start.chunks[0], Succeeded);
  }

  // ----- what happens otherwise -----

  lemma {:induction false} RunSnoc(g: Group, actions: seq<Action>, e: Group, a: Action, disciplined: bool)
    requires Runs(g, actions, e, disciplined) && Enabled(e, a, disciplined) && Enabled(e, a, false)
    ensures Runs(g, actions + [a], Apply(e, a), disciplined)
    decreases |actions|
  {
    hide Enabled, Apply;
    if |actions| > 0 {
      RunSnoc(Apply(g, actions[0]), actions[1..], e, a, disciplined);
      assert (actions + [a])[1..] == actions[1..] + [a];
    } else {
      assert (actions + [a])[1..] == [];
      assert Runs(Apply(g, a), [], Apply(e, a), disciplined);
    }
  }

  lemma Reach(g: Group, a: Action, disciplined: bool) returns (e: Group)
    requires Reachable(g, true, false, false, 1, 0, disciplined) && Enabled(g, a, disciplined) && Enabled(g, a, false)
    ensures e == Apply(g, a) && Reachable(e, true, false, false, 1, 0, disciplined)
  {
    hide Enabled, Apply;
    var start := Reset(true, false, false, 1, 0);
    var actions :| Runs(start, actions, g, disciplined);
    RunSnoc(start, actions, g, a, disciplined);
    e := Apply(g, a);
  }

  /** An answer has marked the only chunk, and a timeout has entered its once. */
  lemma MarkedAndTimingOut() returns (g: Group)
    ensures Reachable(g, true, false, false, 1, 0, false)
    ensures g == Group(1, false, 0, [Chunk(Pending(0), Running(1), Nobody, false)],
                       map[0 := Thread(0, 0, true, false, false, Adding),
                           1 := Thread(0, 0, false, false, false, NotifyLoading)])
  {
    hide Runs, Reachable;
    g := OneChunk(false);
    g := Reach(g, Begin(0, 0, 0, true, false, false), false);
    g := Reach(g, Step(0), false);
    g := Reach(g, Begin(1, 0, 0, false, false, false), false);
    assert g.chunks == [Chunk(Pending(0), Idle, Nobody, false)] && g.word == 0;
    g := Reach(g, Step(1), false);
    g := Reach(g, Step(1), false);
  }

  /** A single chunk whose answer has marked it but not counted it yet when a timeout sets the response: all its
      chunks end up counted as succeeded and nobody ever reports it. */
  lemma ReportLostToTimeout() returns (g: Group)
    ensures Reachable(g, true, false, false, 1, 0, false)
    ensures |g.chunks| == 1 && g.chunks[0].mark == Counted(true, false) && g.chunks[0].winner.By?
    ensures g.chunks[0].once.Done? && !g.chunks[0].once.allSucceeded && !Confirms(g, 0)
  {
    hide Runs, Reachable;
    g := MarkedAndTimingOut();
    g := Reach(g, Step(1), false);
    g := Reach(g, Step(1), false);
    assert g.chunks == [Chunk(Pending(0), Done(0, false), By(1), false)];
    g := Reach(g, Step(0), false);
  }

  lemma OneChunk(disciplined: bool) returns (g: Group)
    ensures g == Group(1, false, 0, [Chunk(Unmarked, Idle, Nobody, false)], map[])
    ensures Reachable(g, true, false, false, 1, 0, disciplined)
  {
    g := Reset(true, false, false, 1, 0);
    assert Runs(g, [], g, disciplined);
  }
}
