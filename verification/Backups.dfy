/** Backup reservation, proxy/lambdastore/backups.go, and the key partition that the proxy and the backup nodes must
    agree on, common/types/backup_locator.go. */
module Backups {

  import opened Common

  type Id = nat   // an instance

  /** What ReserveBacking answers: granted, the instance is closed, or it is busy (recovering, or reserved by
      somebody). */
  datatype Outcome = Granted | Closed | Busy

  // ----- locator -----

  datatype Locator = Locator(enable: bool, backups: nat)

  function ResetLocator(l: Locator, num: nat): Locator {
    if num == 0 then l.(enable := false) else Locator(true, num)
  }

  /** Position of a key hash among the backups, if the locator is enabled. */
  function Locate(l: Locator, hash: nat): Option<nat> {
    if l.enable && l.backups > 0 then Some(hash % l.backups) else None
  }

  /** What a backup node is told: which backup it is, of how many, and the largest chunk to take. */
  datatype Assignment = Assignment(id: nat, total: nat, maxChunk: nat)

  /** The node's own filter on the operations it recovers. */
  predicate IsRecoverable(hash: nat, size: nat, a: Assignment) {
    var located := Locate(ResetLocator(Locator(false, 0), a.total), hash);
    var target := if located.Some? then located.value else 0;
    target == a.id && (a.maxChunk == 0 || size <= a.maxChunk)
  }

  /** Among any number of backups a key is taken by exactly one, the one the proxy's locator gives, and a chunk above
      the limit, if there is one, by none. */
  lemma ExactlyOneBackupPerKey(hash: nat, total: nat, size: nat, limit: nat, id: nat)
    requires total > 0
    ensures IsRecoverable(hash, size, Assignment(id, total, limit)) <==>
      Locate(Locator(true, total), hash) == Some(id) && (limit == 0 || size <= limit)
    ensures Locate(Locator(true, total), hash).Some? && Locate(Locator(true, total), hash).value < total
  {
  }

  lemma Remainder(j: nat, b: nat)
    requires j < b
    ensures j % b == j
  {
  }

  /** Number of positions below n at which two lists differ. */
  function Differences(a: seq<Option<Id>>, b: seq<Option<Id>>, n: nat): nat
    requires n <= |a| && n <= |b|
  {
    if n == 0 then 0 else Differences(a, b, n - 1) + (if a[n - 1] == b[n - 1] then 0 else 1)
  }

  lemma {:induction false} DifferencesBelow(a: seq<Option<Id>>, b: seq<Option<Id>>, c: seq<Option<Id>>, n: nat)
    requires n <= |a| && n <= |b| && n <= |c| && b[..n] == c[..n]
    ensures Differences(a, b, n) == Differences(a, c, n)
  {
    if n > 0 {
      assert b[n - 1] == b[..n][n - 1] && c[n - 1] == c[..n][n - 1];
      assert b[..n - 1] == b[..n][..n - 1] && c[..n - 1] == c[..n][..n - 1];
      DifferencesBelow(a, b, c, n - 1);
    }
  }

  /** The instances in the first n positions. */
  ghost function Filled(slots: seq<Option<Id>>, n: nat): set<Id>
    requires n <= |slots|
  {
    set j | 0 <= j < n && slots[j].Some? :: slots[j].value
  }

  ghost predicate Distinct(slots: seq<Option<Id>>, n: nat)
    requires n <= |slots|
  {
    forall j, k :: 0 <= j < k < n && slots[j].Some? && slots[k].Some? ==> slots[j] != slots[k]
  }

  /** No candidate is listed twice. */
  ghost predicate Unique(s: seq<Option<Id>>) {
    Distinct(s, |s|)
  }

  lemma UniqueSwap(s: seq<Option<Id>>, i: nat, j: nat)
    requires Unique(s) && i < |s| && j < |s|
    ensures Unique(s[i := s[j]][j := s[i]])
  {
  }

  lemma UniqueClear(s: seq<Option<Id>>, i: nat)
    requires Unique(s) && i < |s|
    ensures Unique(s[i := None])
  {
  }

  lemma UniquePrefix(s: seq<Option<Id>>, n: nat)
    requires Unique(s) && n <= |s|
    ensures Unique(s[..n])
  {
  }

  /** The last of the live ones takes the place of another. */
  lemma UniqueMove(s: seq<Option<Id>>, last: nat, at: nat)
    requires Unique(s) && last < |s| && at < |s|
    ensures Unique(s[last := None][at := s[last]])
  {
    var t := s[last := None][at := s[last]];
    forall j, k | 0 <= j < k < |t| && t[j].Some? && t[k].Some?
      ensures t[j] != t[k]
    {
    }
  }

  /** Takes position a out by moving the last entry there. */
  function TakeOut(s: seq<Option<Id>>, a: nat): seq<Option<Id>>
    requires a < |s|
  {
    s[a := s[|s| - 1]][..|s| - 1]
  }

  lemma TakeOutMembers(s: seq<Option<Id>>, a: nat)
    requires a < |s|
    ensures forall x :: x in TakeOut(s, a) ==> x in s
    ensures forall x :: x in s && x != s[a] ==> x in TakeOut(s, a)
  {
    forall x | x in s && x != s[a]
      ensures x in TakeOut(s, a)
    {
      var k :| 0 <= k < |s| && s[k] == x;
      assert TakeOut(s, a)[if k == |s| - 1 then a else k] == x;
    }
  }

  lemma SwapMembers(s: seq<Option<Id>>, i: nat, j: nat)
    requires i < |s| && j < |s|
    ensures forall x :: x in s[i := s[j]][j := s[i]] <==> x in s
  {
    var t := s[i := s[j]][j := s[i]];
    forall x | x in s
      ensures x in t
    {
      var k :| 0 <= k < |s| && s[k] == x;
      assert t[if k == i then j else if k == j then i else k] == x;
    }
  }

  lemma ClearedMembers(s: seq<Option<Id>>, i: nat)
    requires i < |s|
    ensures forall x :: x in s && x != s[i] ==> x in s[i := None]
    ensures forall id: Id :: Some(id) in s[i := None] ==> Some(id) in s
  {
    forall x | x in s && x != s[i]
      ensures x in s[i := None]
    {
      var k :| 0 <= k < |s| && s[k] == x;
      assert s[i := None][k] == x;
    }
  }

  /** No candidate is lost unless it answered that it is closed, and none is made up. */
  ghost predicate OnlyClosedLost(before: seq<Option<Id>>, now: seq<Option<Id>>, closed: set<Id>) {
    && (forall id: Id :: Some(id) in before && id !in closed ==> Some(id) in now)
    && (forall id: Id :: Some(id) in now ==> Some(id) in before)
  }

  /** All positions settled and nothing held from n on. */
  lemma SettledUpTo(slots: seq<Option<Id>>, candidates: seq<Option<Id>>, reserved: set<Id>, availables: nat, b: nat,
                    n: nat)
    requires Settled(slots, candidates, reserved, availables, b, b) && n <= b
    requires forall j :: n <= j < b ==> slots[j].None?
    ensures b <= |slots| && b <= |candidates| && (forall j :: b <= j < |candidates| ==> candidates[j].Some?)
    ensures reserved == Filled(slots, n) && Distinct(slots, n) && availables == |reserved|
    ensures forall j :: 0 <= j < n && slots[j].Some? ==> slots[j] == candidates[j]
  {
    TrimHoles(slots, n, b);
  }

  /** Everybody from position lo up to hi has answered that he is busy. */
  ghost predicate AllBusy(s: seq<Option<Id>>, lo: nat, hi: nat, busy: set<Id>) {
    hi <= |s| && forall j :: lo <= j < hi ==> s[j].Some? && s[j].value in busy
  }

  /** The candidate of a position that stays a hole is none or busy. */
  ghost predicate NotWilling(c: Option<Id>, busy: set<Id>) {
    c.Some? ==> c.value in busy
  }

  /** The lists are the same from lo up to hi. */
  ghost predicate Agree(s: seq<Option<Id>>, t: seq<Option<Id>>, lo: nat, hi: nat) {
    hi <= |s| && hi <= |t| && forall j :: lo <= j < hi ==> s[j] == t[j]
  }

  lemma AgreeBelow(s: seq<Option<Id>>, t: seq<Option<Id>>, lo: nat, hi: nat)
    requires hi <= |s| && hi <= |t| && s[..hi] == t[..hi]
    ensures Agree(s, t, lo, hi)
  {
    assert forall j :: 0 <= j < hi ==> s[j] == s[..hi][j] == t[..hi][j] == t[j];
  }

  lemma AgreeOn(s: seq<Option<Id>>, t: seq<Option<Id>>, u: seq<Option<Id>>, lo: nat, hi: nat)
    requires Agree(s, t, lo, hi) && Agree(t, u, lo, hi)
    ensures Agree(s, u, lo, hi)
  {
  }

  lemma AgreeCut(s: seq<Option<Id>>, t: seq<Option<Id>>, lo: nat, hi: nat, n: nat)
    requires Agree(s, t, lo, hi) && hi <= n <= |s|
    ensures Agree(s[..n], t, lo, hi)
  {
  }

  lemma AgreeNext(s: seq<Option<Id>>, t: seq<Option<Id>>, u: seq<Option<Id>>, i: nat, hi: nat)
    requires Agree(s, t, i + 1, hi) && Agree(t, u, i, hi) && i < hi
    ensures Agree(s, u, i + 1, hi) && t[i] == u[i]
  {
  }

  /** A position keeps its own candidate unless that has refused. */
  ghost predicate OwnFirst(own: Option<Id>, held: Option<Id>, refused: set<Id>) {
    own.Some? && held != own ==> own.value in refused
  }

  ghost predicate OwnsFirst(own: seq<Option<Id>>, held: seq<Option<Id>>, refused: set<Id>, n: nat) {
    n <= |own| && n <= |held| && forall j :: 0 <= j < n ==> OwnFirst(own[j], held[j], refused)
  }

  lemma OwnsFirstNext(own: seq<Option<Id>>, held: seq<Option<Id>>, refused: set<Id>, now: seq<Option<Id>>,
                      more: set<Id>, i: nat)
    requires OwnsFirst(own, held, refused, i) && i < |own| && i < |held| == |now| && now == held[i := now[i]]
    requires refused <= more && OwnFirst(own[i], now[i], more)
    ensures OwnsFirst(own, now, more, i + 1)
  {
  }

  lemma OwnsFirstMore(own: seq<Option<Id>>, held: seq<Option<Id>>, refused: set<Id>, more: set<Id>, n: nat)
    requires OwnsFirst(own, held, refused, n) && refused <= more
    ensures OwnsFirst(own, held, more, n)
  {
  }

  /** Where there is a hole, the candidate of the position is none or busy. */
  ghost predicate HolesUnwilling(slots: seq<Option<Id>>, candidates: seq<Option<Id>>, busy: set<Id>, n: nat) {
    n <= |slots| && n <= |candidates| && forall j :: 0 <= j < n && slots[j].None? ==> NotWilling(candidates[j], busy)
  }

  lemma HolesUnwillingNext(slots: seq<Option<Id>>, candidates: seq<Option<Id>>, busy: set<Id>, now: seq<Option<Id>>,
                           current: seq<Option<Id>>, more: set<Id>, i: nat)
    requires HolesUnwilling(slots, candidates, busy, i) && i < |slots| == |now| && now == slots[i := now[i]]
    requires i < |current| && current[..i] == candidates[..i] && busy <= more
    requires now[i].None? ==> NotWilling(current[i], more)
    ensures HolesUnwilling(now, current, more, i + 1)
  {
    assert forall j :: 0 <= j < i ==> current[j] == current[..i][j] == candidates[..i][j] == candidates[j];
  }

  /** The instances of a part of the fallback are the owner itself or among those named. */
  ghost predicate Among(fallback: seq<Id>, from: nat, to: nat, self: Id, named: set<Id>) {
    to <= |fallback| && forall k :: from <= k < to ==> fallback[k] == self || fallback[k] in named
  }

  /** Why a hole is left after the fallback: all of it has refused or is reserved, or as many in a row as are
      required refused. */
  ghost predicate GaveUp(fallback: seq<Id>, self: Id, required: nat, reserved: set<Id>, refused: set<Id>) {
    || Among(fallback, 0, |fallback|, self, reserved + refused)
    || exists from: nat {:trigger RefusedRow(fallback, from, self, required, refused)} ::
         RefusedRow(fallback, from, self, required, refused)
  }

  ghost predicate RefusedRow(fallback: seq<Id>, from: nat, self: Id, required: nat, refused: set<Id>) {
    Among(fallback, from, from + required, self, refused)
  }

  lemma AmongJoined(fallback: seq<Id>, from: nat, to: nat, self: Id, named: set<Id>, more: set<Id>)
    requires Among(fallback, 0, from, self, named) && Among(fallback, from, to, self, more)
    requires named <= more && from <= to
    ensures Among(fallback, 0, to, self, more)
  {
  }

  lemma GaveUpNow(fallback: seq<Id>, from: nat, to: nat, self: Id, required: nat, reserved: set<Id>, refused: set<Id>)
    requires Among(fallback, 0, to, self, reserved + refused) && Among(fallback, from, to, self, refused)
    requires to == |fallback| || to == from + required
    ensures GaveUp(fallback, self, required, reserved, refused)
  {
    if to < |fallback| {
      assert RefusedRow(fallback, from, self, required, refused);
    }
  }

  lemma GaveUpForGood(fallback: seq<Id>, self: Id, required: nat, reserved: set<Id>, refused: set<Id>,
                      moreReserved: set<Id>, moreRefused: set<Id>)
    requires GaveUp(fallback, self, required, reserved, refused) && reserved <= moreReserved && refused <= moreRefused
    ensures GaveUp(fallback, self, required, moreReserved, moreRefused)
  {
    if !Among(fallback, 0, |fallback|, self, reserved + refused) {
      var from: nat :| RefusedRow(fallback, from, self, required, refused);
      assert RefusedRow(fallback, from, self, required, moreRefused);
    }
  }

  lemma NoneLost(s: seq<Option<Id>>, closed: set<Id>)
    ensures OnlyClosedLost(s, s, closed)
  {
  }

  lemma ClosedLost(s: seq<Option<Id>>, i: nat, closed: set<Id>)
    requires i < |s| && (s[i].Some? ==> s[i].value in closed)
    ensures OnlyClosedLost(s, s[i := None], closed)
  {
    ClearedMembers(s, i);
  }

  lemma SameMembersLost(before: seq<Option<Id>>, now: seq<Option<Id>>, after: seq<Option<Id>>, closed: set<Id>)
    requires OnlyClosedLost(before, now, closed) && forall id: Id :: Some(id) in after <==> Some(id) in now
    ensures OnlyClosedLost(before, after, closed)
  {
  }

  lemma LostOnTheWay(a: seq<Option<Id>>, b: seq<Option<Id>>, c: seq<Option<Id>>, closed: set<Id>, more: set<Id>)
    requires OnlyClosedLost(a, b, closed) && OnlyClosedLost(b, c, more) && closed <= more
    ensures OnlyClosedLost(a, c, more)
  {
  }

  lemma SettledStart(slots: seq<Option<Id>>, candidates: seq<Option<Id>>, b: nat)
    requires b <= |slots| && b <= |candidates| && forall j :: b <= j < |candidates| ==> candidates[j].Some?
    ensures Settled(slots, candidates, {}, 0, 0, b)
  {
  }

  lemma MoreClosed(before: seq<Option<Id>>, now: seq<Option<Id>>, closed: set<Id>, more: set<Id>)
    requires OnlyClosedLost(before, now, closed) && closed <= more
    ensures OnlyClosedLost(before, now, more)
  {
  }

  /** A candidate was replaced only where a position that had been a hole is filled now. */
  ghost predicate Replaced(elected: seq<Option<Id>>, now: seq<Option<Id>>, held: seq<Option<Id>>,
                           slots: seq<Option<Id>>, b: nat)
    requires |elected| == |now| && |held| == |slots|
  {
    forall j :: 0 <= j < |now| && now[j] != elected[j] ==> j < b && j < |slots| && held[j].None? && slots[j].Some?
  }

  /** The first i of b positions are settled: each holds its candidate or nothing, exactly the granted instances are
      held, each once, and the candidates beyond the positions are all there. */
  ghost predicate Settled(slots: seq<Option<Id>>, candidates: seq<Option<Id>>, reserved: set<Id>, availables: nat,
                          i: nat, b: nat) {
    && i <= b <= |slots| && b <= |candidates|
    && (forall j :: b <= j < |candidates| ==> candidates[j].Some?)
    && (forall j :: 0 <= j < i && slots[j].Some? ==> slots[j] == candidates[j])
    && reserved == Filled(slots, i) && Distinct(slots, i)
    && availables == |reserved|
  }

  lemma HeldIsReserved(slots: seq<Option<Id>>, candidates: seq<Option<Id>>, reserved: set<Id>, availables: nat, b: nat)
    requires Settled(slots, candidates, reserved, availables, b, b)
    ensures b <= |slots| && b <= |candidates|
    ensures forall j :: 0 <= j < b && slots[j].Some? ==> slots[j] == candidates[j] && slots[j].value in reserved
  {
  }

  lemma SettledBounds(slots: seq<Option<Id>>, candidates: seq<Option<Id>>, reserved: set<Id>, availables: nat, i: nat,
                      b: nat)
    requires Settled(slots, candidates, reserved, availables, i, b)
    ensures i <= b <= |slots| && b <= |candidates| && forall j :: b <= j < |candidates| ==> candidates[j].Some?
  {
  }

  /** Position i goes to a newly granted candidate. */
  lemma SettleNext(slots: seq<Option<Id>>, candidates: seq<Option<Id>>, reserved: set<Id>, availables: nat, i: nat,
                   b: nat, x: Id, now: seq<Option<Id>>)
    requires Settled(slots, candidates, reserved, availables, i, b) && i < b && x !in reserved
    requires b <= |now| && now[i] == Some(x) && now[..i] == candidates[..i]
    requires forall j :: b <= j < |now| ==> now[j].Some?
    ensures Settled(slots[i := Some(x)], now, reserved + {x}, availables + 1, i + 1, b)
  {
    assert forall j :: 0 <= j < i ==> now[j] == now[..i][j] == candidates[j];
    assert forall j :: 0 <= j < i && slots[j].Some? ==> slots[j].value in Filled(slots, i);
  }

  lemma SettleHole(slots: seq<Option<Id>>, candidates: seq<Option<Id>>, reserved: set<Id>, availables: nat, i: nat,
                   b: nat)
    requires Settled(slots, candidates, reserved, availables, i, b) && i < b
    ensures Settled(slots[i := None], candidates, reserved, availables, i + 1, b)
  {
    var now := slots[i := None];
    assert forall j :: 0 <= j < i ==> now[j] == slots[j];
    assert Filled(now, i + 1) <= Filled(slots, i);
    assert Filled(slots, i) <= Filled(now, i + 1);
  }

  lemma FilledMore(slots: seq<Option<Id>>, i: nat, b: nat, x: Id)
    requires i < b <= |slots| && slots[i].None?
    ensures Filled(slots[i := Some(x)], b) == Filled(slots, b) + {x}
  {
    var now := slots[i := Some(x)];
    assert now[i] == Some(x);
    assert forall j :: 0 <= j < b && slots[j].Some? ==> now[j] == slots[j];
    assert forall j :: 0 <= j < b && j != i ==> now[j] == slots[j];
  }

  lemma DistinctMore(slots: seq<Option<Id>>, i: nat, b: nat, x: Id)
    requires i < b <= |slots| && Distinct(slots, b) && x !in Filled(slots, b)
    ensures Distinct(slots[i := Some(x)], b)
  {
    assert forall j :: 0 <= j < b && slots[j].Some? ==> slots[j].value in Filled(slots, b);
  }

  /** A hole is filled by somebody from outside the candidates. */
  lemma FillHole(slots: seq<Option<Id>>, candidates: seq<Option<Id>>, reserved: set<Id>, availables: nat, i: nat,
                 b: nat, x: Id)
    requires Settled(slots, candidates, reserved, availables, b, b) && i < b && slots[i].None? && x !in reserved
    ensures Settled(slots[i := Some(x)], candidates[i := Some(x)], reserved + {x}, availables + 1, b, b)
  {
    FilledMore(slots, i, b, x);
    DistinctMore(slots, i, b, x);
    hide Filled, Distinct;
  }

  lemma TrimHoles(slots: seq<Option<Id>>, n: nat, b: nat)
    requires n <= b <= |slots| && (forall j :: n <= j < b ==> slots[j].None?)
    ensures Filled(slots, n) == Filled(slots, b)
    ensures Distinct(slots, b) ==> Distinct(slots, n)
  {
  }

  /** Only the candidates changed, and not those of settled positions. */
  lemma SettleAgain(slots: seq<Option<Id>>, candidates: seq<Option<Id>>, reserved: set<Id>, availables: nat, i: nat,
                    b: nat, now: seq<Option<Id>>)
    requires Settled(slots, candidates, reserved, availables, i, b)
    requires b <= |now| && now[..i] == candidates[..i] && (forall j :: b <= j < |now| ==> now[j].Some?)
    ensures Settled(slots, now, reserved, availables, i, b)
  {
    assert forall j :: 0 <= j < i ==> now[j] == now[..i][j] == candidates[j];
  }

  class Backups {
    const self: Id
    /** Answers of the outside world to the n-th attempt of a call; other proxies' goroutines and instances closing
        or recovering at any time make them arbitrary. */
    const env: (nat, Id) -> Outcome

    var slots: seq<Option<Id>>       // the slice's backing array
    var len: nat                     // the slice's length
    var candidates: seq<Option<Id>>
    var required: nat
    var availables: nat
    var locator: Locator

    var attempts: nat
    var reserved: set<Id>            // granted in this call: an instance grants one reservation only
    ghost var closedSeen: set<Id>    // answered Closed in this call
    ghost var busySeen: set<Id>      // answered Busy in this call

    constructor (self: Id, env: (nat, Id) -> Outcome)
      ensures this.self == self && this.env == env && required == 0 && len == 0 && slots == []
    {
      this.self, this.env := self, env;
      slots, len, candidates, required, availables, locator := [], 0, [], 0, 0, Locator(false, 0);
      attempts, reserved, closedSeen, busySeen := 0, {}, {}, {};
    }

    ghost predicate Answered(id: Id, o: Outcome) {
      exists n: nat :: env(n, id) == o
    }

    /** Who was reserved was willing, who was seen closed said so, and who was seen busy said so or is the
        reservation of another position. */
    ghost predicate Truthful()
      reads `reserved, `closedSeen, `busySeen
    {
      && (forall id :: id in reserved ==> Answered(id, Granted))
      && (forall id :: id in closedSeen ==> Answered(id, Closed))
      && (forall id :: id in busySeen ==> id in reserved || Answered(id, Busy))
    }

    /** Answers are remembered as they were given. */
    twostate predicate Remembers()
      reads `reserved, `closedSeen, `busySeen
    {
      && old(closedSeen) <= closedSeen && old(busySeen) <= busySeen && old(reserved) <= reserved
      && (old(Truthful()) ==> Truthful())
    }

    ghost predicate Valid()
      reads this
    {
      && len <= |slots| && required <= |slots| && Positions() <= |candidates|
      && (forall j :: Positions() <= j < |candidates| ==> candidates[j].Some?)
    }

    /** Positions a reservation goes through: the slice is brought up to the required length, but a longer one is not
        cut. */
    function Positions(): nat
      reads this
    {
      if len < required then required else len
    }

    /** New candidates; what is held stays, and a slice that is too small is replaced by one of the required
        length. */
    method ResetCandidates(required: nat, candidates: seq<Option<Id>>)
      requires len <= |slots| && required <= |candidates| && len <= |candidates|
      requires forall j :: (if len < required then required else len) <= j < |candidates| ==> candidates[j].Some?
      modifies this
      ensures Valid() && this.required == required && this.candidates == candidates
      ensures |slots| == if |old(slots)| < required then required else |old(slots)|
      ensures len == if |old(slots)| < required then required else old(len)
      ensures old(len) <= len && slots[..old(len)] == old(slots[..len])
      ensures forall j :: old(len) <= j < len ==> slots[j].None?
    {
      if |slots| < required {
        slots := slots[..len] + seq(required - len, _ => None);
        len := required;
      }
      this.required := required;
      this.candidates := candidates;
    }

    method ReserveBacking(id: Id) returns (o: Outcome)
      modifies `attempts, `reserved, `closedSeen, `busySeen
      ensures o == Granted ==> id !in old(reserved) && reserved == old(reserved) + {id}
      ensures o != Granted ==> reserved == old(reserved)
      ensures closedSeen == if o == Closed then old(closedSeen) + {id} else old(closedSeen)
      ensures busySeen == if o == Busy then old(busySeen) + {id} else old(busySeen)
      ensures o == if old(env(attempts, id)) == Granted && id in old(reserved) then Busy else old(env(attempts, id))
      ensures Remembers()
    {
      o := env(attempts, id);
      assert Answered(id, o);
      if o == Granted && id in reserved {
        o := Busy;
      }
      attempts := attempts + 1;
      if o == Granted {
        reserved := reserved + {id};
      } else if o == Closed {
        closedSeen := closedSeen + {id};
      } else {
        busySeen := busySeen + {id};
      }
    }

    method AddToBackups(dest: nat, ins: Option<Id>) returns (change: nat)
      requires dest < |slots|
      modifies `slots, `availables
      ensures slots == old(slots)[dest := ins]
      ensures availables == old(availables) + (if ins.Some? then 1 else 0)
      ensures change == if old(slots[dest]) == ins then 0 else 1
    {
      change := if slots[dest] != ins then 1 else 0;
      slots := slots[dest := ins];
      if ins.Some? {
        availables := availables + 1;
      }
    }

    /** Exchanges the candidate at dest with the one at src and puts it into the position. */
    method PromoteCandidate(dest: nat, src: nat) returns (change: nat)
      requires dest < |slots| && dest < |candidates| && src < |candidates|
      modifies `slots, `availables, `candidates
      ensures slots == old(slots)[dest := old(candidates[src])]
      ensures candidates == old(candidates)[dest := old(candidates[src])][src := old(candidates[dest])]
      ensures availables == old(availables) + (if old(candidates[src]).Some? then 1 else 0)
      ensures change == if old(slots[dest] == candidates[src]) then 0 else 1
      ensures old(Unique(candidates)) ==> Unique(candidates)
    {
      if Unique(candidates) {
        UniqueSwap(candidates, dest, src);
      }
      hide Unique;
      change := AddToBackups(dest, candidates[src]);
      if dest != src {
        candidates := candidates[dest := candidates[src]][src := candidates[dest]];
      }
    }

    /** Walks the alternates from position alters on until one grants a reservation. Closed ones are moved behind the
        live ones. */
    method Scan(b: nat, alters: nat) returns (next: nat, live: nat, granted: bool)
      requires b <= alters <= |candidates| && (forall j :: b <= j < |candidates| ==> candidates[j].Some?)
      requires AllBusy(candidates, b, alters, busySeen)
      modifies `candidates, `attempts, `reserved, `closedSeen, `busySeen
      ensures b <= next <= live <= |candidates| && (forall j :: b <= j < live ==> candidates[j].Some?)
      ensures Remembers() && candidates[..b] == old(candidates[..b])
      ensures OnlyClosedLost(old(candidates), candidates[..live], closedSeen)
      ensures granted ==>
        && next < live && candidates[next].value !in old(reserved)
        && reserved == old(reserved) + {candidates[next].value}
      ensures !granted ==> next == live && reserved == old(reserved)
      ensures AllBusy(candidates, b, next, busySeen) && alters <= next && |candidates| == |old(candidates)|
      ensures old(Unique(candidates)) ==> Unique(candidates)
    {
      hide Unique;
      next, live := alters, |candidates|;   // live is len(candidates) - closed
      while next < live
        invariant b <= next <= live <= |candidates|
        invariant reserved == old(reserved)
        invariant Remembers() && candidates[..b] == old(candidates[..b])
        invariant forall j :: b <= j < live ==> candidates[j].Some?
        invariant OnlyClosedLost(old(candidates), candidates[..live], closedSeen)
        invariant AllBusy(candidates, b, next, busySeen) && alters <= next && |candidates| == |old(candidates)|
        invariant old(Unique(candidates)) ==> Unique(candidates)
        decreases live - next
      {
        var o := ReserveBacking(candidates[next].value);
        if o == Granted {
          return next, live, true;
        } else if o == Closed {
          live := DropLive(next, live, b);
        } else {
          next := next + 1;
        }
      }
      return next, live, false;
    }

    /** Exchanges an entry for the last live one and leaves it behind the live ones. */
    method DropLive(at: nat, live: nat, b: nat) returns (left: nat)
      requires b <= at < live <= |candidates| && (forall j :: b <= j < live ==> j == at || candidates[j].Some?)
      modifies `candidates
      ensures left == live - 1 && |candidates| == |old(candidates)|
      ensures candidates[..left] == TakeOut(old(candidates)[..live], at)
      ensures candidates[..b] == old(candidates[..b]) && (forall j :: b <= j < left ==> candidates[j].Some?)
      ensures forall j :: 0 <= j < at ==> candidates[j] == old(candidates[j])
      ensures forall x :: x in candidates[..left] ==> x in old(candidates)[..live]
      ensures forall x :: x in old(candidates)[..live] && x != old(candidates[at]) ==> x in candidates[..left]
      ensures old(Unique(candidates)) ==> Unique(candidates)
    {
      if Unique(candidates) {
        UniqueMove(candidates, live - 1, at);
      }
      hide Unique;
      TakeOutMembers(candidates[..live], at);
      candidates := candidates[live - 1 := None][at := candidates[live - 1]];
      left := live - 1;
      assert candidates[..left] == TakeOut(old(candidates)[..live], at);
    }

    /** Puts the alternate at position at into position i; what it displaces takes its place among the alternates, or
        is cut off with the closed ones if it is none. */
    method Install(i: nat, at: nat, live: nat, b: nat) returns (next: nat, change: nat)
      requires i < b <= at < live <= |candidates| && i < |slots|
      requires forall j :: b <= j < live ==> candidates[j].Some?
      modifies `slots, `availables, `candidates
      ensures slots == old(slots)[i := old(candidates[at])] && availables == old(availables) + 1
      ensures change == if old(slots[i] == candidates[at]) then 0 else 1
      ensures b <= next <= |candidates| && candidates[..i] == old(candidates[..i])
      ensures candidates[i] == old(candidates[at]) && Agree(candidates, old(candidates), i + 1, b)
      ensures forall j :: b <= j < |candidates| ==> candidates[j].Some?
      ensures forall id: Id :: Some(id) in candidates <==> Some(id) in old(candidates[..live])
      ensures |candidates| <= |old(candidates)|
      ensures at <= next <= at + 1 && (forall j :: b <= j < at ==> candidates[j] == old(candidates[j]))
      ensures next == at + 1 ==> candidates[at] == old(candidates[i])
      ensures old(Unique(candidates)) ==> Unique(candidates)
    {
      hide Unique;
      ghost var was := candidates[..live];
      change := PromoteCandidate(i, at);
      ghost var promoted := candidates;
      SwapMembers(was, i, at);
      assert candidates[..live] == was[i := was[at]][at := was[i]];
      next := at;
      var left := live;
      if candidates[at].None? {
        left := DropLive(at, live, b);
        assert candidates[i] == candidates[..b][i];
        assert candidates[..i] == candidates[..b][..i];
        AgreeBelow(candidates, promoted, i + 1, b);
      } else {
        next := at + 1;
      }
      AgreeOn(candidates, promoted, old(candidates), i + 1, b);
      AgreeCut(candidates, old(candidates), i + 1, b, left);
      hide Agree;
      if Unique(candidates) {
        UniquePrefix(candidates, left);
      }
      candidates := candidates[..left];
    }

    /** Looks among the alternates for somebody to fill position i and cuts off the closed ones. Returns where the
        next search continues. */
    method Search(i: nat, b: nat, alters: nat) returns (next: nat, found: bool, change: nat)
      requires Settled(slots, candidates, reserved, availables, i, b) && i < b <= alters <= |candidates|
      requires AllBusy(candidates, b, alters, busySeen) && NotWilling(candidates[i], busySeen)
      modifies `slots, `availables, `candidates, `attempts, `reserved, `closedSeen, `busySeen
      ensures Settled(slots, candidates, reserved, availables, if found then i + 1 else i, b)
      ensures b <= next <= |candidates|
      ensures AllBusy(candidates, b, next, busySeen) && candidates[..i] == old(candidates[..i])
      ensures Agree(candidates, old(candidates), i + 1, b)
      ensures !found ==> next == |candidates|
      ensures alters == |old(candidates)| ==> !found
      ensures |candidates| <= |old(candidates)|
      ensures Remembers() && OnlyClosedLost(old(candidates), candidates, closedSeen)
      ensures found ==>
        && slots[i].Some? && slots == old(slots)[i := slots[i]]
        && change == (if old(slots[i]) == slots[i] then 0 else 1)
      ensures !found ==> slots == old(slots) && candidates[i] == old(candidates[i])
      ensures old(Unique(candidates)) ==> Unique(candidates)
    {
      hide Unique;
      var live;
      hide Filled, Distinct, OnlyClosedLost, Settled;
      SettledBounds(slots, candidates, reserved, availables, i, b);
      next, live, found := Scan(b, alters);
      assert candidates[..i] == candidates[..b][..i] && candidates[i] == candidates[..b][i];
      AgreeBelow(candidates, old(candidates), i + 1, b);
      ghost var scanned := candidates;
      hide Agree;
      change := 0;
      if found {
        ghost var x := candidates[next].value;
        ghost var alive := candidates[..live];
        next, change := Install(i, next, live, b);
        AgreeOn(candidates, scanned, old(candidates), i + 1, b);
        SameMembersLost(old(candidates), alive, candidates, closedSeen);
        SettleNext(old(slots), old(candidates), old(reserved), old(availables), i, b, x, candidates);
      } else {
        ghost var before := candidates;
        if Unique(candidates) {
          UniquePrefix(candidates, live);
        }
        candidates := candidates[..live];
        AgreeCut(before, old(candidates), i + 1, b, live);
        assert candidates[..i] == before[..i] == old(candidates)[..b][..i] == old(candidates)[..i];
        SettleAgain(old(slots), old(candidates), old(reserved), old(availables), i, b, candidates);
      }
    }

    /** Positions below i are accounted for in the number of trailing holes. */
    ghost predicate TrailingHoles(i: nat, failures: nat)
      reads `slots
    {
      && failures <= i <= |slots|
      && (forall j :: i - failures <= j < i ==> slots[j].None?)
      && (failures < i ==> slots[i - failures - 1].Some?)
    }

    /** The election: every position gets its own candidate if it can be reserved, some alternate otherwise, or
        nothing. */
    method Elect(b: nat) returns (changes: nat, failures: nat)
      requires 0 < b <= |slots| && b <= |candidates| && (forall j :: b <= j < |candidates| ==> candidates[j].Some?)
      requires availables == 0 && reserved == {}
      modifies `slots, `availables, `candidates, `attempts, `reserved, `closedSeen, `busySeen
      ensures Settled(slots, candidates, reserved, availables, b, b) && |slots| == |old(slots)|
      ensures TrailingHoles(b, failures)
      ensures changes == Differences(old(slots), slots, b)
      ensures Remembers() && OnlyClosedLost(old(candidates), candidates, closedSeen)
      ensures HolesUnwilling(slots, candidates, busySeen, b)
      ensures (exists j :: 0 <= j < b && slots[j].None?) ==> AllBusy(candidates, b, |candidates|, busySeen)
      ensures OwnsFirst(old(candidates), slots, closedSeen + busySeen, b)
      ensures |candidates| <= |old(candidates)|
      ensures old(Unique(candidates)) ==> Unique(candidates)
    {
      NoneLost(candidates, closedSeen);
      hide Unique, OnlyClosedLost, Settled;
      assert ElectedUpTo(candidates, 0, b);
      hide ElectedUpTo;
      SettledStart(slots, candidates, b);
      changes, failures := 0, 0;
      var alters := b;
      var i := 0;
      ghost var someHole := false;
      while i < b
        invariant 0 <= i <= b <= alters <= |candidates| && |slots| == |old(slots)|
        invariant Settled(slots, candidates, reserved, availables, i, b) && TrailingHoles(i, failures)
        invariant slots[i..] == old(slots)[i..] && changes == Differences(old(slots), slots, i)
        invariant Remembers() && ElectedUpTo(old(candidates), i, b)
        invariant AllBusy(candidates, b, alters, busySeen) && |candidates| <= |old(candidates)|
        invariant someHole ==> alters == |candidates|
        invariant forall j :: 0 <= j < i && slots[j].None? ==> someHole
        invariant old(Unique(candidates)) ==> Unique(candidates)
      {
        ghost var before := slots;
        var hole, change;
        alters, hole, change := ElectNext(i, b, alters, old(candidates));
        DifferencesBelow(old(slots), before, slots, i);
        changes := changes + change;
        failures := if hole then failures + 1 else 0;
        someHole := someHole || hole;
        i := i + 1;
      }
      ElectedAll(old(candidates), b);
    }

    /** What the election has kept for the first i positions, the candidates having been was at first. */
    ghost predicate ElectedUpTo(was: seq<Option<Id>>, i: nat, b: nat)
      reads `slots, `candidates, `closedSeen, `busySeen
    {
      && OnlyClosedLost(was, candidates, closedSeen) && Agree(candidates, was, i, b)
      && OwnsFirst(was, slots, closedSeen + busySeen, i) && HolesUnwilling(slots, candidates, busySeen, i)
    }

    lemma ElectedAll(was: seq<Option<Id>>, b: nat)
      requires ElectedUpTo(was, b, b)
      ensures OnlyClosedLost(was, candidates, closedSeen)
      ensures OwnsFirst(was, slots, closedSeen + busySeen, b) && HolesUnwilling(slots, candidates, busySeen, b)
    {
    }

    /** One more position. */
    method ElectNext(i: nat, b: nat, alters: nat, ghost was: seq<Option<Id>>)
      returns (next: nat, hole: bool, change: nat)
      requires Settled(slots, candidates, reserved, availables, i, b) && i < b <= alters <= |candidates|
      requires AllBusy(candidates, b, alters, busySeen) && ElectedUpTo(was, i, b)
      modifies `slots, `availables, `candidates, `attempts, `reserved, `closedSeen, `busySeen
      ensures Settled(slots, candidates, reserved, availables, i + 1, b) && b <= next <= |candidates|
      ensures AllBusy(candidates, b, next, busySeen) && ElectedUpTo(was, i + 1, b)
      ensures (hole ==> next == |candidates|) && (alters == |old(candidates)| ==> next == |candidates|)
      ensures |candidates| <= |old(candidates)| && b <= |slots|
      ensures slots == old(slots)[i := slots[i]] && hole == slots[i].None?
      ensures change == if old(slots[i]) == slots[i] then 0 else 1
      ensures Remembers() && (old(Unique(candidates)) ==> Unique(candidates))
    {
      hide Unique, OnlyClosedLost, Settled, Agree, OwnsFirst, HolesUnwilling, NotWilling, OwnFirst;
      SettledBounds(slots, candidates, reserved, availables, i, b);
      next, hole, change := ElectOne(i, b, alters);
      SettledBounds(slots, candidates, reserved, availables, i + 1, b);
      AgreeNext(candidates, old(candidates), was, i, b);
      LostOnTheWay(was, old(candidates), candidates, old(closedSeen), closedSeen);
      OwnsFirstNext(was, old(slots), old(closedSeen + busySeen), slots, closedSeen + busySeen, i);
      HolesUnwillingNext(old(slots), old(candidates), old(busySeen), slots, candidates, busySeen, i);
    }

    /** Tries the position's own candidate; a closed one is forgotten. */
    method TryOwn(i: nat, b: nat) returns (granted: bool, change: nat)
      requires Settled(slots, candidates, reserved, availables, i, b) && i < b
      modifies `slots, `availables, `candidates, `attempts, `reserved, `closedSeen, `busySeen
      ensures Settled(slots, candidates, reserved, availables, if granted then i + 1 else i, b)
      ensures candidates == old(candidates) || candidates == old(candidates)[i := None]
      ensures !granted ==> NotWilling(candidates[i], busySeen)
      ensures OwnFirst(old(candidates[i]), if granted then slots[i] else None, closedSeen + busySeen)
      ensures granted ==>
        && slots[i].Some? && slots == old(slots)[i := slots[i]]
        && change == (if old(slots[i]) == slots[i] then 0 else 1)
      ensures !granted ==> slots == old(slots)
      ensures Remembers() && OnlyClosedLost(old(candidates), candidates, closedSeen)
      ensures old(Unique(candidates)) ==> Unique(candidates)
    {
      hide Filled, Distinct, Unique, OnlyClosedLost, Settled;
      SettledBounds(slots, candidates, reserved, availables, i, b);
      NoneLost(candidates, closedSeen);
      if candidates[i].Some? && Unique(candidates) {
        UniqueClear(candidates, i);
      }
      granted, change := false, 0;
      if candidates[i].Some? {
        ghost var x := candidates[i].value;
        var o := ReserveBacking(candidates[i].value);
        if o == Granted {
          change := PromoteCandidate(i, i);
          granted := true;
          assert candidates == old(candidates);
          NoneLost(candidates, closedSeen);
          SettleNext(old(slots), old(candidates), old(reserved), old(availables), i, b, x, candidates);
        } else if o == Closed {
          candidates := candidates[i := None];
          SettleAgain(slots, old(candidates), reserved, availables, i, b, candidates);
          ClosedLost(old(candidates), i, closedSeen);
        }
      }
    }

    method ElectOne(i: nat, b: nat, alters: nat) returns (next: nat, hole: bool, change: nat)
      requires Settled(slots, candidates, reserved, availables, i, b) && i < b <= alters <= |candidates|
      requires AllBusy(candidates, b, alters, busySeen)
      modifies `slots, `availables, `candidates, `attempts, `reserved, `closedSeen, `busySeen
      ensures Settled(slots, candidates, reserved, availables, i + 1, b) && b <= next <= |candidates|
      ensures AllBusy(candidates, b, next, busySeen) && candidates[..i] == old(candidates[..i])
      ensures hole ==> next == |candidates| && NotWilling(candidates[i], busySeen)
      ensures alters == |old(candidates)| ==> next == |candidates|
      ensures |candidates| <= |old(candidates)|
      ensures slots == old(slots)[i := slots[i]] && hole == slots[i].None?
      ensures Agree(candidates, old(candidates), i + 1, b)
      ensures OwnFirst(old(candidates[i]), slots[i], closedSeen + busySeen)
      ensures change == if old(slots[i]) == slots[i] then 0 else 1
      ensures Remembers() && OnlyClosedLost(old(candidates), candidates, closedSeen)
      ensures old(Unique(candidates)) ==> Unique(candidates)
    {
      hide Filled, Distinct, Unique;
      var found;
      found, change := TryOwn(i, b);
      next := alters;
      if !found {
        next, found, change := Search(i, b, alters);
      }
      hole := !found;
      if hole {
        SettleHole(slots, candidates, reserved, availables, i, b);
        change := AddToBackups(i, None);
      }
    }

    /** Goes through at most required fallback instances, skipping the owner itself, for position i. */
    method TryFallback(i: nat, b: nat, fallback: seq<Id>, from: nat) returns (next: nat, found: bool)
      requires Settled(slots, candidates, reserved, availables, b, b) && i < b && slots[i].None? && from <= |fallback|
      modifies `slots, `availables, `candidates, `attempts, `reserved, `closedSeen, `busySeen
      ensures Settled(slots, candidates, reserved, availables, b, b) && from <= next <= |fallback|
      ensures |slots| == |old(slots)| && |candidates| == |old(candidates)|
      ensures forall j :: 0 <= j < |slots| && j != i ==> slots[j] == old(slots[j])
      ensures found == slots[i].Some? && slots[i] != Some(self)
      ensures candidates == if found then old(candidates)[i := slots[i]] else old(candidates)
      ensures Remembers()
      ensures found ==> slots[i].value in fallback
      ensures Among(fallback, from, next, self, reserved + (closedSeen + busySeen)) && next <= from + required
      ensures !found ==>
        && Among(fallback, from, next, self, closedSeen + busySeen) && (next == |fallback| || next - from == required)
    {
      hide Filled, Distinct;
      next, found := from, false;
      var j := 0;
      while j < required && next < |fallback|
        invariant Settled(slots, candidates, reserved, availables, b, b) && from <= next <= |fallback|
        invariant slots == old(slots) && candidates == old(candidates) && !found && Remembers()
        invariant next == from + j && j <= required && Among(fallback, from, next, self, closedSeen + busySeen)
        decreases required - j
      {
        var candidate := fallback[next];
        next, j := next + 1, j + 1;
        if candidate != self {
          ghost var before := reserved;
          var o := ReserveBacking(candidate);
          if o == Granted {
            FillHole(slots, candidates, before, availables, i, b, candidate);
            candidates := candidates[i := Some(candidate)];
            var _ := AddToBackups(i, Some(candidate));
            found := true;
            break;
          }
        }
      }
    }

    /** Fills the holes from the fallback iterator as far as it goes; what is filled stays. */
    method Failover(b: nat, fallback: seq<Id>) returns (failures: nat)
      requires Settled(slots, candidates, reserved, availables, b, b)
      modifies `slots, `availables, `candidates, `attempts, `reserved, `closedSeen, `busySeen
      ensures Settled(slots, candidates, reserved, availables, b, b) && TrailingHoles(b, failures)
      ensures |slots| == |old(slots)| && |candidates| == |old(candidates)|
      ensures forall j :: 0 <= j < b && old(slots[j]).Some? ==> slots[j] == old(slots[j])
      ensures forall j :: 0 <= j < b && old(slots[j]).None? ==> slots[j] != Some(self)
      ensures forall j :: 0 <= j < |candidates| && candidates[j] != old(candidates)[j] ==>
        j < b && old(slots[j]).None? && slots[j].Some?
      ensures Remembers()
      ensures forall j :: 0 <= j < b && old(slots[j]).None? && slots[j].Some? ==> slots[j].value in fallback
      ensures forall j :: 0 <= j < b && slots[j].None? ==>
        GaveUp(fallback, self, required, reserved, closedSeen + busySeen)
    {
      hide GaveUp, Settled;
      SettledBounds(slots, candidates, reserved, availables, b, b);
      assert Among(fallback, 0, 0, self, reserved + (closedSeen + busySeen));
      hide Among;
      failures := 0;
      var i, next := 0, 0;
      ghost var someHole := false;
      while i < b
        invariant 0 <= i <= b <= |slots| && b <= |candidates| && next <= |fallback| && TrailingHoles(i, failures)
        invariant Settled(slots, candidates, reserved, availables, b, b)
        invariant |slots| == |old(slots)| && |candidates| == |old(candidates)|
        invariant forall j :: i <= j < |slots| ==> slots[j] == old(slots[j])
        invariant forall j :: 0 <= j < i && old(slots[j]).Some? ==> slots[j] == old(slots[j])
        invariant forall j :: 0 <= j < i && old(slots[j]).None? ==> slots[j] != Some(self)
        invariant Remembers()
        invariant Among(fallback, 0, next, self, reserved + (closedSeen + busySeen))
        invariant forall j :: 0 <= j < i && old(slots[j]).None? && slots[j].Some? ==> slots[j].value in fallback
        invariant forall j :: 0 <= j < i && slots[j].None? ==> someHole
        invariant someHole ==> GaveUp(fallback, self, required, reserved, closedSeen + busySeen)
        invariant forall j :: 0 <= j < |candidates| && candidates[j] != old(candidates)[j] ==>
          j < i && old(slots[j]).None? && slots[j].Some?
      {
        if slots[i].Some? {
          failures := 0;
        } else {
          var found;
          ghost var from, had, refused := next, reserved, closedSeen + busySeen;
          next, found := TryFallback(i, b, fallback, next);
          AmongJoined(fallback, from, next, self, had + refused, reserved + (closedSeen + busySeen));
          if someHole {
            GaveUpForGood(fallback, self, required, had, refused, reserved, closedSeen + busySeen);
          }
          if !found {
            GaveUpNow(fallback, from, next, self, required, reserved, closedSeen + busySeen);
            someHole := true;
          }
          failures := if found then 0 else failures + 1;
        }
        i := i + 1;
      }
    }

    /** Reserves backups. Whatever the outside world answers, the instances granted in this call are exactly the ones
        now held, each in one position and counted in availables; every holder is the candidate of its position;
        there is no hole at the end; the alternates are still complete. held and elected are the positions and
        candidates after the election, before the fallback: changes counts the differences to held, the fallback adds
        to held only where it has holes, and a candidate is lost only if it answered that it is closed or a fallback
        took its position. A position stays a hole after the election only if its candidate and every alternate still
        listed were busy, and after the fallback only if that refused, too. Keys are then rerouted to exactly the
        reserved instances, each by the position of its hash. A position goes to somebody else than its own candidate
        only if that has refused, so backups do not move without need. */
    method Reserve(fallback: Option<seq<Id>>)
      returns (changes: nat, ghost held: seq<Option<Id>>, ghost elected: seq<Option<Id>>)
      requires Valid()
      modifies this
      ensures required == old(required) && (old(len <= required) ==> Valid())
      ensures len <= |slots| && len <= |candidates| && old(Positions()) <= |candidates|
      ensures forall j :: old(Positions()) <= j < |candidates| ==> candidates[j].Some?
      ensures old(required) == 0 ==>
        changes == 0 && slots == old(slots) && candidates == old(candidates) && len == old(len)
      ensures old(required) > 0 ==>
        && reserved == Filled(slots, len) && Distinct(slots, len) && availables == |reserved|
        && (forall j :: 0 <= j < len && slots[j].Some? ==> slots[j] == candidates[j])
        && (len > 0 ==> slots[len - 1].Some?)
        && locator == Locator(true, old(Positions())) && Serves(old(Positions()))
      ensures old(required) > 0 ==>
        && |held| == |slots| == |old(slots)| && changes == Differences(old(slots), held, old(Positions()))
        && (forall j :: 0 <= j < old(Positions()) && held[j].Some? ==> slots[j] == held[j])
        && (fallback.None? ==> held == slots && elected == candidates)
      ensures old(required) > 0 ==> OnlyClosedLost(old(candidates), elected, closedSeen)
      ensures old(required) > 0 ==>
        |elected| == |candidates| && Replaced(elected, candidates, held, slots, old(Positions()))
      ensures old(required) > 0 ==>
        old(Positions()) <= |slots| && forall j :: len <= j < old(Positions()) ==> slots[j].None?
      ensures old(required) > 0 && old(Unique(candidates)) ==> Unique(elected)
      ensures Truthful()
      ensures old(required) > 0 ==>
        && HolesExplained(held, elected, old(Positions()))
        && OwnsFirst(old(candidates), held, closedSeen + busySeen, old(Positions()))
        && (forall j :: 0 <= j < old(Positions()) && held[j].Some? ==>
              held[j] == elected[j] && held[j].value in reserved)
        && |elected| <= |old(candidates)|
      ensures old(required) > 0 && fallback.Some? ==> forall j :: 0 <= j < old(Positions()) ==>
        && (held[j].None? && slots[j].Some? ==> slots[j].value in fallback.value)
        && (slots[j].None? ==> GaveUp(fallback.value, self, required, reserved, closedSeen + busySeen))
    {
      hide Filled, Distinct, OnlyClosedLost, Replaced, Settled, Unique, GaveUp, HolesExplained, Serves, OwnsFirst;
      attempts, reserved, closedSeen, busySeen := 0, {}, {}, {};
      held, elected := slots, candidates;
      if required == 0 {
        return 0, held, elected;
      }
      availables := 0;
      changes, held, elected := ReservePositions(Positions(), fallback);
    }

    method ReservePositions(b: nat, fallback: Option<seq<Id>>)
      returns (changes: nat, ghost held: seq<Option<Id>>, ghost elected: seq<Option<Id>>)
      requires 0 < b <= |slots| && b <= |candidates| && (forall j :: b <= j < |candidates| ==> candidates[j].Some?)
      requires availables == 0 && reserved == {} && required > 0
      modifies `slots, `len, `availables, `candidates, `attempts, `reserved, `closedSeen, `busySeen, `locator
      ensures len <= b <= |slots| && b <= |candidates| && forall j :: b <= j < |candidates| ==> candidates[j].Some?
      ensures reserved == Filled(slots, len) && Distinct(slots, len) && availables == |reserved|
      ensures forall j :: 0 <= j < len && slots[j].Some? ==> slots[j] == candidates[j]
      ensures (len > 0 ==> slots[len - 1].Some?) && forall j :: len <= j < b ==> slots[j].None?
      ensures locator == Locator(true, b) && Serves(b)
      ensures |held| == |slots| == |old(slots)| && changes == Differences(old(slots), held, b)
      ensures |elected| == |candidates| <= |old(candidates)| && Replaced(elected, candidates, held, slots, b)
      ensures forall j :: 0 <= j < b && held[j].Some? ==>
        slots[j] == held[j] == elected[j] && held[j].value in reserved
      ensures fallback.None? ==> held == slots && elected == candidates
      ensures OnlyClosedLost(old(candidates), elected, closedSeen) && (old(Unique(candidates)) ==> Unique(elected))
      ensures Remembers() && HolesExplained(held, elected, b)
      ensures OwnsFirst(old(candidates), held, closedSeen + busySeen, b)
      ensures fallback.Some? ==> forall j :: 0 <= j < b ==>
        && (held[j].None? && slots[j].Some? ==> slots[j].value in fallback.value)
        && (slots[j].None? ==> GaveUp(fallback.value, self, required, reserved, closedSeen + busySeen))
    {
      hide Filled, Distinct, OnlyClosedLost, Replaced, Settled, Unique, GaveUp, HolesExplained, Serves, OwnsFirst;
      var failures;
      changes, failures, held, elected := FillPositions(b, fallback);
      locator := ResetLocator(locator, b);
      len := b - failures;
      SettledUpTo(slots, candidates, reserved, availables, b, len);
      ServesReserved(b);
    }

    /** Where the election left a hole, the position's own candidate is gone or busy, and so is every alternate. */
    ghost predicate HolesExplained(held: seq<Option<Id>>, elected: seq<Option<Id>>, b: nat)
      reads `busySeen
    {
      && b <= |held| && b <= |elected|
      && forall j :: 0 <= j < b && held[j].None? ==>
           NotWilling(elected[j], busySeen) && AllBusy(elected, b, |elected|, busySeen)
    }

    /** The election and, if there is one, the fallback. */
    method FillPositions(b: nat, fallback: Option<seq<Id>>)
      returns (changes: nat, failures: nat, ghost held: seq<Option<Id>>, ghost elected: seq<Option<Id>>)
      requires 0 < b <= |slots| && b <= |candidates| && (forall j :: b <= j < |candidates| ==> candidates[j].Some?)
      requires availables == 0 && reserved == {}
      modifies `slots, `availables, `candidates, `attempts, `reserved, `closedSeen, `busySeen
      ensures Settled(slots, candidates, reserved, availables, b, b) && TrailingHoles(b, failures)
      ensures |held| == |slots| == |old(slots)| && changes == Differences(old(slots), held, b)
      ensures forall j :: 0 <= j < b && held[j].Some? ==> slots[j] == held[j]
      ensures fallback.None? ==> held == slots && elected == candidates
      ensures OnlyClosedLost(old(candidates), elected, closedSeen)
      ensures |elected| == |candidates| && Replaced(elected, candidates, held, slots, b)
      ensures old(Unique(candidates)) ==> Unique(elected)
      ensures Remembers() && HolesExplained(held, elected, b)
      ensures forall j :: 0 <= j < b && held[j].Some? ==> held[j] == elected[j] && held[j].value in reserved
      ensures fallback.Some? ==> forall j :: 0 <= j < b && slots[j].None? ==>
        GaveUp(fallback.value, self, required, reserved, closedSeen + busySeen)
      ensures |elected| <= |old(candidates)| && (fallback.None? ==> held == slots)
      ensures OwnsFirst(old(candidates), held, closedSeen + busySeen, b)
      ensures fallback.Some? ==>
        forall j :: 0 <= j < b && held[j].None? && slots[j].Some? ==> slots[j].value in fallback.value
    {
      hide Filled, Distinct, OnlyClosedLost, Unique, GaveUp, OwnsFirst;
      changes, failures := Elect(b);
      held, elected := slots, candidates;
      ghost var closed, busy := closedSeen, busySeen;
      HeldIsReserved(slots, candidates, reserved, availables, b);
      if fallback.Some? {
        failures := Failover(b, fallback.value);
        MoreClosed(old(candidates), elected, closed, closedSeen);
        OwnsFirstMore(old(candidates), held, closed + busy, closedSeen + busySeen, b);
      }
    }

    /** Starts the backup at position i: it is told its position and the number of positions. */
    function StartByIndex(i: nat, threshold: nat): Option<(Id, Assignment)>
      reads this
    {
      if i >= len || i >= |slots| || slots[i].None? then None
      else Some((slots[i].value, Assignment(i, required, threshold)))
    }

    /** Where the proxy sends a GET for a key with the given hash during recovery. */
    function GetByHash(hash: nat): Option<(nat, Id)>
      reads this
    {
      var loc := Locate(locator, hash);
      if loc.None? || loc.value >= len || loc.value >= |slots| || slots[loc.value].None? then None
      else Some((loc.value, slots[loc.value].value))
    }

    /** With b positions a key is rerouted if and only if its position is filled, and then to the instance there; so
        the instances that keys are rerouted to are exactly the reserved ones. */
    ghost predicate Serves(b: nat)
      reads this
    {
      && b > 0 && len <= |slots|
      && (forall hash: nat :: GetByHash(hash) ==
            if hash % b < len && slots[hash % b].Some? then Some((hash % b, slots[hash % b].value)) else None)
      && (forall hash: nat :: GetByHash(hash).Some? ==> GetByHash(hash).value.1 in reserved)
      && (forall x :: x in reserved ==> exists hash: nat :: GetByHash(hash).Some? && GetByHash(hash).value.1 == x)
    }

    lemma ServesReserved(b: nat)
      requires locator == Locator(true, b) && b > 0 && len <= b && len <= |slots| && reserved == Filled(slots, len)
      ensures Serves(b)
    {
      forall x | x in reserved
        ensures exists hash: nat :: GetByHash(hash).Some? && GetByHash(hash).value.1 == x
      {
        var j :| 0 <= j < len && slots[j] == Some(x);
        Remainder(j, b);
        assert GetByHash(j) == Some((j, x));
      }
    }

    /** The instances that are started are exactly the reserved ones, each told its own position and the number
        required. */
    lemma StartsReserved(threshold: nat)
      requires len <= |slots| && reserved == Filled(slots, len)
      ensures forall x :: x in reserved <==>
        exists i: nat :: StartByIndex(i, threshold).Some? && StartByIndex(i, threshold).value.0 == x
      ensures forall i: nat :: StartByIndex(i, threshold).Some? ==>
        slots[i] == Some(StartByIndex(i, threshold).value.0) &&
        StartByIndex(i, threshold).value.1 == Assignment(i, required, threshold)
    {
      forall x | x in reserved
        ensures exists i: nat :: StartByIndex(i, threshold).Some? && StartByIndex(i, threshold).value.0 == x
      {
        var i :| 0 <= i < len && slots[i] == Some(x);
        assert StartByIndex(i, threshold).value.0 == x;
      }
    }

    /** Whenever the proxy reroutes a chunk to a backup, that backup was started with an assignment whose own filter
        accepts the chunk, if and only if the two totals place the key alike: the locator has the number of
        positions, the backups are told the number required. The size threshold is told at the start and consulted
        again when rerouting; it is fixed once it is not zero. */
    lemma RerouteAcceptedIff(hash: nat, size: nat, told: nat, later: nat)
      requires locator.enable && locator.backups > 0 && required > 0
      requires GetByHash(hash).Some? && size <= later && (told == 0 || later == told)
      ensures var (loc, id) := GetByHash(hash).value;
        && StartByIndex(loc, told).Some? && StartByIndex(loc, told).value.0 == id
        && (IsRecoverable(hash, size, StartByIndex(loc, told).value.1) <==> hash % required == hash % locator.backups)
      ensures locator.backups == required ==> hash % required == hash % locator.backups
    {
    }
  }

  /** Exactly which candidates a reservation forgets: of those that did not answer that they are closed, the ones
      whose position was a hole that a fallback filled, unless a fallback reserved them again. The sequences are
      those Reserve speaks of: the candidates before, after the election and after the call, the positions after the
      election and after the call. */
  lemma LostIff(before: seq<Option<Id>>, elected: seq<Option<Id>>, now: seq<Option<Id>>, held: seq<Option<Id>>,
                slots: seq<Option<Id>>, closed: set<Id>, b: nat, id: Id)
    requires OnlyClosedLost(before, elected, closed) && Unique(elected)
    requires |elected| == |now| && |held| == |slots| && b <= |slots| && b <= |now|
    requires Replaced(elected, now, held, slots, b) && forall j :: 0 <= j < b && slots[j].Some? ==> slots[j] == now[j]
    requires Some(id) in before && id !in closed
    ensures Some(id) !in now <==>
      && (exists j :: 0 <= j < b && elected[j] == Some(id) && held[j].None? && slots[j].Some?)
      && Some(id) !in slots[..b]
  {
    assert Some(id) in elected;
    if Some(id) !in now {
      var j :| 0 <= j < |elected| && elected[j] == Some(id);
      assert now[j] != elected[j];
      forall k | 0 <= k < b
        ensures slots[k] != Some(id)
      {
        assert slots[k].Some? ==> slots[k] == now[k];
      }
    }
    if exists j :: 0 <= j < b && elected[j] == Some(id) && held[j].None? && slots[j].Some? {
      var j :| 0 <= j < b && elected[j] == Some(id) && held[j].None? && slots[j].Some?;
      forall k | 0 <= k < |now| && now[k] == Some(id)
        ensures Some(id) in slots[..b]
      {
        assert k != j ==> elected[k] != elected[j];
        assert k < b && slots[k] == now[k];
        assert slots[..b][k] == slots[k];
      }
    }
  }

  /** It does happen. One position, whose candidate is busy, and a willing fallback: whatever else holds, Reserve
      gives the position to the fallback and forgets the candidate. */
  method BusyCandidateForgotten(self: Id, busy: Id, other: Id) returns (b: Backups)
    requires busy != other && other != self
    ensures fresh(b) && b.slots == [Some(other)] && b.len == 1 && b.candidates == [Some(other)]
  {
    hide OwnsFirst, Unique, Replaced, Distinct, Differences, Backups.Serves, Backups.HolesExplained;
    b := new Backups(self, (n, id) => if id == busy then Busy else Granted);
    b.ResetCandidates(1, [Some(busy)]);
    var _, held, elected := b.Reserve(Some([other]));
    assert !b.Answered(busy, Granted);
    assert b.closedSeen == {} by {
      assert forall id :: !b.Answered(id, Closed);
    }
    assert !b.Answered(other, Busy);
    assert held[0].None?;
    assert [other][0] == other;
    assert b.slots[0] == Some(other);
  }

  /** The totals do disagree: required lowered to two while three positions are held, and a key with hash two. */
  lemma TotalsDisagree()
    ensures 2 % 2 != 2 % 3
    ensures Locate(Locator(true, 3), 2) == Some(2) && !IsRecoverable(2, 1, Assignment(2, 2, 0))
  {
  }
}
