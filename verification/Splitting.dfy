/** Arithmetic by which objects are cut into pieces, at places that have to agree: the ranged parts of a download
    (common/aws/s3/downloader.go) and the recovery of a chunk from them (lambda/types/types.go), the dummy encoder
    that splits large objects into fragments (client/ec.go), and the sizes of the fragments as computed again on
    reading (client/client_handlers.go). */
module Splitting {
  import opened Common

  // ----- ceiling division -----

  function Ceil(a: nat, b: nat): (q: nat)
    requires b > 0
  {
    (a + b - 1) / b
  }

  lemma Nonzero(q: nat, b: nat)
    requires q * b > 0
    ensures q > 0
  {
  }

  /** The least number of pieces of size b that hold a. */
  lemma CeilBounds(a: nat, b: nat)
    requires b > 0
    ensures a <= Ceil(a, b) * b < a + b
    ensures a > 0 ==> (Ceil(a, b) - 1) * b < a && Ceil(a, b) > 0
  {
    var q := Ceil(a, b);
    DivMod(a + b - 1, b);
    Distribute(q, -1, b);
    if a > 0 {
      Nonzero(q, b);
    }
  }

  lemma CeilLeast(a: nat, b: nat, k: nat)
    requires b > 0 && a <= k * b
    ensures Ceil(a, b) <= k
  {
    CeilBounds(a, b);
    if Ceil(a, b) > k {
      MulMonotone(k + 1, Ceil(a, b), b);
      Distribute(k, 1, b);
    }
  }

  // ----- downloads -----

  datatype Part = Part(start: nat, end: nat)

  datatype Result<T> = Ok(value: T) | Err(error: string)

  /** The parts follow each other from 0 to size, none empty or larger than max. */
  predicate Tiles(parts: seq<Part>, size: nat, max: nat) {
    && |parts| > 0 && parts[0].start == 0 && parts[|parts| - 1].end == size
    && (forall k :: 0 <= k < |parts| ==> parts[k].start < parts[k].end <= parts[k].start + max)
    && (forall k :: 0 < k < |parts| ==> Follows(parts, k))
  }

  predicate Follows(parts: seq<Part>, k: nat)
    requires 0 < k < |parts|
  {
    parts[k - 1].end == parts[k].start
  }

  /** Cutting into the fewest equal pieces: as many come out as were counted. */
  lemma EvenPieces(size: nat, max: nat)
    requires size > max > 0
    ensures var n := Ceil(size, max); var piece := Ceil(size, n);
      n > 0 && 0 < piece <= max && (n - 1) * piece < size <= n * piece
  {
    var n := Ceil(size, max);
    CeilBounds(size, max);
    var piece := Ceil(size, n);
    CeilBounds(size, n);
    assert n * max == max * n && piece * n == n * piece;
    CeilLeast(size, n, max);
    assert (n - 1) * piece <= (n - 1) * max by {
      MulMonotone(piece, max, n - 1);
      assert piece * (n - 1) == (n - 1) * piece && max * (n - 1) == (n - 1) * max;
    }
  }

  /** Sends the ranges of an object to a channel and returns their announced number. */
  method Schedule(size: nat, max: nat) returns (parts: seq<Part>, announced: nat)
    requires size > 0 && max > 0
    ensures Tiles(parts, size, max)
    ensures |parts| == announced == Ceil(size, max)
    ensures forall k :: 0 <= k < |parts| - 1 ==> parts[k].end - parts[k].start == Ceil(size, announced)
    ensures size <= announced * Ceil(size, announced)
  {
    if size <= max {
      CeilLeast(size, max, 1);
      CeilBounds(size, max);
      return [Part(0, size)], 1;
    }
    EvenPieces(size, max);
    announced := Ceil(size, max);
    var partSize := Ceil(size, announced);
    parts := [];
    var offset := 0;
    hide Ceil;
    while offset < size
      invariant 0 <= offset <= size && |parts| <= announced
      invariant offset < size ==> offset == |parts| * partSize
      invariant offset == size ==> |parts| > 0 && (|parts| - 1) * partSize < size <= |parts| * partSize
      invariant offset > 0 <==> |parts| > 0
      invariant |parts| > 0 ==> Tiles(parts, offset, max)
      invariant forall k :: 0 <= k < |parts| - (if offset < size then 0 else 1) ==>
        parts[k].end - parts[k].start == partSize
      decreases size - offset
    {
      var end := offset + if partSize < size - offset then partSize else size - offset;
      Distribute(|parts|, 1, partSize);
      StillRoom(|parts|, announced, partSize, size);
      TilesSnoc(parts, offset, end, max);
      parts := parts + [Part(offset, end)];
      offset := end;
    }
    SameCount(|parts|, announced, partSize, size);
  }

  lemma StillRoom(count: nat, announced: nat, piece: nat, size: nat)
    requires count * piece < size <= announced * piece
    ensures count < announced
  {
    if announced <= count {
      MulMonotone(announced, count, piece);
    }
  }

  lemma SameCount(count: nat, announced: nat, piece: nat, size: nat)
    requires 0 < count <= announced && size <= count * piece && (announced - 1) * piece < size
    ensures count == announced
  {
    if count < announced {
      MulMonotone(count, announced - 1, piece);
    }
  }

  lemma TilesSnoc(parts: seq<Part>, offset: nat, end: nat, max: nat)
    requires |parts| == 0 ==> offset == 0
    requires |parts| > 0 ==> Tiles(parts, offset, max)
    requires offset < end <= offset + max
    ensures Tiles(parts + [Part(offset, end)], end, max)
  {
    var parts' := parts + [Part(offset, end)];
    forall k | 0 < k < |parts'|
      ensures Follows(parts', k)
    {
      assert k < |parts| ==> Follows(parts, k);
    }
  }

  /** Download: an object without a size is refused; otherwise the channel made for the parts holds all of them, so
      scheduling before anyone receives never blocks. */
  method Download(size: nat, max: nat) returns (r: Result<seq<Part>>, capacity: nat)
    requires max > 0
    ensures r.Err? <==> size == 0
    ensures r.Ok? ==> Tiles(r.value, size, max) && |r.value| <= capacity
  {
    if size == 0 {
      return Err("the field Size must be set on building BatchDownloadObject"), 0;
    }
    capacity := Ceil(size, max);
    var parts, _ := Schedule(size, max);
    r := Ok(parts);
  }

  function Sizes(parts: seq<Part>): seq<int> {
    seq(|parts|, k requires 0 <= k < |parts| => parts[k].end - parts[k].start)
  }

  function Sum(s: seq<int>): int {
    if |s| == 0 then 0 else Sum(s[..|s| - 1]) + s[|s| - 1]
  }

  lemma {:induction false} TilesSum(parts: seq<Part>, size: nat, max: nat)
    requires Tiles(parts, size, max)
    ensures Sum(Sizes(parts)) == size && forall k :: 0 <= k < |Sizes(parts)| ==> Sizes(parts)[k] > 0
    decreases |parts|
  {
    var n := |parts| - 1;
    assert Sizes(parts)[..n] == Sizes(parts[..n]);
    if n > 0 {
      assert Follows(parts, n);
      forall k | 0 < k < n
        ensures Follows(parts[..n], k)
      {
        assert Follows(parts, k);
      }
      TilesSum(parts[..n], parts[n].start, max);
    }
  }

  // ----- recovery of a chunk from its parts -----

  datatype Status = Available | Deleted | Recovering | Incomplete

  class Chunk {
    const size: nat
    var status: Status
    var available: int
    var notifier: int     // count of the wait group

    constructor (size: nat)
      ensures status == Deleted && available == size && notifier == 0 && this.size == size
    {
      this.size, available, status, notifier := size, size, Deleted, 0;
    }

    /** Claims a deleted chunk for recovery. */
    method PrepareRecover() returns (ok: bool)
      modifies this`status, this`notifier
      ensures ok == (old(status) == Deleted)
      ensures status == (if ok then Recovering else old(status)) && notifier == old(notifier) + (if ok then 1 else 0)
    {
      notifier := notifier + 1;
      if status == Deleted {
        status := Recovering;
        return true;
      }
      notifier := notifier - 1;
      return false;
    }

    method StartRecover()
      modifies this`available, this`notifier
      ensures available == 0 && notifier == old(notifier) + 1
    {
      notifier := notifier + 1;
      available := 0;
    }

    method EndRecover(to: Status)
      modifies this`status, this`notifier
      ensures if old(status) == Recovering then status == to && notifier == old(notifier) - 1
        else status == old(status) && notifier == old(notifier)
    {
      if status == Recovering {
        status := to;
        notifier := notifier - 1;
      }
    }

    method AddRecovered(bytes: int) returns (done: bool)
      modifies this`available, this`status, this`notifier
      ensures available == old(available) + bytes && done == (available == size)
      ensures if done && old(status) == Recovering then status == Available && notifier == old(notifier) - 1
        else status == old(status) && notifier == old(notifier)
    {
      available := available + bytes;
      if available == size {
        EndRecover(Available);
        return true;
      }
      return false;
    }

    method NotifyRecovered()
      modifies this`status, this`notifier
      ensures if old(status) == Recovering then status == Incomplete && notifier == old(notifier) - 2
        else status == old(status) && notifier == old(notifier) - 1
    {
      EndRecover(Incomplete);
      notifier := notifier - 1;
    }

    method Delete()
      modifies this`status
      ensures status == Deleted
    {
      status := Deleted;
    }
  }

  /** A recovery whose parts arrive in some order, with a deletion before one of them or not at all (deletedAt beyond
      the arrivals). Exactly the last part reports completion; the chunk turns available, and everyone waiting for it
      is released, if and only if it was not deleted meanwhile. */
  method Recover(chunk: Chunk, arrivals: seq<int>, deletedAt: nat) returns (reports: seq<bool>)
    requires chunk.status == Deleted && chunk.notifier == 0
    requires |arrivals| > 0 && Sum(arrivals) == chunk.size && forall k :: 0 <= k < |arrivals| ==> arrivals[k] > 0
    modifies chunk
    ensures |reports| == |arrivals| && forall k :: 0 <= k < |reports| ==> (reports[k] <==> k == |arrivals| - 1)
    ensures chunk.available == chunk.size
    ensures chunk.status == if deletedAt < |arrivals| then Deleted else Available
    ensures chunk.notifier == 0 <==> deletedAt >= |arrivals|
  {
    var _ := chunk.PrepareRecover();
    chunk.StartRecover();
    reports := [];
    assert arrivals[..0] == [];
    for k := 0 to |arrivals|
      invariant |reports| == k && forall j :: 0 <= j < k ==> (reports[j] <==> j == |arrivals| - 1)
      invariant chunk.available == Sum(arrivals[..k])
      invariant chunk.status == if k > deletedAt then Deleted else if k == |arrivals| then Available else Recovering
      invariant chunk.notifier == if k == |arrivals| && k <= deletedAt then 1 else 2
    {
      if k == deletedAt {
        chunk.Delete();
      }
      PartialSum(arrivals, k + 1);
      assert arrivals[..k + 1][..k] == arrivals[..k];
      var done := chunk.AddRecovered(arrivals[k]);
      reports := reports + [done];
    }
    assert arrivals[..|arrivals|] == arrivals;
    chunk.NotifyRecovered();
  }

  /** Positive parts reach the whole only with the last one. */
  lemma {:induction false} PartialSum(s: seq<int>, k: nat)
    requires k <= |s| && forall i :: 0 <= i < |s| ==> s[i] > 0
    ensures Sum(s[..k]) == Sum(s) <==> k == |s|
    ensures Sum(s[..k]) <= Sum(s)
    decreases |s| - k
  {
    if k == |s| {
      assert s[..k] == s;
    } else {
      PartialSum(s, k + 1);
      assert s[..k + 1][..k] == s[..k];
    }
  }

  lemma {:induction false} SumWithout(s: seq<int>, i: nat)
    requires i < |s|
    ensures Sum(s) == Sum(s[..i] + s[i + 1..]) + s[i]
    decreases |s|
  {
    var n := |s| - 1;
    if i == n {
      assert s[..i] + s[i + 1..] == s[..n];
    } else {
      var init := s[..n];
      SumWithout(init, i);
      assert (s[..i] + s[i + 1..])[..n - 1] == init[..i] + init[i + 1..];
      assert (s[..i] + s[i + 1..])[n - 1] == s[n];
    }
  }

  lemma MultisetWithout(s: seq<int>, i: nat)
    requires i < |s|
    ensures multiset(s[..i] + s[i + 1..]) == multiset(s) - multiset{s[i]}
  {
    assert s == s[..i] + [s[i]] + s[i + 1..];
  }

  lemma {:induction false} SumPermuted(s: seq<int>, t: seq<int>)
    requires multiset(s) == multiset(t)
    ensures Sum(s) == Sum(t)
    decreases |s|
  {
    if |s| == 0 {
      assert |multiset(t)| == 0;
      assert t == [];
    } else {
      assert s[0] in multiset(s);
      var i :| 0 <= i < |t| && t[i] == s[0];
      SumWithout(s, 0);
      SumWithout(t, i);
      MultisetWithout(s, 0);
      MultisetWithout(t, i);
      SumPermuted(s[..0] + s[1..], t[..i] + t[i + 1..]);
    }
  }

  /** The parts of a schedule, in any order of arrival, are a complete recovery. */
  lemma AnyOrderCompletes(parts: seq<Part>, size: nat, max: nat, arrivals: seq<int>)
    requires Tiles(parts, size, max) && multiset(arrivals) == multiset(Sizes(parts))
    ensures |arrivals| > 0 && Sum(arrivals) == size && forall k :: 0 <= k < |arrivals| ==> arrivals[k] > 0
  {
    TilesSum(parts, size, max);
    SumPermuted(arrivals, Sizes(parts));
    assert |arrivals| == |multiset(arrivals)| == |Sizes(parts)|;
    forall k | 0 <= k < |arrivals|
      ensures arrivals[k] > 0
    {
      assert arrivals[k] in multiset(arrivals);
    }
  }

  // ----- the dummy encoder -----

  /** A shard that was never filled is nil. */
  datatype Shard<T> = Nil | Data(bytes: seq<T>)

  function Bytes<T>(s: Shard<T>): seq<T> {
    if s.Nil? then [] else s.bytes
  }

  function Min(a: int, b: int): int {
    if a < b then a else b
  }

  /** Shard i of data cut every per bytes. */
  function Piece<T>(data: seq<T>, per: nat, i: nat): Shard<T> {
    if i * per > |data| then Nil else Data(data[i * per..Min(i * per + per, |data|)])
  }

  /** Split, seen from the result. */
  function Pieces<T>(data: seq<T>, n: nat): seq<Shard<T>>
    requires n > 0
  {
    seq(n, i requires 0 <= i => Piece(data, Ceil(|data|, n), i))
  }

  method Split<T>(data: seq<T>, n: nat) returns (r: Result<seq<Shard<T>>>)
    requires n > 0
    ensures r == if |data| == 0 then Err("short data") else Ok(Pieces(data, n))
  {
    if |data| == 0 {
      return Err("short data");
    }
    var per := Ceil(|data|, n);
    CeilBounds(|data|, n);
    var dst: seq<Shard<T>> := [];
    var rest := data;
    hide Ceil;
    while |dst| < n && |rest| >= per
      invariant |dst| <= n && |dst| * per <= |data| && rest == data[|dst| * per..]
      invariant forall i :: 0 <= i < |dst| ==> dst[i] == Piece(data, per, i)
      decreases n - |dst|
    {
      CutNext(data, per, |dst|);
      Distribute(|dst|, 1, per);
      dst := dst + [Data(rest[..per])];
      rest := rest[per..];
    }
    if |dst| < n {
      CutLast(data, per, |dst|);
      dst := dst + [Data(rest)];
    }
    while |dst| < n
      invariant |dst| <= n && (|dst| < n ==> |dst| * per > |data|)
      invariant forall i :: 0 <= i < |dst| ==> dst[i] == Piece(data, per, i)
    {
      Distribute(|dst|, 1, per);
      dst := dst + [Nil];
    }
    assert dst == Pieces(data, n);
    r := Ok(dst);
  }

  lemma CutNext<T>(data: seq<T>, per: nat, i: nat)
    requires (i * per) + per <= |data|
    ensures Piece(data, per, i) == Data(data[i * per..][..per]) && data[i * per..][per..] == data[(i + 1) * per..]
  {
    Distribute(i, 1, per);
  }

  lemma CutLast<T>(data: seq<T>, per: nat, i: nat)
    requires i * per <= |data| < i * per + per
    ensures Piece(data, per, i) == Data(data[i * per..]) && (i + 1) * per > |data|
  {
    Distribute(i, 1, per);
  }

  function Flatten<T>(shards: seq<Shard<T>>): seq<T> {
    if |shards| == 0 then [] else Flatten(shards[..|shards| - 1]) + Bytes(shards[|shards| - 1])
  }

  /** The check of Join over the shards from the k-th on, size bytes having been seen. */
  function Lacking<T>(shards: seq<Shard<T>>, k: nat, size: nat, outSize: nat): Result<()>
    requires k <= |shards|
    decreases |shards| - k
  {
    if k == |shards| then if size < outSize then Err("short data") else Ok(())
    else if shards[k].Nil? then Err("reconstruction required")
    else if size + |shards[k].bytes| >= outSize then Ok(())
    else Lacking(shards, k + 1, size + |shards[k].bytes|, outSize)
  }

  /** What Join writes. */
  function Joined<T>(shards: seq<Shard<T>>, n: nat, outSize: nat): Result<seq<T>> {
    if |shards| < n then Err("too few shards")
    else
      match Lacking(shards[..n], 0, 0, outSize)
      case Err(e) => Err(e)
      case Ok(_) => if outSize <= |Flatten(shards[..n])| then Ok(Flatten(shards[..n])[..outSize]) else Err("short data")
  }

  lemma {:induction false} FlattenGrows<T>(shards: seq<Shard<T>>, k: nat)
    requires k < |shards|
    ensures Flatten(shards[..k + 1]) == Flatten(shards[..k]) + Bytes(shards[k])
    ensures |Flatten(shards[..k + 1])| <= |Flatten(shards)|
    ensures Flatten(shards[..k + 1]) == Flatten(shards)[..|Flatten(shards[..k + 1])|]
    decreases |shards| - k
  {
    assert shards[..k + 1][..k] == shards[..k];
    if k + 1 < |shards| {
      FlattenGrows(shards, k + 1);
      assert shards[..k + 2][..k + 1] == shards[..k + 1];
      var whole, more, part := Flatten(shards), Flatten(shards[..k + 2]), Flatten(shards[..k + 1]);
      assert part == more[..|part|];
      assert part == whole[..|more|][..|part|] == whole[..|part|];
    } else {
      assert shards[..k + 1] == shards;
      assert Flatten(shards)[..|Flatten(shards)|] == Flatten(shards);
    }
  }

  /** A needed shard is missing: the shards in front of it are not enough, or it is the first. */
  ghost predicate Gap<T>(shards: seq<Shard<T>>, k: nat, outSize: nat)
    requires k < |shards|
  {
    shards[k].Nil? && (k == 0 || |Flatten(shards[..k])| < outSize)
  }

  /** The check from the k-th shard on fails for a gap among the rest, and otherwise if all of them are too few. */
  lemma {:induction false} LackingIs<T>(shards: seq<Shard<T>>, k: nat, outSize: nat)
    requires k <= |shards| && (k == 0 || |Flatten(shards[..k])| < outSize)
    ensures var r := Lacking(shards, k, |Flatten(shards[..k])|, outSize);
      if exists j :: k <= j < |shards| && Gap(shards, j, outSize) then r == Err("reconstruction required")
      else if |Flatten(shards)| < outSize then r == Err("short data")
      else r == Ok(())
    decreases |shards| - k
  {
    if k == |shards| {
      assert shards[..k] == shards;
    } else if shards[k].Nil? {
      assert Gap(shards, k, outSize);
    } else {
      FlattenGrows(shards, k);
      if |Flatten(shards[..k + 1])| < outSize {
        LackingIs(shards, k + 1, outSize);
      } else {
        forall j | k <= j < |shards|
          ensures !Gap(shards, j, outSize)
        {
          if j > k {
            FlattenMore(shards, k + 1, j);
          }
        }
      }
    }
  }

  lemma {:induction false} FlattenMore<T>(shards: seq<Shard<T>>, i: nat, j: nat)
    requires i <= j <= |shards|
    ensures |Flatten(shards[..i])| <= |Flatten(shards[..j])|
    decreases j - i
  {
    if i < j {
      FlattenMore(shards, i, j - 1);
      FlattenGrows(shards, j - 1);
    }
  }

  /** What Join answers: too few shards, a missing one among those needed, too little data, or the first bytes. */
  lemma JoinAnswers<T>(shards: seq<Shard<T>>, n: nat, outSize: nat)
    ensures var r := Joined(shards, n, outSize);
      if |shards| < n then r == Err("too few shards")
      else if exists j :: 0 <= j < n && Gap(shards[..n], j, outSize) then r == Err("reconstruction required")
      else if |Flatten(shards[..n])| < outSize then r == Err("short data")
      else r == Ok(Flatten(shards[..n])[..outSize])
  {
    if |shards| >= n {
      assert shards[..n][..0] == [];
      LackingIs(shards[..n], 0, outSize);
    }
  }

  method Join<T>(shards: seq<Shard<T>>, n: nat, outSize: nat) returns (r: Result<seq<T>>)
    ensures r == Joined(shards, n, outSize)
    ensures |shards| < n <==> r == Err("too few shards")
    ensures |shards| >= n ==>
      (r == Err("reconstruction required") <==> exists j :: 0 <= j < n && Gap(shards[..n], j, outSize))
    ensures r.Ok? ==> outSize <= |Flatten(shards[..n])| && r.value == Flatten(shards[..n])[..outSize]
  {
    JoinAnswers(shards, n, outSize);
    hide Gap;
    if |shards| < n {
      return Err("too few shards");
    }
    var used := shards[..n];
    var size, k := 0, 0;
    while k < |used|
      invariant 0 <= k <= |used| && 0 <= size == |Flatten(used[..k])|
      invariant Lacking(used, 0, 0, outSize) == Lacking(used, k, size, outSize)
    {
      FlattenGrows(used, k);
      if used[k].Nil? {
        return Err("reconstruction required");
      }
      size := size + |used[k].bytes|;
      k := k + 1;
      if size >= outSize {
        break;
      }
    }
    assert used[..|used|] == used;
    if size < outSize {
      return Err("short data");
    }
    var written := Copy(used, outSize);
    r := Ok(written);
  }

  /** The writing loop: whole shards, then a part of one. */
  method Copy<T>(shards: seq<Shard<T>>, outSize: nat) returns (written: seq<T>)
    requires outSize <= |Flatten(shards)|
    ensures written == Flatten(shards)[..outSize]
  {
    written := [];
    var write := outSize;
    for k := 0 to |shards|
      invariant 0 <= write && write == outSize - |written| && written == Flatten(shards[..k])
    {
      FlattenGrows(shards, k);
      if write < |Bytes(shards[k])| {
        written := written + Bytes(shards[k])[..write];
        assert written == Flatten(shards[..k + 1])[..outSize];
        return;
      }
      written := written + Bytes(shards[k]);
      write := write - |Bytes(shards[k])|;
    }
    assert shards[..|shards|] == shards;
  }

  lemma {:induction false} FlattenPieces<T>(data: seq<T>, n: nat, k: nat)
    requires n > 0 && k <= n
    ensures Flatten(Pieces(data, n)[..k]) == data[..Min(k * Ceil(|data|, n), |data|)]
    decreases k
  {
    var per := Ceil(|data|, n);
    if k == 0 {
      assert data[..0] == [];
    } else {
      FlattenPieces(data, n, k - 1);
      FlattenGrows(Pieces(data, n), k - 1);
      assert Pieces(data, n)[k - 1] == Piece(data, per, k - 1);
      hide Pieces, Flatten, Ceil;
      OnePiece(data, per, k - 1);
    }
  }

  lemma OnePiece<T>(data: seq<T>, per: nat, i: nat)
    ensures data[..Min(i * per, |data|)] + Bytes(Piece(data, per, i)) == data[..Min((i + 1) * per, |data|)]
  {
    Distribute(i, 1, per);
    CutAt(data, i * per, per);
  }

  lemma CutAt<T>(data: seq<T>, lo: nat, per: nat)
    ensures data[..Min(lo, |data|)] + (if lo > |data| then [] else data[lo..Min(lo + per, |data|)]) ==
      data[..Min(lo + per, |data|)]
  {
  }

  /** The check passes: a shard is nil only where the data has ended already. */
  lemma {:induction false} NothingLacking<T>(data: seq<T>, n: nat, k: nat, size: nat)
    requires n > 0 && k <= n && size == Min(k * Ceil(|data|, n), |data|) && |data| > 0
    requires size < |data| || k == n
    ensures Lacking(Pieces(data, n), k, size, |data|) == Ok(())
    decreases n - k
  {
    var per := Ceil(|data|, n);
    CeilBounds(|data|, n);
    assert per * n == n * per;
    if k < n {
      Distribute(k, 1, per);
      assert Pieces(data, n)[k] == Piece(data, per, k);
      var next := size + |Pieces(data, n)[k].bytes|;
      if next < |data| {
        NothingLacking(data, n, k + 1, next);
      }
    }
  }

  /** Joining what was split gives back the data, for every non-empty data and number of shards. */
  lemma JoinUndoesSplit<T>(data: seq<T>, n: nat)
    requires n > 0 && |data| > 0
    ensures Joined(Pieces(data, n), n, |data|) == Ok(data)
  {
    var per := Ceil(|data|, n);
    CeilBounds(|data|, n);
    assert per * n == n * per;
    NothingLacking(data, n, 0, 0);
    FlattenPieces(data, n, n);
    assert Pieces(data, n)[..n] == Pieces(data, n);
    assert data[..|data|] == data;
  }

  // ----- sizes of the fragments on reading -----

  /** The sizes the loop of decodeFragments arrives at, k fragments being left. */
  function ReadSizes(size: int, frag: int, read: int, k: nat): seq<int>
    decreases k
  {
    if k == 0 then []
    else
      var f := if read > size then frag + size - read else frag;
      [f] + ReadSizes(size, f, read + f, k - 1)
  }

  method DecodeFragments(size: nat, numFrags: nat) returns (sizes: seq<int>)
    requires numFrags > 0
    ensures |sizes| == numFrags && sizes == ReadSizes(size, Ceil(size, numFrags), Ceil(size, numFrags), numFrags)
  {
    var fragSize: int := Ceil(size, numFrags);
    var read := fragSize;
    sizes := [];
    for i := 0 to numFrags
      invariant |sizes| == i
      invariant sizes + ReadSizes(size, fragSize, read, numFrags - i) ==
        ReadSizes(size, Ceil(size, numFrags), Ceil(size, numFrags), numFrags)
    {
      if read > size {
        fragSize := fragSize + size - read;
      }
      sizes := sizes + [fragSize];
      read := read + fragSize;
    }
  }

  lemma {:induction false} ReadSizesLength(size: int, frag: int, read: int, k: nat)
    ensures |ReadSizes(size, frag, read, k)| == k
    decreases k
  {
    if k > 0 {
      var f := if read > size then frag + size - read else frag;
      ReadSizesLength(size, f, read + f, k - 1);
    }
  }

  /** As long as only the last fragment is partial, each is as long as what is left allows. */
  lemma {:induction false} Agree(size: nat, frag: nat, j: nat, k: nat, i: nat)
    requires i < k && (j + k - 1) * frag <= size <= (j + k) * frag
    ensures i < |ReadSizes(size, frag, (j + 1) * frag, k)|
    ensures ReadSizes(size, frag, (j + 1) * frag, k)[i] == Min(frag, size - (j + i) * frag)
    decreases k
  {
    ReadSizesLength(size, frag, (j + 1) * frag, k);
    Distribute(j, 1, frag);
    Distribute(j + i, 1, frag);
    MulMonotone(j + i, j + k - 1, frag);
    if k > 1 {
      MulMonotone(j + 1, j + k - 1, frag);
      Distribute(j + 1, 1, frag);
      if i > 0 {
        Agree(size, frag, j + 1, k - 1, i - 1);
      }
    } else {
      assert i == 0;
    }
  }

  lemma MoreLeft(size: nat, frag: nat, j: nat, k: nat)
    requires (j + 1) * frag <= size < (j + k - 1) * frag
    ensures k > 2
  {
    if k <= 2 && j + k >= 1 {
      MulMonotone(j + k - 1, j + 1, frag);
    }
  }

  /** With two partial fragments the second comes out negative. */
  lemma {:induction false} Disagree(size: nat, frag: nat, j: nat, k: nat) returns (i: nat)
    requires frag > 0 && k > 1 && j * frag <= size < (j + k - 1) * frag
    ensures i < k == |ReadSizes(size, frag, (j + 1) * frag, k)|
    ensures ReadSizes(size, frag, (j + 1) * frag, k)[i] < 0
    decreases k
  {
    ReadSizesLength(size, frag, (j + 1) * frag, k);
    Distribute(j, 1, frag);
    Distribute(j + 1, 1, frag);
    if (j + 1) * frag <= size {
      MoreLeft(size, frag, j, k);
      var i' := Disagree(size, frag, j + 1, k - 1);
      i := i' + 1;
    } else {
      var f := size - j * frag;
      assert ReadSizes(size, frag, (j + 1) * frag, k) == [f] + ReadSizes(size, f, size + frag, k - 1);
      ReadSizesLength(size, f, size + frag, k - 1);
      i := 1;
    }
  }

  /** Decoding computes, fragment by fragment, the sizes Split produced if and only if all fragments but the last are
      full; otherwise it arrives at a negative size. */
  lemma FragmentSizesAgreeIff<T>(data: seq<T>, n: nat)
    requires n > 0 && |data| > 0
    ensures (n - 1) * Ceil(|data|, n) <= |data| <==>
      var f := Ceil(|data|, n);
      && |ReadSizes(|data|, f, f, n)| == n
      && forall i :: 0 <= i < n ==> ReadSizes(|data|, f, f, n)[i] == |Bytes(Pieces(data, n)[i])|
  {
    var f := Ceil(|data|, n);
    CeilBounds(|data|, n);
    assert f * n == n * f;
    assert (0 + 1) * f == f;
    assert Ceil(|data|, n) > 0;
    ReadSizesLength(|data|, f, f, n);
    hide Ceil, ReadSizes;
    if (n - 1) * f <= |data| {
      forall i | 0 <= i < n
        ensures ReadSizes(|data|, f, f, n)[i] == |Bytes(Pieces(data, n)[i])|
      {
        Agree(|data|, f, 0, n, i);
        assert Pieces(data, n)[i] == Piece(data, f, i);
        PieceSize(data, f, i, n);
      }
    } else {
      var i := Disagree(|data|, f, 0, n);
      assert ReadSizes(|data|, f, f, n)[i] < 0;
    }
  }

  lemma PieceSize<T>(data: seq<T>, per: nat, i: nat, n: nat)
    requires i < n && (n - 1) * per <= |data|
    ensures |Bytes(Piece(data, per, i))| == Min(per, |data| - i * per)
  {
    MulMonotone(i, n - 1, per);
  }

  /** It holds in particular for objects larger than the square of one less than their number of fragments. */
  lemma LargeObjectsAgree(size: nat, n: nat)
    requires n > 0 && (n - 1) * (n - 1) < size
    ensures (n - 1) * Ceil(size, n) <= size
  {
    var f, m := Ceil(size, n), n - 1;
    CeilBounds(size, n);
    hide Ceil;
    MulMonotone(f * n, size + m, m);
    Distribute(size, m, m);
    Reorder(f, n, m);
    SizeTimes(size, m);
    if f * m > size {
      MulMonotone(size, f * m, n);
    }
    assert f * m == m * f;
  }

  lemma Reorder(f: nat, n: nat, m: nat)
    ensures (f * n) * m == (f * m) * n
  {
    assert (f * n) * m == f * (n * m);
    assert (f * m) * n == f * (m * n);
  }

  lemma SizeTimes(size: nat, m: nat)
    ensures size * (m + 1) == size * m + size
  {
  }

  /** The condition is not met by every input: five bytes in four fragments. */
  lemma SizesDisagree<T>(data: seq<T>)
    requires |data| == 5
    ensures Ceil(5, 4) == 2 && ReadSizes(5, 2, 2, 4) == [2, 2, 1, -1] && |Bytes(Pieces(data, 4)[3])| == 0
  {
    assert ReadSizes(5, -1, 6, 0) == [];
    assert ReadSizes(5, 1, 7, 1) == [-1];
    assert ReadSizes(5, 2, 6, 2) == [1, -1];
    assert ReadSizes(5, 2, 4, 3) == [2, 1, -1];
    assert Pieces(data, 4)[3] == Piece(data, 2, 3);
  }

  /** The number of fragments setLarge makes of an object, unit being the split unit times the number of placements:
      their quotient, rounded. */
  function NumFrags(size: nat, unit: nat): nat
    requires unit > 0
  {
    (2 * size + unit) / (2 * unit)
  }

  /** No other number of units is nearer to the size. */
  lemma NumFragsNearest(size: nat, unit: nat)
    requires unit > 0
    ensures var n := NumFrags(size, unit); 2 * (n * unit - size) <= unit && 2 * (size - n * unit) < unit
  {
    var n := NumFrags(size, unit);
    DivMod(2 * size + unit, 2 * unit);
    assert n * (2 * unit) == 2 * (n * unit);
  }

  /** The client's own fragment numbers meet the condition for every object up to the square of that unit, 10 MB
      times the placements: the two places agree on all objects the client splits. */
  lemma ClientFragmentsAgree(size: nat, unit: nat)
    requires unit > 0 && NumFrags(size, unit) > 0 && size <= unit * unit
    ensures (NumFrags(size, unit) - 1) * Ceil(size, NumFrags(size, unit)) <= size
  {
    var n, m := NumFrags(size, unit), NumFrags(size, unit) - 1;
    DivMod(2 * size + unit, 2 * unit);
    assert n * (2 * unit) == 2 * (m * unit) + 2 * unit;
    assert m * unit < size;
    if m >= unit {
      MulMonotone(unit, m, unit);
    }
    MulMonotone(m, unit, m);
    assert unit * m == m * unit;
    LargeObjectsAgree(size, n);
  }
}
