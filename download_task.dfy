/**
 * `DownloadTask` in openmxr/downloader/DownloadTask.py: ask the server for
 * the resource's size, request it as consecutive byte ranges of
 * `chunk_size` bytes, collect the `(index, payload)` pairs in whatever order
 * the thread pool completes them, sort them by index and concatenate.
 *
 * The HTTP server is a `Remote` value (what a HEAD reports and what a ranged
 * GET streams); the thread pool's completion order is a permutation that the
 * caller picks, so every property below holds for all completion orders.
 */
module Downloader {
  import opened Common

  /** The chunk size `DownloadTask(url)` uses when none is given. */
  const DefaultChunkSize: int := 1000000

  /** `ThreadPoolExecutor(max_workers=12)`: bounds how many ranges are in
      flight at once, which affects only the completion order. */
  const MaxWorkers: nat := 12

  /** Python's `range(start, stop, step)` for a non-zero step: empty
      exactly when `stop` is not beyond `start` in the step's direction,
      and otherwise starting at `start`. */
  function PyRange(start: int, stop: int, step: int): (r: seq<int>)
    requires step != 0
    ensures r == [] <==> if step > 0 then start >= stop else start <= stop
    ensures r != [] ==> r[0] == start
    decreases if step > 0 then stop - start else start - stop
  {
    if step > 0 && start < stop then [start] + PyRange(start + step, stop, step)
    else if step < 0 && start > stop then [start] + PyRange(start + step, stop, step)
    else []
  }

  /** An ascending range holds ceil((stop - start) / step) values, the i-th
      being start + i * step. */
  lemma {:induction false} PyRangeAscending(start: int, stop: int, step: int)
    requires step > 0
    ensures |PyRange(start, stop, step)| == if start < stop then (stop - start + step - 1) / step else 0
    ensures forall i :: 0 <= i < |PyRange(start, stop, step)| ==> PyRange(start, stop, step)[i] == start + i * step
    decreases stop - start
  {
    if start < stop {
      var rest := PyRange(start + step, stop, step);
      PyRangeAscending(start + step, stop, step);
      if start + step < stop {
        CeilStep(stop - start - step, step);
      } else {
        DivUnique(stop - start + step - 1, step, 1, stop - start - 1);
      }
      forall i | 0 < i < |PyRange(start, stop, step)|
        ensures PyRange(start, stop, step)[i] == start + i * step
      {
        assert PyRange(start, stop, step)[i] == rest[i - 1] == start + step + (i - 1) * step;
        assert (i - 1) * step + step == i * step;
      }
    }
  }

  /** The arguments of one `download_range` call: the enumerate index, the
      chunk's start and `start + chunk_size - 1`, the inclusive end. */
  datatype Request = Request(index: nat, first: int, last: int)

  /** One request per value of `range(0, file_size, chunk_size)`: request
      i carries index i and spans `chunk_size` bytes from its start, end
      included. */
  function Requests(fileSize: nat, chunkSize: int): (r: seq<Request>)
    requires chunkSize != 0
    ensures |r| == |PyRange(0, fileSize, chunkSize)|
    ensures forall i :: 0 <= i < |r| ==> r[i].index == i && r[i].last == r[i].first + chunkSize - 1
  {
    var starts := PyRange(0, fileSize, chunkSize);
    seq(|starts|, i requires 0 <= i < |starts| => Request(i, starts[i], starts[i] + chunkSize - 1))
  }

  /** There are ceil(file_size / chunk_size) requests, and request i asks for
      `[i*C, i*C + C - 1]`. */
  lemma RequestsShape(fileSize: nat, chunkSize: int)
    requires chunkSize > 0
    ensures |Requests(fileSize, chunkSize)| == (fileSize + chunkSize - 1) / chunkSize
    ensures forall i :: 0 <= i < |Requests(fileSize, chunkSize)| ==>
      Requests(fileSize, chunkSize)[i] == Request(i, i * chunkSize, i * chunkSize + chunkSize - 1)
  {
    PyRangeAscending(0, fileSize, chunkSize);
    if fileSize == 0 {
      DivUnique(chunkSize - 1, chunkSize, 0, chunkSize - 1);
    }
  }

  /** A non-positive chunk size yields no request at all (a negative step
      over `[0, file_size)` is an empty range). */
  lemma NegativeChunkSizeRequestsNothing(fileSize: nat, chunkSize: int)
    requires chunkSize < 0
    ensures Requests(fileSize, chunkSize) == []
  {
  }

  /** The requests tile `[0, file_size)` from the left: each starts inside
      it, the first at 0, and each begins one past where the previous one
      ends. */
  lemma {:induction false} RequestsContiguous(fileSize: nat, chunkSize: int)
    requires chunkSize > 0
    ensures var rs := Requests(fileSize, chunkSize);
      && (|rs| > 0 ==> rs[0].first == 0)
      && (forall i :: 0 <= i < |rs| ==> 0 <= rs[i].first < fileSize)
      && (forall i :: 0 < i < |rs| ==> rs[i].first == rs[i - 1].last + 1)
  {
    var rs := Requests(fileSize, chunkSize);
    RequestsShape(fileSize, chunkSize);
    forall i | 0 <= i < |rs|
      ensures 0 <= rs[i].first < fileSize
    {
      assert rs[i].first == PyRange(0, fileSize, chunkSize)[i];
      PyRangeBelowStop(0, fileSize, chunkSize, i);
    }
    forall i | 0 < i < |rs|
      ensures rs[i].first == rs[i - 1].last + 1
    {
      assert (i - 1) * chunkSize + chunkSize == i * chunkSize;
    }
  }

  /** Every byte of the resource lies in exactly one request: the one
      numbered byte / chunk_size. */
  lemma {:induction false} RequestOfByte(fileSize: nat, chunkSize: int, pos: int)
    requires chunkSize > 0 && 0 <= pos < fileSize
    ensures var rs := Requests(fileSize, chunkSize);
      && pos / chunkSize < |rs| && rs[pos / chunkSize].first <= pos <= rs[pos / chunkSize].last
      && (forall i :: 0 <= i < |rs| && rs[i].first <= pos <= rs[i].last ==> i == pos / chunkSize)
  {
    var rs := Requests(fileSize, chunkSize);
    RequestHolding(fileSize, chunkSize, pos);
    forall i | 0 <= i < |rs| && rs[i].first <= pos <= rs[i].last
      ensures i == pos / chunkSize
    {
      OnlyRequestHolding(fileSize, chunkSize, pos, i);
    }
  }

  /** Request i asks for `[i*C, i*C + C - 1]`. */
  lemma RequestAt(fileSize: nat, chunkSize: int, i: nat)
    requires chunkSize > 0 && i < |Requests(fileSize, chunkSize)|
    ensures Requests(fileSize, chunkSize)[i] == Request(i, i * chunkSize, i * chunkSize + chunkSize - 1)
  {
    RequestsShape(fileSize, chunkSize);
  }

  /** Request pos / C exists and holds byte `pos`. */
  lemma RequestHolding(fileSize: nat, chunkSize: int, pos: int)
    requires chunkSize > 0 && 0 <= pos < fileSize
    ensures var rs := Requests(fileSize, chunkSize);
      pos / chunkSize < |rs| && rs[pos / chunkSize].first <= pos <= rs[pos / chunkSize].last
  {
    var q := pos / chunkSize;
    ChunkOfByteExists(fileSize, chunkSize, pos);
    assert q < |Requests(fileSize, chunkSize)| by {
      RequestsShape(fileSize, chunkSize);
    }
    RequestAt(fileSize, chunkSize, q);
  }

  /** A request holding byte `pos` is request pos / C. */
  lemma OnlyRequestHolding(fileSize: nat, chunkSize: int, pos: int, i: nat)
    requires chunkSize > 0 && i < |Requests(fileSize, chunkSize)|
    requires Requests(fileSize, chunkSize)[i].first <= pos <= Requests(fileSize, chunkSize)[i].last
    ensures i == pos / chunkSize
  {
    RequestAt(fileSize, chunkSize, i);
    ChunkOfByteUnique(chunkSize, pos, i);
  }

  /** Byte `pos` lies in chunk pos / C, and that chunk is among the
      ceil(size / C) chunks. */
  lemma ChunkOfByteExists(fileSize: nat, chunkSize: int, pos: int)
    requires chunkSize > 0 && 0 <= pos < fileSize
    ensures var q := pos / chunkSize;
      q < (fileSize + chunkSize - 1) / chunkSize && q * chunkSize <= pos < q * chunkSize + chunkSize
  {
    var q, r := pos / chunkSize, pos % chunkSize;
    assert pos == q * chunkSize + r;
    assert pos + chunkSize == (q + 1) * chunkSize + r;
    DivUnique(pos + chunkSize, chunkSize, q + 1, r);
    DivMono(pos + chunkSize, fileSize + chunkSize - 1, chunkSize);
  }

  /** The only chunk holding byte `pos` is chunk pos / C. */
  lemma ChunkOfByteUnique(chunkSize: int, pos: int, i: int)
    requires chunkSize > 0 && i * chunkSize <= pos < i * chunkSize + chunkSize
    ensures i == pos / chunkSize
  {
    DivUnique(pos, chunkSize, i, pos - i * chunkSize);
  }

  /** Every value of an ascending range is below `stop`. */
  lemma {:induction false} PyRangeBelowStop(start: int, stop: int, step: int, i: nat)
    requires step > 0 && i < |PyRange(start, stop, step)|
    ensures PyRange(start, stop, step)[i] < stop
    decreases stop - start
  {
    if i > 0 {
      PyRangeBelowStop(start + step, stop, step, i - 1);
    }
  }

  /** ceil(n / c) chunks of c bytes reach at least n bytes. */
  lemma CeilCovers(n: nat, c: int)
    requires c > 0
    ensures (n + c - 1) / c * c >= n
  {
    var q, r := (n + c - 1) / c, (n + c - 1) % c;
    assert n + c - 1 == q * c + r;
  }

  lemma MulMono(a: int, b: int, c: int)
    requires 0 <= a <= b && c > 0
    ensures a * c <= b * c
  {
    assert b * c == a * c + (b - a) * c;
    assert (b - a) * c >= 0;
  }

  /** The last request is not clamped: it ends at n*C - 1, at or beyond the
      last byte, and strictly beyond it exactly when C does not divide the
      size. */
  lemma {:induction false} LastRequestUnclamped(fileSize: nat, chunkSize: int)
    requires chunkSize > 0 && fileSize > 0
    ensures var rs := Requests(fileSize, chunkSize);
      && |rs| > 0
      && rs[|rs| - 1].last == |rs| * chunkSize - 1
      && rs[|rs| - 1].last >= fileSize - 1
      && (rs[|rs| - 1].last > fileSize - 1 <==> fileSize % chunkSize != 0)
  {
    var rs := Requests(fileSize, chunkSize);
    RequestsShape(fileSize, chunkSize);
    var n := |rs|;
    LastEndArith(fileSize, chunkSize, n);
    assert rs[n - 1].last == (n - 1) * chunkSize + chunkSize - 1;
  }

  /** The arithmetic of LastRequestUnclamped: with n = ceil(size / c), the
      end n*c - 1 reaches the last byte, and passes it exactly when c does
      not divide the size. */
  lemma LastEndArith(size: nat, c: int, n: int)
    requires c > 0 && size > 0 && n == (size + c - 1) / c
    ensures n >= 1 && (n - 1) * c + c == n * c
    ensures n * c - 1 >= size - 1
    ensures n * c - 1 > size - 1 <==> size % c != 0
  {
    CeilCovers(size, c);
    assert n >= 1 by {
      DivUnique(c, c, 1, 0);
      DivMono(c, size + c - 1, c);
    }
    assert (n - 1) * c + c == n * c;
    var q, r := size / c, size % c;
    if r == 0 {
      DivUnique(size + c - 1, c, q, c - 1);
      assert n * c == size;
    } else {
      DivUnique(size + c - 1, c, q + 1, r - 1);
      assert n * c == q * c + c;
    }
  }

  lemma DivMono(a: int, b: int, c: int)
    requires 0 <= a <= b && c > 0
    ensures a / c <= b / c
  {
    var qa, qb := a / c, b / c;
    assert qa * c <= a && b < qb * c + c;
    if qa > qb {
      MulMono(qb + 1, qa, c);
      assert false;
    }
  }

  /** One future's result as `run_async_functions_asyncio` records it:
      `(args[3], result)`, the chunk index and the downloaded bytes. */
  type Tagged = (nat, seq<byte>)

  predicate SortedByIndex(s: seq<Tagged>)
  {
    forall i, j :: 0 <= i < j < |s| ==> s[i].0 <= s[j].0
  }

  predicate StrictlySortedByIndex(s: seq<Tagged>)
  {
    forall i, j :: 0 <= i < j < |s| ==> s[i].0 < s[j].0
  }

  predicate DistinctIndices(s: seq<Tagged>)
  {
    forall i, j :: 0 <= i < j < |s| ==> s[i].0 != s[j].0
  }

  /** `[a[1] for a in s]` */
  function Values(s: seq<Tagged>): seq<seq<byte>>
  {
    seq(|s|, i requires 0 <= i < |s| => s[i].1)
  }

  /** Insert `x` before the first pair with a larger-or-equal index. */
  function Insert(x: Tagged, s: seq<Tagged>): (r: seq<Tagged>)
    ensures |r| == |s| + 1 && multiset(r) == multiset(s) + multiset{x}
    ensures r[0] == x || (|s| > 0 && r[0] == s[0])
  {
    if s == [] || x.0 <= s[0].0 then
      [x] + s
    else
      assert s == [s[0]] + s[1..];
      [s[0]] + Insert(x, s[1..])
  }

  /** Inserting into a sorted list keeps it sorted. */
  lemma {:induction false} InsertSorted(x: Tagged, s: seq<Tagged>)
    requires SortedByIndex(s)
    ensures SortedByIndex(Insert(x, s))
  {
    if s != [] && x.0 > s[0].0 {
      var rest := Insert(x, s[1..]);
      InsertSorted(x, s[1..]);
      var r := Insert(x, s);
      assert r == [s[0]] + rest;
      assert s[0].0 <= rest[0].0;
      forall i, j | 0 <= i < j < |r|
        ensures r[i].0 <= r[j].0
      {
        if i == 0 {
          assert rest[0].0 <= rest[j - 1].0;
        } else {
          assert r[i] == rest[i - 1] && r[j] == rest[j - 1];
        }
      }
    }
  }

  /** Inserting a new index into a strictly sorted list keeps it strictly
      sorted. */
  lemma {:induction false} InsertStrictlySorted(x: Tagged, s: seq<Tagged>)
    requires StrictlySortedByIndex(s)
    requires forall i :: 0 <= i < |s| ==> s[i].0 != x.0
    ensures StrictlySortedByIndex(Insert(x, s))
  {
    if s != [] && x.0 > s[0].0 {
      var rest := Insert(x, s[1..]);
      assert forall i :: 0 <= i < |s[1..]| ==> s[1..][i] == s[i + 1];
      InsertStrictlySorted(x, s[1..]);
      var r := Insert(x, s);
      assert r == [s[0]] + rest;
      assert s[0].0 < rest[0].0;
      forall i, j | 0 <= i < j < |r|
        ensures r[i].0 < r[j].0
      {
        if i == 0 {
          if j > 1 {
            assert rest[0].0 < rest[j - 1].0;
          }
        } else {
          assert r[i] == rest[i - 1] && r[j] == rest[j - 1];
        }
      }
    } else if s != [] {
      assert x.0 < s[0].0;
    }
  }

  /** `sorted(intermediate, key=lambda x: x[0])`: a permutation of its input,
      ordered by chunk index. */
  function SortByIndex(s: seq<Tagged>): (r: seq<Tagged>)
    ensures |r| == |s| && multiset(r) == multiset(s)
    ensures SortedByIndex(r)
  {
    if s == [] then []
    else
      var rest := SortByIndex(s[1..]);
      assert s == [s[0]] + s[1..];
      InsertSorted(s[0], rest);
      Insert(s[0], rest)
  }

  /** With distinct indices the sorted list is strictly increasing. */
  lemma {:induction false} SortDistinctIsStrict(s: seq<Tagged>)
    requires DistinctIndices(s)
    ensures StrictlySortedByIndex(SortByIndex(s))
  {
    if s != [] {
      var rest := SortByIndex(s[1..]);
      assert DistinctIndices(s[1..]) by {
        assert forall i :: 0 <= i < |s[1..]| ==> s[1..][i] == s[i + 1];
      }
      SortDistinctIsStrict(s[1..]);
      forall i | 0 <= i < |rest|
        ensures rest[i].0 != s[0].0
      {
        var k := MemberOfPermutation(rest, s[1..], i);
        assert s[k + 1] == rest[i];
      }
      InsertStrictlySorted(s[0], rest);
    }
  }

  /** An element of a permutation of `b` sits at some position of `b`. */
  lemma MemberOfPermutation(a: seq<Tagged>, b: seq<Tagged>, i: nat) returns (k: nat)
    requires multiset(a) == multiset(b) && i < |a|
    ensures k < |b| && b[k] == a[i]
  {
    assert a[i] in multiset(b);
    k :| 0 <= k < |b| && b[k] == a[i];
  }

  /** The summed length of the payloads: what the progress bar has counted
      once every listed download has finished. */
  function PayloadLength(s: seq<Tagged>): nat
  {
    if s == [] then 0 else |s[0].1| + PayloadLength(s[1..])
  }

  lemma {:induction false} PayloadLengthIsTotal(s: seq<Tagged>)
    ensures PayloadLength(s) == TotalLength(Values(s))
  {
    if s != [] {
      PayloadLengthIsTotal(s[1..]);
      assert Values(s)[1..] == Values(s[1..]);
    }
  }

  lemma {:induction false} PayloadLengthAppend(s: seq<Tagged>, x: Tagged)
    ensures PayloadLength(s + [x]) == PayloadLength(s) + |x.1|
  {
    if s != [] {
      assert (s + [x])[1..] == s[1..] + [x];
      PayloadLengthAppend(s[1..], x);
    } else {
      assert [] + [x] == [x];
    }
  }

  /** Sorting moves payloads around but keeps their total length: what the
      progress bar counted in completion order is what the result holds. */
  lemma {:induction false} SortKeepsPayloadLength(s: seq<Tagged>)
    ensures PayloadLength(SortByIndex(s)) == PayloadLength(s)
  {
    if s != [] {
      SortKeepsPayloadLength(s[1..]);
      InsertAddsLength(s[0], SortByIndex(s[1..]));
    }
  }

  lemma {:induction false} InsertAddsLength(x: Tagged, s: seq<Tagged>)
    ensures PayloadLength(Insert(x, s)) == |x.1| + PayloadLength(s)
  {
    if s == [] || x.0 <= s[0].0 {
      assert ([x] + s)[1..] == s;
    } else {
      var rest := Insert(x, s[1..]);
      assert ([s[0]] + rest)[1..] == rest;
      InsertAddsLength(x, s[1..]);
    }
  }

  /** The completion order of the futures: each chunk index exactly once. */
  predicate IsPermutation(order: seq<nat>, n: nat)
  {
    && |order| == n
    && (forall k :: 0 <= k < n ==> order[k] < n)
    && (forall a, b :: 0 <= a < b < n ==> order[a] != order[b])
  }

  /** `intermediate` after the `as_completed` loop: the pair of chunk
      `order[k]` in position k. */
  function Completed(order: seq<nat>, payloads: seq<seq<byte>>): (r: seq<Tagged>)
    requires forall k :: 0 <= k < |order| ==> order[k] < |payloads|
    ensures |r| == |order|
    ensures IsPermutation(order, |payloads|) ==> DistinctIndices(r)
  {
    seq(|order|, k requires 0 <= k < |order| => (order[k], payloads[order[k]]))
  }

  /** Position k of `intermediate` holds the pair of chunk `order[k]`. */
  lemma CompletedAt(order: seq<nat>, payloads: seq<seq<byte>>, k: nat)
    requires forall k :: 0 <= k < |order| ==> order[k] < |payloads|
    requires k < |order|
    ensures Completed(order, payloads)[k] == (order[k], payloads[order[k]])
  {
  }

  /** Strictly increasing indices, all below n, in a list of n pairs, are
      exactly 0, 1, ..., n-1. */
  lemma {:induction false} IndicesArePositions(r: seq<Tagged>, j: nat)
    requires StrictlySortedByIndex(r) && j < |r|
    requires forall i :: 0 <= i < |r| ==> r[i].0 < |r|
    ensures r[j].0 == j
  {
    IndexAtLeast(r, j);
    IndexAtMost(r, j);
  }

  lemma {:induction false} IndexAtLeast(r: seq<Tagged>, j: nat)
    requires StrictlySortedByIndex(r) && j < |r|
    ensures r[j].0 >= j
  {
    if j > 0 {
      IndexAtLeast(r, j - 1);
    }
  }

  lemma {:induction false} IndexAtMost(r: seq<Tagged>, j: nat)
    requires StrictlySortedByIndex(r) && j < |r|
    requires forall i :: 0 <= i < |r| ==> r[i].0 < |r|
    ensures r[j].0 <= j
    decreases |r| - j
  {
    if j < |r| - 1 {
      IndexAtMost(r, j + 1);
    }
  }

  /** Sorting by index undoes any completion order: whatever permutation the
      futures complete in, the sorted payloads are the payloads in chunk
      order. */
  lemma {:induction false} SortRestoresChunkOrder(order: seq<nat>, payloads: seq<seq<byte>>)
    requires IsPermutation(order, |payloads|)
    ensures Values(SortByIndex(Completed(order, payloads))) == payloads
  {
    var s := Completed(order, payloads);
    var r := SortByIndex(s);
    SortDistinctIsStrict(s);
    forall j | 0 <= j < |r|
      ensures r[j].0 < |r| && r[j].1 == payloads[r[j].0]
    {
      SortedPairIsChunk(order, payloads, j);
    }
    forall j | 0 <= j < |r|
      ensures r[j].1 == payloads[j]
    {
      IndicesArePositions(r, j);
    }
  }

  /** Every pair of the sorted list is some chunk's index with that chunk's
      payload. */
  lemma SortedPairIsChunk(order: seq<nat>, payloads: seq<seq<byte>>, j: nat)
    requires IsPermutation(order, |payloads|) && j < |order|
    ensures var r := SortByIndex(Completed(order, payloads));
      j < |r| && r[j].0 < |r| && r[j].1 == payloads[r[j].0]
  {
    var s := Completed(order, payloads);
    var r := SortByIndex(s);
    var k := MemberOfPermutation(r, s, j);
    CompletedAt(order, payloads, k);
  }

  /** `start` after `run_async_functions_asyncio`: the sorted payloads
      concatenated. Its length is what the progress bar counted while the
      pairs arrived. */
  function Reassemble(intermediate: seq<Tagged>): (r: seq<byte>)
    ensures |r| == PayloadLength(intermediate)
  {
    var sorted := SortByIndex(intermediate);
    PayloadLengthIsTotal(sorted);
    SortKeepsPayloadLength(intermediate);
    Flatten(Values(sorted))
  }

  /** Reassembly is the same for every completion order. */
  lemma ReassemblyIgnoresCompletionOrder(o1: seq<nat>, o2: seq<nat>, payloads: seq<seq<byte>>)
    requires IsPermutation(o1, |payloads|) && IsPermutation(o2, |payloads|)
    ensures Reassemble(Completed(o1, payloads)) == Reassemble(Completed(o2, payloads)) == Flatten(payloads)
  {
    SortRestoresChunkOrder(o1, payloads);
    SortRestoresChunkOrder(o2, payloads);
  }

  /** The HTTP server as a DownloadTask sees it: the `Content-Length` a HEAD on
      `url` reports, and the parts `iter_content(1024)` yields for a GET of
      `url` with `Range: bytes=first-last`. */
  datatype Remote = Remote(contentLength: string -> nat, get: (string, int, int) -> seq<seq<byte>>)

  function Min(a: int, b: int): int
  {
    if a <= b then a else b
  }

  /** A server that holds `resource` at `url` and honours byte ranges as
      section 2.1 of RFC 7233 says: a last-byte-pos beyond the end stands
      for the last byte. */
  ghost predicate Serves(remote: Remote, url: string, resource: seq<byte>)
  {
    && remote.contentLength(url) == |resource|
    && forall first, last :: 0 <= first <= last && first < |resource| ==>
         Flatten(remote.get(url, first, last)) == resource[first..Min(last + 1, |resource|)]
  }

  /** What each request's `download_range` returns, in chunk order: one
      payload per request, as long as the parts streamed for its range. */
  function Payloads(remote: Remote, url: string, reqs: seq<Request>): (r: seq<seq<byte>>)
    ensures |r| == |reqs|
    ensures forall i :: 0 <= i < |r| ==> |r[i]| == TotalLength(remote.get(url, reqs[i].first, reqs[i].last))
  {
    seq(|reqs|, i requires 0 <= i < |reqs| => Flatten(remote.get(url, reqs[i].first, reqs[i].last)))
  }

  /** The payload of chunk i is what `download_range` returns for its
      start and `start + chunk_size - 1`. */
  lemma PayloadOfChunk(remote: Remote, url: string, fileSize: nat, chunkSize: int, i: nat)
    requires chunkSize != 0 && i < |PyRange(0, fileSize, chunkSize)|
    ensures var start := PyRange(0, fileSize, chunkSize)[i];
      && i < |Payloads(remote, url, Requests(fileSize, chunkSize))|
      && Payloads(remote, url, Requests(fileSize, chunkSize))[i] == Flatten(remote.get(url, start, start + chunkSize - 1))
  {
    assert Requests(fileSize, chunkSize)[i].first == PyRange(0, fileSize, chunkSize)[i];
  }

  /** One turn of the `as_completed` loop: the k-th completed future
      contributes chunk `order[k]` paired with what its `download_range`
      returned. */
  lemma CompletedStep(remote: Remote, url: string, fileSize: nat, chunkSize: int,
                      order: seq<nat>, k: nat, result: seq<byte>)
    requires chunkSize != 0 && IsPermutation(order, |Requests(fileSize, chunkSize)|) && k < |order|
    requires var start := PyRange(0, fileSize, chunkSize)[order[k]];
      result == Flatten(remote.get(url, start, start + chunkSize - 1))
    ensures var completed := Completed(order, Payloads(remote, url, Requests(fileSize, chunkSize)));
      completed[..k + 1] == completed[..k] + [(order[k], result)]
  {
    var payloads := Payloads(remote, url, Requests(fileSize, chunkSize));
    PayloadOfChunk(remote, url, fileSize, chunkSize, order[k]);
    CompletedAt(order, payloads, k);
    TakeOneMore(Completed(order, payloads), k);
  }

  /** What `run_async_functions_asyncio` returns after the futures complete
      in `order`: the payloads in chunk order, their summed length being what
      the progress bar counted. */
  lemma SortedCompletion(order: seq<nat>, payloads: seq<seq<byte>>)
    requires IsPermutation(order, |payloads|)
    ensures var intermediate := Completed(order, payloads);
      && Values(SortByIndex(intermediate)) == payloads
      && PayloadLength(intermediate) == TotalLength(payloads)
  {
    var intermediate := Completed(order, payloads);
    SortRestoresChunkOrder(order, payloads);
    SortKeepsPayloadLength(intermediate);
    PayloadLengthIsTotal(SortByIndex(intermediate));
  }

  /** When the server serves the resource, chunk i's payload is bytes
      `[i*C, min((i+1)*C, size))`, so the chunks concatenate to the whole
      resource and the progress bar ends at its size. */
  lemma {:induction false} DownloadRecoversResource(remote: Remote, url: string, resource: seq<byte>, chunkSize: int)
    requires chunkSize > 0 && Serves(remote, url, resource)
    ensures var payloads := Payloads(remote, url, Requests(|resource|, chunkSize));
      Flatten(payloads) == resource && TotalLength(payloads) == |resource|
  {
    var rs := Requests(|resource|, chunkSize);
    var payloads := Payloads(remote, url, rs);
    var pieces := Pieces(resource, chunkSize);
    RequestsShape(|resource|, chunkSize);
    PiecesShape(resource, chunkSize);
    forall i | 0 <= i < |rs|
      ensures payloads[i] == pieces[i]
    {
      PiecesAt(resource, chunkSize, i);
      assert rs[i] == Request(i, i * chunkSize, i * chunkSize + chunkSize - 1);
      assert (i + 1) * chunkSize == i * chunkSize + chunkSize;
    }
    assert payloads == pieces;
    PiecesFlatten(resource, chunkSize);
  }

  /** An empty resource is requested in no chunk at all, so `start`
      returns the empty byte string; no fallback request is made. */
  lemma EmptyResourceDownloadsNothing(remote: Remote, url: string, chunkSize: int)
    requires chunkSize != 0 && remote.contentLength(url) == 0
    ensures Requests(remote.contentLength(url), chunkSize) == []
    ensures Flatten(Payloads(remote, url, Requests(remote.contentLength(url), chunkSize))) == []
  {
  }

  /** The three-chunk example: 2,500,000 bytes in chunks of 1,000,000 are
      requested as [0, 999999], [1000000, 1999999], [2000000, 2999999] (the
      last range is left unclamped), completing as 2, 0, 1 still yields the
      payloads in chunk order, and the result is the resource. */
  lemma ThreeChunkExample(remote: Remote, url: string, resource: seq<byte>)
    requires |resource| == 2500000 && Serves(remote, url, resource)
    ensures Requests(2500000, 1000000)
      == [Request(0, 0, 999999), Request(1, 1000000, 1999999), Request(2, 2000000, 2999999)]
    ensures var payloads := Payloads(remote, url, Requests(2500000, 1000000));
      && Reassemble(Completed([2, 0, 1], payloads)) == resource
  {
    RequestsShape(2500000, 1000000);
    var rs := Requests(2500000, 1000000);
    assert |rs| == 3;
    var payloads := Payloads(remote, url, rs);
    assert IsPermutation([2, 0, 1], 3);
    SortRestoresChunkOrder([2, 0, 1], payloads);
    DownloadRecoversResource(remote, url, resource, 1000000);
  }

  class DownloadTask {
    var url: string
    var chunkSize: int
    /** The `tqdm` progress bar: how far it has advanced, and its total. */
    var progress: nat
    var progressTotal: int

    /** `DownloadTask(url, chunk_size=1000000)` */
    constructor (url: string, chunkSize: int := DefaultChunkSize)
      ensures this.url == url && this.chunkSize == chunkSize
      ensures progress == 0 && progressTotal == 0
    {
      this.url, this.chunkSize := url, chunkSize;
      progress, progressTotal := 0, 0;
    }

    /** `get_size`: the `Content-Length` of a HEAD on `url`. */
    method GetSize(remote: Remote, url: string) returns (size: nat)
      ensures size == remote.contentLength(url)
    {
      size := remote.contentLength(url);
    }

    /** `download_range`: write every streamed part, in order, into the
        output buffer, advancing the progress bar by each part's length. */
    method DownloadRange(remote: Remote, url: string, start: int, end: int, id: nat) returns (output: seq<byte>)
      modifies this`progress
      ensures output == Flatten(remote.get(url, start, end))
      ensures progress == old(progress) + TotalLength(remote.get(url, start, end))
    {
      var parts := remote.get(url, start, end);
      output := [];
      for k := 0 to |parts|
        invariant output == Flatten(parts[..k])
        invariant progress == old(progress) + |output|
      {
        FlattenAppend(parts[..k], [parts[k]]);
        assert parts[..k + 1] == parts[..k] + [parts[k]];
        assert Flatten([parts[k]]) == parts[k] + [];
        output := output + parts[k];
        progress := progress + |parts[k]|;
      }
      assert parts[..|parts|] == parts;
    }

    /** `run_async_functions_asyncio`: one `download_range` per chunk, run in
        the completion order `order`, each result tagged with its chunk
        index; then sorted by index. `range` raises ValueError on a zero
        chunk size. */
    method RunAsyncFunctions(remote: Remote, url: string, order: seq<nat>) returns (r: Outcome<seq<seq<byte>>>)
      requires chunkSize != 0 ==> IsPermutation(order, |Requests(remote.contentLength(url), chunkSize)|)
      modifies this`progress, this`progressTotal
      ensures progressTotal == remote.contentLength(url)
      ensures r.Raised? <==> chunkSize == 0
      ensures r.Raised? ==> r.error == ValueError
      ensures r.Ok? ==> r.value == Payloads(remote, url, Requests(remote.contentLength(url), chunkSize))
      ensures r.Ok? ==> progress == TotalLength(r.value)
    {
      var fileSize := GetSize(remote, url);
      progressTotal, progress := fileSize, 0;
      if chunkSize == 0 {
        return Raised(ValueError);
      }
      var chunks := PyRange(0, fileSize, chunkSize);
      ghost var payloads := Payloads(remote, url, Requests(fileSize, chunkSize));
      ghost var completed := Completed(order, payloads);
      var intermediate: seq<Tagged> := [];
      for k := 0 to |order|
        invariant progressTotal == fileSize
        invariant intermediate == completed[..k]
        invariant progress == PayloadLength(intermediate)
      {
        var i := order[k];
        var start := chunks[i];
        var result := DownloadRange(remote, url, start, start + chunkSize - 1, i);
        PayloadLengthAppend(intermediate, (i, result));
        CompletedStep(remote, url, fileSize, chunkSize, order, k, result);
        intermediate := intermediate + [(i, result)];
      }
      assert intermediate == completed;
      SortedCompletion(order, payloads);
      r := Ok(Values(SortByIndex(intermediate)));
    }

    /** `start`: run the chunked download and concatenate the results in
        list order. */
    method Start(remote: Remote, order: seq<nat>) returns (r: Outcome<seq<byte>>)
      requires chunkSize != 0 ==> IsPermutation(order, |Requests(remote.contentLength(url), chunkSize)|)
      modifies this`progress, this`progressTotal
      ensures r.Raised? <==> chunkSize == 0
      ensures r.Ok? ==> r.value == Flatten(Payloads(remote, url, Requests(remote.contentLength(url), chunkSize)))
      ensures r.Ok? ==> progress == |r.value|
    {
      var results := RunAsyncFunctions(remote, url, order);
      if results.Raised? {
        return Raised(results.error);
      }
      var buffer: seq<byte> := [];
      ghost var counted := progress;
      for k := 0 to |results.value|
        invariant buffer == Flatten(results.value[..k])
        invariant progress == counted
      {
        FlattenAppend(results.value[..k], [results.value[k]]);
        assert results.value[..k + 1] == results.value[..k] + [results.value[k]];
        assert Flatten([results.value[k]]) == results.value[k] + [];
        buffer := buffer + results.value[k];
      }
      assert results.value[..|results.value|] == results.value;
      return Ok(buffer);
    }
  }
}
