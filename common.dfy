/**
 * Values shared by the download task and the caches: bytes, the Python
 * exceptions the core can raise, and the two ways the core walks a byte
 * string — concatenating parts and cutting it into fixed-size reads.
 */
module Common {

  newtype byte = x: int | 0 <= x < 256

  datatype Option<T> = None | Some(value: T)

  /** The Python exceptions that reach a caller of the core. */
  datatype Error =
    | FileExistsError(path: string)     // os.makedirs on a path that is a regular file
    | IsADirectoryError(path: string)   // open() on a path that is a directory
    | SerializationError                // the codec's dump raised
    | ValueError                        // range() with a zero step

  /** A call that returns a value or raises. */
  datatype Outcome<T> = Ok(value: T) | Raised(error: Error)

  /** `b"".join(parts)`: the parts concatenated in order. Its length is
      what a progress bar advanced once per part has counted. */
  function Flatten(parts: seq<seq<byte>>): (r: seq<byte>)
    ensures |r| == TotalLength(parts)
  {
    if parts == [] then [] else parts[0] + Flatten(parts[1..])
  }

  /** The sum of the lengths of `parts`: what a progress bar shows after
      being advanced once per part. */
  function TotalLength(parts: seq<seq<byte>>): nat
  {
    if parts == [] then 0 else |parts[0]| + TotalLength(parts[1..])
  }

  lemma {:induction false} FlattenAppend(a: seq<seq<byte>>, b: seq<seq<byte>>)
    ensures Flatten(a + b) == Flatten(a) + Flatten(b)
  {
    if a == [] {
      assert a + b == b;
    } else {
      assert (a + b)[1..] == a[1..] + b;
      FlattenAppend(a[1..], b);
    }
  }

  /** The pieces that successive `read(n)` calls return on a stream holding
      `s`, up to (and not including) the empty read that ends the loop.
      An empty stream ends the loop at the first read, and no read comes
      back empty before the end. */
  function Pieces(s: seq<byte>, n: nat): (r: seq<seq<byte>>)
    requires n > 0
    ensures r == [] <==> s == []
    decreases |s|
  {
    if |s| == 0 then []
    else if |s| <= n then [s]
    else [s[..n]] + Pieces(s[n..], n)
  }

  /** A prefix one element longer. */
  lemma TakeOneMore<T>(s: seq<T>, k: nat)
    requires k < |s|
    ensures s[..k + 1] == s[..k] + [s[k]]
  {
  }

  /** The first `read(n)` on a stream positioned at the start of `s`. */
  function ReadAt(s: seq<byte>, pos: nat, n: nat): (chunk: seq<byte>)
    requires pos <= |s|
    ensures |chunk| == if pos + n <= |s| then n else |s| - pos
    ensures chunk == s[pos..pos + |chunk|]
  {
    if pos + n <= |s| then s[pos..pos + n] else s[pos..]
  }

  /** A non-empty read takes the next piece and leaves the rest of the
      stream to the pieces that follow. */
  lemma PiecesStep(s: seq<byte>, n: nat, pos: nat)
    requires n > 0 && pos < |s|
    ensures Pieces(s[pos..], n) == [ReadAt(s, pos, n)] + Pieces(s[pos + |ReadAt(s, pos, n)|..], n)
  {
    var rest := s[pos..];
    var chunk := ReadAt(s, pos, n);
    if |rest| <= n {
      assert chunk == rest;
      assert s[pos + |chunk|..] == [];
    } else {
      assert chunk == rest[..n];
      assert rest[n..] == s[pos + n..];
    }
  }

  /** Every byte of the stream is fed exactly once, in order: the pieces
      concatenate back to `s`, and a progress bar advanced by each piece's
      length ends at `|s|`. */
  lemma {:induction false} PiecesFlatten(s: seq<byte>, n: nat)
    requires n > 0
    ensures Flatten(Pieces(s, n)) == s
    ensures TotalLength(Pieces(s, n)) == |s|
    decreases |s|
  {
    if |s| > n {
      PiecesFlatten(s[n..], n);
      assert s == s[..n] + s[n..];
    }
  }

  /** No piece is empty, none exceeds `n`, all but the last are exactly `n`
      long, and there are ceil(|s| / n) of them. */
  lemma {:induction false} PiecesShape(s: seq<byte>, n: nat)
    requires n > 0
    ensures |Pieces(s, n)| == (|s| + n - 1) / n
    ensures forall i :: 0 <= i < |Pieces(s, n)| ==> 0 < |Pieces(s, n)[i]| <= n
    ensures forall i :: 0 <= i < |Pieces(s, n)| - 1 ==> |Pieces(s, n)[i]| == n
    decreases |s|
  {
    if |s| == 0 {
      assert (n - 1) / n == 0;
    } else if |s| <= n {
      assert (|s| + n - 1) / n == 1;
    } else {
      var t := s[n..];
      PiecesShape(t, n);
      CeilStep(|t|, n);
      assert Pieces(s, n) == [s[..n]] + Pieces(t, n);
    }
  }

  /** ceil((m + n) / n) == ceil(m / n) + 1 */
  lemma CeilStep(m: nat, n: nat)
    requires n > 0
    ensures (m + n + n - 1) / n == (m + n - 1) / n + 1
  {
    var q, r := (m + n - 1) / n, (m + n - 1) % n;
    DivUnique(m + n + n - 1, n, q + 1, r);
  }

  /** Euclidean division has one quotient per remainder in [0, n). */
  lemma DivUnique(a: int, n: int, q: int, r: int)
    requires n > 0 && 0 <= r < n && a == q * n + r
    ensures a / n == q
  {
    var q', r' := a / n, a % n;
    assert (q - q') * n == r' - r;
    if q > q' {
      assert (q - q') * n >= n by { MulAtLeast(q - q', n); }
    } else if q < q' {
      assert (q' - q) * n >= n by { MulAtLeast(q' - q, n); }
    }
  }

  lemma MulAtLeast(k: int, n: int)
    requires k >= 1 && n > 0
    ensures k * n >= n
  {
    assert k * n == (k - 1) * n + n;
  }

  /** Piece `i` of `s` is the slice `[i*n, min((i+1)*n, |s|))`. */
  lemma {:induction false} PiecesAt(s: seq<byte>, n: nat, i: nat)
    requires n > 0 && i < |Pieces(s, n)|
    ensures i * n < |s|
    ensures Pieces(s, n)[i] == s[i * n .. if (i + 1) * n <= |s| then (i + 1) * n else |s|]
    decreases |s|
  {
    if i == 0 {
      assert s[0..] == s;
    } else {
      PiecesTail(s, n);
      PiecesAt(s[n..], n, i - 1);
      MulSucc(i, n);
      PiecesAtStep(s, n, i, (i - 1) * n, i * n, (i + 1) * n, Pieces(s, n), Pieces(s[n..], n));
    }
  }

  /** The step of PiecesAt, with the products `(i-1)*n`, `i*n` and
      `(i+1)*n` named `a`, `b` and `c`, and the pieces of `s` and of
      `s[n..]` named `ps` and `qs`. */
  lemma PiecesAtStep(s: seq<byte>, n: nat, i: nat, a: int, b: int, c: int, ps: seq<seq<byte>>, qs: seq<seq<byte>>)
    requires n > 0 && i > 0 && a + n == b && b + n == c
    requires |s| > n && ps == [s[..n]] + qs
    requires i - 1 < |qs| && 0 <= a < |s| - n
    requires qs[i - 1] == s[n..][a .. if b <= |s| - n then b else |s| - n]
    ensures i < |ps| && b < |s|
    ensures ps[i] == s[b .. if c <= |s| then c else |s|]
  {
    var hi := if b <= |s| - n then b else |s| - n;
    DropSlice(s, n, a, hi);
  }

  /** Past the first piece, the pieces of `s` are those of `s[n..]`. */
  lemma PiecesTail(s: seq<byte>, n: nat)
    requires n > 0 && |Pieces(s, n)| > 1
    ensures |s| > n && Pieces(s, n) == [s[..n]] + Pieces(s[n..], n)
  {
  }

  lemma MulSucc(i: nat, n: nat)
    requires i > 0
    ensures (i - 1) * n + n == i * n && i * n + n == (i + 1) * n
  {
  }

  lemma DropSlice(s: seq<byte>, n: nat, lo: nat, hi: nat)
    requires n <= |s| && lo <= hi <= |s| - n
    ensures s[n..][lo..hi] == s[n + lo..n + hi]
  {
  }
}
