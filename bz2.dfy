/**
 * The incremental `bz2.BZ2Compressor` / `bz2.BZ2Decompressor` objects, with
 * the compression algorithm itself abstracted: what one call returns is a
 * function (`step`) of everything fed before it and of the new chunk. What is
 * modelled is the state the objects carry between calls — which is what
 * matters when, as in `AudioCache`, one pair of objects is shared by every
 * load and every dump of the process.
 */
module Bz2 {
  import opened Common

  /** The bytes one `compress(chunk)` call returns, given the input the
      compressor consumed before it. */
  type CompressStep = (seq<byte>, seq<byte>) -> seq<byte>

  class Compressor {
    const step: CompressStep
    /** Everything passed to `compress` so far. */
    var consumed: seq<byte>

    constructor (step: CompressStep)
      ensures this.step == step && consumed == []
    {
      this.step := step;
      consumed := [];
    }

    /** `compress(chunk)`: returns what the stream emits for `chunk` and
        remembers the chunk. Nothing is ever emitted by a flush here. */
    method Compress(chunk: seq<byte>) returns (out: seq<byte>)
      modifies this
      ensures out == step(old(consumed), chunk)
      ensures consumed == old(consumed) + chunk
    {
      out := step(consumed, chunk);
      consumed := consumed + chunk;
    }
  }

  /** The concatenated output of `compress` called once per piece, on a
      compressor that had already consumed `history`. */
  function Deflate(step: CompressStep, history: seq<byte>, pieces: seq<seq<byte>>): seq<byte>
    decreases |pieces|
  {
    if pieces == [] then []
    else step(history, pieces[0]) + Deflate(step, history + pieces[0], pieces[1..])
  }

  /** Compressing one more piece emits that piece's output, then what the
      remaining pieces emit after it. */
  lemma DeflateCons(step: CompressStep, history: seq<byte>, chunk: seq<byte>, rest: seq<seq<byte>>)
    ensures Deflate(step, history, [chunk] + rest) == step(history, chunk) + Deflate(step, history + chunk, rest)
  {
    assert ([chunk] + rest)[1..] == rest;
  }

  /** bz2 emits nothing until a whole block (up to 900 kB at the default
      level) has been consumed: `compress` returns `b""` for input that
      keeps the total below `limit`. */
  ghost predicate BuffersBelow(step: CompressStep, limit: nat)
  {
    forall history, chunk :: |history| + |chunk| <= limit ==> step(history, chunk) == []
  }

  /** Without a `flush()`, a compressor that is still below its block size
      has emitted nothing at all: the output is empty. */
  lemma {:induction false} DeflateBelowBlockIsEmpty(step: CompressStep, limit: nat, history: seq<byte>,
                                                    pieces: seq<seq<byte>>)
    requires BuffersBelow(step, limit)
    requires |history| + |Flatten(pieces)| <= limit
    ensures Deflate(step, history, pieces) == []
    decreases |pieces|
  {
    if pieces != [] {
      assert |Flatten(pieces)| == |pieces[0]| + |Flatten(pieces[1..])|;
      assert step(history, pieces[0]) == [];
      DeflateBelowBlockIsEmpty(step, limit, history + pieces[0], pieces[1..]);
    }
  }

  /** What one `decompress(chunk)` call makes of a chunk: output plus
      whether the end of the stream was reached, or an error on data that
      is not bz2 (OSError). */
  datatype Inflated = Inflated(out: seq<byte>, atEnd: bool) | Corrupt

  type DecompressStep = (seq<byte>, seq<byte>) -> Inflated

  /** The state a decompressor carries between calls. */
  datatype DecompressorState = DecompressorState(eof: bool, consumed: seq<byte>)

  /** One `decompress(chunk)` call: EOFError once the stream has ended,
      OSError on corrupt data (state kept), otherwise the output. */
  function DecompressOnce(step: DecompressStep, st: DecompressorState, chunk: seq<byte>)
    : (r: (Option<seq<byte>>, DecompressorState))
    ensures st.eof ==> r == (None, st)
    ensures r.0.None? ==> r.1 == st
    ensures r.0.Some? ==> r.1.consumed == st.consumed + chunk
  {
    if st.eof then (None, st)
    else match step(st.consumed, chunk)
      case Corrupt => (None, st)
      case Inflated(out, atEnd) => (Some(out), DecompressorState(atEnd, st.consumed + chunk))
  }

  /** Feeding `pieces` one by one: the concatenated output, or None as soon
      as one call raises, together with the final state. */
  function Inflate(step: DecompressStep, st: DecompressorState, pieces: seq<seq<byte>>)
    : (Option<seq<byte>>, DecompressorState)
    decreases |pieces|
  {
    if pieces == [] then (Some([]), st)
    else
      var (first, st') := DecompressOnce(step, st, pieces[0]);
      if first.None? then (None, st')
      else
        var (rest, st'') := Inflate(step, st', pieces[1..]);
        (if rest.None? then None else Some(first.value + rest.value), st'')
  }

  /** A result of Inflate with `prefix` put in front of its output. */
  function Prepend(prefix: seq<byte>, r: (Option<seq<byte>>, DecompressorState)): (Option<seq<byte>>, DecompressorState)
  {
    (if r.0.None? then None else Some(prefix + r.0.value), r.1)
  }

  lemma PrependNothing(r: (Option<seq<byte>>, DecompressorState))
    ensures Prepend([], r) == r
  {
    if r.0.Some? {
      assert [] + r.0.value == r.0.value;
    }
  }

  lemma PrependTwice(a: seq<byte>, b: seq<byte>, r: (Option<seq<byte>>, DecompressorState))
    ensures Prepend(a, Prepend(b, r)) == Prepend(a + b, r)
  {
    if r.0.Some? {
      assert a + (b + r.0.value) == (a + b) + r.0.value;
    }
  }

  /** Inflate, one piece at a time from the front. */
  lemma InflateCons(step: DecompressStep, st: DecompressorState, chunk: seq<byte>, rest: seq<seq<byte>>)
    ensures var (first, st') := DecompressOnce(step, st, chunk);
      Inflate(step, st, [chunk] + rest) == if first.None? then (None, st') else Prepend(first.value, Inflate(step, st', rest))
  {
    assert ([chunk] + rest)[0] == chunk && ([chunk] + rest)[1..] == rest;
  }

  /** A decompressor whose stream has ended raises on the first non-empty
      input and keeps raising: every later load through it fails, and its
      state stays as it was. */
  lemma InflateAfterEnd(step: DecompressStep, st: DecompressorState, pieces: seq<seq<byte>>)
    requires st.eof && pieces != []
    ensures Inflate(step, st, pieces) == (None, st)
  {
  }

  /** A successful run consumes every piece, in order. */
  lemma {:induction false} InflateConsumes(step: DecompressStep, st: DecompressorState, pieces: seq<seq<byte>>)
    requires Inflate(step, st, pieces).0.Some?
    ensures Inflate(step, st, pieces).1.consumed == st.consumed + Flatten(pieces)
    decreases |pieces|
  {
    if pieces != [] {
      var st' := DecompressOnce(step, st, pieces[0]).1;
      InflateConsumes(step, st', pieces[1..]);
    }
  }

  class Decompressor {
    const step: DecompressStep
    var eof: bool
    var consumed: seq<byte>

    constructor (step: DecompressStep)
      ensures this.step == step && State() == DecompressorState(false, [])
    {
      this.step := step;
      eof, consumed := false, [];
    }

    function State(): DecompressorState
      reads this
    {
      DecompressorState(eof, consumed)
    }

    /** `decompress(chunk)`; None stands for the raised EOFError/OSError. */
    method Decompress(chunk: seq<byte>) returns (r: Option<seq<byte>>)
      modifies this
      ensures (r, State()) == DecompressOnce(step, old(State()), chunk)
    {
      if eof {
        return None;
      }
      match step(consumed, chunk)
      case Corrupt =>
        r := None;
      case Inflated(out, atEnd) =>
        r := Some(out);
        eof, consumed := atEnd, consumed + chunk;
    }
  }
}
