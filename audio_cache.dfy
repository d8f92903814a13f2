/**
 * `AudioCache` in openmxr/cache.py: a cache whose entries are bz2-compressed
 * WAV files. `dump` writes the samples, transposed to (frame, channel), as a
 * WAV at 48000 Hz, then streams the WAV through the class-wide compressor in
 * 16384-byte reads; `load` streams the file through the class-wide
 * decompressor in 16384-byte reads and parses the WAV back, transposing to
 * (channel, frame). The WAV writer/reader (madmom, soundfile) are function
 * values; the compressor and decompressor are objects that every AudioCache
 * instance shares.
 */
module AudioStore {
  import opened Common
  import opened FileSystem
  import opened CacheStore
  import opened Bz2

  /** The size of every `read` in the two streaming loops. */
  const ReadSize: nat := 16384

  /** The sample rate `dump` always writes, whatever the artifact says. */
  const WavRate: int := 48000

  /** A two-dimensional numpy array: its shape and its rows. */
  datatype Array2<S> = Array2(rows: nat, cols: nat, cells: seq<seq<S>>)

  /** The array holds `rows` rows of `cols` elements each. */
  predicate Shaped<S>(m: Array2<S>)
  {
    |m.cells| == m.rows && forall i :: 0 <= i < |m.cells| ==> |m.cells[i]| == m.cols
  }

  type Matrix<S> = m: Array2<S> | Shaped(m) witness Array2(0, 0, [])

  /** `np.transpose` of a two-dimensional array: the shape is swapped, even
      when one dimension is zero, and element (i, j) moves to (j, i). */
  function Transpose<S>(m: Matrix<S>): (t: Matrix<S>)
    ensures t.rows == m.cols && t.cols == m.rows
    ensures forall i, j :: 0 <= i < m.rows && 0 <= j < m.cols ==> t.cells[j][i] == m.cells[i][j]
  {
    Array2(m.cols, m.rows,
           seq(m.cols, j requires 0 <= j < m.cols => seq(m.rows, i requires 0 <= i < m.rows => m.cells[i][j])))
  }

  /** Transposing twice gives every array back, shape included. */
  lemma TransposeTwice<S>(m: Matrix<S>)
    ensures Transpose(Transpose(m)) == m
  {
    var tt := Transpose(Transpose(m));
    forall i | 0 <= i < m.rows
      ensures tt.cells[i] == m.cells[i]
    {
      assert |tt.cells[i]| == m.cols;
    }
  }

  /** `(sample_rate, samples)` with samples as (channel, frame). */
  datatype AudioArtifact<S> = AudioArtifact(sampleRate: int, samples: Matrix<S>)

  /** madmom's `write_wave_file(signal, file, rate)`: the WAV bytes, or None
      when it raises. */
  type WavWriter<!S> = (Matrix<S>, int) -> Option<seq<byte>>

  /** soundfile's `sf.read(buffer)`: `(y, sr)` with y as (frame, channel),
      or None when it raises. */
  type WavReader<S> = seq<byte> -> Option<(Matrix<S>, int)>

  /** The WAV that `dump` writes for `data`: the transposed samples at
      48000 Hz; `data.sampleRate` is never consulted. */
  function WavOf<S>(write: WavWriter<S>, data: AudioArtifact<S>): Option<seq<byte>>
  {
    write(Transpose(data.samples), WavRate)
  }

  /** `dump` ignores the artifact's own sample rate: two artifacts with the
      same samples produce the same WAV, whatever their rates. */
  lemma DumpIgnoresSampleRate<S>(write: WavWriter<S>, data: AudioArtifact<S>, rate: int)
    ensures WavOf(write, data) == WavOf(write, AudioArtifact(rate, data.samples))
  {
  }

  /** What `load` returns once the WAV is decompressed: the WAV's own rate
      and the samples transposed back to (channel, frame), so that
      transposing them again gives exactly the reader's frames. */
  function FromWav<S>(read: WavReader<S>, wav: seq<byte>): (r: Option<AudioArtifact<S>>)
    ensures r.Some? <==> read(wav).Some?
    ensures r.Some? ==> r.value.sampleRate == read(wav).value.1 && Transpose(r.value.samples) == read(wav).value.0
  {
    match read(wav)
    case None => None
    case Some((y, sr)) =>
      TransposeTwice(y);
      Some(AudioArtifact(sr, Transpose(y)))
  }

  /** The file contents `dump` leaves when the compressor has already
      consumed `history`: the compressor's output for each 16 KiB piece of
      the WAV, concatenated, and no flush. A WAV write that raises does so
      before a byte reaches the file. */
  function Encode<S>(write: WavWriter<S>, step: CompressStep, history: seq<byte>, data: AudioArtifact<S>): (r: Dumped)
    ensures r.Dumped? <==> WavOf(write, data).Some?
    ensures r.DumpFailed? ==> r.partial == []
  {
    match WavOf(write, data)
    case None => DumpFailed([])
    case Some(wav) => Dumped(Deflate(step, history, Pieces(wav, ReadSize)))
  }

  /** What `load` returns for a file, and the decompressor's state after it.
      An empty file is never fed to the decompressor: the WAV reader gets
      no bytes. A result means the decompression went through. */
  function Decode<S>(read: WavReader<S>, step: DecompressStep, st: DecompressorState, content: seq<byte>)
    : (r: (Option<AudioArtifact<S>>, DecompressorState))
    ensures content == [] ==> r == (FromWav(read, []), st)
    ensures r.0.Some? ==> Inflate(step, st, Pieces(content, ReadSize)).0.Some?
  {
    var (inflated, st') := Inflate(step, st, Pieces(content, ReadSize));
    (if inflated.None? then None else FromWav(read, inflated.value), st')
  }

  /** `get` on a disk: what `ReadEntry` finds, then `load` through the
      shared decompressor, whose state is returned alongside. It raises
      exactly when the entry is a directory; a missing entry is a miss that
      leaves the decompressor alone; a regular file is decoded. */
  function AudioGetIn<S>(read: WavReader<S>, step: DecompressStep, d: Disk, st: DecompressorState, p: Path)
    : (r: (Outcome<Option<AudioArtifact<S>>>, DecompressorState))
    requires d.Valid()
    ensures r.0.Raised? <==> p in d.dirs
    ensures r.0.Raised? ==> r.0.error == IsADirectoryError(p) && r.1 == st
    ensures p !in d.files && p !in d.dirs ==> r == (Ok(None), st)
    ensures p in d.files ==> r == (Ok(Decode(read, step, st, d.files[p]).0), Decode(read, step, st, d.files[p]).1)
  {
    match ReadEntry(d, p)
    case Raised(e) => (Raised(e), st)
    case Ok(None) => (Ok(None), st)
    case Ok(Some(content)) =>
      var (loaded, st') := Decode(read, step, st, content);
      (Ok(loaded), st')
  }

  /** The WAV writer and reader invert each other: reading what was
      written at a rate gives back the same frames and that rate. */
  ghost predicate WavInverse<S(!new)>(write: WavWriter<S>, read: WavReader<S>)
  {
    forall m: Matrix<S>, rate: int :: write(m, rate).Some? ==> read(write(m, rate).value) == Some((m, rate))
  }

  /** Parsing the WAV that `dump` writes gives back the samples, shape
      included, but at 48000 Hz: the stored artifact comes back unchanged
      exactly when its rate was 48000. */
  lemma WavRoundTripAt48k<S(!new)>(write: WavWriter<S>, read: WavReader<S>, data: AudioArtifact<S>)
    requires WavInverse(write, read)
    requires WavOf(write, data).Some?
    ensures FromWav(read, WavOf(write, data).value) == Some(AudioArtifact(WavRate, data.samples))
    ensures FromWav(read, WavOf(write, data).value) == Some(data) <==> data.sampleRate == WavRate
  {
    var t := Transpose(data.samples);
    assert read(write(t, WavRate).value) == Some((t, WavRate));
    TransposeTwice(data.samples);
  }

  /** `load` after `dump`: when decompressing the stored entry yields the
      WAV that `dump` wrote, `load` returns the stored samples at 48000 Hz.
      The hypothesis does not hold of an entry written while the shared
      compressor still buffers, see UnflushedDumpLeavesNothing. */
  lemma LoadAfterDump<S(!new)>(write: WavWriter<S>, read: WavReader<S>, dstep: DecompressStep,
                         st: DecompressorState, content: seq<byte>, data: AudioArtifact<S>)
    requires WavInverse(write, read)
    requires WavOf(write, data).Some?
    requires Inflate(dstep, st, Pieces(content, ReadSize)).0 == Some(WavOf(write, data).value)
    ensures Decode(read, dstep, st, content).0 == Some(AudioArtifact(WavRate, data.samples))
    ensures Decode(read, dstep, st, content).0 == Some(data) <==> data.sampleRate == WavRate
  {
    WavRoundTripAt48k(write, read, data);
  }

  /** A `load` whose decompression goes through has fed the shared
      decompressor every byte of the file, once and in order. */
  lemma {:induction false} LoadFeedsEveryByte<S>(read: WavReader<S>, step: DecompressStep,
                                                 st: DecompressorState, content: seq<byte>)
    requires Inflate(step, st, Pieces(content, ReadSize)).0.Some?
    ensures Decode(read, step, st, content).1.consumed == st.consumed + content
  {
    InflateConsumes(step, st, Pieces(content, ReadSize));
    PiecesFlatten(content, ReadSize);
  }

  /** The shared decompressor, once its stream has ended, makes every later
      `load` of a non-empty entry raise (a miss for `get`) and stays as it
      was. */
  lemma {:induction false} LoadAfterEndOfStreamFails<S>(read: WavReader<S>, step: DecompressStep,
                                                        st: DecompressorState, content: seq<byte>)
    requires st.eof && content != []
    ensures Decode(read, step, st, content) == (None, st)
  {
    PiecesStep(content, ReadSize, 0);
    assert content[0..] == content;
    InflateAfterEnd(step, st, Pieces(content, ReadSize));
  }

  /** The never-flushed compressor: while the shared compressor has taken in
      less than one block, `dump` writes an empty entry, and `load` of that
      entry hands the WAV reader no bytes, so with a reader that rejects an
      empty buffer `get` reports a miss. */
  lemma {:induction false} UnflushedDumpLeavesNothing<S>(write: WavWriter<S>, read: WavReader<S>,
                                                         cstep: CompressStep, limit: nat, history: seq<byte>,
                                                         dstep: DecompressStep, st: DecompressorState,
                                                         data: AudioArtifact<S>)
    requires WavOf(write, data).Some?
    requires BuffersBelow(cstep, limit) && |history| + |WavOf(write, data).value| <= limit
    requires read([]) == None
    ensures Encode(write, cstep, history, data) == Dumped([])
    ensures Decode(read, dstep, st, []) == (None, st)
  {
    var wav := WavOf(write, data).value;
    PiecesFlatten(wav, ReadSize);
    DeflateBelowBlockIsEmpty(cstep, limit, history, Pieces(wav, ReadSize));
  }

  /** One turn of `dump`'s loop keeps its invariant: with `written` the
      output so far, what remains to be written after the next read is the
      rest of the loop with that read consumed. */
  lemma DeflateAdvance(step: CompressStep, c0: seq<byte>, s: seq<byte>, pos: nat, written: seq<byte>)
    requires pos < |s|
    requires Deflate(step, c0, Pieces(s, ReadSize)) == written + Deflate(step, c0 + s[..pos], Pieces(s[pos..], ReadSize))
    ensures var chunk := ReadAt(s, pos, ReadSize);
      && (c0 + s[..pos]) + chunk == c0 + s[..pos + |chunk|]
      && Deflate(step, c0, Pieces(s, ReadSize))
        == (written + step(c0 + s[..pos], chunk)) + Deflate(step, c0 + s[..pos + |chunk|], Pieces(s[pos + |chunk|..], ReadSize))
  {
    var chunk := ReadAt(s, pos, ReadSize);
    var h := c0 + s[..pos];
    PiecesStep(s, ReadSize, pos);
    HistoryGrows(c0, s, pos, chunk);
    DeflateCons(step, h, chunk, Pieces(s[pos + |chunk|..], ReadSize));
    AppendAssoc(written, step(h, chunk), Deflate(step, h + chunk, Pieces(s[pos + |chunk|..], ReadSize)));
  }

  /** The compressor's history after one more read of the WAV. */
  lemma HistoryGrows(c0: seq<byte>, s: seq<byte>, pos: nat, chunk: seq<byte>)
    requires pos <= |s| && chunk == ReadAt(s, pos, ReadSize)
    ensures (c0 + s[..pos]) + chunk == c0 + s[..pos + |chunk|]
  {
    assert s[..pos] + chunk == s[..pos + |chunk|];
  }

  lemma AppendAssoc(a: seq<byte>, b: seq<byte>, c: seq<byte>)
    ensures a + (b + c) == (a + b) + c
  {
  }

  /** `Cache` opens its entries as text, `AudioCache` as binary. */
  lemma EntryModes<T, S>(c: Cache<T>, a: AudioCache<S>)
    ensures Mode('r', c.binaryFormat) == "r" && Mode('w', c.binaryFormat) == "w"
    ensures Mode('r', a.binaryFormat) == "rb" && Mode('w', a.binaryFormat) == "wb"
  {
  }

  class AudioCache<S> {
    const name: string
    const md5: string -> string
    const fs: FileSystem
    /** The class-level `BZ2Compressor()` shared by every instance. */
    const compressor: Compressor
    /** The class-level `BZ2Decompressor()` shared by every instance. */
    const decompressor: Decompressor
    const wavWrite: WavWriter<S>
    const wavRead: WavReader<S>
    const binaryFormat: bool := true

    ghost predicate Valid()
      reads fs
    {
      fs.Valid()
    }

    constructor (name: string, md5: string -> string, fs: FileSystem, compressor: Compressor,
                 decompressor: Decompressor, wavWrite: WavWriter<S>, wavRead: WavReader<S>)
      ensures this.name == name && this.md5 == md5 && this.fs == fs
      ensures this.compressor == compressor && this.decompressor == decompressor
      ensures this.wavWrite == wavWrite && this.wavRead == wavRead
    {
      this.name, this.md5, this.fs := name, md5, fs;
      this.compressor, this.decompressor := compressor, decompressor;
      this.wavWrite, this.wavRead := wavWrite, wavRead;
    }

    /** `AudioCache(name)`: the inherited constructor, which runs
        `check_cache_exists` and raises when the namespace is a file. */
    static method Open(name: string, md5: string -> string, fs: FileSystem, compressor: Compressor,
                       decompressor: Decompressor, wavWrite: WavWriter<S>, wavRead: WavReader<S>)
      returns (r: Outcome<AudioCache<S>>)
      requires fs.Valid()
      modifies fs
      ensures fs.Valid()
      ensures fs.State() == CheckIn(old(fs.State()), name).0
      ensures r.Ok? <==> CheckIn(old(fs.State()), name).1.Ok?
      ensures r.Raised? ==> r.error == CheckIn(old(fs.State()), name).1.error
      ensures r.Ok? ==> r.value.name == name && r.value.fs == fs &&
                        r.value.compressor == compressor && r.value.decompressor == decompressor
    {
      var c := new AudioCache(name, md5, fs, compressor, decompressor, wavWrite, wavRead);
      var chk := CheckCacheExists(fs, name);
      if chk.Raised? {
        return Raised(chk.error);
      }
      return Ok(c);
    }

    /** The inherited `get_cache_filename(key)`. */
    function GetCacheFilename(key: string): (p: Path)
      ensures PlainName(name) && IsHexDigest(md5(key)) ==> p == "./.cache/" + name + "/" + md5(key) + ".cache"
    {
      var digest := md5(key);
      if PlainName(name) && IsHexDigest(digest) then
        HexIsRelative(digest);
        EntryPathShape(name, digest);
        EntryPath(name, digest)
      else
        EntryPath(name, digest)
    }

    /** `load(file)`: 16 KiB reads until an empty one, each fed to the shared
        decompressor and its output appended to the buffer; then the WAV is
        parsed. Any exception on the way is the None that `get` turns into
        a miss. */
    method Load(content: seq<byte>) returns (r: Option<AudioArtifact<S>>)
      modifies decompressor
      ensures (r, decompressor.State()) == Decode(wavRead, decompressor.step, old(decompressor.State()), content)
    {
      ghost var st0 := decompressor.State();
      var buffer: seq<byte> := [];
      var pos := 0;
      assert content[pos..] == content;
      PrependNothing(Inflate(decompressor.step, st0, Pieces(content, ReadSize)));
      while true
        invariant 0 <= pos <= |content|
        invariant Inflate(decompressor.step, st0, Pieces(content, ReadSize))
          == Prepend(buffer, Inflate(decompressor.step, decompressor.State(), Pieces(content[pos..], ReadSize)))
        decreases |content| - pos
      {
        var chunk := ReadAt(content, pos, ReadSize);
        if chunk == [] {
          break;
        }
        ghost var before := decompressor.State();
        ghost var rest := Pieces(content[pos + |chunk|..], ReadSize);
        PiecesStep(content, ReadSize, pos);
        InflateCons(decompressor.step, before, chunk, rest);
        var out := decompressor.Decompress(chunk);
        if out.None? {
          return None;
        }
        ghost var tail := Inflate(decompressor.step, decompressor.State(), rest);
        PrependTwice(buffer, out.value, tail);
        buffer := buffer + out.value;
        pos := pos + |chunk|;
      }
      assert content[pos..] == [];
      assert buffer + [] == buffer;
      r := FromWav(wavRead, buffer);
    }

    /** `dump(data, file)` on the already opened entry `p`: write the WAV at
        48000 Hz, then stream it into the file through the shared
        compressor. The compressor is never flushed. */
    method Dump(data: AudioArtifact<S>, p: Path) returns (r: Outcome<()>)
      requires fs.Valid() && p in fs.files
      modifies fs, compressor
      ensures fs.Valid() && fs.dirs == old(fs.dirs)
      ensures WavOf(wavWrite, data).None? ==>
        r == Raised(SerializationError) && fs.files == old(fs.files) && compressor.consumed == old(compressor.consumed)
      ensures WavOf(wavWrite, data).Some? ==>
        && r == Ok(())
        && fs.files == old(fs.files)[p := old(fs.files)[p] + Encode(wavWrite, compressor.step, old(compressor.consumed), data).bytes]
        && compressor.consumed == old(compressor.consumed) + WavOf(wavWrite, data).value
    {
      var wav := WavOf(wavWrite, data);
      if wav.None? {
        return Raised(SerializationError);
      }
      CompressInto(p, wav.value);
      r := Ok(());
    }

    /** The loop of `dump`: 16 KiB reads of the WAV until an empty one, each
        passed through the shared compressor and appended to the file. */
    method CompressInto(p: Path, uncompressed: seq<byte>)
      requires fs.Valid() && p in fs.files
      modifies fs, compressor
      ensures fs.Valid() && fs.dirs == old(fs.dirs)
      ensures fs.files == old(fs.files)[p := old(fs.files)[p] + Deflate(compressor.step, old(compressor.consumed), Pieces(uncompressed, ReadSize))]
      ensures compressor.consumed == old(compressor.consumed) + uncompressed
    {
      ghost var c0 := compressor.consumed;
      ghost var f0 := fs.files[p];
      ghost var step := compressor.step;
      ghost var total := Deflate(step, c0, Pieces(uncompressed, ReadSize));
      ghost var written: seq<byte> := [];
      assert f0 + written == f0;
      assert old(fs.files)[p := f0 + written] == old(fs.files);
      assert uncompressed[0..] == uncompressed && c0 + uncompressed[..0] == c0;
      var pos := 0;
      while true
        invariant 0 <= pos <= |uncompressed|
        invariant fs.Valid() && fs.dirs == old(fs.dirs)
        invariant fs.files == old(fs.files)[p := f0 + written]
        invariant compressor.consumed == c0 + uncompressed[..pos]
        invariant total == written + Deflate(step, c0 + uncompressed[..pos], Pieces(uncompressed[pos..], ReadSize))
        decreases |uncompressed| - pos
      {
        var chunk := ReadAt(uncompressed, pos, ReadSize);
        if chunk == [] {
          break;
        }
        var out := compressor.Compress(chunk);
        DeflateAdvance(step, c0, uncompressed, pos, written);
        fs.Append(p, out);
        assert (f0 + written) + out == f0 + (written + out);
        written := written + out;
        pos := pos + |chunk|;
      }
      assert uncompressed[pos..] == [] && uncompressed[..pos] == uncompressed;
      assert written + [] == written;
    }

    /** `get(key)`: a missing entry is a miss; an entry the decompressor or
        the WAV reader rejects is a miss too, and stays on disk. The entry is
        opened in mode `Mode('r', binaryFormat)`. */
    method Get(key: string) returns (r: Outcome<Option<AudioArtifact<S>>>)
      requires Valid()
      modifies decompressor
      ensures (r, decompressor.State())
        == AudioGetIn(wavRead, decompressor.step, fs.State(), old(decompressor.State()), GetCacheFilename(key))
    {
      var p := GetCacheFilename(key);
      if !fs.Exists(p) {
        return Ok(None);
      }
      if fs.IsDir(p) {
        return Raised(IsADirectoryError(p));
      }
      var content := fs.ReadAll(p, Mode('r', binaryFormat));
      var loaded := Load(content);
      return Ok(loaded);
    }

    /** `set(key, data)`: the inherited `set` with this class's `dump`; the
        entry is opened in mode `Mode('w', binaryFormat)`. */
    method Set(key: string, data: AudioArtifact<S>) returns (r: Outcome<()>)
      requires Valid()
      modifies fs, compressor
      ensures Valid()
      ensures (fs.State(), r)
        == SetIn(old(fs.State()), name, md5(key), Encode(wavWrite, compressor.step, old(compressor.consumed), data))
      ensures compressor.consumed ==
        if OpensIn(old(fs.State()), name, md5(key)) && WavOf(wavWrite, data).Some?
        then old(compressor.consumed) + WavOf(wavWrite, data).value
        else old(compressor.consumed)
    {
      ghost var d0 := fs.State();
      r := CheckCacheExists(fs, name);
      if r.Raised? {
        return;
      }
      ghost var d1 := fs.State();
      var p := GetCacheFilename(key);
      r := fs.OpenForWrite(p, Mode('w', binaryFormat));
      if r.Raised? {
        return;
      }
      assert fs.files[p] == [];
      r := Dump(data, p);
      ghost var w := Encode(wavWrite, compressor.step, old(compressor.consumed), data);
      if w.Dumped? {
        assert [] + w.bytes == w.bytes;
        assert fs.files == d1.files[p := w.bytes];
      } else {
        assert fs.files == d1.files[p := []];
      }
    }
  }
}
