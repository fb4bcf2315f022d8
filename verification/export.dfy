/** towav(): seek to the start sample, read, scale each float sample to a
    clipped 16-bit integer, stop after the sample budget, and pack the
    values big-endian (AIFF) or little-endian (WAV). */
module Export {
  import opened Results
  import opened Seqs
  import opened Fragments
  import opened Project
  import opened Cursor

  type Byte = b: int | 0 <= b < 256

  /** 1 << 15 */
  const Scale: int := 32768

  predicate InShortRange(v: int) {
    -Scale <= v < Scale
  }

  predicate Shorts(s: seq<int>) {
    forall i :: 0 <= i < |s| ==> InShortRange(s[i])
  }

  predicate AllShorts(ws: seq<seq<int>>) {
    forall i :: 0 <= i < |ws| ==> Shorts(ws[i])
  }

  lemma {:induction false} ConcatShorts(ws: seq<seq<int>>)
    requires AllShorts(ws)
    ensures Shorts(Concat(ws))
    decreases |ws|
  {
    if ws != [] {
      ConcatShorts(ws[1..]);
      assert Shorts(ws[0]);
    }
  }

  /** numpy.clip(y, -Scale, Scale - 1) */
  function ClipToShort(y: real): real {
    if y < -Scale as real then -Scale as real
    else if y > (Scale - 1) as real then (Scale - 1) as real
    else y
  }

  /** The float-to-short cast drops the fraction, rounding toward zero. */
  function TruncateTowardZero(y: real): int {
    if y >= 0.0 then y.Floor else -((-y).Floor)
  }

  /** One sample as written: scaled by 2^15, clipped, truncated. Values at
      or beyond the range saturate; in between, the result is the scaled
      value with its fraction dropped toward zero. */
  function ToShort(x: real): (v: int)
    ensures InShortRange(v)
    ensures x * Scale as real >= (Scale - 1) as real ==> v == Scale - 1
    ensures x * Scale as real <= -Scale as real ==> v == -Scale
    ensures -Scale as real < x * Scale as real < (Scale - 1) as real ==>
      if x >= 0.0 then v as real <= x * Scale as real < v as real + 1.0
      else v as real - 1.0 < x * Scale as real <= v as real
  {
    TruncateTowardZero(ClipToShort(x * Scale as real))
  }

  /** A chunk of float samples converted to shorts, sample by sample. */
  function Convert(chunk: seq<real>): (shorts: seq<int>)
    ensures |shorts| == |chunk|
    ensures forall i :: 0 <= i < |chunk| ==> shorts[i] == ToShort(chunk[i]) && InShortRange(shorts[i])
  {
    seq(|chunk|, i requires 0 <= i < |chunk| => ToShort(chunk[i]))
  }

  /** Every chunk converted. */
  function ConvertAll(cs: seq<seq<real>>): (ws: seq<seq<int>>)
    ensures |ws| == |cs| && AllShorts(ws)
    ensures forall i :: 0 <= i < |cs| ==> ws[i] == Convert(cs[i])
  {
    seq(|cs|, i requires 0 <= i < |cs| => Convert(cs[i]))
  }

  /** Reads a signed 16-bit value back from two bytes in the given order. */
  function Unpack16(b: seq<Byte>, bigEndian: bool): (v: int)
    requires |b| == 2
    ensures InShortRange(v)
  {
    var hi := if bigEndian then b[0] else b[1];
    var lo := if bigEndian then b[1] else b[0];
    var u := (hi as int) * 256 + (lo as int);
    if u >= Scale then u - 2 * Scale else u
  }

  /** struct.pack of one 'h': two's complement in two bytes, high byte
      first for '>' and last for '<'. */
  function Pack16(v: int, bigEndian: bool): (b: seq<Byte>)
    requires InShortRange(v)
    ensures |b| == 2
    ensures (if bigEndian then (b[0] as int) * 256 + b[1] else (b[1] as int) * 256 + b[0])
         == (v + 2 * Scale) % (2 * Scale)
    ensures Unpack16(b, bigEndian) == v
  {
    var u := if v < 0 then v + 2 * Scale else v;
    assert 0 <= u < 2 * Scale && u == (v + 2 * Scale) % (2 * Scale);
    var hi: Byte := u / 256;
    var lo: Byte := u % 256;
    assert (hi as int) * 256 + (lo as int) == u;
    if bigEndian then [hi, lo] else [lo, hi]
  }

  /** Reads consecutive 16-bit values back from a byte string. */
  function UnpackAll(b: seq<Byte>, bigEndian: bool): (vs: seq<int>)
    ensures |vs| == |b| / 2
    decreases |b|
  {
    if |b| < 2 then [] else [Unpack16(b[..2], bigEndian)] + UnpackAll(b[2..], bigEndian)
  }

  /** struct.pack of a whole chunk: two bytes per value, and reading them
      back gives the chunk. */
  function PackChunk(shorts: seq<int>, bigEndian: bool): (b: seq<Byte>)
    requires Shorts(shorts)
    ensures |b| == 2 * |shorts|
    ensures UnpackAll(b, bigEndian) == shorts
  {
    if shorts == [] then []
    else
      var head := Pack16(shorts[0], bigEndian);
      var rest := PackChunk(shorts[1..], bigEndian);
      assert (head + rest)[..2] == head;
      assert (head + rest)[2..] == rest;
      head + rest
  }

  lemma {:induction false} PackChunkAppend(xs: seq<int>, ys: seq<int>, bigEndian: bool)
    requires Shorts(xs) && Shorts(ys)
    ensures PackChunk(xs + ys, bigEndian) == PackChunk(xs, bigEndian) + PackChunk(ys, bigEndian)
    decreases |xs|
  {
    if xs == [] {
      assert xs + ys == ys;
    } else {
      assert (xs + ys)[1..] == xs[1..] + ys;
      PackChunkAppend(xs[1..], ys, bigEndian);
    }
  }

  /** The frames handed to the container writer, one packed chunk each. */
  function PackAll(ws: seq<seq<int>>, bigEndian: bool): (frames: seq<seq<Byte>>)
    requires AllShorts(ws)
    ensures |frames| == |ws|
    ensures forall i :: 0 <= i < |ws| ==> |frames[i]| == 2 * |ws[i]|
  {
    seq(|ws|, i requires 0 <= i < |ws| => PackChunk(ws[i], bigEndian))
  }

  lemma {:induction false} PackAllConcat(ws: seq<seq<int>>, bigEndian: bool)
    requires AllShorts(ws)
    ensures Shorts(Concat(ws))
    ensures Concat(PackAll(ws, bigEndian)) == PackChunk(Concat(ws), bigEndian)
    decreases |ws|
  {
    ConcatShorts(ws);
    if ws != [] {
      PackAllConcat(ws[1..], bigEndian);
      assert Shorts(ws[0]);
      assert PackAll(ws, bigEndian)[1..] == PackAll(ws[1..], bigEndian);
      PackChunkAppend(ws[0], Concat(ws[1..]), bigEndian);
    }
  }

  lemma {:induction false} ConvertConcat(cs: seq<seq<real>>)
    ensures Concat(ConvertAll(cs)) == Convert(Concat(cs))
    decreases |cs|
  {
    if cs != [] {
      ConvertConcat(cs[1..]);
      assert ConvertAll(cs)[1..] == ConvertAll(cs[1..]);
      assert Convert(cs[0] + Concat(cs[1..])) == Convert(cs[0]) + Convert(Concat(cs[1..]));
    }
  }

  /** The chunks actually written under a budget, and whether the loop
      left through its break. */
  datatype Budgeted = Budgeted(written: seq<seq<int>>, stopped: bool)

  /** The budget part of the export loop: each chunk is cut to the samples
      still owed, the debt shrinks by what was written, and the loop breaks
      once nothing is owed. Altogether exactly min(max(budget, 0), available)
      samples are written, each chunk a prefix of its input. */
  function Budget(chunks: seq<seq<int>>, length: int): (b: Budgeted)
    ensures |b.written| <= |chunks|
    ensures forall i :: 0 <= i < |b.written| ==>
      |b.written[i]| <= |chunks[i]| && b.written[i] == chunks[i][..|b.written[i]|]
    ensures |Concat(b.written)| == Min(Max(length, 0), |Concat(chunks)|)
    ensures Concat(b.written) == Concat(chunks)[..|Concat(b.written)|]
    ensures !b.stopped ==> |b.written| == |chunks|
    ensures b.stopped ==> b.written != [] && |Concat(b.written)| == Max(length, 0)
    ensures b.stopped <==> chunks != [] && Max(length, 0) <= |Concat(chunks)|
    decreases |chunks|
  {
    if chunks == [] then Budgeted([], false)
    else
      var c := if |chunks[0]| > length then chunks[0][..Max(length, 0)] else chunks[0];
      var left := length - |c|;
      ConcatCons(chunks[0], chunks[1..]);
      assert [chunks[0]] + chunks[1..] == chunks;
      ConcatCons(c, []);
      if left <= 0 then
        Budgeted([c], true)
      else
        var rest := Budget(chunks[1..], left);
        ConcatCons(c, rest.written);
        Budgeted([c] + rest.written, rest.stopped)
  }

  /** The cursor after the read generator has been resumed n times. */
  function Advance(a: Aup, n: nat): Aup {
    if n == 0 then a else a.(aunr := a.aunr + n, offset := 0)
  }

  /** What towav() writes and the reader's state afterwards. */
  datatype Exported = Exported(frames: Result<seq<seq<Byte>>>, after: Aup)

  /** The loop of towav() after a successful seek: read, convert, cut to
      the budget, pack; then the cursor is closed. */
  function WriteChunks(sought: Aup, disk: Disk, budget: Option<int>, aiff: bool): (x: Exported)
    requires Valid(sought) && sought.aunr >= 0
    ensures x.frames.Ok?
    ensures x.after.aunr == -1 && x.after.files == sought.files && x.after.channel == sought.channel
    ensures var chunks := Read(sought, disk).value.chunks;
      budget.None? || !Budget(ConvertAll(chunks), budget.value).stopped ==>
        x.after == Close(Read(sought, disk).value.after)
    ensures var chunks := Read(sought, disk).value.chunks;
      budget.Some? && Budget(ConvertAll(chunks), budget.value).stopped ==>
        x.after.offset == (if |Budget(ConvertAll(chunks), budget.value).written| == 1 then sought.offset else 0)
  {
    var reading := Read(sought, disk).value;
    var shorts := ConvertAll(reading.chunks);
    match budget
    case None =>
      Exported(Ok(PackAll(shorts, aiff)), Close(reading.after))
    case Some(length) =>
      var b := Budget(shorts, length);
      assert AllShorts(b.written) by {
        forall i | 0 <= i < |b.written| ensures Shorts(b.written[i]) {
          assert Shorts(shorts[i]);
        }
      }
      assert !b.stopped ==> |b.written| == |reading.chunks|;
      // a break leaves the generator suspended after its last yield
      var resumed := if b.stopped then |b.written| - 1 else |b.written|;
      Exported(Ok(PackAll(b.written, aiff)), Close(Advance(sought, resumed)))
  }

  /** towav(): open the channel, seek to the start sample, write every
      chunk read (cut to the budget when a stop is given), then close the
      cursor, also when the seek raises. `budget` is None when no stop is
      given; `aiff` selects big-endian packing. */
  function ExportChannel(a: Aup, disk: Disk, channel: int, startSample: int, budget: Option<int>, aiff: bool)
    : (x: Exported)
    ensures !(0 <= channel < |a.files|) ==> x == Exported(Err(ChannelOutOfBounds), a)
    ensures 0 <= channel < |a.files| ==>
      x.after.aunr == -1 && x.after.files == a.files && x.after.channel == channel && Valid(x.after)
    ensures x.frames.Err? ==> x.frames.error == ChannelOutOfBounds || x.frames.error == SeekPastEnd
  {
    match Open(a, channel)
    case Err(e) => Exported(Err(e), a)
    case Ok(cur) =>
      match Seek(cur, startSample)
      case Err(e) => Exported(Err(e), Close(cur))
      case Ok(sought) => WriteChunks(sought, disk, budget, aiff)
  }

  /** Number of samples towav() writes when it starts at a sample inside
      the channel. */
  function Window(available: int, budget: Option<int>): int {
    match budget
    case None => available
    case Some(length) => Min(Max(length, 0), available)
  }

  /** The values written after a successful seek, read back: the
      converted samples the read yields, cut to the budget. */
  lemma WriteChunksWindow(sought: Aup, disk: Disk, budget: Option<int>, aiff: bool)
    requires Valid(sought) && sought.aunr >= 0
    ensures var samples := Concat(Read(sought, disk).value.chunks);
      && 0 <= Window(|samples|, budget) <= |samples|
      && UnpackAll(Concat(WriteChunks(sought, disk, budget, aiff).frames.value), aiff)
         == Convert(samples)[..Window(|samples|, budget)]
  {
    var reading := Read(sought, disk).value;
    var shorts := ConvertAll(reading.chunks);
    ConvertConcat(reading.chunks);
    var written := if budget.Some? then Budget(shorts, budget.value).written else shorts;
    assert AllShorts(written) by {
      forall i | 0 <= i < |written| ensures Shorts(written[i]) {
        assert Shorts(shorts[i]);
      }
    }
    assert Concat(written) == Convert(Concat(reading.chunks))[..Window(|Concat(reading.chunks)|, budget)];
    PackAllConcat(written, aiff);
  }

  /** End to end, for consistent sources: towav() raises exactly when the
      start is at or past the end of the channel; otherwise the values
      packed into the frames, read back, are the converted channel samples
      from the start on, exactly min(max(budget, 0), remaining) of them
      (all remaining ones without a stop). */
  lemma ExportWindow(a: Aup, disk: Disk, channel: int, startSample: int, budget: Option<int>, aiff: bool)
    requires 0 <= channel < |a.files|
    requires Consistent(disk, a.files[channel]) && startSample >= 0
    ensures var x := ExportChannel(a, disk, channel, startSample, budget, aiff);
      x.frames.Err? <==> startSample >= Total(a.files[channel])
    ensures var x := ExportChannel(a, disk, channel, startSample, budget, aiff);
      var stream := Stream(disk, a.files[channel], 0);
      x.frames.Ok? ==>
        && startSample < |stream|
        && var n := Window(|stream| - startSample, budget);
        && 0 <= n <= |stream| - startSample
        && UnpackAll(Concat(x.frames.value), aiff) == Convert(stream[startSample..])[..n]
  {
    var cur := Open(a, channel).value;
    var x := ExportChannel(a, disk, channel, startSample, budget, aiff);
    var stream := Stream(disk, a.files[channel], 0);
    SeekThenRead(cur, disk, startSample);
    var r := Seek(cur, startSample);
    if r.Ok? {
      var sought := r.value;
      assert x == WriteChunks(sought, disk, budget, aiff);
      WriteChunksWindow(sought, disk, budget, aiff);
      assert Concat(Read(sought, disk).value.chunks) == stream[startSample..];
    } else {
      assert x.frames == Err(r.error);
    }
  }
}
