/** The read cursor: open a channel, seek to a sample, and read the rest of
    the channel as one chunk per remaining record. */
module Cursor {
  import opened Results
  import opened Seqs
  import opened Fragments
  import opened Project

  /** Selects a channel and rewinds the cursor; a channel that does not
      exist is refused without touching the reader. */
  function Open(a: Aup, channel: int): (r: Result<Aup>)
    ensures r.Ok? <==> 0 <= channel < |a.files|
    ensures r.Err? ==> r.error == ChannelOutOfBounds
    ensures r.Ok? ==> Valid(r.value) && r.value.aunr == 0 && r.value.offset == 0
    ensures r.Ok? ==> r.value.channel == channel && r.value.files == a.files
  {
    if !(0 <= channel < |a.files|) then Err(ChannelOutOfBounds)
    else Ok(a.(channel := channel, aunr := 0, offset := 0))
  }

  /** Marks the cursor as not open; nothing else changes. */
  function Close(a: Aup): (r: Aup)
    ensures r.aunr < 0 && Valid(r)
    ensures r.files == a.files && r.channel == a.channel && r.offset == a.offset
  {
    a.(aunr := -1)
  }

  /** The loop of seek(): running sums of the declared lengths from record
      i on, s being the sum before record i; answers the first record
      whose running sum passes pos. */
  function Scan(fs: seq<Fragment>, pos: int, i: nat, s: int): (r: Option<nat>)
    requires i <= |fs| && s == Prefix(fs, i)
    ensures r.Some? ==> i <= r.value < |fs| && pos < Prefix(fs, r.value + 1)
    ensures r.Some? ==> forall j :: i < j <= r.value ==> Prefix(fs, j) <= pos
    ensures r.None? ==> forall j :: i < j <= |fs| ==> Prefix(fs, j) <= pos
    decreases |fs| - i
  {
    if i == |fs| then None
    else if s + fs[i].len > pos then Some(i)
    else Scan(fs, pos, i + 1, s + fs[i].len)
  }

  /** seek(pos): a linear search over declared lengths (start samples play
      no part). It lands on the first record whose running sum passes pos,
      at offset pos minus the lengths before it, and raises when no record
      does. */
  function Seek(a: Aup, pos: int): (r: Result<Aup>)
    requires Valid(a)
    ensures a.aunr < 0 ==> r == Err(NotOpened)
    ensures a.aunr >= 0 && r.Ok? ==>
      var fs := a.files[a.channel];
      && r.value == a.(aunr := r.value.aunr, offset := r.value.offset)
      && Valid(r.value)
      && 0 <= r.value.aunr
      && Prefix(fs, Min(r.value.aunr, |fs|)) + r.value.offset == pos
      && (|fs| > 0 ==> r.value.aunr < |fs| && pos < Prefix(fs, r.value.aunr + 1))
      && forall j :: 0 < j <= Min(r.value.aunr, |fs|) ==> Prefix(fs, j) <= pos
    ensures a.aunr >= 0 && r.Err? ==>
      var fs := a.files[a.channel];
      && r.error == SeekPastEnd
      && pos >= Total(fs)
      && forall j :: 0 < j <= |fs| ==> Prefix(fs, j) <= pos
  {
    if a.aunr < 0 then Err(NotOpened)
    else
      var fs := a.files[a.channel];
      match Scan(fs, pos, 0, 0)
      case Some(i) =>
        // s is the running sum through record i, length its declared length
        var s := Prefix(fs, i + 1);
        Ok(a.(aunr := i, offset := pos - s + fs[i].len))
      case None =>
        // the loop ran out: s is the total and length stays 0; only an
        // empty channel with a negative pos gets past the end check
        var s := Total(fs);
        if pos >= s then Err(SeekPastEnd) else Ok(a.(aunr := 0, offset := pos - s))
  }

  /** Where a non-negative pos lands, for non-negative lengths: seek raises
      exactly when pos reaches the sum of all declared lengths; otherwise
      the cursor is on record i at offset o with the lengths before i plus
      o equal to pos and 0 <= o < len[i]. */
  lemma SeekLands(a: Aup, pos: int)
    requires Valid(a) && a.aunr >= 0
    requires NonNegative(a.files[a.channel]) && pos >= 0
    ensures Seek(a, pos).Err? <==> pos >= Total(a.files[a.channel])
    ensures Seek(a, pos).Ok? ==>
      var i, o := Seek(a, pos).value.aunr, Seek(a, pos).value.offset;
      var fs := a.files[a.channel];
      && 0 <= i < |fs|
      && Prefix(fs, i) + o == pos
      && 0 <= o < fs[i].len
  {
    var fs := a.files[a.channel];
    var r := Seek(a, pos);
    if r.Ok? {
      var i := r.value.aunr;
      if |fs| == 0 {
        assert false;
      }
      PrefixMonotone(fs, i + 1, |fs|);
      if i > 0 {
        assert Prefix(fs, i) <= pos;
      }
    }
  }

  /** What one step of read() yields for a record: its source is sought
      (len - offset) samples back from its end and read to the end. A
      position before the start is taken as the start and one past the
      end reads nothing, as an in-memory buffer behaves. */
  function Chunk(data: seq<real>, len: int, offset: int): (c: seq<real>)
    ensures |c| <= |data|
    ensures c == data[|data| - |c|..]
    ensures 0 <= len - offset <= |data| ==> |c| == len - offset
  {
    var p := |data| + (offset - len);
    if p <= 0 then data else if p >= |data| then [] else data[p..]
  }

  /** The chunks read() yields from record i on, the first one starting at
      the given offset and the others whole. */
  function ReadFrom(disk: Disk, fs: seq<Fragment>, i: nat, offset: int): (chunks: seq<seq<real>>)
    ensures |chunks| == if i < |fs| then |fs| - i else 0
    ensures Consistent(disk, fs) && i < |fs| && 0 <= offset <= fs[i].len ==>
      chunks[0] == Data(disk, fs[i].source)[offset..]
    ensures Consistent(disk, fs) ==>
      forall k :: 1 <= k < |chunks| ==> chunks[k] == Data(disk, fs[i + k].source)
    decreases |fs| - i
  {
    if i >= |fs| then []
    else
      var rest := ReadFrom(disk, fs, i + 1, 0);
      assert Consistent(disk, fs) && i + 1 < |fs| ==> rest[0] == Data(disk, fs[i + 1].source)[0..];
      [Chunk(Data(disk, fs[i].source), fs[i].len, offset)] + rest
  }

  /** The chunks read() yields and the cursor it leaves behind once the
      generator is exhausted. */
  datatype Reading = Reading(chunks: seq<seq<real>>, after: Aup)

  /** read(): one chunk per record from the cursor's record to the last;
      afterwards the cursor sits past the last record at offset 0. A
      cursor already past the end yields nothing and stays put. */
  function Read(a: Aup, disk: Disk): (r: Result<Reading>)
    requires Valid(a)
    ensures a.aunr < 0 <==> r.Err?
    ensures r.Err? ==> r.error == NotOpened
    ensures r.Ok? ==>
      var n := |a.files[a.channel]|;
      && |r.value.chunks| == Max(0, n - a.aunr)
      && Valid(r.value.after)
      && r.value.after == (if a.aunr < n then a.(aunr := n, offset := 0) else a)
    ensures r.Ok? && Consistent(disk, a.files[a.channel]) && a.aunr < |a.files[a.channel]|
            && 0 <= a.offset <= a.files[a.channel][a.aunr].len ==>
      var fs := a.files[a.channel];
      && r.value.chunks[0] == Data(disk, fs[a.aunr].source)[a.offset..]
      && forall k :: 1 <= k < |r.value.chunks| ==> r.value.chunks[k] == Data(disk, fs[a.aunr + k].source)
  {
    if a.aunr < 0 then Err(NotOpened)
    else
      var fs := a.files[a.channel];
      var chunks := ReadFrom(disk, fs, a.aunr, a.offset);
      Ok(Reading(chunks, if a.aunr < |fs| then a.(aunr := |fs|, offset := 0) else a))
  }

  /** With consistent sources, the chunks read from record i at an offset
      inside it concatenate to the stream from record i minus that offset. */
  lemma {:induction false} ReadFromStream(disk: Disk, fs: seq<Fragment>, i: nat, offset: int)
    requires Consistent(disk, fs)
    requires i < |fs| && 0 <= offset <= fs[i].len
    ensures Concat(ReadFrom(disk, fs, i, offset)) == Stream(disk, fs, i)[offset..]
    decreases |fs| - i
  {
    var d := Data(disk, fs[i].source);
    var rest := ReadFrom(disk, fs, i + 1, 0);
    ConcatCons(Chunk(d, fs[i].len, offset), rest);
    if i + 1 < |fs| {
      ReadFromStream(disk, fs, i + 1, 0);
    }
    assert Concat(rest) == Stream(disk, fs, i + 1);
    assert Stream(disk, fs, i) == d + Stream(disk, fs, i + 1);
    assert (d + Stream(disk, fs, i + 1))[offset..] == d[offset..] + Stream(disk, fs, i + 1);
  }

  /** seek(pos) then read() yields the channel's samples from pos on,
      provided every source holds as many samples as it declares; and
      seek(pos) raises exactly when pos is at or past the end. */
  lemma SeekThenRead(a: Aup, disk: Disk, pos: int)
    requires Valid(a) && a.aunr >= 0
    requires Consistent(disk, a.files[a.channel]) && pos >= 0
    ensures Seek(a, pos).Err? <==> pos >= Total(a.files[a.channel])
    ensures Seek(a, pos).Ok? ==>
      && Read(Seek(a, pos).value, disk).Ok?
      && pos < |Stream(disk, a.files[a.channel], 0)|
      && Concat(Read(Seek(a, pos).value, disk).value.chunks) == Stream(disk, a.files[a.channel], 0)[pos..]
  {
    var fs := a.files[a.channel];
    assert NonNegative(fs) by {
      forall i | 0 <= i < |fs| ensures fs[i].len >= 0 {
        assert |Data(disk, fs[i].source)| == fs[i].len;
      }
    }
    SeekLands(a, pos);
    if Seek(a, pos).Ok? {
      var c := Seek(a, pos).value;
      ReadFromStream(disk, fs, c.aunr, c.offset);
      StreamAt(disk, fs, c.aunr, c.offset);
    }
  }

  /** The stream from record i at offset o is the channel stream from the
      lengths before i plus o on. */
  lemma StreamAt(disk: Disk, fs: seq<Fragment>, i: nat, o: int)
    requires Consistent(disk, fs) && i < |fs| && 0 <= o <= fs[i].len
    ensures 0 <= Prefix(fs, i) + o <= |Stream(disk, fs, 0)|
    ensures Stream(disk, fs, 0)[Prefix(fs, i) + o..] == Stream(disk, fs, i)[o..]
  {
    StreamDrop(disk, fs, 0, i);
    StreamDrop(disk, fs, i, i + 1);
    var whole := Stream(disk, fs, 0);
    assert whole[Prefix(fs, i)..][o..] == whole[Prefix(fs, i) + o..];
  }

  /** After open(), read() yields the whole channel. */
  lemma OpenThenRead(a: Aup, disk: Disk, channel: int)
    requires 0 <= channel < |a.files| && Consistent(disk, a.files[channel])
    ensures Open(a, channel).Ok?
    ensures Read(Open(a, channel).value, disk).Ok?
    ensures Concat(Read(Open(a, channel).value, disk).value.chunks) == Stream(disk, a.files[channel], 0)
  {
    var fs := a.files[channel];
    if |fs| > 0 {
      ReadFromStream(disk, fs, 0, 0);
    }
  }

  /** read() is single-pass: reading again yields nothing. */
  lemma ReadTwice(a: Aup, disk: Disk)
    requires Valid(a) && a.aunr >= 0
    ensures Read(Read(a, disk).value.after, disk).Ok?
    ensures Read(Read(a, disk).value.after, disk).value.chunks == []
  {
  }

  /** After close(), seek and read raise until the next open. */
  lemma ClosedRefuses(a: Aup, disk: Disk, pos: int)
    ensures Seek(Close(a), pos) == Err(NotOpened)
    ensures Read(Close(a), disk) == Err(NotOpened)
  {
  }
}
