/** Loading a project: the document's channels, clips and block
    references become, per channel, a list of records sorted by start,
    optionally gap-filled; and the reader object that results. */
module Project {
  import opened Results
  import opened Fragments
  import opened Layout
  import opened StableSort
  import opened GapFill

  /** A block reference inside a clip: its file name and declared length. */
  datatype BlockRef = BlockRef(filename: string, len: int)

  /** A clip, with its offset already converted to a start sample. */
  datatype Clip = Clip(start: int, blocks: seq<BlockRef>)

  /** The parsed document: rate, project name, and the clips of each
      channel in document order. */
  datatype Document = Document(rate: int, project: string, tracks: seq<seq<Clip>>)

  /** One block as the loader first records it, before its file is found. */
  datatype Declared = Declared(filename: string, start: int, len: int)

  /** The reader: the loaded channels and the cursor (channel, record
      index `aunr`, intra-record offset). `aunr` < 0 means not open. */
  datatype Aup = Aup(rate: int, project: string, files: seq<seq<Fragment>>,
                     channel: int, aunr: int, offset: int)

  /** The cursor can only be open on a channel that exists. */
  predicate Valid(a: Aup) {
    a.aunr >= 0 ==> 0 <= a.channel < |a.files|
  }

  /** Number of blocks in the first n clips. */
  function BlocksBefore(clips: seq<Clip>, n: nat): nat
    requires n <= |clips|
  {
    if n == 0 then 0 else |clips[0].blocks| + BlocksBefore(clips[1..], n - 1)
  }

  /** The blocks of a channel in document order, each stamped with the
      start of the clip that holds it. */
  function ClipBlocks(clips: seq<Clip>): seq<Declared> {
    if clips == [] then []
    else
      var c := clips[0];
      seq(|c.blocks|, i requires 0 <= i < |c.blocks| => Declared(c.blocks[i].filename, c.start, c.blocks[i].len))
        + ClipBlocks(clips[1..])
  }

  lemma {:induction false} ClipStartAt(clips: seq<Clip>, ci: nat, bi: nat)
    requires ci < |clips| && bi < |clips[ci].blocks|
    ensures BlocksBefore(clips, ci) + bi < |ClipBlocks(clips)|
    ensures ClipBlocks(clips)[BlocksBefore(clips, ci) + bi]
      == Declared(clips[ci].blocks[bi].filename, clips[ci].start, clips[ci].blocks[bi].len)
  {
    var c := clips[0];
    var head := seq(|c.blocks|, i requires 0 <= i < |c.blocks| => Declared(c.blocks[i].filename, c.start, c.blocks[i].len));
    assert ClipBlocks(clips) == head + ClipBlocks(clips[1..]);
    if ci > 0 {
      ClipStartAt(clips[1..], ci - 1, bi);
    }
  }

  /** Block bi of clip ci is record BlocksBefore(ci) + bi, and it carries
      the clip's start, whatever its position inside the clip. */
  lemma ClipStarts(clips: seq<Clip>)
    ensures forall ci, bi | 0 <= ci < |clips| && 0 <= bi < |clips[ci].blocks| ::
      BlocksBefore(clips, ci) + bi < |ClipBlocks(clips)| &&
      ClipBlocks(clips)[BlocksBefore(clips, ci) + bi]
        == Declared(clips[ci].blocks[bi].filename, clips[ci].start, clips[ci].blocks[bi].len)
  {
    forall ci, bi | 0 <= ci < |clips| && 0 <= bi < |clips[ci].blocks|
      ensures BlocksBefore(clips, ci) + bi < |ClipBlocks(clips)|
      ensures ClipBlocks(clips)[BlocksBefore(clips, ci) + bi]
        == Declared(clips[ci].blocks[bi].filename, clips[ci].start, clips[ci].blocks[bi].len)
    {
      ClipStartAt(clips, ci, bi);
    }
  }

  /** Locates every declared block. The first one whose file is absent
      raises, naming the project and the path; otherwise each block
      becomes a record of its file, its clip's start and its length. */
  function Resolve(dir: string, project: string, disk: Disk, ds: seq<Declared>): (r: Result<seq<Fragment>>)
    ensures r.Ok? <==> forall i :: 0 <= i < |ds| ==> BlockPath(dir, project, ds[i].filename) in disk.files
    ensures r.Err? ==>
      exists i :: 0 <= i < |ds|
        && BlockPath(dir, project, ds[i].filename) !in disk.files
        && (forall j :: 0 <= j < i ==> BlockPath(dir, project, ds[j].filename) in disk.files)
        && r.error == MissingBlockFile(project, BlockPath(dir, project, ds[i].filename))
    ensures r.Ok? ==> |r.value| == |ds|
    ensures r.Ok? ==> forall i :: 0 <= i < |ds| ==>
      r.value[i] == Fragment(BlockFile(BlockPath(dir, project, ds[i].filename)), ds[i].start, ds[i].len)
  {
    var rs := seq(|ds|, i requires 0 <= i < |ds| => Locate(dir, project, disk, ds[i]));
    assert forall i :: 0 <= i < |ds| ==> rs[i] == Locate(dir, project, disk, ds[i]);
    var r := Collect(rs);
    if r.Err? then
      var i :| 0 <= i < |rs| && rs[i] == Err(r.error) && forall j :: 0 <= j < i ==> rs[j].Ok?;
      assert Locate(dir, project, disk, ds[i]).Err?;
      assert forall j :: 0 <= j < i ==> Locate(dir, project, disk, ds[j]).Ok?;
      r
    else
      assert forall i :: 0 <= i < |ds| ==> Locate(dir, project, disk, ds[i]) == Ok(r.value[i]);
      r
  }

  /** One declared block: its record, or the error naming its missing file. */
  function Locate(dir: string, project: string, disk: Disk, d: Declared): (r: Result<Fragment>)
    ensures r.Ok? <==> BlockPath(dir, project, d.filename) in disk.files
    ensures r.Ok? ==> r.value == Fragment(BlockFile(BlockPath(dir, project, d.filename)), d.start, d.len)
    ensures r.Err? ==> r.error == MissingBlockFile(project, BlockPath(dir, project, d.filename))
  {
    var p := BlockPath(dir, project, d.filename);
    if p in disk.files then Ok(Fragment(BlockFile(p), d.start, d.len)) else Err(MissingBlockFile(project, p))
  }

  /** Every declared block's file exists. */
  predicate BlocksPresent(dir: string, project: string, disk: Disk, ds: seq<Declared>) {
    forall i :: 0 <= i < |ds| ==> BlockPath(dir, project, ds[i].filename) in disk.files
  }

  /** A channel loads when all its block files exist and, with gap
      filling, it has at least one block. */
  predicate ChannelLoads(dir: string, project: string, disk: Disk, clips: seq<Clip>, fillGaps: bool) {
    && BlocksPresent(dir, project, disk, ClipBlocks(clips))
    && (fillGaps ==> ClipBlocks(clips) != [])
  }

  /** The error a failing channel raises: the missing file of its first
      absent block, or, with gap filling, the empty channel. */
  predicate ChannelError(dir: string, project: string, disk: Disk, clips: seq<Clip>, fillGaps: bool, e: Error) {
    var ds := ClipBlocks(clips);
    || (exists i :: 0 <= i < |ds|
          && BlockPath(dir, project, ds[i].filename) !in disk.files
          && (forall j :: 0 <= j < i ==> BlockPath(dir, project, ds[j].filename) in disk.files)
          && e == MissingBlockFile(project, BlockPath(dir, project, ds[i].filename)))
    || (fillGaps && ds == [] && e == NoBlocks)
  }

  /** One channel: locate its blocks, sort them stably by start, and fill
      gaps when asked to. */
  function LoadChannel(dir: string, project: string, disk: Disk, clips: seq<Clip>, fillGaps: bool)
    : (r: Result<seq<Fragment>>)
    ensures r.Ok? <==> ChannelLoads(dir, project, disk, clips, fillGaps)
    ensures r.Err? ==> ChannelError(dir, project, disk, clips, fillGaps, r.error)
  {
    var recs :- Resolve(dir, project, disk, ClipBlocks(clips));
    var sorted := SortByStart(recs);
    if fillGaps then FillGaps(sorted) else Ok(sorted)
  }

  /** The channels in document order; the first channel that fails stops
      the load with its error. */
  function LoadTracks(dir: string, project: string, disk: Disk, tracks: seq<seq<Clip>>, fillGaps: bool)
    : (r: Result<seq<seq<Fragment>>>)
    ensures r.Ok? ==> |r.value| == |tracks|
    ensures r.Ok? ==> forall ch :: 0 <= ch < |tracks| ==> LoadChannel(dir, project, disk, tracks[ch], fillGaps) == Ok(r.value[ch])
    ensures r.Err? ==>
      exists ch :: 0 <= ch < |tracks|
        && LoadChannel(dir, project, disk, tracks[ch], fillGaps) == Err(r.error)
        && (forall c :: 0 <= c < ch ==> LoadChannel(dir, project, disk, tracks[c], fillGaps).Ok?)
  {
    var rs := seq(|tracks|, i requires 0 <= i < |tracks| => LoadChannel(dir, project, disk, tracks[i], fillGaps));
    assert forall i :: 0 <= i < |tracks| ==> rs[i] == LoadChannel(dir, project, disk, tracks[i], fillGaps);
    Collect(rs)
  }

  /** The constructor: block files are looked up under dir; the cursor
      starts closed. Channels load in document order and the first one
      that fails stops the load with its error. */
  function Load(doc: Document, dir: string, disk: Disk, fillGaps: bool): (r: Result<Aup>)
    ensures r.Ok? ==> Valid(r.value) && r.value.aunr == -1
    ensures r.Ok? ==> |r.value.files| == |doc.tracks| && r.value.rate == doc.rate && r.value.project == doc.project
    ensures r.Ok? ==> forall ch :: 0 <= ch < |doc.tracks| ==>
      LoadChannel(dir, doc.project, disk, doc.tracks[ch], fillGaps) == Ok(r.value.files[ch])
    ensures r.Err? ==>
      exists ch :: 0 <= ch < |doc.tracks|
        && LoadChannel(dir, doc.project, disk, doc.tracks[ch], fillGaps) == Err(r.error)
        && (forall c :: 0 <= c < ch ==> LoadChannel(dir, doc.project, disk, doc.tracks[c], fillGaps).Ok?)
  {
    var files :- LoadTracks(dir, doc.project, disk, doc.tracks, fillGaps);
    Ok(Aup(doc.rate, doc.project, files, 0, -1, 0))
  }

  /** When loading succeeds, in terms of the document: exactly when every
      channel's block files exist and, with gap filling, every channel has
      a block. */
  lemma LoadSucceeds(doc: Document, dir: string, disk: Disk, fillGaps: bool)
    ensures Load(doc, dir, disk, fillGaps).Ok? <==>
      forall ch :: 0 <= ch < |doc.tracks| ==> ChannelLoads(dir, doc.project, disk, doc.tracks[ch], fillGaps)
  {
    var r := Load(doc, dir, disk, fillGaps);
    if r.Err? {
      var ch :| 0 <= ch < |doc.tracks| && LoadChannel(dir, doc.project, disk, doc.tracks[ch], fillGaps) == Err(r.error);
      assert !ChannelLoads(dir, doc.project, disk, doc.tracks[ch], fillGaps);
    } else {
      forall ch | 0 <= ch < |doc.tracks| ensures ChannelLoads(dir, doc.project, disk, doc.tracks[ch], fillGaps) {
        assert LoadChannel(dir, doc.project, disk, doc.tracks[ch], fillGaps).Ok?;
      }
    }
  }

  /** How loading fails: with the error of the first channel, in document
      order, whose blocks are not all present or, with gap filling, that
      has no block; that error names the project and the path of the
      channel's first absent block, or is the empty-channel error. */
  lemma LoadFails(doc: Document, dir: string, disk: Disk, fillGaps: bool)
    requires Load(doc, dir, disk, fillGaps).Err?
    ensures var e := Load(doc, dir, disk, fillGaps).error;
      exists ch :: 0 <= ch < |doc.tracks|
        && !ChannelLoads(dir, doc.project, disk, doc.tracks[ch], fillGaps)
        && (forall c :: 0 <= c < ch ==> ChannelLoads(dir, doc.project, disk, doc.tracks[c], fillGaps))
        && ChannelError(dir, doc.project, disk, doc.tracks[ch], fillGaps, e)
  {
    var e := Load(doc, dir, disk, fillGaps).error;
    var ch :| 0 <= ch < |doc.tracks|
      && LoadChannel(dir, doc.project, disk, doc.tracks[ch], fillGaps) == Err(e)
      && (forall c :: 0 <= c < ch ==> LoadChannel(dir, doc.project, disk, doc.tracks[c], fillGaps).Ok?);
    assert !ChannelLoads(dir, doc.project, disk, doc.tracks[ch], fillGaps);
    assert ChannelError(dir, doc.project, disk, doc.tracks[ch], fillGaps, e);
    forall c | 0 <= c < ch ensures ChannelLoads(dir, doc.project, disk, doc.tracks[c], fillGaps) {
      assert LoadChannel(dir, doc.project, disk, doc.tracks[c], fillGaps).Ok?;
    }
  }

  /** What a loaded channel is. Every channel is sorted by start. Without
      gap filling it is exactly the stable sort of its blocks' records: at
      each start value they keep document order. With gap filling those
      records are all still there, and everything added is zero-filled. */
  lemma LoadedChannel(doc: Document, dir: string, disk: Disk, fillGaps: bool, ch: nat)
    requires Load(doc, dir, disk, fillGaps).Ok?
    requires ch < |doc.tracks|
    ensures var a := Load(doc, dir, disk, fillGaps).value;
            var recs := Resolve(dir, doc.project, disk, ClipBlocks(doc.tracks[ch]));
      && recs.Ok?
      && Sorted(a.files[ch])
      && (!fillGaps ==> forall k :: WithStart(a.files[ch], k) == WithStart(recs.value, k))
      && (fillGaps ==> multiset(recs.value) <= multiset(a.files[ch]))
      && (fillGaps ==> forall x :: x in multiset(a.files[ch]) - multiset(recs.value) ==> x.source.Silence?)
  {
    var a := Load(doc, dir, disk, fillGaps).value;
    var recs := Resolve(dir, doc.project, disk, ClipBlocks(doc.tracks[ch]));
    assert LoadChannel(dir, doc.project, disk, doc.tracks[ch], fillGaps) == Ok(a.files[ch]);
    assert recs.Ok?;
    var sorted := SortByStart(recs.value);
    if fillGaps {
      var synth := Synthetic(sorted);
      assert multiset(a.files[ch]) == multiset(sorted) + multiset(synth);
      forall x | x in multiset(a.files[ch]) - multiset(recs.value) ensures x.source.Silence? {
        assert x in multiset(synth);
      }
    }
  }
}
