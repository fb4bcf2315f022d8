/** The `fill_gaps` pass of the loader, as the code writes it: a walk over
    sample positions 0 .. total_length-1 that appends zero-filled records
    to the channel and then sorts it again by start.

    Quirks of the walk that the model keeps: the length field of a
    synthetic record is the absolute position plus one, not the gap's
    length; the walk starts in gap mode, so a channel whose first block
    starts at 0 still gets a one-sample record at 0; blocks that touch
    produce records holding no samples; and total_length is taken from the
    last record after sorting, not from the largest end. */
module GapFill {
  import opened Results
  import opened Fragments
  import opened StableSort

  /** The walk's variables: the gap flag, where the open gap started, the
      number of zeros written to the pending buffer, and the records
      appended so far. */
  datatype Walk = Walk(inGap: bool, gapStart: int, pending: nat, emitted: seq<Fragment>)

  const Initial := Walk(true, 0, 0, [])

  predicate IsDeclaredStart(blocks: seq<Fragment>, x: int) {
    exists j :: 0 <= j < |blocks| && blocks[j].start == x
  }

  predicate IsDeclaredEnd(blocks: seq<Fragment>, x: int) {
    exists j :: 0 <= j < |blocks| && blocks[j].start + blocks[j].len == x
  }

  /** The k-th record the walk appends, once it has visited positions
      0 .. t-1. It was emitted at a declared start s = len - 1 inside the
      walk; it starts at 0 if it closes the initial gap and at a declared
      end otherwise; its buffer holds one zero per position visited while
      the gap was open: s + 1 for the initial gap, s - start for later ones. */
  predicate SyntheticRecord(blocks: seq<Fragment>, k: nat, e: Fragment, t: int) {
    && e.source.Silence?
    && 0 <= e.len - 1 < t
    && IsDeclaredStart(blocks, e.len - 1)
    && 0 <= e.start <= e.len - 1
    && if k == 0 then e.start == 0 && e.source.zeros == e.len
       else IsDeclaredEnd(blocks, e.start) && e.source.zeros == e.len - 1 - e.start
  }

  /** What holds of the walk after it has visited positions 0 .. t-1. */
  predicate WalkInv(blocks: seq<Fragment>, t: int, w: Walk) {
    && (forall k :: 0 <= k < |w.emitted| ==> SyntheticRecord(blocks, k, w.emitted[k], t))
    && (w.inGap && w.emitted == [] ==> w.gapStart == 0 && w.pending == t)
    && (w.inGap && w.emitted != [] ==>
          IsDeclaredEnd(blocks, w.gapStart) && 0 <= w.gapStart < t && w.pending == t - 1 - w.gapStart)
    && (!w.inGap ==> w.pending == 0 && w.emitted != [])
  }

  /** The body of the inner loop for block j at position s: close an open
      gap at the block's start, then open one at the block's end. */
  function VisitBlock(blocks: seq<Fragment>, j: nat, s: int, w: Walk): (r: Walk)
    requires 0 <= s && j < |blocks|
    requires WalkInv(blocks, s + 1, w)
    ensures WalkInv(blocks, s + 1, r)
    ensures w.emitted <= r.emitted
  {
    var b := blocks[j];
    var w1 :=
      if s == b.start && w.inGap
      then Walk(false, w.gapStart, 0, w.emitted + [Fragment(Silence(w.pending), w.gapStart, s + 1)])
      else w;
    assert WalkInv(blocks, s + 1, w1) by {
      if s == b.start && w.inGap {
        assert IsDeclaredStart(blocks, s) by { assert blocks[j].start == s; }
        assert SyntheticRecord(blocks, |w.emitted|, w1.emitted[|w.emitted|], s + 1);
      }
    }
    if s == b.start + b.len && !w1.inGap then
      assert IsDeclaredEnd(blocks, s) by { assert blocks[j].start + blocks[j].len == s; }
      w1.(inGap := true, gapStart := s)
    else w1
  }

  /** The inner loop from block j on, at position s. */
  function VisitFrom(blocks: seq<Fragment>, s: int, j: nat, w: Walk): (r: Walk)
    requires 0 <= s && j <= |blocks|
    requires WalkInv(blocks, s + 1, w)
    ensures WalkInv(blocks, s + 1, r)
    ensures w.emitted <= r.emitted
    decreases |blocks| - j
  {
    if j == |blocks| then w else VisitFrom(blocks, s, j + 1, VisitBlock(blocks, j, s, w))
  }

  /** Line 46: a zero is written to the pending buffer while in a gap. */
  function WriteZero(w: Walk): Walk {
    if w.inGap then w.(pending := w.pending + 1) else w
  }

  lemma WriteZeroInv(blocks: seq<Fragment>, s: int, w: Walk)
    requires 0 <= s && WalkInv(blocks, s, w)
    ensures WalkInv(blocks, s + 1, WriteZero(w))
  {
    forall k | 0 <= k < |w.emitted| ensures SyntheticRecord(blocks, k, w.emitted[k], s + 1) {
      assert SyntheticRecord(blocks, k, w.emitted[k], s);
    }
  }

  /** One iteration of the outer loop: write a zero while in a gap, then
      run the inner loop over every block. */
  function Step(blocks: seq<Fragment>, s: int, w: Walk): (r: Walk)
    requires 0 <= s
    requires WalkInv(blocks, s, w)
    ensures WalkInv(blocks, s + 1, r)
    ensures w.emitted <= r.emitted
  {
    WriteZeroInv(blocks, s, w);
    VisitFrom(blocks, s, 0, WriteZero(w))
  }

  /** The outer loop over positions s .. total-1. */
  function WalkFrom(blocks: seq<Fragment>, s: int, total: int, w: Walk): (r: Walk)
    requires 0 <= s
    requires WalkInv(blocks, s, w)
    ensures WalkInv(blocks, if s < total then total else s, r)
    ensures w.emitted <= r.emitted
    decreases total - s
  {
    if s >= total then w else WalkFrom(blocks, s + 1, total, Step(blocks, s, w))
  }

  /** total_length: the last record's start plus its length. */
  function EndOfLast(blocks: seq<Fragment>): int
    requires blocks != []
  {
    blocks[|blocks| - 1].start + blocks[|blocks| - 1].len
  }

  /** The records the walk appends to a non-empty channel. */
  function Synthetic(blocks: seq<Fragment>): (r: seq<Fragment>)
    requires blocks != []
    ensures forall k :: 0 <= k < |r| ==> SyntheticRecord(blocks, k, r[k], EndOfLast(blocks))
  {
    WalkFrom(blocks, 0, EndOfLast(blocks), Initial).emitted
  }

  /** The gap-filling pass. It raises on an empty channel (the code indexes
      the last record); otherwise it keeps every declared record, adds only
      zero-filled ones, and sorts stably by start, so at each start value
      the declared records come before the synthetic ones. */
  function FillGaps(aufiles: seq<Fragment>): (r: Result<seq<Fragment>>)
    ensures r.Err? <==> aufiles == []
    ensures r.Err? ==> r.error == NoBlocks
    ensures r.Ok? ==> Sorted(r.value)
    ensures r.Ok? ==> multiset(r.value) == multiset(aufiles) + multiset(Synthetic(aufiles))
    ensures r.Ok? ==> forall x :: x in Synthetic(aufiles) ==> x.source.Silence?
    ensures r.Ok? ==> forall k :: WithStart(r.value, k) == WithStart(aufiles, k) + WithStart(Synthetic(aufiles), k)
  {
    if aufiles == [] then Err(NoBlocks)
    else
      var synth := Synthetic(aufiles);
      var r := SortByStart(aufiles + synth);
      assert forall k :: WithStart(r, k) == WithStart(aufiles, k) + WithStart(synth, k) by {
        forall k ensures WithStart(r, k) == WithStart(aufiles, k) + WithStart(synth, k) {
          WithStartAppend(aufiles, synth, k);
        }
      }
      assert forall x :: x in synth ==> x.source.Silence? by {
        forall x | x in synth ensures x.source.Silence? {
          var k :| 0 <= k < |synth| && synth[k] == x;
          assert SyntheticRecord(aufiles, k, synth[k], EndOfLast(aufiles));
        }
      }
      Ok(r)
  }

  /** A channel whose first block starts at sample 0 still gets a record
      of one zero at 0 with length field 1. */
  lemma FirstBlockAtZero(blocks: seq<Fragment>)
    requires blocks != [] && blocks[0].start == 0 && EndOfLast(blocks) > 0
    ensures Synthetic(blocks) != [] && Synthetic(blocks)[0] == Fragment(Silence(1), 0, 1)
  {
    var w1 := Initial.(pending := 1);
    var w2 := VisitBlock(blocks, 0, 0, w1);
    assert w2.emitted == [Fragment(Silence(1), 0, 1)];
    assert Step(blocks, 0, Initial) == VisitFrom(blocks, 0, 1, w2);
  }

  /** The inner loop leaves the walk alone over blocks that neither start
      at s nor, outside a gap, end at s. */
  lemma {:induction false} VisitSkip(blocks: seq<Fragment>, s: int, j: nat, m: nat, w: Walk)
    requires 0 <= s && j <= m <= |blocks|
    requires WalkInv(blocks, s + 1, w)
    requires forall i :: j <= i < m ==>
      blocks[i].start != s && (w.inGap || blocks[i].start + blocks[i].len != s)
    ensures VisitFrom(blocks, s, j, w) == VisitFrom(blocks, s, m, w)
    decreases m - j
  {
    if j < m {
      assert VisitBlock(blocks, j, s, w) == w;
      VisitSkip(blocks, s, j + 1, m, w);
    }
  }

  /** Positions before the first start only add zeros to the initial gap;
      at the first start the gap is closed with a record of all of them. */
  lemma {:induction false} InitialGapWalk(blocks: seq<Fragment>, t: int, total: int)
    requires Sorted(blocks) && blocks != []
    requires 0 <= t <= blocks[0].start < total
    ensures WalkInv(blocks, t, Walk(true, 0, t, []))
    ensures var r := WalkFrom(blocks, t, total, Walk(true, 0, t, [])).emitted;
      r != [] && r[0] == Fragment(Silence(blocks[0].start + 1), 0, blocks[0].start + 1)
    decreases total - t
  {
    var w := Walk(true, 0, t, []);
    var m := blocks[0].start;
    WriteZeroInv(blocks, t, w);
    var w1 := WriteZero(w);
    if t < m {
      forall i | 0 <= i < |blocks| ensures blocks[i].start != t {
        assert blocks[0].start <= blocks[i].start;
      }
      VisitSkip(blocks, t, 0, |blocks|, w1);
      assert Step(blocks, t, w) == Walk(true, 0, t + 1, []);
      InitialGapWalk(blocks, t + 1, total);
    } else {
      var w2 := VisitBlock(blocks, 0, t, w1);
      assert [Fragment(Silence(m + 1), 0, m + 1)] <= w2.emitted;
      assert Step(blocks, t, w) == VisitFrom(blocks, t, 1, w2);
    }
  }

  /** For a channel sorted by start whose first block starts inside the
      walk, the first record closes the initial gap: it starts at 0, holds
      one zero per position up to and including the first start m, and
      has length field m + 1. */
  lemma FirstRecord(blocks: seq<Fragment>)
    requires Sorted(blocks) && blocks != []
    requires 0 <= blocks[0].start < EndOfLast(blocks)
    ensures Synthetic(blocks) != []
    ensures Synthetic(blocks)[0] == Fragment(Silence(blocks[0].start + 1), 0, blocks[0].start + 1)
  {
    InitialGapWalk(blocks, 0, EndOfLast(blocks));
  }

  /** A well-formed channel: blocks of positive length, each ending at or
      before every later block starts, the first at a non-negative start. */
  predicate WellFormed(blocks: seq<Fragment>) {
    && blocks != []
    && blocks[0].start >= 0
    && (forall i :: 0 <= i < |blocks| ==> blocks[i].len > 0)
    && (forall i, j :: 0 <= i < j < |blocks| ==> blocks[i].start + blocks[i].len <= blocks[j].start)
  }

  /** The record the walk emits at the start of block i of a well-formed
      channel: the initial gap [0, s0] for i = 0, otherwise the gap from the
      end e of block i - 1 to the start s of block i, holding s - e zeros
      (none when the blocks touch) under the length field s + 1. */
  function GapRecord(blocks: seq<Fragment>, i: nat): Fragment
    requires WellFormed(blocks) && i < |blocks|
  {
    if i == 0 then Fragment(Silence(blocks[0].start + 1), 0, blocks[0].start + 1)
    else
      var e := blocks[i - 1].start + blocks[i - 1].len;
      assert e <= blocks[i].start;
      Fragment(Silence(blocks[i].start - e), e, blocks[i].start + 1)
  }

  /** The records of the first k blocks' gaps. */
  function GapRecords(blocks: seq<Fragment>, k: nat): (r: seq<Fragment>)
    requires WellFormed(blocks) && k <= |blocks|
  {
    seq(k, i requires 0 <= i < k => GapRecord(blocks, i))
  }

  /** The walk's state after positions 0 .. t-1 of a well-formed channel
      when k blocks start before t: the gaps of those k blocks have been
      emitted; the initial gap is open while k = 0; afterwards a gap is
      open exactly when the last started block has ended, with one zero
      pending per position visited since that end. */
  predicate Tracks(blocks: seq<Fragment>, t: int, k: nat, w: Walk)
    requires WellFormed(blocks)
  {
    && k <= |blocks|
    && (k > 0 ==> blocks[k - 1].start < t)
    && (k < |blocks| ==> t <= blocks[k].start)
    && w.emitted == GapRecords(blocks, k)
    && (k == 0 ==> w.inGap && w.gapStart == 0 && w.pending == t)
    && (k > 0 ==>
          var e := blocks[k - 1].start + blocks[k - 1].len;
          if e < t then w.inGap && w.gapStart == e && w.pending == t - 1 - e
          else !w.inGap && w.pending == 0)
  }

  /** The two inner-loop visits that can matter at position t when k
      blocks start before t: block k - 1, which may end at t, and block k,
      which may start at t. */
  function VisitPair(blocks: seq<Fragment>, t: int, k: nat, w: Walk): (r: Walk)
    requires 0 <= t && k <= |blocks| && WalkInv(blocks, t + 1, w)
    ensures WalkInv(blocks, t + 1, r)
  {
    var w2 := if k > 0 then VisitBlock(blocks, k - 1, t, w) else w;
    if k < |blocks| then VisitBlock(blocks, k, t, w2) else w2
  }

  /** In a well-formed channel only blocks k - 1 and k can start or end at
      t, so one outer iteration is those two visits after the zero. */
  lemma StepIsPair(blocks: seq<Fragment>, t: int, k: nat, w: Walk)
    requires WellFormed(blocks) && 0 <= t
    requires WalkInv(blocks, t, w) && Tracks(blocks, t, k, w)
    ensures WalkInv(blocks, t + 1, WriteZero(w))
    ensures Step(blocks, t, w) == VisitPair(blocks, t, k, WriteZero(w))
  {
    var n := |blocks|;
    WriteZeroInv(blocks, t, w);
    var w1 := WriteZero(w);
    var a := if k > 0 then k - 1 else 0;
    forall i | 0 <= i < a ensures blocks[i].start != t && blocks[i].start + blocks[i].len != t {
      assert blocks[i].start + blocks[i].len <= blocks[k - 1].start;
    }
    VisitSkip(blocks, t, 0, a, w1);
    var w2 := if k > 0 then VisitBlock(blocks, k - 1, t, w1) else w1;
    assert VisitFrom(blocks, t, a, w1) == VisitFrom(blocks, t, k, w2);
    var w3 := if k < n then VisitBlock(blocks, k, t, w2) else w2;
    var b := if k < n then k + 1 else n;
    assert VisitFrom(blocks, t, k, w2) == VisitFrom(blocks, t, b, w3);
    forall i | b <= i < n ensures blocks[i].start != t && blocks[i].start + blocks[i].len != t {
      assert blocks[k].start + blocks[k].len <= blocks[i].start;
    }
    VisitSkip(blocks, t, b, n, w3);
  }

  /** The block starting at t, if any, is the next one, k. */
  function NextCount(blocks: seq<Fragment>, t: int, k: nat): nat {
    if k < |blocks| && blocks[k].start == t then k + 1 else k
  }

  /** Block k starts at t: its gap record is emitted and the gap closes. */
  lemma PairCloses(blocks: seq<Fragment>, t: int, k: nat, w: Walk)
    requires WellFormed(blocks) && 0 <= t
    requires WalkInv(blocks, t, w) && Tracks(blocks, t, k, w)
    requires k < |blocks| && blocks[k].start == t
    ensures WalkInv(blocks, t + 1, WriteZero(w))
    ensures Tracks(blocks, t + 1, k + 1, VisitPair(blocks, t, k, WriteZero(w)))
  {
    WriteZeroInv(blocks, t, w);
    assert GapRecords(blocks, k + 1) == GapRecords(blocks, k) + [GapRecord(blocks, k)];
    if k + 1 < |blocks| {
      assert blocks[k].start + blocks[k].len <= blocks[k + 1].start;
    }
  }

  /** No block starts at t: at most the gap after block k - 1 opens. */
  lemma PairWaits(blocks: seq<Fragment>, t: int, k: nat, w: Walk)
    requires WellFormed(blocks) && 0 <= t
    requires WalkInv(blocks, t, w) && Tracks(blocks, t, k, w)
    requires !(k < |blocks| && blocks[k].start == t)
    ensures WalkInv(blocks, t + 1, WriteZero(w))
    ensures Tracks(blocks, t + 1, k, VisitPair(blocks, t, k, WriteZero(w)))
  {
    WriteZeroInv(blocks, t, w);
  }

  /** One outer iteration moves the tracked state from t to t + 1; the
      block starting at t, if any, gets its gap record. */
  lemma StepTracks(blocks: seq<Fragment>, t: int, k: nat, w: Walk)
    requires WellFormed(blocks) && 0 <= t
    requires WalkInv(blocks, t, w) && Tracks(blocks, t, k, w)
    ensures Tracks(blocks, t + 1, NextCount(blocks, t, k), Step(blocks, t, w))
  {
    StepIsPair(blocks, t, k, w);
    if k < |blocks| && blocks[k].start == t {
      PairCloses(blocks, t, k, w);
    } else {
      PairWaits(blocks, t, k, w);
    }
  }

  /** The outer loop from t to total keeps the tracked state. */
  lemma {:induction false} WalkTracks(blocks: seq<Fragment>, t: int, total: int, k: nat, w: Walk)
    returns (k2: nat)
    requires WellFormed(blocks) && 0 <= t <= total
    requires WalkInv(blocks, t, w) && Tracks(blocks, t, k, w)
    ensures Tracks(blocks, total, k2, WalkFrom(blocks, t, total, w))
    decreases total - t
  {
    if t == total {
      k2 := k;
    } else {
      StepTracks(blocks, t, k, w);
      k2 := WalkTracks(blocks, t + 1, total, NextCount(blocks, t, k), Step(blocks, t, w));
    }
  }

  /** The gap filler on a well-formed channel emits exactly one record per
      block, in block order: record i is GapRecord(blocks, i), closing the
      gap before block i at its start. */
  lemma SyntheticWellFormed(blocks: seq<Fragment>)
    requires WellFormed(blocks)
    ensures |Synthetic(blocks)| == |blocks|
    ensures forall i :: 0 <= i < |blocks| ==> Synthetic(blocks)[i] == GapRecord(blocks, i)
  {
    var n := |blocks|;
    var total := EndOfLast(blocks);
    if n > 1 {
      assert blocks[0].start + blocks[0].len <= blocks[n - 1].start;
    }
    assert Tracks(blocks, 0, 0, Initial);
    var k := WalkTracks(blocks, 0, total, 0, Initial);
    if k < n {
      assert false;
    }
  }
}
