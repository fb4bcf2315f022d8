/** Worked instances of the reader's behaviour on small inputs. */
module Scenarios {
  import opened Results
  import opened Fragments
  import opened Layout
  import opened StableSort
  import opened GapFill
  import opened Export

  const A := Fragment(BlockFile(["a"]), 0, 2)
  const B := Fragment(BlockFile(["b"]), 4, 1)
  const C := Fragment(BlockFile(["c"]), 2, 1)

  /** "abcdefgh.au" of project "proj" lives in proj/abc/dde/. */
  lemma PathExample()
    ensures BlockPath(".", "proj", "abcdefgh.au") == [".", "proj", "abc", "dde", "abcdefgh.au"]
  {
    var p := BlockPath(".", "proj", "abcdefgh.au");
    BlockPathBuckets(".", "proj", "abcdefgh.au");
    assert p[2] == "abc";
    assert p[3] == "dde";
    assert p == [p[0], p[1], p[2], p[3], p[4]];
  }

  /** Slicing clamps: a two-character name gives buckets "ab" and "d". */
  lemma ShortNamePath()
    ensures BlockPath(".", "proj", "ab") == [".", "proj", "ab", "d", "ab"]
  {
    var p := BlockPath(".", "proj", "ab");
    assert p[2] == "ab";
    assert |p[3]| == 1;
    assert p[3] == "d";
    assert p == [p[0], p[1], p[2], p[3], p[4]];
  }

  /** Full scale saturates: 1.0 and 2.0 give 32767, -1.0 and -2.0 give
      -32768, and 0.5 gives 16384. Negative fractions truncate toward zero:
      -0.00004 scales to -1.31072 and gives -1, -0.00002 gives 0. */
  lemma ConversionExamples()
    ensures ToShort(1.0) == 32767 && ToShort(2.0) == 32767
    ensures ToShort(-1.0) == -32768 && ToShort(-2.0) == -32768
    ensures ToShort(0.5) == 16384
    ensures ToShort(-0.00004) == -1 && ToShort(-0.00002) == 0
  {
  }

  /** One pass of the outer loop over a two-block channel, unrolled. */
  lemma StepTwo(bs: seq<Fragment>, s: int, w: Walk)
    requires |bs| == 2 && 0 <= s && WalkInv(bs, s, w)
    ensures var w0 := if w.inGap then w.(pending := w.pending + 1) else w;
            WalkInv(bs, s + 1, w0) &&
            Step(bs, s, w) == VisitBlock(bs, 1, s, VisitBlock(bs, 0, s, w0))
  {
    var w0 := if w.inGap then w.(pending := w.pending + 1) else w;
    assert WalkInv(bs, s + 1, w0) by {
      forall k | 0 <= k < |w0.emitted| ensures SyntheticRecord(bs, k, w0.emitted[k], s + 1) {
        assert SyntheticRecord(bs, k, w.emitted[k], s);
      }
    }
    var w1 := VisitBlock(bs, 0, s, w0);
    var w2 := VisitBlock(bs, 1, s, w1);
    assert VisitFrom(bs, s, 2, w2) == w2;
    assert VisitFrom(bs, s, 1, w1) == VisitFrom(bs, s, 2, w2);
    assert VisitFrom(bs, s, 0, w0) == VisitFrom(bs, s, 1, w1);
  }

  /** Blocks at [0, 2) and [4, 5): the walk records the one-sample
      "gap" at 0 before the first block, and closes the real gap [2, 4)
      with a record starting at 2 holding two zeros but declaring length
      5, the position of the next block plus one. */
  lemma GapWalkExample()
    ensures Synthetic([A, B]) == [Fragment(Silence(1), 0, 1), Fragment(Silence(2), 2, 5)]
  {
    var bs := [A, B];
    var s1 := Fragment(Silence(1), 0, 1);
    var s2 := Fragment(Silence(2), 2, 5);
    assert IsDeclaredStart(bs, 0) by { assert bs[0].start == 0; }
    assert IsDeclaredStart(bs, 4) by { assert bs[1].start == 4; }
    assert IsDeclaredEnd(bs, 2) by { assert bs[0].start + bs[0].len == 2; }
    var w1 := Walk(false, 0, 0, [s1]);
    var w2 := Walk(true, 2, 0, [s1]);
    var w3 := Walk(true, 2, 1, [s1]);
    var w4 := Walk(false, 2, 0, [s1, s2]);
    StepTwo(bs, 0, Initial);
    assert Step(bs, 0, Initial) == w1;
    StepTwo(bs, 1, w1);
    assert Step(bs, 1, w1) == w1;
    StepTwo(bs, 2, w1);
    assert Step(bs, 2, w1) == w2;
    StepTwo(bs, 3, w2);
    assert Step(bs, 3, w2) == w3;
    StepTwo(bs, 4, w3);
    assert Step(bs, 4, w3) == w4;
    assert WalkFrom(bs, 5, 5, w4) == w4;
    assert WalkFrom(bs, 4, 5, w3) == w4;
    assert WalkFrom(bs, 3, 5, w2) == w4;
    assert WalkFrom(bs, 2, 5, w1) == w4;
    assert WalkFrom(bs, 1, 5, w1) == w4;
    assert WalkFrom(bs, 0, 5, Initial) == w4;
    assert EndOfLast(bs) == 5;
  }

  /** Blocks at [0, 2) and [2, 3) touch, yet the walk still appends a
      record at 2 with no samples and length field 3. */
  lemma TouchingBlocksExample()
    ensures Synthetic([A, C]) == [Fragment(Silence(1), 0, 1), Fragment(Silence(0), 2, 3)]
  {
    var bs := [A, C];
    var s1 := Fragment(Silence(1), 0, 1);
    var s2 := Fragment(Silence(0), 2, 3);
    assert IsDeclaredStart(bs, 0) by { assert bs[0].start == 0; }
    assert IsDeclaredStart(bs, 2) by { assert bs[1].start == 2; }
    assert IsDeclaredEnd(bs, 2) by { assert bs[0].start + bs[0].len == 2; }
    var w1 := Walk(false, 0, 0, [s1]);
    var w2 := Walk(false, 2, 0, [s1, s2]);
    StepTwo(bs, 0, Initial);
    assert Step(bs, 0, Initial) == w1;
    StepTwo(bs, 1, w1);
    assert Step(bs, 1, w1) == w1;
    StepTwo(bs, 2, w1);
    assert Step(bs, 2, w1) == w2;
    assert WalkFrom(bs, 3, 3, w2) == w2;
    assert WalkFrom(bs, 2, 3, w1) == w2;
    assert WalkFrom(bs, 1, 3, w1) == w2;
    assert WalkFrom(bs, 0, 3, Initial) == w2;
    assert EndOfLast(bs) == 3;
  }

  /** Helper for FillGapsExample: one unfolding of the sort. */
  lemma SortCons(s: seq<Fragment>)
    requires s != []
    ensures SortByStart(s) == Insert(s[0], SortByStart(s[1..]))
  {
  }

  /** Helper for FillGapsExample: sorting the last three records. */
  lemma SortTail()
    ensures SortByStart([B, Fragment(Silence(1), 0, 1), Fragment(Silence(2), 2, 5)])
         == [Fragment(Silence(1), 0, 1), Fragment(Silence(2), 2, 5), B]
  {
    var s1 := Fragment(Silence(1), 0, 1);
    var s2 := Fragment(Silence(2), 2, 5);
    assert [s2][1..] == [];
    assert [s1, s2][1..] == [s2];
    assert SortByStart([s2]) == [s2];
    assert Insert(s1, [s2]) == [s1, s2];
    assert [B, s1, s2][1..] == [s1, s2];
    assert Insert(B, []) == [B];
    assert Insert(B, [s2]) == [s2, B];
    assert Insert(B, [s1, s2]) == [s1, s2, B];
  }

  /** Helper for FillGapsExample: sorting the declared and synthetic records. */
  lemma SortFour()
    ensures SortByStart([A, B, Fragment(Silence(1), 0, 1), Fragment(Silence(2), 2, 5)])
         == [A, Fragment(Silence(1), 0, 1), Fragment(Silence(2), 2, 5), B]
  {
    var s1 := Fragment(Silence(1), 0, 1);
    var s2 := Fragment(Silence(2), 2, 5);
    SortCons([A, B, s1, s2]);
    DropFirst();
    SortTail();
    InsertFirst();
  }

  /** Helper for FillGapsExample: the tail of the four records. */
  lemma DropFirst()
    ensures [A, B, Fragment(Silence(1), 0, 1), Fragment(Silence(2), 2, 5)][1..]
         == [B, Fragment(Silence(1), 0, 1), Fragment(Silence(2), 2, 5)]
  {
  }

  /** Helper for FillGapsExample: A goes ahead of the synthetic record at 0. */
  lemma InsertFirst()
    ensures Insert(A, [Fragment(Silence(1), 0, 1), Fragment(Silence(2), 2, 5), B])
         == [A, Fragment(Silence(1), 0, 1), Fragment(Silence(2), 2, 5), B]
  {
  }

  /** The gap-filled channel of GapWalkExample: at start 0 the declared
      block stays ahead of the synthetic record, and the record at 2
      overlaps the block at 4. */
  lemma FillGapsExample()
    ensures FillGaps([A, B]) == Ok([A, Fragment(Silence(1), 0, 1), Fragment(Silence(2), 2, 5), B])
  {
    var s1 := Fragment(Silence(1), 0, 1);
    var s2 := Fragment(Silence(2), 2, 5);
    GapWalkExample();
    assert [A, B] + Synthetic([A, B]) == [A, B, s1, s2];
    SortFour();
  }
}
