/** The records a channel is made of: a byte source, a start sample and a
    declared length; and the sample stream they spell out when read in
    order. Samples are 32-bit floats in the project; here they are `real`. */
module Fragments {

  /** A resolved block-file location: the path components in join order. */
  type Path = seq<string>

  /** Where a record's samples come from: a block file on disk, or an
      in-memory buffer of zero samples built by the gap filler. */
  datatype Source = BlockFile(path: Path) | Silence(zeros: nat)

  datatype Fragment = Fragment(source: Source, start: int, len: int)

  /** The block files present on disk and the samples each one holds. */
  datatype Disk = Disk(files: map<Path, seq<real>>)

  function Zeros(n: nat): (z: seq<real>)
    ensures |z| == n
    ensures forall i :: 0 <= i < n ==> z[i] == 0.0
  {
    seq(n, _ => 0.0)
  }

  /** The samples behind a source. A block file that is not on disk never
      reaches a channel, since loading fails first. */
  function Data(disk: Disk, src: Source): seq<real> {
    match src
    case BlockFile(p) => if p in disk.files then disk.files[p] else []
    case Silence(n) => Zeros(n)
  }

  /** Sum of the declared lengths of the first i records. */
  function Prefix(fs: seq<Fragment>, i: nat): int
    requires i <= |fs|
  {
    if i == 0 then 0 else Prefix(fs, i - 1) + fs[i - 1].len
  }

  /** Sum of all declared lengths: the channel length the cursor assumes. */
  function Total(fs: seq<Fragment>): int {
    Prefix(fs, |fs|)
  }

  predicate NonNegative(fs: seq<Fragment>) {
    forall i :: 0 <= i < |fs| ==> fs[i].len >= 0
  }

  /** Every record's source holds exactly as many samples as it declares. */
  predicate Consistent(disk: Disk, fs: seq<Fragment>) {
    forall i :: 0 <= i < |fs| ==> |Data(disk, fs[i].source)| == fs[i].len
  }

  /** The samples of records i, i+1, ... concatenated in list order. */
  function Stream(disk: Disk, fs: seq<Fragment>, i: nat): seq<real>
    requires i <= |fs|
    decreases |fs| - i
  {
    if i == |fs| then [] else Data(disk, fs[i].source) + Stream(disk, fs, i + 1)
  }

  lemma {:induction false} PrefixMonotone(fs: seq<Fragment>, i: nat, j: nat)
    requires NonNegative(fs)
    requires i <= j <= |fs|
    ensures Prefix(fs, i) <= Prefix(fs, j)
    decreases j - i
  {
    if i < j {
      PrefixMonotone(fs, i, j - 1);
      assert fs[j - 1].len >= 0;
    }
  }

  /** With consistent sources, dropping the first Prefix(j) - Prefix(i)
      samples of the stream from record i leaves the stream from record j. */
  lemma {:induction false} StreamDrop(disk: Disk, fs: seq<Fragment>, i: nat, j: nat)
    requires Consistent(disk, fs)
    requires i <= j <= |fs|
    ensures |Stream(disk, fs, i)| == Total(fs) - Prefix(fs, i)
    ensures 0 <= Prefix(fs, j) - Prefix(fs, i) <= |Stream(disk, fs, i)|
    ensures Stream(disk, fs, i)[Prefix(fs, j) - Prefix(fs, i)..] == Stream(disk, fs, j)
    decreases |fs| - i
  {
    if i == |fs| {
    } else {
      var d := Data(disk, fs[i].source);
      assert |d| == fs[i].len;
      if i == j {
        StreamDrop(disk, fs, i + 1, i + 1);
      } else {
        StreamDrop(disk, fs, i + 1, j);
        var k := Prefix(fs, j) - Prefix(fs, i + 1);
        assert (d + Stream(disk, fs, i + 1))[|d| + k..] == Stream(disk, fs, i + 1)[k..];
      }
    }
  }
}
