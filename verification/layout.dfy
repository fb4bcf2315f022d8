/** Where a block file lives: Audacity's two-level bucket directories. */
module Layout {
  import opened Fragments
  import opened Seqs

  /** Python's s[lo:hi] for 0 <= lo <= hi: both bounds clamp to |s|. */
  function Slice(s: string, lo: nat, hi: nat): (r: string)
    requires lo <= hi
    ensures |r| == Min(hi, |s|) - Min(lo, |s|)
    ensures forall k :: 0 <= k < |r| ==> r[k] == s[lo + k]
  {
    if lo >= |s| then [] else s[lo..Min(hi, |s|)]
  }

  /** dir/project/f[0:3]/"d"+f[3:5]/f, kept as its path components. */
  function BlockPath(dir: string, project: string, filename: string): (p: Path)
    ensures |p| == 5 && p[0] == dir && p[1] == project && p[4] == filename
    ensures p[2] == filename[..Min(3, |filename|)]
    ensures |p[3]| == 1 + Max(0, Min(5, |filename|) - 3) && p[3][0] == 'd'
    ensures p[2] + p[3][1..] == filename[..Min(5, |filename|)]
  {
    var d1 := Slice(filename, 0, 3);
    var d2 := "d" + Slice(filename, 3, 5);
    assert d2[1..] == Slice(filename, 3, 5);
    [dir, project, d1, d2, filename]
  }

  /** For a name of five or more characters the two buckets are its first
      three characters and 'd' followed by its fourth and fifth. */
  lemma BlockPathBuckets(dir: string, project: string, filename: string)
    requires |filename| >= 5
    ensures BlockPath(dir, project, filename)[2] == filename[..3]
    ensures BlockPath(dir, project, filename)[3] == ['d', filename[3], filename[4]]
  {
    var p := BlockPath(dir, project, filename);
    assert p[2] + p[3][1..] == filename[..5];
    assert p[3] == [p[3][0]] + p[3][1..];
    assert p[3][1..] == (p[2] + p[3][1..])[3..];
  }
}
