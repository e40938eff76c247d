/** `InternalResponseFromFile`: covering a requested file range with file buckets. */
module FileResponse {
  import opened Brigades

  const AP_MAX_SENDFILE := 16777216

  datatype FileBucket = FileBucket(start: int, length: int)

  /** The buckets cover [lo, hi) in order, each starting where the previous one ends. */
  ghost predicate Tiles(bs: seq<FileBucket>, lo: int, hi: int) {
    if bs == [] then lo == hi
    else bs[0].start == lo && 0 < bs[0].length && Tiles(bs[1..], lo + bs[0].length, hi)
  }

  /** A tiling of [offset, offset+length) by ceil(length/MAX) buckets, all but the last of size MAX. */
  ghost predicate SplitsRange(bs: seq<FileBucket>, offset: int, length: int) {
    && Tiles(bs, offset, offset + length)
    && |bs| == (length + AP_MAX_SENDFILE - 1) / AP_MAX_SENDFILE
    && (forall i :: 0 <= i < |bs| - 1 ==> bs[i].length == AP_MAX_SENDFILE)
    && (bs != [] ==> 1 <= bs[|bs| - 1].length <= AP_MAX_SENDFILE)
  }

  ghost predicate InFile(bs: seq<FileBucket>, size: int) {
    forall b <- bs :: 0 <= b.start && 0 <= b.length && b.start + b.length <= size
  }

  /** The bytes a list of file buckets stands for. */
  ghost function Denote(file: seq<Byte>, bs: seq<FileBucket>): seq<Byte>
    requires InFile(bs, |file|)
  {
    if bs == [] then [] else file[bs[0].start..bs[0].start + bs[0].length] + Denote(file, bs[1..])
  }

  /** Buckets for [offset, offset+length).  `requestFileSize` is `rr->finfo.size`, the size the split
      test looks at; `sizeRange` is the number of values of `apr_size_t`, to which lengths are cast. */
  method FileBuckets(offset: int, length: int, requestFileSize: int, sizeRange: int) returns (bb: seq<FileBucket>)
    requires 0 <= offset && 0 < length && offset + length < 0x8000_0000_0000_0000
    requires sizeRange > AP_MAX_SENDFILE
    ensures if requestFileSize > AP_MAX_SENDFILE then SplitsRange(bb, offset, length)
            else bb == [FileBucket(offset, length % sizeRange)]
  {
    var fsize := length;
    bb := [];
    var b: FileBucket;
    if requestFileSize > AP_MAX_SENDFILE {
      b := FileBucket(offset, AP_MAX_SENDFILE);
      while fsize > AP_MAX_SENDFILE
        invariant 0 < fsize && b.length == AP_MAX_SENDFILE
        invariant b.start + fsize == offset + length
        invariant Tiles(bb, offset, b.start)
        invariant forall i :: 0 <= i < |bb| ==> bb[i].length == AP_MAX_SENDFILE
        invariant |bb| * AP_MAX_SENDFILE + fsize == length
      {
        TilesAppend(bb, offset, b.start, AP_MAX_SENDFILE);
        bb := bb + [b];
        b := b.(start := b.start + AP_MAX_SENDFILE);
        fsize := fsize - AP_MAX_SENDFILE;
      }
      RemainderBelow(fsize, sizeRange);
      CeilingCount(|bb|, fsize, length);
      b := b.(length := fsize % sizeRange);
      TilesAppend(bb, offset, b.start, fsize);
    } else {
      b := FileBucket(offset, fsize % sizeRange);
    }
    bb := bb + [b];
  }

  lemma {:induction false} TilesAppend(bs: seq<FileBucket>, lo: int, mid: int, len: int)
    requires Tiles(bs, lo, mid) && 0 < len
    ensures Tiles(bs + [FileBucket(mid, len)], lo, mid + len)
  {
    var last := FileBucket(mid, len);
    if bs == [] {
      assert bs + [last] == [last];
    } else {
      TilesAppend(bs[1..], lo + bs[0].length, mid, len);
      assert (bs + [last])[1..] == bs[1..] + [last];
    }
  }

  /** Whatever the cut points, a tiling stands for exactly the range it covers. */
  lemma {:induction false} TilesDenoteRange(file: seq<Byte>, bs: seq<FileBucket>, lo: int, hi: int)
    requires 0 <= lo && hi <= |file| && Tiles(bs, lo, hi)
    ensures lo <= hi && InFile(bs, |file|) && Denote(file, bs) == file[lo..hi]
  {
    if bs != [] {
      TilesDenoteRange(file, bs[1..], lo + bs[0].length, hi);
      assert forall b <- bs :: b == bs[0] || b in bs[1..];
    }
  }

  /** The unsplit branch stands for the requested range exactly when the length fits `apr_size_t`;
      then, and only then, it sends the same bytes as the split branch. */
  lemma SingleBucketAgreesWithSplit(file: seq<Byte>, offset: int, length: int, sizeRange: int, split: seq<FileBucket>)
    requires 0 <= offset && 0 < length && offset + length <= |file| && 0 < sizeRange
    requires Tiles(split, offset, offset + length)
    ensures var single := [FileBucket(offset, length % sizeRange)];
            && InFile(single, |file|)
            && InFile(split, |file|)
            && (Denote(file, single) == Denote(file, split) <==> length < sizeRange)
            && (Denote(file, single) == file[offset..offset + length] <==> length < sizeRange)
  {
    var single := [FileBucket(offset, length % sizeRange)];
    TilesDenoteRange(file, split, offset, offset + length);
    RemainderBelow(length, sizeRange);
    assert Denote(file, single) == file[offset..offset + length % sizeRange] + Denote(file, single[1..]);
    assert |Denote(file, single)| == length % sizeRange;
  }

  /** Either branch: the buckets stand for the requested range exactly if it is split or its length fits. */
  lemma DenotesExactly(file: seq<Byte>, bs: seq<FileBucket>, offset: int, length: int, split: bool, sizeRange: int)
    requires 0 <= offset && 0 < length && offset + length <= |file| && 0 < sizeRange
    requires if split then Tiles(bs, offset, offset + length) else bs == [FileBucket(offset, length % sizeRange)]
    ensures InFile(bs, |file|)
    ensures Denote(file, bs) == file[offset..offset + length] <==> split || length < sizeRange
  {
    if split {
      TilesDenoteRange(file, bs, offset, offset + length);
    } else {
      WholeTiles(offset, length);
      SingleBucketAgreesWithSplit(file, offset, length, sizeRange, [FileBucket(offset, length)]);
    }
  }

  lemma WholeTiles(offset: int, length: int)
    requires 0 < length
    ensures Tiles([FileBucket(offset, length)], offset, offset + length)
  {
    assert [FileBucket(offset, length)][1..] == [];
  }

  /** The split, bucket by bucket. */
  lemma {:induction false} SplitAt(bs: seq<FileBucket>, offset: int, length: int, i: nat)
    requires 0 < length && SplitsRange(bs, offset, length) && i < |bs|
    ensures |bs| == (length + 16777215) / 16777216
    ensures bs[i] == FileBucket(offset + i * 16777216, if i < |bs| - 1 then 16777216 else length - i * 16777216)
    ensures 1 <= bs[i].length <= 16777216
  {
    TileAt(bs, offset, offset + length, i);
  }

  /** While all tiles before it are of size MAX, tile i starts at i * MAX; the last one ends the range. */
  lemma {:induction false} TileAt(bs: seq<FileBucket>, lo: int, hi: int, i: nat)
    requires Tiles(bs, lo, hi) && i < |bs| && forall j :: 0 <= j < |bs| - 1 ==> bs[j].length == AP_MAX_SENDFILE
    ensures bs[i].start == lo + i * AP_MAX_SENDFILE
    ensures i == |bs| - 1 ==> bs[i].start + bs[i].length == hi
  {
    if i > 0 {
      TileAt(bs[1..], lo + AP_MAX_SENDFILE, hi, i - 1);
    } else if |bs| == 1 {
      assert bs[1..] == [];
    }
  }

  /** The shortest length that does not fit is cut to nothing. */
  lemma SingleBucketCutShort(file: seq<Byte>, offset: int, sizeRange: int)
    requires 0 <= offset && 0 < sizeRange && offset + sizeRange <= |file|
    ensures var single := [FileBucket(offset, sizeRange % sizeRange)];
            InFile(single, |file|) && Denote(file, single) == [] && |file[offset..offset + sizeRange]| > 0
  {
    RemainderOfItself(sizeRange);
    assert [FileBucket(offset, 0)][1..] == [];
  }

  lemma RemainderOfItself(d: int)
    requires 0 < d
    ensures d % d == 0
  {
  }

  lemma CeilingCount(full: nat, last: int, length: int)
    requires full * AP_MAX_SENDFILE + last == length && 1 <= last <= AP_MAX_SENDFILE
    ensures full + 1 == (length + AP_MAX_SENDFILE - 1) / AP_MAX_SENDFILE
  {
  }

  lemma RemainderBelow(n: int, d: int)
    requires 0 < n && 0 < d
    ensures 0 <= n % d <= n && (n % d == n <==> n < d)
  {
  }
}
