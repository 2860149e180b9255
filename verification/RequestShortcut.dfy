/**
 The request answered by the mirror (`RequestRanges` in src/gpu/vendored/src/graphics/shared_memory.cpp): when the check
 of all its ranges is true, the scan would find nothing to upload.
 */
module RequestShortcut {

  import opened Arithmetic
  import opened Bits
  import opened PageAuthority
  import opened PageFlags
  import opened RangeBatch
  import opened RequestScan

  /** The merged ranges as the mirror takes them. */
  function Spans(ranges: seq<Range>): (r: seq<ByteRange>)
    ensures |r| == |ranges| && forall i | 0 <= i < |r| :: r[i] == ByteRange(ranges[i].first, ranges[i].length)
  {
    seq(|ranges|, i requires 0 <= i < |ranges| => ByteRange(ranges[i].first, ranges[i].length))
  }

  lemma InsideHas(a: seq<bv64>, b: seq<bv64>, p: nat)
    requires |a| == |b| && Inside(a, b) && p < 64 * |a| && Has(a, p)
    ensures Has(b, p)
  {
    assert WordIn(a[p / 64], b[p / 64]);
  }

  /** A page of a mirrored range is not missing. */
  lemma MirroredIsPresent(valid: seq<bv64>, words: seq<bv64>, ranges: seq<Range>, p: nat)
    requires |words| == |valid| == MIRROR_WORDS && Inside(words, valid)
    requires forall b | b in Spans(ranges) :: b.Mirrored(words)
    ensures !Missing(valid, ranges, MIRROR_PAGE_BYTES, p)
  {
    hide Has, Inside;
    if Missing(valid, ranges, MIRROR_PAGE_BYTES, p) {
      var x: nat :| Covers(ranges, x) && x / MIRROR_PAGE_BYTES == p;
      var r :| r in ranges && r.first <= x < r.End();
      var i :| 0 <= i < |ranges| && ranges[i] == r;
      assert Spans(ranges)[i] in Spans(ranges);
      assert MirroredByte(words, x);
      InsideHas(words, valid, p);
    }
  }

  /**
   The request of merged ranges, mirror check first. With every mirrored page valid the shortcut queues what the scan
   would, which is nothing, and it is taken exactly when every page of every range is mirrored.
   */
  method RequestThroughMirror(scan: UploadScan, mirror: NativeSharedResidencyMirror, ranges: seq<Range>, backed: bool)
    returns (ok: bool, queued: seq<Range>, hit: bool)
    requires mirror.Valid() && |scan.valid| == MIRROR_WORDS && Inside(mirror.words, scan.valid)
    requires scan.pageBytes == MIRROR_PAGE_BYTES && Separated(ranges)
    requires forall r | r in ranges :: r.End() <= BUFFER_BYTES
    modifies scan`uploadRanges
    ensures hit <==> ranges != [] && !mirror.disabled && forall b | b in Spans(ranges) :: b.Mirrored(mirror.words)
    ensures ok <==> ranges == [] || hit || backed
    ensures Ladder(queued) && (scan.optimize ==> Separated(queued))
    ensures forall p: nat :: Covers(queued, p) <==> ok && Missing(scan.valid, ranges, MIRROR_PAGE_BYTES, p)
    ensures hit ==> forall p: nat :: !Missing(scan.valid, ranges, MIRROR_PAGE_BYTES, p)
  {
    hide Has, Inside, Covers, Ladder, Missing;
    hit := mirror.Contains(Spans(ranges));
    if hit {
      forall p: nat ensures !Missing(scan.valid, ranges, MIRROR_PAGE_BYTES, p) {
        MirroredIsPresent(scan.valid, mirror.words, ranges, p);
      }
    }
    ok, queued := scan.RequestMerged(ranges, hit, backed);
  }
}
