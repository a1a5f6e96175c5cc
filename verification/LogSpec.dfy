/** The on-disk redo log as pure functions of disk images, and the crash
    atomicity of `commit` and `recover_from_log`. */
module LogSpec {
  import opened Disk
  import opened Params

  /** The log occupies blocks start .. start+size-1: a header, then log blocks. */
  datatype Layout = Layout(start: nat, size: nat)

  predicate InLog(lay: Layout, b: int) {
    lay.start <= b < lay.start + lay.size
  }

  predicate Home(lay: Layout, d: Image, b: int) {
    0 <= b < |d| && !InLog(lay, b)
  }

  predicate Fits(lay: Layout, d: Image) {
    1 <= lay.size && lay.start + lay.size <= |d| && |d[lay.start].words| == BLOCK_WORDS
  }

  /** A list of home blocks short enough for the log and its header. */
  predicate Loggable(lay: Layout, d: Image, bs: seq<int>) {
    |bs| <= LOGSIZE && |bs| < lay.size && forall i :: 0 <= i < |bs| ==> Home(lay, d, bs[i])
  }

  /** The header block: word 0 is n, the next n words are block numbers. */
  function HeadBlocks(h: Block): seq<int>
    requires |h.words| == BLOCK_WORDS && 0 <= h.words[0] < BLOCK_WORDS
  {
    h.words[1..1 + h.words[0]]
  }

  /** `write_head` overwrites n and n entries and leaves the rest of the block. */
  function SetHead(h: Block, bs: seq<int>): Block
    requires |h.words| == BLOCK_WORDS && |bs| < BLOCK_WORDS
  {
    Block([|bs|] + bs + h.words[1 + |bs|..])
  }

  predicate GoodHead(lay: Layout, d: Image) {
    && Fits(lay, d)
    && 0 <= d[lay.start].words[0] < BLOCK_WORDS
    && Loggable(lay, d, HeadBlocks(d[lay.start]))
  }

  /** The first k rounds of `install_trans`: log block i+1 goes to block bs[i]. */
  function Install(lay: Layout, d: Image, bs: seq<int>, k: nat): (r: Image)
    requires Fits(lay, d) && Loggable(lay, d, bs) && k <= |bs|
    ensures |r| == |d|
    ensures forall b :: InLog(lay, b) ==> r[b] == d[b]
  {
    if k == 0 then d
    else
      var prev := Install(lay, d, bs, k - 1);
      prev[bs[k - 1] := prev[lay.start + k]]
  }

  /** The first k rounds of `write_log`: vals[i] goes to log block i+1. */
  function CopyToLog(lay: Layout, d: Image, vals: seq<Block>, k: nat): (r: Image)
    requires Fits(lay, d) && |vals| < lay.size && k <= |vals|
    ensures |r| == |d|
    ensures forall b :: 0 <= b < |d| && !(lay.start < b <= lay.start + k) ==> r[b] == d[b]
    ensures forall i :: 0 <= i < k ==> r[lay.start + 1 + i] == vals[i]
  {
    if k == 0 then d
    else CopyToLog(lay, d, vals, k - 1)[lay.start + k := vals[k - 1]]
  }

  function WriteHead(lay: Layout, d: Image, bs: seq<int>): Image
    requires Fits(lay, d) && |bs| < BLOCK_WORDS
  {
    d[lay.start := SetHead(d[lay.start], bs)]
  }

  /** What `recover_from_log` leaves on the disk. */
  function Recovered(lay: Layout, d: Image): Image
    requires GoodHead(lay, d)
  {
    var bs := HeadBlocks(d[lay.start]);
    WriteHead(lay, Install(lay, d, bs, |bs|), [])
  }

  /** The transaction's meaning, stated without the log: vals[i] is put in bs[i]. */
  function Applied(d: Image, bs: seq<int>, vals: seq<Block>): (r: Image)
    requires |bs| == |vals| && forall i :: 0 <= i < |bs| ==> 0 <= bs[i] < |d|
    ensures |r| == |d|
  {
    if bs == [] then d
    else
      var n := |bs| - 1;
      Applied(d, bs[..n], vals[..n])[bs[n] := vals[n]]
  }

  ghost predicate SameHome(lay: Layout, d: Image, e: Image) {
    |d| == |e| && forall b :: Home(lay, d, b) ==> d[b] == e[b]
  }

  // ---------- the disk images a call passes through, one per block write ----------

  function InstallTrace(lay: Layout, d: Image, bs: seq<int>): seq<Image>
    requires Fits(lay, d) && Loggable(lay, d, bs)
  {
    seq(|bs|, k requires 0 <= k < |bs| => Install(lay, d, bs, k + 1))
  }

  function CopyTrace(lay: Layout, d: Image, vals: seq<Block>): seq<Image>
    requires Fits(lay, d) && |vals| < lay.size
  {
    seq(|vals|, k requires 0 <= k < |vals| => CopyToLog(lay, d, vals, k + 1))
  }

  /** The disk at the commit point: log blocks copied and the header written. */
  function Committed(lay: Layout, d: Image, bs: seq<int>, vals: seq<Block>): Image
    requires Fits(lay, d) && Loggable(lay, d, bs) && |bs| == |vals|
  {
    WriteHead(lay, CopyToLog(lay, d, vals, |vals|), bs)
  }

  /** The disk after the whole of `commit`, when bs is not empty. */
  function CommitEnd(lay: Layout, d: Image, bs: seq<int>, vals: seq<Block>): Image
    requires Fits(lay, d) && Loggable(lay, d, bs) && |bs| == |vals|
  {
    WriteHead(lay, Install(lay, Committed(lay, d, bs, vals), bs, |bs|), [])
  }

  /** Every image `commit` leaves on disk, in order, when bs is not empty. */
  function CommitTrace(lay: Layout, d: Image, bs: seq<int>, vals: seq<Block>): seq<Image>
    requires Fits(lay, d) && Loggable(lay, d, bs) && |bs| == |vals|
  {
    var c := Committed(lay, d, bs, vals);
    CopyTrace(lay, d, vals) + [c] + InstallTrace(lay, c, bs)
    + [WriteHead(lay, Install(lay, c, bs, |bs|), [])]
  }

  /** Every image `recover_from_log` leaves on disk, in order. */
  function RecoverTrace(lay: Layout, d: Image): seq<Image>
    requires GoodHead(lay, d)
  {
    InstallTrace(lay, d, HeadBlocks(d[lay.start])) + [Recovered(lay, d)]
  }

  lemma InstallTraceNext(lay: Layout, d: Image, bs: seq<int>, k: nat)
    requires Fits(lay, d) && Loggable(lay, d, bs) && k < |bs|
    ensures InstallTrace(lay, d, bs)[..k + 1] == InstallTrace(lay, d, bs)[..k] + [Install(lay, d, bs, k + 1)]
    ensures k + 1 == |bs| ==> InstallTrace(lay, d, bs)[..k + 1] == InstallTrace(lay, d, bs)
  {
  }

  lemma CopyTraceNext(lay: Layout, d: Image, vals: seq<Block>, k: nat)
    requires Fits(lay, d) && |vals| < lay.size && k < |vals|
    ensures CopyTrace(lay, d, vals)[..k + 1] == CopyTrace(lay, d, vals)[..k] + [CopyToLog(lay, d, vals, k + 1)]
    ensures k + 1 == |vals| ==> CopyTrace(lay, d, vals)[..k + 1] == CopyTrace(lay, d, vals)
  {
  }

  // ---------- header round trip ----------

  lemma HeadRoundTrip(h: Block, bs: seq<int>)
    requires |h.words| == BLOCK_WORDS && |bs| < BLOCK_WORDS
    ensures HeadBlocks(SetHead(h, bs)) == bs
  {
    assert SetHead(h, bs).words[1..1 + |bs|] == bs;
  }

  // ---------- installing ----------

  /** Two installs of the same list agree wherever their disks agreed, and on every listed block. */
  lemma {:induction false} InstallAgree(lay: Layout, d: Image, e: Image, bs: seq<int>, k: nat, b: nat)
    requires Fits(lay, d) && Loggable(lay, d, bs) && k <= |bs| && |d| == |e|
    requires Fits(lay, e) && forall c :: lay.start < c < lay.start + lay.size ==> d[c] == e[c]
    requires Home(lay, d, b) && (d[b] == e[b] || b in bs[..k])
    ensures Install(lay, d, bs, k)[b] == Install(lay, e, bs, k)[b]
  {
    if k != 0 {
      assert InLog(lay, lay.start + k);
      if b != bs[k - 1] {
        assert bs[..k] == bs[..k - 1] + [bs[k - 1]];
        InstallAgree(lay, d, e, bs, k - 1, b);
      }
    }
  }

  lemma {:induction false} InstallOthers(lay: Layout, d: Image, bs: seq<int>, k: nat, b: nat)
    requires Fits(lay, d) && Loggable(lay, d, bs) && k <= |bs|
    requires b < |d| && b !in bs[..k]
    ensures Install(lay, d, bs, k)[b] == d[b]
  {
    if k != 0 {
      assert bs[..k] == bs[..k - 1] + [bs[k - 1]];
      InstallOthers(lay, d, bs, k - 1, b);
    }
  }

  /** Stopping an install anywhere and starting again from the first block changes nothing. */
  lemma ReinstallSame(lay: Layout, d: Image, bs: seq<int>, k: nat)
    requires Fits(lay, d) && Loggable(lay, d, bs) && k <= |bs|
    ensures SameHome(lay, Install(lay, Install(lay, d, bs, k), bs, |bs|), Install(lay, d, bs, |bs|))
  {
    var e := Install(lay, d, bs, k);
    assert forall c :: lay.start < c < lay.start + lay.size ==> InLog(lay, c) && e[c] == d[c];
    forall b | Home(lay, d, b)
      ensures Install(lay, e, bs, |bs|)[b] == Install(lay, d, bs, |bs|)[b]
    {
      if b !in bs[..k] {
        InstallOthers(lay, d, bs, k, b);
      } else {
        assert bs[..|bs|] == bs;
        assert forall i :: 0 <= i < k ==> bs[..k][i] == bs[i];
      }
      InstallAgree(lay, e, d, bs, |bs|, b);
    }
  }

  lemma {:induction false} InstallIsApplied(lay: Layout, d: Image, e: Image, bs: seq<int>, vals: seq<Block>, k: nat)
    requires Fits(lay, d) && Loggable(lay, d, bs) && k <= |bs| == |vals|
    requires forall i :: 0 <= i < |vals| ==> d[lay.start + 1 + i] == vals[i]
    requires SameHome(lay, d, e)
    ensures SameHome(lay, Install(lay, d, bs, k), Applied(e, bs[..k], vals[..k]))
  {
    if k != 0 {
      InstallIsApplied(lay, d, e, bs, vals, k - 1);
      assert bs[..k][..k - 1] == bs[..k - 1] && vals[..k][..k - 1] == vals[..k - 1];
      assert InLog(lay, lay.start + k);
    }
  }

  /** A header write moves no home block and no log block. */
  lemma WriteHeadHome(lay: Layout, d: Image, bs: seq<int>)
    requires Fits(lay, d) && Loggable(lay, d, bs)
    ensures GoodHead(lay, WriteHead(lay, d, bs)) && SameHome(lay, d, WriteHead(lay, d, bs))
    ensures HeadBlocks(WriteHead(lay, d, bs)[lay.start]) == bs
  {
    HeadRoundTrip(d[lay.start], bs);
    assert InLog(lay, lay.start);
  }

  // ---------- crash atomicity ----------

  /** The disk holds no transaction: its header lists no block. */
  predicate Clear(lay: Layout, d: Image) {
    GoodHead(lay, d) && HeadBlocks(d[lay.start]) == []
  }

  lemma RecoverClear(lay: Layout, d: Image)
    requires Clear(lay, d)
    ensures SameHome(lay, Recovered(lay, d), d)
  {
    WriteHeadHome(lay, d, []);
  }

  /** Before the header write, recovery yields the old contents. */
  lemma CrashWhileCopying(lay: Layout, d: Image, vals: seq<Block>, k: nat)
    requires Clear(lay, d) && |vals| < lay.size && k <= |vals|
    ensures Clear(lay, CopyToLog(lay, d, vals, k))
    ensures SameHome(lay, Recovered(lay, CopyToLog(lay, d, vals, k)), d)
  {
    var c := CopyToLog(lay, d, vals, k);
    assert c[lay.start] == d[lay.start];
    RecoverClear(lay, c);
    assert forall b :: Home(lay, d, b) ==> !(lay.start < b <= lay.start + k);
  }

  /** From the header write on, recovery yields the whole transaction. */
  lemma CrashWhileInstalling(lay: Layout, d: Image, bs: seq<int>, vals: seq<Block>, k: nat)
    requires Fits(lay, d) && Loggable(lay, d, bs) && k <= |bs| == |vals|
    ensures var x := Install(lay, Committed(lay, d, bs, vals), bs, k);
            GoodHead(lay, x) && HeadBlocks(x[lay.start]) == bs
            && SameHome(lay, Recovered(lay, x), Applied(d, bs, vals))
  {
    var l := CopyToLog(lay, d, vals, |vals|);
    var c := Committed(lay, d, bs, vals);
    var x := Install(lay, c, bs, k);
    WriteHeadHome(lay, l, bs);
    assert InLog(lay, lay.start);
    assert x[lay.start] == c[lay.start];
    ReinstallSame(lay, c, bs, k);
    assert forall b :: Home(lay, d, b) ==> !(lay.start < b <= lay.start + |vals|);
    InstallIsApplied(lay, c, d, bs, vals, |bs|);
    assert bs[..|bs|] == bs && vals[..|vals|] == vals;
    WriteHeadHome(lay, Install(lay, x, bs, |bs|), []);
  }

  /** A crash at any block write of `commit` is all or nothing: nothing for the images
      up to the last log copy, everything from the header write on. */
  lemma CommitAtomic(lay: Layout, d: Image, bs: seq<int>, vals: seq<Block>, i: nat)
    requires Clear(lay, d) && Loggable(lay, d, bs) && |bs| == |vals| != 0
    requires i < |CommitTrace(lay, d, bs, vals)|
    ensures var x := CommitTrace(lay, d, bs, vals)[i];
            GoodHead(lay, x)
            && SameHome(lay, Recovered(lay, x), if i < |bs| then d else Applied(d, bs, vals))
    ensures |CommitTrace(lay, d, bs, vals)| == 2 * |bs| + 2
    ensures i == 2 * |bs| + 1 ==> Clear(lay, CommitTrace(lay, d, bs, vals)[i])
  {
    var n := |bs|;
    if i < n {
      CrashWhileCopying(lay, d, vals, i + 1);
    } else if i == n {
      CrashWhileInstalling(lay, d, bs, vals, 0);
    } else {
      CrashWhileInstalling(lay, d, bs, vals, if i <= 2 * n then i - n else n);
      if i == 2 * n + 1 {
        var e := Install(lay, Committed(lay, d, bs, vals), bs, n);
        WriteHeadHome(lay, e, []);
        RecoverClear(lay, WriteHead(lay, e, []));
        ReinstallSame(lay, Committed(lay, d, bs, vals), bs, n);
        WriteHeadHome(lay, Install(lay, e, bs, n), []);
      }
    }
  }

  /** A crash at any block write of recovery recovers to the same home blocks. */
  lemma RecoveryRestartable(lay: Layout, d: Image, i: nat)
    requires GoodHead(lay, d) && i < |RecoverTrace(lay, d)|
    ensures var x := RecoverTrace(lay, d)[i];
            GoodHead(lay, x) && SameHome(lay, Recovered(lay, x), Recovered(lay, d))
  {
    var bs := HeadBlocks(d[lay.start]);
    assert InLog(lay, lay.start);
    if i < |bs| {
      var x := Install(lay, d, bs, i + 1);
      assert x[lay.start] == d[lay.start];
      ReinstallSame(lay, d, bs, i + 1);
      WriteHeadHome(lay, Install(lay, x, bs, |bs|), []);
    } else {
      RecoverClear(lay, WriteHead(lay, Install(lay, d, bs, |bs|), []))  by {
        WriteHeadHome(lay, Install(lay, d, bs, |bs|), []);
      }
    }
    WriteHeadHome(lay, Install(lay, d, bs, |bs|), []);
  }

  /** images[0] is where the first crash left the disk; each later image is where the
      next crash stopped the recovery started on the image before it. */
  predicate CrashChain(lay: Layout, images: seq<Image>) {
    && (forall j :: 0 <= j < |images| ==> GoodHead(lay, images[j]))
    && forall j :: 0 < j < |images| ==> images[j] in RecoverTrace(lay, images[j - 1])
  }

  lemma {:induction false} ChainRecovers(lay: Layout, images: seq<Image>)
    requires |images| > 0 && CrashChain(lay, images)
    ensures SameHome(lay, Recovered(lay, images[|images| - 1]), Recovered(lay, images[0]))
  {
    if |images| > 1 {
      var n := |images| - 1;
      ChainRecovers(lay, images[..n]);
      var t := RecoverTrace(lay, images[n - 1]);
      var i :| 0 <= i < |t| && t[i] == images[n];
      RecoveryRestartable(lay, images[n - 1], i);
    }
  }

  /** Crash atomicity: crash `commit` at any block write, crash recovery any number of
      times at any of its block writes; the recovery that completes leaves the home
      blocks all as before the transaction or all as after it. */
  lemma CrashAtomicity(lay: Layout, d: Image, bs: seq<int>, vals: seq<Block>, images: seq<Image>)
    requires Clear(lay, d) && Loggable(lay, d, bs) && |bs| == |vals| != 0
    requires |images| > 0 && CrashChain(lay, images)
    requires images[0] == d || images[0] in CommitTrace(lay, d, bs, vals)
    ensures var r := Recovered(lay, images[|images| - 1]);
            Clear(lay, r) && (SameHome(lay, r, d) || SameHome(lay, r, Applied(d, bs, vals)))
  {
    var last := images[|images| - 1];
    var hb := HeadBlocks(last[lay.start]);
    WriteHeadHome(lay, Install(lay, last, hb, |hb|), []);
    ChainRecovers(lay, images);
    if images[0] == d {
      RecoverClear(lay, d);
    } else {
      var t := CommitTrace(lay, d, bs, vals);
      var i :| 0 <= i < |t| && t[i] == images[0];
      CommitAtomic(lay, d, bs, vals, i);
    }
  }
}
