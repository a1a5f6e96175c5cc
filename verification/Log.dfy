/** log.c over a device with a volatile cache. Each method is proved against the
    image functions of LogSpec, including every image the disk passes through. */
module Log {
  import opened Disk
  import opened Params
  import opened LogSpec

  function LatestIn(image: Image, cache: map<int, Block>, b: int): Block
    requires 0 <= b < |image|
  {
    if b in cache then cache[b] else image[b]
  }

  function LatestVals(image: Image, cache: map<int, Block>, bs: seq<int>): (vals: seq<Block>)
    requires forall i :: 0 <= i < |bs| ==> 0 <= bs[i] < |image|
    ensures |vals| == |bs|
  {
    seq(|bs|, i requires 0 <= i < |bs| => LatestIn(image, cache, bs[i]))
  }

  /** Log blocks reach the disk at every write, so a cached copy is never newer. */
  ghost predicate LogCoherent(lay: Layout, image: Image, cache: map<int, Block>)
    requires Fits(lay, image)
  {
    forall b :: InLog(lay, b) && b in cache ==> cache[b] == image[b]
  }

  /** A home block newer in the cache than on disk is one of bs. */
  ghost predicate HomeCoherent(lay: Layout, image: Image, cache: map<int, Block>, bs: seq<int>) {
    forall b :: Home(lay, image, b) && b in cache && b !in bs ==> cache[b] == image[b]
  }

  /** The buffer cache as its callers see it: cached contents, else the disk's. */
  class Device {
    var image: Image
    var cache: map<int, Block>
    ghost var trace: seq<Image>  // the image after each block write

    constructor (image: Image)
      ensures this.image == image && cache == map[] && trace == []
    {
      this.image := image;
      this.cache := map[];
      this.trace := [];
    }

    method Bread(b: int) returns (data: Block)
      requires 0 <= b < |image|
      modifies this`cache
      ensures data == LatestIn(image, old(cache), b)
      ensures cache == old(cache)[b := data]
    {
      if b !in cache {
        cache := cache[b := image[b]];
      }
      data := cache[b];
      assert cache == old(cache)[b := data];
    }

    method Bwrite(b: int, data: Block)
      requires 0 <= b < |image|
      modifies this
      ensures image == old(image)[b := data]
      ensures cache == old(cache)[b := data]
      ensures trace == old(trace) + [image]
    {
      cache := cache[b := data];
      image := image[b := data];
      trace := trace + [image];
    }

    /** The body shared by the loops of write_log and install_trans. */
    method CopyBlock(src: int, dst: int)
      requires 0 <= src < |image| && 0 <= dst < |image| && src != dst
      modifies this
      ensures var v := LatestIn(old(image), old(cache), src);
              image == old(image)[dst := v] && cache == old(cache)[src := v][dst := v]
      ensures trace == old(trace) + [image]
    {
      var from := Bread(src);
      var to := Bread(dst);
      to := from;
      Bwrite(dst, to);
      assert cache == old(cache)[src := from][dst := from];
    }
  }

  /** The state of write_log's loop after k rounds. */
  ghost predicate Copied(lay: Layout, d: Image, bs: seq<int>, vals: seq<Block>, image: Image, cache: map<int, Block>, k: nat)
    requires Fits(lay, d) && Loggable(lay, d, bs) && |vals| == |bs| && k <= |bs|
  {
    && image == CopyToLog(lay, d, vals, k)
    && LogCoherent(lay, image, cache)
    && forall i :: 0 <= i < |bs| ==> LatestIn(image, cache, bs[i]) == vals[i]
  }

  lemma CopyRound(lay: Layout, d: Image, bs: seq<int>, vals: seq<Block>, image: Image, cache: map<int, Block>, k: nat)
    requires Fits(lay, d) && Loggable(lay, d, bs) && |vals| == |bs| && k < |bs|
    requires Copied(lay, d, bs, vals, image, cache, k)
    ensures var to, v := lay.start + k + 1, LatestIn(image, cache, bs[k]);
            Copied(lay, d, bs, vals, image[to := v], cache[bs[k] := v][to := v], k + 1)
            && (HomeCoherent(lay, image, cache, bs) ==> HomeCoherent(lay, image[to := v], cache[bs[k] := v][to := v], bs))
  {
    assert InLog(lay, lay.start + k + 1);
    assert forall i :: 0 <= i < |bs| ==> Home(lay, d, bs[i]);
  }

  lemma InstallRound(lay: Layout, d: Image, bs: seq<int>, image: Image, cache: map<int, Block>, k: nat)
    requires Fits(lay, d) && Loggable(lay, d, bs) && k < |bs| && image == Install(lay, d, bs, k)
    requires Fits(lay, image) && LogCoherent(lay, image, cache)
    ensures var from := lay.start + k + 1; var v := LatestIn(image, cache, from);
            && image[bs[k] := v] == Install(lay, d, bs, k + 1)
            && LogCoherent(lay, image[bs[k] := v], cache[from := v][bs[k] := v])
            && (HomeCoherent(lay, image, cache, bs[k..]) ==>
                  HomeCoherent(lay, image[bs[k] := v], cache[from := v][bs[k] := v], bs[k + 1..]))
  {
    assert InLog(lay, lay.start + k + 1);
    assert forall b :: b in bs[k..] ==> b == bs[k] || b in bs[k + 1..];
  }

  lemma Appended<T>(s: seq<T>, a: seq<T>, b: seq<T>, c: seq<T>, d: seq<T>)
    ensures s + (a + b) + (c + d) == s + (a + b + c + d)
  {
  }

  /** What the four parts of commit add up to. */
  lemma CommitParts(lay: Layout, d: Image, bs: seq<int>, vals: seq<Block>)
    requires Clear(lay, d) && Loggable(lay, d, bs) && |bs| == |vals| != 0
    ensures var c := Committed(lay, d, bs, vals);
            var e := WriteHead(lay, Install(lay, c, bs, |bs|), []);
            Clear(lay, e) && SameHome(lay, e, Applied(d, bs, vals))
            && SameHome(lay, e, Install(lay, c, bs, |bs|))
  {
    CommitAtomic(lay, d, bs, vals, 2 * |bs| + 1);
    var c := Committed(lay, d, bs, vals);
    var e := WriteHead(lay, Install(lay, c, bs, |bs|), []);
    assert CommitTrace(lay, d, bs, vals)[2 * |bs| + 1] == e;
    RecoverClear(lay, e);
    WriteHeadHome(lay, Install(lay, c, bs, |bs|), []);
  }

  class Log {
    const lay: Layout
    const dev: Device
    const block: array<int>  // lh.block
    var n: nat                // lh.n
    var outstanding: int
    var committing: bool
    var sleepers: set<int>    // the processes asleep on &log

    ghost predicate Shape()
      reads this, dev, block
    {
      && block.Length == LOGSIZE
      && Fits(lay, dev.image)
      && n <= LOGSIZE && Loggable(lay, dev.image, block[..n])
      && LogCoherent(lay, dev.image, dev.cache)
    }

    /** Between commits the disk holds no transaction. */
    ghost predicate Valid()
      reads this, dev, block
    {
      && Shape()
      && Clear(lay, dev.image)
      && HomeCoherent(lay, dev.image, dev.cache, block[..n])
    }

    /** What the cache holds for the logged blocks. */
    ghost function Vals(): (r: seq<Block>)
      reads this, dev, block
      requires Shape()
    {
      LatestVals(dev.image, dev.cache, block[..n])
    }

    /** `initlog`, once the superblock has given the log's place. */
    constructor (dev: Device, lay: Layout)
      requires GoodHead(lay, dev.image) && dev.cache == map[]
      modifies dev
      ensures this.dev == dev && this.lay == lay && fresh(block)
      ensures Valid() && n == 0 && outstanding == 0 && !committing && sleepers == {}
      ensures dev.trace == old(dev.trace) + RecoverTrace(lay, old(dev.image))
      ensures dev.image == Recovered(lay, old(dev.image))
    {
      this.dev := dev;
      this.lay := lay;
      block := new int[LOGSIZE](_ => 0);
      n, outstanding, committing, sleepers := 0, 0, false, {};
      new;
      RecoverFromLog();
    }

    ghost predicate InstallLoop(d: Image, bs: seq<int>, before: seq<Image>, k: nat)
      reads this, dev, block
      requires Fits(lay, d) && Loggable(lay, d, bs) && k <= |bs|
    {
      && block.Length == LOGSIZE && n <= LOGSIZE && block[..n] == bs
      && dev.image == Install(lay, d, bs, k)
      && Fits(lay, dev.image) && LogCoherent(lay, dev.image, dev.cache)
      && dev.trace == before + InstallTrace(lay, d, bs)[..k]
    }

    method InstallOne(tail: nat, ghost d: Image, ghost bs: seq<int>, ghost before: seq<Image>)
      requires Fits(lay, d) && Loggable(lay, d, bs) && tail < |bs|
      requires InstallLoop(d, bs, before, tail)
      modifies dev
      ensures InstallLoop(d, bs, before, tail + 1)
      ensures HomeCoherent(lay, old(dev.image), old(dev.cache), bs[tail..]) ==>
                HomeCoherent(lay, dev.image, dev.cache, bs[tail + 1..])
    {
      assert bs[tail] == block[tail];
      InstallRound(lay, d, bs, dev.image, dev.cache, tail);
      InstallTraceNext(lay, d, bs, tail);
      dev.CopyBlock(lay.start + tail + 1, block[tail]);
    }

    method InstallTrans()
      requires Shape()
      modifies dev
      ensures Shape()
      ensures dev.image == Install(lay, old(dev.image), block[..n], n)
      ensures dev.trace == old(dev.trace) + InstallTrace(lay, old(dev.image), block[..n])
      ensures HomeCoherent(lay, old(dev.image), old(dev.cache), block[..n]) ==> HomeCoherent(lay, dev.image, dev.cache, [])
    {
      var tail := 0;
      ghost var d, bs, before := dev.image, block[..n], dev.trace;
      assert bs[0..] == bs;
      while tail < n
        invariant 0 <= tail <= n
        invariant InstallLoop(d, bs, before, tail)
        invariant HomeCoherent(lay, d, old(dev.cache), bs) ==> HomeCoherent(lay, dev.image, dev.cache, bs[tail..])
      {
        InstallOne(tail, d, bs, before);
        tail := tail + 1;
      }
      assert bs[n..] == [] && InstallTrace(lay, d, bs)[..n] == InstallTrace(lay, d, bs);
    }

    method ReadHead()
      requires Shape() && GoodHead(lay, dev.image)
      modifies this`n, block, dev`cache
      ensures Shape() && block[..n] == HeadBlocks(dev.image[lay.start])
      ensures dev.cache == old(dev.cache)[lay.start := dev.image[lay.start]]
    {
      assert InLog(lay, lay.start);
      var lh := dev.Bread(lay.start);
      n := lh.words[0];
      var i := 0;
      while i < n
        invariant 0 <= i <= n == lh.words[0]
        invariant dev.cache == old(dev.cache)[lay.start := lh]
        invariant block[..i] == lh.words[1..1 + i]
      {
        block[i] := lh.words[1 + i];
        assert block[..i + 1] == block[..i] + [lh.words[1 + i]];
        i := i + 1;
      }
    }

    method WriteHeadBlock()
      requires Shape()
      modifies dev
      ensures Shape()
      ensures dev.image == WriteHead(lay, old(dev.image), block[..n])
      ensures dev.trace == old(dev.trace) + [dev.image]
      ensures dev.cache == old(dev.cache)[lay.start := dev.image[lay.start]]
    {
      assert InLog(lay, lay.start);
      var hb := dev.Bread(lay.start);
      ghost var h := hb.words;
      var words := hb.words[0 := n];
      var i := 0;
      while i < n
        invariant 0 <= i <= n
        invariant |words| == BLOCK_WORDS
        invariant words == [n] + block[..i] + h[1 + i..]
      {
        words := words[1 + i := block[i]];
        assert block[..i + 1] == block[..i] + [block[i]];
        i := i + 1;
      }
      dev.Bwrite(lay.start, Block(words));
    }

    method RecoverFromLog()
      requires Shape() && GoodHead(lay, dev.image) && dev.cache == map[]
      modifies this`n, block, dev
      ensures Valid() && n == 0
      ensures dev.trace == old(dev.trace) + RecoverTrace(lay, old(dev.image))
      ensures dev.image == Recovered(lay, old(dev.image))
    {
      hide Install, LogCoherent;
      ReadHead();
      ghost var d, bs := dev.image, block[..n];
      InstallTrans();
      n := 0;
      WriteHeadBlock();
      assert block[..0] == [];
      WriteHeadHome(lay, Install(lay, d, bs, |bs|), []);
    }

    /** One pass of begin_op's loop under log.lock; false means that process me sleeps. */
    method TryBeginOp(me: int) returns (admitted: bool)
      modifies this`outstanding, this`sleepers
      ensures admitted <==> !committing && n + (old(outstanding) + 1) * MAXOPBLOCKS <= LOGSIZE
      ensures outstanding == old(outstanding) + if admitted then 1 else 0
      ensures sleepers == old(sleepers) + if admitted then {} else {me}
    {
      if committing {
        sleepers := sleepers + {me};
        admitted := false;
      } else if n + (outstanding + 1) * MAXOPBLOCKS > LOGSIZE {
        sleepers := sleepers + {me};
        admitted := false;
      } else {
        outstanding := outstanding + 1;
        admitted := true;
      }
    }

    ghost predicate CopyLoop(d: Image, bs: seq<int>, vals: seq<Block>, before: seq<Image>, k: nat)
      reads this, dev, block
      requires Fits(lay, d) && Loggable(lay, d, bs) && |vals| == |bs| && k <= |bs|
    {
      && block.Length == LOGSIZE && n <= LOGSIZE && block[..n] == bs
      && Copied(lay, d, bs, vals, dev.image, dev.cache, k)
      && dev.trace == before + CopyTrace(lay, d, vals)[..k]
    }

    method CopyOne(tail: nat, ghost d: Image, ghost bs: seq<int>, ghost vals: seq<Block>, ghost before: seq<Image>)
      requires Fits(lay, d) && Loggable(lay, d, bs) && |vals| == |bs| && tail < |bs|
      requires CopyLoop(d, bs, vals, before, tail)
      modifies dev
      ensures CopyLoop(d, bs, vals, before, tail + 1)
      ensures HomeCoherent(lay, old(dev.image), old(dev.cache), bs) ==> HomeCoherent(lay, dev.image, dev.cache, bs)
    {
      assert bs[tail] == block[tail];
      CopyRound(lay, d, bs, vals, dev.image, dev.cache, tail);
      CopyTraceNext(lay, d, vals, tail);
      dev.CopyBlock(block[tail], lay.start + tail + 1);
    }

    method WriteLog()
      requires Shape()
      modifies dev
      ensures CopyLoop(old(dev.image), block[..n], old(Vals()), old(dev.trace), n)
      ensures HomeCoherent(lay, old(dev.image), old(dev.cache), block[..n]) ==> HomeCoherent(lay, dev.image, dev.cache, block[..n])
    {
      var tail := 0;
      ghost var d, bs, vals, before := dev.image, block[..n], Vals(), dev.trace;
      while tail < n
        invariant 0 <= tail <= n
        invariant CopyLoop(d, bs, vals, before, tail)
        invariant HomeCoherent(lay, d, old(dev.cache), bs) ==> HomeCoherent(lay, dev.image, dev.cache, bs)
      {
        CopyOne(tail, d, bs, vals, before);
        tail := tail + 1;
      }
    }

    /** The first half of commit: up to and with the header write. */
    method WriteRecord()
      requires Shape() && HomeCoherent(lay, dev.image, dev.cache, block[..n])
      modifies dev
      ensures Shape() && HomeCoherent(lay, dev.image, dev.cache, block[..n])
      ensures dev.image == Committed(lay, old(dev.image), block[..n], old(Vals()))
      ensures dev.trace == old(dev.trace) + (CopyTrace(lay, old(dev.image), old(Vals())) + [dev.image])
    {
      ghost var d, vals := dev.image, Vals();
      WriteLog();
      assert CopyTrace(lay, d, vals)[..n] == CopyTrace(lay, d, vals);
      WriteHeadBlock();
    }

    /** The second half of commit. */
    method InstallAndErase()
      requires Shape() && HomeCoherent(lay, dev.image, dev.cache, block[..n])
      modifies this`n, dev
      ensures Shape() && n == 0 && HomeCoherent(lay, dev.image, dev.cache, [])
      ensures dev.image == WriteHead(lay, Install(lay, old(dev.image), old(block[..n]), old(n)), [])
      ensures dev.trace == old(dev.trace) + (InstallTrace(lay, old(dev.image), old(block[..n])) + [dev.image])
    {
      InstallTrans();
      n := 0;
      assert block[..0] == [];
      WriteHeadBlock();
      assert InLog(lay, lay.start);
    }

    method Commit()
      requires Valid()
      modifies this`n, dev
      ensures Valid() && n == 0
      ensures dev.image == if old(n) == 0 then old(dev.image) else CommitEnd(lay, old(dev.image), old(block[..n]), old(Vals()))
      ensures dev.trace == old(dev.trace) +
                if old(n) == 0 then [] else CommitTrace(lay, old(dev.image), old(block[..n]), old(Vals()))
      ensures SameHome(lay, dev.image, Applied(old(dev.image), old(block[..n]), old(Vals())))
    {
      ghost var d, bs, vals, before := dev.image, block[..n], Vals(), dev.trace;
      if n > 0 {
        WriteRecord();
        InstallAndErase();
        CommitParts(lay, d, bs, vals);
        ghost var c := Committed(lay, d, bs, vals);
        Appended(before, CopyTrace(lay, d, vals), [c], InstallTrace(lay, c, bs), [dev.image]);
      }
    }

    /** end_op's first hold of log.lock. While the last operation out commits, the flag keeps others out. */
    method LeaveOp() returns (panicked: bool, doCommit: bool)
      modifies this`outstanding, this`committing, this`sleepers
      ensures panicked <==> old(committing)
      ensures outstanding == old(outstanding) - 1
      ensures doCommit <==> !panicked && outstanding == 0
      ensures committing <==> panicked || doCommit
      ensures sleepers == if panicked || doCommit then old(sleepers) else {}
    {
      outstanding := outstanding - 1;
      doCommit := false;
      if committing {
        return true, doCommit;
      }
      if outstanding == 0 {
        doCommit := true;
        committing := true;
      } else {
        sleepers := {};
      }
      panicked := false;
    }

    /** end_op; true stands for panic("log.committing"). Either way out wakes the sleepers. */
    method EndOp() returns (panicked: bool)
      requires Valid()
      modifies this, dev
      ensures panicked <==> old(committing)
      ensures outstanding == old(outstanding) - 1
      ensures sleepers == if panicked then old(sleepers) else {}
      ensures !panicked ==> Valid() && !committing
      ensures !panicked && outstanding != 0 ==>
                n == old(n) && dev.trace == old(dev.trace) && dev.image == old(dev.image) && dev.cache == old(dev.cache)
      ensures !panicked && outstanding == 0 ==>
                && n == 0 && SameHome(lay, dev.image, Applied(old(dev.image), old(block[..n]), old(Vals())))
                && dev.image == (if old(n) == 0 then old(dev.image) else CommitEnd(lay, old(dev.image), old(block[..n]), old(Vals())))
                && dev.trace == old(dev.trace) +
                     if old(n) == 0 then [] else CommitTrace(lay, old(dev.image), old(block[..n]), old(Vals()))
    {
      var doCommit;
      panicked, doCommit := LeaveOp();
      if !panicked && doCommit {
        Commit();
        committing := false;
        sleepers := {};
      }
    }

    /** What log_write looks at before it takes log.lock; true stands for a panic. */
    method CheckWrite() returns (panicked: bool)
      ensures panicked <==> n >= LOGSIZE || n >= lay.size - 1 || outstanding < 1
    {
      if n >= LOGSIZE || n >= lay.size - 1 {
        return true;
      }
      panicked := outstanding < 1;
    }

    /** The rest of log_write, under log.lock, for a block b whose buffer the caller has filled
        with data; true means that the list is full and was written past its end. */
    method AppendWrite(b: int, data: Block) returns (overrun: bool)
      requires Valid() && Home(lay, dev.image, b)
      modifies this`n, block, dev`cache
      ensures overrun <==> old(n) == LOGSIZE && b !in old(block[..n])
      ensures !overrun ==> dev.cache == old(dev.cache)[b := data] && n <= block.Length && block[..n] == Absorb(old(block[..n]), b)
      ensures b in old(block[..n]) || (old(n) < LOGSIZE && old(n) < lay.size - 1) ==> Valid()
    {
      ghost var bs := block[..n];
      dev.cache := dev.cache[b := data];
      var i := 0;
      while i < n && block[i] != b
        invariant 0 <= i <= n
        invariant b !in block[..i]
      {
        assert block[..i + 1] == block[..i] + [block[i]];
        i := i + 1;
      }
      if i == block.Length {
        return true;
      }
      block[i] := b;
      if i == n {
        n := n + 1;
        assert block[..n] == bs + [b];
      } else {
        assert block[..n] == bs;
        assert bs[i] == b;
      }
      overrun := false;
    }

    /** log_write when no other process comes between its two halves; true stands for a panic. */
    method LogWrite(b: int, data: Block) returns (panicked: bool)
      requires Valid() && Home(lay, dev.image, b)
      modifies this`n, block, dev`cache
      ensures panicked <==> old(n) >= LOGSIZE || old(n) >= lay.size - 1 || outstanding < 1
      ensures panicked ==> n == old(n) && block[..] == old(block[..]) && dev.cache == old(dev.cache)
      ensures !panicked ==> Valid() && dev.cache == old(dev.cache)[b := data]
      ensures !panicked ==> block[..n] == Absorb(old(block[..n]), b)
    {
      panicked := CheckWrite();
      if !panicked {
        var overrun := AppendWrite(b, data);
      }
    }
  }

  /** Log absorption: a block already listed is not listed again. */
  function Absorb(bs: seq<int>, b: int): (r: seq<int>)
    ensures b in r && forall c :: c in r <==> c in bs || c == b
    ensures (forall i, j :: 0 <= i < j < |bs| ==> bs[i] != bs[j]) ==> forall i, j :: 0 <= i < j < |r| ==> r[i] != r[j]
  {
    if b in bs then bs else bs + [b]
  }
}
