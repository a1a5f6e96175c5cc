/** Every interleaving of begin_op, the two halves of log_write, end_op, cache traffic, the
    block writes of commit and recovery, and crashes, as one transition system. log_write
    looks at the size of the log before it takes log.lock, so its check and its append are
    two events. */
module GroupCommit {
  import opened Disk
  import opened Options
  import opened Params
  import opened LogSpec
  import opened Log

  datatype Write = Write(op: nat, blk: int, val: Block)

  /** An operation between its begin_op and end_op, with the blocks it has logged; passed
      is the block, its buffer locked, for which log_write has passed its check. */
  datatype Op = Op(id: nat, logged: set<int>, passed: Option<int>)

  datatype Phase =
    | Running
    | Copying(k: nat)                   // write_log has copied k blocks
    | Installing(pre: Image, k: nat)    // header written (image pre), k blocks installed
    | Erased                            // header cleared, log.committing still set
    | Recovering(pre: Image, k: nat)    // booted on image pre, k blocks installed
    | Panicked
    | Overrun                           // log.lh.block was written past its end

  /** asleep are the processes asleep in begin_op; initial, history, cut, nextId and the `pre`
      images are history variables: the home contents at boot, all log_writes since that are
      not lost, and how many of them the last header write made durable. */
  datatype State = State(image: Image, cache: map<int, Block>, bs: seq<int>, ops: seq<Op>, asleep: set<int>,
                         phase: Phase, nextId: nat, initial: Image, history: seq<Write>, cut: nat)
  {
    predicate Committing() { phase.Copying? || phase.Installing? || phase.Erased? }
    predicate Up() { phase.Running? || Committing() }

    /** What bread returns for block b. */
    function Read(b: int): Block {
      if b in cache then cache[b] else if 0 <= b < |image| then image[b] else Block([])
    }
  }

  /** The blocks flagged B_DIRTY by log_write and not yet written home. */
  function Dirty(phase: Phase, bs: seq<int>): seq<int> {
    match phase
    case Installing(_, k) => if k <= |bs| then bs[k..] else []
    case Erased => []
    case _ => bs
  }

  datatype Event =
    | Begin
    | Await(p: int)                         // begin_op of process p finds no room and sleeps
    | Check(i: nat, blk: int)               // outstanding op i: log_write looks at the size of the log
    | Append(i: nat, val: Block)            // and then, under log.lock, lists the block; brelse
    | End(i: nat)
    | Fill(blk: int)                        // bread of an uncached block
    | Evict(blk: int)                       // bget recycles a clean buffer
    | CopyOne | WriteHeader | InstallOne | Erase | Finish
    | Crash | RecoverOne | RecoverEnd

  /** begin_op's reservation fits and no commit is under way. */
  predicate Admits(s: State) {
    s.phase.Running? && |s.bs| + (|s.ops| + 1) * MAXOPBLOCKS <= LOGSIZE
  }

  predicate TooFull(lay: Layout, bs: seq<int>) {
    |bs| >= LOGSIZE || |bs| >= lay.size - 1
  }

  predicate Readable(lay: Layout, image: Image) {
    Fits(lay, image) && 0 <= image[lay.start].words[0] < BLOCK_WORDS
  }

  predicate InRange(lay: Layout, s: State, k: nat) {
    k < |s.bs| && 0 <= s.bs[k] < |s.image| && lay.start + k + 1 < |s.image|
  }

  predicate CanDo(lay: Layout, opMax: nat, s: State, e: Event) {
    match e
    case Begin => Admits(s)
    case Await(p) => s.Up() && !Admits(s)
    case Check(i, b) =>
      && s.Up() && i < |s.ops| && Home(lay, s.image, b) && |s.ops[i].logged + {b}| <= opMax
      && (forall k :: 0 <= k < |s.ops| ==> s.ops[k].passed != Some(b)) && s.ops[i].passed == None
    case Append(i, v) => s.Up() && i < |s.ops| && s.ops[i].passed.Some?
    case End(i) => s.Up() && i < |s.ops| && s.ops[i].passed == None
    case Fill(b) => s.Up() && Home(lay, s.image, b) && b !in s.cache
    case Evict(b) => s.Up() && b in s.cache && b !in Dirty(s.phase, s.bs)
    case CopyOne => s.phase.Copying? && s.phase.k < |s.bs|
    case WriteHeader => s.phase.Copying? && s.phase.k == |s.bs| != 0 && Fits(lay, s.image) && |s.bs| < BLOCK_WORDS
    case InstallOne => s.phase.Installing? && InRange(lay, s, s.phase.k)
    case Erase => s.phase.Installing? && s.phase.k == |s.bs| && Fits(lay, s.image)
    case Finish => s.phase.Erased? || (s.phase.Copying? && s.bs == [])
    case Crash => Readable(lay, s.image) && s.cut <= |s.history|
    case RecoverOne => s.phase.Recovering? && InRange(lay, s, s.phase.k)
    case RecoverEnd => s.phase.Recovering? && s.phase.k == |s.bs| && Fits(lay, s.image)
  }

  function Do(lay: Layout, opMax: nat, s: State, e: Event): State
    requires CanDo(lay, opMax, s, e)
  {
    match e
    case Begin => s.(ops := s.ops + [Op(s.nextId, {}, None)], nextId := s.nextId + 1)
    case Await(p) => s.(asleep := s.asleep + {p})
    case Check(i, b) =>
      if TooFull(lay, s.bs) || |s.ops| < 1 then s.(phase := Panicked)
      else s.(ops := s.ops[i := s.ops[i].(passed := Some(b))])
    case Append(i, v) =>
      var b := s.ops[i].passed.value;
      if b !in s.bs && |s.bs| >= LOGSIZE then s.(phase := Overrun)
      else s.(cache := s.cache[b := v], bs := Absorb(s.bs, b),
              ops := s.ops[i := s.ops[i].(logged := s.ops[i].logged + {b}, passed := None)],
              history := s.history + [Write(s.ops[i].id, b, v)])
    case End(i) =>
      if s.Committing() then s.(phase := Panicked)
      else if |s.ops| == 1 then s.(ops := [], phase := Copying(0))
      else s.(ops := s.ops[..i] + s.ops[i + 1..], asleep := {})
    case Fill(b) => s.(cache := s.cache[b := s.image[b]])
    case Evict(b) => s.(cache := s.cache - {b})
    case CopyOne =>
      var to, v := lay.start + s.phase.k + 1, s.Read(s.bs[s.phase.k]);
      if to >= |s.image| then s.(phase := Panicked)
      else s.(image := s.image[to := v], cache := if Home(lay, s.image, to) then s.cache[to := v] else s.cache,
              phase := Copying(s.phase.k + 1))
    case WriteHeader =>
      var image := WriteHead(lay, s.image, s.bs);
      s.(image := image, phase := Installing(image, 0), cut := |s.history|)
    case InstallOne =>
      var v := s.image[lay.start + s.phase.k + 1];
      s.(image := s.image[s.bs[s.phase.k] := v], cache := s.cache[s.bs[s.phase.k] := v],
         phase := Installing(s.phase.pre, s.phase.k + 1))
    case Erase => s.(image := WriteHead(lay, s.image, []), bs := [], phase := Erased)
    case Finish => s.(phase := Running, asleep := {})
    case Crash => Booted(lay, s.(history := s.history[..s.cut]))
    case RecoverOne =>
      s.(image := s.image[s.bs[s.phase.k] := s.image[lay.start + s.phase.k + 1]],
         phase := Recovering(s.phase.pre, s.phase.k + 1))
    case RecoverEnd => s.(image := WriteHead(lay, s.image, []), bs := [], phase := Running)
  }

  /** Memory is lost; read_head has loaded the header found on disk. */
  function Booted(lay: Layout, s: State): State
    requires Readable(lay, s.image)
  {
    s.(cache := map[], bs := HeadBlocks(s.image[lay.start]), ops := [], asleep := {}, phase := Recovering(s.image, 0))
  }

  predicate Init(lay: Layout, s: State) {
    && GoodHead(lay, s.image)
    && s == Booted(lay, State(s.image, map[], [], [], {}, Running, 0, Recovered(lay, s.image), [], 0))
  }

  /** The home contents after a sequence of writes, one after the other. */
  function Replay(d: Image, ws: seq<Write>): (r: Image)
    ensures |r| == |d|
  {
    if ws == [] then d
    else
      var n := |ws| - 1;
      var r := Replay(d, ws[..n]);
      if 0 <= ws[n].blk < |d| then r[ws[n].blk := ws[n].val] else r
  }

  lemma ReplayNext(d: Image, ws: seq<Write>, w: Write)
    requires 0 <= w.blk < |d|
    ensures Replay(d, ws + [w]) == Replay(d, ws)[w.blk := w.val]
  {
    assert (ws + [w])[..|ws|] == ws;
  }

  predicate Distinct<T(==)>(bs: seq<T>) {
    forall i, j :: 0 <= i < j < |bs| ==> bs[i] != bs[j]
  }

  // ---------- the invariant, over the components it speaks of ----------

  datatype Mode = Serving | Recording | Durably | Idle | Booting | Dead

  function ModeOf(phase: Phase): Mode {
    match phase
    case Running => Serving
    case Copying(_) => Recording
    case Installing(_, _) => Durably
    case Erased => Idle
    case Recovering(_, _) => Booting
    case Panicked => Dead
    case Overrun => Dead
  }

  /** No operation has writes on both sides of the cut, and none before it is outstanding. */
  ghost predicate WholeOps(history: seq<Write>, cut: nat, ops: seq<Op>, nextId: nat) {
    && cut <= |history|
    && (forall i, j :: 0 <= i < cut <= j < |history| ==> history[i].op != history[j].op)
    && (forall i, k :: 0 <= i < cut && 0 <= k < |ops| ==> history[i].op != ops[k].id)
    && (forall i :: 0 <= i < |history| ==> history[i].op < nextId)
    && (forall k :: 0 <= k < |ops| ==> ops[k].id < nextId)
    && (forall k, l :: 0 <= k < l < |ops| ==> ops[k].id != ops[l].id)
  }

  /** Uncommitted writes are to logged blocks; an idle log has none. */
  ghost predicate OpsInv(history: seq<Write>, cut: nat, ops: seq<Op>, nextId: nat, bs: seq<int>, mode: Mode) {
    && WholeOps(history, cut, ops, nextId)
    && (forall j :: cut <= j < |history| ==> history[j].blk in bs)
    && (mode.Serving? && ops == [] ==> bs == [])
    && (mode.Idle? ==> bs == [])
    && (mode.Durably? || mode.Booting? ==> cut == |history|)
    && (!mode.Serving? && !mode.Dead? ==> ops == [])
    && (!mode.Booting? ==> Distinct(bs))
  }

  /** The image is what k rounds of install_trans make of pre, whose header commits bs
      and which recovers to r. */
  ghost predicate InstallInv(lay: Layout, image: Image, bs: seq<int>, pre: Image, k: nat, r: Image) {
    && GoodHead(lay, pre) && HeadBlocks(pre[lay.start]) == bs && k <= |bs|
    && image == Install(lay, pre, bs, k)
    && SameHome(lay, Recovered(lay, pre), r)
  }

  /** No transaction is on disk and the home blocks are those of r. */
  ghost predicate ClearInv(lay: Layout, image: Image, bs: seq<int>, r: Image) {
    Clear(lay, image) && Loggable(lay, image, bs) && SameHome(lay, image, r)
  }

  /** Reads give r; clean buffers agree with the disk, dirty ones are kept. */
  ghost predicate CacheInv(lay: Layout, image: Image, cache: map<int, Block>, dirty: seq<int>, r: Image) {
    && |r| == |image|
    && (forall b :: Home(lay, image, b) ==> (if b in cache then cache[b] else image[b]) == r[b])
    && (forall b :: Home(lay, image, b) && b in cache && b !in dirty ==> cache[b] == image[b])
    && (forall b :: b in dirty ==> b in cache)
  }

  /** Log blocks 1..k of d hold r's contents of bs[0..k]. */
  ghost predicate LogHolds(lay: Layout, d: Image, bs: seq<int>, k: nat, r: Image) {
    && k <= |bs| && Fits(lay, d) && |d| == |r| && Loggable(lay, d, bs)
    && forall i :: 0 <= i < k ==> d[lay.start + 1 + i] == r[bs[i]]
  }

  ghost predicate OpsOK(s: State) {
    OpsInv(s.history, s.cut, s.ops, s.nextId, s.bs, ModeOf(s.phase))
  }

  /** Checks are passed for home blocks only. */
  ghost predicate PassedHome(lay: Layout, image: Image, ops: seq<Op>) {
    forall k :: 0 <= k < |ops| && ops[k].passed.Some? ==> Home(lay, image, ops[k].passed.value)
  }

  ghost predicate Inv(lay: Layout, s: State) {
    && OpsOK(s) && s.cut <= |s.history| && PassedHome(lay, s.image, s.ops)
    && (s.Up() ==> CacheInv(lay, s.image, s.cache, Dirty(s.phase, s.bs), Replay(s.initial, s.history)))
    && match s.phase
       case Installing(pre, k) =>
         InstallInv(lay, s.image, s.bs, pre, k, Replay(s.initial, s.history)) && s.cut == |s.history|
         && LogHolds(lay, pre, s.bs, |s.bs|, Replay(s.initial, s.history))
       case Recovering(pre, k) =>
         InstallInv(lay, s.image, s.bs, pre, k, Replay(s.initial, s.history)) && s.cut == |s.history| && s.cache == map[]
       case Copying(k) =>
         ClearInv(lay, s.image, s.bs, Replay(s.initial, s.history[..s.cut]))
         && LogHolds(lay, s.image, s.bs, k, Replay(s.initial, s.history))
       case Overrun => false
       case _ => ClearInv(lay, s.image, s.bs, Replay(s.initial, s.history[..s.cut]))
  }

  /** The disk, if recovered now, holds exactly the writes before the cut. */
  ghost predicate Durable(lay: Layout, s: State) {
    && s.cut <= |s.history| && GoodHead(lay, s.image)
    && SameHome(lay, Recovered(lay, s.image), Replay(s.initial, s.history[..s.cut]))
  }

  lemma InstallInvRecovers(lay: Layout, image: Image, bs: seq<int>, pre: Image, k: nat, r: Image)
    requires InstallInv(lay, image, bs, pre, k, r)
    ensures GoodHead(lay, image) && SameHome(lay, Recovered(lay, image), r)
    ensures Fits(lay, image) && Loggable(lay, image, bs)
  {
    assert InLog(lay, lay.start);
    if k > 0 {
      RecoveryRestartable(lay, pre, k - 1);
    }
  }

  lemma ClearInvRecovers(lay: Layout, image: Image, bs: seq<int>, r: Image)
    requires ClearInv(lay, image, bs, r)
    ensures GoodHead(lay, image) && SameHome(lay, Recovered(lay, image), r)
  {
    RecoverClear(lay, image);
  }

  lemma InvDurable(lay: Layout, s: State)
    requires Inv(lay, s)
    ensures Durable(lay, s)
  {
    hide OpsInv, CacheInv, LogHolds;
    if s.phase.Installing? || s.phase.Recovering? {
      assert s.history[..s.cut] == s.history;
      InstallInvRecovers(lay, s.image, s.bs, s.phase.pre, s.phase.k, Replay(s.initial, s.history));
    } else {
      ClearInvRecovers(lay, s.image, s.bs, Replay(s.initial, s.history[..s.cut]));
    }
  }

  // ---------- what each event does to one component ----------

  lemma AppendOps(history: seq<Write>, cut: nat, ops: seq<Op>, nextId: nat, bs: seq<int>, i: nat, w: Write)
    requires OpsInv(history, cut, ops, nextId, bs, Serving) && i < |ops| && w.op == ops[i].id
    ensures var ops' := ops[i := ops[i].(logged := ops[i].logged + {w.blk}, passed := None)];
            OpsInv(history + [w], cut, ops', nextId, Absorb(bs, w.blk), Serving)
  {
    var ops' := ops[i := ops[i].(logged := ops[i].logged + {w.blk}, passed := None)];
    assert forall k :: 0 <= k < |ops| ==> ops'[k].id == ops[k].id;
    assert forall j :: 0 <= j <= |history| ==> (history + [w])[j] == if j < |history| then history[j] else w;
  }

  lemma AppendDisk(lay: Layout, image: Image, bs: seq<int>, r: Image, b: int)
    requires ClearInv(lay, image, bs, r) && Home(lay, image, b) && (b in bs || !TooFull(lay, bs))
    ensures ClearInv(lay, image, Absorb(bs, b), r)
  {
  }

  lemma AppendCache(lay: Layout, image: Image, cache: map<int, Block>, bs: seq<int>, r: Image, b: int, v: Block)
    requires CacheInv(lay, image, cache, bs, r) && Home(lay, image, b)
    ensures CacheInv(lay, image, cache[b := v], Absorb(bs, b), r[b := v])
  {
  }

  lemma EndOps(history: seq<Write>, cut: nat, ops: seq<Op>, nextId: nat, bs: seq<int>, i: nat)
    requires OpsInv(history, cut, ops, nextId, bs, Serving) && i < |ops|
    ensures if |ops| == 1 then OpsInv(history, cut, [], nextId, bs, Recording)
            else OpsInv(history, cut, ops[..i] + ops[i + 1..], nextId, bs, Serving)
  {
  }

  lemma CopyOneDisk(lay: Layout, image: Image, bs: seq<int>, k: nat, q: Image, r: Image, v: Block)
    requires ClearInv(lay, image, bs, q) && LogHolds(lay, image, bs, k, r) && k < |bs| && v == r[bs[k]]
    ensures ClearInv(lay, image[lay.start + k + 1 := v], bs, q)
    ensures LogHolds(lay, image[lay.start + k + 1 := v], bs, k + 1, r)
  {
    assert InLog(lay, lay.start + k + 1);
  }

  /** Writing inside the log region changes nothing the cache promises. */
  lemma LogRegionCache(lay: Layout, image: Image, cache: map<int, Block>, dirty: seq<int>, r: Image, b: int, v: Block)
    requires CacheInv(lay, image, cache, dirty, r) && InLog(lay, b) && b < |image|
    ensures CacheInv(lay, image[b := v], cache, dirty, r)
  {
  }

  lemma HeadCache(lay: Layout, image: Image, cache: map<int, Block>, dirty: seq<int>, r: Image, bs: seq<int>)
    requires CacheInv(lay, image, cache, dirty, r) && Fits(lay, image) && |bs| < BLOCK_WORDS
    ensures CacheInv(lay, WriteHead(lay, image, bs), cache, dirty, r)
  {
    assert InLog(lay, lay.start);
    LogRegionCache(lay, image, cache, dirty, r, lay.start, SetHead(image[lay.start], bs));
  }

  lemma HeaderOps(history: seq<Write>, cut: nat, nextId: nat, bs: seq<int>)
    requires OpsInv(history, cut, [], nextId, bs, Recording)
    ensures OpsInv(history, |history|, [], nextId, bs, Durably)
  {
  }

  /** If each log block holds r's contents of its block, and every other home block has
      r's contents already, installing gives r. */
  lemma {:induction false} InstallYields(lay: Layout, d: Image, bs: seq<int>, k: nat, r: Image, b: int)
    requires Fits(lay, d) && Loggable(lay, d, bs) && k <= |bs| && |d| == |r|
    requires forall i :: 0 <= i < k ==> d[lay.start + 1 + i] == r[bs[i]]
    requires Home(lay, d, b) && (b in bs[..k] || d[b] == r[b])
    ensures Install(lay, d, bs, k)[b] == r[b]
  {
    if k != 0 {
      assert InLog(lay, lay.start + k);
      assert bs[..k] == bs[..k - 1] + [bs[k - 1]];
      if b != bs[k - 1] {
        InstallYields(lay, d, bs, k - 1, r, b);
      } else {
        assert d[lay.start + 1 + (k - 1)] == r[bs[k - 1]];
      }
    }
  }

  /** Installing the whole log gives every home block r's contents. */
  lemma InstallAll(lay: Layout, d: Image, bs: seq<int>, cache: map<int, Block>, r: Image)
    requires LogHolds(lay, d, bs, |bs|, r) && CacheInv(lay, d, cache, bs, r)
    ensures SameHome(lay, Install(lay, d, bs, |bs|), r)
  {
    assert bs[..|bs|] == bs;
    forall b | Home(lay, d, b) ensures Install(lay, d, bs, |bs|)[b] == r[b] {
      hide Install;
      InstallYields(lay, d, bs, |bs|, r, b);
    }
  }

  lemma HeaderDisk(lay: Layout, image: Image, bs: seq<int>, cache: map<int, Block>, r: Image)
    requires LogHolds(lay, image, bs, |bs|, r) && CacheInv(lay, image, cache, bs, r)
    ensures var pre := WriteHead(lay, image, bs);
            InstallInv(lay, pre, bs, pre, 0, r) && LogHolds(lay, pre, bs, |bs|, r)
  {
    var pre := WriteHead(lay, image, bs);
    WriteHeadHome(lay, image, bs);
    HeadCache(lay, image, cache, bs, r, bs);
    hide CacheInv;
    InstallAll(lay, pre, bs, cache, r);
    WriteHeadHome(lay, Install(lay, pre, bs, |bs|), []);
  }

  lemma InstallOneDisk(lay: Layout, image: Image, bs: seq<int>, pre: Image, k: nat, r: Image)
    requires InstallInv(lay, image, bs, pre, k, r) && k < |bs|
    ensures InstallInv(lay, image[bs[k] := image[lay.start + k + 1]], bs, pre, k + 1, r)
    ensures image[lay.start + k + 1] == pre[lay.start + k + 1]
  {
    assert InLog(lay, lay.start + k + 1);
  }

  lemma InstallOneCache(lay: Layout, image: Image, cache: map<int, Block>, bs: seq<int>, k: nat, r: Image, v: Block)
    requires k < |bs| && Loggable(lay, image, bs) && CacheInv(lay, image, cache, bs[k..], r) && v == r[bs[k]]
    ensures CacheInv(lay, image[bs[k] := v], cache[bs[k] := v], bs[k + 1..], r)
  {
    assert bs[k..] == [bs[k]] + bs[k + 1..];
  }

  lemma EraseDisk(lay: Layout, image: Image, bs: seq<int>, pre: Image, r: Image)
    requires InstallInv(lay, image, bs, pre, |bs|, r)
    ensures ClearInv(lay, WriteHead(lay, image, []), [], r)
    ensures WriteHead(lay, image, []) == Recovered(lay, pre)
  {
    WriteHeadHome(lay, image, []);
  }

  lemma CleanCache(lay: Layout, image: Image, r: Image)
    requires SameHome(lay, image, r)
    ensures CacheInv(lay, image, map[], [], r)
  {
  }

  // ---------- every event keeps the books, whatever happens on disk ----------

  lemma OpsBegin(history: seq<Write>, cut: nat, ops: seq<Op>, nextId: nat, bs: seq<int>)
    requires OpsInv(history, cut, ops, nextId, bs, Serving)
    ensures OpsInv(history, cut, ops + [Op(nextId, {}, None)], nextId + 1, bs, Serving)
  {
  }

  lemma OpsCheck(history: seq<Write>, cut: nat, ops: seq<Op>, nextId: nat, bs: seq<int>, i: nat, b: int)
    requires OpsInv(history, cut, ops, nextId, bs, Serving) && i < |ops|
    ensures OpsInv(history, cut, ops[i := ops[i].(passed := Some(b))], nextId, bs, Serving)
  {
    var ops' := ops[i := ops[i].(passed := Some(b))];
    assert forall k :: 0 <= k < |ops| ==> ops'[k].id == ops[k].id;
  }

  lemma OpsDead(history: seq<Write>, cut: nat, ops: seq<Op>, nextId: nat, bs: seq<int>, mode: Mode)
    requires OpsInv(history, cut, ops, nextId, bs, mode) && !mode.Booting?
    ensures OpsInv(history, cut, ops, nextId, bs, Dead)
  {
  }

  /** From the header write on nothing is uncommitted, so the list can go; a crash loses what is not committed. */
  lemma OpsEmptied(history: seq<Write>, cut: nat, ops: seq<Op>, nextId: nat, bs: seq<int>, mode: Mode, bs': seq<int>)
    requires OpsInv(history, cut, ops, nextId, bs, mode)
    ensures mode.Durably? ==> OpsInv(history, cut, ops, nextId, [], Idle)
    ensures mode.Booting? ==> OpsInv(history, cut, ops, nextId, [], Serving)
    ensures mode.Idle? || (mode.Recording? && bs == []) ==> OpsInv(history, cut, ops, nextId, bs, Serving)
    ensures OpsInv(history[..cut], cut, [], nextId, bs', Booting)
  {
  }

  lemma KeepOps(lay: Layout, m: nat, s: State, e: Event)
    requires OpsOK(s) && CanDo(lay, m, s, e)
    ensures OpsOK(Do(lay, m, s, e))
    ensures e.End? ==> !Do(lay, m, s, e).phase.Panicked?
  {
    OpsIdle(s);
    CutIn(s);
    hide WriteHead, HeadBlocks, Home, Fits, Absorb, OpsInv, TooFull, InRange, Dirty;
    match e
    case Begin => OpsBegin(s.history, s.cut, s.ops, s.nextId, s.bs);
    case Check(i, b) =>
      OpsCheck(s.history, s.cut, s.ops, s.nextId, s.bs, i, b);
      OpsDead(s.history, s.cut, s.ops, s.nextId, s.bs, ModeOf(s.phase));
    case Append(i, v) =>
      AppendOps(s.history, s.cut, s.ops, s.nextId, s.bs, i, Write(s.ops[i].id, s.ops[i].passed.value, v));
      OpsDead(s.history, s.cut, s.ops, s.nextId, s.bs, ModeOf(s.phase));
    case End(i) => EndOps(s.history, s.cut, s.ops, s.nextId, s.bs, i);
    case CopyOne => OpsDead(s.history, s.cut, s.ops, s.nextId, s.bs, ModeOf(s.phase));
    case WriteHeader =>
      NoneOpen(s);
      HeaderOps(s.history, s.cut, s.nextId, s.bs);
    case Erase => OpsEmptied(s.history, s.cut, s.ops, s.nextId, s.bs, ModeOf(s.phase), []);
    case Finish => OpsEmptied(s.history, s.cut, s.ops, s.nextId, s.bs, ModeOf(s.phase), []);
    case Crash => OpsEmptied(s.history, s.cut, s.ops, s.nextId, s.bs, ModeOf(s.phase), Do(lay, m, s, e).bs);
    case RecoverEnd => OpsEmptied(s.history, s.cut, s.ops, s.nextId, s.bs, ModeOf(s.phase), []);
    case _ =>
  }

  lemma NoneOpen(s: State)
    requires OpsOK(s) && !s.phase.Running? && !s.phase.Panicked? && !s.phase.Overrun?
    ensures s.ops == []
  {
  }

  lemma CutIn(s: State)
    requires OpsOK(s)
    ensures s.cut <= |s.history|
  {
  }

  /** Operations are outstanding only while none of them is being committed. */
  lemma OpsIdle(s: State)
    requires OpsOK(s)
    ensures s.Up() && s.ops != [] ==> s.phase.Running?
  {
  }

  // ---------- every event keeps the invariant ----------

  /** The block to be listed is there already or there is room for it. */
  predicate AppendFits(lay: Layout, s: State, e: Event) {
    e.Append? && e.i < |s.ops| && s.ops[e.i].passed.Some? ==> s.ops[e.i].passed.value in s.bs || !TooFull(lay, s.bs)
  }

  lemma KeepBegin(lay: Layout, s: State, t: State)
    requires Inv(lay, s) && s.phase.Running? && OpsOK(t)
    requires t == s.(ops := s.ops + [Op(s.nextId, {}, None)], nextId := s.nextId + 1)
    ensures Inv(lay, t)
  {
    hide CacheInv, ClearInv, OpsInv;
  }

  lemma KeepCheck(lay: Layout, s: State, t: State, i: nat, b: int)
    requires Inv(lay, s) && s.phase.Running? && OpsOK(t) && i < |s.ops| && Home(lay, s.image, b)
    requires t == s.(ops := s.ops[i := s.ops[i].(passed := Some(b))])
    ensures Inv(lay, t)
  {
    hide CacheInv, ClearInv, OpsInv;
  }

  lemma KeepAppend(lay: Layout, s: State, t: State, i: nat, w: Write)
    requires Inv(lay, s) && s.phase.Running? && OpsOK(t) && i < |s.ops| && s.ops[i].passed == Some(w.blk) && w.op == s.ops[i].id
    requires w.blk in s.bs || !TooFull(lay, s.bs)
    requires t == s.(cache := s.cache[w.blk := w.val], bs := Absorb(s.bs, w.blk),
                     ops := s.ops[i := s.ops[i].(logged := s.ops[i].logged + {w.blk}, passed := None)], history := s.history + [w])
    ensures Inv(lay, t)
  {
    assert |s.initial| == |s.image|;
    hide OpsInv, CacheInv, ClearInv, Absorb;
    assert t.history[..t.cut] == s.history[..s.cut] by { hide OpsOK; }
    AppendDisk(lay, s.image, s.bs, Replay(s.initial, s.history[..s.cut]), w.blk);
    ReplayNext(s.initial, s.history, w);
    AppendCache(lay, s.image, s.cache, s.bs, Replay(s.initial, s.history), w.blk, w.val);
  }

  lemma KeepEnd(lay: Layout, s: State, t: State, i: nat)
    requires Inv(lay, s) && s.phase.Running? && OpsOK(t) && i < |s.ops|
    requires t == if |s.ops| == 1 then s.(ops := [], phase := Copying(0)) else s.(ops := s.ops[..i] + s.ops[i + 1..], asleep := {})
    ensures Inv(lay, t)
  {
    assert LogHolds(lay, s.image, s.bs, 0, Replay(s.initial, s.history));
    hide OpsInv, CacheInv, ClearInv, LogHolds;
    assert PassedHome(lay, t.image, t.ops);
  }

  lemma KeepCache(lay: Layout, s: State, t: State, b: int)
    requires Inv(lay, s) && s.Up()
    requires (Home(lay, s.image, b) && b !in s.cache && t == s.(cache := s.cache[b := s.image[b]]))
             || (b in s.cache && b !in Dirty(s.phase, s.bs) && t == s.(cache := s.cache - {b}))
    ensures Inv(lay, t)
  {
    hide OpsInv, InstallInv, ClearInv, LogHolds, Dirty;
  }

  lemma KeepCopyOne(lay: Layout, s: State, t: State, k: nat)
    requires Inv(lay, s) && s.phase == Copying(k) && k < |s.bs| && OpsOK(t) && lay.start + k + 1 < |s.image|
    requires t == s.(image := s.image[lay.start + k + 1 := s.Read(s.bs[k])], phase := Copying(k + 1))
    ensures Inv(lay, t)
  {
    var r := Replay(s.initial, s.history);
    assert Home(lay, s.image, s.bs[k]) && s.Read(s.bs[k]) == r[s.bs[k]];
    hide OpsInv, CacheInv, ClearInv, LogHolds;
    CopyOneDisk(lay, s.image, s.bs, k, Replay(s.initial, s.history[..s.cut]), r, s.Read(s.bs[k]));
    LogRegionCache(lay, s.image, s.cache, s.bs, r, lay.start + k + 1, s.Read(s.bs[k]));
  }

  lemma KeepWriteHeader(lay: Layout, s: State, t: State)
    requires Inv(lay, s) && s.phase == Copying(|s.bs|) && Fits(lay, s.image) && |s.bs| < BLOCK_WORDS && OpsOK(t)
    requires var image := WriteHead(lay, s.image, s.bs);
             t == s.(image := image, phase := Installing(image, 0), cut := |s.history|)
    ensures Inv(lay, t)
  {
    hide OpsInv, CacheInv, ClearInv, LogHolds, InstallInv, GoodHead, Loggable, WriteHead, Fits, Replay;
    NoneOpen(s);
    HeaderDisk(lay, s.image, s.bs, s.cache, Replay(s.initial, s.history));
    assert s.bs[0..] == s.bs;
    HeadCache(lay, s.image, s.cache, s.bs, Replay(s.initial, s.history), s.bs);
  }

  lemma KeepInstallOne(lay: Layout, s: State, t: State, pre: Image, k: nat)
    requires Inv(lay, s) && s.phase == Installing(pre, k) && OpsOK(t) && InRange(lay, s, k)
    requires var v := s.image[lay.start + k + 1];
             t == s.(image := s.image[s.bs[k] := v], cache := s.cache[s.bs[k] := v], phase := Installing(pre, k + 1))
    ensures Inv(lay, t)
  {
    var r := Replay(s.initial, s.history);
    InstallInvRecovers(lay, s.image, s.bs, pre, k, r);
    hide OpsInv, CacheInv, InstallInv, GoodHead, Install;
    assert pre[lay.start + 1 + k] == r[s.bs[k]];
    hide LogHolds;
    InstallOneDisk(lay, s.image, s.bs, pre, k, r);
    InstallOneCache(lay, s.image, s.cache, s.bs, k, r, s.image[lay.start + k + 1]);
  }

  lemma KeepErase(lay: Layout, s: State, t: State)
    requires Inv(lay, s) && s.phase.Installing? && s.phase.k == |s.bs| && Fits(lay, s.image) && OpsOK(t)
    requires t == s.(image := WriteHead(lay, s.image, []), bs := [], phase := Erased)
    ensures Inv(lay, t)
  {
    hide OpsInv, CacheInv, LogHolds, InstallInv, ClearInv;
    var r := Replay(s.initial, s.history);
    EraseDisk(lay, s.image, s.bs, s.phase.pre, r);
    assert s.history[..s.cut] == s.history && s.bs[|s.bs|..] == [];
    HeadCache(lay, s.image, s.cache, [], r, []);
  }

  lemma KeepFinish(lay: Layout, s: State, t: State)
    requires Inv(lay, s) && (s.phase.Erased? || (s.phase.Copying? && s.bs == [])) && OpsOK(t)
    requires t == s.(phase := Running, asleep := {})
    ensures Inv(lay, t)
  {
    assert s.bs == [];
    hide CacheInv, LogHolds, ClearInv, OpsInv;
  }

  lemma KeepCrash(lay: Layout, s: State, t: State)
    requires Inv(lay, s) && Durable(lay, s) && OpsOK(t) && t == Booted(lay, s.(history := s.history[..s.cut]))
    ensures Inv(lay, t)
  {
    hide OpsInv, CacheInv, LogHolds, ClearInv;
  }

  lemma KeepRecoverOne(lay: Layout, s: State, t: State, pre: Image, k: nat)
    requires Inv(lay, s) && s.phase == Recovering(pre, k) && OpsOK(t) && InRange(lay, s, k)
    requires t == s.(image := s.image[s.bs[k] := s.image[lay.start + k + 1]], phase := Recovering(pre, k + 1))
    ensures Inv(lay, t)
  {
    hide OpsInv, InstallInv;
    InstallOneDisk(lay, s.image, s.bs, pre, k, Replay(s.initial, s.history));
  }

  lemma KeepRecoverEnd(lay: Layout, s: State, t: State)
    requires Inv(lay, s) && s.phase.Recovering? && s.phase.k == |s.bs| && Fits(lay, s.image) && OpsOK(t)
    requires t == s.(image := WriteHead(lay, s.image, []), bs := [], phase := Running)
    ensures Inv(lay, t)
  {
    hide OpsInv, InstallInv, CacheInv;
    assert s.history[..s.cut] == s.history;
    EraseDisk(lay, s.image, s.bs, s.phase.pre, Replay(s.initial, s.history));
    CleanCache(lay, t.image, Replay(s.initial, s.history));
  }

  lemma KeepPanic(lay: Layout, s: State, t: State)
    requires Inv(lay, s) && s.phase.Running? && t == s.(phase := Panicked) && OpsOK(t)
    ensures Inv(lay, t)
  {
    hide CacheInv, ClearInv, OpsInv;
  }

  lemma CopyInRange(lay: Layout, s: State)
    requires Inv(lay, s) && s.phase.Copying? && s.phase.k < |s.bs|
    ensures lay.start + s.phase.k + 1 < |s.image| && !Home(lay, s.image, lay.start + s.phase.k + 1)
  {
    hide OpsInv, CacheInv;
  }

  /** What write_log has just written reads back, also if it has gone past the log. */
  lemma CopiedReads(lay: Layout, m: nat, s: State)
    requires CanDo(lay, m, s, CopyOne) && lay.start + s.phase.k + 1 < |s.image|
    requires lay.start + s.phase.k + 1 in s.cache ==> Home(lay, s.image, lay.start + s.phase.k + 1)
    ensures Do(lay, m, s, CopyOne).Read(lay.start + s.phase.k + 1) == s.Read(s.bs[s.phase.k])
  {
    hide Home;
  }

  lemma InvParts(lay: Layout, s: State)
    requires Inv(lay, s)
    ensures OpsOK(s) && Durable(lay, s) && (s.Up() && s.ops != [] ==> s.phase.Running?)
  {
    InvDurable(lay, s);
    OpsIdle(s);
  }

  lemma KeepCall(lay: Layout, m: nat, s: State, e: Event)
    requires Inv(lay, s) && CanDo(lay, m, s, e) && AppendFits(lay, s, e)
    requires e.Begin? || e.Await? || e.Check? || e.Append? || e.End? || e.Fill? || e.Evict?
    ensures Inv(lay, Do(lay, m, s, e))
  {
    hide Inv, OpsOK, GoodHead, Loggable, Fits, WriteHead, Dirty, Absorb, Home, Durable, InRange, HeadBlocks, Replay;
    InvParts(lay, s);
    KeepOps(lay, m, s, e);
    var t := Do(lay, m, s, e);
    match e
    case Begin => KeepBegin(lay, s, t);
    case Await(p) => KeepAsleep(lay, s, t);
    case Check(i, b) =>
      if t.phase.Panicked? {
        KeepPanic(lay, s, t);
      } else {
        KeepCheck(lay, s, t, i, b);
      }
    case Append(i, v) => KeepAppend(lay, s, t, i, Write(s.ops[i].id, s.ops[i].passed.value, v));
    case End(i) => KeepEnd(lay, s, t, i);
    case Fill(b) => KeepCache(lay, s, t, b);
    case Evict(b) => KeepCache(lay, s, t, b);
  }

  lemma KeepCommit(lay: Layout, m: nat, s: State, e: Event)
    requires Inv(lay, s) && CanDo(lay, m, s, e)
    requires e.CopyOne? || e.WriteHeader? || e.InstallOne? || e.Erase? || e.Finish?
    ensures Inv(lay, Do(lay, m, s, e))
  {
    hide Inv, OpsOK, GoodHead, Loggable, Fits, WriteHead, Dirty, Absorb, Home, Durable, InRange, HeadBlocks, Replay;
    InvParts(lay, s);
    KeepOps(lay, m, s, e);
    var t := Do(lay, m, s, e);
    match e
    case CopyOne =>
      CopyInRange(lay, s);
      KeepCopyOne(lay, s, t, s.phase.k);
    case WriteHeader => KeepWriteHeader(lay, s, t);
    case InstallOne => KeepInstallOne(lay, s, t, s.phase.pre, s.phase.k);
    case Erase => KeepErase(lay, s, t);
    case Finish => KeepFinish(lay, s, t);
  }

  lemma KeepRecovery(lay: Layout, m: nat, s: State, e: Event)
    requires Inv(lay, s) && CanDo(lay, m, s, e)
    requires e.Crash? || e.RecoverOne? || e.RecoverEnd?
    ensures Inv(lay, Do(lay, m, s, e))
  {
    hide Inv, OpsOK, GoodHead, Loggable, Fits, WriteHead, Dirty, Absorb, Home, Durable, InRange, HeadBlocks, Replay;
    InvParts(lay, s);
    KeepOps(lay, m, s, e);
    var t := Do(lay, m, s, e);
    match e
    case Crash => KeepCrash(lay, s, t);
    case RecoverOne => KeepRecoverOne(lay, s, t, s.phase.pre, s.phase.k);
    case RecoverEnd => KeepRecoverEnd(lay, s, t);
  }

  /** Every event keeps the invariant, if the block an append lists has a place. */
  lemma Keep(lay: Layout, m: nat, s: State, e: Event)
    requires Inv(lay, s) && CanDo(lay, m, s, e) && AppendFits(lay, s, e)
    ensures Inv(lay, Do(lay, m, s, e))
  {
    hide Inv, CanDo, Do, AppendFits;
    match e
    case CopyOne => KeepCommit(lay, m, s, e);
    case WriteHeader => KeepCommit(lay, m, s, e);
    case InstallOne => KeepCommit(lay, m, s, e);
    case Erase => KeepCommit(lay, m, s, e);
    case Finish => KeepCommit(lay, m, s, e);
    case Crash => KeepRecovery(lay, m, s, e);
    case RecoverOne => KeepRecovery(lay, m, s, e);
    case RecoverEnd => KeepRecovery(lay, m, s, e);
    case _ => KeepCall(lay, m, s, e);
  }

  lemma KeepAsleep(lay: Layout, s: State, t: State)
    requires Inv(lay, s) && t == s.(asleep := t.asleep)
    ensures Inv(lay, t)
  {
    hide OpsInv, CacheInv, ClearInv, InstallInv, LogHolds;
  }

  lemma InitInv(lay: Layout, s: State)
    requires Init(lay, s)
    ensures Inv(lay, s)
  {
  }

  // ---------- whole runs ----------

  predicate Next(lay: Layout, m: nat, s: State, e: Event, t: State) {
    CanDo(lay, m, s, e) && t == Do(lay, m, s, e)
  }

  /** es leads from ss[0] through the states ss. */
  predicate Path(lay: Layout, m: nat, ss: seq<State>, es: seq<Event>) {
    && |ss| == |es| + 1
    && forall i {:trigger es[i]} :: 0 <= i < |es| ==> Next(lay, m, ss[i], es[i], ss[i + 1])
  }

  /** ss are the states of a run from boot, es its events. */
  predicate Run(lay: Layout, m: nat, ss: seq<State>, es: seq<Event>) {
    Path(lay, m, ss, es) && Init(lay, ss[0])
  }

  lemma Extend(lay: Layout, m: nat, ss: seq<State>, es: seq<Event>, e: Event, t: State)
    requires Run(lay, m, ss, es) && Next(lay, m, ss[|es|], e, t)
    ensures Run(lay, m, ss + [t], es + [e])
  {
    hide Next, Init;
    var ss', es' := ss + [t], es + [e];
    forall i {:trigger es'[i]} | 0 <= i < |es'| ensures Next(lay, m, ss'[i], es'[i], ss'[i + 1]) {
      if i < |es| {
        assert es[i] == es'[i];
      }
    }
  }

  lemma {:induction false} RunOps(lay: Layout, m: nat, ss: seq<State>, es: seq<Event>, i: nat)
    requires Run(lay, m, ss, es) && i < |ss|
    ensures OpsOK(ss[i])
  {
    if i > 0 {
      RunOps(lay, m, ss, es, i - 1);
      hide OpsOK, Init, CanDo, Do;
      var e := es[i - 1];
      KeepOps(lay, m, ss[i - 1], e);
    }
  }

  /** One event only ever extends the committed writes. */
  lemma CommittedGrows(lay: Layout, m: nat, s: State, e: Event, t: State)
    requires Next(lay, m, s, e, t) && s.cut <= |s.history|
    ensures t.cut <= |t.history| && s.history[..s.cut] <= t.history[..t.cut] && t.initial == s.initial
  {
  }

  /** Commit order: what is committed at any time stays, as a prefix of what is committed later. */
  lemma {:induction false} CommittedStays(lay: Layout, m: nat, ss: seq<State>, es: seq<Event>, i: nat, j: nat)
    requires Run(lay, m, ss, es) && i <= j < |ss|
    ensures ss[i].cut <= |ss[i].history| && ss[j].cut <= |ss[j].history|
    ensures ss[i].history[..ss[i].cut] <= ss[j].history[..ss[j].cut]
    ensures ss[i].initial == ss[j].initial
  {
    hide Next;
    if i < j {
      CommittedStays(lay, m, ss, es, i, j - 1);
      var e := es[j - 1];
      CommittedGrows(lay, m, ss[j - 1], e, ss[j]);
    } else if i > 0 {
      CommittedStays(lay, m, ss, es, i - 1, i - 1);
      var e := es[i - 1];
      CommittedGrows(lay, m, ss[i - 1], e, ss[i]);
    }
  }
}
