/** The log over a cache of NBUF buffers: every log event works on buffers that are held, and logged
    blocks are not recycled until they are installed. When does bget run out of buffers? */
module LogBuffers {
  import opened Disk
  import opened Options
  import opened Params
  import opened Sets
  import opened LogSpec
  import opened Log
  import opened GroupCommit
  import opened LogSpace
  import opened LogRace

  /** The blocks flagged B_DIRTY. */
  ghost function PinnedIn(s: State): set<int> {
    if s.Up() then Elements(Dirty(s.phase, s.bs)) else {}
  }

  /** bufs are the blocks that have a buffer, refs the references to buffers; stuck is bget's panic. */
  datatype Joint = Joint(log: State, bufs: set<int>, refs: multiset<int>, stuck: bool) {
    ghost function Held(): set<int> { set b | b in refs }

    ghost function Pinned(): set<int> { PinnedIn(log) }

    ghost predicate Spare(v: int) { v in bufs && v !in Held() && v !in Pinned() }

    /** Every buffer is referenced or dirty. */
    ghost predicate Full() { |bufs| == NBUF && bufs <= Held() + Pinned() }
  }

  datatype Move =
    | Get(b: int, victim: int)   // bget of block b, which recycles victim if every buffer has a block
    | Put(b: int)                // brelse
    | Step(e: Event)             // an event of the log

  /** The blocks whose buffers an event of the log works on. */
  function Needs(lay: Layout, s: State, e: Event): set<int> {
    match e
    case Check(_, b) => {b}
    case Append(i, _) => if i < |s.ops| && s.ops[i].passed.Some? then {s.ops[i].passed.value} else {}
    case Fill(b) => {b}
    case CopyOne => if s.phase.Copying? && s.phase.k < |s.bs| then {lay.start + s.phase.k + 1, s.bs[s.phase.k]} else {}
    case InstallOne => if s.phase.Installing? && s.phase.k < |s.bs| then {lay.start + s.phase.k + 1, s.bs[s.phase.k]} else {}
    case RecoverOne => if s.phase.Recovering? && s.phase.k < |s.bs| then {lay.start + s.phase.k + 1, s.bs[s.phase.k]} else {}
    case WriteHeader => {lay.start}
    case Erase => {lay.start}
    case RecoverEnd => {lay.start}
    case _ => {}
  }

  /** At most h buffers are held when one more is asked for. */
  ghost predicate CanMove(lay: Layout, m: nat, h: nat, j: Joint, mv: Move) {
    && !j.stuck
    && match mv
       case Get(b, v) =>
         && (j.log.Up() || j.log.phase.Recovering?) && 0 <= b < |j.log.image| && |j.Held()| <= h
         && (b in j.bufs || |j.bufs| < NBUF || j.Full() || j.Spare(v))
       case Put(b) => b in j.refs && forall k :: 0 <= k < |j.log.ops| ==> j.log.ops[k].passed != Some(b)
       case Step(e) => CanDo(lay, m, j.log, e) && !e.Evict? && Needs(lay, j.log, e) <= j.Held()
  }

  ghost function Moved(lay: Layout, m: nat, h: nat, j: Joint, mv: Move): Joint
    requires CanMove(lay, m, h, j, mv)
  {
    match mv
    case Get(b, v) =>
      if b in j.bufs then j.(refs := j.refs + multiset{b})
      else if |j.bufs| < NBUF then j.(bufs := j.bufs + {b}, refs := j.refs + multiset{b})
      else if j.Full() then j.(stuck := true)
      else j.(log := j.log.(cache := j.log.cache - {v}), bufs := j.bufs - {v} + {b}, refs := j.refs + multiset{b})
    case Put(b) => j.(refs := j.refs - multiset{b})
    case Step(e) =>
      if e.Crash? then Joint(Do(lay, m, j.log, e), {}, multiset{}, false) else j.(log := Do(lay, m, j.log, e))
  }

  ghost predicate JNext(lay: Layout, m: nat, h: nat, j: Joint, mv: Move, j': Joint) {
    CanMove(lay, m, h, j, mv) && j' == Moved(lay, m, h, j, mv)
  }

  /** js are the states of a run of log and cache from boot. */
  ghost predicate JRun(lay: Layout, m: nat, h: nat, js: seq<Joint>, ms: seq<Move>) {
    && |js| == |ms| + 1 && Init(lay, js[0].log) && js[0] == Joint(js[0].log, {}, multiset{}, false)
    && forall i {:trigger ms[i]} :: 0 <= i < |ms| ==> JNext(lay, m, h, js[i], ms[i], js[i + 1])
  }

  // ---------- what every move keeps ----------

  ghost predicate JInv(j: Joint, m: nat) {
    && OpsOK(j.log) && SpaceInv(j.log, m)
    && |j.bufs| <= NBUF && j.Held() <= j.bufs && j.Pinned() <= j.bufs && j.log.cache.Keys <= j.bufs
  }

  ghost predicate IsPinned(s: State, c: int) {
    s.Up() && c in Dirty(s.phase, s.bs)
  }

  /** An event pins only a block whose buffer it works on. */
  lemma PinsOne(lay: Layout, m: nat, s: State, e: Event, t: State, c: int)
    requires OpsOK(s) && Next(lay, m, s, e, t) && !e.Crash? && IsPinned(t, c)
    ensures IsPinned(s, c) || c in Needs(lay, s, e)
  {
    hide OpsInv, WriteHead, Home, Fits, TooFull, HeadBlocks, Absorb;
    OpsIdle(s);
    match e
    case InstallOne => assert s.bs[s.phase.k..] == [s.bs[s.phase.k]] + s.bs[s.phase.k + 1..];
    case WriteHeader => assert s.bs[0..] == s.bs;
    case Finish => ErasedEmpty(s);
    case _ =>
  }

  lemma PinsNeeded(lay: Layout, m: nat, s: State, e: Event, t: State)
    requires OpsOK(s) && Next(lay, m, s, e, t) && !e.Crash?
    ensures PinnedIn(t) <= PinnedIn(s) + Needs(lay, s, e)
  {
    hide OpsOK, Next, Dirty, Needs;
    forall c | c in PinnedIn(t) ensures c in PinnedIn(s) + Needs(lay, s, e) {
      PinsOne(lay, m, s, e, t, c);
    }
  }

  lemma ErasedEmpty(s: State)
    requires OpsOK(s)
    ensures s.phase.Erased? ==> s.bs == []
  {
  }

  /** And caches only those. */
  lemma CachesNeeded(lay: Layout, m: nat, s: State, e: Event, t: State)
    requires Next(lay, m, s, e, t) && !e.Crash?
    ensures t.cache.Keys <= s.cache.Keys + Needs(lay, s, e)
  {
    hide WriteHead, Home, Fits, TooFull, Absorb, Dirty, HeadBlocks;
  }

  lemma KeepStep(lay: Layout, m: nat, h: nat, j: Joint, e: Event)
    requires m <= MAXOPBLOCKS && JInv(j, m) && CanMove(lay, m, h, j, Step(e))
    ensures JInv(Moved(lay, m, h, j, Step(e)), m)
  {
    hide OpsOK, SpaceInv, Do, CanDo, PinnedIn, Needs;
    KeepOps(lay, m, j.log, e);
    SpaceKept(lay, m, j.log, e, Do(lay, m, j.log, e));
    if e.Crash? {
      CrashEmpty(lay, m, j.log);
    } else {
      PinsNeeded(lay, m, j.log, e, Do(lay, m, j.log, e));
      CachesNeeded(lay, m, j.log, e, Do(lay, m, j.log, e));
    }
  }

  lemma CrashEmpty(lay: Layout, m: nat, s: State)
    requires CanDo(lay, m, s, Crash)
    ensures var t := Do(lay, m, s, Crash); PinnedIn(t) == {} && t.cache == map[]
  {
  }

  /** The books do not depend on what the cache holds. */
  lemma CacheFree(s: State, cache: map<int, Block>, m: nat)
    requires OpsOK(s) && SpaceInv(s, m)
    ensures OpsOK(s.(cache := cache)) && SpaceInv(s.(cache := cache), m) && PinnedIn(s.(cache := cache)) == PinnedIn(s)
  {
  }

  lemma KeepMove(lay: Layout, m: nat, h: nat, j: Joint, mv: Move)
    requires m <= MAXOPBLOCKS && JInv(j, m) && CanMove(lay, m, h, j, mv)
    ensures JInv(Moved(lay, m, h, j, mv), m)
  {
    hide OpsOK, SpaceInv, PinnedIn, CanDo, Do, Needs;
    match mv
    case Get(b, v) => CacheFree(j.log, j.log.cache - {v}, m);
    case Put(b) =>
    case Step(e) => KeepStep(lay, m, h, j, e);
  }

  lemma InitJoint(lay: Layout, m: nat, j: Joint)
    requires Init(lay, j.log) && j == Joint(j.log, {}, multiset{}, false)
    ensures JInv(j, m)
  {
    InitInv(lay, j.log);
    InitSpace(lay, m, j.log);
  }

  lemma {:induction false} JRunInv(lay: Layout, m: nat, h: nat, js: seq<Joint>, ms: seq<Move>, i: nat)
    requires m <= MAXOPBLOCKS && JRun(lay, m, h, js, ms) && i < |js|
    ensures JInv(js[i], m)
  {
    hide JInv, CanMove, Moved, Init;
    if i == 0 {
      InitJoint(lay, m, js[0]);
    } else {
      JRunInv(lay, m, h, js, ms, i - 1);
      var mv := ms[i - 1];
      KeepMove(lay, m, h, js[i - 1], mv);
    }
  }

  // ---------- enough buffers ----------

  lemma {:induction false} AtMost(qs: seq<int>)
    ensures |Elements(qs)| <= |qs|
  {
    if qs == [] {
      assert Elements(qs) == {};
    } else {
      var rest := qs[..|qs| - 1];
      AtMost(rest);
      assert Elements(qs) == Elements(rest) + {qs[|qs| - 1]};
    }
  }

  lemma FewPinned(s: State, m: nat)
    requires SpaceInv(s, m)
    ensures |PinnedIn(s)| <= MAXOPBLOCKS + 2 * m
  {
    if s.Up() {
      AtMost(Dirty(s.phase, s.bs));
      SlackFits(s, m);
    }
  }

  /** A full cache has 10 + 2m pinned and h held buffers at most. */
  lemma FullNeeds(j: Joint, m: nat, h: nat)
    requires SpaceInv(j.log, m) && j.Full() && |j.Held()| <= h
    ensures NBUF <= MAXOPBLOCKS + 2 * m + h
  {
    FewPinned(j.log, m);
    UnionCount(j.Held(), j.Pinned());
    SubsetCount(j.bufs, j.Held() + j.Pinned());
  }

  lemma {:induction false} NeverStuck(lay: Layout, m: nat, h: nat, js: seq<Joint>, ms: seq<Move>, i: nat)
    requires m <= MAXOPBLOCKS && MAXOPBLOCKS + 2 * m + h < NBUF && JRun(lay, m, h, js, ms) && i < |js|
    ensures !js[i].stuck
  {
    if i > 0 {
      NeverStuck(lay, m, h, js, ms, i - 1);
      JRunInv(lay, m, h, js, ms, i - 1);
      hide Init, CanDo, Do, OpsOK, SpaceInv, PinnedIn, Needs;
      var mv := ms[i - 1];
      if mv.Get? && js[i - 1].Full() {
        FullNeeds(js[i - 1], m, h);
      }
    }
  }

  // ---------- a run that needs too many ----------

  lemma JExtend(lay: Layout, m: nat, h: nat, js: seq<Joint>, ms: seq<Move>, mv: Move, j: Joint)
    requires JRun(lay, m, h, js, ms) && JNext(lay, m, h, js[|ms|], mv, j)
    ensures JRun(lay, m, h, js + [j], ms + [mv])
  {
    hide JNext, Init;
    var js', ms' := js + [j], ms + [mv];
    forall i {:trigger ms'[i]} | 0 <= i < |ms'| ensures JNext(lay, m, h, js'[i], ms'[i], js'[i + 1]) {
      if i < |ms| {
        assert ms[i] == ms'[i];
      }
    }
  }

  /** With a buffer to spare bget succeeds; a recycled buffer takes nothing pinned out of the cache. */
  lemma GetFresh(lay: Layout, m: nat, h: nat, j: Joint, b: int) returns (mv: Move, j': Joint)
    requires m <= MAXOPBLOCKS && JInv(j, m) && !j.stuck && (j.log.Up() || j.log.phase.Recovering?)
    requires 0 <= b < |j.log.image| && b !in j.bufs && |j.Held()| <= h && |j.Held() + j.Pinned()| < NBUF
    ensures JNext(lay, m, h, j, mv, j') && mv.Get? && JInv(j', m)
    ensures j'.refs == j.refs + multiset{b} && !j'.stuck && j'.bufs <= j.bufs + {b} && mv.victim !in j.Pinned()
    ensures j'.log == j.log || j'.log == j.log.(cache := j.log.cache - {mv.victim})
  {
    mv := Get(b, b);
    assert b !in j.Pinned();
    if |j.bufs| == NBUF {
      var v := Extra(j.bufs, j.Held() + j.Pinned());
      mv := Get(b, v);
      assert !j.Full();
    }
    KeepMove(lay, m, h, j, mv);
    j' := Moved(lay, m, h, j, mv);
  }

  /** A stage of the log reached with no buffer held and only its own blocks in the cache. */
  ghost predicate JStage(lay: Layout, m: nat, j: Joint, n: nat, sizes: seq<nat>) {
    && JInv(j, m) && Stage(lay, j.log, n, sizes) && j.refs == multiset{} && !j.stuck
    && forall b :: b in j.bufs ==> b == lay.start || Past(lay) < b <= Past(lay) + n
  }

  lemma StageCache(lay: Layout, s: State, n: nat, sizes: seq<nat>, v: int)
    requires Stage(lay, s, n, sizes) && v !in s.bs
    ensures Stage(lay, s.(cache := s.cache - {v}), n, sizes)
  {
    hide OpStage, Clear;
  }

  /** A step of the log, its buffers being held. */
  lemma LogStep(lay: Layout, m: nat, h: nat, js: seq<Joint>, ms: seq<Move>, e: Event, t: State) returns (j: Joint)
    requires m <= MAXOPBLOCKS && JRun(lay, m, h, js, ms) && Next(lay, m, js[|ms|].log, e, t)
    requires var j := js[|ms|]; !j.stuck && !e.Evict? && !e.Crash? && Needs(lay, j.log, e) <= j.Held() && JInv(j, m)
    ensures j == js[|ms|].(log := t) && JInv(j, m) && JRun(lay, m, h, js + [j], ms + [Step(e)])
  {
    hide JInv, Needs, Do, CanDo, Init;
    KeepMove(lay, m, h, js[|ms|], Step(e));
    j := Moved(lay, m, h, js[|ms|], Step(e));
    JExtend(lay, m, h, js, ms, Step(e), j);
  }

  ghost predicate Holding(lay: Layout, m: nat, j: Joint, n: nat, sizes: seq<nat>) {
    && JInv(j, m) && Stage(lay, j.log, n, sizes) && j.refs == multiset{Past(lay) + n + 1} && !j.stuck
    && forall b :: b in j.bufs ==> b == lay.start || Past(lay) < b <= Past(lay) + n + 1
  }

  lemma StagePins(lay: Layout, m: nat, j: Joint, n: nat, sizes: seq<nat>)
    requires JStage(lay, m, j, n, sizes)
    ensures j.log.phase.Running? && |j.log.image| == Past(lay) + LOGSIZE + 2 && j.Held() == {}
    ensures |j.Held() + j.Pinned()| <= n && forall v :: v !in j.Pinned() ==> v !in j.log.bs
  {
    AtMost(j.log.bs);
    hide JInv, OpStage, Clear;
    assert j.Held() + j.Pinned() == Elements(j.log.bs);
  }

  /** bread of the block to be logged next. */
  lemma JHold(lay: Layout, m: nat, h: nat, js: seq<Joint>, ms: seq<Move>, n: nat, sizes: seq<nat>)
    returns (js': seq<Joint>, ms': seq<Move>)
    requires m <= MAXOPBLOCKS && JRun(lay, m, h, js, ms) && JStage(lay, m, js[|ms|], n, sizes) && n < Capacity(lay)
    ensures JRun(lay, m, h, js', ms') && Holding(lay, m, js'[|ms'|], n, sizes)
  {
    hide JInv, Init, Stage, JNext;
    var j, b := js[|ms|], Past(lay) + n + 1;
    StagePins(lay, m, j, n, sizes);
    var mv, j' := GetFresh(lay, m, h, j, b);
    StageCache(lay, j.log, n, sizes, mv.victim);
    JExtend(lay, m, h, js, ms, mv, j');
    js', ms' := js + [j'], ms + [mv];
  }

  /** log_write of the block that is held, and its brelse. */
  lemma JLogHeld(lay: Layout, m: nat, h: nat, js: seq<Joint>, ms: seq<Move>, n: nat, sizes: seq<nat>, i: nat)
    returns (js': seq<Joint>, ms': seq<Move>)
    requires m <= MAXOPBLOCKS && JRun(lay, m, h, js, ms) && Holding(lay, m, js[|ms|], n, sizes)
    requires i < |sizes| && sizes[i] < m && n < Capacity(lay)
    ensures JRun(lay, m, h, js', ms') && JStage(lay, m, js'[|ms'|], n + 1, sizes[i := sizes[i] + 1])
  {
    var j, b := js[|ms|], Past(lay) + n + 1;
    var t, u := StageLog(lay, m, j.log, n, sizes, i);
    hide JInv, Init, Stage, Shape, OpStage, Next;
    assert b in j.Held();
    var j1 := LogStep(lay, m, h, js, ms, Check(i, b), t);
    js', ms' := js + [j1], ms + [Step(Check(i, b))];
    var j2 := LogStep(lay, m, h, js', ms', Append(i, Uniform(1)), u);
    js', ms' := js' + [j2], ms' + [Step(Append(i, Uniform(1)))];
    StageIdle(lay, u, n + 1, sizes[i := sizes[i] + 1]);
    KeepMove(lay, m, h, j2, Put(b));
    var j3 := Moved(lay, m, h, j2, Put(b));
    JExtend(lay, m, h, js', ms', Put(b), j3);
    js', ms' := js' + [j3], ms' + [Put(b)];
  }

  lemma StageIdle(lay: Layout, s: State, n: nat, sizes: seq<nat>)
    requires Stage(lay, s, n, sizes)
    ensures forall k :: 0 <= k < |s.ops| ==> s.ops[k].passed == None
  {
    forall k | 0 <= k < |s.ops| ensures s.ops[k].passed == None { assert OpStage(s.ops[k], s.bs, sizes[k]); }
  }

  lemma {:induction false} JLogMany(lay: Layout, m: nat, h: nat, js: seq<Joint>, ms: seq<Move>, n: nat, sizes: seq<nat>, i: nat, c: nat)
    returns (js': seq<Joint>, ms': seq<Move>)
    requires m <= MAXOPBLOCKS && JRun(lay, m, h, js, ms) && JStage(lay, m, js[|ms|], n, sizes)
    requires i < |sizes| && sizes[i] + c <= m && n + c <= Capacity(lay)
    ensures JRun(lay, m, h, js', ms') && JStage(lay, m, js'[|ms'|], n + c, sizes[i := sizes[i] + c])
    decreases c
  {
    hide JRun, JStage;
    if c == 0 {
      assert sizes[i := sizes[i] + c] == sizes;
      js', ms' := js, ms;
    } else {
      js', ms' := JHold(lay, m, h, js, ms, n, sizes);
      js', ms' := JLogHeld(lay, m, h, js', ms', n, sizes, i);
      var sizes' := sizes[i := sizes[i] + 1];
      assert sizes'[i := sizes'[i] + (c - 1)] == sizes[i := sizes[i] + c];
      js', ms' := JLogMany(lay, m, h, js', ms', n + 1, sizes', i, c - 1);
    }
  }

  /** An event that works on no buffer leads from stage to stage. */
  lemma JPlain(lay: Layout, m: nat, h: nat, js: seq<Joint>, ms: seq<Move>, n: nat, sizes: seq<nat>, e: Event, t: State, sizes': seq<nat>)
    returns (js': seq<Joint>, ms': seq<Move>)
    requires m <= MAXOPBLOCKS && JRun(lay, m, h, js, ms) && JStage(lay, m, js[|ms|], n, sizes)
    requires (e.Begin? || e.End?) && Next(lay, m, js[|ms|].log, e, t) && Stage(lay, t, n, sizes')
    ensures JRun(lay, m, h, js', ms') && JStage(lay, m, js'[|ms'|], n, sizes')
  {
    hide JInv, Init, Stage, Next;
    var j := LogStep(lay, m, h, js, ms, e, t);
    js', ms' := js + [j], ms + [Step(e)];
  }

  /** Boot on a blank disk. */
  lemma JBoot(lay: Layout, m: nat, h: nat) returns (js: seq<Joint>, ms: seq<Move>)
    requires m <= MAXOPBLOCKS && 1 <= lay.size
    ensures JRun(lay, m, h, js, ms) && JStage(lay, m, js[|ms|], 0, [])
  {
    var ss, es := Boot(lay, m);
    var e := es[0];
    assert ss[0].phase.Recovering? && 0 <= lay.start < |ss[0].image| by { hide Do, CanDo; }
    hide CanDo, Do, Stage;
    var j0 := Joint(ss[0], {}, multiset{}, false);
    InitJoint(lay, m, j0);
    hide JInv, Init;
    js, ms := [j0], [];
    assert j0.Held() == {};
    var mv := Get(lay.start, lay.start);
    KeepMove(lay, m, h, j0, mv);
    var j1 := Moved(lay, m, h, j0, mv);
    JExtend(lay, m, h, js, ms, mv, j1);
    js, ms := js + [j1], ms + [mv];
    assert lay.start in j1.Held();
    var j2 := LogStep(lay, m, h, js, ms, RecoverEnd, ss[1]);
    js, ms := js + [j2], ms + [Step(RecoverEnd)];
    StageIdle(lay, ss[1], 0, []);
    KeepMove(lay, m, h, j2, Put(lay.start));
    var j3 := Moved(lay, m, h, j2, Put(lay.start));
    JExtend(lay, m, h, js, ms, Put(lay.start), j3);
    js, ms := js + [j3], ms + [Put(lay.start)];
  }

  lemma JEnd(lay: Layout, m: nat, h: nat, js: seq<Joint>, ms: seq<Move>)
    requires JRun(lay, m, h, js, ms)
    ensures |js| == |ms| + 1
  {
  }

  /** With one operation open, t short operations log a block each. */
  lemma {:induction false} JShortOps(lay: Layout, m: nat, h: nat, t: nat) returns (js: seq<Joint>, ms: seq<Move>)
    requires 1 <= m <= MAXOPBLOCKS && 1 <= lay.size && t <= MAXOPBLOCKS && t <= Capacity(lay)
    ensures JRun(lay, m, h, js, ms) && JStage(lay, m, js[|ms|], t, [0])
  {
    hide Stage, Next, JInv, JNext, Init;
    if t == 0 {
      js, ms := JBoot(lay, m, h);
      JEnd(lay, m, h, js, ms);
      hide JRun;
      var u := BeginOne(lay, m, js[|ms|].log, 0, []);
      assert [] + [0] == [0];
      js, ms := JPlain(lay, m, h, js, ms, 0, [], Begin, u, [0]);
    } else {
      js, ms := JShortOps(lay, m, h, t - 1);
      JEnd(lay, m, h, js, ms);
      hide JRun;
      var u := BeginOne(lay, m, js[|ms|].log, t - 1, [0]);
      assert [0] + [0] == [0, 0];
      js, ms := JPlain(lay, m, h, js, ms, t - 1, [0], Begin, u, [0, 0]);
      js, ms := JLogMany(lay, m, h, js, ms, t - 1, [0, 0], 1, 1);
      assert [0, 0][1 := 1] == [0, 1];
      JEnd(lay, m, h, js, ms);
      var v := EndOne(lay, m, js[|ms|].log, t, 0, 1);
      js, ms := JPlain(lay, m, h, js, ms, t, [0, 1], End(1), v, [0]);
    }
  }

  /** All 10 + 2m blocks are logged, with no buffer held. */
  lemma JReach(lay: Layout, m: nat, h: nat) returns (js: seq<Joint>, ms: seq<Move>)
    requires 1 <= m && Room(lay, m)
    ensures JRun(lay, m, h, js, ms) && JStage(lay, m, js[|ms|], MAXOPBLOCKS + 2 * m, [m, m])
  {
    hide Stage, Next, JInv, JNext, Init;
    js, ms := JShortOps(lay, m, h, MAXOPBLOCKS);
    JEnd(lay, m, h, js, ms);
    hide JRun;
    var u := BeginOne(lay, m, js[|ms|].log, MAXOPBLOCKS, [0]);
    assert [0] + [0] == [0, 0];
    js, ms := JPlain(lay, m, h, js, ms, MAXOPBLOCKS, [0], Begin, u, [0, 0]);
    js, ms := JLogMany(lay, m, h, js, ms, MAXOPBLOCKS, [0, 0], 0, m);
    assert [0, 0][0 := m] == [m, 0];
    js, ms := JLogMany(lay, m, h, js, ms, MAXOPBLOCKS + m, [m, 0], 1, m);
    assert [m, 0][1 := m] == [m, m];
  }

  /** d blocks are pinned, i clean ones held. */
  ghost predicate Filling(lay: Layout, m: nat, j: Joint, d: nat, i: nat) {
    && JInv(j, m) && !j.stuck && j.log.phase.Running? && |j.log.image| == Past(lay) + LOGSIZE + 2
    && |j.Pinned()| == d && |j.Held()| == i
    && (forall b :: b in j.Pinned() ==> b <= Past(lay) + d)
    && (forall b :: b in j.Held() ==> Past(lay) + d < b <= Past(lay) + d + i)
    && (forall b :: b in j.bufs ==> b <= Past(lay) + d + i)
  }

  lemma FillStart(lay: Layout, m: nat, j: Joint, d: nat, sizes: seq<nat>)
    requires JStage(lay, m, j, d, sizes)
    ensures Filling(lay, m, j, d, 0)
  {
    assert Distinct(j.log.bs);
    DistinctCount(j.log.bs);
    hide OpsOK, SpaceInv, OpStage, Clear;
    assert j.Held() == {};
  }

  lemma FillOne(lay: Layout, m: nat, h: nat, j: Joint, d: nat, i: nat) returns (mv: Move, j': Joint)
    requires m <= MAXOPBLOCKS && Filling(lay, m, j, d, i) && d + i < NBUF && i <= h
    ensures JNext(lay, m, h, j, mv, j') && Filling(lay, m, j', d, i + 1)
  {
    var b := Past(lay) + d + i + 1;
    UnionCount(j.Held(), j.Pinned());
    assert b !in j.Held();
    hide JInv, PinnedIn;
    mv, j' := GetFresh(lay, m, h, j, b);
    assert j'.Held() == j.Held() + {b};
    SamePinned(j.log, mv.victim);
  }

  lemma SamePinned(s: State, v: int)
    ensures PinnedIn(s.(cache := s.cache - {v})) == PinnedIn(s)
  {
  }

  lemma {:induction false} FillAll(lay: Layout, m: nat, h: nat, js: seq<Joint>, ms: seq<Move>, d: nat, i: nat)
    returns (js': seq<Joint>, ms': seq<Move>)
    requires m <= MAXOPBLOCKS && JRun(lay, m, h, js, ms) && Filling(lay, m, js[|ms|], d, i) && d + i <= NBUF <= d + h
    ensures JRun(lay, m, h, js', ms') && Filling(lay, m, js'[|ms'|], d, NBUF - d)
    decreases NBUF - i
  {
    hide Filling, JNext;
    if d + i == NBUF {
      js', ms' := js, ms;
    } else {
      var mv, j := FillOne(lay, m, h, js[|ms|], d, i);
      JExtend(lay, m, h, js, ms, mv, j);
      js', ms' := FillAll(lay, m, h, js + [j], ms + [mv], d, i + 1);
    }
  }

  /** One more bget panics. */
  lemma FillLast(lay: Layout, m: nat, h: nat, j: Joint, d: nat) returns (mv: Move, j': Joint)
    requires d <= NBUF <= d + h && Filling(lay, m, j, d, NBUF - d)
    ensures JNext(lay, m, h, j, mv, j') && j'.stuck
  {
    assert forall b :: b in j.Held() ==> b !in j.Pinned();
    UnionCount(j.Held(), j.Pinned());
    FullSubset(j.Held() + j.Pinned(), j.bufs);
    mv := Get(Past(lay) + NBUF + 1, 0);
    j' := Moved(lay, m, h, j, mv);
  }

  /** With as many buffers held as the log leaves unpinned, bget panics. */
  lemma StuckRun(lay: Layout, m: nat, h: nat) returns (js: seq<Joint>, ms: seq<Move>)
    requires 1 <= m && Room(lay, m) && MAXOPBLOCKS + 2 * m + h >= NBUF
    ensures JRun(lay, m, h, js, ms) && js[|ms|].stuck
  {
    var d := MAXOPBLOCKS + 2 * m;
    js, ms := JReach(lay, m, h);
    JEnd(lay, m, h, js, ms);
    hide JRun, JStage, Filling, JNext;
    FillStart(lay, m, js[|ms|], d, [m, m]);
    js, ms := FillAll(lay, m, h, js, ms, d, 0);
    JEnd(lay, m, h, js, ms);
    var mv, j := FillLast(lay, m, h, js[|ms|], d);
    JExtend(lay, m, h, js, ms, mv, j);
    js, ms := js + [j], ms + [mv];
  }

  ghost predicate BgetNeverPanics(lay: Layout, m: nat, h: nat) {
    forall js: seq<Joint>, ms, i :: JRun(lay, m, h, js, ms) && 0 <= i < |js| ==> !js[i].stuck
  }

  /** When the reservation has room: bget never panics for lack of buffers, whatever is logged and read,
      if and only if 10 + 2m pinned buffers and the h held when one more is asked for are fewer than NBUF. */
  lemma BgetFreeIff(lay: Layout, m: nat, h: nat)
    requires 1 <= m && Room(lay, m)
    ensures BgetNeverPanics(lay, m, h) <==> MAXOPBLOCKS + 2 * m + h < NBUF
  {
    hide JRun;
    if MAXOPBLOCKS + 2 * m + h < NBUF {
      forall js: seq<Joint>, ms, i | JRun(lay, m, h, js, ms) && 0 <= i < |js| ensures !js[i].stuck {
        NeverStuck(lay, m, h, js, ms, i);
      }
    } else {
      var js, ms := StuckRun(lay, m, h);
      JEnd(lay, m, h, js, ms);
      assert js[|ms|].stuck;
    }
  }
}
