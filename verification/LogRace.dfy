/** The runs that break the log when the reservation has no room, built event by event, and
    with them the exact conditions: when log_write can panic, and when its check, made before
    log.lock is taken, lets the log be written past its end. */
module LogRace {
  import opened Disk
  import opened Options
  import opened Params
  import opened Sets
  import opened LogSpec
  import opened Log
  import opened GroupCommit
  import opened LogSpace

  function Uniform(w: int): Block {
    Block(seq(BLOCK_WORDS, _ => w))
  }

  /** How many blocks log_write lets into the log: the list has LOGSIZE entries, the disk
      size - 1 log blocks. */
  function Capacity(lay: Layout): int {
    if LOGSIZE <= lay.size - 1 then LOGSIZE else lay.size - 1
  }

  /** The first block after the log; the runs below log only blocks beyond it. */
  function Past(lay: Layout): int { lay.start + lay.size }

  ghost predicate Shape(lay: Layout, s: State) {
    && Clear(lay, s.image) && |s.image| == |s.initial| == Past(lay) + LOGSIZE + 2
    && s.initial[Past(lay)] == s.image[Past(lay)] == Uniform(0) && Past(lay) !in s.cache && s.cut == 0
    && (forall j :: 0 <= j < |s.history| ==> s.history[j].blk != Past(lay))
    && (forall b :: b in s.bs ==> Past(lay) < b <= Past(lay) + |s.bs| && b in s.cache && s.cache[b] == Uniform(1))
  }

  /** n blocks are logged, and the open operations have logged as many as sizes says. */
  ghost predicate Stage(lay: Layout, s: State, n: nat, sizes: seq<nat>) {
    && Shape(lay, s) && s.phase.Running? && |s.bs| == n && |s.ops| == |sizes|
    && (forall k :: 0 <= k < |sizes| ==> OpStage(s.ops[k], s.bs, sizes[k]))
  }

  ghost predicate OpStage(op: Op, bs: seq<int>, size: nat) {
    |op.logged| == size && op.passed == None && forall b :: b in op.logged ==> b in bs
  }

  /** Boot on a blank disk and recover. */
  lemma Boot(lay: Layout, m: nat) returns (ss: seq<State>, es: seq<Event>)
    requires 1 <= lay.size
    ensures Run(lay, m, ss, es) && es == [RecoverEnd] && Stage(lay, ss[1], 0, [])
  {
    var image := seq(Past(lay) + LOGSIZE + 2, _ => Uniform(0));
    assert HeadBlocks(Uniform(0)) == [];
    var s := Booted(lay, State(image, map[], [], [], {}, Running, 0, Recovered(lay, image), [], 0));
    var t := Do(lay, m, s, RecoverEnd);
    Extend(lay, m, [s], [], RecoverEnd, t);
    ss, es := [s] + [t], [] + [RecoverEnd];
  }

  lemma BeginOne(lay: Layout, m: nat, s: State, n: nat, sizes: seq<nat>) returns (t: State)
    requires Stage(lay, s, n, sizes) && n + (|sizes| + 1) * MAXOPBLOCKS <= LOGSIZE
    ensures Next(lay, m, s, Begin, t) && Stage(lay, t, n, sizes + [0])
  {
    t := Do(lay, m, s, Begin);
    hide Shape, OpStage;
    assert OpStage(Op(s.nextId, {}, None), s.bs, 0) by { NewStage(s.nextId, s.bs); }
  }

  lemma NewStage(id: nat, bs: seq<int>)
    ensures OpStage(Op(id, {}, None), bs, 0)
  {
  }

  lemma EndOne(lay: Layout, m: nat, s: State, n: nat, a: nat, c: nat) returns (t: State)
    requires Stage(lay, s, n, [a, c])
    ensures Next(lay, m, s, End(1), t) && Stage(lay, t, n, [a])
  {
    assert OpStage(s.ops[1], s.bs, [a, c][1]) && OpStage(s.ops[0], s.bs, [a, c][0]);
    t := Do(lay, m, s, End(1));
    hide Shape;
  }

  lemma CheckOne(lay: Layout, m: nat, s: State, i: nat, b: int) returns (t: State)
    requires Shape(lay, s) && s.phase.Running? && i < |s.ops| && s.ops[i].passed == None && |s.bs| < Capacity(lay)
    requires Past(lay) < b < |s.image| && |s.ops[i].logged| < m
    requires forall k :: 0 <= k < |s.ops| ==> s.ops[k].passed != Some(b)
    ensures Next(lay, m, s, Check(i, b), t) && Shape(lay, t)
    ensures t == s.(ops := s.ops[i := s.ops[i].(passed := Some(b))])
  {
    assert |s.ops[i].logged + {b}| <= |s.ops[i].logged| + 1;
    t := Do(lay, m, s, Check(i, b));
  }

  lemma AppendOne(lay: Layout, m: nat, s: State, i: nat) returns (t: State)
    requires Shape(lay, s) && s.phase.Running? && i < |s.ops| && s.ops[i].passed == Some(Past(lay) + |s.bs| + 1)
    ensures Next(lay, m, s, Append(i, Uniform(1)), t)
    ensures if |s.bs| >= LOGSIZE then t.phase.Overrun? else
            && Shape(lay, t) && t.phase.Running? && t.bs == s.bs + [Past(lay) + |s.bs| + 1]
            && t.ops == s.ops[i := s.ops[i].(logged := s.ops[i].logged + {Past(lay) + |s.bs| + 1}, passed := None)]
  {
    t := Do(lay, m, s, Append(i, Uniform(1)));
  }

  /** The two halves of log_write at a stage. */
  lemma StageLog(lay: Layout, m: nat, s: State, n: nat, sizes: seq<nat>, i: nat) returns (t: State, u: State)
    requires Stage(lay, s, n, sizes) && i < |sizes| && sizes[i] < m && n < Capacity(lay)
    ensures Next(lay, m, s, Check(i, Past(lay) + n + 1), t) && Next(lay, m, t, Append(i, Uniform(1)), u)
    ensures i < |t.ops| && t.ops[i].passed == Some(Past(lay) + n + 1)
    ensures Stage(lay, u, n + 1, sizes[i := sizes[i] + 1])
  {
    hide Next, Shape;
    var b := Past(lay) + n + 1;
    forall k | 0 <= k < |s.ops| ensures s.ops[k].passed == None { assert OpStage(s.ops[k], s.bs, sizes[k]); }
    ShapeFresh(lay, s);
    t := CheckOne(lay, m, s, i, b);
    u := AppendOne(lay, m, t, i);
    forall k | 0 <= k < |sizes| ensures OpStage(u.ops[k], u.bs, sizes[i := sizes[i] + 1][k]) {
      assert OpStage(s.ops[k], s.bs, sizes[k]);
    }
  }

  /** Operation i logs one more block. */
  lemma LogOne(lay: Layout, m: nat, ss: seq<State>, es: seq<Event>, n: nat, sizes: seq<nat>, i: nat)
    returns (ss': seq<State>, es': seq<Event>)
    requires Run(lay, m, ss, es) && Stage(lay, ss[|es|], n, sizes) && i < |sizes| && sizes[i] < m && n < Capacity(lay)
    ensures Run(lay, m, ss', es') && Stage(lay, ss'[|es'|], n + 1, sizes[i := sizes[i] + 1])
  {
    hide Next, Init, Stage;
    var b := Past(lay) + n + 1;
    var t, u := StageLog(lay, m, ss[|es|], n, sizes, i);
    Extend(lay, m, ss, es, Check(i, b), t);
    Extend(lay, m, ss + [t], es + [Check(i, b)], Append(i, Uniform(1)), u);
    ss', es' := ss + [t] + [u], es + [Check(i, b)] + [Append(i, Uniform(1))];
  }

  lemma ShapeFresh(lay: Layout, s: State)
    requires Shape(lay, s)
    ensures |s.image| == Past(lay) + LOGSIZE + 2 && Past(lay) + |s.bs| + 1 !in s.bs
  {
  }

  lemma {:induction false} LogMany(lay: Layout, m: nat, ss: seq<State>, es: seq<Event>, n: nat, sizes: seq<nat>, i: nat, c: nat)
    returns (ss': seq<State>, es': seq<Event>)
    requires Run(lay, m, ss, es) && Stage(lay, ss[|es|], n, sizes) && i < |sizes|
    requires sizes[i] + c <= m && n + c <= Capacity(lay)
    ensures Run(lay, m, ss', es') && Stage(lay, ss'[|es'|], n + c, sizes[i := sizes[i] + c])
    decreases c
  {
    hide Run, Stage;
    if c == 0 {
      assert sizes[i := sizes[i] + c] == sizes;
      ss', es' := ss, es;
    } else {
      ss', es' := LogOne(lay, m, ss, es, n, sizes, i);
      var sizes' := sizes[i := sizes[i] + 1];
      assert sizes'[i := sizes'[i] + (c - 1)] == sizes[i := sizes[i] + c];
      ss', es' := LogMany(lay, m, ss', es', n + 1, sizes', i, c - 1);
    }
  }

  /** With one operation open, t short operations log a block each. */
  lemma {:induction false} ShortOps(lay: Layout, m: nat, t: nat) returns (ss: seq<State>, es: seq<Event>)
    requires m >= 1 && 1 <= lay.size && t <= MAXOPBLOCKS && t <= Capacity(lay)
    ensures Run(lay, m, ss, es) && Stage(lay, ss[|es|], t, [0])
  {
    hide Run, Stage, Next;
    if t == 0 {
      ss, es := Boot(lay, m);
      RunEnd(lay, m, ss, es);
      var u := BeginOne(lay, m, ss[|es|], 0, []);
      Extend(lay, m, ss, es, Begin, u);
      ss, es := ss + [u], es + [Begin];
      assert [] + [0] == [0];
    } else {
      ss, es := ShortOps(lay, m, t - 1);
      RunEnd(lay, m, ss, es);
      var u := BeginOne(lay, m, ss[|es|], t - 1, [0]);
      Extend(lay, m, ss, es, Begin, u);
      assert [0] + [0] == [0, 0];
      ss, es := LogOne(lay, m, ss + [u], es + [Begin], t - 1, [0, 0], 1);
      assert [0, 0][1 := 1] == [0, 1];
      RunEnd(lay, m, ss, es);
      var v := EndOne(lay, m, ss[|es|], t, 0, 1);
      Extend(lay, m, ss, es, End(1), v);
      ss, es := ss + [v], es + [End(1)];
    }
  }

  lemma RunEnd(lay: Layout, m: nat, ss: seq<State>, es: seq<Event>)
    requires Run(lay, m, ss, es)
    ensures |ss| == |es| + 1
  {
  }

  /** Two operations open, which have logged a and c of the n blocks: possible whenever
      n is at most 10 + a + c. */
  lemma Reach(lay: Layout, m: nat, n: nat, a: nat, c: nat) returns (ss: seq<State>, es: seq<Event>)
    requires m >= 1 && 1 <= lay.size && a <= m && c <= m && a + c <= n <= MAXOPBLOCKS + a + c && n <= Capacity(lay)
    ensures Run(lay, m, ss, es) && Stage(lay, ss[|es|], n, [a, c])
  {
    hide Run, Stage, Next;
    var t := n - a - c;
    ss, es := ShortOps(lay, m, t);
    RunEnd(lay, m, ss, es);
    var u := BeginOne(lay, m, ss[|es|], t, [0]);
    Extend(lay, m, ss, es, Begin, u);
    assert [0] + [0] == [0, 0];
    ss, es := LogMany(lay, m, ss + [u], es + [Begin], t, [0, 0], 0, a);
    assert [0, 0][0 := a] == [a, 0];
    ss, es := LogMany(lay, m, ss, es, t + a, [a, 0], 1, c);
    assert [a, 0][1 := c] == [a, c];
  }

  // ---------- the panic of log_write ----------

  lemma PanicRun(lay: Layout, m: nat) returns (ss: seq<State>, es: seq<Event>)
    requires m >= 1 && 1 <= lay.size && Capacity(lay) <= MAXOPBLOCKS + 2 * m
    ensures Run(lay, m, ss, es) && ss[|es|].phase.Panicked?
  {
    var n := Capacity(lay);
    var a := if n <= m then n else m;
    var c := if n - a <= m then n - a else m;
    ss, es := Reach(lay, m, n, a, c);
    hide Run, Shape;
    RunEnd(lay, m, ss, es);
    var s := ss[|es|];
    assert OpStage(s.ops[0], s.bs, [a, c][0]) && OpStage(s.ops[1], s.bs, [a, c][1]);
    var b := Past(lay) + 1;
    if a > 0 {
      b := AgainOne(s.ops[0], s.bs, a);
    }
    ShapeHome(lay, s, b);
    var t := Do(lay, m, s, Check(0, b));
    Extend(lay, m, ss, es, Check(0, b), t);
    ss, es := ss + [t], es + [Check(0, b)];
  }

  /** A block logged before can be logged again without counting twice. */
  lemma AgainOne(op: Op, bs: seq<int>, size: nat) returns (b: int)
    requires OpStage(op, bs, size) && size > 0
    ensures b in bs && |op.logged + {b}| == size
  {
    b := Pick(op.logged);
    assert op.logged + {b} == op.logged;
  }

  lemma ShapeHome(lay: Layout, s: State, b: int)
    requires Shape(lay, s) && (b == Past(lay) + 1 || b in s.bs) && |s.bs| <= LOGSIZE
    ensures Home(lay, s.image, b)
  {
  }

  ghost predicate NeverPanics(lay: Layout, m: nat) {
    forall ss: seq<State>, es, i :: Run(lay, m, ss, es) && 0 <= i < |ss| ==> !ss[i].phase.Panicked?
  }

  lemma {:induction false} NoPanic(lay: Layout, m: nat, ss: seq<State>, es: seq<Event>, i: nat)
    requires (m == 0 || MAXOPBLOCKS + 2 * m < Capacity(lay)) && Run(lay, m, ss, es) && i < |ss|
    ensures !ss[i].phase.Panicked?
  {
    if i > 0 {
      NoPanic(lay, m, ss, es, i - 1);
      hide Init, Inv, OpsOK, SpaceInv, Next;
      LogSpaceBound(lay, m, ss, es, i - 1);
      RunInv(lay, m, ss, es, i - 1);
      RunOps(lay, m, ss, es, i - 1);
      var e := es[i - 1];
      PanicNeedsFullLog(lay, m, ss[i - 1], e, ss[i]);
      CanCheck(lay, m, ss[i - 1], e, ss[i]);
    }
  }

  lemma CanCheck(lay: Layout, m: nat, s: State, e: Event, t: State)
    requires Inv(lay, s) && Next(lay, m, s, e, t)
    ensures e.Check? ==> s.Up() && m > 0
    ensures e.CopyOne? ==> s.phase.Copying? && lay.start + s.phase.k + 1 < |s.image|
  {
    hide Inv;
    if e.CopyOne? {
      CopyInRange(lay, s);
    }
  }

  /** No run panics exactly when 10 + 2m stays below what log_write lets in (or nothing is
      logged). With the log mkfs makes (nlog = LOGSIZE) that is m < MAXOPBLOCKS: the limit
      the name promises is one too many. */
  lemma PanicFreeIff(lay: Layout, m: nat)
    requires 1 <= lay.size
    ensures NeverPanics(lay, m) <==> m == 0 || MAXOPBLOCKS + 2 * m < Capacity(lay)
    ensures lay.size == LOGSIZE ==> (NeverPanics(lay, m) <==> m < MAXOPBLOCKS)
  {
    hide Run;
    if m == 0 || MAXOPBLOCKS + 2 * m < Capacity(lay) {
      forall ss: seq<State>, es, i | Run(lay, m, ss, es) && 0 <= i < |ss| ensures !ss[i].phase.Panicked? {
        NoPanic(lay, m, ss, es, i);
      }
    } else {
      var ss, es := PanicRun(lay, m);
      RunEnd(lay, m, ss, es);
      assert ss[|es|].phase.Panicked?;
    }
  }

  // ---------- the race of two log_writes ----------

  /** The blocks are being copied to the log, k of them done, past its end if there are more
      than size - 1. */
  ghost predicate CopyStage(lay: Layout, s: State, k: nat) {
    && Shape(lay, s) && s.phase == Copying(k) && k < |s.bs| == lay.size
  }

  lemma CopyInside(lay: Layout, m: nat, s: State, k: nat) returns (t: State)
    requires CopyStage(lay, s, k) && k < lay.size - 1
    ensures Next(lay, m, s, CopyOne, t) && CopyStage(lay, t, k + 1)
  {
    t := Do(lay, m, s, CopyOne);
    assert s.bs[k] in s.bs;
  }

  /** A block no operation wrote is lost, on disk and for every reader. */
  ghost predicate Corrupt(lay: Layout, s: State, b: int) {
    && Home(lay, s.image, b) && |s.initial| == |s.image| && s.Up()
    && (forall j :: 0 <= j < |s.history| ==> s.history[j].blk != b)
    && s.Read(b) != s.initial[b] && !Durable(lay, s)
  }

  lemma CopyBeyond(lay: Layout, m: nat, s: State) returns (t: State)
    requires 1 <= lay.size && CopyStage(lay, s, lay.size - 1)
    ensures Next(lay, m, s, CopyOne, t) && Corrupt(lay, t, Past(lay))
  {
    t := Do(lay, m, s, CopyOne);
    assert s.bs[lay.size - 1] in s.bs;
    assert Uniform(1).words[0] != Uniform(0).words[0];
    RecoverClear(lay, t.image);
    assert Home(lay, t.image, Past(lay));
  }

  lemma {:induction false} CopyAll(lay: Layout, m: nat, ss: seq<State>, es: seq<Event>, k: nat)
    returns (ss': seq<State>, es': seq<Event>)
    requires Run(lay, m, ss, es) && CopyStage(lay, ss[|es|], k)
    ensures Run(lay, m, ss', es') && Corrupt(lay, ss'[|es'|], Past(lay))
    decreases lay.size - k
  {
    RunEnd(lay, m, ss, es);
    assert k < lay.size;
    hide Run, CopyStage, Corrupt, Next;
    if k == lay.size - 1 {
      var t := CopyBeyond(lay, m, ss[|es|]);
      Extend(lay, m, ss, es, CopyOne, t);
      ss', es' := ss + [t], es + [CopyOne];
    } else {
      var t := CopyInside(lay, m, ss[|es|], k);
      Extend(lay, m, ss, es, CopyOne, t);
      ss', es' := CopyAll(lay, m, ss + [t], es + [CopyOne], k + 1);
    }
  }

  /** Both operations pass the check while one block fits, then both append. */
  lemma RaceAppends(lay: Layout, m: nat, ss: seq<State>, es: seq<Event>, a: nat, c: nat)
    returns (ss': seq<State>, es': seq<Event>)
    requires Run(lay, m, ss, es) && a < m && c < m && 2 <= lay.size
    requires Stage(lay, ss[|es|], Capacity(lay) - 1, [a, c])
    ensures Run(lay, m, ss', es')
    ensures var s := ss'[|es'|];
            if Capacity(lay) == LOGSIZE then s.phase.Overrun?
            else Shape(lay, s) && s.phase.Running? && |s.bs| == lay.size && |s.ops| == 2
                 && s.ops[0].passed == s.ops[1].passed == None
  {
    var s := ss[|es|];
    assert OpStage(s.ops[0], s.bs, [a, c][0]) && OpStage(s.ops[1], s.bs, [a, c][1]);
    var b := Past(lay) + |s.bs| + 1;
    assert |s.image| == Past(lay) + LOGSIZE + 2;
    hide Shape, Next, Init, OpStage;
    var t := CheckOne(lay, m, s, 0, b);
    Extend(lay, m, ss, es, Check(0, b), t);
    var u := CheckOne(lay, m, t, 1, b + 1);
    ss', es' := ss + [t], es + [Check(0, b)];
    Extend(lay, m, ss', es', Check(1, b + 1), u);
    ss', es' := ss' + [u], es' + [Check(1, b + 1)];
    var v := AppendOne(lay, m, u, 0);
    Extend(lay, m, ss', es', Append(0, Uniform(1)), v);
    ss', es' := ss' + [v], es' + [Append(0, Uniform(1))];
    var w := AppendOne(lay, m, v, 1);
    Extend(lay, m, ss', es', Append(1, Uniform(1)), w);
    ss', es' := ss' + [w], es' + [Append(1, Uniform(1))];
  }

  lemma EndBoth(lay: Layout, m: nat, ss: seq<State>, es: seq<Event>) returns (ss': seq<State>, es': seq<Event>)
    requires Run(lay, m, ss, es) && 2 <= lay.size
    requires var s := ss[|es|];
             Shape(lay, s) && s.phase.Running? && |s.bs| == lay.size && |s.ops| == 2 && s.ops[0].passed == s.ops[1].passed == None
    ensures Run(lay, m, ss', es') && CopyStage(lay, ss'[|es'|], 0)
  {
    var s := ss[|es|];
    var t := Do(lay, m, s, End(0));
    var u := Do(lay, m, t, End(0));
    hide Init;
    Extend(lay, m, ss, es, End(0), t);
    Extend(lay, m, ss + [t], es + [End(0)], End(0), u);
    ss', es' := ss + [t] + [u], es + [End(0)] + [End(0)];
  }

  /** Without room two log_writes race past the end of the log: either the list in memory
      overruns, or commit overwrites the first block after the log. With the log mkfs makes
      that block holds inodes. */
  lemma RaceRun(lay: Layout, m: nat) returns (ss: seq<State>, es: seq<Event>)
    requires m >= 1 && 2 <= lay.size && !Room(lay, m)
    ensures Run(lay, m, ss, es) && (ss[|es|].phase.Overrun? || Corrupt(lay, ss[|es|], Past(lay)))
  {
    hide Run, Stage, Shape, CopyStage, Corrupt;
    var n := Capacity(lay) - 1;
    var a := if n <= m - 1 then n else m - 1;
    var c := if n - a <= m - 1 then n - a else m - 1;
    ss, es := Reach(lay, m, n, a, c);
    ss, es := RaceAppends(lay, m, ss, es, a, c);
    if Capacity(lay) != LOGSIZE {
      ss, es := EndBoth(lay, m, ss, es);
      ss, es := CopyAll(lay, m, ss, es, 0);
    }
  }

  ghost predicate AlwaysSound(lay: Layout, m: nat) {
    forall ss: seq<State>, es, i :: Run(lay, m, ss, es) && 0 <= i < |ss| ==> Sound(lay, ss[i])
  }

  /** Every state of every run is sound exactly when the reservation has room for 10 + 2m
      blocks, or nothing can be logged at all. With the log mkfs makes that is m < MAXOPBLOCKS. */
  lemma SoundIff(lay: Layout, m: nat)
    requires 1 <= lay.size
    ensures AlwaysSound(lay, m) <==> Room(lay, m) || Quiet(lay, m)
    ensures lay.size == LOGSIZE ==> (AlwaysSound(lay, m) <==> m < MAXOPBLOCKS)
  {
    hide Run, Sound;
    if Room(lay, m) || Quiet(lay, m) {
      forall ss: seq<State>, es, i | Run(lay, m, ss, es) && 0 <= i < |ss| ensures Sound(lay, ss[i]) {
        GroupCommitSafe(lay, m, ss, es, i);
      }
    } else {
      var ss, es := RaceRun(lay, m);
      RunEnd(lay, m, ss, es);
      NotSound(lay, ss[|es|]);
    }
  }

  lemma NotSound(lay: Layout, s: State)
    requires s.phase.Overrun? || Corrupt(lay, s, Past(lay))
    ensures !Sound(lay, s)
  {
  }
}
