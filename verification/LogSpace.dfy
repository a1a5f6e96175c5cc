/** The space reservation of begin_op: how full the log gets when no operation logs more than
    a given number of distinct blocks, what group commit guarantees then, and exactly when
    log_write can panic or the log can be written past its end. */
module LogSpace {
  import opened Disk
  import opened Options
  import opened Params
  import opened LogSpec
  import opened Log
  import opened GroupCommit

  /** What the outstanding operations may still log if each may log c blocks. */
  function Slack(ops: seq<Op>, c: nat): int {
    if ops == [] then 0 else Slack(ops[..|ops| - 1], c) + c - |ops[|ops| - 1].logged|
  }

  lemma {:induction false} SlackUpdate(ops: seq<Op>, c: nat, i: nat, op: Op)
    requires i < |ops|
    ensures Slack(ops[i := op], c) == Slack(ops, c) + |ops[i].logged| - |op.logged|
  {
    var n := |ops| - 1;
    if i == n {
      assert ops[i := op][..n] == ops[..n];
    } else {
      assert ops[i := op][..n] == ops[..n][i := op];
      SlackUpdate(ops[..n], c, i, op);
    }
  }

  lemma {:induction false} SlackRemove(ops: seq<Op>, c: nat, i: nat)
    requires i < |ops|
    ensures Slack(ops[..i] + ops[i + 1..], c) == Slack(ops, c) - c + |ops[i].logged|
  {
    var n := |ops| - 1;
    if i == n {
      assert ops[..i] + ops[i + 1..] == ops[..n];
    } else {
      var rest := ops[..i] + ops[i + 1..];
      assert rest[..|rest| - 1] == ops[..n][..i] + ops[..n][i + 1..];
      SlackRemove(ops[..n], c, i);
    }
  }

  lemma {:induction false} SlackBounds(ops: seq<Op>, c: nat)
    requires forall k :: 0 <= k < |ops| ==> |ops[k].logged| <= c
    ensures 0 <= Slack(ops, c) <= |ops| * c
  {
    if ops != [] {
      SlackBounds(ops[..|ops| - 1], c);
      assert |ops| * c == (|ops| - 1) * c + c;
    }
  }

  /** While operations run, the logged blocks and what may still come fit in 10 + 2c. */
  ghost predicate SpaceInv(s: State, c: nat) {
    && (forall k :: 0 <= k < |s.ops| ==> OpFits(s.ops[k], s.bs, c))
    && (s.Up() ==> |s.bs| + Slack(s.ops, c) <= MAXOPBLOCKS + 2 * c)
  }

  ghost predicate OpFits(op: Op, bs: seq<int>, c: nat) {
    && |op.logged| <= c && (forall b :: b in op.logged ==> b in bs)
    && (op.passed.Some? ==> |op.logged + {op.passed.value}| <= c)
  }

  lemma SpaceBegin(lay: Layout, c: nat, s: State, t: State)
    requires c <= MAXOPBLOCKS && OpsOK(s) && SpaceInv(s, c) && Next(lay, c, s, Begin, t)
    ensures SpaceInv(t, c)
  {
    SlackBounds(s.ops, c);
    assert t.ops[..|s.ops|] == s.ops;
    var k := |s.ops|;
    assert Slack(t.ops, c) <= k * c + c;
    if k > 0 {
      assert k * (MAXOPBLOCKS - c) >= MAXOPBLOCKS - c;
      assert k * c == k * MAXOPBLOCKS - k * (MAXOPBLOCKS - c);
    } else {
      assert s.bs == [];
    }
  }

  lemma SpaceCheck(lay: Layout, c: nat, s: State, i: nat, b: int, t: State)
    requires SpaceInv(s, c) && Next(lay, c, s, Check(i, b), t)
    ensures SpaceInv(t, c)
  {
    if !t.phase.Panicked? {
      SlackUpdate(s.ops, c, i, t.ops[i]);
    }
  }

  lemma SpaceAppend(lay: Layout, c: nat, s: State, i: nat, v: Block, t: State)
    requires SpaceInv(s, c) && Next(lay, c, s, Append(i, v), t)
    ensures SpaceInv(t, c)
  {
    if !t.phase.Overrun? {
      var b := s.ops[i].passed.value;
      SlackUpdate(s.ops, c, i, t.ops[i]);
      assert OpFits(s.ops[i], s.bs, c);
      if b in s.ops[i].logged {
        assert s.ops[i].logged + {b} == s.ops[i].logged;
      }
      forall k | 0 <= k < |t.ops| ensures OpFits(t.ops[k], t.bs, c) {
        assert OpFits(s.ops[k], s.bs, c);
      }
    }
  }

  lemma SpaceEnd(lay: Layout, c: nat, s: State, i: nat, t: State)
    requires OpsOK(s) && SpaceInv(s, c) && Next(lay, c, s, End(i), t)
    ensures SpaceInv(t, c)
  {
    OpsIdle(s);
    hide OpsOK;
    SlackRemove(s.ops, c, i);
    assert OpFits(s.ops[i], s.bs, c);
    if |s.ops| == 1 {
      assert s.ops[..i] + s.ops[i + 1..] == [];
    }
  }

  /** Steps that neither add to the log nor touch the open operations. */
  lemma SpaceOther(lay: Layout, c: nat, s: State, e: Event, t: State)
    requires OpsOK(s) && SpaceInv(s, c) && Next(lay, c, s, e, t)
    requires !e.Begin? && !e.Check? && !e.Append? && !e.End?
    ensures SpaceInv(t, c)
  {
    OpsIdle(s);
    hide OpsOK, OpFits;
    if !(e.Crash? || e.RecoverEnd? || e.RecoverOne?) {
      assert t.ops == s.ops && |t.bs| <= |s.bs| && (t.Up() ==> s.Up());
      assert s.ops != [] ==> t.bs == s.bs;
    } else if e.RecoverEnd? || e.RecoverOne? {
      NoneOpen(s);
    }
  }

  lemma SpaceKept(lay: Layout, c: nat, s: State, e: Event, t: State)
    requires c <= MAXOPBLOCKS && OpsOK(s) && SpaceInv(s, c) && Next(lay, c, s, e, t)
    ensures SpaceInv(t, c)
  {
    hide OpsOK, SpaceInv, Next;
    match e
    case Begin => SpaceBegin(lay, c, s, t);
    case Check(i, b) => SpaceCheck(lay, c, s, i, b, t);
    case Append(i, v) => SpaceAppend(lay, c, s, i, v, t);
    case End(i) => SpaceEnd(lay, c, s, i, t);
    case _ => SpaceOther(lay, c, s, e, t);
  }

  /** Log space: with operations of at most c distinct blocks the reservation of
      MAXOPBLOCKS each keeps n plus what is still to come within 10 + 2c (LOGSIZE for
      c = MAXOPBLOCKS, 28 for c = 9), in every state of every run, whatever the size of the log. */
  lemma {:induction false} LogSpaceBound(lay: Layout, c: nat, ss: seq<State>, es: seq<Event>, i: nat)
    requires c <= MAXOPBLOCKS && Run(lay, c, ss, es) && i < |ss|
    ensures SpaceInv(ss[i], c)
    ensures ss[i].Up() ==> |ss[i].bs| <= MAXOPBLOCKS + 2 * c
  {
    hide OpsOK, Next, Init, OpFits;
    if i == 0 {
      InitSpace(lay, c, ss[0]);
    } else {
      LogSpaceBound(lay, c, ss, es, i - 1);
      RunOps(lay, c, ss, es, i - 1);
      var e := es[i - 1];
      SpaceKept(lay, c, ss[i - 1], e, ss[i]);
    }
    SlackFits(ss[i], c);
  }

  lemma SlackFits(s: State, c: nat)
    requires forall k :: 0 <= k < |s.ops| ==> OpFits(s.ops[k], s.bs, c)
    ensures Slack(s.ops, c) >= 0
  {
    SlackBounds(s.ops, c);
  }

  lemma InitSpace(lay: Layout, c: nat, s: State)
    requires Init(lay, s)
    ensures SpaceInv(s, c)
  {
  }

  // ---------- group commit, when the reservation is honoured ----------

  /** 10 + 2m blocks fit the list in memory and the log on disk. */
  predicate Room(lay: Layout, m: nat) {
    MAXOPBLOCKS + 2 * m <= LOGSIZE && MAXOPBLOCKS + 2 * m <= lay.size - 1
  }

  /** With room there is a place for the block whose check was passed, however many checks
      were passed at the same time. */
  lemma RoomFits(lay: Layout, m: nat, s: State, e: Event)
    requires Room(lay, m) && SpaceInv(s, m) && s.Up()
    ensures AppendFits(lay, s, e)
  {
    if e.Append? && e.i < |s.ops| && s.ops[e.i].passed.Some? && s.ops[e.i].passed.value !in s.bs {
      var i := e.i;
      var b := s.ops[i].passed.value;
      var op := s.ops[i].(logged := s.ops[i].logged + {b});
      assert OpFits(s.ops[i], s.bs, m);
      assert b !in s.ops[i].logged;
      SlackUpdate(s.ops, m, i, op);
      var ops := s.ops[i := op];
      forall k | 0 <= k < |ops| ensures |ops[k].logged| <= m {
        assert OpFits(s.ops[k], s.bs, m);
      }
      SlackBounds(ops, m);
    }
  }

  /** No check can be passed: the log is a header only, or operations log nothing. */
  predicate Quiet(lay: Layout, m: nat) { lay.size <= 1 || m == 0 }

  ghost predicate NonePassed(ops: seq<Op>) {
    forall k :: 0 <= k < |ops| ==> ops[k].passed == None
  }

  lemma QuietKept(lay: Layout, m: nat, s: State, e: Event, t: State)
    requires Quiet(lay, m) && NonePassed(s.ops) && Next(lay, m, s, e, t)
    ensures NonePassed(t.ops)
  {
  }

  /** In every state of every run the invariant of the log holds. */
  lemma {:induction false} RunInv(lay: Layout, m: nat, ss: seq<State>, es: seq<Event>, i: nat)
    requires (Room(lay, m) || Quiet(lay, m)) && Run(lay, m, ss, es) && i < |ss|
    ensures Inv(lay, ss[i]) && (Quiet(lay, m) ==> NonePassed(ss[i].ops))
  {
    hide Inv, CanDo, Do, Init, Room, Quiet, NonePassed, AppendFits;
    if i == 0 {
      InitInv(lay, ss[0]);
      InitNone(lay, ss[0]);
    } else {
      RunInv(lay, m, ss, es, i - 1);
      var e := es[i - 1];
      StepFits(lay, m, ss, es, i - 1);
      Keep(lay, m, ss[i - 1], e);
      if Quiet(lay, m) {
        QuietKept(lay, m, ss[i - 1], e, ss[i]);
      }
    }
  }

  lemma InitNone(lay: Layout, s: State)
    requires Init(lay, s)
    ensures NonePassed(s.ops)
  {
  }

  lemma StepFits(lay: Layout, m: nat, ss: seq<State>, es: seq<Event>, i: nat)
    requires (Room(lay, m) || Quiet(lay, m)) && Run(lay, m, ss, es) && i < |es|
    requires Quiet(lay, m) ==> NonePassed(ss[i].ops)
    ensures AppendFits(lay, ss[i], es[i])
  {
    hide Init, SpaceInv;
    var e := es[i];
    if !Quiet(lay, m) && e.Append? {
      LogSpaceBound(lay, m, ss, es, i);
      RoomFits(lay, m, ss[i], e);
    }
  }

  /** A state in which nothing is lost: the disk, recovered now, holds the writes before the cut
      and no others; those are whole operations; and reads return the latest writes. */
  ghost predicate Sound(lay: Layout, s: State) {
    && !s.phase.Overrun? && Durable(lay, s) && WholeOps(s.history, s.cut, s.ops, s.nextId)
    && (s.Up() ==> |s.initial| == |s.image|)
    && (s.Up() ==> forall b :: Home(lay, s.image, b) ==> s.Read(b) == Replay(s.initial, s.history)[b])
  }

  /** Whoever sleeps in begin_op could not be admitted, and someone is left to wake it. */
  ghost predicate SleepersOK(s: State) {
    && (s.Up() && s.asleep != {} ==> !Admits(s) && (s.Committing() || s.ops != []))
    && (s.phase.Recovering? ==> s.asleep == {})
  }

  lemma SleepersKept(lay: Layout, m: nat, s: State, e: Event, t: State)
    requires OpsOK(s) && SleepersOK(s) && Next(lay, m, s, e, t)
    ensures SleepersOK(t)
  {
    OpsIdle(s);
    KeepOps(lay, m, s, e);
    assert t.phase.Running? && t.ops == [] ==> t.bs == [];
    hide OpsInv;
  }

  lemma {:induction false} RunSleepers(lay: Layout, m: nat, ss: seq<State>, es: seq<Event>, i: nat)
    requires Run(lay, m, ss, es) && i < |ss|
    ensures SleepersOK(ss[i])
  {
    hide OpsOK, Next, SleepersOK;
    if i == 0 {
      assert SleepersOK(ss[0]) by { InitAwake(lay, ss[0]); }
    } else {
      RunSleepers(lay, m, ss, es, i - 1);
      RunOps(lay, m, ss, es, i - 1);
      var e := es[i - 1];
      SleepersKept(lay, m, ss[i - 1], e, ss[i]);
    }
  }

  lemma InitAwake(lay: Layout, s: State)
    requires Init(lay, s)
    ensures SleepersOK(s)
  {
  }

  lemma InvSound(lay: Layout, s: State)
    requires Inv(lay, s)
    ensures Sound(lay, s) && (s.Committing() ==> s.ops == []) && (s.Up() ==> Distinct(s.bs))
    ensures s.phase.Running? && s.ops == [] ==> s.cut == |s.history|
  {
    InvDurable(lay, s);
    assert s.cut < |s.history| ==> s.history[s.cut].blk in s.bs;
    hide Durable, InstallInv, ClearInv, LogHolds;
  }

  /** Group commit: when the reservation has room, every state of every run is sound; commit
      excludes outstanding operations; listed blocks are distinct; an idle log has everything
      committed; the panic in end_op never happens; nobody is left asleep in begin_op. */
  lemma GroupCommitSafe(lay: Layout, m: nat, ss: seq<State>, es: seq<Event>, i: nat)
    requires (Room(lay, m) || Quiet(lay, m)) && Run(lay, m, ss, es) && i < |ss|
    ensures var s := ss[i];
            && Sound(lay, s)
            && (s.Committing() ==> s.ops == [])
            && (s.Up() ==> Distinct(s.bs))
            && (s.phase.Running? && s.ops == [] ==> s.cut == |s.history|)
            && SleepersOK(s)
            && (i < |es| && es[i].End? ==> !ss[i + 1].phase.Panicked?)
  {
    hide Inv, Sound, SleepersOK, Room, Quiet, CanDo, Do, Init;
    RunInv(lay, m, ss, es, i);
    InvSound(lay, ss[i]);
    RunSleepers(lay, m, ss, es, i);
    if i < |es| {
      RunOps(lay, m, ss, es, i);
      var e := es[i];
      KeepOps(lay, m, ss[i], e);
    }
  }

  /** The only ways to panic are the check of log_write, when n has reached LOGSIZE or
      log.size - 1, and a write past the end of the disk. */
  lemma PanicNeedsFullLog(lay: Layout, m: nat, s: State, e: Event, t: State)
    requires OpsOK(s) && Next(lay, m, s, e, t) && !s.phase.Panicked?
    ensures t.phase.Panicked? <==>
              || (e.Check? && (|s.bs| >= LOGSIZE || |s.bs| >= lay.size - 1))
              || (e.CopyOne? && lay.start + s.phase.k + 1 >= |s.image|)
  {
    OpsIdle(s);
    hide OpsOK;
  }
}
