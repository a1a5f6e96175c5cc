/** The calls of the Log class as steps of the transition system: whatever program makes them,
    in whatever order, its calls spell out a run of GroupCommit, so what holds in every run
    holds of the class. */
module LogSteps {
  import opened Disk
  import opened Options
  import opened Params
  import opened LogSpec
  import opened Log
  import opened GroupCommit
  import opened LogSpace

  function Repeat(e: Event, n: nat): (es: seq<Event>) {
    seq(n, _ => e)
  }

  lemma RepeatNext(es: seq<Event>, e: Event, n: nat)
    requires n > 0
    ensures es + [e] + Repeat(e, n - 1) == es + Repeat(e, n)
  {
  }

  // ---------- the block writes of commit ----------

  /** k blocks of the transaction are copied, and nothing else has happened to the disk. */
  ghost predicate CopyAt(lay: Layout, s: State, d: Image, bs: seq<int>, vals: seq<Block>, k: nat) {
    && Fits(lay, d) && Loggable(lay, d, bs) && |vals| == |bs| && k <= |bs|
    && s.phase == Copying(k) && s.bs == bs && s.ops == []
    && s.image == CopyToLog(lay, d, vals, k) && HomeCoherent(lay, s.image, s.cache, bs)
    && forall i :: 0 <= i < |bs| ==> s.Read(bs[i]) == vals[i]
  }

  ghost predicate InstallAt(lay: Layout, s: State, c: Image, bs: seq<int>, k: nat) {
    && Fits(lay, c) && Loggable(lay, c, bs) && k <= |bs|
    && s.phase == Installing(c, k) && s.bs == bs && s.ops == []
    && s.image == Install(lay, c, bs, k) && HomeCoherent(lay, s.image, s.cache, bs[k..])
  }

  lemma CopyStep(lay: Layout, m: nat, s: State, d: Image, bs: seq<int>, vals: seq<Block>, k: nat) returns (t: State)
    requires CopyAt(lay, s, d, bs, vals, k) && k < |bs|
    ensures Next(lay, m, s, CopyOne, t) && CopyAt(lay, t, d, bs, vals, k + 1)
  {
    assert InLog(lay, lay.start + k + 1);
    assert forall i :: 0 <= i < |bs| ==> Home(lay, d, bs[i]);
    t := Do(lay, m, s, CopyOne);
  }

  lemma InstallStep(lay: Layout, m: nat, s: State, c: Image, bs: seq<int>, k: nat) returns (t: State)
    requires InstallAt(lay, s, c, bs, k) && k < |bs|
    ensures Next(lay, m, s, InstallOne, t) && InstallAt(lay, t, c, bs, k + 1)
  {
    assert InLog(lay, lay.start + k + 1) && Home(lay, c, bs[k]);
    t := Do(lay, m, s, InstallOne);
    assert bs[k..] == [bs[k]] + bs[k + 1..];
  }

  lemma {:induction false} CopyRun(lay: Layout, m: nat, ss: seq<State>, es: seq<Event>, d: Image, bs: seq<int>, vals: seq<Block>, k: nat)
    returns (ss': seq<State>)
    requires Run(lay, m, ss, es) && CopyAt(lay, ss[|es|], d, bs, vals, k)
    ensures var es' := es + Repeat(CopyOne, |bs| - k);
            Run(lay, m, ss', es') && CopyAt(lay, ss'[|es'|], d, bs, vals, |bs|)
    decreases |bs| - k
  {
    if k == |bs| {
      assert es + Repeat(CopyOne, 0) == es;
      ss' := ss;
    } else {
      hide Next, Init, CopyAt;
      var t := CopyStep(lay, m, ss[|es|], d, bs, vals, k);
      Extend(lay, m, ss, es, CopyOne, t);
      ss' := CopyRun(lay, m, ss + [t], es + [CopyOne], d, bs, vals, k + 1);
      RepeatNext(es, CopyOne, |bs| - k);
    }
  }

  lemma {:induction false} InstallRun(lay: Layout, m: nat, ss: seq<State>, es: seq<Event>, c: Image, bs: seq<int>, k: nat)
    returns (ss': seq<State>)
    requires Run(lay, m, ss, es) && InstallAt(lay, ss[|es|], c, bs, k)
    ensures var es' := es + Repeat(InstallOne, |bs| - k);
            Run(lay, m, ss', es') && InstallAt(lay, ss'[|es'|], c, bs, |bs|)
    decreases |bs| - k
  {
    if k == |bs| {
      assert es + Repeat(InstallOne, 0) == es;
      ss' := ss;
    } else {
      hide Next, Init, InstallAt;
      var t := InstallStep(lay, m, ss[|es|], c, bs, k);
      Extend(lay, m, ss, es, InstallOne, t);
      ss' := InstallRun(lay, m, ss + [t], es + [InstallOne], c, bs, k + 1);
      RepeatNext(es, InstallOne, |bs| - k);
    }
  }

  /** The disk writes of commit for n blocks, and the end of the commit. */
  function CommitEvents(n: nat): (es: seq<Event>) {
    if n == 0 then [Finish]
    else Repeat(CopyOne, n) + [WriteHeader] + Repeat(InstallOne, n) + [Erase, Finish]
  }

  /** Nothing is logged or outstanding, and the cache holds nothing newer than the disk. */
  ghost predicate Quiescent(lay: Layout, s: State) {
    s.phase.Running? && s.bs == [] && s.ops == [] && s.asleep == {} && HomeCoherent(lay, s.image, s.cache, [])
  }

  lemma HeaderStep(lay: Layout, m: nat, s: State, d: Image, bs: seq<int>, vals: seq<Block>) returns (t: State)
    requires CopyAt(lay, s, d, bs, vals, |bs|) && bs != []
    ensures Next(lay, m, s, WriteHeader, t) && InstallAt(lay, t, Committed(lay, d, bs, vals), bs, 0)
  {
    assert InLog(lay, lay.start);
    t := Do(lay, m, s, WriteHeader);
    assert bs[0..] == bs;
  }

  lemma EraseStep(lay: Layout, m: nat, s: State, c: Image, bs: seq<int>) returns (t: State)
    requires InstallAt(lay, s, c, bs, |bs|)
    ensures Next(lay, m, s, Erase, t) && t.phase.Erased? && t.bs == [] && t.ops == []
    ensures t.image == WriteHead(lay, Install(lay, c, bs, |bs|), []) && HomeCoherent(lay, t.image, t.cache, [])
  {
    assert InLog(lay, lay.start);
    t := Do(lay, m, s, Erase);
    assert bs[|bs|..] == [];
  }

  lemma FinishStep(lay: Layout, m: nat, s: State) returns (t: State)
    requires s.phase.Erased? && s.bs == [] && s.ops == [] && HomeCoherent(lay, s.image, s.cache, [])
    ensures Next(lay, m, s, Finish, t) && Quiescent(lay, t) && t.image == s.image
  {
    t := Do(lay, m, s, Finish);
  }

  /** commit as a run: from the moment the last operation has ended to the end of the commit. */
  lemma CommitRun(lay: Layout, m: nat, ss: seq<State>, es: seq<Event>, d: Image, bs: seq<int>, vals: seq<Block>)
    returns (ss': seq<State>)
    requires Run(lay, m, ss, es) && CopyAt(lay, ss[|es|], d, bs, vals, 0) && bs != []
    ensures var es' := es + CommitEvents(|bs|);
            && Run(lay, m, ss', es') && Quiescent(lay, ss'[|es'|])
            && ss'[|es'|].image == CommitEnd(lay, d, bs, vals)
  {
    hide Next, Init, CopyAt, InstallAt, HomeCoherent;
    var n := |bs|;
    CopyFits(lay, ss[|es|], d, bs, vals);
    ss' := CopyRun(lay, m, ss, es, d, bs, vals, 0);
    var es1 := es + Repeat(CopyOne, n);
    var t := HeaderStep(lay, m, ss'[|es1|], d, bs, vals);
    Extend(lay, m, ss', es1, WriteHeader, t);
    ss' := InstallRun(lay, m, ss' + [t], es1 + [WriteHeader], Committed(lay, d, bs, vals), bs, 0);
    var es2 := es1 + [WriteHeader] + Repeat(InstallOne, n);
    var u := EraseStep(lay, m, ss'[|es2|], Committed(lay, d, bs, vals), bs);
    Extend(lay, m, ss', es2, Erase, u);
    var v := FinishStep(lay, m, u);
    Extend(lay, m, ss' + [u], es2 + [Erase], Finish, v);
    ss' := ss' + [u] + [v];
    assert es2 + [Erase] + [Finish] == es + CommitEvents(n);
  }

  lemma CopyFits(lay: Layout, s: State, d: Image, bs: seq<int>, vals: seq<Block>)
    requires CopyAt(lay, s, d, bs, vals, 0)
    ensures Fits(lay, d) && Loggable(lay, d, bs) && |vals| == |bs|
  {
  }

  // ---------- recovery ----------

  ghost predicate RecoverAt(lay: Layout, s: State, d: Image, bs: seq<int>, k: nat) {
    && Fits(lay, d) && Loggable(lay, d, bs) && k <= |bs|
    && s.phase == Recovering(d, k) && s.bs == bs && s.ops == [] && s.asleep == {} && s.cache == map[]
    && s.image == Install(lay, d, bs, k)
  }

  lemma RecoverStep(lay: Layout, m: nat, s: State, d: Image, bs: seq<int>, k: nat) returns (t: State)
    requires RecoverAt(lay, s, d, bs, k) && k < |bs|
    ensures Next(lay, m, s, RecoverOne, t) && RecoverAt(lay, t, d, bs, k + 1)
  {
    assert InLog(lay, lay.start + k + 1) && Home(lay, d, bs[k]);
    t := Do(lay, m, s, RecoverOne);
  }

  lemma {:induction false} RecoverRun(lay: Layout, m: nat, ss: seq<State>, es: seq<Event>, d: Image, bs: seq<int>, k: nat)
    returns (ss': seq<State>)
    requires Run(lay, m, ss, es) && RecoverAt(lay, ss[|es|], d, bs, k)
    ensures var es' := es + Repeat(RecoverOne, |bs| - k);
            Run(lay, m, ss', es') && RecoverAt(lay, ss'[|es'|], d, bs, |bs|)
    decreases |bs| - k
  {
    if k == |bs| {
      assert es + Repeat(RecoverOne, 0) == es;
      ss' := ss;
    } else {
      hide Next, Init, RecoverAt;
      var t := RecoverStep(lay, m, ss[|es|], d, bs, k);
      Extend(lay, m, ss, es, RecoverOne, t);
      ss' := RecoverRun(lay, m, ss + [t], es + [RecoverOne], d, bs, k + 1);
      RepeatNext(es, RecoverOne, |bs| - k);
    }
  }

  /** Boot and recovery as a run. */
  lemma BootRun(lay: Layout, m: nat, d: Image) returns (ss: seq<State>)
    requires GoodHead(lay, d)
    ensures var es := Repeat(RecoverOne, |HeadBlocks(d[lay.start])|) + [RecoverEnd];
            Run(lay, m, ss, es) && Quiescent(lay, ss[|es|]) && ss[|es|].image == Recovered(lay, d)
  {
    var bs := HeadBlocks(d[lay.start]);
    var s := Booted(lay, State(d, map[], [], [], {}, Running, 0, Recovered(lay, d), [], 0));
    ss := RecoverRun(lay, m, [s], [], d, bs, 0);
    var es := Repeat(RecoverOne, |bs|);
    assert [] + es == es;
    var t := Do(lay, m, ss[|es|], RecoverEnd);
    Extend(lay, m, ss, es, RecoverEnd, t);
    ss := ss + [t];
  }

  // ---------- the class ----------

  /** What begin_op and end_op go by. */
  ghost predicate Books(log: Log, s: State)
    reads log
  {
    && s.Up() && log.committing == s.Committing() && log.outstanding == |s.ops| && log.sleepers == s.asleep
    && (!log.committing ==> log.n == |s.bs|)
  }

  /** Between calls the object is a state of the transition system: same disk, same list, and
      the same contents for every reader of a home block. */
  ghost predicate Matches(log: Log, s: State)
    reads log, log.dev, log.block
  {
    && Books(log, s) && s.phase.Running? && log.Valid()
    && log.dev.image == s.image && log.block[..log.n] == s.bs
    && HomeCoherent(log.lay, s.image, s.cache, s.bs)
    && forall b :: Home(log.lay, s.image, b) ==> s.Read(b) == LatestIn(log.dev.image, log.dev.cache, b)
  }

  /** The calls made so far are the events es of a run, which has led to the object as it is. */
  ghost predicate Tracks(log: Log, m: nat, ss: seq<State>, es: seq<Event>)
    reads log, log.dev, log.block
  {
    (Room(log.lay, m) || Quiet(log.lay, m)) && Run(log.lay, m, ss, es) && Matches(log, ss[|es|])
  }

  /** The state the object is in, to its callers. */
  lemma TracksSound(log: Log, m: nat, ss: seq<State>, es: seq<Event>)
    requires Tracks(log, m, ss, es)
    ensures var s := ss[|es|];
            && Sound(log.lay, s) && SleepersOK(s) && GoodHead(log.lay, log.dev.image) && s.cut <= |s.history|
            && SameHome(log.lay, Recovered(log.lay, log.dev.image), Replay(s.initial, s.history[..s.cut]))
            && |s.initial| == |log.dev.image|
            && forall b :: Home(log.lay, log.dev.image, b) ==>
                 LatestIn(log.dev.image, log.dev.cache, b) == Replay(s.initial, s.history)[b]
  {
    GroupCommitSafe(log.lay, m, ss, es, |es|);
    hide Run, Room, Quiet;
  }

  /** initlog. */
  method Start(dev: Device, lay: Layout, ghost m: nat) returns (log: Log, ghost ss: seq<State>, ghost es: seq<Event>)
    requires GoodHead(lay, dev.image) && dev.cache == map[] && (Room(lay, m) || Quiet(lay, m))
    modifies dev
    ensures fresh(log) && log.dev == dev && log.lay == lay && Tracks(log, m, ss, es)
    ensures es == Repeat(RecoverOne, |HeadBlocks(old(dev.image)[lay.start])|) + [RecoverEnd]
  {
    ghost var d := dev.image;
    ss := BootRun(lay, m, d);
    es := Repeat(RecoverOne, |HeadBlocks(d[lay.start])|) + [RecoverEnd];
    hide Run, Room, Quiet;
    log := new Log(dev, lay);
    assert log.block[..0] == [];
  }

  /** One pass of begin_op's loop: admitted exactly when the event Begin is possible. */
  method BeginOp(log: Log, p: int, ghost m: nat, ghost s: State) returns (admitted: bool, ghost t: State)
    requires Books(log, s)
    modifies log`outstanding, log`sleepers
    ensures admitted <==> CanDo(log.lay, m, s, Begin)
    ensures Next(log.lay, m, s, if admitted then Begin else Await(p), t) && Books(log, t)
    ensures old(Matches(log, s)) ==> Matches(log, t)
  {
    admitted := log.TryBeginOp(p);
    t := Do(log.lay, m, s, if admitted then Begin else Await(p));
  }

  /** The unlocked half of log_write: it panics exactly when the event Check does. */
  method WriteCheck(log: Log, i: nat, b: int, ghost m: nat, ghost s: State) returns (panicked: bool, ghost t: State)
    requires Matches(log, s) && CanDo(log.lay, m, s, Check(i, b))
    ensures panicked <==> Do(log.lay, m, s, Check(i, b)).phase.Panicked?
    ensures Next(log.lay, m, s, Check(i, b), t)
    ensures !panicked ==> Matches(log, t)
  {
    panicked := log.CheckWrite();
    t := Do(log.lay, m, s, Check(i, b));
  }

  /** The locked half of log_write: within the room of the run it never overruns the list. */
  method WriteAppend(log: Log, i: nat, b: int, data: Block, ghost m: nat, ghost ss: seq<State>, ghost es: seq<Event>)
    returns (ghost t: State)
    requires Tracks(log, m, ss, es) && CanDo(log.lay, m, ss[|es|], Append(i, data)) && ss[|es|].ops[i].passed == Some(b)
    modifies log`n, log.block, log.dev`cache
    ensures Tracks(log, m, ss + [t], es + [Append(i, data)])
    ensures log.block[..log.n] == Absorb(old(log.block[..log.n]), b) && log.dev.cache == old(log.dev.cache)[b := data]
  {
    ghost var s := ss[|es|];
    AppendPlace(log.lay, m, ss, es, i, b, data);
    hide Run, Room, Quiet;
    var overrun := log.AppendWrite(b, data);
    t := Do(log.lay, m, s, Append(i, data));
    Extend(log.lay, m, ss, es, Append(i, data), t);
  }

  /** What a passed check leaves to be appended is a home block with a place in the list. */
  lemma AppendPlace(lay: Layout, m: nat, ss: seq<State>, es: seq<Event>, i: nat, b: int, v: Block)
    requires (Room(lay, m) || Quiet(lay, m)) && Run(lay, m, ss, es)
    requires CanDo(lay, m, ss[|es|], Append(i, v)) && ss[|es|].ops[i].passed == Some(b)
    ensures Home(lay, ss[|es|].image, b) && (b in ss[|es|].bs || !TooFull(lay, ss[|es|].bs))
  {
    var s := ss[|es|];
    RunInv(lay, m, ss, es, |es|);
    if !Quiet(lay, m) {
      LogSpaceBound(lay, m, ss, es, |es|);
      RoomFits(lay, m, s, Append(i, v));
    }
  }

  /** end_op as a run: one event, or one event and the commit. */
  lemma EndRun(lay: Layout, m: nat, ss: seq<State>, es: seq<Event>, i: nat, vals: seq<Block>)
    returns (ss': seq<State>, es': seq<Event>)
    requires Run(lay, m, ss, es) && CanDo(lay, m, ss[|es|], End(i)) && ss[|es|].phase.Running?
    requires var s := ss[|es|];
             && Fits(lay, s.image) && Loggable(lay, s.image, s.bs) && HomeCoherent(lay, s.image, s.cache, s.bs)
             && |vals| == |s.bs| && forall k :: 0 <= k < |vals| ==> vals[k] == s.Read(s.bs[k])
    ensures es' == es + [End(i)] + if |ss[|es|].ops| == 1 then CommitEvents(|ss[|es|].bs|) else []
    ensures Run(lay, m, ss', es')
    ensures var s, t := ss[|es|], ss'[|es'|];
            if |s.ops| == 1 then
              Quiescent(lay, t) && t.image == if s.bs == [] then s.image else CommitEnd(lay, s.image, s.bs, vals)
            else
              t == s.(ops := s.ops[..i] + s.ops[i + 1..], asleep := {})
  {
    var s, t := ss[|es|], Do(lay, m, ss[|es|], End(i));
    Extend(lay, m, ss, es, End(i), t);
    ss', es' := ss + [t], es + [End(i)];
    if |s.ops| == 1 {
      if s.bs == [] {
        var u := Do(lay, m, t, Finish);
        Extend(lay, m, ss', es', Finish, u);
        ss' := ss' + [u];
      } else {
        assert CopyAt(lay, t, s.image, s.bs, vals, 0);
        hide Run, CommitEvents;
        ss' := CommitRun(lay, m, ss', es', s.image, s.bs, vals);
      }
      es' := es' + CommitEvents(|s.bs|);
    } else {
      assert es' + [] == es';
    }
  }

  /** end_op: the last operation's commits the list, block write by block write. */
  method EndOp(log: Log, i: nat, ghost m: nat, ghost ss: seq<State>, ghost es: seq<Event>)
    returns (panicked: bool, ghost ss': seq<State>, ghost es': seq<Event>)
    requires Tracks(log, m, ss, es) && CanDo(log.lay, m, ss[|es|], End(i))
    modifies log, log.dev
    ensures !panicked && Tracks(log, m, ss', es')
    ensures es' == es + [End(i)] + if |ss[|es|].ops| == 1 then CommitEvents(|ss[|es|].bs|) else []
  {
    hide Room, Quiet, Do, CommitEnd, CommitEvents, CommitTrace, Applied, SameHome, Init, Next;
    ghost var s, vals := ss[|es|], log.Vals();
    ss', es' := EndRun(log.lay, m, ss, es, i, vals);
    hide Run;
    panicked := log.EndOp();
  }
}
