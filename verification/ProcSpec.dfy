/** proc.c: the process table as a state machine. One event is what happens under one hold of
    ptable.lock, or one unlocked store of fork. */
module ProcSpec {
  import opened Params

  datatype RunState = Unused | Embryo | Sleeping | Runnable | Running | Zombie

  /** What a process sleeps on; wait sleeps on the process's own table entry. */
  datatype Chan = NoChan | Entry(p: int) | Other(c: int)

  /** Where a process is in fork (with the slot it is making) or wait. */
  datatype Task = Idle | Forking(np: int) | Adopting(np: int) | Waiting

  const NONE := -1

  datatype Proc = Proc(state: RunState, pid: int, parent: int, chan: Chan, task: Task, killed: bool)

  datatype Table = Table(procs: seq<Proc>, nextpid: int, init: int)

  predicate Started(s: RunState) {
    s == Sleeping || s == Runnable || s == Running || s == Zombie
  }

  predicate Alive(s: RunState) {
    s == Sleeping || s == Runnable || s == Running
  }

  // ---------- effects ----------

  /** wakeup1 */
  function Woken(procs: seq<Proc>, chan: Chan): (r: seq<Proc>)
    ensures |r| == |procs|
    ensures forall i :: 0 <= i < |procs| ==>
      r[i] == if procs[i].state == Sleeping && procs[i].chan == chan then procs[i].(state := Runnable) else procs[i]
  {
    seq(|procs|, i requires 0 <= i < |procs| =>
      if procs[i].state == Sleeping && procs[i].chan == chan then procs[i].(state := Runnable) else procs[i])
  }

  function Orphaned(procs: seq<Proc>, p: int, init: int): (r: seq<Proc>)
    ensures |r| == |procs|
    ensures forall i :: 0 <= i < |procs| ==> r[i] == if procs[i].parent == p then procs[i].(parent := init) else procs[i]
  {
    seq(|procs|, i requires 0 <= i < |procs| => if procs[i].parent == p then procs[i].(parent := init) else procs[i])
  }

  predicate HasZombie(procs: seq<Proc>, p: int) {
    exists i :: 0 <= i < |procs| && procs[i].parent == p && procs[i].state == Zombie
  }

  predicate HasKid(procs: seq<Proc>, p: int) {
    exists i :: 0 <= i < |procs| && procs[i].parent == p
  }

  function Exited(procs: seq<Proc>, p: int, init: int): (r: seq<Proc>)
    requires 0 <= p < |procs|
    ensures |r| == |procs|
  {
    var woken := Woken(procs, Entry(procs[p].parent));
    var passed := Orphaned(woken, p, init);
    var told := if HasZombie(woken, p) then Woken(passed, Entry(init)) else passed;
    told[p := told[p].(state := Zombie)]
  }

  /** The scan of allocproc from slot i on. */
  function FirstUnused(procs: seq<Proc>, i: int): (r: int)
    requires 0 <= i <= |procs|
    ensures r == NONE || (i <= r < |procs| && procs[r].state == Unused)
    ensures r == NONE ==> forall k :: i <= k < |procs| ==> procs[k].state != Unused
    ensures r != NONE ==> forall k :: i <= k < r ==> procs[k].state != Unused
    decreases |procs| - i
  {
    if i == |procs| then NONE else if procs[i].state == Unused then i else FirstUnused(procs, i + 1)
  }

  /** The scan of wait from slot i on. */
  function FirstZombie(procs: seq<Proc>, p: int, i: int): (r: int)
    requires 0 <= i <= |procs|
    ensures r == NONE || (i <= r < |procs| && procs[r].parent == p && procs[r].state == Zombie)
    ensures r == NONE ==> forall k :: i <= k < |procs| ==> !(procs[k].parent == p && procs[k].state == Zombie)
    ensures r != NONE ==> forall k :: i <= k < r ==> !(procs[k].parent == p && procs[k].state == Zombie)
    decreases |procs| - i
  {
    if i == |procs| then NONE
    else if procs[i].parent == p && procs[i].state == Zombie then i
    else FirstZombie(procs, p, i + 1)
  }

  /** The scan of kill from slot i on. It looks at free slots too. */
  function FirstPid(procs: seq<Proc>, pid: int, i: int): (r: int)
    requires 0 <= i <= |procs|
    ensures r == NONE || (i <= r < |procs| && procs[r].pid == pid)
    ensures r == NONE ==> forall k :: i <= k < |procs| ==> procs[k].pid != pid
    ensures r != NONE ==> forall k :: i <= k < r ==> procs[k].pid != pid
    decreases |procs| - i
  {
    if i == |procs| then NONE else if procs[i].pid == pid then i else FirstPid(procs, pid, i + 1)
  }

  function Killed(procs: seq<Proc>, pid: int): (r: seq<Proc>)
    ensures |r| == |procs|
  {
    var v := FirstPid(procs, pid, 0);
    if v == NONE then procs
    else procs[v := procs[v].(killed := true, state := if procs[v].state == Sleeping then Runnable else procs[v].state)]
  }

  /** One scan of wait: reap, give up, or go to sleep on p's own entry. */
  function Waited(procs: seq<Proc>, p: int): (r: seq<Proc>)
    requires 0 <= p < |procs|
    ensures |r| == |procs|
  {
    var z := FirstZombie(procs, p, 0);
    if z != NONE then
      var reaped := procs[z := procs[z].(state := Unused, pid := 0, parent := NONE, killed := false)];
      reaped[p := reaped[p].(task := Idle)]
    else if !HasKid(procs, p) || procs[p].killed then procs[p := procs[p].(task := Idle)]
    else procs[p := procs[p].(state := Sleeping, chan := Entry(p), task := Waiting)]
  }

  // ---------- events ----------

  datatype Event =
    | Alloc(p: int)             // fork: allocproc finds a slot
    | Abort(p: int)             // fork: no stack or no memory, the slot goes back
    | Adopt(p: int)             // fork: np->parent = curproc
    | Start(p: int)             // fork: np->state = RUNNABLE
    | Exit(p: int)
    | Wait(p: int)
    | Sleep(p: int, c: int)     // on any other channel
    | Wakeup(chan: Chan)
    | Kill(p: int, pid: int)
    | Schedule(p: int)
    | Yield(p: int)

  predicate IsRunning(t: Table, p: int) {
    0 <= p < |t.procs| && t.procs[p].state == Running
  }

  predicate Enabled(t: Table, e: Event) {
    match e
    case Alloc(p) => IsRunning(t, p) && t.procs[p].task == Idle && FirstUnused(t.procs, 0) != NONE
    case Abort(p) => IsRunning(t, p) && t.procs[p].task.Forking? && 0 <= t.procs[p].task.np < |t.procs|
    case Adopt(p) => IsRunning(t, p) && t.procs[p].task.Forking? && 0 <= t.procs[p].task.np < |t.procs|
    case Start(p) => IsRunning(t, p) && t.procs[p].task.Adopting? && 0 <= t.procs[p].task.np < |t.procs|
    case Exit(p) => IsRunning(t, p) && t.procs[p].task == Idle && p != t.init
    case Wait(p) => IsRunning(t, p) && (t.procs[p].task == Idle || t.procs[p].task == Waiting)
    case Sleep(p, c) => IsRunning(t, p) && t.procs[p].task == Idle
    case Wakeup(chan) => true
    case Kill(p, pid) => IsRunning(t, p)
    case Schedule(p) => 0 <= p < |t.procs| && t.procs[p].state == Runnable
    case Yield(p) => IsRunning(t, p)
  }

  function Do(t: Table, e: Event): (t': Table)
    requires Enabled(t, e)
    ensures |t'.procs| == |t.procs| && t'.init == t.init
  {
    var procs := t.procs;
    match e
    case Alloc(p) =>
      var np := FirstUnused(procs, 0);
      var made := procs[np := procs[np].(state := Embryo, pid := t.nextpid)];
      t.(procs := made[p := made[p].(task := Forking(np))], nextpid := t.nextpid + 1)
    case Abort(p) =>
      var np := procs[p].task.np;
      var idle := procs[p := procs[p].(task := Idle)];
      t.(procs := idle[np := idle[np].(state := Unused)])
    case Adopt(p) =>
      var np := procs[p].task.np;
      var next := procs[p := procs[p].(task := Adopting(np))];
      t.(procs := next[np := next[np].(parent := p)])
    case Start(p) =>
      var np := procs[p].task.np;
      var idle := procs[p := procs[p].(task := Idle)];
      t.(procs := idle[np := idle[np].(state := Runnable, task := Idle)])
    case Exit(p) => t.(procs := Exited(procs, p, t.init))
    case Wait(p) => t.(procs := Waited(procs, p))
    case Sleep(p, c) => t.(procs := procs[p := procs[p].(state := Sleeping, chan := Other(c))])
    case Wakeup(chan) => t.(procs := Woken(procs, chan))
    case Kill(p, pid) => t.(procs := Killed(procs, pid))
    case Schedule(p) => t.(procs := procs[p := procs[p].(state := Running, chan := NoChan)])
    case Yield(p) => t.(procs := procs[p := procs[p].(state := Runnable)])
  }

  /** After userinit: init is the only process. */
  predicate Boot(t: Table) {
    && |t.procs| == NPROC && 0 <= t.init < NPROC && t.nextpid == 2
    && t.procs[t.init] == Proc(Runnable, 1, NONE, NoChan, Idle, false)
    && (forall i :: 0 <= i < NPROC && i != t.init ==> t.procs[i] == Proc(Unused, 0, NONE, NoChan, Idle, false))
  }

  // ---------- the invariant ----------

  predicate Makes(task: Task, np: int) {
    task == Forking(np) || task == Adopting(np)
  }

  predicate InWait(q: Proc, i: int) {
    q.state == Sleeping && q.chan == Entry(i)
  }

  /** What holds of slot i by itself, in a table of n slots. */
  ghost predicate SlotOK(q: Proc, i: int, n: int, nextpid: int, init: int) {
    && (q.state != Unused ==> q.pid < nextpid)
    && (q.state == Unused ==> q.parent == NONE)
    && (!Alive(q.state) ==> q.task == Idle)
    && (i == init ==> Alive(q.state) && q.parent == NONE)
    && (Started(q.state) && i != init ==> 0 <= q.parent < n)
    && (q.state == Embryo ==> q.parent == NONE || 0 <= q.parent < n)
    && (q.task.Forking? || q.task.Adopting? ==> 0 <= q.task.np < n)
    && (q.state == Sleeping && q.chan.Entry? ==> q.chan.p == i)
  }

  /** Pids of slots in use differ, and init's is the least. */
  ghost predicate PidsOK(a: Proc, i: int, b: Proc, j: int, init: int) {
    && (i == init && j != init && a.state != Unused && b.state != Unused ==> a.pid < b.pid)
    && (i != j && a.state != Unused && b.state != Unused ==> a.pid != b.pid)
  }

  /** The parent of a started process is alive and older; only its maker adopts an embryo. */
  ghost predicate KinOK(a: Proc, i: int, b: Proc, j: int, init: int) {
    && (Started(a.state) && i != init && a.parent == j ==> Alive(b.state) && b.pid < a.pid)
    && (a.state == Embryo && a.parent == j ==> b.task == Adopting(i))
    && (Makes(a.task, j) ==> b.state == Embryo && a.pid < b.pid && b.parent == (if a.task.Forking? then NONE else i))
    && (i != j && (a.task.Forking? || a.task.Adopting?) ==> !Makes(b.task, a.task.np))
  }

  /** Nobody sleeps in wait with a zombie child. */
  ghost predicate WaitOK(a: Proc, i: int, b: Proc) {
    InWait(a, i) && b.parent == i ==> b.state != Zombie
  }

  /** What holds of slots i and j together. */
  ghost predicate PairOK(a: Proc, i: int, b: Proc, j: int, init: int) {
    PidsOK(a, i, b, j, init) && KinOK(a, i, b, j, init) && WaitOK(a, i, b)
  }

  ghost predicate Inv(t: Table) {
    && 0 <= t.init < |t.procs|
    && (forall i {:trigger SlotOK(t.procs[i], i, |t.procs|, t.nextpid, t.init)} ::
          0 <= i < |t.procs| ==> SlotOK(t.procs[i], i, |t.procs|, t.nextpid, t.init))
    && (forall i, j {:trigger PairOK(t.procs[i], i, t.procs[j], j, t.init)} ::
          0 <= i < |t.procs| && 0 <= j < |t.procs| ==> PairOK(t.procs[i], i, t.procs[j], j, t.init))
  }

  lemma BootInv(t: Table)
    requires Boot(t)
    ensures Inv(t)
  {
  }

  ghost predicate All(t: Table, i: int, j: int) {
    && 0 <= i < |t.procs| && 0 <= j < |t.procs|
    && SlotOK(t.procs[i], i, |t.procs|, t.nextpid, t.init) && SlotOK(t.procs[j], j, |t.procs|, t.nextpid, t.init)
    && PairOK(t.procs[i], i, t.procs[j], j, t.init) && PairOK(t.procs[j], j, t.procs[i], i, t.init)
    && PairOK(t.procs[i], i, t.procs[i], i, t.init)
  }

  lemma At(t: Table, i: int, j: int)
    requires Inv(t) && 0 <= i < |t.procs| && 0 <= j < |t.procs|
    ensures All(t, i, j)
  {
    hide SlotOK, PairOK;
  }

  /** What is to be shown of slots i and j, in this order. */
  ghost predicate Half(t: Table, i: int, j: int) {
    && 0 <= i < |t.procs| && 0 <= j < |t.procs|
    && SlotOK(t.procs[i], i, |t.procs|, t.nextpid, t.init) && PairOK(t.procs[i], i, t.procs[j], j, t.init)
  }

  lemma ByPairs(t: Table)
    requires 0 <= t.init < |t.procs| && forall i, j {:trigger Half(t, i, j)} :: 0 <= i < |t.procs| && 0 <= j < |t.procs| ==> Half(t, i, j)
    ensures Inv(t)
  {
    hide SlotOK, PairOK;
    forall i | 0 <= i < |t.procs| ensures SlotOK(t.procs[i], i, |t.procs|, t.nextpid, t.init) {
      assert Half(t, i, i);
    }
    forall i, j | 0 <= i < |t.procs| && 0 <= j < |t.procs| ensures PairOK(t.procs[i], i, t.procs[j], j, t.init) {
      assert Half(t, i, j);
    }
  }

  /** What exit of p does to slot i. */
  function ExitView(q: Proc, i: int, p: int, parent: int, init: int, told: bool): Proc {
    var awake := q.state == Sleeping && (q.chan == Entry(parent) || (told && q.chan == Entry(init)));
    var q1 := if awake then q.(state := Runnable) else q;
    var q2 := if q.parent == p then q1.(parent := init) else q1;
    if i == p then q2.(state := Zombie) else q2
  }

  lemma ExitedAt(procs: seq<Proc>, p: int, init: int, i: int)
    requires 0 <= p < |procs| && 0 <= i < |procs|
    ensures Exited(procs, p, init)[i] == ExitView(procs[i], i, p, procs[p].parent, init, HasZombie(procs, p))
  {
    var woken := Woken(procs, Entry(procs[p].parent));
    assert HasZombie(woken, p) == HasZombie(procs, p) by {
      if HasZombie(procs, p) {
        var k :| 0 <= k < |procs| && procs[k].parent == p && procs[k].state == Zombie;
        assert woken[k] == procs[k];
      }
      if HasZombie(woken, p) {
        var k :| 0 <= k < |procs| && woken[k].parent == p && woken[k].state == Zombie;
        assert woken[k] == procs[k];
      }
    }
  }

  /** Slots other than a new one keep their pid while in use. */
  lemma PidKept(t: Table, e: Event, i: int)
    requires Inv(t) && Enabled(t, e) && 0 <= i < |t.procs| && !(e.Alloc? && i == FirstUnused(t.procs, 0))
    ensures var q := Do(t, e).procs[i];
            q.state != Unused ==> t.procs[i].state != Unused && q.pid == t.procs[i].pid
  {
    hide FirstUnused, FirstZombie, HasKid, Exited;
    match e
    case Exit(p) => ExitedAt(t.procs, p, t.init, i); hide HasZombie;
    case Abort(p) => At(t, p, t.procs[p].task.np); hide Inv;
    case Start(p) => At(t, p, t.procs[p].task.np); hide Inv;
    case _ =>
  }

  lemma PidsStep(t: Table, e: Event, i: int, j: int)
    requires Inv(t) && Enabled(t, e) && 0 <= i < |t.procs| && 0 <= j < |t.procs|
    ensures PidsOK(Do(t, e).procs[i], i, Do(t, e).procs[j], j, t.init)
  {
    hide KinOK, WaitOK, Exited, Waited;
    if e.Alloc? {
      var np := FirstUnused(t.procs, 0);
      At(t, i, j); At(t, np, np);
      hide Inv, FirstUnused;
    } else {
      PidKept(t, e, i);
      PidKept(t, e, j);
      At(t, i, j);
      hide Inv, Do;
    }
  }

  /** The steps of fork, by process e.p. */
  predicate InFork(e: Event) {
    e.Alloc? || e.Abort? || e.Adopt? || e.Start?
  }

  /** The slot that a step of fork is about. */
  function ForkSlotOf(t: Table, e: Event): int
    requires Enabled(t, e) && InFork(e)
  {
    if e.Alloc? then FirstUnused(t.procs, 0) else t.procs[e.p].task.np
  }

  lemma ForkSlot(t: Table, e: Event, i: int)
    requires Inv(t) && Enabled(t, e) && InFork(e) && 0 <= i < |t.procs|
    ensures SlotOK(Do(t, e).procs[i], i, |t.procs|, Do(t, e).nextpid, t.init)
  {
    hide Inv, WaitOK, PidsOK, FirstUnused;
    var p, np := e.p, ForkSlotOf(t, e);
    At(t, i, p); At(t, i, np); At(t, p, np);
  }

  lemma ForkKin(t: Table, e: Event, i: int, j: int)
    requires Inv(t) && Enabled(t, e) && InFork(e) && 0 <= i < |t.procs| && 0 <= j < |t.procs|
    ensures KinOK(Do(t, e).procs[i], i, Do(t, e).procs[j], j, t.init)
  {
    hide Inv, WaitOK, FirstUnused, Exited, Waited, Woken;
    var p, np := e.p, ForkSlotOf(t, e);
    At(t, i, p); At(t, i, np); At(t, p, np);
    if i == j {
    } else if j == p || j == np {
      At(t, j, p); At(t, j, np);
    } else {
      At(t, i, j); At(t, j, p); At(t, j, np);
    }
  }

  lemma ForkWait(t: Table, e: Event, i: int, j: int)
    requires Inv(t) && Enabled(t, e) && InFork(e) && 0 <= i < |t.procs| && 0 <= j < |t.procs|
    ensures WaitOK(Do(t, e).procs[i], i, Do(t, e).procs[j])
  {
    hide Inv, PidsOK, FirstUnused;
    var p, np := e.p, ForkSlotOf(t, e);
    At(t, i, j); At(t, i, p); At(t, i, np); At(t, j, p); At(t, j, np); At(t, p, np);
  }

  lemma ExitSlot(a: Proc, i: int, c: Proc, p: int, init: int, n: int, nextpid: int, told: bool)
    requires SlotOK(a, i, n, nextpid, init) && c.state == Running && c.task == Idle && 0 <= p < n && p != init && 0 <= init < n
    requires (i == p ==> a == c) && KinOK(a, i, c, p, init)
    ensures SlotOK(ExitView(a, i, p, c.parent, init, told), i, n, nextpid, init)
  {
  }

  lemma ExitKin(a: Proc, i: int, b: Proc, j: int, c: Proc, p: int, d: Proc, init: int, n: int, nextpid: int, told: bool)
    requires SlotOK(a, i, n, nextpid, init) && KinOK(a, i, b, j, init) && KinOK(a, i, c, p, init)
    requires SlotOK(c, p, n, nextpid, init) && c.state == Running && c.task == Idle && 0 <= p < n && p != init && SlotOK(d, init, n, nextpid, init)
    requires PidsOK(d, init, a, i, init) && (j == p ==> b == c) && (j == init ==> b == d) && (i == p ==> a == c)
    ensures KinOK(ExitView(a, i, p, c.parent, init, told), i, ExitView(b, j, p, c.parent, init, told), j, init)
  {
  }

  lemma ExitWait(a: Proc, i: int, b: Proc, j: int, c: Proc, p: int, init: int, n: int, nextpid: int, told: bool)
    requires SlotOK(a, i, n, nextpid, init) && WaitOK(a, i, b) && c.state == Running && c.parent != p
    requires (i == p ==> a == c) && (j == p ==> b == c) && (b.parent == p && b.state == Zombie ==> told)
    ensures WaitOK(ExitView(a, i, p, c.parent, init, told), i, ExitView(b, j, p, c.parent, init, told))
  {
  }

  lemma ExitPair(t: Table, p: int, i: int, j: int)
    requires Inv(t) && Enabled(t, Exit(p)) && 0 <= i < |t.procs| && 0 <= j < |t.procs|
    ensures Half(Do(t, Exit(p)), i, j)
  {
    assert 0 <= t.init < |t.procs|;
    assert t.procs[j].parent == p && t.procs[j].state == Zombie ==> HasZombie(t.procs, p);
    var a, b, c, d, told := t.procs[i], t.procs[j], t.procs[p], t.procs[t.init], HasZombie(t.procs, p);
    assert c.parent != p by { At(t, p, p); }
    hide Inv, Exited, SlotOK, KinOK, WaitOK, HasZombie, PidsOK, ExitView;
    PidsStep(t, Exit(p), i, j);
    At(t, i, j); At(t, i, p); At(t, i, t.init); At(t, p, t.init);
    ExitedAt(t.procs, p, t.init, i);
    ExitedAt(t.procs, p, t.init, j);
    ExitSlot(a, i, c, p, t.init, |t.procs|, t.nextpid, told);
    ExitKin(a, i, b, j, c, p, d, t.init, |t.procs|, t.nextpid, told);
    ExitWait(a, i, b, j, c, p, t.init, |t.procs|, t.nextpid, told);
  }

  lemma ReapPair(t: Table, p: int, z: int, i: int, j: int)
    requires Inv(t) && Enabled(t, Wait(p)) && 0 <= i < |t.procs| && 0 <= j < |t.procs|
    requires z == FirstZombie(t.procs, p, 0) != NONE
    ensures Half(Do(t, Wait(p)), i, j)
  {
    hide Inv, FirstZombie, PidsOK;
    PidsStep(t, Wait(p), i, j);
    At(t, i, j); At(t, i, p); At(t, i, z); At(t, j, p); At(t, j, z); At(t, p, z);
  }

  lemma NoReapKin(t: Table, p: int, i: int, j: int)
    requires Inv(t) && Enabled(t, Wait(p)) && 0 <= i < |t.procs| && 0 <= j < |t.procs| && FirstZombie(t.procs, p, 0) == NONE
    ensures SlotOK(Do(t, Wait(p)).procs[i], i, |t.procs|, t.nextpid, t.init)
    ensures KinOK(Do(t, Wait(p)).procs[i], i, Do(t, Wait(p)).procs[j], j, t.init)
  {
    hide Inv, FirstZombie, HasKid, WaitOK, PidsOK;
    At(t, i, j);
  }

  lemma NoReapWait(t: Table, p: int, i: int, j: int)
    requires Inv(t) && Enabled(t, Wait(p)) && 0 <= i < |t.procs| && 0 <= j < |t.procs| && FirstZombie(t.procs, p, 0) == NONE
    ensures WaitOK(Do(t, Wait(p)).procs[i], i, Do(t, Wait(p)).procs[j])
  {
    assert !(t.procs[j].parent == p && t.procs[j].state == Zombie);
    hide Inv, FirstZombie, HasKid, KinOK, PidsOK;
    At(t, i, j);
  }

  lemma WaitPair(t: Table, p: int, i: int, j: int)
    requires Inv(t) && Enabled(t, Wait(p)) && 0 <= i < |t.procs| && 0 <= j < |t.procs|
    ensures Half(Do(t, Wait(p)), i, j)
  {
    hide Inv, SlotOK, PidsOK, KinOK, WaitOK, Waited;
    if FirstZombie(t.procs, p, 0) == NONE {
      PidsStep(t, Wait(p), i, j);
      NoReapKin(t, p, i, j);
      NoReapWait(t, p, i, j);
    } else {
      ReapPair(t, p, FirstZombie(t.procs, p, 0), i, j);
    }
  }

  lemma SimplePair(t: Table, e: Event, i: int, j: int)
    requires Inv(t) && Enabled(t, e) && (e.Sleep? || e.Wakeup? || e.Schedule? || e.Yield?) && 0 <= i < |t.procs| && 0 <= j < |t.procs|
    ensures Half(Do(t, e), i, j)
  {
    hide Inv, PidsOK, FirstPid, FirstUnused, FirstZombie, Exited, Waited, Killed;
    PidsStep(t, e, i, j);
    At(t, i, j);
  }

  lemma KillPair(t: Table, e: Event, i: int, j: int)
    requires Inv(t) && Enabled(t, e) && e.Kill? && 0 <= i < |t.procs| && 0 <= j < |t.procs|
    ensures Half(Do(t, e), i, j)
  {
    hide Inv, PidsOK, FirstPid, FirstUnused, FirstZombie, Exited, Waited, Woken;
    PidsStep(t, e, i, j);
    At(t, i, j);
  }

  lemma ForkPair(t: Table, e: Event, i: int, j: int)
    requires Inv(t) && Enabled(t, e) && InFork(e) && 0 <= i < |t.procs| && 0 <= j < |t.procs|
    ensures Half(Do(t, e), i, j)
  {
    hide Inv, SlotOK, PidsOK, KinOK, WaitOK, Do;
    PidsStep(t, e, i, j);
    ForkSlot(t, e, i);
    ForkKin(t, e, i, j);
    ForkWait(t, e, i, j);
  }

  /** Every event keeps the invariant. */
  lemma Keep(t: Table, e: Event)
    requires Inv(t) && Enabled(t, e)
    ensures Inv(Do(t, e))
  {
    assert 0 <= t.init < |t.procs|;
    hide Inv, Half, Do, Enabled;
    forall i, j | 0 <= i < |t.procs| && 0 <= j < |t.procs| ensures Half(Do(t, e), i, j) {
      match e
      case Exit(p) => ExitPair(t, p, i, j);
      case Wait(p) => WaitPair(t, p, i, j);
      case Alloc(_) => ForkPair(t, e, i, j);
      case Abort(_) => ForkPair(t, e, i, j);
      case Adopt(_) => ForkPair(t, e, i, j);
      case Start(_) => ForkPair(t, e, i, j);
      case Kill(_, _) => KillPair(t, e, i, j);
      case _ => SimplePair(t, e, i, j);
    }
    ByPairs(Do(t, e));
  }

  // ---------- what the events do, slot by slot ----------

  /** One scan of wait. It frees the slot z of the first zombie child and nothing else, or it finds none; then
      the caller goes on if it has no children or is killed, and else sleeps on its own entry. */
  lemma WaitExact(t: Table, p: int) returns (z: int)
    requires Inv(t) && Enabled(t, Wait(p))
    ensures var a, b := t.procs, Do(t, Wait(p)).procs;
            && |b| == |a| && Do(t, Wait(p)).nextpid == t.nextpid
            && (z != NONE ==>
                  && 0 <= z < |a| && z != p && a[z].parent == p && a[z].state == Zombie
                  && (forall i :: 0 <= i < z ==> !(a[i].parent == p && a[i].state == Zombie))
                  && b[z] == Proc(Unused, 0, NONE, a[z].chan, a[z].task, false)
                  && b[p] == a[p].(task := Idle))
            && (z == NONE ==>
                  && (forall i :: 0 <= i < |a| ==> !(a[i].parent == p && a[i].state == Zombie))
                  && b[p] == if a[p].killed || (forall i :: 0 <= i < |a| ==> a[i].parent != p) then a[p].(task := Idle)
                             else a[p].(state := Sleeping, chan := Entry(p), task := Waiting))
            && (forall i :: 0 <= i < |a| && i != p && i != z ==> b[i] == a[i])
  {
    z := FirstZombie(t.procs, p, 0);
    assert z != NONE ==> z != p;
    hide Inv, FirstZombie;
  }

  /** exit: the caller becomes a zombie, its children go to init, and awake are those who wait as its parent,
      and init if one of the children is a zombie. */
  lemma ExitExact(t: Table, p: int, i: int)
    requires Inv(t) && Enabled(t, Exit(p)) && 0 <= i < |t.procs|
    ensures var a, b := t.procs[i], Do(t, Exit(p)).procs[i];
            && b.parent == (if a.parent == p then t.init else a.parent) && b.pid == a.pid && b.chan == a.chan && b.task == a.task && b.killed == a.killed
            && b.state == if i == p then Zombie
                          else if a.state == Sleeping
                               && (a.chan == Entry(t.procs[p].parent)
                                   || (a.chan == Entry(t.init)
                                       && exists c :: 0 <= c < |t.procs| && t.procs[c].parent == p && t.procs[c].state == Zombie))
                          then Runnable else a.state
  {
    ExitedAt(t.procs, p, t.init, i);
    hide Inv, Exited;
  }

  /** What state the life of a process lets slot i go to on e. A free slot is taken by fork, an embryo is freed or
      started by the process that makes it, only the process itself yields, sleeps or exits, a sleeper is woken
      on its channel, and a zombie is freed by its parent. */
  ghost predicate Life(t: Table, e: Event, i: int, b: RunState)
    requires 0 <= i < |t.procs| && Enabled(t, e)
  {
    var q := t.procs[i];
    match q.state
    case Unused => b == if e.Alloc? && forall k :: 0 <= k < i ==> t.procs[k].state != Unused then Embryo else Unused
    case Embryo => b == if e.Abort? && t.procs[e.p].task == Forking(i) then Unused
                        else if e.Start? && t.procs[e.p].task == Adopting(i) then Runnable else Embryo
    case Runnable => b == if e == Schedule(i) then Running else Runnable
    case Running => b == if e == Yield(i) then Runnable else if e == Exit(i) then Zombie
                         else if e.Sleep? && e.p == i then Sleeping
                         else if e == Wait(i) && FirstZombie(t.procs, i, 0) == NONE && !q.killed
                                 && exists c :: 0 <= c < |t.procs| && t.procs[c].parent == i
                         then Sleeping else Running
    case Sleeping => b == if || e == Wakeup(q.chan)
                             || (e.Exit? && q.chan == Entry(t.procs[e.p].parent))
                             || (e.Exit? && q.chan == Entry(t.init)
                                 && exists c :: 0 <= c < |t.procs| && t.procs[c].parent == e.p && t.procs[c].state == Zombie)
                             || (e.Kill? && i == FirstPid(t.procs, e.pid, 0))
                          then Runnable else Sleeping
    case Zombie => b == if e.Wait? && i == FirstZombie(t.procs, e.p, 0) then Unused else Zombie
  }

  /** Which pid, parent and channel the life of a process lets slot i have after e: a pid is given once, by fork,
      the parent is the process that forked it, then init, until it is reaped, and a channel is the process's
      own choice. */
  ghost predicate Kin(t: Table, e: Event, i: int, b: Proc)
    requires 0 <= i < |t.procs| && Enabled(t, e)
  {
    var a := t.procs[i];
    var reaped := e.Wait? && i == FirstZombie(t.procs, e.p, 0);
    && b.pid == (if a.state == Unused && b.state == Embryo then t.nextpid else if reaped then 0 else a.pid)
    && b.parent == (if e.Adopt? && t.procs[e.p].task == Forking(i) then e.p
                    else if e.Exit? && a.parent == e.p then t.init else if reaped then NONE else a.parent)
    && b.chan == if e.Sleep? && e.p == i then Other(e.c) else if e == Wait(i) && b.state == Sleeping then Entry(i)
                 else if e == Schedule(i) then NoChan else a.chan
  }

  lemma WaitLife(t: Table, p: int, i: int)
    requires Inv(t) && Enabled(t, Wait(p)) && 0 <= i < |t.procs|
    ensures var b := Do(t, Wait(p)).procs[i]; Life(t, Wait(p), i, b.state) && Kin(t, Wait(p), i, b)
  {
    var z := WaitExact(t, p);
    WaitedFirst(t, p, z);
    hide Do, Inv, FirstZombie;
  }

  lemma WaitedFirst(t: Table, p: int, z: int)
    requires z == NONE || (0 <= z < |t.procs| && t.procs[z].parent == p && t.procs[z].state == Zombie)
    requires forall i :: 0 <= i < (if z == NONE then |t.procs| else z) ==> !(t.procs[i].parent == p && t.procs[i].state == Zombie)
    ensures FirstZombie(t.procs, p, 0) == z
  {
  }

  lemma ForkLife(t: Table, e: Event, i: int)
    requires Inv(t) && Enabled(t, e) && InFork(e) && 0 <= i < |t.procs|
    ensures var b := Do(t, e).procs[i]; Life(t, e, i, b.state) && Kin(t, e, i, b)
  {
    var np := ForkSlotOf(t, e);
    At(t, e.p, np);
    hide Inv, FirstZombie, FirstPid;
  }

  lemma ExitLife(t: Table, p: int, i: int)
    requires Inv(t) && Enabled(t, Exit(p)) && 0 <= i < |t.procs|
    ensures var b := Do(t, Exit(p)).procs[i]; Life(t, Exit(p), i, b.state) && Kin(t, Exit(p), i, b)
  {
    ExitExact(t, p, i);
    hide Do, Inv;
  }

  lemma QuietLife(t: Table, e: Event, i: int)
    requires Enabled(t, e) && (e.Sleep? || e.Wakeup? || e.Kill? || e.Schedule? || e.Yield?) && 0 <= i < |t.procs|
    ensures var b := Do(t, e).procs[i]; Life(t, e, i, b.state) && Kin(t, e, i, b)
  {
    hide FirstZombie, FirstUnused, FirstPid, Exited, Waited;
  }

  /** Every event moves every slot exactly as its life demands. */
  lemma Lifecycle(t: Table, e: Event, i: int)
    requires Inv(t) && Enabled(t, e) && 0 <= i < |t.procs|
    ensures var b := Do(t, e).procs[i]; Life(t, e, i, b.state) && Kin(t, e, i, b)
  {
    hide Inv, Enabled, Do, Life, Kin;
    match e {
      case Exit(p) => ExitLife(t, p, i);
      case Wait(p) => WaitLife(t, p, i);
      case Alloc(_) => ForkLife(t, e, i);
      case Abort(_) => ForkLife(t, e, i);
      case Adopt(_) => ForkLife(t, e, i);
      case Start(_) => ForkLife(t, e, i);
      case _ => QuietLife(t, e, i);
    }
  }

  // ---------- runs ----------

  ghost predicate Run(ts: seq<Table>, es: seq<Event>) {
    && |ts| == |es| + 1 && Boot(ts[0])
    && (forall k {:trigger es[k]} :: 0 <= k < |es| ==> Enabled(ts[k], es[k]) && ts[k + 1] == Do(ts[k], es[k]))
  }

  lemma {:induction false} RunInv(ts: seq<Table>, es: seq<Event>, k: nat)
    requires Run(ts, es) && k < |ts|
    ensures Inv(ts[k])
    decreases k
  {
    hide Inv, Do, Enabled;
    if k == 0 {
      BootInv(ts[0]);
    } else {
      RunInv(ts, es, k - 1);
      var e := es[k - 1];
      Keep(ts[k - 1], e);
    }
  }

  // ---------- wait answers each pid once ----------

  /** pid has been given out, and no process has it any more. */
  ghost predicate Gone(t: Table, pid: int) {
    pid < t.nextpid && forall i :: 0 <= i < |t.procs| && t.procs[i].state != Unused ==> t.procs[i].pid != pid
  }

  lemma GoneStays(t: Table, e: Event, pid: int)
    requires Inv(t) && Enabled(t, e) && Gone(t, pid)
    ensures Gone(Do(t, e), pid)
  {
    assert Do(t, e).nextpid == t.nextpid + if e.Alloc? then 1 else 0;
    hide Inv, Do, Enabled, FirstUnused, FirstZombie;
    forall i | 0 <= i < |t.procs| && Do(t, e).procs[i].state != Unused ensures Do(t, e).procs[i].pid != pid {
      Lifecycle(t, e, i);
    }
  }

  lemma {:induction false} GoneForever(ts: seq<Table>, es: seq<Event>, pid: int, k: nat, m: nat)
    requires Run(ts, es) && k <= m < |ts| && Gone(ts[k], pid)
    ensures Gone(ts[m], pid)
    decreases m
  {
    if k < m {
      GoneForever(ts, es, pid, k, m - 1);
      RunInv(ts, es, m - 1);
      hide Inv, Do, Enabled, Gone;
      var e := es[m - 1];
      GoneStays(ts[m - 1], e, pid);
    }
  }

  /** Step k is a wait that reaps the process with this pid. */
  ghost predicate Reaps(ts: seq<Table>, es: seq<Event>, k: int, pid: int) {
    && 0 <= k < |es| && k < |ts| && es[k].Wait?
    && var z := FirstZombie(ts[k].procs, es[k].p, 0); z != NONE && pid == ts[k].procs[z].pid
  }

  lemma ReapGone(t: Table, p: int, z: int)
    requires Inv(t) && Enabled(t, Wait(p)) && z == FirstZombie(t.procs, p, 0) != NONE
    ensures Gone(Do(t, Wait(p)), t.procs[z].pid)
  {
    var w := WaitExact(t, p);
    WaitedFirst(t, p, w);
    forall i | 0 <= i < |t.procs| && i != z && t.procs[i].state != Unused ensures t.procs[i].pid != t.procs[z].pid {
      At(t, i, z);
    }
    At(t, z, z);
    hide Inv, FirstZombie, Do;
  }

  /** Over every run wait answers each pid at most once. */
  lemma ReapedOnce(ts: seq<Table>, es: seq<Event>, k: int, m: int, pid: int)
    requires Run(ts, es) && Reaps(ts, es, k, pid) && Reaps(ts, es, m, pid)
    ensures k == m
  {
    hide Inv, Do, Enabled, Gone;
    if k != m {
      var x, y := if k < m then k else m, if k < m then m else k;
      RunInv(ts, es, x);
      var e := es[x];
      ReapGone(ts[x], e.p, FirstZombie(ts[x].procs, e.p, 0));
      GoneForever(ts, es, pid, x + 1, y);
      NotGone(ts[y], FirstZombie(ts[y].procs, es[y].p, 0));
      assert false;
    }
  }

  lemma NotGone(t: Table, z: int)
    requires 0 <= z < |t.procs| && t.procs[z].state != Unused
    ensures !Gone(t, t.procs[z].pid)
  {
  }

  // ---------- who is killed ----------

  /** A free slot is not marked killed: the next process in it will not start out killed. */
  predicate Clean(t: Table) {
    forall i :: 0 <= i < |t.procs| && t.procs[i].state == Unused ==> !t.procs[i].killed
  }

  /** kill finds its pid in a free slot, or fork gives back a slot whose process was killed in the making. */
  predicate Marks(t: Table, e: Event)
    requires Enabled(t, e)
  {
    || (e.Abort? && t.procs[t.procs[e.p].task.np].killed)
    || (e.Kill? && FirstPid(t.procs, e.pid, 0) != NONE && t.procs[FirstPid(t.procs, e.pid, 0)].state == Unused)
  }

  lemma CleanStep(t: Table, e: Event)
    requires Inv(t) && Enabled(t, e) && Clean(t)
    ensures Clean(Do(t, e)) <==> !Marks(t, e)
  {
    var t' := Do(t, e);
    match e {
      case Exit(p) => forall i | 0 <= i < |t.procs| ensures t'.procs[i].state == Unused ==> !t'.procs[i].killed { ExitExact(t, p, i); }
      case Wait(p) => var z := WaitExact(t, p); hide Inv, Do;
      case Abort(p) => At(t, p, t.procs[p].task.np); assert t'.procs[t.procs[p].task.np].killed == t.procs[t.procs[p].task.np].killed; hide Inv;
      case Start(p) => At(t, p, t.procs[p].task.np); hide Inv;
      case Kill(p, pid) => KillClean(t, p, pid);
      case _ => hide Inv, FirstUnused;
    }
  }

  lemma KillClean(t: Table, p: int, pid: int)
    requires Enabled(t, Kill(p, pid)) && Clean(t)
    ensures Clean(Do(t, Kill(p, pid))) <==> !Marks(t, Kill(p, pid))
  {
    var v := FirstPid(t.procs, pid, 0);
    var procs := Do(t, Kill(p, pid)).procs;
    hide FirstPid;
    assert v != NONE ==> procs[v].killed && (procs[v].state == Unused <==> t.procs[v].state == Unused);
  }

  lemma {:induction false} RunClean(ts: seq<Table>, es: seq<Event>, k: nat)
    requires Run(ts, es) && k < |ts|
    requires (forall j {:trigger es[j]} :: 0 <= j < k ==> !Marks(ts[j], es[j])) || (forall j :: 0 <= j <= k ==> Clean(ts[j]))
    ensures Clean(ts[k]) && forall j {:trigger es[j]} :: 0 <= j < k ==> !Marks(ts[j], es[j])
    decreases k
  {
    if k > 0 {
      RunClean(ts, es, k - 1);
      RunInv(ts, es, k - 1);
      hide Inv, Do, Enabled, Clean, Marks, Boot;
      var e := es[k - 1];
      CleanStep(ts[k - 1], e);
    }
  }

  /** Over every run: no free slot is ever marked killed exactly if no kill finds its pid in a free slot and
      no process is killed while a fork that will fail makes it. */
  lemma CleanIff(ts: seq<Table>, es: seq<Event>)
    requires Run(ts, es)
    ensures (forall k :: 0 <= k < |ts| ==> Clean(ts[k])) <==> (forall k {:trigger es[k]} :: 0 <= k < |es| ==> !Marks(ts[k], es[k]))
  {
    hide Do, Enabled, Clean, Marks, Boot;
    if forall k {:trigger es[k]} :: 0 <= k < |es| ==> !Marks(ts[k], es[k]) {
      forall k | 0 <= k < |ts| ensures Clean(ts[k]) {
        RunClean(ts, es, k);
      }
    } else if forall k :: 0 <= k < |ts| ==> Clean(ts[k]) {
      RunClean(ts, es, |es|);
    }
  }

  /** init calls kill(0), which finds the first free slot; the process forked into it starts out killed. */
  lemma BornKilled() returns (ts: seq<Table>, es: seq<Event>)
    ensures Run(ts, es) && |es| == 3 && es[1] == Kill(0, 0)
    ensures |ts[3].procs| == NPROC && ts[3].procs[1].state == Embryo && ts[3].procs[1].pid == 2 && ts[3].procs[1].killed
  {
    var free := Proc(Unused, 0, NONE, NoChan, Idle, false);
    var procs := seq(NPROC, i requires 0 <= i < NPROC => if i == 0 then Proc(Runnable, 1, NONE, NoChan, Idle, false) else free);
    var t0 := Table(procs, 2, 0);
    es := [Schedule(0), Kill(0, 0), Alloc(0)];
    var t1 := Do(t0, es[0]);
    assert FirstPid(t1.procs, 0, 0) == 1;
    var t2 := Do(t1, es[1]);
    assert FirstUnused(t2.procs, 0) == 1;
    var t3 := Do(t2, es[2]);
    ts := [t0, t1, t2, t3];
  }

  /** In every reachable state a started process other than init has a parent that is in use,
      not a zombie, and of smaller pid; and no process sleeps in wait with a zombie child. */
  lemma ExitAndWait(ts: seq<Table>, es: seq<Event>, k: nat)
    requires Run(ts, es) && k < |ts|
    ensures var procs, init := ts[k].procs, ts[k].init;
            && 0 <= init < |procs| && Alive(procs[init].state)
            && (forall i :: 0 <= i < |procs| && Started(procs[i].state) && i != init ==> GoodParent(procs, i))
            && (forall p :: 0 <= p < |procs| && InWait(procs[p], p) ==> !HasZombie(procs, p))
  {
    var t := ts[k];
    RunInv(ts, es, k);
    assert 0 <= t.init < |t.procs|;
    hide Inv;
    At(t, t.init, t.init);
    forall i | 0 <= i < |t.procs| && Started(t.procs[i].state) && i != t.init ensures GoodParent(t.procs, i) {
      At(t, i, i);
      At(t, i, t.procs[i].parent);
    }
    forall p, i | 0 <= p < |t.procs| && InWait(t.procs[p], p) && 0 <= i < |t.procs| && t.procs[i].parent == p
      ensures t.procs[i].state != Zombie
    {
      At(t, p, i);
    }
  }

  predicate GoodParent(procs: seq<Proc>, i: int) {
    && 0 <= i < |procs| && 0 <= procs[i].parent < |procs|
    && Alive(procs[procs[i].parent].state) && procs[procs[i].parent].pid < procs[i].pid
  }

  /** Following parents from a started process, n steps. */
  function Ancestor(procs: seq<Proc>, i: int, n: nat): int
    decreases n
  {
    if n == 0 || !(0 <= i < |procs|) then i else Ancestor(procs, procs[i].parent, n - 1)
  }

  /** So the relation is a tree rooted at init. */
  lemma {:induction false} AllFromInit(t: Table, i: int) returns (n: nat)
    requires Inv(t) && 0 <= i < |t.procs| && Started(t.procs[i].state)
    ensures Ancestor(t.procs, i, n) == t.init
    decreases t.procs[i].pid - t.procs[t.init].pid
  {
    assert 0 <= t.init < |t.procs|;
    hide Inv;
    if i == t.init {
      n := 0;
    } else {
      var p := t.procs[i].parent;
      At(t, i, i);
      At(t, i, p);
      At(t, t.init, i);
      At(t, t.init, p);
      n := AllFromInit(t, p);
      n := n + 1;
    }
  }
}
