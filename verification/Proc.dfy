/** proc.c: the loops over ptable.proc, each against its effect on the table as a value. */
module Proc {
  import opened Params
  import opened ProcSpec

  class ProcTable {
    const proc: array<ProcSpec.Proc>
    var nextpid: int
    var initproc: int

    ghost function View(): Table
      reads this, proc
    {
      Table(proc[..], nextpid, initproc)
    }

    /** The zeroed table after userinit. */
    constructor ()
      ensures fresh(proc) && Boot(View()) && Inv(View())
    {
      proc := new ProcSpec.Proc[NPROC](i => Proc(Unused, 0, NONE, NoChan, Idle, false));
      nextpid := 1;
      initproc := 0;
      new;
      proc[0] := proc[0].(state := Embryo, pid := nextpid);
      nextpid := nextpid + 1;
      proc[0] := proc[0].(state := Runnable);
      BootInv(View());
    }

    method Wakeup1(chan: Chan)
      modifies proc
      ensures proc[..] == Woken(old(proc[..]), chan)
    {
      var p := 0;
      while p < proc.Length
        invariant 0 <= p <= proc.Length
        invariant proc[..p] == Woken(old(proc[..]), chan)[..p] && proc[p..] == old(proc[..])[p..]
      {
        if proc[p].state == Sleeping && proc[p].chan == chan {
          proc[p] := proc[p].(state := Runnable);
        }
        p := p + 1;
      }
    }

    /** allocproc up to the release of the lock, for curproc in fork; -1 when the table is full. */
    method Allocproc(curproc: int) returns (np: int)
      requires Inv(View()) && IsRunning(View(), curproc) && proc[curproc].task == Idle
      modifies this`nextpid, proc
      ensures np == FirstUnused(old(proc[..]), 0)
      ensures np == NONE ==> View() == old(View())
      ensures np != NONE ==> View() == Do(old(View()), Alloc(curproc)) && proc[np].pid == old(nextpid)
      ensures Inv(View())
    {
      hide Inv;
      var p := 0;
      while p < proc.Length && proc[p].state != Unused
        invariant 0 <= p <= proc.Length && FirstUnused(proc[..], p) == FirstUnused(proc[..], 0)
      {
        p := p + 1;
      }
      if p == proc.Length {
        return NONE;
      }
      Keep(View(), Alloc(curproc));
      proc[p] := proc[p].(state := Embryo, pid := nextpid);
      nextpid := nextpid + 1;
      proc[curproc] := proc[curproc].(task := Forking(p));
      np := p;
      assert proc[..] == Do(old(View()), Alloc(curproc)).procs;
    }

    /** exit's loop that passes abandoned children to init. */
    method PassChildren(curproc: int)
      modifies proc
      ensures forall i :: 0 <= i < proc.Length ==>
        proc[i] == Passing(old(proc[i]), i, curproc, initproc, proc.Length, ZombieBelow(old(proc[..]), curproc, proc.Length))
    {
      ghost var woken := proc[..];
      var p := 0;
      while p < proc.Length
        invariant 0 <= p <= proc.Length
        invariant forall i :: 0 <= i < proc.Length ==> proc[i] == Passing(woken[i], i, curproc, initproc, p, ZombieBelow(woken, curproc, p))
      {
        ghost var before := proc[..];
        assert before[p] == Passing(woken[p], p, curproc, initproc, p, ZombieBelow(woken, curproc, p));
        if proc[p].parent == curproc {
          proc[p] := proc[p].(parent := initproc);
          if proc[p].state == Zombie {
            Wakeup1(Entry(initproc));
          }
        }
        p := p + 1;
      }
    }

    /** exit from the acquire of the lock on; false is the panic of init exiting. */
    method Exit(curproc: int) returns (ok: bool)
      requires Inv(View()) && IsRunning(View(), curproc) && proc[curproc].task == Idle
      modifies proc
      ensures ok == (curproc != initproc) && Inv(View())
      ensures View() == if ok then Do(old(View()), ProcSpec.Exit(curproc)) else old(View())
    {
      hide Inv, Exited, HasZombie, Started, Alive, Passing, ZombieBelow;
      ok := curproc != initproc;
      if !ok {
        return;
      }
      Keep(View(), ProcSpec.Exit(curproc));
      assert Do(View(), ProcSpec.Exit(curproc)) == View().(procs := Exited(proc[..], curproc, initproc));
      hide Do, Enabled;
      ghost var procs0 := proc[..];
      Wakeup1(Entry(proc[curproc].parent));
      ghost var woken := proc[..];
      PassChildren(curproc);
      proc[curproc] := proc[curproc].(state := Zombie);
      PassedAll(procs0, woken, curproc, initproc);
      assert proc[..] == Exited(procs0, curproc, initproc);
    }

    /** kill; -1 when there is no such pid. */
    method Kill(curproc: int, pid: int) returns (r: int)
      requires Inv(View()) && IsRunning(View(), curproc)
      modifies proc
      ensures View() == Do(old(View()), ProcSpec.Kill(curproc, pid)) && Inv(View())
      ensures r == -1 <==> forall i :: 0 <= i < proc.Length ==> old(proc[i].pid) != pid
      ensures r == -1 ==> proc[..] == old(proc[..])
      ensures r != -1 ==> r == 0 && exists v :: 0 <= v < proc.Length && old(proc[v].pid) == pid && proc[v].killed && proc[v].state != Sleeping
    {
      hide Inv;
      Keep(View(), ProcSpec.Kill(curproc, pid));
      ghost var procs0 := proc[..];
      var p := 0;
      while p < proc.Length
        invariant 0 <= p <= proc.Length && proc[..] == procs0
        invariant FirstPid(procs0, pid, p) == FirstPid(procs0, pid, 0)
      {
        if proc[p].pid == pid {
          proc[p] := proc[p].(killed := true);
          if proc[p].state == Sleeping {
            proc[p] := proc[p].(state := Runnable);
          }
          assert proc[..] == Killed(procs0, pid);
          return 0;
        }
        p := p + 1;
      }
      return -1;
    }

    /** wait's loop: the first zombie child, or the length of the table if there is none. */
    method FindZombie(curproc: int) returns (havekids: bool, p: int)
      ensures FirstZombie(proc[..], curproc, 0) == if p < proc.Length then p else NONE
      ensures 0 <= p <= proc.Length && (p == proc.Length ==> (havekids <==> HasKid(proc[..], curproc)))
    {
      havekids, p := false, 0;
      while p < proc.Length
        invariant 0 <= p <= proc.Length
        invariant FirstZombie(proc[..], curproc, p) == FirstZombie(proc[..], curproc, 0)
        invariant havekids <==> exists i :: 0 <= i < p && proc[i].parent == curproc
      {
        if proc[p].parent == curproc {
          havekids := true;
          if proc[p].state == Zombie {
            return;
          }
        }
        p := p + 1;
      }
    }

    /** One scan of wait under the lock: the pid reaped, -1 for no children or when killed, or 0 when now
        asleep. z is the slot reaped. */
    method Wait(curproc: int) returns (pid: int, ghost z: int)
      requires Inv(View()) && IsRunning(View(), curproc) && (proc[curproc].task == Idle || proc[curproc].task == Waiting)
      modifies proc
      ensures View() == Do(old(View()), ProcSpec.Wait(curproc)) && Inv(View())
      ensures z != NONE ==>
                && 0 <= z < proc.Length && old(proc[z].parent) == curproc && old(proc[z].state) == Zombie
                && (forall i :: 0 <= i < z ==> !(old(proc[i].parent) == curproc && old(proc[i].state) == Zombie))
                && pid == old(proc[z].pid) && proc[z].state == Unused && proc[z].pid == 0 && proc[z].parent == NONE && !proc[z].killed
                && proc[curproc] == old(proc[curproc]).(task := Idle)
      ensures z == NONE ==>
                && (forall i :: 0 <= i < proc.Length ==> !(old(proc[i].parent) == curproc && old(proc[i].state) == Zombie))
                && if old(proc[curproc].killed) || forall i :: 0 <= i < proc.Length ==> old(proc[i].parent) != curproc
                   then pid == -1 && proc[curproc] == old(proc[curproc]).(task := Idle)
                   else pid == 0 && proc[curproc] == old(proc[curproc]).(state := Sleeping, chan := Entry(curproc), task := Waiting)
      ensures forall i :: 0 <= i < proc.Length && i != curproc && i != z ==> proc[i] == old(proc[i])
    {
      z := WaitExact(View(), curproc);
      WaitedFirst(View(), curproc, z);
      hide Inv;
      Keep(View(), ProcSpec.Wait(curproc));
      var havekids, p := FindZombie(curproc);
      if p < proc.Length {
        pid := proc[p].pid;
        proc[p] := proc[p].(pid := 0, parent := NONE, killed := false, state := Unused);
        proc[curproc] := proc[curproc].(task := Idle);
      } else if !havekids || proc[curproc].killed {
        proc[curproc] := proc[curproc].(task := Idle);
        pid := -1;
      } else {
        proc[curproc] := proc[curproc].(state := Sleeping, chan := Entry(curproc), task := Waiting);
        pid := 0;
      }
      assert proc[..] == Waited(old(proc[..]), curproc);
    }
  }

  predicate ZombieBelow(procs: seq<ProcSpec.Proc>, p: int, k: int) {
    exists i :: 0 <= i < k && i < |procs| && procs[i].parent == p && procs[i].state == Zombie
  }

  /** Slot i of the woken table when the loop of exit has come to slot k. */
  function Passing(q: ProcSpec.Proc, i: int, p: int, init: int, k: int, told: bool): ProcSpec.Proc {
    var q1 := if i < k && q.parent == p then q.(parent := init) else q;
    if told && q.state == Sleeping && q.chan == Entry(init) then q1.(state := Runnable) else q1
  }

  lemma PassedAll(procs: seq<ProcSpec.Proc>, woken: seq<ProcSpec.Proc>, p: int, init: int)
    requires 0 <= p < |procs| && woken == Woken(procs, Entry(procs[p].parent))
    ensures forall i :: 0 <= i < |procs| ==>
      var q := Passing(woken[i], i, p, init, |procs|, ZombieBelow(woken, p, |procs|));
      Exited(procs, p, init)[i] == if i == p then q.(state := Zombie) else q
  {
    assert ZombieBelow(woken, p, |procs|) == HasZombie(woken, p);
  }
}
