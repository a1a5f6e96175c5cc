/** a2/sysproc.c: the reusable barrier. One event is one hold of bar.lock. */
module Barrier {
  import opened Params
  import opened Sets

  /** A participant between calls, asleep in sys_barrier, or woken there and about to return. */
  datatype Phase = Outside | Asleep | Woken

  /** bar, with what each participant is doing and has done; rounds counts the full rounds. */
  datatype State = State(arrived: int, pids: seq<int>, phase: map<int, Phase>,
                         arrivals: map<int, int>, departures: map<int, int>, rounds: int)

  datatype Event = Arrive(p: int) | Return(p: int)

  /** wakeup on the channel of each of qs. */
  function WakeAll(phase: map<int, Phase>, qs: seq<int>): map<int, Phase> {
    map q | q in phase :: if phase[q] == Asleep && q in qs then Woken else phase[q]
  }

  predicate Enabled(s: State, e: Event) {
    && e.p in s.phase && e.p in s.arrivals && e.p in s.departures
    && s.phase[e.p] == if e.Arrive? then Outside else Woken
  }

  /** n is num_procs. */
  function Do(s: State, n: int, e: Event): State
    requires Enabled(s, e) && 0 <= s.arrived < n <= |s.pids|
  {
    match e
    case Arrive(p) =>
      var s1 := s.(arrivals := s.arrivals[p := s.arrivals[p] + 1]);
      if s.arrived + 1 < n then
        s1.(arrived := s.arrived + 1, pids := s.pids[s.arrived := p], phase := s.phase[p := Asleep])
      else
        s1.(arrived := 0, phase := WakeAll(s.phase, s.pids[..n]), departures := s.departures[p := s.departures[p] + 1], rounds := s.rounds + 1)
    case Return(p) =>
      s.(phase := s.phase[p := Outside], departures := s.departures[p := s.departures[p] + 1])
  }

  /** The sleepers are pids[0..arrived), each once. */
  ghost predicate Sleepers(procs: set<int>, arrived: int, pids: seq<int>, phase: map<int, Phase>) {
    && phase.Keys == procs && 0 <= arrived <= |pids|
    && (forall i :: 0 <= i < arrived ==> pids[i] in procs && phase[pids[i]] == Asleep)
    && (forall i, j :: 0 <= i < j < arrived ==> pids[i] != pids[j])
    && (forall q :: q in procs && phase[q] == Asleep ==> q in pids[..arrived])
  }

  /** A sleeper has arrived once more than there are full rounds; one that is woken has one return to make. */
  ghost predicate Counts(procs: set<int>, phase: map<int, Phase>, arrivals: map<int, int>, departures: map<int, int>, rounds: int) {
    && phase.Keys == procs && arrivals.Keys == procs && departures.Keys == procs
    && (forall q :: q in procs ==> arrivals[q] == if phase[q] == Asleep then rounds + 1 else rounds)
    && (forall q :: q in procs ==> departures[q] == if phase[q] == Woken then rounds - 1 else rounds)
  }

  ghost predicate Inv(procs: set<int>, s: State) {
    && 0 < |procs| <= |s.pids| && 0 <= s.arrived < |procs|
    && Sleepers(procs, s.arrived, s.pids, s.phase)
    && Counts(procs, s.phase, s.arrivals, s.departures, s.rounds)
  }

  /** After sys_barrier_init(n), before any participant calls. */
  ghost predicate Init(procs: set<int>, s: State) {
    && 0 < |procs| <= NPROC == |s.pids| && s.arrived == 0 && s.rounds == 0
    && s.phase.Keys == procs && s.arrivals.Keys == procs && s.departures.Keys == procs
    && (forall q :: q in procs ==> s.phase[q] == Outside && s.arrivals[q] == 0 && s.departures[q] == 0)
  }

  /** When all but one have arrived, all others are asleep. */
  lemma AllAsleep(procs: set<int>, s: State, p: int)
    requires Inv(procs, s) && s.arrived == |procs| - 1 && p in procs && s.phase[p] == Outside
    ensures forall q :: q in procs && q != p ==> s.phase[q] == Asleep && q in s.pids[..s.arrived]
  {
    var qs := s.pids[..s.arrived];
    DistinctCount(qs);
    assert Elements(qs) <= procs - {p};
    FullSubset(Elements(qs), procs - {p});
    forall q | q in procs && q != p ensures q in qs {
      assert q in procs - {p};
    }
  }

  lemma FullPhase(procs: set<int>, s: State, p: int)
    requires Inv(procs, s) && Enabled(s, Arrive(p)) && s.arrived + 1 == |procs|
    ensures var phase' := WakeAll(s.phase, s.pids[..|procs|]);
            && p in procs && phase'.Keys == procs && phase'[p] == Outside
            && (forall q :: q in procs && q != p ==> phase'[q] == Woken && s.phase[q] == Asleep)
  {
    AllAsleep(procs, s, p);
    var n := |procs|;
    forall q | q in s.pids[..s.arrived] ensures q in s.pids[..n] {
      assert s.pids[..n][..s.arrived] == s.pids[..s.arrived];
    }
  }

  /** The last one in wakes everybody and the barrier starts over. */
  lemma KeepFull(procs: set<int>, s: State, p: int)
    requires Inv(procs, s) && Enabled(s, Arrive(p)) && s.arrived + 1 == |procs|
    ensures Inv(procs, Do(s, |procs|, Arrive(p))) && p in procs
    ensures forall q :: q in procs ==> Do(s, |procs|, Arrive(p)).phase[q] != Asleep
  {
    hide WakeAll, Sleepers, Counts;
    FullPhase(procs, s, p);
    var phase' := WakeAll(s.phase, s.pids[..|procs|]);
    NoSleepers(procs, s.pids, phase');
    FullCounts(procs, s.phase, phase', s.arrivals, s.departures, s.rounds, p);
  }

  lemma NoSleepers(procs: set<int>, pids: seq<int>, phase: map<int, Phase>)
    requires phase.Keys == procs && forall q :: q in procs ==> phase[q] != Asleep
    ensures Sleepers(procs, 0, pids, phase)
  {
  }

  lemma FullCounts(procs: set<int>, phase: map<int, Phase>, phase': map<int, Phase>, arrivals: map<int, int>, departures: map<int, int>,
                   rounds: int, p: int)
    requires Counts(procs, phase, arrivals, departures, rounds) && p in procs && phase[p] == Outside
    requires phase'.Keys == procs && phase'[p] == Outside
    requires forall q :: q in procs && q != p ==> phase'[q] == Woken && phase[q] == Asleep
    ensures Counts(procs, phase', arrivals[p := arrivals[p] + 1], departures[p := departures[p] + 1], rounds + 1)
  {
  }

  lemma SleepersMore(procs: set<int>, arrived: int, pids: seq<int>, phase: map<int, Phase>, p: int)
    requires Sleepers(procs, arrived, pids, phase) && p in procs && phase[p] == Outside && arrived < |pids|
    ensures Sleepers(procs, arrived + 1, pids[arrived := p], phase[p := Asleep])
  {
    var pids' := pids[arrived := p];
    assert pids'[..arrived + 1] == pids[..arrived] + [p];
    assert forall i :: 0 <= i < arrived ==> pids'[i] == pids[i] != p;
  }

  lemma SleepCounts(procs: set<int>, phase: map<int, Phase>, arrivals: map<int, int>, departures: map<int, int>, rounds: int, p: int)
    requires Counts(procs, phase, arrivals, departures, rounds) && p in procs && phase[p] == Outside
    ensures Counts(procs, phase[p := Asleep], arrivals[p := arrivals[p] + 1], departures, rounds)
  {
  }

  lemma KeepSleep(procs: set<int>, s: State, p: int)
    requires Inv(procs, s) && Enabled(s, Arrive(p)) && s.arrived + 1 < |procs|
    ensures Inv(procs, Do(s, |procs|, Arrive(p)))
  {
    assert p in procs by { assert s.phase.Keys == procs; }
    hide Sleepers, Counts;
    SleepersMore(procs, s.arrived, s.pids, s.phase, p);
    SleepCounts(procs, s.phase, s.arrivals, s.departures, s.rounds, p);
  }

  lemma KeepReturn(procs: set<int>, s: State, p: int)
    requires Inv(procs, s) && Enabled(s, Return(p))
    ensures Inv(procs, Do(s, |procs|, Return(p)))
  {
    assert Sleepers(procs, s.arrived, s.pids, s.phase[p := Outside]);
  }

  lemma Keep(procs: set<int>, s: State, e: Event)
    requires Inv(procs, s) && Enabled(s, e)
    ensures Inv(procs, Do(s, |procs|, e))
  {
    assert 0 <= s.arrived < |procs|;
    hide Inv, Enabled, Do;
    match e
    case Return(p) => KeepReturn(procs, s, p);
    case Arrive(p) =>
      if s.arrived + 1 == |procs| {
        KeepFull(procs, s, p);
      } else {
        KeepSleep(procs, s, p);
      }
  }

  // ---------- runs ----------

  ghost predicate Run(procs: set<int>, ss: seq<State>, es: seq<Event>) {
    && |ss| == |es| + 1 && Init(procs, ss[0])
    && (forall k {:trigger es[k]} :: 0 <= k < |es| ==>
          Enabled(ss[k], es[k]) && 0 <= ss[k].arrived < |procs| <= |ss[k].pids| && ss[k + 1] == Do(ss[k], |procs|, es[k]))
  }

  lemma {:induction false} RunInv(procs: set<int>, ss: seq<State>, es: seq<Event>, k: nat)
    requires Run(procs, ss, es) && k < |ss|
    ensures Inv(procs, ss[k])
    decreases k
  {
    if k > 0 {
      hide Inv, Init, Enabled, Do;
      RunInv(procs, ss, es, k - 1);
      var e := es[k - 1];
      Keep(procs, ss[k - 1], e);
    }
  }

  /** In every reachable state: nobody has returned more often than anybody has arrived, arrivals
      differ by at most one, and the sleepers are exactly those arrived in the open round. */
  lemma BarrierSafe(procs: set<int>, ss: seq<State>, es: seq<Event>, k: nat)
    requires Run(procs, ss, es) && k < |ss|
    ensures var s := ss[k];
            && s.arrivals.Keys == procs && s.departures.Keys == procs && s.phase.Keys == procs
            && (forall p, q :: p in procs && q in procs ==> s.departures[p] <= s.arrivals[q] && s.arrivals[p] <= s.arrivals[q] + 1)
            && 0 <= s.arrived < |procs| <= |s.pids|
            && (forall q :: q in procs ==> (s.phase[q] == Asleep <==> q in s.pids[..s.arrived]))
  {
    RunInv(procs, ss, es, k);
    var s := ss[k];
    forall q | q in s.pids[..s.arrived] ensures q in procs && s.phase[q] == Asleep {
      var i :| 0 <= i < s.arrived && s.pids[..s.arrived][i] == q;
    }
  }

  /** Not everybody can be asleep, so someone can always move. */
  lemma SomeoneCanMove(procs: set<int>, s: State)
    requires Inv(procs, s)
    ensures exists e: Event :: Enabled(s, e)
  {
    var qs := s.pids[..s.arrived];
    DistinctCount(qs);
    var q := Extra(procs, Elements(qs));
    var e := if s.phase[q] == Outside then Arrive(q) else Return(q);
    assert Enabled(s, e);
  }

  // ---------- sys_barrier ----------

  class Bar {
    var numProcs: int
    var arrived: int
    var pids: seq<int>
    var phase: map<int, Phase>
    ghost var procs: set<int>
    ghost var arrivals: map<int, int>
    ghost var departures: map<int, int>
    ghost var rounds: int

    ghost function View(): State
      reads this
    {
      State(arrived, pids, phase, arrivals, departures, rounds)
    }

    ghost predicate Valid()
      reads this
    {
      numProcs == |procs| && Inv(procs, View())
    }

    /** sys_barrier_init for the processes in procs, on an arbitrary pids array. */
    constructor (numProcs: int, pids: seq<int>, procs: set<int>)
      requires numProcs == |procs| && 0 < numProcs <= NPROC == |pids|
      ensures Valid() && Init(procs, View()) && this.procs == procs
    {
      this.numProcs, arrived, this.pids, this.procs := numProcs, 0, pids, procs;
      phase := map q | q in procs :: Outside;
      arrivals, departures, rounds := map q | q in procs :: 0, map q | q in procs :: 0, 0;
    }

    /** wakeup on a pid as channel, among the participants. */
    method Wakeup(pid: int)
      modifies this`phase
      ensures phase == WakeAll(old(phase), [pid])
    {
      phase := map q | q in phase :: if phase[q] == Asleep && q == pid then Woken else phase[q];
    }

    /** Lines 383-384. */
    method WakeSleepers()
      requires 0 <= numProcs <= |pids|
      modifies this`phase
      ensures phase == WakeAll(old(phase), pids[..numProcs])
    {
      var i := 0;
      while i < numProcs
        invariant 0 <= i <= numProcs && phase == WakeAll(old(phase), pids[..i])
      {
        Wakeup(pids[i]);
        assert pids[..i + 1] == pids[..i] + [pids[i]];
        i := i + 1;
      }
    }

    /** sys_barrier up to the sleep or the return; true when it sleeps. */
    method Barrier(me: int) returns (sleeps: bool)
      requires Valid() && Enabled(View(), Arrive(me))
      modifies this
      ensures Valid() && procs == old(procs) && View() == Do(old(View()), |procs|, Arrive(me))
      ensures sleeps == (phase[me] == Asleep)
      ensures !sleeps ==> forall q :: q in procs ==> phase[q] != Asleep
    {
      hide Sleepers, Counts, WakeAll;
      Keep(procs, View(), Arrive(me));
      if arrived + 1 == |procs| {
        KeepFull(procs, View(), me);
      }
      arrivals := arrivals[me := arrivals[me] + 1];
      arrived := arrived + 1;
      if arrived < numProcs {
        pids := pids[arrived - 1 := me];
        phase := phase[me := Asleep];
        sleeps := true;
      } else {
        arrived := 0;
        WakeSleepers();
        departures := departures[me := departures[me] + 1];
        rounds := rounds + 1;
        sleeps := false;
      }
    }
  }
}
