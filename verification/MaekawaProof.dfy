/** Mutual exclusion, deadlock freedom and termination of the protocol, for every grid. */
module MaekawaProof {
  import opened Quorum
  import opened Maekawa
  import opened Sets

  // ---------- mailboxes as sets of keys ----------

  /** A message is identified by its sender and by being a grant or a release. */
  function KeyOf(m: Msg): (int, bool) {
    (m.from, m.val >= RELEASE)
  }

  ghost function Keys(mbox: seq<Msg>): set<(int, bool)> {
    set i | 0 <= i < |mbox| :: KeyOf(mbox[i])
  }

  ghost predicate NoDup(mbox: seq<Msg>) {
    forall i, j :: 0 <= i < j < |mbox| ==> KeyOf(mbox[i]) != KeyOf(mbox[j])
  }

  lemma KeysPush(mbox: seq<Msg>, m: Msg)
    ensures Keys(mbox + [m]) == Keys(mbox) + {KeyOf(m)}
    ensures NoDup(mbox) && KeyOf(m) !in Keys(mbox) ==> NoDup(mbox + [m])
  {
    var l := mbox + [m];
    assert forall i :: 0 <= i < |mbox| ==> KeyOf(l[i]) == KeyOf(mbox[i]);
    assert KeyOf(l[|mbox|]) == KeyOf(m);
  }

  lemma KeysPop(mbox: seq<Msg>)
    requires mbox != [] && NoDup(mbox)
    ensures KeyOf(mbox[0]) in Keys(mbox)
    ensures Keys(mbox[1..]) == Keys(mbox) - {KeyOf(mbox[0])} && NoDup(mbox[1..])
  {
    var l := mbox[1..];
    assert forall i :: 0 <= i < |l| ==> KeyOf(l[i]) == KeyOf(mbox[i + 1]);
    forall k | k in Keys(mbox) && k != KeyOf(mbox[0]) ensures k in Keys(l) {
      var i :| 0 <= i < |mbox| && KeyOf(mbox[i]) == k;
      assert KeyOf(l[i - 1]) == k;
    }
  }

  // ---------- the invariant ----------

  /** The requester arbiter a has granted and not yet been released by; past the end, all
      of its requesters have released it. */
  function Cur(n: nat, a: nat, done: nat): int
    requires n > 0
  {
    if done < |Members(n, a)| then Members(n, a)[done] else Procs(n)
  }

  /** r has given arbiter a's grant back. */
  predicate Released(phase: Phase, r: int, a: int) {
    match phase
    case Collecting => false
    case Critical => false
    case Releasing(t) => a == r || a < t
    case Serving => true
    case Done => true
  }

  /** Arbiter's single token, seen by requester r: requesters before cur have had it and
      given it back, those after have not been granted it, and for cur it is in exactly
      one place: the grant under way, held, or the release under way. */
  predicate Token(cur: int, r: int, got: bool, grant: bool, rel: bool, released: bool) {
    if r < cur then got && released && !grant && !rel
    else if r > cur then !got && !grant && !rel
    else if got then !grant && rel == released
    else grant && !rel
  }

  ghost predicate Pair(n: nat, s: State, a: nat, r: nat)
    requires n > 0 && a < |s| && r < |s|
  {
    Token(Cur(n, a, s[a].done), r, a in s[r].got,
          (a, false) in Keys(s[r].mbox), (r, true) in Keys(s[a].mbox), Released(s[r].phase, r, a))
  }

  ghost predicate LocalOK(n: nat, p: nat, phase: Phase, num: nat, done: nat, q: seq<int>, got: set<int>)
    requires n > 0
  {
    && done <= 2 * n - 1 == |Members(n, p)| && num == |got| <= 2 * n - 1
    && q == Members(n, p)[if done < 2 * n - 1 then done + 1 else done..]
    && (phase.Collecting? <==> num < 2 * n - 1)
    && (forall a :: a in got ==> 0 <= a < Procs(n) && InQuorum(n, p, a))
    && (!phase.Collecting? ==> forall a :: 0 <= a < Procs(n) && InQuorum(n, p, a) ==> a in got)
    && (phase.Releasing? ==> phase.t <= Procs(n))
    && (phase.Done? ==> done == 2 * n - 1)
  }

  ghost predicate MailOK(n: nat, p: nat, mbox: seq<Msg>)
    requires n > 0
  {
    && NoDup(mbox)
    && (forall i :: 0 <= i < |mbox| ==> mbox[i].val <= RELEASE)
    && (forall k :: k in Keys(mbox) ==> 0 <= k.0 < Procs(n) && InQuorum(n, p, k.0))
  }

  ghost predicate ProcOK(n: nat, p: nat, pr: Proc)
    requires n > 0
  {
    LocalOK(n, p, pr.phase, pr.num, pr.done, pr.q, pr.got) && MailOK(n, p, pr.mbox)
  }

  ghost predicate AllProcs(n: nat, s: State)
    requires n > 0
  {
    |s| == Procs(n) && forall p :: 0 <= p < |s| ==> ProcOK(n, p, s[p])
  }

  ghost predicate Inv(n: nat, s: State)
    requires n > 0
  {
    && AllProcs(n, s)
    && forall a, r :: 0 <= a < |s| && 0 <= r < |s| && InQuorum(n, a, r) ==> Pair(n, s, a, r)
  }

  lemma Symmetric(n: nat)
    requires n > 0
    ensures forall a, b :: InQuorum(n, a, b) ==> InQuorum(n, b, a)
  {
  }

  lemma CurNext(n: nat, a: nat, d: nat)
    requires n > 0 && d < |Members(n, a)|
    ensures forall r :: 0 <= r < Procs(n) && InQuorum(n, a, r) ==> (r < Cur(n, a, d + 1) <==> r <= Cur(n, a, d))
    ensures Cur(n, a, d) < Procs(n)
  {
    var q := Members(n, a);
    hide InQuorum, Members;
    forall r | 0 <= r < Procs(n) && InQuorum(n, a, r)
      ensures r < Cur(n, a, d + 1) <==> r <= Cur(n, a, d)
    {
      var i :| 0 <= i < |q| && q[i] == r;
      assert i < d + 1 ==> r <= q[d];
      assert i > d ==> r > q[d];
    }
  }

  /** 2*size-1 grants from the quorum are the whole quorum. */
  lemma FullQuorum(n: nat, p: nat, got: set<int>)
    requires n > 0 && p < Procs(n) && |got| >= 2 * n - 1
    requires forall a :: a in got ==> 0 <= a < Procs(n) && InQuorum(n, p, a)
    ensures forall a :: 0 <= a < Procs(n) && InQuorum(n, p, a) ==> a in got
  {
    MembersCount(n, p);
    hide InQuorum, Members, Procs;
    var q := Members(n, p);
    var all := set i | 0 <= i < |q| :: q[i];
    SetOfSorted(q);
    forall a | a in got ensures a in all {
      assert a in q;
    }
    FullSubset(got, all);
    forall a | 0 <= a < Procs(n) && InQuorum(n, p, a) ensures a in got {
      assert a in q;
    }
  }

  lemma SetOfSorted(q: seq<int>)
    requires forall i, j :: 0 <= i < j < |q| ==> q[i] < q[j]
    ensures |set i | 0 <= i < |q| :: q[i]| == |q|
  {
    DistinctCount(q);
    var all := set i | 0 <= i < |q| :: q[i];
    assert all == Elements(q);
  }

  // ---------- every step keeps the invariant ----------

  /** A grant taken from the mailbox. */
  function GrantTaken(n: nat, pr: Proc): Proc
    requires pr.mbox != []
  {
    var num := pr.num + 1;
    pr.(mbox := pr.mbox[1..], num := num, got := pr.got + {pr.mbox[0].from}, phase := if num >= 2 * n - 1 then Critical else Collecting)
  }

  lemma TakeGrantLocal(n: nat, s: State, p: nat)
    requires n > 0 && Inv(n, s) && p < |s| && s[p].phase.Collecting? && s[p].mbox != [] && s[p].mbox[0].val < RELEASE
    ensures ProcOK(n, p, GrantTaken(n, s[p]))
    ensures var b := s[p].mbox[0].from;
            && Keys(s[p].mbox[1..]) == Keys(s[p].mbox) - {(b, false)} && (b, false) in Keys(s[p].mbox)
            && 0 <= b < Procs(n) && InQuorum(n, b, p) && b !in s[p].got
  {
    hide InQuorum, Members, Cur, Procs;
    Symmetric(n);
    var b := s[p].mbox[0].from;
    assert ProcOK(n, p, s[p]);
    KeysPop(s[p].mbox);
    hide Keys, NoDup;
    assert KeyOf(s[p].mbox[0]) == (b, false);
    assert InQuorum(n, b, p) && Pair(n, s, b, p);
    assert b !in s[p].got;
    if s[p].num + 1 >= 2 * n - 1 {
      FullQuorum(n, p, s[p].got + {b});
    }
  }

  lemma KeepTakeGrant(n: nat, s: State, p: nat, t: State)
    requires n > 0 && Inv(n, s) && p < |s| && s[p].phase.Collecting? && s[p].mbox != [] && s[p].mbox[0].val < RELEASE
    requires t == s[p := GrantTaken(n, s[p])]
    ensures Inv(n, t)
  {
    hide InQuorum, Members, Cur, Procs, Keys, ProcOK;
    TakeGrantLocal(n, s, p);
    var b := s[p].mbox[0].from;
    assert Pair(n, s, b, p);
    forall a, r | 0 <= a < |t| && 0 <= r < |t| && InQuorum(n, a, r) ensures Pair(n, t, a, r) {
      assert Pair(n, s, a, r);
    }
  }

  /** The token of arbiter p is free: its holder c has it no more and its release is consumed. */
  ghost predicate Freed(n: nat, s: State, p: nat)
    requires n > 0 && p < |s|
  {
    && AllProcs(n, s) && s[p].done < 2 * n - 1
    && var c := Cur(n, p, s[p].done);
    && 0 <= c < |s| && p in s[c].got && Released(s[c].phase, c, p)
    && (p, false) !in Keys(s[c].mbox) && (c, true) !in Keys(s[p].mbox)
    && forall a, r :: 0 <= a < |s| && 0 <= r < |s| && InQuorum(n, a, r) && (a, r) != (p, c) ==> Pair(n, s, a, r)
  }

  lemma ServeNextLocal(n: nat, p: nat, pr: Proc)
    requires n > 0 && ProcOK(n, p, pr) && pr.done < 2 * n - 1
    ensures if pr.q == [] then Cur(n, p, pr.done + 1) == Procs(n) && ProcOK(n, p, pr.(done := pr.done + 1))
            else Cur(n, p, pr.done + 1) == pr.q[0] && 0 <= pr.q[0] < Procs(n) && InQuorum(n, p, pr.q[0])
                 && ProcOK(n, p, pr.(done := pr.done + 1, q := pr.q[1..]))
  {
    hide InQuorum, Procs;
    var q := Members(n, p);
    assert pr.q == q[pr.done + 1..];
    if pr.q != [] {
      assert pr.q[0] == q[pr.done + 1] && pr.q[1..] == q[pr.done + 2..];
    }
  }

  lemma PushLocal(n: nat, p: nat, pr: Proc, m: Msg)
    requires n > 0 && ProcOK(n, p, pr) && KeyOf(m) !in Keys(pr.mbox) && m.val <= RELEASE
    requires 0 <= m.from < Procs(n) && InQuorum(n, p, m.from)
    ensures ProcOK(n, p, pr.(mbox := pr.mbox + [m]))
    ensures Keys(pr.mbox + [m]) == Keys(pr.mbox) + {KeyOf(m)}
  {
    hide InQuorum, Members, Procs;
    KeysPush(pr.mbox, m);
  }

  /** Passing the freed token of p on to e, the next in its queue, or to nobody. */
  lemma PassToken(n: nat, s: State, t: State, p: nat, d: nat, e: int)
    requires 0 < n && p < |s| == |t| && Freed(n, s, p) && d == s[p].done && e == Cur(n, p, d + 1)
    requires forall r :: 0 <= r < |s| && InQuorum(n, p, r) ==> (r < e <==> r <= Cur(n, p, d))
    requires t[p].done == d + 1 && forall x :: 0 <= x < |s| && x != p ==> t[x].done == s[x].done
    requires forall x :: 0 <= x < |s| ==> t[x].got == s[x].got && t[x].phase == s[x].phase
    requires forall x :: 0 <= x < |s| ==> Keys(t[x].mbox) == Keys(s[x].mbox) + if x == e then {(p as int, false)} else {}
    ensures forall a, r :: 0 <= a < |t| && 0 <= r < |t| && InQuorum(n, a, r) ==> Pair(n, t, a, r)
  {
    hide InQuorum, Members, Procs, Keys, Cur, AllProcs;
    var c := Cur(n, p, d);
    forall a, r | 0 <= a < |t| && 0 <= r < |t| && InQuorum(n, a, r) ensures Pair(n, t, a, r) {
      if (a, r) != (p, c) {
        assert Pair(n, s, a, r);
      }
    }
  }

  lemma ServeNextKeeps(n: nat, s: State, p: nat, tag: bool)
    requires 0 < n && Procs(n) <= RELEASE && p < |s| && Freed(n, s, p)
    ensures Inv(n, ServeNext(s, p, tag))
  {
    hide InQuorum, Members, Procs, Keys, LocalOK, MailOK;
    var t := ServeNext(s, p, tag);
    var d, e := s[p].done, Cur(n, p, s[p].done + 1);
    assert ProcOK(n, p, s[p]);
    DoneInRange(n, p, s[p]);
    CurNext(n, p, d);
    ServeNextLocal(n, p, s[p]);
    hide Cur, Pair;
    if s[p].q != [] {
      ServeNextGrants(n, s, p, tag);
    }
    PassToken(n, s, t, p, d, e);
  }

  lemma ServeNextGrants(n: nat, s: State, p: nat, tag: bool)
    requires 0 < n && Procs(n) <= RELEASE && p < |s| && Freed(n, s, p) && s[p].q != []
    requires |Members(n, p)| == 2 * n - 1
    ensures var t, e := ServeNext(s, p, tag), s[p].q[0];
            && AllProcs(n, t) && 0 <= e < |s|
            && forall x :: 0 <= x < |s| ==> Keys(t[x].mbox) == Keys(s[x].mbox) + if x == e then {(p as int, false)} else {}
  {
    hide InQuorum, Members, Procs, Keys, ProcOK, Freed, Cur;
    FreedProcs(n, s, p);
    var t, e, d := ServeNext(s, p, tag), s[p].q[0], s[p].done;
    ServeNextLocal(n, p, s[p]);
    NextUngranted(n, s, p, e);
    Symmetric(n);
    var s1 := s[p := s[p].(done := d + 1, q := s[p].q[1..])];
    var m := Msg(p, if tag then 100 else e);
    PushLocal(n, e, s1[e], m);
    assert t == s1[e := s1[e].(mbox := s1[e].mbox + [m])];
  }

  lemma FreedProcs(n: nat, s: State, p: nat)
    requires n > 0 && p < |s| && Freed(n, s, p)
    ensures AllProcs(n, s) && s[p].done < 2 * n - 1
  {
  }

  lemma NextUngranted(n: nat, s: State, p: nat, e: int)
    requires 0 < n && p < |s| && Freed(n, s, p) && |Members(n, p)| == 2 * n - 1
    requires e == Cur(n, p, s[p].done + 1) && 0 <= e < |s| && InQuorum(n, p, e)
    ensures (p, false) !in Keys(s[e].mbox)
  {
    hide InQuorum, Members, Procs, Keys, LocalOK, MailOK;
    CurNext(n, p, s[p].done);
    hide Cur;
    assert Pair(n, s, p, e);
  }

  lemma DoneInRange(n: nat, p: nat, pr: Proc)
    requires n > 0 && ProcOK(n, p, pr)
    ensures |Members(n, p)| == 2 * n - 1
  {
  }

  lemma PairFrame(n: nat, s: State, t: State, a: nat, r: nat)
    requires n > 0 && a < |s| == |t| && r < |s| && Pair(n, s, a, r)
    requires t[a].done == s[a].done && (a in t[r].got <==> a in s[r].got)
    requires (a, false) in Keys(t[r].mbox) <==> (a, false) in Keys(s[r].mbox)
    requires (r, true) in Keys(t[a].mbox) <==> (r, true) in Keys(s[a].mbox)
    requires Released(t[r].phase, r, a) == Released(s[r].phase, r, a)
    ensures Pair(n, t, a, r)
  {
  }

  lemma PopLocal(n: nat, p: nat, pr: Proc)
    requires n > 0 && ProcOK(n, p, pr) && pr.mbox != []
    ensures ProcOK(n, p, pr.(mbox := pr.mbox[1..]))
    ensures Keys(pr.mbox[1..]) == Keys(pr.mbox) - {KeyOf(pr.mbox[0])} && KeyOf(pr.mbox[0]) in Keys(pr.mbox)
    ensures 0 <= pr.mbox[0].from < Procs(n) && InQuorum(n, p, pr.mbox[0].from) && pr.mbox[0].val <= RELEASE
  {
    hide InQuorum, Members, Procs;
    KeysPop(pr.mbox);
    assert KeyOf(pr.mbox[0]).0 == pr.mbox[0].from;
  }

  /** A release at the head of arbiter p's mailbox comes from the current holder. */
  lemma TakeRelease(n: nat, s: State, p: nat)
    requires n > 0 && Inv(n, s) && p < |s| && s[p].mbox != [] && s[p].mbox[0].val >= RELEASE
    ensures Freed(n, s[p := s[p].(mbox := s[p].mbox[1..])], p)
  {
    hide InQuorum, Members, Procs, Keys, LocalOK, MailOK;
    var c := s[p].mbox[0].from;
    var t := s[p := s[p].(mbox := s[p].mbox[1..])];
    assert ProcOK(n, p, s[p]);
    PopLocal(n, p, s[p]);
    assert Pair(n, s, p, c);
    CurRange(n, p, s[p].done);
    DoneInRange(n, p, s[p]);
    hide Cur, ProcOK, Pair;
    forall a, r | 0 <= a < |t| && 0 <= r < |t| && InQuorum(n, a, r) && (a, r) != (p, c) ensures Pair(n, t, a, r) {
      PairFrame(n, s, t, a, r);
    }
  }

  lemma CurRange(n: nat, a: nat, d: nat)
    requires n > 0
    ensures d >= |Members(n, a)| ==> Cur(n, a, d) == Procs(n)
  {
  }

  /** Leaving the critical section, p gives its own grant back. */
  lemma SelfRelease(n: nat, s: State, p: nat)
    requires n > 0 && Inv(n, s) && p < |s| && s[p].phase.Critical?
    ensures Freed(n, s[p := s[p].(phase := Releasing(0))], p)
  {
    hide InQuorum, Members, Keys, NoDup;
    var t := s[p := s[p].(phase := Releasing(0))];
    assert InQuorum(n, p, p) by { SelfInQuorum(n, p); }
    assert ProcOK(n, p, s[p]) && Pair(n, s, p, p);
    CurRange(n, p, s[p].done);
    assert ProcOK(n, p, t[p]);
    hide Cur, Procs;
    forall a, r | 0 <= a < |t| && 0 <= r < |t| && InQuorum(n, a, r) && (a, r) != (p, p) ensures Pair(n, t, a, r) {
      assert Pair(n, s, a, r);
    }
  }

  lemma SelfInQuorum(n: nat, p: nat)
    requires n > 0
    ensures InQuorum(n, p, p)
  {
  }

  /** p sends its release to arbiter k. */
  lemma KeepSendRelease(n: nat, s: State, p: nat, k: nat)
    requires n > 0 && Inv(n, s) && p < |s| && s[p].phase == Releasing(k) && k < Procs(n) && InQuorum(n, p, k) && k != p
    ensures Inv(n, Step(n, s, p))
  {
    hide InQuorum, Members, Keys, Cur, Procs, MailOK;
    Symmetric(n);
    var t := Step(n, s, p);
    assert ProcOK(n, p, s[p]) && ProcOK(n, k, s[k]) && Pair(n, s, k, p);
    PushLocal(n, k, s[k], Msg(p, RELEASE));
    assert t == s[k := s[k].(mbox := s[k].mbox + [Msg(p, RELEASE)])][p := s[p].(phase := Releasing(k + 1))];
    assert ProcOK(n, p, t[p]);
    hide LocalOK;
    forall a, r | 0 <= a < |t| && 0 <= r < |t| && InQuorum(n, a, r) ensures Pair(n, t, a, r) {
      if (a, r) != (k, p) {
        PairFrame(n, s, t, a, r);
      }
    }
  }

  /** Moves of p that send nothing and give nothing back. */
  lemma KeepQuiet(n: nat, s: State, p: nat, phase: Phase)
    requires n > 0 && Inv(n, s) && p < |s| && !s[p].phase.Collecting? && !phase.Collecting?
    requires phase.Releasing? ==> phase.t <= Procs(n)
    requires phase.Done? ==> s[p].done >= 2 * n - 1
    requires forall a :: 0 <= a < |s| && InQuorum(n, a, p) ==> Released(phase, p, a) == Released(s[p].phase, p, a)
    ensures Inv(n, s[p := s[p].(phase := phase)])
  {
    hide InQuorum, Members, Keys, Cur, Procs, MailOK;
    var t := s[p := s[p].(phase := phase)];
    assert ProcOK(n, p, s[p]);
    assert ProcOK(n, p, t[p]);
    hide LocalOK;
    forall a, r | 0 <= a < |t| && 0 <= r < |t| && InQuorum(n, a, r) ensures Pair(n, t, a, r) {
      PairFrame(n, s, t, a, r);
    }
  }

  /** A process past its collecting phase receives releases only. */
  lemma OnlyReleases(n: nat, s: State, p: nat)
    requires n > 0 && Inv(n, s) && p < |s| && !s[p].phase.Collecting? && s[p].mbox != []
    ensures s[p].mbox[0].val == RELEASE
  {
    hide InQuorum, Members, Cur, Procs;
    Symmetric(n);
    assert ProcOK(n, p, s[p]);
    KeysPop(s[p].mbox);
    var b := s[p].mbox[0].from;
    assert InQuorum(n, b, p) && Pair(n, s, b, p);
  }

  lemma SizeKept(n: nat, s: State)
    requires n > 0 && Inv(n, s)
    ensures |s| == Procs(n)
  {
  }

  lemma NotFull(n: nat, s: State, p: nat)
    requires n > 0 && Inv(n, s) && p < |s| && s[p].phase.Collecting?
    ensures s[p].num < 2 * n - 1
  {
    assert ProcOK(n, p, s[p]);
  }

  lemma KeepReceive(n: nat, s: State, p: nat, tag: bool)
    requires 0 < n && Procs(n) <= RELEASE && Inv(n, s) && p < |s| && s[p].mbox != [] && s[p].mbox[0].val >= RELEASE
    ensures Inv(n, ServeNext(s[p := s[p].(mbox := s[p].mbox[1..])], p, tag))
  {
    hide Inv, Procs, Freed;
    TakeRelease(n, s, p);
    ServeNextKeeps(n, s[p := s[p].(mbox := s[p].mbox[1..])], p, tag);
  }

  lemma KeepCollecting(n: nat, s: State, p: nat)
    requires 0 < n && Procs(n) <= RELEASE && Inv(n, s) && Enabled(n, s, p) && s[p].phase.Collecting?
    ensures Inv(n, Step(n, s, p))
  {
    hide Inv, Procs, InQuorum;
    NotFull(n, s, p);
    if s[p].mbox[0].val >= RELEASE {
      KeepReceive(n, s, p, false);
      ServeNextFrame(s[p := s[p].(mbox := s[p].mbox[1..])], p, false);
    } else {
      KeepTakeGrant(n, s, p, Step(n, s, p));
    }
  }

  lemma KeepCritical(n: nat, s: State, p: nat)
    requires 0 < n && Procs(n) <= RELEASE && Inv(n, s) && Enabled(n, s, p) && s[p].phase.Critical?
    ensures Inv(n, Step(n, s, p))
  {
    hide Inv, Procs, InQuorum, Freed;
    SelfRelease(n, s, p);
    var s1 := s[p := s[p].(phase := Releasing(0))];
    ServeNextKeeps(n, s1, p, false);
    assert Step(n, s, p) == ServeNext(s1, p, false);
  }

  lemma KeepReleasing(n: nat, s: State, p: nat)
    requires 0 < n && Inv(n, s) && Enabled(n, s, p) && s[p].phase.Releasing?
    ensures Inv(n, Step(n, s, p))
  {
    hide Inv, Procs, InQuorum;
    SizeKept(n, s);
    Symmetric(n);
    var k := s[p].phase.t;
    if k >= Procs(n) {
      KeepQuiet(n, s, p, Serving);
    } else if InQuorum(n, p, k) && k != p {
      KeepSendRelease(n, s, p, k);
    } else {
      KeepQuiet(n, s, p, Releasing(k + 1));
    }
  }

  lemma KeepServing(n: nat, s: State, p: nat)
    requires 0 < n && Procs(n) <= RELEASE && Inv(n, s) && Enabled(n, s, p) && s[p].phase.Serving?
    ensures Inv(n, Step(n, s, p))
  {
    hide Inv, Procs, InQuorum;
    if s[p].done >= 2 * n - 1 {
      KeepQuiet(n, s, p, Done);
    } else {
      OnlyReleases(n, s, p);
      KeepReceive(n, s, p, true);
    }
  }

  lemma KeepStep(n: nat, s: State, p: nat)
    requires 0 < n && Procs(n) <= RELEASE && Inv(n, s) && Enabled(n, s, p)
    ensures Inv(n, Step(n, s, p))
  {
    hide Inv, Procs, Step;
    match s[p].phase
    case Collecting => KeepCollecting(n, s, p);
    case Critical => KeepCritical(n, s, p);
    case Releasing(_) => KeepReleasing(n, s, p);
    case Serving => KeepServing(n, s, p);
  }

  lemma ServeNextFrame(s: State, p: nat, tag: bool)
    requires p < |s|
    ensures ServeNext(s, p, tag)[p].num == s[p].num && ServeNext(s, p, tag)[p].phase == s[p].phase
    ensures ServeNext(s, p, tag)[p].done == s[p].done + 1
  {
  }

  // ---------- the state after the initial grants ----------

  lemma {:induction false} FirstMailKeys(n: nat, p: nat, k: nat)
    requires n > 0
    ensures var l := FirstMail(n, p, k);
            && NoDup(l) && (forall i :: 0 <= i < |l| ==> l[i].val == p)
            && (p < RELEASE ==> forall x :: x in Keys(l) <==>
                  !x.1 && 0 <= x.0 < k && |Members(n, x.0)| > 0 && Members(n, x.0)[0] == p)
  {
    hide InQuorum, Members;
    if k > 0 {
      FirstMailKeys(n, p, k - 1);
      if |Members(n, k - 1)| > 0 && Members(n, k - 1)[0] == p {
        KeysPush(FirstMail(n, p, k - 1), Msg(k - 1, p));
        SendersBelow(n, p, k - 1);
      }
    }
  }

  lemma {:induction false} SendersBelow(n: nat, p: nat, k: nat)
    requires n > 0
    ensures forall x :: x in Keys(FirstMail(n, p, k)) ==> x.0 < k
  {
    hide InQuorum, Members;
    if k > 0 {
      SendersBelow(n, p, k - 1);
      KeysPush(FirstMail(n, p, k - 1), Msg(k - 1, p));
    }
  }

  lemma InitInv(n: nat, s: State)
    requires 0 < n && Procs(n) <= RELEASE && Init(n, s)
    ensures Inv(n, s)
  {
    hide InQuorum, Members, Procs, FirstMail;
    Symmetric(n);
    forall p | 0 <= p < |s| ensures ProcOK(n, p, s[p]) {
      MembersCount(n, p);
      FirstMailKeys(n, p, Procs(n));
      forall x | x in Keys(s[p].mbox) ensures InQuorum(n, p, x.0) {
        assert InQuorum(n, x.0, Members(n, x.0)[0]);
      }
    }
    forall a, r | 0 <= a < |s| && 0 <= r < |s| && InQuorum(n, a, r) ensures Pair(n, s, a, r) {
      FirstMailKeys(n, r, Procs(n));
      FirstMailKeys(n, a, Procs(n));
      MembersCount(n, a);
      assert r in Members(n, a);
    }
  }

  // ---------- mutual exclusion ----------

  /** Holding the whole quorum and having given nothing back, p is the holder of each of
      its arbiters' tokens. */
  lemma HoldsToken(n: nat, s: State, p: nat, a: nat)
    requires n > 0 && Inv(n, s) && p < |s| && s[p].phase.Critical? && a < |s| && InQuorum(n, a, p)
    ensures Cur(n, a, s[a].done) == p
  {
    hide InQuorum, Members, Keys, Cur, MailOK;
    Symmetric(n);
    assert ProcOK(n, p, s[p]) && Pair(n, s, a, p);
  }

  lemma AtMostOneCritical(n: nat, s: State, p: nat, r: nat)
    requires n > 0 && Inv(n, s) && p < |s| && r < |s| && s[p].phase.Critical? && s[r].phase.Critical?
    ensures p == r
  {
    SizeKept(n, s);
    hide Inv, InQuorum, Cur, Procs;
    var a := QuorumsMeet(n, p, r);
    HoldsToken(n, s, p, a);
    HoldsToken(n, s, r, a);
  }

  // ---------- deadlock freedom ----------

  predicate Stuck(n: nat, s: State) {
    forall p :: 0 <= p < |s| ==> !Enabled(n, s, p)
  }

  lemma ReleaseMeansOwed(n: nat, s: State, p: nat)
    requires n > 0 && Inv(n, s) && p < |s| && s[p].mbox != [] && s[p].mbox[0].val == RELEASE
    ensures s[p].done < 2 * n - 1
  {
    hide InQuorum, Members, Keys, Procs, MailOK;
    assert ProcOK(n, p, s[p]);
    PopLocal(n, p, s[p]);
    assert Pair(n, s, p, s[p].mbox[0].from);
  }

  lemma DoneEmpty(n: nat, s: State, p: nat)
    requires n > 0 && Inv(n, s) && p < |s| && s[p].phase.Done?
    ensures s[p].mbox == []
  {
    assert ProcOK(n, p, s[p]);
    hide Inv;
    if s[p].mbox != [] {
      OnlyReleases(n, s, p);
      ReleaseMeansOwed(n, s, p);
    }
  }

  /** With every mailbox empty, an arbiter that still owes grants waits for a collector. */
  lemma HolderCollects(n: nat, s: State, a: nat)
    requires n > 0 && Inv(n, s) && Stuck(n, s) && a < |s| && s[a].done < 2 * n - 1
    requires forall p :: 0 <= p < |s| ==> s[p].mbox == []
    ensures var c := Cur(n, a, s[a].done); 0 <= c < |s| && InQuorum(n, a, c) && a in s[c].got && s[c].phase.Collecting?
  {
    hide InQuorum, Members, Procs, MailOK;
    assert ProcOK(n, a, s[a]);
    var c := Cur(n, a, s[a].done);
    assert Keys([]) == {};
    assert Pair(n, s, a, c);
    assert !Enabled(n, s, c);
  }

  /** The first collector in row-major order would hold its whole quorum. */
  lemma FirstCollectorFull(n: nat, s: State, r: nat)
    requires n > 0 && Inv(n, s) && Stuck(n, s) && r < |s| && s[r].phase.Collecting?
    requires forall p :: 0 <= p < |s| ==> s[p].mbox == []
    requires forall p :: 0 <= p < r ==> !s[p].phase.Collecting?
    ensures forall a :: 0 <= a < |s| && InQuorum(n, r, a) ==> a in s[r].got
  {
    hide InQuorum, Members, Procs, MailOK;
    Symmetric(n);
    assert Keys([]) == {};
    forall a | 0 <= a < |s| && InQuorum(n, r, a) ensures a in s[r].got {
      assert ProcOK(n, a, s[a]);
      assert Pair(n, s, a, r);
      if s[a].done < 2 * n - 1 {
        HolderCollects(n, s, a);
      }
    }
  }

  lemma NotAllGot(n: nat, s: State, r: nat)
    requires n > 0 && Inv(n, s) && r < |s| && s[r].phase.Collecting?
    ensures exists a :: 0 <= a < |s| && InQuorum(n, r, a) && a !in s[r].got
  {
    hide InQuorum, Members, MailOK, Pair;
    assert ProcOK(n, r, s[r]);
    MembersCount(n, r);
    var q := Members(n, r);
    var all := set i | 0 <= i < |q| :: q[i];
    SetOfSorted(q);
    if all <= s[r].got {
      SubsetCount(all, s[r].got);
      assert false;
    }
    var a :| a in all && a !in s[r].got;
    assert InQuorum(n, r, a);
  }

  /** Some process is the first one still collecting, or none is. */
  lemma {:induction false} FirstCollector(s: State, k: nat) returns (r: int)
    requires k <= |s|
    ensures r == -1 ==> forall p :: 0 <= p < k ==> !s[p].phase.Collecting?
    ensures r != -1 ==> 0 <= r < k && s[r].phase.Collecting? && forall p :: 0 <= p < r ==> !s[p].phase.Collecting?
  {
    r := -1;
    if k > 0 {
      r := FirstCollector(s, k - 1);
      if r == -1 && s[k - 1].phase.Collecting? {
        r := k - 1;
      }
    }
  }

  lemma StuckEmpty(n: nat, s: State)
    requires n > 0 && Inv(n, s) && Stuck(n, s)
    ensures forall p :: 0 <= p < |s| ==> s[p].mbox == []
  {
    hide Inv;
    forall p | 0 <= p < |s| ensures s[p].mbox == [] {
      assert !Enabled(n, s, p);
      if s[p].phase.Done? {
        DoneEmpty(n, s, p);
      }
    }
  }

  /** Deadlock freedom: when no process can move, all have finished with empty mailboxes. */
  lemma StuckMeansDone(n: nat, s: State, p: nat)
    requires n > 0 && Inv(n, s) && Stuck(n, s) && p < |s|
    ensures s[p].phase.Done? && s[p].mbox == []
  {
    hide Inv, InQuorum, Cur;
    StuckEmpty(n, s);
    var r := FirstCollector(s, |s|);
    if r != -1 {
      FirstCollectorFull(n, s, r);
      NotAllGot(n, s, r);
      assert false;
    }
    assert !Enabled(n, s, p);
    if !s[p].phase.Done? {
      HolderCollects(n, s, p);
    }
  }

  // ---------- termination ----------

  function Rank(n: nat, phase: Phase): int {
    match phase
    case Collecting => Procs(n) + 4
    case Critical => Procs(n) + 3
    case Releasing(t) => Procs(n) + 2 - t
    case Serving => 1
    case Done => 0
  }

  /** Grants and releases still to be received, and steps left in the program. */
  function Weight(n: nat, pr: Proc): int {
    (2 * n - 1 - pr.num) + (2 * n - 1 - pr.done) + Rank(n, pr.phase)
  }

  function Total(n: nat, s: State): int {
    if s == [] then 0 else Total(n, s[..|s| - 1]) + Weight(n, s[|s| - 1])
  }

  lemma {:induction false} TotalUpdate(n: nat, s: State, t: State, p: nat)
    requires p < |s| == |t| && forall x :: 0 <= x < |s| && x != p ==> Weight(n, t[x]) == Weight(n, s[x])
    ensures Total(n, t) == Total(n, s) - Weight(n, s[p]) + Weight(n, t[p])
  {
    hide Weight;
    var k := |s| - 1;
    if p < k {
      TotalUpdate(n, s[..k], t[..k], p);
    } else {
      TotalSame(n, s[..k], t[..k]);
    }
  }

  lemma {:induction false} TotalSame(n: nat, s: State, t: State)
    requires |s| == |t| && forall x :: 0 <= x < |s| ==> Weight(n, t[x]) == Weight(n, s[x])
    ensures Total(n, t) == Total(n, s)
  {
    hide Weight;
    if s != [] {
      TotalSame(n, s[..|s| - 1], t[..|s| - 1]);
    }
  }

  lemma {:induction false} TotalNat(n: nat, s: State)
    requires forall x :: 0 <= x < |s| ==> Weight(n, s[x]) >= 0
    ensures Total(n, s) >= 0
  {
    hide Weight;
    if s != [] {
      TotalNat(n, s[..|s| - 1]);
    }
  }

  lemma StepWeights(n: nat, s: State, p: nat)
    requires n > 0 && Enabled(n, s, p) && (s[p].phase.Releasing? ==> s[p].phase.t <= Procs(n))
    requires s[p].phase.Serving? && s[p].done < 2 * n - 1 ==> s[p].mbox[0].val == RELEASE
    ensures var t := Step(n, s, p);
            && Weight(n, t[p]) < Weight(n, s[p])
            && forall x :: 0 <= x < |s| && x != p ==> Weight(n, t[x]) == Weight(n, s[x])
  {
    hide InQuorum, Procs;
    if s[p].mbox != [] {
      ServeNextFrame(s[p := s[p].(mbox := s[p].mbox[1..])], p, s[p].phase.Serving?);
    }
    ServeNextFrame(s, p, false);
  }

  /** Every step brings the run strictly closer to its end. */
  lemma StepDecreases(n: nat, s: State, p: nat)
    requires 0 < n && Procs(n) <= RELEASE && Inv(n, s) && Enabled(n, s, p)
    ensures 0 <= Total(n, Step(n, s, p)) < Total(n, s)
  {
    assert ProcOK(n, p, s[p]);
    hide Inv, InQuorum, MailOK, Members;
    if s[p].phase.Serving? && s[p].done < 2 * n - 1 {
      OnlyReleases(n, s, p);
    }
    StepWeights(n, s, p);
    TotalUpdate(n, s, Step(n, s, p), p);
    KeepStep(n, s, p);
    InvTotal(n, Step(n, s, p));
  }

  lemma InvTotal(n: nat, s: State)
    requires n > 0 && Inv(n, s)
    ensures Total(n, s) >= 0
  {
    hide InQuorum, Members, MailOK, Pair;
    forall x | 0 <= x < |s| ensures Weight(n, s[x]) >= 0 {
      assert ProcOK(n, x, s[x]);
    }
    TotalNat(n, s);
  }

  // ---------- whole runs ----------

  predicate Moves(n: nat, s: State, p: int, t: State)
    requires n > 0
  {
    Enabled(n, s, p) && t == Step(n, s, p)
  }

  /** ss are the states of a run from the initial grants; process ps[i] makes step i. */
  predicate Run(n: nat, ss: seq<State>, ps: seq<int>)
    requires n > 0
  {
    && |ss| == |ps| + 1 && Init(n, ss[0])
    && forall i {:trigger ps[i]} :: 0 <= i < |ps| ==> Moves(n, ss[i], ps[i], ss[i + 1])
  }

  lemma {:induction false} RunInv(n: nat, ss: seq<State>, ps: seq<int>, i: nat)
    requires 0 < n && Procs(n) <= RELEASE && Run(n, ss, ps) && i < |ss|
    ensures Inv(n, ss[i])
    ensures 0 <= Total(n, ss[i]) <= Total(n, ss[0]) - i
  {
    hide Inv, Procs, Init;
    if i == 0 {
      InitInv(n, ss[0]);
      InvTotal(n, ss[0]);
    } else {
      RunInv(n, ss, ps, i - 1);
      hide Step;
      assert Moves(n, ss[i - 1], ps[i - 1], ss[i]);
      KeepStep(n, ss[i - 1], ps[i - 1]);
      StepDecreases(n, ss[i - 1], ps[i - 1]);
    }
  }

  /** Mutual exclusion: no state of any run has two processes in their critical sections. */
  lemma MutualExclusion(n: nat, ss: seq<State>, ps: seq<int>, i: nat, p: nat, r: nat)
    requires 0 < n && Procs(n) <= RELEASE && Run(n, ss, ps) && i < |ss|
    requires p < |ss[i]| && r < |ss[i]| && ss[i][p].phase.Critical? && ss[i][r].phase.Critical?
    ensures p == r
  {
    RunInv(n, ss, ps, i);
    AtMostOneCritical(n, ss[i], p, r);
  }

  /** Termination: no run makes more steps than the measure of its first state, and one
      that cannot go on has finished every process and left every mailbox empty. */
  lemma RunsFinish(n: nat, ss: seq<State>, ps: seq<int>)
    requires 0 < n && Procs(n) <= RELEASE && Run(n, ss, ps)
    ensures |ps| <= Total(n, ss[0])
    ensures Stuck(n, ss[|ps|]) ==>
              |ss[|ps|]| == Procs(n) && forall p :: 0 <= p < Procs(n) ==> ss[|ps|][p].phase.Done? && ss[|ps|][p].mbox == []
  {
    var last := ss[|ps|];
    RunInv(n, ss, ps, |ps|);
    SizeKept(n, last);
    hide Inv;
    if Stuck(n, last) {
      forall p | 0 <= p < Procs(n) ensures last[p].phase.Done? && last[p].mbox == [] {
        StuckMeansDone(n, last, p);
      }
    }
  }

  // ---------- every process gets its turn ----------

  /** p has left its critical section. */
  predicate Left(phase: Phase) {
    phase.Releasing? || phase.Serving? || phase.Done?
  }

  /** Step i is taken by p in its critical section, to leave it. */
  predicate Leaves(ss: seq<State>, ps: seq<int>, i: int, p: nat) {
    0 <= i < |ps| && i < |ss| && p < |ss[i]| && ps[i] == p && ss[i][p].phase.Critical?
  }

  /** The critical section is left only from inside. */
  lemma LeftByLeaving(n: nat, s: State, q: int, p: nat)
    requires n > 0 && Enabled(n, s, q) && p < |s|
    ensures Left(Step(n, s, q)[p].phase) <==> Left(s[p].phase) || (p == q && s[p].phase.Critical?)
  {
    hide InQuorum, Procs;
    if s[q].mbox != [] {
      OthersPhase(s[q := s[q].(mbox := s[q].mbox[1..])], q, s[q].phase.Serving?, p);
    }
    OthersPhase(s, q, false, p);
  }

  lemma OthersPhase(s: State, q: nat, tag: bool, p: nat)
    requires q < |s| && p < |s|
    ensures ServeNext(s, q, tag)[p].phase == s[p].phase
  {
  }

  /** Up to state k, p has left its critical section exactly if it was in it, and then once: at step i. */
  lemma {:induction false} LeavesOnce(n: nat, ss: seq<State>, ps: seq<int>, p: nat, k: nat) returns (i: int)
    requires 0 < n && Procs(n) <= RELEASE && Run(n, ss, ps) && k < |ss| && p < Procs(n)
    ensures |ss[k]| == Procs(n) && (Left(ss[k][p].phase) <==> i >= 0) && i < k
    ensures i >= 0 ==> Leaves(ss, ps, i, p)
    ensures forall j :: 0 <= j < k && Leaves(ss, ps, j, p) ==> j == i
  {
    if k == 0 {
      i := -1;
    } else {
      i := LeavesOnce(n, ss, ps, p, k - 1);
      hide Procs, Init, Step;
      var q := ps[k - 1];
      assert Moves(n, ss[k - 1], q, ss[k]);
      LeftByLeaving(n, ss[k - 1], q, p);
      if q == p && ss[k - 1][p].phase.Critical? {
        i := k - 1;
      }
    }
  }

  /** Every process is in its critical section once: in a run that cannot go on there is exactly
      one step that p takes there. */
  lemma EveryTurn(n: nat, ss: seq<State>, ps: seq<int>, p: nat)
    requires 0 < n && Procs(n) <= RELEASE && Run(n, ss, ps) && Stuck(n, ss[|ps|]) && p < Procs(n)
    ensures exists i :: Leaves(ss, ps, i, p)
    ensures forall i, j :: Leaves(ss, ps, i, p) && Leaves(ss, ps, j, p) ==> i == j
  {
    RunsFinish(n, ss, ps);
    var i := LeavesOnce(n, ss, ps, p, |ps|);
    hide Run, Procs, Stuck;
    assert Leaves(ss, ps, i, p);
  }

  /** Between a process's last grant and its first release lies its critical section: the step that
      completes its grants puts it there, and a release of its own, at whatever arbiter, has been
      preceded by its leaving. */
  lemma SectionBetween(n: nat, ss: seq<State>, ps: seq<int>, p: nat, k: nat)
    requires 0 < n && Procs(n) <= RELEASE && Run(n, ss, ps) && k < |ss| && p < Procs(n)
    ensures |ss[k]| == Procs(n)
    ensures k < |ps| ==> |ss[k + 1]| == Procs(n) && (ss[k][p].num < 2 * n - 1 <= ss[k + 1][p].num ==> ss[k + 1][p].phase.Critical?)
    ensures forall a :: 0 <= a < Procs(n) && (p as int, true) in Keys(ss[k][a].mbox) ==> exists i :: i < k && Leaves(ss, ps, i, p)
  {
    RunInv(n, ss, ps, k);
    SizeKept(n, ss[k]);
    var i := LeavesOnce(n, ss, ps, p, k);
    if k < |ps| {
      var q := ps[k];
      assert Moves(n, ss[k], q, ss[k + 1]);
      LastGrant(n, ss[k], q, p);
    }
    hide Run;
    forall a | 0 <= a < Procs(n) && (p as int, true) in Keys(ss[k][a].mbox) ensures exists i :: i < k && Leaves(ss, ps, i, p) {
      hide Procs;
      ReleaseAfter(n, ss[k], p, a);
      assert Leaves(ss, ps, i, p);
    }
  }

  lemma ReleaseAfter(n: nat, s: State, p: nat, a: nat)
    requires n > 0 && Inv(n, s) && p < |s| && a < |s| && (p as int, true) in Keys(s[a].mbox)
    ensures Left(s[p].phase)
  {
    hide InQuorum, Members, Keys, Cur, Procs, LocalOK;
    assert ProcOK(n, a, s[a]) && Pair(n, s, a, p);
  }

  lemma LastGrant(n: nat, s: State, q: int, p: nat)
    requires n > 0 && Enabled(n, s, q) && p < |s|
    ensures s[p].num < 2 * n - 1 <= Step(n, s, q)[p].num ==> Step(n, s, q)[p].phase.Critical?
  {
    hide InQuorum, Procs;
    if s[q].mbox != [] {
      SameNum(s[q := s[q].(mbox := s[q].mbox[1..])], q, s[q].phase.Serving?, p);
    }
    SameNum(s, q, false, p);
  }

  lemma SameNum(s: State, q: nat, tag: bool, p: nat)
    requires q < |s| && p < |s|
    ensures ServeNext(s, q, tag)[p].num == s[p].num
  {
  }
}
