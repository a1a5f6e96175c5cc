/** a2/sysproc.c: message slots shared by all processes, and a ring of slot numbers per receiver.
    One event is one hold of kern.lock. */
module Mailbox {
  import opened Params
  import Ring

  const NUM_BUFFERS := 1000
  const QUEUE := 500

  datatype Msg = Msg(sender: int, bytes: seq<char>)

  datatype Queue = Queue(slots: seq<int>, head: nat, tail: nat)

  predicate GoodQueue(q: Queue) {
    && |q.slots| == QUEUE && q.head < QUEUE && q.tail < QUEUE
    && forall i :: 0 <= i < QUEUE ==> 0 <= q.slots[i] < NUM_BUFFERS
  }

  /** The slots waiting in a ring, oldest first. */
  function Pending(q: Queue): (r: seq<int>) {
    if GoodQueue(q) then Ring.Contents(q.slots, q.head, q.tail) else []
  }

  // ---------- which slots wait for whom ----------

  ghost predicate NoRepeat(xs: seq<int>) {
    forall i, j :: 0 <= i < j < |xs| ==> xs[i] != xs[j]
  }

  predicate InRing(pend: seq<seq<int>>, p: int, x: int) {
    0 <= p < |pend| && x in pend[p]
  }

  /** A slot is in exactly one ring, its receiver's and once, just when it is taken. */
  ghost predicate SlotsOK(to: seq<int>, pend: seq<seq<int>>) {
    && (forall p, x :: InRing(pend, p, x) ==> 0 <= x < |to| && to[x] == p && p > 0)
    && (forall p :: 0 <= p < |pend| ==> NoRepeat(pend[p]))
    && (forall x :: 0 <= x < |to| && to[x] > 0 ==> InRing(pend, to[x], x))
  }

  lemma AddSlot(to: seq<int>, pend: seq<seq<int>>, x: int, p: int)
    requires SlotsOK(to, pend) && 0 <= x < |to| && to[x] <= 0 && 0 < p < |pend|
    ensures SlotsOK(to[x := p], pend[p := pend[p] + [x]])
    ensures forall q :: 0 <= q < |pend| ==> x !in pend[q]
  {
    var to', pend' := to[x := p], pend[p := pend[p] + [x]];
    forall q, y ensures InRing(pend', q, y) <==> InRing(pend, q, y) || (q == p && y == x) {}
    forall q | 0 <= q < |pend| ensures x !in pend[q] {
      assert !InRing(pend, q, x);
    }
  }

  lemma DropSlot(to: seq<int>, pend: seq<seq<int>>, p: int)
    requires SlotsOK(to, pend) && 0 <= p < |pend| && pend[p] != []
    ensures 0 <= pend[p][0] < |to| && SlotsOK(to[pend[p][0] := -1], pend[p := pend[p][1..]])
    ensures var pend' := pend[p := pend[p][1..]];
            forall q, y :: InRing(pend', q, y) ==> y != pend[p][0]
  {
    var x, rest := pend[p][0], pend[p][1..];
    assert InRing(pend, p, x);
    assert NoRepeat(pend[p]);
    assert pend[p] == [x] + rest && x !in rest && NoRepeat(rest);
    var pend' := pend[p := rest];
    forall q, y ensures InRing(pend', q, y) <==> InRing(pend, q, y) && y != x {
      if InRing(pend, q, y) && y == x {
        assert q == p;
      }
    }
  }

  // ---------- the state machine ----------

  /** kern, who is in sys_recv and who of them sleeps, and per receiver what was sent to it and what it has got. */
  datatype State = State(to: seq<int>, buffers: seq<Msg>, queues: seq<Queue>, waiting: seq<bool>, inRecv: seq<bool>, asleep: seq<bool>,
                         sent: seq<seq<Msg>>, got: seq<seq<Msg>>)

  /** Recv is one turn of the loop of sys_recv; Stray a wakeup on p's channel by anything but sys_send,
      such as a barrier that goes through old pids. */
  datatype Event = Send(m: Msg, rec: int) | Recv(me: int) | Stray(p: int)

  function Enque(q: Queue, v: int): Queue
    requires GoodQueue(q)
  {
    Queue(q.slots[q.tail := v], q.head, Ring.Next(q.tail, QUEUE))
  }

  function Deque(q: Queue): Queue
    requires GoodQueue(q)
  {
    q.(head := Ring.Next(q.head, QUEUE))
  }

  /** The first free slot from i on, or -1. */
  function FirstFree(to: seq<int>, i: int): (r: int)
    requires 0 <= i <= |to|
    ensures r == -1 ==> forall k :: i <= k < |to| ==> to[k] > 0
    ensures r != -1 ==> i <= r < |to| && to[r] <= 0 && forall k :: i <= k < r ==> to[k] > 0
    decreases |to| - i
  {
    if i == |to| then -1 else if to[i] <= 0 then i else FirstFree(to, i + 1)
  }

  /** A space over the first byte. */
  function Blanked(m: Msg): (r: Msg)
    ensures r.sender == m.sender && |r.bytes| == |m.bytes| && (m.bytes != [] ==> r.bytes == [' '] + m.bytes[1..])
  {
    m.(bytes := if m.bytes == [] then [] else m.bytes[0 := ' '])
  }

  predicate Shape(s: State) {
    && |s.to| == |s.buffers| == NUM_BUFFERS
    && |s.queues| == |s.waiting| == |s.inRecv| == |s.asleep| == |s.sent| == |s.got| == NPROC
    && (forall p :: 0 <= p < NPROC ==> GoodQueue(s.queues[p]))
  }

  predicate Enabled(s: State, e: Event) {
    match e
    case Send(m, rec) => 0 < rec < NPROC
    case Recv(me) => 0 < me < |s.asleep| && !s.asleep[me]
    case Stray(p) => 0 <= p < |s.asleep|
  }

  predicate CanDo(s: State, e: Event) { Shape(s) && Enabled(s, e) }

  function Do(s: State, e: Event): State
    requires CanDo(s, e)
  {
    match e
    case Send(m, rec) =>
      var x := FirstFree(s.to, 0);
      if x == -1 then s
      else
        s.(to := s.to[x := rec], buffers := s.buffers[x := m], queues := s.queues[rec := Enque(s.queues[rec], x)],
           waiting := s.waiting[rec := false], asleep := if s.waiting[rec] then s.asleep[rec := false] else s.asleep,
           sent := s.sent[rec := s.sent[rec] + [m]])
    case Recv(me) =>
      var q := s.queues[me];
      if Pending(q) == [] then
        s.(waiting := s.waiting[me := true], inRecv := s.inRecv[me := true], asleep := s.asleep[me := true])
      else
        var x := q.slots[q.head];
        s.(to := s.to[x := -1], buffers := s.buffers[x := Blanked(s.buffers[x])], queues := s.queues[me := Deque(q)],
           inRecv := s.inRecv[me := false], got := s.got[me := s.got[me] + [s.buffers[x]]])
    case Stray(p) => s.(asleep := s.asleep[p := false])
  }

  function Pend(queues: seq<Queue>): (r: seq<seq<int>>)
    ensures |r| == |queues| && forall p :: 0 <= p < |queues| ==> r[p] == Pending(queues[p])
  {
    seq(|queues|, p requires 0 <= p < |queues| => Pending(queues[p]))
  }

  /** The messages in a list of slots. */
  function Inbox(buffers: seq<Msg>, xs: seq<int>): (ms: seq<Msg>)
    ensures |ms| == |xs|
    ensures forall i :: 0 <= i < |xs| && 0 <= xs[i] < |buffers| ==> ms[i] == buffers[xs[i]]
  {
    seq(|xs|, i requires 0 <= i < |xs| => if 0 <= xs[i] < |buffers| then buffers[xs[i]] else Msg(0, []))
  }

  /** What was sent is what was got and then what waits, in order. */
  ghost predicate History(buffers: seq<Msg>, pend: seq<seq<int>>, sent: seq<seq<Msg>>, got: seq<seq<Msg>>) {
    && |sent| == |got| == |pend|
    && (forall p :: 0 <= p < |pend| ==> sent[p] == got[p] + Inbox(buffers, pend[p]))
  }

  /** A process asleep in sys_recv has its wait flag set; one whose flag is set is in sys_recv and has nothing pending. */
  ghost predicate SleepOK(pend: seq<seq<int>>, waiting: seq<bool>, inRecv: seq<bool>, asleep: seq<bool>) {
    && |waiting| == |inRecv| == |asleep| == |pend|
    && (forall p :: 0 <= p < |pend| ==> (asleep[p] ==> waiting[p]) && (waiting[p] ==> inRecv[p] && pend[p] == []))
  }

  ghost predicate Awaiting(s: State) {
    SleepOK(Pend(s.queues), s.waiting, s.inRecv, s.asleep)
  }

  ghost predicate Inv(s: State) {
    && Shape(s) && SlotsOK(s.to, Pend(s.queues))
    && History(s.buffers, Pend(s.queues), s.sent, s.got) && Awaiting(s)
  }

  /** A send that finds a free slot finds fewer than 499 messages pending. */
  predicate Roomy(s: State, e: Event) {
    e.Send? && FirstFree(s.to, 0) != -1 ==> 0 <= e.rec < |s.queues| && |Pending(s.queues[e.rec])| < QUEUE - 1
  }

  lemma EnquePending(q: Queue, x: int)
    requires GoodQueue(q) && 0 <= x < NUM_BUFFERS
    ensures GoodQueue(Enque(q, x))
    ensures Pending(Enque(q, x)) == if |Pending(q)| < QUEUE - 1 then Pending(q) + [x] else []
  {
    Ring.Push(q.slots, q.head, q.tail, x);
  }

  lemma DequePending(q: Queue)
    requires GoodQueue(q) && Pending(q) != []
    ensures GoodQueue(Deque(q)) && Pending(Deque(q)) == Pending(q)[1..] && q.slots[q.head] == Pending(q)[0]
  {
    Ring.Pop(q.slots, q.head, q.tail);
  }

  lemma EmptyRing(q: Queue)
    requires GoodQueue(q)
    ensures Pending(q) == [] <==> q.head == q.tail
  {
    if q.head != q.tail {
      Ring.Pop(q.slots, q.head, q.tail);
    }
  }

  lemma AddHistory(buffers: seq<Msg>, pend: seq<seq<int>>, sent: seq<seq<Msg>>, got: seq<seq<Msg>>, x: int, p: int, m: Msg)
    requires History(buffers, pend, sent, got) && 0 <= x < |buffers| && 0 <= p < |pend|
    requires forall q :: 0 <= q < |pend| ==> x !in pend[q]
    ensures History(buffers[x := m], pend[p := pend[p] + [x]], sent[p := sent[p] + [m]], got)
  {
    var buffers', pend' := buffers[x := m], pend[p := pend[p] + [x]];
    forall q | 0 <= q < |pend| ensures Inbox(buffers', pend'[q]) == if q == p then Inbox(buffers, pend[q]) + [m] else Inbox(buffers, pend[q]) {
      assert forall i :: 0 <= i < |pend[q]| ==> pend[q][i] != x;
    }
  }

  lemma DropHistory(buffers: seq<Msg>, pend: seq<seq<int>>, sent: seq<seq<Msg>>, got: seq<seq<Msg>>, p: int, m: Msg)
    requires History(buffers, pend, sent, got) && 0 <= p < |pend| && pend[p] != [] && 0 <= pend[p][0] < |buffers|
    requires var pend' := pend[p := pend[p][1..]]; forall q, y :: InRing(pend', q, y) ==> y != pend[p][0]
    ensures var x := pend[p][0];
            History(buffers[x := m], pend[p := pend[p][1..]], sent, got[p := got[p] + [buffers[x]]])
  {
    var x := pend[p][0];
    var buffers', pend' := buffers[x := m], pend[p := pend[p][1..]];
    forall q | 0 <= q < |pend| ensures Inbox(buffers', pend'[q]) == Inbox(buffers, pend'[q]) {
      forall i | 0 <= i < |pend'[q]| ensures pend'[q][i] != x {
        assert InRing(pend', q, pend'[q][i]);
      }
    }
    assert Inbox(buffers, pend[p]) == [buffers[x]] + Inbox(buffers, pend[p][1..]);
  }

  lemma AddSleep(pend: seq<seq<int>>, waiting: seq<bool>, inRecv: seq<bool>, asleep: seq<bool>, p: int, xs: seq<int>)
    requires SleepOK(pend, waiting, inRecv, asleep) && 0 <= p < |pend|
    ensures SleepOK(pend[p := xs], waiting[p := false], inRecv, if waiting[p] then asleep[p := false] else asleep)
  {
  }

  /** Whoever sends what, full rings and stray wakeups included, the wait flags stay right. */
  lemma KeepAwaiting(s: State, e: Event)
    requires CanDo(s, e) && Awaiting(s)
    ensures Awaiting(Do(s, e))
  {
    hide SleepOK, Enque, FirstFree, Blanked;
    var t, pend := Do(s, e), Pend(s.queues);
    match e
    case Send(m, rec) =>
      if t != s {
        AddSleep(pend, s.waiting, s.inRecv, s.asleep, rec, Pending(t.queues[rec]));
        hide Pending;
        assert Pend(t.queues) == pend[rec := Pending(t.queues[rec])];
      }
    case Recv(me) =>
      if Pending(s.queues[me]) != [] {
        LeaveRecv(pend, s.waiting, s.inRecv, s.asleep, me, Pending(t.queues[me]));
        hide Pending;
        assert Pend(t.queues) == pend[me := Pending(t.queues[me])];
      } else {
        EnterRecv(pend, s.waiting, s.inRecv, s.asleep, me);
      }
    case Stray(p) => StrayWake(pend, s.waiting, s.inRecv, s.asleep, p);
  }

  lemma LeaveRecv(pend: seq<seq<int>>, waiting: seq<bool>, inRecv: seq<bool>, asleep: seq<bool>, p: int, xs: seq<int>)
    requires SleepOK(pend, waiting, inRecv, asleep) && 0 <= p < |pend| && pend[p] != []
    ensures SleepOK(pend[p := xs], waiting, inRecv[p := false], asleep)
  {
  }

  lemma EnterRecv(pend: seq<seq<int>>, waiting: seq<bool>, inRecv: seq<bool>, asleep: seq<bool>, p: int)
    requires SleepOK(pend, waiting, inRecv, asleep) && 0 <= p < |pend| && pend[p] == []
    ensures SleepOK(pend, waiting[p := true], inRecv[p := true], asleep[p := true])
  {
  }

  lemma StrayWake(pend: seq<seq<int>>, waiting: seq<bool>, inRecv: seq<bool>, asleep: seq<bool>, p: int)
    requires SleepOK(pend, waiting, inRecv, asleep) && 0 <= p < |pend|
    ensures SleepOK(pend, waiting, inRecv, asleep[p := false])
  {
  }

  lemma KeepSend(s: State, m: Msg, rec: int)
    requires Inv(s) && Enabled(s, Send(m, rec)) && Roomy(s, Send(m, rec))
    ensures Inv(Do(s, Send(m, rec)))
  {
    hide SlotsOK, History, Awaiting, Pending, Enque, Inbox, GoodQueue;
    KeepAwaiting(s, Send(m, rec));
    var x := FirstFree(s.to, 0);
    if x != -1 {
      hide FirstFree;
      var pend := Pend(s.queues);
      EnquePending(s.queues[rec], x);
      AddSlot(s.to, pend, x, rec);
      AddHistory(s.buffers, pend, s.sent, s.got, x, rec, m);
      assert Pend(s.queues[rec := Enque(s.queues[rec], x)]) == pend[rec := pend[rec] + [x]];
    }
  }

  /** Whatever is sent and received, the rings hold slot numbers. */
  lemma KeepShape(s: State, e: Event)
    requires CanDo(s, e)
    ensures Shape(Do(s, e))
  {
    hide FirstFree, Pending, Blanked;
  }

  lemma KeepRecv(s: State, me: int)
    requires Inv(s) && CanDo(s, Recv(me))
    ensures Inv(Do(s, Recv(me)))
  {
    hide SlotsOK, History, Awaiting;
    KeepAwaiting(s, Recv(me));
    var q := s.queues[me];
    if Pending(q) != [] {
      var pend := Pend(s.queues);
      DequePending(q);
      DropSlot(s.to, pend, me);
      DropHistory(s.buffers, pend, s.sent, s.got, me, Blanked(s.buffers[q.slots[q.head]]));
      hide Pending, Deque, Inbox, GoodQueue, Blanked;
      assert Pend(s.queues[me := Deque(q)]) == pend[me := pend[me][1..]];
    }
  }

  /** With no slot free the send is refused and changes nothing. Otherwise enque delivers exactly
      when fewer than 499 messages are pending; the 500th empties the ring. */
  lemma SendExact(s: State, m: Msg, rec: int)
    requires Inv(s) && Enabled(s, Send(m, rec))
    ensures var s' := Do(s, Send(m, rec));
            var before, after := Inbox(s.buffers, Pending(s.queues[rec])), Inbox(s'.buffers, Pending(s'.queues[rec]));
            if forall x :: 0 <= x < NUM_BUFFERS ==> s.to[x] > 0 then s' == s
            else (after == before + [m] <==> |before| < QUEUE - 1) && (|before| >= QUEUE - 1 ==> after == [])
  {
    hide SlotsOK, History, Awaiting, Pending, GoodQueue, Inbox, Enque, FirstFree;
    var x, xs := FirstFree(s.to, 0), Pending(s.queues[rec]);
    if x != -1 {
      EnquePending(s.queues[rec], x);
      AddSlot(s.to, Pend(s.queues), x, rec);
      assert x !in Pend(s.queues)[rec];
      InboxMore(s.buffers, xs, x, m);
    }
  }

  /** One turn of sys_recv: with nothing pending the receiver sleeps with its flag set, and else it takes the oldest
      message, frees its slot with the first byte blanked, and leaves; nothing else changes. */
  lemma RecvExact(s: State, me: int)
    requires Inv(s) && CanDo(s, Recv(me))
    ensures var t, xs := Do(s, Recv(me)), Pending(s.queues[me]);
            && Shape(t) && t.sent == s.sent
            && (forall p :: 0 <= p < NPROC && p != me ==>
                  && t.queues[p] == s.queues[p] && t.got[p] == s.got[p] && t.inRecv[p] == s.inRecv[p]
                  && t.waiting[p] == s.waiting[p] && t.asleep[p] == s.asleep[p])
            && t.inRecv[me] == (xs == []) && t.asleep[me] == (xs == []) && t.waiting[me] == (xs == [])
            && if xs == [] then t.to == s.to && t.buffers == s.buffers && t.queues == s.queues && t.got == s.got
               else
                 var x := xs[0];
                 && 0 <= x < NUM_BUFFERS && t.to == s.to[x := -1] && t.got[me] == s.got[me] + [s.buffers[x]] && Pending(t.queues[me]) == xs[1..]
                 && (forall y :: 0 <= y < NUM_BUFFERS && y != x ==> t.buffers[y] == s.buffers[y])
                 && (s.buffers[x].bytes != [] ==> t.buffers[x].bytes == [' '] + s.buffers[x].bytes[1..])
  {
    KeepShape(s, Recv(me));
    assert s.waiting[me] ==> Pend(s.queues)[me] == [];
    hide Inv, GoodQueue;
    if Pending(s.queues[me]) != [] {
      DequePending(s.queues[me]);
    }
    hide Pending;
  }

  lemma InboxMore(buffers: seq<Msg>, xs: seq<int>, x: int, m: Msg)
    requires 0 <= x < |buffers| && x !in xs
    ensures Inbox(buffers[x := m], xs + [x]) == Inbox(buffers, xs) + [m]
    ensures Inbox(buffers[x := m], []) == []
  {
    assert forall i :: 0 <= i < |xs| ==> xs[i] != x;
  }

  lemma Keep(s: State, e: Event)
    requires Inv(s) && CanDo(s, e) && Roomy(s, e)
    ensures Inv(Do(s, e))
  {
    hide Inv, Do, Roomy;
    match e
    case Send(m, rec) => KeepSend(s, m, rec);
    case Recv(me) => KeepRecv(s, me);
    case Stray(p) => KeepStray(s, p);
  }

  lemma KeepStray(s: State, p: int)
    requires Inv(s) && CanDo(s, Stray(p))
    ensures Inv(Do(s, Stray(p)))
  {
    KeepAwaiting(s, Stray(p));
    hide SlotsOK, History, Awaiting;
  }

  // ---------- runs ----------

  predicate Init(s: State) {
    && Shape(s)
    && (forall x :: 0 <= x < NUM_BUFFERS ==> s.to[x] == 0)
    && (forall p :: 0 <= p < NPROC ==>
          && s.queues[p].head == 0 && s.queues[p].tail == 0 && !s.waiting[p] && !s.inRecv[p] && !s.asleep[p]
          && s.sent[p] == [] && s.got[p] == [])
  }

  lemma InitInv(s: State)
    requires Init(s)
    ensures Inv(s)
  {
    assert forall p :: 0 <= p < NPROC ==> Pend(s.queues)[p] == [];
    assert forall p :: 0 <= p < NPROC ==> Inbox(s.buffers, Pend(s.queues)[p]) == [];
  }

  ghost predicate Run(ss: seq<State>, es: seq<Event>) {
    && |ss| == |es| + 1 && Init(ss[0])
    && (forall k {:trigger es[k]} :: 0 <= k < |es| ==> CanDo(ss[k], es[k]) && ss[k + 1] == Do(ss[k], es[k]))
  }

  /** The first k sends of the run are roomy. */
  ghost predicate RoomyTo(ss: seq<State>, es: seq<Event>, k: nat)
    requires Run(ss, es)
  {
    forall j {:trigger es[j]} :: 0 <= j < k && j < |es| ==> Roomy(ss[j], es[j])
  }

  lemma {:induction false} RunInv(ss: seq<State>, es: seq<Event>, k: nat)
    requires Run(ss, es) && k < |ss| && RoomyTo(ss, es, k)
    ensures Inv(ss[k])
    decreases k
  {
    hide Inv, Do, Roomy, CanDo, Init, Shape;
    if k == 0 {
      InitInv(ss[0]);
    } else {
      RunInv(ss, es, k - 1);
      var e := es[k - 1];
      Keep(ss[k - 1], e);
    }
  }

  /** Every message is delivered once and in order, slots are in one ring just when taken, and
      whoever sleeps in sys_recv has nothing to receive and is marked as waiting. */
  lemma Delivery(ss: seq<State>, es: seq<Event>, k: nat)
    requires Run(ss, es) && k < |ss| && RoomyTo(ss, es, k)
    ensures var s := ss[k];
            && Shape(s)
            && (forall p :: 0 <= p < NPROC ==> s.sent[p] == s.got[p] + Inbox(s.buffers, Pending(s.queues[p])))
            && (forall x :: 0 <= x < NUM_BUFFERS ==>
                  (s.to[x] > 0 <==> exists p :: InRing(Pend(s.queues), p, x)) &&
                  (forall p, q :: InRing(Pend(s.queues), p, x) && InRing(Pend(s.queues), q, x) ==> p == q))
            && (forall p :: 0 <= p < NPROC && s.asleep[p] ==> Pending(s.queues[p]) == [] && s.waiting[p])
  {
    hide Inbox, Pending, GoodQueue;
    RunInv(ss, es, k);
    hide Run, RoomyTo;
  }

  lemma {:induction false} RunAwaiting(ss: seq<State>, es: seq<Event>, k: nat)
    requires Run(ss, es) && k < |ss|
    ensures Awaiting(ss[k])
  {
    if k == 0 {
      InitInv(ss[0]);
    } else {
      RunAwaiting(ss, es, k - 1);
      hide Awaiting, Do, CanDo, Init;
      var e := es[k - 1];
      KeepAwaiting(ss[k - 1], e);
    }
  }

  /** Over every run, whatever is sent and whoever else wakes processes: sys_send's wakeup finds its
      receiver in sys_recv, so it disturbs no process that sleeps on its pid elsewhere; and who sleeps
      in sys_recv has an empty ring and its flag set, so that the next send to it will wake it. */
  lemma WakesReceivers(ss: seq<State>, es: seq<Event>, k: nat)
    requires Run(ss, es) && k < |ss|
    ensures var s := ss[k];
            && Shape(s)
            && (forall p :: 0 <= p < NPROC && s.waiting[p] ==> s.inRecv[p] && Pending(s.queues[p]) == [])
            && (forall p :: 0 <= p < NPROC && s.asleep[p] ==> s.waiting[p])
            && (k < |es| && es[k].Send? && ss[k + 1] != s ==> !ss[k + 1].asleep[es[k].rec] && !ss[k + 1].waiting[es[k].rec])
            && (k < |es| && es[k].Stray? ==> !ss[k + 1].asleep[es[k].p] && ss[k + 1].waiting == s.waiting)
  {
    RunAwaiting(ss, es, k);
    RunShape(ss, es, k);
    hide Pending, GoodQueue, FirstFree, Enque, Blanked, Init;
    if k < |es| {
      var e := es[k];
    }
  }

  lemma {:induction false} RunShape(ss: seq<State>, es: seq<Event>, k: nat)
    requires Run(ss, es) && k < |ss|
    ensures Shape(ss[k])
  {
    if k > 0 {
      RunShape(ss, es, k - 1);
      hide Do, Init, Shape;
      var e := es[k - 1];
      KeepShape(ss[k - 1], e);
    }
  }

  /** Nothing sent is lost, repeated or out of order. */
  ghost predicate Faithful(s: State) {
    History(s.buffers, Pend(s.queues), s.sent, s.got)
  }

  /** A send into a full ring loses messages. */
  lemma CrowdedLoses(s: State, e: Event)
    requires Inv(s) && CanDo(s, e) && !Roomy(s, e)
    ensures !Faithful(Do(s, e))
  {
    var t, rec := Do(s, e), e.rec;
    var x := FirstFree(s.to, 0);
    hide FirstFree, Enque, Pending, SlotsOK, Awaiting, GoodQueue, Inbox;
    EnquePending(s.queues[rec], x);
    assert Pend(t.queues)[rec] == [] && Pend(s.queues)[rec] == Pending(s.queues[rec]);
    assert |t.sent[rec]| == |s.got[rec]| + |Pending(s.queues[rec])| + 1;
    assert t.sent[rec] != t.got[rec] + Inbox(t.buffers, Pend(t.queues)[rec]);
  }

  lemma {:induction false} FaithfulRoomy(ss: seq<State>, es: seq<Event>, k: nat)
    requires Run(ss, es) && k < |ss| && forall j :: 0 <= j <= k ==> Faithful(ss[j])
    ensures RoomyTo(ss, es, k)
    decreases k
  {
    hide Faithful, Roomy, Do, CanDo, Init;
    if k > 0 {
      FaithfulRoomy(ss, es, k - 1);
      RunInv(ss, es, k - 1);
      var e := es[k - 1];
      if !Roomy(ss[k - 1], e) {
        CrowdedLoses(ss[k - 1], e);
      }
    }
  }

  /** Over every run: messages are delivered once and in order throughout exactly when every
      send that finds a free slot finds fewer than 499 messages pending for its receiver. */
  lemma FaithfulIff(ss: seq<State>, es: seq<Event>)
    requires Run(ss, es)
    ensures (forall k :: 0 <= k < |ss| ==> Faithful(ss[k])) <==> RoomyTo(ss, es, |es|)
  {
    if RoomyTo(ss, es, |es|) {
      forall k | 0 <= k < |ss| ensures Faithful(ss[k]) {
        RunInv(ss, es, k);
      }
    } else if forall k :: 0 <= k < |ss| ==> Faithful(ss[k]) {
      FaithfulRoomy(ss, es, |es|);
    }
  }

  // ---------- 500 sends ----------

  /** j messages have been sent to process 1 and none received. */
  ghost predicate Sent(s: State, j: nat) {
    && Shape(s) && (forall x :: 0 <= x < NUM_BUFFERS ==> (s.to[x] > 0 <==> x < j))
    && |s.sent[1]| == j && s.got[1] == [] && |Pending(s.queues[1])| == if j < QUEUE then j else 0
  }

  lemma SendNext(s: State, m: Msg, j: nat)
    requires Sent(s, j) && j < QUEUE
    ensures CanDo(s, Send(m, 1)) && Sent(Do(s, Send(m, 1)), j + 1)
  {
    hide Pending, GoodQueue, Enque;
    assert s.to[j] <= 0;
    assert FirstFree(s.to, 0) == j;
    KeepShape(s, Send(m, 1));
    EnquePending(s.queues[1], j);
  }

  lemma {:induction false} SendMany(s: State, m: Msg, j: nat) returns (ss: seq<State>, es: seq<Event>)
    requires Init(s) && j <= QUEUE
    ensures Run(ss, es) && |es| == j && ss[0] == s && Sent(ss[j], j)
  {
    if j == 0 {
      ss, es := [s], [];
    } else {
      ss, es := SendMany(s, m, j - 1);
      hide Init, CanDo, Do, Sent;
      SendNext(ss[j - 1], m, j - 1);
      var t, e := Do(ss[j - 1], Send(m, 1)), Send(m, 1);
      var ss', es' := ss + [t], es + [e];
      forall k {:trigger es'[k]} | 0 <= k < |es'| ensures CanDo(ss'[k], es'[k]) && ss'[k + 1] == Do(ss'[k], es'[k]) {
        if k < |es| {
          assert es[k] == es'[k];
        }
      }
      ss, es := ss', es';
    }
  }

  /** From any start, 500 sends to one receiver lose all 500 messages. */
  lemma OverflowRun(s: State, m: Msg) returns (ss: seq<State>, es: seq<Event>)
    requires Init(s)
    ensures Run(ss, es) && |es| == QUEUE && ss[0] == s
    ensures var t := ss[QUEUE];
            Shape(t) && |t.sent[1]| == QUEUE && t.got[1] == [] && Pending(t.queues[1]) == [] && !Faithful(t)
  {
    ss, es := SendMany(s, m, QUEUE);
    hide Run, Pending, Inbox, GoodQueue;
    var t := ss[QUEUE];
    assert t.sent[1] != t.got[1] + Inbox(t.buffers, Pend(t.queues)[1]);
  }

  // ---------- the system calls ----------

  class Kern {
    var to: seq<int>
    var buffers: seq<Msg>
    var queues: seq<Queue>
    var waiting: seq<bool>
    var asleep: seq<bool>
    ghost var inRecv: seq<bool>
    ghost var sent: seq<seq<Msg>>
    ghost var got: seq<seq<Msg>>

    ghost function View(): State
      reads this
    {
      State(to, buffers, queues, waiting, inRecv, asleep, sent, got)
    }

    constructor ()
      ensures Init(View()) && Inv(View())
    {
      to, buffers := seq(NUM_BUFFERS, _ => 0), seq(NUM_BUFFERS, _ => Msg(0, "        "));
      queues := seq(NPROC, _ => Queue(seq(QUEUE, _ => 0), 0, 0));
      waiting, inRecv, asleep := seq(NPROC, _ => false), seq(NPROC, _ => false), seq(NPROC, _ => false);
      sent, got := seq(NPROC, _ => []), seq(NPROC, _ => []);
      new;
      InitInv(View());
    }

    /** Lines 247-259: the message goes into slot i. */
    method Deliver(i: int, m: Msg, rec: int)
      requires Shape(View()) && 0 < rec < NPROC && 0 <= i < NUM_BUFFERS && i == FirstFree(to, 0)
      modifies this
      ensures View() == Do(old(View()), Event.Send(m, rec))
    {
      hide FirstFree, GoodQueue;
      buffers := buffers[i := m];
      to := to[i := rec];
      queues := queues[rec := Enque(queues[rec], i)];
      sent := sent[rec := sent[rec] + [m]];
      if waiting[rec] {
        waiting := waiting[rec := false];
        asleep := asleep[rec := false];
      }
      assert old(waiting)[rec := false] == waiting;
    }

    /** sys_send; -1 when no slot is free. */
    method Send(m: Msg, rec: int) returns (r: int)
      requires Shape(View()) && 0 < rec < NPROC
      modifies this
      ensures Shape(View()) && View() == Do(old(View()), Event.Send(m, rec))
      ensures r == if FirstFree(old(to), 0) == -1 then -1 else 0
      ensures old(Inv(View())) && Roomy(old(View()), Event.Send(m, rec)) ==> Inv(View())
    {
      KeepShape(View(), Event.Send(m, rec));
      if Inv(View()) && Roomy(View(), Event.Send(m, rec)) {
        KeepSend(View(), m, rec);
      }
      hide Inv, Pending, Do, Shape;
      var i := 0;
      while i < NUM_BUFFERS
        invariant 0 <= i <= NUM_BUFFERS && View() == old(View()) && FirstFree(to, i) == FirstFree(to, 0)
      {
        if to[i] <= 0 {
          Deliver(i, m, rec);
          return 0;
        }
        i := i + 1;
      }
      r := -1;
    }

    /** The oldest message for me, and its slot free again. */
    method Take(me: int) returns (r: Msg)
      requires Shape(View()) && 0 < me < NPROC && Pending(queues[me]) != [] && !asleep[me]
      modifies this
      ensures View() == Do(old(View()), Event.Recv(me)) && got[me] == old(got)[me] + [r]
    {
      hide Pending, Blanked, Deque;
      var q := queues[me];
      assert GoodQueue(q);
      hide GoodQueue;
      var val := q.slots[q.head];
      queues := queues[me := Deque(q)];
      r := buffers[val];
      to := to[val := -1];
      buffers := buffers[val := Blanked(buffers[val])];
      inRecv := inRecv[me := false];
      got := got[me := got[me] + [r]];
    }

    /** One turn of the loop of sys_recv: a message, or to sleep. */
    method Recv(me: int) returns (r: Msg, sleeps: bool)
      requires Shape(View()) && 0 < me < NPROC && !asleep[me]
      modifies this
      ensures Shape(View()) && View() == Do(old(View()), Event.Recv(me))
      ensures old(Inv(View())) ==> Inv(View())
      ensures sleeps == asleep[me] && (sleeps <==> Pending(old(queues)[me]) == [])
      ensures !sleeps ==> got[me] == old(got)[me] + [r]
    {
      KeepShape(View(), Event.Recv(me));
      if Inv(View()) {
        KeepRecv(View(), me);
      }
      hide Inv, Pending, Blanked, Deque;
      EmptyRing(queues[me]);
      hide GoodQueue;
      sleeps := queues[me].head == queues[me].tail;
      r := Msg(0, []);
      if sleeps {
        waiting := waiting[me := true];
        inRecv := inRecv[me := true];
        asleep := asleep[me := true];
      } else {
        r := Take(me);
      }
    }
  }
}
