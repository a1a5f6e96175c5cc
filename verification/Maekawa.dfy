/** The protocol of a2/maekawa_linux.c from the initial grants on: every process is an
    arbiter with a queue of requesters and a requester collecting grants. */
module Maekawa {
  import opened Quorum
  import Ring

  const RELEASE := 500

  /** simple_queue: a ring of max_queue_elements slots. */
  class SimpleQueue {
    const queue: array<int>
    var head: nat
    var tail: nat

    ghost predicate Valid()
      reads this, queue
    {
      queue.Length == 100 && head < 100 && tail < 100
    }

    ghost function Pending(): seq<int>
      reads this, queue
      requires Valid()
    {
      Ring.Contents(queue[..], head, tail)
    }

    constructor ()
      ensures Valid() && Pending() == [] && fresh(queue)
    {
      queue := new int[100](_ => 0);
      head, tail := 0, 0;
    }

    method Enque(val: int)
      requires Valid()
      modifies this`tail, queue
      ensures Valid() && head == old(head)
      ensures Pending() == if |old(Pending())| < 99 then old(Pending()) + [val] else []
    {
      Ring.Push(queue[..], head, tail, val);
      ghost var slots := queue[..];
      queue[tail] := val;
      assert queue[..] == slots[tail := val];
      tail := Ring.Next(tail, 100);
    }

    /** -1 stands for an empty queue. */
    method Deque() returns (result: int)
      requires Valid()
      modifies this`head
      ensures Valid()
      ensures old(Pending()) == [] ==> result == -1 && Pending() == []
      ensures old(Pending()) != [] ==> result == old(Pending())[0] && Pending() == old(Pending())[1..]
    {
      if head == tail {
        return -1;
      }
      Ring.Pop(queue[..], head, tail);
      result := queue[head];
      head := Ring.Next(head, 100);
    }
  }

  lemma NextCell(n: nat, i: nat, j: nat, x: nat, y: nat)
    requires i < n && j < n && x < n && y < n
    ensures var l := QList(n, Cell(n, i, j), Cell(n, x, y));
            && QList(n, Cell(n, i, j), Cell(n, x, y + 1)) == l + (if x == i || y == j then [Cell(n, x, y)] else [])
            && |l| < 2 * n
            && forall k :: 0 <= k < |l| ==> l[k] >= 0
  {
    hide InQuorum, Cell;
    InQuorumAt(n, i, j, x, y);
    CountTo(n, i, j, x, y);
    CellSteps(n, x, y);
  }

  lemma GridEdges(n: nat, i: nat, j: nat)
    requires i < n && j < n
    ensures QList(n, Cell(n, i, j), Cell(n, 0, 0)) == []
    ensures QList(n, Cell(n, i, j), Cell(n, n, 0)) == Members(n, Cell(n, i, j)) != []
  {
    hide InQuorum, Cell;
    CountTo(n, i, j, n, 0);
    CellSteps(n, 0, 0);
  }

  /** The first of l is granted (-1: none yet), the rest is queued. */
  ghost predicate Granted(l: seq<int>, first: int, queued: seq<int>) {
    if l == [] then first == -1 && queued == [] else first == l[0] && queued == l[1..]
  }

  /** The body of the initial grants' loops for cell (x, y); first is -1 as long as the
      source's flag of that name is 1. */
  method VisitCell(n: nat, i: nat, j: nat, x: nat, y: nat, first0: int, q: SimpleQueue) returns (first: int)
    requires i < n && j < n && x < n && y < n && 2 * n <= 100 && q.Valid()
    requires Granted(QList(n, Cell(n, i, j), Cell(n, x, y)), first0, q.Pending())
    modifies q, q.queue
    ensures q.Valid() && Granted(QList(n, Cell(n, i, j), Cell(n, x, y + 1)), first, q.Pending())
  {
    hide QList, Cell, InQuorum, Ring.Contents;
    NextCell(n, i, j, x, y);
    ghost var l := QList(n, Cell(n, i, j), Cell(n, x, y));
    first := first0;
    if x == i || y == j {
      if first == -1 {
        first := Cell(n, x, y);
      } else {
        assert l != [] && |l[1..]| < 99;
        q.Enque(Cell(n, x, y));
        assert (l + [Cell(n, x, y)])[1..] == l[1..] + [Cell(n, x, y)];
      }
    }
  }

  /** The initial grants of process (i, j), in the source's nested loops. */
  method InitialGrants(n: nat, i: nat, j: nat, q: SimpleQueue) returns (first: int)
    requires i < n && j < n && 2 * n <= 100
    requires q.Valid() && q.Pending() == []
    modifies q, q.queue
    ensures q.Valid() && |Members(n, Cell(n, i, j))| > 0
    ensures first == Members(n, Cell(n, i, j))[0] && q.Pending() == Members(n, Cell(n, i, j))[1..]
  {
    hide QList, Members, Cell, InQuorum, Procs, Ring.Contents;
    GridEdges(n, i, j);
    first := -1;
    var x := 0;
    while x < n
      invariant x <= n && q.Valid()
      invariant Granted(QList(n, Cell(n, i, j), Cell(n, x, 0)), first, q.Pending())
    {
      var y := 0;
      while y < n
        invariant y <= n && q.Valid()
        invariant Granted(QList(n, Cell(n, i, j), Cell(n, x, y)), first, q.Pending())
      {
        first := VisitCell(n, i, j, x, y, first, q);
        y := y + 1;
      }
      CellSteps(n, x, 0);
      x := x + 1;
    }
  }

  // ---------- the protocol as steps over mailboxes ----------

  /** from is the sender (send's first argument); val is what the receiver sees. */
  datatype Msg = Msg(from: int, val: int)

  /** Critical is a process with all its grants: in its critical section or, if it is one of the first
      P1, which take part and skip it, at the jump over it (lines 238-239). */
  datatype Phase = Collecting | Critical | Releasing(t: nat) | Serving | Done

  /** got records whose grants num has counted. */
  datatype Proc = Proc(phase: Phase, num: nat, done: nat, q: seq<int>, mbox: seq<Msg>, got: set<int>)

  type State = seq<Proc>

  function Send(s: State, to: int, m: Msg): (r: State)
    ensures |r| == |s|
  {
    if 0 <= to < |s| then s[to := s[to].(mbox := s[to].mbox + [m])] else s
  }

  /** A release has come: grant the next in the queue, if any, and count it. */
  function ServeNext(s: State, p: int, tag: bool): (r: State)
    requires 0 <= p < |s|
    ensures |r| == |s|
  {
    var me := s[p].(done := s[p].done + 1);
    if me.q == [] then s[p := me]
    else Send(s[p := me.(q := me.q[1..])], me.q[0], Msg(p, if tag then 100 else me.q[0]))
  }

  predicate Enabled(n: nat, s: State, p: int) {
    && 0 <= p < |s|
    && match s[p].phase
       case Collecting => s[p].mbox != []
       case Serving => s[p].done < 2 * n - 1 ==> s[p].mbox != []
       case Done => false
       case _ => true
  }

  function Step(n: nat, s: State, p: int): (r: State)
    requires n > 0 && Enabled(n, s, p)
    ensures |r| == |s|
  {
    match s[p].phase
    case Collecting =>
      var m := s[p].mbox[0];
      var s1 := s[p := s[p].(mbox := s[p].mbox[1..])];
      var s2 := if m.val >= RELEASE then ServeNext(s1, p, false)
                else s1[p := s1[p].(num := s1[p].num + 1, got := s1[p].got + {m.from})];
      if s2[p].num >= 2 * n - 1 then s2[p := s2[p].(phase := Critical)] else s2
    case Critical =>
      var s1 := ServeNext(s, p, false);
      s1[p := s1[p].(phase := Releasing(0))]
    case Releasing(t) =>
      if t < Procs(n) then
        var s1 := if InQuorum(n, p, t) && t != p then Send(s, t, Msg(p, RELEASE)) else s;
        s1[p := s1[p].(phase := Releasing(t + 1))]
      else s[p := s[p].(phase := Serving)]
    case Serving =>
      if s[p].done >= 2 * n - 1 then s[p := s[p].(phase := Done)]
      else
        var m := s[p].mbox[0];
        var s1 := s[p := s[p].(mbox := s[p].mbox[1..])];
        if m.val == RELEASE then ServeNext(s1, p, true) else s1
  }

  /** The grants sent before the barrier to p by the arbiters below k, oldest first. */
  function FirstMail(n: nat, p: nat, k: nat): seq<Msg>
    requires n > 0
  {
    if k == 0 then []
    else if |Members(n, k - 1)| > 0 && Members(n, k - 1)[0] == p then FirstMail(n, p, k - 1) + [Msg(k - 1, p)]
    else FirstMail(n, p, k - 1)
  }

  predicate Init(n: nat, s: State)
    requires n > 0
  {
    && |s| == Procs(n)
    && forall p :: 0 <= p < |s| ==>
         |Members(n, p)| > 0 &&
         s[p] == Proc(Collecting, 0, 0, Members(n, p)[1..], FirstMail(n, p, Procs(n)), {})
  }
}
