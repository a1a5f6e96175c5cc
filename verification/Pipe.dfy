/** pipe.c: the byte ring, its sleepers and its 32-bit counters. One event, and one method call, is
    one hold of p->lock. */
module Pipe {
  const PIPESIZE := 512
  const WIDTH := 0x1_0000_0000

  function Slot(k: int): (i: int)
    ensures 0 <= i < PIPESIZE
  {
    k % PIPESIZE
  }

  lemma OtherSlot(a: int, b: int)
    requires 0 < b - a < PIPESIZE
    ensures Slot(a) != Slot(b)
  {
  }

  lemma SplitMod(q: int, r: int)
    ensures (PIPESIZE * q + r) % PIPESIZE == r % PIPESIZE
  {
  }

  /** The ring's size divides the counters' range, so wrap-around does not move bytes. */
  lemma WrapIndex(x: int)
    ensures (x % WIDTH) % PIPESIZE == Slot(x)
  {
    assert x == PIPESIZE * (8388608 * (x / WIDTH)) + x % WIDTH;
    SplitMod(8388608 * (x / WIDTH), x % WIDTH);
  }

  lemma WrapNext(x: int)
    ensures (x % WIDTH + 1) % WIDTH == (x + 1) % WIDTH
  {
  }

  /** Counters that are less than 2^32 apart agree modulo 2^32 only when equal. */
  lemma WrapEqual(a: int, b: int)
    requires 0 <= b - a < WIDTH
    ensures a % WIDTH == b % WIDTH <==> a == b
  {
  }

  lemma WrapFull(a: int, b: int)
    requires 0 <= b - a <= PIPESIZE
    ensures (a % WIDTH + PIPESIZE) % WIDTH == b % WIDTH <==> b - a == PIPESIZE
  {
    assert (a % WIDTH + PIPESIZE) % WIDTH == (a + PIPESIZE) % WIDTH;
    WrapEqual(b, a + PIPESIZE);
  }

  // ---------- the pipe as a transition system ----------

  /** written and got are every byte ever written and read; rfds and wfds the processes that have
      the read and the write end open; readers and writers those asleep on &p->nread and &p->nwrite. */
  datatype State = State(written: seq<char>, got: seq<char>, readopen: bool, writeopen: bool,
                         readers: set<int>, writers: set<int>, rfds: set<int>, wfds: set<int>)
  {
    function Buffered(): int { |written| - |got| }
    predicate Awake(p: int) { p !in readers && p !in writers }
  }

  datatype Event =
    | Write(me: int, bytes: seq<char>, killed: bool)  // from entering or waking up to the next release or sleep
    | Read(me: int, n: int, killed: bool)
    | Close(me: int, writable: bool)                  // fileclose, with pipeclose when me is the last
    | Share(me: int, you: int, writable: bool)        // filedup, for a child
    | Kill(p: int)                                    // kill makes a sleeper runnable

  predicate CanDo(s: State, e: Event) {
    match e
    case Write(me, bytes, killed) => me in s.wfds && s.Awake(me)
    case Read(me, n, killed) => me in s.rfds && s.Awake(me)
    case Close(me, writable) => me in (if writable then s.wfds else s.rfds) && s.Awake(me)
    case Share(me, you, writable) => me in (if writable then s.wfds else s.rfds) && s.Awake(me)
    case Kill(p) => true
  }

  function Min(a: int, b: int): (m: int)
    ensures m <= a && m <= b && (m == a || m == b)
  {
    if a < b then a else b
  }

  /** How many bytes of a read of n are there. */
  function Count(s: State, n: int): int {
    if n <= 0 || s.Buffered() <= 0 then 0 else if n < s.Buffered() then n else s.Buffered()
  }

  function WriteTo(s: State, me: int, bytes: seq<char>, killed: bool): State {
    var room := PIPESIZE - s.Buffered();
    if |bytes| <= room then s.(written := s.written + bytes, readers := {})
    else
      var t := s.(written := s.written + if room <= 0 then [] else bytes[..room]);
      if !s.readopen || killed then t else t.(readers := {}, writers := s.writers + {me})
  }

  lemma WroteAll(s: State, me: int, bytes: seq<char>, killed: bool)
    requires s.Buffered() + |bytes| <= PIPESIZE
    ensures WriteTo(s, me, bytes, killed) == s.(written := s.written + bytes, readers := {})
  {
  }

  lemma WroteSome(s: State, me: int, addr: seq<char>, i: int, i': int, killed: bool)
    requires 0 <= i <= i' < |addr| && s.Buffered() + i' - i == PIPESIZE
    ensures var t := s.(written := s.written + addr[i..i']);
            WriteTo(s, me, addr[i..], killed) == if !s.readopen || killed then t else t.(readers := {}, writers := s.writers + {me})
  {
    assert addr[i..][..i' - i] == addr[i..i'];
  }

  function ReadFrom(s: State, me: int, n: int, killed: bool): State {
    if s.Buffered() == 0 && s.writeopen then
      if killed then s else s.(readers := s.readers + {me})
    else if |s.got| + Count(s, n) <= |s.written| then
      s.(got := s.written[..|s.got| + Count(s, n)], writers := {})
    else s
  }

  lemma ReadNone(s: State, me: int, n: int, killed: bool)
    requires s.Buffered() == 0 && s.writeopen
    ensures ReadFrom(s, me, n, killed) == if killed then s else s.(readers := s.readers + {me})
  {
  }

  lemma ReadSome(s: State, me: int, n: int, killed: bool, addr: seq<char>)
    requires !(s.Buffered() == 0 && s.writeopen) && |s.got| + |addr| <= |s.written| && s.got + addr == s.written[..|s.got + addr|]
    requires |addr| == Min(if n < 0 then 0 else n, s.Buffered())
    ensures ReadFrom(s, me, n, killed) == s.(got := s.got + addr, writers := {})
  {
  }

  function Do(s: State, e: Event): State
    requires CanDo(s, e)
  {
    match e
    case Write(me, bytes, killed) => WriteTo(s, me, bytes, killed)
    case Read(me, n, killed) => ReadFrom(s, me, n, killed)
    case Close(me, true) =>
      if s.wfds == {me} then s.(wfds := {}, writeopen := false, readers := {}) else s.(wfds := s.wfds - {me})
    case Close(me, false) =>
      if s.rfds == {me} then s.(rfds := {}, readopen := false, writers := {}) else s.(rfds := s.rfds - {me})
    case Share(me, you, writable) =>
      if writable then s.(wfds := s.wfds + {you}) else s.(rfds := s.rfds + {you})
    case Kill(p) => s.(readers := s.readers - {p}, writers := s.writers - {p})
  }

  /** The bytes read are the first of the bytes written, at most 512 behind; an end is open while some
      process has it; who sleeps has its end open and the other end is open; a sleeping writer means full;
      readers and writers do not sleep at the same time. */
  ghost predicate Inv(s: State) {
    && |s.got| <= |s.written| <= |s.got| + PIPESIZE && s.got == s.written[..|s.got|]
    && (s.readopen <==> s.rfds != {}) && (s.writeopen <==> s.wfds != {})
    && s.readers <= s.rfds && s.writers <= s.wfds
    && (s.readers != {} ==> s.writeopen)
    && (s.writers != {} ==> s.readopen && s.Buffered() == PIPESIZE)
    && (s.readers == {} || s.writers == {})
  }

  lemma Keep(s: State, e: Event)
    requires Inv(s) && CanDo(s, e)
    ensures Inv(Do(s, e))
  {
  }

  /** A process that has an end open and is awake can close it, or share it with a child. */
  lemma HoldersCan(s: State, me: int, you: int, writable: bool)
    requires me !in s.readers && me !in s.writers && me in if writable then s.wfds else s.rfds
    ensures CanDo(s, Close(me, writable)) && CanDo(s, Share(me, you, writable))
    ensures var t := Do(s, Share(me, you, writable)); you in if writable then t.wfds else t.rfds
    ensures var t := Do(s, Close(me, writable)); me !in if writable then t.wfds else t.rfds
  {
  }

  predicate Init(s: State) {
    exists p :: p in s.rfds && s == State([], [], true, true, {}, {}, {p}, {p})
  }

  ghost predicate Run(ss: seq<State>, es: seq<Event>) {
    && |ss| == |es| + 1 && Init(ss[0])
    && (forall k {:trigger es[k]} :: 0 <= k < |es| ==> CanDo(ss[k], es[k]) && ss[k + 1] == Do(ss[k], es[k]))
  }

  lemma {:induction false} RunInv(ss: seq<State>, es: seq<Event>, k: nat)
    requires Run(ss, es) && k < |ss|
    ensures Inv(ss[k])
  {
    if k > 0 {
      RunInv(ss, es, k - 1);
      hide Inv, CanDo, Do, Init;
      var e := es[k - 1];
      Keep(ss[k - 1], e);
    }
  }

  lemma StreamStep(s: State, e: Event)
    requires Inv(s) && CanDo(s, e)
    ensures s.written <= Do(s, e).written && s.got <= Do(s, e).got
  {
  }

  /** Over every run, what is read is what was written, in order: bytes written or read stay
      written or read, and at any time the bytes read are the first of those written. */
  lemma {:induction false} StreamSafe(ss: seq<State>, es: seq<Event>, i: nat, k: nat)
    requires Run(ss, es) && i <= k < |ss|
    ensures ss[i].written <= ss[k].written && ss[i].got <= ss[k].got
    ensures ss[i].got <= ss[k].written && ss[k].got <= ss[k].written && ss[k].Buffered() <= PIPESIZE
    decreases k
  {
    RunInv(ss, es, k);
    if i < k {
      StreamSafe(ss, es, i, k - 1);
      RunInv(ss, es, k - 1);
      hide Inv, CanDo, Do, Init;
      var e := es[k - 1];
      StreamStep(ss[k - 1], e);
    }
  }

  // ---------- what reads and writes answer ----------

  /** A read takes what there is, up to n bytes, and wakes the writers; on an empty pipe whose write end
      is open it takes nothing and sleeps, or fails if the reader is killed. */
  lemma ReadTakes(s: State, e: Event)
    requires Inv(s) && CanDo(s, e) && e.Read?
    ensures var t := Do(s, e);
            if s.got == s.written && s.wfds != {} then t == if e.killed then s else s.(readers := s.readers + {e.me})
            else t == s.(got := t.got, writers := {}) && t.got <= s.written
                 && |t.got| - |s.got| == Min(if e.n < 0 then 0 else e.n, |s.written| - |s.got|)
  {
  }

  /** A write puts in what fits. If all fits it wakes the readers. If not, the pipe is full after it, and the
      writer wakes the readers and sleeps, or fails if it is killed or no one can read. */
  lemma WritePuts(s: State, e: Event)
    requires Inv(s) && CanDo(s, e) && e.Write?
    ensures var t := Do(s, e); var m := Min(|e.bytes|, PIPESIZE - (|s.written| - |s.got|));
            && 0 <= m && t.written == s.written + e.bytes[..m]
            && if m == |e.bytes| then t == s.(written := t.written, readers := {})
               else |t.written| - |t.got| == PIPESIZE
                    && t == if e.killed || s.rfds == {} then s.(written := t.written)
                            else s.(written := t.written, readers := {}, writers := s.writers + {e.me})
  {
  }

  /** A sleeping reader is woken by its being killed, by a write that finishes or goes to sleep, and by the last
      close of the write end; a sleeping writer by its being killed, by a read, and by the last close of the
      read end; and by nothing else. */
  lemma WakesIff(s: State, e: Event, p: int)
    requires Inv(s) && CanDo(s, e)
    ensures p in s.readers ==>
              (p !in Do(s, e).readers <==>
               || e == Kill(p)
               || (e.Write? && (|s.written| + |e.bytes| <= |s.got| + PIPESIZE || !(e.killed || s.rfds == {})))
               || (e.Close? && e.writable && s.wfds == {e.me}))
    ensures p in s.writers ==> (p !in Do(s, e).writers <==> e == Kill(p) || e.Read? || (e.Close? && !e.writable && s.rfds == {e.me}))
    ensures s.Awake(p) && !Do(s, e).Awake(p) ==> (e.Read? || e.Write?) && e.me == p
  {
  }

  /** A closed write end stays closed, and no byte is written any more. */
  lemma {:induction false} StaysClosed(ss: seq<State>, es: seq<Event>, k: nat, j: nat)
    requires Run(ss, es) && k <= j < |ss| && ss[k].wfds == {}
    ensures ss[j].wfds == {} && ss[j].written == ss[k].written
    decreases j
  {
    if k < j {
      StaysClosed(ss, es, k, j - 1);
      hide Inv, Init;
      var e := es[j - 1];
    }
  }

  /** End of file, over every run: a read of at least one byte sleeps, or fails if killed, exactly on an empty
      pipe open for writing; else it finishes, and returns no byte exactly if the pipe is empty and its write
      end closed. From then on nothing is written, and every byte ever written has been read. */
  lemma EndOfFile(ss: seq<State>, es: seq<Event>, k: nat, j: nat)
    requires Run(ss, es) && k < |es| && k <= j < |ss| && es[k].Read? && es[k].n >= 1
    ensures if ss[k].got == ss[k].written && ss[k].wfds != {} then
              ss[k + 1] == if es[k].killed then ss[k] else ss[k].(readers := ss[k].readers + {es[k].me})
            else es[k].me !in ss[k + 1].readers && (ss[k + 1].got == ss[k].got <==> ss[k].got == ss[k].written && ss[k].wfds == {})
    ensures ss[k + 1].got == ss[k].got && ss[k].wfds == {} ==> ss[k].got == ss[j].written == ss[j].got
  {
    RunInv(ss, es, k);
    var e := es[k];
    ReadTakes(ss[k], e);
    if ss[k].wfds == {} {
      StaysClosed(ss, es, k, j);
      StreamSafe(ss, es, k, j);
    }
    hide Do, CanDo, Init;
  }

  // ---------- who is left asleep ----------

  /** A sleeping reader has nothing to read. */
  predicate NoneMissed(s: State) {
    s.readers != {} ==> s.Buffered() == 0
  }

  /** Not a killed process writing more than the pipe holds while readers sleep. */
  predicate Tidy(s: State, e: Event) {
    e.Write? && e.killed && s.readers != {} ==> |e.bytes| <= PIPESIZE
  }

  /** One step forgets a sleeping reader exactly when it is not tidy: pipewrite gives up on a full
      pipe without waking the readers. */
  lemma MissedIff(s: State, e: Event)
    requires Inv(s) && NoneMissed(s) && CanDo(s, e)
    ensures NoneMissed(Do(s, e)) <==> Tidy(s, e)
  {
  }

  lemma {:induction false} RunTidy(ss: seq<State>, es: seq<Event>, k: nat)
    requires Run(ss, es) && k < |ss|
    requires (forall j {:trigger es[j]} :: 0 <= j < k ==> Tidy(ss[j], es[j])) || (forall j :: 0 <= j <= k ==> NoneMissed(ss[j]))
    ensures NoneMissed(ss[k]) && forall j {:trigger es[j]} :: 0 <= j < k ==> Tidy(ss[j], es[j])
  {
    if k > 0 {
      RunTidy(ss, es, k - 1);
      RunInv(ss, es, k - 1);
      hide Inv, CanDo, Do, Init, NoneMissed, Tidy;
      var e := es[k - 1];
      MissedIff(ss[k - 1], e);
    }
  }

  /** Over every run: no reader ever sleeps on a pipe with bytes in it exactly when no killed process
      writes more than 512 bytes while readers sleep. */
  lemma NoneMissedIff(ss: seq<State>, es: seq<Event>)
    requires Run(ss, es)
    ensures (forall k :: 0 <= k < |ss| ==> NoneMissed(ss[k])) <==> (forall k {:trigger es[k]} :: 0 <= k < |es| ==> Tidy(ss[k], es[k]))
  {
    hide NoneMissed, Tidy, CanDo, Do, Init;
    if forall k {:trigger es[k]} :: 0 <= k < |es| ==> Tidy(ss[k], es[k]) {
      forall k | 0 <= k < |ss| ensures NoneMissed(ss[k]) {
        RunTidy(ss, es, k);
      }
    } else if forall k :: 0 <= k < |ss| ==> NoneMissed(ss[k]) {
      RunTidy(ss, es, |es|);
    }
  }

  /** Over every run, killed processes included: sleeping writers have a full pipe and someone to read
      from it, sleeping readers someone to write, and readers and writers never sleep at the same time. */
  lemma SleepSafe(ss: seq<State>, es: seq<Event>, k: nat)
    requires Run(ss, es) && k < |ss|
    ensures var s := ss[k];
            && (s.writers != {} ==> s.Buffered() == PIPESIZE && s.rfds != {})
            && (s.readers != {} ==> s.wfds != {})
            && (s.readers == {} || s.writers == {})
  {
    RunInv(ss, es, k);
    hide Run;
  }

  /** Process 1 makes a pipe; 2 gets the read end and 3 the write end; 2 sleeps in read; 1, killed
      meanwhile, writes 513 bytes and exits. 2 sleeps on with 512 bytes to read. */
  lemma MissedRun() returns (ss: seq<State>, es: seq<Event>)
    ensures Run(ss, es) && ss[|es|].readers == {2} && ss[|es|].Buffered() == PIPESIZE
    ensures ss[|es|].rfds == {2} && ss[|es|].wfds == {3} && ss[|es|].writers == {}
  {
    var bytes := seq(PIPESIZE + 1, _ => 'x');
    var s0 := State([], [], true, true, {}, {}, {1}, {1});
    var s1 := s0.(rfds := {1, 2});
    var s2 := s1.(wfds := {1, 3});
    var s3 := s2.(readers := {2});
    var s4 := s3.(written := bytes[..PIPESIZE]);
    var s5 := s4.(wfds := {3});
    var s6 := s5.(rfds := {2});
    assert 1 in s0.rfds;
    ss := [s0, s1, s2, s3, s4, s5, s6];
    es := [Share(1, 2, false), Share(1, 3, true), Read(2, 1, false), Write(1, bytes, true), Close(1, true), Close(1, false)];
    assert s0.rfds + {2} == {1, 2} && s1.wfds + {3} == {1, 3};
    assert s4.wfds - {1} == {3} && s5.rfds - {1} == {2};
  }

  // ---------- pipe.c ----------

  /** The counters count modulo 2^32, and the ring holds what was written and not yet read. */
  ghost predicate StreamOf(ring: seq<char>, nread: int, nwrite: int, written: seq<char>, got: seq<char>) {
    && |ring| == PIPESIZE && nread == |got| % WIDTH && nwrite == |written| % WIDTH
    && |got| <= |written| <= |got| + PIPESIZE && got == written[..|got|]
    && (forall k :: |got| <= k < |written| ==> ring[Slot(k)] == written[k])
  }

  datatype Outcome = Finished | Sleeps | Failed

  class PipeBuffer {
    const data: array<char>
    var nread: int
    var nwrite: int
    var readopen: bool
    var writeopen: bool
    var readers: set<int>         // asleep on &p->nread
    var writers: set<int>         // asleep on &p->nwrite
    ghost var written: seq<char>
    ghost var got: seq<char>
    ghost var rfds: set<int>
    ghost var wfds: set<int>

    ghost function View(): State
      reads this
    {
      State(written, got, readopen, writeopen, readers, writers, rfds, wfds)
    }

    ghost predicate Stream()
      reads this, data
    {
      StreamOf(data[..], nread, nwrite, written, got)
    }

    ghost predicate Valid()
      reads this, data
    {
      Stream() && Inv(View())
    }

    /** pipealloc, by process me. */
    constructor (me: int)
      ensures Valid() && fresh(data) && Init(View())
    {
      data := new char[PIPESIZE](_ => ' ');
      nread, nwrite, readopen, writeopen, readers, writers, written, got := 0, 0, true, true, {}, {}, [], [];
      rfds, wfds := {me}, {me};
      new;
      assert me in rfds;
    }

    /** p->data[p->nwrite++ % PIPESIZE] = c */
    method Put(c: char)
      requires Stream() && |written| < |got| + PIPESIZE
      modifies this`nwrite, this`written, data
      ensures Stream() && written == old(written) + [c]
    {
      WrapIndex(|written|);
      WrapNext(|written|);
      forall k | |got| <= k < |written| ensures Slot(k) != Slot(|written|) {
        OtherSlot(k, |written|);
      }
      hide Slot;
      data[nwrite % PIPESIZE] := c;
      nwrite := (nwrite + 1) % WIDTH;
      written := written + [c];
    }

    method Get() returns (c: char)
      requires Stream() && |got| < |written|
      modifies this`nread, this`got
      ensures Stream() && got == old(got) + [c] && c == written[|old(got)|]
    {
      WrapIndex(|got|);
      WrapNext(|got|);
      c := data[nread % PIPESIZE];
      nread := (nread + 1) % WIDTH;
      got := got + [c];
    }

    /** p->nwrite == p->nread + PIPESIZE */
    method IsFull() returns (full: bool)
      requires Stream()
      ensures full <==> |written| - |got| == PIPESIZE
    {
      WrapFull(|got|, |written|);
      full := nwrite == (nread + PIPESIZE) % WIDTH;
    }

    /** p->nread == p->nwrite */
    method IsEmpty() returns (empty: bool)
      requires Stream()
      ensures empty <==> |written| == |got|
    {
      WrapEqual(|got|, |written|);
      empty := nread == nwrite;
    }

    ghost predicate Sized()
      reads this
    {
      |got| <= |written| <= |got| + PIPESIZE && got == written[..|got|]
    }

    lemma StreamSized()
      requires Stream()
      ensures Sized()
    {
    }

    /** The loop of pipewrite until it is done or the pipe is full. */
    method Fill(addr: seq<char>, i: int) returns (i': int)
      requires Stream() && 0 <= i <= |addr|
      modifies this`nwrite, this`written, data
      ensures Stream() && i <= i' <= |addr| && written == old(written) + addr[i..i']
      ensures i' - i == Min(|addr| - i, PIPESIZE - old(|written| - |got|))
    {
      i' := i;
      ghost var w := written;
      StreamSized();
      hide StreamOf;
      while i' < |addr|
        invariant Stream() && Sized() && i <= i' <= |addr| && written == w + addr[i..i']
      {
        var full := IsFull();
        if full {
          return;
        }
        Put(addr[i']);
        StreamSized();
        assert addr[i..i' + 1] == addr[i..i'] + [addr[i']];
        i' := i' + 1;
      }
    }

    /** pipewrite of addr from byte i on; Failed stands for the return of -1. */
    method Write(me: int, addr: seq<char>, i: int, killed: bool) returns (r: Outcome, i': int)
      requires Valid() && 0 <= i <= |addr| && me in wfds && me !in readers + writers
      modifies this`nwrite, this`written, this`readers, this`writers, data
      ensures Valid() && View() == Do(old(View()), Event.Write(me, addr[i..], killed))
      ensures i <= i' <= |addr| && written == old(written) + addr[i..i']
      ensures i' - i == Min(|addr| - i, PIPESIZE - old(|written| - |got|))
      ensures r == Finished <==> i' == |addr|
      ensures r == Failed <==> i' < |addr| && (killed || !readopen)
      ensures r == Sleeps <==> me in writers
    {
      ghost var s := View();
      Keep(s, Event.Write(me, addr[i..], killed));
      hide Inv, StreamOf, WriteTo;
      i' := Fill(addr, i);
      if i' < |addr| {
        WroteSome(s, me, addr, i, i', killed);
        if !readopen || killed {
          return Failed, i';
        }
        readers := {};
        writers := writers + {me};
        return Sleeps, i';
      }
      assert addr[i..i'] == addr[i..];
      WroteAll(s, me, addr[i..], killed);
      readers := {};
      r := Finished;
    }

    /** The copying loop of piperead. */
    method Drain(n: int) returns (addr: seq<char>)
      requires Stream()
      modifies this`nread, this`got
      ensures Stream() && got == old(got) + addr
      ensures |addr| == Min(if n < 0 then 0 else n, old(|written| - |got|))
    {
      addr := [];
      ghost var g := got;
      StreamSized();
      hide StreamOf;
      var i := 0;
      while i < n
        invariant 0 <= i && (i <= n || i == 0) && |addr| == i && Stream() && Sized() && got == g + addr
      {
        var empty := IsEmpty();
        if empty {
          break;
        }
        var c := Get();
        StreamSized();
        addr := addr + [c];
        i := i + 1;
      }
    }

    /** piperead of up to n bytes; Failed stands for the return of -1. */
    method Read(me: int, n: int, killed: bool) returns (r: Outcome, addr: seq<char>)
      requires Valid() && me in rfds && me !in readers + writers
      modifies this`nread, this`got, this`readers, this`writers
      ensures Valid() && View() == Do(old(View()), Event.Read(me, n, killed))
      ensures got == old(got) + addr
      ensures if old(|got| == |written|) && writeopen then addr == [] && r == if killed then Failed else Sleeps
              else r == Finished && |addr| == Min(if n < 0 then 0 else n, old(|written| - |got|))
      ensures |old(got)| + |addr| <= |written| && addr == written[|old(got)|..|old(got)| + |addr|]
      ensures r == Sleeps <==> me in readers
    {
      addr := [];
      ghost var s := View();
      Keep(s, Event.Read(me, n, killed));
      StreamSized();
      hide Inv, StreamOf, ReadFrom;
      var empty := IsEmpty();
      if empty && writeopen {
        ReadNone(s, me, n, killed);
        if killed {
          return Failed, addr;
        }
        readers := readers + {me};
        return Sleeps, addr;
      }
      addr := Drain(n);
      StreamSized();
      ReadSome(s, me, n, killed, addr);
      writers := {};
      r := Finished;
    }

    /** pipeclose of one end, by the last process that has it open. */
    method Close(me: int, writable: bool) returns (free: bool)
      requires Valid() && (if writable then wfds else rfds) == {me} && me !in readers + writers
      modifies this`readopen, this`writeopen, this`readers, this`writers, this`rfds, this`wfds
      ensures Valid() && View() == Do(old(View()), Event.Close(me, writable))
      ensures free <==> rfds == {} && wfds == {}
    {
      Keep(View(), Event.Close(me, writable));
      if writable {
        writeopen := false;
        readers := {};
        wfds := {};
      } else {
        readopen := false;
        writers := {};
        rfds := {};
      }
      free := !readopen && !writeopen;
    }

    /** The ring, read from nread on, is what was written and not yet read, whatever the counters have wrapped to. */
    lemma RingHolds(k: nat)
      requires Valid() && k < |written| - |got|
      ensures written[|got| + k] == data[(nread + k) % PIPESIZE]
    {
      RingIndex(|got|, k);
      hide Slot, Inv;
    }
  }

  lemma RingIndex(x: int, k: int)
    ensures (x % WIDTH + k) % PIPESIZE == Slot(x + k)
  {
    assert x + k == PIPESIZE * (8388608 * (x / WIDTH)) + (x % WIDTH + k);
    SplitMod(8388608 * (x / WIDTH), x % WIDTH + k);
  }
}
