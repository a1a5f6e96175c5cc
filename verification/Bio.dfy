/** bio.c: the buffer cache over a block disk, one step per lock hold. */
module Bio {
  import opened Disk
  import opened Options
  import opened Params

  type Key = (int, int)  // device, block number

  /** holder is the process that has the sleep lock, 0 when it is free. */
  datatype Buf = Buf(dev: int, blockno: int, valid: bool, dirty: bool, refcnt: int, holder: int, data: Block)

  function KeyOf(b: Buf): Key {
    (b.dev, b.blockno)
  }

  // ---------- the list ----------

  /** next and prev hold the ring head, order[0], ..., head; the head is the last index. */
  ghost predicate Ring(order: seq<int>, next: seq<int>, prev: seq<int>, n: int) {
    var ring := [n] + order + [n];
    && n >= 0 && |next| == n + 1 && |prev| == n + 1
    && (forall i :: 0 <= i < |order| ==> 0 <= order[i] < n)
    && (forall i {:trigger next[ring[i]]} :: 0 <= i <= |order| ==> next[ring[i]] == ring[i + 1])
    && (forall i {:trigger prev[ring[i]]} :: 1 <= i <= |order| + 1 ==> prev[ring[i]] == ring[i - 1])
  }

  ghost predicate NoRepeat(order: seq<int>) {
    forall i, j :: 0 <= i < j < |order| ==> order[i] != order[j]
  }

  /** Lines 50-54 of binit, 134-137 of brelse: b goes to the front. */
  function PushNext(next: seq<int>, b: int, n: int): (r: seq<int>)
    requires |next| == n + 1 && 0 <= b < n
  {
    next[b := next[n]][n := b]
  }

  function PushPrev(next: seq<int>, prev: seq<int>, b: int, n: int): (r: seq<int>)
    requires |next| == n + 1 && |prev| == n + 1 && 0 <= b < n && 0 <= next[n] <= n
  {
    prev[b := n][next[n] := b]
  }

  lemma Push(order: seq<int>, next: seq<int>, prev: seq<int>, b: int, n: int)
    requires Ring(order, next, prev, n) && 0 <= b < n && b !in order && NoRepeat(order)
    ensures 0 <= next[n] <= n
    ensures Ring([b] + order, PushNext(next, b, n), PushPrev(next, prev, b, n), n) && NoRepeat([b] + order)
  {
    var ring, ring' := [n] + order + [n], [n] + ([b] + order) + [n];
    assert ring[0] == n && next[ring[0]] == ring[1];
    var next', prev' := PushNext(next, b, n), PushPrev(next, prev, b, n);
    forall i | 0 <= i <= |order| + 1 ensures next'[ring'[i]] == ring'[i + 1] {
      if i > 1 {
        assert ring'[i] == ring[i - 1] && ring'[i + 1] == ring[i];
        assert next[ring[i - 1]] == ring[i];
      }
    }
    forall i | 1 <= i <= |order| + 2 ensures prev'[ring'[i]] == ring'[i - 1] {
      if i > 2 {
        assert ring'[i] == ring[i - 1] && ring'[i - 1] == ring[i - 2];
        assert prev[ring[i - 1]] == ring[i - 2];
        assert ring[i - 1] != ring[1] by { assert ring[1] == order[0]; }
      }
    }
  }

  /** Lines 132-133 of brelse: b's neighbours skip it. */
  lemma Unlink(order: seq<int>, next: seq<int>, prev: seq<int>, k: int, n: int)
    requires Ring(order, next, prev, n) && NoRepeat(order) && 0 <= k < |order|
    ensures var b := order[k];
            && 0 <= next[b] <= n && 0 <= prev[b] <= n && next[b] != b
            && Ring(order[..k] + order[k + 1..], next[prev[b] := next[b]], prev[next[b] := prev[b]], n)
            && NoRepeat(order[..k] + order[k + 1..]) && b !in order[..k] + order[k + 1..]
  {
    var b, rest := order[k], order[..k] + order[k + 1..];
    var ring, ring' := [n] + order + [n], [n] + rest + [n];
    assert ring[k + 1] == b;
    assert next[ring[k + 1]] == ring[k + 2] && prev[ring[k + 1]] == ring[k];
    var next', prev' := next[prev[b] := next[b]], prev[next[b] := prev[b]];
    forall i | 0 <= i <= |rest| ensures next'[ring'[i]] == ring'[i + 1] {
      var j := if i <= k then i else i + 1;
      assert ring'[i] == ring[j] && next[ring[j]] == ring[j + 1];
      assert i != k ==> ring'[i + 1] == ring[j + 1] && ring[j] != ring[k];
    }
    forall i | 1 <= i <= |rest| + 1 ensures prev'[ring'[i]] == ring'[i - 1] {
      var j := if i <= k then i else i + 1;
      assert ring'[i] == ring[j] && prev[ring[j]] == ring[j - 1];
      assert i != k + 1 ==> ring'[i - 1] == ring[j - 1] && ring[j] != ring[k + 2];
    }
  }

  ghost predicate Complete(order: seq<int>, n: int) {
    && |order| == n && NoRepeat(order)
    && (forall b :: 0 <= b < n ==> b in order)
  }

  /** stamp[b] is when b last dropped to no references; the list has the latest first. */
  ghost predicate ByDrop(order: seq<int>, stamp: seq<int>, clock: int) {
    && (forall i :: 0 <= i < |order| ==> 0 <= order[i] < |stamp|)
    && (forall i, j :: 0 <= i < j < |order| ==> stamp[order[i]] > stamp[order[j]])
    && (forall b :: 0 <= b < |stamp| ==> stamp[b] < clock)
  }

  /** Everything about the list: a ring through every buffer once, ordered by latest drop. */
  ghost predicate ListOK(order: seq<int>, next: seq<int>, prev: seq<int>, stamp: seq<int>, clock: int, n: int) {
    Ring(order, next, prev, n) && Complete(order, n) && |stamp| == n && ByDrop(order, stamp, clock)
  }

  /** Lines 132-137 of brelse keep the list and make b the latest. */
  lemma MoveToFront(order: seq<int>, next: seq<int>, prev: seq<int>, stamp: seq<int>, clock: int, n: int, k: int)
    requires ListOK(order, next, prev, stamp, clock, n) && 0 <= k < n
    ensures var b := order[k];
            && 0 <= b < n && |next| == |prev| == n + 1 && 0 <= next[b] <= n && 0 <= prev[b] <= n && next[b] != b
            && var next1, prev1 := next[prev[b] := next[b]], prev[next[b] := prev[b]];
            && 0 <= next1[n] <= n
            && ListOK([b] + (order[..k] + order[k + 1..]), PushNext(next1, b, n), PushPrev(next1, prev1, b, n), stamp[b := clock], clock + 1, n)
  {
    var b := order[k];
    Unlink(order, next, prev, k, n);
    var next1, prev1, rest := next[prev[b] := next[b]], prev[next[b] := prev[b]], order[..k] + order[k + 1..];
    Push(rest, next1, prev1, b, n);
    hide Ring;
    FrontComplete(order, k, n);
    FrontByDrop(order, stamp, clock, k);
  }

  lemma FrontComplete(order: seq<int>, k: int, n: int)
    requires Complete(order, n) && 0 <= k < n && NoRepeat([order[k]] + (order[..k] + order[k + 1..]))
    ensures Complete([order[k]] + (order[..k] + order[k + 1..]), n)
  {
    var order' := [order[k]] + (order[..k] + order[k + 1..]);
    forall b | 0 <= b < n ensures b in order' {
      assert b in order;
      var i :| 0 <= i < |order| && order[i] == b;
      assert order'[if i < k then i + 1 else if i == k then 0 else i] == b;
    }
  }

  lemma FrontByDrop(order: seq<int>, stamp: seq<int>, clock: int, k: int)
    requires ByDrop(order, stamp, clock) && NoRepeat(order) && 0 <= k < |order|
    ensures ByDrop([order[k]] + (order[..k] + order[k + 1..]), stamp[order[k] := clock], clock + 1)
  {
    var order', stamp' := [order[k]] + (order[..k] + order[k + 1..]), stamp[order[k] := clock];
    forall i | 0 < i < |order'|
      ensures order'[i] == order[if i <= k then i - 1 else i] && order'[i] != order[k] && stamp'[order'[i]] == stamp[order'[i]]
    {}
  }

  // ---------- what the buffers hold ----------

  /** disk is what the device holds; latest is what the last process to unlock each block left in it;
      touched says the process with the lock has stored into the data since it got the lock. */
  ghost predicate Holds(b: Buf, touched: bool, disk: map<Key, Block>, latest: map<Key, Block>) {
    var key := KeyOf(b);
    && (b.valid || b.dirty ==> key in disk && key in latest)
    && (b.valid && !touched ==> b.data == latest[key])
    && (touched ==> b.holder != 0)
    && (b.valid && b.holder == 0 && !b.dirty ==> b.data == disk[key])
    && (!b.valid ==> !b.dirty && (key in disk && key in latest ==> latest[key] == disk[key]))
  }

  ghost predicate AllHold(bufs: seq<Buf>, touched: seq<bool>, disk: map<Key, Block>, latest: map<Key, Block>) {
    && |touched| == |bufs|
    && (forall i :: 0 <= i < |bufs| && bufs[i].dev != 0 ==> Holds(bufs[i], touched[i], disk, latest))
  }

  ghost predicate Distinct(bufs: seq<Buf>) {
    forall i, j :: 0 <= i < j < |bufs| && bufs[i].dev != 0 ==> KeyOf(bufs[i]) != KeyOf(bufs[j])
  }

  predicate Cached(bufs: seq<Buf>, key: Key) {
    exists i :: 0 <= i < |bufs| && KeyOf(bufs[i]) == key
  }

  ghost predicate UncachedClean(bufs: seq<Buf>, disk: map<Key, Block>, latest: map<Key, Block>) {
    && disk.Keys == latest.Keys
    && (forall key :: key in disk && key.0 != 0 && !Cached(bufs, key) ==> latest[key] == disk[key])
  }

  /** The cache agrees with the latest contents of every block of a device other than 0. */
  ghost predicate DataOK(bufs: seq<Buf>, touched: seq<bool>, disk: map<Key, Block>, latest: map<Key, Block>) {
    Distinct(bufs) && AllHold(bufs, touched, disk, latest) && UncachedClean(bufs, disk, latest)
  }

  /** users[i] are the processes with a reference; the one with the lock is among them. */
  ghost predicate UsersOK(bufs: seq<Buf>, users: seq<multiset<int>>) {
    && |users| == |bufs|
    && (forall i :: 0 <= i < |bufs| ==> |users[i]| == bufs[i].refcnt && (bufs[i].holder != 0 ==> bufs[i].holder in users[i]))
  }

  /** Only fields that DataOK does not look at change. */
  lemma Same(bufs: seq<Buf>, touched: seq<bool>, disk: map<Key, Block>, latest: map<Key, Block>, b: int, r: int)
    requires DataOK(bufs, touched, disk, latest) && 0 <= b < |bufs|
    ensures DataOK(bufs[b := bufs[b].(refcnt := r)], touched, disk, latest)
  {
    var bufs' := bufs[b := bufs[b].(refcnt := r)];
    SameKeys(bufs, bufs', disk, latest);
  }

  lemma SameKeys(bufs: seq<Buf>, bufs': seq<Buf>, disk: map<Key, Block>, latest: map<Key, Block>)
    requires |bufs'| == |bufs| && forall i :: 0 <= i < |bufs| ==> KeyOf(bufs'[i]) == KeyOf(bufs[i])
    ensures Distinct(bufs) ==> Distinct(bufs')
    ensures UncachedClean(bufs, disk, latest) ==> UncachedClean(bufs', disk, latest)
  {
    forall key ensures Cached(bufs', key) <==> Cached(bufs, key) {
      if Cached(bufs, key) {
        var i :| 0 <= i < |bufs| && KeyOf(bufs[i]) == key;
        assert KeyOf(bufs'[i]) == key;
      }
    }
  }

  /** A buffer with no references and not dirty can be given to an uncached block. */
  lemma Recycle(bufs: seq<Buf>, touched: seq<bool>, disk: map<Key, Block>, latest: map<Key, Block>, b: int, dev: int, blockno: int)
    requires DataOK(bufs, touched, disk, latest) && 0 <= b < |bufs| && !bufs[b].dirty && bufs[b].holder == 0
    requires !Cached(bufs, (dev, blockno))
    ensures DataOK(bufs[b := Buf(dev, blockno, false, false, 1, 0, bufs[b].data)], touched[b := false], disk, latest)
  {
    var bufs' := bufs[b := Buf(dev, blockno, false, false, 1, 0, bufs[b].data)];
    forall i | 0 <= i < |bufs| ensures KeyOf(bufs[i]) != (dev, blockno) {
      assert !Cached(bufs, (dev, blockno));
    }
    forall key | key in disk && key.0 != 0 && !Cached(bufs', key) ensures latest[key] == disk[key] {
      if key == KeyOf(bufs[b]) {
        assert Holds(bufs[b], touched[b], disk, latest);
      } else {
        UncachedStays(bufs, bufs', b, key);
      }
    }
  }

  lemma UncachedStays(bufs: seq<Buf>, bufs': seq<Buf>, b: int, key: Key)
    requires 0 <= b < |bufs| == |bufs'| && bufs' == bufs[b := bufs'[b]] && KeyOf(bufs[b]) != key && !Cached(bufs', key)
    ensures !Cached(bufs, key)
  {
    forall i | 0 <= i < |bufs| ensures KeyOf(bufs[i]) != key {
      assert i != b ==> bufs'[i] == bufs[i];
    }
  }

  /** One locked buffer and, with it, what the disk and the latest map say of its block change. */
  lemma Rewrite(bufs: seq<Buf>, touched: seq<bool>, disk: map<Key, Block>, latest: map<Key, Block>,
                b: int, buf: Buf, t: bool, disk': map<Key, Block>, latest': map<Key, Block>)
    requires DataOK(bufs, touched, disk, latest) && 0 <= b < |bufs| && KeyOf(buf) == KeyOf(bufs[b])
    requires disk'.Keys == disk.Keys && latest'.Keys == latest.Keys
    requires forall key :: key in disk && key != KeyOf(buf) ==> disk'[key] == disk[key] && latest'[key] == latest[key]
    requires buf.dev != 0 ==> Holds(buf, t, disk', latest')
    ensures DataOK(bufs[b := buf], touched[b := t], disk', latest')
    ensures touched[b] == t ==> touched[b := t] == touched
  {
    var bufs' := bufs[b := buf];
    SameKeys(bufs, bufs', disk, latest);
    forall i | 0 <= i < |bufs'| && bufs'[i].dev != 0 ensures Holds(bufs'[i], touched[b := t][i], disk', latest') {
      if i != b {
        assert KeyOf(bufs[i]) != KeyOf(bufs[b]);
        assert Holds(bufs[i], touched[i], disk, latest);
      }
    }
    forall key | key in disk && key.0 != 0 && !Cached(bufs', key) ensures latest'[key] == disk'[key] {
      assert KeyOf(bufs'[b]) == KeyOf(buf);
    }
  }

  // ---------- the cache ----------

  predicate Spare(b: Buf) {
    b.refcnt == 0 && !b.dirty
  }

  lemma HoldsAt(bufs: seq<Buf>, touched: seq<bool>, disk: map<Key, Block>, latest: map<Key, Block>, b: int)
    requires DataOK(bufs, touched, disk, latest) && 0 <= b < |bufs|
    ensures |touched| == |bufs| && disk.Keys == latest.Keys
    ensures bufs[b].dev != 0 ==> Holds(bufs[b], touched[b], disk, latest)
  {
  }

  ghost function IndexOf(order: seq<int>, next: seq<int>, prev: seq<int>, stamp: seq<int>, clock: int, b: int): (k: int)
    requires ListOK(order, next, prev, stamp, clock, NBUF) && 0 <= b < NBUF
    ensures 0 <= k < |order| == NBUF && order[k] == b
  {
    assert b in order;
    var k :| 0 <= k < |order| && order[k] == b;
    k
  }

  lemma InitialList(order: seq<int>, next: seq<int>, prev: seq<int>, stamp: seq<int>, n: int)
    requires Ring(order, next, prev, n) && NoRepeat(order) && |order| == |stamp| == n
    requires forall i :: 0 <= i < n ==> order[i] == n - 1 - i && stamp[i] == i
    ensures ListOK(order, next, prev, stamp, n, n)
  {
    hide Ring;
    forall b | 0 <= b < n ensures b in order {
      assert order[n - 1 - b] == b;
    }
  }

  lemma InitialData(bufs: seq<Buf>, touched: seq<bool>, disk: map<Key, Block>)
    requires |touched| == |bufs| && forall i :: 0 <= i < |bufs| ==> bufs[i].dev == 0
    ensures DataOK(bufs, touched, disk, disk)
  {
  }

  // ---------- the calls as steps ----------

  /** disk and latest as above; users are the processes with a reference to each buffer. */
  datatype State = State(bufs: seq<Buf>, disk: map<Key, Block>, latest: map<Key, Block>,
                         users: seq<multiset<int>>, touched: seq<bool>)

  datatype Event =
    | Get(key: Key, me: int, b: int)           // bget finds or recycles b, under the cache lock
    | Lock(b: int, me: int)                    // acquiresleep
    | Fetch(b: int, me: int)                   // bread of an invalid buffer
    | Put(b: int, me: int, data: Block)        // the process with the lock stores into the data
    | Log(b: int, me: int)                     // log_write's dirty flag
    | Flush(b: int, me: int)                   // bwrite
    | Unlock(b: int, me: int)                  // releasesleep, first thing in brelse
    | Release(b: int, me: int)                 // the rest of brelse, under the cache lock

  predicate Locked(s: State, b: int, me: int) {
    0 <= b < |s.bufs| && me != 0 && s.bufs[b].holder == me
  }

  predicate CanDo(s: State, e: Event) {
    && |s.users| == |s.touched| == |s.bufs|
    && match e
       case Get(key, me, b) => 0 <= b < |s.bufs| && if Cached(s.bufs, key) then KeyOf(s.bufs[b]) == key else Spare(s.bufs[b])
       case Lock(b, me) => 0 <= b < |s.bufs| && me != 0 && me in s.users[b] && s.bufs[b].holder == 0
       case Fetch(b, me) => Locked(s, b, me) && !s.bufs[b].valid && KeyOf(s.bufs[b]) in s.disk
       case Put(b, me, data) => Locked(s, b, me) && s.bufs[b].valid
       case Log(b, me) => Locked(s, b, me) && s.bufs[b].valid
       case Flush(b, me) => Locked(s, b, me) && s.bufs[b].valid && KeyOf(s.bufs[b]) in s.disk
       case Unlock(b, me) =>
         && Locked(s, b, me) && s.bufs[b].valid && KeyOf(s.bufs[b]) in s.disk
         && (s.bufs[b].dirty || s.bufs[b].data == s.disk[KeyOf(s.bufs[b])])
       case Release(b, me) => 0 <= b < |s.bufs| && me in s.users[b] && s.bufs[b].holder != me
  }

  function Do(s: State, e: Event): State
    requires CanDo(s, e)
  {
    match e
    case Get(key, me, b) =>
      var users := s.users[b := s.users[b] + multiset{me}];
      if Cached(s.bufs, key) then s.(bufs := s.bufs[b := s.bufs[b].(refcnt := s.bufs[b].refcnt + 1)], users := users)
      else s.(bufs := s.bufs[b := Buf(key.0, key.1, false, false, 1, 0, s.bufs[b].data)], users := users, touched := s.touched[b := false])
    case Lock(b, me) => s.(bufs := s.bufs[b := s.bufs[b].(holder := me)])
    case Fetch(b, me) => s.(bufs := s.bufs[b := s.bufs[b].(valid := true, data := s.disk[KeyOf(s.bufs[b])])])
    case Put(b, me, data) => s.(bufs := s.bufs[b := s.bufs[b].(data := data)], touched := s.touched[b := true])
    case Log(b, me) => s.(bufs := s.bufs[b := s.bufs[b].(dirty := true)])
    case Flush(b, me) =>
      s.(bufs := s.bufs[b := s.bufs[b].(dirty := false)], disk := s.disk[KeyOf(s.bufs[b]) := s.bufs[b].data])
    case Unlock(b, me) =>
      s.(bufs := s.bufs[b := s.bufs[b].(holder := 0)], latest := s.latest[KeyOf(s.bufs[b]) := s.bufs[b].data],
         touched := s.touched[b := false])
    case Release(b, me) =>
      s.(bufs := s.bufs[b := s.bufs[b].(refcnt := s.bufs[b].refcnt - 1)], users := s.users[b := s.users[b] - multiset{me}])
  }

  ghost predicate Inv(s: State) {
    DataOK(s.bufs, s.touched, s.disk, s.latest) && UsersOK(s.bufs, s.users)
  }

  lemma KeepGet(s: State, e: Event)
    requires Inv(s) && CanDo(s, e) && e.Get?
    ensures Inv(Do(s, e))
  {
    hide DataOK, Cached;
    if Cached(s.bufs, e.key) {
      Same(s.bufs, s.touched, s.disk, s.latest, e.b, s.bufs[e.b].refcnt + 1);
    } else {
      assert s.bufs[e.b].holder == 0 by { assert |s.users[e.b]| == 0; }
      Recycle(s.bufs, s.touched, s.disk, s.latest, e.b, e.key.0, e.key.1);
    }
  }

  lemma KeepUsers(s: State, e: Event)
    requires UsersOK(s.bufs, s.users) && CanDo(s, e)
    ensures UsersOK(Do(s, e).bufs, Do(s, e).users)
  {
    hide Cached;
    if e.Get? && !Cached(s.bufs, e.key) {
      assert |s.users[e.b]| == 0;
    }
  }

  /** Events of the process that has the lock, or takes it. */
  lemma KeepLocked(s: State, e: Event)
    requires Inv(s) && CanDo(s, e) && !e.Get? && !e.Release?
    ensures Inv(Do(s, e))
  {
    KeepUsers(s, e);
    HoldsAt(s.bufs, s.touched, s.disk, s.latest, e.b);
    hide DataOK, UsersOK;
    var t := Do(s, e);
    Rewrite(s.bufs, s.touched, s.disk, s.latest, e.b, t.bufs[e.b], t.touched[e.b], t.disk, t.latest);
    assert t.touched == s.touched[e.b := t.touched[e.b]];
  }

  lemma Keep(s: State, e: Event)
    requires Inv(s) && CanDo(s, e)
    ensures Inv(Do(s, e))
  {
    if e.Get? {
      KeepGet(s, e);
    } else if e.Release? {
      hide DataOK;
      Same(s.bufs, s.touched, s.disk, s.latest, e.b, s.bufs[e.b].refcnt - 1);
    } else {
      hide Inv, CanDo, Do;
      KeepLocked(s, e);
    }
  }

  /** After binit. */
  ghost predicate Init(s: State) {
    && |s.bufs| == |s.users| == |s.touched| && s.latest == s.disk
    && forall i :: 0 <= i < |s.bufs| ==>
         s.bufs[i].dev == 0 && s.bufs[i].refcnt == 0 && s.bufs[i].holder == 0 && s.users[i] == multiset{} && !s.touched[i]
  }

  ghost predicate Run(ss: seq<State>, es: seq<Event>) {
    && |ss| == |es| + 1 && Init(ss[0])
    && forall i {:trigger es[i]} :: 0 <= i < |es| ==> CanDo(ss[i], es[i]) && ss[i + 1] == Do(ss[i], es[i])
  }

  lemma {:induction false} RunInv(ss: seq<State>, es: seq<Event>, i: nat)
    requires Run(ss, es) && i < |ss|
    ensures Inv(ss[i])
  {
    if i == 0 {
      InitialData(ss[0].bufs, ss[0].touched, ss[0].disk);
    } else {
      RunInv(ss, es, i - 1);
      hide Inv, CanDo, Do, Init;
      var e := es[i - 1];
      Keep(ss[i - 1], e);
    }
  }

  /** Who changes what: contents only a fetch or the process with the lock; the dirty flag only log_write and
      bwrite; the lock only acquiresleep and releasesleep; the disk only bwrite; and one buffer at a time. */
  lemma FieldStep(s: State, e: Event)
    requires Inv(s) && CanDo(s, e) && !e.Get?
    ensures var t := Do(s, e); var x, y := s.bufs[e.b], t.bufs[e.b];
            && |t.bufs| == |s.bufs| && (forall i :: 0 <= i < |s.bufs| && i != e.b ==> t.bufs[i] == s.bufs[i])
            && KeyOf(y) == KeyOf(x) && (y.valid <==> x.valid || e.Fetch?)
            && y.data == (if e.Put? then e.data else if e.Fetch? then s.disk[KeyOf(x)] else x.data)
            && y.dirty == (if e.Log? then true else if e.Flush? then false else x.dirty)
            && y.holder == (if e.Lock? then e.me else if e.Unlock? then 0 else x.holder)
            && y.refcnt == (if e.Release? then x.refcnt - 1 else x.refcnt)
            && t.disk == if e.Flush? then s.disk[KeyOf(x) := x.data] else s.disk
  {
    hide Inv;
  }

  /** bget: a cached block's buffer has one more user and else stays; else a spare buffer is the block's, not yet read. */
  lemma GetStep(s: State, e: Event)
    requires CanDo(s, e) && e.Get?
    ensures var t := Do(s, e); var x, y := s.bufs[e.b], t.bufs[e.b];
            && t.disk == s.disk && t.latest == s.latest
            && |t.bufs| == |s.bufs| && (forall i :: 0 <= i < |s.bufs| && i != e.b ==> t.bufs[i] == s.bufs[i])
            && KeyOf(y) == e.key
            && if exists i :: 0 <= i < |s.bufs| && KeyOf(s.bufs[i]) == e.key then KeyOf(x) == e.key && y == x.(refcnt := x.refcnt + 1)
               else x.refcnt == 0 && !x.dirty && y.refcnt == 1 && !y.valid && !y.dirty && y.holder == 0
  {
  }

  /** What the last process to unlock the block before step i left in it; at first, the disk's contents. */
  ghost function LastLeft(ss: seq<State>, es: seq<Event>, i: nat, key: Key): (data: Block)
    requires Run(ss, es) && i < |ss| && key in ss[0].disk
  {
    if i == 0 then ss[0].disk[key]
    else
      var s, e := ss[i - 1], es[i - 1];
      if e.Unlock? && KeyOf(s.bufs[e.b]) == key then s.bufs[e.b].data else LastLeft(ss, es, i - 1, key)
  }

  /** The latest contents change when a process unlocks a block, for that block, and at no other step. */
  lemma LatestStep(s: State, e: Event, key: Key)
    requires CanDo(s, e) && key in s.latest && key in s.disk
    ensures key in Do(s, e).latest && key in Do(s, e).disk
    ensures Do(s, e).latest[key] == if e.Unlock? && KeyOf(s.bufs[e.b]) == key then s.bufs[e.b].data else s.latest[key]
  {
    hide Cached;
  }

  lemma {:induction false} LatestIsLastLeft(ss: seq<State>, es: seq<Event>, i: nat, key: Key)
    requires Run(ss, es) && i < |ss| && key in ss[0].disk
    ensures key in ss[i].latest && key in ss[i].disk && ss[i].latest[key] == LastLeft(ss, es, i, key)
  {
    if i > 0 {
      LatestIsLastLeft(ss, es, i - 1, key);
      hide CanDo, Do, Init;
      var e := es[i - 1];
      LatestStep(ss[i - 1], e, key);
    }
  }

  /** Buffer b holds a block of a real device and has not been stored into since its lock was taken. */
  predicate Readable(s: State, b: int) {
    0 <= b < |s.bufs| == |s.touched| && s.bufs[b].dev != 0 && s.bufs[b].valid && !s.touched[b]
  }

  /** Over every run of the cache: no block is in two buffers; whoever reads under the lock what
      it has not changed itself reads what the last process to unlock the block left; and what
      the disk does not have yet is in a buffer that will not be recycled. */
  lemma CacheSafe(ss: seq<State>, es: seq<Event>, i: nat)
    requires Run(ss, es) && i < |ss|
    ensures var s := ss[i];
            && Distinct(s.bufs)
            && (forall b :: Readable(s, b) && KeyOf(s.bufs[b]) in ss[0].disk ==> s.bufs[b].data == LastLeft(ss, es, i, KeyOf(s.bufs[b])))
            && (forall key :: key in ss[0].disk && key in s.disk && key.0 != 0 && s.disk[key] != LastLeft(ss, es, i, key)
                  ==> exists b :: 0 <= b < |s.bufs| && KeyOf(s.bufs[b]) == key && s.bufs[b].valid && !Spare(s.bufs[b]))
  {
    var s := ss[i];
    RunInv(ss, es, i);
    hide Run;
    forall b | Readable(s, b) && KeyOf(s.bufs[b]) in ss[0].disk
      ensures s.bufs[b].data == LastLeft(ss, es, i, KeyOf(s.bufs[b]))
    {
      LatestIsLastLeft(ss, es, i, KeyOf(s.bufs[b]));
      HoldsAt(s.bufs, s.touched, s.disk, s.latest, b);
    }
    forall key | key in ss[0].disk && key in s.disk && key.0 != 0 && s.disk[key] != LastLeft(ss, es, i, key)
      ensures exists b :: 0 <= b < |s.bufs| && KeyOf(s.bufs[b]) == key && s.bufs[b].valid && !Spare(s.bufs[b])
    {
      LatestIsLastLeft(ss, es, i, key);
      NewerKept(s, key);
    }
  }

  lemma NewerKept(s: State, key: Key)
    requires Inv(s) && key in s.disk && key in s.latest && key.0 != 0 && s.disk[key] != s.latest[key]
    ensures exists b :: 0 <= b < |s.bufs| && KeyOf(s.bufs[b]) == key && s.bufs[b].valid && !Spare(s.bufs[b])
  {
    assert Cached(s.bufs, key);
    var b :| 0 <= b < |s.bufs| && KeyOf(s.bufs[b]) == key;
    HoldsAt(s.bufs, s.touched, s.disk, s.latest, b);
    assert s.bufs[b].valid && !Spare(s.bufs[b]);
  }

  class Cache {
    var bufs: seq<Buf>
    var next: seq<int>
    var prev: seq<int>
    var disk: map<Key, Block>
    ghost var order: seq<int>
    ghost var stamp: seq<int>
    ghost var clock: int
    ghost var latest: map<Key, Block>
    ghost var users: seq<multiset<int>>
    ghost var touched: seq<bool>

    ghost predicate Valid()
      reads this
    {
      && |bufs| == |touched| == NBUF
      && ListOK(order, next, prev, stamp, clock, NBUF)
      && DataOK(bufs, touched, disk, latest) && UsersOK(bufs, users)
    }

    ghost function Snap(): State
      reads this
    {
      State(bufs, disk, latest, users, touched)
    }

    /** The call has done e. */
    twostate predicate Did(e: Event)
      reads this
    {
      CanDo(old(Snap()), e) && Snap() == Do(old(Snap()), e)
    }

    /** binit, on zeroed buffers. */
    constructor (disk: map<Key, Block>, zero: Block)
      ensures Valid() && latest == disk == this.disk && Init(Snap())
      ensures forall i :: 0 <= i < NBUF ==> bufs[i] == Buf(0, 0, false, false, 0, 0, zero) && order[i] == NBUF - 1 - i
    {
      this.disk, latest := disk, disk;
      bufs := seq(NBUF, i => Buf(0, 0, false, false, 0, 0, zero));
      users := seq(NBUF, i => multiset{});
      touched := seq(NBUF, i => false);
      stamp, clock := seq(NBUF, i => i), NBUF;
      next, prev := seq(NBUF + 1, i => NBUF), seq(NBUF + 1, i => NBUF);
      order := [];
      new;
      InitialData(bufs, touched, disk);
      hide DataOK, ListOK;
      var b := 0;
      while b < NBUF
        invariant 0 <= b <= NBUF && |order| == b
        invariant Ring(order, next, prev, NBUF) && NoRepeat(order)
        invariant forall i :: 0 <= i < b ==> order[i] == b - 1 - i
        modifies this`next, this`prev, this`order
      {
        Push(order, next, prev, b, NBUF);
        next := next[b := next[NBUF]];
        prev := prev[b := NBUF];
        prev := prev[next[NBUF] := b];
        next := next[NBUF := b];
        order := [b] + order;
        b := b + 1;
      }
      InitialList(order, next, prev, stamp, NBUF);
    }

    /** The first loop of bget: from the most recent buffer on, is the block cached? */
    method Find(dev: int, blockno: int) returns (r: Option<int>)
      requires Valid()
      ensures r.None? <==> !Cached(bufs, (dev, blockno))
      ensures r.Some? ==> 0 <= r.value < NBUF && KeyOf(bufs[r.value]) == (dev, blockno)
    {
      hide DataOK, UsersOK;
      ghost var i := 0;
      ghost var ring := [NBUF] + order + [NBUF];
      assert ring[0] == NBUF && next[ring[0]] == ring[1];
      var b := next[NBUF];
      while b != NBUF
        invariant 0 <= i <= NBUF && b == ring[i + 1]
        invariant forall j :: 0 <= j < i ==> KeyOf(bufs[order[j]]) != (dev, blockno)
        decreases NBUF - i
      {
        assert b == order[i];
        if bufs[b].dev == dev && bufs[b].blockno == blockno {
          return Some(b);
        }
        assert next[ring[i + 1]] == ring[i + 2];
        b := next[b];
        i := i + 1;
      }
      forall k | 0 <= k < |bufs| ensures KeyOf(bufs[k]) != (dev, blockno) {
        assert k in order;
      }
      r := None;
    }

    /** The second loop of bget: the spare buffer whose last use is longest ago. */
    method FindSpare() returns (r: Option<int>)
      requires Valid()
      ensures r.None? <==> forall k :: 0 <= k < NBUF ==> !Spare(bufs[k])
      ensures r.Some? ==> 0 <= r.value < NBUF && Spare(bufs[r.value])
      ensures r.Some? ==> forall k :: 0 <= k < NBUF && Spare(bufs[k]) ==> stamp[r.value] <= stamp[k]
    {
      hide DataOK, UsersOK;
      ghost var i := NBUF;
      ghost var ring := [NBUF] + order + [NBUF];
      assert ring[NBUF + 1] == NBUF && prev[ring[NBUF + 1]] == ring[NBUF];
      var b := prev[NBUF];
      while b != NBUF
        invariant 0 <= i <= NBUF && b == ring[i]
        invariant forall j :: i <= j < NBUF ==> !Spare(bufs[order[j]])
        decreases i
      {
        assert b == order[i - 1];
        if bufs[b].refcnt == 0 && !bufs[b].dirty {
          forall k | 0 <= k < NBUF && Spare(bufs[k]) ensures stamp[b] <= stamp[k] {
            assert k in order;
            var j :| 0 <= j < |order| && order[j] == k;
          }
          return Some(b);
        }
        assert prev[ring[i]] == ring[i - 1];
        b := prev[b];
        i := i - 1;
      }
      forall k | 0 <= k < NBUF ensures !Spare(bufs[k]) {
        assert k in order;
      }
      r := None;
    }

    /** bget up to the release of the cache lock, for process me; None is the panic. */
    method Bget(dev: int, blockno: int, ghost me: int) returns (r: Option<int>)
      requires Valid()
      modifies this`bufs, this`users, this`touched
      ensures Valid()
      ensures r.None? <==> !Cached(old(bufs), (dev, blockno)) && forall k :: 0 <= k < NBUF ==> !Spare(old(bufs)[k])
      ensures r.None? ==> bufs == old(bufs) && users == old(users)
      ensures r.Some? ==>
        && 0 <= r.value < NBUF && KeyOf(bufs[r.value]) == (dev, blockno)
        && users == old(users)[r.value := old(users)[r.value] + multiset{me}]
        && bufs == old(bufs)[r.value := if Cached(old(bufs), (dev, blockno))
                                        then old(bufs)[r.value].(refcnt := old(bufs)[r.value].refcnt + 1)
                                        else Buf(dev, blockno, false, false, 1, 0, old(bufs)[r.value].data)]
      ensures r.Some? && !Cached(old(bufs), (dev, blockno)) ==>
        && Spare(old(bufs)[r.value])
        && forall k :: 0 <= k < NBUF && Spare(old(bufs)[k]) ==> stamp[r.value] <= stamp[k]
      ensures r.Some? ==> Did(Get((dev, blockno), me, r.value))
    {
      hide ListOK, DataOK, Cached;
      r := Find(dev, blockno);
      if r.Some? {
        var b := r.value;
        Same(bufs, touched, disk, latest, b, bufs[b].refcnt + 1);
        users := users[b := users[b] + multiset{me}];
        bufs := bufs[b := bufs[b].(refcnt := bufs[b].refcnt + 1)];
        return;
      }
      r := FindSpare();
      if r.Some? {
        var b := r.value;
        assert bufs[b].holder == 0 by { assert |users[b]| == 0; }
        Recycle(bufs, touched, disk, latest, b, dev, blockno);
        users := users[b := users[b] + multiset{me}];
        touched := touched[b := false];
        bufs := bufs[b := Buf(dev, blockno, false, false, 1, 0, bufs[b].data)];
      }
    }

    /** acquiresleep at the end of bget, once the lock is free. */
    method Acquiresleep(b: int, me: int)
      requires Valid() && 0 <= b < NBUF && me != 0 && me in users[b] && bufs[b].holder == 0
      modifies this`bufs
      ensures Valid() && bufs == old(bufs)[b := old(bufs)[b].(holder := me)]
      ensures bufs[b].dev != 0 ==> !touched[b]
      ensures Did(Lock(b, me))
    {
      hide ListOK, AllHold, Distinct, UncachedClean;
      HoldsAt(bufs, touched, disk, latest, b);
      var buf := bufs[b].(holder := me);
      Rewrite(bufs, touched, disk, latest, b, buf, touched[b], disk, latest);
      bufs := bufs[b := buf];
    }

    /** bread once bget has returned b locked; false is a panic of iderw. */
    method Bread(b: int, me: int) returns (ok: bool)
      requires Valid() && 0 <= b < NBUF && me != 0 && bufs[b].holder == me
      modifies this`bufs
      ensures Valid() && ok == (old(bufs)[b].valid || KeyOf(old(bufs)[b]) in disk)
      ensures ok ==> bufs == old(bufs)[b := old(bufs)[b].(valid := true, data := bufs[b].data)]
      ensures ok && bufs[b].dev != 0 && !touched[b] ==> KeyOf(bufs[b]) in latest && bufs[b].data == latest[KeyOf(bufs[b])]
      ensures old(bufs)[b].valid || !ok ==> bufs == old(bufs)
      ensures ok && !old(bufs)[b].valid ==> Did(Fetch(b, me))
    {
      hide ListOK, AllHold, Distinct, UncachedClean;
      HoldsAt(bufs, touched, disk, latest, b);
      ok := true;
      if !bufs[b].valid {
        var key := KeyOf(bufs[b]);
        ok := key in disk;
        if ok {
          var buf := bufs[b].(data := disk[key], valid := true);
          KeysAgree();
          Rewrite(bufs, touched, disk, latest, b, buf, touched[b], disk, latest);
          bufs := bufs[b := buf];
        }
      }
    }

    lemma KeysAgree()
      requires Valid()
      ensures disk.Keys == latest.Keys
    {
    }

    /** The process with the lock stores into the data. */
    method Store(b: int, me: int, data: Block)
      requires Valid() && 0 <= b < NBUF && me != 0 && bufs[b].holder == me && bufs[b].valid
      modifies this`bufs, this`touched
      ensures Valid() && bufs == old(bufs)[b := old(bufs)[b].(data := data)] && touched == old(touched)[b := true]
      ensures Did(Put(b, me, data))
    {
      hide ListOK, AllHold, Distinct, UncachedClean;
      HoldsAt(bufs, touched, disk, latest, b);
      var buf := bufs[b].(data := data);
      Rewrite(bufs, touched, disk, latest, b, buf, true, disk, latest);
      touched := touched[b := true];
      bufs := bufs[b := buf];
    }

    /** What log_write does to the buffer: the dirty flag keeps it from being recycled. */
    method Pin(b: int, me: int)
      requires Valid() && 0 <= b < NBUF && me != 0 && bufs[b].holder == me && bufs[b].valid
      modifies this`bufs
      ensures Valid() && bufs == old(bufs)[b := old(bufs)[b].(dirty := true)]
      ensures Did(Log(b, me))
    {
      hide ListOK, AllHold, Distinct, UncachedClean;
      HoldsAt(bufs, touched, disk, latest, b);
      var buf := bufs[b].(dirty := true);
      Rewrite(bufs, touched, disk, latest, b, buf, touched[b], disk, latest);
      bufs := bufs[b := buf];
    }

    /** bwrite of a buffer that came from bread; false is the panic. */
    method Bwrite(b: int, me: int) returns (ok: bool)
      requires Valid() && 0 <= b < NBUF && me != 0 && bufs[b].valid
      modifies this`bufs, this`disk
      ensures Valid() && ok == (old(bufs)[b].holder == me && KeyOf(old(bufs)[b]) in old(disk))
      ensures ok ==> disk == old(disk)[KeyOf(old(bufs)[b]) := old(bufs)[b].data]
      ensures ok ==> bufs == old(bufs)[b := old(bufs)[b].(dirty := false)]
      ensures !ok ==> bufs == old(bufs) && disk == old(disk)
      ensures ok ==> Did(Flush(b, me))
    {
      hide ListOK, AllHold, Distinct, UncachedClean;
      HoldsAt(bufs, touched, disk, latest, b);
      var key := KeyOf(bufs[b]);
      ok := bufs[b].holder == me && key in disk;
      if ok {
        var disk' := disk[key := bufs[b].data];
        var buf := bufs[b].(dirty := false, valid := true);
        KeysAgree();
        Rewrite(bufs, touched, disk, latest, b, buf, touched[b], disk', latest);
        disk := disk';
        bufs := bufs[b := buf];
      }
    }

    /** The sleep lock is given up: what the buffer holds is now the block's latest contents.
        The caller has logged the buffer or written it since changing it. */
    method Releasesleep(b: int, me: int)
      requires Valid() && 0 <= b < NBUF && me != 0 && bufs[b].holder == me && bufs[b].valid
      requires KeyOf(bufs[b]) in disk && (bufs[b].dirty || bufs[b].data == disk[KeyOf(bufs[b])])
      modifies this`bufs, this`latest, this`touched
      ensures Valid() && bufs == old(bufs)[b := old(bufs)[b].(holder := 0)] && touched == old(touched)[b := false]
      ensures latest == old(latest)[KeyOf(old(bufs)[b]) := old(bufs)[b].data]
      ensures Did(Unlock(b, me))
    {
      hide ListOK, AllHold, Distinct, UncachedClean;
      HoldsAt(bufs, touched, disk, latest, b);
      var buf := bufs[b].(holder := 0);
      ghost var latest' := latest[KeyOf(buf) := buf.data];
      KeysAgree();
      Rewrite(bufs, touched, disk, latest, b, buf, false, disk, latest');
      latest := latest';
      touched := touched[b := false];
      bufs := bufs[b := buf];
    }

    /** Lines 132-137 of brelse. */
    method ToFront(b: int)
      requires ListOK(order, next, prev, stamp, clock, NBUF) && 0 <= b < NBUF
      modifies this`next, this`prev, this`order, this`stamp, this`clock
      ensures ListOK(order, next, prev, stamp, clock, NBUF)
      ensures order[0] == b && stamp == old(stamp)[b := old(clock)] && clock == old(clock) + 1
    {
      ghost var k := IndexOf(order, next, prev, stamp, clock, b);
      MoveToFront(order, next, prev, stamp, clock, NBUF, k);
      hide Ring, Complete, ByDrop;
      prev := prev[next[b] := prev[b]];
      next := next[prev[b] := next[b]];
      next := next[b := next[NBUF]];
      prev := prev[b := NBUF];
      prev := prev[next[NBUF] := b];
      next := next[NBUF := b];
      order := [b] + (order[..k] + order[k + 1..]);
      stamp := stamp[b := clock];
      clock := clock + 1;
    }

    /** One reference less. */
    method Unref(b: int, ghost me: int)
      requires Valid() && 0 <= b < NBUF && me in users[b] && bufs[b].holder != me
      modifies this`bufs, this`users
      ensures Valid() && bufs == old(bufs)[b := old(bufs)[b].(refcnt := old(bufs)[b].refcnt - 1)]
      ensures users == old(users)[b := old(users)[b] - multiset{me}]
      ensures Did(Release(b, me))
    {
      hide DataOK, ListOK, Cached;
      Same(bufs, touched, disk, latest, b, bufs[b].refcnt - 1);
      users := users[b := users[b] - multiset{me}];
      bufs := bufs[b := bufs[b].(refcnt := bufs[b].refcnt - 1)];
    }

    /** The rest of brelse, under the cache lock. */
    method Drop(b: int, ghost me: int)
      requires Valid() && 0 <= b < NBUF && me in users[b] && bufs[b].holder != me
      modifies this`bufs, this`users, this`next, this`prev, this`order, this`stamp, this`clock
      ensures Valid() && bufs == old(bufs)[b := old(bufs)[b].(refcnt := old(bufs)[b].refcnt - 1)]
      ensures users == old(users)[b := old(users)[b] - multiset{me}]
      ensures bufs[b].refcnt > 0 ==> order == old(order) && stamp == old(stamp)
      ensures bufs[b].refcnt == 0 ==> order[0] == b && stamp == old(stamp)[b := old(clock)] && clock == old(clock) + 1
      ensures Did(Release(b, me))
    {
      hide DataOK, UsersOK, Ring, Complete, ByDrop, Cached, CanDo, Do;
      Unref(b, me);
      if bufs[b].refcnt == 0 {
        ToFront(b);
      }
    }

    /** brelse; false is the panic. */
    method Brelse(b: int, me: int) returns (ok: bool)
      requires Valid() && 0 <= b < NBUF && me != 0
      requires bufs[b].holder == me ==>
        bufs[b].valid && KeyOf(bufs[b]) in disk && (bufs[b].dirty || bufs[b].data == disk[KeyOf(bufs[b])])
      modifies this`bufs, this`latest, this`touched, this`users, this`next, this`prev, this`order, this`stamp, this`clock
      ensures Valid() && ok == (old(bufs)[b].holder == me)
      ensures ok ==> latest == old(latest)[KeyOf(old(bufs)[b]) := old(bufs)[b].data]
      ensures ok ==> bufs == old(bufs)[b := old(bufs)[b].(holder := 0, refcnt := old(bufs)[b].refcnt - 1)]
      ensures !ok ==> bufs == old(bufs) && latest == old(latest)
      ensures ok ==> CanDo(old(Snap()), Unlock(b, me))
      ensures ok ==> var s := Do(old(Snap()), Unlock(b, me)); CanDo(s, Release(b, me)) && Snap() == Do(s, Release(b, me))
    {
      hide ListOK, DataOK;
      ok := bufs[b].holder == me;
      if ok {
        Releasesleep(b, me);
        Drop(b, me);
      }
    }
  }
}
