/** The Device the log is proved over is the buffer cache seen from outside: its image is the
    disk, its cache the valid buffers, and what it gives for a block is the latest contents. */
module LogCache {
  import opened Disk
  import opened Params
  import opened Sets
  import opened Log
  import opened Bio

  ghost predicate Covers(disk: map<Key, Block>, dev: int, n: nat) {
    forall b :: 0 <= b < n ==> (dev, b) in disk
  }

  ghost function ImageOf(disk: map<Key, Block>, dev: int, n: nat): (image: Image)
    requires Covers(disk, dev, n)
  {
    seq(n, b requires 0 <= b < n => disk[(dev, b)])
  }

  /** Buffer i holds block b of the device. */
  predicate HasBlock(bufs: seq<Buf>, dev: int, b: int, i: int) {
    0 <= i < |bufs| && KeyOf(bufs[i]) == (dev, b) && bufs[i].valid
  }

  ghost function CacheOf(bufs: seq<Buf>, dev: int): (cache: map<int, Block>)
    ensures forall b :: b in cache <==> exists i :: HasBlock(bufs, dev, b, i)
  {
    var held := set i | 0 <= i < |bufs| && HasBlock(bufs, dev, bufs[i].blockno, i) :: bufs[i].blockno;
    assert forall b, i :: HasBlock(bufs, dev, b, i) ==> bufs[i].blockno in held;
    map b | b in held :: var i :| HasBlock(bufs, dev, b, i); bufs[i].data
  }

  lemma CacheAt(bufs: seq<Buf>, dev: int, i: int)
    requires Distinct(bufs) && dev != 0 && 0 <= i < |bufs| && bufs[i].dev == dev && bufs[i].valid
    ensures bufs[i].blockno in CacheOf(bufs, dev) && CacheOf(bufs, dev)[bufs[i].blockno] == bufs[i].data
  {
    assert HasBlock(bufs, dev, bufs[i].blockno, i);
    forall j | HasBlock(bufs, dev, bufs[i].blockno, j) ensures j == i {
      assert KeyOf(bufs[i]) == KeyOf(bufs[j]);
    }
  }

  /** The buffer of a block nobody is changing, or the disk if it has none, is the latest contents. */
  lemma ViewIsLatest(s: State, dev: int, n: nat, b: int)
    requires Inv(s) && dev != 0 && Covers(s.disk, dev, n) && 0 <= b < n
    requires forall i :: HasBlock(s.bufs, dev, b, i) ==> i < |s.touched| && !s.touched[i]
    ensures (dev, b) in s.latest && LatestIn(ImageOf(s.disk, dev, n), CacheOf(s.bufs, dev), b) == s.latest[(dev, b)]
  {
    if i :| HasBlock(s.bufs, dev, b, i) {
      CacheAt(s.bufs, dev, i);
      HoldsAt(s.bufs, s.touched, s.disk, s.latest, i);
    } else if i :| 0 <= i < |s.bufs| && KeyOf(s.bufs[i]) == (dev, b) {
      assert !HasBlock(s.bufs, dev, b, i);
      HoldsAt(s.bufs, s.touched, s.disk, s.latest, i);
    } else {
      assert !Cached(s.bufs, (dev, b));
    }
  }

  /** The image changes when bwrite writes a block, to that block's buffer, and at no other step. */
  lemma ImageStep(s: State, e: Event, dev: int, n: nat)
    requires CanDo(s, e) && Covers(s.disk, dev, n)
    ensures Covers(Do(s, e).disk, dev, n)
    ensures var image, image' := ImageOf(s.disk, dev, n), ImageOf(Do(s, e).disk, dev, n);
            image' == if e.Flush? && s.bufs[e.b].dev == dev && 0 <= s.bufs[e.b].blockno < n
                      then image[s.bufs[e.b].blockno := s.bufs[e.b].data] else image
  {
    hide Cached;
  }

  /** A buffer loses its block only to a bget that takes it as spare. */
  lemma OnlyGetDrops(s: State, e: Event, dev: int, b: int, i: int)
    requires CanDo(s, e) && HasBlock(s.bufs, dev, b, i) && !HasBlock(Do(s, e).bufs, dev, b, i)
    ensures e.Get? && e.b == i && Spare(s.bufs[i])
  {
    hide Cached;
  }

  /** A valid buffer that nobody refers to and that is not dirty agrees with the disk. */
  lemma CleanAt(s: State, i: int)
    requires Inv(s) && 0 <= i < |s.bufs| && s.bufs[i].dev != 0 && s.bufs[i].valid && Spare(s.bufs[i])
    ensures KeyOf(s.bufs[i]) in s.disk && s.bufs[i].data == s.disk[KeyOf(s.bufs[i])]
  {
    HoldsAt(s.bufs, s.touched, s.disk, s.latest, i);
    hide DataOK;
    assert s.bufs[i].holder == 0 by { assert |s.users[i]| == 0; }
  }

  /** bget drops a block from the cache only when its buffer is clean, so nothing is lost with it. */
  lemma EvictsClean(s: State, e: Event, dev: int, b: int)
    requires Inv(s) && CanDo(s, e) && dev != 0
    requires b in CacheOf(s.bufs, dev) && b !in CacheOf(Do(s, e).bufs, dev)
    ensures e.Get? && s.bufs[e.b].valid && KeyOf(s.bufs[e.b]) == (dev, b) && !s.bufs[e.b].dirty
    ensures (dev, b) in s.disk && CacheOf(s.bufs, dev)[b] == s.disk[(dev, b)]
  {
    hide Cached, AllHold, UncachedClean, CanDo, Do, Distinct, UsersOK;
    var i :| HasBlock(s.bufs, dev, b, i);
    assert !HasBlock(Do(s, e).bufs, dev, b, i);
    OnlyGetDrops(s, e, dev, b, i);
    CacheAt(s.bufs, dev, i);
    CleanAt(s, i);
  }

  ghost function Indices(n: nat): (r: set<int>)
    ensures |r| == n && forall i :: i in r <==> 0 <= i < n
  {
    if n == 0 then {} else Indices(n - 1) + {n - 1}
  }

  /** If fewer than NBUF buffers are referenced or dirty, one is spare, and bget does not panic. */
  lemma SpareLeft(s: State)
    requires Inv(s) && |s.bufs| == NBUF
    requires |(set i | 0 <= i < NBUF && s.bufs[i].refcnt > 0)| + |(set i | 0 <= i < NBUF && s.bufs[i].dirty)| < NBUF
    ensures exists k :: 0 <= k < NBUF && Spare(s.bufs[k])
  {
    var held, dirty := (set i | 0 <= i < NBUF && s.bufs[i].refcnt > 0), (set i | 0 <= i < NBUF && s.bufs[i].dirty);
    UnionCount(held, dirty);
    var k := Extra(Indices(NBUF), held + dirty);
    assert |s.users[k]| == s.bufs[k].refcnt;
    assert Spare(s.bufs[k]);
  }
}
