/** The block allocator, the block map and the file contents of fs.c, in place. */
module Fs {
  import opened Bits
  import opened Words
  import opened FsSpec
  import opened Options
  import opened Params
  import opened Sets

  const BPB := BSIZE * 8
  const IPB := 8
  const T_DEV := 3
  const UINT := 0x1_0000_0000

  /** What readi, writei and filewrite return: a byte count, -1, a call handed to a device driver
      or to pipewrite, or a panic. */
  datatype Outcome = Count(n: int) | Error | Device | Piped | Panic

  /** Blocks by name: the log sees each as one block number. */
  datatype BlockName = FreeMap(k: int) | InodeBlock(k: int) | Data(b: int)

  predicate WfMap(bmap: seq<seq<bv8>>, size: nat) {
    |bmap| * BPB >= size && forall x :: 0 <= x < |bmap| ==> |bmap[x]| == BSIZE
  }

  predicate BitAt(bmap: seq<seq<bv8>>, size: nat, b: int) {
    WfMap(bmap, size) && 0 <= b < size && Bit(bmap[b / BPB], b % BPB)
  }

  /** The blocks marked in use. */
  ghost function Used(bmap: seq<seq<bv8>>, size: nat): set<int> {
    set b | 0 <= b < size && BitAt(bmap, size, b)
  }

  ghost function Below(n: nat): set<int>
    ensures forall b :: b in Below(n) <==> 0 <= b < n
  {
    if n == 0 then {} else Below(n - 1) + {n - 1}
  }

  ghost predicate FullTo(bmap: seq<seq<bv8>>, size: nat, k: int) {
    forall c :: 0 <= c < k && c < size ==> BitAt(bmap, size, c)
  }

  lemma FullNext(bmap: seq<seq<bv8>>, size: nat, b: int, bi: int)
    requires WfMap(bmap, size) && FullTo(bmap, size, b + bi) && 0 <= b && b % BPB == 0 && 0 <= bi < BPB && b + bi < size
    ensures b / BPB < |bmap| && bi / 8 < |bmap[b / BPB]|
    ensures Bit(bmap[b / BPB], bi) <==> BitAt(bmap, size, b + bi)
    ensures Bit(bmap[b / BPB], bi) ==> FullTo(bmap, size, b + bi + 1)
  {
    hide Bit;
    assert (b + bi) / BPB == b / BPB && (b + bi) % BPB == bi;
  }

  lemma SamePlace(bmap: seq<seq<bv8>>, size: nat, b: int, bi: int)
    requires WfMap(bmap, size) && 0 <= b && b % BPB == 0 && 0 <= bi < BPB && b + bi < size
    ensures (b + bi) / BPB == b / BPB && (b + bi) % BPB == bi && b / BPB < |bmap| && |bmap[b / BPB]| == BSIZE
  {
  }

  lemma MarkOne(bmap: seq<seq<bv8>>, size: nat, b: int)
    requires WfMap(bmap, size) && 0 <= b < size
    ensures var m := bmap[b / BPB := SetBit(bmap[b / BPB], b % BPB)];
            WfMap(m, size) && Used(m, size) == Used(bmap, size) + {b}
  {
    hide Bit, SetBit;
    var m := bmap[b / BPB := SetBit(bmap[b / BPB], b % BPB)];
    forall c | 0 <= c < size ensures BitAt(m, size, c) <==> c == b || BitAt(bmap, size, c) {
      SetBitAt(bmap[b / BPB], b % BPB, c % BPB);
    }
    hide BitAt;
  }

  lemma UnmarkOne(bmap: seq<seq<bv8>>, size: nat, b: int)
    requires WfMap(bmap, size) && 0 <= b < size
    ensures var m := bmap[b / BPB := ClearBit(bmap[b / BPB], b % BPB)];
            WfMap(m, size) && Used(m, size) == Used(bmap, size) - {b}
  {
    hide Bit, ClearBit;
    var m := bmap[b / BPB := ClearBit(bmap[b / BPB], b % BPB)];
    forall c | 0 <= c < size ensures BitAt(m, size, c) <==> c != b && BitAt(bmap, size, c) {
      ClearBitAt(bmap[b / BPB], b % BPB, c % BPB);
    }
    hide BitAt;
  }

  /** The free map blocks. */
  ghost function Maps(n: nat): (r: set<BlockName>)
    ensures forall x :: 0 <= x < n ==> FreeMap(x) in r
    ensures |r| <= n
  {
    if n == 0 then {} else Maps(n - 1) + {FreeMap(n - 1)}
  }

  lemma MapsHas(bmap: seq<seq<bv8>>, size: nat, b: int)
    requires WfMap(bmap, size) && 0 <= b < size
    ensures FreeMap(b / BPB) in Maps(|bmap|)
  {
  }

  /** The blocks holding file blocks lo..hi-1. */
  ghost function FileData(ino: Dinode, blk: seq<Block>, lo: int, hi: int): (r: set<BlockName>)
    ensures lo <= hi ==> |r| <= hi - lo
    decreases hi - lo
  {
    if hi <= lo then {} else FileData(ino, blk, lo, hi - 1) + {Data(Slot(ino, blk, FileSlot(hi - 1)))}
  }

  ghost function Indirect(ino: Dinode, blk: seq<Block>): set<BlockName> {
    if Slot(ino, blk, NDIRECT) != 0 then {Data(Slot(ino, blk, NDIRECT))} else {}
  }

  lemma {:induction false} FileDataKept(ino: Dinode, blk: seq<Block>, ino': Dinode, blk': seq<Block>, lo: int, hi: int)
    requires forall k :: lo <= k < hi ==> Slot(ino', blk', FileSlot(k)) == Slot(ino, blk, FileSlot(k))
    ensures FileData(ino', blk', lo, hi) == FileData(ino, blk, lo, hi)
    decreases hi - lo
  {
    hide Slot, FileSlot;
    if lo < hi {
      FileDataKept(ino, blk, ino', blk', lo, hi - 1);
    }
  }

  /** What is on the disk, or will be once the log is installed. */
  datatype Image = Image(bmap: seq<seq<bv8>>, blk: seq<Block>, dinodes: seq<Dinode>)

  /** Every block that differs between the two images is named in log. */
  ghost predicate Logged(d0: Image, d: Image, log: set<BlockName>) {
    && |d.bmap| == |d0.bmap| && |d.blk| == |d0.blk| && |d.dinodes| == |d0.dinodes|
    && (forall k :: 0 <= k < |d.bmap| && d.bmap[k] != d0.bmap[k] ==> FreeMap(k) in log)
    && (forall b :: 0 <= b < |d.blk| && d.blk[b] != d0.blk[b] ==> Data(b) in log)
    && (forall i :: 0 <= i < |d.dinodes| && d.dinodes[i] != d0.dinodes[i] ==> InodeBlock(i / IPB) in log)
  }

  lemma LoggedNone(d: Image, log: set<BlockName>)
    ensures Logged(d, d, log)
  {
  }

  lemma LoggedTwice(d0: Image, d1: Image, d2: Image, log1: set<BlockName>, log2: set<BlockName>)
    requires Logged(d0, d1, log1) && Logged(d1, d2, log2) && log1 <= log2
    ensures Logged(d0, d2, log2)
  {
  }

  lemma LoggedMap(d: Image, k: int, v: seq<bv8>, log: set<BlockName>)
    requires 0 <= k < |d.bmap| && FreeMap(k) in log
    ensures Logged(d, d.(bmap := d.bmap[k := v]), log)
  {
  }

  lemma LoggedBlock(d: Image, b: int, v: Block, log: set<BlockName>)
    requires 0 <= b < |d.blk| && Data(b) in log
    ensures Logged(d, d.(blk := d.blk[b := v]), log)
  {
  }

  lemma LoggedInode(d: Image, i: int, v: Dinode, log: set<BlockName>)
    requires 0 <= i < |d.dinodes| && InodeBlock(i / IPB) in log
    ensures Logged(d, d.(dinodes := d.dinodes[i := v]), log)
  {
  }

  /** The in-memory copy of an inode. */
  class Inode {
    const inum: nat
    var typ: int
    var nlink: int
    var size: nat
    var addrs: seq<int>

    function Val(): Dinode
      reads this
    {
      Dinode(typ, nlink, size, addrs)
    }

    constructor (inum: nat, d: Dinode)
      ensures this.inum == inum && Val() == d
    {
      this.inum := inum;
      typ, nlink, size, addrs := d.typ, d.nlink, d.size, d.addrs;
    }
  }

  lemma UsedNext(used: set<int>, nmeta: nat, owner: map<int, (int, int)>, b: int, o: (int, int))
    requires used == Below(nmeta) + owner.Keys && b !in used && 0 <= b
    ensures b !in owner && nmeta <= b && used + {b} == Below(nmeta) + owner[b := o].Keys
  {
  }

  lemma FreedNothing(inos: seq<Dinode>, blk: seq<Block>, owner: map<int, (int, int)>, nmeta: nat, i: int)
    requires Owned(inos, blk, owner, nmeta)
    ensures FreedBy(owner, i, 0) == {}
  {
    hide Slot;
    forall b | b in owner ensures 0 <= FreeOrder(owner[b].1) {
    }
  }

  lemma UsedCleared(used: set<int>, nmeta: nat, owner: map<int, (int, int)>, i: int, inos: seq<Dinode>, blk: seq<Block>)
    requires used == Below(nmeta) + owner.Keys && Owned(inos, blk, owner, nmeta)
    ensures used - (set b | b in owner && owner[b].0 == i)
            == Below(nmeta) + (map b | b in owner && owner[b].0 != i :: owner[b]).Keys
  {
    hide Slot;
  }

  /** Every byte below the size lies in a block that is there. */
  lemma MappedBelow(ino: Dinode, blk: seq<Block>, off: nat)
    requires ino.size <= MAXFILE * BSIZE && MapsFirst(ino, blk, BlocksFor(ino.size)) && off < ino.size
    ensures off / BSIZE < MAXFILE && Slot(ino, blk, FileSlot(off / BSIZE)) != 0
  {
    hide Slot;
    assert off / BSIZE < BlocksFor(ino.size);
  }

  lemma SlotIsBlock(inos: seq<Dinode>, blk: seq<Block>, owner: map<int, (int, int)>, nmeta: nat, i: int, k: int)
    requires Owned(inos, blk, owner, nmeta) && 0 <= i < |inos| && 0 <= k < MAXFILE && Slot(inos[i], blk, FileSlot(k)) != 0
    ensures 0 < Slot(inos[i], blk, FileSlot(k)) < |blk|
    ensures FileBlock(inos[i], blk, k) == blk[Slot(inos[i], blk, FileSlot(k))]
  {
    FileSlotRange(k);
    hide Slot;
  }

  lemma Wraps(off: nat, n: nat)
    requires off < UINT && n < UINT
    ensures (off + n) % UINT < off <==> off + n >= UINT
  {
  }

  function BlocksNeeded(size: nat, off: nat): nat {
    BlocksFor(if off > size then off else size)
  }

  lemma NeededNext(size: nat, off: nat, m: nat)
    requires 0 < m <= BSIZE - off % BSIZE
    ensures off / BSIZE <= BlocksNeeded(size, off)
    ensures BlocksNeeded(size, off + m)
            == if off / BSIZE < BlocksNeeded(size, off) then BlocksNeeded(size, off) else off / BSIZE + 1
    ensures off + m <= size ==> off / BSIZE < BlocksNeeded(size, off)
    ensures (off + m - 1) / BSIZE == off / BSIZE && (m == BSIZE - off % BSIZE ==> (off + m) / BSIZE == off / BSIZE + 1)
  {
  }

  lemma MappedAt(ino: Dinode, blk: seq<Block>, m: int, k: nat)
    requires MapsFirst(ino, blk, m)
    ensures k < MAXFILE ==> (Slot(ino, blk, FileSlot(k)) != 0 <==> k < m)
  {
    hide Slot, FileSlot;
  }

  lemma WriteStart(inos: seq<Dinode>, blk: seq<Block>, i: int, size: nat, off: nat)
    requires 0 <= i < |inos| && off <= size
    ensures OthersSame(inos, blk, inos, blk, i) && Overlaid(inos[i], blk, inos[i], blk, off, [])
    ensures BlocksNeeded(size, off) == BlocksFor(size) && off / BSIZE <= BlocksNeeded(size, off)
    ensures FileData(inos[i], blk, off / BSIZE, off / BSIZE) == {}
  {
    hide Slot, FileBlock, Raw;
    assert forall j, s :: 0 <= j < |inos| && 0 <= s < NSLOT ==> Slot(inos[j], blk, s) == Slot(inos[j], blk, s);
  }

  /** What had been logged is still named, and the block just written is named too. */
  lemma LoggedNext(ino: Dinode, blk: seq<Block>, ino': Dinode, blk': seq<Block>, lo: int, hi: int, m: int)
    requires 0 <= lo <= hi <= m && hi < MAXFILE && MapsFirst(ino, blk, m) && SlotsKept(ino, blk, ino', blk')
    ensures FileData(ino', blk', lo, hi + 1) == FileData(ino, blk, lo, hi) + {Data(Slot(ino', blk', FileSlot(hi)))}
    ensures Indirect(ino, blk) <= Indirect(ino', blk')
  {
    hide Slot;
    forall k | lo <= k < hi ensures Slot(ino', blk', FileSlot(k)) == Slot(ino, blk, FileSlot(k)) {
      FileSlotRange(k);
    }
    FileDataKept(ino, blk, ino', blk', lo, hi);
  }

  /** The size of an inode says nothing about its slots. */
  lemma SlotIgnoresSize(ino: Dinode, blk: seq<Block>, size: nat, s: int)
    ensures Slot(ino.(size := size), blk, s) == Slot(ino, blk, s)
  {
  }

  lemma SizeIrrelevant(inos: seq<Dinode>, blk: seq<Block>, owner: map<int, (int, int)>, nmeta: nat, i: int, size: nat)
    requires Owned(inos, blk, owner, nmeta) && 0 <= i < |inos|
    ensures Owned(inos[i := inos[i].(size := size)], blk, owner, nmeta)
    ensures forall m :: MapsFirst(inos[i], blk, m) ==> MapsFirst(inos[i].(size := size), blk, m)
    ensures Indirect(inos[i].(size := size), blk) == Indirect(inos[i], blk)
    ensures forall lo, hi :: FileData(inos[i].(size := size), blk, lo, hi) == FileData(inos[i], blk, lo, hi)
  {
    var inos' := inos[i := inos[i].(size := size)];
    forall j, s ensures 0 <= j < |inos| ==> Slot(inos'[j], blk, s) == Slot(inos[j], blk, s) {
      SlotIgnoresSize(inos[i], blk, size, s);
    }
    forall s ensures Slot(inos[i].(size := size), blk, s) == Slot(inos[i], blk, s) {
      SlotIgnoresSize(inos[i], blk, size, s);
    }
    hide Slot;
    forall lo, hi ensures FileData(inos[i].(size := size), blk, lo, hi) == FileData(inos[i], blk, lo, hi) {
      FileDataKept(inos[i], blk, inos[i].(size := size), blk, lo, hi);
    }
  }

  lemma SizeOnly(inos: seq<Dinode>, blk0: seq<Block>, inos1: seq<Dinode>, blk: seq<Block>, i: int, size: nat, off: int, src: seq<int>)
    requires 0 <= i < |inos| == |inos1| && OthersSame(inos, blk0, inos1, blk, i)
    requires Overlaid(inos[i], blk0, inos1[i], blk, off, src)
    ensures OthersSame(inos, blk0, inos1[i := inos1[i].(size := size)], blk, i)
    ensures Overlaid(inos[i], blk0, inos1[i].(size := size), blk, off, src)
  {
    forall p ensures Raw(inos1[i].(size := size), blk, p) == Raw(inos1[i], blk, p) {
      SlotIgnoresSize(inos1[i], blk, size, FileSlot(p / BSIZE));
    }
    hide Raw, FileBlock;
  }

  lemma AllocShape(inos: seq<Dinode>, blk: seq<Block>, owner: map<int, (int, int)>, nmeta: nat, i: int, s: int, b: int)
    requires Owned(inos, blk, owner, nmeta) && 0 <= i < |inos| && 0 <= b < |blk|
    ensures |inos[i].addrs| == NDIRECT + 1 && |blk[b]| == BSIZE
  {
  }

  lemma SlotNamesIndirect(ino: Dinode, blk: seq<Block>)
    ensures |ino.addrs| == NDIRECT + 1 ==> Slot(ino, blk, NDIRECT) == ino.addrs[NDIRECT]
  {
  }

  lemma SlotDirect(ino: Dinode, blk: seq<Block>, s: nat)
    requires s <= NDIRECT && |ino.addrs| == NDIRECT + 1
    ensures Slot(ino, blk, s) == ino.addrs[s]
  {
  }

  lemma SlotNoIndirect(ino: Dinode, blk: seq<Block>, s: int)
    requires |ino.addrs| == NDIRECT + 1 && ino.addrs[NDIRECT] == 0 && s > NDIRECT
    ensures Slot(ino, blk, s) == 0
  {
  }

  lemma SlotEntry(inos: seq<Dinode>, blk: seq<Block>, owner: map<int, (int, int)>, nmeta: nat, i: int, s: int)
    requires Owned(inos, blk, owner, nmeta) && 0 <= i < |inos| && NDIRECT < s < NSLOT && Slot(inos[i], blk, NDIRECT) != 0
    ensures var ind := Slot(inos[i], blk, NDIRECT);
            0 < ind < |blk| && |blk[ind]| == BSIZE && Slot(inos[i], blk, s) == WordAt(blk[ind], s - NDIRECT - 1)
  {
    assert Slot(inos[i], blk, NDIRECT) in owner;
  }

  lemma GrownNone(inos: seq<Dinode>, blk: seq<Block>, i: int)
    requires 0 <= i < |inos|
    ensures Grown(inos, blk, inos, blk, i, {})
  {
  }

  lemma GrownKeeps(inos: seq<Dinode>, blk: seq<Block>, inos': seq<Dinode>, blk': seq<Block>, i: int, s: int, t: int)
    requires Grown(inos, blk, inos', blk', i, {s}) && 0 <= t < NSLOT && s != t
    ensures Slot(inos'[i], blk', t) == Slot(inos[i], blk, t)
  {
    hide Slot;
  }

  datatype Kind = FD_NONE | FD_PIPE | FD_INODE

  /** struct file; ip counts for FD_INODE only. */
  class OpenFile {
    const kind: Kind
    const writable: bool
    const ip: Inode
    var off: nat

    constructor (kind: Kind, writable: bool, ip: Inode)
      ensures this.kind == kind && this.writable == writable && this.ip == ip && off == 0
    {
      this.kind, this.writable, this.ip := kind, writable, ip;
      off := 0;
    }
  }

  /** filewrite's max: the bytes of three blocks. */
  const CHUNK := ((MAXOPBLOCKS - 1 - 1 - 2) / 2) * 512

  /** How much of n bytes goes with the call that starts at byte i. */
  function Chunk(n: nat, i: nat): (c: nat)
    requires i <= n
  {
    if n - i > CHUNK then CHUNK else n - i
  }

  /** How many of n bytes, offered in chunks from byte i on, the driver takes until it first does not
      take a chunk whole. */
  function Taken(driver: (nat, nat) -> int, n: nat, i: nat): (w: nat)
    requires i <= n
    ensures i <= w <= n && (w < n ==> driver(w, Chunk(n, w)) != Chunk(n, w))
    ensures w == n && i < n ==> driver(i, Chunk(n, i)) == Chunk(n, i)
    decreases n - i
  {
    if i < n && driver(i, Chunk(n, i)) == Chunk(n, i) then Taken(driver, n, i + Chunk(n, i)) else i
  }

  /** A device has taken i bytes in chunks, and the offset has moved on. */
  ghost predicate DeviceAt(driver: (nat, nat) -> int, n: nat, off0: nat, off: nat, i: nat) {
    i <= n && off == (off0 + i) % UINT && Taken(driver, n, 0) == Taken(driver, n, i)
  }

  lemma DeviceStep(driver: (nat, nat) -> int, n: nat, off0: nat, off: nat, i: nat)
    requires DeviceAt(driver, n, off0, off, i) && i < n
    ensures var c := Chunk(n, i);
            if driver(i, c) == c then DeviceAt(driver, n, off0, (off + c) % UINT, i + c) else i == Taken(driver, n, 0)
  {
  }

  /** One transaction of filewrite: the disk it leaves, and the blocks it logged. */
  datatype Tx = Tx(disk: Image, log: set<BlockName>)

  ghost function Last(d0: Image, txs: seq<Tx>): Image {
    if txs == [] then d0 else txs[|txs| - 1].disk
  }

  /** Each transaction has logged all it changed, in a log of at most six blocks and the free map. */
  ghost predicate AllLogged(d0: Image, txs: seq<Tx>) {
    forall k :: 0 <= k < |txs| ==> Logged(Last(d0, txs[..k]), txs[k].disk, txs[k].log) && |txs[k].log| <= 6 + |d0.bmap|
  }

  /** How many of n bytes the first k chunks hold. */
  function Reach(n: nat, k: nat): (r: nat)
    ensures r <= n
  {
    if k * CHUNK <= n then k * CHUNK else n
  }

  ghost predicate HoldsAt(d: Image, i: nat, prior: seq<int>, off: nat, data: seq<int>) {
    && (forall b :: 0 <= b < |d.blk| ==> |d.blk[b]| == BSIZE) && i < |d.dinodes| && off <= |prior|
    && Bytes(d.dinodes[i], d.blk) == Overwrite(prior, off, data)
  }

  /** After every transaction the file on disk holds its old contents overwritten with the first chunks of addr. */
  ghost predicate AllHold(txs: seq<Tx>, i: nat, prior: seq<int>, off: nat, addr: seq<int>) {
    forall k :: 0 <= k < |txs| ==> HoldsAt(txs[k].disk, i, prior, off, addr[..Reach(|addr|, k + 1)])
  }

  lemma TxStart(d0: Image, i: nat, prior: seq<int>, off: nat, addr: seq<int>)
    ensures AllLogged(d0, []) && AllHold([], i, prior, off, addr) && Reach(|addr|, 0) == 0
  {
  }

  lemma ReachNext(n: nat, k: nat)
    requires Reach(n, k) < n
    ensures Reach(n, k + 1) == Reach(n, k) + Chunk(n, Reach(n, k)) > 0
  {
  }

  /** The driver is offered the chunks in order and takes each one before the last offered whole. */
  lemma {:induction false} TakenWhole(driver: (nat, nat) -> int, n: nat, j: nat) returns (m: nat)
    ensures j <= m && Taken(driver, n, Reach(n, j)) == Reach(n, m)
    ensures forall k :: j <= k < m ==> driver(Reach(n, k), Chunk(n, Reach(n, k))) == Chunk(n, Reach(n, k)) > 0
    ensures Reach(n, m) < n ==> driver(Reach(n, m), Chunk(n, Reach(n, m))) != Chunk(n, Reach(n, m))
    decreases n - Reach(n, j)
  {
    var i := Reach(n, j);
    m := j;
    if i < n && driver(i, Chunk(n, i)) == Chunk(n, i) {
      ReachNext(n, j);
      m := TakenWhole(driver, n, j + 1);
    }
  }

  lemma TxNext(d0: Image, txs: seq<Tx>, t: Tx, i: nat, prior: seq<int>, off: nat, addr: seq<int>)
    requires AllLogged(d0, txs) && AllHold(txs, i, prior, off, addr)
    requires Logged(Last(d0, txs), t.disk, t.log) && |t.log| <= 6 + |d0.bmap|
    requires HoldsAt(t.disk, i, prior, off, addr[..Reach(|addr|, |txs| + 1)])
    ensures AllLogged(d0, txs + [t]) && AllHold(txs + [t], i, prior, off, addr)
  {
    hide Logged, HoldsAt, Reach;
    var all := txs + [t];
    forall k | 0 <= k < |all|
      ensures Logged(Last(d0, all[..k]), all[k].disk, all[k].log) && |all[k].log| <= 6 + |d0.bmap|
      ensures HoldsAt(all[k].disk, i, prior, off, addr[..Reach(|addr|, k + 1)])
    {
      assert all[..k] == txs[..k];
      if k == |txs| {
        assert txs[..k] == txs;
      }
    }
  }

  lemma ChunkBytes(prior: seq<int>, off: nat, addr: seq<int>, i: nat, n: nat, mid: seq<int>, now: seq<int>)
    requires i + n <= |addr| && off + i <= |mid| && now == Overwrite(mid, off + i, addr[i..i + n])
    requires if i == 0 then mid == prior else off <= |prior| && mid == Overwrite(prior, off, addr[..i])
    ensures off <= |prior| && now == Overwrite(prior, off, addr[..i + n]) && off + i + n <= |now|
  {
    assert addr[..i] + addr[i..i + n] == addr[..i + n];
    if i == 0 {
      assert addr[0..n] == addr[..n];
    } else {
      OverwriteTwice(prior, off, addr[..i], addr[i..i + n]);
    }
  }

  class FileSystem {
    const size: nat     // sb.size
    const nmeta: nat    // boot, super, log, inode and free map blocks
    var bmap: seq<seq<bv8>>
    var dinodes: seq<Dinode>
    var blk: seq<Block>
    ghost var owner: map<int, (int, int)>   // which slot a data block belongs to
    ghost var logged: set<BlockName>        // blocks passed to log_write since begin_op

    ghost function Disk(): Image
      reads this
    {
      Image(bmap, blk, dinodes)
    }

    ghost predicate WfBlocks()
      reads this
    {
      WfMap(bmap, size) && |blk| == size && forall b :: 0 <= b < |blk| ==> |blk[b]| == BSIZE
    }

    /** All inodes, with ip as its in-memory copy has it. */
    ghost function Inos(ip: Inode): seq<Dinode>
      reads this, ip
    {
      if ip.inum < |dinodes| then dinodes[ip.inum := ip.Val()] else dinodes
    }

    /** The blocks in use are the metadata blocks and the disjoint union of what the
        slots of all inodes refer to. */
    ghost predicate Valid(ip: Inode)
      reads this, ip
    {
      && WfBlocks() && 0 < nmeta <= size && ip.inum < |dinodes|
      && Owned(Inos(ip), blk, owner, nmeta)
      && Used(bmap, size) == Below(nmeta) + owner.Keys
    }

    /** No block is free: what balloc panics on. */
    ghost predicate DiskFull()
      reads this
    {
      Used(bmap, size) == Below(size)
    }

    method Bzero(bno: int)
      requires WfBlocks() && 0 <= bno < size
      modifies this`blk, this`logged
      ensures WfBlocks() && blk == old(blk)[bno := Zero()]
      ensures logged == old(logged) + {Data(bno)}
    {
      blk := blk[bno := Zero()];
      logged := logged + {Data(bno)};
    }

    /** None stands for panic("balloc: out of blocks"). */
    method Balloc() returns (r: Option<int>)
      requires WfBlocks()
      modifies this`bmap, this`blk, this`logged
      ensures WfBlocks()
      ensures r.None? ==> DiskFull()
                          && bmap == old(bmap) && blk == old(blk) && logged == old(logged)
      ensures r.Some? ==> 0 <= r.value < size && r.value !in Used(old(bmap), size)
                          && (forall c :: 0 <= c < r.value ==> c in Used(old(bmap), size))
                          && Used(bmap, size) == Used(old(bmap), size) + {r.value}
                          && blk == old(blk)[r.value := Zero()]
                          && |bmap| == |old(bmap)|
                          && logged == old(logged) + {FreeMap(r.value / BPB), Data(r.value)}
      ensures old(logged) <= logged && Logged(old(Disk()), Disk(), logged)
    {
      hide BitAt, Bit, Logged;
      LoggedNone(Disk(), logged);
      var b := 0;
      while b < size
        invariant 0 <= b && b % BPB == 0 && bmap == old(bmap) && blk == old(blk) && logged == old(logged)
        invariant FullTo(bmap, size, b)
        decreases size - b
      {
        var bi := 0;
        while bi < BPB && b + bi < size
          invariant 0 <= bi <= BPB && FullTo(bmap, size, b + bi)
          invariant bmap == old(bmap) && blk == old(blk) && logged == old(logged)
        {
          FullNext(bmap, size, b, bi);
          if !Bit(bmap[b / BPB], bi) {
            TakeBit(b, bi);
            return Some(b + bi);
          }
          bi := bi + 1;
        }
        assert FullTo(bmap, size, b + BPB);
        b := b + BPB;
      }
      r := None;
    }

    /** balloc has found bit bi of the map block for b clear. */
    method TakeBit(b: int, bi: int)
      requires WfBlocks() && 0 <= b && b % BPB == 0 && 0 <= bi < BPB && b + bi < size
      modifies this`bmap, this`blk, this`logged
      ensures WfBlocks() && |bmap| == |old(bmap)|
      ensures Used(bmap, size) == Used(old(bmap), size) + {b + bi}
      ensures blk == old(blk)[b + bi := Zero()]
      ensures logged == old(logged) + {FreeMap((b + bi) / BPB), Data(b + bi)}
      ensures old(logged) <= logged && Logged(old(Disk()), Disk(), logged)
    {
      hide BitAt, Bit, SetBit, Used, Logged, WfMap;
      SamePlace(bmap, size, b, bi);
      MarkOne(bmap, size, b + bi);
      bmap := bmap[b / BPB := SetBit(bmap[b / BPB], bi)];
      logged := logged + {FreeMap(b / BPB)};
      ghost var d1, log1 := Disk(), logged;
      LoggedMap(old(Disk()), b / BPB, bmap[b / BPB], log1);
      Bzero(b + bi);
      LoggedBlock(d1, b + bi, Zero(), logged);
      LoggedTwice(old(Disk()), d1, Disk(), log1, logged);
    }

    /** true stands for panic("freeing free block"). */
    method Bfree(b: int) returns (panicked: bool)
      requires WfBlocks() && 0 <= b < size
      modifies this`bmap, this`logged
      ensures WfBlocks() && |bmap| == |old(bmap)|
      ensures panicked <==> b !in Used(old(bmap), size)
      ensures panicked ==> bmap == old(bmap) && logged == old(logged)
      ensures !panicked ==> Used(bmap, size) == Used(old(bmap), size) - {b} && logged == old(logged) + {FreeMap(b / BPB)}
      ensures old(logged) <= logged && Logged(old(Disk()), Disk(), logged)
    {
      var bp := bmap[b / BPB];
      var bi := b % BPB;
      if !Bit(bp, bi) {
        return true;
      }
      UnmarkOne(bmap, size, b);
      bp := ClearBit(bp, bi);
      bmap := bmap[b / BPB := bp];
      logged := logged + {FreeMap(b / BPB)};
      panicked := false;
    }

    method Iupdate(ip: Inode)
      requires ip.inum < |dinodes|
      modifies this`dinodes, this`logged
      ensures dinodes == old(dinodes)[ip.inum := ip.Val()]
      ensures logged == old(logged) + {InodeBlock(ip.inum / IPB)}
    {
      dinodes := dinodes[ip.inum := Dinode(ip.typ, ip.nlink, ip.size, ip.addrs)];
      logged := logged + {InodeBlock(ip.inum / IPB)};
    }

    /** ip->addrs[s] = balloc(ip->dev), for a direct block or the indirect block. */
    method AllocSlot(ip: Inode, s: int) returns (r: Option<int>)
      requires Valid(ip) && 0 <= s <= NDIRECT && Slot(ip.Val(), blk, s) == 0
      modifies this`bmap, this`blk, this`owner, this`logged, ip`addrs
      ensures r.Some? ==> Valid(ip) && |bmap| == |old(bmap)|
                          && Grown(old(Inos(ip)), old(blk), Inos(ip), blk, ip.inum, {s})
                          && r.value == Slot(ip.Val(), blk, s) != 0
                          && logged <= old(logged) + Maps(|bmap|) + {Data(r.value)}
      ensures r.None? ==> DiskFull()
      ensures old(logged) <= logged && Logged(old(Disk()), Disk(), logged)
    {
      hide Logged, Slot, Owned, Grown, Used, Below, BitAt, WfMap, Maps;
      ghost var inos, blk0, own := Inos(ip), blk, owner;
      ghost var used := Used(bmap, size);
      r := Balloc();
      if r.Some? {
        var b := r.value;
        MapsHas(bmap, size, b);
        UsedNext(used, nmeta, own, b, (ip.inum, s));
        AllocShape(inos, blk0, own, nmeta, ip.inum, s, b);
        AllocDirect(inos, blk0, own, nmeta, ip.inum, s, b);
        ip.addrs := ip.addrs[s := b];
        owner := owner[b := (ip.inum, s)];
        assert Inos(ip) == inos[ip.inum := inos[ip.inum].(addrs := inos[ip.inum].addrs[s := b])];
      }
    }

    /** a[s] = balloc(ip->dev), for an entry of the indirect block. */
    method AllocIndirectEntry(ip: Inode, s: int) returns (r: Option<int>)
      requires Valid(ip) && NDIRECT < s < NSLOT && Slot(ip.Val(), blk, s) == 0 && Slot(ip.Val(), blk, NDIRECT) != 0
      modifies this`bmap, this`blk, this`owner, this`logged
      ensures r.Some? ==> Valid(ip) && |bmap| == |old(bmap)|
                          && Grown(old(Inos(ip)), old(blk), Inos(ip), blk, ip.inum, {s})
                          && r.value == Slot(ip.Val(), blk, s) != 0
                          && logged <= old(logged) + Maps(|bmap|) + {Data(r.value), Data(Slot(ip.Val(), blk, NDIRECT))}
      ensures r.None? ==> DiskFull()
      ensures old(logged) <= logged && Logged(old(Disk()), Disk(), logged)
    {
      hide Logged, Slot, Owned, Grown, SetWord, Used, Below, BitAt, WfMap, Maps;
      ghost var inos, blk0, own := Inos(ip), blk, owner;
      ghost var used := Used(bmap, size);
      r := Balloc();
      if r.Some? {
        var b := r.value;
        MapsHas(bmap, size, b);
        UsedNext(used, nmeta, own, b, (ip.inum, s));
        AllocEntry(inos, blk0, own, nmeta, ip.inum, s, b);
        AllocShape(inos, blk0, own, nmeta, ip.inum, s, b);
        var ind := ip.addrs[NDIRECT];
        SlotNamesIndirect(ip.Val(), blk0);
        ghost var d1, log1 := Disk(), logged;
        blk := blk[ind := SetWord(blk[ind], s - NDIRECT - 1, b)];
        logged := logged + {Data(ind)};
        LoggedBlock(d1, ind, blk[ind], logged);
        LoggedTwice(old(Disk()), d1, Disk(), log1, logged);
        owner := owner[b := (ip.inum, s)];
        SlotNamesIndirect(ip.Val(), blk);
      }
    }

    /** None stands for a panic: bn out of range, or no free block. */
    method Bmap(ip: Inode, bn: nat) returns (r: Option<int>)
      requires Valid(ip)
      modifies this`bmap, this`blk, this`owner, this`logged, ip`addrs
      ensures bn >= MAXFILE ==> r.None?
      ensures r.None? ==> bn >= MAXFILE || DiskFull()
      ensures r.Some? ==> Valid(ip) && |bmap| == |old(bmap)|
                          && r.value == Slot(ip.Val(), blk, FileSlot(bn)) != 0
                          && (bn >= NDIRECT ==> Slot(ip.Val(), blk, NDIRECT) != 0)
                          && (exists gained :: Grown(old(Inos(ip)), old(blk), Inos(ip), blk, ip.inum, gained)
                                               && gained <= {FileSlot(bn)} + if bn >= NDIRECT then {NDIRECT} else {})
                          && logged <= old(logged) + Maps(|bmap|) + {Data(r.value)} + Indirect(ip.Val(), blk)
      ensures bn < MAXFILE && old(Slot(ip.Val(), blk, FileSlot(bn))) != 0 ==>
                r == Some(old(Slot(ip.Val(), blk, FileSlot(bn))))
                && bmap == old(bmap) && blk == old(blk) && owner == old(owner) && logged == old(logged) && ip.addrs == old(ip.addrs)
      ensures old(logged) <= logged && Logged(old(Disk()), Disk(), logged)
    {
      hide Logged, Owned, Grown, Slot, FileBlock, Used, Below, BitAt, WfMap, WordAt, Maps;
      LoggedNone(Disk(), logged);
      AllocShape(Inos(ip), blk, owner, nmeta, ip.inum, 0, 0);
      if bn < NDIRECT {
        SlotDirect(ip.Val(), blk, bn);
        var addr := ip.addrs[bn];
        if addr == 0 {
          r := AllocSlot(ip, bn);
          return;
        }
        GrownNone(Inos(ip), blk, ip.inum);
        return Some(addr);
      }
      if bn >= MAXFILE {
        return None;
      }
      r := BmapEntry(ip, bn);
    }

    /** bmap's part for a block listed in the indirect block. */
    method BmapEntry(ip: Inode, bn: nat) returns (r: Option<int>)
      requires Valid(ip) && NDIRECT <= bn < MAXFILE && |ip.addrs| == NDIRECT + 1
      modifies this`bmap, this`blk, this`owner, this`logged, ip`addrs
      ensures r.Some? ==> Valid(ip) && |bmap| == |old(bmap)|
                          && r.value == Slot(ip.Val(), blk, bn + 1) != 0
                          && Slot(ip.Val(), blk, NDIRECT) != 0
                          && (exists gained :: Grown(old(Inos(ip)), old(blk), Inos(ip), blk, ip.inum, gained) && gained <= {bn + 1, NDIRECT})
                          && logged <= old(logged) + Maps(|bmap|) + {Data(r.value)} + Indirect(ip.Val(), blk)
      ensures r.None? ==> DiskFull()
      ensures old(Slot(ip.Val(), blk, bn + 1)) != 0 ==>
                r == Some(old(Slot(ip.Val(), blk, bn + 1)))
                && bmap == old(bmap) && blk == old(blk) && owner == old(owner) && logged == old(logged) && ip.addrs == old(ip.addrs)
      ensures old(logged) <= logged && Logged(old(Disk()), Disk(), logged)
    {
      hide Logged, Owned, Grown, Slot, FileBlock, Used, Below, BitAt, WfMap, WordAt, Maps;
      LoggedNone(Disk(), logged);
      ghost var inos0, blk0 := Inos(ip), blk;
      SlotDirect(ip.Val(), blk, NDIRECT);
      if ip.addrs[NDIRECT] == 0 {
        SlotNoIndirect(ip.Val(), blk, bn + 1);
        r := AllocSlot(ip, NDIRECT);
        if r.None? {
          return;
        }
        assert Slot(ip.Val(), blk, bn + 1) == 0 by { GrownKeeps(inos0, blk0, Inos(ip), blk, ip.inum, NDIRECT, bn + 1); }
        ghost var inos1, blk1, d1, log1 := Inos(ip), blk, Disk(), logged;
        r := AllocIndirectEntry(ip, bn + 1);
        LoggedTwice(old(Disk()), d1, Disk(), log1, logged);
        if r.Some? {
          GrownTwice(inos0, blk0, inos1, blk1, Inos(ip), blk, ip.inum, NDIRECT, bn + 1);
          GrownKeeps(inos1, blk1, Inos(ip), blk, ip.inum, bn + 1, NDIRECT);
        }
        return;
      }
      SlotEntry(Inos(ip), blk, owner, nmeta, ip.inum, bn + 1);
      var addr := WordAt(blk[ip.addrs[NDIRECT]], bn - NDIRECT);
      if addr == 0 {
        r := AllocIndirectEntry(ip, bn + 1);
        if r.Some? {
          GrownKeeps(inos0, blk0, Inos(ip), blk, ip.inum, bn + 1, NDIRECT);
        }
        return;
      }
      GrownNone(Inos(ip), blk, ip.inum);
      r := Some(addr);
    }

    /** One `if(a) bfree(a)` of itrunc: slot sl of the inode as it was when itrunc began. */
    method FreeSlot(a: int, ghost sl: int, ghost i: int, ghost inos: seq<Dinode>, ghost used: set<int>)
      returns (panicked: bool)
      requires WfBlocks() && Owned(inos, blk, owner, nmeta) && 0 <= i < |inos| && 0 <= sl < NSLOT && a == Slot(inos[i], blk, sl)
      requires owner.Keys <= used && 0 < nmeta
      requires Used(bmap, size) == used - FreedBy(owner, i, FreeOrder(sl))
      modifies this`bmap, this`logged
      ensures WfBlocks() && !panicked && |bmap| == |old(bmap)|
      ensures Used(bmap, size) == used - FreedBy(owner, i, FreeOrder(sl) + 1)
      ensures logged <= old(logged) + Maps(|bmap|)
      ensures old(logged) <= logged && Logged(old(Disk()), Disk(), logged)
    {
      hide Logged, Owned, Slot, Used, FreedBy, BitAt, WfMap, FreeOrder, Maps;
      LoggedNone(Disk(), logged);
      FreedNext(inos, blk, owner, nmeta, i, sl);
      panicked := false;
      if a != 0 {
        MapsHas(bmap, size, a);
        panicked := Bfree(a);
      }
    }

    /** itrunc's loop over the direct blocks. */
    method FreeDirect(ip: Inode, ghost inos: seq<Dinode>, ghost used: set<int>)
      requires Valid(ip) && inos == Inos(ip) && used == Used(bmap, size) && |ip.addrs| == NDIRECT + 1
      modifies this`bmap, this`logged, ip`addrs
      ensures WfBlocks() && ip.addrs == seq(NDIRECT, _ => 0) + old(ip.addrs)[NDIRECT..]
      ensures Used(bmap, size) == used - FreedBy(owner, ip.inum, NDIRECT)
      ensures |bmap| == |old(bmap)| && logged <= old(logged) + Maps(|bmap|)
      ensures old(logged) <= logged && Logged(old(Disk()), Disk(), logged)
    {
      hide Logged, Owned, Slot, Used, FreedBy, BitAt, WfMap, Below, Maps;
      LoggedNone(Disk(), logged);
      ghost var d0 := ip.Val();
      AllocShape(inos, blk, owner, nmeta, ip.inum, 0, 0);
      FreedNothing(inos, blk, owner, nmeta, ip.inum);
      var i := 0;
      while i < NDIRECT
        invariant 0 <= i <= NDIRECT && WfBlocks() && |ip.addrs| == NDIRECT + 1
        invariant forall k :: 0 <= k < |ip.addrs| ==> ip.addrs[k] == if k < i then 0 else d0.addrs[k]
        invariant Used(bmap, size) == used - FreedBy(owner, ip.inum, i)
        invariant |bmap| == |old(bmap)| && old(logged) <= logged <= old(logged) + Maps(|bmap|)
        invariant Logged(old(Disk()), Disk(), logged)
      {
        ghost var d1, log1 := Disk(), logged;
        SlotDirect(d0, blk, i);
        var panicked := FreeSlot(ip.addrs[i], i, ip.inum, inos, used);
        LoggedTwice(old(Disk()), d1, Disk(), log1, logged);
        ip.addrs := ip.addrs[i := 0];
        i := i + 1;
      }
    }

    /** itrunc's part for the indirect block. */
    method FreeIndirect(ip: Inode, ghost inos: seq<Dinode>, ghost used: set<int>)
      requires WfBlocks() && Owned(inos, blk, owner, nmeta) && ip.inum < |inos| && 0 < nmeta
      requires |ip.addrs| == NDIRECT + 1 == |inos[ip.inum].addrs| && ip.addrs[NDIRECT] == inos[ip.inum].addrs[NDIRECT]
      requires owner.Keys <= used && Used(bmap, size) == used - FreedBy(owner, ip.inum, NDIRECT)
      modifies this`bmap, this`logged, ip`addrs
      ensures WfBlocks() && ip.addrs == old(ip.addrs)[NDIRECT := 0]
      ensures Used(bmap, size) == used - FreedBy(owner, ip.inum, NSLOT)
      ensures |bmap| == |old(bmap)| && logged <= old(logged) + Maps(|bmap|)
      ensures old(logged) <= logged && Logged(old(Disk()), Disk(), logged)
    {
      hide Logged, Owned, Slot, Used, FreedBy, BitAt, WfMap, Below, Maps;
      LoggedNone(Disk(), logged);
      ghost var d0 := inos[ip.inum];
      SlotDirect(d0, blk, NDIRECT);
      if ip.addrs[NDIRECT] == 0 {
        FreedNoIndirect(inos, blk, owner, nmeta, ip.inum);
        return;
      }
      var j := 0;
      while j < NINDIRECT
        invariant 0 <= j <= NINDIRECT && WfBlocks() && ip.addrs == old(ip.addrs)
        invariant Used(bmap, size) == used - FreedBy(owner, ip.inum, NDIRECT + j)
        invariant |bmap| == |old(bmap)| && old(logged) <= logged <= old(logged) + Maps(|bmap|)
        invariant Logged(old(Disk()), Disk(), logged)
      {
        ghost var d1, log1 := Disk(), logged;
        SlotEntry(inos, blk, owner, nmeta, ip.inum, NDIRECT + 1 + j);
        var panicked := FreeSlot(WordAt(blk[ip.addrs[NDIRECT]], j), NDIRECT + 1 + j, ip.inum, inos, used);
        LoggedTwice(old(Disk()), d1, Disk(), log1, logged);
        j := j + 1;
      }
      ghost var d1, log1 := Disk(), logged;
      var panicked := FreeSlot(ip.addrs[NDIRECT], NDIRECT, ip.inum, inos, used);
      LoggedTwice(old(Disk()), d1, Disk(), log1, logged);
      ip.addrs := ip.addrs[NDIRECT := 0];
    }

    /** Discards the inode's contents; frees exactly its blocks. No bfree in it panics. */
    method Itrunc(ip: Inode)
      requires Valid(ip)
      modifies this`bmap, this`owner, this`dinodes, this`logged, ip`addrs, ip`size
      ensures Valid(ip)
      ensures ip.size == 0 && forall s :: Slot(ip.Val(), blk, s) == 0
      ensures Used(bmap, size) == old(Used(bmap, size)) - set b | b in old(owner) && old(owner)[b].0 == ip.inum
      ensures owner == map b | b in old(owner) && old(owner)[b].0 != ip.inum :: old(owner)[b]
      ensures dinodes == old(dinodes)[ip.inum := ip.Val()]
      ensures old(FilesOK(Inos(ip), blk)) ==> FilesOK(Inos(ip), blk)
      ensures |bmap| == |old(bmap)| && logged <= old(logged) + Maps(|bmap|) + {InodeBlock(ip.inum / IPB)}
      ensures old(logged) <= logged && Logged(old(Disk()), Disk(), logged)
    {
      hide Logged, Owned, Slot, Used, FreedBy, BitAt, WfMap, Below, Maps;
      ghost var inos, used := Inos(ip), Used(bmap, size);
      AllocShape(inos, blk, owner, nmeta, ip.inum, 0, 0);
      FreeDirect(ip, inos, used);
      ghost var d1, log1 := Disk(), logged;
      FreeIndirect(ip, inos, used);
      LoggedTwice(old(Disk()), d1, Disk(), log1, logged);
      assert ip.addrs == seq(NDIRECT + 1, _ => 0);
      ip.size := 0;
      FreedAll(inos, blk, owner, nmeta, ip.inum);
      Cleared(inos, blk, owner, nmeta, ip.inum, ip.Val());
      UsedCleared(used, nmeta, owner, ip.inum, inos, blk);
      owner := map b | b in owner && owner[b].0 != ip.inum :: owner[b];
      d1, log1 := Disk(), logged;
      Iupdate(ip);
      LoggedInode(d1, ip.inum, ip.Val(), logged);
      LoggedTwice(old(Disk()), d1, Disk(), log1, logged);
      assert Inos(ip) == inos[ip.inum := ip.Val()];
    }

    /** Block k is there iff k < ceil(size/BSIZE). */
    ghost predicate FileOK(ip: Inode)
      reads this, ip
    {
      ip.size <= MAXFILE * BSIZE && MapsFirst(ip.Val(), blk, BlocksFor(ip.size))
    }

    /** One round of readi: m bytes inside one block. */
    method ReadPart(ip: Inode, off: nat, m: nat) returns (part: seq<int>)
      requires Valid(ip) && FileOK(ip) && 0 < m <= BSIZE - off % BSIZE && off + m <= ip.size
      modifies this`bmap, this`blk, this`owner, this`logged, ip`addrs
      ensures bmap == old(bmap) && blk == old(blk) && owner == old(owner) && logged == old(logged) && ip.addrs == old(ip.addrs)
      ensures part == Bytes(ip.Val(), blk)[off..off + m]
    {
      hide Owned, Slot, Used, BitAt, WfMap, Below, FileBlock, Bytes, MapsFirst, Grown, Indirect, FileSlot;
      MappedBelow(ip.Val(), blk, off);
      var addr := Bmap(ip, off / BSIZE);
      SlotIsBlock(Inos(ip), blk, owner, nmeta, ip.inum, off / BSIZE);
      ReadSlice(ip.Val(), blk, off, m);
      part := blk[addr.value][off % BSIZE..off % BSIZE + m];
    }

    /** off and n are uint; off + n wraps. A read allocates nothing. */
    method Readi(ip: Inode, off0: nat, n0: nat) returns (r: Outcome, dst: seq<int>)
      requires Valid(ip) && FileOK(ip) && off0 < UINT && n0 < UINT
      modifies this`bmap, this`blk, this`owner, this`logged, ip`addrs
      ensures bmap == old(bmap) && blk == old(blk) && owner == old(owner) && logged == old(logged) && ip.addrs == old(ip.addrs)
      ensures ip.typ == T_DEV ==> r == Device && dst == []
      ensures ip.typ != T_DEV && (off0 > ip.size || off0 + n0 >= UINT) ==> r == Error && dst == []
      ensures ip.typ != T_DEV && off0 <= ip.size && off0 + n0 < UINT ==>
                r == Count(|dst|) && dst == Bytes(ip.Val(), blk)[off0..if off0 + n0 <= ip.size then off0 + n0 else ip.size]
    {
      hide Owned, Slot, Used, BitAt, WfMap, Below, FileBlock, Bytes, MapsFirst, Grown, Indirect, FileSlot;
      dst := [];
      if ip.typ == T_DEV {
        return Device, dst;
      }
      var off, n := off0, n0;
      Wraps(off, n);
      if off > ip.size || (off + n) % UINT < off {
        return Error, dst;
      }
      if off + n > ip.size {
        n := ip.size - off;
      }
      var tot := 0;
      while tot < n
        invariant 0 <= tot <= n && off == off0 + tot && off0 + n <= ip.size
        invariant Valid(ip) && bmap == old(bmap) && blk == old(blk) && owner == old(owner) && logged == old(logged)
        invariant ip.addrs == old(ip.addrs) && dst == Bytes(ip.Val(), blk)[off0..off]
      {
        var m := if n - tot < BSIZE - off % BSIZE then n - tot else BSIZE - off % BSIZE;
        assert 0 < m <= BSIZE - off % BSIZE && off + m <= ip.size;
        ghost var bs := Bytes(ip.Val(), blk);
        var part := ReadPart(ip, off, m);
        assert Bytes(ip.Val(), blk) == bs;
        assert bs[off0..off] + bs[off..off + m] == bs[off0..off + m];
        dst := dst + part;
        tot := tot + m;
        off := off + m;
      }
      r := Count(n);
    }

    /** One round of writei: the bytes of data go into one block. false stands for a panic. */
    method WritePart(ip: Inode, off: nat, data: seq<int>, ghost m: int) returns (ok: bool)
      requires Valid(ip) && 0 < |data| <= BSIZE - off % BSIZE && off + |data| <= MAXFILE * BSIZE
      requires off / BSIZE <= m && MapsFirst(ip.Val(), blk, m)
      modifies this`bmap, this`blk, this`owner, this`logged, ip`addrs
      ensures ok ==> Valid(ip) && |bmap| == |old(bmap)|
                     && MapsFirst(ip.Val(), blk, if off / BSIZE < m then m else off / BSIZE + 1)
                     && OthersSame(old(Inos(ip)), old(blk), Inos(ip), blk, ip.inum)
                     && SlotsKept(old(ip.Val()), old(blk), ip.Val(), blk)
                     && Overlaid(old(ip.Val()), old(blk), ip.Val(), blk, off, data)
                     && (off / BSIZE < m ==> ip.addrs == old(ip.addrs))
                     && logged <= old(logged) + Maps(|bmap|) + Indirect(ip.Val(), blk)
                                  + {Data(Slot(ip.Val(), blk, FileSlot(off / BSIZE)))}
                     && Data(Slot(ip.Val(), blk, FileSlot(off / BSIZE))) in logged
      ensures !ok ==> DiskFull()
      ensures old(logged) <= logged && Logged(old(Disk()), Disk(), logged)
    {
      hide Logged, Owned, Slot, Used, BitAt, WfMap, Below, FileBlock, Grown, FileSlot, OthersSame, SlotsKept, Overlaid, MapsFirst, Maps;
      var bn := off / BSIZE;
      ghost var inos, blk0 := Inos(ip), blk;
      MappedAt(ip.Val(), blk, m, bn);
      var addr := Bmap(ip, bn);
      if addr.None? {
        return false;
      }
      ghost var gained :| Grown(inos, blk0, Inos(ip), blk, ip.inum, gained)
                          && gained <= {FileSlot(bn)} + if bn >= NDIRECT then {NDIRECT} else {};
      RoundEffect(inos, blk0, Inos(ip), blk, owner, nmeta, ip.inum, gained, m, bn, off % BSIZE, data);
      var a := addr.value;
      ghost var d1, log1 := Disk(), logged;
      blk := blk[a := Patched(blk[a], off % BSIZE, data)];
      logged := logged + {Data(a)};
      LoggedBlock(d1, a, blk[a], logged);
      LoggedTwice(old(Disk()), d1, Disk(), log1, logged);
      ok := true;
    }

    /** The blocks of the file that n bytes from off on lie in. */
    ghost function Touched(ip: Inode, off: nat, n: nat): set<BlockName>
      reads this, ip
    {
      FileData(ip.Val(), blk, off / BSIZE, if n == 0 then off / BSIZE else (off + n - 1) / BSIZE + 1)
    }

    /** What writei may log: the free map, the inode, the indirect block and the file blocks
        it touches. */
    ghost function WriteSet(ip: Inode, off: nat, n: nat): set<BlockName>
      reads this, ip
    {
      Maps(|bmap|) + {InodeBlock(ip.inum / IPB)} + Indirect(ip.Val(), blk) + Touched(ip, off, n)
    }

    /** The state of writei's loop after tot bytes; blocks lo..hi-1 of the file are touched. */
    ghost predicate WriteLoop(ip: Inode, inos: seq<Dinode>, d0: Image, log0: set<BlockName>,
                              src: seq<int>, off0: nat, tot: nat, lo: int, hi: int)
      reads this, ip
    {
      && tot <= |src| && ip.inum < |inos| && ip.size == inos[ip.inum].size
      && Valid(ip) && |bmap| == |d0.bmap|
      && MapsFirst(ip.Val(), blk, BlocksNeeded(ip.size, off0 + tot))
      && OthersSame(inos, d0.blk, Inos(ip), blk, ip.inum)
      && Overlaid(inos[ip.inum], d0.blk, ip.Val(), blk, off0, src[..tot])
      && (off0 + tot <= ip.size ==> ip.addrs == inos[ip.inum].addrs)
      && lo <= hi <= BlocksNeeded(ip.size, off0 + tot)
      && (if tot == 0 then hi == lo == off0 / BSIZE else hi == (off0 + tot - 1) / BSIZE + 1)
      && (tot < |src| ==> hi == (off0 + tot) / BSIZE)
      && logged <= log0 + (Maps(|bmap|) + Indirect(ip.Val(), blk) + FileData(ip.Val(), blk, lo, hi))
      && log0 + FileData(ip.Val(), blk, lo, hi) <= logged && Logged(d0, Disk(), logged)
    }

    method WriteRound(ip: Inode, src: seq<int>, off0: nat, tot: nat, m: nat,
                      ghost inos: seq<Dinode>, ghost d0: Image, ghost log0: set<BlockName>, ghost lo: int, ghost hi: int)
      returns (ok: bool)
      requires tot < |src| && WriteLoop(ip, inos, d0, log0, src, off0, tot, lo, hi) && 0 <= lo
      requires off0 + |src| <= MAXFILE * BSIZE
      requires var room := BSIZE - (off0 + tot) % BSIZE; m == if |src| - tot < room then |src| - tot else room
      modifies this`bmap, this`blk, this`owner, this`logged, ip`addrs
      ensures ok ==> WriteLoop(ip, inos, d0, log0, src, off0, tot + m, lo, hi + 1)
      ensures !ok ==> DiskFull()
      ensures log0 <= logged && Logged(d0, Disk(), logged)
    {
      hide Logged, Owned, Slot, Used, BitAt, WfMap, Below, FileBlock, FileSlot, OthersSame, SlotsKept, Overlaid, MapsFirst, Maps,
           BlocksNeeded, FileData, Indirect;
      var off := off0 + tot;
      ghost var inos1, blk1, d1, log1 := Inos(ip), blk, Disk(), logged;
      NeededNext(ip.size, off, m);
      ok := WritePart(ip, off, src[tot..tot + m], BlocksNeeded(ip.size, off));
      LoggedTwice(d0, d1, Disk(), log1, logged);
      if ok {
        OthersTwice(inos, d0.blk, inos1, blk1, Inos(ip), blk, ip.inum);
        OverlaidMore(inos[ip.inum], d0.blk, inos1[ip.inum], blk1, ip.Val(), blk, off0, src[..tot], src[tot..tot + m]);
        assert src[..tot] + src[tot..tot + m] == src[..tot + m];
        LoggedNext(inos1[ip.inum], blk1, ip.Val(), blk, lo, hi, BlocksNeeded(ip.size, off));
      }
    }

    /** writei's loop. */
    method WriteAll(ip: Inode, src: seq<int>, off0: nat) returns (ok: bool)
      requires Valid(ip) && FileOK(ip) && off0 <= ip.size && off0 + |src| <= MAXFILE * BSIZE
      modifies this`bmap, this`blk, this`owner, this`logged, ip`addrs
      ensures ok ==> Valid(ip) && |bmap| == |old(bmap)|
                     && MapsFirst(ip.Val(), blk, BlocksNeeded(ip.size, off0 + |src|))
                     && OthersSame(old(Inos(ip)), old(blk), Inos(ip), blk, ip.inum)
                     && Overlaid(old(ip.Val()), old(blk), ip.Val(), blk, off0, src)
                     && (off0 + |src| <= ip.size ==> ip.addrs == old(ip.addrs))
                     && logged <= old(logged) + WriteSet(ip, off0, |src|)
                     && Touched(ip, off0, |src|) <= logged
      ensures !ok ==> DiskFull()
      ensures old(logged) <= logged && Logged(old(Disk()), Disk(), logged)
    {
      hide Logged, Owned, Slot, Used, BitAt, WfMap, Below, FileBlock, FileSlot, OthersSame, SlotsKept, Overlaid, MapsFirst, Maps,
           BlocksNeeded, FileData, Indirect;
      ghost var inos, d0, log0, lo, hi := Inos(ip), Disk(), logged, off0 / BSIZE, off0 / BSIZE;
      LoggedNone(d0, log0);
      var tot := 0;
      WriteStart(inos, blk, ip.inum, ip.size, off0);
      assert src[..0] == [];
      while tot < |src|
        invariant 0 <= tot <= |src|
        invariant WriteLoop(ip, inos, d0, log0, src, off0, tot, lo, hi)
      {
        var room := BSIZE - (off0 + tot) % BSIZE;
        var m := if |src| - tot < room then |src| - tot else room;
        ok := WriteRound(ip, src, off0, tot, m, inos, d0, log0, lo, hi);
        if !ok {
          return;
        }
        tot := tot + m;
        hi := hi + 1;
      }
      assert src[..tot] == src;
      ok := true;
    }

    /** off and n = |src| are uint; off + n wraps. Panic stands for a panic in bmap. */
    method Writei(ip: Inode, src: seq<int>, off: nat) returns (r: Outcome)
      requires Valid(ip) && FileOK(ip) && dinodes[ip.inum] == ip.Val() && off < UINT && |src| < UINT
      modifies this`bmap, this`blk, this`owner, this`logged, this`dinodes, ip`addrs, ip`size
      ensures r != Piped && (r == Device <==> ip.typ == T_DEV)
      ensures r == Error <==> ip.typ != T_DEV && (off > old(ip.size) || off + |src| > MAXFILE * BSIZE)
      ensures r == Panic ==> DiskFull()
      ensures r == Device || r == Error ==>
                Valid(ip) && FileOK(ip) && bmap == old(bmap) && blk == old(blk) && owner == old(owner) && logged == old(logged)
                && dinodes == old(dinodes) && ip.Val() == old(ip.Val())
      ensures r.Count? ==>
                && r.n == |src| && Valid(ip) && FileOK(ip) && dinodes[ip.inum] == ip.Val()
                && |bmap| == |old(bmap)| && |dinodes| == |old(dinodes)|
                && Bytes(ip.Val(), blk) == Overwrite(old(Bytes(ip.Val(), blk)), off, src)
                && OthersSame(old(Inos(ip)), old(blk), Inos(ip), blk, ip.inum)
                && (old(FilesOK(Inos(ip), blk)) ==> FilesOK(Inos(ip), blk))
                && Touched(ip, off, |src|) <= logged <= old(logged) + WriteSet(ip, off, |src|)
      ensures old(logged) <= logged && Logged(old(Disk()), Disk(), logged)
    {
      hide Logged;
      LoggedNone(Disk(), logged);
      if ip.typ == T_DEV {
        return Device;
      }
      Wraps(off, |src|);
      if off > ip.size || (off + |src|) % UINT < off {
        return Error;
      }
      if off + |src| > MAXFILE * BSIZE {
        return Error;
      }
      r := WriteChecked(ip, src, off);
    }

    method WriteChecked(ip: Inode, src: seq<int>, off: nat) returns (r: Outcome)
      requires Valid(ip) && FileOK(ip) && dinodes[ip.inum] == ip.Val()
      requires off <= ip.size && off + |src| <= MAXFILE * BSIZE
      modifies this`bmap, this`blk, this`owner, this`logged, this`dinodes, ip`addrs, ip`size
      ensures r == Panic || r == Count(|src|)
      ensures r == Panic ==> DiskFull()
      ensures r.Count? ==>
                && Valid(ip) && FileOK(ip) && dinodes[ip.inum] == ip.Val()
                && |bmap| == |old(bmap)| && |dinodes| == |old(dinodes)|
                && Bytes(ip.Val(), blk) == Overwrite(old(Bytes(ip.Val(), blk)), off, src)
                && OthersSame(old(Inos(ip)), old(blk), Inos(ip), blk, ip.inum)
                && (old(FilesOK(Inos(ip), blk)) ==> FilesOK(Inos(ip), blk))
                && Touched(ip, off, |src|) <= logged <= old(logged) + WriteSet(ip, off, |src|)
      ensures old(logged) <= logged && Logged(old(Disk()), Disk(), logged)
    {
      hide Logged, Owned, Slot, Used, BitAt, WfMap, Below, FileBlock, FileSlot, Overlaid, MapsFirst, Maps, FileData, Indirect, OthersSame, Bytes, FilesOK;
      ghost var inos, blk0 := Inos(ip), blk;
      var ok := WriteAll(ip, src, off);
      if !ok {
        return Panic;
      }
      ghost var inos1 := Inos(ip);
      if |src| > 0 && off + |src| > ip.size {
        ip.size := off + |src|;
        SizeIrrelevant(inos1, blk, owner, nmeta, ip.inum, ip.size);
        SizeOnly(inos, blk0, inos1, blk, ip.inum, ip.size, off, src);
        ghost var d1, log1 := Disk(), logged;
        Iupdate(ip);
        LoggedInode(d1, ip.inum, ip.Val(), logged);
        LoggedTwice(old(Disk()), d1, Disk(), log1, logged);
      }
      assert Inos(ip) == inos1[ip.inum := ip.Val()];
      OverlaidBytes(inos[ip.inum], blk0, ip.Val(), blk, off, src);
      if FilesOK(inos, blk0) {
        FilesKept(inos, blk0, Inos(ip), blk, ip.inum);
      }
      r := Count(|src|);
    }

    // ---------- file.c ----------

    /** The file system has not changed. */
    twostate predicate SameDisk(ip: Inode)
      reads this, ip
    {
      bmap == old(bmap) && blk == old(blk) && owner == old(owner) && dinodes == old(dinodes) && ip.Val() == old(ip.Val())
    }

    /** After i bytes the file holds what one write of them at offset off makes of prior. */
    ghost predicate FileAt(ip: Inode, prior: seq<int>, off: nat, addr: seq<int>, i: nat)
      reads this, ip
    {
      && WfBlocks() && i <= |addr| && off + i < UINT
      && if i == 0 then Bytes(ip.Val(), blk) == prior && ip.size == |prior|
         else off <= |prior| && Bytes(ip.Val(), blk) == Overwrite(prior, off, addr[..i]) && off + i <= ip.size
    }

    /** The state of filewrite's loop after i bytes of addr, begun at offset off0 of a file with contents prior. */
    ghost predicate LoopAt(f: OpenFile, driver: (nat, nat) -> int, prior: seq<int>, off0: nat, addr: seq<int>, i: nat)
      reads this, f, f.ip
    {
      && Valid(f.ip) && FileOK(f.ip) && dinodes[f.ip.inum] == f.ip.Val() && f.off < UINT
      && (if f.ip.typ == T_DEV then DeviceAt(driver, |addr|, off0, f.off, i) else FileAt(f.ip, prior, off0, addr, i) && f.off == off0 + i)
    }

    /** The loop ends with answer r after i bytes. */
    ghost predicate LoopEnd(f: OpenFile, driver: (nat, nat) -> int, prior: seq<int>, off0: nat, addr: seq<int>, i: nat, r: Outcome)
      reads this, f, f.ip
    {
      && i <= |addr| && (r == Error || r == Panic || (r == Count(|addr|) && i == |addr|))
      && (r != Panic ==> LoopAt(f, driver, prior, off0, addr, i))
      && if f.ip.typ == T_DEV then
           && i == Taken(driver, |addr|, 0)
           && (i < |addr| ==> r == if driver(i, Chunk(|addr|, i)) < 0 then Error else Panic)
           && (i == |addr| ==> r == Count(|addr|))
         else
           && (r == Panic ==> DiskFull())
           && (r == Error ==> i < |addr| && (f.off > f.ip.size || f.off + Chunk(|addr|, i) > MAXFILE * BSIZE))
    }

    /** begin_op and writei of one round of filewrite's loop. */
    method LoggedWritei(ip: Inode, addr: seq<int>, i: nat, n1: nat, off: nat, ghost prior: seq<int>, ghost off0: nat)
      returns (r: Outcome)
      requires Valid(ip) && FileOK(ip) && dinodes[ip.inum] == ip.Val() && off < UINT && |addr| < UINT && 0 < n1 <= CHUNK && i + n1 <= |addr|
      requires ip.typ != T_DEV ==> FileAt(ip, prior, off0, addr, i) && off == off0 + i
      modifies this`bmap, this`blk, this`owner, this`logged, this`dinodes, ip`addrs, ip`size
      ensures r != Piped && (r == Device <==> ip.typ == T_DEV) && (r == Device ==> SameDisk(ip)) && (r == Panic ==> DiskFull())
      ensures r != Panic ==> Valid(ip) && FileOK(ip) && dinodes[ip.inum] == ip.Val() && |bmap| == |old(bmap)|
      ensures r == Error ==> FileAt(ip, prior, off0, addr, i) && (off > ip.size || off + n1 > MAXFILE * BSIZE)
      ensures r.Count? ==> r.n == n1 && off + n1 < UINT && FileAt(ip, prior, off0, addr, i + n1)
      ensures Logged(old(Disk()), Disk(), logged)
      ensures r.Count? ==> |logged| <= 6 + |old(bmap)|
      ensures r == Device || r == Error ==> Disk() == old(Disk()) && logged == {}
    {
      hide Logged, Owned, Slot, Used, BitAt, WfMap, Below, FileBlock, FileSlot, MapsFirst, Maps, FileData, Indirect, OthersSame, Bytes, FilesOK,
           Overwrite, WriteSet;
      logged := {};
      ghost var mid := Bytes(ip.Val(), blk);
      r := Writei(ip, addr[i..i + n1], off);
      if r.Count? {
        ChunkLog(ip, off, n1);
        ChunkBytes(prior, off0, addr, i, n1, mid, Bytes(ip.Val(), blk));
      }
    }

    /** One round of filewrite's loop, from begin_op to end_op: Count is writei's answer, Error a negative one. */
    method WriteChunk(f: OpenFile, addr: seq<int>, i: nat, n1: nat, driver: (nat, nat) -> int, ghost prior: seq<int>, ghost off0: nat)
      returns (r: Outcome)
      requires LoopAt(f, driver, prior, off0, addr, i) && |addr| < UINT && i < |addr| && n1 == Chunk(|addr|, i)
      modifies this`bmap, this`blk, this`owner, this`logged, this`dinodes, f`off, f.ip`addrs, f.ip`size
      ensures r != Panic ==> |bmap| == |old(bmap)|
      ensures f.ip.typ == T_DEV ==> SameDisk(f.ip)
      ensures Logged(old(Disk()), Disk(), logged)
      ensures f.ip.typ != T_DEV && r.Count? ==> r == Count(n1) && |logged| <= 6 + |old(bmap)|
      ensures r.Count? || r == Panic || (r == Error && Disk() == old(Disk()))
      ensures if r == Count(n1) then LoopAt(f, driver, prior, off0, addr, i + n1)
              else LoopEnd(f, driver, prior, off0, addr, i, if r.Count? then Panic else r)
    {
      hide Logged, Valid, FileOK, FileAt, DiskFull, DeviceAt, Taken;
      ghost var off := f.off;
      r := LoggedWritei(f.ip, addr, i, n1, f.off, prior, off0);
      if r == Panic {
        return;
      }
      if r == Device {
        var x := driver(i, n1);
        r := if x < 0 then Error else Count(x);
        DeviceStep(driver, |addr|, off0, off, i);
      }
      if r.Count? && r.n > 0 {
        f.off := (f.off + r.n) % UINT;
      }
    }

    /** The loop of filewrite. written is how many bytes reached the file or device, txs the transactions
        that were ended. */
    method WriteChunks(f: OpenFile, addr: seq<int>, driver: (nat, nat) -> int)
      returns (r: Outcome, ghost written: nat, ghost txs: seq<Tx>)
      requires Valid(f.ip) && FileOK(f.ip) && dinodes[f.ip.inum] == f.ip.Val() && f.off < UINT && |addr| < UINT
      modifies this`bmap, this`blk, this`owner, this`logged, this`dinodes, f`off, f.ip`addrs, f.ip`size
      ensures f.ip.typ == T_DEV ==> SameDisk(f.ip)
      ensures LoopEnd(f, driver, old(Bytes(f.ip.Val(), blk)), old(f.off), addr, written, r)
      ensures f.ip.typ != T_DEV ==>
                && AllLogged(old(Disk()), txs) && AllHold(txs, f.ip.inum, old(Bytes(f.ip.Val(), blk)), old(f.off), addr)
                && written == Reach(|addr|, |txs|)
                && if r == Panic then Logged(Last(old(Disk()), txs), Disk(), logged) else Last(old(Disk()), txs) == Disk()
    {
      hide Logged, Valid, FileOK, LoopAt, LoopEnd, Bytes, AllLogged, AllHold, HoldsAt, Reach;
      written, txs := 0, [];
      var i := 0;
      ghost var off0, d0 := f.off, Disk();
      ghost var prior := LoopStart(f, driver, addr);
      TxStart(d0, f.ip.inum, prior, off0, addr);
      while i < |addr|
        invariant 0 <= i <= |addr| && written == i && |bmap| == |d0.bmap|
        invariant LoopAt(f, driver, prior, off0, addr, i)
        invariant f.ip.typ == T_DEV ==>
                    && bmap == old(bmap) && blk == old(blk) && owner == old(owner) && dinodes == old(dinodes)
                    && f.ip.Val() == old(f.ip.Val())
        invariant f.ip.typ != T_DEV ==>
                    && AllLogged(d0, txs) && AllHold(txs, f.ip.inum, prior, off0, addr)
                    && i == Reach(|addr|, |txs|) && Last(d0, txs) == Disk()
      {
        var n1 := |addr| - i;
        if n1 > CHUNK {
          n1 := CHUNK;
        }
        r := WriteChunk(f, addr, i, n1, driver, prior, off0);
        if !r.Count? {
          return;
        }
        if r.n != n1 {
          return Panic, written, txs;
        }
        i := i + n1;
        written := i;
        if f.ip.typ != T_DEV {
          ReachNext(|addr|, |txs|);
          LoopHolds(f, driver, prior, off0, addr, i);
          TxNext(d0, txs, Tx(Disk(), logged), f.ip.inum, prior, off0, addr);
          txs := txs + [Tx(Disk(), logged)];
        }
      }
      LoopDone(f, driver, prior, off0, addr);
      r := Count(|addr|);
    }

    lemma LoopHolds(f: OpenFile, driver: (nat, nat) -> int, prior: seq<int>, off0: nat, addr: seq<int>, i: nat)
      requires LoopAt(f, driver, prior, off0, addr, i) && 0 < i && f.ip.typ != T_DEV
      ensures i <= |addr| && HoldsAt(Disk(), f.ip.inum, prior, off0, addr[..i])
    {
      hide Owned, Used, Below, Bytes, Overwrite;
    }

    lemma LoopStart(f: OpenFile, driver: (nat, nat) -> int, addr: seq<int>) returns (prior: seq<int>)
      requires Valid(f.ip) && FileOK(f.ip) && dinodes[f.ip.inum] == f.ip.Val() && f.off < UINT
      ensures prior == Bytes(f.ip.Val(), blk) && LoopAt(f, driver, prior, f.off, addr, 0)
    {
      hide Owned, Used, Below, Taken;
      prior := Bytes(f.ip.Val(), blk);
    }

    lemma LoopDone(f: OpenFile, driver: (nat, nat) -> int, prior: seq<int>, off0: nat, addr: seq<int>)
      requires LoopAt(f, driver, prior, off0, addr, |addr|)
      ensures LoopEnd(f, driver, prior, off0, addr, |addr|, Count(|addr|))
    {
      hide Valid, FileOK, FileAt;
    }

    /** filewrite. Piped is the answer of pipewrite; driver(i, c) is what the device's write answers for
        the c bytes from byte i on, -1 if there is none. */
    method FileWrite(f: OpenFile, addr: seq<int>, driver: (nat, nat) -> int)
      returns (r: Outcome, ghost written: nat, ghost txs: seq<Tx>)
      requires f.kind == FD_INODE ==> Valid(f.ip) && FileOK(f.ip) && dinodes[f.ip.inum] == f.ip.Val()
      requires f.off < UINT && |addr| < UINT
      modifies this`bmap, this`blk, this`owner, this`logged, this`dinodes, f`off, f.ip`addrs, f.ip`size
      ensures !f.writable ==> r == Error && SameDisk(f.ip) && f.off == old(f.off)
      ensures f.writable && f.kind == FD_PIPE ==> r == Piped && SameDisk(f.ip) && f.off == old(f.off)
      ensures f.writable && f.kind == FD_NONE ==> r == Panic && SameDisk(f.ip) && f.off == old(f.off)
      ensures f.writable && f.kind == FD_INODE && f.ip.typ != T_DEV ==>
                && (r == Count(|addr|) || r == Error || r == Panic)
                && AllLogged(old(Disk()), txs) && AllHold(txs, f.ip.inum, old(Bytes(f.ip.Val(), blk)), old(f.off), addr)
                && written == Reach(|addr|, |txs|)
                && (if r == Panic then Logged(Last(old(Disk()), txs), Disk(), logged) else Last(old(Disk()), txs) == Disk())
                && (r == Panic ==> DiskFull())
                && (r == Count(|addr|) ==> written == |addr|)
                && (r == Error ==> written < |addr| && (old(f.off) > old(f.ip.size) || old(f.off) + |addr| > MAXFILE * BSIZE))
                && (r != Panic ==>
                      && written <= |addr| && Valid(f.ip) && FileOK(f.ip) && dinodes[f.ip.inum] == f.ip.Val()
                      && f.off == old(f.off) + written
                      && (written > 0 ==> old(f.off) <= old(f.ip.size)
                                          && Bytes(f.ip.Val(), blk) == Overwrite(old(Bytes(f.ip.Val(), blk)), old(f.off), addr[..written]))
                      && (written == 0 ==> Bytes(f.ip.Val(), blk) == old(Bytes(f.ip.Val(), blk))))
      ensures f.writable && f.kind == FD_INODE && f.ip.typ == T_DEV ==>
                && written == Taken(driver, |addr|, 0) && SameDisk(f.ip)
                && (if written == |addr| then r == Count(|addr|)
                    else r == if driver(written, Chunk(|addr|, written)) < 0 then Error else Panic)
                && (r != Panic ==> f.off == (old(f.off) + written) % UINT)
    {
      hide FileOK, DiskFull, Taken, Owned, Used, Below, Bytes, Overwrite, AllLogged, AllHold, Reach, Logged;
      if !f.writable {
        return Error, 0, [];
      }
      if f.kind == FD_PIPE {
        return Piped, 0, [];
      }
      if f.kind == FD_NONE {
        return Panic, 0, [];
      }
      r, written, txs := WriteChunks(f, addr, driver);
    }

    /** A chunk of at most three blocks' worth of bytes touches at most four file blocks. */
    lemma ChunkLog(ip: Inode, off: nat, n: nat)
      requires 0 < n <= 1536 && logged <= {} + WriteSet(ip, off, n)
      ensures |logged| <= 6 + |bmap|
    {
      hide Slot, FileSlot;
      var lo, hi := off / BSIZE, (off + n - 1) / BSIZE + 1;
      assert hi - lo <= 4;
      var a, b, c, d := Maps(|bmap|), {InodeBlock(ip.inum / IPB)}, Indirect(ip.Val(), blk), FileData(ip.Val(), blk, lo, hi);
      UnionCount(a, b);
      UnionCount(a + b, c);
      UnionCount(a + b + c, d);
      SubsetCount(logged, a + b + c + d);
    }
  }
}
