/** fs.c on values: which block holds what, who owns each block, and the bytes of a file. */
module FsSpec {
  import opened Words

  const BSIZE := 512
  const NDIRECT := 12
  const NINDIRECT := 128
  const MAXFILE := NDIRECT + NINDIRECT
  const NSLOT := MAXFILE + 1

  type Block = seq<int>

  /** addrs holds NDIRECT direct block numbers and the number of the indirect block; 0 is none. */
  datatype Dinode = Dinode(typ: int, nlink: int, size: nat, addrs: seq<int>)

  function Zero(): (z: Block)
    ensures |z| == BSIZE
  {
    seq(BSIZE, _ => 0)
  }

  /** The block numbers an inode refers to: slots 0..11 direct, 12 the indirect block,
      13.. the entries of the indirect block. */
  function Slot(ino: Dinode, blk: seq<Block>, s: int): int {
    if |ino.addrs| != NDIRECT + 1 || s < 0 then 0
    else if s <= NDIRECT then ino.addrs[s]
    else
      var ind := ino.addrs[NDIRECT];
      if 0 < ind < |blk| && |blk[ind]| == BSIZE && s < NSLOT then WordAt(blk[ind], s - NDIRECT - 1) else 0
  }

  /** The slot of the k-th block of a file. */
  function FileSlot(k: int): int {
    if k < NDIRECT then k else k + 1
  }

  predicate Shaped(inos: seq<Dinode>, blk: seq<Block>) {
    && (forall i :: 0 <= i < |inos| ==> |inos[i].addrs| == NDIRECT + 1)
    && (forall b :: 0 <= b < |blk| ==> |blk[b]| == BSIZE)
  }

  /** Every block an inode refers to is a data block owned by that slot alone. */
  ghost predicate Owned(inos: seq<Dinode>, blk: seq<Block>, owner: map<int, (int, int)>, nmeta: nat) {
    && Shaped(inos, blk)
    && (forall i, s :: 0 <= i < |inos| && 0 <= s < NSLOT && Slot(inos[i], blk, s) != 0 ==>
          Slot(inos[i], blk, s) in owner && owner[Slot(inos[i], blk, s)] == (i, s))
    && (forall b :: b in owner ==>
          0 < nmeta <= b < |blk| && 0 <= owner[b].0 < |inos| && 0 <= owner[b].1 < NSLOT
          && Slot(inos[owner[b].0], blk, owner[b].1) == b)
  }

  /** The k-th block of a file; a block that is not there reads as zeros. */
  function FileBlock(ino: Dinode, blk: seq<Block>, k: int): Block {
    var b := Slot(ino, blk, FileSlot(k));
    if 0 < b < |blk| then blk[b] else Zero()
  }

  function BlocksFor(size: nat): nat {
    (size + BSIZE - 1) / BSIZE
  }

  /** Exactly the first m blocks are there, and the indirect block iff it is needed. */
  predicate MapsFirst(ino: Dinode, blk: seq<Block>, m: int) {
    && (forall k :: 0 <= k < MAXFILE ==> (Slot(ino, blk, FileSlot(k)) != 0 <==> k < m))
    && (Slot(ino, blk, NDIRECT) != 0 <==> m > NDIRECT)
  }

  /** The file's contents. */
  function Bytes(ino: Dinode, blk: seq<Block>): (r: seq<int>)
    requires forall b :: 0 <= b < |blk| ==> |blk[b]| == BSIZE
    ensures |r| == ino.size
  {
    seq(ino.size, o requires 0 <= o < ino.size => FileBlock(ino, blk, o / BSIZE)[o % BSIZE])
  }

  // ---------- changing one block ----------

  /** A block that is nobody's indirect block can change without changing any slot. */
  lemma SlotStable(inos: seq<Dinode>, blk: seq<Block>, owner: map<int, (int, int)>, nmeta: nat, b: int, v: Block, i: int, s: int)
    requires Owned(inos, blk, owner, nmeta) && 0 <= b < |blk| && |v| == BSIZE
    requires b in owner ==> owner[b].1 != NDIRECT
    requires 0 <= i < |inos|
    ensures Slot(inos[i], blk[b := v], s) == Slot(inos[i], blk, s)
  {
    assert Slot(inos[i], blk, NDIRECT) == inos[i].addrs[NDIRECT];
  }

  lemma OwnedStable(inos: seq<Dinode>, blk: seq<Block>, owner: map<int, (int, int)>, nmeta: nat, b: int, v: Block)
    requires Owned(inos, blk, owner, nmeta) && 0 <= b < |blk| && |v| == BSIZE
    requires b in owner ==> owner[b].1 != NDIRECT
    ensures Owned(inos, blk[b := v], owner, nmeta)
    ensures forall i, s :: 0 <= i < |inos| ==> Slot(inos[i], blk[b := v], s) == Slot(inos[i], blk, s)
  {
    var blk' := blk[b := v];
    forall i, s | 0 <= i < |inos| ensures Slot(inos[i], blk', s) == Slot(inos[i], blk, s) {
      SlotStable(inos, blk, owner, nmeta, b, v, i, s);
    }
    hide Slot;
    assert Shaped(inos, blk');
    forall c | c in owner ensures Slot(inos[owner[c].0], blk', owner[c].1) == c {
    }
  }

  // ---------- giving a fresh block to a slot ----------

  /** A free block goes to an empty direct or indirect slot of inode i. */
  lemma GiveDirect(inos: seq<Dinode>, blk: seq<Block>, owner: map<int, (int, int)>, nmeta: nat, i: int, s: int, b: int)
    requires Owned(inos, blk, owner, nmeta) && 0 <= i < |inos| && 0 <= s <= NDIRECT && Slot(inos[i], blk, s) == 0
    requires 0 < nmeta <= b < |blk| && b !in owner && blk[b] == Zero()
    ensures var inos' := inos[i := inos[i].(addrs := inos[i].addrs[s := b])];
            && Owned(inos', blk, owner[b := (i, s)], nmeta)
            && forall t :: 0 <= t < NSLOT ==> Slot(inos'[i], blk, t) == if t == s then b else Slot(inos[i], blk, t)
  {
    var ino := inos[i].(addrs := inos[i].addrs[s := b]);
    forall t | 0 <= t < NSLOT ensures Slot(ino, blk, t) == if t == s then b else Slot(inos[i], blk, t) {
      if s == NDIRECT < t {
        ZeroWords(t - NDIRECT - 1);
      }
    }
    hide Slot;
  }

  lemma ZeroWords(k: nat)
    requires k < NINDIRECT
    ensures WordAt(Zero(), k) == 0
  {
  }

  /** A free block goes to an empty entry of inode i's indirect block. */
  lemma GiveEntry(inos: seq<Dinode>, blk: seq<Block>, owner: map<int, (int, int)>, nmeta: nat, i: int, s: int, b: int)
    requires Owned(inos, blk, owner, nmeta) && 0 <= i < |inos| && NDIRECT < s < NSLOT && Slot(inos[i], blk, s) == 0
    requires 0 < nmeta <= b < |blk| && b !in owner
    requires Slot(inos[i], blk, NDIRECT) != 0
    ensures var ind := inos[i].addrs[NDIRECT];
            && 0 < ind < |blk| && ind != b
            && var blk' := blk[ind := SetWord(blk[ind], s - NDIRECT - 1, b)];
            && Owned(inos, blk', owner[b := (i, s)], nmeta)
            && (forall j, t :: 0 <= j < |inos| && 0 <= t < NSLOT ==>
                  Slot(inos[j], blk', t) == if j == i && t == s then b else Slot(inos[j], blk, t))
  {
    var ind := inos[i].addrs[NDIRECT];
    assert owner[ind] == (i, NDIRECT);
    var blk' := blk[ind := SetWord(blk[ind], s - NDIRECT - 1, b)];
    forall j, t | 0 <= j < |inos| && 0 <= t < NSLOT
      ensures Slot(inos[j], blk', t) == if j == i && t == s then b else Slot(inos[j], blk, t)
    {
      if inos[j].addrs[NDIRECT] == ind {
        assert Slot(inos[j], blk, NDIRECT) == ind;
        assert j == i;
        if t > NDIRECT {
          SetWordAt(blk[ind], s - NDIRECT - 1, b, t - NDIRECT - 1);
        }
      }
    }
    hide Slot;
  }

  // ---------- taking all blocks of an inode away ----------

  /** With all its addresses cleared, inode i owns nothing and the others what they owned. */
  lemma Cleared(inos: seq<Dinode>, blk: seq<Block>, owner: map<int, (int, int)>, nmeta: nat, i: int, ino: Dinode)
    requires Owned(inos, blk, owner, nmeta) && 0 <= i < |inos|
    requires ino.addrs == seq(NDIRECT + 1, _ => 0)
    ensures Owned(inos[i := ino], blk, map b | b in owner && owner[b].0 != i :: owner[b], nmeta)
    ensures forall s :: Slot(ino, blk, s) == 0
  {
    assert forall s :: Slot(ino, blk, s) == 0;
    hide Slot;
  }

  lemma FileSlotRange(k: int)
    requires 0 <= k < MAXFILE
    ensures 0 <= FileSlot(k) < NSLOT && FileSlot(k) != NDIRECT
  {
  }

  // ---------- allocation as seen by files ----------

  /** Inode i may have gained blocks in the slots of `gained`; no file's contents and no
      other slot changed. */
  ghost predicate Grown(inos: seq<Dinode>, blk: seq<Block>, inos': seq<Dinode>, blk': seq<Block>, i: int, gained: set<int>) {
    && |inos'| == |inos| && |blk'| == |blk| && 0 <= i < |inos|
    && (forall j :: 0 <= j < |inos| && j != i ==> inos'[j] == inos[j])
    && inos'[i].(addrs := []) == inos[i].(addrs := [])
    && (forall j, t {:trigger Slot(inos'[j], blk', t)} {:trigger Slot(inos[j], blk, t)} ::
          0 <= j < |inos| && 0 <= t < NSLOT ==>
          Slot(inos'[j], blk', t) == Slot(inos[j], blk, t)
          || (j == i && t in gained && Slot(inos[j], blk, t) == 0))
    && (forall t :: t in gained && 0 <= t < NSLOT ==> Slot(inos'[i], blk', t) != 0)
    && (forall j, k :: 0 <= j < |inos| && 0 <= k < MAXFILE ==> FileBlock(inos'[j], blk', k) == FileBlock(inos[j], blk, k))
  }

  lemma GrownTwice(inos: seq<Dinode>, blk: seq<Block>, inos1: seq<Dinode>, blk1: seq<Block>,
                   inos2: seq<Dinode>, blk2: seq<Block>, i: int, s: int, t: int)
    requires Grown(inos, blk, inos1, blk1, i, {s}) && Grown(inos1, blk1, inos2, blk2, i, {t}) && s != t
    ensures Grown(inos, blk, inos2, blk2, i, {s, t})
  {
    hide Slot, FileBlock;
    forall j, u | 0 <= j < |inos| && 0 <= u < NSLOT
      ensures Slot(inos2[j], blk2, u) == Slot(inos[j], blk, u) || (j == i && u in {s, t} && Slot(inos[j], blk, u) == 0)
    {
      assert Slot(inos1[j], blk1, u) == Slot(inos[j], blk, u) || (j == i && u == s && Slot(inos[j], blk, u) == 0);
    }
    forall j, k | 0 <= j < |inos| && 0 <= k < MAXFILE ensures FileBlock(inos2[j], blk2, k) == FileBlock(inos[j], blk, k) {
      assert FileBlock(inos1[j], blk1, k) == FileBlock(inos[j], blk, k);
    }
  }

  /** The slots that kept their block read as before if none of the changed blocks is theirs. */
  lemma SameFileBlock(inos: seq<Dinode>, blk: seq<Block>, owner: map<int, (int, int)>, nmeta: nat,
                      ino': Dinode, blk': seq<Block>, j: int, k: int, b: int, ind: int)
    requires Owned(inos, blk, owner, nmeta) && 0 <= j < |inos| && 0 <= k < MAXFILE && |blk'| == |blk|
    requires forall c :: 0 <= c < |blk| && c != b && c != ind ==> blk'[c] == blk[c]
    requires 0 < b < |blk| && b !in owner && blk'[b] == Zero()
    requires ind == 0 || (ind in owner && owner[ind].1 == NDIRECT)
    requires Slot(ino', blk', FileSlot(k)) == Slot(inos[j], blk, FileSlot(k))
             || (Slot(ino', blk', FileSlot(k)) == b && Slot(inos[j], blk, FileSlot(k)) == 0)
    ensures FileBlock(ino', blk', k) == FileBlock(inos[j], blk, k)
  {
    hide Slot;
    FileSlotRange(k);
    var c := Slot(inos[j], blk, FileSlot(k));
    if c != 0 {
      assert c in owner && owner[c] == (j, FileSlot(k));
    }
  }

  lemma AllocDirect(inos: seq<Dinode>, blk: seq<Block>, owner: map<int, (int, int)>, nmeta: nat, i: int, s: int, b: int)
    requires Owned(inos, blk, owner, nmeta) && 0 <= i < |inos| && 0 <= s <= NDIRECT && Slot(inos[i], blk, s) == 0
    requires 0 < nmeta <= b < |blk| && b !in owner
    ensures var inos', blk' := inos[i := inos[i].(addrs := inos[i].addrs[s := b])], blk[b := Zero()];
            && Owned(inos', blk', owner[b := (i, s)], nmeta)
            && Grown(inos, blk, inos', blk', i, {s})
            && Slot(inos'[i], blk', s) == b
  {
    hide Slot, FileBlock;
    var inos', blk' := inos[i := inos[i].(addrs := inos[i].addrs[s := b])], blk[b := Zero()];
    OwnedStable(inos, blk, owner, nmeta, b, Zero());
    GiveDirect(inos, blk', owner, nmeta, i, s, b);
    forall j, k | 0 <= j < |inos| && 0 <= k < MAXFILE ensures FileBlock(inos'[j], blk', k) == FileBlock(inos[j], blk, k) {
      FileSlotRange(k);
      SameFileBlock(inos, blk, owner, nmeta, inos'[j], blk', j, k, b, 0);
    }
  }

  lemma AllocEntry(inos: seq<Dinode>, blk: seq<Block>, owner: map<int, (int, int)>, nmeta: nat, i: int, s: int, b: int)
    requires Owned(inos, blk, owner, nmeta) && 0 <= i < |inos| && NDIRECT < s < NSLOT && Slot(inos[i], blk, s) == 0
    requires 0 < nmeta <= b < |blk| && b !in owner && Slot(inos[i], blk, NDIRECT) != 0
    ensures var ind := inos[i].addrs[NDIRECT];
            && 0 < ind < |blk| && ind != b && |blk[ind]| == BSIZE
            && var blk' := blk[b := Zero()][ind := SetWord(blk[ind], s - NDIRECT - 1, b)];
            && Owned(inos, blk', owner[b := (i, s)], nmeta)
            && Grown(inos, blk, inos, blk', i, {s})
            && Slot(inos[i], blk', s) == b
  {
    var ind := inos[i].addrs[NDIRECT];
    assert Slot(inos[i], blk, NDIRECT) == ind;
    hide Slot, FileBlock;
    assert ind in owner && owner[ind] == (i, NDIRECT);
    var blk1 := blk[b := Zero()];
    OwnedStable(inos, blk, owner, nmeta, b, Zero());
    GiveEntry(inos, blk1, owner, nmeta, i, s, b);
    var blk' := blk1[ind := SetWord(blk[ind], s - NDIRECT - 1, b)];
    forall j, k | 0 <= j < |inos| && 0 <= k < MAXFILE ensures FileBlock(inos[j], blk', k) == FileBlock(inos[j], blk, k) {
      FileSlotRange(k);
      SameFileBlock(inos, blk, owner, nmeta, inos[j], blk', j, k, b, ind);
    }
  }

  // ---------- freeing, in itrunc's order: files blocks first, the indirect block last ----------

  function FreeOrder(s: int): int {
    if s < NDIRECT then s else if s == NDIRECT then MAXFILE else s - 1
  }

  /** The blocks of inode i that itrunc has freed after k slots. */
  ghost function FreedBy(owner: map<int, (int, int)>, i: int, k: int): set<int> {
    set b | b in owner && owner[b].0 == i && FreeOrder(owner[b].1) < k
  }

  lemma FreedNext(inos: seq<Dinode>, blk: seq<Block>, owner: map<int, (int, int)>, nmeta: nat, i: int, s: int)
    requires Owned(inos, blk, owner, nmeta) && 0 <= i < |inos| && 0 <= s < NSLOT
    ensures var c, k := Slot(inos[i], blk, s), FreeOrder(s);
            && FreedBy(owner, i, k + 1) == FreedBy(owner, i, k) + (if c != 0 then {c} else {})
            && (c != 0 ==> c in owner && c !in FreedBy(owner, i, k) && nmeta <= c < |blk|)
  {
    hide Slot;
    var c, k := Slot(inos[i], blk, s), FreeOrder(s);
    forall b | b in FreedBy(owner, i, k + 1) && b !in FreedBy(owner, i, k) ensures b == c {
      assert owner[b] == (i, s);
    }
  }

  /** An inode without an indirect block has no entries to free. */
  lemma FreedNoIndirect(inos: seq<Dinode>, blk: seq<Block>, owner: map<int, (int, int)>, nmeta: nat, i: int)
    requires Owned(inos, blk, owner, nmeta) && 0 <= i < |inos| && inos[i].addrs[NDIRECT] == 0
    ensures FreedBy(owner, i, NSLOT) == FreedBy(owner, i, NDIRECT)
  {
    forall b | b in owner && owner[b].0 == i ensures 0 <= FreeOrder(owner[b].1) < NDIRECT {
      assert Slot(inos[i], blk, owner[b].1) == b;
    }
    hide Slot, FreeOrder, Owned;
    assert forall b :: b in FreedBy(owner, i, NSLOT) <==> b in FreedBy(owner, i, NDIRECT);
  }

  lemma FreedAll(inos: seq<Dinode>, blk: seq<Block>, owner: map<int, (int, int)>, nmeta: nat, i: int)
    requires Owned(inos, blk, owner, nmeta)
    ensures FreedBy(owner, i, NSLOT) == set b | b in owner && owner[b].0 == i
  {
    hide Slot;
    forall b | b in owner ensures FreeOrder(owner[b].1) < NSLOT {
    }
  }

  // ---------- writing into a file's block ----------

  function Patched(b: Block, lo: nat, data: seq<int>): (r: Block)
    requires lo + |data| <= |b|
    ensures |r| == |b|
    ensures forall o :: 0 <= o < |b| ==> r[o] == if lo <= o < lo + |data| then data[o - lo] else b[o]
  {
    b[..lo] + data + b[lo + |data|..]
  }

  lemma PatchFile(inos: seq<Dinode>, blk: seq<Block>, owner: map<int, (int, int)>, nmeta: nat, i: int, k: int, lo: nat, data: seq<int>)
    requires Owned(inos, blk, owner, nmeta) && 0 <= i < |inos| && 0 <= k < MAXFILE && lo + |data| <= BSIZE
    requires Slot(inos[i], blk, FileSlot(k)) != 0
    ensures var a := Slot(inos[i], blk, FileSlot(k));
            && 0 < a < |blk| && |blk[a]| == BSIZE
            && var blk' := blk[a := Patched(blk[a], lo, data)];
            && Owned(inos, blk', owner, nmeta)
            && (forall j, s {:trigger Slot(inos[j], blk', s)} :: 0 <= j < |inos| ==> Slot(inos[j], blk', s) == Slot(inos[j], blk, s))
            && (forall j, l :: 0 <= j < |inos| && 0 <= l < MAXFILE ==>
                  FileBlock(inos[j], blk', l) == if j == i && l == k then Patched(blk[a], lo, data) else FileBlock(inos[j], blk, l))
            && FileBlock(inos[i], blk, k) == blk[a]
  {
    hide Slot;
    FileSlotRange(k);
    var a := Slot(inos[i], blk, FileSlot(k));
    assert owner[a] == (i, FileSlot(k));
    var v := Patched(blk[a], lo, data);
    OwnedStable(inos, blk, owner, nmeta, a, v);
    var blk' := blk[a := v];
    forall j, l | 0 <= j < |inos| && 0 <= l < MAXFILE
      ensures FileBlock(inos[j], blk', l) == if j == i && l == k then v else FileBlock(inos[j], blk, l)
    {
      FileSlotRange(l);
      var c := Slot(inos[j], blk, FileSlot(l));
      assert Slot(inos[j], blk', FileSlot(l)) == c;
      if c == a {
        assert owner[c] == (j, FileSlot(l));
      }
    }
  }

  /** Byte p of the file, whether or not it is below the file's size. */
  function Raw(ino: Dinode, blk: seq<Block>, p: int): int {
    var b := FileBlock(ino, blk, p / BSIZE);
    if |b| == BSIZE then b[p % BSIZE] else 0
  }

  /** ino reads as ino0 did, except that data stands at off. */
  ghost predicate Overlaid(ino0: Dinode, blk0: seq<Block>, ino: Dinode, blk: seq<Block>, off: int, data: seq<int>) {
    forall p :: 0 <= p < MAXFILE * BSIZE ==>
      Raw(ino, blk, p) == if off <= p < off + |data| then data[p - off] else Raw(ino0, blk0, p)
  }

  /** The contents a write leaves: data over the old contents at off, extending them if needed. */
  function Overwrite(prior: seq<int>, off: nat, data: seq<int>): seq<int>
    requires off <= |prior|
  {
    prior[..off] + data + if off + |data| <= |prior| then prior[off + |data|..] else []
  }

  lemma OverlaidBytes(ino0: Dinode, blk0: seq<Block>, ino: Dinode, blk: seq<Block>, off: nat, data: seq<int>)
    requires (forall b :: 0 <= b < |blk| ==> |blk[b]| == BSIZE) && (forall b :: 0 <= b < |blk0| ==> |blk0[b]| == BSIZE)
    requires Overlaid(ino0, blk0, ino, blk, off, data) && off <= ino0.size
    requires ino.size == if off + |data| > ino0.size then off + |data| else ino0.size
    requires ino.size <= MAXFILE * BSIZE
    ensures Bytes(ino, blk) == Overwrite(Bytes(ino0, blk0), off, data)
  {
    hide FileBlock;
    var new_, want := Bytes(ino, blk), Overwrite(Bytes(ino0, blk0), off, data);
    assert |new_| == |want|;
    forall p | 0 <= p < |new_| ensures new_[p] == want[p] {
      assert new_[p] == Raw(ino, blk, p) by { FileBlockSize(ino, blk, p / BSIZE); }
      if p < ino0.size {
        assert Bytes(ino0, blk0)[p] == Raw(ino0, blk0, p) by { FileBlockSize(ino0, blk0, p / BSIZE); }
      }
    }
  }

  lemma FileBlockSize(ino: Dinode, blk: seq<Block>, k: int)
    requires forall b :: 0 <= b < |blk| ==> |blk[b]| == BSIZE
    ensures |FileBlock(ino, blk, k)| == BSIZE
  {
  }

  lemma SameBytes(ino0: Dinode, blk0: seq<Block>, ino: Dinode, blk: seq<Block>)
    requires (forall b :: 0 <= b < |blk| ==> |blk[b]| == BSIZE) && (forall b :: 0 <= b < |blk0| ==> |blk0[b]| == BSIZE)
    requires ino.size == ino0.size <= MAXFILE * BSIZE
    requires forall k :: 0 <= k < MAXFILE ==> FileBlock(ino, blk, k) == FileBlock(ino0, blk0, k)
    ensures Bytes(ino, blk) == Bytes(ino0, blk0)
  {
    hide FileBlock;
    forall p | 0 <= p < ino.size ensures Bytes(ino, blk)[p] == Bytes(ino0, blk0)[p] {
      assert 0 <= p / BSIZE < MAXFILE;
    }
  }

  /** A read inside one block. */
  lemma ReadSlice(ino: Dinode, blk: seq<Block>, off: nat, m: nat)
    requires forall b :: 0 <= b < |blk| ==> |blk[b]| == BSIZE
    requires off % BSIZE + m <= BSIZE && off + m <= ino.size
    ensures |FileBlock(ino, blk, off / BSIZE)| == BSIZE
    ensures FileBlock(ino, blk, off / BSIZE)[off % BSIZE..off % BSIZE + m] == Bytes(ino, blk)[off..off + m]
  {
    hide FileBlock;
    FileBlockSize(ino, blk, off / BSIZE);
    var x, y := FileBlock(ino, blk, off / BSIZE)[off % BSIZE..off % BSIZE + m], Bytes(ino, blk)[off..off + m];
    forall q | 0 <= q < m ensures x[q] == y[q] {
      assert (off + q) / BSIZE == off / BSIZE && (off + q) % BSIZE == off % BSIZE + q;
    }
  }

  // ---------- a write, block by block ----------

  lemma GrownMaps(inos: seq<Dinode>, blk: seq<Block>, inos': seq<Dinode>, blk': seq<Block>, i: int, gained: set<int>, m: int, k: int)
    requires Grown(inos, blk, inos', blk', i, gained) && 0 <= k <= m && k < MAXFILE && MapsFirst(inos[i], blk, m)
    requires gained <= {FileSlot(k)} + if k >= NDIRECT then {NDIRECT} else {}
    requires Slot(inos'[i], blk', FileSlot(k)) != 0 && (k >= NDIRECT ==> Slot(inos'[i], blk', NDIRECT) != 0)
    ensures MapsFirst(inos'[i], blk', if k < m then m else k + 1)
  {
    hide Slot, FileBlock;
    var m' := if k < m then m else k + 1;
    forall l | 0 <= l < MAXFILE ensures Slot(inos'[i], blk', FileSlot(l)) != 0 <==> l < m' {
      FileSlotRange(l);
      assert Slot(inos[i], blk, FileSlot(l)) != 0 <==> l < m;
      assert FileSlot(l) in gained ==> l == k;
    }
    assert Slot(inos[i], blk, NDIRECT) != 0 <==> m > NDIRECT;
    assert NDIRECT in gained ==> k >= NDIRECT;
  }

  ghost predicate OthersSame(inos: seq<Dinode>, blk: seq<Block>, inos': seq<Dinode>, blk': seq<Block>, i: int) {
    && |inos'| == |inos|
    && (forall j :: 0 <= j < |inos| && j != i ==> inos'[j] == inos[j])
    && (forall j, k {:trigger FileBlock(inos[j], blk', k)} {:trigger FileBlock(inos[j], blk, k)} ::
          0 <= j < |inos| && j != i && 0 <= k < MAXFILE ==> FileBlock(inos[j], blk', k) == FileBlock(inos[j], blk, k))
    && (forall j, s {:trigger Slot(inos[j], blk', s)} {:trigger Slot(inos[j], blk, s)} ::
          0 <= j < |inos| && j != i && 0 <= s < NSLOT ==> Slot(inos[j], blk', s) == Slot(inos[j], blk, s))
  }

  /** The blocks of inode i stay where they are. */
  ghost predicate SlotsKept(ino: Dinode, blk: seq<Block>, ino': Dinode, blk': seq<Block>) {
    forall s :: 0 <= s < NSLOT && Slot(ino, blk, s) != 0 ==> Slot(ino', blk', s) == Slot(ino, blk, s)
  }

  /** bmap then memmove: what one round of writei does. */
  lemma RoundEffect(inos: seq<Dinode>, blk: seq<Block>, inos': seq<Dinode>, blk1: seq<Block>, owner: map<int, (int, int)>, nmeta: nat,
                    i: int, gained: set<int>, m: int, k: int, lo: nat, data: seq<int>)
    requires Grown(inos, blk, inos', blk1, i, gained) && 0 <= k <= m && k < MAXFILE && MapsFirst(inos[i], blk, m)
    requires gained <= {FileSlot(k)} + if k >= NDIRECT then {NDIRECT} else {}
    requires Owned(inos', blk1, owner, nmeta) && Slot(inos'[i], blk1, FileSlot(k)) != 0
    requires k >= NDIRECT ==> Slot(inos'[i], blk1, NDIRECT) != 0
    requires lo + |data| <= BSIZE && forall b :: 0 <= b < |blk| ==> |blk[b]| == BSIZE
    ensures var a := Slot(inos'[i], blk1, FileSlot(k));
            && 0 < a < |blk1| && |blk1[a]| == BSIZE
            && var blk' := blk1[a := Patched(blk1[a], lo, data)];
            && Owned(inos', blk', owner, nmeta)
            && MapsFirst(inos'[i], blk', if k < m then m else k + 1)
            && OthersSame(inos, blk, inos', blk', i)
            && SlotsKept(inos[i], blk, inos'[i], blk')
            && Slot(inos'[i], blk', FileSlot(k)) == a
            && Slot(inos'[i], blk', NDIRECT) == Slot(inos'[i], blk1, NDIRECT)
            && Overlaid(inos[i], blk, inos'[i], blk', k * BSIZE + lo, data)
  {
    hide Slot, FileBlock, Owned;
    PatchFile(inos', blk1, owner, nmeta, i, k, lo, data);
    var a := Slot(inos'[i], blk1, FileSlot(k));
    var blk' := blk1[a := Patched(blk1[a], lo, data)];
    GrownMaps(inos, blk, inos', blk1, i, gained, m, k);
    assert MapsFirst(inos'[i], blk', if k < m then m else k + 1) by {
      assert forall l :: 0 <= l < MAXFILE ==> Slot(inos'[i], blk', FileSlot(l)) == Slot(inos'[i], blk1, FileSlot(l));
      assert Slot(inos'[i], blk', NDIRECT) == Slot(inos'[i], blk1, NDIRECT);
    }
    OverlayPart(inos[i], blk, inos'[i], blk', k, lo, data);
  }

  lemma OverlayPart(ino0: Dinode, blk0: seq<Block>, ino: Dinode, blk: seq<Block>, k: int, lo: nat, data: seq<int>)
    requires 0 <= k < MAXFILE && lo + |data| <= BSIZE && forall b :: 0 <= b < |blk0| ==> |blk0[b]| == BSIZE
    requires |FileBlock(ino0, blk0, k)| == BSIZE && FileBlock(ino, blk, k) == Patched(FileBlock(ino0, blk0, k), lo, data)
    requires forall l :: 0 <= l < MAXFILE && l != k ==> FileBlock(ino, blk, l) == FileBlock(ino0, blk0, l)
    ensures Overlaid(ino0, blk0, ino, blk, k * BSIZE + lo, data)
  {
    hide FileBlock;
    var off := k * BSIZE + lo;
    forall p | 0 <= p < MAXFILE * BSIZE
      ensures Raw(ino, blk, p) == if off <= p < off + |data| then data[p - off] else Raw(ino0, blk0, p)
    {
      var l, o := p / BSIZE, p % BSIZE;
      assert 0 <= l < MAXFILE;
      FileBlockSize(ino0, blk0, l);
    }
  }

  lemma OverlaidMore(ino0: Dinode, blk0: seq<Block>, ino1: Dinode, blk1: seq<Block>, ino2: Dinode, blk2: seq<Block>,
                     off: int, a: seq<int>, b: seq<int>)
    requires Overlaid(ino0, blk0, ino1, blk1, off, a) && Overlaid(ino1, blk1, ino2, blk2, off + |a|, b)
    ensures Overlaid(ino0, blk0, ino2, blk2, off, a + b)
  {
    hide Raw;
  }

  lemma OthersTwice(inos: seq<Dinode>, blk: seq<Block>, inos1: seq<Dinode>, blk1: seq<Block>, inos2: seq<Dinode>, blk2: seq<Block>, i: int)
    requires OthersSame(inos, blk, inos1, blk1, i) && OthersSame(inos1, blk1, inos2, blk2, i)
    ensures OthersSame(inos, blk, inos2, blk2, i)
  {
    hide FileBlock;
    forall j, k | 0 <= j < |inos| && j != i && 0 <= k < MAXFILE
      ensures FileBlock(inos[j], blk2, k) == FileBlock(inos[j], blk, k)
    {
      assert inos1[j] == inos[j] && FileBlock(inos[j], blk1, k) == FileBlock(inos[j], blk, k);
    }
    hide Slot;
    forall j, s | 0 <= j < |inos| && j != i && 0 <= s < NSLOT ensures Slot(inos[j], blk2, s) == Slot(inos[j], blk, s) {
      assert inos1[j] == inos[j] && Slot(inos[j], blk1, s) == Slot(inos[j], blk, s);
    }
  }

  // ---------- all files ----------

  /** In every file block k is there iff k < ceil(size/BSIZE). */
  ghost predicate FilesOK(inos: seq<Dinode>, blk: seq<Block>) {
    forall j :: 0 <= j < |inos| ==> inos[j].size <= MAXFILE * BSIZE && MapsFirst(inos[j], blk, BlocksFor(inos[j].size))
  }

  lemma FilesKept(inos: seq<Dinode>, blk: seq<Block>, inos': seq<Dinode>, blk': seq<Block>, i: int)
    requires FilesOK(inos, blk) && OthersSame(inos, blk, inos', blk', i) && 0 <= i < |inos|
    requires inos'[i].size <= MAXFILE * BSIZE && MapsFirst(inos'[i], blk', BlocksFor(inos'[i].size))
    ensures FilesOK(inos', blk')
  {
    hide Slot, FileBlock;
    forall j | 0 <= j < |inos| && j != i ensures MapsFirst(inos'[j], blk', BlocksFor(inos'[j].size)) {
      var m := BlocksFor(inos[j].size);
      assert MapsFirst(inos[j], blk, m);
      forall k | 0 <= k < MAXFILE ensures Slot(inos[j], blk', FileSlot(k)) != 0 <==> k < m {
        FileSlotRange(k);
      }
      assert Slot(inos[j], blk', NDIRECT) == Slot(inos[j], blk, NDIRECT);
    }
  }

  /** A write to one file leaves the contents of all others alone. */
  lemma OtherBytes(inos: seq<Dinode>, blk: seq<Block>, inos': seq<Dinode>, blk': seq<Block>, i: int, j: int)
    requires Shaped(inos, blk) && Shaped(inos', blk') && OthersSame(inos, blk, inos', blk', i)
    requires 0 <= j < |inos| && j != i && inos[j].size <= MAXFILE * BSIZE
    ensures inos'[j] == inos[j] && Bytes(inos'[j], blk') == Bytes(inos[j], blk)
  {
    hide FileBlock, Slot;
    SameBytes(inos[j], blk, inos'[j], blk');
  }

  /** What has been written is what is read back, and writes elsewhere are not disturbed. */
  lemma ReadOwnWrite(prior: seq<int>, off: nat, data: seq<int>)
    requires off <= |prior|
    ensures Overwrite(prior, off, data)[off..off + |data|] == data
    ensures Overwrite(prior, off, data)[..off] == prior[..off]
    ensures |Overwrite(prior, off, data)| == if off + |data| > |prior| then off + |data| else |prior|
    ensures off + |data| <= |prior| ==> Overwrite(prior, off, data)[off + |data|..] == prior[off + |data|..]
  {
  }

  /** Writing a then b behind it is writing a + b. */
  lemma OverwriteTwice(prior: seq<int>, off: nat, a: seq<int>, b: seq<int>)
    requires off <= |prior|
    ensures off + |a| <= |Overwrite(prior, off, a)|
    ensures Overwrite(Overwrite(prior, off, a), off + |a|, b) == Overwrite(prior, off, a + b)
  {
    var mid := Overwrite(prior, off, a);
    var x, y := Overwrite(mid, off + |a|, b), Overwrite(prior, off, a + b);
    assert |x| == |y|;
    forall p | 0 <= p < |x| ensures x[p] == y[p] {
    }
  }
}
