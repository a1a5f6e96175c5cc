/** Two-level page tables (mmu.h, vm.c) over physical pages, as values. Pages, physical and
    virtual, are named by their number: the address divided by the page size. */
module VmSpec {
  import opened Sets

  const PGSIZE := 4096
  const NPDENTRIES := 1024
  const NPTENTRIES := 1024
  const PAGE_WORDS := 1024       // four-byte words in a page
  const USER_PAGES := 0x80000    // KERNBASE / PGSIZE
  const ALL_PAGES := 0x100000    // 2^32 / PGSIZE

  const PTE_P := 1
  const PTE_W := 2
  const PTE_U := 4

  /** Contents of the pages that kalloc hands out. */
  type Memory = map<int, seq<int>>

  predicate Present(w: int) {
    w % 2 == 1
  }

  function Frame(w: int): int {
    w / PGSIZE
  }

  function Flags(w: int): int {
    w % PGSIZE
  }

  /** `pa | perm | PTE_P` for page number p. */
  function Pte(p: int, perm: int): int {
    p * PGSIZE + if perm % 2 == 1 then perm else perm + PTE_P
  }

  lemma PageParts(p: int, r: int)
    requires 0 <= r < PGSIZE
    ensures (p * PGSIZE + r) / PGSIZE == p && (p * PGSIZE + r) % PGSIZE == r
  {
  }

  lemma EvenPart(x: int, r: int)
    ensures (2 * x + r) % 2 == r % 2
  {
  }

  lemma PteParts(p: int, perm: int)
    requires 0 <= perm < PGSIZE
    ensures Present(Pte(p, perm)) && Frame(Pte(p, perm)) == p
    ensures Flags(Pte(p, perm)) == if perm % 2 == 1 then perm else perm + PTE_P
  {
    var r := if perm % 2 == 1 then perm else perm + PTE_P;
    assert r < PGSIZE && r % 2 == 1;
    PageParts(p, r);
    EvenPart(p * 2048, r);
    assert Pte(p, perm) == 2 * (p * 2048) + r;
  }

  predicate Pages(mem: Memory) {
    0 !in mem && forall p :: p in mem ==> |mem[p]| == PAGE_WORDS
  }

  /** The word the hardware finds for virtual page v: the flat view of a directory. */
  function Entry(mem: Memory, d: int, v: int): int {
    if d in mem && 0 <= v < ALL_PAGES && |mem[d]| == PAGE_WORDS then
      var pde := mem[d][v / NPTENTRIES];
      if Present(pde) && Frame(pde) in mem && |mem[Frame(pde)]| == PAGE_WORDS then mem[Frame(pde)][v % NPTENTRIES]
      else 0
    else 0
  }

  /** What a page is for in an address space. */
  datatype Use = Directory | Table(i: int) | Data(v: int)

  ghost predicate UsedAs(mem: Memory, d: int, p: int, u: Use) {
    match u
    case Directory => p == d
    case Table(i) => d in mem && 0 <= i < NPDENTRIES <= |mem[d]| && Present(mem[d][i]) && Frame(mem[d][i]) == p
    case Data(v) => 0 <= v < USER_PAGES && Present(Entry(mem, d, v)) && Frame(Entry(mem, d, v)) == p
  }

  /** own lists each page of the address space under d once, with its one use: the directory,
      the tables and the pages mapped below KERNBASE. */
  ghost predicate Tree(mem: Memory, d: int, own: map<int, Use>) {
    && Pages(mem) && d in own && d in mem && own[d] == Directory
    && (forall p :: p in own ==> p in mem && UsedAs(mem, d, p, own[p]))
    && (forall i :: 0 <= i < NPDENTRIES && Present(mem[d][i]) ==> Frame(mem[d][i]) in own && own[Frame(mem[d][i])] == Table(i))
    && (forall v :: 0 <= v < USER_PAGES && Present(Entry(mem, d, v)) ==>
          Frame(Entry(mem, d, v)) in own && own[Frame(Entry(mem, d, v))] == Data(v))
  }

  /** The same flat view. */
  ghost predicate SameView(mem: Memory, mem': Memory, d: int) {
    forall v :: Entry(mem', d, v) == Entry(mem, d, v)
  }

  /** Only the directory and the tables decide the view. */
  lemma Agree(mem: Memory, mem': Memory, d: int, own: map<int, Use>)
    requires Tree(mem, d, own) && Pages(mem') && mem'.Keys == mem.Keys
    requires forall p :: p in own && !own[p].Data? ==> mem'[p] == mem[p]
    ensures SameView(mem, mem', d) && Tree(mem', d, own)
  {
    forall v ensures Entry(mem', d, v) == Entry(mem, d, v) {
      hide Present, Frame;
      if 0 <= v < ALL_PAGES {
        var pde := mem[d][v / NPTENTRIES];
        assert Present(pde) ==> own[Frame(pde)] == Table(v / NPTENTRIES);
      }
    }
    hide Present, Frame, Entry;
  }

  function Filled(w: int): (page: seq<int>)
    ensures |page| == PAGE_WORDS && forall i :: 0 <= i < |page| ==> page[i] == w
  {
    seq(PAGE_WORDS, i => w)
  }

  /** walkpgdir adds a table of zeros: the view stays. */
  lemma AddTable(mem: Memory, d: int, own: map<int, Use>, i: int, t: int)
    requires Tree(mem, d, own) && 0 <= i < NPDENTRIES && !Present(mem[d][i]) && t in mem && t !in own
    ensures var mem' := mem[t := Filled(0)][d := mem[d][i := Pte(t, PTE_P + PTE_W + PTE_U)]];
            SameView(mem, mem', d) && Tree(mem', d, own[t := Table(i)])
  {
    var pde := Pte(t, PTE_P + PTE_W + PTE_U);
    PteParts(t, PTE_P + PTE_W + PTE_U);
    hide Present, Frame, Pte;
    var mem' := mem[t := Filled(0)][d := mem[d][i := pde]];
    forall v ensures Entry(mem', d, v) == Entry(mem, d, v) {
      if 0 <= v < ALL_PAGES && v / NPTENTRIES != i {
        var w := mem[d][v / NPTENTRIES];
        assert mem'[d][v / NPTENTRIES] == w;
        assert Present(w) ==> own[Frame(w)] == Table(v / NPTENTRIES);
      }
    }
    assert !Present(0) by { ZeroAbsent(); }
    hide Entry;
  }

  lemma ZeroAbsent()
    ensures !Present(0)
  {
  }

  /** Writing one entry changes the view at that page only. */
  lemma SetEntry(mem: Memory, d: int, own: map<int, Use>, v: int, w: int)
    requires Tree(mem, d, own) && 0 <= v < ALL_PAGES && Present(mem[d][v / NPTENTRIES])
    ensures var t := Frame(mem[d][v / NPTENTRIES]);
            && t in mem && t in own && own[t] == Table(v / NPTENTRIES)
            && var mem' := mem[t := mem[t][v % NPTENTRIES := w]];
            && Pages(mem') && mem'[d] == mem[d]
            && (forall u :: Entry(mem', d, u) == if u == v then w else Entry(mem, d, u))
  {
    hide Present, Frame;
    var t := Frame(mem[d][v / NPTENTRIES]);
    assert own[t] == Table(v / NPTENTRIES);
    var mem' := mem[t := mem[t][v % NPTENTRIES := w]];
    forall u ensures Entry(mem', d, u) == if u == v then w else Entry(mem, d, u) {
      if 0 <= u < ALL_PAGES {
        var pde := mem[d][u / NPTENTRIES];
        assert Present(pde) ==> own[Frame(pde)] == Table(u / NPTENTRIES);
        assert u / NPTENTRIES == v / NPTENTRIES && u % NPTENTRIES == v % NPTENTRIES ==> u == v;
      }
    }
  }

  /** mappages enters page f for v. */
  lemma MapEntry(mem: Memory, d: int, own: map<int, Use>, v: int, f: int, perm: int)
    requires Tree(mem, d, own) && 0 <= v < ALL_PAGES && Present(mem[d][v / NPTENTRIES]) && 0 <= perm < PGSIZE
    requires !Present(Entry(mem, d, v)) && (v < USER_PAGES ==> f in mem && f !in own)
    ensures var t := Frame(mem[d][v / NPTENTRIES]);
            && t in mem && t in own && own[t] == Table(v / NPTENTRIES)
            && var mem' := mem[t := mem[t][v % NPTENTRIES := Pte(f, perm)]];
            && (forall u :: Entry(mem', d, u) == if u == v then Pte(f, perm) else Entry(mem, d, u))
            && Tree(mem', d, if v < USER_PAGES then own[f := Data(v)] else own)
  {
    SetEntry(mem, d, own, v, Pte(f, perm));
    PteParts(f, perm);
    hide Present, Frame, Entry, Pte;
  }

  /** deallocuvm clears the entry of a user page: the page leaves the address space. */
  lemma ClearEntry(mem: Memory, d: int, own: map<int, Use>, v: int)
    requires Tree(mem, d, own) && 0 <= v < USER_PAGES && Present(mem[d][v / NPTENTRIES]) && Present(Entry(mem, d, v))
    ensures var t := Frame(mem[d][v / NPTENTRIES]);
            && t in mem && t in own && own[t] == Table(v / NPTENTRIES)
            && var mem' := mem[t := mem[t][v % NPTENTRIES := 0]];
            && (forall u :: Entry(mem', d, u) == if u == v then 0 else Entry(mem, d, u))
            && Frame(Entry(mem, d, v)) in own && own[Frame(Entry(mem, d, v))] == Data(v)
            && Tree(mem', d, own - {Frame(Entry(mem, d, v))})
  {
    SetEntry(mem, d, own, v, 0);
    ZeroAbsent();
    hide Present, Frame, Entry;
  }

  // ---------- the free list ----------

  ghost predicate FreeOK(mem: Memory, free: seq<int>) {
    && (forall i :: 0 <= i < |free| ==> free[i] in mem)
    && (forall i, j :: 0 <= i < j < |free| ==> free[i] != free[j])
  }

  ghost predicate Apart(free: seq<int>, own: map<int, Use>) {
    forall p :: p in own ==> p !in free
  }

  ghost function FreeSet(free: seq<int>): set<int> {
    set p | p in free
  }

  /** Pages free or in the address space. */
  ghost function Held(free: seq<int>, own: map<int, Use>): set<int> {
    FreeSet(free) + own.Keys
  }

  /** Nothing changed but directories and tables of own. */
  ghost predicate Kept(mem: Memory, mem': Memory, own: map<int, Use>) {
    && mem'.Keys == mem.Keys
    && (forall p :: p in mem && (p !in own || own[p].Data?) ==> mem'[p] == mem[p])
  }

  /** Tables may have been added, nothing else. */
  ghost predicate MoreTables(own: map<int, Use>, own': map<int, Use>) {
    && (forall p :: p in own ==> p in own' && own'[p] == own[p])
    && (forall p :: p in own' && p !in own ==> own'[p].Table?)
  }

  /** Everything a page table operation on d relies on and keeps. */
  ghost predicate Space(mem: Memory, free: seq<int>, d: int, own: map<int, Use>) {
    Tree(mem, d, own) && FreeOK(mem, free) && Apart(free, own)
  }

  lemma Pop(mem: Memory, free: seq<int>, d: int, own: map<int, Use>, i: int)
    requires Space(mem, free, d, own) && free != [] && 0 <= i < NPDENTRIES && !Present(mem[d][i])
    ensures var t := free[0];
            && t in mem && t !in own
            && var mem', own' := mem[t := Filled(0)][d := mem[d][i := Pte(t, PTE_P + PTE_W + PTE_U)]], own[t := Table(i)];
            && Space(mem', free[1..], d, own') && SameView(mem, mem', d) && Kept(mem, mem', own')
            && MoreTables(own, own') && Held(free[1..], own') == Held(free, own)
  {
    var t := free[0];
    assert t in free;
    AddTable(mem, d, own, i, t);
    hide Tree, SameView;
    assert free == [t] + free[1..];
    assert t !in free[1..];
  }

  // ---------- mapping a range ----------

  /** The view of d with the n pages from a on mapped to the pages from f on. */
  ghost predicate MapView(mem: Memory, mem': Memory, d: int, a: int, n: int, f: int, perm: int) {
    forall v :: Entry(mem', d, v) == if a <= v < a + n then Pte(f + v - a, perm) else Entry(mem, d, v)
  }

  /** The pages that come into an address space when n pages from a on are mapped to those from f on. */
  ghost function Given(a: int, n: int, f: int): set<int> {
    if n <= 0 then {} else Given(a, n - 1, f) + if a + n - 1 < USER_PAGES then {f + n - 1} else {}
  }

  lemma {:induction false} GivenKernel(a: int, n: int, f: int)
    requires a >= USER_PAGES
    ensures Given(a, n, f) == {}
  {
    if n > 0 {
      GivenKernel(a, n - 1, f);
    }
  }

  lemma {:induction false} GivenBelow(a: int, n: int, f: int, p: int)
    requires p in Given(a, n, f)
    ensures f <= p < f + n && a + p - f < USER_PAGES
  {
    if a + n - 1 >= USER_PAGES || p != f + n - 1 {
      GivenBelow(a, n - 1, f, p);
    }
  }

  /** Uses only grow. */
  ghost predicate Grows(own: map<int, Use>, own': map<int, Use>) {
    forall p :: p in own ==> p in own' && own'[p] == own[p]
  }

  /** Uses that mapping n pages from a on can add. */
  predicate NewUse(u: Use, a: int, n: int) {
    match u
    case Directory => false
    case Table(i) => n > 0 && a / NPTENTRIES <= i && i * NPTENTRIES < a + n
    case Data(v) => a <= v < a + n
  }

  ghost predicate NewUses(own: map<int, Use>, own': map<int, Use>, a: int, n: int) {
    forall p :: p in own' && p !in own ==> NewUse(own'[p], a, n)
  }

  lemma NewUsesMore(own: map<int, Use>, own1: map<int, Use>, own2: map<int, Use>, a: int, n: int)
    requires n >= 0 && NewUses(own, own1, a, n) && NewUses(own1, own2, a + n, 1) && Grows(own1, own2)
    ensures NewUses(own, own2, a, n + 1)
  {
  }

  /** The pages are there to be given: managed, not free and not yet used. */
  ghost predicate CanGive(mem: Memory, free: seq<int>, own: map<int, Use>, a: int, n: int, f: int) {
    forall p :: f <= p < f + n && a + p - f < USER_PAGES ==> p in mem && p !in Held(free, own)
  }

  lemma MapOneFits(mem: Memory, free: seq<int>, d: int, own: map<int, Use>, v: int, f: int, perm: int)
    requires Space(mem, free, d, own) && 0 <= v < ALL_PAGES && Present(mem[d][v / NPTENTRIES]) && 0 <= perm < PGSIZE
    requires !Present(Entry(mem, d, v)) && (v < USER_PAGES ==> f in mem && f !in Held(free, own))
    ensures var t := Frame(mem[d][v / NPTENTRIES]);
            && t in mem && |mem[t]| == PAGE_WORDS
            && var mem', own' := mem[t := mem[t][v % NPTENTRIES := Pte(f, perm)]], if v < USER_PAGES then own[f := Data(v)] else own;
            && Space(mem', free, d, own') && MapView(mem, mem', d, v, 1, f, perm) && Kept(mem, mem', own') && Grows(own, own')
            && Held(free, own') == Held(free, own) + Given(v, 1, f)
  {
    MapEntry(mem, d, own, v, f, perm);
    hide Present, Frame, Entry, Pte;
    assert Given(v, 0, f) == {};
    var own' := if v < USER_PAGES then own[f := Data(v)] else own;
    assert own'.Keys == own.Keys + Given(v, 1, f);
  }

  /** Mapping n pages and then one more. */
  lemma MapMore(mem: Memory, mem1: Memory, mem2: Memory, d: int, a: int, n: int, f: int, perm: int)
    requires n >= 0 && MapView(mem, mem1, d, a, n, f, perm) && MapView(mem1, mem2, d, a + n, 1, f + n, perm)
    ensures MapView(mem, mem2, d, a, n + 1, f, perm)
  {
    hide Entry, Pte;
  }

  lemma AbsentTable(mem: Memory, d: int, own: map<int, Use>, v: int)
    requires Tree(mem, d, own) && 0 <= v < ALL_PAGES
    ensures !Present(mem[d][v / NPTENTRIES]) ==> !Present(Entry(mem, d, v))
  {
  }

  lemma EntryIn(mem: Memory, d: int, own: map<int, Use>, v: int)
    requires Tree(mem, d, own) && 0 <= v < ALL_PAGES && Present(mem[d][v / NPTENTRIES])
    ensures var t := Frame(mem[d][v / NPTENTRIES]);
            t in mem && |mem[t]| == PAGE_WORDS && Entry(mem, d, v) == mem[t][v % NPTENTRIES]
  {
  }

  /** PGROUNDUP as a page number. */
  function Ceil(sz: int): int {
    (sz + PGSIZE - 1) / PGSIZE
  }

  function Min(a: int, b: int): (m: int)
    ensures m <= a && m <= b && (m == a || m == b)
  {
    if a < b then a else b
  }

  /** Pages from PGROUNDDOWN(va) to PGROUNDDOWN(va + size - 1). */
  function Span(va: int, size: int): int {
    (va + size - 1) / PGSIZE - va / PGSIZE + 1
  }

  /** What mappages has done after n pages. */
  ghost predicate Mapped(mem: Memory, mem': Memory, free: seq<int>, free': seq<int>, d: int,
                         own: map<int, Use>, own': map<int, Use>, a: int, n: int, f: int, perm: int) {
    && Space(mem', free', d, own') && Kept(mem, mem', own') && Grows(own, own')
    && MapView(mem, mem', d, a, n, f, perm)
    && (forall v :: a <= v < a + n ==> !Present(Entry(mem, d, v)))
    && Held(free', own') == Held(free, own) + Given(a, n, f)
    && NewUses(own, own', a, n)
  }

  lemma MapNone(mem: Memory, d: int, own: map<int, Use>, a: int, f: int, perm: int, free: seq<int>)
    requires Space(mem, free, d, own)
    ensures Mapped(mem, mem, free, free, d, own, own, a, 0, f, perm)
  {
  }

  lemma GiveNext(mem: Memory, mem': Memory, free: seq<int>, free': seq<int>, own: map<int, Use>, own': map<int, Use>,
                 d: int, a: int, n: int, total: int, f: int, perm: int)
    requires Mapped(mem, mem', free, free', d, own, own', a, n, f, perm) && 0 <= n < total
    requires CanGive(mem, free, own, a, total, f)
    ensures Space(mem', free', d, own') && CanGive(mem', free', own', a + n, 1, f + n)
  {
    hide Tree, Entry, Given, MapView;
    if a + n < USER_PAGES && f + n in Given(a, n, f) {
      GivenBelow(a, n, f, f + n);
    }
  }

  lemma MapViewAt(mem: Memory, mem': Memory, d: int, a: int, n: int, f: int, perm: int, v: int)
    requires MapView(mem, mem', d, a, n, f, perm) && !(a <= v < a + n)
    ensures Entry(mem', d, v) == Entry(mem, d, v)
  {
  }

  lemma MapStep(mem0: Memory, mem1: Memory, mem2: Memory, free0: seq<int>, free1: seq<int>, free2: seq<int>, d: int,
                own0: map<int, Use>, own1: map<int, Use>, own2: map<int, Use>, a: int, n: int, f: int, perm: int)
    requires n >= 0 && Mapped(mem0, mem1, free0, free1, d, own0, own1, a, n, f, perm)
    requires Space(mem2, free2, d, own2) && Kept(mem1, mem2, own2) && Grows(own1, own2)
    requires MapView(mem1, mem2, d, a + n, 1, f + n, perm) && !Present(Entry(mem1, d, a + n))
    requires Held(free2, own2) == Held(free1, own1) + Given(a + n, 1, f + n) && NewUses(own1, own2, a + n, 1)
    ensures Mapped(mem0, mem2, free0, free2, d, own0, own2, a, n + 1, f, perm)
  {
    hide Tree, Space, Entry, Pte, Held, NewUses;
    MapMore(mem0, mem1, mem2, d, a, n, f, perm);
    MapViewAt(mem0, mem1, d, a, n, f, perm, a + n);
    NewUsesMore(own0, own1, own2, a, n);
    assert Given(a + n, 1, f + n) == if a + n < USER_PAGES then {f + n} else {} by { assert Given(a + n, 0, f + n) == {}; }
  }

  // ---------- unmapping a range of user pages ----------

  /** The view of d page by page: user pages from lo up to hi are gone. */
  ghost predicate ClearView(mem: Memory, mem': Memory, d: int, lo: int, hi: int) {
    forall v :: Entry(mem', d, v) == if lo <= v < hi && Present(Entry(mem, d, v)) then 0 else Entry(mem, d, v)
  }

  ghost function Without(own: map<int, Use>, lo: int, hi: int): map<int, Use> {
    map p | p in own && !(own[p].Data? && lo <= own[p].v < hi) :: own[p]
  }

  /** Pages outside the address space, and its remaining data pages, keep their contents. */
  ghost predicate Frozen(mem: Memory, mem': Memory, own: map<int, Use>, own': map<int, Use>) {
    && mem'.Keys == mem.Keys
    && (forall p :: p in mem && (p !in own || (p in own' && own'[p].Data?)) ==> mem'[p] == mem[p])
  }

  /** What deallocuvm has done when it has come to page hi. */
  ghost predicate Swept(mem: Memory, mem': Memory, free: seq<int>, free': seq<int>, d: int,
                        own: map<int, Use>, own': map<int, Use>, lo: int, hi: int) {
    && Space(mem', free', d, own') && ClearView(mem, mem', d, lo, hi)
    && own' == Without(own, lo, hi) && Held(free', own') == Held(free, own) && Frozen(mem, mem', own, own')
  }

  lemma SweepNone(mem: Memory, free: seq<int>, d: int, own: map<int, Use>, lo: int)
    requires Space(mem, free, d, own)
    ensures Swept(mem, mem, free, free, d, own, own, lo, lo)
  {
    assert Without(own, lo, lo) == own;
  }

  /** Pages that are not there can be passed over. */
  lemma SweepAbsent(mem: Memory, mem': Memory, free: seq<int>, free': seq<int>, d: int,
                    own: map<int, Use>, own': map<int, Use>, lo: int, a: int, b: int)
    requires Swept(mem, mem', free, free', d, own, own', lo, a) && lo <= a <= b && Tree(mem, d, own)
    requires forall v :: a <= v < b ==> !Present(Entry(mem', d, v))
    ensures Swept(mem, mem', free, free', d, own, own', lo, b)
  {
    hide Present, Frame, Entry, Space, Held;
    forall p | p in own && own[p].Data? ensures !(a <= own[p].v < b) {
      assert UsedAs(mem, d, p, own[p]);
    }
    assert Without(own, lo, b) == Without(own, lo, a);
  }

  /** An absent directory entry hides 1024 pages. */
  lemma AbsentRange(mem: Memory, d: int, own: map<int, Use>, a: int)
    requires Tree(mem, d, own) && 0 <= a < ALL_PAGES && !Present(mem[d][a / NPTENTRIES])
    ensures forall v :: a <= v < (a / NPTENTRIES + 1) * NPTENTRIES ==> !Present(Entry(mem, d, v))
  {
    ZeroAbsent();
    hide Present, Frame, Tree;
    forall v | a <= v < (a / NPTENTRIES + 1) * NPTENTRIES ensures !Present(Entry(mem, d, v)) {
      assert v / NPTENTRIES == a / NPTENTRIES;
    }
  }

  /** kfree of the page of v and then clearing its entry. */
  lemma ClearFits(mem: Memory, free: seq<int>, d: int, own: map<int, Use>, v: int, junk: int)
    requires Space(mem, free, d, own) && 0 <= v < USER_PAGES && Present(mem[d][v / NPTENTRIES]) && Present(Entry(mem, d, v))
    ensures var t, f := Frame(mem[d][v / NPTENTRIES]), Frame(Entry(mem, d, v));
            && t in mem && f in mem && f != 0 && f != t && f in own && own[f] == Data(v)
            && var mem' := mem[f := Filled(junk)][t := mem[t][v % NPTENTRIES := 0]];
            && Space(mem', [f] + free, d, own - {f})
            && (forall u :: Entry(mem', d, u) == if u == v then 0 else Entry(mem, d, u))
            && Held([f] + free, own - {f}) == Held(free, own)
            && Frozen(mem, mem', own, own - {f})
  {
    hide Present, Frame, Entry;
    var t, f := Frame(mem[d][v / NPTENTRIES]), Frame(Entry(mem, d, v));
    assert own[f] == Data(v) && own[t] == Table(v / NPTENTRIES);
    var mem1 := mem[f := Filled(junk)];
    Agree(mem, mem1, d, own);
    assert Entry(mem1, d, v) == Entry(mem, d, v);
    ClearEntry(mem1, d, own, v);
    hide Tree;
    var free' := [f] + free;
    assert f !in free;
    assert forall i :: 0 < i < |free'| ==> free'[i] == free[i - 1];
  }

  lemma SweepOne(mem: Memory, mem1: Memory, mem2: Memory, free: seq<int>, free1: seq<int>, free2: seq<int>, d: int,
                 own: map<int, Use>, own1: map<int, Use>, own2: map<int, Use>, lo: int, a: int, f: int)
    requires Swept(mem, mem1, free, free1, d, own, own1, lo, a) && lo <= a < USER_PAGES && Tree(mem, d, own)
    requires Present(Entry(mem1, d, a)) && Frame(Entry(mem1, d, a)) == f && f in own1 && own1[f] == Data(a)
    requires Space(mem2, free2, d, own2) && own2 == own1 - {f} && Held(free2, own2) == Held(free1, own1)
    requires forall u :: Entry(mem2, d, u) == if u == a then 0 else Entry(mem1, d, u)
    requires Frozen(mem1, mem2, own1, own2)
    ensures Swept(mem, mem2, free, free2, d, own, own2, lo, a + 1)
  {
    hide Present, Frame, Entry, Space, Held;
    assert Entry(mem1, d, a) == Entry(mem, d, a);
    forall p | p in own && own[p] == Data(a) ensures p == f {
      assert UsedAs(mem, d, p, own[p]);
    }
    assert own2 == Without(own, lo, a + 1);
  }

  // ---------- freeing an address space ----------

  lemma OnlyTables(mem: Memory, d: int, own: map<int, Use>)
    requires Tree(mem, d, own)
    ensures forall p :: p in Without(own, 0, USER_PAGES) ==> !own[p].Data?
  {
    forall p | p in own && own[p].Data? ensures 0 <= own[p].v < USER_PAGES {
      assert UsedAs(mem, d, p, own[p]);
    }
  }

  /** Tables of directory entries below i have gone. */
  ghost predicate Freed(mem: Memory, mem': Memory, free: seq<int>, free': seq<int>, d: int, own: map<int, Use>, i: int) {
    && d in mem && mem'.Keys == mem.Keys && Pages(mem') && FreeOK(mem', free')
    && (forall p :: p in free' <==> p in free || (p in own && own[p].Table? && own[p].i < i))
    && (forall p :: p in mem && (p !in own || p == d) ==> mem'[p] == mem[p])
  }

  lemma FreedNone(mem: Memory, free: seq<int>, d: int, own: map<int, Use>)
    requires Space(mem, free, d, own)
    ensures Freed(mem, mem, free, free, d, own, 0)
  {
    forall p | p in own && own[p].Table? ensures own[p].i >= 0 {
      assert UsedAs(mem, d, p, own[p]);
    }
  }

  lemma FreedNext(mem: Memory, mem': Memory, free: seq<int>, free': seq<int>, d: int, own: map<int, Use>, i: int, junk: int)
    requires Space(mem, free, d, own) && Freed(mem, mem', free, free', d, own, i) && 0 <= i < NPDENTRIES
    ensures mem'[d] == mem[d] && |mem'[d]| == PAGE_WORDS
    ensures !Present(mem[d][i]) ==> Freed(mem, mem', free, free', d, own, i + 1)
    ensures Present(mem[d][i]) ==>
      var t := Frame(mem[d][i]);
      t in mem' && t != d && Freed(mem, mem'[t := Filled(junk)], free, [t] + free', d, own, i + 1)
  {
    hide Present, Frame, Entry;
    forall p | p in own && own[p] == Table(i) ensures Present(mem[d][i]) && p == Frame(mem[d][i]) {
      assert UsedAs(mem, d, p, own[p]);
    }
    if Present(mem[d][i]) {
      var t := Frame(mem[d][i]);
      assert own[t] == Table(i);
      assert t !in free';
      var free2 := [t] + free';
      assert forall k :: 0 < k < |free2| ==> free2[k] == free'[k - 1];
      forall p ensures p in free2 <==> p in free || (p in own && own[p].Table? && own[p].i < i + 1) {
        assert p in free2 <==> p == t || p in free';
      }
    }
  }

  lemma FreedAll(mem: Memory, mem': Memory, free: seq<int>, free': seq<int>, d: int, own: map<int, Use>)
    requires Space(mem, free, d, own) && (forall p :: p in own ==> !own[p].Data?)
    requires Freed(mem, mem', free, free', d, own, NPDENTRIES)
    ensures FreeSet(free') == FreeSet(free) + own.Keys - {d}
  {
    hide Present, Frame, Entry;
    forall p | p in own ensures p == d || (own[p].Table? && own[p].i < NPDENTRIES) {
      assert UsedAs(mem, d, p, own[p]);
    }
    assert d !in free;
    forall p ensures p in FreeSet(free') <==> p in FreeSet(free) + own.Keys - {d} {
      assert p in FreeSet(free') <==> p in free';
      assert p in FreeSet(free) <==> p in free;
    }
  }

  lemma PushSet(p: int, free: seq<int>)
    ensures FreeSet([p] + free) == {p} + FreeSet(free)
  {
  }

  // ---------- single pages taken, written and given back ----------

  lemma TakePage(mem: Memory, free: seq<int>, d: int, own: map<int, Use>, m: int, free': seq<int>)
    requires Space(mem, free, d, own) && free == [m] + free' && m !in free'
    ensures Space(mem, free', d, own) && m in mem && m !in own && m !in Held(free', own) && Held(free, own) == Held(free', own) + {m}
  {
    hide Tree;
    assert free[0] == m && forall i :: 0 <= i < |free'| ==> free'[i] == free[i + 1];
    PushSet(m, free');
    assert m in free;
  }

  /** Writing a page that is not a directory or table of d. */
  lemma WritePage(mem: Memory, free: seq<int>, d: int, own: map<int, Use>, m: int, page: seq<int>)
    requires Space(mem, free, d, own) && m in mem && (m in own ==> own[m].Data?) && |page| == PAGE_WORDS
    ensures Space(mem[m := page], free, d, own) && SameView(mem, mem[m := page], d)
  {
    Agree(mem, mem[m := page], d, own);
    hide Tree;
  }

  lemma GivePage(mem: Memory, free: seq<int>, d: int, own: map<int, Use>, m: int, junk: int)
    requires Space(mem, free, d, own) && m in mem && m !in Held(free, own)
    ensures Space(mem[m := Filled(junk)], [m] + free, d, own) && SameView(mem, mem[m := Filled(junk)], d)
    ensures Held([m] + free, own) == Held(free, own) + {m}
  {
    WritePage(mem, free, d, own, m, Filled(junk));
    hide Tree;
    PushSet(m, free);
    var free' := [m] + free;
    assert forall i :: 0 < i < |free'| ==> free'[i] == free[i - 1];
  }

  /** Pages outside s keep their contents. */
  ghost predicate Untouched(mem: Memory, mem': Memory, s: set<int>) {
    mem'.Keys == mem.Keys && forall p :: p in mem && p !in s ==> mem'[p] == mem[p]
  }

  // ---------- the kernel's part ----------

  const EXTMEM := 0x100000
  const PHYSTOP := 0xE000000
  const DEVSPACE := 0xFE000000
  const KERNBASE := 0x80000000
  const KERNLINK := KERNBASE + EXTMEM
  const WIDTH := 0x1_0000_0000

  datatype Kmap = Kmap(virt: int, start: int, end: int, perm: int)

  /** data is the linker symbol that ends the kernel's read-only part. */
  function KmapTable(data: int): (ks: seq<Kmap>)
    ensures |ks| == 4
  {
    [Kmap(KERNBASE, 0, EXTMEM, PTE_W),
     Kmap(KERNLINK, KERNLINK - KERNBASE, data - KERNBASE, 0),
     Kmap(data, data - KERNBASE, PHYSTOP, PTE_W),
     Kmap(DEVSPACE, DEVSPACE, 0, PTE_W)]
  }

  predicate GoodData(data: int) {
    data % PGSIZE == 0 && KERNLINK < data < KERNBASE + PHYSTOP
  }

  /** What every address space has at and above KERNBASE, page by page: physical memory from
      KERNBASE on, read-only between KERNLINK and data, and the devices at their own addresses. */
  function KernelEntry(data: int, v: int): int {
    if USER_PAGES <= v < USER_PAGES + PHYSTOP / PGSIZE then
      Pte(v - USER_PAGES, if KERNLINK / PGSIZE <= v < data / PGSIZE then 0 else PTE_W)
    else if DEVSPACE / PGSIZE <= v < ALL_PAGES then Pte(v, PTE_W)
    else 0
  }

  /** Which pages the kernel's part maps, to what, and how: physical memory up to 0xE000000 at KERNBASE,
      the devices from 0xFE000000 on at their own addresses, all writable but the kernel's text and
      read-only data, and nothing for user code. */
  lemma KernelPages(data: int, v: int)
    requires GoodData(data)
    ensures var e := KernelEntry(data, v);
            && (Present(e) <==> 0x80000 <= v < 0x8E000 || 0xFE000 <= v < 0x100000)
            && (Present(e) ==> Frame(e) == (if v < 0xFE000 then v - 0x80000 else v))
            && (Present(e) ==> Flags(e) == if 0x80100 <= v < data / 0x1000 then 1 else 3)
  {
    ZeroAbsent();
    PteParts(v - USER_PAGES, 0);
    PteParts(v - USER_PAGES, PTE_W);
    PteParts(v, PTE_W);
    hide Pte, Present, Frame, Flags;
  }

  /** First page of row k of the table; after the last row, the end. */
  function RowStart(data: int, k: int): int {
    if 0 <= k < 4 then KmapTable(data)[k].virt / PGSIZE else ALL_PAGES
  }

  ghost predicate KernelView(mem: Memory, d: int, data: int, bound: int) {
    forall v :: Entry(mem, d, v) == if v < bound then KernelEntry(data, v) else 0
  }

  lemma EmptySpace(mem: Memory, free: seq<int>, d: int, data: int, free': seq<int>)
    requires Pages(mem) && FreeOK(mem, free) && free == [d] + free' && d !in free' && GoodData(data)
    ensures var mem', own := mem[d := Filled(0)], map[d := Directory];
            && Space(mem', free', d, own) && KernelView(mem', d, data, RowStart(data, 0))
            && Held(free', own) == FreeSet(free) && Untouched(mem, mem', FreeSet(free))
  {
    ZeroAbsent();
    hide Present, Frame, Pte;
    assert free[0] == d && forall i :: 0 <= i < |free'| ==> free'[i] == free[i + 1];
    PushSet(d, free');
    var mem' := mem[d := Filled(0)];
    forall v ensures Entry(mem', d, v) == 0 {}
  }

  /** Row k fits above the rows before it and makes the view right up to the next row. */
  lemma RowFits(data: int, k: int)
    requires GoodData(data) && 0 <= k < 4
    ensures var row := KmapTable(data)[k];
            var size := (row.end - row.start) % WIDTH;
            && row.virt % PGSIZE == 0 && row.start % PGSIZE == 0 && size % PGSIZE == 0 && 0 < size
            && USER_PAGES <= row.virt / PGSIZE && row.virt + size <= ALL_PAGES * PGSIZE && 0 <= row.perm < PGSIZE
            && row.virt / PGSIZE + Span(row.virt, size) <= RowStart(data, k + 1)
  {
  }

  lemma RowEntries(data: int, k: int, v: int)
    requires GoodData(data) && 0 <= k < 4 && RowStart(data, k) <= v < RowStart(data, k + 1)
    ensures var row := KmapTable(data)[k];
            KernelEntry(data, v) ==
              if v < row.virt / PGSIZE + Span(row.virt, (row.end - row.start) % WIDTH)
              then Pte(row.start / PGSIZE + v - row.virt / PGSIZE, row.perm) else 0
  {
    hide Pte;
  }

  lemma RowMapped(mem: Memory, mem': Memory, d: int, data: int, k: int)
    requires GoodData(data) && 0 <= k < 4 && KernelView(mem, d, data, RowStart(data, k))
    requires var row := KmapTable(data)[k];
             MapView(mem, mem', d, row.virt / PGSIZE, Span(row.virt, (row.end - row.start) % WIDTH), row.start / PGSIZE, row.perm)
    ensures KernelView(mem', d, data, RowStart(data, k + 1))
  {
    var row := KmapTable(data)[k];
    RowFits(data, k);
    forall v ensures Entry(mem', d, v) == if v < RowStart(data, k + 1) then KernelEntry(data, v) else 0 {
      hide Entry, KernelEntry, Pte;
      if RowStart(data, k) <= v < RowStart(data, k + 1) {
        RowEntries(data, k, v);
      }
    }
  }

  lemma UntouchedNone(mem: Memory, s: set<int>)
    ensures Untouched(mem, mem, s)
  {
  }

  lemma UntouchedMore(mem: Memory, mem1: Memory, mem2: Memory, s: set<int>, own: map<int, Use>)
    requires Untouched(mem, mem1, s) && own.Keys <= s
    requires mem2.Keys == mem1.Keys && forall p :: p in mem1 && p !in own ==> mem2[p] == mem1[p]
    ensures Untouched(mem, mem2, s)
  {
  }

  lemma KernelUntouched(mem: Memory, mem1: Memory, mem2: Memory, s: set<int>, free: seq<int>, own: map<int, Use>)
    requires Untouched(mem, mem1, s) && Kept(mem1, mem2, own) && Held(free, own) == s
    ensures Untouched(mem, mem2, s) && own.Keys <= s && s == FreeSet(free) + own.Keys
  {
  }

  lemma GiveKernel(mem: Memory, free: seq<int>, own: map<int, Use>, a: int, n: int, f: int)
    requires a >= USER_PAGES
    ensures CanGive(mem, free, own, a, n, f)
  {
  }

  lemma RowFree(mem: Memory, d: int, data: int, k: int)
    requires 0 <= k < 4 && KernelView(mem, d, data, RowStart(data, k))
    ensures forall v :: KmapTable(data)[k].virt / PGSIZE <= v ==> !Present(Entry(mem, d, v))
  {
    ZeroAbsent();
    hide Present, Entry;
  }

  lemma SpacePages(mem: Memory, free: seq<int>, d: int, own: map<int, Use>)
    requires Space(mem, free, d, own)
    ensures Pages(mem) && FreeOK(mem, free) && d in mem && d in own && |mem[d]| == PAGE_WORDS
  {
  }

  // ---------- how many pages an address space takes ----------

  ghost function Tables(lo: int, hi: int): (s: set<Use>)
    requires lo <= hi
    ensures |s| == hi - lo && forall u :: u in s <==> u.Table? && lo <= u.i < hi
    decreases hi - lo
  {
    if lo == hi then {} else Tables(lo, hi - 1) + {Table(hi - 1)}
  }

  ghost function Datas(n: int): (s: set<Use>)
    requires 0 <= n
    ensures |s| == n && forall u :: u in s <==> u.Data? && 0 <= u.v < n
  {
    if n == 0 then {} else Datas(n - 1) + {Data(n - 1)}
  }

  /** The kernel's mappings lie in 56 + 8 tables. */
  predicate KernelTable(i: int) {
    512 <= i < 568 || 1016 <= i < 1024
  }

  predicate Required(u: Use, n: int) {
    match u
    case Directory => true
    case Table(i) => KernelTable(i) || (0 <= i && i * NPTENTRIES < n)
    case Data(v) => 0 <= v < n
  }

  /** Pages for an address space with n user pages. */
  function Need(n: int): int {
    65 + n + (n + NPTENTRIES - 1) / NPTENTRIES
  }

  lemma AllUses(n: int) returns (s: set<Use>)
    requires 0 <= n <= USER_PAGES
    ensures |s| == Need(n) && forall u :: u in s <==> Required(u, n)
  {
    hide Tables, Datas;
    var c := (n + NPTENTRIES - 1) / NPTENTRIES;
    var lo, mid, hi, data := Tables(0, c), Tables(512, 568), Tables(1016, 1024), Datas(n);
    UnionCount(lo, mid);
    UnionCount(lo + mid, hi);
    UnionCount(lo + mid + hi, data);
    UnionCount(lo + mid + hi + data, {Directory});
    s := lo + mid + hi + data + {Directory};
    forall u ensures u in s <==> Required(u, n) {
      match u
      case Directory =>
      case Table(i) => assert i < c <==> i * NPTENTRIES < n;
      case Data(v) =>
    }
  }

  ghost function UsesOf(own: map<int, Use>, ps: set<int>): set<Use>
    requires ps <= own.Keys
  {
    set p | p in ps :: own[p]
  }

  ghost predicate Unique(own: map<int, Use>) {
    forall p, q :: p in own && q in own && own[p] == own[q] ==> p == q
  }

  lemma TreeUnique(mem: Memory, d: int, own: map<int, Use>)
    requires Tree(mem, d, own)
    ensures Unique(own)
  {
    forall p, q | p in own && q in own && own[p] == own[q] ensures p == q {
      hide Entry, Frame, Present;
      assert UsedAs(mem, d, p, own[p]) && UsedAs(mem, d, q, own[q]);
    }
  }

  lemma UsesStep(own: map<int, Use>, ps: set<int>, p: int)
    requires Unique(own) && ps <= own.Keys && p in ps
    ensures UsesOf(own, ps) == UsesOf(own, ps - {p}) + {own[p]} && own[p] !in UsesOf(own, ps - {p})
  {
    forall u ensures u in UsesOf(own, ps) <==> u in UsesOf(own, ps - {p}) + {own[p]} {
      if u in UsesOf(own, ps) {
        var q :| q in ps && own[q] == u;
        assert q != p ==> q in ps - {p};
      }
    }
  }

  lemma {:induction false} UseCount(own: map<int, Use>, ps: set<int>)
    requires Unique(own) && ps <= own.Keys
    ensures |ps| == |UsesOf(own, ps)|
  {
    if |ps| == 0 {
      assert UsesOf(own, ps) == {};
    } else {
      hide Unique, UsesOf;
      var p := Pick(ps);
      UseCount(own, ps - {p});
      UsesStep(own, ps, p);
      assert |ps| == |ps - {p}| + 1;
      assert |UsesOf(own, ps - {p}) + {own[p]}| == |UsesOf(own, ps - {p})| + 1;
    }
  }

  lemma SetCount(free: seq<int>)
    requires forall i, j :: 0 <= i < j < |free| ==> free[i] != free[j]
    ensures |FreeSet(free)| == |free|
  {
    DistinctCount(free);
    assert FreeSet(free) == Elements(free);
  }

  /** An address space that lacks a required use is smaller than needed. */
  lemma TooFew(own: map<int, Use>, n: int, u: Use)
    requires 0 <= n <= USER_PAGES && Unique(own) && Required(u, n)
    requires forall p :: p in own ==> Required(own[p], n) && own[p] != u
    ensures |own.Keys| < Need(n)
  {
    hide Need, Required;
    UseCount(own, own.Keys);
    var s := AllUses(n);
    forall w | w in UsesOf(own, own.Keys) ensures w in s - {u} {
      var p :| p in own && own[p] == w;
    }
    SubsetCount(UsesOf(own, own.Keys), s - {u});
  }

  lemma EnoughUsed(own: map<int, Use>, n: int)
    requires 0 <= n <= USER_PAGES && Unique(own)
    requires forall u :: Required(u, n) ==> u in UsesOf(own, own.Keys)
    ensures |own.Keys| >= Need(n)
  {
    hide Need, Required;
    UseCount(own, own.Keys);
    var s := AllUses(n);
    SubsetCount(s, UsesOf(own, own.Keys));
  }

  predicate NoTable(pgdir: seq<int>, v: int) {
    0 <= v < ALL_PAGES && |pgdir| == PAGE_WORDS && !Present(pgdir[v / NPTENTRIES])
  }

  ghost predicate AllRequired(own: map<int, Use>, n: int) {
    forall p :: p in own ==> Required(own[p], n)
  }

  lemma NeedPositive(n: int)
    requires 0 <= n
    ensures Need(n) > 0
  {
  }

  lemma OnlyDirectory(d: int, n: int)
    ensures AllRequired(map[d := Directory], n)
  {
  }

  /** When the pages free at the start are all in the address space and a use is missing, there were too few. */
  lemma OutOfPages(mem: Memory, free: seq<int>, d: int, own: map<int, Use>, mem0: Memory, free0: seq<int>, n: int, u: Use)
    requires Space(mem, free, d, own) && FreeOK(mem0, free0) && 0 <= n <= USER_PAGES
    requires own.Keys == FreeSet(free0) && AllRequired(own, n) && Required(u, n)
    requires forall p :: p in own ==> own[p] != u
    ensures |free0| < Need(n)
  {
    hide Tree, Required, Need, FreeSet;
    TreeUnique(mem, d, own);
    TooFew(own, n, u);
    SetCount(free0);
  }

  lemma HasPages(mem: Memory, free: seq<int>, d: int, own: map<int, Use>, mem0: Memory, free0: seq<int>, n: int)
    requires Space(mem, free, d, own) && FreeOK(mem0, free0) && 0 <= n <= USER_PAGES && Held(free, own) == FreeSet(free0)
    requires forall u :: Required(u, n) ==> u in UsesOf(own, own.Keys)
    ensures |free0| >= Need(n)
  {
    hide Tree, Required, Need, UsesOf;
    TreeUnique(mem, d, own);
    EnoughUsed(own, n);
    SetCount(free0);
    SubsetCount(own.Keys, FreeSet(free0));
  }

  lemma RowTables(data: int, k: int, i: int, done: int)
    requires GoodData(data) && 0 <= k < 4
    requires var row := KmapTable(data)[k];
             && done <= Span(row.virt, (row.end - row.start) % WIDTH)
             && row.virt / PGSIZE / NPTENTRIES <= i && i * NPTENTRIES < row.virt / PGSIZE + done
    ensures KernelTable(i)
  {
  }

  lemma RowUses(mem: Memory, d: int, own: map<int, Use>, own': map<int, Use>, data: int, k: int, done: int)
    requires GoodData(data) && 0 <= k < 4 && Tree(mem, d, own') && AllRequired(own, 0) && Grows(own, own')
    requires var row := KmapTable(data)[k];
             done <= Span(row.virt, (row.end - row.start) % WIDTH) && NewUses(own, own', row.virt / PGSIZE, done)
    ensures AllRequired(own', 0)
  {
    var row := KmapTable(data)[k];
    RowFits(data, k);
    forall p | p in own' && p !in own ensures Required(own'[p], 0) {
      hide Entry, Present, Frame;
      assert UsedAs(mem, d, p, own'[p]);
      assert NewUse(own'[p], row.virt / PGSIZE, done);
      if own'[p].Table? {
        RowTables(data, k, own'[p].i, done);
      }
    }
  }

  lemma RowFails(mem: Memory, free: seq<int>, d: int, own: map<int, Use>, mem0: Memory, free0: seq<int>, data: int, k: int, done: int)
    requires GoodData(data) && 0 <= k < 4 && Space(mem, free, d, own) && AllRequired(own, 0) && free == []
    requires FreeOK(mem0, free0) && Held(free, own) == FreeSet(free0)
    requires var row := KmapTable(data)[k];
             && 0 <= done < Span(row.virt, (row.end - row.start) % WIDTH)
             && d in mem && NoTable(mem[d], row.virt / PGSIZE + done)
    ensures |free0| < Need(0)
  {
    var i := (KmapTable(data)[k].virt / PGSIZE + done) / NPTENTRIES;
    RowTables(data, k, i, done + 1);
    hide Present, Frame, Entry, Need;
    forall p | p in own ensures own[p] != Table(i) {
      assert UsedAs(mem, d, p, own[p]);
    }
    OutOfPages(mem, free, d, own, mem0, free0, 0, Table(i));
  }

  /** A present entry has its table in the address space. */
  lemma TableUsed(mem: Memory, d: int, own: map<int, Use>, v: int)
    requires Tree(mem, d, own) && 0 <= v < ALL_PAGES && Present(Entry(mem, d, v))
    ensures Table(v / NPTENTRIES) in UsesOf(own, own.Keys)
    ensures v < USER_PAGES ==> Data(v) in UsesOf(own, own.Keys)
  {
    AbsentTable(mem, d, own, v);
    hide Present, Frame, Entry;
    var t := Frame(mem[d][v / NPTENTRIES]);
    assert t in own && own[t] == Table(v / NPTENTRIES);
    if v < USER_PAGES {
      var f := Frame(Entry(mem, d, v));
      assert f in own && own[f] == Data(v);
    }
  }

  lemma KernelPresent(data: int, i: int)
    requires GoodData(data) && KernelTable(i)
    ensures Present(KernelEntry(data, i * NPTENTRIES))
  {
    var v := i * NPTENTRIES;
    var perm := if KERNLINK / PGSIZE <= v < data / PGSIZE then 0 else PTE_W;
    PteParts(v - USER_PAGES, perm);
    PteParts(v, PTE_W);
  }

  lemma KernelUses(mem: Memory, free: seq<int>, d: int, own: map<int, Use>, data: int, mem0: Memory, free0: seq<int>)
    requires GoodData(data) && Space(mem, free, d, own) && KernelView(mem, d, data, ALL_PAGES)
    requires FreeOK(mem0, free0) && Held(free, own) == FreeSet(free0)
    ensures |free0| >= Need(0)
  {
    forall u | Required(u, 0) ensures u in UsesOf(own, own.Keys) {
      if u == Directory {
        assert d in own.Keys && own[d] == Directory;
      } else {
        hide Present, Entry, KernelEntry, Tree;
        KernelPresent(data, u.i);
        assert Entry(mem, d, u.i * NPTENTRIES) == KernelEntry(data, u.i * NPTENTRIES);
        TableUsed(mem, d, own, u.i * NPTENTRIES);
      }
    }
    HasPages(mem, free, d, own, mem0, free0, 0);
  }

  // ---------- copying an address space ----------

  /** Page v of d has the contents and flags that page v of pgdir had. */
  ghost predicate CopiedPage(mem0: Memory, mem: Memory, pgdir: int, d: int, v: int) {
    var e0, e := Entry(mem0, pgdir, v), Entry(mem, d, v);
    && Present(e0) && Present(e) && Flags(e) == Flags(e0)
    && Frame(e0) in mem0 && Frame(e) in mem && mem[Frame(e)] == mem0[Frame(e0)]
  }

  /** The first n pages are copies; the rest of the view is the kernel's. */
  ghost predicate CopyView(mem0: Memory, mem: Memory, pgdir: int, d: int, data: int, n: int) {
    && (forall v :: 0 <= v < n ==> CopiedPage(mem0, mem, pgdir, d, v))
    && (forall v :: !(0 <= v < n) ==> Entry(mem, d, v) == KernelEntry(data, v))
  }

  /** The state of copyuvm before page i of n. */
  ghost predicate Copying(mem0: Memory, mem: Memory, free0: seq<int>, free: seq<int>, pgdir: int, d: int,
                          pown: map<int, Use>, own: map<int, Use>, data: int, i: int, n: int) {
    && 0 <= i <= n <= USER_PAGES
    && Space(mem0, free0, pgdir, pown) && Space(mem, free, d, own)
    && Held(free, own) == FreeSet(free0) && Untouched(mem0, mem, FreeSet(free0))
    && CopyView(mem0, mem, pgdir, d, data, i) && AllRequired(own, i)
  }

  lemma CopyStart(mem0: Memory, mem: Memory, free0: seq<int>, free: seq<int>, pgdir: int, d: int,
                  pown: map<int, Use>, own: map<int, Use>, data: int, n: int)
    requires 0 <= n <= USER_PAGES && Space(mem0, free0, pgdir, pown) && Space(mem, free, d, own)
    requires Held(free, own) == FreeSet(free0) && Untouched(mem0, mem, FreeSet(free0))
    requires KernelView(mem, d, data, ALL_PAGES) && AllRequired(own, 0)
    ensures Copying(mem0, mem, free0, free, pgdir, d, pown, own, data, 0, n)
  {
    hide Space, Held, Untouched, Entry, Pte;
  }

  /** The parent is as it was. */
  lemma ParentSame(mem0: Memory, mem: Memory, free0: seq<int>, free: seq<int>, pgdir: int, pown: map<int, Use>, own: map<int, Use>)
    requires Space(mem0, free0, pgdir, pown) && Pages(mem) && FreeOK(mem, free)
    requires Untouched(mem0, mem, FreeSet(free0)) && Held(free, own) == FreeSet(free0)
    ensures Space(mem, free, pgdir, pown) && SameView(mem0, mem, pgdir)
    ensures forall p :: p in pown ==> p in mem && mem[p] == mem0[p]
  {
    assert forall p :: p in pown ==> p in mem0 && p !in FreeSet(free0);
    Agree(mem0, mem, pgdir, pown);
    hide Tree;
    forall p | p in pown ensures p !in free {
      assert p in free ==> p in FreeSet(free);
    }
  }

  lemma PageFlags(e: int)
    requires Present(e)
    ensures 0 <= Flags(e) < PGSIZE && Flags(e) % 2 == 1
  {
    assert e == 4096 * (e / 4096) + e % 4096;
    EvenPart(2048 * (e / 4096), e % 4096);
  }

  /** Page i has been copied into m and m entered for i. */
  lemma CopyStep(mem0: Memory, mem: Memory, mem1: Memory, mem2: Memory, pgdir: int, d: int, data: int, i: int, m: int,
                 own: map<int, Use>, own2: map<int, Use>)
    requires CopyView(mem0, mem, pgdir, d, data, i) && Tree(mem, d, own) && 0 <= i < USER_PAGES
    requires Present(Entry(mem0, pgdir, i)) && Frame(Entry(mem0, pgdir, i)) in mem0
    requires m in mem && m !in own && mem1 == mem[m := mem0[Frame(Entry(mem0, pgdir, i))]] && SameView(mem, mem1, d)
    requires MapView(mem1, mem2, d, i, 1, m, Flags(Entry(mem0, pgdir, i)))
    requires Kept(mem1, mem2, own2) && Grows(own, own2) && Tree(mem2, d, own2)
    ensures CopyView(mem0, mem2, pgdir, d, data, i + 1)
  {
    var e0 := Entry(mem0, pgdir, i);
    PageFlags(e0);
    PteParts(m, Flags(e0));
    assert Entry(mem2, d, i) == Pte(m, Flags(e0));
    hide Present, Frame, Flags, Pte, Entry, KernelEntry;
    forall v | 0 <= v < i + 1 ensures CopiedPage(mem0, mem2, pgdir, d, v) {
      var e := Entry(mem2, d, v);
      assert Present(e) ==> own2[Frame(e)] == Data(v);
      if v < i {
        assert CopiedPage(mem0, mem, pgdir, d, v);
        assert e == Entry(mem, d, v);
        assert own[Frame(e)] == Data(v);
      }
    }
  }

  lemma NeedMono(m: int, n: int)
    requires 0 <= m <= n
    ensures Need(m) <= Need(n)
  {
  }

  lemma RequiredMore(own: map<int, Use>, own': map<int, Use>, i: int, n: int)
    requires AllRequired(own, i) && NewUses(own, own', i, n) && Grows(own, own') && 0 <= i && 0 <= n
    ensures AllRequired(own', i + n)
  {
  }

  /** copyuvm finds no page for page i. */
  lemma NoPage(mem: Memory, free: seq<int>, d: int, own: map<int, Use>, mem0: Memory, free0: seq<int>, i: int, n: int)
    requires Space(mem, free, d, own) && FreeOK(mem0, free0) && 0 <= i < n <= USER_PAGES
    requires Held(free, own) == FreeSet(free0) && free == [] && AllRequired(own, i)
    ensures |free0| < Need(n)
  {
    hide Need, Tree;
    assert own.Keys == FreeSet(free0);
    assert AllRequired(own, i + 1);
    OutOfPages(mem, free, d, own, mem0, free0, i + 1, Data(i));
    NeedMono(i + 1, n);
  }

  /** mappages finds no page for the table of page i, the page m for its contents being the last one. */
  lemma NoTablePage(mem: Memory, free: seq<int>, d: int, own: map<int, Use>, mem0: Memory, free0: seq<int>, i: int, n: int, m: int)
    requires Space(mem, free, d, own) && FreeOK(mem0, free0) && 0 <= i < n <= USER_PAGES
    requires Held(free, own) + {m} == FreeSet(free0) && free == [] && AllRequired(own, i)
    requires d in mem && NoTable(mem[d], i)
    ensures |free0| < Need(n)
  {
    var j := i / NPTENTRIES;
    TreeUnique(mem, d, own);
    forall p | p in own ensures own[p] != Table(j) {
      hide Entry, Frame, Present;
      assert UsedAs(mem, d, p, own[p]);
    }
    var all := own[m := Data(i)];
    hide Need, Tree, Present;
    assert all.Keys == FreeSet(free0);
    assert Unique(all) by { assert forall p :: p in own ==> own[p] != Data(i); }
    TooFew(all, i + 1, Table(j));
    SetCount(free0);
    NeedMono(i + 1, n);
  }

  lemma CopyUses(mem0: Memory, mem: Memory, free0: seq<int>, free: seq<int>, pgdir: int, d: int,
                 pown: map<int, Use>, own: map<int, Use>, data: int, n: int)
    requires GoodData(data) && Copying(mem0, mem, free0, free, pgdir, d, pown, own, data, n, n)
    ensures |free0| >= Need(n)
  {
    forall u | Required(u, n) ensures u in UsesOf(own, own.Keys) {
      match u
      case Directory =>
        assert d in own.Keys && own[d] == Directory;
      case Table(i) =>
        hide Present, Entry, KernelEntry, Tree, Frame, Flags;
        if i * NPTENTRIES < n {
          assert CopiedPage(mem0, mem, pgdir, d, i * NPTENTRIES);
        } else {
          KernelPresent(data, i);
        }
        TableUsed(mem, d, own, i * NPTENTRIES);
      case Data(v) =>
        hide Present, Entry, KernelEntry, Tree, Frame, Flags;
        assert CopiedPage(mem0, mem, pgdir, d, v);
        TableUsed(mem, d, own, v);
    }
    HasPages(mem, free, d, own, mem0, free0, n);
  }

  lemma PageLength(mem: Memory, free: seq<int>, d: int, own: map<int, Use>, f: int)
    requires Space(mem, free, d, own) && f in mem
    ensures |mem[f]| == PAGE_WORDS
  {
  }

  lemma ViewAt(mem: Memory, mem': Memory, d: int, v: int)
    requires SameView(mem, mem', d)
    ensures Entry(mem', d, v) == Entry(mem, d, v)
  {
  }

  lemma OwnFrame(mem: Memory, d: int, own: map<int, Use>, v: int)
    requires Tree(mem, d, own) && 0 <= v < USER_PAGES && Present(Entry(mem, d, v))
    ensures Frame(Entry(mem, d, v)) in own && Frame(Entry(mem, d, v)) in mem && own[Frame(Entry(mem, d, v))] == Data(v)
    ensures 0 <= Flags(Entry(mem, d, v)) < PGSIZE
  {
  }

  /** One user page as mappages sees it. */
  lemma OnePage(mem: Memory, free: seq<int>, own: map<int, Use>, i: int, m: int)
    requires m in mem && m !in Held(free, own)
    ensures (i * PGSIZE) / PGSIZE == i && (m * PGSIZE) / PGSIZE == m && (m * PGSIZE) % PGSIZE == 0
    ensures Span(i * PGSIZE, PGSIZE) == 1 && CanGive(mem, free, own, i, 1, m)
    ensures Given(i, 0, m) == {} && (i < USER_PAGES ==> Given(i, 1, m) == {m})
  {
    PageParts(i, 0);
    PageParts(m, 0);
    PageParts(i, PGSIZE - 1);
    assert Given(i, 0, m) == {};
  }

  lemma TakenUntouched(mem0: Memory, mem: Memory, s: set<int>, m: int, page: seq<int>, free: seq<int>, own: map<int, Use>)
    requires Untouched(mem0, mem, s) && m in mem && Held(free, own) + {m} == s
    ensures Untouched(mem0, mem[m := page], s)
  {
  }

  lemma MapUntouched(mem0: Memory, mem: Memory, mem': Memory, s: set<int>, free: seq<int>, own: map<int, Use>)
    requires Untouched(mem0, mem, s) && Kept(mem, mem', own) && Held(free, own) <= s
    ensures Untouched(mem0, mem', s) && mem'.Keys == mem.Keys
  {
  }

  lemma KernelBelow(mem0: Memory, mem: Memory, pgdir: int, d: int, data: int, i: int)
    requires CopyView(mem0, mem, pgdir, d, data, i) && 0 <= i < USER_PAGES
    ensures !Present(Entry(mem, d, i))
  {
  }

  lemma CopyParts(mem0: Memory, mem: Memory, free0: seq<int>, free: seq<int>, pgdir: int, d: int,
                  pown: map<int, Use>, own: map<int, Use>, data: int, i: int, n: int)
    requires Copying(mem0, mem, free0, free, pgdir, d, pown, own, data, i, n)
    ensures Space(mem, free, d, own) && Held(free, own) == FreeSet(free0) && Untouched(mem0, mem, FreeSet(free0))
    ensures CopyView(mem0, mem, pgdir, d, data, i)
  {
  }

  lemma HeldParts(free: seq<int>, own: map<int, Use>, s: set<int>)
    requires Held(free, own) == s
    ensures FreeSet(free) + own.Keys == s && own.Keys <= s
  {
  }

  /** The pages of the copy were free before and differ from each other. */
  lemma CopyFresh(mem: Memory, free: seq<int>, d: int, own: map<int, Use>, free0: seq<int>, v: int, w: int)
    requires Space(mem, free, d, own) && Held(free, own) == FreeSet(free0) && 0 <= v < w < USER_PAGES
    requires Present(Entry(mem, d, v)) && Present(Entry(mem, d, w))
    ensures Frame(Entry(mem, d, v)) in free0 && Frame(Entry(mem, d, v)) !in free
    ensures Frame(Entry(mem, d, v)) != Frame(Entry(mem, d, w))
  {
    hide Tree;
    OwnFrame(mem, d, own, v);
    OwnFrame(mem, d, own, w);
    hide Entry, Frame, Present, Flags;
    assert Frame(Entry(mem, d, v)) in FreeSet(free0);
  }

  // ---------- growing an address space ----------

  /** No user page from lo up to hi is mapped. */
  ghost predicate NonePresent(mem: Memory, d: int, lo: int, hi: int) {
    forall v :: lo <= v < hi ==> !Present(Entry(mem, d, v))
  }

  /** The first page from lo up to hi that is mapped, hi if none is. */
  ghost function FirstMapped(mem: Memory, d: int, lo: int, hi: int): (stop: int)
    requires lo <= hi
    ensures lo <= stop <= hi && NonePresent(mem, d, lo, stop) && (stop < hi ==> Present(Entry(mem, d, stop)))
    decreases hi - lo
  {
    if lo == hi || Present(Entry(mem, d, lo)) then lo else FirstMapped(mem, d, lo + 1, hi)
  }

  /** v is mapped writable for the user to a page of zeros. */
  ghost predicate ZeroPage(mem: Memory, d: int, v: int) {
    var e := Entry(mem, d, v);
    Present(e) && Flags(e) == PTE_P + PTE_W + PTE_U && Frame(e) in mem && mem[Frame(e)] == Filled(0)
  }

  ghost predicate GrowView(mem0: Memory, mem: Memory, d: int, lo: int, hi: int) {
    && (forall v :: lo <= v < hi ==> ZeroPage(mem, d, v))
    && (forall v :: !(lo <= v < hi) ==> Entry(mem, d, v) == Entry(mem0, d, v))
  }

  /** The same pages are mapped, with the same words. */
  ghost predicate SameMap(mem0: Memory, mem: Memory, d: int) {
    forall v :: Present(Entry(mem, d, v)) == Present(Entry(mem0, d, v)) &&
                (Present(Entry(mem0, d, v)) ==> Entry(mem, d, v) == Entry(mem0, d, v))
  }

  /** Pages of others, and data pages there already, keep their contents. */
  ghost predicate KeepsData(mem0: Memory, mem: Memory, free0: seq<int>, own0: map<int, Use>) {
    && mem.Keys == mem0.Keys
    && (forall p :: p in mem0 && (p !in Held(free0, own0) || (p in own0 && own0[p].Data?)) ==> mem[p] == mem0[p])
  }

  /** No page from lo up to hi is mapped, every other entry is as it was. */
  ghost predicate Cleared(mem0: Memory, mem: Memory, d: int, lo: int, hi: int) {
    NonePresent(mem, d, lo, hi) && forall v :: !(lo <= v < hi) ==> Entry(mem, d, v) == Entry(mem0, d, v)
  }

  /** Pages of others, and data pages there already that are not mapped from lo up to hi, keep their contents. */
  ghost predicate KeepsOther(mem0: Memory, mem: Memory, free0: seq<int>, own0: map<int, Use>, lo: int, hi: int) {
    && mem.Keys == mem0.Keys
    && (forall p :: p in mem0 && (p !in Held(free0, own0) || (p in own0 && own0[p].Data? && !(lo <= own0[p].v < hi))) ==> mem[p] == mem0[p])
  }

  /** Clearing from lo up to hi keeps the map exactly if nothing was mapped there. */
  lemma LostIff(mem0: Memory, mem: Memory, d: int, lo: int, hi: int)
    requires lo <= hi && Cleared(mem0, mem, d, lo, hi)
    ensures SameMap(mem0, mem, d) <==> FirstMapped(mem0, d, lo, hi) == hi
  {
    hide Entry, Present;
    var stop := FirstMapped(mem0, d, lo, hi);
    assert stop < hi ==> !Present(Entry(mem, d, stop));
  }

  /** If nothing was mapped from lo up to hi, nothing is lost by clearing it. */
  lemma NoneLost(mem0: Memory, mem: Memory, free0: seq<int>, d: int, own0: map<int, Use>, lo: int, hi: int)
    requires Space(mem0, free0, d, own0) && NonePresent(mem0, d, lo, hi) && Cleared(mem0, mem, d, lo, hi)
    requires KeepsOther(mem0, mem, free0, own0, lo, hi)
    ensures Without(own0, lo, hi) == own0 && SameMap(mem0, mem, d) && KeepsData(mem0, mem, free0, own0)
  {
    hide Entry, Present, Frame, Flags, Held;
    forall p | p in own0 && own0[p].Data? ensures !(lo <= own0[p].v < hi) {
      assert UsedAs(mem0, d, p, own0[p]);
    }
  }

  /** The state of allocuvm before page a; hand is a page taken from the list and not yet entered. */
  ghost predicate Growing(mem0: Memory, mem: Memory, free0: seq<int>, free: seq<int>, d: int,
                          own0: map<int, Use>, own: map<int, Use>, lo: int, a: int, hand: set<int>) {
    && 0 <= lo <= a <= USER_PAGES
    && Space(mem0, free0, d, own0) && Space(mem, free, d, own) && Grows(own0, own) && NewUses(own0, own, lo, a - lo)
    && Held(free, own) + hand == Held(free0, own0) && hand !! Held(free, own)
    && GrowView(mem0, mem, d, lo, a) && KeepsData(mem0, mem, free0, own0)
  }

  lemma GrowStart(mem: Memory, free: seq<int>, d: int, own: map<int, Use>, lo: int)
    requires Space(mem, free, d, own) && 0 <= lo <= USER_PAGES
    ensures Growing(mem, mem, free, free, d, own, own, lo, lo, {})
  {
    hide Tree, Entry;
  }

  lemma GrowTake(mem0: Memory, mem: Memory, free0: seq<int>, free: seq<int>, free': seq<int>, d: int,
                 own0: map<int, Use>, own: map<int, Use>, lo: int, a: int, m: int)
    requires Growing(mem0, mem, free0, free, d, own0, own, lo, a, {}) && free == [m] + free' && m !in free'
    ensures m in mem && m !in Held(free', own)
    ensures Growing(mem0, mem[m := Filled(0)], free0, free', d, own0, own, lo, a, {m}) && SameView(mem, mem[m := Filled(0)], d)
  {
    hide Tree, Entry, Present, Frame, Flags, Held, GrowView, KeepsData, NewUses;
    TakePage(mem, free, d, own, m, free');
    WritePage(mem, free', d, own, m, Filled(0));
    NotHeld(mem0, free0, d, own0, free, own, m, free');
    GrowViewWrite(mem0, mem, free', d, own, lo, a, m);
    KeepsDataWrite(mem0, mem, free0, own0, m);
  }

  lemma NotHeld(mem0: Memory, free0: seq<int>, d: int, own0: map<int, Use>, free: seq<int>, own: map<int, Use>, m: int, free': seq<int>)
    requires Space(mem0, free0, d, own0) && Held(free, own) + {} == Held(free0, own0) && Grows(own0, own)
    requires m !in own && Held(free, own) == Held(free', own) + {m}
    ensures m !in own0 && m in Held(free0, own0)
  {
  }

  lemma GrowViewWrite(mem0: Memory, mem: Memory, free: seq<int>, d: int, own: map<int, Use>, lo: int, a: int, m: int)
    requires 0 <= lo <= a <= USER_PAGES && GrowView(mem0, mem, d, lo, a) && Space(mem, free, d, own) && m in mem && m !in own
    requires SameView(mem, mem[m := Filled(0)], d)
    ensures GrowView(mem0, mem[m := Filled(0)], d, lo, a)
  {
    hide Entry, Present, Frame, Flags;
    var mem' := mem[m := Filled(0)];
    forall v | lo <= v < a ensures ZeroPage(mem', d, v) {
      assert ZeroPage(mem, d, v);
      assert Frame(Entry(mem, d, v)) in own;
    }
  }

  lemma KeepsDataWrite(mem0: Memory, mem: Memory, free0: seq<int>, own0: map<int, Use>, m: int)
    requires KeepsData(mem0, mem, free0, own0) && m in mem && m !in own0 && m in Held(free0, own0)
    ensures KeepsData(mem0, mem[m := Filled(0)], free0, own0)
  {
  }

  /** The page in hand has been entered for a. */
  lemma GrowMap(mem0: Memory, mem: Memory, mem': Memory, free0: seq<int>, free: seq<int>, free': seq<int>, d: int,
                own0: map<int, Use>, own: map<int, Use>, own': map<int, Use>, lo: int, a: int, m: int)
    requires Growing(mem0, mem, free0, free, d, own0, own, lo, a, {m}) && a < USER_PAGES && m in mem && mem[m] == Filled(0)
    requires MapView(mem, mem', d, a, 1, m, PTE_W + PTE_U) && Space(mem', free', d, own') && Kept(mem, mem', own')
    requires Grows(own, own') && NewUses(own, own', a, 1) && Held(free', own') == Held(free, own) + Given(a, 1, m) && Given(a, 1, m) == {m}
    ensures Growing(mem0, mem', free0, free', d, own0, own', lo, a + 1, {})
  {
    hide Tree, Entry, Present, Frame, Flags, GrowView, NewUses, MapView, Pte, Given, KeepsData, Kept, Space;
    NewUsesMore(own0, own, own', lo, a - lo);
    GrowViewMap(mem0, mem, mem', free, free', d, own, own', lo, a, m);
    KeepsDataMap(mem0, mem, mem', free0, own0, own');
  }

  lemma KeepsDataMap(mem0: Memory, mem: Memory, mem': Memory, free0: seq<int>, own0: map<int, Use>, own': map<int, Use>)
    requires KeepsData(mem0, mem, free0, own0) && Kept(mem, mem', own') && own'.Keys <= Held(free0, own0)
    requires forall p :: p in own0 ==> p in own' && own'[p] == own0[p]
    ensures KeepsData(mem0, mem', free0, own0)
  {
    hide Held;
  }

  lemma GrowViewMap(mem0: Memory, mem: Memory, mem': Memory, free: seq<int>, free': seq<int>, d: int,
                    own: map<int, Use>, own': map<int, Use>, lo: int, a: int, m: int)
    requires 0 <= lo <= a < USER_PAGES && GrowView(mem0, mem, d, lo, a) && m in mem && mem[m] == Filled(0)
    requires MapView(mem, mem', d, a, 1, m, PTE_W + PTE_U) && Space(mem', free', d, own') && Kept(mem, mem', own')
    ensures GrowView(mem0, mem', d, lo, a + 1)
  {
    PteParts(m, PTE_W + PTE_U);
    assert Entry(mem', d, a) == Pte(m, PTE_W + PTE_U);
    hide Entry, Present, Frame, Flags, Pte;
    forall v | lo <= v < a + 1 ensures ZeroPage(mem', d, v) {
      assert v < a ==> ZeroPage(mem, d, v);
      assert Present(Entry(mem', d, v));
      assert own'[Frame(Entry(mem', d, v))] == Data(v);
    }
  }

  /** deallocuvm undoes what allocuvm has done so far, except for new tables, and takes with it
      whatever was mapped above. */
  lemma GrowUndo(mem0: Memory, mem1: Memory, mem2: Memory, free0: seq<int>, free1: seq<int>, free2: seq<int>, d: int,
                 own0: map<int, Use>, own1: map<int, Use>, own2: map<int, Use>, lo: int, a: int, hi: int, hand: set<int>)
    requires Growing(mem0, mem1, free0, free1, d, own0, own1, lo, a, hand) && a <= hi
    requires Swept(mem1, mem2, free1, free2, d, own1, own2, lo, hi)
    ensures Space(mem2, free2, d, own2) && Cleared(mem0, mem2, d, lo, hi) && MoreTables(Without(own0, lo, hi), own2)
    ensures Held(free2, own2) + hand == Held(free0, own0) && hand !! Held(free2, own2) && KeepsOther(mem0, mem2, free0, own0, lo, hi)
  {
    ZeroAbsent();
    hide Tree, Entry, Present, Frame, Flags, Held, Space;
    forall p | p in own2 && p !in Without(own0, lo, hi) ensures own2[p].Table? {
      assert p !in own0 ==> NewUse(own1[p], lo, a - lo);
    }
    assert KeepsOther(mem0, mem2, free0, own0, lo, hi) by { UndoData(mem0, mem1, mem2, free0, free1, own0, own1, own2, lo, hi, hand); }
  }

  lemma UndoData(mem0: Memory, mem1: Memory, mem2: Memory, free0: seq<int>, free1: seq<int>,
                 own0: map<int, Use>, own1: map<int, Use>, own2: map<int, Use>, lo: int, hi: int, hand: set<int>)
    requires KeepsData(mem0, mem1, free0, own0) && Frozen(mem1, mem2, own1, own2) && Held(free1, own1) + hand == Held(free0, own0)
    requires forall p :: p in Without(own0, lo, hi) ==> p in own2 && own2[p] == own0[p]
    ensures KeepsOther(mem0, mem2, free0, own0, lo, hi)
  {
    assert forall p :: p in own1 ==> p in Held(free1, own1);
  }

  /** kfree of the page in hand. */
  lemma GrowGive(mem0: Memory, mem: Memory, free0: seq<int>, free: seq<int>, d: int, own0: map<int, Use>, own: map<int, Use>,
                 lo: int, hi: int, m: int, junk: int)
    requires Space(mem, free, d, own) && Cleared(mem0, mem, d, lo, hi) && KeepsOther(mem0, mem, free0, own0, lo, hi)
    requires MoreTables(Without(own0, lo, hi), own)
    requires Held(free, own) + {m} == Held(free0, own0) && m !in Held(free, own) && m in mem
    ensures var mem', free' := mem[m := Filled(junk)], [m] + free;
            && Space(mem', free', d, own) && Cleared(mem0, mem', d, lo, hi) && KeepsOther(mem0, mem', free0, own0, lo, hi)
            && Held(free', own) == Held(free0, own0)
  {
    hide Entry, Present, Tree;
    GivePage(mem, free, d, own, m, junk);
    assert m !in Without(own0, lo, hi) && m in Held(free0, own0);
  }

  /** Directory 1 and table 2 map page 3 at virtual page 1, and nothing else. */
  ghost predicate OneMapped(mem: Memory, pde: int, pte: int) {
    && mem.Keys == {1, 2, 3} && Pages(mem) && Present(pde) && Frame(pde) == 2 && Present(pte) && Frame(pte) == 3
    && (forall i :: 0 <= i < PAGE_WORDS ==> mem[1][i] == if i == 0 then pde else 0)
    && (forall i :: 0 <= i < PAGE_WORDS ==> mem[2][i] == if i == 1 then pte else 0)
  }

  lemma OneEntry(mem: Memory, pde: int, pte: int, v: int)
    requires OneMapped(mem, pde, pte)
    ensures Entry(mem, 1, v) == if v == 1 then pte else 0
  {
    ZeroAbsent();
    hide Present, Frame;
  }

  lemma OneTree(mem: Memory, pde: int, pte: int)
    requires OneMapped(mem, pde, pte)
    ensures Space(mem, [], 1, map[1 := Directory, 2 := Table(0), 3 := Data(1)])
  {
    ZeroAbsent();
    hide Present, Frame, Entry;
    OneEntry(mem, pde, pte, 1);
    forall v | 0 <= v < USER_PAGES && Present(Entry(mem, 1, v)) ensures v == 1 {
      OneEntry(mem, pde, pte, v);
    }
  }

  lemma OneFirst(mem: Memory, pde: int, pte: int)
    requires OneMapped(mem, pde, pte)
    ensures FirstMapped(mem, 1, 0, 2) == 1 && 1 in mem && 0 < |Wanted(mem[1], 0, 2)|
  {
    ZeroAbsent();
    OneEntry(mem, pde, pte, 0);
    OneEntry(mem, pde, pte, 1);
    hide Present, Frame, Entry, Wanted;
    assert Data(0) in Wanted(mem[1], 0, 2);
  }

  lemma OneMemory(pde: int, pte: int) returns (mem: Memory)
    requires Present(pde) && Frame(pde) == 2 && Present(pte) && Frame(pte) == 3
    ensures OneMapped(mem, pde, pte)
  {
    hide Present, Frame;
    var zero := Filled(0);
    mem := map[1 := zero[0 := pde], 2 := zero[1 := pte], 3 := zero];
  }

  /** An input on which a failing allocuvm loses a page: no page is free, so growing from 0 to two pages
      fails at virtual page 0, and virtual page 1 is mapped. */
  lemma LosingInput() returns (mem: Memory, own: map<int, Use>)
    ensures Space(mem, [], 1, own) && FirstMapped(mem, 1, 0, 2) == 1
    ensures 1 in mem && 0 < |Wanted(mem[1], 0, 2)|
  {
    var pde, pte := Pte(2, PTE_P + PTE_W + PTE_U), Pte(3, PTE_P + PTE_W + PTE_U);
    PteParts(2, PTE_P + PTE_W + PTE_U);
    PteParts(3, PTE_P + PTE_W + PTE_U);
    hide Present, Frame, Pte, Entry, Space, OneMapped, FirstMapped, Wanted;
    mem := OneMemory(pde, pte);
    own := map[1 := Directory, 2 := Table(0), 3 := Data(1)];
    OneTree(mem, pde, pte);
    OneFirst(mem, pde, pte);
  }

  // ---------- how many pages growing takes ----------

  /** Uses that growing from lo to hi adds: the pages, and the tables that are not there yet. */
  ghost predicate WantedUse(u: Use, pgdir: seq<int>, lo: int, hi: int) {
    match u
    case Directory => false
    case Table(i) => 0 <= i < |pgdir| && !Present(pgdir[i]) && lo < hi && lo / NPTENTRIES <= i && i * NPTENTRIES < hi
    case Data(v) => lo <= v < hi
  }

  ghost function Wanted(pgdir: seq<int>, lo: int, hi: int): (s: set<Use>)
    requires 0 <= lo && hi <= USER_PAGES
    ensures forall u :: u in s <==> WantedUse(u, pgdir, lo, hi)
  {
    var all := Tables(0, |pgdir|) + (if hi >= 0 then Datas(hi) else {});
    set u | u in all && WantedUse(u, pgdir, lo, hi)
  }

  /** Pages added to an address space. */
  ghost function Added(own0: map<int, Use>, own: map<int, Use>): map<int, Use> {
    own - own0.Keys
  }

  lemma AddedUse(mem0: Memory, mem: Memory, free0: seq<int>, free: seq<int>, d: int,
                 own0: map<int, Use>, own: map<int, Use>, lo: int, a: int, hi: int, hand: set<int>, p: int)
    requires Growing(mem0, mem, free0, free, d, own0, own, lo, a, hand) && a <= hi <= USER_PAGES && p in Added(own0, own)
    ensures d in mem0 && WantedUse(own[p], mem0[d], lo, hi) && own[p] != Data(a) && Added(own0, own)[p] == own[p]
  {
    hide Entry, Frame, Present, GrowView, KeepsData, Held;
    assert NewUse(own[p], lo, a - lo) && UsedAs(mem, d, p, own[p]);
    TreeUnique(mem, d, own);
    forall q | q in own0 ensures own0[q] != own[p] {
      assert own[q] == own0[q];
    }
  }

  lemma UniqueAdded(own0: map<int, Use>, own: map<int, Use>)
    requires Unique(own)
    ensures Unique(Added(own0, own))
  {
  }

  lemma CountBelow(all: map<int, Use>, free: seq<int>, w: set<Use>, u: Use)
    requires Unique(all) && all.Keys == FreeSet(free) && u in w && forall i, j :: 0 <= i < j < |free| ==> free[i] != free[j]
    requires forall p :: p in all ==> all[p] in w && all[p] != u
    ensures |free| < |w|
  {
    UseCount(all, all.Keys);
    forall x | x in UsesOf(all, all.Keys) ensures x in w - {u} {
      var p :| p in all && all[p] == x;
    }
    SubsetCount(UsesOf(all, all.Keys), w - {u});
    SetCount(free);
  }

  lemma AllAdded(mem0: Memory, mem: Memory, free0: seq<int>, free: seq<int>, d: int,
                 own0: map<int, Use>, own: map<int, Use>, lo: int, a: int, hand: set<int>)
    requires Growing(mem0, mem, free0, free, d, own0, own, lo, a, hand) && free == []
    ensures Added(own0, own).Keys + hand == FreeSet(free0) && Unique(Added(own0, own)) && d in mem0
    ensures forall i, j :: 0 <= i < j < |free0| ==> free0[i] != free0[j]
  {
    hide Tree, GrowView, KeepsData, NewUses;
    SpacePages(mem0, free0, d, own0);
    TreeUnique(mem, d, own);
    UniqueAdded(own0, own);
    AddedAll(mem0, free0, d, own0, own, hand);
  }

  /** kalloc finds nothing for page a. */
  lemma GrowNoPage(mem0: Memory, mem: Memory, free0: seq<int>, free: seq<int>, d: int,
                   own0: map<int, Use>, own: map<int, Use>, lo: int, a: int, hi: int)
    requires Growing(mem0, mem, free0, free, d, own0, own, lo, a, {}) && 0 <= lo <= a < hi <= USER_PAGES && free == []
    ensures d in mem0 && |free0| < |Wanted(mem0[d], lo, hi)|
  {
    hide Growing, Wanted, Added, Unique, FreeSet, Present;
    var all := Added(own0, own);
    AllAdded(mem0, mem, free0, free, d, own0, own, lo, a, {});
    forall p | p in all ensures all[p] in Wanted(mem0[d], lo, hi) && all[p] != Data(a) {
      AddedUse(mem0, mem, free0, free, d, own0, own, lo, a, hi, {}, p);
    }
    CountBelow(all, free0, Wanted(mem0[d], lo, hi), Data(a));
  }

  /** mappages finds nothing for the table of page a, m being in hand. */
  lemma GrowNoTable(mem0: Memory, mem: Memory, free0: seq<int>, free: seq<int>, d: int,
                    own0: map<int, Use>, own: map<int, Use>, lo: int, a: int, hi: int, m: int)
    requires Growing(mem0, mem, free0, free, d, own0, own, lo, a, {m}) && 0 <= lo <= a < hi <= USER_PAGES && free == []
    requires d in mem && NoTable(mem[d], a)
    ensures d in mem0 && |free0| < |Wanted(mem0[d], lo, hi)|
  {
    hide Growing, Wanted, Added, FreeSet, Present, NoTable;
    var added, u := Added(own0, own), Table(a / NPTENTRIES);
    AllAdded(mem0, mem, free0, free, d, own0, own, lo, a, {m});
    forall p | p in added ensures added[p] in Wanted(mem0[d], lo, hi) && added[p] != Data(a) && added[p] != u {
      AddedUse(mem0, mem, free0, free, d, own0, own, lo, a, hi, {m}, p);
      AddedNotThat(mem0, mem, free0, free, d, own0, own, lo, a, {m}, p);
    }
    MissingTable(mem0, mem, free0, free, d, own0, own, lo, a, {m});
    var all := added[m := Data(a)];
    assert all.Keys == FreeSet(free0);
    CountBelow(all, free0, Wanted(mem0[d], lo, hi), u);
  }

  lemma AddedNotThat(mem0: Memory, mem: Memory, free0: seq<int>, free: seq<int>, d: int,
                     own0: map<int, Use>, own: map<int, Use>, lo: int, a: int, hand: set<int>, p: int)
    requires Growing(mem0, mem, free0, free, d, own0, own, lo, a, hand) && d in mem && NoTable(mem[d], a) && p in Added(own0, own)
    ensures own[p] != Table(a / NPTENTRIES)
  {
    hide Tree, GrowView, KeepsData, NewUses, NoTable;
    NotThatTable(mem, d, own, a, p);
  }

  lemma MissingTable(mem0: Memory, mem: Memory, free0: seq<int>, free: seq<int>, d: int,
                     own0: map<int, Use>, own: map<int, Use>, lo: int, a: int, hand: set<int>)
    requires Growing(mem0, mem, free0, free, d, own0, own, lo, a, hand) && d in mem && NoTable(mem[d], a)
    ensures d in mem0 && 0 <= a / NPTENTRIES < |mem0[d]| && !Present(mem0[d][a / NPTENTRIES])
  {
    hide Tree, GrowView, KeepsData, NewUses, Present;
    SpacePages(mem0, free0, d, own0);
    TableStays(mem0, mem, d, own0, own, a / NPTENTRIES);
  }

  lemma NotThatTable(mem: Memory, d: int, own: map<int, Use>, v: int, p: int)
    requires Tree(mem, d, own) && NoTable(mem[d], v) && p in own
    ensures own[p] != Table(v / NPTENTRIES)
  {
    hide Entry, Frame, Present;
    assert UsedAs(mem, d, p, own[p]);
  }

  lemma TableStays(mem0: Memory, mem: Memory, d: int, own0: map<int, Use>, own: map<int, Use>, i: int)
    requires Tree(mem0, d, own0) && Tree(mem, d, own) && Grows(own0, own) && 0 <= i < NPDENTRIES
    ensures Present(mem0[d][i]) ==> Present(mem[d][i])
  {
    hide Entry, Frame, Present;
    if Present(mem0[d][i]) {
      var t := Frame(mem0[d][i]);
      assert own0[t] == Table(i);
      assert UsedAs(mem, d, t, own[t]);
    }
  }

  lemma AddedAll(mem0: Memory, free0: seq<int>, d: int, own0: map<int, Use>, own: map<int, Use>, hand: set<int>)
    requires Space(mem0, free0, d, own0) && Grows(own0, own) && own.Keys + hand == Held(free0, own0) && hand !! own.Keys
    ensures Added(own0, own).Keys + hand == FreeSet(free0)
  {
    hide Tree;
    forall p ensures p in Added(own0, own).Keys + hand <==> p in FreeSet(free0) {
      assert p in FreeSet(free0) <==> p in free0;
      assert p in own0 ==> p !in free0 && p in own;
    }
  }

  lemma GrowEnough(mem0: Memory, mem: Memory, free0: seq<int>, free: seq<int>, d: int,
                   own0: map<int, Use>, own: map<int, Use>, lo: int, hi: int)
    requires Growing(mem0, mem, free0, free, d, own0, own, lo, hi, {}) && NonePresent(mem0, d, lo, hi)
    ensures d in mem0 && |free0| >= |Wanted(mem0[d], lo, hi)|
  {
    hide Entry, Frame, Held, KeepsData, NewUses, Wanted, Flags;
    var added := Added(own0, own);
    TreeUnique(mem, d, own);
    forall u | u in Wanted(mem0[d], lo, hi) ensures u in UsesOf(added, added.Keys) {
      WantedAdded(mem0, mem, free0, free, d, own0, own, lo, hi, {}, u);
    }
    UniqueAdded(own0, own);
    AddedFree(mem0, mem, free0, free, d, own0, own, lo, hi, {});
    EnoughFree(added, free0, Wanted(mem0[d], lo, hi));
  }

  /** Pages added or in hand came from the free list. */
  lemma AddedFree(mem0: Memory, mem: Memory, free0: seq<int>, free: seq<int>, d: int,
                  own0: map<int, Use>, own: map<int, Use>, lo: int, a: int, hand: set<int>)
    requires Growing(mem0, mem, free0, free, d, own0, own, lo, a, hand)
    ensures Added(own0, own).Keys + hand <= FreeSet(free0) && hand !! Added(own0, own).Keys
    ensures forall i, j :: 0 <= i < j < |free0| ==> free0[i] != free0[j]
  {
    hide Tree, Entry, Frame, Present, GrowView, KeepsData, NewUses;
    forall p | p in Added(own0, own).Keys + hand ensures p in FreeSet(free0) {
      assert p in Held(free0, own0) && p !in own0;
    }
  }

  lemma EnoughFree(all: map<int, Use>, free: seq<int>, w: set<Use>)
    requires Unique(all) && all.Keys <= FreeSet(free) && w <= UsesOf(all, all.Keys)
    requires forall i, j :: 0 <= i < j < |free| ==> free[i] != free[j]
    ensures |free| >= |w|
  {
    hide UsesOf, FreeSet, Unique;
    UseCount(all, all.Keys);
    SubsetCount(w, UsesOf(all, all.Keys));
    SubsetCount(all.Keys, FreeSet(free));
    SetCount(free);
  }

  lemma WantedAdded(mem0: Memory, mem: Memory, free0: seq<int>, free: seq<int>, d: int,
                    own0: map<int, Use>, own: map<int, Use>, lo: int, hi: int, hand: set<int>, u: Use)
    requires Growing(mem0, mem, free0, free, d, own0, own, lo, hi, hand) && NonePresent(mem0, d, lo, hi)
    requires d in mem0 && WantedUse(u, mem0[d], lo, hi)
    ensures u in UsesOf(Added(own0, own), Added(own0, own).Keys)
  {
    var v := match u case Data(v) => v case Table(i) => (if lo < i * NPTENTRIES then i * NPTENTRIES else lo) case Directory => 0;
    assert lo <= v < hi && (u.Table? ==> v / NPTENTRIES == u.i);
    assert ZeroPage(mem, d, v);
    AbsentTable(mem, d, own, v);
    hide Entry, Frame, Present, Flags, Held, KeepsData, NewUses;
    var p := if u.Data? then Frame(Entry(mem, d, v)) else Frame(mem[d][v / NPTENTRIES]);
    assert p in own && own[p] == u;
    forall q | q in own0 ensures own0[q] != u {
      assert UsedAs(mem0, d, q, own0[q]);
    }
    assert p in Added(own0, own).Keys;
  }

  /** A page is in hand for a page that is mapped already: its table is there, so the pages taken so
      far are those wanted up to and with it. */
  lemma GrowStuck(mem0: Memory, mem: Memory, free0: seq<int>, free: seq<int>, d: int,
                  own0: map<int, Use>, own: map<int, Use>, lo: int, stop: int, m: int)
    requires Growing(mem0, mem, free0, free, d, own0, own, lo, stop, {m}) && NonePresent(mem0, d, lo, stop)
    requires stop < USER_PAGES && Present(Entry(mem0, d, stop))
    ensures d in mem0 && |free0| >= |Wanted(mem0[d], lo, stop + 1)|
  {
    GrowSpace(mem0, mem, free0, free, d, own0, own, lo, stop, {m});
    var added := Added(own0, own);
    var all, w := added[m := Data(stop)], Wanted(mem0[d], lo, stop + 1);
    AddedFree(mem0, mem, free0, free, d, own0, own, lo, stop, {m});
    assert Unique(all) by {
      StuckUnique(mem0, mem, free0, free, d, own0, own, lo, stop, m);
    }
    forall u | u in w ensures u in UsesOf(all, all.Keys) {
      hide Growing, Entry, Present, FreeSet, Unique, NonePresent, Wanted, Added;
      if u == Data(stop) {
        assert all[m] == u;
      } else {
        StuckTable(mem0, mem, free0, free, d, own0, own, lo, stop, m, u);
        WantedAdded(mem0, mem, free0, free, d, own0, own, lo, stop, {m}, u);
        var p :| p in added && added[p] == u;
        assert all[p] == u;
      }
    }
    hide Growing, Entry, Present, FreeSet, Unique, NonePresent, Wanted, Added, UsesOf;
    EnoughFree(all, free0, w);
  }

  lemma StuckUnique(mem0: Memory, mem: Memory, free0: seq<int>, free: seq<int>, d: int,
                    own0: map<int, Use>, own: map<int, Use>, lo: int, stop: int, m: int)
    requires Growing(mem0, mem, free0, free, d, own0, own, lo, stop, {m}) && stop < USER_PAGES
    ensures Unique(Added(own0, own)[m := Data(stop)])
  {
    assert Tree(mem, d, own);
    TreeUnique(mem, d, own);
    UniqueAdded(own0, own);
    var added := Added(own0, own);
    forall p | p in added ensures added[p] != Data(stop) {
      hide Growing;
      AddedUse(mem0, mem, free0, free, d, own0, own, lo, stop, stop, {m}, p);
    }
  }

  /** The table of a mapped page is not wanted. */
  lemma StuckTable(mem0: Memory, mem: Memory, free0: seq<int>, free: seq<int>, d: int,
                   own0: map<int, Use>, own: map<int, Use>, lo: int, stop: int, m: int, u: Use)
    requires Growing(mem0, mem, free0, free, d, own0, own, lo, stop, {m}) && stop < USER_PAGES && Present(Entry(mem0, d, stop))
    requires d in mem0 && WantedUse(u, mem0[d], lo, stop + 1) && u != Data(stop)
    ensures WantedUse(u, mem0[d], lo, stop)
  {
    AbsentTable(mem0, d, own0, stop);
    hide Growing, Entry, Frame, Present, Flags;
  }

  lemma GrowSpace(mem0: Memory, mem: Memory, free0: seq<int>, free: seq<int>, d: int,
                  own0: map<int, Use>, own: map<int, Use>, lo: int, a: int, hand: set<int>)
    requires Growing(mem0, mem, free0, free, d, own0, own, lo, a, hand)
    ensures Space(mem, free, d, own) && Pages(mem) && FreeOK(mem, free) && Held(free, own) + hand == Held(free0, own0)
    ensures hand !! Held(free, own) && GrowView(mem0, mem, d, lo, a) && KeepsData(mem0, mem, free0, own0) && mem.Keys == mem0.Keys
    ensures d in mem0 && |mem0[d]| == PAGE_WORDS
  {
  }

  lemma GrowEntry(mem0: Memory, mem: Memory, free0: seq<int>, free: seq<int>, d: int,
                   own0: map<int, Use>, own: map<int, Use>, lo: int, a: int, hand: set<int>)
    requires Growing(mem0, mem, free0, free, d, own0, own, lo, a, hand)
    ensures Entry(mem, d, a) == Entry(mem0, d, a)
  {
    hide Entry, Present, Tree, Held, KeepsData, NewUses;
  }

  lemma SweptKeys(mem: Memory, mem': Memory, free: seq<int>, free': seq<int>, d: int,
                  own: map<int, Use>, own': map<int, Use>, lo: int, hi: int)
    requires Swept(mem, mem', free, free', d, own, own', lo, hi)
    ensures mem'.Keys == mem.Keys
  {
  }
}
