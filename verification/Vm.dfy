/** vm.c and kalloc.c: page tables changed in place over a free list of pages. */
module Vm {
  import opened VmSpec

  datatype Outcome = Done | NoMemory | Panic

  /** copyuvm: the child's directory, 0, or one of its panics. */
  datatype Copy = Child(d: int) | Failed | Missing

  const JUNK := 0x01010101

  class Kernel {
    var mem: Memory
    var free: seq<int>

    /** kalloc; 0 is the null pointer. */
    method Kalloc() returns (r: int)
      requires Pages(mem) && FreeOK(mem, free)
      modifies this`free
      ensures FreeOK(mem, free) && (r == 0 <==> old(free) == [])
      ensures r == 0 ==> free == old(free)
      ensures r != 0 ==> old(free) == [r] + free && r !in free && r in mem
    {
      r := 0;
      if free != [] {
        r := free[0];
        free := free[1..];
      }
    }

    /** kfree; false is the panic for a page the allocator does not manage. */
    method Kfree(p: int) returns (ok: bool)
      modifies this
      ensures ok == (p in old(mem))
      ensures ok ==> mem == old(mem)[p := Filled(JUNK)] && free == [p] + old(free)
      ensures !ok ==> mem == old(mem) && free == old(free)
    {
      ok := p in mem;
      if ok {
        mem := mem[p := Filled(JUNK)];
        free := [p] + free;
      }
    }

    /** walkpgdir: the table that holds v's entry, or 0. */
    method Walkpgdir(d: int, v: int, alloc: bool, ghost own: map<int, Use>) returns (t: int, ghost own': map<int, Use>)
      requires Space(mem, free, d, own) && 0 <= v < ALL_PAGES
      modifies this
      ensures Space(mem, free, d, own') && SameView(old(mem), mem, d) && Kept(old(mem), mem, own')
      ensures MoreTables(own, own') && Held(free, own') == Held(old(free), own)
      ensures forall p :: p in own' && p !in own ==> own'[p] == Table(v / NPTENTRIES)
      ensures t == 0 <==> !Present(old(mem)[d][v / NPTENTRIES]) && (!alloc || old(free) == [])
      ensures t != 0 ==> Present(mem[d][v / NPTENTRIES]) && Frame(mem[d][v / NPTENTRIES]) == t
      ensures t == 0 || !alloc || Present(old(mem)[d][v / NPTENTRIES]) ==> mem == old(mem) && free == old(free) && own' == own
    {
      own' := own;
      var pde := mem[d][v / NPTENTRIES];
      if Present(pde) {
        t := Frame(pde);
      } else {
        t := 0;
        if alloc {
          if free != [] {
            Pop(mem, free, d, own, v / NPTENTRIES);
          }
          t := Kalloc();
          if t != 0 {
            PteParts(t, PTE_P + PTE_W + PTE_U);
            mem := mem[t := Filled(0)];
            mem := mem[d := mem[d][v / NPTENTRIES := Pte(t, PTE_P + PTE_W + PTE_U)]];
            own' := own[t := Table(v / NPTENTRIES)];
          }
        }
      }
    }

    /** The body of the loop of mappages: enter page f for page v. */
    method MapOne(d: int, v: int, f: int, perm: int, ghost own: map<int, Use>) returns (r: Outcome, ghost own': map<int, Use>)
      requires Space(mem, free, d, own) && 0 <= v < ALL_PAGES && 0 <= perm < PGSIZE && CanGive(mem, free, own, v, 1, f)
      modifies this
      ensures Space(mem, free, d, own') && Kept(old(mem), mem, own') && Grows(own, own') && NewUses(own, own', v, 1)
      ensures r == Panic <==> Present(Entry(old(mem), d, v))
      ensures r == Done ==> MapView(old(mem), mem, d, v, 1, f, perm) && Held(free, own') == Held(old(free), own) + Given(v, 1, f)
      ensures r == NoMemory ==> free == [] && d in mem && NoTable(mem[d], v)
      ensures r != Done ==> mem == old(mem) && free == old(free) && own' == own
    {
      hide Present, Frame, Entry, Pte, Tree, Given;
      ghost var mem0 := mem;
      assert v < USER_PAGES ==> f in mem && f !in Held(free, own);
      AbsentTable(mem, d, own, v);
      var t;
      t, own' := Walkpgdir(d, v, true, own);
      SpacePages(mem, free, d, own');
      if t == 0 {
        return NoMemory, own';
      }
      EntryIn(mem, d, own', v);
      if Present(mem[t][v % NPTENTRIES]) {
        return Panic, own';
      }
      MapOneFits(mem, free, d, own', v, f, perm);
      ghost var mem1 := mem;
      mem := mem[t := mem[t][v % NPTENTRIES := Pte(f, perm)]];
      own' := if v < USER_PAGES then own'[f := Data(v)] else own';
      r := Done;
    }

    /** mappages: va and size in bytes, pa on a page boundary as in every call. done counts the pages entered. */
    method Mappages(d: int, va: int, size: int, pa: int, perm: int, ghost own: map<int, Use>)
      returns (r: Outcome, ghost done: int, ghost own': map<int, Use>)
      requires Space(mem, free, d, own) && 0 <= va && 0 < size && va + size <= ALL_PAGES * PGSIZE
      requires 0 <= perm < PGSIZE && pa % PGSIZE == 0
      requires CanGive(mem, free, own, va / PGSIZE, Span(va, size), pa / PGSIZE)
      modifies this
      ensures Space(mem, free, d, own') && Kept(old(mem), mem, own') && Grows(own, own') && NewUses(own, own', va / PGSIZE, done)
      ensures 0 <= done <= Span(va, size) && (r == Done <==> done == Span(va, size))
      ensures MapView(old(mem), mem, d, va / PGSIZE, done, pa / PGSIZE, perm)
      ensures forall v :: va / PGSIZE <= v < va / PGSIZE + done ==> !Present(Entry(old(mem), d, v))
      ensures r == Panic <==> done < Span(va, size) && Present(Entry(old(mem), d, va / PGSIZE + done))
      ensures r == NoMemory ==> free == [] && d in mem && NoTable(mem[d], va / PGSIZE + done)
      ensures done == 0 ==> mem == old(mem) && free == old(free) && own' == own
      ensures Held(free, own') == Held(old(free), own) + Given(va / PGSIZE, done, pa / PGSIZE)
    {
      hide Present, Frame, Entry, Pte, Tree, Space, Given, Held, Kept, Grows, NewUses, CanGive, MapView;
      ghost var mem0, free0, a0, f0 := mem, free, va / PGSIZE, pa / PGSIZE;
      var a, last, f := va / PGSIZE, (va + size - 1) / PGSIZE, pa / PGSIZE;
      done, own' := 0, own;
      MapNone(mem, d, own, a0, f0, perm, free);
      while true
        invariant a == a0 + done && f == f0 + done && 0 <= done < Span(va, size)
        invariant Mapped(mem0, mem, free0, free, d, own, own', a0, done, f0, perm)
        invariant done == 0 ==> mem == mem0 && free == free0 && own' == own
        decreases last - a
      {
        GiveNext(mem0, mem, free0, free, own, own', d, a0, done, Span(va, size), f0, perm);
        ghost var mem1, free1, own1 := mem, free, own';
        var q;
        q, own' := MapOne(d, a, f, perm, own');
        MapViewAt(mem0, mem1, d, a0, done, f0, perm, a);
        if q != Done {
          return q, done, own';
        }
        MapStep(mem0, mem1, mem, free0, free1, free, d, own, own1, own', a0, done, f0, perm);
        done := done + 1;
        if a == last {
          break;
        }
        a := a + 1;
        f := f + 1;
      }
      r := Done;
    }

    /** The body of the loop of deallocuvm: page a goes, or the jump over an absent table; the page to look at next. */
    method DeallocOne(d: int, a: int, ghost own: map<int, Use>, ghost mem0: Memory, ghost free0: seq<int>, ghost own0: map<int, Use>, ghost lo: int, ghost hi: int)
      returns (ok: bool, a': int, ghost own': map<int, Use>)
      requires 0 <= lo <= a < hi <= USER_PAGES && Tree(mem0, d, own0) && Swept(mem0, mem, free0, free, d, own0, own, lo, a)
      modifies this
      ensures ok && a < a' <= USER_PAGES && Swept(mem0, mem, free0, free, d, own0, own', lo, Min(a', hi))
    {
      hide Present, Frame, Entry, Tree, ClearView, Without, Frozen, Held, FreeOK, Apart;
      ghost var mem1, free1 := mem, free;
      var t;
      ok, own' := true, own;
      t, own' := Walkpgdir(d, a, false, own);
      if t == 0 {
        AbsentRange(mem, d, own, a);
        a' := (a / NPTENTRIES + 1) * NPTENTRIES - 1;
        SweepAbsent(mem0, mem, free0, free, d, own0, own, lo, a, Min(a' + 1, hi));
      } else {
        a' := a;
        EntryIn(mem, d, own, a);
        var pte := mem[t][a % NPTENTRIES];
        if Present(pte) {
          ClearFits(mem, free, d, own, a, JUNK);
          var f := Frame(pte);
          if f == 0 {
            ok := false;
          }
          var freed := Kfree(f);
          ok := ok && freed;
          mem := mem[t := mem[t][a % NPTENTRIES := 0]];
          own' := own - {f};
          SweepOne(mem0, mem1, mem, free0, free1, free, d, own0, own, own', lo, a, f);
        } else {
          SweepAbsent(mem0, mem, free0, free, d, own0, own, lo, a, a + 1);
        }
      }
      a' := a' + 1;
    }

    /** deallocuvm: sizes in bytes; never panics on a well-formed address space. */
    method Deallocuvm(d: int, oldsz: int, newsz: int, ghost own: map<int, Use>) returns (ok: bool, r: int, ghost own': map<int, Use>)
      requires Space(mem, free, d, own) && 0 <= newsz && 0 <= oldsz <= USER_PAGES * PGSIZE
      modifies this
      ensures ok && r == if newsz >= oldsz then oldsz else newsz
      ensures Swept(old(mem), mem, old(free), free, d, own, own', Ceil(newsz), if newsz >= oldsz then Ceil(newsz) else Ceil(oldsz))
    {
      assert Tree(mem, d, own);
      hide Space, ClearView, Without, Frozen, Held, Swept;
      ok, r, own' := true, oldsz, own;
      SweepNone(mem, free, d, own, Ceil(newsz));
      if newsz >= oldsz {
        return;
      }
      var a := (newsz + PGSIZE - 1) / PGSIZE;
      while a * PGSIZE < oldsz
        invariant Ceil(newsz) <= a <= USER_PAGES && ok
        invariant Swept(old(mem), mem, old(free), free, d, own, own', Ceil(newsz), Min(a, Ceil(oldsz)))
        decreases USER_PAGES - a
      {
        ok, a, own' := DeallocOne(d, a, own', old(mem), old(free), own, Ceil(newsz), Ceil(oldsz));
      }
      r := newsz;
    }

    /** The second loop of freevm: the table of directory entry i goes. */
    method FreeTables(d: int, ghost own: map<int, Use>) returns (ok: bool)
      requires Space(mem, free, d, own) && (forall p :: p in own ==> !own[p].Data?)
      modifies this
      ensures ok && FreeOK(mem, free) && Pages(mem) && FreeSet(free) == FreeSet(old(free)) + own.Keys - {d}
      ensures mem.Keys == old(mem).Keys && forall p :: p in mem && (p !in own || p == d) ==> mem[p] == old(mem)[p]
    {
      hide Present, Frame, Entry;
      ok := true;
      var i := 0;
      FreedNone(mem, free, d, own);
      while i < NPDENTRIES
        invariant 0 <= i <= NPDENTRIES && ok && d in mem && |mem[d]| == PAGE_WORDS
        invariant Freed(old(mem), mem, old(free), free, d, own, i)
      {
        hide FreeOK, Freed, Space;
        FreedNext(old(mem), mem, old(free), free, d, own, i, JUNK);
        if Present(mem[d][i]) {
          ok := Kfree(Frame(mem[d][i]));
        }
        i := i + 1;
      }
      FreedAll(old(mem), mem, old(free), free, d, own);
    }

    /** freevm: every page of the address space goes back, nothing else changes. */
    method Freevm(d: int, ghost own: map<int, Use>) returns (ok: bool)
      requires Space(mem, free, d, own)
      modifies this
      ensures ok && FreeOK(mem, free) && Pages(mem) && FreeSet(free) == FreeSet(old(free)) + own.Keys
      ensures mem.Keys == old(mem).Keys && forall p :: p in mem && p !in own ==> mem[p] == old(mem)[p]
    {
      hide Present, Frame, Entry;
      var r; ghost var own1;
      ok, r, own1 := Deallocuvm(d, USER_PAGES * PGSIZE, 0, own);
      OnlyTables(old(mem), d, own);
      assert own1 == Without(own, 0, USER_PAGES);
      assert d in own1 && own1.Keys <= own.Keys;
      hide Tree, ClearView, Without, Held;
      var ok1 := FreeTables(d, own1);
      hide FreeSet;
      PushSet(d, free);
      assert d !in free;
      var ok2 := Kfree(d);
      ok := ok && ok1 && ok2;
    }

    /** setupkvm: a directory with the kernel's mappings, or 0 with the free pages as they were. */
    method Setupkvm(data: int) returns (ok: bool, d: int, ghost own: map<int, Use>)
      requires Pages(mem) && FreeOK(mem, free) && GoodData(data)
      modifies this
      ensures ok && Pages(mem) && FreeOK(mem, free) && Untouched(old(mem), mem, FreeSet(old(free)))
      ensures d == 0 <==> |old(free)| < Need(0)
      ensures d == 0 ==> FreeSet(free) == FreeSet(old(free))
      ensures d != 0 ==>
        && Space(mem, free, d, own) && Held(free, own) == FreeSet(old(free))
        && KernelView(mem, d, data, ALL_PAGES) && AllRequired(own, 0)
    {
      hide AllRequired, NewUses, Need, Present, Frame, Entry, Pte, Tree, Held, FreeSet, KernelView, FreeOK, Untouched, Kept, MapView, CanGive, KmapTable, Span, Given;
      ok, own := true, map[];
      UntouchedNone(mem, FreeSet(free));
      d := Kalloc();
      if d == 0 {
        assert |old(free)| < Need(0) by { NeedPositive(0); }
        return;
      }
      EmptySpace(mem, old(free), d, data, free);
      mem := mem[d := Filled(0)];
      own := map[d := Directory];
      OnlyDirectory(d, 0);
      if KERNBASE + PHYSTOP > DEVSPACE {
        return false, d, own;
      }
      var k := 0;
      while k < 4
        invariant 0 <= k <= 4 && ok && Space(mem, free, d, own) && Held(free, own) == FreeSet(old(free))
        invariant AllRequired(own, 0) && KernelView(mem, d, data, RowStart(data, k)) && Untouched(old(mem), mem, FreeSet(old(free)))
      {
        var row := KmapTable(data)[k];
        RowFits(data, k);
        var size := (row.end - row.start) % WIDTH;
        GiveKernel(mem, free, own, row.virt / PGSIZE, Span(row.virt, size), row.start / PGSIZE);
        RowFree(mem, d, data, k);
        ghost var mem1, own1 := mem, own;
        var r; ghost var done;
        r, done, own := Mappages(d, row.virt, size, row.start, row.perm, own);
        GivenKernel(row.virt / PGSIZE, done, row.start / PGSIZE);
        KernelUntouched(old(mem), mem1, mem, FreeSet(old(free)), free, own);
        RowUses(mem, d, own1, own, data, k, done);
        if r != Done {
          RowFails(mem, free, d, own, old(mem), old(free), data, k, done);
          ghost var mem2 := mem;
          ok := Freevm(d, own);
          UntouchedMore(old(mem), mem2, mem, FreeSet(old(free)), own);
          ok := ok && r != Panic;
          return ok, 0, own;
        }
        RowMapped(mem1, mem, d, data, k);
        k := k + 1;
      }
      SpacePages(mem, free, d, own);
      KernelUses(mem, free, d, own, data, old(mem), old(free));
    }

    /** Lines 332-338 of copyuvm: a page m for the contents of page f, entered for page i of d. */
    method CopyInto(d: int, i: int, f: int, flags: int, ghost own: map<int, Use>, ghost mem0: Memory, ghost free0: seq<int>, ghost n: int)
      returns (r: Outcome, ghost m: int, ghost own': map<int, Use>)
      requires Space(mem, free, d, own) && FreeOK(mem0, free0) && 0 <= i < n <= USER_PAGES && 0 <= flags < PGSIZE && f in mem
      requires Held(free, own) == FreeSet(free0) && Untouched(mem0, mem, FreeSet(free0)) && AllRequired(own, i)
      requires !Present(Entry(mem, d, i))
      modifies this
      ensures Space(mem, free, d, own') && Held(free, own') == FreeSet(free0) && Untouched(mem0, mem, FreeSet(free0))
      ensures r != Panic && Grows(own, own')
      ensures r == NoMemory ==> |free0| < Need(n)
      ensures r == Done ==>
        && m in old(mem) && m !in own && AllRequired(own', i + 1)
        && var mem1 := old(mem)[m := old(mem)[f]];
        && SameView(old(mem), mem1, d) && MapView(mem1, mem, d, i, 1, m, flags) && Kept(mem1, mem, own')
    {
      hide Present, Frame, Entry, Pte, Tree, FreeSet, FreeOK, Untouched, Kept, MapView, Given, AllRequired, Need, Required, NewUses, Apart, Held;
      own' := own;
      SpacePages(mem, free, d, own);
      var page := Kalloc();
      m := page;
      if page == 0 {
        NoPage(mem, free, d, own, mem0, free0, i, n);
        return NoMemory, m, own';
      }
      TakePage(mem, old(free), d, own, page, free);
      PageLength(mem, free, d, own, f);
      WritePage(mem, free, d, own, page, mem[f]);
      TakenUntouched(mem0, mem, FreeSet(free0), page, mem[f], free, own);
      mem := mem[page := mem[f]];
      ghost var mem1 := mem;
      OnePage(mem, free, own, i, page);
      ViewAt(old(mem), mem, d, i);
      ghost var done;
      r, done, own' := Mappages(d, i * PGSIZE, PGSIZE, page * PGSIZE, flags, own);
      MapUntouched(mem0, mem1, mem, FreeSet(free0), free, own');
      RequiredMore(own, own', i, done);
      if r != Done {
        NoTablePage(mem, free, d, own', mem0, free0, i, n, page);
        GivePage(mem, free, d, own', page, JUNK);
        TakenUntouched(mem0, mem, FreeSet(free0), page, Filled(JUNK), free, own');
        var ok := Kfree(page);
      }
    }

    /** The body of the loop of copyuvm for page i of the parent. */
    method CopyOne(pgdir: int, d: int, i: int, ghost own: map<int, Use>, ghost pown: map<int, Use>,
                   ghost mem0: Memory, ghost free0: seq<int>, ghost data: int, ghost n: int)
      returns (r: Outcome, ghost own': map<int, Use>)
      requires Copying(mem0, mem, free0, free, pgdir, d, pown, own, data, i, n) && 0 <= i < n
      modifies this
      ensures r == Panic <==> !Present(Entry(mem0, pgdir, i))
      ensures r == Panic ==> mem == old(mem)
      ensures r == Done ==> Copying(mem0, mem, free0, free, pgdir, d, pown, own', data, i + 1, n)
      ensures r == NoMemory ==>
        && Space(mem, free, d, own') && Held(free, own') == FreeSet(free0) && Untouched(mem0, mem, FreeSet(free0))
        && |free0| < Need(n)
    {
      hide Present, Frame, Entry, Pte, Tree, FreeSet, FreeOK, Untouched, Kept, MapView, Span, Given, AllRequired, CopyView, Need, Required, NewUses, Apart;
      own' := own;
      SpacePages(mem, free, d, own);
      ParentSame(mem0, mem, free0, free, pgdir, pown, own);
      ViewAt(mem0, mem, pgdir, i);
      AbsentTable(mem, pgdir, pown, i);
      var t; ghost var pown1;
      t, pown1 := Walkpgdir(pgdir, i, false, pown);
      if t == 0 {
        return Panic, own';
      }
      EntryIn(mem, pgdir, pown, i);
      var pte := mem[t][i % NPTENTRIES];
      if !Present(pte) {
        return Panic, own';
      }
      OwnFrame(mem0, pgdir, pown, i);
      var f, flags := Frame(pte), Flags(pte);
      ghost var m;
      KernelBelow(mem0, mem, pgdir, d, data, i);
      r, m, own' := CopyInto(d, i, f, flags, own, mem0, free0, n);
      if r == Done {
        CopyStep(mem0, old(mem), old(mem)[m := mem0[f]], mem, pgdir, d, data, i, m, own, own');
      }
    }

    /** copyuvm of the n pages that sz bytes take. */
    method Copyuvm(pgdir: int, sz: int, data: int, ghost pown: map<int, Use>) returns (r: Copy, ghost own: map<int, Use>)
      requires Space(mem, free, pgdir, pown) && 0 <= sz <= USER_PAGES * PGSIZE && GoodData(data)
      modifies this
      ensures Untouched(old(mem), mem, FreeSet(old(free)))
      ensures r.Child? ==>
        && Space(mem, free, r.d, own) && Held(free, own) == FreeSet(old(free))
        && CopyView(old(mem), mem, pgdir, r.d, data, Ceil(sz))
      ensures r == Failed ==> Pages(mem) && FreeOK(mem, free) && FreeSet(free) == FreeSet(old(free))
      ensures r == Missing ==> exists v :: 0 <= v < Ceil(sz) && !Present(Entry(old(mem), pgdir, v))
      ensures r == Failed ==> |old(free)| < Need(Ceil(sz))
      ensures r.Child? ==> |old(free)| >= Need(Ceil(sz))
    {
      hide Present, Frame, Entry, Pte, Tree, FreeSet, FreeOK, Untouched, CopyView, Need, AllRequired, KernelView, Copying, Space, Held;
      SpacePages(mem, free, pgdir, pown);
      ghost var n := Ceil(sz);
      NeedMono(0, n);
      var d, ok;
      ok, d, own := Setupkvm(data);
      if d == 0 {
        return Failed, own;
      }
      CopyStart(old(mem), mem, old(free), free, pgdir, d, pown, own, data, n);
      var i := 0;
      while i * PGSIZE < sz
        invariant 0 <= i <= n && Copying(old(mem), mem, old(free), free, pgdir, d, pown, own, data, i, n)
        decreases n - i
      {
        CopyParts(old(mem), mem, old(free), free, pgdir, d, pown, own, data, i, n);
        var q;
        q, own := CopyOne(pgdir, d, i, own, pown, old(mem), old(free), data, n);
        if q == Panic {
          return Missing, own;
        }
        if q == NoMemory {
          ghost var mem1 := mem;
          HeldParts(free, own, FreeSet(old(free)));
          ok := Freevm(d, own);
          UntouchedMore(old(mem), mem1, mem, FreeSet(old(free)), own);
          return Failed, own;
        }
        i := i + 1;
      }
      CopyParts(old(mem), mem, old(free), free, pgdir, d, pown, own, data, i, n);
      CopyUses(old(mem), mem, old(free), free, pgdir, d, pown, own, data, n);
      r := Child(d);
    }

    /** The body of the loop of allocuvm for page a, stop being the first page mapped already;
        hand is the page it holds when mappages fails, else 0. */
    method AllocOne(d: int, a: int, ghost own: map<int, Use>, ghost mem0: Memory, ghost free0: seq<int>, ghost own0: map<int, Use>,
                    ghost lo: int, ghost stop: int, ghost reach: int)
      returns (r: Outcome, hand: int, ghost own': map<int, Use>)
      requires Growing(mem0, mem, free0, free, d, own0, own, lo, a, {}) && NonePresent(mem0, d, lo, stop)
      requires 0 <= lo <= a <= stop && a < reach <= USER_PAGES && (a == stop ==> Present(Entry(mem0, d, stop)) && reach == stop + 1)
      modifies this
      ensures r == Done ==> a < stop && Growing(mem0, mem, free0, free, d, own0, own', lo, a + 1, {})
      ensures r == NoMemory ==>
        && Growing(mem0, mem, free0, free, d, own0, own', lo, a, if hand == 0 then {} else {hand}) && (hand != 0 ==> hand in mem)
        && d in mem0 && |free0| < |Wanted(mem0[d], lo, reach)|
      ensures r == Panic ==> a == stop && d in mem0 && |free0| >= |Wanted(mem0[d], lo, reach)|
    {
      hide Present, Frame, Flags, Entry, Pte, Tree, FreeOK, Kept, MapView, Given, NewUses, Held, Wanted, Grows, GrowView, KeepsData, Growing;
      own' := own;
      GrowSpace(mem0, mem, free0, free, d, own0, own, lo, a, {});
      var m := Kalloc();
      hand := m;
      if m == 0 {
        GrowNoPage(mem0, mem, free0, free, d, own0, own, lo, a, reach);
        return NoMemory, 0, own';
      }
      GrowTake(mem0, mem, free0, old(free), free, d, own0, own, lo, a, m);
      mem := mem[m := Filled(0)];
      ghost var mem1, free1 := mem, free;
      GrowSpace(mem0, mem, free0, free, d, own0, own, lo, a, {m});
      OnePage(mem, free, own, a, m);
      GrowEntry(mem0, mem, free0, free, d, own0, own, lo, a, {m});
      ghost var done;
      r, done, own' := Mappages(d, a * PGSIZE, PGSIZE, m * PGSIZE, PTE_W + PTE_U, own);
      if r == Done {
        GrowMap(mem0, mem1, mem, free0, free1, free, d, own0, own, own', lo, a, m);
      } else if r == Panic {
        GrowStuck(mem0, mem, free0, free, d, own0, own, lo, a, m);
      } else {
        GrowNoTable(mem0, mem, free0, free, d, own0, own, lo, a, reach, m);
      }
    }

    /** allocuvm: sizes in bytes. NoMemory is the return of 0, Panic mappages' panic for a page of the
        range that is mapped already. */
    method Allocuvm(d: int, oldsz: int, newsz: int, ghost own: map<int, Use>) returns (q: Outcome, r: int, ghost own': map<int, Use>)
      requires Space(mem, free, d, own) && 0 <= oldsz && 0 <= newsz
      modifies this
      ensures newsz >= KERNBASE ==> q == NoMemory && mem == old(mem) && free == old(free) && own' == own
      ensures newsz < KERNBASE && newsz < oldsz ==> q == Done && r == oldsz && mem == old(mem) && free == old(free) && own' == own
      ensures q == NoMemory ==> r == 0
      ensures oldsz <= newsz < KERNBASE ==>
        && var lo, hi := Ceil(oldsz), Ceil(newsz);
           var stop := FirstMapped(old(mem), d, lo, hi);
        && d in old(mem) && (q == NoMemory <==> |old(free)| < |Wanted(old(mem)[d], lo, if stop < hi then stop + 1 else hi)|)
        && (q != NoMemory ==> (q == Panic <==> stop < hi))
        && (q != Panic ==> Space(mem, free, d, own') && Held(free, own') == Held(old(free), own))
        && (q == Done ==> r == newsz && GrowView(old(mem), mem, d, lo, hi) && KeepsData(old(mem), mem, old(free), own))
        && (q == NoMemory ==>
              && Cleared(old(mem), mem, d, lo, hi) && MoreTables(Without(own, lo, hi), own')
              && KeepsOther(old(mem), mem, old(free), own, lo, hi))
        && (q == NoMemory ==> (SameMap(old(mem), mem, d) <==> stop == hi))
        && (q == NoMemory && stop == hi ==> MoreTables(own, own') && KeepsData(old(mem), mem, old(free), own))
    {
      hide Tree, FreeOK, Held, Wanted, Grows, GrowView, KeepsData, Growing, NonePresent, SameMap, MoreTables, Swept, Space, NewUses,
        Cleared, KeepsOther, Without, Entry, FirstMapped;
      own', q := own, Done;
      if newsz >= KERNBASE {
        return NoMemory, 0, own';
      }
      if newsz < oldsz {
        return Done, oldsz, own';
      }
      ghost var lo, hi := Ceil(oldsz), Ceil(newsz);
      ghost var stop := FirstMapped(mem, d, lo, hi);
      ghost var reach := if stop < hi then stop + 1 else hi;
      GrowStart(mem, free, d, own, lo);
      var a := (oldsz + PGSIZE - 1) / PGSIZE;
      while a * PGSIZE < newsz
        invariant lo <= a <= stop && Growing(old(mem), mem, old(free), free, d, own, own', lo, a, {})
        decreases hi - a
      {
        var hand;
        q, hand, own' := AllocOne(d, a, own', old(mem), old(free), own, lo, stop, reach);
        if q == Panic {
          return q, 0, own';
        }
        if q == NoMemory {
          r, own' := Undo(d, oldsz, newsz, hand, own', old(mem), old(free), own, a);
          LostIff(old(mem), mem, d, lo, hi);
          if stop == hi {
            NoneLost(old(mem), mem, old(free), d, own, lo, hi);
          }
          return q, r, own';
        }
        a := a + 1;
      }
      GrowSpace(old(mem), mem, old(free), free, d, own, own', lo, hi, {});
      GrowEnough(old(mem), mem, old(free), free, d, own, own', lo, hi);
      q, r := Done, newsz;
    }

    /** Lines 237-238 and 243-245: give the pages back. */
    method Undo(d: int, oldsz: int, newsz: int, hand: int, ghost own: map<int, Use>,
                ghost mem0: Memory, ghost free0: seq<int>, ghost own0: map<int, Use>, ghost a: int)
      returns (r: int, ghost own': map<int, Use>)
      requires Growing(mem0, mem, free0, free, d, own0, own, Ceil(oldsz), a, if hand == 0 then {} else {hand})
      requires (hand != 0 ==> hand in mem) && 0 <= oldsz <= newsz < KERNBASE && a <= Ceil(newsz)
      modifies this
      ensures r == 0 && Space(mem, free, d, own') && Cleared(mem0, mem, d, Ceil(oldsz), Ceil(newsz))
      ensures MoreTables(Without(own0, Ceil(oldsz), Ceil(newsz)), own')
      ensures Held(free, own') == Held(free0, own0) && KeepsOther(mem0, mem, free0, own0, Ceil(oldsz), Ceil(newsz))
    {
      hide Tree, FreeOK, Wanted, Grows, GrowView, KeepsData, Growing, NonePresent, Cleared, KeepsOther, Without, MoreTables, Swept, Space,
        NewUses, Held;
      ghost var hands := if hand == 0 then {} else {hand};
      GrowSpace(mem0, mem, free0, free, d, own0, own, Ceil(oldsz), a, hands);
      var ok, sz;
      ok, sz, own' := Deallocuvm(d, newsz, oldsz, own);
      SweptKeys(old(mem), mem, old(free), free, d, own, own', Ceil(oldsz), if oldsz >= newsz then Ceil(oldsz) else Ceil(newsz));
      GrowUndo(mem0, old(mem), mem, free0, old(free), free, d, own0, own, own', Ceil(oldsz), a, Ceil(newsz), hands);
      if hand != 0 {
        GrowGive(mem0, mem, free0, free, d, own0, own', Ceil(oldsz), Ceil(newsz), hand, JUNK);
        ok := Kfree(hand);
      }
      r := 0;
    }

    /** freerange: addresses in bytes; false is kfree's panic. */
    method Freerange(vstart: int, vend: int) returns (ok: bool)
      requires 0 <= vstart
      modifies this
      ensures ok <==> forall p :: Ceil(vstart) <= p < vend / PGSIZE ==> p in old(mem)
      ensures ok ==> free == Descending(Ceil(vstart), vend / PGSIZE) + old(free) && mem.Keys == old(mem).Keys
    {
      ok := true;
      var p := (vstart + PGSIZE - 1) / PGSIZE;
      while p * PGSIZE + PGSIZE <= vend
        invariant Ceil(vstart) <= p && (p <= vend / PGSIZE || p == Ceil(vstart))
        invariant mem.Keys == old(mem).Keys && free == Descending(Ceil(vstart), p) + old(free)
        invariant forall q :: Ceil(vstart) <= q < p ==> q in old(mem)
      {
        ok := Kfree(p);
        if !ok {
          return;
        }
        p := p + 1;
      }
    }
  }

  /** Pages lo to hi - 1, highest first. */
  function Descending(lo: int, hi: int): (s: seq<int>)
    ensures forall p :: p in s <==> lo <= p < hi
    decreases hi - lo
  {
    if hi <= lo then [] else [hi - 1] + Descending(lo, hi - 1)
  }
}
