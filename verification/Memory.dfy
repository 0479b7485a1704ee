/** mm.c over its arrays, the translation of addresses, and the page loops of `sys_fork` and `sys_exit`.

    The processor may keep translations in its TLB.  Here it may cache any present entry of the current table at
    any access and forget any, and it uses a cached entry without looking at the table again until `set_cr3`
    flushes (section 4.10.4 of volume 3A of the Intel Software Developer's Manual). */
module Memory {
  import opened Common
  import opened MemSpec

  class PhysicalMemory {
    /** `refs_DIR`, `pagusr_table`, `phys_mem` (true for USED_FRAME) and the bytes of memory. */
    const refs: array<int>
    const pt: array<Pte>
    const phys: array<bool>
    const ram: array<Byte>

    /** The directory the processor uses, and its TLB. */
    var cr3: Dir
    var tlb: map<Page, Pte>

    ghost predicate Valid() {
      && refs.Length == NR_DIRS
      && pt.Length == NR_DIRS * TOTAL_PAGES
      && phys.Length == TOTAL_PAGES
      && ram.Length == TOTAL_PAGES * PAGE_SIZE
      && refs as object != ram
    }

    ghost function M(): (m: Mem)
      requires Valid()
      reads refs, pt, phys, ram
      ensures m.Wf()
    {
      Mem(refs[..], pt[..], phys[..], ram[..])
    }

    /** The entry of page p in the current table. */
    ghost function Here(p: Page): (e: Pte)
      requires Valid()
      reads this, pt
    {
      pt[cr3 * TOTAL_PAGES + p]
    }

    /** Every cached translation outside pages lo to hi is the one in the current table. */
    ghost predicate AgreesBut(lo: int, hi: int)
      requires Valid()
      reads this, pt
    {
      forall p: Page | p in tlb && !(lo <= p < hi) ::
        pt[cr3 * TOTAL_PAGES + p].present && tlb[p] == pt[cr3 * TOTAL_PAGES + p]
    }

    /** No stale translation at all: the state between kernel entries. */
    ghost predicate Coherent()
      requires Valid()
      reads this, pt
    {
      AgreesBut(0, 0)
    }

    /** Static storage, and whatever the memory holds at power on. */
    constructor ()
      ensures Valid() && fresh(refs) && fresh(pt) && fresh(phys) && fresh(ram)
      ensures M().refs == seq(NR_DIRS, d => 0)
    {
      refs := new int[NR_DIRS](d => 0);
      pt := new Pte[NR_DIRS * TOTAL_PAGES](i => NO_ENTRY);
      phys := new bool[TOTAL_PAGES](f => false);
      ram := new Byte[TOTAL_PAGES * PAGE_SIZE](i => 0);
      cr3 := 0;
      tlb := map[];
    }

    // ---- mm.c ----

    /** `alloc_frame` */
    method AllocFrame() returns (f: int)
      requires Valid()
      modifies phys
      ensures f == FirstFree(old(M()).phys, NUM_PAG_KERNEL)
      ensures M() == if f == -1 then old(M()) else old(M()).SetPhys(f, true)
    {
      f := NUM_PAG_KERNEL;
      while f < TOTAL_PAGES
        invariant NUM_PAG_KERNEL <= f <= TOTAL_PAGES && f % 2 == 0
        invariant FirstFree(phys[..], NUM_PAG_KERNEL) == FirstFree(phys[..], f)
        invariant phys[..] == old(phys[..])
      {
        if !phys[f] {
          phys[f] := true;
          return;
        }
        f := f + 2;
      }
      f := -1;
    }

    /** `free_frame` */
    method ReleaseFrame(f: Frame)
      requires Valid()
      modifies phys
      ensures M() == FreeFrame(old(M()), f)
    {
      if f > NUM_PAG_KERNEL {
        phys[f] := false;
      }
    }

    method SetEntry(d: Dir, p: Page, e: Pte)
      requires Valid()
      modifies pt
      ensures M() == old(M()).Set(d, p, e)
    {
      pt[d * TOTAL_PAGES + p] := e;
    }

    /** `set_ss_pag` */
    method SetSsPag(d: Dir, p: Page, f: Frame)
      requires Valid()
      modifies pt
      ensures M() == old(M()).Set(d, p, DataEntry(f))
    {
      SetEntry(d, p, DataEntry(f));
    }

    /** `del_ss_pag` */
    method DelSsPag(d: Dir, p: Page)
      requires Valid()
      modifies pt
      ensures M() == old(M()).Set(d, p, NO_ENTRY)
    {
      SetEntry(d, p, NO_ENTRY);
    }

    /** `get_frame` */
    method GetFrame(d: Dir, p: Page) returns (f: Frame)
      requires Valid()
      ensures f == M().Entry(d, p).frame
    {
      f := pt[d * TOTAL_PAGES + p].frame;
    }

    /** `allocate_DIR` */
    method AllocateDir() returns (d: int)
      requires Valid()
      modifies refs
      ensures d == FirstDir(old(M()).refs, 0)
      ensures M() == if d == -1 then old(M()) else old(M()).SetRefs(d, old(M()).refs[d] + 1)
    {
      d := 0;
      while d < NR_DIRS
        invariant 0 <= d <= NR_DIRS
        invariant FirstDir(refs[..], 0) == FirstDir(refs[..], d)
        invariant refs[..] == old(refs[..])
      {
        if refs[d] == 0 {
          refs[d] := refs[d] + 1;
          return;
        }
        d := d + 1;
      }
      d := -1;
    }

    /** `set_cr3` flushes the TLB. */
    method SetCr3(d: Dir)
      requires Valid()
      modifies this`cr3, this`tlb
      ensures cr3 == d && tlb == map[] && Coherent()
    {
      cr3 := d;
      tlb := map[];
    }

    // ---- The processor ----

    /** One translation: a cached entry if there is one, else a walk of the table.  Around it the processor
        forgets some entries and caches some present ones, as it likes. */
    method Translate(p: Page, ghost lo: int, ghost hi: int) returns (f: Frame)
      requires Valid() && AgreesBut(lo, hi) && !(lo <= p < hi) && Here(p).present
      modifies this`tlb
      ensures AgreesBut(lo, hi)
      ensures f == Here(p).frame
    {
      f := if p in tlb then tlb[p].frame else pt[cr3 * TOTAL_PAGES + p].frame;
      var forget: set<Page> := *;
      var walk: set<Page> := *;
      tlb := tlb - forget;
      tlb := (map q: Page | q in walk && pt[cr3 * TOTAL_PAGES + q].present :: pt[cr3 * TOTAL_PAGES + q]) + tlb;
    }

    /** The first n bytes of frame dst are those frame src had before; all else is as before. */
    ghost predicate CopiedUpTo(before: seq<Byte>, now: seq<Byte>, src: Frame, dst: Frame, n: int) {
      && |before| == |now| == TOTAL_PAGES * PAGE_SIZE
      && 0 <= n <= PAGE_SIZE
      && forall k {:trigger now[k]} | 0 <= k < |now| ::
           now[k] == if dst * PAGE_SIZE <= k < dst * PAGE_SIZE + n
                     then before[src * PAGE_SIZE + (k - dst * PAGE_SIZE)] else before[k]
    }

    /** One `*q++ = *p++` of n bytes (a double word or a byte) at offset o of both pages. */
    method Move(src: Page, dst: Page, o: int, n: int, ghost lo: int, ghost hi: int, ghost before: seq<Byte>)
      requires Valid() && AgreesBut(lo, hi)
      requires !(lo <= src < hi) && !(lo <= dst < hi) && Here(src).present && Here(dst).present
      requires (n == 4 || n == 1) && 0 <= o <= o + n <= PAGE_SIZE
      requires CopiedUpTo(before, ram[..], Here(src).frame, Here(dst).frame, o)
      modifies this`tlb, ram
      ensures AgreesBut(lo, hi)
      ensures CopiedUpTo(before, ram[..], Here(src).frame, Here(dst).frame, o + n)
    {
      hide CopiedUpTo, AgreesBut;
      var f := Translate(src, lo, hi);
      ghost var mid := ram[..];
      var from := f * PAGE_SIZE + o;
      var word := ram[from..from + n];
      var g := Translate(dst, lo, hi);
      var to := g * PAGE_SIZE + o;
      var i := 0;
      while i < n
        modifies ram
        invariant 0 <= i <= n
        invariant forall k {:trigger ram[k]} | 0 <= k < ram.Length :: ram[k] == if to <= k < to + i then word[k - to]
                  else mid[k]
      {
        ram[to + i] := word[i];
        i := i + 1;
      }
      MovedOn(before, mid, ram[..], f, g, o, n);
    }

    lemma MovedOn(before: seq<Byte>, mid: seq<Byte>, now: seq<Byte>, f: Frame, g: Frame, o: int, n: int)
      requires 0 <= o <= o + n <= PAGE_SIZE && CopiedUpTo(before, mid, f, g, o) && |now| == |mid|
      requires forall k {:trigger now[k]} | 0 <= k < |now| ::
                 now[k] == if g * PAGE_SIZE + o <= k < g * PAGE_SIZE + o + n
                           then mid[f * PAGE_SIZE + (k - g * PAGE_SIZE)] else mid[k]
      ensures CopiedUpTo(before, now, f, g, o + n)
    {
      var from, to := f * PAGE_SIZE, g * PAGE_SIZE;
      assert f == g || from + PAGE_SIZE <= to || to + PAGE_SIZE <= from;
      forall k | 0 <= k < |now|
        ensures now[k] == if to <= k < to + o + n then before[from + (k - to)] else before[k]
      {
        if to + o <= k < to + o + n {
          var j := from + (k - to);
          assert !(to <= j < to + o);
          assert mid[j] == before[j];
        }
      }
    }

    /** `copy_data` from the start of one page to the start of another: double words while more than four bytes are
        left, then bytes.  It copies exactly `size` bytes and nothing more, for every size, and nothing for a
        negative one; and whatever the TLB does, the bytes go where the table says. */
    method CopyData(src: Page, dst: Page, size: int, ghost lo: int, ghost hi: int)
      requires Valid() && AgreesBut(lo, hi) && size <= PAGE_SIZE
      requires !(lo <= src < hi) && !(lo <= dst < hi) && Here(src).present && Here(dst).present
      modifies this`tlb, ram
      ensures AgreesBut(lo, hi)
      ensures CopiedUpTo(old(ram[..]), ram[..], old(Here(src)).frame, old(Here(dst)).frame,
                         if size < 0 then 0 else size)
    {
      hide CopiedUpTo, AgreesBut;
      ghost var before := ram[..];
      ghost var f, g := Here(src).frame, Here(dst).frame;
      NothingCopied(before, f, g);
      var o, left := 0, size;
      while left > 4
        invariant 0 <= o && o + left == size && (size > 0 ==> left > 0) && (size <= 0 ==> o == 0) && AgreesBut(lo, hi)
        invariant CopiedUpTo(before, ram[..], f, g, o)
      {
        Move(src, dst, o, 4, lo, hi, before);
        o := o + 4;
        left := left - 4;
      }
      while left > 0
        invariant 0 <= o && o + left == size && (size > 0 ==> left >= 0) && (size <= 0 ==> o == 0) && AgreesBut(lo, hi)
        invariant CopiedUpTo(before, ram[..], f, g, o)
      {
        Move(src, dst, o, 1, lo, hi, before);
        o := o + 1;
        left := left - 1;
      }
    }

    lemma NothingCopied(now: seq<Byte>, f: Frame, g: Frame)
      requires |now| == TOTAL_PAGES * PAGE_SIZE
      ensures CopiedUpTo(now, now, f, g, 0)
    {
    }

    lemma CopiedFrame(m: Mem, now: seq<Byte>, src: Frame, dst: Frame)
      requires m.Wf() && CopiedUpTo(m.ram, now, src, dst, PAGE_SIZE)
      ensures now == m.CopyFrame(src, dst).ram
    {
      var copy := m.CopyFrame(src, dst).ram;
      var base := dst * PAGE_SIZE;
      assert |copy| == |now|;
      forall k | 0 <= k < |now|
        ensures now[k] == copy[k]
      {
        if base <= k < base + PAGE_SIZE {
          assert copy[k] == m.ram[src * PAGE_SIZE..(src + 1) * PAGE_SIZE][k - base];
          assert copy[k] == m.ram[src * PAGE_SIZE + (k - base)];
        } else if k >= base + PAGE_SIZE {
          assert copy[k] == m.ram[(dst + 1) * PAGE_SIZE..][k - base - PAGE_SIZE];
        }
      }
    }

    // ---- The page loops ----

    /** The two loops of `sys_fork` that share the kernel pages and the code; page 256 is copied by both. */
    method ShareSpace(d: Dir)
      requires Valid() && d != cr3
      modifies pt
      ensures M() == ShareEntries(old(M()), cr3, d)
      ensures forall q: Page :: Here(q) == old(Here(q))
      ensures old(Coherent()) ==> Coherent()
    {
      hide EntriesShared, ShareEntries;
      ghost var m := M();
      NoneShared(m, cr3, d);
      var i := 0;
      while i < NUM_PAG_KERNEL
        invariant 0 <= i <= NUM_PAG_KERNEL
        invariant EntriesShared(m, M(), cr3, d, i + 1)
      {
        ShareEntry(d, 1 + i, m, i + 1);
        i := i + 1;
      }
      i := 0;
      while i < NUM_PAG_CODE
        invariant 0 <= i <= NUM_PAG_CODE
        invariant EntriesShared(m, M(), cr3, d, if i == 0 then PAG_LOG_INIT_CODE + 1 else PAG_LOG_INIT_CODE + i)
      {
        ShareEntry(d, PAG_LOG_INIT_CODE + i, m, if i == 0 then PAG_LOG_INIT_CODE + 1 else PAG_LOG_INIT_CODE + i);
        i := i + 1;
      }
      AllShared(m, M(), cr3, d);
      forall q: Page
        ensures Here(q) == old(Here(q))
      {
        assert M().Entry(cr3, q) == m.Entry(cr3, q);
      }
      assert old(Coherent()) ==> forall p: Page | p in tlb :: old(Here(p)).present && tlb[p] == old(Here(p));
    }

    method ShareEntry(d: Dir, q: Page, ghost m: Mem, ghost n: nat)
      requires Valid() && d != cr3 && EntriesShared(m, M(), cr3, d, n) && 1 <= q <= n
      modifies pt
      ensures EntriesShared(m, M(), cr3, d, if q == n then n + 1 else n)
    {
      SetEntry(d, q, pt[cr3 * TOTAL_PAGES + q]);
    }

    lemma NoneShared(m: Mem, p: Dir, d: Dir)
      requires m.Wf()
      ensures EntriesShared(m, m, p, d, 1)
    {
    }

    lemma AllShared(m: Mem, now: Mem, p: Dir, d: Dir)
      requires EntriesShared(m, now, p, d, PAG_LOG_INIT_DATA)
      ensures now == ShareEntries(m, p, d)
    {
      SameTables(now, ShareEntries(m, p, d));
    }

    /** Pages 1 to n-1 of d are those of p. */
    ghost predicate EntriesShared(before: Mem, now: Mem, p: Dir, d: Dir, n: int) {
      && before.Wf() && now.Wf()
      && now == before.(pt := now.pt)
      && forall d': Dir, q: Page :: now.Entry(d', q) == if d' == d && 1 <= q < n then before.Entry(p, q)
          else before.Entry(d', q)
    }

    lemma SameTables(a: Mem, b: Mem)
      requires a.Wf() && b.Wf()
      requires forall d: Dir, q: Page :: a.Entry(d, q) == b.Entry(d, q)
      ensures a.pt == b.pt
    {
      forall i | 0 <= i < |a.pt|
        ensures a.pt[i] == b.pt[i]
      {
        var d: Dir, q: Page := i / TOTAL_PAGES, i % TOTAL_PAGES;
        assert a.Entry(d, q) == b.Entry(d, q);
      }
    }

    /** The page loop of `sys_fork`, from the address space in use to directory d, with the flush that ends it.
        Each turn maps a fresh page of the window, writes through it and unmaps it again; the TLB may keep the
        entries of the pages already unmapped, but no later turn uses them, and `set_cr3` drops them before the
        next fork.  When frames run out the loop gives back what it took and returns without the flush. */
    method CopySpace(d: Dir) returns (ok: bool)
      requires Valid() && Coherent() && d != cr3
      requires forall q: Page | PAG_LOG_INIT_DATA <= q < WINDOW :: Here(q).present
      requires forall q: Page | WINDOW <= q < WINDOW + NUM_PAG_DATA :: !Here(q).present
      modifies this`cr3, this`tlb, pt, phys, ram
      ensures cr3 == old(cr3)
      ensures Forked(M(), ok) == ForkPages(old(M()), cr3, d, 0)
      ensures ok ==> Coherent() && tlb == map[]
      ensures !ok ==> AgreesBut(WINDOW, WINDOW + NUM_PAG_DATA)
    {
      hide ForkPages, ForkPage, Revert, FirstFree, AgreesBut;
      ghost var m := M();
      var taken: seq<Frame> := [];
      var i := 0;
      Widen(0, 0, WINDOW, WINDOW);
      while i < NUM_PAG_DATA
        invariant 0 <= i <= NUM_PAG_DATA && |taken| == i && cr3 == old(cr3)
        invariant AgreesBut(WINDOW, WINDOW + i)
        invariant forall q: Page | PAG_LOG_INIT_DATA <= q < WINDOW :: Here(q).present
        invariant forall q: Page | WINDOW + i <= q < WINDOW + NUM_PAG_DATA :: !Here(q).present
        invariant forall j: DataPage | j < i :: M().Data(d, j).frame == taken[j]
        invariant ForkPages(m, cr3, d, 0) == ForkPages(M(), cr3, d, i)
      {
        PageLoop(M(), cr3, d, i);
        var f := AllocFrame();
        if f == -1 {
          GiveBack(d, taken);
          Widen(WINDOW, WINDOW + i, WINDOW, WINDOW + NUM_PAG_DATA);
          ok := false;
          return;
        }
        CopyPage(d, i, f);
        taken := taken + [f];
        i := i + 1;
      }
      PageLoopEnds(M(), cr3, d);
      SetCr3(cr3);
      ok := true;
    }

    /** One turn of the loop of `ForkPages`, on memory from which the frame has been allocated. */
    lemma PageLoop(m: Mem, p: Dir, d: Dir, i: DataPage)
      requires m.Wf()
      ensures var f := FirstFree(m.phys, NUM_PAG_KERNEL);
              if f == -1 then ForkPages(m, p, d, i) == Forked(Revert(m, d, i), false)
              else ForkPages(m, p, d, i) == ForkPages(ForkPage(m.SetPhys(f, true), p, d, i, f), p, d, i + 1)
    {
      hide Revert, FirstFree;
      var f := FirstFree(m.phys, NUM_PAG_KERNEL);
      if f != -1 {
        assert m.SetPhys(f, true).SetPhys(f, true) == m.SetPhys(f, true);
      }
    }

    lemma PageLoopEnds(m: Mem, p: Dir, d: Dir)
      requires m.Wf()
      ensures ForkPages(m, p, d, NUM_PAG_DATA) == Forked(m, true)
    {
    }

    /** One turn of the page loop, with the frame just allocated. */
    method CopyPage(d: Dir, i: DataPage, f: Frame)
      requires Valid() && d != cr3 && AgreesBut(WINDOW, WINDOW + i) && M().phys[f]
      requires Here(PAG_LOG_INIT_DATA + i).present && !Here(WINDOW + i).present
      modifies this`tlb, pt, ram
      ensures M() == ForkPage(old(M()), cr3, d, i, f)
      ensures AgreesBut(WINDOW, WINDOW + i + 1)
      ensures forall q: Page :: Here(q) == if q == WINDOW + i then NO_ENTRY else old(Here(q))
      ensures forall j: DataPage :: M().Data(d, j) == if j == i then DataEntry(f) else old(M()).Data(d, j)
    {
      hide AgreesBut;
      assert M().SetPhys(f, true) == M();
      MapBoth(d, i, f);
      CopyThroughWindow(i);
      Unmap(i);
      ForkedPage(old(M()), M(), cr3, d, i, f);
    }

    /** The copy of one whole data page to the window page. */
    method CopyThroughWindow(i: DataPage)
      requires Valid() && AgreesBut(WINDOW, WINDOW + i)
      requires Here(PAG_LOG_INIT_DATA + i).present && Here(WINDOW + i).present
      modifies this`tlb, ram
      ensures AgreesBut(WINDOW, WINDOW + i)
      ensures M() == old(M()).CopyFrame(old(M()).Data(cr3, i).frame, old(M()).Entry(cr3, WINDOW + i).frame)
    {
      hide AgreesBut, CopiedUpTo;
      ghost var m := M();
      CopyData(PAG_LOG_INIT_DATA + i, WINDOW + i, PAGE_SIZE, WINDOW, WINDOW + i);
      CopiedFrame(m, ram[..], m.Data(cr3, i).frame, m.Entry(cr3, WINDOW + i).frame);
    }

    /** The entries and the value that one turn leaves. */
    static lemma ForkedPage(m: Mem, now: Mem, p: Dir, d: Dir, i: DataPage, f: Frame)
      requires m.Wf() && p != d && m.phys[f] && now == ForkPage(m, p, d, i, f)
      ensures now.Wf()
      ensures forall q: Page :: now.Entry(p, q) == if q == WINDOW + i then NO_ENTRY else m.Entry(p, q)
      ensures forall j: DataPage :: now.Data(d, j) == if j == i then DataEntry(f) else m.Data(d, j)
    {
      assert m.SetPhys(f, true) == m;
      var a := m.Set(d, PAG_LOG_INIT_DATA + i, DataEntry(f));
      var b := a.Set(p, WINDOW + i, DataEntry(f));
      var c := b.CopyFrame(b.Data(p, i).frame, f);
      assert forall e: Dir, q: Page :: c.Entry(e, q) == b.Entry(e, q);
    }

    /** The window page goes; from here on the TLB may hold it although the table does not. */
    method Unmap(i: DataPage)
      requires Valid() && AgreesBut(WINDOW, WINDOW + i)
      modifies pt
      ensures M() == old(M()).Set(cr3, WINDOW + i, NO_ENTRY)
      ensures AgreesBut(WINDOW, WINDOW + i + 1)
      ensures forall q: Page :: Here(q) == if q == WINDOW + i then NO_ENTRY else old(Here(q))
    {
      DelSsPag(cr3, WINDOW + i);
    }

    lemma Widen(lo: int, hi: int, lo': int, hi': int)
      requires Valid() && AgreesBut(lo, hi) && (hi <= lo || (lo' <= lo && hi <= hi'))
      ensures AgreesBut(lo', hi')
    {
    }

    /** The new frame in the child's table and in the window; the TLB cannot hold the window page yet. */
    method MapBoth(d: Dir, i: DataPage, f: Frame)
      requires Valid() && d != cr3 && AgreesBut(WINDOW, WINDOW + i) && !Here(WINDOW + i).present
      modifies pt
      ensures M() == old(M()).Set(d, PAG_LOG_INIT_DATA + i, DataEntry(f)).Set(cr3, WINDOW + i, DataEntry(f))
      ensures AgreesBut(WINDOW, WINDOW + i)
      ensures Here(WINDOW + i) == DataEntry(f)
      ensures forall q: Page | q != WINDOW + i :: Here(q) == old(Here(q))
    {
      SetSsPag(d, PAG_LOG_INIT_DATA + i, f);
      SetSsPag(cr3, WINDOW + i, f);
    }

    /** The frames taken so far go back, last first. */
    method GiveBack(d: Dir, taken: seq<Frame>)
      requires Valid() && |taken| <= NUM_PAG_DATA
      requires forall j: DataPage | j < |taken| :: M().Data(d, j).frame == taken[j]
      modifies phys
      ensures M() == Revert(old(M()), d, |taken|)
    {
      var aux := |taken|;
      while aux > 0
        invariant 0 <= aux <= |taken|
        invariant Revert(old(M()), d, |taken|) == Revert(M(), d, aux)
        invariant M().pt == old(M()).pt
      {
        aux := aux - 1;
        ReleaseFrame(taken[aux]);
      }
    }

    /** The loop of `sys_exit` over the data pages of the directory in use. */
    method FreeSpace(d: Dir)
      requires Valid()
      modifies pt, phys
      ensures M() == FreePages(old(M()), d, 0)
    {
      hide FreeFrame;
      var p := 0;
      while p < NUM_PAG_DATA
        invariant 0 <= p <= NUM_PAG_DATA
        invariant FreePages(old(M()), d, 0) == FreePages(M(), d, p)
      {
        var f := GetFrame(d, PAG_LOG_INIT_DATA + p);
        ReleaseFrame(f);
        DelSsPag(d, PAG_LOG_INIT_DATA + p);
        p := p + 1;
      }
    }

    /** The memory part of `sys_exit`. */
    method DropDir(d: Dir)
      requires Valid()
      modifies refs, pt, phys
      ensures M() == ExitMem(old(M()), d)
    {
      refs[d] := refs[d] - 1;
      assert M() == old(M()).SetRefs(d, old(M()).refs[d] - 1);
      if refs[d] == 0 {
        FreeSpace(d);
      }
    }

    method CountDir(d: Dir, n: int)
      requires Valid()
      modifies refs
      ensures M() == old(M()).SetRefs(d, old(M()).refs[d] + n)
    {
      refs[d] := refs[d] + n;
    }

    /** A store of the running program to one of its data pages. */
    method Store(j: DataPage, o: Offset, b: Byte)
      requires Valid() && Coherent() && UserMayWrite(Here(PAG_LOG_INIT_DATA + j))
      modifies this`tlb, ram
      ensures Coherent()
      ensures M() == old(M()).SetByte(old(M()).Data(cr3, j).frame, o, b)
    {
      var f := Translate(PAG_LOG_INIT_DATA + j, 0, 0);
      ram[f * PAGE_SIZE + o] := b;
    }

    // ---- Boot ----

    /** `init_table_pages` */
    method InitTablePages()
      requires Valid()
      modifies pt
      ensures M() == old(M()).(pt := M().pt)
      ensures forall d: Dir, q: Page :: M().Entry(d, q) == BootEntry(0, q)
    {
      var i := 0;
      while i < NR_DIRS * TOTAL_PAGES
        invariant 0 <= i <= NR_DIRS * TOTAL_PAGES
        invariant forall k | 0 <= k < i :: pt[k] == BootEntry(0, k % TOTAL_PAGES)
      {
        var page := i % TOTAL_PAGES;
        pt[i] := if 1 <= page < NUM_PAG_KERNEL then KernelEntry(page) else NO_ENTRY;
        i := i + 1;
      }
      forall d: Dir, q: Page
        ensures M().Entry(d, q) == BootEntry(0, q)
      {
        assert pt[d * TOTAL_PAGES + q] == BootEntry(0, (d * TOTAL_PAGES + q) % TOTAL_PAGES);
      }
    }

    /** `init_frames` */
    method InitFrames()
      requires Valid()
      modifies phys
      ensures M() == old(M()).(phys := seq(TOTAL_PAGES, f => f < NUM_PAG_KERNEL))
    {
      var i := 0;
      while i < TOTAL_PAGES
        invariant 0 <= i <= TOTAL_PAGES
        invariant forall f | 0 <= f < i :: !phys[f]
      {
        phys[i] := false;
        i := i + 1;
      }
      i := 0;
      while i < NUM_PAG_KERNEL
        invariant 0 <= i <= NUM_PAG_KERNEL
        invariant forall f | 0 <= f < TOTAL_PAGES :: phys[f] == (f < i)
      {
        phys[i] := true;
        i := i + 1;
      }
    }

    /** The first n user pages of directory d are mapped, to one frame in two. */
    ghost predicate UserMapped(before: Mem, now: Mem, d: Dir, n: nat) {
      && before.Wf() && now.Wf()
      && now.refs == before.refs && now.ram == before.ram
      && (forall e: Dir, q: Page ::
            now.Entry(e, q) == if e == d && PAG_LOG_INIT_CODE <= q < PAG_LOG_INIT_CODE + n then BootEntry(1, q)
                else before.Entry(e, q))
      && FramesTaken(now.phys, n)
    }

    /** The kernel's frames and every other one of the next 2 * n are used. */
    ghost predicate FramesTaken(used: seq<bool>, n: nat)
      requires |used| == TOTAL_PAGES
    {
      forall f: Frame :: used[f] <==> f < NUM_PAG_KERNEL || (f < NUM_PAG_KERNEL + 2 * n && f % 2 == 0)
    }

    /** `set_user_pages` on the frames as `init_frames` leaves them. */
    method SetUserPages(d: Dir)
      requires Valid() && forall f: Frame :: phys[f] == (f < NUM_PAG_KERNEL)
      modifies pt, phys
      ensures UserMapped(old(M()), M(), d, NUM_PAG_CODE + NUM_PAG_DATA)
    {
      ghost var m := M();
      NoneMapped(m, d);
      hide UserMapped;
      var pag := 0;
      while pag < NUM_PAG_CODE
        invariant 0 <= pag <= NUM_PAG_CODE && UserMapped(m, M(), d, pag)
      {
        MapUserPage(d, pag, m);
        pag := pag + 1;
      }
      while pag < NUM_PAG_CODE + NUM_PAG_DATA
        invariant NUM_PAG_CODE <= pag <= NUM_PAG_CODE + NUM_PAG_DATA && UserMapped(m, M(), d, pag)
      {
        MapUserPage(d, pag, m);
        pag := pag + 1;
      }
    }

    lemma NoneMapped(m: Mem, d: Dir)
      requires m.Wf() && forall f: Frame :: m.phys[f] == (f < NUM_PAG_KERNEL)
      ensures UserMapped(m, m, d, 0)
    {
    }

    /** One turn of either loop of `set_user_pages`. */
    method MapUserPage(d: Dir, pag: nat, ghost m: Mem)
      requires Valid() && pag < NUM_PAG_CODE + NUM_PAG_DATA && UserMapped(m, M(), d, pag)
      modifies pt, phys
      ensures UserMapped(m, M(), d, pag + 1)
    {
      hide UserMapped, FirstFree;
      OneMapped(m, M(), d, pag);
      var f := AllocFrame();
      SetEntry(d, PAG_LOG_INIT_CODE + pag, if pag < NUM_PAG_CODE then CodeEntry(f) else DataEntry(f));
    }

    lemma OneMapped(m: Mem, m0: Mem, d: Dir, pag: nat)
      requires pag < NUM_PAG_CODE + NUM_PAG_DATA && UserMapped(m, m0, d, pag)
      ensures m0.Wf() && FirstFree(m0.phys, NUM_PAG_KERNEL) == NUM_PAG_KERNEL + 2 * pag
      ensures var q := PAG_LOG_INIT_CODE + pag;
              UserMapped(m, m0.SetPhys(NUM_PAG_KERNEL + 2 * pag, true).Set(d, q, BootEntry(1, q)), d, pag + 1)
    {
      NextUnmapped(m0.phys, pag);
      var f, q := NUM_PAG_KERNEL + 2 * pag, PAG_LOG_INIT_CODE + pag;
      hide FirstFree, BootEntry, FramesTaken;
      var m1 := m0.SetPhys(f, true);
      assert forall e: Dir, q: Page :: m1.Entry(e, q) == m0.Entry(e, q);
      var m2 := m1.Set(d, q, BootEntry(1, q));
      assert m2.phys == m0.phys[f := true];
    }

    lemma NextUnmapped(used: seq<bool>, n: nat)
      requires |used| == TOTAL_PAGES && n < NUM_PAG_CODE + NUM_PAG_DATA
      requires FramesTaken(used, n)
      ensures FirstFree(used, NUM_PAG_KERNEL) == NUM_PAG_KERNEL + 2 * n
      ensures FramesTaken(used[NUM_PAG_KERNEL + 2 * n := true], n + 1)
    {
      NextFree(used, n, 0);
      hide FirstFree;
      var next := NUM_PAG_KERNEL + 2 * n;
      forall f: Frame
        ensures f < next + 2 && f % 2 == 0 <==> f == next || (f < next && f % 2 == 0)
      {
        assert f == 2 * (f / 2) + f % 2;
      }
    }

    lemma {:induction false} NextFree(used: seq<bool>, n: nat, k: nat)
      requires |used| == TOTAL_PAGES && k <= n < NUM_PAG_CODE + NUM_PAG_DATA
      requires FramesTaken(used, n)
      ensures FirstFree(used, NUM_PAG_KERNEL + 2 * k) == NUM_PAG_KERNEL + 2 * n
      decreases n - k
    {
      assert used[NUM_PAG_KERNEL + 2 * k] <==> k < n;
      if k < n {
        NextFree(used, n, k + 1);
      }
    }

    /** `init_mm`: tables, frames, and directory 0 for the boot itself. */
    method InitMm() returns (d: Dir)
      requires Valid() && M().refs == seq(NR_DIRS, d => 0)
      modifies this`cr3, this`tlb, refs, pt, phys
      ensures d == 0 && M().ram == old(M()).ram
      ensures forall d: Dir, q: Page :: M().Entry(d, q) == BootEntry(0, q)
      ensures forall f: Frame :: phys[f] == (f < NUM_PAG_KERNEL)
    {
      InitTablePages();
      ghost var tables := M();
      InitFrames();
      ghost var m := M();
      assert forall f: Frame :: phys[f] == m.phys[f];
      var first := AllocateDir();
      assert forall d: Dir, q: Page :: M().Entry(d, q) == tables.Entry(d, q);
      d := first;
      SetCr3(d);
    }

    /** `init_sched` resets the counts. */
    method ResetRefs()
      requires Valid()
      modifies refs
      ensures M() == old(M()).(refs := M().refs) && FirstCounted(M().refs, 0)
    {
      var i := 0;
      while i < NR_DIRS
        invariant 0 <= i <= NR_DIRS
        invariant forall d | 0 <= d < i :: refs[d] == 0
      {
        refs[i] := 0;
        i := i + 1;
      }
    }

    /** The first n directories are counted twice, and no other is. */
    ghost predicate FirstCounted(counts: seq<int>, n: nat) {
      |counts| == NR_DIRS && forall d: Dir :: counts[d] == if d < n then 2 else 0
    }

    /** `allocate_DIR` and one more count, as in `init_idle` and `init_task1`. */
    method TakeDir(ghost n: nat) returns (d: Dir)
      requires Valid() && n < NR_DIRS && FirstCounted(M().refs, n)
      modifies refs
      ensures d == n && M() == old(M()).SetRefs(n, 2) && FirstCounted(M().refs, n + 1)
    {
      assert M().refs[n] == 0;
      var first := AllocateDir();
      d := first;
      CountDir(d, 1);
    }

    lemma BootedMemory(m: Mem, now: Mem)
      requires UserMapped(m, now, 1, NUM_PAG_CODE + NUM_PAG_DATA)
      requires forall d: Dir, q: Page :: m.Entry(d, q) == BootEntry(0, q)
      requires FirstCounted(m.refs, 2)
      ensures now == BootMem(m.ram)
    {
      forall d: Dir, q: Page
        ensures now.Entry(d, q) == BootEntry(d, q)
      {
      }
      assert m.refs == [2, 2, 0, 0, 0, 0, 0, 0, 0, 0, 0, 0, 0, 0, 0];
      SameTables(now, BootMem(m.ram));
    }
  }
}
