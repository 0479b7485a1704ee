/** Address spaces as values: the frame bytemap, the page tables, the directory counts and physical memory,
    and what mm.c and the memory parts of `sys_fork`, `sys_clone` and `sys_exit` do to them. */
module MemSpec {
  import opened Common

  const TOTAL_PAGES := 1024
  const NUM_PAG_KERNEL := 256
  const PAG_LOG_INIT_CODE := 256
  const NUM_PAG_CODE := 8
  const PAG_LOG_INIT_DATA := 264
  const NUM_PAG_DATA := 20
  const PAGE_SIZE := 4096

  /** First page of the window through which `sys_fork` writes to the frames of the child. */
  const WINDOW := 284

  type Page = p: int | 0 <= p < 1024
  type Frame = f: int | 0 <= f < 1024
  type Offset = o: int | 0 <= o < 4096

  /** The j-th data page. */
  type DataPage = j: int | 0 <= j < 20

  /** The fields of `page_table_entry` in use.  No frame number in any table reaches TOTAL_PAGES. */
  datatype Pte = Pte(present: bool, rw: bool, user: bool, frame: Frame)

  /** What the bits of an entry let a program do. */
  predicate UserMayWrite(e: Pte) {
    e.present && e.user && e.rw
  }

  predicate UserMayOnlyRead(e: Pte) {
    e.present && e.user && !e.rw
  }

  predicate KernelOnly(e: Pte) {
    e.present && !e.user
  }

  const NO_ENTRY := Pte(false, false, false, 0)

  /** The entry `set_ss_pag` writes, which is also that of a data page of the initial process. */
  function DataEntry(f: Frame): Pte {
    Pte(true, true, true, f)
  }

  function CodeEntry(f: Frame): Pte {
    Pte(true, false, true, f)
  }

  function KernelEntry(f: Frame): Pte {
    Pte(true, true, false, f)
  }

  /** `pagusr_table` is one array of 15 * 1024 entries, and physical memory one array of bytes;
      `phys[f]` says that frame f is USED_FRAME. */
  datatype Mem = Mem(refs: seq<int>, pt: seq<Pte>, phys: seq<bool>, ram: seq<Byte>)
  {
    predicate Wf() {
      && |refs| == NR_DIRS
      && |pt| == NR_DIRS * TOTAL_PAGES
      && |phys| == TOTAL_PAGES
      && |ram| == TOTAL_PAGES * PAGE_SIZE
    }

    /** Entry of page p in the table of directory d. */
    function Entry(d: Dir, p: Page): Pte
      requires Wf()
    {
      pt[d * TOTAL_PAGES + p]
    }

    function Data(d: Dir, j: DataPage): Pte
      requires Wf()
    {
      Entry(d, PAG_LOG_INIT_DATA + j)
    }

    /** Byte o of frame f. */
    function At(f: Frame, o: Offset): Byte
      requires Wf()
    {
      ram[f * PAGE_SIZE + o]
    }

    /** Byte o of page p as directory d translates it. */
    function Read(d: Dir, p: Page, o: Offset): Byte
      requires Wf()
    {
      At(Entry(d, p).frame, o)
    }

    /** Byte o of data page j as directory d translates it. */
    function ReadData(d: Dir, j: DataPage, o: Offset): Byte
      requires Wf()
    {
      Read(d, PAG_LOG_INIT_DATA + j, o)
    }

    function Set(d: Dir, p: Page, e: Pte): (m: Mem)
      requires Wf()
      ensures m.Wf()
      ensures forall d': Dir, p': Page :: m.Entry(d', p') == if d' == d && p' == p then e else Entry(d', p')
    {
      this.(pt := pt[d * TOTAL_PAGES + p := e])
    }

    function SetPhys(f: Frame, used: bool): (m: Mem)
      requires Wf()
      ensures m.Wf()
    {
      this.(phys := phys[f := used])
    }

    function SetRefs(d: Dir, n: int): (m: Mem)
      requires Wf()
      ensures m.Wf()
    {
      this.(refs := refs[d := n])
    }

    function SetByte(f: Frame, o: Offset, b: Byte): (m: Mem)
      requires Wf()
      ensures m.Wf()
      ensures forall f': Frame, o': Offset :: m.At(f', o') == if f' == f && o' == o then b else At(f', o')
    {
      this.(ram := ram[f * PAGE_SIZE + o := b])
    }

    /** Frame dst becomes a copy of frame src. */
    function CopyFrame(src: Frame, dst: Frame): (m: Mem)
      requires Wf()
      ensures m.Wf()
      ensures forall f: Frame, o: Offset :: m.At(f, o) == if f == dst then At(src, o) else At(f, o)
    {
      var from, to := src * PAGE_SIZE, dst * PAGE_SIZE;
      this.(ram := ram[..to] + ram[from..from + PAGE_SIZE] + ram[to + PAGE_SIZE..])
    }
  }

  // ---- mm.c ----

  /** `alloc_frame` looks at every other frame from the first one after the kernel. */
  function FirstFree(phys: seq<bool>, i: nat): (r: int)
    requires |phys| == TOTAL_PAGES
    ensures r == -1 || (i <= r < TOTAL_PAGES && (r - i) % 2 == 0 && !phys[r])
    ensures forall f: Frame | i <= f && (f - i) % 2 == 0 && !phys[f] :: i <= r <= f
    decreases TOTAL_PAGES - i
  {
    if i >= TOTAL_PAGES then -1 else if !phys[i] then i else FirstFree(phys, i + 2)
  }

  /** `free_frame` refuses the kernel's frames, and frame NUM_PAG_KERNEL with them. */
  function FreeFrame(m: Mem, f: Frame): (after: Mem)
    requires m.Wf()
    ensures after.Wf()
  {
    if f > NUM_PAG_KERNEL then m.SetPhys(f, false) else m
  }

  /** `allocate_DIR`: the first directory nobody refers to, or -1. */
  function FirstDir(refs: seq<int>, i: nat): (r: int)
    requires |refs| == NR_DIRS
    ensures r == -1 || (i <= r < NR_DIRS && refs[r] == 0)
    ensures forall d: Dir | i <= d && refs[d] == 0 :: i <= r <= d
    decreases NR_DIRS - i
  {
    if i >= NR_DIRS then -1 else if refs[i] == 0 then i else FirstDir(refs, i + 1)
  }

  // ---- sys_fork ----

  /** Entries 1 to 263 of directory d become those of directory p: the kernel pages and the shared code. */
  function ShareEntries(m: Mem, p: Dir, d: Dir): (after: Mem)
    requires m.Wf()
    ensures after.Wf()
    ensures forall d': Dir, q: Page ::
              after.Entry(d', q) == if d' == d && 1 <= q < PAG_LOG_INIT_DATA then m.Entry(p, q) else m.Entry(d', q)
  {
    var from, to := p * TOTAL_PAGES, d * TOTAL_PAGES;
    m.(pt := m.pt[..to + 1] + m.pt[from + 1..from + PAG_LOG_INIT_DATA] + m.pt[to + PAG_LOG_INIT_DATA..])
  }

  /** One turn of the page loop with frame f: map f in the child and in the window of the parent, copy the page
      through the window, unmap the window. */
  function ForkPage(m: Mem, p: Dir, d: Dir, i: DataPage, f: Frame): (after: Mem)
    requires m.Wf()
    ensures after.Wf()
  {
    var mapped := m.SetPhys(f, true).Set(d, PAG_LOG_INIT_DATA + i, DataEntry(f)).Set(p, WINDOW + i, DataEntry(f));
    mapped.CopyFrame(mapped.Data(p, i).frame, f).Set(p, WINDOW + i, NO_ENTRY)
  }

  /** Gives back the frames of the first i data pages of d, last first. */
  function Revert(m: Mem, d: Dir, i: nat): (after: Mem)
    requires m.Wf() && i <= NUM_PAG_DATA
    ensures after.Wf()
    decreases i
  {
    if i == 0 then m else Revert(FreeFrame(m, m.Data(d, i - 1).frame), d, i - 1)
  }

  datatype Forked = Forked(m: Mem, ok: bool)

  /** The page loop from page i on. */
  function ForkPages(m: Mem, p: Dir, d: Dir, i: nat): (r: Forked)
    requires m.Wf() && i <= NUM_PAG_DATA
    ensures r.m.Wf()
    decreases NUM_PAG_DATA - i
  {
    if i == NUM_PAG_DATA then Forked(m, true)
    else
      var f := FirstFree(m.phys, NUM_PAG_KERNEL);
      if f == -1 then Forked(Revert(m, d, i), false)
      else ForkPages(ForkPage(m, p, d, i, f), p, d, i + 1)
  }

  /** Before the page loop: the directory is counted and shares kernel and code. */
  function Shared(m: Mem, p: Dir, d: Dir): (after: Mem)
    requires m.Wf()
    ensures after.Wf()
  {
    ShareEntries(m.SetRefs(d, m.refs[d] + 1), p, d)
  }

  /** The memory part of `sys_fork` once directory d has been found. */
  function ForkMem(m: Mem, p: Dir, d: Dir): (r: Forked)
    requires m.Wf()
    ensures r.m.Wf()
  {
    ForkPages(Shared(m, p, d), p, d, 0)
  }

  // ---- sys_exit ----

  /** The loop of `sys_exit` from data page i on. */
  function FreePages(m: Mem, d: Dir, i: nat): (after: Mem)
    requires m.Wf() && i <= NUM_PAG_DATA
    ensures after.Wf()
    decreases NUM_PAG_DATA - i
  {
    if i == NUM_PAG_DATA then m
    else FreePages(FreeFrame(m, m.Data(d, i).frame).Set(d, PAG_LOG_INIT_DATA + i, NO_ENTRY), d, i + 1)
  }

  /** The memory part of `sys_exit`: the last user of a directory frees its data frames. */
  function ExitMem(m: Mem, d: Dir): (after: Mem)
    requires m.Wf()
    ensures after.Wf()
  {
    var u := m.SetRefs(d, m.refs[d] - 1);
    if u.refs[d] == 0 then FreePages(u, d, 0) else u
  }

  // ---- Closed forms ----

  /** Frame f backs one of the data pages of d from page i on. */
  ghost predicate Backs(m: Mem, d: Dir, i: nat, f: Frame)
    requires m.Wf()
  {
    exists j: DataPage :: i <= j && m.Data(d, j).frame == f
  }

  /** m' is m with the data pages of p, from page i on, copied to fresh frames for d. */
  ghost predicate Copied(m: Mem, m': Mem, p: Dir, d: Dir, i: nat) {
    && m.Wf() && m'.Wf()
    && m'.refs == m.refs
    // the tables: only the data pages of d change, and the window of p is empty
    && (forall d': Dir, q: Page | !(d' == d && PAG_LOG_INIT_DATA + i <= q < WINDOW) ::
          m'.Entry(d', q) == if d' == p && WINDOW + i <= q < WINDOW + NUM_PAG_DATA then NO_ENTRY else m.Entry(d', q))
    // the frames: fresh, even, different
    && (forall j: DataPage | i <= j :: m'.Data(d, j) == DataEntry(m'.Data(d, j).frame))
    && (forall j: DataPage | i <= j ::
          var f := m'.Data(d, j).frame; !m.phys[f] && NUM_PAG_KERNEL <= f && f % 2 == 0)
    && (forall j: DataPage, k: DataPage | i <= j < k :: m'.Data(d, j).frame != m'.Data(d, k).frame)
    && (forall f: Frame :: m'.phys[f] <==> m.phys[f] || Backs(m', d, i, f))
    // the memory: the new frames hold the pages of p, all other frames are as before
    && (forall f: Frame, o: Offset | !Backs(m', d, i, f) :: m'.At(f, o) == m.At(f, o))
    && (forall j: DataPage, o: Offset | i <= j && m.phys[m.Data(p, j).frame] ::
        m'.At(m'.Data(d, j).frame, o) == m.At(m.Data(p, j).frame, o))
  }

  lemma OnePage(m: Mem, p: Dir, d: Dir, i: DataPage, f: Frame)
    requires m.Wf() && p != d && !m.phys[f]
    ensures var m1 := ForkPage(m, p, d, i, f);
            && m1.refs == m.refs
            && m1.phys == m.phys[f := true]
            && (forall d': Dir, q: Page ::
                  m1.Entry(d', q) == if d' == d && q == PAG_LOG_INIT_DATA + i then DataEntry(f)
                                     else if d' == p && q == WINDOW + i then NO_ENTRY else m.Entry(d', q))
            && (forall g: Frame, o: Offset :: m1.At(g, o) == if g == f then m.At(m.Data(p, i).frame, o) else m.At(g, o))
  {
    var a := m.SetPhys(f, true);
    assert forall d': Dir, q: Page :: a.Entry(d', q) == m.Entry(d', q);
    assert forall g: Frame, o: Offset :: a.At(g, o) == m.At(g, o);
    var b := a.Set(d, PAG_LOG_INIT_DATA + i, DataEntry(f));
    var c := b.Set(p, WINDOW + i, DataEntry(f));
    assert forall g: Frame, o: Offset :: c.At(g, o) == m.At(g, o);
    var e := c.CopyFrame(c.Data(p, i).frame, f);
    assert forall d': Dir, q: Page :: e.Entry(d', q) == c.Entry(d', q);
    var h := e.Set(p, WINDOW + i, NO_ENTRY);
    assert forall g: Frame, o: Offset :: h.At(g, o) == e.At(g, o);
  }

  lemma CopiedNothing(m: Mem, p: Dir, d: Dir)
    requires m.Wf()
    ensures Copied(m, m, p, d, NUM_PAG_DATA)
  {
  }

  lemma EvenFrame(f: int)
    requires (f - NUM_PAG_KERNEL) % 2 == 0
    ensures f % 2 == 0
  {
  }

  /** The page loop in closed form, when it does not run out of frames. */
  lemma {:induction false} ForkPagesCopies(m: Mem, p: Dir, d: Dir, i: nat)
    requires m.Wf() && p != d && i <= NUM_PAG_DATA
    ensures ForkPages(m, p, d, i).ok ==> Copied(m, ForkPages(m, p, d, i).m, p, d, i)
    decreases NUM_PAG_DATA - i
  {
    hide ForkPage, Revert, Copied, FirstFree;
    if i < NUM_PAG_DATA {
      var f := FirstFree(m.phys, NUM_PAG_KERNEL);
      if f != -1 {
        ForkPagesCopies(ForkPage(m, p, d, i, f), p, d, i + 1);
        if ForkPages(m, p, d, i).ok {
          EvenFrame(f);
          CopiedStep(m, ForkPage(m, p, d, i, f), ForkPages(m, p, d, i).m, p, d, i, f);
        }
      }
    } else {
      CopiedNothing(m, p, d);
    }
  }

  lemma CopiedStep(m: Mem, m1: Mem, m': Mem, p: Dir, d: Dir, i: DataPage, f: Frame)
    requires m.Wf() && p != d && !m.phys[f] && NUM_PAG_KERNEL <= f && f % 2 == 0
    requires m1 == ForkPage(m, p, d, i, f)
    requires Copied(m1, m', p, d, i + 1)
    ensures Copied(m, m', p, d, i)
  {
    OnePage(m, p, d, i, f);
    hide ForkPage;
    assert m'.Data(d, i) == m1.Data(d, i) == DataEntry(f);
    forall g: Frame
      ensures Backs(m', d, i, g) <==> g == f || Backs(m', d, i + 1, g)
    {
      if Backs(m', d, i, g) && g != f {
        var j: DataPage :| i <= j && m'.Data(d, j).frame == g;
        assert i + 1 <= j;
      }
    }
    forall j: DataPage, o: Offset | i <= j && m.phys[m.Data(p, j).frame]
      ensures m'.At(m'.Data(d, j).frame, o) == m.At(m.Data(p, j).frame, o)
    {
      if j == i {
        assert !Backs(m', d, i + 1, f);
      }
    }
  }

  // ---- Boot ----

  /** Page q of directory d after `init_table_pages` and `set_user_pages` of the initial process. */
  function BootEntry(d: int, q: int): Pte {
    if 1 <= q < NUM_PAG_KERNEL then KernelEntry(q)
    else if d == 1 && PAG_LOG_INIT_CODE <= q < PAG_LOG_INIT_DATA then
      CodeEntry(NUM_PAG_KERNEL + 2 * (q - PAG_LOG_INIT_CODE))
    else if d == 1 && PAG_LOG_INIT_DATA <= q < WINDOW then
      DataEntry(NUM_PAG_KERNEL + 2 * (q - PAG_LOG_INIT_CODE))
    else NO_ENTRY
  }

  /** The kernel's frames and the 28 that `set_user_pages` took, one in two. */
  predicate BootUsed(f: int) {
    f < NUM_PAG_KERNEL || (f < NUM_PAG_KERNEL + 2 * (NUM_PAG_CODE + NUM_PAG_DATA) && f % 2 == 0)
  }

  /** Memory after boot, with whatever was loaded into it. */
  function BootMem(ram: seq<Byte>): (m: Mem)
    requires |ram| == TOTAL_PAGES * PAGE_SIZE
    ensures m.Wf()
    ensures forall d: Dir, q: Page :: m.Entry(d, q) == BootEntry(d, q)
  {
    Mem([2, 2, 0, 0, 0, 0, 0, 0, 0, 0, 0, 0, 0, 0, 0],
        seq(NR_DIRS * TOTAL_PAGES, i requires 0 <= i < NR_DIRS * TOTAL_PAGES => BootEntry(i / TOTAL_PAGES,
            i % TOTAL_PAGES)),
        seq(TOTAL_PAGES, f => BootUsed(f)),
        ram)
  }
}
