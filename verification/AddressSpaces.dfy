/** What the tables and the frame bytemap keep: isolation, the exact set of used frames, and how many frames are
    left. */
module AddressSpaces {
  import opened Common
  import opened MemSpec

  /** A directory in use by user tasks; directory 0 belongs to the idle task, which has no user pages. */
  predicate UserDir(m: Mem, d: Dir)
    requires m.Wf()
  {
    d != 0 && m.refs[d] > 0
  }

  /** The tables: kernel pages mapped to themselves, code shared, data pages of one's own, and nothing above;
      in particular the window is empty whenever no fork is under way. */
  ghost predicate TableInv(m: Mem)
    requires m.Wf()
  {
    && (forall d: Dir :: m.Entry(d, 0) == NO_ENTRY)
    && (forall d: Dir, q: Page | 1 <= q < NUM_PAG_KERNEL :: m.Entry(d, q) == KernelEntry(q))
    && (forall d: Dir, q: Page | UserDir(m, d) && PAG_LOG_INIT_CODE <= q < PAG_LOG_INIT_DATA ::
          m.Entry(d, q) == CodeEntry(NUM_PAG_KERNEL + 2 * (q - PAG_LOG_INIT_CODE)))
    && (forall d: Dir, q: Page | PAG_LOG_INIT_CODE <= q < PAG_LOG_INIT_DATA ::
          || m.Entry(d, q) == NO_ENTRY
          || (d != 0 && m.Entry(d, q) == CodeEntry(NUM_PAG_KERNEL + 2 * (q - PAG_LOG_INIT_CODE))))
    && (forall d: Dir, j: DataPage | UserDir(m, d) :: m.Data(d, j) == DataEntry(m.Data(d, j).frame))
    && (forall d: Dir, j: DataPage | !UserDir(m, d) :: m.Data(d, j) == NO_ENTRY)
    && (forall d: Dir, q: Page | WINDOW <= q :: m.Entry(d, q) == NO_ENTRY)
  }

  // ---- Access rights ----

  /** What programs may do with each page, by the bits of the tables.  In a directory in use they may write exactly
      their 20 data pages, read exactly these and the eight code pages, and the kernel's pages are the kernel's; page 0
      and everything from page 284 on is absent. */
  lemma AccessRights(m: Mem, d: Dir, q: Page)
    requires SpaceInv(m) && UserDir(m, d)
    ensures UserMayWrite(m.Entry(d, q)) <==> 264 <= q < 284
    ensures UserMayOnlyRead(m.Entry(d, q)) <==> 256 <= q < 264
    ensures KernelOnly(m.Entry(d, q)) <==> 1 <= q < 256
    ensures !m.Entry(d, q).present <==> q == 0 || 284 <= q
  {
    if PAG_LOG_INIT_DATA <= q < WINDOW {
      assert m.Entry(d, q) == m.Data(d, q - PAG_LOG_INIT_DATA);
    }
  }

  /** A directory not in use gives programs nothing to write, and at most the shared code to read; idle's gives them
      nothing at all. */
  lemma NoAccess(m: Mem, d: Dir, q: Page)
    requires SpaceInv(m) && !UserDir(m, d)
    ensures KernelOnly(m.Entry(d, q)) <==> 1 <= q < 256
    ensures !UserMayWrite(m.Entry(d, q))
    ensures UserMayOnlyRead(m.Entry(d, q)) ==> 256 <= q < 264 && d != 0
    ensures m.Entry(d, q).present && q >= 256 ==> m.Entry(d, q).frame == 256 + 2 * (q - 256)
  {
    if PAG_LOG_INIT_DATA <= q < WINDOW {
      assert m.Entry(d, q) == m.Data(d, q - PAG_LOG_INIT_DATA);
    }
  }

  /** The eight frames of the user code, loaded at boot. */
  predicate CodeFrame(f: Frame) {
    NUM_PAG_KERNEL <= f < NUM_PAG_KERNEL + 2 * NUM_PAG_CODE && f % 2 == 0
  }

  /** Frame f backs a data page of a directory in use. */
  ghost predicate DataFrame(m: Mem, f: Frame)
    requires m.Wf()
  {
    exists d: Dir, j: DataPage :: UserDir(m, d) && m.Data(d, j).frame == f
  }

  /** Data frames are above the code, even, and each backs one page of one directory; and the used frames are
      exactly the kernel's, the code's and these. */
  ghost predicate FrameInv(m: Mem)
    requires m.Wf()
  {
    && (forall d: Dir, j: DataPage | UserDir(m, d) ::
          NUM_PAG_KERNEL + 2 * NUM_PAG_CODE <= m.Data(d, j).frame && m.Data(d, j).frame % 2 == 0)
    && (forall d: Dir, j: DataPage, e: Dir, k: DataPage |
          UserDir(m, d) && UserDir(m, e) && m.Data(d, j).frame == m.Data(e, k).frame :: d == e && j == k)
    && (forall f: Frame :: m.phys[f] <==> f < NUM_PAG_KERNEL || CodeFrame(f) || DataFrame(m, f))
  }

  ghost predicate SpaceInv(m: Mem) {
    m.Wf() && TableInv(m) && FrameInv(m)
  }

  /** The data pages of a directory in use are backed by used frames. */
  lemma DataUsed(m: Mem, d: Dir, j: DataPage)
    requires SpaceInv(m) && UserDir(m, d)
    ensures m.phys[m.Data(d, j).frame] && DataFrame(m, m.Data(d, j).frame)
  {
  }

  // ---- Counting ----

  predicate Below(i: int, n: nat) {
    0 <= i < n
  }

  ghost function Upto(n: nat): set<int> {
    set i | 0 <= i < n && Below(i, n)
  }

  lemma {:induction false} UptoCount(n: nat)
    ensures |Upto(n)| == n
  {
    if n > 0 {
      UptoCount(n - 1);
      assert Upto(n) == Upto(n - 1) + {n - 1};
    }
  }

  /** The even numbers from lo on, n of them. */
  ghost function Evens(lo: nat, n: nat): set<int> {
    set i | 0 <= i < n :: lo + 2 * i
  }

  lemma {:induction false} EvensCount(lo: nat, n: nat)
    ensures |Evens(lo, n)| == n
  {
    if n > 0 {
      EvensCount(lo, n - 1);
      var last := lo + 2 * (n - 1);
      assert last !in Evens(lo, n - 1);
      forall i | i in Evens(lo, n)
        ensures i in Evens(lo, n - 1) + {last}
      {
      }
      assert Evens(lo, n) == Evens(lo, n - 1) + {last};
    } else {
      assert Evens(lo, 0) == {};
    }
  }

  /** How many directories below n are in use by user tasks. */
  function Dirs(m: Mem, n: nat): nat
    requires m.Wf() && n <= NR_DIRS
  {
    if n == 0 then 0 else Dirs(m, n - 1) + (if UserDir(m, n - 1) then 1 else 0)
  }

  lemma {:induction false} DirsBound(m: Mem, n: nat, free: Dir)
    requires m.Wf() && n <= NR_DIRS
    ensures Dirs(m, n) <= if n == 0 then 0 else n - 1
    ensures 0 < free < n && m.refs[free] == 0 ==> Dirs(m, n) <= n - 2
  {
    if n > 0 {
      DirsBound(m, n - 1, free);
    }
  }

  ghost function DirFrames(m: Mem, d: Dir, n: nat): set<int>
    requires m.Wf()
  {
    set j: DataPage | j < n :: m.Data(d, j).frame
  }

  lemma {:induction false} DirFramesCount(m: Mem, d: Dir, n: nat)
    requires m.Wf() && FrameInv(m) && UserDir(m, d) && n <= NUM_PAG_DATA
    ensures |DirFrames(m, d, n)| == n
  {
    if n > 0 {
      DirFramesCount(m, d, n - 1);
      assert DirFrames(m, d, n) == DirFrames(m, d, n - 1) + {m.Data(d, n - 1).frame};
    }
  }

  /** The data frames of the directories below n. */
  ghost function DataFrames(m: Mem, n: nat): set<int>
    requires m.Wf()
  {
    set d: Dir, j: DataPage | d < n && UserDir(m, d) :: m.Data(d, j).frame
  }

  lemma {:induction false} DataFramesCount(m: Mem, n: nat)
    requires m.Wf() && FrameInv(m) && n <= NR_DIRS
    ensures |DataFrames(m, n)| == NUM_PAG_DATA * Dirs(m, n)
  {
    if n > 0 {
      DataFramesCount(m, n - 1);
      if UserDir(m, n - 1) {
        DirFramesCount(m, n - 1, NUM_PAG_DATA);
        DataFramesStep(m, n);
      } else {
        assert DataFrames(m, n) == DataFrames(m, n - 1);
      }
    } else {
      assert DataFrames(m, 0) == {};
    }
  }

  lemma DataFramesStep(m: Mem, n: nat)
    requires m.Wf() && FrameInv(m) && 0 < n <= NR_DIRS && UserDir(m, n - 1)
    ensures DataFrames(m, n) == DataFrames(m, n - 1) + DirFrames(m, n - 1, NUM_PAG_DATA)
    ensures DataFrames(m, n - 1) !! DirFrames(m, n - 1, NUM_PAG_DATA)
  {
    forall f | f in DataFrames(m, n)
      ensures f in DataFrames(m, n - 1) + DirFrames(m, n - 1, NUM_PAG_DATA)
    {
      var d: Dir, j: DataPage :| d < n && UserDir(m, d) && m.Data(d, j).frame == f;
      if d == n - 1 {
        assert f in DirFrames(m, n - 1, NUM_PAG_DATA);
      } else {
        assert f in DataFrames(m, n - 1);
      }
    }
  }

  ghost function UsedFrames(m: Mem): set<int>
    requires m.Wf()
  {
    set f: Frame | m.phys[f]
  }

  /** The frames `alloc_frame` can still hand out. */
  ghost function Available(phys: seq<bool>): set<int>
    requires |phys| == TOTAL_PAGES
  {
    set f: Frame | NUM_PAG_KERNEL <= f && f % 2 == 0 && !phys[f]
  }

  lemma UsedFramesAre(m: Mem)
    requires SpaceInv(m)
    ensures UsedFrames(m) == Upto(NUM_PAG_KERNEL) + Evens(NUM_PAG_KERNEL, NUM_PAG_CODE) + DataFrames(m, NR_DIRS)
    ensures Upto(NUM_PAG_KERNEL) !! Evens(NUM_PAG_KERNEL, NUM_PAG_CODE)
    ensures Upto(NUM_PAG_KERNEL) + Evens(NUM_PAG_KERNEL, NUM_PAG_CODE) !! DataFrames(m, NR_DIRS)
  {
    forall f: Frame
      ensures CodeFrame(f) <==> f in Evens(NUM_PAG_KERNEL, NUM_PAG_CODE)
      ensures DataFrame(m, f) <==> f in DataFrames(m, NR_DIRS)
    {
      if CodeFrame(f) {
        assert f == NUM_PAG_KERNEL + 2 * ((f - NUM_PAG_KERNEL) / 2);
      }
    }
  }

  /** Frame conservation: the used frames number 264 plus 20 for each user directory in use. */
  lemma FrameConservation(m: Mem)
    requires SpaceInv(m)
    ensures |UsedFrames(m)| == NUM_PAG_KERNEL + NUM_PAG_CODE + NUM_PAG_DATA * Dirs(m, NR_DIRS)
  {
    UsedFramesAre(m);
    UptoCount(NUM_PAG_KERNEL);
    EvensCount(NUM_PAG_KERNEL, NUM_PAG_CODE);
    DataFramesCount(m, NR_DIRS);
  }

  lemma AvailableAre(m: Mem)
    requires SpaceInv(m)
    ensures var code, data := Evens(NUM_PAG_KERNEL, NUM_PAG_CODE), DataFrames(m, NR_DIRS);
            && Evens(NUM_PAG_KERNEL, 384) == Available(m.phys) + code + data
            && Available(m.phys) !! code && Available(m.phys) + code !! data
  {
    forall f: Frame
      ensures CodeFrame(f) <==> f in Evens(NUM_PAG_KERNEL, NUM_PAG_CODE)
      ensures DataFrame(m, f) <==> f in DataFrames(m, NR_DIRS)
      ensures NUM_PAG_KERNEL <= f && f % 2 == 0 <==> f in Evens(NUM_PAG_KERNEL, 384)
    {
      if NUM_PAG_KERNEL <= f && f % 2 == 0 {
        assert f == NUM_PAG_KERNEL + 2 * ((f - NUM_PAG_KERNEL) / 2);
      }
    }
    assert forall f | f in Evens(NUM_PAG_KERNEL, 384) :: 0 <= f < TOTAL_PAGES;
  }

  /** What `alloc_frame` has left: 376 frames less 20 for each user directory in use. */
  lemma AvailableCount(m: Mem)
    requires SpaceInv(m)
    ensures |Available(m.phys)| == 384 - NUM_PAG_CODE - NUM_PAG_DATA * Dirs(m, NR_DIRS)
  {
    AvailableAre(m);
    EvensCount(NUM_PAG_KERNEL, 384);
    EvensCount(NUM_PAG_KERNEL, NUM_PAG_CODE);
    DataFramesCount(m, NR_DIRS);
  }

  // ---- sys_fork ----

  lemma AllocTakesOne(phys: seq<bool>)
    requires |phys| == TOTAL_PAGES
    ensures FirstFree(phys, NUM_PAG_KERNEL) == -1 <==> Available(phys) == {}
    ensures var f := FirstFree(phys, NUM_PAG_KERNEL);
            f != -1 ==> f % 2 == 0 && f in Available(phys) && Available(phys[f := true]) == Available(phys) - {f}
  {
    var f := FirstFree(phys, NUM_PAG_KERNEL);
    forall g: Frame | g in Available(phys)
      ensures NUM_PAG_KERNEL <= f <= g
    {
      assert (g - NUM_PAG_KERNEL) % 2 == 0 && !phys[g];
    }
    assert f == -1 ==> Available(phys) == {};
    if f != -1 {
      assert f in Available(phys);
      var after := phys[f := true];
      forall g: Frame
        ensures g in Available(after) <==> g in Available(phys) && g != f
      {
        assert after[g] == (g == f || phys[g]);
      }
    }
  }

  lemma OnePagePhys(m: Mem, p: Dir, d: Dir, i: DataPage, f: Frame)
    requires m.Wf()
    ensures ForkPage(m, p, d, i, f).phys == m.phys[f := true]
  {
  }

  /** The page loop succeeds exactly when as many frames are available as pages are left. */
  lemma {:induction false} ForkPagesOk(m: Mem, p: Dir, d: Dir, i: nat)
    requires m.Wf() && p != d && i <= NUM_PAG_DATA
    ensures ForkPages(m, p, d, i).ok <==> |Available(m.phys)| >= NUM_PAG_DATA - i
    decreases NUM_PAG_DATA - i
  {
    hide ForkPage, Revert, FirstFree;
    if i < NUM_PAG_DATA {
      AllocTakesOne(m.phys);
      var f := FirstFree(m.phys, NUM_PAG_KERNEL);
      if f != -1 {
        OnePagePhys(m, p, d, i, f);
        hide Available;
        ForkPagesOk(ForkPage(m, p, d, i, f), p, d, i + 1);
      }
    }
  }

  /** Frame f backs one of the first i data pages of d, and `free_frame` accepts it. */
  ghost predicate TakenBefore(m: Mem, d: Dir, i: nat, f: Frame)
    requires m.Wf()
  {
    f > 256 && exists j: DataPage :: j < i && m.Data(d, j).frame == f
  }

  lemma {:induction false} RevertFrees(m: Mem, d: Dir, i: nat)
    requires m.Wf() && i <= NUM_PAG_DATA
    ensures var r := Revert(m, d, i);
            && r.refs == m.refs && r.pt == m.pt && r.ram == m.ram
            && forall f: Frame :: r.phys[f] == (m.phys[f] && !TakenBefore(m, d, i, f))
    decreases i
  {
    if i > 0 {
      var m1 := FreeFrame(m, m.Data(d, i - 1).frame);
      RevertFrees(m1, d, i - 1);
      forall f: Frame
        ensures TakenBefore(m, d, i, f) <==> (f > 256 && f == m.Data(d, i - 1).frame) || TakenBefore(m1, d, i - 1, f)
      {
        TakenOneMore(m, m1, d, i - 1, f);
      }
      hide TakenBefore;
    }
  }

  lemma TakenOneMore(m: Mem, m1: Mem, d: Dir, i: DataPage, f: Frame)
    requires m.Wf() && m1.Wf() && forall j: DataPage | j < i :: m1.Data(d, j) == m.Data(d, j)
    ensures TakenBefore(m, d, i + 1, f) <==> (f > 256 && f == m.Data(d, i).frame) || TakenBefore(m1, d, i, f)
  {
    if TakenBefore(m, d, i + 1, f) && f != m.Data(d, i).frame {
      var j: DataPage :| j < i + 1 && m.Data(d, j).frame == f;
      assert m1.Data(d, j).frame == f && j < i;
    }
    if TakenBefore(m1, d, i, f) {
      var j: DataPage :| j < i && m1.Data(d, j).frame == f;
      assert m.Data(d, j).frame == f;
    }
  }

  /** A page loop that runs out of frames gives back all that have been taken, those of earlier turns included. */
  lemma {:induction false} FailureFrees(m: Mem, p: Dir, d: Dir, i: nat)
    requires m.Wf() && p != d && i <= NUM_PAG_DATA && m.phys[256] && !ForkPages(m, p, d, i).ok
    ensures var r := ForkPages(m, p, d, i).m;
            r.refs == m.refs && forall f: Frame :: r.phys[f] == (m.phys[f] && !TakenBefore(m, d, i, f))
    decreases NUM_PAG_DATA - i
  {
    hide ForkPage, Revert, TakenBefore, FirstFree;
    var f := FirstFree(m.phys, NUM_PAG_KERNEL);
    if f == -1 {
      RevertFrees(m, d, i);
    } else {
      var m1 := ForkPage(m, p, d, i, f);
      OnePage(m, p, d, i, f);
      FailureFrees(m1, p, d, i + 1);
      assert ForkPages(m, p, d, i) == ForkPages(m1, p, d, i + 1);
      assert f > 256 && m1.Data(d, i).frame == f;
      forall g: Frame
        ensures TakenBefore(m1, d, i + 1, g) <==> (g > 256 && g == f) || TakenBefore(m, d, i, g)
        ensures m1.phys[g] == (m.phys[g] || g == f)
      {
        TakenOneMore(m1, m, d, i, g);
      }
    }
  }

  /** A fork that runs out of frames restores the bytemap exactly; what it does not undo is the count of its
      directory. */
  lemma FailedFork(m: Mem, p: Dir, d: Dir)
    requires m.Wf() && p != d && m.phys[256] && !ForkMem(m, p, d).ok
    ensures ForkMem(m, p, d).m.phys == m.phys
    ensures ForkMem(m, p, d).m.refs == m.refs[d := m.refs[d] + 1]
  {
    SharedEffect(m, p, d);
    FailureFrees(Shared(m, p, d), p, d, 0);
    hide ForkPages;
  }

  /** With a directory to spare there are always frames enough. */
  lemma ForkMemOk(m: Mem, p: Dir, d: Dir)
    requires SpaceInv(m) && d != 0 && m.refs[d] == 0 && p != d
    ensures ForkMem(m, p, d).ok
  {
    var m1 := ShareEntries(m.SetRefs(d, m.refs[d] + 1), p, d);
    assert m1.phys == m.phys;
    assert |Available(m.phys)| >= NUM_PAG_DATA by {
      AvailableCount(m);
      DirsBound(m, NR_DIRS, d);
    }
    hide ShareEntries, SpaceInv;
    ForkPagesOk(m1, p, d, 0);
  }

  ghost predicate SharedFrom(m: Mem, m1: Mem, p: Dir, d: Dir) {
    && m.Wf() && m1.Wf()
    && m1.refs == m.refs[d := m.refs[d] + 1] && m1.phys == m.phys
    && (forall f: Frame, o: Offset :: m1.At(f, o) == m.At(f, o))
    && (forall d': Dir, q: Page ::
          m1.Entry(d', q) == if d' == d && 1 <= q < PAG_LOG_INIT_DATA then m.Entry(p, q) else m.Entry(d', q))
  }

  lemma SharedEffect(m: Mem, p: Dir, d: Dir)
    requires m.Wf()
    ensures SharedFrom(m, Shared(m, p, d), p, d)
  {
    var m0 := m.SetRefs(d, m.refs[d] + 1);
    assert forall d': Dir, q: Page :: m0.Entry(d', q) == m.Entry(d', q);
    var m1 := ShareEntries(m0, p, d);
    assert forall f: Frame, o: Offset :: m1.At(f, o) == m.At(f, o);
  }

  lemma ForkMemCopies(m: Mem, p: Dir, d: Dir)
    requires SpaceInv(m) && UserDir(m, p) && d != 0 && m.refs[d] == 0
    ensures ForkMem(m, p, d).ok && Copied(Shared(m, p, d), ForkMem(m, p, d).m, p, d, 0)
  {
    ForkMemOk(m, p, d);
    assert ForkMem(m, p, d) == ForkPages(Shared(m, p, d), p, d, 0);
    hide SpaceInv, ForkPages, Copied, ForkMem, Shared;
    ForkPagesCopies(Shared(m, p, d), p, d, 0);
  }

  /** A successful `sys_fork` in one statement: the only table that changes is the child's; the child gets
      fresh frames of its own; and no byte of any frame in use changes. */
  ghost predicate ForkEffect(m: Mem, m': Mem, p: Dir, d: Dir) {
    && m.Wf() && m'.Wf()
    && m'.refs == m.refs[d := 1]
    && (forall d': Dir, q: Page | d' != d :: m'.Entry(d', q) == m.Entry(d', q))
    && (forall q: Page | q < PAG_LOG_INIT_DATA || WINDOW <= q ::
          m'.Entry(d, q) == if 1 <= q < PAG_LOG_INIT_DATA then m.Entry(p, q) else m.Entry(d, q))
    && (forall j: DataPage :: m'.Data(d, j) == DataEntry(m'.Data(d, j).frame))
    && (forall j: DataPage ::
          var f := m'.Data(d, j).frame; !m.phys[f] && NUM_PAG_KERNEL <= f && f % 2 == 0)
    && (forall j: DataPage, k: DataPage | j < k :: m'.Data(d, j).frame != m'.Data(d, k).frame)
    && (forall f: Frame :: m'.phys[f] <==> m.phys[f] || Backs(m', d, 0, f))
    && (forall f: Frame, o: Offset | !Backs(m', d, 0, f) :: m'.At(f, o) == m.At(f, o))
    && (forall j: DataPage, o: Offset :: m'.ReadData(d, j, o) == m.ReadData(p, j, o))
  }

  lemma SharedThenCopied(m: Mem, m1: Mem, m': Mem, p: Dir, d: Dir)
    requires SharedFrom(m, m1, p, d) && Copied(m1, m', p, d, 0) && m.refs[d] == 0 && p != d
    requires forall j: DataPage :: m.phys[m.Data(p, j).frame]
    requires forall q: Page | WINDOW <= q :: m.Entry(p, q) == NO_ENTRY
    ensures ForkEffect(m, m', p, d)
  {
    assert forall j: DataPage :: m1.Data(p, j) == m.Data(p, j);
    forall j: DataPage, o: Offset
      ensures m'.ReadData(d, j, o) == m.ReadData(p, j, o)
    {
      assert m'.At(m'.Data(d, j).frame, o) == m1.At(m1.Data(p, j).frame, o);
    }
  }

  lemma ForkMemEffect(m: Mem, p: Dir, d: Dir)
    requires SpaceInv(m) && UserDir(m, p) && d != 0 && m.refs[d] == 0
    ensures ForkMem(m, p, d).ok && ForkEffect(m, ForkMem(m, p, d).m, p, d)
  {
    ForkMemCopies(m, p, d);
    SharedEffect(m, p, d);
    forall j: DataPage
      ensures m.phys[m.Data(p, j).frame]
    {
      DataUsed(m, p, j);
    }
    assert forall q: Page | WINDOW <= q :: m.Entry(p, q) == NO_ENTRY;
    hide *;
    SharedThenCopied(m, Shared(m, p, d), ForkMem(m, p, d).m, p, d);
  }

  /** `sys_fork` keeps the tables and the bytemap in order. */
  lemma ForkTables(m: Mem, m': Mem, p: Dir, d: Dir)
    requires SpaceInv(m) && ForkEffect(m, m', p, d) && UserDir(m, p) && d != 0 && m.refs[d] == 0
    ensures TableInv(m')
  {
    assert forall e: Dir | e != d :: UserDir(m', e) == UserDir(m, e);
    hide FrameInv;
    forall e: Dir, j: DataPage | e != d
      ensures m'.Data(e, j) == m.Data(e, j)
    {
    }
    forall e: Dir, j: DataPage | UserDir(m', e)
      ensures m'.Data(e, j) == DataEntry(m'.Data(e, j).frame)
    {
    }
  }

  lemma ForkFrames(m: Mem, m': Mem, p: Dir, d: Dir)
    requires SpaceInv(m) && ForkEffect(m, m', p, d) && UserDir(m, p) && d != 0 && m.refs[d] == 0
    ensures FrameInv(m')
    ensures forall f: Frame :: DataFrame(m', f) <==> DataFrame(m, f) || Backs(m', d, 0, f)
  {
    assert forall e: Dir | e != d :: UserDir(m', e) == UserDir(m, e);
    assert UserDir(m', d);
    assert forall e: Dir, j: DataPage | e != d :: m'.Data(e, j) == m.Data(e, j);
    forall j: DataPage
      ensures !m.phys[m'.Data(d, j).frame] && NUM_PAG_KERNEL + 2 * NUM_PAG_CODE <= m'.Data(d, j).frame
    {
      assert !CodeFrame(m'.Data(d, j).frame);
    }
    forall e: Dir, j: DataPage | UserDir(m, e)
      ensures m.phys[m.Data(e, j).frame]
    {
      DataUsed(m, e, j);
    }
    forall f: Frame
      ensures DataFrame(m', f) <==> DataFrame(m, f) || Backs(m', d, 0, f)
    {
      if DataFrame(m', f) {
        var e: Dir, j: DataPage :| UserDir(m', e) && m'.Data(e, j).frame == f;
        assert if e == d then Backs(m', d, 0, f) else UserDir(m, e) && m.Data(e, j).frame == f;
      }
      if DataFrame(m, f) {
        var e: Dir, j: DataPage :| UserDir(m, e) && m.Data(e, j).frame == f;
        assert UserDir(m', e) && m'.Data(e, j).frame == f;
      }
      if Backs(m', d, 0, f) {
        var j: DataPage :| m'.Data(d, j).frame == f;
        assert UserDir(m', d) && m'.Data(d, j).frame == f;
      }
    }
  }

  // ---- sys_exit ----

  /** m' is m without the data pages of d from page i on. */
  ghost predicate Freed(m: Mem, m': Mem, d: Dir, i: nat) {
    && m.Wf() && m'.Wf()
    && m'.refs == m.refs && m'.ram == m.ram
    && (forall d': Dir, q: Page ::
          m'.Entry(d', q) == if d' == d && PAG_LOG_INIT_DATA + i <= q < WINDOW then NO_ENTRY else m.Entry(d', q))
    && (forall f: Frame :: m'.phys[f] <==> m.phys[f] && !(f > NUM_PAG_KERNEL && Backs(m, d, i, f)))
  }

  lemma BacksOneLess(m: Mem, m1: Mem, d: Dir, i: DataPage, f: Frame)
    requires m.Wf() && m1.Wf() && forall j: DataPage | i + 1 <= j :: m1.Data(d, j) == m.Data(d, j)
    ensures Backs(m, d, i, f) <==> m.Data(d, i).frame == f || Backs(m1, d, i + 1, f)
  {
    if Backs(m, d, i, f) && m.Data(d, i).frame != f {
      var j: DataPage :| i <= j && m.Data(d, j).frame == f;
      assert i + 1 <= j && m1.Data(d, j).frame == f;
    }
    if Backs(m1, d, i + 1, f) {
      var j: DataPage :| i + 1 <= j && m1.Data(d, j).frame == f;
      assert m.Data(d, j).frame == f;
    }
  }

  lemma {:induction false} FreePagesFrees(m: Mem, d: Dir, i: nat)
    requires m.Wf() && i <= NUM_PAG_DATA
    ensures Freed(m, FreePages(m, d, i), d, i)
    decreases NUM_PAG_DATA - i
  {
    if i < NUM_PAG_DATA {
      var a := FreeFrame(m, m.Data(d, i).frame);
      assert forall d': Dir, q: Page :: a.Entry(d', q) == m.Entry(d', q);
      var m1 := a.Set(d, PAG_LOG_INIT_DATA + i, NO_ENTRY);
      FreePagesFrees(m1, d, i + 1);
      forall f: Frame
        ensures Backs(m, d, i, f) <==> m.Data(d, i).frame == f || Backs(m1, d, i + 1, f)
      {
        BacksOneLess(m, m1, d, i, f);
      }
      hide Backs, FreePages;
    } else {
      assert forall f: Frame :: !Backs(m, d, i, f);
    }
  }

  /** The last user of d leaves: its data frames become free, its data entries empty, nothing else changes. */
  lemma ExitMemEffect(m: Mem, d: Dir)
    requires m.Wf()
    ensures m.refs[d] != 1 ==> ExitMem(m, d) == m.SetRefs(d, m.refs[d] - 1)
    ensures m.refs[d] == 1 ==> Freed(m.SetRefs(d, 0), ExitMem(m, d), d, 0)
  {
    if m.refs[d] == 1 {
      FreePagesFrees(m.SetRefs(d, 0), d, 0);
    }
  }

  /** Counts do not matter to which frames back a directory. */
  lemma BacksAnyCount(m: Mem, d: Dir, n: int, f: Frame)
    requires m.Wf()
    ensures Backs(m.SetRefs(d, n), d, 0, f) <==> Backs(m, d, 0, f)
  {
    var m0 := m.SetRefs(d, n);
    assert forall j: DataPage :: m0.Data(d, j) == m.Data(d, j);
    if Backs(m, d, 0, f) {
      var j: DataPage :| m.Data(d, j).frame == f;
      assert m0.Data(d, j).frame == f;
    }
    if Backs(m0, d, 0, f) {
      var j: DataPage :| m0.Data(d, j).frame == f;
      assert m.Data(d, j).frame == f;
    }
  }

  /** Directory d is no longer in use, and the other directories have the same data pages. */
  ghost predicate Closed(m: Mem, m': Mem, d: Dir) {
    && m.Wf() && m'.Wf()
    && (forall e: Dir :: UserDir(m', e) <==> UserDir(m, e) && e != d)
    && (forall e: Dir, j: DataPage | e != d :: m'.Data(e, j) == m.Data(e, j))
  }

  lemma FramesLeft(m: Mem, m': Mem, d: Dir, f: Frame)
    requires Closed(m, m', d) && FrameInv(m) && UserDir(m, d)
    ensures DataFrame(m', f) <==> DataFrame(m, f) && !Backs(m, d, 0, f)
  {
    if DataFrame(m', f) {
      var e: Dir, j: DataPage :| UserDir(m', e) && m'.Data(e, j).frame == f;
      assert UserDir(m, e) && m.Data(e, j).frame == f;
    }
    if DataFrame(m, f) && !Backs(m, d, 0, f) {
      var e: Dir, j: DataPage :| UserDir(m, e) && m.Data(e, j).frame == f;
      assert UserDir(m', e) && m'.Data(e, j).frame == f;
    }
  }

  lemma ExitCloses(m: Mem, d: Dir)
    requires SpaceInv(m) && UserDir(m, d) && m.refs[d] == 1
    ensures Closed(m, ExitMem(m, d), d)
  {
    ExitMemEffect(m, d);
    var m0 := m.SetRefs(d, 0);
    assert forall e: Dir, q: Page :: m0.Entry(e, q) == m.Entry(e, q);
    hide ExitMem, FrameInv, TableInv;
  }

  /** The frames that back a directory in use lie above the code. */
  lemma BacksAboveCode(m: Mem, d: Dir, f: Frame)
    requires SpaceInv(m) && UserDir(m, d) && Backs(m, d, 0, f)
    ensures f > NUM_PAG_KERNEL && !CodeFrame(f)
  {
    hide TableInv;
    var j: DataPage :| m.Data(d, j).frame == f;
  }

  lemma ExitFrames(m: Mem, d: Dir)
    requires SpaceInv(m) && UserDir(m, d) && m.refs[d] == 1
    ensures var m' := ExitMem(m, d);
            && FrameInv(m')
            && forall f: Frame :: DataFrame(m', f) <==> DataFrame(m, f) && !Backs(m, d, 0, f)
  {
    ExitMemEffect(m, d);
    ExitCloses(m, d);
    var m' := ExitMem(m, d);
    hide ExitMem, TableInv, Backs, CodeFrame, DataFrame;
    forall f: Frame
      ensures Backs(m.SetRefs(d, 0), d, 0, f) <==> Backs(m, d, 0, f)
      ensures Backs(m, d, 0, f) ==> f > NUM_PAG_KERNEL && !CodeFrame(f)
      ensures DataFrame(m', f) <==> DataFrame(m, f) && !Backs(m, d, 0, f)
    {
      BacksAnyCount(m, d, 0, f);
      FramesLeft(m, m', d, f);
      if Backs(m, d, 0, f) {
        BacksAboveCode(m, d, f);
      }
    }
  }

  lemma ExitTables(m: Mem, d: Dir)
    requires SpaceInv(m) && UserDir(m, d) && m.refs[d] == 1
    ensures TableInv(ExitMem(m, d))
  {
    hide ExitMem, FrameInv, Backs;
    ExitMemEffect(m, d);
    ExitCloses(m, d);
    var m' := ExitMem(m, d);
    var m0 := m.SetRefs(d, 0);
    assert forall e: Dir, q: Page :: m0.Entry(e, q) == m.Entry(e, q);
    assert forall j: DataPage :: m'.Data(d, j) == NO_ENTRY;
    hide UserDir;
  }

  /** Counting a user of a directory in use up, or down to at least one, changes nothing else. */
  lemma RefsOnly(m: Mem, d: Dir, n: int)
    requires SpaceInv(m) && UserDir(m, d) && n > 0
    ensures SpaceInv(m.SetRefs(d, n))
  {
    var m' := m.SetRefs(d, n);
    assert forall e: Dir :: UserDir(m', e) == UserDir(m, e);
    assert forall e: Dir, q: Page :: m'.Entry(e, q) == m.Entry(e, q);
    assert forall e: Dir, j: DataPage :: m'.Data(e, j) == m.Data(e, j);
    forall f: Frame
      ensures DataFrame(m', f) <==> DataFrame(m, f)
    {
      if DataFrame(m, f) {
        var e: Dir, j: DataPage :| UserDir(m, e) && m.Data(e, j).frame == f;
        assert UserDir(m', e) && m'.Data(e, j).frame == f;
      }
      if DataFrame(m', f) {
        var e: Dir, j: DataPage :| UserDir(m', e) && m'.Data(e, j).frame == f;
        assert UserDir(m, e) && m.Data(e, j).frame == f;
      }
    }
  }

  /** Frame 256, which `free_frame` refuses, became code at boot and is never handed out. */
  lemma CodeFrameUsed(m: Mem)
    requires SpaceInv(m)
    ensures m.phys[NUM_PAG_KERNEL]
  {
    assert CodeFrame(NUM_PAG_KERNEL);
  }

  lemma FreshThenFreed(m: Mem, m1: Mem, m': Mem, p: Dir, d: Dir, f: Frame)
    requires ForkEffect(m, m1, p, d) && Freed(m1.SetRefs(d, 0), m', d, 0) && m.phys[NUM_PAG_KERNEL]
    ensures m'.phys[f] == m.phys[f]
    ensures m.phys[f] ==> !Backs(m1, d, 0, f)
  {
    BacksAnyCount(m1, d, 0, f);
    if Backs(m1, d, 0, f) {
      var j: DataPage :| m1.Data(d, j).frame == f;
    }
    hide Backs;
  }

  lemma ForkThenFreed(m: Mem, m1: Mem, m': Mem, p: Dir, d: Dir)
    requires m.Wf() && TableInv(m) && m.phys[NUM_PAG_KERNEL] && d != 0 && m.refs[d] == 0
    requires ForkEffect(m, m1, p, d) && Freed(m1.SetRefs(d, 0), m', d, 0)
    ensures m'.phys == m.phys && m'.refs == m.refs
    ensures forall e: Dir, q: Page | e != d :: m'.Entry(e, q) == m.Entry(e, q)
    ensures forall j: DataPage :: m'.Data(d, j) == m.Data(d, j) == NO_ENTRY
    ensures forall f: Frame, o: Offset | m.phys[f] :: m'.At(f, o) == m.At(f, o)
  {
    forall f: Frame
      ensures m'.phys[f] == m.phys[f]
      ensures m.phys[f] ==> !Backs(m1, d, 0, f)
    {
      FreshThenFreed(m, m1, m', p, d, f);
    }
    hide Backs;
    var m0 := m1.SetRefs(d, 0);
    assert forall e: Dir, q: Page :: m0.Entry(e, q) == m1.Entry(e, q);
    assert forall f: Frame, o: Offset :: m'.At(f, o) == m1.At(f, o);
  }

  /** A fork followed by the exit of the only user of the new directory gives back exactly the frames it took:
      the bytemap, the directory counts, every other table and every byte in use are as before. */
  lemma ForkThenExitRestores(m: Mem, p: Dir, d: Dir)
    requires SpaceInv(m) && UserDir(m, p) && d != 0 && m.refs[d] == 0
    ensures var m' := ExitMem(ForkMem(m, p, d).m, d);
            && m'.phys == m.phys && m'.refs == m.refs
            && (forall e: Dir, q: Page | e != d :: m'.Entry(e, q) == m.Entry(e, q))
            && (forall j: DataPage :: m'.Data(d, j) == m.Data(d, j) == NO_ENTRY)
            && (forall f: Frame, o: Offset | m.phys[f] :: m'.At(f, o) == m.At(f, o))
  {
    ForkMemEffect(m, p, d);
    var m1 := ForkMem(m, p, d).m;
    ExitMemEffect(m1, d);
    var m' := ExitMem(m1, d);
    hide ForkMem, ExitMem, ForkEffect, Freed, FrameInv;
    CodeFrameUsed(m);
    ForkThenFreed(m, m1, m', p, d);
  }

  // ---- What programs see ----

  /** A fork is invisible to every address space in use, and the child starts with the parent's data. */
  lemma ForkPreservesMeaning(m: Mem, p: Dir, d: Dir)
    requires SpaceInv(m) && UserDir(m, p) && d != 0 && m.refs[d] == 0
    ensures var m' := ForkMem(m, p, d).m;
            && (forall j: DataPage, o: Offset :: m'.ReadData(d, j, o) == m.ReadData(p, j, o))
            && (forall e: Dir, j: DataPage, o: Offset | UserDir(m, e) :: m'.ReadData(e, j, o) == m.ReadData(e, j, o))
            && (forall e: Dir, q: Page | e != d :: m'.Entry(e, q) == m.Entry(e, q))
  {
    ForkMemEffect(m, p, d);
    var m' := ForkMem(m, p, d).m;
    hide ForkMem;
    forall e: Dir, j: DataPage, o: Offset | UserDir(m, e)
      ensures m'.ReadData(e, j, o) == m.ReadData(e, j, o)
    {
      DataUsed(m, e, j);
      var f := m.Data(e, j).frame;
      assert m'.Data(e, j) == m.Data(e, j);
      assert !Backs(m', d, 0, f);
    }
  }

  /** The exit of the last user of d is invisible to every other address space. */
  lemma ExitPreservesMeaning(m: Mem, d: Dir)
    requires SpaceInv(m) && UserDir(m, d)
    ensures forall e: Dir, j: DataPage, o: Offset | e != d :: ExitMem(m, d).ReadData(e, j, o) == m.ReadData(e, j, o)
  {
    ExitMemEffect(m, d);
    var m' := ExitMem(m, d);
    forall e: Dir, j: DataPage, o: Offset | e != d
      ensures m'.ReadData(e, j, o) == m.ReadData(e, j, o)
    {
      var m0 := m.SetRefs(d, m.refs[d] - 1);
      assert m0.Data(e, j) == m.Data(e, j);
      assert m'.Data(e, j) == m0.Data(e, j);
    }
  }

  /** Isolation and sharing of data: what a program stores is seen through its own directory at that address,
      and nowhere else. */
  lemma StoreIsPrivate(m: Mem, d: Dir, j: DataPage, o: Offset, b: Byte)
    requires SpaceInv(m) && UserDir(m, d)
    ensures var m' := m.SetByte(m.Data(d, j).frame, o, b);
            && SpaceInv(m')
            && forall e: Dir, k: DataPage, o': Offset | UserDir(m, e) ::
                 m'.ReadData(e, k, o') == if e == d && k == j && o' == o then b else m.ReadData(e, k, o')
  {
    var m' := m.SetByte(m.Data(d, j).frame, o, b);
    assert forall e: Dir, q: Page :: m'.Entry(e, q) == m.Entry(e, q);
    assert forall e: Dir, k: DataPage :: m'.Data(e, k) == m.Data(e, k);
    assert forall e: Dir :: UserDir(m', e) == UserDir(m, e);
    forall f: Frame
      ensures DataFrame(m', f) <==> DataFrame(m, f)
    {
      if DataFrame(m, f) {
        var e: Dir, k: DataPage :| UserDir(m, e) && m.Data(e, k).frame == f;
        assert UserDir(m', e) && m'.Data(e, k).frame == f;
      }
      if DataFrame(m', f) {
        var e: Dir, k: DataPage :| UserDir(m', e) && m'.Data(e, k).frame == f;
        assert UserDir(m, e) && m.Data(e, k).frame == f;
      }
    }
    forall e: Dir, k: DataPage, o': Offset | UserDir(m, e)
      ensures m'.ReadData(e, k, o') == if e == d && k == j && o' == o then b else m.ReadData(e, k, o')
    {
      assert m'.At(m.Data(e, k).frame, o') == if m.Data(e, k).frame == m.Data(d, j).frame && o' == o then b
             else m.At(m.Data(e, k).frame, o');
    }
  }
}
