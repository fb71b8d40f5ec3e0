/** The first process: its memory meets the invariant that every system call keeps. */
module KernelBoot {
  import opened Wrappers
  import opened PageTables
  import opened Mapping
  import opened Mmu
  import opened KernelState
  import opened KernelSteps
  import opened KernelFork
  import opened KernelExec
  import opened KernelCopy
  import opened KernelAlloc
  import opened Duplicate

  /** Before the first process: the system's tables only, and the root image in memory. */
  ghost predicate Booted(a: Sys, p: nat, n: nat, pfn: nat) {
    && a.procs == [] && a.pidCurrent == 1 && a.refcount == map[] && RamOk(a)
    && ImageFrames(a.image, pfn, n)
    && WellFormed(a.space) && a.sysRoot != 0 && a.space.roots.Keys == {a.sysRoot} && a.space.roots[a.sysRoot][FIX_SLOT] == NoL1
    && BootFits(p, n, pfn)
  }

  /** The root image is n frames from pfn on. */
  ghost predicate ImageFrames(image: set<nat>, pfn: nat, n: nat) {
    forall f: nat :: f in image <==> pfn <= f < pfn + n
  }

  /** The image lies below the stack, in user space, and is mapped by pages. */
  ghost predicate BootFits(p: nat, n: nat, pfn: nat) {
    && 0 < STACK_PAGES <= ARGS_PAGE < USER_SLOTS * L2_ENTRIES && 0 < n && p + n <= STACK_PAGE
    && NoSection(p, p + n, pfn * PAGE_SIZE)
  }

  lemma BootReady(a: Sys, p: nat, n: nat, pfn: nat)
    requires Booted(a, p, n, pfn)
    ensures WellFormed(a.space) && a.sysRoot in a.space.roots
  {
  }

  /** The new process's root is the system root's kernel area. */
  lemma BootProcess(a: Sys, b: Sys)
    requires WellFormed(a.space) && a.sysRoot in a.space.roots && |b.procs| == 1 && b.procs[0].root !in a.space.roots
    requires b.space == FreshRoot(a.space, b.procs[0].root, a.sysRoot) && RamOk(a)
    requires b.refcount == a.refcount && b.ram == a.ram && b.image == a.image
    ensures WellFormed(b.space) && SmallPages(b.space, b.procs[0].root) && RamOk(b.(procs := [], pidCurrent := 0))
    ensures b.space.roots.Keys == a.space.roots.Keys + {b.procs[0].root}
    ensures forall i, j :: 0 <= i < USER_SLOTS && 0 <= j < L2_ENTRIES ==> Lookup(b.space, b.procs[0].root, i, j) == None
  {
    FreshSound(a.space, b.procs[0].root, a.sysRoot);
  }

  lemma BootMappable(x: Space, r: nat, p: nat, n: nat, pfn: nat)
    requires Shaped(x) && SmallPages(x, r) && BootFits(p, n, pfn)
    ensures Mappable(x, r, p, p + n, pfn * PAGE_SIZE)
  {
  }

  /** The tables with the image mapped. */
  lemma BootSpace(x: Space, y: Space, r: nat, p: nat, n: nat, pfn: nat)
    requires WellFormed(x) && SmallPages(x, r) && Mapped(x, y, r, p, p + n, pfn * PAGE_SIZE) && BootFits(p, n, pfn)
    ensures WellFormed(y) && SmallPages(y, r) && y.roots == x.roots[r := y.roots[r]]
    ensures forall i :: USER_SLOTS <= i < L1_ENTRIES ==> y.roots[r][i] == x.roots[r][i]
    ensures forall i, j :: 0 <= i < USER_SLOTS && 0 <= j < L2_ENTRIES ==>
              Lookup(y, r, i, j) == if p <= L2_ENTRIES * i + j < p + n then Some(pfn + (L2_ENTRIES * i + j - p)) else Lookup(x, r, i, j)
  {
    MappedRange(x, y, r, p, p + n, pfn * PAGE_SIZE, None);
    BootRoot(x, y, r, p, n, pfn);
    BootFlat(x, y, r, p, n, pfn);
  }

  lemma BootRoot(x: Space, y: Space, r: nat, p: nat, n: nat, pfn: nat)
    requires Shaped(x) && SmallPages(x, r) && Mapped(x, y, r, p, p + n, pfn * PAGE_SIZE) && BootFits(p, n, pfn)
    ensures SmallPages(y, r) && forall i :: USER_SLOTS <= i < L1_ENTRIES ==> y.roots[r][i] == x.roots[r][i]
  {
    assert SlotMapped(x, y, r, 0, p, p + n, pfn * PAGE_SIZE);
    forall i | 0 <= i < L1_ENTRIES
      ensures !(i < USER_SLOTS && y.roots[r][i].Section?) && (USER_SLOTS <= i ==> y.roots[r][i] == x.roots[r][i])
    {
      assert SlotMapped(x, y, r, i, p, p + n, pfn * PAGE_SIZE);
    }
  }

  lemma BootFlat(x: Space, y: Space, r: nat, p: nat, n: nat, pfn: nat)
    requires Shaped(x) && Unshared(x) && Mapped(x, y, r, p, p + n, pfn * PAGE_SIZE)
    ensures forall i, j :: 0 <= i < USER_SLOTS && 0 <= j < L2_ENTRIES ==>
              Lookup(y, r, i, j) == if p <= L2_ENTRIES * i + j < p + n then Some(pfn + (L2_ENTRIES * i + j - p)) else Lookup(x, r, i, j)
  {
    hide Mapped, Lookup, Unshared, Shaped;
    forall i, j | 0 <= i < USER_SLOTS && 0 <= j < L2_ENTRIES
      ensures Lookup(y, r, i, j) == if p <= L2_ENTRIES * i + j < p + n then Some(pfn + (L2_ENTRIES * i + j - p)) else Lookup(x, r, i, j)
    {
      MappedFlat(x, y, r, p, p + n, pfn * PAGE_SIZE, i, j);
    }
  }

  /** What the root process maps: its stack on the frames fs, and the image. */
  ghost predicate BootMaps(y: Space, r: nat, p: nat, n: nat, pfn: nat, fs: seq<nat>) {
    forall i, j :: 0 <= i < USER_SLOTS && 0 <= j < L2_ENTRIES ==>
      var m := L2_ENTRIES * i + j;
      Lookup(y, r, i, j) ==
      if p <= m < p + n then Some(pfn + (m - p))
      else if STACK_PAGE <= m < STACK_PAGE + STACK_PAGES && m - STACK_PAGE < |fs| then Some(fs[m - STACK_PAGE]) else None
  }

  lemma BootOwns(s: Sys, q: Pcb, p: nat, n: nat, pfn: nat)
    requires BootFits(p, n, pfn) && q.parent == None && |q.pages| == STACK_PAGES
    requires ImageFrames(s.image, pfn, n) && NewFrames({}, s.image, q.pages)
    requires BootMaps(s.space, q.root, p, n, pfn, q.pages)
    ensures Owns(s, q)
  {
    forall i: nat, j: nat, f: nat | UserMaps(s.space, q.root, i, j, f) ensures f in q.pages || f in s.image {
      assert L2_ENTRIES * i + j < USER_SLOTS * L2_ENTRIES;
    }
    forall i: nat, j: nat, k: nat, m: nat, f: nat | UserMaps(s.space, q.root, i, j, f) && UserMaps(s.space, q.root, k, m, f)
      ensures i == k && j == m
    {
      BootInjective(s, q, p, n, pfn, i, j, k, m, f);
    }
    var i, j := STACK_PAGE / L2_ENTRIES, STACK_PAGE % L2_ENTRIES;
    assert UserMaps(s.space, q.root, i, j, q.pages[0]);
  }

  lemma BootInjective(s: Sys, q: Pcb, p: nat, n: nat, pfn: nat, i: nat, j: nat, k: nat, m: nat, f: nat)
    requires BootFits(p, n, pfn) && |q.pages| == STACK_PAGES
    requires ImageFrames(s.image, pfn, n) && NewFrames({}, s.image, q.pages)
    requires BootMaps(s.space, q.root, p, n, pfn, q.pages)
    requires UserMaps(s.space, q.root, i, j, f) && UserMaps(s.space, q.root, k, m, f)
    ensures i == k && j == m
  {
    var x, y := L2_ENTRIES * i + j, L2_ENTRIES * k + m;
    assert f in q.pages ==> f !in s.image;
    assert x == y;
  }

  lemma BootFrames(a: Sys, c: Sys, s: Sys)
    requires a.refcount == map[] && |s.procs| == 1 && FramesTaken(a, c, a.refcount.Keys, s.procs[0].pages)
    requires s.refcount == c.refcount && s.ram == c.ram && s.image == c.image
    ensures FrameInv(s) && NewFrames({}, s.image, s.procs[0].pages) && s.image == a.image
  {
    var fs := s.procs[0].pages;
    assert s.procs[..0] == [];
    forall f: nat ensures AllPages(s.procs)[f] == if f in s.refcount then s.refcount[f] else 0 {
      DistinctCount(fs, f);
    }
  }

  lemma BootDone(a: Sys, b: Sys, c: Sys, s: Sys, p: nat, n: nat, pfn: nat)
    requires Booted(a, p, n, pfn) && |s.procs| == 1
    requires var q := s.procs[0];
             && q == Pcb(1, None, READY, q.root, q.pages, STACK_PAGES, ARGS_PAGE * PAGE_SIZE, 0, 0, 0, true)
             && q.root !in a.space.roots && q.root != 0
             && b.space == FreshRoot(a.space, q.root, a.sysRoot)
             && Allocated(b, c, q.root, STACK_PAGE, STACK_PAGES, [], q.pages)
             && WellFormed(c.space) && SmallPages(c.space, q.root)
             && Mapped(c.space, s.space, q.root, p, p + n, pfn * PAGE_SIZE)
    requires b.refcount == a.refcount && b.image == a.image && b.sysRoot == a.sysRoot
    requires s.refcount == c.refcount && s.ram == c.ram && s.image == c.image && s.sysRoot == a.sysRoot && s.pidCurrent == 2
    ensures Inv(s) && |s.procs[0].pages| == STACK_PAGES && BootMaps(s.space, s.procs[0].root, p, n, pfn, s.procs[0].pages)
  {
    hide Mapped, FrameInv, Owns, RamOk, WellFormed, FramesTaken, Region, SmallPages, BootMaps, SpaceInv;
    var q := s.procs[0];
    BootSpace(c.space, s.space, q.root, p, n, pfn);
    assert q.pages[0..] == q.pages;
    BootFrames(b, c, s);
    BootView(a, b, c, s, p, n, pfn);
    BootOwns(s, q, p, n, pfn);
    BootArea(a, b, c, s);
  }

  lemma BootView(a: Sys, b: Sys, c: Sys, s: Sys, p: nat, n: nat, pfn: nat)
    requires |s.procs| == 1 && BootFits(p, n, pfn) && WellFormed(a.space) && a.sysRoot in a.space.roots
    requires var q := s.procs[0];
             && q.root !in a.space.roots && b.space == FreshRoot(a.space, q.root, a.sysRoot)
             && Region(b.space, c.space, q.root, STACK_PAGE, STACK_PAGES, q.pages, 0)
             && forall i, j :: 0 <= i < USER_SLOTS && 0 <= j < L2_ENTRIES ==>
                  Lookup(s.space, q.root, i, j) ==
                  if p <= L2_ENTRIES * i + j < p + n then Some(pfn + (L2_ENTRIES * i + j - p)) else Lookup(c.space, q.root, i, j)
    ensures BootMaps(s.space, s.procs[0].root, p, n, pfn, s.procs[0].pages)
  {
    var r := s.procs[0].root;
    forall i, j | 0 <= i < USER_SLOTS && 0 <= j < L2_ENTRIES ensures Lookup(b.space, r, i, j) == None {
    }
  }

  lemma BootArea(a: Sys, b: Sys, c: Sys, s: Sys)
    requires 0 <= STACK_PAGE && |s.procs| == 1 && s.procs[0].mainThread && a.sysRoot != 0 && s.sysRoot == a.sysRoot
    requires WellFormed(a.space) && a.space.roots.Keys == {a.sysRoot} && a.space.roots[a.sysRoot][FIX_SLOT] == NoL1
    requires var q := s.procs[0];
             && q.root !in a.space.roots && q.root != 0 && b.space == FreshRoot(a.space, q.root, a.sysRoot)
             && Region(b.space, c.space, q.root, STACK_PAGE, STACK_PAGES, q.pages, 0)
             && q.root in s.space.roots && s.space.roots == c.space.roots[q.root := s.space.roots[q.root]]
             && |s.space.roots[q.root]| == L1_ENTRIES
             && (forall i :: USER_SLOTS <= i < L1_ENTRIES ==> s.space.roots[q.root][i] == c.space.roots[q.root][i])
             && WellFormed(s.space) && SmallPages(s.space, q.root)
    ensures SpaceInv(s)
  {
    var r := s.procs[0].root;
    assert s.space.roots[s.sysRoot] == a.space.roots[a.sysRoot];
    forall q, i | q in s.space.roots && USER_SLOTS <= i < L1_ENTRIES ensures s.space.roots[q][i] == s.space.roots[s.sysRoot][i] {
      assert q == r || q == s.sysRoot;
    }
  }
}
