/** allocate_page and release_proc_pages: frames given to a process and taken back. */
module KernelAlloc {
  import opened Wrappers
  import opened PageTables
  import opened Mapping
  import opened Mmu
  import opened KernelState
  import opened KernelSteps
  import opened KernelFork
  import opened KernelExec

  /** Only user slots of root r change; every other root translates as before. */
  ghost predicate Elsewhere(x: Space, y: Space, r: nat) {
    && r in x.roots && r in y.roots && y.roots == x.roots[r := y.roots[r]] && SmallPages(y, r)
    && (forall q :: q in x.roots && q != r ==> SameView(x, y, q))
    && (forall i :: USER_SLOTS <= i < L1_ENTRIES && i < |x.roots[r]| ==> y.roots[r][i] == x.roots[r][i])
  }

  /** Pages p0..p0 + n of root r are mapped to the frames of fs from position base on. */
  ghost predicate Region(x: Space, y: Space, r: nat, p0: nat, n: nat, fs: seq<nat>, base: nat) {
    && Elsewhere(x, y, r) && base + n <= |fs|
    && (forall i, j :: 0 <= i < USER_SLOTS && 0 <= j < L2_ENTRIES ==>
          Lookup(y, r, i, j) ==
          if p0 <= L2_ENTRIES * i + j < p0 + n then Some(fs[base + (L2_ENTRIES * i + j - p0)]) else Lookup(x, r, i, j))
  }

  lemma ElsewhereTwice(x: Space, y: Space, z: Space, r: nat)
    requires Elsewhere(x, y, r) && Elsewhere(y, z, r) && r in x.roots && |x.roots[r]| == L1_ENTRIES
    ensures Elsewhere(x, z, r)
  {
    forall q, i, j | q in x.roots && q != r && 0 <= i < L1_ENTRIES && 0 <= j < L2_ENTRIES ensures Lookup(z, q, i, j) == Lookup(x, q, i, j) {
      assert q in y.roots;
      assert Lookup(y, q, i, j) == Lookup(x, q, i, j);
    }
  }

  /** create_mapping of one user page. */
  lemma PageMaps(x: Space, y: Space, r: nat, p: nat, g: nat, fs: seq<nat>)
    requires WellFormed(x) && SmallPages(x, r) && Mapped(x, y, r, p, p + 1, g * PAGE_SIZE) && p < USER_SLOTS * L2_ENTRIES
    requires fs != [] && fs[|fs| - 1] == g
    ensures WellFormed(y) && Region(x, y, r, p, 1, fs, |fs| - 1)
  {
    hide Mapped, Unshared, NoLeak;
    MappedPage(x, y, r, p, g * PAGE_SIZE, None);
    PageMapsRoot(x, y, r, p, g);
    forall q, i, j | q in x.roots && q != r && 0 <= i < L1_ENTRIES && 0 <= j < L2_ENTRIES ensures Lookup(y, q, i, j) == Lookup(x, q, i, j) {
      PageMapsElsewhere(x, y, r, p, g, q, i, j);
    }
    forall i, j | 0 <= i < USER_SLOTS && 0 <= j < L2_ENTRIES
      ensures Lookup(y, r, i, j) == if p == L2_ENTRIES * i + j then Some(g) else Lookup(x, r, i, j)
    {
      MappedFlat(x, y, r, p, p + 1, g * PAGE_SIZE, i, j);
    }
  }

  lemma PageMapsElsewhere(x: Space, y: Space, r: nat, p: nat, g: nat, q: nat, i: nat, j: nat)
    requires Shaped(x) && Unshared(x) && Mapped(x, y, r, p, p + 1, g * PAGE_SIZE) && p < USER_SLOTS * L2_ENTRIES
    requires q in x.roots && q != r && i < L1_ENTRIES && j < L2_ENTRIES
    ensures Lookup(y, q, i, j) == Lookup(x, q, i, j)
  {
    MappedElsewhere(x, y, r, p, p + 1, g * PAGE_SIZE, q, i, j);
    assert USER_SLOTS <= i ==> Outside(i, p, p + 1);
  }

  lemma PageMapsRoot(x: Space, y: Space, r: nat, p: nat, g: nat)
    requires Shaped(x) && SmallPages(x, r) && Mapped(x, y, r, p, p + 1, g * PAGE_SIZE) && p < USER_SLOTS * L2_ENTRIES
    ensures SmallPages(y, r) && r in y.roots && y.roots == x.roots[r := y.roots[r]]
    ensures forall i :: USER_SLOTS <= i < L1_ENTRIES ==> y.roots[r][i] == x.roots[r][i]
  {
    assert SlotMapped(x, y, r, 0, p, p + 1, g * PAGE_SIZE);
    forall i | 0 <= i < L1_ENTRIES
      ensures (i < USER_SLOTS ==> !y.roots[r][i].Section?) && (USER_SLOTS <= i ==> y.roots[r][i] == x.roots[r][i])
    {
      assert SlotMapped(x, y, r, i, p, p + 1, g * PAGE_SIZE);
      assert !Covered(i, p, p + 1);
    }
  }

  /** allocate_page of n pages from page p0 on: fs0 grows to fs. */
  ghost predicate Allocated(a: Sys, b: Sys, r: nat, p0: nat, n: nat, fs0: seq<nat>, fs: seq<nat>) {
    && |fs| == |fs0| + n && fs[..|fs0|] == fs0
    && FramesTaken(a, b, a.refcount.Keys, fs[|fs0|..])
    && Region(a.space, b.space, r, p0, n, fs, |fs0|)
  }

  ghost predicate RamOk(s: Sys) {
    s.ram.Keys == s.refcount.Keys + s.image && forall f :: f in s.ram ==> |s.ram[f]| == PAGE_SIZE
  }

  lemma AllocatedNone(a: Sys, r: nat, p0: nat, fs: seq<nat>)
    requires RamOk(a) && SmallPages(a.space, r)
    ensures Allocated(a, a, r, p0, 0, fs, fs)
  {
    assert fs[|fs|..] == [];
  }

  /** One round of allocate_page. */
  lemma AllocatedOneMore(a: Sys, b: Sys, c: Sys, r: nat, p0: nat, n: nat, fs0: seq<nat>, fs: seq<nat>, g: nat)
    requires Allocated(a, b, r, p0, n, fs0, fs) && SmallPages(a.space, r)
    requires g !in b.refcount && g !in b.image && c.refcount == b.refcount[g := 1] && c.image == b.image
    requires g in c.ram && |c.ram[g]| == PAGE_SIZE && c.ram == b.ram[g := c.ram[g]]
    requires Region(b.space, c.space, r, p0 + n, 1, fs + [g], |fs|)
    ensures Allocated(a, c, r, p0, n + 1, fs0, fs + [g])
  {
    assert (fs + [g])[|fs0|..] == fs[|fs0|..] + [g];
    FramesOneMore(a, b, c, a.refcount.Keys, fs[|fs0|..], g);
    ElsewhereTwice(a.space, b.space, c.space, r);
  }

  lemma FramesTwice(a: Sys, b: Sys, c: Sys, keep: set<nat>, fs: seq<nat>, gs: seq<nat>)
    requires FramesTaken(a, b, keep, fs) && FramesTaken(b, c, b.refcount.Keys, gs)
    ensures FramesTaken(a, c, keep, fs + gs)
  {
    assert forall f :: f in keep || f in a.image ==> f in b.ram;
    forall x, y | 0 <= x < y < |fs + gs| ensures (fs + gs)[x] != (fs + gs)[y] {
      assert x < |fs| ==> (fs + gs)[x] in fs;
      assert y >= |fs| ==> (fs + gs)[y] in gs;
    }
    assert forall f :: f in fs + gs <==> f in fs || f in gs;
  }

  /** A region stays what it is when the list grows. */
  lemma RegionPrefix(x: Space, y: Space, r: nat, p0: nat, n: nat, fs: seq<nat>, base: nat, gs: seq<nat>)
    requires Region(x, y, r, p0, n, fs, base) && |fs| <= |gs| && gs[..|fs|] == fs
    ensures Region(x, y, r, p0, n, gs, base)
  {
    assert forall k :: 0 <= k < |fs| ==> gs[k] == gs[..|fs|][k];
  }

  // release_proc_pages

  /** Each listed occurrence of a frame lowers its count by one; at zero the frame is free. */
  ghost predicate Dropped(a: Sys, b: Sys, fs: seq<nat>) {
    && (forall f: nat :: f in b.refcount <==> f in a.refcount && multiset(fs)[f] < a.refcount[f])
    && (forall f :: f in b.refcount ==> b.refcount[f] == a.refcount[f] - multiset(fs)[f])
    && (forall f :: f in b.ram <==> f in a.ram && !(f in a.refcount && f !in b.refcount))
    && (forall f :: f in b.ram ==> b.ram[f] == a.ram[f])
  }

  /** Dropped in terms of the counts. */
  lemma DroppedIs(a: Sys, b: Sys, fs: seq<nat>)
    requires Dropped(a, b, fs)
    ensures forall f: nat :: f in b.refcount <==> f in a.refcount && multiset(fs)[f] < a.refcount[f]
    ensures forall f :: f in b.refcount ==> b.refcount[f] == a.refcount[f] - multiset(fs)[f]
  {
  }

  lemma DroppedNone(a: Sys)
    requires forall f :: f in a.refcount ==> 0 < a.refcount[f]
    ensures Dropped(a, a, [])
  {
  }

  lemma DroppedProcs(a: Sys, b: Sys, c: Sys, fs: seq<nat>)
    requires Dropped(a, b, fs) && c.refcount == b.refcount && c.ram == b.ram
    ensures Dropped(a, c, fs)
  {
  }

  /** With every count one, exactly the listed frames go. */
  lemma DroppedFreed(a: Sys, b: Sys, fs: seq<nat>)
    requires Dropped(a, b, fs) && (forall f :: f in a.refcount ==> a.refcount[f] == 1)
    requires forall f :: f in fs ==> f in a.refcount && f in a.ram
    ensures FramesFreed(a, b, fs)
  {
    forall f: nat ensures f in fs <==> multiset(fs)[f] >= 1 {
    }
    assert b.ram == a.ram - (set f | f in fs);
  }

  /** One round of release_proc_pages. */
  lemma DroppedOneMore(a: Sys, b: Sys, c: Sys, fs: seq<nat>, k: nat)
    requires k < |fs| && Dropped(a, b, fs[..k])
    requires fs[k] in b.refcount
    requires var n := b.refcount[fs[k]] - 1;
             if n == 0 then c.refcount == b.refcount - {fs[k]} && c.ram == b.ram - {fs[k]}
             else c.refcount == b.refcount[fs[k] := n] && c.ram == b.ram
    ensures Dropped(a, c, fs[..k + 1])
  {
    assert fs[..k + 1] == fs[..k] + [fs[k]];
  }

  // setup_proc_image_replace

  /** Four regions, on the frames of one list in order, are what Position says. */
  lemma RegionsGivePosition(y0: Space, y1: Space, y2: Space, y3: Space, y4: Space, r: nat, entry: nat, segPages: nat, fs: seq<nat>, i: nat, j: nat)
    requires Fits(entry, segPages) && |fs| == ImagePages(segPages) && i < USER_SLOTS && j < L2_ENTRIES
    requires Lookup(y0, r, i, j) == None
    requires Region(y0, y1, r, STACK_PAGE, STACK_PAGES, fs, 0)
    requires Region(y1, y2, r, entry / PAGE_SIZE, segPages, fs, STACK_PAGES)
    requires Region(y2, y3, r, HeapPage(segPages), HEAP_PAGES, fs, STACK_PAGES + segPages)
    requires Region(y3, y4, r, ARGS_PAGE, 1, fs, STACK_PAGES + segPages + HEAP_PAGES)
    ensures Lookup(y4, r, i, j) ==
            match Position(entry, segPages, L2_ENTRIES * i + j)
            case None => None
            case Some(x) => if x < |fs| then Some(fs[x]) else None
  {
  }

  /** After reset_root_pgtable and release_proc_pages of process k. */
  ghost predicate Cleared(a: Sys, m: Sys, k: nat) {
    && k < |a.procs| && a.procs[k].root in a.space.roots && |a.space.roots[a.procs[k].root]| == L1_ENTRIES
    && m.space == Reset(a.space, a.procs[k].root, USER_SLOTS, false)
    && FramesFreed(a, m, a.procs[k].pages) && m.image == a.image && m.sysRoot == a.sysRoot
  }

  lemma ClearReady(a: Sys, k: nat)
    requires Inv(a) && k < |a.procs| && a.procs[k].state != ZOMBIE
    ensures Shaped(a.space) && Unshared(a.space) && a.procs[k].root in a.space.roots && |a.space.roots[a.procs[k].root]| == L1_ENTRIES
    ensures forall f: nat :: multiset(a.procs[k].pages)[f] <= if f in a.refcount then a.refcount[f] else 0
    ensures forall f :: f in a.refcount ==> 0 < a.refcount[f]
  {
    assert SmallPages(a.space, a.procs[k].root);
    forall f: nat ensures multiset(a.procs[k].pages)[f] <= if f in a.refcount then a.refcount[f] else 0 {
      AllPagesHas(a.procs, k, f);
    }
  }

  /** The frames listed by process k are in use, counted once, and in RAM. */
  lemma ListedCounted(a: Sys, k: nat)
    requires FrameInv(a) && k < |a.procs|
    ensures forall f :: f in a.procs[k].pages ==> f in a.refcount && f in a.ram && f !in a.image
  {
    forall f | f in a.procs[k].pages ensures f in a.refcount {
      AllPagesHas(a.procs, k, f);
    }
  }

  lemma ClearCounted(a: Sys, k: nat)
    requires FrameInv(a)
    ensures forall f :: f in a.refcount ==> a.refcount[f] == 1
  {
  }

  lemma ClearDone(a: Sys, b: Sys, m: Sys, k: nat)
    requires Inv(a) && k < |a.procs| && a.procs[k].state != ZOMBIE && a.procs[k].root in a.space.roots
    requires |a.space.roots[a.procs[k].root]| == L1_ENTRIES
    requires b.space == Reset(a.space, a.procs[k].root, USER_SLOTS, false) && b.image == a.image && b.sysRoot == a.sysRoot
    requires Dropped(a.(space := b.space), b, a.procs[k].pages)
    requires m == b.(procs := [], pidCurrent := 0)
    ensures Cleared(a, m, k) && RamOk(m) && WellFormed(b.space) && SmallPages(b.space, a.procs[k].root) && a.procs[k].root != 0
  {
    hide Dropped, FramesFreed, ProcessInv, RootsInv, KernelArea, WellFormed, SmallPages, FrameInv, Reset;
    ClearCounted(a, k);
    ListedCounted(a, k);
    DroppedFreed(a.(space := b.space), b, a.procs[k].pages);
    FreedElsewhere(a.(space := b.space), a, b, m, a.procs[k].pages);
    ClearFrames(a, m, k);
    ClearSpace(a, m, k);
    ClearSmall(a, m, k);
  }

  lemma FreedElsewhere(a: Sys, a': Sys, b: Sys, b': Sys, fs: seq<nat>)
    requires FramesFreed(a, b, fs) && a'.refcount == a.refcount && a'.ram == a.ram && b'.refcount == b.refcount && b'.ram == b.ram
    ensures FramesFreed(a', b', fs)
  {
  }

  lemma ClearSmall(a: Sys, m: Sys, k: nat)
    requires k < |a.procs| && Elsewhere(a.space, m.space, a.procs[k].root)
    ensures SmallPages(m.space, a.procs[k].root)
  {
  }

  lemma ClearFrames(a: Sys, m: Sys, k: nat)
    requires FrameInv(a) && k < |a.procs| && FramesFreed(a, m, a.procs[k].pages) && m.image == a.image
    ensures RamOk(m) && m.refcount.Keys == Kept(a, k)
  {
    ListedCounted(a, k);
  }

  lemma ClearSpace(a: Sys, m: Sys, k: nat)
    requires SpaceInv(a) && k < |a.procs| && a.procs[k].mainThread && a.procs[k].root in a.space.roots
    requires m.space == Reset(a.space, a.procs[k].root, USER_SLOTS, false)
    ensures WellFormed(m.space) && Elsewhere(a.space, m.space, a.procs[k].root) && a.procs[k].root != 0
    ensures forall i, j :: 0 <= i < USER_SLOTS && 0 <= j < L2_ENTRIES ==> Lookup(m.space, a.procs[k].root, i, j) == None
  {
    ResetWellFormed(a.space, a.procs[k].root, false);
    assert SmallPages(a.space, a.procs[k].root);
  }

  /** The frames of the four regions were all new. */
  lemma ExecTaken(m0: Sys, m1: Sys, m2: Sys, m3: Sys, m4: Sys, fs1: seq<nat>, fs2: seq<nat>, fs3: seq<nat>, fs4: seq<nat>)
    requires |fs1| <= |fs2| <= |fs3| <= |fs4| && fs2[..|fs1|] == fs1 && fs3[..|fs2|] == fs2 && fs4[..|fs3|] == fs3
    requires FramesTaken(m0, m1, m0.refcount.Keys, fs1)
    requires FramesTaken(m1, m2, m1.refcount.Keys, fs2[|fs1|..])
    requires FramesTaken(m2, m3, m2.refcount.Keys, fs3[|fs2|..])
    requires FramesTaken(m3, m4, m3.refcount.Keys, fs4[|fs3|..])
    ensures FramesTaken(m0, m4, m0.refcount.Keys, fs4)
  {
    hide FramesTaken;
    assert fs1 + fs2[|fs1|..] == fs2 && fs2 + fs3[|fs2|..] == fs3 && fs3 + fs4[|fs3|..] == fs4;
    FramesTwice(m0, m1, m2, m0.refcount.Keys, fs1, fs2[|fs1|..]);
    FramesTwice(m0, m2, m3, m0.refcount.Keys, fs2, fs3[|fs2|..]);
    FramesTwice(m0, m3, m4, m0.refcount.Keys, fs3, fs4[|fs3|..]);
  }

  lemma TakenFromKept(a: Sys, m: Sys, b: Sys, k: nat, fs: seq<nat>)
    requires FrameInv(a) && k < |a.procs| && FramesFreed(a, m, a.procs[k].pages) && m.image == a.image
    requires FramesTaken(m, b, m.refcount.Keys, fs)
    ensures FramesTaken(a, b, Kept(a, k), fs)
  {
    ListedCounted(a, k);
    ClearFrames(a, m, k);
    forall f | f in Kept(a, k) || f in a.image ensures f in a.ram && f in m.ram && m.ram[f] == a.ram[f] {
    }
  }

  /** The four regions, with the rest of memory as it was, are the new image. */
  lemma ExecImage(x: Space, y0: Space, y1: Space, y2: Space, y3: Space, y4: Space, r: nat, entry: nat, segPages: nat, fs: seq<nat>)
    requires Fits(entry, segPages) && |fs| == ImagePages(segPages) && r in x.roots && |x.roots[r]| == L1_ENTRIES
    requires Elsewhere(x, y0, r)
    requires forall i, j :: 0 <= i < USER_SLOTS && 0 <= j < L2_ENTRIES ==> Lookup(y0, r, i, j) == None
    requires Region(y0, y1, r, STACK_PAGE, STACK_PAGES, fs, 0)
    requires Region(y1, y2, r, entry / PAGE_SIZE, segPages, fs, STACK_PAGES)
    requires Region(y2, y3, r, HeapPage(segPages), HEAP_PAGES, fs, STACK_PAGES + segPages)
    requires Region(y3, y4, r, ARGS_PAGE, 1, fs, STACK_PAGES + segPages + HEAP_PAGES)
    ensures ImageMapped(x, y4, r, entry, segPages, fs)
  {
    ExecElsewhere(x, y0, y1, y2, y3, y4, r);
    forall i, j | 0 <= i < USER_SLOTS && 0 <= j < L2_ENTRIES
      ensures Lookup(y4, r, i, j) ==
              match Position(entry, segPages, L2_ENTRIES * i + j)
              case None => None
              case Some(n) => if n < |fs| then Some(fs[n]) else None
    {
      RegionsGivePosition(y0, y1, y2, y3, y4, r, entry, segPages, fs, i, j);
    }
  }

  lemma ExecElsewhere(x: Space, y0: Space, y1: Space, y2: Space, y3: Space, y4: Space, r: nat)
    requires r in x.roots && |x.roots[r]| == L1_ENTRIES
    requires Elsewhere(x, y0, r) && Elsewhere(y0, y1, r) && Elsewhere(y1, y2, r) && Elsewhere(y2, y3, r) && Elsewhere(y3, y4, r)
    ensures Elsewhere(x, y4, r)
  {
    hide Elsewhere;
    ElsewhereTwice(x, y0, y1, r);
    ElsewhereTwice(x, y1, y2, r);
    ElsewhereTwice(x, y2, y3, r);
    ElsewhereTwice(x, y3, y4, r);
  }

  lemma ExecRegions(m0: Sys, m1: Sys, m2: Sys, m3: Sys, m4: Sys, r: nat, entry: nat, segPages: nat,
                    fs1: seq<nat>, fs2: seq<nat>, fs3: seq<nat>, fs4: seq<nat>)
    requires Fits(entry, segPages)
    requires Allocated(m0, m1, r, STACK_PAGE, STACK_PAGES, [], fs1)
    requires Allocated(m1, m2, r, entry / PAGE_SIZE, segPages, fs1, fs2)
    requires Allocated(m2, m3, r, HeapPage(segPages), HEAP_PAGES, fs2, fs3)
    requires Allocated(m3, m4, r, ARGS_PAGE, 1, fs3, fs4)
    ensures |fs4| == ImagePages(segPages)
    ensures Region(m0.space, m1.space, r, STACK_PAGE, STACK_PAGES, fs4, 0)
    ensures Region(m1.space, m2.space, r, entry / PAGE_SIZE, segPages, fs4, STACK_PAGES)
    ensures Region(m2.space, m3.space, r, HeapPage(segPages), HEAP_PAGES, fs4, STACK_PAGES + segPages)
    ensures Region(m3.space, m4.space, r, ARGS_PAGE, 1, fs4, STACK_PAGES + segPages + HEAP_PAGES)
    ensures FramesTaken(m0, m4, m0.refcount.Keys, fs4)
  {
    hide Region, FramesTaken;
    assert fs1[0..] == fs1;
    assert fs4[..|fs2|] == fs4[..|fs3|][..|fs2|] && fs4[..|fs1|] == fs4[..|fs2|][..|fs1|];
    RegionPrefix(m0.space, m1.space, r, STACK_PAGE, STACK_PAGES, fs1, 0, fs4);
    RegionPrefix(m1.space, m2.space, r, entry / PAGE_SIZE, segPages, fs2, STACK_PAGES, fs4);
    RegionPrefix(m2.space, m3.space, r, HeapPage(segPages), HEAP_PAGES, fs3, STACK_PAGES + segPages, fs4);
    ExecTaken(m0, m1, m2, m3, m4, fs1, fs2, fs3, fs4);
  }

  lemma ExecFinish(a: Sys, m0: Sys, m1: Sys, m2: Sys, m3: Sys, b: Sys, k: nat, entry: nat, segPages: nat,
                   fs1: seq<nat>, fs2: seq<nat>, fs3: seq<nat>)
    requires Inv(a) && k < |a.procs| && a.procs[k].state != ZOMBIE && Fits(entry, segPages) && |b.procs| == |a.procs|
    requires Cleared(a, m0, k)
    requires Allocated(m0, m1, a.procs[k].root, STACK_PAGE, STACK_PAGES, [], fs1)
    requires Allocated(m1, m2, a.procs[k].root, entry / PAGE_SIZE, segPages, fs1, fs2)
    requires Allocated(m2, m3, a.procs[k].root, HeapPage(segPages), HEAP_PAGES, fs2, fs3)
    requires Allocated(m3, b.(procs := [], pidCurrent := 0), a.procs[k].root, ARGS_PAGE, 1, fs3, b.procs[k].pages)
    requires b.procs == a.procs[k := a.procs[k].(pages := b.procs[k].pages, pageCount := ImagePages(segPages), stackTop := ARGS_PAGE * PAGE_SIZE,
                                  heapBase := HeapPage(segPages) * PAGE_SIZE, heapPointer := HeapPage(segPages) * PAGE_SIZE)]
    requires b.pidCurrent == a.pidCurrent && b.sysRoot == a.sysRoot
    ensures ExecDone(a, b, k, entry, segPages)
  {
    hide Allocated, FramesFreed, FramesTaken, ImageMapped, Region, Elsewhere, WellFormed, FrameInv, ProcessInv;
    var m4 := b.(procs := [], pidCurrent := 0);
    var r, fs := a.procs[k].root, b.procs[k].pages;
    ExecRegions(m0, m1, m2, m3, m4, r, entry, segPages, fs1, fs2, fs3, fs);
    ClearSpace(a, m0, k);
    ExecImage(a.space, m0.space, m1.space, m2.space, m3.space, m4.space, r, entry, segPages, fs);
    TakenFromKept(a, m0, m4, k, fs);
    TakenSame(a, m4, b, Kept(a, k), fs);
  }

  lemma TakenSame(a: Sys, m: Sys, b: Sys, keep: set<nat>, fs: seq<nat>)
    requires FramesTaken(a, m, keep, fs) && m.refcount == b.refcount && m.ram == b.ram && m.image == b.image
    ensures FramesTaken(a, b, keep, fs)
  {
  }
}
