/** The system calls of kernel/process.c, on the kernel's own state. */
module Kernel {
  import opened Wrappers
  import Args = ArgsPage
  import opened PageTables
  import opened Mapping
  import opened Releasing
  import opened Mmu
  import opened KernelState
  import opened KernelSteps
  import opened KernelFork
  import opened KernelExec
  import opened Duplicate
  import opened KernelCopy
  import opened KernelAlloc
  import opened KernelBoot

  const FIXMAP_MAPPING: nat := FIX_PAGE * PAGE_SIZE

  class Kernel {
    const mmu: Tables
    const image: set<nat>
    var refcount: map<nat, nat>
    var ram: map<nat, seq<byte>>
    var procs: seq<Pcb>
    var pidCurrent: nat

    ghost function View(): Sys
      reads this, mmu
    {
      Sys(mmu.View(), refcount, ram, procs, pidCurrent, mmu.sysRoot, image)
    }

    /** The kernel at boot: no process yet, and the root image in memory. */
    constructor (mmu: Tables, image: map<nat, seq<byte>>)
      ensures this.mmu == mmu && this.image == image.Keys && ram == image
      ensures refcount == map[] && procs == [] && pidCurrent == 1
    {
      this.mmu, this.image, ram := mmu, image.Keys, image;
      refcount, procs, pidCurrent := map[], [], 1;
    }

    /** get_free_page: a frame that is not in use, with whatever bytes it holds. */
    method GetFreePage() returns (page: nat)
      modifies this`refcount, this`ram
      ensures page !in old(refcount) && page !in image
      ensures refcount == old(refcount)[page := 0]
      ensures page in ram && |ram[page]| == PAGE_SIZE && ram == old(ram)[page := ram[page]]
    {
      SomeFresh(refcount.Keys + image);
      page :| page !in refcount.Keys + image;
      refcount := refcount[page := 0];
      ram := ram[page := seq(PAGE_SIZE, _ => 0)];
    }

    /** add_page_to_proc */
    method AddPageToProc(k: nat, page: nat)
      requires k < |procs| && page in refcount
      modifies this`refcount, this`procs
      ensures refcount == old(refcount)[page := old(refcount)[page] + 1]
      ensures procs == old(procs)[k := old(procs)[k].(pages := old(procs)[k].pages + [page])]
    {
      refcount := refcount[page := refcount[page] + 1];
      procs := procs[k := procs[k].(pages := procs[k].pages + [page])];
    }

    /** get_free_page and add_page_to_proc: a new frame for process k. */
    method GrantPage(k: nat) returns (page: nat)
      requires k < |procs|
      modifies this`refcount, this`ram, this`procs
      ensures page !in old(refcount) && page !in image && refcount == old(refcount)[page := 1]
      ensures procs == old(procs)[k := old(procs)[k].(pages := old(procs)[k].pages + [page])]
      ensures page in ram && |ram[page]| == PAGE_SIZE && ram == old(ram)[page := ram[page]]
    {
      page := GetFreePage();
      AddPageToProc(k, page);
    }

    /** memcpy of a page, both addresses translated through root r. */
    method CopyPage(r: nat, dstSlot: nat, dstEntry: nat, srcSlot: nat, srcEntry: nat)
      requires var s := mmu.View();
               var f, g := Lookup(s, r, srcSlot, srcEntry), Lookup(s, r, dstSlot, dstEntry);
               f.Some? && g.Some? && f.value in ram
      modifies this`ram
      ensures var s := mmu.View();
              var f, g := Lookup(s, r, srcSlot, srcEntry), Lookup(s, r, dstSlot, dstEntry);
              ram == old(ram)[g.value := old(ram)[f.value]]
    {
      var s := Space(mmu.roots, mmu.tables);
      var f, g := Lookup(s, r, srcSlot, srcEntry), Lookup(s, r, dstSlot, dstEntry);
      ram := ram[g.value := ram[f.value]];
    }

    /** Map the frame at FIXMAP_MAPPING in the parent's root. */
    method MapFixmap(ghost a: Space, pr: nat, ghost cr: nat, page: nat, ghost hole: Option<nat>)
      requires Copying(a, mmu.View(), pr, cr, mmu.sysRoot, hole) && pr != NULL
      modifies mmu
      ensures Copying(a, mmu.View(), pr, cr, mmu.sysRoot, hole)
      ensures SameUser(old(mmu.View()), mmu.View(), pr) && SameUser(old(mmu.View()), mmu.View(), cr)
      ensures cr in mmu.roots && cr in old(mmu.roots) && mmu.roots[cr] == old(mmu.roots)[cr]
      ensures pr in mmu.roots && |mmu.roots[pr]| == L1_ENTRIES && mmu.roots[pr][FIX_SLOT].Table?
      ensures Lookup(mmu.View(), pr, FIX_SLOT, FIX_ENTRY) == Some(page)
    {
      hide Unshared, NoLeak, DenseBut, Mapped;
      ghost var x := mmu.View();
      assert FirstPage(FIXMAP_MAPPING) == FIX_PAGE && EndPage(FIXMAP_MAPPING, PAGE_SIZE) == FIX_END;
      assert Mappable(x, pr, FIX_PAGE, FIX_END, page * PAGE_SIZE) by { FixMappable(a, x, pr, cr, page * PAGE_SIZE, hole); }
      mmu.CreateMapping(pr, FIXMAP_MAPPING, page * PAGE_SIZE, PAGE_SIZE);
      FixMapped(a, x, mmu.View(), pr, cr, mmu.sysRoot, page * PAGE_SIZE, hole);
    }

    lemma FixMappable(a: Space, x: Space, pr: nat, cr: nat, phys: nat, hole: Option<nat>)
      requires Copying(a, x, pr, cr, mmu.sysRoot, hole)
      ensures Mappable(x, pr, FIX_PAGE, FIX_END, phys)
    {
      forall i | 0 <= i < L1_ENTRIES && i != FIX_SLOT ensures Outside(i, FIX_PAGE, FIX_END) {
      }
    }

    /** Write the child's entry, and the tables around it stay sound. */
    method WriteChild(ghost a: Space, ghost pr: nat, cr: nat, i: nat, j: nat, page: nat, ghost hole: Option<nat>)
      requires Copying(a, mmu.View(), pr, cr, mmu.sysRoot, hole) && i < USER_SLOTS && j < L2_ENTRIES
      requires mmu.roots[cr][i].Table? && mmu.roots[cr][i].addr !in a.tables
      requires hole.Some? ==> hole == Some(mmu.roots[cr][i].addr)
      modifies mmu`tables
      ensures Copying(a, mmu.View(), pr, cr, mmu.sysRoot, None)
      ensures SameUser(old(mmu.View()), mmu.View(), pr)
      ensures forall m, n :: 0 <= m < USER_SLOTS && 0 <= n < L2_ENTRIES ==>
                Lookup(mmu.View(), cr, m, n) == if m == i && n == j then Some(page) else Lookup(old(mmu.View()), cr, m, n)
      ensures Lookup(mmu.View(), pr, FIX_SLOT, FIX_ENTRY) == Lookup(old(mmu.View()), pr, FIX_SLOT, FIX_ENTRY)
    {
      ghost var x := mmu.View();
      PageWritten(a, x, pr, cr, mmu.sysRoot, hole, i, j, page);
      mmu.WriteL2(cr, i, j, page);
      WrittenFix(a, x, pr, cr, i, j, page, hole);
    }

    lemma WrittenFix(a: Space, x: Space, pr: nat, cr: nat, i: nat, j: nat, page: nat, hole: Option<nat>)
      requires Copying(a, x, pr, cr, mmu.sysRoot, hole) && i < USER_SLOTS && j < L2_ENTRIES && x.roots[cr][i].Table?
      ensures Lookup(WithPage(x, x.roots[cr][i].addr, j, page), pr, FIX_SLOT, FIX_ENTRY) == Lookup(x, pr, FIX_SLOT, FIX_ENTRY)
    {
      PageWrittenAlone(x, cr, i);
    }

    /** Lines 493 to 501 of duplicate_user_space: fixmap, entry of the child, copy. */
    method CopyToChild(ghost a: Space, pr: nat, cr: nat, i: nat, j: nat, page: nat, ghost f: nat, ghost hole: Option<nat>)
      requires Copying(a, mmu.View(), pr, cr, mmu.sysRoot, hole) && pr != NULL && i < USER_SLOTS && j < L2_ENTRIES
      requires mmu.roots[cr][i].Table? && mmu.roots[cr][i].addr !in a.tables
      requires hole.Some? ==> hole == Some(mmu.roots[cr][i].addr)
      requires Lookup(mmu.View(), pr, i, j) == Some(f) && f in ram
      modifies mmu, this`ram
      ensures Copying(a, mmu.View(), pr, cr, mmu.sysRoot, None)
      ensures pr in mmu.roots && |mmu.roots[pr]| == L1_ENTRIES && mmu.roots[pr][FIX_SLOT].Table?
      ensures forall m, n :: 0 <= m < USER_SLOTS && 0 <= n < L2_ENTRIES ==>
                Lookup(mmu.View(), cr, m, n) == if m == i && n == j then Some(page) else Lookup(old(mmu.View()), cr, m, n)
      ensures cr in mmu.roots && cr in old(mmu.roots) && mmu.roots[cr] == old(mmu.roots)[cr]
      ensures ram == old(ram)[page := old(ram)[f]]
    {
      hide Copying;
      CopyingRoots(a, pr, cr, hole);
      MapFixmap(a, pr, cr, page, hole);
      WriteChild(a, pr, cr, i, j, page, hole);
      CopyPage(pr, FIX_SLOT, FIX_ENTRY, i, j);
    }

    lemma CopyingRoots(a: Space, pr: nat, cr: nat, hole: Option<nat>)
      requires Copying(a, mmu.View(), pr, cr, mmu.sysRoot, hole)
      ensures cr in mmu.roots && |mmu.roots[cr]| == L1_ENTRIES
    {
    }

    /** The body of duplicate_user_space's inner loop, for an entry that is set. */
    method DuplicatePage(ghost a: Space, child: nat, pr: nat, i: nat, j: nat,
                         ghost f: nat, ghost t: nat, ghost hole: Option<nat>)
      returns (ghost page: nat)
      requires child < |procs| && pr != NULL && i < USER_SLOTS && j < L2_ENTRIES
      requires Copying(a, mmu.View(), pr, procs[child].root, mmu.sysRoot, hole)
      requires OwnTable(a, mmu.View(), procs[child].root, i, t) && (hole == None || hole == Some(t))
      requires Lookup(mmu.View(), pr, i, j) == Some(f) && f in ram && ram.Keys == refcount.Keys + image
      modifies this, mmu
      ensures PageCopied(old(View()), View(), child, pr, i, j, f, page) && pidCurrent == old(pidCurrent)
      ensures Copying(a, mmu.View(), pr, procs[child].root, mmu.sysRoot, None)
      ensures pr in mmu.roots && |mmu.roots[pr]| == L1_ENTRIES && mmu.roots[pr][FIX_SLOT].Table?
      ensures procs[child].root in mmu.roots && procs[child].root in old(mmu.roots)
      ensures mmu.roots[procs[child].root] == old(mmu.roots)[procs[child].root]
    {
      hide Copying;
      var cr := procs[child].root;
      ghost var before := ram;
      var frame := GrantPage(child);
      ghost var after := ram;
      OverwriteNew(before, after, frame, f);
      CopyToChild(a, pr, cr, i, j, frame, f, hole);
      assert ram == after[frame := after[f]];
      page := frame;
    }

    /** DuplicatePage advances the copy by one page. */
    method DuplicateEntry(ghost a: Sys, k: nat, child: nat, i: nat, j: nat, ghost t: nat, ghost hole: Option<nat>)
      requires CopyState(a, View(), k, L2_ENTRIES * i + j, hole) && child == |a.procs| && i < USER_SLOTS && j < L2_ENTRIES
      requires a.procs[k].root != NULL && MapsOwn(a, k)
      requires OwnTable(a.space, mmu.View(), procs[child].root, i, t) && (hole == None || hole == Some(t))
      requires Lookup(a.space, a.procs[k].root, i, j).Some?
      modifies this, mmu
      ensures CopyState(a, View(), k, L2_ENTRIES * i + j + 1, None)
      ensures procs[child].root == old(procs)[child].root && pidCurrent == old(pidCurrent)
      ensures procs[child].root in mmu.roots && mmu.roots[procs[child].root] == old(mmu.roots)[procs[child].root]
    {
      hide Copying, Progress, FramesTaken, MapsOwn;
      ghost var b := View();
      ghost var f := CopySource(a, b, k, i, j, hole);
      ghost var page := DuplicatePage(a.space, child, procs[k].root, i, j, f, t, hole);
      CopyAdvance(a, b, View(), k, i, j, f, page, hole);
    }

    /** One entry of the inner loop: copied if it is set in the parent's table. */
    method DuplicateIfSet(ghost a: Sys, k: nat, child: nat, i: nat, j: nat, ghost t: nat, ghost hole: Option<nat>)
      requires CopyState(a, View(), k, L2_ENTRIES * i + j, hole) && child == |a.procs| && i < USER_SLOTS && j < L2_ENTRIES
      requires Shaped(a.space) && a.procs[k].root != NULL && MapsOwn(a, k)
      requires a.procs[k].root in a.space.roots && a.space.roots[a.procs[k].root][i].Table?
      requires OwnTable(a.space, mmu.View(), procs[child].root, i, t) && (hole == None || hole == Some(t))
      modifies this, mmu
      ensures var isSet := a.space.tables[a.space.roots[a.procs[k].root][i].addr][j] != NoL2;
              CopyState(a, View(), k, L2_ENTRIES * i + j + 1, if isSet then None else hole)
      ensures OwnTable(a.space, mmu.View(), procs[child].root, i, t)
      ensures procs[child].root == old(procs)[child].root && pidCurrent == old(pidCurrent)
    {
      hide Copying, Progress, FramesTaken, MapsOwn;
      CopyParent(a, View(), k, L2_ENTRIES * i + j, i, hole);
      var l1pte := mmu.roots[procs[k].root][i];
      if mmu.tables[l1pte.addr][j] != NoL2 {
        DuplicateEntry(a, k, child, i, j, t, hole);
      } else {
        CopySkip(a, View(), k, L2_ENTRIES * i + j, L2_ENTRIES * i + j + 1, hole);
      }
    }

    /** Line 469: the child's table for a slot. */
    method StartSlot(ghost a: Sys, ghost k: nat, child: nat, i: nat) returns (t: nat)
      requires CopyState(a, View(), k, L2_ENTRIES * i, None) && child == |a.procs| && i < USER_SLOTS
      modifies mmu
      ensures CopyState(a, View(), k, L2_ENTRIES * i, Some(t)) && OwnTable(a.space, mmu.View(), procs[child].root, i, t)
    {
      ghost var b := View();
      t := mmu.NewL2Table(procs[child].root, i);
      CopyTable(a, b, View(), k, i, t);
    }

    /** One slot of duplicate_user_space: a table for the child, then every entry that is set. */
    method DuplicateSlot(ghost a: Sys, k: nat, child: nat, i: nat)
      requires CopyState(a, View(), k, L2_ENTRIES * i, None) && child == |a.procs| && i < USER_SLOTS
      requires Shaped(a.space) && a.procs[k].root != NULL && MapsOwn(a, k)
      requires a.procs[k].root in a.space.roots && a.space.roots[a.procs[k].root][i].Table?
      requires InUse(a.space.tables[a.space.roots[a.procs[k].root][i].addr])
      modifies this, mmu
      ensures CopyState(a, View(), k, L2_ENTRIES * i + L2_ENTRIES, None)
      ensures procs[child].root == old(procs)[child].root && pidCurrent == old(pidCurrent)
    {
      hide Copying, Progress, FramesTaken;
      ghost var entries := a.space.tables[a.space.roots[a.procs[k].root][i].addr];
      var t := StartSlot(a, k, child, i);
      ghost var hole := Some(t);
      var j := 0;
      while j < L2_ENTRIES
        invariant 0 <= j <= L2_ENTRIES
        invariant CopyState(a, View(), k, L2_ENTRIES * i + j, hole)
        invariant procs[child].root == old(procs)[child].root && pidCurrent == old(pidCurrent)
        invariant OwnTable(a.space, mmu.View(), procs[child].root, i, t)
        invariant hole == None || (hole == Some(t) && forall m :: 0 <= m < j ==> entries[m] == NoL2)
      {
        DuplicateIfSet(a, k, child, i, j, t, hole);
        hole := if entries[j] != NoL2 then None else hole;
        j := j + 1;
      }
    }

    /** duplicate_user_space, with the parent's root as the current one. */
    method DuplicateUserSpace(ghost a: Sys, k: nat, child: nat)
      requires SpaceInv(a) && k < |a.procs| && CopyState(a, View(), k, 0, None) && child == |a.procs|
      requires a.procs[k].root != NULL && MapsOwn(a, k) && SmallPages(a.space, a.procs[k].root)
      requires exists i, j, f :: UserMaps(a.space, a.procs[k].root, i, j, f)
      requires procs[child].root != NULL
      modifies this, mmu
      ensures CopyDone(a, View(), k) && pidCurrent == old(pidCurrent)
      ensures procs[child].root == old(procs)[child].root
    {
      hide Copying, Progress, FramesTaken, MapsOwn, CopyDone, UserMaps, Shaped, Unshared, NoLeak, InUse;
      var i := 0;
      while i < USER_SLOTS
        invariant 0 <= i <= USER_SLOTS
        invariant CopyState(a, View(), k, L2_ENTRIES * i, None) && pidCurrent == old(pidCurrent)
        invariant procs[child].root == old(procs)[child].root
      {
        CopyParent(a, View(), k, L2_ENTRIES * i, i, None);
        var l1pte := mmu.roots[procs[k].root][i];
        if l1pte != NoL1 {
          assert Dense(a.space);
          DuplicateSlot(a, k, child, i);
        } else {
          CopySkip(a, View(), k, L2_ENTRIES * i, L2_ENTRIES * (i + 1), None);
        }
        i := i + 1;
      }
      ReleaseFixmap(a, k, child);
    }

    /** The release_mapping at the end of duplicate_user_space. */
    method ReleaseFixmap(ghost a: Sys, k: nat, child: nat)
      requires SpaceInv(a) && CopyState(a, View(), k, L2_ENTRIES * USER_SLOTS, None) && child == |a.procs|
      requires a.procs[k].root != NULL && procs[child].root != NULL
      requires exists i, j, f :: UserMaps(a.space, a.procs[k].root, i, j, f)
      modifies mmu
      ensures CopyDone(a, View(), k)
    {
      hide Progress, FramesTaken, CopyDone, SpaceInv, Unshared, NoLeak, DenseBut, Released, Releasable, UserMaps;
      ghost var b := View();
      var pr := procs[k].root;
      CopyNonEmpty(a, b, k);
      FixFreeInv(a);
      FixReleasable(a.space, b.space, pr, procs[child].root, a.sysRoot);
      assert FirstPage(FIXMAP_MAPPING) == FIX_PAGE && EndPage(FIXMAP_MAPPING, PAGE_SIZE) == FIX_END;
      mmu.ReleaseMapping(pr, FIXMAP_MAPPING, PAGE_SIZE);
      FixReleased(a.space, b.space, mmu.View(), pr, procs[child].root, a.sysRoot);
      CopyFinish(a, b, View(), k);
    }

    /** new_process: a PCB with the next pid and an empty user space, last on the list. */
    method NewProcess() returns (child: nat)
      requires WellFormed(mmu.View()) && mmu.sysRoot in mmu.roots
      modifies this`procs, this`pidCurrent, mmu
      ensures child == |old(procs)| && |procs| == child + 1 && procs[..child] == old(procs)
      ensures var p := procs[child];
              && p == Pcb(old(pidCurrent), None, NEW, p.root, [], 0, 0, 0, 0, 0, false)
              && p.root !in old(mmu.roots) && p.root != NULL
              && mmu.View() == FreshRoot(old(mmu.View()), p.root, mmu.sysRoot)
      ensures pidCurrent == old(pidCurrent) + 1
    {
      child := |procs|;
      ghost var s := mmu.View();
      var root := mmu.NewRootPgtable();
      FreshIsShaped(s, mmu.View(), root);
      mmu.CopyKernelArea(root);
      procs := procs + [Pcb(pidCurrent, None, NEW, root, [], 0, 0, 0, 0, 0, false)];
      pidCurrent := pidCurrent + 1;
    }

    lemma FreshIsShaped(s: Space, y: Space, root: nat)
      requires Shaped(s) && root !in s.roots && y == s.(roots := s.roots[root := BlankRoot()])
      ensures Shaped(y)
    {
      assert forall q :: q in s.roots ==> y.roots[q] == s.roots[q];
    }

    /** duplicate_process and duplicate_user_space. */
    method ForkCopy(k: nat) returns (child: nat)
      requires Inv(View()) && k < |procs| && procs[k].state != ZOMBIE
      modifies this, mmu
      ensures CopyDone(old(View()), View(), k)
      ensures child == |old(procs)| && pidCurrent == old(pidCurrent) + 1
    {
      hide Copying, Progress, FramesTaken, MapsOwn, CopyDone, CopyState, SmallPages, UserMaps, WellFormed;
      hide KernelArea, RootsInv, FrameInv, ProcessInv, TreeInv;
      ghost var a := View();
      ForkReady(a, k);
      child := NewProcess();
      CopyStart(a, View(), k);
      DuplicateUserSpace(a, k, child);
    }

    /** do_fork, called by process k; returns the child's pid. */
    method DoFork(k: nat) returns (pid: nat)
      requires Inv(View()) && k < |procs| && procs[k].state != ZOMBIE
      modifies this, mmu
      ensures ForkDone(old(View()), View(), k) && WellFormed(mmu.View())
      ensures pid == old(pidCurrent) && |procs| == |old(procs)| + 1 && procs[..|old(procs)|] == old(procs)
      ensures var parent, child := old(procs)[k], procs[|old(procs)|];
              && child.pid == pid && child.parent == Some(parent.pid) && child.state == READY && child.mainThread
              && child.pageCount == parent.pageCount && child.stackTop == parent.stackTop
              && child.heapBase == parent.heapBase && child.heapPointer == parent.heapPointer
    {
      hide ForkDone, RootAdded, FramesTaken, UserCopied, WellFormed, Inv;
      ghost var a := View();
      var child := ForkCopy(k);
      ghost var b := View();
      assert procs[k] == procs[..child][k];
      var parent, p := procs[k], procs[child];
      procs := procs[child := Pcb(pidCurrent - 1, Some(parent.pid), READY, p.root, p.pages, parent.pageCount, parent.stackTop,
                                  parent.heapBase, parent.heapPointer, 0, true)];
      pid := pidCurrent - 1;
      ForkFinish(a, b, View(), k);
    }

    // allocate_page, release_proc_pages, exec

    /** The state but for the process list. */
    ghost function Memory(): Sys
      reads this, mmu
    {
      View().(procs := [], pidCurrent := 0)
    }

    ghost predicate AllocReady(k: nat)
      reads this, mmu
    {
      k < |procs| && WellFormed(mmu.View()) && SmallPages(mmu.View(), procs[k].root) && procs[k].root != NULL && RamOk(Memory())
    }

    /** One round of allocate_page: a frame, its mapping, its place on the list. */
    method AllocateOne(k: nat, virt: nat, ghost p: nat) returns (ghost g: nat)
      requires AllocReady(k) && virt == PAGE_SIZE * p && p < USER_SLOTS * L2_ENTRIES
      modifies this, mmu
      ensures AllocReady(k) && pidCurrent == old(pidCurrent)
      ensures g !in old(refcount) && g !in image && refcount == old(refcount)[g := 1]
      ensures g in ram && |ram[g]| == PAGE_SIZE && ram == old(ram)[g := ram[g]]
      ensures procs == old(procs)[k := old(procs)[k].(pages := old(procs)[k].pages + [g])]
      ensures Region(old(mmu.View()), mmu.View(), procs[k].root, p, 1, procs[k].pages, |old(procs)[k].pages|)
    {
      hide WellFormed, Region, SmallPages;
      var page := GetFreePage();
      MapUserPage(procs[k].root, virt, page, p, procs[k].pages + [page]);
      AddPageToProc(k, page);
      g := page;
    }

    /** create_mapping of one page of user space. */
    method MapUserPage(r: nat, virt: nat, page: nat, ghost p: nat, ghost fs: seq<nat>)
      requires WellFormed(mmu.View()) && SmallPages(mmu.View(), r) && r != NULL
      requires virt == PAGE_SIZE * p && p < USER_SLOTS * L2_ENTRIES && fs != [] && fs[|fs| - 1] == page
      modifies mmu
      ensures WellFormed(mmu.View()) && SmallPages(mmu.View(), r)
      ensures Region(old(mmu.View()), mmu.View(), r, p, 1, fs, |fs| - 1)
    {
      ghost var x := mmu.View();
      assert FirstPage(virt) == p && EndPage(virt, PAGE_SIZE) == p + 1;
      PageMappable(x, r, p, page * PAGE_SIZE);
      mmu.CreateMapping(r, virt, page * PAGE_SIZE, PAGE_SIZE);
      PageMaps(x, mmu.View(), r, p, page, fs);
    }

    lemma PageMappable(x: Space, r: nat, p: nat, phys: nat)
      requires Shaped(x) && SmallPages(x, r) && p < USER_SLOTS * L2_ENTRIES
      ensures Mappable(x, r, p, p + 1, phys)
    {
      var end := p + 1;
      forall i | USER_SLOTS <= i < L1_ENTRIES ensures Outside(i, p, end) {
      }
    }

    /** allocate_page, from a page-aligned address. */
    method AllocatePage(k: nat, virt: nat, n: nat, ghost p0: nat)
      requires AllocReady(k) && virt == PAGE_SIZE * p0 && p0 + n <= USER_SLOTS * L2_ENTRIES
      modifies this, mmu
      ensures AllocReady(k) && pidCurrent == old(pidCurrent)
      ensures Allocated(old(Memory()), Memory(), old(procs)[k].root, p0, n, old(procs)[k].pages, procs[k].pages)
      ensures procs == old(procs)[k := old(procs)[k].(pages := procs[k].pages)]
    {
      hide WellFormed, FramesTaken, Region;
      ghost var a := Memory();
      ghost var r, fs0 := procs[k].root, procs[k].pages;
      AllocatedNone(a, r, p0, fs0);
      assert procs == procs[k := procs[k].(pages := fs0)];
      var i := 0;
      while i < n
        invariant 0 <= i <= n && AllocReady(k) && pidCurrent == old(pidCurrent)
        invariant Allocated(a, Memory(), r, p0, i, fs0, procs[k].pages)
        invariant procs == old(procs)[k := old(procs)[k].(pages := procs[k].pages)]
      {
        ghost var b, fs := Memory(), procs[k].pages;
        ghost var g := AllocateOne(k, virt + i * PAGE_SIZE, p0 + i);
        AllocatedOneMore(a, b, Memory(), r, p0, i, fs0, fs, g);
        i := i + 1;
      }
    }

    /** release_proc_pages */
    method ReleaseProcPages(k: nat)
      requires k < |procs|
      requires forall f: nat :: multiset(procs[k].pages)[f] <= if f in refcount then refcount[f] else 0
      requires forall f :: f in refcount ==> 0 < refcount[f]
      modifies this`refcount, this`ram, this`procs
      ensures Dropped(old(View()), View(), old(procs)[k].pages)
      ensures forall f: nat :: f in refcount <==> f in old(refcount) && multiset(old(procs)[k].pages)[f] < old(refcount)[f]
      ensures forall f :: f in refcount ==> refcount[f] == old(refcount)[f] - multiset(old(procs)[k].pages)[f]
      ensures procs == old(procs)[k := old(procs)[k].(pages := [])]
    {
      hide Dropped;
      ghost var a := View();
      var pages := procs[k].pages;
      assert pages[..0] == [];
      DroppedNone(a);
      var i := 0;
      while i < |pages|
        invariant 0 <= i <= |pages| && Dropped(a, View(), pages[..i])
        invariant procs == old(procs)
      {
        ghost var b := View();
        StillListed(a, b, pages, i);
        var page := pages[i];
        refcount := refcount[page := refcount[page] - 1];
        if refcount[page] == 0 {
          refcount := refcount - {page};   // free_page
          ram := ram - {page};
        }
        DroppedOneMore(a, b, View(), pages, i);
        i := i + 1;
      }
      assert pages[..i] == pages;
      procs := procs[k := procs[k].(pages := [])];
      DroppedProcs(a, View().(procs := old(procs)), View(), pages);
      DroppedIs(a, View(), pages);
    }

    lemma StillListed(a: Sys, b: Sys, fs: seq<nat>, i: nat)
      requires i < |fs| && Dropped(a, b, fs[..i])
      requires forall f: nat :: multiset(fs)[f] <= if f in a.refcount then a.refcount[f] else 0
      ensures fs[i] in b.refcount && 0 < b.refcount[fs[i]]
    {
      assert fs == fs[..i] + [fs[i]] + fs[i + 1..];
      assert multiset(fs)[fs[i]] == multiset(fs[..i])[fs[i]] + 1 + multiset(fs[i + 1..])[fs[i]];
    }

    /** Lines 568 to 571 of exec: the old user space goes. */
    method ClearImage(k: nat)
      requires Inv(View()) && k < |procs| && procs[k].state != ZOMBIE
      modifies this, mmu
      ensures Cleared(old(View()), Memory(), k) && AllocReady(k) && pidCurrent == old(pidCurrent)
      ensures procs == old(procs)[k := old(procs)[k].(pages := [])]
    {
      hide Inv, Dropped, Cleared, WellFormed, FramesFreed;
      ghost var a := View();
      ClearReady(a, k);
      mmu.ResetRootPgtable(procs[k].root, false);
      ReleaseProcPages(k);
      ClearDone(a, View(), Memory(), k);
    }

    /** Lines 561 to 608 of exec: user space is cleared; stack, image, heap and argument page are allocated. */
    method ReplaceImage(k: nat, entry: nat, segPages: nat)
      requires Inv(View()) && k < |procs| && procs[k].state != ZOMBIE && Fits(entry, segPages)
      modifies this, mmu
      ensures ExecDone(old(View()), View(), k, entry, segPages) && WellFormed(mmu.View())
      ensures k < |procs| && procs[k].stackTop == ARGS_PAGE * PAGE_SIZE
      ensures procs[k].pageCount == |procs[k].pages| == STACK_PAGES + segPages + HEAP_PAGES + 1
      ensures procs[k].heapPointer == procs[k].heapBase == (STACK_PAGES + segPages + 1) * PAGE_SIZE
    {
      hide Inv, Cleared, Allocated, ExecDone, WellFormed, SmallPages, RamOk;
      ghost var a := View();
      ClearImage(k);
      ghost var m0 := Memory();
      procs := procs[k := procs[k].(pageCount := STACK_PAGES, stackTop := ARGS_PAGE * PAGE_SIZE)];
      AllocatePage(k, procs[k].stackTop - procs[k].pageCount * PAGE_SIZE, procs[k].pageCount, STACK_PAGE);
      ghost var m1, fs1 := Memory(), procs[k].pages;
      procs := procs[k := procs[k].(pageCount := procs[k].pageCount + segPages)];
      AllocatePage(k, entry, segPages, entry / PAGE_SIZE);
      ghost var m2, fs2 := Memory(), procs[k].pages;
      var heapBase := (procs[k].pageCount + 1) * PAGE_SIZE;
      procs := procs[k := procs[k].(heapBase := heapBase, heapPointer := heapBase, pageCount := procs[k].pageCount + HEAP_PAGES)];
      AllocatePage(k, heapBase, HEAP_PAGES, HeapPage(segPages));
      ghost var m3, fs3 := Memory(), procs[k].pages;
      procs := procs[k := procs[k].(pageCount := procs[k].pageCount + 1)];
      AllocatePage(k, ARGS_PAGE * PAGE_SIZE, 1, ARGS_PAGE);
      ExecFinish(a, m0, m1, m2, m3, View(), k, entry, segPages, fs1, fs2, fs3);
      ExecLayout(a, View(), k, entry, segPages, 0, 0);
    }

    /**
     * setup_proc_image_replace, with malloc's address for the scratch page: a new image, and in
     * its argument page what the caller passed. The test of line 558 never fires, so that the
     * image is replaced even if the arguments do not fit; their page then holds anything.
     */
    method DoExec(k: nat, entry: nat, segPages: nat, base: nat,
                  name: Args.Str, argc: nat, argv: Option<seq<Args.Str>>, envp: Option<seq<Args.Str>>)
      requires Inv(View()) && k < |procs| && procs[k].state != ZOMBIE && Fits(entry, segPages)
      requires 0 < base && base + PAGE_SIZE <= Args.ADDRESSES
      requires |name| < Args.PROC_NAME_LEN && argc < 0x8000_0000 && (argv.Some? ==> argc == |argv.value|)
      modifies this, mmu
      ensures ExecDone(old(View()), View(), k, entry, segPages) && WellFormed(mmu.View())
      ensures k < |procs| && procs[k].stackTop == ARGS_PAGE * PAGE_SIZE
      ensures procs[k].pageCount == |procs[k].pages| == STACK_PAGES + segPages + HEAP_PAGES + 1
      ensures procs[k].heapPointer == procs[k].heapBase == (STACK_PAGES + segPages + 1) * PAGE_SIZE
      ensures var f := ArgsFrame(mmu.View(), procs[k].root);
              && f.Some? && f.value in ram && |ram[f.value]| == PAGE_SIZE
              && (!(argc > 0 && argv == None) && Args.Needed(Args.Strings(name, Args.ArgList(argv), envp)) <= PAGE_SIZE ==>
                    Args.Decode(ram[f.value], ARGS_PAGE * PAGE_SIZE) ==
                    Some((if argc == 0 then [name] else argv.value, if envp.Some? then envp.value else [])))
    {
      hide Inv, ExecDone, WellFormed, Fits;
      hide Args.Decode, Args.Needed, Args.Strings, Args.Page;
      ghost var a := View();
      var args := Args.PreserveArgsAndEnv(name, argc, argv, envp, base);
      ReplaceImage(k, entry, segPages);
      ghost var b := View();
      ExecArgsFrame(a, b, k, entry, segPages);
      if args.Some? {
        var argsBase := ARGS_PAGE * PAGE_SIZE;
        var page := Args.PostSetupImage(args.value, base, argsBase,
                                        Args.Strings(name, Args.ArgList(argv), envp), Args.ArgCount(Args.ArgList(argv)));
        var f := ArgsFrame(Space(mmu.roots, mmu.tables), procs[k].root);
        ram := ram[f.value := page[..]];
        ExecWritten(a, b, View(), k, entry, segPages, page[..]);
        Args.RoundTrip(page[..], argsBase, name, Args.ArgList(argv), envp);
      }
    }

    // exit, wait, sbrk

    /** do_exit by process k; the root process must not exit (kernel_panic). */
    method DoExit(k: nat, status: int) returns (panic: bool)
      requires Inv(View()) && k < |procs| && procs[k].state != ZOMBIE
      modifies this
      ensures panic <==> old(procs)[k].parent == None
      ensures panic ==> View() == old(View())
      ensures !panic ==> ExitDone(old(View()), View(), k, status)
      ensures !panic ==>
                && procs == old(procs)[k := old(procs)[k].(state := ZOMBIE, exitStatus := status, pages := [])]
                && (forall f :: f in refcount <==> f in old(refcount) && f !in old(procs)[k].pages)
                && (forall f :: f in refcount ==> refcount[f] == old(refcount)[f])
    {
      hide Inv, Dropped, ExitDone;
      ghost var a := View();
      if procs[k].parent == None { return true; }
      ExitReady(a, k);
      procs := procs[k := procs[k].(state := ZOMBIE, exitStatus := status)];
      ReleaseProcPages(k);
      ExitFreed(a, View(), k, status);
      ExitIs(a, View(), k, status);
      return false;
    }

    lemma ExitReady(a: Sys, k: nat)
      requires Inv(a) && k < |a.procs|
      ensures forall f: nat :: multiset(a.procs[k].pages)[f] <= if f in a.refcount then a.refcount[f] else 0
      ensures forall f :: f in a.refcount ==> 0 < a.refcount[f]
    {
      forall f: nat ensures multiset(a.procs[k].pages)[f] <= if f in a.refcount then a.refcount[f] else 0 {
        AllPagesHas(a.procs, k, f);
      }
    }

    lemma ExitFreed(a: Sys, b: Sys, k: nat, status: int)
      requires Inv(a) && k < |a.procs| && a.procs[k].parent.Some? && a.procs[k].state != ZOMBIE
      requires Dropped(a.(procs := a.procs[k := a.procs[k].(state := ZOMBIE, exitStatus := status)]), b, a.procs[k].pages)
      requires b == a.(procs := a.procs[k := a.procs[k].(state := ZOMBIE, exitStatus := status, pages := [])], refcount := b.refcount, ram := b.ram)
      ensures ExitDone(a, b, k, status)
    {
      ListedCounted(a, k);
      DroppedFreed(a.(procs := a.procs[k := a.procs[k].(state := ZOMBIE, exitStatus := status)]), b, a.procs[k].pages);
    }

    /** find_proc_by_pid: the length of the list stands for NULL. */
    method FindProcByPid(pid: nat) returns (k: nat)
      ensures k == Index(procs, pid)
    {
      k := 0;
      while k < |procs|
        invariant 0 <= k <= |procs| && Index(procs, pid) == k + Index(procs[k..], pid)
      {
        if procs[k].pid == pid { return; }
        assert procs[k..][1..] == procs[k + 1..];
        k := k + 1;
      }
    }

    /** find_proc_zombie_to_clean: the first zombie that has not been reaped. */
    method FindProcZombieToClean() returns (k: nat)
      ensures k <= |procs|
      ensures k < |procs| ==> procs[k].state == ZOMBIE && procs[k].mainThread
      ensures forall m :: 0 <= m < k ==> !(procs[m].state == ZOMBIE && procs[m].mainThread)
    {
      k := 0;
      while k < |procs|
        invariant 0 <= k <= |procs|
        invariant forall m :: 0 <= m < k ==> !(procs[m].state == ZOMBIE && procs[m].mainThread)
      {
        if procs[k].state == ZOMBIE && procs[k].mainThread { return; }
        k := k + 1;
      }
    }

    /** find_proc_by_parent, compared with NULL. */
    method FindProcByParent(pid: nat) returns (found: bool)
      ensures found == HasChild(procs, pid)
    {
      var k := 0;
      while k < |procs|
        invariant 0 <= k <= |procs| && forall m :: 0 <= m < k ==> procs[m].parent != Some(pid)
      {
        if procs[k].parent == Some(pid) { return true; }
        k := k + 1;
      }
      return false;
    }

    /** remove_proc: the PCB with this pid, and no other, leaves the list. */
    method RemoveProc(pid: nat)
      modifies this`procs
      ensures var k := Index(old(procs), pid); procs == if k < |old(procs)| then Without(old(procs), k) else old(procs)
    {
      var k := FindProcByPid(pid);
      if k < |procs| {
        procs := procs[..k] + procs[k + 1..];
      }
    }

    /** The part of do_waitpid after thread_join, for a zombie. */
    method Reap(k: nat)
      requires Inv(View()) && k < |procs| && procs[k].state == ZOMBIE && procs[k].mainThread
      modifies this`procs, mmu
      ensures WaitDone(old(View()), View(), k)
    {
      hide Inv;
      ReapReady(View(), k);
      var child := procs[k];
      mmu.ResetRootPgtable(child.root, true);
      var found := FindProcByParent(child.pid);
      if found {
        procs := procs[k := child.(mainThread := false)];
      } else {
        RemoveProc(child.pid);
      }
    }

    lemma ReapReady(a: Sys, k: nat)
      requires Inv(a) && k < |a.procs| && a.procs[k].mainThread
      ensures PidsAscend(a.procs) && Shaped(a.space) && Unshared(a.space)
      ensures a.procs[k].root in a.space.roots && |a.space.roots[a.procs[k].root]| == L1_ENTRIES
      ensures Index(a.procs, a.procs[k].pid) == k
    {
      assert SmallPages(a.space, a.procs[k].root);
      assert PidsAscend(a.procs);
    }

    /**
     * do_waitpid without ptrace. pid is -1 for any zombie; any other is looked up as unsigned.
     * Waiting by pid on a zombie that was reaped before, and is kept for its children, is not
     * defined (its thread is gone).
     */
    method DoWaitpid(pid: int, noHang: bool) returns (r: WaitResult)
      requires Inv(View()) && -0x8000_0000 <= pid < 0x8000_0000
      requires pid != -1 ==> var k := Index(procs, Unsigned(pid)); k < |procs| && procs[k].state == ZOMBIE ==> procs[k].mainThread
      modifies this`procs, mmu
      ensures r.Reaped? ==>
                var k := Index(old(procs), r.pid);
                && WaitDone(old(View()), View(), k)
                && r.status == old(procs)[k].exitStatus % 256 * 256
                && (pid != -1 ==> r.pid == Unsigned(pid))
                && (pid == -1 ==> forall m :: 0 <= m < k ==> !(old(procs)[m].state == ZOMBIE && old(procs)[m].mainThread))
      ensures r.Reaped? ==>
                && (0 <= pid ==> r.pid == pid) && (pid < -1 ==> r.pid == pid + 0x1_0000_0000)
                && (exists q :: q in old(procs) && q.pid == r.pid && q.state == ZOMBIE && r.status == q.exitStatus % 256 * 256)
                && (forall q :: q in procs && q.pid != r.pid <==> q in old(procs) && q.pid != r.pid)
                && ((exists q :: q in procs && q.pid == r.pid) <==> (exists q :: q in old(procs) && q.parent == Some(r.pid)))
      ensures !r.Reaped? ==> View() == old(View())
      ensures r == NoChild <==> if pid == -1 then forall m :: 0 <= m < |old(procs)| ==> !(old(procs)[m].state == ZOMBIE && old(procs)[m].mainThread)
                                else !Exists(old(procs), Unsigned(pid))
      ensures 0 <= pid ==> (r == NoChild <==> forall q :: q in old(procs) ==> q.pid != pid)
      ensures pid < -1 ==> (r == NoChild <==> forall q :: q in old(procs) ==> q.pid != pid + 0x1_0000_0000)
      ensures r == NotYet || r == Blocks <==>
                pid != -1 && Exists(old(procs), Unsigned(pid)) && old(procs)[Index(old(procs), Unsigned(pid))].state != ZOMBIE
      ensures r == NotYet ==> noHang
      ensures r == Blocks ==> !noHang
    {
      hide Inv, WaitDone;
      var k;
      if pid == -1 {
        k := FindProcZombieToClean();
      } else {
        k := FindProcByPid(Unsigned(pid));
      }
      if k == |procs| { return NoChild; }
      var child := procs[k];
      if noHang && child.state != ZOMBIE { return NotYet; }
      if child.state != ZOMBIE { return Blocks; }   // thread_join
      ghost var a := View();
      ReapReady(a, k);
      Reap(k);
      WaitIs(a, View(), k);
      r := Reaped(child.pid, child.exitStatus % 256 * 256);
    }

    /** do_sbrk by process k. */
    method DoSbrk(k: nat, increment: int) returns (ret: int)
      requires k < |procs| && -0x8000_0000 <= increment < 0x8000_0000
      modifies this`procs
      ensures SbrkDone(old(View()), View(), k, increment, ret)
      ensures ret == -1 || ret % 0x1_0000_0000 == old(procs)[k].heapPointer % 0x1_0000_0000
    {
      hide Int32;
      Int32Is(procs[k].heapPointer);
      var pcb := procs[k];
      ret := Int32(pcb.heapPointer);
      var curSz := Int32(pcb.heapPointer - pcb.heapBase);
      var reqSz := Int32(curSz + increment);
      if reqSz >= HEAP_SIZE || reqSz < 0 {
        return -1;
      }
      procs := procs[k := pcb.(heapPointer := (pcb.heapPointer + increment) % 0x1_0000_0000)];
    }

    /** Line 339: the root image. */
    method MapImage(r: nat, p: nat, n: nat, pfn: nat)
      requires WellFormed(mmu.View()) && SmallPages(mmu.View(), r) && r != NULL && BootFits(p, n, pfn)
      modifies mmu
      ensures Shaped(old(mmu.View())) && Mapped(old(mmu.View()), mmu.View(), r, p, p + n, pfn * PAGE_SIZE)
    {
      assert EndPage(p * PAGE_SIZE, n * PAGE_SIZE) == p + n && FirstPage(p * PAGE_SIZE) == p;
      BootMappable(mmu.View(), r, p, n, pfn);
      mmu.CreateMapping(r, p * PAGE_SIZE, pfn * PAGE_SIZE, n * PAGE_SIZE);
    }

    /**
     * create_root_process: stack pages, then the root image (n pages of frames from pfn on)
     * mapped at page p without being listed.
     */
    method CreateRootProcess(p: nat, n: nat, pfn: nat)
      requires Booted(View(), p, n, pfn)
      modifies this, mmu
      ensures Inv(View()) && |procs| == 1 && pidCurrent == 2
      ensures var q := procs[0];
              && q == Pcb(1, None, READY, q.root, q.pages, STACK_PAGES, ARGS_PAGE * PAGE_SIZE, 0, 0, 0, true)
              && |q.pages| == STACK_PAGES && BootMaps(mmu.View(), q.root, p, n, pfn, q.pages)
    {
      hide FrameInv, SpaceInv, WellFormed, FramesTaken, Region, SmallPages, RamOk, Inv;
      ghost var a := View();
      BootReady(a, p, n, pfn);
      var k := NewProcess();
      BootProcess(a, View());
      procs := procs[k := procs[k].(pageCount := STACK_PAGES, stackTop := ARGS_PAGE * PAGE_SIZE)];
      ghost var b := Memory();
      AllocatePage(k, procs[k].stackTop - procs[k].pageCount * PAGE_SIZE, procs[k].pageCount, STACK_PAGE);
      ghost var c := Memory();
      MapImage(procs[k].root, p, n, pfn);
      procs := procs[k := procs[k].(mainThread := true, state := READY)];
      BootDone(a, b, c, View(), p, n, pfn);
    }
  }

  /** An int passed as a uint32_t. */
  function Unsigned(x: int): nat { x % 0x1_0000_0000 }

  datatype WaitResult = NoChild | NotYet | Blocks | Reaped(pid: nat, status: nat)

  /** What fork needs of its caller, from the invariant. */
  lemma ForkReady(a: Sys, k: nat)
    requires Inv(a) && k < |a.procs| && a.procs[k].state != ZOMBIE
    ensures a.procs[k].mainThread && a.procs[k].root != NULL && SmallPages(a.space, a.procs[k].root)
    ensures MapsOwn(a, k) && exists i, j, f :: UserMaps(a.space, a.procs[k].root, i, j, f)
  {
    assert ProcessOk(a, a.procs[k]);
    forall i: nat, j: nat, f: nat | UserMaps(a.space, a.procs[k].root, i, j, f) ensures f in a.refcount.Keys + a.image {
      if f in a.procs[k].pages { AllPagesHas(a.procs, k, f); }
    }
  }

  /** What process k maps is a frame in use or of the image. */
  ghost predicate MapsOwn(a: Sys, k: nat)
    requires k < |a.procs|
  {
    forall i, j, f :: UserMaps(a.space, a.procs[k].root, i, j, f) ==> f in a.refcount.Keys + a.image
  }

  /** The frame to copy from is the parent's, still where it was. */
  lemma CopySource(a: Sys, b: Sys, k: nat, i: nat, j: nat, hole: Option<nat>) returns (f: nat)
    requires CopyState(a, b, k, L2_ENTRIES * i + j, hole) && i < USER_SLOTS && j < L2_ENTRIES && MapsOwn(a, k)
    requires Lookup(a.space, a.procs[k].root, i, j).Some?
    ensures Lookup(a.space, a.procs[k].root, i, j) == Some(f) && f in a.refcount.Keys + a.image
    ensures k < |b.procs| && b.procs[k] == a.procs[k]
    ensures Lookup(b.space, a.procs[k].root, i, j) == Some(f) && f in b.ram && b.ram.Keys == b.refcount.Keys + b.image
  {
    f := Lookup(a.space, a.procs[k].root, i, j).value;
    assert UserMaps(a.space, a.procs[k].root, i, j, f);
    assert b.procs[k] == b.procs[..|a.procs|][k];
  }

  /** What a new frame held does not matter once it is written. */
  lemma OverwriteNew(before: map<nat, seq<byte>>, after: map<nat, seq<byte>>, page: nat, f: nat)
    requires page in after && after == before[page := after[page]] && f in before && f != page
    ensures f in after && after[page := after[f]] == before[page := before[f]]
  {
  }

  /** Slot i of the child has level-2 table t, which is new. */
  ghost predicate OwnTable(a: Space, x: Space, cr: nat, i: nat, t: nat) {
    cr in x.roots && i < |x.roots[cr]| && x.roots[cr][i] == Table(t) && t !in a.tables
  }
}
