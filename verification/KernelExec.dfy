/** exec: the image that replaces a process's user space, and that it keeps the invariant. */
module KernelExec {
  import opened Wrappers
  import opened PageTables
  import opened KernelState
  import opened KernelSteps
  import opened KernelFork

  const STACK_PAGE: int := ARGS_PAGE - STACK_PAGES

  /** First page of the heap: (page_count + 1) * PAGE_SIZE, with stack and image counted. */
  function HeapPage(segPages: nat): nat { STACK_PAGES + segPages + 1 }

  function ImagePages(segPages: nat): nat { STACK_PAGES + segPages + HEAP_PAGES + 1 }

  /** A page-aligned entry point, and constants that keep the four regions apart in user space. */
  ghost predicate Fits(entry: nat, segPages: nat) {
    && entry % PAGE_SIZE == 0 && entry / PAGE_SIZE <= STACK_PAGES + 1
    && 0 < STACK_PAGES && HeapPage(segPages) + HEAP_PAGES <= STACK_PAGE && ARGS_PAGE < USER_SLOTS * L2_ENTRIES
  }

  /** Which frame of the page list user page m is mapped to: stack, image, heap, arguments. */
  function Position(entry: nat, segPages: nat, m: nat): Option<nat> {
    if STACK_PAGE <= m < ARGS_PAGE then Some(m - STACK_PAGE)
    else if entry / PAGE_SIZE <= m < entry / PAGE_SIZE + segPages then Some(STACK_PAGES + (m - entry / PAGE_SIZE))
    else if HeapPage(segPages) <= m < HeapPage(segPages) + HEAP_PAGES then Some(STACK_PAGES + segPages + (m - HeapPage(segPages)))
    else if m == ARGS_PAGE then Some(STACK_PAGES + segPages + HEAP_PAGES)
    else None
  }

  /** The regions are disjoint and fill the page list: Position is a bijection onto it. */
  lemma PositionOneToOne(entry: nat, segPages: nat, m: nat, n: nat)
    requires Fits(entry, segPages)
    ensures Position(entry, segPages, m).Some? ==> Position(entry, segPages, m).value < ImagePages(segPages) && m < USER_SLOTS * L2_ENTRIES
    ensures Position(entry, segPages, m).Some? && Position(entry, segPages, m) == Position(entry, segPages, n) ==> m == n
  {
  }

  function PageAt(entry: nat, segPages: nat, x: nat): nat
    requires Fits(entry, segPages)
  {
    if x < STACK_PAGES then STACK_PAGE + x
    else if x < STACK_PAGES + segPages then entry / PAGE_SIZE + (x - STACK_PAGES)
    else if x < STACK_PAGES + segPages + HEAP_PAGES then HeapPage(segPages) + (x - STACK_PAGES - segPages)
    else ARGS_PAGE
  }

  lemma PositionOnto(entry: nat, segPages: nat, x: nat)
    requires Fits(entry, segPages) && x < ImagePages(segPages)
    ensures Position(entry, segPages, PageAt(entry, segPages, x)) == Some(x)
  {
  }

  /** The frames of process p go back before the new ones are taken. */
  ghost function Kept(a: Sys, k: nat): set<nat>
    requires k < |a.procs|
  {
    a.refcount.Keys - (set f | f in a.procs[k].pages)
  }

  /** Root r of b: user pages where Position says, on the frames fs; all else as in a. */
  ghost predicate ImageMapped(a: Space, b: Space, r: nat, entry: nat, segPages: nat, fs: seq<nat>) {
    && r in a.roots && r in b.roots && b.roots == a.roots[r := b.roots[r]] && SmallPages(b, r)
    && (forall q :: q in a.roots && q != r ==> SameView(a, b, q))
    && (forall i :: USER_SLOTS <= i < L1_ENTRIES && i < |a.roots[r]| ==> b.roots[r][i] == a.roots[r][i])
    && |fs| == ImagePages(segPages)
    && (forall i, j :: 0 <= i < USER_SLOTS && 0 <= j < L2_ENTRIES ==>
          Lookup(b, r, i, j) ==
          match Position(entry, segPages, L2_ENTRIES * i + j)
          case None => None
          case Some(x) => if x < |fs| then Some(fs[x]) else None)
  }

  /** setup_proc_image_replace on process k. */
  ghost predicate ExecDone(a: Sys, b: Sys, k: nat, entry: nat, segPages: nat) {
    && k < |a.procs| && a.procs[k].state != ZOMBIE && |b.procs| == |a.procs|
    && var p, fs := a.procs[k], b.procs[k].pages;
    && b.procs == a.procs[k := p.(pages := fs, pageCount := ImagePages(segPages), stackTop := ARGS_PAGE * PAGE_SIZE,
                                  heapBase := HeapPage(segPages) * PAGE_SIZE, heapPointer := HeapPage(segPages) * PAGE_SIZE)]
    && b.pidCurrent == a.pidCurrent && b.sysRoot == a.sysRoot
    && ImageMapped(a.space, b.space, p.root, entry, segPages, fs)
    && FramesTaken(a, b, Kept(a, k), fs)
  }

  lemma ExecFrames(a: Sys, b: Sys, k: nat, entry: nat, segPages: nat)
    requires FrameInv(a) && ExecDone(a, b, k, entry, segPages)
    ensures FrameInv(b)
  {
    var before: seq<nat>, fs: seq<nat> := a.procs[k].pages, b.procs[k].pages;
    AllPagesUpdate(a.procs, k, b.procs[k]);
    forall f: nat ensures AllPages(b.procs)[f] == (if f in Kept(a, k) then a.refcount[f] else 0) + multiset(fs)[f] {
      assert (AllPages(b.procs) + multiset(before))[f] == (AllPages(a.procs) + multiset(fs))[f];
      AllPagesHas(a.procs, k, f);
      ListedOnce(a, k, f);
      assert f in before <==> multiset(before)[f] >= 1;
    }
    TakenFrames(a, b, Kept(a, k), fs);
  }

  lemma ExecRoots(a: Sys, b: Sys, k: nat, entry: nat, segPages: nat)
    requires RootsInv(a) && ExecDone(a, b, k, entry, segPages)
    ensures RootsInv(b)
  {
    forall r | r in b.space.roots && r != b.sysRoot
      ensures exists m :: 0 <= m < |b.procs| && b.procs[m].mainThread && b.procs[m].root == r
    {
      var m :| 0 <= m < |a.procs| && a.procs[m].mainThread && a.procs[m].root == r;
      assert b.procs[m].mainThread && b.procs[m].root == r;
    }
    forall m | 0 <= m < |b.procs| && b.procs[m].mainThread ensures SmallPages(b.space, b.procs[m].root) {
      assert SmallPages(a.space, a.procs[m].root);
    }
  }

  lemma ExecSpace(a: Sys, b: Sys, k: nat, entry: nat, segPages: nat)
    requires StatesOk(a.procs, a.pidCurrent) && SpaceInv(a) && ExecDone(a, b, k, entry, segPages) && WellFormed(b.space)
    ensures SpaceInv(b)
  {
    ExecRoots(a, b, k, entry, segPages);
    assert a.procs[k].mainThread && b.space.roots[b.sysRoot] == a.space.roots[a.sysRoot];
    forall r, i | r in b.space.roots && USER_SLOTS <= i < L1_ENTRIES
      ensures b.space.roots[r][i] == b.space.roots[b.sysRoot][i]
    {
      assert r != a.procs[k].root ==> b.space.roots[r] == a.space.roots[r];
    }
  }

  lemma ExecMaps(a: Sys, b: Sys, k: nat, entry: nat, segPages: nat, i: nat, j: nat, f: nat)
    requires ExecDone(a, b, k, entry, segPages) && UserMaps(b.space, a.procs[k].root, i, j, f)
    ensures var x := Position(entry, segPages, L2_ENTRIES * i + j); x.Some? && x.value < |b.procs[k].pages| && f == b.procs[k].pages[x.value]
  {
  }

  lemma ExecOwns(a: Sys, b: Sys, k: nat, entry: nat, segPages: nat)
    requires Fits(entry, segPages) && ExecDone(a, b, k, entry, segPages)
    ensures Owns(b, b.procs[k]) && Accounted(b, b.procs[k])
  {
    hide Fits, Position, PageAt;
    var p := b.procs[k];
    forall i: nat, j: nat, f: nat | UserMaps(b.space, p.root, i, j, f) ensures f in p.pages {
      ExecMaps(a, b, k, entry, segPages, i, j, f);
    }
    forall i: nat, j: nat, m: nat, n: nat, f: nat | UserMaps(b.space, p.root, i, j, f) && UserMaps(b.space, p.root, m, n, f)
      ensures i == m && j == n
    {
      ExecMaps(a, b, k, entry, segPages, i, j, f);
      ExecMaps(a, b, k, entry, segPages, m, n, f);
      PositionOneToOne(entry, segPages, L2_ENTRIES * i + j, L2_ENTRIES * m + n);
    }
    forall x | 0 <= x < |p.pages| ensures exists i, j :: UserMaps(b.space, p.root, i, j, p.pages[x]) {
      ExecListed(a, b, k, entry, segPages, x);
    }
    ExecListed(a, b, k, entry, segPages, 0);
  }

  /** Every frame of the new page list is mapped. */
  lemma ExecListed(a: Sys, b: Sys, k: nat, entry: nat, segPages: nat, x: nat)
    requires Fits(entry, segPages) && ExecDone(a, b, k, entry, segPages) && x < |b.procs[k].pages|
    ensures exists i, j :: UserMaps(b.space, b.procs[k].root, i, j, b.procs[k].pages[x])
  {
    PositionOnto(entry, segPages, x);
    var m := PageAt(entry, segPages, x);
    PositionOneToOne(entry, segPages, m, m);
    assert m == L2_ENTRIES * (m / L2_ENTRIES) + m % L2_ENTRIES;
    assert UserMaps(b.space, b.procs[k].root, m / L2_ENTRIES, m % L2_ENTRIES, b.procs[k].pages[x]);
  }

  /**
   * The new image in plain terms: stack below the argument page, image at its entry point, heap one
   * page above as many pages as stack and image have, and nothing else in user space.
   */
  lemma ExecLayout(a: Sys, b: Sys, k: nat, entry: nat, segPages: nat, i: nat, j: nat)
    requires Fits(entry, segPages) && ExecDone(a, b, k, entry, segPages) && i < USER_SLOTS && j < L2_ENTRIES
    ensures k < |b.procs|
    ensures var p, m := b.procs[k], L2_ENTRIES * i + j;
            && p.stackTop == ARGS_PAGE * PAGE_SIZE && p.pageCount == |p.pages| == STACK_PAGES + segPages + HEAP_PAGES + 1
            && p.heapPointer == p.heapBase == (STACK_PAGES + segPages + 1) * PAGE_SIZE
            && (Lookup(b.space, p.root, i, j).Some? <==>
                  || ARGS_PAGE - STACK_PAGES <= m <= ARGS_PAGE
                  || entry / PAGE_SIZE <= m < entry / PAGE_SIZE + segPages
                  || STACK_PAGES + segPages + 1 <= m < STACK_PAGES + segPages + 1 + HEAP_PAGES)
  {
    PositionOneToOne(entry, segPages, L2_ENTRIES * i + j, L2_ENTRIES * i + j);
  }

  /** The frame of the argument page. */
  function ArgsFrame(s: Space, r: nat): Option<nat> {
    Lookup(s, r, ARGS_PAGE / L2_ENTRIES, ARGS_PAGE % L2_ENTRIES)
  }

  lemma ExecArgsFrame(a: Sys, b: Sys, k: nat, entry: nat, segPages: nat)
    requires Fits(entry, segPages) && ExecDone(a, b, k, entry, segPages)
    ensures k < |b.procs|
    ensures var f := ArgsFrame(b.space, b.procs[k].root);
            f.Some? && f.value in b.procs[k].pages && f.value in b.ram && |b.ram[f.value]| == PAGE_SIZE
    ensures 0 < ARGS_PAGE && ARGS_PAGE * PAGE_SIZE + PAGE_SIZE <= 0x1_0000_0000
  {
    var i, j := ARGS_PAGE / L2_ENTRIES, ARGS_PAGE % L2_ENTRIES;
    assert L2_ENTRIES * i + j == ARGS_PAGE && i < USER_SLOTS;
    var x := ImagePages(segPages) - 1;
    assert Position(entry, segPages, ARGS_PAGE) == Some(x);
    assert ArgsFrame(b.space, b.procs[k].root) == Some(b.procs[k].pages[x]);
  }

  /** Writing the argument page leaves exec done. */
  lemma ExecWritten(a: Sys, b: Sys, c: Sys, k: nat, entry: nat, segPages: nat, page: seq<byte>)
    requires Fits(entry, segPages) && ExecDone(a, b, k, entry, segPages) && |page| == PAGE_SIZE
    requires var f := ArgsFrame(b.space, b.procs[k].root); f.Some? && c == b.(ram := b.ram[f.value := page])
    ensures ExecDone(a, c, k, entry, segPages)
  {
    hide ImageMapped;
    ExecArgsFrame(a, b, k, entry, segPages);
  }

  lemma ExecHeap(a: Sys, b: Sys, k: nat, entry: nat, segPages: nat)
    requires Fits(entry, segPages) && ExecDone(a, b, k, entry, segPages)
    ensures HeapOk(b, b.procs[k]) && b.procs[k].heapBase != 0
  {
    var p := b.procs[k];
    assert p.heapBase / PAGE_SIZE == HeapPage(segPages);
    forall i, j | 0 <= i < L1_ENTRIES && 0 <= j < L2_ENTRIES
      && p.heapBase / PAGE_SIZE <= L2_ENTRIES * i + j < p.heapBase / PAGE_SIZE + HEAP_PAGES
      ensures i < USER_SLOTS && Lookup(b.space, p.root, i, j).Some?
    {
      PositionOneToOne(entry, segPages, L2_ENTRIES * i + j, L2_ENTRIES * i + j);
    }
  }

  lemma ExecOther(a: Sys, b: Sys, k: nat, entry: nat, segPages: nat, m: nat)
    requires StatesOk(a.procs, a.pidCurrent) && RootsInv(a) && ProcessInv(a) && ExecDone(a, b, k, entry, segPages)
    requires m < |a.procs| && m != k
    ensures ProcessOk(b, b.procs[m])
  {
    var p := a.procs[m];
    assert ProcessOk(a, p) && b.procs[m] == p;
    if p.state != ZOMBIE {
      assert p.root in a.space.roots && p.root != a.procs[k].root;
      ProcessKept(a, b, p);
    }
  }

  lemma ExecOthers(a: Sys, b: Sys, k: nat, entry: nat, segPages: nat)
    requires StatesOk(a.procs, a.pidCurrent) && RootsInv(a) && ProcessInv(a) && ExecDone(a, b, k, entry, segPages)
    ensures forall m :: 0 <= m < |a.procs| && m != k ==> ProcessOk(b, b.procs[m])
  {
    forall m | 0 <= m < |a.procs| && m != k ensures ProcessOk(b, b.procs[m]) {
      ExecOther(a, b, k, entry, segPages, m);
    }
  }

  lemma ExecKeeps(a: Sys, b: Sys, k: nat, entry: nat, segPages: nat)
    requires Inv(a) && Fits(entry, segPages) && ExecDone(a, b, k, entry, segPages) && WellFormed(b.space)
    ensures Inv(b)
  {
    TreeKept(a, b, k);
    ExecSpace(a, b, k, entry, segPages);
    ExecFrames(a, b, k, entry, segPages);
    ExecOwns(a, b, k, entry, segPages);
    ExecHeap(a, b, k, entry, segPages);
    ExecOthers(a, b, k, entry, segPages);
  }
}
