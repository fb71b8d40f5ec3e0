/** fork: what it does to the state, and that it keeps the invariant. */
module KernelFork {
  import opened Wrappers
  import opened PageTables
  import opened KernelState
  import opened KernelSteps

  // Frames taken: fork and exec.

  /** The frames fs are new: not in use, not in the image, no two equal. */
  ghost predicate NewFrames(inUse: set<nat>, image: set<nat>, fs: seq<nat>) {
    Distinct(fs) && forall f :: f in fs ==> f !in inUse && f !in image
  }

  /** b's frames are those of a in keep, untouched, and fs, counted once. */
  ghost predicate FramesTaken(a: Sys, b: Sys, keep: set<nat>, fs: seq<nat>) {
    && NewFrames(keep, a.image, fs) && keep <= a.refcount.Keys
    && b.image == a.image
    && (forall f :: f in b.refcount <==> f in keep || f in fs)
    && (forall f :: f in b.refcount ==> b.refcount[f] == if f in fs then 1 else a.refcount[f])
    && b.ram.Keys == b.refcount.Keys + b.image
    && (forall f :: f in b.ram ==> |b.ram[f]| == PAGE_SIZE)
    && (forall f :: f in keep || f in a.image ==> f in a.ram && b.ram[f] == a.ram[f])
  }

  /** One more new frame, listed last. */
  lemma FramesOneMore(a: Sys, b: Sys, c: Sys, keep: set<nat>, fs: seq<nat>, g: nat)
    requires FramesTaken(a, b, keep, fs) && g !in b.refcount && g !in b.image
    requires c.refcount == b.refcount[g := 1] && c.image == b.image && g in c.ram && |c.ram[g]| == PAGE_SIZE
    requires c.ram == b.ram[g := c.ram[g]]
    ensures FramesTaken(a, c, keep, fs + [g])
  {
  }

  /** Page (i, j) of root cr is a copy, on a frame of fs, of page (i, j) of root pr. */
  ghost predicate Copied(a: Sys, b: Sys, pr: nat, cr: nat, fs: seq<nat>, i: nat, j: nat) {
    match Lookup(a.space, pr, i, j)
    case None => Lookup(b.space, cr, i, j) == None
    case Some(f) =>
      match Lookup(b.space, cr, i, j)
      case None => false
      case Some(g) => g in fs && f in a.ram && g in b.ram && b.ram[g] == a.ram[f]
  }

  /** b's roots are a's, translating as before, plus root cr with the kernel's slots. */
  ghost predicate RootAdded(a: Sys, b: Sys, cr: nat) {
    && cr !in a.space.roots && cr != 0 && cr in b.space.roots
    && b.space.roots == a.space.roots[cr := b.space.roots[cr]]
    && (forall q :: q in a.space.roots ==> SameView(a.space, b.space, q))
    && SmallPages(b.space, cr) && a.sysRoot in a.space.roots
    && (forall i :: USER_SLOTS <= i < L1_ENTRIES && i < |a.space.roots[a.sysRoot]| ==>
          b.space.roots[cr][i] == a.space.roots[a.sysRoot][i])
  }

  /** The child's PCB is last on the list. */
  ghost predicate ChildAdded(a: Sys, b: Sys, k: nat) {
    && k < |a.procs| && a.procs[k].state != ZOMBIE && |b.procs| == |a.procs| + 1
    && var parent, child := a.procs[k], b.procs[|a.procs|];
    && child == Pcb(a.pidCurrent, Some(parent.pid), READY, child.root, child.pages, parent.pageCount, parent.stackTop,
                    parent.heapBase, parent.heapPointer, 0, true)
    && b.procs == a.procs + [child]
    && b.pidCurrent == a.pidCurrent + 1 && b.sysRoot == a.sysRoot
  }

  /** Root cr's user space is a copy of root pr's, on the frames fs, each used once. */
  ghost predicate UserCopied(a: Sys, b: Sys, pr: nat, cr: nat, fs: seq<nat>) {
    && (forall i, j :: 0 <= i < USER_SLOTS && 0 <= j < L2_ENTRIES ==> Copied(a, b, pr, cr, fs, i, j))
    && Injective(b.space, cr)
    && (forall f :: f in fs ==> exists i, j :: UserMaps(b.space, cr, i, j, f))
  }

  /** do_fork by process k. */
  ghost predicate ForkDone(a: Sys, b: Sys, k: nat) {
    && ChildAdded(a, b, k)
    && RootAdded(a, b, b.procs[|a.procs|].root)
    && FramesTaken(a, b, a.refcount.Keys, b.procs[|a.procs|].pages)
    && UserCopied(a, b, a.procs[k].root, b.procs[|a.procs|].root, b.procs[|a.procs|].pages)
  }

  lemma ForkTree(a: Sys, b: Sys, k: nat)
    requires TreeInv(a) && ChildAdded(a, b, k)
    ensures TreeInv(b)
  {
    forall m | 0 <= m < |b.procs| ensures ParentBefore(b.procs, m) {
      if m < |a.procs| {
        assert ParentBefore(a.procs, m);
        if a.procs[m].parent.Some? {
          var n :| 0 <= n < m && a.procs[n].pid == a.procs[m].parent.value;
          assert b.procs[n].pid == b.procs[m].parent.value;
        }
      } else {
        assert b.procs[k].pid == b.procs[m].parent.value;
      }
    }
  }

  lemma TakenFrames(a: Sys, b: Sys, keep: set<nat>, fs: seq<nat>)
    requires FrameInv(a) && FramesTaken(a, b, keep, fs)
    requires forall f: nat :: AllPages(b.procs)[f] == (if f in keep then a.refcount[f] else 0) + multiset(fs)[f]
    ensures FrameInv(b)
  {
    forall f: nat ensures AllPages(b.procs)[f] == if f in b.refcount then b.refcount[f] else 0 {
      DistinctCount(fs, f);
    }
  }

  lemma ForkFrames(a: Sys, b: Sys, k: nat)
    requires FrameInv(a) && ChildAdded(a, b, k)
    requires FramesTaken(a, b, a.refcount.Keys, b.procs[|a.procs|].pages)
    ensures FrameInv(b)
  {
    var fs := b.procs[|a.procs|].pages;
    assert b.procs[..|a.procs|] == a.procs;
    assert AllPages(b.procs) == AllPages(a.procs) + multiset(fs);
    TakenFrames(a, b, a.refcount.Keys, fs);
  }

  lemma ForkRoots(a: Sys, b: Sys, k: nat)
    requires RootsInv(a) && ChildAdded(a, b, k) && RootAdded(a, b, b.procs[|a.procs|].root)
    ensures RootsInv(b)
  {
    var child := b.procs[|a.procs|];
    forall r | r in b.space.roots && r != b.sysRoot
      ensures exists m :: 0 <= m < |b.procs| && b.procs[m].mainThread && b.procs[m].root == r
    {
      if r == child.root {
        assert b.procs[|a.procs|].root == r;
      } else {
        var m :| 0 <= m < |a.procs| && a.procs[m].mainThread && a.procs[m].root == r;
        assert b.procs[m].mainThread && b.procs[m].root == r;
      }
    }
    forall m | 0 <= m < |b.procs| && b.procs[m].mainThread
      ensures b.procs[m].root != b.sysRoot && b.procs[m].root != 0 && SmallPages(b.space, b.procs[m].root)
    {
      if m < |a.procs| { assert SmallPages(a.space, a.procs[m].root); }
    }
  }

  lemma ForkSpace(a: Sys, b: Sys, k: nat)
    requires SpaceInv(a) && ChildAdded(a, b, k) && RootAdded(a, b, b.procs[|a.procs|].root) && WellFormed(b.space)
    ensures SpaceInv(b)
  {
    ForkRoots(a, b, k);
    var cr := b.procs[|a.procs|].root;
    forall r, i | r in b.space.roots && USER_SLOTS <= i < L1_ENTRIES ensures b.space.roots[r][i] == b.space.roots[b.sysRoot][i] {
      assert r != cr ==> b.space.roots[r] == a.space.roots[r];
    }
  }

  lemma ForkOld(a: Sys, b: Sys, k: nat, m: nat)
    requires RootsInv(a) && StatesOk(a.procs, a.pidCurrent) && ProcessInv(a) && m < |a.procs|
    requires ChildAdded(a, b, k) && RootAdded(a, b, b.procs[|a.procs|].root) && b.image == a.image
    ensures ProcessOk(b, b.procs[m])
  {
    assert ProcessOk(a, a.procs[m]) && b.procs[m] == a.procs[m];
    if a.procs[m].state != ZOMBIE {
      ProcessKept(a, b, a.procs[m]);
    }
  }

  /** The child maps a page exactly where the parent does. */
  lemma ForkMaps(a: Sys, b: Sys, k: nat, i: nat, j: nat)
    requires ForkDone(a, b, k) && i < USER_SLOTS && j < L2_ENTRIES
    ensures var x, y := Lookup(a.space, a.procs[k].root, i, j), Lookup(b.space, b.procs[|a.procs|].root, i, j);
            && x.Some? == y.Some?
            && (y.Some? ==> y.value in b.procs[|a.procs|].pages && x.value in a.ram && y.value in b.ram && b.ram[y.value] == a.ram[x.value])
  {
    assert Copied(a, b, a.procs[k].root, b.procs[|a.procs|].root, b.procs[|a.procs|].pages, i, j);
  }

  lemma ForkChild(a: Sys, b: Sys, k: nat)
    requires ProcessInv(a) && ForkDone(a, b, k)
    ensures Owns(b, b.procs[|a.procs|])
  {
    var child := b.procs[|a.procs|];
    forall i: nat, j: nat, f: nat | UserMaps(b.space, child.root, i, j, f) ensures f in child.pages {
      ForkMaps(a, b, k, i, j);
    }
    assert Owns(a, a.procs[k]);
    var i, j, f :| UserMaps(a.space, a.procs[k].root, i, j, f);
    ForkMaps(a, b, k, i, j);
    assert UserMaps(b.space, child.root, i, j, Lookup(b.space, child.root, i, j).value);
  }

  /** The accounting of an exec'd process carries over to its child. */
  lemma ForkAccounts(a: Sys, b: Sys, k: nat)
    requires FrameInv(a) && ProcessInv(a) && ForkDone(a, b, k) && a.procs[k].heapBase != 0
    ensures Accounted(b, b.procs[|a.procs|])
  {
    var parent, child := a.procs[k], b.procs[|a.procs|];
    assert Owns(a, parent) && Accounted(a, parent);
    forall f: nat ensures multiset(parent.pages)[f] <= 1 { ListedOnce(a, k, f); }
    CountDistinct(parent.pages);
    MappedCount(a.space, parent.root, parent.pages);
    forall i: nat, j: nat, f: nat | UserMaps(b.space, child.root, i, j, f) ensures f in child.pages {
      ForkMaps(a, b, k, i, j);
    }
    MappedCount(b.space, child.root, child.pages);
    forall i, j | 0 <= i < USER_SLOTS && 0 <= j < L2_ENTRIES
      ensures Lookup(a.space, parent.root, i, j).Some? == Lookup(b.space, child.root, i, j).Some?
    {
      ForkMaps(a, b, k, i, j);
    }
    assert MappedPages(a.space, parent.root) == MappedPages(b.space, child.root);
  }

  lemma ForkHeap(a: Sys, b: Sys, k: nat)
    requires ForkDone(a, b, k) && HeapOk(a, a.procs[k])
    ensures HeapOk(b, b.procs[|a.procs|])
  {
    var parent, child := a.procs[k], b.procs[|a.procs|];
    forall i, j | 0 <= i < L1_ENTRIES && 0 <= j < L2_ENTRIES
      && child.heapBase / PAGE_SIZE <= L2_ENTRIES * i + j < child.heapBase / PAGE_SIZE + HEAP_PAGES
      ensures i < USER_SLOTS && Lookup(b.space, child.root, i, j).Some?
    {
      assert Lookup(a.space, parent.root, i, j).Some?;
      ForkMaps(a, b, k, i, j);
    }
  }

  lemma ForkNew(a: Sys, b: Sys, k: nat)
    requires FrameInv(a) && ProcessInv(a) && ForkDone(a, b, k)
    ensures ProcessOk(b, b.procs[|a.procs|])
  {
    assert ProcessOk(a, a.procs[k]);
    ForkChild(a, b, k);
    if a.procs[k].heapBase != 0 {
      ForkAccounts(a, b, k);
      ForkHeap(a, b, k);
    }
  }

  lemma ForkOlds(a: Sys, b: Sys, k: nat)
    requires RootsInv(a) && StatesOk(a.procs, a.pidCurrent) && ProcessInv(a)
    requires ChildAdded(a, b, k) && RootAdded(a, b, b.procs[|a.procs|].root) && b.image == a.image
    ensures forall m :: 0 <= m < |a.procs| ==> ProcessOk(b, b.procs[m])
  {
    forall m | 0 <= m < |a.procs| ensures ProcessOk(b, b.procs[m]) {
      ForkOld(a, b, k, m);
    }
  }

  lemma ForkKeeps(a: Sys, b: Sys, k: nat)
    requires Inv(a) && ForkDone(a, b, k) && WellFormed(b.space)
    ensures Inv(b)
  {
    ForkTree(a, b, k);
    ForkFrames(a, b, k);
    ForkSpace(a, b, k);
    ForkNew(a, b, k);
    ForkOlds(a, b, k);
  }
}
