/**
 * The state that kernel/process.c keeps: process control blocks, page lists and frame
 * reference counts, joined with the page tables and with the bytes of every frame.
 */
module KernelState {
  import opened Wrappers
  import opened PageTables

  datatype ProcState = NEW | READY | RUNNING | WAITING | ZOMBIE

  /** A struct pcb. A parent pointer is the parent's pid; pids are never reused. */
  datatype Pcb = Pcb(
    pid: nat,
    parent: Option<nat>,
    state: ProcState,
    root: nat,             // pgtable
    pages: seq<nat>,       // page_list
    pageCount: nat,
    stackTop: nat,
    heapBase: nat,
    heapPointer: nat,
    exitStatus: int,
    mainThread: bool)      // main_thread != NULL

  datatype Sys = Sys(
    space: Space,
    refcount: map<nat, nat>,        // of the frames that get_free_page has handed out
    ram: map<nat, seq<byte>>,
    procs: seq<Pcb>,                // proc_list
    pidCurrent: nat,
    sysRoot: nat,
    image: set<nat>)                // frames of the root image, never handed out

  // The slot and entry of FIXMAP_MAPPING, in the kernel area.
  type KernelSlot = k: nat | USER_SLOTS <= k < L1_ENTRIES witness USER_SLOTS
  type Entry = j: nat | j < L2_ENTRIES
  const FIX_SLOT: KernelSlot
  const FIX_ENTRY: Entry

  // Page lists and reference counts.

  /** The page-list entries of all processes together. */
  function AllPages(procs: seq<Pcb>): multiset<nat> {
    if procs == [] then multiset{} else AllPages(procs[..|procs| - 1]) + multiset(procs[|procs| - 1].pages)
  }

  lemma {:induction false} AllPagesUpdate(procs: seq<Pcb>, k: nat, p: Pcb)
    requires k < |procs|
    ensures AllPages(procs[k := p]) + multiset(procs[k].pages) == AllPages(procs) + multiset(p.pages)
  {
    var n := |procs| - 1;
    if k == n {
      assert procs[k := p][..n] == procs[..n];
    } else {
      assert procs[k := p][..n] == procs[..n][k := p] && procs[..n][k] == procs[k];
      AllPagesUpdate(procs[..n], k, p);
      var before, after, last := AllPages(procs[..n]), AllPages(procs[..n][k := p]), multiset(procs[n].pages);
      assert AllPages(procs[k := p]) == after + last;
      assert (after + last) + multiset(procs[k].pages) == (after + multiset(procs[k].pages)) + last;
    }
  }

  lemma AllPagesSame(procs: seq<Pcb>, k: nat, p: Pcb)
    requires k < |procs| && p.pages == procs[k].pages
    ensures AllPages(procs[k := p]) == AllPages(procs)
  {
    AllPagesUpdate(procs, k, p);
    var x, y, z := AllPages(procs[k := p]), AllPages(procs), multiset(p.pages);
    forall f: nat ensures x[f] == y[f] {
      assert (x + z)[f] == (y + z)[f];
    }
  }

  function Without(procs: seq<Pcb>, k: nat): seq<Pcb>
    requires k < |procs|
  {
    procs[..k] + procs[k + 1..]
  }

  lemma {:induction false} AllPagesRemove(procs: seq<Pcb>, k: nat)
    requires k < |procs|
    ensures AllPages(Without(procs, k)) + multiset(procs[k].pages) == AllPages(procs)
  {
    var n := |procs| - 1;
    if k == n {
      assert Without(procs, k) == procs[..n];
    } else {
      var w := Without(procs, k);
      assert w[n - 1] == procs[n] && w[..n - 1] == Without(procs[..n], k);
      hide Without;
      AllPagesRemove(procs[..n], k);
    }
  }

  lemma {:induction false} AllPagesHas(procs: seq<Pcb>, k: nat, f: nat)
    requires k < |procs|
    ensures multiset(procs[k].pages)[f] <= AllPages(procs)[f]
  {
    AllPagesRemove(procs, k);
  }

  /** A frame on two processes' page lists is counted twice. */
  lemma {:induction false} AllPagesTwice(procs: seq<Pcb>, k: nat, m: nat, f: nat)
    requires k < m < |procs| && f in procs[k].pages && f in procs[m].pages
    ensures 2 <= AllPages(procs)[f]
  {
    AllPagesRemove(procs, m);
    AllPagesHas(Without(procs, m), k, f);
    assert multiset(procs[k].pages)[f] >= 1 && multiset(procs[m].pages)[f] >= 1;
  }

  ghost predicate Distinct(fs: seq<nat>) {
    forall x, y :: 0 <= x < y < |fs| ==> fs[x] != fs[y]
  }

  lemma {:induction false} DistinctCount(fs: seq<nat>, f: nat)
    requires Distinct(fs)
    ensures multiset(fs)[f] == if f in fs then 1 else 0
  {
    if fs != [] {
      var n := |fs| - 1;
      DistinctCount(fs[..n], f);
      assert fs == fs[..n] + [fs[n]];
      assert f in fs[..n] ==> f != fs[n];
    }
  }

  /** A list in which nothing is counted twice has no repetition. */
  lemma CountDistinct(fs: seq<nat>)
    requires forall f: nat :: multiset(fs)[f] <= 1
    ensures Distinct(fs)
  {
    forall x, y | 0 <= x < y < |fs| ensures fs[x] != fs[y] {
      assert fs == fs[..y] + [fs[y]] + fs[y + 1..];
      assert fs[x] in fs[..y];
      assert multiset(fs)[fs[y]] == multiset(fs[..y])[fs[y]] + 1 + multiset(fs[y + 1..])[fs[y]];
    }
  }

  /** Each frame's reference count is the number of page-list entries that name it. */
  ghost predicate Counted(s: Sys) {
    forall f: nat :: AllPages(s.procs)[f] == if f in s.refcount then s.refcount[f] else 0
  }

  // The process list.

  /** The position of a process; the length of the list if there is none. */
  function Index(procs: seq<Pcb>, pid: nat): (k: nat)
    ensures k <= |procs|
    ensures k < |procs| ==> procs[k].pid == pid
    ensures forall m :: 0 <= m < k ==> procs[m].pid != pid
  {
    if procs == [] then 0 else if procs[0].pid == pid then 0 else 1 + Index(procs[1..], pid)
  }

  predicate Exists(procs: seq<Pcb>, pid: nat) {
    Index(procs, pid) < |procs|
  }

  /** Some process has pid as its parent. */
  predicate HasChild(procs: seq<Pcb>, pid: nat) {
    exists m :: 0 <= m < |procs| && procs[m].parent == Some(pid)
  }

  ghost predicate PidsAscend(procs: seq<Pcb>) {
    forall k, m :: 0 <= k < m < |procs| ==> procs[k].pid < procs[m].pid
  }

  /** Every parent is on the list, before its children; only the first process has none. */
  ghost predicate ParentsListed(procs: seq<Pcb>) {
    && (forall k :: 0 < k < |procs| ==> procs[k].parent.Some?)
    && (forall k {:trigger ParentBefore(procs, k)} :: 0 <= k < |procs| ==> ParentBefore(procs, k))
  }

  ghost predicate ParentBefore(procs: seq<Pcb>, k: nat)
    requires k < |procs|
  {
    procs[k].parent.Some? ==> exists m :: 0 <= m < k && procs[m].pid == procs[k].parent.value
  }

  ghost predicate StatesOk(procs: seq<Pcb>, pidCurrent: nat) {
    forall k :: 0 <= k < |procs| ==>
      && 1 <= procs[k].pid < pidCurrent
      && (!procs[k].mainThread ==> procs[k].state == ZOMBIE)
      && (procs[k].state == ZOMBIE ==> procs[k].parent.Some?)
  }

  ghost predicate TreeInv(s: Sys) {
    PidsAscend(s.procs) && ParentsListed(s.procs) && StatesOk(s.procs, s.pidCurrent)
  }

  // Memory.

  ghost predicate SmallPages(s: Space, r: nat)
  {
    r in s.roots && |s.roots[r]| == L1_ENTRIES && forall i :: 0 <= i < USER_SLOTS ==> !s.roots[r][i].Section?
  }

  /** The kernel slots of every root are the system root's, and the fixmap slot is free. */
  ghost predicate KernelArea(s: Space, sysRoot: nat)
    requires Shaped(s) && sysRoot in s.roots
  {
    && (forall r, i :: r in s.roots && USER_SLOTS <= i < L1_ENTRIES ==> s.roots[r][i] == s.roots[sysRoot][i])
    && s.roots[sysRoot][FIX_SLOT] == NoL1
  }

  /** Roots and processes that have not been reaped correspond. */
  ghost predicate RootsInv(s: Sys) {
    && (forall k :: 0 <= k < |s.procs| && s.procs[k].mainThread ==>
          s.procs[k].root != s.sysRoot && s.procs[k].root != 0 && SmallPages(s.space, s.procs[k].root))
    && (forall k, m :: 0 <= k < m < |s.procs| && s.procs[k].mainThread && s.procs[m].mainThread ==>
          s.procs[k].root != s.procs[m].root)
    && (forall r :: r in s.space.roots && r != s.sysRoot ==>
          exists k :: 0 <= k < |s.procs| && s.procs[k].mainThread && s.procs[k].root == r)
  }

  ghost predicate SpaceInv(s: Sys) {
    && WellFormed(s.space) && s.sysRoot in s.space.roots && s.sysRoot != 0
    && KernelArea(s.space, s.sysRoot) && RootsInv(s)
  }

  ghost predicate FrameInv(s: Sys) {
    && Counted(s)
    && (forall f :: f in s.refcount ==> s.refcount[f] == 1 && f !in s.image)
    && s.ram.Keys == s.refcount.Keys + s.image
    && (forall f :: f in s.ram ==> |s.ram[f]| == PAGE_SIZE)
  }

  /** User page (i, j) of a root. */
  ghost predicate UserMaps(s: Space, r: nat, i: nat, j: nat, f: nat) {
    i < USER_SLOTS && j < L2_ENTRIES && Lookup(s, r, i, j) == Some(f)
  }

  ghost predicate Injective(s: Space, r: nat) {
    forall i, j, k, m, f :: UserMaps(s, r, i, j, f) && UserMaps(s, r, k, m, f) ==> i == k && j == m
  }

  /** A process that has not exited maps only frames of its page list (the root also the root image). */
  ghost predicate Owns(s: Sys, p: Pcb) {
    && (forall i, j, f :: UserMaps(s.space, p.root, i, j, f) ==> f in p.pages || (f in s.image && p.parent == None))
    && Injective(s.space, p.root)
    && (exists i, j, f :: UserMaps(s.space, p.root, i, j, f))
  }

  // Layout of a process image, in pages; the sizes are arbitrary constants, set in configuration headers.
  const STACK_PAGES: nat      // of PROC_STACK_SIZE
  const ARGS_PAGE: nat        // page of arch_get_args_base()
  type IntSize = n: nat | 0 < n < 0x8000_0000 witness 1
  const HEAP_SIZE: IntSize    // an int constant
  const HEAP_PAGES := (HEAP_SIZE + (PAGE_SIZE - 1)) / PAGE_SIZE

  /** After exec: the page list is exactly what is mapped, and page_count is its length. */
  ghost predicate Accounted(s: Sys, p: Pcb) {
    && p.pageCount == |p.pages|
    && (forall i, j, f :: UserMaps(s.space, p.root, i, j, f) ==> f in p.pages)
    && (forall f :: f in p.pages ==> exists i, j :: UserMaps(s.space, p.root, i, j, f))
  }

  /** The user pages of a root that are mapped to a frame of fs. */
  ghost function PagesOn(s: Space, r: nat, fs: seq<nat>): set<(nat, nat)> {
    set i, j | 0 <= i < USER_SLOTS && 0 <= j < L2_ENTRIES && Lookup(s, r, i, j).Some? && Lookup(s, r, i, j).value in fs :: (i, j)
  }

  ghost function MappedPages(s: Space, r: nat): set<(nat, nat)> {
    set i, j | 0 <= i < USER_SLOTS && 0 <= j < L2_ENTRIES && Lookup(s, r, i, j).Some? :: (i, j)
  }

  lemma {:induction false} PagesOnCount(s: Space, r: nat, fs: seq<nat>)
    requires Distinct(fs) && Injective(s, r)
    requires forall f :: f in fs ==> exists i, j :: UserMaps(s, r, i, j, f)
    ensures |PagesOn(s, r, fs)| == |fs|
  {
    if fs == [] {
      assert PagesOn(s, r, fs) == {};
    } else {
      var n := |fs| - 1;
      assert forall f :: f in fs[..n] ==> f in fs;
      PagesOnCount(s, r, fs[..n]);
      assert fs[n] in fs;
      var i, j :| UserMaps(s, r, i, j, fs[n]);
      forall k, m | 0 <= k < USER_SLOTS && 0 <= m < L2_ENTRIES && Lookup(s, r, k, m) == Some(fs[n]) ensures k == i && m == j {
        assert UserMaps(s, r, k, m, fs[n]);
      }
      assert fs == fs[..n] + [fs[n]];
      assert PagesOn(s, r, fs) == PagesOn(s, r, fs[..n]) + {(i, j)};
      assert (i, j) !in PagesOn(s, r, fs[..n]);
    }
  }

  /** A page list that names the mapped frames, each once, is as long as there are mapped pages. */
  lemma MappedCount(s: Space, r: nat, fs: seq<nat>)
    requires Distinct(fs) && Injective(s, r)
    requires forall i, j, f :: UserMaps(s, r, i, j, f) ==> f in fs
    requires forall f :: f in fs ==> exists i, j :: UserMaps(s, r, i, j, f)
    ensures |MappedPages(s, r)| == |fs|
  {
    PagesOnCount(s, r, fs);
    forall i, j | 0 <= i < USER_SLOTS && 0 <= j < L2_ENTRIES && Lookup(s, r, i, j).Some? ensures Lookup(s, r, i, j).value in fs {
      assert UserMaps(s, r, i, j, Lookup(s, r, i, j).value);
    }
    assert PagesOn(s, r, fs) == MappedPages(s, r);
  }

  /** The heap has just the pages that it needs. */
  lemma HeapPagesAre()
    ensures (HEAP_PAGES - 1) * PAGE_SIZE < HEAP_SIZE <= HEAP_PAGES * PAGE_SIZE
  {
  }

  /** The heap starts where page_count said before its own pages were counted; the break lies in it, and all of it is mapped. */
  ghost predicate HeapOk(s: Sys, p: Pcb) {
    && p.heapBase % PAGE_SIZE == 0 && p.heapBase == (p.pageCount - HEAP_PAGES) * PAGE_SIZE
    && p.heapBase <= p.heapPointer < p.heapBase + HEAP_SIZE
    && p.heapBase + HEAP_SIZE <= USER_SLOTS * SECT_SIZE
    && (forall i, j :: 0 <= i < L1_ENTRIES && 0 <= j < L2_ENTRIES
          && p.heapBase / PAGE_SIZE <= L2_ENTRIES * i + j < p.heapBase / PAGE_SIZE + HEAP_PAGES
          ==> i < USER_SLOTS && Lookup(s.space, p.root, i, j).Some?)
  }

  /** A zombie owns nothing; heap_base is set by exec and copied by fork, and by nothing else. */
  ghost predicate ProcessOk(s: Sys, p: Pcb) {
    if p.state == ZOMBIE then p.pages == []
    else Owns(s, p) && (p.heapBase != 0 ==> Accounted(s, p) && HeapOk(s, p))
  }

  ghost predicate ProcessInv(s: Sys) {
    forall k :: 0 <= k < |s.procs| ==> ProcessOk(s, s.procs[k])
  }

  ghost predicate Inv(s: Sys) {
    TreeInv(s) && SpaceInv(s) && FrameInv(s) && ProcessInv(s)
  }
}
