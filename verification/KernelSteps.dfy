/**
 * What each system call does to the state, and that every one of them keeps the invariant.
 * Relations, because frames and tables come from allocators that may return any free one.
 */
module KernelSteps {
  import opened Wrappers
  import opened PageTables
  import opened KernelState
  import opened Mmu

  // Frames given back: exit.

  ghost predicate FramesFreed(a: Sys, b: Sys, fs: seq<nat>) {
    && (forall f :: f in b.refcount <==> f in a.refcount && f !in fs)
    && (forall f :: f in b.refcount ==> b.refcount[f] == a.refcount[f])
    && b.ram == a.ram - (set f | f in fs)
  }

  /** do_exit: process k is a zombie with no pages; its tables stay until it is waited for. */
  ghost predicate ExitDone(a: Sys, b: Sys, k: nat, status: int) {
    && k < |a.procs| && a.procs[k].parent.Some? && a.procs[k].state != ZOMBIE
    && FramesFreed(a, b, a.procs[k].pages)
    && b == a.(procs := a.procs[k := a.procs[k].(state := ZOMBIE, exitStatus := status, pages := [])],
               refcount := b.refcount, ram := b.ram)
  }

  /** ExitDone in terms of the fields. */
  lemma ExitIs(a: Sys, b: Sys, k: nat, status: int)
    requires ExitDone(a, b, k, status)
    ensures b.procs == a.procs[k := a.procs[k].(state := ZOMBIE, exitStatus := status, pages := [])]
    ensures forall f :: f in b.refcount <==> f in a.refcount && f !in a.procs[k].pages
    ensures forall f :: f in b.refcount ==> b.refcount[f] == a.refcount[f]
  {
  }

  /** A frame counted once is on one list only. */
  lemma OneOwner(s: Sys, k: nat, m: nat, f: nat)
    requires FrameInv(s) && k < |s.procs| && m < |s.procs| && k != m && f in s.procs[k].pages
    ensures f in s.refcount && f !in s.procs[m].pages
  {
    AllPagesHas(s.procs, k, f);
    if f in s.procs[m].pages {
      if k < m { AllPagesTwice(s.procs, k, m, f); } else { AllPagesTwice(s.procs, m, k, f); }
    }
  }

  /** No frame is twice on one list. */
  lemma ListedOnce(s: Sys, k: nat, f: nat)
    requires FrameInv(s) && k < |s.procs|
    ensures multiset(s.procs[k].pages)[f] <= 1
  {
    AllPagesHas(s.procs, k, f);
  }

  lemma TreeKept(a: Sys, b: Sys, k: nat)
    requires TreeInv(a) && k < |a.procs| && |b.procs| == |a.procs| && b.pidCurrent == a.pidCurrent
    requires forall m :: 0 <= m < |a.procs| && m != k ==> b.procs[m] == a.procs[m]
    requires b.procs[k].pid == a.procs[k].pid && b.procs[k].parent == a.procs[k].parent
    requires !b.procs[k].mainThread ==> b.procs[k].state == ZOMBIE
    requires b.procs[k].state == ZOMBIE ==> b.procs[k].parent.Some?
    ensures TreeInv(b)
  {
    assert forall m :: 0 <= m < |a.procs| ==> b.procs[m].pid == a.procs[m].pid && b.procs[m].parent == a.procs[m].parent;
    ParentsKept(a.procs, b.procs);
  }

  lemma ParentsKept(x: seq<Pcb>, y: seq<Pcb>)
    requires ParentsListed(x) && |x| == |y|
    requires forall m :: 0 <= m < |x| ==> y[m].pid == x[m].pid && y[m].parent == x[m].parent
    ensures ParentsListed(y)
  {
    forall m | 0 <= m < |y| ensures ParentBefore(y, m) {
      assert ParentBefore(x, m);
      if y[m].parent.Some? {
        var n :| 0 <= n < m && x[n].pid == x[m].parent.value;
        assert y[n].pid == y[m].parent.value;
      }
    }
  }

  lemma ExitCounts(a: Sys, b: Sys, k: nat, p: Pcb, f: nat)
    requires FrameInv(a) && k < |a.procs| && FramesFreed(a, b, a.procs[k].pages)
    requires b.procs == a.procs[k := p] && p.pages == []
    ensures AllPages(b.procs)[f] == if f in b.refcount then b.refcount[f] else 0
  {
    AllPagesUpdate(a.procs, k, p);
    AllPagesHas(a.procs, k, f);
    ListedOnce(a, k, f);
    assert f in a.procs[k].pages <==> multiset(a.procs[k].pages)[f] >= 1;
    assert (AllPages(b.procs) + multiset(a.procs[k].pages))[f] == (AllPages(a.procs) + multiset(p.pages))[f];
    assert f in a.procs[k].pages ==> f in a.refcount;
  }

  lemma ExitFrames(a: Sys, b: Sys, k: nat, p: Pcb)
    requires FrameInv(a) && k < |a.procs| && FramesFreed(a, b, a.procs[k].pages) && b.image == a.image
    requires b.procs == a.procs[k := p] && p.pages == []
    ensures FrameInv(b)
  {
    forall f: nat ensures AllPages(b.procs)[f] == if f in b.refcount then b.refcount[f] else 0 {
      ExitCounts(a, b, k, p, f);
    }
    forall f | f in a.procs[k].pages ensures f in a.refcount && f !in a.image {
      AllPagesHas(a.procs, k, f);
    }
  }

  /** Processes that a step leaves alone keep owning what they map. */
  lemma OwnKept(a: Sys, b: Sys, k: nat)
    requires ProcessInv(a) && b.space == a.space && b.image == a.image
    requires k < |a.procs| && |b.procs| == |a.procs|
    requires forall m :: 0 <= m < |a.procs| && m != k ==> b.procs[m] == a.procs[m]
    requires b.procs[k].state == ZOMBIE && b.procs[k].pages == []
    ensures ProcessInv(b)
  {
    forall m | 0 <= m < |b.procs| ensures ProcessOk(b, b.procs[m]) {
      if m != k { ProcessKept(a, b, a.procs[m]); }
    }
  }

  lemma ExitKeeps(a: Sys, b: Sys, k: nat, status: int)
    requires Inv(a) && ExitDone(a, b, k, status)
    ensures Inv(b)
  {
    ExitFrames(a, b, k, b.procs[k]);
    TreeKept(a, b, k);
    RootsKept(a, b, k);
    OwnKept(a, b, k);
  }

  lemma RootsKept(a: Sys, b: Sys, k: nat)
    requires Shaped(a.space) && RootsInv(a) && b.space == a.space && b.sysRoot == a.sysRoot
    requires k < |a.procs| && |b.procs| == |a.procs|
    requires forall m :: 0 <= m < |a.procs| && m != k ==> b.procs[m] == a.procs[m]
    requires b.procs[k].root == a.procs[k].root && b.procs[k].mainThread == a.procs[k].mainThread
    ensures RootsInv(b)
  {
    forall r | r in b.space.roots && r != b.sysRoot
      ensures exists m :: 0 <= m < |b.procs| && b.procs[m].mainThread && b.procs[m].root == r
    {
      var m :| 0 <= m < |a.procs| && a.procs[m].mainThread && a.procs[m].root == r;
      assert b.procs[m].mainThread && b.procs[m].root == r;
    }
  }

  // Heap break: sbrk.

  /** The value of an int expression: two's complement, 32 bits. */
  function Int32(x: int): int {
    (x + 0x8000_0000) % 0x1_0000_0000 - 0x8000_0000
  }

  /** req_sz in do_sbrk. */
  function HeapRequest(p: Pcb, increment: int): int {
    Int32(Int32(p.heapPointer - p.heapBase) + increment)
  }

  ghost predicate SbrkDone(a: Sys, b: Sys, k: nat, increment: int, ret: int) {
    && k < |a.procs|
    && var p := a.procs[k];
    if HeapRequest(p, increment) >= HEAP_SIZE || HeapRequest(p, increment) < 0 then ret == -1 && b == a
    else
      && ret == Int32(p.heapPointer)
      && b == a.(procs := a.procs[k := p.(heapPointer := (p.heapPointer + increment) % 0x1_0000_0000)])
  }

  /**
   * do_sbrk on a heap that exec made: despite the wrapping arithmetic, an increment is
   * granted if and only if the new break lies in the heap, and then the break moves by
   * exactly that much and the answer is, as a pointer, the break before the call. A refusal,
   * and only a refusal, answers -1.
   */
  lemma SbrkExact(a: Sys, b: Sys, k: nat, increment: int, ret: int)
    requires -0x8000_0000 <= increment < 0x8000_0000
    requires SbrkDone(a, b, k, increment, ret) && HeapOk(a, a.procs[k]) && |b.procs| == |a.procs|
    ensures var p := a.procs[k];
            var granted := p.heapBase <= p.heapPointer + increment < p.heapBase + HEAP_SIZE;
            && b == (if granted then a.(procs := a.procs[k := p.(heapPointer := p.heapPointer + increment)]) else a)
            && (granted ==> ret % 0x1_0000_0000 == p.heapPointer) && (ret == -1 <==> !granted)
    ensures HeapOk(b, b.procs[k])
  {
    var p := a.procs[k];
    SbrkArithmetic(p, increment);
    IntOfPointer(p.heapPointer);
    assert a.procs == a.procs[k := p];
    assert b.space == a.space;
  }

  lemma Int32Is(x: int)
    ensures Int32(x) % 0x1_0000_0000 == x % 0x1_0000_0000 && -0x8000_0000 <= Int32(x) < 0x8000_0000
  {
    var q := (x + 0x8000_0000) / 0x1_0000_0000;
    assert Int32(x) == x - 0x1_0000_0000 * q;
  }

  /** A pointer below the top page comes back as an int that is not -1, and is the same pointer again. */
  lemma IntOfPointer(x: nat)
    requires x < 0xFFFF_F000
    ensures Int32(x) % 0x1_0000_0000 == x && Int32(x) != -1 && -0x8000_0000 <= Int32(x) < 0x8000_0000
  {
  }

  lemma SbrkArithmetic(p: Pcb, increment: int)
    requires -0x8000_0000 <= increment < 0x8000_0000
    requires p.heapBase <= p.heapPointer < p.heapBase + HEAP_SIZE && p.heapBase + HEAP_SIZE <= USER_SLOTS * SECT_SIZE
    ensures 0 <= HeapRequest(p, increment) < HEAP_SIZE <==> p.heapBase <= p.heapPointer + increment < p.heapBase + HEAP_SIZE
    ensures p.heapBase <= p.heapPointer + increment < p.heapBase + HEAP_SIZE ==>
              (p.heapPointer + increment) % 0x1_0000_0000 == p.heapPointer + increment
  {
    var size := p.heapPointer - p.heapBase;
    assert Int32(size) == size;
    if size + increment < 0x8000_0000 {
      assert Int32(size + increment) == size + increment;
    } else {
      assert Int32(size + increment) == size + increment - 0x1_0000_0000;
    }
  }

  /** A root's user pages translate as before. */
  ghost predicate SameView(x: Space, y: Space, r: nat) {
    forall i, j :: 0 <= i < L1_ENTRIES && 0 <= j < L2_ENTRIES ==> Lookup(y, r, i, j) == Lookup(x, r, i, j)
  }

  lemma ProcessKept(a: Sys, b: Sys, p: Pcb)
    requires SameView(a.space, b.space, p.root) && b.image == a.image
    ensures ProcessOk(a, p) ==> ProcessOk(b, p)
    ensures Owns(a, p) ==> Owns(b, p)
    ensures Accounted(a, p) ==> Accounted(b, p)
  {
    forall i: nat, j: nat, f: nat ensures UserMaps(b.space, p.root, i, j, f) == UserMaps(a.space, p.root, i, j, f) {
      if i < USER_SLOTS && j < L2_ENTRIES {
        assert Lookup(b.space, p.root, i, j) == Lookup(a.space, p.root, i, j);
      }
    }
    if Accounted(a, p) { AccountedKept(a, b, p); }
    if Owns(a, p) {
      var i, j, f :| UserMaps(a.space, p.root, i, j, f);
      assert UserMaps(b.space, p.root, i, j, f);
    }
  }

  lemma AccountedKept(a: Sys, b: Sys, p: Pcb)
    requires forall i, j, f :: UserMaps(b.space, p.root, i, j, f) == UserMaps(a.space, p.root, i, j, f)
    requires Accounted(a, p)
    ensures Accounted(b, p)
  {
    forall f | f in p.pages ensures exists i, j :: UserMaps(b.space, p.root, i, j, f) {
      var i, j :| UserMaps(a.space, p.root, i, j, f);
      assert UserMaps(b.space, p.root, i, j, f);
    }
  }

  lemma FramesKept(a: Sys, b: Sys)
    requires FrameInv(a) && AllPages(b.procs) == AllPages(a.procs) && b.refcount == a.refcount && b.image == a.image
    requires b.ram.Keys == a.ram.Keys && forall f :: f in b.ram ==> |b.ram[f]| == PAGE_SIZE
    ensures FrameInv(b)
  {
  }

  lemma SbrkKeeps(a: Sys, b: Sys, k: nat, increment: int, ret: int)
    requires Inv(a) && SbrkDone(a, b, k, increment, ret) && -0x8000_0000 <= increment < 0x8000_0000
    requires a.procs[k].state != ZOMBIE
    ensures Inv(b)
  {
    if b != a {
      TreeKept(a, b, k);
      RootsKept(a, b, k);
      AllPagesSame(a.procs, k, b.procs[k]);
      FramesKept(a, b);
      forall m | 0 <= m < |b.procs| ensures ProcessOk(b, b.procs[m]) {
        SbrkProcess(a, b, k, increment, ret, m);
      }
    }
  }

  lemma SbrkProcess(a: Sys, b: Sys, k: nat, increment: int, ret: int, m: nat)
    requires ProcessInv(a) && SbrkDone(a, b, k, increment, ret) && -0x8000_0000 <= increment < 0x8000_0000
    requires m < |b.procs| == |a.procs| && a.procs[k].state != ZOMBIE
    ensures ProcessOk(b, b.procs[m])
  {
    ProcessKept(a, b, a.procs[m]);
    assert ProcessOk(a, a.procs[m]);
    if m == k && a.procs[k].heapBase != 0 {
      SbrkExact(a, b, k, increment, ret);
    }
  }

  // Stores by user code.

  function SetByte(c: seq<byte>, off: nat, v: byte): (d: seq<byte>)
    requires off < |c|
    ensures |d| == |c| && forall i :: 0 <= i < |c| ==> d[i] == if i == off then v else c[i]
  {
    c[..off] + [v] + c[off + 1..]
  }

  /** Process k stores a byte at offset off of its user page (i, j); an unmapped page faults. */
  ghost predicate StoreDone(a: Sys, b: Sys, k: nat, i: nat, j: nat, off: nat, v: byte) {
    && k < |a.procs| && a.procs[k].state != ZOMBIE && i < USER_SLOTS && j < L2_ENTRIES && off < PAGE_SIZE
    && match Lookup(a.space, a.procs[k].root, i, j)
       case None => b == a
       case Some(f) => f in a.ram && off < |a.ram[f]| && b == a.(ram := a.ram[f := SetByte(a.ram[f], off, v)])
  }

  lemma StoreKeeps(a: Sys, b: Sys, k: nat, i: nat, j: nat, off: nat, v: byte)
    requires Inv(a) && StoreDone(a, b, k, i, j, off, v)
    ensures Inv(b)
  {
    FramesKept(a, b);
    ProcessesKept(a, b);
  }

  lemma ProcessesKept(a: Sys, b: Sys)
    requires ProcessInv(a) && b.procs == a.procs && b.image == a.image && b.space == a.space
    ensures ProcessInv(b)
  {
    forall m | 0 <= m < |b.procs| ensures ProcessOk(b, b.procs[m]) {
      ProcessKept(a, b, b.procs[m]);
    }
  }

  // Reaping: wait.

  /** do_waitpid on zombie k: its tables are freed; its PCB goes unless it still has children. */
  ghost predicate WaitDone(a: Sys, b: Sys, k: nat) {
    && k < |a.procs| && a.procs[k].state == ZOMBIE && a.procs[k].mainThread && a.procs[k].root in a.space.roots
    && |a.space.roots[a.procs[k].root]| == L1_ENTRIES
    && var c := a.procs[k];
    b == a.(space := Reset(a.space, c.root, USER_SLOTS, true),
            procs := if HasChild(a.procs, c.pid) then a.procs[k := c.(mainThread := false)] else Without(a.procs, k))
  }

  /** WaitDone in terms of the list: nothing but the zombie's PCB goes, and it goes exactly if no process has it as parent. */
  lemma WaitIs(a: Sys, b: Sys, k: nat)
    requires PidsAscend(a.procs) && WaitDone(a, b, k)
    ensures var pid := a.procs[k].pid;
            && (forall q :: q in b.procs && q.pid != pid <==> q in a.procs && q.pid != pid)
            && ((exists q :: q in b.procs && q.pid == pid) <==> (exists q :: q in a.procs && q.parent == Some(pid)))
  {
    var c := a.procs[k];
    if HasChild(a.procs, c.pid) {
      assert b.procs == a.procs[k := c.(mainThread := false)];
      forall q: Pcb | q.pid != c.pid ensures q in b.procs <==> q in a.procs {
        KeptApart(a.procs, k, c.(mainThread := false), q);
      }
      assert b.procs[k] in b.procs;
    } else {
      assert a.procs == a.procs[..k] + [c] + a.procs[k + 1..];
    }
  }

  lemma KeptApart(procs: seq<Pcb>, k: nat, p: Pcb, q: Pcb)
    requires k < |procs| && q != procs[k] && q != p
    ensures q in procs[k := p] <==> q in procs
  {
    if q in procs {
      var m :| 0 <= m < |procs| && procs[m] == q;
      assert procs[k := p][m] == q;
    }
  }

  lemma WaitSpace(a: Sys, k: nat)
    requires SpaceInv(a) && k < |a.procs| && a.procs[k].mainThread
    ensures var r := a.procs[k].root; var y := Reset(a.space, r, USER_SLOTS, true);
            && WellFormed(y) && KernelShared(a.space, r)
            && y.roots == a.space.roots - {r}
            && (forall q :: q in y.roots ==> SameView(a.space, y, q))
  {
    var r := a.procs[k].root;
    forall i | USER_SLOTS <= i < L1_ENTRIES && a.space.roots[r][i].Table?
      ensures exists q :: q in a.space.roots && q != r && a.space.roots[q][i] == a.space.roots[r][i]
    {
      assert a.space.roots[a.sysRoot][i] == a.space.roots[r][i];
    }
    ResetWellFormed(a.space, r, true);
  }

  /** Unlinking a process without children keeps the list sorted and every parent on it. */
  lemma TreeRemove(a: Sys, b: Sys, k: nat)
    requires TreeInv(a) && k < |a.procs| && b.procs == Without(a.procs, k) && b.pidCurrent == a.pidCurrent
    requires 0 < k && !HasChild(a.procs, a.procs[k].pid)
    ensures TreeInv(b)
  {
    forall m | 0 <= m < |b.procs| ensures b.procs[m] == a.procs[if m < k then m else m + 1] {
    }
    ParentsRemoved(a.procs, k);
  }

  lemma ParentsRemoved(procs: seq<Pcb>, k: nat)
    requires ParentsListed(procs) && 0 < k < |procs| && !HasChild(procs, procs[k].pid)
    ensures ParentsListed(Without(procs, k))
  {
    var rest := Without(procs, k);
    forall m | 0 <= m < |rest| ensures rest[m] == procs[if m < k then m else m + 1] {
    }
    forall m | 0 <= m < |rest| ensures ParentBefore(rest, m) {
      if rest[m].parent.Some? { var n := TreeRemoveParent(procs, k, m); }
    }
  }

  lemma TreeRemoveParent(procs: seq<Pcb>, k: nat, m: nat) returns (n: nat)
    requires ParentsListed(procs) && k < |procs| && !HasChild(procs, procs[k].pid)
    requires m < |Without(procs, k)| && Without(procs, k)[m].parent.Some?
    ensures n < m && Without(procs, k)[n].pid == Without(procs, k)[m].parent.value
  {
    var m' := if m < k then m else m + 1;
    assert ParentBefore(procs, m');
    var p :| 0 <= p < m' && procs[p].pid == procs[m'].parent.value;
    assert p != k;
    n := if p < k then p else p - 1;
  }

  lemma WaitTree(a: Sys, b: Sys, k: nat)
    requires TreeInv(a) && WaitDone(a, b, k)
    ensures TreeInv(b) && 0 < k
  {
    assert ParentBefore(a.procs, k);
    if HasChild(a.procs, a.procs[k].pid) {
      TreeKept(a, b, k);
    } else {
      TreeRemove(a, b, k);
    }
  }

  lemma WaitFrames(a: Sys, b: Sys, k: nat)
    requires FrameInv(a) && ProcessInv(a) && WaitDone(a, b, k)
    ensures FrameInv(b)
  {
    assert a.procs[k].pages == [];
    if HasChild(a.procs, a.procs[k].pid) {
      AllPagesSame(a.procs, k, b.procs[k]);
    } else {
      AllPagesRemove(a.procs, k);
      assert AllPages(b.procs) + multiset{} == AllPages(b.procs);
    }
    FramesKept(a, b);
  }

  /** Where process m of the list after a wait stood before. */
  function Before(a: Sys, k: nat, m: nat): nat
    requires k < |a.procs|
  {
    if HasChild(a.procs, a.procs[k].pid) || m < k then m else m + 1
  }

  lemma WaitBefore(a: Sys, b: Sys, k: nat, m: nat)
    requires WaitDone(a, b, k) && m < |b.procs|
    ensures Before(a, k, m) < |a.procs|
    ensures if HasChild(a.procs, a.procs[k].pid) && m == k then b.procs[m] == a.procs[k].(mainThread := false)
            else Before(a, k, m) != k && b.procs[m] == a.procs[Before(a, k, m)]
  {
  }

  lemma WaitRootsSmall(a: Sys, b: Sys, k: nat)
    requires SpaceInv(a) && WaitDone(a, b, k)
    ensures forall m :: 0 <= m < |b.procs| && b.procs[m].mainThread ==>
              b.procs[m].root != b.sysRoot && b.procs[m].root != 0 && SmallPages(b.space, b.procs[m].root)
  {
    forall m | 0 <= m < |b.procs| && b.procs[m].mainThread
      ensures b.procs[m].root != b.sysRoot && b.procs[m].root != 0 && SmallPages(b.space, b.procs[m].root)
    {
      WaitBefore(a, b, k, m);
      assert SmallPages(a.space, b.procs[m].root) && b.procs[m].root in b.space.roots;
    }
  }

  lemma WaitRootsApart(a: Sys, b: Sys, k: nat)
    requires RootsInv(a) && WaitDone(a, b, k)
    ensures forall m, n :: 0 <= m < n < |b.procs| && b.procs[m].mainThread && b.procs[n].mainThread ==> b.procs[m].root != b.procs[n].root
  {
    forall m, n | 0 <= m < n < |b.procs| && b.procs[m].mainThread && b.procs[n].mainThread
      ensures b.procs[m].root != b.procs[n].root
    {
      WaitBefore(a, b, k, m);
      WaitBefore(a, b, k, n);
      assert Before(a, k, m) < Before(a, k, n);
    }
  }

  lemma WaitRoots(a: Sys, b: Sys, k: nat)
    requires SpaceInv(a) && WaitDone(a, b, k)
    ensures RootsInv(b)
  {
    WaitRootsSmall(a, b, k);
    WaitRootsApart(a, b, k);
    forall r | r in b.space.roots && r != b.sysRoot
      ensures exists m :: 0 <= m < |b.procs| && b.procs[m].mainThread && b.procs[m].root == r
    {
      var m := WaitRootsFound(a, b, k, r);
    }
  }

  lemma WaitRootsFound(a: Sys, b: Sys, k: nat, r: nat) returns (m: nat)
    requires RootsInv(a) && WaitDone(a, b, k) && r in b.space.roots && r != b.sysRoot
    ensures m < |b.procs| && b.procs[m].mainThread && b.procs[m].root == r
  {
    var n :| 0 <= n < |a.procs| && a.procs[n].mainThread && a.procs[n].root == r;
    m := if HasChild(a.procs, a.procs[k].pid) || n < k then n else n - 1;
    assert b.procs[m] == a.procs[n];
  }

  lemma WaitKeeps(a: Sys, b: Sys, k: nat)
    requires Inv(a) && WaitDone(a, b, k)
    ensures Inv(b)
  {
    WaitTree(a, b, k);
    WaitFrames(a, b, k);
    WaitRoots(a, b, k);
    WaitSpace(a, k);
    forall m | 0 <= m < |b.procs| ensures ProcessOk(b, b.procs[m]) {
      WaitProcess(a, b, k, m);
    }
  }

  lemma WaitProcess(a: Sys, b: Sys, k: nat, m: nat)
    requires TreeInv(a) && SpaceInv(a) && ProcessInv(a) && WaitDone(a, b, k)
    requires m < |b.procs|
    ensures ProcessOk(b, b.procs[m])
  {
    WaitBefore(a, b, k, m);
    WaitSpace(a, k);
    if b.procs[m].state != ZOMBIE {
      assert b.procs[m].root in b.space.roots;
      ProcessKept(a, b, b.procs[m]);
    }
  }
}
