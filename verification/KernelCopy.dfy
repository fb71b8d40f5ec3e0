/** The progress of a fork: how far the parent's user space has been copied. */
module KernelCopy {
  import opened Wrappers
  import opened PageTables
  import opened Mmu
  import opened KernelState
  import opened KernelSteps
  import opened KernelFork
  import opened Duplicate

  /** Pages below n of root cr are copies, on distinct frames of fs; the others are unmapped. */
  ghost predicate Progress(a: Sys, b: Sys, pr: nat, cr: nat, fs: seq<nat>, n: nat) {
    && (forall i, j :: 0 <= i < USER_SLOTS && 0 <= j < L2_ENTRIES ==>
          if L2_ENTRIES * i + j < n then Copied(a, b, pr, cr, fs, i, j) else Lookup(b.space, cr, i, j) == None)
    && Injective(b.space, cr)
    && (forall f :: f in fs ==> exists i, j :: UserMaps(b.space, cr, i, j, f))
  }

  /** b is a with a last process whose user space is a copy, up to page n, of process k's. */
  ghost predicate CopyState(a: Sys, b: Sys, k: nat, n: nat, hole: Option<nat>) {
    && k < |a.procs| && |b.procs| == |a.procs| + 1 && b.procs[..|a.procs|] == a.procs && b.sysRoot == a.sysRoot
    && Copying(a.space, b.space, a.procs[k].root, b.procs[|a.procs|].root, a.sysRoot, hole)
    && FramesTaken(a, b, a.refcount.Keys, b.procs[|a.procs|].pages)
    && Progress(a, b, a.procs[k].root, b.procs[|a.procs|].root, b.procs[|a.procs|].pages, n)
    && (b.procs[|a.procs|].pages != [] ==> b.space.roots[a.procs[k].root][FIX_SLOT].Table?)
  }

  /** c is b after one more page, frame f copied to g at user page (i, j). */
  ghost predicate PageCopied(b: Sys, c: Sys, child: nat, pr: nat, i: nat, j: nat, f: nat, g: nat) {
    && child < |b.procs|
    && g !in b.refcount && g !in b.image && f in b.ram && f in b.refcount.Keys + b.image
    && c.procs == b.procs[child := b.procs[child].(pages := b.procs[child].pages + [g])]
    && c.refcount == b.refcount[g := 1] && c.ram == b.ram[g := b.ram[f]]
    && c.sysRoot == b.sysRoot && c.image == b.image
    && (forall m, n :: 0 <= m < USER_SLOTS && 0 <= n < L2_ENTRIES ==>
          Lookup(c.space, b.procs[child].root, m, n) == if m == i && n == j then Some(g) else Lookup(b.space, b.procs[child].root, m, n))
  }

  lemma ProgressInjective(b: Sys, c: Sys, child: nat, pr: nat, i: nat, j: nat, f: nat, g: nat, fs: seq<nat>)
    requires PageCopied(b, c, child, pr, i, j, f, g) && Injective(b.space, b.procs[child].root) && g !in fs
    requires forall m, n, h :: UserMaps(b.space, b.procs[child].root, m, n, h) ==> h in fs
    ensures Injective(c.space, b.procs[child].root)
  {
    var cr := b.procs[child].root;
    forall m: nat, n: nat, h: nat
      ensures UserMaps(c.space, cr, m, n, h) ==
              (m < USER_SLOTS && n < L2_ENTRIES && if m == i && n == j then h == g else UserMaps(b.space, cr, m, n, h))
    {
    }
  }

  /** Every frame of the list is mapped, the new one too. */
  lemma ProgressListed(b: Sys, c: Sys, child: nat, pr: nat, i: nat, j: nat, f: nat, g: nat, fs: seq<nat>)
    requires PageCopied(b, c, child, pr, i, j, f, g) && i < USER_SLOTS && j < L2_ENTRIES
    requires Lookup(b.space, b.procs[child].root, i, j) == None
    requires forall h :: h in fs ==> exists m, n :: UserMaps(b.space, b.procs[child].root, m, n, h)
    ensures forall h :: h in fs + [g] ==> exists m, n :: UserMaps(c.space, b.procs[child].root, m, n, h)
  {
    var cr := b.procs[child].root;
    forall h | h in fs + [g] ensures exists m, n :: UserMaps(c.space, cr, m, n, h) {
      if h in fs {
        var m, n :| UserMaps(b.space, cr, m, n, h);
        assert UserMaps(c.space, cr, m, n, h);
      } else {
        assert UserMaps(c.space, cr, i, j, g);
      }
    }
  }

  lemma ProgressPages(a: Sys, b: Sys, c: Sys, child: nat, pr: nat, cr: nat, i: nat, j: nat, f: nat, g: nat)
    requires child < |b.procs| && b.procs[child].root == cr && PageCopied(b, c, child, pr, i, j, f, g)
    requires i < USER_SLOTS && j < L2_ENTRIES && Lookup(a.space, pr, i, j) == Some(f)
    requires Progress(a, b, pr, cr, b.procs[child].pages, L2_ENTRIES * i + j)
    requires f in a.ram && b.ram[f] == a.ram[f] && (forall h :: h in b.procs[child].pages ==> h in b.refcount)
    ensures forall m, n :: 0 <= m < USER_SLOTS && 0 <= n < L2_ENTRIES ==>
              if L2_ENTRIES * m + n < L2_ENTRIES * i + j + 1 then Copied(a, c, pr, cr, b.procs[child].pages + [g], m, n)
              else Lookup(c.space, cr, m, n) == None
  {
    forall m, n | 0 <= m < USER_SLOTS && 0 <= n < L2_ENTRIES
      ensures if L2_ENTRIES * m + n < L2_ENTRIES * i + j + 1 then Copied(a, c, pr, cr, b.procs[child].pages + [g], m, n)
              else Lookup(c.space, cr, m, n) == None
    {
      if L2_ENTRIES * m + n < L2_ENTRIES * i + j {
        assert Copied(a, b, pr, cr, b.procs[child].pages, m, n);
      } else if L2_ENTRIES * m + n > L2_ENTRIES * i + j {
        assert Lookup(b.space, cr, m, n) == None;
      }
    }
  }

  lemma CopyAdvance(a: Sys, b: Sys, c: Sys, k: nat, i: nat, j: nat, f: nat, g: nat, hole: Option<nat>)
    requires CopyState(a, b, k, L2_ENTRIES * i + j, hole) && i < USER_SLOTS && j < L2_ENTRIES
    requires Lookup(a.space, a.procs[k].root, i, j) == Some(f) && f in a.refcount.Keys + a.image
    requires PageCopied(b, c, |a.procs|, a.procs[k].root, i, j, f, g)
    requires Copying(a.space, c.space, a.procs[k].root, b.procs[|a.procs|].root, a.sysRoot, None)
    requires c.space.roots[a.procs[k].root][FIX_SLOT].Table?
    ensures CopyState(a, c, k, L2_ENTRIES * i + j + 1, None)
  {
    var child := |a.procs|;
    var pr, cr, fs := a.procs[k].root, b.procs[child].root, b.procs[child].pages;
    FramesOneMore(a, b, c, a.refcount.Keys, fs, g);
    forall m: nat, n: nat, h: nat | UserMaps(b.space, cr, m, n, h) ensures h in fs {
      assert L2_ENTRIES * m + n < L2_ENTRIES * i + j;
      assert Copied(a, b, pr, cr, fs, m, n);
    }
    ProgressInjective(b, c, child, pr, i, j, f, g, fs);
    ProgressListed(b, c, child, pr, i, j, f, g, fs);
    ProgressPages(a, b, c, child, pr, cr, i, j, f, g);
  }

  /** A page that the parent does not map is passed over. */
  lemma CopySkip(a: Sys, b: Sys, k: nat, n: nat, m: nat, hole: Option<nat>)
    requires CopyState(a, b, k, n, hole) && n <= m
    requires forall i, j :: 0 <= i < USER_SLOTS && 0 <= j < L2_ENTRIES && n <= L2_ENTRIES * i + j < m ==>
               Lookup(a.space, a.procs[k].root, i, j) == None
    ensures CopyState(a, b, k, m, hole)
  {
    var pr, cr, fs := a.procs[k].root, b.procs[|a.procs|].root, b.procs[|a.procs|].pages;
    forall i, j | 0 <= i < USER_SLOTS && 0 <= j < L2_ENTRIES
      ensures if L2_ENTRIES * i + j < m then Copied(a, b, pr, cr, fs, i, j) else Lookup(b.space, cr, i, j) == None
    {
    }
  }

  lemma FramesKept(a: Sys, b: Sys, c: Sys, keep: set<nat>, fs: seq<nat>)
    requires FramesTaken(a, b, keep, fs) && c == b.(space := c.space)
    ensures FramesTaken(a, c, keep, fs)
  {
  }

  /** The child's user pages translate as before, so the copy stands where it stood. */
  lemma CopySameUser(a: Sys, b: Sys, c: Sys, k: nat, n: nat, hole: Option<nat>, hole': Option<nat>)
    requires CopyState(a, b, k, n, hole) && c == b.(space := c.space)
    requires SameUser(b.space, c.space, b.procs[|a.procs|].root)
    requires Copying(a.space, c.space, a.procs[k].root, b.procs[|a.procs|].root, a.sysRoot, hole')
    requires b.procs[|a.procs|].pages != [] ==> c.space.roots[a.procs[k].root][FIX_SLOT].Table?
    ensures CopyState(a, c, k, n, hole')
  {
    hide FramesTaken, Progress, Copying, SameUser;
    FramesKept(a, b, c, a.refcount.Keys, b.procs[|a.procs|].pages);
    SameProgress(a, b, c, a.procs[k].root, b.procs[|a.procs|].root, b.procs[|a.procs|].pages, n);
  }

  lemma SameProgress(a: Sys, b: Sys, c: Sys, pr: nat, cr: nat, fs: seq<nat>, n: nat)
    requires Progress(a, b, pr, cr, fs, n) && c == b.(space := c.space) && SameUser(b.space, c.space, cr)
    ensures Progress(a, c, pr, cr, fs, n)
  {
    forall i: nat, j: nat, f: nat ensures UserMaps(c.space, cr, i, j, f) == UserMaps(b.space, cr, i, j, f) {
    }
    forall f | f in fs ensures exists i, j :: UserMaps(c.space, cr, i, j, f) {
      var i, j :| UserMaps(b.space, cr, i, j, f);
      assert UserMaps(c.space, cr, i, j, f);
    }
    forall i, j | 0 <= i < USER_SLOTS && 0 <= j < L2_ENTRIES && L2_ENTRIES * i + j < n ensures Copied(a, c, pr, cr, fs, i, j) {
      assert Copied(a, b, pr, cr, fs, i, j);
    }
  }

  /** new_root_pgtable followed by pgtable_copy_kernel_area. */
  function FreshRoot(s: Space, cr: nat, sysRoot: nat): Space
    requires sysRoot in s.roots && |s.roots[sysRoot]| == L1_ENTRIES
  {
    s.(roots := s.roots[cr := KernelCopied(BlankRoot(), s.roots[sysRoot], L1_ENTRIES)])
  }

  /** The entries of y are those of s, but for root cr, which has the system root's kernel slots only. */
  ghost predicate FreshEntries(s: Space, y: Space, cr: nat, sysRoot: nat)
    requires Shaped(s) && sysRoot in s.roots && cr !in s.roots
  {
    && y.tables == s.tables && y.roots.Keys == s.roots.Keys + {cr}
    && (forall q :: q in y.roots ==> |y.roots[q]| == L1_ENTRIES)
    && (forall i :: 0 <= i < L1_ENTRIES ==> y.roots[cr][i] == if i < USER_SLOTS then NoL1 else s.roots[sysRoot][i])
    && (forall q, i :: q in s.roots && 0 <= i < L1_ENTRIES ==> y.roots[q][i] == s.roots[q][i])
  }

  lemma FreshUnshared(s: Space, y: Space, cr: nat, sysRoot: nat)
    requires Shaped(s) && Unshared(s) && sysRoot in s.roots && cr !in s.roots && FreshEntries(s, y, cr, sysRoot)
    ensures Shaped(y) && Unshared(y)
  {
    forall q, i | q in y.roots && 0 <= i < L1_ENTRIES
      ensures y.roots[q][i] == NoL1 ||
              exists u :: u in s.roots && s.roots[u][i] == y.roots[q][i] && (q != cr ==> u == q) && (q == cr ==> USER_SLOTS <= i)
    {
      if q == cr { assert USER_SLOTS <= i ==> s.roots[sysRoot][i] == y.roots[q][i]; } else { assert s.roots[q][i] == y.roots[q][i]; }
    }
  }

  lemma FreshHeld(s: Space, y: Space, cr: nat, sysRoot: nat)
    requires Shaped(s) && NoLeak(s) && sysRoot in s.roots && cr !in s.roots && FreshEntries(s, y, cr, sysRoot)
    ensures NoLeak(y)
  {
    forall t | t in y.tables ensures Held(y, t) {
      assert Held(s, t);
      var q, i :| q in s.roots && 0 <= i < |s.roots[q]| && s.roots[q][i] == Table(t);
      assert y.roots[q][i] == Table(t);
    }
  }

  lemma FreshSound(s: Space, cr: nat, sysRoot: nat)
    requires WellFormed(s) && sysRoot in s.roots && cr !in s.roots
    ensures Sound(FreshRoot(s, cr, sysRoot), None)
  {
    var y := FreshRoot(s, cr, sysRoot);
    FreshUnshared(s, y, cr, sysRoot);
    FreshHeld(s, y, cr, sysRoot);
  }

  lemma FreshShape(s: Space, cr: nat, sysRoot: nat, pr: nat)
    requires Shaped(s) && sysRoot in s.roots && cr !in s.roots && pr in s.roots && s.roots[pr][FIX_SLOT] == NoL1
    ensures CopyShape(s, FreshRoot(s, cr, sysRoot), pr, cr, sysRoot)
  {
    var y := FreshRoot(s, cr, sysRoot);
    assert y.roots[pr] == s.roots[pr];
    assert y.roots == s.roots[pr := s.roots[pr]][cr := y.roots[cr]];
  }

  /** The child before anything is copied. */
  lemma CopyStart(a: Sys, b: Sys, k: nat)
    requires SpaceInv(a) && FrameInv(a) && k < |a.procs| && a.procs[k].mainThread
    requires |b.procs| == |a.procs| + 1 && b.procs[..|a.procs|] == a.procs && b.procs[|a.procs|].pages == []
    requires b.procs[|a.procs|].root !in a.space.roots && b.space == FreshRoot(a.space, b.procs[|a.procs|].root, a.sysRoot)
    requires b.refcount == a.refcount && b.ram == a.ram && b.image == a.image && b.sysRoot == a.sysRoot
    ensures CopyState(a, b, k, 0, None)
  {
    hide Progress, Copied, UserMaps, ProcessInv, Unshared, Dense, NoLeak, CopyShape;
    var cr := b.procs[|a.procs|].root;
    FreshSound(a.space, cr, a.sysRoot);
    assert SmallPages(a.space, a.procs[k].root);
    FreshShape(a.space, cr, a.sysRoot, a.procs[k].root);
    FreshProgress(a, b, a.procs[k].root, cr);
  }

  lemma FreshProgress(a: Sys, b: Sys, pr: nat, cr: nat)
    requires a.sysRoot in a.space.roots && |a.space.roots[a.sysRoot]| == L1_ENTRIES
    requires b.space == FreshRoot(a.space, cr, a.sysRoot)
    ensures Progress(a, b, pr, cr, [], 0)
  {
    forall i, j | 0 <= i < USER_SLOTS && 0 <= j < L2_ENTRIES ensures Lookup(b.space, cr, i, j) == None {
    }
  }

  /** A slot of the child that has not been reached is empty. */
  lemma CopyAhead(a: Sys, b: Sys, k: nat, i: nat)
    requires CopyState(a, b, k, L2_ENTRIES * i, None) && i < USER_SLOTS
    ensures b.space.roots[b.procs[|a.procs|].root][i] == NoL1
  {
    var x, cr := b.space, b.procs[|a.procs|].root;
    if x.roots[cr][i].Table? {
      var c := x.tables[x.roots[cr][i].addr];
      forall j | 0 <= j < L2_ENTRIES ensures !c[j].Page? {
        assert Lookup(x, cr, i, j) == None;
      }
    }
  }

  /** The parent's entry is where it was, with the table it had. */
  lemma CopyParent(a: Sys, b: Sys, k: nat, n: nat, i: nat, hole: Option<nat>)
    requires CopyState(a, b, k, n, hole) && i < USER_SLOTS && Shaped(a.space)
    ensures k < |b.procs| && b.procs[k] == a.procs[k] && a.procs[k].root in b.space.roots && a.procs[k].root in a.space.roots
    ensures |b.space.roots[a.procs[k].root]| == L1_ENTRIES
    ensures var e := a.space.roots[a.procs[k].root][i];
            && b.space.roots[a.procs[k].root][i] == e
            && (e.Table? ==>
                  e.addr in a.space.tables && e.addr in b.space.tables && b.space.tables[e.addr] == a.space.tables[e.addr])
  {
    assert b.procs[k] == b.procs[..|a.procs|][k];
  }

  /** A level-2 table is allocated for slot i of the child. */
  lemma CopyTable(a: Sys, b: Sys, c: Sys, k: nat, i: nat, t: nat)
    requires CopyState(a, b, k, L2_ENTRIES * i, None) && i < USER_SLOTS && t !in b.space.tables
    requires b.procs[|a.procs|].root in b.space.roots && i < |b.space.roots[b.procs[|a.procs|].root]|
    requires c == b.(space := WithTable(b.space, b.procs[|a.procs|].root, i, t))
    ensures CopyState(a, c, k, L2_ENTRIES * i, Some(t)) && t !in a.space.tables
  {
    var pr, cr := a.procs[k].root, b.procs[|a.procs|].root;
    CopyAhead(a, b, k, i);
    TableAdded(a.space, b.space, pr, cr, a.sysRoot, i, t);
    assert pr != cr && c.space.roots[pr] == b.space.roots[pr];
    CopySameUser(a, b, c, k, L2_ENTRIES * i, None, Some(t));
  }

  /** What duplicate_user_space leaves. */
  ghost predicate CopyDone(a: Sys, b: Sys, k: nat) {
    && k < |a.procs| && |b.procs| == |a.procs| + 1 && b.procs[..|a.procs|] == a.procs && b.sysRoot == a.sysRoot
    && WellFormed(b.space)
    && RootAdded(a, b, b.procs[|a.procs|].root)
    && FramesTaken(a, b, a.refcount.Keys, b.procs[|a.procs|].pages)
    && UserCopied(a, b, a.procs[k].root, b.procs[|a.procs|].root, b.procs[|a.procs|].pages)
  }

  /** Something was copied, so the fixmap slot is in use. */
  lemma CopyNonEmpty(a: Sys, b: Sys, k: nat)
    requires CopyState(a, b, k, L2_ENTRIES * USER_SLOTS, None)
    requires exists i, j, f :: UserMaps(a.space, a.procs[k].root, i, j, f)
    ensures b.space.roots[a.procs[k].root][FIX_SLOT].Table?
  {
    var i, j, f :| UserMaps(a.space, a.procs[k].root, i, j, f);
    assert Copied(a, b, a.procs[k].root, b.procs[|a.procs|].root, b.procs[|a.procs|].pages, i, j);
  }

  lemma CopyRoots(a: Space, x: Space, y: Space, pr: nat, cr: nat, sysRoot: nat)
    requires Shaped(a) && Shaped(x) && CopyShape(a, x, pr, cr, sysRoot) && x.roots[pr][FIX_SLOT].Table?
    requires y == Space(a.roots[cr := x.roots[cr]], x.tables - {x.roots[pr][FIX_SLOT].addr})
    ensures forall q :: q in a.roots ==> SameView(a, y, q)
    ensures SmallPages(y, cr) && cr !in a.roots
    ensures forall i :: USER_SLOTS <= i < L1_ENTRIES ==> y.roots[cr][i] == a.roots[sysRoot][i]
  {
    forall q, i, j | q in a.roots && 0 <= i < L1_ENTRIES && 0 <= j < L2_ENTRIES ensures Lookup(y, q, i, j) == Lookup(a, q, i, j) {
      assert y.roots[q] == a.roots[q];
    }
  }

  /** The fixmap released, the copy is complete. */
  lemma CopyFinish(a: Sys, b: Sys, c: Sys, k: nat)
    requires SpaceInv(a) && CopyState(a, b, k, L2_ENTRIES * USER_SLOTS, None) && b.procs[|a.procs|].root != 0
    requires b.space.roots[a.procs[k].root][FIX_SLOT].Table?
    requires c == b.(space := c.space)
    requires c.space == Space(a.space.roots[b.procs[|a.procs|].root := b.space.roots[b.procs[|a.procs|].root]],
                              b.space.tables - {b.space.roots[a.procs[k].root][FIX_SLOT].addr})
    ensures CopyDone(a, c, k)
  {
    hide Progress, UserCopied, Copied, FramesTaken, WellFormed, SmallPages, SameView, SameUser, FixFree;
    FixFreeInv(a);
    FramesKept(a, b, c, a.refcount.Keys, b.procs[|a.procs|].pages);
    var pr, cr, fs := a.procs[k].root, b.procs[|a.procs|].root, b.procs[|a.procs|].pages;
    CopyFinished(a.space, b.space, pr, cr, a.sysRoot);
    CopyRoots(a.space, b.space, c.space, pr, cr, a.sysRoot);
    SameProgress(a, b, c, pr, cr, fs, L2_ENTRIES * USER_SLOTS);
    ProgressDone(a, c, pr, cr, fs);
  }

  lemma ProgressDone(a: Sys, b: Sys, pr: nat, cr: nat, fs: seq<nat>)
    requires Progress(a, b, pr, cr, fs, L2_ENTRIES * USER_SLOTS)
    ensures UserCopied(a, b, pr, cr, fs)
  {
  }

  /** No root uses the fixmap between system calls. */
  lemma FixFreeInv(a: Sys)
    requires SpaceInv(a)
    ensures FixFree(a.space)
  {
  }

  /** fork's last step, the child's fields, completes ForkDone. */
  lemma ForkFinish(a: Sys, b: Sys, c: Sys, k: nat)
    requires CopyDone(a, b, k) && a.procs[k].state != ZOMBIE && b.pidCurrent == a.pidCurrent + 1
    requires |c.procs| == |b.procs| && c == b.(procs := b.procs[|a.procs| := c.procs[|a.procs|]])
    requires var parent, child := a.procs[k], c.procs[|a.procs|];
             child == Pcb(a.pidCurrent, Some(parent.pid), READY, b.procs[|a.procs|].root, b.procs[|a.procs|].pages,
                          parent.pageCount, parent.stackTop, parent.heapBase, parent.heapPointer, 0, true)
    ensures ForkDone(a, c, k) && WellFormed(c.space)
  {
    var cr, fs := b.procs[|a.procs|].root, b.procs[|a.procs|].pages;
    assert c.procs == a.procs + [c.procs[|a.procs|]];
    assert forall i, j :: 0 <= i < USER_SLOTS && 0 <= j < L2_ENTRIES && Copied(a, b, a.procs[k].root, cr, fs, i, j)
             ==> Copied(a, c, a.procs[k].root, cr, fs, i, j);
  }
}
