/**
 * duplicate_user_space (mmu.c:449 to 508), one step at a time: the tables while a child's
 * root is being filled through the fixmap page of the parent's root.
 */
module Duplicate {
  import opened Wrappers
  import opened PageTables
  import opened Mapping
  import opened Releasing
  import opened Mmu
  import opened KernelState

  const FIX_PAGE: nat := L2_ENTRIES * FIX_SLOT + FIX_ENTRY
  const FIX_END: nat := FIX_PAGE + 1

  /** The tables hang together; one level-2 table may still be empty. */
  ghost predicate Sound(x: Space, hole: Option<nat>) {
    Shaped(x) && Unshared(x) && NoLeak(x) && DenseBut(x, hole)
  }

  /**
   * x is a plus root cr, except that root pr's fixmap slot may have a table of its own with
   * the one fixmap page; every table of a is as it was.
   */
  ghost predicate CopyShape(a: Space, x: Space, pr: nat, cr: nat, sysRoot: nat) {
    && pr in a.roots && sysRoot in a.roots && cr !in a.roots && cr in x.roots && pr in x.roots
    && |a.roots[pr]| == L1_ENTRIES && |a.roots[sysRoot]| == L1_ENTRIES && |x.roots[pr]| == L1_ENTRIES
    && x.roots == a.roots[pr := x.roots[pr]][cr := x.roots[cr]]
    && (forall i :: 0 <= i < L1_ENTRIES && i != FIX_SLOT ==> x.roots[pr][i] == a.roots[pr][i])
    && (forall t :: t in a.tables ==> t in x.tables && x.tables[t] == a.tables[t])
    && FixSlot(a, x, pr)
    && SmallPages(x, cr)
    && (forall i :: USER_SLOTS <= i < L1_ENTRIES ==> x.roots[cr][i] == a.roots[sysRoot][i])
  }

  ghost predicate Copying(a: Space, x: Space, pr: nat, cr: nat, sysRoot: nat, hole: Option<nat>) {
    Sound(x, hole) && CopyShape(a, x, pr, cr, sysRoot)
  }

  ghost predicate FixSlot(a: Space, x: Space, pr: nat)
    requires pr in x.roots && |x.roots[pr]| == L1_ENTRIES
  {
    var e := x.roots[pr][FIX_SLOT];
    e == NoL1 ||
    (&& e.Table? && e.addr !in a.tables && e.addr in x.tables && |x.tables[e.addr]| == L2_ENTRIES
     && forall j :: 0 <= j < L2_ENTRIES && j != FIX_ENTRY ==> x.tables[e.addr][j] == NoL2)
  }

  /** User pages translate in y as in x. */
  ghost predicate SameUser(x: Space, y: Space, r: nat) {
    forall i, j :: 0 <= i < USER_SLOTS && 0 <= j < L2_ENTRIES ==> Lookup(y, r, i, j) == Lookup(x, r, i, j)
  }

  /** create_mapping of the fixmap page in the parent's root. */
  lemma FixMapped(a: Space, x: Space, y: Space, pr: nat, cr: nat, sysRoot: nat, phys: nat, hole: Option<nat>)
    requires Copying(a, x, pr, cr, sysRoot, hole) && Mapped(x, y, pr, FIX_PAGE, FIX_END, phys)
    ensures Copying(a, y, pr, cr, sysRoot, hole)
    ensures y.roots[cr] == x.roots[cr] && (forall t :: t in x.tables && hole == Some(t) ==> t in y.tables)
    ensures SameUser(x, y, pr) && SameUser(x, y, cr)
    ensures y.roots[pr][FIX_SLOT].Table?
    ensures Lookup(y, pr, FIX_SLOT, FIX_ENTRY) == Some(phys / PAGE_SIZE)
  {
    MappedPage(x, y, pr, FIX_PAGE, phys, hole);
    MappedFlat(x, y, pr, FIX_PAGE, FIX_END, phys, FIX_SLOT, FIX_ENTRY);
    FixRoots(a, x, y, pr, cr, sysRoot, phys, hole);
    FixTables(a, x, y, pr, cr, sysRoot, phys, hole);
    FixViews(x, y, pr, cr, phys);
  }

  lemma FixRoots(a: Space, x: Space, y: Space, pr: nat, cr: nat, sysRoot: nat, phys: nat, hole: Option<nat>)
    requires Copying(a, x, pr, cr, sysRoot, hole) && Mapped(x, y, pr, FIX_PAGE, FIX_END, phys) && Shaped(y)
    ensures y.roots == a.roots[pr := y.roots[pr]][cr := y.roots[cr]] && y.roots[cr] == x.roots[cr]
    ensures forall i :: 0 <= i < L1_ENTRIES && i != FIX_SLOT ==> y.roots[pr][i] == x.roots[pr][i]
  {
    forall i | 0 <= i < L1_ENTRIES && i != FIX_SLOT ensures y.roots[pr][i] == x.roots[pr][i] {
      assert SlotMapped(x, y, pr, i, FIX_PAGE, FIX_END, phys);
    }
  }

  lemma FixTables(a: Space, x: Space, y: Space, pr: nat, cr: nat, sysRoot: nat, phys: nat, hole: Option<nat>)
    requires Copying(a, x, pr, cr, sysRoot, hole) && Mapped(x, y, pr, FIX_PAGE, FIX_END, phys) && Shaped(y)
    ensures forall t :: t in x.tables ==> t in y.tables
    ensures forall t :: t in a.tables ==> y.tables[t] == a.tables[t]
    ensures FixSlot(a, y, pr) && y.roots[pr][FIX_SLOT].Table?
  {
    assert SlotMapped(x, y, pr, FIX_SLOT, FIX_PAGE, FIX_END, phys);
    forall i | 0 <= i < L1_ENTRIES && ByPages(x, pr, i, FIX_PAGE, FIX_END, phys) ensures i == FIX_SLOT {
    }
  }

  lemma FixViews(x: Space, y: Space, pr: nat, cr: nat, phys: nat)
    requires Shaped(x) && Unshared(x) && Mapped(x, y, pr, FIX_PAGE, FIX_END, phys) && cr in x.roots && cr != pr
    ensures SameUser(x, y, pr) && SameUser(x, y, cr)
  {
    forall i, j | 0 <= i < USER_SLOTS && 0 <= j < L2_ENTRIES
      ensures Lookup(y, pr, i, j) == Lookup(x, pr, i, j) && Lookup(y, cr, i, j) == Lookup(x, cr, i, j)
    {
      MappedFlat(x, y, pr, FIX_PAGE, FIX_END, phys, i, j);
      MappedElsewhere(x, y, pr, FIX_PAGE, FIX_END, phys, cr, i, j);
    }
  }

  /** A table is allocated for slot i of the child; it is empty, so nothing is mapped by it yet. */
  lemma TableAdded(a: Space, x: Space, pr: nat, cr: nat, sysRoot: nat, i: nat, t: nat)
    requires Copying(a, x, pr, cr, sysRoot, None) && i < USER_SLOTS && x.roots[cr][i] == NoL1 && t !in x.tables
    ensures Copying(a, WithTable(x, cr, i, t), pr, cr, sysRoot, Some(t))
    ensures SameUser(x, WithTable(x, cr, i, t), cr) && SameUser(x, WithTable(x, cr, i, t), pr)
  {
    TableAddedSound(x, cr, i, t);
    TableAddedShape(a, x, pr, cr, sysRoot, i, t);
    TableAddedView(x, cr, i, t, pr);
  }

  lemma TableAddedView(x: Space, cr: nat, i: nat, t: nat, pr: nat)
    requires Shaped(x) && cr in x.roots && i < USER_SLOTS && x.roots[cr][i] == NoL1 && t !in x.tables && pr in x.roots
    ensures SameUser(x, WithTable(x, cr, i, t), cr) && SameUser(x, WithTable(x, cr, i, t), pr)
  {
  }

  lemma TableAddedShape(a: Space, x: Space, pr: nat, cr: nat, sysRoot: nat, i: nat, t: nat)
    requires CopyShape(a, x, pr, cr, sysRoot) && i < USER_SLOTS && t !in x.tables
    ensures CopyShape(a, WithTable(x, cr, i, t), pr, cr, sysRoot)
  {
    assert pr != cr;
  }

  lemma TableAddedUnshared(x: Space, cr: nat, i: nat, t: nat)
    requires Shaped(x) && Unshared(x) && cr in x.roots && i < USER_SLOTS && x.roots[cr][i] == NoL1 && t !in x.tables
    ensures Shaped(WithTable(x, cr, i, t)) && Unshared(WithTable(x, cr, i, t))
  {
    hide Blank;
  }

  lemma TableAddedSound(x: Space, cr: nat, i: nat, t: nat)
    requires Sound(x, None) && cr in x.roots && i < USER_SLOTS && x.roots[cr][i] == NoL1 && t !in x.tables
    ensures Sound(WithTable(x, cr, i, t), Some(t))
  {
    hide InUse;
    var y := WithTable(x, cr, i, t);
    TableAddedUnshared(x, cr, i, t);
    hide Unshared;
    forall q, m | q in y.roots && 0 <= m < L1_ENTRIES
      ensures y.roots[q][m] == if q == cr && m == i then Table(t) else x.roots[q][m]
    {
    }
    forall u | u in y.tables ensures Held(y, u) {
      if u == t {
        assert y.roots[cr][i] == Table(t);
      } else {
        assert Held(x, u);
        var q, m :| q in x.roots && 0 <= m < |x.roots[q]| && x.roots[q][m] == Table(u);
        assert y.roots[q][m] == Table(u);
      }
    }
  }

  /** Entry j of the child's slot i is written: one more page is mapped, in the child only. */
  lemma PageWritten(a: Space, x: Space, pr: nat, cr: nat, sysRoot: nat, hole: Option<nat>, i: nat, j: nat, pfn: nat)
    requires Copying(a, x, pr, cr, sysRoot, hole) && i < USER_SLOTS && j < L2_ENTRIES && x.roots[cr][i].Table?
    requires hole.Some? ==> hole == Some(x.roots[cr][i].addr)
    requires x.roots[cr][i].addr !in a.tables
    ensures var y := WithPage(x, x.roots[cr][i].addr, j, pfn);
            && Copying(a, y, pr, cr, sysRoot, None)
            && SameUser(x, y, pr)
            && (forall m, n :: 0 <= m < USER_SLOTS && 0 <= n < L2_ENTRIES ==>
                  Lookup(y, cr, m, n) == if m == i && n == j then Some(pfn) else Lookup(x, cr, m, n))
  {
    var t := x.roots[cr][i].addr;
    assert pr != cr;
    PageWrittenSound(x, t, j, pfn, hole);
    PageWrittenAlone(x, cr, i);
    PageWrittenShape(a, x, pr, cr, sysRoot, t, j, pfn);
    PageWrittenView(x, pr, cr, i, j, pfn);
  }

  lemma PageWrittenAlone(x: Space, cr: nat, i: nat)
    requires Shaped(x) && Unshared(x) && cr in x.roots && i < USER_SLOTS && x.roots[cr][i].Table?
    ensures forall q, m :: q in x.roots && 0 <= m < L1_ENTRIES && x.roots[q][m] == x.roots[cr][i] ==> q == cr && m == i
  {
  }

  lemma PageWrittenView(x: Space, pr: nat, cr: nat, i: nat, j: nat, pfn: nat)
    requires Shaped(x) && pr in x.roots && cr in x.roots && pr != cr && i < USER_SLOTS && j < L2_ENTRIES && x.roots[cr][i].Table?
    requires forall q, m :: q in x.roots && 0 <= m < L1_ENTRIES && x.roots[q][m] == x.roots[cr][i] ==> q == cr && m == i
    ensures var y := WithPage(x, x.roots[cr][i].addr, j, pfn);
            && SameUser(x, y, pr)
            && (forall m, n :: 0 <= m < USER_SLOTS && 0 <= n < L2_ENTRIES ==>
                  Lookup(y, cr, m, n) == if m == i && n == j then Some(pfn) else Lookup(x, cr, m, n))
  {
  }

  lemma PageWrittenShape(a: Space, x: Space, pr: nat, cr: nat, sysRoot: nat, t: nat, j: nat, pfn: nat)
    requires CopyShape(a, x, pr, cr, sysRoot) && t in x.tables && |x.tables[t]| == L2_ENTRIES && j < L2_ENTRIES && t !in a.tables
    requires x.roots[pr][FIX_SLOT] != Table(t)
    ensures CopyShape(a, WithPage(x, t, j, pfn), pr, cr, sysRoot)
  {
  }

  lemma PageWrittenSound(x: Space, t: nat, j: nat, pfn: nat, hole: Option<nat>)
    requires Sound(x, hole) && t in x.tables && j < L2_ENTRIES && (hole.Some? ==> hole == Some(t))
    ensures Sound(WithPage(x, t, j, pfn), None)
  {
    var y := WithPage(x, t, j, pfn);
    assert y.tables[t][j].Page?;
    forall u | u in y.tables ensures Held(y, u) {
      assert Held(x, u);
      var q, m :| q in x.roots && 0 <= m < |x.roots[q]| && x.roots[q][m] == Table(u);
      assert y.roots[q][m] == Table(u);
    }
  }

  /** No root has anything in its fixmap slot. */
  ghost predicate FixFree(a: Space) {
    Shaped(a) && forall q :: q in a.roots ==> a.roots[q][FIX_SLOT] == NoL1
  }

  /** No other root needs the fixmap table, so it may be released. */
  lemma FixReleasable(a: Space, x: Space, pr: nat, cr: nat, sysRoot: nat)
    requires Shaped(x) && CopyShape(a, x, pr, cr, sysRoot) && x.roots[pr][FIX_SLOT].Table? && FixFree(a)
    ensures Releasable(x, pr, FIX_PAGE, FIX_END)
  {
    forall i | 0 <= i < L1_ENTRIES && Partly(i, FIX_PAGE, FIX_END) ensures i == FIX_SLOT {
    }
    forall q | q in x.roots && q != pr ensures x.roots[q][FIX_SLOT] == NoL1 {
      assert q != cr ==> x.roots[q] == a.roots[q];
    }
  }

  lemma FixReleasedRoot(a: Space, x: Space, y: Space, pr: nat, cr: nat, sysRoot: nat)
    requires Shaped(x) && CopyShape(a, x, pr, cr, sysRoot) && x.roots[pr][FIX_SLOT].Table? && FixFree(a)
    requires Released(x, y, pr, FIX_PAGE, FIX_END)
    ensures y.roots == a.roots[cr := x.roots[cr]]
    ensures x.roots[pr][FIX_SLOT].addr !in y.tables
  {
    assert SlotReleased(x, y, pr, FIX_SLOT, FIX_PAGE, FIX_END);
    assert !InUse(Rest(x, pr, FIX_SLOT, FIX_PAGE, FIX_END));
    forall i | 0 <= i < L1_ENTRIES ensures y.roots[pr][i] == a.roots[pr][i] {
      assert SlotReleased(x, y, pr, i, FIX_PAGE, FIX_END);
    }
    assert |y.roots[pr]| == |a.roots[pr]|;
    assert y.roots[pr] == a.roots[pr];
  }

  /** After the final release_mapping only the child's root is new. */
  lemma FixReleased(a: Space, x: Space, y: Space, pr: nat, cr: nat, sysRoot: nat)
    requires Shaped(x) && CopyShape(a, x, pr, cr, sysRoot) && x.roots[pr][FIX_SLOT].Table? && FixFree(a)
    requires Released(x, y, pr, FIX_PAGE, FIX_END)
    ensures y == Space(a.roots[cr := x.roots[cr]], x.tables - {x.roots[pr][FIX_SLOT].addr})
  {
    var t := x.roots[pr][FIX_SLOT].addr;
    FixReleasedRoot(a, x, y, pr, cr, sysRoot);
    forall i | 0 <= i < L1_ENTRIES && Partly(i, FIX_PAGE, FIX_END) ensures i == FIX_SLOT {
    }
    assert y.tables == x.tables - {t};
  }

  /** With the fixmap released, the tables are well formed and the user space of the child is as it was. */
  lemma CopyFinished(a: Space, x: Space, pr: nat, cr: nat, sysRoot: nat)
    requires Copying(a, x, pr, cr, sysRoot, None) && FixFree(a) && x.roots[pr][FIX_SLOT].Table?
    ensures var y := Space(a.roots[cr := x.roots[cr]], x.tables - {x.roots[pr][FIX_SLOT].addr});
            WellFormed(y) && SameUser(x, y, cr)
  {
    var t := x.roots[pr][FIX_SLOT].addr;
    FixAlone(x, pr, t);
    FinishedRoots(a, x, pr, cr, sysRoot);
    FinishedSound(x, Space(a.roots[cr := x.roots[cr]], x.tables - {t}), t);
    FinishedView(x, Space(a.roots[cr := x.roots[cr]], x.tables - {t}), cr, t);
  }

  lemma FixAlone(x: Space, pr: nat, t: nat)
    requires Shaped(x) && Unshared(x) && pr in x.roots && x.roots[pr][FIX_SLOT] == Table(t)
    ensures OnlyFix(x, t)
  {
  }

  /** Table t hangs below fixmap slots only. */
  ghost predicate OnlyFix(x: Space, t: nat) {
    forall q, i :: q in x.roots && 0 <= i < |x.roots[q]| && x.roots[q][i] == Table(t) ==> i == FIX_SLOT
  }

  /** The roots are those of x, but for the fixmap slots, which are empty. */
  ghost predicate FixCleared(x: Space, roots: map<nat, seq<L1Pte>>) {
    && roots.Keys == x.roots.Keys
    && (forall q :: q in roots ==> |roots[q]| == L1_ENTRIES && |x.roots[q]| == L1_ENTRIES)
    && (forall q, i :: q in roots && 0 <= i < L1_ENTRIES ==> roots[q][i] == if i == FIX_SLOT then NoL1 else x.roots[q][i])
  }

  ghost predicate FixOnly(x: Space, t: nat) {
    forall q :: q in x.roots && |x.roots[q]| == L1_ENTRIES ==> x.roots[q][FIX_SLOT] == NoL1 || x.roots[q][FIX_SLOT] == Table(t)
  }

  lemma FinishedRoots(a: Space, x: Space, pr: nat, cr: nat, sysRoot: nat)
    requires Shaped(x) && CopyShape(a, x, pr, cr, sysRoot) && FixFree(a) && x.roots[pr][FIX_SLOT].Table?
    ensures FixCleared(x, a.roots[cr := x.roots[cr]]) && FixOnly(x, x.roots[pr][FIX_SLOT].addr)
  {
    forall q | q in x.roots && q != cr && q != pr ensures x.roots[q] == a.roots[q] {
    }
  }

  lemma FinishedSound(x: Space, y: Space, t: nat)
    requires Sound(x, None) && y.tables == x.tables - {t} && FixCleared(x, y.roots) && OnlyFix(x, t) && FixOnly(x, t)
    ensures WellFormed(y)
  {
    forall q, i | q in y.roots && 0 <= i < L1_ENTRIES && y.roots[q][i].Table?
      ensures y.roots[q][i] == x.roots[q][i] && y.roots[q][i] != Table(t)
    {
    }
    forall u | u in y.tables ensures Held(y, u) {
      assert Held(x, u);
      var q, i :| q in x.roots && 0 <= i < |x.roots[q]| && x.roots[q][i] == Table(u);
      assert y.roots[q][i] == Table(u);
    }
  }

  lemma FinishedView(x: Space, y: Space, cr: nat, t: nat)
    requires Shaped(x) && y.tables == x.tables - {t} && FixCleared(x, y.roots) && OnlyFix(x, t) && cr in x.roots
    ensures SameUser(x, y, cr)
  {
    forall i, j | 0 <= i < USER_SLOTS && 0 <= j < L2_ENTRIES ensures Lookup(y, cr, i, j) == Lookup(x, cr, i, j) {
      assert y.roots[cr][i] == x.roots[cr][i] && x.roots[cr][i] != Table(t);
    }
  }
}
