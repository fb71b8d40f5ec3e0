/** release_mapping (mmu.c:193 to 279), and how far it undoes create_mapping. */
module Releasing {
  import opened Wrappers
  import opened PageTables
  import opened Mapping

  /** Slot i's entries once pages p0..p1 are cleared. */
  function Rest(a: Space, r: nat, i: nat, p0: nat, p1: nat): (c: seq<L2Pte>)
    requires Shaped(a) && r in a.roots && i < L1_ENTRIES
    ensures |c| == L2_ENTRIES
    ensures forall j :: 0 <= j < L2_ENTRIES ==> c[j] == if p0 <= L2_ENTRIES * i + j < p1 then NoL2 else Content(a, r, i)[j]
  {
    seq(L2_ENTRIES, j requires 0 <= j < L2_ENTRIES => if p0 <= L2_ENTRIES * i + j < p1 then NoL2 else Content(a, r, i)[j])
  }

  predicate Partly(i: nat, p0: nat, p1: nat) {
    !Outside(i, p0, p1) && !Covered(i, p0, p1)
  }

  /**
   * What free_l1_mapping leaves for one slot: a whole section's worth only drops the level-1
   * entry; otherwise the entries are cleared, and the table goes when none is left.
   */
  ghost predicate SlotFreed(a: Space, b: Space, r: nat, i: nat, p: nat, q: nat)
    requires Shaped(a) && r in a.roots && i < L1_ENTRIES
  {
    if Covered(i, p, q) then b == a.(roots := a.roots[r := a.roots[r][i := NoL1]])
    else
      && a.roots[r][i].Table?
      && var t, c := a.roots[r][i].addr, Rest(a, r, i, p, q);
      if InUse(c) then b == a.(tables := a.tables[t := c])
      else b == Space(a.roots[r := a.roots[r][i := NoL1]], a.tables - {t})
  }

  ghost predicate SlotReleased(a: Space, b: Space, r: nat, i: nat, p0: nat, p1: nat)
    requires Shaped(a) && r in a.roots && i < L1_ENTRIES
  {
    && r in b.roots && |b.roots[r]| == L1_ENTRIES
    && if Outside(i, p0, p1) then b.roots[r][i] == a.roots[r][i]
       else if Covered(i, p0, p1) then b.roots[r][i] == NoL1
       else
         && a.roots[r][i].Table?
         && var t, c := a.roots[r][i].addr, Rest(a, r, i, p0, p1);
         if InUse(c) then b.roots[r][i] == a.roots[r][i] && t in b.tables && b.tables[t] == c
         else b.roots[r][i] == NoL1 && t !in b.tables
  }

  /** release_mapping's whole effect on pages p0..p1 of root r. */
  ghost predicate Released(a: Space, b: Space, r: nat, p0: nat, p1: nat)
    requires Shaped(a)
  {
    && r in a.roots && r in b.roots
    && b.roots == a.roots[r := b.roots[r]]
    && (forall i :: 0 <= i < L1_ENTRIES ==> SlotReleased(a, b, r, i, p0, p1))
    && (forall t :: t in b.tables ==> t in a.tables)
    && (forall t :: t in a.tables && !(t in b.tables && b.tables[t] == a.tables[t]) ==>
          exists i :: 0 <= i < L1_ENTRIES && Partly(i, p0, p1) && a.roots[r][i] == Table(t))
  }

  /** A partly released slot has a level-2 table, and no other root still needs it. */
  ghost predicate Releasable(a: Space, r: nat, p0: nat, p1: nat)
    requires Shaped(a) && r in a.roots
  {
    forall i :: 0 <= i < L1_ENTRIES && Partly(i, p0, p1) ==>
      && a.roots[r][i].Table?
      && (forall q :: q in a.roots && q != r ==> a.roots[q][i] != a.roots[r][i])
  }

  lemma ReleasedStart(a: Space, r: nat, p0: nat)
    requires Shaped(a) && r in a.roots
    ensures Released(a, a, r, p0, p0)
  {
  }

  lemma ReleasedShape(a: Space, b: Space, r: nat, p0: nat, p: nat, p1: nat)
    requires Shaped(a) && Unshared(a) && p0 <= p <= p1 && Released(a, b, r, p0, p) && Releasable(a, r, p0, p1)
    requires p == p1 || p % L2_ENTRIES == 0 || p == p0
    ensures Shaped(b)
  {
    forall q | q in b.roots ensures |b.roots[q]| == L1_ENTRIES {
      assert SlotReleased(a, b, r, 0, p0, p);
      if q != r { assert b.roots[q] == a.roots[q]; }
    }
    forall t | t in b.tables ensures |b.tables[t]| == L2_ENTRIES {
      if b.tables[t] != a.tables[t] {
        var i :| 0 <= i < L1_ENTRIES && Partly(i, p0, p) && a.roots[r][i] == Table(t);
        assert SlotReleased(a, b, r, i, p0, p);
      }
    }
    forall q, i | q in b.roots && 0 <= i < L1_ENTRIES && b.roots[q][i].Table?
      ensures b.roots[q][i].addr in b.tables
    {
      ReleasedHolds(a, b, r, p0, p, p1, q, i);
    }
  }

  /** A level-1 entry that is left still finds its table. */
  lemma ReleasedHolds(a: Space, b: Space, r: nat, p0: nat, p: nat, p1: nat, q: nat, i: nat)
    requires Shaped(a) && Unshared(a) && p0 <= p <= p1 && Released(a, b, r, p0, p) && Releasable(a, r, p0, p1)
    requires p == p1 || p % L2_ENTRIES == 0 || p == p0
    requires q in b.roots && i < L1_ENTRIES && i < |b.roots[q]| && b.roots[q][i].Table?
    ensures b.roots[q][i].addr in b.tables && b.roots[q][i] == a.roots[q][i]
  {
    hide Rest, InUse;
    assert SlotReleased(a, b, r, i, p0, p);
    if q != r { assert b.roots[q] == a.roots[q]; }
    var t := b.roots[q][i].addr;
    assert forall k :: 0 <= k < L1_ENTRIES && Partly(k, p0, p) ==> SlotReleased(a, b, r, k, p0, p);
    assert forall k :: 0 <= k < L1_ENTRIES && Partly(k, p0, p) && a.roots[r][k] == Table(t) ==> k == i;
  }

  /** The content of a slot that release_mapping has not reached is still the original one. */
  lemma ReleasedContent(a: Space, b: Space, r: nat, p0: nat, p: nat, i: nat)
    requires Shaped(a) && Unshared(a) && Released(a, b, r, p0, p) && Shaped(b)
    requires i < L1_ENTRIES && Outside(i, p0, p)
    ensures b.roots[r][i] == a.roots[r][i] && Content(b, r, i) == Content(a, r, i)
  {
    assert SlotReleased(a, b, r, i, p0, p);
  }

  lemma ReleaseStepOther(a: Space, b: Space, c: Space, r: nat, p0: nat, p: nat, q: nat, i: nat, k: nat)
    requires Shaped(a) && Unshared(a) && Released(a, b, r, p0, p) && Shaped(b)
    requires i < L1_ENTRIES && p0 <= p && L2_ENTRIES * i <= p < q <= L2_ENTRIES * i + L2_ENTRIES && (p == p0 || p == L2_ENTRIES * i)
    requires SlotFreed(b, c, r, i, p, q) && k < L1_ENTRIES && k != i
    ensures SlotReleased(a, c, r, k, p0, q)
  {
    assert SlotReleased(a, b, r, k, p0, p);
    assert SlotReleased(a, b, r, i, p0, p);
    assert Rest(a, r, k, p0, p) == Rest(a, r, k, p0, q);
  }

  lemma ReleaseStepSlot(a: Space, b: Space, c: Space, r: nat, p0: nat, p: nat, q: nat, i: nat)
    requires Shaped(a) && Unshared(a) && Released(a, b, r, p0, p) && Shaped(b)
    requires i < L1_ENTRIES && p0 <= p && L2_ENTRIES * i <= p < q <= L2_ENTRIES * i + L2_ENTRIES && (p == p0 || p == L2_ENTRIES * i)
    requires SlotFreed(b, c, r, i, p, q)
    ensures SlotReleased(a, c, r, i, p0, q)
  {
    ReleasedContent(a, b, r, p0, p, i);
    assert Rest(b, r, i, p, q) == Rest(a, r, i, p0, q);
  }

  lemma ReleaseStepTables(a: Space, b: Space, c: Space, r: nat, p0: nat, p: nat, q: nat, i: nat)
    requires Shaped(a) && Unshared(a) && Released(a, b, r, p0, p) && Shaped(b)
    requires i < L1_ENTRIES && p0 <= p && L2_ENTRIES * i <= p < q <= L2_ENTRIES * i + L2_ENTRIES && (p == p0 || p == L2_ENTRIES * i)
    requires SlotFreed(b, c, r, i, p, q)
    ensures forall t :: t in c.tables ==> t in a.tables
    ensures forall t :: t in a.tables && !(t in c.tables && c.tables[t] == a.tables[t]) ==>
              exists k :: 0 <= k < L1_ENTRIES && Partly(k, p0, q) && a.roots[r][k] == Table(t)
  {
    ReleasedContent(a, b, r, p0, p, i);
    forall t | t in a.tables && !(t in c.tables && c.tables[t] == a.tables[t])
      ensures exists k :: 0 <= k < L1_ENTRIES && Partly(k, p0, q) && a.roots[r][k] == Table(t)
    {
      if t in b.tables && b.tables[t] == a.tables[t] {
        assert Partly(i, p0, q) && a.roots[r][i] == Table(t);
      } else {
        var k :| 0 <= k < L1_ENTRIES && Partly(k, p0, p) && a.roots[r][k] == Table(t);
        assert Partly(k, p0, q);
      }
    }
  }

  /** One round of release_mapping's loop. */
  lemma ReleaseStep(a: Space, b: Space, c: Space, r: nat, p0: nat, p: nat, q: nat, i: nat)
    requires Shaped(a) && Unshared(a) && Released(a, b, r, p0, p) && Shaped(b)
    requires i < L1_ENTRIES && p0 <= p && L2_ENTRIES * i <= p < q <= L2_ENTRIES * i + L2_ENTRIES && (p == p0 || p == L2_ENTRIES * i)
    requires SlotFreed(b, c, r, i, p, q)
    ensures Released(a, c, r, p0, q)
  {
    forall k | 0 <= k < L1_ENTRIES ensures SlotReleased(a, c, r, k, p0, q) {
      if k == i { ReleaseStepSlot(a, b, c, r, p0, p, q, i); } else { ReleaseStepOther(a, b, c, r, p0, p, q, i, k); }
    }
    ReleaseStepTables(a, b, c, r, p0, p, q, i);
  }

  /** release_mapping removes exactly the pages of its range from the flat map. */
  lemma ReleasedFlat(a: Space, b: Space, r: nat, p0: nat, p1: nat, i: nat, j: nat)
    requires Shaped(a) && Unshared(a) && Released(a, b, r, p0, p1) && Releasable(a, r, p0, p1) && p0 <= p1
    requires i < L1_ENTRIES && j < L2_ENTRIES
    ensures Lookup(b, r, i, j) == if p0 <= L2_ENTRIES * i + j < p1 then None else Lookup(a, r, i, j)
  {
    assert SlotReleased(a, b, r, i, p0, p1);
    if Outside(i, p0, p1) {
      ReleasedShape(a, b, r, p0, p1, p1);
      ReleasedContent(a, b, r, p0, p1, i);
    } else if Partly(i, p0, p1) {
      var c := Rest(a, r, i, p0, p1);
      assert c[j].Page? ==> InUse(c);
    }
  }

  /** Every level-2 table behind a wholly released slot is still some other root's. */
  ghost predicate CoveredSpare(a: Space, r: nat, p0: nat, p1: nat)
    requires Shaped(a) && r in a.roots
  {
    forall i :: 0 <= i < L1_ENTRIES && Covered(i, p0, p1) && a.roots[r][i].Table? ==> HeldElsewhere(a, r, i)
  }

  /** An entry that is left is an old one; one of root r lies in a slot that is not wholly released. */
  lemma ReleasedEntry(a: Space, b: Space, r: nat, p0: nat, p1: nat, q: nat, i: nat)
    requires Shaped(a) && Released(a, b, r, p0, p1) && q in b.roots && i < L1_ENTRIES
    ensures q in a.roots && |b.roots[q]| == L1_ENTRIES && (b.roots[q][i] == NoL1 || b.roots[q][i] == a.roots[q][i])
    ensures q == r && !Outside(i, p0, p1) && Covered(i, p0, p1) ==> b.roots[q][i] == NoL1
  {
    hide Rest, InUse;
    assert SlotReleased(a, b, r, i, p0, p1);
    if q != r { assert b.roots[q] == a.roots[q]; }
  }

  lemma ReleasedUnshared(a: Space, b: Space, r: nat, p0: nat, p1: nat)
    requires Shaped(a) && Unshared(a) && Released(a, b, r, p0, p1) && Shaped(b)
    ensures Unshared(b)
  {
    hide Released;
    forall q, i, u, j | q in b.roots && u in b.roots && 0 <= i < L1_ENTRIES && 0 <= j < L1_ENTRIES
                        && b.roots[q][i].Table? && b.roots[u][j] == b.roots[q][i]
      ensures i == j && (q == u || USER_SLOTS <= i)
    {
      ReleasedEntry(a, b, r, p0, p1, q, i);
      ReleasedEntry(a, b, r, p0, p1, u, j);
    }
  }

  lemma ReleasedDense(a: Space, b: Space, r: nat, p0: nat, p1: nat)
    requires Shaped(a) && Dense(a) && Released(a, b, r, p0, p1)
    ensures Dense(b)
  {
    forall t | t in b.tables ensures InUse(b.tables[t]) {
      if b.tables[t] != a.tables[t] {
        var i :| 0 <= i < L1_ENTRIES && Partly(i, p0, p1) && a.roots[r][i] == Table(t);
        assert SlotReleased(a, b, r, i, p0, p1);
      }
    }
  }

  /** A table that is left is still held, if a wholly released slot held it last nowhere. */
  lemma ReleasedHeld(a: Space, b: Space, r: nat, p0: nat, p1: nat, t: nat)
    requires Shaped(a) && Unshared(a) && Released(a, b, r, p0, p1) && Releasable(a, r, p0, p1) && p0 < p1
    requires CoveredSpare(a, r, p0, p1) && t in b.tables && Held(a, t)
    ensures Held(b, t)
  {
    hide Rest, InUse;
    var q, k :| q in a.roots && 0 <= k < |a.roots[q]| && a.roots[q][k] == Table(t);
    assert SlotReleased(a, b, r, k, p0, p1);
    if q != r {
      assert b.roots[q][k] == Table(t);
    } else if Covered(k, p0, p1) {
      assert HeldElsewhere(a, r, k);
      var u :| u in a.roots && u != r && a.roots[u][k] == a.roots[r][k];
      assert b.roots[u][k] == Table(t);
    } else {
      assert b.roots[r][k] == Table(t);
    }
  }

  lemma ReleasedSpare(a: Space, b: Space, r: nat, p0: nat, p1: nat, i: nat)
    requires Shaped(a) && Unshared(a) && Released(a, b, r, p0, p1) && NoLeak(b) && p0 < p1
    requires i < L1_ENTRIES && Covered(i, p0, p1) && a.roots[r][i].Table?
    ensures HeldElsewhere(a, r, i)
  {
    hide Rest, InUse, SlotReleased, NoLeak;
    var t := a.roots[r][i].addr;
    assert forall k :: 0 <= k < L1_ENTRIES && Partly(k, p0, p1) && a.roots[r][k] == Table(t) ==> k == i;
    NoLeakAt(b, t);
    var q, k :| q in b.roots && 0 <= k < |b.roots[q]| && b.roots[q][k] == Table(t);
    ReleasedEntry(a, b, r, p0, p1, q, 0);
    ReleasedEntry(a, b, r, p0, p1, q, k);
    assert a.roots[q][k] == a.roots[r][i];
  }

  /**
   * What release_mapping does to well-formed tables: they stay so if and only if every level-2
   * table behind a wholly released slot is still another root's.
   */
  lemma ReleasedWellFormed(a: Space, b: Space, r: nat, p0: nat, p1: nat)
    requires WellFormed(a) && p0 < p1 && r in a.roots && Releasable(a, r, p0, p1) && Released(a, b, r, p0, p1)
    ensures WellFormed(b) <==> CoveredSpare(a, r, p0, p1)
  {
    hide Released, Releasable, Unshared;
    ReleasedShape(a, b, r, p0, p1, p1);
    ReleasedUnshared(a, b, r, p0, p1);
    ReleasedDense(a, b, r, p0, p1);
    if CoveredSpare(a, r, p0, p1) {
      forall t | t in b.tables ensures Held(b, t) {
        ReleasedTable(a, b, r, p0, p1, t);
        ReleasedHeld(a, b, r, p0, p1, t);
      }
    }
    if NoLeak(b) {
      forall i | 0 <= i < L1_ENTRIES && Covered(i, p0, p1) && a.roots[r][i].Table? ensures HeldElsewhere(a, r, i) {
        ReleasedSpare(a, b, r, p0, p1, i);
      }
    }
  }

  lemma ReleasedTable(a: Space, b: Space, r: nat, p0: nat, p1: nat, t: nat)
    requires Shaped(a) && NoLeak(a) && Released(a, b, r, p0, p1) && t in b.tables
    ensures Held(a, t)
  {
  }

  // Mapping, then releasing.

  predicate CoversASlot(p0: nat, p1: nat) {
    exists i :: 0 <= i < L1_ENTRIES && Covered(i, p0, p1)
  }

  /** The case in which the pair of calls loses level-2 tables. */
  predicate Leaks(p0: nat, p1: nat, phys: nat) {
    CoversASlot(p0, p1) && (phys - p0 * PAGE_SIZE) % SECT_SIZE != 0
  }

  ghost predicate Unmapped(a: Space, r: nat, p0: nat, p1: nat) {
    forall i, j :: 0 <= i < L1_ENTRIES && 0 <= j < L2_ENTRIES && p0 <= L2_ENTRIES * i + j < p1 ==> Lookup(a, r, i, j) == None
  }

  /** A partly covered slot gets back its entry and its table. */
  lemma UndoPartly(a: Space, b: Space, c: Space, r: nat, p0: nat, p1: nat, phys: nat, i: nat)
    requires Shaped(a) && Dense(a) && Mapped(a, b, r, p0, p1, phys) && Shaped(b) && Released(b, c, r, p0, p1)
    requires Unmapped(a, r, p0, p1) && i < L1_ENTRIES && Partly(i, p0, p1)
    ensures |c.roots[r]| == L1_ENTRIES && c.roots[r][i] == a.roots[r][i]
    ensures a.roots[r][i].Table? ==> var t := a.roots[r][i].addr; t in c.tables && c.tables[t] == a.tables[t]
    ensures a.roots[r][i].NoL1? ==> b.roots[r][i].Table? && b.roots[r][i].addr !in c.tables
  {
    assert SlotMapped(a, b, r, i, p0, p1, phys) && SlotReleased(b, c, r, i, p0, p1);
    var d, e := Content(a, r, i), Rest(b, r, i, p0, p1);
    var k := if p0 <= L2_ENTRIES * i then 0 else p0 - L2_ENTRIES * i;
    assert Lookup(a, r, i, k) == None;
    assert !a.roots[r][i].Section?;
    forall j | 0 <= j < L2_ENTRIES ensures d[j] == e[j] {
      if p0 <= L2_ENTRIES * i + j < p1 { assert Lookup(a, r, i, j) == None; }
    }
    assert d == e;
  }

  /** A wholly covered slot was empty and is empty again. */
  lemma UndoCovered(a: Space, b: Space, c: Space, r: nat, p0: nat, p1: nat, i: nat)
    requires Shaped(a) && Dense(a) && r in a.roots && Shaped(b) && Released(b, c, r, p0, p1)
    requires Unmapped(a, r, p0, p1) && i < L1_ENTRIES && Covered(i, p0, p1)
    ensures |c.roots[r]| == L1_ENTRIES && c.roots[r][i] == a.roots[r][i] == NoL1
  {
    assert SlotReleased(b, c, r, i, p0, p1);
    assert Lookup(a, r, i, 0) == None;
    if a.roots[r][i].Table? {
      var d := a.tables[a.roots[r][i].addr];
      forall m | 0 <= m < L2_ENTRIES ensures !d[m].Page? {
        assert Lookup(a, r, i, m) == None;
      }
    }
  }

  /** Every level-1 entry comes back, in every case. */
  lemma UndoRoots(a: Space, b: Space, c: Space, r: nat, p0: nat, p1: nat, phys: nat)
    requires Shaped(a) && Unshared(a) && Dense(a) && Mapped(a, b, r, p0, p1, phys) && Shaped(b) && Released(b, c, r, p0, p1)
    requires Unmapped(a, r, p0, p1)
    ensures c.roots == a.roots
  {
    assert SlotReleased(b, c, r, 0, p0, p1);
    forall i | 0 <= i < L1_ENTRIES ensures c.roots[r][i] == a.roots[r][i] {
      if Partly(i, p0, p1) {
        UndoPartly(a, b, c, r, p0, p1, phys, i);
      } else if !Outside(i, p0, p1) {
        UndoCovered(a, b, c, r, p0, p1, i);
      } else {
        assert SlotMapped(a, b, r, i, p0, p1, phys) && SlotReleased(b, c, r, i, p0, p1);
      }
    }
    assert |a.roots[r]| == |c.roots[r]|;
    assert c.roots[r] == a.roots[r];
    assert c.roots == a.roots[r := a.roots[r]];
  }

  /** A table that was there before is there afterwards, with its content. */
  lemma UndoOld(a: Space, b: Space, c: Space, r: nat, p0: nat, p1: nat, phys: nat, t: nat)
    requires Shaped(a) && Unshared(a) && Dense(a) && Mapped(a, b, r, p0, p1, phys) && Shaped(b) && Released(b, c, r, p0, p1)
    requires Unmapped(a, r, p0, p1) && t in a.tables
    ensures t in c.tables && c.tables[t] == a.tables[t]
  {
    if b.tables[t] != a.tables[t] {
      var i :| 0 <= i < L1_ENTRIES && ByPages(a, r, i, p0, p1, phys) && a.roots[r][i] == Table(t);
      UndoSlotOld(a, b, c, r, p0, p1, phys, i);
    } else if !(t in c.tables && c.tables[t] == b.tables[t]) {
      var k :| 0 <= k < L1_ENTRIES && Partly(k, p0, p1) && b.roots[r][k] == Table(t);
      assert SlotMapped(a, b, r, k, p0, p1, phys);
      UndoSlotOld(a, b, c, r, p0, p1, phys, k);
    }
  }

  lemma UndoSlotOld(a: Space, b: Space, c: Space, r: nat, p0: nat, p1: nat, phys: nat, i: nat)
    requires Shaped(a) && Dense(a) && Mapped(a, b, r, p0, p1, phys) && Shaped(b) && Released(b, c, r, p0, p1)
    requires Unmapped(a, r, p0, p1) && i < L1_ENTRIES && !Outside(i, p0, p1) && a.roots[r][i].Table?
    ensures var t := a.roots[r][i].addr; t in c.tables && c.tables[t] == a.tables[t]
  {
    if Partly(i, p0, p1) {
      UndoPartly(a, b, c, r, p0, p1, phys, i);
    } else {
      UndoCovered(a, b, c, r, p0, p1, i);
    }
  }

  /** A new table outlives the release exactly when its slot is wholly covered. */
  lemma UndoNew(a: Space, b: Space, c: Space, r: nat, p0: nat, p1: nat, phys: nat, t: nat)
    requires Shaped(a) && Unshared(a) && Dense(a) && Mapped(a, b, r, p0, p1, phys) && Shaped(b) && Released(b, c, r, p0, p1)
    requires Unmapped(a, r, p0, p1) && t in c.tables && t !in a.tables
    ensures Leaks(p0, p1, phys)
  {
    var i :| 0 <= i < |b.roots[r]| && ByPages(a, r, i, p0, p1, phys) && b.roots[r][i] == Table(t);
    assert SlotMapped(a, b, r, i, p0, p1, phys);
    if Partly(i, p0, p1) {
      UndoPartly(a, b, c, r, p0, p1, phys, i);
    } else {
      assert Covered(i, p0, p1);
      SlotAlignment(i, p0, phys);
    }
  }

  lemma SlotAlignment(i: nat, p0: nat, phys: nat)
    requires p0 <= L2_ENTRIES * i
    ensures (phys + (L2_ENTRIES * i - p0) * PAGE_SIZE) % SECT_SIZE == (phys - p0 * PAGE_SIZE) % SECT_SIZE
  {
    assert phys + (L2_ENTRIES * i - p0) * PAGE_SIZE == (phys - p0 * PAGE_SIZE) + SECT_SIZE * i;
  }

  /** In the leaking case some new table is still allocated. */
  lemma UndoLeak(a: Space, b: Space, c: Space, r: nat, p0: nat, p1: nat, phys: nat)
    requires Shaped(a) && Unshared(a) && Dense(a) && Mapped(a, b, r, p0, p1, phys) && Shaped(b) && Unshared(b) && Released(b, c, r, p0, p1)
    requires Unmapped(a, r, p0, p1) && p0 < p1 && Leaks(p0, p1, phys)
    ensures exists t :: t in c.tables && t !in a.tables
  {
    var i :| 0 <= i < L1_ENTRIES && Covered(i, p0, p1);
    SlotAlignment(i, p0, phys);
    UndoCovered(a, b, c, r, p0, p1, i);
    assert SlotMapped(a, b, r, i, p0, p1, phys);
    var t := b.roots[r][i].addr;
    assert t !in a.tables;
    forall k | 0 <= k < L1_ENTRIES && Partly(k, p0, p1) ensures b.roots[r][k] != Table(t) {
    }
  }

  /**
   * Releasing undoes mapping: for a range that was not mapped, create_mapping followed by
   * release_mapping gives back every level-1 entry of every root, and the very set of
   * level-2 tables with their contents, if and only if the range covers no whole 1 MB slot or
   * starts at the same offset in a section as its frames. Otherwise the tables of the covered
   * slots are lost (mmu.c:233 to 242 drops the level-1 entry without freeing them).
   */
  lemma ReleaseUndoesMapping(a: Space, b: Space, c: Space, r: nat, p0: nat, p1: nat, phys: nat)
    requires WellFormed(a) && p0 < p1 && Unmapped(a, r, p0, p1)
    requires Mapped(a, b, r, p0, p1, phys) && Shaped(b) && Released(b, c, r, p0, p1)
    ensures c.roots == a.roots
    ensures forall t :: t in a.tables ==> t in c.tables && c.tables[t] == a.tables[t]
    ensures c.tables.Keys == a.tables.Keys <==> !Leaks(p0, p1, phys)
    ensures c == a <==> !Leaks(p0, p1, phys)
  {
    UndoRoots(a, b, c, r, p0, p1, phys);
    forall t | t in a.tables ensures t in c.tables && c.tables[t] == a.tables[t] {
      UndoOld(a, b, c, r, p0, p1, phys, t);
    }
    forall t | t in c.tables && t !in a.tables ensures Leaks(p0, p1, phys) {
      UndoNew(a, b, c, r, p0, p1, phys, t);
    }
    if Leaks(p0, p1, phys) {
      MappedUnshared(a, b, r, p0, p1, phys);
      UndoLeak(a, b, c, r, p0, p1, phys);
    } else {
      assert c.tables == a.tables;
    }
  }
}
