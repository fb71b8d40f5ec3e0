/** create_mapping (mmu.c:75 to 190): what it does to the tables, and what that means for the flat map. */
module Mapping {
  import opened Wrappers
  import opened PageTables

  /** alloc_init_section's test: address, end and physical address all on a 1 MB boundary. */
  predicate SectionFits(addr: nat, end: nat, phys: nat) {
    addr % SECT_SIZE == 0 && end % SECT_SIZE == 0 && phys % SECT_SIZE == 0
  }

  function Filled(c: seq<L2Pte>, lo: nat, hi: nat, pfn: nat): (d: seq<L2Pte>)
    requires |c| == L2_ENTRIES && lo <= hi <= L2_ENTRIES
    ensures |d| == L2_ENTRIES
    ensures forall j :: 0 <= j < L2_ENTRIES ==> d[j] == if lo <= j < hi then Page(pfn + j - lo) else c[j]
  {
    seq(L2_ENTRIES, j requires 0 <= j < L2_ENTRIES => if lo <= j < hi then Page(pfn + j - lo) else c[j])
  }

  function Blank(): (c: seq<L2Pte>)
    ensures |c| == L2_ENTRIES && forall j :: 0 <= j < L2_ENTRIES ==> c[j] == NoL2
  {
    seq(L2_ENTRIES, _ => NoL2)
  }

  function Content(s: Space, r: nat, i: nat): (c: seq<L2Pte>)
    requires Shaped(s) && r in s.roots && i < L1_ENTRIES
    ensures |c| == L2_ENTRIES
  {
    if s.roots[r][i].Table? then s.tables[s.roots[r][i].addr] else Blank()
  }

  /** What alloc_init_pte leaves: entries lo..hi of the slot's table t, allocated if there was none. */
  ghost predicate PagesSet(a: Space, b: Space, r: nat, i: nat, lo: nat, hi: nat, pfn: nat, t: nat)
    requires Shaped(a) && r in a.roots && i < L1_ENTRIES && lo <= hi <= L2_ENTRIES
  {
    && (a.roots[r][i] == Table(t) || (a.roots[r][i] == NoL1 && t !in a.tables))
    && b == Space(a.roots[r := a.roots[r][i := Table(t)]],
                  a.tables[t := Filled(Content(a, r, i), lo, hi, pfn)])
  }

  /** What alloc_init_section leaves for one slot. */
  ghost predicate SlotSet(a: Space, b: Space, r: nat, i: nat, lo: nat, hi: nat, phys: nat)
    requires Shaped(a) && r in a.roots && i < L1_ENTRIES && lo <= hi <= L2_ENTRIES
  {
    if lo == 0 && hi == L2_ENTRIES && phys % SECT_SIZE == 0 then
      b == a.(roots := a.roots[r := a.roots[r][i := Section(phys / SECT_SIZE)]])
    else
      TableSet(a, b, r, i, lo, hi, phys / PAGE_SIZE)
  }

  ghost predicate TableSet(a: Space, b: Space, r: nat, i: nat, lo: nat, hi: nat, pfn: nat)
    requires Shaped(a) && r in a.roots && i < L1_ENTRIES && lo <= hi <= L2_ENTRIES
  {
    exists t :: PagesSet(a, b, r, i, lo, hi, pfn, t)
  }

  predicate Outside(i: nat, p0: nat, p1: nat) {
    p1 <= p0 || L2_ENTRIES * i + L2_ENTRIES <= p0 || p1 <= L2_ENTRIES * i
  }

  predicate Covered(i: nat, p0: nat, p1: nat) {
    p0 <= L2_ENTRIES * i && L2_ENTRIES * i + L2_ENTRIES <= p1
  }

  /** Slot i gets a section: wholly covered, and the frame that falls on it starts a section. */
  predicate BySection(i: nat, p0: nat, p1: nat, phys: nat) {
    Covered(i, p0, p1) && (phys + (L2_ENTRIES * i - p0) * PAGE_SIZE) % SECT_SIZE == 0
  }

  ghost predicate SlotMapped(a: Space, b: Space, r: nat, i: nat, p0: nat, p1: nat, phys: nat)
    requires Shaped(a) && r in a.roots && i < L1_ENTRIES
  {
    && r in b.roots && |b.roots[r]| == L1_ENTRIES
    && var e := b.roots[r][i];
    if Outside(i, p0, p1) then e == a.roots[r][i]
    else if BySection(i, p0, p1, phys) then
      e == Section((phys + (L2_ENTRIES * i - p0) * PAGE_SIZE) / SECT_SIZE)
    else
      && e.Table? && e.addr in b.tables && |b.tables[e.addr]| == L2_ENTRIES
      && (a.roots[r][i] == e || (a.roots[r][i] == NoL1 && e.addr !in a.tables))
      && (forall j :: 0 <= j < L2_ENTRIES ==>
            b.tables[e.addr][j] ==
            if p0 <= L2_ENTRIES * i + j < p1 then Page(phys / PAGE_SIZE + (L2_ENTRIES * i + j - p0))
            else Content(a, r, i)[j])
  }

  /** Slot i of root r keeps or gets a level-2 table when pages p0..p1 are mapped. */
  ghost predicate ByPages(a: Space, r: nat, i: nat, p0: nat, p1: nat, phys: nat) {
    r in a.roots && i < |a.roots[r]| && !Outside(i, p0, p1) && !BySection(i, p0, p1, phys)
  }

  /** create_mapping's whole effect: b is a after mapping pages p0..p1 of root r to phys onwards. */
  ghost predicate Mapped(a: Space, b: Space, r: nat, p0: nat, p1: nat, phys: nat)
    requires Shaped(a)
  {
    && r in a.roots && r in b.roots
    && b.roots == a.roots[r := b.roots[r]]
    && (forall i :: 0 <= i < L1_ENTRIES ==> SlotMapped(a, b, r, i, p0, p1, phys))
    && (forall t :: t in a.tables ==> t in b.tables)
    && (forall t :: t in a.tables && b.tables[t] != a.tables[t] ==>
          exists i :: 0 <= i < L1_ENTRIES && ByPages(a, r, i, p0, p1, phys) && a.roots[r][i] == Table(t))
    && (forall t :: t in b.tables && t !in a.tables ==>
          exists i :: 0 <= i < |b.roots[r]| && ByPages(a, r, i, p0, p1, phys) && b.roots[r][i] == Table(t))
  }

  /** A page-granular part of the range must not land on an existing section. */
  ghost predicate Mappable(a: Space, r: nat, p0: nat, p1: nat, phys: nat)
    requires Shaped(a) && r in a.roots
  {
    forall i :: 0 <= i < L1_ENTRIES && a.roots[r][i].Section? ==>
      Outside(i, p0, p1) || BySection(i, p0, p1, phys)
  }

  lemma MappedShape(a: Space, b: Space, r: nat, p0: nat, p1: nat, phys: nat)
    requires Shaped(a) && Mapped(a, b, r, p0, p1, phys)
    ensures Shaped(b)
  {
    assert SlotMapped(a, b, r, 0, p0, p1, phys);
    forall q, i | q in b.roots && 0 <= i < L1_ENTRIES && b.roots[q][i].Table?
      ensures b.roots[q][i].addr in b.tables
    {
      if q == r { assert SlotMapped(a, b, r, i, p0, p1, phys); } else { assert b.roots[q] == a.roots[q]; }
    }
    forall t | t in b.tables ensures |b.tables[t]| == L2_ENTRIES {
      if t !in a.tables || b.tables[t] != a.tables[t] {
        var i :| 0 <= i < L1_ENTRIES && ByPages(a, r, i, p0, p1, phys) && (b.roots[r][i] == Table(t) || a.roots[r][i] == Table(t));
        assert SlotMapped(a, b, r, i, p0, p1, phys);
      }
    }
    forall q | q in b.roots ensures |b.roots[q]| == L1_ENTRIES {
      if q != r { assert b.roots[q] == a.roots[q]; }
    }
  }

  /** Nothing is mapped yet: the start of create_mapping's loop. */
  lemma MappedStart(a: Space, r: nat, p0: nat, phys: nat)
    requires Shaped(a) && r in a.roots
    ensures Mapped(a, a, r, p0, p0, phys)
  {
  }

  /** The content of a slot that create_mapping has not reached is still the original one. */
  lemma MappedContent(a: Space, b: Space, r: nat, p0: nat, p: nat, phys: nat, i: nat)
    requires Shaped(a) && Unshared(a) && Mapped(a, b, r, p0, p, phys) && Shaped(b)
    requires i < L1_ENTRIES && Outside(i, p0, p)
    ensures b.roots[r][i] == a.roots[r][i] && Content(b, r, i) == Content(a, r, i)
  {
    assert SlotMapped(a, b, r, i, p0, p, phys);
  }

  /** Filling slot i leaves every other slot of the root as create_mapping had it. */
  lemma MapStepOther(a: Space, b: Space, c: Space, r: nat, p0: nat, p: nat, phys: nat, i: nat, lo: nat, hi: nat, k: nat)
    requires Shaped(a) && Unshared(a) && Mapped(a, b, r, p0, p, phys) && Shaped(b)
    requires i < L1_ENTRIES && lo < hi <= L2_ENTRIES && p == L2_ENTRIES * i + lo && p0 <= p && (p == p0 || lo == 0)
    requires SlotSet(b, c, r, i, lo, hi, phys + (p - p0) * PAGE_SIZE)
    requires k < L1_ENTRIES && k != i
    ensures SlotMapped(a, c, r, k, p0, L2_ENTRIES * i + hi, phys)
  {
    assert SlotMapped(a, b, r, k, p0, p, phys);
    assert SlotMapped(a, b, r, i, p0, p, phys);
  }

  /** Filling slot i gives it what create_mapping owes it. */
  lemma MapStepSlot(a: Space, b: Space, c: Space, r: nat, p0: nat, p: nat, phys: nat, i: nat, lo: nat, hi: nat)
    requires Shaped(a) && Unshared(a) && Mapped(a, b, r, p0, p, phys) && Shaped(b)
    requires i < L1_ENTRIES && lo < hi <= L2_ENTRIES && p == L2_ENTRIES * i + lo && p0 <= p && (p == p0 || lo == 0)
    requires SlotSet(b, c, r, i, lo, hi, phys + (p - p0) * PAGE_SIZE)
    ensures SlotMapped(a, c, r, i, p0, L2_ENTRIES * i + hi, phys)
  {
    MappedContent(a, b, r, p0, p, phys, i);
    assert (phys + (p - p0) * PAGE_SIZE) / PAGE_SIZE == phys / PAGE_SIZE + (p - p0);
  }

  /** One round of create_mapping's loop. */
  lemma MapStep(a: Space, b: Space, c: Space, r: nat, p0: nat, p: nat, phys: nat, i: nat, lo: nat, hi: nat)
    requires Shaped(a) && Unshared(a) && Mapped(a, b, r, p0, p, phys) && Shaped(b)
    requires i < L1_ENTRIES && lo < hi <= L2_ENTRIES && p == L2_ENTRIES * i + lo && p0 <= p && (p == p0 || lo == 0)
    requires SlotSet(b, c, r, i, lo, hi, phys + (p - p0) * PAGE_SIZE)
    ensures Mapped(a, c, r, p0, L2_ENTRIES * i + hi, phys)
  {
    hide SlotSet, SlotMapped, ByPages, Content, Unshared;
    MapStepRoots(a, b, c, r, p0, p, phys, i, lo, hi);
    MapStepTables(a, b, c, r, p0, p, phys, i, lo, hi);
    MapStepSlots(a, b, c, r, p0, p, phys, i, lo, hi, L2_ENTRIES * i + hi);
  }

  /** One round leaves every other root alone. */
  lemma MapStepRoots(a: Space, b: Space, c: Space, r: nat, p0: nat, p: nat, phys: nat, i: nat, lo: nat, hi: nat)
    requires Shaped(a) && Mapped(a, b, r, p0, p, phys) && Shaped(b) && i < L1_ENTRIES && lo < hi <= L2_ENTRIES && p0 <= p
    requires SlotSet(b, c, r, i, lo, hi, phys + (p - p0) * PAGE_SIZE)
    ensures r in a.roots && r in c.roots && c.roots == a.roots[r := c.roots[r]]
  {
    hide SlotMapped, ByPages, Content;
  }

  lemma MapStepSlots(a: Space, b: Space, c: Space, r: nat, p0: nat, p: nat, phys: nat, i: nat, lo: nat, hi: nat, p1: nat)
    requires Shaped(a) && Unshared(a) && Mapped(a, b, r, p0, p, phys) && Shaped(b)
    requires i < L1_ENTRIES && lo < hi <= L2_ENTRIES && p == L2_ENTRIES * i + lo && p0 <= p && (p == p0 || lo == 0)
    requires SlotSet(b, c, r, i, lo, hi, phys + (p - p0) * PAGE_SIZE) && p1 == L2_ENTRIES * i + hi
    ensures forall k :: 0 <= k < L1_ENTRIES ==> SlotMapped(a, c, r, k, p0, p1, phys)
  {
    forall k | 0 <= k < L1_ENTRIES ensures SlotMapped(a, c, r, k, p0, p1, phys) {
      if k == i {
        MapStepSlot(a, b, c, r, p0, p, phys, i, lo, hi);
      } else {
        MapStepOther(a, b, c, r, p0, p, phys, i, lo, hi, k);
      }
    }
  }

  /** The tables that one round changes or allocates belong to slots of the range. */
  lemma MapStepTables(a: Space, b: Space, c: Space, r: nat, p0: nat, p: nat, phys: nat, i: nat, lo: nat, hi: nat)
    requires Shaped(a) && Unshared(a) && Mapped(a, b, r, p0, p, phys) && Shaped(b)
    requires i < L1_ENTRIES && lo < hi <= L2_ENTRIES && p == L2_ENTRIES * i + lo && p0 <= p && (p == p0 || lo == 0)
    requires SlotSet(b, c, r, i, lo, hi, phys + (p - p0) * PAGE_SIZE)
    ensures forall t :: t in a.tables ==> t in c.tables
    ensures forall t :: t in a.tables && c.tables[t] != a.tables[t] ==>
              exists k :: 0 <= k < L1_ENTRIES && ByPages(a, r, k, p0, L2_ENTRIES * i + hi, phys) && a.roots[r][k] == Table(t)
    ensures r in c.roots && |c.roots[r]| == L1_ENTRIES
    ensures forall t :: t in c.tables && t !in a.tables ==>
              exists k :: 0 <= k < |c.roots[r]| && ByPages(a, r, k, p0, L2_ENTRIES * i + hi, phys) && c.roots[r][k] == Table(t)
  {
    MappedContent(a, b, r, p0, p, phys, i);
    forall t | t in c.tables && (t !in a.tables || c.tables[t] != a.tables[t])
      ensures exists k :: 0 <= k < L1_ENTRIES && ByPages(a, r, k, p0, L2_ENTRIES * i + hi, phys) && c.roots[r][k] == Table(t)
                          && (t in a.tables ==> a.roots[r][k] == Table(t))
    {
      var k := MapStepTable(a, b, c, r, p0, p, phys, i, lo, hi, t);
    }
  }

  lemma MapStepTable(a: Space, b: Space, c: Space, r: nat, p0: nat, p: nat, phys: nat, i: nat, lo: nat, hi: nat, t: nat) returns (k: nat)
    requires Shaped(a) && Unshared(a) && Mapped(a, b, r, p0, p, phys) && Shaped(b)
    requires i < L1_ENTRIES && lo < hi <= L2_ENTRIES && p == L2_ENTRIES * i + lo && p0 <= p && (p == p0 || lo == 0)
    requires SlotSet(b, c, r, i, lo, hi, phys + (p - p0) * PAGE_SIZE)
    requires t in c.tables && (t !in a.tables || c.tables[t] != a.tables[t])
    ensures k < L1_ENTRIES && ByPages(a, r, k, p0, L2_ENTRIES * i + hi, phys)
    ensures r in c.roots && |c.roots[r]| == L1_ENTRIES && c.roots[r][k] == Table(t) && (t in a.tables ==> a.roots[r][k] == Table(t))
  {
    MappedContent(a, b, r, p0, p, phys, i);
    if t !in b.tables || b.tables[t] != c.tables[t] {
      k := i;
    } else {
      k :| 0 <= k < L1_ENTRIES && ByPages(a, r, k, p0, p, phys) && (if t in a.tables then a.roots[r][k] == Table(t) else b.roots[r][k] == Table(t));
      assert SlotMapped(a, b, r, k, p0, p, phys);
      assert k != i;
    }
  }

  // What a mapping means.

  /**
   * create_mapping refines an update of the flat map: in the mapped root exactly the pages
   * p0..p1 change, to consecutive frames, whatever mix of sections and level-2 tables the
   * range crosses.
   */
  lemma MappedFlat(a: Space, b: Space, r: nat, p0: nat, p1: nat, phys: nat, i: nat, j: nat)
    requires Shaped(a) && Unshared(a) && Mapped(a, b, r, p0, p1, phys)
    requires i < L1_ENTRIES && j < L2_ENTRIES
    ensures Lookup(b, r, i, j) ==
            if p0 <= L2_ENTRIES * i + j < p1 then Some(phys / PAGE_SIZE + (L2_ENTRIES * i + j - p0))
            else Lookup(a, r, i, j)
  {
    assert SlotMapped(a, b, r, i, p0, p1, phys);
    if BySection(i, p0, p1, phys) {
      var x := phys + (L2_ENTRIES * i - p0) * PAGE_SIZE;
      assert x / PAGE_SIZE == phys / PAGE_SIZE + (L2_ENTRIES * i - p0);
      assert L2_ENTRIES * (x / SECT_SIZE) == x / PAGE_SIZE;
    }
  }

  /**
   * Through any other root, the flat map changes only where that root shares a level-2
   * table with the mapped one, so never in user space.
   */
  lemma MappedElsewhere(a: Space, b: Space, r: nat, p0: nat, p1: nat, phys: nat, q: nat, i: nat, j: nat)
    requires Shaped(a) && Unshared(a) && Mapped(a, b, r, p0, p1, phys)
    requires q in a.roots && q != r && i < L1_ENTRIES && j < L2_ENTRIES
    ensures a.roots[q][i].Table? && a.roots[q][i] == a.roots[r][i] && !BySection(i, p0, p1, phys)
            ==> Lookup(b, q, i, j) == Lookup(b, r, i, j)
    ensures !(a.roots[q][i].Table? && a.roots[q][i] == a.roots[r][i] && ByPages(a, r, i, p0, p1, phys))
            ==> Lookup(b, q, i, j) == Lookup(a, q, i, j)
    ensures i < USER_SLOTS ==> Lookup(b, q, i, j) == Lookup(a, q, i, j)
  {
    assert b.roots[q] == a.roots[q];
    assert SlotMapped(a, b, r, i, p0, p1, phys);
  }

  /** Two slots that both got a new table got two: their first new entries name different frames. */
  lemma MappedApart(a: Space, b: Space, r: nat, p0: nat, p1: nat, phys: nat, i: nat, j: nat)
    requires Shaped(a) && Unshared(a) && Mapped(a, b, r, p0, p1, phys)
    requires i < L1_ENTRIES && j < L1_ENTRIES && i != j
    ensures |b.roots[r]| == L1_ENTRIES && (b.roots[r][i].Table? ==> b.roots[r][i] != b.roots[r][j])
  {
    assert SlotMapped(a, b, r, i, p0, p1, phys) && SlotMapped(a, b, r, j, p0, p1, phys);
    var k := if p0 <= L2_ENTRIES * i || L2_ENTRIES * i + L2_ENTRIES <= p0 then 0 else p0 - L2_ENTRIES * i;
    MappedFlat(a, b, r, p0, p1, phys, i, k);
    MappedFlat(a, b, r, p0, p1, phys, j, k);
  }

  /** No other root reaches a table that root r got for slot i. */
  lemma MappedOwn(a: Space, b: Space, r: nat, p0: nat, p1: nat, phys: nat, i: nat, u: nat, j: nat)
    requires Shaped(a) && Unshared(a) && Mapped(a, b, r, p0, p1, phys)
    requires i < L1_ENTRIES && j < L1_ENTRIES && u in a.roots && u != r
    ensures |b.roots[r]| == L1_ENTRIES && b.roots[u] == a.roots[u]
    ensures b.roots[r][i].Table? && b.roots[u][j] == b.roots[r][i] ==> i == j && USER_SLOTS <= i
  {
    assert SlotMapped(a, b, r, i, p0, p1, phys);
    assert b.roots[u] == a.roots[u];
  }

  lemma MappedUnshared(a: Space, b: Space, r: nat, p0: nat, p1: nat, phys: nat)
    requires Shaped(a) && Unshared(a) && Mapped(a, b, r, p0, p1, phys) && Shaped(b)
    ensures Unshared(b)
  {
    forall q, i, u, j | q in b.roots && u in b.roots && 0 <= i < L1_ENTRIES && 0 <= j < L1_ENTRIES
                        && b.roots[q][i].Table? && b.roots[u][j] == b.roots[q][i]
      ensures i == j && (q == u || USER_SLOTS <= i)
    {
      if q == r && u == r {
        if i != j { MappedApart(a, b, r, p0, p1, phys, i, j); }
      } else if q == r {
        MappedOwn(a, b, r, p0, p1, phys, i, u, j);
      } else if u == r {
        MappedOwn(a, b, r, p0, p1, phys, j, q, i);
      } else {
        assert b.roots[q] == a.roots[q] && b.roots[u] == a.roots[u];
      }
    }
  }

  /** No level-2 table is empty, save perhaps one that is being filled. */
  ghost predicate DenseBut(s: Space, hole: Option<nat>) {
    forall t :: t in s.tables && hole != Some(t) ==> InUse(s.tables[t])
  }

  /** No slot gets a section. */
  ghost predicate NoSection(p0: nat, p1: nat, phys: nat) {
    forall i :: 0 <= i < L1_ENTRIES ==> !BySection(i, p0, p1, phys)
  }

  /** Every level-2 table that a section replaces is still some other root's. */
  ghost predicate SectionsSpare(a: Space, r: nat, p0: nat, p1: nat, phys: nat)
    requires Shaped(a) && r in a.roots
  {
    forall i :: 0 <= i < L1_ENTRIES && BySection(i, p0, p1, phys) && a.roots[r][i].Table? ==> HeldElsewhere(a, r, i)
  }

  /** Mapping pages leaves no table empty, and loses none unless it lays a section over the last use of one. */
  lemma MappedRange(a: Space, b: Space, r: nat, p0: nat, p1: nat, phys: nat, hole: Option<nat>)
    requires Shaped(a) && Unshared(a) && NoLeak(a) && DenseBut(a, hole) && Mapped(a, b, r, p0, p1, phys)
    requires SectionsSpare(a, r, p0, p1, phys)
    ensures Shaped(b) && Unshared(b) && NoLeak(b) && DenseBut(b, hole)
  {
    hide Unshared;
    MappedShape(a, b, r, p0, p1, phys);
    MappedUnshared(a, b, r, p0, p1, phys);
    MappedDense(a, b, r, p0, p1, phys, hole);
    forall t | t in b.tables ensures Held(b, t) {
      if t in a.tables {
        MappedHeld(a, b, r, p0, p1, phys, t);
      }
    }
  }

  lemma MappedDense(a: Space, b: Space, r: nat, p0: nat, p1: nat, phys: nat, hole: Option<nat>)
    requires Shaped(a) && DenseBut(a, hole) && Mapped(a, b, r, p0, p1, phys)
    ensures DenseBut(b, hole)
  {
    forall t | t in b.tables && hole != Some(t) ensures InUse(b.tables[t]) {
      if !(t in a.tables && b.tables[t] == a.tables[t]) {
        var i :|
          && 0 <= i < L1_ENTRIES && ByPages(a, r, i, p0, p1, phys)
          && (if t in a.tables then a.roots[r][i] == Table(t) else i < |b.roots[r]| && b.roots[r][i] == Table(t));
        assert SlotMapped(a, b, r, i, p0, p1, phys);
        var j := if p0 <= L2_ENTRIES * i then 0 else p0 - L2_ENTRIES * i;
        assert b.roots[r][i] == Table(t) && b.tables[t][j].Page?;
      }
    }
  }

  lemma MappedHeld(a: Space, b: Space, r: nat, p0: nat, p1: nat, phys: nat, t: nat)
    requires Shaped(a) && Mapped(a, b, r, p0, p1, phys) && Held(a, t)
    requires SectionsSpare(a, r, p0, p1, phys)
    ensures Held(b, t)
  {
    var q, k :| q in a.roots && 0 <= k < |a.roots[q]| && a.roots[q][k] == Table(t);
    assert SlotMapped(a, b, r, k, p0, p1, phys);
    if q == r && BySection(k, p0, p1, phys) && !Outside(k, p0, p1) {
      assert HeldElsewhere(a, r, k);
      var u :| u in a.roots && u != r && a.roots[u][k] == a.roots[r][k];
      assert b.roots[u][k] == Table(t);
    } else {
      assert b.roots[q][k] == Table(t);
    }
  }

  /**
   * What create_mapping does to well-formed tables: they stay so if and only if every level-2
   * table that a section replaces is still another root's. alloc_init_section never frees one.
   */
  lemma MappedWellFormed(a: Space, b: Space, r: nat, p0: nat, p1: nat, phys: nat)
    requires WellFormed(a) && Mapped(a, b, r, p0, p1, phys)
    ensures WellFormed(b) <==> SectionsSpare(a, r, p0, p1, phys)
  {
    if SectionsSpare(a, r, p0, p1, phys) {
      MappedRange(a, b, r, p0, p1, phys, None);
    }
    if WellFormed(b) {
      forall i | 0 <= i < L1_ENTRIES && BySection(i, p0, p1, phys) && a.roots[r][i].Table? ensures HeldElsewhere(a, r, i) {
        ReplacedHeld(a, b, r, p0, p1, phys, i);
      }
    }
  }

  lemma ReplacedHeld(a: Space, b: Space, r: nat, p0: nat, p1: nat, phys: nat, i: nat)
    requires WellFormed(a) && Mapped(a, b, r, p0, p1, phys) && NoLeak(b)
    requires i < L1_ENTRIES && BySection(i, p0, p1, phys) && a.roots[r][i].Table?
    ensures HeldElsewhere(a, r, i)
  {
    hide NoLeak, Dense;
    var t := a.roots[r][i].addr;
    assert SlotMapped(a, b, r, 0, p0, p1, phys);
    forall k | 0 <= k < L1_ENTRIES ensures b.roots[r][k] != Table(t) {
      assert SlotMapped(a, b, r, k, p0, p1, phys);
    }
    NoLeakAt(b, t);
    var q, k :| q in b.roots && 0 <= k < |b.roots[q]| && b.roots[q][k] == Table(t);
    assert a.roots[q][k] == a.roots[r][i];
  }

  lemma NoLeakAt(s: Space, t: nat)
    requires NoLeak(s) && t in s.tables
    ensures Held(s, t)
  {
  }

  lemma MappedPage(a: Space, b: Space, r: nat, p: nat, phys: nat, hole: Option<nat>)
    requires Shaped(a) && Unshared(a) && NoLeak(a) && DenseBut(a, hole)
    requires Mapped(a, b, r, p, p + 1, phys)
    ensures Shaped(b) && Unshared(b) && NoLeak(b) && DenseBut(b, hole)
  {
    hide Unshared, NoLeak, DenseBut, Shaped, Mapped;
    MappedRange(a, b, r, p, p + 1, phys, hole);
  }
}
