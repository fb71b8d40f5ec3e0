/** The functions of arch/arm32/mmu.c, on tables in kernel memory. */
module Mmu {
  import opened Wrappers
  import opened PageTables
  import opened Mapping
  import opened Releasing

  // Addresses.

  function L1Index(addr: nat): nat { addr / SECT_SIZE }
  function L2Index(addr: nat): nat { addr / PAGE_SIZE % L2_ENTRIES }
  function PageBase(addr: nat): nat { addr - addr % PAGE_SIZE }
  function AlignUp(x: nat): nat { (x + (PAGE_SIZE - 1)) / PAGE_SIZE * PAGE_SIZE }

  /** The first page and the page after the last one of a byte range. */
  function FirstPage(virt: nat): nat { virt / PAGE_SIZE }
  function EndPage(virt: nat, size: nat): nat { (virt + size + (PAGE_SIZE - 1)) / PAGE_SIZE }

  /** l1sect_addr_end: the next section boundary, or the end if that comes first. */
  function SectAddrEnd(addr: nat, end: nat): nat {
    var boundary := (addr / SECT_SIZE + 1) * SECT_SIZE;
    if boundary < end then boundary else end
  }

  lemma RangePages(virt: nat, size: nat)
    ensures PageBase(virt) == PAGE_SIZE * FirstPage(virt)
    ensures PageBase(virt) + AlignUp(size + virt % PAGE_SIZE) == PAGE_SIZE * EndPage(virt, size)
  {
  }

  /** The page after the chunk that starts at page p: the next section boundary, or the end. */
  function NextPage(p: nat, end: nat): nat {
    var boundary := L2_ENTRIES * (p / L2_ENTRIES) + L2_ENTRIES;
    if boundary < end then boundary else end
  }

  /** One round of the loops over sections, told in pages. */
  lemma SectionChunk(p: nat, end: nat)
    requires p < end
    ensures L1Index(PAGE_SIZE * p) == p / L2_ENTRIES && L2Index(PAGE_SIZE * p) == p % L2_ENTRIES
    ensures SectAddrEnd(PAGE_SIZE * p, PAGE_SIZE * end) == PAGE_SIZE * NextPage(p, end)
    ensures (PAGE_SIZE * p) % SECT_SIZE == 0 <==> p % L2_ENTRIES == 0
    ensures p < NextPage(p, end) <= end && p % L2_ENTRIES + (NextPage(p, end) - p) <= L2_ENTRIES
    ensures NextPage(p, end) < end ==> NextPage(p, end) % L2_ENTRIES == 0 && NextPage(p, end) / L2_ENTRIES == p / L2_ENTRIES + 1
    ensures Chunk(PAGE_SIZE * p, PAGE_SIZE * end, p, NextPage(p, end))
  {
    assert PAGE_SIZE * p / SECT_SIZE == p / L2_ENTRIES;
    assert PAGE_SIZE * p % SECT_SIZE == PAGE_SIZE * (p % L2_ENTRIES);
  }

  /** Pages p..q are the chunk that a loop over sections handles at byte address addr. */
  predicate Chunk(addr: nat, end: nat, p: nat, q: nat) {
    var next := SectAddrEnd(addr, end);
    && addr == PAGE_SIZE * p && next == PAGE_SIZE * q && addr % PAGE_SIZE == 0 && next % PAGE_SIZE == 0 && addr < next
    && L1Index(addr) == p / L2_ENTRIES && L2Index(addr) == p % L2_ENTRIES && (next - addr) / PAGE_SIZE == q - p
    && addr / PAGE_SIZE == p && next / PAGE_SIZE == q
    && p % L2_ENTRIES + (q - p) <= L2_ENTRIES && next <= SECT_SIZE * (p / L2_ENTRIES + 1)
  }

  lemma SectionOrPages(addr: nat, end: nat, phys: nat)
    requires addr % PAGE_SIZE == 0 && end % PAGE_SIZE == 0 && addr < end
    requires L2Index(addr) + (end - addr) / PAGE_SIZE <= L2_ENTRIES
    ensures SectionFits(addr, end, phys) <==>
            L2Index(addr) == 0 && (end - addr) / PAGE_SIZE == L2_ENTRIES && phys % SECT_SIZE == 0
    ensures SectionFits(addr, end, phys) ==> end == addr + SECT_SIZE
  {
    var p, q := addr / PAGE_SIZE, end / PAGE_SIZE;
    assert addr == PAGE_SIZE * p && end == PAGE_SIZE * q;
    SectionChunk(p, q);
    SectionChunk(q, q + 1);
  }

  lemma SomeFresh(s: set<nat>)
    ensures exists t: nat :: t !in s
  {
    var t := FreshAbove(s);
    assert t !in s;
  }

  lemma FreshAbove(s: set<nat>) returns (t: nat)
    ensures forall x :: x in s ==> x < t
  {
    if s == {} {
      t := 0;
    } else {
      var x :| x in s;
      t := FreshAbove(s - {x});
      t := if t <= x then x + 1 else t;
      assert forall y :: y in s ==> y == x || y in s - {x};
    }
  }

  /** Where create_mapping's loop stands: pages p0..q of the range p0..p1 are done. */
  ghost predicate MapLoop(a: Space, b: Space, r: nat, p0: nat, q: nat, p1: nat, phys: nat) {
    && Shaped(a) && Unshared(a) && r in a.roots && Mappable(a, r, p0, p1, phys)
    && p0 <= q <= p1 <= L1_ENTRIES * L2_ENTRIES && (q == p0 || q == p1 || q % L2_ENTRIES == 0)
    && Shaped(b) && Mapped(a, b, r, p0, q, phys)
  }

  /** The chunk at page q lies in one slot that may take it. */
  lemma MapRound(a: Space, b: Space, r: nat, p0: nat, q: nat, p1: nat, phys: nat)
    requires q < p1 && MapLoop(a, b, r, p0, q, p1, phys)
    ensures Chunk(PAGE_SIZE * q, PAGE_SIZE * p1, q, NextPage(q, p1))
    ensures b.roots[r][q / L2_ENTRIES].Section? ==>
              SectionFits(PAGE_SIZE * q, PAGE_SIZE * NextPage(q, p1), phys + PAGE_SIZE * (q - p0))
  {
    SectionChunk(q, p1);
    SectionChunk(NextPage(q, p1), p1 + 1);
    MappedContent(a, b, r, p0, q, phys, q / L2_ENTRIES);
  }

  lemma MapAdvance(a: Space, b: Space, c: Space, r: nat, p0: nat, q: nat, p1: nat, phys: nat)
    requires q < p1 && MapLoop(a, b, r, p0, q, p1, phys)
    requires q % L2_ENTRIES + (NextPage(q, p1) - q) <= L2_ENTRIES && q < NextPage(q, p1)
    requires SlotSet(b, c, r, q / L2_ENTRIES, q % L2_ENTRIES, q % L2_ENTRIES + (NextPage(q, p1) - q), phys + PAGE_SIZE * (q - p0))
    ensures MapLoop(a, c, r, p0, NextPage(q, p1), p1, phys)
  {
    SectionChunk(q, p1);
    MapStep(a, b, c, r, p0, q, phys, q / L2_ENTRIES, q % L2_ENTRIES, q % L2_ENTRIES + (NextPage(q, p1) - q));
    MappedShape(a, c, r, p0, NextPage(q, p1), phys);
  }

  /** Where release_mapping's loop stands. */
  ghost predicate ReleaseLoop(a: Space, b: Space, r: nat, p0: nat, q: nat, p1: nat) {
    && Shaped(a) && Unshared(a) && r in a.roots && Releasable(a, r, p0, p1)
    && p0 <= q <= p1 <= L1_ENTRIES * L2_ENTRIES && (q == p0 || q == p1 || q % L2_ENTRIES == 0)
    && Shaped(b) && Released(a, b, r, p0, q)
  }

  /** The chunk at page q of a release lies in one slot that may be freed. */
  lemma ReleaseRound(a: Space, b: Space, r: nat, p0: nat, q: nat, p1: nat)
    requires q < p1 && ReleaseLoop(a, b, r, p0, q, p1)
    ensures Chunk(PAGE_SIZE * q, PAGE_SIZE * p1, q, NextPage(q, p1))
    ensures !SectionFits(PAGE_SIZE * q, PAGE_SIZE * NextPage(q, p1), 0) ==> b.roots[r][q / L2_ENTRIES].Table?
  {
    var i, n := q / L2_ENTRIES, NextPage(q, p1);
    SectionChunk(q, p1);
    SectionChunk(n, p1 + 1);
    ReleasedContent(a, b, r, p0, q, i);
    assert Covered(i, p0, p1) ==> SectionFits(PAGE_SIZE * q, PAGE_SIZE * n, 0);
  }

  lemma ReleaseAdvance(a: Space, b: Space, c: Space, r: nat, p0: nat, q: nat, p1: nat)
    requires q < p1 && ReleaseLoop(a, b, r, p0, q, p1)
    requires SlotFreed(b, c, r, q / L2_ENTRIES, q, NextPage(q, p1))
    ensures ReleaseLoop(a, c, r, p0, NextPage(q, p1), p1)
  {
    SectionChunk(q, p1);
    ReleaseStep(a, b, c, r, p0, q, NextPage(q, p1), q / L2_ENTRIES);
    ReleasedShape(a, c, r, p0, NextPage(q, p1), p1);
  }

  // Translation and reset.

  /** What virt_to_phys_pt answers. */
  function Walk(s: Space, r: nat, vaddr: nat): Option<nat>
    requires Shaped(s) && r in s.roots && vaddr < L1_ENTRIES * SECT_SIZE
  {
    match s.roots[r][L1Index(vaddr)]
    case NoL1 => None
    case Section(n) => Some(n * SECT_SIZE + vaddr % PAGE_SIZE)
    case Table(t) =>
      var l2pte := s.tables[t][L2Index(vaddr)];
      Some((if l2pte.Page? then l2pte.pfn * PAGE_SIZE else 0) + vaddr % PAGE_SIZE)
  }

  /** The physical address the hardware uses. */
  function Physical(s: Space, r: nat, vaddr: nat): Option<nat> {
    match Lookup(s, r, L1Index(vaddr), L2Index(vaddr))
    case None => None
    case Some(f) => Some(f * PAGE_SIZE + vaddr % PAGE_SIZE)
  }

  /**
   * virt_to_phys_pt agrees with the flat map if and only if the address is not a hole in a
   * level-2 table, and in a section address bits 12 to 19 are zero.
   */
  lemma WalkReadsFlatMap(s: Space, r: nat, vaddr: nat)
    requires Shaped(s) && r in s.roots && vaddr < L1_ENTRIES * SECT_SIZE
    ensures var e := s.roots[r][L1Index(vaddr)];
            Walk(s, r, vaddr) == Physical(s, r, vaddr) <==>
            (e.Table? ==> Lookup(s, r, L1Index(vaddr), L2Index(vaddr)).Some?) && (e.Section? ==> L2Index(vaddr) == 0)
  {
    assert L1Index(vaddr) < L1_ENTRIES;
  }

  /**
   * What virt_to_phys_pt answers where it is wrong: in a section, the hardware's address less the
   * page that bits 12 to 19 name; at a hole of a level-2 table, the offset alone.
   */
  lemma WalkElsewhere(s: Space, r: nat, vaddr: nat)
    requires Shaped(s) && r in s.roots && vaddr < L1_ENTRIES * SECT_SIZE
    ensures vaddr / 0x10_0000 < |s.roots[r]|
    ensures var e, hw, w := s.roots[r][vaddr / 0x10_0000], Physical(s, r, vaddr), Walk(s, r, vaddr);
            && (e.NoL1? ==> w == None && hw == None)
            && (e.Section? ==> hw.Some? && w == Some(hw.value - vaddr / 0x1000 % 0x100 * 0x1000))
            && (e.Table? && hw == None ==> w == Some(vaddr % 0x1000))
            && (e.Table? && hw.Some? ==> w == hw)
  {
    assert L1Index(vaddr) < L1_ENTRIES;
  }

  /** The pages of a byte range are those that hold a byte of it. */
  lemma RangeIs(virt: nat, size: nat, m: nat)
    requires 0 < size
    ensures FirstPage(virt) <= m < EndPage(virt, size) <==> 0x1000 * m < virt + size && virt < 0x1000 * m + 0x1000
  {
  }

  /**
   * create_mapping, byte by byte: every address in a page of the range translates to the physical
   * base's frame plus its distance from the first page; any other address of the root as before.
   */
  lemma MappedBytes(a: Space, b: Space, r: nat, virt: nat, phys: nat, size: nat, vaddr: nat)
    requires Shaped(a) && Unshared(a) && 0 < size && Mapped(a, b, r, FirstPage(virt), EndPage(virt, size), phys)
    requires vaddr < L1_ENTRIES * SECT_SIZE
    ensures Physical(b, r, vaddr) ==
            if virt / 0x1000 <= vaddr / 0x1000 <= (virt + size - 1) / 0x1000
            then Some(phys - phys % 0x1000 + (vaddr - (virt - virt % 0x1000)))
            else Physical(a, r, vaddr)
  {
    hide Mapped, Lookup, Unshared;
    var i, j := L1Index(vaddr), L2Index(vaddr);
    assert i < L1_ENTRIES && L2_ENTRIES * i + j == FirstPage(vaddr);
    MappedFlat(a, b, r, FirstPage(virt), EndPage(virt, size), phys, i, j);
    RangeIs(virt, size, FirstPage(vaddr));
    BytesOf(phys, virt, vaddr);
  }

  lemma BytesOf(phys: nat, virt: nat, vaddr: nat)
    ensures (phys / PAGE_SIZE + (vaddr / PAGE_SIZE - virt / PAGE_SIZE)) * PAGE_SIZE + vaddr % PAGE_SIZE ==
            phys - phys % PAGE_SIZE + (vaddr - (virt - virt % PAGE_SIZE))
  {
  }

  /** Reading a page-granular mapping back gives the frame that create_mapping was told. */
  lemma WalkReadsMapping(a: Space, b: Space, r: nat, p0: nat, p1: nat, phys: nat, vaddr: nat)
    requires Shaped(a) && Unshared(a) && Mapped(a, b, r, p0, p1, phys) && Shaped(b)
    requires vaddr < L1_ENTRIES * SECT_SIZE && p0 <= FirstPage(vaddr) < p1
    requires !BySection(L1Index(vaddr), p0, p1, phys) || L2Index(vaddr) == 0
    ensures Walk(b, r, vaddr) == Some((phys / PAGE_SIZE + FirstPage(vaddr) - p0) * PAGE_SIZE + vaddr % PAGE_SIZE)
  {
    hide Unshared, Walk, Lookup;
    var i, j := L1Index(vaddr), L2Index(vaddr);
    assert L2_ENTRIES * i + j == FirstPage(vaddr);
    assert SlotMapped(a, b, r, i, p0, p1, phys);
    MappedFlat(a, b, r, p0, p1, phys, i, j);
    WalkReadsFlatMap(b, r, vaddr);
  }

  function BlankRoot(): (c: seq<L1Pte>)
    ensures |c| == L1_ENTRIES && forall i :: 0 <= i < L1_ENTRIES ==> c[i] == NoL1
  {
    seq(L1_ENTRIES, _ => NoL1)
  }

  function Emptied(root: seq<L1Pte>, n: nat): (c: seq<L1Pte>)
    requires n <= |root|
    ensures |c| == |root| && forall i :: 0 <= i < |c| ==> c[i] == if i < n then NoL1 else root[i]
  {
    seq(|root|, i requires 0 <= i < |root| => if i < n then NoL1 else root[i])
  }

  function KernelCopied(root: seq<L1Pte>, sys: seq<L1Pte>, n: nat): (c: seq<L1Pte>)
    requires |root| == |sys| == L1_ENTRIES
    ensures |c| == L1_ENTRIES && forall i :: 0 <= i < L1_ENTRIES ==> c[i] == if USER_SLOTS <= i < n then sys[i] else root[i]
  {
    seq(L1_ENTRIES, i requires 0 <= i < L1_ENTRIES => if USER_SLOTS <= i < n then sys[i] else root[i])
  }

  ghost function UserTables(s: Space, r: nat, n: nat): set<nat>
    requires r in s.roots && n <= |s.roots[r]|
  {
    set i | 0 <= i < n && s.roots[r][i].Table? :: s.roots[r][i].addr
  }

  ghost function Reset(s: Space, r: nat, n: nat, remove: bool): Space
    requires r in s.roots && n <= |s.roots[r]|
  {
    Space(if remove then s.roots - {r} else s.roots[r := Emptied(s.roots[r], n)], s.tables - UserTables(s, r, n))
  }

  /**
   * After reset_root_pgtable no user page of the root is mapped, and its kernel slots and every
   * other root are as before. No level-2 table is lost or still wanted, if and only if the root
   * stays or its kernel tables are also some other root's.
   */
  lemma ResetWellFormed(a: Space, r: nat, remove: bool)
    requires WellFormed(a) && r in a.roots
    ensures var b := Reset(a, r, USER_SLOTS, remove);
            && (WellFormed(b) <==> (remove ==> KernelShared(a, r)))
            && (forall q, i, j :: q in b.roots && 0 <= i < L1_ENTRIES ==>
                  Lookup(b, q, i, j) == if q == r && i < USER_SLOTS then None else Lookup(a, q, i, j))
  {
    hide Unshared, Dense, NoLeak, Reset;
    ResetShape(a, r, remove);
    ResetFlat(a, r, remove);
    if remove ==> KernelShared(a, r) {
      ResetNoLeak(a, r, remove);
    } else {
      var i :| USER_SLOTS <= i < L1_ENTRIES && a.roots[r][i].Table? && !HeldElsewhere(a, r, i);
      RemovedLeak(a, r, i);
    }
  }

  /** A kernel table that only the removed root held is lost. */
  lemma RemovedLeak(a: Space, r: nat, i: nat)
    requires Shaped(a) && Unshared(a) && r in a.roots && USER_SLOTS <= i < L1_ENTRIES
    requires a.roots[r][i].Table? && !HeldElsewhere(a, r, i)
    ensures !NoLeak(Reset(a, r, USER_SLOTS, true))
  {
    var b, t := Reset(a, r, USER_SLOTS, true), a.roots[r][i].addr;
    assert t in b.tables;
    forall q, k | q in b.roots && 0 <= k < |b.roots[q]| ensures b.roots[q][k] != Table(t) {
    }
    assert !Held(b, t);
  }

  /** Every kernel table of root r is also some other root's. */
  ghost predicate KernelShared(a: Space, r: nat)
    requires Shaped(a) && r in a.roots
  {
    forall i :: USER_SLOTS <= i < L1_ENTRIES && a.roots[r][i].Table? ==> HeldElsewhere(a, r, i)
  }

  lemma ResetNoLeak(a: Space, r: nat, remove: bool)
    requires WellFormed(a) && r in a.roots && (remove ==> KernelShared(a, r))
    ensures NoLeak(Reset(a, r, USER_SLOTS, remove))
  {
    forall t | t in Reset(a, r, USER_SLOTS, remove).tables ensures Held(Reset(a, r, USER_SLOTS, remove), t) {
      assert t in a.tables && t !in UserTables(a, r, USER_SLOTS);
      ResetHeld(a, r, remove, t);
    }
  }

  lemma ResetFlat(a: Space, r: nat, remove: bool)
    requires Shaped(a) && Unshared(a) && r in a.roots
    ensures var b := Reset(a, r, USER_SLOTS, remove);
            forall q, i, j :: q in b.roots && 0 <= i < L1_ENTRIES ==>
              Lookup(b, q, i, j) == if q == r && i < USER_SLOTS then None else Lookup(a, q, i, j)
  {
    var b := Reset(a, r, USER_SLOTS, remove);
    forall q, i, j | q in b.roots && 0 <= i < L1_ENTRIES
      ensures Lookup(b, q, i, j) == if q == r && i < USER_SLOTS then None else Lookup(a, q, i, j)
    {
      ResetEntry(a, r, remove, q, i);
    }
  }

  /** An entry that is left has its table left, untouched. */
  lemma ResetEntry(a: Space, r: nat, remove: bool, q: nat, i: nat)
    requires Shaped(a) && Unshared(a) && r in a.roots
    requires q in Reset(a, r, USER_SLOTS, remove).roots && i < L1_ENTRIES
    ensures var b := Reset(a, r, USER_SLOTS, remove);
            && |b.roots[q]| == L1_ENTRIES
            && b.roots[q][i] == (if q == r && i < USER_SLOTS then NoL1 else a.roots[q][i])
            && (b.roots[q][i].Table? ==> var t := b.roots[q][i].addr; t in b.tables && b.tables[t] == a.tables[t])
  {
  }

  lemma ResetShape(a: Space, r: nat, remove: bool)
    requires Shaped(a) && Unshared(a) && r in a.roots
    ensures var b := Reset(a, r, USER_SLOTS, remove); Shaped(b) && Unshared(b) && (Dense(a) ==> Dense(b))
  {
    var b := Reset(a, r, USER_SLOTS, remove);
    forall q, i | q in b.roots && 0 <= i < L1_ENTRIES
      ensures |b.roots[q]| == L1_ENTRIES
      ensures b.roots[q][i] == NoL1 || b.roots[q][i] == a.roots[q][i]
      ensures b.roots[q][i].Table? ==> b.roots[q][i].addr in b.tables
    {
      ResetEntry(a, r, remove, q, i);
    }
    assert forall q :: q in b.roots ==> |b.roots[q]| == L1_ENTRIES;
  }

  lemma ResetHeld(a: Space, r: nat, remove: bool, t: nat)
    requires Shaped(a) && r in a.roots && (remove ==> KernelShared(a, r))
    requires Held(a, t) && t !in UserTables(a, r, USER_SLOTS)
    ensures Held(Reset(a, r, USER_SLOTS, remove), t)
  {
    var b := Reset(a, r, USER_SLOTS, remove);
    var q, i :| q in a.roots && 0 <= i < |a.roots[q]| && a.roots[q][i] == Table(t);
    if q == r && remove {
      var u :| u in a.roots && u != r && a.roots[u][i] == a.roots[r][i];
      assert b.roots[u][i] == Table(t);
    } else {
      assert b.roots[q][i] == Table(t);
    }
  }

  function WithTable(s: Space, r: nat, i: nat, t: nat): Space
    requires r in s.roots && i < |s.roots[r]|
  {
    Space(s.roots[r := s.roots[r][i := Table(t)]], s.tables[t := Blank()])
  }

  function WithPage(s: Space, t: nat, j: nat, pfn: nat): Space
    requires t in s.tables && j < |s.tables[t]|
  {
    s.(tables := s.tables[t := s.tables[t][j := Page(pfn)]])
  }

  // mmu.c

  const NULL: nat := 0

  class Tables {
    var roots: map<nat, seq<L1Pte>>
    var tables: map<nat, seq<L2Pte>>
    const sysRoot: nat   // __sys_root_pgtable

    ghost function View(): Space
      reads this
    {
      Space(roots, tables)
    }

    function Root(pgtable: nat): (r: nat)
      ensures pgtable == 0 ==> r == sysRoot
    {
      if pgtable == NULL then sysRoot else pgtable
    }

    /** memalign for a level-2 table: any address that is not in use. */
    method Memalign() returns (t: nat)
      ensures t !in tables
    {
      SomeFresh(tables.Keys);
      t :| t !in tables.Keys;
    }

    method AllocInitPte(r: nat, i: nat, addr: nat, end: nat, pfn: nat)
      requires Shaped(View()) && r in roots && i < L1_ENTRIES && !roots[r][i].Section?
      requires addr % PAGE_SIZE == 0 && end % PAGE_SIZE == 0 && addr < end
      requires L2Index(addr) + (end - addr) / PAGE_SIZE <= L2_ENTRIES
      modifies this
      ensures TableSet(old(View()), View(), r, i, L2Index(addr), L2Index(addr) + (end - addr) / PAGE_SIZE, pfn)
    {
      ghost var lo := L2Index(addr);
      ghost var content := Content(View(), r, i);
      if roots[r][i].NoL1? {
        var l2 := Memalign();
        tables := tables[l2 := Blank()];
        roots := roots[r := roots[r][i := Table(l2)]];
      }
      var t := roots[r][i].addr;
      label Ready:
      var j, a, f := L2Index(addr), addr, pfn;
      assert tables[t] == Filled(content, lo, j, pfn);
      while true
        invariant lo <= j < lo + (end - addr) / PAGE_SIZE && a == addr + PAGE_SIZE * (j - lo) && f == pfn + (j - lo)
        invariant roots == old@Ready(roots)
        invariant tables == old@Ready(tables)[t := Filled(content, lo, j, pfn)]
        decreases end - a
      {
        tables := tables[t := tables[t][j := Page(f)]];
        assert tables[t] == Filled(content, lo, j + 1, pfn);
        f, j, a := f + 1, j + 1, a + PAGE_SIZE;
        if a == end { break; }
      }
      assert old(roots)[r][i := Table(t)] == roots[r];
      assert roots == old(roots)[r := roots[r]];
      assert tables == old(tables)[t := Filled(content, lo, j, pfn)];
      assert PagesSet(old(View()), View(), r, i, lo, j, pfn, t);
    }

    /** addr..end lies in one section: either the whole of it or a run of its pages. */
    method AllocInitSection(r: nat, i: nat, addr: nat, end: nat, phys: nat)
      requires Shaped(View()) && r in roots && i < L1_ENTRIES
      requires addr % PAGE_SIZE == 0 && end % PAGE_SIZE == 0 && addr < end
      requires L2Index(addr) + (end - addr) / PAGE_SIZE <= L2_ENTRIES
      requires roots[r][i].Section? ==> SectionFits(addr, end, phys)
      modifies this
      ensures SlotSet(old(View()), View(), r, i, L2Index(addr), L2Index(addr) + (end - addr) / PAGE_SIZE, phys)
    {
      SectionOrPages(addr, end, phys);
      if SectionFits(addr, end, phys) {
        // The source's do-while ends after this round: end is the next section boundary.
        roots := roots[r := roots[r][i := Section(phys / SECT_SIZE)]];
      } else {
        AllocInitPte(r, i, addr, end, phys / PAGE_SIZE);
      }
    }

    /** create_mapping, for a non-empty range below 4 GB. */
    method CreateMapping(pgtable: nat, virt: nat, phys: nat, size: nat)
      requires Shaped(View()) && Unshared(View()) && Root(pgtable) in roots
      requires FirstPage(virt) < EndPage(virt, size) <= L1_ENTRIES * L2_ENTRIES
      requires Mappable(View(), Root(pgtable), FirstPage(virt), EndPage(virt, size), phys)
      modifies this
      ensures Mapped(old(View()), View(), Root(pgtable), FirstPage(virt), EndPage(virt, size), phys)
      ensures Shaped(View())
    {
      var r := Root(pgtable);
      var addr := PageBase(virt);
      var length := AlignUp(size + virt % PAGE_SIZE);
      var end := addr + length;
      var l1pte := L1Index(addr);
      var p := phys;
      ghost var a, p0, p1 := View(), FirstPage(virt), EndPage(virt, size);
      RangePages(virt, size);
      SectionChunk(p0, p1);
      MappedStart(a, r, p0, phys);
      ghost var q := p0;
      while true
        invariant q < p1 && addr == PAGE_SIZE * q && end == PAGE_SIZE * p1 && l1pte == q / L2_ENTRIES
        invariant p == phys + PAGE_SIZE * (q - p0) && MapLoop(a, View(), r, p0, q, p1, phys)
        decreases end - addr
      {
        var next := MapSection(r, l1pte, addr, end, p, a, p0, q, p1, phys);
        SectionChunk(q, p1);
        q := NextPage(q, p1);
        p, addr, l1pte := p + (next - addr), next, l1pte + 1;
        if addr == end { break; }
      }
    }

    /** One round of create_mapping's loop, with the proof that it advances the mapping. */
    method MapSection(r: nat, l1pte: nat, addr: nat, end: nat, p: nat,
                      ghost a: Space, ghost p0: nat, ghost q: nat, ghost p1: nat, ghost phys: nat) returns (next: nat)
      requires q < p1 && MapLoop(a, View(), r, p0, q, p1, phys) && p == phys + PAGE_SIZE * (q - p0)
      requires addr == PAGE_SIZE * q && end == PAGE_SIZE * p1 && l1pte == q / L2_ENTRIES
      modifies this
      ensures next == PAGE_SIZE * NextPage(q, p1) && MapLoop(a, View(), r, p0, NextPage(q, p1), p1, phys)
    {
      ghost var b := View();
      next := SectAddrEnd(addr, end);
      MapRound(a, b, r, p0, q, p1, phys);
      AllocInitSection(r, l1pte, addr, next, p);
      MapAdvance(a, b, View(), r, p0, q, p1, phys);
    }

    method Free(t: nat)
      requires t in tables
      modifies this`tables
      ensures tables == old(tables) - {t}
    {
      tables := tables - {t};
    }

    method FreeL2Mapping(r: nat, i: nat, addr: nat, end: nat)
      requires Shaped(View()) && r in roots && i < L1_ENTRIES && roots[r][i].Table?
      requires addr % PAGE_SIZE == 0 && end % PAGE_SIZE == 0 && L1Index(addr) == i && addr < end <= SECT_SIZE * (i + 1)
      requires !SectionFits(addr, end, 0)
      modifies this
      ensures SlotFreed(old(View()), View(), r, i, addr / PAGE_SIZE, end / PAGE_SIZE)
    {
      var t := roots[r][i].addr;
      ghost var p, q := addr / PAGE_SIZE, end / PAGE_SIZE;
      assert addr == PAGE_SIZE * p && end == PAGE_SIZE * q;
      SectionChunk(p, q);
      SectionChunk(q, q + 1);
      ghost var a := View();
      var j, at := L2Index(addr), addr;
      assert tables[t] == Rest(a, r, i, p, L2_ENTRIES * i + j);
      while true
        invariant at == PAGE_SIZE * (L2_ENTRIES * i + j) && p <= L2_ENTRIES * i + j < q
        invariant roots == a.roots && tables == a.tables[t := Rest(a, r, i, p, L2_ENTRIES * i + j)]
        decreases end - at
      {
        tables := tables[t := tables[t][j := NoL2]];
        assert tables[t] == Rest(a, r, i, p, L2_ENTRIES * i + j + 1);
        j, at := j + 1, at + PAGE_SIZE;
        if at == end { break; }
      }
      var found, k := false, 0;
      while !found && k < L2_ENTRIES
        invariant 0 <= k <= L2_ENTRIES
        invariant found ==> InUse(tables[t])
        invariant !found ==> forall m :: 0 <= m < k ==> !tables[t][m].Page?
      {
        found := tables[t][k] != NoL2;
        k := k + 1;
      }
      if !found {
        Free(t);
        roots := roots[r := roots[r][i := NoL1]];
      }
      assert tables == if found then a.tables[t := Rest(a, r, i, p, q)] else a.tables - {t};
    }

    method FreeL1Mapping(r: nat, i: nat, addr: nat, end: nat)
      requires Shaped(View()) && r in roots && i < L1_ENTRIES
      requires addr % PAGE_SIZE == 0 && end % PAGE_SIZE == 0 && L1Index(addr) == i && addr < end <= SECT_SIZE * (i + 1)
      requires !SectionFits(addr, end, 0) ==> roots[r][i].Table?
      modifies this
      ensures SlotFreed(old(View()), View(), r, i, addr / PAGE_SIZE, end / PAGE_SIZE)
    {
      if SectionFits(addr, end, 0) {
        // One round of the source's do-while, as in AllocInitSection.
        roots := roots[r := roots[r][i := NoL1]];
      } else {
        FreeL2Mapping(r, i, addr, end);
      }
    }

    /** release_mapping, for a non-empty range below 4 GB. */
    method ReleaseMapping(pgtable: nat, virt: nat, size: nat)
      requires Shaped(View()) && Unshared(View()) && Root(pgtable) in roots
      requires FirstPage(virt) < EndPage(virt, size) <= L1_ENTRIES * L2_ENTRIES
      requires Releasable(View(), Root(pgtable), FirstPage(virt), EndPage(virt, size))
      modifies this
      ensures Released(old(View()), View(), Root(pgtable), FirstPage(virt), EndPage(virt, size))
      ensures Shaped(View())
    {
      var r := Root(pgtable);
      var addr := PageBase(virt);
      var length := AlignUp(size + virt % PAGE_SIZE);
      var end := addr + length;
      var l1pte := L1Index(addr);
      ghost var a, p0, p1 := View(), FirstPage(virt), EndPage(virt, size);
      RangePages(virt, size);
      SectionChunk(p0, p1);
      ReleasedStart(a, r, p0);
      ghost var q := p0;
      while true
        invariant q < p1 && addr == PAGE_SIZE * q && end == PAGE_SIZE * p1 && l1pte == q / L2_ENTRIES
        invariant ReleaseLoop(a, View(), r, p0, q, p1)
        decreases end - addr
      {
        var next := ReleaseSection(r, l1pte, addr, end, a, p0, q, p1);
        SectionChunk(q, p1);
        q := NextPage(q, p1);
        addr, l1pte := next, l1pte + 1;
        if addr == end { break; }
      }
    }

    /** One round of release_mapping's loop. */
    method ReleaseSection(r: nat, l1pte: nat, addr: nat, end: nat,
                          ghost a: Space, ghost p0: nat, ghost q: nat, ghost p1: nat) returns (next: nat)
      requires q < p1 && ReleaseLoop(a, View(), r, p0, q, p1)
      requires addr == PAGE_SIZE * q && end == PAGE_SIZE * p1 && l1pte == q / L2_ENTRIES
      modifies this
      ensures next == PAGE_SIZE * NextPage(q, p1) && ReleaseLoop(a, View(), r, p0, NextPage(q, p1), p1)
    {
      ghost var b := View();
      next := SectAddrEnd(addr, end);
      ReleaseRound(a, b, r, p0, q, p1);
      FreeL1Mapping(r, l1pte, addr, next);
      ReleaseAdvance(a, b, View(), r, p0, q, p1);
    }

    /**
     * virt_to_phys_pt: None is the BUG_ON on an empty level-1 entry. The level-2 entry is not
     * tested, and a section keeps only the 12 offset bits of the address.
     */
    method VirtToPhysPt(current: nat, vaddr: nat) returns (phys: Option<nat>)
      requires Shaped(View()) && current in roots && vaddr < L1_ENTRIES * SECT_SIZE
      ensures phys == Walk(View(), current, vaddr)
    {
      var l1pte := roots[current][L1Index(vaddr)];
      var offset := vaddr % PAGE_SIZE;
      if l1pte == NoL1 {
        return None;
      }
      if l1pte.Section? {
        return Some(l1pte.sect * SECT_SIZE + offset);
      } else {
        var l2pte := tables[l1pte.addr][L2Index(vaddr)];
        return Some((if l2pte.Page? then l2pte.pfn * PAGE_SIZE else 0) + offset);
      }
    }

    /** pgtable_copy_kernel_area */
    method CopyKernelArea(r: nat)
      requires Shaped(View()) && r in roots && sysRoot in roots
      modifies this`roots
      ensures roots == old(roots)[r := KernelCopied(old(roots)[r], old(roots)[sysRoot], L1_ENTRIES)]
    {
      var i := USER_SLOTS as nat;
      assert KernelCopied(roots[r], roots[sysRoot], i) == roots[r];
      assert roots == roots[r := roots[r]];
      while i < L1_ENTRIES
        invariant USER_SLOTS <= i <= L1_ENTRIES
        invariant roots == old(roots)[r := KernelCopied(old(roots)[r], old(roots)[sysRoot], i)]
      {
        roots := roots[r := roots[r][i := roots[sysRoot][i]]];
        assert roots[r] == KernelCopied(old(roots)[r], old(roots)[sysRoot], i + 1);
        i := i + 1;
      }
    }

    /** new_root_pgtable: an empty root at an address that no root has. */
    method NewRootPgtable() returns (r: nat)
      modifies this`roots
      ensures r !in old(roots) && r != NULL && r != sysRoot
      ensures roots == old(roots)[r := BlankRoot()]
    {
      SomeFresh(roots.Keys + {NULL, sysRoot});
      r :| r !in roots.Keys + {NULL, sysRoot};
      roots := roots[r := BlankRoot()];
    }

    /** reset_root_pgtable: every level-2 table of the user slots is freed, once. */
    method ResetRootPgtable(r: nat, remove: bool)
      requires Shaped(View()) && Unshared(View()) && r in roots
      modifies this
      ensures View() == Reset(old(View()), r, USER_SLOTS, remove)
    {
      ghost var a := View();
      var i := 0;
      assert Emptied(a.roots[r], 0) == a.roots[r] && UserTables(a, r, 0) == {};
      assert a.roots == a.roots[r := a.roots[r]];
      while i < USER_SLOTS
        invariant 0 <= i <= USER_SLOTS
        invariant View() == Reset(a, r, i, false)
      {
        var l1pte := roots[r][i];
        assert l1pte == a.roots[r][i];
        assert UserTables(a, r, i + 1) == UserTables(a, r, i) + if l1pte.Table? then {l1pte.addr} else {};
        if l1pte != NoL1 {
          if !l1pte.Section? {
            Free(l1pte.addr);
          }
          roots := roots[r := roots[r][i := NoL1]];
        }
        assert roots[r] == Emptied(a.roots[r], i + 1);
        i := i + 1;
      }
      if remove {
        roots := roots - {r};
      }
    }

    /** duplicate_user_space, lines 469 to 476: an empty level-2 table for slot i. */
    method NewL2Table(r: nat, i: nat) returns (t: nat)
      requires r in roots && i < |roots[r]|
      modifies this
      ensures t !in old(tables) && View() == WithTable(old(View()), r, i, t)
    {
      t := Memalign();
      tables := tables[t := Blank()];
      roots := roots[r := roots[r][i := Table(t)]];
    }

    /** duplicate_user_space, lines 484 and 495: entry j of slot i. */
    method WriteL2(r: nat, i: nat, j: nat, pfn: nat)
      requires r in roots && i < |roots[r]| && roots[r][i].Table? && roots[r][i].addr in tables && j < |tables[roots[r][i].addr]|
      modifies this`tables
      ensures View() == WithPage(old(View()), old(roots)[r][i].addr, j, pfn)
    {
      var t := roots[r][i].addr;
      tables := tables[t := tables[t][j := Page(pfn)]];
    }
  }
}
