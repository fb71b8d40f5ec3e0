/**
 * The two-level ARM page tables of arch/arm32/mmu.c.
 *
 * Kernel memory is explicit: a level-1 (root) table and a level-2 table are both known by
 * their address, and a level-1 entry holds the address of its level-2 table, so two roots
 * can share one (they do, in the kernel area) and a freed table is an address that is no
 * longer in `tables`.
 */
module PageTables {
  import opened Wrappers

  const PAGE_SIZE := 0x1000
  const SECT_SIZE := 0x10_0000
  const L1_ENTRIES := 4096
  const L2_ENTRIES := 256

  // l1pte_index(CONFIG_KERNEL_VADDR): slots below it are user space. Any split will do.
  type Split = k: nat | 0 < k < L1_ENTRIES witness 3072
  const USER_SLOTS: Split

  datatype L1Pte = NoL1 | Section(sect: nat) | Table(addr: nat)
  datatype L2Pte = NoL2 | Page(pfn: nat)
  datatype Space = Space(roots: map<nat, seq<L1Pte>>, tables: map<nat, seq<L2Pte>>)

  /** The flat map: the frame that slot i, entry j of root r translates to. */
  function Lookup(s: Space, r: nat, i: nat, j: nat): Option<nat> {
    if r in s.roots && i < |s.roots[r]| && j < L2_ENTRIES then
      match s.roots[r][i]
      case NoL1 => None
      case Section(n) => Some(L2_ENTRIES * n + j)
      case Table(t) =>
        if t in s.tables && j < |s.tables[t]| && s.tables[t][j].Page? then Some(s.tables[t][j].pfn) else None
    else None
  }

  ghost predicate Shaped(s: Space) {
    && (forall r :: r in s.roots ==> |s.roots[r]| == L1_ENTRIES)
    && (forall t :: t in s.tables ==> |s.tables[t]| == L2_ENTRIES)
    && (forall r, i :: r in s.roots && 0 <= i < L1_ENTRIES && s.roots[r][i].Table? ==> s.roots[r][i].addr in s.tables)
  }

  /** A level-2 table hangs below one slot only; in user space, below one root only. */
  ghost predicate Unshared(s: Space)
    requires Shaped(s)
  {
    forall r, i, q, j ::
      && r in s.roots && q in s.roots && 0 <= i < L1_ENTRIES && 0 <= j < L1_ENTRIES
      && s.roots[r][i].Table? && s.roots[q][j] == s.roots[r][i]
      ==> i == j && (r == q || USER_SLOTS <= i)
  }

  predicate InUse(c: seq<L2Pte>) {
    exists j :: 0 <= j < |c| && c[j].Page?
  }

  /** A level-1 table entry is non-zero only while its level-2 table has a non-zero entry. */
  ghost predicate Dense(s: Space) {
    forall t :: t in s.tables ==> InUse(s.tables[t])
  }

  ghost predicate Held(s: Space, t: nat) {
    exists r, i :: r in s.roots && 0 <= i < |s.roots[r]| && s.roots[r][i] == Table(t)
  }

  /** Slot i of some other root holds what root r's does. */
  ghost predicate HeldElsewhere(s: Space, r: nat, i: nat)
    requires Shaped(s) && r in s.roots && i < L1_ENTRIES
  {
    exists q :: q in s.roots && q != r && s.roots[q][i] == s.roots[r][i]
  }

  /** No allocated level-2 table has been lost. */
  ghost predicate NoLeak(s: Space) {
    forall t :: t in s.tables ==> Held(s, t)
  }

  ghost predicate WellFormed(s: Space) {
    Shaped(s) && Unshared(s) && Dense(s) && NoLeak(s)
  }
}
