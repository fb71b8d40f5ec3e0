/** Runs of system calls and user stores by any processes, in any order. */
module KernelRuns {
  import opened Wrappers
  import opened PageTables
  import opened KernelState
  import opened KernelSteps
  import opened KernelFork
  import opened KernelExec
  import Runs

  datatype Op =
    | Fork(pid: nat)
    | Exec(pid: nat, entry: nat, segPages: nat)
    | Exit(pid: nat, status: int)
    | Wait(pid: nat, child: nat)
    | Sbrk(pid: nat, increment: int)
    | Store(pid: nat, slot: nat, entry: nat, off: nat, value: byte)

  ghost predicate Step(a: Sys, op: Op, b: Sys) {
    var k := Index(a.procs, op.pid);
    && k < |a.procs| && a.procs[k].state != ZOMBIE
    && match op
       case Fork(_) => ForkDone(a, b, k) && WellFormed(b.space)
       case Exec(_, entry, segPages) => Fits(entry, segPages) && ExecDone(a, b, k, entry, segPages) && WellFormed(b.space)
       case Exit(_, status) => ExitDone(a, b, k, status)
       case Wait(_, child) => WaitDone(a, b, Index(a.procs, child))
       case Sbrk(_, increment) => -0x8000_0000 <= increment < 0x8000_0000 && exists ret :: SbrkDone(a, b, k, increment, ret)
       case Store(_, i, j, off, v) => StoreDone(a, b, k, i, j, off, v)
  }

  ghost predicate IsRun(states: seq<Sys>, ops: seq<Op>) {
    Runs.IsRun((a, op, b) => Step(a, op, b), states, ops)
  }

  lemma StepKeeps(a: Sys, op: Op, b: Sys)
    requires Inv(a) && Step(a, op, b)
    ensures Inv(b)
  {
    var k := Index(a.procs, op.pid);
    match op
    case Fork(_) => ForkKeeps(a, b, k);
    case Exec(_, entry, segPages) => ExecKeeps(a, b, k, entry, segPages);
    case Exit(_, status) => ExitKeeps(a, b, k, status);
    case Wait(_, child) => WaitKeeps(a, b, Index(a.procs, child));
    case Sbrk(_, increment) =>
      var ret :| SbrkDone(a, b, k, increment, ret);
      SbrkKeeps(a, b, k, increment, ret);
    case Store(_, i, j, off, v) => StoreKeeps(a, b, k, i, j, off, v);
  }

  /**
   * The kernel's invariant holds in every state of every run: frame reference counts equal
   * page-list entries, no live process maps a free frame or another's, no page table is lost
   * or shared, pids ascend and parents are on the list, exec'd processes are accounted for.
   */
  lemma RunKeeps(states: seq<Sys>, ops: seq<Op>, n: nat)
    requires IsRun(states, ops) && Inv(states[0]) && n < |states|
    ensures Inv(states[n])
  {
    StepsKeep();
    Runs.Throughout((a, op, b) => Step(a, op, b), s => Inv(s), states, ops, n);
  }

  lemma StepsKeep()
    ensures forall a, op, b :: Inv(a) && Step(a, op, b) ==> Inv(b)
  {
    forall a, op, b | Inv(a) && Step(a, op, b) ensures Inv(b) {
      StepKeeps(a, op, b);
    }
  }

  // What a process sees.

  predicate Live(s: Sys, q: nat) {
    Exists(s.procs, q) && s.procs[Index(s.procs, q)].state != ZOMBIE
  }

  /** The bytes that process q reads in its user page (i, j). */
  function UserPage(s: Sys, q: nat, i: nat, j: nat): Option<seq<byte>>
    requires Exists(s.procs, q)
  {
    match Lookup(s.space, s.procs[Index(s.procs, q)].root, i, j)
    case None => None
    case Some(f) => if f in s.ram then Some(s.ram[f]) else None
  }

  ghost predicate SeesSame(a: Sys, b: Sys, q: nat) {
    && Live(a, q) && Live(b, q)
    && forall i, j :: 0 <= i < USER_SLOTS && 0 <= j < L2_ENTRIES ==> UserPage(b, q, i, j) == UserPage(a, q, i, j)
  }

  lemma IndexAt(procs: seq<Pcb>, k: nat)
    requires PidsAscend(procs) && k < |procs|
    ensures Index(procs, procs[k].pid) == k
  {
  }

  /** A process on the list before and after, with its root and its frames left alone, sees the same. */
  lemma Unaffected(a: Sys, b: Sys, m: nat, n: nat)
    requires PidsAscend(a.procs) && PidsAscend(b.procs) && m < |a.procs| && n < |b.procs|
    requires a.procs[m].pid == b.procs[n].pid && a.procs[m].root == b.procs[n].root
    requires a.procs[m].state != ZOMBIE && b.procs[n].state != ZOMBIE
    requires SameView(a.space, b.space, a.procs[m].root)
    requires forall i, j, f :: UserMaps(a.space, a.procs[m].root, i, j, f) ==> f in a.ram && f in b.ram && b.ram[f] == a.ram[f]
    ensures SeesSame(a, b, a.procs[m].pid)
  {
    IndexAt(a.procs, m);
    IndexAt(b.procs, n);
    var q, r := a.procs[m].pid, a.procs[m].root;
    forall i, j | 0 <= i < USER_SLOTS && 0 <= j < L2_ENTRIES ensures UserPage(b, q, i, j) == UserPage(a, q, i, j) {
      if Lookup(a.space, r, i, j).Some? { assert UserMaps(a.space, r, i, j, Lookup(a.space, r, i, j).value); }
    }
  }

  /** What a live process maps is in RAM; it is on its own page list, or in the root's image. */
  lemma MapsOwned(s: Sys, m: nat, i: nat, j: nat, f: nat)
    requires FrameInv(s) && ProcessInv(s) && m < |s.procs| && s.procs[m].state != ZOMBIE
    requires UserMaps(s.space, s.procs[m].root, i, j, f)
    ensures f in s.ram && (f in s.refcount || f in s.image)
    ensures f in s.procs[m].pages || (f in s.image && s.procs[m].parent == None)
    ensures f in s.procs[m].pages ==> f in s.refcount
  {
    assert ProcessOk(s, s.procs[m]);
    if f in s.procs[m].pages { AllPagesHas(s.procs, m, f); }
  }

  /** Two live processes never map the same frame. */
  lemma MapsApart(s: Sys, m: nat, n: nat, i: nat, j: nat, x: nat, y: nat, f: nat)
    requires Inv(s) && m < |s.procs| && n < |s.procs| && m != n
    requires s.procs[m].state != ZOMBIE && s.procs[n].state != ZOMBIE
    requires UserMaps(s.space, s.procs[m].root, i, j, f)
    ensures !UserMaps(s.space, s.procs[n].root, x, y, f)
    ensures f !in s.procs[n].pages
  {
    MapsOwned(s, m, i, j, f);
    if f in s.procs[m].pages { OneOwner(s, m, n, f); }
    if f in s.procs[n].pages { OneOwner(s, n, m, f); }
    if UserMaps(s.space, s.procs[n].root, x, y, f) { MapsOwned(s, n, x, y, f); }
  }

  lemma ForkIsolates(a: Sys, b: Sys, k: nat, m: nat)
    requires Inv(a) && PidsAscend(b.procs) && ForkDone(a, b, k) && m < |a.procs| && a.procs[m].state != ZOMBIE
    ensures SeesSame(a, b, a.procs[m].pid)
  {
    forall i: nat, j: nat, f: nat | UserMaps(a.space, a.procs[m].root, i, j, f) ensures f in a.ram && f in b.ram && b.ram[f] == a.ram[f] {
      MapsOwned(a, m, i, j, f);
    }
    Unaffected(a, b, m, m);
  }

  lemma ExecIsolates(a: Sys, b: Sys, k: nat, entry: nat, segPages: nat, m: nat)
    requires Inv(a) && PidsAscend(b.procs) && ExecDone(a, b, k, entry, segPages) && m < |a.procs| && a.procs[m].state != ZOMBIE && m != k
    ensures SeesSame(a, b, a.procs[m].pid)
  {
    forall i: nat, j: nat, f: nat | UserMaps(a.space, a.procs[m].root, i, j, f) ensures f in a.ram && f in b.ram && b.ram[f] == a.ram[f] {
      MapsOwned(a, m, i, j, f);
      MapsApart(a, m, k, i, j, i, j, f);
    }
    assert a.procs[m].root != a.procs[k].root;
    Unaffected(a, b, m, m);
  }

  lemma ExitIsolates(a: Sys, b: Sys, k: nat, status: int, m: nat)
    requires Inv(a) && PidsAscend(b.procs) && ExitDone(a, b, k, status) && m < |a.procs| && a.procs[m].state != ZOMBIE && m != k
    ensures SeesSame(a, b, a.procs[m].pid)
  {
    forall i: nat, j: nat, f: nat | UserMaps(a.space, a.procs[m].root, i, j, f) ensures f in a.ram && f in b.ram && b.ram[f] == a.ram[f] {
      MapsOwned(a, m, i, j, f);
      MapsApart(a, m, k, i, j, i, j, f);
    }
    Unaffected(a, b, m, m);
  }

  /** A live process is still on the list after a wait, with its translations. */
  lemma WaitView(a: Sys, b: Sys, k: nat, m: nat) returns (n: nat)
    requires StatesOk(a.procs, a.pidCurrent) && SpaceInv(a) && WaitDone(a, b, k) && m < |a.procs| && a.procs[m].state != ZOMBIE
    ensures n < |b.procs| && b.procs[n] == a.procs[m] && SameView(a.space, b.space, a.procs[m].root) && b.ram == a.ram
  {
    WaitSpace(a, k);
    n := if HasChild(a.procs, a.procs[k].pid) || m < k then m else m - 1;
    assert a.procs[m].root in b.space.roots;
  }

  lemma WaitIsolates(a: Sys, b: Sys, k: nat, m: nat)
    requires TreeInv(a) && SpaceInv(a) && FrameInv(a) && ProcessInv(a)
    requires PidsAscend(b.procs) && WaitDone(a, b, k) && m < |a.procs| && a.procs[m].state != ZOMBIE
    ensures SeesSame(a, b, a.procs[m].pid)
  {
    var n := WaitView(a, b, k, m);
    ReadsRam(a, m);
    Unaffected(a, b, m, n);
  }

  lemma ReadsRam(s: Sys, m: nat)
    requires FrameInv(s) && ProcessInv(s) && m < |s.procs| && s.procs[m].state != ZOMBIE
    ensures forall i, j, f :: UserMaps(s.space, s.procs[m].root, i, j, f) ==> f in s.ram
  {
    forall i: nat, j: nat, f: nat | UserMaps(s.space, s.procs[m].root, i, j, f) ensures f in s.ram {
      MapsOwned(s, m, i, j, f);
    }
  }

  lemma SbrkIsolates(a: Sys, b: Sys, k: nat, increment: int, ret: int, m: nat)
    requires Inv(a) && PidsAscend(b.procs) && SbrkDone(a, b, k, increment, ret) && m < |a.procs| && a.procs[m].state != ZOMBIE
    ensures SeesSame(a, b, a.procs[m].pid)
  {
    forall i: nat, j: nat, f: nat | UserMaps(a.space, a.procs[m].root, i, j, f) ensures f in a.ram {
      MapsOwned(a, m, i, j, f);
    }
    Unaffected(a, b, m, m);
  }

  lemma StoreIsolates(a: Sys, b: Sys, k: nat, i: nat, j: nat, off: nat, v: byte, m: nat)
    requires Inv(a) && PidsAscend(b.procs) && StoreDone(a, b, k, i, j, off, v) && m < |a.procs| && a.procs[m].state != ZOMBIE && m != k
    ensures SeesSame(a, b, a.procs[m].pid)
  {
    forall x: nat, y: nat, f: nat | UserMaps(a.space, a.procs[m].root, x, y, f) ensures f in a.ram && f in b.ram && b.ram[f] == a.ram[f] {
      MapsOwned(a, m, x, y, f);
      MapsApart(a, m, k, x, y, i, j, f);
    }
    Unaffected(a, b, m, m);
  }

  /** A step by another process changes nothing that q reads. */
  lemma StepIsolates(a: Sys, op: Op, b: Sys, q: nat)
    requires Inv(a) && Step(a, op, b) && Live(a, q) && op.pid != q
    ensures SeesSame(a, b, q)
  {
    StepKeeps(a, op, b);
    var k, m := Index(a.procs, op.pid), Index(a.procs, q);
    match op
    case Fork(_) => ForkIsolates(a, b, k, m);
    case Exec(_, entry, segPages) => ExecIsolates(a, b, k, entry, segPages, m);
    case Exit(_, status) => ExitIsolates(a, b, k, status, m);
    case Wait(_, child) => WaitIsolates(a, b, Index(a.procs, child), m);
    case Sbrk(_, increment) =>
      var ret :| SbrkDone(a, b, k, increment, ret);
      SbrkIsolates(a, b, k, increment, ret, m);
    case Store(_, i, j, off, v) => StoreIsolates(a, b, k, i, j, off, v, m);
  }

  /**
   * Isolation over every run: whatever the other processes do, stores, forks, execs, exits
   * and waits, a process that takes no step itself stays alive and reads the same bytes on
   * every page of its user space.
   */
  lemma RunIsolates(states: seq<Sys>, ops: seq<Op>, q: nat, n: nat)
    requires IsRun(states, ops) && Inv(states[0]) && Live(states[0], q) && n < |states|
    requires forall x :: 0 <= x < |ops| ==> ops[x].pid != q
    ensures SeesSame(states[0], states[n], q)
  {
    StepsIsolate(states[0], q);
    Runs.Throughout((a, op: Op, b) => Step(a, op, b) && op.pid != q, s => Inv(s) && SeesSame(states[0], s, q), states, ops, n);
  }

  lemma StepsIsolate(s: Sys, q: nat)
    ensures forall a, op: Op, b :: Inv(a) && SeesSame(s, a, q) && Step(a, op, b) && op.pid != q ==> Inv(b) && SeesSame(s, b, q)
  {
    forall a, op: Op, b | Inv(a) && SeesSame(s, a, q) && Step(a, op, b) && op.pid != q ensures Inv(b) && SeesSame(s, b, q) {
      StepKeeps(a, op, b);
      StepIsolates(a, op, b, q);
      SameTransitive(s, a, b, q);
    }
  }

  lemma SameTransitive(a: Sys, b: Sys, c: Sys, q: nat)
    requires SeesSame(a, b, q) && SeesSame(b, c, q)
    ensures SeesSame(a, c, q)
  {
    forall i, j | 0 <= i < USER_SLOTS && 0 <= j < L2_ENTRIES ensures UserPage(c, q, i, j) == UserPage(a, q, i, j) {
      assert UserPage(b, q, i, j) == UserPage(a, q, i, j);
    }
  }

  /** Right after a fork the child reads what the parent reads. */
  lemma ForkCopies(a: Sys, b: Sys, k: nat, i: nat, j: nat)
    requires PidsAscend(a.procs) && PidsAscend(b.procs) && ForkDone(a, b, k) && i < USER_SLOTS && j < L2_ENTRIES
    ensures var parent, child := a.procs[k].pid, b.procs[|a.procs|].pid;
            Exists(a.procs, parent) && Exists(b.procs, child) && UserPage(b, child, i, j) == UserPage(a, parent, i, j)
  {
    IndexAt(a.procs, k);
    IndexAt(b.procs, |a.procs|);
    ForkMaps(a, b, k, i, j);
  }

  /** A store by the process itself is read back, and changes no other page of its own. */
  lemma StoreReadsBack(a: Sys, b: Sys, k: nat, i: nat, j: nat, off: nat, v: byte, x: nat, y: nat)
    requires Inv(a) && StoreDone(a, b, k, i, j, off, v) && x < USER_SLOTS && y < L2_ENTRIES
    ensures Exists(a.procs, a.procs[k].pid) && Exists(b.procs, a.procs[k].pid)
    ensures var before, after := UserPage(a, a.procs[k].pid, x, y), UserPage(b, a.procs[k].pid, x, y);
            if before.Some? && x == i && y == j then off < |before.value| && after == Some(SetByte(before.value, off, v))
            else after == before
  {
    IndexAt(a.procs, k);
    var r := a.procs[k].root;
    assert ProcessOk(a, a.procs[k]);
    if Lookup(a.space, r, i, j).Some? && Lookup(a.space, r, x, y) == Lookup(a.space, r, i, j) {
      assert UserMaps(a.space, r, i, j, Lookup(a.space, r, i, j).value) && UserMaps(a.space, r, x, y, Lookup(a.space, r, i, j).value);
    }
  }

  /** Page (i, j) of process q after the operations: q's own stores, in order, and nothing else. */
  function AfterStores(page: Option<seq<byte>>, ops: seq<Op>, q: nat, i: nat, j: nat): Option<seq<byte>> {
    if ops == [] then page
    else
      var before := AfterStores(page, ops[..|ops| - 1], q, i, j);
      match ops[|ops| - 1]
      case Store(pid, m, n, off, v) =>
        if pid == q && m == i && n == j && before.Some? && off < |before.value| then Some(SetByte(before.value, off, v))
        else before
      case _ => before
  }

  /** What q reads after a step of any process, unless q itself execs or exits. */
  lemma StepReads(a: Sys, op: Op, b: Sys, q: nat, i: nat, j: nat)
    requires Inv(a) && Step(a, op, b) && Live(a, q) && i < USER_SLOTS && j < L2_ENTRIES
    requires op.pid == q ==> !op.Exec? && !op.Exit?
    ensures Live(b, q) && UserPage(b, q, i, j) == AfterStores(UserPage(a, q, i, j), [op], q, i, j)
  {
    hide Inv, UserPage, ForkDone, ExecDone, ExitDone, WaitDone, SbrkDone;
    assert [op][..0] == [];
    if op.pid != q {
      StepIsolates(a, op, b, q);
    } else if op.Store? {
      OwnStore(a, op, b, i, j);
    } else {
      StepReadsOwn(a, op, b);
    }
  }

  lemma OwnStore(a: Sys, op: Op, b: Sys, i: nat, j: nat)
    requires Inv(a) && Step(a, op, b) && op.Store? && Live(a, op.pid) && i < USER_SLOTS && j < L2_ENTRIES
    ensures Live(b, op.pid)
    ensures var before := UserPage(a, op.pid, i, j);
            UserPage(b, op.pid, i, j) ==
            if op.slot == i && op.entry == j && before.Some? && op.off < |before.value| then Some(SetByte(before.value, op.off, op.value))
            else before
  {
    hide Inv, UserPage;
    var k := Index(a.procs, op.pid);
    StoreReadsBack(a, b, k, op.slot, op.entry, op.off, op.value, i, j);
    assert b.procs == a.procs;
  }

  /** fork, wait and sbrk change nothing that the caller reads. */
  lemma StepReadsOwn(a: Sys, op: Op, b: Sys)
    requires Inv(a) && Step(a, op, b) && Live(a, op.pid) && (op.Fork? || op.Wait? || op.Sbrk?)
    ensures SeesSame(a, b, op.pid)
  {
    StepKeeps(a, op, b);
    hide ForkDone, WaitDone, SbrkDone, SeesSame, SpaceInv, FrameInv, ProcessInv;
    var k := Index(a.procs, op.pid);
    match op
    case Fork(_) => ForkIsolates(a, b, k, k);
    case Wait(_, child) => WaitIsolates(a, b, Index(a.procs, child), k);
    case Sbrk(_, increment) =>
      var ret :| SbrkDone(a, b, k, increment, ret);
      SbrkIsolates(a, b, k, increment, ret, k);
  }

  /**
   * Memory over every run: a process that neither execs nor exits reads on every user page
   * exactly its own stores applied to what it read at the start, whatever it and the others do.
   */
  lemma {:induction false} RunReads(states: seq<Sys>, ops: seq<Op>, q: nat, i: nat, j: nat, n: nat)
    requires IsRun(states, ops) && Inv(states[0]) && Live(states[0], q) && n < |states|
    requires i < USER_SLOTS && j < L2_ENTRIES
    requires forall x :: 0 <= x < |ops| && ops[x].pid == q ==> !ops[x].Exec? && !ops[x].Exit?
    ensures Live(states[n], q)
    ensures UserPage(states[n], q, i, j) == AfterStores(UserPage(states[0], q, i, j), ops[..n], q, i, j)
  {
    hide Inv, Step, UserPage, Live;
    if n > 0 {
      RunReads(states, ops, q, i, j, n - 1);
      RunKeeps(states, ops, n - 1);
      StepReads(states[n - 1], ops[n - 1], states[n], q, i, j);
      assert ops[..n][..n - 1] == ops[..n - 1];
      assert [ops[n - 1]][..0] == [];
    }
  }

  /** What UserPage stands for: the bytes of the frame that the process's own tables give. */
  lemma ReadsFrame(s: Sys, m: nat, i: nat, j: nat)
    requires Inv(s) && m < |s.procs| && s.procs[m].state != ZOMBIE && i < USER_SLOTS && j < L2_ENTRIES
    ensures Live(s, s.procs[m].pid)
    ensures match Lookup(s.space, s.procs[m].root, i, j)
            case None => UserPage(s, s.procs[m].pid, i, j) == None
            case Some(f) => f in s.ram && UserPage(s, s.procs[m].pid, i, j) == Some(s.ram[f])
  {
    IndexAt(s.procs, m);
    if Lookup(s.space, s.procs[m].root, i, j).Some? {
      MapsOwned(s, m, i, j, Lookup(s.space, s.procs[m].root, i, j).value);
    }
  }

  // Exit statuses.

  /** p, after the step, is what became of q: only its own exit makes it a zombie or sets its status. */
  ghost predicate Became(q: Pcb, op: Op, p: Pcb) {
    && p.pid == q.pid
    && (if op.Exit? && op.pid == q.pid then p.state == ZOMBIE && p.exitStatus == op.status
        else p.exitStatus == q.exitStatus && (p.state == ZOMBIE <==> q.state == ZOMBIE))
  }

  /** Every PCB after a step, but a new child's, was there before. */
  lemma StepPcb(a: Sys, op: Op, b: Sys, n: nat) returns (m: nat)
    requires PidsAscend(a.procs) && Step(a, op, b) && n < |b.procs| && b.procs[n].pid < a.pidCurrent
    ensures m < |a.procs| && Became(a.procs[m], op, b.procs[n])
  {
    hide ForkDone, ExecDone, ExitDone, SbrkDone, WaitDone, StoreDone, WellFormed, Fits;
    var k := Index(a.procs, op.pid);
    m := n;
    match op
    case Fork(_) => ForkPcb(a, b, k, n);
    case Exec(_, entry, segPages) => ExecPcb(a, b, k, entry, segPages);
    case Exit(_, status) => ExitPcb(a, b, k, status);
    case Wait(_, child) => m := WaitPcb(a, b, Index(a.procs, child), n);
    case Sbrk(_, increment) =>
      var ret :| SbrkDone(a, b, k, increment, ret);
      SbrkPcb(a, b, k, increment, ret);
    case Store(_, i, j, off, v) => StorePcb(a, b, k, i, j, off, v);
  }

  lemma ForkPcb(a: Sys, b: Sys, k: nat, n: nat)
    requires ForkDone(a, b, k) && n < |b.procs| && b.procs[n].pid < a.pidCurrent
    ensures n < |a.procs| && b.procs[n] == a.procs[n]
  {
    hide RootAdded, FramesTaken, UserCopied;
  }

  lemma ExecPcb(a: Sys, b: Sys, k: nat, entry: nat, segPages: nat)
    requires ExecDone(a, b, k, entry, segPages)
    ensures |b.procs| == |a.procs|
    ensures forall m :: 0 <= m < |a.procs| ==>
              b.procs[m].pid == a.procs[m].pid && b.procs[m].state == a.procs[m].state && b.procs[m].exitStatus == a.procs[m].exitStatus
  {
    hide ImageMapped, FramesTaken;
  }

  lemma ExitPcb(a: Sys, b: Sys, k: nat, status: int)
    requires PidsAscend(a.procs) && ExitDone(a, b, k, status)
    ensures |b.procs| == |a.procs| && k < |a.procs| && b.procs[k].state == ZOMBIE && b.procs[k].exitStatus == status
    ensures b.procs[k].pid == a.procs[k].pid
    ensures forall m :: 0 <= m < |a.procs| && m != k ==> b.procs[m] == a.procs[m] && a.procs[m].pid != a.procs[k].pid
  {
    hide FramesFreed;
  }

  lemma WaitPcb(a: Sys, b: Sys, z: nat, n: nat) returns (m: nat)
    requires WaitDone(a, b, z) && n < |b.procs|
    ensures m < |a.procs|
    ensures b.procs[n].pid == a.procs[m].pid && b.procs[n].state == a.procs[m].state && b.procs[n].exitStatus == a.procs[m].exitStatus
  {
    m := if !HasChild(a.procs, a.procs[z].pid) && z <= n then n + 1 else n;
  }

  lemma StorePcb(a: Sys, b: Sys, k: nat, i: nat, j: nat, off: nat, v: byte)
    requires StoreDone(a, b, k, i, j, off, v)
    ensures b.procs == a.procs
  {
  }

  lemma SbrkPcb(a: Sys, b: Sys, k: nat, increment: int, ret: int)
    requires SbrkDone(a, b, k, increment, ret)
    ensures |b.procs| == |a.procs| && forall m :: 0 <= m < |a.procs| ==> b.procs[m] == a.procs[m].(heapPointer := b.procs[m].heapPointer)
  {
  }

  /** Over every run: a zombie that was not one at the start has the status that it exited with. */
  lemma {:induction false} RunStatus(states: seq<Sys>, ops: seq<Op>, n: nat, z: nat)
    requires IsRun(states, ops) && Inv(states[0]) && n < |states| && z < |states[n].procs| && states[n].procs[z].state == ZOMBIE
    ensures var p := states[n].procs[z];
            || (exists y :: 0 <= y < |states[0].procs| && states[0].procs[y].pid == p.pid && states[0].procs[y].state == ZOMBIE)
            || (exists x :: 0 <= x < n && ops[x] == Exit(p.pid, p.exitStatus))
  {
    hide Inv, Step;
    if n > 0 {
      var a, op, b := states[n - 1], ops[n - 1], states[n];
      RunStep(states, ops, n - 1);
      RunKeeps(states, ops, n - 1);
      OldZombie(a, op, b, z);
      var y := StepPcb(a, op, b, z);
      if !(op.Exit? && op.pid == b.procs[z].pid) {
        RunStatus(states, ops, n - 1, y);
      } else {
        assert ops[n - 1] == Exit(b.procs[z].pid, b.procs[z].exitStatus);
      }
    }
  }

  lemma RunStep(states: seq<Sys>, ops: seq<Op>, n: nat)
    requires IsRun(states, ops) && n < |ops|
    ensures Step(states[n], ops[n], states[n + 1])
  {
  }

  /** A fork's child is no zombie. */
  lemma OldZombie(a: Sys, op: Op, b: Sys, z: nat)
    requires Inv(a) && Step(a, op, b) && z < |b.procs| && b.procs[z].state == ZOMBIE
    ensures PidsAscend(a.procs) && b.procs[z].pid < a.pidCurrent
  {
    hide ExecDone, ExitDone, SbrkDone, RootAdded, FramesTaken, UserCopied, SpaceInv, FrameInv, ProcessInv;
    StepKeeps(a, op, b);
    if op.Fork? {
      assert b.procs[..|a.procs|] == a.procs;
      assert z < |a.procs| ==> b.procs[z] == a.procs[z];
    } else {
      SamePids(a, op, b);
    }
  }

  lemma SamePids(a: Sys, op: Op, b: Sys)
    requires Step(a, op, b) && !op.Fork?
    ensures b.pidCurrent == a.pidCurrent
  {
  }

  /** page_count, the length of the page list and the number of mapped user pages agree after exec. */
  lemma ExecAccounting(s: Sys, k: nat)
    requires Inv(s) && k < |s.procs| && s.procs[k].state != ZOMBIE && s.procs[k].heapBase != 0
    ensures s.procs[k].pageCount == |s.procs[k].pages| == |MappedPages(s.space, s.procs[k].root)|
  {
    var p := s.procs[k];
    assert ProcessOk(s, p);
    forall f: nat ensures multiset(p.pages)[f] <= 1 { ListedOnce(s, k, f); }
    CountDistinct(p.pages);
    MappedCount(s.space, p.root, p.pages);
  }

  /** Every address from heap_base up to the break is mapped. */
  lemma HeapMapped(s: Sys, k: nat, addr: nat)
    requires Inv(s) && k < |s.procs| && s.procs[k].state != ZOMBIE && s.procs[k].heapBase != 0
    requires s.procs[k].heapBase <= addr < s.procs[k].heapPointer
    ensures Lookup(s.space, s.procs[k].root, addr / SECT_SIZE, addr / PAGE_SIZE % L2_ENTRIES).Some?
  {
    var p := s.procs[k];
    assert ProcessOk(s, p);
    var m := addr / PAGE_SIZE;
    assert addr / SECT_SIZE == m / L2_ENTRIES;
    assert m == L2_ENTRIES * (m / L2_ENTRIES) + m % L2_ENTRIES;
    assert p.heapBase / PAGE_SIZE <= m < p.heapBase / PAGE_SIZE + HEAP_PAGES;
    assert m / L2_ENTRIES < L1_ENTRIES;
  }

  /** Following parent pointers from pid, up is reached in so many steps. */
  ghost predicate Ancestor(procs: seq<Pcb>, pid: nat, up: nat, steps: nat)
    decreases steps
  {
    if steps == 0 then pid == up
    else
      var k := Index(procs, pid);
      k < |procs| && procs[k].parent.Some? && Ancestor(procs, procs[k].parent.value, up, steps - 1)
  }

  ghost predicate Tree(procs: seq<Pcb>) {
    PidsAscend(procs) && ParentsListed(procs)
  }

  lemma ParentExists(procs: seq<Pcb>, pid: nat)
    requires Tree(procs) && Exists(procs, pid) && procs[Index(procs, pid)].parent.Some?
    ensures var up := procs[Index(procs, pid)].parent.value; Exists(procs, up) && up < pid
  {
    var k := Index(procs, pid);
    assert ParentBefore(procs, k);
    var m :| 0 <= m < k && procs[m].pid == procs[k].parent.value;
    IndexAt(procs, m);
  }

  /** The parent relation has no cycle, and never leads off the list. */
  lemma {:induction false} AncestorsListed(procs: seq<Pcb>, pid: nat, up: nat, steps: nat)
    requires Exists(procs, pid) && Ancestor(procs, pid, up, steps) && Tree(procs)
    ensures Exists(procs, up) && (if steps == 0 then up == pid else up < pid)
  {
    if steps > 0 {
      ParentExists(procs, pid);
      AncestorsListed(procs, procs[Index(procs, pid)].parent.value, up, steps - 1);
    }
  }
}
