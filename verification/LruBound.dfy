/** The competitive bound of the LRU simulator holds for runs of up to 257 accesses, and for no longer ones. */
module LruBound {
  import opened Replacement
  import opened LruTheory

  // One access, by the set of pages held and their timestamps.

  ghost predicate Sound(s: Lru) {
    LruOk(s) && TableOk(s.table) && Unreferenced(s.table)
  }

  lemma AfterSound(run: seq<nat>, p: nat)
    requires Pages(run) && p < NB_PAGES
    ensures Pages(run + [p]) && Sound(After(run)) && After(run + [p]) == Access(After(run), p)
    ensures Faults(run + [p]) == Faults(run) + if p in ValidSet(After(run).table) then 0 else 1
  {
    hide After, Access, Ideal, Valid, IdealStep;
    AfterMore(run, p);
    assert (run + [p])[..|run|] == run;
    HeldValid(After(run).table, p);
  }

  lemma HeldValid(table: seq<bv8>, p: nat)
    requires p < |table|
    ensures Valid(table[p]) <==> p in ValidSet(table)
  {
  }

  lemma Hit(s: Lru, p: nat)
    requires Sound(s) && p in ValidSet(s.table)
    ensures Sound(Access(s, p)) && Access(s, p).table == s.table
  {
    hide Swap, Oldest, TableOk, Unreferenced;
    AccessOk(s, p);
    HeldValid(s.table, p);
  }

  /** A fault evicts the page that comes before the two others. */
  lemma Fault(s: Lru, p: nat, v: nat, x: nat, y: nat)
    requires Sound(s) && p < NB_PAGES && ValidSet(s.table) == {v, x, y} && p !in {v, x, y} && x != v && y != v
    requires x < NB_PAGES && y < NB_PAGES && v < NB_PAGES && Before(s.tdu, v, x) && Before(s.tdu, v, y)
    ensures Sound(Access(s, p)) && ValidSet(Access(s, p).table) == {x, y, p}
  {
    hide TableOk, Unreferenced, Access, Valid;
    AccessOk(s, p);
    HeldValid(s.table, p);
    assert forall i :: 0 <= i < NB_PAGES ==> (Valid(s.table[i]) <==> i in ValidSet(s.table));
    assert v in ValidSet(s.table) && x in ValidSet(s.table) && y in ValidSet(s.table);
    assert Oldest(s.table, s.tdu, NB_PAGES) == v;
  }

  /** One more access to a page that is not held. */
  lemma FaultOn(run: seq<nat>, p: nat, v: nat, x: nat, y: nat)
    requires Pages(run) && p < NB_PAGES && v < NB_PAGES && x < NB_PAGES && y < NB_PAGES && x != v && y != v
    requires var s := After(run);
             ValidSet(s.table) == {v, x, y} && p !in {v, x, y} && Before(s.tdu, v, x) && Before(s.tdu, v, y)
    ensures var more := run + [p]; var s, t := After(run), After(more);
            && Pages(more) && Faults(more) == Faults(run) + 1 && ValidSet(t.table) == {x, y, p}
            && t.counter == (s.counter + 1) % 256 && t.tdu == s.tdu[p := t.counter]
  {
    hide After, Access, Faults, TableOk, Unreferenced, ValidSet;
    AfterSound(run, p);
    Fault(After(run), p, v, x, y);
    AccessClock(After(run), p);
  }

  /** One more access to a page that is held. */
  lemma HitOn(run: seq<nat>, p: nat)
    requires Pages(run) && p < NB_PAGES && p in ValidSet(After(run).table)
    ensures var more := run + [p]; var s, t := After(run), After(more);
            && Pages(more) && Faults(more) == Faults(run) && t.table == s.table
            && t.counter == (s.counter + 1) % 256 && t.tdu == s.tdu[p := t.counter]
  {
    hide After, Access, Faults, TableOk, Unreferenced, ValidSet;
    AfterSound(run, p);
    Hit(After(run), p);
    AccessClock(After(run), p);
  }

  /** Repeating a page that is held costs nothing, and only moves its timestamp. */
  lemma {:induction false} Hits(run: seq<nat>, p: nat, n: nat)
    requires Pages(run) && p < NB_PAGES && p in ValidSet(After(run).table)
    ensures var more := run + Repeat(p, n); var s, t := After(run), After(more);
            && Pages(more) && Faults(more) == Faults(run) && t.table == s.table
            && t.counter == (s.counter + n) % 256
            && t.tdu == if n == 0 then s.tdu else s.tdu[p := (s.counter + n) % 256]
  {
    hide After, Faults, ValidSet, TableOk, Unreferenced;
    if n == 0 {
      assert run + Repeat(p, 0) == run;
    } else {
      Hits(run, p, n - 1);
      var less := run + Repeat(p, n - 1);
      assert run + Repeat(p, n) == less + [p];
      HitOn(less, p);
    }
  }

  // The runs that break the bound: two pages that age, one that is repeated until the clock is
  // about to wrap, and then four faults.

  function Opening(x: nat, y: nat, z: nat): seq<nat> { [x, y, z] + Repeat(z, 251) }

  function Breaking(x: nat, y: nat, z: nat, w: nat, n: nat): (run: seq<nat>)
    ensures |run| == 258 + n
  {
    Opening(x, y, z) + [w] + [x] + [y] + [x] + Repeat(x, n)
  }

  predicate Apart(x: nat, y: nat, z: nat, w: nat) {
    x < NB_PAGES && y < NB_PAGES && z < NB_PAGES && w < NB_PAGES && x != y && x != z && y != z && w !in {x, y, z}
  }

  /** x, y and z are held, x the older and y next, and the clock stands at z's last access. */
  ghost predicate Primed(s: Lru, x: nat, y: nat, z: nat, clock: nat)
    requires LruOk(s) && x < NB_PAGES && y < NB_PAGES && z < NB_PAGES
  {
    ValidSet(s.table) == {x, y, z} && s.tdu[x] == 1 && s.tdu[y] == 2 && s.tdu[z] == clock && s.counter == clock
  }

  lemma PrimedOpening(x: nat, y: nat, z: nat, w: nat)
    requires Apart(x, y, z, w) && Primed(After([x, y, z]), x, y, z, 3)
    ensures Pages(Opening(x, y, z)) && Primed(After(Opening(x, y, z)), x, y, z, 254)
    ensures Faults(Opening(x, y, z)) == Faults([x, y, z])
  {
    hide After, Faults;
    Hits([x, y, z], z, 251);
  }

  /** The wrapped clock makes each of four accesses evict the page that the next one needs. */
  lemma FourFaults(run: seq<nat>, x: nat, y: nat, z: nat, w: nat)
    requires Pages(run) && Apart(x, y, z, w) && Primed(After(run), x, y, z, 254)
    ensures var more := run + [w] + [x] + [y] + [x];
            Pages(more) && Faults(more) == Faults(run) + 4 && x in ValidSet(After(more).table)
  {
    hide After, Faults, ValidSet;
    FaultOn(run, w, x, y, z);
    FaultOn(run + [w], x, y, z, w);
    FaultOn(run + [w] + [x], y, x, z, w);
    FaultOn(run + [w] + [x] + [y], x, y, z, w);
  }

  lemma BreakingFaults(x: nat, y: nat, z: nat, w: nat, n: nat)
    requires Apart(x, y, z, w) && Primed(After([x, y, z]), x, y, z, 3)
    ensures Pages(Breaking(x, y, z, w, n)) && Faults(Breaking(x, y, z, w, n)) == Faults([x, y, z]) + 4
  {
    hide After, Faults, Primed;
    PrimedOpening(x, y, z, w);
    var run := Opening(x, y, z);
    FourFaults(run, x, y, z, w);
    Hits(run + [w] + [x] + [y] + [x], x, n);
  }

  // From the start: three hits, or three faults.

  lemma ThreeHits()
    ensures Primed(After([0, 1, 2]), 0, 1, 2, 3) && Faults([0, 1, 2]) == 0
  {
    StartOk();
    NoFaults();
    hide After, Faults, ValidSet, StartTable;
    assert [] + [0] == [0] && [0] + [1] == [0, 1] && [0, 1] + [2] == [0, 1, 2];
    HitOn([], 0);
    HitOn([0], 1);
    HitOn([0, 1], 2);
  }

  lemma NoFaults()
    ensures Faults([]) == 0 && After([]) == Start()
  {
  }

  lemma ThreeFaults()
    ensures Primed(After([3, 4, 5]), 3, 4, 5, 3) && Faults([3, 4, 5]) == 3
  {
    StartOk();
    NoFaults();
    hide After, Faults, ValidSet;
    assert [] + [3] == [3] && [3] + [4] == [3, 4] && [3, 4] + [5] == [3, 4, 5];
    FaultOn([], 3, 0, 1, 2);
    FaultOn([3], 4, 1, 2, 3);
    FaultOn([3, 4], 5, 2, 3, 4);
  }

  // A schedule that pays for one page only.

  ghost function OnePaid(x: nat, y: nat, z: nat, w: nat, n: nat): (caches: seq<set<nat>>)
    ensures |caches| == n + 1
  {
    seq(n + 1, k => if k <= 254 then {x, y, z} else {x, y, w})
  }

  ghost predicate PaysOnce(run: seq<nat>, x: nat, y: nat, z: nat, w: nat) {
    forall k :: 0 <= k < |run| ==> if k < 254 then run[k] in {x, y, z} else if k == 254 then run[k] == w else run[k] in {x, y}
  }

  lemma {:induction false} OnePaidFaults(run: seq<nat>, x: nat, y: nat, z: nat, w: nat)
    requires Apart(x, y, z, w) && PaysOnce(run, x, y, z, w)
    ensures IsSchedule(run, OnePaid(x, y, z, w, |run|))
    ensures ScheduleFaults(run, OnePaid(x, y, z, w, |run|)) == if |run| <= 254 then 0 else 1
  {
    var caches := OnePaid(x, y, z, w, |run|);
    ThreePages(x, y, z);
    ThreePages(x, y, w);
    if run != [] {
      var n := |run| - 1;
      OnePaidFaults(run[..n], x, y, z, w);
      assert caches[..n + 1] == OnePaid(x, y, z, w, n);
    }
  }

  lemma ThreePages(x: nat, y: nat, z: nat)
    ensures |{x, y, z}| <= 3
  {
    assert {x, y, z} == {x} + ({y} + {z});
  }

  lemma BreakingPaysOnce(x: nat, y: nat, z: nat, w: nat, n: nat)
    ensures PaysOnce(Breaking(x, y, z, w, n), x, y, z, w)
  {
    var run := Breaking(x, y, z, w, n);
    assert |Opening(x, y, z)| == 254;
    forall k | 0 <= k < |run|
      ensures if k < 254 then run[k] in {x, y, z} else if k == 254 then run[k] == w else run[k] in {x, y}
    {
      if k < 254 {
        assert run[k] == Opening(x, y, z)[k];
      }
    }
  }

  /** For each longer length there are a run and a schedule that refute the bound. */
  lemma BoundBroken(x: nat, y: nat, z: nat, w: nat, n: nat)
    requires Apart(x, y, z, w) && Primed(After([x, y, z]), x, y, z, 3) && 257 < n
    ensures var run := Breaking(x, y, z, w, n - 258); var caches := OnePaid(x, y, z, w, n);
            && |run| == n && Pages(run) && IsSchedule(run, caches) && caches[0] == {x, y, z}
            && Faults(run) == Faults([x, y, z]) + 4 && ScheduleFaults(run, caches) == 1
  {
    hide After, Faults, ScheduleFaults, Primed, IsSchedule;
    BreakingFaults(x, y, z, w, n - 258);
    BreakingPaysOnce(x, y, z, w, n - 258);
    OnePaidFaults(Breaking(x, y, z, w, n - 258), x, y, z, w);
  }

  /** The simulator is within three times any schedule, plus three, on all runs of n accesses exactly when n is at most 257. */
  lemma CompetitiveBound(n: nat)
    ensures (forall run, caches :: |run| == n && Pages(run) && IsSchedule(run, caches) ==>
               Faults(run) <= 3 * ScheduleFaults(run, caches) + 3) <==> n <= 257
  {
    hide After, Faults, ScheduleFaults, ServedBy;
    if n <= 257 {
      forall run, caches | |run| == n && Pages(run) && IsSchedule(run, caches)
        ensures Faults(run) <= 3 * ScheduleFaults(run, caches) + 3
      {
        Competitive(run, caches);
      }
    } else {
      ThreeFaults();
      BoundBroken(3, 4, 5, 6, n);
      var run, caches := Breaking(3, 4, 5, 6, n - 258), OnePaid(3, 4, 5, 6, n);
      assert Faults(run) > 3 * ScheduleFaults(run, caches) + 3;
    }
  }

  /** The same with both starting from pages 0, 1 and 2, and then without the extra three. */
  lemma SameStartBound(n: nat)
    ensures (forall run, caches :: |run| == n && Pages(run) && IsSchedule(run, caches) && caches[0] == {0, 1, 2} ==>
               Faults(run) <= 3 * ScheduleFaults(run, caches)) <==> n <= 257
  {
    hide After, Faults, ScheduleFaults, ServedBy;
    if n <= 257 {
      forall run, caches | |run| == n && Pages(run) && IsSchedule(run, caches) && caches[0] == {0, 1, 2}
        ensures Faults(run) <= 3 * ScheduleFaults(run, caches)
      {
        Competitive(run, caches);
      }
    } else {
      ThreeHits();
      BoundBroken(0, 1, 2, 3, n);
      var run, caches := Breaking(0, 1, 2, 3, n - 258), OnePaid(0, 1, 2, 3, n);
      assert Faults(run) > 3 * ScheduleFaults(run, caches);
    }
  }
}
