/** What the LRU simulator achieves: ideal LRU up to an exact run length, and competitiveness. */
module LruTheory {
  import opened Replacement

  predicate Pages(run: seq<nat>) {
    forall k :: 0 <= k < |run| ==> run[k] < NB_PAGES
  }

  ghost predicate Unreferenced(table: seq<bv8>) {
    forall i :: 0 <= i < |table| ==> !Referenced(table[i])
  }

  /** The simulator after a run of accesses: three pages in memory and consistent entries, always. */
  function After(run: seq<nat>): (s: Lru)
    requires Pages(run)
    ensures LruOk(s) && TableOk(s.table) && Unreferenced(s.table)
  {
    if run == [] then
      StartOk();
      Start()
    else
      var s := After(run[..|run| - 1]);
      AccessOk(s, run[|run| - 1]);
      Access(s, run[|run| - 1])
  }

  lemma StartOk()
    ensures LruOk(Start()) && TableOk(StartTable()) && Unreferenced(StartTable()) && ValidSet(StartTable()) == {0, 1, 2}
    ensures forall i :: 0 <= i < NB_PAGES ==> Swapped(StartTable()[i]) == (i == 3)
  {
    assert Valid(StartTable()[0]) && Valid(StartTable()[1]) && Valid(StartTable()[2]);
    assert ValidSet(StartTable()) == {0, 1, 2};
  }

  /** Every access keeps the table consistent; a fault evicts the oldest page, a hit nothing. */
  lemma AccessOk(s: Lru, p: nat)
    requires LruOk(s) && TableOk(s.table) && Unreferenced(s.table) && p < NB_PAGES
    ensures LruOk(Access(s, p)) && TableOk(Access(s, p).table) && Unreferenced(Access(s, p).table)
    ensures ValidSet(Access(s, p).table) ==
            if Valid(s.table[p]) then ValidSet(s.table) else ValidSet(s.table) - {Oldest(s.table, s.tdu, NB_PAGES)} + {p}
    ensures forall i :: 0 <= i < NB_PAGES ==>
              Swapped(Access(s, p).table[i]) ==
              if Valid(s.table[p]) then Swapped(s.table[i])
              else i == Oldest(s.table, s.tdu, NB_PAGES) || (i != p && Swapped(s.table[i]))
  {
    hide Evict, Load, Valid, Swapped, Referenced, Tag;
    var v := Oldest(s.table, s.tdu, NB_PAGES);
    var i :| i in ValidSet(s.table);
    if !Valid(s.table[p]) {
      SwapOk(s.table, v, p);
      Bits(s.table[v]);
      Bits(s.table[p]);
    } else {
      assert Access(s, p).table == s.table;
    }
    assert p in ValidSet(Access(s, p).table);
  }

  // Where the pages are.

  /** In memory only pages 0 to 2 and pages of the run; in swap page 3 and all others that were ever in memory. */
  predicate Placed(table: seq<bv8>, run: seq<nat>)
    requires |table| == NB_PAGES
  {
    forall p :: 0 <= p < NB_PAGES ==>
      && (Valid(table[p]) ==> p < 3 || p in run)
      && (Swapped(table[p]) <==> !Valid(table[p]) && (p <= 3 || p in run))
  }

  /** Either policy moves pages between memory and swap only. */
  lemma PlacedStep(table: seq<bv8>, next: seq<bv8>, run: seq<nat>, q: nat, v: nat)
    requires |table| == |next| == NB_PAGES && q < NB_PAGES && v < NB_PAGES && Placed(table, run) && Valid(table[v])
    requires ValidSet(next) == if Valid(table[q]) then ValidSet(table) else ValidSet(table) - {v} + {q}
    requires forall i :: 0 <= i < NB_PAGES ==>
               Swapped(next[i]) == if Valid(table[q]) then Swapped(table[i]) else i == v || (i != q && Swapped(table[i]))
    ensures Placed(next, run + [q])
  {
    hide Valid, Swapped;
    assert forall p :: 0 <= p < NB_PAGES ==> (Valid(table[p]) <==> p in ValidSet(table)) && (Valid(next[p]) <==> p in ValidSet(next));
    assert forall p :: p in run + [q] <==> p in run || p == q;
  }

  /** After any run, a page is in swap exactly if it is not in memory but was once, or is page 3. */
  lemma {:induction false} InSwap(run: seq<nat>)
    requires Pages(run)
    ensures Placed(After(run).table, run)
  {
    hide Valid, Swapped, Access, TableOk, Unreferenced;
    StartOk();
    if run == [] {
      assert forall i :: 0 <= i < NB_PAGES ==> (Valid(StartTable()[i]) <==> i in ValidSet(StartTable()));
    } else {
      var n := |run| - 1;
      var s := After(run[..n]);
      InSwap(run[..n]);
      AccessOk(s, run[n]);
      var i :| i in ValidSet(s.table);
      PlacedStep(s.table, After(run).table, run[..n], run[n], Oldest(s.table, s.tdu, NB_PAGES));
      assert run == run[..n] + [run[n]];
    }
  }

  // Recency.

  function Remove(c: seq<nat>, p: nat): (d: seq<nat>)
    ensures forall x :: x in d <==> x in c && x != p
    ensures p !in c ==> d == c
  {
    if c == [] then [] else if c[0] == p then Remove(c[1..], p) else [c[0]] + Remove(c[1..], p)
  }

  /** The distinct elements of a list, in the order of their first occurrence. */
  function Distinct(c: seq<nat>): (d: seq<nat>)
    ensures forall x :: x in d <==> x in c
    ensures forall i, j :: 0 <= i < j < |d| ==> d[i] != d[j]
  {
    if c == [] then [] else
      RemoveApart(Distinct(c[1..]), c[0]);
      [c[0]] + Remove(Distinct(c[1..]), c[0])
  }

  lemma {:induction false} RemoveApart(c: seq<nat>, p: nat)
    requires forall i, j :: 0 <= i < j < |c| ==> c[i] != c[j]
    ensures forall i, j :: 0 <= i < j < |Remove(c, p)| ==> Remove(c, p)[i] != Remove(c, p)[j]
    ensures |Remove(c, p)| == if p in c then |c| - 1 else |c|
  {
    if c != [] {
      RemoveApart(c[1..], p);
      assert c[0] !in c[1..];
    }
  }

  function Reverse(c: seq<nat>): (d: seq<nat>)
    ensures |d| == |c|
  {
    if c == [] then [] else [c[|c| - 1]] + Reverse(c[..|c| - 1])
  }

  /** Most recently used first, the initial pages last. */
  function Recency(run: seq<nat>): seq<nat> {
    Distinct(Reverse(run) + [2, 1, 0])
  }

  lemma RecencyStep(run: seq<nat>)
    requires run != []
    ensures Recency(run) == [run[|run| - 1]] + Remove(Recency(run[..|run| - 1]), run[|run| - 1])
  {
    var n := |run| - 1;
    assert Reverse(run) + [2, 1, 0] == [run[n]] + (Reverse(run[..n]) + [2, 1, 0]);
  }

  lemma {:induction false} RecencyLong(run: seq<nat>)
    ensures 3 <= |Recency(run)|
    ensures forall i, j :: 0 <= i < j < |Recency(run)| ==> Recency(run)[i] != Recency(run)[j]
  {
    assert Recency(run) == Distinct(Reverse(run) + [2, 1, 0]);
    var c := Reverse(run) + [2, 1, 0];
    assert c[|run|] == 2 && c[|run| + 1] == 1 && c[|run| + 2] == 0;
    assert 0 in c && 1 in c && 2 in c;
    ThreeDistinct(Recency(run));
  }

  lemma ThreeDistinct(d: seq<nat>)
    requires 0 in d && 1 in d && 2 in d
    ensures 3 <= |d|
  {
  }

  /** What ideal LRU holds: the three most recently used pages. */
  function Ideal(run: seq<nat>): (c: seq<nat>)
    ensures |c| == 3 && c[0] != c[1] && c[0] != c[2] && c[1] != c[2]
  {
    RecencyLong(run);
    Recency(run)[..3]
  }

  function IdealStep(c: seq<nat>, p: nat): seq<nat>
    requires |c| == 3
  {
    if p == c[0] then c else if p == c[1] then [p, c[0], c[2]] else [p, c[0], c[1]]
  }

  lemma RemoveOne(c: seq<nat>, p: nat)
    requires 3 <= |c| && forall i, j :: 0 <= i < j < |c| ==> c[i] != c[j]
    ensures 2 <= |Remove(c, p)| && [p] + Remove(c, p)[..2] == IdealStep(c[..3], p)
  {
    var d, e := c[1..], c[2..];
    assert d[1..] == e && c[3..] == e[1..];
    RemoveApart(c, p);
    if p == c[0] {
      assert p !in d;
    } else if p == c[1] {
      assert p !in e;
      assert Remove(c, p) == [c[0]] + Remove(d, p) == [c[0]] + Remove(e, p);
    } else {
      assert Remove(c, p) == [c[0]] + Remove(d, p);
      assert Remove(d, p) == [c[1]] + Remove(e, p);
    }
  }

  lemma IdealIsStep(run: seq<nat>)
    requires run != []
    ensures Ideal(run) == IdealStep(Ideal(run[..|run| - 1]), run[|run| - 1])
  {
    var c, p := Recency(run[..|run| - 1]), run[|run| - 1];
    RecencyStep(run);
    RecencyLong(run[..|run| - 1]);
    RemoveOne(c, p);
    assert ([p] + Remove(c, p))[..3] == [p] + Remove(c, p)[..2];
  }

  ghost function Held(c: seq<nat>): set<nat> {
    set p | p in c
  }

  // The simulator against ideal LRU.

  /** The simulator holds the ideal pages, and its clock orders them as recency does. */
  ghost predicate Agrees(s: Lru, c: seq<nat>, n: nat)
    requires LruOk(s) && |c| == 3
  {
    ValidSet(s.table) == Held(c) && s.counter == n && Ordered(s.tdu, c, n)
  }

  ghost predicate Ordered(tdu: seq<nat>, c: seq<nat>, n: nat)
    requires |tdu| == NB_PAGES && |c| == 3
  {
    && (forall i :: 0 <= i < NB_PAGES ==> tdu[i] <= n)
    && c[0] < NB_PAGES && c[1] < NB_PAGES && c[2] < NB_PAGES
    && Before(tdu, c[2], c[1]) && Before(tdu, c[1], c[0])
  }

  lemma OrderedStep(tdu: seq<nat>, c: seq<nat>, n: nat, p: nat)
    requires |tdu| == NB_PAGES && |c| == 3 && p < NB_PAGES && Ordered(tdu, c, n)
    requires c[0] != c[1] && c[0] != c[2] && c[1] != c[2]
    ensures Ordered(tdu[p := n + 1], IdealStep(c, p), n + 1)
  {
  }

  lemma AgreesOnVictim(s: Lru, c: seq<nat>, n: nat)
    requires LruOk(s) && |c| == 3 && Agrees(s, c, n)
    ensures Oldest(s.table, s.tdu, NB_PAGES) == c[2]
  {
    hide Valid;
    assert c[2] in Held(c) && c[1] in Held(c) && c[0] in Held(c);
    assert forall i :: 0 <= i < NB_PAGES && Valid(s.table[i]) ==> i in ValidSet(s.table);
  }

  /** The pages held after one more access are the ideal ones even when the clock wraps on it. */
  lemma HeldStep(s: Lru, c: seq<nat>, n: nat, p: nat)
    requires LruOk(s) && TableOk(s.table) && Unreferenced(s.table) && p < NB_PAGES
    requires |c| == 3 && Agrees(s, c, n) && c[0] != c[1] && c[0] != c[2] && c[1] != c[2]
    ensures ValidSet(Access(s, p).table) == Held(IdealStep(c, p))
    ensures Valid(s.table[p]) <==> p in c
  {
    hide Valid, TableOk, Unreferenced, Access, Before;
    AgreesOnVictim(s, c, n);
    AccessOk(s, p);
    assert Valid(s.table[p]) <==> p in ValidSet(s.table);
    assert Held(c) == {c[0], c[1], c[2]};
    var d := IdealStep(c, p);
    assert Held(d) == {d[0], d[1], d[2]};
  }

  lemma AccessClock(s: Lru, p: nat)
    requires LruOk(s) && p < NB_PAGES
    ensures Access(s, p).counter == (s.counter + 1) % 256 && Access(s, p).tdu == s.tdu[p := (s.counter + 1) % 256]
  {
    hide Oldest, Swap, ValidSet, Valid;
  }

  lemma AgreesStep(s: Lru, c: seq<nat>, n: nat, p: nat)
    requires LruOk(s) && TableOk(s.table) && Unreferenced(s.table) && p < NB_PAGES && n < 255
    requires |c| == 3 && Agrees(s, c, n) && c[0] != c[1] && c[0] != c[2] && c[1] != c[2]
    ensures LruOk(Access(s, p)) && Agrees(Access(s, p), IdealStep(c, p), n + 1)
  {
    hide Valid, TableOk, Unreferenced, ValidSet, Held, Access, IdealStep, Ordered;
    HeldStep(s, c, n, p);
    AccessOk(s, p);
    OrderedStep(s.tdu, c, n, p);
    AccessClock(s, p);
  }

  lemma {:induction false} AgreesUpTo255(run: seq<nat>)
    requires Pages(run) && |run| <= 255
    ensures Agrees(After(run), Ideal(run), |run|)
  {
    if run == [] {
      StartOk();
      IdealAtStart();
    } else {
      var n := |run| - 1;
      AgreesUpTo255(run[..n]);
      IdealIsStep(run);
      AgreesStep(After(run[..n]), Ideal(run[..n]), n, run[n]);
    }
  }

  lemma IdealAtStart()
    ensures Ideal([]) == [2, 1, 0]
  {
    assert Reverse([]) + [2, 1, 0] == [2, 1, 0];
    assert [2, 1, 0][1..] == [1, 0] && [1, 0][1..] == [0] && [0][1..] == [];
    assert Distinct([0]) == [0];
    assert Distinct([1, 0]) == [1, 0];
  }

  lemma HoldsIdealUpTo256(run: seq<nat>)
    requires Pages(run) && |run| <= 256
    ensures ValidSet(After(run).table) == Held(Ideal(run))
  {
    hide Access, Ideal, IdealStep, Held, ValidSet, TableOk, Unreferenced, LruOk, Ordered;
    if |run| < 256 {
      AgreesUpTo255(run);
    } else {
      AgreesUpTo255(run[..255]);
      IdealIsStep(run);
      HeldStep(After(run[..255]), Ideal(run[..255]), 255, run[255]);
    }
  }

  // The bound is exact: once the clock has wrapped, the newest page can look the oldest.

  function Repeat(p: nat, n: nat): (run: seq<nat>)
    ensures |run| == n && forall k :: 0 <= k < n ==> run[k] == p
  {
    seq(n, _ => p)
  }

  function WrapRun(n: nat): (run: seq<nat>)
    ensures |run| == 256 + n && Pages(run)
  {
    Repeat(0, 253) + [1, 2, 0] + Repeat(3, n)
  }

  lemma {:induction false} AfterZeros(n: nat)
    requires n <= 253
    ensures After(Repeat(0, n)) == Lru(StartTable(), Start().tdu[0 := n], n)
  {
    hide Evict, Load, Tag, Oldest, Swap, TableOk, Unreferenced, Ideal;
    if n > 0 {
      AfterZeros(n - 1);
      assert Repeat(0, n)[..n - 1] == Repeat(0, n - 1);
      assert Valid(StartTable()[0]);
    }
  }

  lemma AfterMore(run: seq<nat>, p: nat)
    requires Pages(run) && p < NB_PAGES
    ensures After(run + [p]) == Access(After(run), p)
    ensures Ideal(run + [p]) == IdealStep(Ideal(run), p)
  {
    assert (run + [p])[..|run|] == run;
    IdealIsStep(run + [p]);
  }

  /** The wrap gives page 0, the newest, the smallest timestamp. */
  lemma AfterWrap()
    ensures After(WrapRun(0)).table == StartTable() && Ideal(WrapRun(0)) == [0, 2, 1]
    ensures var tdu := After(WrapRun(0)).tdu; tdu[0] == 0 && tdu[1] == 254 && tdu[2] == 255
  {
    hide Ideal, After, Load, Evict, Tag, Oldest;
    var z := Repeat(0, 253);
    AfterZeros(253);
    assert Valid(StartTable()[0]) && Valid(StartTable()[1]) && Valid(StartTable()[2]);
    AfterMore(z, 1);
    AfterMore(z + [1], 2);
    AfterMore(z + [1] + [2], 0);
    assert z + [1] + [2] + [0] == WrapRun(0);
  }

  lemma AfterFirstThree()
    ensures ValidSet(After(WrapRun(1)).table) == {1, 2, 3} && Ideal(WrapRun(1)) == [3, 0, 2]
  {
    hide Ideal, After, Load, Evict, Tag, Access, Valid, Swap, Oldest, TableOk, Unreferenced, StartTable;
    var run := WrapRun(0);
    var s := After(run);
    assert run + [3] == WrapRun(1);
    AfterMore(run, 3);
    AccessOk(s, 3);
    AfterWrap();
    StartOk();
    var v := Oldest(s.table, s.tdu, NB_PAGES);
    assert forall i :: 0 <= i < NB_PAGES ==> (Valid(s.table[i]) <==> i in ValidSet(s.table));
    assert ValidSet(s.table) == {0, 1, 2};
    assert v == 0;
  }

  lemma {:induction false} AfterThrees(n: nat)
    requires 1 <= n
    ensures ValidSet(After(WrapRun(n)).table) == {1, 2, 3} && Ideal(WrapRun(n)) == [3, 0, 2]
  {
    hide Ideal, After, Load, Evict, Tag, Access, Valid, Swap, Oldest, TableOk, Unreferenced, StartTable;
    if n == 1 {
      AfterFirstThree();
    } else {
      var run := WrapRun(n - 1);
      AfterThrees(n - 1);
      assert run + [3] == WrapRun(n);
      AfterMore(run, 3);
      AccessOk(After(run), 3);
      assert Valid(After(run).table[3]) <==> 3 in ValidSet(After(run).table);
    }
  }

  /** The simulator holds the ideal pages on every run of n accesses exactly when n is at most 256. */
  lemma ExactBound(n: nat)
    ensures (forall run :: |run| == n && Pages(run) ==> ValidSet(After(run).table) == Held(Ideal(run))) <==> n <= 256
  {
    hide Ideal, After;
    if n <= 256 {
      forall run | |run| == n && Pages(run) ensures ValidSet(After(run).table) == Held(Ideal(run)) {
        HoldsIdealUpTo256(run);
      }
    } else {
      var run := WrapRun(n - 256);
      AfterThrees(n - 256);
      assert 1 in ValidSet(After(run).table) && 1 !in Held(Ideal(run));
    }
  }

  // Competitiveness.

  /** Any other replacement: at most three frames, nothing changes on a hit, and a fault brings its page in. */
  ghost predicate IsSchedule(run: seq<nat>, caches: seq<set<nat>>) {
    && |caches| == |run| + 1 && |caches[0]| <= 3
    && forall k :: 0 <= k < |run| ==> ServedBy(caches[k], run[k], caches[k + 1])
  }

  predicate ServedBy(cache: set<nat>, p: nat, next: set<nat>) {
    if p in cache then next == cache else p in next && |next| <= 3
  }

  function ScheduleFaults(run: seq<nat>, caches: seq<set<nat>>): nat
    requires |caches| == |run| + 1
  {
    if run == [] then 0
    else
      var n := |run| - 1;
      ScheduleFaults(run[..n], caches[..n + 1]) + if run[n] in caches[n] then 0 else 1
  }

  function IdealFaults(run: seq<nat>): nat {
    if run == [] then 0
    else
      var n := |run| - 1;
      IdealFaults(run[..n]) + if run[n] in Ideal(run[..n]) then 0 else 1
  }

  function Faults(run: seq<nat>): nat
    requires Pages(run)
  {
    if run == [] then 0
    else
      var n := |run| - 1;
      Faults(run[..n]) + if Valid(After(run[..n]).table[run[n]]) then 0 else 1
  }

  /** What LRU still owes: the recency rank of its most recent page that the other one lacks. */
  function Debt(c: seq<nat>, cache: set<nat>): (d: nat)
    requires |c| == 3
    ensures d <= 3
  {
    if c[0] !in cache then 3 else if c[1] !in cache then 2 else if c[2] !in cache then 1 else 0
  }

  lemma DebtStep(c: seq<nat>, p: nat, cache: set<nat>, next: set<nat>)
    requires |c| == 3 && c[0] != c[1] && c[0] != c[2] && c[1] != c[2] && |cache| <= 3 && ServedBy(cache, p, next)
    ensures (if p in c then 0 else 1) + Debt(IdealStep(c, p), next) <= Debt(c, cache) + if p in cache then 0 else 3
  {
    if p in cache && p !in c && {c[0], c[1], c[2]} <= cache {
      TooMany({c[0], c[1], c[2]} + {p}, cache);
    }
  }

  lemma TooMany(a: set<nat>, b: set<nat>)
    requires a <= b
    ensures |a| <= |b|
  {
    assert b == a + (b - a);
  }

  lemma {:induction false} ScheduleSizes(run: seq<nat>, caches: seq<set<nat>>)
    requires IsSchedule(run, caches)
    ensures forall k :: 0 <= k <= |run| ==> |caches[k]| <= 3
  {
    if run != [] {
      var n := |run| - 1;
      ScheduleSizes(run[..n], caches[..n + 1]);
      assert ServedBy(caches[n], run[n], caches[n + 1]);
      assert caches[..n + 1][n] == caches[n];
    }
  }

  /** Ideal LRU, on runs of any length. */
  lemma {:induction false} IdealCompetitive(run: seq<nat>, caches: seq<set<nat>>)
    requires IsSchedule(run, caches)
    ensures IdealFaults(run) + Debt(Ideal(run), caches[|run|]) <= 3 * ScheduleFaults(run, caches) + Debt(Ideal([]), caches[0])
  {
    hide Ideal, Debt, IdealStep;
    if run != [] {
      var n := |run| - 1;
      var before := run[..n];
      IdealCompetitive(before, caches[..n + 1]);
      ScheduleSizes(before, caches[..n + 1]);
      assert caches[..n + 1][n] == caches[n] && caches[..n + 1][0] == caches[0];
      IdealIsStep(run);
      DebtStep(Ideal(before), run[n], caches[n], caches[n + 1]);
    }
  }

  lemma {:induction false} FaultsAreIdeal(run: seq<nat>)
    requires Pages(run) && |run| <= 257
    ensures Faults(run) == IdealFaults(run)
  {
    hide Ideal, After, Valid;
    if run != [] {
      var n := |run| - 1;
      FaultsAreIdeal(run[..n]);
      HoldsIdealUpTo256(run[..n]);
      var table := After(run[..n]).table;
      assert Valid(table[run[n]]) <==> run[n] in ValidSet(table);
      assert run[n] in Held(Ideal(run[..n])) <==> run[n] in Ideal(run[..n]);
    }
  }

  /** The simulator faults at most three times as often as any schedule, plus three (or nothing, from the same start). */
  lemma Competitive(run: seq<nat>, caches: seq<set<nat>>)
    requires Pages(run) && |run| <= 257 && IsSchedule(run, caches)
    ensures Faults(run) <= 3 * ScheduleFaults(run, caches) + 3
    ensures {0, 1, 2} <= caches[0] ==> Faults(run) <= 3 * ScheduleFaults(run, caches)
  {
    hide Ideal;
    FaultsAreIdeal(run);
    IdealCompetitive(run, caches);
    IdealAtStart();
  }
}
