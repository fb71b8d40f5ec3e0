/** What every run of the WSClock simulator keeps, and which page it evicts. */
module WscTheory {
  import opened Replacement
  import opened LruTheory

  predicate Untimed(tdu: seq<nat>) {
    forall i :: 0 <= i < |tdu| ==> tdu[i] == 0
  }

  /** What every access keeps: consistent entries, three pages in memory, and no time of use. */
  ghost predicate Kept(s: Wsc) {
    WscOk(s) && TableOk(s.table) && Untimed(s.tdu)
  }

  function WscStart(): Wsc { Wsc(Start().table, Start().tdu, 0) }

  lemma WscStartKept()
    ensures WscOk(WscStart()) && Kept(WscStart()) && WscStart().tvc == 0
  {
    StartOk();
  }

  /** The simulator after a run of accesses. */
  function WscAfter(run: seq<nat>): (s: Wsc)
    requires Pages(run)
    ensures WscOk(s) && Kept(s)
  {
    hide Kept, WscAccess, WscOk, WscStart;
    if run == [] then
      WscStartKept();
      WscStart()
    else
      var s := WscAfter(run[..|run| - 1]);
      WscAccessKept(s, run[|run| - 1]);
      WscAccess(s, run[|run| - 1])
  }

  lemma {:induction false} Clock(run: seq<nat>)
    requires Pages(run)
    ensures WscAfter(run).tvc == |run| % 256
  {
    hide Kept, WscOk, TableOk, Victim, ScanStop;
    if run != [] {
      Clock(run[..|run| - 1]);
    }
  }

  lemma ScannedOk(table: seq<bv8>, n: nat)
    requires TableOk(table)
    ensures TableOk(Scanned(table, n)) && ValidSet(Scanned(table, n)) == ValidSet(table)
    ensures forall i :: 0 <= i < NB_PAGES ==> Valid(Scanned(table, n)[i]) == Valid(table[i])
    ensures forall i :: 0 <= i < NB_PAGES && i < n ==> !Referenced(Scanned(table, n)[i])
    ensures forall i :: n <= i < NB_PAGES ==> Scanned(table, n)[i] == table[i]
    ensures forall i :: 0 <= i < NB_PAGES ==> Swapped(Scanned(table, n)[i]) == Swapped(table[i])
  {
    hide Valid, Swapped, Referenced, ClearRef, Tag;
    forall i | 0 <= i < NB_PAGES
      ensures Valid(Scanned(table, n)[i]) == Valid(table[i])
      ensures Scanned(table, n)[i] & 0xF8 == table[i] & 0xF8 && Swapped(Scanned(table, n)[i]) == Swapped(table[i])
      ensures Referenced(Scanned(table, n)[i]) == (Referenced(table[i]) && n <= i)
    {
      Bits(table[i]);
    }
    assert ValidSet(Scanned(table, n)) == ValidSet(table);
  }

  lemma TouchedOk(table: seq<bv8>, p: nat)
    requires TableOk(table) && p < NB_PAGES && Valid(table[p])
    ensures TableOk(table[p := SetRef(table[p])]) && ValidSet(table[p := SetRef(table[p])]) == ValidSet(table)
    ensures Referenced(SetRef(table[p])) && Swapped(SetRef(table[p])) == Swapped(table[p])
  {
    hide Valid, Swapped, Referenced, SetRef, Tag;
    Bits(table[p]);
    assert ValidSet(table[p := SetRef(table[p])]) == ValidSet(table);
  }

  /** The page that is evicted has lost its reference bit to the scan. */
  lemma VictimUnreferenced(s: Wsc)
    requires WscOk(s) && TableOk(s.table)
    ensures Victim(s) < NB_PAGES && Valid(s.table[Victim(s)])
    ensures !Referenced(Scanned(s.table, ScanStop(s, NB_PAGES))[Victim(s)])
  {
    hide Valid, Swapped, Referenced, ClearRef, Tag;
    VictimValid(s);
    ScannedOk(s.table, ScanStop(s, NB_PAGES));
  }

  lemma WscAccessOk(s: Wsc, p: nat)
    requires WscOk(s) && TableOk(s.table) && p < NB_PAGES
    ensures WscOk(WscAccess(s, p)) && TableOk(WscAccess(s, p).table)
    ensures ValidSet(WscAccess(s, p).table) ==
            if Valid(s.table[p]) then ValidSet(s.table) else ValidSet(s.table) - {Victim(s)} + {p}
    ensures forall i :: 0 <= i < NB_PAGES ==>
              Swapped(WscAccess(s, p).table[i]) ==
              if Valid(s.table[p]) then Swapped(s.table[i]) else i == Victim(s) || (i != p && Swapped(s.table[i]))
    ensures forall i :: 0 <= i < NB_PAGES ==>
              Referenced(WscAccess(s, p).table[i]) ==
              (i == p || (Referenced(s.table[i]) && (Valid(s.table[p]) || ScanStop(s, NB_PAGES) <= i)))
  {
    hide Valid, Swapped, Referenced, ClearRef, SetRef, Tag, Swap, Scanned, TableOk, Victim, ScanStop;
    if Valid(s.table[p]) {
      TouchedOk(s.table, p);
    } else {
      var stop := ScanStop(s, NB_PAGES);
      var t := Scanned(s.table, stop);
      ScannedOk(s.table, stop);
      VictimUnreferenced(s);
      SwapOk(t, Victim(s), p);
      assert p in ValidSet(Swap(t, Victim(s), p));
      TouchedOk(Swap(t, Victim(s), p), p);
    }
    assert p in ValidSet(WscAccess(s, p).table);
  }

  lemma WscAccessKept(s: Wsc, p: nat)
    requires WscOk(s) && Kept(s) && p < NB_PAGES
    ensures WscOk(WscAccess(s, p)) && Kept(WscAccess(s, p)) && WscAccess(s, p).tvc == (s.tvc + 1) % 256
  {
    hide TableOk;
    WscAccessOk(s, p);
  }

  predicate Lowest(v: nat, s: set<nat>) {
    v in s && forall i :: i in s ==> v <= i
  }

  function Idle(table: seq<bv8>): set<nat> {
    set i | 0 <= i < |table| && Valid(table[i]) && !Referenced(table[i])
  }

  /**
   * Which page a fault evicts after any run: once the clock, which wraps at 256, is past 2,
   * the lowest page in memory without its reference bit; with no such page, or before, the lowest in memory.
   * The bits are taken from the pages below the stop, and from no others.
   */
  lemma VictimIs(run: seq<nat>)
    requires Pages(run)
    ensures var s := WscAfter(run);
            var stop := ScanStop(s, NB_PAGES);
            && (if |run| % 256 > 2 && Idle(s.table) != {}
                then Lowest(Victim(s), Idle(s.table)) && stop == Victim(s)
                else Lowest(Victim(s), ValidSet(s.table)) && stop == NB_PAGES)
            && (forall i :: 0 <= i < NB_PAGES ==>
                  Referenced(Scanned(s.table, stop)[i]) == (Referenced(s.table[i]) && stop <= i))
  {
    hide WscAfter, Valid, Referenced, ClearRef;
    var s := WscAfter(run);
    Clock(run);
    VictimValid(s);
    ScannedOk(s.table, ScanStop(s, NB_PAGES));
    assert forall i :: 0 <= i < NB_PAGES ==> (Expired(s, i) <==> i in Idle(s.table) && s.tvc > DELTA);
    assert forall i :: 0 <= i < NB_PAGES ==> (Valid(s.table[i]) <==> i in ValidSet(s.table));
  }

  lemma {:induction false} WscInSwap(run: seq<nat>)
    requires Pages(run)
    ensures Placed(WscAfter(run).table, run)
  {
    hide Valid, Swapped, WscAccess, TableOk, Untimed, Victim;
    StartOk();
    if run == [] {
      assert forall i :: 0 <= i < NB_PAGES ==> (Valid(StartTable()[i]) <==> i in ValidSet(StartTable()));
    } else {
      var n := |run| - 1;
      var s := WscAfter(run[..n]);
      WscInSwap(run[..n]);
      WscAccessOk(s, run[n]);
      VictimValid(s);
      PlacedStep(s.table, WscAfter(run).table, run[..n], run[n], Victim(s));
      assert run == run[..n] + [run[n]];
    }
  }

  // Reference bits.

  /** An access to q after the run is a fault whose scan passes page p, and takes its bit if it has one. */
  ghost predicate Passes(run: seq<nat>, q: nat, p: nat)
    requires Pages(run)
  {
    q !in ValidSet(WscAfter(run).table) && p < ScanStop(WscAfter(run), NB_PAGES)
  }

  /** Page p was accessed at position k of the run, and no later scan passed it. */
  ghost predicate FreshSince(run: seq<nat>, p: nat, k: nat)
    requires Pages(run)
  {
    k < |run| && run[k] == p && forall m :: k < m < |run| ==> !Passes(run[..m], run[m], p)
  }

  lemma FreshGrows(run: seq<nat>, q: nat, p: nat, k: nat)
    requires Pages(run) && q < NB_PAGES && k < |run|
    ensures FreshSince(run + [q], p, k) <==> FreshSince(run, p, k) && !Passes(run, q, p)
  {
    hide Passes;
    var more := run + [q];
    assert more[..|run|] == run && more[|run|] == q;
    forall m | k < m < |run| ensures more[..m] == run[..m] && more[m] == run[m] {
    }
    if FreshSince(more, p, k) {
      assert !Passes(more[..|run|], more[|run|], p);
      forall m | k < m < |run| ensures !Passes(run[..m], run[m], p) {
        assert !Passes(more[..m], more[m], p);
      }
    }
  }

  /** After any run, a page has its reference bit if and only if no scan has passed it since its last access. */
  lemma {:induction false} ReferencedIs(run: seq<nat>, p: nat)
    requires Pages(run) && p < NB_PAGES
    ensures Referenced(WscAfter(run).table[p]) <==> exists k: nat :: FreshSince(run, p, k)
  {
    hide Referenced, Valid, WscAccess, TableOk, FreshSince, Passes;
    if run == [] {
      StartOk();
      NeverFresh(p);
    } else {
      var n := |run| - 1;
      var before, q := run[..n], run[n];
      assert run == before + [q];
      ReferencedIs(before, p);
      ReferencedStep(before, q, p);
      LastFresh(before, q, p);
      forall k: nat | k < n ensures FreshSince(run, p, k) <==> FreshSince(before, p, k) && !Passes(before, q, p) {
        FreshGrows(before, q, p, k);
      }
      FreshInside(before, p);
      FreshInside(run, p);
      if exists k: nat :: FreshSince(before, p, k) {
        var k: nat :| FreshSince(before, p, k);
        assert k < n;
      }
    }
  }

  lemma NeverFresh(p: nat)
    ensures forall k: nat :: !FreshSince([], p, k)
  {
  }

  lemma FreshInside(run: seq<nat>, p: nat)
    requires Pages(run)
    ensures forall k: nat :: FreshSince(run, p, k) ==> k < |run|
  {
  }

  lemma LastFresh(run: seq<nat>, q: nat, p: nat)
    requires Pages(run) && q < NB_PAGES
    ensures FreshSince(run + [q], p, |run|) <==> p == q
  {
  }

  lemma ReferencedStep(run: seq<nat>, q: nat, p: nat)
    requires Pages(run) && q < NB_PAGES && p < NB_PAGES
    ensures Referenced(WscAfter(run + [q]).table[p]) <==>
            p == q || (Referenced(WscAfter(run).table[p]) && !Passes(run, q, p))
  {
    hide Referenced, Valid, TableOk, WscAccess;
    var s := WscAfter(run);
    assert (run + [q])[..|run|] == run;
    WscAccessOk(s, q);
    assert Valid(s.table[q]) <==> q in ValidSet(s.table);
  }

  /** The second chance: the page accessed last is not the next one to go while the clock is past 2 and another is idle. */
  lemma SecondChance(run: seq<nat>, p: nat)
    requires Pages(run) && p < NB_PAGES && (|run| + 1) % 256 > 2 && Idle(WscAfter(run + [p]).table) != {}
    ensures Victim(WscAfter(run + [p])) != p
  {
    hide WscAfter, Victim, ScanStop, FreshSince, Valid, Referenced, Kept, ValidSet, Scanned;
    assert p !in Idle(WscAfter(run + [p]).table) by { LastReferenced(run, p); }
    VictimIs(run + [p]);
  }

  lemma LastReferenced(run: seq<nat>, p: nat)
    requires Pages(run) && p < NB_PAGES
    ensures Referenced(WscAfter(run + [p]).table[p])
  {
    hide WscAfter, FreshSince;
    LastFresh(run, p, p);
    ReferencedIs(run + [p], p);
  }
}
