/** The page replacement simulator (memreplace.c): LRU on an 8-bit clock, and WSClock. */
module Replacement {
  const NB_PAGES := 16
  const DELTA := 2

  // Page table entries: [7..4] page number, [2] REF, [1] SWAP, [0] VALID.

  function Tag(i: nat): bv8
    requires i < NB_PAGES
  {
    ((i as bv8) & 0xF) << 4
  }

  predicate Valid(e: bv8) { e & 0x01 != 0 }
  predicate Swapped(e: bv8) { e & 0x02 != 0 }
  predicate Referenced(e: bv8) { e & 0x04 != 0 }

  function Evict(e: bv8): bv8 { (e & 0xFE) | 0x02 }
  function Load(e: bv8): bv8 { (e & 0xFD) | 0x01 }
  function SetRef(e: bv8): bv8 { e | 0x04 }
  function ClearRef(e: bv8): bv8 { e & 0xFB }

  lemma Bits(e: bv8)
    ensures !Valid(Evict(e)) && Swapped(Evict(e)) && Referenced(Evict(e)) == Referenced(e) && Evict(e) & 0xF8 == e & 0xF8
    ensures Valid(Load(e)) && !Swapped(Load(e)) && Referenced(Load(e)) == Referenced(e) && Load(e) & 0xF8 == e & 0xF8
    ensures Valid(SetRef(e)) == Valid(e) && Swapped(SetRef(e)) == Swapped(e) && Referenced(SetRef(e)) && SetRef(e) & 0xF8 == e & 0xF8
    ensures Valid(ClearRef(e)) == Valid(e) && Swapped(ClearRef(e)) == Swapped(e) && !Referenced(ClearRef(e)) && ClearRef(e) & 0xF8 == e & 0xF8
  {
  }

  /** Lines 230 to 233, for a page that comes in and for one that is there. */
  lemma TouchBits(e: bv8)
    ensures ((e & 0xFD) | 0x04) | 0x01 == SetRef(Load(e))
    ensures Valid(e) ==> (e | 0x04) | 0x01 == SetRef(e)
  {
  }

  /** The layout of an entry: bit 0 VALID, bit 1 SWAP, bit 2 REF, and the page number in bits 4 to 7. */
  lemma Format(e: bv8, i: nat)
    requires i < NB_PAGES
    ensures Valid(e) <==> e % 2 == 1
    ensures Swapped(e) <==> e / 2 % 2 == 1
    ensures Referenced(e) <==> e / 4 % 2 == 1
    ensures e & 0xF8 == Tag(i) ==> e / 16 == i as bv8 && e / 8 % 2 == 0
    ensures NB_PAGES == 16
  {
  }

  function ValidSet(table: seq<bv8>): set<nat> {
    set i | 0 <= i < |table| && Valid(table[i])
  }

  /** Every table of every run: three pages in memory, and consistent entries. */
  ghost predicate TableOk(table: seq<bv8>) {
    && |table| == NB_PAGES && |ValidSet(table)| == 3
    && (forall i :: 0 <= i < NB_PAGES ==>
          && table[i] & 0xF8 == Tag(i)
          && !(Valid(table[i]) && Swapped(table[i]))
          && (!Valid(table[i]) ==> !Referenced(table[i])))
  }

  /** Page v goes to swap and page p comes in. */
  function Swap(table: seq<bv8>, v: nat, p: nat): (t: seq<bv8>)
    requires v < |table| && p < |table|
    ensures |t| == |table|
  {
    var u := table[v := Evict(table[v])];
    u[p := Load(u[p])]
  }

  lemma SwapEntry(table: seq<bv8>, v: nat, p: nat, i: nat)
    requires v < |table| && p < |table| && i < |table| && Valid(table[v]) && !Valid(table[p])
    ensures var e, f := table[i], Swap(table, v, p)[i];
            && Valid(f) == (i == p || (i != v && Valid(e))) && Swapped(f) == (i == v || (i != p && Swapped(e)))
            && Referenced(f) == Referenced(e) && f & 0xF8 == e & 0xF8
  {
    hide Evict, Load, Valid, Swapped, Referenced;
    SwapAt(table, v, p, i);
    hide Swap;
    Bits(table[i]);
  }

  lemma SwapAt(table: seq<bv8>, v: nat, p: nat, i: nat)
    requires v < |table| && p < |table| && i < |table| && v != p
    ensures Swap(table, v, p)[i] == if i == v then Evict(table[i]) else if i == p then Load(table[i]) else table[i]
  {
    hide Evict, Load;
  }

  /** Evicting a valid page for another one keeps three pages in memory. */
  lemma SwapOk(table: seq<bv8>, v: nat, p: nat)
    requires TableOk(table) && v < NB_PAGES && p < NB_PAGES && Valid(table[v]) && !Valid(table[p])
    ensures ValidSet(Swap(table, v, p)) == ValidSet(table) - {v} + {p}
    ensures forall i :: 0 <= i < NB_PAGES ==> Swapped(Swap(table, v, p)[i]) == (i == v || (i != p && Swapped(table[i])))
    ensures forall i :: 0 <= i < NB_PAGES ==> Referenced(Swap(table, v, p)[i]) == Referenced(table[i])
    ensures !Referenced(table[v]) ==> TableOk(Swap(table, v, p))
  {
    hide Evict, Load, Valid, Swapped, Referenced, Tag, Swap;
    forall i | 0 <= i < NB_PAGES
      ensures var e, f := table[i], Swap(table, v, p)[i];
              && Valid(f) == (i == p || (i != v && Valid(e))) && Swapped(f) == (i == v || (i != p && Swapped(e)))
              && Referenced(f) == Referenced(e) && f & 0xF8 == e & 0xF8
    {
      SwapEntry(table, v, p, i);
    }
    assert ValidSet(Swap(table, v, p)) == ValidSet(table) - {v} + {p};
    assert v in ValidSet(table) && p !in ValidSet(table);
  }

  // LRU

  datatype Lru = Lru(table: seq<bv8>, tdu: seq<nat>, counter: nat)

  /** i is chosen before j: older, or as old with a lower index. */
  predicate Before(tdu: seq<nat>, i: nat, j: nat)
    requires i < |tdu| && j < |tdu|
  {
    tdu[i] < tdu[j] || (tdu[i] == tdu[j] && i < j)
  }

  /** The page that replaceLRU picks among the first n; NB_PAGES if none of them is valid. */
  function Oldest(table: seq<bv8>, tdu: seq<nat>, n: nat): (v: nat)
    requires n <= |table| == |tdu| == NB_PAGES
    ensures v < n || v == NB_PAGES
    ensures v < n ==> Valid(table[v]) && forall i :: 0 <= i < n && Valid(table[i]) && i != v ==> Before(tdu, v, i)
    ensures v == NB_PAGES ==> forall i :: 0 <= i < n ==> !Valid(table[i])
  {
    if n == 0 then NB_PAGES
    else
      var v := Oldest(table, tdu, n - 1);
      if Valid(table[n - 1]) && (v == NB_PAGES || tdu[v] > tdu[n - 1]) then n - 1 else v
  }

  ghost predicate LruOk(s: Lru) {
    |s.table| == |s.tdu| == NB_PAGES && ValidSet(s.table) != {} && s.counter < 256
  }

  /** One access to page p < NB_PAGES. */
  function Access(s: Lru, p: nat): Lru
    requires LruOk(s) && p < NB_PAGES
  {
    var v := Oldest(s.table, s.tdu, NB_PAGES);
    var table :=
      if Valid(s.table[p]) || v == NB_PAGES then s.table else Swap(s.table, v, p);
    var counter := (s.counter + 1) % 256;
    Lru(table, s.tdu[p := counter], counter)
  }

  function StartTable(): seq<bv8> { seq(NB_PAGES, i requires 0 <= i < NB_PAGES => Tag(i) | (if i < 3 then 0x01 else if i == 3 then 0x02 else 0)) }
  function Start(): Lru { Lru(StartTable(), seq(NB_PAGES, _ => 0), 0) }

  // WSClock

  datatype Wsc = Wsc(table: seq<bv8>, tdu: seq<nat>, tvc: nat)

  ghost predicate WscOk(s: Wsc) {
    |s.table| == |s.tdu| == NB_PAGES && ValidSet(s.table) != {} && s.tvc < 256
  }

  /** The lowest valid page below n, or NB_PAGES. */
  function FirstValid(table: seq<bv8>, n: nat): (v: nat)
    requires n <= |table| == NB_PAGES
    ensures v < n || v == NB_PAGES
    ensures forall i :: 0 <= i < n && i < v ==> !Valid(table[i])
    ensures v < n ==> Valid(table[v])
  {
    if n == 0 then NB_PAGES
    else if FirstValid(table, n - 1) < NB_PAGES then FirstValid(table, n - 1)
    else if Valid(table[n - 1]) then n - 1 else NB_PAGES
  }

  /** Line 85: not referenced, and outside the working set. */
  predicate Expired(s: Wsc, i: nat)
    requires i < |s.table| && i < |s.tdu|
  {
    Valid(s.table[i]) && !Referenced(s.table[i]) && s.tvc - s.tdu[i] > DELTA
  }

  /** Where the scan stops: the lowest expired page below n, or NB_PAGES. */
  function ScanStop(s: Wsc, n: nat): (v: nat)
    requires n <= |s.table| == |s.tdu| == NB_PAGES
    ensures v < n || v == NB_PAGES
    ensures forall i :: 0 <= i < n && i < v ==> !Expired(s, i)
    ensures v < n ==> Expired(s, v)
  {
    if n == 0 then NB_PAGES
    else if ScanStop(s, n - 1) < NB_PAGES then ScanStop(s, n - 1)
    else if Expired(s, n - 1) then n - 1 else NB_PAGES
  }

  /** The scan takes the reference bit of every valid page that it passes. */
  function Scanned(table: seq<bv8>, n: nat): (t: seq<bv8>)
    ensures |t| == |table|
  {
    seq(|table|, i requires 0 <= i < |table| => if i < n && Valid(table[i]) then ClearRef(table[i]) else table[i])
  }

  lemma ScannedNone(table: seq<bv8>)
    ensures Scanned(table, 0) == table
  {
  }

  lemma ScanStep(s: Wsc, i: nat)
    requires |s.table| == |s.tdu| == NB_PAGES && i < NB_PAGES && ScanStop(s, i) == NB_PAGES
    ensures Scanned(s.table, i)[i] == s.table[i]
    ensures !Valid(s.table[i]) ==> Scanned(s.table, i + 1) == Scanned(s.table, i)
    ensures Valid(s.table[i]) && Referenced(s.table[i]) ==>
              Scanned(s.table, i + 1) == Scanned(s.table, i)[i := ClearRef(s.table[i])]
    ensures Valid(s.table[i]) && !Referenced(s.table[i]) ==> Scanned(s.table, i + 1) == Scanned(s.table, i)
    ensures Expired(s, i) ==> ScanStop(s, NB_PAGES) == i
  {
    if Valid(s.table[i]) && !Referenced(s.table[i]) {
      assert ClearRef(s.table[i]) == s.table[i];
    }
  }

  /** The masks of line 109 have no bit in common, so no time of use is ever renewed. */
  predicate Renews(e: bv8) { e & 0x04 & 0x01 != 0 }

  function Renewed(tdu: seq<nat>, table: seq<bv8>, tvc: nat): (r: seq<nat>)
    requires |table| == |tdu|
    ensures r == tdu
  {
    seq(|tdu|, i requires 0 <= i < |tdu| => if Renews(table[i]) then tvc else tdu[i])
  }

  function Victim(s: Wsc): nat
    requires |s.table| == |s.tdu| == NB_PAGES
  {
    var stop := ScanStop(s, NB_PAGES);
    if stop < NB_PAGES then stop else FirstValid(s.table, NB_PAGES)
  }

  lemma VictimValid(s: Wsc)
    requires WscOk(s)
    ensures Victim(s) < NB_PAGES && Valid(s.table[Victim(s)])
  {
    var i :| i in ValidSet(s.table);
  }

  /** One access to page p < NB_PAGES. */
  function WscAccess(s: Wsc, p: nat): Wsc
    requires WscOk(s) && p < NB_PAGES
  {
    VictimValid(s);
    var table :=
      if Valid(s.table[p]) then s.table else Swap(Scanned(s.table, ScanStop(s, NB_PAGES)), Victim(s), p);
    Wsc(table[p := SetRef(table[p])], s.tdu, (s.tvc + 1) % 256)
  }

  class Pager {
    const pageTable: array<bv8>
    const tdu: array<nat>
    var compteurGlobal: nat
    var tvc: nat

    ghost predicate Ready()
      reads this, pageTable, tdu
    {
      && pageTable.Length == NB_PAGES && tdu.Length == NB_PAGES && pageTable as object != tdu
      && compteurGlobal < 256 && tvc < 256 && ValidSet(pageTable[..]) != {}
    }

    ghost function View(): Lru
      reads this, pageTable, tdu
    {
      Lru(pageTable[..], tdu[..], compteurGlobal)
    }

    ghost function WscView(): Wsc
      reads this, pageTable, tdu
    {
      Wsc(pageTable[..], tdu[..], tvc)
    }

    constructor ()
      ensures fresh(pageTable) && fresh(tdu) && pageTable.Length == NB_PAGES && tdu.Length == NB_PAGES
      ensures View() == Start() && WscView() == Wsc(Start().table, Start().tdu, 0)
    {
      pageTable := new bv8[NB_PAGES](_ => 0);
      tdu := new nat[NB_PAGES](_ => 0);
      compteurGlobal, tvc := 0, 0;
      new;
      InitPageTable();
    }

    /** init_page_table, on the zeroed table. */
    method InitPageTable()
      requires pageTable.Length == NB_PAGES && forall i :: 0 <= i < NB_PAGES ==> pageTable[i] == 0
      modifies pageTable
      ensures pageTable[..] == StartTable()
    {
      var i := 0;
      while i < NB_PAGES
        invariant 0 <= i <= NB_PAGES
        invariant forall k :: 0 <= k < NB_PAGES ==> pageTable[k] == if k < i then Tag(k) else 0
      {
        pageTable[i] := pageTable[i] | Tag(i);
        i := i + 1;
      }
      pageTable[0] := pageTable[0] | 0x01;
      pageTable[1] := pageTable[1] | 0x01;
      pageTable[2] := pageTable[2] | 0x01;
      pageTable[3] := pageTable[3] | 0x02;
    }

    /** The end of either replacement: the page leaves memory for swap. */
    method SwapOut(page: nat)
      requires page < pageTable.Length
      modifies pageTable
      ensures pageTable[..] == old(pageTable[..])[page := Evict(old(pageTable[page]))]
    {
      pageTable[page] := pageTable[page] & 0xFE;
      pageTable[page] := pageTable[page] | 0x02;
    }

    /** replaceLRU */
    method ReplaceLRU()
      requires Ready()
      modifies pageTable
      ensures var t, v := old(pageTable[..]), Oldest(old(pageTable[..]), tdu[..], NB_PAGES);
              v < NB_PAGES && pageTable[..] == t[v := Evict(t[v])]
    {
      var lowestPage := -1;
      var i := 0;
      while i < NB_PAGES
        invariant 0 <= i <= NB_PAGES && -1 <= lowestPage < NB_PAGES
        invariant Oldest(pageTable[..], tdu[..], i) == if lowestPage == -1 then NB_PAGES else lowestPage
      {
        if pageTable[i] & 0x01 != 0 && (lowestPage == -1 || tdu[lowestPage] > tdu[i]) {
          lowestPage := i;
        }
        i := i + 1;
      }
      SomeValid(pageTable[..], tdu[..]);
      SwapOut(lowestPage);
    }

    lemma SomeValid(table: seq<bv8>, tdu: seq<nat>)
      requires |table| == |tdu| == NB_PAGES && ValidSet(table) != {}
      ensures Oldest(table, tdu, NB_PAGES) < NB_PAGES
    {
      var i :| i in ValidSet(table);
    }

    /** inc_compteur */
    method IncCompteur(page: nat)
      requires tdu.Length == NB_PAGES && compteurGlobal < 256
      modifies tdu, this`compteurGlobal
      ensures if page < NB_PAGES then
                compteurGlobal == (old(compteurGlobal) + 1) % 256 && tdu[..] == old(tdu[..])[page := compteurGlobal]
              else compteurGlobal == old(compteurGlobal) && tdu[..] == old(tdu[..])
    {
      if page < NB_PAGES {
        compteurGlobal := (compteurGlobal + 1) % 256;
        tdu[page] := compteurGlobal;
      }
    }

    /** The LRU branch of main, for one page number. */
    method AccessLRU(page: nat)
      requires Ready() && page < NB_PAGES
      modifies pageTable, tdu, this`compteurGlobal
      ensures View() == Access(old(View()), page)
    {
      ghost var t := pageTable[..];
      SomeValid(t, tdu[..]);
      if pageTable[page] & 0x01 == 0 {
        ReplaceLRU();
        pageTable[page] := pageTable[page] & 0xFD;
        pageTable[page] := pageTable[page] | 0x01;
      }
      IncCompteur(page);
    }

    /** replaceWSC */
    method ReplaceWSC()
      requires Ready()
      modifies pageTable
      ensures var s := old(WscView());
              var t, v := Scanned(s.table, ScanStop(s, NB_PAGES)), Victim(s);
              v < NB_PAGES && pageTable[..] == t[v := Evict(t[v])]
    {
      hide Valid, Referenced, ClearRef, Scanned, Evict;
      ghost var s := WscView();
      ScannedNone(s.table);
      var lowestPage := -1;
      var i := 0;
      while i < NB_PAGES
        invariant 0 <= i <= NB_PAGES && -1 <= lowestPage < NB_PAGES
        invariant FirstValid(s.table, i) == if lowestPage == -1 then NB_PAGES else lowestPage
        invariant ScanStop(s, i) == NB_PAGES
        invariant pageTable[..] == Scanned(s.table, i)
      {
        ScanStep(s, i);
        if Valid(pageTable[i]) {
          if lowestPage == -1 {
            lowestPage := i;
          }
          if Referenced(pageTable[i]) {
            pageTable[i] := ClearRef(pageTable[i]);
          } else if tvc - tdu[i] > DELTA {
            lowestPage := i;
            break;
          }
        }
        i := i + 1;
      }
      VictimValid(s);
      SwapOut(lowestPage);
    }

    /** updateTDU */
    method UpdateTDU()
      requires pageTable.Length == NB_PAGES && tdu.Length == NB_PAGES && pageTable as object != tdu
      modifies tdu
      ensures tdu[..] == Renewed(old(tdu[..]), pageTable[..], tvc)
    {
      hide Renews;
      var i := 0;
      while i < NB_PAGES
        invariant 0 <= i <= NB_PAGES
        invariant forall k :: 0 <= k < NB_PAGES ==>
                    tdu[k] == if k < i && Renews(pageTable[k]) then tvc else old(tdu[k])
      {
        if Renews(pageTable[i]) {
          tdu[i] := tvc;
        }
        i := i + 1;
      }
      assert forall k :: 0 <= k < NB_PAGES ==> tdu[k] == Renewed(old(tdu[..]), pageTable[..], tvc)[k];
    }

    /** The WSC branch of main, for one page number. */
    method AccessWSC(page: nat)
      requires Ready() && page < NB_PAGES
      modifies pageTable, tdu, this`tvc
      ensures WscView() == WscAccess(old(WscView()), page)
    {
      hide Scanned, ScanStop, Victim, Evict, SetRef, Load;
      if pageTable[page] & 0x01 == 0 {
        ReplaceWSC();
        TouchBits(pageTable[page]);
        pageTable[page] := pageTable[page] & 0xFD;
      } else {
        TouchBits(pageTable[page]);
      }
      pageTable[page] := pageTable[page] | 0x04;
      pageTable[page] := pageTable[page] | 0x01;
      tvc := (tvc + 1) % 256;
      UpdateTDU();
    }

    /** One round of main, for any page number that was typed in. */
    method Serve(page: int, lru: bool)
      requires Ready()
      modifies pageTable, tdu, this
      ensures if !(0 <= page < NB_PAGES) then
                View() == old(View()) && tvc == old(tvc)
              else if lru then
                View() == Access(old(View()), page) && tvc == old(tvc)
              else
                WscView() == WscAccess(old(WscView()), page) && compteurGlobal == old(compteurGlobal)
    {
      if 0 <= page < NB_PAGES {
        if lru {
          AccessLRU(page);
        } else {
          AccessWSC(page);
        }
      }
    }
  }
}
