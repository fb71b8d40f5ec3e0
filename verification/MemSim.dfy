/** The paged memory simulator (memsim.c): 16-bit virtual addresses over pages in reverse order. */
module MemSim {
  import opened Wrappers

  const ADDRESSES := 65536

  type uint16 = x: int | 0 <= x < 0x1_0000
  type uint32 = x: int | 0 <= x < 0x1_0000_0000

  /** The compile-time switches: 256 pages of 256 bytes or 64 of 1024, and entries with or without attributes. */
  datatype Config = Config(small: bool, attributes: bool) {
    function Pages(): (n: nat) { if small then 256 else 64 }
    function PageSize(): (n: nat)
      ensures 0 < n
    {
      if small then 256 else 1024
    }
  }

  // Entries: the frame number in the high bits; [2..1] RWX: 00 all, 01 R, 10 W, 11 X; [0] VALID. Bit by bit, as arithmetic.

  predicate Valid(pte: uint16) { pte % 2 == 1 }
  function Rwx(pte: uint16): (n: nat)
    ensures n < 4
  {
    pte / 2 % 4
  }
  function Frame(c: Config, pte: uint16): nat { pte / c.PageSize() }

  /** The rules of the two accesses. */
  predicate Readable(c: Config, pte: uint16) {
    c.attributes ==> Valid(pte) && (Rwx(pte) == 0 || Rwx(pte) == 1)
  }

  predicate Writable(c: Config, pte: uint16) {
    c.attributes ==> Valid(pte) && (Rwx(pte) == 0 || Rwx(pte) == 2)
  }

  /** In bits: the lowest must be set; of the next two, 10 and 11 refuse a read, 01 and 11 a write. */
  lemma Rules(c: Config, pte: uint16)
    ensures Readable(c, pte) <==> !(c.attributes && (pte % 2 == 0 || pte / 2 % 4 == 2 || pte / 2 % 4 == 3))
    ensures Writable(c, pte) <==> !(c.attributes && (pte % 2 == 0 || pte / 2 % 4 == 1 || pte / 2 % 4 == 3))
  {
  }

  lemma PageIs(c: Config, vaddr: uint32)
    ensures Page(c, vaddr) == vaddr % 65536 / (if c.small then 256 else 1024)
  {
  }

  function Page(c: Config, vaddr: uint32): (p: nat)
    ensures p < c.Pages()
  {
    vaddr % ADDRESSES / c.PageSize()
  }

  lemma FrameInRange(c: Config, pte: uint16)
    ensures Frame(c, pte) < c.Pages()
  {
  }

  /** A page table that gives every page a frame of its own. */
  predicate OneToOne(c: Config, table: seq<uint16>) {
    && |table| == c.Pages()
    && forall i, j :: 0 <= i < j < |table| ==> Frame(c, table[i]) != Frame(c, table[j])
  }

  lemma PageOfPage(c: Config, v: uint16)
    ensures v / c.PageSize() % c.PageSize() == v / c.PageSize() == Page(c, v)
  {
  }

  /** Two addresses never share a physical byte. */
  lemma AddressesApart(c: Config, table: seq<uint16>, v: uint16, w: uint16)
    requires OneToOne(c, table) && v != w
    ensures Frame(c, table[Page(c, v)]) != Frame(c, table[Page(c, w)]) || v % c.PageSize() != w % c.PageSize()
  {
    hide Frame;
    var i, j := Page(c, v), Page(c, w);
    if i == j {
      SamePage(c, v, w);
    } else if i < j {
      assert Frame(c, table[i]) != Frame(c, table[j]);
    } else {
      assert Frame(c, table[j]) != Frame(c, table[i]);
    }
  }

  lemma SamePage(c: Config, v: uint16, w: uint16)
    requires Page(c, v) == Page(c, w) && v != w
    ensures v % c.PageSize() != w % c.PageSize()
  {
    hide Config.PageSize;
    var size := c.PageSize();
    assert v == v / size * size + v % size && w == w / size * size + w % size;
  }

  lemma PageWraps(c: Config, vaddr: uint32)
    ensures Page(c, vaddr % ADDRESSES) == Page(c, vaddr)
  {
  }

  class Memory {
    const config: Config
    const pageTable: array<uint16>
    const mainMem: array2<byte>

    ghost predicate Shaped()
      reads this
    {
      pageTable.Length == config.Pages() && mainMem.Length0 == config.Pages() && mainMem.Length1 == config.PageSize()
    }

    ghost predicate Ready()
      reads this, pageTable
    {
      Shaped() && OneToOne(config, pageTable[..])
    }

    /** The byte that the table puts at a virtual address. */
    ghost function At(v: uint16): byte
      requires Shaped()
      reads this, pageTable, mainMem
    {
      FrameInRange(config, pageTable[Page(config, v)]);
      mainMem[Frame(config, pageTable[Page(config, v)]), v % config.PageSize()]
    }

    /** The memory as one array of bytes. */
    ghost function Flat(): (m: seq<byte>)
      requires Shaped()
      reads this, pageTable, mainMem
      ensures |m| == ADDRESSES
    {
      seq(ADDRESSES, v requires 0 <= v < ADDRESSES reads this, pageTable, mainMem requires Shaped() => At(v))
    }

    /** Where a flat byte lies: in the frame of its page's entry, at its own offset. */
    lemma FlatIs(v: uint16)
      requires Shaped()
      ensures if config.small
              then v / 256 < pageTable.Length && pageTable[v / 256] / 256 < mainMem.Length0 && v % 256 < mainMem.Length1
                   && Flat()[v] == mainMem[pageTable[v / 256] / 256, v % 256]
              else v / 1024 < pageTable.Length && pageTable[v / 1024] / 1024 < mainMem.Length0 && v % 1024 < mainMem.Length1
                   && Flat()[v] == mainMem[pageTable[v / 1024] / 1024, v % 1024]
    {
      FrameInRange(config, pageTable[Page(config, v)]);
    }

    constructor (c: Config)
      ensures fresh(pageTable) && fresh(mainMem) && config == c && Ready()
      ensures pageTable[..] == InitTable(c) && Flat() == seq(ADDRESSES, _ => 0)
    {
      config := c;
      pageTable := new uint16[c.Pages()](_ => 0);
      mainMem := new byte[c.Pages(), c.PageSize()]((_, _) => 0);
      new;
      InitPageTable();
    }

    /** init_page_table */
    method InitPageTable()
      requires Shaped()
      modifies pageTable
      ensures pageTable[..] == InitTable(config) && Ready()
      ensures forall i :: 0 <= i < pageTable.Length ==>
                if config.small then pageTable[i] / 256 == 255 - i else pageTable[i] / 1024 == 63 - i
    {
      var i := 0;
      while i < config.Pages()
        invariant 0 <= i <= config.Pages()
        invariant forall k :: 0 <= k < i ==> pageTable[k] == InitTable(config)[k]
      {
        pageTable[i] := (config.Pages() - 1 - i) * config.PageSize();
        if config.attributes {
          if 10 <= i <= 12 {
            pageTable[i] := SetReadOnly(pageTable[i]);
          }
          pageTable[i] := SetValid(pageTable[i]);
          if 5 <= i <= 8 {
            pageTable[i] := ClearValid(pageTable[i]);
          }
        }
        i := i + 1;
      }
      InitTableOk(config);
    }

    /** virt_to_pte */
    method VirtToPte(vaddr: uint32) returns (pte: uint16)
      requires Shaped()
      ensures pte == pageTable[Page(config, vaddr)]
    {
      var v := vaddr % ADDRESSES;
      PageOfPage(config, v);
      pte := pageTable[v / config.PageSize() % config.PageSize()];
    }

    /** get_byte */
    method GetByte(vaddr: uint32) returns (r: Option<byte>)
      requires Shaped()
      ensures r == if Readable(config, pageTable[Page(config, vaddr)]) then Some(Flat()[vaddr % ADDRESSES]) else None
      ensures var pte := pageTable[vaddr % 65536 / (if config.small then 256 else 1024)];
              r == None <==> config.attributes && (pte % 2 == 0 || pte / 2 % 4 == 2 || pte / 2 % 4 == 3)
    {
      hide Frame, Page, Valid, Rwx, Config.PageSize, Config.Pages;
      PageWraps(config, vaddr);
      var pte := VirtToPte(vaddr);
      PageIs(config, vaddr);
      Rules(config, pte);
      if config.attributes {
        if !Valid(pte) {
          return None;
        }
        if Rwx(pte) == 2 || Rwx(pte) == 3 {
          return None;
        }
      }
      FrameInRange(config, pte);
      r := Some(mainMem[Frame(config, pte), vaddr % ADDRESSES % config.PageSize()]);
    }

    /** store_byte */
    method StoreByte(vaddr: uint32, value: byte) returns (ok: bool)
      requires Ready()
      modifies mainMem
      ensures ok == Writable(config, pageTable[Page(config, vaddr)])
      ensures var pte := pageTable[vaddr % 65536 / (if config.small then 256 else 1024)];
              !ok <==> config.attributes && (pte % 2 == 0 || pte / 2 % 4 == 1 || pte / 2 % 4 == 3)
      ensures Flat() == if ok then old(Flat())[vaddr % ADDRESSES := value] else old(Flat())
    {
      hide Frame, Page, Valid, Rwx, OneToOne, Config.PageSize, Config.Pages;
      PageWraps(config, vaddr);
      var pte := VirtToPte(vaddr);
      PageIs(config, vaddr);
      Rules(config, pte);
      if config.attributes {
        if !Valid(pte) {
          return false;
        }
        if Rwx(pte) != 0 && Rwx(pte) != 2 {
          return false;
        }
      }
      FrameInRange(config, pte);
      mainMem[Frame(config, pte), vaddr % ADDRESSES % config.PageSize()] := value;
      ok := true;
      forall w: uint16 | w != vaddr % ADDRESSES ensures At(w) == old(At(w)) {
        AddressesApart(config, pageTable[..], vaddr % ADDRESSES, w);
      }
    }

    /** Any sequence of accesses, once init_page_table has run. */
    method Perform(accesses: seq<Access>) returns (results: seq<Option<byte>>)
      requires Shaped() && pageTable[..] == InitTable(config)
      modifies mainMem
      ensures (results, Flat()) == FlatRun(config, old(Flat()), accesses)
    {
      hide OneToOne, Flat, Readable, Writable, InitTable;
      InitTableOk(config);
      results := [];
      var i := 0;
      assert accesses[..0] == [];
      while i < |accesses|
        invariant 0 <= i <= |accesses|
        invariant (results, Flat()) == FlatRun(config, old(Flat()), accesses[..i])
      {
        assert accesses[..i + 1][..i] == accesses[..i];
        match accesses[i] {
          case Get(vaddr) =>
            var r := GetByte(vaddr);
            results := results + [r];
          case Store(vaddr, value) =>
            var ok := StoreByte(vaddr, value);
            results := results + [if ok then Some(value) else None];
        }
        i := i + 1;
      }
      assert accesses[..i] == accesses;
    }
  }

  function SetReadOnly(pte: uint16): uint16 { if pte / 2 % 2 == 0 then pte + 2 else pte }
  function SetValid(pte: uint16): uint16 { if pte % 2 == 0 then pte + 1 else pte }
  function ClearValid(pte: uint16): uint16 { pte - pte % 2 }

  /** The table that init_page_table builds: frames in reverse order, pages 10 to 12 read-only, 5 to 8 not valid. */
  function InitEntry(c: Config, i: nat): uint16
    requires i < c.Pages()
  {
    var base := (c.Pages() - 1 - i) * c.PageSize();
    if !c.attributes then base
    else base + (if 10 <= i <= 12 then 2 else 0) + (if 5 <= i <= 8 then 0 else 1)
  }

  function InitTable(c: Config): (t: seq<uint16>)
    ensures |t| == c.Pages()
  {
    seq(c.Pages(), i requires 0 <= i < c.Pages() => InitEntry(c, i))
  }

  lemma InitEntryIs(c: Config, i: nat)
    requires i < c.Pages()
    ensures Frame(c, InitEntry(c, i)) == c.Pages() - 1 - i
    ensures Readable(c, InitEntry(c, i)) <==> !(c.attributes && 5 <= i <= 8)
    ensures Writable(c, InitEntry(c, i)) <==> !(c.attributes && (5 <= i <= 8 || 10 <= i <= 12))
  {
    if c.small {
      assert InitEntry(c, i) / 256 == 255 - i;
    } else {
      assert InitEntry(c, i) / 1024 == 63 - i;
    }
  }

  lemma InitTableOk(c: Config)
    ensures OneToOne(c, InitTable(c))
    ensures forall i :: 0 <= i < c.Pages() ==>
              && (Readable(c, InitTable(c)[i]) <==> !(c.attributes && 5 <= i <= 8))
              && (Writable(c, InitTable(c)[i]) <==> !(c.attributes && (5 <= i <= 8 || 10 <= i <= 12)))
  {
    hide Frame, Readable, Writable, InitEntry;
    forall i: nat | i < c.Pages()
      ensures Frame(c, InitTable(c)[i]) == c.Pages() - 1 - i
      ensures Readable(c, InitTable(c)[i]) <==> !(c.attributes && 5 <= i <= 8)
      ensures Writable(c, InitTable(c)[i]) <==> !(c.attributes && (5 <= i <= 8 || 10 <= i <= 12))
    {
      InitEntryIs(c, i);
    }
  }

  // The flat memory that the simulator is.

  datatype Access = Get(vaddr: uint32) | Store(vaddr: uint32, value: byte)

  predicate MayRead(c: Config, vaddr: uint32) {
    !(c.attributes && 5 <= Page(c, vaddr) <= 8)
  }

  predicate MayWrite(c: Config, vaddr: uint32) {
    MayRead(c, vaddr) && !(c.attributes && 10 <= Page(c, vaddr) <= 12)
  }

  /** The answers and the final contents of one array of 65536 bytes; a store answers its own byte, a refusal None. */
  function FlatRun(c: Config, m: seq<byte>, accesses: seq<Access>): (r: (seq<Option<byte>>, seq<byte>))
    requires |m| == ADDRESSES
    ensures |r.1| == ADDRESSES
  {
    if accesses == [] then ([], m)
    else
      var (answers, now) := FlatRun(c, m, accesses[..|accesses| - 1]);
      match accesses[|accesses| - 1]
      case Get(vaddr) => (answers + [if MayRead(c, vaddr) then Some(now[vaddr % ADDRESSES]) else None], now)
      case Store(vaddr, value) =>
        if MayWrite(c, vaddr) then (answers + [Some(value)], now[vaddr % ADDRESSES := value])
        else (answers + [None], now)
  }

  /** The refused addresses: of the small pages 0x500 to 0x8ff, and for stores 0xa00 to 0xcff; of the large ones four times those. */
  lemma RefusedAddresses(c: Config, vaddr: uint32)
    ensures var v, unit := vaddr % 0x1_0000, if c.small then 0x100 else 0x400;
            && (MayRead(c, vaddr) <==> !(c.attributes && 5 * unit <= v < 9 * unit))
            && (MayWrite(c, vaddr) <==> !(c.attributes && (5 * unit <= v < 9 * unit || 10 * unit <= v < 13 * unit)))
  {
  }
}
