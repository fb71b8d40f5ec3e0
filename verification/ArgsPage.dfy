/**
 * The argument page of exec (process.c:391 to 539): argc, an array of pointers to the
 * argument strings, an array of pointers to the environment strings ended by NULL, then the
 * strings. It is built in a scratch buffer and relocated to its place in user space.
 * 32-bit addresses, little-endian words.
 */
module ArgsPage {
  import opened Wrappers
  import opened PageTables

  const WORD := 4
  const ADDRESSES := 0x1_0000_0000
  const PROC_NAME_LEN := 80

  /** A C string without its terminator. */
  type Str = s: seq<byte> | 0 !in s

  // Words and strings in memory.

  function Word(b: seq<byte>, off: nat): (w: nat)
    requires off + WORD <= |b|
    ensures w < ADDRESSES
  {
    var b0: int, b1: int, b2: int, b3: int := b[off], b[off + 1], b[off + 2], b[off + 3];
    b0 + 0x100 * b1 + 0x1_0000 * b2 + 0x100_0000 * b3
  }

  function WordBytes(w: nat): (b: seq<byte>)
    requires w < ADDRESSES
    ensures |b| == WORD
  {
    [w % 0x100, w / 0x100 % 0x100, w / 0x1_0000 % 0x100, w / 0x100_0000]
  }

  /** b with the bytes s at offset off. */
  function Written(b: seq<byte>, off: nat, s: seq<byte>): (c: seq<byte>)
    requires off + |s| <= |b|
    ensures |c| == |b|
    ensures forall i :: 0 <= i < |b| ==> c[i] == if off <= i < off + |s| then s[i - off] else b[i]
  {
    b[..off] + s + b[off + |s|..]
  }

  lemma WordReadsBack(b: seq<byte>, off: nat, w: nat)
    requires w < ADDRESSES && off + WORD <= |b|
    ensures Word(Written(b, off, WordBytes(w)), off) == w
  {
    var c, s := Written(b, off, WordBytes(w)), WordBytes(w);
    assert c[off] == s[0] && c[off + 1] == s[1] && c[off + 2] == s[2] && c[off + 3] == s[3];
    hide Written, WordBytes;
    WordBytesJoin(w);
  }

  lemma WordBytesJoin(w: nat)
    requires w < ADDRESSES
    ensures var s := WordBytes(w); w == s[0] as int + 0x100 * s[1] as int + 0x1_0000 * s[2] as int + 0x100_0000 * s[3] as int
  {
  }

  /** A word outside the bytes written is as before. */
  lemma WordElsewhere(b: seq<byte>, off: nat, s: seq<byte>, at: nat)
    requires off + |s| <= |b| && at + WORD <= |b| && (at + WORD <= off || off + |s| <= at)
    ensures Word(Written(b, off, s), at) == Word(b, at)
  {
  }

  method PutWord(buf: array<byte>, off: nat, w: nat)
    requires off + WORD <= buf.Length && w < ADDRESSES
    modifies buf
    ensures buf[..] == Written(old(buf[..]), off, WordBytes(w))
  {
    var s := WordBytes(w);
    buf[off], buf[off + 1], buf[off + 2], buf[off + 3] := s[0], s[1], s[2], s[3];
  }

  method GetWord(buf: array<byte>, off: nat) returns (w: nat)
    requires off + WORD <= buf.Length
    ensures w == Word(buf[..], off)
  {
    var b0: int, b1: int, b2: int, b3: int := buf[off], buf[off + 1], buf[off + 2], buf[off + 3];
    w := b0 + 0x100 * b1 + 0x1_0000 * b2 + 0x100_0000 * b3;
  }

  /** strcpy: the string and its terminator. */
  method StrCpy(buf: array<byte>, off: nat, s: Str)
    requires off + |s| + 1 <= buf.Length
    modifies buf
    ensures buf[..] == Written(old(buf[..]), off, s + [0])
  {
    var i := 0;
    while i < |s|
      invariant 0 <= i <= |s|
      invariant forall k :: 0 <= k < buf.Length ==> buf[k] == if off <= k < off + i then s[k - off] else old(buf[k])
    {
      buf[off + i] := s[i];
      i := i + 1;
    }
    buf[off + |s|] := 0;
  }

  // Layout.

  /** Where string k starts; for the number of strings, where the last one ends. */
  function Offset(strs: seq<Str>, k: nat): (o: nat)
    requires k <= |strs|
    ensures WORD + WORD * (|strs| + 1) <= o
  {
    if k == 0 then WORD + WORD * (|strs| + 1) else Offset(strs, k - 1) + |strs[k - 1]| + 1
  }

  /** The strings follow the pointers and each other without overlap. */
  lemma {:induction false} OffsetsApart(strs: seq<Str>, k: nat, m: nat)
    requires k < m <= |strs|
    ensures Offset(strs, k) + |strs[k]| + 1 <= Offset(strs, m)
  {
    if k < m - 1 { OffsetsApart(strs, k, m - 1); }
  }

  /** Where the pointer to string k is. */
  function Slot(k: nat): nat { WORD + WORD * k }

  /** String k is in place and its slot points at it, for memory at address base. */
  ghost predicate Placed(b: seq<byte>, base: nat, strs: seq<Str>, k: nat)
    requires k < |strs|
  {
    && Offset(strs, k) + |strs[k]| + 1 <= |b|
    && Word(b, Slot(k)) == (base + Offset(strs, k)) % ADDRESSES
    && b[Offset(strs, k)..Offset(strs, k) + |strs[k]|] == strs[k]
    && b[Offset(strs, k) + |strs[k]|] == 0
  }

  /** The first n strings are laid out; all after them is still zero. */
  ghost predicate Laid(b: seq<byte>, base: nat, strs: seq<Str>, n: nat)
    requires n <= |strs|
  {
    && Offset(strs, n) <= |b|
    && (forall k :: 0 <= k < n ==> Placed(b, base, strs, k))
    && (forall i :: Slot(n) <= i < Offset(strs, 0) ==> b[i] == 0)
    && (forall i :: Offset(strs, n) <= i < |b| ==> b[i] == 0)
  }

  /** b with pointer and string n written. */
  function Stored(b: seq<byte>, base: nat, strs: seq<Str>, n: nat): (d: seq<byte>)
    requires n < |strs| && Offset(strs, n) + |strs[n]| + 1 <= |b|
    ensures |d| == |b|
  {
    Written(Written(b, Slot(n), WordBytes((base + Offset(strs, n)) % ADDRESSES)), Offset(strs, n), strs[n] + [0])
  }

  /** Writing pointer and string n leaves what was placed. */
  lemma PlacedKept(b: seq<byte>, base: nat, strs: seq<Str>, n: nat, k: nat)
    requires k < n < |strs| && Placed(b, base, strs, k)
    requires Offset(strs, n) + |strs[n]| + 1 <= |b|
    ensures Placed(Stored(b, base, strs, n), base, strs, k)
  {
    hide Word, WordBytes, Written;
    OffsetsApart(strs, k, n);
    var w, o := WordBytes((base + Offset(strs, n)) % ADDRESSES), Offset(strs, n);
    var c := Written(b, Slot(n), w);
    WordElsewhere(b, Slot(n), w, Slot(k));
    WordElsewhere(c, o, strs[n] + [0], Slot(k));
    SliceElsewhere(b, Slot(n), w, Offset(strs, k), Offset(strs, k) + |strs[k]|);
    SliceElsewhere(c, o, strs[n] + [0], Offset(strs, k), Offset(strs, k) + |strs[k]|);
  }

  lemma SliceElsewhere(b: seq<byte>, off: nat, s: seq<byte>, lo: nat, hi: nat)
    requires off + |s| <= |b| && lo <= hi < |b| && (hi < off || off + |s| <= lo)
    ensures Written(b, off, s)[lo..hi] == b[lo..hi] && Written(b, off, s)[hi] == b[hi]
  {
  }

  lemma PlacedNew(b: seq<byte>, base: nat, strs: seq<Str>, n: nat)
    requires n < |strs| && Offset(strs, n) + |strs[n]| + 1 <= |b|
    ensures Placed(Stored(b, base, strs, n), base, strs, n)
  {
    hide Word, WordBytes, Offset;
    var o := Offset(strs, n);
    var c := Written(b, Slot(n), WordBytes((base + o) % ADDRESSES));
    WordReadsBack(b, Slot(n), (base + o) % ADDRESSES);
    WordElsewhere(c, o, strs[n] + [0], Slot(n));
    StringWritten(c, o, strs[n]);
  }

  lemma StringWritten(b: seq<byte>, off: nat, s: Str)
    requires off + |s| + 1 <= |b|
    ensures var d := Written(b, off, s + [0]); d[off..off + |s|] == s && d[off + |s|] == 0
  {
  }

  /** One round of either loop of preserve_args_and_env. */
  lemma LaidOneMore(b: seq<byte>, base: nat, strs: seq<Str>, n: nat)
    requires n < |strs| && Laid(b, base, strs, n)
    requires Offset(strs, n) + |strs[n]| + 1 <= |b|
    ensures Laid(Stored(b, base, strs, n), base, strs, n + 1)
  {
    hide Offset, Stored, Placed;
    LaidPlaced(b, base, strs, n);
    LaidZeros(b, base, strs, n);
  }

  lemma LaidPlaced(b: seq<byte>, base: nat, strs: seq<Str>, n: nat)
    requires n < |strs| && (forall k :: 0 <= k < n ==> Placed(b, base, strs, k))
    requires Offset(strs, n) + |strs[n]| + 1 <= |b|
    ensures var d := Stored(b, base, strs, n);
            forall k :: 0 <= k < n + 1 ==> Placed(d, base, strs, k)
  {
    hide Offset, Stored, Placed;
    var d := Stored(b, base, strs, n);
    forall k | 0 <= k < n + 1
      ensures Placed(d, base, strs, k)
    {
      if k < n { PlacedKept(b, base, strs, n, k); } else { PlacedNew(b, base, strs, n); }
    }
  }

  lemma LaidZeros(b: seq<byte>, base: nat, strs: seq<Str>, n: nat)
    requires n < |strs| && Offset(strs, n) + |strs[n]| + 1 <= |b|
    requires forall i :: Slot(n) <= i < Offset(strs, 0) ==> b[i] == 0
    requires forall i :: Offset(strs, n) <= i < |b| ==> b[i] == 0
    ensures var d := Stored(b, base, strs, n);
            && Offset(strs, n + 1) == Offset(strs, n) + |strs[n]| + 1
            && (forall i :: Slot(n + 1) <= i < Offset(strs, 0) ==> d[i] == 0)
            && (forall i :: Offset(strs, n + 1) <= i < |d| ==> d[i] == 0)
  {
    hide WordBytes;
    if n > 0 { OffsetsApart(strs, 0, n); }
  }

  // preserve_args_and_env

  /** The strings to store: argv, or the process name when argc is 0, then envp. */
  function Strings(name: Str, argv: seq<Str>, envp: Option<seq<Str>>): seq<Str> {
    (if argv == [] then [name] else argv) + (if envp.Some? then envp.value else [])
  }

  function ArgCount(argv: seq<Str>): nat { if argv == [] then 1 else |argv| }

  /** All the bytes the page needs: argc, the pointers with the final NULL, the strings. */
  function Needed(strs: seq<Str>): nat { Offset(strs, |strs|) }

  /** A finished page: the count of arguments, and everything laid out. */
  ghost predicate Page(b: seq<byte>, base: nat, strs: seq<Str>, argc: nat) {
    WORD <= |b| && argc <= |strs| && Word(b, 0) == argc && Laid(b, base, strs, |strs|)
  }

  /** The page and room beyond it, zeroed, for the strings that are copied before the check. */
  method Malloc(room: nat) returns (buf: array<byte>)
    ensures fresh(buf) && buf.Length == PAGE_SIZE + room
    ensures forall i :: 0 <= i < buf.Length ==> buf[i] == 0
  {
    buf := new byte[PAGE_SIZE + room](_ => 0);
  }

  /** Pointer and string n are stored. */
  method StoreString(buf: array<byte>, base: nat, ghost strs: seq<Str>, n: nat, at: nat, s: Str) returns (next: nat)
    requires n < |strs| && s == strs[n] && at == Offset(strs, n)
    requires Laid(buf[..], base, strs, n) && Needed(strs) <= buf.Length
    modifies buf
    ensures Laid(buf[..], base, strs, n + 1) && next == Offset(strs, n + 1) <= Needed(strs)
    ensures Word(buf[..], 0) == old(Word(buf[..], 0))
  {
    hide Laid, Word;
    NeededGrows(strs, n + 1);
    ghost var b := buf[..];
    LaidOneMore(b, base, strs, n);
    PutWord(buf, Slot(n), (base + at) % ADDRESSES);
    StrCpy(buf, at, s);
    next := at + |s| + 1;
    WordElsewhere(b, Slot(n), WordBytes((base + at) % ADDRESSES), 0);
    WordElsewhere(Written(b, Slot(n), WordBytes((base + at) % ADDRESSES)), at, s + [0], 0);
  }

  lemma {:induction false} NeededGrows(strs: seq<Str>, n: nat)
    requires n <= |strs|
    ensures Offset(strs, n) <= Needed(strs)
  {
    if n < |strs| { OffsetsApart(strs, n, |strs|); }
  }

  function ArgList(argv: Option<seq<Str>>): seq<Str> { if argv.Some? then argv.value else [] }

  lemma LaidNone(b: seq<byte>, base: nat, strs: seq<Str>)
    requires Needed(strs) <= |b| && forall i :: WORD <= i < |b| ==> b[i] == 0
    ensures Laid(b, base, strs, 0) && Offset(strs, 0) <= |b|
  {
    NeededGrows(strs, 0);
  }

  /**
   * preserve_args_and_env; base is malloc's address for the page. None is a NULL result:
   * argc without argv, or too little room.
   */
  method PreserveArgsAndEnv(name: Str, argc: nat, argv: Option<seq<Str>>, envp: Option<seq<Str>>, base: nat)
    returns (args: Option<array<byte>>)
    requires |name| < PROC_NAME_LEN && argc < 0x8000_0000 && (argv.Some? ==> argc == |argv.value|)
    ensures args.Some? <==> !(argc > 0 && argv == None) && Needed(Strings(name, ArgList(argv), envp)) <= PAGE_SIZE
    ensures args.Some? ==>
              && fresh(args.value) && PAGE_SIZE <= args.value.Length
              && Page(args.value[..], base, Strings(name, ArgList(argv), envp), ArgCount(ArgList(argv)))
              && forall i :: PAGE_SIZE <= i < args.value.Length ==> args.value[i] == 0
  {
    hide Laid, Word, WordBytes, Offset;
    if argc > 0 && argv == None {
      return None;
    }
    var vector := ArgList(argv);
    var env := if envp.Some? then envp.value else [];
    ghost var strs := Strings(name, vector, envp);
    var count := if argc == 0 then 1 else argc;
    var room := Needed(Strings(name, vector, envp));
    var buf := Malloc(room);
    ghost var buf0 := buf[..];
    PutWord(buf, 0, count);
    WordReadsBack(buf0, 0, count);
    var at := WORD + (if argc == 0 then WORD else WORD * argc) + WORD * (|env| + 1);
    StartPage(buf[..], base, strs, count);
    assert at == Offset(strs, 0);
    var i := 0;
    if argc == 0 {
      at := StoreString(buf, base, strs, 0, at, name);
    }
    while i < argc
      invariant 0 <= i <= argc && fresh(buf) && buf.Length == PAGE_SIZE + room && Word(buf[..], 0) == count
      invariant var n := if argc == 0 then 1 else i; Laid(buf[..], base, strs, n) && at == Offset(strs, n)
      invariant 0 < i ==> at <= PAGE_SIZE
    {
      at := StoreString(buf, base, strs, i, at, vector[i]);
      if at > PAGE_SIZE { return None; }
      i := i + 1;
    }
    count := GetWord(buf, 0);
    i := 0;
    while i < |env|
      invariant 0 <= i <= |env| && fresh(buf) && buf.Length == PAGE_SIZE + room && Word(buf[..], 0) == count
      invariant Laid(buf[..], base, strs, count + i) && at == Offset(strs, count + i)
      invariant 0 < argc || 0 < i ==> at <= PAGE_SIZE
    {
      at := StoreString(buf, base, strs, count + i, at, env[i]);
      if at > PAGE_SIZE { return None; }
      i := i + 1;
    }
    FinishPage(buf[..], base, strs, count, name, env == [] && argc == 0);
    return Some(buf);
  }

  lemma StartPage(b: seq<byte>, base: nat, strs: seq<Str>, count: nat)
    requires Needed(strs) <= |b| && (forall i :: WORD <= i < |b| ==> b[i] == 0)
    ensures Laid(b, base, strs, 0) && Offset(strs, 0) == WORD + WORD * |strs| + WORD
  {
    LaidNone(b, base, strs);
  }

  lemma FinishPage(b: seq<byte>, base: nat, strs: seq<Str>, count: nat, name: Str, onlyName: bool)
    requires Laid(b, base, strs, |strs|) && count <= |strs| && |name| < PROC_NAME_LEN && PAGE_SIZE <= |b|
    requires if onlyName then strs == [name] else Needed(strs) <= PAGE_SIZE
    requires Word(b, 0) == count
    ensures Needed(strs) <= PAGE_SIZE && Page(b, base, strs, count)
    ensures forall i :: PAGE_SIZE <= i < |b| ==> b[i] == 0
  {
    if onlyName { assert Offset(strs, 1) == Offset(strs, 0) + |name| + 1; }
    NeededGrows(strs, 0);
  }

  // post_setup_image

  /** Slots below n point into the page at argsBase, the others still into the one at base. */
  ghost predicate Moved(b: seq<byte>, base: nat, argsBase: nat, strs: seq<Str>, n: nat) {
    && n <= |strs| && Needed(strs) <= |b|
    && (forall k :: 0 <= k < n ==> Placed(b, argsBase, strs, k))
    && (forall k :: n <= k < |strs| ==> Placed(b, base, strs, k))
    && (forall i :: Slot(|strs|) <= i < Offset(strs, 0) ==> b[i] == 0)
    && (forall i :: Needed(strs) <= i < |b| ==> b[i] == 0)
  }

  /** A pointer that has not been moved yet, and what moving it gives. */
  lemma MovePointer(b: seq<byte>, base: nat, argsBase: nat, strs: seq<Str>, n: nat)
    requires Moved(b, base, argsBase, strs, n) && n < |strs|
    requires 0 < base && base + PAGE_SIZE <= ADDRESSES && argsBase + PAGE_SIZE <= ADDRESSES && Needed(strs) <= PAGE_SIZE
    ensures Slot(n) + WORD <= |b| && var w := Word(b, Slot(n)); w != 0 && (w - base + argsBase) % ADDRESSES == argsBase + Offset(strs, n)
  {
    hide Moved, Word;
    PointerNow(b, base, argsBase, strs, n);
    OffsetsApart(strs, n, |strs|);
    PointerArithmetic(base, argsBase, Offset(strs, n));
  }

  lemma PointerNow(b: seq<byte>, base: nat, argsBase: nat, strs: seq<Str>, n: nat)
    requires Moved(b, base, argsBase, strs, n) && n < |strs|
    ensures Slot(n) + WORD <= |b|
    ensures Word(b, Slot(n)) == (base + Offset(strs, n)) % ADDRESSES
  {
    hide Word, Offset;
    assert Placed(b, base, strs, n);
  }

  lemma PointerArithmetic(base: nat, argsBase: nat, o: nat)
    requires 0 < base && base + PAGE_SIZE <= ADDRESSES && argsBase + PAGE_SIZE <= ADDRESSES && o < PAGE_SIZE
    ensures (base + o) % ADDRESSES == base + o && (base + o - base + argsBase) % ADDRESSES == argsBase + o
  {
  }

  lemma MoveOne(b: seq<byte>, base: nat, argsBase: nat, strs: seq<Str>, n: nat)
    requires Moved(b, base, argsBase, strs, n) && n < |strs| && argsBase + PAGE_SIZE <= ADDRESSES && Needed(strs) <= PAGE_SIZE
    ensures Slot(n) + WORD <= |b| && argsBase + Offset(strs, n) < ADDRESSES
    ensures Moved(Written(b, Slot(n), WordBytes(argsBase + Offset(strs, n))), base, argsBase, strs, n + 1)
  {
    hide Offset, Placed, Word, WordBytes, Written;
    OffsetsApart(strs, n, |strs|);
    NeededGrows(strs, 0);
    var c := Written(b, Slot(n), WordBytes(argsBase + Offset(strs, n)));
    forall k | 0 <= k < n + 1 ensures Placed(c, argsBase, strs, k) {
      MovePlaced(b, if k < n then argsBase else base, argsBase, strs, n, k, argsBase);
    }
    forall k | n + 1 <= k < |strs| ensures Placed(c, base, strs, k) {
      MovePlaced(b, base, base, strs, n, k, argsBase);
    }
  }

  /** Moving the pointer of string n leaves string k placed, and places string n anew. */
  lemma MovePlaced(b: seq<byte>, base: nat, after: nat, strs: seq<Str>, n: nat, k: nat, argsBase: nat)
    requires n < |strs| && k < |strs| && Needed(strs) <= |b| && Placed(b, base, strs, k)
    requires argsBase + Offset(strs, n) < ADDRESSES && Slot(n) + WORD <= |b| && Slot(n) + WORD <= Offset(strs, k)
    requires if k == n then after == argsBase else after == base
    ensures Placed(Written(b, Slot(n), WordBytes(argsBase + Offset(strs, n))), after, strs, k)
  {
    hide Offset, Word, WordBytes, Written;
    var w := WordBytes(argsBase + Offset(strs, n));
    SliceElsewhere(b, Slot(n), w, Offset(strs, k), Offset(strs, k) + |strs[k]|);
    if k == n {
      WordReadsBack(b, Slot(n), argsBase + Offset(strs, n));
    } else {
      WordElsewhere(b, Slot(n), w, Slot(k));
    }
  }

  lemma NullSlot(b: seq<byte>, strs: seq<Str>)
    requires Needed(strs) <= |b| && forall i :: Slot(|strs|) <= i < Offset(strs, 0) ==> b[i] == 0
    ensures Slot(|strs|) + WORD <= |b| && Word(b, Slot(|strs|)) == 0
  {
    NeededGrows(strs, 0);
  }

  /** The first PAGE_SIZE bytes of a page are the whole of it. */
  lemma Copied(b: seq<byte>, c: seq<byte>, base: nat, argsBase: nat, strs: seq<Str>, argc: nat)
    requires Page(b, base, strs, argc) && Needed(strs) <= PAGE_SIZE <= |b| && c == b[..PAGE_SIZE]
    ensures Moved(c, base, argsBase, strs, 0) && Word(c, 0) == argc
  {
    forall k | 0 <= k < |strs| ensures Placed(c, base, strs, k) {
      assert Placed(b, base, strs, k);
      OffsetsApart(strs, k, |strs|);
      assert c[Offset(strs, k)..Offset(strs, k) + |strs[k]|] == b[Offset(strs, k)..Offset(strs, k) + |strs[k]|];
    }
  }

  lemma AllMoved(b: seq<byte>, base: nat, argsBase: nat, strs: seq<Str>, argc: nat)
    requires Moved(b, base, argsBase, strs, |strs|) && argc <= |strs| && WORD <= |b| && Word(b, 0) == argc
    ensures Page(b, argsBase, strs, argc)
  {
    NeededGrows(strs, 0);
  }

  /** The loop body of post_setup_image: one pointer is moved. */
  method Relocate(page: array<byte>, base: nat, argsBase: nat, ghost strs: seq<Str>, n: nat)
    requires n < |strs| && Moved(page[..], base, argsBase, strs, n)
    requires 0 < base && base + PAGE_SIZE <= ADDRESSES && argsBase + PAGE_SIZE <= ADDRESSES && Needed(strs) <= PAGE_SIZE
    modifies page
    ensures Moved(page[..], base, argsBase, strs, n + 1)
    ensures WORD <= page.Length && Word(page[..], 0) == old(Word(page[..], 0))
  {
    hide Moved, Word, WordBytes;
    ghost var b := page[..];
    MovePointer(b, base, argsBase, strs, n);
    MoveOne(b, base, argsBase, strs, n);
    var w := GetWord(page, Slot(n));
    PutWord(page, Slot(n), (w - base + argsBase) % ADDRESSES);
    WordElsewhere(b, Slot(n), WordBytes(argsBase + Offset(strs, n)), 0);
  }

  /** post_setup_image: the page is copied to argsBase and its pointers follow it. */
  method PostSetupImage(args: array<byte>, base: nat, argsBase: nat, ghost strs: seq<Str>, ghost count: nat) returns (page: array<byte>)
    requires PAGE_SIZE <= args.Length && Page(args[..], base, strs, count) && Needed(strs) <= PAGE_SIZE
    requires 0 < base && base + PAGE_SIZE <= ADDRESSES && argsBase + PAGE_SIZE <= ADDRESSES
    ensures fresh(page) && page.Length == PAGE_SIZE && Page(page[..], argsBase, strs, count)
  {
    hide Moved, Placed, Word, Laid, Offset;
    page := new byte[PAGE_SIZE](i requires 0 <= i < PAGE_SIZE reads args requires PAGE_SIZE <= args.Length => args[i]);
    assert page[..] == args[..][..PAGE_SIZE];
    Copied(args[..], page[..], base, argsBase, strs, count);
    var argc := GetWord(page, 0);
    var i := 0;
    while i < argc
      invariant 0 <= i <= argc && Moved(page[..], base, argsBase, strs, i) && Word(page[..], 0) == argc && fresh(page)
    {
      Relocate(page, base, argsBase, strs, i);
      i := i + 1;
    }
    i := 0;
    MovedNull(page[..], base, argsBase, strs, argc + i);
    var p := GetWord(page, Slot(argc + i));
    while p != 0
      invariant 0 <= i && argc + i <= |strs| && Moved(page[..], base, argsBase, strs, argc + i) && Word(page[..], 0) == argc && fresh(page)
      invariant Slot(argc + i) + WORD <= page.Length && p == Word(page[..], Slot(argc + i))
      decreases |strs| - i
    {
      MovedNull(page[..], base, argsBase, strs, argc + i);
      Relocate(page, base, argsBase, strs, argc + i);
      i := i + 1;
      MovedNull(page[..], base, argsBase, strs, argc + i);
      p := GetWord(page, Slot(argc + i));
    }
    MovedNull(page[..], base, argsBase, strs, argc + i);
    AllMoved(page[..], base, argsBase, strs, argc);
  }

  /** A slot holds NULL exactly when the strings are exhausted. */
  lemma MovedNull(b: seq<byte>, base: nat, argsBase: nat, strs: seq<Str>, n: nat)
    requires Moved(b, base, argsBase, strs, n) && Needed(strs) <= PAGE_SIZE && n <= |strs|
    requires 0 < base && base + PAGE_SIZE <= ADDRESSES && argsBase + PAGE_SIZE <= ADDRESSES
    ensures Slot(n) + WORD <= |b| && (Word(b, Slot(n)) == 0 <==> n == |strs|)
  {
    hide Moved, Word;
    if n == |strs| {
      MovedNullSlot(b, base, argsBase, strs, n);
    } else {
      MovePointer(b, base, argsBase, strs, n);
    }
  }

  lemma MovedNullSlot(b: seq<byte>, base: nat, argsBase: nat, strs: seq<Str>, n: nat)
    requires Moved(b, base, argsBase, strs, n)
    ensures Slot(|strs|) + WORD <= |b| && Word(b, Slot(|strs|)) == 0
  {
    NullSlot(b, strs);
  }

  // What the new program reads.

  /** The string that starts at offset off. */
  function ReadStr(b: seq<byte>, off: nat): Option<Str>
    decreases |b| - off
  {
    if off >= |b| then None
    else if b[off] == 0 then Some([])
    else
      match ReadStr(b, off + 1)
      case None => None
      case Some(s) => Some([b[off]] + s)
  }

  /** The n strings whose pointers start at slot k, in a page at address base. */
  function ReadVector(b: seq<byte>, base: nat, k: nat, n: nat): Option<seq<Str>>
    decreases n
  {
    if n == 0 then Some([])
    else if Slot(k) + WORD > |b| || Word(b, Slot(k)) < base then None
    else
      match (ReadStr(b, Word(b, Slot(k)) - base), ReadVector(b, base, k + 1, n - 1))
      case (Some(s), Some(rest)) => Some([s] + rest)
      case (_, _) => None
  }

  /** The number of pointers from slot k up to NULL. */
  function CountToNull(b: seq<byte>, k: nat): Option<nat>
    decreases |b| - Slot(k)
  {
    if Slot(k) + WORD > |b| then None
    else if Word(b, Slot(k)) == 0 then Some(0)
    else
      match CountToNull(b, k + 1)
      case None => None
      case Some(n) => Some(n + 1)
  }

  /** argv and envp, as a program finds them in the page at address base. */
  function Decode(b: seq<byte>, base: nat): Option<(seq<Str>, seq<Str>)>
    requires WORD <= |b|
  {
    var argc := Word(b, 0);
    match (ReadVector(b, base, 0, argc), CountToNull(b, argc))
    case (Some(argv), Some(n)) =>
      (match ReadVector(b, base, argc, n)
       case Some(envp) => Some((argv, envp))
       case None => None)
    case (_, _) => None
  }

  lemma {:induction false} ReadsStr(b: seq<byte>, off: nat, s: Str)
    requires off + |s| < |b| && b[off..off + |s|] == s && b[off + |s|] == 0
    ensures ReadStr(b, off) == Some(s)
    decreases |s|
  {
    if s != [] {
      assert b[off] == s[0] && s[0] in s;
      assert b[off + 1..off + |s|] == s[1..];
      ReadsStr(b, off + 1, s[1..]);
      assert [s[0]] + s[1..] == s;
    }
  }

  /** Slot k leads to string k. */
  lemma PointsTo(b: seq<byte>, base: nat, strs: seq<Str>, k: nat)
    requires Laid(b, base, strs, |strs|) && base + |b| <= ADDRESSES && k < |strs|
    ensures Slot(k) + WORD <= |b| && base < Word(b, Slot(k)) && ReadStr(b, Word(b, Slot(k)) - base) == Some(strs[k])
  {
    assert Placed(b, base, strs, k);
    OffsetsApart(strs, k, |strs|);
    ReadsStr(b, Offset(strs, k), strs[k]);
  }

  lemma {:induction false} ReadsVector(b: seq<byte>, base: nat, strs: seq<Str>, k: nat, n: nat)
    requires Laid(b, base, strs, |strs|) && base + |b| <= ADDRESSES && k + n <= |strs|
    ensures ReadVector(b, base, k, n) == Some(strs[k..k + n])
    decreases n
  {
    hide Laid, Word, ReadStr, Offset;
    if n > 0 {
      PointsTo(b, base, strs, k);
      ReadsVector(b, base, strs, k + 1, n - 1);
      assert [strs[k]] + strs[k + 1..k + n] == strs[k..k + n];
      assert strs[k + 1..(k + 1) + (n - 1)] == strs[k + 1..k + n];
    } else {
      assert strs[k..k + n] == [];
    }
  }

  lemma {:induction false} CountsToNull(b: seq<byte>, base: nat, strs: seq<Str>, k: nat)
    requires Laid(b, base, strs, |strs|) && 0 < base && base + |b| <= ADDRESSES && k <= |strs|
    ensures CountToNull(b, k) == Some(|strs| - k)
    decreases |strs| - k
  {
    if k == |strs| {
      NullSlot(b, strs);
    } else {
      PointsTo(b, base, strs, k);
      CountsToNull(b, base, strs, k + 1);
    }
  }

  /**
   * Round trip: from the page that preserve_args_and_env and post_setup_image leave at
   * argsBase, a program reads back the caller's argv, or the process name if there was none,
   * and envp.
   */
  lemma RoundTrip(b: seq<byte>, argsBase: nat, name: Str, argv: seq<Str>, envp: Option<seq<Str>>)
    requires |b| == PAGE_SIZE && 0 < argsBase && argsBase + PAGE_SIZE <= ADDRESSES
    requires Page(b, argsBase, Strings(name, argv, envp), ArgCount(argv))
    ensures Decode(b, argsBase) == Some((if argv == [] then [name] else argv, if envp.Some? then envp.value else []))
  {
    hide Page, Decode;
    var strs, n := Strings(name, argv, envp), ArgCount(argv);
    Decodes(b, argsBase, strs, n);
    assert strs[..n] == if argv == [] then [name] else argv;
    assert strs[n..] == if envp.Some? then envp.value else [];
  }

  lemma Decodes(b: seq<byte>, base: nat, strs: seq<Str>, n: nat)
    requires Page(b, base, strs, n) && 0 < base && base + |b| <= ADDRESSES && n <= |strs|
    ensures WORD <= |b| && Decode(b, base) == Some((strs[..n], strs[n..]))
  {
    hide Laid, Word, ReadVector, CountToNull;
    ReadsVector(b, base, strs, 0, n);
    CountsToNull(b, base, strs, n);
    ReadsVector(b, base, strs, n, |strs| - n);
    assert strs[0..0 + n] == strs[..n];
    assert strs[n..n + (|strs| - n)] == strs[n..];
  }

  /**
   * The argument handling of exec as a whole: it succeeds exactly when the page has room,
   * and then the new program reads back what the caller passed.
   */
  method PassArguments(name: Str, argc: nat, argv: Option<seq<Str>>, envp: Option<seq<Str>>, base: nat, argsBase: nat)
    returns (page: Option<array<byte>>)
    requires |name| < PROC_NAME_LEN && argc < 0x8000_0000 && (argv.Some? ==> argc == |argv.value|)
    requires 0 < base && base + PAGE_SIZE <= ADDRESSES && 0 < argsBase && argsBase + PAGE_SIZE <= ADDRESSES
    ensures page.Some? <==> !(argc > 0 && argv == None) && Needed(Strings(name, ArgList(argv), envp)) <= PAGE_SIZE
    ensures page.Some? ==>
              && page.value.Length == PAGE_SIZE
              && Decode(page.value[..], argsBase) ==
                 Some((if argc == 0 then [name] else argv.value, if envp.Some? then envp.value else []))
  {
    hide Page, Needed, Strings, Decode;
    var args := PreserveArgsAndEnv(name, argc, argv, envp, base);
    if args == None {
      return None;
    }
    var p := PostSetupImage(args.value, base, argsBase, Strings(name, ArgList(argv), envp), ArgCount(ArgList(argv)));
    RoundTrip(p[..], argsBase, name, ArgList(argv), envp);
    return Some(p);
  }

  /** Every pointer of the page points into it, at a string that ends in it. */
  lemma PointersInside(b: seq<byte>, base: nat, strs: seq<Str>, argc: nat, k: nat)
    requires Page(b, base, strs, argc) && k < |strs| && Needed(strs) <= PAGE_SIZE && base + PAGE_SIZE <= ADDRESSES
    ensures base + Slot(|strs|) + WORD <= Word(b, Slot(k)) && Word(b, Slot(k)) + |strs[k]| + 1 <= base + PAGE_SIZE
  {
    assert Placed(b, base, strs, k);
    OffsetsApart(strs, k, |strs|);
  }

  /** The room a page needs, in the terms of the caller: 4 bytes a word, and a byte for each NUL. */
  lemma {:induction false} NeededIs(strs: seq<Str>, k: nat)
    requires k <= |strs|
    ensures Offset(strs, k) == 4 + 4 * (|strs| + 1) + Bytes(strs[..k])
  {
    if k > 0 {
      NeededIs(strs, k - 1);
      assert strs[..k][..k - 1] == strs[..k - 1];
    }
  }

  function Bytes(strs: seq<Str>): nat {
    if strs == [] then 0 else Bytes(strs[..|strs| - 1]) + |strs[|strs| - 1]| + 1
  }

  /** Capacity: exactly when preserve_args_and_env has room. */
  lemma Capacity(name: Str, argv: seq<Str>, envp: Option<seq<Str>>)
    ensures var strs := Strings(name, argv, envp);
            var env := if envp.Some? then |envp.value| else 0;
            Needed(strs) == 4 + 4 * ArgCount(argv) + 4 * (env + 1) + Bytes(strs)
  {
    var strs := Strings(name, argv, envp);
    NeededIs(strs, |strs|);
    assert strs[..|strs|] == strs;
  }

  /** An empty page needs argc and NULL; each string costs a pointer, its bytes and a NUL. */
  lemma NeededGrowsBy(strs: seq<Str>, s: Str)
    ensures Needed([]) == 8 && Needed(strs + [s]) == Needed(strs) + 4 + |s| + 1
  {
    NeededIs(strs, |strs|);
    NeededIs(strs + [s], |strs| + 1);
    assert strs[..|strs|] == strs && (strs + [s])[..|strs| + 1] == strs + [s];
    assert (strs + [s])[..|strs|] == strs;
  }

  /** Words are 32 bits, least significant byte first. */
  lemma WordIs(b: seq<byte>, off: nat)
    requires off + 4 <= |b|
    ensures Word(b, off) == b[off] as int + 0x100 * (b[off + 1] as int + 0x100 * (b[off + 2] as int + 0x100 * b[off + 3] as int))
  {
  }

  /** The string s, ended by NUL, stands at address p of the page at base. */
  predicate Spells(b: seq<byte>, base: nat, p: nat, s: Str) {
    base <= p && p - base + |s| < |b| && b[p - base..p - base + |s|] == s && b[p - base + |s|] == 0
  }

  /**
   * The finished page in plain terms: argc, the argv pointers, the envp pointers, NULL, and then the
   * strings, each right after the one before it, argv first.
   */
  lemma PageSays(b: seq<byte>, base: nat, name: Str, argv: seq<Str>, envp: Option<seq<Str>>)
    requires |b| == PAGE_SIZE && base + PAGE_SIZE <= ADDRESSES && Page(b, base, Strings(name, argv, envp), ArgCount(argv))
    ensures var av, env := if argv == [] then [name] else argv, if envp.Some? then envp.value else [];
            var n := |av| + |env|;
            && 8 + 4 * n <= |b| && Word(b, 0) == |av| && Word(b, 4 + 4 * n) == 0
            && (forall k :: 0 <= k < |av| ==> Spells(b, base, Word(b, 4 + 4 * k), av[k]))
            && (forall k :: 0 <= k < |env| ==> Spells(b, base, Word(b, 4 + 4 * (|av| + k)), env[k]))
            && Word(b, 4) == base + 8 + 4 * n
            && (forall k :: 0 < k < n ==>
                  Word(b, 4 + 4 * k) == Word(b, 4 * k) + |if k <= |av| then av[k - 1] else env[k - 1 - |av|]| + 1)
  {
    hide Word, Offset;
    var strs := Strings(name, argv, envp);
    var av, env := if argv == [] then [name] else argv, if envp.Some? then envp.value else [];
    assert strs == av + env;
    forall k | 0 <= k < |strs|
      ensures 8 + 4 * k <= |b| && Spells(b, base, Word(b, 4 + 4 * k), strs[k]) && Word(b, 4 + 4 * k) == base + Offset(strs, k)
    {
      StringSays(b, base, strs, k);
    }
    PageEnds(b, base, strs, |av|);
    forall k | 0 < k < |strs| ensures Word(b, 4 + 4 * k) == Word(b, 4 * k) + |strs[k - 1]| + 1 {
      OffsetNext(strs, k);
      assert Word(b, 4 + 4 * (k - 1)) == base + Offset(strs, k - 1);
    }
  }

  lemma OffsetNext(strs: seq<Str>, k: nat)
    requires 0 < k <= |strs|
    ensures Offset(strs, k) == Offset(strs, k - 1) + |strs[k - 1]| + 1
  {
  }

  lemma StringSays(b: seq<byte>, base: nat, strs: seq<Str>, k: nat)
    requires Laid(b, base, strs, |strs|) && base + |b| <= ADDRESSES && k < |strs|
    ensures 8 + 4 * k <= |b| && Spells(b, base, Word(b, 4 + 4 * k), strs[k]) && Word(b, 4 + 4 * k) == base + Offset(strs, k)
  {
    hide Word, Offset;
    assert Placed(b, base, strs, k);
    assert base + Offset(strs, k) < ADDRESSES;
    assert Slot(k) == 4 + 4 * k;
  }

  lemma PageEnds(b: seq<byte>, base: nat, strs: seq<Str>, argc: nat)
    requires Page(b, base, strs, argc)
    ensures 8 + 4 * |strs| <= |b| && Word(b, 4 + 4 * |strs|) == 0 && Word(b, 0) == argc && Offset(strs, 0) == 8 + 4 * |strs|
  {
    NullSlot(b, strs);
  }
}
