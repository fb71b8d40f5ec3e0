/** Letters counted by several threads over one text (threads.c). */
module LetterCount {
  import opened Runs
  import opened Wrappers

  const LETTERS_NB := 26

  /** tolower in the C locale; plain char is unsigned on ARM. */
  function ToLower(c: byte): byte {
    if 65 <= c <= 90 then c + 32 else c
  }

  /** Which counter a character belongs to: line 39 wraps below 'a', so that the test of line 41 is two-sided. */
  function Letter(c: byte): (l: Option<nat>)
    ensures l.Some? ==> l.value < LETTERS_NB && (c == 65 + l.value || c == 97 + l.value)
    ensures l.None? ==> !(65 <= c < 91) && !(97 <= c < 123)
  {
    var index := (ToLower(c) - 97) % 0x1_0000_0000;
    if index < LETTERS_NB then Some(index) else None
  }

  /** How often letter l occurs, in either case. */
  function Count(text: seq<byte>, l: nat): nat {
    if text == [] then 0 else Count(text[..|text| - 1], l) + if Letter(text[|text| - 1]) == Some(l) then 1 else 0
  }

  /** The positions of a letter, upper or lower case, in ASCII. */
  ghost function Positions(text: seq<byte>, l: nat): set<nat> {
    set i | 0 <= i < |text| && (text[i] == 65 + l || text[i] == 97 + l)
  }

  lemma {:induction false} CountIs(text: seq<byte>, l: nat)
    requires l < LETTERS_NB
    ensures Count(text, l) == |Positions(text, l)|
  {
    if text == [] {
      assert Positions(text, l) == {};
    } else {
      var n := |text| - 1;
      CountIs(text[..n], l);
      assert Positions(text, l) == Positions(text[..n], l) + if Letter(text[n]) == Some(l) then {n} else {};
    }
  }

  lemma {:induction false} CountSplit(a: seq<byte>, b: seq<byte>, l: nat)
    ensures Count(a + b, l) == Count(a, l) + Count(b, l)
  {
    if b == [] {
      assert a + b == a;
    } else {
      assert (a + b)[..|a + b| - 1] == a + b[..|b| - 1];
      CountSplit(a, b[..|b| - 1], l);
    }
  }

  lemma CountNext(text: seq<byte>, from: nat, to: nat, l: nat)
    requires from <= to < |text|
    ensures Count(text[from..to + 1], l) == Count(text[from..to], l) + if Letter(text[to]) == Some(l) then 1 else 0
  {
    assert text[from..to + 1][..to - from] == text[from..to];
  }

  /** count_letters, on the chunk of size characters from the given offset. */
  method CountLetters(text: seq<byte>, offset: nat, size: nat, counters: array<nat>)
    requires offset + size <= |text| && counters.Length == LETTERS_NB
    modifies counters
    ensures forall l :: 0 <= l < LETTERS_NB ==> counters[l] == old(counters[l]) + Count(text[offset..offset + size], l)
  {
    var i := 0;
    ghost var none := text[offset..offset + i];
    assert forall l: nat :: Count(none, l) == 0;
    while i < size
      invariant 0 <= i <= size
      invariant forall l :: 0 <= l < LETTERS_NB ==> counters[l] == old(counters[l]) + Count(text[offset..offset + i], l)
    {
      forall l: nat | l < LETTERS_NB
        ensures Count(text[offset..offset + (i + 1)], l) ==
                Count(text[offset..offset + i], l) + if Letter(text[offset + i]) == Some(l) then 1 else 0
      {
        CountNext(text, offset, offset + i, l);
      }
      var letter := Letter(text[offset + i]);
      if letter.Some? {
        counters[letter.value] := counters[letter.value] + 1;
      }
      i := i + 1;
    }
  }

  // The split.

  function Offset(n: nat, t: nat, k: nat): (o: nat)
    requires 0 < t
    ensures k == 0 ==> o == 0
  {
    k * (n / t)
  }

  function Size(n: nat, t: nat, k: nat): nat
    requires 0 < t
  {
    n / t + if k == t - 1 then n % t else 0
  }

  lemma OffsetNext(n: nat, t: nat, k: nat)
    requires k < t
    ensures Offset(n, t, k) + n / t == Offset(n, t, k + 1)
    ensures Offset(n, t, k) + Size(n, t, k) == if k == t - 1 then n else Offset(n, t, k + 1)
  {
    assert k == t - 1 ==> t * (n / t) + n % t == n;
  }

  lemma {:induction false} OffsetsGrow(n: nat, t: nat, j: nat, k: nat)
    requires j <= k <= t && 0 < t
    ensures Offset(n, t, j) <= Offset(n, t, k) <= n
    decreases k - j
  {
    if j < k {
      OffsetsGrow(n, t, j + 1, k);
      OffsetNext(n, t, j);
    } else {
      assert k * (n / t) <= t * (n / t) by {
        assert (t - k) * (n / t) >= 0;
      }
    }
  }

  /** Every position of the text lies in the chunk of exactly one thread. */
  lemma ChunksPartition(n: nat, t: nat, i: nat)
    requires 0 < t && i < n
    ensures exists k: nat :: k < t && InChunk(n, t, k, i) && forall j: nat :: j < t && InChunk(n, t, j, i) ==> j == k
  {
    var k := ChunkOf(n, t, i, t);
    forall j: nat | j < t && InChunk(n, t, j, i) ensures j == k {
      OffsetNext(n, t, j);
      OffsetNext(n, t, k);
      if j < k {
        OffsetsGrow(n, t, j + 1, k);
      } else if k < j {
        OffsetsGrow(n, t, k + 1, j);
      }
    }
  }

  predicate InChunk(n: nat, t: nat, k: nat, i: nat)
    requires 0 < t
  {
    Offset(n, t, k) <= i < Offset(n, t, k) + Size(n, t, k)
  }

  /** Equal chunks in the order of the threads, and what is left over to the last. */
  lemma ChunkIs(n: nat, t: nat, k: nat, i: nat)
    requires k < t
    ensures InChunk(n, t, k, i) <==> k * (n / t) <= i < if k == t - 1 then n else (k + 1) * (n / t)
  {
    OffsetNext(n, t, k);
  }

  function ChunkOf(n: nat, t: nat, i: nat, m: nat): (k: nat)
    requires 0 < m <= t && i < n && (m < t ==> i < Offset(n, t, m))
    ensures k < m && InChunk(n, t, k, i)
  {
    OffsetNext(n, t, m - 1);
    if i < Offset(n, t, m - 1) then ChunkOf(n, t, i, m - 1) else m - 1
  }

  // The threads. A counter is read and written back in two steps.

  datatype Thread = Thread(offset: nat, size: nat, i: nat, counters: seq<nat>, loaded: Option<nat>)

  datatype MainAt = Creating | Joining(k: nat) | Done(result: seq<nat>)

  datatype Sys = Sys(main: MainAt, threads: seq<Thread>)

  datatype Op = MainActs | ThreadActs(k: nat)

  function NewThread(n: nat, t: nat, k: nat): Thread
    requires 0 < t
  {
    Thread(Offset(n, t, k), Size(n, t, k), 0, seq(LETTERS_NB, _ => 0), None)
  }

  predicate Sized(threads: seq<Thread>) {
    forall k :: 0 <= k < |threads| ==> |threads[k].counters| == LETTERS_NB
  }

  /** Threads 0 to m - 1 added up, letter by letter. */
  function Total(threads: seq<Thread>, m: nat, l: nat): nat
    requires m <= |threads| && Sized(threads) && l < LETTERS_NB
  {
    if m == 0 then 0 else Total(threads, m - 1, l) + threads[m - 1].counters[l]
  }

  function Merged(threads: seq<Thread>): seq<nat>
    requires Sized(threads)
  {
    seq(LETTERS_NB, l requires 0 <= l < LETTERS_NB => Total(threads, |threads|, l))
  }

  /** The merging loops of main. */
  method Merge(threads: seq<Thread>) returns (result: array<nat>)
    requires Sized(threads)
    ensures result[..] == Merged(threads)
  {
    result := new nat[LETTERS_NB](_ => 0);
    var i := 0;
    while i < LETTERS_NB
      invariant 0 <= i <= LETTERS_NB
      invariant forall l :: 0 <= l < LETTERS_NB ==> result[l] == if l < i then Total(threads, |threads|, l) else 0
    {
      var j := 0;
      while j < |threads|
        invariant 0 <= j <= |threads|
        invariant forall l :: 0 <= l < LETTERS_NB ==>
                    result[l] == if l < i then Total(threads, |threads|, l) else if l == i then Total(threads, j, l) else 0
      {
        result[i] := result[i] + threads[j].counters[i];
        j := j + 1;
      }
      i := i + 1;
    }
  }

  /** One step of a thread that is not through with its chunk: past a character, or half past a letter. */
  function Advance(text: seq<byte>, t: Thread): Thread
    requires t.offset + t.i < |text| && |t.counters| == LETTERS_NB
  {
    match Letter(text[t.offset + t.i])
    case None => t.(i := t.i + 1)
    case Some(l) =>
      if t.loaded.None? then t.(loaded := Some(t.counters[l]))
      else t.(counters := t.counters[l := t.loaded.value + 1], i := t.i + 1, loaded := None)
  }

  predicate MainStep(text: seq<byte>, t: nat, a: Sys, b: Sys)
    requires 0 < t
  {
    match a.main
    case Creating =>
      if |a.threads| < t then b == a.(threads := a.threads + [NewThread(|text|, t, |a.threads|)])
      else b == a.(main := Joining(0))
    case Joining(k) =>
      if k < |a.threads| then a.threads[k].i == a.threads[k].size && b == a.(main := Joining(k + 1))
      else Sized(a.threads) && b == a.(main := Done(Merged(a.threads)))
    case Done(_) => false
  }

  predicate ThreadStep(text: seq<byte>, k: nat, a: Sys, b: Sys) {
    && k < |a.threads| && a.threads[k].i < a.threads[k].size
    && a.threads[k].offset + a.threads[k].i < |text| && |a.threads[k].counters| == LETTERS_NB
    && b == a.(threads := a.threads[k := Advance(text, a.threads[k])])
  }

  predicate Step(text: seq<byte>, t: nat, a: Sys, op: Op, b: Sys)
    requires 0 < t
  {
    match op
    case MainActs => MainStep(text, t, a, b)
    case ThreadActs(k) => ThreadStep(text, k, a, b)
  }

  // The invariant.

  predicate ThreadOk(text: seq<byte>, t: nat, k: nat, th: Thread)
    requires k < t
  {
    && th.offset == Offset(|text|, t, k) && th.size == Size(|text|, t, k) && th.i <= th.size
    && th.offset + th.size <= |text| && |th.counters| == LETTERS_NB
    && (forall l :: 0 <= l < LETTERS_NB ==> th.counters[l] == Count(text[th.offset..th.offset + th.i], l))
    && (th.loaded.Some? ==>
          && th.i < th.size && Letter(text[th.offset + th.i]).Some?
          && th.loaded.value == th.counters[Letter(text[th.offset + th.i]).value])
  }

  predicate Inv(text: seq<byte>, t: nat, s: Sys) {
    && |s.threads| <= t
    && (forall k :: 0 <= k < |s.threads| ==> ThreadOk(text, t, k, s.threads[k]))
    && match s.main
       case Creating => true
       case Joining(j) => |s.threads| == t && j <= t && AllDone(s.threads, j)
       case Done(result) =>
         && |s.threads| == t && AllDone(s.threads, t) && |result| == LETTERS_NB
         && forall l :: 0 <= l < LETTERS_NB ==> result[l] == Count(text, l)
  }

  predicate AllDone(threads: seq<Thread>, m: nat)
    requires m <= |threads|
  {
    forall k :: 0 <= k < m ==> threads[k].i == threads[k].size
  }

  lemma NewThreadOk(text: seq<byte>, t: nat, k: nat)
    requires k < t
    ensures ThreadOk(text, t, k, NewThread(|text|, t, k))
  {
    OffsetNext(|text|, t, k);
    OffsetsGrow(|text|, t, k + 1, t);
    var o := Offset(|text|, t, k);
    assert text[o..o] == [];
  }

  lemma AdvanceOk(text: seq<byte>, t: nat, k: nat, th: Thread)
    requires k < t && ThreadOk(text, t, k, th) && th.i < th.size
    ensures ThreadOk(text, t, k, Advance(text, th))
  {
    var o := th.offset;
    forall l: nat | l < LETTERS_NB
      ensures Count(text[o..o + (th.i + 1)], l) == Count(text[o..o + th.i], l) + if Letter(text[o + th.i]) == Some(l) then 1 else 0
    {
      CountNext(text, o, o + th.i, l);
    }
  }

  lemma {:induction false} TotalBelow(text: seq<byte>, t: nat, threads: seq<Thread>, m: nat, l: nat)
    requires |threads| == t && m < t && l < LETTERS_NB && AllDone(threads, t) && Sized(threads)
    requires forall k :: 0 <= k < t ==> ThreadOk(text, t, k, threads[k])
    ensures Offset(|text|, t, m) <= |text| && Total(threads, m, l) == Count(text[..Offset(|text|, t, m)], l)
  {
    hide Offset, Size, Letter, ThreadOk;
    OffsetsGrow(|text|, t, m, t);
    if m > 0 {
      TotalBelow(text, t, threads, m - 1, l);
      OffsetNext(|text|, t, m - 1);
      var p, q := Offset(|text|, t, m - 1), Offset(|text|, t, m);
      assert text[..q] == text[..p] + text[p..q];
      CountSplit(text[..p], text[p..q], l);
      ChunkCounted(text, t, m - 1, threads[m - 1], l);
    } else {
      assert text[..0] == [];
      assert Count([], l) == 0;
    }
  }

  /** The chunks' counts add up to the whole text's. */
  lemma TotalIsCount(text: seq<byte>, t: nat, threads: seq<Thread>, l: nat)
    requires 0 < t && |threads| == t && l < LETTERS_NB && AllDone(threads, t) && Sized(threads)
    requires forall k :: 0 <= k < t ==> ThreadOk(text, t, k, threads[k])
    ensures Total(threads, t, l) == Count(text, l)
  {
    hide Offset, Size, Count, Letter, ThreadOk;
    TotalBelow(text, t, threads, t - 1, l);
    var p := Offset(|text|, t, t - 1);
    assert text == text[..p] + text[p..];
    CountSplit(text[..p], text[p..], l);
    OffsetNext(|text|, t, t - 1);
    assert ThreadOk(text, t, t - 1, threads[t - 1]);
    ChunkCounted(text, t, t - 1, threads[t - 1], l);
    var q := p + Size(|text|, t, t - 1);
    assert q == |text| && text[..q] == text;
  }

  lemma ChunkCounted(text: seq<byte>, t: nat, k: nat, th: Thread, l: nat)
    requires k < t && l < LETTERS_NB && ThreadOk(text, t, k, th) && th.i == th.size
    ensures Offset(|text|, t, k) + Size(|text|, t, k) <= |text|
    ensures th.counters[l] == Count(text[Offset(|text|, t, k)..Offset(|text|, t, k) + Size(|text|, t, k)], l)
  {
    hide Offset, Size, Count, Letter;
  }

  lemma InvStep(text: seq<byte>, t: nat, a: Sys, op: Op, b: Sys)
    requires 0 < t && Inv(text, t, a) && Step(text, t, a, op, b)
    ensures Inv(text, t, b)
  {
    hide Advance, Count, Letter, Offset, Size;
    match op
    case ThreadActs(k) =>
      AdvanceOk(text, t, k, a.threads[k]);
    case MainActs =>
      if a.main.Creating? && |a.threads| < t {
        NewThreadOk(text, t, |a.threads|);
      } else if a.main.Joining? && a.main.k == t {
        forall l: nat | l < LETTERS_NB ensures Merged(a.threads)[l] == Count(text, l) {
          TotalIsCount(text, t, a.threads, l);
        }
      }
  }

  ghost predicate IsCount(text: seq<byte>, t: nat, states: seq<Sys>, ops: seq<Op>)
    requires 0 < t
  {
    IsRun((a, op, b) => Step(text, t, a, op, b), states, ops) && states[0] == Sys(Creating, [])
  }

  lemma InvThroughout(text: seq<byte>, t: nat, states: seq<Sys>, ops: seq<Op>, n: nat)
    requires 0 < t && IsCount(text, t, states, ops) && n < |states|
    ensures Inv(text, t, states[n])
  {
    hide Inv, Step;
    assert Inv(text, t, Sys(Creating, [])) by { StartOk(text, t); }
    forall a, op, b | Inv(text, t, a) && Step(text, t, a, op, b) ensures Inv(text, t, b) {
      InvStep(text, t, a, op, b);
    }
    Throughout((a, op, b) => Step(text, t, a, op, b), s => Inv(text, t, s), states, ops, n);
  }

  lemma StartOk(text: seq<byte>, t: nat)
    ensures Inv(text, t, Sys(Creating, []))
  {
  }

  /** Whatever the interleaving, the result is the sequential count of the whole text. */
  lemma ScheduleIndependent(text: seq<byte>, t: nat, states: seq<Sys>, ops: seq<Op>, n: nat)
    requires 0 < t && IsCount(text, t, states, ops) && n < |states| && states[n].main.Done?
    ensures |states[n].main.result| == LETTERS_NB
    ensures forall l :: 0 <= l < LETTERS_NB ==> states[n].main.result[l] == Count(text, l)
    ensures forall l :: 0 <= l < 26 ==>
              states[n].main.result[l] == |set i | 0 <= i < |text| && (text[i] == 65 + l || text[i] == 97 + l)|
  {
    hide ThreadOk, Count, Step;
    InvThroughout(text, t, states, ops, n);
    forall l: nat | l < LETTERS_NB ensures Count(text, l) == |Positions(text, l)| {
      CountIs(text, l);
    }
  }

  /** Until main is done, it or a thread can go on: a join waits only for a thread that still has work. */
  lemma NoDeadlock(text: seq<byte>, t: nat, states: seq<Sys>, ops: seq<Op>, n: nat)
    requires 0 < t && IsCount(text, t, states, ops) && n < |states| && !states[n].main.Done?
    ensures exists op, b :: Step(text, t, states[n], op, b)
  {
    hide Advance, Count, Merged, IsCount;
    InvThroughout(text, t, states, ops, n);
    var s := states[n];
    match s.main
    case Creating =>
      if |s.threads| < t {
        assert Step(text, t, s, MainActs, s.(threads := s.threads + [NewThread(|text|, t, |s.threads|)]));
      } else {
        assert Step(text, t, s, MainActs, s.(main := Joining(0)));
      }
    case Joining(k) =>
      if k == t {
        assert Step(text, t, s, MainActs, s.(main := Done(Merged(s.threads))));
      } else if s.threads[k].i == s.threads[k].size {
        assert Step(text, t, s, MainActs, s.(main := Joining(k + 1)));
      } else {
        assert Step(text, t, s, ThreadActs(k), s.(threads := s.threads[k := Advance(text, s.threads[k])]));
      }
  }

  // Progress.

  function Progress(th: Thread): nat {
    2 * th.i + if th.loaded.Some? then 1 else 0
  }

  function Worked(threads: seq<Thread>, m: nat): nat
    requires m <= |threads|
  {
    if m == 0 then 0 else Worked(threads, m - 1) + Progress(threads[m - 1])
  }

  function Steps(s: Sys, t: nat): nat {
    Worked(s.threads, |s.threads|) +
    match s.main
    case Creating => |s.threads|
    case Joining(k) => t + 1 + k
    case Done(_) => 2 * t + 2
  }

  lemma {:induction false} WorkedMore(threads: seq<Thread>, k: nat, th: Thread, m: nat)
    requires k < |threads| && m <= |threads| && Progress(threads[k]) < Progress(th)
    ensures Worked(threads[k := th], m) >= Worked(threads, m) + if k < m then 1 else 0
  {
    if m > 0 {
      WorkedMore(threads, k, th, m - 1);
    }
  }

  lemma {:induction false} WorkedPrefix(a: seq<Thread>, b: seq<Thread>, m: nat)
    requires m <= |a|
    ensures Worked(a + b, m) == Worked(a, m)
  {
    if m > 0 {
      WorkedPrefix(a, b, m - 1);
    }
  }

  lemma {:induction false} WorkedBound(text: seq<byte>, t: nat, threads: seq<Thread>, m: nat)
    requires m <= |threads| <= t && 0 < m
    requires forall k :: 0 <= k < |threads| ==> ThreadOk(text, t, k, threads[k])
    ensures Worked(threads, m) <= 2 * (Offset(|text|, t, m - 1) + Size(|text|, t, m - 1)) <= 2 * |text|
  {
    hide Count;
    OffsetNext(|text|, t, m - 1);
    OffsetsGrow(|text|, t, m, t);
    assert ThreadOk(text, t, m - 1, threads[m - 1]);
    assert Progress(threads[m - 1]) <= 2 * Size(|text|, t, m - 1);
    if m == 1 {
      assert Worked(threads, m - 1) == 0;
    } else {
      WorkedBound(text, t, threads, m - 1);
      OffsetNext(|text|, t, m - 2);
    }
  }

  lemma StepsGrow(text: seq<byte>, t: nat, a: Sys, op: Op, b: Sys)
    requires 0 < t && Inv(text, t, a) && Step(text, t, a, op, b)
    ensures Steps(b, t) >= Steps(a, t) + 1
  {
    hide ThreadOk, Merged, Count;
    match op
    case ThreadActs(k) => WorkedMore(a.threads, k, Advance(text, a.threads[k]), |a.threads|);
    case MainActs =>
      if a.main.Creating? && |a.threads| < t {
        WorkedPrefix(a.threads, [NewThread(|text|, t, |a.threads|)], |a.threads|);
      }
  }

  /** No run is longer than two steps a character and two for each thread, and two more. */
  lemma {:induction false} RunLength(text: seq<byte>, t: nat, states: seq<Sys>, ops: seq<Op>, n: nat)
    requires 0 < t && IsCount(text, t, states, ops) && n < |states|
    ensures n <= Steps(states[n], t) <= 2 * |text| + 2 * t + 2
  {
    hide ThreadOk, Step;
    InvThroughout(text, t, states, ops, n);
    if |states[n].threads| > 0 {
      WorkedBound(text, t, states[n].threads, |states[n].threads|);
    }
    if n > 0 {
      RunLength(text, t, states, ops, n - 1);
      InvThroughout(text, t, states, ops, n - 1);
      StepsGrow(text, t, states[n - 1], ops[n - 1], states[n]);
    }
  }
}
