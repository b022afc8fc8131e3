/**
 The kernel heap (src/kernel/memory.c) as pure values: arenas of blocks of one size, spans of pages
 for large requests, a free list for each size, and the blocks handed out.

 An arena is named by its page, counted from K_HEAP_START; a block by its address.
 */
module HeapStates {
  import opened Common
  import opened Seqs

  const PAGE: nat := 0x1000
  const BASE: nat := 0xc0100   // K_HEAP_START, as a page number
  const HEADER: nat := 12      // sizeof(struct arena)
  const CLASSES: nat := 7      // DESC_CNT

  function BlockSize(k: nat): nat {
    match k
    case 0 => 16
    case 1 => 32
    case 2 => 64
    case 3 => 128
    case 4 => 256
    case 5 => 512
    case _ => 1024
  }

  /** (PAGE_SIZE - sizeof(struct arena)) / block_size */
  function BlocksPer(k: nat): nat {
    match k
    case 0 => 255
    case 1 => 127
    case 2 => 63
    case 3 => 31
    case 4 => 15
    case 5 => 7
    case _ => 3
  }

  datatype Arena = Arena(desc: Option<nat>, cnt: nat, large: bool)

  datatype Heap = Heap(
    arenas: map<nat, Arena>,
    lists: seq<seq<nat>>,
    live: map<nat, nat>,      // the requested size of each block handed out
    pages: map<nat, nat>)     // the arena that each page of the heap belongs to

  /** block_in_arena */
  function ArenaOf(x: nat): nat
    requires x / PAGE >= BASE
  {
    x / PAGE - BASE
  }

  /** get_arena_block */
  function BlockAt(a: nat, k: nat, i: nat): nat {
    (BASE + a) * PAGE + HEADER + i * BlockSize(k)
  }

  predicate IsSmall(h: Heap, a: nat, k: nat) {
    a in h.arenas && h.arenas[a].desc == Some(k) && !h.arenas[a].large
  }

  predicate IsLarge(h: Heap, a: nat) {
    a in h.arenas && h.arenas[a].desc == None && h.arenas[a].large
  }

  function SpanOf(r: Arena): nat {
    if r.large then r.cnt else 1
  }

  /** x is where one of the blocks of a page of class k begins. */
  predicate OnGrid(x: nat, k: nat) {
    x % PAGE >= HEADER && (x % PAGE - HEADER) % BlockSize(k) == 0 && (x % PAGE - HEADER) / BlockSize(k) < BlocksPer(k)
  }

  /** Which block of its arena x is. */
  function IndexOf(x: nat, k: nat): int {
    (x % PAGE - HEADER) / BlockSize(k)
  }

  /** x is a block of an arena of class k. */
  predicate IsBlock(h: Heap, k: nat, x: nat) {
    x / PAGE >= BASE && IsSmall(h, ArenaOf(x), k) && OnGrid(x, k)
  }

  lemma GridOfBlock(a: nat, k: nat, i: nat)
    requires k < CLASSES && i < BlocksPer(k)
    ensures
      var x := BlockAt(a, k, i);
      x / PAGE == BASE + a && OnGrid(x, k) && IndexOf(x, k) == i && x % PAGE >= HEADER && x % PAGE + BlockSize(k) <= PAGE
  {
    hide OnGrid, IndexOf, BlockSize, BlocksPer;
    var m := i * BlockSize(k);
    GridWithin(k, i);
    PlusPages(BASE + a, HEADER + m);
    GridOffset(BlockAt(a, k, i), k, m, i);
  }

  lemma GridOffset(x: nat, k: nat, m: nat, i: nat)
    requires x % PAGE == HEADER + m && m % BlockSize(k) == 0 && m / BlockSize(k) == i && i < BlocksPer(k)
    ensures OnGrid(x, k) && IndexOf(x, k) == i
  {
    hide BlockSize, BlocksPer;
  }

  lemma GridWithin(k: nat, i: nat)
    requires k < CLASSES && i < BlocksPer(k)
    ensures
      var m := i * BlockSize(k);
      m % BlockSize(k) == 0 && m / BlockSize(k) == i && HEADER + m + BlockSize(k) <= PAGE
  {
    match k
    case 0 => assert i * 16 % 16 == 0 && i * 16 / 16 == i;
    case 1 => assert i * 32 % 32 == 0 && i * 32 / 32 == i;
    case 2 => assert i * 64 % 64 == 0 && i * 64 / 64 == i;
    case 3 => assert i * 128 % 128 == 0 && i * 128 / 128 == i;
    case 4 => assert i * 256 % 256 == 0 && i * 256 / 256 == i;
    case 5 => assert i * 512 % 512 == 0 && i * 512 / 512 == i;
    case _ => assert i * 1024 % 1024 == 0 && i * 1024 / 1024 == i;
  }

  lemma PlusPages(q: nat, r: nat)
    requires r < PAGE
    ensures (q * PAGE + r) / PAGE == q && (q * PAGE + r) % PAGE == r
  {
  }

  lemma BlockOfGrid(x: nat, k: nat)
    requires k < CLASSES && x / PAGE >= BASE && OnGrid(x, k)
    ensures 0 <= IndexOf(x, k) < BlocksPer(k) && x == BlockAt(ArenaOf(x), k, IndexOf(x, k))
  {
    var m := x % PAGE - HEADER;
    match k
    case 0 => assert m == m / 16 * 16;
    case 1 => assert m == m / 32 * 32;
    case 2 => assert m == m / 64 * 64;
    case 3 => assert m == m / 128 * 128;
    case 4 => assert m == m / 256 * 256;
    case 5 => assert m == m / 512 * 512;
    case _ => assert m == m / 1024 * 1024;
  }

  /** The blocks of arena a that are not handed out. */
  ghost function FreeIdx(live: map<nat, nat>, a: nat, k: nat): set<nat> {
    set i: nat | i < BlocksPer(k) && BlockAt(a, k, i) !in live
  }

  /** cnt counts the free blocks of a small arena, and the pages of a large one. */
  ghost predicate Counted(h: Heap) {
    forall a :: a in h.arenas ==>
      match h.arenas[a].desc
      case Some(k) => k < CLASSES && !h.arenas[a].large && h.arenas[a].cnt == |FreeIdx(h.live, a, k)|
      case None => h.arenas[a].large && h.arenas[a].cnt > 0
  }

  predicate InSpan(p: nat, a: nat, n: nat) {
    a <= p < a + n
  }

  /** Page p belongs to arena a. */
  predicate Covers(h: Heap, a: nat, p: nat) {
    a in h.arenas && InSpan(p, a, SpanOf(h.arenas[a]))
  }

  /** Each page of the heap belongs to one arena. */
  ghost predicate Spread(h: Heap) {
    forall a, p: nat :: Covers(h, a, p) <==> p in h.pages && h.pages[p] == a
  }

  /** The free list of a class holds the blocks of its arenas that are not handed out, once each. */
  ghost predicate Listed(h: Heap) {
    && |h.lists| == CLASSES
    && (forall k :: 0 <= k < CLASSES ==> NoDup(h.lists[k]))
    && (forall k, x: nat :: 0 <= k < CLASSES ==> (x in h.lists[k] <==> IsBlock(h, k, x) && x !in h.live))
  }

  /** A block handed out lies in an arena of the heap, past its header, and is large enough. */
  ghost predicate Housed(h: Heap, x: nat) {
    && x in h.live && h.live[x] > 0 && x / PAGE >= BASE && ArenaOf(x) in h.arenas
    && match h.arenas[ArenaOf(x)].desc
       case Some(k) => OnGrid(x, k) && h.live[x] <= BlockSize(k)
       case None => x % PAGE == HEADER && HEADER + h.live[x] <= h.arenas[ArenaOf(x)].cnt * PAGE
  }

  ghost predicate Lived(h: Heap) {
    && (forall x :: x in h.live ==> Housed(h, x))
    && (forall a :: IsLarge(h, a) ==> (BASE + a) * PAGE + HEADER in h.live)
  }

  ghost predicate Inv(h: Heap) {
    Counted(h) && Spread(h) && Listed(h) && Lived(h)
  }

  /** Between calls no small arena is wholly free. */
  ghost predicate Tight(h: Heap) {
    forall a, k :: IsSmall(h, a, k) ==> h.arenas[a].cnt < BlocksPer(k)
  }

  // ----- what the invariant means -----

  /** Where the memory that belongs to block x ends: the next block of its arena, or the end of the span. */
  function EndOf(h: Heap, x: nat): int
    requires x / PAGE >= BASE && ArenaOf(x) in h.arenas
  {
    match h.arenas[ArenaOf(x)].desc
    case Some(k) => x + BlockSize(k)
    case None => x - HEADER + h.arenas[ArenaOf(x)].cnt * PAGE
  }

  /** A block lies within its arena, past the header, and has room for the request. */
  lemma LiveInArena(h: Heap, x: nat)
    requires Inv(h) && x in h.live
    ensures x / PAGE >= BASE && ArenaOf(x) in h.arenas
    ensures
      var start := (BASE + ArenaOf(x)) * PAGE;
      start + HEADER <= x && x + h.live[x] <= EndOf(h, x) <= start + SpanOf(h.arenas[ArenaOf(x)]) * PAGE
  {
    assert Housed(h, x);
    match h.arenas[ArenaOf(x)].desc
    case Some(k) => BlockOfGrid(x, k); GridOfBlock(ArenaOf(x), k, IndexOf(x, k));
    case None =>
  }

  /** No two blocks handed out overlap. */
  lemma LiveDisjoint(h: Heap, x: nat, y: nat)
    requires Inv(h) && x in h.live && y in h.live && x < y
    ensures x / PAGE >= BASE && ArenaOf(x) in h.arenas && EndOf(h, x) <= y
  {
    LiveInArena(h, x);
    LiveInArena(h, y);
    assert Housed(h, x) && Housed(h, y);
    var a, b := ArenaOf(x), ArenaOf(y);
    if a == b {
      match h.arenas[a].desc
      case Some(k) => GridApart(x, y, k);
      case None =>
    } else {
      SpansApart(h, a, b);
    }
  }

  lemma GridApart(x: nat, y: nat, k: nat)
    requires k < CLASSES && OnGrid(x, k) && OnGrid(y, k) && x / PAGE == y / PAGE >= BASE && x < y
    ensures x + BlockSize(k) <= y
  {
    BlockOfGrid(x, k);
    BlockOfGrid(y, k);
    hide OnGrid, IndexOf, BlocksPer, BlockSize;
    Steps(IndexOf(x, k), IndexOf(y, k), BlockSize(k));
  }

  lemma {:induction false} Steps(i: nat, j: nat, s: nat)
    ensures i < j ==> i * s + s <= j * s
    ensures j <= i ==> j * s <= i * s
    decreases i + j
  {
    if i + 1 < j {
      Steps(i, j - 1, s);
      assert j * s == (j - 1) * s + s;
    } else if i + 1 == j {
      assert j * s == i * s + s;
    } else if j < i {
      Steps(i - 1, j, s);
      assert i * s == (i - 1) * s + s;
    }
  }

  lemma SpansApart(h: Heap, a: nat, b: nat)
    requires Inv(h) && a in h.arenas && b in h.arenas && a < b
    ensures a + SpanOf(h.arenas[a]) <= b
  {
    assert SpanOf(h.arenas[b]) > 0;
    assert Covers(h, b, b) && !Covers(h, a, b);
  }

  // ----- the steps of sys_malloc and sys_free -----

  /** The blocks of a new arena, in the order in which they join the free list. */
  function GridOf(a: nat, k: nat, n: nat): (g: seq<nat>)
    ensures |g| == n
  {
    seq(n, i requires 0 <= i < n => BlockAt(a, k, i))
  }

  /** A page becomes an arena of class k, all free. */
  function Opened(h: Heap, a: nat, k: nat): Heap
    requires k < |h.lists|
  {
    Heap(h.arenas[a := Arena(Some(k), BlocksPer(k), false)], h.lists[k := h.lists[k] + GridOf(a, k, BlocksPer(k))], h.live, h.pages[a := a])
  }

  function WithCnt(h: Heap, a: nat, cnt: nat): map<nat, Arena>
    requires a in h.arenas
  {
    h.arenas[a := h.arenas[a].(cnt := cnt)]
  }

  /** The first free block of class k is handed out. */
  function Handed(h: Heap, k: nat, size: nat): Heap
    requires k < |h.lists| && h.lists[k] != [] && h.lists[k][0] / PAGE >= BASE
    requires ArenaOf(h.lists[k][0]) in h.arenas && h.arenas[ArenaOf(h.lists[k][0])].cnt > 0
  {
    var x := h.lists[k][0];
    var a := ArenaOf(x);
    Heap(WithCnt(h, a, h.arenas[a].cnt - 1), h.lists[k := h.lists[k][1..]], h.live[x := size], h.pages)
  }

  /** Block x of class k is taken back. */
  function Returned(h: Heap, k: nat, x: nat): Heap
    requires k < |h.lists| && x / PAGE >= BASE && ArenaOf(x) in h.arenas
  {
    var a := ArenaOf(x);
    Heap(WithCnt(h, a, h.arenas[a].cnt + 1), h.lists[k := h.lists[k] + [x]], h.live - {x}, h.pages)
  }

  lemma GridMembers(a: nat, k: nat, n: nat)
    requires k < CLASSES && n <= BlocksPer(k)
    ensures NoDup(GridOf(a, k, n))
    ensures forall x: nat :: x in GridOf(a, k, n) <==> x / PAGE == BASE + a && OnGrid(x, k) && IndexOf(x, k) < n
  {
    hide OnGrid, BlocksPer, BlockSize, BlockAt, IndexOf;
    forall i | 0 <= i < n
      ensures BlockAt(a, k, i) / PAGE == BASE + a && OnGrid(BlockAt(a, k, i), k) && IndexOf(BlockAt(a, k, i), k) == i
    {
      GridOfBlock(a, k, i);
    }
    forall x: nat | x / PAGE == BASE + a && OnGrid(x, k) && IndexOf(x, k) < n ensures x in GridOf(a, k, n) {
      BlockOfGrid(x, k);
      assert GridOf(a, k, n)[IndexOf(x, k)] == x;
    }
  }

  function Below(n: nat): (s: set<nat>)
    ensures |s| == n && forall i: nat :: i in s <==> i < n
  {
    if n == 0 then {} else
      var s := Below(n - 1);
      assert n - 1 !in s;
      s + {n - 1}
  }

  lemma OpenedListed(h: Heap, a: nat, k: nat)
    requires Listed(h) && Lived(h) && k < CLASSES && a !in h.arenas
    ensures Listed(Opened(h, a, k))
  {
    var t := Opened(h, a, k);
    GridMembers(a, k, BlocksPer(k));
    forall x: nat | x / PAGE == BASE + a ensures x !in h.live && x !in h.lists[k] {
      assert x in h.live ==> Housed(h, x);
    }
    AppendApart(h.lists[k], GridOf(a, k, BlocksPer(k)));
    hide OnGrid, GridOf, Lived, NoDup;
    forall j, x: nat | 0 <= j < CLASSES ensures IsBlock(t, j, x) <==> IsBlock(h, j, x) || (j == k && x / PAGE == BASE + a && OnGrid(x, k)) {
    }
  }

  lemma AppendApart(s: seq<nat>, t: seq<nat>)
    requires NoDup(s) && NoDup(t) && forall x :: x in t ==> x !in s
    ensures NoDup(s + t)
  {
    forall i, j | 0 <= i < j < |s + t| ensures (s + t)[i] != (s + t)[j] {
      assert j >= |s| ==> (s + t)[j] == t[j - |s|] && t[j - |s|] in t;
    }
  }

  lemma OpenedKeeps(h: Heap, a: nat, k: nat)
    requires Inv(h) && k < CLASSES && a !in h.pages
    ensures Inv(Opened(h, a, k)) && a !in h.arenas
  {
    NewPageNewArena(h, a);
    OpenedListed(h, a, k);
    OpenedCounted(h, a, k);
    OpenedLived(h, a, k);
    OpenedSpread(h, a, k);
    hide Listed, Counted, Lived, Spread, GridOf;
  }

  lemma OpenedSpread(h: Heap, a: nat, k: nat)
    requires Spread(h) && a !in h.arenas && a !in h.pages && k < |h.lists|
    ensures Spread(Opened(h, a, k))
  {
    hide GridOf, BlocksPer;
    var t := Opened(h, a, k);
    forall b, p: nat ensures Covers(t, b, p) <==> p in t.pages && t.pages[p] == b {
      assert Covers(h, b, p) <==> p in h.pages && h.pages[p] == b;
    }
  }

  /** Counting a block in or out moves no page. */
  lemma RecountedSpread(h: Heap, t: Heap)
    requires Spread(h) && t.pages == h.pages && t.arenas.Keys == h.arenas.Keys
    requires forall a :: a in h.arenas ==> SpanOf(t.arenas[a]) == SpanOf(h.arenas[a])
    ensures Spread(t)
  {
    forall b, p: nat ensures Covers(t, b, p) <==> p in t.pages && t.pages[p] == b {
      assert Covers(h, b, p) <==> p in h.pages && h.pages[p] == b;
    }
  }

  lemma NewPageNewArena(h: Heap, a: nat)
    requires Counted(h) && Spread(h) && a !in h.pages
    ensures a !in h.arenas
  {
    assert a in h.arenas ==> Covers(h, a, a);
  }

  lemma OpenedLived(h: Heap, a: nat, k: nat)
    requires Lived(h) && k < |h.lists| && a !in h.arenas
    ensures Lived(Opened(h, a, k))
  {
    hide OnGrid, GridOf, BlocksPer;
    var t := Opened(h, a, k);
    forall x | x in t.live ensures Housed(t, x) {
      assert Housed(h, x);
    }
    assert forall b :: IsLarge(t, b) ==> IsLarge(h, b);
  }

  lemma OpenedCounted(h: Heap, a: nat, k: nat)
    requires Counted(h) && Lived(h) && Listed(h) && k < CLASSES && a !in h.arenas
    ensures Counted(Opened(h, a, k))
  {
    forall i: nat | i < BlocksPer(k) ensures BlockAt(a, k, i) !in h.live {
      GridOfBlock(a, k, i);
      assert BlockAt(a, k, i) in h.live ==> Housed(h, BlockAt(a, k, i));
    }
    assert FreeIdx(h.live, a, k) == Below(BlocksPer(k));
    hide BlockAt, BlocksPer, Lived, Listed;
  }

  /** Block x of arena a is added to those handed out. */
  lemma FreeIdxWithout(live: map<nat, nat>, a: nat, k: nat, x: nat, size: nat)
    requires k < CLASSES && x / PAGE == BASE + a && OnGrid(x, k) && x !in live
    ensures IndexOf(x, k) in FreeIdx(live, a, k)
    ensures FreeIdx(live[x := size], a, k) == FreeIdx(live, a, k) - {IndexOf(x, k)}
    ensures 0 < |FreeIdx(live, a, k)| <= BlocksPer(k)
    ensures |FreeIdx(live[x := size], a, k)| == |FreeIdx(live, a, k)| - 1
  {
    hide OnGrid, BlocksPer, BlockSize, BlockAt, IndexOf;
    BlockOfGrid(x, k);
    forall i: nat | i < BlocksPer(k) ensures BlockAt(a, k, i) == x <==> i == IndexOf(x, k) {
      GridOfBlock(a, k, i);
    }
    Within(FreeIdx(live, a, k), BlocksPer(k));
  }

  lemma Within(s: set<nat>, n: nat)
    requires forall i :: i in s ==> i < n
    ensures |s| <= n && (|s| == n ==> s == Below(n))
  {
    var rest := Below(n) - s;
    assert Below(n) == s + rest;
  }

  lemma FreeIdxElsewhere(live: map<nat, nat>, now: map<nat, nat>, b: nat, j: nat)
    requires j < CLASSES && forall y: nat :: y / PAGE == BASE + b ==> (y in live <==> y in now)
    ensures FreeIdx(live, b, j) == FreeIdx(now, b, j)
  {
    hide OnGrid, BlocksPer, BlockSize, BlockAt, IndexOf;
    forall i: nat | i < BlocksPer(j) ensures BlockAt(b, j, i) / PAGE == BASE + b {
      GridOfBlock(b, j, i);
    }
  }

  ghost predicate CanHand(h: Heap, k: nat) {
    k < |h.lists| && h.lists[k] != [] && h.lists[k][0] / PAGE >= BASE && IsSmall(h, ArenaOf(h.lists[k][0]), k)
    && h.arenas[ArenaOf(h.lists[k][0])].cnt > 0
  }

  lemma HeadIsFree(h: Heap, k: nat)
    requires Inv(h) && k < CLASSES && h.lists[k] != []
    ensures CanHand(h, k) && IsBlock(h, k, h.lists[k][0]) && h.lists[k][0] !in h.live
  {
    var x := h.lists[k][0];
    assert x in h.lists[k];
    assert IsBlock(h, k, x) && x !in h.live;
    FreeIdxWithout(h.live, ArenaOf(x), k, x, 0);
  }

  lemma HandedKeeps(h: Heap, k: nat, size: nat)
    requires Inv(h) && k < CLASSES && h.lists[k] != [] && 0 < size <= BlockSize(k)
    ensures CanHand(h, k) && Inv(Handed(h, k, size))
  {
    HeadIsFree(h, k);
    HandedCounted(h, k, size);
    HandedListed(h, k, size);
    HandedLived(h, k, size);
    RecountedSpread(h, Handed(h, k, size));
    hide Counted, Listed, Lived, Spread, IsBlock;
  }

  lemma HandedCounted(h: Heap, k: nat, size: nat)
    requires Counted(h) && k < CLASSES && CanHand(h, k) && IsBlock(h, k, h.lists[k][0]) && h.lists[k][0] !in h.live
    ensures Counted(Handed(h, k, size))
  {
    var x := h.lists[k][0];
    var a, t := ArenaOf(x), Handed(h, k, size);
    FreeIdxWithout(h.live, a, k, x, size);
    hide OnGrid, FreeIdx;
    forall b | b in t.arenas && b != a && t.arenas[b].desc.Some?
      ensures FreeIdx(t.live, b, t.arenas[b].desc.value) == FreeIdx(h.live, b, t.arenas[b].desc.value)
    {
      FreeIdxElsewhere(h.live, t.live, b, t.arenas[b].desc.value);
    }
  }

  lemma HandedListed(h: Heap, k: nat, size: nat)
    requires Listed(h) && k < CLASSES && CanHand(h, k) && IsBlock(h, k, h.lists[k][0])
    ensures Listed(Handed(h, k, size))
  {
    var x := h.lists[k][0];
    var t := Handed(h, k, size);
    PoppedNoDup(h.lists[k]);
    hide OnGrid, NoDup;
    forall j, y: nat ensures IsBlock(t, j, y) <==> IsBlock(h, j, y) {
    }
    assert forall j :: 0 <= j < CLASSES && x in h.lists[j] ==> j == k;
    hide IsBlock;
  }

  lemma HandedLived(h: Heap, k: nat, size: nat)
    requires Lived(h) && k < CLASSES && CanHand(h, k) && IsBlock(h, k, h.lists[k][0]) && 0 < size <= BlockSize(k)
    ensures Lived(Handed(h, k, size))
  {
    hide OnGrid;
    var x := h.lists[k][0];
    var t := Handed(h, k, size);
    assert Housed(t, x);
    forall y | y in t.live && y != x ensures Housed(t, y) {
      assert Housed(h, y);
    }
    assert forall b :: IsLarge(t, b) ==> IsLarge(h, b);
  }

  /** Taking a block back keeps the invariant; its arena may now be wholly free. */
  lemma ReturnedKeeps(h: Heap, k: nat, x: nat)
    requires Inv(h) && x in h.live && x / PAGE >= BASE && IsSmall(h, ArenaOf(x), k)
    ensures k < CLASSES && Inv(Returned(h, k, x))
  {
    assert Housed(h, x) && x !in h.lists[k];
    ReturnedCounted(h, k, x);
    ReturnedListed(h, k, x);
    ReturnedLived(h, k, x);
    RecountedSpread(h, Returned(h, k, x));
    hide Counted, Listed, Lived, Spread, OnGrid;
  }

  lemma ReturnedCounted(h: Heap, k: nat, x: nat)
    requires Counted(h) && Housed(h, x) && IsSmall(h, ArenaOf(x), k) && k < |h.lists|
    ensures Counted(Returned(h, k, x))
  {
    var a, t := ArenaOf(x), Returned(h, k, x);
    FreeIdxWithout(t.live, a, k, x, h.live[x]);
    assert t.live[x := h.live[x]] == h.live;
    hide OnGrid, FreeIdx;
    forall b | b in t.arenas && b != a && t.arenas[b].desc.Some?
      ensures FreeIdx(t.live, b, t.arenas[b].desc.value) == FreeIdx(h.live, b, t.arenas[b].desc.value)
    {
      FreeIdxElsewhere(h.live, t.live, b, t.arenas[b].desc.value);
    }
  }

  lemma ReturnedListed(h: Heap, k: nat, x: nat)
    requires Listed(h) && Housed(h, x) && IsSmall(h, ArenaOf(x), k) && k < CLASSES
    ensures Listed(Returned(h, k, x))
  {
    var t := Returned(h, k, x);
    AppendNoDup(h.lists[k], x);
    hide OnGrid, NoDup;
    forall j, y: nat ensures IsBlock(t, j, y) <==> IsBlock(h, j, y) {
    }
    assert IsBlock(h, k, x) && forall j :: IsBlock(h, j, x) ==> j == k;
    hide IsBlock;
  }

  lemma ReturnedLived(h: Heap, k: nat, x: nat)
    requires Lived(h) && Housed(h, x) && IsSmall(h, ArenaOf(x), k) && k < |h.lists|
    ensures Lived(Returned(h, k, x))
  {
    hide OnGrid;
    var t := Returned(h, k, x);
    forall y | y in t.live ensures Housed(t, y) {
      assert Housed(h, y);
    }
    forall b | IsLarge(t, b) ensures (BASE + b) * PAGE + HEADER in t.live {
      assert IsLarge(h, b);
    }
  }

  // ----- releasing arenas, and large requests -----

  /** list_remove of the first n blocks of arena a. */
  function Unlinked(list: seq<nat>, a: nat, k: nat, n: nat): seq<nat> {
    if n == 0 then list else Without(Unlinked(list, a, k, n - 1), BlockAt(a, k, n - 1))
  }

  lemma {:induction false} UnlinkedMembers(list: seq<nat>, a: nat, k: nat, n: nat)
    requires NoDup(list) && k < CLASSES && n <= BlocksPer(k)
    ensures NoDup(Unlinked(list, a, k, n))
    ensures forall y: nat :: y in Unlinked(list, a, k, n) <==> y in list && !(y / PAGE == BASE + a && OnGrid(y, k) && IndexOf(y, k) < n)
  {
    hide OnGrid, BlocksPer, BlockSize, BlockAt, IndexOf, NoDup;
    if n > 0 {
      UnlinkedMembers(list, a, k, n - 1);
      WithoutProperties(Unlinked(list, a, k, n - 1), BlockAt(a, k, n - 1));
      GridOfBlock(a, k, n - 1);
      forall y: nat | y / PAGE == BASE + a && OnGrid(y, k) && IndexOf(y, k) == n - 1 ensures y == BlockAt(a, k, n - 1) {
        BlockOfGrid(y, k);
      }
    } else {
      forall y: nat | y / PAGE == BASE + a && OnGrid(y, k) ensures IndexOf(y, k) >= 0 {
        BlockOfGrid(y, k);
      }
    }
  }

  /** The blocks of arena a leave the free list, and its page the heap. */
  function Closed(h: Heap, a: nat, k: nat): Heap
    requires k < |h.lists|
  {
    Heap(h.arenas - {a}, h.lists[k := Unlinked(h.lists[k], a, k, BlocksPer(k))], h.live, h.pages - {a})
  }

  /** A wholly free arena has no block handed out. */
  lemma FreeArena(h: Heap, a: nat, k: nat, x: nat)
    requires Counted(h) && Lived(h) && IsSmall(h, a, k) && h.arenas[a].cnt == BlocksPer(k)
    ensures x in h.live ==> x / PAGE != BASE + a
  {
    hide OnGrid, BlocksPer, BlockSize, BlockAt, IndexOf;
    Within(FreeIdx(h.live, a, k), BlocksPer(k));
    if x / PAGE == BASE + a && OnGrid(x, k) {
      BlockOfGrid(x, k);
      assert IndexOf(x, k) in FreeIdx(h.live, a, k);
    }
    assert x in h.live ==> Housed(h, x);
  }

  lemma ClosedKeeps(h: Heap, a: nat, k: nat)
    requires Inv(h) && IsSmall(h, a, k) && h.arenas[a].cnt == BlocksPer(k)
    ensures k < CLASSES && Inv(Closed(h, a, k))
  {
    forall x: nat | x in h.live ensures x / PAGE != BASE + a {
      FreeArena(h, a, k, x);
    }
    ClosedListed(h, a, k);
    ClosedSpread(h, a, k);
    ClosedRest(h, a, k);
    hide Counted, Spread, Listed, Lived, BlocksPer;
  }

  lemma ClosedListed(h: Heap, a: nat, k: nat)
    requires Listed(h) && IsSmall(h, a, k) && k < CLASSES && forall x: nat :: x in h.live ==> x / PAGE != BASE + a
    ensures Listed(Closed(h, a, k))
  {
    var t := Closed(h, a, k);
    UnlinkedMembers(h.lists[k], a, k, BlocksPer(k));
    hide BlocksPer, BlockSize, BlockAt, NoDup, Unlinked;
    forall j, y: nat | 0 <= j < CLASSES ensures y in t.lists[j] <==> IsBlock(t, j, y) && y !in t.live {
      assert y in h.lists[j] <==> IsBlock(h, j, y) && y !in h.live;
      if y / PAGE == BASE + a && OnGrid(y, k) {
        BlockOfGrid(y, k);
      }
      hide OnGrid, IndexOf;
      assert IsBlock(t, j, y) <==> IsBlock(h, j, y) && y / PAGE != BASE + a;
    }
  }

  lemma ClosedSpread(h: Heap, a: nat, k: nat)
    requires Spread(h) && IsSmall(h, a, k) && k < |h.lists|
    ensures Spread(Closed(h, a, k))
  {
    hide Unlinked, BlocksPer;
    var t := Closed(h, a, k);
    assert Covers(h, a, a);
    forall b, p: nat ensures Covers(t, b, p) <==> p in t.pages && t.pages[p] == b {
      assert Covers(h, b, p) <==> p in h.pages && h.pages[p] == b;
    }
  }

  lemma ClosedRest(h: Heap, a: nat, k: nat)
    requires Counted(h) && Lived(h) && IsSmall(h, a, k) && k < |h.lists| && forall x: nat :: x in h.live ==> x / PAGE != BASE + a
    ensures Counted(Closed(h, a, k)) && Lived(Closed(h, a, k))
  {
    hide OnGrid, BlocksPer, Unlinked, FreeIdx;
    var t := Closed(h, a, k);
    forall y | y in t.live ensures Housed(t, y) {
      assert Housed(h, y);
    }
    forall b | IsLarge(t, b) ensures (BASE + b) * PAGE + HEADER in t.live {
      assert IsLarge(h, b);
    }
  }

  ghost function PagesOf(a: nat, n: nat): set<nat> {
    set p: nat | p < a + n && InSpan(p, a, n)
  }

  /** n pages from a on become one large block. */
  ghost function Spanned(h: Heap, a: nat, n: nat, size: nat): Heap {
    Heap(h.arenas[a := Arena(None, n, true)], h.lists, h.live[(BASE + a) * PAGE + HEADER := size],
         map p | p in h.pages.Keys + PagesOf(a, n) :: if a <= p < a + n then a else h.pages[p])
  }

  ghost function Unspanned(h: Heap, a: nat, n: nat): Heap {
    Heap(h.arenas - {a}, h.lists, h.live - {(BASE + a) * PAGE + HEADER}, h.pages - PagesOf(a, n))
  }

  lemma SpannedKeeps(h: Heap, a: nat, n: nat, size: nat)
    requires Inv(h) && n > 0 && size > 0 && HEADER + size <= n * PAGE
    requires forall p :: a <= p < a + n ==> p !in h.pages
    ensures Inv(Spanned(h, a, n, size)) && a !in h.arenas
  {
    NewPageNewArena(h, a);
    PlusPages(BASE + a, HEADER);
    SpannedListed(h, a, n, size);
    SpannedLived(h, a, n, size);
    SpannedSpread(h, a, n, size);
    SpannedCounted(h, a, n, size);
    hide Counted, Spread, Listed, Lived;
  }

  lemma SpannedSpread(h: Heap, a: nat, n: nat, size: nat)
    requires Spread(h) && n > 0 && a !in h.arenas && forall p :: a <= p < a + n ==> p !in h.pages
    ensures Spread(Spanned(h, a, n, size))
  {
    var t := Spanned(h, a, n, size);
    forall p: nat ensures p in PagesOf(a, n) <==> InSpan(p, a, n) {
    }
    hide PagesOf;
    forall b, p: nat ensures Covers(t, b, p) <==> p in t.pages && t.pages[p] == b {
      assert Covers(h, b, p) <==> p in h.pages && h.pages[p] == b;
    }
  }

  lemma UnspannedSpread(h: Heap, a: nat)
    requires Spread(h) && IsLarge(h, a)
    ensures Spread(Unspanned(h, a, h.arenas[a].cnt))
  {
    var n := h.arenas[a].cnt;
    var t := Unspanned(h, a, n);
    forall p: nat ensures p in PagesOf(a, n) <==> Covers(h, a, p) {
    }
    hide PagesOf;
    forall b, p: nat ensures Covers(t, b, p) <==> p in t.pages && t.pages[p] == b {
      assert Covers(h, b, p) <==> p in h.pages && h.pages[p] == b;
    }
  }

  lemma SpannedCounted(h: Heap, a: nat, n: nat, size: nat)
    requires Counted(h) && n > 0 && a !in h.arenas && ((BASE + a) * PAGE + HEADER) / PAGE == BASE + a
    ensures Counted(Spanned(h, a, n, size))
  {
    hide FreeIdx, PagesOf;
    var t := Spanned(h, a, n, size);
    forall b | b in t.arenas && b != a && t.arenas[b].desc.Some?
      ensures FreeIdx(t.live, b, t.arenas[b].desc.value) == FreeIdx(h.live, b, t.arenas[b].desc.value)
    {
      FreeIdxElsewhere(h.live, t.live, b, t.arenas[b].desc.value);
    }
  }

  lemma SpannedListed(h: Heap, a: nat, n: nat, size: nat)
    requires Listed(h) && a !in h.arenas && ((BASE + a) * PAGE + HEADER) / PAGE == BASE + a
    ensures Listed(Spanned(h, a, n, size))
  {
    hide OnGrid, NoDup, PagesOf;
    var t, x := Spanned(h, a, n, size), (BASE + a) * PAGE + HEADER;
    forall j, y: nat | 0 <= j < CLASSES ensures y in t.lists[j] <==> IsBlock(t, j, y) && y !in t.live {
      assert y in h.lists[j] <==> IsBlock(h, j, y) && y !in h.live;
      assert IsBlock(t, j, y) <==> IsBlock(h, j, y);
      assert !IsBlock(h, j, x);
    }
  }

  lemma SpannedLived(h: Heap, a: nat, n: nat, size: nat)
    requires Lived(h) && n > 0 && size > 0 && HEADER + size <= n * PAGE && a !in h.arenas
    requires ((BASE + a) * PAGE + HEADER) / PAGE == BASE + a && ((BASE + a) * PAGE + HEADER) % PAGE == HEADER
    ensures Lived(Spanned(h, a, n, size))
  {
    hide OnGrid, PagesOf;
    var t := Spanned(h, a, n, size);
    assert Housed(t, (BASE + a) * PAGE + HEADER);
    forall y | y in t.live && y != (BASE + a) * PAGE + HEADER ensures Housed(t, y) {
      assert Housed(h, y);
    }
    assert forall b :: IsLarge(t, b) && b != a ==> IsLarge(h, b);
  }

  lemma UnspannedKeeps(h: Heap, a: nat)
    requires Inv(h) && IsLarge(h, a)
    ensures Inv(Unspanned(h, a, h.arenas[a].cnt))
  {
    PlusPages(BASE + a, HEADER);
    UnspannedListed(h, a);
    UnspannedLived(h, a);
    UnspannedCounted(h, a);
    UnspannedSpread(h, a);
    hide Counted, Spread, Listed, Lived, PagesOf;
  }

  lemma UnspannedCounted(h: Heap, a: nat)
    requires Counted(h) && IsLarge(h, a) && ((BASE + a) * PAGE + HEADER) / PAGE == BASE + a
    ensures Counted(Unspanned(h, a, h.arenas[a].cnt))
  {
    hide FreeIdx, PagesOf;
    var t := Unspanned(h, a, h.arenas[a].cnt);
    forall b | b in t.arenas && t.arenas[b].desc.Some?
      ensures FreeIdx(t.live, b, t.arenas[b].desc.value) == FreeIdx(h.live, b, t.arenas[b].desc.value)
    {
      FreeIdxElsewhere(h.live, t.live, b, t.arenas[b].desc.value);
    }
  }

  lemma UnspannedListed(h: Heap, a: nat)
    requires Listed(h) && IsLarge(h, a) && ((BASE + a) * PAGE + HEADER) / PAGE == BASE + a
    ensures Listed(Unspanned(h, a, h.arenas[a].cnt))
  {
    hide OnGrid, NoDup, PagesOf;
    var t, x := Unspanned(h, a, h.arenas[a].cnt), (BASE + a) * PAGE + HEADER;
    forall j, y: nat | 0 <= j < CLASSES ensures y in t.lists[j] <==> IsBlock(t, j, y) && y !in t.live {
      assert y in h.lists[j] <==> IsBlock(h, j, y) && y !in h.live;
      assert IsBlock(t, j, y) <==> IsBlock(h, j, y);
      assert !IsBlock(h, j, x);
    }
  }

  lemma UnspannedLived(h: Heap, a: nat)
    requires Lived(h) && IsLarge(h, a)
    requires ((BASE + a) * PAGE + HEADER) / PAGE == BASE + a && ((BASE + a) * PAGE + HEADER) % PAGE == HEADER
    ensures Lived(Unspanned(h, a, h.arenas[a].cnt))
  {
    hide OnGrid, PagesOf;
    var t := Unspanned(h, a, h.arenas[a].cnt);
    forall y | y in t.live ensures Housed(t, y) {
      assert Housed(h, y);
      assert y / PAGE == BASE + a ==> y == (BASE + a) * PAGE + HEADER;
    }
    forall b | IsLarge(t, b) ensures (BASE + b) * PAGE + HEADER in t.live {
      assert IsLarge(h, b);
    }
  }

  /** An arena with a block handed out is not wholly free, and the next free block is never the last hidden one. */
  lemma HandedTight(h: Heap, k: nat, size: nat)
    requires Inv(h) && k < CLASSES && h.lists[k] != [] && CanHand(h, k)
    requires forall b, j :: IsSmall(h, b, j) && b != ArenaOf(h.lists[k][0]) ==> h.arenas[b].cnt < BlocksPer(j)
    ensures Tight(Handed(h, k, size))
  {
    HeadIsFree(h, k);
    var x := h.lists[k][0];
    FreeIdxWithout(h.live, ArenaOf(x), k, x, 0);
    hide BlocksPer, FreeIdx, OnGrid;
    var t := Handed(h, k, size);
    forall b, j | IsSmall(t, b, j) ensures t.arenas[b].cnt < BlocksPer(j) {
      assert IsSmall(h, b, j);
    }
  }

  lemma OpenedHead(h: Heap, a: nat, k: nat)
    requires k < CLASSES && |h.lists| == CLASSES && h.lists[k] == []
    ensures Opened(h, a, k).lists[k] != [] && Opened(h, a, k).lists[k][0] / PAGE == BASE + a
    ensures Opened(h, a, k).lists[k][0] % PAGE == HEADER
  {
    GridOfBlock(a, k, 0);
    assert h.lists[k] + GridOf(a, k, BlocksPer(k)) == GridOf(a, k, BlocksPer(k));
    assert GridOf(a, k, BlocksPer(k))[0] == BlockAt(a, k, 0);
  }

  /** What sys_free(x) leaves. */
  ghost function Released(h: Heap, x: nat): Heap
    requires Inv(h) && x in h.live
  {
    assert Housed(h, x);
    var a := ArenaOf(x);
    match h.arenas[a].desc
    case None => Unspanned(h, a, h.arenas[a].cnt)
    case Some(k) =>
      var t := Returned(h, k, x);
      if h.arenas[a].cnt + 1 == BlocksPer(k) then Closed(t, a, k) else t
  }

  lemma ReleasedKeeps(h: Heap, x: nat)
    requires Inv(h) && Tight(h) && x in h.live
    ensures Inv(Released(h, x)) && Tight(Released(h, x)) && Released(h, x).live == h.live - {x}
  {
    assert Housed(h, x);
    var a := ArenaOf(x);
    match h.arenas[a].desc
    case None =>
      ReleasedLarge(h, x, a);
    case Some(k) =>
      ReleasedSmall(h, x, a, k);
  }

  lemma ReleasedLarge(h: Heap, x: nat, a: nat)
    requires Inv(h) && Tight(h) && Housed(h, x) && a == ArenaOf(x) && h.arenas[a].desc == None
    ensures
      var t := Unspanned(h, a, h.arenas[a].cnt);
      Inv(t) && Tight(t) && t.live == h.live - {x}
  {
    hide Inv, Tight, Housed, Unspanned;
    LargeAddress(h, x);
    UnspannedKeeps(h, a);
    UnspannedTight(h, a);
    UnspannedLive(h, a, h.arenas[a].cnt);
  }

  lemma UnspannedLive(h: Heap, a: nat, n: nat)
    ensures Unspanned(h, a, n).live == h.live - {(BASE + a) * PAGE + HEADER}
  {
    hide PagesOf;
  }

  lemma LargeAddress(h: Heap, x: nat)
    requires Inv(h) && Housed(h, x) && h.arenas[ArenaOf(x)].desc == None
    ensures IsLarge(h, ArenaOf(x)) && x == (BASE + ArenaOf(x)) * PAGE + HEADER
  {
  }

  lemma ReleasedSmall(h: Heap, x: nat, a: nat, k: nat)
    requires Inv(h) && Tight(h) && Housed(h, x) && a == ArenaOf(x) && h.arenas[a].desc == Some(k)
    ensures k < |h.lists|
    ensures
      var t := Returned(h, k, x);
      var u := if h.arenas[a].cnt + 1 == BlocksPer(k) then Closed(t, a, k) else t;
      Inv(u) && Tight(u) && u.live == h.live - {x}
  {
    assert IsSmall(h, a, k);
    ReturnedKeeps(h, k, x);
    ReturnedTight(h, k, x);
    hide Inv, Tight, BlocksPer, Unlinked;
    var t := Returned(h, k, x);
    if h.arenas[a].cnt + 1 == BlocksPer(k) {
      assert IsSmall(t, a, k);
      ClosedKeeps(t, a, k);
    }
  }

  lemma UnspannedTight(h: Heap, a: nat)
    requires Tight(h) && IsLarge(h, a)
    ensures Tight(Unspanned(h, a, h.arenas[a].cnt))
  {
    hide BlocksPer, PagesOf;
    var t := Unspanned(h, a, h.arenas[a].cnt);
    assert forall b, j :: IsSmall(t, b, j) ==> IsSmall(h, b, j);
  }

  lemma ReturnedTight(h: Heap, k: nat, x: nat)
    requires Tight(h) && k < |h.lists| && x / PAGE >= BASE && IsSmall(h, ArenaOf(x), k)
    ensures
      var t := Returned(h, k, x);
      if h.arenas[ArenaOf(x)].cnt + 1 == BlocksPer(k) then Tight(Closed(t, ArenaOf(x), k)) else Tight(t)
  {
    hide BlocksPer, Unlinked;
    var t := Returned(h, k, x);
    assert forall b, j :: IsSmall(t, b, j) ==> IsSmall(h, b, j);
    var u := Closed(t, ArenaOf(x), k);
    assert forall b, j :: IsSmall(u, b, j) ==> IsSmall(h, b, j) && b != ArenaOf(x);
  }

  /** Once everything is given back, the heap has no arena, no page, and no free block. */
  lemma EmptyHeap(h: Heap)
    requires Inv(h) && Tight(h) && h.live == map[]
    ensures h.arenas == map[] && h.pages == map[] && |h.lists| == CLASSES && forall k :: 0 <= k < CLASSES ==> h.lists[k] == []
  {
    forall a | a in h.arenas ensures IsLarge(h, a) {
      if h.arenas[a].desc.Some? {
        WhollyFree(h, a, h.arenas[a].desc.value);
        assert IsSmall(h, a, h.arenas[a].desc.value);
      }
    }
    forall p ensures p in h.pages ==> h.pages[p] in h.arenas {
      assert p in h.pages ==> Covers(h, h.pages[p], p);
    }
    forall k | 0 <= k < CLASSES ensures h.lists[k] != [] ==> h.lists[k][0] / PAGE >= BASE && ArenaOf(h.lists[k][0]) in h.arenas {
      assert h.lists[k] != [] ==> h.lists[k][0] in h.lists[k] && IsBlock(h, k, h.lists[k][0]);
    }
    assert forall a :: IsLarge(h, a) ==> (BASE + a) * PAGE + HEADER in h.live;
  }

  lemma WhollyFree(h: Heap, a: nat, k: nat)
    requires Counted(h) && h.live == map[] && a in h.arenas && h.arenas[a].desc == Some(k)
    ensures h.arenas[a].cnt == BlocksPer(k)
  {
    assert FreeIdx(h.live, a, k) == Below(BlocksPer(k));
  }

  lemma LiveHoused(h: Heap, x: nat)
    requires Lived(h)
    ensures x in h.live ==> x / PAGE >= BASE && ArenaOf(x) in h.arenas
  {
    if x in h.live {
      assert Housed(h, x);
    }
  }

  /**
   Where a request is served from: up to 1024 bytes from a block of the smallest class that holds it,
   beyond that from the fewest pages that hold it and the header.
   */
  ghost predicate ServedFrom(h: Heap, x: nat, size: nat) {
    && x / PAGE >= BASE
    && if size <= 1024 then
         exists k: nat :: k < CLASSES && IsSmall(h, ArenaOf(x), k) && OnGrid(x, k) && size <= BlockSize(k) && (k > 0 ==> BlockSize(k - 1) < size)
       else
         IsLarge(h, ArenaOf(x)) && x % PAGE == HEADER
         && (h.arenas[ArenaOf(x)].cnt - 1) * PAGE < size + HEADER <= h.arenas[ArenaOf(x)].cnt * PAGE
  }

  /** y stands before z. */
  ghost predicate Before(s: seq<nat>, y: nat, z: nat) {
    exists i, j :: 0 <= i < j < |s| && s[i] == y && s[j] == z
  }

  lemma WithoutOrder(s: seq<nat>, x: nat, y: nat, z: nat)
    requires NoDup(s) && Before(Without(s, x), y, z)
    ensures Before(s, y, z)
  {
    hide Without, NoDup, Before;
    WithoutCuts(s, x);
    if x in s {
      var p :| 0 <= p < |s| && s[p] == x && Without(s, x) == s[..p] + s[p + 1..];
      CutOrder(s, p, y, z);
    }
  }

  lemma CutOrder(s: seq<nat>, p: nat, y: nat, z: nat)
    requires p < |s| && Before(s[..p] + s[p + 1..], y, z)
    ensures Before(s, y, z)
  {
    var w := s[..p] + s[p + 1..];
    var i, j :| 0 <= i < j < |w| && w[i] == y && w[j] == z;
    var m, n := if i < p then i else i + 1, if j < p then j else j + 1;
    assert m < n && s[m] == y && s[n] == z;
  }

  lemma {:induction false} UnlinkedOrder(list: seq<nat>, a: nat, k: nat, n: nat, y: nat, z: nat)
    requires NoDup(list) && k < CLASSES && n <= BlocksPer(k) && Before(Unlinked(list, a, k, n), y, z)
    ensures Before(list, y, z)
  {
    hide BlockAt, Before, NoDup, BlocksPer;
    if n > 0 {
      UnlinkedMembers(list, a, k, n - 1);
      WithoutOrder(Unlinked(list, a, k, n - 1), BlockAt(a, k, n - 1), y, z);
      UnlinkedOrder(list, a, k, n - 1, y, z);
    }
  }

  /**
   What sys_free does to the free lists: the block goes to the end of its own, or, when it was the last
   of its arena in use, all blocks of the arena leave it and the others keep their order.
   */
  lemma ReleasedLists(h: Heap, x: nat, k: nat)
    requires Inv(h) && x in h.live && x / PAGE >= BASE && IsSmall(h, ArenaOf(x), k)
    ensures k < CLASSES == |h.lists| == |Released(h, x).lists|
    ensures forall j :: 0 <= j < CLASSES && j != k ==> Released(h, x).lists[j] == h.lists[j]
    ensures h.arenas[ArenaOf(x)].cnt + 1 != BlocksPer(k) ==> Released(h, x).lists[k] == h.lists[k] + [x]
    ensures h.arenas[ArenaOf(x)].cnt + 1 == BlocksPer(k) ==>
      forall y: nat :: y in Released(h, x).lists[k] <==> y in h.lists[k] && y / PAGE != x / PAGE
    ensures forall y, z :: Before(Released(h, x).lists[k], y, z) ==> Before(h.lists[k] + [x], y, z)
  {
    hide Spread, Tight, BlocksPer, OnGrid, Unlinked, Before, Counted;
    assert Housed(h, x);
    ReturnedKeeps(h, k, x);
    var a, t := ArenaOf(x), Returned(h, k, x);
    if h.arenas[a].cnt + 1 == BlocksPer(k) {
      UnlinkedBlocks(t, a, k);
      forall y, z | Before(Released(h, x).lists[k], y, z) ensures Before(h.lists[k] + [x], y, z) {
        UnlinkedOrder(t.lists[k], a, k, BlocksPer(k), y, z);
      }
    }
  }

  lemma UnlinkedBlocks(t: Heap, a: nat, k: nat)
    requires Listed(t) && k < CLASSES
    requires a in t.arenas && t.arenas[a].desc == Some(k)
    ensures forall y: nat :: y in Unlinked(t.lists[k], a, k, BlocksPer(k)) <==> y in t.lists[k] && y / PAGE != BASE + a
  {
    UnlinkedMembers(t.lists[k], a, k, BlocksPer(k));
    hide NoDup, Unlinked;
    forall y: nat | y in t.lists[k] && y / PAGE == BASE + a ensures OnGrid(y, k) && IndexOf(y, k) < BlocksPer(k) {
      assert IsBlock(t, k, y);
      BlockOfGrid(y, k);
    }
  }
}
