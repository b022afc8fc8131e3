/** sys_malloc and sys_free for kernel threads (src/kernel/memory.c), over the kernel's pages. */
module HeapPages {
  import opened Bitmaps
  import opened PageStates

  ghost predicate UsedBy(frames: map<nat, nat>, pages: set<nat>, x: nat) {
    exists i :: i in pages && i in frames && frames[i] == x
  }

  /** What is left of s when the given pages are taken away is `base`. */
  ghost predicate RestOf(s: PageState, pages: set<nat>, base: PageState) {
    && |base.vbits| == |s.vbits| && (forall i :: 0 <= i < |s.vbits| ==> (base.vbits[i] <==> s.vbits[i] && i !in pages))
    && (forall i :: i in pages ==> i in s.frames) && base.frames == s.frames - pages
    && |base.pbits| == |s.pbits| && (forall x :: 0 <= x < |s.pbits| ==> (base.pbits[x] <==> s.pbits[x] && !UsedBy(s.frames, pages, x)))
  }

  /** With no page taken nothing differs from the base. */
  lemma NothingTaken(s: PageState, base: PageState)
    requires RestOf(s, {}, base)
    ensures s == base
  {
    assert s.vbits == base.vbits && s.pbits == base.pbits && s.frames == base.frames;
  }

  lemma UsedByMore(frames: map<nat, nat>, now: map<nat, nat>, pages: set<nat>, more: set<nat>, a: nat, n: nat, x: nat)
    requires forall p: nat :: p in more <==> p in pages || a <= p < a + n
    requires forall p :: p in pages ==> p in frames && p in now && now[p] == frames[p]
    ensures UsedBy(now, more, x) <==> UsedBy(frames, pages, x) || Uses(now, a, n, x)
  {
    if UsedBy(frames, pages, x) {
      var i :| i in pages && i in frames && frames[i] == x;
      assert i in more && now[i] == x;
    }
    if Uses(now, a, n, x) {
      var i :| a <= i < a + n && i in now && now[i] == x;
      assert i in more;
    }
  }

  lemma MallocedRest(s: PageState, t: PageState, a: nat, n: nat, pages: set<nat>, more: set<nat>, base: PageState)
    requires Paired(s) && ClearRun(s.vbits, a, n) && Malloced(s, t, a, n) && RestOf(s, pages, base)
    requires forall p: nat :: p in more <==> p in pages || a <= p < a + n
    ensures RestOf(t, more, base)
  {
    hide UsedBy, Uses;
    forall p: nat | a <= p < a + n ensures p !in pages && p !in s.frames {
      assert !s.vbits[p];
    }
    forall x ensures UsedBy(t.frames, more, x) <==> UsedBy(s.frames, pages, x) || Uses(t.frames, a, n, x) {
      UsedByMore(s.frames, t.frames, pages, more, a, n, x);
    }
    assert base.frames == t.frames - more;
    forall x | 0 <= x < |s.pbits| ensures Uses(t.frames, a, n, x) ==> !s.pbits[x] {
      NewlyUsed(s, t.(vbits := s.vbits), a, n, x);
    }
  }

  lemma NewlyUsed(s: PageState, t: PageState, a: nat, n: nat, x: nat)
    requires Took(s, t, a, n) && x < |s.pbits|
    ensures Uses(t.frames, a, n, x) ==> !s.pbits[x]
  {
  }

  lemma FreedRest(s: PageState, t: PageState, a: nat, n: nat, pages: set<nat>, fewer: set<nat>, base: PageState)
    requires Paired(s) && Freed(s, t, a, n) && RestOf(s, pages, base)
    requires forall p: nat :: a <= p < a + n ==> p in pages
    requires forall p: nat :: p in fewer <==> p in pages && !(a <= p < a + n)
    ensures RestOf(t, fewer, base)
  {
    hide UsedBy, Uses;
    forall x ensures UsedBy(s.frames, pages, x) <==> UsedBy(t.frames, fewer, x) || Uses(s.frames, a, n, x) {
      UsedByMore(t.frames, s.frames, fewer, pages, a, n, x);
    }
    assert base.frames == t.frames - fewer;
  }
}

module KernelHeaps {
  import opened Common
  import opened Seqs
  import opened Bitmaps
  import opened PageStates
  import opened Memories
  import opened HeapStates
  import opened HeapPages

  const LARGEST: nat := 1024

  /** struct mem_block_desc without its list. */
  datatype Desc = Desc(size: nat, blocks: nat)

  /** block_desc_init */
  method BlockDescInit() returns (descs: seq<Desc>)
    ensures |descs| == CLASSES && forall k :: 0 <= k < CLASSES ==> descs[k] == Desc(BlockSize(k), BlocksPer(k))
  {
    var size := 16;
    descs := [];
    for i := 0 to CLASSES
      invariant |descs| == i && (i < CLASSES ==> size == BlockSize(i)) && forall k :: 0 <= k < i ==> descs[k] == Desc(BlockSize(k), BlocksPer(k))
    {
      descs := descs + [Desc(size, (PAGE - HEADER) / size)];
      size := size * 2;
    }
  }

  function ClassFrom(size: nat, k: nat): (r: nat)
    ensures k <= r && (r < CLASSES ==> size <= BlockSize(r)) && forall j :: k <= j < r ==> BlockSize(j) < size
    decreases CLASSES - k
  {
    if k >= CLASSES || size <= BlockSize(k) then k else ClassFrom(size, k + 1)
  }

  /** The smallest class whose blocks hold size bytes. */
  function ClassFor(size: nat): nat {
    ClassFrom(size, 0)
  }

  lemma {:induction false} ClassIsLeastFrom(size: nat, i: nat, k: nat)
    requires i <= k < CLASSES && size <= BlockSize(k) && forall j :: i <= j < k ==> BlockSize(j) < size
    ensures ClassFrom(size, i) == k
    decreases k - i
  {
    if i < k {
      ClassIsLeastFrom(size, i + 1, k);
    }
  }

  lemma ClassIsLeast(size: nat, k: nat)
    requires k < CLASSES && size <= BlockSize(k) && forall j :: 0 <= j < k ==> BlockSize(j) < size
    ensures ClassFor(size) == k
  {
    ClassIsLeastFrom(size, 0, k);
  }

  lemma ClassHolds(size: nat)
    requires 0 < size <= LARGEST
    ensures ClassFor(size) < CLASSES && size <= BlockSize(ClassFor(size))
  {
  }

  class KernelHeap {
    const mem: Memory
    const descs: seq<Desc>
    const poolLen: nat               // k_pool.len
    var arenas: map<nat, Arena>      // the headers at the start of pages
    var lists: seq<seq<nat>>         // the free lists
    ghost var live: map<nat, nat>
    ghost var pages: map<nat, nat>
    ghost const base: PageState      // the pages when the heap was empty

    ghost function Now(): Heap
      reads this
    {
      Heap(arenas, lists, live, pages)
    }

    ghost predicate Backed()
      reads this, mem, mem.kpool.base, mem.vpool.base
    {
      mem.Pools() && mem.Valid() && RestOf(mem.State(), pages.Keys, base)
    }

    ghost predicate Described() {
      |descs| == CLASSES && forall k :: 0 <= k < CLASSES ==> descs[k] == Desc(BlockSize(k), BlocksPer(k))
    }

    ghost predicate Valid()
      reads this, mem, mem.kpool.base, mem.vpool.base
    {
      Described() && Inv(Now()) && Tight(Now()) && Backed()
    }

    /** The heap before the first sys_malloc. */
    constructor (mem: Memory, descs: seq<Desc>, poolLen: nat)
      requires mem.Pools() && mem.Valid() && |descs| == CLASSES && forall k :: 0 <= k < CLASSES ==> descs[k] == Desc(BlockSize(k), BlocksPer(k))
      ensures Valid() && live == map[] && this.mem == mem && this.poolLen == poolLen && base == mem.State()
    {
      this.mem, this.descs, this.poolLen := mem, descs, poolLen;
      arenas, lists, live, pages := map[], seq(CLASSES, _ => []), map[], map[];
      base := mem.State();
    }

    /** The source asserts that neither map of pages is full when it asks for n of them. */
    ghost predicate CanGrow(n: nat)
      reads mem, mem.kpool.base, mem.vpool.base
    {
      && mem.Pools() && n <= ClearCount(mem.kpool.Bits())
      && exists i :: 0 <= i < 8 * mem.vpool.len && !mem.vpool.Bits()[i]
    }

    ghost predicate HasRun(n: nat)
      reads mem, mem.kpool.base, mem.vpool.base
    {
      mem.Pools() && exists a :: ClearRun(mem.vpool.Bits(), a, n)
    }

    /** How many new pages a request takes. */
    ghost function Needed(size: nat): nat
      reads this
    {
      if size > LARGEST then (size + HEADER + PAGE - 1) / PAGE
      else if ClassFor(size) < |lists| && lists[ClassFor(size)] == [] then 1 else 0
    }

    /** malloc_page; the pages are not yet part of the heap. */
    method TakePages(n: nat) returns (a: int)
      requires Backed() && n > 0 && CanGrow(n)
      modifies mem, mem.kpool.base, mem.vpool.base
      ensures a == -1 <==> !old(HasRun(n))
      ensures a == -1 ==> mem.State() == old(mem.State()) && Backed()
      ensures a != -1 ==> a >= 0 && forall p: nat :: a <= p < a + n ==> p !in pages
      ensures a != -1 ==> mem.Pools() && mem.Valid() && RestOf(mem.State(), pages.Keys + PagesOf(a, n), base)
    {
      hide BitsOf;
      ghost var s := mem.State();
      hide Memory.Mapping;
      a := mem.MallocPage(n);
      if a != -1 {
        Taken(s, mem.State(), a, n, pages.Keys, base);
      }
    }

    static lemma Taken(s: PageState, t: PageState, a: nat, n: nat, taken: set<nat>, base: PageState)
      requires Paired(s) && ClearRun(s.vbits, a, n) && Malloced(s, t, a, n) && RestOf(s, taken, base)
      ensures RestOf(t, taken + PagesOf(a, n), base) && forall p: nat :: a <= p < a + n ==> p !in taken
    {
      forall p: nat ensures p in PagesOf(a, n) <==> a <= p < a + n {
        assert InSpan(p, a, n) <==> a <= p < a + n;
      }
      hide PagesOf;
      MallocedRest(s, t, a, n, taken, taken + PagesOf(a, n), base);
      forall p: nat | a <= p < a + n ensures p !in taken {
        assert !s.vbits[p];
      }
    }

    /** free_page, for pages of the heap. */
    method GivePages(a: nat, n: nat)
      requires Backed() && n > 0 && forall p: nat :: a <= p < a + n ==> p in pages
      modifies mem, mem.kpool.base, mem.vpool.base, mem.upool.base
      ensures mem.Pools() && mem.Valid() && RestOf(mem.State(), pages.Keys - PagesOf(a, n), base)
    {
      hide BitsOf;
      ghost var s := mem.State();
      hide Memory.Mapping;
      mem.FreePage(a, n);
      Given(s, mem.State(), a, n, pages.Keys, base);
    }

    static lemma Given(s: PageState, t: PageState, a: nat, n: nat, taken: set<nat>, base: PageState)
      requires Paired(s) && Freed(s, t, a, n) && RestOf(s, taken, base) && forall p: nat :: a <= p < a + n ==> p in taken
      ensures RestOf(t, taken - PagesOf(a, n), base)
    {
      forall p: nat ensures p in PagesOf(a, n) <==> a <= p < a + n {
        assert InSpan(p, a, n) <==> a <= p < a + n;
      }
      hide PagesOf;
      FreedRest(s, t, a, n, taken, taken - PagesOf(a, n), base);
    }

    /** The smallest class whose blocks hold size bytes. */
    method FindClass(size: nat) returns (k: nat)
      requires Described() && 0 < size <= LARGEST
      ensures k < CLASSES && k == ClassFor(size)
    {
      assert BlockSize(CLASSES - 1) == LARGEST;
      k := 0;
      while k < CLASSES
        invariant k <= CLASSES && forall j :: 0 <= j < k ==> BlockSize(j) < size
      {
        if size <= descs[k].size {
          break;
        }
        k := k + 1;
      }
      ClassIsLeast(size, k);
    }

    /** A fresh page is split into blocks, which all join the free list. */
    method OpenArena(k: nat) returns (ok: bool)
      requires Described() && k < CLASSES && Inv(Now()) && Backed() && CanGrow(1)
      modifies this`arenas, this`lists, this`pages, mem, mem.kpool.base, mem.vpool.base
      ensures ok <==> old(HasRun(1))
      ensures !ok ==> Now() == old(Now()) && mem.State() == old(mem.State())
      ensures ok ==> exists a: nat :: a !in old(arenas) && Now() == Opened(old(Now()), a, k)
      ensures Inv(Now()) && Backed()
    {
      hide RestOf, ClearRun, Memory.Valid, CanGrow, HasRun, Counted, Spread, Listed, Lived, BlocksPer, BlockAt, BlockSize, BitsOf, PagesOf, GridOf;
      ListsShape(Now());
      var a := TakePages(1);
      ok := a != -1;
      if !ok {
        return;
      }
      OnePage(pages, a);
      OpenedKeeps(Now(), a, k);
      hide Inv;
      ghost var before := Now();
      arenas := arenas[a := Arena(Some(k), descs[k].blocks, false)];
      pages := pages[a := a];
      LinkBlocks(a, k);
      assert Now() == Opened(before, a, k);
    }

    method LinkBlocks(a: nat, k: nat)
      requires Described() && k < CLASSES == |lists|
      modifies this`lists
      ensures lists == old(lists)[k := old(lists)[k] + GridOf(a, k, BlocksPer(k))]
    {
      hide BlockAt, BlockSize, BlocksPer, GridOf;
      ghost var list := lists[k];
      var i: nat := 0;
      assert GridOf(a, k, 0) == [] && list + [] == list;
      while i < descs[k].blocks
        invariant 0 <= i <= descs[k].blocks && lists == old(lists)[k := list + GridOf(a, k, i)]
      {
        GridGrows(list, a, k, i);
        lists := lists[k := lists[k] + [BlockAt(a, k, i)]];
        i := i + 1;
      }
    }

    static lemma ListsShape(h: Heap)
      requires Inv(h)
      ensures |h.lists| == CLASSES
    {
    }

    static lemma GridGrows(list: seq<nat>, a: nat, k: nat, i: nat)
      ensures list + GridOf(a, k, i) + [BlockAt(a, k, i)] == list + GridOf(a, k, i + 1)
    {
      hide BlockAt;
      assert GridOf(a, k, i + 1) == GridOf(a, k, i) + [BlockAt(a, k, i)];
    }

    static lemma OnePage(pages: map<nat, nat>, a: nat)
      requires a !in pages
      ensures pages[a := a].Keys == pages.Keys + PagesOf(a, 1)
    {
      assert forall p: nat :: InSpan(p, a, 1) <==> p == a;
    }

    /** sys_malloc of more than 1024 bytes: a span of pages behind one header. */
    method MallocLarge(size: nat) returns (r: Option<nat>)
      requires Valid() && size > LARGEST && CanGrow((size + HEADER + PAGE - 1) / PAGE)
      modifies this, mem, mem.kpool.base, mem.vpool.base
      ensures r == None <==> !old(HasRun((size + HEADER + PAGE - 1) / PAGE))
      ensures r == None ==> Now() == old(Now()) && mem.State() == old(mem.State())
      ensures r.Some? ==> r.value !in old(live) && live == old(live)[r.value := size] && ServedFrom(Now(), r.value, size)
      ensures Valid()
    {
      hide Inv, Tight, RestOf, ClearRun, Memory.Valid, CanGrow, HasRun, BitsOf, PagesOf;
      var n := (size + HEADER + PAGE - 1) / PAGE;
      var a := TakePages(n);
      if a == -1 {
        return None;
      }
      SpanAdded(Now(), a, n, size);
      ghost var t := Spanned(Now(), a, n, size);
      arenas := arenas[a := Arena(None, n, true)];
      live, pages := t.live, t.pages;
      r := Some((BASE + a) * PAGE + HEADER);
    }

    static lemma SpanAdded(h: Heap, a: nat, n: nat, size: nat)
      requires Inv(h) && Tight(h) && n > 0 && size > 0 && HEADER + size <= n * PAGE && forall p: nat :: a <= p < a + n ==> p !in h.pages
      ensures
        var t := Spanned(h, a, n, size);
        Inv(t) && Tight(t) && t.pages.Keys == h.pages.Keys + PagesOf(a, n) && (BASE + a) * PAGE + HEADER !in h.live
    {
      SpannedKeeps(h, a, n, size);
      PlusPages(BASE + a, HEADER);
      LiveHoused(h, (BASE + a) * PAGE + HEADER);
      SpanTight(h, a, n, size);
      hide Inv, Tight, PagesOf;
    }

    static lemma SpanTight(h: Heap, a: nat, n: nat, size: nat)
      requires Tight(h)
      ensures Tight(Spanned(h, a, n, size))
    {
      hide BlocksPer, PagesOf;
      var t := Spanned(h, a, n, size);
      assert forall b, j :: IsSmall(t, b, j) ==> IsSmall(h, b, j);
    }

    /** The end of sys_malloc for small requests: the head of the free list is handed out. */
    method TakeBlock(k: nat, size: nat) returns (x: nat)
      requires k < CLASSES && Inv(Now()) && lists[k] != [] && CanHand(Now(), k)
      modifies this`arenas, this`lists, this`live
      ensures Now() == Handed(old(Now()), k, size) && x == old(lists)[k][0]
    {
      hide Inv;
      x := lists[k][0];
      lists := lists[k := lists[k][1..]];
      var a := ArenaOf(x);
      arenas := arenas[a := arenas[a].(cnt := arenas[a].cnt - 1)];
      live := live[x := size];
    }

    method MallocSmall(size: nat) returns (r: Option<nat>)
      requires Valid() && 0 < size <= LARGEST && (Needed(size) > 0 ==> CanGrow(1))
      modifies this, mem, mem.kpool.base, mem.vpool.base
      ensures r == None <==> old(Needed(size)) > 0 && !old(HasRun(1))
      ensures r == None ==> Now() == old(Now()) && mem.State() == old(mem.State())
      ensures r.Some? ==> r.value !in old(live) && live == old(live)[r.value := size] && ServedFrom(Now(), r.value, size)
      ensures old(Needed(size)) == 0 ==> r.Some? && GaveHead(old(Now()), Now(), ClassFor(size), size, r.value)
      ensures old(Needed(size)) > 0 && r.Some? ==> r.value % PAGE == HEADER
      ensures Valid()
    {
      hide Inv, Tight, RestOf, ClearRun, Memory.Valid, CanGrow, HasRun, BitsOf, Opened, Handed, CanHand, ServedFrom, ClassFor, BlockSize;
      ListsShape(Now());
      ClassHolds(size);
      var k := FindClass(size);
      ghost var h := Now();
      if lists[k] == [] {
        var ok := OpenArena(k);
        if !ok {
          return None;
        }
        OpenedIsReady(h, Now(), k, size);
      } else {
        HeadIsReady(h, k, size);
      }
      var x := TakeBlock(k, size);
      r := Some(x);
    }

    /** The block x handed out is the first of its class, and the others move up. */
    static ghost predicate GaveHead(h: Heap, t: Heap, k: nat, size: nat, x: nat) {
      && CanHand(h, k) && t == Handed(h, k, size)
      && x == h.lists[k][0] && t.lists == h.lists[k := h.lists[k][1..]] && t.pages == h.pages
    }

    /** Class k has a free block, and handing it out leaves the heap in order. */
    static ghost predicate Ready(h: Heap, k: nat, size: nat) {
      && k < CLASSES == |h.lists| && h.lists[k] != [] && CanHand(h, k) && h.lists[k][0] !in h.live
      && var t := Handed(h, k, size);
         Inv(t) && Tight(t) && t.pages == h.pages && t.live == h.live[h.lists[k][0] := size] && ServedFrom(t, h.lists[k][0], size)
         && t.lists == h.lists[k := h.lists[k][1..]]
    }

    static lemma HeadIsReady(h: Heap, k: nat, size: nat)
      requires Inv(h) && Tight(h) && k < CLASSES && h.lists[k] != [] && 0 < size <= LARGEST && k == ClassFor(size)
      ensures Ready(h, k, size)
    {
      ClassHolds(size);
      HeadServes(h, k, size);
      HeadIsFree(h, k);
      HandedKeeps(h, k, size);
      HandedTight(h, k, size);
      ListsShape(h);
      hide Inv, Tight;
    }

    static lemma HeadOfOpened(h: Heap, t: Heap, k: nat)
      requires k < CLASSES == |h.lists| && h.lists[k] == [] && exists a: nat :: a !in h.arenas && t == Opened(h, a, k)
      ensures |t.lists| == CLASSES && t.lists[k] != [] && t.live == h.live && t.lists[k][0] % PAGE == HEADER
    {
      var a: nat :| a !in h.arenas && t == Opened(h, a, k);
      OpenedHead(h, a, k);
    }

    static lemma HeadServes(h: Heap, k: nat, size: nat)
      requires Inv(h) && k < CLASSES && h.lists[k] != [] && 0 < size <= LARGEST && k == ClassFor(size)
      ensures CanHand(h, k) && ServedFrom(Handed(h, k, size), h.lists[k][0], size)
    {
      HeadIsFree(h, k);
      hide Inv, OnGrid;
      var x, t := h.lists[k][0], Handed(h, k, size);
      assert IsSmall(t, ArenaOf(x), k);
    }

    static lemma OpenedIsReady(h: Heap, t: Heap, k: nat, size: nat)
      requires Inv(h) && Tight(h) && Inv(t) && k < CLASSES == |h.lists| && h.lists[k] == [] && 0 < size <= LARGEST && k == ClassFor(size)
      requires exists a: nat :: a !in h.arenas && t == Opened(h, a, k)
      ensures Ready(t, k, size) && t.live == h.live && t.lists[k][0] % PAGE == HEADER
    {
      hide Inv, Tight;
      ClassHolds(size);
      HeadOfOpened(h, t, k);
      HeadServes(t, k, size);
      HeadIsFree(t, k);
      HandedKeeps(t, k, size);
      OpenedTight(h, t, k, size);
    }

    /** The new arena was the only one wholly free, and the first of its blocks is the one handed out. */
    static lemma OpenedTight(h: Heap, t: Heap, k: nat, size: nat)
      requires Inv(h) && Tight(h) && Inv(t) && k < CLASSES == |h.lists| && h.lists[k] == [] && 0 < size <= BlockSize(k)
      requires exists a: nat :: a !in h.arenas && t == Opened(h, a, k)
      ensures |t.lists| == CLASSES && t.lists[k] != [] && CanHand(t, k) && Tight(Handed(t, k, size))
    {
      hide Inv;
      var a: nat :| a !in h.arenas && t == Opened(h, a, k);
      OpenedHead(h, a, k);
      HeadIsFree(t, k);
      forall b, j | IsSmall(t, b, j) && b != a ensures t.arenas[b].cnt < BlocksPer(j) {
        assert IsSmall(h, b, j);
      }
      HandedTight(t, k, size);
    }

    /**
     sys_malloc. NULL means a request of no size or beyond the pool, or too few virtual pages in a row;
     otherwise a block that was not in use is handed out.
     */
    method SysMalloc(size: nat) returns (r: Option<nat>)
      requires Valid() && (0 < size < poolLen && Needed(size) > 0 ==> CanGrow(Needed(size)))
      modifies this, mem, mem.kpool.base, mem.vpool.base
      ensures r == None <==> !(0 < size < poolLen) || (old(Needed(size)) > 0 && !old(HasRun(Needed(size))))
      ensures r == None ==> Now() == old(Now()) && mem.State() == old(mem.State())
      ensures r.Some? ==> r.value !in old(live) && live == old(live)[r.value := size] && ServedFrom(Now(), r.value, size)
      ensures 0 < size < poolLen && old(Needed(size)) == 0 ==> r.Some? && GaveHead(old(Now()), Now(), ClassFor(size), size, r.value)
      ensures old(Needed(size)) > 0 && r.Some? ==> r.value % PAGE == HEADER
      ensures Valid()
    {
      hide Inv, Tight, RestOf, ClearRun, Memory.Valid, CanGrow, HasRun, BitsOf, GaveHead;
      if !(0 < size < poolLen) {
        return None;
      }
      if size > LARGEST {
        r := MallocLarge(size);
      } else {
        r := MallocSmall(size);
      }
    }

    /** list_remove of every block of arena a. */
    method UnlinkBlocks(a: nat, k: nat)
      requires Described() && k < CLASSES == |lists|
      modifies this`lists
      ensures lists == old(lists)[k := Unlinked(old(lists)[k], a, k, BlocksPer(k))]
    {
      hide BlockAt, BlockSize, BlocksPer;
      ghost var list := lists[k];
      var i: nat := 0;
      while i < descs[k].blocks
        invariant 0 <= i <= descs[k].blocks && lists == old(lists)[k := Unlinked(list, a, k, i)]
      {
        lists := lists[k := Without(lists[k], BlockAt(a, k, i))];
        i := i + 1;
      }
    }

    /** free_page of a whole arena. */
    method DropArena(a: nat, n: nat)
      requires Backed() && n > 0 && forall p: nat :: a <= p < a + n ==> p in pages
      modifies this`arenas, this`pages, mem, mem.kpool.base, mem.vpool.base, mem.upool.base
      ensures arenas == old(arenas) - {a} && pages == old(pages) - PagesOf(a, n)
      ensures Backed()
    {
      hide RestOf, Memory.Valid, BitsOf, PagesOf;
      GivePages(a, n);
      arenas := arenas - {a};
      pages := pages - PagesOf(a, n);
    }

    static ghost function SmallReleased(h: Heap, x: nat, a: nat, k: nat): Heap
      requires k < |h.lists| && a in h.arenas
    {
      var r, list := h.arenas[a], h.lists[k] + [x];
      if r.cnt + 1 == BlocksPer(k) then
        Heap(h.arenas - {a}, h.lists[k := Unlinked(list, a, k, BlocksPer(k))], h.live - {x}, h.pages - PagesOf(a, 1))
      else
        Heap(h.arenas[a := r.(cnt := r.cnt + 1)], h.lists[k := list], h.live - {x}, h.pages)
    }

    /** A small block joins its free list; when that makes its arena wholly free, the arena goes. */
    method FreeBlock(x: nat, a: nat, k: nat)
      requires Described() && Backed() && k < CLASSES == |lists| && a in arenas && a in pages
      modifies this, mem, mem.kpool.base, mem.vpool.base, mem.upool.base
      ensures Now() == SmallReleased(old(Now()), x, a, k)
      ensures Backed()
    {
      hide RestOf, Memory.Valid, BitsOf, PagesOf, BlocksPer, Unlinked, BlockSize;
      live := live - {x};
      lists := lists[k := lists[k] + [x]];
      arenas := arenas[a := arenas[a].(cnt := arenas[a].cnt + 1)];
      if arenas[a].cnt == descs[k].blocks {
        UnlinkBlocks(a, k);
        DropArena(a, 1);
        assert arenas == old(arenas) - {a};
      }
    }

    /** The heap after its arena or block is gone holds the other blocks, and keeps its invariant. */
    static ghost predicate Proper(h: Heap, x: nat, t: Heap) {
      Inv(h) && x in h.live && t == Released(h, x) && t.live == h.live - {x} && Inv(t) && Tight(t)
    }

    method FreeLarge(x: nat)
      requires Valid() && x in live && x / PAGE >= BASE && IsLarge(Now(), ArenaOf(x))
      modifies this, mem, mem.kpool.base, mem.vpool.base, mem.upool.base
      ensures Proper(old(Now()), x, Now()) && Backed()
    {
      LargeCase(Now(), x);
      hide *;
      DropArena(ArenaOf(x), arenas[ArenaOf(x)].cnt);
      live := live - {x};
    }

    static lemma LargeCase(h: Heap, x: nat)
      requires Inv(h) && Tight(h) && x in h.live && x / PAGE >= BASE && IsLarge(h, ArenaOf(x))
      ensures
        var a := ArenaOf(x);
        var n := h.arenas[a].cnt;
        && n > 0 && (forall p: nat :: a <= p < a + n ==> p in h.pages)
        && Proper(h, x, Heap(h.arenas - {a}, h.lists, h.live - {x}, h.pages - PagesOf(a, n)))
    {
      ReleaseCases(h, x);
      ReleasedKeeps(h, x);
      hide Inv, Tight, Released, PagesOf;
    }

    method FreeSmall(x: nat, k: nat)
      requires Valid() && x in live && x / PAGE >= BASE && IsSmall(Now(), ArenaOf(x), k)
      modifies this, mem, mem.kpool.base, mem.vpool.base, mem.upool.base
      ensures Proper(old(Now()), x, Now()) && Backed()
    {
      SmallCase(Now(), x, k);
      hide *;
      FreeBlock(x, ArenaOf(x), k);
    }

    static lemma SmallCase(h: Heap, x: nat, k: nat)
      requires Inv(h) && Tight(h) && x in h.live && x / PAGE >= BASE && IsSmall(h, ArenaOf(x), k)
      ensures k < CLASSES == |h.lists| && ArenaOf(x) in h.arenas && ArenaOf(x) in h.pages
      ensures Proper(h, x, SmallReleased(h, x, ArenaOf(x), k)) 
    {
      ReleaseCases(h, x);
      ReleasedKeeps(h, x);
      hide Inv, Tight, Released, PagesOf;
    }

    /** sys_free */
    method SysFree(x: nat)
      requires Valid() && x in live
      modifies this, mem, mem.kpool.base, mem.vpool.base, mem.upool.base
      ensures Now() == Released(old(Now()), x) && live == old(live) - {x}
      ensures Valid()
    {
      ReleaseCases(Now(), x);
      hide Inv, Tight, Released, BlocksPer, Backed, PagesOf, Unlinked;
      var a := ArenaOf(x);
      if arenas[a].desc == None && arenas[a].large {
        FreeLarge(x);
      } else {
        FreeSmall(x, arenas[a].desc.value);
      }
    }

    /** Which of its three ways sys_free(x) goes. */
    static lemma ReleaseCases(h: Heap, x: nat)
      requires Inv(h) && x in h.live
      ensures x / PAGE >= BASE && ArenaOf(x) in h.arenas && |h.lists| == CLASSES
      ensures
        var a := ArenaOf(x);
        var r := h.arenas[a];
        && (r.large <==> r.desc == None) && Released(h, x).live == h.live - {x}
        && (forall p: nat :: a <= p < a + SpanOf(r) ==> p in h.pages) && SpanOf(r) > 0
        && (r.desc == None ==> Released(h, x) == Heap(h.arenas - {a}, h.lists, h.live - {x}, h.pages - PagesOf(a, r.cnt)))
        && (r.desc.Some? ==>
              r.desc.value < CLASSES && a in h.pages && Released(h, x) == SmallReleased(h, x, a, r.desc.value))
    {
      hide PagesOf, BlocksPer, Unlinked, OnGrid;
      assert Housed(h, x);
      var a := ArenaOf(x);
      OwnPages(h, a);
      if h.arenas[a].desc == None {
        LargeAddress(h, x);
      } else {
        OnePageSet(a);
      }
    }

    static lemma OwnPages(h: Heap, a: nat)
      requires Counted(h) && Spread(h) && a in h.arenas
      ensures SpanOf(h.arenas[a]) > 0 && forall p: nat :: a <= p < a + SpanOf(h.arenas[a]) ==> p in h.pages
    {
      forall p: nat | a <= p < a + SpanOf(h.arenas[a]) ensures p in h.pages {
        assert Covers(h, a, p);
      }
    }

    static lemma OnePageSet(a: nat)
      ensures PagesOf(a, 1) == {a}
    {
      assert forall p: nat :: InSpan(p, a, 1) <==> p == a;
    }

    /** After any run of requests that gives everything back, both maps of pages are what they were at first. */
    lemma AllGivenBack()
      requires Valid() && live == map[]
      ensures arenas == map[] && forall k :: 0 <= k < |lists| ==> lists[k] == []
      ensures mem.Pools() && mem.State() == base
    {
      EmptyHeap(Now());
      NothingTaken(mem.State(), base);
    }
  }
}
