/** Allocation of the kernel's virtual pages and of page frames (src/kernel/memory.c). */
module PageStates {
  import opened Bitmaps

  /** `frames` gives the frame, counted from the start of the pool, behind each mapped heap page. */
  datatype PageState = PageState(vbits: seq<bool>, pbits: seq<bool>, frames: map<nat, nat>)

  /** A virtual bit is set exactly when the page is mapped; mapped pages have frames of their own, marked in the pool. */
  ghost predicate Paired(s: PageState) {
    && (forall i: nat :: i in s.frames <==> i < |s.vbits| && s.vbits[i])
    && Framed(s)
  }

  ghost predicate Framed(s: PageState) {
    && (forall i :: i in s.frames ==> s.frames[i] < |s.pbits| && s.pbits[s.frames[i]])
    && (forall i, j :: i in s.frames && j in s.frames && i != j ==> s.frames[i] != s.frames[j])
  }

  /** Bits a .. a + n become `value`. */
  ghost predicate Painted(bits: seq<bool>, now: seq<bool>, a: nat, n: nat, value: bool) {
    |now| == |bits| && forall i :: 0 <= i < |bits| ==> now[i] == if a <= i < a + n then value else bits[i]
  }

  /** Frame x stands behind one of the pages a .. a + n. */
  ghost predicate Uses(frames: map<nat, nat>, a: nat, n: nat, x: nat) {
    exists i :: a <= i < a + n && i in frames && frames[i] == x
  }

  /** Pages a .. a + n get frames that were free until now, one each. */
  ghost predicate Took(s: PageState, t: PageState, a: nat, n: nat) {
    && t.vbits == s.vbits && |t.pbits| == |s.pbits|
    && (forall i: nat :: i in t.frames <==> i in s.frames || a <= i < a + n)
    && (forall i :: i in s.frames && !(a <= i < a + n) ==> t.frames[i] == s.frames[i])
    && (forall i :: a <= i < a + n ==> t.frames[i] < |s.pbits| && !s.pbits[t.frames[i]])
    && (forall i, j :: a <= i < j < a + n ==> t.frames[i] != t.frames[j])
    && (forall x :: 0 <= x < |s.pbits| ==> (t.pbits[x] <==> s.pbits[x] || Uses(t.frames, a, n, x)))
  }

  /** Pages a .. a + n give their frames back. */
  ghost predicate Gave(s: PageState, t: PageState, a: nat, n: nat) {
    && t.vbits == s.vbits && |t.pbits| == |s.pbits|
    && (forall i :: a <= i < a + n ==> i in s.frames)
    && (forall i: nat :: i in t.frames <==> i in s.frames && !(a <= i < a + n))
    && (forall i :: i in t.frames ==> t.frames[i] == s.frames[i])
    && (forall x :: 0 <= x < |s.pbits| ==> (t.pbits[x] <==> s.pbits[x] && !Uses(s.frames, a, n, x)))
  }

  /** malloc_page of n pages, found at a. */
  ghost predicate Malloced(s: PageState, t: PageState, a: nat, n: nat) {
    && Painted(s.vbits, t.vbits, a, n, true)
    && Took(s, t.(vbits := s.vbits), a, n)
  }

  ghost predicate Freed(s: PageState, t: PageState, a: nat, n: nat) {
    && Painted(s.vbits, t.vbits, a, n, false)
    && Gave(s, t.(vbits := s.vbits), a, n)
  }

  /** free_page undoes malloc_page: both bitmaps and every mapping are what they were. */
  lemma FreeUndoesMalloc(s: PageState, t: PageState, u: PageState, a: nat, n: nat)
    requires Paired(s) && ClearRun(s.vbits, a, n)
    requires Malloced(s, t, a, n) && Freed(t, u, a, n)
    ensures u == s
  {
    assert u.vbits == s.vbits;
    forall x | 0 <= x < |s.pbits| ensures u.pbits[x] == s.pbits[x] {
      if s.pbits[x] {
        assert !Uses(t.frames, a, n, x);
      }
    }
    assert u.pbits == s.pbits;
    forall i: nat ensures i in u.frames <==> i in s.frames {
      if a <= i < a + n {
        assert !s.vbits[i];
      }
    }
    assert u.frames == s.frames;
  }

  lemma MallocedKeeps(s: PageState, t: PageState, a: nat, n: nat)
    requires Paired(s) && ClearRun(s.vbits, a, n) && Malloced(s, t, a, n)
    ensures Paired(t)
  {
    forall i, j | i in t.frames && j in t.frames && i != j ensures t.frames[i] != t.frames[j] {
    }
  }

  lemma FreedKeeps(s: PageState, t: PageState, a: nat, n: nat)
    requires Paired(s) && Freed(s, t, a, n)
    ensures Paired(t)
  {
    forall i | i in t.frames ensures t.frames[i] < |t.pbits| && t.pbits[t.frames[i]] {
      assert !Uses(s.frames, a, n, t.frames[i]);
    }
  }

  function ClearCount(bits: seq<bool>): nat {
    if bits == [] then 0 else (if bits[0] then 0 else 1) + ClearCount(bits[1..])
  }

  lemma {:induction false} ClearCountUpdate(bits: seq<bool>, i: nat)
    requires i < |bits| && !bits[i]
    ensures ClearCount(bits) > 0 && ClearCount(bits[i := true]) == ClearCount(bits) - 1
  {
    if i == 0 {
      assert bits[i := true][1..] == bits[1..];
    } else {
      ClearCountUpdate(bits[1..], i - 1);
      assert bits[i := true][1..] == bits[1..][i - 1 := true];
    }
  }

  lemma {:induction false} SomeClear(bits: seq<bool>)
    requires ClearCount(bits) > 0
    ensures exists i :: 0 <= i < |bits| && !bits[i]
  {
    if bits[0] {
      SomeClear(bits[1..]);
      var i :| 0 <= i < |bits[1..]| && !bits[1..][i];
      assert !bits[i + 1];
    }
  }

  lemma UsesOneMore(frames: map<nat, nat>, a: nat, n: nat, f: nat, x: nat)
    ensures Uses(frames[a + n := f], a, n + 1, x) <==> Uses(frames, a, n, x) || x == f
  {
    var now := frames[a + n := f];
    assert now[a + n] == f;
    if Uses(frames, a, n, x) {
      var i :| a <= i < a + n && i in frames && frames[i] == x;
      assert now[i] == x;
    }
  }

  /** One more page is taken after n. */
  lemma TookOneMore(s: PageState, t: PageState, u: PageState, a: nat, n: nat, f: nat)
    requires Took(s, t, a, n) && (a + n) !in s.frames && f < |t.pbits| && !t.pbits[f]
    requires u == PageState(t.vbits, t.pbits[f := true], t.frames[a + n := f])
    ensures Took(s, u, a, n + 1)
  {
    NewFrame(s, t, a, n, f);
    forall x | 0 <= x < |s.pbits| ensures u.pbits[x] <==> s.pbits[x] || Uses(u.frames, a, n + 1, x) {
      UsesOneMore(t.frames, a, n, f, x);
    }
    hide Uses;
  }

  lemma NewFrame(s: PageState, t: PageState, a: nat, n: nat, f: nat)
    requires Took(s, t, a, n) && f < |t.pbits| && !t.pbits[f]
    ensures !s.pbits[f] && forall i :: a <= i < a + n ==> t.frames[i] != f
  {
    forall i | a <= i < a + n ensures t.frames[i] != f {
      assert Uses(t.frames, a, n, t.frames[i]);
    }
  }

  lemma GaveOneMore(s: PageState, t: PageState, u: PageState, a: nat, n: nat)
    requires Framed(s) && Gave(s, t, a, n) && (a + n) in t.frames && t.frames[a + n] < |t.pbits|
    requires u == PageState(t.vbits, t.pbits[t.frames[a + n] := false], t.frames - {a + n})
    ensures Gave(s, u, a, n + 1)
  {
    forall x ensures Uses(s.frames, a, n + 1, x) <==> Uses(s.frames, a, n, x) || x == s.frames[a + n] {
      UsesOneMore(s.frames, a, n, s.frames[a + n], x);
      assert s.frames[a + n := s.frames[a + n]] == s.frames;
    }
    hide Uses;
  }
}

/** The code that maps, unmaps and allocates pages. */
module Memories {
  import opened Common
  import opened Bitmaps
  import opened PageTables
  import opened PageStates

  const HEAP: nat := 0xc0100  // K_HEAP_START, as a page number
  const LOW: nat := 768       // the first directory entry of the kernel

  class Memory {
    var ram: Ram
    var cr3: nat             // the frame of the active page directory
    const kstart: nat        // k_pool.phy_start, as a frame number
    const kpool: Bitmap
    const ustart: nat
    const upool: Bitmap
    const vpool: Bitmap      // k_vaddr_pool
    ghost var frames: map<nat, nat>

    constructor (ram: Ram, cr3: nat, kstart: nat, kpool: Bitmap, ustart: nat, upool: Bitmap, vpool: Bitmap, ghost frames: map<nat, nat>)
      ensures this.ram == ram && this.cr3 == cr3 && this.kstart == kstart && this.kpool == kpool
      ensures this.ustart == ustart && this.upool == upool && this.vpool == vpool && this.frames == frames
    {
      this.ram, this.cr3, this.kstart, this.kpool := ram, cr3, kstart, kpool;
      this.ustart, this.upool, this.vpool, this.frames := ustart, upool, vpool, frames;
    }

    /** mem_pool_init lays the pools out one after the other, each with a bitmap of its own. */
    ghost predicate Pools() {
      && kpool.Valid() && upool.Valid() && vpool.Valid()
      && kpool.base != upool.base && kpool.base != vpool.base && upool.base != vpool.base
      && kstart + 8 * kpool.len <= ustart && ustart + 8 * upool.len <= PAGES
    }

    /** *(uint32*)v */
    method Load(v: Word) returns (w: Word)
      requires v % 4 == 0 && Translate(ram, cr3, v).Some? && Translate(ram, cr3, v).value / PAGE_SIZE in ram
      ensures
        var p := Translate(ram, cr3, v).value;
        w == WordAt(ram, p / PAGE_SIZE, p % PAGE_SIZE / 4)
    {
      var p := Translate(ram, cr3, v).value;
      w := ram[p / PAGE_SIZE][p % PAGE_SIZE / 4];
    }

    /** *(uint32*)v = w */
    method Store(v: Word, w: Word)
      requires v % 4 == 0 && Translate(ram, cr3, v).Some? && Translate(ram, cr3, v).value / PAGE_SIZE in ram
      modifies this`ram
      ensures
        var p := Translate(old(ram), cr3, v).value;
        ram == WithWord(old(ram), p / PAGE_SIZE, p % PAGE_SIZE / 4, w)
    {
      var p := Translate(ram, cr3, v).value;
      ram := ram[p / PAGE_SIZE := ram[p / PAGE_SIZE][p % PAGE_SIZE / 4 := w]];
    }

    /** memset((void*)v, 0, PAGE_SIZE) */
    method ClearPage(v: Word)
      requires v % PAGE_SIZE == 0 && Translate(ram, cr3, v).Some?
      modifies this`ram
      ensures ram == old(ram)[Translate(old(ram), cr3, v).value / PAGE_SIZE := ZeroPage()]
    {
      ram := ram[Translate(ram, cr3, v).value / PAGE_SIZE := ZeroPage()];
    }

    /** get_page_phy: the first free frame of a pool. */
    method GetPagePhy(start: nat, pool: Bitmap) returns (f: nat)
      requires pool.Valid() && exists i :: 0 <= i < 8 * pool.len && !pool.Bits()[i]
      modifies pool.base
      ensures start <= f && FirstFit(old(pool.Bits()), 1, f - start)
      ensures f - start < 8 * pool.len && !old(pool.Bits())[f - start] && pool.Bits() == old(pool.Bits())[f - start := true]
    {
      hide BitsOf;
      ghost var bits, seen := pool.Bits(), pool.Seen();
      ghost var c :| 0 <= c < 8 * pool.len && !bits[c];
      assert ClearRun(seen, c, 1) && ClearRun(bits, c, 1);
      var r := pool.Scan(1);
      ScanIsFirstFitIff(seen, 1, r);
      assert ClearRun(bits, r, 1);
      pool.Set(r, true);
      f := start + r;
    }

    /** A free frame of the kernel pool can become a page table. */
    ghost predicate Spare(ram: Ram, dir: nat, lo: nat, hi: nat, f: nat) {
      f < PAGES && f in ram && f != dir && !IsTable(ram, dir, lo, hi, f)
    }

    static lemma EntryAddresses(ram: Ram, dir: nat, lo: nat, hi: nat, v: Word)
      requires Tables(ram, dir, lo, hi) && Within(v / PAGE_SIZE, lo, hi)
      ensures Translate(ram, dir, VaddrInPdt(v)).Some?
      ensures
        var p := Translate(ram, dir, VaddrInPdt(v)).value;
        p / PAGE_SIZE == dir && p % PAGE_SIZE / 4 == v / PAGE_SIZE / WORDS && dir in ram
      ensures Present(Pde(ram, dir, v / PAGE_SIZE)) <==> Translate(ram, dir, VaddrInPt(v)).Some?
      ensures Present(Pde(ram, dir, v / PAGE_SIZE)) ==>
        var p := Translate(ram, dir, VaddrInPt(v)).value;
        p / PAGE_SIZE == FrameOf(Pde(ram, dir, v / PAGE_SIZE)) && p % PAGE_SIZE / 4 == v / PAGE_SIZE % WORDS && p / PAGE_SIZE in ram
    {
      EntriesAreReached(ram, dir, v);
    }

    /** A page table can be had for page n. */
    ghost predicate CanAddTable(lo: nat, hi: nat)
      reads this, kpool.base
    {
      && kpool.Valid()
      && (exists i :: 0 <= i < 8 * kpool.len && !kpool.Bits()[i])
      && (forall i :: 0 <= i < 8 * kpool.len && !kpool.Bits()[i] ==> Spare(ram, cr3, lo, hi, kstart + i))
    }

    /** *pte = phy | PG_US_U | PG_RW_W | PG_P_1, behind the assertion that the page is not mapped. */
    method EnterPte(f: nat, v: Word, ghost lo: nat, ghost hi: nat)
      requires f < PAGES && Tables(ram, cr3, lo, hi) && Within(v / PAGE_SIZE, lo, hi)
      requires Present(Pde(ram, cr3, v / PAGE_SIZE)) && Lookup(ram, cr3, v / PAGE_SIZE) == None
      modifies this`ram
      ensures ram == Entered(old(ram), cr3, v / PAGE_SIZE, EntryFor(f))
    {
      EntryAddresses(ram, cr3, lo, hi, v);
      hide Translate, VaddrInPt, VaddrInPdt, EntryFor, Tables, Within;
      assert VaddrInPt(v) % 4 == 0 by { AlignedEntry(v); }
      var pte := Load(VaddrInPt(v));
      assert !Present(pte);
      Store(VaddrInPt(v), EntryFor(f));
    }

    static lemma AlignedEntry(v: Word)
      ensures VaddrInPt(v) % 4 == 0 && VaddrInPdt(v) % 4 == 0
    {
    }

    /** The page that holds v's entry, where the kernel sees it. */
    static function TablePage(v: Word): Word {
      VaddrInPt(v) - VaddrInPt(v) % PAGE_SIZE
    }

    /** Page table t is entered in the directory and cleared through its own mapping. */
    method InstallTable(v: Word, t: nat, ghost lo: nat, ghost hi: nat)
      requires Tables(ram, cr3, lo, hi) && Within(v / PAGE_SIZE, lo, hi) && !Present(Pde(ram, cr3, v / PAGE_SIZE))
      requires t < PAGES && t != cr3
      modifies this`ram
      ensures ram == Tabled(old(ram), cr3, v / PAGE_SIZE, t)
    {
      InstallAddresses(ram, cr3, lo, hi, v, t);
      hide Translate, VaddrInPdt, EntryFor, Tables, Within, TablePage, WithWord, Pde, Present, ZeroPage;
      Store(VaddrInPdt(v), EntryFor(t));
      ClearPage(TablePage(v));
    }

    static lemma InstallAddresses(ram: Ram, dir: nat, lo: nat, hi: nat, v: Word, t: nat)
      requires Tables(ram, dir, lo, hi) && Within(v / PAGE_SIZE, lo, hi) && t < PAGES && t != dir
      ensures VaddrInPdt(v) % 4 == 0 && TablePage(v) % PAGE_SIZE == 0
      ensures Translate(ram, dir, VaddrInPdt(v)).Some? && Translate(ram, dir, VaddrInPdt(v)).value / PAGE_SIZE in ram
      ensures
        var p := Translate(ram, dir, VaddrInPdt(v)).value;
        var mid := WithWord(ram, p / PAGE_SIZE, p % PAGE_SIZE / 4, EntryFor(t));
        && mid[t := ZeroPage()] == Tabled(ram, dir, v / PAGE_SIZE, t)
        && Translate(mid, dir, TablePage(v)).Some? && Translate(mid, dir, TablePage(v)).value / PAGE_SIZE == t
    {
      EntryAddresses(ram, dir, lo, hi, v);
      AlignedEntry(v);
      FreshTableReached(ram, dir, lo, hi, v, t);
      hide Translate, VaddrInPt, VaddrInPdt, EntryFor, Tables, TablePage, WithWord, Pde, Present, ZeroPage;
    }

    /** A new page table, from the kernel pool. */
    method AddTable(v: Word, ghost lo: nat, ghost hi: nat) returns (t: nat)
      requires Tables(ram, cr3, lo, hi) && Within(v / PAGE_SIZE, lo, hi) && !Present(Pde(ram, cr3, v / PAGE_SIZE))
      requires CanAddTable(lo, hi)
      modifies this`ram, kpool.base
      ensures kstart <= t && t - kstart < 8 * kpool.len && !old(kpool.Bits())[t - kstart]
      ensures kpool.Bits() == old(kpool.Bits())[t - kstart := true]
      ensures Spare(old(ram), cr3, lo, hi, t) && ram == Tabled(old(ram), cr3, v / PAGE_SIZE, t)
    {
      hide BitsOf, IsTable, Tables, Within, Pde, Tabled;
      ghost var was := ram;
      t := GetPagePhy(kstart, kpool);
      assert Spare(was, cr3, lo, hi, kstart + (t - kstart));
      InstallTable(v, t, lo, hi);
    }

    /**
     phy_vaddr_page_bind: frame f is entered for the page of v; `t` is the frame of its page table, if
     that is new.
     */
    method Bind(f: nat, v: Word, ghost lo: nat, ghost hi: nat) returns (ghost t: nat)
      requires Pools() && f < PAGES && v % PAGE_SIZE == 0
      requires Tables(ram, cr3, lo, hi) && Within(v / PAGE_SIZE, lo, hi) && Lookup(ram, cr3, v / PAGE_SIZE) == None
      requires !Present(Pde(ram, cr3, v / PAGE_SIZE)) ==> CanAddTable(lo, hi)
      modifies this`ram, kpool.base
      ensures t < PAGES
      ensures Present(Pde(old(ram), cr3, v / PAGE_SIZE)) ==>
        ram == Entered(old(ram), cr3, v / PAGE_SIZE, EntryFor(f)) && kpool.Bits() == old(kpool.Bits())
      ensures !Present(Pde(old(ram), cr3, v / PAGE_SIZE)) ==>
        && kstart <= t && t - kstart < 8 * kpool.len && !old(kpool.Bits())[t - kstart]
        && kpool.Bits() == old(kpool.Bits())[t - kstart := true] && Spare(old(ram), cr3, lo, hi, t)
        && ram == Entered(Tabled(old(ram), cr3, v / PAGE_SIZE, t), cr3, v / PAGE_SIZE, EntryFor(f))
    {
      t := 0;
      ghost var was, n := ram, v / PAGE_SIZE;
      EntryAddresses(ram, cr3, lo, hi, v);
      AlignedEntry(v);
      hide Translate, VaddrInPt, VaddrInPdt, EntryFor, Tables, IsTable, Lookup, Tabled, Entered, BitsOf, Within, CanAddTable, Spare;
      var pde := Load(VaddrInPdt(v));
      assert pde == Pde(ram, cr3, n);
      hide Pde;
      if !Present(pde) {
        var table := AddTable(v, lo, hi);
        t := table;
        TableAdded(was, cr3, lo, hi, n, t);
      }
      EnterPte(f, v, lo, hi);
    }

    lemma TableAdded(ram: Ram, dir: nat, lo: nat, hi: nat, n: nat, t: nat)
      requires Tables(ram, dir, lo, hi) && Within(n, lo, hi) && !Present(Pde(ram, dir, n)) && Spare(ram, dir, lo, hi, t)
      ensures
        var r := Tabled(ram, dir, n, t);
        Tables(r, dir, lo, hi) && Present(Pde(r, dir, n)) && Lookup(r, dir, n) == None
    {
      TabledTables(ram, dir, lo, hi, n, t);
      TabledLookup(ram, dir, lo, hi, n, t, n);
    }

    /** Once the directory names table t, the page that holds v's entry is t itself. */
    static lemma FreshTableReached(ram: Ram, dir: nat, lo: nat, hi: nat, v: Word, t: nat)
      requires Tables(ram, dir, lo, hi) && Within(v / PAGE_SIZE, lo, hi) && t < PAGES && t != dir
      ensures TablePage(v) % PAGE_SIZE == 0
      ensures Translate(WithWord(ram, dir, v / PAGE_SIZE / WORDS, EntryFor(t)), dir, TablePage(v)) == Some(t * PAGE_SIZE)
    {
      var mid := WithWord(ram, dir, v / PAGE_SIZE / WORDS, EntryFor(t));
      assert SelfMapped(mid, dir) && Pde(mid, dir, v / PAGE_SIZE) == EntryFor(t);
      EntriesAreReached(mid, dir, v);
      PageOf(VaddrInPt(v), v);
      hide VaddrInPt, EntryFor, Tables, WithWord, Pde, SelfMapped, Lookup;
    }

    static lemma PageOf(q: Word, v: Word)
      requires q == VaddrInPt(v)
      ensures (q - q % PAGE_SIZE) % PAGE_SIZE == 0 && (q - q % PAGE_SIZE) / PAGE_SIZE == q / PAGE_SIZE
      ensures q % PAGE_SIZE == v / PAGE_SIZE % WORDS * 4
    {
    }

    /** get_a_page_without_opvaddrbitmap for a process: a frame of the user pool is bound to the page of v. */
    method GetUserPage(v: Word, ghost lo: nat, ghost hi: nat) returns (f: nat, ghost t: nat)
      requires Pools() && v % PAGE_SIZE == 0 && exists i :: 0 <= i < 8 * upool.len && !upool.Bits()[i]
      requires Tables(ram, cr3, lo, hi) && Within(v / PAGE_SIZE, lo, hi) && Lookup(ram, cr3, v / PAGE_SIZE) == None
      requires !Present(Pde(ram, cr3, v / PAGE_SIZE)) ==> CanAddTable(lo, hi)
      modifies this`ram, kpool.base, upool.base
      ensures ustart <= f && f - ustart < 8 * upool.len && !old(upool.Bits())[f - ustart]
      ensures upool.Bits() == old(upool.Bits())[f - ustart := true] && t < PAGES && f < PAGES
      ensures Present(Pde(old(ram), cr3, v / PAGE_SIZE)) ==>
        ram == Entered(old(ram), cr3, v / PAGE_SIZE, EntryFor(f)) && kpool.Bits() == old(kpool.Bits())
      ensures !Present(Pde(old(ram), cr3, v / PAGE_SIZE)) ==>
        && kstart <= t && t - kstart < 8 * kpool.len && !old(kpool.Bits())[t - kstart]
        && kpool.Bits() == old(kpool.Bits())[t - kstart := true]
        && ram == Entered(Tabled(old(ram), cr3, v / PAGE_SIZE, t), cr3, v / PAGE_SIZE, EntryFor(f))
    {
      hide Tables, IsTable, Lookup, Pde, Entered, Tabled, EntryFor, BitsOf, FirstFit;
      f := GetPagePhy(ustart, upool);
      t := Bind(f, v, lo, hi);
    }

    // ----- the kernel's heap pages -----

    /** setup_page_table gives the kernel all its page tables, below the frames of the pools. */
    static ghost predicate KernelTables(ram: Ram, dir: nat, kstart: nat) {
      && Tables(ram, dir, LOW, SELF) && dir < kstart
      && (forall i :: LOW <= i < SELF ==> Present(WordAt(ram, dir, i)) && FrameOf(WordAt(ram, dir, i)) < kstart)
    }

    /** The frame of heap page i. */
    static ghost function HeapFrame(ram: Ram, dir: nat, i: nat): Option<nat>
      requires HEAP + i < SELF * WORDS
    {
      Lookup(ram, dir, HEAP + i)
    }

    static ghost predicate Mirrored(ram: Ram, dir: nat, kstart: nat, pages: nat, frames: map<nat, nat>) {
      && HEAP + pages <= SELF * WORDS
      && (forall i :: 0 <= i < pages ==> HeapFrame(ram, dir, i) == if i in frames then Some(kstart + frames[i]) else None)
    }

    ghost function State(): PageState
      reads this, kpool.base, vpool.base
      requires Pools()
    {
      PageState(vpool.Bits(), kpool.Bits(), frames)
    }

    /** Page tables as the frames say, and a set bit right after the map of virtual pages. */
    ghost predicate Mapping()
      reads this, kpool.base, vpool.base
    {
      && Pools() && KernelTables(ram, cr3, kstart) && Mirrored(ram, cr3, kstart, 8 * vpool.len, frames)
      && vpool.Seen()[8 * vpool.len]
    }

    ghost predicate Valid()
      reads this, kpool.base, vpool.base
    {
      Mapping() && Paired(State())
    }

    /** No page frame of the pools has changed its contents. */
    static ghost predicate SameData(r: Ram, q: Ram, kstart: nat) {
      forall f :: f >= kstart ==> (f in q <==> f in r) && (f in r ==> q[f] == r[f])
    }

    static lemma TablesStay(ram: Ram, dir: nat, kstart: nat, n: nat, w: Word)
      requires KernelTables(ram, dir, kstart) && Within(n, LOW, SELF)
      ensures KernelTables(Entered(ram, dir, n, w), dir, kstart) && SameData(ram, Entered(ram, dir, n, w), kstart)
    {
      assert Present(Pde(ram, dir, n)) && FrameOf(Pde(ram, dir, n)) < kstart;
      EnteredTables(ram, dir, LOW, SELF, n, w);
      hide Tables, Present, FrameOf, Pte;
    }

    /** An entry of a heap page is changed: all other heap pages, and all contents, stay. */
    static lemma EntryChanged(ram: Ram, dir: nat, kstart: nat, pages: nat, frames: map<nat, nat>, i: nat, w: Word, now: map<nat, nat>)
      requires KernelTables(ram, dir, kstart) && Mirrored(ram, dir, kstart, pages, frames) && i < pages
      requires now == if Present(w) && FrameOf(w) >= kstart then frames[i := FrameOf(w) - kstart] else frames - {i}
      requires Present(w) ==> FrameOf(w) >= kstart
      ensures
        var r := Entered(ram, dir, HEAP + i, w);
        KernelTables(r, dir, kstart) && Mirrored(r, dir, kstart, pages, now) && SameData(ram, r, kstart)
    {
      hide Entered, HeapFrame, SameData, KernelTables;
      TablesStay(ram, dir, kstart, HEAP + i, w);
      forall j | 0 <= j < pages
        ensures HeapFrame(Entered(ram, dir, HEAP + i, w), dir, j) == if j in now then Some(kstart + now[j]) else None
      {
        HeapLookup(ram, dir, kstart, i, w, j);
        assert HeapFrame(ram, dir, j) == if j in frames then Some(kstart + frames[j]) else None;
      }
    }

    static lemma HeapLookup(ram: Ram, dir: nat, kstart: nat, i: nat, w: Word, j: nat)
      requires KernelTables(ram, dir, kstart) && HEAP + i < SELF * WORDS && HEAP + j < SELF * WORDS
      ensures
        HeapFrame(Entered(ram, dir, HEAP + i, w), dir, j) ==
        if i == j then if Present(w) then Some(FrameOf(w)) else None else HeapFrame(ram, dir, j)
    {
      hide Lookup, Entered, Tables;
      assert Present(Pde(ram, dir, HEAP + i));
      EnteredLookup(ram, dir, LOW, SELF, HEAP + i, w, HEAP + j);
    }

    static lemma FirstFitIsLeast(bits: seq<bool>, r: nat)
      requires FirstFit(bits, 1, r)
      ensures forall x :: 0 <= x < r && x < |bits| ==> bits[x]
    {
      forall x | 0 <= x < r && x < |bits| ensures bits[x] {
        assert !ClearRun(bits, x, 1);
      }
    }

    /** get_page_phy and phy_vaddr_page_bind for heap page i. */
    method MapPage(i: nat)
      requires Mapping() && i < 8 * vpool.len && i !in frames && ClearCount(kpool.Bits()) > 0
      modifies this`ram, this`frames, kpool.base
      ensures Mapping() && SameData(old(ram), ram, kstart) && ClearCount(kpool.Bits()) == ClearCount(old(kpool.Bits())) - 1
      ensures i in frames && frames[i] < 8 * kpool.len && !old(kpool.Bits())[frames[i]]
      ensures forall x :: 0 <= x < frames[i] ==> old(kpool.Bits())[x]
      ensures frames == old(frames)[i := frames[i]] && kpool.Bits() == old(kpool.Bits())[frames[i] := true]
    {
      hide Tables, Lookup, BitsOf;
      SomeClear(kpool.Bits());
      assert Within(HEAP + i, LOW, SELF);
      ghost var was, bits, mirror := ram, kpool.Bits(), frames;
      var f := GetPagePhy(kstart, kpool);
      FirstFitIsLeast(bits, f - kstart);
      ClearCountUpdate(bits, f - kstart);
      EntryChanged(was, cr3, kstart, 8 * vpool.len, mirror, i, EntryFor(f), mirror[i := f - kstart]);
      ghost var t := Bind(f, (HEAP + i) * PAGE_SIZE, LOW, SELF);
      frames := frames[i := f - kstart];
    }

    /** get_page_vaddr: the first run of virtual pages, or -1. */
    method GetPageVaddr(count: nat) returns (a: int)
      requires vpool.Valid() && vpool.Seen()[8 * vpool.len] && count > 0
      requires exists i :: 0 <= i < 8 * vpool.len && !vpool.Bits()[i]
      modifies vpool.base
      ensures FirstFit(old(vpool.Bits()), count, a) && vpool.Seen()[8 * vpool.len]
      ensures a == -1 ==> vpool.Bits() == old(vpool.Bits())
      ensures a != -1 ==> Painted(old(vpool.Bits()), vpool.Bits(), a, count, true)
    {
      hide BitsOf;
      ghost var was := vpool.Bits();
      var r := vpool.Scan(count);
      SentinelMakesScanExact(vpool.Seen(), count, r);
      assert vpool.Seen()[..8 * vpool.len] == was;
      a := r;
      if r == -1 {
        return;
      }
      var i: nat := 0;
      while i < count
        invariant i <= count && Painted(was, vpool.Bits(), r, i, true) && vpool.Seen()[8 * vpool.len]
      {
        vpool.Set(r + i, true);
        i := i + 1;
      }
    }

    /**
     malloc_page for the kernel: the first run of free virtual pages, each bound to a free frame. The
     source asserts that neither map is full when it is searched, so enough frames are asked for.
     */
    method MallocPage(count: nat) returns (a: int)
      requires Valid() && 0 < count <= ClearCount(kpool.Bits())
      requires exists i :: 0 <= i < 8 * vpool.len && !vpool.Bits()[i]
      modifies this`ram, this`frames, kpool.base, vpool.base
      ensures FirstFit(old(vpool.Bits()), count, a) && SameData(old(ram), ram, kstart)
      ensures a == -1 ==> State() == old(State())
      ensures a != -1 ==> Malloced(old(State()), State(), a, count) && Lowest(State(), a, count)
      ensures Valid()
    {
      hide BitsOf, KernelTables, Mirrored, Painted, Took, Framed;
      ghost var s := State();
      a := GetPageVaddr(count);
      if a == -1 {
        return;
      }
      ghost var t := State();
      var i: nat := 0;
      StartTaking(s, t, a);
      assert Lowest(t, a, 0);
      while i < count
        invariant 0 <= i <= count && Mapping() && SameData(old(ram), ram, kstart)
        invariant Taking(s, State(), a, i) && Lowest(State(), a, i) && vpool.Bits() == t.vbits && count - i <= ClearCount(kpool.Bits())
      {
        NotYetTaken(s, State(), a, i, count);
        ghost var u := State();
        MapPage(a + i);
        TakenOneMore(s, u, State(), a, i, frames[a + i]);
        LowestOneMore(u, State(), a, i);
        i := i + 1;
      }
      EndTaking(s, State(), a, count);
    }

    /** The frames taken lie below every frame that is still free. */
    static ghost predicate Lowest(t: PageState, a: int, n: nat) {
      a >= 0 && forall i, x :: a <= i < a + n && 0 <= x < |t.pbits| && !t.pbits[x] ==> i in t.frames && t.frames[i] < x
    }

    static lemma LowestOneMore(t: PageState, u: PageState, a: int, n: nat)
      requires Lowest(t, a, n) && a >= 0 && (a + n) in u.frames && u.frames[a + n] < |t.pbits|
      requires u.frames == t.frames[a + n := u.frames[a + n]] && u.pbits == t.pbits[u.frames[a + n] := true]
      requires forall x :: 0 <= x < u.frames[a + n] ==> t.pbits[x]
      ensures Lowest(u, a, n + 1)
    {
    }

    static ghost predicate Taking(s: PageState, t: PageState, a: int, n: nat) {
      a >= 0 && Took(s, t.(vbits := s.vbits), a, n)
    }

    static lemma StartTaking(s: PageState, t: PageState, a: int)
      requires a >= 0 && t.pbits == s.pbits && t.frames == s.frames
      ensures Taking(s, t, a, 0)
    {
    }

    static lemma NotYetTaken(s: PageState, t: PageState, a: int, n: nat, count: nat)
      requires Paired(s) && ClearRun(s.vbits, a, count) && n < count && Taking(s, t, a, n)
      ensures a + n < |s.vbits| && (a + n) !in t.frames && (a + n) !in s.frames
    {
    }

    static lemma TakenOneMore(s: PageState, t: PageState, u: PageState, a: int, n: nat, f: nat)
      requires Taking(s, t, a, n) && (a + n) !in s.frames && f < |t.pbits| && !t.pbits[f]
      requires u.pbits == t.pbits[f := true] && u.frames == t.frames[a + n := f]
      ensures Taking(s, u, a, n + 1)
    {
      TookOneMore(s, t.(vbits := s.vbits), u.(vbits := s.vbits), a, n, f);
    }

    static lemma EndTaking(s: PageState, t: PageState, a: int, n: nat)
      requires Paired(s) && ClearRun(s.vbits, a, n) && Taking(s, t, a, n) && Painted(s.vbits, t.vbits, a, n, true)
      ensures Malloced(s, t, a, n) && Paired(t)
    {
      MallocedKeeps(s, t, a, n);
    }

    /** free_page_phy */
    method FreePagePhy(f: nat)
      requires Pools()
      requires if f >= ustart then f - ustart < 8 * upool.len else kstart <= f && f - kstart < 8 * kpool.len
      modifies kpool.base, upool.base
      ensures f >= ustart ==> upool.Bits() == old(upool.Bits())[f - ustart := false] && kpool.Bits() == old(kpool.Bits())
      ensures f < ustart ==> kpool.Bits() == old(kpool.Bits())[f - kstart := false] && upool.Bits() == old(upool.Bits())
    {
      if f >= ustart {
        upool.Set(f - ustart, false);
      } else {
        kpool.Set(f - kstart, false);
      }
    }

    /** addr_v2p, free_page_phy and page_table_pte_remove for heap page i. */
    method UnmapPage(i: nat)
      requires Mapping() && i < 8 * vpool.len && i in frames && frames[i] < 8 * kpool.len
      modifies this`ram, this`frames, kpool.base, upool.base
      ensures Mapping() && SameData(old(ram), ram, kstart)
      ensures frames == old(frames) - {i} && kpool.Bits() == old(kpool.Bits())[old(frames)[i] := false]
      ensures upool.Bits() == old(upool.Bits())
    {
      hide BitsOf, Tables;
      ghost var was, mirror, n := ram, frames, HEAP + i;
      var v := (HEAP + i) * PAGE_SIZE;
      assert Within(n, LOW, SELF) && HeapFrame(ram, cr3, i) == Some(kstart + frames[i]);
      MappedEntry(ram, cr3, n);
      EntryAddresses(ram, cr3, LOW, SELF, v);
      AlignedEntry(v);
      var pte := Load(VaddrInPt(v));
      assert pte == Pte(ram, cr3, n);
      EntryChanged(was, cr3, kstart, 8 * vpool.len, mirror, i, Cleared(pte), mirror - {i});
      hide VaddrInPt, Translate, Lookup, KernelTables, Cleared;
      FreePagePhy(FrameOf(pte));
      Store(VaddrInPt(v), Cleared(pte));
      frames := frames - {i};
    }

    static lemma MappedEntry(ram: Ram, dir: nat, n: nat)
      requires n < PAGES && Lookup(ram, dir, n).Some?
      ensures Present(Pde(ram, dir, n)) && FrameOf(Pte(ram, dir, n)) == Lookup(ram, dir, n).value
      ensures Pte(ram, dir, n) == WordAt(ram, FrameOf(Pde(ram, dir, n)), n % WORDS)
    {
    }

    /** vaddr_remove */
    method VaddrRemove(a: nat, count: nat)
      requires vpool.Valid() && a + count <= 8 * vpool.len && vpool.Seen()[8 * vpool.len]
      modifies vpool.base
      ensures Painted(old(vpool.Bits()), vpool.Bits(), a, count, false) && vpool.Seen()[8 * vpool.len]
    {
      hide BitsOf;
      ghost var was := vpool.Bits();
      var i: nat := 0;
      while i < count
        invariant i <= count && Painted(was, vpool.Bits(), a, i, false) && vpool.Seen()[8 * vpool.len]
      {
        vpool.Set(a + i, false);
        i := i + 1;
      }
    }

    /** free_page for the kernel: every frame goes back to the pool it came from, and every page is unmapped. */
    method FreePage(a: nat, count: nat)
      requires Valid() && count > 0 && forall i :: a <= i < a + count ==> i in frames
      modifies this`ram, this`frames, kpool.base, upool.base, vpool.base
      ensures Freed(old(State()), State(), a, count) && SameData(old(ram), ram, kstart)
      ensures upool.Bits() == old(upool.Bits())
      ensures Valid()
    {
      hide BitsOf, KernelTables, Mirrored, Painted, Gave;
      ghost var s := State();
      var i: nat := 0;
      StartGiving(s, a);
      assert a + count - 1 in frames && a + count <= |s.vbits|;
      while i < count
        invariant 0 <= i <= count && Mapping() && SameData(old(ram), ram, kstart)
        invariant Gave(s, State(), a, i) && vpool.Bits() == s.vbits && upool.Bits() == old(upool.Bits())
      {
        ghost var u := State();
        NotYetGiven(s, u, a, i, count);
        UnmapPage(a + i);
        GaveOneMore(s, u, State(), a, i);
        i := i + 1;
      }
      VaddrRemove(a, count);
      EndGiving(s, State(), a, count);
    }

    static lemma StartGiving(s: PageState, a: nat)
      ensures Gave(s, s, a, 0)
    {
    }

    static lemma NotYetGiven(s: PageState, t: PageState, a: nat, n: nat, count: nat)
      requires Paired(s) && Gave(s, t, a, n) && n < count && forall i :: a <= i < a + count ==> i in s.frames
      ensures a + n < |s.vbits| && (a + n) in t.frames && t.frames[a + n] < |t.pbits|
    {
    }

    static lemma EndGiving(s: PageState, t: PageState, a: nat, n: nat)
      requires Paired(s) && Gave(s, t.(vbits := s.vbits), a, n) && Painted(s.vbits, t.vbits, a, n, false)
      ensures Freed(s, t, a, n) && Paired(t)
    {
      FreedKeeps(s, t, a, n);
    }
  }
}
