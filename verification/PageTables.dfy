/**
 Two-level page tables that map themselves (src/kernel/memory.c).

 Physical memory is a map from frame numbers to pages of 1024 words; `dir` is the frame of the page
 directory, which its own last entry names. Masks and shifts by powers of two are written as
 division and remainder on unsigned words.
 */
module PageTables {
  import opened Common

  const PAGE_SIZE: nat := 0x1000
  const WORDS: nat := 1024
  const PAGES: nat := 0x10_0000
  const SELF: nat := 1023  // the directory entry that names the directory

  type Word = w: int | 0 <= w < 0x1_0000_0000
  type Page = s: seq<Word> | |s| == WORDS witness seq(WORDS, _ => 0)
  type Ram = map<nat, Page>

  function VaddrInPdt(v: Word): Word {
    0xffff_f000 + v / 0x40_0000 * 4
  }

  function VaddrInPt(v: Word): Word {
    0xffc0_0000 + v / 0x40_0000 * 0x1000 + v / 0x1000 % 0x400 * 4
  }

  /** Where the entry for v's page table is mapped is where the entry for the address of v's entry is. */
  lemma PdtIsPtOfPt(v: Word)
    ensures VaddrInPdt(v) == VaddrInPt(VaddrInPt(v))
  {
    assert VaddrInPt(v) / 0x40_0000 == 1023 && VaddrInPt(v) / 0x1000 % 0x400 == v / 0x40_0000;
  }

  lemma VaddrInPtInjective(v: Word, w: Word)
    ensures VaddrInPt(v) == VaddrInPt(w) <==> v / 0x1000 == w / 0x1000
  {
    assert v / 0x1000 == v / 0x40_0000 * 0x400 + v / 0x1000 % 0x400;
    assert w / 0x1000 == w / 0x40_0000 * 0x400 + w / 0x1000 % 0x400;
  }

  // ----- entries -----

  predicate Present(w: Word) {
    w % 2 == 1
  }

  function FrameOf(w: Word): nat {
    w / 0x1000
  }

  /** phy | PG_US_U | PG_RW_W | PG_P_1 */
  function EntryFor(f: nat): (w: Word)
    requires f < PAGES
    ensures Present(w) && FrameOf(w) == f
  {
    f * 0x1000 + 7
  }

  /** *pte &= ~PG_P_1 */
  function Cleared(w: Word): (c: Word)
    ensures !Present(c)
  {
    w - w % 2
  }

  function WordAt(ram: Ram, f: nat, i: nat): Word
    requires i < WORDS
  {
    if f in ram then ram[f][i] else 0
  }

  function WithWord(ram: Ram, f: nat, i: nat, w: Word): Ram
    requires i < WORDS
  {
    if f in ram then ram[f := ram[f][i := w]] else ram
  }

  function Pde(ram: Ram, dir: nat, n: nat): Word
    requires n < PAGES
  {
    WordAt(ram, dir, n / WORDS)
  }

  function Pte(ram: Ram, dir: nat, n: nat): Word
    requires n < PAGES
  {
    if Present(Pde(ram, dir, n)) then WordAt(ram, FrameOf(Pde(ram, dir, n)), n % WORDS) else 0
  }

  /** The frame of virtual page n. */
  function Lookup(ram: Ram, dir: nat, n: nat): Option<nat>
    requires n < PAGES
  {
    if Present(Pte(ram, dir, n)) then Some(FrameOf(Pte(ram, dir, n))) else None
  }

  /** The physical address of v, as the processor finds it. */
  function Translate(ram: Ram, dir: nat, v: Word): Option<nat> {
    match Lookup(ram, dir, v / PAGE_SIZE)
    case None => None
    case Some(f) => Some(f * PAGE_SIZE + v % PAGE_SIZE)
  }

  ghost predicate SelfMapped(ram: Ram, dir: nat) {
    dir < PAGES && dir in ram && ram[dir][SELF] == EntryFor(dir)
  }

  /** Through the two addresses the kernel reaches the directory entry and the page-table entry of v. */
  lemma EntriesAreReached(ram: Ram, dir: nat, v: Word)
    requires SelfMapped(ram, dir)
    ensures Translate(ram, dir, VaddrInPdt(v)) == Some(dir * PAGE_SIZE + v / PAGE_SIZE / WORDS * 4)
    ensures
      var d := Pde(ram, dir, v / PAGE_SIZE);
      Translate(ram, dir, VaddrInPt(v)) ==
      if Present(d) then Some(FrameOf(d) * PAGE_SIZE + v / PAGE_SIZE % WORDS * 4) else None
  {
    var p, q := VaddrInPdt(v), VaddrInPt(v);
    assert p / PAGE_SIZE == SELF * WORDS + SELF && p % PAGE_SIZE == v / PAGE_SIZE / WORDS * 4;
    assert q / PAGE_SIZE == SELF * WORDS + v / PAGE_SIZE / WORDS && q % PAGE_SIZE == v / PAGE_SIZE % WORDS * 4;
    assert Pde(ram, dir, q / PAGE_SIZE) == EntryFor(dir) && Pde(ram, dir, p / PAGE_SIZE) == EntryFor(dir);
    assert Pte(ram, dir, q / PAGE_SIZE) == Pde(ram, dir, v / PAGE_SIZE);
  }

  // ----- a range of directory entries whose tables are its own -----

  /** The tables of entries lo .. hi are real, distinct, and none of them is the directory. */
  ghost predicate Tables(ram: Ram, dir: nat, lo: nat, hi: nat) {
    && SelfMapped(ram, dir) && hi <= SELF
    && (forall i :: lo <= i < hi && Present(WordAt(ram, dir, i)) ==> FrameOf(WordAt(ram, dir, i)) in ram && FrameOf(WordAt(ram, dir, i)) != dir)
    && (forall i, j :: lo <= i < hi && lo <= j < hi && i != j && Present(WordAt(ram, dir, i)) && Present(WordAt(ram, dir, j)) ==>
          FrameOf(WordAt(ram, dir, i)) != FrameOf(WordAt(ram, dir, j)))
  }

  ghost predicate IsTable(ram: Ram, dir: nat, lo: nat, hi: nat, f: nat) {
    exists i :: lo <= i < hi && i < WORDS && Present(WordAt(ram, dir, i)) && FrameOf(WordAt(ram, dir, i)) == f
  }

  ghost predicate Within(n: nat, lo: nat, hi: nat) {
    n < PAGES && lo <= n / WORDS < hi
  }

  function ZeroPage(): Page {
    seq(WORDS, _ => 0)
  }

  /** The directory gets a cleared table for page n. */
  function Tabled(ram: Ram, dir: nat, n: nat, t: nat): Ram
    requires n < PAGES && t < PAGES
  {
    WithWord(ram, dir, n / WORDS, EntryFor(t))[t := ZeroPage()]
  }

  /** The entry of page n becomes w. */
  function Entered(ram: Ram, dir: nat, n: nat, w: Word): Ram
    requires n < PAGES
  {
    WithWord(ram, FrameOf(Pde(ram, dir, n)), n % WORDS, w)
  }

  lemma TabledTables(ram: Ram, dir: nat, lo: nat, hi: nat, n: nat, t: nat)
    requires Tables(ram, dir, lo, hi) && Within(n, lo, hi) && !Present(Pde(ram, dir, n))
    requires t < PAGES && t in ram && t != dir && !IsTable(ram, dir, lo, hi, t)
    ensures Tables(Tabled(ram, dir, n, t), dir, lo, hi) && Present(Pde(Tabled(ram, dir, n, t), dir, n))
    ensures FrameOf(Pde(Tabled(ram, dir, n, t), dir, n)) == t
  {
    var r := Tabled(ram, dir, n, t);
    forall i | 0 <= i < WORDS ensures WordAt(r, dir, i) == if i == n / WORDS then EntryFor(t) else WordAt(ram, dir, i) {
    }
    hide EntryFor;
  }

  lemma TabledLookup(ram: Ram, dir: nat, lo: nat, hi: nat, n: nat, t: nat, m: nat)
    requires Tables(ram, dir, lo, hi) && Within(n, lo, hi) && !Present(Pde(ram, dir, n)) && Within(m, lo, hi)
    requires t < PAGES && t in ram && t != dir && !IsTable(ram, dir, lo, hi, t)
    ensures Lookup(Tabled(ram, dir, n, t), dir, m) == Lookup(ram, dir, m)
  {
  }

  lemma EnteredTables(ram: Ram, dir: nat, lo: nat, hi: nat, n: nat, w: Word)
    requires Tables(ram, dir, lo, hi) && Within(n, lo, hi) && Present(Pde(ram, dir, n))
    ensures Tables(Entered(ram, dir, n, w), dir, lo, hi)
    ensures forall i :: 0 <= i < WORDS ==> WordAt(Entered(ram, dir, n, w), dir, i) == WordAt(ram, dir, i)
  {
    var r := Entered(ram, dir, n, w);
    forall i | 0 <= i < WORDS ensures WordAt(r, dir, i) == WordAt(ram, dir, i) {
    }
  }

  lemma EnteredLookup(ram: Ram, dir: nat, lo: nat, hi: nat, n: nat, w: Word, m: nat)
    requires Tables(ram, dir, lo, hi) && Within(n, lo, hi) && Present(Pde(ram, dir, n)) && Within(m, lo, hi)
    ensures Lookup(Entered(ram, dir, n, w), dir, m) ==
            if m == n then if Present(w) then Some(FrameOf(w)) else None else Lookup(ram, dir, m)
  {
  }

  /** The lookups of a directory depend on it and its tables only. */
  lemma LookupFrame(ram: Ram, ram': Ram, dir: nat, m: nat)
    requires m < PAGES && dir in ram && dir in ram' && ram'[dir] == ram[dir]
    requires
      Present(Pde(ram, dir, m)) ==>
        var t := FrameOf(Pde(ram, dir, m));
        (t in ram' <==> t in ram) && (t in ram ==> ram'[t] == ram[t])
    ensures Lookup(ram', dir, m) == Lookup(ram, dir, m)
  {
  }
}
