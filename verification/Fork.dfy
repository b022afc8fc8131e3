/** Fork's copy of the parent's pages (copy_body_stack3 in src/kernel/fork.c). */
module ForkStates {
  import opened Common
  import opened PageTables

  const USER: nat := 768  // the directory entries below it belong to the process

  /** The page behind virtual page n of a process. */
  ghost function PageAt(ram: Ram, dir: nat, n: nat): Page
    requires n < PAGES
  {
    var f := Lookup(ram, dir, n);
    if f.Some? && f.value in ram then ram[f.value] else ZeroPage()
  }

  /** The copy of page n of the parent stands in frame g, which was free before the fork. */
  ghost predicate Copied(was: Ram, parent: nat, n: nat, free: set<nat>, left: set<nat>, ram: Ram, child: nat, g: Option<nat>)
    requires n < PAGES
  {
    g.Some? && g.value in free && g.value !in left && g.value in ram && ram[g.value] == PageAt(was, parent, n)
    && !IsTable(ram, child, 0, USER, g.value)
  }

  /**
   The state of the copy after the first `done` bits of the parent's bitmap. `was` and `free` are the
   memory and the free frames before the fork, `ram` and `left` those now.
   */
  ghost predicate Copying(was: Ram, parent: nat, child: nat, start: nat, bits: seq<bool>, free: set<nat>, ram: Ram, left: set<nat>, done: nat) {
    && start + |bits| <= USER * WORDS
    && Tables(ram, child, 0, USER) && child !in free && left <= free && ram.Keys == was.Keys
    && (forall x :: IsTable(ram, child, 0, USER, x) ==> x in free && x !in left)
    && Untouched(was, ram, child, free)
    && Half(was, parent, child, start, bits, free, ram, left, done)
  }

  /** Nothing that was in use before the fork has changed, but the child's own page directory. */
  ghost predicate Untouched(was: Ram, ram: Ram, child: nat, free: set<nat>) {
    forall x :: x in was && x !in free && x != child ==> x in ram && ram[x] == was[x]
  }

  /** The child maps exactly the pages copied so far, on frames of their own. */
  ghost predicate Half(was: Ram, parent: nat, child: nat, start: nat, bits: seq<bool>, free: set<nat>, ram: Ram, left: set<nat>, done: nat)
    requires start + |bits| <= USER * WORDS
  {
    && (forall i :: 0 <= i < |bits| ==>
          if i < done && bits[i] then Copied(was, parent, start + i, free, left, ram, child, Child(ram, child, start, i))
          else Child(ram, child, start, i) == None)
    && (forall i, j :: 0 <= i < j < |bits| && Child(ram, child, start, i).Some? ==> Child(ram, child, start, i) != Child(ram, child, start, j))
  }

  ghost function Child(ram: Ram, child: nat, start: nat, i: nat): Option<nat>
    requires start + i < USER * WORDS
  {
    Lookup(ram, child, start + i)
  }

  /** Frame f is bound to page n of the child, through a new table t if there is none, and filled. */
  ghost function Stepped(ram: Ram, child: nat, n: nat, f: nat, t: nat, page: Page): Ram
    requires n < PAGES && f < PAGES && t < PAGES
  {
    Entered(WithTable(ram, child, n, t), child, n, EntryFor(f))[f := page]
  }

  ghost predicate CanStep(ram: Ram, child: nat, n: nat, left: set<nat>, f: nat, t: nat) {
    && n < PAGES && f < PAGES && t < PAGES && Within(n, 0, USER) && Tables(ram, child, 0, USER) && child !in left
    && (forall x :: x in left ==> x in ram && !IsTable(ram, child, 0, USER, x))
    && f in left && (Present(Pde(ram, child, n)) || (t in left && f != t))
  }

  /** A directory and tables that are not written keep their tables and lookups. */
  lemma SameTables(ram: Ram, now: Ram, dir: nat)
    requires Tables(ram, dir, 0, USER) && dir in now && now[dir] == ram[dir] && ram.Keys <= now.Keys
    ensures Tables(now, dir, 0, USER) && forall x :: IsTable(now, dir, 0, USER, x) <==> IsTable(ram, dir, 0, USER, x)
  {
    forall i | 0 <= i < WORDS ensures WordAt(now, dir, i) == WordAt(ram, dir, i) {
    }
  }

  /** The directory after it was given a table for page n, if it had none. */
  ghost function WithTable(ram: Ram, dir: nat, n: nat, t: nat): Ram
    requires n < PAGES && t < PAGES
  {
    if Present(Pde(ram, dir, n)) then ram else Tabled(ram, dir, n, t)
  }

  lemma WithTableTables(ram: Ram, dir: nat, n: nat, left: set<nat>, f: nat, t: nat)
    requires CanStep(ram, dir, n, left, f, t)
    ensures
      var r := WithTable(ram, dir, n, t);
      && Tables(r, dir, 0, USER) && Present(Pde(r, dir, n)) && r.Keys == ram.Keys
      && (forall x :: IsTable(r, dir, 0, USER, x) ==> IsTable(ram, dir, 0, USER, x) || (x == t && !Present(Pde(ram, dir, n))))
      && (forall x :: x in ram && x != dir && (x != t || Present(Pde(ram, dir, n))) ==> r[x] == ram[x])
  {
    if !Present(Pde(ram, dir, n)) {
      TabledTables(ram, dir, 0, USER, n, t);
      var r := Tabled(ram, dir, n, t);
      hide Tables;
      forall x | IsTable(r, dir, 0, USER, x) ensures IsTable(ram, dir, 0, USER, x) || x == t {
        var i :| 0 <= i < USER && i < WORDS && Present(WordAt(r, dir, i)) && FrameOf(WordAt(r, dir, i)) == x;
        assert i != n / WORDS ==> WordAt(r, dir, i) == WordAt(ram, dir, i);
      }
    }
  }

  lemma WithTableLookup(ram: Ram, dir: nat, n: nat, left: set<nat>, f: nat, t: nat, m: nat)
    requires CanStep(ram, dir, n, left, f, t) && Within(m, 0, USER)
    ensures Lookup(WithTable(ram, dir, n, t), dir, m) == Lookup(ram, dir, m)
  {
    if !Present(Pde(ram, dir, n)) {
      TabledLookup(ram, dir, 0, USER, n, t, m);
    }
  }

  lemma EnteredFrames(ram: Ram, dir: nat, n: nat, w: Word)
    requires Tables(ram, dir, 0, USER) && Within(n, 0, USER) && Present(Pde(ram, dir, n))
    ensures
      var r := Entered(ram, dir, n, w);
      && Tables(r, dir, 0, USER) && r.Keys == ram.Keys && dir in ram && r[dir] == ram[dir]
      && (forall x :: x in ram && !IsTable(ram, dir, 0, USER, x) ==> r[x] == ram[x])
  {
    EnteredTables(ram, dir, 0, USER, n, w);
    assert IsTable(ram, dir, 0, USER, FrameOf(Pde(ram, dir, n)));
  }

  /** What a step leaves alone, and the tables it leaves. */
  lemma SteppedTables(ram: Ram, child: nat, n: nat, left: set<nat>, f: nat, t: nat, page: Page)
    requires CanStep(ram, child, n, left, f, t)
    ensures
      var r := Stepped(ram, child, n, f, t, page);
      && Tables(r, child, 0, USER) && r.Keys == ram.Keys
      && (forall x :: IsTable(r, child, 0, USER, x) ==> IsTable(ram, child, 0, USER, x) || (x == t && !Present(Pde(ram, child, n))))
      && (forall x :: x in ram && x !in left && x != child && !IsTable(ram, child, 0, USER, x) ==> r[x] == ram[x])
      && f in r && r[f] == page
  {
    var mid := WithTable(ram, child, n, t);
    WithTableTables(ram, child, n, left, f, t);
    EnteredFrames(mid, child, n, EntryFor(f));
    var r := Entered(mid, child, n, EntryFor(f));
    SameTables(mid, r, child);
    SameTables(r, r[f := page], child);
    hide Tables, IsTable, Entered, Tabled, Pde, EntryFor, WithTable;
  }

  lemma SteppedLookup(ram: Ram, child: nat, n: nat, left: set<nat>, f: nat, t: nat, page: Page, m: nat)
    requires CanStep(ram, child, n, left, f, t) && Within(m, 0, USER)
    ensures Lookup(Stepped(ram, child, n, f, t, page), child, m) == if m == n then Some(f) else Lookup(ram, child, m)
  {
    var mid := WithTable(ram, child, n, t);
    WithTableTables(ram, child, n, left, f, t);
    WithTableLookup(ram, child, n, left, f, t, m);
    EnteredFrames(mid, child, n, EntryFor(f));
    EnteredLookup(mid, child, 0, USER, n, EntryFor(f), m);
    var r := Entered(mid, child, n, EntryFor(f));
    assert !IsTable(mid, child, 0, USER, f);
    hide WithTable, Entered, Tabled, EntryFor, CanStep;
    NotATable(ram, mid, r, child, left, f);
    LookupAfterFill(r, child, f, page, m);
  }

  lemma NotATable(ram: Ram, mid: Ram, r: Ram, child: nat, left: set<nat>, f: nat)
    requires child in mid && child in r && r[child] == mid[child] && f in left && child !in left
    requires !IsTable(mid, child, 0, USER, f)
    ensures !IsTable(r, child, 0, USER, f) && f != child
  {
    assert forall i :: 0 <= i < WORDS ==> WordAt(r, child, i) == WordAt(mid, child, i);
  }

  lemma LookupAfterFill(ram: Ram, dir: nat, f: nat, page: Page, m: nat)
    requires Within(m, 0, USER) && dir in ram && f != dir && !IsTable(ram, dir, 0, USER, f)
    ensures Lookup(ram[f := page], dir, m) == Lookup(ram, dir, m)
  {
    LookupFrame(ram, ram[f := page], dir, m);
  }

  /** A clear bit is passed over. */
  lemma CopyingSkips(was: Ram, parent: nat, child: nat, start: nat, bits: seq<bool>, free: set<nat>, ram: Ram, left: set<nat>, i: nat, j: nat)
    requires Copying(was, parent, child, start, bits, free, ram, left, i) && i <= j <= |bits|
    requires forall b :: i <= b < j ==> !bits[b]
    ensures Copying(was, parent, child, start, bits, free, ram, left, j)
  {
  }

  /** What a step changes, as far as the pages already copied are concerned. */
  ghost predicate Shifted(ram: Ram, r: Ram, child: nat, left: set<nat>, f: nat, t: nat, tabled: bool, page: Page) {
    && Tables(r, child, 0, USER) && r.Keys == ram.Keys && f in r && r[f] == page && f in left && (tabled ==> t in left && f != t)
    && (forall x :: IsTable(r, child, 0, USER, x) ==> IsTable(ram, child, 0, USER, x) || (x == t && tabled))
    && (forall x :: x in left ==> !IsTable(ram, child, 0, USER, x))
    && (forall x :: x in ram && x !in left && x != child && !IsTable(ram, child, 0, USER, x) ==> r[x] == ram[x])
  }

  /** A set bit is copied. */
  lemma CopyingKeeps(was: Ram, parent: nat, child: nat, start: nat, bits: seq<bool>, free: set<nat>, ram: Ram, left: set<nat>, i: nat,
                     f: nat, t: nat, now: set<nat>)
    requires start + |bits| <= USER * WORDS && i < |bits| && bits[i] && f < PAGES && t < PAGES
    requires Copying(was, parent, child, start, bits, free, ram, left, i) && CanStep(ram, child, start + i, left, f, t)
    requires now == left - {f} - if Present(Pde(ram, child, start + i)) then {} else {t}
    ensures
      var r := Stepped(ram, child, start + i, f, t, PageAt(was, parent, start + i));
      Copying(was, parent, child, start, bits, free, r, now, i + 1)
  {
    hide Copying, CanStep, Stepped, Child, PageAt, Shifted, Pde, Tables, IsTable;
    var n, page := start + i, PageAt(was, parent, start + i);
    var r, tabled := Stepped(ram, child, n, f, t, page), !Present(Pde(ram, child, n));
    SteppedShifts(ram, child, n, left, f, t, page);
    SteppedChildren(ram, child, start, |bits|, i, left, f, t, page);
    CopyingStep(was, parent, child, start, bits, free, ram, left, i, r, f, t, tabled, page, now);
  }

  lemma SteppedShifts(ram: Ram, child: nat, n: nat, left: set<nat>, f: nat, t: nat, page: Page)
    requires CanStep(ram, child, n, left, f, t)
    ensures Shifted(ram, Stepped(ram, child, n, f, t, page), child, left, f, t, !Present(Pde(ram, child, n)), page)
  {
    SteppedTables(ram, child, n, left, f, t, page);
  }

  lemma SteppedChildren(ram: Ram, child: nat, start: nat, size: nat, i: nat, left: set<nat>, f: nat, t: nat, page: Page)
    requires start + size <= USER * WORDS && i < size && CanStep(ram, child, start + i, left, f, t)
    ensures
      var r := Stepped(ram, child, start + i, f, t, page);
      forall j :: 0 <= j < size ==> Child(r, child, start, j) == if j == i then Some(f) else Child(ram, child, start, j)
  {
    forall j | 0 <= j < size
      ensures Child(Stepped(ram, child, start + i, f, t, page), child, start, j) == if j == i then Some(f) else Child(ram, child, start, j)
    {
      SteppedLookup(ram, child, start + i, left, f, t, page, start + j);
    }
  }

  lemma CopyingStep(was: Ram, parent: nat, child: nat, start: nat, bits: seq<bool>, free: set<nat>, ram: Ram, left: set<nat>, i: nat,
                    r: Ram, f: nat, t: nat, tabled: bool, page: Page, now: set<nat>)
    requires Copying(was, parent, child, start, bits, free, ram, left, i) && i < |bits| && bits[i]
    requires page == PageAt(was, parent, start + i) && now == left - {f} - if tabled then {t} else {}
    requires Shifted(ram, r, child, left, f, t, tabled, page)
    requires forall j :: 0 <= j < |bits| ==> Child(r, child, start, j) == if j == i then Some(f) else Child(ram, child, start, j)
    ensures Copying(was, parent, child, start, bits, free, r, now, i + 1)
  {
    hide Child, PageAt, IsTable, Tables;
    CopyingUntouched(was, child, free, ram, left, r, f, t, tabled, page);
    CopyingHalf(was, parent, child, start, bits, free, ram, left, i, r, f, t, tabled, page, now);
    hide Half, Untouched;
  }

  lemma CopyingUntouched(was: Ram, child: nat, free: set<nat>, ram: Ram, left: set<nat>, r: Ram, f: nat, t: nat, tabled: bool, page: Page)
    requires Untouched(was, ram, child, free) && Shifted(ram, r, child, left, f, t, tabled, page) && left <= free
    requires forall x :: IsTable(ram, child, 0, USER, x) ==> x in free
    ensures Untouched(was, r, child, free)
  {
    hide IsTable, Tables;
  }

  lemma CopyingHalf(was: Ram, parent: nat, child: nat, start: nat, bits: seq<bool>, free: set<nat>, ram: Ram, left: set<nat>, i: nat,
                    r: Ram, f: nat, t: nat, tabled: bool, page: Page, now: set<nat>)
    requires start + |bits| <= USER * WORDS && i < |bits| && bits[i] && child !in free && left <= free
    requires Half(was, parent, child, start, bits, free, ram, left, i) && page == PageAt(was, parent, start + i)
    requires Shifted(ram, r, child, left, f, t, tabled, page) && now == left - {f} - if tabled then {t} else {}
    requires forall j :: 0 <= j < |bits| ==> Child(r, child, start, j) == if j == i then Some(f) else Child(ram, child, start, j)
    ensures Half(was, parent, child, start, bits, free, r, now, i + 1)
  {
    hide IsTable, Tables, Child, PageAt;
    forall j | 0 <= j < i && bits[j] ensures Copied(was, parent, start + j, free, now, r, child, Child(ram, child, start, j)) {
      CopiedStays(was, parent, start + j, free, left, ram, child, Child(ram, child, start, j), r, f, t, tabled, page, now);
    }
    assert Copied(was, parent, start + i, free, now, r, child, Some(f));
    forall j | 0 <= j < i && Child(ram, child, start, j).Some? ensures Child(ram, child, start, j) != Some(f) {
      assert bits[j] ==> Copied(was, parent, start + j, free, left, ram, child, Child(ram, child, start, j));
    }
    hide Copied;
  }

  lemma CopiedStays(was: Ram, parent: nat, n: nat, free: set<nat>, left: set<nat>, ram: Ram, child: nat, g: Option<nat>,
                    r: Ram, f: nat, t: nat, tabled: bool, page: Page, now: set<nat>)
    requires n < PAGES && Copied(was, parent, n, free, left, ram, child, g) && child !in free && now <= left
    requires Shifted(ram, r, child, left, f, t, tabled, page)
    ensures Copied(was, parent, n, free, now, r, child, g)
  {
    hide IsTable, Tables, PageAt;
  }
}

module Forks {
  import opened Common
  import opened Bitmaps
  import opened PageTables
  import opened PageStates
  import opened Memories
  import opened ForkStates

  /** The frames that are free in either pool. */
  ghost predicate IsFree(kbits: seq<bool>, kstart: nat, ubits: seq<bool>, ustart: nat, x: nat) {
    (kstart <= x < kstart + |kbits| && !kbits[x - kstart]) || (ustart <= x < ustart + |ubits| && !ubits[x - ustart])
  }

  ghost function FreeFrames(kbits: seq<bool>, kstart: nat, ubits: seq<bool>, ustart: nat): set<nat> {
    set x: nat | x < kstart + |kbits| + ustart + |ubits| && IsFree(kbits, kstart, ubits, ustart, x)
  }

  lemma TakenFromUsers(kbits: seq<bool>, kstart: nat, ubits: seq<bool>, ustart: nat, f: nat)
    requires kstart + |kbits| <= ustart <= f < ustart + |ubits| && !ubits[f - ustart]
    ensures FreeFrames(kbits, kstart, ubits[f - ustart := true], ustart) == FreeFrames(kbits, kstart, ubits, ustart) - {f}
    ensures f in FreeFrames(kbits, kstart, ubits, ustart)
  {
    forall x: nat ensures IsFree(kbits, kstart, ubits[f - ustart := true], ustart, x) <==> IsFree(kbits, kstart, ubits, ustart, x) && x != f {
    }
  }

  lemma TakenFromKernel(kbits: seq<bool>, kstart: nat, ubits: seq<bool>, ustart: nat, t: nat)
    requires kstart <= t < kstart + |kbits| <= ustart && !kbits[t - kstart]
    ensures FreeFrames(kbits[t - kstart := true], kstart, ubits, ustart) == FreeFrames(kbits, kstart, ubits, ustart) - {t}
    ensures t in FreeFrames(kbits, kstart, ubits, ustart)
  {
    forall x: nat ensures IsFree(kbits[t - kstart := true], kstart, ubits, ustart, x) <==> IsFree(kbits, kstart, ubits, ustart, x) && x != t {
    }
  }

  /** How many pages are left to copy from bit i on. */
  ghost function PagesLeft(bits: seq<bool>, i: nat): nat
    requires i <= |bits|
    decreases |bits| - i
  {
    if i == |bits| then 0 else (if bits[i] then 1 else 0) + PagesLeft(bits, i + 1)
  }

  /** How many page tables they need, when the directory has those in `have`. */
  ghost function TablesLeft(bits: seq<bool>, start: nat, i: nat, have: set<nat>): nat
    requires i <= |bits|
    decreases |bits| - i
  {
    if i == |bits| then 0
    else if bits[i] && (start + i) / WORDS !in have then 1 + TablesLeft(bits, start, i + 1, have + {(start + i) / WORDS})
    else TablesLeft(bits, start, i + 1, have)
  }

  lemma {:induction false} NothingLeft(bits: seq<bool>, start: nat, i: nat, j: nat, have: set<nat>)
    requires i <= j <= |bits| && forall b :: i <= b < j ==> !bits[b]
    ensures PagesLeft(bits, j) == PagesLeft(bits, i) && TablesLeft(bits, start, j, have) == TablesLeft(bits, start, i, have)
    decreases j - i
  {
    if i < j {
      NothingLeft(bits, start, i + 1, j, have);
    }
  }

  ghost function Have(ram: Ram, dir: nat): set<nat> {
    set d: nat | d < USER && Present(WordAt(ram, dir, d))
  }

  lemma SteppedHave(ram: Ram, child: nat, n: nat, left: set<nat>, f: nat, t: nat, page: Page)
    requires CanStep(ram, child, n, left, f, t)
    ensures Have(Stepped(ram, child, n, f, t, page), child) == Have(ram, child) + {n / WORDS}
    ensures Present(Pde(ram, child, n)) <==> n / WORDS in Have(ram, child)
  {
    var mid := WithTable(ram, child, n, t);
    WithTableTables(ram, child, n, left, f, t);
    EnteredTables(mid, child, 0, USER, n, EntryFor(f));
    forall d | 0 <= d < WORDS ensures WordAt(mid, child, d) == if d == n / WORDS && !Present(Pde(ram, child, n)) then EntryFor(t) else WordAt(ram, child, d) {
    }
  }

  /** A process before it forks: its pages are mapped on frames in use, and the child's directory has no tables. */
  ghost predicate Forkable(ram: Ram, parent: nat, child: nat, start: nat, bits: seq<bool>, free: set<nat>) {
    && start + |bits| <= USER * WORDS && parent != child && child !in free && parent !in free
    && (forall x :: x in free ==> x in ram && x < PAGES)
    && Tables(ram, parent, 0, USER) && Tables(ram, child, 0, USER) && Have(ram, child) == {}
    && (forall x :: IsTable(ram, parent, 0, USER, x) ==> x !in free && x != child)
    && (forall i :: 0 <= i < |bits| && bits[i] ==> Kept(ram, child, free, Child(ram, parent, start, i)))
  }

  ghost predicate Kept(ram: Ram, child: nat, free: set<nat>, f: Option<nat>) {
    f.Some? && f.value in ram && f.value !in free && f.value != child
  }

  /** The parent's mapping, and the contents of its pages, are what they were. */
  lemma ParentSame(was: Ram, parent: nat, child: nat, start: nat, bits: seq<bool>, free: set<nat>, ram: Ram, i: nat)
    requires Forkable(was, parent, child, start, bits, free) && Untouched(was, ram, child, free) && i < |bits|
    ensures Child(ram, parent, start, i) == Child(was, parent, start, i)
    ensures bits[i] ==> PageAt(ram, parent, start + i) == PageAt(was, parent, start + i)
    ensures bits[i] ==> Kept(was, child, free, Child(was, parent, start, i)) && Child(was, parent, start, i).value in ram
  {
    var n := start + i;
    assert Present(Pde(was, parent, n)) ==> IsTable(was, parent, 0, USER, FrameOf(Pde(was, parent, n)));
    LookupFrame(was, ram, parent, n);
    hide Lookup, Tables, IsTable;
  }

  lemma StartCopying(was: Ram, parent: nat, child: nat, start: nat, bits: seq<bool>, free: set<nat>)
    requires Forkable(was, parent, child, start, bits, free)
    ensures Copying(was, parent, child, start, bits, free, was, free, 0)
  {
    forall i | 0 <= i < USER ensures !Present(WordAt(was, child, i)) {
      assert i !in Have(was, child);
    }
    forall i | 0 <= i < |bits| ensures Child(was, child, start, i) == None {
      assert (start + i) / WORDS !in Have(was, child);
    }
  }

  /** The state of the copy, and enough frames for the rest of it. */
  ghost predicate Underway(was: Ram, parent: nat, child: nat, start: nat, bits: seq<bool>, free: set<nat>,
                           ram: Ram, kbits: seq<bool>, kstart: nat, ubits: seq<bool>, ustart: nat, i: nat)
  {
    && i <= |bits| && kstart + |kbits| <= ustart && ustart + |ubits| <= PAGES
    && Forkable(was, parent, child, start, bits, free)
    && Copying(was, parent, child, start, bits, free, ram, FreeFrames(kbits, kstart, ubits, ustart), i)
    && PagesLeft(bits, i) <= ClearCount(ubits)
    && TablesLeft(bits, start, i, Have(ram, child)) <= ClearCount(kbits)
  }

  /** What the copy of page i relies on. */
  lemma ReadyToCopy(was: Ram, parent: nat, child: nat, start: nat, bits: seq<bool>, free: set<nat>,
                    ram: Ram, kbits: seq<bool>, kstart: nat, ubits: seq<bool>, ustart: nat, i: nat)
    requires Underway(was, parent, child, start, bits, free, ram, kbits, kstart, ubits, ustart, i) && i < |bits| && bits[i]
    ensures start + i < USER * WORDS
    ensures
      var f := Lookup(ram, parent, start + i);
      f.Some? && f.value in ram && ram[f.value] == PageAt(was, parent, start + i)
    ensures exists b :: 0 <= b < |ubits| && !ubits[b]
    ensures Tables(ram, child, 0, USER) && Within(start + i, 0, USER) && Lookup(ram, child, start + i) == None
    ensures forall x :: x in FreeFrames(kbits, kstart, ubits, ustart) ==> x < PAGES && x in ram && x != child && !IsTable(ram, child, 0, USER, x)
    ensures !Present(Pde(ram, child, start + i)) ==> exists b :: 0 <= b < |kbits| && !kbits[b]
  {
    ParentSame(was, parent, child, start, bits, free, ram, i);
    assert Child(ram, child, start, i) == None && Child(ram, parent, start, i).Some?;
    SomeClear(ubits);
    if !Present(Pde(ram, child, start + i)) {
      assert (start + i) / WORDS !in Have(ram, child);
      SomeClear(kbits);
    }
    hide Lookup, Tables, IsTable, ClearCount, IsFree;
  }

  /** One page further. */
  lemma CopyStep(was: Ram, parent: nat, child: nat, start: nat, bits: seq<bool>, free: set<nat>,
                 ram: Ram, kbits: seq<bool>, kstart: nat, ubits: seq<bool>, ustart: nat, i: nat, f: nat, t: nat, know: seq<bool>)
    requires Underway(was, parent, child, start, bits, free, ram, kbits, kstart, ubits, ustart, i) && i < |bits| && bits[i]
    requires start + |bits| <= USER * WORDS && kstart + |kbits| <= ustart && ustart + |ubits| <= PAGES
    requires start + i < PAGES && ustart <= f < ustart + |ubits| && !ubits[f - ustart] && t < PAGES
    requires if Present(Pde(ram, child, start + i)) then know == kbits
             else kstart <= t < kstart + |kbits| && !kbits[t - kstart] && know == kbits[t - kstart := true]
    ensures
      var r := Stepped(ram, child, start + i, f, t, PageAt(was, parent, start + i));
      Underway(was, parent, child, start, bits, free, r, know, kstart, ubits[f - ustart := true], ustart, i + 1)
  {
    hide *;
    ReadyToCopy(was, parent, child, start, bits, free, ram, kbits, kstart, ubits, ustart, i);
    var left := FreeFrames(kbits, kstart, ubits, ustart);
    FramesAfter(kbits, kstart, ubits, ustart, f, t, Present(Pde(ram, child, start + i)), know);
    StepPossible(was, parent, child, start, bits, free, ram, kbits, kstart, ubits, ustart, i, f, t);
    StepGoesOn(was, parent, child, start, bits, free, ram, kbits, kstart, ubits, ustart, i, f, t, know);
  }

  lemma FramesAfter(kbits: seq<bool>, kstart: nat, ubits: seq<bool>, ustart: nat, f: nat, t: nat, tabled: bool, know: seq<bool>)
    requires kstart + |kbits| <= ustart <= f < ustart + |ubits| && !ubits[f - ustart]
    requires if tabled then know == kbits
             else kstart <= t < kstart + |kbits| && !kbits[t - kstart] && know == kbits[t - kstart := true]
    ensures f in FreeFrames(kbits, kstart, ubits, ustart) && (!tabled ==> t in FreeFrames(kbits, kstart, ubits, ustart))
    ensures FreeFrames(know, kstart, ubits[f - ustart := true], ustart) ==
            FreeFrames(kbits, kstart, ubits, ustart) - {f} - if tabled then {} else {t}
    ensures ClearCount(ubits) > 0 && ClearCount(ubits[f - ustart := true]) == ClearCount(ubits) - 1
    ensures if tabled then ClearCount(know) == ClearCount(kbits) else ClearCount(kbits) > 0 && ClearCount(know) == ClearCount(kbits) - 1
  {
    TakenFromUsers(kbits, kstart, ubits, ustart, f);
    ClearCountUpdate(ubits, f - ustart);
    if !tabled {
      TakenFromKernel(kbits, kstart, ubits, ustart, t);
      TakenFromUsers(know, kstart, ubits, ustart, f);
      ClearCountUpdate(kbits, t - kstart);
    }
    hide *;
  }

  lemma StepPossible(was: Ram, parent: nat, child: nat, start: nat, bits: seq<bool>, free: set<nat>,
                     ram: Ram, kbits: seq<bool>, kstart: nat, ubits: seq<bool>, ustart: nat, i: nat, f: nat, t: nat)
    requires Underway(was, parent, child, start, bits, free, ram, kbits, kstart, ubits, ustart, i) && i < |bits| && bits[i]
    requires start + i < PAGES && f in FreeFrames(kbits, kstart, ubits, ustart) && f >= ustart && t < PAGES
    requires !Present(Pde(ram, child, start + i)) ==> t in FreeFrames(kbits, kstart, ubits, ustart) && t < ustart
    ensures CanStep(ram, child, start + i, FreeFrames(kbits, kstart, ubits, ustart), f, t)
  {
    ReadyToCopy(was, parent, child, start, bits, free, ram, kbits, kstart, ubits, ustart, i);
    hide FreeFrames, Tables, IsTable, ClearCount, Lookup, Forkable, Half, Untouched, Pde, PagesLeft, TablesLeft;
  }

  lemma StepGoesOn(was: Ram, parent: nat, child: nat, start: nat, bits: seq<bool>, free: set<nat>,
                   ram: Ram, kbits: seq<bool>, kstart: nat, ubits: seq<bool>, ustart: nat, i: nat, f: nat, t: nat, know: seq<bool>)
    requires Underway(was, parent, child, start, bits, free, ram, kbits, kstart, ubits, ustart, i) && i < |bits| && bits[i]
    requires start + |bits| <= USER * WORDS && f < PAGES && t < PAGES && ustart <= f < ustart + |ubits| && |know| == |kbits|
    requires CanStep(ram, child, start + i, FreeFrames(kbits, kstart, ubits, ustart), f, t)
    requires FreeFrames(know, kstart, ubits[f - ustart := true], ustart) ==
             FreeFrames(kbits, kstart, ubits, ustart) - {f} - if Present(Pde(ram, child, start + i)) then {} else {t}
    requires ClearCount(ubits[f - ustart := true]) == ClearCount(ubits) - 1
    requires ClearCount(know) == ClearCount(kbits) - if Present(Pde(ram, child, start + i)) then 0 else 1
    ensures
      var r := Stepped(ram, child, start + i, f, t, PageAt(was, parent, start + i));
      Underway(was, parent, child, start, bits, free, r, know, kstart, ubits[f - ustart := true], ustart, i + 1)
  {
    hide FreeFrames, ClearCount, Forkable, Copying, Stepped, CanStep, Have, Pde;
    CopyingKeeps(was, parent, child, start, bits, free, ram, FreeFrames(kbits, kstart, ubits, ustart), i, f, t,
                 FreeFrames(know, kstart, ubits[f - ustart := true], ustart));
    SteppedHave(ram, child, start + i, FreeFrames(kbits, kstart, ubits, ustart), f, t, PageAt(was, parent, start + i));
    assert (start + i) / WORDS in Have(ram, child) ==> Have(ram, child) + {(start + i) / WORDS} == Have(ram, child);
  }

  ghost predicate MemUnderway(mem: Memory, was: Ram, parent: nat, child: nat, start: nat, bits: seq<bool>, free: set<nat>, i: nat)
    reads mem, mem.kpool.base, mem.upool.base
  {
    && mem.Pools() && mem.cr3 == parent
    && Underway(was, parent, child, start, bits, free, mem.ram, mem.kpool.Bits(), mem.kstart, mem.upool.Bits(), mem.ustart, i)
  }

  /**
   One page of the parent goes through the kernel's buffer to a new frame of the child's; the page
   directory is the child's meanwhile.
   */
  method CopyPage(mem: Memory, parent: nat, child: nat, start: nat, i: nat, ghost was: Ram, ghost bits: seq<bool>, ghost free: set<nat>)
    requires MemUnderway(mem, was, parent, child, start, bits, free, i) && i < |bits| && bits[i]
    modifies mem, mem.kpool.base, mem.upool.base
    ensures MemUnderway(mem, was, parent, child, start, bits, free, i + 1)
  {
    var n := start + i;
    ReadyToCopy(was, parent, child, start, bits, free, mem.ram, mem.kpool.Bits(), mem.kstart, mem.upool.Bits(), mem.ustart, i);
    hide Underway, FreeFrames, Tables, IsTable, Bitmap.Bits, Lookup, Within, Pde, PageAt, Entered, Tabled, EntryFor, Stepped;
    var buf := mem.ram[Lookup(mem.ram, mem.cr3, n).value];
    mem.cr3 := child;
    InstallCopy(mem, parent, child, start, i, buf, was, bits, free);
    mem.cr3 := parent;
  }

  /** With the child's page directory active: get_a_page_without_opvaddrbitmap, and the copy out of the buffer. */
  method InstallCopy(mem: Memory, parent: nat, child: nat, start: nat, i: nat, buf: Page, ghost was: Ram, ghost bits: seq<bool>, ghost free: set<nat>)
    requires mem.Pools() && mem.cr3 == child && i < |bits| && bits[i] && start + i < PAGES && buf == PageAt(was, parent, start + i)
    requires Underway(was, parent, child, start, bits, free, mem.ram, mem.kpool.Bits(), mem.kstart, mem.upool.Bits(), mem.ustart, i)
    modifies mem`ram, mem.kpool.base, mem.upool.base
    ensures Underway(was, parent, child, start, bits, free, mem.ram, mem.kpool.Bits(), mem.kstart, mem.upool.Bits(), mem.ustart, i + 1)
  {
    hide Underway, Tables, IsTable, Lookup, Pde, Within, Entered, Tabled, EntryFor, Stepped, PageAt, FreeFrames, BitsOf, Memory.CanAddTable;
    ghost var ram, kbits, ubits := mem.ram, mem.kpool.Bits(), mem.upool.Bits();
    var n := start + i;
    PageCanBeHad(mem, parent, child, start, i, was, bits, free);
    var f;
    ghost var t;
    f, t := mem.GetUserPage(n * PAGE_SIZE, 0, USER);
    CopyStep(was, parent, child, start, bits, free, ram, kbits, mem.kstart, ubits, mem.ustart, i, f, t, mem.kpool.Bits());
    SteppedIs(ram, child, n, f, t, buf, mem.ram);
    mem.ram := mem.ram[f := buf];
  }

  lemma SteppedIs(ram: Ram, child: nat, n: nat, f: nat, t: nat, buf: Page, bound: Ram)
    requires n < PAGES && f < PAGES && t < PAGES
    requires Present(Pde(ram, child, n)) ==> bound == Entered(ram, child, n, EntryFor(f))
    requires !Present(Pde(ram, child, n)) ==> bound == Entered(Tabled(ram, child, n, t), child, n, EntryFor(f))
    ensures bound[f := buf] == Stepped(ram, child, n, f, t, buf)
  {
  }

  lemma PageCanBeHad(mem: Memory, parent: nat, child: nat, start: nat, i: nat, was: Ram, bits: seq<bool>, free: set<nat>)
    requires mem.Pools() && mem.cr3 == child && i < |bits| && bits[i]
    requires Underway(was, parent, child, start, bits, free, mem.ram, mem.kpool.Bits(), mem.kstart, mem.upool.Bits(), mem.ustart, i)
    ensures start + |bits| <= USER * WORDS && |mem.kpool.Bits()| == 8 * mem.kpool.len && |mem.upool.Bits()| == 8 * mem.upool.len
    ensures (start + i) * PAGE_SIZE < 0x1_0000_0000 && start + i < PAGES
    ensures (start + i) * PAGE_SIZE / PAGE_SIZE == start + i && (start + i) * PAGE_SIZE % PAGE_SIZE == 0
    ensures Tables(mem.ram, child, 0, USER) && Within(start + i, 0, USER) && Lookup(mem.ram, child, start + i) == None
    ensures exists b :: 0 <= b < 8 * mem.upool.len && !mem.upool.Bits()[b]
    ensures !Present(Pde(mem.ram, child, start + i)) ==> mem.CanAddTable(0, USER)
  {
    ReadyToCopy(was, parent, child, start, bits, free, mem.ram, mem.kpool.Bits(), mem.kstart, mem.upool.Bits(), mem.ustart, i);
    KernelSpares(mem.ram, child, mem.kpool.Bits(), mem.kstart, mem.upool.Bits(), mem.ustart);
    hide FreeFrames, Tables, IsTable, BitsOf, Lookup, Within, Pde;
  }

  lemma KernelSpares(ram: Ram, child: nat, kbits: seq<bool>, kstart: nat, ubits: seq<bool>, ustart: nat)
    requires forall x :: x in FreeFrames(kbits, kstart, ubits, ustart) ==> x < PAGES && x in ram && x != child && !IsTable(ram, child, 0, USER, x)
    ensures forall b :: 0 <= b < |kbits| && !kbits[b] ==>
              kstart + b < PAGES && kstart + b in ram && kstart + b != child && !IsTable(ram, child, 0, USER, kstart + b)
  {
    forall b | 0 <= b < |kbits| && !kbits[b] ensures kstart + b in FreeFrames(kbits, kstart, ubits, ustart) {
      assert IsFree(kbits, kstart, ubits, ustart, kstart + b);
    }
  }

  /** A faithful and isolated copy of the parent's pages. */
  ghost predicate Forked(was: Ram, parent: nat, child: nat, start: nat, bits: seq<bool>, ram: Ram)
    requires start + |bits| <= USER * WORDS
  {
    // the child maps exactly the pages of the parent's bitmap, with the parent's contents
    && (forall i :: 0 <= i < |bits| ==> (Child(ram, child, start, i).Some? <==> bits[i]))
    && (forall i :: 0 <= i < |bits| && bits[i] ==> PageAt(ram, child, start + i) == PageAt(was, parent, start + i))
    // the parent's mapping and contents are what they were
    && (forall i :: 0 <= i < |bits| ==> Child(ram, parent, start, i) == Child(was, parent, start, i))
    && (forall i :: 0 <= i < |bits| && bits[i] ==> PageAt(ram, parent, start + i) == PageAt(was, parent, start + i))
    // no frame of the child's is one of the parent's, or stands behind two pages
    && (forall i, j :: 0 <= i < |bits| && 0 <= j < |bits| && bits[i] && bits[j] ==> Child(ram, child, start, i) != Child(ram, parent, start, j))
    && (forall i, j :: 0 <= i < j < |bits| && bits[i] ==> Child(ram, child, start, i) != Child(ram, child, start, j))
  }

  lemma CopiedAll(was: Ram, parent: nat, child: nat, start: nat, bits: seq<bool>, free: set<nat>, ram: Ram, left: set<nat>)
    requires Forkable(was, parent, child, start, bits, free)
    requires Copying(was, parent, child, start, bits, free, ram, left, |bits|)
    ensures Forked(was, parent, child, start, bits, ram)
  {
    forall i | 0 <= i < |bits|
      ensures Child(ram, parent, start, i) == Child(was, parent, start, i)
      ensures bits[i] ==> PageAt(ram, parent, start + i) == PageAt(was, parent, start + i)
      ensures bits[i] ==> Kept(was, child, free, Child(was, parent, start, i))
    {
      ParentSame(was, parent, child, start, bits, free, ram, i);
    }
    forall i | 0 <= i < |bits| && bits[i]
      ensures Copied(was, parent, start + i, free, left, ram, child, Child(ram, child, start, i))
      ensures PageAt(ram, child, start + i) == PageAt(was, parent, start + i)
    {
      assert Copied(was, parent, start + i, free, left, ram, child, Child(ram, child, start, i));
    }
    hide Lookup, Tables, IsTable, Forkable, PageAt, Untouched, Child;
  }

  lemma UnderwaySkips(was: Ram, parent: nat, child: nat, start: nat, bits: seq<bool>, free: set<nat>,
                      ram: Ram, kbits: seq<bool>, kstart: nat, ubits: seq<bool>, ustart: nat, i: nat, j: nat)
    requires Underway(was, parent, child, start, bits, free, ram, kbits, kstart, ubits, ustart, i) && i <= j <= |bits|
    requires forall b :: i <= b < j ==> !bits[b]
    ensures Underway(was, parent, child, start, bits, free, ram, kbits, kstart, ubits, ustart, j)
  {
    CopyingSkips(was, parent, child, start, bits, free, ram, FreeFrames(kbits, kstart, ubits, ustart), i, j);
    NothingLeft(bits, start, i, j, Have(ram, child));
    hide Copying, Forkable, FreeFrames, Have, ClearCount;
  }

  /** copy_body_stack3: a loop over the bytes of the parent's bitmap, and one over the bits of a byte. */
  method CopyBodyStack3(mem: Memory, pages: Bitmap, parent: nat, child: nat, start: nat)
    requires mem.Pools() && mem.cr3 == parent && pages.Valid() && pages.base != mem.kpool.base && pages.base != mem.upool.base
    requires Forkable(mem.ram, parent, child, start, pages.Bits(), FreeFrames(mem.kpool.Bits(), mem.kstart, mem.upool.Bits(), mem.ustart))
    requires PagesLeft(pages.Bits(), 0) <= ClearCount(mem.upool.Bits())
    requires TablesLeft(pages.Bits(), start, 0, {}) <= ClearCount(mem.kpool.Bits())
    modifies mem, mem.kpool.base, mem.upool.base
    ensures mem.cr3 == parent && start + |pages.Bits()| <= USER * WORDS
    ensures Forked(old(mem.ram), parent, child, start, pages.Bits(), mem.ram)
  {
    hide Forkable, FreeFrames, PagesLeft, TablesLeft, ClearCount, Forked, MemUnderway, BitsOf;
    ghost var was, bits, free := mem.ram, pages.Bits(), FreeFrames(mem.kpool.Bits(), mem.kstart, mem.upool.Bits(), mem.ustart);
    AtTheStart(mem, parent, child, start, bits);
    var byte := 0;
    while byte < pages.len
      invariant 0 <= byte <= pages.len && MemUnderway(mem, was, parent, child, start, bits, free, 8 * byte)
      invariant pages.Bits() == bits
    {
      if pages.base[byte] != 0 {
        CopyByte(mem, pages, parent, child, start, byte, was, bits, free);
      } else {
        EmptyByte(mem, pages, parent, child, start, byte, was, bits, free);
      }
      byte := byte + 1;
    }
    AtTheEnd(mem, pages, was, parent, child, start, bits, free);
  }

  lemma AtTheStart(mem: Memory, parent: nat, child: nat, start: nat, bits: seq<bool>)
    requires mem.Pools() && mem.cr3 == parent
    requires Forkable(mem.ram, parent, child, start, bits, FreeFrames(mem.kpool.Bits(), mem.kstart, mem.upool.Bits(), mem.ustart))
    requires PagesLeft(bits, 0) <= ClearCount(mem.upool.Bits()) && TablesLeft(bits, start, 0, {}) <= ClearCount(mem.kpool.Bits())
    ensures MemUnderway(mem, mem.ram, parent, child, start, bits, FreeFrames(mem.kpool.Bits(), mem.kstart, mem.upool.Bits(), mem.ustart), 0)
  {
    StartCopying(mem.ram, parent, child, start, bits, FreeFrames(mem.kpool.Bits(), mem.kstart, mem.upool.Bits(), mem.ustart));
    assert Have(mem.ram, child) == {};
    hide Copying, FreeFrames, Have, BitsOf, Tables, IsTable, PagesLeft, TablesLeft, ClearCount;
  }

  /** A byte of zeros stands for eight pages that are not there. */
  lemma EmptyByte(mem: Memory, pages: Bitmap, parent: nat, child: nat, start: nat, byte: nat, was: Ram, bits: seq<bool>, free: set<nat>)
    requires pages.Valid() && bits == pages.Bits() && byte < pages.len && pages.base[byte] == 0
    requires MemUnderway(mem, was, parent, child, start, bits, free, 8 * byte)
    ensures MemUnderway(mem, was, parent, child, start, bits, free, 8 * byte + 8)
  {
    hide Underway;
    assert pages.base[..][byte] == 0;
    assert forall b :: 8 * byte <= b < 8 * byte + 8 ==> !bits[b];
    UnderwaySkips(was, parent, child, start, bits, free, mem.ram, mem.kpool.Bits(), mem.kstart, mem.upool.Bits(), mem.ustart, 8 * byte, 8 * byte + 8);
  }

  lemma AtTheEnd(mem: Memory, pages: Bitmap, was: Ram, parent: nat, child: nat, start: nat, bits: seq<bool>, free: set<nat>)
    requires pages.Valid() && bits == pages.Bits() && MemUnderway(mem, was, parent, child, start, bits, free, 8 * pages.len)
    ensures mem.cr3 == parent && start + |bits| <= USER * WORDS && Forked(was, parent, child, start, bits, mem.ram)
  {
    CopiedAll(was, parent, child, start, bits, free, mem.ram, FreeFrames(mem.kpool.Bits(), mem.kstart, mem.upool.Bits(), mem.ustart));
  }

  method CopyByte(mem: Memory, pages: Bitmap, parent: nat, child: nat, start: nat, byte: nat, ghost was: Ram, ghost bits: seq<bool>, ghost free: set<nat>)
    requires pages.Valid() && pages.base != mem.kpool.base && pages.base != mem.upool.base && bits == pages.Bits() && byte < pages.len
    requires MemUnderway(mem, was, parent, child, start, bits, free, 8 * byte)
    modifies mem, mem.kpool.base, mem.upool.base
    ensures MemUnderway(mem, was, parent, child, start, bits, free, 8 * byte + 8) && pages.Bits() == bits
  {
    hide Underway;
    var bit := 0;
    while bit < 8
      invariant 0 <= bit <= 8 && MemUnderway(mem, was, parent, child, start, bits, free, 8 * byte + bit)
      invariant pages.base[..] == old(pages.base[..])
    {
      assert bits[8 * byte + bit] <==> BitOf(pages.base[..][byte], bit);
      if Mask(bit) & pages.base[byte] != 0 {
        CopyPage(mem, parent, child, start, 8 * byte + bit, was, bits, free);
      } else {
        UnderwaySkips(was, parent, child, start, bits, free, mem.ram, mem.kpool.Bits(), mem.kstart, mem.upool.Bits(), mem.ustart, 8 * byte + bit, 8 * byte + bit + 1);
      }
      bit := bit + 1;
    }
  }
}
