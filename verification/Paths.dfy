/** Path names and directory lookup (src/fs/namei.c): strings end where the sequence ends. */
module Paths {
  import opened Common

  datatype Entry = Entry(nr: nat, name: string)

  predicate IsSeparator(c: char) {
    c == '/' || c == '\\'
  }

  /** Where the component that starts at i ends. */
  function EndOf(p: string, i: nat): (e: nat)
    requires i <= |p|
    ensures i <= e <= |p| && (e < |p| ==> IsSeparator(p[e])) && forall j :: i <= j < e ==> !IsSeparator(p[j])
    decreases |p| - i
  {
    if i == |p| || IsSeparator(p[i]) then i else EndOf(p, i + 1)
  }

  /** The component that starts at i. */
  function Component(p: string, i: nat): string
    requires i <= |p|
  {
    p[i..EndOf(p, i)]
  }

  /** Where the one after it starts. */
  function After(p: string, i: nat): (n: nat)
    requires i <= |p|
    ensures i <= n <= |p|
  {
    if EndOf(p, i) < |p| then EndOf(p, i) + 1 else |p|
  }

  /** Names of directory entries have no separators: add_entry asserts it. */
  ghost predicate Plain(name: string) {
    forall j :: 0 <= j < |name| ==> !IsSeparator(name[j])
  }

  /** What match_name tests, for any entry name. */
  ghost predicate Matches(p: string, i: nat, name: string) {
    i + |name| <= |p| && p[i..i + |name|] == name && (i + |name| < |p| ==> IsSeparator(p[i + |name|]))
  }

  /** For entry names without separators that is equality with the component of the path. */
  lemma MatchesComponent(p: string, i: nat, name: string)
    requires i <= |p| && Plain(name)
    ensures Matches(p, i, name) <==> name == Component(p, i)
  {
    if Matches(p, i, name) {
      forall j | i <= j < i + |name| ensures !IsSeparator(p[j]) {
        assert p[j] == p[i..i + |name|][j - i] && !IsSeparator(name[j - i]);
      }
    }
  }

  lemma Mismatch(p: string, i: nat, name: string, r: nat)
    requires r < |name| && (i + r >= |p| || p[i + r] != name[r])
    ensures !Matches(p, i, name)
  {
    if i + |name| <= |p| {
      assert p[i..i + |name|][r] == p[i + r];
    }
  }

  /** match_name; `next` is where the path goes on after a match. */
  method MatchName(p: string, i: nat, name: string) returns (m: bool, next: nat)
    requires i <= |p|
    ensures m <==> Matches(p, i, name)
    ensures m ==> next == if i + |name| < |p| then i + |name| + 1 else |p|
  {
    var lhs, rhs := i, 0;
    while lhs < |p| && rhs < |name| && p[lhs] == name[rhs]
      invariant i <= lhs <= |p| && 0 <= rhs <= |name| && lhs == i + rhs
      invariant forall j :: 0 <= j < rhs ==> p[i + j] == name[j]
    {
      lhs, rhs := lhs + 1, rhs + 1;
    }
    next := i;
    if rhs < |name| {
      Mismatch(p, i, name, rhs);
      return false, next;
    }
    assert p[i..i + |name|] == name;
    if lhs < |p| && !IsSeparator(p[lhs]) {
      return false, next;
    }
    if lhs < |p| {
      lhs := lhs + 1;
    }
    return true, lhs;
  }

  /** strrsep: the last separator from i on. */
  method LastSeparator(p: string, i: nat) returns (last: int)
    requires i <= |p|
    ensures last == -1 || i <= last < |p|
    ensures last == -1 <==> forall j :: i <= j < |p| ==> !IsSeparator(p[j])
    ensures last != -1 ==> IsSeparator(p[last]) && forall j :: last < j < |p| ==> !IsSeparator(p[j])
  {
    last := -1;
    var ptr := i;
    while ptr < |p|
      invariant i <= ptr <= |p| && (last == -1 || i <= last < ptr)
      invariant last == -1 <==> forall j :: i <= j < ptr ==> !IsSeparator(p[j])
      invariant last != -1 ==> IsSeparator(p[last]) && forall j :: last < j < ptr ==> !IsSeparator(p[j])
    {
      if IsSeparator(p[ptr]) {
        last := ptr;
      }
      ptr := ptr + 1;
    }
  }

  /** The position of the entry with the given name, or the number of entries. */
  function PosOf(es: seq<Entry>, name: string): (k: nat)
    ensures k <= |es| && (k < |es| ==> es[k].name == name) && forall j :: 0 <= j < k ==> es[j].name != name
  {
    if es == [] || es[0].name == name then 0 else 1 + PosOf(es[1..], name)
  }

  ghost predicate PlainEntries(es: seq<Entry>) {
    forall j :: 0 <= j < |es| ==> Plain(es[j].name)
  }

  /** find_entry */
  method FindEntry(es: seq<Entry>, p: string, i: nat) returns (found: bool, entry: Entry, next: nat)
    requires i <= |p| && PlainEntries(es)
    ensures found <==> PosOf(es, Component(p, i)) < |es|
    ensures found ==> entry == es[PosOf(es, Component(p, i))] && next == After(p, i)
  {
    ghost var name := Component(p, i);
    var k := 0;
    entry, next := Entry(0, ""), i;
    while k < |es|
      invariant 0 <= k <= |es| && forall j :: 0 <= j < k ==> es[j].name != name
    {
      MatchesComponent(p, i, es[k].name);
      var m, n := MatchName(p, i, es[k].name);
      if m {
        PosIsFirst(es, name, k);
        return true, es[k], n;
      }
      k := k + 1;
    }
    PosIsFirst(es, name, k);
    return false, entry, next;
  }

  lemma {:induction false} PosIsFirst(es: seq<Entry>, name: string, k: nat)
    requires k <= |es| && (k < |es| ==> es[k].name == name) && forall j :: 0 <= j < k ==> es[j].name != name
    ensures PosOf(es, name) == k
  {
    if es != [] && es[0].name != name {
      PosIsFirst(es[1..], name, k - 1);
    }
  }

  /** The first entry that is not in use, or the number of entries. */
  function FreePos(es: seq<Entry>): (k: nat)
    ensures k <= |es| && (k < |es| ==> es[k].nr == 0) && forall j :: 0 <= j < k ==> es[j].nr != 0
  {
    if es == [] || es[0].nr == 0 then 0 else 1 + FreePos(es[1..])
  }

  /** The directory with entry e in the first free place. */
  function Added(es: seq<Entry>, e: Entry): seq<Entry> {
    var k := FreePos(es);
    if k < |es| then es[k := e] else es + [e]
  }

  lemma {:induction false} FreePosIsFirst(es: seq<Entry>, k: nat)
    requires k <= |es| && (k < |es| ==> es[k].nr == 0) && forall j :: 0 <= j < k ==> es[j].nr != 0
    ensures FreePos(es) == k
  {
    if es != [] && es[0].nr != 0 {
      FreePosIsFirst(es[1..], k - 1);
    }
  }

  /** add_entry, for a name that is not there yet, with the number its callers then set. */
  method AddEntry(es: seq<Entry>, e: Entry) returns (now: seq<Entry>)
    ensures now == Added(es, e)
  {
    var k := 0;
    while k < |es|
      invariant 0 <= k <= |es| && forall j :: 0 <= j < k ==> es[j].nr != 0
    {
      if es[k].nr == 0 {
        break;
      }
      k := k + 1;
    }
    FreePosIsFirst(es, k);
    now := if k < |es| then es[k := e] else es + [e];
  }

  /** What was added is found, and nothing else that was in use is lost. */
  lemma AddedIsFound(es: seq<Entry>, e: Entry, name: string)
    requires PosOf(es, e.name) == |es|
    ensures PosOf(Added(es, e), e.name) < |Added(es, e)| && Added(es, e)[PosOf(Added(es, e), e.name)] == e
    ensures name != e.name && PosOf(es, name) < |es| && es[PosOf(es, name)].nr != 0 ==>
              PosOf(Added(es, e), name) == PosOf(es, name) && Added(es, e)[PosOf(es, name)] == es[PosOf(es, name)]
  {
    PosIsFirst(Added(es, e), e.name, FreePos(es));
    if name != e.name && PosOf(es, name) < |es| && es[PosOf(es, name)].nr != 0 {
      PosIsFirst(Added(es, e), name, PosOf(es, name));
    }
  }

  lemma AddedPlain(es: seq<Entry>, e: Entry)
    requires PlainEntries(es) && Plain(e.name)
    ensures PlainEntries(Added(es, e))
  {
  }

  // ----- the walk -----

  /** What the walk needs to know of the file system: the entries of each directory, and who may pass. */
  datatype Dirs = Dirs(entries: map<nat, seq<Entry>>, passable: set<nat>)

  ghost predicate PlainDirs(d: Dirs) {
    forall nr :: nr in d.entries ==> PlainEntries(d.entries[nr])
  }

  function Step(d: Dirs, nr: nat, name: string): Option<nat> {
    if nr !in d.entries then None
    else
      var k := PosOf(d.entries[nr], name);
      if k < |d.entries[nr]| then Some(d.entries[nr][k].nr) else None
  }

  /** One component after the other from position left up to position right. */
  function Walk(d: Dirs, nr: nat, p: string, left: nat, right: nat): Option<nat>
    requires left < right <= |p| && IsSeparator(p[right - 1])
    decreases right - left
  {
    match Step(d, nr, Component(p, left))
    case None => None
    case Some(next) =>
      if next !in d.entries || next !in d.passable then None
      else
        AfterWithin(p, left, right);
        if After(p, left) == right then Some(next) else Walk(d, next, p, After(p, left), right)
  }

  /** The next component starts further right, but never beyond the last one. */
  lemma AfterWithin(p: string, left: nat, right: nat)
    requires left < right <= |p| && IsSeparator(p[right - 1])
    ensures left < After(p, left) <= right
  {
    assert EndOf(p, left) <= right - 1;
  }

  /** The last separator from i on, or -1. */
  function LastSep(p: string, i: nat): (last: int)
    requires i <= |p|
    ensures last == -1 || (i <= last < |p| && IsSeparator(p[last]))
    ensures forall j :: i <= j < |p| && j > last ==> !IsSeparator(p[j])
    decreases |p| - i
  {
    if i == |p| then -1
    else if LastSep(p, i + 1) != -1 then LastSep(p, i + 1)
    else if IsSeparator(p[i]) then i else -1
  }

  /** Where a path starts after the separator that makes it absolute. */
  function Start(p: string): nat {
    if p != "" && IsSeparator(p[0]) then 1 else 0
  }

  /** Where the last component of a path starts. */
  function Final(p: string): (n: nat)
    ensures Start(p) <= n <= |p| && (n > Start(p) ==> IsSeparator(p[n - 1])) && forall j :: n <= j < |p| ==> !IsSeparator(p[j])
  {
    if LastSep(p, Start(p)) == -1 then Start(p) else LastSep(p, Start(p)) + 1
  }

  /** named: the directory that holds, or would hold, the last component. */
  function Holder(d: Dirs, root: nat, pwd: nat, p: string): Option<nat> {
    if p == "" then None
    else
      var from := if IsSeparator(p[0]) then root else pwd;
      if LastSep(p, Start(p)) == -1 then Some(from) else Walk(d, from, p, Start(p), Final(p))
  }

  /** namei */
  function Target(d: Dirs, root: nat, pwd: nat, p: string): Option<nat> {
    match Holder(d, root, pwd, p)
    case None => None
    case Some(dir) => if Final(p) == |p| then Some(dir) else Step(d, dir, Component(p, Final(p)))
  }

  lemma LastSepIs(p: string, i: nat, last: int)
    requires i <= |p| && (last == -1 || (i <= last < |p| && IsSeparator(p[last])))
    requires forall j :: i <= j < |p| && j > last ==> !IsSeparator(p[j])
    ensures LastSep(p, i) == last
  {
  }

  /** A walk ends in a directory. */
  lemma {:induction false} WalkEndsInDir(d: Dirs, nr: nat, p: string, left: nat, right: nat)
    requires left < right <= |p| && IsSeparator(p[right - 1])
    ensures Walk(d, nr, p, left, right).Some? ==> Walk(d, nr, p, left, right).value in d.entries
    decreases right - left
  {
    AfterWithin(p, left, right);
    match Step(d, nr, Component(p, left))
    case None =>
    case Some(next) =>
      if next in d.entries && next in d.passable && After(p, left) != right {
        WalkEndsInDir(d, next, p, After(p, left), right);
      }
  }

  lemma HolderIsDir(d: Dirs, root: nat, pwd: nat, p: string)
    requires root in d.entries && pwd in d.entries
    ensures Holder(d, root, pwd, p).Some? ==> Holder(d, root, pwd, p).value in d.entries
  {
    if p != "" && LastSep(p, Start(p)) != -1 {
      WalkEndsInDir(d, if IsSeparator(p[0]) then root else pwd, p, Start(p), Final(p));
    }
  }

  // ----- where a path leads, step by step -----

  /** From directory nr, at position `from`, the component there leads to directory `to`, which may be passed. */
  ghost predicate StepsTo(d: Dirs, p: string, nr: nat, from: nat, to: nat) {
    from <= |p| && Step(d, nr, Component(p, from)) == Some(to) && to in d.entries && to in d.passable
  }

  /** Directory by directory, one for each component, from nr at position left to x at position right. */
  ghost predicate Trail(d: Dirs, p: string, nr: nat, left: nat, right: nat, x: nat, at: seq<nat>, nrs: seq<nat>) {
    && |at| == |nrs| > 1 && at[0] == left && at[|at| - 1] == right && nrs[0] == nr && nrs[|nrs| - 1] == x
    && (forall i :: 0 <= i < |at| - 1 ==>
          at[i] < right && StepsTo(d, p, nrs[i], at[i], nrs[i + 1]) && at[i + 1] == After(p, at[i]))
  }

  ghost predicate Reaches(d: Dirs, p: string, nr: nat, left: nat, right: nat, x: nat) {
    exists at, nrs :: Trail(d, p, nr, left, right, x, at, nrs)
  }

  /** The walk finds x exactly when there is such a trail. */
  lemma WalkIffTrail(d: Dirs, nr: nat, p: string, left: nat, right: nat, x: nat)
    requires left < right <= |p| && IsSeparator(p[right - 1])
    ensures Walk(d, nr, p, left, right) == Some(x) <==> Reaches(d, p, nr, left, right, x)
  {
    if Walk(d, nr, p, left, right) == Some(x) {
      var at, nrs := TrailOfWalk(d, nr, p, left, right, x);
    }
    forall at, nrs | Trail(d, p, nr, left, right, x, at, nrs) ensures Walk(d, nr, p, left, right) == Some(x) {
      WalkOfTrail(d, nr, p, left, right, x, at, nrs);
    }
  }

  lemma {:induction false} TrailOfWalk(d: Dirs, nr: nat, p: string, left: nat, right: nat, x: nat) returns (at: seq<nat>, nrs: seq<nat>)
    requires left < right <= |p| && IsSeparator(p[right - 1]) && Walk(d, nr, p, left, right) == Some(x)
    ensures Trail(d, p, nr, left, right, x, at, nrs)
    decreases right - left
  {
    AfterWithin(p, left, right);
    var next := Step(d, nr, Component(p, left)).value;
    if After(p, left) == right {
      at, nrs := [left, right], [nr, x];
    } else {
      at, nrs := TrailOfWalk(d, next, p, After(p, left), right, x);
      LongerTrail(d, p, nr, left, next, After(p, left), right, x, at, nrs);
      at, nrs := [left] + at, [nr] + nrs;
    }
  }

  lemma LongerTrail(d: Dirs, p: string, nr: nat, left: nat, next: nat, onward: nat, right: nat, x: nat, at: seq<nat>, nrs: seq<nat>)
    requires left < right && StepsTo(d, p, nr, left, next) && onward == After(p, left) && Trail(d, p, next, onward, right, x, at, nrs)
    ensures Trail(d, p, nr, left, right, x, [left] + at, [nr] + nrs)
  {
    hide StepsTo;
    var a, b := [left] + at, [nr] + nrs;
    forall i | 0 <= i < |a| - 1
      ensures a[i] < right && a[i] <= |p| && StepsTo(d, p, b[i], a[i], b[i + 1]) && a[i + 1] == After(p, a[i])
    {
      if i > 0 {
        assert a[i] == at[i - 1] && a[i + 1] == at[i] && b[i] == nrs[i - 1] && b[i + 1] == nrs[i];
      }
    }
  }

  lemma {:induction false} WalkOfTrail(d: Dirs, nr: nat, p: string, left: nat, right: nat, x: nat, at: seq<nat>, nrs: seq<nat>)
    requires left < right <= |p| && IsSeparator(p[right - 1]) && Trail(d, p, nr, left, right, x, at, nrs)
    ensures Walk(d, nr, p, left, right) == Some(x)
    decreases |at|
  {
    assert StepsTo(d, p, nrs[0], at[0], nrs[1]) && at[1] == After(p, at[0]);
    AfterWithin(p, left, right);
    if |at| == 2 {
      assert at[1] == right;
    } else {
      assert at[1] < right;
      assert forall i :: 0 <= i < |at| - 1 ==> at[1..][i] == at[i + 1] && nrs[1..][i] == nrs[i + 1];
      WalkOfTrail(d, nrs[1], p, at[1], right, x, at[1..], nrs[1..]);
    }
  }

  /**
   Path p leads to directory x, in which its last component, from position `last` on, is to be looked
   up: from the root or the current directory, through every component but the last.
   */
  ghost predicate Leads(d: Dirs, root: nat, pwd: nat, p: string, x: nat, last: nat) {
    && p != ""
    && var begin := if IsSeparator(p[0]) then 1 else 0;
       var from := if IsSeparator(p[0]) then root else pwd;
       && begin <= last <= |p| && (last > begin ==> IsSeparator(p[last - 1]))
       && (forall j :: last <= j < |p| ==> !IsSeparator(p[j]))
       && if last == begin then x == from else Reaches(d, p, from, begin, last, x)
  }

  lemma HolderIffLeads(d: Dirs, root: nat, pwd: nat, p: string, x: nat, last: nat)
    ensures Leads(d, root, pwd, p, x, last) <==> Holder(d, root, pwd, p) == Some(x) && last == Final(p)
  {
    if p != "" {
      var begin := if IsSeparator(p[0]) then 1 else 0;
      var from := if IsSeparator(p[0]) then root else pwd;
      if Final(p) > begin {
        WalkIffTrail(d, from, p, begin, Final(p), x);
      }
    }
  }

  /** Path p names x: its last component in the directory it leads to, or that directory when there is none. */
  ghost predicate NamesNr(d: Dirs, root: nat, pwd: nat, p: string, x: nat) {
    exists dir: nat, last: nat ::
      Leads(d, root, pwd, p, dir, last) && last <= |p| && if last == |p| then x == dir else Step(d, dir, p[last..]) == Some(x)
  }

  lemma TargetIffNames(d: Dirs, root: nat, pwd: nat, p: string, x: nat)
    ensures Target(d, root, pwd, p) == Some(x) <==> NamesNr(d, root, pwd, p, x)
  {
    hide Leads, Holder;
    forall dir: nat, last: nat ensures Leads(d, root, pwd, p, dir, last) <==> Holder(d, root, pwd, p) == Some(dir) && last == Final(p) {
      HolderIffLeads(d, root, pwd, p, dir, last);
    }
    assert Component(p, Final(p)) == p[Final(p)..];
    if Target(d, root, pwd, p) == Some(x) {
      assert Leads(d, root, pwd, p, Holder(d, root, pwd, p).value, Final(p));
    }
  }
}
