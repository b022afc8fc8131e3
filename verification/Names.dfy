/**
 The in-core inodes and open files as the kernel handles them (src/fs/inode.c, src/fs/namei.c,
 src/fs/file.c, src/kernel/fork.c). Methods return `ok == false` where the source panics because a
 table is full.
 */
module Names {
  import opened Common
  import opened Seqs
  import opened RefStates
  import Paths

  class Kernel {
    var table: seq<Inode>
    var list: seq<nat>
    var files: seq<File>
    var tasks: map<Tid, Task>
    var dirs: Paths.Dirs

    ghost function Now(): Refs
      reads this
    {
      Refs(table, list, files, tasks)
    }

    /** Tasks stand in directories. */
    static ghost predicate Placed(s: Refs, d: Paths.Dirs) {
      && Paths.PlainDirs(d)
      && forall t :: t in s.tasks ==>
           && s.tasks[t].ipwd < |s.table| && s.table[s.tasks[t].ipwd].nr in d.entries
           && s.tasks[t].iroot < |s.table| && s.table[s.tasks[t].iroot].nr in d.entries
    }

    /** Every count is the number of holders, with `extra` the references of the call under way. */
    ghost predicate Valid(extra: multiset<nat>)
      reads this
    {
      Inv(Now(), extra) && Placed(Now(), dirs)
    }

    /** The holders are the same, and every inode in use still is, under its number. */
    static ghost predicate Steady(s: Refs, t: Refs) {
      && t.files == s.files && t.tasks == s.tasks && |t.table| == |s.table|
      && forall i :: 0 <= i < |s.table| && s.table[i].used ==> t.table[i].used && t.table[i].nr == s.table[i].nr
    }

    /** The inode table has no free slot. */
    ghost predicate Full()
      reads this
    {
      forall i :: 0 <= i < |table| ==> table[i].used
    }

    constructor (table: seq<Inode>, list: seq<nat>, files: seq<File>, tasks: map<Tid, Task>, dirs: Paths.Dirs)
      ensures this.table == table && this.list == list && this.files == files && this.tasks == tasks && this.dirs == dirs
    {
      this.table, this.list, this.files, this.tasks, this.dirs := table, list, files, tasks, dirs;
    }

    /** find_inode */
    method FindInode(nr: nat) returns (found: bool, i: nat)
      requires Tabled(Now())
      ensures found ==> i < INODE_NR && table[i].used && table[i].nr == nr
      ensures !found ==> forall j :: 0 <= j < INODE_NR && table[j].used ==> table[j].nr != nr
    {
      hide NoDup;
      var n := 0;
      found, i := false, 0;
      while n < |list|
        invariant 0 <= n <= |list| && forall m :: 0 <= m < n ==> list[m] < INODE_NR && table[list[m]].nr != nr
      {
        assert list[n] in list;
        if table[list[n]].nr == nr {
          return true, list[n];
        }
        n := n + 1;
      }
      forall j | 0 <= j < INODE_NR && table[j].used ensures table[j].nr != nr {
        assert j in list;
      }
    }

    /** get_free_inode */
    method GetFreeInode() returns (ok: bool, i: nat)
      requires |table| == INODE_NR
      ensures ok ==> i < INODE_NR && !table[i].used && forall j :: 0 <= j < i ==> table[j].used
      ensures !ok ==> forall j :: 0 <= j < INODE_NR ==> table[j].used
    {
      i := 0;
      while i < INODE_NR
        invariant i <= INODE_NR && forall j :: 0 <= j < i ==> table[j].used
      {
        if !table[i].used {
          return true, i;
        }
        i := i + 1;
      }
      ok := false;
    }

    /** iget: a reference to the one in-core inode of number nr. */
    method Iget(nr: nat, ghost extra: multiset<nat>) returns (ok: bool, i: nat)
      requires Valid(extra)
      modifies this`table, this`list
      ensures !ok ==> Full()
      ensures ok ==> i < |table| && table[i].used && table[i].nr == nr && Steady(old(Now()), Now()) && Valid(extra + multiset{i})
    {
      hide NoDup, Held, Filed;
      ghost var s := Now();
      var found;
      found, i := FindInode(nr);
      if found {
        SharedKeeps(s, extra, i);
        table := table[i := table[i].(count := table[i].count + 1)];
        assert Now() == Shared(s, i);
        StillPlaced(s, Now(), dirs, extra);
        return true, i;
      }
      ok, i := GetFreeInode();
      if ok {
        LoadedKeeps(s, extra, i, nr);
        table := table[i := Inode(true, nr, table[i].count + 1)];
        list := [i] + list;
        assert Now() == Loaded(s, i, nr);
        StillPlaced(s, Now(), dirs, extra);
      }
    }

    /** Directories that tasks hold stay in use, so the tasks stay in them. */
    static lemma StillPlaced(s: Refs, t: Refs, d: Paths.Dirs, extra: multiset<nat>)
      requires Inv(s, extra) && Placed(s, d) && t.tasks == s.tasks && |t.table| == |s.table|
      requires forall i :: 0 <= i < |s.table| && s.table[i].used ==> t.table[i].nr == s.table[i].nr
      ensures Placed(t, d)
    {
      forall x | x in s.tasks
        ensures s.tasks[x].ipwd < |t.table| && t.table[s.tasks[x].ipwd].nr in d.entries
        ensures s.tasks[x].iroot < |t.table| && t.table[s.tasks[x].iroot].nr in d.entries
      {
        DirsInUse(s, extra, x);
      }
      hide Inv;
    }

    /** iput: the last reference takes the inode out of the list and frees its slot, which is never the root's. */
    method Iput(i: nat, ghost extra: multiset<nat>)
      requires i in extra && Valid(extra)
      modifies this`table, this`list
      ensures i < |old(table)| && old(table)[i].count > 0 && Now() == Dropped(old(Now()), i) && Valid(extra - multiset{i})
    {
      hide Inv, NoDup, Held, Without;
      ghost var s := Now();
      DroppedKeeps(s, extra, i);
      table := table[i := table[i].(count := table[i].count - 1)];
      if table[i].count == 0 {
        list := Without(list, i);
        assert i != 0;
        table := table[i := table[i].(used := false)];
      }
      assert Now() == Dropped(s, i);
      StillPlaced(s, Now(), dirs, extra);
    }

    /** Giving back a reference that the call took itself frees nothing that was in use before. */
    static lemma StillSteady(s: Refs, t: Refs, extra: multiset<nat>, i: nat)
      requires Inv(s, extra) && Inv(t, extra + multiset{i}) && Steady(s, t)
      ensures i < |t.table| && t.table[i].count > 0 && Steady(s, Dropped(t, i)) && extra + multiset{i} - multiset{i} == extra
    {
      assert i in extra + multiset{i};
      SameHolders(s, t);
      DroppedKeeps(t, extra + multiset{i}, i);
      hide NoDup, Held, Filed;
      assert s.table[i].used ==> t.table[i].count == s.table[i].count + 1;
    }

    /** iput of the reference to inode i, which the call that began in state s has taken itself. */
    method PutBack(i: nat, ghost s: Refs, ghost extra: multiset<nat>)
      requires Inv(s, extra) && Steady(s, Now()) && Valid(extra + multiset{i})
      modifies this`table, this`list
      ensures Steady(s, Now()) && Valid(extra)
    {
      StillSteady(s, Now(), extra, i);
      hide Inv, Placed, Steady;
      Iput(i, extra + multiset{i});
    }

    /** In-core inode i is the directory or file of number nr, and the call holds a reference to it. */
    ghost predicate Holds(i: nat, nr: nat, s: Refs, extra: multiset<nat>)
      reads this
    {
      i < |table| && table[i].used && table[i].nr == nr && Steady(s, Now()) && Valid(extra + multiset{i})
    }

    /** One turn of named's loop: from a directory to the one below it that the component names. */
    method Descend(inode: nat, p: string, left: nat, ghost dir: nat, ghost s: Refs, ghost extra: multiset<nat>)
      returns (ok: bool, r: Option<nat>, next: nat)
      requires left <= |p| && Inv(s, extra) && Holds(inode, dir, s, extra) && dir in dirs.entries
      modifies this`table, this`list
      ensures !ok ==> Full()
      ensures ok && r == None ==> Steady(s, Now()) && Valid(extra)
      ensures ok && r == None ==>
        var to := Paths.Step(dirs, dir, Paths.Component(p, left));
        to.None? || to.value !in dirs.entries || to.value !in dirs.passable
      ensures ok && r.Some? ==>
        var to := Paths.Step(dirs, dir, Paths.Component(p, left));
        to.Some? && to.value in dirs.entries && to.value in dirs.passable && Holds(r.value, to.value, s, extra) && next == Paths.After(p, left)
    {
      hide Inv, Steady;
      assert Paths.PlainEntries(dirs.entries[table[inode].nr]);
      var found, entry;
      found, entry, next := Paths.FindEntry(dirs.entries[table[inode].nr], p, left);
      PutBack(inode, s, extra);
      if !found {
        return true, None, next;
      }
      var i;
      ok, i := GetAgain(entry.nr, s, extra);
      if !ok {
        return false, None, next;
      }
      if table[i].nr !in dirs.entries || table[i].nr !in dirs.passable {
        PutBack(i, s, extra);
        return true, None, next;
      }
      r := Some(i);
    }

    /** iget, after which whatever was in use when the call began still is. */
    method GetAgain(nr: nat, ghost s: Refs, ghost extra: multiset<nat>) returns (ok: bool, i: nat)
      requires Steady(s, Now()) && Valid(extra)
      modifies this`table, this`list
      ensures !ok ==> Full()
      ensures ok ==> Holds(i, nr, s, extra)
    {
      hide Inv, Placed;
      ok, i := Iget(nr, extra);
    }

    /** The outcome of a lookup that, on paper, leads to number h: one reference to it, or none at all. */
    ghost predicate Reached(r: Option<nat>, h: Option<nat>, s: Refs, extra: multiset<nat>)
      reads this
    {
      match r
      case None => h.None? && Steady(s, Now()) && Valid(extra)
      case Some(i) => h.Some? && Holds(i, h.value, s, extra)
    }

    ghost function RootNr(t: Tid): nat
      reads this
    {
      if t in tasks && tasks[t].iroot < |table| then table[tasks[t].iroot].nr else 0
    }

    ghost function PwdNr(t: Tid): nat
      reads this
    {
      if t in tasks && tasks[t].ipwd < |table| then table[tasks[t].ipwd].nr else 0
    }

    /** The number of the directory that a path leads task t to. */
    ghost function HolderOf(t: Tid, p: string): Option<nat>
      reads this
    {
      Paths.Holder(dirs, RootNr(t), PwdNr(t), p)
    }

    ghost function TargetOf(t: Tid, p: string): Option<nat>
      reads this
    {
      Paths.Target(dirs, RootNr(t), PwdNr(t), p)
    }

    /** inode->count++ on the directory in which a task stands. */
    method Stand(inode: nat, ghost s: Refs, ghost extra: multiset<nat>)
      requires s == Now() && Valid(extra) && inode < INODE_NR && table[inode].used
      modifies this`table
      ensures Holds(inode, old(table)[inode].nr, s, extra)
    {
      SharedKeeps(s, extra, inode);
      hide Inv;
      table := table[inode := table[inode].(count := table[inode].count + 1)];
      assert Now() == Shared(s, inode);
      StillPlaced(s, Now(), dirs, extra);
    }

    /** named: the directory of the last component, with one reference to it; none on failure. */
    method Named(t: Tid, p: string, ghost extra: multiset<nat>) returns (ok: bool, r: Option<nat>, next: nat)
      requires t in tasks && Valid(extra)
      modifies this`table, this`list
      ensures !ok ==> Full()
      ensures ok ==> Reached(r, old(HolderOf(t, p)), old(Now()), extra)
      ensures ok && r.Some? ==> next == Paths.Final(p)
      ensures ok && r.Some? ==>
        r.value < |table| && Paths.Leads(dirs, old(RootNr(t)), old(PwdNr(t)), p, table[r.value].nr, next)
      ensures ok && r == None ==> forall x, last :: !Paths.Leads(dirs, old(RootNr(t)), old(PwdNr(t)), p, x, last)
    {
      hide Inv, Steady, Placed, Valid, Holds, Reached, HolderOf, RootNr, PwdNr, Paths.LastSep, Paths.Walk, Paths.Final, Paths.Holder;
      ghost var s, h := Now(), HolderOf(t, p);
      Homes(t, extra);
      StartOfWalk(t, p, extra);
      LeadsOf(t, p);
      next := 0;
      if p == "" {
        NothingReached(extra);
        WhereReached(None, h, s, extra);
        return true, None, 0;
      }
      var inode, left;
      if Paths.IsSeparator(p[0]) {
        inode, left := tasks[t].iroot, 1;
      } else {
        inode, left := tasks[t].ipwd, 0;
      }
      ghost var from := table[inode].nr;
      assert h == if Paths.LastSep(p, left) == -1 then Some(from) else Paths.Walk(dirs, from, p, left, Paths.LastSep(p, left) + 1);
      Stand(inode, s, extra);
      ok, r, next := NamedFrom(inode, p, left, from, s, extra);
      if ok {
        WhereReached(r, h, s, extra);
      }
    }

    /** The function that describes named, and the trails that describe where a path leads, agree. */
    lemma LeadsOf(t: Tid, p: string)
      ensures forall x: nat, last: nat :: Paths.Leads(dirs, RootNr(t), PwdNr(t), p, x, last) <==> HolderOf(t, p) == Some(x) && last == Paths.Final(p)
    {
      hide Paths.Leads, Paths.Holder, RootNr, PwdNr;
      forall x: nat, last: nat
        ensures Paths.Leads(dirs, RootNr(t), PwdNr(t), p, x, last) <==> HolderOf(t, p) == Some(x) && last == Paths.Final(p)
      {
        Paths.HolderIffLeads(dirs, RootNr(t), PwdNr(t), p, x, last);
      }
    }

    lemma NamesOf(t: Tid, p: string)
      ensures forall x: nat :: Paths.NamesNr(dirs, RootNr(t), PwdNr(t), p, x) <==> TargetOf(t, p) == Some(x)
    {
      hide Paths.NamesNr, Paths.Target, RootNr, PwdNr;
      forall x: nat ensures Paths.NamesNr(dirs, RootNr(t), PwdNr(t), p, x) <==> TargetOf(t, p) == Some(x) {
        Paths.TargetIffNames(dirs, RootNr(t), PwdNr(t), p, x);
      }
    }

    lemma WhereReached(r: Option<nat>, h: Option<nat>, s: Refs, extra: multiset<nat>)
      requires Reached(r, h, s, extra)
      ensures r == None <==> h == None
      ensures r.Some? ==> r.value < |table| && h == Some(table[r.value].nr)
    {
    }

    lemma StartOfWalk(t: Tid, p: string, extra: multiset<nat>)
      requires t in tasks && |table| == INODE_NR && tasks[t].ipwd < INODE_NR && tasks[t].iroot < INODE_NR
      ensures p == "" ==> HolderOf(t, p) == None
      ensures p != "" ==>
        var left := if Paths.IsSeparator(p[0]) then 1 else 0;
        var from := table[if Paths.IsSeparator(p[0]) then tasks[t].iroot else tasks[t].ipwd].nr;
        var last := Paths.LastSep(p, left);
        && HolderOf(t, p) == (if last == -1 then Some(from) else Paths.Walk(dirs, from, p, left, last + 1))
        && Paths.Final(p) == if last == -1 then left else last + 1
    {
    }

    lemma NothingReached(extra: multiset<nat>)
      requires Valid(extra)
      ensures Reached(None, None, Now(), extra)
    {
    }

    /** named, once the directory to start from is known. */
    method NamedFrom(inode: nat, p: string, left: nat, ghost from: nat, ghost s: Refs, ghost extra: multiset<nat>)
      returns (ok: bool, r: Option<nat>, next: nat)
      requires left <= |p| && Inv(s, extra) && Holds(inode, from, s, extra) && from in dirs.entries
      modifies this`table, this`list
      ensures !ok ==> Full()
      ensures ok ==>
        var last := Paths.LastSep(p, left);
        Reached(r, if last == -1 then Some(from) else Paths.Walk(dirs, from, p, left, last + 1), s, extra)
        && (r.Some? ==> next == if last == -1 then left else last + 1)
    {
      hide Inv, Steady, Placed, Valid, Holds, Paths.LastSep, Paths.Walk;
      var last := Paths.LastSeparator(p, left);
      Paths.LastSepIs(p, left, last);
      if last == -1 {
        return true, Some(inode), left;
      }
      ok, r, next := FollowPath(inode, p, left, last + 1, from, s, extra);
      next := last + 1;
    }

    /** A task's directories are directories in use. */
    lemma Homes(t: Tid, extra: multiset<nat>)
      requires t in tasks && Valid(extra)
      ensures |table| == INODE_NR && tasks[t].ipwd < INODE_NR && tasks[t].iroot < INODE_NR && Inv(Now(), extra)
      ensures table[tasks[t].ipwd].used && table[tasks[t].ipwd].nr in dirs.entries
      ensures table[tasks[t].iroot].used && table[tasks[t].iroot].nr in dirs.entries
    {
      DirsInUse(Now(), extra, t);
      hide Inv;
    }

    /** named's loop: `left` comes nearer to `right` with every component, and meets it. */
    method FollowPath(start: nat, p: string, begin: nat, right: nat, ghost from: nat, ghost s: Refs, ghost extra: multiset<nat>)
      returns (ok: bool, r: Option<nat>, next: nat)
      requires begin < right <= |p| && Paths.IsSeparator(p[right - 1]) && from in dirs.entries
      requires Inv(s, extra) && Holds(start, from, s, extra)
      modifies this`table, this`list
      ensures !ok ==> Full()
      ensures ok ==> Reached(r, Paths.Walk(dirs, from, p, begin, right), s, extra)
      ensures ok && r.Some? ==> r.value < |table| && Paths.Reaches(dirs, p, from, begin, right, table[r.value].nr)
      ensures ok && r == None ==> forall x :: !Paths.Reaches(dirs, p, from, begin, right, x)
    {
      hide Inv, Steady, Valid, Paths.Reaches;
      forall x: nat ensures Paths.Reaches(dirs, p, from, begin, right, x) <==> Paths.Walk(dirs, from, p, begin, right) == Some(x) {
        Paths.WalkIffTrail(dirs, from, p, begin, right, x);
      }
      var inode, left := start, begin;
      ghost var dir := from;
      next := left;
      while true
        invariant begin <= left < right && dir in dirs.entries && Holds(inode, dir, s, extra)
        invariant Paths.Walk(dirs, dir, p, left, right) == Paths.Walk(dirs, from, p, begin, right)
        decreases right - left
      {
        ok, r, next := Descend(inode, p, left, dir, s, extra);
        if !ok || r == None {
          return;
        }
        Paths.AfterWithin(p, left, right);
        inode := r.value;
        dir := table[inode].nr;
        if right == next {
          return;
        }
        left := next;
      }
    }

    /** namei: the inode a path names, with one reference to it; none on failure. */
    method Namei(t: Tid, p: string, ghost extra: multiset<nat>) returns (ok: bool, r: Option<nat>)
      requires t in tasks && Valid(extra)
      modifies this`table, this`list
      ensures !ok ==> Full()
      ensures ok ==> Reached(r, old(TargetOf(t, p)), old(Now()), extra)
      ensures ok && r.Some? ==> r.value < |table| && Paths.NamesNr(dirs, old(RootNr(t)), old(PwdNr(t)), p, table[r.value].nr)
      ensures ok && r == None ==> forall x :: !Paths.NamesNr(dirs, old(RootNr(t)), old(PwdNr(t)), p, x)
    {
      hide Inv, Steady, Placed, Valid, Holds, Reached, HolderOf, TargetOf, RootNr, PwdNr, Paths.LastSep, Paths.Walk, Paths.Final, Paths.Holder;
      hide Paths.Leads, Paths.NamesNr;
      ghost var s, h, to := Now(), HolderOf(t, p), TargetOf(t, p);
      NamesOf(t, p);
      Homes(t, extra);
      TargetCases(t, p, extra);
      var dir, next;
      ok, dir, next := Named(t, p, extra);
      if ok {
        FromHolder(dir, h, to, s, extra);
      }
      if !ok || dir == None || next == |p| {
        return ok, dir;
      }
      ok, r := LookUp(dir.value, p, next, h.value, s, extra);
      if ok {
        WhereReached(r, to, s, extra);
      }
    }

    lemma FromHolder(dir: Option<nat>, h: Option<nat>, to: Option<nat>, s: Refs, extra: multiset<nat>)
      requires Reached(dir, h, s, extra)
      ensures dir == None <==> h == None
      ensures dir.Some? ==> dir.value < |table| && h == Some(table[dir.value].nr) && Holds(dir.value, h.value, s, extra)
      ensures h == to ==> Reached(dir, to, s, extra)
    {
    }

    /** How namei's target follows from the directory that named finds. */
    lemma TargetCases(t: Tid, p: string, extra: multiset<nat>)
      requires t in tasks && Valid(extra)
      ensures Paths.Final(p) <= |p| && (HolderOf(t, p).None? ==> TargetOf(t, p).None?)
      ensures HolderOf(t, p).Some? ==>
        && HolderOf(t, p).value in dirs.entries
        && TargetOf(t, p) == if Paths.Final(p) == |p| then HolderOf(t, p)
                             else Paths.Step(dirs, HolderOf(t, p).value, Paths.Component(p, Paths.Final(p)))
    {
      hide Inv, Paths.LastSep, Paths.Walk, Paths.Final;
      Homes(t, extra);
      Paths.HolderIsDir(dirs, RootNr(t), PwdNr(t), p);
    }

    /** find_entry in a directory the call holds, iget of what it names, and iput of the directory. */
    method LookUp(dir: nat, p: string, next: nat, ghost nr: nat, ghost s: Refs, ghost extra: multiset<nat>) returns (ok: bool, r: Option<nat>)
      requires next <= |p| && Inv(s, extra) && Holds(dir, nr, s, extra) && nr in dirs.entries
      modifies this`table, this`list
      ensures !ok ==> Full()
      ensures ok ==> Reached(r, Paths.Step(dirs, nr, Paths.Component(p, next)), s, extra)
    {
      hide Inv, Steady;
      assert Paths.PlainEntries(dirs.entries[table[dir].nr]);
      var found, entry, after := Paths.FindEntry(dirs.entries[table[dir].nr], p, next);
      if !found {
        PutBack(dir, s, extra);
        return true, None;
      }
      var i;
      ghost var u := Now();
      ok, i := Iget(entry.nr, extra + multiset{dir});
      if !ok {
        return false, None;
      }
      BothHeld(s, u, Now(), extra, dir, i);
      PutBackOther(dir, i, entry.nr, s, extra);
      r := Some(i);
    }

    /** A second reference leaves what the call began with in place. */
    static lemma BothHeld(s: Refs, u: Refs, t: Refs, extra: multiset<nat>, dir: nat, i: nat)
      requires Steady(s, u) && Steady(u, t)
      ensures Steady(s, t) && extra + multiset{dir} + multiset{i} == extra + multiset{i} + multiset{dir}
    {
    }

    /** iput of one of two references the call has taken. */
    method PutBackOther(dir: nat, i: nat, ghost nr: nat, ghost s: Refs, ghost extra: multiset<nat>)
      requires Inv(s, extra) && Steady(s, Now()) && Valid(extra + multiset{i} + multiset{dir}) && i < |table| && table[i].used && table[i].nr == nr
      modifies this`table, this`list
      ensures Holds(i, nr, s, extra)
    {
      ghost var t := Now();
      TwoReferences(s, t, extra, i, dir);
      hide Inv, Placed, Steady;
      Iput(dir, extra + multiset{i} + multiset{dir});
    }

    static lemma TwoReferences(s: Refs, t: Refs, extra: multiset<nat>, i: nat, dir: nat)
      requires Inv(s, extra) && Inv(t, extra + multiset{i} + multiset{dir}) && Steady(s, t) && i < |t.table|
      ensures dir < |t.table| && t.table[dir].count > 0 && Steady(s, Dropped(t, dir)) && Dropped(t, dir).table[i].used
      ensures t.table[i].nr == Dropped(t, dir).table[i].nr
      ensures extra + multiset{i} + multiset{dir} - multiset{dir} == extra + multiset{i}
    {
      var both := extra + multiset{i} + multiset{dir};
      assert dir in both;
      SameHolders(s, t);
      DroppedKeeps(t, both, dir);
      assert both - multiset{dir} == extra + multiset{i};
      assert (extra + multiset{i})[i] > 0;
      hide NoDup, Held, Filed;
      assert s.table[dir].used ==> t.table[dir].count > 1;
    }

    /** The entry `name` with number nr joins directory dir. */
    method Enter(dir: nat, name: string, nr: nat, ghost extra: multiset<nat>)
      requires dir in dirs.entries && Paths.Plain(name) && Valid(extra)
      modifies this`dirs
      ensures dirs == Paths.Dirs(old(dirs).entries[dir := Paths.Added(old(dirs).entries[dir], Paths.Entry(nr, name))], old(dirs).passable)
      ensures Valid(extra)
    {
      hide Inv;
      var now := Paths.AddEntry(dirs.entries[dir], Paths.Entry(nr, name));
      Paths.AddedPlain(dirs.entries[dir], Paths.Entry(nr, name));
      dirs := Paths.Dirs(dirs.entries[dir := now], dirs.passable);
    }

    /** The number that inode_open finds or creates below directory dir, if it may be opened. */
    static ghost function OpenNr(d: Paths.Dirs, dir: nat, name: string, create: bool, access: nat, spare: nat, may: (nat, nat) -> bool): Option<nat> {
      match Paths.Step(d, dir, name)
      case Some(nr) => if may(nr, access) && (nr !in d.entries || access == 0) then Some(nr) else None
      case None =>
        if create && may(dir, 2) && may(spare, access) && (spare !in d.entries || access == 0) then Some(spare) else None
    }

    /**
     When inode_open fails: a missing name, unless it may be created; a file that may not be opened in
     this mode; a directory to be written.
     */
    static ghost predicate Refused(d: Paths.Dirs, dir: nat, name: string, create: bool, access: nat, spare: nat, may: (nat, nat) -> bool) {
      || (Paths.Step(d, dir, name).None? && !create)
      || (Paths.Step(d, dir, name).None? && !may(dir, 2))
      || (Paths.Step(d, dir, name).None? && !may(spare, access))
      || (Paths.Step(d, dir, name).None? && spare in d.entries && access != 0)
      || (exists nr :: Paths.Step(d, dir, name) == Some(nr) && (!may(nr, access) || (nr in d.entries && access != 0)))
    }

    /** Whatever else was found before is found as before. */
    static ghost predicate OthersStay(d: Paths.Dirs, now: Paths.Dirs, dir: nat, name: string) {
      && now.passable == d.passable && now.entries.Keys == d.entries.Keys
      && forall x, n :: (x != dir || n != name) && Paths.Step(d, x, n).Some? && Paths.Step(d, x, n).value != 0 ==>
           Paths.Step(now, x, n) == Paths.Step(d, x, n)
    }

    static lemma OpenCases(d: Paths.Dirs, dir: nat, name: string, create: bool, access: nat, spare: nat, may: (nat, nat) -> bool)
      requires dir in d.entries
      ensures
        var now, to := DirsAfter(d, dir, name, create, spare, may), OpenNr(d, dir, name, create, access, spare, may);
        && (to == None <==> Refused(d, dir, name, create, access, spare, may))
        && (to.Some? ==> Paths.Step(now, dir, name) == to) && OthersStay(d, now, dir, name)
    {
      var es, e := d.entries[dir], Paths.Entry(spare, name);
      if Paths.Step(d, dir, name).None? {
        Paths.AddedIsFound(es, e, name);
        forall n | n != name && Paths.Step(d, dir, n).Some? && Paths.Step(d, dir, n).value != 0
          ensures Paths.PosOf(Paths.Added(es, e), n) == Paths.PosOf(es, n) && Paths.Added(es, e)[Paths.PosOf(es, n)] == es[Paths.PosOf(es, n)]
        {
          Paths.AddedIsFound(es, e, n);
        }
      }
      hide Paths.Added, Paths.PosOf;
    }

    /** The directories after inode_open. */
    static ghost function DirsAfter(d: Paths.Dirs, dir: nat, name: string, create: bool, spare: nat, may: (nat, nat) -> bool): Paths.Dirs {
      if dir in d.entries && Paths.Step(d, dir, name).None? && create && may(dir, 2)
      then Paths.Dirs(d.entries[dir := Paths.Added(d.entries[dir], Paths.Entry(spare, name))], d.passable)
      else d
    }

    /**
     inode_open, once the directory is known. `may` is permission(inode, mask), `spare` the number that
     ialloc gives, `access` the access mode of the flags.
     */
    method OpenIn(dir: nat, p: string, next: nat, create: bool, access: nat, spare: nat, may: (nat, nat) -> bool,
                  ghost nr: nat, ghost s: Refs, ghost extra: multiset<nat>) returns (ok: bool, r: Option<nat>)
      requires next <= |p| && next == Paths.Final(p) && Inv(s, extra) && Holds(dir, nr, s, extra) && nr in dirs.entries
      modifies this`table, this`list, this`dirs
      ensures !ok ==> Full()
      ensures ok ==> Reached(r, OpenNr(old(dirs), nr, Paths.Component(p, next), create, access, spare, may), s, extra)
      ensures ok ==> dirs == DirsAfter(old(dirs), nr, Paths.Component(p, next), create, spare, may)
      ensures ok ==> (r == None <==> Refused(old(dirs), nr, p[next..], create, access, spare, may))
      ensures ok && r.Some? ==> r.value < |table| && Paths.Step(dirs, nr, p[next..]) == Some(table[r.value].nr)
      ensures ok ==> OthersStay(old(dirs), dirs, nr, p[next..])
      ensures dirs.entries.Keys == old(dirs).entries.Keys
    {
      hide Inv, Steady, Refused, OthersStay;
      ghost var d := dirs;
      ghost var name := Paths.Component(p, next);
      LastIsPlain(p, next);
      OpenCases(d, nr, name, create, access, spare, may);
      assert Paths.PlainEntries(dirs.entries[table[dir].nr]);
      var found, entry, after := Paths.FindEntry(dirs.entries[table[dir].nr], p, next);
      if !found && (!create || !may(table[dir].nr, 2)) {
        PutBack(dir, s, extra);
        return true, None;
      }
      var target := entry.nr;
      if !found {
        target := spare;
        Enter(table[dir].nr, p[next..], spare, extra + multiset{dir});
      }
      var i;
      ghost var u := Now();
      ok, i := Iget(target, extra + multiset{dir});
      if !ok {
        return false, None;
      }
      BothHeld(s, u, Now(), extra, dir, i);
      PutBackOther(dir, i, target, s, extra);
      if !may(target, access) || (target in dirs.entries && access != 0) {
        PutBack(i, s, extra);
        return true, None;
      }
      r := Some(i);
    }

    static lemma LastIsPlain(p: string, next: nat)
      requires next <= |p| && next == Paths.Final(p)
      ensures Paths.Plain(p[next..]) && Paths.Component(p, next) == p[next..]
    {
      assert forall j :: next <= j < |p| ==> p[next..][j - next] == p[j];
    }

    /** What a path and flags lead inode_open to: an existing directory when the path ends in a separator. */
    ghost function OpenedBy(t: Tid, p: string, create: bool, access: nat, spare: nat, may: (nat, nat) -> bool): Option<nat>
      reads this
    {
      match HolderOf(t, p)
      case None => None
      case Some(dir) =>
        if Paths.Final(p) == |p| then Some(dir)
        else OpenNr(dirs, dir, Paths.Component(p, Paths.Final(p)), create, access, spare, may)
    }

    ghost function DirsOpened(t: Tid, p: string, create: bool, spare: nat, may: (nat, nat) -> bool): Paths.Dirs
      reads this
    {
      match HolderOf(t, p)
      case None => dirs
      case Some(dir) => if Paths.Final(p) == |p| then dirs else DirsAfter(dirs, dir, Paths.Component(p, Paths.Final(p)), create, spare, may)
    }

    /** inode_open: one reference to what is opened; none on failure. */
    method InodeOpen(t: Tid, p: string, create: bool, access: nat, spare: nat, may: (nat, nat) -> bool, ghost extra: multiset<nat>)
      returns (ok: bool, r: Option<nat>)
      requires t in tasks && Valid(extra)
      modifies this`table, this`list, this`dirs
      ensures !ok ==> Full()
      ensures ok ==> Reached(r, old(OpenedBy(t, p, create, access, spare, may)), old(Now()), extra)
      ensures ok ==> dirs == old(DirsOpened(t, p, create, spare, may))
      ensures ok && r.Some? ==> r.value < |table| && exists dir: nat, last: nat ::
        && Paths.Leads(old(dirs), old(RootNr(t)), old(PwdNr(t)), p, dir, last) && last <= |p|
        && if last == |p| then table[r.value].nr == dir
           else !Refused(old(dirs), dir, p[last..], create, access, spare, may) && Paths.Step(dirs, dir, p[last..]) == Some(table[r.value].nr)
      ensures ok && r == None ==> forall dir: nat, last: nat ::
        Paths.Leads(old(dirs), old(RootNr(t)), old(PwdNr(t)), p, dir, last) ==>
          last < |p| && Refused(old(dirs), dir, p[last..], create, access, spare, may)
      ensures dirs.entries.Keys == old(dirs).entries.Keys
    {
      hide Inv, Steady, Placed, Valid, Holds, Reached, HolderOf, TargetOf, RootNr, PwdNr, OpenNr, Refused, OthersStay;
      hide Paths.LastSep, Paths.Walk, Paths.Final, Paths.Holder, Paths.Leads;
      ghost var s, h := Now(), HolderOf(t, p);
      Homes(t, extra);
      TargetCases(t, p, extra);
      LeadsOf(t, p);
      ghost var to := OpenedBy(t, p, create, access, spare, may);
      var dir, next;
      ok, dir, next := Named(t, p, extra);
      if ok {
        FromHolder(dir, h, to, s, extra);
      }
      if !ok || dir == None || next == |p| {
        return ok, dir;
      }
      ok, r := OpenIn(dir.value, p, next, create, access, spare, may, h.value, s, extra);
      if ok {
        WhereReached(r, to, s, extra);
      }
    }

    /** task_get_fd: the first free descriptor from 3 on. */
    method TaskGetFd(t: Tid) returns (ok: bool, fd: nat)
      requires t in tasks && |tasks[t].files| == TASK_FILE_NR
      ensures ok ==> FIRST_FD <= fd < TASK_FILE_NR && tasks[t].files[fd] == None && forall x :: FIRST_FD <= x < fd ==> tasks[t].files[x].Some?
      ensures !ok ==> forall x :: FIRST_FD <= x < TASK_FILE_NR ==> tasks[t].files[x].Some?
    {
      fd := FIRST_FD;
      while fd < TASK_FILE_NR
        invariant FIRST_FD <= fd <= TASK_FILE_NR && forall x :: FIRST_FD <= x < fd ==> tasks[t].files[x].Some?
      {
        if tasks[t].files[fd] == None {
          return true, fd;
        }
        fd := fd + 1;
      }
      ok := false;
    }

    /** get_file: the first unused file from 3 on. */
    method GetFile() returns (ok: bool, f: nat)
      requires |files| == FILE_NR
      ensures ok ==> FIRST_FD <= f < FILE_NR && files[f].count == 0 && forall x :: FIRST_FD <= x < f ==> files[x].count > 0
      ensures !ok ==> forall x :: FIRST_FD <= x < FILE_NR ==> files[x].count > 0
    {
      f := FIRST_FD;
      while f < FILE_NR
        invariant FIRST_FD <= f <= FILE_NR && forall x :: FIRST_FD <= x < f ==> files[x].count > 0
      {
        if files[f].count == 0 {
          return true, f;
        }
        f := f + 1;
      }
      ok := false;
    }

    /** Nothing can be opened: no inode slot, no descriptor or no file is left. */
    ghost predicate Exhausted(t: Tid)
      reads this
    {
      || Full()
      || (t in tasks && |tasks[t].files| == TASK_FILE_NR && forall x :: FIRST_FD <= x < TASK_FILE_NR ==> tasks[t].files[x].Some?)
      || (|files| == FILE_NR && forall x :: FIRST_FD <= x < FILE_NR ==> files[x].count > 0)
    }

    /** The first free descriptor of task t names the first unused file, and that file is inode number h. */
    static ghost predicate OpenedFd(s: Refs, u: Refs, t: Tid, fd: int, h: Option<nat>) {
      && h.Some? && FIRST_FD <= fd < TASK_FILE_NR && t in s.tasks && |s.tasks[t].files| == TASK_FILE_NR && s.tasks[t].files[fd] == None
      && (forall x :: FIRST_FD <= x < fd ==> s.tasks[t].files[x].Some?)
      && exists f: nat, i: nat ::
           f < |s.files| && s.files[f].count == 0 && (forall x :: FIRST_FD <= x < f ==> s.files[x].count > 0) && i < |u.table| && u.table[i].used && u.table[i].nr == h.value
           && u.tasks == WithFd(s.tasks, t, fd, Some(f)) && u.files == s.files[f := File(1, i)]
    }

    /** sys_open */
    method SysOpen(t: Tid, p: string, create: bool, access: nat, spare: nat, may: (nat, nat) -> bool, ghost extra: multiset<nat>)
      returns (ok: bool, fd: int)
      requires t in tasks && Valid(extra)
      modifies this
      ensures !ok ==> Exhausted(t)
      ensures ok && fd == -1 ==> old(OpenedBy(t, p, create, access, spare, may)).None? && Steady(old(Now()), Now()) && Valid(extra)
      ensures ok && fd != -1 ==> OpenedFd(old(Now()), Now(), t, fd, old(OpenedBy(t, p, create, access, spare, may))) && Valid(extra)
    {
      hide Inv, Placed, OpenedBy, OpenedFd;
      ghost var s, h := Now(), OpenedBy(t, p, create, access, spare, may);
      var r;
      ok, r := InodeOpen(t, p, create, access, spare, may, extra);
      fd := -1;
      if !ok || r == None {
        return;
      }
      ghost var u := Now();
      FilesShape(u, t, extra + multiset{r.value});
      ok, fd := TaskGetFd(t);
      if !ok {
        return;
      }
      var f;
      ok, f := GetFile();
      if !ok {
        return;
      }
      OpenedKeeps(s, u, dirs, extra, t, fd, f, r.value, h);
      tasks := WithFd(tasks, t, fd, Some(f));
      files := files[f := File(1, r.value)];
      assert Now() == WithOpen(u, t, fd, f, r.value);
    }

    static lemma FilesShape(u: Refs, t: Tid, extra: multiset<nat>)
      requires Inv(u, extra) && t in u.tasks
      ensures |u.files| == FILE_NR && |u.tasks[t].files| == TASK_FILE_NR
    {
      assert Tasked(u.tasks[t]);
    }

    static lemma OpenedKeeps(s: Refs, u: Refs, d: Paths.Dirs, extra: multiset<nat>, t: Tid, fd: nat, f: nat, i: nat, h: Option<nat>)
      requires Steady(s, u) && Inv(u, extra + multiset{i}) && Placed(u, d) && t in u.tasks
      requires FIRST_FD <= fd < TASK_FILE_NR == |u.tasks[t].files| && u.tasks[t].files[fd] == None
      requires forall x :: FIRST_FD <= x < fd ==> u.tasks[t].files[x].Some?
      requires FIRST_FD <= f < FILE_NR == |u.files| && u.files[f].count == 0 && forall x :: FIRST_FD <= x < f ==> u.files[x].count > 0
      requires i < |u.table| && u.table[i].used && h == Some(u.table[i].nr)
      ensures
        var w := WithOpen(u, t, fd, f, i);
        Inv(w, extra) && Placed(w, d) && OpenedFd(s, w, t, fd, h)
    {
      hide Inv;
      assert i in extra + multiset{i} && extra + multiset{i} - multiset{i} == extra;
      WithOpenKeeps(u, extra + multiset{i}, t, fd, f, i);
    }

    /**
     sys_close: the descriptor is cleared, the file loses a reference, and with the last one its inode
     does. The source clears the descriptor last, which comes to the same.
     */
    method SysClose(t: Tid, fd: nat, ghost extra: multiset<nat>)
      requires t in tasks && fd < TASK_FILE_NR == |tasks[t].files| && Valid(extra)
      modifies this
      ensures old(tasks)[t].files[fd] == None ==> Now() == old(Now())
      ensures old(tasks)[t].files[fd].Some? ==>
        && old(tasks)[t].files[fd].value < |old(files)|
        && tasks == WithFd(old(tasks), t, fd, None)
        && var f := old(tasks)[t].files[fd].value;
           old(files)[f].count > 0 && files == old(files)[f := old(files)[f].(count := old(files)[f].count - 1)]
      ensures dirs == old(dirs) && Valid(extra)
    {
      hide Inv, Placed, Tasked;
      ghost var s := Now();
      if tasks[t].files[fd] == None {
        return;
      }
      var f := tasks[t].files[fd].value;
      ClosedKeeps(s, dirs, extra, t, fd, f);
      tasks := WithFd(tasks, t, fd, None);
      files := files[f := files[f].(count := files[f].count - 1)];
      assert Now() == WithoutOpen(s, t, fd, f);
      if files[f].count == 0 {
        ghost var i := files[f].inode;
        assert extra + multiset{i} - multiset{i} == extra;
        Iput(files[f].inode, extra + multiset{i});
      }
    }

    static lemma ClosedKeeps(s: Refs, d: Paths.Dirs, extra: multiset<nat>, t: Tid, fd: nat, f: nat)
      requires Inv(s, extra) && Placed(s, d) && t in s.tasks && fd < |s.tasks[t].files| && s.tasks[t].files[fd] == Some(f)
      ensures f < |s.files| && s.files[f].count > 0
      ensures
        var u := WithoutOpen(s, t, fd, f);
        Placed(u, d) && Inv(u, if s.files[f].count == 1 then extra + multiset{s.files[f].inode} else extra)
    {
      hide Inv;
      WithoutOpenKeeps(s, extra, t, fd, f);
    }

    /** sys_chdir: the process moves to another directory, and gives up the one it was in. */
    method SysChdir(t: Tid, p: string, ghost extra: multiset<nat>) returns (ok: bool, ret: int)
      requires t in tasks && Valid(extra)
      modifies this`table, this`list, this`tasks
      ensures !ok ==> Full()
      ensures ok ==> (ret == 0 || ret == -1) && tasks.Keys == old(tasks).Keys && Valid(extra)
      ensures ok ==>
        var to := old(TargetOf(t, p));
        (ret == 0 <==> to.Some? && to.value in dirs.entries && to.value != old(PwdNr(t))) && (ret == 0 ==> PwdNr(t) == to.value)
      ensures ok && ret == 0 ==> tasks == old(tasks)[t := old(tasks)[t].(ipwd := tasks[t].ipwd)]
      ensures ok && ret == -1 ==> tasks == old(tasks)
    {
      hide Inv, Placed, Steady, TargetOf;
      ghost var s, h := Now(), TargetOf(t, p);
      Homes(t, extra);
      var r;
      ok, r := Namei(t, p, extra);
      ret := -1;
      if !ok || r == None {
        return;
      }
      var inode := r.value;
      ghost var u := Now();
      TasksStay(s, u);
      SameHome(s, u, extra, t, inode);
      if table[inode].nr !in dirs.entries || inode == tasks[t].ipwd {
        PutBack(inode, s, extra);
        TasksStay(s, Now());
        return;
      }
      var was := tasks[t].ipwd;
      MovedKeeps(u, dirs, extra, t, inode);
      tasks := tasks[t := tasks[t].(ipwd := inode)];
      assert Now() == WithPwd(u, t, inode);
      Iput(was, extra + multiset{was});
      ret := 0;
    }

    /** One number is at most once in core, so comparing pointers compares numbers. */
    static lemma SameHome(s: Refs, u: Refs, extra: multiset<nat>, t: Tid, i: nat)
      requires Inv(s, extra) && Steady(s, u) && Inv(u, extra + multiset{i}) && t in s.tasks && i < |u.table| && u.table[i].used
      ensures s.tasks[t].ipwd < |s.table| && s.tasks[t].iroot < |s.table|
      ensures i == s.tasks[t].ipwd <==> u.table[i].nr == s.table[s.tasks[t].ipwd].nr
      ensures i == s.tasks[t].iroot <==> u.table[i].nr == s.table[s.tasks[t].iroot].nr
    {
      DirsInUse(s, extra, t);
      hide NoDup, Counted, Filed;
    }

    static lemma MovedKeeps(u: Refs, d: Paths.Dirs, extra: multiset<nat>, t: Tid, i: nat)
      requires Inv(u, extra + multiset{i}) && Placed(u, d) && t in u.tasks && i < |u.table| && u.table[i].nr in d.entries
      ensures Inv(WithPwd(u, t, i), extra + multiset{u.tasks[t].ipwd}) && Placed(WithPwd(u, t, i), d)
      ensures Inv(WithRoot(u, t, i), extra + multiset{u.tasks[t].iroot}) && Placed(WithRoot(u, t, i), d)
      ensures extra + multiset{u.tasks[t].ipwd} - multiset{u.tasks[t].ipwd} == extra
      ensures extra + multiset{u.tasks[t].iroot} - multiset{u.tasks[t].iroot} == extra
    {
      hide Inv;
      assert i in extra + multiset{i} && extra + multiset{i} - multiset{i} == extra;
      WithPwdKeeps(u, extra + multiset{i}, t, i);
      WithRootKeeps(u, extra + multiset{i}, t, i);
    }

    /** sys_chroot */
    method SysChroot(t: Tid, p: string, ghost extra: multiset<nat>) returns (ok: bool, ret: int)
      requires t in tasks && Valid(extra)
      modifies this`table, this`list, this`tasks
      ensures !ok ==> Full()
      ensures ok ==> (ret == 0 || ret == -1) && tasks.Keys == old(tasks).Keys && Valid(extra)
      ensures ok ==>
        var to := old(TargetOf(t, p));
        (ret == 0 <==> to.Some? && to.value in dirs.entries && to.value != old(RootNr(t))) && (ret == 0 ==> RootNr(t) == to.value)
      ensures ok && ret == 0 ==> tasks == old(tasks)[t := old(tasks)[t].(iroot := tasks[t].iroot)]
      ensures ok && ret == -1 ==> tasks == old(tasks)
    {
      hide Inv, Placed, Steady, TargetOf;
      ghost var s, h := Now(), TargetOf(t, p);
      Homes(t, extra);
      var r;
      ok, r := Namei(t, p, extra);
      ret := -1;
      if !ok || r == None {
        return;
      }
      var inode := r.value;
      ghost var u := Now();
      TasksStay(s, u);
      SameHome(s, u, extra, t, inode);
      if table[inode].nr !in dirs.entries || inode == tasks[t].iroot {
        PutBack(inode, s, extra);
        TasksStay(s, Now());
        return;
      }
      var was := tasks[t].iroot;
      MovedKeeps(u, dirs, extra, t, inode);
      tasks := tasks[t := tasks[t].(iroot := inode)];
      assert Now() == WithRoot(u, t, inode);
      Iput(was, extra + multiset{was});
      ret := 0;
    }

    static lemma TasksStay(s: Refs, u: Refs)
      requires Steady(s, u)
      ensures u.tasks == s.tasks && u.files == s.files
    {
    }

    /** update_inode_open_cnts, and the child's record. */
    method Fork(parent: Tid, child: Tid, ghost extra: multiset<nat>)
      requires parent in tasks && child !in tasks && Valid(extra)
      modifies this`table, this`files, this`tasks
      ensures parent in old(tasks) && tasks == old(tasks)[child := old(tasks)[parent]]
      ensures Valid(extra)
    {
      hide Inv, CountedUp;
      ghost var s := Now();
      Homes(parent, extra);
      FilesShape(s, parent, extra);
      ForkedKeeps(s, extra, parent, child);
      var v := tasks[parent];
      tasks := tasks[child := v];
      table := table[v.ipwd := table[v.ipwd].(count := table[v.ipwd].count + 1)];
      table := table[v.iroot := table[v.iroot].(count := table[v.iroot].count + 1)];
      CountUp(v.files);
      assert Now() == Forked(s, parent, child);
    }

    /** The loop over the child's descriptors. */
    method CountUp(fds: seq<Option<nat>>)
      modifies this`files
      ensures files == CountedUp(old(files), fds, |fds|)
    {
      var i := 0;
      while i < |fds|
        invariant 0 <= i <= |fds| && files == CountedUp(old(files), fds, i)
      {
        if fds[i].Some? && fds[i].value < |files| {
          files := files[fds[i].value := files[fds[i].value].(count := files[fds[i].value].count + 1)];
        }
        i := i + 1;
      }
    }

    /** init_thread: a kernel thread starts at the root, with no open file. */
    method InitThread(t: Tid, ghost extra: multiset<nat>)
      requires t !in tasks && Valid(extra) && ROOT_NR in dirs.entries
      modifies this`table, this`tasks
      ensures tasks == old(tasks)[t := Task(0, 0, seq(TASK_FILE_NR, _ => None))]
      ensures Valid(extra)
    {
      hide Inv;
      ghost var s := Now();
      StartedKeeps(s, extra, t);
      RootInCore(s, extra);
      table := table[0 := table[0].(count := table[0].count + 2)];
      tasks := tasks[t := Task(0, 0, seq(TASK_FILE_NR, _ => None))];
      assert Now() == Started(s, t);
    }

    static lemma RootInCore(s: Refs, extra: multiset<nat>)
      requires Inv(s, extra)
      ensures |s.table| > 0 && s.table[0].nr == ROOT_NR
    {
    }
  }
}
