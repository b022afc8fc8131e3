/**
 Reference counts of in-core inodes and open files, as pure values (src/fs/inode.c, src/fs/file.c,
 src/fs/namei.c, src/kernel/fork.c).

 In-core inodes and entries of file_table are named by their index. `extra` are the references that
 a call under way holds in its local variables.
 */
module RefStates {
  import opened Common
  import opened Seqs

  const INODE_NR: nat := 64
  const FILE_NR: nat := 128
  const TASK_FILE_NR: nat := 16
  const FIRST_FD: nat := 3
  const ROOT_NR: nat := 1

  datatype Inode = Inode(used: bool, nr: nat, count: nat)
  datatype File = File(count: nat, inode: nat)
  datatype Task = Task(ipwd: nat, iroot: nat, files: seq<Option<nat>>)

  datatype Refs = Refs(
    table: seq<Inode>,       // inode_table; inode 0 is the root
    list: seq<nat>,          // sb->inode_list
    files: seq<File>,        // file_table
    tasks: map<Tid, Task>)

  // ----- the holders -----

  ghost function Pwds(tasks: map<Tid, Task>, i: nat): set<Tid> {
    set t | t in tasks && tasks[t].ipwd == i
  }

  ghost function Roots(tasks: map<Tid, Task>, i: nat): set<Tid> {
    set t | t in tasks && tasks[t].iroot == i
  }

  /** The open files on inode i. */
  ghost function Opens(files: seq<File>, i: nat): set<nat> {
    set f: nat | f < |files| && files[f].count > 0 && files[f].inode == i
  }

  /** The descriptors, over all tasks, that name file f. */
  ghost function Slots(tasks: map<Tid, Task>, f: nat): set<(Tid, nat)> {
    set t, fd: nat | t in tasks && fd < |tasks[t].files| && tasks[t].files[fd] == Some(f) :: (t, fd)
  }

  /** sb->iroot and sb->imount both name the root. */
  function Mounts(i: nat): nat {
    if i == 0 then 2 else 0
  }

  ghost function Held(s: Refs, i: nat): nat {
    |Pwds(s.tasks, i)| + |Roots(s.tasks, i)| + |Opens(s.files, i)| + Mounts(i)
  }

  // ----- the invariant -----

  /** Inodes in use stand once in the list, under different numbers; the root is always one of them. */
  ghost predicate Tabled(s: Refs) {
    && |s.table| == INODE_NR && NoDup(s.list)
    && (forall i: nat :: i in s.list <==> i < INODE_NR && s.table[i].used)
    && (forall i, j :: 0 <= i < j < INODE_NR && s.table[i].used && s.table[j].used ==> s.table[i].nr != s.table[j].nr)
    && (forall i :: 0 <= i < INODE_NR ==> (s.table[i].used <==> s.table[i].count > 0))
    && s.table[0].used && s.table[0].nr == ROOT_NR
  }

  /** Every count is the number of holders. */
  ghost predicate Counted(s: Refs, extra: multiset<nat>) {
    && |s.table| == INODE_NR
    && (forall i :: 0 <= i < INODE_NR ==> s.table[i].count == Held(s, i) + extra[i])
    && (forall i :: i in extra ==> i < INODE_NR)
  }

  /** Every file's count is the number of descriptors that name it; descriptors 0 to 2 name none. */
  ghost predicate Filed(s: Refs) {
    && |s.files| == FILE_NR
    && (forall f :: 0 <= f < FILE_NR ==> s.files[f].count == |Slots(s.tasks, f)| && s.files[f].inode < INODE_NR)
    && (forall t :: t in s.tasks ==> Tasked(s.tasks[t]))
  }

  ghost predicate Tasked(t: Task) {
    && t.ipwd < INODE_NR && t.iroot < INODE_NR && |t.files| == TASK_FILE_NR
    && (forall fd :: 0 <= fd < TASK_FILE_NR && t.files[fd].Some? ==> fd >= FIRST_FD && FIRST_FD <= t.files[fd].value < FILE_NR)
  }

  ghost predicate Inv(s: Refs, extra: multiset<nat>) {
    Tabled(s) && Counted(s, extra) && Filed(s)
  }

  // ----- iget and iput -----

  /** iget, when inode nr is already in core at i. */
  function Shared(s: Refs, i: nat): Refs
    requires i < |s.table|
  {
    s.(table := s.table[i := s.table[i].(count := s.table[i].count + 1)])
  }

  /** iget, when a free slot i is taken for inode nr. */
  function Loaded(s: Refs, i: nat, nr: nat): Refs
    requires i < |s.table|
  {
    s.(table := s.table[i := Inode(true, nr, s.table[i].count + 1)], list := [i] + s.list)
  }

  /** iput */
  function Dropped(s: Refs, i: nat): Refs
    requires i < |s.table| && s.table[i].count > 0
  {
    if s.table[i].count > 1 then s.(table := s.table[i := s.table[i].(count := s.table[i].count - 1)])
    else s.(table := s.table[i := s.table[i].(count := 0, used := false)], list := Without(s.list, i))
  }

  lemma SharedKeeps(s: Refs, extra: multiset<nat>, i: nat)
    requires Inv(s, extra) && i < INODE_NR && s.table[i].used
    ensures Inv(Shared(s, i), extra + multiset{i})
  {
    hide NoDup, Held, Filed;
    assert forall j :: Held(Shared(s, i), j) == Held(s, j) by { SameHolders(s, Shared(s, i)); }
    assert Filed(Shared(s, i)) by { SameFiled(s, Shared(s, i)); }
  }

  lemma SameHolders(s: Refs, t: Refs)
    requires t.files == s.files && t.tasks == s.tasks
    ensures forall j :: Held(t, j) == Held(s, j)
  {
  }

  lemma SameFiled(s: Refs, t: Refs)
    requires t.files == s.files && t.tasks == s.tasks && Filed(s)
    ensures Filed(t)
  {
  }

  lemma LoadedKeeps(s: Refs, extra: multiset<nat>, i: nat, nr: nat)
    requires Inv(s, extra) && i < INODE_NR && !s.table[i].used
    requires forall j :: 0 <= j < INODE_NR && s.table[j].used ==> s.table[j].nr != nr
    ensures Inv(Loaded(s, i, nr), extra + multiset{i}) && Loaded(s, i, nr).table[i].count == 1
  {
    AppendNoDup(s.list, i);
    SameHolders(s, Loaded(s, i, nr));
    SameFiled(s, Loaded(s, i, nr));
    hide NoDup, Held, Filed;
  }

  /** Giving a reference back: the last one frees the slot, which is never the root's. */
  lemma DroppedKeeps(s: Refs, extra: multiset<nat>, i: nat)
    requires Inv(s, extra) && i in extra
    ensures i < INODE_NR == |s.table| && s.table[i].used && s.table[i].count > 0
    ensures Inv(Dropped(s, i), extra - multiset{i})
    ensures s.table[i].count == 1 ==> i != 0
  {
    WithoutProperties(s.list, i);
    assert Held(s, 0) >= 2;
    SameHolders(s, Dropped(s, i));
    SameFiled(s, Dropped(s, i));
    hide NoDup, Held, Filed;
  }

  // ----- changes of the holders -----

  /** A set that may lose or gain x. */
  lemma Swapped<T>(a: set<T>, b: set<T>, x: T, now: bool)
    requires b == a - {x} + if now then {x} else {}
    ensures |b| == |a| - (if x in a then 1 else 0) + if now then 1 else 0
  {
    assert b - {x} == a - {x};
  }

  /** Putting task v in place of task t's record. */
  lemma RepointedPwd(tasks: map<Tid, Task>, t: Tid, v: Task, i: nat)
    ensures |Pwds(tasks[t := v], i)| == |Pwds(tasks, i)| - (if t in tasks && tasks[t].ipwd == i then 1 else 0) + if v.ipwd == i then 1 else 0
  {
    Swapped(Pwds(tasks, i), Pwds(tasks[t := v], i), t, v.ipwd == i);
  }

  lemma RepointedRoot(tasks: map<Tid, Task>, t: Tid, v: Task, i: nat)
    ensures |Roots(tasks[t := v], i)| == |Roots(tasks, i)| - (if t in tasks && tasks[t].iroot == i then 1 else 0) + if v.iroot == i then 1 else 0
  {
    Swapped(Roots(tasks, i), Roots(tasks[t := v], i), t, v.iroot == i);
  }

  lemma Repointed(tasks: map<Tid, Task>, t: Tid, v: Task, i: nat)
    ensures |Pwds(tasks[t := v], i)| == |Pwds(tasks, i)| - (if t in tasks && tasks[t].ipwd == i then 1 else 0) + if v.ipwd == i then 1 else 0
    ensures |Roots(tasks[t := v], i)| == |Roots(tasks, i)| - (if t in tasks && tasks[t].iroot == i then 1 else 0) + if v.iroot == i then 1 else 0
  {
    hide Pwds, Roots;
    RepointedPwd(tasks, t, v, i);
    RepointedRoot(tasks, t, v, i);
  }

  /** The counts fit when what the holders gain, the call gives up. */
  lemma Recounted(s: Refs, u: Refs, extra: multiset<nat>, now: multiset<nat>)
    requires Tabled(s) && Counted(s, extra) && u.table == s.table && u.list == s.list && forall i :: i in now ==> i < INODE_NR
    requires forall j: nat :: Held(u, j) + now[j] == Held(s, j) + extra[j]
    ensures Tabled(u) && Counted(u, now)
  {
    hide Held, NoDup;
  }

  lemma SameSlots(tasks: map<Tid, Task>, t: Tid, v: Task, f: nat)
    requires t in tasks && v.files == tasks[t].files
    ensures Slots(tasks[t := v], f) == Slots(tasks, f)
  {
  }

  /** sys_chdir: the process's reference to its old directory becomes the call's. */
  function WithPwd(s: Refs, t: Tid, i: nat): Refs
    requires t in s.tasks
  {
    s.(tasks := s.tasks[t := s.tasks[t].(ipwd := i)])
  }

  function WithRoot(s: Refs, t: Tid, i: nat): Refs
    requires t in s.tasks
  {
    s.(tasks := s.tasks[t := s.tasks[t].(iroot := i)])
  }

  /** The two directory references of a task. */
  ghost function DirsOf(v: Task): multiset<nat> {
    multiset{v.ipwd, v.iroot}
  }

  lemma Traded(extra: multiset<nat>, give: multiset<nat>, take: multiset<nat>, j: nat)
    requires take <= extra + give
    ensures (extra + give - take)[j] == extra[j] + give[j] - take[j]
  {
    assert take[j] <= (extra + give)[j];
  }

  lemma OneTraded(extra: multiset<nat>, a: nat, b: nat, i: nat)
    requires i in extra
    ensures multiset{i, b} <= extra + multiset{a, b} && extra + multiset{a, b} - multiset{i, b} == extra - multiset{i} + multiset{a}
    ensures multiset{b, i} <= extra + multiset{b, a} && extra + multiset{b, a} - multiset{b, i} == extra - multiset{i} + multiset{a}
  {
    assert multiset{b, i} == multiset{i, b} && multiset{b, a} == multiset{a, b};
  }

  lemma WithPwdKeeps(s: Refs, extra: multiset<nat>, t: Tid, i: nat)
    requires Inv(s, extra) && t in s.tasks && i in extra
    ensures Inv(WithPwd(s, t, i), extra - multiset{i} + multiset{s.tasks[t].ipwd})
  {
    var v := s.tasks[t].(ipwd := i);
    assert Tasked(s.tasks[t]);
    OneTraded(extra, s.tasks[t].ipwd, v.iroot, i);
    hide Inv, Tasked;
    RetaskedKeeps(s, extra, t, v);
  }

  lemma WithRootKeeps(s: Refs, extra: multiset<nat>, t: Tid, i: nat)
    requires Inv(s, extra) && t in s.tasks && i in extra
    ensures Inv(WithRoot(s, t, i), extra - multiset{i} + multiset{s.tasks[t].iroot})
  {
    var v := s.tasks[t].(iroot := i);
    assert Tasked(s.tasks[t]);
    OneTraded(extra, s.tasks[t].iroot, v.ipwd, i);
    hide Inv, Tasked;
    RetaskedKeeps(s, extra, t, v);
  }

  /** A task's directories change: the call takes over the old references and gives up the new ones. */
  lemma RetaskedKeeps(s: Refs, extra: multiset<nat>, t: Tid, v: Task)
    requires Inv(s, extra) && t in s.tasks && v.files == s.tasks[t].files && v.ipwd < INODE_NR && v.iroot < INODE_NR
    requires DirsOf(v) <= extra + DirsOf(s.tasks[t])
    ensures Inv(s.(tasks := s.tasks[t := v]), extra + DirsOf(s.tasks[t]) - DirsOf(v))
  {
    var u := s.(tasks := s.tasks[t := v]);
    assert Tasked(s.tasks[t]) && Tasked(v);
    RetaskedCounts(s, u, extra, t, v);
    RetaskedFiled(s, u, t, v);
    hide Tabled, Counted, Filed, DirsOf;
  }

  lemma RetaskedCounts(s: Refs, u: Refs, extra: multiset<nat>, t: Tid, v: Task)
    requires Tabled(s) && Counted(s, extra) && t in s.tasks && u == s.(tasks := s.tasks[t := v]) && Tasked(s.tasks[t])
    requires DirsOf(v) <= extra + DirsOf(s.tasks[t])
    ensures Tabled(u) && Counted(u, extra + DirsOf(s.tasks[t]) - DirsOf(v))
  {
    var now := extra + DirsOf(s.tasks[t]) - DirsOf(v);
    forall j: nat ensures Held(u, j) + now[j] == Held(s, j) + extra[j] {
      RetaskedHeld(s, t, v, j);
      Traded(extra, DirsOf(s.tasks[t]), DirsOf(v), j);
    }
    hide Held;
    Recounted(s, u, extra, now);
  }

  lemma RetaskedHeld(s: Refs, t: Tid, v: Task, j: nat)
    requires t in s.tasks
    ensures Held(s.(tasks := s.tasks[t := v]), j) == Held(s, j) - DirsOf(s.tasks[t])[j] + DirsOf(v)[j]
  {
    Repointed(s.tasks, t, v, j);
    hide Pwds, Roots, Opens;
  }

  lemma RetaskedFiled(s: Refs, u: Refs, t: Tid, v: Task)
    requires Filed(s) && t in s.tasks && u == s.(tasks := s.tasks[t := v]) && Tasked(v) && v.files == s.tasks[t].files
    ensures Filed(u)
  {
    forall f ensures Slots(u.tasks, f) == Slots(s.tasks, f) {
      SameSlots(s.tasks, t, v, f);
    }
    hide Slots, Tasked;
  }

  // ----- open files -----

  /** Descriptor fd of task t names v. */
  function WithFd(tasks: map<Tid, Task>, t: Tid, fd: nat, v: Option<nat>): map<Tid, Task>
    requires t in tasks && fd < |tasks[t].files|
  {
    tasks[t := tasks[t].(files := tasks[t].files[fd := v])]
  }

  lemma WithFdSlots(tasks: map<Tid, Task>, t: Tid, fd: nat, v: Option<nat>, f: nat)
    requires t in tasks && fd < |tasks[t].files|
    ensures |Slots(WithFd(tasks, t, fd, v), f)|
         == |Slots(tasks, f)| - (if tasks[t].files[fd] == Some(f) then 1 else 0) + if v == Some(f) then 1 else 0
  {
    assert (t, fd) in Slots(tasks, f) <==> tasks[t].files[fd] == Some(f);
    WithFdMembers(tasks, t, fd, v, f);
    hide Slots;
    Swapped(Slots(tasks, f), Slots(WithFd(tasks, t, fd, v), f), (t, fd), v == Some(f));
  }

  lemma WithFdMembers(tasks: map<Tid, Task>, t: Tid, fd: nat, v: Option<nat>, f: nat)
    requires t in tasks && fd < |tasks[t].files|
    ensures Slots(WithFd(tasks, t, fd, v), f) == Slots(tasks, f) - {(t, fd)} + if v == Some(f) then {(t, fd)} else {}
  {
  }

  /** The end of sys_open: file f, on inode i, is named by descriptor fd. */
  function WithOpen(s: Refs, t: Tid, fd: nat, f: nat, i: nat): Refs
    requires t in s.tasks && fd < |s.tasks[t].files| && f < |s.files|
  {
    s.(tasks := WithFd(s.tasks, t, fd, Some(f)), files := s.files[f := File(1, i)])
  }

  /** The beginning of sys_close: the descriptor is cleared and the file's count goes down. */
  function WithoutOpen(s: Refs, t: Tid, fd: nat, f: nat): Refs
    requires t in s.tasks && fd < |s.tasks[t].files| && f < |s.files| && s.files[f].count > 0
  {
    s.(tasks := WithFd(s.tasks, t, fd, None), files := s.files[f := s.files[f].(count := s.files[f].count - 1)])
  }

  lemma FdHolders(tasks: map<Tid, Task>, t: Tid, fd: nat, v: Option<nat>, i: nat)
    requires t in tasks && fd < |tasks[t].files|
    ensures Pwds(WithFd(tasks, t, fd, v), i) == Pwds(tasks, i) && Roots(WithFd(tasks, t, fd, v), i) == Roots(tasks, i)
  {
  }

  lemma OpensWith(files: seq<File>, f: nat, v: File, i: nat)
    requires f < |files|
    ensures |Opens(files[f := v], i)| == |Opens(files, i)| - (if files[f].count > 0 && files[f].inode == i then 1 else 0)
                                         + if v.count > 0 && v.inode == i then 1 else 0
  {
    assert f in Opens(files, i) <==> files[f].count > 0 && files[f].inode == i;
    OpensMembers(files, f, v, i);
    hide Opens;
    Swapped(Opens(files, i), Opens(files[f := v], i), f, v.count > 0 && v.inode == i);
  }

  lemma OpensMembers(files: seq<File>, f: nat, v: File, i: nat)
    requires f < |files|
    ensures Opens(files[f := v], i) == Opens(files, i) - {f} + if v.count > 0 && v.inode == i then {f} else {}
  {
    var now := files[f := v];
    forall g: nat ensures g in Opens(now, i) <==> (g in Opens(files, i) && g != f) || (g == f && v.count > 0 && v.inode == i) {
    }
    hide Opens;
  }

  lemma FdCounts(s: Refs, u: Refs, extra: multiset<nat>, now: multiset<nat>, t: Tid, fd: nat, v: Option<nat>, f: nat, file: File)
    requires Tabled(s) && Counted(s, extra) && t in s.tasks && fd < |s.tasks[t].files| && f < |s.files|
    requires u == s.(tasks := WithFd(s.tasks, t, fd, v), files := s.files[f := file])
    requires forall i :: i in now ==> i < INODE_NR
    requires forall j: nat :: now[j] + (if file.count > 0 && file.inode == j then 1 else 0)
                           == extra[j] + if s.files[f].count > 0 && s.files[f].inode == j then 1 else 0
    ensures Tabled(u) && Counted(u, now)
  {
    forall j: nat ensures Held(u, j) + now[j] == Held(s, j) + extra[j] {
      FdHolders(s.tasks, t, fd, v, j);
      OpensWith(s.files, f, file, j);
    }
    hide Held;
    Recounted(s, u, extra, now);
  }

  lemma FdFiled(s: Refs, u: Refs, t: Tid, fd: nat, v: Option<nat>, f: nat, file: File)
    requires Filed(s) && t in s.tasks && FIRST_FD <= fd < TASK_FILE_NR && FIRST_FD <= f < FILE_NR && |s.tasks[t].files| == TASK_FILE_NR
    requires u == s.(tasks := WithFd(s.tasks, t, fd, v), files := s.files[f := file]) && file.inode < INODE_NR
    requires v == None || v == Some(f)
    requires s.tasks[t].files[fd] == if v == None then Some(f) else None
    requires file.count == if v == None then s.files[f].count - 1 else s.files[f].count + 1
    ensures Filed(u)
  {
    assert Tasked(s.tasks[t]) && Tasked(u.tasks[t]);
    forall g ensures |Slots(u.tasks, g)| == |Slots(s.tasks, g)| + if g != f then 0 else if v == None then -1 else 1 {
      WithFdSlots(s.tasks, t, fd, v, g);
    }
    hide Slots, Tasked;
  }

  lemma WithOpenKeeps(s: Refs, extra: multiset<nat>, t: Tid, fd: nat, f: nat, i: nat)
    requires Inv(s, extra) && t in s.tasks && FIRST_FD <= fd < TASK_FILE_NR && FIRST_FD <= f < FILE_NR && i in extra
    requires |s.tasks[t].files| == TASK_FILE_NR && s.tasks[t].files[fd] == None && s.files[f].count == 0
    ensures Inv(WithOpen(s, t, fd, f, i), extra - multiset{i})
  {
    assert i < INODE_NR;
    hide Tabled, Held, Slots, Tasked;
    FdCounts(s, WithOpen(s, t, fd, f, i), extra, extra - multiset{i}, t, fd, Some(f), f, File(1, i));
    FdFiled(s, WithOpen(s, t, fd, f, i), t, fd, Some(f), f, File(1, i));
  }

  /** A descriptor in use names a file in use. */
  lemma NamedFile(s: Refs, t: Tid, fd: nat, f: nat)
    requires Filed(s) && t in s.tasks && fd < |s.tasks[t].files| && s.tasks[t].files[fd] == Some(f)
    ensures |s.tasks[t].files| == TASK_FILE_NR && FIRST_FD <= fd && FIRST_FD <= f < FILE_NR == |s.files|
    ensures s.files[f].count > 0 && s.files[f].inode < INODE_NR
  {
    assert Tasked(s.tasks[t]);
    assert (t, fd) in Slots(s.tasks, f);
    assert s.files[f].count == |Slots(s.tasks, f)|;
  }

  /** Closing: when no descriptor is left, the file's reference to its inode becomes the call's. */
  lemma WithoutOpenKeeps(s: Refs, extra: multiset<nat>, t: Tid, fd: nat, f: nat)
    requires Inv(s, extra) && t in s.tasks && fd < |s.tasks[t].files| && s.tasks[t].files[fd] == Some(f)
    ensures FIRST_FD <= fd && f < FILE_NR == |s.files| && s.files[f].count > 0 && s.files[f].inode < INODE_NR
    ensures Inv(WithoutOpen(s, t, fd, f), if s.files[f].count == 1 then extra + multiset{s.files[f].inode} else extra)
  {
    NamedFile(s, t, fd, f);
    var u, i := WithoutOpen(s, t, fd, f), s.files[f].inode;
    hide Tabled, Held, Slots, Tasked;
    FdCounts(s, u, extra, if s.files[f].count == 1 then extra + multiset{i} else extra, t, fd, None, f, u.files[f]);
    FdFiled(s, u, t, fd, None, f, u.files[f]);
  }

  // ----- new tasks -----

  ghost predicate NoFiles(v: Task) {
    |v.files| == TASK_FILE_NR && forall fd :: 0 <= fd < TASK_FILE_NR ==> v.files[fd] == None
  }

  function Born(s: Refs, t: Tid, v: Task): Refs {
    s.(tasks := s.tasks[t := v])
  }

  lemma BornKeeps(s: Refs, extra: multiset<nat>, t: Tid, v: Task)
    requires Inv(s, extra) && t !in s.tasks && NoFiles(v) && v.ipwd < INODE_NR && v.iroot < INODE_NR
    requires multiset{v.ipwd, v.iroot} <= extra
    ensures Inv(Born(s, t, v), extra - multiset{v.ipwd, v.iroot})
  {
    BornCounts(s, extra, t, v);
    BornFiled(s, t, v);
    hide Tabled, Counted, Filed;
  }

  lemma BornCounts(s: Refs, extra: multiset<nat>, t: Tid, v: Task)
    requires Tabled(s) && Counted(s, extra) && t !in s.tasks && multiset{v.ipwd, v.iroot} <= extra
    ensures Tabled(Born(s, t, v)) && Counted(Born(s, t, v), extra - multiset{v.ipwd, v.iroot})
  {
    var u, now := Born(s, t, v), extra - multiset{v.ipwd, v.iroot};
    forall j: nat ensures Held(u, j) + now[j] == Held(s, j) + extra[j] {
      Repointed(s.tasks, t, v, j);
      assert multiset{v.ipwd, v.iroot}[j] <= extra[j];
    }
    hide Held;
    Recounted(s, u, extra, now);
  }

  lemma BornFiled(s: Refs, t: Tid, v: Task)
    requires Filed(s) && t !in s.tasks && NoFiles(v) && v.ipwd < INODE_NR && v.iroot < INODE_NR
    ensures Filed(Born(s, t, v))
  {
    var u := Born(s, t, v);
    forall f ensures Slots(u.tasks, f) == Slots(s.tasks, f) {
    }
    hide Slots;
  }

  /** The increments of update_inode_open_cnts, after the first n descriptors. */
  function CountedUp(files: seq<File>, fds: seq<Option<nat>>, n: nat): (now: seq<File>)
    requires n <= |fds|
    ensures |now| == |files|
  {
    if n == 0 then files
    else
      var was := CountedUp(files, fds, n - 1);
      match fds[n - 1]
      case None => was
      case Some(f) => if f < |was| then was[f := was[f].(count := was[f].count + 1)] else was
  }

  /** A copy of v that has the first n descriptors only. */
  function FirstFds(v: Task, n: nat): Task
    requires n <= |v.files|
  {
    v.(files := v.files[..n] + seq(|v.files| - n, _ => None))
  }

  function Half(s: Refs, t: Tid, v: Task, n: nat): Refs
    requires n <= |v.files|
  {
    s.(tasks := s.tasks[t := FirstFds(v, n)], files := CountedUp(s.files, v.files, n))
  }

  lemma {:induction false} CountedUpInUse(files: seq<File>, fds: seq<Option<nat>>, n: nat, f: nat)
    requires n <= |fds| && f < |files|
    ensures CountedUp(files, fds, n)[f].count >= files[f].count && CountedUp(files, fds, n)[f].inode == files[f].inode
  {
    if n > 0 {
      CountedUpInUse(files, fds, n - 1, f);
    }
  }

  /** One more descriptor of the child is accounted for. */
  lemma HalfStep(s: Refs, extra: multiset<nat>, t: Tid, v: Task, n: nat)
    requires n < TASK_FILE_NR && Tasked(v) && |s.files| == FILE_NR && Inv(Half(s, t, v, n), extra)
    requires v.files[n].Some? ==> s.files[v.files[n].value].count > 0
    ensures Inv(Half(s, t, v, n + 1), extra)
  {
    hide Inv;
    var h, u := Half(s, t, v, n), Half(s, t, v, n + 1);
    assert FirstFds(v, n + 1).files == FirstFds(v, n).files[n := v.files[n]];
    if v.files[n] == None {
      assert FirstFds(v, n + 1) == FirstFds(v, n);
    } else {
      var f := v.files[n].value;
      CountedUpInUse(s.files, v.files, n, f);
      assert u.tasks == WithFd(h.tasks, t, n, Some(f));
      NamedOnceMore(h, u, extra, t, n, f);
    }
  }

  /** A file in use gets one more descriptor. */
  lemma NamedOnceMore(h: Refs, u: Refs, extra: multiset<nat>, t: Tid, fd: nat, f: nat)
    requires Inv(h, extra) && t in h.tasks && FIRST_FD <= fd < TASK_FILE_NR == |h.tasks[t].files| && FIRST_FD <= f < FILE_NR == |h.files|
    requires h.tasks[t].files[fd] == None && h.files[f].count > 0
    requires u == h.(tasks := WithFd(h.tasks, t, fd, Some(f)), files := h.files[f := h.files[f].(count := h.files[f].count + 1)])
    ensures Inv(u, extra)
  {
    hide Tabled, Held, Slots, Tasked;
    var file := h.files[f].(count := h.files[f].count + 1);
    FdCounts(h, u, extra, extra, t, fd, Some(f), f, file);
    FdFiled(h, u, t, fd, Some(f), f, file);
  }

  lemma {:induction false} AllSteps(s: Refs, extra: multiset<nat>, t: Tid, v: Task, n: nat)
    requires Inv(Half(s, t, v, 0), extra) && n <= TASK_FILE_NR && Tasked(v) && |s.files| == FILE_NR
    requires forall fd :: 0 <= fd < TASK_FILE_NR && v.files[fd].Some? ==> s.files[v.files[fd].value].count > 0
    ensures Inv(Half(s, t, v, n), extra)
  {
    hide Inv, Half;
    if n > 0 {
      AllSteps(s, extra, t, v, n - 1);
      HalfStep(s, extra, t, v, n - 1);
    }
  }

  /** fork: the child starts with the parent's directories and descriptors. */
  function Forked(s: Refs, parent: Tid, child: Tid): Refs
    requires parent in s.tasks && s.tasks[parent].ipwd < |s.table| && s.tasks[parent].iroot < |s.table|
  {
    var v := s.tasks[parent];
    var u := Shared(Shared(s, v.ipwd), v.iroot);
    u.(tasks := s.tasks[child := v], files := CountedUp(s.files, v.files, |v.files|))
  }

  /** A task's directories are inodes in use. */
  lemma DirsInUse(s: Refs, extra: multiset<nat>, t: Tid)
    requires Inv(s, extra) && t in s.tasks
    ensures Tasked(s.tasks[t]) && s.table[s.tasks[t].ipwd].used && s.table[s.tasks[t].iroot].used
  {
    assert t in Pwds(s.tasks, s.tasks[t].ipwd) && t in Roots(s.tasks, s.tasks[t].iroot);
    assert Held(s, s.tasks[t].ipwd) > 0 && Held(s, s.tasks[t].iroot) > 0;
  }

  lemma ForkedKeeps(s: Refs, extra: multiset<nat>, parent: Tid, child: Tid)
    requires Inv(s, extra) && parent in s.tasks && child !in s.tasks
    ensures s.tasks[parent].ipwd < INODE_NR == |s.table| && s.tasks[parent].iroot < INODE_NR
    ensures Inv(Forked(s, parent, child), extra)
  {
    DirsInUse(s, extra, parent);
    var v := s.tasks[parent];
    SharedTwice(s, extra, v.ipwd, v.iroot);
    forall fd | 0 <= fd < TASK_FILE_NR && v.files[fd].Some? ensures v.files[fd].value < FILE_NR && s.files[v.files[fd].value].count > 0 {
      NamedFile(s, parent, fd, v.files[fd].value);
    }
    hide Inv, Tasked;
    var u := Shared(Shared(s, v.ipwd), v.iroot);
    AllFds(u, extra, child, v);
  }

  lemma SharedTwice(s: Refs, extra: multiset<nat>, i: nat, j: nat)
    requires Inv(s, extra) && i < INODE_NR && j < INODE_NR && s.table[i].used && s.table[j].used
    ensures |s.table| == INODE_NR && |s.files| == FILE_NR && Inv(Shared(Shared(s, i), j), extra + multiset{i, j})
  {
    SharedKeeps(s, extra, i);
    SharedKeeps(Shared(s, i), extra + multiset{i}, j);
    assert extra + multiset{i} + multiset{j} == extra + multiset{i, j};
  }

  lemma AllFds(u: Refs, extra: multiset<nat>, child: Tid, v: Task)
    requires Inv(u, extra + multiset{v.ipwd, v.iroot}) && child !in u.tasks && Tasked(v) && |u.files| == FILE_NR
    requires forall fd :: 0 <= fd < TASK_FILE_NR && v.files[fd].Some? ==> u.files[v.files[fd].value].count > 0
    ensures Inv(u.(tasks := u.tasks[child := v], files := CountedUp(u.files, v.files, |v.files|)), extra)
  {
    hide Inv;
    NoFds(u, extra, child, v);
    AllSteps(u, extra, child, v, TASK_FILE_NR);
    FullHalf(u, child, v);
  }

  lemma NoFds(u: Refs, extra: multiset<nat>, child: Tid, v: Task)
    requires Inv(u, extra + multiset{v.ipwd, v.iroot}) && child !in u.tasks && Tasked(v)
    ensures Inv(Half(u, child, v, 0), extra)
  {
    hide Inv;
    assert NoFiles(FirstFds(v, 0));
    BornKeeps(u, extra + multiset{v.ipwd, v.iroot}, child, FirstFds(v, 0));
    assert extra + multiset{v.ipwd, v.iroot} - multiset{v.ipwd, v.iroot} == extra;
    assert Half(u, child, v, 0) == Born(u, child, FirstFds(v, 0));
  }

  lemma FullHalf(u: Refs, child: Tid, v: Task)
    requires Tasked(v)
    ensures Half(u, child, v, TASK_FILE_NR) == u.(tasks := u.tasks[child := v], files := CountedUp(u.files, v.files, |v.files|))
  {
    hide CountedUp;
    assert v.files[..TASK_FILE_NR] + [] == v.files;
    assert FirstFds(v, TASK_FILE_NR) == v;
  }

  /** init_thread: a thread starts at the root, which gains two references. */
  function Started(s: Refs, t: Tid): Refs
    requires |s.table| > 0
  {
    var u := Shared(Shared(s, 0), 0);
    u.(tasks := s.tasks[t := Task(0, 0, seq(TASK_FILE_NR, _ => None))])
  }

  lemma StartedKeeps(s: Refs, extra: multiset<nat>, t: Tid)
    requires Inv(s, extra) && t !in s.tasks
    ensures |s.table| > 0 && Inv(Started(s, t), extra)
  {
    SharedTwice(s, extra, 0, 0);
    var v := Task(0, 0, seq(TASK_FILE_NR, _ => None));
    BornKeeps(Shared(Shared(s, 0), 0), extra + multiset{0, 0}, t, v);
    assert extra + multiset{0, 0} - multiset{0, 0} == extra;
  }

  // ----- the start -----

  /** mount_root has taken its two references to the root, and no task is there yet. */
  function Mounted(): Refs {
    Refs([Inode(true, ROOT_NR, 2)] + seq(INODE_NR - 1, _ => Inode(false, 0, 0)), [0], seq(FILE_NR, _ => File(0, 0)), map[])
  }

  lemma MountedInv()
    ensures Inv(Mounted(), multiset{})
  {
    var s := Mounted();
    forall i: nat ensures |Pwds(s.tasks, i)| == 0 && |Roots(s.tasks, i)| == 0 && |Opens(s.files, i)| == 0 {
      assert Pwds(s.tasks, i) == {} && Roots(s.tasks, i) == {} && Opens(s.files, i) == {};
    }
    forall f: nat ensures |Slots(s.tasks, f)| == 0 {
      assert Slots(s.tasks, f) == {};
    }
  }
}
