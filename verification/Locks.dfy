/**
 Semaphores and locks under preemption (src/kernel/lock.c), as a transition system.

 A step is what runs with interrupts off, or a piece of code between two points where a timer
 interrupt can strike. `pc` says how far each thread is in lock_acquire or lock_release. Next to each
 lock stands a book that records, for the statements only, who took the semaphore's value last, how
 many acquires each thread has outstanding, and the order in which threads waited.
 */
module LockStates {
  import opened Common
  import opened Seqs
  import opened Processors

  datatype Lock = Lock(value: nat, waiters: seq<Tid>, holder: Option<Tid>, repeat: nat)

  datatype Pc =
    | Outside
    | Wanting(l: nat)  // found another holder, about to enter sema_down
    | Queued(l: nat)   // blocked in sema_down
    | Woken(l: nat)    // back from thread_block in sema_down, interrupts still off
    | Taken(l: nat)    // sema_down has returned
    | Named(l: nat)    // holder is set
    | Leaving(l: nat)  // holder is cleared
    | Upping(l: nat)   // holder_repeat_nr is cleared, about to enter sema_up

  datatype Book = Book(owner: Option<Tid>, depth: map<Tid, nat>, queued: seq<Tid>, handed: seq<Tid>, served: seq<Tid>)

  datatype System = System(cpu: Cpu, locks: seq<Lock>, pc: map<Tid, Pc>, books: seq<Book>)

  function Depth(b: Book, t: Tid): nat {
    if t in b.depth then b.depth[t] else 0
  }

  ghost predicate About(q: Pc, l: nat) {
    !q.Outside? && q.l == l
  }

  /** Between taking the semaphore's value and giving it back, but not yet or no longer the holder. */
  ghost predicate Passing(q: Pc) {
    q.Taken? || q.Named? || q.Leaving? || q.Upping?
  }

  /** The fields of a lock at each stage of its owner. */
  ghost predicate Staged(k: Lock, b: Book, l: nat, pc: map<Tid, Pc>) {
    match b.owner
    case None => k.value == 1 && k.holder == None && k.repeat == 0
    case Some(t) =>
      k.value == 0 && t in pc
      && if About(pc[t], l) && Passing(pc[t]) then
           && Depth(b, t) == 0
           && k.holder == (if pc[t].Named? then Some(t) else None)
           && k.repeat == if pc[t].Leaving? then 1 else 0
         else
           k.holder == Some(t) && k.repeat == Depth(b, t) > 0
  }

  /** The wait list holds the threads blocked in sema_down, and threads leave it in the order they came. */
  ghost predicate Waited(k: Lock, b: Book, l: nat, pc: map<Tid, Pc>) {
    && NoDup(k.waiters)
    && (forall t :: t in k.waiters <==> t in pc && pc[t] == Queued(l))
    && (forall t :: t in b.handed <==> t in pc && pc[t] == Woken(l))
    && |b.handed| <= 1
    && b.queued == b.served + b.handed + k.waiters
  }

  ghost predicate Owned(k: Lock, b: Book, l: nat, pc: map<Tid, Pc>) {
    && (b.owner.Some? ==> b.handed == [])
    && (b.owner.None? ==> k.waiters == [] || b.handed != [])
    && (forall t :: t in pc && About(pc[t], l) && Passing(pc[t]) ==> b.owner == Some(t))
    && (forall t: Tid :: b.owner != Some(t) ==> Depth(b, t) == 0)
  }

  ghost predicate LockInv(k: Lock, b: Book, l: nat, pc: map<Tid, Pc>) {
    Staged(k, b, l, pc) && Waited(k, b, l, pc) && Owned(k, b, l, pc)
  }

  /** How the stages of threads go with their status: only a thread that waits in a list is blocked by a lock. */
  ghost predicate Stationed(cpu: Cpu, pc: map<Tid, Pc>, n: nat) {
    && pc.Keys == cpu.status.Keys && cpu.idle in pc && pc[cpu.idle] == Outside
    && (forall t :: t in pc && !pc[t].Outside? ==> pc[t].l < n)
    && (forall t :: t in pc && pc[t].Queued? ==> cpu.status[t] == Blocked)
    && (forall t :: t in pc && pc[t].Woken? ==> t == cpu.cur)
  }

  ghost predicate Threaded(s: System) {
    Stationed(s.cpu, s.pc, |s.locks|) && |s.books| == |s.locks|
  }

  ghost predicate LocksInv(s: System) {
    |s.books| == |s.locks| && forall l :: 0 <= l < |s.locks| ==> LockInv(s.locks[l], s.books[l], l, s.pc)
  }

  ghost predicate Inv(s: System) {
    Scheduled(s.cpu) && Threaded(s) && LocksInv(s)
  }

  /** Lock l, its book and the running thread's pc change. */
  function With(s: System, l: nat, k: Lock, b: Book, q: Pc): System
    requires l < |s.locks| == |s.books|
  {
    System(s.cpu, s.locks[l := k], s.pc[s.cpu.cur := q], s.books[l := b])
  }

  function On(s: System, cpu: Cpu): System {
    System(cpu, s.locks, s.pc, s.books)
  }

  /** A lock takes no notice of a thread that is busy with another one. */
  lemma OtherLock(k: Lock, b: Book, m: nat, pc: map<Tid, Pc>, t: Tid, q: Pc)
    requires LockInv(k, b, m, pc) && t in pc && !About(pc[t], m) && !About(q, m)
    ensures LockInv(k, b, m, pc[t := q])
  {
  }

  lemma WithKeeps(s: System, l: nat, k: Lock, b: Book, q: Pc)
    requires l < |s.locks| && LocksInv(s) && s.cpu.cur in s.pc
    requires s.pc[s.cpu.cur].Outside? || s.pc[s.cpu.cur].l == l
    requires (q.Outside? || q.l == l) && LockInv(k, b, l, s.pc[s.cpu.cur := q])
    ensures LocksInv(With(s, l, k, b, q))
  {
    hide LockInv;
    var t := With(s, l, k, b, q);
    forall m | 0 <= m < |s.locks| ensures LockInv(t.locks[m], t.books[m], m, t.pc) {
      if m != l {
        OtherLock(s.locks[m], s.books[m], m, s.pc, s.cpu.cur, q);
      }
    }
  }

  // ----- the steps of the running thread -----

  /** lock_acquire, up to sema_down's intr_disable. */
  function Acquire(s: System, l: nat): System
    requires l < |s.locks| == |s.books|
  {
    var k, b, t := s.locks[l], s.books[l], s.cpu.cur;
    if k.holder == Some(t) then With(s, l, k.(repeat := k.repeat + 1), b.(depth := b.depth[t := Depth(b, t) + 1]), Outside)
    else With(s, l, k, b, Wanting(l))
  }

  /** One pass of sema_down's loop: queue up and leave the processor, or take the value. */
  function Down(s: System, l: nat): System
    requires s.cpu.cur in s.cpu.status && l < |s.locks| == |s.books|
  {
    var t := s.cpu.cur;
    var k, b := s.locks[l], s.books[l];
    if k.value == 0 then
      On(With(s, l, k.(waiters := k.waiters + [t]), b.(queued := b.queued + [t]), Queued(l)), Dispatched(Slept(s.cpu, Blocked)))
    else
      With(s, l, k.(value := k.value - 1), b.(owner := Some(t), handed := [], served := b.served + b.handed), Taken(l))
  }

  /** holder = running_thread() */
  function Name(s: System, l: nat): System
    requires s.cpu.cur in s.cpu.status && l < |s.locks| == |s.books|
  {
    With(s, l, s.locks[l].(holder := Some(s.cpu.cur)), s.books[l], Named(l))
  }

  /** holder_repeat_nr = 1 */
  function Enter(s: System, l: nat): System
    requires s.cpu.cur in s.cpu.status && l < |s.locks| == |s.books|
  {
    With(s, l, s.locks[l].(repeat := 1), s.books[l].(depth := s.books[l].depth[s.cpu.cur := 1]), Outside)
  }

  /** lock_release, up to holder = NULL. */
  function Release(s: System, l: nat): System
    requires l < |s.locks| == |s.books|
  {
    var k, b, t := s.locks[l], s.books[l], s.cpu.cur;
    var c := b.(depth := b.depth[t := if Depth(b, t) > 0 then Depth(b, t) - 1 else 0]);
    if k.repeat > 1 then With(s, l, k.(repeat := k.repeat - 1), c, Outside)
    else With(s, l, k.(holder := None), c, Leaving(l))
  }

  /** holder_repeat_nr = 0 */
  function Clear(s: System, l: nat): System
    requires s.cpu.cur in s.cpu.status && l < |s.locks| == |s.books|
  {
    With(s, l, s.locks[l].(repeat := 0), s.books[l], Upping(l))
  }

  /** sema_up: unblock the head waiter, raise the value, and leave the processor to it. */
  function Up(s: System, l: nat): System
    requires s.cpu.cur in s.cpu.status && l < |s.locks| == |s.books|
  {
    var k, b := s.locks[l], s.books[l];
    if k.waiters == [] then
      On(With(s, l, k.(value := k.value + 1), b.(owner := None), Outside), Dispatched(s.cpu))
    else
      var t := k.waiters[0];
      var u := With(s, l, Lock(k.value + 1, k.waiters[1..], k.holder, k.repeat), b.(owner := None, handed := [t]), Outside);
      System(Dispatched(Unblocked(s.cpu, t)), u.locks, u.pc[t := Woken(l)], u.books)
  }

  // ----- the steps that concern the processor alone -----

  /** The timer, or yield: schedule(). */
  function Tick(s: System): System
    requires s.cpu.cur in s.cpu.status
  {
    On(s, Dispatched(s.cpu))
  }

  /** thread_block, other than on a semaphore. */
  function Block(s: System, stat: Status): System
    requires s.cpu.cur in s.cpu.status
  {
    On(s, Dispatched(Slept(s.cpu, stat)))
  }

  /** thread_unblock, by a thread or an interrupt handler. */
  function Wake(s: System, t: Tid): System {
    On(s, Unblocked(s.cpu, t))
  }

  function Start(s: System, t: Tid): System {
    System(Started(s.cpu, t), s.locks, s.pc[t := Outside], s.books)
  }

  datatype Event = EAcquire(l: nat) | EDown | EName | EEnter | ERelease(l: nat) | EClear | EUp | ETick | EBlock(stat: Status) | EWake(t: Tid) | EStart(t: Tid)

  /**
   When each step can occur. The idle thread takes no locks; a thread releases only what it has
   acquired; nobody but schedule() unblocks the idle thread, and nobody but sema_up a thread that waits
   for a semaphore. A woken thread has interrupts off.
   */
  ghost predicate Enabled(s: System, e: Event) {
    var t := s.cpu.cur;
    && t in s.pc
    && match e
       case EAcquire(l) => s.pc[t] == Outside && t != s.cpu.idle && l < |s.locks|
       case EDown => s.pc[t].Wanting? || s.pc[t].Woken?
       case EName => s.pc[t].Taken?
       case EEnter => s.pc[t].Named?
       case ERelease(l) => s.pc[t] == Outside && t != s.cpu.idle && l < |s.locks| && l < |s.books| && Depth(s.books[l], t) > 0
       case EClear => s.pc[t].Leaving?
       case EUp => s.pc[t].Upping?
       case ETick => !s.pc[t].Woken?
       case EBlock(stat) => s.pc[t] == Outside && Sleep(stat) && (t == s.cpu.idle ==> stat == Blocked)
       case EWake(x) => !s.pc[t].Woken? && Asleep(s.cpu, x) && x != s.cpu.idle && x in s.pc && !s.pc[x].Queued?
       case EStart(x) => !s.pc[t].Woken? && x !in s.cpu.status
  }

  ghost function Next(s: System, e: Event): System
    requires Threaded(s) && Enabled(s, e) && s.cpu.cur in s.cpu.status
  {
    match e
    case EAcquire(l) => Acquire(s, l)
    case EDown => Down(s, s.pc[s.cpu.cur].l)
    case EName => Name(s, s.pc[s.cpu.cur].l)
    case EEnter => Enter(s, s.pc[s.cpu.cur].l)
    case ERelease(l) => Release(s, l)
    case EClear => Clear(s, s.pc[s.cpu.cur].l)
    case EUp => Up(s, s.pc[s.cpu.cur].l)
    case ETick => Tick(s)
    case EBlock(stat) => Block(s, stat)
    case EWake(t) => Wake(s, t)
    case EStart(t) => Start(s, t)
  }

  /** The running thread is busy with lock l. */
  ghost predicate BusyWith(s: System, l: nat) {
    s.cpu.cur in s.pc && About(s.pc[s.cpu.cur], l)
  }

  // ----- what each step keeps -----

  lemma InvAt(s: System, l: nat)
    requires LocksInv(s) && l < |s.locks|
    ensures LockInv(s.locks[l], s.books[l], l, s.pc)
  {
  }

  lemma AcquireKeeps(s: System, l: nat)
    requires Inv(s) && Enabled(s, EAcquire(l))
    ensures Inv(Acquire(s, l))
  {
    InvAt(s, l);
    hide LocksInv, Scheduled;
    var k, b, t := s.locks[l], s.books[l], s.cpu.cur;
    if k.holder == Some(t) {
      assert s.pc[t := Outside] == s.pc;
      WithKeeps(s, l, k.(repeat := k.repeat + 1), b.(depth := b.depth[t := Depth(b, t) + 1]), Outside);
    } else {
      WithKeeps(s, l, k, b, Wanting(l));
    }
  }

  /** No thread barges in: the value is free only for the thread it was handed to, or when none waits. */
  lemma NoBarging(s: System, l: nat)
    requires Inv(s) && Enabled(s, EDown) && BusyWith(s, l)
    ensures l < |s.locks| && (s.locks[l].value == 0 || s.locks[l].value == 1)
    ensures s.pc[s.cpu.cur].Woken? ==> s.locks[l].value == 1 && s.books[l].handed == [s.cpu.cur]
    ensures s.pc[s.cpu.cur].Wanting? ==> s.books[l].handed == [] && (s.locks[l].value == 1 ==> s.locks[l].waiters == [])
  {
    InvAt(s, l);
    hide LocksInv, Scheduled;
    var b := s.books[l];
    assert b.handed != [] ==> b.handed[0] in b.handed && s.pc[b.handed[0]] == Woken(l);
  }

  lemma DownKeepsLocks(s: System, l: nat)
    requires Inv(s) && Enabled(s, EDown) && BusyWith(s, l)
    ensures LocksInv(Down(s, l))
  {
    NoBarging(s, l);
    if s.locks[l].value == 0 {
      Queueing(s, l);
    } else {
      Taking(s, l);
    }
    hide Inv, LockInv, Lined, Dispatched;
  }

  /** The value is 0: the thread joins the wait list. */
  lemma Queueing(s: System, l: nat)
    requires Threaded(s) && LocksInv(s) && l < |s.locks| && s.cpu.cur in s.pc && s.pc[s.cpu.cur] == Wanting(l)
    requires s.locks[l].value == 0
    ensures
      var k, b, t := s.locks[l], s.books[l], s.cpu.cur;
      LocksInv(With(s, l, k.(waiters := k.waiters + [t]), b.(queued := b.queued + [t]), Queued(l)))
  {
    hide LocksInv;
    InvAt(s, l);
    var k, b, t := s.locks[l], s.books[l], s.cpu.cur;
    AppendNoDup(k.waiters, t);
    WithKeeps(s, l, k.(waiters := k.waiters + [t]), b.(queued := b.queued + [t]), Queued(l));
  }

  /** The value is free: the thread takes it. */
  lemma Taking(s: System, l: nat)
    requires Threaded(s) && LocksInv(s) && l < |s.locks| && s.cpu.cur in s.pc && s.locks[l].value == 1
    requires (s.pc[s.cpu.cur] == Wanting(l) && s.books[l].handed == [] && s.locks[l].waiters == [])
          || (s.pc[s.cpu.cur] == Woken(l) && s.books[l].handed == [s.cpu.cur])
    ensures
      var k, b, t := s.locks[l], s.books[l], s.cpu.cur;
      LocksInv(With(s, l, k.(value := k.value - 1), b.(owner := Some(t), handed := [], served := b.served + b.handed), Taken(l)))
  {
    hide LocksInv;
    InvAt(s, l);
    var k, b, t := s.locks[l], s.books[l], s.cpu.cur;
    WithKeeps(s, l, k.(value := k.value - 1), b.(owner := Some(t), handed := [], served := b.served + b.handed), Taken(l));
  }

  lemma DownKeeps(s: System, l: nat)
    requires Inv(s) && Enabled(s, EDown) && BusyWith(s, l)
    ensures Inv(Down(s, l))
  {
    hide LocksInv, LockInv, Depth, Dispatched, NoDup;
    DownKeepsLocks(s, l);
    NoBarging(s, l);
    if s.locks[l].value == 0 {
      DispatchedKeeps(Slept(s.cpu, Blocked));
    }
  }

  lemma NameKeeps(s: System, l: nat)
    requires Inv(s) && Enabled(s, EName) && BusyWith(s, l)
    ensures Inv(Name(s, l))
  {
    InvAt(s, l);
    hide LocksInv, Scheduled;
    WithKeeps(s, l, s.locks[l].(holder := Some(s.cpu.cur)), s.books[l], Named(l));
  }

  lemma EnterKeeps(s: System, l: nat)
    requires Inv(s) && Enabled(s, EEnter) && BusyWith(s, l)
    ensures Inv(Enter(s, l)) && s.locks[l].repeat == 0
  {
    InvAt(s, l);
    hide LocksInv, Scheduled;
    WithKeeps(s, l, s.locks[l].(repeat := 1), s.books[l].(depth := s.books[l].depth[s.cpu.cur := 1]), Outside);
  }

  lemma ReleaseKeeps(s: System, l: nat)
    requires Inv(s) && Enabled(s, ERelease(l))
    ensures Inv(Release(s, l)) && s.locks[l].holder == Some(s.cpu.cur) && s.locks[l].repeat == Depth(s.books[l], s.cpu.cur)
  {
    InvAt(s, l);
    hide LocksInv, Scheduled;
    var k, b, t := s.locks[l], s.books[l], s.cpu.cur;
    var c := b.(depth := b.depth[t := if Depth(b, t) > 0 then Depth(b, t) - 1 else 0]);
    if k.repeat > 1 {
      assert s.pc[t := Outside] == s.pc;
      WithKeeps(s, l, k.(repeat := k.repeat - 1), c, Outside);
    } else {
      WithKeeps(s, l, k.(holder := None), c, Leaving(l));
    }
  }

  lemma ClearKeeps(s: System, l: nat)
    requires Inv(s) && Enabled(s, EClear) && BusyWith(s, l)
    ensures Inv(Clear(s, l)) && s.locks[l].repeat == 1
  {
    InvAt(s, l);
    hide LocksInv, Scheduled;
    WithKeeps(s, l, s.locks[l].(repeat := 0), s.books[l], Upping(l));
  }

  lemma UpKeepsLocks(s: System, l: nat)
    requires Inv(s) && Enabled(s, EUp) && BusyWith(s, l)
    ensures LocksInv(Up(s, l)) && s.locks[l].value == 0
  {
    InvAt(s, l);
    hide LocksInv, Scheduled;
    var k, b := s.locks[l], s.books[l];
    if k.waiters == [] {
      WithKeeps(s, l, k.(value := k.value + 1), b.(owner := None), Outside);
    } else {
      HandedOver(s, l);
    }
  }

  lemma HandedOver(s: System, l: nat)
    requires Threaded(s) && LocksInv(s) && l < |s.locks| && s.cpu.cur in s.pc && s.pc[s.cpu.cur] == Upping(l)
    requires s.locks[l].waiters != []
    ensures LocksInv(Up(s, l))
  {
    InvAt(s, l);
    PassedOn(s.locks[l], s.books[l], l, s.pc, s.cpu.cur);
    hide LockInv, Dispatched, LocksInv;
    var u := Up(s, l);
    var t := s.locks[l].waiters[0];
    forall m | 0 <= m < |s.locks| ensures LockInv(u.locks[m], u.books[m], m, u.pc) {
      if m != l {
        InvAt(s, m);
        OtherLock(s.locks[m], s.books[m], m, s.pc, s.cpu.cur, Outside);
        OtherLock(s.locks[m], s.books[m], m, s.pc[s.cpu.cur := Outside], t, Woken(l));
      }
    }
    AllLocks(u);
  }

  /** The value goes from the thread that raises it to the head waiter. */
  lemma PassedOn(k: Lock, b: Book, l: nat, pc: map<Tid, Pc>, t: Tid)
    requires LockInv(k, b, l, pc) && t in pc && pc[t] == Upping(l) && k.waiters != []
    ensures k.waiters[0] in pc && pc[k.waiters[0]] == Queued(l)
    ensures LockInv(Lock(k.value + 1, k.waiters[1..], k.holder, k.repeat), b.(owner := None, handed := [k.waiters[0]]), l,
                    pc[t := Outside][k.waiters[0] := Woken(l)])
  {
    PoppedNoDup(k.waiters);
    assert k.waiters == [k.waiters[0]] + k.waiters[1..] && k.waiters[0] in k.waiters;
  }

  lemma AllLocks(s: System)
    requires |s.books| == |s.locks| && forall l :: 0 <= l < |s.locks| ==> LockInv(s.locks[l], s.books[l], l, s.pc)
    ensures LocksInv(s)
  {
  }

  /** The head waiter is a sleeping thread, and it is the one that schedule() picks. */
  lemma HeadRunsNext(s: System, l: nat)
    requires Inv(s) && Enabled(s, EUp) && BusyWith(s, l)
    ensures
      var waiters := s.locks[l].waiters;
      waiters != [] ==>
        && waiters[0] in s.pc && s.pc[waiters[0]] == Queued(l)
        && Asleep(s.cpu, waiters[0]) && waiters[0] != s.cpu.idle && waiters[0] != s.cpu.cur
        && Scheduled(Unblocked(s.cpu, waiters[0])) && Dispatched(Unblocked(s.cpu, waiters[0])).cur == waiters[0]
  {
    InvAt(s, l);
    var waiters := s.locks[l].waiters;
    if waiters != [] {
      assert waiters[0] in waiters;
      UnblockedKeeps(s.cpu, waiters[0]);
      DispatchedKeeps(Unblocked(s.cpu, waiters[0]));
    }
  }

  lemma UpKeeps(s: System, l: nat)
    requires Inv(s) && Enabled(s, EUp) && BusyWith(s, l)
    ensures Inv(Up(s, l))
  {
    UpKeepsLocks(s, l);
    UpThreaded(s, l);
    HeadRunsNext(s, l);
    var waiters := s.locks[l].waiters;
    DispatchedKeeps(if waiters == [] then s.cpu else Unblocked(s.cpu, waiters[0]));
    hide LocksInv, Dispatched, Scheduled, LockInv, Unblocked, Threaded;
  }

  lemma UpThreaded(s: System, l: nat)
    requires Inv(s) && Enabled(s, EUp) && BusyWith(s, l)
    ensures Threaded(Up(s, l))
  {
    HeadRunsNext(s, l);
    hide LocksInv, Dispatched, LockInv, NoDup, Lined, Stationed;
    var waiters := s.locks[l].waiters;
    if waiters == [] {
      LeavingStationed(s.cpu, s.pc, |s.locks|);
    } else {
      HandingStationed(s.cpu, s.pc, |s.locks|, l, waiters[0]);
    }
  }

  lemma LeavingStationed(cpu: Cpu, pc: map<Tid, Pc>, n: nat)
    requires Scheduled(cpu) && Stationed(cpu, pc, n) && !pc[cpu.cur].Woken?
    ensures Stationed(Dispatched(cpu), pc[cpu.cur := Outside], n)
  {
    DispatchedKeeps(cpu);
    hide Dispatched;
  }

  lemma HandingStationed(cpu: Cpu, pc: map<Tid, Pc>, n: nat, l: nat, t: Tid)
    requires Scheduled(cpu) && Stationed(cpu, pc, n) && l < n && pc[cpu.cur] == Upping(l)
    requires t in pc && pc[t] == Queued(l) && Lined(Unblocked(cpu, t)) && Dispatched(Unblocked(cpu, t)).cur == t
    ensures Stationed(Dispatched(Unblocked(cpu, t)), pc[cpu.cur := Outside][t := Woken(l)], n)
  {
    DispatchedKeeps(Unblocked(cpu, t));
    hide Dispatched, NoDup;
  }

  lemma ProcessorKeeps(s: System, cpu: Cpu)
    requires Inv(s) && Lined(cpu) && cpu.status.Keys == s.cpu.status.Keys && cpu.idle == s.cpu.idle && !s.pc[s.cpu.cur].Woken?
    requires forall t :: t in s.pc && s.pc[t].Queued? ==> cpu.status[t] == Blocked
    ensures Inv(On(s, Dispatched(cpu)))
  {
    DispatchedKeeps(cpu);
    hide Dispatched, Lined, LockInv;
  }

  lemma {:induction false} NextKeeps(s: System, e: Event)
    requires Inv(s) && Enabled(s, e)
    ensures Inv(Next(s, e))
  {
    hide LocksInv, Dispatched, Lined;
    match e
    case EAcquire(l) => AcquireKeeps(s, l);
    case EDown => DownKeeps(s, s.pc[s.cpu.cur].l);
    case EName => NameKeeps(s, s.pc[s.cpu.cur].l);
    case EEnter => EnterKeeps(s, s.pc[s.cpu.cur].l);
    case ERelease(l) => ReleaseKeeps(s, l);
    case EClear => ClearKeeps(s, s.pc[s.cpu.cur].l);
    case EUp => UpKeeps(s, s.pc[s.cpu.cur].l);
    case ETick => ProcessorKeeps(s, s.cpu);
    case EBlock(stat) => BlockKeeps(s, stat);
    case EWake(t) => WakeKeeps(s, t);
    case EStart(t) => StartKeeps(s, t);
  }

  lemma BlockKeeps(s: System, stat: Status)
    requires Inv(s) && Enabled(s, EBlock(stat))
    ensures Inv(Block(s, stat))
  {
    ProcessorKeeps(s, Slept(s.cpu, stat));
  }

  lemma WakeKeeps(s: System, t: Tid)
    requires Inv(s) && Enabled(s, EWake(t))
    ensures Inv(Wake(s, t))
  {
    UnblockedKeeps(s.cpu, t);
    hide Lined, LockInv;
  }

  lemma StartKeeps(s: System, t: Tid)
    requires Inv(s) && Enabled(s, EStart(t))
    ensures Inv(Start(s, t))
  {
    StartedKeeps(s.cpu, t);
    hide Lined, LockInv;
    forall l | 0 <= l < |s.locks| ensures LockInv(s.locks[l], s.books[l], l, s.pc[t := Outside]) {
      Newcomer(s.locks[l], s.books[l], l, s.pc, t);
    }
  }

  lemma Newcomer(k: Lock, b: Book, l: nat, pc: map<Tid, Pc>, t: Tid)
    requires LockInv(k, b, l, pc) && t !in pc
    ensures LockInv(k, b, l, pc[t := Outside])
  {
  }
}

/** What the invariant says to the users of threads, semaphores and locks, over whole runs. */
module LockRuns {
  import opened Common
  import opened Seqs
  import opened Processors
  import opened LockStates

  /** thread_init: the main thread runs, the idle thread is ready, and every lock is free. */
  function Booted(main: Tid, idle: Tid, n: nat): System {
    System(Cpu(map[main := Running, idle := Ready], [idle], main, idle), seq(n, _ => Lock(1, [], None, 0)),
           map[main := Outside, idle := Outside], seq(n, _ => Book(None, map[], [], [], [])))
  }

  lemma BootedInv(main: Tid, idle: Tid, n: nat)
    requires main != idle
    ensures Inv(Booted(main, idle, n))
  {
  }

  /** The events es lead from s to t. */
  ghost predicate Runs(s: System, es: seq<Event>, t: System)
    decreases |es|
  {
    if es == [] then t == s
    else Inv(s) && Enabled(s, es[0]) && Runs(Next(s, es[0]), es[1..], t)
  }

  /** Whatever the interleaving, every reachable state keeps the invariant. */
  lemma {:induction false} RunKeeps(s: System, es: seq<Event>, t: System)
    requires Inv(s) && Runs(s, es, t)
    ensures Inv(t)
    decreases |es|
  {
    hide LocksInv, Next, Enabled;
    if es != [] {
      NextKeeps(s, es[0]);
      RunKeeps(Next(s, es[0]), es[1..], t);
    }
  }

  /** One thread runs and is in no list; a waiter is blocked, and in one wait list only. */
  lemma EveryThreadInOneList(s: System, t: Tid)
    requires Inv(s) && t in s.cpu.status
    ensures s.cpu.status[t].Running? <==> t == s.cpu.cur
    ensures s.cpu.status[t].Ready? <==> t in s.cpu.ready
    ensures forall l :: 0 <= l < |s.locks| && t in s.locks[l].waiters ==> s.cpu.status[t] == Blocked && t !in s.cpu.ready
    ensures forall l, m :: 0 <= l < |s.locks| && 0 <= m < |s.locks| && t in s.locks[l].waiters && t in s.locks[m].waiters ==> l == m
  {
    forall l | 0 <= l < |s.locks| ensures t in s.locks[l].waiters <==> s.pc[t] == Queued(l) {
      InvAt(s, l);
    }
    hide LocksInv;
  }

  /** At most one thread is inside a lock; the lock names it and counts its outstanding acquires. */
  lemma MutualExclusion(s: System, l: nat, t: Tid, u: Tid)
    requires Inv(s) && l < |s.locks| && Depth(s.books[l], t) > 0
    ensures Depth(s.books[l], u) > 0 <==> u == t
    ensures s.locks[l] == Lock(0, s.locks[l].waiters, Some(t), Depth(s.books[l], t))
  {
    InvAt(s, l);
  }

  /** A holder whose acquire is complete is inside, so lock_acquire tells reentry from contention. */
  lemma HolderIsInside(s: System, l: nat, t: Tid)
    requires Inv(s) && l < |s.locks| && t in s.pc && s.pc[t] == Outside
    ensures s.locks[l].holder == Some(t) <==> Depth(s.books[l], t) > 0
  {
    InvAt(s, l);
  }

  /**
   After sema_up with waiters the head waiter runs, nothing else can happen before it takes the
   value, and then it owns the semaphore: it never finds the value 0 again, so it blocks but once.
   */
  lemma HandOver(s: System, l: nat, e: Event)
    requires Inv(s) && Enabled(s, EUp) && BusyWith(s, l) && s.locks[l].waiters != []
    requires Enabled(Up(s, l), e)
    ensures
      var u := Up(s, l);
      var head := s.locks[l].waiters[0];
      && e == EDown && u.cpu.cur == head && Inv(u) && Next(u, e).cpu == u.cpu
      && Next(u, e).books[l].owner == Some(head) && Next(u, e).books[l].served == s.books[l].served + [head]
  {
    UpKeeps(s, l);
    HeadRunsNext(s, l);
    var u := Up(s, l);
    assert u.pc[u.cpu.cur] == Woken(l);
    NoBarging(u, l);
    assert s.books[l].served == u.books[l].served;
    hide Inv, Dispatched;
  }

  /** The threads served so far are the first of those that queued, in the same order. */
  lemma FirstComeFirstServed(s: System, l: nat)
    requires Inv(s) && l < |s.locks|
    ensures s.books[l].served <= s.books[l].queued
    ensures |s.books[l].handed| <= 1 && s.books[l].queued == s.books[l].served + s.books[l].handed + s.locks[l].waiters
  {
    InvAt(s, l);
  }

  lemma QueuesGrow(s: System, e: Event, l: nat)
    requires Inv(s) && Enabled(s, e) && l < |s.locks|
    ensures |Next(s, e).locks| == |s.locks| == |Next(s, e).books|
    ensures s.books[l].served <= Next(s, e).books[l].served && s.books[l].queued <= Next(s, e).books[l].queued
  {
    hide Scheduled, LocksInv, Dispatched;
  }

  /** No place in the queue is ever lost or changed. */
  lemma {:induction false} QueuesGrowOverRuns(s: System, es: seq<Event>, t: System, l: nat)
    requires Inv(s) && Runs(s, es, t) && l < |s.locks|
    ensures |t.locks| == |s.locks| == |t.books| && s.books[l].served <= t.books[l].served && s.books[l].queued <= t.books[l].queued
    decreases |es|
  {
    hide LocksInv, Next, Enabled;
    if es != [] {
      NextKeeps(s, es[0]);
      QueuesGrow(s, es[0], l);
      QueuesGrowOverRuns(Next(s, es[0]), es[1..], t, l);
    } else {
      SameShape(s);
    }
  }

  lemma SameShape(s: System)
    requires Inv(s)
    ensures |s.books| == |s.locks|
  {
  }

  // ----- taking turns -----

  ghost predicate OnlyTicks(es: seq<Event>) {
    forall i :: 0 <= i < |es| ==> es[i] == ETick
  }

  /** Under the timer alone the threads take turns: after n ticks the first n stand at the end, in order. */
  lemma {:induction false} TicksTakeTurns(s: System, es: seq<Event>, t: System)
    requires Inv(s) && Runs(s, es, t) && OnlyTicks(es) && |es| <= |Turns(s.cpu)|
    ensures Turns(t.cpu) == Turns(s.cpu)[|es|..] + Turns(s.cpu)[..|es|]
    ensures t.locks == s.locks && t.pc == s.pc && t.books == s.books
    decreases |es|
  {
    hide LocksInv, Dispatched;
    var q := Turns(s.cpu);
    if es == [] {
      assert q[0..] + q[..0] == q;
    } else {
      assert es[0] == ETick && OnlyTicks(es[1..]);
      NextKeeps(s, ETick);
      var u := Next(s, ETick);
      DispatchedTurns(s.cpu);
      Rotated(q, |es| - 1);
      TicksTakeTurns(u, es[1..], t);
    }
  }

  lemma Rotated(q: seq<Tid>, n: nat)
    requires n < |q|
    ensures (q[1..] + [q[0]])[n..] + (q[1..] + [q[0]])[..n] == q[n + 1..] + q[..n + 1]
  {
  }

  /** So each of n ready threads runs within n ticks, the one at position k after k + 1. */
  lemma EveryReadyThreadRuns(s: System, es: seq<Event>, t: System, k: nat)
    requires Inv(s) && Runs(s, es, t) && OnlyTicks(es) && |es| == k + 1 && k < |s.cpu.ready|
    ensures t.cpu.cur == s.cpu.ready[k]
  {
    hide LocksInv, Scheduled, Stationed;
    TicksTakeTurns(s, es, t);
  }

  /** And the timer is never held off for good: with interrupts on, any number of ticks can follow. */
  lemma {:induction false} TicksCanFollow(s: System, n: nat) returns (es: seq<Event>, t: System)
    requires Inv(s) && Enabled(s, ETick)
    ensures |es| == n && OnlyTicks(es) && Runs(s, es, t)
    decreases n
  {
    hide LocksInv, Dispatched;
    if n == 0 {
      es, t := [], s;
    } else {
      NextKeeps(s, ETick);
      assert Enabled(Next(s, ETick), ETick);
      es, t := TicksCanFollow(Next(s, ETick), n - 1);
      es := [ETick] + es;
    }
  }

  /** thread_block: the caller sleeps, in no list, and the processor goes to the first of the ready threads. */
  lemma BlockGivesWay(s: System, stat: Status)
    requires Inv(s) && Enabled(s, EBlock(stat))
    ensures
      var u, c := Next(s, EBlock(stat)).cpu, s.cpu;
      && u.cur == (if c.ready != [] then c.ready[0] else c.idle) && u.ready == (if c.ready != [] then c.ready[1..] else [])
      && (c.cur != c.idle || c.ready != [] ==> u.cur != c.cur && c.cur !in u.ready && u.status[c.cur] == stat)
  {
    SleeperLeaves(s.cpu, stat);
    hide LocksInv, Dispatched, Lined;
  }

  /** A thread woken by hand is the next to run, whatever makes the running thread give way. */
  lemma WokenGoesFirst(s: System, x: Tid, e: Event)
    requires Inv(s) && Enabled(s, EWake(x)) && Enabled(Next(s, EWake(x)), e) && (e.ETick? || e.EBlock?)
    ensures Inv(Next(s, EWake(x))) && Next(s, EWake(x)).cpu.cur == s.cpu.cur && Next(Next(s, EWake(x)), e).cpu.cur == x
  {
    var u := Next(s, EWake(x));
    NextKeeps(s, EWake(x));
    assert u.cpu.ready == [x] + s.cpu.ready;
    hide LocksInv, Dispatched;
    if e.ETick? {
      DispatchedKeeps(u.cpu);
    } else {
      SleeperLeaves(u.cpu, e.stat);
    }
  }

  /** A new thread runs after all that were ready before it: one tick for each of them, and one for its own turn. */
  lemma NewcomerRunsLast(s: System, x: Tid, es: seq<Event>, t: System)
    requires Inv(s) && Enabled(s, EStart(x)) && Runs(Next(s, EStart(x)), es, t) && OnlyTicks(es) && |es| == |s.cpu.ready| + 1
    ensures t.cpu.cur == x
  {
    NextKeeps(s, EStart(x));
    var u := Next(s, EStart(x));
    assert u.cpu.ready == s.cpu.ready + [x];
    hide LocksInv, Stationed;
    EveryReadyThreadRuns(u, es, t, |s.cpu.ready|);
  }

  /** sema_up always gives way: to the head waiter, or else to the ready threads; the caller goes to the end. */
  lemma UpGivesWay(s: System, l: nat)
    requires Inv(s) && Enabled(s, EUp) && BusyWith(s, l)
    ensures
      var c, w, waiters := s.cpu, Next(s, EUp).cpu, s.locks[l].waiters;
      if waiters != [] then w.cur == waiters[0] && w.ready == c.ready + [c.cur]
      else Turns(w) == Turns(c)[1..] + [c.cur]
  {
    HeadRunsNext(s, l);
    var waiters := s.locks[l].waiters;
    if waiters == [] {
      DispatchedTurns(s.cpu);
    } else {
      DispatchedReady(Unblocked(s.cpu, waiters[0]));
    }
    hide LocksInv, Dispatched;
  }

  // ----- counting acquires -----

  /** Taking a lock again counts one more, in the lock and for the thread, at once. */
  lemma ReacquireCounts(s: System, l: nat)
    requires Inv(s) && Enabled(s, EAcquire(l)) && s.locks[l].holder == Some(s.cpu.cur)
    ensures
      var u, x := Next(s, EAcquire(l)), s.cpu.cur;
      && |u.locks| == |s.locks| == |u.books| && u.cpu == s.cpu && x in u.pc && u.pc[x] == Outside
      && u.locks[l] == Lock(0, s.locks[l].waiters, Some(x), s.locks[l].repeat + 1)
      && Depth(u.books[l], x) == Depth(s.books[l], x) + 1
  {
    InvAt(s, l);
  }

  /** Releasing counts one less; the last release makes the lock free in two more stages. */
  lemma ReleaseCounts(s: System, l: nat)
    requires Inv(s) && Enabled(s, ERelease(l))
    ensures
      var u, x, k := Next(s, ERelease(l)), s.cpu.cur, s.locks[l];
      && |u.locks| == |s.locks| == |u.books| && u.cpu == s.cpu && x in u.pc
      && k.repeat == Depth(s.books[l], x) && Depth(u.books[l], x) == Depth(s.books[l], x) - 1
      && if k.repeat > 1 then u.locks[l] == Lock(0, k.waiters, Some(x), k.repeat - 1) && u.pc[x] == Outside
         else u.locks[l] == Lock(0, k.waiters, None, 1) && u.pc[x] == Leaving(l)
              && Enabled(u, EClear) && Threaded(u) && Next(u, EClear).locks[l] == Lock(0, k.waiters, None, 0)
  {
    InvAt(s, l);
    NextKeeps(s, ERelease(l));
    hide LocksInv, Lined;
  }

  /** With this event thread x completes an acquire of lock l. */
  ghost predicate Acquires(s: System, e: Event, l: nat, x: Tid) {
    && s.cpu.cur == x && l < |s.locks| && x in s.pc
    && ((e == EAcquire(l) && s.locks[l].holder == Some(x)) || (e == EEnter && s.pc[x] == Named(l)))
  }

  ghost predicate Releases(s: System, e: Event, l: nat, x: Tid) {
    s.cpu.cur == x && e == ERelease(l)
  }

  /** The acquires of lock l that thread x completes in the course of the events. */
  ghost function AcquiresIn(s: System, es: seq<Event>, l: nat, x: Tid): nat
    decreases |es|
  {
    if es == [] || !Inv(s) || !Enabled(s, es[0]) then 0
    else (if Acquires(s, es[0], l, x) then 1 else 0) + AcquiresIn(Next(s, es[0]), es[1..], l, x)
  }

  ghost function ReleasesIn(s: System, es: seq<Event>, l: nat, x: Tid): nat
    decreases |es|
  {
    if es == [] || !Inv(s) || !Enabled(s, es[0]) then 0
    else (if Releases(s, es[0], l, x) then 1 else 0) + ReleasesIn(Next(s, es[0]), es[1..], l, x)
  }

  lemma StepCounts(s: System, e: Event, l: nat, x: Tid)
    requires Inv(s) && Enabled(s, e) && l < |s.locks|
    ensures |Next(s, e).locks| == |s.locks| == |Next(s, e).books|
    ensures
      Depth(Next(s, e).books[l], x) + (if Releases(s, e, l, x) then 1 else 0)
      == Depth(s.books[l], x) + if Acquires(s, e, l, x) then 1 else 0
  {
    hide LocksInv, Lined, Dispatched, Waited;
    InvAt(s, l);
  }

  /** Over any run a thread's outstanding acquires change by those it completes less those it releases. */
  lemma {:induction false} RunCounts(s: System, es: seq<Event>, t: System, l: nat, x: Tid)
    requires Inv(s) && Runs(s, es, t) && l < |s.locks|
    ensures |t.locks| == |s.locks| == |t.books|
    ensures Depth(t.books[l], x) + ReleasesIn(s, es, l, x) == Depth(s.books[l], x) + AcquiresIn(s, es, l, x)
    decreases |es|
  {
    hide LocksInv, Next, Enabled, Acquires, Releases;
    if es != [] {
      NextKeeps(s, es[0]);
      StepCounts(s, es[0], l, x);
      RunCounts(Next(s, es[0]), es[1..], t, l, x);
    } else {
      SameShape(s);
    }
  }

  /**
   From the start of the kernel on, whatever the interleaving: a thread in ordinary code is the holder
   exactly when it has completed more acquires than releases, and holder_repeat_nr is the difference.
   */
  lemma RepeatCountsAcquires(main: Tid, idle: Tid, n: nat, es: seq<Event>, t: System, l: nat, x: Tid)
    requires main != idle && Runs(Booted(main, idle, n), es, t) && l < n && x in t.pc && t.pc[x] == Outside
    ensures
      var s := Booted(main, idle, n);
      var acquired, released := AcquiresIn(s, es, l, x), ReleasesIn(s, es, l, x);
      && |t.locks| == n && acquired >= released && (t.locks[l].holder == Some(x) <==> acquired > released)
      && (acquired > released ==> t.locks[l].repeat == acquired - released)
  {
    hide Inv, Next, Enabled, AcquiresIn, ReleasesIn, Runs;
    var s := Booted(main, idle, n);
    BootedInv(main, idle, n);
    RunKeeps(s, es, t);
    RunCounts(s, es, t, l, x);
    HolderIsInside(t, l, x);
    if Depth(t.books[l], x) > 0 {
      MutualExclusion(t, l, x, x);
    }
  }
}

/** The kernel's own code for the steps (src/kernel/thread.c, src/kernel/lock.c). */
module Kernels {
  import opened Common
  import opened Seqs
  import opened Processors
  import opened LockStates
  import opened LockRuns

  class Kernel {
    const idle: Tid
    var status: map<Tid, Status>
    var ready: seq<Tid>
    var cur: Tid
    var locks: seq<Lock>
    ghost var pc: map<Tid, Pc>
    ghost var books: seq<Book>

    ghost function cpu(): Cpu
      reads this
    {
      Cpu(status, ready, cur, idle)
    }

    ghost function Now(): System
      reads this
    {
      System(cpu(), locks, pc, books)
    }

    ghost predicate Valid()
      reads this
    {
      Inv(Now())
    }

    /** thread_init and lock_init. */
    constructor (main: Tid, idle: Tid, n: nat)
      requires main != idle
      ensures Valid() && Now() == Booted(main, idle, n)
    {
      this.idle, cur := idle, main;
      status, ready := map[main := Running, idle := Ready], [idle];
      locks := seq(n, _ => Lock(1, [], None, 0));
      pc, books := map[main := Outside, idle := Outside], seq(n, _ => Book(None, map[], [], [], []));
      new;
      BootedInv(main, idle, n);
      assert Now() == Booted(main, idle, n);
      hide Inv;
    }

    method ThreadUnblock(t: Tid)
      requires Asleep(cpu(), t) && t !in ready
      modifies this`status, this`ready
      ensures cpu() == Unblocked(old(cpu()), t)
    {
      ready := [t] + ready;
      status := status[t := Ready];
    }

    method Schedule()
      requires Lined(cpu())
      modifies this`status, this`ready, this`cur
      ensures cpu() == Dispatched(old(cpu()))
    {
      RequeuedIsVacant(cpu());
      DispatchedStatus(cpu());
      if status[cur].Running? {
        assert cur !in ready;
        ready := ready + [cur];
        status := status[cur := Ready];
      }
      if ready == [] {
        ThreadUnblock(idle);
      }
      assert ready != [];
      var next := ready[0];
      ready := ready[1..];
      status := status[next := Running];
      cur := next;
    }

    method ThreadBlock(stat: Status)
      requires Scheduled(cpu()) && Sleep(stat) && (cur == idle ==> stat == Blocked)
      modifies this`status, this`ready, this`cur
      ensures cpu() == Dispatched(Slept(old(cpu()), stat))
    {
      status := status[cur := stat];
      Schedule();
    }

    /** The timer interrupt of a thread whose ticks are used up. */
    method Tick()
      requires Valid() && Enabled(Now(), ETick)
      modifies this
      ensures Now() == Next(old(Now()), ETick) && Valid()
    {
      NextKeeps(Now(), ETick);
      hide LocksInv;
      Schedule();
    }

    /** thread_block on something other than a semaphore. */
    method Block(stat: Status)
      requires Valid() && Enabled(Now(), EBlock(stat))
      modifies this
      ensures Now() == Next(old(Now()), EBlock(stat)) && Valid()
    {
      NextKeeps(Now(), EBlock(stat));
      hide LocksInv;
      ThreadBlock(stat);
    }

    method Wake(t: Tid)
      requires Valid() && Enabled(Now(), EWake(t))
      modifies this
      ensures Now() == Next(old(Now()), EWake(t)) && Valid()
    {
      NextKeeps(Now(), EWake(t));
      hide LocksInv;
      ThreadUnblock(t);
    }

    /** thread_start, or the last step of fork. */
    method Start(t: Tid)
      requires Valid() && Enabled(Now(), EStart(t))
      modifies this
      ensures Now() == Next(old(Now()), EStart(t)) && Valid()
    {
      NextKeeps(Now(), EStart(t));
      hide LocksInv;
      assert t !in ready;
      ready := ready + [t];
      status := status[t := Ready];
      pc := pc[t := Outside];
    }

    /** lock_acquire, as far as sema_down. */
    method LockAcquire(l: nat)
      requires Valid() && Enabled(Now(), EAcquire(l))
      modifies this
      ensures Now() == Next(old(Now()), EAcquire(l)) && Valid()
    {
      NextKeeps(Now(), EAcquire(l));
      hide LocksInv;
      if locks[l].holder != Some(cur) {
        pc := pc[cur := Wanting(l)];
        locks, books := locks[l := locks[l]], books[l := books[l]];
      } else {
        locks := locks[l := locks[l].(repeat := locks[l].repeat + 1)];
        books := books[l := books[l].(depth := books[l].depth[cur := Depth(books[l], cur) + 1])];
        pc := pc[cur := Outside];
      }
    }

    /** One pass of sema_down's loop: the running thread blocks, or has the value. */
    method SemaDown(l: nat)
      requires Valid() && Enabled(Now(), EDown) && BusyWith(Now(), l)
      modifies this
      ensures Now() == Next(old(Now()), EDown) && Valid()
    {
      NextKeeps(Now(), EDown);
      NoBarging(Now(), l);
      ghost var t := cur;
      if locks[l].value == 0 {
        InvAt(Now(), l);
        assert cur !in locks[l].waiters;
        hide LocksInv, LockInv;
        locks := locks[l := locks[l].(waiters := locks[l].waiters + [cur])];
        books := books[l := books[l].(queued := books[l].queued + [t])];
        pc := pc[t := Queued(l)];
        ThreadBlock(Blocked);
        return;
      }
      hide LocksInv, LockInv;
      locks := locks[l := locks[l].(value := locks[l].value - 1)];
      assert locks[l].value == 0;
      books := books[l := books[l].(owner := Some(t), handed := [], served := books[l].served + books[l].handed)];
      pc := pc[t := Taken(l)];
    }

    /** plock->holder = running_thread() */
    method SetHolder(l: nat)
      requires Valid() && Enabled(Now(), EName) && BusyWith(Now(), l)
      modifies this
      ensures Now() == Next(old(Now()), EName) && Valid()
    {
      NextKeeps(Now(), EName);
      hide LocksInv;
      locks := locks[l := locks[l].(holder := Some(cur))];
      pc, books := pc[cur := Named(l)], books[l := books[l]];
    }

    /** The end of lock_acquire. */
    method SetRepeat(l: nat)
      requires Valid() && Enabled(Now(), EEnter) && BusyWith(Now(), l)
      modifies this
      ensures Now() == Next(old(Now()), EEnter) && Valid()
    {
      NextKeeps(Now(), EEnter);
      EnterKeeps(Now(), l);
      hide LocksInv;
      assert locks[l].repeat == 0;
      locks := locks[l := locks[l].(repeat := 1)];
      books := books[l := books[l].(depth := books[l].depth[cur := 1])];
      pc := pc[cur := Outside];
    }

    /** lock_release, as far as clearing the holder. */
    method LockRelease(l: nat)
      requires Valid() && Enabled(Now(), ERelease(l))
      modifies this
      ensures Now() == Next(old(Now()), ERelease(l)) && Valid()
    {
      NextKeeps(Now(), ERelease(l));
      ReleaseKeeps(Now(), l);
      hide LocksInv;
      assert locks[l].holder == Some(cur);
      books := books[l := books[l].(depth := books[l].depth[cur := Depth(books[l], cur) - 1])];
      if locks[l].repeat > 1 {
        locks := locks[l := locks[l].(repeat := locks[l].repeat - 1)];
        pc := pc[cur := Outside];
        return;
      }
      assert locks[l].repeat == 1;
      locks := locks[l := locks[l].(holder := None)];
      pc := pc[cur := Leaving(l)];
    }

    /** plock->holder_repeat_nr = 0 */
    method ClearRepeat(l: nat)
      requires Valid() && Enabled(Now(), EClear) && BusyWith(Now(), l)
      modifies this
      ensures Now() == Next(old(Now()), EClear) && Valid()
    {
      NextKeeps(Now(), EClear);
      hide LocksInv;
      locks := locks[l := locks[l].(repeat := 0)];
      pc, books := pc[cur := Upping(l)], books[l := books[l]];
    }

    /** The head waiter leaves the wait list for the front of the ready list. */
    method UnblockHead(l: nat)
      requires l < |locks|
      requires locks[l].waiters != [] ==> Asleep(cpu(), locks[l].waiters[0]) && locks[l].waiters[0] !in ready
      modifies this`status, this`ready, this`locks
      ensures
        var k := old(locks)[l];
        if k.waiters == [] then locks == old(locks) && cpu() == old(cpu())
        else locks == old(locks)[l := Lock(k.value, k.waiters[1..], k.holder, k.repeat)] && cpu() == Unblocked(old(cpu()), k.waiters[0])
    {
      if locks[l].waiters != [] {
        var t := locks[l].waiters[0];
        locks := locks[l := locks[l].(waiters := locks[l].waiters[1..])];
        ThreadUnblock(t);
      }
    }

    method SemaUp(l: nat)
      requires Valid() && Enabled(Now(), EUp) && BusyWith(Now(), l)
      modifies this
      ensures Now() == Next(old(Now()), EUp) && Valid()
    {
      hide Inv, Lined, Enabled, Next, Dispatched, Sleep, BusyWith;
      UpSteps(Now(), l);
      ghost var u := Up(Now(), l);
      assert locks[l].value == 0;
      UnblockHead(l);
      locks := locks[l := locks[l].(value := locks[l].value + 1)];
      assert locks[l].value == 1;
      assert locks == u.locks;
      hide Unblocked;
      Schedule();
      pc, books := u.pc, u.books;
    }

    static lemma UpSteps(s: System, l: nat)
      requires Inv(s) && Enabled(s, EUp) && BusyWith(s, l)
      ensures s.cpu.cur in s.cpu.status && l < |s.locks| == |s.books| && s.locks[l].value == 0
      ensures
        var waiters := s.locks[l].waiters;
        if waiters == [] then Lined(s.cpu)
        else Asleep(s.cpu, waiters[0]) && waiters[0] !in s.cpu.ready && Lined(Unblocked(s.cpu, waiters[0]))
      ensures Next(s, EUp) == Up(s, l) && Inv(Up(s, l))
    {
      UpKeeps(s, l);
      UpKeepsLocks(s, l);
      HeadRunsNext(s, l);
      hide LocksInv, LockInv, Dispatched;
    }
  }
}
