/**
 The ready list and the processor (src/kernel/thread.c), as pure values.

 The first thread of `ready` is the next to run. `cur` is the thread on the processor, and `idle`
 the one that runs when no other can.
 */
module Processors {
  import opened Common
  import opened Seqs

  datatype Status = Running | Ready | Blocked | Waiting | Hanging

  datatype Cpu = Cpu(status: map<Tid, Status>, ready: seq<Tid>, cur: Tid, idle: Tid)

  predicate Sleep(s: Status) {
    s.Blocked? || s.Waiting? || s.Hanging?
  }

  ghost predicate Asleep(c: Cpu, t: Tid) {
    t in c.status && Sleep(c.status[t])
  }

  /** What holds on entry to schedule(), when the running thread may just have gone to sleep. */
  ghost predicate Lined(c: Cpu) {
    && NoDup(c.ready) && (forall t :: t in c.ready <==> t in c.status && c.status[t].Ready?)
    && c.cur in c.status && c.idle in c.status && !c.status[c.cur].Ready?
    && (forall t :: t in c.status && c.status[t].Running? ==> t == c.cur)
    && (Asleep(c, c.idle) ==> c.status[c.idle].Blocked?)
  }

  /** One thread runs, and it is in no list; a thread is ready exactly when it is once in the ready list. */
  ghost predicate Scheduled(c: Cpu) {
    Lined(c) && c.status[c.cur].Running?
  }

  /** thread_unblock: to the front of the ready list. */
  function Unblocked(c: Cpu, t: Tid): Cpu {
    Cpu(c.status[t := Ready], [t] + c.ready, c.cur, c.idle)
  }

  /** thread_start and fork: to the back of the ready list. */
  function Started(c: Cpu, t: Tid): Cpu {
    Cpu(c.status[t := Ready], c.ready + [t], c.cur, c.idle)
  }

  function Slept(c: Cpu, stat: Status): Cpu {
    Cpu(c.status[c.cur := stat], c.ready, c.cur, c.idle)
  }

  /** The first half of schedule(): a thread that still runs goes to the back of the ready list. */
  function Requeued(c: Cpu): Cpu
    requires c.cur in c.status
  {
    if c.status[c.cur].Running? then Started(c, c.cur) else c
  }

  function Offered(c: Cpu): (d: Cpu)
    ensures d.ready != []
  {
    if c.ready == [] then Unblocked(c, c.idle) else c
  }

  function Popped(c: Cpu): Cpu
    requires c.ready != []
  {
    Cpu(c.status[c.ready[0] := Running], c.ready[1..], c.ready[0], c.idle)
  }

  /** schedule() */
  function Dispatched(c: Cpu): Cpu
    requires c.cur in c.status
  {
    Popped(Offered(Requeued(c)))
  }

  lemma UnblockedKeeps(c: Cpu, t: Tid)
    requires Lined(c) && Asleep(c, t)
    ensures t !in c.ready && NoDup([t] + c.ready)
    ensures t != c.cur ==> Lined(Unblocked(c, t))
    ensures Scheduled(c) ==> t != c.cur && Scheduled(Unblocked(c, t))
  {
    AppendNoDup(c.ready, t);
  }

  lemma StartedKeeps(c: Cpu, t: Tid)
    requires Scheduled(c) && t !in c.status
    ensures Scheduled(Started(c, t))
  {
    AppendNoDup(c.ready, t);
  }

  /** Between the halves of schedule(): nobody runs. */
  ghost predicate Vacant(c: Cpu) {
    && NoDup(c.ready) && (forall t :: t in c.ready <==> t in c.status && c.status[t].Ready?)
    && c.idle in c.status && (forall t :: t in c.status ==> !c.status[t].Running?)
    && (Asleep(c, c.idle) ==> c.status[c.idle].Blocked?)
  }

  lemma RequeuedIsVacant(c: Cpu)
    requires Lined(c)
    ensures Vacant(Requeued(c)) && (Requeued(c).ready == [] ==> Requeued(c) == c && c.status[c.idle].Blocked?)
  {
    if c.status[c.cur].Running? {
      AppendNoDup(c.ready, c.cur);
    }
  }

  lemma OfferedIsVacant(c: Cpu)
    requires Vacant(c)
    ensures Vacant(Offered(c))
  {
  }

  lemma PoppedRuns(c: Cpu)
    requires Vacant(c) && c.ready != []
    ensures Scheduled(Popped(c))
  {
    PoppedNoDup(c.ready);
  }

  /**
   schedule() always finds a thread. When the ready list is empty, the idle thread is asleep, so
   unblocking it is allowed; every sleeping thread other than idle sleeps on.
   */
  lemma DispatchedKeeps(c: Cpu)
    requires Lined(c)
    ensures Scheduled(Dispatched(c)) && Dispatched(c).status.Keys == c.status.Keys && Dispatched(c).idle == c.idle
    ensures Requeued(c).ready == [] ==> Requeued(c) == c && c.status[c.idle].Blocked?
    ensures Dispatched(c).cur == if c.ready != [] then c.ready[0] else if c.status[c.cur].Running? then c.cur else c.idle
    ensures forall t :: Asleep(c, t) && t != c.idle ==> Dispatched(c).status[t] == c.status[t]
  {
    RequeuedIsVacant(c);
    OfferedIsVacant(Requeued(c));
    PoppedRuns(Offered(Requeued(c)));
    DispatchedStatus(c);
    hide Vacant, NoDup;
  }

  lemma DispatchedStatus(c: Cpu)
    requires Lined(c)
    ensures Dispatched(c).status.Keys == c.status.Keys
    ensures Dispatched(c).cur == if c.ready != [] then c.ready[0] else if c.status[c.cur].Running? then c.cur else c.idle
    ensures forall t :: Asleep(c, t) && t != c.idle ==> Dispatched(c).status[t] == c.status[t]
  {
    hide NoDup;
    var d := Requeued(c);
    var e := Offered(d);
    assert e.ready[0] == (if c.ready != [] then c.ready[0] else if c.status[c.cur].Running? then c.cur else c.idle);
    assert e.ready[0] in e.ready && e.ready[0] in c.status;
  }

  /**
   Where everybody goes: the next thread leaves the front of the ready list, and a thread that could
   have run on goes to its end, behind all the others.
   */
  lemma DispatchedReady(c: Cpu)
    requires Lined(c)
    ensures
      Dispatched(c).ready ==
      if c.ready == [] then [] else c.ready[1..] + if c.status[c.cur].Running? then [c.cur] else []
  {
  }

  /** The running thread, and the others in the order in which they will run. */
  function Turns(c: Cpu): seq<Tid> {
    [c.cur] + c.ready
  }

  lemma DispatchedTurns(c: Cpu)
    requires Scheduled(c)
    ensures Turns(Dispatched(c)) == Turns(c)[1..] + [c.cur]
  {
    DispatchedKeeps(c);
    DispatchedReady(c);
  }

  /** A thread that goes to sleep leaves the processor and the ready list to the others; only idle takes over from itself. */
  lemma SleeperLeaves(c: Cpu, stat: Status)
    requires Scheduled(c) && Sleep(stat) && (c.cur == c.idle ==> stat == Blocked)
    ensures
      var d := Dispatched(Slept(c, stat));
      && d.cur == (if c.ready != [] then c.ready[0] else c.idle) && d.ready == (if c.ready != [] then c.ready[1..] else [])
      && (c.cur != c.idle || c.ready != [] ==> d.cur != c.cur && c.cur !in d.ready && d.status[c.cur] == stat)
  {
    DispatchedKeeps(Slept(c, stat));
    DispatchedReady(Slept(c, stat));
    if c.ready != [] {
      assert c.ready[0] in c.ready;
    }
    SleeperSleeps(c, stat);
  }

  lemma SleeperSleeps(c: Cpu, stat: Status)
    requires Scheduled(c) && Sleep(stat)
    ensures c.cur != c.idle || c.ready != [] ==> Dispatched(Slept(c, stat)).status[c.cur] == stat
  {
  }
}

