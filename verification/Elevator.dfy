/**
 The request queue of a block device (src/kernel/device.c), as pure values: sorted insertion, the
 choice of the next request, and the order in which a queue is worked off.
 */
module Requests {
  import opened Common
  import opened Seqs

  /** `owner` is the thread inside device_request; `task` is set only once it has to wait. */
  datatype Request = Request(owner: Tid, idx: int, task: Option<Tid>)

  /** Where list_insert_sort puts a node: before the first one with a larger key. */
  ghost predicate IsAnchor(q: seq<Request>, idx: int, p: nat) {
    p <= |q| && (forall i :: 0 <= i < p ==> q[i].idx <= idx) && (p < |q| ==> q[p].idx > idx)
  }

  function Anchor(q: seq<Request>, idx: int): (p: nat)
    ensures IsAnchor(q, idx, p)
  {
    if q == [] || q[0].idx > idx then 0 else 1 + Anchor(q[1..], idx)
  }

  function Inserted(q: seq<Request>, r: Request): seq<Request> {
    q[..Anchor(q, r.idx)] + [r] + q[Anchor(q, r.idx)..]
  }

  ghost predicate Sorted(q: seq<Request>) {
    forall i, j :: 0 <= i < j < |q| ==> q[i].idx <= q[j].idx
  }

  /** Requests for the same sector stand in the order of their arrival. */
  ghost predicate Stable(q: seq<Request>, arrival: map<Tid, nat>) {
    forall i, j :: 0 <= i < j < |q| && q[i].owner in arrival && q[j].owner in arrival && q[i].idx == q[j].idx ==>
      arrival[q[i].owner] < arrival[q[j].owner]
  }

  /** The anchor splits the queue: what stands before it goes first, what stands after it is larger. */
  lemma InsertedAt(q: seq<Request>, r: Request, i: nat)
    requires Sorted(q) && i <= |q|
    ensures
      var p := Anchor(q, r.idx);
      var w := Inserted(q, r);
      |w| == |q| + 1 && w[i] == (if i < p then q[i] else if i == p then r else q[i - 1])
      && (i < p ==> w[i].idx <= r.idx) && (i > p ==> w[i].idx > r.idx)
  {
  }

  lemma InsertedIsSorted(q: seq<Request>, r: Request, arrival: map<Tid, nat>, now: nat)
    requires Sorted(q) && Stable(q, arrival)
    requires forall i :: 0 <= i < |q| ==> q[i].owner != r.owner
    requires forall t :: t in arrival ==> arrival[t] < now
    ensures Sorted(Inserted(q, r)) && Stable(Inserted(q, r), arrival[r.owner := now])
  {
    var w := Inserted(q, r);
    forall i | 0 <= i < |w| ensures w[i] == (if i < Anchor(q, r.idx) then q[i] else if i == Anchor(q, r.idx) then r else q[i - 1]) {
      InsertedAt(q, r, i);
    }
    hide Inserted;
  }

  ghost predicate DistinctOwners(q: seq<Request>) {
    forall i, j :: 0 <= i < j < |q| ==> q[i].owner != q[j].owner
  }

  function Cut(q: seq<Request>, p: nat): seq<Request>
    requires p < |q|
  {
    q[..p] + q[p + 1..]
  }

  datatype Direction = UP | DOWN

  function Turned(q: seq<Request>, d: Direction, p: nat): Direction {
    if d.UP? && p + 1 == |q| then DOWN else if d.DOWN? && p == 0 then UP else d
  }

  /** request_nextreq for the request at position p: the position of the next one, or -1 for NULL. */
  function NextPos(q: seq<Request>, d: Direction, p: nat): (n: int)
    requires p < |q|
    ensures n == -1 <==> |q| == 1
    ensures n != -1 ==> 0 <= n < |q| && n != p
  {
    var n := if Turned(q, d, p).UP? then p + 1 else p - 1;
    if n == |q| then -1 else n
  }

  function Reversed(s: seq<Request>): (r: seq<Request>)
    ensures |r| == |s|
  {
    if s == [] then [] else [s[|s| - 1]] + Reversed(s[..|s| - 1])
  }

  /** The requests in the order in which they are served from position p on, when no more arrive. */
  function WorkedOff(q: seq<Request>, d: Direction, p: nat): seq<Request>
    requires p < |q|
    decreases |q|
  {
    var n := NextPos(q, d, p);
    [q[p]] + if n == -1 then [] else WorkedOff(Cut(q, p), Turned(q, d, p), if n > p then n - 1 else n)
  }

  /** One sweep in the given direction from position p on, and then one in the other. */
  function Sweeps(q: seq<Request>, d: Direction, p: nat): seq<Request>
    requires p < |q|
  {
    if d.UP? then q[p..] + Reversed(q[..p]) else Reversed(q[..p + 1]) + q[p + 1..]
  }

  lemma SweepsUp(q: seq<Request>, p: nat)
    requires p < |q| && |q| > 1
    ensures p + 1 < |q| ==> Sweeps(q, UP, p) == [q[p]] + Sweeps(Cut(q, p), UP, p)
    ensures p + 1 == |q| ==> Sweeps(q, UP, p) == [q[p]] + Sweeps(Cut(q, p), DOWN, p - 1)
  {
    var c := Cut(q, p);
    assert c[..p] == q[..p] && c[p..] == q[p + 1..] && q[p..] == [q[p]] + q[p + 1..];
  }

  lemma SweepsDown(q: seq<Request>, p: nat)
    requires p < |q| && |q| > 1
    ensures p > 0 ==> Sweeps(q, DOWN, p) == [q[p]] + Sweeps(Cut(q, p), DOWN, p - 1)
    ensures p == 0 ==> Sweeps(q, DOWN, p) == [q[p]] + Sweeps(Cut(q, p), UP, 0)
  {
    var c := Cut(q, p);
    assert c[..p] == q[..p] && c[p..] == q[p + 1..] && q[..p + 1][..p] == q[..p];
    assert Reversed(q[..p + 1]) == [q[p]] + Reversed(q[..p]);
    if p == 0 {
      assert c[0..] == q[1..];
    }
  }

  /** The two sweeps begin with the request at hand, and go on from the one that request_nextreq picks. */
  lemma SweepsGoOn(q: seq<Request>, d: Direction, p: nat)
    requires p < |q|
    ensures
      var n := NextPos(q, d, p);
      Sweeps(q, d, p) ==
      [q[p]] + if n == -1 then [] else Sweeps(Cut(q, p), Turned(q, d, p), if n > p then n - 1 else n)
  {
    hide Sweeps;
    if |q| == 1 {
      SweepsAlone(q, d);
    } else if d.UP? {
      SweepsUp(q, p);
    } else {
      SweepsDown(q, p);
    }
  }

  /** Working the queue off request by request makes the two sweeps. */
  lemma {:induction false} SweepOrder(q: seq<Request>, d: Direction, p: nat)
    requires p < |q|
    ensures WorkedOff(q, d, p) == Sweeps(q, d, p)
    decreases |q|
  {
    hide Sweeps;
    var n := NextPos(q, d, p);
    if n == -1 {
      SweepsAlone(q, d);
    } else {
      SweepOrder(Cut(q, p), Turned(q, d, p), if n > p then n - 1 else n);
      if d.UP? {
        SweepsUp(q, p);
      } else {
        SweepsDown(q, p);
      }
    }
  }

  /** The sweeps by position: on to the end of the queue, and then back from where they began. */
  lemma SweepsAt(q: seq<Request>, d: Direction, p: nat, i: nat)
    requires p < |q| && i < |q|
    ensures
      |Sweeps(q, d, p)| == |q| && Sweeps(q, d, p)[i] ==
      if d.UP? then if i < |q| - p then q[p + i] else q[|q| - 1 - i]
      else if i <= p then q[p - i] else q[i]
  {
    if d.UP? {
      if i >= |q| - p {
        ReversedAt(q[..p], i - (|q| - p));
      }
    } else if i <= p {
      ReversedAt(q[..p + 1], i);
    }
  }

  lemma {:induction false} ReversedAt(s: seq<Request>, i: nat)
    requires i < |s|
    ensures Reversed(s)[i] == s[|s| - 1 - i]
  {
    if i > 0 {
      ReversedAt(s[..|s| - 1], i - 1);
    }
  }

  lemma SweepsAlone(q: seq<Request>, d: Direction)
    requires |q| == 1
    ensures Sweeps(q, d, 0) == [q[0]]
  {
    assert Reversed([q[0]]) == [q[0]] && q == [q[0]];
  }

  lemma {:induction false} ReversedKeeps(s: seq<Request>)
    ensures multiset(Reversed(s)) == multiset(s)
  {
    if s != [] {
      assert s == s[..|s| - 1] + [s[|s| - 1]];
      ReversedKeeps(s[..|s| - 1]);
    }
  }

  /** Each queued request is served once, in as many steps as there are requests. */
  lemma WorkedOffIsQueue(q: seq<Request>, d: Direction, p: nat)
    requires p < |q|
    ensures multiset(WorkedOff(q, d, p)) == multiset(q) && |WorkedOff(q, d, p)| == |q|
  {
    SweepOrder(q, d, p);
    var m := if d.UP? then p else p + 1;
    ReversedKeeps(q[..m]);
    hide WorkedOff, Reversed, Cut, NextPos;
    assert q == q[..m] + q[m..];
  }

  lemma InsertedMembers(q: seq<Request>, r: Request)
    requires DistinctOwners(q) && forall x :: x in q ==> x.owner != r.owner
    ensures DistinctOwners(Inserted(q, r)) && forall x :: x in Inserted(q, r) <==> x in q || x == r
  {
    hide Anchor, IsAnchor;
    var p := Anchor(q, r.idx);
    assert p <= |q| by { AnchorWithin(q, r.idx); }
    SplitMembers(q, r, p);
    SplitDistinct(q, r, p);
    hide DistinctOwners;
  }

  lemma AnchorWithin(q: seq<Request>, idx: int)
    ensures Anchor(q, idx) <= |q|
  {
  }

  lemma SplitMembers(q: seq<Request>, r: Request, p: nat)
    requires p <= |q|
    ensures forall x :: x in q[..p] + [r] + q[p..] <==> x in q || x == r
  {
    assert q == q[..p] + q[p..];
  }

  lemma SplitDistinct(q: seq<Request>, r: Request, p: nat)
    requires p <= |q| && DistinctOwners(q) && forall x :: x in q ==> x.owner != r.owner
    ensures DistinctOwners(q[..p] + [r] + q[p..])
  {
    var w := q[..p] + [r] + q[p..];
    forall i, j | 0 <= i < j < |w| ensures w[i].owner != w[j].owner {
      assert w[i] == if i < p then q[i] else if i == p then r else q[i - 1];
      assert w[j] == if j < p then q[j] else if j == p then r else q[j - 1];
      assert i != p ==> w[i] in q;
      assert j != p ==> w[j] in q;
    }
  }

  lemma CutMembers(q: seq<Request>, p: nat)
    requires DistinctOwners(q) && p < |q|
    ensures DistinctOwners(Cut(q, p)) && forall x :: x in Cut(q, p) <==> x in q && x != q[p]
  {
    var w := Cut(q, p);
    assert q == q[..p] + [q[p]] + q[p + 1..] && |w| == |q| - 1;
    forall i, j | 0 <= i < j < |w| ensures w[i].owner != w[j].owner {
      CutAt(q, p, i);
      CutAt(q, p, j);
    }
    forall x ensures x in w <==> x in q && x != q[p] {
      assert x in w <==> x in q[..p] || x in q[p + 1..];
      assert forall i :: 0 <= i < |q| && i != p ==> q[i].owner != q[p].owner;
    }
  }

  lemma CutAt(q: seq<Request>, p: nat, i: nat)
    requires p < |q|
    ensures |Cut(q, p)| == |q| - 1 && (i < |q| - 1 ==> Cut(q, p)[i] == if i < p then q[i] else q[i + 1])
  {
  }

  lemma CutSorted(q: seq<Request>, p: nat, arrival: map<Tid, nat>)
    requires Sorted(q) && Stable(q, arrival) && p < |q|
    ensures Sorted(Cut(q, p)) && Stable(Cut(q, p), arrival)
  {
    CutAt(q, p, 0);
    forall i, j | 0 <= i < j < |Cut(q, p)|
      ensures
        var x, y := Cut(q, p)[i], Cut(q, p)[j];
        x.idx <= y.idx && (x.owner in arrival && y.owner in arrival && x.idx == y.idx ==> arrival[x.owner] < arrival[y.owner])
    {
      CutAt(q, p, i);
      CutAt(q, p, j);
    }
    hide Cut;
  }
}

/** The hand-over of a device between the threads that use it. */
module Elevators {
  import opened Common
  import opened Seqs
  import opened Requests

  /**
   Where a thread is in device_request. Other threads run while it waits, after it was unblocked,
   during do_request, and during free(req).
   */
  datatype Stage =
    | Away
    | Waits                         // blocked in thread_block
    | Called                        // unblocked, not yet running
    | Serves                        // in do_request
    | Frees(next: Option<Request>)  // in free(req), with nextreq already chosen

  /**
   `pending` are the request objects in use. The rest is bookkeeping: when each thread joined the
   list last, who has the device or is designated, and who will unblock it.
   */
  datatype Device = Device(
    list: seq<Request>, direct: Direction, stage: map<Tid, Stage>, pending: map<Tid, Request>,
    since: map<Tid, nat>, clock: nat, active: Option<Tid>, freer: Option<Tid>)

  function StageOf(s: Device, t: Tid): Stage {
    if t in s.stage then s.stage[t] else Away
  }

  /** Thread f will unblock thread t once its free(req) is over. */
  ghost predicate Designates(s: Device, f: Tid, t: Tid) {
    StageOf(s, f).Frees? && StageOf(s, f).next.Some? && StageOf(s, f).next.value.owner == t
  }

  /** Thread t is served, about to be, or the one that somebody will unblock. */
  ghost predicate Active(s: Device, t: Tid) {
    StageOf(s, t).Serves? || StageOf(s, t).Called? || exists f :: Designates(s, f, t)
  }

  ghost predicate Ordered(s: Device) {
    && Sorted(s.list) && DistinctOwners(s.list) && Stable(s.list, s.since)
    && (forall t :: t in s.since ==> s.since[t] < s.clock)
  }

  ghost predicate Listed(s: Device) {
    && (forall r :: r in s.list <==> r.owner in s.pending && s.pending[r.owner] == r)
    && (forall t :: t in s.pending ==> s.pending[t].owner == t)
  }

  ghost predicate Staged(s: Device) {
    && (forall t: Tid :: t in s.pending <==> StageOf(s, t).Waits? || StageOf(s, t).Called? || StageOf(s, t).Serves?)
    && (forall t :: t in s.pending && StageOf(s, t).Waits? ==> s.pending[t].task == Some(t))
  }

  ghost predicate Handed(s: Device) {
    && (forall t :: t in s.pending ==> s.active.Some?)
    && (s.active.Some? ==> s.active.value in s.pending)
    && (forall t: Tid :: StageOf(s, t).Called? || StageOf(s, t).Serves? ==> s.active == Some(t) && s.freer == None)
    && (s.active.Some? && StageOf(s, s.active.value).Waits? ==> s.freer.Some?)
    && (forall f: Tid :: StageOf(s, f).Frees? && StageOf(s, f).next.Some? <==> s.freer == Some(f))
    && (s.freer.Some? ==>
          var r := StageOf(s, s.freer.value).next.value;
          s.active == Some(r.owner) && StageOf(s, r.owner).Waits? && r.owner in s.pending && s.pending[r.owner] == r)
  }

  ghost predicate Inv(s: Device) {
    Ordered(s) && Listed(s) && Staged(s) && Handed(s)
  }

  /** device_request as far as do_request, or as far as thread_block when the list was not empty. */
  function Arrived(s: Device, t: Tid, idx: int): Device {
    var r := Request(t, idx, if s.list == [] then None else Some(t));
    Device(Inserted(s.list, r), s.direct, s.stage[t := if s.list == [] then Serves else Waits], s.pending[t := r],
           s.since[t := s.clock], s.clock + 1, if s.list == [] then Some(t) else s.active, s.freer)
  }

  /** An unblocked thread runs: it enters do_request. */
  function Resumed(s: Device, t: Tid): Device {
    s.(stage := s.stage[t := Serves])
  }

  /** request_nextreq and list_remove, once do_request is over for the request at position p. */
  function Finished(s: Device, p: nat): Device
    requires p < |s.list|
  {
    var n := NextPos(s.list, s.direct, p);
    var next := if n == -1 then None else Some(s.list[n]);
    var t := s.list[p].owner;
    Device(Cut(s.list, p), Turned(s.list, s.direct, p), s.stage[t := Frees(next)], s.pending - {t},
           s.since, s.clock, if n == -1 then None else Some(s.list[n].owner), if n == -1 then None else Some(t))
  }

  /** free(req) is over: unblock nextreq->task. */
  function Freed(s: Device, t: Tid): Device {
    match StageOf(s, t)
    case Frees(Some(r)) => s.(stage := s.stage[t := Away][r.owner := Called], freer := None)
    case _ => s.(stage := s.stage[t := Away])
  }

  lemma ListIsPending(s: Device)
    requires Listed(s)
    ensures s.list == [] <==> forall t :: t !in s.pending
  {
    if s.list != [] {
      assert s.list[0] in s.list;
    }
    forall t | t in s.pending ensures s.list != [] {
      assert s.pending[t] in s.list;
    }
  }

  lemma ArrivedKeeps(s: Device, t: Tid, idx: int)
    requires Inv(s) && StageOf(s, t) == Away
    ensures Inv(Arrived(s, t, idx))
  {
    ArrivedListed(s, t, idx);
    ArrivedRest(s, t, idx);
    hide Listed, Ordered, Arrived;
  }

  lemma ArrivedRest(s: Device, t: Tid, idx: int)
    requires Inv(s) && StageOf(s, t) == Away
    ensures Staged(Arrived(s, t, idx)) && Handed(Arrived(s, t, idx))
  {
    ListIsPending(s);
    var u := Arrived(s, t, idx);
    forall x ensures StageOf(u, x) == if x != t then StageOf(s, x) else if s.list == [] then Serves else Waits {
    }
    NewlyStaged(s, u, t, s.list == []);
    hide Inserted, Sorted, Stable;
  }

  /** A thread arrives at an idle device, which it gets, or at a busy one, where it waits. */
  lemma NewlyStaged(s: Device, u: Device, t: Tid, first: bool)
    requires Staged(s) && Handed(s) && StageOf(s, t) == Away && t !in s.pending
    requires forall x :: StageOf(u, x) == if x != t then StageOf(s, x) else if first then Serves else Waits
    requires first <==> forall x :: x !in s.pending
    requires u.pending.Keys == s.pending.Keys + {t} && forall x :: x in s.pending ==> u.pending[x] == s.pending[x]
    requires u.pending[t].task == if first then None else Some(t)
    requires u.freer == s.freer && u.active == if first then Some(t) else s.active
    ensures Staged(u) && Handed(u)
  {
    hide StageOf;
    if first {
      assert Staged(u) && Handed(u);
    } else {
      assert Staged(u) && Handed(u);
    }
  }

  lemma ArrivedListed(s: Device, t: Tid, idx: int)
    requires Ordered(s) && Listed(s) && Staged(s) && StageOf(s, t) == Away
    ensures Ordered(Arrived(s, t, idx)) && Listed(Arrived(s, t, idx))
  {
    var r := Request(t, idx, if s.list == [] then None else Some(t));
    assert t !in s.pending;
    ListPending(s, r);
    hide Staged;
    InsertedMembers(s.list, r);
    InsertedIsSorted(s.list, r, s.since, s.clock);
    ListedWith(s, r);
    hide Inserted, Sorted, DistinctOwners, Stable, Listed;
  }

  lemma ListedWith(s: Device, r: Request)
    requires Listed(s) && r.owner !in s.pending && forall x :: x in Inserted(s.list, r) <==> x in s.list || x == r
    ensures Listed(s.(list := Inserted(s.list, r), pending := s.pending[r.owner := r]))
    ensures forall u: Device :: u.list == Inserted(s.list, r) && u.pending == s.pending[r.owner := r] ==> Listed(u)
  {
    hide Inserted;
  }

  lemma ListPending(s: Device, r: Request)
    requires Listed(s) && r.owner !in s.pending
    ensures forall x :: x in s.list ==> x.owner != r.owner
    ensures forall i :: 0 <= i < |s.list| ==> s.list[i].owner != r.owner
  {
    forall i | 0 <= i < |s.list| ensures s.list[i].owner != r.owner {
      assert s.list[i] in s.list;
    }
  }

  lemma ResumedKeeps(s: Device, t: Tid)
    requires Inv(s) && StageOf(s, t) == Called
    ensures Inv(Resumed(s, t))
  {
  }

  lemma FinishedKeeps(s: Device, p: nat)
    requires Inv(s) && p < |s.list| && StageOf(s, s.list[p].owner) == Serves
    ensures Inv(Finished(s, p))
  {
    FinishedListed(s, p);
    FinishedRest(s, p);
    hide Listed, Ordered, Finished;
  }

  lemma FinishedListed(s: Device, p: nat)
    requires Ordered(s) && Listed(s) && p < |s.list|
    ensures Ordered(Finished(s, p)) && Listed(Finished(s, p))
  {
    CutMembers(s.list, p);
    CutSorted(s.list, p, s.since);
    hide Sorted, Cut, DistinctOwners, Stable;
  }

  lemma FinishedRest(s: Device, p: nat)
    requires Inv(s) && p < |s.list| && StageOf(s, s.list[p].owner) == Serves
    ensures Staged(Finished(s, p)) && Handed(Finished(s, p))
  {
    var n := NextPos(s.list, s.direct, p);
    var t := s.list[p].owner;
    if n == -1 {
      assert s.list == [s.list[p]];
      forall x | x in s.pending ensures x == t {
        assert s.pending[x] in s.list;
      }
    } else {
      assert s.list[n] in s.list && s.list[p] in s.list && s.list[n].owner != t;
    }
    hide Sorted, Cut, DistinctOwners, Stable, NextPos, Turned;
  }

  lemma FreedKeeps(s: Device, t: Tid)
    requires Inv(s) && StageOf(s, t).Frees?
    ensures Inv(Freed(s, t))
  {
    var u, next := Freed(s, t), StageOf(s, t).next;
    forall x ensures StageOf(u, x) == if next.Some? && x == next.value.owner then Called else if x == t then Away else StageOf(s, x) {
    }
    hide StageOf, Sorted, DistinctOwners, Stable;
  }

  // ----- runs -----

  datatype Event = EArrive(t: Tid, idx: int) | EResume(t: Tid) | EFinish(t: Tid) | EFreed(t: Tid)

  ghost predicate Enabled(s: Device, e: Event) {
    match e
    case EArrive(t, _) => StageOf(s, t).Away?
    case EResume(t) => StageOf(s, t).Called?
    case EFinish(t) => StageOf(s, t).Serves? && exists p :: 0 <= p < |s.list| && s.list[p].owner == t
    case EFreed(t) => StageOf(s, t).Frees?
  }

  /** The position of the request of thread t. */
  function PosOf(q: seq<Request>, t: Tid): (p: nat)
    requires exists p :: 0 <= p < |q| && q[p].owner == t
    ensures p < |q| && q[p].owner == t
  {
    if q[0].owner == t then 0 else
      assert exists p :: 0 <= p < |q[1..]| && q[1..][p].owner == t by {
        var p :| 0 <= p < |q| && q[p].owner == t;
        assert q[1..][p - 1].owner == t;
      }
      1 + PosOf(q[1..], t)
  }

  ghost function Next(s: Device, e: Event): Device
    requires Enabled(s, e)
  {
    match e
    case EArrive(t, idx) => Arrived(s, t, idx)
    case EResume(t) => Resumed(s, t)
    case EFinish(t) => Finished(s, PosOf(s.list, t))
    case EFreed(t) => Freed(s, t)
  }

  lemma NextKeeps(s: Device, e: Event)
    requires Inv(s) && Enabled(s, e)
    ensures Inv(Next(s, e))
  {
    hide Inv, Arrived, Resumed, Finished, Freed;
    match e
    case EArrive(t, idx) => ArrivedKeeps(s, t, idx);
    case EResume(t) => ResumedKeeps(s, t);
    case EFinish(t) => FinishedKeeps(s, PosOf(s.list, t));
    case EFreed(t) => FreedKeeps(s, t);
  }

  ghost predicate Runs(s: Device, es: seq<Event>, t: Device)
    decreases |es|
  {
    if es == [] then t == s else Enabled(s, es[0]) && Runs(Next(s, es[0]), es[1..], t)
  }

  lemma {:induction false} RunKeeps(s: Device, es: seq<Event>, t: Device)
    requires Inv(s) && Runs(s, es, t)
    ensures Inv(t)
    decreases |es|
  {
    hide Inv, Next;
    if es != [] {
      NextKeeps(s, es[0]);
      RunKeeps(Next(s, es[0]), es[1..], t);
    }
  }

  /** What device_init leaves. */
  function Idle(): Device {
    Device([], UP, map[], map[], map[], 0, None, None)
  }

  lemma IdleInv()
    ensures Inv(Idle())
  {
  }

  /**
   In every reachable state at most one request is served or designated, the list is non-empty
   exactly when there is one, and every other thread in the list is blocked and can be unblocked.
   */
  lemma NoWakeUpIsLost(s: Device)
    requires Inv(s)
    ensures forall t, u :: Active(s, t) && Active(s, u) ==> t == u
    ensures s.list != [] <==> exists t :: Active(s, t)
    ensures forall r :: r in s.list && !Active(s, r.owner) ==> StageOf(s, r.owner).Waits? && r.task == Some(r.owner)
    ensures forall f: Tid, t: Tid :: Designates(s, f, t) ==> StageOf(s, t).Waits? && StageOf(s, f).next.value.task == Some(t)
  {
    ListIsPending(s);
    if s.list != [] {
      assert s.list[0] in s.list;
      assert Active(s, s.active.value) by { IsActive(s); }
    }
    hide Sorted, DistinctOwners, Stable;
  }

  lemma IsActive(s: Device)
    requires Inv(s) && s.active.Some?
    ensures Active(s, s.active.value)
  {
    if s.freer.Some? {
      assert Designates(s, s.freer.value, s.active.value);
    }
  }

  /** A non-empty list never gets stuck: some thread that has begun can take its next step. */
  lemma SomebodyMoves(s: Device)
    requires Inv(s) && s.list != []
    ensures exists t :: Enabled(s, EResume(t)) || Enabled(s, EFinish(t)) || (Enabled(s, EFreed(t)) && StageOf(s, t).next.Some?)
  {
    ListIsPending(s);
    assert s.list[0] in s.list;
    var a := s.active.value;
    if StageOf(s, a).Serves? {
      assert s.pending[a] in s.list;
      assert Enabled(s, EFinish(a));
    } else if StageOf(s, a).Called? {
      assert Enabled(s, EResume(a));
    } else {
      assert Enabled(s, EFreed(s.freer.value));
    }
  }

  // ----- the order of service -----

  /** Those still to be served, from the active request on, in the order of the two sweeps. */
  ghost function Remaining(s: Device): seq<Request> {
    if s.active.Some? && exists p :: 0 <= p < |s.list| && s.list[p].owner == s.active.value
    then Sweeps(s.list, s.direct, PosOf(s.list, s.active.value))
    else []
  }

  function Owners(q: seq<Request>): (ts: seq<Tid>)
    ensures |ts| == |q|
  {
    seq(|q|, i requires 0 <= i < |q| => q[i].owner)
  }

  /** The threads whose requests were served in the course of the events, in that order. */
  function Served(es: seq<Event>): seq<Tid> {
    if es == [] then []
    else if es[0].EFinish? then [es[0].t] + Served(es[1..])
    else Served(es[1..])
  }

  ghost predicate NoArrivals(es: seq<Event>) {
    forall i :: 0 <= i < |es| ==> !es[i].EArrive?
  }

  lemma PosOfOwner(q: seq<Request>, p: nat)
    requires DistinctOwners(q) && p < |q|
    ensures PosOf(q, q[p].owner) == p
  {
    hide PosOf;
  }

  /** Finishing a request takes the first one off those remaining. */
  lemma FinishedRemaining(s: Device, p: nat)
    requires Inv(s) && p < |s.list| && StageOf(s, s.list[p].owner) == Serves
    ensures Remaining(s) == [s.list[p]] + Remaining(Finished(s, p))
  {
    hide Sorted, Stable, Sweeps, PosOf, Listed, Staged;
    var u, n := Finished(s, p), NextPos(s.list, s.direct, p);
    PosOfOwner(s.list, p);
    SweepsGoOn(s.list, s.direct, p);
    if n != -1 {
      CutAt(s.list, p, if n > p then n - 1 else n);
      CutMembers(s.list, p);
      PosOfOwner(u.list, if n > p then n - 1 else n);
    }
  }

  /** Nothing but an arrival or a finished request changes what remains. */
  lemma StepRemaining(s: Device, e: Event)
    requires Inv(s) && Enabled(s, e) && !e.EArrive?
    ensures Owners(Remaining(s)) == Served([e]) + Owners(Remaining(Next(s, e)))
  {
    hide Inv, Sweeps, PosOf, Finished;
    match e
    case EResume(_) =>
    case EFreed(_) =>
    case EFinish(t) =>
      FinishedRemaining(s, PosOf(s.list, t));
      assert Served([e]) == [t];
  }

  /** Over any run without arrivals, what was served and what remains is what remained at first, in that order. */
  lemma {:induction false} RunServesInOrder(s: Device, es: seq<Event>, t: Device)
    requires Inv(s) && Runs(s, es, t) && NoArrivals(es)
    ensures Owners(Remaining(s)) == Served(es) + Owners(Remaining(t))
    decreases |es|
  {
    hide Inv, Next, Enabled, Remaining, Owners;
    if es != [] {
      assert NoArrivals(es[1..]);
      NextKeeps(s, es[0]);
      StepRemaining(s, es[0]);
      RunServesInOrder(Next(s, es[0]), es[1..], t);
      assert es == [es[0]] + es[1..] && Served(es) == Served([es[0]]) + Served(es[1..]);
    }
  }

  /**
   With no new arrivals, and however the threads' steps interleave, the requests are finished in the
   order of one sweep in the current direction from the request at hand, and one in the other; when
   the list is empty each was served, once.
   */
  lemma ServedInSweeps(s: Device, p: nat, es: seq<Event>, t: Device)
    requires Inv(s) && p < |s.list| && StageOf(s, s.list[p].owner).Serves?
    requires Runs(s, es, t) && NoArrivals(es)
    ensures Served(es) <= Owners(Sweeps(s.list, s.direct, p))
    ensures t.list == [] ==> Served(es) == Owners(Sweeps(s.list, s.direct, p))
  {
    RunServesInOrder(s, es, t);
    hide Sorted, Stable, Sweeps, Listed, Staged, Owners, Runs;
    PosOfOwner(s.list, p);
    assert t.list == [] ==> Remaining(t) == [];
  }

  /** The queue of a device, and device_request cut where other threads can run. */
  class Elevator {
    var list: seq<Request>
    var direct: Direction
    var stage: map<Tid, Stage>
    var pending: map<Tid, Request>
    ghost var since: map<Tid, nat>
    ghost var clock: nat
    ghost var active: Option<Tid>
    ghost var freer: Option<Tid>

    ghost function Now(): Device
      reads this
    {
      Device(list, direct, stage, pending, since, clock, active, freer)
    }

    ghost predicate Valid()
      reads this
    {
      Inv(Now())
    }

    constructor ()
      ensures Valid() && Now() == Idle()
    {
      list, direct, stage, pending := [], UP, map[], map[];
      since, clock, active, freer := map[], 0, None, None;
      new;
      IdleInv();
    }

    /** list_insert_sort */
    method InsertSort(r: Request)
      modifies this`list
      ensures list == Inserted(old(list), r)
    {
      var anchor: nat := 0;
      while anchor < |list|
        invariant anchor <= |list| && forall i :: 0 <= i < anchor ==> list[i].idx <= r.idx
      {
        if list[anchor].idx > r.idx {
          break;
        }
        anchor := anchor + 1;
      }
      AnchorIsUnique(list, r.idx, anchor);
      list := list[..anchor] + [r] + list[anchor..];
    }

    static lemma AnchorIsUnique(q: seq<Request>, idx: int, p: nat)
      requires IsAnchor(q, idx, p)
      ensures Anchor(q, idx) == p
    {
      assert IsAnchor(q, idx, Anchor(q, idx));
    }

    /** device_request: the request joins the list, and its thread blocks unless the list was empty. */
    method Arrive(t: Tid, idx: int)
      requires Valid() && Enabled(Now(), EArrive(t, idx))
      modifies this
      ensures Now() == Next(old(Now()), EArrive(t, idx)) && Valid()
    {
      NextKeeps(Now(), EArrive(t, idx));
      hide Inv, Inserted;
      ghost var next := Next(Now(), EArrive(t, idx));
      var empty := list == [];
      var r := Request(t, idx, if empty then None else Some(t));
      InsertSort(r);
      pending := pending[t := r];
      stage := stage[t := if empty then Serves else Waits];
      since, clock, active, freer := next.since, next.clock, next.active, next.freer;
    }

    method Resume(t: Tid)
      requires Valid() && Enabled(Now(), EResume(t))
      modifies this`stage
      ensures Now() == Next(old(Now()), EResume(t)) && Valid()
    {
      NextKeeps(Now(), EResume(t));
      hide Inv;
      stage := stage[t := Serves];
    }

    /** request_nextreq, for the request at position p of the list. */
    method NextReq(p: nat) returns (next: Option<Request>)
      requires p < |list|
      modifies this`direct
      ensures direct == Turned(list, old(direct), p)
      ensures direct != old(direct) <==> p == if old(direct).UP? then |list| - 1 else 0
      ensures next == if NextPos(list, old(direct), p) == -1 then None else Some(list[NextPos(list, old(direct), p)])
    {
      if direct == UP && p + 1 == |list| {
        direct := DOWN;
      } else if direct == DOWN && p == 0 {
        direct := UP;
      }
      var n := if direct == UP then p + 1 else p - 1;
      next := if n == -1 || n == |list| then None else Some(list[n]);
    }

    /** request_nextreq and list_remove for the request at position p. */
    method TakeOut(p: nat)
      requires p < |list|
      modifies this
      ensures Now() == Finished(old(Now()), p)
    {
      hide NextPos, Turned;
      ghost var after := Finished(Now(), p);
      var t := list[p].owner;
      var next := NextReq(p);
      list := list[..p] + list[p + 1..];
      pending := pending - {t};
      stage := stage[t := Frees(next)];
      active, freer := after.active, after.freer;
    }

    /** What device_request does from the end of do_request to free(req). */
    method Finish(t: Tid)
      requires Valid() && Enabled(Now(), EFinish(t))
      modifies this
      ensures Now() == Next(old(Now()), EFinish(t)) && Valid()
    {
      NextKeeps(Now(), EFinish(t));
      hide Inv, PosOf, Finished;
      TakeOut(PosOf(list, t));
    }

    /** The end of device_request: the thread that waits is blocked, and is unblocked. */
    method AfterFree(t: Tid)
      requires Valid() && Enabled(Now(), EFreed(t))
      modifies this
      ensures Now() == Next(old(Now()), EFreed(t)) && Valid()
    {
      NextKeeps(Now(), EFreed(t));
      var next := stage[t].next;
      stage := stage[t := Away];
      if next.Some? {
        assert StageOf(Now(), next.value.owner).Waits? && next.value.task == Some(next.value.owner);
        stage := stage[next.value.task.value := Called];
        freer := None;
      }
    }
  }
}
