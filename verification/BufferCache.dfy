/** Disk blocks: the unit the device, the cache and the file system exchange. */
module Blocks {
  const BLOCK_SIZE: nat := 1024

  type Byte = b: int | 0 <= b < 256
  type Block = s: seq<Byte> | |s| == BLOCK_SIZE witness seq(BLOCK_SIZE, _ => 0)
  type uint32 = i: int | 0 <= i < 0x1_0000_0000

  datatype Key = Key(dev: uint32, block: uint32)
}

/**
 The states of the buffer cache and what they mean to its users.

 A buffer is named by its position in the area it is carved from, so its header and its data block
 have fixed addresses. `View` is the disk a user sees: the cached bytes of a block if a valid buffer
 holds it, the device's bytes otherwise. `Held` says who is in use: for each block with a non-zero
 reference count, its one buffer and that count.
 */
module CacheStates {
  import opened Blocks
  import opened Seqs

  const HASH_COUNT: nat := 31

  /** (dev ^ block) % HASH_COUNT on 32-bit words. */
  function Hash(k: Key): (h: nat)
    ensures h < HASH_COUNT
  {
    ((k.dev as bv32 ^ k.block as bv32) as int) % HASH_COUNT
  }

  datatype Buffer = Buffer(data: Block, key: Key, count: nat, dirty: bool, valid: bool)

  datatype Hold = Hold(buf: nat, count: nat)

  datatype State = State(
    pool: seq<Buffer>,         // the buffers carved so far
    index: map<Key, nat>,      // the buffer hashed for each block
    buckets: seq<seq<nat>>,    // hash_table
    free: seq<nat>,            // free_list, most recently released first
    disk: map<Key, Block>,     // the device
    released: seq<nat>,        // when each buffer was last released
    clock: nat)

  ghost predicate Indexed(s: State) {
    && (forall k :: k in s.index ==> s.index[k] < |s.pool| && s.pool[s.index[k]].key == k && k in s.disk)
    && (forall i :: 0 <= i < |s.pool| ==> s.pool[i].key in s.index && s.index[s.pool[i].key] == i)
  }

  ghost predicate Hashed(s: State) {
    && |s.buckets| == HASH_COUNT
    && (forall h :: 0 <= h < HASH_COUNT ==> NoDup(s.buckets[h]))
    && (forall h, i {:trigger i in s.buckets[h]} :: 0 <= h < HASH_COUNT && i in s.buckets[h] ==> i < |s.pool| && Hash(s.pool[i].key) == h)
    && (forall i :: 0 <= i < |s.pool| ==> i in s.buckets[Hash(s.pool[i].key)])
  }

  /** free_list holds the unused buffers, once each, all clean. */
  ghost predicate FreeListed(s: State) {
    && NoDup(s.free)
    && (forall i: nat :: i in s.free <==> i < |s.pool| && s.pool[i].count == 0)
    && (forall i :: 0 <= i < |s.pool| && s.pool[i].count == 0 ==> !s.pool[i].dirty)
  }

  /** The front of the list was released last. */
  ghost predicate Aged(free: seq<nat>, released: seq<nat>, clock: nat) {
    && (forall x :: 0 <= x < |free| ==> free[x] < |released| && released[free[x]] < clock)
    && (forall x, y :: 0 <= x < y < |free| ==> released[free[x]] > released[free[y]])
  }

  ghost predicate Coherent(s: State) {
    forall i :: 0 <= i < |s.pool| && s.pool[i].key in s.disk ==>
      && (s.pool[i].dirty ==> s.pool[i].valid)
      && (s.pool[i].valid && !s.pool[i].dirty ==> s.pool[i].data == s.disk[s.pool[i].key])
  }

  /** Every used buffer is loaded, save the one a reader is still loading. */
  ghost predicate Loaded(s: State, pending: int) {
    forall i :: 0 <= i < |s.pool| && s.pool[i].count > 0 && i != pending ==> s.pool[i].valid
  }

  ghost predicate Inv(s: State, pending: int) {
    && Indexed(s) && Hashed(s) && FreeListed(s) && Coherent(s) && Loaded(s, pending)
    && |s.released| == |s.pool| && Aged(s.free, s.released, s.clock)
    && |s.pool| == |s.free| + |Held(s)|
  }

  ghost predicate InUse(s: State, k: Key) {
    k in s.index && s.index[k] < |s.pool| && s.pool[s.index[k]].count > 0
  }

  ghost function Held(s: State): map<Key, Hold> {
    map k | k in s.index && InUse(s, k) :: Hold(s.index[k], s.pool[s.index[k]].count)
  }

  ghost function ViewAt(s: State, k: Key): Block
    requires k in s.disk
  {
    if k in s.index && s.index[k] < |s.pool| && s.pool[s.index[k]].valid then s.pool[s.index[k]].data else s.disk[k]
  }

  ghost function View(s: State): map<Key, Block> {
    map k | k in s.disk :: ViewAt(s, k)
  }

  /** The blocks whose buffer holds changes the device does not have yet. */
  ghost function Dirty(s: State): set<Key> {
    set k | k in s.index && s.index[k] < |s.pool| && s.pool[s.index[k]].dirty
  }

  /** Every other block is on the device as users see it. */
  lemma CleanIsStored(s: State, k: Key)
    requires Inv(s, -1) && k in s.disk && k !in Dirty(s)
    ensures s.disk[k] == View(s)[k]
  {
    hide Hash, Hashed, FreeListed, Loaded, Aged, Held;
  }

  lemma SameView(s: State, t: State)
    requires s.disk.Keys == t.disk.Keys
    requires forall k :: k in s.disk ==> ViewAt(t, k) == ViewAt(s, k)
    ensures View(t) == View(s)
  {
  }

  ghost function Acquired(held: map<Key, Hold>, k: Key, i: nat): map<Key, Hold> {
    held[k := Hold(i, if k in held then held[k].count + 1 else 1)]
  }

  ghost function Released(held: map<Key, Hold>, k: Key): map<Key, Hold>
    requires k in held
  {
    if held[k].count > 1 then held[k := held[k].(count := held[k].count - 1)] else held - {k}
  }

  /** Releasing what was just acquired restores every count. */
  lemma AcquireThenRelease(held: map<Key, Hold>, k: Key, i: nat)
    requires k in held ==> held[k].buf == i && held[k].count > 0
    ensures Released(Acquired(held, k, i), k) == held
  {
  }

  // ----- the steps of the cache, and what each keeps -----

  function Fresh(disk: map<Key, Block>): State {
    State([], map[], seq(HASH_COUNT, _ => []), [], disk, [], 0)
  }

  lemma FreshInv(disk: map<Key, Block>)
    ensures Inv(Fresh(disk), -1) && View(Fresh(disk)) == disk && Held(Fresh(disk)) == map[]
  {
    hide Hash;
  }

  /** Another reference to a hashed buffer, which leaves the free list. */
  function Rereferenced(s: State, i: nat): State
    requires i < |s.pool|
  {
    s.(pool := s.pool[i := s.pool[i].(count := s.pool[i].count + 1)], free := Without(s.free, i))
  }

  lemma AgedWithout(free: seq<nat>, released: seq<nat>, clock: nat, i: nat)
    requires NoDup(free) && Aged(free, released, clock)
    ensures Aged(Without(free, i), released, clock)
  {
    hide Without;
    WithoutCuts(free, i);
  }

  lemma RereferencedFree(s: State, i: nat)
    requires FreeListed(s) && i < |s.pool|
    ensures FreeListed(Rereferenced(s, i))
    ensures |Rereferenced(s, i).free| == if i in s.free then |s.free| - 1 else |s.free|
    ensures Aged(s.free, s.released, s.clock) ==> Aged(Rereferenced(s, i).free, s.released, s.clock)
  {
    hide Without, Aged;
    WithoutProperties(s.free, i);
    if Aged(s.free, s.released, s.clock) {
      AgedWithout(s.free, s.released, s.clock, i);
    }
  }

  lemma RereferencedHeld(s: State, i: nat)
    requires Indexed(s) && FreeListed(s) && i < |s.pool|
    ensures
      var k := s.pool[i].key;
      && Held(Rereferenced(s, i)) == Acquired(Held(s), k, i)
      && k in s.index && s.index[k] == i && (k in Held(s) <==> i !in s.free)
      && (k in Held(s) ==> Held(s)[k].buf == i)
  {
    hide Without;
    assert s.pool[i].key in s.index;
  }

  lemma RereferencedRest(s: State, i: nat, pending: int)
    requires Indexed(s) && Hashed(s) && Coherent(s) && Loaded(s, pending) && i < |s.pool|
    ensures
      var t := Rereferenced(s, i);
      Indexed(t) && Hashed(t) && Coherent(t) && View(t) == View(s) && (pending == -1 ==> Loaded(t, i))
  {
    hide Without, Hash;
    SameView(s, Rereferenced(s, i));
  }

  /** From s to t, buffer i was obtained for block k: one more reference, the same disk in view. */
  ghost predicate Obtained(s: State, t: State, k: Key, i: nat) {
    && Inv(t, i) && View(t) == View(s) && Dirty(t) == Dirty(s)
    && t.disk == s.disk && k in t.index && t.index[k] == i && i < |t.pool| && t.pool[i].key == k && t.pool[i].count > 0
    && Held(t) == Acquired(Held(s), k, i)
    && (k in Held(s) ==> Held(s)[k].buf == i)
  }

  lemma RereferencedObtains(s: State, i: nat)
    requires Inv(s, -1) && i < |s.pool|
    ensures Obtained(s, Rereferenced(s, i), s.pool[i].key, i)
  {
    hide Indexed, Hashed, Coherent, Loaded, FreeListed, Held, View, Dirty, Aged, Without, NoDup, Hash;
    RereferencedDirty(s, i);
    RereferencedFree(s, i);
    RereferencedHeld(s, i);
    RereferencedRest(s, i, -1);
  }

  lemma RereferencedDirty(s: State, i: nat)
    requires i < |s.pool|
    ensures Dirty(Rereferenced(s, i)) == Dirty(s)
  {
    hide Without;
  }

  function Last(s: seq<nat>): nat
    requires |s| > 0
  {
    s[|s| - 1]
  }

  /** get_new_buffer: the next buffer of the area. */
  function Carved(s: State): State {
    s.(pool := s.pool + [Buffer(seq(BLOCK_SIZE, _ => 0), Key(0, 0), 0, false, false)], released := s.released + [0])
  }

  /** get_free_buffer, once the area is used up: the least recently released buffer, unhashed. */
  function Recycled(s: State): State
    requires |s.free| > 0 && Last(s.free) < |s.pool| && |s.buckets| == HASH_COUNT
  {
    var i := Last(s.free);
    var k := s.pool[i].key;
    s.(pool := s.pool[i := s.pool[i].(valid := false)],
       index := map x | x in s.index && x != k :: s.index[x],
       buckets := s.buckets[Hash(k) := Without(s.buckets[Hash(k)], i)],
       free := s.free[..|s.free| - 1])
  }

  /** Buffer i, unhashed and unused, becomes the buffer of block k. */
  function Assigned(s: State, i: nat, k: Key): State
    requires i < |s.pool| && |s.buckets| == HASH_COUNT
  {
    s.(pool := s.pool[i := s.pool[i].(key := k, count := 1)],
       index := s.index[k := i],
       buckets := s.buckets[Hash(k) := [i] + s.buckets[Hash(k)]])
  }

  /** The invariant while buffer i is in hand: hashed nowhere, on no list, unused, clean and invalid. */
  ghost predicate Loose(s: State, i: nat) {
    && i < |s.pool| && s.pool[i].count == 0 && !s.pool[i].dirty && !s.pool[i].valid
    && |s.buckets| == HASH_COUNT
    && (forall k :: k in s.index ==> s.index[k] < |s.pool| && s.index[k] != i && s.pool[s.index[k]].key == k && k in s.disk)
    && (forall j :: 0 <= j < |s.pool| && j != i ==> s.pool[j].key in s.index && s.index[s.pool[j].key] == j)
  }

  ghost predicate LooseHashed(s: State, i: nat) {
    && |s.buckets| == HASH_COUNT
    && (forall h :: 0 <= h < HASH_COUNT ==> NoDup(s.buckets[h]))
    && (forall h, j {:trigger j in s.buckets[h]} :: 0 <= h < HASH_COUNT && j in s.buckets[h] ==>
          j < |s.pool| && j != i && Hash(s.pool[j].key) == h)
    && (forall j :: 0 <= j < |s.pool| && j != i ==> j in s.buckets[Hash(s.pool[j].key)])
  }

  ghost predicate LooseFree(s: State, i: nat) {
    && NoDup(s.free)
    && (forall j: nat :: j in s.free <==> j < |s.pool| && j != i && s.pool[j].count == 0)
    && (forall j :: 0 <= j < |s.pool| && s.pool[j].count == 0 ==> !s.pool[j].dirty)
  }

  ghost predicate LooseInv(s: State, i: nat) {
    && Loose(s, i) && LooseHashed(s, i) && LooseFree(s, i) && Coherent(s) && Loaded(s, -1)
    && |s.released| == |s.pool| && Aged(s.free, s.released, s.clock)
    && |s.pool| == |s.free| + |Held(s)| + 1
  }

  lemma AssignedHashed(s: State, i: nat, k: Key)
    requires Loose(s, i) && LooseHashed(s, i) && k in s.disk && k !in s.index
    ensures Indexed(Assigned(s, i, k)) && Hashed(Assigned(s, i, k))
  {
    hide Hash;
    assert i !in s.buckets[Hash(k)];
    AppendNoDup(s.buckets[Hash(k)], i);
    hide NoDup;
  }

  lemma AssignedFree(s: State, i: nat, k: Key)
    requires Loose(s, i) && LooseFree(s, i)
    ensures FreeListed(Assigned(s, i, k))
  {
    hide Hash;
  }

  lemma AssignedView(s: State, i: nat, k: Key)
    requires Loose(s, i) && Coherent(s) && Loaded(s, -1) && k in s.disk && k !in s.index
    ensures
      var t := Assigned(s, i, k);
      Coherent(t) && Loaded(t, i) && View(t) == View(s)
  {
    hide Hash;
    SameView(s, Assigned(s, i, k));
  }

  lemma AssignedHeld(s: State, i: nat, k: Key)
    requires Loose(s, i) && k !in s.index
    ensures k !in Held(s) && Held(Assigned(s, i, k)) == Acquired(Held(s), k, i)
  {
    hide Hash;
  }

  lemma AssignedDirty(s: State, i: nat, k: Key)
    requires Loose(s, i) && k !in s.index
    ensures Dirty(Assigned(s, i, k)) == Dirty(s)
  {
    hide Hash;
  }

  lemma AssignedObtains(s: State, i: nat, k: Key)
    requires LooseInv(s, i) && k in s.disk && k !in s.index
    ensures Obtained(s, Assigned(s, i, k), k, i)
  {
    hide Indexed, Hashed, Coherent, Loaded, FreeListed, Held, View, Dirty, Aged, LooseHashed, LooseFree, Hash;
    AssignedDirty(s, i, k);
    AssignedHashed(s, i, k);
    AssignedFree(s, i, k);
    AssignedView(s, i, k);
    AssignedHeld(s, i, k);
  }

  lemma CarvedIsLoose(s: State)
    requires Inv(s, -1)
    ensures LooseInv(Carved(s), |s.pool|) && View(Carved(s)) == View(s) && Held(Carved(s)) == Held(s) && Dirty(Carved(s)) == Dirty(s)
  {
    hide Indexed, Hashed, Coherent, Loaded, FreeListed, Held, View, Dirty, LooseHashed, LooseFree, Hash, Loose, Aged;
    CarvedHeld(s);
    CarvedRest(s);
    CarvedAged(s);
  }

  lemma CarvedAged(s: State)
    requires Aged(s.free, s.released, s.clock)
    ensures Aged(Carved(s).free, Carved(s).released, Carved(s).clock)
  {
  }

  lemma CarvedHeld(s: State)
    requires Indexed(s)
    ensures Held(Carved(s)) == Held(s) && Dirty(Carved(s)) == Dirty(s)
  {
  }

  lemma CarvedRest(s: State)
    requires Indexed(s) && Hashed(s) && FreeListed(s) && Coherent(s) && Loaded(s, -1)
    ensures
      var t := Carved(s);
      Loose(t, |s.pool|) && LooseHashed(t, |s.pool|) && LooseFree(t, |s.pool|) && Coherent(t) && Loaded(t, -1) && View(t) == View(s)
  {
    hide Hash, NoDup;
    SameView(s, Carved(s));
  }

  lemma RecycledHashed(s: State)
    requires Indexed(s) && Hashed(s) && FreeListed(s) && s.free != []
    ensures Last(s.free) in s.free && Last(s.free) < |s.pool|
    ensures Loose(Recycled(s), Last(s.free)) && LooseHashed(Recycled(s), Last(s.free))
  {
    hide Hash, Without;
    var i := Last(s.free);
    assert i in s.free;
    WithoutProperties(s.buckets[Hash(s.pool[i].key)], i);
    hide NoDup;
  }

  lemma RecycledFree(s: State)
    requires FreeListed(s) && |s.buckets| == HASH_COUNT && s.free != [] && Last(s.free) in s.free && Last(s.free) < |s.pool|
    ensures LooseFree(Recycled(s), Last(s.free))
    ensures Aged(s.free, s.released, s.clock) ==> Aged(Recycled(s).free, s.released, s.clock)
  {
    hide Hash, Without;
    var i := Last(s.free);
    var rest := Recycled(s).free;
    assert s.free == rest + [i];
    assert i !in rest;
    assert forall j :: j in s.free <==> j in rest || j == i;
  }

  /** Eviction loses no change: the recycled buffer was clean, so the device already has its bytes. */
  lemma RecycledView(s: State)
    requires Indexed(s) && FreeListed(s) && Coherent(s) && Loaded(s, -1)
    requires |s.buckets| == HASH_COUNT && s.free != [] && Last(s.free) in s.free && Last(s.free) < |s.pool|
    ensures
      var t := Recycled(s);
      Coherent(t) && Loaded(t, -1) && View(t) == View(s)
  {
    hide Hash, Without;
    SameView(s, Recycled(s));
  }

  lemma RecycledHeld(s: State)
    requires Indexed(s) && FreeListed(s)
    requires |s.buckets| == HASH_COUNT && s.free != [] && Last(s.free) in s.free && Last(s.free) < |s.pool|
    ensures Held(Recycled(s)) == Held(s) && Dirty(Recycled(s)) == Dirty(s)
  {
    hide Hash, Without;
    assert s.pool[Last(s.free)].count == 0;
  }

  lemma RecycledIsLoose(s: State)
    requires Inv(s, -1) && s.free != []
    ensures Last(s.free) in s.free && Last(s.free) < |s.pool| && |s.buckets| == HASH_COUNT
    ensures LooseInv(Recycled(s), Last(s.free)) && View(Recycled(s)) == View(s) && Held(Recycled(s)) == Held(s)
    ensures Dirty(Recycled(s)) == Dirty(s)
  {
    assert |s.buckets| == HASH_COUNT;
    hide Indexed, Hashed, Coherent, Loaded, FreeListed, Held, View, Dirty, Aged, LooseHashed, LooseFree, Hash, Loose;
    RecycledHashed(s);
    RecycledFree(s);
    RecycledView(s);
    RecycledHeld(s);
  }

  /** Eviction takes the buffer released longest ago. */
  lemma RecycledIsOldest(s: State, j: nat)
    requires Aged(s.free, s.released, s.clock) && j in s.free && s.free != []
    ensures Last(s.free) < |s.released| && j < |s.released| && s.released[Last(s.free)] <= s.released[j]
  {
  }

  /** The read of a block the buffer does not hold yet. */
  function Filled(s: State, i: nat): State
    requires i < |s.pool| && s.pool[i].key in s.disk
  {
    s.(pool := s.pool[i := s.pool[i].(data := s.disk[s.pool[i].key], dirty := false, valid := true)])
  }

  lemma FilledKeeps(s: State, i: nat)
    requires Inv(s, i) && i < |s.pool| && !s.pool[i].valid && s.pool[i].key in s.disk
    ensures Inv(Filled(s, i), -1) && View(Filled(s, i)) == View(s) && Held(Filled(s, i)) == Held(s) && Dirty(Filled(s, i)) == Dirty(s)
  {
    hide Indexed, Hashed, Coherent, Loaded, FreeListed, Held, View, Dirty, Aged, Hash;
    FilledRest(s, i);
    FilledHeld(s, i);
  }

  lemma FilledHeld(s: State, i: nat)
    requires i < |s.pool| && s.pool[i].key in s.disk
    ensures Held(Filled(s, i)) == Held(s)
    ensures Indexed(s) && Coherent(s) && !s.pool[i].valid ==> Dirty(Filled(s, i)) == Dirty(s)
  {
  }

  lemma FilledRest(s: State, i: nat)
    requires Indexed(s) && Hashed(s) && FreeListed(s) && Coherent(s) && Loaded(s, i)
    requires i < |s.pool| && !s.pool[i].valid && s.pool[i].key in s.disk
    ensures
      var t := Filled(s, i);
      Indexed(t) && Hashed(t) && FreeListed(t) && Coherent(t) && Loaded(t, -1) && View(t) == View(s)
  {
    hide Hash, NoDup;
    SameView(s, Filled(s, i));
  }

  /** bwrite of a dirty buffer: the device gets the bytes, the buffer is clean. */
  function Written(s: State, i: nat): State
    requires i < |s.pool|
  {
    s.(pool := s.pool[i := s.pool[i].(dirty := false, valid := true)], disk := s.disk[s.pool[i].key := s.pool[i].data])
  }

  lemma WrittenKeeps(s: State, i: nat, pending: int)
    requires Inv(s, pending) && i < |s.pool| && s.pool[i].dirty
    ensures Inv(Written(s, i), pending) && View(Written(s, i)) == View(s) && Held(Written(s, i)) == Held(s)
    ensures Written(s, i).disk.Keys == s.disk.Keys && Dirty(Written(s, i)) == Dirty(s) - {s.pool[i].key}
  {
    assert s.pool[i].key in s.disk;
    WrittenRest(s, i, pending);
    WrittenHeld(s, i);
    WrittenDirty(s, i);
    hide Indexed, Hashed, Coherent, Loaded, FreeListed, Held, View, Dirty, Aged, Hash;
  }

  lemma WrittenHeld(s: State, i: nat)
    requires i < |s.pool|
    ensures Held(Written(s, i)) == Held(s)
  {
  }

  lemma WrittenDirty(s: State, i: nat)
    requires Indexed(s) && i < |s.pool|
    ensures Dirty(Written(s, i)) == Dirty(s) - {s.pool[i].key}
  {
    assert s.index[s.pool[i].key] == i;
  }

  lemma WrittenRest(s: State, i: nat, pending: int)
    requires Indexed(s) && Hashed(s) && FreeListed(s) && Coherent(s) && Loaded(s, pending)
    requires i < |s.pool| && s.pool[i].dirty
    ensures
      var t := Written(s, i);
      Indexed(t) && Hashed(t) && FreeListed(t) && Coherent(t) && Loaded(t, pending) && View(t) == View(s)
  {
    hide Hash, NoDup;
    assert s.pool[i].key in s.disk;
    SameView(s, Written(s, i));
  }

  /** The rest of brelse: one reference less, and at zero the buffer joins the front of the free list. */
  function Unreferenced(s: State, i: nat): State
    requires i < |s.pool| && i < |s.released| && s.pool[i].count > 0
  {
    var pool := s.pool[i := s.pool[i].(count := s.pool[i].count - 1)];
    if pool[i].count > 0 then s.(pool := pool)
    else s.(pool := pool, free := [i] + s.free, released := s.released[i := s.clock], clock := s.clock + 1)
  }

  ghost predicate Dropped(s: State, t: State, k: Key) {
    && Inv(t, -1) && View(t) == View(s) && t.disk == s.disk && Dirty(t) == Dirty(s)
    && k in Held(s) && Held(t) == Released(Held(s), k)
  }

  lemma UnreferencedDrops(s: State, i: nat)
    requires Inv(s, -1) && i < |s.pool| && s.pool[i].count > 0 && !s.pool[i].dirty
    ensures Dropped(s, Unreferenced(s, i), s.pool[i].key)
  {
    hide Indexed, Hashed, Coherent, Loaded, FreeListed, Held, View, Dirty, Aged, Hash;
    UnreferencedDirty(s, i);
    UnreferencedRest(s, i);
    UnreferencedHeld(s, i);
    UnreferencedAged(s, i);
    ReleasedSize(Held(s), s.pool[i].key);
  }

  lemma ReleasedSize(held: map<Key, Hold>, k: Key)
    requires k in held
    ensures |Released(held, k)| == if held[k].count > 1 then |held| else |held| - 1
  {
    assert held == (held - {k})[k := held[k]];
  }

  lemma UnreferencedHeld(s: State, i: nat)
    requires Indexed(s) && i < |s.pool| && i < |s.released| && s.pool[i].count > 0
    ensures var k := s.pool[i].key; k in Held(s) && Held(s)[k].count == s.pool[i].count
    ensures Held(Unreferenced(s, i)) == Released(Held(s), s.pool[i].key)
  {
    var k := s.pool[i].key;
    assert s.index[k] == i;
    assert forall x :: x in s.index && x != k ==> s.index[x] != i;
  }

  lemma UnreferencedDirty(s: State, i: nat)
    requires i < |s.pool| && i < |s.released| && s.pool[i].count > 0
    ensures Dirty(Unreferenced(s, i)) == Dirty(s)
  {
  }

  lemma UnreferencedAged(s: State, i: nat)
    requires FreeListed(s) && Aged(s.free, s.released, s.clock) && i < |s.pool| == |s.released| && s.pool[i].count > 0
    ensures var t := Unreferenced(s, i); Aged(t.free, t.released, t.clock) && FreeListed(s)
  {
    assert i !in s.free;
  }

  lemma UnreferencedFree(s: State, i: nat)
    requires FreeListed(s) && i < |s.pool| == |s.released| && s.pool[i].count > 0 && !s.pool[i].dirty
    ensures FreeListed(Unreferenced(s, i))
  {
    AppendNoDup(s.free, i);
    hide NoDup;
  }

  lemma UnreferencedRest(s: State, i: nat)
    requires Indexed(s) && Hashed(s) && FreeListed(s) && Coherent(s) && Loaded(s, -1)
    requires i < |s.pool| == |s.released| && s.pool[i].count > 0 && !s.pool[i].dirty
    ensures
      var t := Unreferenced(s, i);
      Indexed(t) && Hashed(t) && FreeListed(t) && Coherent(t) && Loaded(t, -1) && View(t) == View(s)
  {
    hide Hash, NoDup;
    UnreferencedFree(s, i);
    hide FreeListed;
    SameView(s, Unreferenced(s, i));
  }

  /** A holder changes the bytes of its buffer in place and marks it dirty. */
  function Modified(s: State, i: nat, data: Block): State
    requires i < |s.pool|
  {
    s.(pool := s.pool[i := s.pool[i].(data := data, dirty := true)])
  }

  lemma ModifiedKeeps(s: State, i: nat, data: Block)
    requires Inv(s, -1) && i < |s.pool| && s.pool[i].count > 0
    ensures
      var t := Modified(s, i, data);
      && Inv(t, -1) && View(t) == View(s)[s.pool[i].key := data] && Held(t) == Held(s)
      && Dirty(t) == Dirty(s) + {s.pool[i].key}
  {
    hide Indexed, Hashed, Coherent, Loaded, FreeListed, View, Dirty, Aged, Held, Hash;
    ModifiedDirty(s, i, data);
    ModifiedRest(s, i, data);
    ModifiedView(s, i, data);
    ModifiedHeld(s, i, data);
  }

  lemma ModifiedHeld(s: State, i: nat, data: Block)
    requires i < |s.pool|
    ensures Held(Modified(s, i, data)) == Held(s)
  {
  }

  lemma ModifiedDirty(s: State, i: nat, data: Block)
    requires Indexed(s) && i < |s.pool|
    ensures Dirty(Modified(s, i, data)) == Dirty(s) + {s.pool[i].key}
  {
    assert s.index[s.pool[i].key] == i;
  }

  lemma ModifiedRest(s: State, i: nat, data: Block)
    requires Indexed(s) && Hashed(s) && FreeListed(s) && Coherent(s) && Loaded(s, -1) && i < |s.pool| && s.pool[i].count > 0
    ensures
      var t := Modified(s, i, data);
      Indexed(t) && Hashed(t) && FreeListed(t) && Coherent(t) && Loaded(t, -1)
  {
    hide Hash, NoDup;
  }

  lemma ModifiedView(s: State, i: nat, data: Block)
    requires Indexed(s) && Loaded(s, -1) && i < |s.pool| && s.pool[i].count > 0
    ensures View(Modified(s, i, data)) == View(s)[s.pool[i].key := data]
  {
    var t := Modified(s, i, data);
    var k := s.pool[i].key;
    assert s.index[k] == i && k in s.disk;
    forall x | x in s.disk ensures ViewAt(t, x) == if x == k then data else ViewAt(s, x) {
    }
  }
}

/** The write-back buffer cache (src/kernel/buffer.c). */
module BufferCache {
  import opened Blocks
  import opened Seqs
  import opened CacheStates

  const AREA_SIZE: nat := 0x400000  // KERNEL_BUFFER_SIZE
  const HEADER_SIZE: nat := 64      // sizeof(struct buffer_t)
  const CAPACITY: nat := 3855       // the buffers that fit in the area

  function HeaderAddress(base: nat, i: nat): nat {
    base + HEADER_SIZE * i
  }

  function SlotAddress(base: nat, i: nat): int {
    base + AREA_SIZE - BLOCK_SIZE - BLOCK_SIZE * i
  }

  /** Headers that grow upwards and data blocks that grow downwards never meet. */
  lemma AreaDisjoint(base: nat, i: nat, j: nat)
    requires i < CAPACITY && j < CAPACITY
    ensures base <= HeaderAddress(base, i) && HeaderAddress(base, i) + HEADER_SIZE <= SlotAddress(base, j)
    ensures SlotAddress(base, j) + BLOCK_SIZE <= base + AREA_SIZE
    ensures i < j ==> HeaderAddress(base, i) + HEADER_SIZE <= HeaderAddress(base, j)
    ensures i < j ==> SlotAddress(base, j) + BLOCK_SIZE <= SlotAddress(base, i)
  {
  }

  /** Only blocks somebody holds can have changes the device does not have. */
  lemma DirtyIsHeld(s: State)
    requires Inv(s, -1)
    ensures Dirty(s) <= Held(s).Keys
  {
    hide Hash, Hashed, Aged;
  }

  /** Once every reference is given back the device itself holds what users last wrote. */
  lemma QuiescentDiskIsView(s: State)
    requires Inv(s, -1) && Held(s) == map[]
    ensures View(s) == s.disk
  {
    hide Hash, Hashed, Aged;
    forall k | k in s.disk ensures ViewAt(s, k) == s.disk[k] {
      if k in s.index && s.index[k] < |s.pool| && s.pool[s.index[k]].valid {
        assert InUse(s, k) ==> k in Held(s);
      }
    }
  }

  class Cache {
    const base: nat
    var ptr: nat                // buffer_ptr: headers grow upwards
    var top: int                // buffer_data: data blocks grow downwards
    var pool: seq<Buffer>
    var buckets: seq<seq<nat>>  // hash_table
    var free: seq<nat>          // free_list
    var disk: map<Key, Block>
    ghost var index: map<Key, nat>
    ghost var released: seq<nat>
    ghost var clock: nat

    ghost function Now(): State
      reads this
    {
      State(pool, index, buckets, free, disk, released, clock)
    }

    ghost predicate Carving()
      reads this
    {
      |pool| <= CAPACITY && ptr == HeaderAddress(base, |pool|) && top == SlotAddress(base, |pool|)
    }

    ghost predicate Valid()
      reads this
    {
      Inv(Now(), -1) && Carving()
    }

    ghost function view(): map<Key, Block>
      reads this
    {
      View(Now())
    }

    ghost function held(): map<Key, Hold>
      reads this
    {
      Held(Now())
    }

    /** The blocks that are still to be written back. */
    ghost function dirty(): set<Key>
      reads this
    {
      Dirty(Now())
    }

    constructor (base: nat, disk: map<Key, Block>)
      ensures Valid() && view() == disk && held() == map[] && dirty() == {} && this.disk == disk
    {
      this.base, this.disk := base, disk;
      ptr, top := base, base + AREA_SIZE - BLOCK_SIZE;
      pool, buckets, free := [], seq(HASH_COUNT, _ => []), [];
      index, released, clock := map[], [], 0;
      new;
      hide Inv, View, Held;
      FreshInv(disk);
    }

    /** get_from_hash_table: a hit leaves the free list, since it is about to be used again. */
    method GetFromHashTable(k: Key) returns (hit: bool, i: nat)
      requires Inv(Now(), -1)
      modifies this`free
      ensures hit <==> k in index
      ensures hit ==> i == index[k] && i < |pool| && free == Without(old(free), i)
      ensures !hit ==> free == old(free)
    {
      hide Hash, FreeListed, Coherent, Aged, Held, View, Without;
      hit, i := false, 0;
      var list := buckets[Hash(k)];
      var n := 0;
      while n < |list|
        invariant 0 <= n <= |list|
        invariant forall m :: 0 <= m < |list| ==> list[m] in buckets[Hash(k)]
        invariant forall m :: 0 <= m < |list| ==> list[m] < |pool|
        invariant forall m :: 0 <= m < n ==> pool[list[m]].key != k
      {
        if pool[list[n]].key == k {
          hit, i := true, list[n];
          if i in free {
            free := Without(free, i);
          } else {
            WithoutAbsent(free, i);
          }
          return;
        }
        n := n + 1;
      }
    }

    /** get_new_buffer: carve a header and a data block out of the area while the two still fit. */
    method GetNewBuffer() returns (fits: bool, i: nat)
      requires Carving()
      modifies this`ptr, this`top, this`pool, this`released
      ensures fits <==> |old(pool)| < CAPACITY
      ensures !fits ==> unchanged(this)
      ensures fits ==> Carving() && i == |old(pool)| && Now() == Carved(old(Now()))
    {
      fits, i := ptr + HEADER_SIZE < top, |pool|;
      if fits {
        pool := pool + [Buffer(seq(BLOCK_SIZE, _ => 0), Key(0, 0), 0, false, false)];
        released := released + [0];
        ptr, top := ptr + HEADER_SIZE, top - BLOCK_SIZE;
      }
    }

    static lemma RecycledEvicts(s: State)
      requires Inv(s, -1) && s.free != [] && Last(s.free) < |s.pool| && |s.buckets| == HASH_COUNT
      ensures Evicted(s.index, Recycled(s).index, Last(s.free))
    {
      hide Hashed, FreeListed, Coherent, Loaded, Aged, Held, Hash, Without;
    }

    /** The block of buffer i, and no other, is no longer cached. */
    static ghost predicate Evicted(was: map<Key, nat>, now: map<Key, nat>, i: nat) {
      (forall x :: x in now <==> x in was && was[x] != i) && (forall x :: x in now ==> now[x] == was[x])
    }

    /**
     Which blocks are cached after block k was asked for: a cached block stays where it is, a new one
     pushes nothing out while the area lasts, and after that one block only.
     */
    static ghost predicate Cached(was: map<Key, nat>, carved: nat, now: map<Key, nat>, k: Key, i: nat) {
      if k in was then now == was && was[k] == i
      else if carved < CAPACITY then now == was[k := i]
      else exists mid :: Evicted(was, mid, i) && now == mid[k := i]
    }

    /**
     get_free_buffer: a new buffer while the area lasts, otherwise the free buffer released longest
     ago, unhashed and invalid. With neither, the source blocks on a list it never joins, so the
     model asks for one of the two.
     */
    method GetFreeBuffer() returns (i: nat)
      requires Valid() && (|pool| < CAPACITY || free != [])
      modifies this
      ensures LooseInv(Now(), i) && Carving()
      ensures view() == old(view()) && held() == old(held()) && disk == old(disk) && dirty() == old(dirty())
      ensures |old(pool)| < CAPACITY ==> i == |old(pool)| && index == old(index)
      ensures |old(pool)| == CAPACITY ==> |pool| == CAPACITY && Evicted(old(index), index, i)
      ensures |old(pool)| == CAPACITY ==>
        forall j :: j in old(free) ==> j < |old(released)| && old(released)[i] <= old(released)[j]
    {
      ghost var before := Now();
      hide Indexed, Hashed, Coherent, Loaded, FreeListed, Held, View, Dirty, Aged, LooseHashed, LooseFree, Hash, Loose, Without;
      var fits;
      fits, i := GetNewBuffer();
      if fits {
        CarvedIsLoose(before);
        return;
      }
      RecycledIsLoose(before);
      RecycledEvicts(before);
      forall j | j in free ensures j < |released| && released[Last(free)] <= released[j] {
        RecycledIsOldest(before, j);
      }
      i := Last(free);
      free := free[..|free| - 1];
      var k := pool[i].key;
      buckets := buckets[Hash(k) := Without(buckets[Hash(k)], i)];  // hash_remove
      index := map x | x in index && x != k :: index[x];
      pool := pool[i := pool[i].(valid := false)];
      assert Now() == Recycled(before);
    }

    /** The caller holds a reference to buffer i, the buffer of block k. */
    ghost predicate Holds(k: Key, i: nat)
      reads this
    {
      k in held() && held()[k].buf == i
    }

    /** What a holder may rely on, whatever other blocks were read, written or evicted meanwhile. */
    lemma HeldBuffer(k: Key, i: nat)
      requires Valid() && Holds(k, i)
      ensures i < |pool| && pool[i].key == k && pool[i].count > 0 && held()[k].count == pool[i].count
      ensures pool[i].valid && k in view() && pool[i].data == view()[k]
    {
      hide Hash, Hashed, Coherent, FreeListed, Aged;
    }

    /** getblk: the one buffer of block k, found in the hash table or taken from the free ones. */
    method Getblk(k: Key) returns (i: nat)
      requires Valid() && k in disk
      requires k in held() || |held()| < CAPACITY
      modifies this
      ensures Carving() && Obtained(old(Now()), Now(), k, i) && Cached(old(index), |old(pool)|, index, k, i)
    {
      ghost var before := Now();
      hide Indexed, Hashed, Coherent, Loaded, FreeListed, Held, View, Dirty, Aged, LooseHashed, LooseFree, Hash, Loose, Without, Obtained;
      var hit;
      hit, i := GetFromHashTable(k);
      if hit {
        IndexedAt(before, k);
        RereferencedObtains(before, i);
        pool := pool[i := pool[i].(count := pool[i].count + 1)];
        return;
      }
      NotHeldUnlessHashed(before, k);
      i := GetFreeBuffer();
      ghost var mid := Now();
      AssignedObtains(mid, i, k);
      LooseShape(mid, i);
      pool := pool[i := pool[i].(key := k, count := 1)];
      index := index[k := i];
      buckets := buckets[Hash(k) := [i] + buckets[Hash(k)]];  // hash_locate
      assert Now() == Assigned(mid, i, k);
      ObtainedFrom(before, mid, Now(), k, i);
    }

    static lemma IndexedAt(s: State, k: Key)
      requires Indexed(s) && k in s.index
      ensures s.index[k] < |s.pool| && s.pool[s.index[k]].key == k
    {
    }

    static lemma NotHeldUnlessHashed(s: State, k: Key)
      requires k !in s.index
      ensures k !in Held(s)
    {
    }

    static lemma LooseShape(s: State, i: nat)
      requires Loose(s, i)
      ensures i < |s.pool| && |s.buckets| == HASH_COUNT
    {
    }

    static lemma ObtainedFrom(s: State, mid: State, t: State, k: Key, i: nat)
      requires Obtained(mid, t, k, i) && View(s) == View(mid) && Held(s) == Held(mid) && s.disk == mid.disk && Dirty(s) == Dirty(mid)
      ensures Obtained(s, t, k, i)
    {
      hide Indexed, Hashed, Coherent, Loaded, FreeListed, Held, View, Dirty, Aged, Hash;
    }

    /** bread: a loaded buffer of block k, with one more reference. */
    method Bread(k: Key) returns (i: nat)
      requires Valid() && k in view()
      requires k in held() || |held()| < CAPACITY
      modifies this
      ensures Valid() && view() == old(view())
      ensures disk == old(disk) && dirty() == old(dirty()) && Cached(old(index), |old(pool)|, index, k, i)
      ensures held() == Acquired(old(held()), k, i) && Holds(k, i)
      ensures k in old(held()) ==> i == old(held()[k].buf)
      ensures i < |pool| && pool[i].key == k && pool[i].valid && pool[i].data == view()[k]
    {
      hide Indexed, Hashed, Coherent, Loaded, FreeListed, Held, Dirty, Aged, Hash, Cached;
      assert k in disk;
      hide View;
      i := Getblk(k);
      if !pool[i].valid {
        FilledKeeps(Now(), i);
        ghost var before := Now();
        pool := pool[i := pool[i].(data := disk[pool[i].key], dirty := false, valid := true)];
        assert Now() == Filled(before, i);
      } else {
        NothingPending(Now(), i);
      }
      HeldBuffer(k, i);
    }

    static lemma NothingPending(s: State, i: nat)
      requires Inv(s, i) && i < |s.pool| && s.pool[i].valid
      ensures Inv(s, -1)
    {
      hide Indexed, Hashed, Coherent, FreeListed, Held, Aged, Hash;
    }

    /** bwrite: a dirty buffer reaches the device; what users see does not change. */
    method Bwrite(i: nat, ghost k: Key)
      requires Valid() && Holds(k, i)
      modifies this
      ensures Valid() && view() == old(view()) && held() == old(held())
      ensures k in old(view()) && disk == old(disk)[k := old(view())[k]] && dirty() == old(dirty()) - {k}
      ensures i < |pool| && !pool[i].dirty
    {
      hide Inv, Held, View, Dirty, Hash;
      ghost var before := Now();
      HeldBuffer(k, i);
      if !pool[i].dirty {
        CleanOnDevice(before, k, i);
        return;
      }
      WrittenKeeps(before, i, -1);
      disk := disk[pool[i].key := pool[i].data];
      pool := pool[i := pool[i].(dirty := false, valid := true)];
      assert Now() == Written(before, i);
      HeldBuffer(k, i);
    }

    static lemma CleanOnDevice(s: State, k: Key, i: nat)
      requires Inv(s, -1) && i < |s.pool| && s.pool[i].key == k && s.pool[i].valid && !s.pool[i].dirty
      ensures k in s.disk && s.disk[k] == s.pool[i].data && k !in Dirty(s)
    {
      hide Hash, Hashed, FreeListed, Held, Aged;
    }

    static lemma InvShape(s: State)
      requires Inv(s, -1)
      ensures |s.released| == |s.pool|
    {
    }

    /** brelse: write back if dirty, whoever else holds the buffer, then give one reference up. */
    method Brelse(i: nat, ghost k: Key)
      requires Valid() && Holds(k, i)
      modifies this
      ensures Valid() && view() == old(view())
      ensures k in old(view()) && disk == old(disk)[k := old(view())[k]] && dirty() == old(dirty()) - {k}
      ensures i < |pool| && !pool[i].dirty
      ensures k in old(held()) && held() == Released(old(held()), k)
    {
      hide Inv, Held, View, Dirty, Hash, Released;
      Bwrite(i, k);
      HeldBuffer(k, i);
      ghost var before := Now();
      InvShape(before);
      UnreferencedDrops(before, i);
      pool := pool[i := pool[i].(count := pool[i].count - 1)];
      if pool[i].count > 0 {
        return;
      }
      free := [i] + free;
      released, clock := released[i := clock], clock + 1;
    }

    /** The holder of buffer i changes its bytes in place and sets `dirty`. */
    method Modify(i: nat, ghost k: Key, data: Block)
      requires Valid() && Holds(k, i)
      modifies this
      ensures Valid() && view() == old(view())[k := data] && held() == old(held())
      ensures disk == old(disk) && dirty() == old(dirty()) + {k}
      ensures i < |pool| && pool[i].data == data
    {
      hide Inv, Held, View, Dirty, Hash;
      ghost var before := Now();
      HeldBuffer(k, i);
      ModifiedKeeps(before, i, data);
      pool := pool[i := pool[i].(data := data, dirty := true)];
      assert Now() == Modified(before, i, data);
    }

    /** inode->buf->count += 1: another reference to a buffer already held. */
    method AddReference(i: nat, ghost k: Key)
      requires Valid() && Holds(k, i)
      modifies this
      ensures Valid() && view() == old(view()) && disk == old(disk) && dirty() == old(dirty())
      ensures held() == Acquired(old(held()), k, i) && Holds(k, i)
      ensures k in old(held()) && old(held()[k]) == Hold(i, old(held()[k]).count) && old(held()[k]).count > 0
    {
      hide Inv, Held, View, Dirty, Hash;
      HeldBuffer(k, i);
      ghost var before := Now();
      RereferencedObtains(before, i);
      UsedIsNotFree(before, i);
      pool := pool[i := pool[i].(count := pool[i].count + 1)];
      assert Now() == Rereferenced(before, i);
      NothingPending(Now(), i);
    }

    static lemma UsedIsNotFree(s: State, i: nat)
      requires Inv(s, -1) && i < |s.pool| && s.pool[i].count > 0
      ensures Without(s.free, i) == s.free
    {
      hide Indexed, Hashed, Coherent, Loaded, Held, Aged, Hash;
      WithoutAbsent(s.free, i);
    }
  }
}
