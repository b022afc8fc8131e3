/**
 Block-mapped files over the buffer cache (src/fs/bmap.c, src/fs/inode.c).

 The in-core descriptors of all inodes are the table `desc`; `ibuf` gives the buffer each one keeps
 in use. Methods return `ok == false` where the source trips an assertion and spins.
 */
module FileSystems {
  import opened Blocks
  import opened CacheStates
  import opened BufferCache
  import opened FileTrees

  /** The position of the table entry bmap looks at for file block n when `level` levels remain. */
  function PathPos(n: nat, level: int): Pos
    requires n < TOTAL
  {
    if n < DIRECT then Slot(n)
    else if n < DIRECT + INDEXES then (if level > 0 then Slot(DIRECT) else Leaf1(n - DIRECT))
    else if level > 1 then Slot(DIRECT + 1)
    else if level == 1 then Mid((n - DIRECT - INDEXES) / INDEXES)
    else LeafPos(n)
  }

  ghost predicate OnPath(p: Pos, n: nat)
    requires n < TOTAL
  {
    p == PathPos(n, 0) || p == PathPos(n, 1) || p == PathPos(n, 2)
  }

  /** Looking up block n of file ino may have entered zones on its path, and nothing else. */
  ghost predicate Grown(v: Volume, w: Volume, ino: nat, n: nat)
    requires n < TOTAL
  {
    && w.dev == v.dev && w.view.Keys == v.view.Keys && w.desc.Keys == v.desc.Keys
    && (forall i :: i in v.desc ==> w.desc[i].size == v.desc[i].size)
    && (forall i :: i in v.desc && i != ino ==> w.desc[i] == v.desc[i])
    && (forall i, p :: ValidPos(p) && (At(v, i, p) != 0 || i != ino || !OnPath(p, n)) ==> At(w, i, p) == At(v, i, p))
    && (forall i :: SameBytes(v, w, i))
  }

  lemma GrownPlant(v: Volume, u: Volume, owner: map<Zone, Place>, ino: nat, n: nat, p: Pos, z: Zone)
    requires n < TOTAL && Grown(v, u, ino, n) && CanPlant(u, owner, Place(ino, p), z)
    requires Content(u, z) == ZeroBlock() && OnPath(p, n)
    ensures Grown(v, Planted(u, Place(ino, p), z), ino, n)
  {
    var w := Planted(u, Place(ino, p), z);
    forall i, q | ValidPos(q) ensures At(w, i, q) == if Place(i, q) == Place(ino, p) then z else At(u, i, q) {
      PlantedAt(u, owner, Place(ino, p), z, i, q);
    }
    forall i ensures SameBytes(v, w, i) {
      PlantedBytes(u, owner, Place(ino, p), z, i);
      assert SameBytes(v, u, i);
    }
    if !p.Slot? {
      assert At(u, ino, Parent(p)) in owner;
    }
  }

  ghost predicate LaidOut(v: Volume, owner: map<Zone, Place>, zones: nat) {
    && Forest(v, owner) && Sized(v)
    && (forall z: Zone :: z < zones ==> Key(v.dev, z) in v.view)
    && (forall z :: z in owner ==> z < zones)
  }

  /** Every zone outside the allocated set is zero-filled. balloc does not see to it. */
  ghost predicate Clean(v: Volume, alloc: set<Zone>, zones: nat) {
    forall z: Zone :: z < zones && z !in alloc ==> Content(v, z) == ZeroBlock()
  }

  ghost predicate Entering(v: Volume, w: Volume, was: map<Zone, Place>, now: map<Zone, Place>, ino: nat, p: Pos, e: Zone) {
    && CanPlant(v, was, Place(ino, p), e) && Content(v, e) == ZeroBlock()
    && w == Planted(v, Place(ino, p), e) && now == was[e := Place(ino, p)]
  }

  lemma EnteringKeeps(v: Volume, w: Volume, was: map<Zone, Place>, now: map<Zone, Place>, ino: nat, p: Pos, e: Zone,
                      zones: nat, alloc: set<Zone>)
    requires Entering(v, w, was, now, ino, p, e) && LaidOut(v, was, zones) && e < zones
    requires Clean(v, alloc, zones) && was.Keys <= alloc
    ensures LaidOut(w, now, zones) && Clean(w, alloc + {e}, zones) && now.Keys <= alloc + {e}
  {
    PlantedForest(v, was, Place(ino, p), e);
    if !p.Slot? {
      assert At(v, ino, Parent(p)) in was;
    }
  }

  lemma FreeCanBeEntered(v: Volume, owner: map<Zone, Place>, alloc: set<Zone>, zones: nat, ino: nat, p: Pos, e: Zone)
    requires LaidOut(v, owner, zones) && Clean(v, alloc, zones) && 0 in alloc && owner.Keys <= alloc
    requires e < zones && e !in alloc && ino in v.desc && ValidPos(p) && At(v, ino, p) == 0
    requires !p.Slot? ==> At(v, ino, Parent(p)) != 0
    ensures CanPlant(v, owner, Place(ino, p), e) && Content(v, e) == ZeroBlock() && |v.desc[ino].zone| == DIRECT + 2
  {
  }

  /** How bmap's block and divider stand to the path they still have to split. */
  predicate Splitting(n: nat, level: int, blk: nat, divider: nat) {
    && (level > 0 ==> DIRECT <= n)
    && (level == 2 ==> divider == INDEXES && blk + DIRECT + INDEXES == n)
    && (level == 1 ==> divider == 1
                       && blk == if n < DIRECT + INDEXES then n - DIRECT else (n - DIRECT - INDEXES) % INDEXES)
  }

  lemma StartOfPath(n: nat, level: int, index: nat, blk: nat, divider: nat)
    requires n < TOTAL && divider == if level == 2 then INDEXES else 1
    requires index == if n < DIRECT then n else if n < DIRECT + INDEXES then DIRECT else DIRECT + 1
    requires level == if n < DIRECT then 0 else if n < DIRECT + INDEXES then 1 else 2
    requires blk == if n < DIRECT then n else if n < DIRECT + INDEXES then n - DIRECT else n - DIRECT - INDEXES
    ensures Splitting(n, level, blk, divider) && OnPath(PathPos(n, level), n)
    ensures PathPos(n, level) == Slot(index) && ValidPos(Slot(index))
  {
  }

  lemma PathStep(n: nat, level: int, blk: nat, divider: nat)
    requires n < TOTAL && 0 < level <= 2 && Splitting(n, level, blk, divider)
    ensures divider > 0 && Splitting(n, level - 1, blk % divider, divider / INDEXES)
    ensures
      var q := PathPos(n, level - 1);
      ValidPos(q) && OnPath(q, n) && !q.Slot? && Parent(q) == PathPos(n, level) && SubIndex(q) == blk / divider
  {
  }

  /** An entry that is empty or at level 0 settles what the file block maps to. */
  lemma EndOfPath(v: Volume, ino: nat, n: nat, level: int)
    requires n < TOTAL && 0 <= level && ValidPos(PathPos(n, level)) && (level == 0 || At(v, ino, PathPos(n, level)) == 0)
    ensures At(v, ino, LeafPos(n)) == At(v, ino, PathPos(n, level))
  {
  }

  lemma GrownRefl(v: Volume, ino: nat, n: nat)
    requires n < TOTAL
    ensures Grown(v, v, ino, n)
  {
  }

  lemma EnteringGrows(v: Volume, u: Volume, w: Volume, was: map<Zone, Place>, now: map<Zone, Place>,
                      ino: nat, n: nat, p: Pos, e: Zone)
    requires n < TOTAL && Grown(v, u, ino, n) && OnPath(p, n) && Entering(u, w, was, now, ino, p, e)
    ensures Grown(v, w, ino, n) && At(w, ino, p) == e && w.desc.Keys == u.desc.Keys
  {
    GrownPlant(v, u, was, ino, n, p, e);
    PlantedAt(u, was, Place(ino, p), e, ino, p);
  }

  lemma PokingKeeps(v: Volume, owner: map<Zone, Place>, x: Zone, b: Block, zones: nat, alloc: set<Zone>)
    requires LaidOut(v, owner, zones) && x in owner && IsLeaf(owner[x].pos) && owner.Keys <= alloc
    ensures LaidOut(WithContent(v, x, b), owner, zones)
    ensures Clean(v, alloc, zones) ==> Clean(WithContent(v, x, b), alloc, zones)
  {
    PokedForest(v, owner, x, b);
  }

  lemma ResizingKeeps(v: Volume, owner: map<Zone, Place>, ino: nat, size: nat, zones: nat, alloc: set<Zone>)
    requires LaidOut(v, owner, zones) && ino in v.desc && size <= MAX_BYTES
    ensures LaidOut(Resized(v, ino, size), owner, zones)
    ensures Clean(v, alloc, zones) ==> Clean(Resized(v, ino, size), alloc, zones)
  {
    ResizedForest(v, owner, ino, size);
  }

  /** What writing data at off does: the bytes, the blocks that become mapped, and the sizes. */
  ghost predicate Wrote(v: Volume, w: Volume, ino: nat, off: nat, data: seq<Byte>) {
    && Patched(v, w, ino, off, data) && Touched(v, w, ino, off, |data|)
    && ino in v.desc && w.dev == v.dev && w.desc.Keys == v.desc.Keys
    && (forall i :: i in v.desc && i != ino ==> w.desc[i].size == v.desc[i].size)
    && w.desc[ino].size == if data != [] && off + |data| > v.desc[ino].size then off + |data| else v.desc[ino].size
  }

  lemma WroteThenWrote(u: Volume, v: Volume, w: Volume, ino: nat, off: nat, d: seq<Byte>, e: seq<Byte>)
    requires Wrote(u, v, ino, off, d) && Wrote(v, w, ino, off + |d|, e)
    ensures Wrote(u, w, ino, off, d + e)
  {
    PatchedThenPatched(u, v, w, ino, off, d, e);
    TouchedThenTouched(u, v, w, ino, off, |d|, |e|);
    hide Patched, Touched;
  }

  lemma GrownMaps(v: Volume, w: Volume, ino: nat, n: nat, i: nat, b: nat)
    requires n < TOTAL && Grown(v, w, ino, n) && Mapped(w, ino, n) && b < TOTAL
    ensures Mapped(w, i, b) <==> Mapped(v, i, b) || (i == ino && b == n)
  {
    if i == ino && b != n && OnPath(LeafPos(b), n) {
      LeafPosInjective(b, n);
    }
  }

  /** bmap with create, the copy into the block, and the new size together write the chunk. */
  lemma TurnWrites(v: Volume, u: Volume, owner: map<Zone, Place>, ino: nat, off: nat, chunk: seq<Byte>, b: Block, size: nat)
    requires off + |chunk| <= MAX_BYTES && chunk != [] && off % BLOCK_SIZE + |chunk| <= BLOCK_SIZE && ino in v.desc
    requires Grown(v, u, ino, off / BLOCK_SIZE) && Forest(u, owner) && Mapped(u, ino, off / BLOCK_SIZE)
    requires
      var was := Content(u, At(u, ino, LeafPos(off / BLOCK_SIZE)));
      b == was[..off % BLOCK_SIZE] + chunk + was[off % BLOCK_SIZE + |chunk|..]
    requires size == if off + |chunk| > v.desc[ino].size then off + |chunk| else v.desc[ino].size
    ensures Wrote(v, Resized(WithContent(u, At(u, ino, LeafPos(off / BLOCK_SIZE)), b), ino, size), ino, off, chunk)
  {
    var x := At(u, ino, LeafPos(off / BLOCK_SIZE));
    var t := WithContent(u, x, b);
    var w := Resized(t, ino, size);
    PokedPatches(u, owner, ino, off, chunk, b);
    forall i, n | 0 <= n < MAX_BYTES ensures ByteAt(w, i, n) == ByteAt(t, i, n) {
      ResizedAt(t, ino, size, i, LeafPos(n / BLOCK_SIZE));
    }
    forall i, n | 0 <= n < MAX_BYTES ensures ByteAt(u, i, n) == ByteAt(v, i, n) {
      assert SameBytes(v, u, i);
    }
    forall i, n | 0 <= n < TOTAL ensures Mapped(w, i, n) <==> Mapped(v, i, n) || (i == ino && n == off / BLOCK_SIZE) {
      ResizedAt(t, ino, size, i, LeafPos(n));
      PokedAt(u, owner, x, b, i, LeafPos(n));
      GrownMaps(v, u, ino, off / BLOCK_SIZE, i, n);
    }
    assert (off + |chunk| - 1) / BLOCK_SIZE == off / BLOCK_SIZE;
  }

  /** owner without the places of file ino below its first n slots. */
  ghost function WithoutSlots(owner: map<Zone, Place>, ino: nat, n: nat): map<Zone, Place> {
    map x | x in owner && !(owner[x].ino == ino && Root(owner[x].pos) < n) :: owner[x]
  }

  lemma PrunedSlots(owner: map<Zone, Place>, ino: nat, n: nat)
    ensures Pruned(WithoutSlots(owner, ino, n), ino, n) == WithoutSlots(owner, ino, n + 1)
    ensures forall x :: InTree(WithoutSlots(owner, ino, n), x, ino, Slot(n)) <==>
      x in owner && owner[x].ino == ino && Root(owner[x].pos) == n
  {
    forall x | x in owner ensures Under(owner[x].pos, Slot(n)) <==> Root(owner[x].pos) == n {
      UnderSlot(owner[x].pos, n);
    }
  }

  /** The first n slots of file ino are empty, and with them the descriptor; nothing else differs. */
  ghost predicate SlotsCleared(v: Volume, w: Volume, ino: nat, n: nat) {
    && w.dev == v.dev && w.view == v.view && w.desc.Keys == v.desc.Keys && ino in v.desc
    && (forall i :: i in v.desc && i != ino ==> w.desc[i] == v.desc[i])
    && w.desc[ino].size == v.desc[ino].size && |w.desc[ino].zone| == |v.desc[ino].zone| == DIRECT + 2
    && (forall i :: 0 <= i < DIRECT + 2 ==> w.desc[ino].zone[i] == if i < n then 0 else v.desc[ino].zone[i])
  }

  lemma SameDescSameBytes(v: Volume, w: Volume, i: nat)
    requires w.dev == v.dev && w.view == v.view && (i in w.desc <==> i in v.desc) && (i in v.desc ==> w.desc[i] == v.desc[i])
    ensures SameBytes(v, w, i)
  {
    forall n | 0 <= n < MAX_BYTES ensures ByteAt(w, i, n) == ByteAt(v, i, n) {
    }
  }

  /**
   bfree leaves the bytes of a freed zone behind, so free zones stay zero-filled exactly when every
   block of the truncated tree, index blocks included, was itself all zero.
   */
  lemma TruncatedCleanIff(v: Volume, w: Volume, owner: map<Zone, Place>, alloc: set<Zone>, left: set<Zone>, zones: nat, ino: nat)
    requires LaidOut(v, owner, zones) && owner.Keys <= alloc && Clean(v, alloc, zones)
    requires w.dev == v.dev && w.view == v.view
    requires forall x: Zone :: x in left <==> x in alloc && !Reaches(v, ino, x)
    ensures Clean(w, left, zones) <==> forall x: Zone :: Reaches(v, ino, x) ==> Content(v, x) == ZeroBlock()
  {
    forall x: Zone ensures Reaches(v, ino, x) <==> x in owner && owner[x].ino == ino {
      OwnedIsReached(v, owner, ino, x);
    }
    assert forall x: Zone :: Content(w, x) == Content(v, x);
    if Clean(w, left, zones) {
      forall x: Zone | Reaches(v, ino, x) ensures Content(v, x) == ZeroBlock() {
        assert Content(w, x) == ZeroBlock();
      }
    }
  }

  /** The smallest volume on which truncation leaves a free zone that is not zero-filled. */
  lemma TruncationCanSoil(b: Block)
    requires b != ZeroBlock()
    ensures
      var v := Volume(0, map[Key(0, 5) := b], map[1 := Desc(1, [5, 0, 0, 0, 0, 0, 0, 0, 0])]);
      Clean(v, {0, 1, 2, 3, 4, 5}, 6) && !Clean(v, {0, 1, 2, 3, 4}, 6) && Reaches(v, 1, 5)
  {
    var v := Volume(0, map[Key(0, 5) := b], map[1 := Desc(1, [5, 0, 0, 0, 0, 0, 0, 0, 0])]);
    assert ValidPos(Slot(0)) && At(v, 1, Slot(0)) == 5;
    var five: Zone := 5;
    assert Content(v, five) == b;
  }

  class FileSystem {
    const cache: Cache
    const dev: uint32
    const zones: nat             // sb->desc->zones
    var alloc: set<Zone>         // the bits set in the zone bitmap
    var desc: map<nat, Desc>     // inode->desc
    var ibuf: map<nat, nat>      // inode->buf
    ghost var ikey: map<nat, Key>
    ghost var owner: map<Zone, Place>

    /** A mounted file system, as read_super and iget leave it. */
    constructor (cache: Cache, dev: uint32, zones: nat, alloc: set<Zone>, desc: map<nat, Desc>, ibuf: map<nat, nat>,
                 ghost ikey: map<nat, Key>, ghost owner: map<Zone, Place>)
      ensures this.cache == cache && this.dev == dev && this.zones == zones && this.alloc == alloc
      ensures this.desc == desc && this.ibuf == ibuf && this.ikey == ikey && this.owner == owner
    {
      this.cache, this.dev, this.zones, this.alloc := cache, dev, zones, alloc;
      this.desc, this.ibuf, this.ikey, this.owner := desc, ibuf, ikey, owner;
    }

    ghost function Vol(): Volume
      reads this, cache
    {
      Volume(dev, cache.view(), desc)
    }

    /** The inode table, with `held` the buffers in use: every inode keeps its own buffer in use. */
    ghost predicate Table(held: map<Key, Hold>)
      reads this
    {
      && desc.Keys == ibuf.Keys == ikey.Keys
      && (forall ino :: ino in desc ==> ikey[ino] in held && held[ikey[ino]].buf == ibuf[ino])
    }

    ghost predicate Layout()
      reads this, cache
    {
      LaidOut(Vol(), owner, zones)
    }

    /** Zones in use are marked in the bitmap, and so is zone 0, which means "none". */
    ghost predicate Marked()
      reads this
    {
      0 in alloc && owner.Keys <= alloc
    }

    ghost predicate Valid()
      reads this, cache
    {
      cache.Valid() && Table(cache.held()) && Layout() && Marked()
    }

    ghost predicate CleanFree()
      reads this, cache
    {
      Clean(Vol(), alloc, zones)
    }

    ghost predicate Full()
      reads this
    {
      forall x: Zone :: x < zones ==> x in alloc
    }

    /** balloc: the first clear bit of the zone bitmap. */
    method Balloc() returns (ok: bool, z: Zone)
      modifies this`alloc
      ensures ok <==> !old(Full())
      ensures ok ==> z < zones && z !in old(alloc) && alloc == old(alloc) + {z}
      ensures ok ==> forall x: Zone :: x < z ==> x in old(alloc)
      ensures !ok ==> alloc == old(alloc)
    {
      var n: nat := 0;
      while n < zones && n < 0x1_0000
        invariant forall x: Zone :: x < n ==> x in alloc
      {
        if n !in alloc {
          ok, z, alloc := true, n, alloc + {n};
          return;
        }
        n := n + 1;
      }
      ok, z := false, 0;
    }

    /** bfree: the bit of the zone must be set, and is cleared. */
    method Bfree(z: Zone)
      requires z in alloc
      modifies this`alloc
      ensures alloc == old(alloc) - {z}
    {
      alloc := alloc - {z};
    }

    /** All that must hold while a call is under way: no allocation is lost, and the cache is sound. */
    ghost predicate Sound()
      reads this, cache
    {
      Layout() && Marked() && cache.Valid()
    }

    /** `array[index]`, an inode slot or an entry of the block in buffer buf, stands at p. */
    ghost predicate ArrayAt(ino: nat, inode: bool, buf: nat, index: nat, k: Key, p: Pos)
      reads this, cache
    {
      && ino in desc && ValidPos(p)
      && (if inode then p == Slot(index)
          else !p.Slot? && index == SubIndex(p) && At(Vol(), ino, Parent(p)) != 0 && k == Key(dev, At(Vol(), ino, Parent(p))))
      && cache.Holds(k, buf)
    }

    /** Reading array[index] yields the zone at p. */
    ghost predicate Reads(ino: nat, inode: bool, buf: nat, index: nat, k: Key, p: Pos)
      reads this, cache
    {
      && ino in desc && ValidPos(p) && buf < |cache.pool| && k in cache.view() && cache.pool[buf].data == cache.view()[k]
      && (if inode then p == Slot(index) && index < |desc[ino].zone| && desc[ino].zone[index] == At(Vol(), ino, p)
          else !p.Slot? && index < INDEXES && Entry(cache.pool[buf].data, index) == At(Vol(), ino, p)
               && cache.pool[buf].data == Content(Vol(), At(Vol(), ino, Parent(p))))
    }

    lemma SlotReads(ino: nat, inode: bool, buf: nat, index: nat, k: Key, p: Pos)
      requires ArrayAt(ino, inode, buf, index, k, p) && Sound()
      ensures Reads(ino, inode, buf, index, k, p)
    {
      hide Inv, View, Held, Dirty;
      cache.HeldBuffer(k, buf);
    }

    /** A zone reached from an inode is a block of the volume. */
    lemma ReachedZone(ino: nat, p: Pos)
      requires ValidPos(p) && At(Vol(), ino, p) != 0 && Layout()
      ensures Key(dev, At(Vol(), ino, p)) in cache.view() && At(Vol(), ino, p) in owner
      ensures owner[At(Vol(), ino, p)] == Place(ino, p)
    {
    }

    /** array[index] = balloc(dev); buf->dirty = true. */
    method EnterZone(ino: nat, inode: bool, buf: nat, index: nat, ghost k: Key, ghost p: Pos) returns (ok: bool, e: Zone)
      requires ArrayAt(ino, inode, buf, index, k, p) && At(Vol(), ino, p) == 0 && CleanFree() && Sound()
      modifies cache, this`alloc, this`desc, this`owner
      ensures ok ==> e != 0 && Entering(old(Vol()), Vol(), old(owner), owner, ino, p, e) && alloc == old(alloc) + {e}
      ensures ok ==> CleanFree() && cache.held() == old(cache.held()) && Sound()
      ensures !ok ==> Full()
      ensures ok ==> cache.dirty() == old(cache.dirty()) + {k}
    {
      hide Inv, View, Held, Dirty, Forest, LaidOut, Clean;
      ghost var v := Vol();
      ghost var was := owner;
      ghost var marked := alloc;
      ok, e := Balloc();
      if !ok {
        return;
      }
      SlotReads(ino, inode, buf, index, k, p);
      FreeCanBeEntered(v, was, marked, zones, ino, p, e);
      if inode {
        desc := desc[ino := Desc(desc[ino].size, desc[ino].zone[index := e])];
        cache.Modify(buf, k, cache.pool[buf].data);
        assert cache.view() == v.view;
      } else {
        cache.Modify(buf, k, WithEntry(cache.pool[buf].data, index, e));
      }
      owner := owner[e := Place(ino, p)];
      EnteringKeeps(v, Vol(), was, owner, ino, p, e, zones, marked);
    }

    lemma SoundAgain()
      requires Sound() && Table(cache.held())
      ensures Valid()
    {
      hide Inv, View, Held, Dirty, Forest, LaidOut;
    }

    /** One turn of bmap's loop up to brelse(buf): what array[index] holds, entered first if need be. */
    method VisitEntry(ino: nat, inode: bool, buf: nat, index: nat, create: bool, ghost k: Key, ghost p: Pos,
                      ghost n: nat, ghost held: map<Key, Hold>, ghost v: Volume) returns (ok: bool, e: Zone)
      requires n < TOTAL && OnPath(p, n) && Grown(v, Vol(), ino, n) && (create ==> CleanFree())
      requires cache.held() == Acquired(held, k, buf) && (k in held ==> held[k].buf == buf && held[k].count > 0)
      requires ArrayAt(ino, inode, buf, index, k, p) && Table(held) && Sound()
      modifies cache, this`alloc, this`desc, this`owner
      ensures ok ==> ValidPos(p) && e == At(Vol(), ino, p) && Grown(v, Vol(), ino, n) && (create ==> e != 0 && CleanFree())
      ensures ok ==> old(alloc) <= alloc && cache.held() == held && Table(held) && Sound()
      ensures !create ==> ok && Vol() == old(Vol()) && alloc == old(alloc) && owner == old(owner)
      ensures !ok ==> Full()
      ensures ok ==> cache.dirty() <= old(cache.dirty()) - {k}
    {
      hide Inv, View, Held, Dirty, Forest, LaidOut, Clean, Planted, Grown, CanPlant, Acquired, Released, OnPath;
      ghost var u, was := Vol(), owner;
      SlotReads(ino, inode, buf, index, k, p);
      ok, e := true, if inode then desc[ino].zone[index] else Entry(cache.pool[buf].data, index);
      if e == 0 && create {
        ok, e := EnterZone(ino, inode, buf, index, k, p);
        if !ok {
          return;
        }
        EnteringGrows(v, u, Vol(), was, owner, ino, n, p, e);
      }
      AcquireThenRelease(held, k, buf);
      cache.Brelse(buf, k);
    }

    /** bread of index zone e, whose entries are the array of the next turn. */
    method ReadIndex(ino: nat, e: Zone, ghost p: Pos, ghost q: Pos, ghost held: map<Key, Hold>) returns (buf: nat)
      requires ValidPos(p) && e == At(Vol(), ino, p) != 0 && ValidPos(q) && !q.Slot? && Parent(q) == p && ino in desc
      requires cache.held() == held && |held| < CAPACITY && Table(held) && Sound()
      modifies cache
      ensures ArrayAt(ino, false, buf, SubIndex(q), Key(dev, e), q) && Vol() == old(Vol())
      ensures cache.held() == Acquired(held, Key(dev, e), buf)
      ensures Key(dev, e) in held ==> held[Key(dev, e)].buf == buf && held[Key(dev, e)].count > 0
      ensures Sound()
      ensures cache.dirty() == old(cache.dirty())
    {
      hide Inv, View, Held, Dirty, Forest, Acquired, At;
      ReachedZone(ino, p);
      if Key(dev, e) in held {
        cache.HeldBuffer(Key(dev, e), held[Key(dev, e)].buf);
      }
      buf := cache.Bread(Key(dev, e));
    }

    /**
     bmap: the zone of file block `block`, walking down from the inode's slots and, with `create`,
     entering a zone wherever one is missing.
     */
    method Bmap(ino: nat, block: nat, create: bool) returns (ok: bool, z: Zone)
      requires ino in desc && block < TOTAL && |cache.held()| < CAPACITY && (create ==> CleanFree()) && Valid()
      modifies cache, this`alloc, this`desc, this`owner
      ensures ok ==> z == At(Vol(), ino, LeafPos(block)) && Grown(old(Vol()), Vol(), ino, block)
      ensures ok ==> old(alloc) <= alloc && (create ==> z != 0 && CleanFree())
      ensures !create ==> ok && Vol() == old(Vol()) && alloc == old(alloc) && owner == old(owner)
      ensures ok ==> cache.held() == old(cache.held()) && Valid()
      ensures !ok ==> Full()
      ensures ok ==> cache.dirty() <= old(cache.dirty())
    {
      hide Inv, View, Held, Dirty, Forest, LaidOut, Clean, Planted, Grown, CanPlant, Acquired, Released;
      hide PathPos, LeafPos, At, Splitting, OnPath;
      var index: nat, level: int, divider: nat, blk: nat := block, 0, 1, block;
      if block >= DIRECT {
        blk := blk - DIRECT;
        if blk < INDEXES {
          index, level, divider := DIRECT, 1, 1;
        } else {
          blk := blk - INDEXES;
          index, level, divider := DIRECT + 1, 2, INDEXES;
        }
      }
      var inode, buf := true, ibuf[ino];  // the array is the inode's, or that of buffer buf
      ghost var k := ikey[ino];
      ghost var held := cache.held();
      cache.HeldBuffer(k, buf);
      cache.AddReference(buf, k);
      GrownRefl(Vol(), ino, block);
      StartOfPath(block, level, index, blk, divider);
      ok, z := true, 0;
      while level >= 0
        invariant 0 <= level <= 2
        invariant OnPath(PathPos(block, level), block) && ArrayAt(ino, inode, buf, index, k, PathPos(block, level))
        invariant Splitting(block, level, blk, divider)
        invariant Sound() && Table(held)
        invariant cache.held() == Acquired(held, k, buf) && (k in held ==> held[k].buf == buf && held[k].count > 0)
        invariant Grown(old(Vol()), Vol(), ino, block) && old(alloc) <= alloc && (create ==> CleanFree())
        invariant !create ==> Vol() == old(Vol()) && alloc == old(alloc) && owner == old(owner)
        invariant cache.dirty() <= old(cache.dirty())
        decreases level
      {
        ghost var p := PathPos(block, level);
        var e;
        ok, e := VisitEntry(ino, inode, buf, index, create, k, p, block, held, old(Vol()));
        if !ok {
          return;
        }
        if level == 0 || e == 0 {
          SoundAgain();
          z := e;
          EndOfPath(Vol(), ino, block, level);
          return;
        }
        PathStep(block, level, blk, divider);
        buf := ReadIndex(ino, e, p, PathPos(block, level - 1), held);
        k := Key(dev, e);
        inode, index, blk, divider := false, blk / divider, blk % divider, divider / INDEXES;
        level := level - 1;
      }
    }

    /** The whole state, for calls that give back what they took. */
    ghost predicate Is(v: Volume, marks: set<Zone>, places: map<Zone, Place>, held: map<Key, Hold>)
      reads this, cache
    {
      Vol() == v && alloc == marks && owner == places && cache.held() == held && Valid()
    }

    /** The bytes of an inode, as inode_read and inode_write see them. */
    ghost function Bytes(ino: nat): seq<Byte>
      reads this, cache
      requires ino in desc && desc[ino].size <= MAX_BYTES
    {
      Contents(Vol(), ino)
    }

    /** Some block that holds bytes begin .. end of the file was never written. */
    ghost predicate Hole(ino: nat, begin: nat, end: nat)
      reads this, cache
    {
      begin < end && exists n :: 0 <= n < TOTAL && begin / BLOCK_SIZE <= n && n * BLOCK_SIZE < end && !Mapped(Vol(), ino, n)
    }

    /** bread, use of the bytes, brelse. */
    method LoadZone(nr: Zone) returns (b: Block)
      requires nr in owner && |cache.held()| < CAPACITY && Valid()
      modifies cache
      ensures b == Content(Vol(), nr) && Vol() == old(Vol()) && cache.held() == old(cache.held()) && Valid()
      ensures cache.dirty() <= old(cache.dirty())
    {
      hide Inv, View, Held, Dirty, Forest, Acquired, Released;
      ghost var held := cache.held();
      var k := Key(dev, nr);
      if k in held {
        cache.HeldBuffer(k, held[k].buf);
      }
      var bf := cache.Bread(k);
      b := cache.pool[bf].data;
      AcquireThenRelease(held, k, bf);
      cache.Brelse(bf, k);
    }

    /** One turn of inode_read's loop: the bytes of one block, or a failed assert(nr) on a hole. */
    method ReadBlock(ino: nat, offset: nat, chars: nat) returns (ok: bool, chunk: seq<Byte>)
      requires ino in desc && |cache.held()| < CAPACITY && chars > 0
      requires offset + chars <= desc[ino].size <= MAX_BYTES && offset % BLOCK_SIZE + chars <= BLOCK_SIZE && Valid()
      modifies cache, this`alloc, this`desc, this`owner
      ensures Is(old(Vol()), old(alloc), old(owner), old(cache.held()))
      ensures ok <==> Mapped(Vol(), ino, offset / BLOCK_SIZE)
      ensures ok ==> chunk == old(Bytes(ino))[offset..offset + chars]
      ensures cache.dirty() <= old(cache.dirty())
    {
      hide Inv, View, Held, Dirty, LaidOut, Table, Marked, LeafPos, Contents, At, Grown;
      ghost var v := Vol();
      var nr;
      ok, nr := Bmap(ino, offset / BLOCK_SIZE, false);
      ok, chunk := nr != 0, [];
      if nr == 0 {
        return;
      }
      ReachedZone(ino, LeafPos(offset / BLOCK_SIZE));
      var b := LoadZone(nr);
      var start := offset % BLOCK_SIZE;
      chunk := b[start..start + chars];
      BlockSlice(v, ino, offset, chars);
    }

    /** inode_read: EOF at or past the end, otherwise the bytes up to len or the end of the file. */
    method InodeRead(ino: nat, len: nat, offset: nat) returns (ok: bool, eof: bool, data: seq<Byte>)
      requires ino in desc && |cache.held()| < CAPACITY && Valid()
      modifies cache, this`alloc, this`desc, this`owner
      ensures Is(old(Vol()), old(alloc), old(owner), old(cache.held()))
      ensures desc[ino].size <= MAX_BYTES && (eof <==> offset >= desc[ino].size)
      ensures eof ==> ok && data == []
      ensures !eof ==> (ok <==> !Hole(ino, offset, if offset + len < desc[ino].size then offset + len else desc[ino].size))
      ensures !eof && ok ==>
        data == Bytes(ino)[offset..if offset + len < desc[ino].size then offset + len else desc[ino].size]
      ensures cache.dirty() <= old(cache.dirty())
    {
      hide Inv, View, Held, Dirty, LaidOut, Table, Marked, LeafPos, Contents;
      SizedFile(ino);
      ok, eof, data := true, offset >= desc[ino].size, [];
      if eof {
        return;
      }
      var begin, at := offset, offset;
      var left: nat := if len < desc[ino].size - offset then len else desc[ino].size - offset;
      ghost var end := offset + left;
      ghost var c := Bytes(ino);
      assert end <= |c|;
      while left > 0
        invariant Is(old(Vol()), old(alloc), old(owner), old(cache.held()))
        invariant begin <= at && at + left == end && (at % BLOCK_SIZE == 0 || at == begin || left == 0)
        invariant desc == old(desc) && ok && data == c[begin..at]
        invariant cache.dirty() <= old(cache.dirty())
        invariant forall n :: 0 <= n < TOTAL && begin < at && begin / BLOCK_SIZE <= n && n * BLOCK_SIZE < at ==> Mapped(Vol(), ino, n)
      {
        var start := at % BLOCK_SIZE;
        var chars := if BLOCK_SIZE - start < left then BLOCK_SIZE - start else left;
        var chunk;
        ok, chunk := ReadBlock(ino, at, chars);
        if !ok {
          assert Hole(ino, offset, end);
          return;
        }
        assert c[begin..at] + c[at..at + chars] == c[begin..at + chars];
        data := data + chunk;
        at, left := at + chars, left - chars;
      }
    }

    lemma SizedFile(ino: nat)
      requires ino in desc && Layout()
      ensures desc[ino].size <= MAX_BYTES
    {
      hide Inv, View, Held, Dirty, Forest;
    }

    /** bread, memcpy into the block with dirty set, brelse. */
    method StoreZone(nr: Zone, start: nat, chunk: seq<Byte>) returns (ghost b: Block)
      requires start + |chunk| <= BLOCK_SIZE && nr in owner && IsLeaf(owner[nr].pos)
      requires |cache.held()| < CAPACITY && CleanFree() && Valid()
      modifies cache
      ensures b == old(Content(Vol(), nr))[..start] + chunk + old(Content(Vol(), nr))[start + |chunk|..]
      ensures Vol() == WithContent(old(Vol()), nr, b) && cache.held() == old(cache.held()) && CleanFree() && Valid()
      ensures cache.dirty() <= old(cache.dirty())
    {
      hide Inv, View, Held, Dirty, Forest, Acquired, Released, Clean;
      ghost var held, v := cache.held(), Vol();
      var k := Key(dev, nr);
      if k in held {
        cache.HeldBuffer(k, held[k].buf);
      }
      var bf := cache.Bread(k);
      var data := cache.pool[bf].data;
      b := data[..start] + chunk + data[start + |chunk|..];
      PokingKeeps(v, owner, nr, b, zones, alloc);
      hide LaidOut;
      cache.Modify(bf, k, data[..start] + chunk + data[start + |chunk|..]);
      AcquireThenRelease(held, k, bf);
      cache.Brelse(bf, k);
    }

    /** if (offset > inode->desc->size) { inode->desc->size = offset; inode->buf->dirty = true; } */
    method GrowTo(ino: nat, end: nat)
      requires ino in desc && end <= MAX_BYTES && CleanFree() && Valid()
      modifies cache, this`desc
      ensures desc.Keys == old(desc.Keys)
      ensures Vol() == Resized(old(Vol()), ino, if end > old(desc)[ino].size then end else old(desc)[ino].size)
      ensures cache.held() == old(cache.held()) && CleanFree() && Valid()
      ensures cache.dirty() == old(cache.dirty()) + if end > old(desc)[ino].size then {ikey[ino]} else {}
    {
      hide Inv, View, Held, Dirty, Forest, Clean, LaidOut;
      ghost var v := Vol();
      SizedFile(ino);
      ResizingKeeps(v, owner, ino, if end > desc[ino].size then end else desc[ino].size, zones, alloc);
      if end > desc[ino].size {
        desc := desc[ino := Desc(end, desc[ino].zone)];
        MarkDirty(ino);
      } else {
        assert v.desc == v.desc[ino := Desc(desc[ino].size, desc[ino].zone)];
      }
    }

    /** One turn of inode_write's loop. */
    method WriteBlock(ino: nat, offset: nat, chunk: seq<Byte>) returns (ok: bool)
      requires ino in desc && offset + |chunk| <= MAX_BYTES && chunk != [] && offset % BLOCK_SIZE + |chunk| <= BLOCK_SIZE
      requires |cache.held()| < CAPACITY && CleanFree() && Valid()
      modifies cache, this`alloc, this`desc, this`owner
      ensures ok ==> Wrote(old(Vol()), Vol(), ino, offset, chunk)
      ensures ok ==> cache.held() == old(cache.held()) && CleanFree() && Valid()
      ensures !ok ==> Full()
      ensures ok ==> cache.dirty() <= old(cache.dirty()) + {ikey[ino]}
    {
      hide Inv, View, Held, Dirty, LaidOut, Clean, Table, Marked, Grown, At, LeafPos, Wrote, WithContent, Resized;
      ghost var v := Vol();
      var nr;
      ok, nr := Bmap(ino, offset / BLOCK_SIZE, true);
      if !ok {
        return;
      }
      ghost var u := Vol();
      ReachedZone(ino, LeafPos(offset / BLOCK_SIZE));
      GrownSizes(v, u, ino, offset / BLOCK_SIZE);
      LayoutForest();
      ghost var b := StoreZone(nr, offset % BLOCK_SIZE, chunk);
      StoredDesc(u, nr, b);
      GrowTo(ino, offset + |chunk|);
      TurnWrites(v, u, owner, ino, offset, chunk, b, if offset + |chunk| > v.desc[ino].size then offset + |chunk| else v.desc[ino].size);
    }

    lemma LayoutForest()
      requires Layout()
      ensures Forest(Vol(), owner)
    {
      hide Inv, View, Held, Dirty, Forest;
    }

    static lemma StoredDesc(u: Volume, z: Zone, b: Block)
      ensures WithContent(u, z, b).desc == u.desc
    {
    }

    static lemma GrownSizes(v: Volume, u: Volume, ino: nat, n: nat)
      requires n < TOTAL && Grown(v, u, ino, n)
      ensures u.desc.Keys == v.desc.Keys && forall i :: i in v.desc ==> u.desc[i].size == v.desc[i].size
    {
    }

    /**
     inode_write: the bytes from offset on become data, the file grows if it must, and nothing else
     changes. Only a full volume makes it fail.
     */
    method InodeWrite(ino: nat, data: seq<Byte>, offset: nat) returns (ok: bool, written: nat)
      requires ino in desc && offset + |data| <= MAX_BYTES
      requires |cache.held()| < CAPACITY && CleanFree() && Valid()
      modifies cache, this`alloc, this`desc, this`owner
      ensures ok ==> written == |data| && Wrote(old(Vol()), Vol(), ino, offset, data)
      ensures ok ==> cache.held() == old(cache.held()) && CleanFree() && Valid()
      ensures !ok ==> Full()
      ensures ok ==> cache.dirty() <= old(cache.dirty()) - {ikey[ino]}
    {
      hide Inv, View, Held, Dirty, LaidOut, Clean, Table, Marked, At, LeafPos, Wrote;
      var at, left: nat, buf := offset, |data|, data;
      ok, written := true, 0;
      WroteNothing(Vol(), ino, offset);
      HasBuffer(ino);
      ghost var v, held, home := Vol(), cache.held(), ikey[ino];
      ghost var done: seq<Byte> := [];
      while left > 0
        invariant |done| + left == |data| && at == offset + |done| && |buf| == left && done + buf == data
        invariant at % BLOCK_SIZE == 0 || at == offset || left == 0
        invariant ok && Written(v, held, ino, offset, done)
        invariant cache.dirty() <= old(cache.dirty()) + {home}
      {
        var start := at % BLOCK_SIZE;
        var chars := if BLOCK_SIZE - start < left then BLOCK_SIZE - start else left;
        ok := WriteNext(ino, at, buf[..chars], v, held, offset, done);
        if !ok {
          return;
        }
        done := done + buf[..chars];
        at, left, buf := at + chars, left - chars, buf[chars..];
      }
      assert done == data;
      WriteBack(ino);
      written := at - offset;
    }

    lemma HasBuffer(ino: nat)
      requires ino in desc && Valid()
      ensures ino in ikey
    {
      hide Inv, View, Held, LaidOut;
    }

    ghost predicate Written(v: Volume, held: map<Key, Hold>, ino: nat, off: nat, done: seq<Byte>)
      reads this, cache
    {
      ino in desc && Wrote(v, Vol(), ino, off, done) && cache.held() == held && CleanFree() && Valid()
    }

    method WriteNext(ino: nat, at: nat, chunk: seq<Byte>, ghost v: Volume, ghost held: map<Key, Hold>, ghost off: nat,
                     ghost done: seq<Byte>) returns (ok: bool)
      requires at == off + |done| && at + |chunk| <= MAX_BYTES && chunk != [] && at % BLOCK_SIZE + |chunk| <= BLOCK_SIZE
      requires |held| < CAPACITY && Written(v, held, ino, off, done)
      modifies cache, this`alloc, this`desc, this`owner
      ensures ok ==> Written(v, held, ino, off, done + chunk)
      ensures !ok ==> Full()
      ensures ok ==> cache.dirty() <= old(cache.dirty()) + {ikey[ino]}
    {
      hide Inv, View, Held, Dirty, LaidOut, Clean, Table, Marked, At, LeafPos, Wrote, Valid;
      ghost var u := Vol();
      ok := WriteBlock(ino, at, chunk);
      if ok {
        WroteThenWrote(v, u, Vol(), ino, off, done, chunk);
        WroteKeys(u, Vol(), ino, at, chunk);
      }
    }

    /** bwrite(inode->buf). */
    method WriteBack(ino: nat)
      requires ino in desc && CleanFree() && Valid()
      modifies cache
      ensures Vol() == old(Vol()) && cache.held() == old(cache.held()) && CleanFree() && Valid()
      ensures cache.dirty() == old(cache.dirty()) - {ikey[ino]}
    {
      hide Inv, View, Held, Dirty, LaidOut, Clean;
      cache.Bwrite(ibuf[ino], ikey[ino]);
    }

    static lemma WroteNothing(v: Volume, ino: nat, off: nat)
      requires ino in v.desc
      ensures Wrote(v, v, ino, off, [])
    {
    }

    static lemma WroteKeys(v: Volume, w: Volume, ino: nat, off: nat, data: seq<Byte>)
      requires Wrote(v, w, ino, off, data)
      ensures w.desc.Keys == v.desc.Keys && ino in v.desc
    {
    }

    /** The zones at and below p are all marked in use. */
    ghost predicate TreeMarked(ino: nat, p: Pos)
      reads this
    {
      forall x :: InTree(owner, x, ino, p) ==> x in alloc
    }

    ghost predicate Freed(before: set<Zone>, ino: nat, p: Pos)
      reads this
    {
      forall x: Zone :: x in alloc <==> x in before && !InTree(owner, x, ino, p)
    }

    /** While the entries of the index zone at p are walked: the first i branches are freed. */
    ghost predicate FreedBranches(before: set<Zone>, ino: nat, p: Pos, i: nat)
      reads this
    {
      forall x: Zone :: x in alloc <==>
        x in before && !(InTree(owner, x, ino, p) && owner[x].pos != p && Branch(owner[x].pos, p) < i)
    }

    lemma BranchFreed(before: set<Zone>, mid: set<Zone>, ino: nat, p: Pos, i: nat)
      requires Layout() && ValidPos(p) && !IsLeaf(p) && i < INDEXES
      requires forall x: Zone :: x in mid <==>
        x in before && !(InTree(owner, x, ino, p) && owner[x].pos != p && Branch(owner[x].pos, p) < i)
      requires Freed(mid, ino, ChildPos(p, i))
      ensures FreedBranches(before, ino, p, i + 1)
    {
      hide Inv, View, Held, Dirty;
      forall x | x in owner && owner[x].ino == ino
        ensures InTree(owner, x, ino, ChildPos(p, i)) <==>
                InTree(owner, x, ino, p) && owner[x].pos != p && Branch(owner[x].pos, p) == i
      {
        BranchIsChild(owner[x].pos, p, i);
      }
    }

    lemma BranchMarked(before: set<Zone>, ino: nat, p: Pos, i: nat)
      requires Layout() && ValidPos(p) && !IsLeaf(p) && i < INDEXES && FreedBranches(before, ino, p, i)
      requires forall x :: InTree(owner, x, ino, p) ==> x in before
      ensures TreeMarked(ino, ChildPos(p, i))
    {
      hide Inv, View, Held, Dirty;
      forall x | InTree(owner, x, ino, ChildPos(p, i)) ensures x in alloc {
        BranchIsChild(owner[x].pos, p, i);
      }
    }

    lemma AllBranchesFreed(before: set<Zone>, ino: nat, p: Pos)
      requires Layout() && ValidPos(p) && !IsLeaf(p) && FreedBranches(before, ino, p, INDEXES)
      ensures forall x: Zone :: x in alloc <==> x in before && !(InTree(owner, x, ino, p) && owner[x].pos != p)
    {
      hide Inv, View, Held, Dirty;
      forall x | InTree(owner, x, ino, p) && owner[x].pos != p ensures Branch(owner[x].pos, p) < INDEXES {
        BranchIsChild(owner[x].pos, p, 0);
      }
    }

    /** The zone at p is the only one that stands there. */
    lemma OneAtPlace(ino: nat, p: Pos, x: Zone)
      requires Layout() && ValidPos(p) && At(Vol(), ino, p) != 0
      ensures x in owner && owner[x] == Place(ino, p) <==> x == At(Vol(), ino, p)
    {
      hide Inv, View, Held, Dirty;
    }

    lemma NoTree(ino: nat, p: Pos, x: Zone)
      requires Layout() && ValidPos(p) && At(Vol(), ino, p) == 0
      ensures !InTree(owner, x, ino, p)
    {
      hide Inv, View, Held, Dirty;
      if InTree(owner, x, ino, p) {
        NothingUnderEmpty(Vol(), ino, owner[x].pos, p);
      }
    }

    /**
     inode_bfree: free the zone at p and everything below it. Every bfree finds its bit set, so no
     zone is freed twice.
     */
    method InodeBfree(z: Zone, level: nat, ghost ino: nat, ghost p: Pos)
      requires ValidPos(p) && level == LevelOf(p) && z == At(Vol(), ino, p) && TreeMarked(ino, p)
      requires |cache.held()| + level <= CAPACITY && Layout() && cache.Valid()
      modifies cache, this`alloc
      ensures Freed(old(alloc), ino, p)
      ensures Vol() == old(Vol()) && cache.held() == old(cache.held()) && Layout() && cache.Valid()
      ensures cache.dirty() <= old(cache.dirty())
      decreases level
    {
      hide Inv, View, Held, Dirty, LaidOut, Forest, At, Acquired, Released, InTree, Under;
      if z == 0 {
        forall x ensures !InTree(owner, x, ino, p) { NoTree(ino, p, x); }
        return;
      }
      ReachedZone(ino, p);
      if level == 0 {
        LeafTree(ino, p);
        Bfree(z);
        return;
      }
      ghost var v, held, before := Vol(), cache.held(), alloc;
      var k := Key(dev, z);
      if k in held {
        cache.HeldBuffer(k, held[k].buf);
      }
      var buf := cache.Bread(k);
      var entries := cache.pool[buf].data;
      assert entries == Content(v, z);
      AcquiredSize(held, k, buf);
      var i := 0;
      while i < INDEXES
        invariant 0 <= i <= INDEXES && FreedBranches(before, ino, p, i)
        invariant Vol() == v && cache.held() == Acquired(held, k, buf) && Layout() && cache.Valid()
        invariant cache.dirty() <= old(cache.dirty())
      {
        ghost var mid := alloc;
        BranchMarked(before, ino, p, i);
        EntryAt(v, ino, p, i);
        InodeBfree(Entry(entries, i), level - 1, ino, ChildPos(p, i));
        BranchFreed(before, mid, ino, p, i);
        i := i + 1;
      }
      AllBranchesFreed(before, ino, p);
      AcquireThenRelease(held, k, buf);
      cache.Brelse(buf, k);
      WholeTree(ino, p);
      Bfree(z);
    }

    static lemma AcquiredSize(held: map<Key, Hold>, k: Key, i: nat)
      ensures |Acquired(held, k, i)| <= |held| + 1
    {
    }

    static lemma EntryAt(v: Volume, ino: nat, p: Pos, i: nat)
      requires ValidPos(p) && !IsLeaf(p) && i < INDEXES && At(v, ino, p) != 0
      ensures Entry(Content(v, At(v, ino, p)), i) == At(v, ino, ChildPos(p, i)) && LevelOf(ChildPos(p, i)) == LevelOf(p) - 1
    {
    }

    lemma LeafTree(ino: nat, p: Pos)
      requires ValidPos(p) && IsLeaf(p) && At(Vol(), ino, p) != 0 && Layout()
      ensures forall x: Zone :: InTree(owner, x, ino, p) <==> x == At(Vol(), ino, p)
    {
      hide Inv, View, Held, Dirty;
      forall x: Zone | x in owner ensures InTree(owner, x, ino, p) <==> x == At(Vol(), ino, p) {
        LeafHasNoneBelow(owner[x].pos, p);
        OneAtPlace(ino, p, x);
      }
    }

    lemma WholeTree(ino: nat, p: Pos)
      requires ValidPos(p) && At(Vol(), ino, p) != 0 && Layout()
      ensures forall x: Zone :: InTree(owner, x, ino, p) && owner[x].pos == p <==> x == At(Vol(), ino, p)
    {
      hide Inv, View, Held, Dirty;
      forall x: Zone ensures InTree(owner, x, ino, p) && owner[x].pos == p <==> x == At(Vol(), ino, p) {
        OneAtPlace(ino, p, x);
      }
    }

    /** inode_bfree of one slot, which is then set to 0. */
    method ClearSlot(ino: nat, i: nat)
      requires ino in desc && i < DIRECT + 2 && |cache.held()| + 2 <= CAPACITY && Valid()
      modifies cache, this`alloc, this`desc, this`owner
      ensures Vol() == WithSlot(old(Vol()), ino, i, 0) && owner == Pruned(old(owner), ino, i)
      ensures forall x: Zone :: x in alloc <==> x in old(alloc) && !InTree(old(owner), x, ino, Slot(i))
      ensures cache.held() == old(cache.held()) && Valid()
      ensures cache.dirty() <= old(cache.dirty())
    {
      hide Inv, View, Held, Dirty, Forest, InTree, Under;
      LayoutForest();
      ghost var v := Vol();
      SlotMarked(ino, i);
      ClearingKeeps(v, owner, ino, i, zones);
      hide LaidOut;
      InodeBfree(desc[ino].zone[i], if i < DIRECT then 0 else if i == DIRECT then 1 else 2, ino, Slot(i));
      desc := desc[ino := Desc(desc[ino].size, desc[ino].zone[i := 0])];
      owner := Pruned(owner, ino, i);
    }

    lemma SlotMarked(ino: nat, i: nat)
      requires ino in desc && i < DIRECT + 2 && Valid()
      ensures TreeMarked(ino, Slot(i)) && |desc[ino].zone| == DIRECT + 2
      ensures !InTree(owner, 0, ino, Slot(i))
    {
      hide Inv, View, Held, Dirty;
    }

    static lemma ClearingKeeps(v: Volume, owner: map<Zone, Place>, ino: nat, i: nat, zones: nat)
      requires LaidOut(v, owner, zones) && ino in v.desc && i < DIRECT + 2
      ensures LaidOut(WithSlot(v, ino, i, 0), Pruned(owner, ino, i), zones)
    {
      ClearedForest(v, owner, ino, i);
    }

    /** The state after the first n slots of file ino have been cleared. */
    ghost predicate Truncating(v: Volume, places: map<Zone, Place>, marks: set<Zone>, held: map<Key, Hold>, ino: nat, n: nat)
      reads this, cache
    {
      && SlotsCleared(v, Vol(), ino, n) && owner == WithoutSlots(places, ino, n) && cache.held() == held
      && (forall x: Zone :: x in alloc <==> x in marks && !(x in places && places[x].ino == ino && Root(places[x].pos) < n))
      && Valid()
    }

    method ClearNext(ino: nat, n: nat, ghost v: Volume, ghost places: map<Zone, Place>, ghost marks: set<Zone>, ghost held: map<Key, Hold>)
      requires n < DIRECT + 2 && |held| + 2 <= CAPACITY && Truncating(v, places, marks, held, ino, n)
      modifies cache, this`alloc, this`desc, this`owner
      ensures Truncating(v, places, marks, held, ino, n + 1)
      ensures cache.dirty() <= old(cache.dirty())
    {
      hide Inv, View, Held, Dirty, Forest, InTree, Under, Pruned, WithoutSlots, Valid;
      ghost var was := owner;
      ClearSlot(ino, n);
      PrunedSlots(places, ino, n);
    }

    /** The slots of the inode one after the other. */
    method ClearSlots(ino: nat, ghost v: Volume, ghost places: map<Zone, Place>, ghost marks: set<Zone>, ghost held: map<Key, Hold>)
      requires |held| + 2 <= CAPACITY && Truncating(v, places, marks, held, ino, 0)
      modifies cache, this`alloc, this`desc, this`owner
      ensures Truncating(v, places, marks, held, ino, DIRECT + 2) && cache.dirty() <= old(cache.dirty())
    {
      hide Truncating, Dirty;
      var i := 0;
      while i < DIRECT
        invariant 0 <= i <= DIRECT && Truncating(v, places, marks, held, ino, i) && cache.dirty() <= old(cache.dirty())
      {
        ClearNext(ino, i, v, places, marks, held);
        i := i + 1;
      }
      ClearNext(ino, DIRECT, v, places, marks, held);
      ClearNext(ino, DIRECT + 1, v, places, marks, held);
    }

    /** inode_truncate: every zone of the file is freed once, and its descriptor ends empty. */
    method InodeTruncate(ino: nat)
      requires ino in desc && |cache.held()| + 2 <= CAPACITY && Valid()
      modifies cache, this`alloc, this`desc, this`owner
      ensures desc == old(desc)[ino := Desc(0, [0, 0, 0, 0, 0, 0, 0, 0, 0])]
      ensures forall x: Zone :: x in alloc <==> x in old(alloc) && !Reaches(old(Vol()), ino, x)
      ensures forall i :: i != ino ==> SameBytes(old(Vol()), Vol(), i)
      ensures cache.view() == old(cache.view()) && cache.held() == old(cache.held()) && Valid()
      ensures cache.dirty() <= old(cache.dirty()) - {ikey[ino]}
    {
      hide Inv, View, Held, Dirty, Forest, InTree, Under, Reaches, SameBytes, Truncating, Root, SlotsCleared, Valid;
      ghost var v, places, marks, held := Vol(), owner, alloc, cache.held();
      LayoutOf();
      StartTruncating(ino);
      ClearSlots(ino, v, places, marks, held);
      EndTruncating(v, places, marks, held, ino);
      EmptyFile(ino);
      forall i | i != ino ensures SameBytes(v, Vol(), i) {
        SameDescSameBytes(v, Vol(), i);
      }
    }

    lemma LayoutOf()
      requires Valid()
      ensures Forest(Vol(), owner)
    {
      LayoutForest();
    }

    /** inode->buf->dirty = true */
    method MarkDirty(ino: nat)
      requires ino in desc && Table(cache.held()) && cache.Valid()
      modifies cache
      ensures cache.view() == old(cache.view()) && cache.held() == old(cache.held())
      ensures cache.dirty() == old(cache.dirty()) + {ikey[ino]} && cache.Valid()
    {
      hide Inv, View, Held, Dirty;
      ghost var v := cache.view();
      cache.HeldBuffer(ikey[ino], ibuf[ino]);
      cache.Modify(ibuf[ino], ikey[ino], cache.pool[ibuf[ino]].data);
      assert cache.view() == v;
    }

    /** inode->desc->size = 0; inode->buf->dirty = true; bwrite(inode->buf). */
    method EmptyFile(ino: nat)
      requires ino in desc && Valid()
      modifies cache, this`desc
      ensures desc == old(desc)[ino := Desc(0, old(desc)[ino].zone)] && cache.view() == old(cache.view())
      ensures cache.held() == old(cache.held()) && Valid()
      ensures cache.dirty() == old(cache.dirty()) - {ikey[ino]}
    {
      hide Inv, View, Held, Dirty, Forest;
      ghost var t := Vol();
      ResizingKeeps(t, owner, ino, 0, zones, alloc);
      desc := desc[ino := Desc(0, desc[ino].zone)];
      assert Vol() == Resized(t, ino, 0);
      hide LaidOut;
      MarkDirty(ino);
      cache.Bwrite(ibuf[ino], ikey[ino]);
    }

    lemma StartTruncating(ino: nat)
      requires ino in desc && Valid()
      ensures Truncating(Vol(), owner, alloc, cache.held(), ino, 0)
    {
      hide Inv, View, Held, Dirty;
      assert WithoutSlots(owner, ino, 0) == owner;
    }

    lemma EndTruncating(v: Volume, places: map<Zone, Place>, marks: set<Zone>, held: map<Key, Hold>, ino: nat)
      requires Truncating(v, places, marks, held, ino, DIRECT + 2) && Forest(v, places)
      ensures forall x: Zone :: x in alloc <==> x in marks && !Reaches(v, ino, x)
      ensures ino in v.desc && desc == v.desc[ino := Desc(v.desc[ino].size, [0, 0, 0, 0, 0, 0, 0, 0, 0])]
      ensures cache.view() == v.view && dev == v.dev && cache.held() == held && Valid()
    {
      hide Inv, View, Held, Dirty, LaidOut, Reaches;
      assert desc[ino].zone == [0, 0, 0, 0, 0, 0, 0, 0, 0];
      forall x: Zone ensures x in alloc <==> x in marks && !Reaches(v, ino, x) {
        OwnedIsReached(v, places, ino, x);
      }
    }
  }
}
