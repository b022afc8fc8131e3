/**
 Zone trees: how nine slots, one single and one double indirection make a growable byte array
 (src/fs/bmap.c, src/fs/inode.c), as pure values.

 A zone of an inode's tree stands at one position: a slot of the inode or an entry of an index
 zone. `owner` records that position for every zone in use; with At it forms a bijection, which
 says at once that trees are disjoint, that no zone is reached twice, and which zones a tree has.
 */
module FileTrees {
  import opened Blocks

  const DIRECT: nat := 7
  const INDEXES: nat := 512
  const TOTAL: nat := DIRECT + INDEXES + INDEXES * INDEXES

  type Zone = z: int | 0 <= z < 0x1_0000

  datatype Desc = Desc(size: nat, zone: seq<Zone>)

  datatype Volume = Volume(dev: uint32, view: map<Key, Block>, desc: map<nat, Desc>)

  // ----- index blocks: 512 little-endian 16-bit zone numbers -----

  function Entry(b: Block, i: nat): Zone
    requires i < INDEXES
  {
    (b[2 * i] as int) + 256 * (b[2 * i + 1] as int)
  }

  function WithEntry(b: Block, i: nat, z: Zone): Block
    requires i < INDEXES
  {
    b[2 * i := z % 256][2 * i + 1 := z / 256]
  }

  lemma EntryOfWithEntry(b: Block, i: nat, z: Zone, j: nat)
    requires i < INDEXES && j < INDEXES
    ensures Entry(WithEntry(b, i, z), j) == if i == j then z else Entry(b, j)
  {
  }

  function ZeroBlock(): Block {
    seq(BLOCK_SIZE, _ => 0)
  }

  // ----- positions -----

  datatype Pos = Slot(i: nat) | Leaf1(k: nat) | Mid(k: nat) | Leaf2(k: nat, j: nat)

  datatype Place = Place(ino: nat, pos: Pos)

  predicate ValidPos(p: Pos) {
    match p
    case Slot(i) => i < DIRECT + 2
    case Leaf1(k) => k < INDEXES
    case Mid(k) => k < INDEXES
    case Leaf2(k, j) => k < INDEXES && j < INDEXES
  }

  predicate IsLeaf(p: Pos) {
    p.Leaf1? || p.Leaf2? || (p.Slot? && p.i < DIRECT)
  }

  function Parent(p: Pos): Pos
    requires !p.Slot?
  {
    match p
    case Leaf1(_) => Slot(DIRECT)
    case Mid(_) => Slot(DIRECT + 1)
    case Leaf2(k, _) => Mid(k)
  }

  function Depth(p: Pos): nat {
    match p
    case Slot(_) => 0
    case Leaf1(_) => 1
    case Mid(_) => 1
    case Leaf2(_, _) => 2
  }

  function SubIndex(p: Pos): nat
    requires !p.Slot?
  {
    match p
    case Leaf1(k) => k
    case Mid(k) => k
    case Leaf2(_, j) => j
  }

  /** The position in an index zone at p, for its entry k. */
  function ChildPos(p: Pos, k: nat): (q: Pos)
    requires ValidPos(p) && !IsLeaf(p)
    ensures !q.Slot? && Parent(q) == p && SubIndex(q) == k
  {
    match p
    case Slot(i) => if i == DIRECT then Leaf1(k) else Mid(k)
    case Mid(m) => Leaf2(m, k)
  }

  // ----- what stands at a position -----

  ghost function Content(v: Volume, z: Zone): Block {
    if Key(v.dev, z) in v.view then v.view[Key(v.dev, z)] else ZeroBlock()
  }

  ghost function Child(v: Volume, z: Zone, k: nat): Zone
    requires k < INDEXES
  {
    if z == 0 then 0 else Entry(Content(v, z), k)
  }

  ghost function SlotOf(v: Volume, ino: nat, i: nat): Zone {
    if ino in v.desc && i < |v.desc[ino].zone| then v.desc[ino].zone[i] else 0
  }

  ghost function At(v: Volume, ino: nat, p: Pos): Zone
    requires ValidPos(p)
  {
    match p
    case Slot(i) => SlotOf(v, ino, i)
    case Leaf1(k) => Child(v, SlotOf(v, ino, DIRECT), k)
    case Mid(k) => Child(v, SlotOf(v, ino, DIRECT + 1), k)
    case Leaf2(k, j) => Child(v, Child(v, SlotOf(v, ino, DIRECT + 1), k), j)
  }

  ghost predicate Forest(v: Volume, owner: map<Zone, Place>) {
    && (forall ino :: ino in v.desc ==> |v.desc[ino].zone| == DIRECT + 2)
    && (forall ino, p :: ValidPos(p) && At(v, ino, p) != 0 ==>
          At(v, ino, p) in owner && owner[At(v, ino, p)] == Place(ino, p))
    && (forall z :: z in owner ==>
          && z != 0 && Key(v.dev, z) in v.view && owner[z].ino in v.desc && ValidPos(owner[z].pos)
          && At(v, owner[z].ino, owner[z].pos) == z)
  }

  ghost function WithSlot(v: Volume, ino: nat, i: nat, z: Zone): Volume
    requires ino in v.desc && i < |v.desc[ino].zone|
  {
    Volume(v.dev, v.view, v.desc[ino := Desc(v.desc[ino].size, v.desc[ino].zone[i := z])])
  }

  ghost function WithContent(v: Volume, z: Zone, b: Block): Volume {
    Volume(v.dev, v.view[Key(v.dev, z) := b], v.desc)
  }

  // ----- growing -----

  /** Zone z is entered at an empty place. */
  ghost function Planted(v: Volume, pl: Place, z: Zone): Volume
    requires pl.ino in v.desc && ValidPos(pl.pos) && |v.desc[pl.ino].zone| == DIRECT + 2
  {
    match pl.pos
    case Slot(i) => WithSlot(v, pl.ino, i, z)
    case _ => WithContent(v, At(v, pl.ino, Parent(pl.pos)), WithEntry(Content(v, At(v, pl.ino, Parent(pl.pos))), SubIndex(pl.pos), z))
  }

  ghost predicate CanPlant(v: Volume, owner: map<Zone, Place>, pl: Place, z: Zone) {
    && Forest(v, owner) && pl.ino in v.desc && ValidPos(pl.pos)
    && At(v, pl.ino, pl.pos) == 0 && (!pl.pos.Slot? ==> At(v, pl.ino, Parent(pl.pos)) != 0)
    && z != 0 && z !in owner && Key(v.dev, z) in v.view
  }

  /** Below an index position whose content is known, one level down. */
  lemma PlantedChild(v: Volume, owner: map<Zone, Place>, pl: Place, z: Zone, ino: nat, q: Pos, k: nat)
    requires CanPlant(v, owner, pl, z) && (IsLeaf(pl.pos) || Content(v, z) == ZeroBlock())
    requires ValidPos(q) && !IsLeaf(q) && k < INDEXES
    requires At(Planted(v, pl, z), ino, q) == if Place(ino, q) == pl then z else At(v, ino, q)
    ensures
      Child(Planted(v, pl, z), At(Planted(v, pl, z), ino, q), k)
      == if Place(ino, ChildPos(q, k)) == pl then z else Child(v, At(v, ino, q), k)
  {
    var a := At(v, ino, q);
    var w := Planted(v, pl, z);
    if Place(ino, q) == pl {
      assert Entry(ZeroBlock(), k) == 0;
      if !q.Slot? {
        assert z != At(v, ino, Parent(q));
      }
    } else if a != 0 && !pl.pos.Slot? {
      var y := At(v, pl.ino, Parent(pl.pos));
      if a == y {
        EntryOfWithEntry(Content(v, y), SubIndex(pl.pos), z, k);
        assert Place(ino, q) == Place(pl.ino, Parent(pl.pos));
      }
    }
  }

  lemma PlantedAt(v: Volume, owner: map<Zone, Place>, pl: Place, z: Zone, ino: nat, p: Pos)
    requires CanPlant(v, owner, pl, z) && (IsLeaf(pl.pos) || Content(v, z) == ZeroBlock())
    requires ValidPos(p)
    ensures At(Planted(v, pl, z), ino, p) == if Place(ino, p) == pl then z else At(v, ino, p)
    decreases Depth(p)
  {
    if !p.Slot? {
      PlantedAt(v, owner, pl, z, ino, Parent(p));
      PlantedChild(v, owner, pl, z, ino, Parent(p), SubIndex(p));
    }
  }

  lemma PlantedForest(v: Volume, owner: map<Zone, Place>, pl: Place, z: Zone)
    requires CanPlant(v, owner, pl, z) && (IsLeaf(pl.pos) || Content(v, z) == ZeroBlock())
    ensures Forest(Planted(v, pl, z), owner[z := pl])
  {
    var w := Planted(v, pl, z);
    var owner' := owner[z := pl];
    forall ino, p | ValidPos(p) && At(w, ino, p) != 0
      ensures At(w, ino, p) in owner' && owner'[At(w, ino, p)] == Place(ino, p)
    {
      PlantedAt(v, owner, pl, z, ino, p);
    }
    forall x | x in owner'
      ensures x != 0 && owner'[x].ino in w.desc && ValidPos(owner'[x].pos) && At(w, owner'[x].ino, owner'[x].pos) == x
    {
      PlantedAt(v, owner, pl, z, owner'[x].ino, owner'[x].pos);
    }
  }

  /**
   A new index zone keeps the forest exactly when it starts out with no entries: balloc does not
   clear the zone, and bmap reads it straight away.
   */
  lemma PlantedIndexKeepsForestIff(v: Volume, owner: map<Zone, Place>, pl: Place, z: Zone)
    requires CanPlant(v, owner, pl, z) && !IsLeaf(pl.pos)
    ensures Forest(Planted(v, pl, z), owner[z := pl]) <==> forall k :: 0 <= k < INDEXES ==> Entry(Content(v, z), k) == 0
  {
    var w := Planted(v, pl, z);
    if forall k :: 0 <= k < INDEXES ==> Entry(Content(v, z), k) == 0 {
      NoEntriesIsZero(Content(v, z));
      PlantedForest(v, owner, pl, z);
    } else {
      var k :| 0 <= k < INDEXES && Entry(Content(v, z), k) != 0;
      assert At(v, pl.ino, ChildPos(pl.pos, k)) == 0;
      if !pl.pos.Slot? {
        var y := At(v, pl.ino, Parent(pl.pos));
        assert y in owner;
        EntryOfWithEntry(Content(v, y), SubIndex(pl.pos), z, SubIndex(pl.pos));
      }
      assert At(w, pl.ino, ChildPos(pl.pos, k)) == Entry(Content(v, z), k);
    }
  }

  lemma NoEntriesIsZero(b: Block)
    requires forall k :: 0 <= k < INDEXES ==> Entry(b, k) == 0
    ensures b == ZeroBlock()
  {
    forall i | 0 <= i < BLOCK_SIZE ensures b[i] == 0 {
      assert Entry(b, i / 2) == 0;
    }
  }

  // ----- files as bytes -----

  const MAX_BYTES: nat := TOTAL * BLOCK_SIZE

  /** The position whose zone holds file block n. */
  function LeafPos(n: nat): (p: Pos)
    requires n < TOTAL
    ensures ValidPos(p) && IsLeaf(p)
  {
    if n < DIRECT then Slot(n)
    else if n < DIRECT + INDEXES then Leaf1(n - DIRECT)
    else Leaf2((n - DIRECT - INDEXES) / INDEXES, (n - DIRECT - INDEXES) % INDEXES)
  }

  lemma LeafPosInjective(m: nat, n: nat)
    requires m < TOTAL && n < TOTAL && LeafPos(m) == LeafPos(n)
    ensures m == n
  {
  }

  ghost predicate Mapped(v: Volume, ino: nat, n: nat)
    requires n < TOTAL
  {
    At(v, ino, LeafPos(n)) != 0
  }

  ghost function ByteAt(v: Volume, ino: nat, i: nat): Byte
    requires i < MAX_BYTES
  {
    if Mapped(v, ino, i / BLOCK_SIZE) then Content(v, At(v, ino, LeafPos(i / BLOCK_SIZE)))[i % BLOCK_SIZE] else 0
  }

  /** Different file blocks, of one file or of two, lie in different zones, none of which is 0. */
  lemma DistinctBlocksDistinctZones(v: Volume, owner: map<Zone, Place>, ino: nat, n: nat, ino': nat, n': nat)
    requires Forest(v, owner) && n < TOTAL && n' < TOTAL && Mapped(v, ino, n) && Mapped(v, ino', n')
    ensures At(v, ino, LeafPos(n)) == At(v, ino', LeafPos(n')) <==> ino == ino' && n == n'
    ensures At(v, ino, LeafPos(n)) != 0 && At(v, ino, LeafPos(n)) in owner
  {
    if At(v, ino, LeafPos(n)) == At(v, ino', LeafPos(n')) {
      LeafPosInjective(n, n');
    }
  }

  ghost predicate SameBytes(v: Volume, w: Volume, ino: nat) {
    forall i :: 0 <= i < MAX_BYTES ==> ByteAt(w, ino, i) == ByteAt(v, ino, i)
  }

  lemma PlantedBytes(v: Volume, owner: map<Zone, Place>, pl: Place, z: Zone, ino: nat)
    requires CanPlant(v, owner, pl, z) && Content(v, z) == ZeroBlock()
    ensures SameBytes(v, Planted(v, pl, z), ino)
  {
    forall i | 0 <= i < MAX_BYTES ensures ByteAt(Planted(v, pl, z), ino, i) == ByteAt(v, ino, i) {
      PlantedAt(v, owner, pl, z, ino, LeafPos(i / BLOCK_SIZE));
    }
  }

  // ----- writing into a data zone -----

  lemma PokedAt(v: Volume, owner: map<Zone, Place>, x: Zone, b: Block, ino: nat, p: Pos)
    requires Forest(v, owner) && x in owner && IsLeaf(owner[x].pos) && ValidPos(p)
    ensures At(WithContent(v, x, b), ino, p) == At(v, ino, p)
    decreases Depth(p)
  {
    if !p.Slot? {
      PokedAt(v, owner, x, b, ino, Parent(p));
      assert At(v, ino, Parent(p)) != x;
    }
  }

  lemma PokedForest(v: Volume, owner: map<Zone, Place>, x: Zone, b: Block)
    requires Forest(v, owner) && x in owner && IsLeaf(owner[x].pos)
    ensures Forest(WithContent(v, x, b), owner)
  {
    var w := WithContent(v, x, b);
    forall ino, p | ValidPos(p) ensures At(w, ino, p) == At(v, ino, p) {
      PokedAt(v, owner, x, b, ino, p);
    }
  }

  lemma PokedByte(v: Volume, owner: map<Zone, Place>, x: Zone, b: Block, ino: nat, i: nat)
    requires Forest(v, owner) && x in owner && IsLeaf(owner[x].pos) && i < MAX_BYTES
    ensures
      ByteAt(WithContent(v, x, b), ino, i)
      == if owner[x] == Place(ino, LeafPos(i / BLOCK_SIZE)) then b[i % BLOCK_SIZE] else ByteAt(v, ino, i)
  {
    PokedAt(v, owner, x, b, ino, LeafPos(i / BLOCK_SIZE));
  }

  // ----- releasing a slot's tree -----

  /** q is p or lies below it. */
  ghost predicate Under(q: Pos, p: Pos)
    decreases Depth(q)
  {
    q == p || (!q.Slot? && Under(Parent(q), p))
  }

  ghost predicate InTree(owner: map<Zone, Place>, z: Zone, ino: nat, p: Pos) {
    z in owner && owner[z].ino == ino && Under(owner[z].pos, p)
  }

  ghost function Pruned(owner: map<Zone, Place>, ino: nat, i: nat): map<Zone, Place> {
    map z | z in owner && !InTree(owner, z, ino, Slot(i)) :: owner[z]
  }

  lemma ClearedAt(v: Volume, ino: nat, i: nat, ino': nat, p: Pos)
    requires ino in v.desc && i < |v.desc[ino].zone| && ValidPos(p)
    ensures At(WithSlot(v, ino, i, 0), ino', p) == if ino' == ino && Under(p, Slot(i)) then 0 else At(v, ino', p)
    decreases Depth(p)
  {
    if !p.Slot? {
      ClearedAt(v, ino, i, ino', Parent(p));
    }
  }

  lemma ClearedForest(v: Volume, owner: map<Zone, Place>, ino: nat, i: nat)
    requires Forest(v, owner) && ino in v.desc && i < DIRECT + 2
    ensures Forest(WithSlot(v, ino, i, 0), Pruned(owner, ino, i))
  {
    var w := WithSlot(v, ino, i, 0);
    var owner' := Pruned(owner, ino, i);
    forall ino', p | ValidPos(p) && At(w, ino', p) != 0
      ensures At(w, ino', p) in owner' && owner'[At(w, ino', p)] == Place(ino', p)
    {
      ClearedAt(v, ino, i, ino', p);
    }
    forall x | x in owner'
      ensures x != 0 && owner'[x].ino in w.desc && ValidPos(owner'[x].pos) && At(w, owner'[x].ino, owner'[x].pos) == x
    {
      ClearedAt(v, ino, i, owner'[x].ino, owner'[x].pos);
    }
  }

  // ----- what inode_write does to a file -----

  /** Bytes off .. off + |data| of file ino become data; no other byte of any file changes. */
  ghost predicate Patched(v: Volume, w: Volume, ino: nat, off: nat, data: seq<Byte>) {
    forall ino', i :: 0 <= i < MAX_BYTES ==>
      ByteAt(w, ino', i) == if ino' == ino && off <= i < off + |data| then data[i - off] else ByteAt(v, ino', i)
  }

  ghost predicate Sized(v: Volume) {
    forall ino :: ino in v.desc ==> v.desc[ino].size <= MAX_BYTES
  }

  ghost function Contents(v: Volume, ino: nat): (c: seq<Byte>)
    requires ino in v.desc && v.desc[ino].size <= MAX_BYTES
    ensures |c| == v.desc[ino].size
  {
    seq(v.desc[ino].size, i requires 0 <= i < v.desc[ino].size => ByteAt(v, ino, i))
  }

  /** No byte lies beyond the end of file ino. */
  ghost predicate NothingBeyond(v: Volume, ino: nat) {
    ino in v.desc ==> forall i :: v.desc[ino].size <= i < MAX_BYTES ==> ByteAt(v, ino, i) == 0
  }

  /** c with data laid over it from off on; a gap is filled with zeros. */
  function Overlaid(c: seq<Byte>, off: nat, data: seq<Byte>): seq<Byte> {
    (if off <= |c| then c[..off] else c + seq(off - |c|, _ => 0)) + data
    + (if off + |data| < |c| then c[off + |data|..] else [])
  }

  lemma PatchedContents(v: Volume, w: Volume, ino: nat, off: nat, data: seq<Byte>)
    requires Patched(v, w, ino, off, data) && data != [] && off + |data| <= MAX_BYTES
    requires ino in v.desc && v.desc[ino].size <= MAX_BYTES && NothingBeyond(v, ino)
    requires ino in w.desc && w.desc[ino].size == if off + |data| > v.desc[ino].size then off + |data| else v.desc[ino].size
    ensures Contents(w, ino) == Overlaid(Contents(v, ino), off, data) && NothingBeyond(w, ino)
  {
    var c := Contents(v, ino);
    var o := Overlaid(c, off, data);
    assert |o| == w.desc[ino].size;
    forall i | 0 <= i < |o| ensures o[i] == if off <= i < off + |data| then data[i - off] else ByteAt(v, ino, i) {
    }
  }

  lemma PatchedOther(v: Volume, w: Volume, ino: nat, off: nat, data: seq<Byte>, ino': nat)
    requires Patched(v, w, ino, off, data) && ino' != ino
    requires ino' in v.desc && ino' in w.desc && w.desc[ino'].size == v.desc[ino'].size <= MAX_BYTES
    ensures Contents(w, ino') == Contents(v, ino')
  {
  }

  /** What was written is what the same range then holds. */
  lemma WrittenIsRead(c: seq<Byte>, off: nat, data: seq<Byte>)
    ensures off + |data| <= |Overlaid(c, off, data)| && Overlaid(c, off, data)[off..off + |data|] == data
  {
    var front := if off <= |c| then c[..off] else c + seq(off - |c|, _ => 0);
    var back := if off + |data| < |c| then c[off + |data|..] else [];
    assert Overlaid(c, off, data) == front + data + back && |front| == off;
    assert (front + data + back)[off..off + |data|] == data;
  }

  // ----- holes -----

  /** Exactly the blocks below the end of the file are mapped. */
  ghost predicate Dense(v: Volume, ino: nat) {
    ino in v.desc && forall n :: 0 <= n < TOTAL ==> (Mapped(v, ino, n) <==> n * BLOCK_SIZE < v.desc[ino].size)
  }

  ghost predicate Touched(v: Volume, w: Volume, ino: nat, off: nat, len: nat) {
    forall ino', n :: 0 <= n < TOTAL ==>
      (Mapped(w, ino', n) <==> Mapped(v, ino', n) || (ino' == ino && len > 0 && off / BLOCK_SIZE <= n <= (off + len - 1) / BLOCK_SIZE))
  }

  /**
   inode_write leaves a hole, on which inode_read will trip its assertion, exactly when it starts
   beyond the block that follows the last one in use.
   */
  lemma WriteStaysDenseIff(v: Volume, w: Volume, ino: nat, off: nat, len: nat)
    requires Dense(v, ino) && Touched(v, w, ino, off, len) && len > 0 && off + len <= MAX_BYTES
    requires ino in w.desc && w.desc[ino].size == if off + len > v.desc[ino].size then off + len else v.desc[ino].size
    ensures Dense(w, ino) <==> off / BLOCK_SIZE * BLOCK_SIZE <= (v.desc[ino].size + BLOCK_SIZE - 1) / BLOCK_SIZE * BLOCK_SIZE
  {
    var size := v.desc[ino].size;
    var first := off / BLOCK_SIZE;
    if first * BLOCK_SIZE > (size + BLOCK_SIZE - 1) / BLOCK_SIZE * BLOCK_SIZE {
      assert !Mapped(v, ino, first - 1);
      assert !Mapped(w, ino, first - 1);
    }
  }

  lemma PatchedThenPatched(u: Volume, v: Volume, w: Volume, ino: nat, off: nat, d: seq<Byte>, e: seq<Byte>)
    requires Patched(u, v, ino, off, d) && Patched(v, w, ino, off + |d|, e)
    ensures Patched(u, w, ino, off, d + e)
  {
  }

  lemma TouchedThenTouched(u: Volume, v: Volume, w: Volume, ino: nat, off: nat, m: nat, n: nat)
    requires Touched(u, v, ino, off, m) && Touched(v, w, ino, off + m, n)
    ensures Touched(u, w, ino, off, m + n)
  {
    forall ino', b | 0 <= b < TOTAL
      ensures Mapped(w, ino', b) <==>
              Mapped(u, ino', b) || (ino' == ino && m + n > 0 && off / BLOCK_SIZE <= b <= (off + m + n - 1) / BLOCK_SIZE)
    {
      assert Mapped(w, ino', b) <==>
             Mapped(v, ino', b) || (ino' == ino && n > 0 && (off + m) / BLOCK_SIZE <= b <= (off + m + n - 1) / BLOCK_SIZE);
    }
  }

  /** Changing the size in a descriptor moves no zone. */
  lemma ResizedAt(v: Volume, ino: nat, size: nat, i: nat, p: Pos)
    requires ino in v.desc && ValidPos(p)
    ensures At(Resized(v, ino, size), i, p) == At(v, i, p)
  {
  }

  ghost function Resized(v: Volume, ino: nat, size: nat): Volume
    requires ino in v.desc
  {
    Volume(v.dev, v.view, v.desc[ino := Desc(size, v.desc[ino].zone)])
  }

  lemma ResizedForest(v: Volume, owner: map<Zone, Place>, ino: nat, size: nat)
    requires Forest(v, owner) && ino in v.desc
    ensures Forest(Resized(v, ino, size), owner)
  {
    forall i, p | ValidPos(p) ensures At(Resized(v, ino, size), i, p) == At(v, i, p) {
      ResizedAt(v, ino, size, i, p);
    }
  }

  /** The bytes of a file within one of its blocks. */
  lemma BlockSlice(v: Volume, ino: nat, off: nat, len: nat)
    requires ino in v.desc && v.desc[ino].size <= MAX_BYTES && off + len <= v.desc[ino].size && len > 0
    requires off % BLOCK_SIZE + len <= BLOCK_SIZE && Mapped(v, ino, off / BLOCK_SIZE)
    ensures
      Contents(v, ino)[off..off + len]
      == Content(v, At(v, ino, LeafPos(off / BLOCK_SIZE)))[off % BLOCK_SIZE..off % BLOCK_SIZE + len]
  {
    var start := off % BLOCK_SIZE;
    forall n | off <= n < off + len
      ensures ByteAt(v, ino, n) == Content(v, At(v, ino, LeafPos(off / BLOCK_SIZE)))[start + n - off]
    {
      assert n / BLOCK_SIZE == off / BLOCK_SIZE && n % BLOCK_SIZE == start + n - off;
    }
  }

  /** A chunk copied into one block of a file patches that file. */
  lemma PokedPatches(v: Volume, owner: map<Zone, Place>, ino: nat, off: nat, chunk: seq<Byte>, b: Block)
    requires Forest(v, owner) && off + |chunk| <= MAX_BYTES && chunk != []
    requires off % BLOCK_SIZE + |chunk| <= BLOCK_SIZE && Mapped(v, ino, off / BLOCK_SIZE)
    requires
      var was := Content(v, At(v, ino, LeafPos(off / BLOCK_SIZE)));
      b == was[..off % BLOCK_SIZE] + chunk + was[off % BLOCK_SIZE + |chunk|..]
    ensures Patched(v, WithContent(v, At(v, ino, LeafPos(off / BLOCK_SIZE)), b), ino, off, chunk)
  {
    var x := At(v, ino, LeafPos(off / BLOCK_SIZE));
    var start := off % BLOCK_SIZE;
    forall i, n | 0 <= n < MAX_BYTES
      ensures ByteAt(WithContent(v, x, b), i, n)
           == if i == ino && off <= n < off + |chunk| then chunk[n - off] else ByteAt(v, i, n)
    {
      PokedByte(v, owner, x, b, i, n);
      if i == ino && n / BLOCK_SIZE == off / BLOCK_SIZE {
        assert n % BLOCK_SIZE == n - off / BLOCK_SIZE * BLOCK_SIZE;
      } else if i == ino && LeafPos(n / BLOCK_SIZE) == LeafPos(off / BLOCK_SIZE) {
        LeafPosInjective(n / BLOCK_SIZE, off / BLOCK_SIZE);
      }
    }
  }

  // ----- freeing a whole tree -----

  /** inode_bfree's level: how many index levels lie below p. */
  function LevelOf(p: Pos): nat {
    match p
    case Slot(i) => if i < DIRECT then 0 else if i == DIRECT then 1 else 2
    case Mid(_) => 1
    case _ => 0
  }

  /** The entry of the index zone at p through which q is reached. */
  ghost function Branch(q: Pos, p: Pos): nat
    requires Under(q, p) && q != p
    decreases Depth(q)
  {
    if Parent(q) == p then SubIndex(q) else Branch(Parent(q), p)
  }

  lemma BranchIsChild(q: Pos, p: Pos, j: nat)
    requires ValidPos(q) && ValidPos(p) && !IsLeaf(p)
    ensures Under(q, ChildPos(p, j)) <==> Under(q, p) && q != p && Branch(q, p) == j
    ensures Under(q, p) && q != p ==> Branch(q, p) < INDEXES
    decreases Depth(q)
  {
    if !q.Slot? {
      BranchIsChild(Parent(q), p, j);
      UnderIsDeeper(Parent(q), p);
      if Parent(q) == p {
        assert q == ChildPos(p, SubIndex(q));
      }
    }
  }

  lemma UnderIsDeeper(q: Pos, p: Pos)
    requires ValidPos(q)
    ensures Under(q, p) ==> Depth(p) <= Depth(q)
    decreases Depth(q)
  {
    if !q.Slot? {
      UnderIsDeeper(Parent(q), p);
    }
  }

  lemma LeafHasNoneBelow(q: Pos, p: Pos)
    requires ValidPos(q) && IsLeaf(p)
    ensures Under(q, p) <==> q == p
    decreases Depth(q)
  {
    if !q.Slot? {
      LeafHasNoneBelow(Parent(q), p);
    }
  }

  lemma NothingUnderEmpty(v: Volume, ino: nat, q: Pos, p: Pos)
    requires ValidPos(q) && ValidPos(p) && Under(q, p) && At(v, ino, p) == 0
    ensures At(v, ino, q) == 0
    decreases Depth(q)
  {
    if q != p {
      NothingUnderEmpty(v, ino, Parent(q), p);
    }
  }

  function Root(q: Pos): nat {
    match q
    case Slot(i) => i
    case Leaf1(_) => DIRECT
    case _ => DIRECT + 1
  }

  lemma UnderSlot(q: Pos, i: nat)
    ensures Under(q, Slot(i)) <==> Root(q) == i
    decreases Depth(q)
  {
    if !q.Slot? {
      UnderSlot(Parent(q), i);
    }
  }

  /** Zone x is part of the tree of file ino. */
  ghost predicate Reaches(v: Volume, ino: nat, x: Zone) {
    x != 0 && exists p :: ValidPos(p) && At(v, ino, p) == x
  }

  lemma OwnedIsReached(v: Volume, owner: map<Zone, Place>, ino: nat, x: Zone)
    requires Forest(v, owner)
    ensures Reaches(v, ino, x) <==> x in owner && owner[x].ino == ino
  {
    if x in owner && owner[x].ino == ino {
      assert ValidPos(owner[x].pos) && At(v, ino, owner[x].pos) == x;
    }
  }
}
