/**
 Open files (src/fs/file.c): the volume seen as flat files, and the calls that move an offset
 through one of them.
 */
module Files {
  import opened Blocks
  import opened CacheStates
  import opened BufferCache
  import opened FileTrees
  import opened FileSystems

  /** The bytes of every file. */
  ghost function FilesOf(v: Volume): map<nat, seq<Byte>>
    requires Sized(v)
  {
    map ino | ino in v.desc :: Contents(v, ino)
  }

  /** Beyond their ends files have no bytes, and exactly their own blocks are mapped. */
  ghost predicate Tidy(v: Volume) {
    forall ino :: ino in v.desc ==> NothingBeyond(v, ino)
  }

  ghost predicate Packed(v: Volume) {
    forall ino :: ino in v.desc ==> Dense(v, ino)
  }

  /** Where a write may start without leaving a hole behind it. */
  predicate Joins(size: nat, off: nat) {
    off / BLOCK_SIZE * BLOCK_SIZE <= (size + BLOCK_SIZE - 1) / BLOCK_SIZE * BLOCK_SIZE
  }

  /** inode_write on the three levels of zones is laying the data over one flat file. */
  lemma WroteFiles(v: Volume, w: Volume, ino: nat, off: nat, data: seq<Byte>)
    requires Wrote(v, w, ino, off, data) && Sized(v) && Sized(w) && Tidy(v)
    requires data != [] && off + |data| <= MAX_BYTES
    ensures FilesOf(w) == FilesOf(v)[ino := Overlaid(FilesOf(v)[ino], off, data)] && Tidy(w)
  {
    PatchedContents(v, w, ino, off, data);
    hide Contents, Overlaid, Touched;
    forall i | i in v.desc && i != ino ensures FilesOf(w)[i] == FilesOf(v)[i] && NothingBeyond(w, i) {
      PatchedOther(v, w, ino, off, data, i);
      assert NothingBeyond(v, i);
    }
  }

  /** A volume without holes gets one from a write exactly when the write does not join the file. */
  lemma WroteStaysPackedIff(v: Volume, w: Volume, ino: nat, off: nat, data: seq<Byte>)
    requires Wrote(v, w, ino, off, data) && Packed(v) && data != [] && off + |data| <= MAX_BYTES
    ensures Packed(w) <==> Joins(v.desc[ino].size, off)
  {
    hide Patched;
    assert Dense(v, ino);
    WriteStaysDenseIff(v, w, ino, off, |data|);
    forall i | i in v.desc && i != ino ensures Dense(w, i) {
      assert Dense(v, i);
    }
  }

  /** A truncated file is empty, and the others are what they were. */
  lemma TruncatedFiles(v: Volume, w: Volume, ino: nat)
    requires Sized(v) && Tidy(v) && Packed(v) && ino in v.desc && w.dev == v.dev && w.view == v.view
    requires w.desc == v.desc[ino := Desc(0, [0, 0, 0, 0, 0, 0, 0, 0, 0])]
    ensures Sized(w) && FilesOf(w) == FilesOf(v)[ino := []] && Tidy(w) && Packed(w)
  {
    hide Mapped, ByteAt, NothingBeyond, Dense, Contents;
    forall i | i in v.desc ensures Contents(w, i) == (if i == ino then [] else Contents(v, i)) && NothingBeyond(w, i) && Dense(w, i) {
      TruncatedFile(v, w, ino, i);
    }
  }

  lemma TruncatedFile(v: Volume, w: Volume, ino: nat, i: nat)
    requires Sized(v) && Tidy(v) && Packed(v) && ino in v.desc && i in v.desc && w.dev == v.dev && w.view == v.view
    requires w.desc == v.desc[ino := Desc(0, [0, 0, 0, 0, 0, 0, 0, 0, 0])]
    ensures Contents(w, i) == (if i == ino then [] else Contents(v, i)) && NothingBeyond(w, i) && Dense(w, i)
  {
    hide Mapped, ByteAt;
    TruncatedBytes(v, w, ino);
    assert NothingBeyond(v, i) && Dense(v, i);
  }

  lemma TruncatedBytes(v: Volume, w: Volume, ino: nat)
    requires ino in v.desc && w.dev == v.dev && w.view == v.view
    requires w.desc == v.desc[ino := Desc(0, [0, 0, 0, 0, 0, 0, 0, 0, 0])]
    ensures forall i, n :: 0 <= n < TOTAL ==> (Mapped(w, i, n) <==> i != ino && Mapped(v, i, n))
    ensures forall i, n :: 0 <= n < MAX_BYTES ==> ByteAt(w, i, n) == if i == ino then 0 else ByteAt(v, i, n)
  {
    forall i, n | 0 <= n < TOTAL ensures At(w, i, LeafPos(n)) == if i == ino then 0 else At(v, i, LeafPos(n)) {
    }
    hide At, LeafPos;
    forall z: Zone ensures Content(w, z) == Content(v, z) {
    }
  }

  /** int32 of a machine word. */
  function ToInt32(x: int): (r: int)
    ensures -0x8000_0000 <= r < 0x8000_0000 && (r - x) % 0x1_0000_0000 == 0
    ensures -0x8000_0000 <= x < 0x8000_0000 ==> r == x
  {
    (x + 0x8000_0000) % 0x1_0000_0000 - 0x8000_0000
  }

  const RDONLY: nat := 0
  const WRONLY: nat := 1
  const EOF: int := -1

  datatype Whence = SeekSet | SeekCur | SeekEnd

  /** What a read of `count` bytes at `off` gives, and how far it moves the offset. */
  ghost function ReadFrom(c: seq<Byte>, off: int, count: nat): seq<Byte> {
    if 0 <= off <= |c| then c[off..if off + count < |c| then off + count else |c|] else []
  }

  /** An entry of file_table, apart from its reference count. */
  class OpenFile {
    const ino: nat
    const flags: nat
    var offset: int

    constructor (ino: nat, flags: nat, offset: int)
      ensures this.ino == ino && this.flags == flags && this.offset == offset
    {
      this.ino, this.flags, this.offset := ino, flags, offset;
    }

    /** Nothing of the volume has changed. */
    twostate predicate Untouched(fs: FileSystem)
      reads fs, fs.cache
    {
      fs.Vol() == old(fs.Vol()) && fs.alloc == old(fs.alloc) && fs.owner == old(fs.owner) && fs.cache.held() == old(fs.cache.held())
    }

    /** sys_read. On a packed volume no read trips over a hole. */
    method Read(fs: FileSystem, count: nat) returns (ok: bool, n: int, data: seq<Byte>)
      requires ino in fs.desc && count > 0 && -0x8000_0000 <= offset < 0x8000_0000
      requires |fs.cache.held()| < CAPACITY && fs.Valid()
      modifies this, fs.cache, fs`alloc, fs`desc, fs`owner
      ensures Untouched(fs) && fs.Valid()
      ensures Packed(fs.Vol()) ==> ok
      ensures fs.desc[ino].size <= MAX_BYTES
      ensures ok && (flags % 4 == WRONLY || !(0 <= old(offset) < fs.desc[ino].size)) ==> n == EOF && data == [] && offset == old(offset)
      ensures ok && flags % 4 != WRONLY && 0 <= old(offset) < fs.desc[ino].size ==>
        data == ReadFrom(Contents(fs.Vol(), ino), old(offset), count) && n == |data| && offset == old(offset) + n
    {
      hide Inv, View, Held, Dirty, LaidOut, Clean, FileSystem.Table, FileSystem.Marked, Contents, Mapped;
      ok, n, data := true, EOF, [];
      fs.SizedFile(ino);
      if flags % 4 == WRONLY {
        return;
      }
      ghost var v := fs.Vol();
      var eof;
      ok, eof, data := fs.InodeRead(ino, count, offset % 0x1_0000_0000);
      if Packed(v) && !eof {
        DenseHasNoHole(fs, offset, count);
      }
      if ok && !eof {
        n := |data|;
        offset := offset + n;
      }
    }

    lemma DenseHasNoHole(fs: FileSystem, off: nat, count: nat)
      requires ino in fs.desc && Packed(fs.Vol()) && off < fs.desc[ino].size <= MAX_BYTES
      ensures !fs.Hole(ino, off, if off + count < fs.desc[ino].size then off + count else fs.desc[ino].size)
    {
      hide Inv, View, Held, Dirty, Mapped;
      assert Dense(fs.Vol(), ino);
    }

    /** sys_write: on the flat files, laying the data over one of them at the offset. */
    method Write(fs: FileSystem, data: seq<Byte>) returns (ok: bool, n: int)
      requires ino in fs.desc && data != [] && 0 <= offset && offset + |data| <= MAX_BYTES
      requires |fs.cache.held()| < CAPACITY && fs.CleanFree() && fs.Valid() && Sized(fs.Vol()) && Tidy(fs.Vol())
      modifies this, fs.cache, fs`alloc, fs`desc, fs`owner
      ensures !ok ==> fs.Full()
      ensures flags % 4 == RDONLY ==> ok && n == EOF && offset == old(offset) && Untouched(fs)
      ensures ok && flags % 4 != RDONLY ==>
        n == |data| && offset == old(offset) + n && Sized(fs.Vol()) && fs.desc.Keys == old(fs.desc.Keys)
      ensures ok && flags % 4 != RDONLY ==>
        FilesOf(fs.Vol()) == old(FilesOf(fs.Vol()))[ino := Overlaid(old(FilesOf(fs.Vol()))[ino], old(offset), data)]
      ensures ok && flags % 4 != RDONLY && old(Packed(fs.Vol())) ==>
        (Packed(fs.Vol()) <==> Joins(old(fs.desc[ino].size), old(offset)))
      ensures ok ==> fs.cache.dirty() <= old(fs.cache.dirty())
      ensures ok ==> fs.cache.held() == old(fs.cache.held()) && fs.CleanFree() && fs.Valid() && Tidy(fs.Vol())
    {
      hide Inv, View, Held, Dirty, LaidOut, Clean, Tidy, FilesOf, Overlaid, Packed, Joins, Wrote;
      if flags % 4 == RDONLY {
        return true, EOF;
      }
      ghost var v := fs.Vol();
      ok, n := fs.InodeWrite(ino, data, offset);
      if ok {
        SizedVolume(fs);
        FileSystem.WroteKeys(v, fs.Vol(), ino, offset, data);
        WroteFiles(v, fs.Vol(), ino, offset, data);
        if Packed(v) {
          WroteStaysPackedIff(v, fs.Vol(), ino, offset, data);
        }
        offset := offset + n;
      }
    }

    lemma SizedVolume(fs: FileSystem)
      requires fs.Layout()
      ensures Sized(fs.Vol())
    {
      hide Inv, View, Held, Dirty, Forest;
    }

    /**
     sys_lseek. SEEK_END asserts that an unsigned sum is not negative, which never fails, so it alone
     can leave a negative offset behind.
     */
    method Lseek(fs: FileSystem, delta: int, whence: Whence) returns (ok: bool, pos: int)
      requires ino in fs.desc && -0x8000_0000 <= delta < 0x8000_0000 && -0x8000_0000 <= offset < 0x8000_0000
      modifies this
      ensures
        var want := ToInt32(delta + match whence case SeekSet => 0 case SeekCur => old(offset) case SeekEnd => fs.desc[ino].size);
        (ok <==> whence.SeekEnd? || want >= 0) && pos == offset == if ok then want else old(offset)
    {
      ok, pos := true, offset;
      match whence {
        case SeekSet =>
          ok := delta >= 0;
          if ok { offset := delta; }
        case SeekCur =>
          ok := ToInt32(delta + offset) >= 0;
          if ok { offset := ToInt32(delta + offset); }
        case SeekEnd =>
          offset := ToInt32(delta + fs.desc[ino].size);
      }
      pos := offset;
    }
  }
}
