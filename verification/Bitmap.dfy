/**
 Bitmaps over bytes (src/lib/bitmap.c).

 The scan for two or more bits looks one bit past the end of the map, so the model keeps that byte
 too: `base` is the memory from the map's first byte on, of which the map is the first `len` bytes.
 */
module Bitmaps {

  /** 1 << k */
  function Mask(k: nat): bv8
    requires k < 8
  {
    match k
    case 0 => 0x01
    case 1 => 0x02
    case 2 => 0x04
    case 3 => 0x08
    case 4 => 0x10
    case 5 => 0x20
    case 6 => 0x40
    case 7 => 0x80
  }

  predicate BitOf(b: bv8, k: nat)
    requires k < 8
  {
    b & Mask(k) != 0
  }

  predicate BitAt(bytes: seq<bv8>, i: nat)
    requires i < 8 * |bytes|
  {
    BitOf(bytes[i / 8], i % 8)
  }

  /** The byte b with bit k set to value, as bitmap_set computes it. */
  function WithBit(b: bv8, k: nat, value: bool): bv8
    requires k < 8
  {
    if value then b | Mask(k) else b & !Mask(k)
  }

  lemma BitOfWithBit(b: bv8, k: nat, value: bool, j: nat)
    requires k < 8 && j < 8
    ensures BitOf(WithBit(b, k, value), j) == if j == k then value else BitOf(b, j)
  {
  }

  /** The first n bits of a stretch of memory. */
  function BitsOf(bytes: seq<bv8>, n: nat): (s: seq<bool>)
    requires n <= 8 * |bytes|
    ensures |s| == n
  {
    seq(n, i requires 0 <= i < n => BitAt(bytes, i))
  }

  /** One byte with one bit changed is the bit sequence with that bit changed. */
  lemma BytesWithBit(bytes: seq<bv8>, n: nat, i: nat, value: bool)
    requires i < n <= 8 * |bytes|
    ensures BitsOf(bytes[i / 8 := WithBit(bytes[i / 8], i % 8, value)], n) == BitsOf(bytes, n)[i := value]
  {
    hide Mask, BitOf, WithBit;
    var t := bytes[i / 8 := WithBit(bytes[i / 8], i % 8, value)];
    forall j | 0 <= j < n ensures BitsOf(t, n)[j] == BitsOf(bytes, n)[i := value][j] {
      BitOfWithBit(bytes[i / 8], i % 8, value, j % 8);
    }
  }

  /** count clear bits start at position s, below limit. */
  ghost predicate ClearRun(bits: seq<bool>, s: int, count: nat) {
    0 <= s && s + count <= |bits| && forall i :: s <= i < s + count ==> !bits[i]
  }

  /** r is the least start of count clear bits, or -1 if there is none. */
  ghost predicate FirstFit(bits: seq<bool>, count: nat, r: int) {
    if r == -1 then forall s :: !ClearRun(bits, s, count)
    else ClearRun(bits, r, count) && forall s :: 0 <= s < r ==> !ClearRun(bits, s, count)
  }

  /** The runs of count clear bits that end just before `next`, when the last n bits are the clear ones. */
  lemma RunEndingAt(bits: seq<bool>, first: int, next: int, n: nat, count: nat)
    requires 0 <= first < next <= |bits| && 0 < count && n <= next - first && n <= count
    requires forall i :: 0 <= i < first ==> bits[i]
    requires forall i :: next - n <= i < next ==> !bits[i]
    requires next - n == first || bits[next - n - 1]
    ensures ClearRun(bits, next - count, count) <==> n == count
  {
    assert n < next ==> bits[next - n - 1];
  }

  /**
   What the bit past the end does to a scan of a map of n bits: the answer is the map's own first
   fit unless the map has no fit, its last count - 1 bits are clear, and so is the bit that follows.
   */
  lemma ScanIsFirstFitIff(seen: seq<bool>, count: nat, r: int)
    requires |seen| > 0 && count > 0 && FirstFit(seen, count, r)
    ensures
      var bits := seen[..|seen| - 1];
      FirstFit(bits, count, r) <==> (exists s :: ClearRun(bits, s, count)) || !ClearRun(seen, |seen| - count, count)
  {
    var bits := seen[..|seen| - 1];
    forall s ensures ClearRun(seen, s, count) <==> ClearRun(bits, s, count) || (s == |seen| - count && ClearRun(seen, s, count)) {
    }
  }

  /** A set bit right after the map makes every scan exact. */
  lemma SentinelMakesScanExact(seen: seq<bool>, count: nat, r: int)
    requires |seen| > 0 && count > 0 && FirstFit(seen, count, r) && seen[|seen| - 1]
    ensures FirstFit(seen[..|seen| - 1], count, r)
  {
    ScanIsFirstFitIff(seen, count, r);
  }

  /** First fit has one answer. */
  lemma FirstFitIsUnique(bits: seq<bool>, count: nat, r: int, q: int)
    requires FirstFit(bits, count, r) && FirstFit(bits, count, q)
    ensures r == q
  {
  }

  class Bitmap {
    const base: array<bv8>
    const len: nat
    const offset: nat

    constructor (base: array<bv8>, len: nat, offset: nat)
      ensures this.base == base && this.len == len && this.offset == offset
    {
      this.base, this.len, this.offset := base, len, offset;
    }

    ghost predicate Valid() {
      len < base.Length
    }

    /** The bits of the map. */
    ghost function Bits(): seq<bool>
      reads base
      requires Valid()
    {
      BitsOf(base[..], 8 * len)
    }

    /** The bits the scan can see: those of the map and the one that follows it in memory. */
    ghost function Seen(): (s: seq<bool>)
      reads base
      requires Valid()
      ensures |s| == 8 * len + 1 && s == Bits() + [s[8 * len]]
    {
      BitsOf(base[..], 8 * len + 1)
    }

    /** bitmap_scan_check. */
    method ScanCheck(i: nat) returns (used: bool)
      requires Valid() && i <= 8 * len
      ensures used == Seen()[i]
    {
      assert base[..][i / 8] == base[i / 8];
      used := base[i / 8] & Mask(i % 8) != 0;
    }

    /** bitmap_test: the index is counted from `offset`. */
    method Test(index: nat) returns (used: bool)
      requires Valid() && offset <= index && (index - offset) / 8 < len
      ensures used == Bits()[index - offset]
    {
      var idx := index - offset;
      assert base[..][idx / 8] == base[idx / 8];
      used := base[idx / 8] & Mask(idx % 8) != 0;
    }

    /** bitmap_set: the index is counted from 0, whatever `offset` says. */
    method Set(i: nat, value: bool)
      requires Valid() && i < 8 * len
      modifies base
      ensures Seen() == old(Seen())[i := value] && Bits() == old(Bits())[i := value]
    {
      hide BitsOf, Mask, WithBit;
      ghost var was := base[..];
      base[i / 8] := WithBit(base[i / 8], i % 8, value);
      assert base[..] == was[i / 8 := WithBit(was[i / 8], i % 8, value)];
      BytesWithBit(was, 8 * len + 1, i, value);
      BytesWithBit(was, 8 * len, i, value);
    }

    /** The first half of bitmap_scan: a byte with a clear bit, then the clear bit in it. */
    method FirstClear() returns (r: nat)
      requires Valid() && exists i :: 0 <= i < 8 * len && !Bits()[i]
      ensures r < 8 * len && !Seen()[r] && forall i :: 0 <= i < r ==> Seen()[i]
    {
      hide BitsOf, Mask;
      ghost var seen := Seen();
      var byte: nat := 0;
      while byte < len
        invariant byte <= len && forall i :: 0 <= i < 8 * byte ==> seen[i]
      {
        var brk, i := false, 0;
        while i < 8
          invariant 0 <= i <= 8 && !brk && forall j :: 8 * byte <= j < 8 * byte + i ==> seen[j]
        {
          var used := ScanCheck(byte * 8 + i);
          if !used {
            brk := true;
            break;
          }
          i := i + 1;
        }
        if brk {
          break;
        }
        byte := byte + 1;
      }
      ghost var c :| 0 <= c < 8 * len && !Bits()[c];
      assert !seen[c] && byte < len;
      var bit: nat := 0;
      while true
        invariant bit < 8 && forall i :: 0 <= i < 8 * byte + bit ==> seen[i]
        invariant exists j :: 8 * byte + bit <= j < 8 * byte + 8 && !seen[j]
        decreases 8 - bit
      {
        var used := ScanCheck(byte * 8 + bit);
        if !used {
          break;
        }
        bit := bit + 1;
      }
      r := byte * 8 + bit;
    }

    /**
     bitmap_scan: the first start of `count` clear bits among those the scan can see. The map must
     have a clear bit: on a full one the source trips its assertion.
     */
    method Scan(count: nat) returns (r: int)
      requires Valid() && count > 0
      requires exists i :: 0 <= i < 8 * len && !Bits()[i]
      ensures FirstFit(Seen(), count, r)
    {
      hide BitsOf, Mask;
      ghost var seen := Seen();
      var first := FirstClear();
      assert forall s :: 0 <= s && s + count <= first + 1 && (count > 1 || s < first) ==> !ClearRun(seen, s, count) by {
        forall s | 0 <= s && s + count <= first + 1 && (count > 1 || s < first) ensures !ClearRun(seen, s, count) {
          assert seen[s];
        }
      }
      if count == 1 {
        return first;
      }
      r := -1;
      var left: nat, next: nat, n: nat := 8 * len - first, first + 1, 1;
      while left > 0
        invariant first < next && next + left == 8 * len + 1 && n < count && n <= next - first && r == -1
        invariant forall i :: next - n <= i < next ==> !seen[i]
        invariant next - n == first || seen[next - n - 1]
        invariant forall s :: 0 <= s && s + count <= next ==> !ClearRun(seen, s, count)
      {
        left := left - 1;
        var used := ScanCheck(next);
        if !used {
          n := n + 1;
        } else {
          n := 0;
        }
        RunEndingAt(seen, first, next + 1, n, count);
        if count == n {
          r := next - count + 1;
          break;
        }
        next := next + 1;
      }
    }
  }
}

/**
 The zone bitmap as balloc and bfree use it (src/fs/bmap.c). bitmap_make is given the offset
 firstdatazone - 1, which bitmap_test subtracts and bitmap_scan and bitmap_set ignore; since a full
 block trips the scan's assertion, only the first bitmap block ever matters.
 */
module ZoneMaps {
  import opened Bitmaps

  class ZoneMap {
    const bitmap: Bitmap
    const zones: nat

    constructor (bitmap: Bitmap, zones: nat)
      ensures this.bitmap == bitmap && this.zones == zones
    {
      this.bitmap, this.zones := bitmap, zones;
    }

    /** balloc: the number returned is the index of the bit. */
    method Balloc() returns (bit: nat)
      requires bitmap.Valid() && exists i :: 0 <= i < 8 * bitmap.len && i < zones && !bitmap.Bits()[i]
      modifies bitmap.base
      ensures bit < 8 * bitmap.len && bit < zones && FirstFit(old(bitmap.Bits()), 1, bit)
      ensures bitmap.Bits() == old(bitmap.Bits())[bit := true]
    {
      hide BitsOf;
      ghost var bits, seen := bitmap.Bits(), bitmap.Seen();
      ghost var c :| 0 <= c < 8 * bitmap.len && c < zones && !bits[c];
      assert ClearRun(seen, c, 1) && ClearRun(bits, c, 1);
      var r := bitmap.Scan(1);
      ScanIsFirstFitIff(seen, 1, r);
      bit := r;
      bitmap.Set(bit, true);
    }

    /** bfree: one bit is tested, another one cleared. */
    method Bfree(idx: nat)
      requires bitmap.Valid() && idx < zones && idx < 8 * bitmap.len
      requires bitmap.offset <= idx && bitmap.Bits()[idx - bitmap.offset]
      modifies bitmap.base
      ensures bitmap.Bits() == old(bitmap.Bits())[idx := false]
    {
      hide BitsOf;
      var used := bitmap.Test(idx);
      assert used;
      bitmap.Set(idx, false);
    }
  }

  /**
   Freeing what was just allocated passes bfree's assertion, which looks at another bit, exactly
   when the zone number is not below the offset; and then it restores the bitmap.
   */
  lemma AllocThenFreeIff(bits: seq<bool>, offset: nat, z: nat)
    requires z < |bits| && FirstFit(bits, 1, z)
    ensures (offset <= z && bits[z := true][z - offset]) <==> offset <= z
    ensures bits[z := true][z := false] == bits
  {
    if 0 < offset <= z {
      assert !ClearRun(bits, z - offset, 1);
    }
    assert ClearRun(bits, z, 1);
    assert bits[z := true][z := false] == bits;
  }
}
