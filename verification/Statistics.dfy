/** Usage figures computed from 64-bit file system counters. */
module Statistics {
  import opened Integers

  const TWO_64 := 0x1_0000_0000_0000_0000

  type Uint64 = x: int | 0 <= x < 0x1_0000_0000_0000_0000

  /** Go's conversion of a 64-bit pattern to a signed number. */
  function AsInt64(x: Uint64): int { if x <= MAX_INT64 then x else x - TWO_64 }

  function SubtractSaturating(a: Uint64, b: Uint64): Uint64 { if b >= a then 0 else a - b }

  function ToInt64Saturating(v: Uint64): int { if v > MAX_INT64 then MAX_INT64 else AsInt64(v) }

  /** Unsigned multiplication wraps; the test before it is meant to rule that out. */
  function MultiplyToInt64(a: Uint64, b: Uint64): int {
    if a == 0 || b == 0 then 0
    else if a > MAX_INT64 / b then MAX_INT64
    else AsInt64((a * b) % TWO_64)
  }

  function Min(a: int, b: int): int { if a <= b then a else b }

  lemma {:induction false} ProductFits(a: int, b: int, m: int)
    requires a > 0 && b > 0 && m >= 0
    ensures a > m / b <==> a * b > m
  {
    var q := m / b;
    assert m == q * b + m % b;
    if a > q {
      assert a * b >= (q + 1) * b == q * b + b;
    } else {
      assert a * b <= q * b;
    }
  }

  /** The product is exact up to the largest signed number and clamped there, for all inputs. */
  lemma {:induction false} MultiplyIsExact(a: Uint64, b: Uint64)
    ensures MultiplyToInt64(a, b) == Min(a * b, MAX_INT64)
    ensures ToInt64Saturating(a) == Min(a, MAX_INT64)
    ensures MAX_INT64 == 9223372036854775807
  {
    if a != 0 && b != 0 {
      ProductFits(a, b, MAX_INT64);
      assert a * b > 0;
    }
  }

  datatype Statfs = Statfs(blocks: Uint64, bfree: Uint64, bavail: Uint64, files: Uint64, ffree: Uint64, bsize: Uint64)

  datatype VolumeStats = VolumeStats(availableBytes: int, totalBytes: int, usedBytes: int,
                                     availableInodes: int, totalInodes: int, usedInodes: int)

  function GetVolumeStats(f: Statfs): VolumeStats {
    VolumeStats(MultiplyToInt64(f.bavail, f.bsize),
                MultiplyToInt64(f.blocks, f.bsize),
                MultiplyToInt64(SubtractSaturating(f.blocks, f.bfree), f.bsize),
                ToInt64Saturating(f.ffree),
                ToInt64Saturating(f.files),
                ToInt64Saturating(SubtractSaturating(f.files, f.ffree)))
  }

  lemma {:induction false} MultiplyMonotone(a: int, b: int, c: int)
    requires 0 <= a <= b && 0 <= c
    ensures a * c <= b * c
  {
  }

  /** Every figure, for all counters: the product or count itself, or the largest signed number if that is less. */
  lemma {:induction false} StatsAreExact(f: Statfs)
    ensures
      var v := GetVolumeStats(f);
      var usedBlocks := if f.bfree < f.blocks then f.blocks - f.bfree else 0;
      var usedFiles := if f.ffree < f.files then f.files - f.ffree else 0;
      && v.totalBytes == Min(f.blocks * f.bsize, MAX_INT64)
      && v.availableBytes == Min(f.bavail * f.bsize, MAX_INT64)
      && v.usedBytes == Min(usedBlocks * f.bsize, MAX_INT64)
      && v.totalInodes == Min(f.files, MAX_INT64)
      && v.availableInodes == Min(f.ffree, MAX_INT64)
      && v.usedInodes == Min(usedFiles, MAX_INT64)
  {
    hide MultiplyToInt64;
    var usedBlocks := SubtractSaturating(f.blocks, f.bfree);
    MultiplyIsExact(f.blocks, f.bsize);
    MultiplyIsExact(f.bavail, f.bsize);
    MultiplyIsExact(usedBlocks, f.bsize);
    MultiplyIsExact(f.files, 1);
    MultiplyIsExact(f.ffree, 1);
    MultiplyIsExact(SubtractSaturating(f.files, f.ffree), 1);
  }

  /**
   Used never exceeds total, for all counters. With consistent counters, used and
   available bytes together stay within total exactly if their sum is representable or
   one of them is nothing; used and free inodes add up to the total exactly if the total
   is representable or one of them is nothing.
   */
  lemma {:induction false} StatsAreConsistent(f: Statfs)
    ensures
      var v := GetVolumeStats(f);
      && 0 <= v.usedBytes <= v.totalBytes <= MAX_INT64
      && 0 <= v.usedInodes <= v.totalInodes <= MAX_INT64
      && (f.bavail <= f.bfree <= f.blocks ==>
            (v.usedBytes + v.availableBytes <= v.totalBytes <==> SumFits(f.blocks, f.bfree, f.bavail, f.bsize)))
      && (f.ffree <= f.files ==>
            (v.usedInodes + v.availableInodes == v.totalInodes <==>
               f.files <= MAX_INT64 || f.ffree == 0 || f.ffree == f.files))
  {
    hide MultiplyToInt64;
    BytesAreConsistent(f.blocks, f.bfree, f.bavail, f.bsize);
    MultiplyIsExact(f.files, 1);
    MultiplyIsExact(f.ffree, 1);
    MultiplyIsExact(SubtractSaturating(f.files, f.ffree), 1);
  }

  lemma {:induction false} BytesAreConsistent(blocks: Uint64, bfree: Uint64, bavail: Uint64, size: Uint64)
    ensures
      var used := MultiplyToInt64(SubtractSaturating(blocks, bfree), size);
      var total := MultiplyToInt64(blocks, size);
      && 0 <= used <= total <= MAX_INT64
      && (bavail <= bfree <= blocks ==>
            (used + MultiplyToInt64(bavail, size) <= total <==> SumFits(blocks, bfree, bavail, size)))
  {
    hide MultiplyToInt64;
    var used := SubtractSaturating(blocks, bfree);
    MultiplyIsExact(bavail, size);
    MultiplyIsExact(blocks, size);
    MultiplyIsExact(used, size);
    ProductsFit(blocks, used, bavail, size);
    ClampedSum(blocks * size, used * size, bavail * size);
  }

  lemma {:induction false} ProductsFit(blocks: int, used: int, avail: int, size: int)
    requires 0 <= used <= blocks && 0 <= avail && 0 <= size
    ensures 0 <= used * size <= blocks * size && 0 <= avail * size
    ensures used + avail <= blocks ==> used * size + avail * size <= blocks * size
  {
    MultiplyMonotone(0, used, size);
    MultiplyMonotone(used, blocks, size);
    MultiplyMonotone(0, avail, size);
    Distribute(used, avail, size);
    if used + avail <= blocks {
      MultiplyMonotone(used + avail, blocks, size);
    }
  }

  /** Clamping three figures at once. */
  lemma {:induction false} ClampedSum(total: int, used: int, avail: int)
    requires 0 <= used <= total && 0 <= avail
    ensures 0 <= Min(used, MAX_INT64) <= Min(total, MAX_INT64) <= MAX_INT64
    ensures
      used + avail <= total ==>
        (Min(used, MAX_INT64) + Min(avail, MAX_INT64) <= Min(total, MAX_INT64) <==>
           used + avail <= MAX_INT64 || used == 0 || avail == 0)
  {
  }

  /** Used and available bytes together are representable, or one of them is nothing. */
  predicate SumFits(blocks: Uint64, bfree: Uint64, bavail: Uint64, size: Uint64) {
    var used := SubtractSaturating(blocks, bfree);
    used * size + bavail * size <= MAX_INT64 || used * size == 0 || bavail * size == 0
  }

  lemma {:induction false} Distribute(a: int, b: int, c: int)
    ensures (a + b) * c == a * c + b * c
  {
  }

  /** In particular the sum stays within total whenever the total itself is representable. */
  lemma {:induction false} RepresentableTotalSuffices(f: Statfs)
    requires f.bavail <= f.bfree <= f.blocks && f.blocks * f.bsize <= MAX_INT64
    ensures SumFits(f.blocks, f.bfree, f.bavail, f.bsize)
  {
    var used := SubtractSaturating(f.blocks, f.bfree);
    MultiplyMonotone(used + f.bavail, f.blocks, f.bsize);
    Distribute(used, f.bavail, f.bsize);
  }

  /** Clamping breaks the sum once the total no longer fits: both parts can exceed what is reported. */
  lemma {:induction false} ClampedTotalBreaksSum()
    ensures
      var v := GetVolumeStats(Statfs(4, 2, 2, 0, 0, 0x4000_0000_0000_0000));
      v.usedBytes + v.availableBytes > v.totalBytes
  {
    MultiplyIsExact(4, 0x4000_0000_0000_0000);
    MultiplyIsExact(2, 0x4000_0000_0000_0000);
  }
}
