/**
 Sizing the index: how many chunks of which size fit the given memory and disk, and where the
 header, the bitmap and the records lie in the mapped index.
 */
module FsSizing {
  import opened Common
  import opened FsModel
  import opened FsDisk

  /** The packed header and record: their fields in bytes. */
  const HEAD_SIZE: nat := 12 + 8 + 8 + 4 + 4 + 4
  const META_SIZE: nat := 1 + (20 + 8 + 4) + 4 + 4 + 1
  const ALIGN: nat := 4096
  const MIN_CHUNK: nat := 0x10_0000
  const MAX_CHUNK: nat := 0x800_0000
  const TWO64: nat := 0x1_0000_0000_0000_0000

  datatype Sizes = Sizes(chunkNum: nat, chunkSize: nat, bitmapSize: nat, diskSize: nat, mmapSize: nat)

  function AlignDown(n: nat): nat {
    n - n % ALIGN
  }

  /** Masking the low twelve bits away rounds a 32-bit word down to a multiple of 4096. */
  lemma AlignDownByMask(n: bv32)
    ensures n & !(4096 - 1) == n - n % 4096
  {
  }

  function Limit(n: nat): nat {
    if n < MIN_CHUNK then MIN_CHUNK else if n > MAX_CHUNK then MAX_CHUNK else n
  }

  predicate Accepted(z: Sizes, disk: nat, memory: nat) {
    && z.chunkNum != 0 && z.chunkSize != 0 && z.bitmapSize != 0 && z.diskSize != 0 && z.mmapSize != 0
    && z.diskSize <= disk && z.mmapSize <= memory
  }

  /** The number of records for which there is memory, in 32 bits; the disk is divided by it. */
  function Records(memory: nat): nat
    requires memory >= HEAD_SIZE
  {
    (memory - HEAD_SIZE) / META_SIZE % TWO32
  }

  /** Memory that passes the check before sizing and does not make the sizing divide by zero. */
  predicate Divides(memory: nat) {
    HEAD_SIZE + 1 + META_SIZE < memory && Records(memory) != 0
  }

  /** Chunk counts and sizes are 32 bits wide, the two totals 64. */
  function Sizing(disk: nat, memory: nat): Sizes
    requires Divides(memory)
  {
    var chunkSize := Limit(AlignDown(disk / Records(memory) % TWO32));
    var chunkNum := disk / chunkSize % TWO32;
    var bitmapSize := (chunkNum + 8 - 1) % TWO32 / 8;
    Sizes(chunkNum, chunkSize, bitmapSize, chunkNum * chunkSize, HEAD_SIZE + bitmapSize + chunkNum * META_SIZE)
  }

  /** None where the source divides by zero. */
  method InitFSCalcVariable(disk: nat, memory: nat) returns (r: Option<(bool, Sizes)>)
    requires disk < TWO64 && HEAD_SIZE + 1 + META_SIZE < memory < TWO64
    ensures r.Some? <==> Divides(memory)
    ensures r.Some? ==>
              r.value.1 == Sizing(disk, memory) && (r.value.0 <==> Accepted(Sizing(disk, memory), disk, memory))
  {
    var chunkNum := (memory - HEAD_SIZE) / META_SIZE % TWO32;
    if chunkNum == 0 {
      return None;
    }
    var chunkSize := disk / chunkNum % TWO32;
    chunkSize := chunkSize - chunkSize % ALIGN;
    if chunkSize < MIN_CHUNK {
      chunkSize := MIN_CHUNK;
    }
    if chunkSize > MAX_CHUNK {
      chunkSize := MAX_CHUNK;
    }
    chunkNum := disk / chunkSize % TWO32;
    var bitmapSize := (chunkNum + 8 - 1) % TWO32 / 8;
    var diskSize := chunkNum * chunkSize;
    var mmapSize := HEAD_SIZE + bitmapSize + chunkNum * META_SIZE;
    var ok := !(chunkNum == 0 || chunkSize == 0 || bitmapSize == 0 || diskSize == 0 || mmapSize == 0
                || diskSize > disk || mmapSize > memory);
    r := Some((ok, Sizes(chunkNum, chunkSize, bitmapSize, diskSize, mmapSize)));
  }

  /** The memory holds k times 2^32 records, and not one more. */
  predicate HoldsTimes(memory: nat, k: nat) {
    k > 0 && HEAD_SIZE + k * TWO32 * META_SIZE <= memory < HEAD_SIZE + k * TWO32 * META_SIZE + META_SIZE
  }

  /** Memory that passes the check makes the sizing divide by zero exactly when it holds a multiple of 2^32 records. */
  lemma ZeroDivisorExactly(memory: nat)
    requires HEAD_SIZE + 1 + META_SIZE < memory
    ensures !Divides(memory) <==> exists k: nat :: HoldsTimes(memory, k)
  {
    var rest := memory - HEAD_SIZE;
    var n := rest / META_SIZE;
    DivMod(rest, META_SIZE);
    DivMod(n, TWO32);
    if n % TWO32 == 0 {
      assert HoldsTimes(memory, n / TWO32);
    }
    if k: nat :| HoldsTimes(memory, k) {
      DivUnique(rest, META_SIZE, k * TWO32, rest - k * TWO32 * META_SIZE);
      DivUnique(n, TWO32, k, 0);
    }
  }

  /** An input: memory for 2^32 records. */
  lemma ZeroDivisor()
    ensures var memory := HEAD_SIZE + TWO32 * META_SIZE;
            HEAD_SIZE + 1 + META_SIZE < memory < TWO64 && !Divides(memory)
  {
    ZeroDivisorExactly(HEAD_SIZE + TWO32 * META_SIZE);
    assert HoldsTimes(HEAD_SIZE + TWO32 * META_SIZE, 1);
  }

  /** An input: a disk of 2^32 + 1 chunks of the least size, on which one chunk is used and 2^32 are not. */
  lemma AlmostAllWasted()
    ensures var disk, memory := TWO32 * MIN_CHUNK + MIN_CHUNK, HEAD_SIZE + 0xFFFF_FFFF * META_SIZE;
            && disk < TWO64 && memory < TWO64 && Divides(memory) && Accepted(Sizing(disk, memory), disk, memory)
            && Sizing(disk, memory).chunkNum == 1 && disk - Sizing(disk, memory).diskSize == TWO32 * MIN_CHUNK
  {
    var disk := TWO32 * MIN_CHUNK + MIN_CHUNK;
    DivUnique(0xFFFF_FFFF * META_SIZE, META_SIZE, 0xFFFF_FFFF, 0);
    DivUnique(disk, 0xFFFF_FFFF, MIN_CHUNK, 2 * MIN_CHUNK);
    DivUnique(disk, MIN_CHUNK, TWO32 + 1, 0);
  }

  lemma LimitAligned(n: nat)
    ensures Limit(AlignDown(n)) % ALIGN == 0 && MIN_CHUNK <= Limit(AlignDown(n)) <= MAX_CHUNK
  {
  }

  /** The chunk size is aligned and within its limits whatever the inputs are. */
  lemma ChunkSizeBounds(disk: nat, memory: nat)
    requires Divides(memory)
    ensures var c := Sizing(disk, memory).chunkSize;
            c % ALIGN == 0 && MIN_CHUNK <= c <= MAX_CHUNK
  {
    hide Limit, AlignDown;
    LimitAligned(disk / Records(memory) % TWO32);
  }

  /**
   The chunk size is the greatest multiple of 4096 with which every record can have a chunk of the disk, as far as that
   lies between the two limits and the quotient is not cut to 32 bits.
   */
  lemma ChunkSizeGreatest(disk: nat, memory: nat, k: nat)
    requires Divides(memory) && disk < TWO32 * Records(memory)
    ensures var c, n := Sizing(disk, memory).chunkSize, Records(memory);
            && (disk < 0x10_0000 * n ==> c == 0x10_0000)
            && (0x800_0000 * n <= disk ==> c == 0x800_0000)
            && (0x10_0000 * n <= disk < 0x800_0000 * n ==>
                  c % 4096 == 0 && c * n <= disk && (k % 4096 == 0 && k * n <= disk ==> k <= c))
  {
    hide Sizing, Records, Divides, Limit, AlignDown;
    RecordsSome(memory);
    var n := Records(memory);
    DivMod(disk, n);
    InReach(disk / n, n, disk, TWO32);
    SizeOf(disk, memory, disk / n);
    GreatestOf(disk, n, disk / n, k);
  }

  lemma RecordsSome(memory: nat)
    requires Divides(memory)
    ensures memory >= HEAD_SIZE && Records(memory) > 0
  {}

  lemma GreatestOf(disk: nat, n: nat, q: nat, k: nat)
    requires n > 0 && disk >= n * q && disk - n * q < n
    ensures var c := Limit(AlignDown(q));
            && (disk < MIN_CHUNK * n ==> c == MIN_CHUNK)
            && (MAX_CHUNK * n <= disk ==> c == MAX_CHUNK)
            && (MIN_CHUNK * n <= disk < MAX_CHUNK * n ==>
                  c % 4096 == 0 && c * n <= disk && (k % 4096 == 0 && k * n <= disk ==> k <= c))
  {
    hide AlignDown;
    InReach(q, n, disk, MIN_CHUNK);
    InReach(q, n, disk, MAX_CHUNK);
    InReach(q, n, disk, k);
    InReach(q, n, disk, AlignDown(q));
    Aligned(q, k);
  }

  /** A multiple of n is in reach exactly up to the quotient. */
  lemma InReach(q: nat, n: nat, disk: nat, k: nat)
    requires n > 0 && disk >= n * q && disk - n * q < n
    ensures k * n <= disk <==> k <= q
  {
    assert n * q == q * n;
    if k <= q {
      assert q * n == k * n + (q - k) * n;
    } else {
      assert k * n == q * n + (k - q) * n;
      MulPositive(k - q, n);
    }
  }

  lemma Aligned(q: nat, k: nat)
    ensures AlignDown(q) % 4096 == 0 && AlignDown(q) <= q && (k % 4096 == 0 && k <= q ==> k <= AlignDown(q))
    ensures MIN_CHUNK <= q ==> MIN_CHUNK <= AlignDown(q)
    ensures MAX_CHUNK <= q <==> MAX_CHUNK <= AlignDown(q)
  {}

  lemma SizeOf(disk: nat, memory: nat, q: nat)
    requires Divides(memory) && q == disk / Records(memory) && q < TWO32
    ensures Sizing(disk, memory).chunkSize == Limit(AlignDown(q))
  {
    hide Records, Divides, Limit, AlignDown;
    RecordsSome(memory);
    Uncut(q);
  }

  /** Sizes are accepted exactly if there is a chunk, the bitmap does not wrap to nothing, and the index fits. */
  lemma AcceptedExactly(disk: nat, memory: nat)
    requires Divides(memory)
    ensures var z := Sizing(disk, memory);
            Accepted(z, disk, memory) <==> 0 < z.chunkNum <= TWO32 - 8 && z.mmapSize <= memory
  {
    hide Sizing, Divides;
    var z := Sizing(disk, memory);
    SizingParts(disk, memory);
    LeftOver(disk, z.chunkSize, z.chunkNum);
    if z.chunkNum > 0 {
      MulPositive(z.chunkNum, z.chunkSize);
    }
  }

  /** An input: 1 GiB of disk and memory for 100 records. */
  lemma SizesOfOneGiB()
    ensures Divides(4281) && Records(4281) == 100
    ensures var z := Sizing(0x4000_0000, 4281);
            z == Sizes(100, 2621 * 4096, 13, 100 * 2621 * 4096, 4253) && Accepted(z, 0x4000_0000, 4281)
  {
    DivUnique(4241, META_SIZE, 100, 41);
    DivUnique(0x4000_0000, 100, 10737418, 24);
    DivUnique(10737418, 4096, 2621, 1802);
    DivUnique(0x4000_0000, 2621 * 4096, 100, 180224);
  }

  /** What stays over when n of the q whole chunks are used. */
  lemma OverOf(disk: nat, c: nat, q: nat, r: nat, n: nat)
    requires c > 0 && disk == c * q + r && r < c && n <= q
    ensures 0 <= n * c <= disk && (disk - n * c < c <==> n == q)
  {
    var cut := q - n;
    assert c * q == n * c + cut * c;
    if cut >= 1 {
      MulPositive(cut, c);
    }
  }

  lemma Uncut(q: nat)
    ensures q % TWO32 <= q && (q % TWO32 == q <==> q < TWO32)
  {
  }

  /** Less than a chunk is left over exactly when the quotient was not cut to 32 bits. */
  lemma LeftOver(disk: nat, c: nat, n: nat)
    requires c > 0 && n == disk / c % TWO32
    ensures 0 <= n * c <= disk && (disk - n * c < c <==> disk / c < TWO32)
  {
    DivMod(disk, c);
    Uncut(disk / c);
    OverOf(disk, c, disk / c, disk % c, n);
  }

  lemma SizingParts(disk: nat, memory: nat)
    requires Divides(memory)
    ensures var z := Sizing(disk, memory);
            && z.chunkSize > 0 && z.chunkNum == disk / z.chunkSize % TWO32
            && z.bitmapSize == (z.chunkNum + 8 - 1) % TWO32 / 8 && z.diskSize == z.chunkNum * z.chunkSize
            && z.mmapSize == HEAD_SIZE + z.bitmapSize + z.chunkNum * META_SIZE
  {
    hide Limit, AlignDown;
    ChunkSizeBounds(disk, memory);
  }

  /**
   Accepted sizes: less than one chunk of the disk stays unused exactly when the chunk count was not
   cut to 32 bits, and the bitmap has a bit for every chunk and less than a byte to spare.
   */
  lemma AcceptedSizes(disk: nat, memory: nat)
    requires Divides(memory)
    requires Accepted(Sizing(disk, memory), disk, memory)
    ensures var z := Sizing(disk, memory);
            && z.diskSize == z.chunkNum * z.chunkSize <= disk
            && (disk - z.diskSize < z.chunkSize <==> disk / z.chunkSize < TWO32)
            && z.chunkNum <= 8 * z.bitmapSize < z.chunkNum + 8
            && z.mmapSize == HEAD_SIZE + z.bitmapSize + z.chunkNum * META_SIZE <= memory
  {
    hide Sizing, Divides;
    var z := Sizing(disk, memory);
    SizingParts(disk, memory);
    BitForEach(z.chunkNum);
    LeftOver(disk, z.chunkSize, z.chunkNum);
  }

  /** The round-up to whole bytes, unless it wraps to none. */
  lemma BitForEach(n: nat)
    requires n < TWO32
    ensures var bytes := (n + 8 - 1) % TWO32 / 8;
            bytes != 0 ==> n <= 8 * bytes < n + 8
  {
  }

  // ----- Where things lie in the mapped index ---------------------------------------------------

  function BitmapPtr(base: nat): nat {
    base + HEAD_SIZE
  }

  function MetaPoolPtr(base: nat, bitmapSize: nat): nat {
    BitmapPtr(base) + bitmapSize
  }

  function CalcMetaInfoPtr(metaPool: nat, chunkid: nat): nat {
    metaPool + chunkid * META_SIZE
  }

  /** A null pointer, here None, has the invalid id. */
  function CalcChunkid(metaPool: nat, ptr: Option<nat>): nat
    requires ptr.Some? ==> ptr.value >= metaPool
  {
    if ptr.None? then INVALID_CHUNKID else (ptr.value - metaPool) / META_SIZE % TWO32
  }

  /** A chunk id turned into a record pointer and back is itself. */
  lemma ChunkidRoundTrip(metaPool: nat, chunkid: nat)
    requires chunkid < TWO32
    ensures CalcChunkid(metaPool, Some(CalcMetaInfoPtr(metaPool, chunkid))) == chunkid
  {
    DivUnique(chunkid * META_SIZE, META_SIZE, chunkid, 0);
  }

  /**
   Header, bitmap and records follow each other without a gap and end where the mapping ends; every record and every
   chunk lies inside, and no two overlap.
   */
  lemma IndexIsTiled(base: nat, disk: nat, memory: nat, c: nat, e: nat)
    requires Divides(memory) && Accepted(Sizing(disk, memory), disk, memory)
    requires c <= e < Sizing(disk, memory).chunkNum
    ensures var z := Sizing(disk, memory);
            var pool := MetaPoolPtr(base, z.bitmapSize);
            && CalcMetaInfoPtr(pool, 0) == base + HEAD_SIZE + z.bitmapSize
            && CalcMetaInfoPtr(pool, z.chunkNum) == base + z.mmapSize
            && z.mmapSize <= memory
            && CalcMetaInfoPtr(pool, e) + META_SIZE <= base + z.mmapSize
            && e * z.chunkSize + z.chunkSize <= z.diskSize
            && (c < e ==>
                  && CalcMetaInfoPtr(pool, c) + META_SIZE <= CalcMetaInfoPtr(pool, e)
                  && c * z.chunkSize + z.chunkSize <= e * z.chunkSize)
  {
    var z := Sizing(disk, memory);
    AcceptedSizes(disk, memory);
    if c < e {
      ChunksApart(z.chunkSize, c, e);
    }
    ChunkFits(z.chunkSize, z.chunkNum, e);
  }
}
