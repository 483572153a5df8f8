/** The fixed-block memory pool of qf_mem.c.  `link` is the word at the start of each
    block, which holds the free-list link while the block is free and belongs to the
    client while it is allocated. */
module MemPool {
  import opened Basics
  import opened Arith
  import opened ListSpec

  type Addr = nat

  /** The k-th block. */
  ghost function Block(start: Addr, blockSize: nat, k: nat): Addr {
    start + k * blockSize
  }

  /** The blocks of a pool, in address order. */
  ghost function Blocks(start: Addr, blockSize: nat, n: nat): (b: seq<Addr>)
    ensures |b| == n
    ensures forall k :: 0 <= k < n ==> b[k] == Block(start, blockSize, k)
  {
    if n == 0 then [] else Blocks(start, blockSize, n - 1) + [Block(start, blockSize, n - 1)]
  }

  /** Blocks do not overlap. */
  lemma BlocksApart(start: Addr, blockSize: nat, j: nat, k: nat)
    requires j < k
    ensures Block(start, blockSize, j) + blockSize <= Block(start, blockSize, k)
  {
    assert Block(start, blockSize, k) - Block(start, blockSize, j) == (k - j) * blockSize;
    if blockSize > 0 {
      MulAtLeast(k - j, blockSize);
    }
  }

  /** Every block is either free, once, or taken. */
  ghost predicate Partition(blocks: seq<Addr>, free: seq<Addr>, taken: set<Addr>) {
    && NoDup(free)
    && (forall a :: a in blocks <==> a in free || a in taken)
    && (forall a <- free :: a !in taken)
    && |free| + |taken| == |blocks|
  }

  lemma PartitionTake(blocks: seq<Addr>, free: seq<Addr>, taken: set<Addr>)
    requires Partition(blocks, free, taken) && free != []
    ensures Partition(blocks, free[1..], taken + {free[0]}) && free[0] !in taken
  {
    assert free == [free[0]] + free[1..];
    assert free[0] in free;
  }

  lemma PartitionReturn(blocks: seq<Addr>, free: seq<Addr>, taken: set<Addr>, b: Addr)
    requires Partition(blocks, free, taken) && b in taken
    ensures Partition(blocks, [b] + free, taken - {b}) && |free| < |blocks|
  {
    assert |taken - {b}| == |taken| - 1;
  }

  /** Every block lies between the first and the last. */
  lemma BlocksInRange(start: Addr, blockSize: nat, n: nat)
    requires n > 0
    ensures forall a <- Blocks(start, blockSize, n) :: start <= a <= Block(start, blockSize, n - 1)
  {
    forall a | a in Blocks(start, blockSize, n) ensures start <= a <= Block(start, blockSize, n - 1) {
      var k :| 0 <= k < n && Blocks(start, blockSize, n)[k] == a;
      if k < n - 1 {
        BlocksApart(start, blockSize, k, n - 1);
      }
      if 0 < k {
        BlocksApart(start, blockSize, 0, k);
      }
    }
  }

  lemma BlocksNoDup(start: Addr, blockSize: nat, n: nat)
    requires blockSize > 0
    ensures NoDup(Blocks(start, blockSize, n))
  {
    forall j, k | 0 <= j < k < n ensures Blocks(start, blockSize, n)[j] != Blocks(start, blockSize, n)[k] {
      BlocksApart(start, blockSize, j, k);
    }
  }

  // ------------------------------------------------------------------
  // The block size, computed in QMPoolSize

  /** `me->blockSize` after k rounds of the rounding loop. */
  function Rounding(word: nat, range: nat, k: nat): nat
    requires range > 0
  {
    if k == 0 then word else (Rounding(word, range, k - 1) + word) % range
  }

  /** The loop ends after k rounds. */
  ghost predicate EndsAfter(size: nat, word: nat, range: nat, k: nat)
    requires range > 0
  {
    Rounding(word, range, k) >= size % range && forall j :: 0 <= j < k ==> Rounding(word, range, j) < size % range
  }

  /** Until it wraps, the loop counts in multiples of the link size. */
  lemma {:induction false} RoundingCounts(word: nat, range: nat, k: nat)
    requires 0 < word && (k + 1) * word < range
    ensures Rounding(word, range, k) == (k + 1) * word
  {
    if k > 0 {
      MulAtLeast(1, word);
      assert k * word + word == (k + 1) * word;
      RoundingCounts(word, range, k - 1);
      DivModUnique((k + 1) * word, range, 0, (k + 1) * word);
    }
  }

  /** It never leaves the multiples of the link size below the range. */
  lemma {:induction false} RoundingStaysBelow(word: nat, range: nat, k: nat)
    requires 0 < word < range && range % word == 0
    ensures Rounding(word, range, k) % word == 0 && Rounding(word, range, k) <= range - word
  {
    if k == 0 {
      DivModUnique(word, word, 1, 0);
      MultipleBelow(word, range, word);
    } else {
      RoundingStaysBelow(word, range, k - 1);
      NextMultiple(Rounding(word, range, k - 1), word, range);
    }
  }

  lemma NextMultiple(x: nat, word: nat, range: nat)
    requires 0 < word < range && range % word == 0 && x % word == 0 && x <= range - word
    ensures (x + word) % range % word == 0 && (x + word) % range <= range - word
  {
    if x + word < range {
      DivModUnique(x + word, range, 0, x + word);
      DivModUnique(x + word, word, x / word + 1, 0);
      MultipleBelow(x + word, range, word);
    } else {
      DivModUnique(x + word, range, 1, 0);
      DivModUnique(0, word, 0, 0);
    }
  }

  /** Two multiples that differ are at least a word apart. */
  lemma MultipleBelow(x: nat, y: nat, word: nat)
    requires word > 0 && x % word == 0 && y % word == 0 && x < y
    ensures x <= y - word
  {
    var a, b := x / word, y / word;
    assert x == a * word && y == b * word;
    assert y - x == (b - a) * word;
    FactorAbove(b, a, word);
    MulAtLeast(b - a, word);
  }

  /** The rounding loop ends if and only if the truncated size leaves room for one more
      link in QMPoolSize. */
  lemma RoundingEnds(size: nat, word: nat, range: nat)
    requires 0 < word < range && range % word == 0
    ensures (exists k: nat :: Rounding(word, range, k) >= size % range) <==> size % range <= range - word
  {
    var s := size % range;
    if s <= range - word {
      var n := RoundUp(s, word) / word;
      RoundUpFits(s, word, range);
      RoundingCounts(word, range, n - 1);
      assert Rounding(word, range, n - 1) >= s;
    } else {
      forall k: nat ensures Rounding(word, range, k) < s {
        RoundingStaysBelow(word, range, k);
      }
    }
  }

  lemma RoundUpFits(s: nat, word: nat, range: nat)
    requires 0 < word < range && range % word == 0 && s <= range - word
    ensures s <= RoundUp(s, word) < range && RoundUp(s, word) >= word
    ensures RoundUp(s, word) == RoundUp(s, word) / word * word
  {
    var n := range / word;
    assert range == n * word;
    assert (n - 1) * word == range - word;
    FactorAbove(n, 1, word);
    RoundUpIsLeast(s, word, n - 1);
    RoundUpAtLeast(s, word);
  }

  lemma RoundUpAtLeast(s: nat, word: nat)
    requires word > 0
    ensures RoundUp(s, word) >= word
  {
    if s > word {
      var q := (s + word - 1) / word;
      assert s + word - 1 == q * word + (s + word - 1) % word;
      FactorAbove(q, 0, word);
      MulAtLeast(q, word);
    }
  }

  /** The block size is the least sufficient multiple of the link size if and only if the
      requested size, with one more link, fits QMPoolSize. */
  lemma RoundingIsExact(size: nat, word: nat, range: nat)
    requires 0 < word < range && range % word == 0
    ensures size % range <= range - word && RoundUp(size % range, word) == RoundUp(size, word)
            <==> size <= range - word
  {
    if size < range {
      DivModUnique(size, range, 0, size);
    } else if size % range <= range - word {
      RoundUpFits(size % range, word, range);
      RoundUpCovers(size, word);
    }
  }

  lemma RoundUpCovers(size: nat, word: nat)
    requires word > 0
    ensures RoundUp(size, word) >= size
  {
    if size > word {
      var x := size + word - 1;
      assert x == x / word * word + x % word;
    }
  }

  /** With 4-byte links and a 16-bit QMPoolSize the loop never ends for a size of 65534,
      and a size of 65540 gives blocks of 4 bytes. */
  lemma RoundingFails()
    ensures forall k: nat :: Rounding(4, 0x1_0000, k) < 65534 % 0x1_0000
    ensures EndsAfter(65540, 4, 0x1_0000, 0) && Rounding(4, 0x1_0000, 0) == 4 < 65540
  {
    forall k: nat ensures Rounding(4, 0x1_0000, k) < 65534 {
      RoundingStaysBelow(4, 0x1_0000, k);
    }
  }

  /** Round the block size up without division (qf_mem.c:106-112).  For any other size the
      source does not return. */
  method RoundBlock(size: nat, word: nat, range: nat) returns (bs: nat, nblocks: nat)
    requires 0 < word < range && range % word == 0
    requires size % range <= range - word
    ensures bs == RoundUp(size % range, word) == nblocks * word && nblocks >= 1
    ensures EndsAfter(size, word, range, nblocks - 1) && bs == Rounding(word, range, nblocks - 1)
  {
    var s := size % range;
    bs := word;
    nblocks := 1;
    while bs < s
      invariant bs == nblocks * word == Rounding(word, range, nblocks - 1) && nblocks >= 1
      invariant bs == word || bs < s + word
      invariant forall j :: 0 <= j < nblocks - 1 ==> Rounding(word, range, j) < s
      decreases s - bs
    {
      DivModUnique(bs + word, range, 0, bs + word);
      bs := (bs + word) % range;
      nblocks := nblocks + 1;
    }
    RoundUpUnique(s, word, nblocks);
  }

  /** Chain all blocks together in a free list (qf_mem.c:118-130).  The counter of
      type QMPoolCtr may wrap, the chain does not. */
  method ChainBlocks(poolSto: Addr, poolSize: nat, bs: nat, nblocks: nat, word: nat, range: nat)
    returns (nTot: nat, link: map<Addr, Option<Addr>>, fb: Addr, ghost n: nat)
    requires 0 < bs <= poolSize && bs == nblocks * word && range > 1
    ensures n == poolSize / bs && n > 0 && fb == Block(poolSto, bs, n - 1)
    ensures Chained(link, Blocks(poolSto, bs, n))
    ensures nTot < range && (n < range <==> nTot == n)
  {
    var left := poolSize - bs;
    nTot, n := 1, 1;
    fb := poolSto;
    link := map[];
    while left >= bs
      invariant 0 <= left && poolSize == left + (fb - poolSto) + bs && n >= 1
      invariant fb == Block(poolSto, bs, n - 1)
      invariant forall k :: 0 <= k < n - 1 ==> Leads(link, poolSto, bs, k)
      invariant nTot < range && (n < range <==> nTot == n)
      decreases left
    {
      NotEarlier(poolSto, bs, n - 1);
      ghost var before := link;
      link := link[fb := Some(fb + nblocks * word)];
      forall k | 0 <= k < n ensures Leads(link, poolSto, bs, k) {
        assert k < n - 1 ==> Leads(before, poolSto, bs, k);
      }
      fb := fb + nblocks * word;
      left := left - bs;
      nTot := if nTot + 1 == range then 0 else nTot + 1;
      n := n + 1;
    }
    NotEarlier(poolSto, bs, n - 1);
    ghost var before := link;
    link := link[fb := None];
    assert (n - 1) * bs + bs == n * bs;
    DivModUnique(poolSize, bs, n, left);
    var blocks := Blocks(poolSto, bs, n);
    forall i | 0 <= i < n ensures LinkedAt(link, blocks, i) {
      assert i < n - 1 ==> Leads(before, poolSto, bs, i);
    }
  }

  ghost predicate Leads(link: map<Addr, Option<Addr>>, start: Addr, bs: nat, k: nat) {
    Block(start, bs, k) in link && link[Block(start, bs, k)] == Some(Block(start, bs, k + 1))
  }

  lemma NotEarlier(start: Addr, bs: nat, n: nat)
    requires bs > 0
    ensures forall k: nat :: k < n ==> Block(start, bs, k) != Block(start, bs, n)
    ensures Block(start, bs, n) + bs == Block(start, bs, n + 1)
  {
    forall k: nat | k < n ensures Block(start, bs, k) != Block(start, bs, n) {
      BlocksApart(start, bs, k, n);
    }
  }

  /** Is a block handed out?  The margin is compared after truncation to QMPoolCtr. */
  lemma GrantsMeansMoreThanMargin(nFree: nat, margin: nat, range: nat)
    requires nFree < range
    ensures (Grants(nFree, margin, range) <==> nFree > margin) <==> margin < range || nFree <= margin % range
  {
    if margin < range {
      DivModUnique(margin, range, 0, margin);
    }
  }

  class QMPool {
    /** The number of values of QMPoolCtr. */
    const range: nat
    var freeHead: Option<Addr>
    var link: map<Addr, Option<Addr>>
    var start: Addr
    var end: Addr
    var blockSize: nat
    var nTot: nat
    var nFree: nat
    var nMin: nat

    /** All blocks, the free list in order, the blocks handed out, every value nFree has had. */
    ghost var blocks: seq<Addr>
    ghost var free: seq<Addr>
    ghost var taken: set<Addr>
    ghost var history: seq<nat>

    ghost predicate Valid()
      reads this
    {
      && |blocks| == nTot < range
      && (forall a <- blocks :: start <= a <= end)
      && Partition(blocks, free, taken)
      && |free| == nFree
      && freeHead == At(free, 0)
      && Chained(link, free)
      && LowWater(history, nFree, nMin)
    }

    /** QMPool_init.  `word` is sizeof(QFreeBlock), `sizeRange` and `range` the numbers of
        values of QMPoolSize and QMPoolCtr; a pool too small for one rounded block is
        assertion 110.  The counters are exact if and only if the blocks can be counted. */
    constructor (poolSto: Addr, poolSize: nat, size: nat, word: nat, sizeRange: nat, range: nat)
      requires 0 < word < sizeRange && sizeRange % word == 0 && range > 1
      requires size % sizeRange <= sizeRange - word
      requires poolSize >= RoundUp(size % sizeRange, word)
      ensures blockSize == RoundUp(size % sizeRange, word) > 0 && start == poolSto && this.range == range
      ensures blocks == free == Blocks(poolSto, blockSize, poolSize / blockSize) && taken == {}
      ensures Chained(link, blocks) && freeHead == Some(poolSto)
      ensures Valid() <==> poolSize / blockSize < range
    {
      RoundUpAtLeast(size % sizeRange, word);
      var bs, nblocks := RoundBlock(size, word, sizeRange);
      ghost var n;
      var tot, lnk, last;
      tot, lnk, last, n := ChainBlocks(poolSto, poolSize, bs, nblocks, word, range);
      this.range := range;
      freeHead := Some(poolSto);
      link := lnk;
      blockSize := bs;
      nTot, nFree, nMin := tot, tot, tot;
      start, end := poolSto, last;
      blocks, free, taken, history := Blocks(poolSto, bs, n), Blocks(poolSto, bs, n), {}, [tot];
      BlocksNoDup(poolSto, bs, n);
      BlocksInRange(poolSto, bs, n);
    }

    /** One block fewer: the free count and its low-water mark. */
    method CountTaken()
      requires nFree > 0 && LowWater(history, nFree, nMin)
      modifies `nFree, `nMin, `history
      ensures nFree == old(nFree) - 1 && history == old(history) + [nFree] && LowWater(history, nFree, nMin)
    {
      LowWaterStep(history, nFree, nMin, nFree - 1);
      nFree := nFree - 1;
      if nFree == 0 {
        nMin := 0;
      } else if nMin > nFree {
        nMin := nFree;
      }
      history := history + [nFree];
    }

    /** QMPool_get. */
    method Get(margin: nat) returns (b: Option<Addr>)
      requires Valid()
      modifies this
      ensures Valid()
      ensures blocks == old(blocks)
      ensures b == if Grants(old(nFree), margin, range) then Some(old(free)[0]) else None
      ensures b.Some? ==> b.value !in old(taken) && taken == old(taken) + {b.value} && free == old(free)[1..]
      ensures b.None? ==> taken == old(taken) && free == old(free)
    {
      if nFree > margin % range {
        // assertion 310
        assert freeHead != None;
        var fb := freeHead.value;
        ChainedTail(link, free);
        PartitionTake(blocks, free, taken);
        var fbNext := link[fb];
        CountTaken();
        // assertions 320 and 330
        assert nFree == 0 ==> fbNext == None;
        assert nFree > 0 ==> free[1] in blocks && fbNext.Some? && start <= fbNext.value <= end;
        freeHead := fbNext;
        free, taken := free[1..], taken + {fb};
        b := Some(fb);
      } else {
        b := None;
      }
    }

    /** QMPool_put of a block handed out by this pool; precondition 200 then holds. */
    method Put(b: Addr)
      requires Valid() && b in taken
      modifies this
      ensures Valid()
      ensures blocks == old(blocks)
      ensures free == [b] + old(free) && taken == old(taken) - {b}
    {
      // precondition 200
      PartitionReturn(blocks, free, taken, b);
      assert nFree < nTot && start <= b <= end;
      LowWaterStep(history, nFree, nMin, nFree + 1);
      ChainedFrame(link, link[b := freeHead], free);
      link := link[b := freeHead];
      ChainedPrepend(link, b, free);
      freeHead := Some(b);
      nFree := nFree + 1;
      free, taken, history := [b] + free, taken - {b}, history + [nFree];
    }

    /** A client may write anything into a block it holds. */
    method Write(b: Addr, word: Option<Addr>)
      requires Valid() && b in taken
      modifies this`link
      ensures Valid()
    {
      ChainedFrame(link, link[b := word], free);
      link := link[b := word];
    }
  }

  /** The least positive multiple of `word` that is at least `size`. */
  ghost function RoundUp(size: nat, word: nat): (r: nat)
    requires word > 0
  {
    if size <= word then word else word * ((size + word - 1) / word)
  }

  lemma RoundUpUnique(size: nat, word: nat, n: nat)
    requires word > 0 && n >= 1
    requires n * word >= size && (n == 1 || n * word < size + word)
    ensures RoundUp(size, word) == n * word
  {
    if size > word {
      DivModUnique(size + word - 1, word, n, size + word - 1 - n * word);
    } else if n > 1 {
      MulAtLeast(n - 1, word);
      assert false;
    }
  }

  /** RoundUp is the least sufficient positive multiple. */
  lemma RoundUpIsLeast(size: nat, word: nat, n: nat)
    requires word > 0 && n >= 1 && n * word >= size
    ensures RoundUp(size, word) >= size && RoundUp(size, word) % word == 0
    ensures RoundUp(size, word) <= n * word
  {
    if size <= word {
      DivModUnique(word, word, 1, 0);
      MulAtLeast(n, word);
    } else {
      var q, r := (size + word - 1) / word, (size + word - 1) % word;
      assert size + word - 1 == q * word + r;
      DivModUnique(q * word, word, q, 0);
      assert (n + 1) * word == n * word + word;
      FactorAbove(n + 1, q, word);
      MulMonotone(q, n, word);
    }
  }
}
