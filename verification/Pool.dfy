/** Runs of blocks in an allocation bitmap. */
module Runs {

  datatype Run = Run(start: nat, num: nat)

  /** Block `i` belongs to run `r`. */
  predicate Covers(r: Run, i: int) {
    r.start <= i < r.start + r.num
  }

  /** Blocks `start` to `start + n - 1` exist and are all free. */
  predicate FreeRun(used: seq<bool>, start: nat, n: nat) {
    start + n <= |used| && forall i :: start <= i < start + n ==> !used[i]
  }

  /** No run of `n` free blocks starts before `limit`. */
  predicate NoneBefore(used: seq<bool>, n: nat, limit: int) {
    forall s: nat :: s < limit ==> !FreeRun(used, s, n)
  }

  /** `used` with the blocks of `r` all set to `bit`. */
  function Fill(used: seq<bool>, r: Run, bit: bool): (filled: seq<bool>)
    ensures |filled| == |used|
  {
    seq(|used|, i requires 0 <= i < |used| => if Covers(r, i) then bit else used[i])
  }

  /**
   * The two hints of the allocator: everything below `first` is used, everything from `purl` on is
   * free, and `purl` cannot be lowered.
   */
  predicate Hints(used: seq<bool>, first: nat, purl: nat) {
    && first <= purl <= |used|
    && (forall i :: 0 <= i < first ==> used[i])
    && (forall i :: purl <= i < |used| ==> !used[i])
    && (purl > 0 ==> used[purl - 1])
  }

  lemma HintsBound(used: seq<bool>, first: nat, purl: nat)
    requires Hints(used, first, purl)
    ensures first <= purl <= |used|
  {
  }

  /** `live` are disjoint non-empty runs inside the arena whose union is exactly the used blocks. */
  ghost predicate Owned(live: set<Run>, used: seq<bool>) {
    && (forall r <- live :: r.num > 0 && r.start + r.num <= |used|)
    && (forall r <- live, q <- live, i :: Covers(r, i) && Covers(q, i) ==> r == q)
    && (forall i :: 0 <= i < |used| ==> (used[i] <==> exists r <- live :: Covers(r, i)))
  }

  lemma NothingUsed(used: seq<bool>)
    requires forall i :: 0 <= i < |used| ==> !used[i]
    ensures Hints(used, 0, 0) && Owned({}, used)
  {
  }

  /** Where a request of `n > 0` blocks must be placed: at `purl` if it fits there, else in the first free run. */
  predicate Placed(used: seq<bool>, purl: nat, n: nat, start: nat) {
    && FreeRun(used, start, n)
    && if purl + n <= |used| then start == purl else NoneBefore(used, n, start)
  }

  /** No run of `n` free blocks exists anywhere. */
  ghost predicate NoRun(used: seq<bool>, n: nat) {
    forall s: nat :: !FreeRun(used, s, n)
  }

  lemma FitsBehind(used: seq<bool>, first: nat, purl: nat, n: nat)
    requires Hints(used, first, purl) && purl + n <= |used|
    ensures Placed(used, purl, n, purl)
  {
  }

  lemma PlacedRun(used: seq<bool>, purl: nat, n: nat, start: nat)
    requires Placed(used, purl, n, start)
    ensures FreeRun(used, start, n) && !NoRun(used, n)
  {
  }

  /**
   * The low-speed search stands at block `at` with `found` free blocks just behind it: no run of `n`
   * starts before those, and `first` may be moved to the first free block met.
   */
  predicate Scanning(used: seq<bool>, n: nat, at: nat, found: nat, met: bool, first: nat, purl: nat) {
    && Hints(used, first, purl)
    && at <= purl && found < n && found <= at
    && NoneBefore(used, n, at - found)
    && FreeRun(used, at - found, found)
    && (met || forall i :: 0 <= i < at ==> used[i])
  }

  lemma ScanStart(used: seq<bool>, n: nat, first: nat, purl: nat)
    requires Hints(used, first, purl) && n > 0
    ensures Scanning(used, n, first, 0, false, first, purl)
  {
    forall s: nat | s < first
      ensures !FreeRun(used, s, n)
    {
      assert used[s];
    }
  }

  /** Used blocks end the search for every start up to them. */
  lemma ScanUsed(used: seq<bool>, n: nat, at: nat, found: nat, met: bool, first: nat, purl: nat, to: nat)
    requires Scanning(used, n, at, found, met, first, purl)
    requires at < to <= purl && forall i :: at <= i < to ==> used[i]
    ensures Scanning(used, n, to, 0, met, first, purl)
  {
    forall s: nat | s < to
      ensures !FreeRun(used, s, n)
    {
      if at - found <= s {
        assert used[if s <= at then at else s];
      }
    }
  }

  /** A free block makes the run longer, and complete when it has `n` blocks. */
  lemma ScanFree(used: seq<bool>, n: nat, at: nat, found: nat, met: bool, first: nat, purl: nat)
    requires Scanning(used, n, at, found, met, first, purl)
    requires at < purl && !used[at]
    ensures var first' := if met then first else at;
      && Hints(used, first', purl)
      && (found + 1 < n ==> Scanning(used, n, at + 1, found + 1, true, first', purl))
      && (found + 1 >= n ==> FreeRun(used, at + 1 - n, n) && NoneBefore(used, n, at + 1 - n))
  {
  }

  /** With the last block before `purl` used and no room after it, a failed scan means there is no run. */
  lemma ScanFailed(used: seq<bool>, n: nat, found: nat, met: bool, first: nat, purl: nat)
    requires Scanning(used, n, purl, found, met, first, purl) && purl + n > |used|
    ensures NoRun(used, n)
  {
    assert purl > 0 ==> used[purl - 1];
    assert found == 0;
  }

  /** `r` joins the live runs unless it is empty. */
  function Add(live: set<Run>, r: Run): set<Run> {
    if r.num == 0 then live else live + {r}
  }

  lemma FillNothing(used: seq<bool>, r: Run, bit: bool)
    requires r.num == 0
    ensures Fill(used, r, bit) == used
  {
  }

  /** The hints after a free run was taken. */
  lemma TakeHints(used: seq<bool>, first: nat, purl: nat, r: Run)
    requires Hints(used, first, purl) && FreeRun(used, r.start, r.num)
    requires r.num == 0 ==> r.start == purl
    ensures var end := r.start + r.num; Hints(Fill(used, r, true), first, if end > purl then end else purl)
  {
  }

  /** The blocks of `r` exist and are used. */
  ghost predicate InUse(used: seq<bool>, r: Run) {
    r.start + r.num <= |used| && forall i :: Covers(r, i) ==> used[i]
  }

  /** `first` may have to come down to the freed run; `purl` stays unless the run ends there. */
  lemma DropHints(used: seq<bool>, first: nat, purl: nat, r: Run)
    requires Hints(used, first, purl) && InUse(used, r) && r.start + r.num != purl
    ensures Hints(Fill(used, r, false), if r.start < first then r.start else first, purl)
  {
    assert r.num > 0 ==> Covers(r, r.start + r.num - 1);
  }

  /** The hints after the run next to `purl` was freed and `purl` walked back to `p`. */
  lemma WalkedHints(used: seq<bool>, first: nat, purl: nat, r: Run, p: nat)
    requires Hints(used, first, purl) && r.start + r.num == purl && p <= r.start
    requires FreeRun(Fill(used, r, false), p, r.start - p)
    requires p > 0 ==> Fill(used, r, false)[p - 1]
    ensures Hints(Fill(used, r, false), if r.start < first then r.start else first, p)
  {
    assert p < r.start ==> !Fill(used, r, false)[p] && !Fill(used, r, false)[r.start - 1];
  }

  /** The hints after `r` was freed, `purl` having been walked back to `p` when the run ended there. */
  lemma FreedHints(used: seq<bool>, first: nat, purl: nat, r: Run, p: nat)
    requires Hints(used, first, purl) && InUse(used, r)
    requires r.start + r.num != purl ==> p == purl
    requires r.start + r.num == purl ==>
      p <= r.start && FreeRun(Fill(used, r, false), p, r.start - p) && (p > 0 ==> Fill(used, r, false)[p - 1])
    ensures Hints(Fill(used, r, false), if r.start < first then r.start else first, p)
  {
    hide Hints, Fill, FreeRun;
    if r.start + r.num == purl {
      WalkedHints(used, first, purl, r, p);
    } else {
      DropHints(used, first, purl, r);
    }
  }

  lemma Acquire(live: set<Run>, used: seq<bool>, r: Run)
    requires Owned(live, used) && r.num > 0 && FreeRun(used, r.start, r.num)
    ensures r !in live && Owned(live + {r}, Fill(used, r, true))
  {
    var now, filled := live + {r}, Fill(used, r, true);
    forall q <- live, i | Covers(q, i)
      ensures !Covers(r, i)
    {
      assert used[i];
    }
    if r in live {
      assert Covers(r, r.start);
    }
    forall i | 0 <= i < |used|
      ensures filled[i] <==> exists q <- now :: Covers(q, i)
    {
      if Covers(r, i) {
        assert r in now;
      } else if used[i] {
        var q :| q in live && Covers(q, i);
        assert q in now;
      }
    }
  }

  lemma Release(live: set<Run>, used: seq<bool>, r: Run)
    requires Owned(live, used) && (r in live || (r.num == 0 && r.start <= |used|))
    ensures r.start + r.num <= |used| && InUse(used, r)
    ensures Owned(live - {r}, Fill(used, r, false))
  {
    var now, filled := live - {r}, Fill(used, r, false);
    forall i | 0 <= i < |used|
      ensures filled[i] <==> exists q <- now :: Covers(q, i)
    {
      if filled[i] {
        var q :| q in live && Covers(q, i);
        assert q in now;
      }
    }
  }

  /** Freeing a run that was just allocated restores the bitmap, the set of live runs and `purl`. */
  lemma ReleaseUndoesAcquire(live: set<Run>, used: seq<bool>, r: Run, first: nat, purl: nat, first': nat, purl': nat)
    requires Owned(live, used) && r.num > 0 && FreeRun(used, r.start, r.num)
    requires Hints(used, first, purl)
    requires Hints(Fill(Fill(used, r, true), r, false), first', purl')
    ensures Fill(Fill(used, r, true), r, false) == used
    ensures (live + {r}) - {r} == live
    ensures purl' == purl
  {
    assert Fill(Fill(used, r, true), r, false) == used;
    Acquire(live, used, r);
  }
}

/** `src/dataMemory.c`: the block pool with a bitmap and two cached positions. */
module Pool {
  import opened Bytecode
  import opened Bytes
  import opened Bitmap
  import opened Runs

  /** Blocks needed for `size` bytes. */
  function Blocks(aline: nat, size: nat): (n: nat)
    requires aline > 0
    ensures n <= size && (n == 0 <==> size == 0)
    ensures size <= n * aline < size + aline
  {
    if size == 0 then 0 else
      CeilBounds(aline, size);
      (size - 1) / aline + 1
  }

  lemma CeilBounds(aline: nat, size: nat)
    requires aline > 0 && size > 0
    ensures (size - 1) / aline + 1 <= size
    ensures size <= ((size - 1) / aline + 1) * aline < size + aline
  {
    var q, r := (size - 1) / aline, (size - 1) % aline;
    assert size - 1 == q * aline + r;
    MulAtLeast(q, aline);
    Distribute(q, aline);
  }

  lemma MulAtLeast(q: nat, c: nat)
    requires c > 0
    ensures q <= q * c
  {
  }

  lemma Distribute(q: nat, c: nat)
    ensures (q + 1) * c == q * c + c
  {
  }

  /** Factors compare as the products do. */
  lemma MulLess(a: nat, b: nat, c: nat)
    requires a * c < b * c
    ensures a < b
  {
    if a >= b {
      MulOrder(b, a, c);
    }
  }

  lemma MulAdd(a: nat, b: nat, c: nat)
    ensures (a + b) * c == a * c + b * c
  {
  }

  lemma MulOrder(a: nat, b: nat, c: nat)
    requires a <= b
    ensures a * c <= b * c
  {
  }

  /** The block index survives the trip through a byte offset. */
  lemma BlockOfOffset(aline: nat, index: nat)
    requires aline > 0
    ensures Blocks(aline, index * aline) == index
  {
    hide Blocks;
    var n := Blocks(aline, index * aline);
    Distribute(index, aline);
    MulLess(n, index + 1, aline);
    Distribute(n, aline);
    MulLess(index, n + 1, aline);
  }

  /**
   * The fast-path test on 32-bit indices accepts exactly the requests that fit behind `purl` and
   * those whose index arithmetic overflows; `Malloc` asks its callers for the absence of the latter.
   */
  lemma FastPathTest(purl: nat, need: nat, max: nat)
    requires purl <= max < U32 && need < U32
    ensures need > 0 ==> ((purl + need - 1) % U32 < max <==> purl + need <= max || purl + need > U32)
    ensures need == 0 ==> ((purl + need - 1) % U32 < max <==> purl > 0)
    ensures (purl + need - 1) % U32 == if purl + need == 0 then U32 - 1 else if purl + need > U32 then purl + need - 1 - U32 else purl + need - 1
  {
  }

  /** Comparing the last blocks in 32 bits compares the ends. */
  lemma SameEnd(a: nat, b: nat, max: nat)
    requires a <= max < U32 && b <= max
    ensures (a - 1) % U32 == (b - 1) % U32 <==> a == b
  {
  }

  /** From `before` to `after` the bits of the blocks of `r` became `bit` and no other changed. */
  ghost predicate Written(before: seq<bv8>, after: seq<bv8>, r: Run, bit: bool) {
    && |after| == |before|
    && forall i :: 0 <= i < 8 * |before| ==> Bit(after, i) == if Covers(r, i) then bit else Bit(before, i)
  }

  lemma FilledBits(before: seq<bv8>, after: seq<bv8>, n: nat, r: Run, bit: bool)
    requires n <= 8 * |before| && r.start + r.num <= n && Written(before, after, r, bit)
    ensures Bits(after, n) == Fill(Bits(before, n), r, bit)
    ensures forall i :: n <= i < 8 * |before| ==> Bit(after, i) == Bit(before, i)
  {
  }

  /** A byte of ones lies wholly below `purl`. */
  lemma BelowPurl(bytes: seq<bv8>, n: nat, purl: nat, at: nat)
    requires at < purl <= n <= 8 * |bytes| && bytes[at / 8] == 0xFF
    requires forall i :: purl <= i < n ==> !Bits(bytes, n)[i]
    requires forall i :: n <= i < 8 * |bytes| ==> !Bit(bytes, i)
    ensures 8 * (at / 8) + 8 <= purl
    ensures forall i :: 8 * (at / 8) <= i < 8 * (at / 8) + 8 ==> Bits(bytes, n)[i]
  {
    hide Bit;
    var k := at / 8;
    ByteFull(bytes, k);
    assert Bit(bytes, 8 * k + 7);
    assert 8 * k + 7 < n ==> Bits(bytes, n)[8 * k + 7];
  }

  /** The loop that marks the `need` blocks ending in `block_index`. */
  method MarkUsed(bitmap: array<bv8>, block_index: nat, need: nat)
    requires need <= block_index + 1 <= 8 * bitmap.Length
    modifies bitmap
    ensures Written(old(bitmap[..]), bitmap[..], Run(block_index + 1 - need, need), true)
  {
    var i := 0;
    while i < need
      invariant 0 <= i <= need
      invariant Written(old(bitmap[..]), bitmap[..], Run(block_index + 1 - i, i), true)
    {
      Set(bitmap, block_index - i, true);
      i := i + 1;
    }
  }

  /** The loop that clears `num` blocks from `block_index` on. */
  method MarkFree(bitmap: array<bv8>, block_index: nat, num: nat)
    requires block_index + num <= 8 * bitmap.Length
    modifies bitmap
    ensures Written(old(bitmap[..]), bitmap[..], Run(block_index, num), false)
  {
    for i := 0 to num
      invariant Written(old(bitmap[..]), bitmap[..], Run(block_index, i), false)
    {
      Set(bitmap, block_index + i, false);
    }
  }

  class Pool {
    const bitmap: array<bv8>
    const mem: nat
    const aline: nat
    const size: nat
    var first_free_block: nat
    var purl_free_block_start: nat
    ghost var live: set<Run>

    /** Number of blocks of the arena. */
    function Max(): nat
      requires aline > 0
    {
      Blocks(aline, size)
    }

    ghost function Used(): (used: seq<bool>)
      requires aline > 0 && Max() <= 8 * bitmap.Length
      reads bitmap
    {
      Bits(bitmap[..], Max())
    }

    /** The bitmap covers the arena and has no bit set outside it. */
    ghost predicate Shaped()
      reads bitmap
    {
      && 0 < aline < 256
      && size < U32
      && Max() <= 8 * bitmap.Length
      && Max() * aline < U32
      && forall i :: Max() <= i < 8 * bitmap.Length ==> !Bit(bitmap[..], i)
    }

    ghost predicate Valid()
      reads this, bitmap
    {
      && Shaped()
      && Hints(Used(), first_free_block, purl_free_block_start)
      && Owned(live, Used())
    }

    /** `pool_init`: the aligned size is computed in 32 bits; `base` is the address of the arena. */
    constructor (bytes: nat, alignment: nat, base: nat)
      requires bytes < U32 && 0 < alignment < 256
      ensures Valid() && fresh(bitmap) && live == {}
      ensures aline == alignment && mem == base
      ensures Blocks(alignment, bytes) * alignment < U32 ==> Max() == Blocks(alignment, bytes)
    {
      var blocks := Blocks(alignment, bytes);
      aline := alignment;
      mem := base;
      size := blocks * alignment % U32;
      first_free_block, purl_free_block_start := 0, 0;
      live := {};
      var length := (blocks - 1) % U32 / 8 + 1;
      bitmap := new bv8[length](_ => 0);
      new;
      hide Blocks, Bit, Hints, Owned;
      AlignedBlocks(aline, bytes);
      ZeroBits(bitmap[..]);
      NothingUsed(Used());
    }

    /** The low-speed search: first free run that ends below `purl_free_block_start`; moves `first_free_block` up. */
    method Search(need: nat) returns (found: Option<nat>)
      requires Shaped() && Hints(Used(), first_free_block, purl_free_block_start)
      requires need > 0 && purl_free_block_start + need > Max()
      modifies this`first_free_block
      ensures Hints(Used(), first_free_block, purl_free_block_start)
      ensures found.Some? ==>
        found.value < Max() && need <= found.value + 1 && Placed(Used(), purl_free_block_start, need, found.value + 1 - need)
      ensures found.None? ==> NoRun(Used(), need)
    {
      ghost var used := Used();
      var block_num_found, found_first_free := 0, false;
      var block_index := first_free_block;
      ScanStart(used, need, first_free_block, purl_free_block_start);
      while block_index < purl_free_block_start
        invariant Scanning(used, need, block_index, block_num_found, found_first_free, first_free_block, purl_free_block_start)
      {
        var bitmap_byte := bitmap[block_index / 8];
        if bitmap_byte == 0xFF {
          ScanByte(need, block_index, block_num_found, found_first_free);
          block_index := 8 * (block_index / 8) + 7;
          block_num_found := 0;
        } else {
          var bit := Get(bitmap, block_index);
          if !bit {
            ScanFree(used, need, block_index, block_num_found, found_first_free, first_free_block, purl_free_block_start);
            if !found_first_free {
              first_free_block := block_index;
              found_first_free := true;
            }
            block_num_found := block_num_found + 1;
          } else {
            ScanUsed(used, need, block_index, block_num_found, found_first_free, first_free_block, purl_free_block_start,
              block_index + 1);
            block_num_found := 0;
          }
          if block_num_found >= need {
            return Some(block_index);
          }
        }
        block_index := block_index + 1;
      }
      ScanFailed(used, need, block_num_found, found_first_free, first_free_block, purl_free_block_start);
      found := None;
    }

    /** Address of a block (`pool_getBytes_byBlockIndex`). */
    function Address(index: nat): nat {
      mem + index * aline % U32
    }

    /** Block of an address (`pool_getBlockIndex_byMem`). */
    function Block(address: nat): nat
      requires aline > 0
    {
      Blocks(aline, (address - mem) % U32)
    }

    /** The two mappings are inverse to each other on the arena and keep a block's bytes inside it. */
    lemma AddressBlock(index: nat)
      requires Shaped() && index <= Max()
      ensures Address(index) == mem + index * aline <= mem + Max() * aline
      ensures Block(Address(index)) == index
    {
      hide Blocks;
      MulOrder(index, Max(), aline);
      Wrapped(index * aline);
      BlockOfOffset(aline, index);
    }

    /**
     * The code behind the label `found`: takes the `need` free blocks that end in `block_index`. An empty
     * request gets the address of the first block behind the used ones and takes nothing.
     */
    method Take(block_index: nat, need: nat) returns (address: nat)
      requires Valid() && need <= block_index + 1 <= Max()
      requires FreeRun(Used(), block_index + 1 - need, need)
      requires need == 0 ==> block_index + 1 == purl_free_block_start
      modifies this`purl_free_block_start, this`live, bitmap
      ensures Valid()
      ensures Taken(old(Used()), old(live), Run(block_index + 1 - need, need))
      ensures purl_free_block_start == if block_index >= old(purl_free_block_start) then block_index + 1 else old(purl_free_block_start)
      ensures address == Address(block_index + 1 - need) && Block(address) == block_index + 1 - need
    {
      hide Bit, Blocks, Hints, Owned, FreeRun, Written, Fill;
      ghost var r := Run(block_index + 1 - need, need);
      MarkUsed(bitmap, block_index, need);
      FilledBits(old(bitmap[..]), bitmap[..], Max(), r, true);
      TakeHints(old(Used()), first_free_block, purl_free_block_start, r);
      if need > 0 {
        Acquire(live, old(Used()), r);
      } else {
        FillNothing(old(Used()), r, true);
      }
      if block_index >= purl_free_block_start {
        purl_free_block_start := block_index + 1;
      }
      live := Add(live, r);
      AddressBlock(r.start);
      address := Address(block_index - need + 1);
    }

    /** The pool after the blocks of `r` were taken out of `used` and `before`. */
    ghost predicate Taken(used: seq<bool>, before: set<Run>, r: Run)
      requires Shaped()
      reads this, bitmap
    {
      && Used() == Fill(used, r, true)
      && live == Add(before, r)
    }

    /**
     * `pool_malloc`. A request for `need` > 0 blocks fails exactly when no run of `need` free blocks exists,
     * and is otherwise placed as `Placed` says; only the blocks of that run change.
     */
    method Malloc(bytes: nat) returns (address: Option<nat>)
      requires Valid() && bytes < U32 && purl_free_block_start + Blocks(aline, bytes) <= U32
      modifies this, bitmap
      ensures Valid()
      ensures address.None? ==> Used() == old(Used()) && live == old(live)
      ensures bytes == 0 ==> address == if purl_free_block_start == 0 then None else Some(Address(purl_free_block_start))
      ensures bytes > 0 ==>
        (address.None? <==> NoRun(old(Used()), Blocks(aline, bytes)))
      ensures address.Some? ==> var r := Run(Block(address.value), Blocks(aline, bytes));
        && address.value == Address(r.start)
        && Taken(old(Used()), old(live), r)
        && (bytes > 0 ==> Placed(old(Used()), old(purl_free_block_start), r.num, r.start))
    {
      hide Owned, Blocks, Fill, Placed, NoRun, FreeRun, Address, Block, Bit;
      var block_index_max := Max();
      var need := Blocks(aline, bytes);
      FastPathTest(purl_free_block_start, need, block_index_max);
      var block_index := (purl_free_block_start + need - 1) % U32;
      if block_index < block_index_max {
        FitsBehind(Used(), first_free_block, purl_free_block_start, need);
        PlacedRun(Used(), purl_free_block_start, need, purl_free_block_start);
        var p := Take(block_index, need);
        return Some(p);
      }
      if need > 0 {
        var found := Search(need);
        if found.Some? {
          PlacedRun(Used(), purl_free_block_start, need, found.value + 1 - need);
          var p := Take(found.value, need);
          return Some(p);
        }
      }
      address := None;
    }

    /** The loop that lowers `purl_free_block_start` to just behind the last used block before `from`. */
    method WalkBack(from: nat) returns (p: nat)
      requires Shaped() && from <= Max()
      ensures p <= from && FreeRun(Used(), p, from - p)
      ensures p > 0 ==> Used()[p - 1]
    {
      p := from;
      while p != 0
        invariant p <= from && FreeRun(Used(), p, from - p)
      {
        var bit := Get(bitmap, p - 1);
        if bit {
          break;
        }
        p := p - 1;
      }
    }

    /** Clears the blocks of `r` one by one. */
    method Clear(r: Run)
      requires Shaped() && r.start + r.num <= Max()
      modifies bitmap
      ensures Shaped() && Used() == Fill(old(Used()), r, false)
    {
      hide Bit, Blocks, Written, Fill;
      MarkFree(bitmap, r.start, r.num);
      FilledBits(old(bitmap[..]), bitmap[..], Max(), r, false);
    }

    /** The test, in 32 bits, whether the freed blocks are the last ones in use. */
    method EndsAtPurl(block_index: nat, block_num: nat) returns (last: bool)
      requires aline > 0 && Max() < U32 && block_index + block_num <= Max() && purl_free_block_start <= Max()
      ensures last <==> block_index + block_num == purl_free_block_start
    {
      hide Blocks;
      SameEnd(block_index + block_num, purl_free_block_start, Max());
      var block_end := (block_index + block_num - 1) % U32;
      last := block_end == (purl_free_block_start - 1) % U32;
    }

    /** `pool_free` of a live allocation, or of an empty one. */
    method Free(address: nat, bytes: nat)
      requires Valid() && bytes < U32
      requires Run(Block(address), Blocks(aline, bytes)) in live || (bytes == 0 && Block(address) <= Max())
      modifies this, bitmap
      ensures Valid()
      ensures var r := Run(Block(address), Blocks(aline, bytes));
        && Used() == Fill(old(Used()), r, false)
        && live == old(live) - {r}
    {
      hide Bit, Blocks, Hints, Owned, Fill, Block, FreeRun, Shaped, InUse, Bits;
      var block_num := Blocks(aline, bytes);
      var block_index := Block(address);
      ShapedBounds();
      ghost var used, r := Used(), Run(block_index, block_num);
      Release(live, used, r);
      HintsBound(used, first_free_block, purl_free_block_start);
      Clear(Run(block_index, block_num));
      if block_index < first_free_block {
        first_free_block := block_index;
      }
      var last := EndsAtPurl(block_index, block_num);
      if last {
        purl_free_block_start := WalkBack(block_index);
      }
      FreedHints(used, old(first_free_block), old(purl_free_block_start), r, purl_free_block_start);
      live := live - {r};
    }

    lemma ShapedBounds()
      requires Shaped()
      ensures 0 < aline && Max() <= 8 * bitmap.Length && Max() < U32
    {
      MulAtLeast(Max(), aline);
    }

    /** The bytes of a live allocation lie inside the arena. */
    lemma InsideArena(r: Run)
      requires Valid() && r in live
      ensures mem <= Address(r.start) && Address(r.start) + r.num * aline <= mem + Max() * aline
    {
      hide Blocks, Address, Bit, Hints;
      AddressBlock(r.start);
      MulAdd(r.start, r.num, aline);
      MulOrder(r.start + r.num, Max(), aline);
    }

    /** The bytes of different live allocations do not overlap. */
    lemma DisjointBytes(r: Run, q: Run)
      requires Valid() && r in live && q in live && r != q
      ensures
        || Address(r.start) + r.num * aline <= Address(q.start)
        || Address(q.start) + q.num * aline <= Address(r.start)
    {
      hide Blocks, Address, Bit, Hints;
      AddressBlock(r.start);
      AddressBlock(q.start);
      MulAdd(r.start, r.num, aline);
      MulAdd(q.start, q.num, aline);
      assert !Covers(r, q.start) || !Covers(q, q.start);
      assert !Covers(r, r.start) || !Covers(q, r.start);
      if r.start + r.num <= q.start {
        MulOrder(r.start + r.num, q.start, aline);
      } else {
        MulOrder(q.start + q.num, r.start, aline);
      }
    }

    lemma ScanByte(need: nat, at: nat, found: nat, met: bool)
      requires Shaped() && Scanning(Used(), need, at, found, met, first_free_block, purl_free_block_start)
      requires at < purl_free_block_start && bitmap[at / 8] == 0xFF
      ensures Scanning(Used(), need, 8 * (at / 8) + 8, 0, met, first_free_block, purl_free_block_start)
    {
      BelowPurl(bitmap[..], Max(), purl_free_block_start, at);
      ScanUsed(Used(), need, at, found, met, first_free_block, purl_free_block_start, 8 * (at / 8) + 8);
    }
  }

  /** An arena of aligned size has as many blocks as the bitmap was made for, or fewer when the size wrapped. */
  lemma AlignedBlocks(aline: nat, bytes: nat)
    requires 0 < aline < 256 && bytes < U32
    ensures var n := Blocks(aline, bytes);
      && n * aline % U32 < U32 && Blocks(aline, n * aline % U32) * aline < U32
      && Blocks(aline, n * aline % U32) <= 8 * ((n - 1) % U32 / 8 + 1)
      && (n * aline < U32 ==> Blocks(aline, n * aline % U32) == n)
  {
    hide Blocks;
    var n := Blocks(aline, bytes);
    BlockOfOffset(aline, n);
    Wrapped(n * aline);
    BytesFor(n);
    if n * aline >= U32 {
      var m := Blocks(aline, n * aline - U32);
      MulLess(m, 2, aline);
    }
  }

  lemma Wrapped(p: nat)
    requires p < 2 * U32
    ensures p % U32 == if p < U32 then p else p - U32
  {
  }

  /** The bytes of the bitmap for `n` blocks, computed in 32 bits. */
  lemma BytesFor(n: nat)
    requires n < U32
    ensures n <= 8 * ((n - 1) % U32 / 8 + 1) && 0 < 8 * ((n - 1) % U32 / 8 + 1)
  {
  }

  lemma ZeroBits(bytes: seq<bv8>)
    requires forall i :: 0 <= i < |bytes| ==> bytes[i] == 0
    ensures forall i :: 0 <= i < 8 * |bytes| ==> !Bit(bytes, i)
  {
  }
}
