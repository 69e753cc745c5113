/** `src/PikaCompiler.c`: the module archive, its linker and its loader. */
module Archive {
  import opened Bytecode
  import opened Bytes
  import ConstPool
  import Image

  const MAGIC: seq<Byte> := [0x0F, 'p' as int, 'y' as int, 'a' as int]
  const VERSION: nat := 7
  const DEFAULT_BLOCK: nat := 64

  /** A module to be archived; `name` is its name as written, every `|` of the held name already replaced by `.`. */
  datatype Module = Module(name: string, data: seq<Byte>)

  /** `align_by(size, 4)`. */
  function Align(size: nat): (r: nat)
    ensures size <= r < size + 4 && r % 4 == 0
  {
    if size == 0 then 0 else
      AlignBounds(size);
      ((size - 1) / 4 + 1) * 4
  }

  lemma AlignBounds(size: nat)
    requires size > 0
    ensures var r := ((size - 1) / 4 + 1) * 4; size <= r < size + 4 && r % 4 == 0
  {
    var q := (size - 1) / 4;
    assert size - 1 == 4 * q + (size - 1) % 4;
    assert (4 * (q + 1)) % 4 == 0;
  }

  function Zeros(n: nat): (z: seq<Byte>)
    ensures |z| == n && forall i :: 0 <= i < n ==> z[i] == 0
  {
    seq(n, _ => 0)
  }

  function Max(a: nat, b: nat): nat {
    if a > b then a else b
  }

  /** The size of an information block: room for the longest name and a word. */
  function BlockSize(ms: seq<Module>): (bs: nat)
    ensures bs >= DEFAULT_BLOCK
    ensures forall m <- ms :: Align(|m.name|) + 4 <= bs
  {
    if ms == [] then DEFAULT_BLOCK
    else
      assert ms == ms[..|ms| - 1] + [ms[|ms| - 1]];
      Max(BlockSize(ms[..|ms| - 1]), Align(|ms[|ms| - 1].name|) + 4)
  }

  /** `[name][size]`: the word takes the last four bytes of the block. */
  function InfoBlock(m: Module, bs: nat): (b: seq<Byte>)
    requires |m.name| + 4 <= bs
    ensures |b| == bs
  {
    Chars(m.name) + Zeros(bs - 4 - |m.name|) + Word(|m.data|)
  }

  predicate Roomy(ms: seq<Module>, bs: nat) {
    forall i :: 0 <= i < |ms| ==> |ms[i].name| + 4 <= bs
  }

  function Index(ms: seq<Module>, bs: nat): (b: seq<Byte>)
    requires Roomy(ms, bs)
    ensures |b| == bs * |ms|
  {
    if ms == [] then []
    else
      Snoc(bs, |ms|);
      Index(ms[..|ms| - 1], bs) + InfoBlock(ms[|ms| - 1], bs)
  }

  lemma Snoc(bs: nat, n: nat)
    requires n > 0
    ensures bs * n == bs * (n - 1) + bs
  {
  }

  function Padded(data: seq<Byte>): seq<Byte> {
    data + Zeros(Align(|data|) - |data|)
  }

  function Bodies(ms: seq<Module>): (b: seq<Byte>)
    ensures |b| == SumSize(ms)
  {
    if ms == [] then [] else Bodies(ms[..|ms| - 1]) + Padded(ms[|ms| - 1].data)
  }

  function SumSize(ms: seq<Module>): nat {
    if ms == [] then 0 else SumSize(ms[..|ms| - 1]) + Align(|ms[|ms| - 1].data|)
  }

  function Total(ms: seq<Module>): nat {
    BlockSize(ms) * (|ms| + 1) + SumSize(ms)
  }

  function MetaBlock(total: nat, num: nat, bs: nat): (b: seq<Byte>)
    requires bs >= DEFAULT_BLOCK
    ensures |b| == bs
  {
    MAGIC + Word(total) + Word(VERSION) + Word(num) + Word(bs) + Zeros(bs - 20)
  }

  lemma RoomyBlocks(ms: seq<Module>)
    ensures Roomy(ms, BlockSize(ms))
  {
    forall i | 0 <= i < |ms|
      ensures |ms[i].name| + 4 <= BlockSize(ms)
    {
      assert ms[i] in ms;
    }
  }

  /** The bytes of the archive. */
  function Archived(ms: seq<Module>): (b: seq<Byte>)
    ensures |b| == Total(ms)
  {
    RoomyBlocks(ms);
    Snoc(BlockSize(ms), |ms| + 1);
    MetaBlock(Total(ms), |ms|, BlockSize(ms)) + Index(ms, BlockSize(ms)) + Bodies(ms)
  }

  // Finding the parts

  lemma {:induction false} IndexPrefix(ms: seq<Module>, k: nat, bs: nat)
    requires k <= |ms| && Roomy(ms, bs)
    ensures bs * k <= bs * |ms| && Index(ms, bs)[..bs * k] == Index(ms[..k], bs)
  {
    if k == |ms| {
      assert ms[..k] == ms;
    } else {
      var init := ms[..|ms| - 1];
      IndexPrefix(init, k, bs);
      assert init[..k] == ms[..k];
      Snoc(bs, |ms|);
      assert Index(ms, bs)[..bs * k] == Index(init, bs)[..bs * k];
    }
  }

  lemma InfoBlockAt(ms: seq<Module>, k: nat, bs: nat)
    requires k < |ms| && Roomy(ms, bs)
    ensures bs * k + bs <= bs * |ms| && Index(ms, bs)[bs * k..bs * k + bs] == InfoBlock(ms[k], bs)
  {
    hide InfoBlock;
    IndexPrefix(ms, k + 1, bs);
    Snoc(bs, k + 1);
    assert ms[..k + 1][..k] == ms[..k];
    assert Index(ms, bs)[bs * k..bs * k + bs] == Index(ms, bs)[..bs * (k + 1)][bs * k..];
  }

  lemma {:induction false} BodiesPrefix(ms: seq<Module>, k: nat)
    requires k <= |ms|
    ensures SumSize(ms[..k]) <= SumSize(ms) && Bodies(ms)[..SumSize(ms[..k])] == Bodies(ms[..k])
  {
    if k == |ms| {
      assert ms[..k] == ms;
    } else {
      var init := ms[..|ms| - 1];
      BodiesPrefix(init, k);
      assert init[..k] == ms[..k];
      assert Bodies(ms)[..SumSize(ms[..k])] == Bodies(init)[..SumSize(ms[..k])];
    }
  }

  lemma BodiesStep(ms: seq<Module>, k: nat)
    requires k < |ms|
    ensures Bodies(ms[..k + 1]) == Bodies(ms[..k]) + Padded(ms[k].data)
    ensures SumSize(ms[..k + 1]) == SumSize(ms[..k]) + Align(|ms[k].data|)
  {
    assert ms[..k + 1][..k] == ms[..k];
  }

  lemma BodyAt(ms: seq<Module>, k: nat)
    requires k < |ms|
    ensures var at, data := SumSize(ms[..k]), ms[k].data;
      && at + Align(|data|) == SumSize(ms[..k + 1]) <= SumSize(ms)
      && Bodies(ms)[at..at + |data|] == data
  {
    hide Bodies, SumSize, Align, Zeros;
    BodiesPrefix(ms, k + 1);
    BodiesStep(ms, k);
    var at, data := SumSize(ms[..k]), ms[k].data;
    var part := Bodies(ms[..k + 1]);
    assert part[at..at + |data|] == data;
    assert Bodies(ms)[at..at + |data|] == Bodies(ms)[..|part|][at..at + |data|];
  }

  /** Offset of information block `k`, behind the first block. */
  function BlockStart(bs: nat, k: nat): nat {
    bs + bs * k
  }

  /** Where the loader finds the parts of module `k`. */
  lemma Parts(ms: seq<Module>, k: nat, bytes: seq<Byte>)
    requires k < |ms| && Archived(ms) <= bytes
    ensures var bs, data := BlockSize(ms), ms[k].data;
      var block, body := BlockStart(bs, k), BlockStart(bs, |ms|) + SumSize(ms[..k]);
      && |ms[k].name| + 4 <= bs
      && block + bs <= |bytes| && bytes[block..block + bs] == InfoBlock(ms[k], bs)
      && body + |data| <= |bytes| && bytes[body..body + |data|] == data
  {
    hide Bodies, SumSize, Align, Index, InfoBlock, MetaBlock, BlockSize, Total;
    var bs, data := BlockSize(ms), ms[k].data;
    RoomyBlocks(ms);
    InfoBlockAt(ms, k, bs);
    BodyAt(ms, k);
    var meta, index, bodies := MetaBlock(Total(ms), |ms|, bs), Index(ms, bs), Bodies(ms);
    var rest := bytes[|Archived(ms)|..];
    assert bytes == meta + index + bodies + rest;
    Inside(meta, index, bodies + rest, bs * k, bs);
    Inside(meta + index, bodies, rest, SumSize(ms[..k]), |data|);
    assert meta + index + bodies + rest == meta + index + (bodies + rest);
  }

  lemma Inside(a: seq<Byte>, b: seq<Byte>, c: seq<Byte>, at: nat, n: nat)
    requires at + n <= |b|
    ensures (a + b + c)[|a| + at..|a| + at + n] == b[at..at + n]
  {
  }

  /** The words of the first block. */
  lemma Header(ms: seq<Module>, bytes: seq<Byte>)
    requires Archived(ms) <= bytes && Total(ms) < U32
    ensures |bytes| >= 20 && bytes[..4] == MAGIC && WordAt(bytes, 4) == Total(ms)
    ensures WordAt(bytes, 8) == VERSION && WordAt(bytes, 12) == |ms| && WordAt(bytes, 16) == BlockSize(ms)
  {
    hide *;
    MetaFirst(ms, bytes);
    TotalBounds(ms);
    HeaderWords(Total(ms), |ms|, BlockSize(ms), bytes);
  }

  lemma MetaFirst(ms: seq<Module>, bytes: seq<Byte>)
    requires Archived(ms) <= bytes
    ensures BlockSize(ms) >= DEFAULT_BLOCK && MetaBlock(Total(ms), |ms|, BlockSize(ms)) <= bytes
  {
    hide Bodies, SumSize, Index, BlockSize, MetaBlock, Total;
  }

  lemma TotalBounds(ms: seq<Module>)
    requires Total(ms) < U32
    ensures BlockSize(ms) < U32 && |ms| < U32
  {
    hide SumSize, BlockSize;
    Bounds(BlockSize(ms), |ms|, SumSize(ms));
  }

  lemma Bounds(bs: nat, n: nat, sum: nat)
    requires bs >= DEFAULT_BLOCK && bs * (n + 1) + sum < U32
    ensures bs < U32 && n < U32
  {
    Grows(bs, n);
  }

  lemma Grows(bs: nat, n: nat)
    requires bs >= 1
    ensures bs <= bs * (n + 1) && n <= bs * (n + 1)
  {
  }

  lemma HeaderWords(total: nat, n: nat, bs: nat, bytes: seq<Byte>)
    requires bs >= DEFAULT_BLOCK && MetaBlock(total, n, bs) <= bytes && total < U32 && n < U32 && bs < U32
    ensures |bytes| >= 20 && bytes[..4] == MAGIC && WordAt(bytes, 4) == total
    ensures WordAt(bytes, 8) == VERSION && WordAt(bytes, 12) == n && WordAt(bytes, 16) == bs
  {
    hide Word, WordAt;
    var meta := MetaBlock(total, n, bs);
    assert bytes[..4] == meta[..4] == MAGIC;
    assert bytes[4..8] == meta[4..8] == Word(total);
    assert bytes[8..12] == meta[8..12] == Word(VERSION);
    assert bytes[12..16] == meta[12..16] == Word(n);
    assert bytes[16..20] == meta[16..20] == Word(bs);
    WordReadBack(bytes, 4, total);
    WordReadBack(bytes, 8, VERSION);
    WordReadBack(bytes, 12, n);
    WordReadBack(bytes, 16, bs);
  }

  /** It is no larger than the longest name needs, and at least 64. */
  lemma {:induction false} BlockSizeExact(ms: seq<Module>)
    ensures BlockSize(ms) >= 64 && forall m <- ms :: Align(|m.name|) + 4 <= BlockSize(ms)
    ensures BlockSize(ms) == 64 || exists m <- ms :: Align(|m.name|) + 4 == BlockSize(ms)
  {
    hide Align;
    if ms != [] {
      var init, last := ms[..|ms| - 1], ms[|ms| - 1];
      BlockSizeExact(init);
      assert last in ms && forall m <- init :: m in ms;
    }
  }

  /** The first block: magic code, size of the archive, version, number of modules, block size. */
  predicate HeadLaid(f: seq<Byte>, n: nat, bs: nat) {
    && |f| >= 20 && f[..4] == [0x0F, 'p' as int, 'y' as int, 'a' as int]
    && WordAt(f, 4) == |f| && WordAt(f, 8) == 7 && WordAt(f, 12) == n && WordAt(f, 16) == bs
  }

  /** The first block of an archive in its place. */
  lemma HeadLayout(ms: seq<Module>)
    requires Total(ms) < U32
    ensures HeadLaid(Archived(ms), |ms|, BlockSize(ms))
  {
    hide *;
    Header(ms, Archived(ms));
    HeadIs(Archived(ms), |ms|, BlockSize(ms));
  }

  lemma HeadIs(f: seq<Byte>, n: nat, bs: nat)
    requires |f| >= 20 && f[..4] == MAGIC && WordAt(f, 4) == |f| && WordAt(f, 8) == VERSION && WordAt(f, 12) == n && WordAt(f, 16) == bs
    ensures HeadLaid(f, n, bs)
  {
    hide WordAt;
  }

  /** The bytes of an information block in their places: the name, zeros, and the size of the data in the last word. */
  lemma BlockLayout(m: Module, bs: nat)
    requires |m.name| + 4 <= bs && |m.data| < U32
    ensures var b := InfoBlock(m, bs);
      && b[..|m.name|] == Chars(m.name)
      && (forall i :: |m.name| <= i < bs - 4 ==> b[i] == 0)
      && WordAt(b, bs - 4) == |m.data|
  {
    hide Chars, Word, WordAt;
    WordReadBack(InfoBlock(m, bs), bs - 4, |m.data|);
  }

  // Names

  lemma {:induction false} LongString(bytes: seq<Byte>, n: nat)
    requires n < |bytes| && forall i :: 0 <= i <= n ==> bytes[i] != 0
    ensures |CString(bytes)| > n
  {
    if n > 0 {
      LongString(bytes[1..], n - 1);
    }
  }

  /** The name keeps its NUL, or the size word happens to begin with one. */
  predicate NameKept(m: Module, bs: nat) {
    |m.name| + 4 < bs || |m.data| % 256 == 0
  }

  lemma NameRead(m: Module, bs: nat, rest: seq<Byte>)
    requires |m.name| + 4 <= bs && Text(m.name)
    ensures CString(InfoBlock(m, bs) + rest) == m.name <==> NameKept(m, bs)
  {
    hide CString;
    var bytes, n := InfoBlock(m, bs) + rest, |m.name|;
    assert bytes[..n] == Chars(m.name);
    if n + 4 < bs {
      StartsCString(bytes, m.name);
    } else {
      assert bytes[n] == Word(|m.data|)[0] == |m.data| % 256;
      if |m.data| % 256 == 0 {
        StartsCString(bytes, m.name);
      } else {
        forall i | 0 <= i < n
          ensures bytes[i] != 0
        {
          assert bytes[..n][i] == Chars(m.name)[i];
        }
        LongString(bytes, n);
      }
    }
  }

  /** A name of 60 characters or more that fills whole words, alone in an archive, is read back wrong whatever follows
      its block, unless the size of its data is a multiple of 256. */
  lemma NameLost(m: Module, rest: seq<Byte>)
    requires Text(m.name) && |m.name| >= 60 && |m.name| % 4 == 0 && |m.data| % 256 != 0
    ensures BlockSize([m]) == |m.name| + 4
    ensures CString(InfoBlock(m, BlockSize([m])) + rest) != m.name
  {
    hide CString, InfoBlock;
    assert [m][..0] == [];
    assert BlockSize([m]) == Max(BlockSize([]), Align(|m.name|) + 4);
    NameRead(m, BlockSize([m]), rest);
  }

  // The loader

  /** A compiled program is never taken for a string: the section of its constants begins with a NUL. */
  lemma CodeIsNoString(units: seq<Unit>)
    ensures exists i :: 0 <= i < |Image.Body(units)| - 1 && Image.Body(units)[i] == 0
  {
    hide Image.Encode, Image.Raws, Image.PoolOf, ConstPool.Flat;
    var body, pool := Image.Body(units), ConstPool.Flat(Image.PoolOf(units));
    var at := 4 + 4 * |units|;
    Image.FlatHead(Image.PoolOf(units));
    if |pool| == 1 {
      assert body[at + 3] == Word(1)[3] == 0;
    } else {
      assert body[at + 4] == pool[0] == 0;
    }
  }

  /** The answers of `_getModuleNum`. */
  datatype Count = Count(num: nat) | UnalignedPtr | IllegalMagicCode | InvalidVersionNumber

  /** `_getModuleNum` on the bytes found at `address`. */
  method GetModuleNum(address: nat, library_bytes: seq<Byte>) returns (r: Count)
    requires |library_bytes| >= 20
    ensures r == UnalignedPtr <==> address % 4 != 0
    ensures r == IllegalMagicCode <==> address % 4 == 0 && library_bytes[..4] != MAGIC
    ensures r == InvalidVersionNumber <==>
      address % 4 == 0 && library_bytes[..4] == MAGIC && WordAt(library_bytes, 8) != VERSION
    ensures r.Count? ==> r.num == WordAt(library_bytes, 12)
  {
    if address % 4 != 0 {
      return UnalignedPtr;
    }
    var magic := library_bytes;
    if !(magic[0] == MAGIC[0] && magic[1] == MAGIC[1] && magic[2] == MAGIC[2] && magic[3] == MAGIC[3]) {
      return IllegalMagicCode;
    }
    if WordAt(library_bytes, 8) != VERSION {
      return InvalidVersionNumber;
    }
    r := Count(WordAt(library_bytes, 12));
  }

  /** What one round of the loader's loop reads. */
  lemma LoaderStep(ms: seq<Module>, k: nat, bytes: seq<Byte>)
    requires k < |ms| && Archived(ms) <= bytes && Total(ms) < U32
    ensures var bs := BlockSize(ms); var block := BlockStart(bs, k);
      && 4 <= bs && block + bs <= |bytes|
      && WordAt(bytes, block + bs - 4) == |ms[k].data|
      && bs * (k + 1) == bs * k + bs
      && SumSize(ms[..k + 1]) == SumSize(ms[..k]) + Align(|ms[k].data|)
  {
    hide Bodies, SumSize, Index, BlockSize, Word, WordAt, Align, Zeros, Archived;
    var bs, data := BlockSize(ms), ms[k].data;
    var block := BlockStart(bs, k);
    Parts(ms, k, bytes);
    BodyAt(ms, k);
    BodiesStep(ms, k);
    Snoc(bs, k + 1);
    var info := InfoBlock(ms[k], bs);
    assert info[bs - 4..] == Word(|data|);
    assert bytes[block + bs - 4..block + bs] == bytes[block..block + bs][bs - 4..];
    WordReadBack(bytes, block + bs - 4, |data|);
  }

  lemma LoadedName(ms: seq<Module>, k: nat, bytes: seq<Byte>)
    requires k < |ms| && Archived(ms) <= bytes && Text(ms[k].name)
    ensures var bs := BlockSize(ms); var block := BlockStart(bs, k);
      block <= |bytes| && (CString(bytes[block..]) == ms[k].name <==> NameKept(ms[k], bs))
  {
    hide *;
    Parts(ms, k, bytes);
    BlockName(ms[k], BlockSize(ms), bytes, BlockStart(BlockSize(ms), k));
  }

  lemma BlockName(m: Module, bs: nat, bytes: seq<Byte>, block: nat)
    requires |m.name| + 4 <= bs && Text(m.name)
    requires block + bs <= |bytes| && bytes[block..block + bs] == InfoBlock(m, bs)
    ensures CString(bytes[block..]) == m.name <==> NameKept(m, bs)
  {
    hide *;
    assert bytes[block..] == bytes[block..block + bs] + bytes[block + bs..];
    NameRead(m, bs, bytes[block + bs..]);
  }

  /**
   * `_loadModuleDataWithIndex` on the bytes of an archive, whatever follows them: the data of module `module_index`
   * and, exactly when `NameKept`, its name. The size is one less exactly when the only NUL of the data is its last
   * byte. For an empty module the answer is its size 0 if some NUL follows; if none does the search for one leaves the
   * given bytes and there is no answer.
   */
  method LoadModuleData(library_bytes: seq<Byte>, module_num: nat, module_index: nat, ghost ms: seq<Module>)
    returns (name: string, addr: nat, size: Option<nat>)
    requires Archived(ms) <= library_bytes && |library_bytes| < U32
    requires module_num == |ms| && module_index < |ms| && Text(ms[module_index].name)
    ensures addr <= |library_bytes| && (size.Some? ==> addr + size.value <= |library_bytes|)
    ensures var data := ms[module_index].data; data != [] ==>
      size.Some? && Reported(data, size.value) && library_bytes[addr..addr + size.value] == data[..size.value]
    ensures ms[module_index].data == [] ==> size == if HasNul(library_bytes[addr..]) then Some(0) else None
    ensures name == ms[module_index].name <==> NameKept(ms[module_index], BlockSize(ms))
  {
    hide Archived, BlockSize, SumSize, InfoBlock, Total, CString, WordAt, Text, Align, HasNul, NameKept, Reported;
    var module_name, module_size;
    module_name, addr, module_size := FindModule(library_bytes, module_num, module_index, ms);
    Parts(ms, module_index, library_bytes);
    LoadedName(ms, module_index, library_bytes);
    name := CString(library_bytes[module_name..]);
    size := FixSize(library_bytes, addr, module_size);
    if module_size > 0 {
      ReportedBound(library_bytes[addr..addr + module_size], size.value);
      Shorter(library_bytes, addr, module_size, size.value);
    }
  }

  /** The loop over the information blocks. */
  method FindModule(library_bytes: seq<Byte>, module_num: nat, module_index: nat, ghost ms: seq<Module>)
    returns (module_name: nat, addr: nat, size: nat)
    requires Archived(ms) <= library_bytes && |library_bytes| < U32 && module_num == |ms| && module_index < |ms|
    ensures module_name == BlockStart(BlockSize(ms), module_index) && size == |ms[module_index].data|
    ensures addr == BlockStart(BlockSize(ms), |ms|) + SumSize(ms[..module_index])
  {
    hide Archived, BlockSize, SumSize, InfoBlock, Total, WordAt, Align;
    Header(ms, library_bytes);
    var block_size := WordAt(library_bytes, 16);
    var next := block_size + block_size * module_num;
    var offset := 0;
    module_name, addr, size := 0, next, 0;
    NoneYet(ms);
    for i := 0 to module_index + 1
      invariant offset == block_size * i
      invariant next == block_size + block_size * module_num + SumSize(ms[..i])
      invariant i > 0 ==> module_name == block_size + block_size * (i - 1) && size == |ms[i - 1].data|
      invariant i > 0 ==> addr == block_size + block_size * module_num + SumSize(ms[..i - 1])
    {
      LoaderStep(ms, i, library_bytes);
      module_name := block_size + offset;
      size := WordAt(library_bytes, module_name + block_size - 4);
      addr := next;
      offset := offset + block_size;
      next := next + Align(size);
    }
  }

  /** The size `n` told for non-empty data: one less than it is exactly when the only NUL of the data is its last byte. */
  predicate Reported(data: seq<Byte>, n: nat) {
    && 0 <= |data| - 1 <= n <= |data|
    && (n == |data| - 1 <==> data[|data| - 1] == 0 && forall i :: 0 <= i < |data| - 1 ==> data[i] != 0)
  }

  lemma ReportedBound(data: seq<Byte>, n: nat)
    requires Reported(data, n)
    ensures n <= |data|
  {
  }

  predicate HasNul(bytes: seq<Byte>) {
    exists i :: 0 <= i < |bytes| && bytes[i] == 0
  }

  lemma Shorter(bytes: seq<Byte>, at: nat, n: nat, m: nat)
    requires m <= n && at + n <= |bytes|
    ensures bytes[at..at + m] == bytes[at..at + n][..m]
  {
  }

  /** The loop that looks for a NUL before the last byte, whose index is computed in 32 bits. */
  method FixSize(bytes: seq<Byte>, addr: nat, module_size: nat) returns (size: Option<nat>)
    requires addr + module_size <= |bytes| < U32
    ensures module_size > 0 ==> size.Some? && Reported(bytes[addr..addr + module_size], size.value)
    ensures module_size == 0 ==> size == if HasNul(bytes[addr..]) then Some(0) else None
  {
    ghost var data, rest := bytes[addr..addr + module_size], bytes[addr..];
    var last := (module_size - 1) % U32;
    var isString := true;
    var i := 0;
    while i < last
      invariant 0 <= i <= last && addr + i <= |bytes| && isString
      invariant forall j :: 0 <= j < i ==> rest[j] != 0
    {
      if addr + i >= |bytes| {
        return None;
      }
      assert bytes[addr + i] == rest[i];
      if bytes[addr + i] == 0 {
        isString := false;
        break;
      }
      i := i + 1;
    }
    assert forall j :: 0 <= j < module_size ==> data[j] == rest[j];
    size := Some(module_size);
    if isString {
      if addr + last >= |bytes| {
        return None;
      }
      if bytes[addr + last] == 0 {
        size := Some(module_size - 1);
      }
    }
  }

  // The linker

  /** `memcpy` of `src` to offset `at` of a buffer. */
  function Patch(buff: seq<Byte>, at: nat, src: seq<Byte>): (r: seq<Byte>)
    requires at + |src| <= |buff|
    ensures |r| == |buff|
  {
    buff[..at] + src + buff[at + |src|..]
  }

  /** Copying the name with its NUL and then the size, which may overwrite the NUL. */
  lemma PatchedBlock(m: Module, bs: nat)
    requires |m.name| + 4 <= bs
    ensures Patch(Patch(Zeros(bs), 0, Chars(m.name) + [0]), bs - 4, Word(|m.data|)) == InfoBlock(m, bs)
  {
    hide Word, Chars;
    var n := |m.name|;
    var named := Patch(Zeros(bs), 0, Chars(m.name) + [0]);
    assert named[..n] == Chars(m.name);
    assert forall i :: n <= i < bs - 4 ==> named[i] == 0;
    assert named[n..bs - 4] == Zeros(bs - 4 - n);
    assert named[..bs - 4] == named[..n] + named[n..bs - 4];
  }

  lemma PatchedMeta(total: nat, num: nat, bs: nat)
    requires bs >= DEFAULT_BLOCK
    ensures Patch(Patch(Patch(Patch(Patch(Zeros(bs), 0, MAGIC), 8, Word(VERSION)), 12, Word(num)), 4, Word(total)), 16, Word(bs))
      == MetaBlock(total, num, bs)
  {
    hide Word;
    var z := Zeros(bs);
    var a := Patch(z, 0, MAGIC);
    var b := Patch(a, 8, Word(VERSION));
    var c := Patch(b, 12, Word(num));
    var d := Patch(c, 4, Word(total));
    assert a == MAGIC + Zeros(bs - 4);
    assert b == MAGIC + Zeros(4) + Word(VERSION) + Zeros(bs - 12);
    assert c == MAGIC + Zeros(4) + Word(VERSION) + Word(num) + Zeros(bs - 16);
    assert d == MAGIC + Word(total) + Word(VERSION) + Word(num) + Zeros(bs - 16);
  }

  class PikaLinker {
    var module_num: nat
    var sum_size: nat
    var block_size: nat
    var written_size: nat
    var out_file: seq<Byte>

    constructor ()
      ensures module_num == 0 && sum_size == 0 && block_size == DEFAULT_BLOCK && written_size == 0 && out_file == []
    {
      module_num, sum_size, block_size, written_size, out_file := 0, 0, DEFAULT_BLOCK, 0, [];
    }

    method Fwrite(bytes: seq<Byte>)
      modifies this`out_file, this`written_size
      ensures out_file == old(out_file) + bytes && written_size == old(written_size) + |bytes|
    {
      out_file := out_file + bytes;
      written_size := written_size + |bytes|;
    }

    method WriteIndex(m: Module)
      requires |m.name| + 4 <= block_size
      modifies this`out_file, this`written_size
      ensures out_file == old(out_file) + InfoBlock(m, block_size) && written_size == old(written_size) + block_size
    {
      var block_buff := Zeros(block_size);
      block_buff := Patch(block_buff, 0, Chars(m.name) + [0]);
      block_buff := Patch(block_buff, block_size - 4, Word(|m.data|));
      PatchedBlock(m, block_size);
      Fwrite(block_buff);
    }

    method WriteBytecode(m: Module)
      modifies this`out_file, this`written_size
      ensures out_file == old(out_file) + Padded(m.data) && written_size == old(written_size) + |Padded(m.data)|
    {
      var align_size := Align(|m.data|) - |m.data|;
      Fwrite(m.data);
      Fwrite(Zeros(align_size));
    }

    method CountModules(ms: seq<Module>)
      requires module_num == 0
      modifies this`module_num
      ensures module_num == |ms|
    {
      for i := 0 to |ms|
        invariant module_num == i
      {
        module_num := module_num + 1;
      }
    }

    method SelectBlockSize(ms: seq<Module>)
      requires block_size == DEFAULT_BLOCK
      modifies this`block_size
      ensures block_size == BlockSize(ms)
    {
      hide Align;
      NoneYet(ms);
      for i := 0 to |ms|
        invariant block_size == BlockSize(ms[..i])
      {
        assert ms[..i + 1][..i] == ms[..i];
        var size := Align(|ms[i].name|) + 4;
        if size > block_size {
          block_size := size;
        }
      }
      assert ms[..|ms|] == ms;
    }

    method SumSizes(ms: seq<Module>)
      requires sum_size == 0
      modifies this`sum_size
      ensures sum_size == SumSize(ms)
    {
      hide Align;
      NoneYet(ms);
      for i := 0 to |ms|
        invariant sum_size == SumSize(ms[..i])
      {
        assert ms[..i + 1][..i] == ms[..i];
        sum_size := sum_size + Align(|ms[i].data|);
      }
      assert ms[..|ms|] == ms;
    }

    method WriteMeta(total: nat)
      requires block_size >= DEFAULT_BLOCK
      modifies this`out_file, this`written_size
      ensures out_file == old(out_file) + MetaBlock(total, module_num, block_size)
      ensures written_size == old(written_size) + block_size
    {
      hide Word, Patch, MetaBlock;
      var meta := Zeros(block_size);
      meta := Patch(meta, 0, MAGIC);
      meta := Patch(meta, 8, Word(VERSION));
      meta := Patch(meta, 12, Word(module_num));
      meta := Patch(meta, 4, Word(total));
      meta := Patch(meta, 16, Word(block_size));
      PatchedMeta(total, module_num, block_size);
      Fwrite(meta);
    }

    /** `LibObj_linkFile`; the size it declares is the size it writes. Sizes and lengths are those the words hold. */
    method LinkFile(ms: seq<Module>)
      requires module_num == 0 && sum_size == 0 && block_size == DEFAULT_BLOCK && written_size == 0 && out_file == []
      requires Total(ms) < U32 && forall i :: 0 <= i < |ms| ==> |ms[i].name| < 65536
      modifies this
      ensures out_file == Archived(ms) && written_size == Total(ms) == |out_file|
    {
      hide BlockSize, SumSize, Index, Bodies, InfoBlock, Padded, MetaBlock;
      CountModules(ms);
      SelectBlockSize(ms);
      SumSizes(ms);
      RoomyBlocks(ms);
      WriteMeta(block_size * (module_num + 1) + sum_size);
      WriteIndices(ms);
      WriteBytecodes(ms);
    }

    method WriteIndices(ms: seq<Module>)
      requires Roomy(ms, block_size)
      modifies this`out_file, this`written_size
      ensures out_file == old(out_file) + Index(ms, block_size)
      ensures written_size == old(written_size) + block_size * |ms|
    {
      hide Index, InfoBlock;
      IndexNone(ms, block_size);
      for i := 0 to |ms|
        invariant out_file == old(out_file) + Index(ms[..i], block_size)
        invariant written_size == old(written_size) + |Index(ms[..i], block_size)|
      {
        IndexStep(ms, i, block_size);
        WriteIndex(ms[i]);
      }
      assert ms[..|ms|] == ms;
    }

    method WriteBytecodes(ms: seq<Module>)
      modifies this`out_file, this`written_size
      ensures out_file == old(out_file) + Bodies(ms) && written_size == old(written_size) + SumSize(ms)
    {
      hide Bodies, Padded, SumSize;
      NoneYet(ms);
      for i := 0 to |ms|
        invariant out_file == old(out_file) + Bodies(ms[..i])
        invariant written_size == old(written_size) + |Bodies(ms[..i])|
      {
        BodiesStep(ms, i);
        WriteBytecode(ms[i]);
      }
      assert ms[..|ms|] == ms;
    }
  }

  lemma IndexNone(ms: seq<Module>, bs: nat)
    requires Roomy(ms, bs)
    ensures Index(ms[..0], bs) == []
  {
  }

  lemma NoneYet(ms: seq<Module>)
    ensures BlockSize(ms[..0]) == DEFAULT_BLOCK && SumSize(ms[..0]) == 0 && Bodies(ms[..0]) == []
  {
  }

  lemma IndexStep(ms: seq<Module>, k: nat, bs: nat)
    requires k < |ms| && Roomy(ms, bs)
    ensures Index(ms[..k + 1], bs) == Index(ms[..k], bs) + InfoBlock(ms[k], bs)
  {
    assert ms[..k + 1][..k] == ms[..k];
  }
}
