/** `src/PikaVM.h`: the bit fields of an instruction unit. */
module UnitBits {
  import opened Bytecode
  import opened Bytes

  /** A unit as stored: two depths in one byte, new-line bit and instruction in the next, a 16-bit pool index. */
  datatype Raw = Raw(deepth: bv8, isNewLine_instruct: bv8, const_pool_index: nat)

  /** Numbers of the instructions, in the order of `src/__instruction_table.h`. */
  function Number(ins: Ins): bv8 {
    match ins
    case REF => 1 case RUN => 2 case STR => 3 case OUT => 4 case NUM => 5 case JMP => 6 case JEZ => 7
    case OPT => 8 case RET => 10 case NEL => 11 case DEL => 12 case EST => 13 case BRK => 14 case CTN => 15
    case BYT => 20 case LST => 21 case GER => 26 case DCT => 28 case SLC => 29 case TPL => 33 case NLS => 34
  }

  function Instruct(n: bv8): Option<Ins> {
    if n == 1 then Some(REF) else if n == 2 then Some(RUN) else if n == 3 then Some(STR) else
    if n == 4 then Some(OUT) else if n == 5 then Some(NUM) else if n == 6 then Some(JMP) else
    if n == 7 then Some(JEZ) else if n == 8 then Some(OPT) else if n == 10 then Some(RET) else
    if n == 11 then Some(NEL) else if n == 12 then Some(DEL) else if n == 13 then Some(EST) else
    if n == 14 then Some(BRK) else if n == 15 then Some(CTN) else if n == 20 then Some(BYT) else
    if n == 21 then Some(LST) else if n == 26 then Some(GER) else if n == 28 then Some(DCT) else
    if n == 29 then Some(SLC) else if n == 33 then Some(TPL) else if n == 34 then Some(NLS) else None
  }

  /** A depth cut to four bits: `0x0F & val`. */
  function Low(val: nat): bv8 {
    (val % 16) as bv8
  }

  /** The setters, applied one after the other to a zeroed unit. */
  function Fill(block: nat, invoke: nat, newLine: bool, ins: Ins, index: nat): Raw {
    Raw(
      (0 | Low(block)) | (Low(invoke) << 4),
      (0 | (0x7F & Number(ins))) | (if newLine then (0x01 & 1) << 7 else 0),
      index)
  }

  // The getters

  function BlockOf(r: Raw): nat {
    (r.deepth & 0x0F) as nat
  }

  function InvokeOf(r: Raw): nat {
    (r.deepth >> 4) as nat
  }

  function InsOf(r: Raw): Option<Ins> {
    Instruct(r.isNewLine_instruct & 0x7F)
  }

  predicate NewLineOf(r: Raw) {
    r.isNewLine_instruct >> 7 != 0
  }

  lemma NatOfNibble(v: nat)
    requires v < 16
    ensures v as bv8 < 16 && (v as bv8) as nat == v
  {
  }

  lemma LowIs(val: nat)
    ensures Low(val) < 16 && Low(val) as nat == val % 16
  {
    NatOfNibble(val % 16);
  }

  lemma Nibbles(a: bv8, b: bv8)
    requires a < 16 && b < 16
    ensures ((0 | a) | (b << 4)) & 0x0F == a && ((0 | a) | (b << 4)) >> 4 == b
  {
  }

  lemma LineByte(n: bv8, newLine: bool)
    requires n < 128
    ensures var b: bv8 := (0 | (0x7F & n)) | (if newLine then (0x01 & 1) << 7 else 0);
      b & 0x7F == n && (b >> 7 != 0 <==> newLine)
  {
  }

  lemma NumberBack(ins: Ins)
    ensures Number(ins) < 128 && Instruct(Number(ins)) == Some(ins)
  {
  }

  /** The getters read back what the setters wrote: the depths modulo 16, the rest exactly. */
  lemma FieldsBack(block: nat, invoke: nat, newLine: bool, ins: Ins, index: nat)
    ensures var r := Fill(block, invoke, newLine, ins, index);
      && BlockOf(r) == block % 16 && InvokeOf(r) == invoke % 16
      && NewLineOf(r) == newLine && InsOf(r) == Some(ins) && r.const_pool_index == index
  {
    hide Number, Instruct, Low;
    LowIs(block);
    LowIs(invoke);
    Nibbles(Low(block), Low(invoke));
    NumberBack(ins);
    LineByte(Number(ins), newLine);
  }

  /** The instruction names in the order of `src/__instruction_table.h`, on which compiled files depend. */
  const INSTRUCTION_TABLE: seq<string> := [
    "NON", "REF", "RUN", "STR", "OUT", "NUM", "JMP", "JEZ", "OPT", "DEF", "RET", "NEL", "DEL", "EST", "BRK", "CTN", "GLB", "RAS",
    "NEW", "CLS", "BYT", "LST", "IMP", "TRY", "NTR", "RIS", "GER", "SER", "DCT", "SLC", "ASS", "EXP", "JNZ", "TPL", "NLS", "INH"]

  /** The instruction as it is written in assembler text. */
  function Mnemonic(ins: Ins): string {
    match ins
    case REF => "REF" case RUN => "RUN" case STR => "STR" case OUT => "OUT" case NUM => "NUM" case JMP => "JMP"
    case JEZ => "JEZ" case OPT => "OPT" case RET => "RET" case NEL => "NEL" case DEL => "DEL" case EST => "EST"
    case BRK => "BRK" case CTN => "CTN" case BYT => "BYT" case LST => "LST" case GER => "GER" case DCT => "DCT"
    case SLC => "SLC" case TPL => "TPL" case NLS => "NLS"
  }

  lemma NumberIsPosition(ins: Ins)
    ensures Number(ins) as nat < |INSTRUCTION_TABLE| && INSTRUCTION_TABLE[Number(ins) as nat] == Mnemonic(ins)
  {
  }

  /** A unit in memory, least significant byte first. */
  function RawBytes(r: Raw): (b: seq<Byte>)
    ensures |b| == 4
  {
    [r.deepth as int, r.isNewLine_instruct as int, r.const_pool_index % 256, r.const_pool_index / 256 % 256]
  }

  lemma DepthByte(a: bv8, b: bv8)
    requires a < 16 && b < 16
    ensures ((0 | a) | (b << 4)) as int == a as int + 16 * b as int
  {
    assert (0 | a) | (b << 4) == a + 16 * b;
  }

  lemma LineByteValue(n: bv8, newLine: bool)
    requires n < 128
    ensures var b: bv8 := (0 | (0x7F & n)) | (if newLine then (0x01 & 1) << 7 else 0);
      b as int == n as int + if newLine then 128 else 0
  {
    assert newLine ==> (0 | (0x7F & n)) | ((0x01 & 1) << 7) == n + 128;
    assert (0 | (0x7F & n)) | 0 == n;
  }

  /** The four bytes of a stored unit: the block depth in the low half and the invoke depth in the high half of the first,
      the new-line bit on top of the instruction's number in the second, then the index with its low byte first. */
  lemma StoredBytes(block: nat, invoke: nat, newLine: bool, ins: Ins, index: nat)
    ensures var b := RawBytes(Fill(block, invoke, newLine, ins, index));
      && b[0] == block % 16 + 16 * (invoke % 16)
      && (b[1] >= 128 <==> newLine)
      && b[1] % 128 < |INSTRUCTION_TABLE| && INSTRUCTION_TABLE[b[1] % 128] == Mnemonic(ins)
      && b[2] == index % 256 && b[3] == index / 256 % 256
  {
    hide *;
    FilledBytes(block, invoke, newLine, ins, index);
    NumberIsPosition(ins);
    TopBit(Number(ins) as int, newLine);
  }

  lemma TopBit(n: int, newLine: bool)
    requires 0 <= n < 128
    ensures var b := n + if newLine then 128 else 0; b % 128 == n && (b >= 128 <==> newLine)
  {
  }

  lemma FilledBytes(block: nat, invoke: nat, newLine: bool, ins: Ins, index: nat)
    ensures Number(ins) as int < 128
    ensures var b := RawBytes(Fill(block, invoke, newLine, ins, index));
      && b[0] == block % 16 + 16 * (invoke % 16) && b[1] == Number(ins) as int + (if newLine then 128 else 0)
      && b[2] == index % 256 && b[3] == index / 256 % 256
  {
    hide *;
    LowIs(block);
    LowIs(invoke);
    DepthByte(Low(block), Low(invoke));
    SmallNumber(ins);
    LineByteValue(Number(ins), newLine);
    FilledFields(block, invoke, newLine, ins, index);
    BytesOf(Fill(block, invoke, newLine, ins, index));
  }

  lemma SmallNumber(ins: Ins)
    ensures Number(ins) < 128 && Number(ins) as int < 128
  {
    NumberIsPosition(ins);
  }

  lemma FilledFields(block: nat, invoke: nat, newLine: bool, ins: Ins, index: nat)
    ensures var r := Fill(block, invoke, newLine, ins, index);
      && r.deepth == (0 | Low(block)) | (Low(invoke) << 4)
      && r.isNewLine_instruct == (0 | (0x7F & Number(ins))) | (if newLine then (0x01 & 1) << 7 else 0)
      && r.const_pool_index == index
  {
    hide Low, Number;
  }

  lemma BytesOf(r: Raw)
    ensures RawBytes(r) == [r.deepth as int, r.isNewLine_instruct as int, r.const_pool_index % 256, r.const_pool_index / 256 % 256]
  {
  }

  function RawAt(bytes: seq<Byte>, at: nat): Raw
    requires at + 4 <= |bytes|
  {
    Raw(bytes[at] as bv8, bytes[at + 1] as bv8, bytes[at + 2] as int + 256 * bytes[at + 3] as int)
  }

  lemma ByteOfByte(b: bv8)
    ensures 0 <= b as int < 256 && (b as int) as bv8 == b
  {
  }

  lemma RawBack(bytes: seq<Byte>, at: nat, r: Raw)
    requires at + 4 <= |bytes| && bytes[at..at + 4] == RawBytes(r) && r.const_pool_index < 65536
    ensures RawAt(bytes, at) == r
  {
    var w := bytes[at..at + 4];
    assert bytes[at] == w[0] && bytes[at + 1] == w[1] && bytes[at + 2] == w[2] && bytes[at + 3] == w[3];
    ByteOfByte(r.deepth);
    ByteOfByte(r.isNewLine_instruct);
  }
}

/** `src/PikaParser.c`, `src/PikaCompiler.c`: compiled programs in memory and in `.pyo` files. */
module Image {
  import opened Bytecode
  import opened Bytes
  import opened ConstPool
  import opened UnitBits

  const MAGIC: seq<Byte> := [0x0F, 'p' as int, 'y' as int, 'o' as int]

  /** Units whose fields fit their bits and whose operands are C strings of 16-bit size. */
  predicate Storable(u: Unit) {
    u.block < 16 && u.invoke < 16 && Operand(u.data)
  }

  predicate Operand(data: string) {
    Text(data) && |data| + 1 < U16
  }

  function RawUnit(u: Unit, index: nat): Raw {
    Fill(u.block, u.invoke, u.newLine, u.ins, index)
  }

  /** The constants after all operands of `units` were interned in order. */
  function PoolOf(units: seq<Unit>): seq<string> {
    if units == [] then []
    else After(PoolOf(units[..|units| - 1]), units[|units| - 1].data)
  }

  /** The stored units, each with the index its operand got when it was interned. */
  function Raws(units: seq<Unit>): (r: seq<Raw>)
    ensures |r| == |units|
  {
    if units == [] then []
    else
      var init, last := units[..|units| - 1], units[|units| - 1];
      Raws(init) + [RawUnit(last, IndexFor(PoolOf(init), last.data))]
  }

  function Encode(raws: seq<Raw>): (b: seq<Byte>)
    ensures |b| == 4 * |raws|
  {
    if raws == [] then [] else Encode(raws[..|raws| - 1]) + RawBytes(raws[|raws| - 1])
  }

  lemma SnocUnit(units: seq<Unit>, u: Unit)
    ensures PoolOf(units + [u]) == After(PoolOf(units), u.data)
    ensures Raws(units + [u]) == Raws(units) + [RawUnit(u, IndexFor(PoolOf(units), u.data))]
  {
    assert (units + [u])[..|units|] == units;
  }

  lemma SnocRaw(raws: seq<Raw>, r: Raw)
    ensures Encode(raws + [r]) == Encode(raws) + RawBytes(r)
  {
    assert (raws + [r])[..|raws|] == raws;
  }

  /** Unit `i` holds the place of its own operand in the final pool. */
  predicate Indexed(units: seq<Unit>, i: nat)
    requires i < |units|
  {
    Raws(units)[i] == RawUnit(units[i], Place(PoolOf(units), units[i].data))
  }

  lemma {:induction false} OperandHeld(units: seq<Unit>, i: nat)
    requires i < |units|
    ensures Holds(PoolOf(units), units[i].data)
  {
    hide Flat, Holds, Place, After;
    var init, last := units[..|units| - 1], units[|units| - 1];
    AfterHolds(PoolOf(init), last.data);
    if i < |units| - 1 {
      OperandHeld(init, i);
      PlaceStable(PoolOf(init), PoolOf(units), units[i].data);
    }
  }

  /** A unit keeps its index, and its operand its place, when more units follow. */
  lemma IndexedInit(units: seq<Unit>, i: nat)
    requires i < |units| - 1
    ensures Indexed(units, i) <==> Indexed(units[..|units| - 1], i)
  {
    hide Flat, Holds, Place, IndexFor, After, RawUnit;
    var init, last := units[..|units| - 1], units[|units| - 1];
    assert init[i] == units[i];
    AfterHolds(PoolOf(init), last.data);
    OperandHeld(init, i);
    PlaceStable(PoolOf(init), PoolOf(units), units[i].data);
  }

  /** Every stored unit holds the place of its own operand in the final pool. */
  lemma {:induction false} IndicesFinal(units: seq<Unit>, i: nat)
    requires i < |units| && InReach(PoolOf(units))
    ensures Holds(PoolOf(units), units[i].data) && Indexed(units, i)
  {
    hide Flat, Holds, Place, IndexFor, After, RawUnit, InReach;
    var init, last := units[..|units| - 1], units[|units| - 1];
    OperandHeld(units, i);
    AfterHolds(PoolOf(init), last.data);
    if i == |units| - 1 {
      IndexForIsPlace(PoolOf(init), last.data);
    } else {
      InReachPrefix(PoolOf(init), PoolOf(units));
      IndicesFinal(init, i);
      IndexedInit(units, i);
    }
  }

  /** A program with a constant out of reach has a unit whose index is not the place of its operand. */
  lemma {:induction false} IndexLost(units: seq<Unit>) returns (i: nat)
    requires !InReach(PoolOf(units)) && forall j :: 0 <= j < |units| ==> |units[j].data| + 1 < U16
    ensures i < |units| && !Indexed(units, i)
  {
    hide Flat, Holds, Place, IndexFor, After, Fill, Low, Number;
    i := 0;
    if units != [] {
      var init, last := units[..|units| - 1], units[|units| - 1];
      if InReach(PoolOf(init)) {
        IndexForOutOfReach(PoolOf(init), last.data);
        i := |init|;
        IndexInUnit(last, IndexFor(PoolOf(init), last.data));
        IndexInUnit(last, Place(PoolOf(units), last.data));
      } else {
        i := IndexLost(init);
        IndexedInit(units, i);
      }
    }
  }

  lemma IndexInUnit(u: Unit, index: nat)
    ensures RawUnit(u, index).const_pool_index == index
  {
  }

  /** All indices are right if and only if every constant of the program starts within 64 KiB. */
  lemma IndicesExact(units: seq<Unit>)
    requires forall j :: 0 <= j < |units| ==> |units[j].data| + 1 < U16
    ensures (forall i :: 0 <= i < |units| ==> Indexed(units, i)) <==> InReach(PoolOf(units))
  {
    hide Indexed, InReach, PoolOf;
    if InReach(PoolOf(units)) {
      forall i | 0 <= i < |units|
        ensures Indexed(units, i)
      {
        IndicesFinal(units, i);
      }
    } else {
      var i := IndexLost(units);
    }
  }

  /** Two units of a program have the same index exactly when they have the same operand. */
  lemma OperandsShared(units: seq<Unit>, i: nat, j: nat)
    requires i < |units| && j < |units| && InReach(PoolOf(units))
    requires Text(units[i].data) && Text(units[j].data)
    ensures Raws(units)[i].const_pool_index == Raws(units)[j].const_pool_index <==> units[i].data == units[j].data
  {
    hide Flat, PoolOf, Raws, Place, Holds;
    IndicesFinal(units, i);
    IndicesFinal(units, j);
    PlaceInjective(PoolOf(units), units[i].data, units[j].data);
  }

  // What the VM reads

  /** The unit at byte offset `at` with its operand from the pool. */
  function ReadUnit(code: seq<Byte>, at: nat, pool: seq<Byte>): Option<Unit>
    requires at + 4 <= |code|
  {
    var r := RawAt(code, at);
    if r.const_pool_index <= |pool| && InsOf(r).Some?
    then Some(Unit(BlockOf(r), InvokeOf(r), NewLineOf(r), InsOf(r).value, CString(pool[r.const_pool_index..])))
    else None
  }

  /** A byte code frame made from memory that holds a compiled program. */
  datatype Loaded = Loaded(code: seq<Byte>, pool: seq<Byte>)

  /** `_do_byteCodeFrame_loadByteCode`; `None` where it would read outside the given bytes. */
  function Load(bytes: seq<Byte>): Option<Loaded> {
    if |bytes| < 4 then None else
    var start := if bytes[..4] == MAGIC then 8 else 0;
    if |bytes| < start + 4 then None else
    var codeSize := WordAt(bytes, start);
    if |bytes| < start + 8 + codeSize then None else
    var poolSize := WordAt(bytes, start + 4 + codeSize);
    if |bytes| < start + 8 + codeSize + poolSize then None else
    Some(Loaded(bytes[start + 4..start + 4 + codeSize], bytes[start + 8 + codeSize..start + 8 + codeSize + poolSize]))
  }

  /** The part of a `.pyo` file behind its eight byte head. */
  function Body(units: seq<Unit>): seq<Byte> {
    Word(4 * |units|) + Encode(Raws(units)) + Word(|Flat(PoolOf(units))|) + Flat(PoolOf(units))
  }

  function File(units: seq<Unit>): seq<Byte> {
    MAGIC + Word(|Body(units)|) + Body(units)
  }

  lemma {:induction false} EncodeAt(raws: seq<Raw>, i: nat)
    requires i < |raws|
    ensures Encode(raws)[4 * i..4 * i + 4] == RawBytes(raws[i])
  {
    if i < |raws| - 1 {
      EncodeAt(raws[..|raws| - 1], i);
      assert Encode(raws)[4 * i..4 * i + 4] == Encode(raws[..|raws| - 1])[4 * i..4 * i + 4];
    }
  }

  /** Reading unit `i` of the stored program gives unit `i` of the program. */
  lemma ReadBack(units: seq<Unit>, i: nat)
    requires i < |units| && InReach(PoolOf(units)) && Storable(units[i])
    ensures ReadUnit(Encode(Raws(units)), 4 * i, Flat(PoolOf(units))) == Some(units[i])
  {
    hide *;
    var u, entries := units[i], PoolOf(units);
    IndicesFinal(units, i);
    IndexedIs(units, i);
    StorableText(u);
    PlaceInReach(entries, u.data);
    PlaceDecodes(entries, u.data);
    EncodeAt(Raws(units), i);
    IndexInUnit(u, Place(entries, u.data));
    RawBack(Encode(Raws(units)), 4 * i, Raws(units)[i]);
    UnitRead(Encode(Raws(units)), 4 * i, Flat(entries), u, Place(entries, u.data));
  }

  lemma IndexedIs(units: seq<Unit>, i: nat)
    requires i < |units| && Indexed(units, i)
    ensures Raws(units)[i] == RawUnit(units[i], Place(PoolOf(units), units[i].data))
  {
  }

  lemma StorableText(u: Unit)
    requires Storable(u)
    ensures Text(u.data)
  {
  }

  /** A stored unit with the right index reads as the unit. */
  lemma UnitRead(code: seq<Byte>, at: nat, pool: seq<Byte>, u: Unit, index: nat)
    requires at + 4 <= |code| && RawAt(code, at) == RawUnit(u, index) && Storable(u)
    requires index <= |pool| && CString(pool[index..]) == u.data
    ensures ReadUnit(code, at, pool) == Some(u)
  {
    hide CString, Text, RawAt, InsOf, BlockOf, InvokeOf, NewLineOf, Fill;
    FieldsBack(u.block, u.invoke, u.newLine, u.ins, index);
  }

  /** Code and pool are found behind any head of the right length. */
  lemma Sections(head: seq<Byte>, code: seq<Byte>, pool: seq<Byte>)
    requires |code| < U32 && |pool| < U32
    ensures var bytes := head + (Word(|code|) + code + Word(|pool|) + pool);
      && |bytes| == |head| + 8 + |code| + |pool|
      && WordAt(bytes, |head|) == |code|
      && bytes[|head| + 4..|head| + 4 + |code|] == code
      && WordAt(bytes, |head| + 4 + |code|) == |pool|
      && bytes[|head| + 8 + |code|..] == pool
  {
    hide Word;
    var bytes := head + (Word(|code|) + code + Word(|pool|) + pool);
    WordReadBack(bytes, |head|, |code|);
    WordReadBack(bytes, |head| + 4 + |code|, |pool|);
  }

  lemma LoadSections(head: seq<Byte>, code: seq<Byte>, pool: seq<Byte>)
    requires |code| < U32 && |pool| < U32
    requires (head == [] && Word(|code|) != MAGIC) || (|head| == 8 && head[..4] == MAGIC)
    ensures Load(head + (Word(|code|) + code + Word(|pool|) + pool)) == Some(Loaded(code, pool))
  {
    hide Word, WordAt;
    var bytes := head + (Word(|code|) + code + Word(|pool|) + pool);
    Sections(head, code, pool);
    if head == [] {
      assert bytes[..4] == Word(|code|);
    } else {
      assert bytes[..4] == head[..4];
    }
    assert bytes[|head| + 8 + |code|..|head| + 8 + |code| + |pool|] == pool;
  }

  /** The size word of a program without head is never taken for the magic code. */
  lemma NoMagic(n: nat)
    ensures Word(4 * n) != MAGIC
  {
    assert Word(4 * n)[0] == 4 * n % 256;
  }

  /**
   * Loading a compiled program, from a file or from memory without the file's head, gives sections from which
   * every unit reads back with its own operand; the head states the size of the rest.
   */
  lemma ImageRoundTrip(units: seq<Unit>)
    requires forall i :: 0 <= i < |units| ==> Storable(units[i])
    requires InReach(PoolOf(units)) && |File(units)| < U32
    ensures var l := Loaded(Encode(Raws(units)), Flat(PoolOf(units)));
      && Load(File(units)) == Some(l) && Load(Body(units)) == Some(l)
      && |l.code| == 4 * |units|
      && (forall i :: 0 <= i < |units| ==> ReadUnit(l.code, 4 * i, l.pool) == Some(units[i]))
    ensures WordAt(File(units), 4) == |File(units)| - 8
  {
    hide Flat, PoolOf, Raws, Encode, Storable, Word, WordAt, ReadUnit, Load;
    var code, pool := Encode(Raws(units)), Flat(PoolOf(units));
    var head := MAGIC + Word(|Body(units)|);
    LoadSections(head, code, pool);
    NoMagic(|units|);
    LoadSections([], code, pool);
    assert [] + Body(units) == Body(units);
    assert File(units)[4..8] == Word(|Body(units)|);
    WordReadBack(File(units), 4, |Body(units)|);
    forall i | 0 <= i < |units|
      ensures ReadUnit(code, 4 * i, pool) == Some(units[i])
    {
      ReadBack(units, i);
    }
  }

  /** The bytes of a `.pyo` file in their places: magic code, size of the rest, size of the units, four bytes for each
      unit, size of the constants, constants. */
  lemma FileLayout(units: seq<Unit>)
    requires |File(units)| < U32
    ensures var f, pool := File(units), Flat(PoolOf(units)); var at := 12 + 4 * |units|;
      && |f| == at + 4 + |pool|
      && f[..4] == [0x0F, 'p' as int, 'y' as int, 'o' as int]
      && WordAt(f, 4) == |f| - 8 && WordAt(f, 8) == 4 * |units|
      && (forall i :: 0 <= i < |units| ==> f[12 + 4 * i..16 + 4 * i] == RawBytes(Raws(units)[i]))
      && WordAt(f, at) == |pool| && f[at + 4..] == pool
  {
    hide Flat, PoolOf, Raws, Encode, Word, WordAt, RawBytes;
    var code, pool := Encode(Raws(units)), Flat(PoolOf(units));
    var head := MAGIC + Word(|Body(units)|);
    Sections(head, code, pool);
    var f := File(units);
    assert f == head + (Word(|code|) + code + Word(|pool|) + pool);
    assert f[4..8] == Word(|Body(units)|);
    WordReadBack(f, 4, |Body(units)|);
    forall i | 0 <= i < |units|
      ensures f[12 + 4 * i..16 + 4 * i] == RawBytes(Raws(units)[i])
    {
      EncodeAt(Raws(units), i);
      assert f[12..12 + |code|] == code;
      assert f[12 + 4 * i..16 + 4 * i] == f[12..12 + |code|][4 * i..4 * i + 4];
    }
  }

  // The compiler's passes

  /** Where the units of a frame go, and whether new constants are copied to the file. */
  datatype Output = KeepUnits | DropUnits | UnitsToFile | PoolToFile

  /** What a pass writes to the file. */
  function Written(out: Output, units: seq<Unit>): seq<Byte> {
    match out
    case UnitsToFile => Encode(Raws(units))
    case PoolToFile => Flat(PoolOf(units))[1..]
    case _ => []
  }

  /** A byte code frame under construction. */
  class ByteCodeFrame {
    const pool: Constants
    const output: Output
    var code: seq<Byte>
    var size: nat
    var file: seq<Byte>
    ghost const base: seq<Byte>
    ghost var units: seq<Unit>

    ghost predicate Valid()
      reads this, pool
    {
      && pool.Valid() && pool.entries == PoolOf(units)
      && size == 4 * |units|
      && (output.KeepUnits? ==> code == Encode(Raws(units)))
      && file == base + Written(output, units)
    }

    constructor (start: seq<Byte>, out: Output)
      ensures Valid() && fresh(pool) && units == [] && base == start && output == out
    {
      pool := new Constants();
      code, size, file, units := [], 0, start, [];
      output, base := out, start;
      new;
      FlatNone();
    }

    /** Interns the operand of one assembler line and returns its index. */
    method Intern(data: string) returns (index: nat)
      requires Valid() && Operand(data)
      modifies this`file, pool
      ensures pool.Valid() && pool.entries == After(PoolOf(units), data) && index == IndexFor(PoolOf(units), data)
      ensures file == old(file) + if output.PoolToFile? then Flat(pool.entries)[old(pool.size)..] else []
      ensures old(pool.size) == |Flat(PoolOf(units))|
    {
      hide Flat, PoolOf, Raws, Encode, Lookup, Find, Text, Chars, Written;
      FlatSnoc(pool.entries, data);
      TailOf(Flat(pool.entries), Chars(data) + [0]);
      assert Flat(pool.entries) + (Chars(data) + [0]) == Flat(pool.entries) + Chars(data) + [0];
      var exist := pool.GetOffsetByData(data);
      if data == "" {
        index := 0;
      } else if exist == NOT_FOUND {
        index := pool.size % U16;
        pool.Append(data);
        if output.PoolToFile? {
          file := file + Chars(data) + [0];
        }
      } else {
        index := exist;
      }
    }

    /** Appends one unit to the instruction array or the file. */
    method Append(u: Unit)
      requires Valid() && Operand(u.data)
      modifies this, pool
      ensures Valid() && units == old(units) + [u]
    {
      hide Flat, PoolOf, Raws, Encode, After, IndexFor, Operand, Text, RawUnit, RawBytes;
      SnocUnit(units, u);
      AfterHolds(PoolOf(units), u.data);
      var index := Intern(u.data);
      var raw := RawUnit(u, index);
      SnocRaw(Raws(units), raw);
      AfterTail(PoolOf(units), u.data);
      match output {
        case KeepUnits => code := code + RawBytes(raw);
        case UnitsToFile => file := file + RawBytes(raw);
        case _ =>
      }
      size := size + 4;
      units := units + [u];
    }

    /** `byteCodeFrame_appendFromAsm` on the assembler text of one source line. */
    method AppendFromAsm(text: seq<Asm>)
      requires Valid() && forall i :: 0 <= i < |text| && text[i].I? ==> Operand(text[i].data)
      modifies this, pool
      ensures Valid() && units == old(units) + Assemble(text)
    {
      hide Flat, PoolOf, Raws, Encode, Operand;
      var block, newLine := 0, false;
      for i := 0 to |text|
        invariant Valid()
        invariant units + Assemble(text[i..], block, newLine) == old(units) + Assemble(text)
      {
        assert text[i..][1..] == text[i + 1..];
        match text[i] {
          case B(d) => block, newLine := d, true;
          case I(_, _, _) =>
            Append(Pack(block, newLine, text[i]));
            newLine := false;
        }
      }
    }
  }

  /** Interning only adds behind the old pool. */
  lemma AfterTail(entries: seq<string>, data: string)
    ensures Flat(After(entries, data))[1..] == Flat(entries)[1..] + Flat(After(entries, data))[|Flat(entries)|..]
  {
    hide Flat, Chars, Lookup;
    FlatSnoc(entries, data);
    TailOf(Flat(entries), Chars(data) + [0]);
    TailOf(Flat(entries), []);
    assert Flat(entries) + [] == Flat(entries);
    assert Flat(entries) + (Chars(data) + [0]) == Flat(entries) + Chars(data) + [0];
  }

  lemma TailOf(a: seq<Byte>, x: seq<Byte>)
    requires |a| >= 1
    ensures (a + x)[1..] == a[1..] + x && (a + x)[|a|..] == x
  {
  }

  ghost predicate Writable(texts: seq<seq<Asm>>) {
    forall k :: 0 <= k < |texts| ==> forall i :: 0 <= i < |texts[k]| && texts[k][i].I? ==> Operand(texts[k][i].data)
  }

  lemma UnitsNone()
    ensures UnitsOf([]) == []
  {
  }

  /** One pass of the compiler over the program. */
  method Pass(texts: seq<seq<Asm>>, start: seq<Byte>, out: Output) returns (frame: ByteCodeFrame)
    requires Writable(texts)
    ensures frame.file == start + Written(out, UnitsOf(texts))
    ensures frame.size == 4 * |UnitsOf(texts)| && frame.pool.size == |Flat(PoolOf(UnitsOf(texts)))|
  {
    hide UnitsOf, Assemble, Operand, Flat, PoolOf, Raws, Encode, Written;
    frame := new ByteCodeFrame(start, out);
    UnitsNone();
    assert texts[..0] == [];
    for k := 0 to |texts|
      invariant frame.Valid() && frame.units == UnitsOf(texts[..k])
      invariant fresh(frame) && fresh(frame.pool)
      invariant frame.base == start && frame.output == out
    {
      UnitsStep(texts, k);
      frame.AppendFromAsm(texts[k]);
    }
    assert texts[..|texts|] == texts;
  }

  /** `pikaCompile`: the sizes, then the units, then the constants. */
  method Compile(texts: seq<seq<Asm>>) returns (file: seq<Byte>)
    requires Writable(texts)
    ensures file == File(UnitsOf(texts))
  {
    hide *;
    var sizes := Pass(texts, [], DropUnits);
    var poolSize, codeSize := sizes.pool.size, sizes.size;
    file := MAGIC + Word(poolSize + codeSize + 8) + Word(codeSize);
    var second := Pass(texts, file, UnitsToFile);
    file := second.file + Word(poolSize) + [0];
    var third := Pass(texts, file, PoolToFile);
    file := third.file;
    FileParts(UnitsOf(texts));
  }

  /** The parts in the order they are written. */
  lemma FileParts(units: seq<Unit>)
    ensures var poolSize, codeSize := |Flat(PoolOf(units))|, 4 * |units|;
      File(units) == MAGIC + Word(poolSize + codeSize + 8) + Word(codeSize) + Written(UnitsToFile, units)
        + Word(poolSize) + [0] + Written(PoolToFile, units)
  {
    hide Flat, Encode, Raws, PoolOf, Word;
    FlatHead(PoolOf(units));
  }

  lemma FlatHead(entries: seq<string>)
    ensures Flat(entries) == [0] + Flat(entries)[1..]
  {
    FlatPrefix(entries, 0);
    assert Flat(entries[..0]) == [0];
  }
}
