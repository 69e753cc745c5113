/** `src/PikaVM.c`, `src/PikaVM.h`: the interned constant pool. */
module ConstPool {
  import opened Bytecode
  import opened Bytes

  const U16: nat := 0x1_0000
  /** The answer of the lookup for a constant that is not in the pool. */
  const NOT_FOUND: nat := 65535

  /** The bytes of a pool: a NUL, then the constants with a NUL after each. */
  function Flat(entries: seq<string>): (r: seq<Byte>)
    ensures |r| >= 1
  {
    if entries == [] then [0]
    else Flat(entries[..|entries| - 1]) + Chars(entries[|entries| - 1]) + [0]
  }

  /** Where constant `k` starts; for `k == |entries|`, the size of the pool. */
  function Offset(entries: seq<string>, k: nat): nat
    requires k <= |entries|
  {
    |Flat(entries[..k])|
  }

  /** Position of `data` in the pool, or the number of constants. */
  function Find(entries: seq<string>, data: string, from: nat := 0): (k: nat)
    requires from <= |entries|
    ensures from <= k <= |entries| && (k < |entries| ==> entries[k] == data)
    ensures forall j :: from <= j < k ==> entries[j] != data
    decreases |entries| - from
  {
    if from == |entries| || entries[from] == data then from else Find(entries, data, from + 1)
  }

  lemma OffsetStep(entries: seq<string>, k: nat)
    requires k < |entries|
    ensures Offset(entries, k + 1) == Offset(entries, k) + |entries[k]| + 1
  {
    assert entries[..k + 1][..k] == entries[..k];
  }

  lemma OffsetAll(entries: seq<string>)
    ensures Offset(entries, |entries|) == |Flat(entries)|
  {
    assert entries[..|entries|] == entries;
  }

  lemma FlatSnoc(entries: seq<string>, data: string)
    ensures Flat(entries + [data]) == Flat(entries) + Chars(data) + [0]
  {
    assert (entries + [data])[..|entries|] == entries;
  }

  /** A pool of more constants begins with the smaller pool. */
  lemma {:induction false} FlatPrefix(entries: seq<string>, k: nat)
    requires k <= |entries|
    ensures Offset(entries, k) <= |Flat(entries)| && Flat(entries)[..Offset(entries, k)] == Flat(entries[..k])
  {
    if k == |entries| {
      OffsetAll(entries);
      assert entries[..k] == entries;
    } else {
      var init := entries[..|entries| - 1];
      FlatPrefix(init, k);
      assert init[..k] == entries[..k];
      assert Flat(entries)[..Offset(entries, k)] == Flat(init)[..Offset(entries, k)];
    }
  }

  /** Constant `k` is what stands at its offset. */
  lemma EntryAt(entries: seq<string>, k: nat)
    requires k < |entries|
    ensures Offset(entries, k) < |Flat(entries)| && Starts(Flat(entries)[Offset(entries, k)..], entries[k])
  {
    hide Flat, Starts, Chars;
    FlatPrefix(entries, k + 1);
    assert entries[..k + 1] == entries[..k] + [entries[k]];
    FlatSnoc(entries[..k], entries[k]);
    var flat, part, one := Flat(entries), Flat(entries[..k + 1]), Chars(entries[k]) + [0];
    assert flat == part + flat[|part|..];
    assert flat[Offset(entries, k)..] == one + flat[|part|..];
    StartsSelf(entries[k]);
    StartsMore(one, flat[|part|..], entries[k]);
  }

  /** The 16-bit answer of the lookup. */
  function Lookup(entries: seq<string>, data: string): nat {
    var k := Find(entries, data);
    if k == |entries| then NOT_FOUND else Offset(entries, k) % U16
  }

  /** The pool after operand `data` was interned. */
  function After(entries: seq<string>, data: string): seq<string> {
    if data == "" || Lookup(entries, data) != NOT_FOUND then entries else entries + [data]
  }

  /** The 16-bit index that a unit with operand `data` gets. */
  function IndexFor(entries: seq<string>, data: string): nat {
    if data == "" then 0
    else if Lookup(entries, data) == NOT_FOUND then |Flat(entries)| % U16
    else Lookup(entries, data)
  }

  /** The offset of `data` in a pool that holds it. */
  function Place(entries: seq<string>, data: string): nat {
    if data == "" then 0 else Offset(entries, Find(entries, data))
  }

  predicate Holds(entries: seq<string>, data: string) {
    data == "" || data in entries
  }

  /** Later constants move nothing. */
  lemma PlaceStable(entries: seq<string>, final: seq<string>, data: string)
    requires entries <= final && Holds(entries, data)
    ensures Holds(final, data) && Place(final, data) == Place(entries, data)
  {
    var k := Find(entries, data);
    assert data != "" ==> k == Find(final, data);
    assert entries[..k] == final[..k];
  }

  /** Every constant starts where a 16-bit index can point. */
  predicate InReach(entries: seq<string>) {
    forall k :: 0 <= k < |entries| ==> Offset(entries, k) < U16
  }

  lemma OffsetStable(entries: seq<string>, final: seq<string>, k: nat)
    requires entries <= final && k <= |entries|
    ensures Offset(final, k) == Offset(entries, k)
  {
    assert entries[..k] == final[..k];
  }

  lemma InReachPrefix(entries: seq<string>, final: seq<string>)
    requires entries <= final && InReach(final)
    ensures InReach(entries)
  {
    hide Offset;
    forall k | 0 <= k < |entries|
      ensures Offset(entries, k) < U16
    {
      OffsetStable(entries, final, k);
    }
  }

  lemma AfterHolds(entries: seq<string>, data: string)
    ensures entries <= After(entries, data) && Holds(After(entries, data), data)
    ensures |Flat(entries)| <= |Flat(After(entries, data))|
  {
    hide Flat;
    FlatSnoc(entries, data);
  }

  /** While all constants stay in reach, interning returns the operand's offset. */
  lemma IndexForIsPlace(entries: seq<string>, data: string)
    requires InReach(After(entries, data))
    ensures IndexFor(entries, data) == Place(After(entries, data), data)
  {
    hide Flat, Offset;
    var k := Find(entries, data);
    if data != "" && k < |entries| {
      OffsetStable(entries, After(entries, data), k);
      if Lookup(entries, data) == NOT_FOUND {
        Behind(entries, k);
        AppendedAt(entries, data);
      }
    } else if data != "" {
      AppendedAt(entries, data);
      FindNew(entries, data);
      assert Offset(After(entries, data), |entries|) < U16;
    }
  }

  lemma PlaceInReach(entries: seq<string>, data: string)
    requires InReach(entries) && Holds(entries, data)
    ensures Place(entries, data) < U16 == 65536
  {
    hide Offset;
  }

  /** The pool is larger than the offset of each of its constants. */
  lemma Behind(entries: seq<string>, k: nat)
    requires k < |entries|
    ensures Offset(entries, k) + |entries[k]| + 1 <= |Flat(entries)|
  {
    hide Flat;
    FlatPrefix(entries, k + 1);
    OffsetStep(entries, k);
  }

  lemma AppendedAt(entries: seq<string>, data: string)
    ensures Offset(entries + [data], |entries|) == |Flat(entries)|
  {
    assert (entries + [data])[..|entries|] == entries;
  }

  /** Interning an operand that takes the pool out of reach returns a wrong index. */
  lemma IndexForOutOfReach(entries: seq<string>, data: string)
    requires InReach(entries) && !InReach(After(entries, data)) && |data| + 1 < U16
    ensures IndexFor(entries, data) != Place(After(entries, data), data)
  {
    hide Flat, Offset;
    var more := entries + [data];
    var j :| 0 <= j < |more| && Offset(more, j) >= U16;
    if j < |entries| {
      OffsetStable(entries, more, j);
    }
    AppendedAt(entries, data);
    var k := Find(entries, data);
    if k == |entries| {
      FindNew(entries, data);
    } else {
      LastInReach(entries, k);
      OffsetStable(entries, more, k);
      PlaceStable(entries, more, data);
    }
  }

  /** A constant at the last offset in reach is the last constant. */
  lemma LastInReach(entries: seq<string>, k: nat)
    requires InReach(entries) && k < |entries| && Offset(entries, k) == NOT_FOUND
    ensures |Flat(entries)| == NOT_FOUND + |entries[k]| + 1
  {
    hide Flat;
    assert k + 1 < |entries| ==> Offset(entries, k + 1) < U16;
    OffsetStep(entries, k);
    OffsetAll(entries);
  }

  lemma FindNew(entries: seq<string>, data: string)
    requires data !in entries
    ensures Find(entries + [data], data) == |entries| && Offset(entries + [data], |entries|) == |Flat(entries)|
  {
    hide Flat;
    var more := entries + [data];
    assert more[|entries|] == data;
    assert forall j :: 0 <= j < |entries| ==> more[j] == entries[j];
    assert more[..|entries|] == entries;
  }

  /** The string at the offset of an operand is the operand. */
  lemma PlaceDecodes(entries: seq<string>, data: string)
    requires Holds(entries, data) && Text(data)
    ensures Place(entries, data) < |Flat(entries)| && CString(Flat(entries)[Place(entries, data)..]) == data
  {
    if data == "" {
      FlatPrefix(entries, 0);
      assert Flat(entries[..0]) == [0];
    } else {
      var k := Find(entries, data);
      EntryAt(entries, k);
      StartsCString(Flat(entries)[Offset(entries, k)..], data);
    }
  }

  /** Operands share an offset exactly when they are equal. */
  lemma PlaceInjective(entries: seq<string>, a: string, b: string)
    requires Holds(entries, a) && Holds(entries, b) && Text(a) && Text(b)
    ensures Place(entries, a) == Place(entries, b) <==> a == b
  {
    PlaceDecodes(entries, a);
    PlaceDecodes(entries, b);
  }

  /** In a pool of 64 KiB or more the index of a new constant is not its place; at a multiple of 64 KiB it is 0, which
      decodes to the empty string. */
  lemma IndexWraps(entries: seq<string>, data: string)
    requires |Flat(entries)| >= U16 && data != "" && data !in entries
    ensures IndexFor(entries, data) < U16 <= Place(After(entries, data), data)
    ensures |Flat(entries)| % U16 == 0 ==> CString(Flat(After(entries, data))[IndexFor(entries, data)..]) == ""
  {
    hide Flat, CString;
    FindNew(entries, data);
    FirstString(After(entries, data));
  }

  /** The constant pool while a program is compiled; an empty `buff` is the buffer not yet made. */
  class Constants {
    var buff: seq<Byte>
    var size: nat
    ghost var entries: seq<string>

    ghost predicate Valid()
      reads this
    {
      && size == |Flat(entries)|
      && buff == (if entries == [] then [] else Flat(entries))
      && forall i :: 0 <= i < |entries| ==> Text(entries[i])
    }

    constructor ()
      ensures Valid() && entries == []
    {
      buff, size, entries := [], 1, [];
    }

    /** Walks over the constants from the start of the buffer. */
    method GetOffsetByData(data: string) returns (offset: nat)
      requires Valid()
      ensures offset == Lookup(entries, data)
    {
      hide Flat, CString, Text;
      if buff == [] {
        return NOT_FOUND;
      }
      var now := 0;
      ghost var k := 0;
      FirstString(entries);
      while true
        invariant now < size && k <= |entries|
        invariant now + |CString(buff[now..])| + 1 == Offset(entries, k)
        invariant forall j :: 0 <= j < k ==> entries[j] != data
        decreases size - now
      {
        OffsetAll(entries);
        now := now + |CString(buff[now..])| + 1;
        if now >= size {
          AtEnd(entries, k);
          return NOT_FOUND;
        }
        NotAtEnd(entries, k);
        if CString(buff[now..]) == data {
          return now % U16;
        }
        k := k + 1;
      }
    }

    method Append(content: string)
      requires Valid() && Text(content) && |content| + 1 < U16
      modifies this
      ensures Valid() && entries == old(entries) + [content]
      ensures size == old(size) + |content| + 1
    {
      hide Flat, Chars, Text;
      if buff == [] {
        buff := [0];
        FlatNone();
      }
      FlatSnoc(entries, content);
      buff := buff + Chars(content) + [0];
      size := size + (|content| + 1) % U16;
      entries := entries + [content];
    }
  }

  lemma FlatNone()
    ensures Flat([]) == [0]
  {
  }

  lemma FirstString(entries: seq<string>)
    ensures CString(Flat(entries)[0..]) == "" && Offset(entries, 0) == 1
  {
    FlatPrefix(entries, 0);
    assert Flat(entries[..0]) == [0];
  }

  lemma AtEnd(entries: seq<string>, k: nat)
    requires k <= |entries| && Offset(entries, k) >= |Flat(entries)|
    ensures k == |entries|
  {
    if k < |entries| {
      EntryAt(entries, k);
    }
  }

  lemma NotAtEnd(entries: seq<string>, k: nat)
    requires k <= |entries| && Offset(entries, k) < |Flat(entries)| && forall i :: 0 <= i < |entries| ==> Text(entries[i])
    ensures k < |entries| && CString(Flat(entries)[Offset(entries, k)..]) == entries[k]
    ensures Offset(entries, k) + |entries[k]| + 1 == Offset(entries, k + 1)
  {
    OffsetAll(entries);
    EntryAt(entries, k);
    OffsetStep(entries, k);
    StartsCString(Flat(entries)[Offset(entries, k)..], entries[k]);
  }
}
