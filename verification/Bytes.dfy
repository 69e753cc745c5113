/** Bytes, little-endian words and C strings. */
module Bytes {

  type Byte = b: int | 0 <= b < 256

  const U32: nat := 0x1_0000_0000

  function Word(n: nat): (w: seq<Byte>)
    ensures |w| == 4
  {
    [n % 256, n / 256 % 256, n / 256 / 256 % 256, n / 256 / 256 / 256 % 256]
  }

  function Digits(a: int, b: int, c: int, d: int): (n: int)
    ensures 0 <= a && 0 <= b && 0 <= c && 0 <= d ==> 0 <= n
  {
    a + 256 * (b + 256 * (c + 256 * d))
  }

  lemma DigitsBack(n: nat)
    requires n < U32
    ensures Digits(n % 256, n / 256 % 256, n / 256 / 256 % 256, n / 256 / 256 / 256 % 256) == n
  {
    var a := n / 256;
    var b := a / 256;
    var c := b / 256;
    assert c < 256;
  }

  function WordAt(bytes: seq<Byte>, at: nat): nat
    requires at + 4 <= |bytes|
  {
    Digits(bytes[at], bytes[at + 1], bytes[at + 2], bytes[at + 3])
  }

  lemma WordReadBack(bytes: seq<Byte>, at: nat, n: nat)
    requires at + 4 <= |bytes| && bytes[at..at + 4] == Word(n) && n < U32
    ensures WordAt(bytes, at) == n
  {
    DigitsBack(n);
    var w := bytes[at..at + 4];
    assert bytes[at] == w[0] && bytes[at + 1] == w[1] && bytes[at + 2] == w[2] && bytes[at + 3] == w[3];
  }

  /** Strings that C can hold: one byte for each character and no NUL. */
  predicate Text(s: string) {
    forall i :: 0 <= i < |s| ==> 0 < s[i] as int < 256
  }

  function Chars(s: string): (r: seq<Byte>)
    ensures |r| == |s|
  {
    seq(|s|, i requires 0 <= i < |s| => s[i] as int % 256)
  }

  /** The C string at the start of `bytes`. */
  function CString(bytes: seq<Byte>): string {
    if bytes == [] || bytes[0] == 0 then "" else [bytes[0] as char] + CString(bytes[1..])
  }

  /** `bytes` begins with the characters of `s` and a NUL. */
  predicate Starts(bytes: seq<Byte>, s: string) {
    |s| < |bytes| && bytes[..|s|] == Chars(s) && bytes[|s|] == 0
  }

  lemma {:induction false} StartsCString(bytes: seq<Byte>, s: string)
    requires Text(s) && Starts(bytes, s)
    ensures CString(bytes) == s
  {
    if s != "" {
      assert bytes[0] == Chars(s)[0];
      assert bytes[1..][..|s| - 1] == bytes[..|s|][1..];
      assert Chars(s)[1..] == Chars(s[1..]);
      StartsCString(bytes[1..], s[1..]);
      assert s == [s[0]] + s[1..];
    }
  }

  lemma StartsSelf(s: string)
    ensures Starts(Chars(s) + [0], s)
  {
  }

  lemma StartsMore(bytes: seq<Byte>, more: seq<Byte>, s: string)
    requires Starts(bytes, s)
    ensures Starts(bytes + more, s)
  {
    assert (bytes + more)[..|s|] == bytes[..|s|];
  }
}
