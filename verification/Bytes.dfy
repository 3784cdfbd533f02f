/** Bytes, fixed-width integers (encoding/binary) and byte search (bytes.IndexByte). */
module Bytes {

  type Byte = b: int | 0 <= b < 256

  /** `low` followed by the higher digits of a number in base 256 */
  function Digit(low: Byte, high: nat): nat {
    low as int + 256 * high
  }

  lemma DigitParts(low: Byte, high: nat)
    ensures Digit(low, high) % 256 == low && Digit(low, high) / 256 == high
  {}

  function U16LE(s: seq<Byte>): (n: nat)
    requires |s| >= 2
    ensures n < 0x1_0000
  {
    Digit(s[0], s[1])
  }

  function U24LE(s: seq<Byte>): (n: nat)
    requires |s| >= 3
    ensures n < 0x100_0000
  {
    Digit(s[0], Digit(s[1], s[2]))
  }

  function U32LE(s: seq<Byte>): (n: nat)
    requires |s| >= 4
    ensures n < 0x1_0000_0000
  {
    Digit(s[0], Digit(s[1], Digit(s[2], s[3])))
  }

  function U64LE(s: seq<Byte>): nat
    requires |s| >= 8
  {
    U32LE(s) + 0x1_0000_0000 * U32LE(s[4..])
  }

  function U32BE(s: seq<Byte>): (n: nat)
    requires |s| >= 4
    ensures n < 0x1_0000_0000
  {
    Digit(s[3], Digit(s[2], Digit(s[1], s[0])))
  }

  /** The low three bytes of `n`, the lowest first */
  function PutU24LE(n: nat): (s: seq<Byte>)
    ensures |s| == 3
  {
    [n % 256, n / 256 % 256, n / 256 / 256 % 256]
  }

  function PutU32BE(n: nat): (s: seq<Byte>)
    ensures |s| == 4
  {
    [n / 256 / 256 / 256 % 256, n / 256 / 256 % 256, n / 256 % 256, n % 256]
  }

  lemma U24RoundTrip(n: nat, s: seq<Byte>)
    requires n < 0x100_0000 && PutU24LE(n) <= s
    ensures U24LE(s) == n
  {
    var b := n / 256;
    var c := b / 256;
    assert s[0] == PutU24LE(n)[0] && s[1] == PutU24LE(n)[1] && s[2] == PutU24LE(n)[2];
    assert n == n % 256 + 256 * b && b == b % 256 + 256 * c && c < 256;
  }

  lemma Digits(n: nat)
    requires n < 0x1_0000_0000
    ensures n == Digit(n % 256, Digit(n / 256 % 256, Digit(n / 256 / 256 % 256, n / 256 / 256 / 256 % 256)))
  {
    var b := n / 256;
    var c := b / 256;
    assert n == n % 256 + 256 * b && b == b % 256 + 256 * c && c < 0x1_0000;
  }

  lemma U32BERoundTrip(n: nat)
    requires n < 0x1_0000_0000
    ensures U32BE(PutU32BE(n)) == n
  {
    Digits(n);
  }

  lemma U32BEBack(s: seq<Byte>)
    requires |s| == 4
    ensures PutU32BE(U32BE(s)) == s
  {
    var d: nat := s[0];
    var c := Digit(s[1], d);
    var b := Digit(s[2], c);
    DigitParts(s[1], d);
    DigitParts(s[2], c);
    DigitParts(s[3], b);
    assert U32BE(s) == Digit(s[3], b);
  }

  /** bytes.IndexByte: the first position of `b`, or -1 */
  function IndexByte(s: seq<Byte>, b: Byte): (i: int)
    ensures -1 <= i < |s|
    ensures i >= 0 ==> s[i] == b
    ensures forall k :: 0 <= k < (if i >= 0 then i else |s|) ==> s[k] != b
  {
    if s == [] then -1
    else if s[0] == b then 0
    else
      var i := IndexByte(s[1..], b);
      if i < 0 then -1 else i + 1
  }

  lemma IndexByteAt(head: seq<Byte>, b: Byte, tail: seq<Byte>)
    requires b !in head
    ensures IndexByte(head + [b] + tail, b) == |head|
  {
    var s := head + [b] + tail;
    assert s[|head|] == b;
    assert forall k :: 0 <= k < |head| ==> s[k] == head[k];
  }
}
