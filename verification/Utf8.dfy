/** The bytes of a text (section 3 of RFC 3629). */
module Utf8 {

  type Bytes = seq<nat>

  predicate Continuation(b: nat) { 0x80 <= b < 0xC0 }

  function CharBytes(c: char): (b: Bytes)
    ensures 0 < |b| <= 4 && !Continuation(b[0])
    ensures forall i :: 0 < i < |b| ==> Continuation(b[i])
  {
    var n := c as int;
    if n < 0x80 then [n]
    else if n < 0x800 then [0xC0 + n / 0x40, 0x80 + n % 0x40]
    else if n < 0x1_0000 then [0xE0 + n / 0x1000, 0x80 + n / 0x40 % 0x40, 0x80 + n % 0x40]
    else [0xF0 + n / 0x4_0000, 0x80 + n / 0x1000 % 0x40, 0x80 + n / 0x40 % 0x40, 0x80 + n % 0x40]
  }

  function Encode(s: string): Bytes {
    if s == "" then [] else CharBytes(s[0]) + Encode(s[1..])
  }

  /** The first byte of a character says how many there are. */
  lemma FirstByteTells(c: char, d: char)
    requires CharBytes(c)[0] == CharBytes(d)[0]
    ensures |CharBytes(c)| == |CharBytes(d)|
  {
  }

  /** A character's bytes as digits of six bits, lead bits included. */
  function Weight(b: Bytes): nat {
    if |b| == 1 then b[0]
    else if |b| == 2 then b[0] * 0x40 + b[1]
    else if |b| == 3 then b[0] * 0x1000 + b[1] * 0x40 + b[2]
    else if |b| == 4 then b[0] * 0x4_0000 + b[1] * 0x1000 + b[2] * 0x40 + b[3]
    else 0
  }

  /** What the lead bits of so many bytes add. */
  function LeadBits(size: nat): nat {
    if size == 2 then 0x3080 else if size == 3 then 0xE_2080 else if size == 4 then 0x3C8_2080 else 0
  }

  lemma Digits(n: nat)
    ensures n == n / 0x40 * 0x40 + n % 0x40
    ensures n / 0x40 / 0x40 == n / 0x1000 && n / 0x40 / 0x40 / 0x40 == n / 0x4_0000
    ensures n / 0x1000 % 0x40 == n / 0x40 / 0x40 % 0x40
  {
  }

  lemma CharDecodes(c: char)
    ensures Weight(CharBytes(c)) == c as int + LeadBits(|CharBytes(c)|)
  {
    var n := c as int;
    Digits(n);
    Digits(n / 0x40);
    Digits(n / 0x1000);
  }

  /** No two texts have the same bytes. */
  lemma {:induction false} EncodeTells(a: string, b: string)
    requires Encode(a) == Encode(b)
    ensures a == b
  {
    hide CharBytes, Weight;
    if a != "" && b != "" {
      var x, y := CharBytes(a[0]), CharBytes(b[0]);
      assert Encode(a)[0] == x[0] && Encode(b)[0] == y[0];
      FirstByteTells(a[0], b[0]);
      assert Encode(a)[..|x|] == x && Encode(b)[..|x|] == y;
      CharDecodes(a[0]);
      CharDecodes(b[0]);
      assert Encode(a)[|x|..] == Encode(a[1..]) && Encode(b)[|x|..] == Encode(b[1..]);
      EncodeTells(a[1..], b[1..]);
    }
  }
}
