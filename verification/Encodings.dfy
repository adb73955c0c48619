/** The two wire encodings of the token refresh: standard base64 for the Basic
    header, and the form body of the grant.  Each encoder is the source's loop;
    each decoder is written from the standard, and recovers the input. */
module Encodings {
  import opened Options

  type byte = x: int | 0 <= x < 256

  // ------------------------------------------------ base64, RFC 4648 section 4

  const ALPHABET := "ABCDEFGHIJKLM" + "NOPQRSTUVWXYZ" + "abcdefghijklm" + "nopqrstuvwxyz" + "0123456789+/"

  /** Table 1 of RFC 4648, by ranges ... */
  function AlphabetChar(i: int): char
    requires 0 <= i < 64
  {
    if i < 26 then 'A' + i as char
    else if i < 52 then 'a' + (i - 26) as char
    else if i < 62 then '0' + (i - 52) as char
    else if i == 62 then '+'
    else '/'
  }

  /** ... and backwards. */
  function Sextet(c: char): (r: Option<int>)
    ensures r.Some? ==> 0 <= r.value < 64
  {
    if 'A' <= c <= 'Z' then Some(c as int - 'A' as int)
    else if 'a' <= c <= 'z' then Some(c as int - 'a' as int + 26)
    else if '0' <= c <= '9' then Some(c as int - '0' as int + 52)
    else if c == '+' then Some(62)
    else if c == '/' then Some(63)
    else None
  }

  lemma AlphabetTable(i: int)
    requires 0 <= i < 64
    ensures |ALPHABET| == 64 && ALPHABET[i] == AlphabetChar(i)
  {
    var upper, lower := "ABCDEFGHIJKLM" + "NOPQRSTUVWXYZ", "abcdefghijklm" + "nopqrstuvwxyz";
    assert ALPHABET == upper + lower + "0123456789+/";
    if i < 26 {
      UpperCase(i);
    } else if i < 52 {
      LowerCase(i - 26);
    } else {
      Others(i - 52);
    }
  }

  lemma UpperCase(i: int)
    requires 0 <= i < 26
    ensures ("ABCDEFGHIJKLM" + "NOPQRSTUVWXYZ")[i] == 'A' + i as char
  {
    if i < 13 {
      assert "ABCDEFGHIJKLM"[i] == 'A' + i as char;
    } else {
      assert "NOPQRSTUVWXYZ"[i - 13] == 'A' + i as char;
    }
  }

  lemma LowerCase(i: int)
    requires 0 <= i < 26
    ensures ("abcdefghijklm" + "nopqrstuvwxyz")[i] == 'a' + i as char
  {
    if i < 13 {
      assert "abcdefghijklm"[i] == 'a' + i as char;
    } else {
      assert "nopqrstuvwxyz"[i - 13] == 'a' + i as char;
    }
  }

  lemma Others(i: int)
    requires 0 <= i < 12
    ensures "0123456789+/"[i] == AlphabetChar(52 + i)
  {
  }

  lemma SextetOfAlphabet(i: int)
    requires 0 <= i < 64
    ensures Sextet(AlphabetChar(i)) == Some(i)
    ensures AlphabetChar(i) != '='
  {
  }

  lemma AlphabetOfSextet(c: char)
    requires Sextet(c).Some?
    ensures AlphabetChar(Sextet(c).value) == c && c != '='
  {
  }

  // The bytes four sextets spell.
  function Byte0(a: int, b: int): byte
    requires 0 <= a < 64 && 0 <= b < 64
  {
    a * 4 + b / 16
  }

  function Byte1(b: int, c: int): byte
    requires 0 <= b < 64 && 0 <= c < 64
  {
    b % 16 * 16 + c / 4
  }

  function Byte2(c: int, d: int): byte
    requires 0 <= c < 64 && 0 <= d < 64
  {
    c % 4 * 64 + d
  }

  /** A decoder that refuses everything but canonical text: groups of four,
      `=` only to fill the last group, and zero bits under the padding. */
  function DecodeBase64(s: string): Option<seq<byte>> {
    if s == "" then Some([])
    else if |s| < 4 then None
    else
      var a, b, c, d := Sextet(s[0]), Sextet(s[1]), Sextet(s[2]), Sextet(s[3]);
      if a.None? || b.None? then None
      else if |s| == 4 && s[2] == '=' && s[3] == '=' then
        if b.value % 16 == 0 then Some([Byte0(a.value, b.value)]) else None
      else if c.None? then None
      else if |s| == 4 && s[3] == '=' then
        if c.value % 4 == 0 then Some([Byte0(a.value, b.value), Byte1(b.value, c.value)]) else None
      else
        var rest := DecodeBase64(s[4..]);
        if d.None? || rest.None? then None
        else Some([Byte0(a.value, b.value), Byte1(b.value, c.value), Byte2(c.value, d.value)] + rest.value)
  }

  /** The character for one six-bit index of a packed group. */
  function Letter(packed: nat, shift: nat): char
    requires shift > 0
  {
    AlphabetChar(packed / shift % 64)
  }

  function Packed(x: byte, y: byte, z: byte): nat {
    x as int * 65_536 + y as int * 256 + z as int
  }

  /** The four characters of a chunk of three bytes. */
  function Quad(x: byte, y: byte, z: byte): (s: string)
    ensures |s| == 4
  {
    var packed := Packed(x, y, z);
    [Letter(packed, 262_144), Letter(packed, 4096), Letter(packed, 64), Letter(packed, 1)]
  }

  function Quads(input: seq<byte>): (s: string)
    requires |input| % 3 == 0
    ensures |s| == |input| / 3 * 4
  {
    if input == [] then "" else Quad(input[0], input[1], input[2]) + Quads(input[3..])
  }

  function Padding(n: nat): (p: nat) { (3 - n % 3) % 3 }

  function Repeat<T>(x: T, n: nat): (s: seq<T>)
    ensures |s| == n
  {
    seq(n, _ => x)
  }

  function ZeroFilled(input: seq<byte>): (s: seq<byte>)
    ensures |s| % 3 == 0
  {
    input + Repeat(0, Padding(|input|))
  }

  lemma {:induction false} QuadsAppend(a: seq<byte>, x: byte, y: byte, z: byte)
    requires |a| % 3 == 0
    ensures Quads(a + [x, y, z]) == Quads(a) + Quad(x, y, z)
  {
    hide Quad;
    if a != [] {
      QuadsAppend(a[3..], x, y, z);
      assert (a + [x, y, z])[3..] == a[3..] + [x, y, z];
    } else {
      assert a + [x, y, z] == [x, y, z];
      assert Quads([]) == "";
    }
  }

  /** One character for each of the four six-bit shifts. */
  method PushGroup(before: string, x: byte, y: byte, z: byte) returns (out: string)
    ensures out == before + Quad(x, y, z)
  {
    out := before;
    var packed := Packed(x, y, z);
    var shifts := [262_144, 4096, 64, 1];
    hide Packed, AlphabetChar, Quad;
    for k := 0 to 4
      invariant |out| == |before| + k && out[..|before|] == before
      invariant forall j :: 0 <= j < k ==> out[|before| + j] == Letter(packed, shifts[j])
    {
      var index := packed / shifts[k] % 64;
      AlphabetTable(index);
      out := out + [ALPHABET[index]];
    }
    FourLetters(out, before, packed, shifts, x, y, z);
  }

  lemma FourLetters(out: string, before: string, packed: nat, shifts: seq<nat>, x: byte, y: byte, z: byte)
    requires |out| == |before| + 4 && out[..|before|] == before
    requires packed == Packed(x, y, z) && shifts == [262_144, 4096, 64, 1]
    requires forall j :: 0 <= j < 4 ==> out[|before| + j] == Letter(packed, shifts[j])
    ensures out == before + Quad(x, y, z)
  {
    hide Packed, Letter;
    assert out[|before| + 0] == Letter(packed, shifts[0]) && out[|before| + 1] == Letter(packed, shifts[1]);
    assert out[|before| + 2] == Letter(packed, shifts[2]) && out[|before| + 3] == Letter(packed, shifts[3]);
    assert out[|before|..] == Quad(x, y, z);
    assert out == out[..|before|] + out[|before|..];
  }

  /** The encoder: one group per chunk, missing bytes taken as zero, then the
      characters those zeros made are cut off and replaced by the pad. */
  method Base64(input: seq<byte>) returns (out: string)
    ensures DecodeBase64(out) == Some(input)
    ensures |out| == (|input| + 2) / 3 * 4
  {
    hide Quads, Quad, DecodeBase64, ZeroFilled, PadTruncate;
    out := "";
    var i := 0;
    ghost var filled := ZeroFilled(input);
    EmptyQuads();
    FilledBytes(input, 0);
    while i < |input|
      invariant 0 <= i <= |filled| && i % 3 == 0 && i < |input| + 3
      invariant out == Quads(filled[..i])
    {
      var x := input[i];
      var y := if i + 1 < |input| then input[i + 1] else 0;
      var z := if i + 2 < |input| then input[i + 2] else 0;
      out := PushGroup(out, x, y, z);
      FilledBytes(input, i);
      QuadsAppend(filled[..i], x, y, z);
      i := i + 3;
    }
    FilledBytes(input, i);
    var padding := (3 - |input| % 3) % 3;
    PadStep(input, out);
    out := out[..|out| - padding];
    out := out + Repeat('=', padding);
    PadTruncateDecodes(input);
  }

  /** The chunk at `i`, with zeros for the bytes that are missing. */
  lemma FilledBytes(input: seq<byte>, i: nat)
    requires i % 3 == 0 && i < |input| + 3
    ensures var filled := ZeroFilled(input);
            if i < |input| then
              i + 3 <= |filled|
              && filled[..i + 3] == filled[..i] + [input[i], if i + 1 < |input| then input[i + 1] else 0,
                                                   if i + 2 < |input| then input[i + 2] else 0]
            else i == |filled| && filled[..i] == filled
  {
    FilledSize(|input|, i);
  }

  lemma FilledSize(n: nat, i: nat)
    requires i % 3 == 0 && i < n + 3
    ensures if i < n then i + 3 <= n + Padding(n) else i == n + Padding(n)
  {
    var q, r := n / 3, n % 3;
    var k := i / 3;
    assert i == 3 * k && n == 3 * q + r;
  }

  lemma PadStep(input: seq<byte>, quads: string)
    requires quads == Quads(ZeroFilled(input))
    ensures var padding := (3 - |input| % 3) % 3;
            padding <= |quads| && |quads| == (|input| + 2) / 3 * 4
            && quads[..|quads| - padding] + Repeat('=', padding) == PadTruncate(input)
  {
    hide Quads, ZeroFilled;
    PaddingFits(input);
  }

  lemma EmptyQuads()
    ensures Quads([]) == ""
  {
  }

  lemma QuadDecodes(x: byte, y: byte, z: byte)
    ensures var s := Quad(x, y, z);
            var a, b, c, d := Sextet(s[0]), Sextet(s[1]), Sextet(s[2]), Sextet(s[3]);
            a.Some? && b.Some? && c.Some? && d.Some?
            && Byte0(a.value, b.value) == x && Byte1(b.value, c.value) == y && Byte2(c.value, d.value) == z
            && (y == 0 ==> b.value % 16 == 0) && (z == 0 ==> c.value % 4 == 0)
            && s[2] != '=' && s[3] != '='
  {
    var packed := Packed(x, y, z);
    Sextets(x, y, z, packed);
    hide Sextet, Packed, AlphabetChar;
    SextetOfAlphabet(packed / 262_144 % 64);
    SextetOfAlphabet(packed / 4096 % 64);
    SextetOfAlphabet(packed / 64 % 64);
    SextetOfAlphabet(packed / 1 % 64);
  }

  lemma Sextets(x: byte, y: byte, z: byte, packed: nat)
    requires packed == Packed(x, y, z)
    ensures packed / 262_144 % 64 == x / 4
    ensures packed / 4096 % 64 == x % 4 * 16 + y / 16
    ensures packed / 64 % 64 == y % 16 * 4 + z / 64
    ensures packed / 1 % 64 == z % 64
  {
    SextetOfSum(packed, 1, packed, 0, x * 1024 + y * 4 + z / 64, z % 64);
    SextetOfSum(packed, 64, x * 1024 + y * 4 + z / 64, z % 64, x * 16 + y / 16, y % 16 * 4 + z / 64);
    SextetOfSum(packed, 4096, x * 16 + y / 16, y % 16 * 256 + z, x / 4, x % 4 * 16 + y / 16);
    SextetOfSum(packed, 262_144, x / 4, x % 4 * 65_536 + y * 256 + z, 0, x / 4);
  }

  /** A shifted number, and its last six bits. */
  lemma SextetOfSum(packed: nat, shift: nat, q: nat, r: nat, high: nat, low: nat)
    requires shift in {1, 64, 4096, 262_144} && packed == q * shift + r && r < shift
    requires q == high * 64 + low && low < 64
    ensures packed / shift == q && packed / shift % 64 == low
  {
  }

  function PadTruncate(input: seq<byte>): string {
    var quads, padding := Quads(ZeroFilled(input)), Padding(|input|);
    if padding <= |quads| then quads[..|quads| - padding] + Repeat('=', padding) else ""
  }

  lemma PadTruncateStep(input: seq<byte>)
    requires |input| >= 3
    ensures PadTruncate(input) == Quad(input[0], input[1], input[2]) + PadTruncate(input[3..])
  {
    hide Quad, Quads;
    var filled, rest := ZeroFilled(input), ZeroFilled(input[3..]);
    var padding := Padding(|input|);
    assert rest == filled[3..];
    assert filled[0] == input[0] && filled[1] == input[1] && filled[2] == input[2];
    FirstQuad(filled);
    PaddingFits(input);
    PaddingFits(input[3..]);
    var first, more := Quad(input[0], input[1], input[2]), Quads(rest);
    assert (first + more)[..|first + more| - padding] == first + more[..|more| - padding];
  }

  lemma FirstQuad(filled: seq<byte>)
    requires |filled| % 3 == 0 && filled != []
    ensures Quads(filled) == Quad(filled[0], filled[1], filled[2]) + Quads(filled[3..])
  {
    hide Quad;
  }

  lemma PadTruncateLast(input: seq<byte>)
    requires 1 <= |input| < 3
    ensures |ZeroFilled(input)| == 3
    ensures var f := ZeroFilled(input);
            PadTruncate(input) == Quad(f[0], f[1], f[2])[..4 - Padding(|input|)] + Repeat('=', Padding(|input|))
  {
    var f := ZeroFilled(input);
    assert f[3..] == [];
    assert Quads(f) == Quad(f[0], f[1], f[2]);
  }

  lemma PaddingFits(input: seq<byte>)
    ensures Padding(|input|) <= |Quads(ZeroFilled(input))|
    ensures |Quads(ZeroFilled(input))| == (|input| + 2) / 3 * 4
  {
    hide Quads;
  }

  lemma PadTruncateEmpty()
    ensures DecodeBase64(PadTruncate([])) == Some([])
  {
    EmptyQuads();
    assert PadTruncate([]) == "";
  }

  /** What the pad-and-truncate step leaves decodes to the input. */
  lemma {:induction false} PadTruncateDecodes(input: seq<byte>)
    ensures DecodeBase64(PadTruncate(input)) == Some(input)
  {
    hide *;
    if input == [] {
      PadTruncateEmpty();
    } else if |input| < 3 {
      PadTruncateLast(input);
      var f := ZeroFilled(input);
      assert f == [f[0], f[1], f[2]];
      LastGroup(input, f[0], f[1], f[2]);
    } else {
      PadTruncateDecodes(input[3..]);
      PadTruncateStep(input);
      FullGroup(input[0], input[1], input[2], PadTruncate(input[3..]), input[3..]);
      assert input == [input[0], input[1], input[2]] + input[3..];
    }
  }

  lemma FullGroup(x: byte, y: byte, z: byte, tail: string, rest: seq<byte>)
    requires DecodeBase64(tail) == Some(rest)
    ensures DecodeBase64(Quad(x, y, z) + tail) == Some([x, y, z] + rest)
  {
    QuadDecodes(x, y, z);
    var quad := Quad(x, y, z);
    var text := quad + tail;
    hide Quad, Sextet, Byte0, Byte1, Byte2, AlphabetChar;
    assert text[4..] == tail;
    assert text[0] == quad[0] && text[1] == quad[1] && text[2] == quad[2] && text[3] == quad[3];
  }

  lemma LastGroup(input: seq<byte>, x: byte, y: byte, z: byte)
    requires 1 <= |input| < 3 && ZeroFilled(input) == [x, y, z]
    ensures var padding := Padding(|input|);
            DecodeBase64(Quad(x, y, z)[..4 - padding] + Repeat('=', padding)) == Some(input)
  {
    QuadDecodes(x, y, z);
    assert ZeroFilled(input)[0] == x && ZeroFilled(input)[1] == y && ZeroFilled(input)[2] == z;
    var quad := Quad(x, y, z);
    var padding := Padding(|input|);
    var text := quad[..4 - padding] + Repeat('=', padding);
    assert |input| == 1 ==> input == [x] && y == 0;
    assert |input| == 2 ==> input == [x, y] && z == 0;
    assert padding == 3 - |input|;
    assert |text| == 4 && text[3] == '=' && text[0] == quad[0] && text[1] == quad[1];
    assert text[2] == if |input| == 1 then '=' else quad[2];
    hide Quad, Sextet, Byte0, Byte1, Byte2, Repeat;
  }

  /** No two texts decode to the same bytes, so the encoder's is the only one. */
  lemma {:induction false} DecodeBase64Injective(s: string, t: string)
    requires DecodeBase64(s).Some? && DecodeBase64(s) == DecodeBase64(t)
    ensures s == t
  {
    hide DecodeBase64, Quad;
    NothingDecodes();
    var bytes := DecodeBase64(s).value;
    if s != "" {
      FirstGroup(s, bytes);
    }
    if t != "" {
      FirstGroup(t, bytes);
    }
    if |bytes| >= 3 {
      DecodeBase64Injective(s[4..], t[4..]);
      assert s == s[..4] + s[4..] && t == t[..4] + t[4..];
    }
  }

  lemma NothingDecodes()
    ensures DecodeBase64("") == Some([])
  {
  }

  /** The first group of a text is determined by the bytes it decodes to. */
  lemma FirstGroup(s: string, bytes: seq<byte>)
    requires s != "" && DecodeBase64(s) == Some(bytes)
    ensures |s| >= 4 && |bytes| >= 1
    ensures |bytes| >= 3 ==> s[..4] == Quad(bytes[0], bytes[1], bytes[2]) && DecodeBase64(s[4..]) == Some(bytes[3..])
    ensures |bytes| == 2 ==> s == Quad(bytes[0], bytes[1], 0)[3 := '=']
    ensures |bytes| == 1 ==> s == Quad(bytes[0], 0, 0)[2 := '='][3 := '=']
  {
    hide Sextet, Byte0, Byte1, Byte2, Quad, AlphabetChar;
    assert |s| >= 4;
    var a, b, c, d := Sextet(s[0]), Sextet(s[1]), Sextet(s[2]), Sextet(s[3]);
    if |s| == 4 && s[2] == '=' && s[3] == '=' {
      OneByte(s, a.value, b.value);
    } else if |s| == 4 && s[3] == '=' {
      TwoBytes(s, a.value, b.value, c.value);
    } else {
      ThreeBytes(s, a.value, b.value, c.value, d.value);
      ThreeFirst(Byte0(a.value, b.value), Byte1(b.value, c.value), Byte2(c.value, d.value), DecodeBase64(s[4..]).value);
    }
  }

  lemma ThreeFirst(x: byte, y: byte, z: byte, rest: seq<byte>)
    ensures var bytes := [x, y, z] + rest;
            |bytes| >= 3 && bytes[0] == x && bytes[1] == y && bytes[2] == z && bytes[3..] == rest
  {
  }

  lemma OneByte(s: string, a: int, b: int)
    requires |s| == 4 && s[2] == '=' && s[3] == '='
    requires Sextet(s[0]) == Some(a) && Sextet(s[1]) == Some(b) && b % 16 == 0
    ensures s == Quad(Byte0(a, b), 0, 0)[2 := '='][3 := '=']
  {
    hide *;
    AlphabetOfSextet(s[0]);
    AlphabetOfSextet(s[1]);
    QuadOf(a, b, 0, 0);
    LastBytes(b, 0);
    assert Quad(Byte0(a, b), 0, 0) == [AlphabetChar(a), AlphabetChar(b), AlphabetChar(0), AlphabetChar(0)];
    assert s == [s[0], s[1], s[2], s[3]];
  }

  lemma TwoBytes(s: string, a: int, b: int, c: int)
    requires |s| == 4 && s[3] == '='
    requires Sextet(s[0]) == Some(a) && Sextet(s[1]) == Some(b) && Sextet(s[2]) == Some(c) && c % 4 == 0
    ensures s == Quad(Byte0(a, b), Byte1(b, c), 0)[3 := '=']
  {
    hide *;
    AlphabetOfSextet(s[0]);
    AlphabetOfSextet(s[1]);
    AlphabetOfSextet(s[2]);
    QuadOf(a, b, c, 0);
    LastBytes(b, c);
    assert Quad(Byte0(a, b), Byte1(b, c), 0)
        == [AlphabetChar(a), AlphabetChar(b), AlphabetChar(c), AlphabetChar(0)];
    assert s == [s[0], s[1], s[2], s[3]];
  }

  lemma ThreeBytes(s: string, a: int, b: int, c: int, d: int)
    requires |s| >= 4 && Sextet(s[0]) == Some(a) && Sextet(s[1]) == Some(b)
    requires Sextet(s[2]) == Some(c) && Sextet(s[3]) == Some(d)
    ensures s[..4] == Quad(Byte0(a, b), Byte1(b, c), Byte2(c, d))
  {
    hide *;
    AlphabetOfSextet(s[0]);
    AlphabetOfSextet(s[1]);
    AlphabetOfSextet(s[2]);
    AlphabetOfSextet(s[3]);
    QuadOf(a, b, c, d);
  }

  lemma LastBytes(b: int, c: int)
    requires 0 <= b < 64 && 0 <= c < 64
    ensures b % 16 == 0 ==> Byte1(b, 0) == 0
    ensures c % 4 == 0 ==> Byte2(c, 0) == 0
    ensures Byte2(0, 0) == 0
  {
  }

  lemma QuadOf(a: int, b: int, c: int, d: int)
    requires 0 <= a < 64 && 0 <= b < 64 && 0 <= c < 64 && 0 <= d < 64
    ensures Quad(Byte0(a, b), Byte1(b, c), Byte2(c, d)) == [AlphabetChar(a), AlphabetChar(b), AlphabetChar(c), AlphabetChar(d)]
  {
    var x, y, z := Byte0(a, b), Byte1(b, c), Byte2(c, d);
    BytesApart(a, b, c, d);
    Sextets(x, y, z, Packed(x, y, z));
    hide Byte0, Byte1, Byte2, Packed;
  }

  lemma BytesApart(a: int, b: int, c: int, d: int)
    requires 0 <= a < 64 && 0 <= b < 64 && 0 <= c < 64 && 0 <= d < 64
    ensures var x, y, z := Byte0(a, b), Byte1(b, c), Byte2(c, d);
            x / 4 == a && x % 4 * 16 + y / 16 == b && y % 16 * 4 + z / 64 == c && z % 64 == d
  {
  }
}
