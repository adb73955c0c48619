/** The form body of a token refresh, over bytes: the encoder of the refresh
    module, and the `application/x-www-form-urlencoded` parser of section 5.1
    of the URL Standard, which recovers the fields. */
module FormBody {
  import opened Options

  /** A byte, as the character with that code. */
  type ByteChar = c: char | c as int < 256

  type Bytes = seq<ByteChar>

  datatype Field = Field(key: Bytes, value: Bytes)

  // ------------------------------------------------ the encoder

  predicate Unreserved(c: ByteChar) {
    'A' <= c <= 'Z' || 'a' <= c <= 'z' || '0' <= c <= '9' || c == '-' || c == '_' || c == '.' || c == '~'
  }

  function HexDigit(n: int): ByteChar
    requires 0 <= n < 16
  {
    if n < 10 then '0' + n as char else 'A' + (n - 10) as char
  }

  function EncodedByte(c: ByteChar): Bytes {
    if Unreserved(c) then [c]
    else if c == ' ' then ['+']
    else ['%', HexDigit(c as int / 16), HexDigit(c as int % 16)]
  }

  function Encoded(value: Bytes): Bytes {
    if value == [] then [] else EncodedByte(value[0]) + Encoded(value[1..])
  }

  lemma {:induction false} EncodedAppend(value: Bytes, c: ByteChar)
    ensures Encoded(value + [c]) == Encoded(value) + EncodedByte(c)
  {
    hide EncodedByte;
    if value == [] {
      assert value + [c] == [c] && [c][1..] == [];
      assert EncodedByte(c) + [] == EncodedByte(c) == [] + EncodedByte(c);
    } else {
      var longer := value + [c];
      assert longer[0] == value[0] && longer[1..] == value[1..] + [c];
      EncodedAppend(value[1..], c);
      Regroup(EncodedByte(value[0]), Encoded(value[1..]), EncodedByte(c));
    }
  }

  method FormEncode(value: Bytes) returns (out: Bytes)
    ensures out == Encoded(value)
    ensures PercentDecode(out) == value
  {
    out := [];
    for i := 0 to |value|
      invariant out == Encoded(value[..i])
    {
      var c := value[i];
      EncodedAppend(value[..i], c);
      assert value[..i + 1] == value[..i] + [c];
      if Unreserved(c) {
        out := out + [c];
      } else if c == ' ' {
        out := out + ['+'];
      } else {
        out := out + ['%', HexDigit(c as int / 16), HexDigit(c as int % 16)];
      }
    }
    assert value[..|value|] == value;
    DecodeEncoded(value, []);
    assert Encoded(value) + [] == Encoded(value);
  }

  function FieldText(f: Field): Bytes {
    f.key + ['='] + Encoded(f.value)
  }

  /** The fields joined with `&`. */
  function Body(fields: seq<Field>): Bytes {
    if fields == [] then []
    else if |fields| == 1 then FieldText(fields[0])
    else FieldText(fields[0]) + ['&'] + Body(fields[1..])
  }

  /** What a provider's registry entry adds to the grant. */
  datatype Grant = Grant(clientId: Option<Bytes>, clientSecret: Option<Bytes>, scope: Option<Bytes>)

  function Given(key: Bytes, value: Option<Bytes>): seq<Field> {
    match value
    case None => []
    case Some(v) => [Field(key, v)]
  }

  function GrantFields(refreshToken: Bytes, grant: Grant): seq<Field> {
    [Field("grant_type", "refresh_token"), Field("refresh_token", refreshToken)]
    + Given("client_id", grant.clientId) + Given("client_secret", grant.clientSecret)
    + Given("scope", grant.scope)
  }

  // ------------------------------------------------ the parser

  function HexValue(c: ByteChar): Option<int> {
    if '0' <= c <= '9' then Some(c as int - '0' as int)
    else if 'A' <= c <= 'F' then Some(c as int - 'A' as int + 10)
    else if 'a' <= c <= 'f' then Some(c as int - 'a' as int + 10)
    else None
  }

  /** `+` is a space and `%XX` a byte; anything else, a stray `%` included,
      stands for itself. */
  function PercentDecode(s: Bytes): Bytes {
    if s == [] then []
    else if s[0] == '%' && |s| >= 3 && HexValue(s[1]).Some? && HexValue(s[2]).Some? then
      [(HexValue(s[1]).value * 16 + HexValue(s[2]).value) as char] + PercentDecode(s[3..])
    else [if s[0] == '+' then ' ' else s[0]] + PercentDecode(s[1..])
  }

  /** The text before the first `stop`, and the text after it if there is one. */
  function Cut(s: Bytes, stop: ByteChar): (Bytes, Option<Bytes>) {
    if s == [] then ([], None)
    else if s[0] == stop then ([], Some(s[1..]))
    else var (head, tail) := Cut(s[1..], stop); ([s[0]] + head, tail)
  }

  function ParseField(part: Bytes): Field {
    var (key, value) := Cut(part, '=');
    Field(PercentDecode(key), match value case None => [] case Some(v) => PercentDecode(v))
  }

  lemma CutShrinks(s: Bytes, stop: ByteChar)
    ensures Cut(s, stop).1.Some? ==> |Cut(s, stop).1.value| < |s|
  {
  }

  /** Empty parts are skipped. */
  function ParseBody(s: Bytes): seq<Field>
    decreases |s|
  {
    CutShrinks(s, '&');
    var (part, rest) := Cut(s, '&');
    (if part == [] then [] else [ParseField(part)])
    + match rest case None => [] case Some(more) => ParseBody(more)
  }

  // ------------------------------------------------ the round trip

  lemma DecodeByte(c: ByteChar, rest: Bytes)
    ensures PercentDecode(EncodedByte(c) + rest) == [c] + PercentDecode(rest)
  {
    var s := EncodedByte(c) + rest;
    if Unreserved(c) || c == ' ' {
      assert s[1..] == rest;
    } else {
      assert s[3..] == rest;
      assert HexValue(HexDigit(c as int / 16)) == Some(c as int / 16);
      assert HexValue(HexDigit(c as int % 16)) == Some(c as int % 16);
    }
  }

  lemma {:induction false} DecodeEncoded(value: Bytes, rest: Bytes)
    ensures PercentDecode(Encoded(value) + rest) == value + PercentDecode(rest)
  {
    hide PercentDecode, EncodedByte;
    if value == [] {
      assert Encoded(value) + rest == rest;
      assert value + PercentDecode(rest) == PercentDecode(rest);
    } else {
      var first, more := EncodedByte(value[0]), Encoded(value[1..]);
      Regroup(first, more, rest);
      DecodeByte(value[0], more + rest);
      DecodeEncoded(value[1..], rest);
      Regroup([value[0]], value[1..], PercentDecode(rest));
      assert [value[0]] + value[1..] == value;
    }
  }

  lemma Regroup(a: Bytes, b: Bytes, c: Bytes)
    ensures (a + b) + c == a + (b + c)
  {
  }

  predicate Plain(key: Bytes) { forall i :: 0 <= i < |key| ==> Unreserved(key[i]) }

  lemma {:induction false} PlainEncoded(key: Bytes)
    requires Plain(key)
    ensures Encoded(key) == key
  {
    if key != [] {
      PlainEncoded(key[1..]);
      assert key == [key[0]] + key[1..];
    }
  }

  lemma {:induction false} EncodedHasNo(value: Bytes, stop: ByteChar)
    requires stop == '&' || stop == '='
    ensures stop !in Encoded(value)
  {
    if value != [] {
      EncodedHasNo(value[1..], stop);
      assert stop !in EncodedByte(value[0]);
    }
  }

  lemma {:induction false} CutAt(head: Bytes, stop: ByteChar, tail: Bytes)
    requires stop !in head
    ensures Cut(head + [stop] + tail, stop) == (head, Some(tail))
    ensures Cut(head, stop) == (head, None)
  {
    if head == [] {
      assert (head + [stop] + tail)[1..] == tail;
    } else {
      CutAt(head[1..], stop, tail);
      assert (head + [stop] + tail)[1..] == head[1..] + [stop] + tail;
      assert [head[0]] + head[1..] == head;
    }
  }

  lemma FieldParses(f: Field)
    requires Plain(f.key)
    ensures ParseField(FieldText(f)) == f
    ensures '&' !in FieldText(f) && FieldText(f) != []
  {
    PlainEncoded(f.key);
    EncodedHasNo(f.key, '=');
    EncodedHasNo(f.key, '&');
    EncodedHasNo(f.value, '&');
    CutAt(f.key, '=', Encoded(f.value));
    DecodeEncoded(f.key, []);
    DecodeEncoded(f.value, []);
    assert Encoded(f.key) + [] == f.key && Encoded(f.value) + [] == Encoded(f.value);
    assert f.key + PercentDecode([]) == f.key && f.value + PercentDecode([]) == f.value;
  }

  /** The parser recovers exactly the fields that were joined. */
  lemma {:induction false} BodyParses(fields: seq<Field>)
    requires forall i :: 0 <= i < |fields| ==> Plain(fields[i].key)
    ensures ParseBody(Body(fields)) == fields
  {
    hide ParseBody, ParseField, FieldText, Plain;
    if fields == [] {
      NothingParses();
    } else {
      var text := FieldText(fields[0]);
      FieldParses(fields[0]);
      if |fields| == 1 {
        LastParses(text);
        assert fields == [fields[0]];
      } else {
        FirstParses(text, Body(fields[1..]));
        BodyParses(fields[1..]);
        assert fields == [fields[0]] + fields[1..];
      }
    }
  }

  lemma NothingParses()
    ensures ParseBody([]) == []
  {
  }

  lemma LastParses(part: Bytes)
    requires part != [] && '&' !in part
    ensures ParseBody(part) == [ParseField(part)]
  {
    hide ParseField;
    CutAt(part, '&', []);
    hide Cut;
  }

  lemma FirstParses(part: Bytes, more: Bytes)
    requires part != [] && '&' !in part
    ensures ParseBody(part + ['&'] + more) == [ParseField(part)] + ParseBody(more)
  {
    hide ParseField;
    CutAt(part, '&', more);
    hide Cut;
  }

  /** A grant body says exactly what the grant does, for every token, client
      id, secret and scope. */
  lemma GrantBodyParses(refreshToken: Bytes, grant: Grant)
    ensures ParseBody(Body(GrantFields(refreshToken, grant))) == GrantFields(refreshToken, grant)
  {
    BodyParses(GrantFields(refreshToken, grant));
  }

  /** The parsed body names the grant type and the token, and the client id, the
      secret and the scope each under its own key exactly when there is one. */
  lemma GrantSays(refreshToken: Bytes, grant: Grant, key: Bytes, value: Bytes)
    ensures var fields := ParseBody(Body(GrantFields(refreshToken, grant)));
            Field(key, value) in fields <==>
            (key == "grant_type" && value == "refresh_token") || (key == "refresh_token" && value == refreshToken)
            || (key == "client_id" && grant.clientId == Some(value))
            || (key == "client_secret" && grant.clientSecret == Some(value))
            || (key == "scope" && grant.scope == Some(value))
  {
    hide ParseBody, Body;
    GrantBodyParses(refreshToken, grant);
  }

  /** Letters, digits and `-._~`. */
  predicate Plainly(c: ByteChar) {
    'A' <= c <= 'Z' || 'a' <= c <= 'z' || '0' <= c <= '9' || c == '-' || c == '.' || c == '_' || c == '~'
  }

  /** Characters that need no encoding stand for themselves. */
  lemma {:induction false} PlainStays(value: Bytes)
    requires forall i :: 0 <= i < |value| ==> Plainly(value[i])
    ensures Encoded(value) == value
  {
    if value != [] {
      PlainStays(value[1..]);
      assert value == [value[0]] + value[1..];
    }
  }

  /** Nothing else is in an encoded text but `+` and `%` with two digits. */
  lemma {:induction false} OnlySafe(value: Bytes)
    ensures forall i :: 0 <= i < |Encoded(value)| ==>
              Plainly(Encoded(value)[i]) || Encoded(value)[i] == '+' || Encoded(value)[i] == '%'
  {
    if value != [] {
      OnlySafe(value[1..]);
    }
  }
}
