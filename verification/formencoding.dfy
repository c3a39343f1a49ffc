/** The application/x-www-form-urlencoded serializer that URLSearchParams
    uses (section 5.2 of the WHATWG URL Standard): each string is UTF-8
    encoded (RFC 3629, section 3), every byte outside a small safe set is
    percent-encoded with upper-case hex digits, the space becomes '+', and
    name=value pairs are joined with '&'. The parsing direction is given
    as well, strict enough to be an exact inverse. */
module FormEncoding {
  import opened Wrappers
  import opened Strings

  newtype byte = b: int | 0 <= b < 256

  // ---------------------------------------------------------------------
  // UTF-8
  // ---------------------------------------------------------------------

  /** A continuation byte 10xxxxxx. */
  predicate IsContinuation(b: byte) {
    0x80 <= b < 0xC0
  }

  /** The UTF-8 encoding of one Unicode scalar value. */
  function Utf8Char(c: char): (bs: seq<byte>)
    ensures 1 <= |bs| <= 4
    ensures (c as int < 0x80) <==> |bs| == 1
  {
    var n := c as int;
    if n < 0x80 then [n as byte]
    else if n < 0x800 then [(0xC0 + n / 64) as byte, (0x80 + n % 64) as byte]
    else if n < 0x10000 then [(0xE0 + n / 64 / 64) as byte, (0x80 + n / 64 % 64) as byte, (0x80 + n % 64) as byte]
    else [(0xF0 + n / 64 / 64 / 64) as byte, (0x80 + n / 64 / 64 % 64) as byte,
          (0x80 + n / 64 % 64) as byte, (0x80 + n % 64) as byte]
  }

  /** The UTF-8 encoding of a string. */
  function Utf8(s: string): (bs: seq<byte>)
    ensures |bs| >= |s|
    decreases |s|
  {
    if s == [] then [] else Utf8Char(s[0]) + Utf8(s[1..])
  }

  /** Reads the first scalar value off the front of a byte sequence,
      rejecting overlong forms, surrogates and values above U+10FFFF;
      yields the value and the number of bytes it took. */
  function DecodeFirst(bs: seq<byte>): (r: Option<(char, nat)>)
    ensures r.Some? ==> 1 <= r.value.1 <= |bs|
  {
    if bs == [] then None
    else
      var b0 := bs[0] as int;
      if b0 < 0x80 then Some((b0 as char, 1))
      else if 0xC0 <= b0 < 0xE0 && |bs| >= 2 && IsContinuation(bs[1]) then
        var n := (b0 - 0xC0) * 64 + (bs[1] as int - 0x80);
        if 0x80 <= n then Some((n as char, 2)) else None
      else if 0xE0 <= b0 < 0xF0 && |bs| >= 3 && IsContinuation(bs[1]) && IsContinuation(bs[2]) then
        var n := ((b0 - 0xE0) * 64 + (bs[1] as int - 0x80)) * 64 + (bs[2] as int - 0x80);
        if 0x800 <= n && !(0xD800 <= n < 0xE000) then Some((n as char, 3)) else None
      else if 0xF0 <= b0 < 0xF8 && |bs| >= 4 && IsContinuation(bs[1]) && IsContinuation(bs[2]) && IsContinuation(bs[3]) then
        var n := (((b0 - 0xF0) * 64 + (bs[1] as int - 0x80)) * 64 + (bs[2] as int - 0x80)) * 64 + (bs[3] as int - 0x80);
        if 0x10000 <= n < 0x110000 then Some((n as char, 4)) else None
      else None
  }

  /** Decodes a whole byte sequence, failing on any malformed sequence. */
  function Utf8Decode(bs: seq<byte>): (r: Option<string>)
    decreases |bs|
  {
    if bs == [] then Some([])
    else match DecodeFirst(bs)
      case None => None
      case Some((c, k)) =>
        match Utf8Decode(bs[k..])
        case None => None
        case Some(rest) => Some([c] + rest)
  }

  /** Decoding the front of an encoded character gives back the character. */
  lemma DecodeFirstUtf8Char(c: char, rest: seq<byte>)
    ensures DecodeFirst(Utf8Char(c) + rest) == Some((c, |Utf8Char(c)|))
  {
    var n := c as int;
    var bs := Utf8Char(c) + rest;
    if n < 0x80 {
    } else if n < 0x800 {
      assert n == n / 64 * 64 + n % 64;
    } else if n < 0x10000 {
      assert n == n / 64 * 64 + n % 64;
      assert n / 64 == n / 64 / 64 * 64 + n / 64 % 64;
    } else {
      assert n == n / 64 * 64 + n % 64;
      assert n / 64 == n / 64 / 64 * 64 + n / 64 % 64;
      assert n / 64 / 64 == n / 64 / 64 / 64 * 64 + n / 64 / 64 % 64;
    }
  }

  /** UTF-8 round trip: decoding an encoding gives back the string. */
  lemma {:induction false} Utf8RoundTrip(s: string)
    ensures Utf8Decode(Utf8(s)) == Some(s)
    decreases |s|
  {
    if s != [] {
      var head := Utf8Char(s[0]);
      var bs := Utf8(s);
      assert bs == head + Utf8(s[1..]);
      DecodeFirstUtf8Char(s[0], Utf8(s[1..]));
      assert bs[|head|..] == Utf8(s[1..]);
      Utf8RoundTrip(s[1..]);
      assert s == [s[0]] + s[1..];
    }
  }

  // ---------------------------------------------------------------------
  // Percent-encoding
  // ---------------------------------------------------------------------

  /** Bytes the serializer writes as themselves: '*', '-', '.', digits,
      upper-case letters, '_' and lower-case letters. */
  predicate IsKept(b: byte) {
    b == 0x2A || b == 0x2D || b == 0x2E || (0x30 <= b <= 0x39) || (0x41 <= b <= 0x5A) || b == 0x5F || (0x61 <= b <= 0x7A)
  }

  predicate IsKeptChar(c: char) {
    c as int < 256 && IsKept(c as int as byte)
  }

  /** Upper-case hexadecimal digit. */
  function HexDigit(d: int): (c: char)
    requires 0 <= d < 16
  {
    if d < 10 then (48 + d) as char else (55 + d) as char
  }

  predicate IsHexDigit(c: char) {
    ('0' <= c <= '9') || ('A' <= c <= 'F')
  }

  function HexValue(c: char): (d: int)
    requires IsHexDigit(c)
    ensures 0 <= d < 16
  {
    if c <= '9' then c as int - 48 else c as int - 55
  }

  /** The text one byte becomes. */
  function EncodeByte(b: byte): (t: string)
    ensures |t| == 1 || |t| == 3
  {
    if b == 0x20 then "+"
    else if IsKept(b) then [b as int as char]
    else ['%', HexDigit(b as int / 16), HexDigit(b as int % 16)]
  }

  function EncodeBytes(bs: seq<byte>): (t: string)
    decreases |bs|
  {
    if bs == [] then [] else EncodeByte(bs[0]) + EncodeBytes(bs[1..])
  }

  /** The serialization of one name or value. */
  function Serialize(s: string): (t: string) {
    EncodeBytes(Utf8(s))
  }

  /** The inverse of EncodeBytes: '+' is a space, "%XY" the byte with hex
      value XY, a safe character itself; anything else is rejected. */
  function DecodeBytes(t: string): (r: Option<seq<byte>>)
    decreases |t|
  {
    if t == [] then Some([])
    else
      var step: Option<(byte, nat)> :=
        if t[0] == '+' then Some((0x20, 1))
        else if t[0] == '%' && |t| >= 3 && IsHexDigit(t[1]) && IsHexDigit(t[2]) then
          Some(((HexValue(t[1]) * 16 + HexValue(t[2])) as byte, 3))
        else if IsKeptChar(t[0]) then Some((t[0] as int as byte, 1))
        else None;
      match step
      case None => None
      case Some((b, k)) =>
        if k > |t| then None
        else match DecodeBytes(t[k..])
          case None => None
          case Some(rest) => Some([b] + rest)
  }

  /** Decoding the text of one byte followed by anything reads that byte back. */
  lemma DecodeEncodedByte(b: byte, u: string)
    ensures var t := EncodeByte(b) + u;
            DecodeBytes(t) == match DecodeBytes(u) case None => None case Some(rest) => Some([b] + rest)
  {
    var t := EncodeByte(b) + u;
    if b == 0x20 {
      assert t[1..] == u;
    } else if IsKept(b) {
      assert t[1..] == u;
      assert t[0] != '+' && t[0] != '%';
    } else {
      assert t[3..] == u;
      var hi := b as int / 16;
      var lo := b as int % 16;
      assert HexValue(HexDigit(hi)) == hi;
      assert HexValue(HexDigit(lo)) == lo;
    }
  }

  /** Percent-encoding round trip on bytes. */
  lemma {:induction false} BytesRoundTrip(bs: seq<byte>)
    ensures DecodeBytes(EncodeBytes(bs)) == Some(bs)
    decreases |bs|
  {
    if bs != [] {
      BytesRoundTrip(bs[1..]);
      DecodeEncodedByte(bs[0], EncodeBytes(bs[1..]));
      assert bs == [bs[0]] + bs[1..];
    }
  }

  /** Reads a serialized name or value back into the string. */
  function Deserialize(t: string): (r: Option<string>) {
    match DecodeBytes(t)
    case None => None
    case Some(bs) => Utf8Decode(bs)
  }

  /** Serializing and then deserializing any string gives it back. */
  lemma SerializeRoundTrip(s: string)
    ensures Deserialize(Serialize(s)) == Some(s)
  {
    BytesRoundTrip(Utf8(s));
    Utf8RoundTrip(s);
  }

  /** Serialized text is built from safe characters, '+', '%' and hex
      digits only: in particular it holds neither '&' nor '='. */
  lemma {:induction false} EncodedHasNoSeparators(bs: seq<byte>)
    ensures '&' !in EncodeBytes(bs) && '=' !in EncodeBytes(bs)
    decreases |bs|
  {
    if bs != [] {
      EncodedHasNoSeparators(bs[1..]);
      var b := bs[0];
      if !IsKept(b) && b != 0x20 {
        assert EncodeByte(b) == ['%', HexDigit(b as int / 16), HexDigit(b as int % 16)];
      }
      assert '&' !in EncodeByte(b) && '=' !in EncodeByte(b);
    }
  }

  lemma SerializedHasNoSeparators(s: string)
    ensures '&' !in Serialize(s) && '=' !in Serialize(s)
  {
    EncodedHasNoSeparators(Utf8(s));
  }

  /** A station id (letters, digits and '-') serializes to itself. */
  lemma {:induction false} IdSerializesToItself(s: string)
    requires IsIdText(s)
    ensures Serialize(s) == s
    decreases |s|
  {
    if s != [] {
      IdSerializesToItself(s[1..]);
      var b := s[0] as int as byte;
      assert Utf8Char(s[0]) == [b];
      assert Utf8(s) == [b] + Utf8(s[1..]);
      assert EncodeBytes(Utf8(s)) == EncodeByte(b) + EncodeBytes(Utf8(s[1..]));
      assert s == [s[0]] + s[1..];
    }
  }

  // ---------------------------------------------------------------------
  // Name/value lists
  // ---------------------------------------------------------------------

  datatype Param = Param(name: string, value: string)

  function PairText(p: Param): string {
    Serialize(p.name) + "=" + Serialize(p.value)
  }

  /** The serialized list: pairs joined with '&'. */
  function SerializeQuery(ps: seq<Param>): (t: string)
    decreases |ps|
  {
    if ps == [] then []
    else if |ps| == 1 then PairText(ps[0])
    else PairText(ps[0]) + "&" + SerializeQuery(ps[1..])
  }

  /** The text up to the first sep, and what follows that sep, if any. */
  function SplitFirst(t: string, sep: char): (r: (string, Option<string>))
    ensures sep !in r.0
    ensures r.1.None? ==> r.0 == t
    ensures r.1.Some? ==> t == r.0 + [sep] + r.1.value
    decreases |t|
  {
    if t == [] then ([], None)
    else if t[0] == sep then ([], Some(t[1..]))
    else
      var (head, tail) := SplitFirst(t[1..], sep);
      ([t[0]] + head, tail)
  }

  /** SplitFirst undoes a join at a first separator. */
  lemma {:induction false} SplitFirstJoin(a: string, sep: char, b: string)
    requires sep !in a
    ensures SplitFirst(a + [sep] + b, sep) == (a, Some(b))
    decreases |a|
  {
    if a == [] {
      assert (a + [sep] + b)[1..] == b;
    } else {
      assert (a + [sep] + b)[1..] == a[1..] + [sep] + b;
      SplitFirstJoin(a[1..], sep, b);
      assert a == [a[0]] + a[1..];
    }
  }

  lemma {:induction false} SplitFirstWhole(a: string, sep: char)
    requires sep !in a
    ensures SplitFirst(a, sep) == (a, None)
    decreases |a|
  {
    if a != [] {
      SplitFirstWhole(a[1..], sep);
      assert a == [a[0]] + a[1..];
    }
  }

  /** One name=value chunk; a chunk without '=' is a name with an empty value. */
  function ParsePair(chunk: string): (r: Option<Param>) {
    var (name, value) := SplitFirst(chunk, '=');
    match Deserialize(name)
    case None => None
    case Some(n) =>
      match Deserialize(value.GetOr([]))
      case None => None
      case Some(v) => Some(Param(n, v))
  }

  /** Parses a query: chunks between '&', empty chunks skipped. */
  function ParseQuery(t: string): (r: Option<seq<Param>>)
    decreases |t|
  {
    var (chunk, rest) := SplitFirst(t, '&');
    var first: Option<seq<Param>> :=
      if chunk == [] then Some([])
      else match ParsePair(chunk)
        case None => None
        case Some(p) => Some([p]);
    match rest
    case None => first
    case Some(more) =>
      if first.None? then None
      else match ParseQuery(more)
        case None => None
        case Some(ps) => Some(first.value + ps)
  }

  /** A serialized pair parses back to the pair. */
  lemma PairRoundTrip(p: Param)
    ensures '&' !in PairText(p) && PairText(p) != []
    ensures ParsePair(PairText(p)) == Some(p)
  {
    SerializedHasNoSeparators(p.name);
    SerializedHasNoSeparators(p.value);
    SplitFirstJoin(Serialize(p.name), '=', Serialize(p.value));
    SerializeRoundTrip(p.name);
    SerializeRoundTrip(p.value);
    assert PairText(p)[|Serialize(p.name)|] == '=';
  }

  /** Query round trip: parsing a serialized list gives the list back. */
  lemma {:induction false} QueryRoundTrip(ps: seq<Param>)
    ensures ParseQuery(SerializeQuery(ps)) == Some(ps)
    decreases |ps|
  {
    if ps == [] {
    } else if |ps| == 1 {
      PairRoundTrip(ps[0]);
      SplitFirstWhole(PairText(ps[0]), '&');
      assert SerializeQuery(ps) == PairText(ps[0]);
      assert ps == [ps[0]];
    } else {
      PairRoundTrip(ps[0]);
      SplitFirstJoin(PairText(ps[0]), '&', SerializeQuery(ps[1..]));
      QueryRoundTrip(ps[1..]);
      assert ps == [ps[0]] + ps[1..];
    }
  }
}
