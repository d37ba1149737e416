/** The base64 encoding of section 4 of RFC 4648 (alphabet A-Z a-z 0-9 + /,
    `=` padding), as `Buffer.toString("base64")` produces it, and the strict
    decoder that inverts it. */
module Base64 {
  import opened Text

  newtype byte = x: int | 0 <= x < 256

  type Sextet = x: int | 0 <= x < 64

  predicate IsAlphabetChar(c: char)
  {
    'A' <= c <= 'Z' || 'a' <= c <= 'z' || '0' <= c <= '9' || c == '+' || c == '/'
  }

  /** The value of a character of the alphabet (Table 1 of RFC 4648). */
  function CharValue(c: char): Sextet
    requires IsAlphabetChar(c)
  {
    if 'A' <= c <= 'Z' then c as int - 'A' as int
    else if 'a' <= c <= 'z' then c as int - 'a' as int + 26
    else if '0' <= c <= '9' then c as int - '0' as int + 52
    else if c == '+' then 62
    else 63
  }

  /** The character of the alphabet that encodes `v`. */
  function ValueChar(v: Sextet): (c: char)
    ensures IsAlphabetChar(c) && CharValue(c) == v
  {
    if v < 26 then ('A' as int + v) as char
    else if v < 52 then ('a' as int + v - 26) as char
    else if v < 62 then ('0' as int + v - 52) as char
    else if v == 62 then '+'
    else '/'
  }

  /** Each alphabet character is the encoding of its own value. */
  lemma ValueCharOfCharValue(c: char)
    requires IsAlphabetChar(c)
    ensures ValueChar(CharValue(c)) == c
  {
  }

  /** Three octets become four characters. */
  function EncodeGroup(a: byte, b: byte, c: byte): string
  {
    var x, y, z := a as int, b as int, c as int;
    [ValueChar(x / 4), ValueChar((x % 4) * 16 + y / 16), ValueChar((y % 16) * 4 + z / 64), ValueChar(z % 64)]
  }

  /** A final quantum of one octet: two characters and "==". */
  function EncodeOne(a: byte): string
  {
    var x := a as int;
    [ValueChar(x / 4), ValueChar((x % 4) * 16), '=', '=']
  }

  /** A final quantum of two octets: three characters and "=". */
  function EncodeTwo(a: byte, b: byte): string
  {
    var x, y := a as int, b as int;
    [ValueChar(x / 4), ValueChar((x % 4) * 16 + y / 16), ValueChar((y % 16) * 4), '=']
  }

  function Encode(bs: seq<byte>): (s: string)
    ensures |s| == 4 * ((|bs| + 2) / 3)
    decreases |bs|
  {
    if |bs| == 0 then ""
    else if |bs| == 1 then EncodeOne(bs[0])
    else if |bs| == 2 then EncodeTwo(bs[0], bs[1])
    else EncodeGroup(bs[0], bs[1], bs[2]) + Encode(bs[3..])
  }

  /** Four sextets joined into three octets. */
  function JoinGroup(v0: Sextet, v1: Sextet, v2: Sextet, v3: Sextet): seq<byte>
  {
    [(v0 * 4 + v1 / 16) as byte, ((v1 % 16) * 16 + v2 / 4) as byte, ((v2 % 4) * 64 + v3) as byte]
  }

  /** Four alphabet characters, no padding, as three octets. */
  function DecodeGroup(q: string): Option<seq<byte>>
    requires |q| == 4
  {
    if IsAlphabetChar(q[0]) && IsAlphabetChar(q[1]) && IsAlphabetChar(q[2]) && IsAlphabetChar(q[3]) then
      Some(JoinGroup(CharValue(q[0]), CharValue(q[1]), CharValue(q[2]), CharValue(q[3])))
    else None
  }

  /** Two sextets joined into one octet (the low four bits of the second
      are the padding bits). */
  function JoinOne(v0: Sextet, v1: Sextet): seq<byte>
  {
    [(v0 * 4 + v1 / 16) as byte]
  }

  /** Three sextets joined into two octets (the low two bits of the third
      are the padding bits). */
  function JoinTwo(v0: Sextet, v1: Sextet, v2: Sextet): seq<byte>
  {
    [(v0 * 4 + v1 / 16) as byte, ((v1 % 16) * 16 + v2 / 4) as byte]
  }

  /** The last quantum: a full group, or one with "=" or "==" whose unused
      bits are zero (anything else is not the encoding of any octets). */
  function DecodeLast(q: string): Option<seq<byte>>
    requires |q| == 4
  {
    if q[2] == '=' && q[3] == '=' then
      if IsAlphabetChar(q[0]) && IsAlphabetChar(q[1]) && CharValue(q[1]) % 16 == 0 then
        Some(JoinOne(CharValue(q[0]), CharValue(q[1])))
      else None
    else if q[3] == '=' then
      if IsAlphabetChar(q[0]) && IsAlphabetChar(q[1]) && IsAlphabetChar(q[2]) && CharValue(q[2]) % 4 == 0 then
        Some(JoinTwo(CharValue(q[0]), CharValue(q[1]), CharValue(q[2])))
      else None
    else DecodeGroup(q)
  }

  function Decode(s: string): Option<seq<byte>>
    decreases |s|
  {
    if |s| == 0 then Some([])
    else if |s| < 4 then None
    else if |s| == 4 then DecodeLast(s)
    else
      match DecodeGroup(s[..4])
      case None => None
      case Some(head) =>
        match Decode(s[4..])
        case None => None
        case Some(tail) => Some(head + tail)
  }

  /** Splitting three octets into four sextets and joining them again. */
  lemma SplitJoin(x: int, y: int, z: int)
    requires 0 <= x < 256 && 0 <= y < 256 && 0 <= z < 256
    ensures var v0, v1, v2, v3 := x / 4, (x % 4) * 16 + y / 16, (y % 16) * 4 + z / 64, z % 64;
      v0 * 4 + v1 / 16 == x && (v1 % 16) * 16 + v2 / 4 == y && (v2 % 4) * 64 + v3 == z
  {
    var v1, v2 := (x % 4) * 16 + y / 16, (y % 16) * 4 + z / 64;
    assert v1 / 16 == x % 4 && v1 % 16 == y / 16;
    assert v2 / 4 == y % 16 && v2 % 4 == z / 64;
  }

  /** Joining four sextets into three octets and splitting them again. */
  lemma JoinSplit(v0: int, v1: int, v2: int, v3: int)
    requires 0 <= v0 < 64 && 0 <= v1 < 64 && 0 <= v2 < 64 && 0 <= v3 < 64
    ensures var x, y, z := v0 * 4 + v1 / 16, (v1 % 16) * 16 + v2 / 4, (v2 % 4) * 64 + v3;
      x / 4 == v0 && (x % 4) * 16 + y / 16 == v1 && (y % 16) * 4 + z / 64 == v2 && z % 64 == v3
  {
    var x, y, z := v0 * 4 + v1 / 16, (v1 % 16) * 16 + v2 / 4, (v2 % 4) * 64 + v3;
    assert x / 4 == v0 && x % 4 == v1 / 16;
    assert y / 16 == v1 % 16 && y % 16 == v2 / 4;
    assert z / 64 == v2 % 4 && z % 64 == v3;
  }

  lemma GroupRoundTrip(a: byte, b: byte, c: byte)
    ensures DecodeGroup(EncodeGroup(a, b, c)) == Some([a, b, c])
    ensures DecodeLast(EncodeGroup(a, b, c)) == Some([a, b, c])
  {
    SplitJoin(a as int, b as int, c as int);
  }

  lemma OneRoundTrip(a: byte)
    ensures DecodeLast(EncodeOne(a)) == Some([a])
  {
    SplitJoin(a as int, 0, 0);
  }

  lemma TwoRoundTrip(a: byte, b: byte)
    ensures DecodeLast(EncodeTwo(a, b)) == Some([a, b])
  {
    SplitJoin(a as int, b as int, 0);
  }

  /** Decoding the encoding of any octets gives those octets back. */
  lemma {:induction false} DecodeEncode(bs: seq<byte>)
    ensures Decode(Encode(bs)) == Some(bs)
    decreases |bs|
  {
    if |bs| == 1 {
      OneRoundTrip(bs[0]);
      assert bs == [bs[0]];
    } else if |bs| == 2 {
      TwoRoundTrip(bs[0], bs[1]);
      assert bs == [bs[0], bs[1]];
    } else if |bs| == 3 {
      GroupRoundTrip(bs[0], bs[1], bs[2]);
      assert Encode(bs) == EncodeGroup(bs[0], bs[1], bs[2]) + Encode([]);
      assert bs == [bs[0], bs[1], bs[2]];
    } else if |bs| > 3 {
      GroupStep(bs);
    }
  }

  lemma {:induction false} GroupStep(bs: seq<byte>)
    requires |bs| > 3
    ensures Decode(Encode(bs)) == Some(bs)
    decreases |bs|, 0
  {
    var head, tail := EncodeGroup(bs[0], bs[1], bs[2]), Encode(bs[3..]);
    GroupRoundTrip(bs[0], bs[1], bs[2]);
    DecodeEncode(bs[3..]);
    assert Encode(bs) == head + tail;
    DecodeCons(head, tail);
    assert bs == [bs[0], bs[1], bs[2]] + bs[3..];
  }

  /** A group followed by a decodable rest decodes to the group's octets
      followed by the rest's. */
  lemma DecodeCons(head: string, tail: string)
    requires |head| == 4 && |tail| >= 4 && DecodeGroup(head).Some? && Decode(tail).Some?
    ensures Decode(head + tail) == Some(DecodeGroup(head).value + Decode(tail).value)
  {
    var s := head + tail;
    assert s[..4] == head && s[4..] == tail;
  }

  /** The decoder accepts nothing but encodings: whatever it decodes is
      exactly the encoding of what it returns. */
  lemma {:induction false} EncodeDecode(s: string, bs: seq<byte>)
    requires Decode(s) == Some(bs)
    ensures Encode(bs) == s
    decreases |s|
  {
    if |s| == 4 {
      LastInverse(s);
    } else if |s| > 4 {
      var head :| DecodeGroup(s[..4]) == Some(head);
      var tail :| Decode(s[4..]) == Some(tail);
      GroupInverse(s[..4]);
      EncodeDecode(s[4..], tail);
      assert bs == head + tail;
      assert bs[3..] == tail;
      assert s == s[..4] + s[4..];
    }
  }

  /** Encoding the octets that four sextets join into gives back the
      characters of those sextets. */
  lemma EncodeJoined(v0: Sextet, v1: Sextet, v2: Sextet, v3: Sextet)
    ensures var bs := JoinGroup(v0, v1, v2, v3);
      EncodeGroup(bs[0], bs[1], bs[2]) == [ValueChar(v0), ValueChar(v1), ValueChar(v2), ValueChar(v3)]
  {
    var bs := JoinGroup(v0, v1, v2, v3);
    var x, y, z := bs[0] as int, bs[1] as int, bs[2] as int;
    assert x == v0 * 4 + v1 / 16 && y == (v1 % 16) * 16 + v2 / 4 && z == (v2 % 4) * 64 + v3;
    JoinSplit(v0, v1, v2, v3);
    assert x / 4 == v0 && (x % 4) * 16 + y / 16 == v1 && (y % 16) * 4 + z / 64 == v2 && z % 64 == v3;
  }

  lemma GroupInverse(q: string)
    requires |q| == 4 && DecodeGroup(q).Some?
    ensures var bs := DecodeGroup(q).value; |bs| == 3 && EncodeGroup(bs[0], bs[1], bs[2]) == q
  {
    var v0, v1, v2, v3 := CharValue(q[0]), CharValue(q[1]), CharValue(q[2]), CharValue(q[3]);
    EncodeJoined(v0, v1, v2, v3);
    ValueCharOfCharValue(q[0]);
    ValueCharOfCharValue(q[1]);
    ValueCharOfCharValue(q[2]);
    ValueCharOfCharValue(q[3]);
    assert q == [ValueChar(v0), ValueChar(v1), ValueChar(v2), ValueChar(v3)];
  }

  lemma LastInverse(q: string)
    requires |q| == 4 && DecodeLast(q).Some?
    ensures Encode(DecodeLast(q).value) == q
  {
    var bs := DecodeLast(q).value;
    if q[2] == '=' && q[3] == '=' {
      OneInverse(q);
    } else if q[3] == '=' {
      TwoInverse(q);
    } else {
      GroupInverse(q);
      assert Encode(bs) == EncodeGroup(bs[0], bs[1], bs[2]) + Encode([]);
    }
  }

  lemma EncodeJoinedOne(v0: Sextet, v1: Sextet)
    requires v1 % 16 == 0
    ensures EncodeOne(JoinOne(v0, v1)[0]) == [ValueChar(v0), ValueChar(v1), '=', '=']
  {
    var x := JoinOne(v0, v1)[0] as int;
    assert x == v0 * 4 + v1 / 16;
    JoinSplit(v0, v1, 0, 0);
    assert x / 4 == v0 && (x % 4) * 16 == v1;
  }

  lemma EncodeJoinedTwo(v0: Sextet, v1: Sextet, v2: Sextet)
    requires v2 % 4 == 0
    ensures var bs := JoinTwo(v0, v1, v2);
      EncodeTwo(bs[0], bs[1]) == [ValueChar(v0), ValueChar(v1), ValueChar(v2), '=']
  {
    var bs := JoinTwo(v0, v1, v2);
    var x, y := bs[0] as int, bs[1] as int;
    assert x == v0 * 4 + v1 / 16 && y == (v1 % 16) * 16 + v2 / 4;
    JoinSplit(v0, v1, v2, 0);
    assert x / 4 == v0 && (x % 4) * 16 + y / 16 == v1 && (y % 16) * 4 == v2;
  }

  lemma OneInverse(q: string)
    requires |q| == 4 && q[2] == '=' && q[3] == '=' && DecodeLast(q).Some?
    ensures Encode(DecodeLast(q).value) == q
  {
    var v0, v1 := CharValue(q[0]), CharValue(q[1]);
    ValueCharOfCharValue(q[0]);
    ValueCharOfCharValue(q[1]);
    EncodeJoinedOne(v0, v1);
    assert q == [ValueChar(v0), ValueChar(v1), '=', '='];
  }

  lemma TwoInverse(q: string)
    requires |q| == 4 && !(q[2] == '=' && q[3] == '=') && q[3] == '=' && DecodeLast(q).Some?
    ensures Encode(DecodeLast(q).value) == q
  {
    var v0, v1, v2 := CharValue(q[0]), CharValue(q[1]), CharValue(q[2]);
    ValueCharOfCharValue(q[0]);
    ValueCharOfCharValue(q[1]);
    ValueCharOfCharValue(q[2]);
    EncodeJoinedTwo(v0, v1, v2);
    assert q == [ValueChar(v0), ValueChar(v1), ValueChar(v2), '='];
  }
}
