/**
  Base64 with the standard alphabet and `=` padding, as defined in section 4
  of RFC 4648 (the encoding `base64::encode` produces).

  `Encode` is the encoder; `Decode` is a strict decoder that accepts exactly
  the canonical encodings (length a multiple of four, padding only at the end,
  unused trailing bits zero). The two are proved to be inverses of each other.
*/
module Base64 {
  import opened Wrappers
  import opened Bytes

  /** A six-bit group: an index into the 64-character alphabet. */
  type sextet = x: int | 0 <= x < 64

  const PAD: char := '='

  /** The character that stands for `i` in the alphabet (Table 1 of RFC 4648). */
  function Char(i: sextet): char
  {
    if i < 26 then ('A' as int + i) as char
    else if i < 52 then ('a' as int + (i - 26)) as char
    else if i < 62 then ('0' as int + (i - 52)) as char
    else if i == 62 then '+'
    else '/'
  }

  /** The sextet an alphabet character stands for; `None` for any other character, the pad included. */
  function Index(c: char): Option<sextet>
  {
    if 'A' <= c <= 'Z' then Some(c as int - 'A' as int)
    else if 'a' <= c <= 'z' then Some(c as int - 'a' as int + 26)
    else if '0' <= c <= '9' then Some(c as int - '0' as int + 52)
    else if c == '+' then Some(62)
    else if c == '/' then Some(63)
    else None
  }

  /** The characters an encoding is made of: the alphabet and the pad. */
  predicate IsEncodingChar(c: char)
  {
    Index(c).Some? || c == PAD
  }

  /** `Index` inverts `Char`: each sextet is read back from its character, which is never the pad. */
  lemma IndexChar(i: sextet)
    ensures Index(Char(i)) == Some(i) && Char(i) != PAD
  {
  }

  /** ... and `Char` inverts `Index` on the alphabet. */
  lemma CharIndex(c: char)
    requires Index(c).Some?
    ensures Char(Index(c).value) == c
  {
  }

  /** Three octets as four alphabet characters. */
  function EncodeGroup(b0: byte, b1: byte, b2: byte): string
  {
    [Char(b0 / 4), Char(b0 % 4 * 16 + b1 / 16), Char(b1 % 16 * 4 + b2 / 64), Char(b2 % 64)]
  }

  /** A final single octet: two characters and two pads. */
  function EncodeLastOne(b0: byte): string
  {
    [Char(b0 / 4), Char(b0 % 4 * 16), PAD, PAD]
  }

  /** A final pair of octets: three characters and one pad. */
  function EncodeLastTwo(b0: byte, b1: byte): string
  {
    [Char(b0 / 4), Char(b0 % 4 * 16 + b1 / 16), Char(b1 % 16 * 4), PAD]
  }

  /**
    The padded encoding of `data`: four characters for every three octets or
    part thereof, drawn from the alphabet and the pad.
  */
  function Encode(data: seq<byte>): (s: string)
    ensures |s| == (|data| + 2) / 3 * 4
    decreases |data|
  {
    if |data| == 0 then ""
    else if |data| == 1 then EncodeLastOne(data[0])
    else if |data| == 2 then EncodeLastTwo(data[0], data[1])
    else EncodeGroup(data[0], data[1], data[2]) + Encode(data[3..])
  }

  /** Four alphabet characters (no pad) as three octets. */
  function DecodeGroup(s: string): Option<seq<byte>>
    requires |s| == 4
  {
    var c0, c1, c2, c3 := Index(s[0]), Index(s[1]), Index(s[2]), Index(s[3]);
    if c0.None? || c1.None? || c2.None? || c3.None? then None
    else
      Some([c0.value * 4 + c1.value / 16,
            c1.value % 16 * 16 + c2.value / 4,
            c2.value % 4 * 64 + c3.value])
  }

  /** The last quantum, which may end in one or two pads; unused bits must be zero. */
  function DecodeLast(s: string): Option<seq<byte>>
    requires |s| == 4
  {
    var c0, c1, c2 := Index(s[0]), Index(s[1]), Index(s[2]);
    if s[2] == PAD && s[3] == PAD then
      if c0.None? || c1.None? || c1.value % 16 != 0 then None
      else Some([c0.value * 4 + c1.value / 16])
    else if s[3] == PAD then
      if c0.None? || c1.None? || c2.None? || c2.value % 4 != 0 then None
      else Some([c0.value * 4 + c1.value / 16, c1.value % 16 * 16 + c2.value / 4])
    else DecodeGroup(s)
  }

  /** An encoding uses only the alphabet and the pad. */
  lemma {:induction false} EncodeAlphabet(data: seq<byte>)
    ensures forall i :: 0 <= i < |Encode(data)| ==> IsEncodingChar(Encode(data)[i])
    decreases |data|
  {
    if |data| == 1 {
      IndexChar(data[0] / 4);
      IndexChar(data[0] % 4 * 16);
    } else if |data| == 2 {
      IndexChar(data[0] / 4);
      IndexChar(data[0] % 4 * 16 + data[1] / 16);
      IndexChar(data[1] % 16 * 4);
    } else if |data| > 2 {
      IndexChar(data[0] / 4);
      IndexChar(data[0] % 4 * 16 + data[1] / 16);
      IndexChar(data[1] % 16 * 4 + data[2] / 64);
      IndexChar(data[2] % 64);
      EncodeAlphabet(data[3..]);
    }
  }

  /** Encoding works three octets at a time: whole groups encode independently of what follows them. */
  lemma {:induction false} EncodeAppend(a: seq<byte>, b: seq<byte>)
    requires |a| % 3 == 0
    ensures Encode(a + b) == Encode(a) + Encode(b)
    decreases |a|
  {
    if a == [] {
      assert a + b == b;
    } else {
      assert (a + b)[3..] == a[3..] + b;
      EncodeAppend(a[3..], b);
    }
  }

  /** Strict decoding; `None` for anything that is not a canonical padded encoding. */
  function Decode(s: string): Option<seq<byte>>
    decreases |s|
  {
    if |s| == 0 then Some([])
    else if |s| < 4 then None
    else if |s| == 4 then DecodeLast(s)
    else
      match DecodeGroup(s[..4])
      case None => None
      case Some(group) =>
        match Decode(s[4..])
        case None => None
        case Some(rest) => Some(group + rest)
  }

  /** Splitting `q * 4 + r` (with `r < 4`) back into `q` and `r`. */
  lemma Split4(q: int, r: int)
    requires 0 <= r < 4
    ensures (q * 4 + r) / 4 == q && (q * 4 + r) % 4 == r
  {
  }

  /** Splitting `q * 16 + r` (with `r < 16`) back into `q` and `r`. */
  lemma Split16(q: int, r: int)
    requires 0 <= r < 16
    ensures (q * 16 + r) / 16 == q && (q * 16 + r) % 16 == r
  {
  }

  lemma GroupRoundTrip(b0: byte, b1: byte, b2: byte)
    ensures DecodeGroup(EncodeGroup(b0, b1, b2)) == Some([b0, b1, b2])
  {
    var c0, c1, c2, c3 := b0 / 4, b0 % 4 * 16 + b1 / 16, b1 % 16 * 4 + b2 / 64, b2 % 64;
    IndexChar(c0); IndexChar(c1); IndexChar(c2); IndexChar(c3);
    Split16(b0 % 4, b1 / 16);
    Split4(b1 % 16, b2 / 64);
    assert c0 * 4 + c1 / 16 == b0;
    assert c1 % 16 * 16 + c2 / 4 == b1;
    assert c2 % 4 * 64 + c3 == b2;
  }

  lemma LastOneRoundTrip(b0: byte)
    ensures DecodeLast(EncodeLastOne(b0)) == Some([b0])
  {
  }

  lemma LastTwoRoundTrip(b0: byte, b1: byte)
    ensures DecodeLast(EncodeLastTwo(b0, b1)) == Some([b0, b1])
  {
    var s := EncodeLastTwo(b0, b1);
    IndexChar(b0 / 4); IndexChar(b0 % 4 * 16 + b1 / 16); IndexChar(b1 % 16 * 4);
    Split16(b0 % 4, b1 / 16);
    Split4(b1 % 16, 0);
    assert Index(s[1]) == Some(b0 % 4 * 16 + b1 / 16);
    assert Index(s[2]) == Some(b1 % 16 * 4);
    assert b0 / 4 * 4 + (b0 % 4 * 16 + b1 / 16) / 16 == b0;
    assert (b0 % 4 * 16 + b1 / 16) % 16 * 16 + b1 % 16 * 4 / 4 == b1;
  }

  /** Decoding undoes encoding: every octet string is recovered from its encoding. */
  lemma {:induction false} DecodeEncode(data: seq<byte>)
    ensures Decode(Encode(data)) == Some(data)
    decreases |data|
  {
    if |data| == 0 {
    } else if |data| == 1 {
      LastOneRoundTrip(data[0]);
      assert data == [data[0]];
    } else if |data| == 2 {
      LastTwoRoundTrip(data[0], data[1]);
      assert data == [data[0], data[1]];
    } else {
      var g := EncodeGroup(data[0], data[1], data[2]);
      var rest := Encode(data[3..]);
      GroupRoundTrip(data[0], data[1], data[2]);
      assert data == [data[0], data[1], data[2]] + data[3..];
      if |data| == 3 {
        assert data[3..] == [];
        assert Encode(data) == g + "";
        assert g + "" == g;
        assert g[2] != PAD && g[3] != PAD;
        assert data == [data[0], data[1], data[2]];
      } else {
        assert (g + rest)[..4] == g;
        assert (g + rest)[4..] == rest;
        DecodeEncode(data[3..]);
      }
    }
  }

  lemma GroupEncodesBack(s: string)
    requires |s| == 4 && DecodeGroup(s).Some?
    ensures var d := DecodeGroup(s).value; EncodeGroup(d[0], d[1], d[2]) == s
  {
    var c0, c1, c2, c3 := Index(s[0]).value, Index(s[1]).value, Index(s[2]).value, Index(s[3]).value;
    CharIndex(s[0]); CharIndex(s[1]); CharIndex(s[2]); CharIndex(s[3]);
    var d := DecodeGroup(s).value;
    assert d[0] / 4 == c0;
    assert d[0] % 4 * 16 + d[1] / 16 == c1;
    assert d[1] % 16 * 4 + d[2] / 64 == c2;
    assert d[2] % 64 == c3;
  }

  lemma LastEncodesBack(s: string)
    requires |s| == 4 && DecodeLast(s).Some?
    ensures Encode(DecodeLast(s).value) == s
  {
    var d := DecodeLast(s).value;
    CharIndex(s[0]); CharIndex(s[1]);
    if s[2] == PAD && s[3] == PAD {
      assert d[0] / 4 == Index(s[0]).value;
      assert d[0] % 4 * 16 == Index(s[1]).value;
      assert Encode(d) == EncodeLastOne(d[0]);
    } else if s[3] == PAD {
      CharIndex(s[2]);
      assert d[0] / 4 == Index(s[0]).value;
      assert d[0] % 4 * 16 + d[1] / 16 == Index(s[1]).value;
      assert d[1] % 16 * 4 == Index(s[2]).value;
      assert Encode(d) == EncodeLastTwo(d[0], d[1]);
    } else {
      GroupEncodesBack(s);
      assert Encode(d) == EncodeGroup(d[0], d[1], d[2]) + Encode(d[3..]);
    }
  }

  /** Encoding undoes decoding: whatever `Decode` accepts is exactly the encoding of what it yields. */
  lemma {:induction false} EncodeDecode(s: string)
    requires Decode(s).Some?
    ensures Encode(Decode(s).value) == s
    decreases |s|
  {
    if |s| == 0 {
    } else if |s| == 4 {
      LastEncodesBack(s);
    } else {
      var g := DecodeGroup(s[..4]).value;
      var rest := Decode(s[4..]).value;
      GroupEncodesBack(s[..4]);
      EncodeDecode(s[4..]);
      var d := g + rest;
      assert d[3..] == rest;
      assert Encode(d) == EncodeGroup(d[0], d[1], d[2]) + Encode(rest);
      assert s == s[..4] + s[4..];
    }
  }
}
