/**
  UTF-8, the byte representation of a Rust `String`: what `base64::encode`
  reads when it is handed a formatted string. `Encode` maps a sequence of
  Unicode scalar values to its UTF-8 bytes; `Decode` is a strict decoder
  (shortest form only, no surrogates) proved to undo it.
*/
module Utf8 {
  import opened Wrappers
  import opened Bytes

  /** The bytes of one scalar value: one to four of them, by the size of the code point. */
  function EncodeChar(c: char): (r: seq<byte>)
    ensures 1 <= |r| <= 4
    ensures |r| == Width(r[0])
    ensures forall i :: 1 <= i < |r| ==> IsContinuation(r[i])
  {
    var cp := c as int;
    if cp < 0x80 then [cp]
    else if cp < 0x800 then [0xC0 + cp / 0x40, 0x80 + cp % 0x40]
    else if cp < 0x1_0000 then [0xE0 + cp / 0x1000, 0x80 + cp / 0x40 % 0x40, 0x80 + cp % 0x40]
    else [0xF0 + cp / 0x4_0000, 0x80 + cp / 0x1000 % 0x40, 0x80 + cp / 0x40 % 0x40, 0x80 + cp % 0x40]
  }

  /** The UTF-8 bytes of `s`: at least one and at most four per character. */
  function Encode(s: string): (r: seq<byte>)
    ensures |s| <= |r| <= 4 * |s|
  {
    if s == [] then [] else EncodeChar(s[0]) + Encode(s[1..])
  }

  /** How many bytes a sequence starting with `lead` takes; 0 when `lead` cannot start one. */
  function Width(lead: byte): nat
  {
    if lead < 0x80 then 1
    else if 0xC2 <= lead < 0xE0 then 2
    else if 0xE0 <= lead < 0xF0 then 3
    else if 0xF0 <= lead < 0xF5 then 4
    else 0
  }

  predicate IsContinuation(b: byte)
  {
    0x80 <= b < 0xC0
  }

  /** The code points Dafny's `char` (and Rust's `char`) can hold. */
  predicate IsScalarValue(cp: int)
  {
    0 <= cp < 0xD800 || 0xE000 <= cp < 0x11_0000
  }

  /** One encoded scalar value, rejected when it is over-long, a surrogate or out of range. */
  function DecodeChar(bs: seq<byte>): Option<char>
    requires 1 <= |bs| <= 4 && |bs| == Width(bs[0])
  {
    if |bs| == 1 then Some(bs[0] as char)
    else if exists i :: 1 <= i < |bs| && !IsContinuation(bs[i]) then None
    else
      var cp: int :=
        if |bs| == 2 then (bs[0] as int - 0xC0) * 0x40 + (bs[1] as int - 0x80)
        else if |bs| == 3 then (bs[0] as int - 0xE0) * 0x1000 + (bs[1] as int - 0x80) * 0x40 + (bs[2] as int - 0x80)
        else (bs[0] as int - 0xF0) * 0x4_0000 + (bs[1] as int - 0x80) * 0x1000 + (bs[2] as int - 0x80) * 0x40 + (bs[3] as int - 0x80);
      var least := if |bs| == 2 then 0x80 else if |bs| == 3 then 0x800 else 0x1_0000;
      if least <= cp && IsScalarValue(cp) then Some(cp as char) else None
  }

  /** Strict decoding; `None` for anything that is not well-formed UTF-8. */
  function Decode(b: seq<byte>): Option<string>
    decreases |b|
  {
    if b == [] then Some("")
    else
      var n := Width(b[0]);
      if n == 0 || |b| < n then None
      else
        match DecodeChar(b[..n])
        case None => None
        case Some(c) =>
          match Decode(b[n..])
          case None => None
          case Some(rest) => Some([c] + rest)
  }

  lemma CharRoundTrip(c: char)
    ensures DecodeChar(EncodeChar(c)) == Some(c)
  {
    var cp := c as int;
    var r := EncodeChar(c);
    if cp < 0x80 {
    } else if cp < 0x800 {
      assert (r[0] as int - 0xC0) * 0x40 + (r[1] as int - 0x80) == cp;
    } else if cp < 0x1_0000 {
      ThreeByteRoundTrip(c);
    } else {
      FourByteRoundTrip(c);
    }
  }

  lemma ThreeByteRoundTrip(c: char)
    requires 0x800 <= c as int < 0x1_0000
    ensures DecodeChar(EncodeChar(c)) == Some(c)
  {
  }

  lemma FourByteRoundTrip(c: char)
    requires 0x1_0000 <= c as int
    ensures DecodeChar(EncodeChar(c)) == Some(c)
  {
    var cp := c as int;
    var r := EncodeChar(c);
    assert cp / 0x40 == cp / 0x1000 * 0x40 + cp / 0x40 % 0x40;
    assert cp / 0x1000 == cp / 0x4_0000 * 0x40 + cp / 0x1000 % 0x40;
    assert (r[0] as int - 0xF0) * 0x4_0000 + (r[1] as int - 0x80) * 0x1000 + (r[2] as int - 0x80) * 0x40 + (r[3] as int - 0x80) == cp;
  }

  /** Decoding undoes encoding: the text is recovered from its bytes. */
  lemma {:induction false} DecodeEncode(s: string)
    ensures Decode(Encode(s)) == Some(s)
  {
    if s != [] {
      var head, tail := EncodeChar(s[0]), Encode(s[1..]);
      var b := head + tail;
      CharRoundTrip(s[0]);
      DecodeEncode(s[1..]);
      assert b[..|head|] == head;
      assert b[|head|..] == tail;
      assert s == [s[0]] + s[1..];
    }
  }

  /** Bytes the strict decoder accepts as one character are that character's encoding. */
  lemma CharEncodesBack(bs: seq<byte>)
    requires 1 <= |bs| <= 4 && |bs| == Width(bs[0]) && DecodeChar(bs).Some?
    ensures EncodeChar(DecodeChar(bs).value) == bs
  {
    if |bs| == 2 {
      TwoBytesBack(bs);
    } else if |bs| == 3 {
      ThreeBytesBack(bs);
    } else if |bs| == 4 {
      FourBytesBack(bs);
    }
  }

  lemma TwoBytesBack(bs: seq<byte>)
    requires |bs| == 2 && Width(bs[0]) == 2 && DecodeChar(bs).Some?
    ensures EncodeChar(DecodeChar(bs).value) == bs
  {
    var b0, b1 := bs[0] as int, bs[1] as int;
    assert IsContinuation(bs[1]);
    var cp := (b0 - 0xC0) * 0x40 + (b1 - 0x80);
    assert DecodeChar(bs).value as int == cp;
    assert cp / 0x40 == b0 - 0xC0 && cp % 0x40 == b1 - 0x80;
    assert EncodeChar(DecodeChar(bs).value) == [bs[0], bs[1]];
  }

  lemma ThreeBytesBack(bs: seq<byte>)
    requires |bs| == 3 && Width(bs[0]) == 3 && DecodeChar(bs).Some?
    ensures EncodeChar(DecodeChar(bs).value) == bs
  {
    var b0, b1, b2 := bs[0] as int, bs[1] as int, bs[2] as int;
    assert IsContinuation(bs[1]) && IsContinuation(bs[2]);
    var cp := (b0 - 0xE0) * 0x1000 + (b1 - 0x80) * 0x40 + (b2 - 0x80);
    assert DecodeChar(bs).value as int == cp;
    assert cp / 0x1000 == b0 - 0xE0;
    assert cp / 0x40 == (b0 - 0xE0) * 0x40 + (b1 - 0x80);
    assert cp / 0x40 % 0x40 == b1 - 0x80 && cp % 0x40 == b2 - 0x80;
    assert EncodeChar(DecodeChar(bs).value) == [bs[0], bs[1], bs[2]];
  }

  lemma FourBytesBack(bs: seq<byte>)
    requires |bs| == 4 && Width(bs[0]) == 4 && DecodeChar(bs).Some?
    ensures EncodeChar(DecodeChar(bs).value) == bs
  {
    var b0, b1, b2, b3 := bs[0] as int, bs[1] as int, bs[2] as int, bs[3] as int;
    assert IsContinuation(bs[1]) && IsContinuation(bs[2]) && IsContinuation(bs[3]);
    var cp := (b0 - 0xF0) * 0x4_0000 + (b1 - 0x80) * 0x1000 + (b2 - 0x80) * 0x40 + (b3 - 0x80);
    assert DecodeChar(bs).value as int == cp;
    assert cp / 0x4_0000 == b0 - 0xF0;
    assert cp / 0x1000 == (b0 - 0xF0) * 0x40 + (b1 - 0x80);
    assert cp / 0x40 == ((b0 - 0xF0) * 0x40 + (b1 - 0x80)) * 0x40 + (b2 - 0x80);
    assert cp / 0x1000 % 0x40 == b1 - 0x80 && cp / 0x40 % 0x40 == b2 - 0x80 && cp % 0x40 == b3 - 0x80;
    assert EncodeChar(DecodeChar(bs).value) == [bs[0], bs[1], bs[2], bs[3]];
  }

  /** Encoding undoes decoding: bytes the strict decoder accepts are the encoding of the text it returns. */
  lemma {:induction false} EncodeDecode(b: seq<byte>)
    requires Decode(b).Some?
    ensures Encode(Decode(b).value) == b
    decreases |b|
  {
    if b != [] {
      var n := Width(b[0]);
      var c := DecodeChar(b[..n]).value;
      var rest := Decode(b[n..]).value;
      CharEncodesBack(b[..n]);
      EncodeDecode(b[n..]);
      assert Decode(b).value == [c] + rest;
      assert ([c] + rest)[0] == c && ([c] + rest)[1..] == rest;
      assert b == b[..n] + b[n..];
    }
  }

  /** Encoding is compositional: the bytes of a concatenation are the concatenated bytes. */
  lemma {:induction false} EncodeConcat(a: string, b: string)
    ensures Encode(a + b) == Encode(a) + Encode(b)
  {
    if a == [] {
      assert a + b == b;
    } else {
      assert (a + b)[1..] == a[1..] + b;
      EncodeConcat(a[1..], b);
    }
  }

  /** ASCII text is its own encoding, one byte per character. */
  lemma {:induction false} EncodeAscii(s: string)
    requires forall i :: 0 <= i < |s| ==> s[i] as int < 0x80
    ensures |Encode(s)| == |s|
    ensures forall i :: 0 <= i < |s| ==> Encode(s)[i] == s[i] as int
  {
    if s != [] {
      EncodeAscii(s[1..]);
    }
  }
}
