/**
  The UTF-8 bytes and the Base64 text of the credentials used by the unit
  tests of src/transports/http.rs, computed three octets at a time and joined
  with the concatenation laws of the two encodings.
*/
module CredentialVectors {
  import opened Bytes
  import Base64
  import Utf8

  // Joining encodings of pieces.

  lemma Base64Of3(a: seq<byte>, b: seq<byte>, c: seq<byte>, sa: string, sb: string, sc: string)
    requires |a| == |b| == 3
    requires Base64.Encode(a) == sa && Base64.Encode(b) == sb && Base64.Encode(c) == sc
    ensures Base64.Encode(a + b + c) == sa + sb + sc
  {
  }

  lemma Base64Of6(a: seq<byte>, b: seq<byte>, c: seq<byte>, d: seq<byte>, e: seq<byte>, f: seq<byte>,
                  sa: string, sb: string, sc: string, sd: string, se: string, sf: string)
    requires |a| == |b| == |c| == |d| == |e| == 3
    requires Base64.Encode(a) == sa && Base64.Encode(b) == sb && Base64.Encode(c) == sc
    requires Base64.Encode(d) == sd && Base64.Encode(e) == se && Base64.Encode(f) == sf
    ensures Base64.Encode(a + b + c + d + e + f) == sa + sb + sc + sd + se + sf
  {
    var tail := d + e + f;
    Base64Of3(d, e, f, sd, se, sf);
    Base64.EncodeAppend(c, tail);
    Base64Of3(a, b, c + tail, sa, sb, sc + (sd + se + sf));
    Regroup(a, b, c, d, e, f);
    Regroup(sa, sb, sc, sd, se, sf);
  }

  lemma Regroup<T>(a: seq<T>, b: seq<T>, c: seq<T>, d: seq<T>, e: seq<T>, f: seq<T>)
    ensures a + b + (c + (d + e + f)) == a + b + c + d + e + f
  {
  }

  lemma Utf8Append(x: string, g: string, bx: seq<byte>, bg: seq<byte>)
    requires Utf8.Encode(x) == bx && Utf8.Encode(g) == bg
    ensures Utf8.Encode(x + g) == bx + bg
  {
    Utf8.EncodeConcat(x, g);
  }

  lemma Utf8Of3(a: string, b: string, c: string, ba: seq<byte>, bb: seq<byte>, bc: seq<byte>)
    requires Utf8.Encode(a) == ba && Utf8.Encode(b) == bb && Utf8.Encode(c) == bc
    ensures Utf8.Encode(a + b + c) == ba + bb + bc
  {
    Utf8Append(a, b, ba, bb);
    Utf8Append(a + b, c, ba + bb, bc);
  }

  lemma Utf8Of6(a: string, b: string, c: string, d: string, e: string, f: string,
                ba: seq<byte>, bb: seq<byte>, bc: seq<byte>, bd: seq<byte>, be: seq<byte>, bf: seq<byte>)
    requires Utf8.Encode(a) == ba && Utf8.Encode(b) == bb && Utf8.Encode(c) == bc
    requires Utf8.Encode(d) == bd && Utf8.Encode(e) == be && Utf8.Encode(f) == bf
    ensures Utf8.Encode(a + b + c + d + e + f) == ba + bb + bc + bd + be + bf
  {
    Utf8Of3(a, b, c, ba, bb, bc);
    Utf8Append(a + b + c, d, ba + bb + bc, bd);
    Utf8Append(a + b + c + d, e, ba + bb + bc + bd, be);
    Utf8Append(a + b + c + d + e, f, ba + bb + bc + bd + be, bf);
  }

  // The UTF-8 bytes of the three-character pieces of the credentials.
  lemma UsernamePieces()
    ensures Utf8.Encode("use") == [117, 115, 101] && Utf8.Encode("rna") == [114, 110, 97]
    ensures Utf8.Encode("me:") == [109, 101, 58]
  {
  }

  lemma PasswordPieces()
    ensures Utf8.Encode("pas") == [112, 97, 115] && Utf8.Encode("swo") == [115, 119, 111]
    ensures Utf8.Encode("rd") == [114, 100]
  {
  }

  lemma ColonPasswordPieces()
    ensures Utf8.Encode(":pa") == [58, 112, 97] && Utf8.Encode("ssw") == [115, 115, 119]
    ensures Utf8.Encode("ord") == [111, 114, 100]
  {
  }

  // The Base64 of each three-octet group of the credentials.
  lemma EncodesUse() ensures Base64.Encode([117, 115, 101]) == "dXNl" {}
  lemma EncodesRna() ensures Base64.Encode([114, 110, 97]) == "cm5h" {}
  lemma EncodesMeColon() ensures Base64.Encode([109, 101, 58]) == "bWU6" {}
  lemma EncodesPas() ensures Base64.Encode([112, 97, 115]) == "cGFz" {}
  lemma EncodesSwo() ensures Base64.Encode([115, 119, 111]) == "c3dv" {}
  lemma EncodesRd() ensures Base64.Encode([114, 100]) == "cmQ=" {}
  lemma EncodesColonPa() ensures Base64.Encode([58, 112, 97]) == "OnBh" {}
  lemma EncodesSsw() ensures Base64.Encode([115, 115, 119]) == "c3N3" {}
  lemma EncodesOrd() ensures Base64.Encode([111, 114, 100]) == "b3Jk" {}

  // "username:password"

  lemma UsernamePasswordBytes()
    ensures Utf8.Encode("username" + ":" + "password") == [117, 115, 101] + [114, 110, 97] + [109, 101, 58] + [112, 97, 115] + [115, 119, 111] + [114, 100]
  {
    UsernamePieces();
    PasswordPieces();
    assert "username" + ":" + "password" == "use" + "rna" + "me:" + "pas" + "swo" + "rd";
    Utf8Of6("use", "rna", "me:", "pas", "swo", "rd",
            [117, 115, 101], [114, 110, 97], [109, 101, 58], [112, 97, 115], [115, 119, 111], [114, 100]);
  }

  lemma UsernamePasswordBase64()
    ensures Base64.Encode([117, 115, 101] + [114, 110, 97] + [109, 101, 58] + [112, 97, 115] + [115, 119, 111] + [114, 100]) == "dXNl" + "cm5h" + "bWU6" + "cGFz" + "c3dv" + "cmQ="
  {
    EncodesUse(); EncodesRna(); EncodesMeColon(); EncodesPas(); EncodesSwo(); EncodesRd();
    Base64Of6([117, 115, 101], [114, 110, 97], [109, 101, 58], [112, 97, 115], [115, 119, 111], [114, 100],
              "dXNl", "cm5h", "bWU6", "cGFz", "c3dv", "cmQ=");
  }

  lemma UsernamePasswordText() ensures "dXNl" + "cm5h" + "bWU6" + "cGFz" + "c3dv" + "cmQ=" == "dXNlcm5hbWU6cGFzc3dvcmQ=" {}

  // "username:"

  lemma UsernameOnlyBytes()
    ensures Utf8.Encode("username" + ":" + "") == [117, 115, 101] + [114, 110, 97] + [109, 101, 58]
  {
    UsernamePieces();
    assert "username" + ":" + "" == "use" + "rna" + "me:";
    Utf8Of3("use", "rna", "me:", [117, 115, 101], [114, 110, 97], [109, 101, 58]);
  }

  lemma UsernameOnlyBase64()
    ensures Base64.Encode([117, 115, 101] + [114, 110, 97] + [109, 101, 58]) == "dXNl" + "cm5h" + "bWU6"
  {
    EncodesUse(); EncodesRna(); EncodesMeColon();
    Base64Of3([117, 115, 101], [114, 110, 97], [109, 101, 58], "dXNl", "cm5h", "bWU6");
  }

  lemma UsernameOnlyText() ensures "dXNl" + "cm5h" + "bWU6" == "dXNlcm5hbWU6" {}

  // ":password"

  lemma EmptyUsernameBytes()
    ensures Utf8.Encode("" + ":" + "password") == [58, 112, 97] + [115, 115, 119] + [111, 114, 100]
  {
    ColonPasswordPieces();
    assert "" + ":" + "password" == ":pa" + "ssw" + "ord";
    Utf8Of3(":pa", "ssw", "ord", [58, 112, 97], [115, 115, 119], [111, 114, 100]);
  }

  lemma EmptyUsernameBase64()
    ensures Base64.Encode([58, 112, 97] + [115, 115, 119] + [111, 114, 100]) == "OnBh" + "c3N3" + "b3Jk"
  {
    EncodesColonPa(); EncodesSsw(); EncodesOrd();
    Base64Of3([58, 112, 97], [115, 115, 119], [111, 114, 100], "OnBh", "c3N3", "b3Jk");
  }

  lemma EmptyUsernameText() ensures "OnBh" + "c3N3" + "b3Jk" == "OnBhc3N3b3Jk" {}
}
