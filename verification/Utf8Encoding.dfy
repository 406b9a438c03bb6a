/** Valid UTF-8, by the encoding of code points instead of the decoding of bytes: section 3.9 of the
    Unicode Standard. */
module Utf8Encoding {
  import opened Basics
  import opened ManagedBlock

  /** A Unicode scalar value: a code point that is no surrogate. */
  predicate IsScalar(c: int) { 0 <= c < 0xD800 || 0xE000 <= c <= 0x10FFFF }

  /** The bytes of a scalar value. */
  function Encode(c: int): string
    requires IsScalar(c)
  {
    if c < 0x80 then [c as char]
    else if c < 0x800 then [(0xC0 + c / 64) as char, (0x80 + c % 64) as char]
    else if c < 0x10000 then [(0xE0 + c / 4096) as char, (0x80 + c / 64 % 64) as char, (0x80 + c % 64) as char]
    else
      [(0xF0 + c / 262144) as char, (0x80 + c / 4096 % 64) as char,
       (0x80 + c / 64 % 64) as char, (0x80 + c % 64) as char]
  }

  ghost predicate AllScalars(cs: seq<int>) { forall c :: c in cs ==> IsScalar(c) }

  function EncodeAll(cs: seq<int>): string
    requires AllScalars(cs)
  {
    if cs == [] then [] else Encode(cs[0]) + EncodeAll(cs[1..])
  }

  /** The bytes in front decode to a scalar value, the only one with that encoding. */
  function Decoded(s: string): int
    requires Utf8Length(s) > 0
  {
    var n := Utf8Length(s);
    if n == 1 then s[0] as int
    else if n == 2 then (s[0] as int - 0xC0) * 64 + (s[1] as int - 0x80)
    else if n == 3 then (s[0] as int - 0xE0) * 4096 + (s[1] as int - 0x80) * 64 + (s[2] as int - 0x80)
    else
      (s[0] as int - 0xF0) * 262144 + (s[1] as int - 0x80) * 4096 + (s[2] as int - 0x80) * 64 + (s[3] as int - 0x80)
  }

  lemma Digits(a: int, b: int)
    requires 0 <= b < 64 && 0 <= a
    ensures (a * 64 + b) / 64 == a && (a * 64 + b) % 64 == b
  {
  }

  lemma TwoBytes(s: string)
    requires Utf8Length(s) == 2
    ensures IsScalar(Decoded(s)) && Encode(Decoded(s)) == s[..2]
  {
    Digits(s[0] as int - 0xC0, s[1] as int - 0x80);
  }

  lemma ThreeBytes(s: string)
    requires Utf8Length(s) == 3
    ensures IsScalar(Decoded(s)) && Encode(Decoded(s)) == s[..3]
  {
    var a, b, c := s[0] as int - 0xE0, s[1] as int - 0x80, s[2] as int - 0x80;
    assert Decoded(s) == (a * 64 + b) * 64 + c;
    Digits(a * 64 + b, c);
    Digits(a, b);
    assert Decoded(s) / 4096 == Decoded(s) / 64 / 64;
  }

  lemma FourBytes(s: string)
    requires Utf8Length(s) == 4
    ensures IsScalar(Decoded(s)) && Encode(Decoded(s)) == s[..4]
  {
    var a, b, c, d := s[0] as int - 0xF0, s[1] as int - 0x80, s[2] as int - 0x80, s[3] as int - 0x80;
    assert Decoded(s) == ((a * 64 + b) * 64 + c) * 64 + d;
    Digits((a * 64 + b) * 64 + c, d);
    Digits(a * 64 + b, c);
    Digits(a, b);
    var v := Decoded(s);
    assert v / 4096 == v / 64 / 64 && v / 262144 == v / 64 / 64 / 64;
  }

  /** What is accepted in front is the encoding of a scalar value. */
  lemma FrontIsEncoded(s: string)
    requires Utf8Length(s) > 0
    ensures IsScalar(Decoded(s)) && Encode(Decoded(s)) == s[..Utf8Length(s)]
  {
    var n := Utf8Length(s);
    if n == 1 {
      assert Between(s[0], 0, 0x7F) && s[..1] == [s[0]];
    } else if n == 2 {
      TwoBytes(s);
    } else if n == 3 {
      ThreeBytes(s);
    } else {
      FourBytes(s);
    }
  }

  /** The first byte and the next say how long an encoding is, and that it is no other one. */
  lemma ShortFront(c: int, rest: string)
    requires IsScalar(c) && c < 0x800
    ensures Utf8Length(Encode(c) + rest) == |Encode(c)|
  {
    var s := Encode(c) + rest;
    assert s[0] == Encode(c)[0] && (c >= 0x80 ==> s[1] == Encode(c)[1]);
  }

  lemma ThreeFront(c: int, rest: string)
    requires IsScalar(c) && 0x800 <= c < 0x10000
    ensures Utf8Length(Encode(c) + rest) == 3
  {
    var s := Encode(c) + rest;
    assert s[0] == Encode(c)[0] && s[1] == Encode(c)[1] && s[2] == Encode(c)[2];
    assert Continuation(s, 1) && Continuation(s, 2);
    assert c / 4096 == 0 ==> c / 64 % 64 >= 0x20;
    assert c / 4096 == 13 ==> c / 64 % 64 < 0x20;
  }

  lemma FourFront(c: int, rest: string)
    requires IsScalar(c) && 0x10000 <= c
    ensures Utf8Length(Encode(c) + rest) == 4
  {
    var s := Encode(c) + rest;
    assert s[0] == Encode(c)[0] && s[1] == Encode(c)[1] && s[2] == Encode(c)[2] && s[3] == Encode(c)[3];
    assert Continuation(s, 1) && Continuation(s, 2) && Continuation(s, 3);
    assert c / 262144 == 0 ==> c / 4096 % 64 >= 0x10;
    assert c / 262144 == 4 ==> c / 4096 % 64 < 0x10;
  }

  /** And the encoding of a scalar value is accepted in front of anything. */
  lemma EncodedIsFront(c: int, rest: string)
    requires IsScalar(c)
    ensures Utf8Length(Encode(c) + rest) == |Encode(c)|
  {
    hide Utf8Length;
    if c < 0x800 {
      ShortFront(c, rest);
    } else if c < 0x10000 {
      ThreeFront(c, rest);
    } else {
      FourFront(c, rest);
    }
  }

  /** Valid UTF-8 is exactly the encoding of a sequence of scalar values. */
  lemma {:induction false} Utf8Exactly(s: string)
    ensures Utf8(s) <==> exists cs :: AllScalars(cs) && EncodeAll(cs) == s
  {
    if Utf8(s) {
      var cs := DecodeAll(s);
      assert AllScalars(cs) && EncodeAll(cs) == s;
    }
    if cs :| AllScalars(cs) && EncodeAll(cs) == s {
      EncodedIsUtf8(cs);
    }
  }

  lemma {:induction false} DecodeAll(s: string) returns (cs: seq<int>)
    requires Utf8(s)
    ensures AllScalars(cs) && EncodeAll(cs) == s
    decreases |s|
  {
    cs := [];
    if s != [] {
      var n := Utf8Length(s);
      FrontIsEncoded(s);
      hide Encode, Utf8Length, Decoded;
      var rest := DecodeAll(s[n..]);
      cs := [Decoded(s)] + rest;
      assert cs[1..] == rest && s == s[..n] + s[n..];
    }
  }

  lemma {:induction false} EncodedIsUtf8(cs: seq<int>)
    requires AllScalars(cs)
    ensures Utf8(EncodeAll(cs))
  {
    if cs != [] {
      var rest := EncodeAll(cs[1..]);
      EncodedIsUtf8(cs[1..]);
      EncodedIsFront(cs[0], rest);
      assert |Encode(cs[0])| > 0;
      hide Encode, Utf8Length;
      assert (Encode(cs[0]) + rest)[|Encode(cs[0])|..] == rest;
    }
  }

  /** The byte order mark, encoded. */
  predicate BomAt(s: string, k: int) { 0 <= k <= |s| - 3 && s[k..k + 3] == Encode(0xFEFF) }

  /** The document's bytes are refused for the first of these reasons that applies. */
  lemma ValidExactly(s: string)
    ensures Validate(s) ==
      if |s| > 1048576 then Some(TooLarge)
      else if (exists k :: BomAt(s, k))
        || !(exists cs :: AllScalars(cs) && EncodeAll(cs) == s) then Some(InvalidEncoding)
      else if exists c :: c in s && (c as int < 32 || c as int == 127) && c != '\n' && c != '\t' then
        Some(InvalidControl)
      else None
  {
    Utf8Exactly(s);
    BomExactly(s);
    hide Utf8, HasBom, EncodeAll, Encode;
  }

  lemma BomExactly(s: string)
    ensures HasBom(s) <==> exists k :: BomAt(s, k)
  {
    var bom := Encode(0xFEFF);
    assert bom == [0xEF as char, 0xBB as char, 0xBF as char];
    if k :| 0 <= k <= |s| - 3 && s[k] as int == 0xEF && s[k + 1] as int == 0xBB && s[k + 2] as int == 0xBF {
      assert s[k..k + 3] == bom;
      assert BomAt(s, k);
    }
    if k :| BomAt(s, k) {
      assert s[k] == s[k..k + 3][0] && s[k + 1] == s[k..k + 3][1] && s[k + 2] == s[k..k + 3][2];
    }
  }
}
