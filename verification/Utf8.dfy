/**
 Well-formed UTF-8, as `core::str::from_utf8` accepts it (table 3-7 of the Unicode Standard).
 */
module Utf8 {

  import opened Arithmetic
  import opened Common

  predicate Tail(b: byte) { 0x80 <= b <= 0xBF }

  /** Length of the character that starts the bytes; 0 if they start with none. */
  function CharLength(s: seq<byte>): (n: nat)
    ensures n <= |s| && n <= 4
  {
    if s == [] then 0
    else if s[0] <= 0x7F then 1
    else if |s| < 2 then 0
    else if 0xC2 <= s[0] <= 0xDF then (if Tail(s[1]) then 2 else 0)
    else if |s| < 3 then 0
    else if 0xE0 <= s[0] <= 0xEF then
      if Second3(s[0], s[1]) && Tail(s[2]) then 3 else 0
    else if |s| < 4 then 0
    else if 0xF0 <= s[0] <= 0xF4 then
      if Second4(s[0], s[1]) && Tail(s[2]) && Tail(s[3]) then 4 else 0
    else 0
  }

  predicate Second3(b0: byte, b1: byte) {
    if b0 == 0xE0 then 0xA0 <= b1 <= 0xBF else if b0 == 0xED then 0x80 <= b1 <= 0x9F else Tail(b1)
  }

  predicate Second4(b0: byte, b1: byte) {
    if b0 == 0xF0 then 0x90 <= b1 <= 0xBF else if b0 == 0xF4 then 0x80 <= b1 <= 0x8F else Tail(b1)
  }

  predicate Valid(s: seq<byte>)
    decreases |s|
  {
    s == [] || (CharLength(s) > 0 && Valid(s[CharLength(s)..]))
  }

  lemma CharLengthExtends(a: seq<byte>, b: seq<byte>)
    requires CharLength(a) > 0
    ensures CharLength(a + b) == CharLength(a)
  {
  }

  /** After valid text, what follows decides. */
  lemma {:induction false} ValidConcat(a: seq<byte>, b: seq<byte>)
    requires Valid(a)
    ensures Valid(a + b) <==> Valid(b)
    decreases |a|
  {
    if a == [] {
      assert a + b == b;
    } else {
      CharLengthExtends(a, b);
      var n := CharLength(a);
      hide CharLength;
      assert (a + b)[n..] == a[n..] + b;
      ValidConcat(a[n..], b);
    }
  }
  // ---------------------------------------------------------------- scalar values

  predicate Scalar(c: int) { 0 <= c <= 0x10FFFF && !(0xD800 <= c <= 0xDFFF) }

  /** The encoding form of a scalar value (definition D92 of the Unicode Standard). */
  function Encode(c: int): seq<byte>
    requires Scalar(c)
  {
    if c < 0x80 then [c]
    else if c < 0x800 then [0xC0 + c / 64, 0x80 + c % 64]
    else if c < 0x1_0000 then [0xE0 + c / 4096, 0x80 + c / 64 % 64, 0x80 + c % 64]
    else [0xF0 + c / 0x4_0000, 0x80 + c / 4096 % 64, 0x80 + c / 64 % 64, 0x80 + c % 64]
  }

  lemma EncodedIsChar(c: int, rest: seq<byte>)
    requires Scalar(c)
    ensures CharLength(Encode(c) + rest) == |Encode(c)| > 0
  {
    EncodedLength(c);
    hide CharLength, Encode;
    CharLengthExtends(Encode(c), rest);
  }

  lemma ThreeBytes(a: int, b: int, d: int)
    requires 0 <= a < 16 && 0 <= b < 64 && 0 <= d < 64 && Scalar(a * 4096 + b * 64 + d) && a * 64 + b >= 32
    ensures CharLength([0xE0 + a, 0x80 + b, 0x80 + d]) == 3
  {
  }

  lemma FourBytes(a: int, b: int, d: int, e: int)
    requires 0 <= a && 0 <= b < 64 && 0 <= d < 64 && 0 <= e < 64 && 16 <= a * 64 + b < 272
    ensures a <= 4 && CharLength([0xF0 + a, 0x80 + b, 0x80 + d, 0x80 + e]) == 4
  {
  }

  lemma EncodedLength(c: int)
    requires Scalar(c)
    ensures CharLength(Encode(c)) == |Encode(c)| > 0
  {
    if 0x800 <= c < 0x1_0000 {
      hide CharLength;
      assert c == c / 4096 * 4096 + c / 64 % 64 * 64 + c % 64;
      ThreeBytes(c / 4096, c / 64 % 64, c % 64);
    } else if 0x1_0000 <= c {
      hide CharLength;
      assert c / 4096 == c / 0x4_0000 * 64 + c / 4096 % 64;
      FourBytes(c / 0x4_0000, c / 4096 % 64, c / 64 % 64, c % 64);
    }
  }

  /** Six bits of a byte behind the first. */
  function Low(b: byte): int { b - 0x80 }

  /** The scalar value of the character that starts the bytes. */
  function Decode(s: seq<byte>): int
    requires CharLength(s) > 0
  {
    match CharLength(s)
    case 1 => s[0]
    case 2 => (s[0] - 0xC0) * 64 + Low(s[1])
    case 3 => (s[0] - 0xE0) * 4096 + Low(s[1]) * 64 + Low(s[2])
    case _ => (s[0] - 0xF0) * 0x4_0000 + Low(s[1]) * 4096 + Low(s[2]) * 64 + Low(s[3])
  }

  lemma Digits(a: int, b: int, c: int)
    requires 0 <= b < 64 && 0 <= c < 64
    ensures var x := a * 4096 + b * 64 + c; x / 4096 == a && x / 64 == a * 64 + b && x / 64 % 64 == b && x % 64 == c
  {
    var x := a * 4096 + b * 64 + c;
    QuotientRemainder(x, 64, a * 64 + b, c);
    QuotientRemainder(a * 64 + b, 64, a, b);
    QuotientRemainder(x, 4096, a, b * 64 + c);
  }

  lemma CharOfTwo(s: seq<byte>)
    requires CharLength(s) == 2
    ensures Scalar(Decode(s)) && Encode(Decode(s)) == s[..2]
  {
    Digits(0, s[0] - 0xC0, Low(s[1]));
  }

  lemma CharOfThree(s: seq<byte>)
    requires CharLength(s) == 3
    ensures Scalar(Decode(s)) && Encode(Decode(s)) == s[..3]
  {
    Digits(s[0] - 0xE0, Low(s[1]), Low(s[2]));
  }

  lemma CharOfFour(s: seq<byte>)
    requires CharLength(s) == 4
    ensures Scalar(Decode(s)) && Encode(Decode(s)) == s[..4]
  {
    var a, x := (s[0] - 0xF0) * 64 + Low(s[1]), Decode(s);
    Digits(a, Low(s[2]), Low(s[3]));
    assert x == a * 4096 + Low(s[2]) * 64 + Low(s[3]);
    QuotientRemainder(a, 64, s[0] - 0xF0, Low(s[1]));
    QuotientRemainder(x, 0x4_0000, s[0] - 0xF0, Low(s[1]) * 4096 + Low(s[2]) * 64 + Low(s[3]));
  }

  lemma CharIsEncoded(s: seq<byte>)
    requires CharLength(s) > 0
    ensures Scalar(Decode(s)) && Encode(Decode(s)) == s[..CharLength(s)]
  {
    if CharLength(s) == 1 {
      assert s[0] <= 0x7F;
    } else {
      hide CharLength, Decode, Encode;
      match CharLength(s)
      case 2 => CharOfTwo(s);
      case 3 => CharOfThree(s);
      case _ => CharOfFour(s);
    }
  }

  predicate AllScalar(text: seq<int>) { forall i | 0 <= i < |text| :: Scalar(text[i]) }

  function EncodeText(text: seq<int>): seq<byte>
    requires AllScalar(text)
  {
    if text == [] then [] else Encode(text[0]) + EncodeText(text[1..])
  }

  lemma {:induction false} EncodedIsValid(text: seq<int>)
    requires AllScalar(text)
    ensures Valid(EncodeText(text))
  {
    hide CharLength, Encode;
    if text != [] {
      EncodedIsValid(text[1..]);
      EncodedIsChar(text[0], EncodeText(text[1..]));
      var s := EncodeText(text);
      assert s[|Encode(text[0])|..] == EncodeText(text[1..]);
    }
  }

  lemma {:induction false} ValidIsEncoded(s: seq<byte>) returns (text: seq<int>)
    requires Valid(s)
    ensures AllScalar(text) && EncodeText(text) == s
    decreases |s|
  {
    hide CharLength, Encode, Decode, Scalar;
    if s == [] {
      text := [];
    } else {
      CharIsEncoded(s);
      var n := CharLength(s);
      var more := ValidIsEncoded(s[n..]);
      text := [Decode(s)] + more;
      assert text[1..] == more;
      assert s == s[..n] + s[n..];
    }
  }

  /** Valid text is the encoding of a sequence of scalar values, and nothing else. */
  lemma ValidIff(s: seq<byte>)
    ensures Valid(s) <==> exists text | AllScalar(text) :: EncodeText(text) == s
  {
    hide Valid, EncodeText;
    if Valid(s) { var text := ValidIsEncoded(s); }
    forall text | AllScalar(text) ensures Valid(EncodeText(text)) { EncodedIsValid(text); }
  }
}
