/** JSON string escaping, and a reader for the strings of RFC 8259, section 7, that it must satisfy. */
module JsonString {
  import opened Bytes

  const QUOTE: byte := 0x22
  const BACKSLASH: byte := 0x5c

  function HexDigit(n: int): byte
    requires 0 <= n < 16
  {
    if n < 10 then 0x30 + n else 0x61 + n - 10
  }

  /** How one byte is written. */
  function EscapeByte(c: byte): seq<byte>
  {
    if c == QUOTE then [BACKSLASH, QUOTE]
    else if c == BACKSLASH then [BACKSLASH, BACKSLASH]
    else if c == 0x08 then [BACKSLASH, 0x62]
    else if c == 0x0c then [BACKSLASH, 0x66]
    else if c == 0x0a then [BACKSLASH, 0x6e]
    else if c == 0x0d then [BACKSLASH, 0x72]
    else if c == 0x09 then [BACKSLASH, 0x74]
    else if c < 0x20 then [BACKSLASH, 0x75, 0x30, 0x30, HexDigit(c / 16), HexDigit(c % 16)]
    else [c]
  }

  function Escape(value: seq<byte>): seq<byte>
  {
    if value == [] then [] else Escape(value[..|value| - 1]) + EscapeByte(value[|value| - 1])
  }

  method JsonEscape(value: seq<byte>) returns (escaped: seq<byte>)
    ensures escaped == Escape(value)
  {
    escaped := [];
    for i := 0 to |value|
      invariant escaped == Escape(value[..i])
    {
      var c := value[i];
      assert value[..i + 1][..i] == value[..i];
      if c == 0x22 {
        escaped := escaped + [BACKSLASH, QUOTE];
      } else if c == 0x5c {
        escaped := escaped + [BACKSLASH, BACKSLASH];
      } else if c == 0x08 {
        escaped := escaped + [BACKSLASH, 0x62];
      } else if c == 0x0c {
        escaped := escaped + [BACKSLASH, 0x66];
      } else if c == 0x0a {
        escaped := escaped + [BACKSLASH, 0x6e];
      } else if c == 0x0d {
        escaped := escaped + [BACKSLASH, 0x72];
      } else if c == 0x09 {
        escaped := escaped + [BACKSLASH, 0x74];
      } else if c < 0x20 {
        escaped := escaped + [BACKSLASH, 0x75, 0x30, 0x30] + [HexDigit(c / 16 % 16), HexDigit(c % 16)];
      } else {
        escaped := escaped + [c];
      }
    }
    assert value[..|value|] == value;
  }

  // ----- The reader

  function HexValue(c: byte): Option<int>
  {
    if 0x30 <= c <= 0x39 then Some(c - 0x30)
    else if 0x61 <= c <= 0x66 then Some(c - 0x61 + 10)
    else if 0x41 <= c <= 0x46 then Some(c - 0x41 + 10)
    else None
  }

  /** The four hexadecimal digits of a \u escape. */
  function CodeUnit(s: seq<byte>): (r: Option<int>)
    ensures r.Some? ==> |s| >= 4 && 0 <= r.value < 0x1_0000
  {
    if |s| < 4 then None
    else
      match (HexValue(s[0]), HexValue(s[1]), HexValue(s[2]), HexValue(s[3]))
      case (Some(a), Some(b), Some(c), Some(d)) =>
        assert 0 <= a < 16 && 0 <= b < 16 && 0 <= c < 16 && 0 <= d < 16;
        Some(((a * 16 + b) * 16 + c) * 16 + d)
      case _ => None
  }

  function Utf8(code: int): seq<byte>
    requires 0 <= code < 0x11_0000
  {
    if code < 0x80 then [code]
    else if code < 0x800 then [0xc0 + code / 0x40, 0x80 + code % 0x40]
    else if code < 0x1_0000 then [0xe0 + code / 0x1000, 0x80 + code / 0x40 % 0x40, 0x80 + code % 0x40]
    else [0xf0 + code / 0x4_0000, 0x80 + code / 0x1000 % 0x40, 0x80 + code / 0x40 % 0x40, 0x80 + code % 0x40]
  }

  /** The bytes a \u escape stands for, and how many bytes it takes after the u; surrogates come in pairs. */
  function UnicodeEscape(s: seq<byte>): (r: Option<(seq<byte>, nat)>)
    ensures r.Some? ==> r.value.1 <= |s|
  {
    match CodeUnit(s)
    case None => None
    case Some(high) =>
      if !(0xd800 <= high < 0xe000) then Some((Utf8(high), 4))
      else if high >= 0xdc00 || |s| < 10 || s[4] != BACKSLASH || s[5] != 0x75 then None
      else
        match CodeUnit(s[6..])
        case Some(low) =>
          if 0xdc00 <= low < 0xe000
          then Some((Utf8(0x1_0000 + (high - 0xd800) * 0x400 + (low - 0xdc00)), 10))
          else None
        case None => None
  }

  /** The byte a two-character escape stands for. */
  function ShortEscape(c: byte): Option<byte>
  {
    if c == QUOTE || c == BACKSLASH || c == 0x2f then Some(c)
    else if c == 0x62 then Some(0x08)
    else if c == 0x66 then Some(0x0c)
    else if c == 0x6e then Some(0x0a)
    else if c == 0x72 then Some(0x0d)
    else if c == 0x74 then Some(0x09)
    else None
  }

  /** One character: the bytes it stands for, and the bytes it takes. */
  function ReadCharacter(s: seq<byte>): (r: Option<(seq<byte>, nat)>)
    requires s != []
    ensures r.Some? ==> 0 < r.value.1 <= |s|
  {
    if s[0] < 0x20 || s[0] == QUOTE then None
    else if s[0] != BACKSLASH then Some(([s[0]], 1))
    else if |s| < 2 then None
    else if s[1] == 0x75 then
      match UnicodeEscape(s[2..])
      case Some((bytes, n)) => Some((bytes, n + 2))
      case None => None
    else
      match ShortEscape(s[1])
      case Some(b) => Some(([b], 2))
      case None => None
  }

  /** From after the opening quote: the string's value, and what follows its closing quote. */
  function ReadRest(s: seq<byte>): Option<(seq<byte>, seq<byte>)>
    decreases |s|
  {
    if s == [] then None
    else if s[0] == QUOTE then Some(([], s[1..]))
    else
      match ReadCharacter(s)
      case None => None
      case Some((bytes, n)) =>
        match ReadRest(s[n..])
        case Some((value, rest)) => Some((bytes + value, rest))
        case None => None
  }

  function ReadString(s: seq<byte>): Option<(seq<byte>, seq<byte>)>
  {
    if s == [] || s[0] != QUOTE then None else ReadRest(s[1..])
  }

  // ----- The reader inverts the escaper

  lemma ReadEscapedByte(c: byte, later: seq<byte>)
    ensures EscapeByte(c) != [] && EscapeByte(c)[0] != QUOTE
    ensures ReadCharacter(EscapeByte(c) + later) == Some(([c], |EscapeByte(c)|))
  {
    var s := EscapeByte(c) + later;
    if c < 0x20 && c != 0x08 && c != 0x0c && c != 0x0a && c != 0x0d && c != 0x09 {
      var digits := s[2..];
      assert digits[0] == 0x30 && digits[1] == 0x30;
      assert digits[2] == HexDigit(c / 16) && digits[3] == HexDigit(c % 16);
      HexDigitValue(c / 16);
      HexDigitValue(c % 16);
      assert c == c / 16 * 16 + c % 16;
      assert CodeUnit(digits) == Some(c);
    }
  }

  lemma HexDigitValue(n: int)
    requires 0 <= n < 16
    ensures HexValue(HexDigit(n)) == Some(n)
  {
  }

  lemma {:induction false} ReadEscaped(value: seq<byte>, tail: seq<byte>)
    requires ReadRest(tail).Some?
    ensures ReadRest(Escape(value) + tail)
            == Some((value + ReadRest(tail).value.0, ReadRest(tail).value.1))
    decreases |value|
  {
    hide ReadRest, Escape, EscapeByte;
    if value == [] {
      EscapeNothing(tail);
      assert value + ReadRest(tail).value.0 == ReadRest(tail).value.0;
    } else {
      var front, c := value[..|value| - 1], value[|value| - 1];
      assert value == front + [c];
      ReadOneMore(c, tail);
      ReadEscaped(front, EscapeByte(c) + tail);
      EscapeLast(front, c, tail);
      Regroup(front, [c], ReadRest(tail).value.0);
    }
  }

  lemma EscapeNothing(tail: seq<byte>)
    ensures Escape([]) + tail == tail
  {
  }

  lemma EscapeLast(front: seq<byte>, c: byte, tail: seq<byte>)
    ensures Escape(front + [c]) + tail == Escape(front) + (EscapeByte(c) + tail)
  {
    hide EscapeByte;
    assert (front + [c])[..|front|] == front;
  }

  /** One more escaped byte in front is one more byte read. */
  lemma ReadOneMore(c: byte, tail: seq<byte>)
    requires ReadRest(tail).Some?
    ensures ReadRest(EscapeByte(c) + tail) == Some(([c] + ReadRest(tail).value.0, ReadRest(tail).value.1))
  {
    hide ReadCharacter, EscapeByte;
    var s := EscapeByte(c) + tail;
    ReadEscapedByte(c, tail);
    assert s[|EscapeByte(c)|..] == tail;
  }

  /** Every byte string survives: the closing quote is never confused, and what follows is untouched. */
  lemma EscapeRoundTrip(value: seq<byte>, rest: seq<byte>)
    ensures ReadString([QUOTE] + Escape(value) + [QUOTE] + rest) == Some((value, rest))
  {
    hide ReadRest, Escape;
    var tail := [QUOTE] + rest;
    ReadClosingQuote(rest);
    ReadEscaped(value, tail);
    assert value + [] == value;
    Peel(QUOTE, Escape(value), [QUOTE], rest);
  }

  lemma ReadClosingQuote(rest: seq<byte>)
    ensures ReadRest([QUOTE] + rest) == Some(([], rest))
  {
    assert ([QUOTE] + rest)[1..] == rest;
  }

  lemma Peel<T>(head: T, a: seq<T>, b: seq<T>, c: seq<T>)
    ensures var s := [head] + a + b + c;
            s != [] && s[0] == head && s[1..] == a + (b + c)
  {
  }

  predicate AllPlain(value: seq<byte>)
  {
    forall i :: 0 <= i < |value| ==> value[i] >= 0x20 && value[i] != 0x22 && value[i] != 0x5c
  }

  lemma PlainParts(value: seq<byte>)
    requires value != [] && AllPlain(value)
    ensures AllPlain(value[..|value| - 1]) && EscapeByte(value[|value| - 1]) == [value[|value| - 1]]
    ensures value == value[..|value| - 1] + [value[|value| - 1]]
  {
  }

  /** What needs no escape is left as it is. */
  lemma {:induction false} PlainIsKept(value: seq<byte>)
    requires AllPlain(value)
    ensures Escape(value) == value
    decreases |value|
  {
    hide AllPlain, EscapeByte;
    if value == [] {
    } else {
      PlainParts(value);
      PlainIsKept(value[..|value| - 1]);
    }
  }

  /** No other way of writing a byte that the reader takes is shorter. */
  lemma EscapeIsShortest(c: byte, s: seq<byte>)
    requires s != [] && ReadCharacter(s).Some? && ReadCharacter(s).value.0 == [c]
    ensures |EscapeByte(c)| <= ReadCharacter(s).value.1
  {
    hide UnicodeEscape;
    if s[0] == BACKSLASH && |s| >= 2 && s[1] == 0x75 {
      UnicodeIsLong(s[2..]);
    }
  }

  lemma UnicodeIsLong(s: seq<byte>)
    requires UnicodeEscape(s).Some?
    ensures UnicodeEscape(s).value.1 >= 4
  {
    hide CodeUnit;
  }

  /** The digits are the lower-case ones. */
  lemma DigitsAreLowerCase(n: int)
    requires 0 <= n < 16
    ensures HexDigit(n) as char == "0123456789abcdef"[n]
  {
  }

  /** Nothing an escaped string contains could end it or is a control character. */
  lemma {:induction false} EscapedIsClean(value: seq<byte>)
    ensures forall c :: c in Escape(value) ==> c >= 0x20
    decreases |value|
  {
    hide EscapeByte;
    if value == [] {
    } else {
      EscapedByteIsClean(value[|value| - 1]);
      EscapedIsClean(value[..|value| - 1]);
    }
  }

  lemma EscapedByteIsClean(c: byte)
    ensures forall x :: x in EscapeByte(c) ==> x >= 0x20
  {
  }

  lemma EscapeIsInjective(a: seq<byte>, b: seq<byte>)
    requires Escape(a) == Escape(b)
    ensures a == b
  {
    EscapeRoundTrip(a, []);
    EscapeRoundTrip(b, []);
  }
}
