// Percent encoding and its inverse.
module PercentText {
  import opened Options
  import opened JsonText

  // Texts are sequences of bytes.
  predicate AllBytes(s: string) {
    forall i :: 0 <= i < |s| ==> s[i] < '\U{100}'
  }

  predicate Unreserved(c: char) {
    || 'A' <= c <= 'Z' || 'a' <= c <= 'z' || '0' <= c <= '9'
    || c in "-_.!~*'()"
  }

  function UpperHex(n: int): char
    requires 0 <= n < 16
  {
    "0123456789ABCDEF"[n]
  }

  function EncodeByte(c: char): string
    requires c < '\U{100}'
  {
    if Unreserved(c) then [c] else ['%', UpperHex(c as int / 16), UpperHex(c as int % 16)]
  }

  function Encode(s: string): string
    requires AllBytes(s)
  {
    if s == "" then "" else Encode(s[..|s| - 1]) + EncodeByte(s[|s| - 1])
  }

  method PercentEncodeComponent(value: string) returns (encoded: string)
    requires AllBytes(value)
    ensures encoded == Encode(value)
  {
    hide EncodeByte;
    encoded := "";
    var i := 0;
    while i < |value|
      invariant 0 <= i <= |value| && encoded == Encode(value[..i])
    {
      var character := value[i];
      assert value[..i + 1][..i] == value[..i];
      ByteShown(character);
      if Unreserved(character) {
        encoded := encoded + [character];
      } else {
        encoded := encoded + ['%', UpperHex(character as int / 16), UpperHex(character as int % 16)];
      }
      i := i + 1;
    }
    assert value[..i] == value;
  }

  lemma ByteShown(c: char)
    requires c < '\U{100}'
    ensures EncodeByte(c) == if Unreserved(c) then [c] else ['%', UpperHex(c as int / 16), UpperHex(c as int % 16)]
  {}

  // The decoded text; None for an incomplete or wrong escape and for one of a zero byte.
  function Decoded(s: string): Option<string> {
    if s == "" then Some("")
    else if s[0] != '%' then Before([s[0]], Decoded(s[1..]))
    else if |s| < 3 || HexValue(s[1]) < 0 || HexValue(s[2]) < 0 || HexValue(s[1]) * 16 + HexValue(s[2]) == 0 then None
    else Before([(HexValue(s[1]) * 16 + HexValue(s[2])) as char], Decoded(s[3..]))
  }

  function Before(a: string, rest: Option<string>): Option<string> {
    if rest.None? then None else Some(a + rest.value)
  }

  method PercentDecode(value: string) returns (decoded: Option<string>)
    ensures decoded == Decoded(value)
  {
    hide HexValue;
    var text := "";
    var i := 0;
    assert value[0..] == value;
    BeforeEnds("", Decoded(value));
    while i < |value|
      invariant 0 <= i <= |value| && Decoded(value) == Before(text, Decoded(value[i..]))
    {
      var rest := value[i..];
      assert rest[1..] == value[i + 1..];
      if value[i] != '%' {
        BeforeTwice(text, [value[i]], Decoded(value[i + 1..]));
        text := text + [value[i]];
        i := i + 1;
        continue;
      }
      if i + 2 >= |value| {
        return None;
      }
      var high, low := HexValue(value[i + 1]), HexValue(value[i + 2]);
      if high < 0 || low < 0 {
        return None;
      }
      HexSmall(value[i + 1]);
      HexSmall(value[i + 2]);
      var decodedChar := (high * 16 + low) as char;
      if decodedChar == '\0' {
        return None;
      }
      assert rest[3..] == value[i + 3..];
      BeforeTwice(text, [decodedChar], Decoded(value[i + 3..]));
      text := text + [decodedChar];
      i := i + 3;
    }
    assert value[i..] == "";
    BeforeEnds(text, Some(""));
    return Some(text);
  }

  lemma BeforeEnds(a: string, rest: Option<string>)
    ensures Before("", rest) == rest && Before(a, Some("")) == Some(a)
  {
    if rest.Some? { assert "" + rest.value == rest.value; }
    assert a + "" == a;
  }

  lemma HexSmall(c: char)
    ensures HexValue(c) < 16
  {}

  lemma BeforeTwice(a: string, b: string, rest: Option<string>)
    ensures Before(a, Before(b, rest)) == Before(a + b, rest)
  {
    if rest.Some? { assert a + (b + rest.value) == a + b + rest.value; }
  }

  // ---- round trip ----

  lemma UpperHexValue(n: int)
    requires 0 <= n < 16
    ensures HexValue(UpperHex(n)) == n && UpperHex(n) !in ",|"
  {}

  lemma {:induction false} EncodeFront(s: string)
    requires AllBytes(s) && s != ""
    ensures Encode(s) == EncodeByte(s[0]) + Encode(s[1..])
    decreases |s|
  {
    hide EncodeByte;
    var n := |s| - 1;
    if n > 0 {
      EncodeFront(s[..n]);
      assert s[..n][1..] == s[1..][..n - 1];
    } else {
      assert s[..0] == "" && s[1..] == "";
    }
  }

  lemma DecodeByte(c: char, rest: string)
    requires c < '\U{100}'
    ensures Decoded(EncodeByte(c) + rest) == if c == '\0' then None else Before([c], Decoded(rest))
  {
    hide HexValue, UpperHex;
    var s := EncodeByte(c) + rest;
    if Unreserved(c) {
      assert s[1..] == rest;
    } else {
      UpperHexValue(c as int / 16);
      UpperHexValue(c as int % 16);
      assert s[3..] == rest;
    }
  }

  // Decoding undoes encoding exactly for the texts without a zero byte.
  lemma {:induction false} DecodeEncode(s: string)
    requires AllBytes(s)
    ensures Decoded(Encode(s)) == if '\0' in s then None else Some(s)
    decreases |s|
  {
    hide EncodeByte, Decoded, Encode;
    if s == "" {
      NothingDecoded();
    } else {
      EncodeFront(s);
      DecodeEncode(s[1..]);
      DecodeByte(s[0], Encode(s[1..]));
      assert s == [s[0]] + s[1..];
    }
  }

  lemma NothingDecoded()
    ensures Encode("") == "" && Decoded("") == Some("")
  {}

  // Encoded texts have no separators.
  lemma {:induction false} EncodedPlain(s: string)
    requires AllBytes(s)
    ensures forall i :: 0 <= i < |Encode(s)| ==> Encode(s)[i] !in ",|"
  {
    hide UpperHex;
    if s != "" {
      var n := |s| - 1;
      EncodedPlain(s[..n]);
      UpperHexValue(s[n] as int / 16);
      UpperHexValue(s[n] as int % 16);
    }
  }
}
