// JSON strings as sequences of units, the printer of strings, and the reader of the snapshot service.
module JsonText {
  import opened Options

  // A plain character, a two-character escape, or \u with four hexadecimal digits.
  datatype Unit = Raw(c: char) | Short(e: char) | Code(digits: string)

  function HexValue(c: char): int {
    if '0' <= c <= '9' then (c - '0') as int
    else if 'a' <= c <= 'f' then (c - 'a') as int + 10
    else if 'A' <= c <= 'F' then (c - 'A') as int + 10
    else -1
  }

  predicate IsHex(c: char) {
    HexValue(c) >= 0
  }

  function HexNumber(digits: string): int {
    if digits == "" then 0 else HexNumber(digits[..|digits| - 1]) * 16 + HexValue(digits[|digits| - 1])
  }

  const SHORT: string := "\"\\/bfnrt"

  predicate UnitOk(u: Unit) {
    match u
    case Raw(c) => c != '\"' && c != '\\'
    case Short(e) => e in SHORT
    case Code(digits) => |digits| == 4 && forall i :: 0 <= i < 4 ==> IsHex(digits[i])
  }

  function UnitText(u: Unit): string {
    match u
    case Raw(c) => [c]
    case Short(e) => ['\\', e]
    case Code(digits) => "\\u" + digits
  }

  function ShortValue(e: char): char {
    if e == 'b' then '\U{8}' else if e == 'f' then '\U{c}' else if e == 'n' then '\n' else if e == 'r' then '\r'
    else if e == 't' then '\t' else e
  }

  // The snapshot service reads \u escapes of ASCII characters only.
  predicate Readable(u: Unit) {
    UnitOk(u) && (u.Code? ==> 0 <= HexNumber(u.digits) <= 0x7f)
  }

  function UnitValue(u: Unit): char
    requires Readable(u)
  {
    match u
    case Raw(c) => c
    case Short(e) => ShortValue(e)
    case Code(digits) => HexNumber(digits) as char
  }

  function Text(us: seq<Unit>): string {
    if us == [] then "" else UnitText(us[0]) + Text(us[1..])
  }

  predicate AllOk(us: seq<Unit>) {
    forall i :: 0 <= i < |us| ==> UnitOk(us[i])
  }

  predicate AllReadable(us: seq<Unit>) {
    forall i :: 0 <= i < |us| ==> Readable(us[i])
  }

  function Meaning(us: seq<Unit>): string
    requires AllReadable(us)
  {
    if us == [] then "" else [UnitValue(us[0])] + Meaning(us[1..])
  }

  // From position at, the text is that of the units and then a quote.
  predicate Starts(text: string, at: nat, us: seq<Unit>) {
    AllOk(us) && at + |Text(us)| < |text| && text[at..at + |Text(us)|] == Text(us) && text[at + |Text(us)|] == '\"'
  }

  // A quoted string at the cursor.
  predicate Quoted(text: string, cursor: nat, us: seq<Unit>) {
    cursor < |text| && text[cursor] == '\"' && Starts(text, cursor + 1, us)
  }

  // ---- units can be told apart by their first characters ----

  lemma UnitAt(text: string, at: nat, us: seq<Unit>)
    requires Starts(text, at, us) && us != []
    ensures at + |UnitText(us[0])| < |text| && text[at..at + |UnitText(us[0])|] == UnitText(us[0])
    ensures Starts(text, at + |UnitText(us[0])|, us[1..])
  {
    hide UnitText, UnitOk;
    var n := |UnitText(us[0])|;
    var whole := text[at..at + |Text(us)|];
    assert whole[..n] == UnitText(us[0]) && whole[n..] == Text(us[1..]);
    assert whole[..n] == text[at..at + n] && whole[n..] == text[at + n..at + |Text(us)|];
  }

  // What the first unit, if any, must be.
  lemma FirstUnit(text: string, at: nat, us: seq<Unit>)
    requires Starts(text, at, us)
    ensures text[at] == '\"' <==> us == []
    ensures us != [] ==>
      var u := us[0];
      && (text[at] != '\\' ==> u == Raw(text[at]))
      && (text[at] == '\\' ==> !u.Raw? && at + 1 < |text|)
      && (text[at] == '\\' && text[at + 1] != 'u' ==> u == Short(text[at + 1]))
      && (text[at] == '\\' && text[at + 1] == 'u' ==> at + 6 <= |text| && u == Code(text[at + 2..at + 6]))
  {
    if us != [] {
      UnitAt(text, at, us);
      FirstText(text, at, us[0]);
    }
  }

  lemma FirstText(text: string, at: nat, u: Unit)
    requires UnitOk(u) && at + |UnitText(u)| < |text| && text[at..at + |UnitText(u)|] == UnitText(u)
    ensures text[at] != '\"' && (text[at] != '\\' ==> u == Raw(text[at]))
    ensures text[at] == '\\' ==> !u.Raw? && at + 1 < |text|
    ensures text[at] == '\\' && text[at + 1] != 'u' ==> u == Short(text[at + 1])
    ensures text[at] == '\\' && text[at + 1] == 'u' ==> at + 6 <= |text| && u == Code(text[at + 2..at + 6])
  {
    hide HexValue, HexNumber;
    var t := UnitText(u);
    assert text[at..at + |t|][0] == text[at];
    match u {
      case Raw(c) =>
      case Short(e) => assert text[at..at + |t|][1] == text[at + 1];
      case Code(digits) =>
        assert text[at..at + |t|][1] == text[at + 1];
        assert t[2..] == digits && text[at..at + 6][2..] == text[at + 2..at + 6];
    }
  }

  // ---- the reader ----

  // Every way to read the string from start begins with the units read so far.
  ghost predicate Forced(text: string, start: nat, us: seq<Unit>, cursor: nat) {
    forall vs :: Starts(text, start, vs) ==> |us| <= |vs| && us == vs[..|us|] && Starts(text, cursor, vs[|us|..])
  }

  lemma ForcedStep(text: string, start: nat, us: seq<Unit>, cursor: nat, u: Unit)
    requires Forced(text, start, us, cursor) && cursor + |UnitText(u)| <= |text|
    requires forall vs :: Starts(text, cursor, vs) ==> vs != [] && vs[0] == u
    ensures Forced(text, start, us + [u], cursor + |UnitText(u)|)
  {
    hide Starts, UnitText;
    var n := |us|;
    forall vs | Starts(text, start, vs)
      ensures n + 1 <= |vs| && us + [u] == vs[..n + 1] && Starts(text, cursor + |UnitText(u)|, vs[n + 1..])
    {
      var rest := vs[n..];
      assert rest != [] && rest[0] == u;
      UnitAt(text, cursor, rest);
      assert rest[1..] == vs[n + 1..] && vs[..n + 1] == vs[..n] + [u];
    }
  }

  lemma TextAppend(us: seq<Unit>, u: Unit)
    ensures Text(us + [u]) == Text(us) + UnitText(u)
  {
    hide UnitText;
    if us == [] {
      assert [u][1..] == [];
    } else {
      TextAppend(us[1..], u);
      assert (us + [u])[1..] == us[1..] + [u];
      assert UnitText(us[0]) + (Text(us[1..]) + UnitText(u)) == UnitText(us[0]) + Text(us[1..]) + UnitText(u);
    }
  }

  lemma MeaningAppend(us: seq<Unit>, u: Unit)
    requires AllReadable(us) && Readable(u)
    ensures AllReadable(us + [u]) && Meaning(us + [u]) == Meaning(us) + [UnitValue(u)]
  {
    hide Readable, UnitValue;
    if us == [] {
      assert [u][1..] == [];
    } else {
      MeaningAppend(us[1..], u);
      assert (us + [u])[1..] == us[1..] + [u];
    }
  }

  // The units read so far and their value.
  ghost predicate ReadSoFar(text: string, start: nat, us: seq<Unit>, cursor: nat, value: string) {
    && start <= cursor <= |text| && cursor == start + |Text(us)| && text[start..cursor] == Text(us)
    && AllReadable(us) && Meaning(us) == value && Forced(text, start, us, cursor)
  }

  lemma ReadStep(text: string, start: nat, us: seq<Unit>, cursor: nat, value: string, u: Unit)
    requires ReadSoFar(text, start, us, cursor, value) && Readable(u)
    requires cursor + |UnitText(u)| <= |text| && text[cursor..cursor + |UnitText(u)|] == UnitText(u)
    requires forall vs :: Starts(text, cursor, vs) ==> vs != [] && vs[0] == u
    ensures ReadSoFar(text, start, us + [u], cursor + |UnitText(u)|, value + [UnitValue(u)])
  {
    hide UnitText, Readable, UnitValue, Forced, Starts, Text, Meaning;
    TextAppend(us, u);
    MeaningAppend(us, u);
    ForcedStep(text, start, us, cursor, u);
    assert text[start..cursor] + text[cursor..cursor + |UnitText(u)|] == text[start..cursor + |UnitText(u)|];
  }

  lemma ReadNothing(text: string, start: nat)
    requires start <= |text|
    ensures ReadSoFar(text, start, [], start, "")
  {
    forall vs | Starts(text, start, vs) ensures vs[..0] == [] && vs[0..] == vs {}
  }

  // A text that cannot go on from the cursor is not a string that the reader accepts.
  lemma Stuck(text: string, start: nat, us: seq<Unit>, cursor: nat, value: string)
    requires ReadSoFar(text, start, us, cursor, value)
    requires forall vs :: Starts(text, cursor, vs) ==> vs != [] && !Readable(vs[0])
    ensures forall vs :: Starts(text, start, vs) ==> !AllReadable(vs)
  {
    hide UnitText, Readable, Starts, Text, Meaning;
    forall vs | Starts(text, start, vs) ensures !AllReadable(vs) {
      assert vs[|us|..][0] == vs[|us|];
    }
  }

  lemma ReadAll(text: string, start: nat, us: seq<Unit>, cursor: nat, value: string)
    requires ReadSoFar(text, start, us, cursor, value) && cursor < |text| && text[cursor] == '\"'
    ensures Starts(text, start, us)
    ensures forall vs :: Starts(text, start, vs) ==> vs == us
  {
    hide Readable, UnitOk, Text, Meaning;
    forall i | 0 <= i < |us| ensures UnitOk(us[i]) { ReadableOk(us[i]); }
    forall vs | Starts(text, start, vs) ensures vs == us {
      FirstUnit(text, cursor, vs[|us|..]);
      assert vs == vs[..|us|] + vs[|us|..];
    }
  }

  lemma ReadableOk(u: Unit)
    requires Readable(u)
    ensures UnitOk(u)
  {
    hide UnitOk;
  }

  // The number of four hexadecimal digits; None for another character.
  method ParseCode(digits: string) returns (code: Option<int>)
    requires |digits| == 4
    ensures code.None? <==> !UnitOk(Code(digits))
    ensures code.Some? ==> code.value == HexNumber(digits) && code.value >= 0
  {
    hide HexValue;
    var number := 0;
    var index := 0;
    while index < 4
      invariant 0 <= index <= 4 && number == HexNumber(digits[..index]) && number >= 0
      invariant forall i :: 0 <= i < index ==> IsHex(digits[i])
    {
      var digit := HexValue(digits[index]);
      if digit < 0 {
        assert !IsHex(digits[index]);
        return None;
      }
      assert digits[..index + 1][..index] == digits[..index];
      number := number * 16 + digit;
      index := index + 1;
    }
    assert digits[..4] == digits;
    return Some(number);
  }

  // One unit that is not a closing quote: its value, or None when no string that can be read goes on like this.
  method ParseUnit(json: string, at: nat) returns (value: Option<char>, next: nat, ghost u: Unit)
    requires at < |json| && json[at] != '\"'
    ensures value.Some? ==>
      && Readable(u) && value.value == UnitValue(u) && next == at + |UnitText(u)| <= |json|
      && json[at..next] == UnitText(u)
      && next > at && forall vs :: Starts(json, at, vs) ==> vs != [] && vs[0] == u
    ensures value.None? ==> forall vs :: Starts(json, at, vs) ==> vs != [] && !Readable(vs[0])
  {
    hide Starts, UnitOk, HexNumber, HexValue;
    forall vs | Starts(json, at, vs)
      ensures UnitFacts(json, at, vs)
    {
      FirstUnit(json, at, vs);
      StartsOk(json, at, vs);
    }
    u := Raw(json[at]);
    next := at + 1;
    if json[at] != '\\' {
      RawReadable(json[at]);
      assert json[at..next] == UnitText(u);
      return Some(json[at]), next, u;
    }
    if at + 1 >= |json| {
      return None, next, u;
    }
    var escape := json[at + 1];
    if escape == 'u' {
      if at + 6 > |json| {
        return None, next, u;
      }
      var digits := json[at + 2..at + 6];
      u, next := Code(digits), at + 6;
      var code := ParseCode(digits);
      if code.None? || code.value > 0x7f {
        return None, next, u;
      }
      assert json[at..next] == UnitText(u);
      return Some(code.value as char), next, u;
    }
    u, next := Short(escape), at + 2;
    ShortReadable(escape);
    if escape !in SHORT {
      return None, next, u;
    }
    assert json[at..next] == UnitText(u);
    return Some(ShortValue(escape)), next, u;
  }

  // What the first unit must be, for the text at hand.
  predicate UnitFacts(text: string, at: nat, us: seq<Unit>)
    requires at < |text|
  {
    && (text[at] != '\"' ==> us != [] && UnitOk(us[0]))
    && (us != [] ==>
      && (text[at] != '\\' ==> us[0] == Raw(text[at]))
      && (text[at] == '\\' ==> !us[0].Raw? && at + 1 < |text|)
      && (text[at] == '\\' && text[at + 1] != 'u' ==> us[0] == Short(text[at + 1]))
      && (text[at] == '\\' && text[at + 1] == 'u' ==> at + 6 <= |text| && us[0] == Code(text[at + 2..at + 6])))
  }

  lemma StartsOk(text: string, at: nat, us: seq<Unit>)
    requires Starts(text, at, us)
    ensures us != [] ==> UnitOk(us[0])
  {
    hide UnitOk;
  }

  lemma RawReadable(c: char)
    requires c != '\"' && c != '\\'
    ensures Readable(Raw(c))
  {}

  lemma ShortReadable(e: char)
    ensures UnitOk(Short(e)) <==> e in SHORT
  {}

  // The string at the cursor, when it has one that can be read.
  method ParseJsonString(json: string, cursor: nat) returns (value: Option<string>, next: nat, ghost us: seq<Unit>)
    ensures value.Some? ==>
      Quoted(json, cursor, us) && AllReadable(us) && value.value == Meaning(us)
        && next == cursor + |Text(us)| + 2 <= |json|
    ensures value.Some? ==> forall vs :: Quoted(json, cursor, vs) ==> vs == us
    ensures value.None? ==> forall vs :: Quoted(json, cursor, vs) ==> !AllReadable(vs)
  {
    hide Starts, ReadSoFar, AllReadable, Text, Meaning, Readable, UnitText, UnitValue;
    us, next := [], cursor;
    if cursor >= |json| || json[cursor] != '\"' {
      return None, next, us;
    }
    var start := cursor + 1;
    var text := "";
    next := start;
    ReadNothing(json, start);
    while next < |json|
      invariant start <= next <= |json| && ReadSoFar(json, start, us, next, text)
      decreases |json| - next
    {
      if json[next] == '\"' {
        ReadAll(json, start, us, next, text);
        SoFarIs(json, start, us, next, text);
        return Some(text), next + 1, us;
      }
      var c, after;
      ghost var u;
      c, after, u := ParseUnit(json, next);
      if c.None? {
        Stuck(json, start, us, next, text);
        return None, next, us;
      }
      ReadStep(json, start, us, next, text, u);
      text, next, us := text + [c.value], after, us + [u];
    }
    Unclosed(json, next);
    Stuck(json, start, us, next, text);
    return None, next, us;
  }

  lemma SoFarIs(text: string, start: nat, us: seq<Unit>, cursor: nat, value: string)
    requires ReadSoFar(text, start, us, cursor, value)
    ensures AllReadable(us) && Meaning(us) == value && cursor == start + |Text(us)|
  {
    hide Readable, UnitText, Text, Forced;
  }

  lemma Unclosed(text: string, at: nat)
    requires at >= |text|
    ensures forall vs :: !Starts(text, at, vs)
  {
    hide Text, UnitOk;
  }
}
