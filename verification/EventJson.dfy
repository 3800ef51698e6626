// Event data as a flat JSON object: what the server prints, the snapshot service reads back.
module EventJson {
  import opened JsonText

  // ---- printing strings ----

  function HexDigit(n: int): char
    requires 0 <= n < 16
  {
    "0123456789abcdef"[n]
  }

  // The unit that json_escape prints for a character.
  function UnitFor(c: char): Unit {
    if c == '\"' || c == '\\' then Short(c)
    else if c == '\U{8}' then Short('b')
    else if c == '\U{c}' then Short('f')
    else if c == '\n' then Short('n')
    else if c == '\r' then Short('r')
    else if c == '\t' then Short('t')
    else if c < ' ' then Code("00" + [HexDigit(c as int / 16), HexDigit(c as int % 16)])
    else Raw(c)
  }

  function UnitsOf(value: string): (us: seq<Unit>)
    ensures |us| == |value| && forall i :: 0 <= i < |us| ==> us[i] == UnitFor(value[i])
  {
    if value == "" then [] else [UnitFor(value[0])] + UnitsOf(value[1..])
  }

  lemma HexDigitValue(n: int)
    requires 0 <= n < 16
    ensures HexValue(HexDigit(n)) == n
  {}

  lemma HexOne(digits: string, n: nat)
    requires n < |digits|
    ensures HexNumber(digits[..n + 1]) == HexNumber(digits[..n]) * 16 + HexValue(digits[n])
  {
    hide HexValue;
    assert digits[..n + 1][..n] == digits[..n];
  }

  lemma HexFour(digits: string)
    requires |digits| == 4
    ensures HexNumber(digits)
      == ((HexValue(digits[0]) * 16 + HexValue(digits[1])) * 16 + HexValue(digits[2])) * 16 + HexValue(digits[3])
  {
    hide HexValue;
    var d3, d2, d1 := digits[..3], digits[..2], digits[..1];
    HexOne(digits, 3);
    HexOne(digits, 2);
    HexOne(digits, 1);
    HexOne(digits, 0);
    assert digits[..4] == digits && digits[..0] == "";
  }

  // The unit of a character reads back as the character, and holds no raw control character.
  lemma UnitForReads(c: char)
    ensures Readable(UnitFor(c)) && UnitValue(UnitFor(c)) == c && Strict(UnitFor(c))
  {
    hide HexValue, HexNumber;
    if UnitFor(c).Code? {
      var digits := UnitFor(c).digits;
      HexDigitValue(c as int / 16);
      HexDigitValue(c as int % 16);
      HexDigitValue(0);
      assert digits[0] == HexDigit(0) && digits[1] == HexDigit(0);
      HexFour(digits);
    }
  }

  // The server's syntax check allows no raw control characters.
  predicate Strict(u: Unit) {
    UnitOk(u) && (u.Raw? ==> u.c >= ' ')
  }

  predicate AllStrict(us: seq<Unit>) {
    forall i :: 0 <= i < |us| ==> Strict(us[i])
  }

  lemma UnitsOk(value: string)
    ensures AllReadable(UnitsOf(value)) && AllStrict(UnitsOf(value))
  {
    hide Readable, Strict, UnitFor;
    forall i | 0 <= i < |value|
      ensures Readable(UnitsOf(value)[i]) && Strict(UnitsOf(value)[i])
    {
      UnitForReads(value[i]);
    }
  }

  lemma MeaningFirst(u: Unit, us: seq<Unit>)
    requires Readable(u) && AllReadable(us)
    ensures AllReadable([u] + us) && Meaning([u] + us) == [UnitValue(u)] + Meaning(us)
  {
    hide Readable, UnitValue;
    assert ([u] + us)[1..] == us;
  }

  lemma {:induction false} UnitsRead(value: string)
    ensures AllReadable(UnitsOf(value)) && Meaning(UnitsOf(value)) == value && AllStrict(UnitsOf(value))
  {
    hide Readable, Strict, UnitValue, UnitFor, AllReadable, AllStrict;
    UnitsOk(value);
    if value != "" {
      UnitsRead(value[1..]);
      UnitForReads(value[0]);
      MeaningFirst(UnitFor(value[0]), UnitsOf(value[1..]));
      assert UnitsOf(value) == [UnitFor(value[0])] + UnitsOf(value[1..]);
      assert value == [value[0]] + value[1..];
    }
  }

  method JsonEscape(value: string) returns (escaped: string)
    ensures escaped == Text(UnitsOf(value))
  {
    hide UnitText, Text, UnitFor;
    escaped := "";
    var i := 0;
    NothingEscaped(value);
    while i < |value|
      invariant 0 <= i <= |value| && escaped == Text(UnitsOf(value)[..i])
    {
      var ch := value[i];
      var us := UnitsOf(value);
      assert us[..i + 1] == us[..i] + [us[i]];
      TextAppend(us[..i], us[i]);
      UnitShown(ch);
      if ch == '\"' {
        escaped := escaped + "\\\"";
      } else if ch == '\\' {
        escaped := escaped + "\\\\";
      } else if ch == '\U{8}' {
        escaped := escaped + "\\b";
      } else if ch == '\U{c}' {
        escaped := escaped + "\\f";
      } else if ch == '\n' {
        escaped := escaped + "\\n";
      } else if ch == '\r' {
        escaped := escaped + "\\r";
      } else if ch == '\t' {
        escaped := escaped + "\\t";
      } else if ch < ' ' {
        escaped := escaped + ("\\u00" + [HexDigit(ch as int / 16), HexDigit(ch as int % 16)]);
      } else {
        escaped := escaped + [ch];
      }
      i := i + 1;
    }
    assert UnitsOf(value)[..i] == UnitsOf(value);
  }

  lemma NothingEscaped(value: string)
    ensures Text(UnitsOf(value)[..0]) == ""
  {}

  lemma UnitShown(c: char)
    ensures UnitText(UnitFor(c)) ==
      if c == '\"' then "\\\"" else if c == '\\' then "\\\\" else if c == '\U{8}' then "\\b"
      else if c == '\U{c}' then "\\f"
      else if c == '\n' then "\\n" else if c == '\r' then "\\r" else if c == '\t' then "\\t"
      else if c < ' ' then "\\u00" + [HexDigit(c as int / 16), HexDigit(c as int % 16)] else [c]
  {
    if UnitFor(c).Code? {
      var x := [HexDigit(c as int / 16), HexDigit(c as int % 16)];
      assert "\\u" + ("00" + x) == "\\u00" + x;
    }
  }

  // ---- objects ----

  function Q(s: string): string {
    "\"" + Text(UnitsOf(s)) + "\""
  }

  type Pair = (string, string)

  function Member(p: Pair): string {
    Q(p.0) + (":" + Q(p.1))
  }

  // The members from the first on, and the end of the object.
  function Members(pairs: seq<Pair>): string {
    if pairs == [] then "}"
    else if |pairs| == 1 then Member(pairs[0]) + "}"
    else Member(pairs[0]) + ("," + Members(pairs[1..]))
  }

  function ObjectText(pairs: seq<Pair>): string {
    "{" + Members(pairs)
  }

  function RoleEventFields(role: string): seq<string> {
    if role == "supplier" then ["harvestDate", "farmLocation", "certificateId"]
    else if role == "logistics" then
      ["shipmentId", "pickupLocation", "deliveryLocation", "departureTime", "arrivalTime", "temperature",
       "temperatureUnit", "humidity", "vehicleContainerId"]
    else if role == "warehouse" then
      ["storageLotId", "inboundTime", "outboundTime", "temperature", "temperatureUnit", "humidity", "storageZoneRackId"]
    else if role == "supermarket" then ["shelfPlacementDate", "expirationSellByDate", "storeLocationId"]
    else []
  }

  function ValueIn(fields: map<string, string>, name: string): string {
    if name in fields then fields[name] else ""
  }

  function PairsOf(names: seq<string>, fields: map<string, string>): (pairs: seq<Pair>)
    ensures |pairs| == |names| && forall i :: 0 <= i < |pairs| ==> pairs[i] == (names[i], ValueIn(fields, names[i]))
  {
    if names == [] then [] else [(names[0], ValueIn(fields, names[0]))] + PairsOf(names[1..], fields)
  }

  // The printed members without the end of the object.
  function Printed(pairs: seq<Pair>): string {
    if pairs == [] then ""
    else
      var n := |pairs| - 1;
      if n == 0 then Member(pairs[0]) else Printed(pairs[..n]) + "," + Member(pairs[n])
  }

  lemma {:induction false} PrintedMembers(front: seq<Pair>, rest: seq<Pair>)
    requires rest != []
    ensures Printed(front + rest) + "}" == (if front == [] then "" else Printed(front) + ",") + Members(rest)
    decreases |rest|
  {
    hide Member, Printed;
    if |rest| == 1 {
      assert rest == [rest[0]];
      PrintedOne(front, rest[0]);
      Joined(if front == [] then "" else Printed(front) + ",", Member(rest[0]), "}", "");
    } else {
      var first := [rest[0]];
      PrintedMembers(front + first, rest[1..]);
      assert front + first + rest[1..] == front + rest;
      PrintedOne(front, rest[0]);
      Joined(if front == [] then "" else Printed(front) + ",", Member(rest[0]), ",", Members(rest[1..]));
    }
  }

  lemma PrintedOne(front: seq<Pair>, p: Pair)
    ensures Printed(front + [p]) == (if front == [] then "" else Printed(front) + ",") + Member(p)
  {
    hide Member;
    assert (front + [p])[..|front|] == front && (front + [p])[|front|] == p;
  }

  lemma Joined(a: string, b: string, c: string, d: string)
    ensures a + b + c + d == a + (b + (c + d))
  {
    assert a + b + c + d == a + b + (c + d);
  }

  lemma PrintedObject(pairs: seq<Pair>)
    ensures "{" + Printed(pairs) + "}" == ObjectText(pairs)
  {
    hide Member, Printed;
    if pairs != [] {
      PrintedMembers([], pairs);
      assert [] + pairs == pairs;
      assert "{" + Printed(pairs) + "}" == "{" + (Printed(pairs) + "}");
    } else {
      PrintedNone();
    }
  }

  lemma PrintedNone()
    ensures Printed([]) == ""
  {}

  method EventDataJson(role: string, fields: map<string, string>) returns (json: string)
    ensures json == ObjectText(PairsOf(RoleEventFields(role), fields))
  {
    hide Text, ObjectText, RoleEventFields, Printed;
    json := "{";
    var names := RoleEventFields(role);
    ghost var pairs := PairsOf(names, fields);
    var index := 0;
    PrintedNone();
    assert pairs[..0] == [];
    while index < |names|
      invariant 0 <= index <= |names| && json == "{" + Printed(pairs[..index])
    {
      if index > 0 {
        json := json + ",";
      }
      var value := ValueIn(fields, names[index]);
      var name := JsonEscape(names[index]);
      var text := JsonEscape(value);
      json := json + ("\"" + name + "\":\"" + text + "\"");
      OneMember(name, text, pairs, index);
      index := index + 1;
    }
    assert pairs[..index] == pairs;
    PrintedObject(pairs);
    json := json + "}";
  }

  lemma OneMember(name: string, text: string, pairs: seq<Pair>, index: nat)
    requires index < |pairs| && name == Text(UnitsOf(pairs[index].0)) && text == Text(UnitsOf(pairs[index].1))
    ensures "\"" + name + "\":\"" + text + "\"" == Member(pairs[index])
    ensures Printed(pairs[..index + 1])
      == Printed(pairs[..index]) + (if index > 0 then "," else "") + Member(pairs[index])
  {
    hide Text, UnitsOf;
    assert pairs[..index + 1][..index] == pairs[..index];
    assert ":" + ("\"" + text + "\"") == ":\"" + text + "\"";
    assert "\"" + name + "\"" + (":\"" + text + "\"") == "\"" + name + "\":\"" + text + "\"";
  }
}
