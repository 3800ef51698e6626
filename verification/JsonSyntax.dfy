// The server's JSON syntax check: it accepts exactly the texts of the grammar, and so all that the server prints.
module JsonSyntax {
  import opened Options
  import opened TextSpaces
  import opened JsonText
  import opened EventJson
  import opened JsonTree
  import opened JsonNumbers
  import opened JsonPrinted

  // ---- strings ----

  ghost predicate CheckedSoFar(text: string, start: nat, us: seq<Unit>, cursor: nat) {
    && start <= cursor <= |text| && cursor == start + |Text(us)| && text[start..cursor] == Text(us)
    && AllStrict(us) && Forced(text, start, us, cursor)
  }

  lemma CheckStep(text: string, start: nat, us: seq<Unit>, cursor: nat, u: Unit)
    requires CheckedSoFar(text, start, us, cursor) && Strict(u)
    requires cursor + |UnitText(u)| <= |text| && text[cursor..cursor + |UnitText(u)|] == UnitText(u)
    requires forall vs :: Starts(text, cursor, vs) ==> vs != [] && vs[0] == u
    ensures CheckedSoFar(text, start, us + [u], cursor + |UnitText(u)|)
  {
    hide UnitText, Strict, Forced, Starts, Text;
    TextAppend(us, u);
    ForcedStep(text, start, us, cursor, u);
    assert text[start..cursor] + text[cursor..cursor + |UnitText(u)|] == text[start..cursor + |UnitText(u)|];
  }

  lemma CheckNothing(text: string, start: nat)
    requires start <= |text|
    ensures CheckedSoFar(text, start, [], start)
  {
    ReadNothing(text, start);
  }

  lemma CheckStuck(text: string, start: nat, us: seq<Unit>, cursor: nat)
    requires CheckedSoFar(text, start, us, cursor)
    requires forall vs :: Starts(text, cursor, vs) ==> vs != [] && !Strict(vs[0])
    ensures forall vs :: Starts(text, start, vs) ==> !AllStrict(vs)
  {
    hide UnitText, Strict, Starts, Text;
    forall vs | Starts(text, start, vs) ensures !AllStrict(vs) {
      assert vs[|us|..][0] == vs[|us|];
    }
  }

  lemma CheckAll(text: string, start: nat, us: seq<Unit>, cursor: nat)
    requires CheckedSoFar(text, start, us, cursor) && cursor < |text| && text[cursor] == '\"'
    ensures Starts(text, start, us) && AllStrict(us) && cursor == start + |Text(us)|
    ensures forall vs :: Starts(text, start, vs) ==> vs == us
  {
    hide UnitOk, Text, Readable, Strict;
    AllStrictOk(us);
    forall vs | Starts(text, start, vs) ensures vs == us {
      ClosedHere(text, start, us, cursor, vs);
    }
  }

  lemma ClosedHere(text: string, start: nat, us: seq<Unit>, cursor: nat, vs: seq<Unit>)
    requires Forced(text, start, us, cursor) && cursor < |text| && text[cursor] == '\"' && Starts(text, start, vs)
    ensures vs == us
  {
    hide Starts;
    FirstUnit(text, cursor, vs[|us|..]);
    assert vs == vs[..|us|] + vs[|us|..];
  }

  lemma AllStrictOk(us: seq<Unit>)
    requires AllStrict(us)
    ensures AllOk(us)
  {
    hide UnitOk;
  }

  // One unit that is not a closing quote.
  method CheckUnit(value: string, at: nat) returns (ok: bool, next: nat, ghost u: Unit)
    requires at < |value| && value[at] != '\"'
    ensures ok ==>
      && Strict(u) && at < next == at + |UnitText(u)| <= |value| && value[at..next] == UnitText(u)
      && forall vs :: Starts(value, at, vs) ==> vs != [] && vs[0] == u
    ensures !ok ==> forall vs :: Starts(value, at, vs) ==> vs != [] && !Strict(vs[0])
  {
    hide Starts, UnitOk, HexValue;
    forall vs | Starts(value, at, vs)
      ensures UnitFacts(value, at, vs)
    {
      FirstUnit(value, at, vs);
      StartsOk(value, at, vs);
    }
    u, next := Raw(value[at]), at + 1;
    RawReadableOrNot(value[at]);
    if value[at] < ' ' {
      return false, next, u;
    }
    if value[at] != '\\' {
      assert value[at..next] == UnitText(u);
      return true, next, u;
    }
    if at + 1 >= |value| {
      return false, next, u;
    }
    var escape := value[at + 1];
    if escape == 'u' {
      if at + 6 > |value| {
        return false, next, u;
      }
      u, next := Code(value[at + 2..at + 6]), at + 6;
      ok := CheckCode(value[at + 2..at + 6]);
      assert value[at..next] == UnitText(u);
      return ok, next, u;
    }
    u, next := Short(escape), at + 2;
    ShortReadable(escape);
    assert value[at..next] == UnitText(u);
    return escape in SHORT, next, u;
  }

  lemma RawReadableOrNot(c: char)
    ensures UnitOk(Raw(c)) <==> c != '\"' && c != '\\'
  {}

  method CheckCode(digits: string) returns (ok: bool)
    requires |digits| == 4
    ensures ok <==> UnitOk(Code(digits))
  {
    hide HexValue;
    var index := 0;
    while index < 4
      invariant 0 <= index <= 4 && forall i :: 0 <= i < index ==> IsHex(digits[i])
    {
      if !IsHex(digits[index]) {
        return false;
      }
      index := index + 1;
    }
    return true;
  }

  // A string is accepted exactly when it is made of units without raw control characters and closed.
  method ParseJsonStringSyntax(value: string, cursor: nat) returns (ok: bool, next: nat, ghost us: seq<Unit>)
    requires cursor <= |value|
    ensures cursor <= next <= |value|
    ensures ok ==> Quoted(value, cursor, us) && AllStrict(us) && next == cursor + |Text(us)| + 2
    ensures ok ==> forall vs :: Quoted(value, cursor, vs) ==> vs == us
    ensures !ok ==> forall vs :: Quoted(value, cursor, vs) ==> !AllStrict(vs)
  {
    hide Starts, CheckedSoFar, AllStrict, Text, Strict, UnitText;
    us, next := [], cursor;
    if cursor >= |value| || value[cursor] != '\"' {
      return false, next, us;
    }
    var start := cursor + 1;
    next := start;
    CheckNothing(value, start);
    while next < |value|
      invariant start <= next <= |value| && CheckedSoFar(value, start, us, next)
      decreases |value| - next
    {
      if value[next] == '\"' {
        CheckAll(value, start, us, next);
        return true, next + 1, us;
      }
      var good, after;
      ghost var u;
      good, after, u := CheckUnit(value, next);
      if !good {
        CheckStuck(value, start, us, next);
        return false, next, us;
      }
      CheckStep(value, start, us, next, u);
      next, us := after, us + [u];
    }
    Unclosed(value, next);
    CheckStuck(value, start, us, next);
    return false, next, us;
  }

  // ---- entries of lists ----

  lemma BadKey(value: string, cursor: nat)
    requires forall us :: Quoted(value, cursor, us) ==> !AllStrict(us)
    ensures NoEntry(true, value, cursor, true)
  {
    hide OneEnd, Quoted, AllStrict, JsonEnd, Token;
    forall f: Entry ensures OneEnd(true, value, cursor, true, f) == None { MemberEnd(true, value, cursor, f); }
  }

  lemma BadMember(value: string, cursor: nat, key: seq<Unit>, colon: nat)
    requires colon == cursor + |Text(key)| + 2 && forall us :: Quoted(value, cursor, us) ==> us == key
    requires Token(value, colon, ':') ==> NoValue(true, value, Past(value, colon))
    ensures NoEntry(true, value, cursor, true)
  {
    hide OneEnd, Quoted, Good, JsonEnd, Token, Past, Text;
    forall f: Entry ensures OneEnd(true, value, cursor, true, f) == None { MemberEnd(true, value, cursor, f); }
  }

  lemma GoodMember(value: string, cursor: nat, key: seq<Unit>, colon: nat, v: Json, end: nat)
    requires colon == cursor + |Text(key)| + 2 && Quoted(value, cursor, key) && AllStrict(key)
    requires forall us :: Quoted(value, cursor, us) ==> us == key
    requires Token(value, colon, ':') && ValueRead(true, value, Past(value, colon), v, end)
    ensures EntryRead(true, value, cursor, true, Entry(key, v), end)
  {
    hide OneEnd, Quoted, AllStrict, JsonEnd, Token, Past, Text;
    MemberEnd(true, value, cursor, Entry(key, v));
    forall f: Entry | OneEnd(true, value, cursor, true, f).Some? ensures f == Entry(key, v) {
      MemberEnd(true, value, cursor, f);
    }
  }

  lemma GoodItem(value: string, cursor: nat, v: Json, end: nat)
    requires ValueRead(true, value, cursor, v, end)
    ensures EntryRead(true, value, cursor, false, Entry([], v), end)
  {
    hide OneEnd, JsonEnd;
    ItemEnd(value, cursor, Entry([], v));
    forall f: Entry | OneEnd(true, value, cursor, false, f).Some?
      ensures f == Entry([], v)
    {
      ItemEnd(value, cursor, f);
    }
  }

  lemma BadItem(value: string, cursor: nat)
    requires NoValue(true, value, cursor)
    ensures NoEntry(true, value, cursor, false)
  {
    hide OneEnd, JsonEnd;
    forall f: Entry ensures OneEnd(true, value, cursor, false, f) == None { ItemEnd(value, cursor, f); }
  }

  // A member: a string, a colon and a value.
  method CheckMember(value: string, cursor: nat) returns (ok: bool, next: nat, ghost e: Entry)
    requires cursor <= |value|
    ensures cursor <= next <= |value|
    ensures ok ==> cursor < next && EntryRead(true, value, cursor, true, e, next)
    ensures !ok ==> NoEntry(true, value, cursor, true)
    decreases |value| - cursor, 2
  {
    hide Text, Quoted, AllStrict, EntryRead, NoEntry, NoValue, ValueRead, SkipTo;
    e := Entry([], Str([]));
    ghost var us, v;
    ok, next, us := ParseJsonStringSyntax(value, cursor);
    if !ok {
      BadKey(value, cursor);
      return;
    }
    ghost var colon := next;
    next := SkipWhitespace(value, next);
    if next >= |value| || value[next] != ':' {
      BadMember(value, cursor, us, colon);
      return false, next, e;
    }
    ghost var at := next + 1;
    next := SkipWhitespace(value, next + 1);
    SkippedOnce(true, value, at);
    ok, next, v := ParseJsonValueSyntax(value, next);
    if !ok {
      BadMember(value, cursor, us, colon);
      return false, next, e;
    }
    GoodMember(value, cursor, us, colon, v, next);
    e := Entry(us, v);
  }

  // An item of an array, which is at its first character.
  method CheckItem(value: string, cursor: nat) returns (ok: bool, next: nat, ghost e: Entry)
    requires cursor <= |value|
    ensures cursor <= next <= |value|
    ensures ok ==> cursor < next && EntryRead(true, value, cursor, false, e, next)
    ensures !ok ==> NoEntry(true, value, cursor, false)
    decreases |value| - cursor, 2
  {
    hide EntryRead, NoEntry, NoValue, ValueRead;
    ghost var v;
    ok, next, v := ParseJsonValueSyntax(value, cursor);
    e := Entry([], v);
    if ok { GoodItem(value, cursor, v, next); } else { BadItem(value, cursor); }
  }

  // Spaces before a value do not matter.
  lemma SkippedOnce(strict: bool, value: string, cursor: nat)
    ensures forall v: Json :: JsonEnd(strict, value, cursor, v) == JsonEnd(strict, value, SkipTo(value, cursor), v)
    ensures forall v: Json, end: nat ::
      ValueRead(strict, value, SkipTo(value, cursor), v, end) ==> ValueRead(strict, value, cursor, v, end)
    ensures NoValue(strict, value, SkipTo(value, cursor)) ==> NoValue(strict, value, cursor)
  {
    SkippedAlready(value, SkipTo(value, cursor));
    forall v: Json ensures JsonEnd(strict, value, cursor, v) == JsonEnd(strict, value, SkipTo(value, cursor), v) {
      SkippedFirst(strict, value, cursor, v);
    }
    hide JsonEnd;
  }

  lemma SkippedFirst(strict: bool, value: string, cursor: nat, v: Json)
    ensures JsonEnd(strict, value, cursor, v) == JsonEnd(strict, value, SkipTo(value, cursor), v)
  {
    hide StringAt, NumberAt, NumberText, At, RestEnd;
    SkippedAlready(value, SkipTo(value, cursor));
  }

  // ---- lists ----

  // The entries read so far, of a list that has one.
  ghost predicate EntriesSoFar(value: string, cursor: nat, keyed: bool, got: seq<Entry>, at: nat) {
    && Token(value, cursor, Open(keyed)) && !Token(value, Past(value, cursor), Close(keyed)) && at <= |value|
    && ListSoFar(true, value, Past(value, cursor), keyed, got, at)
  }

  lemma NoEntries(value: string, cursor: nat, keyed: bool)
    requires Token(value, cursor, Open(keyed)) && !Token(value, Past(value, cursor), Close(keyed))
    requires Past(value, cursor) <= |value|
    ensures EntriesSoFar(value, cursor, keyed, [], Past(value, cursor))
  {
    hide ListSoFar;
    ListStart(true, value, Past(value, cursor), keyed);
  }

  // What follows the next entry: a comma, the end, or nothing that a list can have.
  lemma EntryThen(value: string, cursor: nat, keyed: bool, got: seq<Entry>, at: nat, e: Entry, next: nat)
    requires EntriesSoFar(value, cursor, keyed, got, at) && EntryRead(true, value, SkipTo(value, at), keyed, e, next)
    requires next <= |value|
    ensures Token(value, next, ',') ==> EntriesSoFar(value, cursor, keyed, got + [e], Past(value, next))
    ensures Token(value, next, Close(keyed)) ==>
      ValueRead(true, value, cursor, List(keyed, got + [e]), Past(value, next))
    ensures !Token(value, next, ',') && !Token(value, next, Close(keyed)) ==> NoValue(true, value, cursor)
  {
    hide ListSoFar, EntryRead, SkipTo, ValueRead, ListRead, NoValue, NoList, Open, Close;
    var start := Past(value, cursor);
    if Token(value, next, ',') {
      ListStep(true, value, start, keyed, got, at, e, next);
    } else if Token(value, next, Close(keyed)) {
      ListDone(true, value, start, keyed, got, at, e, next);
      FilledRead(true, value, cursor, keyed, List(keyed, got + [e]), Past(value, next));
    } else {
      ListBroken(true, value, start, keyed, got, at, e, next);
      NothingRead(true, value, cursor, keyed);
    }
    if Token(value, next, Close(keyed)) { NotBoth(value, next, keyed); }
  }

  lemma EntriesStuck(value: string, cursor: nat, keyed: bool, got: seq<Entry>, at: nat)
    requires EntriesSoFar(value, cursor, keyed, got, at) && NoEntry(true, value, SkipTo(value, at), keyed)
    ensures NoValue(true, value, cursor)
  {
    hide ListSoFar, NoEntry, SkipTo, NoValue, NoList, Open, Close, Token, Past;
    ListStuck(true, value, Past(value, cursor), keyed, got, at);
    NothingRead(true, value, cursor, keyed);
  }

  // At the end of the text there is no entry.
  lemma EndedEarly(value: string, at: nat, keyed: bool)
    requires SkipTo(value, at) >= |value|
    ensures NoEntry(true, value, SkipTo(value, at), keyed)
  {
    hide JsonEnd, Token, Text;
    var c := SkipTo(value, at);
    forall f: Entry ensures OneEnd(true, value, c, keyed, f) == None {
      if keyed { MemberEnd(true, value, c, f); } else { ItemEnd(value, c, f); }
      if JsonEnd(true, value, c, f.value).Some? { ValueKind(true, value, c, f.value); }
    }
  }

  // The list at the cursor, which is at its first character.
  method ParseJsonArraySyntax(value: string, cursor: nat) returns (ok: bool, next: nat, ghost v: Json)
    requires cursor <= |value| && (cursor < |value| ==> !Space(value[cursor]))
    ensures cursor <= next <= |value| && (ok ==> cursor < next && ValueRead(true, value, cursor, v, next))
    ensures !ok && cursor < |value| && value[cursor] == '[' ==> NoValue(true, value, cursor)
    decreases |value| - cursor, 0
  {
    hide SkipTo, EntriesSoFar, EntryRead, NoEntry, NoValue, ValueRead;
    v := List(false, []);
    SkippedAlready(value, cursor);
    if cursor >= |value| || value[cursor] != '[' {
      return false, cursor, v;
    }
    next := SkipWhitespace(value, cursor + 1);
    if next < |value| && value[next] == ']' {
      EmptyRead(true, value, cursor, false);
      return true, next + 1, v;
    }
    NoEntries(value, cursor, false);
    ghost var got, at := [], cursor + 1;
    while next < |value|
      invariant cursor < at <= next == SkipTo(value, at) <= |value| && EntriesSoFar(value, cursor, false, got, at)
      decreases |value| - next
    {
      ghost var e;
      ok, next, e := CheckItem(value, next);
      if !ok {
        EntriesStuck(value, cursor, false, got, at);
        return;
      }
      EntryThen(value, cursor, false, got, at, e, next);
      next := SkipWhitespace(value, next);
      if next < |value| && value[next] == ']' {
        return true, next + 1, List(false, got + [e]);
      }
      if next >= |value| || value[next] != ',' {
        return false, next, v;
      }
      got, at := got + [e], next + 1;
      next := SkipWhitespace(value, next + 1);
    }
    EndedEarly(value, at, false);
    EntriesStuck(value, cursor, false, got, at);
    return false, next, v;
  }

  method ParseJsonObjectSyntax(value: string, cursor: nat) returns (ok: bool, next: nat, ghost v: Json)
    requires cursor <= |value| && (cursor < |value| ==> !Space(value[cursor]))
    ensures cursor <= next <= |value| && (ok ==> cursor < next && ValueRead(true, value, cursor, v, next))
    ensures !ok && cursor < |value| && value[cursor] == '{' ==> NoValue(true, value, cursor)
    decreases |value| - cursor, 0
  {
    hide SkipTo, EntriesSoFar, EntryRead, NoEntry, NoValue, ValueRead;
    v := List(true, []);
    SkippedAlready(value, cursor);
    if cursor >= |value| || value[cursor] != '{' {
      return false, cursor, v;
    }
    next := SkipWhitespace(value, cursor + 1);
    if next < |value| && value[next] == '}' {
      EmptyRead(true, value, cursor, true);
      return true, next + 1, v;
    }
    NoEntries(value, cursor, true);
    ghost var got, at := [], cursor + 1;
    while next < |value|
      invariant cursor < at <= next == SkipTo(value, at) <= |value| && EntriesSoFar(value, cursor, true, got, at)
      decreases |value| - next
    {
      ghost var e;
      ok, next, e := CheckMember(value, next);
      if !ok {
        EntriesStuck(value, cursor, true, got, at);
        return;
      }
      EntryThen(value, cursor, true, got, at, e, next);
      next := SkipWhitespace(value, next);
      if next < |value| && value[next] == '}' {
        return true, next + 1, List(true, got + [e]);
      }
      if next >= |value| || value[next] != ',' {
        return false, next, v;
      }
      got, at := got + [e], next + 1;
      next := SkipWhitespace(value, next + 1);
    }
    EndedEarly(value, at, true);
    EntriesStuck(value, cursor, true, got, at);
    return false, next, v;
  }

  // ---- values ----

  // The string at c is us, and can be read in no other way.
  ghost predicate OnlyString(value: string, c: nat, us: seq<Unit>) {
    Quoted(value, c, us) && AllStrict(us) && forall vs :: Quoted(value, c, vs) ==> vs == us
  }

  lemma StringOnly(value: string, c: nat)
    requires c < |value| && value[c] == '\"'
    ensures forall us :: OnlyString(value, c, us) ==> ValueRead(true, value, c, Str(us), c + |Text(us)| + 2)
    ensures (forall us :: Quoted(value, c, us) ==> !AllStrict(us)) ==> NoValue(true, value, c)
  {
    hide Quoted, AllStrict, JsonEnd, Text;
    SkippedAlready(value, c);
    forall v: Json ensures JsonEnd(true, value, c, v).Some? ==> v.Str? && Quoted(value, c, v.us) && AllStrict(v.us) {
      if JsonEnd(true, value, c, v).Some? {
        ValueKind(true, value, c, v);
        StrEnd(true, value, c, v.us);
      }
    }
    forall us ensures JsonEnd(true, value, c, Str(us)) ==
      if Quoted(value, c, us) && AllStrict(us) then Some(c + |Text(us)| + 2) else None
    {
      StrEnd(true, value, c, us);
    }
  }

  lemma WordEnd(value: string, c: nat, w: string)
    requires c < |value| && !Space(value[c])
    ensures JsonEnd(true, value, c, Word(w)) == if IsWord(w) && At(value, c, w) then Some(c + |w|) else None
  {
    hide IsWord, At;
    SkippedAlready(value, c);
  }

  lemma NumberEnd(value: string, c: nat, n: NumberParts)
    requires c < |value| && !Space(value[c])
    ensures JsonEnd(true, value, c, Number(n)) == if NumberAt(value, c, n) then Some(c + |NumberText(n)|) else None
  {
    hide NumberAt, NumberText;
    SkippedAlready(value, c);
  }

  // What can be at a character that opens no string and no list.
  lemma PlainKind(value: string, c: nat, v: Json)
    requires c < |value| && !Space(value[c]) && value[c] != '\"' && value[c] != '{' && value[c] != '['
    requires JsonEnd(true, value, c, v).Some?
    ensures (v.Word? && IsWord(v.w) && At(value, c, v.w)) || (v.Number? && NumberAt(value, c, v.n))
  {
    hide JsonEnd, IsWord, At, NumberAt, NumberText;
    SkippedAlready(value, c);
    ValueKind(true, value, c, v);
    if v.Word? { WordEnd(value, c, v.w); }
    if v.Number? { NumberEnd(value, c, v.n); }
  }

  lemma WordAt(value: string, c: nat, w: string)
    requires IsWord(w) && At(value, c, w)
    ensures c + |w| <= |value| && c < |value| && value[c] == w[0] && value[c] in "tfn" && !Space(value[c])
  {
    WordStarts(w);
    FirstChar(value, c, w);
  }

  lemma WordRead(value: string, c: nat, w: string)
    requires IsWord(w) && At(value, c, w)
    ensures c + |w| <= |value| && w != "" && ValueRead(true, value, c, Word(w), c + |w|)
  {
    hide JsonEnd, At, NumberAt;
    WordAt(value, c, w);
    WordEnd(value, c, w);
    forall v: Json | JsonEnd(true, value, c, v).Some? ensures v == Word(w) {
      PlainKind(value, c, v);
      if v.Word? { WordAt(value, c, v.w); }
      if v.Number? { NumberFirst(value, c, v.n); }
    }
  }

  lemma NumberFirst(value: string, c: nat, n: NumberParts)
    requires NumberAt(value, c, n)
    ensures c < |value| && (value[c] == '-' || IsDigit(value[c])) && NumberText(n) != ""
  {
    hide NumberText, NumberOk;
    NumberStarts(n);
    FirstChar(value, c, NumberText(n));
  }

  // Behind the words only a number is left.
  lemma NumberRead(value: string, c: nat, n: NumberParts)
    requires c < |value| && !Space(value[c]) && value[c] != '\"' && value[c] != '{' && value[c] != '['
    requires forall w: string :: IsWord(w) ==> !At(value, c, w)
    requires forall m: NumberParts :: NumberAt(value, c, m) ==> m == n
    ensures NumberAt(value, c, n) ==> ValueRead(true, value, c, Number(n), c + |NumberText(n)|) && NumberText(n) != ""
    ensures !NumberAt(value, c, n) ==> NoValue(true, value, c)
  {
    hide JsonEnd, IsWord, At, NumberAt, NumberText;
    NumberEnd(value, c, n);
    if NumberAt(value, c, n) { NumberFirst(value, c, n); }
    forall v: Json | JsonEnd(true, value, c, v).Some? ensures v == Number(n) && NumberAt(value, c, n) {
      PlainKind(value, c, v);
    }
  }

  lemma WordsAre(value: string, c: nat)
    ensures (forall w: string :: IsWord(w) ==> !At(value, c, w))
      <==> !At(value, c, "true") && !At(value, c, "false") && !At(value, c, "null")
    ensures IsWord("true") && IsWord("false") && IsWord("null")
  {}

  // A text is accepted as a value exactly when it starts with one of the grammar, and is read to that value's end.
  method ParseJsonValueSyntax(value: string, cursor: nat) returns (ok: bool, next: nat, ghost v: Json)
    requires cursor <= |value|
    ensures cursor <= next <= |value|
    ensures ok ==> cursor < next && ValueRead(true, value, cursor, v, next)
    ensures !ok ==> NoValue(true, value, cursor)
    decreases |value| - cursor, 1
  {
    hide Text, AllStrict, Quoted, ValueRead, NoValue, NumberAt, NumberText, PartsAt, IsWord, SkipTo;
    SkippedOnce(true, value, cursor);
    v := Word("null");
    next := SkipWhitespace(value, cursor);
    if next >= |value| {
      NothingLeft(value, next);
      return false, next, v;
    }
    if value[next] == '\"' {
      ghost var us;
      StringOnly(value, next);
      ok, next, us := ParseJsonStringSyntax(value, next);
      return ok, next, Str(us);
    }
    if value[next] == '{' {
      ok, next, v := ParseJsonObjectSyntax(value, next);
      return;
    }
    if value[next] == '[' {
      ok, next, v := ParseJsonArraySyntax(value, next);
      return;
    }
    WordsAre(value, next);
    if next + 4 <= |value| && value[next..next + 4] == "true" {
      WordRead(value, next, "true");
      return true, next + 4, Word("true");
    }
    if next + 5 <= |value| && value[next..next + 5] == "false" {
      WordRead(value, next, "false");
      return true, next + 5, Word("false");
    }
    if next + 4 <= |value| && value[next..next + 4] == "null" {
      WordRead(value, next, "null");
      return true, next + 4, Word("null");
    }
    ghost var n := PartsAt(value, next);
    v := Number(n);
    ghost var c := next;
    ok, next := ParseJsonNumberSyntax(value, next);
    NumberRead(value, c, n);
  }

  lemma NothingLeft(value: string, c: nat)
    requires c >= |value|
    ensures NoValue(true, value, c)
  {
    hide JsonEnd;
    SkippedAlready(value, c);
    forall v: Json ensures JsonEnd(true, value, c, v) == None {
      if JsonEnd(true, value, c, v).Some? { ValueKind(true, value, c, v); }
    }
  }

  // ---- the stored event data in an answer ----

  // Stored text goes into an answer, without the spaces around it, exactly when it is a JSON text.
  method JsonValueOrEmptyObject(value: string) returns (answer: string, ghost v: Json)
    ensures answer == Trim(value) || answer == "{}"
    ensures answer == Trim(value) && answer != "{}" ==> IsJson(true, answer, v)
    ensures forall w: Json :: IsJson(true, Trim(value), w) ==> answer == Trim(value)
  {
    hide Trim, JsonEnd, SkipTo, ValueRead, NoValue;
    var trimmed := Trim(value);
    v := Word("null");
    if trimmed == "" {
      NothingLeft(trimmed, 0);
      NoJson(trimmed);
      return "{}", v;
    }
    var ok, cursor;
    ok, cursor, v := ParseJsonValueSyntax(trimmed, 0);
    if !ok {
      NoJson(trimmed);
      return "{}", v;
    }
    var end := cursor;
    cursor := SkipWhitespace(trimmed, cursor);
    JsonOnly(trimmed, v, end);
    answer := if cursor == |trimmed| then trimmed else "{}";
  }

  lemma NoJson(text: string)
    requires NoValue(true, text, 0)
    ensures forall w: Json :: !IsJson(true, text, w)
  {
    hide JsonEnd;
  }

  lemma JsonOnly(text: string, v: Json, end: nat)
    requires ValueRead(true, text, 0, v, end)
    ensures forall w: Json :: IsJson(true, text, w) <==> w == v && SkipTo(text, end) == |text|
  {
    hide JsonEnd, SkipTo;
  }

  // Printed event data is shown as it is.
  method EventDataShown(role: string, fields: map<string, string>) returns (json: string, answer: string)
    ensures json == ObjectText(PairsOf(RoleEventFields(role), fields)) && answer == json
  {
    hide ObjectText, IsJson, Trim;
    json := EventDataJson(role, fields);
    ghost var pairs := PairsOf(RoleEventFields(role), fields);
    PrintedIsJson(true, pairs);
    PrintedTrimmed(pairs);
    ghost var v;
    answer, v := JsonValueOrEmptyObject(json);
  }

  lemma {:induction false} MembersEnd(pairs: seq<Pair>)
    ensures Members(pairs) != "" && Members(pairs)[|Members(pairs)| - 1] == '}'
  {
    hide Member;
    if |pairs| > 1 { MembersEnd(pairs[1..]); }
  }

  lemma PrintedTrimmed(pairs: seq<Pair>)
    ensures Trim(ObjectText(pairs)) == ObjectText(pairs)
  {
    hide Members, Trim;
    MembersEnd(pairs);
    TrimmedAlready(ObjectText(pairs));
  }
}
