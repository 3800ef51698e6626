// JSON values as trees, and where the text of a tree ends. Spaces may stand before every token.
module JsonTree {
  import opened Options
  import opened TextSpaces
  import opened JsonText
  import opened EventJson

  // The text at a position is t.
  predicate At(text: string, cursor: nat, t: string) {
    cursor + |t| <= |text| && text[cursor..cursor + |t|] == t
  }

  lemma AtBoth(text: string, cursor: nat, a: string, b: string)
    ensures At(text, cursor, a + b) <==> At(text, cursor, a) && At(text, cursor + |a|, b)
  {
    if At(text, cursor, a + b) {
      var whole := text[cursor..cursor + |a + b|];
      assert whole[..|a|] == a && whole[|a|..] == b;
      assert text[cursor..cursor + |a|] == whole[..|a|] && text[cursor + |a|..cursor + |a| + |b|] == whole[|a|..];
    }
    if At(text, cursor, a) && At(text, cursor + |a|, b) {
      assert text[cursor..cursor + |a + b|] == text[cursor..cursor + |a|] + text[cursor + |a|..cursor + |a| + |b|];
    }
  }

  // ---- numbers ----

  // An exponent has its letter and sign as written.
  datatype Exponent = Exponent(mark: string, digits: string)

  datatype NumberParts = NumberParts(minus: bool, whole: string, fraction: Option<string>, exponent: Option<Exponent>)

  predicate IsDigit(c: char) {
    '0' <= c <= '9'
  }

  predicate Digits(s: string) {
    s != "" && forall i :: 0 <= i < |s| ==> IsDigit(s[i])
  }

  const MARKS: seq<string> := ["e", "E", "e+", "E+", "e-", "E-"]

  // Section 6 of RFC 8259.
  predicate NumberOk(n: NumberParts) {
    && Digits(n.whole) && (n.whole[0] == '0' ==> n.whole == "0")
    && (n.fraction.Some? ==> Digits(n.fraction.value))
    && (n.exponent.Some? ==> n.exponent.value.mark in MARKS && Digits(n.exponent.value.digits))
  }

  function FractionText(fraction: Option<string>): string {
    if fraction.Some? then "." + fraction.value else ""
  }

  function ExponentText(exponent: Option<Exponent>): string {
    if exponent.Some? then exponent.value.mark + exponent.value.digits else ""
  }

  function NumberText(n: NumberParts): string {
    (if n.minus then "-" else "") + (n.whole + (FractionText(n.fraction) + ExponentText(n.exponent)))
  }

  predicate StartsExponent(c: char) {
    c == 'e' || c == 'E'
  }

  // The number could not be read on at the position behind it.
  predicate EndsHere(n: NumberParts, text: string, end: nat) {
    end < |text| ==>
      && !IsDigit(text[end]) && (n.exponent.None? ==> !StartsExponent(text[end]))
      && (n.exponent.None? && n.fraction.None? ==> text[end] != '.')
  }

  predicate NumberAt(text: string, cursor: nat, n: NumberParts) {
    NumberOk(n) && At(text, cursor, NumberText(n)) && EndsHere(n, text, cursor + |NumberText(n)|)
  }

  // ---- trees ----

  // An entry of an array has no key.
  datatype Entry = Entry(key: seq<Unit>, value: Json)

  datatype Json = Str(us: seq<Unit>) | Word(w: string) | Number(n: NumberParts) | List(keyed: bool, entries: seq<Entry>)

  // The system has two readers. The strict one is the syntax check of all values, which allows no raw control
  // characters. The other is the snapshot service, which takes lists of strings only and no \u escapes of other than
  // ASCII characters.
  predicate Good(strict: bool, us: seq<Unit>) {
    if strict then AllStrict(us) else AllReadable(us)
  }

  predicate StringAt(strict: bool, text: string, cursor: nat, us: seq<Unit>) {
    Quoted(text, cursor, us) && Good(strict, us)
  }

  predicate IsWord(w: string) {
    w == "true" || w == "false" || w == "null"
  }

  function Open(keyed: bool): char {
    if keyed then '{' else '['
  }

  function Close(keyed: bool): char {
    if keyed then '}' else ']'
  }

  // The character at the next token is c.
  predicate Token(text: string, cursor: nat, c: char) {
    SkipTo(text, cursor) < |text| && text[SkipTo(text, cursor)] == c
  }

  function Past(text: string, cursor: nat): nat {
    SkipTo(text, cursor) + 1
  }

  // Where the text of v, from the cursor on, ends; None if it is not there.
  function JsonEnd(strict: bool, text: string, cursor: nat, v: Json): Option<nat>
    decreases v, if v.List? then |v.entries| + 1 else 0, 0
  {
    var c := SkipTo(text, cursor);
    match v
    case Str(us) => if StringAt(strict, text, c, us) then Some(c + |Text(us)| + 2) else None
    case Word(w) => if IsWord(w) && At(text, c, w) then Some(c + |w|) else None
    case Number(n) => if NumberAt(text, c, n) then Some(c + |NumberText(n)|) else None
    case List(keyed, entries) =>
      if !Token(text, cursor, Open(keyed)) then None
      else if entries == [] then (if Token(text, c + 1, Close(keyed)) then Some(Past(text, c + 1)) else None)
      else RestEnd(strict, text, c + 1, v, 0)
  }

  // The same for the entries of a list from the i-th on, and the end of the list.
  function RestEnd(strict: bool, text: string, cursor: nat, v: Json, i: nat): Option<nat>
    requires v.List? && i < |v.entries|
    decreases v, |v.entries| - i, 1
  {
    match EntryEnd(strict, text, SkipTo(text, cursor), v, i)
    case None => None
    case Some(mid) =>
      if i + 1 == |v.entries| then (if Token(text, mid, Close(v.keyed)) then Some(Past(text, mid)) else None)
      else if Token(text, mid, ',') then RestEnd(strict, text, Past(text, mid), v, i + 1)
      else None
  }

  // And for one entry, which starts right at the cursor.
  function EntryEnd(strict: bool, text: string, cursor: nat, v: Json, i: nat): Option<nat>
    requires v.List? && i < |v.entries|
    decreases v, |v.entries| - i, 0
  {
    var e := v.entries[i];
    if !strict && !e.value.Str? then None
    else if !v.keyed then (if e.key == [] then JsonEnd(strict, text, cursor, e.value) else None)
    else if !StringAt(strict, text, cursor, e.key) then None
    else
      var colon := cursor + |Text(e.key)| + 2;
      if Token(text, colon, ':') then JsonEnd(strict, text, Past(text, colon), e.value) else None
  }

  // The text is that of the value v and nothing else.
  predicate IsJson(strict: bool, text: string, v: Json) {
    var end := JsonEnd(strict, text, 0, v);
    end.Some? && SkipTo(text, end.value) == |text|
  }

  // ---- what the first character of a value tells ----

  lemma FirstChar(text: string, cursor: nat, t: string)
    requires At(text, cursor, t) && t != ""
    ensures cursor < |text| && text[cursor] == t[0]
  {
    assert text[cursor..cursor + |t|][0] == text[cursor];
  }

  lemma NumberStarts(n: NumberParts)
    requires NumberOk(n)
    ensures NumberText(n) != "" && (NumberText(n)[0] == '-' || IsDigit(NumberText(n)[0]))
  {
    hide FractionText, ExponentText;
  }

  lemma WordStarts(w: string)
    requires IsWord(w)
    ensures w != "" && w[0] in "tfn"
  {}

  // The kind of value that can stand at a position.
  lemma ValueKind(strict: bool, text: string, cursor: nat, v: Json)
    requires JsonEnd(strict, text, cursor, v).Some?
    ensures var c := SkipTo(text, cursor); c < |text| && KindAt(text[c], v)
  {
    hide NumberText, NumberOk, EndsHere, IsWord, Good, Starts, At, RestEnd;
    var c := SkipTo(text, cursor);
    match v {
      case Str(us) =>
      case Word(w) => WordStarts(w); FirstChar(text, c, w);
      case Number(n) => NumberStarts(n); FirstChar(text, c, NumberText(n));
      case List(keyed, entries) =>
    }
  }

  predicate KindAt(c: char, v: Json) {
    match v
    case Str(us) => c == '\"'
    case Word(w) => c in "tfn"
    case Number(n) => c == '-' || IsDigit(c)
    case List(keyed, entries) => c == Open(keyed)
  }

  // ---- reading a list ----

  // Where a single entry ends.
  function OneEnd(strict: bool, text: string, cursor: nat, keyed: bool, e: Entry): Option<nat> {
    EntryEnd(strict, text, cursor, List(keyed, [e]), 0)
  }

  lemma StrEnd(strict: bool, text: string, cursor: nat, us: seq<Unit>)
    ensures var c := SkipTo(text, cursor);
      JsonEnd(strict, text, cursor, Str(us)) == if StringAt(strict, text, c, us) then Some(c + |Text(us)| + 2) else None
  {
    hide StringAt;
  }

  // An entry of an object.
  lemma MemberEnd(strict: bool, text: string, cursor: nat, e: Entry)
    ensures OneEnd(strict, text, cursor, true, e) ==
      if (!strict && !e.value.Str?) || !StringAt(strict, text, cursor, e.key) then None
      else
        var colon := cursor + |Text(e.key)| + 2;
        if Token(text, colon, ':') then JsonEnd(strict, text, Past(text, colon), e.value) else None
  {
    hide StringAt, JsonEnd, Token, Past;
  }

  // An entry of an array.
  lemma ItemEnd(text: string, cursor: nat, e: Entry)
    ensures OneEnd(true, text, cursor, false, e) == if e.key == [] then JsonEnd(true, text, cursor, e.value) else None
  {
    hide JsonEnd;
  }

  lemma EntryAlone(strict: bool, text: string, cursor: nat, v: Json, i: nat)
    requires v.List? && i < |v.entries|
    ensures EntryEnd(strict, text, cursor, v, i) == OneEnd(strict, text, cursor, v.keyed, v.entries[i])
  {
    hide StringAt;
  }

  // The entry at the cursor is e, and can be read in no other way.
  ghost predicate EntryRead(strict: bool, text: string, cursor: nat, keyed: bool, e: Entry, mid: nat) {
    && OneEnd(strict, text, cursor, keyed, e) == Some(mid)
    && forall f: Entry :: OneEnd(strict, text, cursor, keyed, f).Some? ==> f == e
  }

  ghost predicate NoEntry(strict: bool, text: string, cursor: nat, keyed: bool) {
    forall f: Entry :: OneEnd(strict, text, cursor, keyed, f) == None
  }

  // A list of this kind with at least one entry.
  predicate Filled(keyed: bool, v: Json) {
    v.List? && v.keyed == keyed && v.entries != []
  }

  // The list begins with the entries read so far and goes on.
  predicate GoesOn(keyed: bool, got: seq<Entry>, v: Json) {
    Filled(keyed, v) && |got| < |v.entries| && v.entries[..|got|] == got
  }

  // Every list that can be read from start begins with the entries read so far, and the rest stands at the cursor.
  ghost predicate ListSoFar(strict: bool, text: string, start: nat, keyed: bool, got: seq<Entry>, cursor: nat) {
    && (forall v: Json :: Filled(keyed, v) && RestEnd(strict, text, start, v, 0).Some? ==> GoesOn(keyed, got, v))
    && (forall v: Json :: GoesOn(keyed, got, v) ==>
         RestEnd(strict, text, start, v, 0) == RestEnd(strict, text, cursor, v, |got|))
  }

  ghost predicate NoList(strict: bool, text: string, start: nat, keyed: bool) {
    forall v: Json :: Filled(keyed, v) ==> RestEnd(strict, text, start, v, 0) == None
  }

  // The list from start is v, and can be read in no other way.
  ghost predicate ListRead(strict: bool, text: string, start: nat, keyed: bool, v: Json, end: nat) {
    && Filled(keyed, v) && RestEnd(strict, text, start, v, 0) == Some(end)
    && forall w: Json :: Filled(keyed, w) && RestEnd(strict, text, start, w, 0).Some? ==> w == v
  }

  lemma ListStart(strict: bool, text: string, start: nat, keyed: bool)
    ensures ListSoFar(strict, text, start, keyed, [], start)
  {
    hide RestEnd;
  }

  // One level of the definition.
  lemma RestUnfold(strict: bool, text: string, cursor: nat, v: Json, i: nat)
    requires v.List? && i < |v.entries|
    ensures var mid := OneEnd(strict, text, SkipTo(text, cursor), v.keyed, v.entries[i]);
      RestEnd(strict, text, cursor, v, i) ==
        if mid.None? then None
        else if i + 1 == |v.entries| then
          (if Token(text, mid.value, Close(v.keyed)) then Some(Past(text, mid.value)) else None)
        else if Token(text, mid.value, ',') then RestEnd(strict, text, Past(text, mid.value), v, i + 1)
        else None
  {
    EntryAlone(strict, text, SkipTo(text, cursor), v, i);
    hide Token, Past, Close, OneEnd, EntryEnd;
  }

  lemma NotBoth(text: string, cursor: nat, keyed: bool)
    ensures !(Token(text, cursor, ',') && Token(text, cursor, Close(keyed)))
  {}

  // Behind an entry and a comma the list goes on.
  lemma ListStep(strict: bool, text: string, start: nat, keyed: bool, got: seq<Entry>, cursor: nat, e: Entry, mid: nat)
    requires ListSoFar(strict, text, start, keyed, got, cursor)
    requires EntryRead(strict, text, SkipTo(text, cursor), keyed, e, mid) && Token(text, mid, ',')
    ensures ListSoFar(strict, text, start, keyed, got + [e], Past(text, mid))
  {
    hide RestEnd, OneEnd, Token, Past, Close;
    NotBoth(text, mid, keyed);
    var n := |got|;
    forall v: Json | Filled(keyed, v) && RestEnd(strict, text, start, v, 0).Some? ensures GoesOn(keyed, got + [e], v) {
      RestUnfold(strict, text, cursor, v, n);
      assert v.entries[n] == e;
      assert v.entries[..n + 1] == v.entries[..n] + [e];
    }
    forall v: Json | GoesOn(keyed, got + [e], v)
      ensures RestEnd(strict, text, start, v, 0) == RestEnd(strict, text, Past(text, mid), v, n + 1)
    {
      assert v.entries[..n] == v.entries[..n + 1][..n] == got && v.entries[n] == v.entries[..n + 1][n] == e;
      RestUnfold(strict, text, cursor, v, n);
    }
  }

  // Behind an entry and the closing character it ends.
  lemma ListDone(strict: bool, text: string, start: nat, keyed: bool, got: seq<Entry>, cursor: nat, e: Entry, mid: nat)
    requires ListSoFar(strict, text, start, keyed, got, cursor)
    requires EntryRead(strict, text, SkipTo(text, cursor), keyed, e, mid) && Token(text, mid, Close(keyed))
    ensures ListRead(strict, text, start, keyed, List(keyed, got + [e]), Past(text, mid))
  {
    hide RestEnd, OneEnd, Token, Past, Close;
    NotBoth(text, mid, keyed);
    var n := |got|;
    var v0 := List(keyed, got + [e]);
    assert v0.entries[..n] == got && GoesOn(keyed, got, v0);
    RestUnfold(strict, text, cursor, v0, n);
    forall w: Json | Filled(keyed, w) && RestEnd(strict, text, start, w, 0).Some? ensures w == v0 {
      RestUnfold(strict, text, cursor, w, n);
      assert w.entries[n] == e && |w.entries| == n + 1;
      assert w.entries == w.entries[..n] + [e];
    }
  }

  // Without an entry, or without a comma or the closing character behind it, there is no list.
  lemma ListStuck(strict: bool, text: string, start: nat, keyed: bool, got: seq<Entry>, cursor: nat)
    requires ListSoFar(strict, text, start, keyed, got, cursor) && NoEntry(strict, text, SkipTo(text, cursor), keyed)
    ensures NoList(strict, text, start, keyed)
  {
    hide RestEnd, OneEnd, Token, Past, Close;
    forall v: Json | Filled(keyed, v) ensures RestEnd(strict, text, start, v, 0) == None {
      if RestEnd(strict, text, start, v, 0).Some? { RestUnfold(strict, text, cursor, v, |got|); }
    }
  }

  lemma ListBroken(strict: bool, text: string, start: nat, keyed: bool, got: seq<Entry>, cursor: nat, e: Entry,
      mid: nat)
    requires ListSoFar(strict, text, start, keyed, got, cursor)
    requires EntryRead(strict, text, SkipTo(text, cursor), keyed, e, mid)
    requires !Token(text, mid, ',') && !Token(text, mid, Close(keyed))
    ensures NoList(strict, text, start, keyed)
  {
    hide RestEnd, OneEnd, Token, Past, Close;
    forall v: Json | Filled(keyed, v) ensures RestEnd(strict, text, start, v, 0) == None {
      if RestEnd(strict, text, start, v, 0).Some? { RestUnfold(strict, text, cursor, v, |got|); }
    }
  }

  // ---- reading a value ----

  ghost predicate ValueRead(strict: bool, text: string, cursor: nat, v: Json, end: nat) {
    JsonEnd(strict, text, cursor, v) == Some(end) && forall w: Json :: JsonEnd(strict, text, cursor, w).Some? ==> w == v
  }

  ghost predicate NoValue(strict: bool, text: string, cursor: nat) {
    forall w: Json :: JsonEnd(strict, text, cursor, w) == None
  }

  lemma ListUnfold(strict: bool, text: string, cursor: nat, v: Json)
    requires v.List?
    ensures JsonEnd(strict, text, cursor, v) ==
      if !Token(text, cursor, Open(v.keyed)) then None
      else if v.entries == [] then
        (if Token(text, Past(text, cursor), Close(v.keyed)) then Some(Past(text, Past(text, cursor))) else None)
      else RestEnd(strict, text, Past(text, cursor), v, 0)
  {
    hide RestEnd;
  }

  lemma ListKind(strict: bool, text: string, cursor: nat, keyed: bool, v: Json)
    requires Token(text, cursor, Open(keyed)) && JsonEnd(strict, text, cursor, v).Some?
    ensures v.List? && v.keyed == keyed
  {
    hide JsonEnd;
    ValueKind(strict, text, cursor, v);
  }

  // No entry starts with the closing character.
  lemma NoEntryAtClose(strict: bool, text: string, cursor: nat, keyed: bool)
    requires Token(text, cursor, Close(keyed))
    ensures NoEntry(strict, text, SkipTo(text, cursor), keyed)
  {
    hide JsonEnd, Good;
    var c := SkipTo(text, cursor);
    assert SkipTo(text, c) == c by { SkippedAlready(text, c); }
    forall f: Entry ensures OneEnd(strict, text, c, keyed, f) == None {
      if !keyed && JsonEnd(strict, text, c, f.value).Some? { ValueKind(strict, text, c, f.value); }
    }
  }

  lemma SkippedAlready(text: string, c: nat)
    requires c < |text| ==> !Space(text[c])
    ensures SkipTo(text, c) == c
  {}

  lemma EmptyRead(strict: bool, text: string, cursor: nat, keyed: bool)
    requires Token(text, cursor, Open(keyed)) && Token(text, Past(text, cursor), Close(keyed))
    ensures ValueRead(strict, text, cursor, List(keyed, []), Past(text, Past(text, cursor)))
  {
    hide JsonEnd, RestEnd, Token, Past, Open, Close, OneEnd;
    var start := Past(text, cursor);
    ListUnfold(strict, text, cursor, List(keyed, []));
    NoEntryAtClose(strict, text, start, keyed);
    ListStart(strict, text, start, keyed);
    ListStuck(strict, text, start, keyed, [], start);
    forall w: Json | JsonEnd(strict, text, cursor, w).Some? ensures w == List(keyed, []) {
      ListKind(strict, text, cursor, keyed, w);
      ListUnfold(strict, text, cursor, w);
    }
  }

  lemma FilledRead(strict: bool, text: string, cursor: nat, keyed: bool, v: Json, end: nat)
    requires Token(text, cursor, Open(keyed)) && !Token(text, Past(text, cursor), Close(keyed))
    requires ListRead(strict, text, Past(text, cursor), keyed, v, end)
    ensures ValueRead(strict, text, cursor, v, end)
  {
    hide JsonEnd, RestEnd, Token, Past, Open, Close;
    ListUnfold(strict, text, cursor, v);
    forall w: Json | JsonEnd(strict, text, cursor, w).Some? ensures w == v {
      ListKind(strict, text, cursor, keyed, w);
      ListUnfold(strict, text, cursor, w);
    }
  }

  lemma NothingRead(strict: bool, text: string, cursor: nat, keyed: bool)
    requires Token(text, cursor, Open(keyed)) && !Token(text, Past(text, cursor), Close(keyed))
    requires NoList(strict, text, Past(text, cursor), keyed)
    ensures NoValue(strict, text, cursor)
  {
    hide JsonEnd, RestEnd, Token, Past, Open, Close;
    forall w: Json ensures JsonEnd(strict, text, cursor, w) == None {
      if JsonEnd(strict, text, cursor, w).Some? {
        ListKind(strict, text, cursor, keyed, w);
        ListUnfold(strict, text, cursor, w);
      }
    }
  }
}
