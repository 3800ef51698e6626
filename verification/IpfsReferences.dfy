// Lists of IPFS references as text: the canonical printer and the parser of submitted lists.
module IpfsReferences {
  import opened Options
  import opened TextSpaces
  import opened CanonicalRecord
  import opened RouteRevision
  import opened Chain
  import opened Sorting
  import opened PercentText

  datatype IpfsReference = IpfsReference(category: string, cid: string, filename: string, contentType: string,
      size: int)

  const MAX_IPFS_FILE_SIZE: int := 30 * 1024 * 1024
  const MAX_LIST: int := 128 * 1024
  const LLONG_MAX: int := 0x7fff_ffff_ffff_ffff
  const LLONG_MIN: int := -0x8000_0000_0000_0000

  // The strings are bytes and the size is a 64-bit integer.
  predicate Representable(r: IpfsReference) {
    AllBytes(r.category) && AllBytes(r.cid) && AllBytes(r.filename) && AllBytes(r.contentType)
    && LLONG_MIN <= r.size <= LLONG_MAX
  }

  predicate AllRepresentable(refs: seq<IpfsReference>) {
    forall i :: 0 <= i < |refs| ==> Representable(refs[i])
  }

  // ---- splitting ----

  function Split(value: string, separator: char): (pieces: seq<string>)
    ensures pieces != []
  {
    if value == "" then [""]
    else if value[0] == separator then [""] + Split(value[1..], separator)
    else
      var rest := Split(value[1..], separator);
      [[value[0]] + rest[0]] + rest[1..]
  }

  predicate Without(piece: string, separator: char) {
    forall i :: 0 <= i < |piece| ==> piece[i] != separator
  }

  lemma {:induction false} SplitAt(value: string, separator: char, n: nat)
    requires n <= |value| && Without(value[..n], separator)
    ensures n == |value| ==> Split(value, separator) == [value]
    ensures n < |value| && value[n] == separator ==>
      Split(value, separator) == [value[..n]] + Split(value[n + 1..], separator)
    decreases |value|
  {
    if n > 0 {
      assert value[..n][0] == value[0];
      assert value[1..][..n - 1] == value[..n][1..];
      SplitAt(value[1..], separator, n - 1);
      assert [value[0]] + value[1..] == value;
      if n < |value| {
        assert [value[0]] + value[1..][..n - 1] == value[..n] && value[1..][n - 1 + 1..] == value[n + 1..];
      }
    } else if value != "" {
      assert value[..0] == "";
    }
  }

  method FindSeparator(value: string, separator: char, cursor: nat) returns (next: nat)
    requires cursor <= |value|
    ensures cursor <= next <= |value| && Without(value[cursor..next], separator)
    ensures next < |value| ==> value[next] == separator
  {
    next := cursor;
    while next < |value| && value[next] != separator
      invariant cursor <= next <= |value| && Without(value[cursor..next], separator)
    {
      assert value[cursor..next + 1] == value[cursor..next] + [value[next]];
      next := next + 1;
    }
  }

  method SplitText(value: string, separator: char) returns (pieces: seq<string>)
    ensures pieces == Split(value, separator)
  {
    hide Split, Without;
    pieces := [];
    var cursor := 0;
    assert value[0..] == value;
    while cursor <= |value|
      invariant 0 <= cursor <= |value| && pieces + Split(value[cursor..], separator) == Split(value, separator)
      decreases |value| - cursor
    {
      var next := FindSeparator(value, separator, cursor);
      var piece := value[cursor..next];
      SplitRest(value, separator, cursor, next);
      pieces := pieces + [piece];
      if next == |value| {
        break;
      }
      assert pieces[..|pieces| - 1] + ([piece] + Split(value[next + 1..], separator))
        == pieces + Split(value[next + 1..], separator);
      cursor := next + 1;
    }
  }

  lemma SplitRest(value: string, separator: char, cursor: nat, next: nat)
    requires cursor <= next <= |value| && Without(value[cursor..next], separator)
    ensures next == |value| ==> Split(value[cursor..], separator) == [value[cursor..next]]
    ensures next < |value| && value[next] == separator ==>
      Split(value[cursor..], separator) == [value[cursor..next]] + Split(value[next + 1..], separator)
  {
    var rest := value[cursor..];
    assert rest[..next - cursor] == value[cursor..next];
    SplitAt(rest, separator, next - cursor);
    if next < |value| {
      assert rest[next - cursor + 1..] == value[next + 1..];
    } else {
      assert rest == value[cursor..next];
    }
  }

  // A first piece and the rest.
  lemma SplitJoined(piece: string, separator: char, rest: string)
    requires Without(piece, separator)
    ensures Split(piece + [separator] + rest, separator) == [piece] + Split(rest, separator)
    ensures Split(piece, separator) == [piece]
  {
    var value := piece + [separator] + rest;
    assert value[..|piece|] == piece && value[|piece| + 1..] == rest;
    SplitAt(value, separator, |piece|);
    assert piece[..|piece|] == piece;
    SplitAt(piece, separator, |piece|);
  }

  // ---- std::stoll ----

  function DigitPrefix(s: string): string {
    if s != "" && '0' <= s[0] <= '9' then [s[0]] + DigitPrefix(s[1..]) else ""
  }

  // The integer at the start of a text; None where std::stoll throws.
  function LeadingInt(text: string): Option<int> {
    var t := SkipSpaces(text);
    var signed := t != "" && (t[0] == '-' || t[0] == '+');
    var digits := DigitPrefix(if signed then t[1..] else t);
    if digits == "" then None
    else
      var magnitude: int := ParseDecimal(digits);
      var value := if signed && t[0] == '-' then -magnitude else magnitude;
      if LLONG_MIN <= value <= LLONG_MAX then Some(value) else None
  }

  lemma {:induction false} DigitsWhole(s: string)
    requires AllDigits(s)
    ensures DigitPrefix(s) == s
  {
    if s != "" {
      DigitsWhole(s[1..]);
      assert s == [s[0]] + s[1..];
    }
  }

  lemma IntReads(n: int)
    requires LLONG_MIN <= n <= LLONG_MAX
    ensures LeadingInt(IntText(n)) == Some(n) && Without(IntText(n), ',') && Without(IntText(n), '|')
  {
    hide Decimal, ParseDecimal, DigitPrefix;
    var m := if n < 0 then -n else n;
    DecimalDigits(m);
    DecimalParses(m);
    DigitsWhole(Decimal(m));
    assert '0' <= Decimal(m)[0] <= '9';
    if n < 0 { assert IntText(n)[1..] == Decimal(m); }
  }

  // ---- one reference ----

  function ReferenceText(r: IpfsReference): string
    requires Representable(r)
  {
    Encode(r.category) + "|"
    + (Encode(r.cid) + "|" + (Encode(r.filename) + "|" + (Encode(r.contentType) + "|" + IntText(r.size))))
  }

  function ParsedReference(token: string): Option<IpfsReference> {
    var pieces := Split(token, '|');
    if |pieces| != 5 then None
    else
      var category, cid, filename, contentType := Decoded(pieces[0]), Decoded(pieces[1]), Decoded(pieces[2]),
          Decoded(pieces[3]);
      if category.None? || cid.None? || filename.None? || contentType.None? then None
      else if category.value == "" || cid.value == "" then None
      else
        var size := LeadingInt(pieces[4]);
        if size.None? || size.value < 0 || size.value > MAX_IPFS_FILE_SIZE then None
        else Some(IpfsReference(category.value, cid.value, filename.value, contentType.value, size.value))
  }

  // What the parser accepts: no zero bytes, a category, a content id and a size in range.
  predicate Acceptable(r: IpfsReference) {
    && '\0' !in r.category && '\0' !in r.cid && '\0' !in r.filename && '\0' !in r.contentType
    && r.category != "" && r.cid != "" && 0 <= r.size <= MAX_IPFS_FILE_SIZE
  }

  lemma ReferencePieces(r: IpfsReference)
    requires Representable(r)
    ensures Split(ReferenceText(r), '|')
      == [Encode(r.category), Encode(r.cid), Encode(r.filename), Encode(r.contentType), IntText(r.size)]
    ensures Without(ReferenceText(r), ',')
  {
    hide Encode, IntText, Split;
    EncodedPlain(r.category);
    EncodedPlain(r.cid);
    EncodedPlain(r.filename);
    EncodedPlain(r.contentType);
    IntReads(r.size);
    var t4 := IntText(r.size);
    var t3 := Encode(r.contentType) + "|" + t4;
    var t2 := Encode(r.filename) + "|" + t3;
    var t1 := Encode(r.cid) + "|" + t2;
    SplitJoined(t4, '|', "");
    SplitJoined(Encode(r.contentType), '|', t4);
    SplitJoined(Encode(r.filename), '|', t3);
    SplitJoined(Encode(r.cid), '|', t2);
    SplitJoined(Encode(r.category), '|', t1);
  }

  lemma ReferenceReads(r: IpfsReference)
    requires Representable(r)
    ensures ParsedReference(ReferenceText(r)) == if Acceptable(r) then Some(r) else None
  {
    hide Encode, IntText, Split, Decoded, LeadingInt, ReferenceText;
    ReferencePieces(r);
    DecodeEncode(r.category);
    DecodeEncode(r.cid);
    DecodeEncode(r.filename);
    DecodeEncode(r.contentType);
    IntReads(r.size);
  }

  method ParseReference(token: string) returns (reference: Option<IpfsReference>)
    ensures reference == ParsedReference(token)
  {
    hide Split, Decoded, LeadingInt;
    var pieces := SplitText(token, '|');
    if |pieces| != 5 {
      return None;
    }
    var category := PercentDecode(pieces[0]);
    var cid := PercentDecode(pieces[1]);
    var filename := PercentDecode(pieces[2]);
    var contentType := PercentDecode(pieces[3]);
    if category.None? || cid.None? || filename.None? || contentType.None? || category.value == "" || cid.value == "" {
      return None;
    }
    var size := LeadingInt(pieces[4]);
    if size.None? {
      return None;
    }
    if size.value < 0 || size.value > MAX_IPFS_FILE_SIZE {
      return None;
    }
    return Some(IpfsReference(category.value, cid.value, filename.value, contentType.value, size.value));
  }

  // ---- lists ----

  // The references of the tokens, when all can be read.
  function ParsedAll(tokens: seq<string>): Option<seq<IpfsReference>> {
    if tokens == [] then Some([])
    else
      var rest, r := ParsedAll(tokens[..|tokens| - 1]), ParsedReference(tokens[|tokens| - 1]);
      if rest.None? || r.None? then None else Some(rest.value + [r.value])
  }

  method ParseIpfsReferences(encoded: string) returns (references: Option<seq<IpfsReference>>)
    ensures references ==
      if encoded == "" then Some([]) else if |encoded| > MAX_LIST then None else ParsedAll(Split(encoded, ','))
  {
    hide ParsedReference, Split;
    if encoded == "" {
      return Some([]);
    }
    if |encoded| > MAX_LIST {
      return None;
    }
    var tokens := SplitText(encoded, ',');
    var found: seq<IpfsReference> := [];
    var i := 0;
    while i < |tokens|
      invariant 0 <= i <= |tokens| && ParsedAll(tokens[..i]) == Some(found)
    {
      assert tokens[..i + 1][..i] == tokens[..i];
      var reference := ParseReference(tokens[i]);
      if reference.None? {
        ParsedNone(tokens, i);
        return None;
      }
      found := found + [reference.value];
      i := i + 1;
    }
    assert tokens[..i] == tokens;
    return Some(found);
  }

  lemma {:induction false} ParsedNone(tokens: seq<string>, i: nat)
    requires i < |tokens| && ParsedReference(tokens[i]) == None
    ensures ParsedAll(tokens) == None
    decreases |tokens|
  {
    hide ParsedReference;
    if i < |tokens| - 1 { ParsedNone(tokens[..|tokens| - 1], i); }
  }

  function TextsOf(refs: seq<IpfsReference>): (texts: seq<string>)
    requires AllRepresentable(refs)
    ensures |texts| == |refs| && forall i :: 0 <= i < |refs| ==> texts[i] == ReferenceText(refs[i])
  {
    seq(|refs|, i requires 0 <= i < |refs| => ReferenceText(refs[i]))
  }

  // The texts with commas between.
  function Listed(texts: seq<string>): string {
    if texts == [] then ""
    else if |texts| == 1 then texts[0]
    else texts[0] + [','] + Listed(texts[1..])
  }

  lemma {:induction false} SplitListed(texts: seq<string>)
    requires texts != [] && forall i :: 0 <= i < |texts| ==> Without(texts[i], ',')
    ensures Split(Listed(texts), ',') == texts
    decreases |texts|
  {
    hide Split;
    if |texts| == 1 {
      SplitJoined(texts[0], ',', "");
    } else {
      SplitListed(texts[1..]);
      SplitJoined(texts[0], ',', Listed(texts[1..]));
    }
  }

  function ReferenceLess(a: IpfsReference, b: IpfsReference): bool {
    if a.category != b.category then TextLess(a.category, b.category)
    else if a.cid != b.cid then TextLess(a.cid, b.cid)
    else if a.filename != b.filename then TextLess(a.filename, b.filename)
    else if a.contentType != b.contentType then TextLess(a.contentType, b.contentType)
    else a.size < b.size
  }

  // The order of the canonical list is an order, so the list is sorted.
  lemma CanonicalSorted(refs: seq<IpfsReference>)
    ensures Sorted(Sort(refs, ReferenceLess), ReferenceLess)
  {
    hide TextLess, Sort;
    TextOrder();
    forall x: IpfsReference, y: IpfsReference, z: IpfsReference | ReferenceLess(x, y) && ReferenceLess(y, z)
      ensures ReferenceLess(x, z) {}
    forall x: IpfsReference, y: IpfsReference, z: IpfsReference | !ReferenceLess(x, y) && !ReferenceLess(y, z)
      ensures !ReferenceLess(x, z) { NotLess(x, y, z); }
    SortSorted(refs, ReferenceLess);
  }

  lemma NotLess(x: IpfsReference, y: IpfsReference, z: IpfsReference)
    requires Order(TextLess) && forall a, b :: !TextLess(a, b) && !TextLess(b, a) ==> a == b
    requires !ReferenceLess(x, y) && !ReferenceLess(y, z)
    ensures !ReferenceLess(x, z)
  {
    hide TextLess;
  }

  predicate AllAcceptable(refs: seq<IpfsReference>) {
    forall i :: 0 <= i < |refs| ==> Acceptable(refs[i])
  }

  lemma {:induction false} AllRead(refs: seq<IpfsReference>)
    requires AllRepresentable(refs)
    ensures ParsedAll(TextsOf(refs)) == if AllAcceptable(refs) then Some(refs) else None
    decreases |refs|
  {
    hide ParsedReference, ReferenceText, Acceptable, Representable;
    if refs != [] {
      var n := |refs| - 1;
      AllRead(refs[..n]);
      ReferenceReads(refs[n]);
      assert refs == refs[..n] + [refs[n]];
      assert TextsOf(refs)[..n] == TextsOf(refs[..n]);
      assert AllAcceptable(refs) <==> AllAcceptable(refs[..n]) && Acceptable(refs[n]);
    }
  }

  lemma {:induction false} ListedAppend(texts: seq<string>, t: string)
    ensures Listed(texts + [t]) == if texts == [] then t else Listed(texts) + [','] + t
    decreases |texts|
  {
    var all := texts + [t];
    if |texts| > 0 {
      assert all[1..] == texts[1..] + [t];
      ListedAppend(texts[1..], t);
      if |texts| > 1 {
        assert texts[0] + [','] + (Listed(texts[1..]) + [','] + t) == texts[0] + [','] + Listed(texts[1..]) + [','] + t;
      }
    }
  }

  lemma SortedRepresentable(refs: seq<IpfsReference>, sorted: seq<IpfsReference>)
    requires AllRepresentable(refs) && multiset(sorted) == multiset(refs)
    ensures AllRepresentable(sorted)
  {
    hide Representable;
    forall i | 0 <= i < |sorted| ensures Representable(sorted[i]) {
      assert sorted[i] in multiset(sorted) && sorted[i] in multiset(refs);
    }
  }

  // The canonical text of a list, in sorted order.
  method CanonicalIpfsReferences(references: seq<IpfsReference>) returns (encoded: string)
    requires AllRepresentable(references)
    ensures AllRepresentable(Sort(references, ReferenceLess))
    ensures encoded == Listed(TextsOf(Sort(references, ReferenceLess)))
  {
    hide Sort, Encode, ReferenceText, Listed, Representable;
    var sorted := Sort(references, ReferenceLess);
    SortedRepresentable(references, sorted);
    ghost var texts := TextsOf(sorted);
    encoded := "";
    var index := 0;
    NothingListed();
    assert texts[..0] == [];
    while index < |sorted|
      invariant 0 <= index <= |sorted| && encoded == Listed(texts[..index])
    {
      if index > 0 {
        encoded := encoded + [','];
      }
      var text := PrintReference(sorted[index]);
      ListedAppend(texts[..index], text);
      assert texts[..index + 1] == texts[..index] + [text];
      encoded := encoded + text;
      index := index + 1;
    }
    assert texts[..index] == texts;
  }

  lemma NothingListed()
    ensures Listed([]) == ""
  {}

  method PrintReference(r: IpfsReference) returns (text: string)
    requires Representable(r)
    ensures text == ReferenceText(r)
  {
    hide Encode, IntText;
    var category := PercentEncodeComponent(r.category);
    var cid := PercentEncodeComponent(r.cid);
    var filename := PercentEncodeComponent(r.filename);
    var contentType := PercentEncodeComponent(r.contentType);
    text := category + "|" + (cid + "|" + (filename + "|" + (contentType + "|" + IntText(r.size))));
  }

  // ---- round trip ----

  // Reading a canonical list gives back the sorted references exactly when all are acceptable and the text is not too
  // long; otherwise it is refused.
  method RoundTrip(references: seq<IpfsReference>) returns (encoded: string, read: Option<seq<IpfsReference>>)
    requires AllRepresentable(references)
    ensures read == if AllAcceptable(references)
      && |encoded| <= MAX_LIST then Some(Sort(references, ReferenceLess)) else None
  {
    hide Sort, Listed, TextsOf, ParsedAll, Split, Acceptable, Representable;
    encoded := CanonicalIpfsReferences(references);
    read := ParseIpfsReferences(encoded);
    ListReads(references, Sort(references, ReferenceLess), encoded);
  }

  lemma ListReads(references: seq<IpfsReference>, sorted: seq<IpfsReference>, encoded: string)
    requires AllRepresentable(references) && multiset(sorted) == multiset(references) && AllRepresentable(sorted)
    requires encoded == Listed(TextsOf(sorted))
    ensures AllAcceptable(sorted) <==> AllAcceptable(references)
    ensures references == [] ==> encoded == "" && sorted == []
    ensures references != [] ==>
      encoded != "" && ParsedAll(Split(encoded, ',')) == if AllAcceptable(sorted) then Some(sorted) else None
  {
    hide ParsedAll, Split, Acceptable, Representable, ReferenceText;
    SameMembers(references, sorted);
    SameSize(references, sorted);
    if references != [] {
      var texts := TextsOf(sorted);
      forall i | 0 <= i < |texts| ensures Without(texts[i], ',') { ReferencePieces(sorted[i]); }
      SplitListed(texts);
      AllRead(sorted);
      ListedSome(sorted);
    }
  }

  lemma SameMembers(s: seq<IpfsReference>, t: seq<IpfsReference>)
    requires multiset(s) == multiset(t)
    ensures AllAcceptable(s) <==> AllAcceptable(t)
  {
    hide Acceptable;
    forall x ensures x in s <==> x in t { assert x in multiset(s) <==> x in multiset(t); }
    if AllAcceptable(s) { forall i | 0 <= i < |t| ensures Acceptable(t[i]) { assert t[i] in t && t[i] in s; } }
    if AllAcceptable(t) { forall i | 0 <= i < |s| ensures Acceptable(s[i]) { assert s[i] in s && s[i] in t; } }
  }

  lemma ListedSome(refs: seq<IpfsReference>)
    requires AllRepresentable(refs) && refs != []
    ensures Listed(TextsOf(refs)) != ""
  {
    hide Encode, IntText;
    assert |ReferenceText(refs[0])| >= 1;
  }
}
