// Reading a flat object of strings: the inverse of printing event data.
module FlatObject {
  import opened Options
  import opened TextSpaces
  import opened JsonText
  import opened EventJson
  import opened JsonTree
  import opened JsonPrinted

  function MapOf(pairs: seq<Pair>): map<string, string> {
    if pairs == [] then map[]
    else MapOf(pairs[..|pairs| - 1])[pairs[|pairs| - 1].0 := pairs[|pairs| - 1].1]
  }

  // What an entry of strings reads as.
  predicate Legible(e: Entry) {
    AllReadable(e.key) && e.value.Str? && AllReadable(e.value.us)
  }

  function PairOf(e: Entry): Pair
    requires Legible(e)
  {
    (Meaning(e.key), Meaning(e.value.us))
  }

  predicate AllLegible(entries: seq<Entry>) {
    forall i :: 0 <= i < |entries| ==> Legible(entries[i])
  }

  function PairsIn(entries: seq<Entry>): (pairs: seq<Pair>)
    requires AllLegible(entries)
    ensures |pairs| == |entries| && forall i :: 0 <= i < |pairs| ==> pairs[i] == PairOf(entries[i])
  {
    seq(|entries|, i requires 0 <= i < |entries| => PairOf(entries[i]))
  }

  // The whole text is an object of strings.
  predicate IsFlat(json: string, v: Json) {
    v.List? && v.keyed && IsJson(false, json, v)
  }

  // ---- one member ----

  // An entry that the reader takes: a string, a colon and a string.
  lemma EntryIs(json: string, cursor: nat, f: Entry)
    ensures OneEnd(false, json, cursor, true, f) ==
      if !f.value.Str? || !(Quoted(json, cursor, f.key) && AllReadable(f.key)) then None
      else
        var colon := cursor + |Text(f.key)| + 2;
        var at := SkipTo(json, Past(json, colon));
        if Token(json, colon, ':') && Quoted(json, at, f.value.us) && AllReadable(f.value.us) then
          Some(at + |Text(f.value.us)| + 2)
        else None
  {
    hide OneEnd, JsonEnd, Quoted, Token, Past, SkipTo, AllReadable, AllStrict;
    MemberEnd(false, json, cursor, f);
    if f.value.Str? { StrEnd(false, json, Past(json, cursor + |Text(f.key)| + 2), f.value.us); }
  }

  lemma NoKey(json: string, cursor: nat)
    requires forall us :: Quoted(json, cursor, us) ==> !AllReadable(us)
    ensures NoEntry(false, json, cursor, true)
  {
    hide OneEnd, Quoted, AllReadable;
    forall f: Entry ensures OneEnd(false, json, cursor, true, f) == None { EntryIs(json, cursor, f); }
  }

  lemma NoValueBehind(json: string, cursor: nat, key: seq<Unit>, colon: nat)
    requires colon == cursor + |Text(key)| + 2 && forall us :: Quoted(json, cursor, us) ==> us == key
    requires Token(json, colon, ':') ==>
      forall us :: Quoted(json, SkipTo(json, Past(json, colon)), us) ==> !AllReadable(us)
    ensures NoEntry(false, json, cursor, true)
  {
    hide OneEnd, Quoted, AllReadable, Token, Past, SkipTo;
    forall f: Entry ensures OneEnd(false, json, cursor, true, f) == None { EntryIs(json, cursor, f); }
  }

  lemma MemberRead(json: string, cursor: nat, key: seq<Unit>, colon: nat, at: nat, value: seq<Unit>)
    requires colon == cursor + |Text(key)| + 2 && Quoted(json, cursor, key) && AllReadable(key)
    requires forall us :: Quoted(json, cursor, us) ==> us == key
    requires Token(json, colon, ':') && at == SkipTo(json, Past(json, colon))
    requires Quoted(json, at, value) && AllReadable(value) && forall us :: Quoted(json, at, us) ==> us == value
    ensures EntryRead(false, json, cursor, true, Entry(key, Str(value)), at + |Text(value)| + 2)
  {
    hide OneEnd, Quoted, AllReadable, Token, Past, SkipTo, Text;
    EntryIs(json, cursor, Entry(key, Str(value)));
    forall f: Entry | OneEnd(false, json, cursor, true, f).Some? ensures f == Entry(key, Str(value)) {
      EntryIs(json, cursor, f);
    }
  }

  // The member at the cursor: a string, a colon and a string.
  method ParseMember(json: string, cursor: nat) returns (entry: Option<Pair>, next: nat, ghost e: Entry)
    requires cursor <= |json|
    ensures cursor <= next <= |json|
    ensures entry.Some? ==>
      cursor < next && EntryRead(false, json, cursor, true, e, next) && Legible(e) && entry.value == PairOf(e)
    ensures entry.None? ==> NoEntry(false, json, cursor, true)
  {
    hide Text, Quoted, AllReadable, Meaning, SkipTo, NoEntry, EntryRead;
    e, next := Entry([], Str([])), cursor;
    ghost var us, vs;
    var key, value;
    key, next, us := ParseJsonString(json, cursor);
    if key.None? {
      NoKey(json, cursor);
      return None, cursor, e;
    }
    ghost var colon := next;
    next := SkipWhitespace(json, next);
    if next >= |json| || json[next] != ':' {
      NoValueBehind(json, cursor, us, colon);
      return None, next, e;
    }
    next := SkipWhitespace(json, next + 1);
    var before := next;
    value, next, vs := ParseJsonString(json, next);
    if value.None? {
      NoValueBehind(json, cursor, us, colon);
      return None, before, e;
    }
    MemberRead(json, cursor, us, colon, before, vs);
    e := Entry(us, Str(vs));
    return Some((key.value, value.value)), next, e;
  }

  // ---- the object ----

  lemma MapStep(entries: seq<Entry>, e: Entry)
    requires AllLegible(entries) && Legible(e)
    ensures AllLegible(entries + [e])
    ensures MapOf(PairsIn(entries + [e])) == MapOf(PairsIn(entries))[PairOf(e).0 := PairOf(e).1]
  {
    hide Legible, PairOf;
    assert PairsIn(entries + [e]) == PairsIn(entries) + [PairOf(e)];
    var pairs := PairsIn(entries) + [PairOf(e)];
    assert pairs[..|pairs| - 1] == PairsIn(entries);
  }

  // The object's end is the text's end, but for spaces.
  method AtEnd(json: string, cursor: nat, ghost v: Json) returns (ok: bool)
    requires cursor <= |json| && v.List? && v.keyed && ValueRead(false, json, 0, v, cursor)
    ensures ok ==> IsFlat(json, v) && forall w: Json :: IsFlat(json, w) ==> w == v
    ensures !ok ==> forall w: Json :: !IsFlat(json, w)
  {
    hide JsonEnd, SkipTo;
    var end := SkipWhitespace(json, cursor);
    ok := end == |json|;
  }

  lemma NotFlat(json: string)
    requires NoValue(false, json, 0) || !Token(json, 0, '{')
    ensures forall w: Json :: !IsFlat(json, w)
  {
    forall w: Json ensures !IsFlat(json, w) {
      if w.List? { ListUnfold(false, json, 0, w); }
    }
  }

  // The members read so far, of an object that has one.
  ghost predicate MembersSoFar(json: string, got: seq<Entry>, at: nat, found: map<string, string>) {
    && Token(json, 0, '{') && !Token(json, Past(json, 0), '}') && at <= |json|
    && ListSoFar(false, json, Past(json, 0), true, got, at) && AllLegible(got) && found == MapOf(PairsIn(got))
  }

  lemma NothingSoFar(json: string)
    requires Token(json, 0, '{') && !Token(json, Past(json, 0), '}')
    ensures MembersSoFar(json, [], Past(json, 0), map[])
  {
    hide ListSoFar;
    ListStart(false, json, Past(json, 0), true);
  }

  lemma MemberStep(json: string, got: seq<Entry>, at: nat, found: map<string, string>, e: Entry, next: nat)
    requires MembersSoFar(json, got, at, found) && EntryRead(false, json, SkipTo(json, at), true, e, next) && Legible(e)
    requires Token(json, next, ',')
    ensures MembersSoFar(json, got + [e], Past(json, next), found[PairOf(e).0 := PairOf(e).1])
  {
    hide ListSoFar, EntryRead, Legible, PairOf, MapOf, PairsIn, SkipTo, AllLegible;
    ListStep(false, json, Past(json, 0), true, got, at, e, next);
    MapStep(got, e);
  }

  lemma MembersEnd(json: string, got: seq<Entry>, at: nat, found: map<string, string>, e: Entry, next: nat)
    requires MembersSoFar(json, got, at, found) && EntryRead(false, json, SkipTo(json, at), true, e, next) && Legible(e)
    requires Token(json, next, '}')
    ensures ValueRead(false, json, 0, List(true, got + [e]), Past(json, next))
    ensures AllLegible(got + [e]) && MapOf(PairsIn(got + [e])) == found[PairOf(e).0 := PairOf(e).1]
  {
    hide ListSoFar, EntryRead, Legible, PairOf, MapOf, PairsIn, SkipTo, AllLegible, ValueRead, ListRead, Token, Past;
    OpenClose();
    ListDone(false, json, Past(json, 0), true, got, at, e, next);
    FilledRead(false, json, 0, true, List(true, got + [e]), Past(json, next));
    MapStep(got, e);
  }

  lemma OpenClose()
    ensures Open(true) == '{' && Close(true) == '}'
  {}

  lemma MembersStuck(json: string, got: seq<Entry>, at: nat, found: map<string, string>)
    requires MembersSoFar(json, got, at, found) && NoEntry(false, json, SkipTo(json, at), true)
    ensures forall w: Json :: !IsFlat(json, w)
  {
    hide ListSoFar, NoEntry, MapOf, PairsIn, SkipTo, AllLegible, Token, Past, NoList, IsFlat;
    OpenClose();
    ListStuck(false, json, Past(json, 0), true, got, at);
    NothingRead(false, json, 0, true);
    NotFlat(json);
  }

  lemma MembersBroken(json: string, got: seq<Entry>, at: nat, found: map<string, string>, e: Entry, next: nat)
    requires MembersSoFar(json, got, at, found) && EntryRead(false, json, SkipTo(json, at), true, e, next)
    requires !Token(json, next, ',') && !Token(json, next, '}')
    ensures forall w: Json :: !IsFlat(json, w)
  {
    hide ListSoFar, EntryRead, MapOf, PairsIn, SkipTo, AllLegible, Token, Past, NoList, IsFlat;
    OpenClose();
    ListBroken(false, json, Past(json, 0), true, got, at, e, next);
    NothingRead(false, json, 0, true);
    NotFlat(json);
  }

  lemma EndedEarly(json: string, at: nat)
    requires SkipTo(json, at) >= |json|
    ensures NoEntry(false, json, SkipTo(json, at), true)
  {
    hide SkipTo;
    var c := SkipTo(json, at);
    forall f: Entry ensures OneEnd(false, json, c, true, f) == None { EntryIs(json, c, f); }
  }

  lemma NoMembers(json: string)
    requires Token(json, 0, '{') && Token(json, Past(json, 0), '}')
    ensures ValueRead(false, json, 0, List(true, []), Past(json, Past(json, 0)))
    ensures AllLegible([]) && MapOf(PairsIn([])) == map[]
  {
    hide ValueRead, Token, Past;
    OpenClose();
    EmptyRead(false, json, 0, true);
  }

  // parse_flat_string_object. A text is read exactly when it is that of an object of strings, and as that object; of a
  // repeated name the last value counts.
  method ParseFlatStringObject(json: string) returns (fields: Option<map<string, string>>, ghost v: Json)
    ensures fields.Some? ==> IsFlat(json, v) && AllLegible(v.entries) && fields.value == MapOf(PairsIn(v.entries))
    ensures fields.Some? ==> forall w: Json :: IsFlat(json, w) ==> w == v
    ensures fields.None? ==> forall w: Json :: !IsFlat(json, w)
  {
    hide MapOf, PairsIn, PairOf, SkipTo, IsFlat, MembersSoFar, EntryRead, NoEntry, ValueRead, NoValue, AllLegible,
      Legible;
    var found: map<string, string> := map[];
    ghost var got: seq<Entry> := [];
    v := List(true, []);
    var cursor := SkipWhitespace(json, 0);
    if cursor >= |json| || json[cursor] != '{' {
      NotFlat(json);
      return None, v;
    }
    ghost var at := cursor + 1;
    cursor := SkipWhitespace(json, cursor + 1);
    if cursor < |json| && json[cursor] == '}' {
      NoMembers(json);
      var ok := AtEnd(json, cursor + 1, v);
      return if ok then Some(found) else None, v;
    }
    NothingSoFar(json);
    while cursor < |json|
      invariant at <= |json| && cursor == SkipTo(json, at) <= |json| && MembersSoFar(json, got, at, found)
      decreases |json| - cursor
    {
      var entry, next;
      ghost var e;
      entry, next, e := ParseMember(json, cursor);
      if entry.None? {
        MembersStuck(json, got, at, found);
        return None, v;
      }
      cursor := SkipWhitespace(json, next);
      if cursor >= |json| || (json[cursor] != '}' && json[cursor] != ',') {
        MembersBroken(json, got, at, found, e, next);
        return None, v;
      }
      if json[cursor] == '}' {
        MembersEnd(json, got, at, found, e, next);
        found := found[entry.value.0 := entry.value.1];
        v := List(true, got + [e]);
        var ok := AtEnd(json, cursor + 1, v);
        return if ok then Some(found) else None, v;
      }
      MemberStep(json, got, at, found, e, next);
      found := found[entry.value.0 := entry.value.1];
      got, at := got + [e], cursor + 1;
      cursor := SkipWhitespace(json, cursor + 1);
    }
    EndedEarly(json, at);
    MembersStuck(json, got, at, found);
    return None, v;
  }

  // ---- what the server prints is read back ----

  // A printed object is read as its pairs.
  lemma PrintedPairs(pairs: seq<Pair>)
    ensures IsFlat(ObjectText(pairs), TreeOf(pairs)) && AllLegible(EntriesOf(pairs))
    ensures PairsIn(EntriesOf(pairs)) == pairs
  {
    hide IsJson, ObjectText, AllReadable, Meaning, UnitsOf;
    PrintedIsJson(false, pairs);
    var entries := EntriesOf(pairs);
    forall i | 0 <= i < |pairs| ensures Legible(entries[i]) && PairOf(entries[i]) == pairs[i] {
      UnitsRead(pairs[i].0);
      UnitsRead(pairs[i].1);
    }
  }

  // What the server prints for a role's fields, the snapshot service reads as exactly those fields.
  method RoundTrip(role: string, fields: map<string, string>) returns (json: string, read: Option<map<string, string>>)
    ensures read == Some(map n | n in RoleEventFields(role) :: ValueIn(fields, n))
  {
    hide ObjectText, MapOf, RoleEventFields, PairsOf, IsFlat, AllLegible, PairsIn, EntriesOf;
    json := EventDataJson(role, fields);
    ghost var v;
    read, v := ParseFlatStringObject(json);
    PrintedPairs(PairsOf(RoleEventFields(role), fields));
    MapOfFields(RoleEventFields(role), fields);
  }

  lemma MapOfFields(names: seq<string>, fields: map<string, string>)
    ensures MapOf(PairsOf(names, fields)) == map n | n in names :: ValueIn(fields, n)
  {
    var pairs := PairsOf(names, fields);
    MapOfNames(pairs, names, fields);
  }

  lemma {:induction false} MapOfNames(pairs: seq<Pair>, names: seq<string>, fields: map<string, string>)
    requires |pairs| == |names| && forall i :: 0 <= i < |pairs| ==> pairs[i] == (names[i], ValueIn(fields, names[i]))
    ensures MapOf(pairs) == map n | n in names :: ValueIn(fields, n)
  {
    hide ValueIn;
    if pairs != [] {
      var k := |pairs| - 1;
      MapOfNames(pairs[..k], names[..k], fields);
      assert names == names[..k] + [names[k]];
    }
  }
}
