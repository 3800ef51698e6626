// The printed text of an object of strings, as a JSON text.
module JsonPrinted {
  import opened Options
  import opened TextSpaces
  import opened JsonText
  import opened EventJson
  import opened JsonTree

  // A printed string is a quoted string, and no space.
  lemma QuotedAt(text: string, cursor: nat, s: string)
    requires At(text, cursor, Q(s))
    ensures Quoted(text, cursor, UnitsOf(s)) && |Q(s)| == |Text(UnitsOf(s))| + 2 && text[cursor] == '\"'
  {
    hide Text, Readable, Strict;
    var t := Text(UnitsOf(s));
    AtBoth(text, cursor, "\"" + t, "\"");
    AtBoth(text, cursor, "\"", t);
    UnitsOk(s);
    assert text[cursor..cursor + 1][0] == text[cursor];
    assert text[cursor + 1 + |t|..cursor + 2 + |t|][0] == text[cursor + 1 + |t|];
    forall i | 0 <= i < |UnitsOf(s)| ensures UnitOk(UnitsOf(s)[i]) { ReadableOk(UnitsOf(s)[i]); }
  }

  // The parts of a printed member.
  lemma MemberSplit(json: string, cursor: nat, p: Pair)
    requires cursor <= |json|
    ensures At(json, cursor, Member(p)) ==>
      var colon := cursor + |Text(UnitsOf(p.0))| + 2;
      && Quoted(json, cursor, UnitsOf(p.0)) && Quoted(json, colon + 1, UnitsOf(p.1))
      && colon + 1 < |json| && json[colon] == ':' && !Space(json[colon + 1])
      && cursor + |Member(p)| == colon + 1 + |Text(UnitsOf(p.1))| + 2
  {
    hide Text, UnitsOf, Q, Quoted;
    if At(json, cursor, Member(p)) {
      AtBoth(json, cursor, Q(p.0), ":" + Q(p.1));
      AtBoth(json, cursor + |Q(p.0)|, ":", Q(p.1));
      QuotedAt(json, cursor, p.0);
      QuotedAt(json, cursor + |Q(p.0)| + 1, p.1);
      var colon := cursor + |Q(p.0)|;
      assert json[colon..colon + 1][0] == json[colon];
    }
  }

  // The tree of a printed object.
  function EntriesOf(pairs: seq<Pair>): (entries: seq<Entry>)
    ensures |entries| == |pairs|
    ensures forall i :: 0 <= i < |pairs| ==> entries[i] == Entry(UnitsOf(pairs[i].0), Str(UnitsOf(pairs[i].1)))
  {
    seq(|pairs|, i requires 0 <= i < |pairs| => Entry(UnitsOf(pairs[i].0), Str(UnitsOf(pairs[i].1))))
  }

  function TreeOf(pairs: seq<Pair>): Json {
    List(true, EntriesOf(pairs))
  }

  lemma PrintedGood(strict: bool, s: string)
    ensures Good(strict, UnitsOf(s))
  {
    UnitsOk(s);
  }

  lemma PrintedMember(strict: bool, text: string, cursor: nat, pairs: seq<Pair>, i: nat)
    requires cursor <= |text| && i < |pairs| && At(text, cursor, Member(pairs[i]))
    ensures EntryEnd(strict, text, SkipTo(text, cursor), TreeOf(pairs), i) == Some(cursor + |Member(pairs[i])|)
  {
    hide Text, UnitsOf, Quoted, Good, Member;
    var p := pairs[i];
    MemberSplit(text, cursor, p);
    PrintedGood(strict, p.0);
    PrintedGood(strict, p.1);
    QuotedStart(text, cursor, UnitsOf(p.0));
  }

  lemma QuotedStart(text: string, cursor: nat, us: seq<Unit>)
    requires Quoted(text, cursor, us)
    ensures SkipTo(text, cursor) == cursor
  {
    hide Starts;
  }

  // Behind an entry that ends at mid.
  lemma RestFrom(strict: bool, text: string, cursor: nat, v: Json, i: nat, mid: nat)
    requires v.List? && i < |v.entries| && EntryEnd(strict, text, SkipTo(text, cursor), v, i) == Some(mid)
    ensures RestEnd(strict, text, cursor, v, i) ==
      if i + 1 == |v.entries| then (if Token(text, mid, Close(v.keyed)) then Some(Past(text, mid)) else None)
      else if Token(text, mid, ',') then RestEnd(strict, text, Past(text, mid), v, i + 1)
      else None
  {
    hide EntryEnd, Token, Past, SkipTo, Close;
  }

  lemma LastMember(text: string, cursor: nat, pairs: seq<Pair>, i: nat)
    requires i + 1 == |pairs| && At(text, cursor, Members(pairs[i..]))
    ensures var mid := cursor + |Member(pairs[i])|;
      && At(text, cursor, Member(pairs[i])) && Token(text, mid, '}') && Past(text, mid) == mid + 1
      && mid + 1 == cursor + |Members(pairs[i..])| <= |text|
  {
    hide Member, At, Token, Past;
    assert pairs[i..] == [pairs[i]];
    AtBoth(text, cursor, Member(pairs[i]), "}");
    AtInside(text, cursor + |Member(pairs[i])|, "}");
    OneChar(text, cursor + |Member(pairs[i])|, '}');
  }

  lemma MoreMembers(text: string, cursor: nat, pairs: seq<Pair>, i: nat)
    requires i + 1 < |pairs| && At(text, cursor, Members(pairs[i..]))
    ensures var mid := cursor + |Member(pairs[i])|;
      && At(text, cursor, Member(pairs[i])) && Token(text, mid, ',') && Past(text, mid) == mid + 1 <= |text|
      && At(text, mid + 1, Members(pairs[i + 1..]))
      && mid + 1 + |Members(pairs[i + 1..])| == cursor + |Members(pairs[i..])|
  {
    hide Member, At, Token, Past;
    var rest := pairs[i..];
    assert rest[0] == pairs[i] && rest[1..] == pairs[i + 1..];
    var mid := cursor + |Member(pairs[i])|;
    AtBoth(text, cursor, Member(pairs[i]), "," + Members(rest[1..]));
    AtBoth(text, mid, ",", Members(rest[1..]));
    AtInside(text, mid, ",");
    OneChar(text, mid, ',');
  }

  lemma {:induction false} PrintedRest(strict: bool, text: string, cursor: nat, pairs: seq<Pair>, i: nat)
    requires cursor <= |text| && i < |pairs| && At(text, cursor, Members(pairs[i..]))
    ensures RestEnd(strict, text, cursor, TreeOf(pairs), i) == Some(cursor + |Members(pairs[i..])|)
    decreases |pairs| - i
  {
    hide Member, Members, EntryEnd, RestEnd, At, EntriesOf, Token, Past, SkipTo;
    var mid := cursor + |Member(pairs[i])|;
    if i + 1 == |pairs| {
      LastMember(text, cursor, pairs, i);
    } else {
      MoreMembers(text, cursor, pairs, i);
      PrintedRest(strict, text, mid + 1, pairs, i + 1);
    }
    PrintedMember(strict, text, cursor, pairs, i);
    RestFrom(strict, text, cursor, TreeOf(pairs), i, mid);
  }

  lemma AtInside(text: string, cursor: nat, t: string)
    requires At(text, cursor, t)
    ensures cursor + |t| <= |text|
  {}

  lemma OneChar(text: string, at: nat, c: char)
    requires At(text, at, [c]) && !Space(c)
    ensures Token(text, at, c) && Past(text, at) == at + 1
  {
    assert text[at..at + 1][0] == text[at];
  }

  // A printed object is the text of its tree, for both readers.
  lemma PrintedEnd(strict: bool, text: string, cursor: nat, pairs: seq<Pair>)
    requires cursor <= |text| && At(text, cursor, ObjectText(pairs))
    ensures JsonEnd(strict, text, cursor, TreeOf(pairs)) == Some(cursor + |ObjectText(pairs)|)
  {
    hide Member, At, RestEnd, EntriesOf;
    AtBoth(text, cursor, "{", Members(pairs));
    AtInside(text, cursor, "{");
    OneChar(text, cursor, '{');
    ListUnfold(strict, text, cursor, TreeOf(pairs));
    assert pairs[0..] == pairs;
    if pairs == [] {
      OneChar(text, cursor + 1, '}');
    } else {
      PrintedRest(strict, text, cursor + 1, pairs, 0);
    }
  }

  lemma PrintedIsJson(strict: bool, pairs: seq<Pair>)
    ensures IsJson(strict, ObjectText(pairs), TreeOf(pairs))
  {
    hide ObjectText, JsonEnd;
    var text := ObjectText(pairs);
    assert text[0..0 + |text|] == text;
    PrintedEnd(strict, text, 0, pairs);
  }
}
