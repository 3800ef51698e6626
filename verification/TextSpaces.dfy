// Spaces as std::isspace sees them: skipping them in a text, and trimming a text.
module TextSpaces {

  predicate Space(c: char) {
    c == ' ' || '\t' <= c <= '\r'
  }

  // The first position from the cursor on that is not a space.
  function SkipTo(text: string, cursor: nat): (next: nat)
    ensures cursor <= next && (cursor <= |text| ==> next <= |text|) && (next < |text| ==> !Space(text[next]))
    ensures forall i :: cursor <= i < next ==> i < |text| && Space(text[i])
    decreases |text| - cursor
  {
    if cursor < |text| && Space(text[cursor]) then SkipTo(text, cursor + 1) else cursor
  }

  lemma SkipToIs(text: string, cursor: nat, next: nat)
    requires cursor <= next <= |text| && (next < |text| ==> !Space(text[next]))
    requires forall i :: cursor <= i < next ==> Space(text[i])
    ensures SkipTo(text, cursor) == next
  {
    var other := SkipTo(text, cursor);
  }

  method SkipWhitespace(text: string, cursor: nat) returns (next: nat)
    requires cursor <= |text|
    ensures next == SkipTo(text, cursor) && cursor <= next <= |text|
  {
    next := cursor;
    while next < |text| && Space(text[next])
      invariant cursor <= next <= |text| && forall i :: cursor <= i < next ==> Space(text[i])
    {
      next := next + 1;
    }
    SkipToIs(text, cursor, next);
  }

  // The text from its first character that is not a space.
  function SkipSpaces(s: string): (r: string)
    ensures r != "" ==> s != "" && !Space(r[0]) && r[|r| - 1] == s[|s| - 1]
  {
    if s != "" && Space(s[0]) then SkipSpaces(s[1..]) else s
  }

  function TrimBack(s: string): (r: string)
    ensures r != "" ==> s != "" && !Space(r[|r| - 1]) && r[0] == s[0]
  {
    if s != "" && Space(s[|s| - 1]) then TrimBack(s[..|s| - 1]) else s
  }

  // The text without the spaces around it.
  function Trim(s: string): (r: string)
    ensures r != "" ==> !Space(r[0]) && !Space(r[|r| - 1])
  {
    TrimBack(SkipSpaces(s))
  }

  lemma TrimmedAlready(s: string)
    requires s == "" || (!Space(s[0]) && !Space(s[|s| - 1]))
    ensures Trim(s) == s
  {}
}
