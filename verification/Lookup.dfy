/** Looking up a header of a received response, whose names `request` has lowercased. */
module Lookup {
  import opened Wrappers
  import opened Bytes
  import opened HttpParse
  import opened Head
  import opened Response
  import opened Receive

  predicate AllLower(pairs: Pairs) {
    forall i :: 0 <= i < |pairs| ==> Lower(pairs[i].0) == pairs[i].0
  }

  lemma AbsorbKeepsLower(f: Fields, h: Header)
    requires AllLower(f.headers)
    ensures AllLower(Absorb(f, h).headers)
  {
    if h.Field? { LowerExactly(Lower(h.name), h.name); LowerExactly(h.name, h.name); }
  }

  lemma {:induction false} ReadNamesAreLower(input: Text, started: bool, f: Fields, checked: bool)
    requires AllLower(f.headers)
    ensures var r := ReadHead(input, started, f, checked); r.Ok? ==> AllLower(r.value.headers)
    decreases |input|
  {
    var s := NextItem(input, started, checked);
    if s.item.None? {
    } else if s.item.value.Ok? {
      var h := s.item.value.value;
      AbsorbKeepsLower(f, h);
      ReadNamesAreLower(s.input, s.started, Absorb(f, h), checked);
    }
  }

  /** Section 3.2 of RFC 7230: field names are compared without regard to case. */
  function FindAnyCase(pairs: Pairs, name: Text): Option<Text> {
    if pairs == [] then None
    else if SameLetters(pairs[0].0, name) then Some(pairs[0].1)
    else FindAnyCase(pairs[1..], name)
  }

  lemma {:induction false} LowerNameIsFound(pairs: Pairs, name: Text)
    requires AllLower(pairs) && Lower(name) == name
    ensures Find(pairs, name) == FindAnyCase(pairs, name)
  {
    if pairs == [] {
    } else {
      assert AllLower(pairs[1..]);
      LowerExactly(pairs[0].0, name);
      LowerNameIsFound(pairs[1..], name);
    }
  }

  lemma {:induction false} OtherNameIsNotFound(pairs: Pairs, name: Text)
    requires AllLower(pairs) && Lower(name) != name
    ensures Find(pairs, name) == None
  {
    if pairs == [] {
    } else {
      assert AllLower(pairs[1..]);
      OtherNameIsNotFound(pairs[1..], name);
    }
  }

  /** `get` on a received response finds what a lookup without regard to case finds if and only
      if the name asked for has no upper-case letter, or there is no such header at all. */
  lemma ReceivedLookupExactly(stream: Text, name: Text, checked: bool)
    requires Understand(stream, checked).HeadOf?
    ensures var received := Understand(stream, checked).fields.headers;
            Find(received, name) == FindAnyCase(received, name) <==>
            NoUpper(name) || FindAnyCase(received, name).None?
  {
    var block := stream[..Position(stream, BLANK).at + 4];
    ReadNamesAreLower(block, false, NO_FIELDS, checked);
    LookupExactly(Understand(stream, checked).fields.headers, name);
  }

  lemma LookupExactly(pairs: Pairs, name: Text)
    requires AllLower(pairs)
    ensures Find(pairs, name) == FindAnyCase(pairs, name) <==> NoUpper(name) || FindAnyCase(pairs, name).None?
  {
    LowerExactly(name, name);
    if Lower(name) == name {
      LowerNameIsFound(pairs, name);
    } else {
      OtherNameIsNotFound(pairs, name);
    }
  }

  // ------------------------------------------------------------------------- content length

  /** The first length that a server announces, however it spells the name. */
  function AnnouncedLength(headers: Pairs): Option<nat> {
    if headers == [] then None
    else if SameLetters(headers[0].0, Ascii("Content-Length")) && ParseUsize(headers[0].1).Some? then ParseUsize(headers[0].1)
    else AnnouncedLength(headers[1..])
  }

  lemma {:induction false} LowercasedLength(headers: Pairs)
    ensures ContentLength(Lowered(headers)) == AnnouncedLength(headers)
  {
    if headers == [] {
    } else {
      IsContentLength(headers[0].0);
      assert Lowered(headers)[1..] == Lowered(headers[1..]);
      LowercasedLength(headers[1..]);
    }
  }

  lemma IsContentLength(name: Text)
    ensures Lower(name) == CONTENT_LENGTH <==> SameLetters(name, Ascii("Content-Length"))
  {
    Response.Spelling();
    var spelled := Ascii("Content-Length");
    assert Lower(spelled) == CONTENT_LENGTH by {
      forall i | 0 <= i < |spelled| ensures Lower(spelled)[i] == CONTENT_LENGTH[i] {}
    }
    LowerExactly(name, spelled);
  }

  /** The length announced in a printed head, in any spelling of its name, is what limits the body
      of the response. */
  lemma AnnouncedLengthIsTheLimit(page: Page, rest: Text, checked: bool)
    requires page.Sound(checked)
    ensures var v := Understand(page.Head() + rest, checked);
            v.HeadOf? && ContentLength(v.fields.headers) == AnnouncedLength(page.headers)
  {
    PrintedHeadIsUnderstood(page.version, page.code, page.reason, page.headers, rest, checked);
    LowercasedLength(page.headers);
  }
}
