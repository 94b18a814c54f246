/** Reading a response head: the line iterator of src/httparse.rs:89-116 and the loop of
    src/lib.rs:83-99 that consumes it. */
module Head {
  import opened Wrappers
  import opened Bytes
  import opened Trim
  import opened HttpParse

  /** What one call of the iterator yields, and its state afterwards. */
  datatype Step = Step(item: Option<Parsed<Header>>, input: Text, started: bool)

  function NextItem(input: Text, started: bool, checked: bool): (r: Step)
    ensures r.item.Some? ==> |r.input| < |input|
  {
    match Position(input, CRLF)
    case Nowhere => Step(None, input, started)
    case Found(i) =>
      var line, rest := input[..i], input[i + 2..];
      if !started then Step(Some(ParseStatus(line)), rest, true)
      else if line != [] then Step(Some(ParseHeader(line, checked)), rest, true)
      else Step(None, rest, true)
  }

  class HeaderLines {
    var input: Text
    var started: bool
    const checked: bool

    constructor (input: Text, checked: bool)
      ensures this.input == input && !started && this.checked == checked
    {
      this.input, started, this.checked := input, false, checked;
    }

    method Next() returns (item: Option<Parsed<Header>>)
      modifies this
      ensures Step(item, input, started) == NextItem(old(input), old(started), checked)
    {
      var idx := Position(input, CRLF);
      if idx.Nowhere? {
        return None;
      }
      var line := input[..idx.at];
      input := input[idx.at + 2..];
      if !started {
        started := true;
        return Some(ParseStatus(line));
      } else if |line| > 0 {
        return Some(ParseHeader(line, checked));
      } else {
        return None;
      }
    }
  }

  /** The fields `request` collects.  Its `reason` is the second field of `Header::Status`,
      which holds the version (src/lib.rs:91-93 against src/httparse.rs:100-101). */
  datatype Fields = Fields(status: nat, reason: Text, headers: Pairs)

  const NO_FIELDS := Fields(0, [], [])

  /** `to_lowercase` on ASCII text. */
  function Lower(t: Text): (r: Text)
    ensures |r| == |t|
  {
    seq(|t|, i requires 0 <= i < |t| => if 65 <= t[i] <= 90 then t[i] + 32 else t[i])
  }

  predicate Upper(b: byte) { 'A' as int <= b as int <= 'Z' as int }

  /** Equal but for the case of letters: an upper-case letter and its lower-case one are 32 apart. */
  predicate SameLetter(a: byte, b: byte) {
    || a == b
    || (Upper(a) && b as int == a as int + 32)
    || (Upper(b) && a as int == b as int + 32)
  }

  predicate SameLetters(a: Text, b: Text) {
    |a| == |b| && forall i :: 0 <= i < |a| ==> SameLetter(a[i], b[i])
  }

  predicate NoUpper(t: Text) {
    forall i :: 0 <= i < |t| ==> !Upper(t[i])
  }

  /** Lowercasing leaves no upper-case letter and changes nothing but the case of letters; and
      that determines it: two texts have the same lower case exactly when they are the same text
      but for case, and only a text without upper-case letters is its own. */
  lemma LowerExactly(a: Text, b: Text)
    ensures NoUpper(Lower(a)) && SameLetters(a, Lower(a))
    ensures Lower(a) == Lower(b) <==> SameLetters(a, b)
    ensures Lower(a) == a <==> NoUpper(a)
  {
    if Lower(a) == Lower(b) {
      forall i | 0 <= i < |a| ensures SameLetter(a[i], b[i]) { assert Lower(a)[i] == Lower(b)[i]; }
    }
    if Lower(a) == a {
      forall i | 0 <= i < |a| ensures !Upper(a[i]) { assert Lower(a)[i] == a[i]; }
    }
  }

  function Absorb(f: Fields, h: Header): Fields {
    match h
    case Status(code, version, _) => f.(status := code, reason := version)
    case Field(name, value) => f.(headers := f.headers + [(Lower(name), value)])
  }

  /** The loop over the iterator: it ends at the first `None`, or with the first error. */
  function ReadHead(input: Text, started: bool, f: Fields, checked: bool): Parsed<Fields>
    decreases |input|
  {
    var s := NextItem(input, started, checked);
    match s.item
    case None => Ok(f)
    case Some(Err(e)) => Err(e)
    case Some(Panic) => Panic
    case Some(Ok(h)) => ReadHead(s.input, s.started, Absorb(f, h), checked)
  }

  /** All items up to the iterator's first `None`, and the input it has left then. */
  function Items(input: Text, started: bool, checked: bool): (seq<Parsed<Header>>, Text)
    decreases |input|
  {
    var s := NextItem(input, started, checked);
    if s.item.None? then ([], s.input)
    else
      var (more, rest) := Items(s.input, s.started, checked);
      ([s.item.value] + more, rest)
  }

  // ----------------------------------------------------------------- lines against framing

  predicate HeadLines(ls: seq<Text>) {
    OneLines(ls) && forall i :: 0 <= i < |ls| ==> ls[i] != []
  }

  function FieldItems(ls: seq<Text>, checked: bool): (r: seq<Parsed<Header>>)
    ensures |r| == |ls|
  {
    if ls == [] then [] else [ParseHeader(ls[0], checked)] + FieldItems(ls[1..], checked)
  }

  /** The iterator's view of a head followed by anything: one line at a time. */
  lemma NextLine(l: Text, tail: Text, started: bool, checked: bool)
    requires OneLine(l)
    ensures NextItem(l + CRLF + tail, started, checked) ==
            if !started then Step(Some(ParseStatus(l)), tail, true)
            else if l != [] then Step(Some(ParseHeader(l, checked)), tail, true)
            else Step(None, tail, true)
  {
    FirstBreak(l, tail);
    var s := l + CRLF + tail;
    assert s[..|l|] == l && s[|l| + 2..] == tail;
  }

  lemma ItemsOfLine(l: Text, tail: Text, checked: bool)
    requires OneLine(l) && l != []
    ensures var (more, rest) := Items(tail, true, checked);
            Items(l + CRLF + tail, true, checked) == ([ParseHeader(l, checked)] + more, rest)
  {
    NextLine(l, tail, true, checked);
  }

  lemma {:induction false} ItemsAfterStatus(ls: seq<Text>, rest: Text, checked: bool)
    requires HeadLines(ls)
    ensures Items(Lines(ls) + CRLF + rest, true, checked) == (FieldItems(ls, checked), rest)
    decreases |ls|
  {
    if ls == [] {
      assert Lines(ls) + CRLF + rest == [] + CRLF + rest;
      NextLine([], rest, true, checked);
    } else {
      var tail := Lines(ls[1..]) + CRLF + rest;
      assert Lines(ls) + CRLF + rest == ls[0] + CRLF + tail;
      ItemsOfLine(ls[0], tail, checked);
      ItemsAfterStatus(ls[1..], rest, checked);
    }
  }

  /** The lines of a head, as the iterator cuts them. */
  function BlockLines(block: Text): seq<Text>
    decreases |block|
  {
    match Position(block, CRLF)
    case Nowhere => []
    case Found(i) => if i == 0 then [] else [block[..i]] + BlockLines(block[i + 2..])
  }

  /** A block as the receive loop cuts it: CRLFCRLF is its suffix and occurs nowhere else. */
  predicate Framed(block: Text) {
    |block| >= 4 && Position(block, BLANK) == Found(|block| - 4)
  }

  /** The part of a framed block after a line break that is not yet the last one. */
  lemma TailIsFramed(block: Text, i: nat)
    requires Framed(block) && At(block, CRLF, i) && i + 6 <= |block|
    ensures Framed(block[i + 2..]) && !At(block[i + 2..], CRLF, 0)
  {
    var n := |block|;
    var head, tail := block[..i + 2], block[i + 2..];
    assert block == head + tail;
    AtFour(block, i);
    AtSuffix(head, tail, CRLF, 0);
    AtSuffix(head, tail, BLANK, n - 6 - i);
    forall j: nat | j < n - 6 - i ensures !At(tail, BLANK, j) { AtSuffix(head, tail, BLANK, j); }
    PositionIs(tail, BLANK, n - 6 - i);
  }

  /** Its first line break is the first half of the final CRLFCRLF, or comes well before. */
  lemma FirstBreakOfBlock(block: Text)
    requires Framed(block)
    ensures var i := Position(block, CRLF);
            && i.Found?
            && (i.at + 6 <= |block| || (i.at == |block| - 4 && block[i.at + 2..] == CRLF))
  {
    var n := |block|;
    AtFour(block, n - 4);
    var i := Position(block, CRLF).at;
    assert i <= n - 4;
    AtTwo(block, i);
    AtTwo(block, n - 4);
  }

  lemma CutLine(block: Text, i: nat)
    requires Position(block, CRLF) == Found(i)
    ensures block == block[..i] + CRLF + block[i + 2..] && OneLine(block[..i])
  {
    assert block[i..i + 2] == CRLF;
    forall j: nat | j < i ensures !At(block[..i], CRLF, j) { AtPrefix(block, CRLF, i, j); }
  }

  lemma OneMoreLine(l: Text, more: seq<Text>)
    requires OneLine(l) && l != [] && HeadLines(more)
    ensures HeadLines([l] + more) && Lines([l] + more) + CRLF == l + CRLF + (Lines(more) + CRLF)
  {
    assert ([l] + more)[1..] == more;
  }

  /** Such a block whose first line is not empty is its lines, rejoined with CRLF. */
  lemma {:induction false} BlockIsItsLines(block: Text)
    requires Framed(block) && !At(block, CRLF, 0)
    ensures BlockLines(block) != [] && HeadLines(BlockLines(block))
    ensures block == Lines(BlockLines(block)) + CRLF
    decreases |block|
  {
    FirstBreakOfBlock(block);
    var i := Position(block, CRLF).at;
    var l, tail := block[..i], block[i + 2..];
    CutLine(block, i);
    if i == |block| - 4 {
      PositionIs(tail, CRLF, 0);
      assert BlockLines(tail) == [] && Lines([]) + CRLF == tail;
    } else {
      TailIsFramed(block, i);
      BlockIsItsLines(tail);
    }
    OneMoreLine(l, BlockLines(tail));
  }

  /** The iterator agrees with the framing: on such a block it yields exactly one item per
      non-empty line, the first parsed as the status, and stops exactly at the end. */
  lemma IteratorMatchesFraming(block: Text, checked: bool)
    requires Framed(block) && !At(block, CRLF, 0)
    ensures var ls := BlockLines(block);
            && ls != []
            && block == Lines(ls) + CRLF
            && Items(block, false, checked) == ([ParseStatus(ls[0])] + FieldItems(ls[1..], checked), [])
  {
    BlockIsItsLines(block);
    var ls := BlockLines(block);
    var tail := Lines(ls[1..]) + CRLF + [];
    assert block == ls[0] + CRLF + tail;
    NextLine(ls[0], tail, false, checked);
    ItemsAfterStatus(ls[1..], [], checked);
  }

  /** A block that starts with an empty line is the one shape on which the status parser gets
      nothing to look at, and panics. */
  lemma EmptyFirstLinePanics(block: Text, checked: bool)
    requires At(block, CRLF, 0)
    ensures ReadHead(block, false, NO_FIELDS, checked) == Panic
  {
    PositionIs(block, CRLF, 0);
    assert block[..0] == [];
    assert Split([], SPACE) == [[]];
  }

  // ------------------------------------------------------- which heads panic, which are read

  predicate FieldAccepted(line: Text, checked: bool) { COLON in line && !HeaderPanics(line, checked) }

  /** Some header line panics, and all earlier ones are accepted. */
  predicate SomeFieldPanics(ls: seq<Text>, checked: bool) {
    exists i :: 0 <= i < |ls| && HeaderPanics(ls[i], checked)
                && forall j :: 0 <= j < i ==> FieldAccepted(ls[j], checked)
  }

  predicate AllFieldsAccepted(ls: seq<Text>, checked: bool) {
    forall i :: 0 <= i < |ls| ==> FieldAccepted(ls[i], checked)
  }

  lemma FirstField(ls: seq<Text>, checked: bool)
    requires ls != []
    ensures SomeFieldPanics(ls, checked) <==>
            HeaderPanics(ls[0], checked) || (FieldAccepted(ls[0], checked) && SomeFieldPanics(ls[1..], checked))
    ensures AllFieldsAccepted(ls, checked) <==> FieldAccepted(ls[0], checked) && AllFieldsAccepted(ls[1..], checked)
  {
    var more := ls[1..];
    if SomeFieldPanics(ls, checked) && !HeaderPanics(ls[0], checked) {
      var i :| 0 <= i < |ls| && HeaderPanics(ls[i], checked) && forall j :: 0 <= j < i ==> FieldAccepted(ls[j], checked);
      assert forall j :: 0 <= j < i - 1 ==> more[j] == ls[j + 1];
      assert HeaderPanics(more[i - 1], checked);
    }
    if FieldAccepted(ls[0], checked) && SomeFieldPanics(more, checked) {
      var i :| 0 <= i < |more| && HeaderPanics(more[i], checked) && forall j :: 0 <= j < i ==> FieldAccepted(more[j], checked);
      forall j | 0 <= j < i + 1 ensures FieldAccepted(ls[j], checked) {
        if j > 0 { assert ls[j] == more[j - 1]; }
      }
      assert HeaderPanics(ls[i + 1], checked);
    }
    forall i | AllFieldsAccepted(more, checked) && 0 < i < |ls| ensures FieldAccepted(ls[i], checked) {
      assert ls[i] == more[i - 1];
    }
  }

  /** Reading header lines one by one. */
  function ReadFields(ls: seq<Text>, f: Fields, checked: bool): Parsed<Fields> {
    if ls == [] then Ok(f)
    else
      var r := ParseHeader(ls[0], checked);
      if r.Ok? then ReadFields(ls[1..], Absorb(f, r.value), checked)
      else if r.Err? then Err(r.error) else Panic
  }

  lemma {:induction false} ReadsFields(ls: seq<Text>, rest: Text, f: Fields, checked: bool)
    requires HeadLines(ls)
    ensures ReadHead(Lines(ls) + CRLF + rest, true, f, checked) == ReadFields(ls, f, checked)
    decreases |ls|, 1
  {
    if ls == [] {
      ReadEnd(rest, f, checked);
      assert Lines(ls) + CRLF + rest == CRLF + rest;
    } else {
      ReadFieldLine(ls, rest, f, checked);
      var h := ParseHeader(ls[0], checked);
      if h.Ok? { NextFields(ls, rest, Absorb(f, h.value), checked); }
    }
  }

  lemma {:induction false} NextFields(ls: seq<Text>, rest: Text, f: Fields, checked: bool)
    requires HeadLines(ls) && ls != []
    ensures ReadHead(Lines(ls[1..]) + CRLF + rest, true, f, checked) == ReadFields(ls[1..], f, checked)
    decreases |ls|, 0
  {
    ReadsFields(ls[1..], rest, f, checked);
  }

  lemma {:induction false} FieldsOutcome(ls: seq<Text>, f: Fields, checked: bool)
    ensures ReadFields(ls, f, checked).Panic? <==> SomeFieldPanics(ls, checked)
    ensures ReadFields(ls, f, checked).Ok? <==> AllFieldsAccepted(ls, checked)
    decreases |ls|
  {
    if ls == [] {
    } else {
      FieldOutcomeFirst(ls, checked);
      var h := ParseHeader(ls[0], checked);
      if h.Ok? { FieldsOutcome(ls[1..], Absorb(f, h.value), checked); }
    }
  }

  lemma FieldOutcomeFirst(ls: seq<Text>, checked: bool)
    requires ls != []
    ensures var r := ParseHeader(ls[0], checked);
            && (SomeFieldPanics(ls, checked) <==> r.Panic? || (r.Ok? && SomeFieldPanics(ls[1..], checked)))
            && (AllFieldsAccepted(ls, checked) <==> r.Ok? && AllFieldsAccepted(ls[1..], checked))
  {
    HeaderOutcome(ls[0], checked);
    FirstField(ls, checked);
  }

  lemma ReadFieldLine(ls: seq<Text>, rest: Text, f: Fields, checked: bool)
    requires HeadLines(ls) && ls != []
    ensures var r := ParseHeader(ls[0], checked);
            ReadHead(Lines(ls) + CRLF + rest, true, f, checked) ==
            if r.Ok? then ReadHead(Lines(ls[1..]) + CRLF + rest, true, Absorb(f, r.value), checked)
            else if r.Err? then Err(r.error) else Panic
  {
    var tail := Lines(ls[1..]) + CRLF + rest;
    assert Lines(ls) + CRLF + rest == ls[0] + CRLF + tail;
    NextLine(ls[0], tail, true, checked);
  }

  /** The blocks on which reading a head panics. */
  predicate BlockPanics(block: Text, checked: bool) {
    var ls := BlockLines(block);
    ls == [] || StatusPanics(ls[0]) || (StatusAccepted(ls[0]) && SomeFieldPanics(ls[1..], checked))
  }

  /** The blocks that are read. */
  predicate BlockAccepted(block: Text, checked: bool) {
    var ls := BlockLines(block);
    ls != [] && StatusAccepted(ls[0]) && AllFieldsAccepted(ls[1..], checked)
  }

  lemma HeadLinesOutcome(ls: seq<Text>, checked: bool)
    requires HeadLines(ls) && ls != []
    ensures var r := ReadHead(Lines(ls) + CRLF, false, NO_FIELDS, checked);
            && (r.Panic? <==> StatusPanics(ls[0]) || (StatusAccepted(ls[0]) && SomeFieldPanics(ls[1..], checked)))
            && (r.Ok? <==> StatusAccepted(ls[0]) && AllFieldsAccepted(ls[1..], checked))
  {
    ReadStatusLine(ls, checked);
    StatusOutcome(ls[0]);
    var h := ParseStatus(ls[0]);
    if h.Ok? { FieldsOutcome(ls[1..], Absorb(NO_FIELDS, h.value), checked); }
  }

  lemma ReadStatusLine(ls: seq<Text>, checked: bool)
    requires HeadLines(ls) && ls != []
    ensures var h := ParseStatus(ls[0]);
            ReadHead(Lines(ls) + CRLF, false, NO_FIELDS, checked) ==
            if h.Ok? then ReadFields(ls[1..], Absorb(NO_FIELDS, h.value), checked)
            else if h.Err? then Err(h.error) else Panic
  {
    var tail := Lines(ls[1..]) + CRLF;
    assert Lines(ls) + CRLF == ls[0] + CRLF + tail && tail + [] == tail;
    NextLine(ls[0], tail, false, checked);
    var h := ParseStatus(ls[0]);
    if h.Ok? { ReadsFields(ls[1..], [], Absorb(NO_FIELDS, h.value), checked); }
  }

  /** Exactly which framed blocks panic and which are read, in terms of their lines; all others
      are a parse error. */
  lemma HeadOutcome(block: Text, checked: bool)
    requires Framed(block)
    ensures ReadHead(block, false, NO_FIELDS, checked).Panic? <==> BlockPanics(block, checked)
    ensures ReadHead(block, false, NO_FIELDS, checked).Ok? <==> BlockAccepted(block, checked)
  {
    if At(block, CRLF, 0) {
      EmptyFirstLinePanics(block, checked);
      NoLinesAtAll(block);
    } else {
      BlockIsItsLines(block);
      HeadLinesOutcome(BlockLines(block), checked);
    }
  }

  lemma NoLinesAtAll(block: Text)
    requires At(block, CRLF, 0)
    ensures BlockLines(block) == []
  {
    PositionIs(block, CRLF, 0);
  }

  // ------------------------------------------------------------------------ status bound

  lemma {:induction false} StatusStays(input: Text, f: Fields, checked: bool)
    ensures var r := ReadHead(input, true, f, checked); r.Ok? ==> r.value.status == f.status
    decreases |input|
  {
    var s := NextItem(input, true, checked);
    if s.item.Some? && s.item.value.Ok? {
      var line := input[..Position(input, CRLF).at];
      if line != [] { ParsedFieldsAreClean(line, checked); }
      StatusStays(s.input, Absorb(f, s.item.value.value), checked);
    }
  }

  /** A head that contains a line break yields a status between 100 and 599, never the initial
      0, or no head at all; so `StatusCode::from_u16(..).unwrap()` cannot panic. */
  lemma StatusBound(block: Text, checked: bool)
    requires Position(block, CRLF).Found?
    ensures var r := ReadHead(block, false, NO_FIELDS, checked); r.Ok? ==> 100 <= r.value.status <= 599
  {
    var s := NextItem(block, false, checked);
    var line := block[..Position(block, CRLF).at];
    if ParseStatus(line).Ok? {
      var x, code, rest := StatusSound(line);
      StatusStays(s.input, Absorb(NO_FIELDS, s.item.value.value), checked);
    }
  }

  // -------------------------------------------------------------------------- round trip

  function FieldLines(headers: Pairs): (r: seq<Text>)
    ensures |r| == |headers|
  {
    if headers == [] then [] else [PrintHeader(headers[0].0, headers[0].1)] + FieldLines(headers[1..])
  }

  function PrintHead(version: Text, code: nat, reason: Text, headers: Pairs): Text
    requires code < 1000
  {
    Lines([PrintStatus(version, code, reason)] + FieldLines(headers)) + CRLF
  }

  function Lowered(headers: Pairs): (r: Pairs)
    ensures |r| == |headers|
  {
    if headers == [] then [] else [(Lower(headers[0].0), headers[0].1)] + Lowered(headers[1..])
  }

  predicate PrintableLine(h: (Text, Text), checked: bool) {
    Printable(h.0, h.1, checked) && OneLine(PrintHeader(h.0, h.1))
  }

  predicate PrintableHeaders(headers: Pairs, checked: bool) {
    forall i :: 0 <= i < |headers| ==> PrintableLine(headers[i], checked)
  }

  lemma ReadLine(name: Text, value: Text, tail: Text, f: Fields, checked: bool)
    requires Printable(name, value, checked) && OneLine(PrintHeader(name, value))
    ensures ReadHead(PrintHeader(name, value) + CRLF + tail, true, f, checked) ==
            ReadHead(tail, true, f.(headers := f.headers + [(Lower(name), value)]), checked)
  {
    NextLine(PrintHeader(name, value), tail, true, checked);
    HeaderRoundTrip(name, value, checked);
  }

  lemma ReadEnd(rest: Text, f: Fields, checked: bool)
    ensures ReadHead(CRLF + rest, true, f, checked) == Ok(f)
  {
    assert CRLF + rest == [] + CRLF + rest;
    NextLine([], rest, true, checked);
  }

  lemma FieldText(headers: Pairs, rest: Text)
    requires headers != []
    ensures Lines(FieldLines(headers)) + CRLF + rest ==
            PrintHeader(headers[0].0, headers[0].1) + CRLF + (Lines(FieldLines(headers[1..])) + CRLF + rest)
  {
    assert FieldLines(headers)[1..] == FieldLines(headers[1..]);
  }

  lemma LoweredAppend(before: Pairs, headers: Pairs)
    requires headers != []
    ensures before + Lowered(headers) == before + [(Lower(headers[0].0), headers[0].1)] + Lowered(headers[1..])
  {}

  lemma {:induction false} FieldsRoundTrip(headers: Pairs, rest: Text, f: Fields, checked: bool)
    requires PrintableHeaders(headers, checked)
    ensures ReadHead(Lines(FieldLines(headers)) + CRLF + rest, true, f, checked) ==
            Ok(f.(headers := f.headers + Lowered(headers)))
    decreases |headers|
  {
    if headers == [] {
      assert Lines(FieldLines(headers)) + CRLF + rest == CRLF + rest;
      ReadEnd(rest, f, checked);
      assert f.headers + Lowered(headers) == f.headers;
    } else {
      var (name, value) := headers[0];
      var tail := Lines(FieldLines(headers[1..])) + CRLF + rest;
      FieldText(headers, rest);
      assert PrintableLine(headers[0], checked);
      ReadLine(name, value, tail, f, checked);
      var more := f.headers + [(Lower(name), value)];
      assert PrintableHeaders(headers[1..], checked);
      FieldsRoundTrip(headers[1..], rest, f.(headers := more), checked);
      LoweredAppend(f.headers, headers);
    }
  }

  function OkFields(headers: Pairs): seq<Parsed<Header>> {
    if headers == [] then [] else [Ok(Field(headers[0].0, headers[0].1))] + OkFields(headers[1..])
  }

  lemma {:induction false} PrintedFieldLines(headers: Pairs, checked: bool)
    requires PrintableHeaders(headers, checked)
    ensures HeadLines(FieldLines(headers))
  {
    if headers == [] {
    } else {
      assert PrintableLine(headers[0], checked);
      assert PrintHeader(headers[0].0, headers[0].1) != [];
      assert PrintableHeaders(headers[1..], checked);
      PrintedFieldLines(headers[1..], checked);
    }
  }

  lemma PrintedItem(h: (Text, Text), ls: seq<Text>, checked: bool)
    requires PrintableLine(h, checked)
    ensures FieldItems([PrintHeader(h.0, h.1)] + ls, checked) == [Ok(Field(h.0, h.1))] + FieldItems(ls, checked)
  {
    HeaderRoundTrip(h.0, h.1, checked);
    assert ([PrintHeader(h.0, h.1)] + ls)[1..] == ls;
  }

  lemma {:induction false} PrintedFieldItems(headers: Pairs, checked: bool)
    requires PrintableHeaders(headers, checked)
    ensures FieldItems(FieldLines(headers), checked) == OkFields(headers)
    decreases |headers|
  {
    if headers == [] {
    } else {
      assert PrintableLine(headers[0], checked);
      PrintedItem(headers[0], FieldLines(headers[1..]), checked);
      assert PrintableHeaders(headers[1..], checked);
      PrintedFieldItems(headers[1..], checked);
    }
  }

  lemma PrintHeadText(version: Text, code: nat, reason: Text, headers: Pairs, rest: Text)
    requires code < 1000
    ensures PrintHead(version, code, reason, headers) + rest ==
            PrintStatus(version, code, reason) + CRLF + (Lines(FieldLines(headers)) + CRLF + rest)
  {
    var l := PrintStatus(version, code, reason);
    LinesAppend([l], FieldLines(headers));
    assert Lines([l]) == l + CRLF;
  }

  /** Item by item: iterating over a printed head yields the code, the version and the first word
      of the reason, then every header in order, and leaves exactly what follows the head.  With
      `StatusRoundTrip`, the reason comes back whole if and only if it has no space. */
  lemma IteratorRoundTrip(version: Text, code: nat, reason: Text, headers: Pairs, rest: Text, checked: bool)
    requires 100 <= code <= 599 && SPACE !in version && OneLine(PrintStatus(version, code, reason))
    requires PrintableHeaders(headers, checked)
    ensures Items(PrintHead(version, code, reason, headers) + rest, false, checked) ==
            ([Ok(Status(code, version, Split(reason, SPACE)[0]))] + OkFields(headers), rest)
  {
    PrintHeadText(version, code, reason, headers, rest);
    var tail := Lines(FieldLines(headers)) + CRLF + rest;
    NextLine(PrintStatus(version, code, reason), tail, false, checked);
    StatusRoundTrip(version, code, reason);
    PrintedFieldItems(headers, checked);
    PrintedFieldLines(headers, checked);
    ItemsAfterStatus(FieldLines(headers), rest, checked);
  }

  /** Head round trip: what a server prints is what the client reads, in order, with lowercased
      names, and nothing of what follows the head is touched. */
  lemma HeadRoundTrip(version: Text, code: nat, reason: Text, headers: Pairs, rest: Text, checked: bool)
    requires 100 <= code <= 599 && SPACE !in version && OneLine(PrintStatus(version, code, reason))
    requires PrintableHeaders(headers, checked)
    ensures ReadHead(PrintHead(version, code, reason, headers) + rest, false, NO_FIELDS, checked) ==
            Ok(Fields(code, version, Lowered(headers)))
  {
    PrintHeadText(version, code, reason, headers, rest);
    var tail := Lines(FieldLines(headers)) + CRLF + rest;
    NextLine(PrintStatus(version, code, reason), tail, false, checked);
    StatusRoundTrip(version, code, reason);
    var f := Fields(code, version, []);
    FieldsRoundTrip(headers, rest, f, checked);
    assert f.headers + Lowered(headers) == Lowered(headers);
  }
}
