/** The parsers of src/httparse.rs: one status line, one header line, and the line iterator. */
module HttpParse {
  import opened Bytes
  import opened Trim

  datatype ParseError =
    | WrongStatusReason
    | WrongStatusHeader(text: Text)
    | WrongStatusCode(text: Text)
    | WrongHeader(text: Text)

  datatype Parsed<+T> = Ok(value: T) | Err(error: ParseError) | Panic

  /** `Header`: for a status line the second field is the HTTP version, the third the reason. */
  datatype Header = Status(code: nat, version: Text, reason: Text) | Field(name: Text, value: Text)

  const HTTP: Text := [72, 84, 84, 80]
  const SLASH: byte := 47

  lemma Spelling()
    ensures HTTP == Ascii("HTTP") && [SLASH] == Ascii("/")
  {}

  // ------------------------------------------------------------------------- header lines

  function NameOf(first: Text, checked: bool): Trimmed {
    var r := RTrim(first, checked);
    if r.Trimmed? then Trimmed(TrimLeft(r.text)) else Underflow
  }

  function FieldOf(first: Text, second: Text, checked: bool): Parsed<Header> {
    var name, value := NameOf(first, checked), NameOf(second, checked);
    if name.Underflow? || value.Underflow? then Panic else Ok(Field(name.text, value.text))
  }

  /** `parse_header` (lines 43-49); `checked` says whether arithmetic overflow panics. */
  function ParseHeader(input: Text, checked: bool): Parsed<Header> {
    FieldOfPieces(Split(input, COLON), checked)
  }

  function FieldOfPieces(pieces: seq<Text>, checked: bool): Parsed<Header>
    requires pieces != []
  {
    var name := NameOf(pieces[0], checked);
    if name.Underflow? then Panic
    else if |pieces| < 2 then Err(WrongHeader(name.text))
    else FieldOf(pieces[0], pieces[1], checked)
  }

  /** The lines on which `parse_header` panics: `rtrim` runs out of bytes on the name, or on the
      value up to a second colon. */
  predicate HeaderPanics(line: Text, checked: bool) { SpentPiece(Split(line, COLON), checked) }

  predicate SpentPiece(pieces: seq<Text>, checked: bool)
    requires pieces != []
  {
    RTrimSpent(pieces[0], checked) || (|pieces| >= 2 && RTrimSpent(pieces[1], checked))
  }

  /** Every header line is accepted, refused for want of a colon, or one of those. */
  lemma HeaderOutcome(line: Text, checked: bool)
    ensures ParseHeader(line, checked).Panic? <==> HeaderPanics(line, checked)
    ensures ParseHeader(line, checked).Ok? <==> COLON in line && !HeaderPanics(line, checked)
    ensures ParseHeader(line, checked).Err? ==>
              ParseHeader(line, checked).error == WrongHeader(TrimLeft(RTrim(line, checked).text))
  {
    PiecesOutcome(Split(line, COLON), checked);
  }

  lemma PiecesOutcome(pieces: seq<Text>, checked: bool)
    requires pieces != []
    ensures var r, spent := FieldOfPieces(pieces, checked), SpentPiece(pieces, checked);
            && (r.Panic? <==> spent) && (r.Ok? <==> |pieces| >= 2 && !spent)
            && (r.Err? ==> RTrim(pieces[0], checked).Trimmed?
                           && r.error == WrongHeader(TrimLeft(RTrim(pieces[0], checked).text)))
  {
    NameOutcome(pieces[0], checked);
    if |pieces| >= 2 { NameOutcome(pieces[1], checked); }
  }

  lemma NameOutcome(piece: Text, checked: bool)
    ensures NameOf(piece, checked).Underflow? <==> RTrimSpent(piece, checked)
  {
    RTrimPanicsExactly(piece, checked);
  }

  lemma ParseHeaderAt(a: Text, b: Text, checked: bool)
    requires COLON !in a
    ensures ParseHeader(a + [COLON] + b, checked) == FieldOf(a, Split(b, COLON)[0], checked)
  {
    SplitAtFirst(a, COLON, b);
    TwoPieces(a, Split(b, COLON), checked);
  }

  lemma TwoPieces(a: Text, more: seq<Text>, checked: bool)
    requires more != []
    ensures FieldOfPieces([a] + more, checked) == FieldOf(a, more[0], checked)
  {}

  /** What a header line `a:b` means is `Trim a` and `Trim b`.  The parser returns that exactly
      when the line has no second colon and `rtrim` works on both parts. */
  lemma HeaderExact(a: Text, b: Text, checked: bool)
    requires COLON !in a
    ensures ParseHeader(a + [COLON] + b, checked) == Ok(Field(TrimBoth(a), TrimBoth(b))) <==>
            COLON !in b && RTrimWorks(a, checked) && RTrimWorks(b, checked)
  {
    ParseHeaderAt(a, b, checked);
    TrimExact(a, checked);
    if COLON in b {
      SecondColonCuts(b, checked);
    } else {
      TrimExact(b, checked);
    }
  }

  /** The value stops at the second colon, so the meant value is not even a candidate. */
  lemma SecondColonCuts(b: Text, checked: bool)
    requires COLON in b
    ensures NameOf(Split(b, COLON)[0], checked) != Trimmed(TrimBoth(b))
  {
    var c := Split(b, COLON)[0];
    PieceHasNoSeparator(b, COLON, 0);
    TrimKeepsColon(b);
    if NameOf(c, checked).Trimmed? { TrimWithin(c, checked); }
  }

  lemma {:induction false} TrimLeftKeeps(v: Text, x: byte)
    requires x != SPACE
    ensures x in v <==> x in TrimLeft(v)
  {
    if v != [] && v[0] == SPACE {
      assert v == [v[0]] + v[1..];
      TrimLeftKeeps(v[1..], x);
    }
  }

  lemma {:induction false} TrimRightKeeps(v: Text, x: byte)
    requires x != SPACE
    ensures x in v <==> x in TrimRight(v)
  {
    if v != [] && v[|v| - 1] == SPACE {
      assert v == v[..|v| - 1] + [v[|v| - 1]];
      TrimRightKeeps(v[..|v| - 1], x);
    }
  }

  lemma TrimKeepsColon(v: Text)
    ensures COLON in v <==> COLON in TrimBoth(v)
  {
    TrimRightKeeps(v, COLON);
    TrimLeftKeeps(TrimRight(v), COLON);
  }

  /** Whatever `rtrim` and `ltrim` return is part of their input and has no space at its ends. */
  lemma TrimWithin(v: Text, checked: bool)
    requires NameOf(v, checked).Trimmed?
    ensures Clean(NameOf(v, checked).text)
    ensures COLON !in v ==> COLON !in NameOf(v, checked).text
  {
    RTrimNeverKeepsSpaces(v, checked);
    var r := RTrim(v, checked).text;
    LeftOfNonSpace(r);
    if COLON !in v {
      TrimRightKeeps(v, COLON);
      assert COLON !in r;
      TrimLeftKeeps(r, COLON);
    }
  }

  lemma LeftOfNonSpace(r: Text)
    requires r == [] || r[|r| - 1] != SPACE
    ensures Clean(TrimLeft(r))
  {}

  /** Names and values that survive being printed as "name: value" and parsed. */
  predicate Printable(name: Text, value: Text, checked: bool) {
    && COLON !in name && Clean(name) && (name != [] || !checked)
    && COLON !in value && Clean(value) && value != []
  }

  function PrintHeader(name: Text, value: Text): Text { name + [COLON] + ([SPACE] + value) }

  lemma PaddedValue(value: Text, checked: bool)
    requires value != [] && Clean(value)
    ensures TrimRight([SPACE] + value) == [SPACE] + value && TrimBoth([SPACE] + value) == value
  {
    var padded := [SPACE] + value;
    assert padded[|padded| - 1] == value[|value| - 1];
    assert TrimRight(padded) == padded;
    assert padded[1..] == value;
    assert TrimLeft(padded) == TrimLeft(value);
  }

  /** Printing and parsing a header is the identity on exactly those.  An empty value panics. */
  lemma HeaderRoundTrip(name: Text, value: Text, checked: bool)
    ensures ParseHeader(PrintHeader(name, value), checked) == Ok(Field(name, value)) <==> Printable(name, value, checked)
    ensures COLON !in name && value == [] ==> ParseHeader(PrintHeader(name, value), checked).Panic?
  {
    var padded := [SPACE] + value;
    if ParseHeader(PrintHeader(name, value), checked).Ok? {
      ParsedFieldsAreClean(PrintHeader(name, value), checked);
    }
    if COLON !in name {
      ParseHeaderAt(name, padded, checked);
      if value == [] {
        assert NameOf(padded, checked).Underflow?;
      } else if Clean(name) && Clean(value) && COLON !in value {
        CleanStays(name);
        PaddedValue(value, checked);
        HeaderExact(name, padded, checked);
      }
    }
  }

  predicate CleanField(h: Header) {
    h.Field? && Clean(h.name) && Clean(h.value) && COLON !in h.name && COLON !in h.value
  }

  lemma FieldOfIsClean(first: Text, second: Text, checked: bool)
    requires COLON !in first && COLON !in second && FieldOf(first, second, checked).Ok?
    ensures CleanField(FieldOf(first, second, checked).value)
  {
    TrimWithin(first, checked);
    TrimWithin(second, checked);
  }

  lemma ParsedFieldsAreClean(line: Text, checked: bool)
    requires ParseHeader(line, checked).Ok?
    ensures CleanField(ParseHeader(line, checked).value)
  {
    var pieces := Split(line, COLON);
    PieceHasNoSeparator(line, COLON, 0);
    PieceHasNoSeparator(line, COLON, 1);
    FieldOfIsClean(pieces[0], pieces[1], checked);
  }

  // -------------------------------------------------------------------------- status line

  predicate StatusDigits(code: Text) {
    |code| >= 3 && 49 <= code[0] <= 53 && IsDigit(code[1]) && IsDigit(code[2])
  }

  /** `parse_status` (lines 51-87).  Slicing past the end of the version token panics. */
  function ParseStatus(input: Text): Parsed<Header> {
    var pieces := Split(input, SPACE);
    var x := pieces[0];
    if |x| < 4 then Panic
    else if x[..4] != HTTP then Err(WrongStatusHeader(input[..if |input| < 4 then |input| else 4]))
    else if |x| < 5 then Panic
    else if |pieces| < 2 then Err(WrongStatusCode([]))
    else if !StatusDigits(pieces[1]) then Err(WrongStatusCode(pieces[1]))
    else if |pieces| < 3 then Err(WrongStatusReason)
    else Ok(Status(Number(pieces[1]), x[5..], pieces[2]))
  }

  /** The lines on which `parse_status` panics: a first word too short to be sliced. */
  predicate StatusPanics(line: Text) {
    var x := Split(line, SPACE)[0];
    |x| < 4 || x == Ascii("HTTP")
  }

  /** A code: it begins with three digits, the first of them from 1 to 5. */
  predicate CodeShaped(t: Text) {
    && |t| >= 3
    && '1' as int <= t[0] as int <= '5' as int
    && '0' as int <= t[1] as int <= '9' as int && '0' as int <= t[2] as int <= '9' as int
  }

  /** The lines it accepts: three words at least, the first starting with "HTTP" and a byte more,
      the second with a code. */
  predicate StatusAccepted(line: Text) {
    var pieces := Split(line, SPACE);
    |pieces| >= 3 && |pieces[0]| >= 5 && pieces[0][..4] == Ascii("HTTP") && CodeShaped(pieces[1])
  }

  lemma StatusOutcome(line: Text)
    ensures ParseStatus(line).Panic? <==> StatusPanics(line)
    ensures ParseStatus(line).Ok? <==> StatusAccepted(line)
  {
    Spelling();
    var x := Split(line, SPACE)[0];
    if |x| == 4 { assert x[..4] == x; }
  }

  /** Which lines are refused, and with what: the wrong word, or the words that are missing. */
  lemma StatusRefusals(line: Text, t: Text)
    ensures ParseStatus(line) == Err(WrongStatusHeader(t)) <==>
            !StatusPanics(line) && !(Ascii("HTTP") <= Split(line, SPACE)[0]) && t <= line && |t| == 4
    ensures ParseStatus(line) == Err(WrongStatusCode(t)) <==>
            && !StatusPanics(line) && Ascii("HTTP") <= Split(line, SPACE)[0]
            && (if |Split(line, SPACE)| < 2 then t == [] else t == Split(line, SPACE)[1] && !CodeShaped(t))
    ensures ParseStatus(line) == Err(WrongStatusReason) <==>
            && !StatusPanics(line) && Ascii("HTTP") <= Split(line, SPACE)[0]
            && |Split(line, SPACE)| == 2 && CodeShaped(Split(line, SPACE)[1])
  {
    Spelling();
    var x := Split(line, SPACE)[0];
    FirstPieceWithin(line, SPACE);
    assert |x| >= 4 ==> (x[..4] == HTTP <==> HTTP <= x);
    assert |line| >= 4 && t <= line && |t| == 4 ==> t == line[..4];
  }

  lemma {:induction false} FirstPieceWithin(s: Text, sep: byte)
    ensures Split(s, sep)[0] <= s
  {
    if s == [] {
    } else {
      FirstPieceWithin(s[1..], sep);
      assert s == [s[0]] + s[1..];
    }
  }

  /** The same, for a line that is known to have two spaces. */
  lemma ParseStatusAt(x: Text, code: Text, rest: Text)
    requires SPACE !in x && SPACE !in code && |x| >= 5 && x[..4] == HTTP && StatusDigits(code)
    ensures ParseStatus(x + [SPACE] + (code + [SPACE] + rest)) == Ok(Status(Number(code), x[5..], Split(rest, SPACE)[0]))
  {
    SplitAtFirst(x, SPACE, code + [SPACE] + rest);
    SplitAtFirst(code, SPACE, rest);
  }

  function Number(code: Text): nat
    requires |code| >= 3 && IsDigit(code[0]) && IsDigit(code[1]) && IsDigit(code[2])
  {
    (code[0] as int - 48) * 100 + (code[1] as int - 48) * 10 + (code[2] as int - 48)
  }

  lemma SplitDecimal(code: nat)
    requires code < 1000
    ensures code / 100 < 10 && code == code / 100 * 100 + code / 10 % 10 * 10 + code % 10
  {
    assert code / 10 == code / 100 * 10 + code / 10 % 10;
  }

  function Digits(code: nat): (r: Text)
    requires code < 1000
    ensures |r| == 3 && IsDigit(r[0]) && IsDigit(r[1]) && IsDigit(r[2]) && Number(r) == code
  {
    SplitDecimal(code);
    [(48 + code / 100) as byte, (48 + code / 10 % 10) as byte, (48 + code % 10) as byte]
  }

  function PrintStatus(version: Text, code: nat, reason: Text): Text
    requires code < 1000
  {
    (HTTP + [SLASH] + version) + [SPACE] + (Digits(code) + [SPACE] + reason)
  }

  /** Every accepted line has this shape, and a code between 100 and 599. */
  lemma StatusSound(input: Text) returns (x: Text, code: Text, rest: Text)
    requires ParseStatus(input).Ok?
    ensures input == x + [SPACE] + (code + [SPACE] + rest)
    ensures SPACE !in x && SPACE !in code && |x| >= 5 && x[..4] == HTTP && StatusDigits(code)
    ensures var s := ParseStatus(input).value;
            && s == Status(Number(code), x[5..], Split(rest, SPACE)[0])
            && 100 <= s.code <= 599 && Digits(s.code) == code[..3]
  {
    var tail;
    x, tail := CutAtFirst(input, SPACE);
    code, rest := CutAtFirst(tail, SPACE);
    ParseStatusAt(x, code, rest);
    DigitsOf(code);
  }

  lemma DigitsOf(code: Text)
    requires StatusDigits(code)
    ensures 100 <= Number(code) <= 599 && Digits(Number(code)) == code[..3]
  {
    DecimalDigits(code[0] as int - 48, code[1] as int - 48, code[2] as int - 48);
  }

  lemma DecimalDigits(a: nat, b: nat, c: nat)
    requires a < 10 && b < 10 && c < 10
    ensures var n := a * 100 + b * 10 + c; n / 100 == a && n / 10 % 10 == b && n % 10 == c
  {
    var n := a * 100 + b * 10 + c;
    assert n / 10 == a * 10 + b;
  }

  lemma PrintedDigits(code: nat)
    requires 100 <= code <= 599
    ensures StatusDigits(Digits(code)) && SPACE !in Digits(code)
  {}

  lemma PrintedStatus(version: Text, digits: Text, reason: Text)
    requires SPACE !in version && SPACE !in digits && StatusDigits(digits)
    ensures ParseStatus((HTTP + [SLASH] + version) + [SPACE] + (digits + [SPACE] + reason)) ==
            Ok(Status(Number(digits), version, Split(reason, SPACE)[0]))
  {
    var x := HTTP + [SLASH] + version;
    assert x[..4] == HTTP && x[5..] == version;
    ParseStatusAt(x, digits, reason);
  }

  /** Parsing a printed status line gives back the version and the code, but of the reason only
      its first word; so it is the identity exactly for reasons of at most one word. */
  lemma StatusRoundTrip(version: Text, code: nat, reason: Text)
    requires 100 <= code <= 599 && SPACE !in version
    ensures ParseStatus(PrintStatus(version, code, reason)) == Ok(Status(code, version, Split(reason, SPACE)[0]))
    ensures Split(reason, SPACE)[0] == reason <==> SPACE !in reason
  {
    PrintedDigits(code);
    PrintedStatus(version, Digits(code), reason);
    PieceHasNoSeparator(reason, SPACE, 0);
  }
}
