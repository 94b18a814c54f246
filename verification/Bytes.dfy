/** Byte strings: searching, splitting, and CRLF-terminated lines. */
module Bytes {
  newtype byte = i: int | 0 <= i < 256

  type Text = seq<byte>

  /** Names and values, in order. */
  type Pairs = seq<(Text, Text)>

  const CR: byte := 13
  const LF: byte := 10
  const SPACE: byte := 32
  const COLON: byte := 58
  const CRLF: Text := [13, 10]
  const BLANK: Text := [13, 10, 13, 10]

  /** The bytes of an ASCII text. */
  function Ascii(s: string): (r: Text)
    ensures |r| == |s|
  {
    seq(|s|, i requires 0 <= i < |s| => if s[i] < 128 as char then s[i] as int as byte else 63)
  }

  /** The bytes the parsers look for. */
  lemma Separators()
    ensures [SPACE] == Ascii(" ") && [COLON] == Ascii(":") && CRLF == Ascii("\r\n") && BLANK == Ascii("\r\n\r\n")
  {}

  /** `s` has `pat` at position `i`. */
  predicate At(s: Text, pat: Text, i: nat) {
    i + |pat| <= |s| && s[i..i + |pat|] == pat
  }

  datatype Found = Nowhere | Found(at: nat)

  /** `s.windows(pat.len()).position(|w| w == pat)`: the first occurrence. */
  function Position(s: Text, pat: Text): (r: Found)
    requires pat != []
    ensures r.Found? ==> At(s, pat, r.at) && forall j: nat :: j < r.at ==> !At(s, pat, j)
    ensures r.Nowhere? ==> forall j: nat :: !At(s, pat, j)
  {
    PositionFrom(s, pat, 0)
  }

  function PositionFrom(s: Text, pat: Text, i: nat): (r: Found)
    requires pat != [] && i <= |s|
    requires forall j: nat :: j < i ==> !At(s, pat, j)
    ensures r.Found? ==> At(s, pat, r.at) && forall j: nat :: j < r.at ==> !At(s, pat, j)
    ensures r.Nowhere? ==> forall j: nat :: !At(s, pat, j)
    decreases |s| - i
  {
    if |s| < i + |pat| then Nowhere
    else if s[i..i + |pat|] == pat then Found(i)
    else PositionFrom(s, pat, i + 1)
  }

  /** The first occurrence is the only position with these two properties. */
  lemma PositionIs(s: Text, pat: Text, i: nat)
    requires pat != [] && At(s, pat, i) && forall j: nat :: j < i ==> !At(s, pat, j)
    ensures Position(s, pat) == Found(i)
  {}

  /** Occurrences in a prefix are the occurrences in the whole that fit. */
  lemma AtPrefix(s: Text, pat: Text, n: nat, i: nat)
    requires n <= |s|
    ensures At(s[..n], pat, i) <==> At(s, pat, i) && i + |pat| <= n
  {
    if i + |pat| <= n { assert s[..n][i..i + |pat|] == s[i..i + |pat|]; }
  }

  lemma AtSuffix(a: Text, b: Text, pat: Text, i: nat)
    ensures At(a + b, pat, |a| + i) <==> At(b, pat, i)
  {
    if i + |pat| <= |b| { assert (a + b)[|a| + i..|a| + i + |pat|] == b[i..i + |pat|]; }
  }

  lemma AtTwo(s: Text, i: nat)
    ensures At(s, CRLF, i) <==> i + 2 <= |s| && s[i] == 13 && s[i + 1] == 10
  {
    if i + 2 <= |s| { assert s[i..i + 2] == [s[i], s[i + 1]]; }
  }

  lemma AtFour(s: Text, i: nat)
    ensures At(s, BLANK, i) <==> At(s, CRLF, i) && At(s, CRLF, i + 2)
  {
    AtTwo(s, i);
    AtTwo(s, i + 2);
    if i + 4 <= |s| { assert s[i..i + 4] == [s[i], s[i + 1], s[i + 2], s[i + 3]]; }
  }

  predicate StartsWith(s: Text, pat: Text) {
    pat == [] || (s != [] && s[0] == pat[0] && StartsWith(s[1..], pat[1..]))
  }

  predicate EndsWith(s: Text, pat: Text) {
    pat == [] || (s != [] && s[|s| - 1] == pat[|pat| - 1] && EndsWith(s[..|s| - 1], pat[..|pat| - 1]))
  }

  lemma {:induction false} StartsWithMeans(s: Text, pat: Text)
    ensures StartsWith(s, pat) <==> At(s, pat, 0)
  {
    if pat != [] && s != [] {
      StartsWithMeans(s[1..], pat[1..]);
      assert pat == [pat[0]] + pat[1..];
      if |pat| <= |s| {
        assert s[..|pat|] == [s[0]] + s[1..][..|pat| - 1];
      }
    }
  }

  lemma {:induction false} EndsWithMeans(s: Text, pat: Text)
    ensures EndsWith(s, pat) <==> |pat| <= |s| && At(s, pat, |s| - |pat|)
  {
    if pat != [] && s != [] {
      EndsWithMeans(s[..|s| - 1], pat[..|pat| - 1]);
      assert pat == pat[..|pat| - 1] + [pat[|pat| - 1]];
      if |pat| <= |s| {
        assert s[|s| - |pat|..] == s[..|s| - 1][|s| - |pat|..] + [s[|s| - 1]];
      }
    }
  }

  // ------------------------------------------------------------------------------- lines

  /** No line break inside: neither a CR nor an LF would be needed to say less. */
  predicate OneLine(l: Text) {
    forall i :: 0 <= i < |l| ==> !At(l, CRLF, i)
  }

  predicate OneLines(ls: seq<Text>) {
    forall i :: 0 <= i < |ls| ==> OneLine(ls[i])
  }

  /** Every line followed by CRLF. */
  function Lines(ls: seq<Text>): Text {
    if ls == [] then [] else ls[0] + CRLF + Lines(ls[1..])
  }

  lemma {:induction false} LinesAppend(a: seq<Text>, b: seq<Text>)
    ensures Lines(a + b) == Lines(a) + Lines(b)
  {
    if a == [] {
      assert a + b == b;
    } else {
      assert (a + b)[1..] == a[1..] + b;
      LinesAppend(a[1..], b);
    }
  }

  /** The first line break after a one-line text is the one that ends it, whatever follows. */
  lemma FirstBreak(l: Text, rest: Text)
    requires OneLine(l)
    ensures Position(l + CRLF + rest, CRLF) == Found(|l|)
  {
    var s := l + CRLF + rest;
    AtTwo(s, |l|);
    forall j: nat | j < |l| ensures !At(s, CRLF, j) {
      AtTwo(s, j);
      AtTwo(l, j);
    }
  }

  /** Where CRLFCRLF can stand in a line and what follows it: right at the end of the line, if
      an empty line follows, or later. */
  lemma BlankAfterLine(l: Text, tail: Text, j: nat)
    requires OneLine(l)
    ensures At(l + CRLF + tail, BLANK, j) <==>
              || (j == |l| && At(tail, CRLF, 0))
              || (j >= |l| + 2 && At(tail, BLANK, j - |l| - 2))
  {
    var s := l + CRLF + tail;
    FirstBreak(l, tail);
    AtFour(s, j);
    if j < |l| {
      assert !At(s, CRLF, j);
    } else if j == |l| {
      AtSuffix(l + CRLF, tail, CRLF, 0);
    } else if j == |l| + 1 {
      AtTwo(s, j);
      assert s[j] == 10;
    } else {
      AtSuffix(l + CRLF, tail, BLANK, j - |l| - 2);
    }
  }

  /** Header framing: a head made of non-empty lines contains CRLFCRLF at its end and nowhere
      else, whatever bytes follow it. */
  lemma {:induction false} HeadEndsOnce(ls: seq<Text>, rest: Text)
    requires ls != [] && OneLines(ls) && forall i :: 0 <= i < |ls| ==> ls[i] != []
    ensures |Lines(ls)| >= 2
    ensures Position(Lines(ls) + CRLF + rest, BLANK) == Found(|Lines(ls)| - 2)
    decreases |ls|
  {
    var l := ls[0];
    var tail := Lines(ls[1..]) + CRLF + rest;
    var s := l + CRLF + tail;
    assert Lines(ls) + CRLF + rest == s;
    forall j: nat ensures At(s, BLANK, j) <==>
      || (j == |l| && At(tail, CRLF, 0))
      || (j >= |l| + 2 && At(tail, BLANK, j - |l| - 2))
    {
      BlankAfterLine(l, tail, j);
    }
    if |ls| == 1 {
      AtTwo(tail, 0);
      PositionIs(s, BLANK, |l|);
    } else {
      HeadEndsOnce(ls[1..], rest);
      NonEmptyLineFirst(ls[1..], rest);
      PositionIs(s, BLANK, |Lines(ls)| - 2);
    }
  }

  lemma NonEmptyLineFirst(ls: seq<Text>, rest: Text)
    requires ls != [] && OneLine(ls[0]) && ls[0] != []
    ensures !At(Lines(ls) + CRLF + rest, CRLF, 0)
  {
    var tail := Lines(ls[1..]) + CRLF + rest;
    assert Lines(ls) + CRLF + rest == ls[0] + CRLF + tail;
    FirstBreak(ls[0], tail);
  }

  // ----------------------------------------------------------------------------- numbers

  predicate IsDigit(b: byte) { 48 <= b <= 57 }

  /** The decimal digits of a number, as `format!` prints them. */
  function Decimal(n: nat): (r: Text)
    ensures r != [] && forall i :: 0 <= i < |r| ==> IsDigit(r[i])
  {
    var last := (48 + n % 10) as byte;
    if n < 10 then [last] else Decimal(n / 10) + [last]
  }
}
