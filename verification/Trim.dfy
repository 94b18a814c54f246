/** Splitting and trimming as src/httparse.rs does them. */
module Trim {
  import opened Bytes

  /** `slice.split(|b| b == sep)`: the pieces between separators; there is always one. */
  function Split(s: Text, sep: byte): (r: seq<Text>)
    ensures r != []
    ensures sep !in s ==> r == [s]
    ensures sep in s ==> |r| >= 2
  {
    if s == [] then [[]]
    else
      assert s == [s[0]] + s[1..];
      var rest := Split(s[1..], sep);
      if s[0] == sep then [[]] + rest else [[s[0]] + rest[0]] + rest[1..]
  }

  lemma {:induction false} PieceHasNoSeparator(s: Text, sep: byte, i: nat)
    requires i < |Split(s, sep)|
    ensures sep !in Split(s, sep)[i]
  {
    if s == [] {
    } else {
      if s[0] == sep {
        if i > 0 { PieceHasNoSeparator(s[1..], sep, i - 1); }
      } else {
        PieceHasNoSeparator(s[1..], sep, i);
      }
    }
  }

  /** The first piece ends at the first separator; the others split what follows it. */
  lemma {:induction false} SplitAtFirst(a: Text, sep: byte, b: Text)
    requires sep !in a
    ensures Split(a + [sep] + b, sep) == [a] + Split(b, sep)
  {
    var s := a + [sep] + b;
    if a == [] {
      assert s[1..] == b;
    } else {
      assert s[1..] == a[1..] + [sep] + b;
      SplitAtFirst(a[1..], sep, b);
      var rest := Split(s[1..], sep);
      assert rest[0] == a[1..] && rest[1..] == Split(b, sep);
      assert a == [a[0]] + a[1..];
    }
  }

  /** A text with a separator is its first piece, the separator, and the rest. */
  lemma {:induction false} CutAtFirst(s: Text, sep: byte) returns (a: Text, b: Text)
    requires sep in s
    ensures s == a + [sep] + b && sep !in a
    ensures Split(s, sep) == [a] + Split(b, sep)
  {
    if s[0] == sep {
      a, b := [], s[1..];
    } else {
      var t;
      t, b := CutAtFirst(s[1..], sep);
      a := [s[0]] + t;
    }
    assert s == a + [sep] + b;
    SplitAtFirst(a, sep, b);
  }

  // ----------------------------------------------------------------------- what is meant

  function TrimLeft(v: Text): (r: Text)
    ensures |r| <= |v| && r == v[|v| - |r|..]
    ensures r == [] || r[0] != SPACE
  {
    if v != [] && v[0] == SPACE then TrimLeft(v[1..]) else v
  }

  function TrimRight(v: Text): (r: Text)
    ensures r <= v
    ensures r == [] || r[|r| - 1] != SPACE
  {
    if v != [] && v[|v| - 1] == SPACE then TrimRight(v[..|v| - 1]) else v
  }

  function TrimBoth(v: Text): Text { TrimLeft(TrimRight(v)) }

  /** How many spaces end the text. */
  function Trailing(v: Text): nat { |v| - |TrimRight(v)| }

  /** Neither end is a space. */
  predicate Clean(v: Text) { v == [] || (v[0] != SPACE && v[|v| - 1] != SPACE) }

  // ------------------------------------------------------------------------ what is done

  datatype Trimmed = Trimmed(text: Text) | Underflow

  /** `rtrim` (lines 12-18).  On an empty slice `val.len() - 1` underflows: with overflow checks
      that panics, without them the wrapped index is simply out of range.  A space at the end
      takes the byte before it along, and `val.len() - 2` of a lone space panics either way. */
  function RTrim(v: Text, checked: bool): Trimmed {
    if v == [] then if checked then Underflow else Trimmed(v)
    else if v[|v| - 1] != SPACE then Trimmed(v)
    else if |v| < 2 then Underflow
    else RTrim(v[..|v| - 2], checked)
  }

  method LTrim(v: Text) returns (r: Text)
    ensures r == TrimLeft(v)
  {
    r := v;
    while r != [] && r[0] == SPACE
      invariant TrimLeft(r) == TrimLeft(v)
    {
      r := r[1..];
    }
  }

  method RTrimLoop(v: Text, checked: bool) returns (r: Trimmed)
    ensures r == RTrim(v, checked)
  {
    var val := v;
    while true
      invariant RTrim(val, checked) == RTrim(v, checked)
      decreases |val|
    {
      if val == [] {
        return if checked then Underflow else Trimmed(val);
      }
      if val[|val| - 1] != SPACE {
        return Trimmed(val);
      }
      if |val| < 2 {
        return Underflow;
      }
      val := val[..|val| - 2];
    }
  }

  /** When `rtrim` trims: the trailing spaces are even in number, and something is left. */
  predicate RTrimWorks(v: Text, checked: bool) {
    Trailing(v) % 2 == 0 && (TrimRight(v) != [] || !checked)
  }

  /** A wrong result is too short, never too long. */
  lemma {:induction false} RTrimNeverKeepsSpaces(v: Text, checked: bool)
    ensures RTrim(v, checked).Trimmed? ==> RTrim(v, checked).text <= TrimRight(v)
    ensures var r := RTrim(v, checked); r.Trimmed? && r.text != [] ==> r.text[|r.text| - 1] != SPACE
  {
    if |v| >= 2 && v[|v| - 1] == SPACE {
      RTrimNeverKeepsSpaces(v[..|v| - 2], checked);
      TrimRightMonotone(v[..|v| - 2], v);
    }
  }

  lemma {:induction false} TrimRightMonotone(u: Text, v: Text)
    requires u <= v
    ensures TrimRight(u) <= TrimRight(v)
    decreases |v|
  {
    if |u| < |v| && v[|v| - 1] == SPACE {
      TrimRightMonotone(u, v[..|v| - 1]);
    } else if |u| == |v| {
      assert u == v;
    }
  }

  lemma TwoSpaces(v: Text)
    requires |v| >= 2 && v[|v| - 1] == SPACE && v[|v| - 2] == SPACE
    ensures TrimRight(v) == TrimRight(v[..|v| - 2]) && Trailing(v) == Trailing(v[..|v| - 2]) + 2
  {
    assert v[..|v| - 1][..|v| - 2] == v[..|v| - 2];
  }

  lemma OneSpace(v: Text)
    requires |v| >= 2 && v[|v| - 1] == SPACE && v[|v| - 2] != SPACE
    ensures TrimRight(v) == v[..|v| - 1] && Trailing(v) == 1
  {}

  /** Exactly when `rtrim` removes the trailing spaces and nothing else. */
  lemma {:induction false} RTrimExact(v: Text, checked: bool)
    ensures RTrim(v, checked) == Trimmed(TrimRight(v)) <==> RTrimWorks(v, checked)
  {
    if |v| >= 2 && v[|v| - 1] == SPACE {
      if v[|v| - 2] == SPACE {
        TwoSpaces(v);
        RTrimExact(v[..|v| - 2], checked);
      } else {
        // one space: the last byte of the text proper is lost
        OneSpace(v);
        RTrimNeverKeepsSpaces(v[..|v| - 2], checked);
      }
    }
  }

  /** What `rtrim` runs out of bytes on: from the end, every second byte is a space. */
  predicate RTrimSpent(v: Text, checked: bool) {
    (forall k :: 0 <= k < |v| && 2 * k < |v| ==> SpaceFromEnd(v, k)) && (|v| % 2 == 1 || checked)
  }

  predicate SpaceFromEnd(v: Text, k: nat)
    requires 2 * k < |v|
  {
    v[|v| - 1 - 2 * k] == SPACE
  }

  /** Exactly when `rtrim` panics: an odd number of bytes in any build, an even one only when
      overflow is checked. */
  lemma {:induction false} RTrimPanicsExactly(v: Text, checked: bool)
    ensures RTrim(v, checked).Underflow? <==> RTrimSpent(v, checked)
  {
    if |v| >= 2 && v[|v| - 1] == SPACE {
      var u := v[..|v| - 2];
      RTrimPanicsExactly(u, checked);
      assert SpaceFromEnd(v, 0);
      forall k: nat | 2 * k < |u| ensures SpaceFromEnd(u, k) == SpaceFromEnd(v, k + 1) {}
      forall k: nat | 0 < 2 * k < |v| ensures SpaceFromEnd(v, k) == SpaceFromEnd(u, k - 1) {}
    } else if v != [] {
      assert SpaceFromEnd(v, 0) <==> v[|v| - 1] == SPACE;
    }
  }

  /** What `rtrim` returns when it does not panic: the text cut by two bytes as often as a space is
      met, and no more often. */
  lemma {:induction false} RTrimCuts(v: Text, checked: bool) returns (k: nat)
    requires RTrim(v, checked).Trimmed?
    ensures 2 * k <= |v| && RTrim(v, checked).text == v[..|v| - 2 * k]
    ensures forall j :: 0 <= j < k ==> SpaceFromEnd(v, j)
    ensures 2 * k == |v| || !SpaceFromEnd(v, k)
  {
    if |v| >= 2 && v[|v| - 1] == SPACE {
      var u := v[..|v| - 2];
      var j := RTrimCuts(u, checked);
      k := j + 1;
      assert SpaceFromEnd(v, 0);
      forall i | 0 < i < k ensures SpaceFromEnd(v, i) { assert SpaceFromEnd(u, i - 1); }
      assert u[..|u| - 2 * j] == v[..|v| - 2 * k];
    } else {
      k := 0;
      assert v[..|v|] == v;
    }
  }

  /** What is meant by trimming: nothing but spaces goes, and no space stays at that end. */
  lemma {:induction false} TrimLeftDropsSpaces(v: Text)
    ensures var r := TrimLeft(v);
            && (r == [] || r[0] != SPACE) && r == v[|v| - |r|..]
            && forall i :: 0 <= i < |v| - |r| ==> v[i] == SPACE
  {
    if v == [] || v[0] != SPACE {
    } else {
      TrimLeftDropsSpaces(v[1..]);
    }
  }

  lemma {:induction false} TrimRightDropsSpaces(v: Text)
    ensures var r := TrimRight(v);
            && (r == [] || r[|r| - 1] != SPACE) && r <= v
            && forall i :: |r| <= i < |v| ==> v[i] == SPACE
  {
    if v == [] || v[|v| - 1] != SPACE {
    } else {
      TrimRightDropsSpaces(v[..|v| - 1]);
    }
  }

  /** Trimming the left end does not undo or hide that loss. */
  lemma TrimExact(v: Text, checked: bool)
    ensures var r := RTrim(v, checked);
            (r.Trimmed? && TrimLeft(r.text) == TrimBoth(v)) <==> RTrimWorks(v, checked)
  {
    RTrimExact(v, checked);
    RTrimNeverKeepsSpaces(v, checked);
    var r := RTrim(v, checked);
    if r.Trimmed? && r.text != TrimRight(v) {
      LeadingOfPrefix(r.text, TrimRight(v));
    }
  }

  lemma {:induction false} LeadingOfPrefix(u: Text, v: Text)
    requires u <= v && u != v && v[|v| - 1] != SPACE
    ensures TrimLeft(u) != TrimLeft(v)
    decreases |u|
  {
    if u != [] && u[0] == SPACE { LeadingOfPrefix(u[1..], v[1..]); }
    else if u == [] { NonSpaceStays(v); }
  }

  lemma {:induction false} NonSpaceStays(v: Text)
    requires v != [] && v[|v| - 1] != SPACE
    ensures TrimLeft(v) != []
  {
    if v[0] == SPACE { NonSpaceStays(v[1..]); }
  }

  lemma CleanStays(v: Text)
    requires Clean(v)
    ensures TrimRight(v) == v && TrimLeft(v) == v && TrimBoth(v) == v && Trailing(v) == 0
  {}
}
