/** The header multimap and the response of src/response.rs. */
module Response {
  import opened Wrappers
  import opened Bytes

  /** The values of one name, in the order of the pairs. */
  function ValuesOf(pairs: Pairs, name: Text): seq<Text> {
    if pairs == [] then []
    else
      var before := ValuesOf(pairs[..|pairs| - 1], name);
      var last := pairs[|pairs| - 1];
      if last.0 == name then before + [last.1] else before
  }

  /** These equations determine `ValuesOf`: it is the values of the pairs with that name, all of
      them, in order. */
  lemma {:induction false} ValuesInOrder(a: Pairs, b: Pairs, h: (Text, Text), name: Text)
    ensures ValuesOf([h], name) == if h.0 == name then [h.1] else []
    ensures ValuesOf(a + b, name) == ValuesOf(a, name) + ValuesOf(b, name)
    decreases |b|
  {
    assert [h][..0] == [];
    if b == [] {
      assert a + b == a;
    } else {
      assert (a + b)[..|a + b| - 1] == a + b[..|b| - 1];
      ValuesInOrder(a, b[..|b| - 1], h, name);
    }
  }

  /** Every name that occurs has exactly its values, in order; no other name is present. */
  ghost predicate Grouped(entries: map<Text, seq<Text>>, pairs: Pairs) {
    && (forall name :: name in entries <==> Occurs(pairs, name))
    && (forall name :: name in entries ==> entries[name] == ValuesOf(pairs, name))
  }

  predicate Occurs(pairs: Pairs, name: Text) {
    exists i :: 0 <= i < |pairs| && pairs[i].0 == name
  }

  /** One round of the loop: the value is pushed to its name's list, or starts one. */
  lemma GroupNext(entries: map<Text, seq<Text>>, pairs: Pairs, k: Text, v: Text)
    requires Grouped(entries, pairs)
    ensures Grouped(entries[k := if k in entries then entries[k] + [v] else [v]], pairs + [(k, v)])
  {
    var more := pairs + [(k, v)];
    assert more[..|pairs|] == pairs;
    AbsentHasNoValues(pairs, k);
    forall name ensures Occurs(more, name) <==> Occurs(pairs, name) || name == k {
      assert more[|pairs|].0 == k;
      if Occurs(pairs, name) {
        var i :| 0 <= i < |pairs| && pairs[i].0 == name;
        assert more[i].0 == name;
      }
    }
  }

  class HeaderMap {
    var entries: map<Text, seq<Text>>

    ghost predicate Groups(pairs: Pairs)
      reads this
    {
      Grouped(entries, pairs)
    }

    /** `HeaderMap::new` (lines 12-24). */
    constructor (pairs: Pairs)
      ensures Groups(pairs)
    {
      entries := map[];
      new;
      for n := 0 to |pairs|
        invariant Groups(pairs[..n])
      {
        var (k, v) := pairs[n];
        assert pairs[..n + 1] == pairs[..n] + [(k, v)];
        GroupNext(entries, pairs[..n], k, v);
        if k in entries {
          entries := entries[k := entries[k] + [v]];
        } else {
          entries := entries[k := [v]];
        }
      }
      assert pairs[..|pairs|] == pairs;
    }

    /** `get` (lines 26-30): the value of the first pair with that name, if there is one. */
    method Get(name: Text, ghost pairs: Pairs) returns (r: Option<Text>)
      requires Groups(pairs)
      ensures r.None? <==> forall i :: 0 <= i < |pairs| ==> pairs[i].0 != name
      ensures r.Some? ==>
                exists i :: 0 <= i < |pairs| && pairs[i] == (name, r.value) && forall j :: 0 <= j < i ==> pairs[j].0 != name
      ensures r == Find(pairs, name)
    {
      NotFound(pairs, name);
      if name !in entries {
        return None;
      }
      var val := entries[name];
      ghost var i := FirstValue(pairs, name);
      FindsFirst(pairs, name, i);
      return if |val| > 0 then Some(val[0]) else None;
    }
  }

  lemma {:induction false} AbsentHasNoValues(pairs: Pairs, name: Text)
    ensures ValuesOf(pairs, name) == [] <==> !Occurs(pairs, name)
  {
    if pairs == [] {
    } else {
      var before := pairs[..|pairs| - 1];
      AbsentHasNoValues(before, name);
      assert forall i :: 0 <= i < |before| ==> before[i] == pairs[i];
      assert pairs[|before|].0 == name ==> Occurs(pairs, name);
    }
  }

  /** A linear search for a name. */
  function Find(pairs: Pairs, name: Text): Option<Text> {
    if pairs == [] then None
    else if pairs[0].0 == name then Some(pairs[0].1)
    else Find(pairs[1..], name)
  }

  lemma {:induction false} FindsFirst(pairs: Pairs, name: Text, i: nat)
    requires i < |pairs| && pairs[i].0 == name && forall j :: 0 <= j < i ==> pairs[j].0 != name
    ensures Find(pairs, name) == Some(pairs[i].1)
  {
    if i == 0 {
    } else {
      FindsFirst(pairs[1..], name, i - 1);
    }
  }

  lemma {:induction false} NotFound(pairs: Pairs, name: Text)
    ensures !Occurs(pairs, name) ==> Find(pairs, name) == None
  {
    if pairs == [] {
    } else {
      NotFound(pairs[1..], name);
      assert Occurs(pairs[1..], name) ==> Occurs(pairs, name) by {
        assert forall i :: 0 <= i < |pairs| - 1 ==> pairs[1..][i] == pairs[i + 1];
      }
    }
  }

  /** The first value of a name is the value of the first pair with that name. */
  lemma {:induction false} FirstValue(pairs: Pairs, name: Text) returns (i: nat)
    requires Occurs(pairs, name)
    ensures i < |pairs| && pairs[i].0 == name && forall j :: 0 <= j < i ==> pairs[j].0 != name
    ensures ValuesOf(pairs, name) != [] && ValuesOf(pairs, name)[0] == pairs[i].1
  {
    var before := pairs[..|pairs| - 1];
    AbsentHasNoValues(before, name);
    assert forall j :: 0 <= j < |before| ==> before[j] == pairs[j];
    if ValuesOf(before, name) == [] {
      i := |pairs| - 1;
    } else {
      i := FirstValue(before, name);
    }
  }

  /** `StatusCode::from_u16` accepts these and `unwrap` panics on the others. */
  predicate ValidStatus(code: nat) { 100 <= code < 600 }

  // ----------------------------------------------------------------------- content length

  const MAX_USIZE: nat := 0xFFFF_FFFF_FFFF_FFFF

  /** The value of a digit string, or none when it is empty, has another character, or does not
      fit in 64 bits: `str::parse::<usize>` after an optional plus sign. */
  function ParseDigits(t: Text): (r: Option<nat>)
    ensures r.Some? ==> r.value <= MAX_USIZE
  {
    if t == [] then None
    else
      var d := t[|t| - 1];
      if !(48 <= d <= 57) then None
      else
        var high := if |t| == 1 then Some(0) else ParseDigits(t[..|t| - 1]);
        if high.None? || high.value * 10 + (d as int - 48) > MAX_USIZE then None
        else Some(high.value * 10 + (d as int - 48))
  }

  function ParseUsize(t: Text): Option<nat> {
    if t != [] && t[0] == 43 then ParseDigits(t[1..]) else ParseDigits(t)
  }

  predicate AllDigits(t: Text) {
    forall i :: 0 <= i < |t| ==> '0' as int <= t[i] as int <= '9' as int
  }

  /** The number that digits stand for, read from the left. */
  function ReadNumber(t: Text, sofar: nat): nat
    requires AllDigits(t)
  {
    if t == [] then sofar else ReadNumber(t[1..], sofar * 10 + (t[0] as int - '0' as int))
  }

  lemma {:induction false} ReadNumberLast(t: Text, sofar: nat)
    requires t != [] && AllDigits(t)
    ensures ReadNumber(t, sofar) == ReadNumber(t[..|t| - 1], sofar) * 10 + (t[|t| - 1] as int - '0' as int)
  {
    if |t| == 1 {
      assert t[1..] == [] && t[..0] == [];
    } else {
      var d := t[0] as int - '0' as int;
      ReadNumberLast(t[1..], sofar * 10 + d);
      assert t[1..][..|t| - 2] == t[..|t| - 1][1..];
    }
  }

  /** Exactly what parses, and to what: digits, at least one, whose number fits in 64 bits, ... */
  lemma {:induction false} ParseDigitsExactly(t: Text)
    ensures ParseDigits(t) ==
            if t != [] && AllDigits(t) && ReadNumber(t, 0) < 0x1_0000_0000_0000_0000 then Some(ReadNumber(t, 0)) else None
  {
    if t == [] {
    } else {
      var high := t[..|t| - 1];
      ParseDigitsExactly(high);
      if AllDigits(t) {
        ReadNumberLast(t, 0);
      } else if AllDigits(high) {
        assert !('0' as int <= t[|t| - 1] as int <= '9' as int);
      }
    }
  }

  /** ... after a plus sign or none. */
  lemma ParseUsizeExactly(t: Text)
    ensures var digits := if t != [] && t[0] as int == '+' as int then t[1..] else t;
            ParseUsize(t) ==
            if digits != [] && AllDigits(digits) && ReadNumber(digits, 0) < 0x1_0000_0000_0000_0000
            then Some(ReadNumber(digits, 0)) else None
  {
    ParseDigitsExactly(if t != [] && t[0] as int == '+' as int then t[1..] else t);
  }

  const CONTENT_LENGTH: Text := [99, 111, 110, 116, 101, 110, 116, 45, 108, 101, 110, 103, 116, 104]

  lemma Spelling()
    ensures CONTENT_LENGTH == Ascii("content-length")
  {}

  /** `find_map` over the header list (src/lib.rs:105): values that do not parse are passed over. */
  function ContentLength(headers: Pairs): (r: Option<nat>)
    ensures r.None? <==> forall i :: 0 <= i < |headers| && headers[i].0 == CONTENT_LENGTH ==> ParseUsize(headers[i].1).None?
    ensures r.Some? ==>
              exists i :: 0 <= i < |headers| && headers[i].0 == CONTENT_LENGTH && ParseUsize(headers[i].1) == r
                          && forall j :: 0 <= j < i && headers[j].0 == CONTENT_LENGTH ==> ParseUsize(headers[j].1).None?
  {
    if headers == [] then None
    else if headers[0].0 == CONTENT_LENGTH && ParseUsize(headers[0].1).Some? then ParseUsize(headers[0].1)
    else
      assert headers == [headers[0]] + headers[1..];
      ContentLength(headers[1..])
  }

  /** Every length that fits in 64 bits survives being printed and parsed. */
  lemma {:induction false} LengthRoundTrip(n: nat)
    ensures ParseDigits(Decimal(n)) == if n < 0x1_0000_0000_0000_0000 then Some(n) else None
    ensures ParseUsize(Decimal(n)) == ParseDigits(Decimal(n))
  {
    assert IsDigit(Decimal(n)[0]);
    if n >= 10 {
      LengthRoundTrip(n / 10);
      var t := Decimal(n);
      assert t[..|t| - 1] == Decimal(n / 10);
    }
  }
}
