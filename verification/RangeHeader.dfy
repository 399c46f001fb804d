/**
 Range requests (section 2.1 of RFC 7233, with the code's own reading of "-N" and "*"): parsing the
 header, resolving it against the file and what the 206 reply says (section 4.2 of RFC 7233).
 */
module RangeHeader {
  datatype Option<T> = None | Some(value: T)

  const ALL := -1
  const BAD := -2
  const INT64_MIN := -0x8000_0000_0000_0000
  const INT64_MAX := 0x7fff_ffff_ffff_ffff

  // ----- Decimal numbers -----

  predicate IsDigit(c: char) {
    '0' <= c <= '9'
  }

  predicate IsDigits(s: string) {
    s != "" && forall i :: 0 <= i < |s| ==> IsDigit(s[i])
  }

  function NumberOf(digits: string): int {
    if digits == "" then 0 else NumberOf(digits[..|digits| - 1]) * 10 + (digits[|digits| - 1] as int - '0' as int)
  }

  /** The conversion of text to a signed 64-bit integer: an optional sign and digits, in range. */
  function LexicalCast(s: string): Option<int> {
    var signed := s != "" && (s[0] == '+' || s[0] == '-');
    var digits := if signed then s[1..] else s;
    if !IsDigits(digits) then None
    else
      var n := if signed && s[0] == '-' then -NumberOf(digits) else NumberOf(digits);
      if INT64_MIN <= n <= INT64_MAX then Some(n) else None
  }

  function Decimal(n: nat): string {
    if n < 10 then ['0' + n as char] else Decimal(n / 10) + ['0' + (n % 10) as char]
  }

  lemma {:induction false} DecimalRoundTrip(n: nat)
    ensures IsDigits(Decimal(n)) && NumberOf(Decimal(n)) == n
  {
    if n < 10 {
      assert NumberOf("") == 0;
    } else {
      DecimalRoundTrip(n / 10);
      var s := Decimal(n);
      assert s[..|s| - 1] == Decimal(n / 10);
    }
  }

  /** A number is read with or without a sign, exactly when it fits 64 bits. */
  lemma CastReads(n: nat)
    ensures LexicalCast(Decimal(n)) == LexicalCast("+" + Decimal(n))
         == if n <= 0x7fff_ffff_ffff_ffff then Some(n) else None
    ensures var m: int := n; LexicalCast("-" + Decimal(n)) == if m <= 0x8000_0000_0000_0000 then Some(-m) else None
  {
    hide *;
    DecimalRoundTrip(n);
    var digits := Decimal(n);
    CastOf("", digits);
    CastOf("+", digits);
    CastOf("-", digits);
    assert "" + digits == digits;
  }

  lemma CastOf(sign: string, digits: string)
    requires IsDigits(digits) && sign in {"", "+", "-"}
    ensures var n := if sign == "-" then -NumberOf(digits) else NumberOf(digits);
            LexicalCast(sign + digits) == if -0x8000_0000_0000_0000 <= n <= 0x7fff_ffff_ffff_ffff then Some(n) else None
  {
    hide NumberOf;
    assert IsDigit(digits[0]);
    if sign == "" {
      assert sign + digits == digits;
    } else {
      assert (sign + digits)[0] == sign[0] && (sign + digits)[1..] == digits;
    }
  }

  /** Nothing but digits with or without a sign is read. */
  lemma CastRefuses(s: string)
    ensures LexicalCast(s).Some? ==>
      var digits := if s != "" && (s[0] == '+' || s[0] == '-') then s[1..] else s;
      digits != "" && forall i :: 0 <= i < |digits| ==> '0' <= digits[i] <= '9'
  {
    if LexicalCast(s).Some? {
      var digits := if s != "" && (s[0] == '+' || s[0] == '-') then s[1..] else s;
      forall i | 0 <= i < |digits|
        ensures '0' <= digits[i] <= '9'
      {
        assert IsDigit(digits[i]);
      }
    }
  }

  // ----- Parsing -----

  /** A bound: missing or a star for all, or a number. */
  function BoundOf(s: string): int {
    if s == "*" || s == "" then ALL else match LexicalCast(s) case Some(n) => n case None => BAD
  }

  function Find(s: string, c: char): (r: nat)
    ensures r <= |s| && c !in s[..r] && (r < |s| ==> s[r] == c)
  {
    if s == "" || s[0] == c then 0 else 1 + Find(s[1..], c)
  }

  /** Both bounds of one range, or nothing. */
  function PartOf(s: string): Option<(int, int)> {
    var d := Find(s, '-');
    if d == |s| || BoundOf(s[..d]) == BAD || BoundOf(s[d + 1..]) == BAD then None
    else Some((BoundOf(s[..d]), BoundOf(s[d + 1..])))
  }

  datatype Ranges = Ranges(start1: int, end1: int, start2: int, end2: int)

  /** How parsing ends; an access outside the text throws. */
  datatype Outcome = Parsed | Rejected | Throws

  function SetPart(r: Ranges, part: (int, int), second: bool): Ranges {
    if second then r.(start2 := part.0, end2 := part.1) else r.(start1 := part.0, end1 := part.1)
  }

  /** Parse the part of a header between two positions. */
  function ParsePart(r: Ranges, h: string, start: nat, end: nat, second: bool): (Outcome, Ranges)
    requires start <= |h| && end <= |h|
  {
    if start > end then (Throws, r)
    else match PartOf(h[start..end])
      case None => (Rejected, r)
      case Some(part) => (Parsed, SetPart(r, part, second))
  }

  function ParseParts(r: Ranges, h: string): (Outcome, Ranges) {
    var eq, comma := Find(h, '='), Find(h, ',');
    if eq == |h| || comma + 1 == |h| then (Rejected, r)
    else
      var (o, r1) := if comma < |h| then ParsePart(r, h, comma + 1, |h|, true) else (Parsed, r);
      if o == Parsed then ParsePart(r1, h, eq + 1, comma, false) else (o, r1)
  }

  /** All fields but the last are reset first. */
  function Translate(r: Ranges, h: string): (Outcome, Ranges) {
    ParseParts(Ranges(BAD, BAD, BAD, r.end2), h)
  }

  class RangeFields {
    var start1: int
    var end1: int
    var start2: int
    var end2: int

    function Value(): Ranges
      reads this
    {
      Ranges(start1, end1, start2, end2)
    }

    /** The text between two positions, character by character; nothing if that leaves the text. */
    method Copy(value: string, start: nat, end: nat) returns (r: Option<string>)
      requires start <= |value| && end <= |value|
      ensures r == if start > end then None else Some(value[start..end])
    {
      var s := "";
      var i := start;
      while i != end
        invariant start <= i <= |value| && s == value[start..i] && (start <= end ==> i <= end)
        decreases |value| - i
      {
        if i >= |value| {
          return None;
        }
        s := s + [value[i]];
        i := i + 1;
      }
      r := Some(s);
    }

    method CastStringRangeToInt(str: string, first: nat, last: nat) returns (r: int)
      requires first <= last <= |str|
      ensures r == BoundOf(str[first..last])
    {
      var tmp := Copy(str, first, last);
      if tmp.value == "*" || tmp.value == "" {
        return ALL;
      }
      var n := LexicalCast(tmp.value);
      r := if n.Some? then n.value else BAD;
    }

    method ParseValue(value: string, start: nat, end: nat, second: bool) returns (o: Outcome)
      requires start <= |value| && end <= |value|
      modifies this
      ensures (o, Value()) == ParsePart(old(Value()), value, start, end, second)
    {
      hide BoundOf, Find;
      var range := Copy(value, start, end);
      if range == None {
        return Throws;
      }
      var s := range.value;
      var d := Find(s, '-');
      if d == |s| {
        return Rejected;
      }
      var from := CastStringRangeToInt(s, 0, d);
      var to := CastStringRangeToInt(s, d + 1, |s|);
      assert s[0..d] == s[..d] && s[d + 1..|s|] == s[d + 1..];
      if from == BAD || to == BAD {
        return Rejected;
      }
      if second { start2, end2 := from, to; } else { start1, end1 := from, to; }
      o := Parsed;
    }

    method TranslateRangeHeader(h: string) returns (o: Outcome)
      modifies this
      ensures (o, Value()) == Translate(old(Value()), h)
    {
      start1, end1, start2 := BAD, BAD, BAD;
      var eq := Find(h, '=');
      if eq == |h| {
        return Rejected;
      }
      var comma := Find(h, ',');
      if comma < |h| {
        if comma + 1 == |h| {
          return Rejected;
        }
        o := ParseValue(h, comma + 1, |h|, true);
        if o != Parsed {
          return;
        }
      }
      o := ParseValue(h, eq + 1, comma, false);
    }
  }

  // ----- What is accepted -----

  /** A bound in text: missing, a star, or an integer other than the code for a bad one. */
  predicate GoodBound(s: string) {
    s == "" || s == "*" || (LexicalCast(s) != None && LexicalCast(s) != Some(BAD))
  }

  /** A range in text: two good bounds with a hyphen between them, the first without one. */
  predicate IsPart(s: string, x: string, y: string) {
    s == x + "-" + y && '-' !in x && GoodBound(x) && GoodBound(y)
  }

  lemma {:induction false} FindIs(s: string, c: char, r: nat)
    requires r <= |s| && c !in s[..r] && (r < |s| ==> s[r] == c)
    ensures Find(s, c) == r
  {
    if r > 0 {
      assert s[..r][0] == s[0];
      assert s[1..][..r - 1] == s[..r][1..];
      FindIs(s[1..], c, r - 1);
    }
  }

  /** Where a separator is found, and what it separates. */
  lemma FindSeparator(h: string, a: string, c: char, b: string)
    requires h == a + [c] + b && c !in a
    ensures Find(h, c) == |a| < |h| && h[..|a|] == a && h[|a| + 1..] == b && |h| == |a| + 1 + |b|
  {
    assert h[..|a|] == a && h[|a|] == c;
    FindIs(h, c, |a|);
  }

  lemma NoSeparator(h: string, c: char)
    requires c !in h
    ensures Find(h, c) == |h|
  {
    assert h[..|h|] == h;
    FindIs(h, c, |h|);
  }

  lemma PartAccepted(s: string, x: string, y: string)
    requires IsPart(s, x, y)
    ensures PartOf(s) == Some((BoundOf(x), BoundOf(y)))
  {
    assert s[..|x|] == x && s[|x|] == '-' && s[|x| + 1..] == y;
    FindIs(s, '-', |x|);
    StarIsNoNumber();
  }

  lemma StarIsNoNumber()
    ensures LexicalCast("*") == None && LexicalCast("") == None
  {
    assert !IsDigit("*"[0]);
  }

  lemma PartIsGood(s: string) returns (x: string, y: string)
    requires PartOf(s) != None
    ensures IsPart(s, x, y)
  {
    var d := Find(s, '-');
    x, y := s[..d], s[d + 1..];
    assert s == x + "-" + y;
  }

  /** A header in text: a unit, an equals sign, and one or two ranges. */
  datatype Header =
    | One(range: string, from: string, to: string)
    | Two(range: string, from: string, to: string, second: string, from2: string, to2: string)

  predicate IsHeader(h: string, range: Header) {
    match range
    case One(unit, x, y) =>
      && '=' !in unit && ',' !in h
      && '-' !in x && GoodBound(x) && GoodBound(y)
      && h == unit + "=" + (x + "-" + y)
    case Two(unit, x, y, part, x2, y2) =>
      && '=' !in unit && ',' !in unit && ',' !in x && ',' !in y
      && IsPart(part, x2, y2)
      && '-' !in x && GoodBound(x) && GoodBound(y)
      && h == unit + "=" + (x + "-" + y) + "," + part
  }

  /** The bounds that are set; those of a second range are only set when there is one. */
  function BoundsOf(range: Header, end2: int): Ranges {
    match range
    case One(_, x, y) => Ranges(BoundOf(x), BoundOf(y), BAD, end2)
    case Two(_, x, y, _, x2, y2) => Ranges(BoundOf(x), BoundOf(y), BoundOf(x2), BoundOf(y2))
  }

  lemma OneAccepted(r: Ranges, h: string, range: Header)
    requires range.One? && IsHeader(h, range)
    ensures Translate(r, h) == (Parsed, BoundsOf(range, r.end2))
  {
    var part := range.from + "-" + range.to;
    FindSeparator(h, range.range, '=', part);
    NoSeparator(h, ',');
    PartAccepted(part, range.from, range.to);
    hide GoodBound, BoundOf, PartOf, Find;
    assert h[|range.range| + 1..|h|] == part;
  }

  lemma TwoAccepted(r: Ranges, h: string, range: Header)
    requires range.Two? && IsHeader(h, range)
    ensures Translate(r, h) == (Parsed, BoundsOf(range, r.end2))
  {
    hide Translate, GoodBound, BoundOf, Find;
    NoComma(range.range, range.from, range.to);
    var part := range.from + "-" + range.to;
    PartAccepted(part, range.from, range.to);
    PartAccepted(range.second, range.from2, range.to2);
    TwoPartsAccepted(r, h, range.range, part, range.second);
  }

  lemma TwoPartsAccepted(r: Ranges, h: string, unit: string, part: string, second: string)
    requires h == unit + "=" + part + "," + second && '=' !in unit && ',' !in unit + "=" + part && second != ""
    requires PartOf(part) != None && PartOf(second) != None
    ensures Translate(r, h) == (Parsed, Ranges(PartOf(part).value.0, PartOf(part).value.1,
                                                PartOf(second).value.0, PartOf(second).value.1))
  {
    hide PartOf, Translate, Find;
    TwoSeparators(h, unit, part, second);
    TranslateTwo(r, h, |unit|, |unit| + 1 + |part|);
  }

  lemma TwoSeparators(h: string, unit: string, part: string, second: string)
    requires h == unit + "=" + part + "," + second && '=' !in unit && ',' !in unit + "=" + part
    ensures Find(h, '=') == |unit| && Find(h, ',') == |unit| + 1 + |part|
    ensures |h| == |unit| + 1 + |part| + 1 + |second|
    ensures h[|unit| + 1..|unit| + 1 + |part|] == part && h[|unit| + 1 + |part| + 1..|h|] == second
  {
    hide *;
    FindSeparator(h, unit + "=" + part, ',', second);
    Regroup(unit, "=", part, ",", second);
    FindSeparator(h, unit, '=', part + "," + second);
    MiddlePart(h, unit, part, second);
  }

  lemma TranslateTwo(r: Ranges, h: string, eq: nat, comma: nat)
    requires Find(h, '=') == eq < comma == Find(h, ',') < |h| - 1
    requires PartOf(h[eq + 1..comma]) != None && PartOf(h[comma + 1..|h|]) != None
    ensures Translate(r, h) == (Parsed, SetPart(
        SetPart(r, PartOf(h[comma + 1..|h|]).value, true), PartOf(h[eq + 1..comma]).value, false))
  {
    hide Find, PartOf;
  }

  lemma NoComma(unit: string, x: string, y: string)
    requires ',' !in unit && ',' !in x && ',' !in y
    ensures ',' !in unit + "=" + (x + "-" + y)
  {
  }

  lemma Regroup(a: string, b: string, c: string, d: string, e: string)
    ensures a + b + c + d + e == a + b + (c + d + e)
  {
  }

  lemma MiddlePart(h: string, unit: string, part: string, second: string)
    requires h == unit + "=" + part + "," + second
    ensures h[|unit| + 1..|unit| + 1 + |part|] == part
    ensures h[|unit| + 1 + |part| + 1..|h|] == second
  {
    assert h == (unit + "=") + part + ("," + second);
  }

  lemma AcceptedIsHeader(r: Ranges, h: string) returns (range: Header)
    requires Translate(r, h).0 == Parsed
    ensures IsHeader(h, range)
  {
    hide *;
    ParsedMeans(r, h);
    if Find(h, ',') == |h| {
      range := AcceptedIsOne(h, Find(h, '='));
    } else {
      range := AcceptedIsTwo(h, Find(h, '='), Find(h, ','));
    }
  }

  lemma AcceptedIsOne(h: string, eq: nat) returns (range: Header)
    requires eq < |h| && h[eq] == '=' && ',' !in h[..|h|] && '=' !in h[..eq] && PartOf(h[eq + 1..|h|]) != None
    ensures IsHeader(h, range)
  {
    hide *;
    var x, y := PartIsGood(h[eq + 1..|h|]);
    range := One(h[..eq], x, y);
    OneIsHeader(h, eq, range);
  }

  lemma AcceptedIsTwo(h: string, eq: nat, comma: nat) returns (range: Header)
    requires eq < comma < |h| && h[eq] == '=' && h[comma] == ',' && ',' !in h[..comma] && '=' !in h[..eq]
    requires PartOf(h[eq + 1..comma]) != None && PartOf(h[comma + 1..|h|]) != None
    ensures IsHeader(h, range)
  {
    hide *;
    var x, y := PartIsGood(h[eq + 1..comma]);
    var x2, y2 := PartIsGood(h[comma + 1..|h|]);
    range := Two(h[..eq], x, y, h[comma + 1..|h|], x2, y2);
    TwoIsHeader(h, eq, comma, range);
  }

  lemma ParsedMeans(r: Ranges, h: string)
    requires Translate(r, h).0 == Parsed
    ensures var eq, comma := Find(h, '='), Find(h, ',');
      && eq < |h| && eq < comma && PartOf(h[eq + 1..comma]) != None
      && (comma < |h| ==> PartOf(h[comma + 1..|h|]) != None)
  {
    hide Find, PartOf;
  }

  lemma OneIsHeader(h: string, eq: nat, range: Header)
    requires eq < |h| && h[eq] == '=' && ',' !in h[..|h|] && '=' !in h[..eq]
    requires range.One? && range.range == h[..eq] && IsPart(h[eq + 1..|h|], range.from, range.to)
    ensures IsHeader(h, range)
  {
    hide GoodBound;
    assert h == h[..eq] + "=" + h[eq + 1..|h|] && h[..|h|] == h;
  }

  lemma TwoIsHeader(h: string, eq: nat, comma: nat, range: Header)
    requires eq < comma < |h| && h[eq] == '=' && h[comma] == ',' && ',' !in h[..comma] && '=' !in h[..eq]
    requires range.Two? && range.range == h[..eq] && range.second == h[comma + 1..|h|]
    requires IsPart(h[eq + 1..comma], range.from, range.to) && IsPart(range.second, range.from2, range.to2)
    ensures IsHeader(h, range)
  {
    hide GoodBound;
    TwoParts(h, eq, comma);
    NoCommaInBounds(h[eq + 1..comma], range.from, range.to);
  }

  lemma NoCommaInBounds(part: string, x: string, y: string)
    requires ',' !in part && part == x + "-" + y
    ensures ',' !in x && ',' !in y
  {
    forall i | 0 <= i < |x|
      ensures x[i] != ','
    {
      assert x[i] == part[i];
    }
    forall i | 0 <= i < |y|
      ensures y[i] != ','
    {
      assert y[i] == part[|x| + 1 + i];
    }
  }

  lemma TwoParts(h: string, eq: nat, comma: nat)
    requires eq < comma < |h| && h[eq] == '=' && h[comma] == ',' && ',' !in h[..comma]
    ensures h == h[..eq] + "=" + h[eq + 1..comma] + "," + h[comma + 1..|h|]
    ensures ',' !in h[..eq] && ',' !in h[eq + 1..comma]
  {
    forall i | 0 <= i < eq
      ensures h[..eq][i] != ','
    {
      assert h[..eq][i] == h[..comma][i];
    }
    var middle := h[eq + 1..comma];
    forall i | 0 <= i < |middle|
      ensures middle[i] != ','
    {
      assert middle[i] == h[..comma][eq + 1 + i];
    }
  }

  /** Exactly the headers are accepted, with the bounds they state; everything else is rejected. */
  lemma TranslateIsExact(r: Ranges, h: string)
    ensures Translate(r, h).0 == Parsed <==> exists range :: IsHeader(h, range)
    ensures Translate(r, h).0 == Rejected <==> !exists range :: IsHeader(h, range)
    ensures forall range :: IsHeader(h, range) ==> Translate(r, h) == (Parsed, BoundsOf(range, r.end2))
  {
    NeverThrows(r, h);
    if Translate(r, h).0 == Parsed {
      var range := AcceptedIsHeader(r, h);
    }
    forall range | IsHeader(h, range)
      ensures Translate(r, h) == (Parsed, BoundsOf(range, r.end2))
    {
      if range.One? { OneAccepted(r, h, range); } else { TwoAccepted(r, h, range); }
    }
  }

  /** An equals sign is part of no bound. */
  lemma EqualsIsNoBound(s: string, i: nat)
    requires i < |s| && s[i] == '='
    ensures BoundOf(s) == BAD
  {
    if s[0] == '+' || s[0] == '-' {
      assert s[1..][i - 1] == '=' && !IsDigits(s[1..]);
    } else {
      assert !IsDigits(s);
    }
  }

  /** Nor of a range. */
  lemma EqualsIsNoPart(s: string, i: nat)
    requires i < |s| && s[i] == '='
    ensures PartOf(s) == None
  {
    var d := Find(s, '-');
    if i < d {
      assert s[..d][i] == '=';
      EqualsIsNoBound(s[..d], i);
    } else if d < i {
      assert s[d + 1..][i - d - 1] == '=';
      EqualsIsNoBound(s[d + 1..], i - d - 1);
    }
  }

  /**
   No header makes parsing throw: the first part would have to start behind its end, with a comma before the first
   equals sign, but then the second part, which is parsed before it, holds that equals sign and is refused.
   */
  lemma NeverThrows(r: Ranges, h: string)
    ensures Translate(r, h).0 != Throws
  {
    var eq, comma := Find(h, '='), Find(h, ',');
    if comma < eq < |h| {
      var second := h[comma + 1..|h|];
      assert second[eq - comma - 1] == '=';
      EqualsIsNoPart(second, eq - comma - 1);
    }
    hide Find, PartOf;
  }

  // ----- Printed ranges -----

  /** A bound that a client sends. */
  datatype Bound = Missing | Star | Number(n: nat)

  function Print(b: Bound): string {
    match b
    case Missing => ""
    case Star => "*"
    case Number(n) => Decimal(n)
  }

  function Meaning(b: Bound): int {
    match b
    case Number(n) => n
    case _ => ALL
  }

  lemma PrintedBound(b: Bound)
    requires b.Number? ==> b.n <= INT64_MAX
    ensures BoundOf(Print(b)) == Meaning(b) && GoodBound(Print(b)) && '-' !in Print(b) && ',' !in Print(b)
  {
    if b.Number? {
      var s := Decimal(b.n);
      DecimalRoundTrip(b.n);
      assert IsDigit(s[0]) && s != "*";
      forall i | 0 <= i < |s|
        ensures s[i] != '-' && s[i] != ','
      {
        assert IsDigit(s[i]);
      }
    }
  }

  predicate InRange(b: Bound) {
    b.Number? ==> b.n <= INT64_MAX
  }

  /** A printed range is parsed to the same bounds. */
  lemma OneRangeRoundTrip(r: Ranges, unit: string, x: Bound, y: Bound)
    requires '=' !in unit && ',' !in unit && InRange(x) && InRange(y)
    ensures Translate(r, unit + "=" + (Print(x) + "-" + Print(y)))
            == (Parsed, Ranges(Meaning(x), Meaning(y), BAD, r.end2))
  {
    PrintedBound(x);
    PrintedBound(y);
    hide Print;
    OneAccepted(r, unit + "=" + (Print(x) + "-" + Print(y)), One(unit, Print(x), Print(y)));
  }

  lemma TwoRangesRoundTrip(r: Ranges, unit: string, x: Bound, y: Bound, x2: Bound, y2: Bound)
    requires '=' !in unit && ',' !in unit && InRange(x) && InRange(y) && InRange(x2) && InRange(y2)
    ensures Translate(r, unit + "=" + (Print(x) + "-" + Print(y)) + "," + (Print(x2) + "-" + Print(y2))) ==
      (Parsed, Ranges(Meaning(x), Meaning(y), Meaning(x2), Meaning(y2)))
  {
    PrintedBound(x);
    PrintedBound(y);
    PrintedBound(x2);
    PrintedBound(y2);
    hide Print;
    var second := Print(x2) + "-" + Print(y2);
    TwoAccepted(r, unit + "=" + (Print(x) + "-" + Print(y)) + "," + second,
        Two(unit, Print(x), Print(y), second, Print(x2), Print(y2)));
  }

  // ----- The reply -----

  /** The first and the last position to read; the last is the file size when there is no last. */
  function Resolved(r: Ranges, size: int): (int, int) {
    (if r.start1 == ALL then 0 else r.start1, if r.end1 == ALL then size else r.end1)
  }

  datatype Reply = Reply(first: int, last: int, size: int, length: int)

  /** The numbers in the Content-Range and Content-Length headers. */
  function PartialReply(read: (int, int), size: int): Reply {
    var n := read.1 - read.0 + 1;
    Reply(read.0, if read.1 == size then read.1 - 1 else read.1, size, if n > size then size else n)
  }

  /** A range inside the file whose length is stated. */
  predicate Consistent(r: Reply) {
    0 <= r.first <= r.last < r.size && r.length == r.last - r.first + 1
  }

  /** The reply is consistent exactly for a closed range inside the file and for the open range from 0 on. */
  lemma ReplyIsConsistent(start: int, end: int, size: int)
    requires 0 <= start && 0 <= size
    ensures Consistent(PartialReply((start, end), size)) <==>
      (start <= end < size) || (start == 0 && end == size && size > 0)
  {
  }

  /** From the header to the reply: "unit=a-b" with a <= b < size is answered by a-b/size and b - a + 1. */
  lemma ClosedRangeReply(r: Ranges, unit: string, a: nat, b: nat, size: int)
    requires '=' !in unit && ',' !in unit && a <= b < size && b <= INT64_MAX
    ensures var (o, ranges) := Translate(r, unit + "=" + (Decimal(a) + "-" + Decimal(b)));
      o == Parsed && PartialReply(Resolved(ranges, size), size) == Reply(a, b, size, b - a + 1)
  {
    OneRangeRoundTrip(r, unit, Number(a), Number(b));
  }

  /** "unit=0-" is answered by the whole file; after any other start the stated length is one too many. */
  lemma OpenRangeReply(r: Ranges, unit: string, a: nat, size: int)
    requires '=' !in unit && ',' !in unit && a < size && a <= INT64_MAX
    ensures var (o, ranges) := Translate(r, unit + "=" + (Decimal(a) + "-" + ""));
      o == Parsed && PartialReply(Resolved(ranges, size), size) ==
        Reply(a, size - 1, size, if a == 0 then size else size - a + 1)
  {
    OneRangeRoundTrip(r, unit, Number(a), Missing);
  }

  /** "unit=-n" asks for the last n positions, but is answered by the first n + 1. */
  lemma SuffixRangeReply(r: Ranges, unit: string, n: nat, size: int)
    requires '=' !in unit && ',' !in unit && n < size && n <= INT64_MAX
    ensures var (o, ranges) := Translate(r, unit + "=" + ("" + "-" + Decimal(n)));
      o == Parsed && PartialReply(Resolved(ranges, size), size) == Reply(0, n, size, n + 1)
  {
    OneRangeRoundTrip(r, unit, Missing, Number(n));
  }
}
