/**
 Percent-encoding (section 2.1 of RFC 3986): the server's encoder, its decoder, which also works in
 place, and the decoder of the HTTP utilities.
 */
module UrlCodec {
  type byte = x: int | 0 <= x < 256

  const PERCENT: byte := 37
  const PLUS: byte := 43
  const MINUS: byte := 45
  const SPACE: byte := 32

  // ----- Characters and digits -----

  predicate IsDigit(c: byte) {
    48 <= c <= 57
  }

  predicate IsAlnum(c: byte) {
    IsDigit(c) || 65 <= c <= 90 || 97 <= c <= 122
  }

  predicate IsHexDigit(c: byte) {
    IsDigit(c) || 65 <= c <= 70 || 97 <= c <= 102
  }

  predicate IsSpace(c: byte) {
    c == SPACE || 9 <= c <= 13
  }

  /** Letters, digits and the characters in "._-$,;~()" stand for themselves. */
  predicate Plain(c: byte) {
    IsAlnum(c) || c in [46, 95, 45, 36, 44, 59, 126, 40, 41]
  }

  /** A lower-case hexadecimal digit. */
  function Hex(d: int): byte
    requires 0 <= d < 16
  {
    if d < 10 then 48 + d else 87 + d
  }

  function HexValue(c: byte): (d: int)
    requires IsHexDigit(c)
    ensures 0 <= d < 16
  {
    if IsDigit(c) then c - 48 else if c >= 97 then c - 87 else c - 55
  }

  /** Letters, digits and these nine characters stand for themselves. */
  lemma PlainCharacters(c: byte)
    ensures Plain(c) <==>
      var ch := c as char;
      'A' <= ch <= 'Z' || 'a' <= ch <= 'z' || '0' <= ch <= '9' || ch in "._-$,;~()"
  {
  }

  /** The character is the hexadecimal digit d, in lower or upper case. */
  predicate Digit(c: byte, d: int)
    requires 0 <= d < 16
  {
    c as char == "0123456789abcdef"[d] || c as char == "0123456789ABCDEF"[d]
  }

  lemma DigitValue(c: byte, d: int)
    requires 0 <= d < 16
    ensures IsHexDigit(c) && HexValue(c) == d <==> Digit(c, d)
    ensures Hex(d) as char == "0123456789abcdef"[d]
  {
  }

  /** White space. */
  lemma SpaceCharacters(c: byte)
    ensures IsSpace(c) <==> c as char in " \t\n\r" || c == 11 || c == 12
  {
  }

  // ----- Encoding -----

  function EncodedByte(c: byte): (r: seq<byte>) {
    if Plain(c) then [c] else [PERCENT, Hex(c / 16), Hex(c % 16)]
  }

  function Encoded(s: seq<byte>): seq<byte> {
    if s == [] then [] else EncodedByte(s[0]) + Encoded(s[1..])
  }

  /**
   What the encoder leaves in a buffer at position j: an escape that does not fit before end is not written,
   but its first place is passed over.
   */
  function Piece(c: byte, j: nat, end: nat, before: byte): (r: seq<byte>)
    requires j < end
    ensures 0 < |r| <= end - j
  {
    if Plain(c) then [c] else if j + 2 < end then [PERCENT, Hex(c / 16), Hex(c % 16)] else [before]
  }

  /** The same for a string: the characters after an escape that did not fit are still encoded. */
  function Placed(s: seq<byte>, j: nat, end: nat, before: seq<byte>): (r: seq<byte>)
    requires end <= |before|
    ensures j <= end ==> |r| <= end - j
  {
    if s == [] || j >= end then []
    else
      var piece := Piece(s[0], j, end, before[j]);
      piece + Placed(s[1..], j + |piece|, end, before)
  }

  /** The whole encoding is written exactly when it fits. */
  lemma {:induction false} FitsExactly(s: seq<byte>, j: nat, end: nat, before: seq<byte>)
    requires j <= end <= |before|
    ensures Placed(s, j, end, before) == Encoded(s) <==> j + |Encoded(s)| <= end
  {
    if j + |Encoded(s)| <= end && s != [] {
      FitsExactly(s[1..], j + |EncodedByte(s[0])|, end, before);
    }
  }

  /** What fits of the encoding is written, and the encoder goes on behind it. */
  lemma {:induction false} PlacedPrefix(s: seq<byte>, t: seq<byte>, j: nat, end: nat, before: seq<byte>)
    requires j + |Encoded(s)| <= end <= |before|
    ensures Placed(s + t, j, end, before) == Encoded(s) + Placed(t, j + |Encoded(s)|, end, before)
  {
    hide *;
    if s == [] {
      assert s + t == t;
      NothingEncoded();
    } else {
      var piece := EncodedByte(s[0]);
      EncodedSplit(s);
      PlacedFits(s[0], j, end, before);
      PlacedFirst(s + t, j, end, before);
      assert (s + t)[1..] == s[1..] + t && (s + t)[0] == s[0];
      PlacedPrefix(s[1..], t, j + |piece|, end, before);
    }
  }

  lemma NothingEncoded()
    ensures Encoded([]) == []
  {
  }

  lemma PlacedFirst(s: seq<byte>, j: nat, end: nat, before: seq<byte>)
    requires s != [] && j < end <= |before|
    ensures var piece := Piece(s[0], j, end, before[j]);
            Placed(s, j, end, before) == piece + Placed(s[1..], j + |piece|, end, before)
  {
  }

  lemma PlacedFits(c: byte, j: nat, end: nat, before: seq<byte>)
    requires j + |EncodedByte(c)| <= end <= |before|
    ensures j < end && Piece(c, j, end, before[j]) == EncodedByte(c)
  {
  }

  /** An escape that does not fit leaves its first place as it was, and the encoder goes on behind that place. */
  lemma PlacedGap(c: byte, t: seq<byte>, j: nat, end: nat, before: seq<byte>)
    requires j < end <= |before| && |EncodedByte(c)| > end - j
    ensures Placed([c] + t, j, end, before) == [before[j]] + Placed(t, j + 1, end, before)
  {
    assert ([c] + t)[1..] == t;
  }

  method Write(dst: array<byte>, j: nat, piece: seq<byte>)
    requires j + |piece| <= dst.Length
    modifies dst
    ensures dst[..j + |piece|] == old(dst[..j]) + piece
    ensures forall k :: j + |piece| <= k < dst.Length ==> dst[k] == old(dst[k])
  {
    forall k | 0 <= k < |piece| {
      dst[j + k] := piece[k];
    }
  }

  method EncodeOne(c: byte, dst: array<byte>, j: nat, end: nat) returns (next: nat)
    requires j < end < dst.Length
    modifies dst
    ensures j < next <= end && dst[..next] == old(dst[..j]) + Piece(c, j, end, old(dst[j]))
    ensures forall k :: next <= k < dst.Length ==> dst[k] == old(dst[k])
  {
    hide Plain, Hex;
    next := j + 1;
    if Plain(c) {
      Write(dst, j, [c]);
    } else if j + 2 < end {
      Write(dst, j, [PERCENT, Hex(c / 16), Hex(c % 16)]);
      next := j + 3;
    } else {
      assert dst[..j + 1] == dst[..j] + [dst[j]];
    }
  }

  method UrlEncode(src: seq<byte>, dst: array<byte>) returns (j: nat)
    requires 0 !in src && dst.Length > 0
    modifies dst
    ensures j < dst.Length && dst[j] == 0
    ensures dst[..j] == Placed(src, 0, dst.Length - 1, old(dst[..]))
    ensures forall k :: j < k < dst.Length ==> dst[k] == old(dst[k])
    ensures |Encoded(src)| < dst.Length <==> dst[..j] == Encoded(src)
  {
    hide *;
    FitsExactly(src, 0, dst.Length - 1, dst[..]);
    j := PlaceAll(src, dst);
    ghost var r := dst[..j];
    dst[j] := 0;
    assert dst[..j] == r;
  }

  /** Encode into all but the last place of the buffer, and tell where the encoding ends. */
  method PlaceAll(src: seq<byte>, dst: array<byte>) returns (j: nat)
    requires dst.Length > 0
    modifies dst
    ensures j < dst.Length && dst[..j] == Placed(src, 0, dst.Length - 1, old(dst[..]))
    ensures forall k :: j <= k < dst.Length ==> dst[k] == old(dst[k])
  {
    hide *;
    var end := dst.Length - 1;
    var i := 0;
    j := 0;
    ghost var before := dst[..];
    ghost var done: seq<byte> := [];
    while i < |src| && j < end
      invariant i <= |src| && j <= end && done == dst[..j]
      invariant forall k :: j <= k < dst.Length ==> dst[k] == before[k]
      invariant done + Placed(src[i..], j, end, before) == Placed(src, 0, end, before)
    {
      PlacedStep(src, i, j, end, before, done);
      done := done + Piece(src[i], j, end, dst[j]);
      j := EncodeOne(src[i], dst, j, end);
      i := i + 1;
    }
    PlacedEnd(src[i..], j, end, before);
  }

  lemma PlacedEnd(s: seq<byte>, j: nat, end: nat, before: seq<byte>)
    requires end <= |before| && (s == [] || j >= end)
    ensures Placed(s, j, end, before) == []
  {
  }

  lemma PlacedStep(s: seq<byte>, i: nat, j: nat, end: nat, before: seq<byte>, done: seq<byte>)
    requires i < |s| && j < end <= |before|
    ensures var piece := Piece(s[i], j, end, before[j]);
      done + Placed(s[i..], j, end, before) == done + piece + Placed(s[i + 1..], j + |piece|, end, before)
  {
    assert s[i..][1..] == s[i + 1..];
  }

  // ----- Decoding -----

  /** The characters up to position n; reading on, an escape may use what comes after them, or a terminating NUL. */
  function CharAt(s: seq<byte>, i: nat): byte {
    if i < |s| then s[i] else 0
  }

  predicate EscapeAt(s: seq<byte>, i: nat) {
    CharAt(s, i) == PERCENT && IsHexDigit(CharAt(s, i + 1)) && IsHexDigit(CharAt(s, i + 2))
  }

  function Unescaped(s: seq<byte>, i: nat): byte
    requires EscapeAt(s, i)
  {
    16 * HexValue(CharAt(s, i + 1)) + HexValue(CharAt(s, i + 2))
  }

  /**
   An escape of two hexadecimal digits is decoded to its value; of other characters only a plus sign changes, in a
   form.
   */
  lemma EscapeDecodes(s: seq<byte>, i: nat, form: bool, x: int, y: int)
    requires i < |s| && 0 <= x < 16 && 0 <= y < 16
    ensures i + 2 < |s| && s[i] as char == '%' && Digit(s[i + 1], x) && Digit(s[i + 2], y) ==>
      DecodedByte(s, i, form) == 16 * x + y && After(s, i) == i + 3
    ensures s[i] as char != '%' || i + 2 >= |s| || !IsHexDigit(s[i + 1]) || !IsHexDigit(s[i + 2]) ==>
      && DecodedByte(s, i, form) as char == (if form && s[i] as char == '+' then ' ' else s[i] as char)
      && After(s, i) == i + 1
  {
    if i + 2 < |s| {
      DigitValue(s[i + 1], x);
      DigitValue(s[i + 2], y);
    }
  }

  /** At most room decoded characters, starting from position i. */
  function Decoded(s: seq<byte>, i: nat, n: nat, room: nat, form: bool): (r: seq<byte>)
    decreases room
  {
    if i >= n || room == 0 then []
    else [DecodedByte(s, i, form)] + Decoded(s, After(s, i), n, room - 1, form)
  }

  function DecodedByte(s: seq<byte>, i: nat, form: bool): byte {
    if EscapeAt(s, i) then Unescaped(s, i) else if form && CharAt(s, i) == PLUS then SPACE else CharAt(s, i)
  }

  function After(s: seq<byte>, i: nat): nat {
    if EscapeAt(s, i) then i + 3 else i + 1
  }

  method ReadOne(src: array<byte>, i: nat, form: bool, ghost s: seq<byte>) returns (c: byte, next: nat)
    requires i < src.Length == |s| && forall k :: i <= k < src.Length ==> src[k] == s[k]
    ensures c == DecodedByte(s, i, form) && next == After(s, i)
  {
    if src[i] == PERCENT && i + 2 < src.Length && IsHexDigit(src[i + 1]) && IsHexDigit(src[i + 2]) {
      return 16 * HexValue(src[i + 1]) + HexValue(src[i + 2]), i + 3;
    }
    c, next := if form && src[i] == PLUS then SPACE else src[i], i + 1;
  }

  /** The destination may be the source itself. */
  method UrlDecode(src: array<byte>, srcLen: nat, dst: array<byte>, dstLen: nat, form: bool) returns (j: nat)
    requires srcLen < src.Length && src[src.Length - 1] == 0 && 0 < dstLen <= dst.Length
    requires dst == src ==> srcLen < dstLen
    modifies dst
    ensures j < dstLen && dst[j] == 0
    ensures dst[..j] == Decoded(old(src[..]), 0, srcLen, dstLen - 1, form)
    ensures forall k :: j < k < dst.Length ==> dst[k] == old(dst[k])
  {
    ghost var s := src[..];
    ghost var before := dst[..];
    ghost var done: seq<byte> := [];
    var i := 0;
    j := 0;
    hide *;
    while i < srcLen && j < dstLen - 1
      invariant j <= i && j < dstLen && i <= srcLen + 2 && done == dst[..j]
      invariant src == dst ==> j <= srcLen
      invariant forall k :: (if src == dst then j else 0) <= k < src.Length ==> src[k] == s[k]
      invariant forall k :: j <= k < dst.Length ==> dst[k] == before[k]
      invariant done + Decoded(s, i, srcLen, dstLen - 1 - j, form) == Decoded(s, 0, srcLen, dstLen - 1, form)
      decreases srcLen + 3 - i
    {
      DecodedStep(s, i, srcLen, dstLen - 1 - j, form, done);
      AfterBounds(s, i);
      var c;
      c, i := ReadOne(src, i, form, s);
      Write(dst, j, [c]);
      j, done := j + 1, done + [c];
    }
    DecodedEnd(s, i, srcLen, dstLen - 1 - j, form);
    dst[j] := 0;
    assert dst[..j] == done;
  }

  lemma AfterBounds(s: seq<byte>, i: nat)
    ensures i < After(s, i) <= i + 3
  {
  }

  lemma DecodedEnd(s: seq<byte>, i: nat, n: nat, room: nat, form: bool)
    requires i >= n || room == 0
    ensures Decoded(s, i, n, room, form) == []
  {
  }

  lemma DecodedStep(s: seq<byte>, i: nat, n: nat, room: nat, form: bool, done: seq<byte>)
    requires i < n && room > 0
    ensures done + Decoded(s, i, n, room, form) ==
      done + [DecodedByte(s, i, form)] + Decoded(s, After(s, i), n, room - 1, form)
  {
    DecodedUnfold(s, i, n, room, form);
  }

  lemma DecodedUnfold(s: seq<byte>, i: nat, n: nat, room: nat, form: bool)
    requires i < n && room > 0
    ensures Decoded(s, i, n, room, form) == [DecodedByte(s, i, form)] + Decoded(s, After(s, i), n, room - 1, form)
  {
  }

  // ----- The decoder of the HTTP utilities -----

  datatype Option<T> = None | Some(value: T)

  /**
   What a stream extracts from two characters as a hexadecimal integer: white space, a sign and a prefix are allowed.
   */
  function Extracted(a: byte, b: byte): Option<int> {
    if IsHexDigit(a) then
      if IsHexDigit(b) then Some(16 * HexValue(a) + HexValue(b))
      else if a == 48 && b in {88, 120} then None
      else Some(HexValue(a))
    else if !IsHexDigit(b) then None
    else if IsSpace(a) || a == PLUS then Some(HexValue(b))
    else if a == MINUS then Some(-HexValue(b))
    else None
  }

  /**
   Two digits give their value; a digit and something else gives that digit, unless it looks like a prefix 0x; and
   white space or a sign may stand before one digit. Nothing else is extracted.
   */
  lemma ExtractsExactly(a: byte, b: byte, x: int, y: int)
    requires 0 <= x < 16 && 0 <= y < 16
    ensures Digit(a, x) && Digit(b, y) ==> Extracted(a, b) == Some(16 * x + y)
    ensures Digit(a, x) && !IsHexDigit(b) ==>
      Extracted(a, b) == if a as char == '0' && b as char in "xX" then None else Some(x)
    ensures !IsHexDigit(a) && Digit(b, y) ==>
      Extracted(a, b) ==
      if IsSpace(a) || a as char == '+' then Some(y) else if a as char == '-' then Some(-y) else None
    ensures !IsHexDigit(a) && !IsHexDigit(b) ==> Extracted(a, b) == None
  {
    DigitValue(a, x);
    DigitValue(b, y);
    hide HexValue, IsHexDigit, Digit, IsSpace;
  }

  /** The result and the text that has been decoded when it is known. */
  function UtilityDecoded(s: seq<byte>, i: nat): (r: (bool, seq<byte>))
    decreases |s| - i
  {
    if i >= |s| then (true, [])
    else if s[i] == PERCENT && (i + 3 > |s| || Extracted(s[i + 1], s[i + 2]) == None) then (false, [])
    else
      var (ok, rest) := UtilityDecoded(s, UtilityAfter(s, i));
      (ok, [UtilityByte(s, i)] + rest)
  }

  function UtilityAfter(s: seq<byte>, i: nat): (r: nat)
    requires i < |s|
    ensures r > i
  {
    if s[i] == PERCENT then i + 3 else i + 1
  }

  function UtilityByte(s: seq<byte>, i: nat): byte
    requires i < |s| && (s[i] == PERCENT ==> i + 3 <= |s| && Extracted(s[i + 1], s[i + 2]) != None)
  {
    if s[i] == PERCENT then Extracted(s[i + 1], s[i + 2]).value % 256
    else if s[i] == PLUS then SPACE
    else s[i]
  }

  method UtilityUrlDecode(s: seq<byte>) returns (ok: bool, out: seq<byte>)
    ensures (ok, out) == UtilityDecoded(s, 0)
  {
    out := [];
    var i := 0;
    while i < |s|
      invariant UtilityDecoded(s, 0).0 == UtilityDecoded(s, i).0
      invariant UtilityDecoded(s, 0).1 == out + UtilityDecoded(s, i).1
    {
      if s[i] == PERCENT {
        if i + 3 > |s| || Extracted(s[i + 1], s[i + 2]) == None {
          assert out + [] == out;
          return false, out;
        }
      }
      out := out + [UtilityByte(s, i)];
      i := UtilityAfter(s, i);
    }
    ok := true;
    assert out + [] == out;
  }

  // ----- Round trips -----

  /** The encoding of character c stands at position i of t. */
  predicate ByteAt(t: seq<byte>, i: nat, c: byte) {
    if Plain(c) then i < |t| && t[i] == c
    else i + 2 < |t| && t[i] == PERCENT && t[i + 1] == Hex(c / 16) && t[i + 2] == Hex(c % 16)
  }

  /** The encoding of s stands at position i of t. */
  predicate EncodingAt(t: seq<byte>, i: nat, s: seq<byte>)
    decreases |s|
  {
    s == [] || (ByteAt(t, i, s[0]) && EncodingAt(t, i + |EncodedByte(s[0])|, s[1..]))
  }

  lemma {:induction false} EncodingIsThere(before: seq<byte>, s: seq<byte>, after: seq<byte>)
    ensures EncodingAt(before + Encoded(s) + after, |before|, s)
    decreases |s|
  {
    if s != [] {
      var piece := EncodedByte(s[0]);
      EncodingIsThere(before + piece, s[1..], after);
      FirstByteIsThere(before, s[0], Encoded(s[1..]), after);
      EncodedSplit(s);
      hide *;
      assert before + piece + Encoded(s[1..]) + after == before + Encoded(s) + after;
      EncodingStarts(before + Encoded(s) + after, |before|, s);
    }
  }

  lemma EncodedSplit(s: seq<byte>)
    requires s != []
    ensures Encoded(s) == EncodedByte(s[0]) + Encoded(s[1..])
  {
  }

  lemma EncodingStarts(t: seq<byte>, i: nat, s: seq<byte>)
    requires s != [] && ByteAt(t, i, s[0]) && EncodingAt(t, i + |EncodedByte(s[0])|, s[1..])
    ensures EncodingAt(t, i, s)
  {
  }

  lemma FirstByteIsThere(before: seq<byte>, c: byte, rest: seq<byte>, after: seq<byte>)
    ensures ByteAt(before + EncodedByte(c) + rest + after, |before|, c)
  {
    hide Plain, Hex;
    var t, piece := before + EncodedByte(c) + rest + after, EncodedByte(c);
    assert t[|before|] == piece[0];
    if |piece| == 3 {
      assert t[|before| + 1] == piece[1] && t[|before| + 2] == piece[2];
    }
  }

  lemma DecodesByte(t: seq<byte>, i: nat, c: byte, form: bool)
    requires ByteAt(t, i, c)
    ensures DecodedByte(t, i, form) == c && After(t, i) == i + |EncodedByte(c)|
    ensures UtilityAfter(t, i) == i + |EncodedByte(c)|
    ensures t[i] == PERCENT ==> i + 3 <= |t| && Extracted(t[i + 1], t[i + 2]) != None
    ensures UtilityByte(t, i) == c
  {
    assert c == 16 * (c / 16) + c % 16;
    HexIsHex(c / 16);
    HexIsHex(c % 16);
  }

  lemma HexIsHex(d: int)
    requires 0 <= d < 16
    ensures IsHexDigit(Hex(d)) && HexValue(Hex(d)) == d
  {
  }

  function Prefix(s: seq<byte>, n: nat): seq<byte> {
    if n <= |s| then s[..n] else s
  }

  lemma PrefixStep(s: seq<byte>, n: nat)
    requires s != [] && n > 0
    ensures Prefix(s, n) == [s[0]] + Prefix(s[1..], n - 1)
  {
  }

  /** Decoding an encoded string gives the string back, in either mode; a short buffer gets a prefix of it. */
  lemma {:induction false} RoundTrip(t: seq<byte>, i: nat, s: seq<byte>, room: nat, form: bool)
    requires EncodingAt(t, i, s)
    ensures Decoded(t, i, i + |Encoded(s)|, room, form) == Prefix(s, room)
    decreases |s|
  {
    hide *;
    if s == [] || room == 0 {
      DecodedNothing(t, i, s, room, form);
    } else {
      EncodingStep(t, i, s);
      DecodesByte(t, i, s[0], form);
      EncodedGrows(s);
      RoundTrip(t, i + |EncodedByte(s[0])|, s[1..], room - 1, form);
      DecodedUnfold(t, i, i + |Encoded(s)|, room, form);
      PrefixStep(s, room);
    }
  }

  lemma EncodingStep(t: seq<byte>, i: nat, s: seq<byte>)
    requires EncodingAt(t, i, s) && s != []
    ensures ByteAt(t, i, s[0]) && EncodingAt(t, i + |EncodedByte(s[0])|, s[1..])
  {
  }

  lemma DecodedNothing(t: seq<byte>, i: nat, s: seq<byte>, room: nat, form: bool)
    requires s == [] || room == 0
    ensures Decoded(t, i, i + |Encoded(s)|, room, form) == Prefix(s, room)
  {
  }

  lemma EncodedGrows(s: seq<byte>)
    requires s != []
    ensures |Encoded(s)| == |EncodedByte(s[0])| + |Encoded(s[1..])| && |EncodedByte(s[0])| > 0
  {
  }

  lemma {:induction false} UtilityRoundTrip(t: seq<byte>, i: nat, s: seq<byte>)
    requires EncodingAt(t, i, s) && |t| == i + |Encoded(s)|
    ensures UtilityDecoded(t, i) == (true, s)
    decreases |s|
  {
    if s != [] {
      DecodesByte(t, i, s[0], true);
      EncodedGrows(s);
      UtilityRoundTrip(t, i + |EncodedByte(s[0])|, s[1..]);
      hide EncodedByte, DecodedByte, After, Encoded, EncodingAt, UtilityByte, UtilityAfter, Extracted;
      assert [s[0]] + s[1..] == s;
    }
  }

  /** The three together, from the encoder's output with its terminating NUL. */
  lemma EncodeThenDecode(s: seq<byte>, form: bool)
    ensures forall room: nat :: room >= |s| ==> Decoded(Encoded(s) + [0], 0, |Encoded(s)|, room, form) == s
    ensures UtilityDecoded(Encoded(s), 0) == (true, s)
  {
    EncodingIsThere([], s, [0]);
    assert [] + Encoded(s) + [0] == Encoded(s) + [0];
    forall room: nat | room >= |s|
      ensures Decoded(Encoded(s) + [0], 0, |Encoded(s)|, room, form) == s
    {
      RoundTrip(Encoded(s) + [0], 0, s, room, form);
    }
    EncodingIsThere([], s, []);
    assert [] + Encoded(s) + [] == Encoded(s);
    UtilityRoundTrip(Encoded(s), 0, s);
  }

  /**
   When every percent sign stands before two hexadecimal digits the two decoders agree, the server's one reading a
   form.
   */
  lemma {:induction false} DecodersAgree(s: seq<byte>, i: nat, room: nat)
    requires room + i >= |s|
    requires forall k :: i <= k < |s| && s[k] as char == '%' ==>
               k + 2 < |s| && IsHexDigit(s[k + 1]) && IsHexDigit(s[k + 2])
    ensures UtilityDecoded(s, i) == (true, Decoded(s, i, |s|, room, true))
    decreases |s| - i
  {
    if i < |s| {
      DecodersAgree(s, After(s, i), room - 1);
    }
  }
}
