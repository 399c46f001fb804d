/**
 How the server cuts the byte stream of a client into requests: the scan for the end of the header
 block, reading until it is there, reading the body, and moving on to the next request of a
 connection that is kept alive.
 */
module RequestFraming {
  type byte = x: int | 0 <= x < 256

  const LF: byte := 10
  const CR: byte := 13
  const MAX_REQUEST_SIZE := 16384

  // ----- The end of a header block -----

  /** Neither printable, nor a line break, nor above the ASCII range. */
  predicate Bad(c: byte) {
    c < 128 && !(32 <= c <= 126) && c != CR && c != LF
  }

  /** What the scan finds at position i: a forbidden character (-1), the end of the block, or nothing (0). */
  function Found(buf: seq<byte>, i: nat): int
    requires i + 1 < |buf|
  {
    if Bad(buf[i]) then -1
    else if buf[i] == LF && buf[i + 1] == LF then i + 2
    else if buf[i] == LF && i + 2 < |buf| && buf[i + 1] == CR && buf[i + 2] == LF then i + 3
    else 0
  }

  /** The first finding from position i on. */
  function Scan(buf: seq<byte>, i: nat): int
    decreases |buf| - i
  {
    if i + 1 >= |buf| then 0
    else if Found(buf, i) != 0 then Found(buf, i)
    else Scan(buf, i + 1)
  }

  /** The length of the first request's header block: negative if malformed, zero if incomplete. */
  function RequestLen(buf: seq<byte>): int {
    Scan(buf, 0)
  }

  /** An empty line ends at position r. */
  predicate EmptyLine(buf: seq<byte>, r: int) {
    && 2 <= r <= |buf|
    && buf[r - 1] == LF
    && (buf[r - 2] == LF || (r >= 3 && buf[r - 2] == CR && buf[r - 3] == LF))
  }

  predicate NothingBefore(buf: seq<byte>, i: nat) {
    forall h: nat :: h < i && h + 1 < |buf| ==> Found(buf, h) == 0
  }

  lemma {:induction false} ScanFindsFirst(buf: seq<byte>, i: nat) returns (at: nat)
    requires NothingBefore(buf, i)
    ensures NothingBefore(buf, at)
    ensures if Scan(buf, i) == 0 then at + 1 >= |buf| else at + 1 < |buf| && Found(buf, at) == Scan(buf, i)
    decreases |buf| - i
  {
    if i + 1 >= |buf| || Found(buf, i) != 0 {
      at := i;
    } else {
      at := ScanFindsFirst(buf, i + 1);
    }
  }

  lemma EmptyLineFound(buf: seq<byte>, r: int)
    requires EmptyLine(buf, r)
    ensures exists h: nat :: h + 2 <= r <= h + 3 && Found(buf, h) == r
  {
    assert Found(buf, if buf[r - 2] == LF then r - 2 else r - 3) == r;
  }

  /** A positive length is that of the shortest block that ends with an empty line, if all of it is well-formed. */
  lemma CompleteHead(buf: seq<byte>, r: int)
    requires r > 0
    ensures RequestLen(buf) == r <==>
      && EmptyLine(buf, r)
      && (forall h: int :: h < r ==> !EmptyLine(buf, h))
      && (forall i: nat :: i < r ==> !Bad(buf[i]))
  {
    var at := ScanFindsFirst(buf, 0);
    if RequestLen(buf) == r {
      forall h: int | h < r
        ensures !EmptyLine(buf, h)
      {
        if EmptyLine(buf, h) { EmptyLineFound(buf, h); }
      }
      forall i: nat | i < r
        ensures !Bad(buf[i])
      {
        assert i < at ==> Found(buf, i) == 0;
      }
    }
    if EmptyLine(buf, r) && (forall h: int :: h < r ==> !EmptyLine(buf, h))
        && (forall i: nat :: i < r ==> !Bad(buf[i])) {
      EmptyLineFound(buf, r);
      var h: nat :| h + 2 <= r <= h + 3 && Found(buf, h) == r;
      FoundEmptyLine(buf, at);
      assert at <= h;
    }
  }

  lemma FoundEmptyLine(buf: seq<byte>, i: nat)
    ensures i + 1 < |buf| && Found(buf, i) > 0 ==> EmptyLine(buf, Found(buf, i))
  {
  }

  /** A negative length: a forbidden character, other than the last one in the buffer, comes before any empty line. */
  lemma MalformedHead(buf: seq<byte>)
    ensures RequestLen(buf) < 0 <==>
      exists b: nat :: b + 1 < |buf| && Bad(buf[b]) && forall r: int :: r <= b ==> !EmptyLine(buf, r)
  {
    var at := ScanFindsFirst(buf, 0);
    FoundEmptyLine(buf, at);
    if RequestLen(buf) < 0 {
      forall r: int | r <= at
        ensures !EmptyLine(buf, r)
      {
        if EmptyLine(buf, r) { EmptyLineFound(buf, r); }
      }
      assert at + 1 < |buf| && Bad(buf[at]);
    }
    if b: nat :| b + 1 < |buf| && Bad(buf[b]) && forall r: int :: r <= b ==> !EmptyLine(buf, r) {
      assert Found(buf, b) == -1;
      assert at <= b;
    }
  }

  /** An answer other than "incomplete" is not changed by what arrives later. */
  lemma {:induction false} AnswerIsStable(buf: seq<byte>, more: seq<byte>, i: nat)
    requires Scan(buf, i) != 0
    ensures Scan(buf + more, i) == Scan(buf, i)
    decreases |buf| - i
  {
    if Found(buf, i) == 0 {
      AnswerIsStable(buf, more, i + 1);
    }
  }

  /** The scan of the first n bytes of a buffer. */
  method GetRequestLen(buf: array<byte>, n: nat) returns (len: int)
    requires n <= buf.Length
    ensures len == RequestLen(buf[..n])
  {
    len := 0;
    var s := 0;
    while len <= 0 && s + 1 < n
      invariant s <= n
      invariant RequestLen(buf[..n]) == if len > 0 then len else Scan(buf[..n], s)
      decreases n - s
    {
      if Bad(buf[s]) {
        return -1;
      } else if buf[s] == LF && buf[s + 1] == LF {
        len := s + 2;
      } else if buf[s] == LF && s + 2 < n && buf[s + 1] == CR && buf[s + 2] == LF {
        len := s + 3;
      }
      s := s + 1;
    }
  }

  function Take(s: seq<byte>, n: nat): (r: seq<byte>)
    ensures |r| <= n && r <= s
  {
    if |s| <= n then s else s[..n]
  }

  // ----- A connection -----

  /**
   What a header block says: whether it parses, has a valid URI and a known version, how long a body it announces
   (negative for one of unknown length), and whether it lets the connection be kept alive.
   */
  datatype Meaning = Meaning(parses: bool, uriOk: bool, versionKnown: bool, declared: int, keepAlive: bool)

  type Parser = seq<byte> -> Meaning

  /**
   A request, the content length that it was dropped with, how many bytes behind its header block were buffered and
   consumed then, and whether its answer closes the connection.
   */
  datatype Message = Message(
    head: seq<byte>, meaning: Meaning, contentLen: int, buffered: nat, consumed: nat, closes: bool)

  /** Why a connection is not read any further. */
  datatype Ending = ReadFailed | TooLarge | Malformed | ClosedByClient | NotKeptAlive

  /** Only such a request gets to its handler. */
  predicate Handled(meaning: Meaning) {
    meaning.parses && meaning.uriOk && meaning.versionKnown
  }

  /**
   How many bytes behind the header block are passed over: the content length, or all that is buffered or was
   consumed.
   */
  function Passed(contentLen: int, buffered: nat, consumed: nat): nat {
    if 0 <= contentLen < buffered then contentLen else if consumed <= buffered then buffered else consumed
  }

  function Taken(m: Message): nat {
    Passed(m.contentLen, m.buffered, m.consumed)
  }

  /** The stream s consists of the messages and the rest, with every header block ending where it should. */
  ghost predicate CutAt(s: seq<byte>, messages: seq<Message>, rest: seq<byte>) {
    if messages == [] then s == rest
    else StartsWith(s, messages[0]) && CutAt(s[|messages[0].head| + Taken(messages[0])..], messages[1..], rest)
  }

  ghost predicate StartsWith(s: seq<byte>, m: Message) {
    RequestLen(s) == |m.head| > 0 && |m.head| + Taken(m) <= |s| && |m.head| + m.buffered <= |s|
        && m.head == s[..|m.head|]
  }

  lemma StartsInside(s: seq<byte>, m: Message)
    requires StartsWith(s, m)
    ensures 0 < |m.head| + Taken(m) <= |s|
  {
  }

  lemma {:induction false} CutOneMore(s: seq<byte>, messages: seq<Message>, rest: seq<byte>, m: Message)
    requires CutAt(s, messages, rest) && StartsWith(rest, m)
    ensures CutAt(s, messages + [m], rest[|m.head| + Taken(m)..])
  {
    StartsInside(rest, m);
    var after := rest[|m.head| + Taken(m)..];
    if messages != [] { StartsInside(s, messages[0]); }
    hide StartsWith, Taken;
    if messages == [] {
      assert CutAt(after, [], after);
      assert ([] + [m])[1..] == [];
    } else {
      CutOneMore(s[|messages[0].head| + Taken(messages[0])..], messages[1..], rest, m);
      assert (messages + [m])[1..] == messages[1..] + [m];
    }
  }

  /**
   A handled request sets the content length; any other leaves the one of the request before it, and consumes
   nothing.
   */
  predicate Follows(m: Message, before: int) {
    && m.contentLen == (if Handled(m.meaning) then m.meaning.declared else before)
    && (m.consumed > 0 ==> Handled(m.meaning) && m.consumed <= m.contentLen)
    && (!Handled(m.meaning) ==> (m.closes <==> !m.meaning.parses || !m.meaning.uriOk))
  }

  /** Behind such a request the next one is read. */
  predicate KeptAlive(m: Message, keepAliveEnabled: bool) {
    keepAliveEnabled && m.contentLen >= 0 && !m.closes && m.meaning.keepAlive
  }

  function LengthBefore(before: int, messages: seq<Message>, i: nat): int
    requires i <= |messages|
  {
    if i == 0 then before else messages[i - 1].contentLen
  }

  predicate Link(parse: Parser, before: int, messages: seq<Message>, i: nat)
    requires i < |messages|
  {
    messages[i].meaning == parse(messages[i].head) && Follows(messages[i], LengthBefore(before, messages, i))
  }

  /** Each message is what its header block says, and follows the one before it. */
  predicate Chain(parse: Parser, before: int, messages: seq<Message>) {
    forall i :: 0 <= i < |messages| ==> Link(parse, before, messages, i)
  }

  lemma ChainOneMore(parse: Parser, before: int, messages: seq<Message>, m: Message)
    requires Chain(parse, before, messages)
    requires m.meaning == parse(m.head) && Follows(m, LengthBefore(before, messages, |messages|))
    ensures Chain(parse, before, messages + [m])
    ensures LengthBefore(before, messages + [m], |messages + [m]|) == m.contentLen
  {
    hide Link, Follows;
    forall i | 0 <= i < |messages + [m]|
      ensures Link(parse, before, messages + [m], i)
    {
      if i < |messages| {
        LinkStays(parse, before, messages, m, i);
      } else {
        LastLink(parse, before, messages, m);
      }
    }
  }

  lemma LinkStays(parse: Parser, before: int, messages: seq<Message>, m: Message, i: nat)
    requires i < |messages| && Link(parse, before, messages, i)
    ensures Link(parse, before, messages + [m], i)
  {
    hide Follows;
  }

  lemma LastLink(parse: Parser, before: int, messages: seq<Message>, m: Message)
    requires m.meaning == parse(m.head) && Follows(m, LengthBefore(before, messages, |messages|))
    ensures Link(parse, before, messages + [m], |messages|)
  {
    hide Follows;
  }

  // ----- Where the next request is looked for -----

  /** It is looked for where it starts: right behind the announced body. */
  predicate RightBoundary(m: Message) {
    Taken(m) == m.meaning.declared
  }

  /** The boundary behind a handled request is right exactly when its body was all buffered or all consumed. */
  lemma HandledBoundary(m: Message, before: int)
    requires Follows(m, before) && Handled(m.meaning) && m.meaning.declared >= 0
    ensures RightBoundary(m) <==> m.meaning.declared <= m.buffered || m.consumed == m.meaning.declared
  {
  }

  /** Behind a request that is not handled the content length of the request before it decides. */
  lemma UnhandledBoundary(m: Message, before: int)
    requires Follows(m, before) && !Handled(m.meaning)
    ensures RightBoundary(m) <==>
      0 <= m.meaning.declared == before < m.buffered
          || (m.meaning.declared == m.buffered && !(0 <= before < m.buffered))
  {
  }

  /**
   The boundary behind a request without a body is right exactly when it was handled, or the old content length is 0,
   or nothing else is buffered.
   */
  lemma BodylessBoundary(m: Message, before: int)
    requires Follows(m, before) && m.meaning.declared == 0
    ensures RightBoundary(m) <==> Handled(m.meaning) || before == 0 || m.buffered == 0
  {
  }

  /** The header blocks of a stream of requests with their bodies, up to one whose body is unknown or incomplete. */
  function Requests(parse: Parser, s: seq<byte>): seq<seq<byte>>
    decreases |s|
  {
    var r := RequestLen(s);
    if !(0 < r <= |s|) then []
    else
      var declared := parse(s[..r]).declared;
      if declared < 0 || r + declared > |s| then [s[..r]] else [s[..r]] + Requests(parse, s[r + declared..])
  }

  function HeadsOf(messages: seq<Message>): seq<seq<byte>> {
    if messages == [] then [] else [messages[0].head] + HeadsOf(messages[1..])
  }

  lemma RequestsStep(parse: Parser, s: seq<byte>, n: nat)
    requires 0 < n <= |s| && RequestLen(s) == n && 0 <= parse(s[..n]).declared <= |s| - n
    ensures Requests(parse, s) == [s[..n]] + Requests(parse, s[n + parse(s[..n]).declared..])
  {
  }

  /**
   With right boundaries the requests handled are the first ones of the stream, and what is left starts with the next
   one.
   */
  lemma {:induction false} RequestsInOrder(parse: Parser, s: seq<byte>, messages: seq<Message>, rest: seq<byte>)
    requires CutAt(s, messages, rest)
    requires forall i :: 0 <= i < |messages| ==>
             messages[i].meaning == parse(messages[i].head) && RightBoundary(messages[i])
    ensures Requests(parse, s) == HeadsOf(messages) + Requests(parse, rest)
  {
    hide RequestLen, Requests;
    if messages != [] {
      var m := messages[0];
      assert m.meaning == parse(m.head) && RightBoundary(m);
      RequestsInOrder(parse, s[|m.head| + Taken(m)..], messages[1..], rest);
      RequestsStep(parse, s, |m.head|);
    }
  }

  /** Requests without bodies, all of them handled or with nothing behind them in the buffer, are never missed. */
  lemma BodylessRequests(parse: Parser, before: int, s: seq<byte>, messages: seq<Message>, rest: seq<byte>)
    requires CutAt(s, messages, rest) && Chain(parse, before, messages)
    requires forall i :: 0 <= i < |messages| ==> messages[i].meaning.declared == 0
    requires forall i :: 0 <= i < |messages| ==>
      Handled(messages[i].meaning) || LengthBefore(before, messages, i) == 0 || messages[i].buffered == 0
    ensures Requests(parse, s) == HeadsOf(messages) + Requests(parse, rest)
  {
    hide CutAt, Requests, HeadsOf, RightBoundary, Follows, Handled;
    forall i | 0 <= i < |messages|
      ensures messages[i].meaning == parse(messages[i].head) && RightBoundary(messages[i])
    {
      assert Link(parse, before, messages, i);
      BodylessBoundary(messages[i], LengthBefore(before, messages, i));
    }
    RequestsInOrder(parse, s, messages, rest);
  }

  /** Handled requests whose bodies were all buffered or all consumed are never missed. */
  lemma RequestsWithBodies(parse: Parser, before: int, s: seq<byte>, messages: seq<Message>, rest: seq<byte>)
    requires CutAt(s, messages, rest) && Chain(parse, before, messages)
    requires forall i :: 0 <= i < |messages| ==> (
      && Handled(messages[i].meaning) && messages[i].meaning.declared >= 0
      && (messages[i].meaning.declared <= messages[i].buffered || messages[i].consumed == messages[i].meaning.declared))
    ensures Requests(parse, s) == HeadsOf(messages) + Requests(parse, rest)
  {
    hide CutAt, Requests, HeadsOf, RightBoundary, Follows, Handled;
    forall i | 0 <= i < |messages|
      ensures messages[i].meaning == parse(messages[i].head) && RightBoundary(messages[i])
    {
      assert Link(parse, before, messages, i);
      HandledBoundary(messages[i], LengthBefore(before, messages, i));
    }
    RequestsInOrder(parse, s, messages, rest);
  }

  // ----- A request that is lost -----

  /** A header block that ends with its first empty line and has no forbidden characters. */
  predicate IsHead(head: seq<byte>) {
    RequestLen(head) == |head| > 0
  }

  lemma HeadStarts(head: seq<byte>, more: seq<byte>)
    requires IsHead(head)
    ensures RequestLen(head + more) == |head| && (head + more)[..|head|] == head && (head + more)[|head|..] == more
  {
    AnswerIsStable(head, more, 0);
  }

  lemma RequestOf(parse: Parser, head: seq<byte>, body: seq<byte>, more: seq<byte>)
    requires IsHead(head) && parse(head).declared == |body|
    ensures Requests(parse, head + (body + more)) == [head] + Requests(parse, more)
  {
    hide IsHead, Requests;
    assert |head| > 0 by { HeadLength(head); }
    HeadStarts(head, body + more);
    RequestsStep(parse, head + (body + more), |head|);
    assert (head + (body + more))[|head| + |body|..] == more;
  }

  lemma HeadLength(head: seq<byte>)
    requires IsHead(head)
    ensures |head| > 0
  {
  }

  lemma MessageStarts(m: Message, more: seq<byte>)
    requires IsHead(m.head) && Taken(m) <= |more| && m.buffered <= |more|
    ensures StartsWith(m.head + more, m)
  {
    HeadStarts(m.head, more);
    hide RequestLen, Taken;
  }

  /** Three requests arrive at once; the first is handled, the second has an unknown version and no body. */
  function ThreeRequests(first: seq<byte>, body: seq<byte>, second: seq<byte>, third: seq<byte>): seq<byte> {
    first + (body + (second + third))
  }

  function FirstMessage(
      parse: Parser, first: seq<byte>, body: seq<byte>, second: seq<byte>, third: seq<byte>, consumed: nat): Message
  {
    Message(first, parse(first), |body|, |body + (second + third)|, consumed, false)
  }

  /** The second request still has the content length of the first one. */
  function SecondMessage(parse: Parser, body: seq<byte>, second: seq<byte>, third: seq<byte>): Message {
    Message(second, parse(second), |body|, |third|, 0, false)
  }

  /**
   On a fresh connection: a handled request with a body, then one of an unknown version, then a third that is not
   longer than that body, all of them in the buffer. Behind the second one the content length of the first is passed
   over again, so the third request is lost, however much of its body the first one's handler has consumed.
   */
  lemma StaleLengthLosesRequest(
      parse: Parser, first: seq<byte>, body: seq<byte>, second: seq<byte>, third: seq<byte>, consumed: nat)
    requires IsHead(first) && IsHead(second) && IsHead(third) && consumed <= |body|
    requires parse(first) == Meaning(true, true, true, |body|, true)
    requires parse(second) == Meaning(true, true, false, 0, true)
    requires parse(third).declared == 0 && |third| <= |body|
    ensures var s := ThreeRequests(first, body, second, third);
            var messages :=
              [FirstMessage(parse, first, body, second, third, consumed), SecondMessage(parse, body, second, third)];
            && CutAt(s, messages, []) && Chain(parse, 0, messages) && !RightBoundary(messages[1])
            && KeptAlive(messages[0], true) && KeptAlive(messages[1], true)
            && Requests(parse, s) == [first, second, third]
            && HeadsOf(messages) + Requests(parse, []) == [first, second]
  {
    hide IsHead, RequestLen, Requests;
    ThreeFound(parse, first, body, second, third);
    HeadLength(third);
    var m := FirstMessage(parse, first, body, second, third, consumed);
    var n := SecondMessage(parse, body, second, third);
    MessageStarts(m, body + (second + third));
    assert (first + (body + (second + third)))[|first| + |body|..] == second + third;
    MessageStarts(n, third);
    assert (second + third)[|second| + |third|..] == [];
    TwoCut(ThreeRequests(first, body, second, third), m, n, second + third, []);
    TwoHeads(m, n);
    NoRequests(parse);
  }

  lemma TwoHeads(m: Message, n: Message)
    ensures HeadsOf([m, n]) == [m.head, n.head]
  {
    assert [m, n][1..] == [n] && [n][1..] == [];
    assert HeadsOf([n]) == [n.head];
  }

  lemma TwoCut(s: seq<byte>, m: Message, n: Message, after: seq<byte>, rest: seq<byte>)
    requires StartsWith(s, m) && s[|m.head| + Taken(m)..] == after
    requires StartsWith(after, n) && after[|n.head| + Taken(n)..] == rest
    ensures CutAt(s, [m, n], rest)
  {
    hide StartsWith, Taken;
    assert CutAt(rest, [], rest);
    assert [m, n][1..] == [n] && [n][1..] == [];
    StartsInside(s, m);
    StartsInside(after, n);
    assert CutAt(after, [n], rest);
  }

  lemma ThreeFound(parse: Parser, first: seq<byte>, body: seq<byte>, second: seq<byte>, third: seq<byte>)
    requires IsHead(first) && IsHead(second) && IsHead(third)
    requires parse(first).declared == |body| && parse(second).declared == 0 && parse(third).declared == 0
    ensures Requests(parse, ThreeRequests(first, body, second, third)) == [first, second, third]
  {
    hide IsHead, Requests;
    RequestOf(parse, first, body, second + third);
    RequestOf(parse, second, [], third);
    RequestOf(parse, third, [], []);
    NoRequests(parse);
    assert [] + third == third && third + ([] + []) == third;
  }

  lemma NoRequests(parse: Parser)
    ensures Requests(parse, []) == []
  {
  }

  // ----- Header blocks made of lines -----

  predicate Printable(line: seq<byte>) {
    |line| > 0 && forall i :: 0 <= i < |line| ==> 32 <= line[i] <= 126
  }

  function Lines(lines: seq<seq<byte>>): seq<byte> {
    if lines == [] then [CR, LF] else lines[0] + ([CR, LF] + Lines(lines[1..]))
  }

  lemma {:induction false} ScanQuiet(buf: seq<byte>, i: nat, j: nat)
    requires i <= j < |buf| && forall k :: i <= k < j ==> !Bad(buf[k]) && buf[k] != LF
    ensures Scan(buf, i) == Scan(buf, j)
    decreases j - i
  {
    if i < j {
      ScanQuiet(buf, i + 1, j);
    }
  }

  /** At the end of a line the scan either goes on with the next line or has found the empty one. */
  lemma {:induction false} ScanLines(buf: seq<byte>, i: nat, lines: seq<seq<byte>>)
    requires i <= |buf| && buf[i..] == Lines(lines) && lines != []
    requires forall k :: 0 <= k < |lines| ==> Printable(lines[k])
    ensures Scan(buf, i) == |buf|
    decreases |lines|
  {
    var line, rest := lines[0], lines[1..];
    var end := i + |line| + 1;
    assert Printable(line);
    LineAt(buf, i, line, Lines(rest));
    ScanQuiet(buf, i, end);
    if rest == [] {
      assert buf[end + 1..] == [CR, LF];
      assert buf[end + 1] == CR && buf[end + 2] == LF && |buf| == end + 3;
      assert Found(buf, end) == end + 3;
    } else {
      assert Printable(rest[0]);
      assert buf[end + 1] == buf[end + 1..][0] == rest[0][0];
      assert Found(buf, end) == 0;
      ScanLines(buf, end + 1, rest);
    }
  }

  lemma LineAt(buf: seq<byte>, i: nat, line: seq<byte>, rest: seq<byte>)
    requires i <= |buf| && buf[i..] == line + ([CR, LF] + rest) && Printable(line)
    ensures var end := i + |line| + 1;
            && end < |buf| && buf[end] == LF && buf[end + 1..] == rest
            && forall k :: i <= k < end ==> !Bad(buf[k]) && buf[k] != LF
  {
    var end := i + |line| + 1;
    forall k | i <= k < end
      ensures buf[k] == if k < end - 1 then line[k - i] else CR
    {
      assert buf[k] == buf[i..][k - i];
    }
    assert buf[end] == buf[i..][|line| + 1];
    assert buf[end + 1..] == buf[i..][|line| + 2..];
  }

  /** Printable lines and an empty one are a header block. */
  lemma LinesAreHead(lines: seq<seq<byte>>)
    requires lines != [] && forall k :: 0 <= k < |lines| ==> Printable(lines[k])
    ensures IsHead(Lines(lines))
  {
    ScanLines(Lines(lines), 0, lines);
  }

  /** The bytes of a text in ASCII. */
  function Ascii(text: string): seq<byte> {
    seq(|text|, i requires 0 <= i < |text| => if text[i] <= '~' then text[i] as int else 0)
  }

  predicate PrintableText(text: string) {
    text != "" && forall i :: 0 <= i < |text| ==> ' ' <= text[i] <= '~'
  }

  lemma TextIsPrintable(text: string)
    requires PrintableText(text)
    ensures Printable(Ascii(text)) && |Ascii(text)| == |text|
  {
  }

  function Post(): seq<byte> {
    Lines([Ascii("POST /a HTTP/1.1"), Ascii("Connection: keep-alive"), Ascii("Content-Length: 80")])
  }

  function GetOfUnknownVersion(): seq<byte> {
    Lines([Ascii("GET /b HTTP/1.2"), Ascii("Connection: keep-alive")])
  }

  function Get(): seq<byte> {
    Lines([Ascii("GET /c HTTP/1.1"), Ascii("Connection: keep-alive")])
  }

  lemma TwoLinesAreHead(first: string, second: string)
    requires PrintableText(first) && PrintableText(second)
    ensures IsHead(Lines([Ascii(first), Ascii(second)]))
    ensures |Lines([Ascii(first), Ascii(second)])| == |first| + |second| + 6
  {
    TextIsPrintable(first);
    TextIsPrintable(second);
    var x, y := Ascii(first), Ascii(second);
    hide Printable, Ascii, IsHead;
    LinesAreHead([x, y]);
    LineLength([x, y]);
    LineLength([y]);
    assert [x, y][1..] == [y];
  }

  lemma LineLength(lines: seq<seq<byte>>)
    requires lines != []
    ensures |Lines(lines)| == |lines[0]| + 2 + |Lines(lines[1..])|
    ensures |Lines([])| == 2
  {
  }

  lemma ThreeLinesAreHead(first: string, second: string, third: string)
    requires PrintableText(first) && PrintableText(second) && PrintableText(third)
    ensures IsHead(Lines([Ascii(first), Ascii(second), Ascii(third)]))
  {
    TextIsPrintable(first);
    TextIsPrintable(second);
    TextIsPrintable(third);
    hide Printable, Ascii, IsHead, Lines;
    LinesAreHead([Ascii(first), Ascii(second), Ascii(third)]);
  }

  lemma RealHeads()
    ensures IsHead(Post()) && IsHead(GetOfUnknownVersion()) && IsHead(Get()) && |Get()| == 43
  {
    hide Printable, Ascii, IsHead, Lines;
    ThreeLinesAreHead("POST /a HTTP/1.1", "Connection: keep-alive", "Content-Length: 80");
    TwoLinesAreHead("GET /b HTTP/1.2", "Connection: keep-alive");
    TwoLinesAreHead("GET /c HTTP/1.1", "Connection: keep-alive");
  }

  /** Such requests, with the header lines that keep the connection alive. */
  lemma GetIsLost(parse: Parser, body: seq<byte>)
    requires |body| == 80
    requires parse(Post()) == Meaning(true, true, true, 80, true)
    requires parse(GetOfUnknownVersion()) == Meaning(true, true, false, 0, true)
    requires parse(Get()) == Meaning(true, true, true, 0, true)
    ensures var s := ThreeRequests(Post(), body, GetOfUnknownVersion(), Get());
            && Requests(parse, s) == [Post(), GetOfUnknownVersion(), Get()]
            && exists messages :: CutAt(s, messages, []) && Chain(parse, 0, messages)
                               && HeadsOf(messages) == [Post(), GetOfUnknownVersion()]
  {
    hide *;
    RealHeads();
    NoRequests(parse);
    StaleLengthLosesRequest(parse, Post(), body, GetOfUnknownVersion(), Get(), 80);
  }

  class Connection {
    const parse: Parser
    const buf: array<byte>
    var dataLen: nat
    var requestLen: int
    var contentLen: int
    var consumedContent: nat
    var mustClose: bool         // also after an answer of 401
    var stopFlag: bool          // of the whole server
    var unread: seq<byte>       // what the socket still has to deliver
    ghost var direct: seq<byte> // read from the socket past the buffer, for the current request
    ghost var received: seq<int> // history: what each read of the socket gave, negative if it failed

    predicate Valid()
      reads this
    {
      dataLen <= buf.Length
    }

    /** The record that a worker allocates once and uses for all its clients. */
    constructor (parse: Parser, stopFlag: bool, stream: seq<byte>)
      ensures Valid() && fresh(buf) && buf.Length == MAX_REQUEST_SIZE && this.parse == parse
      ensures Buffered() == [] && Stream() == stream && contentLen == 0 && this.stopFlag == stopFlag
    {
      this.parse, buf := parse, new byte[MAX_REQUEST_SIZE](_ => 0);
      dataLen, requestLen, contentLen, consumedContent := 0, 0, 0, 0;
      mustClose, this.stopFlag, unread, direct := false, stopFlag, stream, [];
    }

    function Buffered(): seq<byte>
      requires Valid()
      reads this, buf
    {
      buf[..dataLen]
    }

    /** Everything that follows in the stream. */
    function Stream(): seq<byte>
      requires Valid()
      reads this, buf
    {
      Buffered() + unread
    }

    /** Another thread may set the stop flag; nobody resets it. */
    method OthersMayStop()
      modifies `stopFlag
      ensures old(stopFlag) ==> stopFlag
    {
      var stop: bool := *;
      stopFlag := stopFlag || stop;
    }

    /** The last of the reads since then has failed, or the server is stopping. */
    ghost predicate FailedSince(before: nat)
      reads this
    {
      |received| > before && (stopFlag || received[|received| - 1] < 0)
    }

    /** The socket gives at least one byte, fewer than asked for as it may be, nothing only at the end of the stream. */
    method Recv(len: nat) returns (n: int, data: seq<byte>)
      requires len > 0
      modifies `unread, `received
      ensures received == old(received) + [n]
      ensures if n < 0 then n == -1 && unread == old(unread)
              else n == |data| <= len && old(unread) == data + unread && (n == 0 ==> unread == [])
    {
      var failed: bool := *;
      n, data := -1, [];
      if !failed {
        var k: int := *;
        if k <= 0 || k > len { k := 1; }
        if k > |unread| { k := |unread|; }
        n, data, unread := k, unread[..k], unread[k..];
      }
      received := received + [n];
    }

    /** A read counts as failed when the server is stopping. */
    method Pull(len: nat) returns (n: int, data: seq<byte>)
      requires len > 0
      modifies `stopFlag, `unread, `received
      ensures old(stopFlag) ==> stopFlag
      ensures n == -1 || (n == |data| <= len && old(unread) == data + unread && (n == 0 ==> unread == []))
      ensures if stopFlag then n == -1 else n == -1 ==> unread == old(unread)
      ensures old(received) < received && (n == -1 <==> FailedSince(|old(received)|))
    {
      n, data := Recv(len);
      OthersMayStop();
      if stopFlag { n := -1; }
    }

    /** Read until a request is complete, malformed, too large, or the client has closed. */
    method ReadRequest() returns (r: int, failed: bool)
      requires Valid()
      modifies `dataLen, `stopFlag, `unread, `received, buf
      ensures Valid() && (old(stopFlag) ==> stopFlag)
      ensures old(received) <= received
      ensures failed ==> r == -1 && FailedSince(|old(received)|)
      ensures RequestLen(old(Buffered())) != 0 || old(dataLen) == buf.Length ==>
                !failed && received == old(received) && Buffered() == old(Buffered())
      ensures !stopFlag || !failed ==> Stream() == old(Stream())
      ensures !failed ==> r == RequestLen(Take(old(Stream()), buf.Length))
      ensures !failed ==> r == RequestLen(Buffered()) && (r == 0 ==> Buffered() == Take(old(Stream()), buf.Length))
    {
      var n := 1;
      failed := false;
      r := GetRequestLen(buf, dataLen);
      while dataLen < buf.Length && r == 0 && n > 0
        invariant Valid() && (old(stopFlag) ==> stopFlag)
        invariant Stream() == old(Stream()) && r == RequestLen(Buffered())
        invariant n >= 0 && (n == 0 ==> unread == []) && old(received) <= received
        invariant RequestLen(old(Buffered())) != 0 || old(dataLen) == buf.Length ==>
          received == old(received) && Buffered() == old(Buffered())
        decreases buf.Length - dataLen, n
      {
        ghost var was := Buffered();
        var data;
        n, data := Pull(buf.Length - dataLen);
        if n < 0 {
          return -1, true;
        }
        if n > 0 {
          Store(data);
          assert Buffered() == was + data;
          r := GetRequestLen(buf, dataLen);
        }
      }
      BufferedAnswer(Buffered(), unread, buf.Length);
    }

    method Store(data: seq<byte>)
      requires Valid() && dataLen + |data| <= buf.Length
      modifies `dataLen, buf
      ensures Valid() && Buffered() == old(Buffered()) + data
    {
      forall i | 0 <= i < |data| {
        buf[dataLen + i] := data[i];
      }
      dataLen := dataLen + |data|;
    }

    // ----- The body of a request -----

    /** How many bytes of the body are in the buffer. */
    function InBuffer(): int
      reads this
    {
      dataLen - requestLen
    }

    /**
     The connection is at a request that starts the stream s; the bytes before requestLen may have been overwritten.
     */
    ghost predicate AtRequest(s: seq<byte>)
      reads this, buf
    {
      && Valid() && 0 < requestLen <= dataLen && requestLen <= |s|
      && (consumedContent > 0 ==> consumedContent <= contentLen)
      && |direct| == (if consumedContent <= InBuffer() then 0 else consumedContent - InBuffer())
      && buf[requestLen..dataLen] + direct <= s[requestLen..]
      && (!stopFlag ==> s[requestLen..] == buf[requestLen..dataLen] + direct + unread)
    }

    /** How far into the body the connection gets with this request. */
    ghost function BodyTaken(): nat
      requires requestLen <= dataLen
      reads this
    {
      Passed(contentLen, InBuffer(), consumedContent)
    }

    /** Give out bytes of the body that are in the buffer. */
    method ReadBuffered(len: nat, ghost s: seq<byte>) returns (data: seq<byte>)
      requires AtRequest(s) && consumedContent + len <= contentLen
      modifies `consumedContent
      ensures AtRequest(s) && consumedContent == old(consumedContent) + |data|
      ensures |data| == len || (|data| < len && consumedContent >= InBuffer())
      ensures requestLen + consumedContent <= |s|
      ensures data == s[requestLen + old(consumedContent)..requestLen + consumedContent]
    {
      data := [];
      var body := requestLen + consumedContent;
      var bufferedLen := dataLen - body;
      if bufferedLen > 0 {
        if len < bufferedLen {
          bufferedLen := len;
        }
        data := buf[..][body..body + bufferedLen];
        assert buf[..][requestLen..dataLen] == buf[requestLen..dataLen] <= s[requestLen..];
        KnownSlice(buf[..], s, requestLen, dataLen, consumedContent, bufferedLen);
        consumedContent := consumedContent + bufferedLen;
      } else {
        ConsumedInStream(s);
        assert data == s[requestLen + consumedContent..requestLen + consumedContent];
      }
    }

    /** Read bytes of the body from the socket, past the buffer. */
    method ReadDirect(len: nat, ghost s: seq<byte>) returns (n: int, data: seq<byte>)
      requires AtRequest(s) && consumedContent + len <= contentLen && consumedContent >= InBuffer() && len > 0
      modifies `consumedContent, `stopFlag, `unread, `direct, `received
      ensures AtRequest(s) && (old(stopFlag) ==> stopFlag)
      ensures n == -1 || (n == |data| <= len && (n == 0 ==> unread == []))
      ensures consumedContent == old(consumedContent) + if n < 0 then 0 else n
      ensures requestLen + consumedContent <= |s|
      ensures n >= 0 ==> data == s[requestLen + old(consumedContent)..requestLen + consumedContent]
      ensures old(received) < received && (n == -1 <==> FailedSince(|old(received)|))
    {
      ghost var buffered := buf[requestLen..dataLen];
      ghost var was, before := direct, unread;
      n, data := Pull(len);
      if n > 0 {
        NextInStream(s, requestLen, buffered, was, data, unread);
        direct := direct + data;
        consumedContent := consumedContent + n;
      }
    }

    /** Give out the next bytes of the body: buffered ones first, then from the socket. */
    method MgRead(len: nat, ghost s: seq<byte>) returns (nread: int, data: seq<byte>)
      requires AtRequest(s)
      modifies `consumedContent, `stopFlag, `unread, `direct, `received
      ensures AtRequest(s) && (old(stopFlag) ==> stopFlag)
      ensures consumedContent == old(consumedContent) + |data| && |data| <= len
      ensures requestLen + consumedContent <= |s|
      ensures data == s[requestLen + old(consumedContent)..requestLen + consumedContent]
      ensures old(received) <= received
      ensures if FailedSince(|old(received)|) then nread == -1 else nread == |data|
      ensures nread >= 0 && |data| < len && consumedContent < contentLen ==> unread == []
    {
      nread, data := 0, [];
      ConsumedInStream(s);
      if consumedContent < contentLen {
        var left: nat := len;
        if contentLen - consumedContent < left {
          left := contentLen - consumedContent;
        }
        hide AtRequest;
        data := ReadBuffered(left, s);
        ghost var middle := requestLen + consumedContent;
        var failed, rest := ReadAllDirect(left - |data|, s);
        JoinSlices(s, middle - |data|, middle, middle + |rest|);
        data := data + rest;
        nread := if failed then -1 else |data|;
      }
    }

    /** Read from the socket until there is enough, or no more. */
    method ReadAllDirect(len: nat, ghost s: seq<byte>) returns (failed: bool, data: seq<byte>)
      requires AtRequest(s) && consumedContent + len <= contentLen && (len > 0 ==> consumedContent >= InBuffer())
      requires requestLen + consumedContent <= |s|
      modifies `consumedContent, `stopFlag, `unread, `direct, `received
      ensures AtRequest(s) && (old(stopFlag) ==> stopFlag)
      ensures consumedContent == old(consumedContent) + |data| && |data| <= len
      ensures requestLen + consumedContent <= |s|
      ensures data == s[requestLen + old(consumedContent)..requestLen + consumedContent]
      ensures !failed && |data| < len ==> unread == []
      ensures old(received) <= received && (failed <==> FailedSince(|old(received)|))
    {
      assert requestLen > 0;
      hide AtRequest;
      failed, data := false, [];
      var left: nat := len;
      ghost var start := requestLen + consumedContent;
      while left > 0
        invariant AtRequest(s) && (old(stopFlag) ==> stopFlag)
        invariant left > 0 ==> consumedContent >= InBuffer()
        invariant |data| + left == len && requestLen + consumedContent == start + |data| <= |s|
        invariant consumedContent + left <= contentLen && data == s[start..start + |data|]
        invariant old(received) <= received && !FailedSince(|old(received)|)
        decreases left
      {
        var n, piece := ReadDirect(left, s);
        if n < 0 {
          return true, data;
        } else if n == 0 {
          return;
        }
        JoinSlices(s, start, start + |data|, start + |data| + n);
        data, left := data + piece, left - n;
      }
    }

    lemma ConsumedInStream(s: seq<byte>)
      requires AtRequest(s)
      ensures requestLen + consumedContent <= |s|
    {
    }

    // ----- One request after the other -----

    /** Parse the whole buffer, with whatever is behind the data; NULs are written into the header block only. */
    method ParseHttpRequest() returns (result: int, meaning: Meaning)
      requires Valid() && requestLen == RequestLen(Buffered()) > 0
      modifies buf
      ensures requestLen <= dataLen && buf[requestLen..] == old(buf[requestLen..])
      ensures meaning == parse(old(buf[..requestLen])) && result == if meaning.parses then requestLen else -1
    {
      ghost var all := buf[..];
      assert all == Buffered() + buf[dataLen..];
      AnswerIsStable(Buffered(), buf[dataLen..], 0);
      assert buf[..buf.Length] == all;
      result := GetRequestLen(buf, buf.Length);
      HeadInBuffer(Buffered());
      meaning := parse(buf[..requestLen]);
      var text: seq<int> := *;
      forall i | 0 <= i < requestLen && i < |text| && 0 <= text[i] < 256 {
        buf[i] := text[i];
      }
      buf[requestLen - 1] := 0;
      if !meaning.parses { result := -1; }
    }

    /** The handler of a valid request reads as much of the body as it likes. */
    method HandleRequest(ghost s: seq<byte>)
      requires AtRequest(s)
      modifies `consumedContent, `stopFlag, `unread, `direct, `received
      ensures AtRequest(s) && (old(stopFlag) ==> stopFlag) && old(received) <= received
    {
      hide *;
      var sizes: seq<nat> := *;
      for i := 0 to |sizes|
        invariant AtRequest(s) && (old(stopFlag) ==> stopFlag) && old(received) <= received
      {
        var n, data := MgRead(sizes[i], s);
      }
    }

    /** Drop the request from the buffer. */
    method Discard(ghost s: seq<byte>)
      requires AtRequest(s)
      modifies `dataLen, buf
      ensures Valid() && requestLen + old(BodyTaken()) <= |s|
      ensures !stopFlag ==> Stream() == s[requestLen + old(BodyTaken())..]
    {
      var end := requestLen + contentLen;
      var discardLen := if contentLen >= 0 && end < dataLen then end else dataLen;
      ghost var buffered := buf[requestLen..dataLen];
      ghost var kept := buf[discardLen..dataLen];
      forall i | 0 <= i < dataLen - discardLen {
        buf[i] := buf[i + discardLen];
      }
      dataLen := dataLen - discardLen;
      assert Buffered() == kept;
      assert kept == buffered[discardLen - requestLen..];
      if !stopFlag {
        DropTaken(s, requestLen, buffered, direct, unread, discardLen - requestLen);
      }
    }

    /** Answer one request; only a valid one of a known version sets the content length and is given to the handler. */
    method HandleOne(ghost s: seq<byte>) returns (meaning: Meaning)
      requires Valid() && requestLen == RequestLen(Buffered()) > 0 && s == Stream()
      requires consumedContent == 0 && direct == [] && !mustClose
      modifies `contentLen, `mustClose, `consumedContent, `stopFlag, `unread, `direct, `received, buf
      ensures AtRequest(s) && (old(stopFlag) ==> stopFlag)
      ensures meaning == parse(s[..requestLen])
      ensures if Handled(meaning) then contentLen == meaning.declared
              else contentLen == old(contentLen) && consumedContent == 0
                   && (mustClose <==> !meaning.parses || !meaning.uriOk)
      ensures old(received) <= received
    {
      HeadInBuffer(Buffered());
      ghost var body := buf[requestLen..dataLen];
      assert buf[..requestLen] == s[..requestLen];
      var result;
      result, meaning := ParseHttpRequest();
      assert body == buf[requestLen..dataLen];
      assert s[requestLen..] == body + unread;
      if result <= 0 || !meaning.uriOk {
        mustClose := true;
      } else if meaning.versionKnown {
        contentLen := meaning.declared;
        HandleRequest(s);
        mustClose := *;
      }
    }

    /** Answer the request, drop it, and notice a stop of the server. */
    method Finish(ghost s: seq<byte>) returns (ghost m: Message, keep: bool)
      requires Valid() && requestLen == RequestLen(Buffered()) > 0 && s == Stream()
      requires RequestLen(s) == requestLen && consumedContent == 0 && direct == [] && !mustClose
      modifies `contentLen, `mustClose, `consumedContent, `stopFlag, `unread, `direct, `received, `dataLen, buf
      ensures Valid() && m.contentLen == contentLen && StartsWith(s, m)
      ensures m.meaning == parse(m.head) && Follows(m, old(contentLen)) && m.buffered == old(dataLen) - requestLen
      ensures !stopFlag ==> Stream() == s[|m.head| + Taken(m)..]
      ensures m.closes == mustClose && keep == m.meaning.keepAlive
      ensures (old(stopFlag) ==> stopFlag) && old(received) <= received
    {
      var meaning := HandleOne(s);
      keep := meaning.keepAlive;
      m := Message(s[..requestLen], meaning, contentLen, InBuffer(), consumedContent, mustClose);
      Discard(s);
      OthersMayStop();
    }

    /** Read the next request and answer it, or notice why there is none. */
    method Serve(keepAliveEnabled: bool, ghost s: seq<byte>) returns (end: Ending, ghost m: Message, keep: bool)
      requires Valid() && s == Stream()
      modifies this, buf
      ensures Valid() && (old(stopFlag) ==> stopFlag) && old(received) <= received
      ensures end == NotKeptAlive ==>
                && StartsWith(s, m) && m.meaning == parse(m.head) && Follows(m, old(contentLen))
                && m.contentLen == contentLen && (keep <==> KeptAlive(m, keepAliveEnabled))
                && (!stopFlag ==> Stream() == s[|m.head| + Taken(m)..])
      ensures end != NotKeptAlive ==>
                RequestLen(old(Buffered())) <= 0 && contentLen == old(contentLen) && (!stopFlag ==> Stream() == s)
      ensures end == Malformed ==> RequestLen(s) < 0
      ensures end == TooLarge ==> RequestLen(Take(s, buf.Length)) == 0 && |s| >= buf.Length
      ensures end == ClosedByClient ==> RequestLen(s) == 0 && |s| < buf.Length
      ensures end == ReadFailed ==> FailedSince(|old(received)|)
    {
      hide RequestLen, StartsWith, Taken, Follows;
      m, keep := *, false;
      mustClose, requestLen, consumedContent, direct := false, 0, 0, [];
      var failed;
      requestLen, failed := ReadRequest();
      if failed {
        return ReadFailed, m, keep;
      }
      StableHead(s, buf.Length);
      if requestLen == 0 && dataLen == buf.Length {
        return TooLarge, m, keep;
      }
      if requestLen <= 0 {
        return if requestLen < 0 then Malformed else ClosedByClient, m, keep;
      }
      m, keep := Finish(s);
      keep := keepAliveEnabled && contentLen >= 0 && !mustClose && keep;
      return NotKeptAlive, m, keep;
    }

    /**
     The requests of a connection, as long as it is kept alive. Reading fails only when a read of the socket has, and
     not while a request is in the buffer.
     */
    method ProcessNewConnection(keepAliveEnabled: bool)
      returns (end: Ending, ghost messages: seq<Message>, ghost rest: seq<byte>)
      requires Valid()
      modifies this, buf
      ensures Valid() && CutAt(old(Stream()), messages, rest)
      ensures !stopFlag ==> rest == Stream()
      ensures Chain(parse, old(contentLen), messages)
              && contentLen == LengthBefore(old(contentLen), messages, |messages|)
      ensures end == Malformed ==> RequestLen(rest) < 0
      ensures end == TooLarge ==> RequestLen(Take(rest, buf.Length)) == 0 && |rest| >= buf.Length
      ensures end == ClosedByClient ==> RequestLen(rest) == 0 && |rest| < buf.Length
      ensures end == ReadFailed ==> FailedSince(|old(received)|)
      ensures RequestLen(old(Buffered())) > 0 ==>
                messages != [] && messages[0].head == Take(old(Buffered()), RequestLen(old(Buffered())))
      ensures forall i :: 0 <= i < |messages| - 1 ==> KeptAlive(messages[i], keepAliveEnabled)
      ensures if end == NotKeptAlive
              then messages != [] && (stopFlag || !KeptAlive(messages[|messages| - 1], keepAliveEnabled))
              else messages == [] || KeptAlive(messages[|messages| - 1], keepAliveEnabled)
    {
      messages, rest := [], Stream();
      ghost var all, buffered, start := rest, Buffered(), received;
      FirstHead(all, buffered);
      hide *;
      while true
        invariant Valid() && CutAt(all, messages, rest) && rest == Stream()
        invariant Chain(parse, old(contentLen), messages)
                  && contentLen == LengthBefore(old(contentLen), messages, |messages|)
        invariant start <= received && (messages == [] ==> Buffered() == buffered)
        invariant forall i :: 0 <= i < |messages| ==> KeptAlive(messages[i], keepAliveEnabled)
        decreases |rest|
      {
        ghost var before := received;
        ghost var m;
        var keep;
        end, m, keep := Serve(keepAliveEnabled, rest);
        if end != NotKeptAlive {
          FailedLonger(|before|, |start|);
          return;
        }
        CutOneMore(all, messages, rest, m);
        ChainOneMore(parse, old(contentLen), messages, m);
        StartsInside(rest, m);
        messages, rest := messages + [m], rest[|m.head| + Taken(m)..];
        if stopFlag || !keep {
          return;
        }
      }
    }

    lemma FailedLonger(before: nat, start: nat)
      requires start <= before
      ensures FailedSince(before) ==> FailedSince(start)
    {
    }

    /** The worker takes the next client; what was left of the one before stays in the buffer. */
    method NextClient(stream: seq<byte>)
      requires Valid()
      modifies `unread
      ensures Valid() && Stream() == old(Buffered()) + stream
    {
      unread := stream;
    }
  }

  /** Every stream of the next client is framed as it should be exactly when nothing was left in the buffer. */
  lemma LeftoverChangesFraming(leftover: seq<byte>)
    ensures (forall stream: seq<byte> :: RequestLen(leftover + stream) == RequestLen(stream)) <==> leftover == []
  {
    if leftover == [] {
      forall stream: seq<byte>
        ensures RequestLen(leftover + stream) == RequestLen(stream)
      {
        assert leftover + stream == stream;
      }
    } else {
      var n := |leftover| + 2;
      var stream: seq<byte> := seq(n, _ => 65) + [LF, LF];
      CompleteHead(stream, n + 2);
      CompleteHead(leftover + stream, n + 2);
      assert (leftover + stream)[n] == stream[2] == 65;
      assert RequestLen(leftover + stream) != RequestLen(stream);
    }
  }

  lemma StableHead(s: seq<byte>, size: nat)
    ensures RequestLen(Take(s, size)) != 0 || |s| < size ==> RequestLen(s) == RequestLen(Take(s, size))
  {
    if RequestLen(Take(s, size)) != 0 {
      AnswerIsStable(Take(s, size), s[|Take(s, size)|..], 0);
      assert Take(s, size) + s[|Take(s, size)|..] == s;
    }
  }

  /** The request that is found in the buffer is the first one of the stream. */
  lemma FirstHead(s: seq<byte>, buffered: seq<byte>)
    requires buffered <= s
    ensures RequestLen(buffered) > 0 ==>
      forall messages: seq<Message>, rest :: CutAt(s, messages, rest) && messages != [] ==>
        messages[0].head == Take(buffered, RequestLen(buffered))
  {
    if RequestLen(buffered) > 0 {
      HeadInBuffer(buffered);
      AnswerIsStable(buffered, s[|buffered|..], 0);
      assert s == buffered + s[|buffered|..];
      hide RequestLen;
    }
  }

  lemma HeadInBuffer(buf: seq<byte>)
    requires RequestLen(buf) > 0
    ensures RequestLen(buf) <= |buf|
  {
    CompleteHead(buf, RequestLen(buf));
  }

  lemma DropTaken(s: seq<byte>, head: nat, buffered: seq<byte>, direct: seq<byte>, unread: seq<byte>, d: nat)
    requires head <= |s| && s[head..] == buffered + direct + unread
    requires d <= |buffered| && (direct != [] ==> d == |buffered|)
    ensures s[head + d + |direct|..] == buffered[d..] + unread
  {
    assert s[head + d + |direct|..] == s[head..][d + |direct|..];
  }

  lemma SubSlice(a: seq<byte>, i: nat, j: nat, from: nat, n: nat)
    requires i <= j <= |a| && i + from + n <= j
    ensures a[i..j][from..from + n] == a[i + from..i + from + n]
  {
    var part, whole := a[i..j][from..from + n], a[i + from..i + from + n];
    forall k | 0 <= k < n
      ensures part[k] == whole[k]
    {
      assert part[k] == a[i..j][from + k] == a[i + (from + k)];
    }
  }

  lemma JoinSlices(s: seq<byte>, a: nat, b: nat, c: nat)
    requires a <= b <= c <= |s|
    ensures s[a..b] + s[b..c] == s[a..c]
  {
  }

  lemma NextInStream(s: seq<byte>, head: nat, buffered: seq<byte>, direct: seq<byte>, data: seq<byte>,
      unread: seq<byte>)
    requires head <= |s| && s[head..] == buffered + direct + (data + unread)
    ensures s[head..] == buffered + (direct + data) + unread && buffered + (direct + data) <= s[head..]
    ensures var from := head + |buffered| + |direct|; from + |data| <= |s| && data == s[from..from + |data|]
  {
    assert s[head..] == (buffered + direct) + data + unread;
    assert (buffered + direct) + data == buffered + (direct + data);
    DataAt(s, head, buffered + direct, data, unread);
  }

  lemma DataAt(s: seq<byte>, head: nat, before: seq<byte>, data: seq<byte>, after: seq<byte>)
    requires head <= |s| && s[head..] == before + data + after
    ensures head + |before| + |data| <= |s| && data == s[head + |before|..head + |before| + |data|]
  {
    SubSlice(s, head, |s|, |before|, |data|);
  }

  lemma KnownSlice(a: seq<byte>, s: seq<byte>, head: nat, end: nat, from: nat, n: nat)
    requires head <= end <= |a| && head <= |s| && a[head..end] <= s[head..] && head + from + n <= end
    ensures head + from + n <= |s| && a[head + from..head + from + n] == s[head + from..head + from + n]
  {
    SubSlice(a, head, end, from, n);
    Slice(s, head, a[head..end], from, a[head + from..head + from + n]);
  }

  lemma Slice(s: seq<byte>, head: nat, known: seq<byte>, from: nat, data: seq<byte>)
    requires head <= |s| && known <= s[head..] && from + |data| <= |known|
    requires forall k :: 0 <= k < |data| ==> data[k] == known[from + k]
    ensures head + from + |data| <= |s| && data == s[head + from..head + from + |data|]
  {
  }

  lemma BufferedAnswer(buffered: seq<byte>, unread: seq<byte>, size: nat)
    requires |buffered| <= size
    requires RequestLen(buffered) != 0 || |buffered| == size || unread == []
    ensures RequestLen(buffered) == RequestLen(Take(buffered + unread, size))
    ensures RequestLen(buffered) == 0 ==> buffered == Take(buffered + unread, size)
  {
    var all := Take(buffered + unread, size);
    assert all == buffered + all[|buffered|..];
    if RequestLen(buffered) == 0 {
      assert buffered == all;
    } else {
      AnswerIsStable(buffered, all[|buffered|..], 0);
    }
  }
}
