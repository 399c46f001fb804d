/**
 The language of the request parser: syntax trees, how they are written, and the proof that the parser
 accepts exactly what can be written, with the fields of the tree (sections 2.2, 4.2 and 5.1 of RFC 2616,
 as the parser restricts them).
 */
module RequestGrammar {
  import opened RequestParser

  // ----- Syntax trees -----

  /** A continuation line of a header: white space, then text that is empty or starts with something else. */
  datatype Fold = Fold(lws: string, text: string)

  datatype Line = Line(name: string, first: string, folds: seq<Fold>)

  datatype Message = Message(verb: string, uri: string, major: string, minor: string, lines: seq<Line>)

  predicate All(s: string, f: char -> bool) {
    forall i :: 0 <= i < |s| ==> f(s[i])
  }

  predicate IsUriChar(c: char) {
    c != ' ' && !IsCtl(c)
  }

  predicate IsTextChar(c: char) {
    !IsCtl(c)
  }

  predicate IsLwsChar(c: char) {
    c == ' ' || c == '\t'
  }

  predicate GoodFold(f: Fold) {
    f.lws != "" && All(f.lws, IsLwsChar) && All(f.text, IsTextChar) && (f.text != "" ==> f.text[0] != ' ')
  }

  predicate GoodLine(l: Line) {
    && l.name != "" && All(l.name, IsTokenChar) && All(l.first, IsTextChar)
    && forall i :: 0 <= i < |l.folds| ==> GoodFold(l.folds[i])
  }

  predicate GoodLines(ls: seq<Line>) {
    forall i :: 0 <= i < |ls| ==> GoodLine(ls[i])
  }

  predicate Good(m: Message) {
    && m.verb != "" && All(m.verb, IsTokenChar) && All(m.uri, IsUriChar)
    && m.major != "" && All(m.major, IsDigit) && m.minor != "" && All(m.minor, IsDigit)
    && GoodLines(m.lines)
  }

  // ----- How a tree is written -----

  const CRLF := "\r\n"

  function WrittenFolds(fs: seq<Fold>): string {
    if fs == [] then "" else WrittenFolds(fs[..|fs| - 1]) + CRLF + fs[|fs| - 1].lws + fs[|fs| - 1].text
  }

  /** A header without the end of its last line. */
  function Open(l: Line): string {
    l.name + ": " + l.first + WrittenFolds(l.folds)
  }

  function Written(ls: seq<Line>): string {
    if ls == [] then "" else Written(ls[..|ls| - 1]) + Open(ls[|ls| - 1]) + CRLF
  }

  function StartLine(m: Message): string {
    m.verb + " " + m.uri + " HTTP/" + m.major + "." + m.minor + CRLF
  }

  function Render(m: Message): string {
    StartLine(m) + Written(m.lines) + CRLF
  }

  // ----- What a tree means -----

  function Texts(fs: seq<Fold>): string {
    if fs == [] then "" else Texts(fs[..|fs| - 1]) + fs[|fs| - 1].text
  }

  function HeaderOf(l: Line): Header {
    Header(l.name, l.first + Texts(l.folds))
  }

  function HeadersOf(ls: seq<Line>): (r: seq<Header>)
    ensures |r| == |ls|
  {
    seq(|ls|, i requires 0 <= i < |ls| => HeaderOf(ls[i]))
  }

  function Number(digits: string): int {
    if digits == "" then 0 else Number(digits[..|digits| - 1]) * 10 + DigitOf(digits[|digits| - 1])
  }

  function Fields(m: Message): Request {
    Request(MUnknown, m.verb, m.uri, Number(m.major), Number(m.minor), HeadersOf(m.lines))
  }

  // ----- Half-read messages -----

  function LastLine(m: Message): Line
    requires m.lines != []
  {
    m.lines[|m.lines| - 1]
  }

  function LastFold(m: Message): Fold
    requires m.lines != [] && LastLine(m).folds != []
  {
    LastLine(m).folds[|LastLine(m).folds| - 1]
  }

  /** The headers, with the last one still open. */
  function WrittenOpen(m: Message): string
    requires m.lines != []
  {
    StartLine(m) + Written(m.lines[..|m.lines| - 1]) + Open(LastLine(m))
  }

  /** What the parser has read of message m, of which only the parts already read are there, in a given state. */
  function ReadSoFar(state: State, m: Message): string {
    var uri := m.verb + " " + m.uri;
    match state
    case MethodStart => ""
    case Method => m.verb
    case UriStart => uri
    case Uri => uri
    case VersionH => uri + " "
    case VersionT1 => uri + " H"
    case VersionT2 => uri + " HT"
    case VersionP => uri + " HTT"
    case VersionSlash => uri + " HTTP"
    case MajorStart => uri + " HTTP/"
    case Major => uri + " HTTP/" + m.major
    case MinorStart => uri + " HTTP/" + m.major + "."
    case Minor => uri + " HTTP/" + m.major + "." + m.minor
    case Newline1 => uri + " HTTP/" + m.major + "." + m.minor + "\r"
    case HeaderLineStart => StartLine(m) + Written(m.lines)
    case HeaderName => if m.lines == [] then "" else StartLine(m) + Written(m.lines[..|m.lines| - 1]) + LastLine(m).name
    case SpaceBeforeValue =>
      if m.lines == [] then ""
      else StartLine(m) + Written(m.lines[..|m.lines| - 1]) + LastLine(m).name + ":"
    case HeaderValue => if m.lines == [] then "" else WrittenOpen(m)
    case HeaderLws => if m.lines == [] then "" else WrittenOpen(m)
    case Newline2 => if m.lines == [] then "" else WrittenOpen(m) + "\r"
    case Newline3 => StartLine(m) + Written(m.lines) + "\r"
  }

  function Place(state: State): nat {
    match state
    case MethodStart => 0
    case Method => 1
    case UriStart => 2
    case Uri => 2
    case VersionH => 3
    case VersionT1 => 4
    case VersionT2 => 5
    case VersionP => 6
    case VersionSlash => 7
    case MajorStart => 8
    case Major => 9
    case MinorStart => 10
    case Minor => 11
    case Newline1 => 12
    case _ => 13
  }

  predicate Digits(s: string, started: bool) {
    All(s, IsDigit) && (started <==> s != "")
  }

  /** The parts already read are good, and the others are empty. */
  predicate HalfStart(place: nat, m: Message) {
    && All(m.verb, IsTokenChar) && (m.verb == "" <==> place == 0)
    && All(m.uri, IsUriChar) && (place < 2 ==> m.uri == "")
    && Digits(m.major, place >= 9) && Digits(m.minor, place >= 11)
    && (place < 13 ==> m.lines == [])
  }

  predicate HalfLines(state: State, ls: seq<Line>) {
    && GoodLines(ls)
    && (state in {HeaderName, SpaceBeforeValue, HeaderValue, HeaderLws, Newline2} ==>
      && ls != []
      && var l := ls[|ls| - 1];
        && (state in {HeaderName, SpaceBeforeValue} ==> l.first == "" && l.folds == [])
        && (state == HeaderValue && l.folds != [] ==> l.folds[|l.folds| - 1].text != "")
        && (state == HeaderLws ==> l.folds != [] && l.folds[|l.folds| - 1].text == ""))
  }

  predicate Half(state: State, m: Message) {
    state != UriStart && HalfStart(Place(state), m) && HalfLines(state, m.lines)
  }

  // ----- What was accepted is in the language -----

  lemma NumberPush(digits: string, c: char)
    ensures Number(digits + [c]) == Number(digits) * 10 + DigitOf(c)
  {
    assert (digits + [c])[..|digits|] == digits;
  }

  /** The message after one more character of its start line. */
  function PushStart(state: State, m: Message, c: char): Message {
    match state
    case MethodStart => m.(verb := m.verb + [c])
    case Method => if c == ' ' then m else m.(verb := m.verb + [c])
    case Uri => if c == ' ' then m else m.(uri := m.uri + [c])
    case MajorStart => m.(major := m.major + [c])
    case Major => if c == '.' then m else m.(major := m.major + [c])
    case MinorStart => m.(minor := m.minor + [c])
    case Minor => if c == '\r' then m else m.(minor := m.minor + [c])
    case _ => m
  }

  predicate Continues(p: Parser, m: Message, c: char, m': Message)
    requires Wf(p)
  {
    var (result, next) := Consume(p, c);
    Half(next.state, m') && next.req == Fields(m') && ReadSoFar(next.state, m') == ReadSoFar(p.state, m) + [c]
  }

  predicate Reading(p: Parser, m: Message) {
    Half(p.state, m) && p.req == Fields(m)
  }

  lemma VerbStep(p: Parser, m: Message, c: char)
    requires Wf(p) && Reading(p, m) && p.state in {MethodStart, Method} && Consume(p, c).0 == Indeterminate
    ensures Continues(p, m, c, PushStart(p.state, m, c))
  {
    hide HeadersOf, Written, Number, StartLine, WrittenOpen, IsTokenChar, HalfLines;
    SameLines(p.state, m, Consume(p, c).1.state);
  }

  lemma SameLines(state: State, m: Message, next: State)
    requires HalfStart(Place(state), m) && Place(state) < 13
             && next !in {HeaderName, SpaceBeforeValue, HeaderValue, HeaderLws, Newline2}
    ensures HalfLines(next, m.lines)
  {
  }

  lemma UriStep(p: Parser, m: Message, c: char)
    requires Wf(p) && Reading(p, m) && p.state == Uri && Consume(p, c).0 == Indeterminate
    ensures Continues(p, m, c, PushStart(p.state, m, c))
  {
    hide HeadersOf, Written, Number, StartLine, WrittenOpen, HalfLines;
    SameLines(p.state, m, Consume(p, c).1.state);
  }

  lemma LiteralStep(p: Parser, m: Message, c: char)
    requires Wf(p) && Reading(p, m) && 3 <= Place(p.state) <= 7 && Consume(p, c).0 == Indeterminate
    ensures Continues(p, m, c, PushStart(p.state, m, c))
  {
    hide HeadersOf, Written, StartLine, WrittenOpen, HalfLines;
    SameLines(p.state, m, Consume(p, c).1.state);
  }

  lemma MajorStep(p: Parser, m: Message, c: char)
    requires Wf(p) && Reading(p, m) && p.state in {MajorStart, Major} && Consume(p, c).0 == Indeterminate
    ensures Continues(p, m, c, PushStart(p.state, m, c))
  {
    NumberPush(m.major, c);
    hide HeadersOf, Written, Number, StartLine, WrittenOpen, HalfLines;
    SameLines(p.state, m, Consume(p, c).1.state);
  }

  lemma MinorStep(p: Parser, m: Message, c: char)
    requires Wf(p) && Reading(p, m) && p.state in {MinorStart, Minor} && Consume(p, c).0 == Indeterminate
    ensures Continues(p, m, c, PushStart(p.state, m, c))
  {
    NumberPush(m.minor, c);
    hide HeadersOf, Written, Number, StartLine, WrittenOpen, HalfLines;
    SameLines(p.state, m, Consume(p, c).1.state);
  }

  lemma Newline1Step(p: Parser, m: Message, c: char)
    requires Wf(p) && Reading(p, m) && p.state == Newline1 && Consume(p, c).0 == Indeterminate
    ensures Continues(p, m, c, m)
  {
    hide HeadersOf, Number, WrittenOpen, HalfLines;
    SameLines(p.state, m, Consume(p, c).1.state);
  }

  // The header lines.

  function SetLast(m: Message, l: Line): (r: Message)
    requires m.lines != []
    ensures r.lines != [] && LastLine(r) == l && r.lines[..|r.lines| - 1] == m.lines[..|m.lines| - 1]
    ensures StartLine(r) == StartLine(m)
  {
    m.(lines := m.lines[..|m.lines| - 1] + [l])
  }

  function SetLastFold(l: Line, f: Fold): (r: Line)
    requires l.folds != []
  {
    l.(folds := l.folds[..|l.folds| - 1] + [f])
  }

  lemma HeadersPush(ls: seq<Line>, l: Line)
    ensures HeadersOf(ls + [l]) == HeadersOf(ls) + [HeaderOf(l)]
  {
  }

  lemma FoldsPush(fs: seq<Fold>, f: Fold)
    ensures WrittenFolds(fs + [f]) == WrittenFolds(fs) + CRLF + f.lws + f.text
    ensures Texts(fs + [f]) == Texts(fs) + f.text
  {
    assert (fs + [f])[..|fs|] == fs;
  }

  /** How the last fold of a line shows. */
  lemma SplitFolds(l: Line)
    requires l.folds != []
    ensures var f := l.folds[|l.folds| - 1];
      && Open(l) == l.name + ": " + l.first + WrittenFolds(l.folds[..|l.folds| - 1]) + CRLF + f.lws + f.text
      && HeaderOf(l) == Header(l.name, l.first + Texts(l.folds[..|l.folds| - 1]) + f.text)
  {
  }

  lemma FieldsOfLast(m: Message)
    requires m.lines != []
    ensures HeadersOf(m.lines) == HeadersOf(m.lines[..|m.lines| - 1]) + [HeaderOf(LastLine(m))]
  {
    HeadersPush(m.lines[..|m.lines| - 1], LastLine(m));
    assert m.lines[..|m.lines| - 1] + [LastLine(m)] == m.lines;
  }

  lemma WrittenLast(m: Message)
    requires m.lines != []
    ensures StartLine(m) + Written(m.lines) == WrittenOpen(m) + CRLF
  {
  }

  /** Another last line: the fields of the message follow. */
  lemma FieldsAfter(p: Parser, m: Message, l: Line, h: Header)
    requires Reading(p, m) && m.lines != [] && HeaderOf(l) == h
    ensures p.req.headers != [] && Last(p.req) == HeaderOf(LastLine(m)) && WithLast(p.req, h) == Fields(SetLast(m, l))
  {
    FieldsOfLast(m);
    FieldsOfLast(SetLast(m, l));
  }

  lemma GoodAfter(m: Message, l: Line)
    requires m.lines != [] && GoodLines(m.lines) && GoodLine(l)
    ensures GoodLines(SetLast(m, l).lines)
  {
  }

  lemma GoodFoldsAfter(l: Line, f: Fold)
    requires GoodLine(l) && GoodFold(f)
    ensures GoodLine(l.(folds := l.folds + [f]))
    ensures l.folds != [] ==> GoodLine(SetLastFold(l, f))
  {
  }

  // One lemma for lines alone, and one for what they are part of.

  lemma LineFold(l: Line, c: char)
    requires GoodLine(l) && IsLwsChar(c)
    ensures var l' := l.(folds := l.folds + [Fold([c], "")]);
      GoodLine(l') && Open(l') == Open(l) + (CRLF + [c]) && HeaderOf(l') == HeaderOf(l)
  {
    FoldsPush(l.folds, Fold([c], ""));
    GoodFoldsAfter(l, Fold([c], ""));
    hide GoodLine, WrittenFolds, Texts;
  }

  lemma LineLws(l: Line, c: char)
    requires GoodLine(l) && IsLwsChar(c) && l.folds != [] && l.folds[|l.folds| - 1].text == ""
    ensures var f := l.folds[|l.folds| - 1];
      var l' := SetLastFold(l, f.(lws := f.lws + [c]));
      GoodLine(l') && Open(l') == Open(l) + [c] && HeaderOf(l') == HeaderOf(l)
  {
    var f := l.folds[|l.folds| - 1];
    SplitFolds(l);
    SplitFolds(SetLastFold(l, f.(lws := f.lws + [c])));
    GoodFoldsAfter(l, f.(lws := f.lws + [c]));
    hide WrittenFolds, Texts, Open, HeaderOf;
  }

  lemma LineText(l: Line, c: char)
    requires GoodLine(l) && !IsCtl(c) && l.folds != [] && (l.folds[|l.folds| - 1].text == "" ==> c != ' ')
    ensures var f := l.folds[|l.folds| - 1];
      var l' := SetLastFold(l, f.(text := f.text + [c]));
      && GoodLine(l') && Open(l') == Open(l) + [c]
      && HeaderOf(l') == HeaderOf(l).(value := HeaderOf(l).value + [c])
  {
    var f := l.folds[|l.folds| - 1];
    SplitFolds(l);
    SplitFolds(SetLastFold(l, f.(text := f.text + [c])));
    hide WrittenFolds, Texts, Open, HeaderOf;
  }

  lemma OpenAfter(m: Message, l: Line, added: string)
    requires m.lines != [] && Open(l) == Open(LastLine(m)) + added
    ensures WrittenOpen(SetLast(m, l)) == WrittenOpen(m) + added
  {
    hide Written, StartLine, Open;
  }

  /** The last line changes. */
  lemma LineStep(p: Parser, m: Message, c: char, l: Line, next: State, added: string)
    requires Wf(p) && Reading(p, m) && m.lines != [] && next in {HeaderValue, HeaderLws}
    requires GoodLine(l) && HalfLines(next, SetLast(m, l).lines)
    requires Open(l) == Open(LastLine(m)) + added && ReadSoFar(p.state, m) + [c] == WrittenOpen(m) + added
    requires Consume(p, c) == (Indeterminate, Parser(next, WithLast(p.req, HeaderOf(l))))
    requires Place(p.state) == 13
    ensures Continues(p, m, c, SetLast(m, l))
  {
    hide *;
    OpenAfter(m, l, added);
    FieldsAfter(p, m, l, HeaderOf(l));
    ReadInLine(next, SetLast(m, l));
    LastHalf(p, m, l, next);
    ContinuesWhen(p, m, c, Parser(next, WithLast(p.req, HeaderOf(l))), SetLast(m, l));
  }

  lemma LastHalf(p: Parser, m: Message, l: Line, next: State)
    requires Reading(p, m) && Place(p.state) == 13 && m.lines != [] && next in {HeaderValue, HeaderLws}
    requires HalfLines(next, SetLast(m, l).lines)
    ensures Half(next, SetLast(m, l))
  {
    hide HalfLines;
  }

  lemma ContinuesWhen(p: Parser, m: Message, c: char, next: Parser, m': Message)
    requires Wf(p) && Consume(p, c).1 == next && Half(next.state, m') && next.req == Fields(m')
    requires ReadSoFar(next.state, m') == ReadSoFar(p.state, m) + [c]
    ensures Continues(p, m, c, m')
  {
    hide Consume, Half, Fields, ReadSoFar;
  }

  lemma NewHeaderStep(p: Parser, m: Message, c: char)
    requires Wf(p) && Reading(p, m) && p.state == HeaderLineStart && IsTokenChar(c)
    ensures Continues(p, m, c, m.(lines := m.lines + [Line([c], "", [])]))
  {
    hide *;
    var m' := m.(lines := m.lines + [Line([c], "", [])]);
    NewHeaderConsumed(p, m, c);
    NewHeaderHalf(m, c);
    NewHeaderRead(m, c);
    ContinuesWhen(p, m, c, Parser(HeaderName, Fields(m')), m');
  }

  lemma NewHeaderConsumed(p: Parser, m: Message, c: char)
    requires Wf(p) && Reading(p, m) && p.state == HeaderLineStart && IsTokenChar(c)
    ensures Half(HeaderLineStart, m)
    ensures Consume(p, c).1 == Parser(HeaderName, Fields(m.(lines := m.lines + [Line([c], "", [])])))
  {
    StartsHeader(p, c);
    NewHeaderFields(m, c);
    hide Fields, Consume, Half;
  }

  lemma StartsHeader(p: Parser, c: char)
    requires Wf(p) && p.state == HeaderLineStart && IsTokenChar(c)
    ensures Consume(p, c).1 == Parser(HeaderName, p.req.(headers := p.req.headers + [Header([c], "")]))
  {
    TokenIsNot(c);
    hide IsTokenChar;
  }

  lemma NewHeaderFields(m: Message, c: char)
    ensures Fields(m.(lines := m.lines + [Line([c], "", [])]))
            == Fields(m).(headers := Fields(m).headers + [Header([c], "")])
  {
    var l := Line([c], "", []);
    HeadersPush(m.lines, l);
    assert HeaderOf(l) == Header([c], "") by { assert l.first + Texts(l.folds) == ""; }
    hide HeadersOf, Number, HeaderOf;
  }

  lemma NewHeaderHalf(m: Message, c: char)
    requires Half(HeaderLineStart, m) && IsTokenChar(c)
    ensures Half(HeaderName, m.(lines := m.lines + [Line([c], "", [])]))
  {
    hide IsTokenChar, IsDigit, IsUriChar, Digits;
    assert GoodLine(Line([c], "", []));
  }

  lemma NewHeaderRead(m: Message, c: char)
    ensures ReadSoFar(HeaderName, m.(lines := m.lines + [Line([c], "", [])])) == ReadSoFar(HeaderLineStart, m) + [c]
  {
    hide Written, StartLine;
    var m' := m.(lines := m.lines + [Line([c], "", [])]);
    assert m'.lines[..|m.lines|] == m.lines;
    SameStartLine(m, m');
  }

  lemma SameStartLine(m: Message, m': Message)
    requires m' == m.(lines := m'.lines)
    ensures StartLine(m') == StartLine(m)
  {
  }

  lemma TokenIsNot(c: char)
    requires IsTokenChar(c)
    ensures c !in " \t\r\n:"
  {
  }

  lemma ConsumeInLine(p: Parser, c: char)
    requires Wf(p) && p.req.headers != []
    ensures p.state == HeaderLineStart && IsLwsChar(c) ==> Consume(p, c) == (Indeterminate, Parser(HeaderLws, p.req))
    ensures p.state == HeaderLws && IsLwsChar(c) ==> Consume(p, c) == (Indeterminate, p)
    ensures (p.state == HeaderValue || (p.state == HeaderLws && c != ' ')) && !IsCtl(c) ==>
      Consume(p, c) == (Indeterminate, Parser(HeaderValue, PushValue(p.req, c)))
    ensures WithLast(p.req, Last(p.req)) == p.req
  {
  }

  lemma ReadInLine(state: State, m: Message)
    requires m.lines != []
    ensures state in {HeaderValue, HeaderLws} ==> ReadSoFar(state, m) == WrittenOpen(m)
    ensures state == Newline2 ==> ReadSoFar(state, m) == WrittenOpen(m) + "\r"
    ensures state == HeaderLineStart ==> ReadSoFar(state, m) == WrittenOpen(m) + CRLF
    ensures state == HeaderLineStart ==> forall c: char :: ReadSoFar(state, m) + [c] == WrittenOpen(m) + (CRLF + [c])
  {
    WrittenLast(m);
  }

  lemma HalfLast(state: State, m: Message, l: Line, next: State)
    requires Half(state, m) && Place(state) == 13 && m.lines != [] && GoodLine(l) && next in {HeaderValue, HeaderLws}
    requires l.folds != [] && (next == HeaderLws <==> l.folds[|l.folds| - 1].text == "")
    ensures HalfLines(next, SetLast(m, l).lines)
  {
    GoodAfter(m, l);
  }

  lemma FoldStep(p: Parser, m: Message, c: char, l: Line)
    requires Wf(p) && Reading(p, m) && p.state == HeaderLineStart && IsLwsChar(c) && m.lines != []
    requires l == LastLine(m).(folds := LastLine(m).folds + [Fold([c], "")])
    ensures Continues(p, m, c, SetLast(m, l))
  {
    LineFold(LastLine(m), c);
    HalfLast(p.state, m, l, HeaderLws);
    FieldsAfter(p, m, LastLine(m), HeaderOf(LastLine(m)));
    ConsumeInLine(p, c);
    ReadInLine(p.state, m);
    hide *;
    LineStep(p, m, c, l, HeaderLws, CRLF + [c]);
  }

  lemma LwsStep(p: Parser, m: Message, c: char, l: Line)
    requires Wf(p) && Reading(p, m) && p.state == HeaderLws && IsLwsChar(c)
    requires l == SetLastFold(LastLine(m), LastFold(m).(lws := LastFold(m).lws + [c]))
    ensures Continues(p, m, c, SetLast(m, l))
  {
    LineLws(LastLine(m), c);
    HalfLast(p.state, m, l, HeaderLws);
    FieldsAfter(p, m, LastLine(m), HeaderOf(LastLine(m)));
    ConsumeInLine(p, c);
    ReadInLine(p.state, m);
    hide *;
    LineStep(p, m, c, l, HeaderLws, [c]);
  }

  lemma TextStep(p: Parser, m: Message, c: char, l: Line)
    requires Wf(p) && Reading(p, m) && m.lines != [] && LastLine(m).folds != []
    requires !IsCtl(c) && (p.state == HeaderValue || (p.state == HeaderLws && c != ' '))
    requires l == SetLastFold(LastLine(m), LastFold(m).(text := LastFold(m).text + [c]))
    ensures Continues(p, m, c, SetLast(m, l))
  {
    LineText(LastLine(m), c);
    HalfLast(p.state, m, l, HeaderValue);
    FieldsAfter(p, m, LastLine(m), HeaderOf(LastLine(m)));
    ConsumeInLine(p, c);
    ReadInLine(p.state, m);
    hide *;
    LineStep(p, m, c, l, HeaderValue, [c]);
  }

  lemma NameStep(p: Parser, m: Message, c: char)
    requires Wf(p) && Reading(p, m) && p.state == HeaderName && IsTokenChar(c)
    ensures Continues(p, m, c, SetLast(m, LastLine(m).(name := LastLine(m).name + [c])))
  {
    var l := LastLine(m).(name := LastLine(m).name + [c]);
    GoodAfter(m, l);
    hide Written, StartLine, Number, WrittenFolds, Texts, GoodLine, GoodLines, HeadersOf, Open;
    var h := HeaderOf(LastLine(m));
    FieldsAfter(p, m, l, h.(name := h.name + [c]));
  }

  lemma FirstTextStep(p: Parser, m: Message, c: char)
    requires Wf(p) && Reading(p, m) && p.state == HeaderValue && LastLine(m).folds == [] && !IsCtl(c)
    ensures Continues(p, m, c, SetLast(m, LastLine(m).(first := LastLine(m).first + [c])))
  {
    var l := LastLine(m).(first := LastLine(m).first + [c]);
    GoodAfter(m, l);
    hide Written, StartLine, Number, IsTokenChar, GoodLine, GoodLines, HeadersOf;
    var h := HeaderOf(LastLine(m));
    FieldsAfter(p, m, l, h.(value := h.value + [c]));
  }

  /** Punctuation. */
  lemma ColonStep(p: Parser, m: Message, c: char)
    requires Wf(p) && Reading(p, m)
    requires (p.state == HeaderName && c == ':') || (p.state == SpaceBeforeValue && c == ' ')
    ensures Continues(p, m, c, m)
  {
    hide Written, StartLine, Number, IsTokenChar, GoodLine, GoodLines, HeadersOf, Texts;
  }

  lemma EndOfLineStep(p: Parser, m: Message, c: char)
    requires Wf(p) && Reading(p, m) && p.state in {HeaderLws, HeaderValue} && c == '\r'
    ensures Continues(p, m, c, m)
  {
    ReadInLine(p.state, m);
    ReadInLine(Newline2, m);
    hide Written, StartLine, Number, GoodLine, GoodLines, HeadersOf, Open, WrittenOpen, ReadSoFar;
  }

  lemma EndOfHeadersStep(p: Parser, m: Message, c: char)
    requires Wf(p) && Reading(p, m) && p.state == HeaderLineStart && c == '\r'
    ensures Continues(p, m, c, m)
  {
    hide Written, StartLine, Number, GoodLine, GoodLines, HeadersOf, Open, WrittenOpen;
  }

  lemma NewlineStep(p: Parser, m: Message, c: char)
    requires Wf(p) && Reading(p, m) && p.state == Newline2 && c == '\n'
    ensures Continues(p, m, c, m)
  {
    ReadInLine(HeaderLineStart, m);
    hide Written, StartLine, Number, IsTokenChar, GoodLine, GoodLines, HeadersOf, Open, WrittenOpen;
  }

  /** Whatever the parser has read so far is a half-written message with its fields, and stays one. */
  lemma Progress(p: Parser, m: Message, c: char) returns (m': Message)
    requires Wf(p) && Reading(p, m) && Consume(p, c).0 == Indeterminate
    ensures Continues(p, m, c, m')
  {
    match p.state
    case MethodStart => VerbStep(p, m, c); m' := PushStart(p.state, m, c);
    case Method => VerbStep(p, m, c); m' := PushStart(p.state, m, c);
    case Uri => UriStep(p, m, c); m' := PushStart(p.state, m, c);
    case MajorStart => MajorStep(p, m, c); m' := PushStart(p.state, m, c);
    case Major => MajorStep(p, m, c); m' := PushStart(p.state, m, c);
    case MinorStart => MinorStep(p, m, c); m' := PushStart(p.state, m, c);
    case Minor => MinorStep(p, m, c); m' := PushStart(p.state, m, c);
    case Newline1 => Newline1Step(p, m, c); m' := m;
    case HeaderName =>
      if c == ':' {
        ColonStep(p, m, c);
        m' := m;
      } else {
        NameStep(p, m, c);
        m' := SetLast(m, LastLine(m).(name := LastLine(m).name + [c]));
      }
    case SpaceBeforeValue => ColonStep(p, m, c); m' := m;
    case Newline2 => NewlineStep(p, m, c); m' := m;
    case HeaderLineStart => m' := ProgressInLine(p, m, c);
    case HeaderLws => m' := ProgressInLine(p, m, c);
    case HeaderValue => m' := ProgressInLine(p, m, c);
    case _ => LiteralStep(p, m, c); m' := PushStart(p.state, m, c);
  }

  lemma ProgressInLine(p: Parser, m: Message, c: char) returns (m': Message)
    requires Wf(p) && Reading(p, m) && Consume(p, c).0 == Indeterminate
    requires p.state in {HeaderLineStart, HeaderLws, HeaderValue}
    ensures Continues(p, m, c, m')
  {
    if c == '\r' {
      if p.state == HeaderLineStart { EndOfHeadersStep(p, m, c); } else { EndOfLineStep(p, m, c); }
      m' := m;
    } else if p.state == HeaderLineStart && IsLwsChar(c) {
      var l := LastLine(m).(folds := LastLine(m).folds + [Fold([c], "")]);
      FoldStep(p, m, c, l);
      m' := SetLast(m, l);
    } else if p.state == HeaderLws && IsLwsChar(c) {
      var l := SetLastFold(LastLine(m), LastFold(m).(lws := LastFold(m).lws + [c]));
      LwsStep(p, m, c, l);
      m' := SetLast(m, l);
    } else if p.state == HeaderLineStart {
      NewHeaderStep(p, m, c);
      m' := m.(lines := m.lines + [Line([c], "", [])]);
    } else if LastLine(m).folds == [] {
      FirstTextStep(p, m, c);
      m' := SetLast(m, LastLine(m).(first := LastLine(m).first + [c]));
    } else {
      var l := SetLastFold(LastLine(m), LastFold(m).(text := LastFold(m).text + [c]));
      TextStep(p, m, c, l);
      m' := SetLast(m, l);
    }
  }
}
