/**
 The parser of HTTP requests: a state machine that is fed one character after the other.

 A byte is a character; those above 127 are neither special nor control characters.
 */
module RequestParser {

  datatype Tribool = True | False | Indeterminate

  datatype State =
    | MethodStart | Method | UriStart | Uri
    | VersionH | VersionT1 | VersionT2 | VersionP | VersionSlash
    | MajorStart | Major | MinorStart | Minor
    | Newline1
    | HeaderLineStart | HeaderLws | HeaderName | SpaceBeforeValue | HeaderValue
    | Newline2 | Newline3

  datatype Header = Header(name: string, value: string)

  datatype MethodType = MGet | MPost | MHead | MUnknown

  datatype Request = Request(
    mtype: MethodType,
    verb: string,
    uri: string,
    major: int,
    minor: int,
    headers: seq<Header>)

  datatype Parser = Parser(state: State, req: Request)

  datatype Outcome = Outcome(result: Tribool, parser: Parser, consumed: nat)

  // ----- Character classes -----

  predicate IsChar(c: char) {
    c as int <= 127
  }

  predicate IsCtl(c: char) {
    c as int <= 31 || c as int == 127
  }

  predicate IsTspecial(c: char) {
    c in "()<>@,;:\\\"/[]?={} \t"
  }

  predicate IsTokenChar(c: char) {
    IsChar(c) && !IsCtl(c) && !IsTspecial(c)
  }

  predicate IsDigit(c: char) {
    '0' <= c <= '9'
  }

  function DigitOf(c: char): int {
    c as int - '0' as int
  }

  /** The classes, as characters. */
  lemma CharacterClasses(c: char)
    ensures IsChar(c) <==> c <= '\U{7F}'
    ensures IsCtl(c) <==> c < ' ' || c == '\U{7F}'
    ensures IsTspecial(c) <==>
      c in {'(', ')', '<', '>', '@', ',', ';', ':', '\\', '"', '/', '[', ']', '?', '=', '{', '}', ' ', '\t'}
    ensures IsTokenChar(c) <==>
      '!' <= c <= '~' && c !in {'(', ')', '<', '>', '@', ',', ';', ':', '\\', '"', '/', '[', ']', '?', '=', '{', '}'}
    ensures IsDigit(c) <==> c in "0123456789"
  {
  }

  lemma DigitsCount(d: nat)
    requires d < 10
    ensures DigitOf("0123456789"[d]) == d
  {
  }

  // ----- One character -----

  /** A header has been started wherever the last header is written to. */
  predicate Wf(p: Parser) {
    p.state in {HeaderLws, HeaderName, SpaceBeforeValue, HeaderValue} ==> p.req.headers != []
  }

  function Last(req: Request): Header
    requires req.headers != []
  {
    req.headers[|req.headers| - 1]
  }

  function WithLast(req: Request, h: Header): (r: Request)
    requires req.headers != []
    ensures r.headers != []
  {
    req.(headers := req.headers[..|req.headers| - 1] + [h])
  }

  function PushName(req: Request, c: char): (r: Request)
    requires req.headers != []
    ensures r.headers != []
  {
    WithLast(req, Last(req).(name := Last(req).name + [c]))
  }

  function PushValue(req: Request, c: char): (r: Request)
    requires req.headers != []
    ensures r.headers != []
  {
    WithLast(req, Last(req).(value := Last(req).value + [c]))
  }

  /** The state after a character, or nothing if the character is refused; accepting the request is not part of it. */
  function Consume(p: Parser, c: char): (r: (Tribool, Parser))
    requires Wf(p)
    ensures Wf(r.1)
    ensures r.0 != Indeterminate ==> r.1 == p
  {
    var req := p.req;
    match p.state
    case MethodStart =>
      if IsTokenChar(c) then (Indeterminate, Parser(Method, req.(verb := req.verb + [c]))) else (False, p)
    case Method =>
      if c == ' ' then (Indeterminate, Parser(Uri, req))
      else if IsTokenChar(c) then (Indeterminate, Parser(Method, req.(verb := req.verb + [c])))
      else (False, p)
    case UriStart =>
      if IsCtl(c) then (False, p) else (Indeterminate, Parser(Uri, req.(uri := req.uri + [c])))
    case Uri =>
      if c == ' ' then (Indeterminate, Parser(VersionH, req))
      else if IsCtl(c) then (False, p)
      else (Indeterminate, Parser(Uri, req.(uri := req.uri + [c])))
    case VersionH => Expect(p, c, 'H', Parser(VersionT1, req))
    case VersionT1 => Expect(p, c, 'T', Parser(VersionT2, req))
    case VersionT2 => Expect(p, c, 'T', Parser(VersionP, req))
    case VersionP => Expect(p, c, 'P', Parser(VersionSlash, req))
    case VersionSlash => Expect(p, c, '/', Parser(MajorStart, req.(major := 0, minor := 0)))
    case MajorStart =>
      if IsDigit(c) then (Indeterminate, Parser(Major, req.(major := req.major * 10 + DigitOf(c)))) else (False, p)
    case Major =>
      if c == '.' then (Indeterminate, Parser(MinorStart, req))
      else if IsDigit(c) then (Indeterminate, Parser(Major, req.(major := req.major * 10 + DigitOf(c))))
      else (False, p)
    case MinorStart =>
      if IsDigit(c) then (Indeterminate, Parser(Minor, req.(minor := req.minor * 10 + DigitOf(c)))) else (False, p)
    case Minor =>
      if c == '\r' then (Indeterminate, Parser(Newline1, req))
      else if IsDigit(c) then (Indeterminate, Parser(Minor, req.(minor := req.minor * 10 + DigitOf(c))))
      else (False, p)
    case Newline1 => Expect(p, c, '\n', Parser(HeaderLineStart, req))
    case HeaderLineStart =>
      if c == '\r' then (Indeterminate, Parser(Newline3, req))
      else if req.headers != [] && (c == ' ' || c == '\t') then (Indeterminate, Parser(HeaderLws, req))
      else if IsTokenChar(c) then (Indeterminate, Parser(HeaderName, req.(headers := req.headers + [Header([c], "")])))
      else (False, p)
    case HeaderLws =>
      if c == '\r' then (Indeterminate, Parser(Newline2, req))
      else if c == ' ' || c == '\t' then (Indeterminate, p)
      else if IsCtl(c) then (False, p)
      else (Indeterminate, Parser(HeaderValue, PushValue(req, c)))
    case HeaderName =>
      if c == ':' then (Indeterminate, Parser(SpaceBeforeValue, req))
      else if IsTokenChar(c) then (Indeterminate, Parser(HeaderName, PushName(req, c)))
      else (False, p)
    case SpaceBeforeValue => Expect(p, c, ' ', Parser(HeaderValue, req))
    case HeaderValue =>
      if c == '\r' then (Indeterminate, Parser(Newline2, req))
      else if IsCtl(c) then (False, p)
      else (Indeterminate, Parser(HeaderValue, PushValue(req, c)))
    case Newline2 => Expect(p, c, '\n', Parser(HeaderLineStart, req))
    case Newline3 => (if c == '\n' then True else False, p)
  }

  function Expect(p: Parser, c: char, expected: char, next: Parser): (Tribool, Parser) {
    if c == expected then (Indeterminate, next) else (False, p)
  }

  // ----- Many characters -----

  /** Feed characters until the parser has decided or there are no more. */
  function Feed(p: Parser, s: string): (r: Outcome)
    requires Wf(p)
    ensures Wf(r.parser) && r.consumed <= |s|
    decreases |s|
  {
    if s == "" then Outcome(Indeterminate, p, 0)
    else
      var (result, next) := Consume(p, s[0]);
      if result != Indeterminate then Outcome(result, next, 1)
      else
        var rest := Feed(next, s[1..]);
        rest.(consumed := rest.consumed + 1)
  }

  function MethodTypeOf(verb: string): MethodType {
    if verb == "GET" then MGet
    else if verb == "POST" then MPost
    else if verb == "HEAD" then MHead
    else MUnknown
  }

  /** One call of parse: the method type is set once the parser has decided. */
  function Parsed(p: Parser, s: string): (r: Outcome)
    requires Wf(p)
    ensures Wf(r.parser)
  {
    var o := Feed(p, s);
    if o.result == Indeterminate then o
    else o.(parser := o.parser.(req := o.parser.req.(mtype := MethodTypeOf(o.parser.req.verb))))
  }

  /** Calls of parse with one piece of the input after the other. The pieces after a decision are not used. */
  function ParsedPieces(p: Parser, pieces: seq<string>): (r: Outcome)
    requires Wf(p)
    decreases |pieces|
  {
    if pieces == [] then Outcome(Indeterminate, p, 0)
    else
      var first := Parsed(p, pieces[0]);
      if first.result != Indeterminate then first
      else
        var rest := ParsedPieces(first.parser, pieces[1..]);
        rest.(consumed := rest.consumed + first.consumed)
  }

  function Concat(pieces: seq<string>): string {
    if pieces == [] then "" else pieces[0] + Concat(pieces[1..])
  }

  lemma {:induction false} FeedAppend(p: Parser, s: string, t: string)
    requires Wf(p)
    ensures Feed(p, s + t) ==
      if Feed(p, s).result != Indeterminate then Feed(p, s)
      else
        var o := Feed(Feed(p, s).parser, t);
        o.(consumed := o.consumed + |s|)
    ensures Feed(p, s).result == Indeterminate ==> Feed(p, s).consumed == |s|
    decreases |s|
  {
    if s == "" {
      assert s + t == t;
    } else {
      assert (s + t)[0] == s[0] && (s + t)[1..] == s[1..] + t;
      var (result, next) := Consume(p, s[0]);
      if result == Indeterminate {
        FeedAppend(next, s[1..], t);
      }
    }
  }

  /** However the input is cut into pieces, the outcome is that of one call. */
  lemma {:induction false} SplitInvariance(p: Parser, pieces: seq<string>)
    requires Wf(p)
    ensures ParsedPieces(p, pieces) == Parsed(p, Concat(pieces))
    decreases |pieces|
  {
    if pieces != [] {
      FeedAppend(p, pieces[0], Concat(pieces[1..]));
      if Feed(p, pieces[0]).result == Indeterminate {
        SplitInvariance(Feed(p, pieces[0]).parser, pieces[1..]);
      }
    }
  }

  // ----- The parser object -----

  class HttpRequest {
    var mtype: MethodType
    var verb: string
    var uri: string
    var major: int
    var minor: int
    var headers: seq<Header>

    function Value(): Request
      reads this
    {
      Request(mtype, verb, uri, major, minor, headers)
    }

    constructor ()
      ensures Value() == EmptyRequest
    {
      mtype, verb, uri, major, minor, headers := MUnknown, "", "", 0, 0, [];
    }

    method PushLastName(c: char)
      requires headers != []
      modifies `headers
      ensures Value() == PushName(old(Value()), c)
    {
      var last := |headers| - 1;
      headers := headers[..last] + [headers[last].(name := headers[last].name + [c])];
    }

    method PushLastValue(c: char)
      requires headers != []
      modifies `headers
      ensures Value() == PushValue(old(Value()), c)
    {
      var last := |headers| - 1;
      headers := headers[..last] + [headers[last].(value := headers[last].value + [c])];
    }
  }

  const EmptyRequest := Request(MUnknown, "", "", 0, 0, [])

  const Initial := Parser(MethodStart, EmptyRequest)

  class HttpRequestParser {
    var state: State

    constructor ()
      ensures state == MethodStart
    {
      state := MethodStart;
    }

    method ResetState()
      modifies this
      ensures state == MethodStart
    {
      state := MethodStart;
    }

    /** Move on to a state if the character is the expected one. */
    method ExpectChar(c: char, expected: char, next: State) returns (result: Tribool)
      modifies this
      ensures if c == expected then state == next && result == Indeterminate else state == old(state) && result == False
    {
      if c == expected {
        state := next;
        return Indeterminate;
      }
      result := False;
    }

    /** One character, in place: the states up to the end of the URI. */
    method ConsumeMethodAndUri(req: HttpRequest, c: char) returns (result: Tribool)
      requires state in {MethodStart, Method, UriStart, Uri} && Wf(Parser(state, req.Value()))
      modifies this, req
      ensures (result, Parser(state, req.Value())) == Consume(old(Parser(state, req.Value())), c)
    {
      result := Indeterminate;
      match state
      case MethodStart =>
        if IsTokenChar(c) { state := Method; req.verb := req.verb + [c]; } else { result := False; }
      case Method =>
        if c == ' ' { state := Uri; }
        else if IsTokenChar(c) { req.verb := req.verb + [c]; }
        else { result := False; }
      case UriStart =>
        if IsCtl(c) { result := False; } else { state := Uri; req.uri := req.uri + [c]; }
      case Uri =>
        if c == ' ' { state := VersionH; }
        else if IsCtl(c) { result := False; }
        else { req.uri := req.uri + [c]; }
    }

    /** The states of the version. */
    method ConsumeVersion(req: HttpRequest, c: char) returns (result: Tribool)
      requires state in {VersionH, VersionT1, VersionT2, VersionP, VersionSlash, MajorStart, Major, MinorStart, Minor,
               Newline1}
      requires Wf(Parser(state, req.Value()))
      modifies this, req
      ensures (result, Parser(state, req.Value())) == Consume(old(Parser(state, req.Value())), c)
    {
      result := Indeterminate;
      match state
      case VersionH => result := ExpectChar(c, 'H', VersionT1);
      case VersionT1 => result := ExpectChar(c, 'T', VersionT2);
      case VersionT2 => result := ExpectChar(c, 'T', VersionP);
      case VersionP => result := ExpectChar(c, 'P', VersionSlash);
      case VersionSlash =>
        if c == '/' { req.major, req.minor := 0, 0; state := MajorStart; } else { result := False; }
      case MajorStart =>
        if IsDigit(c) { req.major := req.major * 10 + DigitOf(c); state := Major; } else { result := False; }
      case Major =>
        if c == '.' { state := MinorStart; }
        else if IsDigit(c) { req.major := req.major * 10 + DigitOf(c); }
        else { result := False; }
      case MinorStart =>
        if IsDigit(c) { req.minor := req.minor * 10 + DigitOf(c); state := Minor; } else { result := False; }
      case Minor =>
        if c == '\r' { state := Newline1; }
        else if IsDigit(c) { req.minor := req.minor * 10 + DigitOf(c); }
        else { result := False; }
      case Newline1 => result := ExpectChar(c, '\n', HeaderLineStart);
    }

    /** The states of the headers. */
    method ConsumeHeaders(req: HttpRequest, c: char) returns (result: Tribool)
      requires state in {HeaderLineStart, HeaderLws, HeaderName, SpaceBeforeValue, HeaderValue, Newline2, Newline3}
      requires Wf(Parser(state, req.Value()))
      modifies this, req
      ensures (result, Parser(state, req.Value())) == Consume(old(Parser(state, req.Value())), c)
    {
      result := Indeterminate;
      match state
      case HeaderLineStart =>
        if c == '\r' { state := Newline3; }
        else if req.headers != [] && (c == ' ' || c == '\t') { state := HeaderLws; }
        else if IsTokenChar(c) { req.headers := req.headers + [Header([c], "")]; state := HeaderName; }
        else { result := False; }
      case HeaderLws =>
        if c == '\r' { state := Newline2; }
        else if c == ' ' || c == '\t' { }
        else if IsCtl(c) { result := False; }
        else { state := HeaderValue; req.PushLastValue(c); }
      case HeaderName =>
        if c == ':' { state := SpaceBeforeValue; }
        else if IsTokenChar(c) { req.PushLastName(c); }
        else { result := False; }
      case SpaceBeforeValue => result := ExpectChar(c, ' ', HeaderValue);
      case HeaderValue =>
        if c == '\r' { state := Newline2; }
        else if IsCtl(c) { result := False; }
        else { req.PushLastValue(c); }
      case Newline2 => result := ExpectChar(c, '\n', HeaderLineStart);
      case Newline3 => result := if c == '\n' then True else False;
    }

    method ConsumeChar(req: HttpRequest, c: char) returns (result: Tribool)
      requires Wf(Parser(state, req.Value()))
      modifies this, req
      ensures (result, Parser(state, req.Value())) == Consume(old(Parser(state, req.Value())), c)
    {
      hide Consume;
      match state
      case MethodStart => result := ConsumeMethodAndUri(req, c);
      case Method => result := ConsumeMethodAndUri(req, c);
      case UriStart => result := ConsumeMethodAndUri(req, c);
      case Uri => result := ConsumeMethodAndUri(req, c);
      case HeaderLineStart => result := ConsumeHeaders(req, c);
      case HeaderLws => result := ConsumeHeaders(req, c);
      case HeaderName => result := ConsumeHeaders(req, c);
      case SpaceBeforeValue => result := ConsumeHeaders(req, c);
      case HeaderValue => result := ConsumeHeaders(req, c);
      case Newline2 => result := ConsumeHeaders(req, c);
      case Newline3 => result := ConsumeHeaders(req, c);
      case _ => result := ConsumeVersion(req, c);
    }

    /** Consume input from position begin on; the second result is the position of the first character not consumed. */
    method Parse(req: HttpRequest, input: string, begin: nat) returns (result: Tribool, end: nat)
      requires begin <= |input| && Wf(Parser(state, req.Value()))
      modifies this, req
      ensures begin <= end <= |input|
      ensures Outcome(result, Parser(state, req.Value()), end - begin)
              == Parsed(old(Parser(state, req.Value())), input[begin..])
    {
      end := begin;
      ghost var start := Parser(state, req.Value());
      while end != |input|
        invariant begin <= end <= |input| && Wf(Parser(state, req.Value()))
        invariant var o := Feed(Parser(state, req.Value()), input[end..]);
          Feed(start, input[begin..]) == o.(consumed := o.consumed + (end - begin))
      {
        result := ConsumeChar(req, input[end]);
        end := end + 1;
        if result != Indeterminate {
          req.mtype := MethodTypeOf(req.verb);
          return;
        }
      }
      result := Indeterminate;
    }
  }
}
