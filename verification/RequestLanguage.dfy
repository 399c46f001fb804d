/**
 The request parser accepts exactly the written form of the good messages.
 */
module RequestLanguage {
  import opened RequestParser
  import opened RequestGrammar

  // ----- Accepted implies written -----

  /** At the end of what was fed, the characters taken without a decision are those of a half-written message. */
  lemma {:induction false} ReadingRun(p: Parser, m: Message, s: string) returns (m': Message)
    requires Wf(p) && Reading(p, m)
    ensures var o := Feed(p, s);
      && Reading(o.parser, m')
      && (o.result == Indeterminate ==> o.consumed == |s| && ReadSoFar(o.parser.state, m') == ReadSoFar(p.state, m) + s)
      && (o.result != Indeterminate ==>
        && o.consumed > 0 && Consume(o.parser, s[o.consumed - 1]).0 == o.result
        && ReadSoFar(o.parser.state, m') == ReadSoFar(p.state, m) + s[..o.consumed - 1])
    decreases |s|
  {
    hide ReadSoFar, Reading, Consume;
    if s == "" || Consume(p, s[0]).0 != Indeterminate {
      m' := m;
      assert s == "" || s[..0] == "";
    } else {
      var m1 := Progress(p, m, s[0]);
      var next := Consume(p, s[0]).1;
      ContinuesMeans(p, m, s[0], m1);
      m' := ReadingRun(next, m1, s[1..]);
      FirstAndRest(ReadSoFar(p.state, m), s, Feed(p, s).consumed);
    }
  }

  lemma FirstAndRest(before: string, s: string, n: nat)
    requires 0 < n <= |s|
    ensures before + [s[0]] + s[1..] == before + s
    ensures n > 1 ==> s[1..][n - 2] == s[n - 1] && before + [s[0]] + s[1..][..n - 2] == before + s[..n - 1]
  {
  }

  lemma ContinuesMeans(p: Parser, m: Message, c: char, m': Message)
    requires Wf(p) && Continues(p, m, c, m')
    ensures Reading(Consume(p, c).1, m') && ReadSoFar(Consume(p, c).1.state, m') == ReadSoFar(p.state, m) + [c]
  {
  }

  const Nothing := Message("", "", "", "", [])

  lemma AcceptedIsWritten(s: string) returns (m: Message)
    requires Feed(Initial, s).result == True
    ensures Good(m) && Feed(Initial, s).parser.req == Fields(m) && s[..Feed(Initial, s).consumed] == Render(m)
  {
    StartsReading();
    m := ReadingRun(Initial, Nothing, s);
    var o := Feed(Initial, s);
    AcceptsAt(o.parser, s[o.consumed - 1]);
    WholeMessage(m);
    assert s[..o.consumed] == s[..o.consumed - 1] + ['\n'];
  }

  lemma StartsReading()
    ensures Reading(Initial, Nothing) && ReadSoFar(Initial.state, Nothing) == ""
  {
  }

  lemma AcceptsAt(p: Parser, c: char)
    requires Wf(p) && Consume(p, c).0 == True
    ensures p.state == Newline3 && c == '\n'
  {
  }

  lemma WholeMessage(m: Message)
    requires Half(Newline3, m)
    ensures Good(m) && Render(m) == ReadSoFar(Newline3, m) + ['\n']
  {
    hide StartLine, Written;
  }

  // ----- Written implies accepted -----

  /** Feeding s takes the parser from p to q. */
  predicate Runs(p: Parser, s: string, q: Parser)
    requires Wf(p)
  {
    Feed(p, s) == Outcome(Indeterminate, q, |s|)
  }

  lemma One(p: Parser, c: char, q: Parser)
    requires Wf(p) && Consume(p, c) == (Indeterminate, q)
    ensures Runs(p, [c], q)
  {
    assert [c][1..] == "";
  }

  lemma Then(p: Parser, s: string, q: Parser, t: string, r: Parser)
    requires Wf(p) && Wf(q) && Runs(p, s, q) && Runs(q, t, r)
    ensures Runs(p, s + t, r)
  {
    FeedAppend(p, s, t);
  }

  lemma ThenOne(p: Parser, s: string, q: Parser, c: char, r: Parser)
    requires Wf(p) && Wf(q) && Runs(p, s, q) && Consume(q, c) == (Indeterminate, r)
    ensures Runs(p, s + [c], r)
  {
    One(q, c, r);
    Then(p, s, q, [c], r);
  }

  lemma {:induction false} VerbRun(p: Parser, s: string)
    requires p.state == Method && All(s, IsTokenChar)
    ensures Runs(p, s, p.(req := p.req.(verb := p.req.verb + s)))
  {
    if s == "" {
      assert p.req.verb + s == p.req.verb;
    } else {
      var k := |s| - 1;
      VerbRun(p, s[..k]);
      assert s == s[..k] + [s[k]];
      TokenIsNot(s[k]);
      hide IsTokenChar;
      var q := p.(req := p.req.(verb := p.req.verb + s[..k]));
      assert p.req.verb + s[..k] + [s[k]] == p.req.verb + s;
      ThenOne(p, s[..k], q, s[k], p.(req := p.req.(verb := p.req.verb + s)));
    }
  }

  lemma {:induction false} UriRun(p: Parser, s: string)
    requires p.state == Uri && All(s, IsUriChar)
    ensures Runs(p, s, p.(req := p.req.(uri := p.req.uri + s)))
  {
    if s == "" {
      assert p.req.uri + s == p.req.uri;
    } else {
      var k := |s| - 1;
      UriRun(p, s[..k]);
      assert s == s[..k] + [s[k]];
      var q := p.(req := p.req.(uri := p.req.uri + s[..k]));
      assert p.req.uri + s[..k] + [s[k]] == p.req.uri + s;
      ThenOne(p, s[..k], q, s[k], p.(req := p.req.(uri := p.req.uri + s)));
    }
  }

  lemma {:induction false} MajorRun(p: Parser, s: string)
    requires p.state == MajorStart && p.req.major == 0 && All(s, IsDigit) && s != ""
    ensures Runs(p, s, Parser(Major, p.req.(major := Number(s))))
  {
    var k := |s| - 1;
    var next := Parser(Major, p.req.(major := Number(s)));
    assert s == s[..k] + [s[k]];
    if k == 0 {
      One(p, s[0], next);
    } else {
      MajorRun(p, s[..k]);
      ThenOne(p, s[..k], Parser(Major, p.req.(major := Number(s[..k]))), s[k], next);
    }
  }

  lemma {:induction false} MinorRun(p: Parser, s: string)
    requires p.state == MinorStart && p.req.minor == 0 && All(s, IsDigit) && s != ""
    ensures Runs(p, s, Parser(Minor, p.req.(minor := Number(s))))
  {
    var k := |s| - 1;
    var next := Parser(Minor, p.req.(minor := Number(s)));
    assert s == s[..k] + [s[k]];
    if k == 0 {
      One(p, s[0], next);
    } else {
      MinorRun(p, s[..k]);
      ThenOne(p, s[..k], Parser(Minor, p.req.(minor := Number(s[..k]))), s[k], next);
    }
  }

  function StartRequest(m: Message): Request {
    Request(MUnknown, m.verb, m.uri, Number(m.major), Number(m.minor), [])
  }

  lemma RequestLineRun(m: Message)
    requires Good(m)
    ensures Runs(Initial, m.verb + " " + m.uri + " HTTP/",
            Parser(MajorStart, EmptyRequest.(verb := m.verb, uri := m.uri)))
  {
    var p1 := Parser(Method, EmptyRequest.(verb := [m.verb[0]]));
    assert EmptyRequest.verb + [m.verb[0]] == [m.verb[0]];
    One(Initial, m.verb[0], p1);
    VerbRun(p1, m.verb[1..]);
    assert m.verb == [m.verb[0]] + m.verb[1..];
    var p2 := Parser(Method, EmptyRequest.(verb := m.verb));
    Then(Initial, [m.verb[0]], p1, m.verb[1..], p2);
    hide IsTokenChar, All, IsUriChar, Runs;
    var p3 := Parser(Uri, p2.req);
    ThenOne(Initial, m.verb, p2, ' ', p3);
    UriRun(p3, m.uri);
    var p4 := Parser(Uri, EmptyRequest.(verb := m.verb, uri := m.uri));
    assert "" + m.uri == m.uri;
    Then(Initial, m.verb + " ", p3, m.uri, p4);
    VersionRun(p4);
    Then(Initial, m.verb + " " + m.uri, p4, " HTTP/", Parser(MajorStart, p4.req));
  }

  lemma VersionRun(p: Parser)
    requires p.state == Uri && p.req.major == 0 && p.req.minor == 0
    ensures Runs(p, " HTTP/", Parser(MajorStart, p.req))
  {
    hide Runs;
    assert " " + "H" == " H" && " H" + "T" == " HT" && " HT" + "T" == " HTT" && " HTT" + "P" == " HTTP";
    One(p, ' ', Parser(VersionH, p.req));
    ThenOne(p, " ", Parser(VersionH, p.req), 'H', Parser(VersionT1, p.req));
    ThenOne(p, " H", Parser(VersionT1, p.req), 'T', Parser(VersionT2, p.req));
    ThenOne(p, " HT", Parser(VersionT2, p.req), 'T', Parser(VersionP, p.req));
    ThenOne(p, " HTT", Parser(VersionP, p.req), 'P', Parser(VersionSlash, p.req));
    ThenOne(p, " HTTP", Parser(VersionSlash, p.req), '/', Parser(MajorStart, p.req));
    assert " HTTP" + "/" == " HTTP/";
  }

  lemma StartLineRun(m: Message)
    requires Good(m)
    ensures Runs(Initial, StartLine(m), Parser(HeaderLineStart, StartRequest(m)))
  {
    var line := m.verb + " " + m.uri + " HTTP/";
    var req := EmptyRequest.(verb := m.verb, uri := m.uri);
    RequestLineRun(m);
    MajorRun(Parser(MajorStart, req), m.major);
    var req1 := req.(major := Number(m.major));
    MinorRun(Parser(MinorStart, req1), m.minor);
    hide Runs, Number, All, IsTokenChar;
    Then(Initial, line, Parser(MajorStart, req), m.major, Parser(Major, req1));
    ThenOne(Initial, line + m.major, Parser(Major, req1), '.', Parser(MinorStart, req1));
    Then(Initial, line + m.major + ".", Parser(MinorStart, req1), m.minor, Parser(Minor, StartRequest(m)));
    ThenOne(Initial, line + m.major + "." + m.minor, Parser(Minor, StartRequest(m)), '\r',
        Parser(Newline1, StartRequest(m)));
    ThenOne(Initial, line + m.major + "." + m.minor + "\r", Parser(Newline1, StartRequest(m)), '\n',
        Parser(HeaderLineStart, StartRequest(m)));
    assert line + m.major + "." + m.minor + "\r" + "\n" == StartLine(m);
  }

  /** A request with one more header. */
  function WithHeader(req: Request, h: Header): (r: Request)
    ensures r.headers != []
  {
    req.(headers := req.headers + [h])
  }

  lemma PushesOnto(req: Request, h: Header, c: char)
    ensures PushName(WithHeader(req, h), c) == WithHeader(req, h.(name := h.name + [c]))
    ensures PushValue(WithHeader(req, h), c) == WithHeader(req, h.(value := h.value + [c]))
  {
  }

  lemma {:induction false} NameRun(req: Request, h: Header, s: string)
    requires All(s, IsTokenChar)
    ensures Runs(Parser(HeaderName, WithHeader(req, h)), s, Parser(HeaderName, WithHeader(req, h.(name := h.name + s))))
  {
    var p := Parser(HeaderName, WithHeader(req, h));
    if s == "" {
      assert h.name + s == h.name;
    } else {
      var k := |s| - 1;
      var h1 := h.(name := h.name + s[..k]);
      NameRun(req, h, s[..k]);
      assert s == s[..k] + [s[k]];
      PushesOnto(req, h1, s[k]);
      TokenIsNot(s[k]);
      hide IsTokenChar, Runs, PushName, WithHeader;
      assert h1.name + [s[k]] == h.name + s;
      ThenOne(p, s[..k], Parser(HeaderName, WithHeader(req, h1)), s[k],
          Parser(HeaderName, WithHeader(req, h.(name := h.name + s))));
    }
  }

  lemma {:induction false} ValueRun(req: Request, h: Header, s: string)
    requires All(s, IsTextChar)
    ensures Runs(Parser(HeaderValue, WithHeader(req, h)), s,
            Parser(HeaderValue, WithHeader(req, h.(value := h.value + s))))
  {
    var p := Parser(HeaderValue, WithHeader(req, h));
    if s == "" {
      assert h.value + s == h.value;
    } else {
      var k := |s| - 1;
      var h1 := h.(value := h.value + s[..k]);
      ValueRun(req, h, s[..k]);
      assert s == s[..k] + [s[k]];
      PushesOnto(req, h1, s[k]);
      hide Runs, PushValue, WithHeader;
      assert h1.value + [s[k]] == h.value + s;
      ThenOne(p, s[..k], Parser(HeaderValue, WithHeader(req, h1)), s[k],
          Parser(HeaderValue, WithHeader(req, h.(value := h.value + s))));
    }
  }

  lemma {:induction false} LwsRun(p: Parser, s: string)
    requires Wf(p) && p.state == HeaderLws && All(s, IsLwsChar)
    ensures Runs(p, s, p)
  {
    if s != "" {
      var k := |s| - 1;
      LwsRun(p, s[..k]);
      assert s == s[..k] + [s[k]];
      hide Runs;
      ThenOne(p, s[..k], p, s[k], p);
    }
  }

  /** Where the text after some white space leaves the parser. */
  function AfterText(text: string): State {
    if text == "" then HeaderLws else HeaderValue
  }

  lemma TextRun(req: Request, h: Header, text: string)
    requires All(text, IsTextChar) && (text != "" ==> text[0] != ' ')
    ensures Runs(Parser(HeaderLws, WithHeader(req, h)), text,
            Parser(AfterText(text), WithHeader(req, h.(value := h.value + text))))
  {
    var p := Parser(HeaderLws, WithHeader(req, h));
    if text == "" {
      assert h.value + text == h.value;
    } else {
      var h1 := h.(value := h.value + [text[0]]);
      PushesOnto(req, h, text[0]);
      One(p, text[0], Parser(HeaderValue, WithHeader(req, h1)));
      ValueRun(req, h1, text[1..]);
      hide Runs, WithHeader;
      assert h1.value + text[1..] == h.value + text;
      assert text == [text[0]] + text[1..];
      Then(p, [text[0]], Parser(HeaderValue, WithHeader(req, h1)), text[1..],
          Parser(HeaderValue, WithHeader(req, h.(value := h.value + text))));
    }
  }

  lemma FoldRun(state: State, req: Request, h: Header, f: Fold)
    requires state in {HeaderValue, HeaderLws} && GoodFold(f)
    ensures Runs(Parser(state, WithHeader(req, h)), CRLF + f.lws + f.text,
            Parser(AfterText(f.text), WithHeader(req, h.(value := h.value + f.text))))
  {
    var r := WithHeader(req, h);
    var p := Parser(state, r);
    EndOfLineRun(state, r);
    One(Parser(HeaderLineStart, r), f.lws[0], Parser(HeaderLws, r));
    LwsRun(Parser(HeaderLws, r), f.lws[1..]);
    TextRun(req, h, f.text);
    hide Runs;
    assert f.lws == [f.lws[0]] + f.lws[1..];
    Then(Parser(HeaderLineStart, r), [f.lws[0]], Parser(HeaderLws, r), f.lws[1..], Parser(HeaderLws, r));
    Then(p, CRLF, Parser(HeaderLineStart, r), f.lws, Parser(HeaderLws, r));
    Then(p, CRLF + f.lws, Parser(HeaderLws, r), f.text,
        Parser(AfterText(f.text), WithHeader(req, h.(value := h.value + f.text))));
  }

  lemma EndOfLineRun(state: State, req: Request)
    requires state in {HeaderValue, HeaderLws} && req.headers != []
    ensures Runs(Parser(state, req), CRLF, Parser(HeaderLineStart, req))
  {
    One(Parser(state, req), '\r', Parser(Newline2, req));
    ThenOne(Parser(state, req), "\r", Parser(Newline2, req), '\n', Parser(HeaderLineStart, req));
    assert "\r" + "\n" == CRLF;
  }

  lemma FoldsSplit(fs: seq<Fold>)
    requires fs != []
    ensures var k := |fs| - 1;
      && WrittenFolds(fs) == WrittenFolds(fs[..k]) + (CRLF + fs[k].lws + fs[k].text)
      && Texts(fs) == Texts(fs[..k]) + fs[k].text
  {
    var k := |fs| - 1;
    var before, lws, text := WrittenFolds(fs[..k]), fs[k].lws, fs[k].text;
    assert WrittenFolds(fs) == before + CRLF + lws + text;
    Regroup(before, CRLF, lws, text);
  }

  lemma Regroup(a: string, b: string, c: string, d: string)
    ensures a + b + c + d == a + (b + c + d)
  {
  }

  lemma {:induction false} FoldsRun(req: Request, h: Header, fs: seq<Fold>) returns (state: State)
    requires forall i :: 0 <= i < |fs| ==> GoodFold(fs[i])
    ensures state in {HeaderValue, HeaderLws}
    ensures Runs(Parser(HeaderValue, WithHeader(req, h)), WrittenFolds(fs),
            Parser(state, WithHeader(req, h.(value := h.value + Texts(fs)))))
  {
    var p := Parser(HeaderValue, WithHeader(req, h));
    if fs == [] {
      assert h.value + "" == h.value;
      state := HeaderValue;
    } else {
      var k := |fs| - 1;
      var f := fs[k];
      var before := FoldsRun(req, h, fs[..k]);
      var h1 := h.(value := h.value + Texts(fs[..k]));
      FoldRun(before, req, h1, f);
      FoldsSplit(fs);
      assert h1.value + f.text == h.value + Texts(fs);
      hide Runs, WithHeader, WrittenFolds, Texts, Feed, Consume;
      state := AfterText(f.text);
      Then(p, WrittenFolds(fs[..k]), Parser(before, WithHeader(req, h1)), CRLF + f.lws + f.text,
        Parser(state, WithHeader(req, h.(value := h.value + Texts(fs)))));
    }
  }

  lemma NameColonRun(req: Request, name: string)
    requires name != "" && All(name, IsTokenChar)
    ensures Runs(Parser(HeaderLineStart, req), name + ": ", Parser(HeaderValue, WithHeader(req, Header(name, ""))))
  {
    var p := Parser(HeaderLineStart, req);
    TokenIsNot(name[0]);
    var q := WithHeader(req, Header([name[0]], ""));
    One(p, name[0], Parser(HeaderName, q));
    NameRun(req, Header([name[0]], ""), name[1..]);
    assert name == [name[0]] + name[1..];
    var r := WithHeader(req, Header(name, ""));
    ColonRun(r);
    hide *;
    Then(p, [name[0]], Parser(HeaderName, q), name[1..], Parser(HeaderName, r));
    Then(p, name, Parser(HeaderName, r), ": ", Parser(HeaderValue, r));
  }

  lemma ColonRun(req: Request)
    requires req.headers != []
    ensures Runs(Parser(HeaderName, req), ": ", Parser(HeaderValue, req))
  {
    One(Parser(HeaderName, req), ':', Parser(SpaceBeforeValue, req));
    ThenOne(Parser(HeaderName, req), ":", Parser(SpaceBeforeValue, req), ' ', Parser(HeaderValue, req));
    assert ":" + " " == ": ";
  }

  lemma LineRun(req: Request, l: Line)
    requires GoodLine(l)
    ensures Runs(Parser(HeaderLineStart, req), Open(l) + CRLF, Parser(HeaderLineStart, WithHeader(req, HeaderOf(l))))
  {
    var p := Parser(HeaderLineStart, req);
    NameColonRun(req, l.name);
    ValueRun(req, Header(l.name, ""), l.first);
    assert "" + l.first == l.first;
    var state := FoldsRun(req, Header(l.name, l.first), l.folds);
    EndOfLineRun(state, WithHeader(req, HeaderOf(l)));
    hide Runs, WithHeader, WrittenFolds, Texts;
    Then(p, l.name + ": ", Parser(HeaderValue, WithHeader(req, Header(l.name, ""))), l.first,
        Parser(HeaderValue, WithHeader(req, Header(l.name, l.first))));
    Then(p, l.name + ": " + l.first, Parser(HeaderValue, WithHeader(req, Header(l.name, l.first))),
        WrittenFolds(l.folds), Parser(state, WithHeader(req, HeaderOf(l))));
    Then(p, Open(l), Parser(state, WithHeader(req, HeaderOf(l))), CRLF,
        Parser(HeaderLineStart, WithHeader(req, HeaderOf(l))));
  }

  lemma {:induction false} LinesRun(req: Request, ls: seq<Line>)
    requires GoodLines(ls)
    ensures Runs(Parser(HeaderLineStart, req), Written(ls),
            Parser(HeaderLineStart, req.(headers := req.headers + HeadersOf(ls))))
  {
    var p := Parser(HeaderLineStart, req);
    if ls == [] {
      assert req.headers + HeadersOf(ls) == req.headers;
    } else {
      var k := |ls| - 1;
      LinesRun(req, ls[..k]);
      var q := req.(headers := req.headers + HeadersOf(ls[..k]));
      LineRun(q, ls[k]);
      HeadersPush(ls[..k], ls[k]);
      assert ls == ls[..k] + [ls[k]];
      assert WithHeader(q, HeaderOf(ls[k])) == req.(headers := req.headers + HeadersOf(ls));
      assert Written(ls) == Written(ls[..k]) + (Open(ls[k]) + CRLF);
      hide Runs, WithHeader, Written, HeadersOf, Open;
      Then(p, Written(ls[..k]), Parser(HeaderLineStart, q), Open(ls[k]) + CRLF,
          Parser(HeaderLineStart, req.(headers := req.headers + HeadersOf(ls))));
    }
  }

  lemma LastCrlf(p: Parser, rest: string)
    requires p.state == HeaderLineStart
    ensures Feed(p, CRLF + rest) == Outcome(True, Parser(Newline3, p.req), 2)
  {
    var s := CRLF + rest;
    var q := Parser(Newline3, p.req);
    assert s[0] == '\r' && s[1..][0] == '\n';
    assert Consume(p, s[0]) == (Indeterminate, q);
    assert Feed(q, s[1..]) == Outcome(True, q, 1);
  }

  /** Header lines and the empty line after them, read from where a header line may start. */
  lemma HeaderBlockIsAccepted(req: Request, ls: seq<Line>, rest: string)
    requires GoodLines(ls)
    ensures Feed(Parser(HeaderLineStart, req), Written(ls) + CRLF + rest) ==
      Outcome(True, Parser(Newline3, req.(headers := req.headers + HeadersOf(ls))), |Written(ls)| + 2)
  {
    LinesRun(req, ls);
    var q := Parser(HeaderLineStart, req.(headers := req.headers + HeadersOf(ls)));
    LastCrlf(q, rest);
    assert Written(ls) + CRLF + rest == Written(ls) + (CRLF + rest);
    hide Written, HeadersOf, Consume, GoodLines;
    FeedAppend(Parser(HeaderLineStart, req), Written(ls), CRLF + rest);
  }

  lemma RenderSplit(m: Message, rest: string)
    ensures Render(m) + rest == StartLine(m) + (Written(m.lines) + CRLF + rest)
    ensures |Render(m)| == |StartLine(m)| + |Written(m.lines)| + 2
  {
    hide StartLine, Written;
  }

  lemma WrittenIsAccepted(m: Message, rest: string)
    requires Good(m)
    ensures Feed(Initial, Render(m) + rest) == Outcome(True, Parser(Newline3, Fields(m)), |Render(m)|)
  {
    StartLineRun(m);
    HeaderBlockIsAccepted(StartRequest(m), m.lines, rest);
    RenderSplit(m, rest);
    assert StartRequest(m).(headers := [] + HeadersOf(m.lines)) == Fields(m);
    hide *;
    FeedAppend(Initial, StartLine(m), Written(m.lines) + CRLF + rest);
  }

  // ----- The theorem -----

  /** The parser accepts the first n characters of s, as message m. */
  predicate AcceptsAs(s: string, n: nat, m: Message) {
    Good(m) && n <= |s| && s[..n] == Render(m)
  }

  /**
   True is answered on exactly the inputs that start with a good message, which then is what was consumed and
   understood.
   */
  lemma ParserIsExact(s: string)
    ensures Feed(Initial, s).result == True <==> exists m, n: nat :: AcceptsAs(s, n, m)
    ensures forall m, n: nat :: AcceptsAs(s, n, m) ==>
      Feed(Initial, s).consumed == n && Feed(Initial, s).parser.req == Fields(m)
  {
    if Feed(Initial, s).result == True {
      var m := AcceptedIsWritten(s);
      assert AcceptsAs(s, Feed(Initial, s).consumed, m);
    }
    forall m, n: nat | AcceptsAs(s, n, m)
      ensures Feed(Initial, s) == Outcome(True, Parser(Newline3, Fields(m)), n)
    {
      WrittenIsAccepted(m, s[n..]);
      assert s == Render(m) + s[n..];
    }
  }

  /** The same for any way to cut the input into pieces, with the type of the method. */
  lemma PiecesAreExact(pieces: seq<string>)
    ensures ParsedPieces(Initial, pieces).result == True <==> exists m, n: nat :: AcceptsAs(Concat(pieces), n, m)
    ensures forall m, n: nat :: AcceptsAs(Concat(pieces), n, m) ==>
      && ParsedPieces(Initial, pieces).consumed == n
      && var req := ParsedPieces(Initial, pieces).parser.req;
      && req == Fields(m).(mtype := req.mtype)
      && req.mtype == (match m.verb
                       case "GET" => MGet
                       case "POST" => MPost
                       case "HEAD" => MHead
                       case _ => MUnknown)
  {
    SplitInvariance(Initial, pieces);
    ParserIsExact(Concat(pieces));
  }

  // ----- Refusing at once -----

  /** A character that takes the parser closer to the end of a request. */
  function WayOut(state: State): char {
    match state
    case MethodStart => 'G'
    case UriStart => '/'
    case VersionH => 'H'
    case VersionT1 => 'T'
    case VersionT2 => 'T'
    case VersionP => 'P'
    case VersionSlash => '/'
    case MajorStart => '1'
    case Major => '.'
    case MinorStart => '1'
    case HeaderName => ':'
    case Method => ' '
    case Uri => ' '
    case SpaceBeforeValue => ' '
    case Newline1 => '\n'
    case Newline2 => '\n'
    case Newline3 => '\n'
    case _ => '\r'
  }

  function StepsLeft(state: State): nat {
    match state
    case UriStart => 19
    case HeaderName => 18
    case SpaceBeforeValue => 17
    case HeaderLws => 16
    case HeaderValue => 16
    case Newline2 => 3
    case HeaderLineStart => 2
    case Newline3 => 1
    case _ => 20 - Place(state)
  }

  lemma {:induction false} CanFinish(p: Parser) returns (t: string)
    requires Wf(p)
    ensures Feed(p, t).result == True
    decreases StepsLeft(p.state)
  {
    var c := WayOut(p.state);
    var next := Consume(p, c).1;
    if p.state == Newline3 {
      t := [c];
    } else {
      var rest := CanFinish(next);
      t := [c] + rest;
      assert t[0] == c && t[1..] == rest;
    }
  }

  /** The start of a message is not refused, and anything else is. */
  lemma RefusesExactly(s: string)
    ensures Feed(Initial, s).result != False <==> exists m :: Good(m) && (s <= Render(m) || Render(m) <= s)
  {
    var o := Feed(Initial, s);
    if o.result == True {
      var m := AcceptedIsWritten(s);
      assert Good(m) && Render(m) <= s;
    } else if o.result == Indeterminate {
      var t := CanFinish(o.parser);
      FeedAppend(Initial, s, t);
      var m := AcceptedIsWritten(s + t);
      FewerThanThat(s, t, m);
      assert Good(m) && s <= Render(m);
    }
    if m :| Good(m) && (s <= Render(m) || Render(m) <= s) {
      NotRefused(s, m);
    }
  }

  lemma FewerThanThat(s: string, t: string, m: Message)
    requires Feed(Initial, s).result == Indeterminate && Feed(Initial, s + t).result == True
    requires (s + t)[..Feed(Initial, s + t).consumed] == Render(m)
    ensures s <= Render(m)
  {
    FeedAppend(Initial, s, t);
    assert (s + t)[..|s|] == s;
  }

  lemma NotRefused(s: string, m: Message)
    requires Good(m) && (s <= Render(m) || Render(m) <= s)
    ensures Feed(Initial, s).result != False
  {
    if Render(m) <= s {
      WrittenIsAccepted(m, s[|Render(m)|..]);
      assert s == Render(m) + s[|Render(m)|..];
    } else {
      WrittenIsAccepted(m, "");
      var t := Render(m)[|s|..];
      assert Render(m) + "" == s + t;
      FeedAppend(Initial, s, t);
    }
  }
}
