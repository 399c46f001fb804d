/**
 The reply buffer that header lines and content are written into, and the proof that the request
 parser reads back what was printed.
 */
module HeaderPrinter {
  import opened RequestParser
  import opened RequestGrammar
  import opened RequestLanguage

  const SEPARATOR := ": "

  function Printed(h: Header): string {
    h.name + SEPARATOR + h.value + CRLF
  }

  function PrintedAll(hs: seq<Header>): string {
    if hs == [] then "" else PrintedAll(hs[..|hs| - 1]) + Printed(hs[|hs| - 1])
  }

  class HttpReply {
    var buf: string
    var enableBufRealocation: bool

    constructor ()
      ensures buf == "" && enableBufRealocation
    {
      buf, enableBufRealocation := "", true;
    }

    /** Grow the buffer, or shrink it. */
    method Resize(n: nat)
      modifies `buf
      ensures |buf| == n && (n >= |old(buf)| ==> buf[..|old(buf)|] == old(buf))
              && (n < |old(buf)| ==> buf == old(buf)[..n])
    {
      buf := if n < |buf| then buf[..n] else buf + seq(n - |buf|, _ => '\0');
    }

    /** Copy text into the buffer; false stands for the exception that an access outside the buffer throws. */
    method Put(at: nat, text: string, end: nat) returns (ok: bool)
      requires at + |text| <= end
      modifies `buf
      ensures ok == (text == "" || at + |text| <= |old(buf)|)
      ensures ok && text != "" ==> buf == old(buf)[..at] + text + old(buf)[at + |text|..]
      ensures text == "" || at >= |old(buf)| ==> buf == old(buf)
    {
      var it, i := at, 0;
      while it < end && i < |text|
        invariant i <= |text| && it == at + i && |buf| == |old(buf)|
        invariant i == 0 || at + i <= |buf|
        invariant i > 0 ==> buf == old(buf)[..at] + text[..i] + old(buf)[at + i..]
        invariant i == 0 ==> buf == old(buf)
      {
        if it >= |buf| {
          return false;
        }
        buf := buf[it := text[i]];
        it, i := it + 1, i + 1;
      }
      ok := true;
    }

    method AddHeaderDirectly(h: Header) returns (ok: bool)
      modifies `buf
      ensures ok == enableBufRealocation
      ensures buf == if ok then old(buf) + h.name + SEPARATOR + h.value else old(buf)
    {
      var prev := |buf|;
      var size := prev + |h.name| + |h.value| + |SEPARATOR|;
      if enableBufRealocation {
        Resize(size);
      }
      ok := Put(prev, h.name, size);
      if !ok { return; }
      prev := prev + |h.name|;
      ok := Put(prev, SEPARATOR, size);
      if !ok { return; }
      prev := prev + |SEPARATOR|;
      ok := Put(prev, h.value, size);
    }

    method AddCrlf()
      modifies `buf
      ensures buf == old(buf) + CRLF
    {
      buf := buf + CRLF;
    }

    /** A header line; nothing is written when the buffer must not grow. */
    method AddHeader(h: Header) returns (ok: bool)
      modifies `buf
      ensures ok == enableBufRealocation
      ensures buf == if ok then old(buf) + Printed(h) else old(buf)
    {
      ok := AddHeaderDirectly(h);
      if ok {
        AddCrlf();
      }
    }

    method AddHeaders(hs: seq<Header>)
      requires enableBufRealocation
      modifies `buf
      ensures buf == old(buf) + PrintedAll(hs)
    {
      hide Printed;
      for i := 0 to |hs|
        invariant buf == old(buf) + PrintedAll(hs[..i])
      {
        assert hs[..i + 1][..i] == hs[..i];
        LastPrinted(hs[..i + 1]);
        var ok := AddHeader(hs[i]);
      }
      assert hs[..|hs|] == hs;
    }

    /** The empty line and the content; a buffer that must not grow is emptied. */
    method AddContent(content: string) returns (ok: bool)
      modifies `buf
      ensures ok == (content != "" && enableBufRealocation)
      ensures buf == if ok then old(buf) + CRLF + content else if content == "" then old(buf) else ""
    {
      if content == "" {
        return false;
      }
      AddCrlf();
      var prev := |buf|;
      if enableBufRealocation {
        Resize(prev + |content|);
      }
      ok := Put(prev, content, prev + |content|);
      if !ok {
        buf := "";
      }
    }
  }

  // ----- Reading back -----

  predicate GoodHeader(h: Header) {
    h.name != "" && All(h.name, IsTokenChar) && All(h.value, IsTextChar)
  }

  function LinesOf(hs: seq<Header>): (r: seq<Line>)
    ensures |r| == |hs|
  {
    seq(|hs|, i requires 0 <= i < |hs| => Line(hs[i].name, hs[i].value, []))
  }

  lemma {:induction false} PrintedIsWritten(hs: seq<Header>)
    ensures PrintedAll(hs) == Written(LinesOf(hs)) && HeadersOf(LinesOf(hs)) == hs
  {
    LinesMean(hs);
    if hs != [] {
      var k := |hs| - 1;
      PrintedIsWritten(hs[..k]);
      assert LinesOf(hs)[..k] == LinesOf(hs[..k]);
      LineIsPrinted(hs[k]);
      hide LinesOf, HeadersOf, Printed, Open;
      LastPrinted(hs);
      assert Written(LinesOf(hs)) == Written(LinesOf(hs)[..k]) + Open(LinesOf(hs)[k]) + CRLF;
    }
  }

  lemma LineIsPrinted(h: Header)
    ensures Open(Line(h.name, h.value, [])) + CRLF == Printed(h)
    ensures HeaderOf(Line(h.name, h.value, [])) == h
  {
    assert h.value + "" == h.value;
  }

  lemma LastPrinted(hs: seq<Header>)
    requires hs != []
    ensures PrintedAll(hs) == PrintedAll(hs[..|hs| - 1]) + Printed(hs[|hs| - 1])
    ensures LinesOf(hs)[|hs| - 1] == Line(hs[|hs| - 1].name, hs[|hs| - 1].value, [])
  {
  }

  lemma LinesMean(hs: seq<Header>)
    ensures HeadersOf(LinesOf(hs)) == hs
  {
    hide HeaderOf;
    forall i | 0 <= i < |hs|
      ensures HeadersOf(LinesOf(hs))[i] == hs[i]
    {
      LineIsPrinted(hs[i]);
    }
  }

  /** After any request line: printed headers, the empty line and whatever follows are read as exactly these headers. */
  predicate ReadsBack(m: Message, hs: seq<Header>, rest: string) {
    var o := Feed(Parser(HeaderLineStart, StartRequest(m)), PrintedAll(hs) + CRLF + rest);
    o.result == True && o.parser.req.headers == hs && o.consumed == |PrintedAll(hs)| + 2
  }

  /** That is so exactly when every name is a token and no value has a control character. */
  lemma PrintedHeadersAreReadBack(m: Message, hs: seq<Header>, rest: string)
    requires Good(m) && m.lines == []
    ensures ReadsBack(m, hs, rest) <==> forall i :: 0 <= i < |hs| ==> GoodHeader(hs[i])
  {
    if forall i :: 0 <= i < |hs| ==> GoodHeader(hs[i]) {
      GoodIsReadBack(m, hs, rest);
    }
    if ReadsBack(m, hs, rest) {
      ReadBackIsGood(m, hs, rest);
    }
  }

  lemma GoodIsReadBack(m: Message, hs: seq<Header>, rest: string)
    requires forall i :: 0 <= i < |hs| ==> GoodHeader(hs[i])
    ensures ReadsBack(m, hs, rest)
  {
    PrintedIsWritten(hs);
    HeaderBlockIsAccepted(StartRequest(m), LinesOf(hs), rest);
  }

  lemma ReadBackIsGood(m: Message, hs: seq<Header>, rest: string)
    requires Good(m) && m.lines == [] && ReadsBack(m, hs, rest)
    ensures forall i :: 0 <= i < |hs| ==> GoodHeader(hs[i])
  {
    var p := Parser(HeaderLineStart, StartRequest(m));
    assert HeadersOf([]) == [];
    var m' := ReadingRun(p, m, PrintedAll(hs) + CRLF + rest);
    hide *;
    GoodLinesGoodHeaders(m'.lines);
  }

  lemma GoodLinesGoodHeaders(ls: seq<Line>)
    requires GoodLines(ls)
    ensures forall i :: 0 <= i < |ls| ==> GoodHeader(HeadersOf(ls)[i])
  {
    forall i | 0 <= i < |ls|
      ensures GoodHeader(HeadersOf(ls)[i])
    {
      TextsAreText(ls[i].folds);
    }
  }

  lemma {:induction false} TextsAreText(fs: seq<Fold>)
    requires forall i :: 0 <= i < |fs| ==> GoodFold(fs[i])
    ensures All(Texts(fs), IsTextChar)
  {
    if fs != [] {
      TextsAreText(fs[..|fs| - 1]);
    }
  }
}
