/** Parsing what HttpResponse::dump prints: exactly which header maps survive the round trip, and how responses
    follow one another on a connection. */
module HttpRoundTrip {
  import opened Bytes
  import opened HttpTypes
  import opened HttpAct
  import opened HttpMachine
  import opened HttpRuns
  import opened HttpNames
  import opened HttpLines
  import opened HttpLength
  import opened HttpLists
  import opened HttpOptions
  import opened HttpResponse
  import opened HttpStatusLine
  import opened HttpBlock
  import opened HttpHead
  import HttpBody
  import HttpFraming

  /** HTTP_HEADER */
  const HTTP_HEADER: seq<byte> := Ascii("HTTP/1.1 200 OK\r\n")

  const OK_TEXT: seq<byte> := ['O' as int, 'K' as int]

  lemma HeaderIsStatusLine()
    ensures HTTP_HEADER == StatusLine(ONE, ONE, 200, OK_TEXT)
  {
  }

  /** A parser with the settings of http_parser_init, as the repository uses it, and a user who wants the body. */
  predicate Strict(st: Parser) {
    !st.lenient && !st.allowChunkedLength && st.verdict == Proceed
  }

  // ---------- the whole response ----------

  /** No header name would be taken for a use of Transfer-Encoding or for another Content-Length. */
  predicate Unambiguous(hs: seq<Header>) {
    forall i :: 0 <= i < |hs| ==> !StartsLikeEncoding(hs[i].name) && !IsLengthName(hs[i].name)
  }

  lemma {:induction false} UnambiguousSplit(hs: seq<Header>)
    ensures Unambiguous(hs) <==> !HasEncodingLike(hs) && !HasLength(hs)
    decreases |hs|
  {
    hide StartsLikeEncoding, IsLengthName;
    if hs != [] {
      UnambiguousSplit(hs[1..]);
      if Unambiguous(hs[1..]) && !StartsLikeEncoding(hs[0].name) && !IsLengthName(hs[0].name) {
        forall i | 0 <= i < |hs| ensures !StartsLikeEncoding(hs[i].name) && !IsLengthName(hs[i].name) {
          if i > 0 { assert hs[i] == hs[1..][i - 1]; }
        }
      }
    }
  }

  function BodyEvents(body: seq<byte>): seq<Event> {
    [HeadersComplete] + (if body == [] then [] else [Data(Body, body)]) + [MessageComplete]
  }

  /** The callbacks the response calls for. */
  function ResponseEvents(hs: seq<Header>, body: seq<byte>): seq<Event> {
    [MessageBegin, Data(Status, OK_TEXT)] + (Pairs(hs + [LengthHeader(body)]) + BodyEvents(body))
  }

  /** The response arrived: no error, every octet consumed, exactly the callbacks it calls for, and the parser
      takes another response, or none if a Connection header closed the connection. */
  predicate Received(m: Machine, hs: seq<Header>, body: seq<byte>, r: Machine) {
    && Alive(r) && r.mark == Closed && r.st.nread == 0 && SameSettings(m.st, r.st)
    && r.consumed == m.consumed + |DumpText(HTTP_HEADER, hs, body)|
    && r.log == m.log + ResponseEvents(hs, body)
    && (if Closes(hs) then r.st.state == Dead else Ready(r))
  }

  /** The line that dump adds for a body of `k` octets. */
  function LengthLine(k: nat): seq<byte> {
    Line(Header(LENGTH_HEADER, DecimalText(k)))
  }

  /** All header lines of the printed response. */
  function Printed(hs: seq<Header>, body: seq<byte>): seq<Header> {
    hs + [LengthHeader(body)]
  }

  const CONTENT_LENGTH: seq<byte> :=
    ['C' as int, 'o' as int, 'n' as int, 't' as int, 'e' as int, 'n' as int, 't' as int, '-' as int,
     'L' as int, 'e' as int, 'n' as int, 'g' as int, 't' as int, 'h' as int]

  lemma LengthNameText()
    ensures AllTokens(LENGTH_HEADER) && IsLengthName(LENGTH_HEADER) && !StartsLikeEncoding(LENGTH_HEADER)
    ensures !IsConnectionName(LENGTH_HEADER) && !IsEncodingName(LENGTH_HEADER) && !IsUpgradeName(LENGTH_HEADER)
  {
    assert LENGTH_HEADER == CONTENT_LENGTH;
  }

  lemma DigitsAreText(s: seq<byte>)
    requires IsDecimal(s)
    ensures IsValueText(s)
  {
  }

  /** What a last line adds to what the lines say. */
  lemma {:induction false} LastLine(hs: seq<Header>, h: Header)
    ensures HasEncodingLike(hs + [h]) <==> HasEncodingLike(hs) || StartsLikeEncoding(h.name)
    ensures HasLength(hs + [h]) <==> HasLength(hs) || IsLengthName(h.name)
    ensures forall opt: ConnOption :: AskFor(hs + [h], opt) <==> AskFor(hs, opt) || Asks(h, opt)
    decreases |hs|
  {
    hide StartsLikeEncoding, IsLengthName, Asks;
    if hs == [] {
      assert hs + [h] == [h] && [h][1..] == [];
    } else {
      assert (hs + [h])[0] == hs[0] && (hs + [h])[1..] == hs[1..] + [h];
      LastLine(hs[1..], h);
    }
  }

  /** A first length in the last line is the length, and a second one is refused. */
  lemma {:induction false} LastLength(hs: seq<Header>, h: Header, had: bool)
    requires IsLengthName(h.name) && LengthOf(h.value).Some?
    ensures LengthsOk(hs + [h], had) <==> !had && !HasLength(hs)
    ensures !HasLength(hs) ==> DeclaredBy(hs + [h]) == LengthOf(h.value)
    decreases |hs|
  {
    hide IsLengthName, LengthOf;
    if hs == [] {
      assert hs + [h] == [h] && [h][1..] == [];
    } else {
      assert (hs + [h])[0] == hs[0] && (hs + [h])[1..] == hs[1..] + [h];
      LastLength(hs[1..], h, had || IsLengthName(hs[0].name));
    }
  }

  lemma PrintedFacts(hs: seq<Header>, body: seq<byte>)
    requires |body| < 0x8000_0000
    ensures var p := Printed(hs, body);
      && (HasEncodingLike(p) <==> HasEncodingLike(hs)) && (Closes(p) <==> Closes(hs)) && HasLength(p)
      && (LengthsOk(p, false) <==> !HasLength(hs)) && (!HasLength(hs) ==> DeclaredBy(p) == Some(|body|))
    ensures Lines(Printed(hs, body)) == Lines(hs) + LengthLine(|body|)
    ensures AreHeaderTexts(hs) ==> AreHeaderTexts(Printed(hs, body))
  {
    hide Lines, HasEncodingLike, HasLength, AskFor, LengthsOk, DeclaredBy, LengthOf, StartsLikeEncoding, IsLengthName,
         IsConnectionName, OptionFound, AllTokens, IsValueText, DecimalText, IsDecimal;
    var h := LengthHeader(body);
    DeclaredLength(|body|);
    LengthNameText();
    LengthOfPrinted(|body|);
    DigitsAreText(DecimalText(|body|));
    LastLine(hs, h);
    LastLength(hs, h, false);
    LinesSnoc(hs, h);
  }

  lemma DumpPieces(hs: seq<Header>, body: seq<byte>)
    requires |body| < 0x8000_0000
    ensures var p := Printed(hs, body);
      && DumpText(HTTP_HEADER, hs, body) == StatusLine(ONE, ONE, 200, OK_TEXT) + Lines(p) + (CRLF + body)
      && DumpText(HTTP_HEADER, hs, body) == HeadText(ONE, ONE, 200, OK_TEXT, p) + body
  {
    hide Lines, DecimalText, Line, StatusLine, HasEncodingLike, HasLength, AskFor, LengthsOk, DeclaredBy, AreHeaderTexts;
    HeaderIsStatusLine();
    DeclaredLength(|body|);
    PrintedFacts(hs, body);
  }

  lemma EventsAddUp(log: seq<Event>, hs: seq<Header>, body: seq<byte>)
    ensures log + HeadEvents(OK_TEXT, Printed(hs, body)) + BodyEvents(body) == log + ResponseEvents(hs, body)
  {
    hide Pairs, BodyEvents;
  }

  /** The parser behind a message: open for another response unless F_CLOSE was raised. */
  predicate Afterwards(st: Parser, r: Parser) {
    && r.errno == OK && r.nread == 0 && r.kind == Response && r.verb != CONNECT
    && SameSettings(st, r) && r.state == (if st.flags.close then Dead else StartRes)
  }

  lemma OrdinaryFraming(m: Machine, hs: seq<Header>, body: seq<byte>, n: Machine)
    requires HeadRead(m, ONE, ONE, 200, OK_TEXT, Printed(hs, body), n) && !HasEncodingLike(hs) && !HasLength(hs)
    requires |body| < 0x8000_0000 && m.st.verdict == Proceed
    ensures FramingOf(n.st) == (if body == [] then NoBody else ByLength) && !LengthConflict(n.st)
    ensures var b := BodyStart(n.st);
      && b.state == (if body != [] then BodyIdentity else if Closes(hs) then Dead else StartRes)
      && b.errno == OK && !b.upgrade && b.nread == 0 && b.contentLength == |body|
    ensures (n.st.flags.close <==> Closes(hs)) && !n.st.usesTransferEncoding && !n.st.flags.chunked
    ensures var p := Printed(hs, body);
      && HttpFraming.HeadKept(m.st, ONE, ONE, 200, p, BodyStart(n.st)) && !HasEncodingLike(p) && !Chunks(p)
      && (StaysOpen(ONE, ONE, p) <==> !Closes(hs))
  {
    hide HeadText, HeadEvents, HasEncodingLike, AskFor, Chunks, Upgrades, FramingOf, BodyStart, LengthConflict, HasLength,
         DeclaredBy, LengthsOk, Printed, AreHeaderTexts;
    var p := Printed(hs, body);
    PrintedFacts(hs, body);
    HttpFraming.HeadFramed(m, ONE, ONE, 200, OK_TEXT, p, n);
    HttpFraming.HeadStart(m, ONE, ONE, 200, OK_TEXT, p, n);
    ChunksNeedEncoding(p);
  }

  lemma EmptyOver(m: Machine, hs: seq<Header>, n: Machine)
    requires HeadRead(m, ONE, ONE, 200, OK_TEXT, Printed(hs, []), n) && !HasEncodingLike(hs) && !HasLength(hs)
    requires m.st.verdict == Proceed
    ensures Afterwards(n.st, BodyStart(n.st)) && FramingOf(n.st) == NoBody && !LengthConflict(n.st)
  {
    hide HeadText, HeadEvents, HasEncodingLike, AskFor, Chunks, Upgrades, FramingOf, NewMessage, LengthConflict, HasLength,
         Printed, Declared, Recorded;
    OrdinaryFraming(m, hs, [], n);
  }

  lemma BodyOver(m: Machine, hs: seq<Header>, body: seq<byte>, n: Machine)
    requires HeadRead(m, ONE, ONE, 200, OK_TEXT, Printed(hs, body), n) && !HasEncodingLike(hs) && !HasLength(hs)
    requires 0 < |body| < 0x8000_0000 && m.st.verdict == Proceed
    ensures Afterwards(n.st, MessageOver(BodyStart(n.st))) && FramingOf(n.st) == ByLength && !LengthConflict(n.st)
    ensures var b := BodyStart(n.st); b.state == BodyIdentity && b.contentLength == |body| && b.errno == OK && !b.upgrade
  {
    hide HeadText, HeadEvents, HasEncodingLike, AskFor, Chunks, Upgrades, FramingOf, NewMessage, LengthConflict, HasLength,
         Printed, Declared, Recorded, StaysOpen;
    OrdinaryFraming(m, hs, body, n);
    HttpFraming.KeptBehind(m.st, ONE, ONE, 200, Printed(hs, body), BodyStart(n.st));
  }

  /** From the blank line to the end of the message. */
  lemma RunRest(m: Machine, hs: seq<Header>, body: seq<byte>, n: Machine)
    requires |body| < 0x8000_0000 && HeadRead(m, ONE, ONE, 200, OK_TEXT, Printed(hs, body), n)
    requires !HasEncodingLike(hs) && !HasLength(hs) && m.st.verdict == Proceed
    ensures var r := Run(n, CRLF + body);
      && Alive(r) && r.mark == Closed && r.consumed == n.consumed + 2 + |body|
      && r.log == n.log + BodyEvents(body) && Afterwards(n.st, r.st)
  {
    hide Run, BodyStart, MessageOver, FramingOf, LengthConflict, HeadText, HeadEvents, HasEncodingLike, HasLength, Declared,
         Recorded, Afterwards, Printed;
    RunBlank(n);
    RunConcat(n, CRLF, body);
    var b := Run(n, CRLF);
    if body == [] {
      EmptyOver(m, hs, n);
      AfterwardsAlive(n.st, BodyStart(n.st));
      RunEmpty(b);
      assert n.log + BlankEvents(NoBody) == n.log + BodyEvents(body);
    } else {
      BodyOver(m, hs, body, n);
      AfterwardsAlive(n.st, MessageOver(BodyStart(n.st)));
      HttpBody.RunRest(b, |body|, body);
      assert n.log + BlankEvents(ByLength) + [Data(Body, body), MessageComplete] == n.log + BodyEvents(body);
    }
  }

  lemma AfterwardsAlive(st: Parser, r: Parser)
    requires Afterwards(st, r)
    ensures r.errno == OK
  {
  }

  lemma CodedConflict(m: Machine, hs: seq<Header>, body: seq<byte>, n: Machine)
    requires Strict(m.st) && HeadRead(m, ONE, ONE, 200, OK_TEXT, Printed(hs, body), n) && HasEncodingLike(hs)
    requires |body| < 0x8000_0000
    ensures LengthConflict(n.st)
  {
    hide HeadText, HeadEvents, HasEncodingLike, AskFor, Upgrades, Chunks, Printed, LengthsOk, DeclaredBy, AreHeaderTexts;
    PrintedFacts(hs, body);
  }

  lemma ReceivedOf(m: Machine, hs: seq<Header>, body: seq<byte>, n: Machine, r: Machine)
    requires |body| < 0x8000_0000 && HeadRead(m, ONE, ONE, 200, OK_TEXT, Printed(hs, body), n)
    requires Alive(r) && r.mark == Closed && r.consumed == n.consumed + 2 + |body|
    requires r.log == n.log + BodyEvents(body) && Afterwards(n.st, r.st)
    ensures Received(m, hs, body, r)
  {
    hide HeadText, HeadEvents, HasEncodingLike, AskFor, Chunks, Upgrades, DumpText, ResponseEvents, BodyEvents, Printed,
         Declared, LengthsOk, DeclaredBy, AreHeaderTexts;
    PrintedFacts(hs, body);
    DumpPieces(hs, body);
    EventsAddUp(m.log, hs, body);
  }

  /** A response that fits the header limit. */
  predicate Printable(hs: seq<Header>, body: seq<byte>) {
    && AreHeaderTexts(hs) && |body| < 0x8000_0000
    && |HTTP_HEADER| + |Lines(hs) + LengthLine(|body|)| + 2 <= MAX_HEADER_SIZE
  }

  lemma PrintableHead(hs: seq<Header>, body: seq<byte>)
    requires Printable(hs, body)
    ensures IsHead(ONE, ONE, 200, OK_TEXT, Printed(hs, body))
  {
    hide Lines, LengthLine, AreHeaderTexts, StatusLine, Printed, HasEncodingLike, HasLength, LengthsOk, DeclaredBy, AskFor;
    HeaderIsStatusLine();
    PrintedFacts(hs, body);
  }

  /** The round trip. For every header map with token names and legal values that fits the header
      limit, and every body shorter than 2^31: parsing what dump printed gives back exactly the
      headers, the Content-Length and the body, if and only if no header name begins with
      "transfer-encoding" or is "content-length" (in any case); otherwise the parser fails. */
  lemma DumpRoundTrip(m: Machine, hs: seq<Header>, body: seq<byte>)
    requires Ready(m) && Strict(m.st) && Printable(hs, body)
    ensures var r := Run(m, DumpText(HTTP_HEADER, hs, body));
      if Unambiguous(hs) then Received(m, hs, body, r) else r.st.errno != OK
  {
    hide Run, Lines, StatusLine, AreHeaderTexts, NextLine, HasLength, HasEncodingLike, Unambiguous, DumpText, HeadRead,
         IsHead, Received, BodyEvents, Ready, Strict, Printable, LengthConflict, Afterwards, Printed, LengthsOk, DeclaredBy,
         Closes, HeadText;
    var p := Printed(hs, body);
    UnambiguousSplit(hs);
    PrintableSize(hs, body);
    PrintableHead(hs, body);
    PrintedFacts(hs, body);
    DumpPieces(hs, body);
    StrictReads(m.st);
    RunHead(m, ONE, ONE, 200, OK_TEXT, p, body);
    if !HasLength(hs) {
      var n := NextLine(Run(m, StatusLine(ONE, ONE, 200, OK_TEXT) + Lines(p)));
      if HasEncodingLike(hs) {
        CodedConflict(m, hs, body, n);
        HeadNormal(m, p, n);
        RunBlank(n);
        RunConcat(n, CRLF, body);
        RunStopped(Run(n, CRLF), body);
      } else {
        RunRest(m, hs, body, n);
        ReceivedOf(m, hs, body, n, Run(n, CRLF + body));
      }
    }
  }

  lemma StrictReads(st: Parser)
    requires Strict(st)
    ensures st.verdict == Proceed
  {
  }

  lemma PrintableSize(hs: seq<Header>, body: seq<byte>)
    requires Printable(hs, body)
    ensures |body| < 0x8000_0000
  {
  }

  lemma HeadNormal(m: Machine, hs: seq<Header>, n: Machine)
    requires HeadRead(m, ONE, ONE, 200, OK_TEXT, hs, n)
    ensures Normal(n) && Ordinary(n.st) && n.st.nread + 2 <= MAX_HEADER_SIZE
  {
  }

  lemma FeedReady(m: Machine, s: seq<byte>)
    requires Ready(m) && s != []
    ensures var r := Run(m, s); r.mark == Closed || r.st.errno != OK ==> Feed(m, s) == r
  {
    hide Run;
    assert Begin(m) == m;
  }

  /** The same when the response arrives in pieces, one call each, none of them empty. */
  lemma DumpArrives(m: Machine, hs: seq<Header>, body: seq<byte>, pieces: seq<seq<byte>>)
    requires Ready(m) && Strict(m.st) && Printable(hs, body)
    requires NonemptyPieces(pieces) && Flatten(pieces) == DumpText(HTTP_HEADER, hs, body)
    ensures var r := FeedAll(m, pieces);
      && (r.st.errno == OK <==> Unambiguous(hs))
      && (Unambiguous(hs) ==> && Merge(r.log) == Merge(m.log + ResponseEvents(hs, body))
                              && r.consumed == m.consumed + |DumpText(HTTP_HEADER, hs, body)|)
  {
    hide Run, Feed, Merge, DumpText, Printable, Unambiguous, ResponseEvents, Ready;
    var text := DumpText(HTTP_HEADER, hs, body);
    DumpRoundTrip(m, hs, body);
    TextNonempty(hs, body);
    FeedReady(m, text);
    SplitInvariance(m, pieces);
  }

  lemma TextNonempty(hs: seq<Header>, body: seq<byte>)
    ensures |DumpText(HTTP_HEADER, hs, body)| > 0 && DumpText(HTTP_HEADER, hs, body)[0] == 'H' as int
  {
    assert |HTTP_HEADER| > 0 && HTTP_HEADER[0] == 'H' as int;
  }

  // ---------- many responses ----------

  datatype Message = Message(headers: seq<Header>, body: seq<byte>)

  /** A response that survives the round trip. */
  predicate Lossless(r: Message) {
    Printable(r.headers, r.body) && Unambiguous(r.headers)
  }

  /** The responses as dump prints them, one behind the other. */
  function DumpAll(rs: seq<Message>): seq<byte> {
    if rs == [] then [] else DumpText(HTTP_HEADER, rs[0].headers, rs[0].body) + DumpAll(rs[1..])
  }

  function AllEvents(rs: seq<Message>): seq<Event> {
    if rs == [] then [] else ResponseEvents(rs[0].headers, rs[0].body) + AllEvents(rs[1..])
  }

  /** The responses up to the first one that closes the connection. */
  function UpToClose(rs: seq<Message>): seq<Message> {
    if rs == [] then [] else if Closes(rs[0].headers) then [rs[0]] else [rs[0]] + UpToClose(rs[1..])
  }

  /** No response but the last closes the connection. */
  predicate OnlyLastCloses(rs: seq<Message>) {
    forall i :: 0 <= i < |rs| - 1 ==> !Closes(rs[i].headers)
  }

  lemma OnlyLastRest(rs: seq<Message>)
    requires rs != []
    ensures Closes(rs[0].headers) ==> (OnlyLastCloses(rs) <==> |rs| == 1)
    ensures !Closes(rs[0].headers) ==> (OnlyLastCloses(rs) <==> OnlyLastCloses(rs[1..]))
  {
    hide Closes;
    if !Closes(rs[0].headers) && OnlyLastCloses(rs[1..]) {
      forall i | 0 <= i < |rs| - 1 ensures !Closes(rs[i].headers) {
        if i > 0 { assert rs[i] == rs[1..][i - 1]; }
      }
    }
    if OnlyLastCloses(rs) {
      assert forall i :: 0 <= i < |rs[1..]| - 1 ==> rs[1..][i] == rs[i + 1];
    }
  }

  /** After a close the beginning of another message is an error. */
  lemma StepDead(m: Machine, ch: byte)
    requires Alive(m) && m.st.state == Dead && m.st.nread == 0 && ch != CR && ch != LF
    ensures ByteStep(m, ch).st.errno == CLOSED_CONNECTION && ByteStep(m, ch).log == m.log
  {
    hide Act, ByteStep;
    CountHeader(m.st);
    ActClosed(Count(m.st), ch);
    StepConsume(m, ch, Act(Count(m.st), ch));
  }

  lemma ActClosed(st: Parser, ch: byte)
    requires st.errno == OK && st.state == Dead && ch != CR && ch != LF
    ensures Act(st, ch) == Fail(st, CLOSED_CONNECTION)
  {
    hide Lawful;
  }

  /** The parser behind the last response, or behind none. */
  predicate Behind(rs: seq<Message>, r: Machine) {
    && Alive(r) && r.mark == Closed
    && (if rs != [] && Closes(rs[|rs| - 1].headers) then r.st.state == Dead else Ready(r))
  }

  lemma ReceivedFacts(m: Machine, hs: seq<Header>, body: seq<byte>, r: Machine)
    requires Received(m, hs, body, r) && Strict(m.st)
    ensures Alive(r) && r.mark == Closed && Strict(r.st) && r.log == m.log + ResponseEvents(hs, body)
    ensures r.consumed == m.consumed + |DumpText(HTTP_HEADER, hs, body)|
    ensures if Closes(hs) then r.st.state == Dead && r.st.nread == 0 else Ready(r)
  {
    hide Closes, DumpText, ResponseEvents;
  }

  lemma FirstReceived(m: Machine, r: Message)
    requires Ready(m) && Strict(m.st) && Lossless(r)
    ensures var r1 := Run(m, DumpText(HTTP_HEADER, r.headers, r.body));
      && Alive(r1) && r1.mark == Closed && Strict(r1.st) && r1.log == m.log + ResponseEvents(r.headers, r.body)
      && r1.consumed == m.consumed + |DumpText(HTTP_HEADER, r.headers, r.body)|
      && (if Closes(r.headers) then r1.st.state == Dead && r1.st.nread == 0 else Ready(r1))
  {
    hide Run, DumpText, Closes, ResponseEvents, Ready, Received, Printable, Unambiguous, Strict;
    DumpRoundTrip(m, r.headers, r.body);
    ReceivedFacts(m, r.headers, r.body, Run(m, DumpText(HTTP_HEADER, r.headers, r.body)));
  }

  lemma OneEvents(r: Message)
    ensures AllEvents([r]) == ResponseEvents(r.headers, r.body)
  {
    hide ResponseEvents;
    assert [r][1..] == [];
    assert ResponseEvents(r.headers, r.body) + [] == ResponseEvents(r.headers, r.body);
  }

  lemma MoreEvents(r: Message, rs: seq<Message>)
    ensures AllEvents([r] + rs) == ResponseEvents(r.headers, r.body) + AllEvents(rs)
  {
    hide ResponseEvents;
    assert ([r] + rs)[1..] == rs;
  }

  /** Behind a response that closes the connection. */
  lemma ClosedRest(m: Machine, rs: seq<Message>)
    requires Alive(m) && m.st.state == Dead && m.st.nread == 0
    ensures Run(m, DumpAll(rs)).log == m.log
    ensures if rs == [] then Run(m, DumpAll(rs)) == m else Run(m, DumpAll(rs)).st.errno == CLOSED_CONNECTION
  {
    hide ByteStep, DumpText;
    if rs != [] {
      var text := DumpAll(rs);
      TextNonempty(rs[0].headers, rs[0].body);
      assert text[0] == 'H' as int;
      StepDead(m, text[0]);
      RunStopped(ByteStep(m, text[0]), text[1..]);
    }
  }

  lemma ReadyAlive(m: Machine)
    requires Ready(m)
    ensures Alive(m) && m.mark == Closed
  {
  }

  lemma BehindMore(rs: seq<Message>, r: Machine)
    requires rs != [] && !Closes(rs[0].headers) && Behind(rs[1..], r)
    ensures Behind(rs, r)
  {
    hide Closes, Ready;
    if rs[1..] != [] {
      assert rs[1..][|rs[1..]| - 1] == rs[|rs| - 1];
    }
  }

  /** A connection: responses printed one behind the other are received one after another, each as it was, up to
      the first whose headers close the connection; anything behind that one is an error. */
  lemma {:induction false} ResponsesReceived(m: Machine, rs: seq<Message>)
    requires Ready(m) && Strict(m.st) && forall i :: 0 <= i < |rs| ==> Lossless(rs[i])
    ensures var r := Run(m, DumpAll(rs));
      && r.log == m.log + AllEvents(UpToClose(rs))
      && (if OnlyLastCloses(rs) then UpToClose(rs) == rs && Behind(rs, r) && r.consumed == m.consumed + |DumpAll(rs)|
          else r.st.errno == CLOSED_CONNECTION)
    decreases |rs|
  {
    hide ByteStep, Run, DumpText, Closes, ResponseEvents, Lossless, Ready, Strict;
    if rs == [] {
      RunEmpty(m);
      ReadyAlive(m);
      assert m.log + [] == m.log;
    } else {
      var text, rest := DumpText(HTTP_HEADER, rs[0].headers, rs[0].body), DumpAll(rs[1..]);
      var r1 := Run(m, text);
      FirstReceived(m, rs[0]);
      OnlyLastRest(rs);
      RunConcat(m, text, rest);
      if Closes(rs[0].headers) {
        ClosedRest(r1, rs[1..]);
        OneEvents(rs[0]);
        assert |rs| == 1 ==> rs == [rs[0]];
      } else {
        ResponsesReceived(r1, rs[1..]);
        MoreEvents(rs[0], UpToClose(rs[1..]));
        AddUp(m.log, ResponseEvents(rs[0].headers, rs[0].body), AllEvents(UpToClose(rs[1..])));
        assert [rs[0]] + rs[1..] == rs;
        if OnlyLastCloses(rs) {
          BehindMore(rs, Run(r1, rest));
        }
      }
    }
  }

  lemma AddUp(a: seq<Event>, b: seq<Event>, c: seq<Event>)
    ensures a + b + c == a + (b + c)
  {
  }

  /** The same when the responses arrive in pieces, cut anywhere. */
  lemma ResponsesArrive(m: Machine, rs: seq<Message>, pieces: seq<seq<byte>>)
    requires Ready(m) && Strict(m.st) && rs != [] && forall i :: 0 <= i < |rs| ==> Lossless(rs[i])
    requires NonemptyPieces(pieces) && Flatten(pieces) == DumpAll(rs)
    ensures var r := FeedAll(m, pieces);
      && (r.st.errno == OK <==> OnlyLastCloses(rs))
      && (OnlyLastCloses(rs) ==> Merge(r.log) == Merge(m.log + AllEvents(rs)) && r.consumed == m.consumed + |DumpAll(rs)|)
  {
    hide Run, Feed, Merge, DumpText, Lossless, OnlyLastCloses, ResponseEvents, Ready;
    ResponsesReceived(m, rs);
    TextNonempty(rs[0].headers, rs[0].body);
    FeedReady(m, DumpAll(rs));
    SplitInvariance(m, pieces);
  }

  // ---------- a close that is overlooked ----------

  const OVERLOOKED: Header := Header(Ascii("Connection"), Ascii("c, close"))

  lemma OverlookedText()
    ensures IsHeaderText(OVERLOOKED) && IsConnectionName(OVERLOOKED.name)
    ensures !StartsLikeEncoding(OVERLOOKED.name) && !IsLengthName(OVERLOOKED.name)
    ensures |OVERLOOKED.name| == 10 && |OVERLOOKED.value| == 8
  {
    hide Token;
    var name := OVERLOOKED.name;
    forall i | 0 <= i < |name| ensures Token(name[i]) == LiteralAt(CONNECTION_NAME, i) != 0 {
      ConnectionLetter(i);
    }
    assert OVERLOOKED.value == ['c' as int, ',' as int, SP, 'c' as int, 'l' as int, 'o' as int, 's' as int, 'e' as int];
  }

  lemma ConnectionLetter(i: nat)
    requires i < 10
    ensures Token(Ascii("Connection")[i]) == LiteralAt(CONNECTION_NAME, i) != 0
  {
    assert Ascii("Connection")[i] == "Connection"[i] as int;
  }

  lemma OverlookedLossless(body: seq<byte>)
    requires |body| < 0x8000_0000
    ensures Lossless(Message([OVERLOOKED], body)) && Lossless(Message([], body))
  {
    hide LengthLine, IsHeaderText, StartsLikeEncoding, IsLengthName;
    OverlookedText();
    LengthLineShort(|body|);
    assert Lines([OVERLOOKED]) == Line(OVERLOOKED) + Lines([]);
  }

  lemma NoClose()
    ensures Lists(OVERLOOKED.value, CLOSE) && !Closes([OVERLOOKED]) && !Closes([])
  {
    hide Lists, OptionFound, IsConnectionName;
    CloseMissed();
    assert Literal(CloseOption) == CLOSE;
    assert !Asks(OVERLOOKED, CloseOption);
    assert [OVERLOOKED][1..] == [];
    assert !AskFor([], CloseOption) && !AskFor([OVERLOOKED], CloseOption);
  }

  /** A response whose Connection header lists "close", and that does not close the connection: the next one
      is received. */
  lemma CloseOverlooked(m: Machine, a: seq<byte>, b: seq<byte>)
    requires Ready(m) && Strict(m.st) && |a| < 0x8000_0000 && |b| < 0x8000_0000
    ensures IsConnectionName(OVERLOOKED.name) && Lists(OVERLOOKED.value, CLOSE)
    ensures var rs := [Message([OVERLOOKED], a), Message([], b)];
      Run(m, DumpAll(rs)).st.errno == OK && Run(m, DumpAll(rs)).log == m.log + AllEvents(rs)
  {
    hide Run, DumpAll, AllEvents, Lossless, Closes, Lists, Ready, Strict, IsConnectionName, UpToClose;
    var rs := [Message([OVERLOOKED], a), Message([], b)];
    OverlookedText();
    OverlookedLossless(a);
    OverlookedLossless(b);
    NoClose();
    ResponsesReceived(m, rs);
  }

  // ---------- a response of version 1.0 ----------

  const OLD_RESPONSE: seq<byte> := Ascii("HTTP/1.0 200 OK\r\n") + (Ascii("Content-Length: 0\r\n") + Ascii("\r\n"))

  lemma OldText()
    ensures OLD_RESPONSE == HeadText(ONE, '0' as int, 200, OK_TEXT, Printed([], []))
  {
    hide Lines, Printed;
    assert Ascii("HTTP/1.0 200 OK\r\n") == StatusLine(ONE, '0' as int, 200, OK_TEXT);
    OldLine();
    assert Ascii("\r\n") == CRLF;
  }

  lemma ZeroHeader()
    ensures LengthHeader([]) == Header(CONTENT_LENGTH, ['0' as int]) && Printed([], []) == [LengthHeader([])]
  {
    assert DecimalText(0) == ['0' as int];
    assert [] + [LengthHeader([])] == [LengthHeader([])];
  }

  lemma OldLetters()
    ensures Ascii("Content-Length: 0\r\n") == CONTENT_LENGTH + [':' as int, SP, '0' as int, CR, LF]
  {
  }

  lemma OldLine()
    ensures Ascii("Content-Length: 0\r\n") == Lines(Printed([], []))
  {
    hide Lines, Printed, LengthHeader;
    ZeroHeader();
    OldLetters();
    OneLineText(Header(CONTENT_LENGTH, ['0' as int]));
    assert CONTENT_LENGTH + COLON_SP + (['0' as int] + CRLF) == CONTENT_LENGTH + [':' as int, SP, '0' as int, CR, LF];
  }

  lemma OneLineText(h: Header)
    ensures Lines([h]) == h.name + COLON_SP + (h.value + CRLF)
  {
    assert [h][1..] == [];
  }

  /** The connection is over behind a response of version 1.0 that does not ask for its being kept. */
  lemma OldVersionCloses(m: Machine)
    requires Ready(m) && Strict(m.st)
    ensures var r := Run(m, OLD_RESPONSE);
      r.st.errno == OK && r.st.httpMajor == 1 && r.st.httpMinor == 0 && r.st.statusCode == 200 && r.st.state == Dead
  {
    hide Run, HeadText, Ready, StatusLine, Lines, HasLength, HasEncodingLike, LengthsOk, DeclaredBy, AskFor, AreHeaderTexts,
         Chunks, HttpFraming.Switches, Printed;
    OldText();
    StrictReads(m.st);
    PrintedFacts([], []);
    ChunksNeedEncoding(Printed([], []));
    OldFacts();
    HttpFraming.BehindHead(m, ONE, '0' as int, 200, OK_TEXT, Printed([], []));
  }

  lemma OldFacts()
    ensures var p := Printed([], []);
      && IsHead(ONE, '0' as int, 200, OK_TEXT, p) && !AskFor(p, KeepAliveOption) && !HasEncodingLike(p)
      && LengthsOk(p, false) && DeclaredBy(p) == Some(0)
  {
    hide StatusLine, Lines, HasLength, HasEncodingLike, LengthsOk, DeclaredBy, AskFor, AreHeaderTexts, LengthLine, Asks;
    var h := LengthHeader([]);
    PrintedFacts([], []);
    NothingAsked();
    LastLine([], h);
    LengthLineShort(0);
    LengthNameText();
    assert !Asks(h, KeepAliveOption) by {
      NoConnection(h);
    }
  }

  lemma NoConnection(h: Header)
    requires !IsConnectionName(h.name)
    ensures !Asks(h, KeepAliveOption)
  {
    hide OptionFound;
  }

  lemma NothingAsked()
    ensures !HasEncodingLike([]) && !HasLength([]) && !AskFor([], KeepAliveOption) && AreHeaderTexts([]) && Lines([]) == []
  {
  }

  // ---------- a response that is lost ----------

  /** A header that the map may well hold, and that the round trip loses. */
  lemma LookAlikeLost(m: Machine, body: seq<byte>)
    requires Ready(m) && Strict(m.st) && |body| < 0x8000_0000
    ensures var hs := [Header(Ascii("transfer-encoding-log"), Ascii("on"))];
      AreHeaderTexts(hs) && Run(m, DumpText(HTTP_HEADER, hs, body)).st.errno != OK
  {
    hide Run, DumpText;
    var h := Header(Ascii("transfer-encoding-log"), Ascii("on"));
    LookAlikeText();
    assert !Unambiguous([h]) by { assert StartsLikeEncoding([h][0].name); }
    LengthLineShort(|body|);
    LookAlikeShort(h);
    DumpRoundTrip(m, [h], body);
  }

  lemma LookAlikeText()
    ensures var h := Header(Ascii("transfer-encoding-log"), Ascii("on")); IsHeaderText(h) && StartsLikeEncoding(h.name)
  {
    hide Token;
    var name := Ascii("transfer-encoding-log");
    LookAlikeTokens(name);
    assert forall i :: 0 <= i < |ENCODING_NAME| ==> name[i] == ENCODING_NAME[i] as int;
    assert Ascii("on") == ['o' as int, 'n' as int];
  }

  lemma LookAlikeTokens(s: seq<byte>)
    requires s == Ascii("transfer-encoding-log")
    ensures forall i :: 0 <= i < |s| ==> Token(s[i]) == s[i] && s[i] != 0
  {
    forall i | 0 <= i < |s| ensures Token(s[i]) == s[i] && s[i] != 0 {
      assert s[i] == "transfer-encoding-log"[i] as int;
    }
  }

  lemma LookAlikeShort(h: Header)
    requires |h.name| == 21 && |h.value| == 2
    ensures |Lines([h])| == 27
  {
    assert Lines([h]) == Line(h) + Lines([]);
  }

  /** A number with at most `d` digits. */
  lemma {:induction false} DecimalShort(n: nat, bound: nat, d: nat)
    requires n < bound && d > 0 && bound <= Power(d)
    ensures |DecimalText(n)| <= d
    decreases d
  {
    if n >= 10 {
      assert d > 1;
      DecimalShort(n / 10, Power(d - 1), d - 1);
    }
  }

  function Power(d: nat): nat {
    if d == 0 then 1 else 10 * Power(d - 1)
  }

  lemma LengthLineShort(k: nat)
    requires k < 0x8000_0000
    ensures |LengthLine(k)| <= 28
  {
    hide DecimalText;
    assert Power(5) == 100_000 && Power(10) == 10_000_000_000;
    DecimalShort(k, 0x8000_0000, 10);
  }
}
