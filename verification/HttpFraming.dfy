/** How the end of a response is found (RFC 7230 section 3.3.3), over whole heads of responses, and how that fits
    http_message_needs_eof. */
module HttpFraming {
  import opened Bytes
  import opened HttpTypes
  import opened HttpAct
  import opened HttpMachine
  import opened HttpRuns
  import opened HttpNames
  import opened HttpLists
  import opened HttpOptions
  import opened HttpTransfer
  import opened HttpLines
  import opened HttpResponse
  import opened HttpStatusLine
  import opened HttpBlock
  import opened HttpHead
  import HttpBody
  import HttpChunked

  // ---------- one decision ----------

  /** A response at the end of its headers, neither skipped nor handed over to another protocol. */
  predicate AtBody(st: Parser) {
    st.errno == OK && st.state == HeadersDone && st.kind != Request && !st.upgrade && !st.flags.skipBody
  }

  /** A transfer coding other than a final "chunked". */
  predicate Unframed(st: Parser) {
    st.usesTransferEncoding && !st.flags.chunked
  }

  lemma ActAtBody(st: Parser)
    requires AtBody(st)
    ensures Act(st, LF) == ActFraming(st.(nread := 0))
  {
    hide Lawful, NewMessage;
  }

  /** The parser reads a response body up to the end of the connection exactly when http_message_needs_eof
      says so or the transfer coding leaves no other way; the two agree except for a status without a body. */
  lemma EofFraming(st: Parser)
    requires AtBody(st)
    ensures Act(st, LF).st.state == BodyIdentityEof <==> MessageNeedsEof(st) || Unframed(st)
    ensures !Bodiless(st.statusCode) ==> (Act(st, LF).st.state == BodyIdentityEof <==> MessageNeedsEof(st))
    ensures Bodiless(st.statusCode) ==> !MessageNeedsEof(st)
  {
    hide Lawful, NewMessage, Act;
    ActAtBody(st);
    NextMessage(st.(nread := 0));
  }

  lemma NextMessage(st: Parser)
    ensures NewMessage(st) == StartReq || NewMessage(st) == StartRes || NewMessage(st) == Dead
  {
    hide ShouldKeepAlive;
  }

  /** RFC 7230 ends a 1xx, 204 or 304 response at its headers whatever they announce; this parser does so
      if and only if they announce no coding and no length but 0. */
  lemma BodilessFraming(st: Parser)
    requires AtBody(st) && Bodiless(st.statusCode)
    ensures Act(st, LF).out == Notify(MessageComplete) <==>
      !st.usesTransferEncoding && !st.flags.chunked && (st.contentLength == 0 || st.contentLength == ULLONG_MAX)
  {
    hide Lawful, NewMessage, Act;
    ActAtBody(st);
  }

  // ---------- heads of responses ----------

  /** A 101 response that names a protocol and asks for the change. */
  predicate Switches(code: nat, hs: seq<Header>) {
    code == 101 && Upgrades(hs) && AskFor(hs, UpgradeOption)
  }

  /** Whether the connection is to change its protocol, be it for the head or for the answer of on_headers_complete. */
  predicate Upgrading(verdict: Verdict, code: nat, hs: seq<Header>) {
    Switches(code, hs) || verdict == SkipBodyAndUpgrade
  }

  /** A declared length of one octet or more. */
  predicate Sized(hs: seq<Header>) {
    HasLength(hs) && DeclaredBy(hs).Some? && DeclaredBy(hs).value > 0
  }

  /** How a response is framed: by the user's answer if that skips the body, and otherwise by what its lines say of
      codings, the declared length, and the status code. */
  function HeadFraming(verdict: Verdict, code: nat, hs: seq<Header>): Framing {
    if verdict != Proceed then (if Upgrading(verdict, code, hs) then HandedOver else NoBody)
    else if Chunks(hs) then ByChunks
    else if Switches(code, hs) && !Sized(hs) then HandedOver
    else if HasEncodingLike(hs) then ByEof
    else if HasLength(hs) then (if Sized(hs) then ByLength else NoBody)
    else if Bodiless(code) then NoBody else ByEof
  }

  /** The state in which such a response leaves the parser at the end of its head. */
  function HeadState(verdict: Verdict, x: byte, y: byte, code: nat, hs: seq<Header>): State {
    match HeadFraming(verdict, code, hs)
    case ByChunks => ChunkSizeStart
    case ByLength => BodyIdentity
    case ByEof => BodyIdentityEof
    case _ => NextStart(Response, StaysOpen(x, y, hs))
  }

  /** A declared length beside a coding, where the parser has not been told to bear with it. */
  predicate Conflicts(st: Parser, hs: seq<Header>) {
    HasLength(hs) && HasEncodingLike(hs) && (if Chunks(hs) then !st.allowChunkedLength else !st.lenient)
  }

  lemma HeadFramed(m: Machine, x: byte, y: byte, code: nat, reason: seq<byte>, hs: seq<Header>, n: Machine)
    requires IsNum(x) && IsNum(y) && code < 1000 && LengthsOk(hs, false) && HeadRead(m, x, y, code, reason, hs, n)
    ensures FramingOf(n.st) == HeadFraming(m.st.verdict, code, hs) && (Upgraded(n.st) <==> Upgrading(m.st.verdict, code, hs))
    ensures LengthConflict(n.st) <==> Conflicts(m.st, hs)
  {
    hide HeadText, HeadEvents, HasEncodingLike, AskFor, Chunks, Upgrades, HasLength, DeclaredBy, LengthsOk;
    LengthsDeclared(hs);
    DeclaredBelow(hs);
  }

  /** What is known of the message behind its head: the version and the status are those that were written, and the rest
      is what http_message_needs_eof and http_should_keep_alive read. */
  predicate HeadKept(was: Parser, x: byte, y: byte, code: nat, hs: seq<Header>, st: Parser)
    requires IsNum(x) && IsNum(y)
  {
    && st.kind == Response && st.verb != CONNECT && SameSettings(was, st) && st.nread == 0
    && (st.flags.skipBody <==> was.verdict != Proceed)
    && st.httpMajor == DigitOf(x) && st.httpMinor == DigitOf(y) && st.statusCode == code
    && (st.flags.chunked <==> Chunks(hs)) && Declared(hs, st)
    && (st.flags.keepAlive <==> AskFor(hs, KeepAliveOption)) && (st.flags.close <==> Closes(hs))
  }

  lemma KeptOf(m: Machine, x: byte, y: byte, code: nat, reason: seq<byte>, hs: seq<Header>, n: Machine)
    requires IsNum(x) && IsNum(y) && code < 1000 && HeadRead(m, x, y, code, reason, hs, n)
    ensures HeadKept(m.st, x, y, code, hs, BodyStart(n.st))
  {
    hide HeadText, HeadEvents, HasEncodingLike, AskFor, Chunks, Upgrades, BodyStart, Upgraded, HasLength, DeclaredBy, IsNum,
         DigitOf;
    BodyStartKeeps(n.st);
  }

  /** The parser behind the blank line, as the head determines it. */
  lemma HeadStart(m: Machine, x: byte, y: byte, code: nat, reason: seq<byte>, hs: seq<Header>, n: Machine)
    requires IsNum(x) && IsNum(y) && code < 1000 && LengthsOk(hs, false) && HeadRead(m, x, y, code, reason, hs, n)
    ensures var r := BodyStart(n.st);
      && r.state == HeadState(m.st.verdict, x, y, code, hs) && r.errno == OK && r.nread == 0
      && (r.upgrade <==> Upgrading(m.st.verdict, code, hs)) && HeadKept(m.st, x, y, code, hs, r)
  {
    hide HeadText, HeadEvents, HasEncodingLike, AskFor, Chunks, Upgrades, FramingOf, Upgraded, NewMessage, HasLength,
         DeclaredBy, LengthsOk, StaysOpen, IsNum, DigitOf, HeadKept;
    HeadFramed(m, x, y, code, reason, hs, n);
    KeptOf(m, x, y, code, reason, hs, n);
    if EndsMessage(HeadFraming(m.st.verdict, code, hs)) {
      ChunksNeedEncoding(hs);
      LengthsDeclared(hs);
      KeptOpen(HeadersOver(n.st), x, y, hs);
    }
  }

  lemma HeadPieces(x: byte, y: byte, code: nat, reason: seq<byte>, hs: seq<Header>, rest: seq<byte>)
    requires code < 1000
    ensures HeadText(x, y, code, reason, hs) + rest == StatusLine(x, y, code, reason) + Lines(hs) + (CRLF + rest)
  {
    hide StatusLine, Lines;
  }

  /** The parser behind the head of a response. */
  predicate HeadTaken(m: Machine, x: byte, y: byte, code: nat, reason: seq<byte>, hs: seq<Header>, r: Machine)
    requires IsNum(x) && IsNum(y) && code < 1000
  {
    var f := HeadFraming(m.st.verdict, code, hs);
    && r.st.errno == OK && r.mark == Closed && (r.exited <==> f == HandedOver)
    && r.consumed == m.consumed + |HeadText(x, y, code, reason, hs)|
    && r.log == m.log + HeadEvents(reason, hs) + BlankEvents(f)
    && r.st.state == HeadState(m.st.verdict, x, y, code, hs) && (r.st.upgrade <==> Upgrading(m.st.verdict, code, hs))
    && (HasLength(hs) && DeclaredBy(hs).Some? ==> r.st.contentLength == DeclaredBy(hs).value)
    && HeadKept(m.st, x, y, code, hs, r.st)
  }

  lemma HeadLength(st: Parser, hs: seq<Header>)
    requires Declared(hs, st)
    ensures HasLength(hs) && DeclaredBy(hs).Some? ==> st.contentLength == DeclaredBy(hs).value
  {
    hide HasLength, DeclaredBy, HasEncodingLike;
  }

  lemma TakenOf(m: Machine, x: byte, y: byte, code: nat, reason: seq<byte>, hs: seq<Header>, n: Machine, r: Machine)
    requires IsNum(x) && IsNum(y) && code < 1000 && LengthsOk(hs, false) && HeadRead(m, x, y, code, reason, hs, n)
    requires !Conflicts(m.st, hs)
    requires BlankEffect(n, 2, r)
    ensures HeadTaken(m, x, y, code, reason, hs, r)
  {
    hide HeadText, HeadEvents, HasEncodingLike, AskFor, Chunks, Upgrades, FramingOf, Upgraded, BodyStart, LengthConflict,
         HeadState, BlankEvents, Switches, HasLength, DeclaredBy, LengthsOk, Sized, IsNum, DigitOf;
    HeadLength(n.st, hs);
    HeadFramed(m, x, y, code, reason, hs, n);
    HeadStart(m, x, y, code, reason, hs, n);
    assert HeadFraming(m.st.verdict, code, hs) != Unframeable;
  }

  /** The head of any response, from the first octet to the blank line: refused exactly if its lines declare a length in
      vain or more than one, or if a declared length meets a coding that the parser does not tolerate beside it; otherwise
      delivered as it is, and the end of the body is found as the lines and the status code say. */
  lemma ResponseFraming(m: Machine, x: byte, y: byte, code: nat, reason: seq<byte>, hs: seq<Header>)
    requires Ready(m) && IsHead(x, y, code, reason, hs)
    ensures var r := Run(m, HeadText(x, y, code, reason, hs));
      if !LengthsOk(hs, false) then r.st.errno != OK
      else if Conflicts(m.st, hs) then r.st.errno == UNEXPECTED_CONTENT_LENGTH
      else HeadTaken(m, x, y, code, reason, hs, r)
  {
    hide Run, StatusLine, Lines, NextLine, HeadText, HeadEvents, BlankEvents, BodyStart, FramingOf, LengthsOk, HasEncodingLike,
         HeadFraming, HeadState, LengthConflict, Ready, Conflicts, HeadTaken, HeadKept, BlankEffect, IsNum, DigitOf;
    HeadPieces(x, y, code, reason, hs, []);
    assert HeadText(x, y, code, reason, hs) + [] == HeadText(x, y, code, reason, hs) && CRLF + [] == CRLF;
    RunHead(m, x, y, code, reason, hs, []);
    if LengthsOk(hs, false) {
      var n := NextLine(Run(m, StatusLine(x, y, code, reason) + Lines(hs)));
      RunBlank(n);
      if Conflicts(m.st, hs) {
        HeadRefused(m, x, y, code, reason, hs, n, Run(n, CRLF));
      } else {
        TakenOf(m, x, y, code, reason, hs, n, Run(n, CRLF));
      }
    }
  }

  lemma HeadRefused(m: Machine, x: byte, y: byte, code: nat, reason: seq<byte>, hs: seq<Header>, n: Machine, r: Machine)
    requires IsNum(x) && IsNum(y) && code < 1000 && LengthsOk(hs, false) && HeadRead(m, x, y, code, reason, hs, n)
    requires Conflicts(m.st, hs)
    requires BlankEffect(n, 2, r)
    ensures r.st.errno == UNEXPECTED_CONTENT_LENGTH
  {
    hide HeadText, HeadEvents, FramingOf, BodyStart, LengthConflict, Conflicts, BlankEvents, HeadRead, LengthsOk;
    HeadFramed(m, x, y, code, reason, hs, n);
  }

  // ---------- the connection behind a response ----------

  /** The parser behind a whole response: the version is reported as it was written, and the parser waits for another
      response exactly if the version and the Connection lines keep the connection open; otherwise it takes nothing more. */
  predicate Behind(m: Machine, x: byte, y: byte, code: nat, hs: seq<Header>, r: Machine)
    requires IsNum(x) && IsNum(y)
  {
    && r.st.errno == OK && r.mark == Closed
    && r.st.httpMajor == DigitOf(x) && r.st.httpMinor == DigitOf(y) && r.st.statusCode == code
    && r.st.state == (if StaysOpen(x, y, hs) then StartRes else Dead)
    && (r.exited <==> Upgrading(m.st.verdict, code, hs))
    && (StaysOpen(x, y, hs) && !r.exited && r.st.nread == 0 ==> Ready(r))
  }

  lemma HandedOrOver(verdict: Verdict, code: nat, hs: seq<Header>)
    requires EndsMessage(HeadFraming(verdict, code, hs))
    ensures HeadFraming(verdict, code, hs) == HandedOver <==> Upgrading(verdict, code, hs)
  {
    hide Chunks, HasEncodingLike, HasLength, DeclaredBy, Switches;
  }

  lemma HeadDigits(x: byte, y: byte, code: nat, reason: seq<byte>, hs: seq<Header>)
    requires IsHead(x, y, code, reason, hs)
    ensures IsNum(x) && IsNum(y) && code < 1000
  {
  }

  /** A response that is over at its head. */
  lemma BehindHead(m: Machine, x: byte, y: byte, code: nat, reason: seq<byte>, hs: seq<Header>)
    requires Ready(m) && IsHead(x, y, code, reason, hs) && LengthsOk(hs, false) && !Conflicts(m.st, hs)
    requires EndsMessage(HeadFraming(m.st.verdict, code, hs))
    ensures var r := Run(m, HeadText(x, y, code, reason, hs)); r.st.nread == 0 && Behind(m, x, y, code, hs, r)
  {
    hide Run, HeadText, HeadEvents, HasLength, HasEncodingLike, IsHead, Chunks, Switches, LengthsOk, DeclaredBy, IsNum, DigitOf,
         StaysOpen, AskFor, Conflicts, Declared;
    HeadDigits(x, y, code, reason, hs);
    ResponseFraming(m, x, y, code, reason, hs);
    HandedOrOver(m.st.verdict, code, hs);
  }

  /** What a body leaves of the parser. */
  predicate BodyPast(st: Parser, r: Parser) {
    && r.errno == st.errno && r.kind == st.kind && r.verb == st.verb
    && r.httpMajor == st.httpMajor && r.httpMinor == st.httpMinor && r.statusCode == st.statusCode
  }

  /** NEW_MESSAGE() behind the body of a response. */
  lemma KeptBehind(was: Parser, x: byte, y: byte, code: nat, hs: seq<Header>, st: Parser)
    requires IsNum(x) && IsNum(y) && HeadKept(was, x, y, code, hs, st)
    ensures !HasEncodingLike(hs) && !Chunks(hs) ==> MessageOver(st).state == NextStart(Response, StaysOpen(x, y, hs))
    ensures Chunks(hs) ==> HttpChunked.ChunkedOver(st).state == NextStart(Response, StaysOpen(x, y, hs))
    ensures BodyPast(st, MessageOver(st)) && MessageOver(st).nread == st.nread
    ensures BodyPast(st, HttpChunked.ChunkedOver(st)) && HttpChunked.ChunkedOver(st).nread == 2
  {
    hide NewMessage, StaysOpen, AskFor, Chunks, HasEncodingLike, HasLength, DeclaredBy, IsNum, DigitOf;
    if !HasEncodingLike(hs) && !Chunks(hs) {
      KeptOpen(st.(contentLength := 0, state := MessageDone), x, y, hs);
    }
    if Chunks(hs) {
      var last := HttpChunked.SizeRead(st.(contentLength := 0));
      KeptOpen(last.(nread := 2, state := MessageDone), x, y, hs);
    }
  }

  /** A response whose body has the declared length. */
  lemma BehindLength(m: Machine, x: byte, y: byte, code: nat, reason: seq<byte>, hs: seq<Header>, body: seq<byte>)
    requires Ready(m) && m.st.verdict == Proceed && IsHead(x, y, code, reason, hs)
    requires LengthsOk(hs, false) && DeclaredBy(hs) == Some(|body|) && body != [] && !HasEncodingLike(hs)
    ensures var r := Run(m, HeadText(x, y, code, reason, hs) + body);
      && r.st.nread == 0 && Behind(m, x, y, code, hs, r)
      && r.consumed == m.consumed + |HeadText(x, y, code, reason, hs) + body|
      && r.log == m.log + HeadEvents(reason, hs) + [HeadersComplete, Data(Body, body), MessageComplete]
  {
    hide Run, HeadText, HeadEvents, HasLength, HasEncodingLike, IsHead, Chunks, Switches, LengthsOk, DeclaredBy, IsNum, DigitOf,
         StaysOpen, AskFor, MessageOver, HttpChunked.ChunkedOver;
    HeadDigits(x, y, code, reason, hs);
    var text, log := HeadText(x, y, code, reason, hs), m.log + HeadEvents(reason, hs);
    ResponseFraming(m, x, y, code, reason, hs);
    ChunksNeedEncoding(hs);
    LengthsDeclared(hs);
    DeclaredBelow(hs);
    var r := Run(m, text);
    KeptBehind(m.st, x, y, code, hs, r.st);
    assert HeadFraming(Proceed, code, hs) == ByLength;
    HttpBody.RunRest(r, |body|, body);
    RunConcat(m, text, body);
    assert log + BlankEvents(ByLength) == log + [HeadersComplete];
    assert log + [HeadersComplete] + [Data(Body, body), MessageComplete]
        == log + [HeadersComplete, Data(Body, body), MessageComplete];
  }

  /** A response whose body comes in chunks. The two octets of the empty trailer stay counted towards the limit of the
      next head. */
  lemma BehindChunks(m: Machine, x: byte, y: byte, code: nat, reason: seq<byte>, hs: seq<Header>, cs: seq<HttpChunked.Chunk>,
                     size: seq<byte>, ext: seq<byte>)
    requires Ready(m) && m.st.verdict == Proceed && IsHead(x, y, code, reason, hs)
    requires LengthsOk(hs, false) && !Conflicts(m.st, hs) && Chunks(hs)
    requires HttpChunked.IsLast(size, ext) && forall i :: 0 <= i < |cs| ==> HttpChunked.IsChunk(cs[i])
    ensures var r := Run(m, HeadText(x, y, code, reason, hs) + HttpChunked.EncodeBody(cs, size, ext));
      && r.st.nread == 2 && Behind(m, x, y, code, hs, r)
      && r.log == m.log + HeadEvents(reason, hs) + [HeadersComplete] + HttpChunked.BodyEvents(cs)
  {
    hide Run, HeadText, HeadEvents, HasLength, HasEncodingLike, IsHead, Chunks, Switches, LengthsOk, DeclaredBy, IsNum,
         DigitOf, StaysOpen, AskFor, MessageOver, HttpChunked.ChunkedOver, HttpChunked.IsLast, HttpChunked.IsChunk,
         HttpChunked.EncodeBody, HttpChunked.BodyEvents, Conflicts, Declared;
    HeadDigits(x, y, code, reason, hs);
    var text, log := HeadText(x, y, code, reason, hs), m.log + HeadEvents(reason, hs);
    ResponseFraming(m, x, y, code, reason, hs);
    var r := Run(m, text);
    KeptBehind(m.st, x, y, code, hs, r.st);
    assert HeadFraming(Proceed, code, hs) == ByChunks;
    HttpChunked.ChunkedRoundTrip(r, cs, size, ext);
    RunConcat(m, text, HttpChunked.EncodeBody(cs, size, ext));
    assert log + BlankEvents(ByChunks) == log + [HeadersComplete];
  }

  // ---------- codings ----------

  /** The value of the last Transfer-Encoding line. */
  function LastEncoding(hs: seq<Header>): Option<seq<byte>> {
    if hs == [] then None
    else if LastEncoding(hs[1..]).Some? then LastEncoding(hs[1..])
    else if IsEncodingName(hs[0].name) then Some(hs[0].value) else None
  }

  /** "chunked" is found at the end of a Transfer-Encoding line that is not the last one. */
  predicate ChunkedBefore(hs: seq<Header>) {
    hs != [] && LastEncoding(hs[1..]).Some? && (Chunking(hs[0]) || ChunkedBefore(hs[1..]))
  }

  /** The codings of the message end with "chunked": its last Transfer-Encoding line does. */
  predicate FinallyChunked(hs: seq<Header>) {
    LastEncoding(hs).Some? && EndsWithChunked(LastEncoding(hs).value)
  }

  lemma {:induction false} ChunksSplit(hs: seq<Header>)
    ensures Chunks(hs) <==> ChunkedBefore(hs) || (LastEncoding(hs).Some? && ChunkedFound(LastEncoding(hs).value))
    decreases |hs|
  {
    hide IsEncodingName, ChunkedFound;
    if hs != [] {
      ChunksSplit(hs[1..]);
    }
  }

  /** F_CHUNKED says what the last Transfer-Encoding line says exactly if no earlier line has raised it, since it is
      never lowered, and a last "chunked" is found. */
  lemma ChunksExact(hs: seq<Header>)
    ensures (Chunks(hs) <==> FinallyChunked(hs)) <==>
      if FinallyChunked(hs) then ChunkedFound(LastEncoding(hs).value) || ChunkedBefore(hs) else !ChunkedBefore(hs)
  {
    hide ChunkedFound, ChunkedBefore, EndsWithChunked, LastEncoding;
    ChunksSplit(hs);
    if LastEncoding(hs).Some? {
      FoundEnds(LastEncoding(hs).value);
    }
  }

  /** A response with Transfer-Encoding. A declared length beside it is an error of every parser that has not been told
      to be lenient. Otherwise the body comes in chunks exactly if one of the lines is found to end with "chunked";
      and that is what the last of them says exactly if it is found in that one, or else in none before it. */
  lemma CodedFraming(m: Machine, x: byte, y: byte, code: nat, reason: seq<byte>, hs: seq<Header>)
    requires Ready(m) && m.st.verdict == Proceed && IsHead(x, y, code, reason, hs) && HasEncodingLike(hs)
    ensures var r := Run(m, HeadText(x, y, code, reason, hs));
      && (r.st.errno == OK <==>
            LengthsOk(hs, false) && (!HasLength(hs) || (if Chunks(hs) then m.st.allowChunkedLength else m.st.lenient)))
      && (r.st.errno == OK ==>
            && (r.st.state == ChunkSizeStart <==> Chunks(hs))
            && (r.st.state == BodyIdentityEof <==> !Chunks(hs) && (Sized(hs) || !Switches(code, hs)))
            && ((r.st.state == ChunkSizeStart <==> FinallyChunked(hs)) <==>
                  if FinallyChunked(hs) then ChunkedFound(LastEncoding(hs).value) || ChunkedBefore(hs) else !ChunkedBefore(hs)))
  {
    hide Run, HeadText, HeadEvents, HasLength, HasEncodingLike, Ready, IsHead, Chunks, ChunkedBefore, ChunkedFound,
         LastEncoding, FinallyChunked, Switches, Closes, BlankEvents, HeadKept, LengthsOk, Sized, StaysOpen, IsNum;
    ResponseFraming(m, x, y, code, reason, hs);
    ChunksExact(hs);
  }

  const CHUNKED_LINE: Header := Header(Ascii("Transfer-Encoding"), Ascii("chunked"))

  const GZIP_LINE: Header := Header(Ascii("Transfer-Encoding"), Ascii("gzip"))

  lemma EncodingLetters(name: seq<byte>)
    requires name == Ascii("Transfer-Encoding")
    ensures name != [] && AllTokens(name) && IsEncodingName(name) && !IsLengthName(name) && !IsConnectionName(name)
  {
    forall i | 0 <= i < |name| ensures Token(name[i]) == LiteralAt(ENCODING_NAME, i) != 0 {
      assert name[i] == "Transfer-Encoding"[i] as int;
    }
  }

  lemma ChunkedLetters(v: seq<byte>)
    requires v == Ascii("chunked")
    ensures IsValueText(v) && ChunkedFound(v)
  {
    assert v == ['c' as int, 'h' as int, 'u' as int, 'n' as int, 'k' as int, 'e' as int, 'd' as int];
    assert Lower(v[0]) == CHUNKED[0] as int && Lower(v[1]) == CHUNKED[1] as int && Lower(v[2]) == CHUNKED[2] as int
        && Lower(v[3]) == CHUNKED[3] as int && Lower(v[4]) == CHUNKED[4] as int && Lower(v[5]) == CHUNKED[5] as int
        && Lower(v[6]) == CHUNKED[6] as int;
    OnlyElement(v);
    assert v[..7] == v;
  }

  lemma OnlyElement(v: seq<byte>)
    requires v != [] && v[0] != SP && ',' as int !in v
    ensures Comma(v) == |v| && v[..|v|] == v && DropSpaces(v) == v
  {
    hide Comma;
    CommaAt(v, []);
  }

  lemma GzipLetters(v: seq<byte>)
    requires v == Ascii("gzip")
    ensures IsValueText(v) && !ChunkedFound(v) && !EndsWithChunked(v)
  {
    assert v == ['g' as int, 'z' as int, 'i' as int, 'p' as int];
    OnlyElement(v);
    LastWhole(v);
    assert TrimLeft(v) == v && TrimRight(v) == v;
  }

  lemma OneLine(h: Header)
    ensures HasEncodingLike([h]) == StartsLikeEncoding(h.name) && HasLength([h]) == IsLengthName(h.name)
    ensures Chunks([h]) == Chunking(h)
    ensures LastEncoding([h]) == if IsEncodingName(h.name) then Some(h.value) else None
    ensures |Lines([h])| == |Line(h)| && (!IsLengthName(h.name) ==> LengthsOk([h], false))
  {
    hide StartsLikeEncoding, IsLengthName, Chunking, IsEncodingName, Line;
    assert [h][1..] == [];
  }

  lemma TwoLines(h: Header, g: Header)
    ensures var hs := [h, g];
      && HasEncodingLike(hs) == (StartsLikeEncoding(h.name) || StartsLikeEncoding(g.name))
      && HasLength(hs) == (IsLengthName(h.name) || IsLengthName(g.name)) && Chunks(hs) == (Chunking(h) || Chunking(g))
      && |Lines(hs)| == |Line(h)| + |Line(g)|
      && (IsEncodingName(g.name) ==> LastEncoding(hs) == Some(g.value))
      && (!IsLengthName(h.name) && !IsLengthName(g.name) ==> LengthsOk(hs, false))
  {
    hide StartsLikeEncoding, IsLengthName, Chunking, IsEncodingName, Line, HasEncodingLike, HasLength, Chunks, Lines,
         LastEncoding;
    OneLine(g);
    assert [h, g][1..] == [g];
    Unfold([h, g]);
  }

  lemma Unfold(hs: seq<Header>)
    requires hs != []
    ensures HasEncodingLike(hs) == (StartsLikeEncoding(hs[0].name) || HasEncodingLike(hs[1..]))
    ensures HasLength(hs) == (IsLengthName(hs[0].name) || HasLength(hs[1..]))
    ensures Chunks(hs) == (Chunking(hs[0]) || Chunks(hs[1..]))
    ensures Lines(hs) == Line(hs[0]) + Lines(hs[1..])
    ensures LastEncoding(hs[1..]).Some? ==> LastEncoding(hs) == LastEncoding(hs[1..])
  {
    hide StartsLikeEncoding, IsLengthName, Chunking, IsEncodingName, Line;
  }

  lemma WitnessLines()
    ensures IsHeaderText(CHUNKED_LINE) && IsHeaderText(GZIP_LINE) && Chunking(CHUNKED_LINE) && !Chunking(GZIP_LINE)
    ensures IsEncodingName(GZIP_LINE.name) && StartsLikeEncoding(GZIP_LINE.name) && StartsLikeEncoding(CHUNKED_LINE.name)
    ensures !IsLengthName(GZIP_LINE.name) && !IsLengthName(CHUNKED_LINE.name) && !EndsWithChunked(GZIP_LINE.value)
    ensures |Line(CHUNKED_LINE)| == 28 && |Line(GZIP_LINE)| == 25
  {
    hide AllTokens, IsValueText, ChunkedFound, EndsWithChunked, IsEncodingName, IsLengthName, StartsLikeEncoding,
         IsConnectionName;
    EncodingLetters(GZIP_LINE.name);
    EncodingNameStarts(GZIP_LINE.name);
    ChunkedLetters(CHUNKED_LINE.value);
    GzipLetters(GZIP_LINE.value);
  }

  /** The input that shows it: after "Transfer-Encoding: chunked" and "Transfer-Encoding: gzip" the body is read in chunks,
      by a strict parser too, though the last coding is gzip. */
  lemma ChunkedKept(m: Machine)
    requires Ready(m) && m.st.verdict == Proceed
    ensures var hs := [CHUNKED_LINE, GZIP_LINE];
      && !FinallyChunked(hs) && Chunks(hs)
      && Run(m, HeadText(ONE, ONE, 200, [], hs)).st.errno == OK
      && Run(m, HeadText(ONE, ONE, 200, [], hs)).st.state == ChunkSizeStart
  {
    hide Run, HeadText, HasLength, HasEncodingLike, Ready, Chunks, LastEncoding, EndsWithChunked, IsHeaderText, Lines,
         StatusLine, ChunkedFound, ChunkedBefore, IsEncodingName, StartsLikeEncoding, IsLengthName, Chunking, LengthsOk;
    var hs := [CHUNKED_LINE, GZIP_LINE];
    WitnessLines();
    TwoLines(CHUNKED_LINE, GZIP_LINE);
    WitnessHead(200, hs);
    CodedFraming(m, ONE, ONE, 200, [], hs);
  }

  lemma WitnessHead(code: nat, hs: seq<Header>)
    requires code < 1000 && AreHeaderTexts(hs) && |Lines(hs)| <= 100
    ensures IsHead(ONE, ONE, code, [], hs)
  {
    hide AreHeaderTexts, StatusLine, Lines;
  }

  // ---------- messages that are over at the blank line ----------

  /** The message is over at the blank line. */
  predicate OverAtHead(m: Machine, x: byte, y: byte, code: nat, reason: seq<byte>, hs: seq<Header>)
    requires code < 1000
  {
    var r := Run(m, HeadText(x, y, code, reason, hs));
    r.st.errno == OK && r.log == m.log + HeadEvents(reason, hs) + [HeadersComplete, MessageComplete]
  }

  /** RFC 7230 ends every 1xx, 204 and 304 response at its head. This parser does so if and only if the lengths of the head
      are in order, there is none but 0, and either no header begins like Transfer-Encoding, or the response switches
      protocols, the body is not chunked and the parser bears with a length beside the coding if there is one. */
  lemma BodilessExact(m: Machine, x: byte, y: byte, code: nat, reason: seq<byte>, hs: seq<Header>)
    requires Ready(m) && m.st.verdict == Proceed && IsHead(x, y, code, reason, hs) && Bodiless(code)
    ensures OverAtHead(m, x, y, code, reason, hs) <==>
      && LengthsOk(hs, false) && !Sized(hs)
      && (!HasEncodingLike(hs) || (Switches(code, hs) && !Chunks(hs) && (!HasLength(hs) || m.st.lenient)))
  {
    hide Run, HeadText, HeadEvents, HasLength, HasEncodingLike, Ready, IsHead, Bodiless, HeadState, Chunks, Switches,
         HeadKept, LengthsOk, DeclaredBy, IsNum;
    ResponseFraming(m, x, y, code, reason, hs);
    ChunksNeedEncoding(hs);
    EndsOrNot(m.log + HeadEvents(reason, hs), HeadFraming(m.st.verdict, code, hs));
  }

  lemma EndsOrNot(log: seq<Event>, f: Framing)
    ensures log + BlankEvents(f) == log + [HeadersComplete, MessageComplete] <==> EndsMessage(f)
  {
    if !EndsMessage(f) {
      assert |log + BlankEvents(f)| < |log + [HeadersComplete, MessageComplete]|;
    }
  }

  /** A 304 or 204 response that declares a length k, as RFC 7230 section 3.3.2 lets a 304 do, swallows the next k
      octets of the connection as its body, though they are the beginning of the next response. */
  lemma NextResponseSwallowed(m: Machine, x: byte, y: byte, code: nat, reason: seq<byte>, hs: seq<Header>,
                              k: nat, next: seq<byte>)
    requires Ready(m) && m.st.verdict == Proceed
    requires IsHead(x, y, code, reason, hs) && LengthsOk(hs, false) && DeclaredBy(hs) == Some(k)
    requires !HasEncodingLike(hs) && Bodiless(code) && |next| == k > 0
    ensures var r := Run(m, HeadText(x, y, code, reason, hs));
      r.st.state == BodyIdentity && r.log == m.log + HeadEvents(reason, hs) + [HeadersComplete]
    ensures Run(m, HeadText(x, y, code, reason, hs) + next).log
         == m.log + HeadEvents(reason, hs) + [HeadersComplete, Data(Body, next), MessageComplete]
  {
    hide Run, HeadText, HeadEvents, HasLength, HasEncodingLike, Ready, Bodiless, Chunks, Switches, HeadKept, LengthsOk,
         DeclaredBy, IsNum, StaysOpen;
    ResponseFraming(m, x, y, code, reason, hs);
    ChunksNeedEncoding(hs);
    LengthsDeclared(hs);
    DeclaredBelow(hs);
    var r := Run(m, HeadText(x, y, code, reason, hs));
    var log := m.log + HeadEvents(reason, hs);
    assert HeadFraming(Proceed, code, hs) == ByLength;
    assert log + BlankEvents(ByLength) == log + [HeadersComplete];
    HttpBody.RunRest(r, k, next);
    RunConcat(m, HeadText(x, y, code, reason, hs), next);
    assert log + [HeadersComplete] + [Data(Body, next), MessageComplete]
        == log + [HeadersComplete, Data(Body, next), MessageComplete];
  }

  // ---------- http_message_needs_eof ----------

  lemma NeedsEofExact(was: Parser, x: byte, y: byte, code: nat, hs: seq<Header>, st: Parser)
    requires IsNum(x) && IsNum(y) && HeadKept(was, x, y, code, hs, st) && LengthsOk(hs, false)
    ensures MessageNeedsEof(st) <==>
      was.verdict == Proceed && !Bodiless(code) && !Chunks(hs) && (HasEncodingLike(hs) || !HasLength(hs))
  {
    hide Chunks, HasEncodingLike, HasLength, DeclaredBy, LengthsOk;
    ChunksNeedEncoding(hs);
    LengthsDeclared(hs);
    DeclaredBelow(hs);
  }

  /** The head asks for a coding that leaves the end of the body open, of a status that has no body. */
  predicate Disputed(code: nat, hs: seq<Header>) {
    Bodiless(code) && HasEncodingLike(hs) && !Chunks(hs) && (Sized(hs) || !Switches(code, hs))
  }

  /** For every head that is accepted: when the parser goes on to the end of the connection, when http_message_needs_eof
      says that it has to, and exactly when the two disagree. */
  lemma EofFramingOfHead(m: Machine, x: byte, y: byte, code: nat, reason: seq<byte>, hs: seq<Header>)
    requires Ready(m) && m.st.verdict == Proceed && IsHead(x, y, code, reason, hs)
    ensures var r := Run(m, HeadText(x, y, code, reason, hs));
      && (r.st.errno == OK <==> LengthsOk(hs, false) && !Conflicts(m.st, hs))
      && (r.st.errno == OK ==>
            && (r.st.state == BodyIdentityEof <==>
                  if HasEncodingLike(hs) then !Chunks(hs) && (Sized(hs) || !Switches(code, hs))
                  else !HasLength(hs) && !Bodiless(code))
            && (MessageNeedsEof(r.st) <==> !Bodiless(code) && (if HasEncodingLike(hs) then !Chunks(hs) else !HasLength(hs)))
            && ((r.st.state == BodyIdentityEof <==> MessageNeedsEof(r.st)) <==> !Disputed(code, hs)))
  {
    hide Run, HeadText, HeadEvents, HasLength, HasEncodingLike, Ready, MessageNeedsEof, BlankEvents, Chunks, Conflicts,
         AskFor, Upgrades, HeadKept, LengthsOk, DeclaredBy, IsNum;
    ResponseFraming(m, x, y, code, reason, hs);
    if LengthsOk(hs, false) && !Conflicts(m.st, hs) {
      ChunksNeedEncoding(hs);
      NeedsEofExact(m.st, x, y, code, hs, Run(m, HeadText(x, y, code, reason, hs)).st);
    }
  }

  /** The input that shows it: the body of a 304 with "Transfer-Encoding: gzip" lasts to the end of the connection, while
      http_message_needs_eof says that it needs no end. */
  lemma NotModifiedDisputed(m: Machine)
    requires Ready(m) && m.st.verdict == Proceed
    ensures Disputed(304, [GZIP_LINE])
    ensures var r := Run(m, HeadText(ONE, ONE, 304, [], [GZIP_LINE]));
      r.st.errno == OK && r.st.state == BodyIdentityEof && !MessageNeedsEof(r.st)
  {
    hide Run, HeadText, HasLength, HasEncodingLike, Ready, Chunks, IsHeaderText, Lines, StatusLine, MessageNeedsEof,
         IsEncodingName, StartsLikeEncoding, IsLengthName, Chunking, EndsWithChunked, LastEncoding, LengthsOk;
    WitnessLines();
    OneLine(GZIP_LINE);
    WitnessHead(304, [GZIP_LINE]);
    EofFramingOfHead(m, ONE, ONE, 304, [], [GZIP_LINE]);
  }

  /** What follows a body without an end stays part of it: no further message is ever announced. */
  lemma EofNeverEnds(m: Machine, s: seq<byte>)
    requires Alive(m) && m.st.state == BodyIdentityEof && BodyMark(m.mark)
    ensures Alive(Run(m, s)) && Run(m, s).st == m.st && Run(m, s).log == m.log
  {
    hide ByteStep;
    if s != [] {
      RunEof(m, s);
    }
  }
}
