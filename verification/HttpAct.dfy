/** What one pass through the `switch` of http_parser_execute does with one octet: the pure,
    one-octet form of every case, including those the source runs as loops over the buffer. */
module HttpAct {
  import opened Bytes
  import opened HttpTypes

  const MAX_HEADER_SIZE: nat := 80 * 1024

  /** The effect of a case on the marks and the callbacks.
      `Open` is MARK, `Close` is CALLBACK_DATA, `Instant` is MARK followed by CALLBACK_DATA,
      and `Last` is MARK(body) followed by the callback that includes the current octet. */
  datatype Output =
    | Nothing
    | Open(part: Part)
    | Close
    | Instant(part: Part)
    | Last
    | Notify(event: Event)

  /** `break`, `REEXECUTE()` or an early `RETURN` to the caller. */
  datatype Next = Consume | Again | Exit

  datatype Effect = Effect(st: Parser, out: Output, next: Next)

  /** Each REEXECUTE() moves strictly down this order, so the `goto reexecute` chain is finite. */
  function Rank(s: State): nat {
    if s.HeaderValueLws? || s.HeaderValueDiscardLws? then 5
    else if s.HeaderFieldStart? then 4
    else if s.HeadersAlmostDone? || s.HeaderValue? || s.ResStatusCode? then 3
    else if s.BodyIdentity? || s.HeaderAlmostDone? || s.ResStatusStart? then 2
    else if s.HeadersDone? || s.MessageDone? || s.ResStatus? || s.StartReqOrRes? then 1
    else 0
  }

  /** The data callback whose mark is open between two octets in state `s`. */
  function OpenPart(s: State): Option<Part> {
    if s.HeaderField? then Some(Field)
    else if s.HeaderValue? then Some(Value)
    else if s.ResStatus? then Some(Status)
    else if InUrl(s) then Some(Url)
    else None
  }

  /** The states in which the body mark may, but need not, be open. */
  predicate InBody(s: State) {
    s.BodyIdentity? || s.BodyIdentityEof? || s.ChunkData? || s.ChunkDataAlmostDone?
  }

  predicate Quiet(s: State) {
    OpenPart(s) == None && !InBody(s)
  }

  /** How a case may combine its states with its use of the marks. */
  predicate MarksFit(s: State, out: Output, s': State) {
    match out
    case Nothing => if Quiet(s) then OpenPart(s') == None else !InBody(s) && OpenPart(s') == OpenPart(s)
    case Open(k) =>
      && (Quiet(s) || (InBody(s) && k == Body))
      && (OpenPart(s') == Some(k) || (InBody(s') && k == Body))
    case Close => !Quiet(s) && Quiet(s')
    case Instant(_) => Quiet(s) && Quiet(s')
    case Last => InBody(s) && Quiet(s')
    case Notify(e) => !e.Data? && Quiet(s) && OpenPart(s') == None
  }

  /** The states of the start line: everything before the first header field. */
  predicate InStartLine(s: State) {
    !InHeaders(s) && !InFraming(s)
  }

  predicate InHeaders(s: State) {
    s.HeaderFieldStart? || s.HeaderField? || s.HeaderValueStart? || s.HeaderValue? || s.HeaderAlmostDone?
    || s.HeaderValueLws? || s.HeaderValueDiscardWs? || s.HeaderValueDiscardWsAlmostDone? || s.HeaderValueDiscardLws?
  }

  predicate InFraming(s: State) {
    s.HeadersAlmostDone? || s.HeadersDone? || s.BodyIdentity? || s.BodyIdentityEof? || s.MessageDone?
    || s.ChunkSizeStart? || s.ChunkSize? || s.ChunkParameters? || s.ChunkSizeAlmostDone? || s.ChunkData?
    || s.ChunkDataAlmostDone? || s.ChunkDataDone?
  }

  /** A start line leads to another octet of it or to the headers, and touches neither the flags nor
      the length except to reset them. */
  predicate StartLineLaw(st: Parser, st': Parser) {
    && (InStartLine(st'.state) || st'.state.HeaderFieldStart?)
    && (st'.state.ReqMethod? ==> st.state.ReqMethod? || st.state.StartReq? || st.state.ResOrRespH?)
    && st'.nread == st.nread
    && ((st'.flags == st.flags && st'.contentLength == st.contentLength)
        || (st'.flags == NoFlags && st'.contentLength == ULLONG_MAX))
  }

  /** What the user has set is never changed by parsing. */
  predicate SameSettings(st: Parser, st': Parser) {
    st'.lenient == st.lenient && st'.allowChunkedLength == st.allowChunkedLength && st'.verdict == st.verdict
  }

  /** What every case guarantees: reexecution makes progress, failures touch no mark, the marks are used as
      the states before and after demand, and the settings stay. */
  predicate Lawful(st: Parser, e: Effect) {
    && SameSettings(st, e.st)
    && (e.next == Again ==> Rank(e.st.state) < Rank(st.state))
    && (e.next == Exit ==> e.out.Notify?)
    && (if e.st.errno == OK then MarksFit(st.state, e.out, e.st.state) else e.out == Nothing && e.next == Consume)
    && (InStartLine(st.state) ==> StartLineLaw(st, e.st))
  }

  function Goto(st: Parser, s: State): Effect {
    Effect(st.(state := s), Nothing, Consume)
  }

  function Stay(st: Parser): Effect {
    Effect(st, Nothing, Consume)
  }

  function Fail(st: Parser, e: Errno): Effect {
    Effect(st.(errno := e), Nothing, Consume)
  }

  /** STRICT_CHECK(ch != want), then go to `s`. */
  function Expect(st: Parser, ch: byte, want: byte, err: Errno, s: State): (e: Effect)
    requires st.errno == OK && err != OK && Quiet(st.state) && Quiet(s)
    requires InStartLine(st.state) ==> (InStartLine(s) || s.HeaderFieldStart?) && !s.ReqMethod?
    ensures Lawful(st, e)
  {
    if ch == want then Goto(st, s) else Fail(st, err)
  }

  // ---------- message framing decisions ----------

  /** http_message_needs_eof */
  predicate MessageNeedsEof(st: Parser) {
    if st.kind == Request then false
    else if st.statusCode / 100 == 1 || st.statusCode == 204 || st.statusCode == 304 || st.flags.skipBody then false
    else if st.usesTransferEncoding && !st.flags.chunked then true
    else if st.flags.chunked || st.contentLength != ULLONG_MAX then false
    else true
  }

  /** http_should_keep_alive */
  predicate ShouldKeepAlive(st: Parser) {
    if st.httpMajor > 0 && st.httpMinor > 0 then
      !st.flags.close && !MessageNeedsEof(st)
    else
      st.flags.keepAlive && !MessageNeedsEof(st)
  }

  /** NEW_MESSAGE() in the strict build. */
  function NewMessage(st: Parser): State {
    if ShouldKeepAlive(st) then (if st.kind == Request then StartReq else StartRes) else Dead
  }

  /** The fields reset when a message starts. */
  function FreshMessage(st: Parser): Parser {
    st.(flags := NoFlags, usesTransferEncoding := false, contentLength := ULLONG_MAX)
  }

  // ---------- start of message and status line ----------

  function ActStartReqOrRes(st: Parser, ch: byte): (e: Effect)
    requires st.errno == OK && st.state == StartReqOrRes
    ensures Lawful(st, e)
  {
    if ch == CR || ch == LF then Stay(st)
    else if ch == 'H' as int then Effect(FreshMessage(st).(state := ResOrRespH), Notify(MessageBegin), Consume)
    else Effect(FreshMessage(st).(kind := Request, state := StartReq), Nothing, Again)
  }

  function ActResOrRespH(st: Parser, ch: byte): (e: Effect)
    requires st.errno == OK && st.state == ResOrRespH
    ensures Lawful(st, e)
  {
    if ch == 'T' as int then Goto(st.(kind := Response), ResHT)
    else if ch == 'E' as int then Goto(st.(kind := Request, verb := HEAD, index := 2), ReqMethod)
    else Fail(st, INVALID_CONSTANT)
  }

  function ActStartRes(st: Parser, ch: byte): (e: Effect)
    requires st.errno == OK && st.state == StartRes
    ensures Lawful(st, e)
  {
    if ch == CR || ch == LF then Stay(st)
    else if ch == 'H' as int then Effect(FreshMessage(st).(state := ResH), Notify(MessageBegin), Consume)
    else Fail(FreshMessage(st), INVALID_CONSTANT)
  }

  function ActStatusCode(st: Parser, ch: byte): (e: Effect)
    requires st.errno == OK && st.state == ResStatusCode
    ensures Lawful(st, e)
  {
    if IsNum(ch) then
      var code := st.statusCode * 10 + (ch - '0' as int);
      var st' := st.(statusCode := code);
      if code > 999 then Fail(st', INVALID_STATUS) else Stay(st')
    else if ch == SP then Goto(st, ResStatusStart)
    else if ch == CR || ch == LF then Effect(st.(state := ResStatusStart), Nothing, Again)
    else Fail(st, INVALID_STATUS)
  }

  /** A digit of the major or minor version, then state `s`. */
  function VersionDigit(st: Parser, ch: byte, major: bool, s: State): (e: Effect)
    requires st.errno == OK && Quiet(st.state) && Quiet(s) && InStartLine(st.state) && InStartLine(s) && !s.ReqMethod?
    ensures Lawful(st, e)
  {
    if !IsNum(ch) then Fail(st, INVALID_VERSION)
    else if major then Goto(st.(httpMajor := ch - '0' as int), s)
    else Goto(st.(httpMinor := ch - '0' as int), s)
  }

  function ActResponseProtocol(st: Parser, ch: byte): (e: Effect)
    requires st.errno == OK && IsResponseProtocol(st.state)
    ensures Lawful(st, e)
  {
    if st.state.ResH? then Expect(st, ch, 'T' as int, STRICT, ResHT)
    else if st.state.ResHT? then Expect(st, ch, 'T' as int, STRICT, ResHTT)
    else if st.state.ResHTT? then Expect(st, ch, 'P' as int, STRICT, ResHTTP)
    else Expect(st, ch, '/' as int, STRICT, ResHttpMajor)
  }

  function ActResponseVersion(st: Parser, ch: byte): (e: Effect)
    requires st.errno == OK && IsResponseVersion(st.state)
    ensures Lawful(st, e)
  {
    if st.state.ResHttpMajor? then VersionDigit(st, ch, true, ResHttpDot)
    else if st.state.ResHttpDot? then Expect(st, ch, '.' as int, INVALID_VERSION, ResHttpMinor)
    else VersionDigit(st, ch, false, ResHttpEnd)
  }

  function ActFirstStatusCode(st: Parser, ch: byte): (e: Effect)
    requires st.errno == OK && st.state == ResFirstStatusCode
    ensures Lawful(st, e)
  {
    if IsNum(ch) then Goto(st.(statusCode := ch - '0' as int), ResStatusCode)
    else if ch == SP then Stay(st)
    else Fail(st, INVALID_STATUS)
  }

  function ActStatusStart(st: Parser, ch: byte): (e: Effect)
    requires st.errno == OK && st.state == ResStatusStart
    ensures Lawful(st, e)
  {
    Effect(st.(state := ResStatus, index := 0), Open(Status), if ch == CR || ch == LF then Again else Consume)
  }

  function ActStatus(st: Parser, ch: byte): (e: Effect)
    requires st.errno == OK && st.state == ResStatus
    ensures Lawful(st, e)
  {
    if ch == CR then Effect(st.(state := ResLineAlmostDone), Close, Consume)
    else if ch == LF then Effect(st.(state := HeaderFieldStart), Close, Consume)
    else Stay(st)
  }

  function ActResponseStatus(st: Parser, ch: byte): (e: Effect)
    requires st.errno == OK && IsResponseStatus(st.state)
    ensures Lawful(st, e)
  {
    if st.state.ResHttpEnd? then Expect(st, ch, SP, INVALID_VERSION, ResFirstStatusCode)
    else if st.state.ResFirstStatusCode? then ActFirstStatusCode(st, ch)
    else if st.state.ResStatusCode? then ActStatusCode(st, ch)
    else if st.state.ResStatusStart? then ActStatusStart(st, ch)
    else if st.state.ResStatus? then ActStatus(st, ch)
    else Expect(st, ch, LF, STRICT, HeaderFieldStart)
  }

  // ---------- request line ----------

  /** The method guessed from the first letter of a request. */
  function FirstMethod(ch: byte): (r: (bool, Method)) {
    if ch == 'A' as int then (true, ACL) else if ch == 'B' as int then (true, BIND)
    else if ch == 'C' as int then (true, CONNECT) else if ch == 'D' as int then (true, DELETE)
    else if ch == 'G' as int then (true, GET) else if ch == 'H' as int then (true, HEAD)
    else if ch == 'L' as int then (true, LOCK) else if ch == 'M' as int then (true, MKCOL)
    else if ch == 'N' as int then (true, NOTIFY) else if ch == 'O' as int then (true, OPTIONS)
    else if ch == 'P' as int then (true, POST) else if ch == 'R' as int then (true, REPORT)
    else if ch == 'S' as int then (true, SUBSCRIBE) else if ch == 'T' as int then (true, TRACE)
    else if ch == 'U' as int then (true, UNLOCK) else (false, DELETE)
  }

  /** The correction table of `s_req_method`: the method `m` stops matching at `index` on `ch`. */
  function NextMethod(m: Method, index: nat, ch: byte): (r: (bool, Method)) {
    if m.POST? then (
      if index == 1 && ch == 'U' as int then (true, PUT)
      else if index == 1 && ch == 'A' as int then (true, PATCH)
      else if index == 1 && ch == 'R' as int then (true, PROPFIND) else (false, m))
    else if m.PUT? then (if index == 2 && ch == 'R' as int then (true, PURGE) else (false, m))
    else if m.CONNECT? then (
      if index == 1 && ch == 'H' as int then (true, CHECKOUT)
      else if index == 2 && ch == 'P' as int then (true, COPY) else (false, m))
    else if m.MKCOL? then (
      if index == 1 && ch == 'O' as int then (true, MOVE)
      else if index == 1 && ch == 'E' as int then (true, MERGE)
      else if index == 1 && ch == '-' as int then (true, MSEARCH)
      else if index == 2 && ch == 'A' as int then (true, MKACTIVITY)
      else if index == 3 && ch == 'A' as int then (true, MKCALENDAR) else (false, m))
    else if m.SUBSCRIBE? then (
      if index == 1 && ch == 'E' as int then (true, SEARCH)
      else if index == 1 && ch == 'O' as int then (true, SOURCE) else (false, m))
    else if m.REPORT? then (if index == 2 && ch == 'B' as int then (true, REBIND) else (false, m))
    else if m.PROPFIND? then (if index == 4 && ch == 'P' as int then (true, PROPPATCH) else (false, m))
    else if m.LOCK? then (if index == 1 && ch == 'I' as int then (true, LINK) else (false, m))
    else if m.UNLOCK? then (
      if index == 2 && ch == 'S' as int then (true, UNSUBSCRIBE)
      else if index == 2 && ch == 'B' as int then (true, UNBIND)
      else if index == 3 && ch == 'I' as int then (true, UNLINK) else (false, m))
    else (false, m)
  }

  function ActStartReq(st: Parser, ch: byte): (e: Effect)
    requires st.errno == OK && st.state == StartReq
    ensures Lawful(st, e)
  {
    hide FirstMethod, IsAlpha;
    if ch == CR || ch == LF then Stay(st)
    else
      var st' := FreshMessage(st);
      if !IsAlpha(ch) then Fail(st', INVALID_METHOD)
      else
        var (known, m) := FirstMethod(ch);
        var st'' := st'.(verb := m, index := 1);
        if known then Effect(st''.(state := ReqMethod), Notify(MessageBegin), Consume)
        else Fail(st'', INVALID_METHOD)
  }

  function ActReqMethod(st: Parser, ch: byte): (e: Effect)
    requires st.errno == OK && st.state == ReqMethod
    ensures Lawful(st, e)
  {
    hide NextMethod, LiteralAt, MethodName;
    var want := LiteralAt(MethodName(st.verb), st.index);
    if ch == NUL then Fail(st, INVALID_METHOD)
    else if ch == SP && want == NUL then Goto(st.(index := st.index + 1), ReqSpacesBeforeUrl)
    else if ch == want then Stay(st.(index := st.index + 1))
    else if 'A' as int <= ch <= 'Z' as int || ch == '-' as int then
      var (known, m) := NextMethod(st.verb, st.index, ch);
      if known then Stay(st.(verb := m, index := st.index + 1)) else Fail(st, INVALID_METHOD)
    else Fail(st, INVALID_METHOD)
  }

  /** parse_url_char in the strict build; `Dead` rejects. */
  function ParseUrlChar(s: State, ch: byte): State {
    if ch == SP || ch == CR || ch == LF || ch == HT || ch == FF then Dead
    else
      if s.ReqSpacesBeforeUrl? then (
        if ch == '/' as int || ch == '*' as int then ReqPath else if IsAlpha(ch) then ReqSchema else Dead)
      else if s.ReqSchema? then (if IsAlpha(ch) then ReqSchema else if ch == ':' as int then ReqSchemaSlash else Dead)
      else if s.ReqSchemaSlash? then (if ch == '/' as int then ReqSchemaSlashSlash else Dead)
      else if s.ReqSchemaSlashSlash? then (if ch == '/' as int then ReqServerStart else Dead)
      else if s.ReqServerWithAt? then (if ch == '@' as int then Dead else ParseServerChar(ch))
      else if s.ReqServerStart? then ParseServerChar(ch)
      else if s.ReqServer? then ParseServerChar(ch)
      else if s.ReqPath? then (
        if IsUrlChar(ch) then ReqPath else if ch == '?' as int then ReqQueryStringStart
        else if ch == '#' as int then ReqFragmentStart else Dead)
      else if s.ReqQueryStringStart? then (
        if IsUrlChar(ch) || ch == '?' as int then ReqQueryString
        else if ch == '#' as int then ReqFragmentStart else Dead)
      else if s.ReqQueryString? then (
        if IsUrlChar(ch) || ch == '?' as int then ReqQueryString
        else if ch == '#' as int then ReqFragmentStart else Dead)
      else if s.ReqFragmentStart? then (
        if IsUrlChar(ch) || ch == '?' as int then ReqFragment
        else if ch == '#' as int then ReqFragmentStart else Dead)
      else if s.ReqFragment? then (if IsUrlChar(ch) || ch == '?' as int || ch == '#' as int then ReqFragment else Dead)
      else Dead
  }

  function ParseServerChar(ch: byte): State {
    if ch == '/' as int then ReqPath
    else if ch == '?' as int then ReqQueryStringStart
    else if ch == '@' as int then ReqServerWithAt
    else if IsUserinfoChar(ch) || ch == '[' as int || ch == ']' as int then ReqServer
    else Dead
  }

  /** The transition of `parse_url_char` from `s`, with `s_dead` turned into an error. */
  function UrlChar(st: Parser, s: State, ch: byte, out: Output): (e: Effect)
    requires st.errno == OK
    requires if out == Nothing then OpenPart(st.state) == Some(Url) else out == Open(Url) && Quiet(st.state)
    ensures Lawful(st, e)
  {
    var s' := ParseUrlChar(s, ch);
    if s' == Dead then Fail(st.(state := Dead), INVALID_URL) else Effect(st.(state := s'), out, Consume)
  }

  function ActSpacesBeforeUrl(st: Parser, ch: byte): (e: Effect)
    requires st.errno == OK && st.state == ReqSpacesBeforeUrl
    ensures Lawful(st, e)
  {
    if ch == SP then Stay(st)
    else UrlChar(st, if st.verb == CONNECT then ReqServerStart else ReqSpacesBeforeUrl, ch, Open(Url))
  }

  /** The URL states in which no white space is allowed yet. */
  predicate InUrlPrefix(s: State) {
    s.ReqSchema? || s.ReqSchemaSlash? || s.ReqSchemaSlashSlash? || s.ReqServerStart?
  }

  function ActUrl(st: Parser, ch: byte): (e: Effect)
    requires st.errno == OK && InUrl(st.state)
    ensures Lawful(st, e)
  {
    hide UrlChar;
    if InUrlPrefix(st.state) then
      if ch == SP || ch == CR || ch == LF then Fail(st, INVALID_URL) else UrlChar(st, st.state, ch, Nothing)
    else if ch == SP then Effect(st.(state := ReqHttpStart), Close, Consume)
    else if ch == CR then Effect(st.(httpMajor := 0, httpMinor := 9, state := ReqLineAlmostDone), Close, Consume)
    else if ch == LF then Effect(st.(httpMajor := 0, httpMinor := 9, state := HeaderFieldStart), Close, Consume)
    else UrlChar(st, st.state, ch, Nothing)
  }

  function ActHttpStart(st: Parser, ch: byte): (e: Effect)
    requires st.errno == OK && st.state == ReqHttpStart
    ensures Lawful(st, e)
  {
    if ch == SP then Stay(st)
    else if ch == 'H' as int then Goto(st, ReqHttpH)
    else if ch == 'I' as int && st.verb == SOURCE then Goto(st, ReqHttpI)
    else Fail(st, INVALID_CONSTANT)
  }

  function ActRequestProtocol(st: Parser, ch: byte): (e: Effect)
    requires st.errno == OK && IsRequestProtocol(st.state)
    ensures Lawful(st, e)
  {
    if st.state.ReqHttpStart? then ActHttpStart(st, ch)
    else if st.state.ReqHttpH? then Expect(st, ch, 'T' as int, STRICT, ReqHttpHT)
    else if st.state.ReqHttpHT? then Expect(st, ch, 'T' as int, STRICT, ReqHttpHTT)
    else if st.state.ReqHttpHTT? then Expect(st, ch, 'P' as int, STRICT, ReqHttpHTTP)
    else if st.state.ReqHttpI? then Expect(st, ch, 'C' as int, STRICT, ReqHttpIC)
    else Expect(st, ch, 'E' as int, STRICT, ReqHttpHTTP)
  }

  function ActHttpEnd(st: Parser, ch: byte): (e: Effect)
    requires st.errno == OK && st.state == ReqHttpEnd
    ensures Lawful(st, e)
  {
    if ch == CR then Goto(st, ReqLineAlmostDone)
    else if ch == LF then Goto(st, HeaderFieldStart)
    else Fail(st, INVALID_VERSION)
  }

  function ActRequestVersion(st: Parser, ch: byte): (e: Effect)
    requires st.errno == OK && IsRequestVersion(st.state)
    ensures Lawful(st, e)
  {
    if st.state.ReqHttpHTTP? then Expect(st, ch, '/' as int, STRICT, ReqHttpMajor)
    else if st.state.ReqHttpMajor? then VersionDigit(st, ch, true, ReqHttpDot)
    else if st.state.ReqHttpDot? then Expect(st, ch, '.' as int, INVALID_VERSION, ReqHttpMinor)
    else if st.state.ReqHttpMinor? then VersionDigit(st, ch, false, ReqHttpEnd)
    else if st.state.ReqHttpEnd? then ActHttpEnd(st, ch)
    else Expect(st, ch, LF, LF_EXPECTED, HeaderFieldStart)
  }

  // ---------- header fields ----------

  function FirstHeaderState(c: byte): HeaderState {
    if c == 'c' as int then C
    else if c == 'p' as int then MatchingProxyConnection
    else if c == 't' as int then MatchingTransferEncoding
    else if c == 'u' as int then MatchingUpgrade
    else General
  }

  function ActHeaderFieldStart(st: Parser, ch: byte): (e: Effect)
    requires st.errno == OK && st.state == HeaderFieldStart
    ensures Lawful(st, e)
  {
    if ch == CR then Goto(st, HeadersAlmostDone)
    else if ch == LF then Effect(st.(state := HeadersAlmostDone), Nothing, Again)
    else if Token(ch) == 0 then Fail(st, INVALID_HEADER_TOKEN)
    else
      Effect(st.(index := 0, state := HeaderField, headerState := FirstHeaderState(Token(ch))), Open(Field), Consume)
  }

  /** A literal being matched octet by octet: `header_state` and `index`. */
  datatype Matcher = Matcher(h: HeaderState, index: nat)

  /** One step of matching a header name, or one token of a header value, against `literal`. */
  function MatchLiteral(m: Matcher, literal: string, c: byte, mismatch: HeaderState, matched: HeaderState): Matcher {
    var i := m.index + 1;
    if i > |literal| || c != LiteralAt(literal, i) then Matcher(mismatch, i)
    else if i == |literal| - 1 then Matcher(matched, i)
    else Matcher(m.h, i)
  }

  /** The switch of the `s_header_field` loop, on the lower-cased token octet `c`. */
  function NameOctet(m: Matcher, c: byte): Matcher {
    if m.h.C? then Matcher(if c == 'o' as int then CO else General, m.index + 1)
    else if m.h.CO? then Matcher(if c == 'n' as int then CON else General, m.index + 1)
    else if m.h.CON? then
      Matcher(if c == 'n' as int then MatchingConnection
              else if c == 't' as int then MatchingContentLength else General, m.index + 1)
    else if m.h.MatchingConnection? then MatchLiteral(m, "connection", c, General, Connection)
    else if m.h.MatchingProxyConnection? then MatchLiteral(m, "proxy-connection", c, General, Connection)
    else if m.h.MatchingContentLength? then MatchLiteral(m, "content-length", c, General, ContentLength)
    else if m.h.MatchingTransferEncoding? then MatchLiteral(m, "transfer-encoding", c, General, TransferEncoding)
    else if m.h.MatchingUpgrade? then MatchLiteral(m, "upgrade", c, General, Upgrade)
    // a full match followed by one more token octet; SP is never a token octet in the strict build
    else if m.h.Connection? || m.h.ContentLength? || m.h.TransferEncoding? || m.h.Upgrade? then Matcher(General, m.index)
    else m
  }

  /** The part of the parser that a header name changes. `te` is `uses_transfer_encoding`, which
      is raised as soon as the octets read so far spell "transfer-encoding" and never lowered. */
  datatype NameScan = NameScan(m: Matcher, te: bool)

  function NameStep(n: NameScan, ch: byte): NameScan {
    var m := NameOctet(n.m, Token(ch));
    NameScan(m, n.te || (n.m.h.MatchingTransferEncoding? && m.h.TransferEncoding?))
  }

  function NameOf(st: Parser): NameScan {
    NameScan(Matcher(st.headerState, st.index), st.usesTransferEncoding)
  }

  function WithName(st: Parser, n: NameScan): (r: Parser)
    ensures r.nread == st.nread && r.errno == st.errno && r.state == st.state && SameSettings(st, r)
  {
    st.(headerState := n.m.h, index := n.m.index, usesTransferEncoding := n.te)
  }

  function ActHeaderField(st: Parser, ch: byte): (e: Effect)
    requires st.errno == OK && st.state == HeaderField
    ensures Lawful(st, e)
  {
    if Token(ch) != 0 then Stay(WithName(st, NameStep(NameOf(st), ch)))
    else if ch == ':' as int then Effect(st.(state := HeaderValueDiscardWs), Close, Consume)
    else Fail(st, INVALID_HEADER_TOKEN)
  }

  // ---------- header values ----------

  /** The `header_state` with which a value whose first octet lower-cases to `c` is scanned. */
  function FirstValueState(h: HeaderState, c: byte): HeaderState {
    if h.TransferEncoding? then (if c == 'c' as int then TeMatchingChunked else TeToken)
    else if h.ContentLength? then ContentLengthNum
    else if h.Connection? then
      (if c == 'k' as int then ConnMatchingKeepAlive
       else if c == 'c' as int then ConnMatchingClose
       else if c == 'u' as int then ConnMatchingUpgrade
       else ConnToken)
    else if h.TeTokenStart? || h.ContentLengthWs? || h.ConnTokenStart? then h
    else General
  }

  /** The first octet of a header value, or of a folded line of one. */
  function StartValue(st: Parser, ch: byte): (r: Parser)
    ensures r.errno == st.errno && r.state == HeaderValue && SameSettings(st, r)
  {
    var h := st.headerState;
    var first := h.ContentLength?;
    st.(state := HeaderValue, index := 0,
        headerState := FirstValueState(h, Lower(ch)),
        flags := if h.Upgrade? then st.flags.(upgrade := true)
                 else if first then st.flags.(contentLength := true) else st.flags,
        contentLength := if first && IsNum(ch) then ch - '0' as int else st.contentLength)
  }

  function ActHeaderValueStart(st: Parser, ch: byte): (e: Effect)
    requires st.errno == OK && (st.state == HeaderValueDiscardWs || st.state == HeaderValueStart)
    ensures Lawful(st, e)
  {
    hide StartValue;
    if st.headerState == ContentLength && !IsNum(ch) then
      Fail(st.(state := HeaderValue, index := 0), INVALID_CONTENT_LENGTH)
    else if st.headerState == ContentLength && st.flags.contentLength then
      Fail(st.(state := HeaderValue, index := 0), UNEXPECTED_CONTENT_LENGTH)
    else Effect(StartValue(st, ch), Open(Value), Consume)
  }

  /** The part of the parser that a header value changes. */
  datatype ValueScan = ValueScan(m: Matcher, flags: Flags, length: nat, errno: Errno)

  /** `h_content_length_num`: one more octet of the number, with its conservative overflow test. */
  function LengthOctet(v: ValueScan, ch: byte): ValueScan {
    if ch == SP then v.(m := v.m.(h := ContentLengthWs))
    else if !IsNum(ch) || (ULLONG_MAX - 10) / 10 < v.length then
      v.(m := v.m.(h := ContentLengthNum), errno := INVALID_CONTENT_LENGTH)
    else
      v.(m := v.m.(h := ContentLengthNum), length := (v.length * 10 + (ch - '0' as int)) % (ULLONG_MAX + 1))
  }

  /** Setting the flag that a recognised Connection option stands for. */
  function ConnectionFlag(f: Flags, h: HeaderState): Flags {
    if h.ConnKeepAlive? then f.(keepAlive := true)
    else if h.ConnClose? then f.(close := true)
    else if h.ConnUpgrade? then f.(connUpgrade := true)
    else f
  }

  /** The transfer-coding part of the switch, on the octet `ch` and its lower case `c`. */
  function CodingOctet(m: Matcher, ch: byte, c: byte): Matcher {
    if m.h.TeTokenStart? then
      m.(h := if c == 'c' as int then TeMatchingChunked
              else if c != SP && Token(c) != 0 then TeToken
              else if c == SP || c == HT then TeTokenStart else General)
    else if m.h.TeMatchingChunked? then MatchLiteral(m, "chunked", c, TeToken, TeChunked)
    else if m.h.TeToken? then (if ch == ',' as int then Matcher(TeTokenStart, 0) else m)
    else if m.h.TeChunked? then (if ch != SP then m.(h := TeToken) else m)
    else m
  }

  predicate IsConnOption(h: HeaderState) {
    h.ConnKeepAlive? || h.ConnClose? || h.ConnUpgrade?
  }

  /** The Connection part of the switch. */
  function OptionOctet(m: Matcher, ch: byte, c: byte): Matcher {
    if m.h.ConnTokenStart? then
      m.(h := if c == 'k' as int then ConnMatchingKeepAlive
              else if c == 'c' as int then ConnMatchingClose
              else if c == 'u' as int then ConnMatchingUpgrade
              else if c != SP && Token(c) != 0 then ConnToken
              else if c == SP || c == HT then ConnTokenStart else General)
    else if m.h.ConnMatchingKeepAlive? then MatchLiteral(m, "keep-alive", c, ConnToken, ConnKeepAlive)
    else if m.h.ConnMatchingClose? then MatchLiteral(m, "close", c, ConnToken, ConnClose)
    else if m.h.ConnMatchingUpgrade? then MatchLiteral(m, "upgrade", c, ConnToken, ConnUpgrade)
    else if m.h.ConnToken? then (if ch == ',' as int then Matcher(ConnTokenStart, 0) else m)
    else if IsConnOption(m.h) then
      (if ch == ',' as int then Matcher(ConnTokenStart, 0) else if ch != SP then m.(h := ConnToken) else m)
    else m
  }

  predicate IsCoding(h: HeaderState) {
    h.TeTokenStart? || h.TeMatchingChunked? || h.TeToken? || h.TeChunked?
  }

  predicate IsOption(h: HeaderState) {
    h.ConnTokenStart? || h.ConnMatchingKeepAlive? || h.ConnMatchingClose? || h.ConnMatchingUpgrade? || h.ConnToken?
    || IsConnOption(h)
  }

  predicate IsLength(h: HeaderState) {
    h.ContentLength? || h.ContentLengthNum? || h.ContentLengthWs?
  }

  /** The switch inside the `s_header_value` loop for an octet that is neither CR nor LF. */
  function ValueSwitch(v: ValueScan, ch: byte): ValueScan {
    var h := v.m.h;
    if IsLength(h) then
      if h.ContentLengthNum? then LengthOctet(v, ch)
      else if ch == SP then v
      else if h.ContentLength? then LengthOctet(v, ch)
      else v.(errno := INVALID_CONTENT_LENGTH)
    else if IsCoding(h) then v.(m := CodingOctet(v.m, ch, Lower(ch)))
    else if IsOption(h) then
      v.(m := OptionOctet(v.m, ch, Lower(ch)), flags := if ch == ',' as int then ConnectionFlag(v.flags, h) else v.flags)
    else if h.Connection? || h.TransferEncoding? then v
    else v.(m := v.m.(h := General))
  }

  /** One value octet that is neither CR nor LF. */
  function ValueStep(v: ValueScan, lenient: bool, ch: byte): ValueScan {
    if !lenient && !IsHeaderChar(ch) then v.(errno := INVALID_HEADER_TOKEN) else ValueSwitch(v, ch)
  }

  function ValueOf(st: Parser): (v: ValueScan)
    ensures v.errno == st.errno
  {
    ValueScan(Matcher(st.headerState, st.index), st.flags, st.contentLength, st.errno)
  }

  function WithValue(st: Parser, v: ValueScan): (r: Parser)
    ensures r.nread == st.nread && r.errno == v.errno && r.state == st.state && SameSettings(st, r)
  {
    st.(headerState := v.m.h, index := v.m.index, flags := v.flags, contentLength := v.length, errno := v.errno)
  }

  function ActHeaderValue(st: Parser, ch: byte): (e: Effect)
    requires st.errno == OK && st.state == HeaderValue
    ensures Lawful(st, e)
  {
    if ch == CR then Effect(st.(state := HeaderAlmostDone), Close, Consume)
    else if ch == LF then Effect(st.(state := HeaderAlmostDone), Close, Again)
    else Stay(WithValue(st, ValueStep(ValueOf(st), st.lenient, ch)))
  }

  /** The flags raised when a header line ends. */
  function FinishHeader(st: Parser): (r: Parser)
    ensures r.errno == st.errno && r.state == HeaderFieldStart && SameSettings(st, r)
  {
    st.(state := HeaderFieldStart,
        flags := if st.headerState == TeChunked then st.flags.(chunked := true)
                 else ConnectionFlag(st.flags, st.headerState))
  }

  /** Obsolete line folding counts as a space inside a Content-Length. */
  function FoldLine(st: Parser): (r: Parser)
    ensures r.errno == st.errno && r.state == HeaderValueStart && SameSettings(st, r)
  {
    st.(headerState := if st.headerState == ContentLengthNum then ContentLengthWs else st.headerState,
        state := HeaderValueStart)
  }

  function ActHeaderValueLws(st: Parser, ch: byte): (e: Effect)
    requires st.errno == OK && st.state == HeaderValueLws
    ensures Lawful(st, e)
  {
    hide FoldLine, FinishHeader;
    Effect(if ch == SP || ch == HT then FoldLine(st) else FinishHeader(st), Nothing, Again)
  }

  function ActHeaderValueDiscardLws(st: Parser, ch: byte): (e: Effect)
    requires st.errno == OK && st.state == HeaderValueDiscardLws
    ensures Lawful(st, e)
  {
    hide FinishHeader;
    if ch == SP || ch == HT then Goto(st, HeaderValueDiscardWs)
    else if st.headerState == ContentLength then Fail(st, INVALID_CONTENT_LENGTH)
    else Effect(FinishHeader(st), Instant(Value), Again)
  }

  function ActDiscardWs(st: Parser, ch: byte): (e: Effect)
    requires st.errno == OK && st.state == HeaderValueDiscardWs
    ensures Lawful(st, e)
  {
    if ch == SP || ch == HT then Stay(st)
    else if ch == CR then Goto(st, HeaderValueDiscardWsAlmostDone)
    else if ch == LF then Goto(st, HeaderValueDiscardLws)
    else ActHeaderValueStart(st, ch)
  }

  function ActHeaders(st: Parser, ch: byte): (e: Effect)
    requires st.errno == OK && IsHeader(st.state)
    ensures Lawful(st, e)
  {
    if st.state.HeaderFieldStart? then ActHeaderFieldStart(st, ch)
    else if st.state.HeaderField? then ActHeaderField(st, ch)
    else if st.state.HeaderValueStart? then ActHeaderValueStart(st, ch)
    else if st.state.HeaderValue? then ActHeaderValue(st, ch)
    else if st.state.HeaderAlmostDone? then Expect(st, ch, LF, LF_EXPECTED, HeaderValueLws)
    else ActHeaderValueLws(st, ch)
  }

  /** The states between the colon and the first octet of a header value. */
  function ActBeforeValue(st: Parser, ch: byte): (e: Effect)
    requires st.errno == OK && IsBeforeValue(st.state)
    ensures Lawful(st, e)
  {
    if st.state.HeaderValueDiscardWs? then ActDiscardWs(st, ch)
    else if st.state.HeaderValueDiscardWsAlmostDone? then Expect(st, ch, LF, STRICT, HeaderValueDiscardLws)
    else ActHeaderValueDiscardLws(st, ch)
  }

  // ---------- end of headers ----------

  /** Content-Length beside Transfer-Encoding (RFC 7230 section 3.3.3), unless a lenience applies. */
  predicate LengthConflict(st: Parser) {
    st.usesTransferEncoding && st.flags.contentLength
    && (if st.flags.chunked then !st.allowChunkedLength else !st.lenient)
  }

  /** `upgrade`, and the answer of on_headers_complete. */
  function HeadersCompleted(st: Parser): (r: Parser)
    ensures r.errno == st.errno && r.state == HeadersDone && SameSettings(st, r)
  {
    var up := if st.flags.upgrade && st.flags.connUpgrade then st.kind == Request || st.statusCode == 101
              else st.verb == CONNECT;
    st.(state := HeadersDone, upgrade := up || st.verdict == SkipBodyAndUpgrade,
        flags := if st.verdict == Proceed then st.flags else st.flags.(skipBody := true))
  }

  function ActHeadersAlmostDone(st: Parser, ch: byte): (e: Effect)
    requires st.errno == OK && st.state == HeadersAlmostDone
    ensures Lawful(st, e)
  {
    hide HeadersCompleted, LengthConflict;
    if ch != LF then Fail(st, STRICT)
    else if st.flags.trailing then Effect(st.(state := MessageDone), Notify(ChunkComplete), Again)
    else if LengthConflict(st) then Fail(st, UNEXPECTED_CONTENT_LENGTH)
    else Effect(HeadersCompleted(st), Notify(HeadersComplete), Again)
  }

  function CompleteMessage(st: Parser, next: Next): (e: Effect)
    requires st.errno == OK && next != Again && Quiet(st.state)
    ensures Lawful(st, e) && e.next == next
  {
    Effect(st.(state := NewMessage(st)), Notify(MessageComplete), next)
  }

  /** How the body is framed, for a message that is neither skipped nor handed over. */
  function ActFraming(st: Parser): (e: Effect)
    requires st.errno == OK && st.state == HeadersDone
    ensures Lawful(st, e) && e.next != Again
  {
    if st.flags.chunked then Goto(st, ChunkSizeStart)
    else if st.usesTransferEncoding then
      (if st.kind == Request && !st.lenient then Fail(st, INVALID_TRANSFER_ENCODING) else Goto(st, BodyIdentityEof))
    else if st.contentLength == 0 then CompleteMessage(st, Consume)
    else if st.contentLength != ULLONG_MAX then Goto(st, BodyIdentity)
    else if !MessageNeedsEof(st) then CompleteMessage(st, Consume)
    else Goto(st, BodyIdentityEof)
  }

  predicate HasBody(st: Parser) {
    st.flags.chunked || (st.contentLength > 0 && st.contentLength != ULLONG_MAX)
  }

  /** The rest of the connection speaks another protocol. */
  predicate HandsOver(st: Parser) {
    st.upgrade && (st.verb == CONNECT || st.flags.skipBody || !HasBody(st))
  }

  function ActHeadersDone(st: Parser, ch: byte): (e: Effect)
    requires st.errno == OK && st.state == HeadersDone
    ensures Lawful(st, e)
  {
    var st' := st.(nread := 0);
    if ch != LF then Fail(st, STRICT)
    else if HandsOver(st') then CompleteMessage(st', Exit)
    else if st'.flags.skipBody then CompleteMessage(st', Consume)
    else ActFraming(st')
  }

  // ---------- bodies ----------

  /** One octet of a Content-Length body. */
  function ActBodyIdentity(st: Parser, ch: byte): (e: Effect)
    requires st.errno == OK && st.state == BodyIdentity
    ensures Lawful(st, e)
  {
    if st.contentLength == 0 || st.contentLength == ULLONG_MAX then Fail(st, INVALID_INTERNAL_STATE)
    else
      var st' := st.(contentLength := st.contentLength - 1);
      if st'.contentLength == 0 then Effect(st'.(state := MessageDone), Last, Again)
      else Effect(st', Open(Body), Consume)
  }

  function ActChunkSize(st: Parser, ch: byte): (e: Effect)
    requires st.errno == OK && st.state == ChunkSize
    ensures Lawful(st, e)
  {
    if ch == CR then Goto(st, ChunkSizeAlmostDone)
    else if Unhex(ch) == -1 then
      if ch == ';' as int || ch == SP then Goto(st, ChunkParameters) else Fail(st, INVALID_CHUNK_SIZE)
    else
      var t := (st.contentLength * 16 + Unhex(ch)) % (ULLONG_MAX + 1);
      if (ULLONG_MAX - 16) / 16 < st.contentLength then Fail(st, INVALID_CONTENT_LENGTH)
      else Stay(st.(contentLength := t))
  }

  function ActChunkSizeAlmostDone(st0: Parser, ch: byte): (e: Effect)
    requires st0.errno == OK && st0.state == ChunkSizeAlmostDone
    ensures Lawful(st0, e)
  {
    if ch != LF then Fail(st0, STRICT)
    else
      var st := st0.(nread := 0);
      var st' := if st.contentLength == 0 then
                   st.(flags := st.flags.(trailing := true), state := HeaderFieldStart)
                 else st.(state := ChunkData);
      Effect(st', Notify(ChunkHeader(st.contentLength)), Consume)
  }

  /** One octet of chunk data. */
  function ActChunkData(st: Parser, ch: byte): (e: Effect)
    requires st.errno == OK && st.state == ChunkData
    ensures Lawful(st, e)
  {
    if st.contentLength == 0 || st.contentLength == ULLONG_MAX then Fail(st, INVALID_INTERNAL_STATE)
    else
      var st' := st.(contentLength := st.contentLength - 1);
      Effect(if st'.contentLength == 0 then st'.(state := ChunkDataAlmostDone) else st', Open(Body), Consume)
  }

  function ActChunkSizeStart(st: Parser, ch: byte): (e: Effect)
    requires st.errno == OK && st.state == ChunkSizeStart
    ensures Lawful(st, e)
  {
    if Unhex(ch) == -1 then Fail(st, INVALID_CHUNK_SIZE) else Goto(st.(contentLength := Unhex(ch)), ChunkSize)
  }

  function ActChunkParameters(st: Parser, ch: byte): (e: Effect)
    requires st.errno == OK && st.state == ChunkParameters
    ensures Lawful(st, e)
  {
    if ch == CR then Goto(st, ChunkSizeAlmostDone) else Stay(st)
  }

  function ActChunkDataAlmostDone(st: Parser, ch: byte): (e: Effect)
    requires st.errno == OK && st.state == ChunkDataAlmostDone
    ensures Lawful(st, e)
  {
    if ch == CR then Effect(st.(state := ChunkDataDone), Close, Consume) else Fail(st, STRICT)
  }

  function ActChunkDataDone(st: Parser, ch: byte): (e: Effect)
    requires st.errno == OK && st.state == ChunkDataDone
    ensures Lawful(st, e)
  {
    if ch == LF then Effect(st.(nread := 0, state := ChunkSizeStart), Notify(ChunkComplete), Consume)
    else Fail(st, STRICT)
  }

  function ActBodyIdentityEof(st: Parser, ch: byte): (e: Effect)
    requires st.errno == OK && st.state == BodyIdentityEof
    ensures Lawful(st, e)
  {
    Effect(st, Open(Body), Consume)
  }

  function ActBody(st: Parser, ch: byte): (e: Effect)
    requires st.errno == OK && IsBody(st.state)
    ensures Lawful(st, e)
  {
    if st.state.BodyIdentity? then ActBodyIdentity(st, ch)
    else if st.state.BodyIdentityEof? then ActBodyIdentityEof(st, ch)
    else if st.state.ChunkData? then ActChunkData(st, ch)
    else if st.state.ChunkDataAlmostDone? then ActChunkDataAlmostDone(st, ch)
    else if st.state.ChunkDataDone? then ActChunkDataDone(st, ch)
    else CompleteMessage(st, if st.upgrade then Exit else Consume)
  }

  function ActChunkHeader(st: Parser, ch: byte): (e: Effect)
    requires st.errno == OK && IsChunkHeader(st.state)
    ensures Lawful(st, e)
  {
    if st.state.ChunkSizeStart? then ActChunkSizeStart(st, ch)
    else if st.state.ChunkSize? then ActChunkSize(st, ch)
    else if st.state.ChunkParameters? then ActChunkParameters(st, ch)
    else ActChunkSizeAlmostDone(st, ch)
  }

  // ---------- the whole switch ----------

  predicate IsStart(s: State) {
    s.Dead? || s.StartReqOrRes? || s.ResOrRespH? || s.StartRes? || s.StartReq?
  }

  predicate IsResponseProtocol(s: State) {
    s.ResH? || s.ResHT? || s.ResHTT? || s.ResHTTP?
  }

  predicate IsResponseVersion(s: State) {
    s.ResHttpMajor? || s.ResHttpDot? || s.ResHttpMinor?
  }

  predicate IsResponseStatus(s: State) {
    s.ResHttpEnd? || s.ResFirstStatusCode? || s.ResStatusCode? || s.ResStatusStart? || s.ResStatus?
    || s.ResLineAlmostDone?
  }

  predicate IsRequestProtocol(s: State) {
    s.ReqHttpStart? || s.ReqHttpH? || s.ReqHttpHT? || s.ReqHttpHTT? || s.ReqHttpI? || s.ReqHttpIC?
  }

  predicate IsRequestVersion(s: State) {
    s.ReqHttpHTTP? || s.ReqHttpMajor? || s.ReqHttpDot? || s.ReqHttpMinor? || s.ReqHttpEnd? || s.ReqLineAlmostDone?
  }

  predicate IsHeader(s: State) {
    s.HeaderFieldStart? || s.HeaderField? || s.HeaderValueStart? || s.HeaderValue? || s.HeaderAlmostDone?
    || s.HeaderValueLws?
  }

  predicate IsBeforeValue(s: State) {
    s.HeaderValueDiscardWs? || s.HeaderValueDiscardWsAlmostDone? || s.HeaderValueDiscardLws?
  }

  predicate IsBody(s: State) {
    s.BodyIdentity? || s.BodyIdentityEof? || s.ChunkData? || s.ChunkDataAlmostDone? || s.ChunkDataDone?
    || s.MessageDone?
  }

  predicate IsChunkHeader(s: State) {
    s.ChunkSizeStart? || s.ChunkSize? || s.ChunkParameters? || s.ChunkSizeAlmostDone?
  }

  function ActDead(st: Parser, ch: byte): (e: Effect)
    requires st.errno == OK && st.state == Dead
    ensures Lawful(st, e)
  {
    if ch == CR || ch == LF then Stay(st) else Fail(st, CLOSED_CONNECTION)
  }

  function ActStart(st: Parser, ch: byte): (e: Effect)
    requires st.errno == OK && IsStart(st.state)
    ensures Lawful(st, e)
  {
    if st.state.Dead? then ActDead(st, ch)
    else if st.state.StartReqOrRes? then ActStartReqOrRes(st, ch)
    else if st.state.ResOrRespH? then ActResOrRespH(st, ch)
    else if st.state.StartRes? then ActStartRes(st, ch)
    else ActStartReq(st, ch)
  }

  /** One pass through the switch. */
  function Act(st: Parser, ch: byte): (e: Effect)
    requires st.errno == OK
    ensures Lawful(st, e)
  {
    var s := st.state;
    if IsHeader(s) then ActHeaders(st, ch)
    else if IsBeforeValue(s) then ActBeforeValue(st, ch)
    else if IsBody(s) then ActBody(st, ch)
    else if IsChunkHeader(s) then ActChunkHeader(st, ch)
    else if IsStart(s) then ActStart(st, ch)
    else if IsResponseProtocol(s) then ActResponseProtocol(st, ch)
    else if IsResponseVersion(s) then ActResponseVersion(st, ch)
    else if IsResponseStatus(s) then ActResponseStatus(st, ch)
    else if s == HeadersAlmostDone then ActHeadersAlmostDone(st, ch)
    else if s == HeadersDone then ActHeadersDone(st, ch)
    else if s == ReqMethod then ActReqMethod(st, ch)
    else if s == ReqSpacesBeforeUrl then ActSpacesBeforeUrl(st, ch)
    else if InUrl(s) then ActUrl(st, ch)
    else if IsRequestProtocol(s) then ActRequestProtocol(st, ch)
    else ActRequestVersion(st, ch)
  }
}
