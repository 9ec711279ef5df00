/** A request from its method to the blank line: what is delivered of it, and how its body is framed. */
module HttpRequestHead {
  import opened Bytes
  import opened HttpTypes
  import opened HttpAct
  import opened HttpMachine
  import opened HttpRuns
  import opened HttpOptions
  import opened HttpTransfer
  import opened HttpResponse
  import opened HttpStatusLine
  import opened HttpBlock
  import HttpBody
  import HttpChunked
  import HttpFraming
  import HttpMethods
  import HttpRequestLine
  import UrlGrammar

  // ---------- the method ----------

  /** A parser that waits for a request, as http_parser_init or a completed message leaves it. */
  predicate AwaitsRequest(m: Machine) {
    && Alive(m) && m.mark == Closed && m.st.nread == 0
    && ((m.st.state == StartReq && m.st.kind == Request) || (m.st.state == StartReqOrRes && m.st.kind == Both))
  }

  /** The parser that has settled for a request. */
  function AsRequest(m: Machine): Machine {
    if m.st.state == StartReq then m else m.(st := FreshMessage(m.st).(kind := Request, state := StartReq))
  }

  lemma ActEither(st: Parser, ch: byte)
    requires st.errno == OK
    ensures st.state == StartReqOrRes && ch != CR && ch != LF && ch != 'H' as int ==>
      Act(st, ch) == Effect(FreshMessage(st).(kind := Request, state := StartReq), Nothing, Again)
    ensures st.state == StartReqOrRes && ch == 'H' as int ==>
      Act(st, ch) == Effect(FreshMessage(st).(state := ResOrRespH), Notify(MessageBegin), Consume)
    ensures st.state == ResOrRespH && ch == 'E' as int ==>
      Act(st, ch) == Effect(st.(kind := Request, verb := HEAD, index := 2, state := ReqMethod), Nothing, Consume)
  {
    hide Lawful, FreshMessage, ActHeaders, ActBeforeValue, ActBody, ActChunkHeader, ActResponseProtocol, ActResponseVersion,
         ActResponseStatus, ActHeadersAlmostDone, ActHeadersDone, ActReqMethod, ActSpacesBeforeUrl, ActUrl, ActRequestProtocol,
         ActRequestVersion;
  }

  /** Any first letter but H decides for a request at once. */
  lemma StepEither(m: Machine, ch: byte)
    requires AwaitsRequest(m) && m.st.state == StartReqOrRes && ch != CR && ch != LF && ch != 'H' as int
    ensures ByteStep(m, ch) == ByteStep(AsRequest(m), ch)
  {
    hide Act, Dispatch, Advance, ByteStep, Count;
    var d := AsRequest(m);
    EitherCounted(m);
    StepCounting(m, ch);
    StepCounting(d, ch);
    DispatchEither(m.(st := Count(m.st)), ch);
  }

  lemma EitherCounted(m: Machine)
    requires AwaitsRequest(m) && m.st.state == StartReqOrRes
    ensures var c, d := m.(st := Count(m.st)), AsRequest(m);
      && c.st.errno == OK && c.st.state == StartReqOrRes && Alive(d) && Count(d.st).errno == OK && !c.exited
      && c.(st := FreshMessage(c.st).(kind := Request, state := StartReq)) == d.(st := Count(d.st))
  {
    CountHeader(m.st);
    CountHeader(AsRequest(m).st);
  }

  lemma DispatchEither(c: Machine, ch: byte)
    requires c.st.errno == OK && c.st.state == StartReqOrRes && ch != CR && ch != LF && ch != 'H' as int
    requires FreshMessage(c.st).errno == OK
    ensures Dispatch(c, ch) == Dispatch(c.(st := FreshMessage(c.st).(kind := Request, state := StartReq)), ch)
  {
    hide Act, Dispatch, FreshMessage;
    ActEither(c.st, ch);
    DispatchOnce(c, ch, Act(c.st, ch));
  }

  lemma StepH(m: Machine)
    requires AwaitsRequest(m) && m.st.state == StartReqOrRes
    ensures ByteStep(m, 'H' as int) == m.(st := FreshMessage(m.st).(state := ResOrRespH, nread := 1),
                                          log := m.log + [MessageBegin], consumed := m.consumed + 1)
  {
    hide Act, ByteStep;
    CountHeader(m.st);
    ActEither(Count(m.st), 'H' as int);
    StepConsume(m, 'H' as int, Act(Count(m.st), 'H' as int));
  }

  lemma StepE(m: Machine)
    requires Alive(m) && m.st.state == ResOrRespH && m.mark == Closed && m.st.nread < MAX_HEADER_SIZE
    ensures ByteStep(m, 'E' as int) == m.(
      st := m.st.(kind := Request, verb := HEAD, index := 2, state := ReqMethod, nread := m.st.nread + 1),
      consumed := m.consumed + 1)
  {
    hide Act, ByteStep;
    CountHeader(m.st);
    ActEither(Count(m.st), 'E' as int);
    StepConsume(m, 'E' as int, Act(Count(m.st), 'E' as int));
  }

  lemma HeadLetters()
    ensures |MethodName(HEAD)| == 4 && HttpMethods.Spelling(HEAD) == ['H' as int, 'E' as int] + ['A' as int, 'D' as int]
    ensures forall i :: 2 <= i <= 4 ==> HttpMethods.Guess(HEAD, i) == HEAD
  {
    var s := HttpMethods.Spelling(HEAD);
    assert HttpMethods.Letter(HEAD, 0) == 'H' as int && HttpMethods.Letter(HEAD, 1) == 'E' as int;
    assert HttpMethods.Letter(HEAD, 2) == 'A' as int && HttpMethods.Letter(HEAD, 3) == 'D' as int;
    assert s[0] == 'H' as int && s[1] == 'E' as int && s[2] == 'A' as int && s[3] == 'D' as int;
  }

  /** Behind an H the second letter decides. */
  lemma RunHE(m: Machine)
    requires AwaitsRequest(m) && m.st.state == StartReqOrRes && HttpMethods.Guess(HEAD, 2) == HEAD && |MethodName(HEAD)| == 4
    ensures Run(m, ['H' as int, 'E' as int]) == HttpMethods.Guessing(AsRequest(m), HEAD, 2)
  {
    hide Act, ByteStep, Run, HttpMethods.Guess, MethodName;
    StepH(m);
    StepE(ByteStep(m, 'H' as int));
    RunTwo(m, 'H' as int, 'E' as int);
  }

  lemma RunHeadName(m: Machine)
    requires AwaitsRequest(m) && m.st.state == StartReqOrRes
    ensures Run(m, HttpMethods.Spelling(HEAD)) == HttpMethods.Guessing(AsRequest(m), HEAD, |MethodName(HEAD)|)
  {
    hide Act, ByteStep, Run, HttpMethods.Guess, MethodName, HttpMethods.Guessing, HttpMethods.Spelling;
    HeadLetters();
    var s, r := HttpMethods.Spelling(HEAD), AsRequest(m);
    RunHE(m);
    RunConcat(m, ['H' as int, 'E' as int], ['A' as int, 'D' as int]);
    assert s[2] == 'A' as int && s[3] == 'D' as int;
    HttpMethods.StepGuess(r, HEAD, 3);
    HttpMethods.StepGuess(r, HEAD, 4);
    RunTwo(HttpMethods.Guessing(r, HEAD, 2), 'A' as int, 'D' as int);
  }

  lemma OnlyHead(v: Method)
    ensures HttpMethods.Letter(v, 0) == 'H' as int ==> v == HEAD
  {
  }

  lemma AsRequestFacts(m: Machine)
    requires AwaitsRequest(m)
    ensures HttpMethods.AtRequest(AsRequest(m), 20) && AsRequest(m).st.kind == Request && AsRequest(m).st.nread == 0
    ensures AsRequest(m).log == m.log && AsRequest(m).consumed == m.consumed
    ensures FreshMessage(AsRequest(m).st).errno == OK && !AsRequest(m).exited
    ensures FreshMessage(AsRequest(m).st) == FreshMessage(m.st).(kind := Request, state := AsRequest(m).st.state)
  {
  }

  lemma RunMethodName(m: Machine, v: Method)
    requires AwaitsRequest(m)
    ensures HttpMethods.Guess(v, |MethodName(v)|) == v
    ensures Run(m, HttpMethods.Spelling(v)) == HttpMethods.Guessing(AsRequest(m), v, |MethodName(v)|)
  {
    hide Act, ByteStep, HttpMethods.Guess, MethodName, Run, FreshMessage;
    var s, r := HttpMethods.Spelling(v), AsRequest(m);
    HttpMethods.GuessLast(v);
    ShortName(v);
    AsRequestFacts(m);
    if m.st.state == StartReqOrRes && v == HEAD {
      RunHeadName(m);
    } else {
      assert s == s[..|s|];
      HttpMethods.RunGuess(r, v, |s|);
      if m.st.state == StartReqOrRes {
        OnlyHead(v);
        HttpMethods.FirstIsLetter(v);
        StepEither(m, s[0]);
        RunFirst(m, r, s);
      }
    }
  }

  lemma RunFirst(m: Machine, r: Machine, s: seq<byte>)
    requires s != [] && ByteStep(m, s[0]) == ByteStep(r, s[0])
    ensures Run(m, s) == Run(r, s)
  {
    hide ByteStep;
  }

  lemma ShortName(v: Method)
    ensures 1 < |MethodName(v)| <= 11
  {
  }

  /** The parser behind the method and its space. */
  function MethodRead(st: Parser, v: Method): Parser {
    FreshMessage(st).(kind := Request, verb := v, index := |MethodName(v)| + 1, state := ReqSpacesBeforeUrl,
                      nread := st.nread + |MethodName(v)| + 1)
  }

  lemma ActNameEnd(st: Parser, v: Method)
    requires st.errno == OK && st.state == ReqMethod && st.verb == v && st.index == |MethodName(v)|
    ensures ActReqMethod(st, SP) == Effect(st.(index := st.index + 1, state := ReqSpacesBeforeUrl), Nothing, Consume)
  {
    hide Lawful, NextMethod, MethodName;
  }

  lemma RunMethod(m: Machine, v: Method)
    requires AwaitsRequest(m)
    ensures Run(m, HttpMethods.Spelling(v) + [SP]) == m.(
      st := MethodRead(m.st, v), log := m.log + [MessageBegin], consumed := m.consumed + |MethodName(v)| + 1)
  {
    hide Act, ByteStep, Run, MethodName, HttpMethods.Guess, ActReqMethod, HttpMethods.Spelling, FreshMessage, AsRequest;
    var s := HttpMethods.Spelling(v);
    RunMethodName(m, v);
    ShortName(v);
    AsRequestFacts(m);
    RunSnoc(m, s, SP);
    StepNameEnd(Run(m, s), v);
    KeptByRequest(m);
  }

  lemma StepNameEnd(r: Machine, v: Method)
    requires Alive(r) && r.st.state == ReqMethod && r.mark == Closed && r.st.nread < MAX_HEADER_SIZE
    requires r.st.verb == v && r.st.index == |MethodName(v)|
    ensures ByteStep(r, SP) == r.(
      st := r.st.(index := r.st.index + 1, state := ReqSpacesBeforeUrl, nread := r.st.nread + 1), consumed := r.consumed + 1)
  {
    hide Act, ByteStep, MethodName, ActReqMethod;
    HttpMethods.StepLetter(r, SP);
    CountHeader(r.st);
    ActNameEnd(Count(r.st), v);
  }

  lemma KeptByRequest(m: Machine)
    requires AwaitsRequest(m)
    ensures AsRequest(m) == m.(st := AsRequest(m).st) && FreshMessage(m.st).nread == 0
  {
  }

  // ---------- the version ----------

  lemma ActVersionStart(st: Parser, ch: byte)
    requires st.errno == OK
    ensures st.state == ReqHttpStart && ch == 'H' as int ==> Act(st, ch) == Goto(st, ReqHttpH)
    ensures st.state == ReqHttpH && ch == 'T' as int ==> Act(st, ch) == Goto(st, ReqHttpHT)
    ensures st.state == ReqHttpHT && ch == 'T' as int ==> Act(st, ch) == Goto(st, ReqHttpHTT)
    ensures st.state == ReqHttpHTT && ch == 'P' as int ==> Act(st, ch) == Goto(st, ReqHttpHTTP)
    ensures st.state == ReqHttpHTTP && ch == '/' as int ==> Act(st, ch) == Goto(st, ReqHttpMajor)
  {
    hide Lawful, ActHeaders, ActBeforeValue, ActBody, ActChunkHeader, ActStart, ActResponseProtocol, ActResponseVersion,
         ActResponseStatus, ActHeadersAlmostDone, ActHeadersDone, ActReqMethod, ActSpacesBeforeUrl, ActUrl;
  }

  lemma ActVersionDigits(st: Parser, ch: byte)
    requires st.errno == OK
    ensures st.state == ReqHttpMajor && IsNum(ch) ==> Act(st, ch) == Goto(st.(httpMajor := DigitOf(ch)), ReqHttpDot)
    ensures st.state == ReqHttpDot && ch == '.' as int ==> Act(st, ch) == Goto(st, ReqHttpMinor)
    ensures st.state == ReqHttpMinor && IsNum(ch) ==> Act(st, ch) == Goto(st.(httpMinor := DigitOf(ch)), ReqHttpEnd)
  {
    hide Lawful, ActHeaders, ActBeforeValue, ActBody, ActChunkHeader, ActStart, ActResponseProtocol, ActResponseVersion,
         ActResponseStatus, ActHeadersAlmostDone, ActHeadersDone, ActReqMethod, ActSpacesBeforeUrl, ActUrl;
  }

  lemma ActLineEnd(st: Parser, ch: byte)
    requires st.errno == OK
    ensures st.state == ReqHttpEnd && ch == CR ==> Act(st, ch) == Goto(st, ReqLineAlmostDone)
    ensures st.state == ReqLineAlmostDone && ch == LF ==> Act(st, ch) == Goto(st, HeaderFieldStart)
  {
    hide Lawful, ActHeaders, ActBeforeValue, ActBody, ActChunkHeader, ActStart, ActResponseProtocol, ActResponseVersion,
         ActResponseStatus, ActHeadersAlmostDone, ActHeadersDone, ActReqMethod, ActSpacesBeforeUrl, ActUrl;
  }

  lemma StepStart(m: Machine, ch: byte)
    requires AtStatus(m, m.st.state)
    ensures m.st.state == ReqHttpStart && ch == 'H' as int ==> ByteStep(m, ch) == Moved(m, ReqHttpH)
    ensures m.st.state == ReqHttpH && ch == 'T' as int ==> ByteStep(m, ch) == Moved(m, ReqHttpHT)
    ensures m.st.state == ReqHttpHT && ch == 'T' as int ==> ByteStep(m, ch) == Moved(m, ReqHttpHTT)
    ensures m.st.state == ReqHttpHTT && ch == 'P' as int ==> ByteStep(m, ch) == Moved(m, ReqHttpHTTP)
    ensures m.st.state == ReqHttpHTTP && ch == '/' as int ==> ByteStep(m, ch) == Moved(m, ReqHttpMajor)
  {
    hide Act, ByteStep, Plain;
    if ParsingHeader(m.st.state) {
      CountHeader(m.st);
      ActVersionStart(Count(m.st), ch);
      var a, b, c := m.st.httpMajor, m.st.httpMinor, m.st.statusCode;
      if m.st.state == ReqHttpStart && ch == 'H' as int {
        StepPlain(m, ch, ReqHttpH, a, b, c);
      } else if m.st.state == ReqHttpH && ch == 'T' as int {
        StepPlain(m, ch, ReqHttpHT, a, b, c);
      } else if m.st.state == ReqHttpHT && ch == 'T' as int {
        StepPlain(m, ch, ReqHttpHTT, a, b, c);
      } else if m.st.state == ReqHttpHTT && ch == 'P' as int {
        StepPlain(m, ch, ReqHttpHTTP, a, b, c);
      } else if m.st.state == ReqHttpHTTP && ch == '/' as int {
        StepPlain(m, ch, ReqHttpMajor, a, b, c);
      }
    }
  }

  lemma StepDigits(m: Machine, ch: byte)
    requires AtStatus(m, m.st.state)
    ensures m.st.state == ReqHttpMajor && IsNum(ch) ==>
      ByteStep(m, ch) == Plain(m, ReqHttpDot, DigitOf(ch), m.st.httpMinor, m.st.statusCode, 1)
    ensures m.st.state == ReqHttpDot && ch == '.' as int ==> ByteStep(m, ch) == Moved(m, ReqHttpMinor)
    ensures m.st.state == ReqHttpMinor && IsNum(ch) ==>
      ByteStep(m, ch) == Plain(m, ReqHttpEnd, m.st.httpMajor, DigitOf(ch), m.st.statusCode, 1)
    ensures m.st.state == ReqHttpEnd && ch == CR ==> ByteStep(m, ch) == Moved(m, ReqLineAlmostDone)
    ensures m.st.state == ReqLineAlmostDone && ch == LF ==> ByteStep(m, ch) == Moved(m, HeaderFieldStart)
  {
    hide Act, ByteStep, Plain, DigitOf, IsNum;
    if ParsingHeader(m.st.state) {
      CountHeader(m.st);
      ActVersionDigits(Count(m.st), ch);
      ActLineEnd(Count(m.st), ch);
      var a, b, c := m.st.httpMajor, m.st.httpMinor, m.st.statusCode;
      if m.st.state == ReqHttpMajor && IsNum(ch) {
        StepPlain(m, ch, ReqHttpDot, DigitOf(ch), b, c);
      } else if m.st.state == ReqHttpDot && ch == '.' as int {
        StepPlain(m, ch, ReqHttpMinor, a, b, c);
      } else if m.st.state == ReqHttpMinor && IsNum(ch) {
        StepPlain(m, ch, ReqHttpEnd, a, DigitOf(ch), c);
      } else if m.st.state == ReqHttpEnd && ch == CR {
        StepPlain(m, ch, ReqLineAlmostDone, a, b, c);
      } else if m.st.state == ReqLineAlmostDone && ch == LF {
        StepPlain(m, ch, HeaderFieldStart, a, b, c);
      }
    }
  }

  const HTT: seq<byte> := ['H' as int, 'T' as int] + ['T' as int]

  const PROTOCOL: seq<byte> := HTT + ['P' as int, '/' as int]

  lemma RunHTT(m: Machine)
    requires Alive(m) && m.st.state == ReqHttpStart && m.st.nread + 3 <= MAX_HEADER_SIZE && m.mark == Closed
    ensures Run(m, HTT) == Plain(m, ReqHttpHTT, m.st.httpMajor, m.st.httpMinor, m.st.statusCode, 3)
  {
    hide Act, ByteStep, Run, Plain;
    var a, b, c := m.st.httpMajor, m.st.httpMinor, m.st.statusCode;
    StepStart(m, 'H' as int);
    PlainFacts(m, ReqHttpH, a, b, c, 1);
    StepStart(Plain(m, ReqHttpH, a, b, c, 1), 'T' as int);
    PlainTwice(m, ReqHttpH, a, b, c, 1, ReqHttpHT, a, b, c, 1);
    RunTwo(m, 'H' as int, 'T' as int);
    PlainFacts(m, ReqHttpHT, a, b, c, 2);
    StepStart(Plain(m, ReqHttpHT, a, b, c, 2), 'T' as int);
    PlainTwice(m, ReqHttpHT, a, b, c, 2, ReqHttpHTT, a, b, c, 1);
    RunSnoc(m, ['H' as int, 'T' as int], 'T' as int);
  }

  lemma RunProtocol(m: Machine)
    requires Alive(m) && m.st.state == ReqHttpStart && m.st.nread + 5 <= MAX_HEADER_SIZE && m.mark == Closed
    ensures Run(m, PROTOCOL) == Plain(m, ReqHttpMajor, m.st.httpMajor, m.st.httpMinor, m.st.statusCode, 5)
  {
    hide Act, ByteStep, Run, Plain;
    var a, b, c := m.st.httpMajor, m.st.httpMinor, m.st.statusCode;
    RunHTT(m);
    PlainFacts(m, ReqHttpHTT, a, b, c, 3);
    var r := Plain(m, ReqHttpHTT, a, b, c, 3);
    StepStart(r, 'P' as int);
    PlainTwice(m, ReqHttpHTT, a, b, c, 3, ReqHttpHTTP, a, b, c, 1);
    PlainFacts(m, ReqHttpHTTP, a, b, c, 4);
    StepStart(Plain(m, ReqHttpHTTP, a, b, c, 4), '/' as int);
    PlainTwice(m, ReqHttpHTTP, a, b, c, 4, ReqHttpMajor, a, b, c, 1);
    RunTwo(r, 'P' as int, '/' as int);
    RunConcat(m, HTT, ['P' as int, '/' as int]);
  }

  /** `x.y` CRLF */
  function VersionText(x: byte, y: byte): seq<byte> {
    [x, '.' as int] + [y] + CRLF
  }

  lemma RunMajorDot(m: Machine, x: byte)
    requires Alive(m) && m.st.state == ReqHttpMajor && m.st.nread + 2 <= MAX_HEADER_SIZE && m.mark == Closed && IsNum(x)
    ensures Run(m, [x, '.' as int]) == Plain(m, ReqHttpMinor, DigitOf(x), m.st.httpMinor, m.st.statusCode, 2)
  {
    hide Act, ByteStep, Run, Plain;
    var b, c := m.st.httpMinor, m.st.statusCode;
    StepDigits(m, x);
    PlainFacts(m, ReqHttpDot, DigitOf(x), b, c, 1);
    StepDigits(Plain(m, ReqHttpDot, DigitOf(x), b, c, 1), '.' as int);
    PlainTwice(m, ReqHttpDot, DigitOf(x), b, c, 1, ReqHttpMinor, DigitOf(x), b, c, 1);
    RunTwo(m, x, '.' as int);
  }

  lemma RunLineEnd(m: Machine)
    requires Alive(m) && m.st.state == ReqHttpEnd && m.st.nread + 2 <= MAX_HEADER_SIZE && m.mark == Closed
    ensures Run(m, CRLF) == Plain(m, HeaderFieldStart, m.st.httpMajor, m.st.httpMinor, m.st.statusCode, 2)
  {
    hide Act, ByteStep, Run, Plain;
    var a, b, c := m.st.httpMajor, m.st.httpMinor, m.st.statusCode;
    StepDigits(m, CR);
    PlainFacts(m, ReqLineAlmostDone, a, b, c, 1);
    StepDigits(Plain(m, ReqLineAlmostDone, a, b, c, 1), LF);
    PlainTwice(m, ReqLineAlmostDone, a, b, c, 1, HeaderFieldStart, a, b, c, 1);
    RunCrlf(m);
  }

  lemma RunNumbers(m: Machine, x: byte, y: byte)
    requires Alive(m) && m.st.state == ReqHttpMajor && m.st.nread + 5 <= MAX_HEADER_SIZE && m.mark == Closed
    requires IsNum(x) && IsNum(y)
    ensures Run(m, VersionText(x, y)) == Plain(m, HeaderFieldStart, DigitOf(x), DigitOf(y), m.st.statusCode, 5)
  {
    hide Act, ByteStep, Run, Plain, IsNum, DigitOf;
    var b, c := m.st.httpMinor, m.st.statusCode;
    RunMajorDot(m, x);
    PlainFacts(m, ReqHttpMinor, DigitOf(x), b, c, 2);
    StepDigits(Plain(m, ReqHttpMinor, DigitOf(x), b, c, 2), y);
    PlainTwice(m, ReqHttpMinor, DigitOf(x), b, c, 2, ReqHttpEnd, DigitOf(x), DigitOf(y), c, 1);
    RunSnoc(m, [x, '.' as int], y);
    PlainFacts(m, ReqHttpEnd, DigitOf(x), DigitOf(y), c, 3);
    RunLineEnd(Plain(m, ReqHttpEnd, DigitOf(x), DigitOf(y), c, 3));
    PlainTwice(m, ReqHttpEnd, DigitOf(x), DigitOf(y), c, 3, HeaderFieldStart, DigitOf(x), DigitOf(y), c, 2);
    RunConcat(m, [x, '.' as int] + [y], CRLF);
  }

  lemma RunVersionLine(m: Machine, x: byte, y: byte)
    requires Alive(m) && m.st.state == ReqHttpStart && m.st.nread + 10 <= MAX_HEADER_SIZE && m.mark == Closed
    requires IsNum(x) && IsNum(y)
    ensures Run(m, PROTOCOL + VersionText(x, y)) == Plain(m, HeaderFieldStart, DigitOf(x), DigitOf(y), m.st.statusCode, 10)
  {
    hide Act, ByteStep, Run, Plain, IsNum, DigitOf, VersionText;
    var a, b, c := m.st.httpMajor, m.st.httpMinor, m.st.statusCode;
    RunProtocol(m);
    PlainFacts(m, ReqHttpMajor, a, b, c, 5);
    RunNumbers(Plain(m, ReqHttpMajor, a, b, c, 5), x, y);
    PlainTwice(m, ReqHttpMajor, a, b, c, 5, HeaderFieldStart, DigitOf(x), DigitOf(y), c, 5);
    RunConcat(m, PROTOCOL, VersionText(x, y));
  }

  // ---------- the request line ----------

  /** A target that the parser takes from a request with this method. */
  ghost predicate TargetOk(v: Method, t: seq<byte>) {
    UrlGrammar.IsTarget(t, v == CONNECT)
  }

  /** Method, target and version. */
  function RequestLine(v: Method, t: seq<byte>, x: byte, y: byte): seq<byte> {
    (HttpMethods.Spelling(v) + [SP]) + (t + [SP]) + (PROTOCOL + VersionText(x, y))
  }

  lemma LineSize(v: Method, t: seq<byte>, x: byte, y: byte)
    ensures |RequestLine(v, t, x, y)| == |MethodName(v)| + |t| + 12
  {
    hide MethodName;
  }

  /** The parser after the whole request line. */
  function LineRead(st: Parser, v: Method, x: byte, y: byte, n: nat): Parser
    requires IsNum(x) && IsNum(y)
  {
    FreshMessage(st).(kind := Request, verb := v, index := |MethodName(v)| + 1, state := HeaderFieldStart, nread := n,
                      httpMajor := DigitOf(x), httpMinor := DigitOf(y))
  }

  lemma MethodReadFacts(st: Parser, v: Method)
    ensures var r := MethodRead(st, v);
      r.errno == st.errno && r.state == ReqSpacesBeforeUrl && r.verb == v && r.nread == st.nread + |MethodName(v)| + 1
  {
    hide MethodName;
  }

  lemma RunMethodTarget(m: Machine, v: Method, t: seq<byte>)
    requires AwaitsRequest(m) && TargetOk(v, t) && |MethodName(v)| + |t| + 2 <= MAX_HEADER_SIZE
    ensures var n := |MethodName(v)| + |t| + 2;
      Run(m, (HttpMethods.Spelling(v) + [SP]) + (t + [SP])) == m.(
        st := MethodRead(m.st, v).(state := ReqHttpStart, nread := n), consumed := m.consumed + n,
        log := m.log + [MessageBegin, Data(Part.Url, t)])
  {
    hide Act, ByteStep, Run, MethodName, HttpMethods.Spelling, MethodRead, UrlGrammar.IsTarget;
    RunMethod(m, v);
    MethodReadFacts(m.st, v);
    RunConcat(m, HttpMethods.Spelling(v) + [SP], t + [SP]);
    HttpRequestLine.TargetPrintable(t, v == CONNECT);
    HttpRequestLine.TargetExact(Run(m, HttpMethods.Spelling(v) + [SP]), t);
    assert m.log + [MessageBegin] + [Data(Part.Url, t)] == m.log + [MessageBegin, Data(Part.Url, t)];
  }

  /** The whole request line, read by a fresh or reused parser. */
  lemma RunRequestLine(m: Machine, v: Method, t: seq<byte>, x: byte, y: byte)
    requires AwaitsRequest(m) && TargetOk(v, t) && IsNum(x) && IsNum(y) && |RequestLine(v, t, x, y)| <= MAX_HEADER_SIZE
    ensures var n := |RequestLine(v, t, x, y)|;
      Run(m, RequestLine(v, t, x, y)) == m.(
        st := LineRead(m.st, v, x, y, n), consumed := m.consumed + n, log := m.log + [MessageBegin, Data(Part.Url, t)])
  {
    hide Act, ByteStep, Run, MethodName, HttpMethods.Spelling, TargetOk, VersionText, IsNum, DigitOf;
    LineSize(v, t, x, y);
    RunMethodTarget(m, v, t);
    var a := (HttpMethods.Spelling(v) + [SP]) + (t + [SP]);
    RunConcat(m, a, PROTOCOL + VersionText(x, y));
    RunVersionLine(Run(m, a), x, y);
  }

  // ---------- the whole head ----------

  function RequestText(v: Method, t: seq<byte>, x: byte, y: byte, hs: seq<Header>): seq<byte> {
    RequestLine(v, t, x, y) + Lines(hs) + CRLF
  }

  function RequestEvents(t: seq<byte>, hs: seq<Header>): seq<Event> {
    [MessageBegin, Data(Part.Url, t)] + Pairs(hs)
  }

  /** What a sender may put into a request that this parser is to read. */
  ghost predicate IsRequest(v: Method, t: seq<byte>, x: byte, y: byte, hs: seq<Header>) {
    TargetOk(v, t) && IsNum(x) && IsNum(y) && AreHeaderTexts(hs) && |RequestText(v, t, x, y, hs)| <= MAX_HEADER_SIZE
  }

  /** The parser in front of the blank line. */
  predicate RequestRead(m: Machine, v: Method, t: seq<byte>, x: byte, y: byte, hs: seq<Header>, n: Machine)
    requires IsNum(x) && IsNum(y)
  {
    && Normal(n) && Ordinary(n.st) && SameSettings(m.st, n.st) && n.st.kind == Request && n.st.verb == v
    && n.st.httpMajor == DigitOf(x) && n.st.httpMinor == DigitOf(y)
    && n.st.nread + 2 <= MAX_HEADER_SIZE && n.consumed + 2 == m.consumed + |RequestText(v, t, x, y, hs)|
    && n.log == m.log + RequestEvents(t, hs) && Declared(hs, n.st) && Recorded(hs, n.st.flags)
  }

  lemma LineReadFacts(m: Machine, v: Method, x: byte, y: byte, n: nat)
    requires AwaitsRequest(m) && IsNum(x) && IsNum(y)
    ensures var st := LineRead(m.st, v, x, y, n);
      && Ordinary(st) && Blank(st) && SameSettings(m.st, st) && st.errno == OK && st.nread == n && st.state == HeaderFieldStart
      && st.kind == Request && st.verb == v && st.httpMajor == DigitOf(x) && st.httpMinor == DigitOf(y)
    ensures m.mark == Closed && !m.exited
  {
    hide MethodName;
  }

  lemma RequestReadOf(m: Machine, v: Method, t: seq<byte>, x: byte, y: byte, hs: seq<Header>, m1: Machine, n: Machine)
    requires IsRequest(v, t, x, y, hs) && BlockEffect(m1, hs, n)
    requires m1.log == m.log + [MessageBegin, Data(Part.Url, t)] && m1.consumed == m.consumed + |RequestLine(v, t, x, y)|
    requires Ordinary(m1.st) && SameSettings(m.st, m1.st) && m1.st.nread == |RequestLine(v, t, x, y)|
    requires m1.st.kind == Request && m1.st.verb == v
    requires m1.st.httpMajor == DigitOf(x) && m1.st.httpMinor == DigitOf(y)
    ensures RequestRead(m, v, t, x, y, hs, n)
  {
    hide Lines, RequestLine, Pairs, Declared, Recorded, AreHeaderTexts, Ordinary, TargetOk;
    OrdinaryKept(m1.st, n.st);
    assert m1.log + Pairs(hs) == m.log + RequestEvents(t, hs);
  }

  /** Everything in front of the blank line, whatever follows it: refused exactly for the lengths among the lines. */
  lemma RunRequest(m: Machine, v: Method, t: seq<byte>, x: byte, y: byte, hs: seq<Header>, rest: seq<byte>)
    requires AwaitsRequest(m) && IsRequest(v, t, x, y, hs)
    ensures var line := RequestLine(v, t, x, y);
      if LengthsOk(hs, false) then
        var n := NextLine(Run(m, line + Lines(hs)));
        RequestRead(m, v, t, x, y, hs, n) && Run(m, line + Lines(hs) + (CRLF + rest)) == Run(n, CRLF + rest)
      else Run(m, line + Lines(hs) + (CRLF + rest)).st.errno != OK
  {
    hide Run, RequestLine, Lines, NextLine, LengthsOk, BlockEffect, LineRead, Blank, AwaitsRequest, AreHeaderTexts,
         RequestRead, Pairs, TargetOk, IsNum, DigitOf;
    var line := RequestLine(v, t, x, y);
    var m1 := Run(m, line);
    RunRequestLine(m, v, t, x, y);
    LineReadFacts(m, v, x, y, |line|);
    RunBehindBlock(m1, hs, CRLF + rest);
    RunConcat(m, line, Lines(hs));
    RunConcat(m, line, Lines(hs) + (CRLF + rest));
    assert line + Lines(hs) + (CRLF + rest) == line + (Lines(hs) + (CRLF + rest));
    if LengthsOk(hs, false) {
      RequestReadOf(m, v, t, x, y, hs, m1, NextLine(Run(m1, Lines(hs))));
    }
  }

  // ---------- framing ----------

  /** The lines name a protocol and ask for the change. */
  predicate Switching(hs: seq<Header>) {
    Upgrades(hs) && AskFor(hs, UpgradeOption)
  }

  /** Whether the connection is to change its protocol. */
  predicate Changing(verdict: Verdict, v: Method, hs: seq<Header>) {
    v == CONNECT || Switching(hs) || verdict == SkipBodyAndUpgrade
  }

  /** How a request is framed. */
  function RequestFraming(lenient: bool, verdict: Verdict, v: Method, hs: seq<Header>): Framing {
    if v == CONNECT then HandedOver
    else if verdict != Proceed then (if Changing(verdict, v, hs) then HandedOver else NoBody)
    else if Chunks(hs) then ByChunks
    else if Switching(hs) && !HttpFraming.Sized(hs) then HandedOver
    else if HasEncodingLike(hs) then (if lenient then ByEof else Unframeable)
    else if HttpFraming.Sized(hs) then ByLength else NoBody
  }

  function RequestState(lenient: bool, verdict: Verdict, v: Method, x: byte, y: byte, hs: seq<Header>): State {
    match RequestFraming(lenient, verdict, v, hs)
    case ByChunks => ChunkSizeStart
    case ByLength => BodyIdentity
    case ByEof => BodyIdentityEof
    case _ => NextStart(Request, StaysOpen(x, y, hs))
  }

  lemma RequestFramed(m: Machine, v: Method, t: seq<byte>, x: byte, y: byte, hs: seq<Header>, n: Machine)
    requires IsNum(x) && IsNum(y) && LengthsOk(hs, false) && RequestRead(m, v, t, x, y, hs, n)
    ensures FramingOf(n.st) == RequestFraming(m.st.lenient, m.st.verdict, v, hs)
    ensures (Upgraded(n.st) <==> Changing(m.st.verdict, v, hs))
    ensures LengthConflict(n.st) <==> HttpFraming.Conflicts(m.st, hs)
  {
    hide RequestText, RequestEvents, HasEncodingLike, AskFor, Chunks, Upgrades, HasLength, DeclaredBy, LengthsOk;
    LengthsDeclared(hs);
    DeclaredBelow(hs);
  }

  /** What is known of a request behind its head. */
  predicate RequestKept(was: Parser, v: Method, x: byte, y: byte, hs: seq<Header>, st: Parser)
    requires IsNum(x) && IsNum(y)
  {
    && st.kind == Request && st.verb == v && SameSettings(was, st) && st.nread == 0
    && st.httpMajor == DigitOf(x) && st.httpMinor == DigitOf(y)
    && (st.flags.keepAlive <==> AskFor(hs, KeepAliveOption)) && (st.flags.close <==> Closes(hs))
  }

  lemma KeptOf(m: Machine, v: Method, t: seq<byte>, x: byte, y: byte, hs: seq<Header>, n: Machine)
    requires IsNum(x) && IsNum(y) && RequestRead(m, v, t, x, y, hs, n)
    ensures RequestKept(m.st, v, x, y, hs, BodyStart(n.st)) && BodyStart(n.st).contentLength == n.st.contentLength
  {
    hide RequestText, RequestEvents, HasEncodingLike, AskFor, Chunks, Upgrades, BodyStart, Upgraded, HasLength, DeclaredBy,
         IsNum, DigitOf;
    BodyStartKeeps(n.st);
  }

  lemma RequestStart(m: Machine, v: Method, t: seq<byte>, x: byte, y: byte, hs: seq<Header>, n: Machine)
    requires IsNum(x) && IsNum(y) && LengthsOk(hs, false) && RequestRead(m, v, t, x, y, hs, n)
    ensures var r := BodyStart(n.st);
      && r.state == RequestState(m.st.lenient, m.st.verdict, v, x, y, hs) && r.errno == OK && RequestKept(m.st, v, x, y, hs, r)
      && (r.upgrade <==> Changing(m.st.verdict, v, hs)) && r.contentLength == n.st.contentLength
  {
    hide RequestText, RequestEvents, HasEncodingLike, Chunks, Switching, FramingOf, Upgraded, NewMessage, StaysOpen, DigitOf,
         IsNum, HasLength, DeclaredBy, LengthsOk, AskFor, RequestKept;
    RequestFramed(m, v, t, x, y, hs, n);
    KeptOf(m, v, t, x, y, hs, n);
    KeptOpen(HeadersOver(n.st), x, y, hs);
  }

  /** The parser behind the head of a request. */
  predicate RequestTaken(m: Machine, v: Method, t: seq<byte>, x: byte, y: byte, hs: seq<Header>, r: Machine)
    requires IsNum(x) && IsNum(y)
  {
    var f := RequestFraming(m.st.lenient, m.st.verdict, v, hs);
    && r.st.errno == OK && r.mark == Closed && (r.exited <==> f == HandedOver)
    && r.consumed == m.consumed + |RequestText(v, t, x, y, hs)|
    && r.log == m.log + RequestEvents(t, hs) + BlankEvents(f)
    && r.st.state == RequestState(m.st.lenient, m.st.verdict, v, x, y, hs) && RequestKept(m.st, v, x, y, hs, r.st)
    && (r.st.upgrade <==> Changing(m.st.verdict, v, hs))
    && (HasLength(hs) && DeclaredBy(hs).Some? ==> r.st.contentLength == DeclaredBy(hs).value)
  }

  /** What becomes of a request: refused for a declared length beside a coding, refused for a coding that leaves its end
      open, or taken. */
  predicate RequestOutcome(m: Machine, v: Method, t: seq<byte>, x: byte, y: byte, hs: seq<Header>, r: Machine)
    requires IsNum(x) && IsNum(y)
  {
    var log := m.log + RequestEvents(t, hs);
    if HttpFraming.Conflicts(m.st, hs) then r.st.errno == UNEXPECTED_CONTENT_LENGTH && r.log == log
    else if RequestFraming(m.st.lenient, m.st.verdict, v, hs) == Unframeable then
      r.st.errno == INVALID_TRANSFER_ENCODING && r.log == log + [HeadersComplete]
    else RequestTaken(m, v, t, x, y, hs, r)
  }

  lemma OutcomeOf(m: Machine, v: Method, t: seq<byte>, x: byte, y: byte, hs: seq<Header>, n: Machine, r: Machine)
    requires IsNum(x) && IsNum(y) && LengthsOk(hs, false) && RequestRead(m, v, t, x, y, hs, n) && BlankEffect(n, 2, r)
    ensures RequestOutcome(m, v, t, x, y, hs, r)
  {
    hide RequestText, RequestEvents, HasEncodingLike, Recorded, Chunks, Switching, FramingOf, Upgraded, BodyStart,
         LengthConflict, RequestState, BlankEvents, RequestFraming, HttpFraming.Conflicts, DigitOf, IsNum, HasLength,
         DeclaredBy, LengthsOk;
    RequestFramed(m, v, t, x, y, hs, n);
    RequestStart(m, v, t, x, y, hs, n);
  }

  lemma RequestPieces(v: Method, t: seq<byte>, x: byte, y: byte, hs: seq<Header>, rest: seq<byte>)
    ensures RequestText(v, t, x, y, hs) + rest == RequestLine(v, t, x, y) + Lines(hs) + (CRLF + rest)
  {
    hide RequestLine, Lines;
  }

  /** The head of any request, from the first octet to the blank line. It is refused for its lengths exactly if its lines
      declare one in vain or more than one, with UNEXPECTED_CONTENT_LENGTH if a declared length meets a coding that the
      parser does not tolerate beside it, and with INVALID_TRANSFER_ENCODING if the coding leaves the end of the body open;
      any other head is delivered as it is, and followed by chunks, by the declared octets, by nothing, or by another
      protocol. */
  lemma RequestHead(m: Machine, v: Method, t: seq<byte>, x: byte, y: byte, hs: seq<Header>)
    requires AwaitsRequest(m) && IsRequest(v, t, x, y, hs)
    ensures var r := Run(m, RequestText(v, t, x, y, hs));
      if LengthsOk(hs, false) then RequestOutcome(m, v, t, x, y, hs, r) else r.st.errno != OK
  {
    hide Run, RequestLine, Lines, NextLine, RequestText, RequestEvents, BlankEvents, BodyStart, FramingOf, LengthsOk,
         HasEncodingLike, LengthConflict, AwaitsRequest, BlankEffect, RequestOutcome, TargetOk, AreHeaderTexts, DigitOf;
    var text := RequestText(v, t, x, y, hs);
    RequestPieces(v, t, x, y, hs, []);
    assert text + [] == text && CRLF + [] == CRLF;
    RunRequest(m, v, t, x, y, hs, []);
    if LengthsOk(hs, false) {
      var n := NextLine(Run(m, RequestLine(v, t, x, y) + Lines(hs)));
      RunBlank(n);
      OutcomeOf(m, v, t, x, y, hs, n, Run(n, CRLF));
    }
  }

  // ---------- the connection behind a request ----------

  /** The parser behind a whole request: the version is reported as it was written, and the parser waits for another
      request exactly if the version and the Connection lines keep the connection open; otherwise it takes nothing more. */
  predicate Behind(m: Machine, v: Method, x: byte, y: byte, hs: seq<Header>, r: Machine)
    requires IsNum(x) && IsNum(y)
  {
    && r.st.errno == OK && r.mark == Closed && r.st.verb == v
    && r.st.httpMajor == DigitOf(x) && r.st.httpMinor == DigitOf(y)
    && r.st.state == (if StaysOpen(x, y, hs) then StartReq else Dead)
    && (r.exited <==> Changing(m.st.verdict, v, hs))
    && (StaysOpen(x, y, hs) && !r.exited && r.st.nread == 0 ==> AwaitsRequest(r))
  }

  lemma RequestDigits(v: Method, t: seq<byte>, x: byte, y: byte, hs: seq<Header>)
    requires IsRequest(v, t, x, y, hs)
    ensures IsNum(x) && IsNum(y)
  {
  }

  lemma HandedOrOver(st: Parser, v: Method, hs: seq<Header>)
    requires EndsMessage(RequestFraming(st.lenient, st.verdict, v, hs))
    ensures RequestFraming(st.lenient, st.verdict, v, hs) == HandedOver <==> Changing(st.verdict, v, hs)
  {
    hide Chunks, HasEncodingLike, HasLength, DeclaredBy;
  }

  /** A request that is over at its head. */
  lemma BehindHead(m: Machine, v: Method, t: seq<byte>, x: byte, y: byte, hs: seq<Header>)
    requires AwaitsRequest(m) && IsRequest(v, t, x, y, hs) && LengthsOk(hs, false) && !HttpFraming.Conflicts(m.st, hs)
    requires EndsMessage(RequestFraming(m.st.lenient, m.st.verdict, v, hs))
    ensures var r := Run(m, RequestText(v, t, x, y, hs)); r.st.nread == 0 && Behind(m, v, x, y, hs, r)
  {
    hide Run, RequestText, RequestEvents, HasLength, HasEncodingLike, IsRequest, Chunks, Switching, LengthsOk, DeclaredBy,
         IsNum, DigitOf, StaysOpen, AskFor, HttpFraming.Conflicts;
    RequestDigits(v, t, x, y, hs);
    RequestHead(m, v, t, x, y, hs);
    HandedOrOver(m.st, v, hs);
  }

  /** NEW_MESSAGE() behind the body of a request. */
  lemma KeptBehind(was: Parser, v: Method, x: byte, y: byte, hs: seq<Header>, st: Parser)
    requires IsNum(x) && IsNum(y) && RequestKept(was, v, x, y, hs, st)
    ensures MessageOver(st).state == HttpChunked.ChunkedOver(st).state == NextStart(Request, StaysOpen(x, y, hs))
    ensures HttpFraming.BodyPast(st, MessageOver(st)) && MessageOver(st).nread == 0
    ensures HttpFraming.BodyPast(st, HttpChunked.ChunkedOver(st)) && HttpChunked.ChunkedOver(st).nread == 2
  {
    hide NewMessage, StaysOpen, AskFor, IsNum, DigitOf;
    KeptOpen(st.(contentLength := 0, state := MessageDone), x, y, hs);
    KeptOpen(HttpChunked.SizeRead(st.(contentLength := 0)).(nread := 2, state := MessageDone), x, y, hs);
  }

  /** A request whose body has the declared length. */
  lemma BehindLength(m: Machine, v: Method, t: seq<byte>, x: byte, y: byte, hs: seq<Header>, body: seq<byte>)
    requires AwaitsRequest(m) && m.st.verdict == Proceed && IsRequest(v, t, x, y, hs) && v != CONNECT
    requires LengthsOk(hs, false) && DeclaredBy(hs) == Some(|body|) && body != [] && !HasEncodingLike(hs)
    ensures var r := Run(m, RequestText(v, t, x, y, hs) + body);
      && r.st.nread == 0 && Behind(m, v, x, y, hs, r)
      && r.log == m.log + RequestEvents(t, hs) + [HeadersComplete, Data(Body, body), MessageComplete]
  {
    hide Run, RequestText, RequestEvents, HasLength, HasEncodingLike, IsRequest, Chunks, Switching, LengthsOk, DeclaredBy,
         IsNum, DigitOf, StaysOpen, AskFor, MessageOver, HttpChunked.ChunkedOver;
    RequestDigits(v, t, x, y, hs);
    var text, log := RequestText(v, t, x, y, hs), m.log + RequestEvents(t, hs);
    RequestHead(m, v, t, x, y, hs);
    ChunksNeedEncoding(hs);
    LengthsDeclared(hs);
    DeclaredBelow(hs);
    var r := Run(m, text);
    KeptBehind(m.st, v, x, y, hs, r.st);
    assert RequestFraming(m.st.lenient, Proceed, v, hs) == ByLength;
    HttpBody.RunRest(r, |body|, body);
    RunConcat(m, text, body);
    assert log + BlankEvents(ByLength) == log + [HeadersComplete];
    assert log + [HeadersComplete] + [Data(Body, body), MessageComplete]
        == log + [HeadersComplete, Data(Body, body), MessageComplete];
  }

  /** A request whose body comes in chunks. */
  lemma BehindChunks(m: Machine, v: Method, t: seq<byte>, x: byte, y: byte, hs: seq<Header>, cs: seq<HttpChunked.Chunk>,
                     size: seq<byte>, ext: seq<byte>)
    requires AwaitsRequest(m) && m.st.verdict == Proceed && IsRequest(v, t, x, y, hs) && v != CONNECT
    requires LengthsOk(hs, false) && !HttpFraming.Conflicts(m.st, hs) && Chunks(hs)
    requires HttpChunked.IsLast(size, ext) && forall i :: 0 <= i < |cs| ==> HttpChunked.IsChunk(cs[i])
    ensures var r := Run(m, RequestText(v, t, x, y, hs) + HttpChunked.EncodeBody(cs, size, ext));
      && r.st.nread == 2 && Behind(m, v, x, y, hs, r)
      && r.log == m.log + RequestEvents(t, hs) + [HeadersComplete] + HttpChunked.BodyEvents(cs)
  {
    hide Run, RequestText, RequestEvents, HasLength, HasEncodingLike, IsRequest, Chunks, Switching, LengthsOk, DeclaredBy,
         IsNum, DigitOf, StaysOpen, AskFor, MessageOver, HttpChunked.ChunkedOver, HttpChunked.IsLast, HttpChunked.IsChunk,
         HttpChunked.EncodeBody, HttpChunked.BodyEvents, HttpFraming.Conflicts;
    RequestDigits(v, t, x, y, hs);
    var text, log := RequestText(v, t, x, y, hs), m.log + RequestEvents(t, hs);
    RequestHead(m, v, t, x, y, hs);
    var r := Run(m, text);
    KeptBehind(m.st, v, x, y, hs, r.st);
    assert RequestFraming(m.st.lenient, Proceed, v, hs) == ByChunks;
    HttpChunked.ChunkedRoundTrip(r, cs, size, ext);
    RunConcat(m, text, HttpChunked.EncodeBody(cs, size, ext));
    assert log + BlankEvents(ByChunks) == log + [HeadersComplete];
  }

  /** RFC 7230 section 3.3.3 has a request with codings refused unless the last of them is "chunked". A strict parser
      refuses it unless one of the lines is found to end with "chunked", and so does what is asked of it exactly if
      that one is the last, or is followed by another such line. */
  lemma RequestCodings(m: Machine, v: Method, t: seq<byte>, x: byte, y: byte, hs: seq<Header>)
    requires AwaitsRequest(m) && !m.st.lenient && m.st.verdict == Proceed
    requires IsRequest(v, t, x, y, hs) && !HasLength(hs) && HasEncodingLike(hs)
    requires v != CONNECT && !Switching(hs)
    ensures var r := Run(m, RequestText(v, t, x, y, hs));
      && (if Chunks(hs) then r.st.errno == OK && r.st.state == ChunkSizeStart else r.st.errno == INVALID_TRANSFER_ENCODING)
      && ((r.st.errno == OK <==> HttpFraming.FinallyChunked(hs)) <==>
            if HttpFraming.FinallyChunked(hs) then
              ChunkedFound(HttpFraming.LastEncoding(hs).value) || HttpFraming.ChunkedBefore(hs)
            else !HttpFraming.ChunkedBefore(hs))
  {
    hide Run, AwaitsRequest, IsRequest, HasLength, HasEncodingLike, RequestText, RequestEvents, Chunks, Switching,
         ChunkedFound, HttpFraming.FinallyChunked, HttpFraming.LastEncoding, HttpFraming.ChunkedBefore, StaysOpen,
         BlankEvents, LengthsOk, DeclaredBy;
    NoLengths(hs);
    RequestHead(m, v, t, x, y, hs);
    HttpFraming.ChunksExact(hs);
  }

  // ---------- any first line ----------

  /** A request with whatever stands for the method and the target. */
  function AnyRequest(name: seq<byte>, t: seq<byte>, x: byte, y: byte, hs: seq<Header>): seq<byte> {
    (name + [SP]) + ((t + [SP]) + ((PROTOCOL + VersionText(x, y)) + Lines(hs) + CRLF))
  }

  lemma AnyPieces(v: Method, t: seq<byte>, x: byte, y: byte, hs: seq<Header>)
    ensures AnyRequest(HttpMethods.Spelling(v), t, x, y, hs) == RequestText(v, t, x, y, hs)
  {
    hide Lines, HttpMethods.Spelling;
  }

  /** A request that the parser has reason to take. */
  ghost predicate Acceptable(st: Parser, v: Method, t: seq<byte>, hs: seq<Header>) {
    TargetOk(v, t) && LengthsOk(hs, false) && !HttpFraming.Conflicts(st, hs)
    && RequestFraming(st.lenient, st.verdict, v, hs) != Unframeable
  }

  lemma OneSpelling(m: Machine, v: Method, w: Method)
    requires AwaitsRequest(m) && HttpMethods.Spelling(v) == HttpMethods.Spelling(w)
    ensures v == w
  {
    hide Run, HttpMethods.Spelling, MethodName, FreshMessage;
    RunMethod(m, v);
    RunMethod(m, w);
    assert MethodRead(m.st, v).verb == v && MethodRead(m.st, w).verb == w;
  }

  lemma TargetRefused(m: Machine, v: Method, t: seq<byte>, rest: seq<byte>)
    requires AwaitsRequest(m) && HttpRequestLine.IsTargetText(t) && !TargetOk(v, t)
    requires |MethodName(v)| + |t| + 2 <= MAX_HEADER_SIZE
    ensures Run(m, (HttpMethods.Spelling(v) + [SP]) + ((t + [SP]) + rest)).st.errno != OK
  {
    hide Run, HttpMethods.Spelling, MethodRead, MethodName, UrlGrammar.IsTarget;
    RunMethod(m, v);
    MethodReadFacts(m.st, v);
    var r := Run(m, HttpMethods.Spelling(v) + [SP]);
    RunConcat(m, HttpMethods.Spelling(v) + [SP], (t + [SP]) + rest);
    HttpRequestLine.TargetExact(r, t);
    RunConcat(r, t + [SP], rest);
    RunStopped(Run(r, t + [SP]), rest);
  }

  lemma OutcomeAcceptable(m: Machine, v: Method, t: seq<byte>, x: byte, y: byte, hs: seq<Header>, r: Machine)
    requires IsNum(x) && IsNum(y) && TargetOk(v, t)
    requires if LengthsOk(hs, false) then RequestOutcome(m, v, t, x, y, hs, r) else r.st.errno != OK
    ensures r.st.errno == OK <==> Acceptable(m.st, v, t, hs)
  {
    hide RequestText, RequestEvents, TargetOk, HttpFraming.Conflicts, RequestFraming, RequestState, LengthsOk;
  }

  /** A request is taken if and only if it begins with the name of a method, the target is one that goes with the method,
      and codings and length leave no doubt about its end. */
  lemma RequestExact(m: Machine, name: seq<byte>, t: seq<byte>, x: byte, y: byte, hs: seq<Header>)
    requires AwaitsRequest(m) && m.st.state == StartReq
    requires name != [] && SP !in name && name[0] != CR && name[0] != LF && HttpRequestLine.IsTargetText(t)
    requires IsNum(x) && IsNum(y) && AreHeaderTexts(hs)
    requires |AnyRequest(name, t, x, y, hs)| <= MAX_HEADER_SIZE
    ensures Run(m, AnyRequest(name, t, x, y, hs)).st.errno == OK <==>
      exists v: Method :: name == HttpMethods.Spelling(v) && Acceptable(m.st, v, t, hs)
  {
    hide Run, Lines, AwaitsRequest, LengthsOk, AreHeaderTexts, TargetOk, MethodName, HttpMethods.Spelling, RequestOutcome,
         Acceptable, VersionText, IsNum, RequestText, AnyRequest;
    var text := AnyRequest(name, t, x, y, hs);
    AnySize(name, t, x, y, hs);
    var rest := (t + [SP]) + ((PROTOCOL + VersionText(x, y)) + Lines(hs) + CRLF);
    var r1 := Run(m, name + [SP]);
    RunConcat(m, name + [SP], rest);
    AtStart(m, |name| + 1);
    HttpMethods.MethodExact(m, name);
    if r1.st.errno != OK {
      RunStopped(r1, rest);
    } else {
      var v := r1.st.verb;
      forall w: Method | name == HttpMethods.Spelling(w) ensures w == v {
        OneSpelling(m, v, w);
      }
      if TargetOk(v, t) {
        AnyPieces(v, t, x, y, hs);
        RequestHead(m, v, t, x, y, hs);
        OutcomeAcceptable(m, v, t, x, y, hs, Run(m, text));
      } else {
        TargetRefused(m, v, t, (PROTOCOL + VersionText(x, y)) + Lines(hs) + CRLF);
        NotAcceptable(m.st, v, t, hs);
      }
    }
  }

  lemma AnySize(name: seq<byte>, t: seq<byte>, x: byte, y: byte, hs: seq<Header>)
    ensures AnyRequest(name, t, x, y, hs)
         == (name + [SP]) + ((t + [SP]) + ((PROTOCOL + VersionText(x, y)) + Lines(hs) + CRLF))
    ensures |AnyRequest(name, t, x, y, hs)| >= |name| + |t| + 2
  {
    hide Lines, VersionText;
  }

  lemma AtStart(m: Machine, n: nat)
    requires AwaitsRequest(m) && m.st.state == StartReq && n <= MAX_HEADER_SIZE
    ensures HttpMethods.AtRequest(m, n)
  {
  }

  lemma NotAcceptable(st: Parser, v: Method, t: seq<byte>, hs: seq<Header>)
    requires !TargetOk(v, t)
    ensures !Acceptable(st, v, t, hs)
  {
    hide TargetOk, LengthsOk;
  }
}
