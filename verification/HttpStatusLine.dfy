/** The status line of a response: `HTTP/x.y code reason CRLF`, for every version, status code and reason. */
module HttpStatusLine {
  import opened Bytes
  import opened HttpTypes
  import opened HttpAct
  import opened HttpMachine
  import opened HttpRuns

  /** A parser that waits for a response, as http_parser_init or a completed message leaves it. */
  predicate Ready(m: Machine) {
    && Alive(m) && m.mark == Closed && m.st.nread == 0
    && ((m.st.state == StartRes && m.st.kind == Response) || (m.st.state == StartReqOrRes && m.st.kind == Both))
    && m.st.verb != CONNECT
  }

  lemma ActProtocol(st: Parser, ch: byte)
    requires st.errno == OK
    ensures (st.state == StartRes || st.state == StartReqOrRes) && ch == 'H' as int ==>
      Act(st, ch) == Effect(FreshMessage(st).(state := if st.state == StartRes then ResH else ResOrRespH),
                            Notify(MessageBegin), Consume)
    ensures st.state == ResOrRespH && ch == 'T' as int ==> Act(st, ch) == Goto(st.(kind := Response), ResHT)
    ensures st.state == ResH && ch == 'T' as int ==> Act(st, ch) == Goto(st, ResHT)
    ensures st.state == ResHT && ch == 'T' as int ==> Act(st, ch) == Goto(st, ResHTT)
    ensures st.state == ResHTT && ch == 'P' as int ==> Act(st, ch) == Goto(st, ResHTTP)
    ensures st.state == ResHTTP && ch == '/' as int ==> Act(st, ch) == Goto(st, ResHttpMajor)
  {
    hide Lawful, Token;
  }

  lemma ActVersion(st: Parser, ch: byte)
    requires st.errno == OK
    ensures st.state == ResHttpMajor && IsNum(ch) ==> Act(st, ch) == Goto(st.(httpMajor := DigitOf(ch)), ResHttpDot)
    ensures st.state == ResHttpDot && ch == '.' as int ==> Act(st, ch) == Goto(st, ResHttpMinor)
    ensures st.state == ResHttpMinor && IsNum(ch) ==> Act(st, ch) == Goto(st.(httpMinor := DigitOf(ch)), ResHttpEnd)
    ensures st.state == ResHttpEnd && ch == SP ==> Act(st, ch) == Goto(st, ResFirstStatusCode)
  {
    hide Lawful, Token;
  }

  lemma ActReason(st: Parser, ch: byte)
    requires st.errno == OK
    ensures st.state == ResStatusStart && ch != CR && ch != LF ==>
      Act(st, ch) == Effect(st.(state := ResStatus, index := 0), Open(Status), Consume)
    ensures st.state == ResStatus && ch != CR && ch != LF ==> Act(st, ch) == Stay(st)
    ensures st.state == ResStatus && ch == CR ==> Act(st, ch) == Effect(st.(state := ResLineAlmostDone), Close, Consume)
    ensures st.state == ResLineAlmostDone && ch == LF ==> Act(st, ch) == Goto(st, HeaderFieldStart)
  {
    hide Lawful, Token;
  }

  lemma StepBegin(m: Machine)
    requires Ready(m)
    ensures ByteStep(m, 'H' as int) == m.(
      st := FreshMessage(m.st).(state := if m.st.state == StartRes then ResH else ResOrRespH, nread := 1),
      log := m.log + [MessageBegin], consumed := m.consumed + 1)
  {
    hide Act, ByteStep;
    CountHeader(m.st);
    ActProtocol(Count(m.st), 'H' as int);
    StepConsume(m, 'H' as int, Act(Count(m.st), 'H' as int));
  }

  /** A header octet that only moves to another state, or sets one of the numbers of the status line. */
  lemma StepPlain(m: Machine, ch: byte, s: State, major: nat, minor: nat, code: nat)
    requires Alive(m) && ParsingHeader(m.st.state) && m.st.nread < MAX_HEADER_SIZE && m.mark == Closed
    requires Act(Count(m.st), ch)
          == Effect(Count(m.st).(state := s, httpMajor := major, httpMinor := minor, statusCode := code), Nothing, Consume)
    ensures ByteStep(m, ch) == Plain(m, s, major, minor, code, 1)
  {
    hide Act, ByteStep;
    CountHeader(m.st);
    StepConsume(m, ch, Act(Count(m.st), ch));
  }

  function Plain(m: Machine, s: State, major: nat, minor: nat, code: nat, n: nat): Machine {
    m.(st := m.st.(state := s, httpMajor := major, httpMinor := minor, statusCode := code, nread := m.st.nread + n),
       consumed := m.consumed + n)
  }

  predicate AtStatus(m: Machine, s: State) {
    Alive(m) && m.st.state == s && m.st.nread < MAX_HEADER_SIZE && m.mark == Closed
  }

  lemma StepVersion(m: Machine, ch: byte)
    requires AtStatus(m, m.st.state)
    ensures m.st.state == ResHttpMajor && IsNum(ch) ==>
      ByteStep(m, ch) == Plain(m, ResHttpDot, DigitOf(ch), m.st.httpMinor, m.st.statusCode, 1)
    ensures m.st.state == ResHttpDot && ch == '.' as int ==>
      ByteStep(m, ch) == Moved(m, ResHttpMinor)
    ensures m.st.state == ResHttpMinor && IsNum(ch) ==>
      ByteStep(m, ch) == Plain(m, ResHttpEnd, m.st.httpMajor, DigitOf(ch), m.st.statusCode, 1)
    ensures m.st.state == ResHttpEnd && ch == SP ==>
      ByteStep(m, ch) == Moved(m, ResFirstStatusCode)
  {
    hide Act, ByteStep, Plain, IsNum, DigitOf;
    if ParsingHeader(m.st.state) {
      CountHeader(m.st);
      ActVersion(Count(m.st), ch);
      if m.st.state == ResHttpMajor && IsNum(ch) {
        StepPlain(m, ch, ResHttpDot, DigitOf(ch), m.st.httpMinor, m.st.statusCode);
      } else if m.st.state == ResHttpDot && ch == '.' as int {
        StepPlain(m, ch, ResHttpMinor, m.st.httpMajor, m.st.httpMinor, m.st.statusCode);
      } else if m.st.state == ResHttpMinor && IsNum(ch) {
        StepPlain(m, ch, ResHttpEnd, m.st.httpMajor, DigitOf(ch), m.st.statusCode);
      } else if m.st.state == ResHttpEnd && ch == SP {
        StepPlain(m, ch, ResFirstStatusCode, m.st.httpMajor, m.st.httpMinor, m.st.statusCode);
      }
    }
  }

  lemma PlainTwice(m: Machine, s1: State, a1: nat, b1: nat, c1: nat, n1: nat, s: State, a: nat, b: nat, c: nat, n: nat)
    ensures Plain(Plain(m, s1, a1, b1, c1, n1), s, a, b, c, n) == Plain(m, s, a, b, c, n1 + n)
  {
  }

  lemma PlainFacts(m: Machine, s: State, a: nat, b: nat, c: nat, n: nat)
    requires Alive(m) && m.mark == Closed
    ensures var r := Plain(m, s, a, b, c, n);
      && Alive(r) && r.mark == Closed && r.st.nread == m.st.nread + n && r.st.state == s
      && r.st.httpMajor == a && r.st.httpMinor == b && r.st.statusCode == c
  {
  }

  lemma RunMajor(m: Machine, x: byte)
    requires Alive(m) && m.st.state == ResHttpMajor && m.st.nread + 2 <= MAX_HEADER_SIZE && m.mark == Closed && IsNum(x)
    ensures Run(m, [x, '.' as int]) == Plain(m, ResHttpMinor, DigitOf(x), m.st.httpMinor, m.st.statusCode, 2)
  {
    hide Act, ByteStep, Run, Plain, IsNum, DigitOf;
    var code, minor := m.st.statusCode, m.st.httpMinor;
    StepVersion(m, x);
    PlainFacts(m, ResHttpDot, DigitOf(x), minor, code, 1);
    StepVersion(Plain(m, ResHttpDot, DigitOf(x), minor, code, 1), '.' as int);
    PlainTwice(m, ResHttpDot, DigitOf(x), minor, code, 1, ResHttpMinor, DigitOf(x), minor, code, 1);
    RunTwo(m, x, '.' as int);
  }

  lemma RunMinor(m: Machine, y: byte)
    requires Alive(m) && m.st.state == ResHttpMinor && m.st.nread + 2 <= MAX_HEADER_SIZE && m.mark == Closed && IsNum(y)
    ensures Run(m, [y, SP]) == Plain(m, ResFirstStatusCode, m.st.httpMajor, DigitOf(y), m.st.statusCode, 2)
  {
    hide Act, ByteStep, Run, Plain, IsNum, DigitOf;
    var code, major := m.st.statusCode, m.st.httpMajor;
    StepVersion(m, y);
    PlainFacts(m, ResHttpEnd, major, DigitOf(y), code, 1);
    StepVersion(Plain(m, ResHttpEnd, major, DigitOf(y), code, 1), SP);
    PlainTwice(m, ResHttpEnd, major, DigitOf(y), code, 1, ResFirstStatusCode, major, DigitOf(y), code, 1);
    RunTwo(m, y, SP);
  }

  /** `x.y` and the space behind it. */
  function VersionCode(x: byte, y: byte): seq<byte> {
    [x, '.' as int] + [y, SP]
  }

  lemma RunVersion(m: Machine, x: byte, y: byte)
    requires Alive(m) && m.st.state == ResHttpMajor && m.st.nread + 4 <= MAX_HEADER_SIZE && m.mark == Closed
    requires IsNum(x) && IsNum(y)
    ensures Run(m, VersionCode(x, y)) == Plain(m, ResFirstStatusCode, DigitOf(x), DigitOf(y), m.st.statusCode, 4)
  {
    hide Act, ByteStep, Run, Plain, IsNum, DigitOf;
    var code, minor := m.st.statusCode, m.st.httpMinor;
    RunMajor(m, x);
    PlainFacts(m, ResHttpMinor, DigitOf(x), minor, code, 2);
    RunMinor(Plain(m, ResHttpMinor, DigitOf(x), minor, code, 2), y);
    PlainTwice(m, ResHttpMinor, DigitOf(x), minor, code, 2, ResFirstStatusCode, DigitOf(x), DigitOf(y), code, 2);
    RunConcat(m, [x, '.' as int], [y, SP]);
  }

  lemma StepProtocol(m: Machine, ch: byte)
    requires AtStatus(m, m.st.state)
    ensures m.st.state == ResHT && ch == 'T' as int ==> ByteStep(m, ch) == Moved(m, ResHTT)
    ensures m.st.state == ResHTT && ch == 'P' as int ==> ByteStep(m, ch) == Moved(m, ResHTTP)
    ensures m.st.state == ResHTTP && ch == '/' as int ==> ByteStep(m, ch) == Moved(m, ResHttpMajor)
  {
    hide Act, ByteStep, Plain;
    if ParsingHeader(m.st.state) {
      CountHeader(m.st);
      ActProtocol(Count(m.st), ch);
      if m.st.state == ResHT && ch == 'T' as int {
        StepPlain(m, ch, ResHTT, m.st.httpMajor, m.st.httpMinor, m.st.statusCode);
      } else if m.st.state == ResHTT && ch == 'P' as int {
        StepPlain(m, ch, ResHTTP, m.st.httpMajor, m.st.httpMinor, m.st.statusCode);
      } else if m.st.state == ResHTTP && ch == '/' as int {
        StepPlain(m, ch, ResHttpMajor, m.st.httpMajor, m.st.httpMinor, m.st.statusCode);
      }
    }
  }

  function Moved(m: Machine, s: State): Machine {
    Plain(m, s, m.st.httpMajor, m.st.httpMinor, m.st.statusCode, 1)
  }

  lemma RunTP(m: Machine)
    requires Alive(m) && m.st.state == ResHT && m.st.nread + 2 <= MAX_HEADER_SIZE && m.mark == Closed
    ensures Run(m, ['T' as int, 'P' as int])
         == Plain(m, ResHTTP, m.st.httpMajor, m.st.httpMinor, m.st.statusCode, 2)
  {
    hide Act, ByteStep, Run, Plain;
    var a, b, c := m.st.httpMajor, m.st.httpMinor, m.st.statusCode;
    StepProtocol(m, 'T' as int);
    PlainFacts(m, ResHTT, a, b, c, 1);
    StepProtocol(Plain(m, ResHTT, a, b, c, 1), 'P' as int);
    PlainTwice(m, ResHTT, a, b, c, 1, ResHTTP, a, b, c, 1);
    RunTwo(m, 'T' as int, 'P' as int);
  }

  lemma RunProtocol(m: Machine)
    requires Alive(m) && m.st.state == ResHT && m.st.nread + 3 <= MAX_HEADER_SIZE && m.mark == Closed
    ensures Run(m, ['T' as int, 'P' as int, '/' as int])
         == Plain(m, ResHttpMajor, m.st.httpMajor, m.st.httpMinor, m.st.statusCode, 3)
  {
    hide Act, ByteStep, Run, Plain;
    var a, b, c := m.st.httpMajor, m.st.httpMinor, m.st.statusCode;
    RunTP(m);
    PlainFacts(m, ResHTTP, a, b, c, 2);
    StepProtocol(Plain(m, ResHTTP, a, b, c, 2), '/' as int);
    PlainTwice(m, ResHTTP, a, b, c, 2, ResHttpMajor, a, b, c, 1);
    RunSnoc(m, ['T' as int, 'P' as int], '/' as int);
    assert ['T' as int, 'P' as int] + ['/' as int] == ['T' as int, 'P' as int, '/' as int];
  }

  lemma ActCode(st: Parser, ch: byte)
    requires st.errno == OK
    ensures st.state == ResFirstStatusCode && IsNum(ch) ==> Act(st, ch) == Goto(st.(statusCode := DigitOf(ch)), ResStatusCode)
    ensures st.state == ResStatusCode && IsNum(ch) && st.statusCode < 100 ==>
      Act(st, ch) == Stay(st.(statusCode := st.statusCode * 10 + DigitOf(ch)))
    ensures st.state == ResStatusCode && ch == SP ==> Act(st, ch) == Goto(st, ResStatusStart)
  {
    hide Lawful, Token;
  }

  lemma StepFirstDigit(m: Machine, ch: byte)
    requires AtStatus(m, ResFirstStatusCode) && IsNum(ch)
    ensures ByteStep(m, ch) == Plain(m, ResStatusCode, m.st.httpMajor, m.st.httpMinor, DigitOf(ch), 1)
  {
    hide Act, ByteStep, Plain, IsNum, DigitOf;
    CountHeader(m.st);
    ActCode(Count(m.st), ch);
    StepPlain(m, ch, ResStatusCode, m.st.httpMajor, m.st.httpMinor, DigitOf(ch));
  }

  lemma StepDigit(m: Machine, ch: byte)
    requires AtStatus(m, ResStatusCode) && IsNum(ch) && m.st.statusCode < 100
    ensures ByteStep(m, ch) == Plain(m, ResStatusCode, m.st.httpMajor, m.st.httpMinor, m.st.statusCode * 10 + DigitOf(ch), 1)
  {
    hide Act, ByteStep, Plain, IsNum, DigitOf;
    CountHeader(m.st);
    ActCode(Count(m.st), ch);
    StepPlain(m, ch, ResStatusCode, m.st.httpMajor, m.st.httpMinor, m.st.statusCode * 10 + DigitOf(ch));
  }

  lemma StepCodeEnd(m: Machine)
    requires AtStatus(m, ResStatusCode)
    ensures ByteStep(m, SP) == Moved(m, ResStatusStart)
  {
    hide Act, ByteStep, Plain;
    CountHeader(m.st);
    ActCode(Count(m.st), SP);
    StepPlain(m, SP, ResStatusStart, m.st.httpMajor, m.st.httpMinor, m.st.statusCode);
  }

  lemma RunTwoDigits(m: Machine, x: byte, y: byte)
    requires Alive(m) && m.st.state == ResFirstStatusCode && m.st.nread + 2 <= MAX_HEADER_SIZE && m.mark == Closed
    requires IsNum(x) && IsNum(y)
    ensures Run(m, [x, y]) == Plain(m, ResStatusCode, m.st.httpMajor, m.st.httpMinor, DigitOf(x) * 10 + DigitOf(y), 2)
  {
    hide Act, ByteStep, Run, Plain;
    var a, b := m.st.httpMajor, m.st.httpMinor;
    StepFirstDigit(m, x);
    PlainFacts(m, ResStatusCode, a, b, DigitOf(x), 1);
    StepDigit(Plain(m, ResStatusCode, a, b, DigitOf(x), 1), y);
    PlainTwice(m, ResStatusCode, a, b, DigitOf(x), 1, ResStatusCode, a, b, DigitOf(x) * 10 + DigitOf(y), 1);
    RunTwo(m, x, y);
  }

  lemma RunLastDigit(m: Machine, z: byte)
    requires Alive(m) && m.st.state == ResStatusCode && m.st.statusCode < 100 && IsNum(z)
    requires m.st.nread + 2 <= MAX_HEADER_SIZE && m.mark == Closed
    ensures Run(m, [z, SP])
         == Plain(m, ResStatusStart, m.st.httpMajor, m.st.httpMinor, m.st.statusCode * 10 + DigitOf(z), 2)
  {
    hide Act, ByteStep, Run, Plain;
    var a, b, c := m.st.httpMajor, m.st.httpMinor, m.st.statusCode * 10 + DigitOf(z);
    StepDigit(m, z);
    PlainFacts(m, ResStatusCode, a, b, c, 1);
    StepCodeEnd(Plain(m, ResStatusCode, a, b, c, 1));
    PlainTwice(m, ResStatusCode, a, b, c, 1, ResStatusStart, a, b, c, 1);
    RunTwo(m, z, SP);
  }

  /** A status code as it is written, in three digits, and the space behind it. */
  function CodeText(code: nat): (s: seq<byte>)
    requires code < 1000
  {
    [code / 100 + '0' as int, code / 10 % 10 + '0' as int] + [code % 10 + '0' as int, SP]
  }

  lemma ThreeDigits(code: nat)
    requires code < 1000
    ensures (code / 100 * 10 + code / 10 % 10) * 10 + code % 10 == code && code / 100 < 10
    ensures code / 100 * 10 + code / 10 % 10 < 100
  {
  }

  lemma RunCode(m: Machine, code: nat)
    requires Alive(m) && m.st.state == ResFirstStatusCode && m.st.nread + 4 <= MAX_HEADER_SIZE && m.mark == Closed
    requires code < 1000
    ensures Run(m, CodeText(code)) == Plain(m, ResStatusStart, m.st.httpMajor, m.st.httpMinor, code, 4)
  {
    hide Act, ByteStep, Run, Plain;
    var a, b := m.st.httpMajor, m.st.httpMinor;
    var x, y, z := code / 100 + '0' as int, code / 10 % 10 + '0' as int, code % 10 + '0' as int;
    ThreeDigits(code);
    var tens := DigitOf(x) * 10 + DigitOf(y);
    RunTwoDigits(m, x, y);
    PlainFacts(m, ResStatusCode, a, b, tens, 2);
    RunLastDigit(Plain(m, ResStatusCode, a, b, tens, 2), z);
    PlainTwice(m, ResStatusCode, a, b, tens, 2, ResStatusStart, a, b, code, 2);
    RunConcat(m, [x, y], [z, SP]);
  }

  lemma StepPhraseStart(m: Machine, ch: byte)
    requires AtStatus(m, ResStatusStart) && ch != CR && ch != LF
    ensures ByteStep(m, ch) == m.(st := m.st.(state := ResStatus, index := 0, nread := m.st.nread + 1),
                                  mark := Opened(Status, [ch]), consumed := m.consumed + 1)
  {
    hide Act, ByteStep;
    CountHeader(m.st);
    ActReason(Count(m.st), ch);
    StepConsume(m, ch, Act(Count(m.st), ch));
    assert [] + [ch] == [ch];
  }

  lemma StepPhrase(m: Machine, ch: byte)
    requires Alive(m) && m.st.nread < MAX_HEADER_SIZE && m.st.state == ResStatus && m.mark.Opened? && ch != CR && ch != LF
    ensures ByteStep(m, ch) == m.(st := m.st.(nread := m.st.nread + 1), consumed := m.consumed + 1,
                                  mark := m.mark.(bytes := m.mark.bytes + [ch]))
  {
    hide Act, ByteStep;
    CountHeader(m.st);
    ActReason(Count(m.st), ch);
    StepConsume(m, ch, Act(Count(m.st), ch));
  }

  lemma StepPhraseCr(m: Machine)
    requires Alive(m) && m.st.nread < MAX_HEADER_SIZE && m.st.state == ResStatus && m.mark.Opened?
    ensures ByteStep(m, CR) == m.(st := m.st.(state := ResLineAlmostDone, nread := m.st.nread + 1), mark := Closed,
                                  log := m.log + [Data(m.mark.part, m.mark.bytes)], consumed := m.consumed + 1)
  {
    hide Act, ByteStep;
    CountHeader(m.st);
    ActReason(Count(m.st), CR);
    StepConsume(m, CR, Act(Count(m.st), CR));
  }

  lemma StepLineLf(m: Machine)
    requires AtStatus(m, ResLineAlmostDone)
    ensures ByteStep(m, LF) == m.(st := m.st.(state := HeaderFieldStart, nread := m.st.nread + 1), consumed := m.consumed + 1)
  {
    hide Act, ByteStep;
    CountHeader(m.st);
    ActReason(Count(m.st), LF);
    StepConsume(m, LF, Act(Count(m.st), LF));
  }

  lemma {:induction false} RunPhrase(m: Machine, s: seq<byte>)
    requires Alive(m) && m.st.state == ResStatus && m.mark.Opened? && NoLineEnd(s) && m.st.nread + |s| <= MAX_HEADER_SIZE
    ensures Run(m, s) == m.(st := m.st.(nread := m.st.nread + |s|), consumed := m.consumed + |s|,
                            mark := m.mark.(bytes := m.mark.bytes + s))
    decreases |s|
  {
    hide Act, ByteStep;
    if s == [] {
      assert m.mark.bytes + s == m.mark.bytes;
    } else {
      StepPhrase(m, s[0]);
      RunPhrase(ByteStep(m, s[0]), s[1..]);
      assert m.mark.bytes + [s[0]] + s[1..] == m.mark.bytes + s;
    }
  }

  lemma RunPhraseEnd(m: Machine)
    requires Alive(m) && m.st.state == ResStatus && m.st.nread + 2 <= MAX_HEADER_SIZE && m.mark.Opened?
    ensures Run(m, CRLF) == m.(
      st := m.st.(state := HeaderFieldStart, nread := m.st.nread + 2), mark := Closed,
      consumed := m.consumed + 2, log := m.log + [Data(m.mark.part, m.mark.bytes)])
  {
    hide Act, ByteStep, Run;
    StepPhraseCr(m);
    StepLineLf(ByteStep(m, CR));
    RunCrlf(m);
  }

  /** An empty reason is delivered as one too. */
  lemma StepNoPhrase(m: Machine)
    requires Alive(m) && m.st.state == ResStatusStart && m.mark == Closed && m.st.nread < MAX_HEADER_SIZE
    ensures ByteStep(m, CR) == m.(
      st := m.st.(state := ResLineAlmostDone, index := 0, nread := m.st.nread + 1), consumed := m.consumed + 1,
      log := m.log + [Data(Status, [])])
  {
    hide Act, ByteStep, Dispatch;
    CountHeader(m.st);
    StepCounting(m, CR);
    DispatchNoPhrase(m.(st := Count(m.st)));
  }

  lemma DispatchNoPhrase(m: Machine)
    requires m.st.errno == OK && m.st.state == ResStatusStart && m.mark == Closed && !m.exited
    ensures Dispatch(m, CR) == m.(st := m.st.(state := ResLineAlmostDone, index := 0), log := m.log + [Data(Status, [])])
  {
    hide Act, Dispatch;
    ActEmptyReason(m.st);
    DispatchOnce(m, CR, Act(m.st, CR));
    var m1 := m.(st := m.st.(state := ResStatus, index := 0), mark := Opened(Status, []));
    ActReason(m1.st, CR);
    DispatchOnce(m1, CR, Act(m1.st, CR));
  }

  lemma ActEmptyReason(st: Parser)
    requires st.errno == OK && st.state == ResStatusStart
    ensures Act(st, CR) == Effect(st.(state := ResStatus, index := 0), Open(Status), Again)
  {
    hide Lawful, Token;
  }

  lemma RunNoReason(m: Machine)
    requires Alive(m) && m.st.state == ResStatusStart && m.st.nread + 2 <= MAX_HEADER_SIZE && m.mark == Closed
    ensures Run(m, CRLF) == m.(
      st := m.st.(state := HeaderFieldStart, index := 0, nread := m.st.nread + 2), consumed := m.consumed + 2,
      log := m.log + [Data(Status, [])])
  {
    hide Act, ByteStep, Run;
    StepNoPhrase(m);
    StepLineLf(ByteStep(m, CR));
    RunCrlf(m);
  }

  lemma RunReasonText(m: Machine, reason: seq<byte>)
    requires Alive(m) && m.st.state == ResStatusStart && m.mark == Closed && NoLineEnd(reason) && reason != []
    requires m.st.nread + |reason| <= MAX_HEADER_SIZE
    ensures Run(m, reason) == InPhrase(m, reason)
  {
    hide Act, ByteStep;
    StepPhraseStart(m, reason[0]);
    RunPhrase(ByteStep(m, reason[0]), reason[1..]);
    assert [reason[0]] + reason[1..] == reason;
  }

  lemma RunReason(m: Machine, reason: seq<byte>)
    requires Alive(m) && m.st.state == ResStatusStart && m.mark == Closed && NoLineEnd(reason)
    requires m.st.nread + |reason| + 2 <= MAX_HEADER_SIZE
    ensures Run(m, reason + CRLF) == m.(
      st := m.st.(state := HeaderFieldStart, index := 0, nread := m.st.nread + |reason| + 2),
      consumed := m.consumed + |reason| + 2, log := m.log + [Data(Status, reason)])
  {
    hide Run, NoLineEnd;
    if reason == [] {
      assert reason + CRLF == CRLF;
      RunNoReason(m);
    } else {
      RunSomeReason(m, reason);
    }
  }

  lemma RunSomeReason(m: Machine, reason: seq<byte>)
    requires Alive(m) && m.st.state == ResStatusStart && m.mark == Closed && NoLineEnd(reason) && reason != []
    requires m.st.nread + |reason| + 2 <= MAX_HEADER_SIZE
    ensures Run(m, reason + CRLF) == m.(
      st := m.st.(state := HeaderFieldStart, index := 0, nread := m.st.nread + |reason| + 2),
      consumed := m.consumed + |reason| + 2, log := m.log + [Data(Status, reason)])
  {
    hide Run, NoLineEnd, InPhrase;
    RunReasonText(m, reason);
    PhraseFacts(m, reason);
    RunPhraseEnd(InPhrase(m, reason));
    RunConcat(m, reason, CRLF);
  }

  /** The parser inside the reason. */
  function InPhrase(m: Machine, reason: seq<byte>): Machine {
    m.(st := m.st.(state := ResStatus, index := 0, nread := m.st.nread + |reason|),
       consumed := m.consumed + |reason|, mark := Opened(Status, reason))
  }

  lemma PhraseFacts(m: Machine, reason: seq<byte>)
    requires Alive(m) && m.mark == Closed
    ensures var r := InPhrase(m, reason);
      && Alive(r) && r.st.state == ResStatus && r.st.nread == m.st.nread + |reason| && r.mark.Opened?
      && r.(st := r.st.(state := HeaderFieldStart, nread := r.st.nread + 2), mark := Closed, consumed := r.consumed + 2,
            log := r.log + [Data(r.mark.part, r.mark.bytes)])
      == m.(st := m.st.(state := HeaderFieldStart, index := 0, nread := m.st.nread + |reason| + 2),
            consumed := m.consumed + |reason| + 2, log := m.log + [Data(Status, reason)])
  {
  }

  // ---------- the whole line ----------

  const ONE: byte := '1' as int

  function StatusLine(x: byte, y: byte, code: nat, reason: seq<byte>): (s: seq<byte>)
    requires code < 1000
    ensures |s| == 15 + |reason|
  {
    (['H' as int, 'T' as int] + ['T' as int, 'P' as int, '/' as int]) + (VersionCode(x, y) + CodeText(code)) + (reason + CRLF)
  }

  /** The parser after the whole status line. */
  function StatusRead(st: Parser, x: byte, y: byte, code: nat, n: nat): Parser
    requires IsNum(x) && IsNum(y)
  {
    FreshMessage(st).(kind := Response, state := HeaderFieldStart, index := 0, nread := n,
                      httpMajor := DigitOf(x), httpMinor := DigitOf(y), statusCode := code)
  }

  lemma StepHT(m: Machine)
    requires Ready(m)
    ensures Run(m, ['H' as int, 'T' as int]) == m.(
      st := FreshMessage(m.st).(kind := Response, state := ResHT, nread := 2),
      log := m.log + [MessageBegin], consumed := m.consumed + 2)
  {
    hide Act, ByteStep, Run;
    StepBegin(m);
    StepSecond(ByteStep(m, 'H' as int));
    RunTwo(m, 'H' as int, 'T' as int);
  }

  lemma StepSecond(m: Machine)
    requires Alive(m) && m.st.nread < MAX_HEADER_SIZE && m.mark == Closed
    requires m.st.state == ResOrRespH || m.st.state == ResH
    ensures ByteStep(m, 'T' as int) == m.(
      st := m.st.(kind := if m.st.state == ResH then m.st.kind else Response, state := ResHT, nread := m.st.nread + 1),
      consumed := m.consumed + 1)
  {
    hide Act, ByteStep;
    CountHeader(m.st);
    ActProtocol(Count(m.st), 'T' as int);
    StepConsume(m, 'T' as int, Act(Count(m.st), 'T' as int));
  }

  lemma RunNumbers(m: Machine, x: byte, y: byte, code: nat)
    requires Alive(m) && m.st.state == ResHttpMajor && m.st.nread + 8 <= MAX_HEADER_SIZE && m.mark == Closed
    requires IsNum(x) && IsNum(y) && code < 1000
    ensures Run(m, VersionCode(x, y) + CodeText(code)) == Plain(m, ResStatusStart, DigitOf(x), DigitOf(y), code, 8)
  {
    hide Act, ByteStep, Run, Plain, CodeText, VersionCode, IsNum, DigitOf;
    var a, b, c := DigitOf(x), DigitOf(y), m.st.statusCode;
    RunVersion(m, x, y);
    PlainFacts(m, ResFirstStatusCode, a, b, c, 4);
    RunCode(Plain(m, ResFirstStatusCode, a, b, c, 4), code);
    PlainTwice(m, ResFirstStatusCode, a, b, c, 4, ResStatusStart, a, b, code, 4);
    RunConcat(m, VersionCode(x, y), CodeText(code));
  }

  lemma RunProtocolName(m: Machine)
    requires Ready(m)
    ensures Run(m, ['H' as int, 'T' as int] + ['T' as int, 'P' as int, '/' as int]) == m.(
      st := FreshMessage(m.st).(kind := Response, state := ResHttpMajor, nread := 5),
      log := m.log + [MessageBegin], consumed := m.consumed + 5)
  {
    hide Act, ByteStep, Run;
    StepHT(m);
    RunProtocol(Run(m, ['H' as int, 'T' as int]));
    RunConcat(m, ['H' as int, 'T' as int], ['T' as int, 'P' as int, '/' as int]);
  }

  /** The whole status line, read by a fresh or reused parser: the version, the code and the reason are what it says. */
  lemma RunStatusLine(m: Machine, x: byte, y: byte, code: nat, reason: seq<byte>)
    requires Ready(m) && IsNum(x) && IsNum(y) && code < 1000 && NoLineEnd(reason)
    requires |StatusLine(x, y, code, reason)| <= MAX_HEADER_SIZE
    ensures var n := |StatusLine(x, y, code, reason)|;
      Run(m, StatusLine(x, y, code, reason)) == m.(
        st := StatusRead(m.st, x, y, code, n), consumed := m.consumed + n, log := m.log + [MessageBegin, Data(Status, reason)])
  {
    hide Act, ByteStep, Run, CodeText, VersionCode, IsNum, DigitOf;
    var a := ['H' as int, 'T' as int] + ['T' as int, 'P' as int, '/' as int];
    var b := VersionCode(x, y) + CodeText(code);
    RunProtocolName(m);
    RunNumbers(Run(m, a), x, y, code);
    RunConcat(m, a, b);
    RunReason(Run(m, a + b), reason);
    RunConcat(m, a + b, reason + CRLF);
    assert m.log + [MessageBegin] + [Data(Status, reason)] == m.log + [MessageBegin, Data(Status, reason)];
  }
}
