/** Every form in which a request line is accepted, and no other: further spaces, a missing version, SOURCE with ICE, and a
    bare line feed. */
module HttpRequestForms {
  import opened Bytes
  import opened HttpTypes
  import opened HttpAct
  import opened HttpMachine
  import opened HttpRuns
  import opened HttpLength
  import opened HttpStatusLine
  import opened HttpStatusForms
  import HttpMethods
  import Line = HttpRequestLine
  import Head = HttpRequestHead
  import UrlGrammar

  /** Spaces, HTTP or ICE, and the version. */
  datatype VersionForm = VersionForm(spaces: seq<byte>, ice: bool, x: byte, y: byte)

  datatype RequestForm = RequestForm(verb: Method, spaces: seq<byte>, target: seq<byte>,
                                       version: Option<VersionForm>, bare: bool)

  const ICE: seq<byte> := ['I' as int, 'C' as int] + ['E' as int, '/' as int]

  const HTTP: seq<byte> := Head.PROTOCOL

  function VersionBody(f: VersionForm): seq<byte> {
    f.spaces + (if f.ice then ICE else HTTP) + ([f.x, '.' as int] + [f.y])
  }

  /** What follows the target, up to the end of the line. */
  function Behind(version: Option<VersionForm>): seq<byte> {
    if version.Some? then [SP] + VersionBody(version.value) else []
  }

  function RequestFormText(f: RequestForm): seq<byte> {
    (HttpMethods.Spelling(f.verb) + [SP]) + (f.spaces + (f.target + (Behind(f.version) + LineEnd(f.bare))))
  }

  predicate VersionFormOk(v: Method, f: VersionForm) {
    AllSpaces(f.spaces) && (f.ice ==> v == SOURCE) && IsNum(f.x) && IsNum(f.y)
  }

  ghost predicate RequestFormOk(f: RequestForm) {
    && AllSpaces(f.spaces) && UrlGrammar.IsTarget(f.target, f.verb == CONNECT)
    && (f.version.Some? ==> VersionFormOk(f.verb, f.version.value))
  }

  /** Without a version the request is one of HTTP/0.9. */
  function MajorOf(f: RequestForm): nat
    requires f.version.Some? ==> IsNum(f.version.value.x)
  {
    if f.version.Some? then DigitOf(f.version.value.x) else 0
  }

  function MinorOf(f: RequestForm): nat
    requires f.version.Some? ==> IsNum(f.version.value.y)
  {
    if f.version.Some? then DigitOf(f.version.value.y) else 9
  }

  // ---------- spaces ----------

  lemma ActMoreSpaces(st: Parser)
    requires st.errno == OK && (st.state == ReqSpacesBeforeUrl || st.state == ReqHttpStart)
    ensures Act(st, SP) == Stay(st)
  {
    hide Lawful, Token, ActHeaders, ActBeforeValue, ActBody, ActChunkHeader, ActStart, ActHeadersAlmostDone, ActHeadersDone,
         ActReqMethod, ActUrl, ActRequestVersion, ActResponseProtocol, ActResponseVersion, ActResponseStatus;
  }

  lemma StepMoreSpaces(m: Machine)
    requires AtStatus(m, m.st.state) && (m.st.state == ReqSpacesBeforeUrl || m.st.state == ReqHttpStart)
    ensures ByteStep(m, SP) == Moved(m, m.st.state)
  {
    hide Act, ByteStep, Plain;
    CountHeader(m.st);
    ActMoreSpaces(Count(m.st));
    StepPlain(m, SP, m.st.state, m.st.httpMajor, m.st.httpMinor, m.st.statusCode);
  }

  lemma {:induction false} RunMoreSpaces(m: Machine, s: seq<byte>)
    requires Alive(m) && m.mark == Closed && m.st.nread + |s| <= MAX_HEADER_SIZE && AllSpaces(s)
    requires m.st.state == ReqSpacesBeforeUrl || m.st.state == ReqHttpStart
    ensures Run(m, s) == Plain(m, m.st.state, m.st.httpMajor, m.st.httpMinor, m.st.statusCode, |s|)
    decreases |s|
  {
    hide Act, ByteStep, Plain;
    var a, b, c := m.st.httpMajor, m.st.httpMinor, m.st.statusCode;
    if s == [] {
      PlainNothing(m);
    } else {
      StepMoreSpaces(m);
      PlainFacts(m, m.st.state, a, b, c, 1);
      RunMoreSpaces(ByteStep(m, s[0]), s[1..]);
      PlainTwice(m, m.st.state, a, b, c, 1, m.st.state, a, b, c, |s| - 1);
    }
  }

  // ---------- the end of the line behind a target ----------

  /** The parser that has taken a target. */
  function TargetOver(m: Machine, t: seq<byte>, s: State, n: nat): Machine {
    m.(st := m.st.(state := s, httpMajor := 0, httpMinor := 9, nread := m.st.nread + n), consumed := m.consumed + n,
       log := m.log + [Data(Part.Url, t)])
  }

  lemma ActTargetLineEnd(st: Parser, ch: byte)
    requires st.errno == OK && InUrl(st.state) && (ch == CR || ch == LF)
    ensures if InUrlPrefix(st.state) then Act(st, ch).st.errno != OK && Act(st, ch).next == Consume
            else Act(st, ch) == Effect(st.(httpMajor := 0, httpMinor := 9,
                                           state := if ch == CR then ReqLineAlmostDone else HeaderFieldStart), Close, Consume)
  {
    hide Lawful, Token, ActHeaders, ActBeforeValue, ActBody, ActChunkHeader, ActStart, ActHeadersAlmostDone, ActHeadersDone,
         ActReqMethod, ActSpacesBeforeUrl, ActRequestProtocol, ActRequestVersion, ActResponseProtocol, ActResponseVersion,
         ActResponseStatus;
  }

  lemma StepTargetLineEnd(m: Machine, ch: byte)
    requires Alive(m) && InUrl(m.st.state) && m.mark.Opened? && m.st.nread < MAX_HEADER_SIZE && (ch == CR || ch == LF)
    ensures if InUrlPrefix(m.st.state) then ByteStep(m, ch).st.errno != OK
            else ByteStep(m, ch) == m.(
              st := m.st.(httpMajor := 0, httpMinor := 9, state := if ch == CR then ReqLineAlmostDone else HeaderFieldStart,
                          nread := m.st.nread + 1),
              mark := Closed, consumed := m.consumed + 1, log := m.log + [Data(m.mark.part, m.mark.bytes)])
  {
    hide Act, ByteStep, ParseUrlChar;
    CountHeader(m.st);
    ActTargetLineEnd(Count(m.st), ch);
    StepConsume(m, ch, Act(Count(m.st), ch));
  }

  /** A target and the octet that ends the line or its last but one. */
  lemma TargetLineEnd(m: Machine, t: seq<byte>, ch: byte)
    requires Line.AtTarget(m, |t| + 1) && Line.IsTargetText(t) && (ch == CR || ch == LF)
    ensures var r := Run(m, t + [ch]);
      if !UrlGrammar.IsTarget(t, m.st.verb == CONNECT) then r.st.errno != OK
      else r == TargetOver(m, t, if ch == CR then ReqLineAlmostDone else HeaderFieldStart, |t| + 1)
  {
    hide Act, ByteStep, ParseUrlChar, Run, InUrl, InUrlPrefix, UrlGrammar.IsTarget, Line.Url.Scan, Line.InTarget, TargetOver;
    UrlGrammar.TargetScan(t, m.st.verb == CONNECT);
    RunSnoc(m, t, ch);
    Line.RunTarget(m, t);
    if Line.Url.Scan(Line.Url.Start(m.st.verb == CONNECT), t) == Dead {
      StepStopped(Run(m, t), ch);
    } else {
      Line.Url.InsideUrl(Line.Url.Start(m.st.verb == CONNECT), t);
      StepTargetOver(m, t, ch);
    }
  }

  lemma StepTargetOver(m: Machine, t: seq<byte>, ch: byte)
    requires Alive(m) && m.mark == Closed && m.st.nread + |t| < MAX_HEADER_SIZE && (ch == CR || ch == LF)
    requires InUrl(Line.Url.Scan(Line.Url.Start(m.st.verb == CONNECT), t))
    ensures if InUrlPrefix(Line.Url.Scan(Line.Url.Start(m.st.verb == CONNECT), t)) then
              ByteStep(Line.InTarget(m, t), ch).st.errno != OK
            else
              var s := if ch == CR then ReqLineAlmostDone else HeaderFieldStart;
              ByteStep(Line.InTarget(m, t), ch) == TargetOver(m, t, s, |t| + 1)
  {
    hide ByteStep, InUrl, InUrlPrefix, Line.Url.Scan;
    StepTargetLineEnd(Line.InTarget(m, t), ch);
  }

  lemma ActLineLf(st: Parser, ch: byte)
    requires st.errno == OK
    ensures st.state == ReqHttpEnd && ch == LF ==> Act(st, ch) == Goto(st, HeaderFieldStart)
    ensures st.state == ReqLineAlmostDone && ch == LF ==> Act(st, ch) == Goto(st, HeaderFieldStart)
  {
    hide Lawful, ActHeaders, ActBeforeValue, ActBody, ActChunkHeader, ActStart, ActResponseProtocol, ActResponseVersion,
         ActResponseStatus, ActHeadersAlmostDone, ActHeadersDone, ActReqMethod, ActSpacesBeforeUrl, ActUrl, ActRequestProtocol;
  }

  lemma StepLineLf(m: Machine)
    requires AtStatus(m, m.st.state) && (m.st.state == ReqHttpEnd || m.st.state == ReqLineAlmostDone)
    ensures ByteStep(m, LF) == Moved(m, HeaderFieldStart)
  {
    hide Act, ByteStep, Plain;
    CountHeader(m.st);
    ActLineLf(Count(m.st), LF);
    StepPlain(m, LF, HeaderFieldStart, m.st.httpMajor, m.st.httpMinor, m.st.statusCode);
  }

  lemma RunLineEnd(m: Machine, bare: bool)
    requires Alive(m) && m.st.state == ReqHttpEnd && m.st.nread + |LineEnd(bare)| <= MAX_HEADER_SIZE && m.mark == Closed
    ensures Run(m, LineEnd(bare)) ==
      Plain(m, HeaderFieldStart, m.st.httpMajor, m.st.httpMinor, m.st.statusCode, |LineEnd(bare)|)
  {
    hide Act, ByteStep, Run, Plain;
    if bare {
      StepLineLf(m);
      RunOne(m, LF);
    } else {
      Head.RunLineEnd(m);
    }
  }

  /** A target at the end of its line. */
  lemma RunTargetLine(m: Machine, t: seq<byte>, bare: bool)
    requires Line.AtTarget(m, |t| + |LineEnd(bare)|) && UrlGrammar.IsTarget(t, m.st.verb == CONNECT)
    ensures Run(m, t + LineEnd(bare)) == TargetOver(m, t, HeaderFieldStart, |t| + |LineEnd(bare)|)
  {
    hide Act, ByteStep, Run, UrlGrammar.IsTarget, Line.IsTargetText;
    Line.TargetPrintable(t, m.st.verb == CONNECT);
    if bare {
      TargetLineEnd(m, t, LF);
    } else {
      TargetLineEnd(m, t, CR);
      assert t + CRLF == t + [CR] + [LF];
      RunSnoc(m, t + [CR], LF);
      StepLineLf(TargetOver(m, t, ReqLineAlmostDone, |t| + 1));
      OverMoved(m, t);
    }
  }

  lemma OverMoved(m: Machine, t: seq<byte>)
    ensures Moved(TargetOver(m, t, ReqLineAlmostDone, |t| + 1), HeaderFieldStart) == TargetOver(m, t, HeaderFieldStart, |t| + 2)
  {
  }

  // ---------- the version ----------

  lemma ActIce(st: Parser, ch: byte)
    requires st.errno == OK
    ensures st.state == ReqHttpStart && st.verb == SOURCE && ch == 'I' as int ==> Act(st, ch) == Goto(st, ReqHttpI)
    ensures st.state == ReqHttpI && ch == 'C' as int ==> Act(st, ch) == Goto(st, ReqHttpIC)
    ensures st.state == ReqHttpIC && ch == 'E' as int ==> Act(st, ch) == Goto(st, ReqHttpHTTP)
  {
    hide Lawful, ActHeaders, ActBeforeValue, ActBody, ActChunkHeader, ActStart, ActResponseProtocol, ActResponseVersion,
         ActResponseStatus, ActHeadersAlmostDone, ActHeadersDone, ActReqMethod, ActSpacesBeforeUrl, ActUrl;
  }

  lemma StepIce(m: Machine, ch: byte)
    requires AtStatus(m, m.st.state)
    ensures m.st.state == ReqHttpStart && m.st.verb == SOURCE && ch == 'I' as int ==> ByteStep(m, ch) == Moved(m, ReqHttpI)
    ensures m.st.state == ReqHttpI && ch == 'C' as int ==> ByteStep(m, ch) == Moved(m, ReqHttpIC)
    ensures m.st.state == ReqHttpIC && ch == 'E' as int ==> ByteStep(m, ch) == Moved(m, ReqHttpHTTP)
  {
    hide Act, ByteStep, Plain;
    if ParsingHeader(m.st.state) {
      CountHeader(m.st);
      ActIce(Count(m.st), ch);
      var a, b, c := m.st.httpMajor, m.st.httpMinor, m.st.statusCode;
      if m.st.state == ReqHttpStart && m.st.verb == SOURCE && ch == 'I' as int {
        StepPlain(m, ch, ReqHttpI, a, b, c);
      } else if m.st.state == ReqHttpI && ch == 'C' as int {
        StepPlain(m, ch, ReqHttpIC, a, b, c);
      } else if m.st.state == ReqHttpIC && ch == 'E' as int {
        StepPlain(m, ch, ReqHttpHTTP, a, b, c);
      }
    }
  }

  lemma VerbKept(m: Machine, s: State, a: nat, b: nat, c: nat, n: nat)
    ensures Plain(m, s, a, b, c, n).st.verb == m.st.verb
  {
  }

  lemma RunIC(m: Machine)
    requires Alive(m) && m.st.state == ReqHttpStart && m.st.verb == SOURCE && m.st.nread + 2 <= MAX_HEADER_SIZE
    requires m.mark == Closed
    ensures Run(m, ['I' as int, 'C' as int]) == Plain(m, ReqHttpIC, m.st.httpMajor, m.st.httpMinor, m.st.statusCode, 2)
  {
    hide Act, ByteStep, Run, Plain;
    var a, b, c := m.st.httpMajor, m.st.httpMinor, m.st.statusCode;
    StepIce(m, 'I' as int);
    PlainFacts(m, ReqHttpI, a, b, c, 1);
    StepIce(Plain(m, ReqHttpI, a, b, c, 1), 'C' as int);
    PlainTwice(m, ReqHttpI, a, b, c, 1, ReqHttpIC, a, b, c, 1);
    RunTwo(m, 'I' as int, 'C' as int);
  }

  lemma RunIce(m: Machine)
    requires Alive(m) && m.st.state == ReqHttpStart && m.st.verb == SOURCE && m.st.nread + 4 <= MAX_HEADER_SIZE
    requires m.mark == Closed
    ensures Run(m, ICE) == Plain(m, ReqHttpMajor, m.st.httpMajor, m.st.httpMinor, m.st.statusCode, 4)
  {
    hide Act, ByteStep, Run, Plain;
    var a, b, c := m.st.httpMajor, m.st.httpMinor, m.st.statusCode;
    RunIC(m);
    PlainFacts(m, ReqHttpIC, a, b, c, 2);
    var r := Plain(m, ReqHttpIC, a, b, c, 2);
    StepIce(r, 'E' as int);
    PlainTwice(m, ReqHttpIC, a, b, c, 2, ReqHttpHTTP, a, b, c, 1);
    PlainFacts(m, ReqHttpHTTP, a, b, c, 3);
    Head.StepStart(Plain(m, ReqHttpHTTP, a, b, c, 3), '/' as int);
    PlainTwice(m, ReqHttpHTTP, a, b, c, 3, ReqHttpMajor, a, b, c, 1);
    RunTwo(r, 'E' as int, '/' as int);
    RunConcat(m, ['I' as int, 'C' as int], ['E' as int, '/' as int]);
  }

  lemma RunXY(m: Machine, x: byte, y: byte)
    requires Alive(m) && m.st.state == ReqHttpMajor && m.st.nread + 3 <= MAX_HEADER_SIZE && m.mark == Closed
    requires IsNum(x) && IsNum(y)
    ensures Run(m, [x, '.' as int] + [y]) == Plain(m, ReqHttpEnd, DigitOf(x), DigitOf(y), m.st.statusCode, 3)
  {
    hide Act, ByteStep, Run, Plain, IsNum, DigitOf;
    var b, c := m.st.httpMinor, m.st.statusCode;
    Head.RunMajorDot(m, x);
    PlainFacts(m, ReqHttpMinor, DigitOf(x), b, c, 2);
    Head.StepDigits(Plain(m, ReqHttpMinor, DigitOf(x), b, c, 2), y);
    PlainTwice(m, ReqHttpMinor, DigitOf(x), b, c, 2, ReqHttpEnd, DigitOf(x), DigitOf(y), c, 1);
    RunSnoc(m, [x, '.' as int], y);
  }

  lemma RunName(m: Machine, ice: bool)
    requires Alive(m) && m.st.state == ReqHttpStart && (ice ==> m.st.verb == SOURCE) && m.mark == Closed
    requires m.st.nread + |if ice then ICE else HTTP| <= MAX_HEADER_SIZE
    ensures var name := if ice then ICE else HTTP;
      Run(m, name) == Plain(m, ReqHttpMajor, m.st.httpMajor, m.st.httpMinor, m.st.statusCode, |name|)
  {
    hide Run, Plain;
    if ice {
      RunIce(m);
    } else {
      Head.RunProtocol(m);
    }
  }

  lemma RunVersionForm(m: Machine, f: VersionForm)
    requires Alive(m) && m.st.state == ReqHttpStart && m.mark == Closed && VersionFormOk(m.st.verb, f)
    requires m.st.nread + |VersionBody(f)| <= MAX_HEADER_SIZE
    ensures Run(m, VersionBody(f)) == Plain(m, ReqHttpEnd, DigitOf(f.x), DigitOf(f.y), m.st.statusCode, |VersionBody(f)|)
  {
    hide Act, ByteStep, Run, Plain, IsNum, DigitOf, AllSpaces;
    var a, b, c := m.st.httpMajor, m.st.httpMinor, m.st.statusCode;
    var name, s := if f.ice then ICE else HTTP, f.spaces;
    RunMoreSpaces(m, s);
    PlainFacts(m, ReqHttpStart, a, b, c, |s|);
    VerbKept(m, ReqHttpStart, a, b, c, |s|);
    RunName(Plain(m, ReqHttpStart, a, b, c, |s|), f.ice);
    PlainTwice(m, ReqHttpStart, a, b, c, |s|, ReqHttpMajor, a, b, c, |name|);
    RunConcat(m, s, name);
    PlainFacts(m, ReqHttpMajor, a, b, c, |s| + |name|);
    RunXY(Plain(m, ReqHttpMajor, a, b, c, |s| + |name|), f.x, f.y);
    PlainTwice(m, ReqHttpMajor, a, b, c, |s| + |name|, ReqHttpEnd, DigitOf(f.x), DigitOf(f.y), c, 3);
    RunConcat(m, s + name, [f.x, '.' as int] + [f.y]);
  }

  // ---------- the whole line ----------

  /** The parser after the whole request line. */
  function FormRead(st: Parser, v: Method, major: nat, minor: nat, n: nat): Parser {
    FreshMessage(st).(kind := Request, verb := v, index := |MethodName(v)| + 1, state := HeaderFieldStart, nread := n,
                      httpMajor := major, httpMinor := minor)
  }

  /** Behind the spaces in front of the target. */
  lemma RunBehindSpaces(m: Machine, f: RequestForm)
    requires Alive(m) && m.st.state == ReqSpacesBeforeUrl && m.mark == Closed && m.st.verb == f.verb && RequestFormOk(f)
    requires m.st.nread + |f.target| + |Behind(f.version)| + |LineEnd(f.bare)| <= MAX_HEADER_SIZE
    ensures var n := |f.target| + |Behind(f.version)| + |LineEnd(f.bare)|;
      Run(m, f.target + (Behind(f.version) + LineEnd(f.bare))) == m.(
        st := m.st.(state := HeaderFieldStart, httpMajor := MajorOf(f), httpMinor := MinorOf(f), nread := m.st.nread + n),
        consumed := m.consumed + n, log := m.log + [Data(Part.Url, f.target)])
  {
    hide Run, Plain, IsNum, DigitOf, AllSpaces, UrlGrammar.IsTarget, VersionBody, Line.IsTargetText, LineEnd;
    LineEndSize(f.bare);
    if f.version.None? {
      assert [] + LineEnd(f.bare) == LineEnd(f.bare);
      RunTargetLine(m, f.target, f.bare);
    } else {
      RunVersioned(m, f);
    }
  }

  lemma RunVersioned(m: Machine, f: RequestForm)
    requires Alive(m) && m.st.state == ReqSpacesBeforeUrl && m.mark == Closed && m.st.verb == f.verb && RequestFormOk(f)
    requires f.version.Some?
    requires m.st.nread + |f.target| + 1 + |VersionBody(f.version.value)| + |LineEnd(f.bare)| <= MAX_HEADER_SIZE
    ensures var n := |f.target| + 1 + |VersionBody(f.version.value)| + |LineEnd(f.bare)|;
      Run(m, f.target + ([SP] + VersionBody(f.version.value) + LineEnd(f.bare))) == m.(
        st := m.st.(state := HeaderFieldStart, httpMajor := DigitOf(f.version.value.x), httpMinor := DigitOf(f.version.value.y),
                    nread := m.st.nread + n),
        consumed := m.consumed + n, log := m.log + [Data(Part.Url, f.target)])
  {
    hide Run, Plain, IsNum, DigitOf, AllSpaces, UrlGrammar.IsTarget, VersionBody, Line.IsTargetText, LineEnd;
    var t, body, end := f.target, VersionBody(f.version.value), LineEnd(f.bare);
    Line.TargetPrintable(t, f.verb == CONNECT);
    Line.TargetExact(m, t);
    var m1 := Run(m, t + [SP]);
    RunVersionEnd(m1, f.version.value, f.bare);
    VersionedAddsUp(m, t, DigitOf(f.version.value.x), DigitOf(f.version.value.y), |body| + |end|);
    RunConcat(m, t + [SP], body + end);
    Regrouped(t, body, end);
  }

  lemma Regrouped(t: seq<byte>, body: seq<byte>, end: seq<byte>)
    ensures t + [SP] + (body + end) == t + ([SP] + body + end)
  {
  }

  lemma RunVersionEnd(m: Machine, f: VersionForm, bare: bool)
    requires Alive(m) && m.st.state == ReqHttpStart && m.mark == Closed && VersionFormOk(m.st.verb, f)
    requires m.st.nread + |VersionBody(f)| + |LineEnd(bare)| <= MAX_HEADER_SIZE
    ensures Run(m, VersionBody(f) + LineEnd(bare))
         == Plain(m, HeaderFieldStart, DigitOf(f.x), DigitOf(f.y), m.st.statusCode, |VersionBody(f)| + |LineEnd(bare)|)
  {
    hide Run, Plain, IsNum, DigitOf, AllSpaces, VersionBody, LineEnd;
    var a, b, c, n := DigitOf(f.x), DigitOf(f.y), m.st.statusCode, |VersionBody(f)|;
    RunVersionForm(m, f);
    PlainFacts(m, ReqHttpEnd, a, b, c, n);
    RunLineEnd(Plain(m, ReqHttpEnd, a, b, c, n), bare);
    PlainTwice(m, ReqHttpEnd, a, b, c, n, HeaderFieldStart, a, b, c, |LineEnd(bare)|);
    RunConcat(m, VersionBody(f), LineEnd(bare));
  }

  lemma VersionedAddsUp(m: Machine, t: seq<byte>, a: nat, b: nat, n: nat)
    ensures var m1 := m.(st := m.st.(state := ReqHttpStart, nread := m.st.nread + |t| + 1), consumed := m.consumed + |t| + 1,
                         log := m.log + [Data(Part.Url, t)]);
      Plain(m1, HeaderFieldStart, a, b, m1.st.statusCode, n) == m.(
        st := m.st.(state := HeaderFieldStart, httpMajor := a, httpMinor := b, nread := m.st.nread + (|t| + 1 + n)),
        consumed := m.consumed + (|t| + 1 + n), log := m.log + [Data(Part.Url, t)])
  {
  }

  lemma FormParts(f: RequestForm)
    ensures |RequestFormText(f)|
         == |MethodName(f.verb)| + 1 + |f.spaces| + |f.target| + |Behind(f.version)| + |LineEnd(f.bare)|
  {
    hide MethodName, HttpMethods.Spelling, Behind, LineEnd;
  }

  /** Every form of the line is read like the plain one. */
  lemma RunRequestForm(m: Machine, f: RequestForm)
    requires Head.AwaitsRequest(m) && RequestFormOk(f) && |RequestFormText(f)| <= MAX_HEADER_SIZE
    ensures var n := |RequestFormText(f)|;
      Run(m, RequestFormText(f)) == m.(
        st := FormRead(m.st, f.verb, MajorOf(f), MinorOf(f), n), consumed := m.consumed + n,
        log := m.log + [MessageBegin, Data(Part.Url, f.target)])
  {
    hide Run, Plain, IsNum, DigitOf, AllSpaces, UrlGrammar.IsTarget, LineEnd, Behind, MajorOf, MinorOf, MethodName,
         HttpMethods.Spelling;
    FormParts(f);
    var name, behind := HttpMethods.Spelling(f.verb) + [SP], f.target + (Behind(f.version) + LineEnd(f.bare));
    Head.RunMethod(m, f.verb);
    AwaitsFacts(m, f.verb);
    var m1 := Run(m, name);
    RunMoreSpaces(m1, f.spaces);
    var a, b, c := m1.st.httpMajor, m1.st.httpMinor, m1.st.statusCode;
    PlainFacts(m1, ReqSpacesBeforeUrl, a, b, c, |f.spaces|);
    VerbKept(m1, ReqSpacesBeforeUrl, a, b, c, |f.spaces|);
    var m2 := Plain(m1, ReqSpacesBeforeUrl, a, b, c, |f.spaces|);
    RunConcat(m1, f.spaces, behind);
    RunConcat(m, name, f.spaces + behind);
    RunBehindSpaces(m2, f);
    FormAddsUp(m, f);
  }

  lemma AwaitsFacts(m: Machine, v: Method)
    requires Head.AwaitsRequest(m)
    ensures var st := Head.MethodRead(m.st, v);
      st.errno == OK && st.state == ReqSpacesBeforeUrl && st.verb == v && st.nread == |MethodName(v)| + 1
    ensures !m.exited && m.mark == Closed
  {
    hide MethodName;
  }

  /** The counters and callbacks of the parts add up. */
  lemma FormAddsUp(m: Machine, f: RequestForm)
    requires Head.AwaitsRequest(m) && (f.version.Some? ==> IsNum(f.version.value.x) && IsNum(f.version.value.y))
    ensures var k, n := |MethodName(f.verb)| + 1, |f.target| + |Behind(f.version)| + |LineEnd(f.bare)|;
      var m1 := m.(st := Head.MethodRead(m.st, f.verb), log := m.log + [MessageBegin], consumed := m.consumed + k);
      var m2 := Plain(m1, ReqSpacesBeforeUrl, m1.st.httpMajor, m1.st.httpMinor, m1.st.statusCode, |f.spaces|);
      m2.(st := m2.st.(state := HeaderFieldStart, httpMajor := MajorOf(f), httpMinor := MinorOf(f), nread := m2.st.nread + n),
          consumed := m2.consumed + n, log := m2.log + [Data(Part.Url, f.target)])
      == m.(st := FormRead(m.st, f.verb, MajorOf(f), MinorOf(f), k + |f.spaces| + n),
            consumed := m.consumed + k + |f.spaces| + n,
            log := m.log + [MessageBegin, Data(Part.Url, f.target)])
  {
    hide MethodName, Behind, LineEnd, IsNum, DigitOf, MajorOf, MinorOf;
    assert m.log + [MessageBegin] + [Data(Part.Url, f.target)] == m.log + [MessageBegin, Data(Part.Url, f.target)];
  }

  // ---------- no other version ----------

  /** The rest of a line behind the target's space, as far as it has been read. */
  datatype Tail = Tail(spaces: seq<byte>, ice: bool, head: seq<byte>, cr: bool)

  function TailText(d: Tail): seq<byte> {
    d.spaces + d.head + Sign(d.cr, CR)
  }

  /** HTTP/x.y has one octet more than ICE/x.y. */
  function TailSize(ice: bool): nat {
    if ice then 7 else 8
  }

  predicate TailAllowed(ice: bool, k: nat, ch: byte) {
    var j := if ice then k + 1 else k;
    if k == 0 then ch == (if ice then 'I' as int else 'H' as int)
    else if j < 4 then ch == (if ice then ICE[k] else HTTP[k])
    else if j == 4 then ch == '/' as int
    else if j == 6 then ch == '.' as int
    else IsNum(ch)
  }

  function NameState(ice: bool, k: nat): State {
    if ice then (if k == 1 then ReqHttpI else if k == 2 then ReqHttpIC else ReqHttpHTTP)
    else if k == 1 then ReqHttpH else if k == 2 then ReqHttpHT else if k == 3 then ReqHttpHTT else ReqHttpHTTP
  }

  function TailState(d: Tail): State {
    var k := |d.head|;
    var j := if d.ice then k + 1 else k;
    if k == 0 then ReqHttpStart
    else if d.cr then ReqLineAlmostDone
    else if j <= 4 then NameState(d.ice, k)
    else if j == 5 then ReqHttpMajor
    else if j == 6 then ReqHttpDot
    else if j == 7 then ReqHttpMinor else ReqHttpEnd
  }

  predicate TailOk(d: Tail, v: Method) {
    && AllSpaces(d.spaces) && (d.ice ==> v == SOURCE && d.head != []) && |d.head| <= TailSize(d.ice)
    && (forall i :: 0 <= i < |d.head| ==> TailAllowed(d.ice, i, d.head[i]))
    && (d.cr ==> |d.head| == TailSize(d.ice))
  }

  function TailExtend(d: Tail, ch: byte): Tail {
    if d.head == [] then
      (if ch == SP then d.(spaces := d.spaces + [ch]) else d.(ice := ch == 'I' as int, head := [ch]))
    else if |d.head| < TailSize(d.ice) then d.(head := d.head + [ch])
    else d.(cr := true)
  }

  predicate TailMay(d: Tail, v: Method, ch: byte) {
    if d.head == [] then ch == SP || ch == 'H' as int || (ch == 'I' as int && v == SOURCE)
    else if |d.head| < TailSize(d.ice) then TailAllowed(d.ice, |d.head|, ch)
    else !d.cr && ch == CR
  }

  lemma TailExtendOk(d: Tail, v: Method, ch: byte)
    requires TailOk(d, v) && TailMay(d, v, ch)
    ensures TailOk(TailExtend(d, ch), v) && TailText(TailExtend(d, ch)) == TailText(d) + [ch]
  {
    hide IsNum;
  }

  lemma ActTailNameRefuses(st: Parser, ch: byte)
    requires st.errno == OK
    ensures st.state == ReqHttpStart && ch != SP && ch != 'H' as int && (ch == 'I' as int ==> st.verb != SOURCE) ==>
      Act(st, ch).st.errno != OK && Act(st, ch).next == Consume
    ensures (st.state == ReqHttpH || st.state == ReqHttpHT) && ch != 'T' as int ==>
      Act(st, ch).st.errno != OK && Act(st, ch).next == Consume
    ensures st.state == ReqHttpHTT && ch != 'P' as int ==> Act(st, ch).st.errno != OK && Act(st, ch).next == Consume
    ensures st.state == ReqHttpI && ch != 'C' as int ==> Act(st, ch).st.errno != OK && Act(st, ch).next == Consume
    ensures st.state == ReqHttpIC && ch != 'E' as int ==> Act(st, ch).st.errno != OK && Act(st, ch).next == Consume
  {
    hide Lawful, Token, ActHeaders, ActBeforeValue, ActBody, ActChunkHeader, ActStart, ActHeadersAlmostDone, ActHeadersDone,
         ActReqMethod, ActSpacesBeforeUrl, ActUrl, ActRequestVersion, ActResponseProtocol, ActResponseVersion,
         ActResponseStatus;
  }

  lemma ActTailVersionRefuses(st: Parser, ch: byte)
    requires st.errno == OK
    ensures st.state == ReqHttpHTTP && ch != '/' as int ==> Act(st, ch).st.errno != OK && Act(st, ch).next == Consume
    ensures (st.state == ReqHttpMajor || st.state == ReqHttpMinor) && !IsNum(ch) ==>
      Act(st, ch).st.errno != OK && Act(st, ch).next == Consume
    ensures st.state == ReqHttpDot && ch != '.' as int ==> Act(st, ch).st.errno != OK && Act(st, ch).next == Consume
    ensures st.state == ReqHttpEnd && ch != CR && ch != LF ==> Act(st, ch).st.errno != OK && Act(st, ch).next == Consume
    ensures st.state == ReqLineAlmostDone && ch != LF ==> Act(st, ch).st.errno != OK && Act(st, ch).next == Consume
  {
    hide Lawful, Token, ActHeaders, ActBeforeValue, ActBody, ActChunkHeader, ActStart, ActHeadersAlmostDone, ActHeadersDone,
         ActReqMethod, ActSpacesBeforeUrl, ActUrl, ActRequestProtocol, ActResponseProtocol, ActResponseVersion,
         ActResponseStatus;
  }

  /** The parser behind it. */
  predicate AtTail(m: Machine, d: Tail, n: nat) {
    Alive(m) && m.mark == Closed && m.st.nread == n + |TailText(d)| && m.st.state == TailState(d)
  }

  /** The parser has moved on by one octet. */
  predicate MovedOn(m: Machine, r: Machine, s: State) {
    Alive(r) && r.mark == Closed && r.st.nread == m.st.nread + 1 && r.st.state == s && r.st.verb == m.st.verb
  }

  lemma PlainMovesOn(m: Machine, s: State, a: nat, b: nat)
    requires Alive(m) && m.mark == Closed
    ensures MovedOn(m, Plain(m, s, a, b, m.st.statusCode, 1), s)
  {
  }

  lemma StepTailName(m: Machine, ch: byte)
    requires AtStatus(m, m.st.state)
    ensures var s, r := m.st.state, ByteStep(m, ch);
      && (s == ReqHttpStart ==>
            if ch == SP then MovedOn(m, r, ReqHttpStart)
            else if ch == 'H' as int then MovedOn(m, r, ReqHttpH)
            else if ch == 'I' as int && m.st.verb == SOURCE then MovedOn(m, r, ReqHttpI) else r.st.errno != OK)
      && (s == ReqHttpH ==> if ch == 'T' as int then MovedOn(m, r, ReqHttpHT) else r.st.errno != OK)
      && (s == ReqHttpHT ==> if ch == 'T' as int then MovedOn(m, r, ReqHttpHTT) else r.st.errno != OK)
      && (s == ReqHttpHTT ==> if ch == 'P' as int then MovedOn(m, r, ReqHttpHTTP) else r.st.errno != OK)
      && (s == ReqHttpI ==> if ch == 'C' as int then MovedOn(m, r, ReqHttpIC) else r.st.errno != OK)
      && (s == ReqHttpIC ==> if ch == 'E' as int then MovedOn(m, r, ReqHttpHTTP) else r.st.errno != OK)
  {
    hide Act, ByteStep, Count, Plain, MovedOn;
    var s := m.st.state;
    if s == ReqHttpStart || s == ReqHttpH || s == ReqHttpHT || s == ReqHttpHTT || s == ReqHttpI || s == ReqHttpIC {
      CountHeader(m.st);
      if s == ReqHttpStart && ch == SP {
        StepMoreSpaces(m);
      }
      Head.StepStart(m, ch);
      StepIce(m, ch);
      forall t: State ensures MovedOn(m, Moved(m, t), t) {
        PlainMovesOn(m, t, m.st.httpMajor, m.st.httpMinor);
      }
      ActTailNameRefuses(Count(m.st), ch);
      if Act(Count(m.st), ch).st.errno != OK && Act(Count(m.st), ch).next == Consume {
        StepFails(m, ch);
      }
    }
  }

  lemma StepTailVersion(m: Machine, ch: byte)
    requires AtStatus(m, m.st.state)
    ensures var s, r := m.st.state, ByteStep(m, ch);
      && (s == ReqHttpHTTP ==> if ch == '/' as int then MovedOn(m, r, ReqHttpMajor) else r.st.errno != OK)
      && (s == ReqHttpMajor ==> if IsNum(ch) then MovedOn(m, r, ReqHttpDot) else r.st.errno != OK)
      && (s == ReqHttpDot ==> if ch == '.' as int then MovedOn(m, r, ReqHttpMinor) else r.st.errno != OK)
      && (s == ReqHttpMinor ==> if IsNum(ch) then MovedOn(m, r, ReqHttpEnd) else r.st.errno != OK)
      && (s == ReqHttpEnd && ch != LF ==> if ch == CR then MovedOn(m, r, ReqLineAlmostDone) else r.st.errno != OK)
      && (s == ReqLineAlmostDone && ch != LF ==> r.st.errno != OK)
  {
    hide Act, ByteStep, Count, Plain, MovedOn, IsNum, DigitOf;
    var s := m.st.state;
    if s == ReqHttpHTTP || s == ReqHttpMajor || s == ReqHttpDot || s == ReqHttpMinor || s == ReqHttpEnd || s == ReqLineAlmostDone {
      CountHeader(m.st);
      Head.StepStart(m, ch);
      Head.StepDigits(m, ch);
      forall t: State ensures MovedOn(m, Moved(m, t), t) {
        PlainMovesOn(m, t, m.st.httpMajor, m.st.httpMinor);
      }
      if IsNum(ch) {
        PlainMovesOn(m, ReqHttpDot, DigitOf(ch), m.st.httpMinor);
        PlainMovesOn(m, ReqHttpEnd, m.st.httpMajor, DigitOf(ch));
      }
      ActTailVersionRefuses(Count(m.st), ch);
      if Act(Count(m.st), ch).st.errno != OK && Act(Count(m.st), ch).next == Consume {
        StepFails(m, ch);
      }
    }
  }

  /** One more octet behind the target. */
  lemma StepTail(m: Machine, d: Tail, n: nat, ch: byte)
    requires TailOk(d, m.st.verb) && AtTail(m, d, n) && ch != LF && m.st.nread < MAX_HEADER_SIZE
    ensures var r := ByteStep(m, ch);
      if TailMay(d, m.st.verb, ch) then AtTail(r, TailExtend(d, ch), n) && r.st.verb == m.st.verb else r.st.errno != OK
  {
    hide ByteStep, TailOk, TailText, TailExtend, TailMay, TailState;
    if TailMay(d, m.st.verb, ch) {
      TailExtendOk(d, m.st.verb, ch);
    }
    TailStateIn(d, m.st.verb);
    if |d.head| + (if d.ice then 1 else 0) < 4 {
      StepNamePart(m, d, n, ch);
    } else {
      StepVersionPart(m, d, n, ch);
    }
  }

  /** What the octet must lead to. */
  predicate Leads(m: Machine, d: Tail, ch: byte) {
    if TailMay(d, m.st.verb, ch) then MovedOn(m, ByteStep(m, ch), TailState(TailExtend(d, ch)))
    else ByteStep(m, ch).st.errno != OK
  }

  lemma StepNamePart(m: Machine, d: Tail, n: nat, ch: byte)
    requires TailOk(d, m.st.verb) && AtTail(m, d, n) && ch != LF && m.st.nread < MAX_HEADER_SIZE && ParsingHeader(TailState(d))
    requires |d.head| + (if d.ice then 1 else 0) < 4
    ensures Leads(m, d, ch)
  {
    hide ByteStep, IsNum, AllSpaces, TailText, MovedOn;
    StepTailName(m, ch);
  }

  lemma StepVersionPart(m: Machine, d: Tail, n: nat, ch: byte)
    requires TailOk(d, m.st.verb) && AtTail(m, d, n) && ch != LF && m.st.nread < MAX_HEADER_SIZE && ParsingHeader(TailState(d))
    requires |d.head| + (if d.ice then 1 else 0) >= 4
    ensures Leads(m, d, ch)
  {
    hide ByteStep, IsNum, AllSpaces, TailText, MovedOn;
    StepTailVersion(m, ch);
  }

  lemma TailStateIn(d: Tail, v: Method)
    requires TailOk(d, v)
    ensures ParsingHeader(TailState(d))
  {
  }

  const NO_VERSION: VersionForm := VersionForm([], false, 0, 0)

  const NO_TAIL: Tail := Tail([], false, [], false)

  /** Every beginning of such a rest that has not been refused is one of the above. */
  lemma {:induction false} Tailed(m: Machine, u: seq<byte>) returns (d: Tail)
    requires Alive(m) && m.mark == Closed && m.st.state == ReqHttpStart && LF !in u && m.st.nread + |u| < MAX_HEADER_SIZE
    requires Run(m, u).st.errno == OK
    ensures TailOk(d, m.st.verb) && AtTail(Run(m, u), d, m.st.nread) && TailText(d) == u && Run(m, u).st.verb == m.st.verb
    decreases |u|
  {
    hide ByteStep, Run, TailOk, TailText, TailExtend, TailMay, TailState;
    if u == [] {
      RunEmpty(m);
      d := NO_TAIL;
      NoTail(m);
    } else {
      var k := |u| - 1;
      var init, ch := u[..k], u[k];
      assert u == init + [ch];
      RunSnoc(m, init, ch);
      var r := Run(m, init);
      if r.st.errno != OK {
        AliveOrNot(r);
        StepStopped(r, ch);
        d := NO_TAIL;
      } else {
        var e := Tailed(m, init);
        StepTail(r, e, m.st.nread, ch);
        TailExtendOk(e, m.st.verb, ch);
        d := TailExtend(e, ch);
      }
    }
  }

  lemma NoTail(m: Machine)
    requires Alive(m) && m.mark == Closed && m.st.state == ReqHttpStart
    ensures TailOk(NO_TAIL, m.st.verb) && AtTail(m, NO_TAIL, m.st.nread) && TailText(NO_TAIL) == []
  {
  }

  /** The version form that such a rest has become at the line feed. */
  lemma TailFound(m: Machine, u: seq<byte>) returns (f: VersionForm, bare: bool)
    requires Alive(m) && m.mark == Closed && m.st.state == ReqHttpStart && LF !in u && m.st.nread + |u| < MAX_HEADER_SIZE
    requires Run(m, u + [LF]).st.errno == OK
    ensures VersionFormOk(m.st.verb, f) && VersionBody(f) + LineEnd(bare) == u + [LF]
  {
    hide ByteStep, Run, TailOk, TailText, TailState, VersionBody, LineEnd, VersionFormOk;
    RunSnoc(m, u, LF);
    var r := Run(m, u);
    if r.st.errno != OK {
      AliveOrNot(r);
      StepStopped(r, LF);
      f, bare := NO_VERSION, false;
    } else {
      var d := Tailed(m, u);
      LineFeedBehind(r, d, m.st.nread);
      f, bare := VersionForm(d.spaces, d.ice, d.head[|d.head| - 3], d.head[|d.head| - 1]), !d.cr;
      TailIsForm(d, m.st.verb);
    }
  }

  lemma LineFeedBehind(m: Machine, d: Tail, n: nat)
    requires TailOk(d, m.st.verb) && AtTail(m, d, n) && m.st.nread < MAX_HEADER_SIZE && ByteStep(m, LF).st.errno == OK
    ensures |d.head| == TailSize(d.ice)
  {
    hide ByteStep, TailText, AllSpaces, IsNum;
    LineFeedIsNoDigit();
    StepTailName(m, LF);
    StepTailVersion(m, LF);
  }

  lemma TailIsForm(d: Tail, v: Method)
    requires TailOk(d, v) && |d.head| == TailSize(d.ice)
    ensures var f := VersionForm(d.spaces, d.ice, d.head[|d.head| - 3], d.head[|d.head| - 1]);
      VersionFormOk(v, f) && VersionBody(f) + LineEnd(!d.cr) == TailText(d) + [LF]
  {
    hide AllSpaces, IsNum;
    TailHead(d);
    assert [CR] + [LF] == CRLF;
  }

  lemma TailHead(d: Tail)
    requires |d.head| == TailSize(d.ice) && forall i :: 0 <= i < |d.head| ==> TailAllowed(d.ice, i, d.head[i])
    ensures var x, y := d.head[|d.head| - 3], d.head[|d.head| - 1];
      IsNum(x) && IsNum(y) && d.head == (if d.ice then ICE else HTTP) + ([x, '.' as int] + [y])
  {
    var h := d.head;
    assert TailAllowed(d.ice, 0, h[0]) && TailAllowed(d.ice, 1, h[1])
        && TailAllowed(d.ice, 2, h[2]) && TailAllowed(d.ice, 3, h[3]);
    assert TailAllowed(d.ice, 4, h[4]) && TailAllowed(d.ice, 5, h[5]) && TailAllowed(d.ice, 6, h[6]);
    assert !d.ice ==> TailAllowed(d.ice, 7, h[7]);
  }

  // ---------- no other line ----------

  /** What stands in front of the first space, and what behind it. */
  lemma {:induction false} BeforeSpace(s: seq<byte>) returns (a: seq<byte>, found: bool, b: seq<byte>)
    ensures SP !in a && s == a + (if found then [SP] + b else []) && (!found ==> b == [])
    decreases |s|
  {
    if s == [] {
      a, found, b := [], false, [];
    } else if s[0] == SP {
      a, found, b := [], true, s[1..];
      assert s == [] + ([SP] + s[1..]);
    } else {
      a, found, b := BeforeSpace(s[1..]);
      assert s == [s[0]] + s[1..];
      a := [s[0]] + a;
    }
  }

  lemma {:induction false} LeadingSpaces(s: seq<byte>) returns (a: seq<byte>, b: seq<byte>)
    ensures s == a + b && AllSpaces(a) && (b != [] ==> b[0] != SP)
    decreases |s|
  {
    if s == [] || s[0] != SP {
      a, b := [], s;
      assert s == [] + s;
    } else {
      a, b := LeadingSpaces(s[1..]);
      assert s == [s[0]] + s[1..];
      a := [s[0]] + a;
    }
  }

  /** What stands in front of the first space or carriage return. */
  lemma {:induction false} BeforeBlank(s: seq<byte>) returns (t: seq<byte>, rest: seq<byte>)
    ensures s == t + rest && (rest != [] ==> rest[0] == SP || rest[0] == CR)
    ensures forall i :: 0 <= i < |t| ==> t[i] != SP && t[i] != CR
    decreases |s|
  {
    if s == [] || s[0] == SP || s[0] == CR {
      t, rest := [], s;
      assert s == [] + s;
    } else {
      t, rest := BeforeBlank(s[1..]);
      assert s == [s[0]] + s[1..];
      t := [s[0]] + t;
    }
  }

  lemma NoLineFeedInName(v: Method, t: seq<byte>)
    requires HttpMethods.Begins(v, t)
    ensures LF !in t
  {
    hide MethodName;
    forall i | 0 <= i < |t| ensures t[i] != LF {
      HttpMethods.LettersVisible(v, i);
    }
  }

  /** A method that ends with the line is refused. */
  lemma NameNeedsSpace(m: Machine, w: seq<byte>)
    requires HttpMethods.AtRequest(m, |w| + 1) && w != [] && SP !in w && w[0] != CR && w[0] != LF
    ensures Run(m, w + [LF]).st.errno != OK
  {
    hide Run, HttpMethods.Begins;
    assert (w + [LF])[0] == w[0] && (w + [LF])[|w|] == LF;
    HttpMethods.RunName(m, w + [LF]);
    var r := Run(m, w + [LF]);
    if r.st.errno == OK {
      NoLineFeedInName(r.st.verb, w + [LF]);
    }
  }

  /** The parser in front of a target, with `n` octets of the line before it. */
  predicate BeforeTarget(m: Machine, n: nat) {
    Alive(m) && m.st.state == ReqSpacesBeforeUrl && m.mark == Closed && m.st.nread + n <= MAX_HEADER_SIZE
  }

  lemma ActNoTarget(st: Parser, ch: byte)
    requires st.errno == OK && st.state == ReqSpacesBeforeUrl && (ch == CR || ch == LF)
    ensures Act(st, ch).st.errno != OK && Act(st, ch).next == Consume
  {
    hide Lawful, Token, ActHeaders, ActBeforeValue, ActBody, ActChunkHeader, ActStart, ActHeadersAlmostDone, ActHeadersDone,
         ActReqMethod, ActUrl, ActRequestProtocol, ActRequestVersion, ActResponseProtocol, ActResponseVersion,
         ActResponseStatus;
  }

  lemma NoTarget(m: Machine, rest: seq<byte>)
    requires BeforeTarget(m, 1) && rest != [] && (rest[0] == CR || rest[0] == LF)
    ensures Run(m, rest).st.errno != OK
  {
    hide Act, ByteStep, Count;
    CountHeader(m.st);
    ActNoTarget(Count(m.st), rest[0]);
    StepFails(m, rest[0]);
    RunStopped(ByteStep(m, rest[0]), rest[1..]);
  }

  /** Behind the carriage return there is only the line feed. */
  lemma OnlyLineFeed(m: Machine, rest: seq<byte>)
    requires AtStatus(m, ReqLineAlmostDone) && rest != [] && rest[0] != LF
    ensures Run(m, rest).st.errno != OK
  {
    hide Act, ByteStep, Count;
    CountHeader(m.st);
    ActTailVersionRefuses(Count(m.st), rest[0]);
    StepFails(m, rest[0]);
    RunStopped(ByteStep(m, rest[0]), rest[1..]);
  }

  lemma OverFacts(m: Machine, t: seq<byte>, s: State, n: nat)
    requires Alive(m) && m.mark == Closed
    ensures var r := TargetOver(m, t, s, n); Alive(r) && r.mark == Closed && r.st.state == s && r.st.nread == m.st.nread + n
  {
  }

  /** The target at the end of its line, or behind it the version. */
  lemma TargetFound(m: Machine, u: seq<byte>) returns (t: seq<byte>, version: Option<VersionForm>, bare: bool)
    requires BeforeTarget(m, |u| + 1) && LF !in u && (u != [] ==> u[0] != SP) && Run(m, u + [LF]).st.errno == OK
    ensures UrlGrammar.IsTarget(t, m.st.verb == CONNECT) && (version.Some? ==> VersionFormOk(m.st.verb, version.value))
    ensures u + [LF] == t + (Behind(version) + LineEnd(bare))
  {
    hide Act, ByteStep, Run, UrlGrammar.IsTarget, VersionFormOk, VersionBody, TargetOver;
    version, bare := None, true;
    var rest;
    t, rest := BeforeBlank(u);
    var all := rest + [LF];
    assert u + [LF] == t + all;
    if t == [] {
      assert u + [LF] == all;
      NoTarget(m, all);
    }
    TextOfTarget(u, t, rest);
    var ch := all[0];
    assert t + all == t + [ch] + all[1..];
    RunConcat(m, t + [ch], all[1..]);
    if ch == SP {
      Line.TargetExact(m, t);
    } else {
      TargetLineEnd(m, t, ch);
    }
    if !UrlGrammar.IsTarget(t, m.st.verb == CONNECT) {
      RunStopped(Run(m, t + [ch]), all[1..]);
    }
    if rest == [] {
      assert [] + [LF] == [LF];
    } else if ch == SP {
      assert all[1..] == rest[1..] + [LF];
      version, bare := VersionFound(m, t, rest[1..]);
      assert all == [SP] + (rest[1..] + [LF]);
    } else {
      bare := false;
      assert all[1..] == rest[1..] + [LF];
      OverFacts(m, t, ReqLineAlmostDone, |t| + 1);
      if rest[1..] != [] {
        assert all[1] == rest[1];
        OnlyLineFeed(TargetOver(m, t, ReqLineAlmostDone, |t| + 1), all[1..]);
      }
      assert all == CRLF;
      assert [] + CRLF == CRLF;
    }
  }

  lemma TextOfTarget(u: seq<byte>, t: seq<byte>, rest: seq<byte>)
    requires u == t + rest && LF !in u && t != [] && forall i :: 0 <= i < |t| ==> t[i] != SP && t[i] != CR
    ensures Line.IsTargetText(t) && (rest != [] ==> LF !in rest[1..])
  {
    forall i | 0 <= i < |t| ensures t[i] != LF {
      assert t[i] == u[i];
    }
    forall i | 0 < i < |rest| ensures rest[i] != LF {
      assert rest[i] == u[|t| + i];
    }
  }

  lemma VersionFound(m: Machine, t: seq<byte>, u: seq<byte>) returns (version: Option<VersionForm>, bare: bool)
    requires BeforeTarget(m, |t| + |u| + 2) && Line.IsTargetText(t) && UrlGrammar.IsTarget(t, m.st.verb == CONNECT) && LF !in u
    requires Run(m, t + [SP] + (u + [LF])).st.errno == OK
    ensures version.Some? && VersionFormOk(m.st.verb, version.value)
    ensures Behind(version) + LineEnd(bare) == [SP] + (u + [LF])
  {
    hide Run, UrlGrammar.IsTarget, VersionFormOk, VersionBody, LineEnd, Line.IsTargetText;
    Line.TargetExact(m, t);
    RunConcat(m, t + [SP], u + [LF]);
    var f;
    f, bare := TailFound(Run(m, t + [SP]), u);
    version := Some(f);
    assert [SP] + VersionBody(f) + LineEnd(bare) == [SP] + (VersionBody(f) + LineEnd(bare));
  }

  /** The target and the rest of a line, behind the spaces. */
  lemma RestFound(m: Machine, u: seq<byte>) returns (spaces: seq<byte>, t: seq<byte>, version: Option<VersionForm>, bare: bool)
    requires BeforeTarget(m, |u| + 1) && LF !in u && Run(m, u + [LF]).st.errno == OK
    ensures UrlGrammar.IsTarget(t, m.st.verb == CONNECT) && (version.Some? ==> VersionFormOk(m.st.verb, version.value))
    ensures AllSpaces(spaces) && u + [LF] == spaces + (t + (Behind(version) + LineEnd(bare)))
  {
    hide Run, Plain, UrlGrammar.IsTarget, VersionFormOk, AllSpaces, Behind, LineEnd;
    var rest;
    spaces, rest := LeadingSpaces(u);
    RunMoreSpaces(m, spaces);
    var a, b, c := m.st.httpMajor, m.st.httpMinor, m.st.statusCode;
    PlainFacts(m, ReqSpacesBeforeUrl, a, b, c, |spaces|);
    VerbKept(m, ReqSpacesBeforeUrl, a, b, c, |spaces|);
    RunConcat(m, spaces, rest + [LF]);
    assert u + [LF] == spaces + (rest + [LF]);
    NotBehind(u, spaces, rest);
    t, version, bare := TargetFound(Run(m, spaces), rest);
  }

  lemma NotBehind(u: seq<byte>, a: seq<byte>, b: seq<byte>)
    requires LF !in u && u == a + b
    ensures LF !in b
  {
    forall i | 0 <= i < |b| ensures b[i] != LF {
      assert b[i] == u[|a| + i];
    }
  }

  /** A line that is taken begins with the name of a method and a space. */
  lemma NameFound(m: Machine, w: seq<byte>) returns (v: Method, u: seq<byte>)
    requires HttpMethods.AtRequest(m, |w| + 1) && w != [] && LF !in w && w[0] != CR && Run(m, w + [LF]).st.errno == OK
    ensures w == HttpMethods.Spelling(v) + [SP] + u && LF !in u
  {
    hide Run, HttpMethods.Spelling;
    var name, found;
    name, found, u := BeforeSpace(w);
    if !found {
      assert w == name;
      NameNeedsSpace(m, w);
    }
    NameFirst(m, w, name, u);
    NotBehind(w, name + [SP], u);
    v := NameIsMethod(m, name, u + [LF]);
  }

  lemma NameFirst(m: Machine, w: seq<byte>, name: seq<byte>, u: seq<byte>)
    requires HttpMethods.AtRequest(m, |w| + 1) && w != [] && w[0] != CR && LF !in w && Run(m, w + [LF]).st.errno == OK
    requires w == name + ([SP] + u)
    ensures name != [] && name[0] == w[0] && name[0] != LF && w + [LF] == name + [SP] + (u + [LF]) && w == name + [SP] + u
  {
    hide Run;
    if name == [] {
      assert w[0] == SP;
      SpaceFirst(m, w + [LF]);
    }
  }

  lemma NameIsMethod(m: Machine, name: seq<byte>, rest: seq<byte>) returns (v: Method)
    requires HttpMethods.AtRequest(m, |name| + 1) && name != [] && SP !in name && name[0] != CR && name[0] != LF
    requires Run(m, name + [SP] + rest).st.errno == OK
    ensures name == HttpMethods.Spelling(v)
  {
    hide Run, HttpMethods.Spelling;
    RunConcat(m, name + [SP], rest);
    HttpMethods.MethodExact(m, name);
    var r := Run(m, name + [SP]);
    if r.st.errno != OK {
      AliveOrNot(r);
      RunStopped(r, rest);
    }
    v := r.st.verb;
  }

  /** What a request line may be taken to pieces into. */
  lemma RequestFound(m: Machine, w: seq<byte>) returns (f: RequestForm)
    requires HttpMethods.AtRequest(m, |w| + 1) && w != [] && LF !in w && w[0] != CR && Run(m, w + [LF]).st.errno == OK
    requires Head.AwaitsRequest(m)
    ensures RequestFormOk(f) && RequestFormText(f) == w + [LF]
  {
    hide Run, HttpMethods.Spelling, UrlGrammar.IsTarget, VersionFormOk, AllSpaces, Behind, LineEnd, MethodName,
         Head.AwaitsRequest, Head.MethodRead;
    var v, u := NameFound(m, w);
    var name := HttpMethods.Spelling(v) + [SP];
    assert w + [LF] == name + (u + [LF]);
    RunConcat(m, name, u + [LF]);
    Head.RunMethod(m, v);
    AwaitsFacts(m, v);
    var r := Run(m, name);
    var spaces, t, version, bare := RestFound(r, u);
    f := RequestForm(v, spaces, t, version, bare);
  }

  lemma SpaceFirst(m: Machine, w: seq<byte>)
    requires HttpMethods.AtRequest(m, 1) && w != [] && w[0] == SP
    ensures Run(m, w).st.errno != OK
  {
    hide ByteStep;
    HttpMethods.StepNoMethod(m, SP);
    RunStopped(ByteStep(m, SP), w[1..]);
  }

  /** A line is taken as a request line if and only if it has one of the forms above. */
  lemma RequestLineExact(m: Machine, w: seq<byte>)
    requires Head.AwaitsRequest(m) && m.st.state == StartReq && w != [] && LF !in w && w[0] != CR && |w| < MAX_HEADER_SIZE
    ensures Run(m, w + [LF]).st.errno == OK <==> exists f: RequestForm :: RequestFormOk(f) && RequestFormText(f) == w + [LF]
  {
    hide Run, RequestFormOk, RequestFormText, Head.AwaitsRequest;
    forall f: RequestForm | RequestFormOk(f) && RequestFormText(f) == w + [LF] ensures Run(m, w + [LF]).st.errno == OK {
      LineTaken(m, f);
    }
    Head.AtStart(m, |w| + 1);
    if Run(m, w + [LF]).st.errno == OK {
      var f := RequestFound(m, w);
    }
  }

  lemma LineTaken(m: Machine, f: RequestForm)
    requires Head.AwaitsRequest(m) && RequestFormOk(f) && |RequestFormText(f)| <= MAX_HEADER_SIZE
    ensures Run(m, RequestFormText(f)).st.errno == OK
  {
    hide Run, RequestFormText, UrlGrammar.IsTarget, MethodName, AllSpaces, IsNum, DigitOf;
    RunRequestForm(m, f);
  }
}
