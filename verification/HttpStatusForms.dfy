/** Every form in which the status line of a response is accepted, and no other: further spaces in front of the code, any
    number of its digits, a missing reason, and a bare line feed. */
module HttpStatusForms {
  import opened Bytes
  import opened HttpTypes
  import opened HttpAct
  import opened HttpMachine
  import opened HttpRuns
  import opened HttpLength
  import opened HttpStatusLine

  /** HTTP/x.y, a space and more of them, the code, and a space with the reason. */
  datatype StatusForm = StatusForm(x: byte, y: byte, spaces: seq<byte>, code: seq<byte>, reason: Option<seq<byte>>, bare: bool)

  const PROTOCOL: seq<byte> := ['H' as int, 'T' as int] + ['T' as int, 'P' as int, '/' as int]

  function LineEnd(bare: bool): seq<byte> {
    if bare then [LF] else CRLF
  }

  function ReasonPart(reason: Option<seq<byte>>): seq<byte> {
    if reason.Some? then [SP] + reason.value else []
  }

  /** The line without its end. */
  function FormBody(f: StatusForm): seq<byte> {
    PROTOCOL + VersionCode(f.x, f.y) + f.spaces + f.code + ReasonPart(f.reason)
  }

  function FormText(f: StatusForm): seq<byte> {
    FormBody(f) + LineEnd(f.bare)
  }

  predicate FormOk(f: StatusForm) {
    && IsNum(f.x) && IsNum(f.y) && AllSpaces(f.spaces)
    && f.code != [] && IsDecimal(f.code) && DecimalFrom(0, f.code) <= 999
    && (f.reason.Some? ==> NoLineEnd(f.reason.value))
  }

  function ReasonOf(f: StatusForm): seq<byte> {
    if f.reason.Some? then f.reason.value else []
  }

  // ---------- the code ----------

  lemma ActSpaceBefore(st: Parser)
    requires st.errno == OK && st.state == ResFirstStatusCode
    ensures Act(st, SP) == Stay(st)
  {
    hide Lawful, Token;
  }

  lemma StepSpaceBefore(m: Machine)
    requires AtStatus(m, ResFirstStatusCode)
    ensures ByteStep(m, SP) == Moved(m, ResFirstStatusCode)
  {
    hide Act, ByteStep, Plain;
    CountHeader(m.st);
    ActSpaceBefore(Count(m.st));
    StepPlain(m, SP, ResFirstStatusCode, m.st.httpMajor, m.st.httpMinor, m.st.statusCode);
  }

  lemma {:induction false} RunSpaces(m: Machine, s: seq<byte>)
    requires Alive(m) && m.st.state == ResFirstStatusCode && m.st.nread + |s| <= MAX_HEADER_SIZE && m.mark == Closed
    requires AllSpaces(s)
    ensures Run(m, s) == Plain(m, ResFirstStatusCode, m.st.httpMajor, m.st.httpMinor, m.st.statusCode, |s|)
    decreases |s|
  {
    hide Act, ByteStep, Plain;
    var a, b, c := m.st.httpMajor, m.st.httpMinor, m.st.statusCode;
    if s == [] {
      PlainNothing(m);
    } else {
      StepSpaceBefore(m);
      PlainFacts(m, ResFirstStatusCode, a, b, c, 1);
      RunSpaces(ByteStep(m, s[0]), s[1..]);
      PlainTwice(m, ResFirstStatusCode, a, b, c, 1, ResFirstStatusCode, a, b, c, |s| - 1);
    }
  }

  lemma PlainNothing(m: Machine)
    ensures Plain(m, m.st.state, m.st.httpMajor, m.st.httpMinor, m.st.statusCode, 0) == m
  {
  }

  lemma {:induction false} RunDigits(m: Machine, s: seq<byte>)
    requires Alive(m) && m.st.state == ResStatusCode && m.st.nread + |s| <= MAX_HEADER_SIZE && m.mark == Closed
    requires IsDecimal(s) && DecimalFrom(m.st.statusCode, s) <= 999
    ensures Run(m, s) == Plain(m, ResStatusCode, m.st.httpMajor, m.st.httpMinor, DecimalFrom(m.st.statusCode, s), |s|)
    decreases |s|
  {
    hide Act, ByteStep, Plain, IsNum;
    var a, b, c := m.st.httpMajor, m.st.httpMinor, m.st.statusCode;
    if s == [] {
      PlainNothing(m);
    } else {
      var d := c * 10 + DigitOf(s[0]);
      StepDigit(m, s[0]);
      PlainFacts(m, ResStatusCode, a, b, d, 1);
      RunDigits(ByteStep(m, s[0]), s[1..]);
      PlainTwice(m, ResStatusCode, a, b, d, 1, ResStatusCode, a, b, DecimalFrom(d, s[1..]), |s| - 1);
    }
  }

  lemma RunCodeText(m: Machine, s: seq<byte>)
    requires Alive(m) && m.st.state == ResFirstStatusCode && m.st.nread + |s| <= MAX_HEADER_SIZE && m.mark == Closed
    requires s != [] && IsDecimal(s) && DecimalFrom(0, s) <= 999
    ensures Run(m, s) == Plain(m, ResStatusCode, m.st.httpMajor, m.st.httpMinor, DecimalFrom(0, s), |s|)
  {
    hide Act, ByteStep, Plain, IsNum;
    var a, b := m.st.httpMajor, m.st.httpMinor;
    StepFirstDigit(m, s[0]);
    PlainFacts(m, ResStatusCode, a, b, DigitOf(s[0]), 1);
    RunDigits(ByteStep(m, s[0]), s[1..]);
    PlainTwice(m, ResStatusCode, a, b, DigitOf(s[0]), 1, ResStatusCode, a, b, DecimalFrom(0, s), |s| - 1);
  }

  // ---------- the end of the line ----------

  lemma ActCodeLineEnd(st: Parser, ch: byte)
    requires st.errno == OK && st.state == ResStatusCode && (ch == CR || ch == LF)
    ensures Act(st, ch) == Effect(st.(state := ResStatusStart), Nothing, Again)
  {
    hide Lawful, Token;
  }

  lemma DispatchCodeLineEnd(c: Machine, ch: byte)
    requires c.st.errno == OK && c.st.state == ResStatusCode && (ch == CR || ch == LF)
    ensures Dispatch(c, ch) == Dispatch(c.(st := c.st.(state := ResStatusStart)), ch)
  {
    hide Act, Dispatch;
    ActCodeLineEnd(c.st, ch);
    DispatchOnce(c, ch, Act(c.st, ch));
  }

  lemma CodeCounted(m: Machine)
    requires AtStatus(m, ResStatusCode)
    ensures var c, d := m.(st := Count(m.st)), m.(st := m.st.(state := ResStatusStart));
      && c.st.errno == OK && c.st.state == ResStatusCode && Alive(d) && Count(d.st).errno == OK
      && c.(st := c.st.(state := ResStatusStart)) == d.(st := Count(d.st))
  {
    CountHeader(m.st);
    CountHeader(m.st.(state := ResStatusStart));
  }

  /** Without a reason the line ends as it does behind the space of an empty one. */
  lemma StepCodeLineEnd(m: Machine, ch: byte)
    requires AtStatus(m, ResStatusCode) && (ch == CR || ch == LF)
    ensures ByteStep(m, ch) == ByteStep(m.(st := m.st.(state := ResStatusStart)), ch)
  {
    hide Act, ByteStep, Dispatch, Advance, Count;
    var d := m.(st := m.st.(state := ResStatusStart));
    CodeCounted(m);
    StepCounting(m, ch);
    StepCounting(d, ch);
    DispatchCodeLineEnd(m.(st := Count(m.st)), ch);
  }

  lemma ActStatusLf(st: Parser)
    requires st.errno == OK
    ensures st.state == ResStatusStart ==> Act(st, LF) == Effect(st.(state := ResStatus, index := 0), Open(Status), Again)
    ensures st.state == ResStatus ==> Act(st, LF) == Effect(st.(state := HeaderFieldStart), Close, Consume)
  {
    hide Lawful, Token;
  }

  lemma StepPhraseLf(m: Machine)
    requires Alive(m) && m.st.nread < MAX_HEADER_SIZE && m.st.state == ResStatus && m.mark.Opened?
    ensures ByteStep(m, LF) == m.(st := m.st.(state := HeaderFieldStart, nread := m.st.nread + 1), mark := Closed,
                                  log := m.log + [Data(m.mark.part, m.mark.bytes)], consumed := m.consumed + 1)
  {
    hide Act, ByteStep;
    CountHeader(m.st);
    ActStatusLf(Count(m.st));
    StepConsume(m, LF, Act(Count(m.st), LF));
  }

  lemma DispatchNoPhraseLf(m: Machine)
    requires m.st.errno == OK && m.st.state == ResStatusStart && m.mark == Closed && !m.exited
    ensures Dispatch(m, LF) == m.(st := m.st.(state := HeaderFieldStart, index := 0), log := m.log + [Data(Status, [])])
  {
    hide Act, Dispatch;
    ActStatusLf(m.st);
    DispatchOnce(m, LF, Act(m.st, LF));
    var m1 := m.(st := m.st.(state := ResStatus, index := 0), mark := Opened(Status, []));
    ActStatusLf(m1.st);
    DispatchOnce(m1, LF, Act(m1.st, LF));
  }

  lemma StepNoPhraseLf(m: Machine)
    requires AtStatus(m, ResStatusStart)
    ensures ByteStep(m, LF) == m.(
      st := m.st.(state := HeaderFieldStart, index := 0, nread := m.st.nread + 1), consumed := m.consumed + 1,
      log := m.log + [Data(Status, [])])
  {
    hide Act, ByteStep, Dispatch;
    CountHeader(m.st);
    StepCounting(m, LF);
    DispatchNoPhraseLf(m.(st := Count(m.st)));
  }

  /** The parser behind the line. */
  function LineOver(m: Machine, reason: seq<byte>, n: nat): Machine {
    m.(st := m.st.(state := HeaderFieldStart, index := 0, nread := m.st.nread + n), consumed := m.consumed + n,
       log := m.log + [Data(Status, reason)])
  }

  lemma RunBareReason(m: Machine, reason: seq<byte>)
    requires Alive(m) && m.st.state == ResStatusStart && m.mark == Closed && NoLineEnd(reason)
    requires m.st.nread + |reason| + 1 <= MAX_HEADER_SIZE
    ensures Run(m, reason + [LF]) == LineOver(m, reason, |reason| + 1)
  {
    hide ByteStep, Run, NoLineEnd, InPhrase;
    RunSnoc(m, reason, LF);
    if reason == [] {
      RunEmpty(m);
      StepNoPhraseLf(m);
    } else {
      RunReasonText(m, reason);
      StepPhraseOver(m, reason);
    }
  }

  lemma StepPhraseOver(m: Machine, reason: seq<byte>)
    requires Alive(m) && m.mark == Closed && m.st.nread + |reason| < MAX_HEADER_SIZE
    ensures ByteStep(InPhrase(m, reason), LF) == LineOver(m, reason, |reason| + 1)
  {
    hide ByteStep;
    StepPhraseLf(InPhrase(m, reason));
  }

  lemma RunReasonEnd(m: Machine, reason: seq<byte>, bare: bool)
    requires Alive(m) && m.st.state == ResStatusStart && m.mark == Closed && NoLineEnd(reason)
    requires m.st.nread + |reason| + |LineEnd(bare)| <= MAX_HEADER_SIZE
    ensures Run(m, reason + LineEnd(bare)) == LineOver(m, reason, |reason| + |LineEnd(bare)|)
  {
    hide Run, NoLineEnd;
    if bare {
      RunBareReason(m, reason);
    } else {
      RunReason(m, reason);
    }
  }

  lemma RunGap(m: Machine, reason: seq<byte>, bare: bool)
    requires Alive(m) && m.st.state == ResStatusCode && m.mark == Closed && NoLineEnd(reason)
    requires m.st.nread + 1 + |reason| + |LineEnd(bare)| <= MAX_HEADER_SIZE
    ensures Run(m, [SP] + (reason + LineEnd(bare))) == LineOver(m, reason, 1 + |reason| + |LineEnd(bare)|)
  {
    hide Run, NoLineEnd, ByteStep, Moved, LineOver, LineEnd;
    LineEndSize(bare);
    StepCodeEnd(m);
    RunConcat(m, [SP], reason + LineEnd(bare));
    RunOne(m, SP);
    MovedFacts(m, ResStatusStart);
    RunReasonEnd(Moved(m, ResStatusStart), reason, bare);
    LineOverMoved(m, reason, |reason| + |LineEnd(bare)|);
  }

  lemma LineEndSize(bare: bool)
    ensures 1 <= |LineEnd(bare)| <= 2 && (LineEnd(bare)[0] == CR || LineEnd(bare)[0] == LF)
  {
  }

  lemma RunNoGap(m: Machine, bare: bool)
    requires Alive(m) && m.st.state == ResStatusCode && m.mark == Closed && m.st.nread + |LineEnd(bare)| <= MAX_HEADER_SIZE
    ensures Run(m, LineEnd(bare)) == LineOver(m, [], |LineEnd(bare)|)
  {
    hide Run, NoLineEnd, ByteStep, LineOver, LineEnd;
    LineEndSize(bare);
    var d, e := m.(st := m.st.(state := ResStatusStart)), LineEnd(bare);
    StepCodeLineEnd(m, e[0]);
    FirstAlike(m, d, e);
    NothingEnds();
    RunReasonEnd(d, [], bare);
    assert [] + e == e;
    LineOverSame(m, [], |e|);
  }

  /** Behind the code: a space and the reason, or nothing. */
  lemma RunBehindCode(m: Machine, reason: Option<seq<byte>>, bare: bool)
    requires Alive(m) && m.st.state == ResStatusCode && m.mark == Closed && (reason.Some? ==> NoLineEnd(reason.value))
    requires m.st.nread + |ReasonPart(reason)| + |LineEnd(bare)| <= MAX_HEADER_SIZE
    ensures Run(m, ReasonPart(reason) + LineEnd(bare))
         == LineOver(m, if reason.Some? then reason.value else [], |ReasonPart(reason)| + |LineEnd(bare)|)
  {
    hide Run, NoLineEnd, LineOver, LineEnd;
    if reason.Some? {
      assert ReasonPart(reason) + LineEnd(bare) == [SP] + (reason.value + LineEnd(bare));
      RunGap(m, reason.value, bare);
    } else {
      assert [] + LineEnd(bare) == LineEnd(bare);
      RunNoGap(m, bare);
    }
  }

  lemma NothingEnds()
    ensures NoLineEnd([])
  {
  }

  lemma RunOne(m: Machine, ch: byte)
    ensures Run(m, [ch]) == ByteStep(m, ch)
  {
    hide ByteStep;
    assert [ch][1..] == [];
  }

  lemma FirstAlike(m: Machine, d: Machine, s: seq<byte>)
    requires s != [] && ByteStep(m, s[0]) == ByteStep(d, s[0])
    ensures Run(m, s) == Run(d, s)
  {
    hide ByteStep;
  }

  lemma MovedFacts(m: Machine, s: State)
    requires Alive(m) && m.mark == Closed
    ensures Alive(Moved(m, s)) && Moved(m, s).mark == Closed && Moved(m, s).st.state == s
    ensures Moved(m, s).st.nread == m.st.nread + 1
  {
  }

  lemma LineOverMoved(m: Machine, reason: seq<byte>, n: nat)
    ensures LineOver(Moved(m, ResStatusStart), reason, n) == LineOver(m, reason, n + 1)
  {
  }

  lemma LineOverSame(m: Machine, reason: seq<byte>, n: nat)
    ensures LineOver(m.(st := m.st.(state := ResStatusStart)), reason, n) == LineOver(m, reason, n)
  {
  }

  // ---------- the whole line ----------

  lemma FormSize(f: StatusForm)
    ensures |FormText(f)| == 9 + |f.spaces| + |f.code| + |ReasonPart(f.reason)| + |LineEnd(f.bare)|
    ensures FormText(f) == PROTOCOL + (VersionCode(f.x, f.y) + (f.spaces + (f.code + (ReasonPart(f.reason) + LineEnd(f.bare)))))
  {
  }

  lemma RunNumbersForm(m: Machine, f: StatusForm)
    requires Alive(m) && m.st.state == ResHttpMajor && m.mark == Closed && FormOk(f)
    requires m.st.nread + 4 + |f.spaces| + |f.code| <= MAX_HEADER_SIZE
    ensures Run(m, VersionCode(f.x, f.y) + (f.spaces + f.code))
         == Plain(m, ResStatusCode, DigitOf(f.x), DigitOf(f.y), DecimalFrom(0, f.code), 4 + |f.spaces| + |f.code|)
  {
    hide Act, ByteStep, Run, Plain, VersionCode, IsNum, DigitOf, DecimalFrom, AllSpaces, IsDecimal, NoLineEnd;
    var a, b, c := DigitOf(f.x), DigitOf(f.y), m.st.statusCode;
    var v, s := VersionCode(f.x, f.y), |f.spaces|;
    RunVersion(m, f.x, f.y);
    PlainFacts(m, ResFirstStatusCode, a, b, c, 4);
    RunConcat(m, v, f.spaces + f.code);
    var m1 := Plain(m, ResFirstStatusCode, a, b, c, 4);
    RunSpaces(m1, f.spaces);
    PlainTwice(m, ResFirstStatusCode, a, b, c, 4, ResFirstStatusCode, a, b, c, s);
    RunConcat(m1, f.spaces, f.code);
    PlainFacts(m, ResFirstStatusCode, a, b, c, 4 + s);
    RunCodeText(Plain(m, ResFirstStatusCode, a, b, c, 4 + s), f.code);
    PlainTwice(m, ResFirstStatusCode, a, b, c, 4 + s, ResStatusCode, a, b, DecimalFrom(0, f.code), |f.code|);
  }

  lemma FormRegrouped(f: StatusForm)
    ensures FormText(f)
         == PROTOCOL + ((VersionCode(f.x, f.y) + (f.spaces + f.code)) + (ReasonPart(f.reason) + LineEnd(f.bare)))
  {
    hide VersionCode, ReasonPart, LineEnd;
  }

  lemma RunBehindProtocol(m: Machine, f: StatusForm)
    requires Alive(m) && m.st.state == ResHttpMajor && m.mark == Closed && FormOk(f)
    requires m.st.nread + 4 + |f.spaces| + |f.code| + |ReasonPart(f.reason) + LineEnd(f.bare)| <= MAX_HEADER_SIZE
    ensures var numbers, behind := VersionCode(f.x, f.y) + (f.spaces + f.code), ReasonPart(f.reason) + LineEnd(f.bare);
      Run(m, numbers + behind)
      == LineOver(Plain(m, ResStatusCode, DigitOf(f.x), DigitOf(f.y), DecimalFrom(0, f.code), 4 + |f.spaces| + |f.code|),
                  ReasonOf(f), |behind|)
  {
    hide Run, VersionCode, IsNum, DigitOf, DecimalFrom, AllSpaces, IsDecimal, NoLineEnd, ReasonPart, LineEnd, Plain, LineOver;
    var numbers, behind := VersionCode(f.x, f.y) + (f.spaces + f.code), ReasonPart(f.reason) + LineEnd(f.bare);
    RunNumbersForm(m, f);
    RunConcat(m, numbers, behind);
    PlainFacts(m, ResStatusCode, DigitOf(f.x), DigitOf(f.y), DecimalFrom(0, f.code), 4 + |f.spaces| + |f.code|);
    RunBehindCode(Run(m, numbers), f.reason, f.bare);
  }

  /** Every form of the line is read like the plain one. */
  lemma RunForm(m: Machine, f: StatusForm)
    requires Ready(m) && FormOk(f) && |FormText(f)| <= MAX_HEADER_SIZE
    ensures var n := |FormText(f)|;
      Run(m, FormText(f)) == m.(
        st := StatusRead(m.st, f.x, f.y, DecimalFrom(0, f.code), n), consumed := m.consumed + n,
        log := m.log + [MessageBegin, Data(Status, ReasonOf(f))])
  {
    hide ByteStep, Run, VersionCode, IsNum, DigitOf, DecimalFrom, AllSpaces, IsDecimal, NoLineEnd, ReasonPart, LineEnd, Plain,
         LineOver, StatusRead;
    FormSize(f);
    var numbers, behind := VersionCode(f.x, f.y) + (f.spaces + f.code), ReasonPart(f.reason) + LineEnd(f.bare);
    FormRegrouped(f);
    ReadyCounted(m);
    RunProtocolName(m);
    var m1 := Run(m, PROTOCOL);
    RunConcat(m, PROTOCOL, numbers + behind);
    RunBehindProtocol(m1, f);
    FormAddsUp(m, f.x, f.y, DecimalFrom(0, f.code), 4 + |f.spaces| + |f.code|, ReasonOf(f), |behind|);
  }

  /** The counters and callbacks of the parts add up. */
  lemma FormAddsUp(m: Machine, x: byte, y: byte, code: nat, k: nat, reason: seq<byte>, n: nat)
    requires Ready(m) && IsNum(x) && IsNum(y)
    ensures var m1 := m.(st := FreshMessage(m.st).(kind := Response, state := ResHttpMajor, nread := 5),
                         log := m.log + [MessageBegin], consumed := m.consumed + 5);
      LineOver(Plain(m1, ResStatusCode, DigitOf(x), DigitOf(y), code, k), reason, n)
      == m.(st := StatusRead(m.st, x, y, code, 5 + k + n), consumed := m.consumed + (5 + k + n),
            log := m.log + [MessageBegin, Data(Status, reason)])
  {
    assert m.log + [MessageBegin] + [Data(Status, reason)] == m.log + [MessageBegin, Data(Status, reason)];
  }

  // ---------- no other line ----------

  /** A line as far as it has been read. */
  datatype Draft = Draft(head: seq<byte>, spaces: seq<byte>, code: seq<byte>, gap: bool, reason: seq<byte>, cr: bool)

  function Sign(there: bool, ch: byte): seq<byte> {
    if there then [ch] else []
  }

  function DraftText(d: Draft): seq<byte> {
    d.head + d.spaces + d.code + Sign(d.gap, SP) + d.reason + Sign(d.cr, CR)
  }

  /** What may stand at place `k` of "HTTP/x.y ". */
  predicate HeadAllowed(k: nat, ch: byte) {
    if k == 0 then ch == 'H' as int
    else if k <= 2 then ch == 'T' as int
    else if k == 3 then ch == 'P' as int
    else if k == 4 then ch == '/' as int
    else if k == 6 then ch == '.' as int
    else if k == 8 then ch == SP
    else IsNum(ch)
  }

  function HeadState(k: nat, either: bool): State {
    match k
    case 1 => if either then ResOrRespH else ResH
    case 2 => ResHT
    case 3 => ResHTT
    case 4 => ResHTTP
    case 5 => ResHttpMajor
    case 6 => ResHttpDot
    case 7 => ResHttpMinor
    case _ => ResHttpEnd
  }

  function DraftState(d: Draft, either: bool): State {
    if |d.head| < 9 then HeadState(|d.head|, either)
    else if d.code == [] then ResFirstStatusCode
    else if d.cr then ResLineAlmostDone
    else if !d.gap then ResStatusCode
    else if d.reason == [] then ResStatusStart else ResStatus
  }

  predicate DraftOk(d: Draft) {
    && 1 <= |d.head| <= 9 && (forall i :: 0 <= i < |d.head| ==> HeadAllowed(i, d.head[i]))
    && (|d.head| < 9 ==> d.spaces == [] && d.code == [])
    && AllSpaces(d.spaces) && IsDecimal(d.code) && DecimalFrom(0, d.code) <= 999
    && (d.code == [] ==> !d.gap && !d.cr) && (!d.gap ==> d.reason == []) && NoLineEnd(d.reason)
  }

  function Extend(d: Draft, ch: byte): Draft {
    if |d.head| < 9 then d.(head := d.head + [ch])
    else if d.code == [] then (if ch == SP then d.(spaces := d.spaces + [ch]) else d.(code := [ch]))
    else if ch == CR then d.(cr := true)
    else if d.gap then d.(reason := d.reason + [ch])
    else if ch == SP then d.(gap := true)
    else d.(code := d.code + [ch])
  }

  /** What may follow. */
  predicate Allowed(d: Draft, ch: byte) {
    if |d.head| < 9 then HeadAllowed(|d.head|, ch)
    else if d.code == [] then ch == SP || IsNum(ch)
    else if d.cr then false
    else d.gap || ch == SP || ch == CR || (IsNum(ch) && IsDecimal(d.code) && DecimalFrom(0, d.code) * 10 + DigitOf(ch) <= 999)
  }

  lemma ExtendOk(d: Draft, ch: byte)
    requires DraftOk(d) && Allowed(d, ch) && ch != LF
    ensures DraftOk(Extend(d, ch)) && DraftText(Extend(d, ch)) == DraftText(d) + [ch]
  {
    ExtendText(d, ch);
    ExtendParts(d, ch);
  }

  lemma ExtendText(d: Draft, ch: byte)
    requires DraftOk(d) && Allowed(d, ch)
    ensures DraftText(Extend(d, ch)) == DraftText(d) + [ch]
  {
    hide HeadAllowed, IsNum, DecimalFrom, AllSpaces, IsDecimal, NoLineEnd;
  }

  lemma ExtendParts(d: Draft, ch: byte)
    requires DraftOk(d) && Allowed(d, ch) && ch != LF
    ensures DraftOk(Extend(d, ch))
  {
    hide HeadAllowed, IsNum, DecimalFrom;
    OneDigit(ch);
    MoreDigits(d.code, ch);
  }

  /** The parser behind the draft. */
  predicate At(m: Machine, d: Draft, either: bool) {
    && Alive(m) && m.st.nread == |DraftText(d)| && m.st.state == DraftState(d, either)
    && (if m.st.state == ResStatus then m.mark.Opened? else m.mark == Closed)
    && (m.st.state == ResStatusCode && IsDecimal(d.code) ==> m.st.statusCode == DecimalFrom(0, d.code))
  }

  lemma StepFails(m: Machine, ch: byte)
    requires Alive(m) && Count(m.st).errno == OK && Act(Count(m.st), ch).st.errno != OK && Act(Count(m.st), ch).next == Consume
    ensures ByteStep(m, ch).st.errno != OK
  {
    hide Act, ByteStep, Count;
    StepConsume(m, ch, Act(Count(m.st), ch));
  }

  lemma ActHeadRefuses(st: Parser, k: nat, either: bool, ch: byte)
    requires st.errno == OK && 1 <= k < 9 && st.state == HeadState(k, either) && !HeadAllowed(k, ch)
    requires either ==> k == 1 ==> ch != 'E' as int
    ensures Act(st, ch).st.errno != OK && Act(st, ch).next == Consume
  {
    hide Act;
    if k == 1 && either {
      ActEitherRefuses(st, ch);
    } else if k < 5 {
      ActProtocolRefuses(st, ch);
    } else {
      ActVersionRefuses(st, ch);
    }
  }

  lemma ActEitherRefuses(st: Parser, ch: byte)
    requires st.errno == OK && st.state == ResOrRespH && ch != 'T' as int && ch != 'E' as int
    ensures Act(st, ch).st.errno != OK && Act(st, ch).next == Consume
  {
    hide Lawful, Token, ActHeaders, ActBeforeValue, ActBody, ActChunkHeader, ActHeadersAlmostDone, ActHeadersDone, ActReqMethod,
         ActSpacesBeforeUrl, ActUrl, ActRequestProtocol, ActRequestVersion, ActResponseProtocol, ActResponseVersion,
         ActResponseStatus;
  }

  lemma ActProtocolRefuses(st: Parser, ch: byte)
    requires st.errno == OK
    requires ((st.state == ResH || st.state == ResHT) && ch != 'T' as int) || (st.state == ResHTT && ch != 'P' as int)
          || (st.state == ResHTTP && ch != '/' as int)
    ensures Act(st, ch).st.errno != OK && Act(st, ch).next == Consume
  {
    hide Lawful, Token, ActHeaders, ActBeforeValue, ActBody, ActChunkHeader, ActHeadersAlmostDone, ActHeadersDone, ActReqMethod,
         ActSpacesBeforeUrl, ActUrl, ActRequestProtocol, ActRequestVersion, ActStart, ActResponseVersion, ActResponseStatus;
  }

  lemma ActVersionRefuses(st: Parser, ch: byte)
    requires st.errno == OK
    requires ((st.state == ResHttpMajor || st.state == ResHttpMinor) && !IsNum(ch))
          || (st.state == ResHttpDot && ch != '.' as int) || (st.state == ResHttpEnd && ch != SP)
    ensures Act(st, ch).st.errno != OK && Act(st, ch).next == Consume
  {
    hide Lawful, Token, ActHeaders, ActBeforeValue, ActBody, ActChunkHeader, ActHeadersAlmostDone, ActHeadersDone, ActReqMethod,
         ActSpacesBeforeUrl, ActUrl, ActRequestProtocol, ActRequestVersion, ActStart, ActResponseProtocol;
  }

  lemma PlainMoves(m: Machine, s: State, a: nat, b: nat, c: nat)
    requires Alive(m) && m.mark == Closed
    ensures var r := Plain(m, s, a, b, c, 1); Alive(r) && r.mark == Closed && r.st.nread == m.st.nread + 1 && r.st.state == s
  {
  }

  lemma StepHeadGoes(m: Machine, k: nat, either: bool, ch: byte)
    requires AtStatus(m, HeadState(k, either)) && 1 <= k < 9 && HeadAllowed(k, ch)
    ensures var r := ByteStep(m, ch);
      && Alive(r) && r.mark == Closed && r.st.nread == m.st.nread + 1
      && r.st.state == if k == 8 then ResFirstStatusCode else HeadState(k + 1, either)
  {
    hide Act, ByteStep, Plain, IsNum, DigitOf;
    var a, b, c := m.st.httpMajor, m.st.httpMinor, m.st.statusCode;
    var s := if k == 8 then ResFirstStatusCode else HeadState(k + 1, either);
    PlainMoves(m, s, a, b, c);
    if k == 1 {
      StepSecond(m);
    } else if k < 5 {
      StepProtocol(m, ch);
    } else {
      StepVersion(m, ch);
      if k == 5 {
        PlainMoves(m, s, DigitOf(ch), b, c);
      } else if k == 7 {
        PlainMoves(m, s, a, DigitOf(ch), c);
      }
    }
  }

  lemma StepHeadPart(m: Machine, k: nat, either: bool, ch: byte)
    requires AtStatus(m, HeadState(k, either)) && 1 <= k < 9
    requires either ==> k == 1 ==> ch != 'E' as int
    ensures var r := ByteStep(m, ch);
      if HeadAllowed(k, ch) then
        && Alive(r) && r.mark == Closed && r.st.nread == m.st.nread + 1
        && r.st.state == if k == 8 then ResFirstStatusCode else HeadState(k + 1, either)
      else r.st.errno != OK
  {
    hide Act, ByteStep, Count;
    CountHeader(m.st);
    if HeadAllowed(k, ch) {
      StepHeadGoes(m, k, either, ch);
    } else {
      ActHeadRefuses(Count(m.st), k, either, ch);
      StepFails(m, ch);
    }
  }

  lemma ActCodeRefuses(st: Parser, ch: byte)
    requires st.errno == OK
    ensures st.state == ResFirstStatusCode && ch != SP && !IsNum(ch) ==> Act(st, ch).st.errno != OK && Act(st, ch).next == Consume
    ensures (
      st.state == ResStatusCode && ch != SP && ch != CR && ch != LF && (IsNum(ch) ==> st.statusCode * 10 + DigitOf(ch) > 999)
      ==> Act(st, ch).st.errno != OK && Act(st, ch).next == Consume)
    ensures st.state == ResLineAlmostDone && ch != LF ==> Act(st, ch).st.errno != OK && Act(st, ch).next == Consume
  {
    hide Lawful, Token, ActHeaders, ActBeforeValue, ActBody, ActChunkHeader, ActStart, ActHeadersAlmostDone, ActHeadersDone,
         ActReqMethod, ActSpacesBeforeUrl, ActUrl, ActRequestProtocol, ActRequestVersion, ActResponseProtocol,
         ActResponseVersion;
  }

  lemma StepFirstPart(m: Machine, ch: byte)
    requires AtStatus(m, ResFirstStatusCode)
    ensures var r := ByteStep(m, ch);
      if ch == SP || IsNum(ch) then
        && Alive(r) && r.mark == Closed && r.st.nread == m.st.nread + 1
        && (if ch == SP then r.st.state == ResFirstStatusCode else r.st.state == ResStatusCode && r.st.statusCode == DigitOf(ch))
      else r.st.errno != OK
  {
    hide Act, ByteStep, Count;
    CountHeader(m.st);
    if ch == SP {
      StepSpaceBefore(m);
    } else if IsNum(ch) {
      StepFirstDigit(m, ch);
    } else {
      ActCodeRefuses(Count(m.st), ch);
      StepFails(m, ch);
    }
  }

  lemma DigitIsNoMark(ch: byte)
    ensures IsNum(ch) ==> ch != SP && ch != CR && ch != LF
  {
  }

  lemma StepCodePart(m: Machine, ch: byte)
    requires AtStatus(m, ResStatusCode) && ch != LF
    ensures var r := ByteStep(m, ch);
      if ch == SP || ch == CR || (IsNum(ch) && m.st.statusCode * 10 + DigitOf(ch) <= 999) then
        && Alive(r) && r.mark == Closed && r.st.nread == m.st.nread + 1
        && r.st.state == (if ch == SP then ResStatusStart else if ch == CR then ResLineAlmostDone else ResStatusCode)
        && (IsNum(ch) ==> r.st.statusCode == m.st.statusCode * 10 + DigitOf(ch))
      else r.st.errno != OK
  {
    hide Act, ByteStep, Count, IsNum, DigitOf;
    CountHeader(m.st);
    DigitIsNoMark(ch);
    if ch == SP {
      StepCodeEnd(m);
    } else if ch == CR {
      StepCodeLineEnd(m, CR);
      StepNoPhrase(m.(st := m.st.(state := ResStatusStart)));
    } else if IsNum(ch) && m.st.statusCode * 10 + DigitOf(ch) <= 999 {
      StepDigit(m, ch);
    } else {
      ActCodeRefuses(Count(m.st), ch);
      StepFails(m, ch);
    }
  }

  lemma StepReasonPart(m: Machine, ch: byte)
    requires Alive(m) && m.st.nread < MAX_HEADER_SIZE && ch != LF
    requires (m.st.state == ResStatusStart && m.mark == Closed) || (m.st.state == ResStatus && m.mark.Opened?)
    ensures var r := ByteStep(m, ch);
      && Alive(r) && r.st.nread == m.st.nread + 1
      && (if ch == CR then r.mark == Closed && r.st.state == ResLineAlmostDone else r.mark.Opened? && r.st.state == ResStatus)
  {
    hide Act, ByteStep;
    if m.st.state == ResStatusStart {
      if ch == CR {
        StepNoPhrase(m);
      } else {
        StepPhraseStart(m, ch);
      }
    } else if ch == CR {
      StepPhraseCr(m);
    } else {
      StepPhrase(m, ch);
    }
  }

  lemma StepLastPart(m: Machine, ch: byte)
    requires AtStatus(m, ResLineAlmostDone) && ch != LF
    ensures ByteStep(m, ch).st.errno != OK
  {
    hide Act, ByteStep, Count;
    CountHeader(m.st);
    ActCodeRefuses(Count(m.st), ch);
    StepFails(m, ch);
  }

  /** One more octet of the line. */
  lemma StepDraft(m: Machine, d: Draft, either: bool, ch: byte)
    requires DraftOk(d) && At(m, d, either) && ch != LF && m.st.nread < MAX_HEADER_SIZE
    requires either ==> |d.head| == 1 ==> ch != 'E' as int
    ensures if Allowed(d, ch) then At(ByteStep(m, ch), Extend(d, ch), either) else ByteStep(m, ch).st.errno != OK
  {
    hide Act, ByteStep, HeadAllowed, IsNum, DecimalFrom, AllSpaces, IsDecimal, NoLineEnd, DraftText;
    if Allowed(d, ch) {
      ExtendText(d, ch);
    }
    if |d.head| < 9 {
      StepHeadPart(m, |d.head|, either, ch);
    } else if d.code == [] {
      StepFirstPart(m, ch);
      OneDigit(ch);
    } else {
      StepBehindCode(m, d, either, ch);
    }
  }

  lemma StepBehindCode(m: Machine, d: Draft, either: bool, ch: byte)
    requires DraftOk(d) && At(m, d, either) && ch != LF && m.st.nread < MAX_HEADER_SIZE && |d.head| == 9 && d.code != []
    requires Allowed(d, ch) ==> DraftText(Extend(d, ch)) == DraftText(d) + [ch]
    ensures if Allowed(d, ch) then At(ByteStep(m, ch), Extend(d, ch), either) else ByteStep(m, ch).st.errno != OK
  {
    hide Act, ByteStep, HeadAllowed, IsNum, DecimalFrom, AllSpaces, IsDecimal, NoLineEnd, DraftText;
    if d.cr {
      StepLastPart(m, ch);
    } else if d.gap {
      StepReasonPart(m, ch);
    } else {
      StepCodePart(m, ch);
      MoreDigits(d.code, ch);
    }
  }

  lemma OneDigit(ch: byte)
    ensures IsNum(ch) ==> IsDecimal([ch]) && DecimalFrom(0, [ch]) == DigitOf(ch) <= 9
  {
    assert [ch][1..] == [];
  }

  lemma MoreDigits(code: seq<byte>, ch: byte)
    requires IsDecimal(code)
    ensures IsNum(ch) ==> IsDecimal(code + [ch]) && DecimalFrom(0, code + [ch]) == DecimalFrom(0, code) * 10 + DigitOf(ch)
    ensures ch == SP || ch == CR ==> !IsNum(ch)
  {
    if IsNum(ch) {
      DecimalSnoc(0, code, ch);
    }
  }

  /** The parser's state decides between a response and a request at the second octet. */
  predicate Either(m: Machine) {
    m.st.state == StartReqOrRes
  }

  /** A line, without its line feed, that a parser for responses may be given. */
  predicate IsLine(m: Machine, w: seq<byte>) {
    && w != [] && LF !in w && w[0] != CR && |w| < MAX_HEADER_SIZE
    && (Either(m) ==> |w| > 1 && w[0] == 'H' as int && w[1] == 'T' as int)
  }

  lemma ActStartRefuses(st: Parser, ch: byte)
    requires st.errno == OK && st.state == StartRes && ch != 'H' as int && ch != CR && ch != LF
    ensures Act(st, ch).st.errno != OK && Act(st, ch).next == Consume
  {
    hide Lawful, Token, ActHeaders, ActBeforeValue, ActBody, ActChunkHeader, ActHeadersAlmostDone, ActHeadersDone, ActReqMethod,
         ActSpacesBeforeUrl, ActUrl, ActRequestProtocol, ActRequestVersion, ActResponseProtocol, ActResponseVersion,
         ActResponseStatus;
  }

  lemma ReadyCounted(m: Machine)
    requires Ready(m)
    ensures Alive(m) && m.mark == Closed && Count(m.st).errno == OK && Count(m.st).state == m.st.state
    ensures !Either(m) ==> m.st.state == StartRes
  {
  }

  const FIRST: Draft := Draft(['H' as int], [], [], false, [], false)

  lemma FirstOctet(m: Machine, ch: byte)
    requires Ready(m) && ch != CR && ch != LF && (Either(m) ==> ch == 'H' as int)
    ensures if ch == 'H' as int then At(ByteStep(m, ch), FIRST, Either(m)) && DraftOk(FIRST) && DraftText(FIRST) == [ch]
            else ByteStep(m, ch).st.errno != OK
  {
    hide Act, ByteStep, Count;
    ReadyCounted(m);
    if ch == 'H' as int {
      StepBegin(m);
      assert NoLineEnd([]);
    } else {
      ActStartRefuses(Count(m.st), ch);
      StepFails(m, ch);
    }
  }

  /** Every beginning of a line that has not been refused is a draft. */
  lemma {:induction false} Drafted(m: Machine, w: seq<byte>) returns (d: Draft)
    requires Ready(m) && w != [] && LF !in w && w[0] != CR && |w| < MAX_HEADER_SIZE && Run(m, w).st.errno == OK
    requires Either(m) ==> w[0] == 'H' as int && (|w| > 1 ==> w[1] == 'T' as int)
    ensures DraftOk(d) && At(Run(m, w), d, Either(m)) && DraftText(d) == w
    decreases |w|
  {
    hide Act, ByteStep, Run, At, DraftOk, DraftText, Extend, Ready;
    var k := |w| - 1;
    var init, ch := w[..k], w[k];
    assert w == init + [ch];
    RunSnoc(m, init, ch);
    if init == [] {
      RunEmpty(m);
      FirstOctet(m, ch);
      assert w == [ch];
      d := FIRST;
    } else {
      var r := Run(m, init);
      if r.st.errno != OK {
        AliveOrNot(r);
        StepStopped(r, ch);
        d := FIRST;
      } else {
        var e := Drafted(m, init);
        AtFacts(r, e, Either(m));
        StepDraft(r, e, Either(m), ch);
        ExtendOk(e, ch);
        d := Extend(e, ch);
      }
    }
  }

  lemma AliveOrNot(m: Machine)
    requires m.st.errno != OK
    ensures !Alive(m)
  {
  }

  lemma AtFacts(m: Machine, d: Draft, either: bool)
    requires At(m, d, either) && DraftOk(d)
    ensures Alive(m) && m.st.nread == |DraftText(d)| && (|d.head| == 1 ==> |DraftText(d)| == 1)
  {
  }

  /** The form that a draft has become at the line feed. */
  function FormOf(d: Draft): StatusForm
    requires |d.head| == 9
  {
    StatusForm(d.head[5], d.head[7], d.spaces, d.code, if d.gap then Some(d.reason) else None, !d.cr)
  }

  lemma DraftHead(h: seq<byte>)
    requires |h| == 9 && forall i :: 0 <= i < |h| ==> HeadAllowed(i, h[i])
    ensures h == PROTOCOL + VersionCode(h[5], h[7]) && IsNum(h[5]) && IsNum(h[7])
  {
    assert HeadAllowed(0, h[0]) && HeadAllowed(1, h[1]) && HeadAllowed(2, h[2]) && HeadAllowed(3, h[3]) && HeadAllowed(4, h[4]);
    assert HeadAllowed(5, h[5]) && HeadAllowed(6, h[6]) && HeadAllowed(7, h[7]) && HeadAllowed(8, h[8]);
  }

  lemma DraftIsForm(d: Draft)
    requires DraftOk(d) && |d.head| == 9 && d.code != []
    ensures FormOk(FormOf(d)) && FormText(FormOf(d)) == DraftText(d) + [LF]
  {
    hide HeadAllowed, IsNum, DecimalFrom, AllSpaces, IsDecimal, NoLineEnd, VersionCode;
    DraftHead(d.head);
    assert d.reason + [] == d.reason;
    assert [CR] + [LF] == CRLF;
  }

  /** Only behind a code does a line feed end the line. */
  lemma LineFeedEnds(m: Machine, d: Draft, either: bool)
    requires DraftOk(d) && At(m, d, either) && m.st.nread < MAX_HEADER_SIZE && ByteStep(m, LF).st.errno == OK
    ensures |d.head| == 9 && d.code != []
  {
    hide Act, ByteStep, IsNum, DecimalFrom, AllSpaces, IsDecimal, NoLineEnd, DraftText;
    if |d.head| < 9 {
      assert !IsNum(LF) by {
        LineFeedIsNoDigit();
      }
      StepHeadPart(m, |d.head|, either, LF);
    } else if d.code == [] {
      LineFeedIsNoDigit();
      StepFirstPart(m, LF);
    }
  }

  lemma LineFeedIsNoDigit()
    ensures !IsNum(LF)
  {
  }

  /** A line is taken as the status line of a response if and only if it has one of the forms above. */
  lemma StatusLineExact(m: Machine, w: seq<byte>)
    requires Ready(m) && IsLine(m, w)
    ensures Run(m, w + [LF]).st.errno == OK <==> exists f: StatusForm :: FormOk(f) && FormText(f) == w + [LF]
  {
    hide Act, ByteStep, Run, At, DraftOk, FormOk, FormText, Ready, FormOf;
    forall f: StatusForm | FormOk(f) && FormText(f) == w + [LF] ensures Run(m, w + [LF]).st.errno == OK {
      RunForm(m, f);
      FormRead(m, f);
    }
    RunSnoc(m, w, LF);
    var r := Run(m, w);
    if Run(m, w + [LF]).st.errno == OK {
      if r.st.errno != OK {
        AliveOrNot(r);
        StepStopped(r, LF);
      } else {
        var d := Drafted(m, w);
        AtFacts(r, d, Either(m));
        LineFeedEnds(r, d, Either(m));
        DraftIsForm(d);
      }
    }
  }

  lemma FormRead(m: Machine, f: StatusForm)
    requires Ready(m) && FormOk(f)
    ensures StatusRead(m.st, f.x, f.y, DecimalFrom(0, f.code), 0).errno == OK
    ensures forall n: nat :: StatusRead(m.st, f.x, f.y, DecimalFrom(0, f.code), n).errno == OK
  {
  }
}
